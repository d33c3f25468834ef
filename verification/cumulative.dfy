/** `cumulative_graph` of static/js/ngram-viewer.js: per-series running sums,
    written back into the input array as they are computed. */
module Cumulative {
  import opened SeriesData

  /** Point `p` carries the sum of the `y` values at indices `0..p`. */
  function Accumulated(ps: seq<Point>): (r: seq<Point>)
    ensures |r| == |ps|
  {
    seq(|ps|, p requires 0 <= p < |ps| => Point(ps[p].x, Sum(Ys(ps)[..p + 1])))
  }

  /** The loop over one series: `values[pair].y += values[pair - 1].y` for
      every `pair > 0`, copying each point into `new_values` as it goes. Both
      the copy and the edited input end up holding the running sums. */
  method CumulativeSeries(values: seq<Point>) returns (sums: seq<Point>, updated: seq<Point>)
    ensures |sums| == |values|
    ensures forall p :: 0 <= p < |values| ==> sums[p].x == values[p].x
    ensures forall p :: 0 <= p < |values| ==> sums[p].y == Sum(Ys(values)[..p + 1])
    ensures updated == sums
  {
    updated := values;
    sums := [];
    var pair := 0;
    while pair < |updated|
      invariant 0 <= pair <= |values| && |updated| == |values|
      invariant updated[..pair] == Accumulated(values)[..pair]
      invariant updated[pair..] == values[pair..]
      invariant sums == updated[..pair]
    {
      ghost var expected := Accumulated(values);
      if pair > 0 {
        PrefixSumStep(values, pair);
        updated := updated[pair := Point(updated[pair].x, updated[pair].y + updated[pair - 1].y)];
      } else {
        assert Ys(values)[..1] == [values[0].y];
        assert Sum([values[0].y]) == Sum([]) + values[0].y;
      }
      assert updated[pair] == expected[pair];
      TakeSnoc(updated, pair);
      TakeSnoc(expected, pair);
      sums := sums + [Point(updated[pair].x, updated[pair].y)];
      pair := pair + 1;
    }
    TakeAll(updated);
  }

  lemma PrefixSumStep(values: seq<Point>, p: nat)
    requires 0 < p < |values|
    ensures Sum(Ys(values)[..p + 1]) == Sum(Ys(values)[..p]) + values[p].y
  {
    assert Ys(values)[..p + 1][..p] == Ys(values)[..p];
  }

  /** `cumulative_graph(data)`: the result holds new series objects (keys kept,
      not disabled) with running sums; `updated` is `data` after the in-place
      edits, carrying the same sums. */
  method CumulativeGraph(data: seq<Series>) returns (result: seq<Series>, updated: seq<Series>)
    ensures |result| == |data| && |updated| == |data|
    ensures forall i :: 0 <= i < |data| ==> result[i] == Series(data[i].key, Accumulated(data[i].values), false)
    ensures forall i :: 0 <= i < |data| ==> updated[i] == data[i].(values := Accumulated(data[i].values))
  {
    result := [];
    updated := data;
    var i := 0;
    while i < |data|
      invariant 0 <= i <= |data| && |result| == i && |updated| == |data|
      invariant forall q :: 0 <= q < i ==> result[q] == Series(data[q].key, Accumulated(data[q].values), false)
      invariant forall q :: 0 <= q < i ==> updated[q] == data[q].(values := Accumulated(data[q].values))
      invariant forall q :: i <= q < |data| ==> updated[q] == data[q]
    {
      var sums, edited := CumulativeSeries(data[i].values);
      SumsAreAccumulated(data[i].values, sums);
      updated := updated[i := data[i].(values := edited)];
      result := result + [Series(data[i].key, sums, false)];
      i := i + 1;
    }
  }

  lemma SumsAreAccumulated(values: seq<Point>, sums: seq<Point>)
    requires |sums| == |values|
    requires forall p :: 0 <= p < |values| ==> sums[p].x == values[p].x
    requires forall p :: 0 <= p < |values| ==> sums[p].y == Sum(Ys(values)[..p + 1])
    ensures sums == Accumulated(values)
  {
  }

  /** The running sums invert to the input: consecutive differences give back
      every original `y`. */
  lemma DifferencesRecoverInput(ps: seq<Point>)
    ensures |ps| > 0 ==> Accumulated(ps)[0].y == ps[0].y
    ensures forall p :: 0 < p < |ps| ==> Accumulated(ps)[p].y - Accumulated(ps)[p - 1].y == ps[p].y
  {
    if |ps| > 0 {
      assert Ys(ps)[..1] == [ps[0].y];
      assert Sum([ps[0].y]) == Sum([]) + ps[0].y;
    }
    forall p | 0 < p < |ps|
      ensures Accumulated(ps)[p].y - Accumulated(ps)[p - 1].y == ps[p].y
    {
      PrefixSumStep(ps, p);
    }
  }

  /** Accumulating is not idempotent: [1, 2, 3] gives [1, 3, 6], and
      accumulating that again gives [1, 4, 10]. */
  lemma NotIdempotent()
    ensures var s := [Point(1, 1.0), Point(2, 2.0), Point(3, 3.0)];
      && Accumulated(s) == [Point(1, 1.0), Point(2, 3.0), Point(3, 6.0)]
      && Accumulated(Accumulated(s)) == [Point(1, 1.0), Point(2, 4.0), Point(3, 10.0)]
  {
    var s := [Point(1, 1.0), Point(2, 2.0), Point(3, 3.0)];
    DifferencesRecoverInput(s);
    var a := Accumulated(s);
    assert a[0] == Point(1, 1.0) && a[1] == Point(2, 3.0) && a[2] == Point(3, 6.0);
    assert a == [Point(1, 1.0), Point(2, 3.0), Point(3, 6.0)];
    DifferencesRecoverInput(a);
    var b := Accumulated(a);
    assert b[0] == Point(1, 1.0) && b[1] == Point(2, 4.0) && b[2] == Point(3, 10.0);
  }
}
