/** `smooth_data` of static/js/ngram-viewer.js: a centre-weighted moving
    average over a window clamped to the series, preceded by the in-place
    switch of every point to the value kind the frequency mode asks for. */
module Smoothing {
  import opened Wrappers
  import opened SeriesData

  /** The in-place edit of one point: in absolute mode a point that has `f`
      gets `y := f`; in either mode `f` is deleted. */
  function Swap(p: RawPoint, mode: Mode): RawPoint {
    match p.f
    case None => p
    case Some(f) => if mode == Absolute then RawPoint(p.x, f, None) else RawPoint(p.x, p.y, None)
  }

  function SwapAll(ps: seq<RawPoint>, mode: Mode): (r: seq<RawPoint>)
    ensures |r| == |ps|
    ensures forall i :: 0 <= i < |ps| ==> r[i] == Swap(ps[i], mode)
  {
    seq(|ps|, i requires 0 <= i < |ps| => Swap(ps[i], mode))
  }

  /** The array as the loop sees it while averaging point `p`: points up to
      and including `p` are already switched, later ones are not yet. */
  function Stage(ps: seq<RawPoint>, mode: Mode, p: nat): seq<RawPoint>
    requires p < |ps|
  {
    SwapAll(ps[..p + 1], mode) + ps[p + 1..]
  }

  /** First index of the window: `Math.max(0, p - k)`. */
  function WindowLo(p: nat, k: nat): nat {
    if p >= k then p - k else 0
  }

  /** One past the last index: `slice` stops at `p + k + 1` or at the end. */
  function WindowHi(p: nat, k: nat, n: nat): nat {
    if p + k + 1 <= n then p + k + 1 else n
  }

  /** The centre-weighted average at `p`: twice the centre plus the clamped
      window (which contains the centre once more), over the window size + 2. */
  function CenterAvg(ys: seq<real>, p: nat, k: nat): real
    requires p < |ys|
  {
    var lo := WindowLo(p, k);
    var hi := WindowHi(p, k, |ys|);
    WeightedMean(2.0 * ys[p] + Sum(ys[lo..hi]), hi - lo)
  }

  lemma CenterAvgUnfold(ys: seq<real>, p: nat, k: nat, lo: nat, hi: nat, total: real)
    requires p < |ys|
    requires lo == (if p >= k then p - k else 0)
    requires hi == (if p + k + 1 <= |ys| then p + k + 1 else |ys|)
    requires total == 2.0 * ys[p] + Sum(ys[lo..hi])
    ensures WeightedMean(total, hi - lo) == CenterAvg(ys, p, k)
  {
  }

  /** `avg / (slice.length + 2)`. */
  function WeightedMean(total: real, windowSize: nat): real {
    total / ((windowSize + 2) as real)
  }

  /** What `smooth_data` computes for one series, as written: point `p` is
      averaged over the array in its intermediate state `Stage(ps, mode, p)`. */
  function SmoothedAsWritten(ps: seq<RawPoint>, k: nat, mode: Mode): (r: seq<Point>)
    ensures |r| == |ps|
  {
    seq(|ps|, p requires 0 <= p < |ps| => Point(ps[p].x, CenterAvg(RawYs(Stage(ps, mode, p)), p, k)))
  }

  /** The same average taken after every point has been switched: the window
      never mixes relative and absolute values. */
  function SmoothedSwappedFirst(ps: seq<RawPoint>, k: nat, mode: Mode): (r: seq<Point>)
    ensures |r| == |ps|
  {
    var swapped := SwapAll(ps, mode);
    seq(|ps|, p requires 0 <= p < |ps| => Point(ps[p].x, CenterAvg(RawYs(swapped), p, k)))
  }

  /** The inner loop of `smooth_data` over one series' `values`, editing the
      array in place. `updated` is the array afterwards. */
  method SmoothSeries(values: seq<RawPoint>, k: nat, mode: Mode) returns (smoothed: seq<Point>, updated: seq<RawPoint>)
    ensures smoothed == SmoothedAsWritten(values, k, mode)
    ensures |updated| == |values|
    ensures forall p :: 0 <= p < |values| ==> updated[p].x == values[p].x && updated[p].f.None?
    ensures forall p :: 0 <= p < |values| && mode == Absolute && values[p].f.Some? ==> updated[p].y == values[p].f.value
    ensures forall p :: 0 <= p < |values| && (mode == Relative || values[p].f.None?) ==> updated[p].y == values[p].y
    ensures updated == SwapAll(values, mode)
  {
    updated := values;
    smoothed := [];
    var pair := 0;
    while pair < |updated|
      invariant 0 <= pair <= |values| && |updated| == |values|
      invariant forall q :: 0 <= q < pair ==> updated[q] == Swap(values[q], mode)
      invariant forall q :: pair <= q < |values| ==> updated[q] == values[q]
      invariant smoothed == SmoothedAsWritten(values, k, mode)[..pair]
    {
      updated := updated[pair := Swap(updated[pair], mode)];
      StageIs(values, mode, pair, updated);
      var avg := WindowAverage(updated, pair, k);
      ghost var expected := SmoothedAsWritten(values, k, mode);
      assert Point(updated[pair].x, avg) == expected[pair];
      TakeSnoc(expected, pair);
      smoothed := smoothed + [Point(updated[pair].x, avg)];
      pair := pair + 1;
    }
    assert updated == SwapAll(values, mode);
    SwapAllPoints(values, mode);
    TakeAll(SmoothedAsWritten(values, k, mode));
  }

  /** After the switch every point keeps its `x` and has lost `f`; in absolute
      mode a point that had `f` now has it as `y`, every other point keeps `y`. */
  lemma SwapAllPoints(values: seq<RawPoint>, mode: Mode)
    ensures var updated := SwapAll(values, mode);
      && |updated| == |values|
      && (forall p :: 0 <= p < |values| ==> updated[p].x == values[p].x && updated[p].f.None?)
      && (forall p :: 0 <= p < |values| && mode == Absolute && values[p].f.Some? ==> updated[p].y == values[p].f.value)
      && (forall p :: 0 <= p < |values| && (mode == Relative || values[p].f.None?) ==> updated[p].y == values[p].y)
  {
  }

  /** The loop with the switch done first, over the whole series, so that every
      window holds one kind of value. */
  method SmoothSeriesSwappedFirst(values: seq<RawPoint>, k: nat, mode: Mode) returns (smoothed: seq<Point>, updated: seq<RawPoint>)
    ensures smoothed == SmoothedSwappedFirst(values, k, mode)
    ensures updated == SwapAll(values, mode)
  {
    updated := SwapAll(values, mode);
    smoothed := [];
    var pair := 0;
    while pair < |updated|
      invariant 0 <= pair <= |values| && |updated| == |values|
      invariant smoothed == SmoothedSwappedFirst(values, k, mode)[..pair]
    {
      var avg := WindowAverage(updated, pair, k);
      ghost var expected := SmoothedSwappedFirst(values, k, mode);
      assert Point(values[pair].x, avg) == expected[pair];
      TakeSnoc(expected, pair);
      smoothed := smoothed + [Point(values[pair].x, avg)];
      pair := pair + 1;
    }
    TakeAll(SmoothedSwappedFirst(values, k, mode));
  }

  /** Lines 499-504: `slice` is the clamped window, `avg` starts at twice the
      centre and adds every `y` of the slice, then is divided by its length + 2. */
  method WindowAverage(values: seq<RawPoint>, pair: nat, k: nat) returns (avg: real)
    requires pair < |values|
    ensures avg == CenterAvg(RawYs(values), pair, k)
  {
    var lo := if pair >= k then pair - k else 0;
    var hi := if pair + k + 1 <= |values| then pair + k + 1 else |values|;
    var slice := values[lo..hi];
    avg := 2.0 * values[pair].y;
    var j := 0;
    while j < |slice|
      invariant 0 <= j <= |slice|
      invariant avg == 2.0 * values[pair].y + Sum(RawYs(slice[..j]))
    {
      SumSnoc(slice, j);
      avg := avg + slice[j].y;
      j := j + 1;
    }
    WindowYs(values, lo, hi);
    assert slice[..j] == slice;
    CenterAvgUnfold(RawYs(values), pair, k, lo, hi, avg);
    avg := WeightedMean(avg, |slice|);
  }

  /** An array switched up to and including `p`, and untouched after it, is
      `Stage(ps, mode, p)`. */
  lemma StageIs(ps: seq<RawPoint>, mode: Mode, p: nat, u: seq<RawPoint>)
    requires p < |ps| == |u|
    requires forall q :: 0 <= q <= p ==> u[q] == Swap(ps[q], mode)
    requires forall q :: p < q < |ps| ==> u[q] == ps[q]
    ensures u == Stage(ps, mode, p)
  {
    var st := Stage(ps, mode, p);
    forall q | 0 <= q < |ps|
      ensures u[q] == st[q]
    {
      if q <= p {
        assert st[q] == SwapAll(ps[..p + 1], mode)[q];
      } else {
        assert st[q] == ps[p + 1..][q - p - 1];
      }
    }
  }

  lemma SumSnoc(s: seq<RawPoint>, j: nat)
    requires j < |s|
    ensures Sum(RawYs(s[..j + 1])) == Sum(RawYs(s[..j])) + s[j].y
  {
    assert RawYs(s[..j + 1])[..j] == RawYs(s[..j]);
  }

  lemma WindowYs(s: seq<RawPoint>, lo: nat, hi: nat)
    requires lo <= hi <= |s|
    ensures RawYs(s[lo..hi][..hi - lo]) == RawYs(s)[lo..hi]
  {
  }

  /** `smooth_data(data, k)`: every series smoothed, keys and order kept; the
      second result is `data` as the in-place edits leave it. */
  method SmoothData(data: seq<RawSeries>, k: nat, mode: Mode) returns (result: seq<Series>, updated: seq<RawSeries>)
    ensures |result| == |data| && |updated| == |data|
    ensures forall i :: 0 <= i < |data| ==>
      result[i] == Series(data[i].key, SmoothedAsWritten(data[i].values, k, mode), false)
    ensures forall i :: 0 <= i < |data| ==>
      updated[i] == RawSeries(data[i].key, SwapAll(data[i].values, mode))
  {
    result := [];
    updated := data;
    var i := 0;
    while i < |data|
      invariant 0 <= i <= |data|
      invariant |result| == i && |updated| == |data|
      invariant forall q :: 0 <= q < i ==>
        result[q] == Series(data[q].key, SmoothedAsWritten(data[q].values, k, mode), false)
      invariant forall q :: 0 <= q < i ==> updated[q] == RawSeries(data[q].key, SwapAll(data[q].values, mode))
      invariant forall q :: i <= q < |data| ==> updated[q] == data[q]
    {
      var newValues, edited := SmoothSeries(data[i].values, k, mode);
      updated := updated[i := RawSeries(data[i].key, edited)];
      result := result + [Series(data[i].key, newValues, false)];
      i := i + 1;
    }
  }

  /** Output shape: same number of series, same keys in the same order, same
      point count and the same `x` at every index. */
  lemma SmoothKeepsShape(ps: seq<RawPoint>, k: nat, mode: Mode)
    ensures |SmoothedAsWritten(ps, k, mode)| == |ps|
    ensures forall p :: 0 <= p < |ps| ==> SmoothedAsWritten(ps, k, mode)[p].x == ps[p].x
  {
  }

  /** Switching leaves `y` alone in relative mode and on points without `f`. */
  lemma {:induction false} SwapKeepsY(ps: seq<RawPoint>, mode: Mode)
    requires mode == Relative || forall i :: 0 <= i < |ps| ==> ps[i].f.None?
    ensures RawYs(SwapAll(ps, mode)) == RawYs(ps)
  {
  }

  /** The intermediate array has the same `y` column as the fully switched one
      whenever switching does not change `y`. */
  lemma StageYsWhenNoMixing(ps: seq<RawPoint>, mode: Mode, p: nat)
    requires p < |ps|
    requires mode == Relative || forall i :: 0 <= i < |ps| ==> ps[i].f.None?
    ensures RawYs(Stage(ps, mode, p)) == RawYs(SwapAll(ps, mode))
  {
    var st := Stage(ps, mode, p);
    var sw := SwapAll(ps, mode);
    forall i | 0 <= i < |ps|
      ensures st[i].y == sw[i].y
    {
      if i > p {
        assert st[i] == ps[i];
      }
    }
  }

  /** In relative mode, or on data without `f`, the as-written pass and the
      switch-first pass agree. */
  lemma AsWrittenAgreesWithoutMixing(ps: seq<RawPoint>, k: nat, mode: Mode)
    requires mode == Relative || forall i :: 0 <= i < |ps| ==> ps[i].f.None?
    ensures SmoothedAsWritten(ps, k, mode) == SmoothedSwappedFirst(ps, k, mode)
  {
    forall p | 0 <= p < |ps|
      ensures SmoothedAsWritten(ps, k, mode)[p] == SmoothedSwappedFirst(ps, k, mode)[p]
    {
      StageYsWhenNoMixing(ps, mode, p);
    }
  }

  /** Smoothing the array a second time (what `smooth_update` does with the
      edited `raw_data`) yields the switch-first result for the original data. */
  lemma ResmoothingMatchesSwappedFirst(ps: seq<RawPoint>, k: nat, mode: Mode)
    ensures SmoothedAsWritten(SwapAll(ps, mode), k, mode) == SmoothedSwappedFirst(ps, k, mode)
  {
    var sw := SwapAll(ps, mode);
    AsWrittenAgreesWithoutMixing(sw, k, mode);
    assert SwapAll(sw, mode) == sw;
  }

  /** Radius 0 reproduces the switched value exactly: (2v + v) / 3 = v. */
  lemma RadiusZeroIsIdentity(ps: seq<RawPoint>, mode: Mode)
    ensures forall p :: 0 <= p < |ps| ==> SmoothedAsWritten(ps, 0, mode)[p] == Point(ps[p].x, Swap(ps[p], mode).y)
  {
    forall p | 0 <= p < |ps|
      ensures SmoothedAsWritten(ps, 0, mode)[p] == Point(ps[p].x, Swap(ps[p], mode).y)
    {
      var ys := RawYs(Stage(ps, mode, p));
      assert ys[p..p + 1] == [ys[p]];
      assert Sum([ys[p]]) == Sum([]) + ys[p];
    }
  }

  /** A series that is constant after switching stays constant. */
  lemma ConstantStaysConstant(ps: seq<RawPoint>, k: nat, mode: Mode, c: real)
    requires forall i :: 0 <= i < |ps| ==> Swap(ps[i], mode).y == c
    ensures forall p :: 0 <= p < |ps| ==> SmoothedSwappedFirst(ps, k, mode)[p].y == c
  {
    var ys := RawYs(SwapAll(ps, mode));
    assert |ys| == |ps|;
    forall p | 0 <= p < |ps|
      ensures SmoothedSwappedFirst(ps, k, mode)[p].y == c
    {
      assert SmoothedSwappedFirst(ps, k, mode)[p].y == CenterAvg(ys, p, k);
      CenterAvgConstant(ys, p, k, c);
    }
  }

  /** The pass as written keeps a series constant when switching cannot change
      it: every `y` is `c` and, in absolute mode, every `f` present is `c`
      too. (`FirstPassMixesValueKinds` shows a series that is constant after
      switching but does not stay constant.) */
  lemma ConstantStaysConstantAsWritten(ps: seq<RawPoint>, k: nat, mode: Mode, c: real)
    requires forall i :: 0 <= i < |ps| ==>
      ps[i].y == c && (mode == Relative || ps[i].f.None? || ps[i].f == Some(c))
    ensures forall p :: 0 <= p < |ps| ==> SmoothedAsWritten(ps, k, mode)[p].y == c
  {
    forall p | 0 <= p < |ps|
      ensures SmoothedAsWritten(ps, k, mode)[p].y == c
    {
      var ys := RawYs(Stage(ps, mode, p));
      StageConstant(ps, mode, p, c);
      assert SmoothedAsWritten(ps, k, mode)[p].y == CenterAvg(ys, p, k);
      CenterAvgConstant(ys, p, k, c);
    }
  }

  /** The array mid-pass holds `c` everywhere when switching leaves `c`. */
  lemma StageConstant(ps: seq<RawPoint>, mode: Mode, p: nat, c: real)
    requires p < |ps|
    requires forall i :: 0 <= i < |ps| ==>
      ps[i].y == c && (mode == Relative || ps[i].f.None? || ps[i].f == Some(c))
    ensures var ys := RawYs(Stage(ps, mode, p));
      |ys| == |ps| && forall i :: 0 <= i < |ys| ==> ys[i] == c
  {
    var st := Stage(ps, mode, p);
    forall i | 0 <= i < |ps|
      ensures st[i].y == c
    {
      if i <= p {
        assert st[i] == Swap(ps[i], mode);
      } else {
        assert st[i] == ps[i];
      }
    }
  }

  /** The centre-weighted average of a constant column is that constant. */
  lemma CenterAvgConstant(ys: seq<real>, p: nat, k: nat, c: real)
    requires p < |ys|
    requires forall i :: 0 <= i < |ys| ==> ys[i] == c
    ensures CenterAvg(ys, p, k) == c
  {
    var lo := WindowLo(p, k);
    var hi := WindowHi(p, k, |ys|);
    SumConstant(ys[lo..hi], c);
    assert ys[p] == c;
    ConstantMean(hi - lo, c);
  }

  /** Twice `c` plus `n` copies of `c`, over `n + 2`, is `c`. */
  lemma ConstantMean(n: nat, c: real)
    ensures WeightedMean(2.0 * c + (n as real) * c, n) == c
  {
    var d := (n + 2) as real;
    assert 2.0 * c + (n as real) * c == d * c;
    DivideOut(d, c);
  }

  lemma DivideOut(d: real, c: real)
    requires d > 0.0
    ensures (d * c) / d == c
  {
  }

  /** The first pass in absolute mode averages absolute counts with relative
      frequencies that have not been switched yet: two points with `y = 1`,
      `f = 10` and radius 1 give 7.75 at the first point instead of 10. */
  lemma FirstPassMixesValueKinds()
    ensures var ps := [RawPoint(1850, 1.0, Some(10.0)), RawPoint(1851, 1.0, Some(10.0))];
      && SmoothedAsWritten(ps, 1, Absolute)[0].y == 7.75
      && SmoothedSwappedFirst(ps, 1, Absolute)[0].y == 10.0
  {
    var ps := [RawPoint(1850, 1.0, Some(10.0)), RawPoint(1851, 1.0, Some(10.0))];
    var st := RawYs(Stage(ps, Absolute, 0));
    assert st == [10.0, 1.0];
    assert Sum(st[0..2]) == Sum([10.0]) + 1.0;
    var sw := RawYs(SwapAll(ps, Absolute));
    assert sw == [10.0, 10.0];
    assert Sum(sw[0..2]) == Sum([10.0]) + 10.0;
  }
}
