/** The series the viewer receives from the query service and hands to the
    chart. Values are exact reals: the model does not round like IEEE doubles. */
module SeriesData {
  import opened Wrappers

  /** Which frequency radio button is checked (`#abs` or `#rel`). */
  datatype Mode = Absolute | Relative

  /** A point as fetched: year `x`, relative frequency `y`, and the absolute
      count `f` when the service sent one. */
  datatype RawPoint = RawPoint(x: int, y: real, f: Option<real>)

  datatype RawSeries = RawSeries(key: string, values: seq<RawPoint>)

  /** A point as drawn: only `x` and `y`. */
  datatype Point = Point(x: int, y: real)

  /** A drawn series; `disabled` is set by the chart legend when the user
      switches the line off. */
  datatype Series = Series(key: string, values: seq<Point>, disabled: bool)

  /** Left-to-right sum, peeling the last element so that prefix sums unfold
      one step at a time. */
  function Sum(ys: seq<real>): real {
    if |ys| == 0 then 0.0 else Sum(ys[..|ys| - 1]) + ys[|ys| - 1]
  }

  function RawYs(ps: seq<RawPoint>): (ys: seq<real>)
    ensures |ys| == |ps|
    ensures forall i :: 0 <= i < |ps| ==> ys[i] == ps[i].y
  {
    seq(|ps|, i requires 0 <= i < |ps| => ps[i].y)
  }

  function Ys(ps: seq<Point>): (ys: seq<real>)
    ensures |ys| == |ps|
    ensures forall i :: 0 <= i < |ps| ==> ys[i] == ps[i].y
  {
    seq(|ps|, i requires 0 <= i < |ps| => ps[i].y)
  }

  function Keys(data: seq<Series>): (ks: seq<string>)
    ensures |ks| == |data|
    ensures forall i :: 0 <= i < |data| ==> ks[i] == data[i].key
  {
    seq(|data|, i requires 0 <= i < |data| => data[i].key)
  }

  lemma TakeSnoc<T>(s: seq<T>, n: nat)
    requires n < |s|
    ensures s[..n + 1] == s[..n] + [s[n]]
  {
  }

  lemma TakeAll<T>(s: seq<T>)
    ensures s[..|s|] == s
  {
  }

  lemma {:induction false} SumAppend(a: seq<real>, b: seq<real>)
    ensures Sum(a + b) == Sum(a) + Sum(b)
    decreases |b|
  {
    if |b| == 0 {
      assert a + b == a;
    } else {
      var b' := b[..|b| - 1];
      assert (a + b)[..|a + b| - 1] == a + b';
      SumAppend(a, b');
    }
  }

  /** A run of `n` copies of `c` sums to `n * c`. */
  lemma {:induction false} SumConstant(ys: seq<real>, c: real)
    requires forall i :: 0 <= i < |ys| ==> ys[i] == c
    ensures Sum(ys) == (|ys| as real) * c
  {
    if |ys| > 0 {
      SumConstant(ys[..|ys| - 1], c);
    }
  }
}
