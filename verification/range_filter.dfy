/** The data handed to the chart by `range_update` in
    static/js/ngram-viewer.js: series switched off in the legend are dropped,
    the rest keep only the points whose year lies in the selected range. */
module RangeFilter {
  import opened SeriesData

  predicate InRange(p: Point, lo: int, hi: int) {
    lo <= p.x && p.x <= hi
  }

  /** `d.values.filter(...)`: both ends of the range are inclusive. */
  function FilterPoints(ps: seq<Point>, lo: int, hi: int): (r: seq<Point>)
    ensures |r| <= |ps|
  {
    if |ps| == 0 then []
    else (if InRange(ps[0], lo, hi) then [ps[0]] else []) + FilterPoints(ps[1..], lo, hi)
  }

  /** The filter keeps exactly the in-range points: every kept point is an
      input point in range, and every input point in range is kept. */
  lemma {:induction false} FilterKeepsExactlyInRange(ps: seq<Point>, lo: int, hi: int)
    ensures forall q :: q in FilterPoints(ps, lo, hi) <==> q in ps && InRange(q, lo, hi)
  {
    if |ps| > 0 {
      FilterKeepsExactlyInRange(ps[1..], lo, hi);
      assert ps == [ps[0]] + ps[1..];
    }
  }

  /** `smoothed_data.filter(d => !d.disabled)`. */
  function Enabled(data: seq<Series>): (r: seq<Series>)
    ensures |r| <= |data|
  {
    if |data| == 0 then []
    else (if data[0].disabled then [] else [data[0]]) + Enabled(data[1..])
  }

  /** A series survives the filter exactly when it is in the input and not
      disabled. */
  lemma {:induction false} EnabledMembers(data: seq<Series>)
    ensures forall s :: s in Enabled(data) <==> s in data && !s.disabled
  {
    if |data| > 0 {
      EnabledMembers(data[1..]);
      assert data == [data[0]] + data[1..];
    }
  }

  /** The series filter keeps the input order: it distributes over
      concatenation ... */
  lemma {:induction false} EnabledAppend(a: seq<Series>, b: seq<Series>)
    ensures Enabled(a + b) == Enabled(a) + Enabled(b)
  {
    if |a| == 0 {
      assert a + b == b;
    } else {
      var head := if a[0].disabled then [] else [a[0]];
      assert (a + b)[0] == a[0];
      assert (a + b)[1..] == a[1..] + b;
      EnabledAppend(a[1..], b);
      calc {
        Enabled(a + b);
        head + Enabled(a[1..] + b);
        head + (Enabled(a[1..]) + Enabled(b));
        (head + Enabled(a[1..])) + Enabled(b);
        Enabled(a) + Enabled(b);
      }
    }
  }

  /** ... and keeps one series exactly when it is not disabled. With
      `EnabledAppend` this fixes `Enabled` on every list. */
  lemma EnabledOne(s: Series)
    ensures Enabled([s]) == if s.disabled then [] else [s]
  {
    assert [s][1..] == [];
  }

  /** With no series switched off the filter keeps them all. */
  lemma {:induction false} EnabledAllOn(data: seq<Series>)
    requires forall i :: 0 <= i < |data| ==> !data[i].disabled
    ensures Enabled(data) == data
  {
    if |data| > 0 {
      EnabledAllOn(data[1..]);
      assert [data[0]] + data[1..] == data;
    }
  }

  /** Lines 733-743: drop disabled series, then map each remaining one to a new
      object with the same key and only the in-range points. A series left
      without points stays in the output. */
  function RangeUpdate(data: seq<Series>, lo: int, hi: int): (r: seq<Series>)
  {
    if |data| == 0 then []
    else if data[0].disabled then RangeUpdate(data[1..], lo, hi)
    else [Series(data[0].key, FilterPoints(data[0].values, lo, hi), false)] + RangeUpdate(data[1..], lo, hi)
  }

  /** One output series per enabled input series, in order, with the same key,
      whether or not any of its points fall in the range. */
  lemma {:induction false} RangeUpdateShape(data: seq<Series>, lo: int, hi: int)
    ensures |RangeUpdate(data, lo, hi)| == |Enabled(data)|
    ensures forall i :: 0 <= i < |Enabled(data)| ==>
      RangeUpdate(data, lo, hi)[i] == Series(Enabled(data)[i].key, FilterPoints(Enabled(data)[i].values, lo, hi), false)
  {
    if |data| > 0 {
      RangeUpdateShape(data[1..], lo, hi);
      var rest, en := RangeUpdate(data[1..], lo, hi), Enabled(data[1..]);
      if data[0].disabled {
        assert RangeUpdate(data, lo, hi) == rest;
        assert Enabled(data) == en by {
          assert Enabled(data) == [] + en;
        }
      } else {
        var r, e := RangeUpdate(data, lo, hi), Enabled(data);
        assert r == [Series(data[0].key, FilterPoints(data[0].values, lo, hi), false)] + rest;
        assert e == [data[0]] + en;
        forall i | 0 <= i < |e|
          ensures r[i] == Series(e[i].key, FilterPoints(e[i].values, lo, hi), false)
        {
          if i > 0 {
            assert r[i] == rest[i - 1] && e[i] == en[i - 1];
          }
        }
      }
    }
  }

  /** The filter keeps the input order: it distributes over concatenation. */
  lemma {:induction false} FilterAppend(a: seq<Point>, b: seq<Point>, lo: int, hi: int)
    ensures FilterPoints(a + b, lo, hi) == FilterPoints(a, lo, hi) + FilterPoints(b, lo, hi)
  {
    if |a| == 0 {
      assert a + b == b;
    } else {
      var head := if InRange(a[0], lo, hi) then [a[0]] else [];
      assert (a + b)[0] == a[0];
      assert (a + b)[1..] == a[1..] + b;
      FilterAppend(a[1..], b, lo, hi);
      calc {
        FilterPoints(a + b, lo, hi);
        head + FilterPoints(a[1..] + b, lo, hi);
        head + (FilterPoints(a[1..], lo, hi) + FilterPoints(b, lo, hi));
        (head + FilterPoints(a[1..], lo, hi)) + FilterPoints(b, lo, hi);
        FilterPoints(a, lo, hi) + FilterPoints(b, lo, hi);
      }
    }
  }

  lemma {:induction false} FilterAllIn(ps: seq<Point>, lo: int, hi: int)
    requires forall i :: 0 <= i < |ps| ==> InRange(ps[i], lo, hi)
    ensures FilterPoints(ps, lo, hi) == ps
  {
    if |ps| > 0 {
      FilterAllIn(ps[1..], lo, hi);
    }
  }

  lemma {:induction false} FilterNoneIn(ps: seq<Point>, lo: int, hi: int)
    requires forall i :: 0 <= i < |ps| ==> !InRange(ps[i], lo, hi)
    ensures FilterPoints(ps, lo, hi) == []
  {
    if |ps| > 0 {
      FilterNoneIn(ps[1..], lo, hi);
    }
  }

  /** Narrowing twice is narrowing once to the intersection of the ranges. */
  lemma {:induction false} FilterTwice(ps: seq<Point>, lo1: int, hi1: int, lo2: int, hi2: int)
    ensures FilterPoints(FilterPoints(ps, lo1, hi1), lo2, hi2)
         == FilterPoints(ps, if lo1 < lo2 then lo2 else lo1, if hi1 < hi2 then hi1 else hi2)
  {
    if |ps| > 0 {
      FilterTwice(ps[1..], lo1, hi1, lo2, hi2);
      var head := if InRange(ps[0], lo1, hi1) then [ps[0]] else [];
      FilterAppend(head, FilterPoints(ps[1..], lo1, hi1), lo2, hi2);
    }
  }

  /** A point per year from `first`, all with the same value. */
  function Years(first: int, n: nat, y: real): (r: seq<Point>)
    ensures |r| == n
    ensures forall i :: 0 <= i < n ==> r[i] == Point(first + i, y)
  {
    seq(n, i requires 0 <= i < n => Point(first + i, y))
  }

  lemma YearsSlice(first: int, n: nat, y: real, a: nat, b: nat)
    requires a <= b <= n
    ensures Years(first, n, y)[a..b] == Years(first + a, b - a, y)
  {
  }

  lemma YearsOutside(first: int, n: nat, y: real, lo: int, hi: int)
    requires first + n <= lo || hi < first
    ensures FilterPoints(Years(first, n, y), lo, hi) == []
  {
    FilterNoneIn(Years(first, n, y), lo, hi);
  }

  lemma YearsInside(first: int, n: nat, y: real, lo: int, hi: int)
    requires lo <= first && first + n <= hi + 1
    ensures FilterPoints(Years(first, n, y), lo, hi) == Years(first, n, y)
  {
    FilterAllIn(Years(first, n, y), lo, hi);
  }

  /** A run of consecutive years that covers `lo..hi` keeps exactly the
      `hi - lo + 1` points of those years, both ends included. */
  lemma FilterYearRun(first: int, n: nat, y: real, lo: int, hi: int)
    requires first <= lo <= hi < first + n
    ensures FilterPoints(Years(first, n, y), lo, hi) == Years(lo, hi - lo + 1, y)
  {
    var ps := Years(first, n, y);
    var a, b := lo - first, hi - first + 1;
    var before, inside, after := ps[..a], ps[a..b], ps[b..];
    SplitThree(ps, a, b);
    assert FilterPoints(before, lo, hi) == [] by {
      YearsSlice(first, n, y, 0, a);
      assert before == ps[0..a];
      YearsOutside(first, a, y, lo, hi);
    }
    assert FilterPoints(inside, lo, hi) == Years(lo, hi - lo + 1, y) by {
      YearsSlice(first, n, y, a, b);
      YearsInside(lo, b - a, y, lo, hi);
    }
    assert FilterPoints(after, lo, hi) == [] by {
      YearsSlice(first, n, y, b, n);
      assert after == ps[b..n];
      YearsOutside(first + b, n - b, y, lo, hi);
    }
    calc {
      FilterPoints(ps, lo, hi);
      { FilterAppend(before + inside, after, lo, hi); }
      FilterPoints(before + inside, lo, hi) + FilterPoints(after, lo, hi);
      { FilterAppend(before, inside, lo, hi); }
      FilterPoints(before, lo, hi) + FilterPoints(inside, lo, hi) + FilterPoints(after, lo, hi);
    }
  }

  /** The years 1900..2000 narrowed to 1950..1960 keep exactly 11 points. */
  lemma InclusiveEnds(y: real)
    ensures |FilterPoints(Years(1900, 101, y), 1950, 1960)| == 11
  {
    FilterYearRun(1900, 101, y, 1950, 1960);
  }

  lemma SplitThree<T>(s: seq<T>, a: nat, b: nat)
    requires a <= b <= |s|
    ensures s == s[..a] + s[a..b] + s[b..]
  {
  }
}
