/** What `nvd3` and `smooth_update` of static/js/ngram-viewer.js hand to the
    chart once the series are smoothed: running sums when the cumulative box
    is ticked, then the year-range view when the range slider has been used. */
module Presentation {
  import opened Wrappers
  import opened SeriesData
  import opened Smoothing
  import opened Cumulative
  import opened RangeFilter

  /** The years picked on the range slider, both ends included. */
  datatype Range = Range(lo: int, hi: int)

  /** The state of the controls the drawing code reads from the page. */
  datatype Controls = Controls(mode: Mode, cumulative: bool, range: Option<Range>)

  /** `data` as `cumulative_graph` leaves it: every series object kept (key and
      legend state included) with its points overwritten by running sums. */
  function CumulativeView(data: seq<Series>): (r: seq<Series>)
    ensures |r| == |data|
    ensures forall i :: 0 <= i < |data| ==> r[i] == data[i].(values := Accumulated(data[i].values))
  {
    seq(|data|, i requires 0 <= i < |data| => data[i].(values := Accumulated(data[i].values)))
  }

  /** Lines 661-671 of `nvd3`. Its parameter `smoothed_data` shadows the global
      of the same name: the running sums are assigned to the parameter, while
      `range_update` reads the global. Both hold the running sums all the same,
      since `cumulative_graph` overwrites the objects the global refers to.
      `global` is the global `smoothed_data` afterwards. */
  method Nvd3Data(smoothed: seq<Series>, c: Controls) returns (drawn: seq<Series>, global: seq<Series>)
    ensures global == if c.cumulative then CumulativeView(smoothed) else smoothed
    ensures c.range.None? && !c.cumulative ==> drawn == smoothed
    ensures c.range.None? && c.cumulative ==>
      |drawn| == |smoothed| &&
      forall i :: 0 <= i < |smoothed| ==> drawn[i] == Series(smoothed[i].key, Accumulated(smoothed[i].values), false)
    ensures c.range.Some? ==> drawn == RangeUpdate(global, c.range.value.lo, c.range.value.hi)
  {
    var local := smoothed;
    global := smoothed;
    if c.cumulative {
      local, global := CumulativeGraph(smoothed);
    }
    if c.range.Some? {
      drawn := RangeUpdate(global, c.range.value.lo, c.range.value.hi);
    } else {
      drawn := local;
    }
  }

  /** Lines 710-726, `smooth_update`: smooth `raw_data` again with the new
      factor, then the same cumulative and range steps, this time on the
      global itself. `raw` is `raw_data` after the in-place switch. */
  method SmoothUpdate(rawData: seq<RawSeries>, factor: nat, c: Controls) returns (drawn: seq<Series>, global: seq<Series>, raw: seq<RawSeries>)
    ensures |raw| == |rawData| && |global| == |rawData|
    ensures forall i :: 0 <= i < |rawData| ==> raw[i] == RawSeries(rawData[i].key, SwapAll(rawData[i].values, c.mode))
    ensures forall i :: 0 <= i < |rawData| ==> global[i].key == rawData[i].key && !global[i].disabled
    ensures forall i :: 0 <= i < |rawData| ==>
      global[i].values == (var curve := SmoothedAsWritten(rawData[i].values, factor, c.mode);
                           if c.cumulative then Accumulated(curve) else curve)
    ensures c.range.None? ==> drawn == global
    ensures c.range.Some? ==> drawn == RangeUpdate(global, c.range.value.lo, c.range.value.hi)
  {
    var smoothed;
    smoothed, raw := SmoothData(rawData, factor, c.mode);
    global := smoothed;
    if c.cumulative {
      var edited;
      global, edited := CumulativeGraph(smoothed);
    }
    if c.range.Some? {
      drawn := RangeUpdate(global, c.range.value.lo, c.range.value.hi);
    } else {
      drawn := global;
    }
  }

  /** Legend state is untouched by the running sums. */
  lemma {:induction false} EnabledCumulativeView(data: seq<Series>)
    ensures Enabled(CumulativeView(data)) == CumulativeView(Enabled(data))
  {
    if |data| > 0 {
      var cv := CumulativeView(data);
      var rest := Enabled(data[1..]);
      EnabledCumulativeView(data[1..]);
      assert cv[1..] == CumulativeView(data[1..]);
      assert cv[0].disabled == data[0].disabled;
      if data[0].disabled {
        assert Enabled(cv) == Enabled(cv[1..]);
        assert Enabled(data) == rest;
      } else {
        assert Enabled(cv) == [cv[0]] + Enabled(cv[1..]);
        assert Enabled(data) == [data[0]] + rest;
        CumulativeViewCons(data[0], rest);
      }
    }
  }

  lemma CumulativeViewCons(x: Series, rest: seq<Series>)
    ensures CumulativeView([x] + rest) == [x.(values := Accumulated(x.values))] + CumulativeView(rest)
  {
    var l := CumulativeView([x] + rest);
    var r := [x.(values := Accumulated(x.values))] + CumulativeView(rest);
    forall i | 0 <= i < |l|
      ensures l[i] == r[i]
    {
      if i > 0 {
        assert ([x] + rest)[i] == rest[i - 1];
      }
    }
  }

  /** With the cumulative box ticked, the range view of `nvd3` shows, for every
      series left switched on, the running sums restricted to the range: the
      same curve the full view shows, cut to the selected years. */
  lemma CumulativeRangeShowsRunningSums(smoothed: seq<Series>, lo: int, hi: int)
    ensures var shown := RangeUpdate(CumulativeView(smoothed), lo, hi);
      var on := Enabled(smoothed);
      |shown| == |on| &&
      forall i :: 0 <= i < |on| ==> shown[i] == Series(on[i].key, FilterPoints(Accumulated(on[i].values), lo, hi), false)
  {
    RangeUpdateShape(CumulativeView(smoothed), lo, hi);
    EnabledCumulativeView(smoothed);
  }
}
