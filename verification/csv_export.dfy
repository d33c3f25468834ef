/** The year-by-series table `save_as_csv` in static/js/ngram-viewer.js builds
    before handing it to the CSV writer. */
module CsvExport {
  import opened Wrappers
  import opened SeriesData
  import opened Text

  /** A table cell: the `anno` header and series keys, a year, or a value. */
  datatype Cell = Label(text: string) | Year(year: int) | Value(v: real)

  /** Number of years from `lo` to `hi` inclusive (none when `lo > hi`). */
  function YearCount(lo: int, hi: int): nat {
    if lo <= hi then hi - lo + 1 else 0
  }

  /** The index of the first point of `values` whose year is `year`. */
  function FirstIndex(values: seq<RawPoint>, year: int): (r: Option<nat>)
    ensures r.None? <==> forall k :: 0 <= k < |values| ==> values[k].x != year
    ensures r.Some? ==> r.value < |values| && values[r.value].x == year
    ensures r.Some? ==> forall k :: 0 <= k < r.value ==> values[k].x != year
  {
    if |values| == 0 then None
    else if values[0].x == year then Some(0)
    else match FirstIndex(values[1..], year)
      case None => None
      case Some(k) => Some(k + 1)
  }

  /** The cell for one series in one year: the first matching `y`, else 0. */
  function CellFor(values: seq<RawPoint>, year: int): Cell {
    match FirstIndex(values, year)
    case Some(k) => Value(values[k].y)
    case None => Value(0.0)
  }

  function Header(data: seq<RawSeries>): (r: seq<Cell>)
    ensures |r| == 1 + |data|
  {
    [Label("anno")] + seq(|data|, i requires 0 <= i < |data| => Label(data[i].key))
  }

  function Row(data: seq<RawSeries>, year: int): (r: seq<Cell>)
    ensures |r| == 1 + |data|
  {
    [Year(year)] + seq(|data|, i requires 0 <= i < |data| => CellFor(data[i].values, year))
  }

  /** The whole table: the header row, then one row per year of the range. */
  function Table(data: seq<RawSeries>, lo: int, hi: int): (rows: seq<seq<Cell>>)
    ensures |rows| == 1 + YearCount(lo, hi)
  {
    [Header(data)] + seq(YearCount(lo, hi), j requires 0 <= j < YearCount(lo, hi) => Row(data, lo + j))
  }

  /** The scan at lines 226-237: walk the points until one has `x == year`. */
  method FindYear(values: seq<RawPoint>, year: int) returns (cell: Cell)
    ensures cell == CellFor(values, year)
  {
    cell := Value(0.0);  // what is pushed when no point matches
    var found := false;
    var k := 0;
    while !found && k < |values|
      invariant 0 <= k <= |values|
      invariant !found ==> forall j :: 0 <= j < k ==> values[j].x != year
      invariant !found ==> cell == Value(0.0)
      invariant found ==> k >= 1 && values[k - 1].x == year && cell == Value(values[k - 1].y)
      invariant found ==> forall j :: 0 <= j < k - 1 ==> values[j].x != year
      decreases |values| - k, if found then 0 else 1
    {
      if values[k].x == year {
        cell := Value(values[k].y);
        found := true;
      }
      k := k + 1;
    }
  }

  /** Lines 211-239: first a row per year holding just the year, then, series
      by series, the key appended to the header and a cell to every year row. */
  method SaveAsCsvRows(data: seq<RawSeries>, lo: int, hi: int) returns (rows: seq<seq<Cell>>)
    ensures |rows| == 1 + YearCount(lo, hi)
    ensures forall j :: 0 <= j < |rows| ==> |rows[j]| == 1 + |data|
    ensures rows[0][0] == Label("anno")
    ensures forall i :: 0 <= i < |data| ==> rows[0][i + 1] == Label(data[i].key)
    ensures forall j :: 1 <= j < |rows| ==> rows[j][0] == Year(lo + j - 1)
    ensures forall j, i :: 1 <= j < |rows| && 0 <= i < |data| ==> rows[j][i + 1] == CellFor(data[i].values, lo + j - 1)
    ensures rows == Table(data, lo, hi)
  {
    rows := YearRows(lo, hi);
    var i := 0;
    while i < |data|
      invariant 0 <= i <= |data|
      invariant |rows| == 1 + YearCount(lo, hi)
      invariant rows[0] == Header(data[..i])
      invariant forall j :: 1 <= j < |rows| ==> rows[j] == Row(data[..i], lo + j - 1)
    {
      rows := AddSeries(data, i, lo, hi, rows);
      i := i + 1;
    }
    assert data[..i] == data;
    TableRows(data, lo, hi, rows);
    TableCells(data, lo, hi);
  }

  /** Lines 213-216: the header `anno` and a row holding just the year for
      every year of the range. */
  method YearRows(lo: int, hi: int) returns (rows: seq<seq<Cell>>)
    ensures |rows| == 1 + YearCount(lo, hi)
    ensures rows[0] == Header([])
    ensures forall j :: 1 <= j < |rows| ==> rows[j] == Row([], lo + j - 1)
  {
    rows := [[Label("anno")]];
    var anno := lo;
    while anno <= hi
      invariant lo <= anno && (lo <= hi ==> anno <= hi + 1) && (lo > hi ==> anno == lo)
      invariant |rows| == 1 + (anno - lo)
      invariant rows[0] == Header([])
      invariant forall j :: 1 <= j < |rows| ==> rows[j] == Row([], lo + j - 1)
    {
      rows := rows + [[Year(anno)]];
      anno := anno + 1;
    }
  }

  /** Lines 218-238 for series `i`: its key appended to the header, and to
      every year row the cell the scan finds. */
  method AddSeries(data: seq<RawSeries>, i: nat, lo: int, hi: int, rows0: seq<seq<Cell>>) returns (rows: seq<seq<Cell>>)
    requires i < |data| && |rows0| == 1 + YearCount(lo, hi)
    requires rows0[0] == Header(data[..i])
    requires forall j :: 1 <= j < |rows0| ==> rows0[j] == Row(data[..i], lo + j - 1)
    ensures |rows| == |rows0|
    ensures rows[0] == Header(data[..i + 1])
    ensures forall j :: 1 <= j < |rows| ==> rows[j] == Row(data[..i + 1], lo + j - 1)
  {
    HeaderSnoc(data, i);
    rows := rows0[0 := rows0[0] + [Label(data[i].key)]];
    var j := 1;
    while j < |rows|
      invariant 1 <= j <= |rows| && |rows| == |rows0|
      invariant rows[0] == Header(data[..i + 1])
      invariant forall q :: 1 <= q < j ==> rows[q] == Row(data[..i + 1], lo + q - 1)
      invariant forall q :: j <= q < |rows| ==> rows[q] == Row(data[..i], lo + q - 1)
    {
      var year := rows[j][0].year;
      assert year == lo + j - 1 by {
        RowFirst(data[..i], lo + j - 1);
      }
      var cell := FindYear(data[i].values, year);
      RowSnoc(data, i, year);
      ghost var before := rows;
      rows := rows[j := rows[j] + [cell]];
      assert rows[j] == Row(data[..i + 1], lo + j - 1);
      assert forall q :: 0 <= q < |rows| && q != j ==> rows[q] == before[q];
      j := j + 1;
    }
  }

  /** The cells of the table: `anno` and the keys across the top, the year
      down the first column, and the cell of series `i` for year `lo + j - 1`
      in row `j`. */
  lemma TableCells(data: seq<RawSeries>, lo: int, hi: int)
    ensures var rows := Table(data, lo, hi);
      && (forall j :: 0 <= j < |rows| ==> |rows[j]| == 1 + |data|)
      && rows[0][0] == Label("anno")
      && (forall i :: 0 <= i < |data| ==> rows[0][i + 1] == Label(data[i].key))
      && (forall j :: 1 <= j < |rows| ==> rows[j][0] == Year(lo + j - 1))
      && (forall j, i :: 1 <= j < |rows| && 0 <= i < |data| ==> rows[j][i + 1] == CellFor(data[i].values, lo + j - 1))
  {
    var rows := Table(data, lo, hi);
    forall j | 1 <= j < |rows|
      ensures rows[j] == Row(data, lo + j - 1)
    {
    }
  }

  lemma RowFirst(data: seq<RawSeries>, year: int)
    ensures Row(data, year)[0] == Year(year)
  {
  }

  lemma HeaderSnoc(data: seq<RawSeries>, i: nat)
    requires i < |data|
    ensures Header(data[..i + 1]) == Header(data[..i]) + [Label(data[i].key)]
  {
  }

  lemma RowSnoc(data: seq<RawSeries>, i: nat, year: int)
    requires i < |data|
    ensures Row(data[..i + 1], year) == Row(data[..i], year) + [CellFor(data[i].values, year)]
  {
  }

  lemma TableRows(data: seq<RawSeries>, lo: int, hi: int, rows: seq<seq<Cell>>)
    requires |rows| == 1 + YearCount(lo, hi)
    requires rows[0] == Header(data)
    requires forall j :: 1 <= j < |rows| ==> rows[j] == Row(data, lo + j - 1)
    ensures rows == Table(data, lo, hi)
  {
  }

  /** JavaScript `s.substring(a, b)` with both ends clamped to the length. */
  function Substring(s: string, a: nat, b: nat): (r: string)
    ensures |r| <= if b >= a then b - a else 0
  {
    var start := if a <= |s| then a else |s|;
    var end := if b <= |s| then b else |s|;
    if start <= end then s[start..end] else ""
  }

  /** `/[^a-z0-9]/gi` replaced by `_`. */
  function Sanitize(s: string): (r: string)
    ensures |r| == |s|
    ensures forall i :: 0 <= i < |r| ==> IsAsciiAlnum(r[i]) || r[i] == '_'
    ensures forall i :: 0 <= i < |s| && IsAsciiAlnum(s[i]) ==> r[i] == s[i]
  {
    seq(|s|, i requires 0 <= i < |s| => if IsAsciiAlnum(s[i]) then s[i] else '_')
  }

  /** Line 242: the header joined with commas, characters 5 to 25, sanitised. */
  function FileStem(keys: seq<string>): (r: string)
    ensures |r| <= 20
    ensures forall i :: 0 <= i < |r| ==> IsAsciiAlnum(r[i]) || r[i] == '_'
  {
    Sanitize(Substring(Join(",", ["anno"] + keys), 5, 25))
  }

  /** The first five characters `anno,` are skipped: with one series the stem
      is the first 20 characters of its key, sanitised. */
  lemma StemOfOneSeries(key: string)
    ensures FileStem([key]) == Sanitize(key[..if |key| <= 20 then |key| else 20])
  {
    var parts := ["anno"] + [key];
    assert |parts| == 2 && parts[0] == "anno" && parts[1..] == [key];
    assert Join(",", parts[1..]) == key;
    var joined := Join(",", parts);
    assert joined == "anno" + "," + key;
    assert |"anno" + ","| == 5;
    assert Substring(joined, 5, 25) == key[..if |key| <= 20 then |key| else 20];
  }
}
