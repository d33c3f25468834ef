/** `draw_lines` of static/js/ngram-viewer.js and the browser-storage cache
    it fills: fetch a query (or take series already at hand), classify the
    outcome, smooth, remember the fetched series under the page's hash, draw.
    Storage entries are JSON text in the browser; here they are the series
    the text encodes. */
module FetchCache {
  import opened Wrappers
  import opened Text
  import opened SeriesData
  import opened Smoothing
  import opened Cumulative
  import opened RangeFilter
  import opened Presentation

  const NotAccepted: string := "The query was not accepted by the server, please try another term."
  const NotResponding: string := "The server is not responding."
  const NoResults: string := "No results."
  /** The bundled data file drawn when the error text itself cannot be drawn. */
  const DefaultFile: string := "ngram/static/defirestore.json"
  /** Every query address, and so every cache key, contains this text. */
  const QueryPrefix: string := "ngram/query?"
  /** Smoothing radius used until the smoothing slider is moved (line 567). */
  const DefaultSmoothing: nat := 4

  type Storage = map<string, seq<RawSeries>>

  /** Lines 34-39: at page load every entry whose key contains `ngram/query?`
      is removed; other entries stay as they are. */
  function Purge(storage: Storage): (r: Storage)
    ensures forall k :: k in r <==> k in storage && !Contains(k, QueryPrefix)
    ensures forall k :: k in r ==> r[k] == storage[k]
  {
    map k | k in storage && !Contains(k, QueryPrefix) :: storage[k]
  }

  /** No query address survives the purge, and purging twice changes nothing. */
  lemma PurgeForgetsQueries(storage: Storage, rest: string)
    ensures QueryPrefix + rest !in Purge(storage)
    ensures Purge(Purge(storage)) == Purge(storage)
  {
    assert OccursAt(QueryPrefix + rest, QueryPrefix, 0);
  }

  /** Lines 600-607: put-if-absent under the page's hash, never for the bundled
      data file. An entry already there is never overwritten. */
  function CachePut(storage: Storage, hash: string, address: string, data: seq<RawSeries>): (r: Storage)
    ensures forall k :: k in storage ==> k in r && r[k] == storage[k]
    ensures forall k :: k in r ==> k in storage || k == hash
    ensures hash in r <==> hash in storage || address != DefaultFile
    ensures hash !in storage && address != DefaultFile ==> r[hash] == data
  {
    if address != DefaultFile && hash !in storage then storage[hash := data] else storage
  }

  /** The first series stored under a hash stay there: a second put under the
      same hash changes nothing. */
  lemma FirstWriterWins(storage: Storage, hash: string, a1: string, d1: seq<RawSeries>, a2: string, d2: seq<RawSeries>)
    requires a1 != DefaultFile
    ensures CachePut(CachePut(storage, hash, a1, d1), hash, a2, d2) == CachePut(storage, hash, a1, d1)
  {
  }

  /** What the page asks for: series already cached, or a fetch of an address. */
  datatype Request = Cached(data: seq<RawSeries>) | Fetch(address: string)

  /** Lines 388-394 and 346-352: use the cached entry when the key has one,
      otherwise fetch. */
  function Lookup(storage: Storage, key: string, address: string): (r: Request)
    ensures r.Cached? <==> key in storage
    ensures r.Cached? ==> r.data == storage[key]
    ensures r.Fetch? ==> r.address == address
  {
    if key in storage then Cached(storage[key]) else Fetch(address)
  }

  /** A stored entry is found again by the same key. */
  lemma PutThenLookup(storage: Storage, hash: string, address: string, data: seq<RawSeries>, other: string)
    requires address != DefaultFile && hash !in storage
    ensures Lookup(CachePut(storage, hash, address, data), hash, other) == Cached(data)
  {
  }

  /** Lines 563-568: the slider's value once it has been moved, else 4. */
  function SmoothingFactor(user: Option<nat>): (k: nat)
    ensures user.Some? ==> k == user.value
    ensures user.None? ==> k == DefaultSmoothing
  {
    user.GetOr(DefaultSmoothing)
  }

  /** How the fetch of an address ended. */
  datatype Outcome = Failed(status: int) | Received(data: seq<RawSeries>)

  /** Lines 582-588: status 500 means the server refused the query; any other
      failure is reported as the server not responding. */
  function FailureMessage(status: int): (msg: string)
    ensures msg == NotAccepted <==> status == 500
    ensures msg == NotAccepted || msg == NotResponding
  {
    if status == 500 then NotAccepted else NotResponding
  }

  /** What the chart area shows. `Blank` is the area `draw_lines` has
      emptied (line 558) when nothing is drawn into it afterwards. */
  datatype Display = Chart(drawn: seq<Series>) | ErrorText(message: string) | Blank

  /** The globals `draw_lines` reads and writes. */
  datatype Viewer = Viewer(storage: Storage, raw: seq<RawSeries>, smoothed: seq<Series>, display: Display)

  /** Every series switched to the value kind of `mode`, as `smooth_data`
      leaves its input. */
  function Switched(data: seq<RawSeries>, mode: Mode): (r: seq<RawSeries>)
    ensures |r| == |data|
    ensures forall i :: 0 <= i < |data| ==> r[i] == RawSeries(data[i].key, SwapAll(data[i].values, mode))
  {
    seq(|data|, i requires 0 <= i < |data| => RawSeries(data[i].key, SwapAll(data[i].values, mode)))
  }

  /** What the query argument of `draw_lines` can be: an address to fetch, or
      series taken from the cache. */
  datatype Source = Address(url: string) | Inline(data: seq<RawSeries>)

  /** Whether lines 603-607 write to the storage: a fetched address other
      than the bundled file, under a hash not stored yet. */
  predicate Writes(storage: Storage, hash: string, address: string) {
    address != DefaultFile && hash !in storage
  }

  /** Lines 556-617, `draw_lines`. For an address, `outcome` is how its fetch
      ended and `hash` is the page's hash when the answer arrived; for inline
      series neither is used. Series that were fetched are cached as the
      smoothing step leaves them: already switched to the current mode.
      `fits` says whether `localStorage.setItem` accepts the entry: when it
      throws (the storage is full) nothing catches it inside the fetch
      callback, so the globals are already set and the chart area, emptied
      on entry, stays blank. */
  method DrawLines(v: Viewer, source: Source, outcome: Outcome, hash: string, user: Option<nat>, c: Controls, fits: bool)
    returns (w: Viewer)
    ensures source.Address? && outcome.Failed? ==> w == v.(display := ErrorText(FailureMessage(outcome.status)))
    ensures source.Address? && outcome == Received([]) ==> w == v.(raw := [], smoothed := [], display := ErrorText(NoResults))
    ensures source.Inline? ==> w.storage == v.storage
    ensures source.Address? && outcome.Received? && |outcome.data| > 0 && (fits || !Writes(v.storage, hash, source.url)) ==>
      w.storage == CachePut(v.storage, hash, source.url, w.raw)
    ensures source.Address? && outcome.Received? && |outcome.data| > 0 && Writes(v.storage, hash, source.url) && !fits ==>
      var data := outcome.data;
      && w.storage == v.storage && w.display == Blank
      && w.raw == Switched(data, c.mode)
      && |w.smoothed| == |data|
      && (forall i :: 0 <= i < |data| ==>
            w.smoothed[i] == Series(data[i].key, SmoothedAsWritten(data[i].values, SmoothingFactor(user), c.mode), false))
    ensures var data := if source.Inline? then source.data else if outcome.Received? then outcome.data else [];
      (source.Inline? || (outcome.Received? && |data| > 0 && (fits || !Writes(v.storage, hash, source.url)))) ==>
        && w.raw == Switched(data, c.mode)
        && |w.smoothed| == |data|
        && (forall i :: 0 <= i < |data| ==> w.smoothed[i].key == data[i].key && !w.smoothed[i].disabled)
        && (forall i :: 0 <= i < |data| ==>
              w.smoothed[i].values == (var curve := SmoothedAsWritten(data[i].values, SmoothingFactor(user), c.mode);
               if c.cumulative then Accumulated(curve) else curve))
        && w.display.Chart?
        && (c.range.None? ==> w.display.drawn == w.smoothed)
        && (c.range.Some? ==> w.display.drawn == RangeUpdate(w.smoothed, c.range.value.lo, c.range.value.hi))
  {
    var factor := SmoothingFactor(user);
    var data: seq<RawSeries>;
    if source.Address? {
      if outcome.Failed? {
        return v.(display := ErrorText(FailureMessage(outcome.status)));
      }
      data := outcome.data;
      if |data| == 0 {
        return v.(raw := data, smoothed := [], display := ErrorText(NoResults));
      }
    } else {
      data := source.data;
    }
    var smoothed, raw := SmoothData(data, factor, c.mode);
    SwitchedAll(data, c.mode, raw);
    var storage := v.storage;
    if source.Address? {
      if Writes(storage, hash, source.url) && !fits {
        return v.(raw := raw, smoothed := smoothed, display := Blank);
      }
      storage := CachePut(storage, hash, source.url, raw);
    }
    var drawn, global := Nvd3Data(smoothed, c);
    w := Viewer(storage, raw, global, Chart(drawn));
  }

  lemma SwitchedAll(data: seq<RawSeries>, mode: Mode, raw: seq<RawSeries>)
    requires |raw| == |data|
    requires forall i :: 0 <= i < |data| ==> raw[i] == RawSeries(data[i].key, SwapAll(data[i].values, mode))
    ensures raw == Switched(data, mode)
  {
  }

  /** Switching is idempotent: series already switched stay as they are. */
  lemma SwitchedTwice(data: seq<RawSeries>, mode: Mode)
    ensures Switched(Switched(data, mode), mode) == Switched(data, mode)
  {
    forall i | 0 <= i < |data|
      ensures SwapAll(SwapAll(data[i].values, mode), mode) == SwapAll(data[i].values, mode)
    {
      var ps := data[i].values;
      assert forall p :: 0 <= p < |ps| ==> Swap(Swap(ps[p], mode), mode) == Swap(ps[p], mode);
    }
  }

  /** A query fetched for the first time is drawn with the smoothing as
      written, while the same query drawn later from the cache (or re-smoothed
      from `raw_data`) is smoothed over series that were switched beforehand,
      which is the curve of `SmoothedSwappedFirst`. */
  lemma CachedRedrawIsSwappedFirst(data: seq<RawSeries>, k: nat, mode: Mode, i: nat)
    requires i < |data|
    ensures SmoothedAsWritten(Switched(data, mode)[i].values, k, mode) == SmoothedSwappedFirst(data[i].values, k, mode)
  {
    ResmoothingMatchesSwappedFirst(data[i].values, k, mode);
  }
}
