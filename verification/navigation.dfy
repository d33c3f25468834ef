/** The `post` flag of static/js/ngram-viewer.js: a search sets the page's
    hash to its own query address, and the hash-change handler must not
    draw that query a second time. The browser fires a hash-change event
    only when the hash actually changes. */
module Navigation {
  import opened Wrappers
  import opened FetchCache

  /** `post` and the hash part of the page address. */
  datatype Page = Page(post: bool, hash: string)

  /** Lines 339-358: with `post` clear the handler looks the hash up (the
      fetch address, `address`, is the hash's parameters re-encoded over the
      defaults); with `post` set it only clears it. */
  function OnHashChange(p: Page, storage: Storage, address: string): (r: (Page, Option<Request>))
    ensures r.0.hash == p.hash && !r.0.post
    ensures r.1.Some? <==> !p.post
    ensures r.1.Some? ==> r.1.value == Lookup(storage, p.hash, address)
  {
    if p.post then (p.(post := false), None) else (p, Some(Lookup(storage, p.hash, address)))
  }

  /** Setting the hash: an event follows only when the value differs. */
  function SetHash(p: Page, hash: string, storage: Storage, address: string): (r: (Page, Option<Request>))
    ensures r.0.hash == hash
    ensures hash == p.hash ==> r == (p, None)
  {
    if hash == p.hash then (p, None) else OnHashChange(p.(hash := hash), storage, address)
  }

  /** The request a hash-change event made, if it made one. */
  function Requests(event: Option<Request>): (r: seq<Request>)
    ensures |r| <= 1
  {
    match event
    case Some(req) => [req]
    case None => []
  }

  /** Lines 363-395, `search`: set `post`, look the query up, then set the
      hash to the query. Returns the page once the resulting event (if any)
      has been handled, and the requests made in order. */
  function Search(p: Page, storage: Storage, query: string): (r: (Page, seq<Request>))
    ensures r.0.hash == query
    ensures |r.1| >= 1 && r.1[0] == Lookup(storage, query, query)
  {
    var own := Lookup(storage, query, query);
    var (q, event) := SetHash(p.(post := true), query, storage, query);
    (q, [own] + Requests(event))
  }

  /** The search's own hash change is swallowed: when the query differs from
      the current hash, exactly one request is made and `post` is clear again. */
  lemma SearchDrawsOnce(p: Page, storage: Storage, query: string)
    requires query != p.hash
    ensures Search(p, storage, query).1 == [Lookup(storage, query, query)]
    ensures !Search(p, storage, query).0.post
  {
  }

  /** A hash change the user makes (a link, the back button) while `post` is
      clear redraws from the new hash. */
  lemma NavigationRedraws(p: Page, storage: Storage, hash: string, address: string)
    requires !p.post && hash != p.hash
    ensures SetHash(p, hash, storage, address).1 == Some(Lookup(storage, hash, address))
  {
  }

  /** Searching again for the query already in the hash fires no event, so
      `post` stays set and the next real hash change is swallowed: the hash
      moves to `other` while the chart still shows `query`. */
  lemma RepeatedSearchSwallowsNavigation(p: Page, storage: Storage, query: string, other: string, address: string)
    requires p.hash == query && other != query
    ensures var (q, _) := Search(p, storage, query);
      q.post && SetHash(q, other, storage, address) == (Page(false, other), None)
  {
  }

  /** `search` setting `post` only when the hash is about to change. */
  function SearchFixed(p: Page, storage: Storage, query: string): (r: (Page, seq<Request>))
    ensures r.0.hash == query
    ensures |r.1| >= 1 && r.1[0] == Lookup(storage, query, query)
  {
    var own := Lookup(storage, query, query);
    var (q, event) := SetHash(p.(post := query != p.hash), query, storage, query);
    (q, [own] + Requests(event))
  }

  /** With the fix, every search draws exactly once and leaves `post` clear
      whenever it was clear before, so the next navigation is drawn. */
  lemma FixedSearchSettles(p: Page, storage: Storage, query: string, other: string, address: string)
    requires !p.post
    ensures SearchFixed(p, storage, query).1 == [Lookup(storage, query, query)]
    ensures !SearchFixed(p, storage, query).0.post
    ensures other != query ==>
      SetHash(SearchFixed(p, storage, query).0, other, storage, address).1 == Some(Lookup(storage, other, address))
  {
  }
}
