/**
 * The recap cache (`src/lib/services/content-cache.ts`): raw chapter HTML
 * keyed by URL, with a timestamp per entry. An entry older than the time to
 * live is dropped when it is read. The clock is an explicit `now` argument.
 */
module Cache {
  import opened Wrappers

  /** `CACHE_TTL_MS`: thirty minutes in milliseconds. */
  const TimeToLive: int := 30 * 60 * 1000

  datatype Entry = Entry(html: string, timestamp: int)

  /** An entry is stale once strictly more than the time to live has passed since it was stored. */
  predicate Expired(e: Entry, now: int) {
    now - e.timestamp > TimeToLive
  }

  /** What `getRecap(url)` answers at time `now` for the cache contents `m`. */
  function Lookup(m: map<string, Entry>, url: string, now: int): (r: Option<string>)
    ensures r.Some? <==> url in m && now - m[url].timestamp <= TimeToLive
    ensures r.Some? ==> r.value == m[url].html
  {
    if url !in m then None
    else if Expired(m[url], now) then None
    else Some(m[url].html)
  }

  /** The cache contents after `getRecap(url)` at time `now`: a stale entry for `url` is deleted. */
  function AfterLookup(m: map<string, Entry>, url: string, now: int): (r: map<string, Entry>)
    ensures forall u :: u in r <==> u in m && (u != url || !Expired(m[u], now))
    ensures forall u :: u in r ==> r[u] == m[u]
  {
    if url in m && Expired(m[url], now) then m - {url} else m
  }

  class ContentCache {
    var entries: map<string, Entry>

    constructor()
      ensures entries == map[]
    {
      entries := map[];
    }

    /** `getRecap`: the stored HTML while it is fresh, else nothing (and a stale entry is removed). */
    method GetRecap(url: string, now: int) returns (r: Option<string>)
      modifies this
      ensures r == Lookup(old(entries), url, now)
      ensures entries == AfterLookup(old(entries), url, now)
    {
      if url !in entries {
        return None;
      }
      var cached := entries[url];
      if now - cached.timestamp > TimeToLive {
        entries := entries - {url};
        return None;
      }
      r := Some(cached.html);
    }

    /** `setRecap`: store the HTML under the URL, stamped with the current time. */
    method SetRecap(url: string, html: string, now: int)
      modifies this
      ensures entries == old(entries)[url := Entry(html, now)]
    {
      entries := entries[url := Entry(html, now)];
    }

    /** `hasRecap`: whether `getRecap` finds something, with the same eviction. */
    method HasRecap(url: string, now: int) returns (b: bool)
      modifies this
      ensures b <==> Lookup(old(entries), url, now).Some?
      ensures entries == AfterLookup(old(entries), url, now)
    {
      var cached := GetRecap(url, now);
      b := cached != None;
    }

    /** `clearRecapCache`: forget every entry. */
    method ClearRecapCache()
      modifies this
      ensures entries == map[]
    {
      entries := map[];
    }
  }

  // ---- Properties of the cache contents ----

  /** A URL never stored (or stored before a clear) is a miss. */
  lemma MissWhenAbsent(m: map<string, Entry>, url: string, now: int)
    requires url !in m
    ensures Lookup(m, url, now) == None
    ensures AfterLookup(m, url, now) == m
  {
  }

  /**
   * Right after `setRecap(url, html)` at time `t`, a read at `now` returns
   * `html` exactly when at most the time to live has passed: at exactly
   * thirty minutes the entry is still served.
   */
  lemma ReadAfterStore(m: map<string, Entry>, url: string, html: string, t: int, now: int)
    ensures Lookup(m[url := Entry(html, t)], url, now) == (if now - t <= TimeToLive then Some(html) else None)
    ensures now - t > TimeToLive ==> AfterLookup(m[url := Entry(html, t)], url, now) == m - {url}
  {
    if now - t > TimeToLive {
      assert m[url := Entry(html, t)] - {url} == m - {url};
    }
  }

  /** Storing under one URL does not change what any other URL reads. */
  lemma StoreLeavesOthers(m: map<string, Entry>, url: string, e: Entry, other: string, now: int)
    requires other != url
    ensures Lookup(m[url := e], other, now) == Lookup(m, other, now)
  {
  }

  /** Reading one URL never changes what any other URL reads, even when it evicts. */
  lemma ReadLeavesOthers(m: map<string, Entry>, url: string, other: string, now: int, later: int)
    requires other != url
    ensures Lookup(AfterLookup(m, url, now), other, later) == Lookup(m, other, later)
  {
  }

  /** A second read at the same time answers like the first and evicts nothing more. */
  lemma ReadTwice(m: map<string, Entry>, url: string, now: int)
    ensures Lookup(AfterLookup(m, url, now), url, now) == Lookup(m, url, now)
    ensures AfterLookup(AfterLookup(m, url, now), url, now) == AfterLookup(m, url, now)
  {
  }

  /** An expired entry stays expired: a later read misses too. */
  lemma ExpiryIsFinal(m: map<string, Entry>, url: string, now: int, later: int)
    requires now <= later
    requires Lookup(m, url, now) == None
    ensures Lookup(AfterLookup(m, url, now), url, later) == None
  {
  }
}
