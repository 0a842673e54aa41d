/**
 * The content manager (`src/lib/services/content-manager.ts`, and the same
 * orchestration in `src/lib/content-manager.ts`): find the URL on the current
 * page, consult the recap cache, fetch on a miss, and hand the HTML to the
 * content processor. The network is a function from URL to response, the
 * clock is explicit, and a ghost log records every URL fetched.
 */
module Manager {
  import opened Wrappers
  import opened Words
  import opened Dom
  import opened Processor
  import opened Cache
  import opened Urls

  const NoPreviousButton := "Could not find previous chapter button. Make sure you're on a chapter page with a previous chapter."
  const NoPreviousLink := "Previous chapter button found but has no link. This might be the first chapter."
  const NoFictionTitle := "Could not find fiction title on current page."
  const TitleNotLinked := "Fiction title found but is not linked to overview page."
  const TitleLinkEmpty := "Fiction title link found but has no URL."
  const NoCachedContent := "No cached content available. Please refresh to fetch new content."
  const ChapterFetchFailed := "Failed to fetch previous chapter: "
  const OverviewFetchFailed := "Failed to fetch story overview: "

  /** `findPreviousChapterUrl`: the `href` of the previous-chapter anchor on the current page. */
  function FindPreviousChapterUrl(current: Document, settings: Settings): (r: Result<string>)
    ensures var btn := Query(current, settings.prevChapterBtn);
      && (r == Err(NoPreviousButton) <==> !(btn.Some? && IsAnchor(btn.value)))
      && (r == Err(NoPreviousLink) <==> btn.Some? && IsAnchor(btn.value) && Href(btn.value) == "")
      && (r.Ok? ==> btn.Some? && IsAnchor(btn.value) && r.value == Href(btn.value) && r.value != "")
  {
    match Query(current, settings.prevChapterBtn)
    case None => Err(NoPreviousButton)
    case Some(btn) =>
      if !IsAnchor(btn) then Err(NoPreviousButton)
      else if Href(btn) == "" then Err(NoPreviousLink)
      else Ok(Href(btn))
  }

  /**
   * `findFictionOverviewUrl`: the `href` of the anchor around the fiction
   * title, with three errors checked in order.
   */
  function FindFictionOverviewUrl(current: Document, settings: Settings): (r: Result<string>)
    ensures var title := Query(current, settings.fictionTitle);
      var link := QueryParent(current, settings.fictionTitle);
      && (r == Err(NoFictionTitle) <==> title.None?)
      && (r == Err(TitleNotLinked) <==> title.Some? && !(link.Some? && IsAnchor(link.value)))
      && (r == Err(TitleLinkEmpty) <==> title.Some? && link.Some? && IsAnchor(link.value) && Href(link.value) == "")
      && (r.Ok? ==> link.Some? && IsAnchor(link.value) && r.value == Href(link.value) && r.value != "")
  {
    if Query(current, settings.fictionTitle).None? then Err(NoFictionTitle)
    else
      match QueryParent(current, settings.fictionTitle)
      case None => Err(TitleNotLinked)
      case Some(link) =>
        if !IsAnchor(link) then Err(TitleNotLinked)
        else if Href(link) == "" then Err(TitleLinkEmpty)
        else Ok(Href(link))
  }

  datatype ContentType = Recap | Blurb

  /** `{ content, type }` or `{ error }`. */
  datatype Outcome = Content(content: seq<Node>, kind: ContentType) | Failure(error: string)

  /** A processor result passed on: its content tagged with the type, or its error unchanged. */
  function Deliver(processed: Result<seq<Node>>, kind: ContentType): (r: Outcome)
    ensures r.Content? <==> processed.Ok?
  {
    match processed
    case Ok(content) => Content(content, kind)
    case Err(e) => Failure(e)
  }

  /** A cached value the manager uses: present and not the empty string (JavaScript truthiness). */
  predicate Usable(cached: Option<string>) {
    cached.Some? && cached.value != ""
  }

  /** What the manager makes of a cache read: the processed recap, or "no cached content" on a miss. */
  function FromCache(cached: Option<string>, browser: Browser, settings: Settings): (r: Outcome)
    ensures r == Failure(NoCachedContent) <==> !Usable(cached)
    ensures Usable(cached) ==> r == Deliver(CreateRecap(browser, cached.value, settings), Recap)
  {
    if !Usable(cached) then Failure(NoCachedContent)
    else
      var processed := CreateRecap(browser, cached.value, settings);
      assert processed.Err? ==> processed.error != NoCachedContent;
      Deliver(processed, Recap)
  }

  class ContentManager {
    const cache: ContentCache
    /** The URLs fetched so far, in order. */
    ghost var fetched: seq<string>

    constructor(cache: ContentCache)
      ensures this.cache == cache && fetched == []
    {
      this.cache := cache;
      fetched := [];
    }

    /**
     * `fetchRecap`: a URL error is returned as it is; a usable cache entry is
     * processed without any fetch; otherwise the URL is fetched once, and a
     * successful response is stored before it is processed.
     */
    method FetchRecap(browser: Browser, settings: Settings, network: string -> Result<string>, readTime: int, storeTime: int)
      returns (r: Outcome)
      modifies this, cache
      ensures var url := FindPreviousChapterUrl(browser.current, settings);
        url.Err? ==> r == Failure(url.error) && fetched == old(fetched) && cache.entries == old(cache.entries)
      ensures var url := FindPreviousChapterUrl(browser.current, settings);
        url.Ok? && Usable(Lookup(old(cache.entries), url.value, readTime)) ==>
          && r == FromCache(Lookup(old(cache.entries), url.value, readTime), browser, settings)
          && fetched == old(fetched)
          && cache.entries == AfterLookup(old(cache.entries), url.value, readTime)
      ensures var url := FindPreviousChapterUrl(browser.current, settings);
        url.Ok? && !Usable(Lookup(old(cache.entries), url.value, readTime)) ==>
          && fetched == old(fetched) + [url.value]
          && (network(url.value).Err? ==>
                && r == Failure(ChapterFetchFailed + network(url.value).error)
                && cache.entries == AfterLookup(old(cache.entries), url.value, readTime))
          && (network(url.value).Ok? ==>
                && r == Deliver(CreateRecap(browser, network(url.value).value, settings), Recap)
                && cache.entries == AfterLookup(old(cache.entries), url.value, readTime)[url.value := Entry(network(url.value).value, storeTime)])
    {
      var prevChapterUrlResult := FindPreviousChapterUrl(browser.current, settings);
      if prevChapterUrlResult.Err? {
        return Failure(prevChapterUrlResult.error);
      }
      var prevChapterUrl := prevChapterUrlResult.value;
      var cachedHtml := cache.GetRecap(prevChapterUrl, readTime);
      if cachedHtml.Some? && cachedHtml.value != "" {
        var processResult := CreateRecap(browser, cachedHtml.value, settings);
        return Deliver(processResult, Recap);
      }
      fetched := fetched + [prevChapterUrl];
      var fetchResult := network(prevChapterUrl);
      if fetchResult.Err? {
        return Failure(ChapterFetchFailed + fetchResult.error);
      }
      cache.SetRecap(prevChapterUrl, fetchResult.value, storeTime);
      var processResult := CreateRecap(browser, fetchResult.value, settings);
      r := Deliver(processResult, Recap);
    }

    /** `fetchBlurb`: always fetches the overview page and never touches the cache. */
    method FetchBlurb(browser: Browser, settings: Settings, network: string -> Result<string>) returns (r: Outcome)
      modifies this
      ensures cache.entries == old(cache.entries)
      ensures var url := FindFictionOverviewUrl(browser.current, settings);
        url.Err? ==> r == Failure(url.error) && fetched == old(fetched)
      ensures var url := FindFictionOverviewUrl(browser.current, settings);
        url.Ok? ==>
          && fetched == old(fetched) + [url.value]
          && (network(url.value).Err? ==> r == Failure(OverviewFetchFailed + network(url.value).error))
          && (network(url.value).Ok? ==> r == Deliver(CreateBlurb(browser, network(url.value).value, settings), Blurb))
    {
      var overviewUrlResult := FindFictionOverviewUrl(browser.current, settings);
      if overviewUrlResult.Err? {
        return Failure(overviewUrlResult.error);
      }
      var overviewUrl := overviewUrlResult.value;
      fetched := fetched + [overviewUrl];
      var fetchResult := network(overviewUrl);
      if fetchResult.Err? {
        return Failure(OverviewFetchFailed + fetchResult.error);
      }
      var processResult := CreateBlurb(browser, fetchResult.value, settings);
      r := Deliver(processResult, Blurb);
    }

    /** `refreshRecapFromCache`: reprocess the cached HTML with new settings; never fetches or stores. */
    method RefreshRecapFromCache(browser: Browser, settings: Settings, now: int) returns (r: Outcome)
      modifies cache
      ensures fetched == old(fetched)
      ensures var url := FindPreviousChapterUrl(browser.current, settings);
        url.Err? ==> r == Failure(url.error) && cache.entries == old(cache.entries)
      ensures var url := FindPreviousChapterUrl(browser.current, settings);
        url.Ok? ==>
          && r == FromCache(Lookup(old(cache.entries), url.value, now), browser, settings)
          && cache.entries == AfterLookup(old(cache.entries), url.value, now)
    {
      var prevChapterUrlResult := FindPreviousChapterUrl(browser.current, settings);
      if prevChapterUrlResult.Err? {
        return Failure(prevChapterUrlResult.error);
      }
      var cachedHtml := cache.GetRecap(prevChapterUrlResult.value, now);
      if cachedHtml.None? || cachedHtml.value == "" {
        return Failure(NoCachedContent);
      }
      var processResult := CreateRecap(browser, cachedHtml.value, settings);
      r := Deliver(processResult, Recap);
    }

    /** `hasRecapInCache`: false without a URL, else the cache's `hasRecap`. */
    method HasRecapInCache(browser: Browser, settings: Settings, now: int) returns (b: bool)
      modifies cache
      ensures var url := FindPreviousChapterUrl(browser.current, settings);
        && (url.Err? ==> !b && cache.entries == old(cache.entries))
        && (url.Ok? ==>
              && (b <==> Lookup(old(cache.entries), url.value, now).Some?)
              && cache.entries == AfterLookup(old(cache.entries), url.value, now))
    {
      var prevChapterUrlResult := FindPreviousChapterUrl(browser.current, settings);
      if prevChapterUrlResult.Err? {
        return false;
      }
      b := cache.HasRecap(prevChapterUrlResult.value, now);
    }

    /** `clearCache`: empty the recap cache. */
    method ClearCache()
      modifies cache
      ensures cache.entries == map[]
      ensures fetched == old(fetched)
    {
      cache.ClearRecapCache();
    }
  }

  // ---- Properties across calls ----

  /**
   * The URL finders never confuse their errors with a processor error, so a
   * caller can tell which step failed.
   */
  lemma FinderErrorsAreDistinct(browser: Browser, html: string, settings: Settings)
    ensures var url := FindPreviousChapterUrl(browser.current, settings);
      var processed := CreateRecap(browser, html, settings);
      url.Err? && processed.Err? ==> url.error != processed.error
    ensures var url := FindFictionOverviewUrl(browser.current, settings);
      var processed := CreateBlurb(browser, html, settings);
      url.Err? && processed.Err? ==> url.error != processed.error
  {
  }

  /**
   * The page check that enables the recap button accepts every page on which
   * the URL finder succeeds, so an enabled button is never needed for a URL
   * the finder would produce.
   */
  lemma ButtonCheckCoversFinder(current: Document, settings: Settings)
    ensures FindPreviousChapterUrl(current, settings).Ok? ==> HasPreviousChapterUrl(current, settings.prevChapterBtn)
  {
  }

  /**
   * A recap fetched at time `t` (the network never answers with a blank page)
   * is served again by a refresh while it is fresh, with the same outcome as
   * processing the fetched HTML under the new settings.
   */
  lemma RefreshServesFetched(entries: map<string, Entry>, url: string, html: string, t: int, now: int,
                             browser: Browser, settings: Settings)
    requires !Blank(html)
    requires now - t <= TimeToLive
    ensures FromCache(Lookup(entries[url := Entry(html, t)], url, now), browser, settings)
      == Deliver(CreateRecap(browser, html, settings), Recap)
  {
    assert html != "";
  }

  /**
   * `hasRecap` and the manager disagree about an empty cached page: it is
   * "in the cache", yet a refresh reports that nothing is cached.
   */
  lemma EmptyEntryIsPresentButUnusable(url: string, t: int, browser: Browser, settings: Settings)
    ensures Lookup(map[url := Entry("", t)], url, t).Some?
    ensures FromCache(Lookup(map[url := Entry("", t)], url, t), browser, settings) == Failure(NoCachedContent)
  {
  }
}
