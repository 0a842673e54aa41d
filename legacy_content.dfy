/**
 * The older content helpers (`src/lib/content-utils.ts`, with verbatim copies
 * in `src/lib/content-helpers.ts` and `src/scripts/content.ts`). They never
 * fail: a problem becomes a fallback text shown in place of the missing part.
 * They share the truncator with the content processor.
 */
module LegacyContent {
  import opened Wrappers
  import opened Words
  import opened Dom
  import opened Truncator
  import opened Processor

  const FictionTitleFallback := "Error loading fiction title"
  const ChapterTitleFallback := "Error loading chapter title"
  const RecapFallback := "Error loading recap"
  const BlurbFallback := "Error loading story blurb"

  /**
   * A title read from a selector hit: the fallback text when nothing matched,
   * else the trimmed text (an element's `textContent` is never null).
   */
  function LegacyTitle(hit: Option<Node>, fallback: string): (r: string)
    ensures hit.None? ==> r == fallback
    ensures hit.Some? ==> r == Trim(TextContent(hit.value))
    ensures hit.Some? ==> (r == "" <==> Blank(TextContent(hit.value)))
  {
    match hit
    case None => fallback
    case Some(e) => Trim(TextContent(e))
  }

  /** `extractFictionTitle`: agrees with the processor's title whenever that one succeeds. */
  function LegacyFictionTitle(current: Document, settings: Settings): (r: string)
    ensures Query(current, settings.fictionTitle).None? ==> r == FictionTitleFallback
    ensures ExtractFictionTitle(current, settings).Ok? ==> r == ExtractFictionTitle(current, settings).value
    ensures ExtractFictionTitle(current, settings).Err? && Query(current, settings.fictionTitle).Some? ==> r == ""
  {
    LegacyTitle(Query(current, settings.fictionTitle), FictionTitleFallback)
  }

  /** `extractChapterName`: agrees with the processor's chapter name whenever that one succeeds. */
  function LegacyChapterName(doc: Document, settings: Settings): (r: string)
    ensures Query(doc, settings.chapterTitle).None? ==> r == ChapterTitleFallback
    ensures ExtractChapterName(doc, settings).Ok? ==> r == ExtractChapterName(doc, settings).value
    ensures ExtractChapterName(doc, settings).Err? && Query(doc, settings.chapterTitle).Some? ==> r == ""
  {
    LegacyTitle(Query(doc, settings.chapterTitle), ChapterTitleFallback)
  }

  /** A `<div>` whose text is an error message. */
  function FallbackDiv(message: string): (d: Node)
    ensures IsElement(d, "div") && TextContent(d) == message
  {
    assert Lower("div") == "div";
    TextElement("div", message)
  }

  /**
   * `extractChapterContent` of the older helpers: the same selection as the
   * processor's whenever that one succeeds, the fallback div where the
   * processor reports a missing or blank body, and an empty div where it
   * reports that there are no paragraphs.
   */
  function LegacyChapterContent(chapter: Option<Node>, wordCount: int): (d: Node)
    ensures IsElement(d, "div")
    ensures var strict := ChapterContent(chapter, wordCount);
      && (strict.Ok? ==> d == strict.value)
      && (strict == Err(ContentMissing) || strict == Err(ContentEmpty) ==> d == FallbackDiv(RecapFallback))
      && (strict == Err(NoParagraphs) ==> d == Element("div", [], []))
  {
    assert Lower("div") == "div";
    match chapter
    case None => FallbackDiv(RecapFallback)
    case Some(e) =>
      if Blank(TextContent(e)) then FallbackDiv(RecapFallback)
      else Element("div", [], SelectTail(Paragraphs(e), wordCount))
  }

  method LegacyExtractChapterContent(chapterDoc: Document, wordCount: int, settings: Settings) returns (d: Node)
    ensures d == LegacyChapterContent(Query(chapterDoc, settings.chapterContent), wordCount)
  {
    var chapterElement := Query(chapterDoc, settings.chapterContent);
    if chapterElement.None? || Trim(TextContent(chapterElement.value)) == "" {
      d := FallbackDiv(RecapFallback);
      return;
    }
    var paragraphs := Paragraphs(chapterElement.value);
    var selected := SelectParagraphs(paragraphs, wordCount);
    d := Element("div", [], selected);
  }

  /** A form control the blurb clean-up removes: an `<input>` or a `<label>`. */
  predicate IsControl(n: Node) {
    IsElement(n, "input") || IsElement(n, "label")
  }

  /** No `<input>` or `<label>` anywhere below the node. */
  predicate NoControls(n: Node)
    decreases n, 1
  {
    match n
    case Element(_, _, kids) => NoControlsIn(kids)
    case _ => true
  }

  predicate NoControlsIn(cs: seq<Node>)
    decreases cs, 0
  {
    cs == [] || (!IsControl(cs[0]) && NoControls(cs[0]) && NoControlsIn(cs[1..]))
  }

  /** `querySelectorAll("input, label").forEach(e => e.remove())`: drop every control below the node. */
  function StripControls(n: Node): (r: Node)
    ensures n.Element? <==> r.Element?
    ensures n.Element? ==> r.tag == n.tag && r.attrs == n.attrs
    decreases n, 1
  {
    match n
    case Element(tag, attrs, kids) => Element(tag, attrs, StripKids(kids))
    case _ => n
  }

  function StripKids(cs: seq<Node>): (r: seq<Node>)
    ensures |r| <= |cs|
    decreases cs, 0
  {
    if cs == [] then []
    else if IsControl(cs[0]) then StripKids(cs[1..])
    else [StripControls(cs[0])] + StripKids(cs[1..])
  }

  /** After the clean-up no control is left. */
  lemma {:induction false} StripLeavesNoControls(n: Node)
    ensures NoControls(StripControls(n))
    decreases n, 1
  {
    match n
    case Element(tag, attrs, kids) =>
      StripKidsLeaveNoControls(kids);
    case _ =>
  }

  lemma {:induction false} StripKidsLeaveNoControls(cs: seq<Node>)
    ensures NoControlsIn(StripKids(cs))
    decreases cs, 0
  {
    if cs != [] {
      StripKidsLeaveNoControls(cs[1..]);
      if !IsControl(cs[0]) {
        StripLeavesNoControls(cs[0]);
        var r := [StripControls(cs[0])] + StripKids(cs[1..]);
        assert r[0] == StripControls(cs[0]) && r[1..] == StripKids(cs[1..]);
      }
    }
  }

  /** A node without controls is left exactly as it was. */
  lemma {:induction false} StripKeepsClean(n: Node)
    requires NoControls(n)
    ensures StripControls(n) == n
    decreases n, 1
  {
    match n
    case Element(tag, attrs, kids) =>
      StripKidsKeepClean(kids);
    case _ =>
  }

  lemma {:induction false} StripKidsKeepClean(cs: seq<Node>)
    requires NoControlsIn(cs)
    ensures StripKids(cs) == cs
    decreases cs, 0
  {
    if cs != [] {
      StripKeepsClean(cs[0]);
      StripKidsKeepClean(cs[1..]);
      assert cs == [cs[0]] + cs[1..];
    }
  }

  /** The clean-up works child by child: it distributes over a concatenation of sibling lists. */
  lemma {:induction false} StripKidsAppend(a: seq<Node>, b: seq<Node>)
    ensures StripKids(a + b) == StripKids(a) + StripKids(b)
    decreases |a|
  {
    if a != [] {
      assert (a + b)[0] == a[0] && (a + b)[1..] == a[1..] + b;
      StripKidsAppend(a[1..], b);
      if !IsControl(a[0]) {
        calc {
          StripKids(a + b);
          [StripControls(a[0])] + StripKids(a[1..] + b);
          [StripControls(a[0])] + (StripKids(a[1..]) + StripKids(b));
          ([StripControls(a[0])] + StripKids(a[1..])) + StripKids(b);
          StripKids(a) + StripKids(b);
        }
      } else {
        assert StripKids(a + b) == StripKids(a[1..] + b);
        assert StripKids(a) == StripKids(a[1..]);
      }
    } else {
      assert a + b == b;
    }
  }

  /** A single child is removed when it is a control, and otherwise kept with its own controls removed. */
  lemma StripKidsSingle(c: Node)
    ensures StripKids([c]) == if IsControl(c) then [] else [StripControls(c)]
  {
    assert [c][1..] == [];
  }

  /** Cleaning up twice is the same as cleaning up once. */
  lemma StripIdempotent(n: Node)
    ensures StripControls(StripControls(n)) == StripControls(n)
  {
    StripLeavesNoControls(n);
    StripKeepsClean(StripControls(n));
  }

  /**
   * `extractBlurb` of the older helpers: the fallback div unless the blurb
   * selector matched a `<div>`, else that div with its controls removed.
   */
  function LegacyExtractBlurb(doc: Document, settings: Settings): (d: Node)
    ensures IsElement(d, "div") && NoControls(d)
    ensures var hit := Query(doc, settings.blurb);
      !(hit.Some? && IsElement(hit.value, "div")) ==> d == FallbackDiv(BlurbFallback)
    ensures var hit := Query(doc, settings.blurb);
      hit.Some? && IsElement(hit.value, "div") ==> d == StripControls(hit.value)
    ensures var hit := Query(doc, settings.blurb);
      hit.Some? && IsElement(hit.value, "div") && NoControls(hit.value) ==> d == hit.value
  {
    match Query(doc, settings.blurb)
    case None => FallbackDiv(BlurbFallback)
    case Some(b) =>
      if !IsElement(b, "div") then FallbackDiv(BlurbFallback)
      else
        StripLeavesNoControls(b);
        if NoControls(b) then StripKeepsClean(b); StripControls(b)
        else StripControls(b)
  }

  /**
   * `createRecapFragment` of the older helpers: always the six-part recap,
   * with fallback texts where parts are missing. It is exactly the
   * processor's recap whenever that one succeeds.
   */
  function LegacyRecapFragment(browser: Browser, html: string, settings: Settings): (f: seq<Node>)
    ensures |f| == 6 && IsElement(f[0], "hr") && IsElement(f[5], "hr")
    ensures IsElement(f[1], "h1") && TextContent(f[1]) == "RoyalRefresh of " + LegacyFictionTitle(browser.current, settings)
    ensures IsElement(f[2], "h2") &&
      TextContent(f[2]) == "Previous chapter: " + LegacyChapterName(browser.parse(html), settings)
    ensures IsElement(f[3], "h4") && TextContent(f[3]) == "Showing last ~" + IntToString(settings.wordCount) + " words:"
    ensures f[4] == LegacyChapterContent(Query(browser.parse(html), settings.chapterContent), settings.wordCount)
    ensures IsElement(f[4], "div")
    ensures CreateRecap(browser, html, settings).Ok? ==> f == CreateRecap(browser, html, settings).value
  {
    var doc := browser.parse(html);
    RecapFragment(
      LegacyFictionTitle(browser.current, settings),
      LegacyChapterName(doc, settings),
      LegacyChapterContent(Query(doc, settings.chapterContent), settings.wordCount),
      settings.wordCount)
  }

  /** `createBlurbFragment` of the older helpers: always the four-part blurb, with fallback texts. */
  function LegacyBlurbFragment(browser: Browser, html: string, settings: Settings): (f: seq<Node>)
    ensures |f| == 4 && IsElement(f[2], "div") && NoControls(f[2])
    ensures f[2] == LegacyExtractBlurb(browser.parse(html), settings)
    ensures IsElement(f[0], "hr") && IsElement(f[3], "hr")
    ensures GetAttribute(f[3].attrs, "style") == Some("margin-bottom: 50px;")
    ensures IsElement(f[1], "h1") && TextContent(f[1]) == "Blurb: " + LegacyFictionTitle(browser.current, settings)
  {
    BlurbFragment(LegacyFictionTitle(browser.current, settings), LegacyExtractBlurb(browser.parse(html), settings))
  }
}
