/**
 * The content processor: turns a fetched previous chapter into a recap and a
 * fetched overview page into a blurb, or into the first error met.
 * Every step returns `Ok(data)` or `Err(message)` instead of throwing.
 */
module Processor {
  import opened Wrappers
  import opened Words
  import opened Dom
  import opened Truncator

  /** The settings the processor reads: the word budget and the CSS selectors. */
  datatype Settings = Settings(
    wordCount: int,
    prevChapterBtn: string,
    chapterContent: string,
    chapterTitle: string,
    fictionTitle: string,
    blurb: string)

  /** The browser around the processor: the page being read and `DOMParser.parseFromString`. */
  datatype Browser = Browser(current: Document, parse: string -> Document)

  const FictionTitleMissing := "Could not find fiction title on current page"
  const ChapterTitleMissing := "Could not find chapter title in fetched content"
  const ContentMissing := "Could not find chapter content in fetched page"
  const ContentEmpty := "Chapter content appears to be empty"
  const NoParagraphs := "No paragraphs found in chapter content"
  const BlurbMissing := "Could not find story blurb in overview page"
  const BlurbEmpty := "Story blurb appears to be empty"

  /**
   * A title read from the element `selector` matches: missing when nothing
   * matches or its text is empty, else the trimmed text. Text made only of
   * white space passes the check and reads as the empty title.
   */
  function TitleFrom(doc: Document, selector: string, missing: string): (r: Result<string>)
    ensures r.Err? <==> Query(doc, selector).None? || TextContent(Query(doc, selector).value) == ""
    ensures r.Err? ==> r.error == missing
    ensures r.Ok? ==> r.value == Trim(TextContent(Query(doc, selector).value))
    ensures r.Ok? ==> (r.value == "" <==> Blank(TextContent(Query(doc, selector).value)))
  {
    match Query(doc, selector)
    case None => Err(missing)
    case Some(e) =>
      var text := TextContent(e);
      if text == "" then Err(missing) else Ok(Trim(text))
  }

  /** `extractFictionTitleFromCurrentDocument`: the fiction title, read from the page being read. */
  function ExtractFictionTitle(current: Document, settings: Settings): (r: Result<string>)
    ensures r.Err? <==>
      Query(current, settings.fictionTitle).None? || TextContent(Query(current, settings.fictionTitle).value) == ""
    ensures r.Err? ==> r.error == FictionTitleMissing
    ensures r.Ok? ==> r.value == Trim(TextContent(Query(current, settings.fictionTitle).value))
  {
    TitleFrom(current, settings.fictionTitle, FictionTitleMissing)
  }

  /** `extractChapterName`: the chapter title, read from the fetched chapter. */
  function ExtractChapterName(doc: Document, settings: Settings): (r: Result<string>)
    ensures r.Err? <==>
      Query(doc, settings.chapterTitle).None? || TextContent(Query(doc, settings.chapterTitle).value) == ""
    ensures r.Err? ==> r.error == ChapterTitleMissing
    ensures r.Ok? ==> r.value == Trim(TextContent(Query(doc, settings.chapterTitle).value))
  {
    TitleFrom(doc, settings.chapterTitle, ChapterTitleMissing)
  }

  /**
   * `extractChapterContent` on the element the content selector matched:
   * the three failures in the order they are checked, else a `<div>` holding
   * the paragraphs the reverse walk selected.
   */
  function ChapterContent(chapter: Option<Node>, wordCount: int): (r: Result<Node>)
    ensures chapter.None? ==> r == Err(ContentMissing)
    ensures chapter.Some? && Blank(TextContent(chapter.value)) ==> r == Err(ContentEmpty)
    ensures chapter.Some? && !Blank(TextContent(chapter.value)) && Paragraphs(chapter.value) == []
      ==> r == Err(NoParagraphs)
    ensures r.Ok? <==> chapter.Some? && !Blank(TextContent(chapter.value)) && Paragraphs(chapter.value) != []
    ensures r.Ok? ==> IsElement(r.value, "div") && r.value.attrs == []
    ensures r.Ok? && wordCount >= 1 ==> TotalWords(r.value.children) <= wordCount
    ensures r.Ok? && TotalWords(Paragraphs(chapter.value)) < wordCount ==>
      r.value.children == Paragraphs(chapter.value)
  {
    match chapter
    case None => Err(ContentMissing)
    case Some(e) =>
      if Blank(TextContent(e)) then Err(ContentEmpty)
      else
        var paragraphs := Paragraphs(e);
        if paragraphs == [] then Err(NoParagraphs)
        else
          var selected := SelectTail(paragraphs, wordCount);
          SelectionFacts(paragraphs, wordCount);
          assert Lower("div") == "div";
          Ok(Element("div", [], selected))
  }

  /** The two budget facts about the paragraph walk, together. */
  lemma SelectionFacts(ps: seq<Node>, wordCount: int)
    ensures wordCount >= 1 ==> TotalWords(SelectTail(ps, wordCount)) <= wordCount
    ensures TotalWords(ps) < wordCount ==> SelectTail(ps, wordCount) == ps
  {
    if wordCount >= 1 { SelectWithinBudget(ps, wordCount); }
    if TotalWords(ps) < wordCount { SelectAllFit(ps, wordCount); }
  }

  method ExtractChapterContent(chapterDoc: Document, settings: Settings) returns (r: Result<Node>)
    ensures r == ChapterContent(Query(chapterDoc, settings.chapterContent), settings.wordCount)
  {
    var chapterElement := Query(chapterDoc, settings.chapterContent);
    if chapterElement.None? {
      return Err(ContentMissing);
    }
    var text := TextContent(chapterElement.value);
    if text == "" || Trim(text) == "" {
      return Err(ContentEmpty);
    }
    var paragraphs := Paragraphs(chapterElement.value);
    if |paragraphs| == 0 {
      return Err(NoParagraphs);
    }
    var selected := SelectParagraphs(paragraphs, settings.wordCount);
    r := Ok(Element("div", [], selected));
  }

  /** The element that, set into a page, reads "Showing last ~N words:". */
  function WordsNotice(wordCount: int): (n: Node)
    ensures IsElement(n, "h4") && n.attrs == []
    ensures TextContent(n) == "Showing last ~" + IntToString(wordCount) + " words:"
  {
    assert Lower("h4") == "h4";
    TextElement("h4", "Showing last ~" + IntToString(wordCount) + " words:")
  }

  /** The six parts of a recap: a rule, a heading, a chapter line, a notice, the content and a closing rule. */
  function RecapLayout(heading: string, chapterLine: string, notice: string, content: Node): (f: seq<Node>)
    ensures |f| == 6 && f[4] == content
    ensures IsElement(f[0], "hr") && IsElement(f[5], "hr")
    ensures IsElement(f[1], "h1") && TextContent(f[1]) == heading
    ensures IsElement(f[2], "h2") && TextContent(f[2]) == chapterLine
    ensures IsElement(f[3], "h4") && TextContent(f[3]) == notice
  {
    var hr := Element("hr", [], []);
    assert Lower("hr") == "hr" && Lower("h1") == "h1" && Lower("h2") == "h2" && Lower("h4") == "h4";
    [hr, TextElement("h1", heading), TextElement("h2", chapterLine), TextElement("h4", notice), content, hr]
  }

  /**
   * `createRecapFragment`: a rule, the recap heading, the previous chapter's
   * name, the word-count notice, the content and a closing rule.
   */
  function RecapFragment(fictionTitle: string, chapterName: string, content: Node, wordCount: int): (f: seq<Node>)
    ensures |f| == 6 && f[4] == content
    ensures IsElement(f[0], "hr") && IsElement(f[5], "hr")
    ensures IsElement(f[1], "h1") && TextContent(f[1]) == "RoyalRefresh of " + fictionTitle
    ensures IsElement(f[2], "h2") && TextContent(f[2]) == "Previous chapter: " + chapterName
    ensures IsElement(f[3], "h4") && TextContent(f[3]) == "Showing last ~" + IntToString(wordCount) + " words:"
    ensures f[3] == WordsNotice(wordCount)
  {
    RecapLayout("RoyalRefresh of " + fictionTitle, "Previous chapter: " + chapterName,
                "Showing last ~" + IntToString(wordCount) + " words:", content)
  }

  /** The notice shows the configured word count, which can be read back from it. */
  lemma WordsNoticeReadsBack(wordCount: int)
    ensures var text := TextContent(WordsNotice(wordCount));
      var digits := text[|"Showing last ~"|..|text| - |" words:"|];
      ReadInt(digits) == wordCount
  {
    var n := IntToString(wordCount);
    var text := "Showing last ~" + n + " words:";
    assert text[|"Showing last ~"|..|text| - |" words:"|] == n;
    ReadIntToString(wordCount);
  }

  /**
   * `createRecap`: the fiction title from the current page, then the chapter
   * name and the content from the fetched chapter; the first failure is the
   * result, else the recap fragment.
   */
  function CreateRecap(browser: Browser, html: string, settings: Settings): (r: Result<seq<Node>>)
    ensures var doc := browser.parse(html);
      r.Ok? <==>
        ExtractFictionTitle(browser.current, settings).Ok? && ExtractChapterName(doc, settings).Ok? &&
        ChapterContent(Query(doc, settings.chapterContent), settings.wordCount).Ok?
    ensures ExtractFictionTitle(browser.current, settings).Err? ==> r == Err(FictionTitleMissing)
    ensures (ExtractFictionTitle(browser.current, settings).Ok? &&
             ExtractChapterName(browser.parse(html), settings).Err?) ==> r == Err(ChapterTitleMissing)
    ensures var doc := browser.parse(html);
      var content := ChapterContent(Query(doc, settings.chapterContent), settings.wordCount);
      (ExtractFictionTitle(browser.current, settings).Ok? && ExtractChapterName(doc, settings).Ok? && content.Err?) ==>
        r == Err(content.error)
    ensures r.Err? ==> r.error in {FictionTitleMissing, ChapterTitleMissing, ContentMissing, ContentEmpty, NoParagraphs}
    ensures r.Ok? ==>
      var doc := browser.parse(html);
      |r.value| == 6 &&
      TextContent(r.value[1]) == "RoyalRefresh of " + ExtractFictionTitle(browser.current, settings).value &&
      TextContent(r.value[2]) == "Previous chapter: " + ExtractChapterName(doc, settings).value &&
      r.value[4] == ChapterContent(Query(doc, settings.chapterContent), settings.wordCount).value
    ensures r.Ok? ==>
      var doc := browser.parse(html);
      r.value == RecapFragment(ExtractFictionTitle(browser.current, settings).value,
                               ExtractChapterName(doc, settings).value,
                               ChapterContent(Query(doc, settings.chapterContent), settings.wordCount).value,
                               settings.wordCount)
    ensures r.Ok? && settings.wordCount >= 1 ==> TotalWords(r.value[4].children) <= settings.wordCount
  {
    var doc := browser.parse(html);
    var fictionTitle := ExtractFictionTitle(browser.current, settings);
    if fictionTitle.Err? then Err(fictionTitle.error)
    else
      var chapterName := ExtractChapterName(doc, settings);
      if chapterName.Err? then Err(chapterName.error)
      else
        var content := ChapterContent(Query(doc, settings.chapterContent), settings.wordCount);
        if content.Err? then Err(content.error)
        else Ok(RecapFragment(fictionTitle.value, chapterName.value, content.value, settings.wordCount))
  }

  /**
   * `extractBlurb`: the element the blurb selector matched, unless nothing
   * (or no HTML element) matched or its text is blank.
   */
  function ExtractBlurb(doc: Document, settings: Settings): (r: Result<Node>)
    ensures var hit := Query(doc, settings.blurb);
      r.Ok? <==> (hit.Some? && hit.value.Element? && !Blank(TextContent(hit.value)))
    ensures r.Ok? ==> r.value == Query(doc, settings.blurb).value
    ensures var hit := Query(doc, settings.blurb);
      r == Err(BlurbMissing) <==> (hit.None? || !hit.value.Element?)
    ensures r.Err? ==> r.error == BlurbMissing || r.error == BlurbEmpty
  {
    match Query(doc, settings.blurb)
    case None => Err(BlurbMissing)
    case Some(e) =>
      if !e.Element? then Err(BlurbMissing)
      else if Blank(TextContent(e)) then Err(BlurbEmpty)
      else Ok(e)
  }

  /** `createBlurbFragment`: a rule, the blurb heading, the blurb and a rule with a 50px bottom margin. */
  function BlurbFragment(fictionTitle: string, blurb: Node): (f: seq<Node>)
    ensures |f| == 4 && f[2] == blurb
    ensures IsElement(f[0], "hr") && IsElement(f[3], "hr")
    ensures IsElement(f[1], "h1") && TextContent(f[1]) == "Blurb: " + fictionTitle
    ensures GetAttribute(f[3].attrs, "style") == Some("margin-bottom: 50px;")
  {
    assert Lower("hr") == "hr" && Lower("h1") == "h1";
    [Element("hr", [], []), TextElement("h1", "Blurb: " + fictionTitle), blurb,
     Element("hr", [Attr("style", "margin-bottom: 50px;")], [])]
  }

  /** `createBlurb`: the fiction title from the current page, then the blurb from the fetched overview. */
  function CreateBlurb(browser: Browser, html: string, settings: Settings): (r: Result<seq<Node>>)
    ensures r.Ok? <==>
      ExtractFictionTitle(browser.current, settings).Ok? && ExtractBlurb(browser.parse(html), settings).Ok?
    ensures ExtractFictionTitle(browser.current, settings).Err? ==> r == Err(FictionTitleMissing)
    ensures var blurb := ExtractBlurb(browser.parse(html), settings);
      ExtractFictionTitle(browser.current, settings).Ok? && blurb.Err? ==> r == Err(blurb.error)
    ensures r.Err? ==> r.error in {FictionTitleMissing, BlurbMissing, BlurbEmpty}
    ensures r.Ok? ==>
      |r.value| == 4 &&
      TextContent(r.value[1]) == "Blurb: " + ExtractFictionTitle(browser.current, settings).value &&
      r.value[2] == Query(browser.parse(html), settings.blurb).value
    ensures r.Ok? ==>
      r.value == BlurbFragment(ExtractFictionTitle(browser.current, settings).value,
                               ExtractBlurb(browser.parse(html), settings).value)
  {
    var fictionTitle := ExtractFictionTitle(browser.current, settings);
    if fictionTitle.Err? then Err(fictionTitle.error)
    else
      var blurb := ExtractBlurb(browser.parse(html), settings);
      if blurb.Err? then Err(blurb.error)
      else Ok(BlurbFragment(fictionTitle.value, blurb.value))
  }
}
