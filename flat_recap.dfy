/**
 * The original recap (`royalrecap.js`): every part of the recap is the flat
 * "last N words" of an element's text, with no paragraph structure kept.
 */
module FlatRecap {
  import opened Wrappers
  import opened Words
  import opened Dom
  import opened Processor

  /**
   * `extractContent(parser, html, selector, wordcount)` on the parsed page:
   * null when the selector matches nothing, else the last `wordcount` words
   * of the element's text joined by single spaces.
   */
  function ExtractContent(doc: Document, selector: string, wordcount: int): (r: Option<string>)
    ensures r.None? <==> Query(doc, selector).None?
  {
    match Query(doc, selector)
    case None => None
    case Some(e) => Some(Join(SliceFrom(SplitWords(TextContent(e)), -wordcount)))
  }

  /**
   * The extracted text holds exactly the last `min(wordcount, n)` of the
   * element's `n` words, in their original order; a `wordcount` of 0 keeps
   * all of them.
   */
  lemma ExtractContentKeepsLastWords(doc: Document, selector: string, wordcount: int)
    requires Query(doc, selector).Some?
    requires wordcount >= 0
    ensures var ws := SplitWords(TextContent(Query(doc, selector).value));
      var keep := if wordcount == 0 || wordcount >= |ws| then |ws| else wordcount;
      SplitWords(ExtractContent(doc, selector, wordcount).value) == ws[|ws| - keep..]
  {
    var ws := SplitWords(TextContent(Query(doc, selector).value));
    SplitAreWords(TextContent(Query(doc, selector).value));
    var kept := SliceFrom(ws, -wordcount);
    assert kept != [];
    if ws == [""] {
      assert kept == [""];
    } else {
      SplitJoin(kept);
    }
  }

  /** `element.textContent = text`, where a null text leaves the element empty. */
  function NullableText(text: Option<string>): string {
    match text
    case None => ""
    case Some(s) => s
  }

  /** `"..." + text` in JavaScript, where a null text is printed as "null". */
  function EllipsisPlus(text: Option<string>): (r: string)
    ensures |r| >= 3 && r[..3] == "..."
    ensures text.None? ==> r == "...null"
    ensures text.Some? ==> r[3..] == text.value
  {
    match text
    case None => "...null"
    case Some(s) => "..." + s
  }

  /**
   * The recap `setRecapText` builds from the fetched chapter: the fiction
   * title, the chapter name and the content are all cut to the last
   * `wordCount` words of the fetched page, followed by a rule.
   */
  function FlatRecapFragment(fetched: Document, settings: Settings): (f: seq<Node>)
    ensures |f| == 5 && forall i :: 0 <= i < 5 ==> f[i].Element?
    ensures f[0].tag == "h1" && f[1].tag == "h2" && f[2].tag == "h4" && f[3].tag == "div" && f[4].tag == "hr"
    ensures TextContent(f[0]) == NullableText(ExtractContent(fetched, settings.fictionTitle, settings.wordCount))
    ensures TextContent(f[1]) == NullableText(ExtractContent(fetched, settings.chapterTitle, settings.wordCount))
    ensures TextContent(f[2]) == "Showing last " + IntToString(settings.wordCount) + " words:"
    ensures |TextContent(f[3])| >= 3 && TextContent(f[3])[..3] == "..."
    ensures Query(fetched, settings.chapterContent).None? ==> TextContent(f[3]) == "...null"
    ensures Query(fetched, settings.chapterContent).Some? ==>
      TextContent(f[3]) == "..." + ExtractContent(fetched, settings.chapterContent, settings.wordCount).value
  {
    var fictionTitle := ExtractContent(fetched, settings.fictionTitle, settings.wordCount);
    var lastChapterName := ExtractContent(fetched, settings.chapterTitle, settings.wordCount);
    var lastChapterContent := ExtractContent(fetched, settings.chapterContent, settings.wordCount);
    var h1 := TextElement("h1", NullableText(fictionTitle));
    var h2 := TextElement("h2", NullableText(lastChapterName));
    var h4 := TextElement("h4", "Showing last " + IntToString(settings.wordCount) + " words:");
    var div := TextElement("div", EllipsisPlus(lastChapterContent));
    var hr := Element("hr", [], []);
    [h1, h2, h4, div, hr]
  }
}
