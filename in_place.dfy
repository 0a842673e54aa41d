/**
 * The first truncator (`scripts/royalrecap.js`). It walks the paragraphs
 * from the end like the later ones, but keeps the original paragraph nodes
 * and overwrites the text of the boundary paragraph in place, flattening
 * its markup to a single text.
 */
module InPlace {
  import opened Wrappers
  import opened Words
  import opened Dom
  import opened Truncator
  import opened ParagraphWalk
  import opened Processor
  import opened LegacyContent

  /**
   * The boundary paragraph after its text is overwritten: an ellipsis and
   * its last `budget` words joined by single spaces, all markup inside it
   * replaced by that one text.
   */
  function Flatten(p: Node, budget: int): (r: Node)
    ensures p.Element? ==> r.Element? && r.tag == p.tag && r.attrs == p.attrs
  {
    var words := SplitWords(TextContent(p));
    SetTextContent(p, "..." + Join(SliceFrom(words, |words| - budget)))
  }

  /** The paragraphs the walk pushes, in document order. */
  function InPlaceSelect(ps: seq<Node>, budget: int): (r: seq<Node>)
    ensures |r| <= |ps|
  {
    WalkSelect(ps, budget, NodeWords, Flatten)
  }

  /** The paragraph list of the fetched document after the walk: only the boundary paragraph changes. */
  function InPlaceResult(ps: seq<Node>, budget: int): (r: seq<Node>)
    ensures |r| == |ps|
  {
    WalkInPlace(ps, budget, NodeWords, Flatten)
  }

  /**
   * The reverse loop of the first truncator over the fetched document's
   * paragraphs, run by the in-place walk of `ParagraphWalk`.
   */
  method TruncateInPlace(paragraphs: array<Node>, wordCount: int) returns (selected: seq<Node>)
    modifies paragraphs
    ensures paragraphs[..] == InPlaceResult(old(paragraphs[..]), wordCount)
    ensures selected == InPlaceSelect(old(paragraphs[..]), wordCount)
  {
    selected := WalkLoopInPlace(paragraphs, wordCount, NodeWords, Flatten);
  }

  // ---- What the walk produces ----

  /** The in-place walk selects as many paragraphs as the later truncator, and the same whole ones. */
  lemma SameShapeAsSelectTail(ps: seq<Node>, budget: int)
    ensures |InPlaceSelect(ps, budget)| == |SelectTail(ps, budget)|
    ensures InPlaceSelect(ps, budget) != [] ==> InPlaceSelect(ps, budget)[1..] == SelectTail(ps, budget)[1..]
  {
    WalkShape(ps, budget, NodeWords, Flatten, Rebuild);
  }

  /** When the chapter has fewer words than the budget, every paragraph is pushed and none is changed. */
  lemma InPlaceAllFit(ps: seq<Node>, budget: int)
    requires TotalWords(ps) < budget
    ensures InPlaceSelect(ps, budget) == ps
    ensures InPlaceResult(ps, budget) == ps
  {
    WalkAllFit(ps, budget, NodeWords, Flatten);
  }

  /**
   * The pushed paragraphs are the trailing paragraphs of the fetched document
   * after the walk: the same nodes, the boundary one included as modified.
   */
  lemma SelectionIsDocumentTail(ps: seq<Node>, budget: int)
    ensures |InPlaceSelect(ps, budget)| <= |ps|
    ensures InPlaceSelect(ps, budget) == InPlaceResult(ps, budget)[|ps| - |InPlaceSelect(ps, budget)|..]
  {
    WalkIsInPlaceTail(ps, budget, NodeWords, Flatten);
  }

  /**
   * The boundary paragraph ends up as one text: "..." joined to the first of
   * its last `budget` words. With an exact fit (`budget` equal to its word
   * count) nothing is cut, yet the "..." is still added.
   */
  lemma FlattenKeepsLastWords(p: Node, budget: int)
    requires p.Element?
    requires 1 <= budget <= NodeWords(p)
    ensures var ws := SplitWords(TextContent(p));
      var flat := Flatten(p, budget);
      && flat.Element? && flat.tag == p.tag && flat.attrs == p.attrs
      && |flat.children| == 1 && flat.children[0].Text?
      && SplitWords(TextContent(flat)) == ["..." + ws[|ws| - budget]] + ws[|ws| - budget + 1..]
  {
    var ws := SplitWords(TextContent(p));
    SplitAreWords(TextContent(p));
    var kept := SliceFrom(ws, |ws| - budget);
    assert kept == ws[|ws| - budget..];
    assert ws == [""] || AllWords(kept) by {
      if ws != [""] {
        forall i | 0 <= i < |kept| ensures IsWord(kept[i]) {
          assert kept[i] == ws[|ws| - budget + i];
        }
      }
    }
    assert kept[0] == ws[|ws| - budget] && kept[1..] == ws[|ws| - budget + 1..];
    EllipsisBeforeWords(kept);
  }

  /**
   * `extractChapterContent` of the first truncator: the fallback div only
   * when nothing matched (a blank chapter is not rejected), else a `<div>`
   * with the pushed paragraphs.
   */
  function InPlaceChapterContent(chapter: Option<Node>, wordCount: int): (d: Node)
    ensures IsElement(d, "div")
    ensures chapter.None? ==> d == FallbackDiv(RecapFallback)
    ensures chapter.Some? ==> d.attrs == [] && d.children == InPlaceSelect(Paragraphs(chapter.value), wordCount)
    ensures chapter.Some? ==> |d.children| == |SelectTail(Paragraphs(chapter.value), wordCount)|
  {
    assert Lower("div") == "div";
    match chapter
    case None => FallbackDiv(RecapFallback)
    case Some(e) =>
      SameShapeAsSelectTail(Paragraphs(e), wordCount);
      Element("div", [], InPlaceSelect(Paragraphs(e), wordCount))
  }

  method ExtractChapterContentInPlace(chapterDoc: Document, wordCount: int, settings: Settings) returns (d: Node)
    ensures d == InPlaceChapterContent(Query(chapterDoc, settings.chapterContent), wordCount)
  {
    var chapterElement := Query(chapterDoc, settings.chapterContent);
    if chapterElement.None? {
      d := FallbackDiv(RecapFallback);
      return;
    }
    var ps := Paragraphs(chapterElement.value);
    var paragraphs := new Node[|ps|](k requires 0 <= k < |ps| => ps[k]);
    assert paragraphs[..] == ps;
    var selected := TruncateInPlace(paragraphs, wordCount);
    d := Element("div", [], selected);
  }

  /**
   * `createRecapFragment` of the first truncator: a rule, "RoyalRecap of"
   * heading, chapter name, "Showing last N words:" (no "~"), content, rule.
   */
  function RoyalRecapFragment(browser: Browser, html: string, settings: Settings): (f: seq<Node>)
    ensures |f| == 6 && IsElement(f[0], "hr") && IsElement(f[5], "hr") && IsElement(f[4], "div")
    ensures IsElement(f[1], "h1") && TextContent(f[1]) == "RoyalRecap of " + LegacyFictionTitle(browser.current, settings)
    ensures IsElement(f[2], "h2") &&
      TextContent(f[2]) == "Previous chapter: " + LegacyChapterName(browser.parse(html), settings)
    ensures IsElement(f[3], "h4") && TextContent(f[3]) == "Showing last " + IntToString(settings.wordCount) + " words:"
    ensures f[4] == InPlaceChapterContent(Query(browser.parse(html), settings.chapterContent), settings.wordCount)
  {
    var doc := browser.parse(html);
    RecapLayout(
      "RoyalRecap of " + LegacyFictionTitle(browser.current, settings),
      "Previous chapter: " + LegacyChapterName(doc, settings),
      "Showing last " + IntToString(settings.wordCount) + " words:",
      InPlaceChapterContent(Query(doc, settings.chapterContent), settings.wordCount))
  }
}
