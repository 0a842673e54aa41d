/**
 * Limiting a chapter to its last words: `buildContentFromWords`, which
 * rebuilds one node keeping only its last `count` words, and the reverse
 * paragraph walk of `extractChapterContent`, which keeps whole paragraphs
 * from the end of the chapter and cuts the one where the budget runs out.
 */
module Truncator {
  import opened Words
  import opened Dom
  import opened ParagraphWalk

  /** Number of words in a node's text, as the paragraph walk counts them (at least 1). */
  function NodeWords(n: Node): (r: nat)
    ensures r >= 1
  {
    WordCount(TextContent(n))
  }

  /**
   * The text a text node is rebuilt with: its last `count` words behind an
   * ellipsis when it has more than `count` words, else its words re-joined.
   */
  function TextSlice(s: string, count: int): string {
    var ws := SplitWords(s);
    if |ws| > count then "..." + Join(SliceFrom(ws, -count)) else Join(ws)
  }

  /**
   * `TextSlice` as a function value. The tree walk below applies the cut
   * through it, so that proofs about the walk rely on what the text lemmas
   * state about the cut rather than on its definition.
   */
  const CutText: (string, int) -> string := TextSlice

  /** `NodeWords` as a function value, for the same reason. */
  const CountWords: Node -> nat := NodeWords

  /** `buildContentFromWords(node, count)` as a value. */
  function Rebuild(n: Node, count: int): Node
    decreases n, 1
  {
    match n
    case Text(s) => Text(CutText(s, count))
    case Element(tag, attrs, kids) => Element(Lower(tag), attrs, RebuildKids(kids, count))
    case Other => Text("")
  }

  /**
   * The children loop of `buildContentFromWords`: rebuild each child with the
   * words still allowed, and stop after the child that uses the budget up.
   */
  function RebuildKids(cs: seq<Node>, remaining: int): seq<Node>
    decreases cs, 0
  {
    if cs == [] then []
    else
      var nc := Rebuild(cs[0], remaining);
      var w := CountWords(nc);
      if w < remaining then [nc] + RebuildKids(cs[1..], remaining - w) else [nc]
  }

  method BuildContentFromWords(n: Node, count: int) returns (r: Node)
    ensures r == Rebuild(n, count)
    decreases n, 1
  {
    match n {
      case Text(s) =>
        var textWords := SplitWords(s);
        var newText :=
          if |textWords| > count then "..." + Join(SliceFrom(textWords, -count)) else Join(textWords);
        r := Text(newText);
      case Element(tag, attrs, kids) =>
        var newChildNodes := BuildChildren(kids, count);
        r := Element(Lower(tag), attrs, newChildNodes);
      case Other =>
        r := Text("");
    }
  }

  /**
   * The children loop of `buildContentFromWords`. A child that fits is kept
   * and its words are taken from the budget; the walk stops once the budget
   * is used up, and a child that does not fit is rebuilt again with the
   * budget left and ends the walk.
   */
  method BuildChildren(kids: seq<Node>, count: int) returns (newChildNodes: seq<Node>)
    ensures newChildNodes == RebuildKids(kids, count)
    decreases kids, 0
  {
    var remainingCount := count;
    newChildNodes := [];
    var i := 0;
    assert kids[0..] == kids;
    while i < |kids|
      invariant 0 <= i <= |kids|
      invariant RebuildKids(kids, count) == newChildNodes + RebuildKids(kids[i..], remainingCount)
    {
      ghost var done := newChildNodes;
      var newChild := BuildContentFromWords(kids[i], remainingCount);
      var newTextWords := NodeWords(newChild);
      if newTextWords <= remainingCount {
        newChildNodes := newChildNodes + [newChild];
        if newTextWords < remainingCount {
          KidsKeep(kids, i, remainingCount);
          Regroup(done, newChild, RebuildKids(kids[i + 1..], remainingCount - newTextWords));
        } else {
          KidsLast(kids, i, remainingCount);
        }
        remainingCount := remainingCount - newTextWords;
      } else {
        KidsLast(kids, i, remainingCount);
        var partialChild := BuildContentFromWords(kids[i], remainingCount);
        newChildNodes := newChildNodes + [partialChild];
        remainingCount := 0;
        break;
      }
      i := i + 1;
      if remainingCount <= 0 {
        break;
      }
    }
  }

  /** Child `i` leaves words to spare: it is kept and the walk goes on with the next child. */
  lemma KidsKeep(kids: seq<Node>, i: int, remaining: int)
    requires 0 <= i < |kids|
    requires NodeWords(Rebuild(kids[i], remaining)) < remaining
    ensures RebuildKids(kids[i..], remaining)
      == [Rebuild(kids[i], remaining)] + RebuildKids(kids[i + 1..], remaining - NodeWords(Rebuild(kids[i], remaining)))
  {
    assert kids[i..][0] == kids[i] && kids[i..][1..] == kids[i + 1..];
  }

  /** Child `i` uses the budget up: its rebuild is the last child kept. */
  lemma KidsLast(kids: seq<Node>, i: int, remaining: int)
    requires 0 <= i < |kids|
    requires NodeWords(Rebuild(kids[i], remaining)) >= remaining
    ensures RebuildKids(kids[i..], remaining) == [Rebuild(kids[i], remaining)]
  {
    assert kids[i..][0] == kids[i];
  }

  lemma Regroup<T>(done: seq<T>, x: T, rest: seq<T>)
    ensures done + ([x] + rest) == (done + [x]) + rest
  {
  }

  /** Total words of a list of paragraphs. */
  function TotalWords(ps: seq<Node>): nat {
    Total(ps, NodeWords)
  }

  /**
   * The paragraph walk of `extractChapterContent` with budget `remaining`:
   * paragraphs that leave words to spare are kept whole, and the one that
   * exhausts the budget is rebuilt with what was left before it.
   */
  function SelectTail(ps: seq<Node>, remaining: int): (r: seq<Node>)
    ensures |r| <= |ps|
  {
    WalkSelect(ps, remaining, NodeWords, Rebuild)
  }

  /**
   * The reverse loop of `extractChapterContent`, run by the walk of
   * `ParagraphWalk` with the paragraph's word count and the rebuild that
   * `BuildContentFromWords` computes.
   */
  method SelectParagraphs(paragraphs: seq<Node>, wordCount: int) returns (selected: seq<Node>)
    ensures selected == SelectTail(paragraphs, wordCount)
  {
    selected := WalkLoop(paragraphs, wordCount, NodeWords, Rebuild);
  }

  // ---- Properties of the text-node cut ----

  /** A text with more than `count >= 1` words keeps exactly its last `count`, the first behind "...". */
  lemma TextSliceKeepsLast(s: string, count: int)
    requires count >= 1 && WordCount(s) > count
    ensures var ws := SplitWords(s);
      SplitWords(TextSlice(s, count)) == ["..." + ws[|ws| - count]] + ws[|ws| - count + 1..]
  {
    var ws := SplitWords(s);
    SplitAreWords(s);
    var kept := SliceFrom(ws, -count);
    assert kept == ws[|ws| - count..];
    assert TextSlice(s, count) == "..." + Join(kept);
    assert AllWords(kept) by {
      assert ws != [""] && AllWords(ws);
      forall i | 0 <= i < |kept| ensures IsWord(kept[i]) {
        assert kept[i] == ws[|ws| - count + i];
      }
    }
    EllipsisBeforeWords(kept);
    assert kept[0] == ws[|ws| - count] && kept[1..] == ws[|ws| - count + 1..];
  }

  /** A text within the budget keeps all its words (white space is normalised to single spaces). */
  lemma TextSliceFits(s: string, count: int)
    requires WordCount(s) <= count
    ensures SplitWords(TextSlice(s, count)) == SplitWords(s)
  {
    var ws := SplitWords(s);
    SplitAreWords(s);
    if ws != [""] {
      SplitJoin(ws);
    }
  }

  /** With a budget of `count >= 1`, a rebuilt text node has `min(count, words)` words. */
  lemma TextSliceCount(s: string, count: int)
    requires count >= 1
    ensures WordCount(TextSlice(s, count)) == if WordCount(s) <= count then WordCount(s) else count
  {
    if WordCount(s) <= count {
      TextSliceFits(s, count);
    } else {
      TextSliceKeepsLast(s, count);
    }
  }

  /** A budget of zero cuts nothing: every word is kept, behind "...". */
  lemma TextSliceZero(s: string)
    ensures var ws := SplitWords(s);
      SplitWords(TextSlice(s, 0)) == ["..." + ws[0]] + ws[1..]
  {
    var ws := SplitWords(s);
    SplitAreWords(s);
    assert SliceFrom(ws, 0) == ws;
    EllipsisBeforeWords(ws);
  }

  // ---- The rebuilt node stays within the budget ----

  /** Words of each node's text, added up without merging across nodes. */
  function RunsTotal(cs: seq<Node>): nat {
    if cs == [] then 0 else |Runs(TextContent(cs[0]))| + RunsTotal(cs[1..])
  }

  /** Joining the texts of several nodes yields no more words than they hold separately. */
  lemma {:induction false} ConcatRuns(cs: seq<Node>)
    ensures |Runs(ConcatText(cs))| <= RunsTotal(cs)
  {
    if cs != [] {
      RunsAppend(TextContent(cs[0]), ConcatText(cs[1..]));
      ConcatRuns(cs[1..]);
    }
  }

  /** `buildContentFromWords(node, count)` with `count >= 1` yields at most `count` words. */
  lemma {:induction false} RebuildWithinBudget(n: Node, count: int)
    requires count >= 1
    ensures NodeWords(Rebuild(n, count)) <= count
    decreases n, 1
  {
    match n
    case Text(s) =>
      TextSliceCount(s, count);
    case Element(tag, attrs, kids) =>
      var ks := RebuildKids(kids, count);
      assert TextContent(Rebuild(n, count)) == ConcatText(ks);
      ConcatRuns(ks);
      KidsWithinBudget(kids, count);
    case Other =>
  }

  lemma {:induction false} KidsWithinBudget(cs: seq<Node>, remaining: int)
    requires remaining >= 1
    ensures RunsTotal(RebuildKids(cs, remaining)) <= remaining
    decreases cs, 0
  {
    if cs != [] {
      var nc := Rebuild(cs[0], remaining);
      var w := NodeWords(nc);
      RebuildWithinBudget(cs[0], remaining);
      var rest := if w < remaining then RebuildKids(cs[1..], remaining - w) else [];
      assert RebuildKids(cs, remaining) == [nc] + rest;
      assert ([nc] + rest)[1..] == rest;
      assert |Runs(TextContent(nc))| <= w;
      if w < remaining {
        KidsWithinBudget(cs[1..], remaining - w);
      }
    }
  }

  // ---- The paragraph walk ----

  /** When the whole chapter has fewer words than the budget, every paragraph is kept unchanged. */
  lemma SelectAllFit(ps: seq<Node>, budget: int)
    requires TotalWords(ps) < budget
    ensures SelectTail(ps, budget) == ps
  {
    WalkAllFit(ps, budget, NodeWords, Rebuild);
  }

  /**
   * The cut lands on paragraph `j` when the paragraphs after it fit strictly
   * within the budget and paragraph `j` reaches it: those paragraphs are kept
   * whole and paragraph `j` is rebuilt with the words they left over.
   */
  lemma SelectAtBoundary(ps: seq<Node>, budget: int, j: int)
    requires 0 <= j < |ps|
    requires j == |ps| - 1 || TotalWords(ps[j + 1..]) < budget
    requires budget <= TotalWords(ps[j..])
    ensures SelectTail(ps, budget) == [Rebuild(ps[j], budget - TotalWords(ps[j + 1..]))] + ps[j + 1..]
  {
    WalkAtBoundary(ps, budget, j, NodeWords, Rebuild);
  }

  /** With a budget of at least one word, the selected paragraphs hold at most that many words. */
  lemma SelectWithinBudget(ps: seq<Node>, budget: int)
    requires budget >= 1
    ensures TotalWords(SelectTail(ps, budget)) <= budget
  {
    forall p, c | c >= 1
      ensures NodeWords(Rebuild(p, c)) <= c
    {
      RebuildWithinBudget(p, c);
    }
    WalkWithinBudget(ps, budget, NodeWords, Rebuild);
  }

  // ---- Two consequences of slicing children forward ----

  lemma OneWord(w: string)
    requires IsWord(w)
    ensures Runs(w) == [w]
  {
    RunsPrepend(w, "");
    assert w + "" == w;
  }

  /**
   * A boundary paragraph is cut from its first child forward: when its first
   * text child alone reaches the budget, only that child's last words are
   * kept and every later child is dropped, even though the paragraph's last
   * words are in those children.
   */
  lemma BoundaryKeepsFirstChildTail(tag: string, attrs: seq<Attr>, s: string, rest: seq<Node>, count: int)
    requires count >= 1 && WordCount(s) >= count
    ensures Rebuild(Element(tag, attrs, [Text(s)] + rest), count) == Element(Lower(tag), attrs, [Text(TextSlice(s, count))])
  {
    TextSliceCount(s, count);
    var kids := [Text(s)] + rest;
    assert kids[0] == Text(s);
    assert RebuildKids(kids, count) == [Text(TextSlice(s, count))];
  }

  /**
   * Rebuilt sibling texts are concatenated without a separator, so the
   * words of adjacent text nodes merge: two one-word children read back as
   * a single word.
   */
  lemma SiblingWordsMerge(tag: string, attrs: seq<Attr>, x: string, y: string, count: int)
    requires IsWord(x) && IsWord(y) && count >= 2
    ensures var r := Rebuild(Element(tag, attrs, [Text(x), Text(y)]), count);
      r == Element(Lower(tag), attrs, [Text(x), Text(y)]) && TextContent(r) == x + y && NodeWords(r) == 1
  {
    OneWord(x);
    OneWord(y);
    assert Join([x]) == x && Join([y]) == y;
    assert TextSlice(x, count) == x;
    assert TextSlice(y, count - 1) == y;
    var kids := [Text(x), Text(y)];
    assert RebuildKids(kids[1..], count - 1) == [Text(y)];
    assert RebuildKids(kids, count) == kids;
    assert ConcatText(kids[1..]) == y;
    assert ConcatText(kids) == x + y;
    assert IsWord(x + y) by {
      assert forall i :: 0 <= i < |x + y| ==> (x + y)[i] == if i < |x| then x[i] else y[i - |x|];
    }
    OneWord(x + y);
  }
}
