/**
 * The reverse paragraph walk shared by every version of
 * `extractChapterContent`, stated once for any way of counting a
 * paragraph's words (`words`) and of cutting the paragraph where the budget
 * runs out (`cut`). Starting from the last paragraph, each one is
 * subtracted from the budget; it is kept whole while words are left over,
 * and the first one that leaves none is cut with the budget it was given,
 * which ends the walk.
 */
module ParagraphWalk {

  /** The paragraphs the walk keeps, in document order. */
  function WalkSelect<T>(ps: seq<T>, remaining: int, words: T -> nat, cut: (T, int) -> T): (r: seq<T>)
    ensures |r| <= |ps|
  {
    if ps == [] then []
    else
      var p := ps[|ps| - 1];
      var left := remaining - words(p);
      if left > 0 then WalkSelect(ps[..|ps| - 1], left, words, cut) + [p] else [cut(p, remaining)]
  }

  /** All the paragraphs after the walk, when the cut is written back in place of the boundary paragraph. */
  function WalkInPlace<T>(ps: seq<T>, remaining: int, words: T -> nat, cut: (T, int) -> T): (r: seq<T>)
    ensures |r| == |ps|
  {
    if ps == [] then []
    else
      var p := ps[|ps| - 1];
      var left := remaining - words(p);
      if left > 0 then WalkInPlace(ps[..|ps| - 1], left, words, cut) + [p] else ps[..|ps| - 1] + [cut(p, remaining)]
  }

  /** Total words of a list of paragraphs, counted from the last one. */
  function Total<T>(ps: seq<T>, words: T -> nat): nat {
    if ps == [] then 0 else Total(ps[..|ps| - 1], words) + words(ps[|ps| - 1])
  }

  function Reverse<T>(s: seq<T>): (r: seq<T>)
    ensures |r| == |s|
  {
    if s == [] then [] else Reverse(s[1..]) + [s[0]]
  }

  lemma {:induction false} ReverseSnoc<T>(s: seq<T>, x: T)
    ensures Reverse(s + [x]) == [x] + Reverse(s)
  {
    if s != [] {
      assert (s + [x])[1..] == s[1..] + [x];
      ReverseSnoc(s[1..], x);
    }
  }

  // ---- One step of the walk, for the loops that perform it ----

  /** Paragraph `i` leaves words to spare: it is kept whole and the walk goes on before it. */
  lemma StepKeep<T>(ps: seq<T>, i: int, before: int, words: T -> nat, cut: (T, int) -> T)
    requires 0 <= i < |ps|
    requires before - words(ps[i]) > 0
    ensures WalkSelect(ps[..i + 1], before, words, cut) == WalkSelect(ps[..i], before - words(ps[i]), words, cut) + [ps[i]]
    ensures WalkInPlace(ps[..i + 1], before, words, cut) == WalkInPlace(ps[..i], before - words(ps[i]), words, cut) + [ps[i]]
  {
    var prefix := ps[..i + 1];
    assert prefix[..|prefix| - 1] == ps[..i] && prefix[|prefix| - 1] == ps[i];
  }

  /** Paragraph `i` uses the budget up: it is cut with the budget it was given and the walk stops. */
  lemma StepCut<T>(ps: seq<T>, i: int, before: int, words: T -> nat, cut: (T, int) -> T)
    requires 0 <= i < |ps|
    requires before - words(ps[i]) <= 0
    ensures WalkSelect(ps[..i + 1], before, words, cut) == [cut(ps[i], before)]
    ensures WalkInPlace(ps[..i + 1], before, words, cut) == ps[..i] + [cut(ps[i], before)]
  {
    var prefix := ps[..i + 1];
    assert prefix[..|prefix| - 1] == ps[..i] && prefix[|prefix| - 1] == ps[i];
  }

  /** Keeping paragraph `i` in place leaves the paragraphs from `i` on as they were. */
  lemma KeepInPlace<T>(ps: seq<T>, i: int, before: int, words: T -> nat, cut: (T, int) -> T)
    requires 0 <= i < |ps|
    requires before - words(ps[i]) > 0
    ensures WalkInPlace(ps[..i + 1], before, words, cut) + ps[i + 1..]
      == WalkInPlace(ps[..i], before - words(ps[i]), words, cut) + ps[i..]
  {
    StepKeep(ps, i, before, words, cut);
    assert ps[i..] == [ps[i]] + ps[i + 1..];
  }

  /** Cutting paragraph `i` in place changes that paragraph only. */
  lemma CutInPlace<T>(ps: seq<T>, i: int, before: int, words: T -> nat, cut: (T, int) -> T)
    requires 0 <= i < |ps|
    requires before - words(ps[i]) <= 0
    ensures WalkInPlace(ps[..i + 1], before, words, cut) + ps[i + 1..] == ps[..i] + [cut(ps[i], before)] + ps[i + 1..]
  {
    StepCut(ps, i, before, words, cut);
  }

  /** Keeping paragraph `i`, as a step of a loop that collects the kept paragraphs back to front in `acc`. */
  lemma SelectKeep<T>(ps: seq<T>, i: int, before: int, words: T -> nat, cut: (T, int) -> T, acc: seq<T>)
    requires 0 <= i < |ps|
    requires before - words(ps[i]) > 0
    ensures WalkSelect(ps[..i + 1], before, words, cut) + Reverse(acc)
      == WalkSelect(ps[..i], before - words(ps[i]), words, cut) + Reverse(acc + [ps[i]])
  {
    StepKeep(ps, i, before, words, cut);
    ReverseSnoc(acc, ps[i]);
  }

  /** Cutting paragraph `i`, as the last step of that loop. */
  lemma SelectCut<T>(ps: seq<T>, i: int, before: int, words: T -> nat, cut: (T, int) -> T, acc: seq<T>)
    requires 0 <= i < |ps|
    requires before - words(ps[i]) <= 0
    ensures WalkSelect(ps[..i + 1], before, words, cut) + Reverse(acc) == Reverse(acc + [cut(ps[i], before)])
  {
    StepCut(ps, i, before, words, cut);
    ReverseSnoc(acc, cut(ps[i], before));
  }

  /**
   * The walk as the extension performs it: from the last paragraph to the
   * first, subtracting each paragraph's words from the budget, collecting
   * kept paragraphs back to front and reversing them at the end.
   * Paragraphs without words are passed over.
   */
  method WalkLoop<T>(paragraphs: seq<T>, wordCount: int, words: T -> nat, cut: (T, int) -> T)
    returns (selected: seq<T>)
    requires forall p :: words(p) >= 1
    ensures selected == WalkSelect(paragraphs, wordCount, words, cut)
  {
    var selectedParagraphs: seq<T> := [];
    var remainingWordCount := wordCount;
    var i := |paragraphs| - 1;
    assert paragraphs[..i + 1] == paragraphs;
    while i >= 0
      invariant -1 <= i < |paragraphs|
      invariant WalkSelect(paragraphs, wordCount, words, cut)
        == WalkSelect(paragraphs[..i + 1], remainingWordCount, words, cut) + Reverse(selectedParagraphs)
    {
      var paragraph := paragraphs[i];
      var paragraphWordCount := words(paragraph);
      if paragraphWordCount > 0 {
        if remainingWordCount - paragraphWordCount > 0 {
          SelectKeep(paragraphs, i, remainingWordCount, words, cut, selectedParagraphs);
        } else {
          SelectCut(paragraphs, i, remainingWordCount, words, cut, selectedParagraphs);
        }
        remainingWordCount := remainingWordCount - paragraphWordCount;
        if remainingWordCount > 0 {
          selectedParagraphs := selectedParagraphs + [paragraph];
        } else {
          var truncatedParagraph := cut(paragraph, paragraphWordCount + remainingWordCount);
          selectedParagraphs := selectedParagraphs + [truncatedParagraph];
          break;
        }
      }
      i := i - 1;
    }
    selected := Reverse(selectedParagraphs);
  }

  /**
   * The walk of the first truncator: the same loop over an array of
   * paragraphs, where the boundary paragraph is overwritten by its cut and
   * the kept paragraphs are the array's own elements.
   */
  method WalkLoopInPlace<T>(paragraphs: array<T>, wordCount: int, words: T -> nat, cut: (T, int) -> T)
    returns (selected: seq<T>)
    modifies paragraphs
    ensures paragraphs[..] == WalkInPlace(old(paragraphs[..]), wordCount, words, cut)
    ensures selected == WalkSelect(old(paragraphs[..]), wordCount, words, cut)
  {
    ghost var original := paragraphs[..];
    var selectedParagraphs: seq<T> := [];
    var budget := wordCount;
    var i := paragraphs.Length - 1;
    assert original[..i + 1] == original;
    while i >= 0
      invariant -1 <= i < paragraphs.Length
      invariant paragraphs[..] == original
      invariant WalkSelect(original, wordCount, words, cut)
        == WalkSelect(original[..i + 1], budget, words, cut) + Reverse(selectedParagraphs)
      invariant WalkInPlace(original, wordCount, words, cut)
        == WalkInPlace(original[..i + 1], budget, words, cut) + original[i + 1..]
    {
      var paragraph := paragraphs[i];
      var remainingWords := budget - words(paragraph);
      if remainingWords > 0 {
        SelectKeep(original, i, budget, words, cut, selectedParagraphs);
        KeepInPlace(original, i, budget, words, cut);
        budget := remainingWords;
        selectedParagraphs := selectedParagraphs + [paragraph];
      } else {
        SelectCut(original, i, budget, words, cut, selectedParagraphs);
        CutInPlace(original, i, budget, words, cut);
        paragraphs[i] := cut(paragraph, budget);
        assert paragraphs[..] == original[..i] + [cut(paragraph, budget)] + original[i + 1..];
        selectedParagraphs := selectedParagraphs + [paragraphs[i]];
        break;
      }
      i := i - 1;
    }
    selected := Reverse(selectedParagraphs);
  }

  // ---- Word totals ----

  lemma TotalLast<T>(a: seq<T>, p: T, words: T -> nat)
    ensures Total(a + [p], words) == Total(a, words) + words(p)
  {
    assert (a + [p])[..|a|] == a;
  }

  lemma {:induction false} TotalAppend<T>(a: seq<T>, b: seq<T>, words: T -> nat)
    ensures Total(a + b, words) == Total(a, words) + Total(b, words)
    decreases |b|
  {
    if b == [] {
      assert a + b == a;
    } else {
      var b' := b[..|b| - 1];
      var q := b[|b| - 1];
      assert a + b == (a + b') + [q] && b == b' + [q];
      TotalLast(a + b', q, words);
      TotalLast(b', q, words);
      TotalAppend(a, b', words);
    }
  }

  // ---- What the walk keeps ----

  /** When the paragraphs hold fewer words than the budget, every one is kept and none is cut. */
  lemma {:induction false} WalkAllFit<T>(ps: seq<T>, budget: int, words: T -> nat, cut: (T, int) -> T)
    requires Total(ps, words) < budget
    ensures WalkSelect(ps, budget, words, cut) == ps
    ensures WalkInPlace(ps, budget, words, cut) == ps
    decreases |ps|
  {
    if ps != [] {
      var init := ps[..|ps| - 1];
      WalkAllFit(init, budget - words(ps[|ps| - 1]), words, cut);
      assert init + [ps[|ps| - 1]] == ps;
    }
  }

  /** The slices from paragraph `j` on, seen from the paragraphs before the last one. */
  lemma SplitSlices<T>(ps: seq<T>, j: int, words: T -> nat)
    requires 0 <= j < |ps| - 1
    ensures var init := ps[..|ps| - 1];
      var p := ps[|ps| - 1];
      && ps[j] == init[j]
      && ps[j + 1..] == init[j + 1..] + [p]
      && Total(ps[j + 1..], words) == Total(init[j + 1..], words) + words(p)
      && Total(ps[j..], words) == Total(init[j..], words) + words(p)
  {
    var init := ps[..|ps| - 1];
    var p := ps[|ps| - 1];
    assert ps[j + 1..] == init[j + 1..] + [p];
    assert ps[j..] == init[j..] + [p];
    TotalLast(init[j + 1..], p, words);
    TotalLast(init[j..], p, words);
  }

  /**
   * The cut lands on paragraph `j` when the paragraphs after it fit strictly
   * within the budget and paragraph `j` reaches it: those paragraphs are kept
   * whole and paragraph `j` is cut with the words they left over.
   */
  lemma {:induction false} WalkAtBoundary<T>(ps: seq<T>, budget: int, j: int, words: T -> nat, cut: (T, int) -> T)
    requires 0 <= j < |ps|
    requires j == |ps| - 1 || Total(ps[j + 1..], words) < budget
    requires budget <= Total(ps[j..], words)
    ensures WalkSelect(ps, budget, words, cut) == [cut(ps[j], budget - Total(ps[j + 1..], words))] + ps[j + 1..]
    decreases |ps|
  {
    var n := |ps|;
    var p := ps[n - 1];
    if j == n - 1 {
      assert ps[j..] == [] + [p] && ps[j + 1..] == [];
      TotalLast([], p, words);
    } else {
      var init := ps[..n - 1];
      var left := budget - words(p);
      SplitSlices(ps, j, words);
      assert left > 0;
      assert WalkSelect(ps, budget, words, cut) == WalkSelect(init, left, words, cut) + [p];
      WalkAtBoundary(init, left, j, words, cut);
      var c := cut(ps[j], budget - Total(ps[j + 1..], words));
      assert WalkSelect(init, left, words, cut) == [c] + init[j + 1..];
      assert ([c] + init[j + 1..]) + [p] == [c] + (init[j + 1..] + [p]);
    }
  }

  /** With a budget of at least one word and a cut that respects its budget, the kept paragraphs fit the budget. */
  lemma {:induction false} WalkWithinBudget<T>(ps: seq<T>, budget: int, words: T -> nat, cut: (T, int) -> T)
    requires budget >= 1
    requires forall p, c :: c >= 1 ==> words(cut(p, c)) <= c
    ensures Total(WalkSelect(ps, budget, words, cut), words) <= budget
    decreases |ps|
  {
    if ps != [] {
      var p := ps[|ps| - 1];
      var left := budget - words(p);
      if left > 0 {
        WalkWithinBudget(ps[..|ps| - 1], left, words, cut);
        TotalLast(WalkSelect(ps[..|ps| - 1], left, words, cut), p, words);
      } else {
        TotalLast([], cut(p, budget), words);
        assert [] + [cut(p, budget)] == [cut(p, budget)];
      }
    }
  }

  /** Two walks that differ only in how they cut keep as many paragraphs, and the same whole ones. */
  lemma {:induction false} WalkShape<T>(ps: seq<T>, budget: int, words: T -> nat, cut1: (T, int) -> T, cut2: (T, int) -> T)
    ensures |WalkSelect(ps, budget, words, cut1)| == |WalkSelect(ps, budget, words, cut2)|
    ensures WalkSelect(ps, budget, words, cut1) != [] ==>
      WalkSelect(ps, budget, words, cut1)[1..] == WalkSelect(ps, budget, words, cut2)[1..]
    decreases |ps|
  {
    if ps != [] {
      var p := ps[|ps| - 1];
      var left := budget - words(p);
      if left > 0 {
        var init := ps[..|ps| - 1];
        WalkShape(init, left, words, cut1, cut2);
        var a := WalkSelect(init, left, words, cut1);
        var b := WalkSelect(init, left, words, cut2);
        if a != [] {
          assert (a + [p])[1..] == a[1..] + [p];
          assert (b + [p])[1..] == b[1..] + [p];
        }
      }
    }
  }

  /** The kept paragraphs are the trailing paragraphs of the in-place result. */
  lemma {:induction false} WalkIsInPlaceTail<T>(ps: seq<T>, budget: int, words: T -> nat, cut: (T, int) -> T)
    ensures var sel := WalkSelect(ps, budget, words, cut);
      sel == WalkInPlace(ps, budget, words, cut)[|ps| - |sel|..]
    decreases |ps|
  {
    if ps != [] {
      var p := ps[|ps| - 1];
      var left := budget - words(p);
      var init := ps[..|ps| - 1];
      if left > 0 {
        WalkIsInPlaceTail(init, left, words, cut);
        var sel := WalkSelect(init, left, words, cut);
        var res := WalkInPlace(init, left, words, cut);
        assert (res + [p])[|ps| - |sel + [p]|..] == res[|init| - |sel|..] + [p];
      } else {
        var res := init + [cut(p, budget)];
        assert res[|ps| - 1..] == [cut(p, budget)];
      }
    }
  }
}
