/**
 * Strings and words the way the extension's JavaScript sees them: `trim()`,
 * `split(/\s+/)`, `join(" ")` and `Array.prototype.slice`.
 */
module Words {

  /** JavaScript white space and line terminators: what `trim()` strips and `\s` matches. */
  predicate IsSpace(c: char) {
    || c == '\t' || c == '\n' || c == '\U{000B}' || c == '\U{000C}' || c == '\r' || c == ' '
    || c == '\U{00A0}' || c == '\U{1680}' || ('\U{2000}' <= c <= '\U{200A}')
    || c == '\U{2028}' || c == '\U{2029}' || c == '\U{202F}' || c == '\U{205F}'
    || c == '\U{3000}' || c == '\U{FEFF}'
  }

  predicate NoSpace(s: string) {
    forall i :: 0 <= i < |s| ==> !IsSpace(s[i])
  }

  predicate Blank(s: string) {
    forall i :: 0 <= i < |s| ==> IsSpace(s[i])
  }

  /** A word as `split(/\s+/)` produces it from trimmed, non-blank text. */
  predicate IsWord(w: string) {
    w != [] && NoSpace(w)
  }

  predicate AllWords(ws: seq<string>) {
    forall i :: 0 <= i < |ws| ==> IsWord(ws[i])
  }

  /** Blank text is white space after its first character too, and conversely. */
  lemma BlankTail(s: string)
    requires s != [] && IsSpace(s[0])
    ensures Blank(s) <==> Blank(s[1..])
  {
    if Blank(s[1..]) {
      forall i | 0 <= i < |s| ensures IsSpace(s[i]) {
        if i > 0 { assert s[i] == s[1..][i - 1]; }
      }
    }
  }

  lemma BlankInit(s: string)
    requires s != [] && IsSpace(s[|s| - 1])
    ensures Blank(s) <==> Blank(s[..|s| - 1])
  {
    if Blank(s[..|s| - 1]) {
      forall i | 0 <= i < |s| ensures IsSpace(s[i]) {
        if i < |s| - 1 { assert s[i] == s[..|s| - 1][i]; }
      }
    }
  }

  /** A blank prefix after a leading white space character is still blank with that character. */
  lemma BlankLead(s: string, k: nat)
    requires s != [] && IsSpace(s[0]) && k < |s|
    requires Blank(s[1..][..|s| - 1 - k])
    ensures Blank(s[..|s| - k])
  {
    var dropped, rest := s[..|s| - k], s[1..][..|s| - 1 - k];
    forall i | 0 <= i < |dropped| ensures IsSpace(dropped[i]) {
      if i > 0 { assert dropped[i] == rest[i - 1]; }
    }
  }

  /** A blank suffix before a trailing white space character is still blank with that character. */
  lemma BlankTrail(s: string, k: nat)
    requires s != [] && IsSpace(s[|s| - 1]) && k < |s|
    requires Blank(s[..|s| - 1][k..])
    ensures Blank(s[k..])
  {
    var dropped, rest := s[k..], s[..|s| - 1][k..];
    forall i | 0 <= i < |dropped| ensures IsSpace(dropped[i]) {
      if i < |rest| { assert dropped[i] == rest[i]; }
    }
  }

  function TrimStart(s: string): (r: string)
    ensures |r| <= |s| && r == s[|s| - |r|..]
    ensures r == [] <==> Blank(s)
    ensures r == [] || !IsSpace(r[0])
    ensures Blank(s[..|s| - |r|])
  {
    if s != [] && IsSpace(s[0]) then
      BlankTail(s);
      var r := TrimStart(s[1..]);
      BlankLead(s, |r|);
      r
    else s
  }

  function TrimEnd(s: string): (r: string)
    ensures |r| <= |s| && r == s[..|r|]
    ensures r == [] <==> Blank(s)
    ensures r == [] || !IsSpace(r[|r| - 1])
    ensures Blank(s[|r|..])
  {
    if s != [] && IsSpace(s[|s| - 1]) then
      BlankInit(s);
      var r := TrimEnd(s[..|s| - 1]);
      BlankTrail(s, |r|);
      r
    else s
  }

  /** `String.prototype.trim`: the text with leading and trailing white space removed. */
  function Trim(s: string): (r: string)
    ensures r == [] <==> Blank(s)
    ensures r != [] ==> !IsSpace(r[0]) && !IsSpace(r[|r| - 1])
    ensures |r| <= |s|
  {
    var t := TrimStart(s);
    var r := TrimEnd(t);
    assert r != [] ==> t[0] == r[0];
    r
  }

  /** A suffix of `s` that itself starts with `r` splits `s` into three parts. */
  lemma ThreeParts(s: string, t: string, r: string)
    requires |r| <= |t| <= |s|
    requires t == s[|s| - |t|..] && r == t[..|r|]
    ensures s == s[..|s| - |t|] + r + t[|r|..]
  {
    assert t == r + t[|r|..];
    assert s == s[..|s| - |t|] + t;
  }

  /** `trim()` removes white space at both ends and nothing else: the text is blank, the trimmed text, blank. */
  lemma TrimDecomposes(s: string)
    ensures var t := TrimStart(s);
      var lead, trail := s[..|s| - |t|], t[|Trim(s)|..];
      s == lead + Trim(s) + trail && Blank(lead) && Blank(trail)
  {
    ThreeParts(s, TrimStart(s), Trim(s));
  }

  /** Length of the longest prefix of `s` without white space. */
  function NonSpacePrefix(s: string): (k: nat)
    ensures k <= |s| && NoSpace(s[..k])
    ensures k < |s| ==> IsSpace(s[k])
  {
    if s == [] || IsSpace(s[0]) then 0
    else
      var k := 1 + NonSpacePrefix(s[1..]);
      assert s[..k] == [s[0]] + s[1..][..k - 1];
      k
  }

  /** The maximal runs of non-white-space characters of `s`, in order. */
  function Runs(s: string): (ws: seq<string>)
    decreases |s|
  {
    if s == [] then []
    else if IsSpace(s[0]) then Runs(s[1..])
    else
      var k := NonSpacePrefix(s);
      [s[..k]] + Runs(s[k..])
  }

  /** Every run is a word: non-empty and free of white space. */
  lemma {:induction false} RunsAreWords(s: string)
    ensures AllWords(Runs(s))
    decreases |s|
  {
    if s != [] {
      if IsSpace(s[0]) {
        RunsAreWords(s[1..]);
      } else {
        var k := NonSpacePrefix(s);
        RunsAreWords(s[k..]);
      }
    }
  }

  /** The words of a text are blank-free, or the single empty string of blank text. */
  lemma SplitAreWords(s: string)
    ensures SplitWords(s) == [""] || AllWords(SplitWords(s))
  {
    RunsAreWords(s);
  }

  /**
   * `s.trim().split(/\s+/)`: the words of `s`; blank text splits into the
   * single empty string, so it still counts as one word.
   */
  function SplitWords(s: string): (ws: seq<string>)
    ensures |ws| >= 1
  {
    var rs := Runs(s);
    if rs == [] then [""] else rs
  }

  /** `s.trim().split(/\s+/).length`. */
  function WordCount(s: string): (n: nat)
    ensures n >= 1
  {
    |SplitWords(s)|
  }

  /** `ws.join(" ")`. */
  function Join(ws: seq<string>): string
  {
    if ws == [] then ""
    else if |ws| == 1 then ws[0]
    else ws[0] + (" " + Join(ws[1..]))
  }

  /** `ws.slice(start)`, with JavaScript's clamping of negative and oversized starts. */
  function SliceFrom(ws: seq<string>, start: int): (r: seq<string>)
    ensures |r| <= |ws| && r == ws[|ws| - |r|..]
    ensures start <= 0 ==> |r| == (if -start == 0 || -start >= |ws| then |ws| else -start)
    ensures start > 0 ==> |r| == (if start >= |ws| then 0 else |ws| - start)
  {
    var k :=
      if start < 0 then (if |ws| + start < 0 then 0 else |ws| + start)
      else if start > |ws| then |ws|
      else start;
    ws[k..]
  }

  lemma {:induction false} NonSpacePrefixAppend(w: string, s: string)
    requires NoSpace(w)
    ensures NonSpacePrefix(w + s) == |w| + NonSpacePrefix(s)
    decreases |w|
  {
    if w != [] {
      assert (w + s)[1..] == w[1..] + s;
      NonSpacePrefixAppend(w[1..], s);
    } else {
      assert w + s == s;
    }
  }

  /** A word followed by white space (or nothing) is split off as a word of its own. */
  lemma RunsPrepend(w: string, s: string)
    requires IsWord(w)
    requires s == [] || IsSpace(s[0])
    ensures Runs(w + s) == [w] + Runs(s)
  {
    NonSpacePrefixAppend(w, s);
    assert NonSpacePrefix(s) == 0;
    assert (w + s)[..|w|] == w && (w + s)[|w|..] == s;
  }

  /** A word directly followed by more text merges with that text's first word. */
  lemma RunsMerge(w: string, s: string)
    requires IsWord(w)
    requires s != [] && !IsSpace(s[0])
    ensures Runs(s) != []
    ensures Runs(w + s) == [w + Runs(s)[0]] + Runs(s)[1..]
  {
    var k := NonSpacePrefix(s);
    assert Runs(s) == [s[..k]] + Runs(s[k..]);
    NonSpacePrefixAppend(w, s);
    var ws := w + s;
    assert ws[0] == w[0];
    assert NonSpacePrefix(ws) == |w| + k;
    assert Runs(ws) == [ws[..|w| + k]] + Runs(ws[|w| + k..]);
    assert ws[..|w| + k] == w + s[..k];
    assert ws[|w| + k..] == s[k..];
  }

  lemma JoinHead(ws: seq<string>)
    requires ws != [] && AllWords(ws)
    ensures Join(ws) != [] && Join(ws)[0] == ws[0][0]
  {
  }

  /** Splitting words joined by single spaces gives the words back. */
  lemma {:induction false} RunsOfJoin(ws: seq<string>)
    requires AllWords(ws)
    ensures Runs(Join(ws)) == ws
    decreases |ws|
  {
    if ws == [] {
    } else if |ws| == 1 {
      RunsPrepend(ws[0], "");
      assert ws[0] + "" == ws[0];
    } else {
      var rest := " " + Join(ws[1..]);
      RunsPrepend(ws[0], rest);
      assert rest[1..] == Join(ws[1..]);
      RunsOfJoin(ws[1..]);
      assert ws == [ws[0]] + ws[1..];
    }
  }

  /** Re-splitting a joined, non-empty list of words gives the same words. */
  lemma SplitJoin(ws: seq<string>)
    requires ws != [] && AllWords(ws)
    ensures SplitWords(Join(ws)) == ws
  {
    RunsOfJoin(ws);
  }

  /** "..." put before joined words fuses with the first of them and leaves the rest as they were. */
  lemma EllipsisBeforeWords(ws: seq<string>)
    requires ws != [] && (ws == [""] || AllWords(ws))
    ensures SplitWords("..." + Join(ws)) == ["..." + ws[0]] + ws[1..]
  {
    if ws == [""] {
      RunsPrepend("...", "");
      assert Join(ws) == "";
      assert "..." + Join(ws) == "..." + "" == "...";
      assert ["..." + ws[0]] + ws[1..] == ["..."];
    } else {
      JoinHead(ws);
      RunsOfJoin(ws);
      RunsMerge("...", Join(ws));
    }
  }

  /** Concatenating two texts never creates words: at most it merges two into one. */
  lemma {:induction false} RunsAppend(a: string, b: string)
    ensures |Runs(a + b)| <= |Runs(a)| + |Runs(b)|
    decreases |a|
  {
    if a == [] {
      assert a + b == b;
    } else if IsSpace(a[0]) {
      assert (a + b)[1..] == a[1..] + b;
      RunsAppend(a[1..], b);
    } else {
      var k := NonSpacePrefix(a);
      var w := a[..k];
      assert a == w + a[k..];
      if k < |a| {
        RunsPrepend(w, a[k..] + b);
        assert a + b == w + (a[k..] + b);
        RunsPrepend(w, a[k..]);
        RunsAppend(a[k..], b);
        assert a[k..] + b == a[k..] + b;
      } else {
        assert a == w;
        RunsPrepend(w, "");
        assert a + "" == a;
        if b == [] || IsSpace(b[0]) {
          RunsPrepend(w, b);
        } else {
          RunsMerge(w, b);
        }
      }
    }
  }

  /** Word counts are subadditive over concatenation. */
  lemma WordCountAppend(a: string, b: string)
    ensures WordCount(a + b) <= WordCount(a) + WordCount(b)
  {
    RunsAppend(a, b);
  }

  /** Text is blank exactly when it has no words. */
  lemma {:induction false} RunsEmptyIffBlank(s: string)
    ensures Runs(s) == [] <==> Blank(s)
    decreases |s|
  {
    if s != [] {
      if IsSpace(s[0]) {
        RunsEmptyIffBlank(s[1..]);
        BlankTail(s);
      }
    }
  }

  // ---- Integers as JavaScript prints them in a template string ----

  function Digit(d: int): char
    requires 0 <= d < 10
  {
    (48 + d) as char
  }

  /** Decimal digits of `n`, most significant first, without leading zeros. */
  function NatToString(n: nat): (r: string)
    ensures |r| >= 1 && r[0] != '-'
    decreases n
  {
    if n < 10 then [Digit(n)] else NatToString(n / 10) + [Digit(n % 10)]
  }

  /** `${i}` for an integer `i`. */
  function IntToString(i: int): (r: string)
    ensures r != []
  {
    if i < 0 then "-" + NatToString(-i) else NatToString(i)
  }

  /** The value of a string of decimal digits. */
  function DigitsValue(s: string): int {
    if s == [] then 0 else DigitsValue(s[..|s| - 1]) * 10 + (s[|s| - 1] as int - 48)
  }

  /** Reads back an optionally signed decimal integer. */
  function ReadInt(s: string): int {
    if s != [] && s[0] == '-' then -DigitsValue(s[1..]) else DigitsValue(s)
  }

  lemma {:induction false} DigitsOfNat(n: nat)
    ensures DigitsValue(NatToString(n)) == n
    decreases n
  {
    if n >= 10 {
      var r := NatToString(n);
      assert r[..|r| - 1] == NatToString(n / 10);
      DigitsOfNat(n / 10);
    }
  }

  /** Printing an integer and reading it back gives the same integer. */
  lemma ReadIntToString(i: int)
    ensures ReadInt(IntToString(i)) == i
  {
    if i < 0 {
      assert ("-" + NatToString(-i))[1..] == NatToString(-i);
      DigitsOfNat(-i);
    } else {
      DigitsOfNat(i);
    }
  }

  /** Distinct integers print differently. */
  lemma IntToStringInjective(a: int, b: int)
    requires IntToString(a) == IntToString(b)
    ensures a == b
  {
    ReadIntToString(a);
    ReadIntToString(b);
  }
}
