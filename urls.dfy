/**
 * Page checks made before anything is fetched: whether the current URL is a
 * chapter page, and whether the recap container already shows something.
 */
module Urls {
  import opened Words
  import opened Dom

  /** `s.split(sep)` for a one-character separator; the empty string splits into `[""]`. */
  function SplitOn(s: string, sep: char): (parts: seq<string>)
    ensures |parts| >= 1
    ensures forall i :: 0 <= i < |parts| ==> sep !in parts[i]
  {
    if s == [] then [""]
    else if s[0] == sep then [""] + SplitOn(s[1..], sep)
    else
      var rest := SplitOn(s[1..], sep);
      [[s[0]] + rest[0]] + rest[1..]
  }

  /** `parts.join(sep)`. */
  function JoinOn(parts: seq<string>, sep: char): string {
    if parts == [] then ""
    else if |parts| == 1 then parts[0]
    else parts[0] + [sep] + JoinOn(parts[1..], sep)
  }

  /** Joining the pieces of a split gives the original string back. */
  lemma {:induction false} JoinSplit(s: string, sep: char)
    ensures JoinOn(SplitOn(s, sep), sep) == s
  {
    if s != [] {
      var rest := SplitOn(s[1..], sep);
      JoinSplit(s[1..], sep);
      if s[0] == sep {
        assert ([""] + rest)[1..] == rest;
      } else {
        var parts := [[s[0]] + rest[0]] + rest[1..];
        assert parts[1..] == rest[1..];
        if |rest| > 1 {
          assert JoinOn(rest, sep) == rest[0] + [sep] + JoinOn(rest[1..], sep);
        }
      }
    }
  }

  /** Splitting at a separator splits the two sides separately. */
  lemma {:induction false} SplitAround(a: string, sep: char, b: string)
    requires sep !in a
    ensures SplitOn(a + [sep] + b, sep) == [a] + SplitOn(b, sep)
  {
    if a == [] {
      assert a + [sep] + b == [sep] + b;
      assert ([sep] + b)[1..] == b;
    } else {
      var s := a + [sep] + b;
      assert s[0] == a[0] && s[1..] == a[1..] + [sep] + b;
      SplitAround(a[1..], sep, b);
      assert [a[0]] + a[1..] == a;
    }
  }

  /** A string without the separator splits into itself. */
  lemma {:induction false} SplitWhole(s: string, sep: char)
    requires sep !in s
    ensures SplitOn(s, sep) == [s]
  {
    if s != [] {
      SplitWhole(s[1..], sep);
      assert [s[0]] + s[1..] == s;
    }
  }

  /** `pathname.split("/").includes("chapter")`. */
  predicate IsChapterPath(path: string) {
    "chapter" in SplitOn(path, '/')
  }

  /** A path with a segment exactly "chapter" is a chapter page, wherever the segment sits. */
  lemma ChapterSegmentDetected(before: string, after: string)
    requires '/' !in before
    ensures IsChapterPath(before + "/chapter/" + after)
  {
    SplitAround("chapter", '/', after);
    SplitAround(before, '/', "chapter" + "/" + after);
    assert before + "/chapter/" + after == before + ['/'] + ("chapter" + ['/'] + after);
    assert "/" == ['/'];
  }

  /** Splitting pieces joined by the separator gives the pieces back, when none contains it. */
  lemma {:induction false} SplitJoinOn(parts: seq<string>, sep: char)
    requires parts != []
    requires forall i :: 0 <= i < |parts| ==> sep !in parts[i]
    ensures SplitOn(JoinOn(parts, sep), sep) == parts
  {
    if |parts| == 1 {
      SplitWhole(parts[0], sep);
    } else {
      SplitJoinOn(parts[1..], sep);
      SplitAround(parts[0], sep, JoinOn(parts[1..], sep));
      assert parts == [parts[0]] + parts[1..];
    }
  }

  /**
   * A path made of the given segments is a chapter page exactly when one
   * segment is "chapter" itself: a segment such as "chapters" does not count.
   */
  lemma ChapterPathOfSegments(segments: seq<string>)
    requires segments != []
    requires forall i :: 0 <= i < |segments| ==> '/' !in segments[i]
    ensures IsChapterPath(JoinOn(segments, '/')) <==> "chapter" in segments
  {
    SplitJoinOn(segments, '/');
  }

  /**
   * `documentHasPreviousChapterURL`: the previous-chapter selector matches an
   * element that carries an `href` attribute, whatever its value.
   */
  function HasPreviousChapterUrl(current: Document, prevChapterBtn: string): (r: bool)
    ensures var hit := Query(current, prevChapterBtn);
      r <==> (hit.Some? && hit.value.Element? && exists i :: 0 <= i < |hit.value.attrs| && hit.value.attrs[i].name == "href")
  {
    match Query(current, prevChapterBtn)
    case None => false
    case Some(btn) => btn.Element? && GetAttribute(btn.attrs, "href").Some?
  }

  /** `recapContainerHasContent`: the container's text is not blank, i.e. it holds a word. */
  function RecapContainerHasContent(container: Node): (r: bool)
    ensures r <==> !Blank(TextContent(container))
    ensures r <==> Runs(TextContent(container)) != []
  {
    RunsEmptyIffBlank(TextContent(container));
    Trim(TextContent(container)) != ""
  }
}
