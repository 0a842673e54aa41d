/**
 * The Android development launcher (`scripts/dev-android.ts`): it reads the
 * device id and the extra `web-ext` flags from the command line, takes a
 * custom source directory out of those flags, and builds the `web-ext`
 * command that runs the Firefox build on the device.
 */
module DevAndroid {
  import opened Wrappers
  import opened Words
  import opened Urls

  const SourceDirPrefix := "--source-dir="
  const DefaultOutDir := ".output"
  const Usage := "Usage: pnpm dev:android <device-id> [web-ext flags...]"

  predicate StartsWith(s: string, prefix: string) {
    |prefix| <= |s| && s[..|prefix|] == prefix
  }

  /** A flag whose value is the next argument: `--source-dir` or `-s`. */
  predicate IsSourceDirFlag(flag: string) {
    flag == "--source-dir" || flag == "-s"
  }

  /** A flag that carries its value after `=`: `--source-dir=...`. */
  predicate IsInlineSourceDir(flag: string) {
    StartsWith(flag, SourceDirPrefix)
  }

  /** `process.argv.slice(3)`: the arguments after the device id. */
  function AdditionalFlags(argv: seq<string>): (r: seq<string>)
    ensures |argv| <= 3 ==> r == []
    ensures |argv| > 3 ==> r == argv[3..]
  {
    if |argv| <= 3 then [] else argv[3..]
  }

  /** `findIndex` of the first `--source-dir` or `-s`, or -1. */
  function SourceDirIndex(flags: seq<string>): (r: int)
    ensures -1 <= r < |flags|
    ensures r == -1 <==> forall j :: 0 <= j < |flags| ==> !IsSourceDirFlag(flags[j])
    ensures r >= 0 ==> IsSourceDirFlag(flags[r]) && forall j :: 0 <= j < r ==> !IsSourceDirFlag(flags[j])
  {
    if flags == [] then -1
    else if IsSourceDirFlag(flags[0]) then 0
    else
      var k := SourceDirIndex(flags[1..]);
      if k == -1 then -1 else k + 1
  }

  /** `find` of the first `--source-dir=...` flag. */
  function FirstInlineSourceDir(flags: seq<string>): (r: Option<string>)
    ensures r.None? <==> forall j :: 0 <= j < |flags| ==> !IsInlineSourceDir(flags[j])
    ensures r.Some? ==> IsInlineSourceDir(r.value) && r.value in flags
  {
    if flags == [] then None
    else if IsInlineSourceDir(flags[0]) then Some(flags[0])
    else FirstInlineSourceDir(flags[1..])
  }

  /** The first piece of a split is the text before the first separator. */
  lemma {:induction false} FirstPiece(s: string, sep: char)
    ensures var p := SplitOn(s, sep)[0];
      && p <= s && sep !in p
      && (p == s || s[|p|] == sep)
  {
    if s != [] && s[0] != sep {
      FirstPiece(s[1..], sep);
    }
  }

  /** `flag.split("=")[1]` of a `--source-dir=...` flag: the text after the first `=`, up to any next `=`. */
  function InlineValue(flag: string): (v: string)
    requires IsInlineSourceDir(flag)
    ensures v <= flag[|SourceDirPrefix|..] && '=' !in v
    ensures v == flag[|SourceDirPrefix|..] || flag[|SourceDirPrefix| + |v|] == '='
  {
    var name := "--source-dir";
    var rest := flag[|SourceDirPrefix|..];
    assert flag == name + ['='] + rest;
    SplitAround(name, '=', rest);
    FirstPiece(rest, '=');
    SplitOn(flag, '=')[1]
  }

  /**
   * `customSourceDir`: the argument after the first `--source-dir` or `-s`
   * (nothing when that flag is last); without either, the value of the
   * first `--source-dir=...` flag.
   */
  function CustomSourceDir(flags: seq<string>): (r: Option<string>)
    ensures SourceDirIndex(flags) >= 0 ==>
      r == (if SourceDirIndex(flags) + 1 < |flags| then Some(flags[SourceDirIndex(flags) + 1]) else None)
    ensures SourceDirIndex(flags) == -1 && FirstInlineSourceDir(flags).None? ==> r == None
    ensures SourceDirIndex(flags) == -1 && FirstInlineSourceDir(flags).Some? ==>
      r == Some(InlineValue(FirstInlineSourceDir(flags).value))
  {
    var index := SourceDirIndex(flags);
    if index != -1 then
      if index + 1 < |flags| then Some(flags[index + 1]) else None
    else
      match FirstInlineSourceDir(flags)
      case None => None
      case Some(flag) => Some(InlineValue(flag))
  }

  /** `customSourceDir || ".output"`: an empty or missing directory falls back to the default. */
  function OutDir(custom: Option<string>): (d: string)
    ensures custom.Some? && custom.value != "" ==> d == custom.value
    ensures custom.None? || custom.value == "" ==> d == DefaultOutDir
    ensures d != ""
  {
    if custom.Some? && custom.value != "" then custom.value else DefaultOutDir
  }

  /** Where WXT puts the Firefox build. */
  function BuildDir(custom: Option<string>): string {
    OutDir(custom) + "/firefox-mv2"
  }

  /** The flags passed on to `web-ext`, as a reference definition of the filtering loop. */
  function Filtered(flags: seq<string>): (r: seq<string>)
    ensures forall k :: 0 <= k < |r| ==> !IsSourceDirFlag(r[k]) && !IsInlineSourceDir(r[k])
    ensures |r| <= |flags|
  {
    if flags == [] then []
    else if IsSourceDirFlag(flags[0]) then (if |flags| >= 2 then Filtered(flags[2..]) else [])
    else if IsInlineSourceDir(flags[0]) then Filtered(flags[1..])
    else [flags[0]] + Filtered(flags[1..])
  }

  /** The flags from index `i` on; nothing once `i` has run past the end. */
  function From(flags: seq<string>, i: int): seq<string>
    requires 0 <= i
  {
    if i >= |flags| then [] else flags[i..]
  }

  /** The filtering loop: skip `--source-dir`/`-s` with the argument after it, and `--source-dir=...`. */
  method FilteredFlags(additionalFlags: seq<string>) returns (filteredFlags: seq<string>)
    ensures filteredFlags == Filtered(additionalFlags)
  {
    filteredFlags := [];
    var i := 0;
    while i < |additionalFlags|
      invariant 0 <= i <= |additionalFlags| + 1
      invariant filteredFlags + Filtered(From(additionalFlags, i)) == Filtered(additionalFlags)
    {
      var flag := additionalFlags[i];
      var rest := additionalFlags[i..];
      assert rest[0] == flag && rest[1..] == From(additionalFlags, i + 1);
      if flag == "--source-dir" || flag == "-s" {
        assert |rest| >= 2 ==> rest[2..] == From(additionalFlags, i + 2);
        i := i + 2;
        continue;
      }
      if StartsWith(flag, SourceDirPrefix) {
        i := i + 1;
        continue;
      }
      filteredFlags := filteredFlags + [flag];
      i := i + 1;
    }
  }

  /** What the launcher runs: the output directory it exports, if any, and the `web-ext` command. */
  datatype Launch = Launch(outDirOverride: Option<string>, command: string)

  function WebExtCommand(deviceId: string, buildDir: string, flags: seq<string>): string {
    "web-ext run --target=firefox-android --android-device=" + deviceId +
    " --firefox-apk=org.mozilla.fenix --source-dir " + buildDir + " " + Join(flags)
  }

  /**
   * The whole launcher up to running the commands: a usage error without a
   * device id, else the exported output directory and the `web-ext` command.
   */
  method PrepareLaunch(argv: seq<string>) returns (r: Result<Launch>)
    ensures r.Err? <==> |argv| <= 2 || argv[2] == ""
    ensures r.Err? ==> r.error == Usage
    ensures r.Ok? ==>
      var flags := AdditionalFlags(argv);
      var custom := CustomSourceDir(flags);
      && r.value.command == WebExtCommand(argv[2], BuildDir(custom), Filtered(flags))
      && (r.value.outDirOverride.Some? <==> custom.Some? && custom.value != "")
      && (r.value.outDirOverride.Some? ==> r.value.outDirOverride.value == custom.value)
  {
    if |argv| <= 2 || argv[2] == "" {
      return Err(Usage);
    }
    var deviceId := argv[2];
    var additionalFlags := AdditionalFlags(argv);
    var customSourceDir := CustomSourceDir(additionalFlags);
    var wxtOutDir := OutDir(customSourceDir);
    var actualBuildDir := wxtOutDir + "/firefox-mv2";
    var filteredFlags := FilteredFlags(additionalFlags);
    var command := WebExtCommand(deviceId, actualBuildDir, filteredFlags);
    var exported := if customSourceDir.Some? && customSourceDir.value != "" then Some(wxtOutDir) else None;
    r := Ok(Launch(exported, command));
  }

  // ---- Properties of the filtering ----

  /** `a` is `b` with some elements left out, the rest in their order. */
  predicate IsSubsequence(a: seq<string>, b: seq<string>)
    decreases |b|
  {
    a == [] || (b != [] && ((a[0] == b[0] && IsSubsequence(a[1..], b[1..])) || IsSubsequence(a, b[1..])))
  }

  /** The flags passed on are the original flags with some left out, in their original order. */
  lemma {:induction false} FilteredIsSubsequence(flags: seq<string>)
    ensures IsSubsequence(Filtered(flags), flags)
  {
    if flags != [] {
      FilteredIsSubsequence(flags[1..]);
      if IsSourceDirFlag(flags[0]) {
        if |flags| >= 2 {
          FilteredIsSubsequence(flags[2..]);
          SubsequenceOfTail(Filtered(flags[2..]), flags[1..]);
        }
      }
    }
  }

  /** A subsequence of the tail after one dropped element is still a subsequence. */
  lemma SubsequenceOfTail(a: seq<string>, b: seq<string>)
    requires b != [] && IsSubsequence(a, b[1..])
    ensures IsSubsequence(a, b)
  {
  }

  /** Flags without any source-directory flag are passed on unchanged. */
  lemma {:induction false} OrdinaryFlagsKept(flags: seq<string>)
    requires forall k :: 0 <= k < |flags| ==> !IsSourceDirFlag(flags[k]) && !IsInlineSourceDir(flags[k])
    ensures Filtered(flags) == flags
  {
    if flags != [] {
      OrdinaryFlagsKept(flags[1..]);
      assert flags == [flags[0]] + flags[1..];
    }
  }

  /** The argument after `--source-dir` or `-s` is dropped whatever it is, even another flag. */
  lemma ValueIsDropped(flag: string, value: string, rest: seq<string>)
    requires IsSourceDirFlag(flag)
    ensures Filtered([flag, value] + rest) == Filtered(rest)
  {
    assert ([flag, value] + rest)[2..] == rest;
  }

  /** Filtering two stretches of flags, the first not ending in a flag that takes a value, filters each. */
  lemma {:induction false} FilteredAppend(a: seq<string>, b: seq<string>)
    requires a == [] || !IsSourceDirFlag(a[|a| - 1])
    ensures Filtered(a + b) == Filtered(a) + Filtered(b)
  {
    if a == [] {
      assert a + b == b;
    } else {
      assert (a + b)[0] == a[0] && (a + b)[1..] == a[1..] + b;
      if IsSourceDirFlag(a[0]) {
        assert (a + b)[2..] == a[2..] + b;
        FilteredAppend(a[2..], b);
      } else if IsInlineSourceDir(a[0]) {
        FilteredAppend(a[1..], b);
      } else {
        FilteredAppend(a[1..], b);
        assert Filtered(a + b) == [a[0]] + (Filtered(a[1..]) + Filtered(b));
      }
    }
  }

  /** The first `--source-dir`/`-s` after a stretch without one is found past that stretch. */
  lemma {:induction false} SourceDirIndexPast(before: seq<string>, rest: seq<string>)
    requires forall k :: 0 <= k < |before| ==> !IsSourceDirFlag(before[k])
    requires rest != [] && IsSourceDirFlag(rest[0])
    ensures SourceDirIndex(before + rest) == |before|
  {
    if before != [] {
      SourceDirIndexPast(before[1..], rest);
      assert (before + rest)[1..] == before[1..] + rest;
    }
  }

  /**
   * `--source-dir <dir>` given once among ordinary flags: the directory
   * becomes the build directory and both arguments disappear from the
   * flags passed on.
   */
  lemma SourceDirTakenOut(before: seq<string>, dir: string, after: seq<string>)
    requires dir != ""
    requires forall k :: 0 <= k < |before| ==> !IsSourceDirFlag(before[k]) && !IsInlineSourceDir(before[k])
    ensures var flags := before + ["--source-dir", dir] + after;
      && CustomSourceDir(flags) == Some(dir)
      && BuildDir(CustomSourceDir(flags)) == dir + "/firefox-mv2"
      && Filtered(flags) == before + Filtered(after)
  {
    var flags := before + ["--source-dir", dir] + after;
    var tail := ["--source-dir", dir] + after;
    assert flags == before + tail;
    SourceDirIndexPast(before, tail);
    assert flags[|before| + 1] == dir;
    OrdinaryFlagsKept(before);
    FilteredAppend(before, tail);
    ValueIsDropped("--source-dir", dir, after);
  }

  /** `--source-dir=a=b` yields the directory `a`: the value stops at the second `=`. */
  lemma InlineValueStopsAtEquals(a: string, b: string)
    requires '=' !in a
    ensures InlineValue(SourceDirPrefix + a + "=" + b) == a
  {
    var flag := SourceDirPrefix + a + "=" + b;
    var rest := a + "=" + b;
    assert flag[|SourceDirPrefix|..] == rest;
    var v := InlineValue(flag);
    assert rest[|a|] == '=';
    assert |v| == |a|;
    assert v == rest[..|v|] == a;
  }

  /** `-s` as the last argument gives no directory, so the default build directory is used. */
  lemma TrailingFlagFallsBack(before: seq<string>)
    requires forall k :: 0 <= k < |before| ==> !IsSourceDirFlag(before[k])
    ensures BuildDir(CustomSourceDir(before + ["-s"])) == ".output/firefox-mv2"
  {
    var flags := before + ["-s"];
    assert forall k :: 0 <= k < |before| ==> flags[k] == before[k];
    assert flags[|before|] == "-s";
  }
}
