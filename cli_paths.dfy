/** Path helpers of the command-line front end (Amatsukaze/AmatsukazeCLI.hpp) and
    the places where its argument parser composes them. A path is a sequence of
    characters; `\\` and `/` are the two separators the helpers know about. */
module CliPaths {
  import opened Wrappers

  /** Position of the last occurrence of `c` in `s`, as std::basic_string::rfind does;
      None stands for npos. */
  function RFind(s: string, c: char): (r: Option<nat>)
    ensures r.Some? ==> r.value < |s| && s[r.value] == c && c !in s[r.value + 1..]
    ensures r.None? <==> c !in s
    decreases |s|
  {
    if |s| == 0 then None
    else if s[|s| - 1] == c then Some(|s| - 1)
    else
      var r := RFind(s[..|s| - 1], c);
      assert s == s[..|s| - 1] + [s[|s| - 1]];
      if r.Some? then
        assert s[r.value + 1..] == s[..|s| - 1][r.value + 1..] + [s[|s| - 1]];
        r
      else r
  }

  // ---------------------------------------------------------------------------
  // pathNormalize

  /** The character std::replace(path.begin(), path.end(), '\\', '/') leaves at one position. */
  function ToSlash(c: char): char
  {
    if c == '\\' then '/' else c
  }

  /** The path after every backslash has been turned into a slash. */
  function SlashesOnly(path: string): string
  {
    seq(|path|, i requires 0 <= i < |path| => ToSlash(path[i]))
  }

  /** What pathNormalize returns: the empty path unchanged; otherwise the path with
      backslashes turned into slashes and at most one trailing slash dropped. */
  function NormalizedPath(path: string): (r: string)
    ensures '\\' !in r
    ensures |r| <= |path|
    ensures forall i :: 0 <= i < |r| ==> r[i] == ToSlash(path[i])
    ensures |path| == 0 ==> r == path
    ensures |path| > 0 ==> |r| == (if ToSlash(path[|path| - 1]) == '/' then |path| - 1 else |path|)
  {
    if |path| == 0 then path
    else
      var s := SlashesOnly(path);
      if s[|s| - 1] == '/' then s[..|s| - 1] else s
  }

  /** pathNormalize: the source replaces in place on its own copy of the string and
      then pops one trailing slash; the copy is an array here. */
  method PathNormalize(path: string) returns (r: string)
    ensures r == NormalizedPath(path)
  {
    r := path;
    if |path| != 0 {
      var a := new char[|path|](i requires 0 <= i < |path| => path[i]);
      var i := 0;
      while i < a.Length
        invariant 0 <= i <= a.Length
        invariant forall k :: 0 <= k < i ==> a[k] == ToSlash(path[k])
        invariant forall k :: i <= k < a.Length ==> a[k] == path[k]
      {
        if a[i] == '\\' {
          a[i] := '/';
        }
        i := i + 1;
      }
      assert a[..] == SlashesOnly(path);
      if a[a.Length - 1] == '/' {
        r := a[..a.Length - 1];
      } else {
        r := a[..];
      }
    }
  }

  /** Only one trailing slash is dropped, so normalizing twice is not normalizing once. */
  lemma NormalizedPathNotIdempotent()
    ensures NormalizedPath("a//") == "a/"
    ensures NormalizedPath(NormalizedPath("a//")) == "a"
  {
  }

  /** A path that already has no backslash and no trailing slash is left as it is. */
  lemma NormalizedPathFixesNormalForm(path: string)
    requires '\\' !in path
    requires |path| == 0 || path[|path| - 1] != '/'
    ensures NormalizedPath(path) == path
  {
  }

  // ---------------------------------------------------------------------------
  // pathGetExtensionSplitPos

  /** pathGetExtensionSplitPos: where the extension of the last path component starts,
      or the length of the path when that component has no dot. */
  function ExtensionSplitPos(path: string): (r: nat)
    ensures r <= |path|
    ensures r < |path| ==> path[r] == '.' && '.' !in path[r + 1..] && '/' !in path[r..]
    ensures r == |path| ==> forall i :: 0 <= i < |path| && path[i] == '.' ==> '/' in path[i + 1..]
  {
    var lastSplit := RFind(path, '/');
    var nameBegin := if lastSplit.None? then 0 else lastSplit.value + 1;
    var dotPos := RFind(path, '.');
    if dotPos.None? then |path|
    else if dotPos.value < nameBegin then
      assert forall i :: 0 <= i < |path| && path[i] == '.' ==> '/' in path[i + 1..] by {
        forall i | 0 <= i < |path| && path[i] == '.' ensures '/' in path[i + 1..] {
          var s := lastSplit.value;
          assert path[s] == '/';
          assert path[s] in path[i + 1..];
        }
      }
      |path|
    else
      assert '/' !in path[dotPos.value..] by {
        if lastSplit.Some? {
          forall k | dotPos.value <= k < |path| ensures path[k] != '/' {
            assert path[k] in path[lastSplit.value + 1..];
          }
        }
      }
      dotPos.value
  }

  // ---------------------------------------------------------------------------
  // pathGetDirectory

  /** pathGetDirectory: the part of the path before its last slash, the slash excluded;
      the empty string when there is no slash. */
  function PathGetDirectory(path: string): (r: string)
    ensures |r| <= |path| && r == path[..|r|]
    ensures '/' !in path ==> r == []
    ensures '/' in path ==> |r| < |path| && path[|r|] == '/' && '/' !in path[|r| + 1..]
  {
    var lastSplit := RFind(path, '/');
    var nameBegin := if lastSplit.None? then 0 else lastSplit.value;
    path[..nameBegin]
  }

  // ---------------------------------------------------------------------------
  // pathRemoveExtension

  /** The container extensions pathRemoveExtension knows, in the order it tries them. */
  const ContainerExtensions: seq<string> := [".mp4", ".mkv", ".m2ts", ".ts"]

  /** ASCII case folding, the part of _wcsicmp's folding that the extensions need. */
  function FoldCase(c: char): char
  {
    if 'A' <= c <= 'Z' then (c as int + 32) as char else c
  }

  /** The string with every letter folded to lower case. */
  function FoldString(s: string): string
  {
    seq(|s|, i requires 0 <= i < |s| => FoldCase(s[i]))
  }

  /** _wcsicmp(a, b) == 0: the strings agree once both are folded to lower case. */
  function EqualsIgnoreCase(a: string, b: string): (r: bool)
    ensures r <==> FoldString(a) == FoldString(b)
    ensures a == b ==> r
  {
    assert |FoldString(a)| == |a| && |FoldString(b)| == |b|;
    assert forall i :: 0 <= i < |a| ==> FoldString(a)[i] == FoldCase(a[i]);
    assert forall i :: 0 <= i < |b| ==> FoldString(b)[i] == FoldCase(b[i]);
    |a| == |b| && forall i :: 0 <= i < |a| ==> FoldCase(a[i]) == FoldCase(b[i])
  }

  /** The test of one loop round: the path is longer than `ext` and ends with it, ignoring case. */
  predicate EndsWithExtension(path: string, ext: string)
  {
    |path| > |ext| && EqualsIgnoreCase(path[|path| - |ext|..], ext)
  }

  /** What trying the extensions `exts` in order returns. */
  function StripFirstExtension(path: string, exts: seq<string>): (r: string)
    ensures |r| <= |path| && r == path[..|r|]
    decreases |exts|
  {
    if exts == [] then path
    else if EndsWithExtension(path, exts[0]) then path[..|path| - |exts[0]|]
    else StripFirstExtension(path, exts[1..])
  }

  /** pathRemoveExtension: a loop over the extension table with an early return. */
  method PathRemoveExtension(path: string) returns (r: string)
    ensures r == StripFirstExtension(path, ContainerExtensions)
  {
    var exts := ContainerExtensions;
    for i := 0 to |exts|
      invariant StripFirstExtension(path, exts[i..]) == StripFirstExtension(path, exts)
    {
      assert exts[i..][1..] == exts[i + 1..];
      var extLen := |exts[i]|;
      if |path| > extLen {
        if EqualsIgnoreCase(path[|path| - extLen..], exts[i]) {
          return path[..|path| - extLen];
        }
      }
    }
    return path;
  }

  /** Trying extensions in order strips the first one that matches and nothing else;
      when none matches the path comes back unchanged. */
  lemma {:induction false} StripFirstExtensionIsFirstMatch(path: string, exts: seq<string>, k: nat)
    requires k <= |exts|
    requires forall j :: 0 <= j < k ==> !EndsWithExtension(path, exts[j])
    ensures k < |exts| && EndsWithExtension(path, exts[k]) ==>
      StripFirstExtension(path, exts) == path[..|path| - |exts[k]|]
    ensures k == |exts| ==> StripFirstExtension(path, exts) == path
  {
    if k > 0 {
      assert !EndsWithExtension(path, exts[0]);
      StripFirstExtensionIsFirstMatch(path, exts[1..], k - 1);
    }
  }

  /** The result is the path itself or the path with one whole extension cut off its end,
      and it is the path itself exactly when no extension matches. */
  lemma {:induction false} StripFirstExtensionShape(path: string, exts: seq<string>)
    requires forall j :: 0 <= j < |exts| ==> |exts[j]| > 0
    ensures var r := StripFirstExtension(path, exts);
      && |r| <= |path| && r == path[..|r|]
      && (r == path <==> forall j :: 0 <= j < |exts| ==> !EndsWithExtension(path, exts[j]))
      && (r != path ==> exists j :: 0 <= j < |exts| && EndsWithExtension(path, exts[j]) && |r| == |path| - |exts[j]|)
    decreases |exts|
  {
    if exts != [] && !EndsWithExtension(path, exts[0]) {
      var tail := exts[1..];
      StripFirstExtensionShape(path, tail);
      var r := StripFirstExtension(path, exts);
      assert r == StripFirstExtension(path, tail);
      assert (forall j :: 0 <= j < |exts| ==> !EndsWithExtension(path, exts[j]))
        <==> (forall j :: 0 <= j < |tail| ==> !EndsWithExtension(path, tail[j])) by {
        forall j | 0 <= j < |tail| ensures tail[j] == exts[j + 1] { }
        if forall j :: 0 <= j < |tail| ==> !EndsWithExtension(path, tail[j]) {
          forall j | 0 <= j < |exts| ensures !EndsWithExtension(path, exts[j]) {
            if j > 0 { assert exts[j] == tail[j - 1]; }
          }
        }
      }
      if r != path {
        var j :| 0 <= j < |tail| && EndsWithExtension(path, tail[j]) && |r| == |path| - |tail[j]|;
        assert exts[j + 1] == tail[j];
      }
    }
  }

  /** `.m2ts` is tried before `.ts`, so the whole container extension goes. */
  lemma RemoveExtensionPrefersM2ts()
    ensures StripFirstExtension("x.m2ts", ContainerExtensions) == "x"
  {
    var exts := ContainerExtensions;
    assert "x.m2ts"[2..] == "m2ts" && "x.m2ts"[1..] == ".m2ts";
    assert FoldCase("x.m2ts"[2..][0]) != FoldCase(exts[0][0]);
    assert FoldCase("x.m2ts"[2..][0]) != FoldCase(exts[1][0]);
    assert EndsWithExtension("x.m2ts", exts[2]);
    StripFirstExtensionIsFirstMatch("x.m2ts", exts, 2);
  }

  /** Matching ignores case. */
  lemma RemoveExtensionIgnoresCase()
    ensures StripFirstExtension("Show.MP4", ContainerExtensions) == "Show"
  {
  }

  /** Only the last extension is removed. */
  lemma RemoveExtensionStripsOnce()
    ensures StripFirstExtension("a.ts.mkv", ContainerExtensions) == "a.ts"
  {
  }

  /** A path no longer than an extension keeps it. */
  lemma RemoveExtensionKeepsBareExtension()
    ensures StripFirstExtension(".ts", ContainerExtensions) == ".ts"
  {
  }

  // ---------------------------------------------------------------------------
  // The argument parser's uses of the helpers (parseArgs)

  /** Extension number k is the first of `exts` that the path ends with. */
  predicate FirstMatchAt(path: string, exts: seq<string>, k: nat)
  {
    k < |exts| && EndsWithExtension(path, exts[k]) &&
    forall j :: 0 <= j < k ==> !EndsWithExtension(path, exts[j])
  }

  /** `-o`: the output base path is the normalized argument with its container extension removed. */
  function OutputVideoPath(arg: string): (r: string)
    ensures '\\' !in r
    ensures |r| <= |NormalizedPath(arg)| && r == NormalizedPath(arg)[..|r|]
    ensures (forall j :: 0 <= j < |ContainerExtensions| ==> !EndsWithExtension(NormalizedPath(arg), ContainerExtensions[j]))
      ==> r == NormalizedPath(arg)
    ensures forall k: nat :: FirstMatchAt(NormalizedPath(arg), ContainerExtensions, k) ==>
      r == NormalizedPath(arg)[..|NormalizedPath(arg)| - |ContainerExtensions[k]|]
  {
    var p := NormalizedPath(arg);
    StripFirstExtensionShape(p, ContainerExtensions);
    assert forall k: nat :: FirstMatchAt(p, ContainerExtensions, k) ==>
      StripFirstExtension(p, ContainerExtensions) == p[..|p| - |ContainerExtensions[k]|] by {
      forall k: nat | FirstMatchAt(p, ContainerExtensions, k)
        ensures StripFirstExtension(p, ContainerExtensions) == p[..|p| - |ContainerExtensions[k]|]
      {
        StripFirstExtensionIsFirstMatch(p, ContainerExtensions, k);
      }
    }
    StripFirstExtension(p, ContainerExtensions)
  }

  /** `-w`: the work directory is the normalized argument, or "./" when that is empty. */
  function WorkDirectory(arg: string): (r: string)
    ensures |r| > 0 && '\\' !in r
    ensures |NormalizedPath(arg)| > 0 ==> r == NormalizedPath(arg)
    ensures |NormalizedPath(arg)| == 0 ==> r == "./"
  {
    var dir := NormalizedPath(arg);
    if |dir| == 0 then "./" else dir
  }

  /** `--drcs`: the DRCS output directory is the directory of the normalized argument,
      or "." when it has none. */
  function DrcsOutputDirectory(arg: string): (r: string)
    ensures |r| > 0 && '\\' !in r
    ensures |PathGetDirectory(NormalizedPath(arg))| == 0 ==> r == "."
    ensures |PathGetDirectory(NormalizedPath(arg))| > 0 ==>
      && r == PathGetDirectory(NormalizedPath(arg))
      && |r| < |NormalizedPath(arg)| && r + "/" == NormalizedPath(arg)[..|r| + 1]
      && '/' !in NormalizedPath(arg)[|r| + 1..]
  {
    var dir := PathGetDirectory(NormalizedPath(arg));
    if |dir| == 0 then "." else dir
  }
}
