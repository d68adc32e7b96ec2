/**
 * `Path.Combine` and `Path.GetDirectoryName` as .NET computes them on a Unix host, where '/'
 * is the only directory separator, a path is rooted when it starts with '/', and a directory
 * name has each run of separators collapsed to one.
 */
module Paths {

  import opened Wrappers

  predicate IsSeparator(c: char)
  {
    c == '/'
  }

  /** `Path.Combine(first, second)` for two non-null paths (see `CombineCases`). */
  function Combine(first: string, second: string): string
  {
    if second == [] then first
    else if first == [] then second
    else if IsSeparator(second[0]) then second
    else if IsSeparator(first[|first| - 1]) then first + second
    else first + "/" + second
  }

  /**
   * A rooted second path replaces the first, an empty one leaves the first as it is, and
   * otherwise the result starts with the first path and ends with the second.
   */
  lemma CombineCases(first: string, second: string)
    ensures second != [] && IsSeparator(second[0]) ==> Combine(first, second) == second
    ensures second == [] ==> Combine(first, second) == first
    ensures second != [] && !IsSeparator(second[0]) ==>
              var r := Combine(first, second);
              |r| >= |first| + |second| && first <= r && r[|r| - |second|..] == second
  {
  }

  /** The length of the root of `path`: 1 for a rooted path, 0 otherwise. */
  function RootLength(path: string): nat
  {
    if |path| > 0 && IsSeparator(path[0]) then 1 else 0
  }

  /** Moves `end` back to the last separator before it, stopping at `root`. */
  function BackToSeparator(path: string, end: nat, root: nat): (r: nat)
    requires root <= end <= |path|
    ensures root <= r <= end
    ensures r < end ==> r == root || IsSeparator(path[r])
    decreases end
  {
    if end <= root then end
    else if IsSeparator(path[end - 1]) then end - 1
    else BackToSeparator(path, end - 1, root)
  }

  /** Moves `end` back over a run of separators, stopping at `root`. */
  function BackOverSeparators(path: string, end: nat, root: nat): (r: nat)
    requires root <= end <= |path|
    ensures root <= r <= end
    decreases end
  {
    if end > root && IsSeparator(path[end - 1]) then BackOverSeparators(path, end - 1, root) else end
  }

  /** No two separators follow one another. */
  predicate NoRepeatedSeparator(s: string)
  {
    forall i :: 0 < i < |s| ==> !(IsSeparator(s[i - 1]) && IsSeparator(s[i]))
  }

  /** `NormalizeDirectorySeparators` on Unix: each run of separators becomes one. */
  function CollapseSeparators(s: string): (r: string)
    ensures |r| <= |s|
    ensures s != [] ==> r != [] && r[0] == s[0]
    ensures NoRepeatedSeparator(r)
  {
    if |s| <= 1 then s
    else if IsSeparator(s[0]) && IsSeparator(s[1]) then CollapseSeparators(s[1..])
    else [s[0]] + CollapseSeparators(s[1..])
  }

  /** A path without repeated separators is left as it is. */
  lemma {:induction false} CollapseKeepsClean(s: string)
    requires NoRepeatedSeparator(s)
    ensures CollapseSeparators(s) == s
  {
    if |s| > 1 {
      assert NoRepeatedSeparator(s[1..]) by {
        forall i | 0 < i < |s[1..]| ensures !(IsSeparator(s[1..][i - 1]) && IsSeparator(s[1..][i])) {
          assert s[1..][i - 1] == s[i] && s[1..][i] == s[i + 1];
        }
      }
      CollapseKeepsClean(s[1..]);
      assert !(IsSeparator(s[0]) && IsSeparator(s[1]));
      assert [s[0]] + s[1..] == s;
    }
  }

  /** Where the directory part of `path` ends: before its last segment and the separators ahead of it. */
  function DirectoryEnd(path: string): (end: nat)
    requires |path| > RootLength(path)
    ensures end < |path|
  {
    var root := RootLength(path);
    BackOverSeparators(path, BackToSeparator(path, |path|, root), root)
  }

  /**
   * `Path.GetDirectoryName(path)`: `None` (C# null) for an empty path or a bare root; otherwise
   * everything before the last separator, trailing separators dropped, the root kept, and each
   * run of separators collapsed to one.
   */
  function GetDirectoryName(path: string): (r: Option<string>)
    ensures r.None? <==> |path| <= RootLength(path)
    ensures r.Some? ==> |r.value| < |path| && NoRepeatedSeparator(r.value)
  {
    if |path| <= RootLength(path) then None else Some(CollapseSeparators(path[..DirectoryEnd(path)]))
  }

  /** Without repeated separators, the directory name is a strict prefix of the path. */
  lemma CleanDirectoryNameIsPrefix(path: string)
    requires |path| > RootLength(path) && NoRepeatedSeparator(path)
    ensures GetDirectoryName(path).value <= path
  {
    var end := DirectoryEnd(path);
    assert NoRepeatedSeparator(path[..end]) by {
      forall i | 0 < i < end ensures !(IsSeparator(path[..end][i - 1]) && IsSeparator(path[..end][i])) {
        assert path[..end][i - 1] == path[i - 1] && path[..end][i] == path[i];
      }
    }
    CollapseKeepsClean(path[..end]);
  }

  /** A bare file name, without any separator, has the empty directory name (not C# null). */
  lemma {:induction false} DirectoryOfBareName(path: string)
    requires path != []
    requires forall i :: 0 <= i < |path| ==> !IsSeparator(path[i])
    ensures GetDirectoryName(path) == Some("")
  {
    NoSeparatorScansToStart(path, |path|);
  }

  lemma {:induction false} NoSeparatorScansToStart(path: string, end: nat)
    requires end <= |path|
    requires forall i :: 0 <= i < |path| ==> !IsSeparator(path[i])
    ensures BackToSeparator(path, end, 0) == 0
    decreases end
  {
    if end > 0 {
      NoSeparatorScansToStart(path, end - 1);
    }
  }

  /**
   * A file name combined onto a directory comes back out as that directory, with its runs of
   * separators collapsed: the name is the last segment of the combined path.
   */
  lemma DirectoryOfCombined(dir: string, name: string)
    requires dir != [] && !IsSeparator(dir[|dir| - 1])
    requires name != [] && forall i :: 0 <= i < |name| ==> !IsSeparator(name[i])
    ensures GetDirectoryName(Combine(dir, name)) == Some(CollapseSeparators(dir))
    ensures NoRepeatedSeparator(dir) ==> GetDirectoryName(Combine(dir, name)) == Some(dir)
  {
    var path := dir + "/" + name;
    assert Combine(dir, name) == path;
    DirectoryEndOfCombined(dir, name);
    assert path[..|dir|] == dir;
    if NoRepeatedSeparator(dir) {
      CollapseKeepsClean(dir);
    }
  }

  /** The directory part of `dir + "/" + name` ends where `dir` does. */
  lemma DirectoryEndOfCombined(dir: string, name: string)
    requires dir != [] && !IsSeparator(dir[|dir| - 1])
    requires name != [] && forall i :: 0 <= i < |name| ==> !IsSeparator(name[i])
    ensures |dir + "/" + name| > RootLength(dir + "/" + name)
    ensures DirectoryEnd(dir + "/" + name) == |dir|
  {
    var path := dir + "/" + name;
    var root := RootLength(path);
    assert root <= |dir| by {
      if |dir| == 1 && root == 1 {
        assert path[0] == dir[0];
      }
    }
    ScanBackOverName(dir, name, |path|, root);
    assert path[|dir| - 1] == dir[|dir| - 1];
  }

  lemma {:induction false} ScanBackOverName(dir: string, name: string, end: nat, root: nat)
    requires forall i :: 0 <= i < |name| ==> !IsSeparator(name[i])
    requires root <= |dir| < end <= |dir + "/" + name|
    ensures BackToSeparator(dir + "/" + name, end, root) == |dir|
    decreases end
  {
    var path := dir + "/" + name;
    if end - 1 > |dir| {
      assert path[end - 1] == name[end - 1 - |dir| - 1];
      ScanBackOverName(dir, name, end - 1, root);
    } else {
      assert path[end - 1] == '/';
    }
  }
}
