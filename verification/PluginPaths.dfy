/**
  Which paths the plugin digest leaves out, on the text of the path
  (runtime/hermes/enterprise_bridge/runtime_policy.py:540-543).
 */
module PluginPaths {
  import opened Texts
  import opened PluginTree

  /** `part` stands at `i` as a whole part: between slashes, or at an end of the path. */
  predicate PartAt(path: Name, part: Name, i: nat) {
    && i + |part| <= |path| && path[i..i + |part|] == part
    && (i == 0 || path[i - 1] == '/' as int) && (i + |part| == |path| || path[i + |part|] == '/' as int)
  }

  ghost predicate HasPart(path: Name, part: Name) {
    exists i :: PartAt(path, part, i)
  }

  /** The path ends in the suffix, and its last part has more than that. */
  predicate EndsAfterAName(path: Name, suffix: Name) {
    && |suffix| < |path| && path[|path| - |suffix|..] == suffix
    && path[|path| - |suffix| - 1] != '/' as int
  }

  /** The first part reaches to the first slash; the others are those of what follows it. */
  lemma {:induction false} FirstPart(path: Name)
    ensures var f := Parts(path)[0];
      && |f| <= |path| && f == path[..|f|] && SLASH !in f
      && (|f| == |path| ==> Parts(path) == [f])
      && (|f| < |path| ==> path[|f|] == SLASH && Parts(path) == [f] + Parts(path[|f| + 1..]))
    decreases |path|
  {
    if path != [] && path[0] != SLASH {
      FirstPart(path[1..]);
      var rest := Parts(path[1..])[0];
      assert path[..|rest| + 1] == [path[0]] + path[1..][..|rest|];
      if |rest| + 1 < |path| { assert path[1..][|rest| + 1..] == path[|rest| + 2..]; }
    }
  }

  lemma PartShifts(path: Name, part: Name, k: nat, i: nat)
    requires k < i && k < |path| && path[k] == SLASH
    ensures PartAt(path, part, i) <==> PartAt(path[k + 1..], part, i - k - 1)
  {
    var tail, j := path[k + 1..], i - k - 1;
    if i + |part| <= |path| { assert path[i..i + |part|] == tail[j..j + |part|]; }
  }

  lemma PartInFront(path: Name, part: Name, f: Name)
    requires SLASH !in part && SLASH !in f && |f| <= |path| && f == path[..|f|] && (|f| == |path| || path[|f|] == SLASH)
    ensures PartAt(path, part, 0) <==> part == f
    ensures forall i :: 0 < i <= |f| ==> !PartAt(path, part, i)
  {
    assert forall i :: 0 <= i < |f| ==> path[i] == f[i] && f[i] != SLASH;
    assert forall i :: 0 <= i < |part| ==> part[i] != SLASH;
    assert path[0..|f|] == f;
    if PartAt(path, part, 0) {
      assert forall i :: 0 <= i < |part| ==> path[i] == path[0..|part|][i];
      assert |part| == |f|;
    }
  }

  lemma HasPartBehind(path: Name, part: Name, f: Name)
    requires |f| < |path| && path[|f|] == SLASH
    requires (PartAt(path, part, 0) <==> part == f) && forall i :: 0 < i <= |f| ==> !PartAt(path, part, i)
    ensures HasPart(path, part) <==> part == f || HasPart(path[|f| + 1..], part)
  {
    hide PartAt;
    var tail := path[|f| + 1..];
    if HasPart(path, part) {
      var i: nat :| PartAt(path, part, i);
      if i > |f| { PartShifts(path, part, |f|, i); }
    }
    if HasPart(tail, part) {
      var j: nat :| PartAt(tail, part, j);
      PartShifts(path, part, |f|, j + |f| + 1);
      assert PartAt(path, part, j + |f| + 1);
    }
  }

  lemma HasPartAlone(path: Name, part: Name)
    requires (PartAt(path, part, 0) <==> part == path) && forall i :: 0 < i <= |path| ==> !PartAt(path, part, i)
    ensures HasPart(path, part) <==> part == path
  {}

  lemma {:induction false} PartsExactly(path: Name, part: Name)
    requires SLASH !in part
    ensures part in Parts(path) <==> HasPart(path, part)
    decreases |path|
  {
    hide PartAt, HasPart;
    var f := Parts(path)[0];
    FirstPart(path);
    PartInFront(path, part, f);
    if |f| < |path| {
      PartsExactly(path[|f| + 1..], part);
      HasPartBehind(path, part, f);
    } else {
      assert path[..|path|] == path;
      HasPartAlone(path, part);
    }
  }

  /** The last part starts after the last slash. */
  lemma {:induction false} LastPart(path: Name)
    ensures var parts := Parts(path);
      var file := parts[|parts| - 1];
      && |file| <= |path| && path[|path| - |file|..] == file && SLASH !in file
      && (|file| == |path| || path[|path| - |file| - 1] == SLASH)
    decreases |path|
  {
    FirstPart(path);
    var f := Parts(path)[0];
    if |f| < |path| {
      var tail := path[|f| + 1..];
      LastPart(tail);
      var file := Parts(tail)[|Parts(tail)| - 1];
      assert path[|path| - |file|..] == tail[|tail| - |file|..];
    } else {
      assert path[0..] == path[..|f|];
    }
  }

  lemma SuffixInFile(path: Name, file: Name, suffix: Name)
    requires |suffix| < |file| <= |path| && path[|path| - |file|..] == file && SLASH !in file
    ensures EndsWith(file, suffix) <==> EndsAfterAName(path, suffix)
  {
    var n, m, k := |path|, |file|, |suffix|;
    assert path[n - k..] == file[m - k..];
    assert path[n - k - 1] == file[m - k - 1];
  }

  lemma SuffixPastFile(path: Name, file: Name, suffix: Name)
    requires |file| <= |suffix| && |file| < |path| && path[|path| - |file| - 1] == SLASH && SLASH !in suffix
    ensures !EndsAfterAName(path, suffix)
  {
    var n, k := |path|, |suffix|;
    assert forall i :: 0 <= i < k ==> suffix[i] != SLASH;
    if k < n && path[n - k..] == suffix {
      assert forall i :: n - k <= i < n ==> path[i] == suffix[i - (n - k)];
    }
  }

  lemma SuffixExactly(path: Name, suffix: Name)
    requires SLASH !in suffix
    ensures HasSuffix(path, suffix) <==> EndsAfterAName(path, suffix)
  {
    hide EndsAfterAName, EndsWith, Parts;
    LastPart(path);
    var file := Parts(path)[|Parts(path)| - 1];
    if |suffix| < |file| {
      SuffixInFile(path, file, suffix);
    } else if |file| < |path| {
      SuffixPastFile(path, file, suffix);
    } else {
      TooShort(path, suffix);
    }
  }

  lemma TooShort(path: Name, suffix: Name)
    requires |path| <= |suffix|
    ensures !EndsAfterAName(path, suffix)
  {}

  /** A path is left out exactly when it has a part `__pycache__`, or ends in `.pyc` or `.pyo` after a name. */
  lemma SkippedExactly(path: Name)
    ensures Skipped(path) <==>
      HasPart(path, Codes("__pycache__")) || EndsAfterAName(path, Codes(".pyc")) || EndsAfterAName(path, Codes(".pyo"))
  {
    PartsExactly(path, Codes("__pycache__"));
    SuffixExactly(path, Codes(".pyc"));
    SuffixExactly(path, Codes(".pyo"));
  }
}
