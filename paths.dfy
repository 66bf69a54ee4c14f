/** `pathlib` paths as sequences of name components below the filesystem root. */
module Paths {
  import opened Text

  type Path = seq<string>

  /** `Path.name`: the final component, or "" for the root. */
  function Name(p: Path): string
  {
    if p == [] then "" else p[|p| - 1]
  }

  /** `str.rfind('.')`: the last index of a dot in `s`, or -1. */
  function LastDot(s: string): (i: int)
    ensures -1 <= i < |s|
    ensures i >= 0 ==> s[i] == '.'
  {
    if s == [] then -1
    else if s[|s| - 1] == '.' then |s| - 1
    else LastDot(s[..|s| - 1])
  }

  /** `LastDot` finds the last dot. */
  lemma {:induction false} LastDotIsLast(s: string)
    ensures forall j :: LastDot(s) < j < |s| ==> s[j] != '.'
    decreases |s|
  {
    if s != [] && s[|s| - 1] != '.' {
      LastDotIsLast(s[..|s| - 1]);
    }
  }

  /** Whether a file name has an extension in the sense of `PurePath.suffix`. */
  predicate HasExtension(name: string)
  {
    0 < LastDot(name) < |name| - 1
  }

  /** `PurePath.stem` of a file name. */
  function Stem(name: string): (r: string)
    ensures HasExtension(name) ==> r == name[..LastDot(name)]
    ensures !HasExtension(name) ==> r == name
  {
    if HasExtension(name) then name[..LastDot(name)] else name
  }

  /** `PurePath.suffix` of a file name. */
  function Suffix(name: string): (r: string)
    ensures HasExtension(name) ==> r == name[LastDot(name)..] && |r| >= 2 && r[0] == '.'
    ensures !HasExtension(name) ==> r == ""
  {
    if HasExtension(name) then name[LastDot(name)..] else ""
  }

  /** A name is the concatenation of its stem and its suffix. */
  lemma StemSuffixSplit(name: string)
    ensures Stem(name) + Suffix(name) == name
  {
  }

  /** `Path(s).name` for a POSIX path string: the last component that is neither empty nor ".". */
  function TargetName(s: string): string
  {
    NameBefore(s, |s|)
  }

  /** `Path(s[..n]).name`, which is never ".". */
  function NameBefore(s: string, n: nat): (r: string)
    requires n <= |s|
    ensures r != "."
    decreases n
  {
    var k := LastSlashBefore(s, n);
    if EmptyOrDot(s, k + 1, n) then (if k < 0 then "" else NameBefore(s, k)) else s[k + 1..n]
  }

  /** `s[i..n]` is "" or ".". */
  predicate EmptyOrDot(s: string, i: nat, n: nat)
    requires i <= n <= |s|
  {
    i == n || (i + 1 == n && s[i] == '.')
  }

  /** The last index of '/' in `s[..n]`, or -1. */
  function LastSlashBefore(s: string, n: nat): (i: int)
    requires n <= |s|
    ensures -1 <= i < n
    ensures i >= 0 ==> s[i] == '/'
  {
    if n == 0 then -1 else if s[n - 1] == '/' then n - 1 else LastSlashBefore(s, n - 1)
  }

  /** `LastSlashBefore` finds the last slash. */
  lemma {:induction false} LastSlashIsLast(s: string, n: nat)
    requires n <= |s|
    ensures forall j :: LastSlashBefore(s, n) < j < n ==> s[j] != '/'
    decreases n
  {
    if n > 0 && s[n - 1] != '/' {
      LastSlashIsLast(s, n - 1);
    }
  }

  predicate NoSlash(t: string)
  {
    forall j :: 0 <= j < |t| ==> t[j] != '/'
  }

  /** The name of a path string holds no '/'. */
  lemma {:induction false} NameHasNoSlash(s: string, n: nat)
    requires n <= |s|
    ensures NoSlash(NameBefore(s, n))
    decreases n
  {
    var k := LastSlashBefore(s, n);
    if EmptyOrDot(s, k + 1, n) {
      if k >= 0 {
        NameHasNoSlash(s, k);
      }
    } else {
      SegmentHasNoSlash(s, n);
    }
  }

  lemma SegmentHasNoSlash(s: string, n: nat)
    requires n <= |s|
    ensures NoSlash(s[LastSlashBefore(s, n) + 1..n])
  {
    var k := LastSlashBefore(s, n);
    var seg := s[k + 1..n];
    LastSlashIsLast(s, n);
    forall j | 0 <= j < |seg| ensures seg[j] != '/' {
      assert seg[j] == s[k + 1 + j];
    }
  }

  /** For a string without '/', `Path(s).name` is `s` itself unless it is "" or ".". */
  lemma TargetNameOfPlainName(s: string)
    requires forall j :: 0 <= j < |s| ==> s[j] != '/'
    requires s != "" && s != "."
    ensures TargetName(s) == s
  {
    NoSlashFound(s, |s|);
    assert !EmptyOrDot(s, 0, |s|) by {
      if |s| == 1 { assert s == [s[0]]; }
    }
  }

  lemma {:induction false} NoSlashFound(s: string, n: nat)
    requires n <= |s|
    requires forall j :: 0 <= j < n ==> s[j] != '/'
    ensures LastSlashBefore(s, n) == -1
    decreases n
  {
    if n > 0 {
      NoSlashFound(s, n - 1);
    }
  }

  /** `len(str(p))` for an absolute POSIX path: "/" for the root, "/a/b" otherwise. */
  function StrLen(p: Path): (n: nat)
    ensures n >= |p|
  {
    if |p| <= 1 then (if p == [] then 1 else 1 + |p[0]|)
    else StrLen(p[..|p| - 1]) + 1 + |p[|p| - 1]|
  }

  /** `a in b.parents`: `a` is a strict prefix of `b`. */
  predicate IsProperAncestor(a: Path, b: Path)
  {
    |a| < |b| && b[..|a|] == a
  }

  /** Components of a real path are never empty. */
  predicate WellFormed(p: Path)
  {
    forall i :: 0 <= i < |p| ==> p[i] != ""
  }

  /** Among prefixes of one path, the longer string is the deeper prefix. */
  lemma {:induction false} StrLenMonotone(p: Path, k: nat)
    requires WellFormed(p)
    requires k < |p|
    ensures StrLen(p[..k]) < StrLen(p)
    decreases |p|
  {
    var q := p[..|p| - 1];
    if |p| == 1 {
    } else if k == |p| - 1 {
      assert p[..k] == q;
    } else {
      assert q[..k] == p[..k];
      assert p[|p| - 1] != "";
      StrLenMonotone(q, k);
    }
  }

  /** `any(excluded in p.parts for excluded in names)`. */
  predicate UnderExcluded(p: Path, excluded: set<string>)
  {
    exists i :: 0 <= i < |p| && p[i] in excluded
  }
}
