/**
 * The front-matter pattern `^---\s*\n(.*?)\n---\s*\n` (dot matches newline),
 * matched at the start of a note exactly as the backtracking matcher does:
 * the greedy `\s*` after the opening dashes gives back characters until a
 * newline follows, and the lazy body grows until a closing line fits.
 */
module FrontMatter {
  import opened Wrappers
  import opened Text

  /** A match: the body group is `s[start..close]`, the match is `s[..end]`. */
  datatype Match = Match(start: nat, close: nat, end: nat)

  /** Whether a newline and three dashes begin at `j`. */
  predicate DashesAt(s: string, j: nat)
  {
    j + 4 <= |s| && s[j] == '\n' && s[j + 1] == '-' && s[j + 2] == '-' && s[j + 3] == '-'
  }

  /** The index after the closing `\n---\s*\n` that begins at `j`, if one begins there. */
  function ClosingAt(s: string, j: nat): (r: Option<nat>)
    requires j <= |s|
    ensures r.Some? ==> j + 5 <= r.value <= |s| && s[r.value - 1] == '\n'
    ensures r.Some? ==> DashesAt(s, j)
    ensures r.Some? ==> forall k :: j + 4 <= k < r.value ==> IsSpace(s[k])
  {
    if DashesAt(s, j) then
      LastNewline(s, j + 4, SpaceEnd(s, j + 4))
    else None
  }

  /** One past the last newline in `s[lo..hi]`, if there is one. */
  function LastNewline(s: string, lo: nat, hi: nat): (r: Option<nat>)
    requires lo <= hi <= |s|
    ensures r.Some? ==> lo < r.value <= hi && s[r.value - 1] == '\n'
    ensures r.Some? ==> forall k :: r.value <= k < hi ==> s[k] != '\n'
    ensures r.None? ==> forall k :: lo <= k < hi ==> s[k] != '\n'
    decreases hi - lo
  {
    if hi == lo then None
    else if s[hi - 1] == '\n' then Some(hi)
    else LastNewline(s, lo, hi - 1)
  }

  /** The lazy body: the first closing line beginning at or after `j`. */
  function FirstClosing(s: string, j: nat): (r: Option<(nat, nat)>)
    requires j <= |s|
    ensures r.Some? ==> j <= r.value.0 <= |s| && ClosingAt(s, r.value.0) == Some(r.value.1)
    ensures r.Some? ==> forall k :: j <= k < r.value.0 ==> ClosingAt(s, k).None?
    ensures r.None? ==> forall k :: j <= k <= |s| ==> ClosingAt(s, k).None?
    decreases |s| - j
  {
    match ClosingAt(s, j)
    case Some(e) => Some((j, e))
    case None => if j == |s| then None else FirstClosing(s, j + 1)
  }

  /**
   * The opening newline: candidates are the newlines among the whitespace
   * after "---", tried from the last (greedy `\s*`) backwards; `k` is one
   * past the candidate under consideration.
   */
  function TryOpening(s: string, k: nat): (r: Option<Match>)
    requires 3 <= k <= |s|
    ensures r.Some? ==> 4 <= r.value.start <= k && s[r.value.start - 1] == '\n'
    ensures r.Some? ==> r.value.start <= r.value.close <= |s|
    ensures r.Some? ==> ClosingAt(s, r.value.close) == Some(r.value.end)
    ensures r.Some? ==> FirstClosing(s, r.value.start) == Some((r.value.close, r.value.end))
    decreases k
  {
    if k == 3 then None
    else if s[k - 1] == '\n' then
      match FirstClosing(s, k)
      case Some(c) => Some(Match(k, c.0, c.1))
      case None => TryOpening(s, k - 1)
    else TryOpening(s, k - 1)
  }

  /** `YAML_PATTERN.match(s)` (also `.search`, since `^` anchors at the start). */
  function Find(s: string): (r: Option<Match>)
    ensures r.Some? ==> StartsWith(s, "---")
    ensures r.Some? ==> 4 <= r.value.start <= r.value.close && r.value.close + 5 <= r.value.end <= |s|
    ensures r.Some? ==> DashesAt(s, r.value.close) && s[r.value.end - 1] == '\n'
    ensures r.Some? ==> forall k :: 3 <= k < r.value.start ==> IsSpace(s[k])
    ensures r.Some? ==> s[r.value.start - 1] == '\n' && FirstClosing(s, r.value.start) == Some((r.value.close, r.value.end))
  {
    if StartsWith(s, "---") then TryOpening(s, SpaceEnd(s, 3)) else None
  }

  /** The front-matter text captured by group 1. */
  function Body(s: string, m: Match): string
    requires m.start <= m.close <= |s|
  {
    s[m.start..m.close]
  }

  /** `_clean_yaml`: removes a leading front-matter block, once. */
  function Clean(s: string): (r: string)
    ensures |r| <= |s| && r == s[|s| - |r|..]
    ensures Find(s).None? ==> r == s
    ensures Find(s).Some? ==> r == s[Find(s).value.end..]
  {
    match Find(s)
    case Some(m) => s[m.end..]
    case None => s
  }

  /** A note that does not begin with "---" has no front matter to remove. */
  lemma CleanWithoutDashes(s: string)
    requires !StartsWith(s, "---")
    ensures Clean(s) == s
  {
  }

  /**
   * Any text beginning with "---" and a newline, with a later line "---"
   * followed by a newline, carries front matter.
   */
  lemma {:induction false} FindsClosingLine(s: string, j: nat)
    requires StartsWith(s, "---") && |s| > 3 && s[3] == '\n'
    requires 4 <= j && j + 5 <= |s| && s[j..j + 5] == "\n---\n"
    ensures Find(s).Some?
  {
    ClosingLineCloses(s, j);
    assert s[j + 1] == '-' by { assert s[j + 1] == s[j..j + 5][1]; }
    OpeningAfterSpace(s, SpaceEnd(s, 3), j);
  }

  lemma {:induction false} OpeningAfterSpace(s: string, w: nat, j: nat)
    requires |s| > 3 && s[3] == '\n' && w == SpaceEnd(s, 3)
    requires 4 <= j && j + 1 < |s| && s[j + 1] == '-' && ClosingAt(s, j).Some?
    ensures TryOpening(s, w).Some?
  {
    assert w >= 4 by { assert IsSpace(s[3]); }
    if j >= w {
      OpeningFrom(s, w, j);
    } else {
      assert j + 1 == w by { assert !IsSpace(s[j + 1]); }
      OpeningAtNewline(s, w, j);
    }
  }

  /** A candidate newline that itself starts the closing line is taken, or the one before it is. */
  lemma OpeningAtNewline(s: string, w: nat, j: nat)
    requires 4 <= j && j + 1 == w <= |s| && s[3] == '\n'
    requires ClosingAt(s, j).Some?
    ensures TryOpening(s, w).Some?
  {
    if FirstClosing(s, w).None? {
      OpeningFrom(s, w - 1, j);
    }
  }

  lemma ClosingLineCloses(s: string, j: nat)
    requires j + 5 <= |s| && s[j..j + 5] == "\n---\n"
    ensures ClosingAt(s, j).Some?
  {
    assert s[j] == s[j..j + 5][0] && s[j + 1] == s[j..j + 5][1];
    assert s[j + 2] == s[j..j + 5][2] && s[j + 3] == s[j..j + 5][3];
    assert s[j + 4] == s[j..j + 5][4];
    LastNewlineFinds(s, j + 4, SpaceEnd(s, j + 4), j + 4);
  }

  lemma {:induction false} LastNewlineFinds(s: string, lo: nat, hi: nat, k: nat)
    requires lo <= k < hi <= |s| && s[k] == '\n'
    ensures LastNewline(s, lo, hi).Some?
    decreases hi - lo
  {
    if s[hi - 1] != '\n' {
      LastNewlineFinds(s, lo, hi - 1, k);
    }
  }

  /** With a closing line at or after `k`, trying candidates from `k` down succeeds. */
  lemma {:induction false} OpeningFrom(s: string, k: nat, j: nat)
    requires 4 <= k <= j <= |s| && s[3] == '\n'
    requires ClosingAt(s, j).Some?
    ensures TryOpening(s, k).Some?
    decreases k
  {
    if s[k - 1] != '\n' {
      OpeningFrom(s, k - 1, j);
    }
  }
}
