/**
 * The three note-body patterns, as scanners over the text:
 * the wiki-link `(!?)\[\[([^|#\]]+)(?:\|([^\]]+))?\]\]`, the tag
 * `(?<!#)#[\w-]+` and the outline entry
 * `^(\s*)-\s*(.*?)\[\[([^|#\]]+)(?:\|([^\]]+))?\]\](.*)`.
 */
module Links {
  import opened Wrappers
  import opened Text

  /** A reference token `[[target]]`, `[[target|alias]]` or their `!`-prefixed embed forms. */
  datatype Ref = Ref(isEmbed: bool, target: string, alias: Option<string>)

  /** A note body as the wiki-link scanner sees it: single characters and whole tokens. */
  datatype Segment = Char(c: char) | Link(ref: Ref)

  predicate IsTargetChar(c: char) { c != '|' && c != '#' && c != ']' }

  /** The end of the run of characters satisfying the target class, from `i`. */
  function TargetEnd(s: string, i: nat): (k: nat)
    requires i <= |s|
    ensures i <= k <= |s|
    ensures forall j :: i <= j < k ==> IsTargetChar(s[j])
    ensures k < |s| ==> !IsTargetChar(s[k])
    decreases |s| - i
  {
    if i == |s| || !IsTargetChar(s[i]) then i else TargetEnd(s, i + 1)
  }

  /** The end of the run of characters other than ']', from `i`. */
  function AliasEnd(s: string, i: nat): (k: nat)
    requires i <= |s|
    ensures i <= k <= |s|
    ensures forall j :: i <= j < k ==> s[j] != ']'
    ensures k < |s| ==> s[k] == ']'
    decreases |s| - i
  {
    if i == |s| || s[i] == ']' then i else AliasEnd(s, i + 1)
  }

  predicate ClosesAt(s: string, k: nat)
  {
    k + 2 <= |s| && s[k] == ']' && s[k + 1] == ']'
  }

  /** The text a token occupies in the note. */
  function RefText(r: Ref): string
  {
    (if r.isEmbed then "!" else "") + "[[" + r.target
      + (match r.alias case Some(a) => "|" + a case None => "") + "]]"
  }

  /**
   * `\[\[([^|#\]]+)(?:\|([^\]]+))?\]\]` at `i`: the target is the longest run
   * of target characters (a shorter one cannot be followed by '|' or "]]"),
   * the alias the longest run of non-']' characters; the result is the plain
   * token and the index after it.
   */
  function BracketAt(s: string, i: nat): (r: Option<(Ref, nat)>)
    requires i <= |s|
    ensures r.Some? ==> i + 4 < r.value.1 <= |s|
    ensures r.Some? ==> !r.value.0.isEmbed && r.value.0.target != []
  {
    if i + 2 <= |s| && s[i] == '[' && s[i + 1] == '[' then
      var te := TargetEnd(s, i + 2);
      if te == i + 2 then None
      else if te < |s| && s[te] == '|' then
        var ae := AliasEnd(s, te + 1);
        if ae > te + 1 && ClosesAt(s, ae) then Some((Ref(false, s[i + 2..te], Some(s[te + 1..ae])), ae + 2))
        else None
      else if ClosesAt(s, te) then Some((Ref(false, s[i + 2..te], None), te + 2))
      else None
    else None
  }

  /** A matched token occupies exactly its own text. */
  lemma BracketText(s: string, i: nat)
    requires i <= |s| && BracketAt(s, i).Some?
    ensures s[i..BracketAt(s, i).value.1] == RefText(BracketAt(s, i).value.0)
  {
    var te := TargetEnd(s, i + 2);
    if te < |s| && s[te] == '|' {
      BracketTextAlias(s, i, te, AliasEnd(s, te + 1));
    } else {
      BracketTextPlain(s, i, te);
    }
  }

  lemma BracketTextPlain(s: string, i: nat, te: nat)
    requires i + 2 <= te && ClosesAt(s, te) && s[i] == '[' && s[i + 1] == '['
    ensures s[i..te + 2] == RefText(Ref(false, s[i + 2..te], None))
  {
    assert s[i..te + 2] == s[i..i + 2] + s[i + 2..te] + s[te..te + 2];
  }

  lemma BracketTextAlias(s: string, i: nat, te: nat, ae: nat)
    requires i + 2 <= te < ae && ClosesAt(s, ae) && s[i] == '[' && s[i + 1] == '[' && s[te] == '|'
    ensures s[i..ae + 2] == RefText(Ref(false, s[i + 2..te], Some(s[te + 1..ae])))
  {
    assert s[i..ae + 2] == s[i..i + 2] + s[i + 2..te] + [s[te]] + s[te + 1..ae] + s[ae..ae + 2];
  }

  /** `LINK_PATTERN` at `i`: an optional '!' then the bracketed token. */
  function LinkAt(s: string, i: nat): (r: Option<(Ref, nat)>)
    requires i <= |s|
    ensures r.Some? ==> i + 4 < r.value.1 <= |s|
    ensures r.Some? ==> r.value.0.target != []
  {
    if i < |s| && s[i] == '!' then
      match BracketAt(s, i + 1)
      case Some(m) => Some((m.0.(isEmbed := true), m.1))
      case None => None
    else BracketAt(s, i)
  }

  lemma LinkText(s: string, i: nat)
    requires i <= |s| && LinkAt(s, i).Some?
    ensures s[i..LinkAt(s, i).value.1] == RefText(LinkAt(s, i).value.0)
  {
    if i < |s| && s[i] == '!' {
      BracketText(s, i + 1);
      var e := LinkAt(s, i).value.1;
      assert s[i..e] == [s[i]] + s[i + 1..e];
    } else {
      BracketText(s, i);
    }
  }

  /** The left-to-right scan of `re.sub`/`re.finditer` with `LINK_PATTERN`, from `i`. */
  function ScanFrom(s: string, i: nat): seq<Segment>
    requires i <= |s|
    decreases |s| - i
  {
    if i == |s| then []
    else match LinkAt(s, i)
      case Some(m) => [Link(m.0)] + ScanFrom(s, m.1)
      case None => [Char(s[i])] + ScanFrom(s, i + 1)
  }

  function Tokenize(s: string): seq<Segment>
  {
    ScanFrom(s, 0)
  }

  function SegmentText(g: Segment): string
  {
    match g
    case Char(c) => [c]
    case Link(r) => RefText(r)
  }

  function Render(gs: seq<Segment>): string
  {
    if gs == [] then [] else SegmentText(gs[0]) + Render(gs[1..])
  }

  lemma RenderCons(g: Segment, gs: seq<Segment>)
    ensures Render([g] + gs) == SegmentText(g) + Render(gs)
  {
    assert ([g] + gs)[1..] == gs;
  }

  lemma SplitAt(s: string, i: nat, j: nat)
    requires i <= j <= |s|
    ensures s[i..] == s[i..j] + s[j..]
  {
  }

  /** One segment of the text from `i`, and where the scan goes on. */
  lemma ScanStep(s: string, i: nat) returns (g: Segment, next: nat)
    requires i < |s|
    ensures i < next <= |s| && s[i..next] == SegmentText(g)
    ensures ScanFrom(s, i) == [g] + ScanFrom(s, next)
  {
    match LinkAt(s, i)
    case Some(m) =>
      LinkText(s, i);
      g, next := Link(m.0), m.1;
    case None =>
      g, next := Char(s[i]), i + 1;
  }

  /** Scanning loses nothing: rendering the segments gives back the scanned text. */
  lemma {:induction false} ScanRoundTrip(s: string, i: nat)
    requires i <= |s|
    ensures Render(ScanFrom(s, i)) == s[i..]
    decreases |s| - i
  {
    if i < |s| {
      var g, next := ScanStep(s, i);
      ScanRoundTrip(s, next);
      RenderCons(g, ScanFrom(s, next));
      SplitAt(s, i, next);
    }
  }

  lemma TokenizeRoundTrip(s: string)
    ensures Render(Tokenize(s)) == s
  {
    ScanRoundTrip(s, 0);
  }

  /** A token's own text is scanned back as exactly that token. */
  lemma TokenScansBack(r: Ref)
    requires r.target != [] && forall j :: 0 <= j < |r.target| ==> IsTargetChar(r.target[j])
    requires r.alias.Some? ==> r.alias.value != [] && forall j :: 0 <= j < |r.alias.value| ==> r.alias.value[j] != ']'
    ensures Tokenize(RefText(r)) == [Link(r)]
  {
    var s := RefText(r);
    var b := if r.isEmbed then 1 else 0;
    var plain := r.(isEmbed := false);
    var t := RefText(plain);
    assert s == (if r.isEmbed then "!" else "") + t;
    assert s[b..] == t;
    assert BracketAt(s, b) == Some((plain, |s|)) by {
      BracketOfOwnText(plain, s, b);
    }
    assert LinkAt(s, 0) == Some((r, |s|));
    assert ScanFrom(s, |s|) == [];
  }

  lemma BracketOfOwnText(r: Ref, s: string, b: nat)
    requires !r.isEmbed
    requires r.target != [] && forall j :: 0 <= j < |r.target| ==> IsTargetChar(r.target[j])
    requires r.alias.Some? ==> r.alias.value != [] && forall j :: 0 <= j < |r.alias.value| ==> r.alias.value[j] != ']'
    requires b <= |s| && s[b..] == RefText(r)
    ensures BracketAt(s, b) == Some((r, |s|))
  {
    if r.alias.Some? {
      OwnTextAlias(r.target, r.alias.value, s, b);
    } else {
      OwnTextPlain(r.target, s, b);
    }
  }

  lemma OwnTextPlain(target: string, s: string, b: nat)
    requires target != [] && forall j :: 0 <= j < |target| ==> IsTargetChar(target[j])
    requires b <= |s| && s[b..] == "[[" + target + "]]"
    ensures BracketAt(s, b) == Some((Ref(false, target, None), |s|))
  {
    var t := s[b..];
    var te := b + 2 + |target|;
    assert s[b] == t[0] && s[b + 1] == t[1];
    assert s[b + 2..te] == t[2..2 + |target|] == target;
    assert s[te] == t[2 + |target|] && s[te + 1] == t[3 + |target|];
    TargetEndIs(s, b + 2, te);
  }

  lemma OwnTextAlias(target: string, alias: string, s: string, b: nat)
    requires target != [] && forall j :: 0 <= j < |target| ==> IsTargetChar(target[j])
    requires alias != [] && forall j :: 0 <= j < |alias| ==> alias[j] != ']'
    requires b <= |s| && s[b..] == "[[" + target + "|" + alias + "]]"
    ensures BracketAt(s, b) == Some((Ref(false, target, Some(alias)), |s|))
  {
    var te := b + 2 + |target|;
    var ae := te + 1 + |alias|;
    AliasLayout(target, alias, s, b);
    forall j | b + 2 <= j < te ensures IsTargetChar(s[j]) {
      assert s[j] == s[b + 2..te][j - b - 2];
    }
    forall j | te + 1 <= j < ae ensures s[j] != ']' {
      assert s[j] == s[te + 1..ae][j - te - 1];
    }
    TargetEndIs(s, b + 2, te);
    AliasEndIs(s, te + 1, ae);
    BracketAtAlias(s, b, te, ae);
  }

  /** Where the parts of `[[target|alias]]` lie when it ends `s`. */
  lemma AliasLayout(target: string, alias: string, s: string, b: nat)
    requires b <= |s| && s[b..] == "[[" + target + "|" + alias + "]]"
    ensures var te := b + 2 + |target|; var ae := te + 1 + |alias|;
      ae + 2 == |s| && s[b] == '[' && s[b + 1] == '[' && s[te] == '|' && s[ae] == ']' && s[ae + 1] == ']' &&
      s[b + 2..te] == target && s[te + 1..ae] == alias
  {
    var te := b + 2 + |target|;
    var ae := te + 1 + |alias|;
    var t := s[b..];
    assert |t| == ae + 2 - b;
    assert t == ("[[" + target) + ("|" + alias + "]]");
    assert t[2..2 + |target|] == target;
    assert s[b] == t[0] && s[b + 1] == t[1];
    assert s[b + 2..te] == t[2..2 + |target|];
    assert s[te] == t[2 + |target|];
    assert s[te + 1..ae] == t[3 + |target|..3 + |target| + |alias|];
    assert s[ae] == t[3 + |target| + |alias|] && s[ae + 1] == t[4 + |target| + |alias|];
  }

  /** The alias branch of `BracketAt`, given where the two runs end. */
  lemma BracketAtAlias(s: string, i: nat, te: nat, ae: nat)
    requires i + 2 < te && te + 1 < ae && ClosesAt(s, ae) && s[i] == '[' && s[i + 1] == '[' && s[te] == '|'
    requires TargetEnd(s, i + 2) == te && AliasEnd(s, te + 1) == ae
    ensures BracketAt(s, i) == Some((Ref(false, s[i + 2..te], Some(s[te + 1..ae])), ae + 2))
  {
  }

  lemma TargetEndIs(s: string, i: nat, k: nat)
    requires i <= k <= |s|
    requires forall j :: i <= j < k ==> IsTargetChar(s[j])
    requires k < |s| && !IsTargetChar(s[k])
    ensures TargetEnd(s, i) == k
    decreases k - i
  {
    if i < k { TargetEndIs(s, i + 1, k); }
  }

  lemma AliasEndIs(s: string, i: nat, k: nat)
    requires i <= k < |s|
    requires forall j :: i <= j < k ==> s[j] != ']'
    requires s[k] == ']'
    ensures AliasEnd(s, i) == k
    decreases k - i
  {
    if i < k { AliasEndIs(s, i + 1, k); }
  }

  // ---------------------------------------------------------------------
  // Tags

  /** Whether `TAG_PATTERN` matches at `i`: a '#' not preceded by '#' and followed by `[\w-]`. */
  predicate TagAt(s: string, i: nat)
  {
    i + 1 < |s| && s[i] == '#' && (i == 0 || s[i - 1] != '#') && IsTagChar(s[i + 1])
  }

  function TagEnd(s: string, i: nat): (k: nat)
    requires i <= |s|
    ensures i <= k <= |s|
    ensures forall j :: i <= j < k ==> IsTagChar(s[j])
    ensures k < |s| ==> !IsTagChar(s[k])
    decreases |s| - i
  {
    if i == |s| || !IsTagChar(s[i]) then i else TagEnd(s, i + 1)
  }

  /** `TAG_PATTERN.sub('', s)` from index `i`; the look-behind reads the original text. */
  function StripTagsFrom(s: string, i: nat): string
    requires i <= |s|
    decreases |s| - i
  {
    if i == |s| then []
    else if TagAt(s, i) then StripTagsFrom(s, TagEnd(s, i + 1))
    else [s[i]] + StripTagsFrom(s, i + 1)
  }

  function StripTags(s: string): string
  {
    StripTagsFrom(s, 0)
  }

  /** Text where no tag begins is left as it is. */
  lemma {:induction false} StripTagsNoTag(s: string, i: nat)
    requires i <= |s|
    requires forall j :: i <= j < |s| ==> !TagAt(s, j)
    ensures StripTagsFrom(s, i) == s[i..]
    decreases |s| - i
  {
    if i < |s| {
      StripTagsNoTag(s, i + 1);
      assert s[i..] == [s[i]] + s[i + 1..];
    }
  }

  /** Whether position `j` lies inside a match of `TAG_PATTERN` in `s`. */
  ghost predicate InTag(s: string, j: nat)
  {
    exists i :: 0 <= i <= j && TagAt(s, i) && j < TagEnd(s, i + 1)
  }

  /** The characters of `s` from `j` on that lie inside no tag, in order. */
  ghost function Untagged(s: string, j: nat): string
    requires j <= |s|
    decreases |s| - j
  {
    if j == |s| then [] else (if InTag(s, j) then [] else [s[j]]) + Untagged(s, j + 1)
  }

  /** No tag starting before `i` reaches `i`. */
  ghost predicate TagsEndBy(s: string, i: nat)
  {
    forall k :: 0 <= k < i && TagAt(s, k) ==> TagEnd(s, k + 1) <= i
  }

  /** Positions `j..e` all inside tags contribute nothing. */
  lemma {:induction false} UntaggedSkips(s: string, j: nat, e: nat)
    requires j <= e <= |s|
    requires forall k :: j <= k < e ==> InTag(s, k)
    ensures Untagged(s, j) == Untagged(s, e)
    decreases e - j
  {
    if j < e {
      UntaggedSkips(s, j + 1, e);
    }
  }

  lemma {:induction false} StripTagsFromUntagged(s: string, i: nat)
    requires i <= |s| && TagsEndBy(s, i)
    ensures StripTagsFrom(s, i) == Untagged(s, i)
    decreases |s| - i
  {
    if i < |s| {
      if TagAt(s, i) {
        var e := TagEnd(s, i + 1);
        forall k | i <= k < e ensures InTag(s, k) {
          assert TagAt(s, i) && k < TagEnd(s, i + 1);
        }
        UntaggedSkips(s, i, e);
        forall k | i < k < e ensures !TagAt(s, k) {
          assert IsTagChar(s[k]);
        }
        StripTagsFromUntagged(s, e);
      } else {
        assert !InTag(s, i);
        StripTagsFromUntagged(s, i + 1);
      }
    }
  }

  /**
   * `TAG_PATTERN.sub('', s)` removes exactly the characters inside tags:
   * each tag is a '#' not preceded by '#' with its maximal run of `[\w-]`.
   */
  lemma StripTagsRemovesTags(s: string)
    ensures StripTags(s) == Untagged(s, 0)
  {
    StripTagsFromUntagged(s, 0);
  }

  /**
   * Heading markers survive: a run of '#' followed by a space, anywhere in
   * the text, lies inside no tag.
   */
  lemma HeadingMarkerKept(s: string, i: nat, n: nat)
    requires 1 <= n && i + n < |s|
    requires forall j :: i <= j < i + n ==> s[j] == '#'
    requires s[i + n] == ' '
    ensures forall j :: i <= j <= i + n ==> !InTag(s, j)
  {
    forall k | i <= k <= i + n ensures !TagAt(s, k) {
      if k == i {
        assert !IsTagChar(s[i + 1]);
      } else {
        assert s[k - 1] == '#';
      }
    }
    assert !IsTagChar(s[i]);
  }

  // ---------------------------------------------------------------------
  // Outline entries

  /** An outline list entry: its indentation width and the first link after the dash. */
  datatype Entry = Entry(indent: nat, target: string, alias: Option<string>)

  /** `.*?` followed by the bracketed token: the first position from `i` where one matches. */
  function FirstBracket(s: string, i: nat): (r: Option<Ref>)
    requires i <= |s|
    ensures r.Some? ==> !r.value.isEmbed && r.value.target != []
    decreases |s| - i
  {
    if i == |s| then None
    else match BracketAt(s, i)
      case Some(m) => Some(m.0)
      case None => FirstBracket(s, i + 1)
  }

  /** `LIST_LINE_PATTERN.match(line)`. */
  function ListEntry(line: string): (r: Option<Entry>)
    ensures r.Some? ==> r.value.indent < |line| && line[r.value.indent] == '-'
    ensures r.Some? ==> forall j :: 0 <= j < r.value.indent ==> IsSpace(line[j])
    ensures r.Some? ==> r.value.target != []
  {
    var k := SpaceEnd(line, 0);
    if k < |line| && line[k] == '-' then
      match FirstBracket(line, k + 1)
      case Some(ref) => Some(Entry(k, ref.target, ref.alias))
      case None => None
    else None
  }
}
