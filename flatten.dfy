/**
 * Note flattening: the rewrite `link_flattener` applies to each wiki-link
 * token, and the notes a body links to (the `.md` files its plain links
 * resolve to), shared by the outline scope and the automatic traversal.
 */
module Flatten {
  import opened Wrappers
  import opened Text
  import opened Paths
  import opened Links
  import opened VaultIndex
  import FrontMatter

  /** `ATTACHMENT_EXTENSIONS`. */
  const AttachmentExtensions: set<string> := {".png", ".jpg", ".jpeg", ".gif", ".bmp", ".svg", ".pdf"}

  /** `linked_file.suffix.lower() in ATTACHMENT_EXTENSIONS`. */
  predicate IsAttachment(p: Path)
  {
    Lower(Suffix(Name(p))) in AttachmentExtensions
  }

  /** `note.suffix.lower() == '.md'`. */
  predicate IsNote(p: Path)
  {
    Lower(Suffix(Name(p))) == ".md"
  }

  /** `alias or target`: the alias when there is a non-empty one. */
  function Shown(r: Ref): string
  {
    if r.alias.Some? && r.alias.value != "" then r.alias.value else r.target
  }

  /** The text standing in for an embed that is not a copied attachment. */
  function Placeholder(target: string): string
  {
    "(Contenido embebido de: " + target + ")"
  }

  /** The text a token becomes, and the attachment it copies into the assets folder, if any. */
  datatype Rewrite = Rewrite(text: string, copy: Option<Path>)

  /** `link_flattener` on one token. */
  function RewriteRef(res: Resolver, r: Ref): (w: Rewrite)
    ensures w.copy.Some? <==> r.isEmbed && Resolve(res, r.target).Some? && IsAttachment(Resolve(res, r.target).value)
    ensures w.copy.Some? ==> w.copy == Resolve(res, r.target) && w.copy.value in res.index.Values
  {
    if !r.isEmbed then Rewrite(Shown(r), None)
    else match Resolve(res, r.target)
      case Some(p) =>
        if IsAttachment(p) then Rewrite("![" + Shown(r) + "](" + Name(p) + ")", Some(p))
        else Rewrite(Placeholder(r.target), None)
      case None => Rewrite(Placeholder(r.target), None)
  }

  /** Exactly three outcomes, decided by the token kind and what its target resolves to. */
  lemma RewriteOutcomes(res: Resolver, r: Ref)
    ensures var w := RewriteRef(res, r);
      || (!r.isEmbed && w == Rewrite(Shown(r), None))
      || (r.isEmbed && Resolve(res, r.target).Some? && IsAttachment(Resolve(res, r.target).value) &&
          w == Rewrite("![" + Shown(r) + "](" + Name(Resolve(res, r.target).value) + ")", Resolve(res, r.target)))
      || (r.isEmbed && (Resolve(res, r.target).None? || !IsAttachment(Resolve(res, r.target).value)) &&
          w == Rewrite(Placeholder(r.target), None))
  {
  }

  /** A plain link becomes its alias or target whatever the index holds. */
  lemma PlainRewriteIgnoresIndex(res1: Resolver, res2: Resolver, r: Ref)
    requires !r.isEmbed
    ensures RewriteRef(res1, r) == RewriteRef(res2, r)
    ensures RewriteRef(res1, r).text == Shown(r) && RewriteRef(res1, r).copy.None?
  {
  }

  /** The text shown for a link never contains ']', so a plain link rewrite leaves no token closing behind. */
  lemma ShownHasNoBracket(r: Ref)
    requires forall j :: 0 <= j < |r.target| ==> IsTargetChar(r.target[j])
    requires r.alias.Some? ==> forall j :: 0 <= j < |r.alias.value| ==> r.alias.value[j] != ']'
    ensures forall j :: 0 <= j < |Shown(r)| ==> Shown(r)[j] != ']'
  {
  }

  /** The tokens the scanner produces satisfy the character classes of the pattern. */
  lemma {:induction false} ScannedRefsWellFormed(s: string, i: nat)
    requires i <= |s|
    ensures forall k :: 0 <= k < |ScanFrom(s, i)| && ScanFrom(s, i)[k].Link? ==>
      var r := ScanFrom(s, i)[k].ref;
      r.target != [] && (forall j :: 0 <= j < |r.target| ==> IsTargetChar(r.target[j])) &&
      (r.alias.Some? ==> forall j :: 0 <= j < |r.alias.value| ==> r.alias.value[j] != ']')
    decreases |s| - i
  {
    if i < |s| {
      var next := if LinkAt(s, i).Some? then LinkAt(s, i).value.1 else i + 1;
      ScannedRefsWellFormed(s, next);
      if LinkAt(s, i).Some? {
        LinkClasses(s, i);
      }
    }
  }

  /** The target and alias of a matched token come from the runs the pattern allows. */
  lemma LinkClasses(s: string, i: nat)
    requires i <= |s| && LinkAt(s, i).Some?
    ensures var r := LinkAt(s, i).value.0;
      (forall j :: 0 <= j < |r.target| ==> IsTargetChar(r.target[j])) &&
      (r.alias.Some? ==> forall j :: 0 <= j < |r.alias.value| ==> r.alias.value[j] != ']')
  {
    var b := if i < |s| && s[i] == '!' then i + 1 else i;
    var te := TargetEnd(s, b + 2);
    assert LinkAt(s, i).value.0.target == s[b + 2..te];
    if te < |s| && s[te] == '|' {
      var ae := AliasEnd(s, te + 1);
      assert LinkAt(s, i).value.0.alias == Some(s[te + 1..ae]);
    }
  }

  // ---------------------------------------------------------------------
  // Whole bodies

  /** What one scanned segment becomes: a character stays, a token is rewritten. */
  function SegmentRewrite(res: Resolver, g: Segment): Rewrite
  {
    match g
    case Char(c) => Rewrite([c], None)
    case Link(r) => RewriteRef(res, r)
  }

  /** `LINK_PATTERN.sub(link_flattener, ...)` segment by segment. */
  function Rewrites(res: Resolver, gs: seq<Segment>): (ws: seq<Rewrite>)
    ensures |ws| == |gs|
    ensures forall k :: 0 <= k < |gs| ==> ws[k] == SegmentRewrite(res, gs[k])
  {
    seq(|gs|, k requires 0 <= k < |gs| => SegmentRewrite(res, gs[k]))
  }

  /** The written text: the rewrites' texts in order. */
  function Texts(ws: seq<Rewrite>): string
  {
    if ws == [] then "" else ws[0].text + Texts(ws[1..])
  }

  /** The attachments copied, in order. */
  function Copies(ws: seq<Rewrite>): seq<Path>
  {
    if ws == [] then [] else (if ws[0].copy.Some? then [ws[0].copy.value] else []) + Copies(ws[1..])
  }

  /** Text and copies distribute over concatenated runs. */
  lemma RewritesAppend(ws: seq<Rewrite>, vs: seq<Rewrite>)
    ensures Texts(ws + vs) == Texts(ws) + Texts(vs)
    ensures Copies(ws + vs) == Copies(ws) + Copies(vs)
  {
    TextsAppend(ws, vs);
    CopiesAppend(ws, vs);
  }

  lemma {:induction false} TextsAppend(ws: seq<Rewrite>, vs: seq<Rewrite>)
    ensures Texts(ws + vs) == Texts(ws) + Texts(vs)
    decreases |ws|
  {
    if ws == [] {
      assert ws + vs == vs;
    } else {
      assert (ws + vs)[0] == ws[0];
      assert (ws + vs)[1..] == ws[1..] + vs;
      TextsAppend(ws[1..], vs);
      assert Texts(ws + vs) == ws[0].text + (Texts(ws[1..]) + Texts(vs));
    }
  }

  lemma {:induction false} CopiesAppend(ws: seq<Rewrite>, vs: seq<Rewrite>)
    ensures Copies(ws + vs) == Copies(ws) + Copies(vs)
    decreases |ws|
  {
    if ws == [] {
      assert ws + vs == vs;
    } else {
      var c := if ws[0].copy.Some? then [ws[0].copy.value] else [];
      assert (ws + vs)[0] == ws[0];
      assert (ws + vs)[1..] == ws[1..] + vs;
      CopiesAppend(ws[1..], vs);
      assert Copies(ws + vs) == c + (Copies(ws[1..]) + Copies(vs));
    }
  }

  /** Rewriting a body split in two is rewriting each part. */
  lemma RewriteSplit(res: Resolver, gs: seq<Segment>, hs: seq<Segment>)
    ensures Texts(Rewrites(res, gs + hs)) == Texts(Rewrites(res, gs)) + Texts(Rewrites(res, hs))
    ensures Copies(Rewrites(res, gs + hs)) == Copies(Rewrites(res, gs)) + Copies(Rewrites(res, hs))
  {
    assert Rewrites(res, gs + hs) == Rewrites(res, gs) + Rewrites(res, hs);
    RewritesAppend(Rewrites(res, gs), Rewrites(res, hs));
  }

  /** Segments without tokens are rewritten to their own text and copy nothing. */
  lemma {:induction false} LinkFreeRewrite(res: Resolver, gs: seq<Segment>)
    requires forall k :: 0 <= k < |gs| ==> gs[k].Char?
    ensures Texts(Rewrites(res, gs)) == Render(gs) && Copies(Rewrites(res, gs)) == []
    decreases |gs|
  {
    if gs != [] {
      LinkFreeRewrite(res, gs[1..]);
      assert Rewrites(res, gs)[1..] == Rewrites(res, gs[1..]);
    }
  }

  /** Every copy is an attachment of the vault, copied because an embed resolved to it. */
  lemma {:induction false} CopiesAreEmbeddedAttachments(ws: seq<Rewrite>, res: Resolver, gs: seq<Segment>, p: Path)
    requires ws == Rewrites(res, gs)
    ensures p in Copies(ws) <==> exists k :: 0 <= k < |gs| && gs[k].Link? && RewriteRef(res, gs[k].ref).copy == Some(p)
    ensures p in Copies(ws) ==> IsAttachment(p) && p in res.index.Values
    decreases |gs|
  {
    if gs != [] {
      assert ws[1..] == Rewrites(res, gs[1..]);
      CopiesAreEmbeddedAttachments(ws[1..], res, gs[1..], p);
      if p in Copies(ws[1..]) {
        var k :| 0 <= k < |gs[1..]| && gs[1..][k].Link? && RewriteRef(res, gs[1..][k].ref).copy == Some(p);
        assert gs[k + 1] == gs[1..][k];
      }
      forall k | 0 < k < |gs| && gs[k].Link? && RewriteRef(res, gs[k].ref).copy == Some(p)
        ensures p in Copies(ws[1..])
      {
        assert gs[1..][k - 1] == gs[k];
      }
    }
  }

  /** The body `_flatten_and_copy_note_content` writes: front matter removed, tags removed, tokens rewritten. */
  function FlattenText(res: Resolver, content: string): seq<Rewrite>
  {
    Rewrites(res, Tokenize(StripTags(FrontMatter.Clean(content))))
  }

  /** A note body with no wiki-link is written out as it stands once front matter and tags are gone. */
  lemma FlattenWithoutLinks(res: Resolver, content: string)
    requires var gs := Tokenize(StripTags(FrontMatter.Clean(content)));
      forall k :: 0 <= k < |gs| ==> gs[k].Char?
    ensures Texts(FlattenText(res, content)) == StripTags(FrontMatter.Clean(content))
    ensures Copies(FlattenText(res, content)) == []
  {
    var body := StripTags(FrontMatter.Clean(content));
    LinkFreeRewrite(res, Tokenize(body));
    TokenizeRoundTrip(body);
  }

  // ---------------------------------------------------------------------
  // Linked notes

  /** What a plain token contributes: the `.md` note its target resolves to, if any. */
  function LinkedNote(res: Resolver, g: Segment): (r: Option<Path>)
    ensures r.Some? ==> r.value in res.index.Values && IsNote(r.value)
    ensures r.Some? <==> g.Link? && !g.ref.isEmbed && Resolve(res, g.ref.target).Some? && IsNote(Resolve(res, g.ref.target).value)
    ensures r.Some? ==> g.Link? && r == Resolve(res, g.ref.target)
  {
    if g.Link? && !g.ref.isEmbed then
      match Resolve(res, g.ref.target)
      case Some(p) => if IsNote(p) then Some(p) else None
      case None => None
    else None
  }

  /** The contribution of each segment. */
  function LinkedOptions(res: Resolver, gs: seq<Segment>): (os: seq<Option<Path>>)
    ensures |os| == |gs|
    ensures forall k :: 0 <= k < |gs| ==> os[k] == LinkedNote(res, gs[k])
  {
    seq(|gs|, k requires 0 <= k < |gs| => LinkedNote(res, gs[k]))
  }

  /** The present values, in order. */
  function Present(os: seq<Option<Path>>): seq<Path>
  {
    if os == [] then []
    else Present(os[..|os| - 1]) + (if os[|os| - 1].Some? then [os[|os| - 1].value] else [])
  }

  /** A value is present exactly when some option holds it. */
  lemma {:induction false} PresentMembers(os: seq<Option<Path>>, p: Path)
    ensures p in Present(os) <==> Some(p) in os
    decreases |os|
  {
    if os != [] {
      var init := os[..|os| - 1];
      PresentMembers(init, p);
      assert os == init + [os[|os| - 1]];
    }
  }

  /**
   * The notes a body links to, in order of appearance, repeats kept: the
   * `children` of `_traverse_and_collect` and the outline scope of `build_package`.
   */
  function LinkedNotes(res: Resolver, gs: seq<Segment>): seq<Path>
  {
    Present(LinkedOptions(res, gs))
  }

  /** A note is linked exactly when some plain token of the body resolves to it. */
  lemma LinkedNotesMembers(res: Resolver, gs: seq<Segment>, p: Path)
    ensures p in LinkedNotes(res, gs) <==> exists k :: 0 <= k < |gs| && LinkedNote(res, gs[k]) == Some(p)
    ensures p in LinkedNotes(res, gs) ==> p in res.index.Values && IsNote(p)
  {
    var os := LinkedOptions(res, gs);
    PresentMembers(os, p);
    if Some(p) in os {
      var k :| 0 <= k < |os| && os[k] == Some(p);
      assert LinkedNote(res, gs[k]) == Some(p);
    }
  }

  /** Every linked note is a `.md` file of the index. */
  lemma LinkedNotesInIndex(res: Resolver, gs: seq<Segment>)
    ensures forall k :: 0 <= k < |LinkedNotes(res, gs)| ==>
      LinkedNotes(res, gs)[k] in res.index.Values && IsNote(LinkedNotes(res, gs)[k])
  {
    forall k | 0 <= k < |LinkedNotes(res, gs)|
      ensures LinkedNotes(res, gs)[k] in res.index.Values && IsNote(LinkedNotes(res, gs)[k])
    {
      LinkedNotesMembers(res, gs, LinkedNotes(res, gs)[k]);
    }
  }

  /** Embeds never contribute linked notes, whatever they resolve to. */
  lemma EmbedLinksNothing(res: Resolver, r: Ref)
    requires r.isEmbed
    ensures LinkedNote(res, Link(r)) == None
  {
  }

  /** The notes a raw body links to, read with front matter removed. */
  function BodyLinks(res: Resolver, content: string): seq<Path>
  {
    LinkedNotes(res, Tokenize(FrontMatter.Clean(content)))
  }
}
