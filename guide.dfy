/**
 * The guide `_MOC_Guide.md`: its front-matter header, the manual-mode
 * guide built from the outline note, and the automatic-mode guide built
 * from the structure map.
 */
module Guide {
  import opened Wrappers
  import opened Text
  import opened Paths
  import opened Links
  import opened VaultIndex
  import opened Config
  import opened Traversal
  import opened Includes
  import FrontMatter

  /** The line that asks for a page break before a top-level section. */
  const PageBreak: string := "\n\\newpage\n"

  // ---------------------------------------------------------------------
  // The header

  /** The lines between the dashes of the header. */
  function HeaderFields(cfg: ExportConfig, today: string): (f: string)
    ensures StartsWith(f, "title: '")
  {
    var title := if cfg.extras.Some? then Show(cfg.extras.value.metadata.title) else "Untitled";
    var author := if cfg.extras.Some? then Show(cfg.extras.value.metadata.author) else "Unknown";
    var date := if cfg.extras.Some? then Show(cfg.extras.value.metadata.date) else today;
    var style := if cfg.extras.Some? then cfg.extras.value.style else "classic";
    var cover := if cfg.extras.Some? then Show(cfg.extras.value.cover) else "";
    var tail := title + "'\nauthor: '" + author + "'\ndate: " + date +
      "\nexport_style: " + style + "\ncover-image: '" + cover + "'";
    assert ("title: '" + tail)[..8] == "title: '";
    "title: '" + tail
  }

  /**
   * `_create_yaml_header(export_config.get('metadata', {}), export_config)`:
   * the configuration as a front-matter block, followed by a blank line.
   */
  function Header(cfg: ExportConfig, today: string): (h: string)
    ensures StartsWith(h, "---\ntitle: '")
  {
    var f := HeaderFields(cfg, today);
    var h := "---\n" + f + "\n---\n\n";
    assert h[..12] == "---\n" + f[..8];
    h
  }

  /** Every guide starts with a front-matter block, whatever follows the header. */
  lemma HeaderIsFrontMatter(cfg: ExportConfig, today: string, rest: string)
    ensures FrontMatter.Find(Header(cfg, today) + rest).Some?
  {
    var a := "---\n" + HeaderFields(cfg, today);
    var t := "\n---\n\n" + rest;
    var s := Header(cfg, today) + rest;
    assert s == a + t;
    assert s[|a|..|a| + 5] == t[..5] == "\n---\n";
    assert s[..3] == a[..3] == "---";
    assert s[3] == a[3] == '\n';
    FrontMatter.FindsClosingLine(s, |a|);
  }

  /**
   * A guide whose header holds no `!` keeps its header through the include
   * expansion. When every directive of the body names a plain file of the
   * notes folder, its assembly fails only when the YAML parser does.
   */
  lemma GuideAssembles(cfg: ExportConfig, today: string, rest: string, notes: map<string, string>,
                       other: string -> Result<string>, parse: string -> Result<Yaml>)
    requires '!' !in Header(cfg, today)
    requires forall n :: n in Names(rest) ==> PlainName(n)
    ensures Expand(Fetch(notes, other), rest).Success?
    ensures var full := Header(cfg, today) + Expand(Fetch(notes, other), rest).value;
      Expand(Fetch(notes, other), Header(cfg, today) + rest) == Success(full) &&
      FrontMatter.Find(full).Some? &&
      (AssembleFull(Header(cfg, today) + rest, notes, other, parse).Failure? ==>
        parse(FrontMatter.Body(full, FrontMatter.Find(full).value)).Failure?)
  {
    forall tail ensures FrontMatter.Find(Header(cfg, today) + tail).Some? {
      HeaderIsFrontMatter(cfg, today, tail);
    }
    PlainNamesExpand(notes, other, rest);
    AssembleKeepsHeader(Header(cfg, today), rest, notes, other, parse);
  }

  // ---------------------------------------------------------------------
  // Manual mode: the outline note as a blueprint

  /** How `_generate_moc_from_blueprint` reads one line of the outline. */
  datatype LineKind =
    | Blank
    | Heading(text: string)
    | ListItem(entry: Entry, found: Option<Path>)
    | Other

  /** The classification of one line; `found` is what the entry's target resolves to. */
  function Classify(res: Resolver, line: string): (k: LineKind)
    ensures k.Blank? <==> Strip(line) == []
    ensures k.Heading? <==> Strip(line) != [] && Strip(line)[0] == '#'
    ensures k.Heading? && k.text != [] ==> !IsSpace(k.text[0]) && !IsSpace(k.text[|k.text| - 1])
    ensures k.ListItem? ==> ListEntry(line) == Some(k.entry) && k.found == Resolve(res, k.entry.target)
    ensures k.Other? ==> ListEntry(line).None?
  {
    var stripped := Strip(line);
    if stripped == "" then Blank
    else if stripped[0] == '#' then Heading(Strip(LStripHashes(stripped)))
    else match ListEntry(line)
      case Some(e) => ListItem(e, Resolve(res, e.target))
      case None => Other
  }

  /** A line holding a list entry is classified as one: it is neither blank nor a heading. */
  lemma ClassifyEntries(res: Resolver, line: string)
    ensures Classify(res, line).ListItem? <==> ListEntry(line).Some?
  {
    if ListEntry(line).Some? {
      var k := ListEntry(line).value.indent;
      assert !IsSpace(line[k]);
      assert SpaceEnd(line, 0) == k;
      var l := LStrip(line);
      assert l[0] == '-';
      var r := RStrip(l);
      assert !IsSpace(l[0]);
      assert r != [];
      assert r[0] == l[0];
    }
  }

  function Kinds(res: Resolver, lines: seq<string>): (ks: seq<LineKind>)
    ensures |ks| == |lines|
    ensures forall i :: 0 <= i < |lines| ==> ks[i] == Classify(res, lines[i])
  {
    seq(|lines|, i requires 0 <= i < |lines| => Classify(res, lines[i]))
  }

  /** `pending_heading or alias or target`. */
  function Title(pending: Option<string>, e: Entry): string
  {
    if pending.Some? && pending.value != "" then pending.value
    else if e.alias.Some? && e.alias.value != "" then e.alias.value
    else e.target
  }

  /** The heading line of an entry `indent` characters deep, for the file `name`. */
  function Section(indent: nat, title: string, name: string): string
  {
    Repeat('#', indent / 4 + 1) + " " + title + "\n" + Include(name)
  }

  /** `pending_heading` and `final_moc_lines` of the loop. */
  datatype Outline = Outline(pending: Option<string>, lines: seq<string>)

  /** One turn of the loop. */
  function Step(o: Outline, k: LineKind): Outline
  {
    match k
    case Blank => o
    case Other => o
    case Heading(t) => Outline(Some(t), o.lines)
    case ListItem(e, found) =>
      match found
      case None => Outline(None, o.lines)
      case Some(p) =>
        var brk := if e.indent / 4 == 0 && o.lines != [] then [PageBreak] else [];
        Outline(None, o.lines + brk + [Section(e.indent, Title(o.pending, e), Name(p))])
  }

  /** The state after the classified lines `ks`. */
  function Blueprint(ks: seq<LineKind>): Outline
  {
    if ks == [] then Outline(None, []) else Step(Blueprint(ks[..|ks| - 1]), ks[|ks| - 1])
  }

  /** The state after one more line is one more turn of the loop. */
  lemma BlueprintSnoc(ks: seq<LineKind>, i: nat)
    requires i < |ks|
    ensures Blueprint(ks[..i + 1]) == Step(Blueprint(ks[..i]), ks[i])
  {
    assert ks[..i + 1][..i] == ks[..i];
  }

  /** The guide body of manual mode: the lines joined by newlines. */
  function BlueprintBody(res: Resolver, outline: string): string
  {
    Join(Blueprint(Kinds(res, SplitLines(outline))).lines, "\n")
  }

  /**
   * The heading waiting before line `i`: the last heading line before it,
   * unless a list entry (resolved or not) came in between.
   */
  function PendingBefore(ks: seq<LineKind>, i: nat): Option<string>
    requires i <= |ks|
  {
    if i == 0 then None
    else match ks[i - 1]
      case Heading(t) => Some(t)
      case ListItem(_, _) => None
      case _ => PendingBefore(ks, i - 1)
  }

  /** The loop's `pending_heading` is the heading waiting before the next line. */
  lemma {:induction false} PendingIsLastHeading(ks: seq<LineKind>, i: nat)
    requires i <= |ks|
    ensures Blueprint(ks[..i]).pending == PendingBefore(ks, i)
  {
    if i > 0 {
      PendingIsLastHeading(ks, i - 1);
      assert ks[..i][..i - 1] == ks[..i - 1];
    }
  }

  /**
   * A heading titles at most one entry: between two entries that both see
   * a waiting heading there is a heading line of its own for the later one.
   */
  lemma HeadingUsedOnce(ks: seq<LineKind>, i: nat, j: nat)
    requires i < j <= |ks| && ks[i].ListItem?
    requires PendingBefore(ks, j).Some?
    ensures exists h :: i < h < j && ks[h].Heading?
  {
    var h := LastHeading(ks, i, j);
  }

  lemma {:induction false} LastHeading(ks: seq<LineKind>, i: nat, j: nat) returns (h: nat)
    requires i < j <= |ks| && ks[i].ListItem?
    requires PendingBefore(ks, j).Some?
    ensures i < h < j && ks[h].Heading?
    decreases j
  {
    if ks[j - 1].Heading? {
      h := j - 1;
    } else {
      h := LastHeading(ks, i, j - 1);
    }
  }

  /** What a classified line contributes to the sections, given the heading waiting before it. */
  function SectionOf(k: LineKind, pending: Option<string>): seq<string>
  {
    match k
    case ListItem(e, Some(p)) => [Section(e.indent, Title(pending, e), Name(p))]
    case _ => []
  }

  /** The sections alone, in order: one per entry whose target resolves. */
  function Sections(ks: seq<LineKind>): seq<string>
  {
    if ks == [] then [] else Sections(ks[..|ks| - 1]) + SectionOf(ks[|ks| - 1], PendingBefore(ks, |ks| - 1))
  }

  /** `final_moc_lines` without its page breaks. */
  function WithoutBreaks(lines: seq<string>): seq<string>
  {
    if lines == [] then []
    else WithoutBreaks(lines[..|lines| - 1]) + (if lines[|lines| - 1] == PageBreak then [] else [lines[|lines| - 1]])
  }

  lemma {:induction false} WithoutBreaksAppend(a: seq<string>, b: seq<string>)
    ensures WithoutBreaks(a + b) == WithoutBreaks(a) + WithoutBreaks(b)
    decreases |b|
  {
    if b == [] {
      assert a + b == a;
    } else {
      var c := a + b;
      WithoutBreaksAppend(a, b[..|b| - 1]);
      assert c[..|c| - 1] == a + b[..|b| - 1];
      assert c[|c| - 1] == b[|b| - 1];
    }
  }

  /** A section begins with '#', so it is never a page break. */
  lemma SectionIsNotBreak(indent: nat, title: string, name: string)
    ensures Section(indent, title, name) != PageBreak
  {
    assert Section(indent, title, name)[0] == '#';
  }

  /** One turn of the loop adds, page breaks aside, exactly the line's section. */
  lemma StepSections(o: Outline, k: LineKind)
    ensures WithoutBreaks(Step(o, k).lines) == WithoutBreaks(o.lines) + SectionOf(k, o.pending)
  {
    match k
    case ListItem(e, Some(p)) =>
      var brk := if e.indent / 4 == 0 && o.lines != [] then [PageBreak] else [];
      var sec := Section(e.indent, Title(o.pending, e), Name(p));
      SectionIsNotBreak(e.indent, Title(o.pending, e), Name(p));
      assert Step(o, k).lines == o.lines + (brk + [sec]);
      WithoutBreaksAppend(o.lines, brk + [sec]);
      WithoutBreaksAppend(brk, [sec]);
      assert WithoutBreaks([sec]) == [sec] by { assert [sec][..0] == []; }
      assert WithoutBreaks(brk) == [] by { if brk != [] { assert brk[..0] == []; } }
    case ListItem(e, None) =>
    case Heading(_) =>
    case Blank =>
    case Other =>
  }

  /** The waiting heading depends only on the lines before. */
  lemma {:induction false} PendingPrefix(ks: seq<LineKind>, n: nat, i: nat)
    requires i <= n <= |ks|
    ensures PendingBefore(ks[..n], i) == PendingBefore(ks, i)
    decreases i
  {
    if i > 0 {
      assert ks[..n][i - 1] == ks[i - 1];
      PendingPrefix(ks, n, i - 1);
    }
  }

  /**
   * Without its page breaks the manual guide is exactly the sections: one
   * per resolving entry, in order, at level `indent // 4 + 1`, titled by the
   * waiting heading, else the alias, else the target; entries that do not
   * resolve emit nothing.
   */
  lemma {:induction false} BlueprintSections(ks: seq<LineKind>, i: nat)
    requires i <= |ks|
    ensures WithoutBreaks(Blueprint(ks[..i]).lines) == Sections(ks[..i])
    decreases i
  {
    if i > 0 {
      var pre := ks[..i];
      var o := Blueprint(ks[..i - 1]);
      assert pre[..i - 1] == ks[..i - 1];
      assert pre[i - 1] == ks[i - 1];
      assert Blueprint(pre) == Step(o, ks[i - 1]);
      PendingPrefix(ks, i, i - 1);
      assert Sections(pre) == Sections(ks[..i - 1]) + SectionOf(ks[i - 1], PendingBefore(ks, i - 1));
      BlueprintSections(ks, i - 1);
      PendingIsLastHeading(ks, i - 1);
      StepSections(o, ks[i - 1]);
    }
  }

  /**
   * Page breaks sit only between sections: the first line is never one, and
   * each is followed by a top-level section.
   */
  lemma {:induction false} BreaksBeforeTopLevel(ks: seq<LineKind>)
    ensures var ls := Blueprint(ks).lines;
      (ls != [] ==> ls[0] != PageBreak) &&
      (forall k :: 0 <= k < |ls| && ls[k] == PageBreak ==> k + 1 < |ls| && StartsWith(ls[k + 1], "# "))
    decreases |ks|
  {
    if ks != [] {
      var o := Blueprint(ks[..|ks| - 1]);
      BreaksBeforeTopLevel(ks[..|ks| - 1]);
      match ks[|ks| - 1]
      case ListItem(e, Some(p)) =>
        var sec := Section(e.indent, Title(o.pending, e), Name(p));
        SectionIsNotBreak(e.indent, Title(o.pending, e), Name(p));
        if e.indent / 4 == 0 {
          assert sec[..2] == "# ";
        }
      case _ =>
    }
  }

  /** An entry indented by `indent` characters heads a section of level `indent // 4 + 1`. */
  lemma SectionLevel(indent: nat, title: string, name: string)
    ensures var sec := Section(indent, title, name);
      indent / 4 + 1 < |sec| && sec[indent / 4 + 1] == ' ' &&
      forall j :: 0 <= j <= indent / 4 ==> sec[j] == '#'
  {
    var hashes := Repeat('#', indent / 4 + 1);
    assert Section(indent, title, name) == hashes + (" " + title + "\n" + Include(name));
  }

  /** Every line starting a top-level section, other than the first line, follows a page break. */
  predicate BrokenBeforeTop(ls: seq<string>)
  {
    forall k :: 0 < k < |ls| && StartsWith(ls[k], "# ") ==> ls[k - 1] == PageBreak
  }

  lemma PageBreakNotTop()
    ensures !StartsWith(PageBreak, "# ")
  {
    assert PageBreak[0] == '\n';
  }

  /** A section line starts a top-level section exactly when its entry is indented less than four. */
  lemma SectionTopLevel(indent: nat, title: string, name: string)
    ensures StartsWith(Section(indent, title, name), "# ") <==> indent / 4 == 0
  {
    var sec := Section(indent, title, name);
    if indent / 4 == 0 {
      assert sec[..2] == "# ";
    } else {
      assert sec[1] == '#';
    }
  }

  /** Each top-level section after the first line follows a page break. */
  lemma {:induction false} TopLevelAfterBreak(ks: seq<LineKind>)
    ensures BrokenBeforeTop(Blueprint(ks).lines)
    decreases |ks|
  {
    if ks != [] {
      var o := Blueprint(ks[..|ks| - 1]);
      TopLevelAfterBreak(ks[..|ks| - 1]);
      var last := ks[|ks| - 1];
      var ls := Blueprint(ks).lines;
      if last.ListItem? && last.found.Some? {
        var e := last.entry;
        var sec := Section(e.indent, Title(o.pending, e), Name(last.found.value));
        var brk := if e.indent / 4 == 0 && o.lines != [] then [PageBreak] else [];
        assert ls == o.lines + brk + [sec];
        forall k | 0 < k < |ls| && StartsWith(ls[k], "# ")
          ensures ls[k - 1] == PageBreak
        {
          if k < |o.lines| {
            assert ls[k] == o.lines[k] && ls[k - 1] == o.lines[k - 1];
          } else {
            PageBreakNotTop();
            assert k == |ls| - 1 && ls[k] == sec;
            SectionTopLevel(e.indent, Title(o.pending, e), Name(last.found.value));
          }
        }
      } else {
        assert ls == o.lines;
      }
    }
  }

  // ---------------------------------------------------------------------
  // Automatic mode: the structure map

  /** The line `write_node` emits for a note recorded at `depth`. */
  function NodeLine(depth: nat, n: Path): string
  {
    "\n" + Repeat('#', depth + 1) + " " + Stem(Name(n)) + "\n" + Include(Name(n))
  }

  /** A note recorded at `depth` heads a section of level `depth + 1` titled by its stem. */
  lemma NodeLineLevel(depth: nat, n: Path)
    ensures var line := NodeLine(depth, n);
      depth + 2 < |line| && line[0] == '\n' && line[depth + 2] == ' ' &&
      (forall j :: 1 <= j <= depth + 1 ==> line[j] == '#') &&
      line[depth + 3..depth + 3 + |Stem(Name(n))|] == Stem(Name(n))
  {
    var hashes := Repeat('#', depth + 1);
    var line := NodeLine(depth, n);
    assert line == "\n" + hashes + " " + Stem(Name(n)) + ("\n" + Include(Name(n)));
  }

  /** The `processed` set of `write_node` and the order it visits notes in. */
  datatype Emission = Emission(processed: set<Path>, order: seq<Path>)

  /** `write_node(n)`. */
  function Emit(smap: map<Path, Node>, em: Emission, n: Path): (r: Emission)
    ensures em.processed <= r.processed
    decreases smap.Keys - em.processed, 0, 0
  {
    if n in em.processed || n !in smap then em
    else EmitAll(smap, Emission(em.processed + {n}, em.order + [n]), smap[n].children)
  }

  /** `for child in data['children']: write_node(child)`. */
  function EmitAll(smap: map<Path, Node>, em: Emission, cs: seq<Path>): (r: Emission)
    ensures em.processed <= r.processed
    decreases smap.Keys - em.processed, 1, |cs|
  {
    if cs == [] then em else EmitAll(smap, Emit(smap, em, cs[0]), cs[1..])
  }

  /** The lines for notes emitted in `order`: a page break before a depth-0 note that is not first. */
  function StructureLines(smap: map<Path, Node>, order: seq<Path>): seq<string>
    requires forall k :: 0 <= k < |order| ==> order[k] in smap
  {
    if order == [] then []
    else
      var n := order[|order| - 1];
      StructureLines(smap, order[..|order| - 1]) +
        (if smap[n].depth == 0 && |order| > 1 then [PageBreak] else []) + [NodeLine(smap[n].depth, n)]
  }

  /** The emission so far visits each note once, only notes of the map, and `processed` is what it visited. */
  predicate EmissionOk(smap: map<Path, Node>, em: Emission)
  {
    (forall k :: 0 <= k < |em.order| ==> em.order[k] in smap && em.order[k] in em.processed) &&
    (forall k, l :: 0 <= k < l < |em.order| ==> em.order[k] != em.order[l]) &&
    (forall n :: n in em.processed ==> n in em.order)
  }

  /** The visited order only grows at its end. */
  predicate Prefix(a: seq<Path>, b: seq<Path>)
  {
    |a| <= |b| && b[..|a|] == a
  }

  lemma {:induction false} EmitKeeps(smap: map<Path, Node>, em: Emission, n: Path)
    requires EmissionOk(smap, em)
    ensures EmissionOk(smap, Emit(smap, em, n)) && Prefix(em.order, Emit(smap, em, n).order)
    decreases smap.Keys - em.processed, 0, 0
  {
    if !(n in em.processed || n !in smap) {
      var em1 := Emission(em.processed + {n}, em.order + [n]);
      assert n !in em.order;
      assert EmissionOk(smap, em1);
      EmitAllKeeps(smap, em1, smap[n].children);
      var r := Emit(smap, em, n);
      assert r.order[..|em.order|] == r.order[..|em1.order|][..|em.order|];
    }
  }

  lemma {:induction false} EmitAllKeeps(smap: map<Path, Node>, em: Emission, cs: seq<Path>)
    requires EmissionOk(smap, em)
    ensures EmissionOk(smap, EmitAll(smap, em, cs)) && Prefix(em.order, EmitAll(smap, em, cs).order)
    decreases smap.Keys - em.processed, 1, |cs|
  {
    if cs != [] {
      var em1 := Emit(smap, em, cs[0]);
      EmitKeeps(smap, em, cs[0]);
      EmitAllKeeps(smap, em1, cs[1..]);
      var r := EmitAll(smap, em, cs);
      assert r.order[..|em.order|] == r.order[..|em1.order|][..|em.order|];
    }
  }

  /** The notes `_generate_moc_from_structure` writes, in order. */
  function StructureOrder(smap: map<Path, Node>, start: Path): seq<Path>
  {
    Emit(smap, Emission({}, []), start).order
  }

  /**
   * The automatic guide names each note at most once, only notes of the
   * structure map, starting with the start note when it was recorded.
   */
  lemma StructureOrderOk(smap: map<Path, Node>, start: Path)
    ensures var order := StructureOrder(smap, start);
      (forall k :: 0 <= k < |order| ==> order[k] in smap) &&
      (forall k, l :: 0 <= k < l < |order| ==> order[k] != order[l]) &&
      (start in smap <==> order != []) &&
      (start in smap ==> order[0] == start)
  {
    var em0 := Emission({}, []);
    EmitKeeps(smap, em0, start);
    if start in smap {
      var em1 := Emission({start}, [start]);
      assert Emission(em0.processed + {start}, em0.order + [start]) == em1;
      EmitAllKeeps(smap, em1, smap[start].children);
      var order := StructureOrder(smap, start);
      assert order[0] == order[..1][0];
    }
  }

  /** The note at `l` is recorded and links to the note at `k`. */
  predicate ParentAt(smap: map<Path, Node>, order: seq<Path>, k: nat, l: nat)
    requires l < k < |order|
  {
    order[l] in smap && order[k] in smap[order[l]].children
  }

  /** Some note written before position `k` links to the note at `k`. */
  predicate HasParent(smap: map<Path, Node>, order: seq<Path>, k: nat)
    requires k < |order|
  {
    exists l :: 0 <= l < k && ParentAt(smap, order, k, l)
  }

  /** Every note written after the first is a child of a note written before it. */
  predicate Parented(smap: map<Path, Node>, order: seq<Path>)
  {
    forall k :: 0 < k < |order| ==> HasParent(smap, order, k)
  }

  /** Parented survives appending a child of an element already written. */
  lemma ParentedSnoc(smap: map<Path, Node>, order: seq<Path>, n: Path, l: nat)
    requires Parented(smap, order)
    requires l < |order| && order[l] in smap && n in smap[order[l]].children
    ensures Parented(smap, order + [n])
  {
    var o := order + [n];
    forall k | 0 < k < |o| ensures HasParent(smap, o, k) {
      if k < |order| {
        assert HasParent(smap, order, k);
        var l' :| 0 <= l' < k && ParentAt(smap, order, k, l');
        assert ParentAt(smap, o, k, l');
      } else {
        assert ParentAt(smap, o, k, l);
      }
    }
  }

  lemma {:induction false} EmitParented(smap: map<Path, Node>, em: Emission, n: Path, l: int)
    requires EmissionOk(smap, em) && Parented(smap, em.order)
    requires (l == -1 && em.order == []) || (0 <= l < |em.order| && em.order[l] in smap && n in smap[em.order[l]].children)
    ensures Parented(smap, Emit(smap, em, n).order)
    decreases smap.Keys - em.processed, 0, 0
  {
    if !(n in em.processed || n !in smap) {
      var em1 := Emission(em.processed + {n}, em.order + [n]);
      if l >= 0 {
        ParentedSnoc(smap, em.order, n, l);
      }
      assert n !in em.order;
      assert EmissionOk(smap, em1);
      EmitAllParented(smap, em1, smap[n].children, |em.order|);
    }
  }

  lemma {:induction false} EmitAllParented(smap: map<Path, Node>, em: Emission, cs: seq<Path>, l: nat)
    requires EmissionOk(smap, em) && Parented(smap, em.order)
    requires l < |em.order| && em.order[l] in smap
    requires forall k :: 0 <= k < |cs| ==> cs[k] in smap[em.order[l]].children
    ensures Parented(smap, EmitAll(smap, em, cs).order)
    decreases smap.Keys - em.processed, 1, |cs|
  {
    if cs != [] {
      var em1 := Emit(smap, em, cs[0]);
      EmitParented(smap, em, cs[0], l);
      EmitKeeps(smap, em, cs[0]);
      assert em1.order[l] == em1.order[..|em.order|][l];
      assert forall k :: 0 <= k < |cs[1..]| ==> cs[1..][k] in smap[em1.order[l]].children;
      EmitAllParented(smap, em1, cs[1..], l);
    }
  }

  /** Every note written to the automatic guide after the start note is linked from one written earlier. */
  lemma StructureOrderParented(smap: map<Path, Node>, start: Path)
    ensures Parented(smap, StructureOrder(smap, start))
  {
    EmitParented(smap, Emission({}, []), start, -1);
  }

  // ---------------------------------------------------------------------
  // The order of the automatic guide is depth first

  /** The recorded children of `n`, none when `n` is not recorded. */
  function Kids(smap: map<Path, Node>, n: Path): seq<Path>
  {
    if n in smap then smap[n].children else []
  }

  /** A child needs no visit: it is not recorded, or it was written already. */
  predicate Handled(smap: map<Path, Node>, w: seq<Path>, c: Path)
  {
    c !in smap || c in w
  }

  predicate HandledUpTo(smap: map<Path, Node>, w: seq<Path>, cs: seq<Path>, j: nat)
    requires j <= |cs|
  {
    forall i :: 0 <= i < j ==> Handled(smap, w, cs[i])
  }

  /** The note written at position `p` has no child left to visit. */
  predicate Done(smap: map<Path, Node>, w: seq<Path>, p: nat)
    requires p < |w|
  {
    HandledUpTo(smap, w, Kids(smap, w[p]), |Kids(smap, w[p])|)
  }

  /** The first child in `cs` that still needs a visit. */
  function FirstUnwritten(smap: map<Path, Node>, cs: seq<Path>, w: seq<Path>): Option<Path>
  {
    if cs == [] then None
    else if !Handled(smap, w, cs[0]) then Some(cs[0])
    else FirstUnwritten(smap, cs[1..], w)
  }

  /** Scanning the notes before position `l` from the latest back, the first child still needing a visit. */
  function NextAt(smap: map<Path, Node>, w: seq<Path>, l: nat): Option<Path>
    requires l <= |w|
  {
    if l == 0 then None
    else
      var f := FirstUnwritten(smap, Kids(smap, w[l - 1]), w);
      if f.Some? then f else NextAt(smap, w, l - 1)
  }

  /**
   * The depth-first successor of the notes written so far: the first
   * unvisited child of the latest written note that still has one, or
   * nothing when every written note is finished.
   */
  function Next(smap: map<Path, Node>, w: seq<Path>): Option<Path>
  {
    NextAt(smap, w, |w|)
  }

  /** The note written at position `k` is the depth-first successor of those before it. */
  predicate NextIs(smap: map<Path, Node>, w: seq<Path>, k: nat)
    requires k < |w|
  {
    Next(smap, w[..k]) == Some(w[k])
  }

  /** Every note written from position `a` on is the depth-first successor of those before it. */
  predicate FollowsRule(smap: map<Path, Node>, w: seq<Path>, a: nat)
  {
    forall k :: a <= k < |w| ==> NextIs(smap, w, k)
  }

  /** A call of `write_node` in progress: the position of its note and the index of its next child. */
  datatype Frame = Frame(pos: nat, next: nat)

  predicate FrameOk(smap: map<Path, Node>, w: seq<Path>, f: Frame)
  {
    f.pos < |w| && f.next <= |Kids(smap, w[f.pos])| && HandledUpTo(smap, w, Kids(smap, w[f.pos]), f.next)
  }

  predicate OnStack(st: seq<Frame>, p: nat)
  {
    exists i :: 0 <= i < |st| && st[i].pos == p
  }

  /**
   * The calls in progress, outermost first: each has handled the children
   * before its index, they were started in order, and every other written
   * note is finished.
   */
  predicate StackOk(smap: map<Path, Node>, w: seq<Path>, st: seq<Frame>)
  {
    (forall i :: 0 <= i < |st| ==> FrameOk(smap, w, st[i])) &&
    (forall i, i' :: 0 <= i < i' < |st| ==> st[i].pos < st[i'].pos) &&
    (forall p :: 0 <= p < |w| && !OnStack(st, p) ==> Done(smap, w, p))
  }

  function SetTop(st: seq<Frame>, f: Frame): seq<Frame>
    requires st != []
  {
    st[..|st| - 1] + [f]
  }

  lemma {:induction false} FirstUnwrittenAt(smap: map<Path, Node>, cs: seq<Path>, w: seq<Path>, j: nat)
    requires j < |cs| && HandledUpTo(smap, w, cs, j) && !Handled(smap, w, cs[j])
    ensures FirstUnwritten(smap, cs, w) == Some(cs[j])
    decreases j
  {
    if j > 0 {
      assert Handled(smap, w, cs[0]);
      FirstUnwrittenAt(smap, cs[1..], w, j - 1);
    }
  }

  lemma {:induction false} FirstUnwrittenNone(smap: map<Path, Node>, cs: seq<Path>, w: seq<Path>)
    requires HandledUpTo(smap, w, cs, |cs|)
    ensures FirstUnwritten(smap, cs, w) == None
    decreases |cs|
  {
    if cs != [] {
      assert Handled(smap, w, cs[0]);
      FirstUnwrittenNone(smap, cs[1..], w);
    }
  }

  /** Finished notes are skipped by the scan. */
  lemma {:induction false} NextAtDone(smap: map<Path, Node>, w: seq<Path>, lo: nat, l: nat)
    requires lo <= l <= |w|
    requires forall p :: lo <= p < l ==> Done(smap, w, p)
    ensures NextAt(smap, w, l) == NextAt(smap, w, lo)
    decreases l
  {
    if l > lo {
      assert Done(smap, w, l - 1);
      FirstUnwrittenNone(smap, Kids(smap, w[l - 1]), w);
      NextAtDone(smap, w, lo, l - 1);
    }
  }

  /** No call in progress sits after the innermost one. */
  lemma StackBelowTop(st: seq<Frame>)
    requires st != [] && forall i, i' :: 0 <= i < i' < |st| ==> st[i].pos < st[i'].pos
    ensures forall i :: 0 <= i < |st| ==> st[i].pos <= st[|st| - 1].pos
  {
    forall i | 0 <= i < |st| - 1 ensures st[i].pos < st[|st| - 1].pos {
    }
  }

  /** The successor is the next unvisited child of the innermost call in progress. */
  lemma NextIsTopChild(smap: map<Path, Node>, w: seq<Path>, st: seq<Frame>)
    requires StackOk(smap, w, st) && st != []
    requires var f := st[|st| - 1];
      f.pos < |w| && f.next < |Kids(smap, w[f.pos])| && !Handled(smap, w, Kids(smap, w[f.pos])[f.next])
    ensures var f := st[|st| - 1];
      Next(smap, w) == Some(Kids(smap, w[f.pos])[f.next])
  {
    var f := st[|st| - 1];
    StackBelowTop(st);
    forall p | f.pos < p < |w| ensures Done(smap, w, p) {
      assert !OnStack(st, p);
    }
    NextAtDone(smap, w, f.pos + 1, |w|);
    assert FrameOk(smap, w, f);
    FirstUnwrittenAt(smap, Kids(smap, w[f.pos]), w, f.next);
  }

  /** When every written note is finished there is no successor. */
  lemma NextFinished(smap: map<Path, Node>, w: seq<Path>)
    requires StackOk(smap, w, [])
    ensures Next(smap, w) == None
  {
    forall p | 0 <= p < |w| ensures Done(smap, w, p) {
      assert !OnStack([], p);
    }
    NextAtDone(smap, w, 0, |w|);
  }

  /** The innermost call skips a child that needs no visit. */
  lemma StackAdvance(smap: map<Path, Node>, w: seq<Path>, st: seq<Frame>)
    requires StackOk(smap, w, st) && st != []
    requires var f := st[|st| - 1];
      f.pos < |w| && f.next < |Kids(smap, w[f.pos])| && Handled(smap, w, Kids(smap, w[f.pos])[f.next])
    ensures var f := st[|st| - 1];
      StackOk(smap, w, SetTop(st, Frame(f.pos, f.next + 1)))
  {
    var f := st[|st| - 1];
    var st' := SetTop(st, Frame(f.pos, f.next + 1));
    assert FrameOk(smap, w, f);
    forall p | 0 <= p < |w| && !OnStack(st', p) ensures Done(smap, w, p) {
      forall i | 0 <= i < |st| ensures st[i].pos != p {
        assert st'[i].pos == st[i].pos;
      }
      assert !OnStack(st, p);
    }
  }

  /** Whatever was handled stays handled as more notes are written. */
  lemma HandledGrow(smap: map<Path, Node>, w: seq<Path>, w': seq<Path>, cs: seq<Path>, j: nat)
    requires j <= |cs| && Prefix(w, w') && HandledUpTo(smap, w, cs, j)
    ensures HandledUpTo(smap, w', cs, j)
  {
    forall i | 0 <= i < j ensures Handled(smap, w', cs[i]) {
      if cs[i] in smap {
        var k :| 0 <= k < |w| && w[k] == cs[i];
        assert w'[k] == w[k];
      }
    }
  }

  lemma FrameGrow(smap: map<Path, Node>, w: seq<Path>, w': seq<Path>, f: Frame)
    requires Prefix(w, w') && FrameOk(smap, w, f)
    ensures FrameOk(smap, w', f)
  {
    assert w'[f.pos] == w[f.pos];
    HandledGrow(smap, w, w', Kids(smap, w[f.pos]), f.next);
  }

  lemma DoneGrow(smap: map<Path, Node>, w: seq<Path>, w': seq<Path>, p: nat)
    requires Prefix(w, w') && p < |w| && Done(smap, w, p)
    ensures Done(smap, w', p)
  {
    assert w'[p] == w[p];
    HandledGrow(smap, w, w', Kids(smap, w[p]), |Kids(smap, w[p])|);
  }

  /** The frames of a stack, each well formed. */
  predicate FramesOk(smap: map<Path, Node>, w: seq<Path>, st: seq<Frame>)
  {
    forall i :: 0 <= i < |st| ==> FrameOk(smap, w, st[i])
  }

  /** The frames after a push are well formed. */
  lemma PushFrames(smap: map<Path, Node>, w: seq<Path>, st: seq<Frame>, n: Path)
    requires FramesOk(smap, w, st) && st != []
    requires var f := st[|st| - 1];
      f.pos < |w| && f.next < |Kids(smap, w[f.pos])| && Kids(smap, w[f.pos])[f.next] == n
    ensures var f := st[|st| - 1];
      FramesOk(smap, w + [n], SetTop(st, Frame(f.pos, f.next + 1)) + [Frame(|w|, 0)])
  {
    var f := st[|st| - 1];
    var w' := w + [n];
    var st' := SetTop(st, Frame(f.pos, f.next + 1)) + [Frame(|w|, 0)];
    assert Prefix(w, w');
    forall i | 0 <= i < |st| - 1 ensures FrameOk(smap, w', st'[i]) {
      assert st'[i] == st[i];
      FrameGrow(smap, w, w', st[i]);
    }
    assert FrameOk(smap, w, f);
    FrameGrow(smap, w, w', f);
    assert w'[f.pos] == w[f.pos] && w'[|w|] == n;
    assert FrameOk(smap, w', st'[|st| - 1]);
    assert FrameOk(smap, w', st'[|st|]);
  }

  /** The positions after a push still increase. */
  lemma PushOrdered(st: seq<Frame>, f': Frame, g: Frame)
    requires st != [] && forall i, i' :: 0 <= i < i' < |st| ==> st[i].pos < st[i'].pos
    requires f'.pos == st[|st| - 1].pos < g.pos
    ensures var st' := SetTop(st, f') + [g];
      forall i, i' :: 0 <= i < i' < |st'| ==> st'[i].pos < st'[i'].pos
  {
    var st' := SetTop(st, f') + [g];
    StackBelowTop(st);
    forall i, i' | 0 <= i < i' < |st'| ensures st'[i].pos < st'[i'].pos {
      if i' < |st| - 1 {
        assert st'[i] == st[i] && st'[i'] == st[i'];
      } else if i' == |st| - 1 {
        assert st'[i] == st[i];
      } else if i < |st| - 1 {
        assert st'[i] == st[i];
      }
    }
  }

  /** The innermost call starts `write_node` on its next child, which is written now. */
  lemma StackPush(smap: map<Path, Node>, w: seq<Path>, st: seq<Frame>, n: Path)
    requires StackOk(smap, w, st) && st != []
    requires var f := st[|st| - 1];
      f.pos < |w| && f.next < |Kids(smap, w[f.pos])| && Kids(smap, w[f.pos])[f.next] == n
    ensures var f := st[|st| - 1];
      StackOk(smap, w + [n], SetTop(st, Frame(f.pos, f.next + 1)) + [Frame(|w|, 0)])
  {
    var f := st[|st| - 1];
    var w' := w + [n];
    var st' := SetTop(st, Frame(f.pos, f.next + 1)) + [Frame(|w|, 0)];
    assert FramesOk(smap, w, st);
    PushFrames(smap, w, st, n);
    assert FrameOk(smap, w, f);
    PushOrdered(st, Frame(f.pos, f.next + 1), Frame(|w|, 0));
    assert Prefix(w, w');
    forall p | 0 <= p < |w'| && !OnStack(st', p) ensures Done(smap, w', p) {
      assert st'[|st|].pos == |w|;
      forall i | 0 <= i < |st| ensures st[i].pos != p {
        assert st'[i].pos == st[i].pos;
      }
      assert !OnStack(st, p);
      DoneGrow(smap, w, w', p);
    }
  }

  /** A call that has gone through all its children returns, its note finished. */
  lemma StackPop(smap: map<Path, Node>, w: seq<Path>, st: seq<Frame>)
    requires StackOk(smap, w, st) && st != []
    requires var f := st[|st| - 1]; f.pos < |w| && f.next == |Kids(smap, w[f.pos])|
    ensures StackOk(smap, w, st[..|st| - 1])
  {
    var f := st[|st| - 1];
    var st' := st[..|st| - 1];
    assert FrameOk(smap, w, f);
    forall p | 0 <= p < |w| && !OnStack(st', p) ensures Done(smap, w, p) {
      if p != f.pos {
        forall i | 0 <= i < |st| ensures st[i].pos != p {
          if i < |st| - 1 {
            assert st'[i] == st[i];
          }
        }
        assert !OnStack(st, p);
      }
    }
  }

  /** The rule holds across an extension whose new part follows it. */
  lemma RuleJoin(smap: map<Path, Node>, u: seq<Path>, v: seq<Path>, i: nat)
    requires i <= |u| && Prefix(u, v)
    requires FollowsRule(smap, u, i) && FollowsRule(smap, v, |u|)
    ensures FollowsRule(smap, v, i)
  {
    forall k | i <= k < |u| ensures NextIs(smap, v, k) {
      assert NextIs(smap, u, k);
      assert v[..k] == u[..k] && v[k] == u[k];
    }
  }

  /** Before `write_node(n)` recurses: `n` is the successor, and it is written with a call of its own in progress. */
  lemma EmitEnter(smap: map<Path, Node>, em: Emission, n: Path, st: seq<Frame>)
    requires EmissionOk(smap, em) && StackOk(smap, em.order, st) && st != []
    requires var f := st[|st| - 1];
      f.pos < |em.order| && f.next < |Kids(smap, em.order[f.pos])| && Kids(smap, em.order[f.pos])[f.next] == n
    requires n !in em.processed && n in smap
    ensures var f := st[|st| - 1]; var w := em.order;
      Next(smap, w) == Some(n) &&
      EmissionOk(smap, Emission(em.processed + {n}, w + [n])) &&
      StackOk(smap, w + [n], SetTop(st, Frame(f.pos, f.next + 1)) + [Frame(|w|, 0)]) &&
      smap[n].children == Kids(smap, (w + [n])[|w|])[0..]
  {
    var w := em.order;
    assert n !in w;
    NextIsTopChild(smap, w, st);
    StackPush(smap, w, st, n);
    assert EmissionOk(smap, Emission(em.processed + {n}, w + [n]));
  }

  /** After `write_node(n)` has gone through the children of `n`: its call returns. */
  lemma EmitLeave(smap: map<Path, Node>, w: seq<Path>, n: Path, st1: seq<Frame>, v: seq<Path>)
    requires Next(smap, w) == Some(n) && Prefix(w + [n], v)
    requires FollowsRule(smap, v, |w| + 1)
    requires StackOk(smap, v, SetTop(st1 + [Frame(|w|, 0)], Frame(|w|, |Kids(smap, n)|)))
    ensures FollowsRule(smap, v, |w|) && StackOk(smap, v, st1)
  {
    var st2 := SetTop(st1 + [Frame(|w|, 0)], Frame(|w|, |Kids(smap, n)|));
    assert st2[..|st2| - 1] == st1;
    assert v[|w|] == (w + [n])[|w|] == n;
    StackPop(smap, v, st2);
    assert (w + [n])[..|w|] == w;
    assert NextIs(smap, w + [n], |w|);
    RuleJoin(smap, w + [n], v, |w|);
  }

  /**
   * `write_node(n)` called by the innermost call in progress on its next
   * child writes each note as the depth-first successor of those before it,
   * and leaves that call one child further on.
   */
  lemma {:induction false} EmitDepthFirst(smap: map<Path, Node>, em: Emission, n: Path, st: seq<Frame>)
    requires EmissionOk(smap, em) && StackOk(smap, em.order, st) && st != []
    requires var f := st[|st| - 1];
      f.pos < |em.order| && f.next < |Kids(smap, em.order[f.pos])| && Kids(smap, em.order[f.pos])[f.next] == n
    ensures var r := Emit(smap, em, n); var f := st[|st| - 1];
      FollowsRule(smap, r.order, |em.order|) && StackOk(smap, r.order, SetTop(st, Frame(f.pos, f.next + 1)))
    decreases smap.Keys - em.processed, 0, 0
  {
    var w := em.order;
    var f := st[|st| - 1];
    var st1 := SetTop(st, Frame(f.pos, f.next + 1));
    if n in em.processed || n !in smap {
      StackAdvance(smap, w, st);
    } else {
      EmitEnter(smap, em, n, st);
      EmitChildren(smap, Emission(em.processed + {n}, w + [n]), w, n, st1);
    }
  }

  /** The body of `write_node(n)` once `n` is written: its children, then its return. */
  lemma {:induction false} EmitChildren(smap: map<Path, Node>, em1: Emission, w: seq<Path>, n: Path, st1: seq<Frame>)
    requires n in smap && em1.order == w + [n] && Next(smap, w) == Some(n)
    requires EmissionOk(smap, em1) && StackOk(smap, em1.order, st1 + [Frame(|w|, 0)])
    requires smap[n].children == Kids(smap, em1.order[|w|])[0..]
    ensures var r := EmitAll(smap, em1, smap[n].children);
      FollowsRule(smap, r.order, |w|) && StackOk(smap, r.order, st1)
    decreases smap.Keys - em1.processed, 2, 0
  {
    EmitAllDepthFirst(smap, em1, smap[n].children, st1 + [Frame(|w|, 0)]);
    EmitAllKeeps(smap, em1, smap[n].children);
    EmitLeave(smap, w, n, st1, EmitAll(smap, em1, smap[n].children).order);
  }

  /** The loop over the children moves on to the next one. */
  lemma EmitAllNext(smap: map<Path, Node>, em: Emission, em1: Emission, cs: seq<Path>, st: seq<Frame>)
    requires st != [] && cs != []
    requires var f := st[|st| - 1];
      f.pos < |em.order| && f.next <= |Kids(smap, em.order[f.pos])| && cs == Kids(smap, em.order[f.pos])[f.next..]
    requires Prefix(em.order, em1.order)
    ensures var f := st[|st| - 1]; var st1 := SetTop(st, Frame(f.pos, f.next + 1));
      cs[0] == Kids(smap, em.order[f.pos])[f.next] &&
      st1[|st1| - 1].pos < |em1.order| && em1.order[f.pos] == em.order[f.pos] &&
      cs[1..] == Kids(smap, em1.order[st1[|st1| - 1].pos])[st1[|st1| - 1].next..] &&
      SetTop(st1, Frame(f.pos, |Kids(smap, em.order[f.pos])|)) == SetTop(st, Frame(f.pos, |Kids(smap, em.order[f.pos])|))
  {
    var f := st[|st| - 1];
    assert em1.order[f.pos] == em1.order[..|em.order|][f.pos];
  }

  lemma {:induction false} EmitAllDepthFirst(smap: map<Path, Node>, em: Emission, cs: seq<Path>, st: seq<Frame>)
    requires EmissionOk(smap, em) && StackOk(smap, em.order, st) && st != []
    requires var f := st[|st| - 1];
      f.pos < |em.order| && f.next <= |Kids(smap, em.order[f.pos])| && cs == Kids(smap, em.order[f.pos])[f.next..]
    ensures var r := EmitAll(smap, em, cs); var f := st[|st| - 1];
      FollowsRule(smap, r.order, |em.order|) &&
      StackOk(smap, r.order, SetTop(st, Frame(f.pos, |Kids(smap, em.order[f.pos])|)))
    decreases smap.Keys - em.processed, 1, |cs|
  {
    var f := st[|st| - 1];
    if cs == [] {
      assert SetTop(st, Frame(f.pos, |Kids(smap, em.order[f.pos])|)) == st;
    } else {
      var em1 := Emit(smap, em, cs[0]);
      var st1 := SetTop(st, Frame(f.pos, f.next + 1));
      EmitKeeps(smap, em, cs[0]);
      EmitAllNext(smap, em, em1, cs, st);
      EmitDepthFirst(smap, em, cs[0], st);
      EmitAllDepthFirst(smap, em1, cs[1..], st1);
      EmitAllKeeps(smap, em1, cs[1..]);
      RuleJoin(smap, em1.order, EmitAll(smap, em1, cs[1..]).order, |em.order|);
    }
  }

  /**
   * `_generate_moc_from_structure` writes the notes in depth-first order
   * from the start note: after the start note, each note written is the
   * first unwritten recorded child of the latest written note that still
   * has one, and when writing stops no written note has one left.
   */
  lemma StructureOrderDepthFirst(smap: map<Path, Node>, start: Path)
    ensures var order := StructureOrder(smap, start);
      (start in smap ==> order != [] && order[0] == start) &&
      (forall k :: 1 <= k < |order| ==> Next(smap, order[..k]) == Some(order[k])) &&
      Next(smap, order) == None
  {
    var order := StructureOrder(smap, start);
    StructureOrderOk(smap, start);
    if start in smap {
      var em1 := Emission({start}, [start]);
      var st := [Frame(0, 0)];
      assert Emission({} + {start}, [] + [start]) == em1;
      assert FrameOk(smap, em1.order, st[0]);
      assert StackOk(smap, em1.order, st);
      assert Kids(smap, start)[0..] == smap[start].children;
      EmitAllDepthFirst(smap, em1, smap[start].children, st);
      assert SetTop(st, Frame(0, |Kids(smap, em1.order[0])|)) == [Frame(0, |Kids(smap, start)|)];
      StackPop(smap, order, [Frame(0, |Kids(smap, start)|)]);
      assert [Frame(0, |Kids(smap, start)|)][..0] == [];
      NextFinished(smap, order);
      forall k | 1 <= k < |order| ensures Next(smap, order[..k]) == Some(order[k]) {
        assert NextIs(smap, order, k);
      }
    }
  }

  /** Every child of `m` that is recorded in `smap` lies in `done`. */
  predicate ChildrenIn(smap: map<Path, Node>, m: Path, done: set<Path>)
  {
    m in smap ==> forall k :: 0 <= k < |smap[m].children| && smap[m].children[k] in smap ==> smap[m].children[k] in done
  }

  lemma ChildrenInGrow(smap: map<Path, Node>, m: Path, a: set<Path>, b: set<Path>)
    requires a <= b && ChildrenIn(smap, m, a)
    ensures ChildrenIn(smap, m, b)
  {
  }

  /**
   * `write_node(n)` leaves `n` processed, and every note it processes has
   * its recorded children processed by the time it returns.
   */
  lemma {:induction false} EmitCloses(smap: map<Path, Node>, em: Emission, n: Path)
    ensures var r := Emit(smap, em, n);
      (n in smap ==> n in r.processed) &&
      forall m :: m in r.processed - em.processed ==> ChildrenIn(smap, m, r.processed)
    decreases smap.Keys - em.processed, 0, 0
  {
    if !(n in em.processed || n !in smap) {
      var em1 := Emission(em.processed + {n}, em.order + [n]);
      EmitAllCloses(smap, em1, smap[n].children);
    }
  }

  lemma {:induction false} EmitAllCloses(smap: map<Path, Node>, em: Emission, cs: seq<Path>)
    ensures var r := EmitAll(smap, em, cs);
      (forall k :: 0 <= k < |cs| && cs[k] in smap ==> cs[k] in r.processed) &&
      forall m :: m in r.processed - em.processed ==> ChildrenIn(smap, m, r.processed)
    decreases smap.Keys - em.processed, 1, |cs|
  {
    if cs != [] {
      var em1 := Emit(smap, em, cs[0]);
      var r := EmitAll(smap, em, cs);
      EmitCloses(smap, em, cs[0]);
      EmitAllCloses(smap, em1, cs[1..]);
      forall m | m in em1.processed - em.processed ensures ChildrenIn(smap, m, r.processed) {
        ChildrenInGrow(smap, m, em1.processed, r.processed);
      }
      forall k | 0 < k < |cs| && cs[k] in smap ensures cs[k] in r.processed {
        assert cs[k] == cs[1..][k - 1];
      }
    }
  }

  /**
   * When `done` holds the start note and is closed under recorded links,
   * it holds every recorded note at `depth` that is linked from one level
   * above (as every note but the start note is after the walk).
   */
  lemma {:induction false} ClosedHoldsDepth(smap: map<Path, Node>, start: Path, done: set<Path>, depth: nat)
    requires forall n :: n in smap && n != start ==> LinkedFromAbove(smap, n)
    requires start in smap ==> start in done
    requires forall m :: m in done ==> ChildrenIn(smap, m, done)
    ensures forall n :: n in smap && smap[n].depth == depth ==> n in done
    decreases depth
  {
    forall n | n in smap && smap[n].depth == depth ensures n in done {
      if n != start {
        assert LinkedFromAbove(smap, n);
        var q :| q in smap && n in smap[q].children && smap[q].depth + 1 == smap[n].depth;
        ClosedHoldsDepth(smap, start, done, depth - 1);
        assert ChildrenIn(smap, q, done);
        var k :| 0 <= k < |smap[q].children| && smap[q].children[k] == n;
      }
    }
  }

  /**
   * The automatic guide is complete: every note the walk from the start
   * note recorded is written, since each is reached from the start note
   * along recorded links.
   */
  lemma StructureComplete(env: Env, start: Path)
    ensures var smap := Collect(env, start).smap;
      forall n :: n in smap ==> n in StructureOrder(smap, start)
  {
    var smap := Collect(env, start).smap;
    var r := Emit(smap, Emission({}, []), start);
    EmitKeeps(smap, Emission({}, []), start);
    EmitCloses(smap, Emission({}, []), start);
    CollectParents(env, start);
    assert forall n :: n in smap && n != start ==> LinkedFromAbove(smap, n);
    forall n | n in smap ensures n in StructureOrder(smap, start) {
      ClosedHoldsDepth(smap, start, r.processed, smap[n].depth);
    }
  }

  /** The automatic guide written after the walk from the start note has no page break. */
  lemma AutomaticGuideHasNoBreak(env: Env, start: Path)
    ensures var smap := Collect(env, start).smap;
      var order := StructureOrder(smap, start);
      (forall k :: 0 <= k < |order| ==> order[k] in smap) &&
      PageBreak !in StructureLines(smap, order)
  {
    var smap := Collect(env, start).smap;
    var order := StructureOrder(smap, start);
    CollectShape(env, start);
    StructureOrderOk(smap, start);
    forall k | 0 < k < |order| ensures smap[order[k]].depth >= 1 {
      assert order[k] != order[0];
    }
    NoBreakBelowStart(smap, order);
  }

  /**
   * When only the first note written lies at depth 0 (as after the walk
   * from the start note), the automatic guide has no page break.
   */
  lemma {:induction false} NoBreakBelowStart(smap: map<Path, Node>, order: seq<Path>)
    requires forall k :: 0 <= k < |order| ==> order[k] in smap
    requires forall k :: 0 < k < |order| ==> smap[order[k]].depth >= 1
    ensures PageBreak !in StructureLines(smap, order)
    decreases |order|
  {
    if order != [] {
      var init := order[..|order| - 1];
      NoBreakBelowStart(smap, init);
      var n := order[|order| - 1];
      assert NodeLine(smap[n].depth, n)[1] == '#';
    }
  }

  /** The heading of every written note is one level below its recorded depth. */
  lemma {:induction false} StructureLevels(smap: map<Path, Node>, order: seq<Path>)
    requires forall k :: 0 <= k < |order| ==> order[k] in smap
    requires forall k :: 0 < k < |order| ==> smap[order[k]].depth >= 1
    ensures |StructureLines(smap, order)| == |order|
    ensures forall k :: 0 <= k < |order| ==> StructureLines(smap, order)[k] == NodeLine(smap[order[k]].depth, order[k])
    decreases |order|
  {
    if order != [] {
      var init := order[..|order| - 1];
      var n := order[|order| - 1];
      StructureLevels(smap, init);
      var ls := StructureLines(smap, order);
      assert ls == StructureLines(smap, init) + [NodeLine(smap[n].depth, n)];
      forall k | 0 <= k < |order| ensures ls[k] == NodeLine(smap[order[k]].depth, order[k]) {
        if k < |init| {
          assert ls[k] == StructureLines(smap, init)[k] && init[k] == order[k];
        } else {
          assert k == |init| && ls[k] == NodeLine(smap[n].depth, n);
        }
      }
    }
  }
}
