/**
 * The exporter object: the vault index built once, the at-most-once
 * flattening of notes into the notes folder, the two ways of choosing the
 * notes to export, and the writing of the guide.
 */
module Exporter {
  import opened Wrappers
  import opened Text
  import opened Paths
  import opened Links
  import VaultIndex
  import opened Flatten
  import opened Traversal
  import opened Config
  import opened Guide
  import FrontMatter

  /** The file name of the guide in the notes folder. */
  const GuideName: string := "_MOC_Guide.md"

  /** The linked notes of a body prefix grow by the contribution of the next segment. */
  lemma LinkedNotesSnoc(res: VaultIndex.Resolver, gs: seq<Segment>, i: nat)
    requires i < |gs|
    ensures LinkedNotes(res, gs[..i + 1]) == LinkedNotes(res, gs[..i]) +
      (if LinkedNote(res, gs[i]).Some? then [LinkedNote(res, gs[i]).value] else [])
  {
    var os := LinkedOptions(res, gs[..i + 1]);
    assert os[..i] == LinkedOptions(res, gs[..i]);
  }

  /** The text and copies of a rewrite prefix grow by the next rewrite. */
  lemma RewritesSnoc(ws: seq<Rewrite>, i: nat)
    requires i < |ws|
    ensures Texts(ws[..i + 1]) == Texts(ws[..i]) + ws[i].text
    ensures Copies(ws[..i + 1]) == Copies(ws[..i]) + (if ws[i].copy.Some? then [ws[i].copy.value] else [])
  {
    assert ws[..i + 1] == ws[..i] + [ws[i]];
    RewritesAppend(ws[..i], [ws[i]]);
    assert [ws[i]][1..] == [];
  }

  /** Writing a new note of the map appends its page break (if any) and its line. */
  lemma StructureLinesSnoc(smap: map<Path, Node>, order: seq<Path>, n: Path)
    requires forall k :: 0 <= k < |order| ==> order[k] in smap
    requires n in smap
    ensures forall k :: 0 <= k < |order + [n]| ==> (order + [n])[k] in smap
    ensures StructureLines(smap, order + [n]) == StructureLines(smap, order) +
      (if smap[n].depth == 0 && StructureLines(smap, order) != [] then [PageBreak] else []) + [NodeLine(smap[n].depth, n)]
  {
    assert (order + [n])[..|order|] == order;
  }

  /** Writing a note not yet processed keeps the emission well formed. */
  lemma EmissionSnoc(smap: map<Path, Node>, em: Emission, n: Path)
    requires EmissionOk(smap, em) && n !in em.processed && n in smap
    ensures EmissionOk(smap, Emission(em.processed + {n}, em.order + [n]))
    ensures Emit(smap, em, n) == EmitAll(smap, Emission(em.processed + {n}, em.order + [n]), smap[n].children)
  {
    assert n !in em.order;
  }

  /** One turn of the loop over a node's children. */
  lemma EmitAllStep(smap: map<Path, Node>, em: Emission, cs: seq<Path>, i: nat)
    requires i < |cs|
    ensures EmitAll(smap, em, cs[i..]) == EmitAll(smap, Emit(smap, em, cs[i]), cs[i + 1..])
  {
    assert cs[i..][1..] == cs[i + 1..];
  }

  /**
   * `write_node(n)` with the closure's `processed` set and `final_moc_lines`;
   * the ghost `order` is the sequence of notes written so far.
   */
  method WriteNode(smap: map<Path, Node>, processed: set<Path>, lines: seq<string>, ghost order: seq<Path>, n: Path)
    returns (processed': set<Path>, lines': seq<string>, ghost order': seq<Path>)
    requires EmissionOk(smap, Emission(processed, order)) && lines == StructureLines(smap, order)
    ensures EmissionOk(smap, Emission(processed', order'))
    ensures Emission(processed', order') == Emit(smap, Emission(processed, order), n)
    ensures lines' == StructureLines(smap, order')
    ensures processed' == Emit(smap, Emission(processed, order), n).processed
    ensures lines' == StructureLines(smap, Emit(smap, Emission(processed, order), n).order)
    decreases smap.Keys - processed, 0
  {
    if n in processed || n !in smap {
      return processed, lines, order;
    }
    var data := smap[n];
    EmissionSnoc(smap, Emission(processed, order), n);
    StructureLinesSnoc(smap, order, n);
    processed' := processed + {n};
    order' := order + [n];
    lines' := lines;
    if data.depth == 0 && lines' != [] {
      lines' := lines' + [PageBreak];
    }
    lines' := lines' + [NodeLine(data.depth, n)];
    assert lines' == StructureLines(smap, order');
    processed', lines', order' := WriteChildren(smap, processed', lines', order', data.children);
  }

  /** The loop `for child in data['children']: write_node(child)`. */
  method WriteChildren(smap: map<Path, Node>, processed: set<Path>, lines: seq<string>, ghost order: seq<Path>, children: seq<Path>)
    returns (processed': set<Path>, lines': seq<string>, ghost order': seq<Path>)
    requires EmissionOk(smap, Emission(processed, order)) && lines == StructureLines(smap, order)
    ensures EmissionOk(smap, Emission(processed', order'))
    ensures Emission(processed', order') == EmitAll(smap, Emission(processed, order), children)
    ensures lines' == StructureLines(smap, order')
    ensures processed' == EmitAll(smap, Emission(processed, order), children).processed
    ensures lines' == StructureLines(smap, EmitAll(smap, Emission(processed, order), children).order)
    decreases smap.Keys - processed, 1, 1
  {
    ghost var goal := EmitAll(smap, Emission(processed, order), children);
    processed', lines', order' := processed, lines, order;
    var i := 0;
    while i < |children|
      invariant 0 <= i <= |children|
      invariant processed <= processed'
      invariant EmissionOk(smap, Emission(processed', order'))
      invariant lines' == StructureLines(smap, order')
      invariant EmitAll(smap, Emission(processed', order'), children[i..]) == goal
    {
      processed', lines', order' := WriteChild(smap, processed', lines', order', children, i, processed);
      i := i + 1;
    }
  }

  /** One turn of the loop over the children: `write_node(children[i])`. */
  method WriteChild(smap: map<Path, Node>, processed: set<Path>, lines: seq<string>, ghost order: seq<Path>,
                    children: seq<Path>, i: nat, ghost base: set<Path>)
    returns (processed': set<Path>, lines': seq<string>, ghost order': seq<Path>)
    requires i < |children| && base <= processed
    requires EmissionOk(smap, Emission(processed, order)) && lines == StructureLines(smap, order)
    ensures base <= processed'
    ensures EmissionOk(smap, Emission(processed', order'))
    ensures lines' == StructureLines(smap, order')
    ensures EmitAll(smap, Emission(processed', order'), children[i + 1..]) == EmitAll(smap, Emission(processed, order), children[i..])
    decreases smap.Keys - base, 1, 0
  {
    EmitAllStep(smap, Emission(processed, order), children, i);
    processed', lines', order' := WriteNode(smap, processed, lines, order, children[i]);
  }

  /** The loop of `re.sub` over the segments of a body: the text written and the attachments copied. */
  method RewriteSegments(res: VaultIndex.Resolver, gs: seq<Segment>) returns (out: string, copies: seq<Path>)
    ensures out == Texts(Rewrites(res, gs))
    ensures copies == Copies(Rewrites(res, gs))
  {
    ghost var ws := Rewrites(res, gs);
    out := "";
    copies := [];
    var i := 0;
    while i < |gs|
      invariant 0 <= i <= |gs|
      invariant out == Texts(ws[..i])
      invariant copies == Copies(ws[..i])
    {
      var w := SegmentRewrite(res, gs[i]);
      RewritesSnoc(ws, i);
      out := out + w.text;
      if w.copy.Some? {
        copies := copies + [w.copy.value];
      }
      i := i + 1;
    }
    assert ws[..|gs|] == ws;
  }

  /** The loop over `LINK_PATTERN.finditer(body)` collecting resolved `.md` plain links. */
  method ScanLinks(res: VaultIndex.Resolver, content: string) returns (notes: seq<Path>)
    ensures notes == BodyLinks(res, content)
  {
    var gs := Tokenize(FrontMatter.Clean(content));
    notes := [];
    var i := 0;
    while i < |gs|
      invariant 0 <= i <= |gs|
      invariant notes == LinkedNotes(res, gs[..i])
    {
      LinkedNotesSnoc(res, gs, i);
      match LinkedNote(res, gs[i]) {
        case Some(n) => notes := notes + [n];
        case None =>
      }
      i := i + 1;
    }
    assert gs[..|gs|] == gs;
  }

  /** One turn of the loop of `_generate_moc_from_blueprint`: `pending_heading` and `final_moc_lines` after `line`. */
  method BlueprintLine(res: VaultIndex.Resolver, pending: Option<string>, out: seq<string>, line: string) returns (pending': Option<string>, out': seq<string>)
    ensures Outline(pending', out') == Step(Outline(pending, out), Classify(res, line))
  {
    pending', out' := pending, out;
    match Classify(res, line) {
      case Blank =>
      case Other =>
      case Heading(t) =>
        pending' := Some(t);
      case ListItem(e, found) =>
        var title := Title(pending', e);
        pending' := None;
        if found.Some? {
          if e.indent / 4 == 0 && out' != [] {
            out' := out' + [PageBreak];
          }
          out' := out' + [Section(e.indent, title, Name(found.value))];
        }
    }
  }

  /** The loop of `_generate_moc_from_blueprint` over the outline's lines: `final_moc_lines`. */
  method BlueprintLines(res: VaultIndex.Resolver, lines: seq<string>) returns (out: seq<string>)
    ensures out == Blueprint(Kinds(res, lines)).lines
  {
    ghost var ks := Kinds(res, lines);
    var pending: Option<string> := None;
    out := [];
    var i := 0;
    while i < |lines|
      invariant 0 <= i <= |lines|
      invariant Outline(pending, out) == Blueprint(ks[..i])
    {
      BlueprintSnoc(ks, i);
      pending, out := BlueprintLine(res, pending, out, lines[i]);
      i := i + 1;
    }
    assert ks[..|lines|] == ks;
  }

  /** The notes folder holds, under the file name of `n`, the flattened text of a readable note of `scope` with that name. */
  predicate WrittenBy(res: VaultIndex.Resolver, fs: map<Path, string>, scope: set<Path>, dir: map<string, string>, n: Path)
  {
    Name(n) in dir &&
    exists m :: m in scope && m in fs && Name(m) == Name(n) && dir[Name(n)] == Texts(FlattenText(res, fs[m]))
  }

  /** Writing note `n` establishes WrittenBy for every note of the same name. */
  lemma WrittenNow(res: VaultIndex.Resolver, fs: map<Path, string>, scope: set<Path>, dir: map<string, string>, n: Path, m: Path)
    requires n in scope && n in fs && Name(m) == Name(n)
    ensures WrittenBy(res, fs, scope, dir[Name(n) := Texts(FlattenText(res, fs[n]))], m)
  {
  }

  /** Writing under another name keeps WrittenBy. */
  lemma WrittenKept(res: VaultIndex.Resolver, fs: map<Path, string>, scope: set<Path>, dir: map<string, string>, name: string, text: string, m: Path)
    requires WrittenBy(res, fs, scope, dir, m) && Name(m) != name
    ensures WrittenBy(res, fs, scope, dir[name := text], m)
  {
    var w :| w in scope && w in fs && Name(w) == Name(m) && dir[Name(m)] == Texts(FlattenText(res, fs[w]));
    assert dir[name := text][Name(m)] == dir[Name(m)];
  }

  /** Every note of `done` is readable and its file name holds the flattened text of a scope note of that name. */
  predicate AllWritten(res: VaultIndex.Resolver, fs: map<Path, string>, scope: set<Path>, dir: map<string, string>, done: set<Path>)
  {
    forall m :: m in done ==> m in fs && WrittenBy(res, fs, scope, dir, m)
  }

  /** Some note of `scope` has the file name `name`. */
  predicate NamedIn(scope: set<Path>, name: string)
  {
    exists n :: n in scope && Name(n) == name
  }

  /** Files under names no note of `scope` has are as they were in `dir0`. */
  predicate OthersKept(scope: set<Path>, dir0: map<string, string>, dir: map<string, string>)
  {
    forall name :: name in dir0 && !NamedIn(scope, name) ==> name in dir && dir[name] == dir0[name]
  }

  /** Every copy logged after `base` is an attachment of the index. */
  predicate CopiesFromIndex(res: VaultIndex.Resolver, base: seq<Path>, log: seq<Path>)
  {
    forall q :: q in log ==> q in base || (IsAttachment(q) && q in res.index.Values)
  }

  /** Flattening one more readable scope note keeps WrittenBy for the notes already flattened and adds it. */
  lemma WrittenStep(res: VaultIndex.Resolver, fs: map<Path, string>, scope: set<Path>, dir: map<string, string>, done: set<Path>, n: Path)
    requires n in scope && n in fs
    requires AllWritten(res, fs, scope, dir, done)
    ensures AllWritten(res, fs, scope, dir[Name(n) := Texts(FlattenText(res, fs[n]))], done + {n})
  {
    forall m | m in done + {n} ensures m in fs && WrittenBy(res, fs, scope, dir[Name(n) := Texts(FlattenText(res, fs[n]))], m) {
      if Name(m) == Name(n) {
        WrittenNow(res, fs, scope, dir, n, m);
      } else {
        WrittenKept(res, fs, scope, dir, Name(n), Texts(FlattenText(res, fs[n])), m);
      }
    }
  }

  /** Writing under the name of a scope note keeps every other file. */
  lemma OthersStep(scope: set<Path>, dir0: map<string, string>, dir: map<string, string>, n: Path, text: string)
    requires n in scope && OthersKept(scope, dir0, dir)
    ensures OthersKept(scope, dir0, dir[Name(n) := text])
  {
    forall name | name in dir0 && !NamedIn(scope, name) ensures name in dir[Name(n) := text] && dir[Name(n) := text][name] == dir0[name] {
      assert name != Name(n);
    }
  }

  /** The copies of one more note are attachments of the index. */
  lemma CopiesStep(res: VaultIndex.Resolver, base: seq<Path>, log: seq<Path>, content: string)
    requires CopiesFromIndex(res, base, log)
    ensures CopiesFromIndex(res, base, log + Copies(FlattenText(res, content)))
  {
    forall q | q in log + Copies(FlattenText(res, content)) ensures q in base || (IsAttachment(q) && q in res.index.Values) {
      if q !in log {
        CopiesAreEmbeddedAttachments(FlattenText(res, content), res, Tokenize(StripTags(FrontMatter.Clean(content))), q);
      }
    }
  }

  /** Every attachment embedded by a readable note of `done` was copied into the assets folder. */
  predicate CopiedAll(res: VaultIndex.Resolver, fs: map<Path, string>, done: set<Path>, log: seq<Path>)
  {
    forall n, q :: n in done && n in fs && q in Copies(FlattenText(res, fs[n])) ==> q in log
  }

  /** Flattening one more readable note appends its copies to the log. */
  lemma CopiedStep(res: VaultIndex.Resolver, fs: map<Path, string>, done: set<Path>, log: seq<Path>, n: Path)
    requires n in fs && CopiedAll(res, fs, done, log)
    ensures CopiedAll(res, fs, done + {n}, log + Copies(FlattenText(res, fs[n])))
  {
  }

  /** No note is listed twice. */
  predicate Distinct(order: seq<Path>)
  {
    forall i, j :: 0 <= i < j < |order| ==> order[i] != order[j]
  }

  /** `order` lists the notes of `done`, each once. */
  ghost predicate Lists(order: seq<Path>, done: set<Path>)
  {
    Distinct(order) && forall n :: n in order <==> n in done
  }

  /** Appending a note not yet listed lists one more. */
  lemma ListsStep(order: seq<Path>, done: set<Path>, n: Path)
    requires Lists(order, done) && n !in done
    ensures Lists(order + [n], done + {n})
  {
    forall i, j | 0 <= i < j < |order + [n]| ensures (order + [n])[i] != (order + [n])[j] {
      if j == |order| {
        assert (order + [n])[i] == order[i];
        assert order[i] in order;
      } else {
        assert (order + [n])[i] == order[i] && (order + [n])[j] == order[j];
      }
    }
  }

  /** The attachments copied while flattening the notes of `order` one after another; an unreadable note copies nothing. */
  function CopiesOf(res: VaultIndex.Resolver, fs: map<Path, string>, order: seq<Path>): seq<Path>
  {
    if order == [] then []
    else
      var n := order[|order| - 1];
      CopiesOf(res, fs, order[..|order| - 1]) + (if n in fs then Copies(FlattenText(res, fs[n])) else [])
  }

  /** Every copy made while flattening `order` is an attachment embedded by one of its readable notes. */
  lemma {:induction false} CopiesOfFrom(res: VaultIndex.Resolver, fs: map<Path, string>, order: seq<Path>, q: Path)
    requires q in CopiesOf(res, fs, order)
    ensures exists n :: n in order && n in fs && q in Copies(FlattenText(res, fs[n]))
  {
    var n := order[|order| - 1];
    if q in CopiesOf(res, fs, order[..|order| - 1]) {
      CopiesOfFrom(res, fs, order[..|order| - 1], q);
      var m :| m in order[..|order| - 1] && m in fs && q in Copies(FlattenText(res, fs[m]));
      assert m in order;
    } else {
      assert n in order;
    }
  }

  /** Every attachment a readable note of `order` embeds is among the copies made while flattening `order`. */
  lemma {:induction false} CopiesOfAll(res: VaultIndex.Resolver, fs: map<Path, string>, order: seq<Path>, n: Path, q: Path)
    requires n in order && n in fs && q in Copies(FlattenText(res, fs[n]))
    ensures q in CopiesOf(res, fs, order)
  {
    var last := order[|order| - 1];
    if n != last {
      assert n in order[..|order| - 1] by {
        var i :| 0 <= i < |order| && order[i] == n;
        assert i < |order| - 1;
        assert order[..|order| - 1][i] == n;
      }
      CopiesOfAll(res, fs, order[..|order| - 1], n, q);
    }
  }

  /** Flattening one more note appends its copies. */
  lemma CopiesOfSnoc(res: VaultIndex.Resolver, fs: map<Path, string>, order: seq<Path>, n: Path)
    ensures CopiesOf(res, fs, order + [n]) == CopiesOf(res, fs, order) + (if n in fs then Copies(FlattenText(res, fs[n])) else [])
  {
    assert (order + [n])[..|order + [n]| - 1] == order;
  }

  /**
   * The notes folder after flattening the readable notes `done` of `scope`
   * from `dir0`: each is written under its name, the other files are kept.
   */
  ghost predicate NotesFlattened(res: VaultIndex.Resolver, fs: map<Path, string>, scope: set<Path>, dir0: map<string, string>,
                                 done: set<Path>, dir: map<string, string>)
  {
    (forall n :: n in done ==> n in fs) && AllWritten(res, fs, scope, dir, done) && OthersKept(scope, dir0, dir)
  }

  /**
   * The copy log after flattening the notes `done` in the order `order`
   * from `base`: it grew by their copies, all attachments of the index.
   */
  ghost predicate LogFlattened(res: VaultIndex.Resolver, fs: map<Path, string>, base: seq<Path>,
                               done: set<Path>, order: seq<Path>, log: seq<Path>)
  {
    Lists(order, done) && log == base + CopiesOf(res, fs, order) &&
    CopiesFromIndex(res, base, log) && CopiedAll(res, fs, done, log)
  }

  /** Flattening one more readable scope note keeps NotesFlattened. */
  lemma NotesFlattenedStep(res: VaultIndex.Resolver, fs: map<Path, string>, scope: set<Path>, dir0: map<string, string>,
                           done: set<Path>, dir: map<string, string>, n: Path)
    requires NotesFlattened(res, fs, scope, dir0, done, dir)
    requires n in scope && n in fs
    ensures NotesFlattened(res, fs, scope, dir0, done + {n}, dir[Name(n) := Texts(FlattenText(res, fs[n]))])
  {
    WrittenStep(res, fs, scope, dir, done, n);
    OthersStep(scope, dir0, dir, n, Texts(FlattenText(res, fs[n])));
  }

  /** Flattening one more readable note not yet flattened keeps LogFlattened. */
  lemma LogFlattenedStep(res: VaultIndex.Resolver, fs: map<Path, string>, base: seq<Path>,
                         done: set<Path>, order: seq<Path>, log: seq<Path>, n: Path)
    requires LogFlattened(res, fs, base, done, order, log)
    requires n in fs && n !in done
    ensures LogFlattened(res, fs, base, done + {n}, order + [n], log + Copies(FlattenText(res, fs[n])))
  {
    var c := Copies(FlattenText(res, fs[n]));
    assert Lists(order + [n], done + {n}) by {
      ListsStep(order, done, n);
    }
    assert CopiesFromIndex(res, base, log + c) by {
      CopiesStep(res, base, log, fs[n]);
    }
    assert CopiedAll(res, fs, done + {n}, log + c) by {
      CopiedStep(res, fs, done, log, n);
    }
    assert log + c == base + CopiesOf(res, fs, order + [n]) by {
      LogGrows(res, fs, base, order, log, n);
    }
  }

  /** The log equation survives flattening one more readable note. */
  lemma LogGrows(res: VaultIndex.Resolver, fs: map<Path, string>, base: seq<Path>, order: seq<Path>, log: seq<Path>, n: Path)
    requires n in fs && log == base + CopiesOf(res, fs, order)
    ensures log + Copies(FlattenText(res, fs[n])) == base + CopiesOf(res, fs, order + [n])
  {
    CopiesOfSnoc(res, fs, order, n);
  }

  /** Writing the guide keeps every file under a name no scope note has, the guide's own name aside. */
  lemma GuideKeepsOthers(scope: set<Path>, dir0: map<string, string>, dir: map<string, string>, text: string)
    requires OthersKept(scope, dir0, dir)
    ensures OthersKept(scope, dir0 - {GuideName}, dir[GuideName := text])
  {
  }

  /** Every readable note of `done` not named `name` has its flattened text in the notes folder. */
  predicate AllWrittenBut(res: VaultIndex.Resolver, fs: map<Path, string>, scope: set<Path>, dir: map<string, string>, done: set<Path>, name: string)
  {
    forall m :: m in done && Name(m) != name ==> m in fs && WrittenBy(res, fs, scope, dir, m)
  }

  /** Writing the guide under `name` keeps every note written under another name. */
  lemma GuideKeepsNotes(res: VaultIndex.Resolver, fs: map<Path, string>, scope: set<Path>, dir: map<string, string>, done: set<Path>, name: string, text: string)
    requires AllWritten(res, fs, scope, dir, done)
    ensures AllWrittenBut(res, fs, scope, dir[name := text], done, name)
  {
    forall m | m in done && Name(m) != name ensures m in fs && WrittenBy(res, fs, scope, dir[name := text], m) {
      WrittenKept(res, fs, scope, dir, name, text, m);
    }
  }

  /** The guide body of automatic mode: the lines of `write_node(start)` joined by newlines. */
  function StructureBody(smap: map<Path, Node>, start: Path): string
  {
    StructureOrderOk(smap, start);
    Join(StructureLines(smap, StructureOrder(smap, start)), "\n")
  }

  /**
   * `ONEExporter`. `fs` holds the readable files and their texts (a read of
   * any other path raises and aborts the export); `notesDir` is the notes
   * folder by file name; `copyLog` lists the attachments copied into the
   * assets folder, in order, repeats included.
   */
  class OneExporter {
    const res: VaultIndex.Resolver
    const fs: map<Path, string>
    const today: string
    var processedNotes: set<Path>
    var notesInScope: set<Path>
    var structureMap: map<Path, Node>
    var notesDir: map<string, string>
    var copyLog: seq<Path>

    /** `__init__`: the index is built from the vault tree once. */
    constructor (vault: VaultIndex.Folder, root: Path, excluded: set<string>, unquote: string -> string, fs: map<Path, string>, today: string)
      ensures res == VaultIndex.Resolver(VaultIndex.IndexOf(VaultIndex.Visited(VaultIndex.Walk(vault, root, excluded)), excluded), unquote)
      ensures this.fs == fs && this.today == today
      ensures processedNotes == {} && notesInScope == {} && structureMap == map[] && notesDir == map[] && copyLog == []
    {
      var index := VaultIndex.BuildVaultIndex(vault, root, excluded);
      res := VaultIndex.Resolver(index, unquote);
      this.fs := fs;
      this.today := today;
      processedNotes := {};
      notesInScope := {};
      structureMap := map[];
      notesDir := map[];
      copyLog := [];
    }

    /** What the walk reads. */
    function EnvOf(maxDepth: int): Env
    {
      Env(res, fs, maxDepth)
    }

    /**
     * `_flatten_and_copy_note_content(p)`: a note already processed is
     * skipped; otherwise it is marked, read, and its flattened text written
     * under its file name while every attachment embed is copied.
     */
    method FlattenNote(p: Path) returns (ok: bool)
      modifies this
      ensures notesInScope == old(notesInScope) && structureMap == old(structureMap)
      ensures if p in old(processedNotes) then
          ok && processedNotes == old(processedNotes) && notesDir == old(notesDir) && copyLog == old(copyLog)
        else if p !in fs then
          !ok && processedNotes == old(processedNotes) + {p} && notesDir == old(notesDir) && copyLog == old(copyLog)
        else
          ok && processedNotes == old(processedNotes) + {p} &&
          notesDir == old(notesDir)[Name(p) := Texts(FlattenText(res, fs[p]))] &&
          copyLog == old(copyLog) + Copies(FlattenText(res, fs[p]))
    {
      if p in processedNotes {
        return true;
      }
      processedNotes := processedNotes + {p};
      if p !in fs {
        return false;
      }
      var out, copies := RewriteBody(fs[p]);
      notesDir := notesDir[Name(p) := out];
      copyLog := copyLog + copies;
      return true;
    }

    /**
     * `LINK_PATTERN.sub(link_flattener, ...)` on a note's text with front
     * matter and tags removed: the text written and the attachments copied.
     */
    method RewriteBody(content: string) returns (out: string, copies: seq<Path>)
      ensures out == Texts(FlattenText(res, content))
      ensures copies == Copies(FlattenText(res, content))
    {
      out, copies := RewriteSegments(res, Tokenize(StripTags(FrontMatter.Clean(content))));
    }

    /**
     * `for note in self.notes_in_scope: self._flatten_and_copy_note_content(note)`,
     * in whatever order the set yields its notes.
     */
    method FlattenScope() returns (ok: bool, ghost order: seq<Path>)
      modifies this
      ensures ok ==> processedNotes == old(processedNotes) + notesInScope
      ensures old(processedNotes) <= processedNotes <= old(processedNotes) + notesInScope
      ensures ok ==> AllWritten(res, fs, notesInScope, notesDir, notesInScope - old(processedNotes))
      ensures !ok ==> exists n :: n in notesInScope && n !in fs
      ensures OthersKept(notesInScope, old(notesDir), notesDir)
      ensures Distinct(order) && forall n :: n in order ==> n in notesInScope - old(processedNotes) && n in fs
      ensures ok ==> forall n :: n in notesInScope - old(processedNotes) ==> n in order
      ensures copyLog == old(copyLog) + CopiesOf(res, fs, order)
      ensures old(copyLog) <= copyLog
      ensures CopiesFromIndex(res, old(copyLog), copyLog)
      ensures ok ==> CopiedAll(res, fs, notesInScope - old(processedNotes), copyLog)
      ensures notesInScope == old(notesInScope) && structureMap == old(structureMap)
    {
      var todo := notesInScope;
      ghost var done: set<Path> := {};
      order := [];
      ok := true;
      while todo != {} && ok
        invariant todo <= notesInScope
        invariant notesInScope == old(notesInScope) && structureMap == old(structureMap)
        invariant ok ==> processedNotes == old(processedNotes) + (notesInScope - todo)
        invariant old(processedNotes) <= processedNotes <= old(processedNotes) + notesInScope
        invariant done == notesInScope - todo - old(processedNotes)
        invariant NotesFlattened(res, fs, notesInScope, old(notesDir), done, notesDir)
        invariant LogFlattened(res, fs, old(copyLog), done, order, copyLog)
        invariant !ok ==> exists n :: n in notesInScope && n !in fs
        decreases todo, ok
      {
        var n :| n in todo;
        ghost var dir := notesDir;
        ghost var log := copyLog;
        ghost var pn := processedNotes;
        ok := FlattenNote(n);
        if ok {
          assert processedNotes == pn + {n};
          assert old(processedNotes) + (notesInScope - (todo - {n})) == pn + {n};
          if n !in old(processedNotes) {
            NotesFlattenedStep(res, fs, notesInScope, old(notesDir), done, dir, n);
            LogFlattenedStep(res, fs, old(copyLog), done, order, log, n);
            assert done + {n} == notesInScope - (todo - {n}) - old(processedNotes);
            done := done + {n};
            order := order + [n];
          } else {
            assert done == notesInScope - (todo - {n}) - old(processedNotes);
          }
          todo := todo - {n};
        }
      }
    }

    /**
     * `_traverse_and_collect(p, depth, max_depth)`: the notes it puts in
     * scope and the records it makes are those of the walk `Visit`; `ok`
     * is false when a note could not be read.
     */
    method TraverseAndCollect(p: Path, depth: nat, maxDepth: int) returns (ok: bool)
      modifies this
      ensures Walk(notesInScope, structureMap, ok) ==
        Visit(EnvOf(maxDepth), Walk(old(notesInScope), old(structureMap), true), p, depth)
      ensures processedNotes == old(processedNotes) && notesDir == old(notesDir) && copyLog == old(copyLog)
      decreases Known(EnvOf(maxDepth)) + {p} - notesInScope, 0
    {
      ghost var env := EnvOf(maxDepth);
      if (maxDepth != -1 && depth > maxDepth) || p in notesInScope {
        return true;
      }
      notesInScope := notesInScope + {p};
      if p !in fs {
        return false;
      }
      var children := ScanLinks(res, fs[p]);
      assert children == Children(env, p);
      VisitEnters(env, Walk(old(notesInScope), old(structureMap), true), p, depth);
      structureMap := structureMap[p := Node(depth, children)];
      ok := TraverseChildren(children, depth + 1, maxDepth);
    }

    /**
     * The loop `for child in children` of `_traverse_and_collect`: the walk
     * `VisitAll` from the current state; it stops at the first failure.
     */
    method TraverseChildren(children: seq<Path>, depth: nat, maxDepth: int) returns (ok: bool)
      requires forall k :: 0 <= k < |children| ==> children[k] in Known(EnvOf(maxDepth))
      modifies this
      ensures Walk(notesInScope, structureMap, ok) ==
        VisitAll(EnvOf(maxDepth), Walk(old(notesInScope), old(structureMap), true), children, depth)
      ensures processedNotes == old(processedNotes) && notesDir == old(notesDir) && copyLog == old(copyLog)
      decreases Known(EnvOf(maxDepth)) - notesInScope, 1
    {
      ghost var env := EnvOf(maxDepth);
      ghost var goal := VisitAll(env, Walk(notesInScope, structureMap, true), children, depth);
      var i := 0;
      while i < |children|
        invariant 0 <= i <= |children|
        invariant old(notesInScope) <= notesInScope
        invariant processedNotes == old(processedNotes) && notesDir == old(notesDir) && copyLog == old(copyLog)
        invariant VisitAll(env, Walk(notesInScope, structureMap, true), children[i..], depth) == goal
      {
        VisitAllStep(env, Walk(notesInScope, structureMap, true), children, i, depth);
        ok := TraverseAndCollect(children[i], depth, maxDepth);
        if !ok {
          VisitAllStopped(env, Walk(notesInScope, structureMap, false), children[i + 1..], depth);
          return false;
        }
        i := i + 1;
      }
      return true;
    }

    /** `_generate_moc_from_blueprint(body, config)`. */
    method GenerateMocFromBlueprint(body: string, cfg: ExportConfig)
      modifies this
      ensures notesDir == old(notesDir)[GuideName := Header(cfg, today) + BlueprintBody(res, body)]
      ensures processedNotes == old(processedNotes) && notesInScope == old(notesInScope)
      ensures structureMap == old(structureMap) && copyLog == old(copyLog)
    {
      var out := BlueprintLines(res, SplitLines(body));
      notesDir := notesDir[GuideName := Header(cfg, today) + Join(out, "\n")];
    }

    /** `_generate_moc_from_structure(start, config)`. */
    method GenerateMocFromStructure(start: Path, cfg: ExportConfig)
      modifies this
      ensures notesDir == old(notesDir)[GuideName := Header(cfg, today) + StructureBody(structureMap, start)]
      ensures processedNotes == old(processedNotes) && notesInScope == old(notesInScope)
      ensures structureMap == old(structureMap) && copyLog == old(copyLog)
    {
      var processed, lines;
      ghost var order;
      processed, lines, order := WriteNode(structureMap, {}, [], [], start);
      notesDir := notesDir[GuideName := Header(cfg, today) + Join(lines, "\n")];
    }

    /**
     * `build_package(start, config)`. In manual mode the scope is the notes
     * the outline links to and the guide follows the outline; otherwise the
     * scope is the walk from the start note to the configured depth and the
     * guide follows the structure map. `ok` is false when a read failed or
     * the depth setting is not a number.
     */
    method BuildPackage(start: Path, cfg: ExportConfig) returns (ok: bool, ghost order: seq<Path>)
      modifies this
      ensures ok && cfg.mode == "manual" ==>
        start in fs &&
        notesInScope == old(notesInScope) + (set n | n in BodyLinks(res, fs[start])) &&
        processedNotes == old(processedNotes) + notesInScope &&
        GuideName in notesDir && notesDir[GuideName] == Header(cfg, today) + BlueprintBody(res, FrontMatter.Clean(fs[start]))
      ensures ok && cfg.mode != "manual" ==>
        MaxDepth(cfg.depth).Success? &&
        Walk(notesInScope, structureMap, true) ==
          Visit(EnvOf(MaxDepth(cfg.depth).value), Walk(old(notesInScope), old(structureMap), true), start, 0) &&
        processedNotes == old(processedNotes) + notesInScope &&
        GuideName in notesDir && notesDir[GuideName] == Header(cfg, today) + StructureBody(structureMap, start)
      ensures !ok ==>
        (cfg.mode == "manual" && start !in fs) ||
        (cfg.mode != "manual" && MaxDepth(cfg.depth).Failure?) ||
        exists n :: n in notesInScope && n !in fs
      ensures cfg.mode == "manual" ==> structureMap == old(structureMap)
      ensures old(notesInScope) <= notesInScope && old(processedNotes) <= processedNotes
      ensures ok ==>
        AllWrittenBut(res, fs, notesInScope, notesDir, notesInScope - old(processedNotes), GuideName) &&
        CopiedAll(res, fs, notesInScope - old(processedNotes), copyLog)
      ensures OthersKept(notesInScope, old(notesDir) - {GuideName}, notesDir)
      ensures Distinct(order) && forall n :: n in order ==> n in notesInScope - old(processedNotes) && n in fs
      ensures ok ==> forall n :: n in notesInScope - old(processedNotes) ==> n in order
      ensures copyLog == old(copyLog) + CopiesOf(res, fs, order)
      ensures old(copyLog) <= copyLog
      ensures CopiesFromIndex(res, old(copyLog), copyLog)
    {
      order := [];
      if cfg.mode == "manual" {
        if start !in fs {
          return false, order;
        }
        var links := ScanLinks(res, fs[start]);
        notesInScope := notesInScope + (set n | n in links);
        ok, order := FlattenScope();
        if !ok {
          return;
        }
        ghost var dir := notesDir;
        GenerateMocFromBlueprint(FrontMatter.Clean(fs[start]), cfg);
        GuideKeepsNotes(res, fs, notesInScope, dir, notesInScope - old(processedNotes), GuideName, notesDir[GuideName]);
        GuideKeepsOthers(notesInScope, old(notesDir), dir, notesDir[GuideName]);
      } else {
        var maxDepth := MaxDepth(cfg.depth);
        if maxDepth.Failure? {
          return false, order;
        }
        ok := TraverseAndCollect(start, 0, maxDepth.value);
        if !ok {
          VisitFails(EnvOf(maxDepth.value), Walk(old(notesInScope), old(structureMap), true), start, 0);
          return;
        }
        ok, order := FlattenScope();
        if !ok {
          return;
        }
        ghost var dir := notesDir;
        GenerateMocFromStructure(start, cfg);
        GuideKeepsNotes(res, fs, notesInScope, dir, notesInScope - old(processedNotes), GuideName, notesDir[GuideName]);
        GuideKeepsOthers(notesInScope, old(notesDir), dir, notesDir[GuideName]);
      }
    }
  }
}
