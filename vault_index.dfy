/** The vault index (lowercase stem and file name to path) and reference resolution against it. */
module VaultIndex {
  import opened Wrappers
  import opened Text
  import opened Paths

  /** A directory as `os.walk` lists it: its files and its subdirectories, in listing order. */
  datatype Folder = Folder(files: seq<string>, subfolders: seq<Subfolder>)
  datatype Subfolder = Subfolder(name: string, folder: Folder)

  /** One `(root, dirs, files)` triple of `os.walk`, after pruning `dirs`. */
  datatype WalkStep = WalkStep(root: Path, files: seq<string>)

  /**
   * `os.walk(root)` top-down with `dirs[:]` pruned of excluded names:
   * a directory's own step, then the walks of its kept subdirectories in order.
   */
  function Walk(f: Folder, root: Path, excluded: set<string>): (r: seq<WalkStep>)
    ensures r != [] && r[0] == WalkStep(root, f.files)
    decreases f
  {
    [WalkStep(root, f.files)] + WalkSubfolders(f.subfolders, root, excluded)
  }

  function WalkSubfolders(subs: seq<Subfolder>, root: Path, excluded: set<string>): seq<WalkStep>
    decreases subs
  {
    if subs == [] then []
    else
      (if subs[0].name in excluded then [] else Walk(subs[0].folder, root + [subs[0].name], excluded))
        + WalkSubfolders(subs[1..], root, excluded)
  }

  /** Every file of the tree, excluded or not. */
  function TreeFiles(f: Folder, root: Path): set<Path>
    decreases f
  {
    (set k | 0 <= k < |f.files| :: root + [f.files[k]]) + SubfolderFiles(f.subfolders, root)
  }

  function SubfolderFiles(subs: seq<Subfolder>, root: Path): set<Path>
    decreases subs
  {
    if subs == [] then {}
    else TreeFiles(subs[0].folder, root + [subs[0].name]) + SubfolderFiles(subs[1..], root)
  }

  /** The file paths of one walk step, in listing order. */
  function StepPaths(st: WalkStep): (r: seq<Path>)
    ensures |r| == |st.files|
    ensures forall k :: 0 <= k < |st.files| ==> r[k] == st.root + [st.files[k]]
  {
    seq(|st.files|, k requires 0 <= k < |st.files| => st.root + [st.files[k]])
  }

  /** The files the walk visits, in visiting order. */
  function Visited(steps: seq<WalkStep>): seq<Path>
  {
    if steps == [] then [] else Visited(steps[..|steps| - 1]) + StepPaths(steps[|steps| - 1])
  }

  /** The lowercase stem key of a file. */
  function StemKey(p: Path): string
  {
    Lower(Stem(Name(p)))
  }

  /** The lowercase full-name key of a file. */
  function NameKey(p: Path): string
  {
    Lower(Name(p))
  }

  /** What one visited file contributes to the index: whether it is kept, and its two keys. */
  datatype Registration = Registration(path: Path, kept: bool, stemKey: string, nameKey: string)

  function RegistrationOf(p: Path, excluded: set<string>): Registration
  {
    Registration(p, !UnderExcluded(p, excluded), StemKey(p), NameKey(p))
  }

  function Registrations(ps: seq<Path>, excluded: set<string>): (rs: seq<Registration>)
    ensures |rs| == |ps|
    ensures forall i :: 0 <= i < |ps| ==> rs[i] == RegistrationOf(ps[i], excluded)
  {
    seq(|ps|, i requires 0 <= i < |ps| => RegistrationOf(ps[i], excluded))
  }

  /** Registration `i` is kept and carries key `k`. */
  predicate Registers(rs: seq<Registration>, i: int, k: string)
  {
    0 <= i < |rs| && rs[i].kept && (k == rs[i].stemKey || k == rs[i].nameKey)
  }

  /** The map the loop builds from the registrations `rs`, in order: later writes win. */
  function IndexOfRegistrations(rs: seq<Registration>): map<string, Path>
  {
    if rs == [] then map[]
    else
      var m := IndexOfRegistrations(rs[..|rs| - 1]);
      var r := rs[|rs| - 1];
      if r.kept then m[r.stemKey := r.path][r.nameKey := r.path] else m
  }

  /** The index `_build_vault_index` leaves after visiting the files `ps` in order. */
  function IndexOf(ps: seq<Path>, excluded: set<string>): map<string, Path>
  {
    IndexOfRegistrations(Registrations(ps, excluded))
  }

  /** Registering one more visited file. */
  lemma IndexOfSnoc(ps: seq<Path>, p: Path, excluded: set<string>)
    ensures IndexOf(ps + [p], excluded) ==
      if UnderExcluded(p, excluded) then IndexOf(ps, excluded)
      else IndexOf(ps, excluded)[StemKey(p) := p][NameKey(p) := p]
  {
    var rs := Registrations(ps + [p], excluded);
    assert rs[..|ps|] == Registrations(ps, excluded);
  }

  lemma VisitedSnoc(steps: seq<WalkStep>, i: nat)
    requires i < |steps|
    ensures Visited(steps[..i + 1]) == Visited(steps[..i]) + StepPaths(steps[i])
  {
    assert steps[..i + 1][..i] == steps[..i];
  }

  /** Registering the `j`-th file of a walk step after the files before it. */
  lemma StepSnoc(done: seq<Path>, st: WalkStep, j: nat, excluded: set<string>)
    requires j < |st.files|
    ensures
      var full := st.root + [st.files[j]];
      IndexOf(done + StepPaths(st)[..j + 1], excluded) ==
        if UnderExcluded(full, excluded) then IndexOf(done + StepPaths(st)[..j], excluded)
        else IndexOf(done + StepPaths(st)[..j], excluded)[StemKey(full) := full][NameKey(full) := full]
  {
    var full := st.root + [st.files[j]];
    assert done + StepPaths(st)[..j] + [full] == done + StepPaths(st)[..j + 1];
    IndexOfSnoc(done + StepPaths(st)[..j], full, excluded);
  }

  /** `_build_vault_index`: the nested loop over the walk and its files. */
  method BuildVaultIndex(vault: Folder, root: Path, excluded: set<string>) returns (index: map<string, Path>)
    ensures index == IndexOf(Visited(Walk(vault, root, excluded)), excluded)
  {
    var steps := Walk(vault, root, excluded);
    index := map[];
    var i := 0;
    while i < |steps|
      invariant 0 <= i <= |steps|
      invariant index == IndexOf(Visited(steps[..i]), excluded)
    {
      var step := steps[i];
      ghost var done := Visited(steps[..i]);
      var j := 0;
      assert done + StepPaths(step)[..0] == done;
      while j < |step.files|
        invariant 0 <= j <= |step.files|
        invariant index == IndexOf(done + StepPaths(step)[..j], excluded)
      {
        var full := step.root + [step.files[j]];
        StepSnoc(done, step, j, excluded);
        if !UnderExcluded(full, excluded) {
          index := index[StemKey(full) := full];
          index := index[NameKey(full) := full];
        }
        j := j + 1;
      }
      assert StepPaths(step)[..j] == StepPaths(step);
      VisitedSnoc(steps, i);
      i := i + 1;
    }
    assert steps[..i] == steps;
  }

  /** A key is in the index exactly when some kept registration carries it. */
  lemma {:induction false} IndexKeys(rs: seq<Registration>, k: string)
    ensures k in IndexOfRegistrations(rs) <==> exists i :: Registers(rs, i, k)
    decreases |rs|
  {
    if rs != [] {
      var n := |rs| - 1;
      var init := rs[..n];
      IndexKeys(init, k);
      if Registers(rs, n, k) {
        assert k in IndexOfRegistrations(rs);
      } else {
        assert (k in IndexOfRegistrations(rs)) == (k in IndexOfRegistrations(init));
        forall i | Registers(rs, i, k) ensures Registers(init, i, k) {
          assert i < n;
        }
        forall i | Registers(init, i, k) ensures Registers(rs, i, k) {
        }
      }
    }
  }

  /** A key maps to the path of the last kept registration that carries it. */
  lemma {:induction false} IndexIsLastWriter(rs: seq<Registration>, k: string)
    requires k in IndexOfRegistrations(rs)
    ensures exists i :: (Registers(rs, i, k) && IndexOfRegistrations(rs)[k] == rs[i].path &&
      forall j :: i < j < |rs| ==> !Registers(rs, j, k))
    decreases |rs|
  {
    var n := |rs| - 1;
    var init := rs[..n];
    if !Registers(rs, n, k) {
      assert IndexOfRegistrations(rs)[k] == IndexOfRegistrations(init)[k];
      IndexIsLastWriter(init, k);
      var i :| Registers(init, i, k) && IndexOfRegistrations(init)[k] == init[i].path &&
        forall j :: i < j < |init| ==> !Registers(init, j, k);
      assert Registers(rs, i, k);
      forall j | i < j < |rs| ensures !Registers(rs, j, k) {
        if j < n { assert !Registers(init, j, k); }
      }
    }
  }

  /** No file under a folder with an excluded name is a value of the index, at any depth. */
  lemma ExcludedNeverIndexed(ps: seq<Path>, excluded: set<string>, k: string)
    requires k in IndexOf(ps, excluded)
    ensures !UnderExcluded(IndexOf(ps, excluded)[k], excluded)
    ensures k == StemKey(IndexOf(ps, excluded)[k]) || k == NameKey(IndexOf(ps, excluded)[k])
  {
    IndexIsLastWriter(Registrations(ps, excluded), k);
  }

  /**
   * A kept file that no later kept file shares a key with is found under
   * both of its keys.
   */
  lemma KeptFileIndexedUnderBothKeys(ps: seq<Path>, excluded: set<string>, i: nat)
    requires i < |ps| && !UnderExcluded(ps[i], excluded)
    requires forall j :: i < j < |ps| && !UnderExcluded(ps[j], excluded) ==>
      StemKey(ps[j]) !in {StemKey(ps[i]), NameKey(ps[i])} && NameKey(ps[j]) !in {StemKey(ps[i]), NameKey(ps[i])}
    ensures StemKey(ps[i]) in IndexOf(ps, excluded) && NameKey(ps[i]) in IndexOf(ps, excluded)
    ensures IndexOf(ps, excluded)[StemKey(ps[i])] == ps[i]
    ensures IndexOf(ps, excluded)[NameKey(ps[i])] == ps[i]
  {
    var rs := Registrations(ps, excluded);
    var p := ps[i];
    forall k | k == StemKey(p) || k == NameKey(p)
      ensures k in IndexOf(ps, excluded) && IndexOf(ps, excluded)[k] == p
    {
      assert Registers(rs, i, k);
      IndexKeys(rs, k);
      IndexIsLastWriter(rs, k);
      var w :| Registers(rs, w, k) && IndexOfRegistrations(rs)[k] == rs[w].path &&
        forall j :: w < j < |rs| ==> !Registers(rs, j, k);
      assert w == i;
    }
  }

  /** A path is visited exactly when some walk step lists it. */
  lemma {:induction false} VisitedMembers(steps: seq<WalkStep>, p: Path)
    ensures p in Visited(steps) <==> exists st :: st in steps && p in StepPaths(st)
    decreases |steps|
  {
    if steps != [] {
      var init := steps[..|steps| - 1];
      VisitedMembers(init, p);
      assert steps == init + [steps[|steps| - 1]];
    }
  }

  /**
   * The pruned walk loses nothing that the index keeps: every file of the
   * tree with no excluded name on its path is listed by some walk step.
   */
  lemma {:induction false} WalkCoversKeptFiles(f: Folder, root: Path, excluded: set<string>, p: Path)
    requires p in TreeFiles(f, root) && !UnderExcluded(p, excluded)
    ensures exists st :: st in Walk(f, root, excluded) && p in StepPaths(st)
    decreases f
  {
    var own := set k | 0 <= k < |f.files| :: root + [f.files[k]];
    if p in own {
      var k :| 0 <= k < |f.files| && p == root + [f.files[k]];
      assert StepPaths(WalkStep(root, f.files))[k] == p;
    } else {
      WalkSubfoldersCover(f.subfolders, root, excluded, p);
    }
  }

  lemma {:induction false} WalkSubfoldersCover(subs: seq<Subfolder>, root: Path, excluded: set<string>, p: Path)
    requires p in SubfolderFiles(subs, root) && !UnderExcluded(p, excluded)
    ensures exists st :: st in WalkSubfolders(subs, root, excluded) && p in StepPaths(st)
    decreases subs
  {
    var sub := subs[0];
    var below := root + [sub.name];
    if p in TreeFiles(sub.folder, below) {
      TreeFilesBelow(sub.folder, below, p);
      assert sub.name !in excluded by { assert p[|root|] == below[|root|]; }
      WalkCoversKeptFiles(sub.folder, below, excluded, p);
    } else {
      WalkSubfoldersCover(subs[1..], root, excluded, p);
    }
  }

  /** Every file of a tree lies strictly below the tree's root. */
  lemma {:induction false} TreeFilesBelow(f: Folder, root: Path, p: Path)
    requires p in TreeFiles(f, root)
    ensures |p| > |root| && p[..|root|] == root
    decreases f
  {
    var own := set k | 0 <= k < |f.files| :: root + [f.files[k]];
    if p !in own {
      SubfolderFilesBelow(f.subfolders, root, p);
    }
  }

  lemma {:induction false} SubfolderFilesBelow(subs: seq<Subfolder>, root: Path, p: Path)
    requires p in SubfolderFiles(subs, root)
    ensures |p| > |root| && p[..|root|] == root
    decreases subs
  {
    var below := root + [subs[0].name];
    if p in TreeFiles(subs[0].folder, below) {
      TreeFilesBelow(subs[0].folder, below, p);
      assert p[..|root|] == p[..|below|][..|root|];
    } else {
      SubfolderFilesBelow(subs[1..], root, p);
    }
  }

  /**
   * Completeness of `_build_vault_index`: every file of the vault with no
   * excluded name on its path is registered under both its keys (possibly
   * overwritten by a later file sharing a key).
   */
  lemma KeptFileHasKeys(vault: Folder, root: Path, excluded: set<string>, p: Path)
    requires p in TreeFiles(vault, root) && !UnderExcluded(p, excluded)
    ensures StemKey(p) in IndexOf(Visited(Walk(vault, root, excluded)), excluded)
    ensures NameKey(p) in IndexOf(Visited(Walk(vault, root, excluded)), excluded)
  {
    var ps := Visited(Walk(vault, root, excluded));
    WalkCoversKeptFiles(vault, root, excluded, p);
    VisitedMembers(Walk(vault, root, excluded), p);
    var i :| 0 <= i < |ps| && ps[i] == p;
    var rs := Registrations(ps, excluded);
    IndexKeys(rs, StemKey(p));
    IndexKeys(rs, NameKey(p));
    assert Registers(rs, i, StemKey(p));
    assert Registers(rs, i, NameKey(p));
  }

  // ---------------------------------------------------------------------
  // Resolution

  /** The index together with the percent-decoding function `unquote`. */
  datatype Resolver = Resolver(index: map<string, Path>, unquote: string -> string)

  /** The lookup key of a target: decoded, then lowercased. */
  function Key(r: Resolver, target: string): string
  {
    Lower(r.unquote(target))
  }

  /**
   * `vault_index.get(key) or vault_index.get(Path(key).stem)`: the full key
   * first, the stem of its last path component only when that misses.
   */
  function Resolve(r: Resolver, target: string): (res: Option<Path>)
    ensures res.Some? ==> res.value in r.index.Values
    ensures res.None? <==> Key(r, target) !in r.index && Stem(TargetName(Key(r, target))) !in r.index
  {
    var key := Key(r, target);
    if key in r.index then Some(r.index[key])
    else
      var stem := Stem(TargetName(key));
      if stem in r.index then Some(r.index[stem]) else None
  }

  /** Resolution sees only the decoded target's lowercase form. */
  lemma ResolveIgnoresCase(r: Resolver, t1: string, t2: string)
    requires Lower(r.unquote(t1)) == Lower(r.unquote(t2))
    ensures Resolve(r, t1) == Resolve(r, t2)
  {
  }

  /** A hit on the full key wins over the stem. */
  lemma ResolveFullKeyFirst(r: Resolver, target: string)
    requires Key(r, target) in r.index
    ensures Resolve(r, target) == Some(r.index[Key(r, target)])
  {
  }

  /** The stem of the last path component is tried only when the full key misses. */
  lemma ResolveStemFallback(r: Resolver, target: string)
    requires Key(r, target) !in r.index
    requires Stem(TargetName(Key(r, target))) in r.index
    ensures Resolve(r, target) == Some(r.index[Stem(TargetName(Key(r, target)))])
  {
  }

  /**
   * Against the built index, a target whose decoded text equals a kept
   * file's name or stem in any letter case finds the last kept file, in
   * visiting order, registering that key.
   */
  lemma ResolveFindsRegisteredFile(ps: seq<Path>, excluded: set<string>, unquote: string -> string, target: string)
    requires exists i :: Registers(Registrations(ps, excluded), i, Lower(unquote(target)))
    ensures
      var rs := Registrations(ps, excluded);
      var res := Resolve(Resolver(IndexOf(ps, excluded), unquote), target);
      res.Some? && (exists i :: (Registers(rs, i, Lower(unquote(target))) && res.value == ps[i] &&
        forall j :: i < j < |ps| ==> !Registers(rs, j, Lower(unquote(target)))))
  {
    var rs := Registrations(ps, excluded);
    IndexKeys(rs, Lower(unquote(target)));
    IndexIsLastWriter(rs, Lower(unquote(target)));
  }
}
