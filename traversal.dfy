/**
 * The automatic-mode walk `_traverse_and_collect`: depth first from the
 * start note along resolved `.md` plain links, each note entered once,
 * cut off below the depth limit (-1 for no limit).
 */
module Traversal {
  import opened Wrappers
  import opened Paths
  import opened VaultIndex
  import opened Flatten
  import Links
  import FrontMatter

  /** What the walk reads: the resolver, the readable notes and their texts, and the depth limit. */
  datatype Env = Env(res: Resolver, fs: map<Path, string>, maxDepth: int)

  /** A `structure_map` entry. */
  datatype Node = Node(depth: nat, children: seq<Path>)

  /**
   * `notes_in_scope`, `structure_map`, and whether the walk is still running
   * (`ok` turns false when a note cannot be read, which aborts the export).
   */
  datatype Walk = Walk(scope: set<Path>, smap: map<Path, Node>, ok: bool)

  const Start: Walk := Walk({}, map[], true)

  /** The notes a walk can reach besides its start: every value of the index. */
  function Known(env: Env): set<Path>
  {
    env.res.index.Values
  }

  /** The `children` of a readable note: its linked notes in order of appearance. */
  function Children(env: Env, p: Path): (cs: seq<Path>)
    requires p in env.fs
    ensures forall k :: 0 <= k < |cs| ==> cs[k] in Known(env)
  {
    LinkedNotesInIndex(env.res, Links.Tokenize(FrontMatter.Clean(env.fs[p])));
    BodyLinks(env.res, env.fs[p])
  }

  /** Whether the walk stops at a note before entering it. */
  predicate Cut(env: Env, st: Walk, p: Path, depth: nat)
  {
    !st.ok || (env.maxDepth != -1 && depth > env.maxDepth) || p in st.scope
  }

  /** `_traverse_and_collect(p, depth, max_depth)`. */
  function Visit(env: Env, st: Walk, p: Path, depth: nat): (r: Walk)
    ensures st.scope <= r.scope <= st.scope + Known(env) + {p}
    decreases Known(env) + {p} - st.scope, 0, 0
  {
    if Cut(env, st, p, depth) then st
    else if p !in env.fs then Walk(st.scope + {p}, st.smap, false)
    else
      var cs := Children(env, p);
      VisitAll(env, Walk(st.scope + {p}, st.smap[p := Node(depth, cs)], true), cs, depth + 1)
  }

  /** The loop `for child in children` at one depth. */
  function VisitAll(env: Env, st: Walk, cs: seq<Path>, depth: nat): (r: Walk)
    requires forall k :: 0 <= k < |cs| ==> cs[k] in Known(env)
    ensures st.scope <= r.scope <= st.scope + Known(env)
    decreases Known(env) - st.scope, 1, |cs|
  {
    if cs == [] then st
    else VisitAll(env, Visit(env, st, cs[0], depth), cs[1..], depth)
  }

  // ---------------------------------------------------------------------
  // Invariants of the walk

  /** Every recorded note is in scope, and while the walk runs the two agree. */
  predicate Consistent(st: Walk)
  {
    st.smap.Keys <= st.scope && (st.ok ==> st.smap.Keys == st.scope)
  }

  /** Every entry of `a` is still in `b`, unchanged. */
  predicate Extends(a: map<Path, Node>, b: map<Path, Node>)
  {
    forall n :: n in a ==> n in b && b[n] == a[n]
  }

  /**
   * Each recorded note was read, its children are its linked notes, and its
   * depth is within the limit.
   */
  predicate Faithful(env: Env, smap: map<Path, Node>)
  {
    forall n :: n in smap ==>
      n in env.fs && smap[n].children == Children(env, n) &&
      (env.maxDepth != -1 ==> smap[n].depth <= env.maxDepth)
  }

  /** Every record the walk makes is faithful to the note it was made from. */
  lemma {:induction false} VisitFaithful(env: Env, st: Walk, p: Path, depth: nat)
    requires Consistent(st) && Faithful(env, st.smap)
    ensures Faithful(env, Visit(env, st, p, depth).smap)
    decreases Known(env) + {p} - st.scope, 0, 0
  {
    if !Cut(env, st, p, depth) && p in env.fs {
      var cs := Children(env, p);
      var st1 := Walk(st.scope + {p}, st.smap[p := Node(depth, cs)], true);
      assert Consistent(st1);
      VisitAllFaithful(env, st1, cs, depth + 1);
    }
  }

  lemma {:induction false} VisitAllFaithful(env: Env, st: Walk, cs: seq<Path>, depth: nat)
    requires forall k :: 0 <= k < |cs| ==> cs[k] in Known(env)
    requires Consistent(st) && Faithful(env, st.smap)
    ensures Faithful(env, VisitAll(env, st, cs, depth).smap)
    decreases Known(env) - st.scope, 1, |cs|
  {
    if cs != [] {
      var st1 := Visit(env, st, cs[0], depth);
      VisitFaithful(env, st, cs[0], depth);
      VisitConsistent(env, st, cs[0], depth);
      VisitAllFaithful(env, st1, cs[1..], depth);
    }
  }

  /** Notes first recorded while entering `p` at `depth` lie at `depth`, and only `p` itself does. */
  lemma {:induction false} VisitDepths(env: Env, st: Walk, p: Path, depth: nat, n: Path)
    requires Consistent(st)
    requires n in Visit(env, st, p, depth).smap && n !in st.smap
    ensures Visit(env, st, p, depth).smap[n].depth >= depth
    ensures n != p ==> Visit(env, st, p, depth).smap[n].depth > depth
    decreases Known(env) + {p} - st.scope, 0, 0
  {
    var cs := Children(env, p);
    var st1 := Walk(st.scope + {p}, st.smap[p := Node(depth, cs)], true);
    if n == p {
      VisitAllConsistent(env, st1, cs, depth + 1);
    } else {
      VisitAllDepths(env, st1, cs, depth + 1, n);
    }
  }

  lemma {:induction false} VisitAllDepths(env: Env, st: Walk, cs: seq<Path>, depth: nat, n: Path)
    requires forall k :: 0 <= k < |cs| ==> cs[k] in Known(env)
    requires Consistent(st)
    requires n in VisitAll(env, st, cs, depth).smap && n !in st.smap
    ensures VisitAll(env, st, cs, depth).smap[n].depth >= depth
    decreases Known(env) - st.scope, 1, |cs|
  {
    var st1 := Visit(env, st, cs[0], depth);
    VisitConsistent(env, st, cs[0], depth);
    if n in st1.smap {
      VisitDepths(env, st, cs[0], depth, n);
      VisitAllConsistent(env, st1, cs[1..], depth);
    } else {
      VisitAllDepths(env, st1, cs[1..], depth, n);
    }
  }

  /** Consistency alone is preserved, with entries kept. */
  lemma {:induction false} VisitConsistent(env: Env, st: Walk, p: Path, depth: nat)
    requires Consistent(st)
    ensures Consistent(Visit(env, st, p, depth)) && Extends(st.smap, Visit(env, st, p, depth).smap)
    decreases Known(env) + {p} - st.scope, 0, 0
  {
    if !Cut(env, st, p, depth) && p in env.fs {
      var cs := Children(env, p);
      VisitAllConsistent(env, Walk(st.scope + {p}, st.smap[p := Node(depth, cs)], true), cs, depth + 1);
    }
  }

  lemma {:induction false} VisitAllConsistent(env: Env, st: Walk, cs: seq<Path>, depth: nat)
    requires forall k :: 0 <= k < |cs| ==> cs[k] in Known(env)
    requires Consistent(st)
    ensures Consistent(VisitAll(env, st, cs, depth)) && Extends(st.smap, VisitAll(env, st, cs, depth).smap)
    decreases Known(env) - st.scope, 1, |cs|
  {
    if cs != [] {
      VisitConsistent(env, st, cs[0], depth);
      VisitAllConsistent(env, Visit(env, st, cs[0], depth), cs[1..], depth);
    }
  }

  /** Some recorded note links to `n` and lies one level above it. */
  ghost predicate LinkedFromAbove(smap: map<Path, Node>, n: Path)
    requires n in smap
  {
    exists q :: q in smap && n in smap[q].children && smap[q].depth + 1 == smap[n].depth
  }

  /** A parent stays a parent when entries are only added. */
  lemma ParentKept(a: map<Path, Node>, b: map<Path, Node>, n: Path)
    requires Extends(a, b) && n in a && LinkedFromAbove(a, n)
    ensures n in b && LinkedFromAbove(b, n)
  {
    var q :| q in a && n in a[q].children && a[q].depth + 1 == a[n].depth;
    assert q in b && b[q] == a[q];
  }

  /**
   * A note first recorded while entering `p` at `depth` is `p` itself, at
   * `depth`, or was reached from a recorded note one level above it.
   */
  lemma {:induction false} VisitParent(env: Env, st: Walk, p: Path, depth: nat, n: Path)
    requires Consistent(st)
    requires n in Visit(env, st, p, depth).smap && n !in st.smap
    ensures var r := Visit(env, st, p, depth);
      (n == p ==> r.smap[n].depth == depth) && (n != p ==> LinkedFromAbove(r.smap, n))
    decreases Known(env) + {p} - st.scope, 0, 0
  {
    var cs := Children(env, p);
    var st1 := Walk(st.scope + {p}, st.smap[p := Node(depth, cs)], true);
    var r := Visit(env, st, p, depth);
    VisitAllConsistent(env, st1, cs, depth + 1);
    assert r == VisitAll(env, st1, cs, depth + 1);
    if n != p {
      VisitAllParent(env, st1, cs, depth + 1, n);
      if n in cs {
        assert p in r.smap && r.smap[p] == Node(depth, cs);
      }
    }
  }

  lemma {:induction false} VisitAllParent(env: Env, st: Walk, cs: seq<Path>, depth: nat, n: Path)
    requires forall k :: 0 <= k < |cs| ==> cs[k] in Known(env)
    requires Consistent(st)
    requires n in VisitAll(env, st, cs, depth).smap && n !in st.smap
    ensures var r := VisitAll(env, st, cs, depth);
      (n in cs && r.smap[n].depth == depth) || LinkedFromAbove(r.smap, n)
    decreases Known(env) - st.scope, 1, |cs|
  {
    var st1 := Visit(env, st, cs[0], depth);
    VisitConsistent(env, st, cs[0], depth);
    VisitAllConsistent(env, st1, cs[1..], depth);
    if n in st1.smap {
      VisitParent(env, st, cs[0], depth, n);
      if n != cs[0] {
        ParentKept(st1.smap, VisitAll(env, st1, cs[1..], depth).smap, n);
      }
    } else {
      VisitAllParent(env, st1, cs[1..], depth, n);
    }
  }

  /** Once a note could not be read, the rest of the loop changes nothing. */
  lemma {:induction false} VisitAllStopped(env: Env, st: Walk, cs: seq<Path>, depth: nat)
    requires !st.ok
    requires forall k :: 0 <= k < |cs| ==> cs[k] in Known(env)
    ensures VisitAll(env, st, cs, depth) == st
    decreases |cs|
  {
    if cs != [] {
      VisitAllStopped(env, st, cs[1..], depth);
    }
  }

  /** A note that is entered is recorded with its children, which are then walked one level deeper. */
  lemma VisitEnters(env: Env, st: Walk, p: Path, depth: nat)
    requires !Cut(env, st, p, depth) && p in env.fs
    ensures Visit(env, st, p, depth) ==
      VisitAll(env, Walk(st.scope + {p}, st.smap[p := Node(depth, Children(env, p))], true), Children(env, p), depth + 1)
  {
  }

  /** One turn of the loop over the children. */
  lemma VisitAllStep(env: Env, st: Walk, cs: seq<Path>, i: nat, depth: nat)
    requires i < |cs| && forall k :: 0 <= k < |cs| ==> cs[k] in Known(env)
    ensures VisitAll(env, st, cs[i..], depth) == VisitAll(env, Visit(env, st, cs[i], depth), cs[i + 1..], depth)
  {
    assert cs[i..][1..] == cs[i + 1..];
  }

  /** A stopped walk stays stopped. */
  lemma {:induction false} VisitAllOk(env: Env, st: Walk, cs: seq<Path>, depth: nat)
    requires forall k :: 0 <= k < |cs| ==> cs[k] in Known(env)
    ensures VisitAll(env, st, cs, depth).ok ==> st.ok
    decreases |cs|
  {
    if cs != [] {
      VisitAllOk(env, Visit(env, st, cs[0], depth), cs[1..], depth);
    }
  }

  /** Some note of `scope` cannot be read. */
  ghost predicate HasUnreadable(env: Env, scope: set<Path>)
  {
    exists n :: n in scope && n !in env.fs
  }

  /**
   * Only a failed read aborts the walk: a walk that ends stopped either
   * started stopped or has put in scope a note that cannot be read.
   * Unresolved links and the depth limit never stop it.
   */
  lemma {:induction false} VisitFails(env: Env, st: Walk, p: Path, depth: nat)
    ensures var r := Visit(env, st, p, depth);
      !r.ok ==> !st.ok || HasUnreadable(env, r.scope)
    decreases Known(env) + {p} - st.scope, 0, 0
  {
    if !Cut(env, st, p, depth) {
      if p !in env.fs {
        assert p in Visit(env, st, p, depth).scope;
      } else {
        var cs := Children(env, p);
        VisitAllFails(env, Walk(st.scope + {p}, st.smap[p := Node(depth, cs)], true), cs, depth + 1);
      }
    }
  }

  lemma {:induction false} VisitAllFails(env: Env, st: Walk, cs: seq<Path>, depth: nat)
    requires forall k :: 0 <= k < |cs| ==> cs[k] in Known(env)
    ensures var r := VisitAll(env, st, cs, depth);
      !r.ok ==> !st.ok || HasUnreadable(env, r.scope)
    decreases Known(env) - st.scope, 1, |cs|
  {
    if cs != [] {
      var st1 := Visit(env, st, cs[0], depth);
      VisitFails(env, st, cs[0], depth);
      VisitAllFails(env, st1, cs[1..], depth);
      var r := VisitAll(env, st1, cs[1..], depth);
      if HasUnreadable(env, st1.scope) {
        var n :| n in st1.scope && n !in env.fs;
        assert n in r.scope;
      }
    }
  }

  /** Without a depth limit, a walk that finishes has every note of `cs` in scope. */
  lemma {:induction false} VisitAllCovers(env: Env, st: Walk, cs: seq<Path>, depth: nat)
    requires env.maxDepth == -1
    requires forall k :: 0 <= k < |cs| ==> cs[k] in Known(env)
    ensures var r := VisitAll(env, st, cs, depth);
      r.ok ==> forall k :: 0 <= k < |cs| ==> cs[k] in r.scope
    decreases |cs|
  {
    if cs != [] {
      var st1 := Visit(env, st, cs[0], depth);
      VisitAllCovers(env, st1, cs[1..], depth);
      VisitAllOk(env, st1, cs[1..], depth);
      forall k | 0 < k < |cs| ensures cs[k] == cs[1..][k - 1] {
      }
    }
  }

  /**
   * Without a depth limit, every note recorded during a walk that finishes
   * has all its children in scope.
   */
  lemma {:induction false} VisitCloses(env: Env, st: Walk, p: Path, depth: nat, n: Path)
    requires env.maxDepth == -1 && Consistent(st)
    requires n in Visit(env, st, p, depth).smap && n !in st.smap && Visit(env, st, p, depth).ok
    ensures var r := Visit(env, st, p, depth);
      forall k :: 0 <= k < |r.smap[n].children| ==> r.smap[n].children[k] in r.scope
    decreases Known(env) + {p} - st.scope, 0, 0
  {
    var cs := Children(env, p);
    var st1 := Walk(st.scope + {p}, st.smap[p := Node(depth, cs)], true);
    VisitAllConsistent(env, st1, cs, depth + 1);
    if n == p {
      VisitAllCovers(env, st1, cs, depth + 1);
    } else {
      VisitAllCloses(env, st1, cs, depth + 1, n);
    }
  }

  lemma {:induction false} VisitAllCloses(env: Env, st: Walk, cs: seq<Path>, depth: nat, n: Path)
    requires env.maxDepth == -1 && Consistent(st)
    requires forall k :: 0 <= k < |cs| ==> cs[k] in Known(env)
    requires n in VisitAll(env, st, cs, depth).smap && n !in st.smap && VisitAll(env, st, cs, depth).ok
    ensures var r := VisitAll(env, st, cs, depth);
      forall k :: 0 <= k < |r.smap[n].children| ==> r.smap[n].children[k] in r.scope
    decreases Known(env) - st.scope, 1, |cs|
  {
    var st1 := Visit(env, st, cs[0], depth);
    VisitConsistent(env, st, cs[0], depth);
    VisitAllConsistent(env, st1, cs[1..], depth);
    if n in st1.smap {
      VisitAllOk(env, st1, cs[1..], depth);
      VisitCloses(env, st, cs[0], depth, n);
    } else {
      VisitAllCloses(env, st1, cs[1..], depth, n);
    }
  }

  // ---------------------------------------------------------------------
  // The whole walk

  /** `_traverse_and_collect(start, 0, max_depth)` on fresh state. */
  function Collect(env: Env, start: Path): Walk
  {
    Visit(env, Start, start, 0)
  }

  /**
   * The walk from the start note terminates (it is a total function) with
   * `structure_map` keyed exactly by `notes_in_scope`; every record is
   * faithful, the start note is the only one at depth 0, and every note is
   * entered at most once (records are never overwritten).
   */
  lemma CollectShape(env: Env, start: Path)
    ensures var r := Collect(env, start);
      Consistent(r) && Faithful(env, r.smap) &&
      (r.ok ==> r.smap.Keys == r.scope) &&
      forall n :: n in r.smap && n != start ==> r.smap[n].depth >= 1
  {
    var r := Collect(env, start);
    VisitConsistent(env, Start, start, 0);
    VisitFaithful(env, Start, start, 0);
    forall n | n in r.smap && n != start ensures r.smap[n].depth >= 1 {
      VisitDepths(env, Start, start, 0, n);
    }
  }

  /**
   * Depth counts links from the start note: the start note, when recorded,
   * lies at depth 0, and every other recorded note is a child of a recorded
   * note one level above it.
   */
  lemma CollectParents(env: Env, start: Path)
    ensures var r := Collect(env, start);
      (start in r.smap ==> r.smap[start].depth == 0) &&
      forall n :: n in r.smap && n != start ==> LinkedFromAbove(r.smap, n)
  {
    var r := Collect(env, start);
    if start in r.smap {
      VisitParent(env, Start, start, 0, start);
    }
    forall n | n in r.smap && n != start ensures LinkedFromAbove(r.smap, n) {
      VisitParent(env, Start, start, 0, n);
    }
  }

  /**
   * With no depth limit (`export_depth: infinite`), a walk that finishes
   * records the start note and is closed under links: every child of a
   * recorded note is recorded.
   */
  lemma CollectClosed(env: Env, start: Path)
    requires env.maxDepth == -1
    requires Collect(env, start).ok
    ensures var r := Collect(env, start);
      start in r.smap &&
      forall n :: n in r.smap ==> forall k :: 0 <= k < |r.smap[n].children| ==> r.smap[n].children[k] in r.smap
  {
    var r := Collect(env, start);
    VisitConsistent(env, Start, start, 0);
    forall n | n in r.smap ensures forall k :: 0 <= k < |r.smap[n].children| ==> r.smap[n].children[k] in r.smap {
      VisitCloses(env, Start, start, 0, n);
    }
  }
}
