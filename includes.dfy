/**
 * `_assemble_full_markdown`: every `!include["name"]` directive of the
 * guide is replaced by the flattened note of that name (or a failure
 * comment), then the front matter of the result is parsed for pandoc.
 */
module Includes {
  import opened Wrappers
  import opened Text
  import opened Config
  import FrontMatter

  /** What a directive starts with. */
  const Open: string := "!include[\""

  /** The directive naming `name`. */
  function Include(name: string): string
  {
    Open + name + "\"]"
  }

  /** The end of the run of non-`"` characters of `t` from `i` (the greedy `[^"]+`). */
  function QuoteEnd(t: string, i: nat): (j: nat)
    requires i <= |t|
    ensures i <= j <= |t|
    ensures forall k :: i <= k < j ==> t[k] != '"'
    ensures j < |t| ==> t[j] == '"'
    decreases |t| - i
  {
    if i == |t| || t[i] == '"' then i else QuoteEnd(t, i + 1)
  }

  /**
   * The pattern `!include\["([^"]+)"\]` matched at the start of `t`: the
   * name and the length of the match.
   */
  function Directive(t: string): (r: Option<(string, nat)>)
    ensures r.Some? ==> 0 < r.value.1 <= |t| && t[..r.value.1] == Include(r.value.0)
    ensures r.Some? ==> r.value.0 != [] && '"' !in r.value.0
  {
    if |t| >= |Open| && t[..|Open|] == Open then
      var j := QuoteEnd(t, |Open|);
      if j > |Open| && j + 2 <= |t| && t[j..j + 2] == "\"]" then
        var name := t[|Open|..j];
        assert forall k :: 0 <= k < |name| ==> name[k] == t[|Open| + k];
        assert t[..j + 2] == t[..|Open|] + name + t[j..j + 2];
        Some((name, j + 2))
      else None
    else None
  }

  /** Prefixes `a` to a successful expansion; a failure passes through. */
  function Prepend(a: string, r: Result<string>): Result<string>
  {
    match r
    case Success(u) => Success(a + u)
    case Failure(e) => Failure(e)
  }

  /**
   * `re.sub` with the replacement `fetch`: matches scanned left to right,
   * never overlapping; the first replacement that raises aborts the scan.
   */
  function Expand(fetch: string -> Result<string>, s: string): Result<string>
    decreases |s|
  {
    if s == [] then Success([])
    else match Directive(s)
      case Some((name, len)) =>
        (match fetch(name)
         case Failure(e) => Failure(e)
         case Success(t) => Prepend(t, Expand(fetch, s[len..])))
      case None => Prepend([s[0]], Expand(fetch, s[1..]))
  }

  /** The names of the directives the scan meets, in order. */
  function Names(s: string): seq<string>
    decreases |s|
  {
    if s == [] then []
    else match Directive(s)
      case Some((name, len)) => [name] + Names(s[len..])
      case None => Names(s[1..])
  }

  /**
   * Whether `notes_dir / name` is the file `name` of the notes folder:
   * a single path component other than `.` and `..`.
   */
  predicate PlainName(name: string)
  {
    '/' !in name && name != "." && name != ".."
  }

  /** The text left in place of a directive whose path does not exist. */
  function Missing(name: string): string
  {
    "<!-- INCLUDE FAILED: " + name + " -->"
  }

  /**
   * `replacer`: `notes_dir / name` read if it exists. For a plain name that
   * is the note written under that name, or the failure comment. Any other
   * name (`./a.md`, `../Assets/p.png`, an absolute path, `.`, `..`) is
   * resolved by the file system outside this model, given as `other`: it
   * may read some file, find nothing, or raise (a directory).
   */
  function Lookup(notes: map<string, string>, other: string -> Result<string>, name: string): (r: Result<string>)
    ensures r.Failure? ==> !PlainName(name)
    ensures PlainName(name) && name in notes ==> r == Success(notes[name])
    ensures PlainName(name) && name !in notes ==> r == Success(Missing(name))
  {
    if !PlainName(name) then other(name)
    else if name in notes then Success(notes[name])
    else Success(Missing(name))
  }

  /** The replacement function handed to `re.sub`. */
  function Fetch(notes: map<string, string>, other: string -> Result<string>): string -> Result<string>
  {
    name => Lookup(notes, other, name)
  }

  /** A directive for a name without `"` is recognised as exactly that directive. */
  lemma DirectiveOfInclude(name: string, rest: string)
    requires name != [] && '"' !in name
    ensures Directive(Include(name) + rest) == Some((name, |Include(name)|))
  {
    var t := Include(name) + rest;
    var n := |Open|;
    assert t[..n] == Open;
    assert forall k :: n <= k < n + |name| ==> t[k] == name[k - n];
    var j := QuoteEnd(t, n);
    assert t[n + |name|] == '"';
    assert j == n + |name|;
    assert t[j..j + 2] == "\"]";
    assert t[n..j] == name;
  }

  /** Substituting every directive by itself gives the text back: the scan cuts out exactly the directives. */
  lemma {:induction false} ExpandRoundTrip(s: string)
    ensures Expand(name => Success(Include(name)), s) == Success(s)
    decreases |s|
  {
    if s != [] {
      match Directive(s)
      case Some((name, len)) =>
        ExpandRoundTrip(s[len..]);
        assert s == s[..len] + s[len..];
      case None =>
        ExpandRoundTrip(s[1..]);
        assert s == [s[0]] + s[1..];
    }
  }

  /** A directive is replaced by what `fetch` gives for its name, and the scan goes on after it. */
  lemma ExpandDirective(fetch: string -> Result<string>, name: string, rest: string)
    requires name != [] && '"' !in name
    ensures fetch(name).Failure? ==> Expand(fetch, Include(name) + rest) == Failure(fetch(name).error)
    ensures fetch(name).Success? ==>
      Expand(fetch, Include(name) + rest) == Prepend(fetch(name).value, Expand(fetch, rest))
  {
    DirectiveOfInclude(name, rest);
    assert (Include(name) + rest)[|Include(name)|..] == rest;
  }

  /** Prefixing twice is prefixing the concatenation. */
  lemma PrependTwice(a: string, b: string, r: Result<string>)
    ensures Prepend(a, Prepend(b, r)) == Prepend(a + b, r)
  {
    if r.Success? {
      assert a + (b + r.value) == (a + b) + r.value;
    }
  }

  /** Text without `!` passes through unchanged, and the scan of what follows it is unaffected. */
  lemma {:induction false} ExpandPlainPrefix(fetch: string -> Result<string>, a: string, b: string)
    requires '!' !in a
    ensures Expand(fetch, a + b) == Prepend(a, Expand(fetch, b))
    decreases |a|
  {
    if a == [] {
      assert a + b == b;
      if Expand(fetch, b).Success? {
        assert a + Expand(fetch, b).value == Expand(fetch, b).value;
      }
    } else {
      var s := a + b;
      assert s[0] == a[0] != '!';
      assert Directive(s).None?;
      assert s[1..] == a[1..] + b;
      ExpandPlainPrefix(fetch, a[1..], b);
      assert a == [a[0]] + a[1..];
      PrependTwice([a[0]], a[1..], Expand(fetch, b));
    }
  }

  /** The expansion fails exactly when the replacement fails for one of the directives the scan meets. */
  lemma {:induction false} ExpandFails(fetch: string -> Result<string>, s: string)
    ensures Expand(fetch, s).Failure? <==> exists n :: n in Names(s) && fetch(n).Failure?
    decreases |s|
  {
    if s != [] {
      match Directive(s)
      case Some((name, len)) =>
        ExpandFails(fetch, s[len..]);
        assert Names(s) == [name] + Names(s[len..]);
      case None =>
        ExpandFails(fetch, s[1..]);
    }
  }

  /** A text whose directives all name plain file names expands without failing. */
  lemma PlainNamesExpand(notes: map<string, string>, other: string -> Result<string>, s: string)
    requires forall n :: n in Names(s) ==> PlainName(n)
    ensures Expand(Fetch(notes, other), s).Success?
  {
    ExpandFails(Fetch(notes, other), s);
  }

  /** Whether `yaml.safe_load` gave a value Python treats as false (so `or {}` replaces it). */
  predicate Falsy(y: Yaml)
  {
    match y
    case YNull => true
    case YStr(s) => s == []
    case YInt(i) => i == 0
    case YBool(b) => !b
    case YFloat(r, _) => r == 0.0
    case YNonFinite(_) => false
    case YList(items, _) => items == []
    case YMap(entries, _) => entries == map[]
    case YOther(_) => false
  }

  /**
   * `_assemble_full_markdown` for the guide text `guide`, with `notes` the
   * files written to the notes folder by name, `other` the reads of
   * path-like names and `parse` `yaml.safe_load`. A directive whose read
   * raises aborts it; a guide without front matter is an error (`.group`
   * on `None`).
   */
  function AssembleFull(guide: string, notes: map<string, string>, other: string -> Result<string>,
                        parse: string -> Result<Yaml>): (r: Result<(string, Yaml)>)
    ensures r.Success? ==> Expand(Fetch(notes, other), guide) == Success(r.value.0)
    ensures r.Success? ==> !Falsy(r.value.1) || r.value.1 == YMap(map[], "{}")
    ensures Expand(Fetch(notes, other), guide).Failure? ==> r == Failure(Expand(Fetch(notes, other), guide).error)
    ensures Expand(Fetch(notes, other), guide).Success? ==>
      FrontMatter.Find(Expand(Fetch(notes, other), guide).value).None? ==> r.Failure?
  {
    match Expand(Fetch(notes, other), guide)
    case Failure(e) => Failure(e)
    case Success(full) =>
      match FrontMatter.Find(full)
      case None => Failure("'NoneType' object has no attribute 'group'")
      case Some(m) =>
        match parse(FrontMatter.Body(full, m))
        case Failure(e) => Failure(e)
        case Success(y) => Success((full, if Falsy(y) then YMap(map[], "{}") else y))
  }

  /**
   * A guide that begins with a front-matter header free of `!` keeps that
   * header through the expansion, so assembling it fails only if a
   * directive's read raises or the YAML parser fails.
   */
  lemma AssembleKeepsHeader(header: string, rest: string, notes: map<string, string>,
                            other: string -> Result<string>, parse: string -> Result<Yaml>)
    requires '!' !in header
    requires forall tail :: FrontMatter.Find(header + tail).Some?
    ensures Expand(Fetch(notes, other), header + rest) == Prepend(header, Expand(Fetch(notes, other), rest))
    ensures Expand(Fetch(notes, other), rest).Failure? ==>
      AssembleFull(header + rest, notes, other, parse) == Failure(Expand(Fetch(notes, other), rest).error) &&
      exists n :: n in Names(rest) && !PlainName(n) && other(n).Failure?
    ensures Expand(Fetch(notes, other), rest).Success? ==>
      var full := header + Expand(Fetch(notes, other), rest).value;
      FrontMatter.Find(full).Some? &&
      (AssembleFull(header + rest, notes, other, parse).Failure? ==>
        parse(FrontMatter.Body(full, FrontMatter.Find(full).value)).Failure?)
  {
    var fetch := Fetch(notes, other);
    ExpandPlainPrefix(fetch, header, rest);
    ExpandFails(fetch, rest);
    if Expand(fetch, rest).Success? {
      var tail := Expand(fetch, rest).value;
      assert FrontMatter.Find(header + tail).Some?;
    }
  }
}
