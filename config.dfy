/**
 * The module-level helpers: `read_export_config` on the parsed front matter
 * of the start note, the depth coercion of automatic mode, and
 * `find_vault_for_note`.
 */
module Config {
  import opened Wrappers
  import opened Text
  import opened Paths
  import FrontMatter

  /**
   * A value `yaml.safe_load` can produce. Floats, lists, mappings and other
   * scalars (dates) carry the text Python's `str()` gives them. `YOther`
   * is always taken as truthy: an empty `!!set` or `!!binary`, which Python
   * treats as false, is not told apart. The guide's front matter is a
   * mapping, so the guide never meets that case.
   */
  datatype Yaml =
    | YStr(s: string)
    | YInt(i: int)
    | YBool(b: bool)
    | YNull
    | YFloat(r: real, shown: string)
    | YNonFinite(shown: string)
    | YList(items: seq<Yaml>, shown: string)
    | YMap(entries: map<string, Yaml>, shown: string)
    | YOther(shown: string)

  /** `str(value)`, as an f-string shows it. */
  function Show(y: Yaml): string
  {
    match y
    case YStr(s) => s
    case YInt(i) => IntToString(i)
    case YBool(b) => if b then "True" else "False"
    case YNull => "None"
    case YFloat(_, shown) => shown
    case YNonFinite(shown) => shown
    case YList(_, shown) => shown
    case YMap(_, shown) => shown
    case YOther(shown) => shown
  }

  /** `value.lower()`: only strings have the method; on anything else Python raises. */
  function LowerStr(y: Yaml): (r: Result<string>)
    ensures r.Success? <==> y.YStr?
    ensures r.Success? ==> r.value == Lower(y.s)
  {
    if y.YStr? then Success(Lower(y.s)) else Failure("'" + Show(y) + "' has no attribute 'lower'")
  }

  /** `d.get(key, default)`. */
  function Get(d: map<string, Yaml>, key: string, default: Yaml): Yaml
  {
    if key in d then d[key] else default
  }

  /** The `metadata` entry of the configuration. */
  datatype Metadata = Metadata(title: Yaml, author: Yaml, date: Yaml)

  /** The entries a front-matter mapping adds to the configuration. */
  datatype Extras = Extras(style: string, cover: Yaml, metadata: Metadata)

  /** The configuration dictionary `read_export_config` returns. */
  datatype ExportConfig = ExportConfig(mode: string, depth: Yaml, formats: seq<Yaml>, extras: Option<Extras>)

  const Defaults: ExportConfig := ExportConfig("manual", YInt(1), [], None)

  /**
   * `read_export_config` for a start note with file stem `stem` and text
   * `content`; `parse` is `yaml.safe_load` (a failure is the exception it
   * raises) and `today` the current date as `%Y-%m-%d`.
   */
  function ReadExportConfig(stem: string, content: string, parse: string -> Result<Yaml>, today: string): (r: Result<ExportConfig>)
    ensures FrontMatter.Find(content).None? ==> r == Success(Defaults)
    ensures FrontMatter.Find(content).Some? ==>
      var y := parse(FrontMatter.Body(content, FrontMatter.Find(content).value));
      (y.Failure? ==> r.Failure?) &&
      (y.Success? && y.value.YMap? ==> r == FromMapping(stem, y.value.entries, today)) &&
      (y.Success? && !y.value.YMap? ==> r == Success(Defaults))
    ensures r.Success? ==> forall j :: 0 <= j < |r.value.mode| ==> !IsUpper(r.value.mode[j])
  {
    match FrontMatter.Find(content)
    case None => Success(Defaults)
    case Some(m) =>
      match parse(FrontMatter.Body(content, m))
      case Failure(e) => Failure(e)
      case Success(YMap(d, _)) => FromMapping(stem, d, today)
      case Success(_) => Success(Defaults)
  }

  /** The branch `isinstance(user_yaml, dict)`. */
  function FromMapping(stem: string, d: map<string, Yaml>, today: string): (r: Result<ExportConfig>)
    ensures r.Success? ==> forall j :: 0 <= j < |r.value.mode| ==> !IsUpper(r.value.mode[j])
    ensures r.Success? ==> r.value.extras.Some?
    ensures r.Failure? <==> !Get(d, "export_mode", YStr("manual")).YStr? || !Get(d, "export_style", YStr("classic")).YStr?
    ensures r.Success? ==>
      r.value.mode == Lower(Get(d, "export_mode", YStr("manual")).s) &&
      r.value.depth == Get(d, "export_depth", YInt(1))
    ensures r.Success? ==>
      r.value.extras == Some(Extras(
        Lower(Get(d, "export_style", YStr("classic")).s),
        Get(d, "cover-image", YStr("")),
        Metadata(Get(d, "export_title", YStr(stem)), Get(d, "export_author", YStr("Unknown")), Get(d, "export_date", YStr(today)))))
  {
    match LowerStr(Get(d, "export_mode", YStr("manual")))
    case Failure(e) => Failure(e)
    case Success(mode) =>
      var depth := Get(d, "export_depth", YInt(1));
      var formats := Get(d, "export_formats", YList([], "[]"));
      match LowerStr(Get(d, "export_style", YStr("classic")))
      case Failure(e) => Failure(e)
      case Success(style) =>
        var metadata := Metadata(
          Get(d, "export_title", YStr(stem)),
          Get(d, "export_author", YStr("Unknown")),
          Get(d, "export_date", YStr(today)));
        LowerIsLower(Get(d, "export_mode", YStr("manual")).s);
        Success(ExportConfig(mode, depth, if formats.YList? then formats.items else [formats],
          Some(Extras(style, Get(d, "cover-image", YStr("")), metadata))))
  }

  /** Lowered text has no upper-case letter. */
  lemma LowerIsLower(s: string)
    ensures forall j :: 0 <= j < |Lower(s)| ==> !IsUpper(Lower(s)[j])
  {
  }

  /** Settings the front matter leaves out take their defaults. */
  lemma MappingDefaults(stem: string, today: string)
    ensures FromMapping(stem, map[], today) ==
      Success(ExportConfig("manual", YInt(1), [], Some(Extras("classic", YStr(""),
        Metadata(YStr(stem), YStr("Unknown"), YStr(today))))))
  {
    assert Lower("manual") == "manual";
    assert Lower("classic") == "classic";
  }

  /** The mode is read case-insensitively: any spelling of a string mode gives the same result. */
  lemma ModeIgnoresCase(stem: string, d: map<string, Yaml>, today: string, s1: string, s2: string)
    requires Lower(s1) == Lower(s2)
    ensures FromMapping(stem, d["export_mode" := YStr(s1)], today) == FromMapping(stem, d["export_mode" := YStr(s2)], today)
  {
  }

  /** A mode that is not a string (a number, a list, an empty value) aborts the run. */
  lemma NonStringModeFails(stem: string, d: map<string, Yaml>, today: string)
    requires "export_mode" in d && !d["export_mode"].YStr?
    ensures FromMapping(stem, d, today).Failure?
  {
  }

  /** `export_formats` always ends up a list: a single value is wrapped. */
  lemma FormatsWrapped(stem: string, d: map<string, Yaml>, today: string)
    requires FromMapping(stem, d, today).Success?
    ensures var f := Get(d, "export_formats", YList([], "[]"));
      FromMapping(stem, d, today).value.formats == if f.YList? then f.items else [f]
  {
  }

  // ---------------------------------------------------------------------
  // The depth setting

  /** Whether a character is an ASCII digit, the digits `int()` reads here. */
  predicate IsDigit(c: char)
  {
    '0' <= c <= '9'
  }

  /** The value of a run of decimal digits. */
  function DigitsValue(s: string): nat
    requires forall j :: 0 <= j < |s| ==> IsDigit(s[j])
  {
    if s == [] then 0
    else
      assert IsDigit(s[|s| - 1]);
      DigitsValue(s[..|s| - 1]) * 10 + (s[|s| - 1] as int - '0' as int)
  }

  /** `int(s)` for a string: surrounding whitespace, an optional sign, then at least one digit. */
  function ParseInt(s: string): (r: Result<int>)
  {
    var t := Strip(s);
    var neg := t != [] && t[0] == '-';
    var start := if t != [] && (t[0] == '-' || t[0] == '+') then 1 else 0;
    var digits := t[start..];
    if digits != [] && forall j :: 0 <= j < |digits| ==> IsDigit(digits[j]) then
      var v: int := DigitsValue(digits);
      Success(if neg then -v else v)
    else Failure("invalid literal for int() with base 10: '" + s + "'")
  }

  /** The digits `NatToString` writes read back as the number. */
  lemma {:induction false} DigitsRoundTrip(n: nat)
    ensures forall j :: 0 <= j < |NatToString(n)| ==> IsDigit(NatToString(n)[j])
    ensures DigitsValue(NatToString(n)) == n
  {
    var s := NatToString(n);
    if n >= 10 {
      DigitsRoundTrip(n / 10);
      var init := NatToString(n / 10);
      assert s == init + [DigitChar(n % 10)];
      assert s[..|s| - 1] == init;
    }
  }

  /** `int(str(i)) == i`. */
  lemma ParseIntRoundTrip(i: int)
    ensures ParseInt(IntToString(i)) == Success(i)
  {
    var s := IntToString(i);
    var n := if i < 0 then -i else i;
    DigitsRoundTrip(n);
    var d := NatToString(n);
    assert s[0] == '-' || IsDigit(s[0]);
    assert IsDigit(s[|s| - 1]) by {
      if i < 0 { assert s[|s| - 1] == d[|d| - 1]; }
    }
    assert SpaceEnd(s, 0) == 0;
    assert LStrip(s) == s;
    assert RStrip(s) == s;
    if i < 0 {
      assert s[1..] == d;
    } else {
      assert s[0..] == d;
    }
  }

  /** `int(value)`: integers as they are, booleans as 0 and 1, floats truncated, strings parsed. */
  function ToInt(y: Yaml): Result<int>
  {
    match y
    case YInt(i) => Success(i)
    case YBool(b) => Success(if b then 1 else 0)
    case YFloat(r, _) => Success(if r >= 0.0 then r.Floor else -((-r).Floor))
    case YNonFinite(shown) => Failure("cannot convert float " + shown + " to integer")
    case YStr(s) => ParseInt(s)
    case _ => Failure("int() argument must be a string or a number, not '" + Show(y) + "'")
  }

  /** `-1 if str(depth).lower() == 'infinite' else int(depth)`. */
  function MaxDepth(depth: Yaml): (r: Result<int>)
    ensures Lower(Show(depth)) == "infinite" ==> r == Success(-1)
  {
    if Lower(Show(depth)) == "infinite" then Success(-1) else ToInt(depth)
  }

  /** Any spelling of "infinite" lifts the limit; an integer in any form is taken as it is. */
  lemma MaxDepthCases(i: int, s: string)
    requires Lower(s) == "infinite"
    ensures MaxDepth(YStr(s)) == Success(-1)
    ensures MaxDepth(YInt(i)) == Success(i)
    ensures MaxDepth(YStr(IntToString(i))) == Success(i)
  {
    var t := IntToString(i);
    assert Lower(t) != "infinite" by {
      if i >= 0 { assert Lower(t)[0] == LowerChar(t[0]); } else { assert Lower(t)[0] == '-'; }
    }
    ParseIntRoundTrip(i);
  }

  // ---------------------------------------------------------------------
  // Choosing the vault

  /**
   * `find_vault_for_note`: among the configured vaults that are proper
   * ancestors of the note, the one with the longest path string, the
   * earliest in the configuration on ties (the sort is stable).
   */
  function FindVaultForNote(vaults: seq<Path>, note: Path): (r: Option<Path>)
    ensures r.None? <==> forall k :: 0 <= k < |vaults| ==> !IsProperAncestor(vaults[k], note)
    ensures r.Some? ==> exists i :: (0 <= i < |vaults| && vaults[i] == r.value && IsProperAncestor(r.value, note) &&
      (forall k :: 0 <= k < |vaults| && IsProperAncestor(vaults[k], note) ==> StrLen(vaults[k]) <= StrLen(r.value)) &&
      (forall k :: 0 <= k < i && IsProperAncestor(vaults[k], note) ==> StrLen(vaults[k]) < StrLen(r.value)))
  {
    if vaults == [] then None
    else
      var rest := FindVaultForNote(vaults[1..], note);
      if IsProperAncestor(vaults[0], note) && (rest.None? || StrLen(rest.value) <= StrLen(vaults[0])) then
        Some(vaults[0])
      else
        assert rest.Some? ==> exists i :: 0 <= i < |vaults| && vaults[i] == rest.value && i >= 1 && IsProperAncestor(rest.value, note) by {
          if rest.Some? {
            var i :| 0 <= i < |vaults[1..]| && vaults[1..][i] == rest.value;
            assert vaults[i + 1] == rest.value;
          }
        }
        rest
  }

  /**
   * For a note with well-formed components, the vault chosen is the deepest
   * configured ancestor: no configured ancestor has more components.
   */
  lemma ChosenVaultIsDeepest(vaults: seq<Path>, note: Path, k: nat)
    requires WellFormed(note)
    requires FindVaultForNote(vaults, note).Some?
    requires k < |vaults| && IsProperAncestor(vaults[k], note)
    ensures |vaults[k]| <= |FindVaultForNote(vaults, note).value|
  {
    var v := FindVaultForNote(vaults, note).value;
    if |vaults[k]| > |v| {
      assert vaults[k][..|v|] == note[..|v|] == v;
      assert v == vaults[k][..|v|];
      StrLenMonotone(vaults[k], |v|);
    }
  }
}
