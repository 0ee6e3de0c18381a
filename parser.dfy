/** Rules and conditions: the records the organizer's YAML rule files are
    parsed into, condition matching against a file, the size-string parser,
    and the loading of one rule file. A rule file arrives already decoded
    from YAML; each field of a mapping is absent, null or present. */
module Parser {
  import opened Common
  import opened Paths
  import opened FileSystem

  /** A condition on a file; every check is skipped when its field is falsy. */
  datatype Condition = Condition(
    path: Option<string>,
    extension: Option<seq<string>>,
    pattern: Option<string>,
    sizeGt: Option<int>,
    sizeLt: Option<int>,
    namePattern: Option<string>)

  const NoCondition: Condition := Condition(None, None, None, None, None, None)

  /** `re.search(pattern, text)` found a match. */
  type Search = (string, string) -> bool

  /** An extension as the comparison sees it: lower case, leading dots removed. */
  function ExtensionKey(e: string): string {
    LStrip(Lower(e), {'.'})
  }

  function ExtensionKeys(extensions: seq<string>): (r: seq<string>)
    ensures |r| == |extensions|
    ensures forall i :: 0 <= i < |r| ==> r[i] == ExtensionKey(extensions[i])
  {
    seq(|extensions|, i requires 0 <= i < |extensions| => ExtensionKey(extensions[i]))
  }

  /** Python's truthiness of an optional integer bound: present and not 0. */
  predicate Bound(b: Option<int>) {
    b.Some? && b.value != 0
  }

  predicate PathCheck(c: Condition, p: Path, home: string) {
    !Truthy(c.path) || StartsWith(PathString(p), ExpandUser(home, c.path.value))
  }

  predicate ExtensionCheck(c: Condition, p: Path) {
    c.extension.None? || c.extension.value == []
    || ExtensionKey(Suffix(Name(p))) in ExtensionKeys(c.extension.value)
  }

  predicate NamePatternCheck(c: Condition, p: Path, search: Search) {
    !Truthy(c.namePattern) || search(c.namePattern.value, Name(p))
  }

  predicate PatternCheck(c: Condition, p: Path, search: Search) {
    !Truthy(c.pattern) || search(c.pattern.value, Name(p))
  }

  predicate SizeCheck(c: Condition, p: Path, nodes: Nodes) {
    !(Bound(c.sizeGt) || Bound(c.sizeLt))
    || (Exists(nodes, p)
        && (Bound(c.sizeGt) ==> Lookup(nodes, p).value.size > c.sizeGt.value)
        && (Bound(c.sizeLt) ==> Lookup(nodes, p).value.size < c.sizeLt.value))
  }

  /** `Condition.matches`: the checks in source order, each returning False as
      soon as it fails; a failed stat fails the size check. */
  function Matches(c: Condition, p: Path, nodes: Nodes, home: string, search: Search): (r: bool)
    ensures r <==> PathCheck(c, p, home) && ExtensionCheck(c, p) && NamePatternCheck(c, p, search)
                   && PatternCheck(c, p, search) && SizeCheck(c, p, nodes)
  {
    if Truthy(c.path) && !StartsWith(PathString(p), ExpandUser(home, c.path.value)) then false
    else if c.extension.Some? && c.extension.value != []
            && ExtensionKey(Suffix(Name(p))) !in ExtensionKeys(c.extension.value) then false
    else if Truthy(c.namePattern) && !search(c.namePattern.value, Name(p)) then false
    else if Truthy(c.pattern) && !search(c.pattern.value, Name(p)) then false
    else if Bound(c.sizeGt) || Bound(c.sizeLt) then SizeWithin(c, p, nodes)
    else true
  }

  /** The size branch of `Condition.matches`: a stat that raises fails it. */
  function SizeWithin(c: Condition, p: Path, nodes: Nodes): (r: bool)
    requires Bound(c.sizeGt) || Bound(c.sizeLt)
    ensures r <==> SizeCheck(c, p, nodes)
  {
    match Lookup(nodes, p)
    case None => false
    case Some(n) =>
      if Bound(c.sizeGt) && n.size <= c.sizeGt.value then false
      else if Bound(c.sizeLt) && n.size >= c.sizeLt.value then false
      else true
  }

  // ---------------------------------------------------------------------
  // Integers and sizes

  function DigitValue(c: char): nat
    requires IsDigit(c)
  {
    c as int - '0' as int
  }

  /** The value of a string of decimal digits, most significant first. */
  function DigitsValue(s: string): nat
    requires AllDigits(s)
    decreases |s|
  {
    if s == [] then 0 else DigitsValue(s[..|s| - 1]) * 10 + DigitValue(s[|s| - 1])
  }

  /** A stripped ASCII decimal numeral with at most one sign. */
  function ParseNumeral(t: string): (r: Option<int>)
    ensures r.Some? ==> t != [] && IsDigit(t[|t| - 1])
  {
    if |t| >= 2 && (t[0] == '+' || t[0] == '-') && AllDigits(t[1..]) then
      var magnitude: int := DigitsValue(t[1..]);
      Some(if t[0] == '-' then -magnitude else magnitude)
    else if t != [] && AllDigits(t) then Some(DigitsValue(t))
    else None
  }

  /** `int(s)`: surrounding whitespace is ignored; anything but a numeral
      raises (None). */
  function ParseInteger(s: string): Option<int> {
    ParseNumeral(Strip(s))
  }

  /** The decimal numeral of `n`. */
  function Decimal(n: nat): (s: string)
    ensures s != [] && AllDigits(s)
  {
    if n < 10 then ["0123456789"[n]] else Decimal(n / 10) + ["0123456789"[n % 10]]
  }

  lemma {:induction false} DecimalValue(n: nat)
    ensures DigitsValue(Decimal(n)) == n
  {
    if n >= 10 {
      DecimalValue(n / 10);
      var s := Decimal(n);
      assert s[..|s| - 1] == Decimal(n / 10);
    }
  }

  lemma ParseDigits(d: string)
    requires d != [] && AllDigits(d)
    ensures ParseInteger(d) == Some(DigitsValue(d))
  {
    StripKeeps(d);
  }

  lemma ParseNegativeDigits(d: string)
    requires d != [] && AllDigits(d)
    ensures ParseInteger("-" + d) == Some(-(DigitsValue(d) as int))
  {
    var t := "-" + d;
    assert t[0] == '-' && t[1..] == d;
    assert !IsSpace(t[|t| - 1]) by {
      assert t[|t| - 1] == d[|d| - 1] && IsDigit(d[|d| - 1]);
    }
    StripKeeps(t);
    NegativeNumeral(t);
  }

  lemma NegativeNumeral(t: string)
    requires |t| >= 2 && t[0] == '-' && AllDigits(t[1..])
    ensures ParseNumeral(t) == Some(-(DigitsValue(t[1..]) as int))
  {
  }

  /** `int` reads back every numeral `Decimal` writes. */
  lemma ParseDecimal(n: nat)
    ensures ParseInteger(Decimal(n)) == Some(n)
  {
    DecimalValue(n);
    ParseDigits(Decimal(n));
  }

  /** A numeral cannot end in a character that is neither a digit nor a space. */
  lemma ParseIntegerBadEnd(s: string)
    requires s != [] && !IsDigit(s[|s| - 1]) && !IsSpace(s[|s| - 1])
    ensures ParseInteger(s) == None
  {
    var last := s[|s| - 1];
    SpaceIsWhitespace(last);
    var l := LStrip(s, Whitespace);
    assert l[|l| - 1] == last;
    assert RStrip(l, Whitespace) == l;
  }

  /** The unit table of `parse_size`, in the order the loop tries it. */
  const Units: seq<(string, int)> := [
    ("B", 1),
    ("KB", 1024),
    ("MB", 1024 * 1024),
    ("GB", 1024 * 1024 * 1024),
    ("TB", 1024 * 1024 * 1024 * 1024)]

  /** How the unit loop ends: a value returned, a failed parse that `break`s,
      or no unit matched. */
  datatype UnitScan = UnitValue(bytes: int) | Stopped | NoUnit

  function ScanUnits(u: string, units: seq<(string, int)>): UnitScan
    decreases |units|
  {
    if units == [] then NoUnit
    else if EndsWith(u, units[0].0) then
      match ParseInteger(u[..|u| - |units[0].0|])
      case Some(n) => UnitValue(n * units[0].1)
      case None => Stopped
    else ScanUnits(u, units[1..])
  }

  /** `parse_size`: strip and upper-case, try the units in table order, then
      the whole string as a number, then 0. */
  function ParseSize(s: string): int {
    SizeOf(Upper(Strip(s)))
  }

  /** `parse_size` after stripping and upper-casing. */
  function SizeOf(u: string): int {
    match ScanUnits(u, Units)
    case UnitValue(n) => n
    case _ => if ParseInteger(u).Some? then ParseInteger(u).value else 0
  }

  lemma UpperKeeps(s: string)
    requires forall i :: 0 <= i < |s| ==> !('a' <= s[i] <= 'z')
    ensures Upper(s) == s
  {
  }

  /** "B" is first in the table, so it alone decides a string ending in "B". */
  lemma ScanUnitsB(u: string)
    requires EndsWith(u, "B")
    ensures ParseInteger(u[..|u| - 1]).Some? ==> ScanUnits(u, Units) == UnitValue(ParseInteger(u[..|u| - 1]).value)
    ensures ParseInteger(u[..|u| - 1]).None? ==> ScanUnits(u, Units) == Stopped
  {
    assert Units[0] == ("B", 1);
  }

  lemma {:induction false} ScanUnitsMissing(u: string, units: seq<(string, int)>)
    requires forall k :: 0 <= k < |units| ==> !EndsWith(u, units[k].0)
    ensures ScanUnits(u, units) == NoUnit
    decreases |units|
  {
    if units != [] {
      ScanUnitsMissing(u, units[1..]);
    }
  }

  lemma UnitEndsInB(k: nat)
    requires k < |Units|
    ensures Units[k].0 != [] && Units[k].0[|Units[k].0| - 1] == 'B'
  {
  }

  /** Every unit ends in "B", so a string ending otherwise matches none. */
  lemma ScanUnitsNone(u: string)
    requires u == [] || u[|u| - 1] != 'B'
    ensures ScanUnits(u, Units) == NoUnit
  {
    forall k | 0 <= k < |Units| ensures !EndsWith(u, Units[k].0) {
      UnitEndsInB(k);
    }
    ScanUnitsMissing(u, Units);
  }

  /** A byte count written without a unit is read as that count. */
  lemma ParseSizeDigits(d: string)
    requires d != [] && AllDigits(d)
    ensures ParseSize(d) == DigitsValue(d)
  {
    ParseDigits(d);
    StripKeeps(d);
    UpperKeeps(d);
    ScanUnitsNone(d);
  }

  /** Digits followed by "B" are left alone by stripping and upper-casing. */
  lemma DigitsBKept(d: string)
    requires d != [] && AllDigits(d)
    ensures Upper(Strip(d + "B")) == d + "B"
  {
    var db := d + "B";
    assert db[0] == d[0] && db[|db| - 1] == 'B';
    StripKeeps(db);
    DigitsBUpper(d);
  }

  lemma DigitsBUpper(d: string)
    requires AllDigits(d)
    ensures Upper(d + "B") == d + "B"
  {
    var db := d + "B";
    forall i | 0 <= i < |db| ensures !('a' <= db[i] <= 'z') {
      if i < |d| {
        assert db[i] == d[i];
      }
    }
    UpperKeeps(db);
  }

  lemma DigitsBSize(d: string)
    requires d != [] && AllDigits(d)
    ensures SizeOf(d + "B") == DigitsValue(d)
  {
    var db := d + "B";
    ParseDigits(d);
    assert db[..|db| - 1] == d;
    ScanUnitsB(db);
  }

  /** A byte count written with the unit "B" is read as that count. */
  lemma ParseSizeDigitsB(d: string)
    requires d != [] && AllDigits(d)
    ensures ParseSize(d + "B") == DigitsValue(d)
  {
    DigitsBKept(d);
    DigitsBSize(d);
  }

  lemma ParseSizeBytes(n: nat)
    ensures ParseSize(Decimal(n)) == n
    ensures ParseSize(Decimal(n) + "B") == n
  {
    DecimalValue(n);
    ParseSizeDigits(Decimal(n));
    ParseSizeDigitsB(Decimal(n));
  }

  /** A string ending in a letter before "B" is read as 0: the "B" entry
      matches first, the number before it fails to parse, and the loop breaks. */
  lemma LetterUnitSize(u: string)
    requires |u| >= 2 && u[|u| - 1] == 'B' && u[|u| - 2] in {'K', 'M', 'G', 'T'}
    ensures SizeOf(u) == 0
  {
    UnitLetter(u[|u| - 2]);
    LetterUnitStops(u);
    ParseIntegerBadEnd(u);
  }

  /** The number before the "B" of such a string fails to parse, so the
      unit loop stops at its first entry. */
  lemma LetterUnitStops(u: string)
    requires |u| >= 2 && u[|u| - 1] == 'B' && !IsDigit(u[|u| - 2]) && !IsSpace(u[|u| - 2])
    ensures ScanUnits(u, Units) == Stopped
  {
    ParseIntegerBadInit(u);
    ScanUnitsB(u);
  }

  /** Dropping the last character of such a string leaves no integer. */
  lemma ParseIntegerBadInit(u: string)
    requires |u| >= 2 && !IsDigit(u[|u| - 2]) && !IsSpace(u[|u| - 2])
    ensures ParseInteger(u[..|u| - 1]) == None
  {
    var head := u[..|u| - 1];
    assert head[|head| - 1] == u[|u| - 2];
    ParseIntegerBadEnd(head);
  }

  /** The unit letters are neither digits nor whitespace. */
  lemma UnitLetter(c: char)
    requires c in {'K', 'M', 'G', 'T'}
    ensures !IsDigit(c) && !IsSpace(c)
  {
  }

  /** Every size written with KB, MB, GB or TB is read as 0. */
  lemma ParseSizeLargeUnits(s: string)
    requires var u := Upper(Strip(s)); EndsWith(u, "KB") || EndsWith(u, "MB") || EndsWith(u, "GB") || EndsWith(u, "TB")
    ensures ParseSize(s) == 0
  {
    var u := Upper(Strip(s));
    assert u[|u| - 1] == 'B' && u[|u| - 2] in {'K', 'M', 'G', 'T'};
    LetterUnitSize(u);
  }

  lemma ParseSizeHundredMegabytes(s: string)
    requires s == "100MB"
    ensures ParseSize(s) == 0
  {
    assert |s| == 5 && s[0] == '1' && s[1] == '0' && s[2] == '0' && s[3] == 'M' && s[4] == 'B';
    UpperKeeps(s);
    StripKeeps(s);
    LetterUnitSize(s);
  }

  // ---------------------------------------------------------------------
  // Decoded YAML and the record constructors

  /** A key of a YAML mapping: absent, present with null, or present. */
  datatype Raw<T> = Absent | Null | Present(value: T)

  /** `d.get(key, default)`: null gives None, absence the default. */
  function Get<T>(r: Raw<T>, default: Option<T>): (o: Option<T>)
    ensures r.Present? ==> o == Some(r.value)
    ensures r.Null? ==> o == None
    ensures r.Absent? ==> o == default
  {
    match r
    case Absent => default
    case Null => None
    case Present(v) => Some(v)
  }

  /** A size bound as YAML gives it: a number or a string. */
  datatype SizeValue = IntSize(n: int) | StrSize(s: string)

  datatype RawCondition = RawCondition(
    path: Raw<string>,
    extension: Raw<seq<string>>,
    pattern: Raw<string>,
    namePattern: Raw<string>,
    sizeGt: Raw<SizeValue>,
    sizeLt: Raw<SizeValue>)

  /** An action mapping: the keys rule actions and duplicate actions read. */
  datatype RawAction = RawAction(
    move: Raw<string>,
    createIfMissing: Raw<bool>,
    rename: Raw<string>,
    replace: Raw<string>,
    prefix: Raw<string>,
    suffix: Raw<string>,
    separator: Raw<string>,
    tag: Raw<map<string, string>>,
    keep: Raw<string>,
    tagDuplicates: Raw<bool>,
    duplicateLabel: Raw<string>)

  const EmptyCondition: RawCondition := RawCondition(Absent, Absent, Absent, Absent, Absent, Absent)
  const EmptyAction: RawAction :=
    RawAction(Absent, Absent, Absent, Absent, Absent, Absent, Absent, Absent, Absent, Absent, Absent)

  /** One entry of a rule file's `rules` list. */
  datatype RawEntry =
    | Entry(name: Raw<string>, condition: Raw<RawCondition>, action: Raw<RawAction>,
            checkBy: Raw<string>, enabled: Raw<bool>)
    | NotMapping

  /** A rule file's document: a mapping with an optional `rules` key; a
      value that is not a mapping and that Python reads as false (an empty
      list, 0, false, an empty string), which `or {}` turns into an empty
      mapping; or any other value, which is truthy and not a mapping. An
      empty file reads as an empty mapping. */
  datatype RawDocument = Mapping(rules: Raw<seq<RawEntry>>) | FalsyValue | OtherValue

  datatype Action = Action(
    move: Option<string>,
    createIfMissing: bool,
    rename: Option<string>,
    replace: Option<string>,
    prefix: Option<string>,
    suffix: Option<string>,
    separator: Option<string>,
    tag: Option<map<string, string>>)

  datatype Rule = Rule(name: Option<string>, condition: Condition, action: Action, enabled: bool)

  datatype DuplicateRule = DuplicateRule(
    name: Option<string>, checkBy: Option<string>, action: Option<RawAction>, enabled: bool)

  /** A bound of `parse_condition`: strings go through `parse_size`. */
  function SizeBound(r: Raw<SizeValue>): (b: Option<int>)
    ensures r.Present? && r.value.StrSize? ==> b == Some(ParseSize(r.value.s))
    ensures r.Present? && r.value.IntSize? ==> b == Some(r.value.n)
    ensures !r.Present? ==> b == None
  {
    match r
    case Present(StrSize(s)) => Some(ParseSize(s))
    case Present(IntSize(n)) => Some(n)
    case _ => None
  }

  function ParseCondition(d: RawCondition): Condition {
    Condition(
      path := Get(d.path, None),
      extension := Get(d.extension, None),
      pattern := Get(d.pattern, None),
      sizeGt := SizeBound(d.sizeGt),
      sizeLt := SizeBound(d.sizeLt),
      namePattern := Get(d.namePattern, None))
  }

  /** Truthiness of an optional boolean read with `get`. */
  function Flag(r: Raw<bool>, default: bool): bool {
    match Get(r, Some(default))
    case Some(b) => b
    case None => false
  }

  function ParseAction(d: RawAction): Action {
    Action(
      move := Get(d.move, None),
      createIfMissing := Flag(d.createIfMissing, false),
      rename := Get(d.rename, None),
      replace := Get(d.replace, None),
      prefix := Get(d.prefix, None),
      suffix := Get(d.suffix, None),
      separator := Get(d.separator, Some("-")),
      tag := if d.tag.Present? && d.tag.value != map[] then Some(d.tag.value) else None)
  }

  /** `parse_rule`: a null condition or action raises AttributeError. */
  function ParseRule(e: RawEntry): (r: Result<Rule>)
    requires e.Entry?
    ensures r.Err? <==> e.condition.Null? || e.action.Null?
  {
    if e.condition.Null? || e.action.Null? then Err(AttributeError("'NoneType' object has no attribute 'get'"))
    else
      var condition := if e.condition.Present? then e.condition.value else EmptyCondition;
      var action := if e.action.Present? then e.action.value else EmptyAction;
      Ok(Rule(
        name := Get(e.name, Some("Unnamed Rule")),
        condition := ParseCondition(condition),
        action := ParseAction(action),
        enabled := Flag(e.enabled, true)))
  }

  /** `parse_duplicate_rule` never raises on a mapping. */
  function ParseDuplicateRule(e: RawEntry): (r: Result<DuplicateRule>)
    requires e.Entry?
    ensures r.Ok?
  {
    Ok(DuplicateRule(
      name := Get(e.name, Some("Unnamed Duplicate Rule")),
      checkBy := Get(e.checkBy, Some("content")),
      action := Get(e.action, Some(EmptyAction)),
      enabled := Flag(e.enabled, true)))
  }

  /** An entry with every key absent gets the documented defaults. */
  lemma ParseDefaults()
    ensures var e := Entry(Absent, Absent, Absent, Absent, Absent);
      ParseRule(e) == Ok(Rule(Some("Unnamed Rule"), NoCondition,
        Action(None, false, None, None, None, None, Some("-"), None), true))
      && ParseDuplicateRule(e) == Ok(DuplicateRule(Some("Unnamed Duplicate Rule"), Some("content"), Some(EmptyAction), true))
  {
  }

  /** A "100MB" bound is parsed to 0, which `matches` then ignores. */
  lemma MegabyteBoundIgnored(d: RawCondition, p: Path, nodes: Nodes, home: string, search: Search)
    requires d.sizeGt == Present(StrSize("100MB"))
    ensures ParseCondition(d).sizeGt == Some(0) && !Bound(ParseCondition(d).sizeGt)
  {
    ParseSizeHundredMegabytes(d.sizeGt.value.s);
  }

  // ---------------------------------------------------------------------
  // Loading a rule file

  /** The entries of `entries` that parse, in file order. */
  function Parsed<R>(entries: seq<RawEntry>, parse: RawEntry --> Result<R>): seq<R>
    requires forall i :: 0 <= i < |entries| ==> entries[i].Entry? && parse.requires(entries[i])
    decreases |entries|
  {
    if entries == [] then []
    else
      var last := entries[|entries| - 1];
      Parsed(entries[..|entries| - 1], parse) + (if parse(last).Ok? then [parse(last).value] else [])
  }

  /** What `_load_rules` returns for a rule file (None when it does not
      exist): the enabled rules among the entries that parse. A `rules` key
      that is null, a document or entry that is not a mapping makes the load
      itself raise. */
  function LoadResult<R>(file: Option<RawDocument>, parse: RawEntry --> Result<R>, enabled: R -> bool)
    : (r: Result<seq<R>>)
    requires forall e: RawEntry :: e.Entry? ==> parse.requires(e)
    ensures file.None? || file == Some(FalsyValue) || file == Some(Mapping(Absent)) ==> r == Ok([])
    ensures r.Err? <==> file == Some(OtherValue) || file == Some(Mapping(Null))
                        || (file.Some? && file.value.Mapping? && file.value.rules.Present?
                            && exists i :: 0 <= i < |file.value.rules.value| && file.value.rules.value[i].NotMapping?)
    ensures r.Ok? ==> forall i :: 0 <= i < |r.value| ==> enabled(r.value[i])
  {
    match file
    case None => Ok([])
    case Some(FalsyValue) => Ok([])
    case Some(OtherValue) => Err(AttributeError("'list' object has no attribute 'get'"))
    case Some(Mapping(Absent)) => Ok([])
    case Some(Mapping(Null)) => Err(TypeError("'NoneType' object is not iterable"))
    case Some(Mapping(Present(entries))) =>
      if exists i :: 0 <= i < |entries| && entries[i].NotMapping? then
        Err(AttributeError("object has no attribute 'get'"))
      else Ok(Filter(Parsed(entries, parse), enabled))
  }

  /** `_load_rules`, over the decoded file. */
  method LoadRules<R>(file: Option<RawDocument>, parse: RawEntry --> Result<R>, enabled: R -> bool)
    returns (r: Result<seq<R>>)
    requires forall e: RawEntry :: e.Entry? ==> parse.requires(e)
    ensures r == LoadResult(file, parse, enabled)
  {
    if file.None? {
      return Ok([]);
    }
    match file.value {
      case FalsyValue =>
        return Ok([]);
      case OtherValue =>
        return Err(AttributeError("'list' object has no attribute 'get'"));
      case Mapping(Absent) =>
        return Ok([]);
      case Mapping(Null) =>
        return Err(TypeError("'NoneType' object is not iterable"));
      case Mapping(Present(entries)) =>
        var rules: seq<R> := [];
        for i := 0 to |entries|
          invariant forall j :: 0 <= j < i ==> entries[j].Entry?
          invariant rules == Parsed(entries[..i], parse)
        {
          if entries[i].NotMapping? {
            return Err(AttributeError("object has no attribute 'get'"));
          }
          assert entries[..i + 1][..i] == entries[..i];
          var parsed := parse(entries[i]);
          if parsed.Ok? {
            rules := rules + [parsed.value];
          }
        }
        assert entries[..|entries|] == entries;
        return Ok(Filter(rules, enabled));
    }
  }

  /** Every rule a load returns is enabled and came from a parsed entry. */
  lemma {:induction false} LoadedRulesEnabled<R>(file: Option<RawDocument>, parse: RawEntry --> Result<R>, enabled: R -> bool)
    requires forall e: RawEntry :: e.Entry? ==> parse.requires(e)
    ensures var r := LoadResult(file, parse, enabled);
      r.Ok? ==> forall i :: 0 <= i < |r.value| ==> enabled(r.value[i])
  {
  }

  /** When every entry parses and is enabled, the load keeps them all, in order. */
  lemma {:induction false} ParsedAll<R>(entries: seq<RawEntry>, parse: RawEntry --> Result<R>)
    requires forall i :: 0 <= i < |entries| ==> entries[i].Entry? && parse.requires(entries[i]) && parse(entries[i]).Ok?
    ensures |Parsed(entries, parse)| == |entries|
    ensures forall i :: 0 <= i < |entries| ==> Parsed(entries, parse)[i] == parse(entries[i]).value
    decreases |entries|
  {
    if entries != [] {
      ParsedAll(entries[..|entries| - 1], parse);
    }
  }

  /** `load_all_rules`: the four rule files, each loaded on its own. */
  datatype RuleSet = RuleSet(move: seq<Rule>, rename: seq<Rule>, tag: seq<Rule>, duplicate: seq<DuplicateRule>)

  predicate RuleEnabled(r: Rule) { r.enabled }
  predicate DuplicateRuleEnabled(r: DuplicateRule) { r.enabled }

  function ParseRuleEntry(e: RawEntry): Result<Rule> requires e.Entry? { ParseRule(e) }
  function ParseDuplicateEntry(e: RawEntry): Result<DuplicateRule> requires e.Entry? { ParseDuplicateRule(e) }

  /** What `load_all_rules` returns: the four files loaded in turn, the
      first exception ending the load. */
  function LoadAll(move: Option<RawDocument>, rename: Option<RawDocument>, tag: Option<RawDocument>,
                   duplicate: Option<RawDocument>): (r: Result<RuleSet>)
    ensures r.Ok? <==> LoadResult(move, ParseRuleEntry, RuleEnabled).Ok? && LoadResult(rename, ParseRuleEntry, RuleEnabled).Ok?
                       && LoadResult(tag, ParseRuleEntry, RuleEnabled).Ok? && LoadResult(duplicate, ParseDuplicateEntry, DuplicateRuleEnabled).Ok?
    ensures r.Ok? ==> (forall i :: 0 <= i < |r.value.move| ==> r.value.move[i].enabled)
                      && (forall i :: 0 <= i < |r.value.rename| ==> r.value.rename[i].enabled)
                      && (forall i :: 0 <= i < |r.value.tag| ==> r.value.tag[i].enabled)
                      && (forall i :: 0 <= i < |r.value.duplicate| ==> r.value.duplicate[i].enabled)
  {
    var m := LoadResult(move, ParseRuleEntry, RuleEnabled);
    var n := LoadResult(rename, ParseRuleEntry, RuleEnabled);
    var t := LoadResult(tag, ParseRuleEntry, RuleEnabled);
    var d := LoadResult(duplicate, ParseDuplicateEntry, DuplicateRuleEnabled);
    if m.Err? then Err(m.error)
    else if n.Err? then Err(n.error)
    else if t.Err? then Err(t.error)
    else if d.Err? then Err(d.error)
    else Ok(RuleSet(m.value, n.value, t.value, d.value))
  }

  method LoadAllRules(move: Option<RawDocument>, rename: Option<RawDocument>, tag: Option<RawDocument>,
                      duplicate: Option<RawDocument>)
    returns (r: Result<RuleSet>)
    ensures r == LoadAll(move, rename, tag, duplicate)
  {
    var m := LoadRules(move, ParseRuleEntry, RuleEnabled);
    if m.Err? { return Err(m.error); }
    var n := LoadRules(rename, ParseRuleEntry, RuleEnabled);
    if n.Err? { return Err(n.error); }
    var t := LoadRules(tag, ParseRuleEntry, RuleEnabled);
    if t.Err? { return Err(t.error); }
    var d := LoadRules(duplicate, ParseDuplicateEntry, DuplicateRuleEnabled);
    if d.Err? { return Err(d.error); }
    return Ok(RuleSet(m.value, n.value, t.value, d.value));
  }

  // ---------------------------------------------------------------------
  // Properties of matching

  /** A condition whose fields are all None or empty matches every path. */
  lemma VacuousConditionMatches(c: Condition, p: Path, nodes: Nodes, home: string, search: Search)
    requires !Truthy(c.path) && !Truthy(c.pattern) && !Truthy(c.namePattern)
    requires c.extension.None? || c.extension.value == []
    requires !Bound(c.sizeGt) && !Bound(c.sizeLt)
    ensures Matches(c, p, nodes, home, search)
  {
  }

  /** The path check compares strings, not components: "/tmp/ab" is under "/tmp/a". */
  lemma PathPrefixIsTextual(nodes: Nodes, home: string, search: Search)
    ensures Matches(NoCondition.(path := Some("/tmp/a")), ["tmp", "ab"], nodes, home, search)
  {
    assert PathString(["tmp", "ab"]) == "/tmp/ab";
  }

  /** An extension written without a leading dot only changes case. */
  lemma UndottedKey(e: string)
    requires e != [] && e[0] != '.'
    ensures ExtensionKey(e) == Lower(e)
  {
    assert Lower(e)[0] != '.';
  }

  /** A suffix is a dot and letters without a dot: its key drops that dot. */
  lemma SuffixKey(e: string)
    requires |e| >= 2 && e[0] == '.' && e[1] != '.'
    ensures ExtensionKey(e) == Lower(e)[1..]
  {
    var l := Lower(e);
    assert l[0] == '.';
    assert LStrip(l, {'.'}) == LStrip(l[1..], {'.'});
    assert l[1..][0] == l[1] == LowerChar(e[1]) != '.';
  }

  lemma PhotoKey(name: string)
    requires name == "photo.JPG"
    ensures ExtensionKey(Suffix(name)) == ['j', 'p', 'g']
  {
    assert |name| == 9 && name[5] == '.' && name[6] == 'J' && name[7] == 'P' && name[8] == 'G';
    StemSuffixAt(name, 5);
    SuffixKey(name[5..]);
    assert Lower(name[5..])[1..] == ['j', 'p', 'g'];
  }

  /** An extension of lower-case letters is its own key. */
  lemma PlainKey(e: string)
    requires e != [] && forall i :: 0 <= i < |e| ==> 'a' <= e[i] <= 'z'
    ensures ExtensionKey(e) == e
  {
    UndottedKey(e);
  }

  /** Extensions compare case-insensitively without their dots: "photo.JPG"
      has an extension in ["jpg", "png"]. */
  lemma ExtensionIgnoresCase(c: Condition, name: string, nodes: Nodes, home: string, search: Search)
    requires name == "photo.JPG" && c == NoCondition.(extension := Some(["jpg", "png"]))
    ensures Matches(c, [name], nodes, home, search)
  {
    assert Name([name]) == name;
    PhotoKey(name);
    ImageKeys(c.extension.value);
    assert c.extension.value[0] == ['j', 'p', 'g'];
    assert ExtensionCheck(c, [name]);
  }

  lemma DocumentKey(name: string)
    requires name == "doc.pdf"
    ensures ExtensionKey(Suffix(name)) == ['p', 'd', 'f']
  {
    assert |name| == 7 && name[3] == '.' && name[4] == 'p' && name[5] == 'd' && name[6] == 'f';
    StemSuffixAt(name, 3);
    var lower := Lower(name[3..]);
    assert lower == ['.', 'p', 'd', 'f'];
    assert ExtensionKey(name[3..]) == lower[1..];
  }

  lemma ImageKeys(extensions: seq<string>)
    requires extensions == ["jpg", "png"]
    ensures ExtensionKeys(extensions) == extensions
  {
    assert extensions[0] == ['j', 'p', 'g'] && extensions[1] == ['p', 'n', 'g'];
    PlainKey(extensions[0]);
    PlainKey(extensions[1]);
  }

  lemma DocumentNotImage(key: string, e: seq<string>)
    requires key == ['p', 'd', 'f'] && e == ["jpg", "png"]
    ensures key !in ExtensionKeys(e)
  {
    ImageKeys(e);
    assert key != e[0] by {
      assert key[0] == 'p' && e[0][0] == 'j';
    }
    assert key != e[1] by {
      assert key[1] == 'd' && e[1][1] == 'n';
    }
  }

  /** "doc.pdf" has no extension in ["jpg", "png"], whatever the other checks say. */
  lemma ExtensionMismatch(c: Condition, name: string, nodes: Nodes, home: string, search: Search)
    requires name == "doc.pdf" && c.extension == Some(["jpg", "png"])
    ensures !Matches(c, [name], nodes, home, search)
  {
    assert Name([name]) == name;
    DocumentKey(name);
    DocumentNotImage(ExtensionKey(Suffix(name)), c.extension.value);
  }

  /** Size bounds are strict, and a file that cannot be stat'ed fails them. */
  lemma SizeBoundsStrict(c: Condition, p: Path, nodes: Nodes, home: string, search: Search)
    requires Bound(c.sizeGt) || Bound(c.sizeLt)
    ensures !Exists(nodes, p) ==> !Matches(c, p, nodes, home, search)
    ensures Exists(nodes, p) && Bound(c.sizeGt) && Lookup(nodes, p).value.size == c.sizeGt.value
            ==> !Matches(c, p, nodes, home, search)
    ensures Exists(nodes, p) && Bound(c.sizeLt) && Lookup(nodes, p).value.size == c.sizeLt.value
            ==> !Matches(c, p, nodes, home, search)
  {
  }
}
