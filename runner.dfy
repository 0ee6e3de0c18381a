/** `Runner`: planning operations from the loaded rules and a scan of the
    filesystem, executing them fail-forward, and summarising the plan. */
module Runner {
  import opened Common
  import opened Paths
  import opened FileSystem
  import opened Parser
  import Mover
  import Renamer
  import Tagger
  import Deduplicator

  const MoveKind: string := "move"
  const RenameKind: string := "rename"
  const TagKind: string := "tag"
  const DuplicateKind: string := "duplicate"

  /** The `details` dictionary of an operation, one shape per kind. */
  datatype Details =
    | MoveDetails(destination: string, createIfMissing: bool, tag: Option<map<string, string>>)
    | RenameDetails(replace: Option<string>, prefix: Option<string>, suffix: Option<string>, separator: Option<string>)
    | TagDetails(tags: map<string, string>)
    | DuplicateDetails(duplicates: seq<Path>, action: Option<RawAction>)

  /** The parts of an operation fixed when it is planned. */
  datatype Planned = Planned(ruleName: Option<string>, kind: string, source: Path, details: Details)

  /** A planned operation of one of the four kinds carries that kind's details. */
  predicate Consistent(r: Planned) {
    (r.kind == MoveKind ==> r.details.MoveDetails?)
    && (r.kind == RenameKind ==> r.details.RenameDetails?)
    && (r.kind == TagKind ==> r.details.TagDetails?)
    && (r.kind == DuplicateKind ==> r.details.DuplicateDetails?)
  }

  /** `Operation`: what it does is fixed at construction; whether it ran,
      succeeded and why it failed are updated by `execute`. */
  class Operation {
    const ruleName: Option<string>
    const kind: string
    const source: Path
    const details: Details
    var executed: bool
    var success: bool
    var error: Option<Error>

    constructor (ruleName: Option<string>, kind: string, source: Path, details: Details)
      ensures Record() == Planned(ruleName, kind, source, details)
      ensures Initial()
    {
      this.ruleName := ruleName;
      this.kind := kind;
      this.source := source;
      this.details := details;
      executed := false;
      success := false;
      error := None;
    }

    function Record(): Planned {
      Planned(ruleName, kind, source, details)
    }

    /** Not yet executed, not successful, no error. */
    predicate Initial()
      reads this
    {
      !executed && !success && error.None?
    }
  }

  function Records(ops: seq<Operation>): (rs: seq<Planned>)
    ensures |rs| == |ops|
    ensures forall i :: 0 <= i < |ops| ==> rs[i] == ops[i].Record()
    decreases |ops|
  {
    if ops == [] then [] else Records(ops[..|ops| - 1]) + [ops[|ops| - 1].Record()]
  }

  /** What the runner cannot compute itself: the home directory, `re.search`,
      the paths `rglob("*")` yields under a directory (in its order), the
      content digest, and the platform with its external programs. */
  datatype World = World(home: string, search: Search, rglob: Path -> seq<Path>, digest: Bytes -> string, env: Env)

  // ---------------------------------------------------------------------
  // Scanning

  function ScanRoot(w: World, path: string): Path {
    ParsePath(ExpandUser(w.home, path))
  }

  /** What `_scan_directory` returns: nothing for a missing path, the path
      itself for a file, otherwise the regular files `rglob` yields. */
  function Scanned(nodes: Nodes, w: World, path: string): (files: seq<Path>)
    ensures forall i :: 0 <= i < |files| ==> IsFile(nodes, files[i])
    ensures !Exists(nodes, ScanRoot(w, path)) ==> files == []
    ensures IsFile(nodes, ScanRoot(w, path)) ==> files == [ScanRoot(w, path)]
  {
    var root := ScanRoot(w, path);
    if !Exists(nodes, root) then []
    else if IsFile(nodes, root) then [root]
    else Filter(w.rglob(root), IsFileIn(nodes))
  }

  /** `Runner._scan_directory`. */
  method ScanDirectory(nodes: Nodes, w: World, path: string) returns (files: seq<Path>)
    ensures files == Scanned(nodes, w, path)
  {
    var root := ParsePath(ExpandUser(w.home, path));
    if !Exists(nodes, root) {
      return [];
    }
    files := [];
    if IsFile(nodes, root) {
      files := files + [root];
    } else {
      var items := w.rglob(root);
      for i := 0 to |items|
        invariant files == Filter(items[..i], IsFileIn(nodes))
      {
        assert items[..i + 1][..i] == items[..i];
        if IsFile(nodes, items[i]) {
          files := files + [items[i]];
        }
      }
      assert items[..|items|] == items;
    }
  }

  /** The loop of `_plan_move_operations` for a rule without destination:
      it raises at the first file that matches, so it only asks whether one does. */
  method AnyKept(files: seq<Path>, keep: Path -> bool) returns (found: bool)
    ensures found <==> Filter(files, keep) != []
  {
    for i := 0 to |files|
      invariant Filter(files[..i], keep) == []
    {
      FilterStep(files, keep, i);
      if keep(files[i]) {
        assert files[i] in Filter(files, keep);
        return true;
      }
    }
    assert files[..|files|] == files;
    return false;
  }

  // ---------------------------------------------------------------------
  // Planning, as functions of the rules and the filesystem

  const Downloads: string := "~/Downloads"
  const Documents: string := "~/Documents"
  const Desktop: string := "~/Desktop"

  /** Where rename and tag rules look, whatever their condition's path. */
  const LookedIn: seq<string> := [Downloads, Documents, Desktop]

  /** Where duplicate rules look. */
  const DuplicateScan: seq<string> := [Downloads, Documents]

  function MatchesIn(c: Condition, nodes: Nodes, w: World): Path -> bool {
    p => Matches(c, p, nodes, w.home, w.search)
  }

  /** One operation per source, in order, all with the same rule, kind and details. */
  function OpsFor(name: Option<string>, kind: string, sources: seq<Path>, details: Details): (ops: seq<Planned>)
    ensures |ops| == |sources|
    ensures forall i :: 0 <= i < |ops| ==> ops[i] == Planned(name, kind, sources[i], details)
    decreases |sources|
  {
    if sources == [] then []
    else OpsFor(name, kind, sources[..|sources| - 1], details) + [Planned(name, kind, sources[|sources| - 1], details)]
  }

  lemma OpsForStep(name: Option<string>, kind: string, sources: seq<Path>, source: Path, details: Details)
    ensures OpsFor(name, kind, sources + [source], details) == OpsFor(name, kind, sources, details) + [Planned(name, kind, source, details)]
  {
    assert (sources + [source])[..|sources|] == sources;
  }

  /** The matching files of one scanned path. */
  function Matching(c: Condition, nodes: Nodes, w: World, path: string): seq<Path> {
    Filter(Scanned(nodes, w, path), MatchesIn(c, nodes, w))
  }

  /** Every matching file is a regular file that the condition accepts. */
  lemma MatchingFiles(c: Condition, nodes: Nodes, w: World, path: string)
    ensures var files := Matching(c, nodes, w, path);
      forall i :: 0 <= i < |files| ==> IsFile(nodes, files[i]) && Matches(c, files[i], nodes, w.home, w.search)
  {
    var scanned := Scanned(nodes, w, path);
    var files := Matching(c, nodes, w, path);
    forall i | 0 <= i < |files| ensures IsFile(nodes, files[i]) && Matches(c, files[i], nodes, w.home, w.search) {
      assert MatchesIn(c, nodes, w)(files[i]);
      assert files[i] in scanned;
    }
  }

  /** `_plan_move_operations`: nothing without a condition path; otherwise
      one operation per matching file, and a TypeError from `expanduser`
      at the first match when the rule has no `move` destination. */
  function PlanMove(rule: Rule, nodes: Nodes, w: World): (outcome: (Option<Error>, seq<Planned>))
    ensures !Truthy(rule.condition.path) ==> outcome == (None, [])
    ensures Truthy(rule.condition.path) ==> var sources := Matching(rule.condition, nodes, w, rule.condition.path.value);
      (outcome.0.Some? <==> rule.action.move.None? && sources != [])
      && (outcome.0.Some? ==> outcome.1 == [])
      && (outcome.0.None? ==> |outcome.1| == |sources| && forall i :: 0 <= i < |sources| ==> outcome.1[i].source == sources[i])
    ensures forall i :: 0 <= i < |outcome.1| ==> var op := outcome.1[i];
      op.kind == MoveKind && op.ruleName == rule.name && rule.action.move.Some?
      && op.details == MoveDetails(ExpandUser(w.home, rule.action.move.value), rule.action.createIfMissing, rule.action.tag)
      && IsFile(nodes, op.source) && Matches(rule.condition, op.source, nodes, w.home, w.search)
  {
    if !Truthy(rule.condition.path) then (None, [])
    else
      var sources := Matching(rule.condition, nodes, w, rule.condition.path.value);
      if sources == [] then (None, [])
      else if rule.action.move.None? then (Some(TypeError("expected str, bytes or os.PathLike object, not NoneType")), [])
      else
        var details := MoveDetails(ExpandUser(w.home, rule.action.move.value), rule.action.createIfMissing, rule.action.tag);
        MatchingFiles(rule.condition, nodes, w, rule.condition.path.value);
        (None, OpsFor(rule.name, MoveKind, sources, details))
  }

  /** Operations for the files of each list, list by list. */
  function OpsOver(name: Option<string>, kind: string, details: Details, lists: seq<seq<Path>>): (ops: seq<Planned>)
    ensures forall i :: 0 <= i < |ops| ==> ops[i].ruleName == name && ops[i].kind == kind && ops[i].details == details
    decreases |lists|
  {
    if lists == [] then []
    else OpsOver(name, kind, details, lists[..|lists| - 1]) + OpsFor(name, kind, lists[|lists| - 1], details)
  }

  lemma OpsOverStep(name: Option<string>, kind: string, details: Details, lists: seq<seq<Path>>, j: nat)
    requires j < |lists|
    ensures OpsOver(name, kind, details, lists[..j + 1]) == OpsOver(name, kind, details, lists[..j]) + OpsFor(name, kind, lists[j], details)
  {
    assert lists[..j + 1][..j] == lists[..j];
  }

  /** The matching files of each scanned path. */
  function MatchingLists(c: Condition, nodes: Nodes, w: World, paths: seq<string>): (lists: seq<seq<Path>>)
    ensures |lists| == |paths|
  {
    seq(|paths|, k requires 0 <= k < |paths| => Matching(c, nodes, w, paths[k]))
  }

  function RenameDetailsOf(rule: Rule): Details {
    RenameDetails(rule.action.replace, rule.action.prefix, rule.action.suffix, rule.action.separator)
  }

  /** `tag or {}`. */
  function TagDetailsOf(rule: Rule): Details {
    TagDetails(if rule.action.tag.Some? then rule.action.tag.value else map[])
  }

  /** `_plan_rename_operations`. */
  function PlanRename(rule: Rule, nodes: Nodes, w: World): seq<Planned> {
    OpsOver(rule.name, RenameKind, RenameDetailsOf(rule), MatchingLists(rule.condition, nodes, w, LookedIn))
  }

  /** `_plan_tag_operations`. */
  function PlanTag(rule: Rule, nodes: Nodes, w: World): seq<Planned> {
    OpsOver(rule.name, TagKind, TagDetailsOf(rule), MatchingLists(rule.condition, nodes, w, LookedIn))
  }

  /** The concatenated scans of several paths. */
  function ScannedAll(paths: seq<string>, nodes: Nodes, w: World): (files: seq<Path>)
    ensures forall i :: 0 <= i < |files| ==> IsFile(nodes, files[i])
    decreases |paths|
  {
    if paths == [] then []
    else ScannedAll(paths[..|paths| - 1], nodes, w) + Scanned(nodes, w, paths[|paths| - 1])
  }

  /** The scans of several paths, concatenated. */
  method ScanAll(paths: seq<string>, nodes: Nodes, w: World) returns (all: seq<Path>)
    ensures all == ScannedAll(paths, nodes, w)
  {
    all := [];
    for j := 0 to |paths|
      invariant all == ScannedAll(paths[..j], nodes, w)
    {
      assert paths[..j + 1][..j] == paths[..j];
      var files := ScanDirectory(nodes, w, paths[j]);
      all := all + files;
    }
    assert paths[..|paths|] == paths;
  }

  /** One operation per duplicate group, with the group's first file as source. */
  function GroupOps(name: Option<string>, action: Option<RawAction>, groups: seq<seq<Path>>): (ops: seq<Planned>)
    requires forall a :: 0 <= a < |groups| ==> groups[a] != []
    ensures |ops| == |groups|
    ensures forall a :: 0 <= a < |ops| ==> ops[a] == Planned(name, DuplicateKind, groups[a][0], DuplicateDetails(groups[a], action))
    decreases |groups|
  {
    if groups == [] then []
    else
      var last := groups[|groups| - 1];
      GroupOps(name, action, groups[..|groups| - 1]) + [Planned(name, DuplicateKind, last[0], DuplicateDetails(last, action))]
  }

  /** Planning one more duplicate group appends its operation. */
  lemma GroupOpsStep(name: Option<string>, action: Option<RawAction>, groups: seq<seq<Path>>, a: nat)
    requires forall b :: 0 <= b < |groups| ==> groups[b] != []
    requires a < |groups|
    ensures GroupOps(name, action, groups[..a + 1])
            == GroupOps(name, action, groups[..a]) + [Planned(name, DuplicateKind, groups[a][0], DuplicateDetails(groups[a], action))]
  {
    assert groups[..a + 1][..a] == groups[..a];
  }

  function DuplicateKeying(rule: DuplicateRule, nodes: Nodes, w: World): Deduplicator.Keying {
    Deduplicator.Keying(Deduplicator.CheckByOf(rule.checkBy), nodes, w.digest)
  }

  /** `_plan_duplicate_operations`. */
  function PlanDuplicate(rule: DuplicateRule, nodes: Nodes, w: World): (ops: seq<Planned>) {
    var groups := Deduplicator.Duplicates(DuplicateKeying(rule, nodes, w), ScannedAll(DuplicateScan, nodes, w));
    GroupOps(rule.name, rule.action, groups)
  }

  /** The move rules in order, stopping at the first exception. */
  function PlanMoves(rules: seq<Rule>, nodes: Nodes, w: World): (outcome: (Option<Error>, seq<Planned>))
    ensures forall i :: 0 <= i < |outcome.1| ==> outcome.1[i].kind == MoveKind && outcome.1[i].details.MoveDetails?
    decreases |rules|
  {
    if rules == [] then (None, [])
    else
      var (err, ops) := PlanMoves(rules[..|rules| - 1], nodes, w);
      if err.Some? then (err, ops)
      else
        var (err2, more) := PlanMove(rules[|rules| - 1], nodes, w);
        (err2, ops + more)
  }

  function PlanRenames(rules: seq<Rule>, nodes: Nodes, w: World): (ops: seq<Planned>)
    ensures forall i :: 0 <= i < |ops| ==> ops[i].kind == RenameKind && ops[i].details.RenameDetails?
    decreases |rules|
  {
    if rules == [] then [] else PlanRenames(rules[..|rules| - 1], nodes, w) + PlanRename(rules[|rules| - 1], nodes, w)
  }

  function PlanTags(rules: seq<Rule>, nodes: Nodes, w: World): (ops: seq<Planned>)
    ensures forall i :: 0 <= i < |ops| ==> ops[i].kind == TagKind && ops[i].details.TagDetails?
    decreases |rules|
  {
    if rules == [] then [] else PlanTags(rules[..|rules| - 1], nodes, w) + PlanTag(rules[|rules| - 1], nodes, w)
  }

  function PlanDuplicates(rules: seq<DuplicateRule>, nodes: Nodes, w: World): (ops: seq<Planned>)
    ensures forall i :: 0 <= i < |ops| ==> ops[i].kind == DuplicateKind && ops[i].details.DuplicateDetails?
    decreases |rules|
  {
    if rules == [] then [] else PlanDuplicates(rules[..|rules| - 1], nodes, w) + PlanDuplicate(rules[|rules| - 1], nodes, w)
  }

  lemma PlanRenamesStep(rules: seq<Rule>, i: nat, nodes: Nodes, w: World)
    requires i < |rules|
    ensures PlanRenames(rules[..i + 1], nodes, w) == PlanRenames(rules[..i], nodes, w) + PlanRename(rules[i], nodes, w)
  {
    assert rules[..i + 1][..i] == rules[..i];
  }

  lemma PlanTagsStep(rules: seq<Rule>, i: nat, nodes: Nodes, w: World)
    requires i < |rules|
    ensures PlanTags(rules[..i + 1], nodes, w) == PlanTags(rules[..i], nodes, w) + PlanTag(rules[i], nodes, w)
  {
    assert rules[..i + 1][..i] == rules[..i];
  }

  lemma PlanDuplicatesStep(rules: seq<DuplicateRule>, i: nat, nodes: Nodes, w: World)
    requires i < |rules|
    ensures PlanDuplicates(rules[..i + 1], nodes, w) == PlanDuplicates(rules[..i], nodes, w) + PlanDuplicate(rules[i], nodes, w)
  {
    assert rules[..i + 1][..i] == rules[..i];
  }

  /** The four rule files, as `load_all_rules` reads them. */
  datatype RuleFiles = RuleFiles(move: Option<RawDocument>, rename: Option<RawDocument>, tag: Option<RawDocument>,
                                 duplicate: Option<RawDocument>)

  function Loaded(files: RuleFiles): Result<RuleSet> {
    LoadAll(files.move, files.rename, files.tag, files.duplicate)
  }

  /** What `scan_and_plan` raises and the operations it leaves planned: the
      move, rename, tag and duplicate operations, in that order. */
  function Plan(files: RuleFiles, nodes: Nodes, w: World): (outcome: (Option<Error>, seq<Planned>)) {
    match Loaded(files)
    case Err(e) => (Some(e), [])
    case Ok(rules) => PlanRules(rules, nodes, w)
  }

  /** The plan of rules that loaded: the moves, then (unless a move rule
      raised) the renames, the tags and the duplicate groups. */
  function PlanRules(rules: RuleSet, nodes: Nodes, w: World): (outcome: (Option<Error>, seq<Planned>)) {
    var (err, moves) := PlanMoves(rules.move, nodes, w);
    if err.Some? then (err, moves)
    else (None, moves + PlanRenames(rules.rename, nodes, w) + PlanTags(rules.tag, nodes, w)
                + PlanDuplicates(rules.duplicate, nodes, w))
  }

  // ---------------------------------------------------------------------
  // Executing one operation, as functions of the filesystem

  /** `add_tag(path, **tags)`: only `color` and `label` are accepted. */
  function TagArgs(tags: map<string, string>): (r: Result<(Option<string>, Option<string>)>)
    ensures r.Ok? <==> forall k :: k in tags ==> k == "color" || k == "label"
    ensures r.Ok? ==> (r.value.0.Some? <==> "color" in tags) && (r.value.1.Some? <==> "label" in tags)
  {
    if exists k :: k in tags && k != "color" && k != "label" then Err(TypeError("add_tag() got an unexpected keyword argument"))
    else Ok((if "color" in tags then Some(tags["color"]) else None, if "label" in tags then Some(tags["label"]) else None))
  }

  /** `_execute_move`: the optional mkdir, the move, then the tag applied to
      the source path the operation names. */
  function MoveOp(nodes: Nodes, w: World, source: Path, d: Details): (outcome: (Option<Error>, Nodes))
    requires d.MoveDetails?
    ensures !d.createIfMissing && !Exists(nodes, source) ==> outcome == (Some(FileNotFound(source)), nodes)
  {
    var dest := ParsePath(d.destination);
    var made := if d.createIfMissing then MkdirParents(nodes, dest) else Ok(nodes);
    match made
    case Err(e) => (Some(e), nodes)
    case Ok(created) =>
      var (moved, after) := Mover.MoveOutcome(created, source, dest);
      if moved.Err? then (Some(moved.error), after)
      else if d.tag.Some? && d.tag.value != map[] then
        match TagArgs(d.tag.value)
        case Err(e) => (Some(e), after)
        case Ok((color, tagLabel)) => (None, Tagger.AddTagOutcome(after, w.env, source, color, tagLabel).1)
      else (None, after)
  }

  /** `_execute_rename`. */
  function RenameOp(nodes: Nodes, source: Path, d: Details): (outcome: (Option<Error>, Nodes))
    requires d.RenameDetails?
    ensures outcome.0.Some? ==> outcome.1 == nodes
  {
    Renamer.RenameTouchesOnlyOnChange(nodes, source, d.replace, d.prefix, d.suffix, d.separator);
    var (renamed, after) := Renamer.RenameOutcome(nodes, source, d.replace, d.prefix, d.suffix, d.separator);
    (if renamed.Err? then Some(renamed.error) else None, after)
  }

  /** `_execute_tag`: the result of `add_tag` is ignored. */
  function TagOp(nodes: Nodes, w: World, source: Path, d: Details): (outcome: (Option<Error>, Nodes))
    requires d.TagDetails?
    ensures forall k :: k != source ==> (k in outcome.1 <==> k in nodes) && (k in outcome.1 ==> outcome.1[k] == nodes[k])
  {
    match TagArgs(d.tags)
    case Err(e) => (Some(e), nodes)
    case Ok((color, tagLabel)) =>
      Tagger.AddTagTouchesOnlyPath(nodes, w.env, source, color, tagLabel);
      (None, Tagger.AddTagOutcome(nodes, w.env, source, color, tagLabel).1)
  }

  /** `_execute_duplicate`: a null action raises AttributeError; otherwise the
      group is handled with the action's keep policy, tagging flag and label. */
  function DuplicateOp(nodes: Nodes, w: World, d: Details): (outcome: (Option<Error>, Nodes))
    requires d.DuplicateDetails?
    ensures d.action.Some? && |d.duplicates| < 2 ==> outcome == (None, nodes)
  {
    if d.action.None? then (Some(AttributeError("'NoneType' object has no attribute 'get'")), nodes)
    else
      var a := d.action.value;
      Deduplicator.HandleOutcome(nodes, w.env, d.duplicates, Get(a.keep, Some(Deduplicator.Newest)),
        Flag(a.tagDuplicates, false), Get(a.duplicateLabel, Some(Deduplicator.DefaultLabel)))
  }

  /** One operation inside the `try` of `execute`: the exception it raises, if
      any, and the filesystem it leaves. An unknown kind does nothing. */
  function OpOutcome(nodes: Nodes, w: World, r: Planned): (outcome: (Option<Error>, Nodes))
    requires Consistent(r)
    ensures r.kind !in {MoveKind, RenameKind, TagKind, DuplicateKind} ==> outcome == (None, nodes)
  {
    if r.kind == MoveKind then MoveOp(nodes, w, r.source, r.details)
    else if r.kind == RenameKind then RenameOp(nodes, r.source, r.details)
    else if r.kind == TagKind then TagOp(nodes, w, r.source, r.details)
    else if r.kind == DuplicateKind then DuplicateOp(nodes, w, r.details)
    else (None, nodes)
  }

  /** The operations in order, each failure caught: one outcome per operation. */
  function RunAll(nodes: Nodes, w: World, rs: seq<Planned>): (outcome: (seq<Option<Error>>, Nodes))
    requires forall i :: 0 <= i < |rs| ==> Consistent(rs[i])
    ensures |outcome.0| == |rs|
    decreases |rs|
  {
    if rs == [] then ([], nodes)
    else
      var (errs, before) := RunAll(nodes, w, rs[..|rs| - 1]);
      var (err, after) := OpOutcome(before, w, rs[|rs| - 1]);
      (errs + [err], after)
  }

  lemma RunAllStep(nodes: Nodes, w: World, rs: seq<Planned>, i: nat)
    requires forall k :: 0 <= k < |rs| ==> Consistent(rs[k])
    requires i < |rs|
    ensures RunAll(nodes, w, rs[..i + 1]).0 == RunAll(nodes, w, rs[..i]).0 + [OpOutcome(RunAll(nodes, w, rs[..i]).1, w, rs[i]).0]
    ensures RunAll(nodes, w, rs[..i + 1]).1 == OpOutcome(RunAll(nodes, w, rs[..i]).1, w, rs[i]).1
  {
    assert rs[..i + 1][..i] == rs[..i];
  }

  // ---------------------------------------------------------------------
  // The runner

  datatype Summary = Summary(total: nat, move: nat, rename: nat, tag: nat, duplicate: nat, dryRun: bool)

  const Kinds: set<string> := {MoveKind, RenameKind, TagKind, DuplicateKind}

  /** How many operations are of `kind`. */
  function CountKind(rs: seq<Planned>, kind: string): (n: nat)
    ensures n <= |rs|
    decreases |rs|
  {
    if rs == [] then 0
    else CountKind(rs[..|rs| - 1], kind) + if rs[|rs| - 1].kind == kind then 1 else 0
  }

  /** When every operation has one of the four kinds, the four counts add up
      to the number of operations. */
  lemma {:induction false} KindsPartition(rs: seq<Planned>)
    requires forall i :: 0 <= i < |rs| ==> rs[i].kind in Kinds
    ensures CountKind(rs, MoveKind) + CountKind(rs, RenameKind) + CountKind(rs, TagKind) + CountKind(rs, DuplicateKind) == |rs|
    decreases |rs|
  {
    if rs != [] {
      KindsPartition(rs[..|rs| - 1]);
    }
  }

  /** The method that handles the error of `scan_and_plan` for a move rule
      without a destination: `os.path.expanduser(None)`. */
  const NoDestination: Error := TypeError("expected str, bytes or os.PathLike object, not NoneType")

  class Runner {
    const dryRun: bool
    var operations: seq<Operation>
    var results: seq<Operation>

    constructor (dryRun: bool)
      ensures this.dryRun == dryRun && operations == [] && results == []
    {
      this.dryRun := dryRun;
      operations := [];
      results := [];
    }

    /** Every operation is a distinct object carrying the details of its kind. */
    predicate Valid()
      reads this
    {
      Distinct(operations) && forall i :: 0 <= i < |operations| ==> Consistent(operations[i].Record())
    }

    /** The operations are distinct objects, none of them executed yet. */
    predicate Pending()
      reads this, operations
    {
      Distinct(operations) && forall i :: 0 <= i < |operations| ==> operations[i].Initial()
    }

    /** `get_summary`. */
    function GetSummary(): (s: Summary)
      reads this
      ensures s.total == |operations| && s.dryRun == dryRun
      ensures (forall i :: 0 <= i < |operations| ==> operations[i].kind in Kinds) ==>
        s.move + s.rename + s.tag + s.duplicate == s.total
    {
      var rs := Records(operations);
      if forall i :: 0 <= i < |rs| ==> rs[i].kind in Kinds then KindsPartition(rs); Summarize(rs, dryRun)
      else Summarize(rs, dryRun)
    }

    /** Appends one new operation. */
    method Append(name: Option<string>, kind: string, source: Path, details: Details)
      requires Pending()
      modifies this
      ensures results == old(results)
      ensures Records(operations) == Records(old(operations)) + [Planned(name, kind, source, details)]
      ensures Pending()
    {
      var op := new Operation(name, kind, source, details);
      assert op !in operations;
      operations := operations + [op];
      assert operations[..|operations| - 1] == old(operations);
    }

    /** One new operation for each file `keep` accepts, in order. */
    method AppendKept(name: Option<string>, kind: string, files: seq<Path>, keep: Path -> bool, details: Details)
      requires Pending()
      modifies this
      ensures results == old(results)
      ensures Records(operations) == Records(old(operations)) + OpsFor(name, kind, Filter(files, keep), details)
      ensures Pending()
    {
      ghost var chosen: seq<Path> := [];
      ghost var plan: seq<Planned> := [];
      for i := 0 to |files|
        invariant results == old(results)
        invariant Pending()
        invariant chosen == Filter(files[..i], keep)
        invariant plan == OpsFor(name, kind, chosen, details)
        invariant Records(operations) == Records(old(operations)) + plan
      {
        FilterStep(files, keep, i);
        if keep(files[i]) {
          ghost var planned := Planned(name, kind, files[i], details);
          OpsForStep(name, kind, chosen, files[i], details);
          Append(name, kind, files[i], details);
          AppendAssoc(Records(old(operations)), plan, [planned]);
          chosen := chosen + [files[i]];
          plan := plan + [planned];
        }
      }
      assert files[..|files|] == files;
    }

    /** `_plan_move_operations`. */
    method PlanMoveOperations(rule: Rule, nodes: Nodes, w: World) returns (err: Option<Error>)
      requires Pending()
      modifies this
      ensures results == old(results)
      ensures err == PlanMove(rule, nodes, w).0
      ensures Records(operations) == Records(old(operations)) + PlanMove(rule, nodes, w).1
      ensures Pending()
    {
      if !Truthy(rule.condition.path) {
        return None;
      }
      var files := ScanDirectory(nodes, w, rule.condition.path.value);
      if rule.action.move.None? {
        // `os.path.expanduser(None)` raises at the first matching file.
        var found := AnyKept(files, MatchesIn(rule.condition, nodes, w));
        return if found then Some(NoDestination) else None;
      }
      var details := MoveDetails(ExpandUser(w.home, rule.action.move.value), rule.action.createIfMissing, rule.action.tag);
      AppendKept(rule.name, MoveKind, files, MatchesIn(rule.condition, nodes, w), details);
      return None;
    }

    /** The matching files of one scanned path, one new operation each. */
    method AppendMatching(name: Option<string>, kind: string, c: Condition, details: Details, path: string,
                          nodes: Nodes, w: World)
      requires Pending()
      modifies this
      ensures results == old(results)
      ensures Records(operations) == Records(old(operations)) + OpsFor(name, kind, Matching(c, nodes, w, path), details)
      ensures Pending()
    {
      var files := ScanDirectory(nodes, w, path);
      AppendKept(name, kind, files, MatchesIn(c, nodes, w), details);
    }

    /** The loop of `_plan_rename_operations` and `_plan_tag_operations`
        over the scan paths. */
    method AppendOver(name: Option<string>, kind: string, c: Condition, details: Details, paths: seq<string>,
                      nodes: Nodes, w: World)
      requires Pending()
      modifies this
      ensures results == old(results)
      ensures Records(operations) == Records(old(operations)) + OpsOver(name, kind, details, MatchingLists(c, nodes, w, paths))
      ensures Pending()
    {
      ghost var lists := MatchingLists(c, nodes, w, paths);
      for j := 0 to |paths|
        invariant results == old(results)
        invariant Pending()
        invariant Records(operations) == Records(old(operations)) + OpsOver(name, kind, details, lists[..j])
      {
        AppendMatching(name, kind, c, details, paths[j], nodes, w);
        assert lists[j] == Matching(c, nodes, w, paths[j]);
        OpsOverStep(name, kind, details, lists, j);
        AppendAssoc(Records(old(operations)), OpsOver(name, kind, details, lists[..j]), OpsFor(name, kind, lists[j], details));
      }
      assert lists[..|lists|] == lists;
    }

    /** `_plan_rename_operations`. */
    method PlanRenameOperations(rule: Rule, nodes: Nodes, w: World)
      requires Pending()
      modifies this
      ensures results == old(results)
      ensures Records(operations) == Records(old(operations)) + PlanRename(rule, nodes, w)
      ensures Pending()
    {
      AppendOver(rule.name, RenameKind, rule.condition, RenameDetailsOf(rule), LookedIn, nodes, w);
    }

    /** `_plan_tag_operations`. */
    method PlanTagOperations(rule: Rule, nodes: Nodes, w: World)
      requires Pending()
      modifies this
      ensures results == old(results)
      ensures Records(operations) == Records(old(operations)) + PlanTag(rule, nodes, w)
      ensures Pending()
    {
      AppendOver(rule.name, TagKind, rule.condition, TagDetailsOf(rule), LookedIn, nodes, w);
    }

    /** One new duplicate operation per group. */
    method AppendGroups(name: Option<string>, action: Option<RawAction>, groups: seq<seq<Path>>)
      requires forall a :: 0 <= a < |groups| ==> groups[a] != []
      requires Pending()
      modifies this
      ensures results == old(results)
      ensures Records(operations) == Records(old(operations)) + GroupOps(name, action, groups)
      ensures Pending()
    {
      ghost var plan: seq<Planned> := [];
      for a := 0 to |groups|
        invariant results == old(results)
        invariant Pending()
        invariant plan == GroupOps(name, action, groups[..a])
        invariant Records(operations) == Records(old(operations)) + plan
      {
        ghost var planned := Planned(name, DuplicateKind, groups[a][0], DuplicateDetails(groups[a], action));
        GroupOpsStep(name, action, groups, a);
        Append(name, DuplicateKind, groups[a][0], DuplicateDetails(groups[a], action));
        AppendAssoc(Records(old(operations)), plan, [planned]);
        plan := plan + [planned];
      }
      assert groups[..|groups|] == groups;
    }

    /** `_plan_duplicate_operations`. */
    method PlanDuplicateOperations(rule: DuplicateRule, nodes: Nodes, w: World)
      requires Pending()
      modifies this
      ensures results == old(results)
      ensures Records(operations) == Records(old(operations)) + PlanDuplicate(rule, nodes, w)
      ensures Pending()
    {
      var all := ScanAll(DuplicateScan, nodes, w);
      var groups := Deduplicator.FindDuplicates(all, rule.checkBy, nodes, w.digest);
      AppendGroups(rule.name, rule.action, groups);
    }

    /** The move rules of `scan_and_plan`, in order, until one raises. */
    method PlanAllMoves(rules: seq<Rule>, nodes: Nodes, w: World) returns (err: Option<Error>)
      requires Pending()
      modifies this
      ensures results == old(results)
      ensures err == PlanMoves(rules, nodes, w).0
      ensures Records(operations) == Records(old(operations)) + PlanMoves(rules, nodes, w).1
      ensures Pending()
    {
      for i := 0 to |rules|
        invariant results == old(results)
        invariant Pending()
        invariant PlanMoves(rules[..i], nodes, w).0.None?
        invariant Records(operations) == Records(old(operations)) + PlanMoves(rules[..i], nodes, w).1
      {
        assert rules[..i + 1][..i] == rules[..i];
        ghost var planned := PlanMoves(rules[..i], nodes, w).1;
        err := PlanMoveOperations(rules[i], nodes, w);
        AppendAssoc(Records(old(operations)), planned, PlanMove(rules[i], nodes, w).1);
        if err.Some? {
          PlanMovesStops(rules, i + 1, nodes, w);
          return;
        }
      }
      assert rules[..|rules|] == rules;
      return None;
    }

    /** The rename rules of `scan_and_plan`, in order. */
    method PlanAllRenames(rules: seq<Rule>, nodes: Nodes, w: World)
      requires Pending()
      modifies this
      ensures results == old(results)
      ensures Records(operations) == Records(old(operations)) + PlanRenames(rules, nodes, w)
      ensures Pending()
    {
      for i := 0 to |rules|
        invariant results == old(results)
        invariant Pending()
        invariant Records(operations) == Records(old(operations)) + PlanRenames(rules[..i], nodes, w)
      {
        PlanRenamesStep(rules, i, nodes, w);
        AppendAssoc(Records(old(operations)), PlanRenames(rules[..i], nodes, w), PlanRename(rules[i], nodes, w));
        PlanRenameOperations(rules[i], nodes, w);
      }
      assert rules[..|rules|] == rules;
    }

    /** The tag rules of `scan_and_plan`, in order. */
    method PlanAllTags(rules: seq<Rule>, nodes: Nodes, w: World)
      requires Pending()
      modifies this
      ensures results == old(results)
      ensures Records(operations) == Records(old(operations)) + PlanTags(rules, nodes, w)
      ensures Pending()
    {
      for i := 0 to |rules|
        invariant results == old(results)
        invariant Pending()
        invariant Records(operations) == Records(old(operations)) + PlanTags(rules[..i], nodes, w)
      {
        PlanTagsStep(rules, i, nodes, w);
        AppendAssoc(Records(old(operations)), PlanTags(rules[..i], nodes, w), PlanTag(rules[i], nodes, w));
        PlanTagOperations(rules[i], nodes, w);
      }
      assert rules[..|rules|] == rules;
    }

    /** The duplicate rules of `scan_and_plan`, in order. */
    method PlanAllDuplicates(rules: seq<DuplicateRule>, nodes: Nodes, w: World)
      requires Pending()
      modifies this
      ensures results == old(results)
      ensures Records(operations) == Records(old(operations)) + PlanDuplicates(rules, nodes, w)
      ensures Pending()
    {
      for i := 0 to |rules|
        invariant results == old(results)
        invariant Pending()
        invariant Records(operations) == Records(old(operations)) + PlanDuplicates(rules[..i], nodes, w)
      {
        PlanDuplicatesStep(rules, i, nodes, w);
        AppendAssoc(Records(old(operations)), PlanDuplicates(rules[..i], nodes, w), PlanDuplicate(rules[i], nodes, w));
        PlanDuplicateOperations(rules[i], nodes, w);
      }
      assert rules[..|rules|] == rules;
    }

    /** `scan_and_plan`: the rule files are loaded, the operations list is
        cleared and refilled in plan order; an exception ends planning with
        the operations planned so far. */
    method ScanAndPlan(disk: Disk, w: World, files: RuleFiles) returns (err: Option<Error>)
      modifies this
      ensures (err, Records(operations)) == Plan(files, disk.nodes, w)
      ensures Valid() && Pending() && results == old(results)
    {
      operations := [];
      var loaded := LoadAllRules(files.move, files.rename, files.tag, files.duplicate);
      if loaded.Err? {
        return Some(loaded.error);
      }
      err := PlanRuleSet(loaded.value, disk.nodes, w);
      PlanConsistent(files, disk.nodes, w);
    }

    /** The planning part of `scan_and_plan`, once the rules are loaded. */
    method PlanRuleSet(rules: RuleSet, nodes: Nodes, w: World) returns (err: Option<Error>)
      requires operations == []
      modifies this
      ensures (err, Records(operations)) == PlanRules(rules, nodes, w)
      ensures Pending() && results == old(results)
    {
      assert Records(operations) == [];
      ghost var moves := PlanMoves(rules.move, nodes, w).1;
      err := PlanAllMoves(rules.move, nodes, w);
      assert Records(operations) == moves by {
        assert [] + moves == moves;
      }
      if err.None? {
        PlanAllRenames(rules.rename, nodes, w);
        PlanAllTags(rules.tag, nodes, w);
        PlanAllDuplicates(rules.duplicate, nodes, w);
      }
    }

    /** `execute`: in a dry run nothing happens; otherwise every operation
        runs in order, its failure caught and recorded, and `results` lists
        every operation once. */
    method Execute(disk: Disk, w: World) returns (executed: seq<Operation>, ghost errs: seq<Option<Error>>)
      requires Valid()
      modifies this, disk, operations
      ensures operations == old(operations)
      ensures dryRun ==>
        executed == [] && results == old(results) && disk.nodes == old(disk.nodes)
        && forall i :: 0 <= i < |operations| ==> unchanged(operations[i])
      ensures !dryRun ==> executed == results == operations
      ensures !dryRun ==> (errs, disk.nodes) == RunAll(old(disk.nodes), w, Records(operations))
      ensures !dryRun ==> forall i :: 0 <= i < |operations| ==> Finished(operations[i], errs[i], old(operations[i].error))
    {
      if dryRun {
        return [], [];
      }
      var done;
      done, errs := ExecuteAll(operations, disk, w);
      assert operations == old(operations);
      results := done;
      executed := done;
    }
  }

  /** The counts of `get_summary`. */
  function Summarize(rs: seq<Planned>, dryRun: bool): Summary {
    Summary(|rs|, CountKind(rs, MoveKind), CountKind(rs, RenameKind), CountKind(rs, TagKind), CountKind(rs, DuplicateKind), dryRun)
  }

  /** `_execute_move`. */
  method ExecuteMove(disk: Disk, w: World, source: Path, d: Details) returns (err: Option<Error>)
    requires d.MoveDetails?
    modifies disk
    ensures (err, disk.nodes) == MoveOp(old(disk.nodes), w, source, d)
  {
    var dest := ParsePath(d.destination);
    if d.createIfMissing {
      var made := MkdirParents(disk.nodes, dest);
      if made.Err? {
        return Some(made.error);
      }
      disk.nodes := made.value;
    }
    var moved := Mover.Move(disk, source, dest);
    if moved.Err? {
      return Some(moved.error);
    }
    if d.tag.Some? && d.tag.value != map[] {
      var args := TagArgs(d.tag.value);
      if args.Err? {
        return Some(args.error);
      }
      var tagged := Tagger.AddTag(disk, w.env, source, args.value.0, args.value.1);
    }
    return None;
  }

  /** `_execute_rename`. */
  method ExecuteRename(disk: Disk, source: Path, d: Details) returns (err: Option<Error>)
    requires d.RenameDetails?
    modifies disk
    ensures (err, disk.nodes) == RenameOp(old(disk.nodes), source, d)
  {
    var renamed := Renamer.Rename(disk, source, d.replace, d.prefix, d.suffix, d.separator);
    if renamed.Err? {
      return Some(renamed.error);
    }
    return None;
  }

  /** `_execute_tag`. */
  method ExecuteTag(disk: Disk, w: World, source: Path, d: Details) returns (err: Option<Error>)
    requires d.TagDetails?
    modifies disk
    ensures (err, disk.nodes) == TagOp(old(disk.nodes), w, source, d)
  {
    var args := TagArgs(d.tags);
    if args.Err? {
      return Some(args.error);
    }
    var tagged := Tagger.AddTag(disk, w.env, source, args.value.0, args.value.1);
    return None;
  }

  /** `_execute_duplicate`. */
  method ExecuteDuplicate(disk: Disk, w: World, d: Details) returns (err: Option<Error>)
    requires d.DuplicateDetails?
    modifies disk
    ensures (err, disk.nodes) == DuplicateOp(old(disk.nodes), w, d)
  {
    if d.action.None? {
      return Some(AttributeError("'NoneType' object has no attribute 'get'"));
    }
    var a := d.action.value;
    err := Deduplicator.HandleDuplicates(disk, w.env, d.duplicates, Get(a.keep, Some(Deduplicator.Newest)),
      Flag(a.tagDuplicates, false), Get(a.duplicateLabel, Some(Deduplicator.DefaultLabel)));
  }

  /** The handler of an operation's kind, inside the `try` of `execute`. */
  method Handle(disk: Disk, w: World, r: Planned) returns (err: Option<Error>)
    requires Consistent(r)
    modifies disk
    ensures (err, disk.nodes) == OpOutcome(old(disk.nodes), w, r)
  {
    err := None;
    if r.kind == MoveKind {
      err := ExecuteMove(disk, w, r.source, r.details);
    } else if r.kind == RenameKind {
      err := ExecuteRename(disk, r.source, r.details);
    } else if r.kind == TagKind {
      err := ExecuteTag(disk, w, r.source, r.details);
    } else if r.kind == DuplicateKind {
      err := ExecuteDuplicate(disk, w, r.details);
    }
  }

  /** The fields `execute` leaves on an operation whose handler raised `err`
      (None when it returned): executed, successful iff nothing was raised,
      and the error recorded when something was. */
  predicate Finished(op: Operation, err: Option<Error>, previous: Option<Error>)
    reads op
  {
    op.executed && (op.success <==> err.None?) && op.error == (if err.Some? then err else previous)
  }

  /** The loop of `execute` over `ops`: each operation runs in turn, what it
      raises is caught and recorded on it, and `done` lists it once it ran. */
  method ExecuteAll(ops: seq<Operation>, disk: Disk, w: World) returns (done: seq<Operation>, ghost errs: seq<Option<Error>>)
    requires Distinct(ops) && forall k :: 0 <= k < |ops| ==> Consistent(ops[k].Record())
    modifies disk, ops
    ensures done == ops
    ensures (errs, disk.nodes) == RunAll(old(disk.nodes), w, Records(ops))
    ensures forall i :: 0 <= i < |ops| ==> Finished(ops[i], errs[i], old(ops[i].error))
  {
    ghost var rs := Records(ops);
    ghost var previous := seq(|ops|, j requires 0 <= j < |ops| reads ops => ops[j].error);
    errs := [];
    for i := 0 to |ops|
      invariant (errs, disk.nodes) == RunAll(old(disk.nodes), w, rs[..i])
      invariant Ran(ops, i, errs, previous)
    {
      var err := ExecuteAt(ops, i, disk, w, old(disk.nodes), rs, errs, previous);
      errs := errs + [err];
    }
    assert rs[..|rs|] == rs;
    done := ops;
  }

  /** The first `i` operations have finished with `errs`; the others still
      carry their `previous` error. */
  ghost predicate Ran(ops: seq<Operation>, i: nat, errs: seq<Option<Error>>, previous: seq<Option<Error>>)
    reads set j | 0 <= j < |ops| :: ops[j]
  {
    i <= |ops| == |previous| && |errs| == i && Distinct(ops)
    && (forall j :: 0 <= j < i ==> Finished(ops[j], errs[j], previous[j]))
    && (forall j :: i <= j < |ops| ==> ops[j].error == previous[j])
  }

  /** Turn `i` of the loop of `execute`, after the first `i` turns left
      `errs` and the filesystem as `RunAll` says. */
  method ExecuteAt(ops: seq<Operation>, i: nat, disk: Disk, w: World, ghost start: Nodes, ghost rs: seq<Planned>,
                   ghost errs: seq<Option<Error>>, ghost previous: seq<Option<Error>>) returns (err: Option<Error>)
    requires i < |ops| && rs == Records(ops)
    requires forall k :: 0 <= k < |rs| ==> Consistent(rs[k])
    requires (errs, disk.nodes) == RunAll(start, w, rs[..i])
    requires Ran(ops, i, errs, previous)
    modifies disk, ops[i]
    ensures (errs + [err], disk.nodes) == RunAll(start, w, rs[..i + 1])
    ensures Ran(ops, i + 1, errs + [err], previous)
  {
    RunAllStep(start, w, rs, i);
    forall j | 0 <= j < |ops| && j != i ensures ops[j] != ops[i] {
      assert Distinct(ops);
    }
    err := ExecuteOne(ops[i], disk, w);
  }

  /** One turn of the loop of `execute`. */
  method ExecuteOne(op: Operation, disk: Disk, w: World) returns (err: Option<Error>)
    requires Consistent(op.Record())
    modifies op, disk
    ensures (err, disk.nodes) == OpOutcome(old(disk.nodes), w, op.Record())
    ensures Finished(op, err, old(op.error))
  {
    err := Handle(disk, w, op.Record());
    op.executed := true;
    if err.None? {
      op.success := true;
    } else {
      op.success := false;
      op.error := err;
    }
  }

  // ---------------------------------------------------------------------
  // Properties of planning and execution

  /** Once a move rule raises, the later move rules are not planned. */
  lemma {:induction false} PlanMovesStops(rules: seq<Rule>, k: nat, nodes: Nodes, w: World)
    requires k <= |rules| && PlanMoves(rules[..k], nodes, w).0.Some?
    ensures PlanMoves(rules, nodes, w) == PlanMoves(rules[..k], nodes, w)
    decreases |rules|
  {
    if k < |rules| {
      assert rules[..|rules| - 1][..k] == rules[..k];
      PlanMovesStops(rules[..|rules| - 1], k, nodes, w);
    } else {
      assert rules[..k] == rules;
    }
  }

  /** Every planned operation carries the details of its kind. */
  lemma PlanConsistent(files: RuleFiles, nodes: Nodes, w: World)
    ensures var ops := Plan(files, nodes, w).1; forall i :: 0 <= i < |ops| ==> Consistent(ops[i]) && ops[i].kind in Kinds
  {
    match Loaded(files)
    case Err(_) =>
    case Ok(rules) =>
      PlanRulesConsistent(rules, nodes, w);
  }

  lemma PlanRulesConsistent(rules: RuleSet, nodes: Nodes, w: World)
    ensures var ops := PlanRules(rules, nodes, w).1; forall i :: 0 <= i < |ops| ==> Consistent(ops[i]) && ops[i].kind in Kinds
  {
    var (err, moves) := PlanMoves(rules.move, nodes, w);
    if err.None? {
      var renames := PlanRenames(rules.rename, nodes, w);
      var tags := PlanTags(rules.tag, nodes, w);
      var dups := PlanDuplicates(rules.duplicate, nodes, w);
      var ops := moves + renames + tags + dups;
      assert ops == PlanRules(rules, nodes, w).1;
      forall i | 0 <= i < |ops|
        ensures Consistent(ops[i]) && ops[i].kind in Kinds
      {
        if i < |moves| {
          assert ops[i] == moves[i];
        } else if i < |moves| + |renames| {
          assert ops[i] == renames[i - |moves|];
        } else if i < |moves| + |renames| + |tags| {
          assert ops[i] == tags[i - |moves| - |renames|];
        } else {
          assert ops[i] == dups[i - |moves| - |renames| - |tags|];
        }
      }
    } else {
      assert moves == PlanRules(rules, nodes, w).1;
    }
  }

  function Rank(kind: string): nat {
    if kind == MoveKind then 0 else if kind == RenameKind then 1 else if kind == TagKind then 2 else 3
  }

  /** Four blocks of one kind each, in rank order, are ordered by rank. */
  lemma OrderedBlocks(moves: seq<Planned>, renames: seq<Planned>, tags: seq<Planned>, dups: seq<Planned>)
    requires forall i :: 0 <= i < |moves| ==> moves[i].kind == MoveKind
    requires forall i :: 0 <= i < |renames| ==> renames[i].kind == RenameKind
    requires forall i :: 0 <= i < |tags| ==> tags[i].kind == TagKind
    requires forall i :: 0 <= i < |dups| ==> dups[i].kind == DuplicateKind
    ensures var ops := moves + renames + tags + dups;
      forall i, j :: 0 <= i < j < |ops| ==> Rank(ops[i].kind) <= Rank(ops[j].kind)
  {
    var ops := moves + renames + tags + dups;
    forall i | 0 <= i < |ops|
      ensures Rank(ops[i].kind) == if i < |moves| then 0 else if i < |moves| + |renames| then 1
                                   else if i < |moves| + |renames| + |tags| then 2 else 3
    {
      if i < |moves| {
        assert ops[i] == moves[i];
      } else if i < |moves| + |renames| {
        assert ops[i] == renames[i - |moves|];
      } else if i < |moves| + |renames| + |tags| {
        assert ops[i] == tags[i - |moves| - |renames|];
      } else {
        assert ops[i] == dups[i - |moves| - |renames| - |tags|];
      }
    }
  }

  /** Plan order: every move operation precedes every rename operation,
      which precede every tag operation, which precede every duplicate
      operation. */
  lemma PlanOrder(files: RuleFiles, nodes: Nodes, w: World)
    ensures var ops := Plan(files, nodes, w).1;
      forall i, j :: 0 <= i < j < |ops| ==> Rank(ops[i].kind) <= Rank(ops[j].kind)
  {
    match Loaded(files)
    case Err(_) =>
    case Ok(rules) =>
      var (err, moves) := PlanMoves(rules.move, nodes, w);
      if err.None? {
        OrderedBlocks(moves, PlanRenames(rules.rename, nodes, w), PlanTags(rules.tag, nodes, w),
                      PlanDuplicates(rules.duplicate, nodes, w));
      } else {
        OrderedBlocks(moves, [], [], []);
        assert moves + [] + [] + [] == moves;
      }
  }

  /** The summary of a plan: its four counts add up to its length. */
  lemma PlanSummary(files: RuleFiles, nodes: Nodes, w: World, dryRun: bool)
    ensures var s := Summarize(Plan(files, nodes, w).1, dryRun);
      s.move + s.rename + s.tag + s.duplicate == s.total
  {
    PlanConsistent(files, nodes, w);
    KindsPartition(Plan(files, nodes, w).1);
  }

  /** Every operation over several lists has a file of one of the lists as source. */
  lemma {:induction false} OpsOverFrom(name: Option<string>, kind: string, details: Details, lists: seq<seq<Path>>, i: nat)
    requires i < |OpsOver(name, kind, details, lists)|
    ensures exists k :: 0 <= k < |lists| && OpsOver(name, kind, details, lists)[i].source in lists[k]
    decreases |lists|
  {
    var init := lists[..|lists| - 1];
    var before := OpsOver(name, kind, details, init);
    var more := OpsFor(name, kind, lists[|lists| - 1], details);
    var f := OpsOver(name, kind, details, lists)[i].source;
    if i < |before| {
      OpsOverFrom(name, kind, details, init, i);
      var k :| 0 <= k < |init| && before[i].source in init[k];
      assert init[k] == lists[k];
    } else {
      assert f == more[i - |before|].source == lists[|lists| - 1][i - |before|];
    }
  }

  /** Every file of every list is the source of an operation. */
  lemma {:induction false} OpsOverCovers(name: Option<string>, kind: string, details: Details, lists: seq<seq<Path>>,
                                         k: nat, n: nat)
    requires k < |lists| && n < |lists[k]|
    ensures exists i :: 0 <= i < |OpsOver(name, kind, details, lists)| && OpsOver(name, kind, details, lists)[i].source == lists[k][n]
    decreases |lists|
  {
    var init := lists[..|lists| - 1];
    var before := OpsOver(name, kind, details, init);
    var more := OpsFor(name, kind, lists[|lists| - 1], details);
    var ops := OpsOver(name, kind, details, lists);
    assert ops == before + more;
    if k < |init| {
      assert init[k] == lists[k];
      OpsOverCovers(name, kind, details, init, k, n);
      var i :| 0 <= i < |before| && before[i].source == lists[k][n];
      assert ops[i] == before[i];
    } else {
      assert ops[|before| + n] == more[n];
    }
  }

  /** Operations over several lists come exactly from their files: a file
      gets an operation iff some list holds it. */
  lemma OpsOverSources(name: Option<string>, kind: string, details: Details, lists: seq<seq<Path>>, f: Path)
    ensures (exists i :: 0 <= i < |OpsOver(name, kind, details, lists)| && OpsOver(name, kind, details, lists)[i].source == f)
            <==> (exists k :: 0 <= k < |lists| && f in lists[k])
  {
    var ops := OpsOver(name, kind, details, lists);
    if i :| 0 <= i < |ops| && ops[i].source == f {
      OpsOverFrom(name, kind, details, lists, i);
    }
    if k :| 0 <= k < |lists| && f in lists[k] {
      var n :| 0 <= n < |lists[k]| && lists[k][n] == f;
      OpsOverCovers(name, kind, details, lists, k, n);
    }
  }

  /** Rename operations: every file that some fixed path's scan yields and
      the condition matches gets an operation, and nothing else does; all
      carry the rule's rename fields. */
  lemma RenameSources(rule: Rule, nodes: Nodes, w: World, f: Path)
    ensures var ops := PlanRename(rule, nodes, w);
      (forall i :: 0 <= i < |ops| ==> ops[i].kind == RenameKind && ops[i].details == RenameDetailsOf(rule))
      && ((exists i :: 0 <= i < |ops| && ops[i].source == f)
          <==> exists k :: 0 <= k < |LookedIn| && f in Matching(rule.condition, nodes, w, LookedIn[k]))
  {
    var lists := MatchingLists(rule.condition, nodes, w, LookedIn);
    OpsOverSources(rule.name, RenameKind, RenameDetailsOf(rule), lists, f);
    assert forall k :: 0 <= k < |LookedIn| ==> lists[k] == Matching(rule.condition, nodes, w, LookedIn[k]);
  }

  /** Tag operations: the same files as rename operations, whatever the
      condition's path. */
  lemma TagSources(rule: Rule, nodes: Nodes, w: World, f: Path)
    ensures var ops := PlanTag(rule, nodes, w);
      (forall i :: 0 <= i < |ops| ==> ops[i].kind == TagKind && ops[i].details == TagDetailsOf(rule))
      && ((exists i :: 0 <= i < |ops| && ops[i].source == f)
          <==> exists k :: 0 <= k < |LookedIn| && f in Matching(rule.condition, nodes, w, LookedIn[k]))
  {
    var lists := MatchingLists(rule.condition, nodes, w, LookedIn);
    OpsOverSources(rule.name, TagKind, TagDetailsOf(rule), lists, f);
    assert forall k :: 0 <= k < |LookedIn| ==> lists[k] == Matching(rule.condition, nodes, w, LookedIn[k]);
  }

  /** Duplicate operations: one per group of at least two files of the
      Downloads and Documents scans, with the group's first file as source. */
  lemma DuplicateOperations(rule: DuplicateRule, nodes: Nodes, w: World)
    ensures var groups := Deduplicator.Duplicates(DuplicateKeying(rule, nodes, w), ScannedAll(DuplicateScan, nodes, w));
      var ops := PlanDuplicate(rule, nodes, w);
      |ops| == |groups|
      && forall a :: 0 <= a < |ops| ==>
        |groups[a]| >= 2 && ops[a].source == groups[a][0] && ops[a].kind == DuplicateKind
        && ops[a].details == DuplicateDetails(groups[a], rule.action)
        && forall f :: f in groups[a] ==> f in ScannedAll(DuplicateScan, nodes, w) && IsFile(nodes, f)
  {
  }

  /** An operation of an unknown kind succeeds without effect. */
  lemma UnknownKindNoEffect(nodes: Nodes, w: World, r: Planned)
    requires r.kind !in Kinds
    ensures OpOutcome(nodes, w, r) == (None, nodes)
  {
  }

  /** A tag operation off macOS succeeds and changes nothing, since a False
      from `add_tag` is not an exception. */
  lemma TagOpOffMacOS(nodes: Nodes, w: World, source: Path, tags: map<string, string>)
    requires !w.env.isMacOS
    requires forall k :: k in tags ==> k == "color" || k == "label"
    ensures TagOp(nodes, w, source, TagDetails(tags)) == (None, nodes)
  {
    var args := TagArgs(tags).value;
    Tagger.AddTagRefuses(nodes, w.env, source, args.0, args.1);
  }

  /** The tag of a move operation is applied to the source path, where the
      file no longer is: the move succeeds and the tag has no effect. */
  lemma MoveTagFindsNoFile(nodes: Nodes, w: World, source: Path, d: Details)
    requires d.MoveDetails? && (d.tag.Some? ==> TagArgs(d.tag.value).Ok?)
    ensures var dest := ParsePath(d.destination);
      var created := if d.createIfMissing then MkdirParents(nodes, dest) else Ok(nodes);
      created.Ok? ==>
        var (moved, after) := Mover.MoveOutcome(created.value, source, dest);
        moved.Ok? && moved.value != source && !IsDir(created.value, moved.value) ==>
          MoveOp(nodes, w, source, d) == (None, after)
  {
    var dest := ParsePath(d.destination);
    var created := if d.createIfMissing then MkdirParents(nodes, dest) else Ok(nodes);
    if created.Ok? {
      var (moved, after) := Mover.MoveOutcome(created.value, source, dest);
      if moved.Ok? && moved.value != source && !IsDir(created.value, moved.value) {
        Mover.MoveRelocates(created.value, source, dest);
        if d.tag.Some? && d.tag.value != map[] {
          var args := TagArgs(d.tag.value).value;
          Tagger.AddTagRefuses(after, w.env, source, args.0, args.1);
        }
      }
    }
  }

  /** A tag naming any key other than `color` or `label` makes `add_tag` raise
      TypeError only after the file has moved: the operation fails, yet the
      file is already at its target. */
  lemma MoveTagBadKey(nodes: Nodes, w: World, source: Path, d: Details)
    requires d.MoveDetails? && d.tag.Some? && exists k :: k in d.tag.value && k != "color" && k != "label"
    ensures var dest := ParsePath(d.destination);
      var created := if d.createIfMissing then MkdirParents(nodes, dest) else Ok(nodes);
      created.Ok? ==>
        var (moved, after) := Mover.MoveOutcome(created.value, source, dest);
        moved.Ok? && moved.value != source && !IsDir(created.value, moved.value) ==>
          MoveOp(nodes, w, source, d) == (Some(TypeError("add_tag() got an unexpected keyword argument")), after)
          && IsFile(after, moved.value) && after[moved.value] == created.value[source] && !Exists(after, source)
  {
    var dest := ParsePath(d.destination);
    var created := if d.createIfMissing then MkdirParents(nodes, dest) else Ok(nodes);
    if created.Ok? {
      Mover.MoveRelocates(created.value, source, dest);
    }
  }
}
