/** `Deduplicator`: grouping files that share a name or a content digest,
    choosing the file of a group to keep, and disposing of the others (by a
    Finder tag, by the Finder trash on macOS, or by unlinking elsewhere). */
module Deduplicator {
  import opened Common
  import opened Paths
  import opened FileSystem
  import opened Tagger

  /** The label `handle_duplicates` writes by default ("duplicate" in Chinese). */
  const DefaultLabel: string := "\U{91CD}\U{590D}"

  const Newest: string := "newest"
  const Oldest: string := "oldest"

  // ---------------------------------------------------------------------
  // Grouping

  datatype CheckBy = ByName | ByContent

  /** Only the exact string "name" groups by name; every other value,
      including a misspelling, groups by content. */
  function CheckByOf(checkBy: Option<string>): (criterion: CheckBy)
    ensures criterion == ByName <==> checkBy == Some("name")
  {
    if checkBy == Some("name") then ByName else ByContent
  }

  /** What a grouping needs: the criterion, the filesystem it reads, and the
      digest of file contents (SHA-256 in hexadecimal, left uninterpreted). */
  datatype Keying = Keying(criterion: CheckBy, nodes: Nodes, digest: Bytes -> string)

  /** The dictionary key of a file, or None when the file is skipped: by
      name every path has one; by content only a regular file whose reading
      does not raise. */
  function KeyOf(g: Keying, p: Path): (key: Option<string>)
    ensures g.criterion == ByName ==> key == Some(Name(p))
    ensures g.criterion == ByContent ==> (key.Some? <==> IsFile(g.nodes, p) && Lookup(g.nodes, p).value.data.Some?)
  {
    match g.criterion
    case ByName => Some(Name(p))
    case ByContent =>
      match Lookup(g.nodes, p)
      case Some(File(_, _, Some(data), _, _)) => Some(g.digest(data))
      case _ => None
  }

  /** The keys of the dictionary in insertion order: each key once, where it
      first occurs. */
  function Order(g: Keying, files: seq<Path>): (keys: seq<string>)
    ensures Distinct(keys)
    ensures forall i :: 0 <= i < |files| && KeyOf(g, files[i]).Some? ==> KeyOf(g, files[i]).value in keys
    decreases |files|
  {
    if files == [] then []
    else
      var init := files[..|files| - 1];
      var keys := Order(g, init);
      var key := KeyOf(g, files[|files| - 1]);
      assert forall i :: 0 <= i < |init| ==> init[i] == files[i];
      if key.Some? && key.value !in keys then keys + [key.value] else keys
  }

  function HasKey(g: Keying, k: string): Path -> bool {
    p => KeyOf(g, p) == Some(k)
  }

  /** The list stored under key `k`: the files with that key, in input order. */
  function Members(g: Keying, files: seq<Path>, k: string): seq<Path> {
    Filter(files, HasKey(g, k))
  }

  function IsLong(g: Keying, files: seq<Path>): string -> bool {
    k => |Members(g, files, k)| > 1
  }

  /** The lists of several keys, in the order of the keys. */
  function GroupsOf(g: Keying, files: seq<Path>, keys: seq<string>): (groups: seq<seq<Path>>)
    ensures |groups| == |keys|
    ensures forall a :: 0 <= a < |keys| ==> groups[a] == Members(g, files, keys[a])
    decreases |keys|
  {
    if keys == [] then []
    else GroupsOf(g, files, keys[..|keys| - 1]) + [Members(g, files, keys[|keys| - 1])]
  }

  /** What `find_duplicates` returns: the dictionary's lists longer than one. */
  function Duplicates(g: Keying, files: seq<Path>): (groups: seq<seq<Path>>)
    ensures forall a :: 0 <= a < |groups| ==> |groups[a]| >= 2
    ensures forall a, x :: 0 <= a < |groups| && 0 <= x < |groups[a]| ==> groups[a][x] in files
  {
    var keys := Filter(Order(g, files), IsLong(g, files));
    assert forall a :: 0 <= a < |keys| ==> IsLong(g, files)(keys[a]);
    GroupsOf(g, files, keys)
  }

  /** A key that was never inserted has no list. */
  lemma AbsentKeyEmpty(g: Keying, files: seq<Path>, k: string)
    requires k !in Order(g, files)
    ensures Members(g, files, k) == []
  {
    forall i | 0 <= i < |files| ensures !HasKey(g, k)(files[i]) {
      assert KeyOf(g, files[i]) != Some(k);
    }
    FilterNone(files, HasKey(g, k));
  }

  /** The dictionary after the files of `files`: its keys in insertion order
      and the list under each key. */
  ghost predicate Filled(g: Keying, files: seq<Path>, order: seq<string>, buckets: map<string, seq<Path>>) {
    order == Order(g, files)
    && (forall k :: k in buckets <==> k in order)
    && forall k :: k in buckets ==> buckets[k] == Members(g, files, k)
  }

  lemma MembersAppend(g: Keying, files: seq<Path>, p: Path, k: string)
    ensures Members(g, files + [p], k) == Members(g, files, k) + if KeyOf(g, p) == Some(k) then [p] else []
  {
    assert (files + [p])[..|files|] == files;
  }

  /** A skipped file leaves the dictionary as it was. */
  lemma FillSkipped(g: Keying, files: seq<Path>, order: seq<string>, buckets: map<string, seq<Path>>, p: Path)
    requires Filled(g, files, order, buckets) && KeyOf(g, p).None?
    ensures Filled(g, files + [p], order, buckets)
  {
    assert (files + [p])[..|files|] == files;
    forall k | k in buckets ensures buckets[k] == Members(g, files + [p], k) {
      MembersAppend(g, files, p, k);
    }
  }

  /** A file whose key is present is appended to that key's list. */
  lemma FillKnown(g: Keying, files: seq<Path>, order: seq<string>, buckets: map<string, seq<Path>>, p: Path)
    requires Filled(g, files, order, buckets) && KeyOf(g, p).Some? && KeyOf(g, p).value in buckets
    ensures var key := KeyOf(g, p).value; Filled(g, files + [p], order, buckets[key := buckets[key] + [p]])
  {
    var key := KeyOf(g, p).value;
    assert (files + [p])[..|files|] == files;
    var after := buckets[key := buckets[key] + [p]];
    forall k | k in after ensures after[k] == Members(g, files + [p], k) {
      MembersAppend(g, files, p, k);
    }
  }

  /** A file with a new key starts a list at the end of the order. */
  lemma FillNew(g: Keying, files: seq<Path>, order: seq<string>, buckets: map<string, seq<Path>>, p: Path)
    requires Filled(g, files, order, buckets) && KeyOf(g, p).Some? && KeyOf(g, p).value !in buckets
    ensures var key := KeyOf(g, p).value; Filled(g, files + [p], order + [key], buckets[key := [p]])
  {
    var key := KeyOf(g, p).value;
    assert (files + [p])[..|files|] == files;
    AbsentKeyEmpty(g, files, key);
    var after := buckets[key := [p]];
    forall k | k in after ensures after[k] == Members(g, files + [p], k) {
      MembersAppend(g, files, p, k);
    }
  }

  /** `Deduplicator.find_duplicates` with `_find_by_name` and
      `_find_by_content`: one loop filling a dictionary of lists, then the
      lists longer than one. */
  method FindDuplicates(files: seq<Path>, checkBy: Option<string>, nodes: Nodes, digest: Bytes -> string)
    returns (groups: seq<seq<Path>>)
    ensures groups == Duplicates(Keying(CheckByOf(checkBy), nodes, digest), files)
  {
    var g := Keying(CheckByOf(checkBy), nodes, digest);
    var order: seq<string> := [];
    var buckets: map<string, seq<Path>> := map[];
    for i := 0 to |files|
      invariant Filled(g, files[..i], order, buckets)
    {
      var p := files[i];
      assert files[..i + 1] == files[..i] + [p];
      var key := KeyOf(g, p);
      if key.None? {
        FillSkipped(g, files[..i], order, buckets, p);
      } else if key.value in buckets {
        FillKnown(g, files[..i], order, buckets, p);
        buckets := buckets[key.value := buckets[key.value] + [p]];
      } else {
        FillNew(g, files[..i], order, buckets, p);
        order := order + [key.value];
        buckets := buckets[key.value := [p]];
      }
    }
    assert files[..|files|] == files;
    groups := LongLists(g, files, order, buckets);
  }

  lemma LongStep(g: Keying, files: seq<Path>, keys: seq<string>, j: nat)
    requires j < |keys|
    ensures Filter(keys[..j + 1], IsLong(g, files))
      == Filter(keys[..j], IsLong(g, files)) + if |Members(g, files, keys[j])| > 1 then [keys[j]] else []
  {
    assert keys[..j + 1][..j] == keys[..j];
  }

  lemma GroupsOfAppend(g: Keying, files: seq<Path>, keys: seq<string>, k: string)
    ensures GroupsOf(g, files, keys + [k]) == GroupsOf(g, files, keys) + [Members(g, files, k)]
  {
    assert (keys + [k])[..|keys|] == keys;
  }

  /** The comprehension ending `_find_by_name` and `_find_by_content`: the
      dictionary's lists longer than one, in key order. */
  method LongLists(g: Keying, files: seq<Path>, order: seq<string>, buckets: map<string, seq<Path>>)
    returns (groups: seq<seq<Path>>)
    requires Filled(g, files, order, buckets)
    ensures groups == Duplicates(g, files)
  {
    groups := [];
    ghost var long: seq<string> := [];
    for j := 0 to |order|
      invariant long == Filter(order[..j], IsLong(g, files))
      invariant groups == GroupsOf(g, files, long)
    {
      var bucket := buckets[order[j]];
      LongStep(g, files, order, j);
      if |bucket| > 1 {
        GroupsOfAppend(g, files, long, order[j]);
        long := long + [order[j]];
        groups := groups + [bucket];
      }
    }
    assert order[..|order|] == order;
  }

  /** The members of one group share their key. */
  lemma SameGroupSameKey(g: Keying, files: seq<Path>, a: nat, p: Path, q: Path)
    requires a < |Duplicates(g, files)| && p in Duplicates(g, files)[a] && q in Duplicates(g, files)[a]
    ensures KeyOf(g, p).Some? && KeyOf(g, p) == KeyOf(g, q)
  {
    var keys := Filter(Order(g, files), IsLong(g, files));
    assert Duplicates(g, files)[a] == Members(g, files, keys[a]);
  }

  /** Two files with the same key end up in one group. */
  lemma SameKeySameGroup(g: Keying, files: seq<Path>, i: nat, j: nat)
    requires i < j < |files| && KeyOf(g, files[i]).Some? && KeyOf(g, files[i]) == KeyOf(g, files[j])
    ensures exists a :: 0 <= a < |Duplicates(g, files)| && files[i] in Duplicates(g, files)[a] && files[j] in Duplicates(g, files)[a]
  {
    var k := KeyOf(g, files[i]).value;
    var order := Order(g, files);
    var keys := Filter(order, IsLong(g, files));
    FilterTwo(files, HasKey(g, k), i, j);
    assert IsLong(g, files)(k);
    var m :| 0 <= m < |order| && order[m] == k;
    assert k in keys;
    var a :| 0 <= a < |keys| && keys[a] == k;
    assert Duplicates(g, files)[a] == Members(g, files, k);
  }

  /** No file is in two groups. */
  lemma GroupsDisjoint(g: Keying, files: seq<Path>, a: nat, b: nat, p: Path)
    requires a < |Duplicates(g, files)| && b < |Duplicates(g, files)|
    requires p in Duplicates(g, files)[a] && p in Duplicates(g, files)[b]
    ensures a == b
  {
    var keys := Filter(Order(g, files), IsLong(g, files));
    FilterDistinct(Order(g, files), IsLong(g, files));
    assert Duplicates(g, files)[a] == Members(g, files, keys[a]);
    assert Duplicates(g, files)[b] == Members(g, files, keys[b]);
    assert HasKey(g, keys[a])(p) && HasKey(g, keys[b])(p);
  }

  /** By content, a directory, a missing path or an unreadable file is in no
      group. */
  lemma UnreadableInNoGroup(nodes: Nodes, digest: Bytes -> string, files: seq<Path>, p: Path, a: nat)
    requires !IsFile(nodes, p) || Lookup(nodes, p).value.data.None?
    requires a < |Duplicates(Keying(ByContent, nodes, digest), files)|
    ensures p !in Duplicates(Keying(ByContent, nodes, digest), files)[a]
  {
    var g := Keying(ByContent, nodes, digest);
    if p in Duplicates(g, files)[a] {
      SameGroupSameKey(g, files, a, p, p);
    }
  }

  /** By name, two listed files share a group exactly when their final path
      components are equal. */
  lemma ByNameGrouping(nodes: Nodes, digest: Bytes -> string, files: seq<Path>, i: nat, j: nat)
    requires i < j < |files|
    ensures var d := Duplicates(Keying(ByName, nodes, digest), files);
      (exists a :: 0 <= a < |d| && files[i] in d[a] && files[j] in d[a]) <==> Name(files[i]) == Name(files[j])
  {
    var g := Keying(ByName, nodes, digest);
    var d := Duplicates(g, files);
    if Name(files[i]) == Name(files[j]) {
      SameKeySameGroup(g, files, i, j);
    }
    if exists a :: 0 <= a < |d| && files[i] in d[a] && files[j] in d[a] {
      var a :| 0 <= a < |d| && files[i] in d[a] && files[j] in d[a];
      SameGroupSameKey(g, files, a, files[i], files[j]);
    }
  }

  /** By content, two listed files share a group exactly when both are
      readable regular files with equal digests. */
  lemma ByContentGrouping(nodes: Nodes, digest: Bytes -> string, files: seq<Path>, i: nat, j: nat)
    requires i < j < |files|
    ensures var g := Keying(ByContent, nodes, digest); var d := Duplicates(g, files);
      (exists a :: 0 <= a < |d| && files[i] in d[a] && files[j] in d[a])
        <==> KeyOf(g, files[i]).Some? && KeyOf(g, files[i]) == KeyOf(g, files[j])
  {
    var g := Keying(ByContent, nodes, digest);
    var d := Duplicates(g, files);
    if KeyOf(g, files[i]).Some? && KeyOf(g, files[i]) == KeyOf(g, files[j]) {
      SameKeySameGroup(g, files, i, j);
    }
    if exists a :: 0 <= a < |d| && files[i] in d[a] && files[j] in d[a] {
      var a :| 0 <= a < |d| && files[i] in d[a] && files[j] in d[a];
      SameGroupSameKey(g, files, a, files[i], files[j]);
    }
  }

  // ---------------------------------------------------------------------
  // Choosing the file to keep

  /** `p.stat().st_mtime`. */
  function Mtime(nodes: Nodes, p: Path): int
    requires Exists(nodes, p)
  {
    Lookup(nodes, p).value.mtime
  }

  /** The position of the first path whose `stat()` raises, or the length. */
  function FirstMissing(nodes: Nodes, group: seq<Path>): (m: nat)
    ensures m <= |group|
    ensures forall i :: 0 <= i < m ==> Exists(nodes, group[i])
    ensures m < |group| ==> !Exists(nodes, group[m])
  {
    if group == [] || !Exists(nodes, group[0]) then 0
    else 1 + FirstMissing(nodes, group[1..])
  }

  /** The position `max(group, key=mtime)` picks: the first maximal one. */
  function NewestIndex(nodes: Nodes, group: seq<Path>): (k: nat)
    requires group != [] && forall i :: 0 <= i < |group| ==> Exists(nodes, group[i])
    ensures k < |group|
    ensures forall i :: 0 <= i < |group| ==> Mtime(nodes, group[i]) <= Mtime(nodes, group[k])
    ensures forall i :: 0 <= i < k ==> Mtime(nodes, group[i]) < Mtime(nodes, group[k])
    decreases |group|
  {
    if |group| == 1 then 0
    else
      var init := group[..|group| - 1];
      assert forall i :: 0 <= i < |init| ==> init[i] == group[i];
      var k := NewestIndex(nodes, init);
      if Mtime(nodes, group[|group| - 1]) > Mtime(nodes, group[k]) then |group| - 1 else k
  }

  /** The position `min(group, key=mtime)` picks: the first minimal one. */
  function OldestIndex(nodes: Nodes, group: seq<Path>): (k: nat)
    requires group != [] && forall i :: 0 <= i < |group| ==> Exists(nodes, group[i])
    ensures k < |group|
    ensures forall i :: 0 <= i < |group| ==> Mtime(nodes, group[k]) <= Mtime(nodes, group[i])
    ensures forall i :: 0 <= i < k ==> Mtime(nodes, group[k]) < Mtime(nodes, group[i])
    decreases |group|
  {
    if |group| == 1 then 0
    else
      var init := group[..|group| - 1];
      assert forall i :: 0 <= i < |init| ==> init[i] == group[i];
      var k := OldestIndex(nodes, init);
      if Mtime(nodes, group[|group| - 1]) < Mtime(nodes, group[k]) then |group| - 1 else k
  }

  /** The file `handle_duplicates` keeps, or the FileNotFoundError that
      `stat()` raises while choosing it. */
  function SelectKeep(nodes: Nodes, group: seq<Path>, keep: Option<string>): (r: Result<Path>)
    requires group != []
    ensures r.Ok? ==> r.value in group
    ensures keep != Some(Newest) && keep != Some(Oldest) ==> r == Ok(group[0])
    ensures r.Err? <==> (keep == Some(Newest) || keep == Some(Oldest)) && exists i :: 0 <= i < |group| && !Exists(nodes, group[i])
  {
    if keep == Some(Newest) || keep == Some(Oldest) then
      var m := FirstMissing(nodes, group);
      if m < |group| then Err(FileNotFound(group[m]))
      else if keep == Some(Newest) then Ok(group[NewestIndex(nodes, group)])
      else Ok(group[OldestIndex(nodes, group)])
    else Ok(group[0])
  }

  /** "newest" keeps the first file of latest modification time. */
  lemma KeepNewest(nodes: Nodes, group: seq<Path>, k: nat)
    requires forall i :: 0 <= i < |group| ==> Exists(nodes, group[i])
    requires k < |group|
    requires forall i :: 0 <= i < |group| ==> Mtime(nodes, group[i]) <= Mtime(nodes, group[k])
    requires forall i :: 0 <= i < k ==> Mtime(nodes, group[i]) < Mtime(nodes, group[k])
    ensures SelectKeep(nodes, group, Some(Newest)) == Ok(group[k])
  {
    var n := NewestIndex(nodes, group);
    assert Mtime(nodes, group[n]) == Mtime(nodes, group[k]);
  }

  /** "oldest" keeps the first file of earliest modification time. */
  lemma KeepOldest(nodes: Nodes, group: seq<Path>, k: nat)
    requires forall i :: 0 <= i < |group| ==> Exists(nodes, group[i])
    requires k < |group|
    requires forall i :: 0 <= i < |group| ==> Mtime(nodes, group[k]) <= Mtime(nodes, group[i])
    requires forall i :: 0 <= i < k ==> Mtime(nodes, group[k]) < Mtime(nodes, group[i])
    ensures SelectKeep(nodes, group, Some(Oldest)) == Ok(group[k])
  {
    var n := OldestIndex(nodes, group);
    assert Mtime(nodes, group[n]) == Mtime(nodes, group[k]);
  }

  /** Three copies modified at 10:00, 10:05 and 10:02 (in minutes): "newest"
      keeps the second. */
  lemma NewestExample(nodes: Nodes, group: seq<Path>)
    requires |group| == 3 && forall i :: 0 <= i < 3 ==> Exists(nodes, group[i])
    requires Mtime(nodes, group[0]) == 600 && Mtime(nodes, group[1]) == 605 && Mtime(nodes, group[2]) == 602
    ensures SelectKeep(nodes, group, Some(Newest)) == Ok(group[1])
  {
    KeepNewest(nodes, group, 1);
  }

  // ---------------------------------------------------------------------
  // Disposing of the other files

  /** What `_move_to_trash` raises and leaves. On macOS the Finder is asked to
      delete the file and only a failure to start `osascript` raises; a
      nonzero exit is ignored. Elsewhere the file is unlinked and any error
      is caught and printed. */
  function TrashOutcome(nodes: Nodes, env: Env, p: Path): (outcome: (Option<Error>, Nodes))
    ensures outcome.0.Some? <==> env.isMacOS && env.run(TrashScript, p).Raised?
    ensures OnlyChanges(nodes, outcome.1, p)
    ensures !env.isMacOS && IsFile(nodes, p) ==> !Exists(outcome.1, p)
    ensures !env.isMacOS && !IsFile(nodes, p) ==> outcome.1 == nodes
  {
    if env.isMacOS then
      match env.run(TrashScript, p)
      case Raised => (Some(ProcessRaised(TrashScript)), nodes)
      case Exit(code) => (None, if code == 0 then nodes - {p} else nodes)
    else
      match Unlink(nodes, p)
      case Ok(after) => (None, after)
      case Err(_) => (None, nodes)
  }

  /** `Deduplicator._move_to_trash`. */
  method MoveToTrash(disk: Disk, env: Env, p: Path) returns (err: Option<Error>)
    modifies disk
    ensures (err, disk.nodes) == TrashOutcome(old(disk.nodes), env, p)
  {
    if env.isMacOS {
      var status := env.run(TrashScript, p);
      if status.Raised? {
        return Some(ProcessRaised(TrashScript));
      }
      if status.code == 0 {
        disk.nodes := disk.nodes - {p};
      }
      return None;
    }
    var unlinked := Unlink(disk.nodes, p);
    if unlinked.Ok? {
      disk.nodes := unlinked.value;
    }
    return None;
  }

  /** One file that is not kept: tagged with the label, or trashed. */
  function DisposeOne(nodes: Nodes, env: Env, p: Path, tag: bool, tagLabel: Option<string>): (outcome: (Option<Error>, Nodes))
    ensures OnlyChanges(nodes, outcome.1, p)
    ensures tag ==> outcome.0.None? && forall q :: q in nodes ==> q in outcome.1
  {
    if tag then (None, AddTagOutcome(nodes, env, p, None, tagLabel).1)
    else TrashOutcome(nodes, env, p)
  }

  /** The body of the loop of `handle_duplicates` for a file not kept. */
  method Dispose(disk: Disk, env: Env, p: Path, tag: bool, tagLabel: Option<string>) returns (err: Option<Error>)
    modifies disk
    ensures (err, disk.nodes) == DisposeOne(old(disk.nodes), env, p, tag, tagLabel)
  {
    if tag {
      var tagged := AddTag(disk, env, p, None, tagLabel);
      err := None;
    } else {
      err := MoveToTrash(disk, env, p);
    }
  }

  /** The files in order, stopping at the first exception. */
  function DisposeEach(nodes: Nodes, env: Env, ps: seq<Path>, tag: bool, tagLabel: Option<string>): (outcome: (Option<Error>, Nodes))
    decreases |ps|
  {
    if ps == [] then (None, nodes)
    else
      var (err, after) := DisposeOne(nodes, env, ps[0], tag, tagLabel);
      if err.Some? then (err, after) else DisposeEach(after, env, ps[1..], tag, tagLabel)
  }

  function NotKept(keep: Path): Path -> bool {
    p => p != keep
  }

  /** The files of the group that are handled, in group order. */
  function Disposed(group: seq<Path>, keep: Path): seq<Path> {
    Filter(group, NotKept(keep))
  }

  /** What `Deduplicator.handle_duplicates` raises and leaves. */
  function HandleOutcome(nodes: Nodes, env: Env, group: seq<Path>, keep: Option<string>, tag: bool, tagLabel: Option<string>): (outcome: (Option<Error>, Nodes))
    ensures |group| < 2 ==> outcome == (None, nodes)
  {
    if |group| < 2 then (None, nodes)
    else match SelectKeep(nodes, group, keep)
      case Err(e) => (Some(e), nodes)
      case Ok(k) => DisposeEach(nodes, env, Disposed(group, k), tag, tagLabel)
  }

  /** `Deduplicator.handle_duplicates`. */
  method HandleDuplicates(disk: Disk, env: Env, group: seq<Path>, keep: Option<string>, tagDuplicates: bool, tagLabel: Option<string>)
    returns (err: Option<Error>)
    modifies disk
    ensures (err, disk.nodes) == HandleOutcome(old(disk.nodes), env, group, keep, tagDuplicates, tagLabel)
  {
    if |group| < 2 {
      return None;
    }
    var selected := SelectKeep(disk.nodes, group, keep);
    if selected.Err? {
      return Some(selected.error);
    }
    var keepFile := selected.value;
    ghost var goal := DisposeEach(disk.nodes, env, Disposed(group, keepFile), tagDuplicates, tagLabel);
    assert group[0..] == group;
    for i := 0 to |group|
      invariant DisposeEach(disk.nodes, env, Disposed(group[i..], keepFile), tagDuplicates, tagLabel) == goal
    {
      var p := group[i];
      DisposeStep(disk.nodes, env, group, i, keepFile, tagDuplicates, tagLabel);
      if p == keepFile {
        continue;
      }
      var e := Dispose(disk, env, p, tagDuplicates, tagLabel);
      if e.Some? {
        return e;
      }
    }
    assert group[|group|..] == [];
    return None;
  }

  /** One turn of the loop of `handle_duplicates`: the kept file is skipped,
      any other file is disposed of before the rest. */
  lemma DisposeStep(nodes: Nodes, env: Env, group: seq<Path>, i: nat, keep: Path, tag: bool, tagLabel: Option<string>)
    requires i < |group|
    ensures var rest := Disposed(group[i + 1..], keep);
      DisposeEach(nodes, env, Disposed(group[i..], keep), tag, tagLabel) ==
        if group[i] == keep then DisposeEach(nodes, env, rest, tag, tagLabel)
        else
          var (err, after) := DisposeOne(nodes, env, group[i], tag, tagLabel);
          if err.Some? then (err, after) else DisposeEach(after, env, rest, tag, tagLabel)
  {
    var p := group[i];
    assert group[i..] == [p] + group[i + 1..];
    FilterAppend([p], group[i + 1..], NotKept(keep));
    assert [p][..0] == [];
    assert Filter([p], NotKept(keep)) == if p != keep then [p] else [];
    if p != keep {
      var d := Disposed(group[i..], keep);
      assert d == [p] + Disposed(group[i + 1..], keep);
      assert d[0] == p && d[1..] == Disposed(group[i + 1..], keep);
      var (err, after) := DisposeOne(nodes, env, p, tag, tagLabel);
      if err.None? {
        assert DisposeEach(nodes, env, d, tag, tagLabel) == DisposeEach(after, env, d[1..], tag, tagLabel);
      }
    } else {
      assert Disposed(group[i..], keep) == Disposed(group[i + 1..], keep);
    }
  }

  // ---------------------------------------------------------------------
  // Properties of handling

  /** Every file other than the kept one is handled as often as it is listed,
      and the kept file never. */
  lemma HandledOnce(group: seq<Path>, keep: Path, p: Path)
    ensures Count(Disposed(group, keep), p) == if p == keep then 0 else Count(group, p)
  {
    FilterCount(group, NotKept(keep), p);
  }

  /** Paths that are not handled keep their node. */
  lemma {:induction false} DisposeEachKeepsOthers(nodes: Nodes, env: Env, ps: seq<Path>, tag: bool, tagLabel: Option<string>, q: Path)
    requires q !in ps
    ensures var after := DisposeEach(nodes, env, ps, tag, tagLabel).1;
      (q in after <==> q in nodes) && (q in after ==> after[q] == nodes[q])
    decreases |ps|
  {
    if ps != [] {
      var (err, after) := DisposeOne(nodes, env, ps[0], tag, tagLabel);
      if err.None? {
        assert q !in ps[1..];
        DisposeEachKeepsOthers(after, env, ps[1..], tag, tagLabel, q);
      }
    }
  }

  /** The kept file is left as it was. */
  lemma KeptUntouched(nodes: Nodes, env: Env, group: seq<Path>, keep: Option<string>, tag: bool, tagLabel: Option<string>)
    requires |group| >= 2 && SelectKeep(nodes, group, keep).Ok?
    ensures var k := SelectKeep(nodes, group, keep).value; var after := HandleOutcome(nodes, env, group, keep, tag, tagLabel).1;
      (k in after <==> k in nodes) && (k in after ==> after[k] == nodes[k])
  {
    var k := SelectKeep(nodes, group, keep).value;
    assert k !in Disposed(group, k);
    DisposeEachKeepsOthers(nodes, env, Disposed(group, k), tag, tagLabel, k);
  }

  /** Off macOS, without tagging, every listed regular file is unlinked, all
      other paths stay, and no error escapes. */
  lemma {:induction false} UnlinkEach(nodes: Nodes, env: Env, ps: seq<Path>, tagLabel: Option<string>)
    requires !env.isMacOS
    ensures var (err, after) := DisposeEach(nodes, env, ps, false, tagLabel);
      err.None?
      && (forall q :: q in after <==> q in nodes && !(q in ps && IsFile(nodes, q)))
      && (forall q :: q in after ==> after[q] == nodes[q])
    decreases |ps|
  {
    if ps != [] {
      var (err, after) := TrashOutcome(nodes, env, ps[0]);
      UnlinkEach(after, env, ps[1..], tagLabel);
      assert forall q :: q in ps <==> q == ps[0] || q in ps[1..];
    }
  }

  /** Off macOS, without tagging, a handled group keeps only the chosen file
      among its regular files. */
  lemma HandleDeletes(nodes: Nodes, env: Env, group: seq<Path>, keep: Option<string>, tagLabel: Option<string>)
    requires !env.isMacOS && |group| >= 2 && SelectKeep(nodes, group, keep).Ok?
    ensures var k := SelectKeep(nodes, group, keep).value; var (err, after) := HandleOutcome(nodes, env, group, keep, false, tagLabel);
      err.None? && (k in after <==> k in nodes)
      && forall i :: 0 <= i < |group| && group[i] != k && IsFile(nodes, group[i]) ==> group[i] !in after
  {
    var k := SelectKeep(nodes, group, keep).value;
    UnlinkEach(nodes, env, Disposed(group, k), tagLabel);
    assert k !in Disposed(group, k);
    forall i | 0 <= i < |group| && group[i] != k
      ensures group[i] in Disposed(group, k)
    {
      assert NotKept(k)(group[i]);
    }
  }

  /** With tagging, no path disappears and no error escapes. */
  lemma {:induction false} TaggingRemovesNothing(nodes: Nodes, env: Env, ps: seq<Path>, tagLabel: Option<string>)
    ensures var (err, after) := DisposeEach(nodes, env, ps, true, tagLabel);
      err.None? && forall q :: q in nodes ==> q in after
    decreases |ps|
  {
    if ps != [] {
      TaggingRemovesNothing(DisposeOne(nodes, env, ps[0], true, tagLabel).1, env, ps[1..], tagLabel);
    }
  }
}
