/** `insights.scan_directory_basic`: one pass over the entries of a
    directory collecting file records, an extension histogram and the
    number of files directly inside each subdirectory, then the selections
    of the report: the largest files, the files above 50 MiB, and the
    histograms ordered by count. */
module Insights {
  import opened Common
  import opened Paths
  import opened FileSystem

  // ---------------------------------------------------------------------
  // The stable descending sort of `sorted(..., key=..., reverse=True)`

  /** No element is followed by one with a larger key. */
  predicate NonIncreasing<T>(s: seq<T>, key: T -> nat) {
    forall i, j :: 0 <= i < j < |s| ==> key(s[i]) >= key(s[j])
  }

  /** `x` placed after every element whose key is at least its own. */
  function InsertDesc<T(==)>(x: T, s: seq<T>, key: T -> nat): (r: seq<T>)
    ensures multiset(r) == multiset(s) + multiset{x}
    decreases |s|
  {
    if s == [] || key(x) > key(s[0]) then [x] + s
    else
      assert s == [s[0]] + s[1..];
      [s[0]] + InsertDesc(x, s[1..], key)
  }

  /** Python's `sorted(s, key=key, reverse=True)`, by insertion. */
  function SortDesc<T(==)>(s: seq<T>, key: T -> nat): (r: seq<T>)
    ensures multiset(r) == multiset(s)
    decreases |s|
  {
    if s == [] then []
    else
      assert s == s[..|s| - 1] + [s[|s| - 1]];
      InsertDesc(s[|s| - 1], SortDesc(s[..|s| - 1], key), key)
  }

  lemma TailOrdered<T>(s: seq<T>, key: T -> nat)
    requires s != [] && NonIncreasing(s, key)
    ensures NonIncreasing(s[1..], key)
  {
    var tail := s[1..];
    forall i, j | 0 <= i < j < |tail| ensures key(tail[i]) >= key(tail[j]) {
      assert tail[i] == s[i + 1] && tail[j] == s[j + 1];
    }
  }

  lemma ConsOrdered<T>(h: T, s: seq<T>, key: T -> nat)
    requires NonIncreasing(s, key)
    requires forall j :: 0 <= j < |s| ==> key(s[j]) <= key(h)
    ensures NonIncreasing([h] + s, key)
  {
    var r := [h] + s;
    forall i, j | 0 <= i < j < |r| ensures key(r[i]) >= key(r[j]) {
      assert r[j] == s[j - 1];
      if i > 0 {
        assert r[i] == s[i - 1];
      }
    }
  }

  /** Every element of `s` is an element of `t`, or `x`. */
  lemma InsertedFrom<T>(x: T, s: seq<T>, t: seq<T>, j: nat)
    requires multiset(t) == multiset(s) + multiset{x} && j < |t| && t[j] != x
    ensures t[j] in s
  {
    assert t[j] in multiset(t);
  }

  lemma {:induction false} InsertDescOrdered<T>(x: T, s: seq<T>, key: T -> nat)
    requires NonIncreasing(s, key)
    ensures NonIncreasing(InsertDesc(x, s, key), key)
    decreases |s|
  {
    if s == [] || key(x) > key(s[0]) {
      ConsOrdered(x, s, key);
    } else {
      var tail := s[1..];
      TailOrdered(s, key);
      var rest := InsertDesc(x, tail, key);
      InsertDescOrdered(x, tail, key);
      forall j | 0 <= j < |rest| ensures key(rest[j]) <= key(s[0]) {
        if rest[j] != x {
          InsertedFrom(x, tail, rest, j);
          var m :| 0 <= m < |tail| && tail[m] == rest[j];
          assert s[m + 1] == rest[j];
        }
      }
      ConsOrdered(s[0], rest, key);
    }
  }

  lemma {:induction false} SortDescOrdered<T>(s: seq<T>, key: T -> nat)
    ensures NonIncreasing(SortDesc(s, key), key)
    decreases |s|
  {
    if s != [] {
      SortDescOrdered(s[..|s| - 1], key);
      InsertDescOrdered(s[|s| - 1], SortDesc(s[..|s| - 1], key), key);
    }
  }

  function HasKey<T>(key: T -> nat, k: nat): T -> bool {
    x => key(x) == k
  }

  lemma FilterOne<T>(x: T, keep: T -> bool)
    ensures Filter([x], keep) == if keep(x) then [x] else []
  {
    var one := [x];
    assert one[..0] == [];
  }

  lemma FilterCons<T>(x: T, s: seq<T>, keep: T -> bool)
    ensures Filter([x] + s, keep) == (if keep(x) then [x] else []) + Filter(s, keep)
  {
    FilterAppend([x], s, keep);
    FilterOne(x, keep);
  }

  /** No element of an ordered sequence has a key above its first one. */
  lemma NoneAbove<T>(s: seq<T>, key: T -> nat, k: nat)
    requires NonIncreasing(s, key)
    requires s == [] || key(s[0]) < k
    ensures Filter(s, HasKey(key, k)) == []
  {
    forall i | 0 <= i < |s| ensures !HasKey(key, k)(s[i]) {
      assert key(s[i]) <= key(s[0]);
    }
    FilterNone(s, HasKey(key, k));
  }

  /** `x` goes in front of elements all smaller than it. */
  lemma InsertDescFront<T>(x: T, s: seq<T>, key: T -> nat, k: nat)
    requires NonIncreasing(s, key)
    requires s == [] || key(x) > key(s[0])
    ensures Filter([x] + s, HasKey(key, k)) == Filter(s, HasKey(key, k)) + (if key(x) == k then [x] else [])
  {
    FilterCons(x, s, HasKey(key, k));
    if key(x) == k {
      NoneAbove(s, key, k);
    }
  }

  lemma {:induction false} InsertDescStable<T>(x: T, s: seq<T>, key: T -> nat, k: nat)
    requires NonIncreasing(s, key)
    ensures Filter(InsertDesc(x, s, key), HasKey(key, k)) == Filter(s, HasKey(key, k)) + (if key(x) == k then [x] else [])
    decreases |s|
  {
    var keep := HasKey(key, k);
    if s == [] || key(x) > key(s[0]) {
      InsertDescFront(x, s, key, k);
    } else {
      var tail := s[1..];
      TailOrdered(s, key);
      var rest := InsertDesc(x, tail, key);
      assert InsertDesc(x, s, key) == [s[0]] + rest;
      InsertDescStable(x, tail, key, k);
      FilterConsBoth(s[0], rest, tail, keep, if key(x) == k then [x] else []);
      assert s == [s[0]] + tail;
    }
  }

  /** Putting the same element in front of two sequences keeps a relation
      between what the filter keeps of them. */
  lemma FilterConsBoth<T>(h: T, rest: seq<T>, tail: seq<T>, keep: T -> bool, last: seq<T>)
    requires Filter(rest, keep) == Filter(tail, keep) + last
    ensures Filter([h] + rest, keep) == Filter([h] + tail, keep) + last
  {
    FilterCons(h, rest, keep);
    FilterCons(h, tail, keep);
    AppendAssoc(if keep(h) then [h] else [], Filter(tail, keep), last);
  }

  /** Elements of equal key keep their relative order. */
  lemma {:induction false} SortDescStable<T>(s: seq<T>, key: T -> nat, k: nat)
    ensures Filter(SortDesc(s, key), HasKey(key, k)) == Filter(s, HasKey(key, k))
    decreases |s|
  {
    if s != [] {
      var init := s[..|s| - 1];
      SortDescStable(init, key, k);
      SortDescOrdered(init, key);
      InsertDescStable(s[|s| - 1], SortDesc(init, key), key, k);
    }
  }

  // ---------------------------------------------------------------------
  // Ordered dictionaries as association lists, in insertion order

  type Dict = seq<(string, nat)>

  /** No key occurs twice. */
  predicate KeysDistinct(d: Dict) {
    forall i, j :: 0 <= i < j < |d| ==> d[i].0 != d[j].0
  }

  /** `d.get(k, 0)`. */
  function Value(d: Dict, k: string): nat
    decreases |d|
  {
    if d == [] then 0 else if d[0].0 == k then d[0].1 else Value(d[1..], k)
  }

  /** `d[k] = d.get(k, 0) + 1`: a new key goes last, an existing one keeps
      its place. */
  function Bump(d: Dict, k: string): (r: Dict)
    ensures |r| == |d| || |r| == |d| + 1
    ensures forall i :: 0 <= i < |r| ==> r[i].0 == k || exists j :: 0 <= j < |d| && d[j].0 == r[i].0
    decreases |d|
  {
    if d == [] then [(k, 1)]
    else if d[0].0 == k then [(k, d[0].1 + 1)] + d[1..]
    else [d[0]] + Bump(d[1..], k)
  }

  /** `d[k] = v`: a new key goes last, an existing one keeps its place. */
  function Put(d: Dict, k: string, v: nat): (r: Dict)
    ensures forall p :: p in r ==> p == (k, v) || p in d
    decreases |d|
  {
    if d == [] then [(k, v)]
    else if d[0].0 == k then [(k, v)] + d[1..]
    else [d[0]] + Put(d[1..], k, v)
  }

  function Total(d: Dict): nat
    decreases |d|
  {
    if d == [] then 0 else d[0].1 + Total(d[1..])
  }

  lemma {:induction false} BumpTotal(d: Dict, k: string)
    ensures Total(Bump(d, k)) == Total(d) + 1
    decreases |d|
  {
    if d != [] && d[0].0 != k {
      BumpTotal(d[1..], k);
    }
  }

  lemma {:induction false} BumpValue(d: Dict, k: string, x: string)
    ensures Value(Bump(d, k), x) == Value(d, x) + (if x == k then 1 else 0)
    decreases |d|
  {
    if d != [] && d[0].0 != k {
      BumpValue(d[1..], k, x);
    }
  }

  lemma {:induction false} BumpDistinct(d: Dict, k: string)
    requires KeysDistinct(d)
    ensures KeysDistinct(Bump(d, k))
    decreases |d|
  {
    if d != [] && d[0].0 != k {
      var rest := Bump(d[1..], k);
      BumpDistinct(d[1..], k);
      forall i | 0 <= i < |rest| ensures rest[i].0 != d[0].0 {
        if rest[i].0 != k {
          var j :| 0 <= j < |d[1..]| && d[1..][j].0 == rest[i].0;
          assert d[j + 1].0 == rest[i].0;
        }
      }
    }
  }

  /** In a dictionary without repeated keys, a pair holds the value of its key. */
  lemma {:induction false} PairValue(d: Dict, i: nat)
    requires KeysDistinct(d) && i < |d|
    ensures d[i].1 == Value(d, d[i].0)
    decreases |d|
  {
    if i > 0 {
      assert d[i].0 != d[0].0;
      PairValue(d[1..], i - 1);
    }
  }

  // ---------------------------------------------------------------------
  // Records of the scan

  /** What `os.scandir` yields before it stops, and whether it stopped by
      raising `OSError`. */
  datatype Listing = Listing(entries: seq<Path>, raised: bool)

  /** The environment of `scan_directory_basic`: the home directory for
      `expanduser`, the listings of `os.scandir`, and whether `entry.stat()`
      succeeds. */
  datatype Scanner = Scanner(home: string, scandir: Path -> Listing, statOk: Path -> bool)

  datatype FileInfo = FileInfo(name: string, size: nat, ext: string)

  datatype FolderInfo = FolderInfo(name: string, count: nat)

  /** `scan_directory_basic`'s dictionary: the error record for a missing
      path, or the statistics. Sizes are in bytes; the rounded megabyte
      figures are not modelled. */
  datatype Report =
    | Missing(path: string)
    | Stats(path: string, totalFiles: nat, totalFolders: nat, totalSize: nat,
            byExtension: Dict, byFolder: Dict, topFiles: seq<FileInfo>, largeFiles: seq<FileInfo>,
            folders: seq<FolderInfo>)

  const TopCount: nat := 20
  const LargeCount: nat := 10
  const LargeSize: nat := 50 * 1024 * 1024
  const ExtensionCount: nat := 15
  const FolderCount: nat := 10

  predicate AllDots(s: string) {
    forall i :: 0 <= i < |s| ==> s[i] == '.'
  }

  /** `os.path.splitext(name)[1]`: from the last dot, provided some character
      before it is not a dot (leading dots do not start an extension). */
  function SplitExt(name: string): (r: string)
    ensures r == "" || (r[0] == '.' && EndsWith(name, r))
  {
    var i := LastIndexOf(name, '.');
    if i.Some? && !AllDots(name[..i.value]) then name[i.value..] else ""
  }

  /** The extension key: lowercased, without its leading dots. */
  function ExtOf(name: string): (r: string)
    ensures r == [] || r[0] != '.'
  {
    LStrip(Lower(SplitExt(name)), {'.'})
  }

  /** A file entry that adds a record: a regular file whose `stat` succeeds. */
  function Recorded(nodes: Nodes, sc: Scanner): Path -> bool {
    p => IsFile(nodes, p) && sc.statOk(p)
  }

  /** A directory entry (reached only when the entry is not a file). */
  function Folder(nodes: Nodes): Path -> bool {
    p => !IsFile(nodes, p) && IsDir(nodes, p)
  }

  function Info(nodes: Nodes, p: Path): FileInfo
    requires IsFile(nodes, p)
  {
    FileInfo(Name(p), nodes[p].size, ExtOf(Name(p)))
  }

  /** The records of the `files` list, one per recorded entry, in scan order. */
  function FileRecords(nodes: Nodes, sc: Scanner, entries: seq<Path>): seq<FileInfo>
    decreases |entries|
  {
    if entries == [] then []
    else
      var p := entries[|entries| - 1];
      var init := FileRecords(nodes, sc, entries[..|entries| - 1]);
      if Recorded(nodes, sc)(p) then init + [Info(nodes, p)] else init
  }

  /** The number of regular files among what a subdirectory's listing
      yielded; an error during the listing keeps the partial count. */
  function DirectFiles(nodes: Nodes, sc: Scanner, d: Path): nat {
    |Filter(sc.scandir(d).entries, IsFileIn(nodes))|
  }

  /** The `folders` list, one record per directory entry, in scan order. */
  function FolderRecords(nodes: Nodes, sc: Scanner, entries: seq<Path>): seq<FolderInfo>
    decreases |entries|
  {
    if entries == [] then []
    else
      var p := entries[|entries| - 1];
      var init := FolderRecords(nodes, sc, entries[..|entries| - 1]);
      if Folder(nodes)(p) then init + [FolderInfo(Name(p), DirectFiles(nodes, sc, p))] else init
  }

  /** One record per recorded file entry, in scan order. */
  lemma {:induction false} FileRecordsAre(nodes: Nodes, sc: Scanner, entries: seq<Path>)
    ensures var kept := Filter(entries, Recorded(nodes, sc)); var r := FileRecords(nodes, sc, entries);
      |r| == |kept| && forall i :: 0 <= i < |r| ==> IsFile(nodes, kept[i]) && r[i] == Info(nodes, kept[i])
    decreases |entries|
  {
    if entries != [] {
      var init := entries[..|entries| - 1];
      FileRecordsAre(nodes, sc, init);
      var kept := Filter(init, Recorded(nodes, sc));
      var r := FileRecords(nodes, sc, init);
      var p := entries[|entries| - 1];
      if Recorded(nodes, sc)(p) {
        var r' := r + [Info(nodes, p)];
        var kept' := kept + [p];
        forall i | 0 <= i < |r'| ensures IsFile(nodes, kept'[i]) && r'[i] == Info(nodes, kept'[i]) {
          if i < |r| {
            assert r'[i] == r[i] && kept'[i] == kept[i];
          }
        }
      }
    }
  }

  /** One record per directory entry, in scan order. */
  lemma {:induction false} FolderRecordsAre(nodes: Nodes, sc: Scanner, entries: seq<Path>)
    ensures var kept := Filter(entries, Folder(nodes)); var r := FolderRecords(nodes, sc, entries);
      |r| == |kept| && forall i :: 0 <= i < |r| ==> r[i] == FolderInfo(Name(kept[i]), DirectFiles(nodes, sc, kept[i]))
    decreases |entries|
  {
    if entries != [] {
      var init := entries[..|entries| - 1];
      FolderRecordsAre(nodes, sc, init);
      var kept := Filter(init, Folder(nodes));
      var r := FolderRecords(nodes, sc, init);
      var p := entries[|entries| - 1];
      if Folder(nodes)(p) {
        assert forall i :: 0 <= i < |r| ==> (kept + [p])[i] == kept[i];
      }
    }
  }

  /** `ext_counts` after counting the extensions of `files` in order. */
  function Histogram(files: seq<FileInfo>): Dict
    decreases |files|
  {
    if files == [] then [] else Bump(Histogram(files[..|files| - 1]), files[|files| - 1].ext)
  }

  /** `folder_file_counts` after recording `folders` in order. */
  function FolderCounts(folders: seq<FolderInfo>): Dict
    decreases |folders|
  {
    if folders == [] then []
    else
      var f := folders[|folders| - 1];
      Put(FolderCounts(folders[..|folders| - 1]), f.name, f.count)
  }

  function TotalSize(files: seq<FileInfo>): nat
    decreases |files|
  {
    if files == [] then 0 else TotalSize(files[..|files| - 1]) + files[|files| - 1].size
  }

  function Size(f: FileInfo): nat { f.size }
  function Files(f: FolderInfo): nat { f.count }
  function Occurrences(e: (string, nat)): nat { e.1 }
  function IsLarge(f: FileInfo): bool { f.size > LargeSize }

  function ScanPath(sc: Scanner, path: string): Path {
    ParsePath(ExpandUser(sc.home, path))
  }

  /** The report built from the collected lists. */
  function Summarize(path: string, files: seq<FileInfo>, folders: seq<FolderInfo>, extCounts: Dict, folderCounts: Dict): Report {
    Stats(path, |files|, |folders|, TotalSize(files),
          Take(SortDesc(extCounts, Occurrences), ExtensionCount),
          Take(SortDesc(folderCounts, Occurrences), FolderCount),
          Take(SortDesc(files, Size), TopCount),
          Take(Filter(files, IsLarge), LargeCount),
          SortDesc(folders, Files))
  }

  /** What `scan_directory_basic` returns or raises: the error record for a
      missing path; `os.scandir` raising on a file or during the listing
      is not caught. */
  function Basic(nodes: Nodes, sc: Scanner, path: string): Result<Report> {
    var expanded := ExpandUser(sc.home, path);
    var root := ParsePath(expanded);
    if !Exists(nodes, root) then Ok(Missing(expanded))
    else if !IsDir(nodes, root) then Err(NotADirectory(root))
    else if sc.scandir(root).raised then Err(ListingFailed(root))
    else
      var entries := sc.scandir(root).entries;
      var files := FileRecords(nodes, sc, entries);
      var folders := FolderRecords(nodes, sc, entries);
      Ok(Summarize(expanded, files, folders, Histogram(files), FolderCounts(folders)))
  }

  // ---------------------------------------------------------------------
  // The scan as the source runs it

  /** The inner loop: the regular files a subdirectory's listing yields. */
  method CountDirectFiles(nodes: Nodes, sc: Scanner, d: Path) returns (n: nat)
    ensures n == DirectFiles(nodes, sc, d)
  {
    var subs := sc.scandir(d).entries;
    n := 0;
    for i := 0 to |subs|
      invariant n == |Filter(subs[..i], IsFileIn(nodes))|
    {
      FilterStep(subs, IsFileIn(nodes), i);
      if IsFile(nodes, subs[i]) {
        n := n + 1;
      }
    }
    assert subs[..|subs|] == subs;
  }

  /** The loop over the entries of the scanned directory. */
  method ScanEntries(nodes: Nodes, sc: Scanner, entries: seq<Path>)
    returns (files: seq<FileInfo>, folders: seq<FolderInfo>, extCounts: Dict, folderCounts: Dict)
    ensures files == FileRecords(nodes, sc, entries) && extCounts == Histogram(files)
    ensures folders == FolderRecords(nodes, sc, entries) && folderCounts == FolderCounts(folders)
  {
    files, folders, extCounts, folderCounts := [], [], [], [];
    for i := 0 to |entries|
      invariant files == FileRecords(nodes, sc, entries[..i])
      invariant folders == FolderRecords(nodes, sc, entries[..i])
      invariant extCounts == Histogram(files)
      invariant folderCounts == FolderCounts(folders)
    {
      var entry := entries[i];
      assert entries[..i + 1][..i] == entries[..i];
      if IsFile(nodes, entry) {
        if sc.statOk(entry) {
          var info := FileInfo(Name(entry), nodes[entry].size, ExtOf(Name(entry)));
          assert (files + [info])[..|files|] == files;
          files := files + [info];
          extCounts := Bump(extCounts, info.ext);
        }
      } else if IsDir(nodes, entry) {
        var count := CountDirectFiles(nodes, sc, entry);
        var folder := FolderInfo(Name(entry), count);
        assert (folders + [folder])[..|folders|] == folders;
        folders := folders + [folder];
        folderCounts := Put(folderCounts, folder.name, count);
      }
    }
    assert entries[..|entries|] == entries;
  }

  /** `scan_directory_basic`. */
  method ScanDirectoryBasic(nodes: Nodes, sc: Scanner, path: string) returns (r: Result<Report>)
    ensures r == Basic(nodes, sc, path)
  {
    var expanded := ExpandUser(sc.home, path);
    var root := ParsePath(expanded);
    if !Exists(nodes, root) {
      return Ok(Missing(expanded));
    }
    if !IsDir(nodes, root) {
      return Err(NotADirectory(root));
    }
    var listing := sc.scandir(root);
    if listing.raised {
      return Err(ListingFailed(root));
    }
    var files, folders, extCounts, folderCounts := ScanEntries(nodes, sc, listing.entries);
    r := Ok(Summarize(expanded, files, folders, extCounts, folderCounts));
  }

  // ---------------------------------------------------------------------
  // Properties of the report

  /** The histogram holds each extension once, with the number of files of
      that extension, and its counts add up to the number of files. */
  lemma {:induction false} HistogramCounts(files: seq<FileInfo>, e: string)
    ensures KeysDistinct(Histogram(files))
    ensures Value(Histogram(files), e) == |Filter(files, (f: FileInfo) => f.ext == e)|
    ensures Total(Histogram(files)) == |files|
    decreases |files|
  {
    if files != [] {
      var init := files[..|files| - 1];
      var last := files[|files| - 1];
      HistogramCounts(init, e);
      BumpValue(Histogram(init), last.ext, e);
      BumpDistinct(Histogram(init), last.ext);
      BumpTotal(Histogram(init), last.ext);
    }
  }

  /** Every pair of a folder histogram was recorded for a folder of that name
      and count. */
  lemma {:induction false} FolderCountsFrom(folders: seq<FolderInfo>, p: (string, nat))
    requires p in FolderCounts(folders)
    ensures FolderInfo(p.0, p.1) in folders
    decreases |folders|
  {
    var init := folders[..|folders| - 1];
    var f := folders[|folders| - 1];
    if p != (f.name, f.count) {
      FolderCountsFrom(init, p);
      assert FolderInfo(p.0, p.1) in init;
    }
  }

  /** A missing path gives the error record, whatever the listings and
      stats would have said: nothing is scanned. */
  lemma MissingPathNotScanned(nodes: Nodes, sc: Scanner, other: Scanner, path: string)
    requires other.home == sc.home && !Exists(nodes, ScanPath(sc, path))
    ensures Basic(nodes, sc, path) == Basic(nodes, other, path) == Ok(Missing(ExpandUser(sc.home, path)))
  {
  }

  /** A scan of an existing directory: `total_files` counts the recorded file
      entries, `total_folders` the directory entries. */
  lemma ReportTotals(nodes: Nodes, sc: Scanner, path: string)
    requires Basic(nodes, sc, path).Ok? && Basic(nodes, sc, path).value.Stats?
    ensures var s := Basic(nodes, sc, path).value; var entries := sc.scandir(ScanPath(sc, path)).entries;
      s.totalFiles == |Filter(entries, Recorded(nodes, sc))| && s.totalFolders == |Filter(entries, Folder(nodes))|
  {
    var entries := sc.scandir(ScanPath(sc, path)).entries;
    FileRecordsAre(nodes, sc, entries);
    FolderRecordsAre(nodes, sc, entries);
  }

  /** A prefix of an ordered sequence is ordered, and nothing after it has a
      larger key than anything in it. */
  lemma TakeOrdered<T>(s: seq<T>, n: nat, key: T -> nat)
    requires NonIncreasing(s, key)
    ensures NonIncreasing(Take(s, n), key)
    ensures forall i, j :: 0 <= i < |Take(s, n)| <= j < |s| ==> key(s[j]) <= key(Take(s, n)[i])
  {
    var t := Take(s, n);
    assert forall i :: 0 <= i < |t| ==> t[i] == s[i];
  }

  /** Sorting a sequence keeps its length. */
  lemma SortDescLength<T>(s: seq<T>, key: T -> nat)
    ensures |SortDesc(s, key)| == |s|
  {
    assert |multiset(SortDesc(s, key))| == |multiset(s)|;
  }

  /** Within one size, `top_files` holds the first files in scan order. */
  lemma TopFilesStable(files: seq<FileInfo>, k: nat)
    ensures Filter(Take(SortDesc(files, Size), TopCount), HasKey(Size, k)) <= Filter(files, HasKey(Size, k))
  {
    var sorted := SortDesc(files, Size);
    var top := Take(sorted, TopCount);
    SortDescStable(files, Size, k);
    assert top + sorted[|top|..] == sorted;
    FilterAppend(top, sorted[|top|..], HasKey(Size, k));
  }

  /** `top_files`: twenty files or all of them, largest first, equal sizes in
      scan order, and no file left out is larger than one kept. */
  lemma ReportTopFiles(files: seq<FileInfo>)
    ensures var top := Take(SortDesc(files, Size), TopCount);
      |top| == if |files| < TopCount then |files| else TopCount
    ensures var top := Take(SortDesc(files, Size), TopCount);
      NonIncreasing(top, Size) && forall k :: Filter(top, HasKey(Size, k)) <= Filter(files, HasKey(Size, k))
    ensures var sorted := SortDesc(files, Size); var top := Take(sorted, TopCount);
      forall i, j :: 0 <= i < |top| <= j < |sorted| ==> sorted[j].size <= top[i].size
  {
    SortDescLength(files, Size);
    SortDescOrdered(files, Size);
    TakeOrdered(SortDesc(files, Size), TopCount, Size);
    forall k ensures Filter(Take(SortDesc(files, Size), TopCount), HasKey(Size, k)) <= Filter(files, HasKey(Size, k)) {
      TopFilesStable(files, k);
    }
  }

  /** `large_files`: only files above 50 MiB, at most ten, the first ones in
      scan order. */
  lemma ReportLargeFiles(files: seq<FileInfo>)
    ensures var large := Take(Filter(files, IsLarge), LargeCount);
      |large| <= LargeCount && (forall i :: 0 <= i < |large| ==> large[i].size > 52428800)
      && large == Filter(files, IsLarge)[..|large|]
  {
  }

  /** `folders` and the two histograms of the report are ordered by count,
      and truncated to fifteen extensions and ten folders. */
  lemma ReportOrdered(files: seq<FileInfo>, folders: seq<FolderInfo>)
    ensures NonIncreasing(SortDesc(folders, Files), Files)
    ensures multiset(SortDesc(folders, Files)) == multiset(folders)
    ensures var byExtension := Take(SortDesc(Histogram(files), Occurrences), ExtensionCount);
      |byExtension| <= ExtensionCount && NonIncreasing(byExtension, Occurrences)
    ensures var byFolder := Take(SortDesc(FolderCounts(folders), Occurrences), FolderCount);
      |byFolder| <= FolderCount && NonIncreasing(byFolder, Occurrences)
  {
    SortDescOrdered(folders, Files);
    SortDescOrdered(Histogram(files), Occurrences);
    SortDescOrdered(FolderCounts(folders), Occurrences);
  }

  /** Each extension reported carries the number of files with that
      extension. */
  lemma ReportExtensionCounts(files: seq<FileInfo>, i: nat)
    requires i < |Take(SortDesc(Histogram(files), Occurrences), ExtensionCount)|
    ensures var p := Take(SortDesc(Histogram(files), Occurrences), ExtensionCount)[i];
      p.1 == |Filter(files, (f: FileInfo) => f.ext == p.0)|
  {
    var h := Histogram(files);
    var sorted := SortDesc(h, Occurrences);
    var p := sorted[i];
    assert p in multiset(h);
    var j :| 0 <= j < |h| && h[j] == p;
    HistogramCounts(files, p.0);
    PairValue(h, j);
  }

  /** Each folder reported in `by_folder` is a folder of the scan with that
      number of files. */
  lemma ReportFolderCounts(folders: seq<FolderInfo>, i: nat)
    requires i < |Take(SortDesc(FolderCounts(folders), Occurrences), FolderCount)|
    ensures var p := Take(SortDesc(FolderCounts(folders), Occurrences), FolderCount)[i];
      FolderInfo(p.0, p.1) in folders
  {
    var p := SortDesc(FolderCounts(folders), Occurrences)[i];
    assert p in multiset(FolderCounts(folders));
    FolderCountsFrom(folders, p);
  }

  /** The extension key is the lowercased text after the last dot, or
      nothing when only dots come before that dot. */
  lemma ExtOfAt(name: string, k: nat)
    requires k < |name| && name[k] == '.' && forall j :: k < j < |name| ==> name[j] != '.'
    ensures ExtOf(name) == if AllDots(name[..k]) then "" else Lower(name[k + 1..])
  {
    var i := LastIndexOf(name, '.');
    assert i.Some? by {
      assert name[k] in name;
    }
    assert i.value == k;
    if !AllDots(name[..k]) {
      var t := Lower(name[k..]);
      assert t[0] == '.';
      assert forall j :: 1 <= j < |t| ==> t[j] != '.';
      var u := t[1..];
      assert u == [] || u[0] != '.';
      assert LStrip(u, {'.'}) == u;
      assert LStrip(t, {'.'}) == u;
      assert u == Lower(name[k + 1..]);
    }
  }

  /** A name with a stem gets the lowercased text after its last dot
      ("Report.PDF" gives "pdf", "archive.tar.gz" gives "gz"). */
  lemma ExtOfStemmed(stem: string, ext: string)
    requires !AllDots(stem) && '.' !in ext
    ensures ExtOf(stem + "." + ext) == Lower(ext)
  {
    var name := stem + "." + ext;
    assert name[..|stem|] == stem && name[|stem| + 1..] == ext;
    forall j | |stem| < j < |name| ensures name[j] != '.' {
      assert name[j] == ext[j - |stem| - 1];
    }
    ExtOfAt(name, |stem|);
  }

  /** A dotfile such as ".bashrc" has no extension. */
  lemma ExtOfDotfile(rest: string)
    requires '.' !in rest
    ensures ExtOf("." + rest) == ""
  {
    var name := "." + rest;
    forall j | 0 < j < |name| ensures name[j] != '.' {
      assert name[j] == rest[j - 1];
    }
    ExtOfAt(name, 0);
  }
}
