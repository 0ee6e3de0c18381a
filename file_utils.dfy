/** `file_utils`: listing the files of a directory in sorted order, and
    telling text files by their extension. */
module FileUtils {
  import opened Common
  import opened Paths
  import opened FileSystem

  // ---------------------------------------------------------------------
  // The order of `sorted` on paths

  /** Python's `<` on strings: code point by code point, a proper prefix first. */
  predicate StrLess(a: string, b: string)
    decreases |a|
  {
    if b == [] then false
    else if a == [] then true
    else if a[0] != b[0] then a[0] < b[0]
    else StrLess(a[1..], b[1..])
  }

  lemma {:induction false} StrLessIrreflexive(a: string)
    ensures !StrLess(a, a)
    decreases |a|
  {
    if a != [] {
      StrLessIrreflexive(a[1..]);
    }
  }

  lemma {:induction false} StrLessTransitive(a: string, b: string, c: string)
    requires StrLess(a, b) && StrLess(b, c)
    ensures StrLess(a, c)
    decreases |a|
  {
    if a != [] && a[0] == b[0] && b[0] == c[0] {
      StrLessTransitive(a[1..], b[1..], c[1..]);
    }
  }

  lemma {:induction false} StrLessTotal(a: string, b: string)
    requires a != b
    ensures StrLess(a, b) || StrLess(b, a)
    decreases |a|
  {
    if a != [] && b != [] && a[0] == b[0] {
      assert a == [a[0]] + a[1..] && b == [b[0]] + b[1..];
      StrLessTotal(a[1..], b[1..]);
    }
  }

  /** `PurePath.__lt__` on absolute POSIX paths: component lists compared
      lexicographically, each component as a string. */
  predicate PathLess(p: Path, q: Path)
    decreases |p|
  {
    if q == [] then false
    else if p == [] then true
    else if p[0] != q[0] then StrLess(p[0], q[0])
    else PathLess(p[1..], q[1..])
  }

  lemma {:induction false} PathLessIrreflexive(p: Path)
    ensures !PathLess(p, p)
    decreases |p|
  {
    if p != [] {
      PathLessIrreflexive(p[1..]);
    }
  }

  lemma {:induction false} PathLessTransitive(p: Path, q: Path, r: Path)
    requires PathLess(p, q) && PathLess(q, r)
    ensures PathLess(p, r)
    decreases |p|
  {
    if p != [] && q != [] && r != [] {
      if p[0] == q[0] && q[0] == r[0] {
        PathLessTransitive(p[1..], q[1..], r[1..]);
      } else if p[0] != q[0] && q[0] != r[0] {
        StrLessTransitive(p[0], q[0], r[0]);
        if p[0] == r[0] {
          StrLessIrreflexive(p[0]);
        }
      }
    }
  }

  lemma {:induction false} PathLessTotal(p: Path, q: Path)
    requires p != q
    ensures PathLess(p, q) || PathLess(q, p)
    decreases |p|
  {
    if p != [] && q != [] {
      if p[0] == q[0] {
        assert p == [p[0]] + p[1..] && q == [q[0]] + q[1..];
        PathLessTotal(p[1..], q[1..]);
      } else {
        StrLessTotal(p[0], q[0]);
      }
    }
  }

  /** No path is followed by a smaller one. */
  predicate SortedPaths(s: seq<Path>) {
    forall i, j :: 0 <= i < j < |s| ==> !PathLess(s[j], s[i])
  }

  /** `x` placed before the first path greater than it. */
  function InsertPath(x: Path, s: seq<Path>): (r: seq<Path>)
    ensures multiset(r) == multiset(s) + multiset{x}
    decreases |s|
  {
    if s == [] || PathLess(x, s[0]) then [x] + s
    else
      assert s == [s[0]] + s[1..];
      [s[0]] + InsertPath(x, s[1..])
  }

  lemma {:induction false} InsertPathSorted(x: Path, s: seq<Path>)
    requires SortedPaths(s)
    ensures SortedPaths(InsertPath(x, s))
    decreases |s|
  {
    var r := InsertPath(x, s);
    if s == [] {
    } else if PathLess(x, s[0]) {
      forall j | 1 <= j < |r| ensures !PathLess(r[j], r[0]) {
        assert r[j] == s[j - 1];
        if s[j - 1] != s[0] {
          PathLessTotal(s[j - 1], s[0]);
          PathLessTransitive(x, s[0], s[j - 1]);
        }
        if PathLess(s[j - 1], x) {
          PathLessTransitive(s[j - 1], x, s[j - 1]);
          PathLessIrreflexive(s[j - 1]);
        }
      }
    } else {
      var rest := InsertPath(x, s[1..]);
      InsertPathSorted(x, s[1..]);
      assert r == [s[0]] + rest;
      forall j | 0 <= j < |rest| ensures !PathLess(rest[j], s[0]) {
        assert rest[j] in multiset(rest);
        if rest[j] != x {
          assert rest[j] in multiset(s[1..]);
          var k :| 0 <= k < |s[1..]| && s[1..][k] == rest[j];
          assert s[k + 1] == rest[j];
        }
      }
    }
  }

  /** `sorted(paths)`, by insertion. */
  function SortPaths(s: seq<Path>): (r: seq<Path>)
    ensures multiset(r) == multiset(s)
    decreases |s|
  {
    if s == [] then []
    else
      assert s == s[..|s| - 1] + [s[|s| - 1]];
      InsertPath(s[|s| - 1], SortPaths(s[..|s| - 1]))
  }

  lemma {:induction false} SortPathsSorted(s: seq<Path>)
    ensures SortedPaths(SortPaths(s))
    decreases |s|
  {
    if s != [] {
      SortPathsSorted(s[..|s| - 1]);
      InsertPathSorted(s[|s| - 1], SortPaths(s[..|s| - 1]));
    }
  }

  // ---------------------------------------------------------------------
  // list_files

  // The entries `directory.glob` yields, in the order the operating system
  // yields them: every entry below the directory (the recursive pattern)
  // when `recursive`, only those directly in it (pattern "*") otherwise.
  type Glob = (Path, bool) -> seq<Path>

  /** A name starting with a dot; only the file's own name is looked at. */
  predicate Hidden(p: Path) {
    StartsWith(Name(p), ".")
  }

  /** The test of the loop of `list_files`. */
  function Listable(nodes: Nodes, includeHidden: bool): Path -> bool {
    p => IsFile(nodes, p) && (includeHidden || !Hidden(p))
  }

  /** What `list_files` returns. */
  function Listed(nodes: Nodes, glob: Glob, directory: Path, recursive: bool, includeHidden: bool): seq<Path> {
    if !Exists(nodes, directory) then []
    else SortPaths(Filter(glob(directory, recursive), Listable(nodes, includeHidden)))
  }

  /** `list_files`. */
  method ListFiles(nodes: Nodes, glob: Glob, directory: Path, recursive: bool, includeHidden: bool)
    returns (files: seq<Path>)
    ensures files == Listed(nodes, glob, directory, recursive, includeHidden)
  {
    if !Exists(nodes, directory) {
      return [];
    }
    var items := glob(directory, recursive);
    var kept: seq<Path> := [];
    for i := 0 to |items|
      invariant kept == Filter(items[..i], Listable(nodes, includeHidden))
    {
      assert items[..i + 1][..i] == items[..i];
      if IsFile(nodes, items[i]) {
        if !includeHidden && Hidden(items[i]) {
          continue;
        }
        kept := kept + [items[i]];
      }
    }
    assert items[..|items|] == items;
    files := SortPaths(kept);
  }

  /** The listing is sorted. */
  lemma ListedSorted(nodes: Nodes, glob: Glob, directory: Path, recursive: bool, includeHidden: bool)
    ensures SortedPaths(Listed(nodes, glob, directory, recursive, includeHidden))
  {
    if Exists(nodes, directory) {
      SortPathsSorted(Filter(glob(directory, recursive), Listable(nodes, includeHidden)));
    }
  }

  /** A missing directory lists nothing; otherwise a path is listed exactly
      when the glob yields it, it is a regular file, and it is not hidden
      unless hidden files are asked for. Each is listed as often as the
      glob yields it. */
  lemma ListedMembers(nodes: Nodes, glob: Glob, directory: Path, recursive: bool, includeHidden: bool, p: Path)
    ensures !Exists(nodes, directory) ==> Listed(nodes, glob, directory, recursive, includeHidden) == []
    ensures Exists(nodes, directory) ==>
      multiset(Listed(nodes, glob, directory, recursive, includeHidden))[p]
        == if IsFile(nodes, p) && (includeHidden || !Hidden(p)) then multiset(glob(directory, recursive))[p] else 0
  {
    if Exists(nodes, directory) {
      var items := glob(directory, recursive);
      FilterCount(items, Listable(nodes, includeHidden), p);
    }
  }

  /** Files inside a hidden directory are still listed: only the name of the
      file itself is looked at. */
  lemma HiddenDirectoryListed(nodes: Nodes, glob: Glob, directory: Path, p: Path)
    requires Exists(nodes, directory) && IsFile(nodes, p) && p in glob(directory, true)
    requires |p| >= 2 && StartsWith(p[|p| - 2], ".") && !Hidden(p)
    ensures p in Listed(nodes, glob, directory, true, false)
  {
    ListedMembers(nodes, glob, directory, true, false, p);
    assert p in multiset(Listed(nodes, glob, directory, true, false));
  }

  // ---------------------------------------------------------------------
  // is_text_file

  const TextExtensions: set<string> := {
    ".txt", ".md", ".json", ".yaml", ".yml", ".xml", ".csv",
    ".py", ".js", ".ts", ".html", ".css", ".scss", ".less",
    ".sh", ".bash", ".zsh", ".fish",
    ".c", ".cpp", ".h", ".hpp", ".java", ".go", ".rs",
    ".sql", ".graphql", ".proto"}

  /** `is_text_file`: the lowercased suffix of the name is a known text
      extension; a name without suffix is never a text file. */
  function IsTextFile(p: Path): (r: bool)
    ensures r ==> Suffix(Name(p)) != ""
  {
    Lower(Suffix(Name(p))) in TextExtensions
  }

  /** The suffix of a stem, a dot and a dotless extension is that dot and
      extension. */
  lemma SuffixOfJoined(stem: string, ext: string)
    requires stem != "" && ext != "" && '.' !in ext
    ensures Suffix(stem + "." + ext) == "." + ext
  {
    var name := stem + "." + ext;
    forall j | |stem| < j < |name| ensures name[j] != '.' {
      assert name[j] == ext[j - |stem| - 1];
    }
    StemSuffixAt(name, |stem|);
    assert name[|stem|..] == "." + ext;
  }

  /** A name with a stem is a text file exactly when its last suffix,
      lowercased, is a known text extension: "notes.MD" is one,
      "notes.md.gz" is not. */
  lemma TextFileBySuffix(directory: Path, stem: string, ext: string)
    requires stem != "" && ext != "" && '.' !in ext
    ensures IsTextFile(directory + [stem + "." + ext]) <==> Lower("." + ext) in TextExtensions
  {
    assert Name(directory + [stem + "." + ext]) == stem + "." + ext;
    SuffixOfJoined(stem, ext);
  }

  /** A dotfile such as ".sh" has no suffix, so it is never a text file. */
  lemma DotfileNotText(directory: Path, rest: string)
    requires '.' !in rest
    ensures !IsTextFile(directory + ["." + rest])
  {
    var name := "." + rest;
    assert Name(directory + [name]) == name;
    var i := LastIndexOf(name, '.');
    assert i.Some? by {
      assert name[0] in name;
    }
  }
}
