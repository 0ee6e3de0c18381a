/** The world the organizer acts on: a map from path to node, the exceptions
    that filesystem calls raise, the outcomes of the external programs it
    runs, and the POSIX primitives (mkdir, rename, shutil.move, copy2, unlink)
    stated on that map. */
module FileSystem {
  import opened Common
  import opened Paths

  type Bytes = seq<bv8>

  /** A node of the filesystem. `data` is None when reading the file raises;
      `tags` is the Finder tag list kept in the file's extended attribute and
      `labelIndex` the Finder label colour (0 = none). */
  datatype Node =
    | File(size: nat, mtime: int, data: Option<Bytes>, tags: seq<string>, labelIndex: nat)
    | Dir(size: nat, mtime: int, tags: seq<string>, labelIndex: nat)

  type Nodes = map<Path, Node>

  /** The root always exists as a directory, whatever the map says about it. */
  const RootNode: Node := Dir(0, 0, [], 0)

  /** A directory created by mkdir; its size and time are not observed. */
  const NewDir: Node := Dir(0, 0, [], 0)

  function Lookup(nodes: Nodes, p: Path): Option<Node> {
    if p == [] then Some(RootNode) else if p in nodes then Some(nodes[p]) else None
  }

  /** `path.exists()`. */
  predicate Exists(nodes: Nodes, p: Path) {
    Lookup(nodes, p).Some?
  }

  /** `path.is_file()`. */
  predicate IsFile(nodes: Nodes, p: Path) {
    Lookup(nodes, p).Some? && Lookup(nodes, p).value.File?
  }

  /** `is_file` as a test to filter paths with. */
  function IsFileIn(nodes: Nodes): Path -> bool {
    p => IsFile(nodes, p)
  }

  /** `path.is_dir()`. */
  predicate IsDir(nodes: Nodes, p: Path) {
    Lookup(nodes, p).Some? && Lookup(nodes, p).value.Dir?
  }

  /** The exceptions of the organizer, by kind and the path they name. */
  datatype Error =
    | FileNotFound(path: Path)
    | FileExists(path: Path)
    | NotADirectory(path: Path)
    | IsADirectory(path: Path)
    | SameFile(path: Path)
    | DestinationExists(path: Path)
    | ReadFailed(path: Path)
    | DirectorySource(path: Path)
    | ListingFailed(path: Path)
    | TypeError(reason: string)
    | AttributeError(reason: string)
    | PatternError(reason: string)
    | ProcessRaised(tool: Tool)

  datatype Result<T> = Ok(value: T) | Err(error: Error)

  /** The external programs the organizer starts. */
  datatype Tool =
    | XattrWrite    // xattr -w com.apple.metadata:_kMDItemUserTags
    | XattrRead     // xattr -p com.apple.metadata:_kMDItemUserTags
    | XattrDelete   // xattr -d com.apple.metadata:_kMDItemUserTags
    | LabelScript   // osascript setting the Finder label index
    | TrashScript   // osascript asking Finder to delete the file

  /** What `subprocess.run` does: the program exits with a code, or starting
      it raises. */
  datatype ProcOutcome = Exit(code: int) | Raised

  /** The platform and the behaviour of the external programs on each path. */
  datatype Env = Env(isMacOS: bool, run: (Tool, Path) -> ProcOutcome)

  /** Every node of `before` is still in `after`, unchanged. */
  ghost predicate Keeps(before: Nodes, after: Nodes) {
    forall k :: k in before ==> k in after && after[k] == before[k]
  }

  /** `r` is `nodes` with the key `p` (and nothing else) set or removed. */
  ghost predicate OnlyChanges(nodes: Nodes, r: Nodes, p: Path) {
    forall k :: k != p ==> (k in r <==> k in nodes) && (k in r ==> r[k] == nodes[k])
  }

  /** Some proper ancestor of `d` exists and is not a directory. */
  predicate Blocked(nodes: Nodes, d: Path) {
    exists i :: 0 <= i < |d| && Exists(nodes, d[..i]) && !IsDir(nodes, d[..i])
  }

  /** `d` and its missing ancestors added as new directories. */
  function AddDirs(nodes: Nodes, d: Path): (r: Nodes)
    requires !Blocked(nodes, d)
    ensures Keeps(nodes, r)
    ensures forall k :: k in r && k !in nodes ==> k <= d && r[k] == NewDir
    ensures !Exists(nodes, d) ==> IsDir(r, d)
    decreases |d|
  {
    if d == [] || Exists(nodes, d) then nodes
    else
      assert !Blocked(nodes, Parent(d)) by {
        forall i | 0 <= i < |Parent(d)| ensures !(Exists(nodes, Parent(d)[..i]) && !IsDir(nodes, Parent(d)[..i])) {
          assert Parent(d)[..i] == d[..i];
        }
      }
      AddDirs(nodes, Parent(d))[d := NewDir]
  }

  /** `Path(d).mkdir(parents=True, exist_ok=True)`: an existing directory is
      accepted, an existing non-directory at `d` or above it raises, and
      otherwise `d` and its missing ancestors are created. */
  function MkdirParents(nodes: Nodes, d: Path): (r: Result<Nodes>)
    ensures r.Ok? <==> IsDir(nodes, d) || (!Exists(nodes, d) && !Blocked(nodes, d))
    ensures r.Ok? ==> IsDir(r.value, d) && Keeps(nodes, r.value)
    ensures r.Ok? ==> forall k :: k in r.value && k !in nodes ==> k <= d && r.value[k] == NewDir
  {
    if IsDir(nodes, d) then Ok(nodes)
    else if Exists(nodes, d) then Err(FileExists(d))
    else if Blocked(nodes, d) then Err(NotADirectory(d))
    else Ok(AddDirs(nodes, d))
  }

  /** mkdir only creates ancestors of `d`, so it leaves every longer path alone. */
  lemma MkdirParentsLonger(nodes: Nodes, d: Path, p: Path)
    requires MkdirParents(nodes, d).Ok? && |p| > |d|
    ensures Lookup(MkdirParents(nodes, d).value, p) == Lookup(nodes, p)
  {
  }

  /** `os.rename(src, dst)` for a regular file: the node moves to `dst`,
      replacing a file already there. Renaming a directory is not modelled. */
  function OsRename(nodes: Nodes, src: Path, dst: Path): (r: Result<Nodes>)
    ensures r.Ok? ==> IsFile(nodes, src) && src in nodes
    ensures r.Ok? && src != dst ==> r.value == (nodes - {src})[dst := nodes[src]] && dst != []
    ensures r.Ok? && src == dst ==> r.value == nodes
    ensures !Exists(nodes, src) ==> r == Err(FileNotFound(src))
  {
    match Lookup(nodes, src)
    case None => Err(FileNotFound(src))
    case Some(n) =>
      if n.Dir? then Err(DirectorySource(src))
      else if src == dst then Ok(nodes)
      else if !IsDir(nodes, Parent(dst)) then
        (if Exists(nodes, Parent(dst)) then Err(NotADirectory(dst)) else Err(FileNotFound(dst)))
      else if IsDir(nodes, dst) then Err(IsADirectory(dst))
      else Ok((nodes - {src})[dst := n])
  }

  /** `shutil.move(src, dst)` on one filesystem: into `dst` when it is a
      directory (refusing an existing entry of the same name), otherwise an
      `os.rename` that replaces an existing file. */
  function ShutilMove(nodes: Nodes, src: Path, dst: Path): (r: Result<Nodes>)
    ensures r.Ok? ==> IsFile(nodes, src)
  {
    if IsDir(nodes, dst) then
      var inner := Join(dst, Name(src));
      if Exists(nodes, inner) then Err(DestinationExists(inner)) else OsRename(nodes, src, inner)
    else OsRename(nodes, src, dst)
  }

  /** A move takes a file, so every directory stays where it was. */
  lemma ShutilMoveKeepsDirs(nodes: Nodes, src: Path, dst: Path, d: Path)
    requires ShutilMove(nodes, src, dst).Ok? && IsDir(nodes, d)
    ensures IsDir(ShutilMove(nodes, src, dst).value, d)
  {
  }

  /** `shutil.copy2(src, dst)`: contents and modification time are copied to
      `dst` (or into it when it is a directory); Finder tags are not. */
  function Copy2(nodes: Nodes, src: Path, dst: Path): (r: Result<Nodes>)
    ensures r.Ok? ==> IsFile(nodes, src) && src in nodes
    ensures r.Ok? ==> CopyTarget(nodes, src, dst) != src && r.value == nodes[CopyTarget(nodes, src, dst) := Copied(nodes[src])]
  {
    var target := CopyTarget(nodes, src, dst);
    match Lookup(nodes, src)
    case None => Err(FileNotFound(src))
    case Some(n) =>
      if target == src then Err(SameFile(src))
      else if n.Dir? then Err(IsADirectory(src))
      else if n.data.None? then Err(ReadFailed(src))
      else if !IsDir(nodes, Parent(target)) then Err(FileNotFound(target))
      else if IsDir(nodes, target) then Err(IsADirectory(target))
      else Ok(nodes[target := Copied(n)])
  }

  /** Where `shutil.copy2(src, dst)` writes: inside `dst` when it is a directory. */
  function CopyTarget(nodes: Nodes, src: Path, dst: Path): Path {
    if IsDir(nodes, dst) then Join(dst, Name(src)) else dst
  }

  /** The node `shutil.copy2` writes for a copied file. */
  function Copied(n: Node): (c: Node)
    requires n.File?
    ensures c.File? && c.size == n.size && c.mtime == n.mtime && c.data == n.data && c.tags == []
  {
    File(n.size, n.mtime, n.data, [], 0)
  }

  /** `path.unlink()`. */
  function Unlink(nodes: Nodes, p: Path): (r: Result<Nodes>)
    ensures r.Ok? <==> IsFile(nodes, p)
    ensures r.Ok? ==> r.value == nodes - {p}
  {
    match Lookup(nodes, p)
    case None => Err(FileNotFound(p))
    case Some(n) => if n.Dir? then Err(IsADirectory(p)) else Ok(nodes - {p})
  }

  /** The filesystem as one mutable object, the way the organizer's actions
      see it. */
  class Disk {
    var nodes: Nodes

    constructor (nodes: Nodes)
      ensures this.nodes == nodes
    {
      this.nodes := nodes;
    }
  }
}
