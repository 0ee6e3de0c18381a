/** `Mover`: moving and copying one file to a destination directory or path.
    The final path is `destination/source.name` when the destination is an
    existing directory; the parent of the final path is created first; an
    existing file at the final path is replaced by a move and overwritten by
    a copy, since neither operation checks for it. */
module Mover {
  import opened Common
  import opened Paths
  import opened FileSystem

  /** The final path of a move or copy. */
  function Target(nodes: Nodes, source: Path, destination: Path): (t: Path)
    ensures IsDir(nodes, destination) && Name(source) != "" ==> Parent(t) == destination && Name(t) == Name(source)
    ensures !IsDir(nodes, destination) ==> t == destination
  {
    if IsDir(nodes, destination) then Join(destination, Name(source)) else destination
  }

  /** What `Mover.move` returns or raises, and the filesystem it leaves. */
  function MoveOutcome(nodes: Nodes, source: Path, destination: Path): (out: (Result<Path>, Nodes))
    ensures !Exists(nodes, source) ==> out == (Err(FileNotFound(source)), nodes)
    ensures out.0.Ok? ==> out.0.value == Target(nodes, source, destination)
  {
    if !Exists(nodes, source) then (Err(FileNotFound(source)), nodes)
    else
      var target := Target(nodes, source, destination);
      match MkdirParents(nodes, Parent(target))
      case Err(e) => (Err(e), nodes)
      case Ok(made) =>
        match ShutilMove(made, source, target)
        case Err(e) => (Err(e), made)
        case Ok(moved) => (Ok(target), moved)
  }

  /** What `Mover.copy` returns or raises, and the filesystem it leaves. */
  function CopyOutcome(nodes: Nodes, source: Path, destination: Path): (out: (Result<Path>, Nodes))
    ensures !Exists(nodes, source) ==> out == (Err(FileNotFound(source)), nodes)
    ensures out.0.Ok? ==> out.0.value == Target(nodes, source, destination)
  {
    if !Exists(nodes, source) then (Err(FileNotFound(source)), nodes)
    else
      var target := Target(nodes, source, destination);
      match MkdirParents(nodes, Parent(target))
      case Err(e) => (Err(e), nodes)
      case Ok(made) =>
        match Copy2(made, source, target)
        case Err(e) => (Err(e), made)
        case Ok(copied) => (Ok(target), copied)
  }

  /** `Mover.move`. */
  method Move(disk: Disk, source: Path, destination: Path) returns (r: Result<Path>)
    modifies disk
    ensures (r, disk.nodes) == MoveOutcome(old(disk.nodes), source, destination)
  {
    if !Exists(disk.nodes, source) {
      return Err(FileNotFound(source));
    }
    var target := destination;
    if IsDir(disk.nodes, destination) {
      target := Join(destination, Name(source));
    }
    var made := MkdirParents(disk.nodes, Parent(target));
    if made.Err? {
      return Err(made.error);
    }
    disk.nodes := made.value;
    var moved := ShutilMove(disk.nodes, source, target);
    if moved.Err? {
      return Err(moved.error);
    }
    disk.nodes := moved.value;
    return Ok(target);
  }

  /** `Mover.copy`. */
  method Copy(disk: Disk, source: Path, destination: Path) returns (r: Result<Path>)
    modifies disk
    ensures (r, disk.nodes) == CopyOutcome(old(disk.nodes), source, destination)
  {
    if !Exists(disk.nodes, source) {
      return Err(FileNotFound(source));
    }
    var target := destination;
    if IsDir(disk.nodes, destination) {
      target := Join(destination, Name(source));
    }
    var made := MkdirParents(disk.nodes, Parent(target));
    if made.Err? {
      return Err(made.error);
    }
    disk.nodes := made.value;
    var copied := Copy2(disk.nodes, source, target);
    if copied.Err? {
      return Err(copied.error);
    }
    disk.nodes := copied.value;
    return Ok(target);
  }

  /** A missing source raises FileNotFoundError and changes nothing. */
  lemma MissingSource(nodes: Nodes, source: Path, destination: Path)
    requires !Exists(nodes, source)
    ensures MoveOutcome(nodes, source, destination) == (Err(FileNotFound(source)), nodes)
    ensures CopyOutcome(nodes, source, destination) == (Err(FileNotFound(source)), nodes)
  {
  }

  /** After a successful move the file is at the returned path (unless that
      path is itself a directory, which `shutil.move` moves the file into)
      and no longer at the source; every other existing node is untouched. */
  lemma MoveRelocates(nodes: Nodes, source: Path, destination: Path)
    ensures var (r, after) := MoveOutcome(nodes, source, destination);
      r.Ok? && !IsDir(nodes, r.value) ==>
        source in nodes && IsFile(after, r.value) && r.value in after && after[r.value] == nodes[source]
        && (r.value != source ==> !Exists(after, source))
        && (forall k :: k in nodes && k != source && k != r.value ==> k in after && after[k] == nodes[k])
  {
    var (r, after) := MoveOutcome(nodes, source, destination);
    if r.Ok? && !IsDir(nodes, r.value) {
      var target := Target(nodes, source, destination);
      var made := MkdirParents(nodes, Parent(target)).value;
      MkdirParentsLonger(nodes, Parent(target), target);
      assert after == OsRename(made, source, target).value;
    }
  }

  /** After a successful copy the file is at both paths with the same
      contents, size and modification time. */
  lemma CopyDuplicates(nodes: Nodes, source: Path, destination: Path)
    ensures var (r, after) := CopyOutcome(nodes, source, destination);
      r.Ok? && !IsDir(nodes, r.value) ==>
        source in nodes && r.value != source
        && IsFile(after, source) && after[source] == nodes[source]
        && IsFile(after, r.value) && r.value in after && after[r.value].data == nodes[source].data
        && after[r.value].size == nodes[source].size && after[r.value].mtime == nodes[source].mtime
  {
    var (r, after) := CopyOutcome(nodes, source, destination);
    if r.Ok? && !IsDir(nodes, r.value) {
      var target := Target(nodes, source, destination);
      var made := MkdirParents(nodes, Parent(target)).value;
      MkdirParentsLonger(nodes, Parent(target), target);
      assert CopyTarget(made, source, target) == target;
    }
  }

  /** The parent of the final path exists as a directory after a successful
      move that changed the path. */
  lemma MoveParentCreated(nodes: Nodes, source: Path, destination: Path)
    ensures var (r, after) := MoveOutcome(nodes, source, destination);
      r.Ok? && r.value != source ==> IsDir(after, Parent(r.value))
  {
    var (r, after) := MoveOutcome(nodes, source, destination);
    if r.Ok? && r.value != source {
      var target := Target(nodes, source, destination);
      var made := MkdirParents(nodes, Parent(target)).value;
      assert IsDir(made, Parent(target));
      ShutilMoveKeepsDirs(made, source, target, Parent(target));
    }
  }

  /** The parent of the final path exists as a directory after a successful
      copy. */
  lemma CopyParentCreated(nodes: Nodes, source: Path, destination: Path)
    ensures var (r, after) := CopyOutcome(nodes, source, destination);
      r.Ok? ==> IsDir(after, Parent(r.value))
  {
    var (r, after) := CopyOutcome(nodes, source, destination);
    if r.Ok? {
      var target := Target(nodes, source, destination);
      var made := MkdirParents(nodes, Parent(target)).value;
      assert IsDir(made, Parent(target));
      assert after == Copy2(made, source, target).value;
    }
  }

  /** No existence check is made: moving onto an existing file replaces it. */
  lemma MoveReplacesExistingFile(nodes: Nodes, source: Path, destination: Path)
    requires IsFile(nodes, source) && IsFile(nodes, destination) && source != destination
    requires IsDir(nodes, Parent(destination))
    ensures MoveOutcome(nodes, source, destination) == (Ok(destination), (nodes - {source})[destination := nodes[source]])
  {
  }
}
