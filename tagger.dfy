/** `Tagger`: Finder tags on macOS. Tags are written to an extended
    attribute with `xattr`; when that program exits with a nonzero code the
    Finder label colour is set with AppleScript instead. The attribute is the
    node's `tags` field and the label colour its `labelIndex`. */
module Tagger {
  import opened Common
  import opened Paths
  import opened FileSystem

  /** The palette and the Finder label index of each colour (0 = no label).
      The tag written for a colour is its lower-case name. */
  const ColorIndex: map<string, nat> :=
    map["gray" := 1, "red" := 2, "orange" := 3, "yellow" := 4, "green" := 5, "blue" := 6, "purple" := 7]

  predicate IsColor(t: string) {
    Lower(t) in ColorIndex
  }

  /** A colour argument that yields a tag: non-empty and in the palette. */
  predicate PaletteColor(color: Option<string>) {
    Truthy(color) && IsColor(color.value)
  }

  lemma ColorIndexRange(name: string)
    requires name in ColorIndex
    ensures 1 <= ColorIndex[name] <= 7
  {
  }

  /** The tag list `add_tag` builds: the lower-cased colour when it is in the
      palette, then the label when it is non-empty. */
  function Tags(color: Option<string>, tagLabel: Option<string>): (tags: seq<string>)
    ensures |tags| == (if PaletteColor(color) then 1 else 0) + (if Truthy(tagLabel) then 1 else 0)
    ensures PaletteColor(color) ==> tags[0] == Lower(color.value) && IsColor(tags[0])
    ensures Truthy(tagLabel) ==> tags[|tags| - 1] == tagLabel.value
  {
    if PaletteColor(color) then
      LowerIdempotent(color.value);
      [Lower(color.value)] + (if Truthy(tagLabel) then [tagLabel.value] else [])
    else if Truthy(tagLabel) then [tagLabel.value]
    else []
  }

  /** The label index of the first tag, in list order, that names a colour;
      0 when none does. */
  function FirstColorIndex(tags: seq<string>): (index: nat)
    ensures index <= 7
    ensures index == 0 <==> forall i :: 0 <= i < |tags| ==> !IsColor(tags[i])
    decreases |tags|
  {
    if tags == [] then 0
    else if IsColor(tags[0]) then
      ColorIndexRange(Lower(tags[0]));
      ColorIndex[Lower(tags[0])]
    else
      assert forall i :: 1 <= i < |tags| ==> tags[i] == tags[1..][i - 1];
      FirstColorIndex(tags[1..])
  }

  /** The index comes from the first colour tag and ignores the ones after it. */
  lemma {:induction false} FirstColorWins(tags: seq<string>, i: nat)
    requires i < |tags| && IsColor(tags[i])
    requires forall j :: 0 <= j < i ==> !IsColor(tags[j])
    ensures FirstColorIndex(tags) == ColorIndex[Lower(tags[i])]
    decreases i
  {
    if i > 0 {
      assert !IsColor(tags[0]);
      FirstColorWins(tags[1..], i - 1);
    }
  }

  /** `_add_tag_osascript`'s search for the colour index. */
  method LabelIndex(tags: seq<string>) returns (index: nat)
    ensures index == FirstColorIndex(tags)
  {
    index := 0;
    for i := 0 to |tags|
      invariant index == 0
      invariant FirstColorIndex(tags[i..]) == FirstColorIndex(tags)
    {
      assert tags[i..][0] == tags[i] && tags[i..][1..] == tags[i + 1..];
      if IsColor(tags[i]) {
        index := ColorIndex[Lower(tags[i])];
        break;
      }
    }
  }

  /** What `Tagger.add_tag` returns and the filesystem it leaves. */
  function AddTagOutcome(nodes: Nodes, env: Env, p: Path, color: Option<string>, tagLabel: Option<string>): (outcome: (bool, Nodes))
    ensures !outcome.0 ==> outcome.1 == nodes
  {
    var tags := Tags(color, tagLabel);
    if !env.isMacOS || !Exists(nodes, p) || tags == [] then (false, nodes)
    else match env.run(XattrWrite, p)
      case Raised => (false, nodes)
      case Exit(code) =>
        if code == 0 then (true, nodes[p := Lookup(nodes, p).value.(tags := tags)])
        else match env.run(LabelScript, p)
          case Raised => (false, nodes)
          case Exit(status) =>
            if status == 0 then (true, nodes[p := Lookup(nodes, p).value.(labelIndex := FirstColorIndex(tags))])
            else (true, nodes)
  }

  /** `Tagger.add_tag`. */
  method AddTag(disk: Disk, env: Env, p: Path, color: Option<string>, tagLabel: Option<string>) returns (ok: bool)
    modifies disk
    ensures (ok, disk.nodes) == AddTagOutcome(old(disk.nodes), env, p, color, tagLabel)
  {
    if !env.isMacOS || !Exists(disk.nodes, p) {
      return false;
    }
    var tags: seq<string> := [];
    if PaletteColor(color) {
      tags := tags + [Lower(color.value)];
    }
    if Truthy(tagLabel) {
      tags := tags + [tagLabel.value];
    }
    assert tags == Tags(color, tagLabel);
    if tags == [] {
      return false;
    }
    var written := env.run(XattrWrite, p);
    if written.Raised? {
      return false;
    }
    if written.code != 0 {
      var index := LabelIndex(tags);
      var labelled := env.run(LabelScript, p);
      if labelled.Raised? {
        return false;
      }
      if labelled.code == 0 {
        disk.nodes := disk.nodes[p := Lookup(disk.nodes, p).value.(labelIndex := index)];
      }
      return true;
    }
    disk.nodes := disk.nodes[p := Lookup(disk.nodes, p).value.(tags := tags)];
    return true;
  }

  /** What `Tagger.remove_tag` returns and the filesystem it leaves. The
      label argument is not used: every tag is cleared. */
  function RemoveTagOutcome(nodes: Nodes, env: Env, p: Path, tagLabel: Option<string>): (outcome: (bool, Nodes))
    ensures !outcome.0 ==> outcome.1 == nodes
    ensures outcome.0 <==> env.isMacOS && Exists(nodes, p) && env.run(XattrDelete, p).Exit?
  {
    if !env.isMacOS || !Exists(nodes, p) then (false, nodes)
    else match env.run(XattrDelete, p)
      case Raised => (false, nodes)
      case Exit(code) => (true, if code == 0 then nodes[p := Lookup(nodes, p).value.(tags := [])] else nodes)
  }

  /** `Tagger.remove_tag`. */
  method RemoveTag(disk: Disk, env: Env, p: Path, tagLabel: Option<string>) returns (ok: bool)
    modifies disk
    ensures (ok, disk.nodes) == RemoveTagOutcome(old(disk.nodes), env, p, tagLabel)
  {
    if !env.isMacOS || !Exists(disk.nodes, p) {
      return false;
    }
    var deleted := env.run(XattrDelete, p);
    if deleted.Raised? {
      return false;
    }
    if deleted.code == 0 {
      disk.nodes := disk.nodes[p := Lookup(disk.nodes, p).value.(tags := [])];
    }
    return true;
  }

  /** `Tagger.get_tags`: the stored tags when `xattr -p` succeeds, otherwise
      the empty list. */
  function GetTags(nodes: Nodes, env: Env, p: Path): (tags: seq<string>)
    ensures !env.isMacOS || !Exists(nodes, p) || env.run(XattrRead, p) != Exit(0) ==> tags == []
    ensures tags != [] ==> tags == Lookup(nodes, p).value.tags
    ensures env.isMacOS && Exists(nodes, p) && env.run(XattrRead, p) == Exit(0) ==> tags == Lookup(nodes, p).value.tags
  {
    if !env.isMacOS || !Exists(nodes, p) then []
    else match env.run(XattrRead, p)
      case Exit(0) => Lookup(nodes, p).value.tags
      case _ => []
  }

  // ---------------------------------------------------------------------
  // Properties

  /** Off macOS, for a missing file, or with nothing to write, `add_tag`
      returns False and changes nothing. */
  lemma AddTagRefuses(nodes: Nodes, env: Env, p: Path, color: Option<string>, tagLabel: Option<string>)
    requires !env.isMacOS || !Exists(nodes, p) || Tags(color, tagLabel) == []
    ensures AddTagOutcome(nodes, env, p, color, tagLabel) == (false, nodes)
  {
  }

  /** Once `xattr` runs without raising, `add_tag` is True whatever its code,
      unless the fallback script itself raises. */
  lemma AddTagTrueOnceRun(nodes: Nodes, env: Env, p: Path, color: Option<string>, tagLabel: Option<string>)
    requires env.isMacOS && Exists(nodes, p) && Tags(color, tagLabel) != []
    ensures AddTagOutcome(nodes, env, p, color, tagLabel).0
            <==> (env.run(XattrWrite, p) == Exit(0)
                  || (env.run(XattrWrite, p).Exit? && env.run(LabelScript, p).Exit?))
  {
  }

  /** Tagging only touches the tagged path. */
  lemma AddTagTouchesOnlyPath(nodes: Nodes, env: Env, p: Path, color: Option<string>, tagLabel: Option<string>)
    ensures var after := AddTagOutcome(nodes, env, p, color, tagLabel).1;
      forall k :: k != p ==> (k in after <==> k in nodes) && (k in after ==> after[k] == nodes[k])
  {
  }

  /** Tags written by `add_tag` are what `get_tags` reads back; the previous
      tags are replaced, not extended. */
  lemma AddThenGetTags(nodes: Nodes, env: Env, p: Path, color: Option<string>, tagLabel: Option<string>)
    requires env.isMacOS && Exists(nodes, p) && p != [] && Tags(color, tagLabel) != []
    requires env.run(XattrWrite, p) == Exit(0) && env.run(XattrRead, p) == Exit(0)
    ensures var (ok, after) := AddTagOutcome(nodes, env, p, color, tagLabel);
      ok && GetTags(after, env, p) == Tags(color, tagLabel)
  {
  }

  /** After a successful `remove_tag`, `get_tags` reads nothing. */
  lemma RemoveThenGetTags(nodes: Nodes, env: Env, p: Path, tagLabel: Option<string>)
    requires env.isMacOS && Exists(nodes, p) && p != []
    requires env.run(XattrDelete, p) == Exit(0)
    ensures var (ok, after) := RemoveTagOutcome(nodes, env, p, tagLabel);
      ok && GetTags(after, env, p) == []
  {
  }

  /** When `xattr` fails and the script succeeds, a palette colour sets its
      label index. */
  lemma FallbackUsesColor(nodes: Nodes, env: Env, p: Path, color: string, tagLabel: Option<string>)
    requires env.isMacOS && Exists(nodes, p) && p != [] && color != [] && IsColor(color)
    requires env.run(XattrWrite, p).Exit? && env.run(XattrWrite, p).code != 0 && env.run(LabelScript, p) == Exit(0)
    ensures var (ok, after) := AddTagOutcome(nodes, env, p, Some(color), tagLabel);
      ok && Lookup(after, p).value.labelIndex == ColorIndex[Lower(color)]
  {
    var tags := Tags(Some(color), tagLabel);
    LowerIdempotent(color);
    FirstColorWins(tags, 0);
  }

  /** A label that spells a colour sets that colour in the fallback when no
      colour is given: the search looks at every tag, not only the colour. */
  lemma FallbackLabelAsColor(nodes: Nodes, env: Env, p: Path, tagLabel: string)
    requires env.isMacOS && Exists(nodes, p) && p != [] && tagLabel != [] && IsColor(tagLabel)
    requires env.run(XattrWrite, p).Exit? && env.run(XattrWrite, p).code != 0 && env.run(LabelScript, p) == Exit(0)
    ensures var (ok, after) := AddTagOutcome(nodes, env, p, None, Some(tagLabel));
      ok && Lookup(after, p).value.labelIndex == ColorIndex[Lower(tagLabel)]
  {
    FirstColorWins(Tags(None, Some(tagLabel)), 0);
  }

  /** Without any colour tag the fallback sets label index 0, clearing the
      label colour. */
  lemma FallbackWithoutColor(nodes: Nodes, env: Env, p: Path, tagLabel: string)
    requires env.isMacOS && Exists(nodes, p) && p != [] && tagLabel != [] && !IsColor(tagLabel)
    requires env.run(XattrWrite, p).Exit? && env.run(XattrWrite, p).code != 0 && env.run(LabelScript, p) == Exit(0)
    ensures var (ok, after) := AddTagOutcome(nodes, env, p, None, Some(tagLabel));
      ok && Lookup(after, p).value.labelIndex == 0
  {
  }
}
