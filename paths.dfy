/** Paths as pathlib sees them on a POSIX system: an absolute path is the
    list of its components, and the root "/" is the empty list. */
module Paths {
  import opened Common

  type Path = seq<string>

  /** A component pathlib would keep when it parses a string. */
  predicate IsComponent(c: string) {
    c != "" && c != "."
  }

  predicate WellFormed(p: Path) {
    forall i :: 0 <= i < |p| ==> IsComponent(p[i]) && '/' !in p[i]
  }

  /** "/c1/c2/..." without the special case of the root. */
  function Render(p: Path): string
    decreases |p|
  {
    if p == [] then "" else "/" + p[0] + Render(p[1..])
  }

  /** `str(path)`. */
  function PathString(p: Path): (s: string)
    ensures |s| > 0 && s[0] == '/'
  {
    if p == [] then "/" else Render(p)
  }

  /** `path.name`: the last component, or "" for the root. */
  function Name(p: Path): string {
    if p == [] then "" else p[|p| - 1]
  }

  /** `path.parent`: the root is its own parent. */
  function Parent(p: Path): (q: Path)
    ensures q <= p
    ensures p != [] ==> |q| == |p| - 1
  {
    if p == [] then [] else p[..|p| - 1]
  }

  /** `directory / name` for a name without '/': pathlib ignores an empty name. */
  function Join(directory: Path, name: string): (p: Path)
    ensures name != "" ==> Parent(p) == directory && Name(p) == name
    ensures name == "" ==> p == directory
  {
    if name == "" then directory else directory + [name]
  }

  lemma ParentJoinName(p: Path)
    requires p != [] && Name(p) != ""
    ensures Join(Parent(p), Name(p)) == p
  {
  }

  /** `s.rfind(c)`. */
  function LastIndexOf(s: string, c: char): (r: Option<nat>)
    ensures r.Some? ==> r.value < |s| && s[r.value] == c && forall j :: r.value < j < |s| ==> s[j] != c
    ensures r.None? ==> c !in s
    decreases |s|
  {
    if s == [] then None
    else if s[|s| - 1] == c then Some(|s| - 1)
    else LastIndexOf(s[..|s| - 1], c)
  }

  /** `PurePath.suffix` of a final component: from the last dot, provided that
      dot is neither the first nor the last character. */
  function Suffix(name: string): (r: string)
    ensures r == "" || (|r| >= 2 && r[0] == '.' && '.' !in r[1..] && EndsWith(name, r) && |r| < |name|)
  {
    var i := LastIndexOf(name, '.');
    if i.Some? && 0 < i.value < |name| - 1 then name[i.value..] else ""
  }

  /** `PurePath.stem`: the final component without its suffix. */
  function Stem(name: string): (r: string)
    ensures r + Suffix(name) == name
  {
    var i := LastIndexOf(name, '.');
    if i.Some? && 0 < i.value < |name| - 1 then name[..i.value] else name
  }

  /** A name whose last dot sits strictly inside it splits there. */
  lemma StemSuffixAt(name: string, k: nat)
    requires 0 < k < |name| - 1 && name[k] == '.'
    requires forall j :: k < j < |name| ==> name[j] != '.'
    ensures Stem(name) == name[..k] && Suffix(name) == name[k..]
  {
    var i := LastIndexOf(name, '.');
    assert i.Some?;
    assert i.value == k;
  }

  /** `os.path.expanduser` for "~" and "~/...": the home directory with its
      trailing slashes removed replaces the tilde. */
  function ExpandUser(home: string, s: string): (r: string)
    ensures !StartsWith(s, "~") ==> r == s
    ensures (s == "~" || StartsWith(s, "~/")) ==> EndsWith(r, s[1..]) && (r == "/" || StartsWith(r, RStrip(home, {'/'})))
  {
    if s == "~" || StartsWith(s, "~/") then
      var joined := RStrip(home, {'/'}) + s[1..];
      if joined == "" then "/" else joined
    else s
  }

  /** `s.split('/')`. */
  function SplitSlash(s: string): (r: seq<string>)
    ensures |r| >= 1
    decreases |s|
  {
    if s == [] then [""]
    else
      var rest := SplitSlash(s[1..]);
      if s[0] == '/' then [""] + rest else [[s[0]] + rest[0]] + rest[1..]
  }

  /** `Path(s)`: the components of `s`, without empty and "." parts. */
  function ParsePath(s: string): (p: Path)
    ensures forall i :: 0 <= i < |p| ==> IsComponent(p[i])
  {
    Filter(SplitSlash(s), IsComponent)
  }

  lemma {:induction false} SplitSlashPrefix(c: string, rest: string)
    requires '/' !in c
    ensures SplitSlash(c + rest) == [c + SplitSlash(rest)[0]] + SplitSlash(rest)[1..]
    decreases |c|
  {
    if c == [] {
      var parts := SplitSlash(rest);
      assert c + rest == rest;
      assert c + parts[0] == parts[0];
      assert parts == [parts[0]] + parts[1..];
    } else {
      assert (c + rest)[1..] == c[1..] + rest;
      SplitSlashPrefix(c[1..], rest);
      assert [c[0]] + (c[1..] + SplitSlash(rest)[0]) == c + SplitSlash(rest)[0];
    }
  }

  lemma {:induction false} SplitSlashRender(p: Path)
    requires WellFormed(p)
    ensures SplitSlash(Render(p)) == [""] + p
    decreases |p|
  {
    if p != [] {
      var tail := Render(p[1..]);
      assert Render(p) == "/" + (p[0] + tail);
      assert ("/" + (p[0] + tail))[1..] == p[0] + tail;
      SplitSlashRender(p[1..]);
      SplitSlashPrefix(p[0], tail);
      assert p[0] + "" == p[0];
      assert [p[0]] + p[1..] == p;
    }
  }

  /** Parsing the string form of a well-formed path gives the path back. */
  lemma ParsePathString(p: Path)
    requires WellFormed(p)
    ensures ParsePath(PathString(p)) == p
  {
    if p == [] {
      assert SplitSlash("/") == ["", ""];
    } else {
      SplitSlashRender(p);
      FilterAppend([""], p, IsComponent);
      FilterKeepsAll(p, IsComponent);
      assert Filter([""], IsComponent) == [];
    }
  }

  /** `directory / s` for an arbitrary string: an absolute `s` replaces the
      directory, and `s` is split at '/' like any path string. */
  function JoinString(directory: Path, s: string): (p: Path)
    ensures !StartsWith(s, "/") ==> p == directory + ParsePath(s)
  {
    if StartsWith(s, "/") then ParsePath(s) else directory + ParsePath(s)
  }

  /** Joining a plain component appends it. */
  lemma JoinStringComponent(directory: Path, name: string)
    requires IsComponent(name) && '/' !in name
    ensures JoinString(directory, name) == directory + [name]
  {
    SplitSlashPrefix(name, "");
    assert name + "" == name;
    assert SplitSlash(name) == [name];
    assert Filter([name], IsComponent) == Filter([], IsComponent) + [name];
  }
}
