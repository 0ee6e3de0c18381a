/** `Renamer`: the rewriting of a file's stem (numbered copies removed,
    prefix and suffix added, separators collapsed and trimmed) and the rename
    it leads to, plus `clean_garbled`. The fixed regular expressions of the
    source are written out as matchers on strings. */
module Renamer {
  import opened Common
  import opened Paths
  import opened FileSystem

  /** The regular expressions the renamer substitutes. */
  datatype Pattern =
    | DigitGroup           // （(\d+)）|\((\d+)\)
    | SpacedParens         // \s*\(\d+\)\s*
    | SpacedBrackets       // \s*\[\d+\]\s*
    | Repeated(sep: string) // re.escape(sep)+
    | Spaces               // \s+

  /** The length of the longest prefix of `s` whose characters all satisfy `p`. */
  function Run(s: string, p: char -> bool): (n: nat)
    ensures n <= |s|
    ensures forall i :: 0 <= i < n ==> p(s[i])
    ensures n < |s| ==> !p(s[n])
    decreases |s|
  {
    if s != [] && p(s[0]) then 1 + Run(s[1..], p) else 0
  }

  /** `open \d+ close` at the start of `s`. */
  function Enclosed(s: string, open: char, close: char): (r: Option<nat>)
    ensures r.Some? ==> 3 <= r.value <= |s| && s[0] == open && s[r.value - 1] == close
    ensures r.Some? ==> AllDigits(s[1..r.value - 1])
  {
    if s != [] && s[0] == open then
      var d := Run(s[1..], IsDigit);
      if d > 0 && 1 + d < |s| && s[1 + d] == close then Some(d + 2) else None
    else None
  }

  /** `\s* open \d+ close \s*` at the start of `s`. */
  function SpacedEnclosed(s: string, open: char, close: char): (r: Option<nat>)
    ensures r.Some? ==> 0 < r.value <= |s|
  {
    var w := Run(s, IsSpace);
    match Enclosed(s[w..], open, close)
    case None => None
    case Some(k) => Some(w + k + Run(s[w + k..], IsSpace))
  }

  /** The length of the match of `pat` at the start of `s`; every pattern
      here matches at least one character. */
  function MatchAt(pat: Pattern, s: string): (r: Option<nat>)
    ensures r.Some? ==> 0 < r.value <= |s|
  {
    match pat
    case DigitGroup =>
      if Enclosed(s, '\U{FF08}', '\U{FF09}').Some? then Enclosed(s, '\U{FF08}', '\U{FF09}')
      else Enclosed(s, '(', ')')
    case SpacedParens => SpacedEnclosed(s, '(', ')')
    case SpacedBrackets => SpacedEnclosed(s, '[', ']')
    case Repeated(sep) =>
      if sep != "" && StartsWith(s, sep) then
        Some(|sep| + Run(s[|sep|..], c => c == sep[|sep| - 1]))
      else None
    case Spaces =>
      var w := Run(s, IsSpace);
      if w > 0 then Some(w) else None
  }

  /** `re.sub(pat, repl, s)` with a replacement taken literally: the leftmost
      match is replaced and the scan resumes after it. */
  function Sub(pat: Pattern, repl: string, s: string): string
    decreases |s|
  {
    if s == [] then []
    else match MatchAt(pat, s)
      case Some(k) => repl + Sub(pat, repl, s[k..])
      case None => [s[0]] + Sub(pat, repl, s[1..])
  }

  /** The characters of `s`, as `str.strip(s)` reads its argument. */
  function CharSet(s: string): (r: set<char>)
    ensures forall i :: 0 <= i < |s| ==> s[i] in r
    decreases |s|
  {
    if s == [] then {} else {s[0]} + CharSet(s[1..])
  }

  /** With a truthy `replace`, the numbered-copy markers replaced in turn. */
  function Replaced(stem: string, replace: Option<string>): string {
    if Truthy(replace) then
      Sub(SpacedBrackets, replace.value, Sub(SpacedParens, replace.value, Sub(DigitGroup, replace.value, stem)))
    else stem
  }

  /** Prefix and suffix joined to the stem with the separator, when truthy. */
  function Joined(stem: string, prefix: Option<string>, suffix: Option<string>, sep: string): string {
    var prefixed := if Truthy(prefix) then prefix.value + sep + stem else stem;
    if Truthy(suffix) then prefixed + sep + suffix.value else prefixed
  }

  /** Runs of the separator collapsed, then its characters trimmed from both ends. */
  function Tidy(sep: string, s: string): string {
    StripChars(Sub(Repeated(sep), sep, s), CharSet(sep))
  }

  /** The derived stem. A missing separator raises TypeError and an empty
      one is an invalid pattern. */
  function NewStem(stem: string, replace: Option<string>, prefix: Option<string>, suffix: Option<string>,
                   separator: Option<string>): (r: Result<string>)
    ensures r.Ok? <==> separator.Some? && separator.value != ""
    ensures r.Ok? ==> r.value == Tidy(separator.value, Joined(Replaced(stem, replace), prefix, suffix, separator.value))
    ensures r.Ok? && |separator.value| == 1 ==>
      var c, out := separator.value[0], r.value;
      NoDoubled(out, c) && (out == [] || (out[0] != c && out[|out| - 1] != c))
    ensures r.Ok? && |separator.value| == 1 ==>
      var c, base := separator.value[0], Replaced(stem, replace);
      base != [] && c !in base && Apart(prefix, c) && Apart(suffix, c) ==>
        r.value == Joined(base, prefix, suffix, separator.value)
  {
    match separator
    case None => Err(TypeError("re.escape() argument must be str"))
    case Some(sep) =>
      if sep == "" then Err(PatternError("nothing to repeat"))
      else
        TidyFacts(Replaced(stem, replace), prefix, suffix, sep);
        Ok(Tidy(sep, Joined(Replaced(stem, replace), prefix, suffix, sep)))
  }

  /** The new final component: the derived stem followed by the old suffix. */
  function NewName(name: string, replace: Option<string>, prefix: Option<string>, suffix: Option<string>,
                   separator: Option<string>): (r: Result<string>)
    ensures r.Ok? <==> NewStem(Stem(name), replace, prefix, suffix, separator).Ok?
    ensures r.Ok? ==> r.value == NewStem(Stem(name), replace, prefix, suffix, separator).value + Suffix(name)
    ensures r.Ok? ==> EndsWith(r.value, Suffix(name))
  {
    match NewStem(Stem(name), replace, prefix, suffix, separator)
    case Err(e) => Err(e)
    case Ok(stem) => Ok(stem + Suffix(name))
  }

  /** Read back, a new name with a non-empty stem splits into that stem and
      the old extension: renaming never changes the type of a file that has
      one. */
  lemma NewNameKeepsExtension(name: string, replace: Option<string>, prefix: Option<string>,
                              suffix: Option<string>, separator: Option<string>)
    requires NewStem(Stem(name), replace, prefix, suffix, separator).Ok?
    requires NewStem(Stem(name), replace, prefix, suffix, separator).value != "" && Suffix(name) != ""
    ensures var r := NewName(name, replace, prefix, suffix, separator);
      r.Ok? && Stem(r.value) == NewStem(Stem(name), replace, prefix, suffix, separator).value
      && Suffix(r.value) == Suffix(name)
  {
    var stem := NewStem(Stem(name), replace, prefix, suffix, separator).value;
    var ext := Suffix(name);
    var full := stem + ext;
    forall j | |stem| < j < |full|
      ensures full[j] != '.'
    {
      assert full[j] == ext[1..][j - |stem| - 1];
    }
    StemSuffixAt(full, |stem|);
    assert full[..|stem|] == stem && full[|stem|..] == ext;
  }

  /** What `Renamer.rename` returns or raises, and the filesystem it leaves:
      the rename happens only when the new path differs. */
  function RenameOutcome(nodes: Nodes, p: Path, replace: Option<string>, prefix: Option<string>,
                         suffix: Option<string>, separator: Option<string>): (Result<Path>, Nodes)
  {
    if !Exists(nodes, p) then (Err(FileNotFound(p)), nodes)
    else match NewName(Name(p), replace, prefix, suffix, separator)
      case Err(e) => (Err(e), nodes)
      case Ok(name) => Relocate(nodes, p, JoinString(Parent(p), name))
  }

  /** The last step of both renames: nothing to do when the path is
      unchanged, otherwise `rename` to the new path. */
  function Relocate(nodes: Nodes, p: Path, target: Path): (Result<Path>, Nodes) {
    if target == p then (Ok(p), nodes)
    else match OsRename(nodes, p, target)
      case Err(e) => (Err(e), nodes)
      case Ok(renamed) => (Ok(target), renamed)
  }

  /** `Renamer.rename`. */
  method Rename(disk: Disk, p: Path, replace: Option<string>, prefix: Option<string>, suffix: Option<string>,
                separator: Option<string>) returns (r: Result<Path>)
    modifies disk
    ensures (r, disk.nodes) == RenameOutcome(old(disk.nodes), p, replace, prefix, suffix, separator)
  {
    if !Exists(disk.nodes, p) {
      return Err(FileNotFound(p));
    }
    var name := NewName(Name(p), replace, prefix, suffix, separator);
    if name.Err? {
      return Err(name.error);
    }
    var target := JoinString(Parent(p), name.value);
    if target != p {
      var renamed := OsRename(disk.nodes, p, target);
      if renamed.Err? {
        return Err(renamed.error);
      }
      disk.nodes := renamed.value;
    }
    return Ok(target);
  }

  /** Characters `clean_garbled` deletes: C0 and C1 controls, ™, © and ®. */
  predicate Garbled(c: char) {
    c <= '\U{1F}' || ('\U{7F}' <= c <= '\U{9F}') || c == '\U{2122}' || c == '\U{A9}' || c == '\U{AE}'
  }

  predicate Clean(c: char) {
    !Garbled(c)
  }

  /** The stem `clean_garbled` derives. */
  function CleanStem(stem: string): string {
    Strip(Sub(Spaces, " ", Filter(stem, Clean)))
  }

  /** What `Renamer.clean_garbled` returns or raises, and the filesystem it leaves. */
  function CleanOutcome(nodes: Nodes, p: Path): (Result<Path>, Nodes) {
    if !Exists(nodes, p) then (Err(FileNotFound(p)), nodes)
    else
      Relocate(nodes, p, JoinString(Parent(p), CleanStem(Stem(Name(p))) + Suffix(Name(p))))
  }

  /** `Renamer.clean_garbled`. */
  method CleanGarbled(disk: Disk, p: Path) returns (r: Result<Path>)
    modifies disk
    ensures (r, disk.nodes) == CleanOutcome(old(disk.nodes), p)
  {
    if !Exists(disk.nodes, p) {
      return Err(FileNotFound(p));
    }
    var name := Name(p);
    var target := JoinString(Parent(p), CleanStem(Stem(name)) + Suffix(name));
    if target != p {
      var renamed := OsRename(disk.nodes, p, target);
      if renamed.Err? {
        return Err(renamed.error);
      }
      disk.nodes := renamed.value;
    }
    return Ok(target);
  }

  // ---------------------------------------------------------------------
  // Properties

  /** A missing file raises FileNotFoundError and nothing changes. */
  lemma RenameMissing(nodes: Nodes, p: Path, replace: Option<string>, prefix: Option<string>,
                      suffix: Option<string>, separator: Option<string>)
    requires !Exists(nodes, p)
    ensures RenameOutcome(nodes, p, replace, prefix, suffix, separator) == (Err(FileNotFound(p)), nodes)
    ensures CleanOutcome(nodes, p) == (Err(FileNotFound(p)), nodes)
  {
  }

  /** The filesystem changes exactly when the move to a new path succeeds;
      the returned path is where the file then is. */
  lemma RelocateTouchesOnlyOnChange(nodes: Nodes, p: Path, target: Path)
    requires Exists(nodes, p)
    ensures var (r, after) := Relocate(nodes, p, target);
      (r.Ok? ==> r.value == target)
      && (r.Err? || r.value == p ==> after == nodes)
      && (r.Ok? && r.value != p ==>
            after != nodes && IsFile(after, target) && after[target] == nodes[p] && !Exists(after, p))
  {
    if target != p && OsRename(nodes, p, target).Ok? {
      var after := OsRename(nodes, p, target).value;
      assert after == (nodes - {p})[target := nodes[p]];
      assert p in nodes && p !in after;
    }
  }

  /** The filesystem changes exactly when a rename succeeds with a new path;
      the returned path is where the file then is. */
  lemma RenameTouchesOnlyOnChange(nodes: Nodes, p: Path, replace: Option<string>, prefix: Option<string>,
                                  suffix: Option<string>, separator: Option<string>)
    ensures var (r, after) := RenameOutcome(nodes, p, replace, prefix, suffix, separator);
      var name := NewName(Name(p), replace, prefix, suffix, separator);
      (r.Ok? ==> name.Ok? && r.value == JoinString(Parent(p), name.value))
      && (r.Err? || r.value == p ==> after == nodes)
      && (r.Ok? && r.value != p ==>
            after != nodes && IsFile(after, r.value) && after[r.value] == nodes[p] && !Exists(after, p))
  {
    if Exists(nodes, p) {
      var name := NewName(Name(p), replace, prefix, suffix, separator);
      if name.Ok? {
        RelocateTouchesOnlyOnChange(nodes, p, JoinString(Parent(p), name.value));
      }
    }
  }

  /** The same holds for `clean_garbled`, whose target is the cleaned stem
      followed by the old suffix. */
  lemma CleanTouchesOnlyOnChange(nodes: Nodes, p: Path)
    ensures var (r, after) := CleanOutcome(nodes, p);
      (r.Ok? ==> r.value == JoinString(Parent(p), CleanStem(Stem(Name(p))) + Suffix(Name(p))))
      && (r.Err? || r.value == p ==> after == nodes)
      && (r.Ok? && r.value != p ==>
            after != nodes && IsFile(after, r.value) && after[r.value] == nodes[p] && !Exists(after, p))
  {
    if Exists(nodes, p) {
      RelocateTouchesOnlyOnChange(nodes, p, JoinString(Parent(p), CleanStem(Stem(Name(p))) + Suffix(Name(p))));
    }
  }

  /** `s` has no two consecutive `c`. */
  predicate NoDoubled(s: string, c: char) {
    forall i :: 0 <= i < |s| - 1 ==> !(s[i] == c && s[i + 1] == c)
  }

  /** Collapsing a one-character separator keeps the first character when it
      is not the separator. */
  lemma CollapseHead(s: string, c: char)
    requires s != [] && s[0] != c
    ensures Sub(Repeated([c]), [c], s) == [s[0]] + Sub(Repeated([c]), [c], s[1..])
  {
  }

  /** After collapsing, no two separators are adjacent. */
  lemma {:induction false} CollapseNoDoubled(s: string, c: char)
    ensures NoDoubled(Sub(Repeated([c]), [c], s), c)
    decreases |s|
  {
    var pat := Repeated([c]);
    if s != [] {
      match MatchAt(pat, s)
      case Some(k) =>
        var rest := s[k..];
        CollapseNoDoubled(rest, c);
        if rest != [] {
          CollapseHead(rest, c);
        }
      case None =>
        CollapseNoDoubled(s[1..], c);
    }
  }

  /** A stretch without the separator passes through collapsing unchanged. */
  lemma {:induction false} CollapseAcross(a: string, b: string, c: char)
    requires c !in a
    ensures Sub(Repeated([c]), [c], a + b) == a + Sub(Repeated([c]), [c], b)
    decreases |a|
  {
    if a == [] {
      assert a + b == b;
    } else {
      assert a[0] in a;
      CollapseHead(a + b, c);
      assert (a + b)[1..] == a[1..] + b;
      assert c !in a[1..] by {
        forall i | 0 <= i < |a| - 1 ensures a[1..][i] != c {
          assert a[1..][i] == a[i + 1];
        }
      }
      CollapseAcross(a[1..], b, c);
      calc {
        Sub(Repeated([c]), [c], a + b);
        [a[0]] + Sub(Repeated([c]), [c], a[1..] + b);
        [a[0]] + (a[1..] + Sub(Repeated([c]), [c], b));
        { assert a == [a[0]] + a[1..]; }
        a + Sub(Repeated([c]), [c], b);
      }
    }
  }

  /** A run of separators becomes one separator. */
  lemma CollapseRun(k: nat, b: string, c: char)
    requires k > 0 && (b == [] || b[0] != c)
    ensures Sub(Repeated([c]), [c], seq(k, _ => c) + b) == [c] + Sub(Repeated([c]), [c], b)
  {
    var s := seq(k, _ => c) + b;
    assert StartsWith(s, [c]);
    var n := Run(s[1..], x => x == c);
    assert s[1..] == seq(k - 1, _ => c) + b;
    assert forall i :: 0 <= i < k - 1 ==> s[1..][i] == c;
    if b != [] {
      assert s[1..][k - 1] == b[0];
    }
    assert n == k - 1;
    assert s[1 + n..] == b;
  }

  lemma CollapseNone(s: string, c: char)
    requires c !in s
    ensures Sub(Repeated([c]), [c], s) == s
  {
    CollapseAcross(s, [], c);
    assert s + [] == s;
  }

  /** Trimming `c` leaves a string alone whose ends are not `c`. */
  lemma TrimKeeps(s: string, c: char)
    requires s != [] && s[0] != c && s[|s| - 1] != c
    ensures StripChars(s, {c}) == s
  {
  }

  lemma CharSetSingle(c: char)
    ensures CharSet([c]) == {c}
  {
    assert [c][1..] == [];
  }

  /** Trimming keeps "no doubled separator" and clears both ends. */
  lemma TrimNoDoubled(s: string, c: char)
    requires NoDoubled(s, c)
    ensures var out := StripChars(s, {c});
      NoDoubled(out, c) && (out == [] || (out[0] != c && out[|out| - 1] != c))
  {
    StripSlice(s, {c});
    var k := |s| - |LStrip(s, {c})|;
    NoDoubledSlice(s, c, k, |StripChars(s, {c})|);
    TrimEnds(s, c);
  }

  /** A stretch of a string without doubled separators has none either. */
  lemma NoDoubledSlice(s: string, c: char, k: nat, n: nat)
    requires NoDoubled(s, c) && k + n <= |s|
    ensures NoDoubled(s[k..k + n], c)
  {
    var out := s[k..k + n];
    forall i | 0 <= i < n - 1
      ensures !(out[i] == c && out[i + 1] == c)
    {
      assert out[i] == s[k + i] && out[i + 1] == s[k + i + 1];
    }
  }

  /** Trimming leaves the separator at neither end. */
  lemma TrimEnds(s: string, c: char)
    ensures var out := StripChars(s, {c});
      out == [] || (out[0] != c && out[|out| - 1] != c)
  {
    var left := LStrip(s, {c});
    var out := RStrip(left, {c});
    if out != [] {
      assert out[0] == left[0];
    }
  }

  /** With a one-character separator, tidying leaves no doubled separator
      and none at either end. */
  lemma TidyOneChar(s: string, c: char)
    ensures var out := Tidy([c], s);
      NoDoubled(out, c) && (out == [] || (out[0] != c && out[|out| - 1] != c))
  {
    var collapsed := Sub(Repeated([c]), [c], s);
    CollapseNoDoubled(s, c);
    TrimNoDoubled(collapsed, c);
    CharSetSingle(c);
  }

  /** An optional prefix or suffix that is not truthy or does not contain `c`. */
  predicate Apart(affix: Option<string>, c: char) {
    !Truthy(affix) || c !in affix.value
  }

  lemma NoDoubledAppend(a: string, b: string, c: char)
    requires NoDoubled(a, c) && NoDoubled(b, c)
    requires a == [] || b == [] || a[|a| - 1] != c || b[0] != c
    ensures NoDoubled(a + b, c)
  {
    var s := a + b;
    forall i | 0 <= i < |s| - 1 ensures !(s[i] == c && s[i + 1] == c) {
      if i + 1 < |a| {
        assert s[i] == a[i] && s[i + 1] == a[i + 1];
      } else if i >= |a| {
        assert s[i] == b[i - |a|] && s[i + 1] == b[i + 1 - |a|];
      }
    }
  }

  /** Collapsing leaves alone a string with no doubled separator. */
  lemma {:induction false} CollapseIdle(s: string, c: char)
    requires NoDoubled(s, c)
    ensures Sub(Repeated([c]), [c], s) == s
    decreases |s|
  {
    if s != [] {
      assert NoDoubled(s[1..], c) by {
        forall i | 0 <= i < |s| - 2 ensures !(s[1..][i] == c && s[1..][i + 1] == c) {
          assert s[1..][i] == s[i + 1] && s[1..][i + 1] == s[i + 2];
        }
      }
      CollapseIdle(s[1..], c);
      if s[0] == c {
        assert StartsWith(s, [c]);
        assert |s| > 1 ==> s[1..][0] != c;
        assert s[1..] == s[1 + 0..];
      } else {
        CollapseHead(s, c);
      }
      assert s == [s[0]] + s[1..];
    }
  }

  /** Words free of the separator, joined by it, have no doubled separator
      and none at either end. */
  lemma JoinedApart(stem: string, prefix: Option<string>, suffix: Option<string>, c: char)
    requires stem != [] && c !in stem && Apart(prefix, c) && Apart(suffix, c)
    ensures var j := Joined(stem, prefix, suffix, [c]);
      j != [] && NoDoubled(j, c) && j[0] != c && j[|j| - 1] != c
  {
    assert stem[0] in stem && stem[|stem| - 1] in stem;
    var prefixed := if Truthy(prefix) then prefix.value + [c] + stem else stem;
    if Truthy(prefix) {
      var p := prefix.value;
      assert p[0] in p && p[|p| - 1] in p;
      NoDoubledAppend(p, [c], c);
      NoDoubledAppend(p + [c], stem, c);
      assert prefixed[0] == p[0];
    }
    assert NoDoubled(prefixed, c) && prefixed[0] != c && prefixed[|prefixed| - 1] != c;
    if Truthy(suffix) {
      var q := suffix.value;
      assert q[0] in q && q[|q| - 1] in q;
      NoDoubledAppend(prefixed, [c], c);
      NoDoubledAppend(prefixed + [c], q, c);
    }
  }

  /** What tidying a joined stem guarantees with a one-character separator. */
  lemma TidyFacts(base: string, prefix: Option<string>, suffix: Option<string>, sep: string)
    requires sep != ""
    ensures |sep| == 1 ==>
      var c, out := sep[0], Tidy(sep, Joined(base, prefix, suffix, sep));
      NoDoubled(out, c) && (out == [] || (out[0] != c && out[|out| - 1] != c))
    ensures |sep| == 1 ==>
      var c := sep[0];
      base != [] && c !in base && Apart(prefix, c) && Apart(suffix, c) ==>
        Tidy(sep, Joined(base, prefix, suffix, sep)) == Joined(base, prefix, suffix, sep)
  {
    if |sep| == 1 {
      var c := sep[0];
      assert sep == [c];
      var j := Joined(base, prefix, suffix, sep);
      TidyOneChar(j, c);
      if base != [] && c !in base && Apart(prefix, c) && Apart(suffix, c) {
        JoinedApart(base, prefix, suffix, c);
        CollapseIdle(j, c);
        CharSetSingle(c);
        TrimKeeps(j, c);
      }
    }
  }

  /** With a one-character separator the derived stem has no doubled
      separator and none at either end. */
  lemma OneCharSeparator(stem: string, replace: Option<string>, prefix: Option<string>, suffix: Option<string>,
                         c: char)
    ensures var r := NewStem(stem, replace, prefix, suffix, Some([c]));
      r.Ok? && NoDoubled(r.value, c) && (r.value == [] || (r.value[0] != c && r.value[|r.value| - 1] != c))
  {
    TidyOneChar(Joined(Replaced(stem, replace), prefix, suffix, [c]), c);
  }

  /** Two separator-free words joined by a run of separators come out of
      tidying joined by exactly one. */
  lemma TidyJoinedWords(left: string, k: nat, right: string, c: char)
    requires left != [] && right != [] && c !in left && c !in right && k > 0
    ensures Tidy([c], left + seq(k, _ => c) + right) == left + [c] + right
  {
    var joined := left + [c] + right;
    assert left + seq(k, _ => c) + right == left + (seq(k, _ => c) + right);
    CollapseAcross(left, seq(k, _ => c) + right, c);
    CollapseRun(k, right, c);
    CollapseNone(right, c);
    assert Sub(Repeated([c]), [c], left + seq(k, _ => c) + right) == joined;
    CharSetSingle(c);
    assert joined[0] == left[0] && joined[|joined| - 1] == right[|right| - 1];
    TrimKeeps(joined, c);
  }

  /** A prefix is joined to the stem by one separator. */
  lemma PrefixJoins(stem: string, prefix: string, c: char)
    requires stem != [] && prefix != [] && c !in stem && c !in prefix
    ensures NewStem(stem, None, Some(prefix), None, Some([c])) == Ok(prefix + [c] + stem)
  {
    assert Joined(Replaced(stem, None), Some(prefix), None, [c]) == prefix + [c] + stem;
  }

  /** A suffix is joined to the stem by one separator. */
  lemma SuffixJoins(stem: string, suffix: string, c: char)
    requires stem != [] && suffix != [] && c !in stem && c !in suffix
    ensures NewStem(stem, None, None, Some(suffix), Some([c])) == Ok(stem + [c] + suffix)
  {
    assert Joined(Replaced(stem, None), None, Some(suffix), [c]) == stem + [c] + suffix;
  }

  /** A numbered copy "name(2)" renamed with a replacement, a one-character
      separator and no prefix or suffix becomes the name followed by the
      replacement. */
  lemma NumberedCopyRenamed(w: string, d: string, r: string, c: char)
    requires Plain(w) && Plain(r) && r != [] && d != [] && AllDigits(d) && c !in w && c !in r
    ensures NewStem(w + "(" + d + ")", Some(r), None, None, Some([c])) == Ok(w + r)
  {
    ReplacedParens(w, d, r);
    assert c !in w + r;
    assert Joined(w + r, None, None, [c]) == w + r;
  }

  /** A prefix is joined to a whole file name, suffix included, by one separator. */
  lemma PrefixName(name: string, k: nat, prefix: string, c: char)
    requires 0 < k < |name| - 1 && name[k] == '.' && forall j :: k < j < |name| ==> name[j] != '.'
    requires prefix != [] && c !in prefix && c !in name[..k]
    ensures NewName(name, None, Some(prefix), None, Some([c])) == Ok(prefix + [c] + name)
  {
    StemSuffixAt(name, k);
    var stem := name[..k];
    PrefixStemName(name, stem, prefix, c);
    assert prefix + [c] + stem + name[k..] == prefix + [c] + name by {
      assert name == stem + name[k..];
    }
  }

  /** With a prefix, the new name is prefix, separator, stem and old suffix. */
  lemma PrefixStemName(name: string, stem: string, prefix: string, c: char)
    requires Stem(name) == stem && stem != [] && prefix != [] && c !in stem && c !in prefix
    ensures NewName(name, None, Some(prefix), None, Some([c])) == Ok(prefix + [c] + stem + Suffix(name))
  {
    PrefixJoins(stem, prefix, c);
  }

  /** "vacation.png" with prefix "IMG" and separator "-" becomes "IMG-vacation.png". */
  lemma PrefixExample(name: string, prefix: string)
    requires name == "vacation.png" && prefix == "IMG"
    ensures NewName(name, None, Some(prefix), None, Some("-")) == Ok(prefix + "-" + name)
  {
    assert |name| == 12 && name[8] == '.' && name[9] == 'p' && name[10] == 'n' && name[11] == 'g';
    assert '-' !in name[..8] && '-' !in prefix;
    PrefixName(name, 8, prefix, '-');
  }

  lemma DoubledStem(stem: string)
    requires stem == "my--file"
    ensures Tidy("-", stem) == stem[..2] + "-" + stem[4..]
  {
    var left, right := stem[..2], stem[4..];
    assert '-' !in left && '-' !in right;
    assert stem == left + seq(2, _ => '-') + right;
    TidyJoinedWords(left, 2, right, '-');
  }

  /** Doubled separators collapse even with no options: "my--file.txt"
      becomes "my-file.txt". */
  lemma CollapseExample(name: string)
    requires name == "my--file.txt"
    ensures NewName(name, None, None, None, Some("-")) == Ok(name[..2] + name[3..])
  {
    assert |name| == 12 && name[8] == '.' && name[9] == 't' && name[10] == 'x' && name[11] == 't';
    StemSuffixAt(name, 8);
    var stem := name[..8];
    assert Joined(Replaced(stem, None), None, None, "-") == stem;
    DoubledStem(stem);
    DropThird(name);
  }

  lemma DropThird(name: string)
    requires |name| >= 8 && name[3] == '-'
    ensures name[..8][..2] + "-" + name[..8][4..] + name[8..] == name[..2] + name[3..]
  {
    assert name[3..] == "-" + name[4..];
    assert name[..8][4..] + name[8..] == name[4..];
  }

  // ---------------------------------------------------------------------
  // Numbered-copy markers

  /** No character of `s` can open a numbered-copy marker. */
  predicate Plain(s: string) {
    '(' !in s && '\U{FF08}' !in s && '[' !in s
  }

  /** The patterns that remove numbered-copy markers. */
  predicate Marker(pat: Pattern) {
    pat.DigitGroup? || pat.SpacedParens? || pat.SpacedBrackets?
  }

  /** The characters a match of a marker pattern starts with, once any
      leading whitespace is passed. */
  function Openers(pat: Pattern): set<char> {
    match pat
    case DigitGroup => {'(', '\U{FF08}'}
    case SpacedParens => {'('}
    case SpacedBrackets => {'['}
    case _ => {}
  }

  /** No character of `s` opens a match of `pat`. */
  predicate Shut(pat: Pattern, s: string) {
    forall i :: 0 <= i < |s| ==> s[i] !in Openers(pat)
  }

  lemma PlainShut(pat: Pattern, s: string)
    requires Plain(s)
    ensures Shut(pat, s)
  {
    forall i | 0 <= i < |s| ensures s[i] !in Openers(pat) {
      assert s[i] in s;
    }
  }

  /** A run of `p` characters followed by one that is not `p` is counted exactly. */
  lemma {:induction false} RunPrefix(d: string, rest: string, p: char -> bool)
    requires forall i :: 0 <= i < |d| ==> p(d[i])
    requires rest == [] || !p(rest[0])
    ensures Run(d + rest, p) == |d|
    decreases |d|
  {
    if d == [] {
      assert d + rest == rest;
    } else {
      assert (d + rest)[1..] == d[1..] + rest;
      assert forall i :: 0 <= i < |d| - 1 ==> d[1..][i] == d[i + 1];
      RunPrefix(d[1..], rest, p);
    }
  }

  /** An opener, a non-empty run of digits and a closer that is not a digit
      are matched together, whatever follows. */
  lemma EnclosedDigits(open: char, d: string, close: char, t: string)
    requires d != [] && AllDigits(d) && !IsDigit(close)
    ensures Enclosed([open] + d + [close] + t, open, close) == Some(|d| + 2)
  {
    var s := [open] + d + [close] + t;
    assert s[1..] == d + ([close] + t);
    RunPrefix(d, [close] + t, IsDigit);
    assert s[1 + |d|] == close;
  }

  /** A marker pattern matches nowhere without one of its openers. */
  lemma ShutUnmatched(pat: Pattern, s: string)
    requires Marker(pat) && Shut(pat, s)
    ensures MatchAt(pat, s).None?
  {
    if !pat.DigitGroup? {
      var w := Run(s, IsSpace);
      if w < |s| {
        assert s[w..][0] == s[w];
      }
    }
  }

  /** Substituting a marker pattern leaves alone a string without its openers. */
  lemma {:induction false} SubShut(pat: Pattern, repl: string, s: string)
    requires Marker(pat) && Shut(pat, s)
    ensures Sub(pat, repl, s) == s
    decreases |s|
  {
    if s != [] {
      ShutUnmatched(pat, s);
      assert Shut(pat, s[1..]) by {
        forall i | 0 <= i < |s| - 1 ensures s[1..][i] !in Openers(pat) {
          assert s[1..][i] == s[i + 1];
        }
      }
      SubShut(pat, repl, s[1..]);
      assert s == [s[0]] + s[1..];
    }
  }

  /** Characters at which no match starts are copied and the scan moves on. */
  lemma {:induction false} SubSkip(pat: Pattern, repl: string, w: string, t: string)
    requires forall i :: 0 <= i < |w| ==> MatchAt(pat, w[i..] + t).None?
    ensures Sub(pat, repl, w + t) == w + Sub(pat, repl, t)
    decreases |w|
  {
    if w == [] {
      assert w + t == t;
    } else {
      NoMatchRest(pat, w, t);
      SubSkip(pat, repl, w[1..], t);
      SubNoMatch(pat, repl, w, t);
    }
  }

  /** No match starting in `w` means none at its start and none in its rest. */
  lemma NoMatchRest(pat: Pattern, w: string, t: string)
    requires w != [] && forall i :: 0 <= i < |w| ==> MatchAt(pat, w[i..] + t).None?
    ensures MatchAt(pat, w + t).None?
    ensures forall i :: 0 <= i < |w| - 1 ==> MatchAt(pat, w[1..][i..] + t).None?
  {
    assert w[0..] == w;
    forall i | 0 <= i < |w| - 1 ensures MatchAt(pat, w[1..][i..] + t).None? {
      assert w[1..][i..] == w[i + 1..];
    }
  }

  /** Where no match starts, `re.sub` copies one character and moves on. */
  lemma SubNoMatch(pat: Pattern, repl: string, w: string, t: string)
    requires w != [] && MatchAt(pat, w + t).None?
    requires Sub(pat, repl, w[1..] + t) == w[1..] + Sub(pat, repl, t)
    ensures Sub(pat, repl, w + t) == w + Sub(pat, repl, t)
  {
    SubCopies(pat, repl, w, t);
    ConsAppend(w, Sub(pat, repl, t));
  }

  /** One step of `re.sub` where no match starts. */
  lemma SubCopies(pat: Pattern, repl: string, w: string, t: string)
    requires w != [] && MatchAt(pat, w + t).None?
    ensures Sub(pat, repl, w + t) == [w[0]] + Sub(pat, repl, w[1..] + t)
  {
    assert (w + t)[1..] == w[1..] + t;
  }

  /** Splitting off the first character of a concatenation. */
  lemma ConsAppend(w: string, y: string)
    requires w != []
    ensures [w[0]] + (w[1..] + y) == w + y
  {
    assert w == [w[0]] + w[1..];
  }

  /** A spaced marker cannot start inside a stretch without its openers
      that ends in a non-whitespace character. */
  lemma SpacedUnmatched(pat: Pattern, u: string, t: string)
    requires (pat.SpacedParens? || pat.SpacedBrackets?) && Shut(pat, u)
    requires u != [] && !IsSpace(u[|u| - 1])
    ensures MatchAt(pat, u + t).None?
  {
    var x := u + t;
    var w := Run(x, IsSpace);
    assert x[|u| - 1] == u[|u| - 1];
    assert w < |u|;
    assert x[w..][0] == u[w];
  }

  /** A stretch without openers passes through a marker substitution
      unchanged; for the spaced markers it must not end in whitespace, which
      the marker would take along. */
  lemma MarkerSkip(pat: Pattern, repl: string, w: string, t: string)
    requires Marker(pat) && Shut(pat, w)
    requires pat.DigitGroup? || w == [] || !IsSpace(w[|w| - 1])
    ensures Sub(pat, repl, w + t) == w + Sub(pat, repl, t)
  {
    forall i | 0 <= i < |w| ensures MatchAt(pat, w[i..] + t).None? {
      var u := w[i..];
      assert Shut(pat, u) by {
        forall j | 0 <= j < |u| ensures u[j] !in Openers(pat) {
          assert u[j] == w[i + j];
        }
      }
      if pat.DigitGroup? {
        assert (u + t)[0] == w[i];
      } else {
        assert u[|u| - 1] == w[|w| - 1];
        SpacedUnmatched(pat, u, t);
      }
    }
    SubSkip(pat, repl, w, t);
  }

  /** A string matched whole is replaced whole. */
  lemma SubWhole(pat: Pattern, repl: string, s: string)
    requires s != [] && MatchAt(pat, s) == Some(|s|)
    ensures Sub(pat, repl, s) == repl
  {
    assert s[|s|..] == [];
  }

  /** `(d)` and `（d）` are each one match of the digit-group pattern. */
  lemma DigitGroupWhole(d: string, repl: string)
    requires d != [] && AllDigits(d)
    ensures Sub(DigitGroup, repl, "(" + d + ")") == repl
    ensures Sub(DigitGroup, repl, "\U{FF08}" + d + "\U{FF09}") == repl
  {
    var ascii, wide := "(" + d + ")", "\U{FF08}" + d + "\U{FF09}";
    assert ascii == ['('] + d + [')'] + [];
    assert wide == ['\U{FF08}'] + d + ['\U{FF09}'] + [];
    EnclosedDigits('(', d, ')', []);
    EnclosedDigits('\U{FF08}', d, '\U{FF09}', []);
    SubWhole(DigitGroup, repl, ascii);
    SubWhole(DigitGroup, repl, wide);
  }

  /** ` [d]` is one match of the spaced-brackets pattern. */
  lemma SpacedBracketsWhole(d: string, repl: string)
    requires d != [] && AllDigits(d)
    ensures Sub(SpacedBrackets, repl, " [" + d + "]") == repl
  {
    var s := " [" + d + "]";
    var inner := ['['] + d + [']'] + [];
    assert s == [' '] + inner;
    RunPrefix([' '], inner, IsSpace);
    assert s[1..] == inner;
    EnclosedDigits('[', d, ']', []);
    assert s[|s|..] == [];
    SubWhole(SpacedBrackets, repl, s);
  }

  /** Digits open no marker. */
  lemma DigitsShut(pat: Pattern, d: string)
    requires AllDigits(d)
    ensures Shut(pat, d)
  {
  }

  /** Without a truthy replacement the stem is left as it is. */
  lemma ReplacedSkipped(stem: string, replace: Option<string>)
    requires !Truthy(replace)
    ensures Replaced(stem, replace) == stem
  {
  }

  /** "name(2)" becomes the name followed by the replacement. */
  lemma ReplacedParens(w: string, d: string, r: string)
    requires Plain(w) && Plain(r) && r != [] && d != [] && AllDigits(d)
    ensures Replaced(w + "(" + d + ")", Some(r)) == w + r
  {
    var block := "(" + d + ")";
    assert w + "(" + d + ")" == w + block;
    PlainShut(DigitGroup, w);
    MarkerSkip(DigitGroup, r, w, block);
    DigitGroupWhole(d, r);
    assert Sub(DigitGroup, r, w + block) == w + r;
    assert Plain(w + r);
    ReplacedTail(w + r, r);
  }

  /** The full-width form "name（2）" is replaced the same way. */
  lemma ReplacedWideParens(w: string, d: string, r: string)
    requires Plain(w) && Plain(r) && r != [] && d != [] && AllDigits(d)
    ensures Replaced(w + "\U{FF08}" + d + "\U{FF09}", Some(r)) == w + r
  {
    var block := "\U{FF08}" + d + "\U{FF09}";
    assert w + "\U{FF08}" + d + "\U{FF09}" == w + block;
    PlainShut(DigitGroup, w);
    MarkerSkip(DigitGroup, r, w, block);
    DigitGroupWhole(d, r);
    assert Sub(DigitGroup, r, w + block) == w + r;
    assert Plain(w + r);
    ReplacedTail(w + r, r);
  }

  /** "name (2)" keeps its space: the digit group is removed before the
      spaced pattern is tried. */
  lemma ReplacedSpacedParens(w: string, d: string, r: string)
    requires Plain(w) && Plain(r) && r != [] && d != [] && AllDigits(d)
    ensures Replaced(w + " (" + d + ")", Some(r)) == w + " " + r
  {
    var head := w + " ";
    assert w + " (" + d + ")" == head + ("(" + d + ")");
    PlainShut(DigitGroup, head);
    MarkerSkip(DigitGroup, r, head, "(" + d + ")");
    DigitGroupWhole(d, r);
    ReplacedTail(head + r, r);
  }

  /** "name [2]" loses the bracketed number and the space before it. */
  lemma ReplacedBrackets(w: string, d: string, r: string)
    requires Plain(w) && Plain(r) && r != [] && d != [] && AllDigits(d)
    requires w == [] || !IsSpace(w[|w| - 1])
    ensures Replaced(w + " [" + d + "]", Some(r)) == w + r
  {
    var block := " [" + d + "]";
    var s := w + block;
    assert s == w + [' ', '['] + d + [']'];
    PlainShut(DigitGroup, w);
    PlainShut(SpacedParens, w);
    PlainShut(SpacedBrackets, w);
    DigitsShut(DigitGroup, d);
    DigitsShut(SpacedParens, d);
    assert Shut(DigitGroup, s) && Shut(SpacedParens, s);
    SubShut(DigitGroup, r, s);
    SubShut(SpacedParens, r, s);
    MarkerSkip(SpacedBrackets, r, w, block);
    SpacedBracketsWhole(d, r);
  }

  /** The last two substitutions find nothing in a plain string. */
  lemma ReplacedTail(s: string, r: string)
    requires Plain(s)
    ensures Sub(SpacedBrackets, r, Sub(SpacedParens, r, s)) == s
  {
    PlainShut(SpacedParens, s);
    PlainShut(SpacedBrackets, s);
    SubShut(SpacedParens, r, s);
    SubShut(SpacedBrackets, r, s);
  }

  /** `s` has no two consecutive whitespace characters. */
  predicate SingleSpaced(s: string) {
    NoAdjacent(s, IsSpace)
  }

  lemma SpacesHead(s: string)
    requires s != [] && !IsSpace(s[0])
    ensures Sub(Spaces, " ", s) == [s[0]] + Sub(Spaces, " ", s[1..])
  {
  }

  lemma {:induction false} SpacesSingle(s: string)
    ensures SingleSpaced(Sub(Spaces, " ", s))
    decreases |s|
  {
    if s != [] {
      match MatchAt(Spaces, s)
      case Some(k) =>
        var rest := s[k..];
        SpacesSingle(rest);
        if rest != [] {
          SpacesHead(rest);
        }
      case None =>
        SpacesSingle(s[1..]);
    }
  }

  predicate AllClean(s: string) {
    Every(s, Clean)
  }

  /** Substituting single spaces creates no garbled character. */
  lemma {:induction false} SpacesKeepClean(s: string)
    requires AllClean(s)
    ensures AllClean(Sub(Spaces, " ", s))
    decreases |s|
  {
    if s != [] {
      var r := Sub(Spaces, " ", s);
      match MatchAt(Spaces, s)
      case Some(k) =>
        SpacesKeepClean(s[k..]);
        var rest := Sub(Spaces, " ", s[k..]);
        assert r == " " + rest;
        forall i | 0 <= i < |r| ensures Clean(r[i]) {
          if i > 0 {
            assert r[i] == rest[i - 1];
          }
        }
      case None =>
        assert Clean(s[0]);
        SpacesKeepClean(s[1..]);
        var rest := Sub(Spaces, " ", s[1..]);
        assert r == [s[0]] + rest;
        forall i | 0 <= i < |r| ensures Clean(r[i]) {
          if i > 0 {
            assert r[i] == rest[i - 1];
          }
        }
    }
  }

  /** The cleaned stem has no garbled character and no two whitespace
      characters in a row. */
  lemma CleanStemIsClean(stem: string)
    ensures AllClean(CleanStem(stem)) && SingleSpaced(CleanStem(stem))
  {
    var filtered := Filter(stem, Clean);
    SpacesKeepClean(filtered);
    SpacesSingle(filtered);
    EveryStrip(Sub(Spaces, " ", filtered), Whitespace, Clean);
    NoAdjacentStrip(Sub(Spaces, " ", filtered), Whitespace, IsSpace);
  }

  /** Not whitespace. */
  predicate Visible(c: char) {
    !IsSpace(c)
  }

  /** Neither garbled nor whitespace: what `clean_garbled` must keep. */
  predicate CleanVisible(c: char) {
    Clean(c) && Visible(c)
  }

  /** Whitespace, if any, is the plain space. */
  predicate BlankOrVisible(c: char) {
    c == ' ' || Visible(c)
  }

  /** Dropping whitespace from the front or the back keeps the visible text. */
  lemma FilterDropped(x: string, head: string, body: string, tail: string)
    requires x == head + (body + tail)
    requires forall i :: 0 <= i < |head| ==> head[i] in Whitespace
    requires forall i :: 0 <= i < |tail| ==> tail[i] in Whitespace
    ensures Filter(x, Visible) == Filter(body, Visible)
  {
    forall i | 0 <= i < |head| ensures !Visible(head[i]) {
      SpaceIsWhitespace(head[i]);
    }
    forall i | 0 <= i < |tail| ensures !Visible(tail[i]) {
      SpaceIsWhitespace(tail[i]);
    }
    FilterNone(head, Visible);
    FilterNone(tail, Visible);
    FilterAppend(head, body + tail, Visible);
    FilterAppend(body, tail, Visible);
  }

  /** Stripping removes whitespace only. */
  lemma FilterStrip(x: string)
    ensures Filter(Strip(x), Visible) == Filter(x, Visible)
  {
    var head, tail := StripSplit(x, Whitespace);
    FilterDropped(x, head, Strip(x), tail);
  }

  /** Replacing whitespace runs by a space removes and adds whitespace only. */
  lemma {:induction false} FilterSpaces(x: string)
    ensures Filter(Sub(Spaces, " ", x), Visible) == Filter(x, Visible)
    decreases |x|
  {
    if x != [] {
      match MatchAt(Spaces, x)
      case Some(k) =>
        FilterSpaces(x[k..]);
        FilterSpacesRun(x, k);
      case None =>
        FilterSpaces(x[1..]);
        FilterSpacesCopy(x);
    }
  }

  /** The step of `FilterSpaces` where a whitespace run is replaced. */
  lemma FilterSpacesRun(x: string, k: nat)
    requires x != [] && MatchAt(Spaces, x) == Some(k)
    requires Filter(Sub(Spaces, " ", x[k..]), Visible) == Filter(x[k..], Visible)
    ensures Filter(Sub(Spaces, " ", x), Visible) == Filter(x, Visible)
  {
    SpacesRunBlank(x, k);
    FilterBlankHead(x, k, Sub(Spaces, " ", x[k..]));
  }

  /** A whitespace run is invisible, and `re.sub` puts one space for it. */
  lemma SpacesRunBlank(x: string, k: nat)
    requires x != [] && MatchAt(Spaces, x) == Some(k)
    ensures k <= |x| && Filter(x[..k], Visible) == []
    ensures Sub(Spaces, " ", x) == " " + Sub(Spaces, " ", x[k..])
  {
    forall i | 0 <= i < k ensures !Visible(x[..k][i]) {
      assert x[..k][i] == x[i];
    }
    FilterNone(x[..k], Visible);
  }

  /** Invisible text in front changes nothing that the filter keeps. */
  lemma FilterBlankHead(x: string, k: nat, rest: string)
    requires k <= |x| && Filter(x[..k], Visible) == []
    ensures Filter(" " + rest, Visible) == Filter(rest, Visible)
    ensures Filter(x, Visible) == Filter(x[k..], Visible)
  {
    assert x == x[..k] + x[k..];
    FilterAppend(x[..k], x[k..], Visible);
    FilterNone(" ", Visible);
    FilterAppend(" ", rest, Visible);
  }

  /** The step of `FilterSpaces` where a character is copied. */
  lemma FilterSpacesCopy(x: string)
    requires x != [] && MatchAt(Spaces, x).None?
    requires Filter(Sub(Spaces, " ", x[1..]), Visible) == Filter(x[1..], Visible)
    ensures Filter(Sub(Spaces, " ", x), Visible) == Filter(x, Visible)
  {
    var rest := Sub(Spaces, " ", x[1..]);
    assert x == [x[0]] + x[1..];
    FilterAppend([x[0]], x[1..], Visible);
    FilterAppend([x[0]], rest, Visible);
  }

  /** Filtering clean characters, then visible ones, keeps the clean visible ones. */
  lemma {:induction false} FilterTwice(s: string)
    ensures Filter(Filter(s, Clean), Visible) == Filter(s, CleanVisible)
    decreases |s|
  {
    if s != [] {
      var init, last := s[..|s| - 1], s[|s| - 1];
      FilterTwice(init);
      var kept := if Clean(last) then [last] else [];
      FilterAppend(Filter(init, Clean), kept, Visible);
      if Clean(last) {
        assert [last][..0] == [];
      }
    }
  }

  /** Apart from whitespace, the cleaned stem is exactly the stem without
      its garbled characters, in order. */
  lemma CleanStemKeepsText(stem: string)
    ensures Filter(CleanStem(stem), Visible) == Filter(stem, CleanVisible)
  {
    var filtered := Filter(stem, Clean);
    FilterStrip(Sub(Spaces, " ", filtered));
    FilterSpaces(filtered);
    FilterTwice(stem);
  }

  /** Every whitespace run left after the substitution is a plain space. */
  lemma {:induction false} SpacesBlank(s: string)
    ensures Every(Sub(Spaces, " ", s), BlankOrVisible)
    decreases |s|
  {
    if s != [] {
      var r := Sub(Spaces, " ", s);
      match MatchAt(Spaces, s)
      case Some(k) =>
        SpacesBlank(s[k..]);
        var rest := Sub(Spaces, " ", s[k..]);
        assert r == " " + rest;
        forall i | 0 <= i < |r| ensures BlankOrVisible(r[i]) {
          if i > 0 {
            assert r[i] == rest[i - 1];
          }
        }
      case None =>
        SpacesBlank(s[1..]);
        var rest := Sub(Spaces, " ", s[1..]);
        assert r == [s[0]] + rest;
        forall i | 0 <= i < |r| ensures BlankOrVisible(r[i]) {
          if i > 0 {
            assert r[i] == rest[i - 1];
          }
        }
    }
  }

  /** The only whitespace in the cleaned stem is the plain space. */
  lemma CleanStemBlanks(stem: string)
    ensures Every(CleanStem(stem), BlankOrVisible)
  {
    var spaced := Sub(Spaces, " ", Filter(stem, Clean));
    SpacesBlank(Filter(stem, Clean));
    EveryStrip(spaced, Whitespace, BlankOrVisible);
  }

  /** The cleaned stem neither starts nor ends with whitespace, and it is
      empty exactly when the stem has no clean visible character. */
  lemma CleanStemTrimmed(stem: string)
    ensures var r := CleanStem(stem); r == [] || (!IsSpace(r[0]) && !IsSpace(r[|r| - 1]))
    ensures CleanStem(stem) == [] <==> forall i :: 0 <= i < |stem| ==> !CleanVisible(stem[i])
  {
    var r := CleanStem(stem);
    StripEnds(Sub(Spaces, " ", Filter(stem, Clean)), Whitespace);
    CleanStemKeepsText(stem);
    if r != [] {
      SpaceIsWhitespace(r[0]);
      SpaceIsWhitespace(r[|r| - 1]);
      assert r[0] in Filter(r, Visible);
      var j :| 0 <= j < |Filter(stem, CleanVisible)| && Filter(stem, CleanVisible)[j] == r[0];
      assert Filter(stem, CleanVisible)[j] in stem;
    }
  }

  /** A run of whitespace, when the next character is not whitespace, is
      replaced by one space; a string whose whitespace is single plain spaces
      is left alone. */
  lemma {:induction false} SpacesIdle(s: string)
    requires SingleSpaced(s) && Every(s, BlankOrVisible)
    ensures Sub(Spaces, " ", s) == s
    decreases |s|
  {
    if s != [] {
      assert SingleSpaced(s[1..]) && Every(s[1..], BlankOrVisible) by {
        forall i | 0 <= i < |s| - 1 ensures s[1..][i] == s[i + 1] {
        }
      }
      SpacesIdle(s[1..]);
      if IsSpace(s[0]) {
        assert BlankOrVisible(s[0]);
        assert |s| > 1 ==> !IsSpace(s[1..][0]);
        assert s[1..] == s[1 + 0..];
      } else {
        SpacesHead(s);
      }
      assert s == [s[0]] + s[1..];
    }
  }

  /** A stem that is already clean, single-spaced with plain spaces and
      trimmed is left as it is. */
  lemma CleanStemFixed(s: string)
    requires AllClean(s) && SingleSpaced(s) && Every(s, BlankOrVisible)
    requires s == [] || (!IsSpace(s[0]) && !IsSpace(s[|s| - 1]))
    ensures CleanStem(s) == s
  {
    FilterKeepsAll(s, Clean);
    SpacesIdle(s);
    if s != [] {
      StripKeeps(s);
    }
  }

  /** Cleaning a cleaned stem changes nothing more. */
  lemma CleanStemIdempotent(stem: string)
    ensures CleanStem(CleanStem(stem)) == CleanStem(stem)
  {
    CleanStemIsClean(stem);
    CleanStemTrimmed(stem);
    CleanStemBlanks(stem);
    CleanStemFixed(CleanStem(stem));
  }
}
