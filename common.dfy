/** Values shared by every module of the organizer: optional values, the
    string operations of Python's `str` that the organizer relies on, and a
    filter over sequences. Whitespace is Python's full set; digits and case
    mapping cover ASCII only. */
module Common {

  datatype Option<T> = None | Some(value: T)

  /** Python's truthiness of an optional string: present and non-empty. */
  predicate Truthy(s: Option<string>) {
    s.Some? && s.value != ""
  }

  /** `str.isspace`, which is also what `\s` matches in a pattern over `str`. */
  predicate IsSpace(c: char) {
    ('\t' <= c <= '\r') || ('\U{1C}' <= c <= ' ') || c == '\U{85}' || c == '\U{A0}' || c == '\U{1680}'
    || ('\U{2000}' <= c <= '\U{200A}') || c == '\U{2028}' || c == '\U{2029}' || c == '\U{202F}'
    || c == '\U{205F}' || c == '\U{3000}'
  }

  predicate IsDigit(c: char) {
    '0' <= c <= '9'
  }

  predicate AllDigits(s: string) {
    forall i :: 0 <= i < |s| ==> IsDigit(s[i])
  }

  function LowerChar(c: char): (r: char)
    ensures !('A' <= r <= 'Z')
  {
    if 'A' <= c <= 'Z' then (c as int + 32) as char else c
  }

  function UpperChar(c: char): (r: char)
    ensures !('a' <= r <= 'z')
  {
    if 'a' <= c <= 'z' then (c as int - 32) as char else c
  }

  /** `str.lower` on ASCII letters. */
  function Lower(s: string): (r: string)
    ensures |r| == |s|
    ensures forall i :: 0 <= i < |s| ==> r[i] == LowerChar(s[i])
  {
    seq(|s|, i requires 0 <= i < |s| => LowerChar(s[i]))
  }

  /** `str.upper` on ASCII letters. */
  function Upper(s: string): (r: string)
    ensures |r| == |s|
    ensures forall i :: 0 <= i < |s| ==> r[i] == UpperChar(s[i])
  {
    seq(|s|, i requires 0 <= i < |s| => UpperChar(s[i]))
  }

  lemma {:induction false} LowerIdempotent(s: string)
    ensures Lower(Lower(s)) == Lower(s)
  {
    assert forall i :: 0 <= i < |s| ==> LowerChar(LowerChar(s[i])) == LowerChar(s[i]);
  }

  predicate StartsWith(s: string, prefix: string) {
    |prefix| <= |s| && s[..|prefix|] == prefix
  }

  predicate EndsWith(s: string, suffix: string) {
    |suffix| <= |s| && s[|s| - |suffix|..] == suffix
  }

  /** `s.lstrip(chars)`: drops the leading characters that belong to `chars`. */
  function LStrip(s: string, chars: set<char>): (r: string)
    ensures |r| <= |s| && r == s[|s| - |r|..]
    ensures r == [] || r[0] !in chars
    ensures forall i :: 0 <= i < |s| - |r| ==> s[i] in chars
    decreases |s|
  {
    if s != [] && s[0] in chars then
      var r := LStrip(s[1..], chars);
      assert s[1..][|s| - 1 - |r|..] == s[|s| - |r|..];
      assert forall i :: 1 <= i < |s| ==> s[1..][i - 1] == s[i];
      r
    else s
  }

  /** `s.rstrip(chars)`: drops the trailing characters that belong to `chars`. */
  function RStrip(s: string, chars: set<char>): (r: string)
    ensures |r| <= |s| && r == s[..|r|]
    ensures r == [] || r[|r| - 1] !in chars
    ensures forall i :: |r| <= i < |s| ==> s[i] in chars
    decreases |s|
  {
    if s != [] && s[|s| - 1] in chars then
      var r := RStrip(s[..|s| - 1], chars);
      assert s[..|s| - 1][..|r|] == s[..|r|];
      assert forall i :: 0 <= i < |s| - 1 ==> s[..|s| - 1][i] == s[i];
      r
    else s
  }

  /** `s.strip(chars)`. */
  function StripChars(s: string, chars: set<char>): string {
    RStrip(LStrip(s, chars), chars)
  }

  /** What `strip` keeps is one contiguous stretch of its argument, starting
      after the stripped head. */
  lemma StripSlice(s: string, chars: set<char>)
    ensures var r := StripChars(s, chars); var k := |s| - |LStrip(s, chars)|;
      k + |r| <= |s| && r == s[k..k + |r|]
  {
    var left := LStrip(s, chars);
    var r := RStrip(left, chars);
    var k := |s| - |left|;
    assert r == left[..|r|];
  }

  /** `lstrip` removes a head made of characters in `chars`. */
  lemma LStripSplit(s: string, chars: set<char>) returns (head: string)
    ensures s == head + LStrip(s, chars)
    ensures forall i :: 0 <= i < |head| ==> head[i] in chars
  {
    var left := LStrip(s, chars);
    head := s[..|s| - |left|];
    assert forall i :: 0 <= i < |head| ==> head[i] == s[i];
  }

  /** `rstrip` removes a tail made of characters in `chars`. */
  lemma RStripSplit(s: string, chars: set<char>) returns (tail: string)
    ensures s == RStrip(s, chars) + tail
    ensures forall i :: 0 <= i < |tail| ==> tail[i] in chars
  {
    var r := RStrip(s, chars);
    tail := s[|r|..];
    assert forall i :: 0 <= i < |tail| ==> tail[i] == s[|r| + i];
  }

  /** `strip` removes a head and a tail made of characters in `chars`. */
  lemma StripSplit(s: string, chars: set<char>) returns (head: string, tail: string)
    ensures s == head + (StripChars(s, chars) + tail)
    ensures forall i :: 0 <= i < |head| ==> head[i] in chars
    ensures forall i :: 0 <= i < |tail| ==> tail[i] in chars
  {
    head := LStripSplit(s, chars);
    tail := RStripSplit(LStrip(s, chars), chars);
  }

  /** Neither end of what `strip` keeps is in `chars`. */
  lemma StripEnds(s: string, chars: set<char>)
    ensures var r := StripChars(s, chars); r == [] || (r[0] !in chars && r[|r| - 1] !in chars)
  {
    var left := LStrip(s, chars);
    var r := RStrip(left, chars);
    if r != [] {
      assert r[0] == left[0];
    }
  }

  /** Every character of `s` satisfies `p`. */
  predicate Every(s: string, p: char -> bool) {
    forall i :: 0 <= i < |s| ==> p(s[i])
  }

  /** No two neighbouring characters of `s` both satisfy `p`. */
  predicate NoAdjacent(s: string, p: char -> bool) {
    forall i :: 0 <= i < |s| - 1 ==> !(p(s[i]) && p(s[i + 1]))
  }

  lemma EveryStrip(s: string, chars: set<char>, p: char -> bool)
    requires Every(s, p)
    ensures Every(StripChars(s, chars), p)
  {
    StripSlice(s, chars);
  }

  lemma NoAdjacentSlice(s: string, k: nat, n: nat, p: char -> bool)
    requires NoAdjacent(s, p) && k + n <= |s|
    ensures NoAdjacent(s[k..k + n], p)
  {
    var r := s[k..k + n];
    forall i | 0 <= i < |r| - 1 ensures !(p(r[i]) && p(r[i + 1])) {
      assert r[i] == s[k + i] && r[i + 1] == s[k + i + 1];
    }
  }

  lemma NoAdjacentStrip(s: string, chars: set<char>, p: char -> bool)
    requires NoAdjacent(s, p)
    ensures NoAdjacent(StripChars(s, chars), p)
  {
    StripSlice(s, chars);
    NoAdjacentSlice(s, |s| - |LStrip(s, chars)|, |StripChars(s, chars)|, p);
  }

  /** The characters Python counts as whitespace: the ones `str.strip()`
      removes and `str.isspace` accepts. */
  const Whitespace: set<char> := set c: char | '\t' <= c <= '\U{3000}' && IsSpace(c)

  lemma SpaceIsWhitespace(c: char)
    ensures c in Whitespace <==> IsSpace(c)
  {
  }

  /** `s.strip()` with no argument. */
  function Strip(s: string): string {
    StripChars(s, Whitespace)
  }

  /** Stripping leaves a string alone whose ends are not whitespace. */
  lemma StripKeeps(s: string)
    requires s != [] && !IsSpace(s[0]) && !IsSpace(s[|s| - 1])
    ensures Strip(s) == s
  {
    SpaceIsWhitespace(s[0]);
    SpaceIsWhitespace(s[|s| - 1]);
  }

  /** The elements of `s` that satisfy `keep`, in their original order. */
  function Filter<T>(s: seq<T>, keep: T -> bool): (r: seq<T>)
    ensures |r| <= |s|
    ensures forall i :: 0 <= i < |r| ==> keep(r[i]) && r[i] in s
    ensures forall i :: 0 <= i < |s| && keep(s[i]) ==> s[i] in r
    decreases |s|
  {
    if s == [] then []
    else
      assert s == s[..|s| - 1] + [s[|s| - 1]];
      Filter(s[..|s| - 1], keep) + (if keep(s[|s| - 1]) then [s[|s| - 1]] else [])
  }

  lemma {:induction false} FilterAppend<T>(s: seq<T>, t: seq<T>, keep: T -> bool)
    ensures Filter(s + t, keep) == Filter(s, keep) + Filter(t, keep)
    decreases |t|
  {
    if t == [] {
      assert s + t == s;
    } else {
      var n := |t| - 1;
      assert (s + t)[..|s + t| - 1] == s + t[..n];
      FilterAppend(s, t[..n], keep);
    }
  }

  /** One more element of the input: the filter grows by it iff it is kept. */
  lemma FilterStep<T>(s: seq<T>, keep: T -> bool, i: nat)
    requires i < |s|
    ensures Filter(s[..i + 1], keep) == Filter(s[..i], keep) + (if keep(s[i]) then [s[i]] else [])
  {
    assert s[..i + 1][..i] == s[..i];
  }

  lemma AppendAssoc<T>(a: seq<T>, b: seq<T>, c: seq<T>)
    ensures (a + b) + c == a + (b + c)
  {
  }

  lemma {:induction false} FilterKeepsAll<T>(s: seq<T>, keep: T -> bool)
    requires forall i :: 0 <= i < |s| ==> keep(s[i])
    ensures Filter(s, keep) == s
    decreases |s|
  {
    if s != [] {
      var init := s[..|s| - 1];
      forall i | 0 <= i < |init| ensures keep(init[i]) {
        assert init[i] == s[i];
      }
      FilterKeepsAll(init, keep);
      assert keep(s[|s| - 1]);
      assert s == init + [s[|s| - 1]];
    }
  }

  lemma {:induction false} FilterNone<T>(s: seq<T>, keep: T -> bool)
    requires forall i :: 0 <= i < |s| ==> !keep(s[i])
    ensures Filter(s, keep) == []
    decreases |s|
  {
    if s != [] {
      var init := s[..|s| - 1];
      forall i | 0 <= i < |init| ensures !keep(init[i]) {
        assert init[i] == s[i];
      }
      FilterNone(init, keep);
    }
  }

  /** Two kept positions leave at least two elements. */
  lemma {:induction false} FilterTwo<T>(s: seq<T>, keep: T -> bool, i: nat, j: nat)
    requires i < j < |s| && keep(s[i]) && keep(s[j])
    ensures |Filter(s, keep)| >= 2
    decreases |s|
  {
    var init := s[..|s| - 1];
    if j == |s| - 1 {
      assert init[i] == s[i];
      assert s[i] in Filter(init, keep);
    } else {
      assert init[i] == s[i] && init[j] == s[j];
      FilterTwo(init, keep, i, j);
    }
  }

  /** No element occurs twice. */
  predicate Distinct<T(==)>(s: seq<T>) {
    forall i, j :: 0 <= i < j < |s| ==> s[i] != s[j]
  }

  lemma {:induction false} FilterDistinct<T>(s: seq<T>, keep: T -> bool)
    requires Distinct(s)
    ensures Distinct(Filter(s, keep))
    decreases |s|
  {
    if s != [] {
      var init := s[..|s| - 1];
      assert Distinct(init) by {
        forall i, j | 0 <= i < j < |init| ensures init[i] != init[j] {
          assert init[i] == s[i] && init[j] == s[j];
        }
      }
      FilterDistinct(init, keep);
      assert s[|s| - 1] !in init;
    }
  }

  /** How many times `x` occurs in `s`. */
  function Count<T(==)>(s: seq<T>, x: T): (n: nat)
    ensures n == multiset(s)[x]
    ensures n <= |s|
    decreases |s|
  {
    if s == [] then 0
    else
      assert s == s[..|s| - 1] + [s[|s| - 1]];
      Count(s[..|s| - 1], x) + (if s[|s| - 1] == x then 1 else 0)
  }

  /** Filtering keeps every occurrence of a kept value and none of another. */
  lemma {:induction false} FilterCount<T>(s: seq<T>, keep: T -> bool, x: T)
    ensures Count(Filter(s, keep), x) == if keep(x) then Count(s, x) else 0
    decreases |s|
  {
    if s != [] {
      var init := s[..|s| - 1];
      var last := s[|s| - 1];
      FilterCount(init, keep, x);
      var f := Filter(init, keep);
      if keep(last) {
        assert (f + [last])[..|f|] == f;
      }
    }
  }

  /** The first `n` elements of `s`, or all of them: Python's `s[:n]`. */
  function Take<T>(s: seq<T>, n: nat): (r: seq<T>)
    ensures |r| <= n && |r| <= |s|
    ensures r == s[..|r|]
    ensures |s| <= n ==> r == s
    ensures n <= |s| ==> |r| == n
  {
    if |s| <= n then s else s[..n]
  }
}
