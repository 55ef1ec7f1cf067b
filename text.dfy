/** The Python string methods the server relies on, restated over
    `seq<char>`: `lower`, `title`, `strip`, `replace` and `split`. */
module Text {

  /** `c.isspace()`: the characters on which `str.split()` and `str.strip()`
      (without arguments) break. */
  predicate IsSpace(c: char)
  {
    c == ' ' || ('\t' <= c <= '\r') || ('\U{1c}' <= c <= '\U{1f}') ||
    c == '\U{85}' || c == '\U{a0}' || c == '\U{1680}' || ('\U{2000}' <= c <= '\U{200a}') ||
    c == '\U{2028}' || c == '\U{2029}' || c == '\U{202f}' || c == '\U{205f}' || c == '\U{3000}'
  }

  predicate IsUpper(c: char) { 'A' <= c <= 'Z' }
  predicate IsLower(c: char) { 'a' <= c <= 'z' }
  predicate IsLetter(c: char) { IsUpper(c) || IsLower(c) }

  function LowerChar(c: char): (d: char)
    ensures IsUpper(c) ==> IsLower(d)
    ensures !IsUpper(c) ==> d == c
  {
    if IsUpper(c) then c - 'A' as char + 'a' as char else c
  }

  function UpperChar(c: char): (d: char)
    ensures IsLower(c) ==> IsUpper(d)
    ensures !IsLower(c) ==> d == c
  {
    if IsLower(c) then c - 'a' as char + 'A' as char else c
  }

  /** `s.lower()` on the letters A to Z. */
  function Lower(s: string): (r: string)
    ensures |r| == |s|
    ensures forall i :: 0 <= i < |s| ==> r[i] == LowerChar(s[i])
  {
    seq(|s|, i requires 0 <= i < |s| => LowerChar(s[i]))
  }

  /** `str.title()` from a given state: a letter after a letter is lowered,
      any other letter is raised; every non-letter starts a new word. */
  function TitleFrom(s: string, afterLetter: bool): (r: string)
    ensures |r| == |s|
  {
    if s == [] then []
    else if IsLetter(s[0]) then
      [if afterLetter then LowerChar(s[0]) else UpperChar(s[0])] + TitleFrom(s[1..], true)
    else [s[0]] + TitleFrom(s[1..], false)
  }

  /** `s.title()`. */
  function Title(s: string): (r: string)
  {
    TitleFrom(s, false)
  }

  /** `s.replace(a, b)` for single characters. */
  function ReplaceChar(s: string, a: char, b: char): (r: string)
    ensures |r| == |s|
    ensures forall i :: 0 <= i < |s| ==> r[i] == if s[i] == a then b else s[i]
  {
    seq(|s|, i requires 0 <= i < |s| => if s[i] == a then b else s[i])
  }

  /** `p` occurs in `s` at index `i`. */
  predicate OccursAt(s: string, p: string, i: nat)
  {
    i + |p| <= |s| && s[i..i + |p|] == p
  }

  /** `s.replace(p, "")`: scanning from the left, every non-overlapping
      occurrence of `p` is dropped. */
  function RemoveAll(s: string, p: string): (r: string)
    requires p != []
    ensures |r| <= |s|
    decreases |s|
  {
    if |s| < |p| then s
    else if s[..|p|] == p then RemoveAll(s[|p|..], p)
    else [s[0]] + RemoveAll(s[1..], p)
  }

  lemma OccursAtTail(s: string, p: string, i: nat)
    requires s != []
    ensures OccursAt(s[1..], p, i) <==> OccursAt(s, p, i + 1)
  {
    if i + |p| <= |s[1..]| {
      assert s[1..][i..i + |p|] == s[i + 1..i + 1 + |p|];
    }
  }

  /** A string without `p` comes back unchanged. */
  lemma {:induction false} RemoveAllAbsent(s: string, p: string)
    requires p != []
    requires forall i: nat :: !OccursAt(s, p, i)
    ensures RemoveAll(s, p) == s
  {
    if |s| >= |p| {
      assert !OccursAt(s, p, 0);
      forall i: nat ensures !OccursAt(s[1..], p, i) {
        OccursAtTail(s, p, i);
        assert !OccursAt(s, p, i + 1);
      }
      RemoveAllAbsent(s[1..], p);
    }
  }

  /** The leftmost occurrence is the one removed: if `p` first occurs right
      after `a`, the result is `a` followed by the removal applied to what
      comes after that occurrence. */
  lemma {:induction false} RemoveAllLeftmost(a: string, p: string, b: string)
    requires p != []
    requires forall i: nat :: i < |a| ==> !OccursAt(a + p + b, p, i)
    ensures RemoveAll(a + p + b, p) == a + RemoveAll(b, p)
  {
    if a == [] {
      RemoveAllAtStart(p, b);
    } else {
      var s := a + p + b;
      RemoveAllSkipFirst(s, p);
      assert s[1..] == a[1..] + p + b;
      NoEarlierInTail(a, p, b);
      RemoveAllLeftmost(a[1..], p, b);
      assert a + RemoveAll(b, p) == [s[0]] + (a[1..] + RemoveAll(b, p));
    }
  }

  /** An occurrence at the start is dropped. */
  lemma RemoveAllAtStart(p: string, b: string)
    requires p != []
    ensures RemoveAll(p + b, p) == RemoveAll(b, p)
  {
    assert (p + b)[..|p|] == p && (p + b)[|p|..] == b;
  }

  /** Without an occurrence at the start, the first character is kept. */
  lemma RemoveAllSkipFirst(s: string, p: string)
    requires p != [] && |s| >= |p| && !OccursAt(s, p, 0)
    ensures RemoveAll(s, p) == [s[0]] + RemoveAll(s[1..], p)
  {
  }

  /** No occurrence before `p` in `a + p + b` means none before it in the
      tail either. */
  lemma NoEarlierInTail(a: string, p: string, b: string)
    requires a != []
    requires forall i: nat :: i < |a| ==> !OccursAt(a + p + b, p, i)
    ensures forall i: nat :: i < |a[1..]| ==> !OccursAt(a[1..] + p + b, p, i)
  {
    var s := a + p + b;
    assert s[1..] == a[1..] + p + b;
    forall i: nat | i < |a[1..]| ensures !OccursAt(a[1..] + p + b, p, i) {
      OccursAtTail(s, p, i);
      assert !OccursAt(s, p, i + 1);
    }
  }

  /** Characters of `cs` at the start of `s` removed. */
  function StripStart(s: string, cs: set<char>): (r: string)
    ensures |r| <= |s| && r == s[|s| - |r|..]
    ensures forall k :: 0 <= k < |s| - |r| ==> s[k] in cs
    ensures r != [] ==> r[0] !in cs
  {
    if s != [] && s[0] in cs then StripStart(s[1..], cs) else s
  }

  /** Characters of `cs` at the end of `s` removed. */
  function StripEnd(s: string, cs: set<char>): (r: string)
    ensures |r| <= |s| && r == s[..|r|]
    ensures forall k :: |r| <= k < |s| ==> s[k] in cs
    ensures r != [] ==> r[|r| - 1] !in cs
  {
    if s != [] && s[|s| - 1] in cs then StripEnd(s[..|s| - 1], cs) else s
  }

  /** `s.strip(cs)`: the longest middle part of `s` that neither starts nor
      ends with a character of `cs`; what was cut off on either side is made
      of characters of `cs` only. */
  function Strip(s: string, cs: set<char>): (r: string)
    ensures exists i, j ::
      && 0 <= i <= j <= |s| && r == s[i..j]
      && (forall k :: 0 <= k < i ==> s[k] in cs)
      && (forall k :: j <= k < |s| ==> s[k] in cs)
    ensures r != [] ==> r[0] !in cs && r[|r| - 1] !in cs
  {
    var t := StripStart(s, cs);
    var r := StripEnd(t, cs);
    var i := |s| - |t|;
    assert r == s[i..i + |r|];
    r
  }

  /** The whitespace characters up to U+3000, all that `IsSpace` admits. */
  function SpaceSet(): (cs: set<char>)
    ensures forall c :: c in cs <==> IsSpace(c)
  {
    set c: char | '\t' <= c <= '\U{3000}' && IsSpace(c)
  }

  /** `s.strip()`: what is cut off on either side is whitespace (the members
      of `SpaceSet`), and the rest neither starts nor ends with it. */
  function StripSpace(s: string): (r: string)
    ensures exists i, j ::
      && 0 <= i <= j <= |s| && r == s[i..j]
      && (forall k :: 0 <= k < i ==> s[k] in SpaceSet())
      && (forall k :: j <= k < |s| ==> s[k] in SpaceSet())
    ensures r != [] ==> r[0] !in SpaceSet() && r[|r| - 1] !in SpaceSet()
  {
    Strip(s, SpaceSet())
  }

  /** `s.split(c)`: the pieces between the occurrences of `c`, empty ones
      included; there is always one piece more than occurrences. */
  function SplitOn(s: string, c: char): (r: seq<string>)
    ensures |r| >= 1
    ensures forall k :: 0 <= k < |r| ==> c !in r[k]
    ensures Join(r, c) == s
  {
    if s == [] then [[]]
    else
      var rest := SplitOn(s[1..], c);
      if s[0] == c then [[]] + rest
      else [[s[0]] + rest[0]] + rest[1..]
  }

  /** `c.join(pieces)`. */
  function Join(pieces: seq<string>, c: char): string
  {
    if pieces == [] then []
    else if |pieces| == 1 then pieces[0]
    else pieces[0] + [c] + Join(pieces[1..], c)
  }

  /** The decimal digits of `n`, as `str(n)` gives them. */
  function NatToString(n: nat): (r: string)
    ensures r != []
    ensures n > 0 ==> r[0] != '0'
    ensures forall k :: 0 <= k < |r| ==> '0' <= r[k] <= '9'
  {
    if n < 10 then [('0' as int + n) as char]
    else NatToString(n / 10) + [('0' as int + n % 10) as char]
  }

  /** The number a string of decimal digits denotes. */
  function DecimalValue(s: string): int
  {
    if s == [] then 0 else 10 * DecimalValue(s[..|s| - 1]) + (s[|s| - 1] as int - '0' as int)
  }

  lemma {:induction false} NatToStringValue(n: nat)
    ensures DecimalValue(NatToString(n)) == n
  {
    if n >= 10 {
      NatToStringValue(n / 10);
      var r := NatToString(n);
      assert r[..|r| - 1] == NatToString(n / 10);
    }
  }
}
