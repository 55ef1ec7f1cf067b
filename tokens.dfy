/** Word-level helpers shared by the two extractors: `str.split()` on
    whitespace, and the "keep the words that pass a filter, then the first n"
    pattern both extractors use. */
module Tokens {
  import opened Text
  import opened Wrappers

  /** `s` with its leading whitespace removed. */
  function SkipSpace(s: string): (r: string)
    ensures |r| <= |s| && r == s[|s| - |r|..]
    ensures r != [] ==> !IsSpace(r[0])
    ensures forall k :: 0 <= k < |s| - |r| ==> IsSpace(s[k])
  {
    if s != [] && IsSpace(s[0]) then SkipSpace(s[1..]) else s
  }

  /** Length of the run of non-whitespace characters `s` starts with. */
  function WordLen(s: string): (n: nat)
    ensures n <= |s|
    ensures forall k :: 0 <= k < n ==> !IsSpace(s[k])
    ensures n < |s| ==> IsSpace(s[n])
  {
    if s == [] || IsSpace(s[0]) then 0 else 1 + WordLen(s[1..])
  }

  /** `s.split()`: the maximal runs of non-whitespace characters, in order. */
  function Words(s: string): (ws: seq<string>)
    decreases |s|
  {
    var t := SkipSpace(s);
    if t == [] then []
    else
      var n := WordLen(t);
      [t[..n]] + Words(t[n..])
  }

  /** Every word is non-empty and holds no whitespace. */
  lemma {:induction false} WordsShape(s: string)
    ensures forall k :: 0 <= k < |Words(s)| ==> IsWord(Words(s)[k])
    decreases |s|
  {
    var t := SkipSpace(s);
    if t != [] {
      var n := WordLen(t);
      WordsShape(t[n..]);
      assert IsWord(t[..n]);
      AllCons(t[..n], Words(t[n..]), IsWord);
    }
  }

  /** A word: non-empty, without whitespace. */
  predicate IsWord(w: string)
  {
    w != [] && NoSpace(w)
  }

  lemma AllCons<T>(x: T, xs: seq<T>, p: T -> bool)
    requires p(x) && forall k :: 0 <= k < |xs| ==> p(xs[k])
    ensures forall k :: 0 <= k < |[x] + xs| ==> p(([x] + xs)[k])
  {
  }

  predicate NoSpace(w: string)
  {
    forall k :: 0 <= k < |w| ==> !IsSpace(w[k])
  }

  predicate AllSpace(s: string)
  {
    forall k :: 0 <= k < |s| ==> IsSpace(s[k])
  }

  lemma {:induction false} SkipSpaceAppend(a: string, b: string)
    ensures AllSpace(a) ==> SkipSpace(a + b) == SkipSpace(b)
    ensures !AllSpace(a) ==> SkipSpace(a + b) == SkipSpace(a) + b
  {
    if a == [] {
      assert a + b == b;
    } else {
      var ab := a + b;
      assert ab[0] == a[0] && ab[1..] == a[1..] + b;
      AllSpaceCons(a);
      if IsSpace(a[0]) {
        assert SkipSpace(ab) == SkipSpace(a[1..] + b);
        assert SkipSpace(a) == SkipSpace(a[1..]);
        SkipSpaceAppend(a[1..], b);
      } else {
        assert SkipSpace(ab) == ab;
        assert SkipSpace(a) == a;
      }
    }
  }

  lemma AllSpaceCons(a: string)
    requires a != []
    ensures AllSpace(a) <==> IsSpace(a[0]) && AllSpace(a[1..])
  {
    if IsSpace(a[0]) && AllSpace(a[1..]) {
      forall k | 0 < k < |a| ensures IsSpace(a[k]) {
        assert a[k] == a[1..][k - 1];
      }
    }
  }

  lemma {:induction false} WordLenAppend(t: string, b: string)
    requires WordLen(t) < |t| || b == [] || IsSpace(b[0])
    ensures WordLen(t + b) == WordLen(t)
  {
    if t == [] {
    } else if !IsSpace(t[0]) {
      assert (t + b)[1..] == t[1..] + b;
      WordLenAppend(t[1..], b);
    }
  }

  /** One step of `Words` on `a + b`, when `a` holds a word that `b` cannot
      extend. */
  lemma WordsAppendStep(a: string, b: string)
    requires !AllSpace(a)
    requires b == [] || IsSpace(b[0])
    ensures var t := SkipSpace(a); var n := WordLen(t);
      && 0 < n <= |t| <= |a|
      && Words(a) == [t[..n]] + Words(t[n..])
      && Words(a + b) == [t[..n]] + Words(t[n..] + b)
  {
    SkipSpaceAppend(a, b);
    var t := SkipSpace(a);
    var n := WordLen(t);
    WordLenAppend(t, b);
    SliceAppend(t, b, n);
  }

  /** Splitting at a whitespace boundary: the words of `a + b` are the words
      of `a` followed by those of `b` when `b` is empty or starts with
      whitespace. */
  lemma {:induction false} WordsAppend(a: string, b: string)
    requires b == [] || IsSpace(b[0])
    ensures Words(a + b) == Words(a) + Words(b)
    decreases |a|
  {
    if AllSpace(a) {
      SkipSpaceAppend(a, b);
      assert SkipSpace(a) == [];
      assert Words(a + b) == Words(b);
      assert Words(a) == [];
      assert Words(a) + Words(b) == Words(b);
    } else {
      WordsAppendStep(a, b);
      var t := SkipSpace(a);
      var n := WordLen(t);
      WordsAppend(t[n..], b);
      ConcatAssoc([t[..n]], Words(t[n..]), Words(b));
    }
  }

  lemma SliceAppend<T>(t: seq<T>, b: seq<T>, n: nat)
    requires n <= |t|
    ensures (t + b)[..n] == t[..n] && (t + b)[n..] == t[n..] + b
  {
  }

  lemma ConcatAssoc<T>(x: seq<T>, y: seq<T>, z: seq<T>)
    ensures x + (y + z) == (x + y) + z
  {
  }

  /** A non-empty string without whitespace is one word. */
  lemma {:induction false} WordsSingle(w: string)
    requires w != [] && NoSpace(w)
    ensures Words(w) == [w]
  {
    assert SkipSpace(w) == w;
    assert WordLen(w) == |w|;
    assert w[..|w|] == w && w[|w|..] == [];
  }

  /** The words of `a + " " + b`. */
  lemma WordsJoined(a: string, b: string)
    ensures Words(a + " " + b) == Words(a) + Words(b)
  {
    assert a + " " + b == a + ([' '] + b);
    WordsAppend(a, [' '] + b);
    assert SkipSpace([' '] + b) == SkipSpace(b) by {
      assert ([' '] + b)[1..] == b;
    }
  }

  /** A text with a space and nothing after it has the words of the text. */
  lemma WordsTrailingSpace(a: string)
    ensures Words(a + " " + "") == Words(a)
  {
    WordsJoined(a, "");
    assert Words("") == [];
  }

  /** `[x for x in s if p(x)]`. */
  function Filter<T>(s: seq<T>, p: T -> bool): (r: seq<T>)
    ensures |r| <= |s|
    ensures forall k :: 0 <= k < |r| ==> r[k] in s && p(r[k])
    ensures forall k :: 0 <= k < |s| && p(s[k]) ==> s[k] in r
  {
    if s == [] then []
    else (if p(s[0]) then [s[0]] else []) + Filter(s[1..], p)
  }

  lemma FilterIn<T>(s: seq<T>, p: T -> bool, x: T)
    ensures x in Filter(s, p) <==> x in s && p(x)
  {
    if x in s && p(x) {
      var k :| 0 <= k < |s| && s[k] == x;
    }
    if x in Filter(s, p) {
      var k :| 0 <= k < |Filter(s, p)| && Filter(s, p)[k] == x;
    }
  }

  lemma {:induction false} FilterAppend<T>(a: seq<T>, b: seq<T>, p: T -> bool)
    ensures Filter(a + b, p) == Filter(a, p) + Filter(b, p)
  {
    if a == [] {
      assert a + b == b;
    } else {
      assert (a + b)[1..] == a[1..] + b;
      FilterAppend(a[1..], b, p);
    }
  }

  /** `s[:n]`. */
  function Take<T>(s: seq<T>, n: nat): (r: seq<T>)
    ensures |r| <= n && |r| <= |s|
    ensures r == s[..|r|]
    ensures |s| >= n ==> |r| == n
    ensures |s| <= n ==> r == s
  {
    if |s| <= n then s else s[..n]
  }

  lemma TakeCons<T>(x: T, s: seq<T>, n: nat)
    requires n > 0
    ensures Take([x] + s, n) == [x] + Take(s, n - 1)
  {
    if |s| > n - 1 {
      assert ([x] + s)[..n] == [x] + s[..n - 1];
    }
  }

  lemma FilterCons<T>(s: seq<T>, p: T -> bool)
    requires s != []
    ensures Filter(s, p) == (if p(s[0]) then [s[0]] else []) + Filter(s[1..], p)
  {
  }

  /** The first `n` elements of `s` that pass `p` are exactly those of some
      prefix of `s`: nothing that passes is skipped, and the prefix is the
      whole of `s` unless `n` of them were found. */
  lemma {:induction false} TakeFilterIsPrefix<T>(s: seq<T>, p: T -> bool, n: nat)
    ensures exists i ::
      && 0 <= i <= |s|
      && Take(Filter(s, p), n) == Filter(s[..i], p)
      && (i == |s| || |Filter(s[..i], p)| == n)
  {
    if n == 0 {
      assert s[..0] == [];
      assert Take(Filter(s, p), n) == Filter(s[..0], p);
    } else if s == [] {
      assert s[..0] == [];
    } else {
      var m: nat := if p(s[0]) then n - 1 else n;
      var t := s[1..];
      TakeFilterIsPrefix(t, p, m);
      var j :| 0 <= j <= |t| && Take(Filter(t, p), m) == Filter(t[..j], p) &&
        (j == |t| || |Filter(t[..j], p)| == m);
      TakeFilterCons(s, p, n, j);
    }
  }

  /** The step of `TakeFilterIsPrefix`: a prefix of the tail that serves
      the tail serves the whole sequence once the head is put back. */
  lemma TakeFilterCons<T>(s: seq<T>, p: T -> bool, n: nat, j: nat)
    requires n > 0 && s != [] && j <= |s| - 1
    requires Take(Filter(s[1..], p), if p(s[0]) then n - 1 else n) == Filter(s[1..][..j], p)
    requires j == |s| - 1 || |Filter(s[1..][..j], p)| == if p(s[0]) then n - 1 else n
    ensures Take(Filter(s, p), n) == Filter(s[..j + 1], p)
    ensures j + 1 == |s| || |Filter(s[..j + 1], p)| == n
  {
    var t := s[1..];
    var m: nat := if p(s[0]) then n - 1 else n;
    var head := if p(s[0]) then [s[0]] else [];
    FilterCons(s, p);
    FilterCons(s[..j + 1], p);
    assert s[..j + 1][0] == s[0] && s[..j + 1][1..] == t[..j];
    assert Filter(s[..j + 1], p) == head + Filter(t[..j], p);
    if p(s[0]) {
      TakeCons(s[0], Filter(t, p), n);
    }
    assert Take(Filter(s, p), n) == head + Take(Filter(t, p), m);
  }

  /** `[f(x) for x in s]`. */
  function MapSeq<T, U>(s: seq<T>, f: T -> U): (r: seq<U>)
    ensures |r| == |s|
    ensures forall k :: 0 <= k < |s| ==> r[k] == f(s[k])
  {
    seq(|s|, k requires 0 <= k < |s| => f(s[k]))
  }

  /** Taking then mapping is mapping then taking. */
  lemma TakeMap<T, U>(s: seq<T>, f: T -> U, n: nat)
    ensures Take(MapSeq(s, f), n) == MapSeq(Take(s, n), f)
  {
  }

  /** The values `f` gives for the elements of `s`, in order, skipping the
      elements it gives none for. */
  function Somes<T, U>(s: seq<T>, f: T -> Option<U>): seq<U>
  {
    if s == [] then []
    else
      Somes(s[..|s| - 1], f) +
        (match f(s[|s| - 1])
         case Some(u) => [u]
         case None => [])
  }

  /** The elements `f` gives a value for. */
  function Defined<T, U>(f: T -> Option<U>): T -> bool
  {
    x => f(x).Some?
  }

  lemma SomesStep<T, U>(s: seq<T>, f: T -> Option<U>, i: nat)
    requires i < |s|
    ensures Somes(s[..i + 1], f) ==
      Somes(s[..i], f) +
        (match f(s[i])
         case Some(u) => [u]
         case None => [])
  {
    assert s[..i + 1][..i] == s[..i];
  }

  lemma SomesAll<T, U>(s: seq<T>, f: T -> Option<U>)
    ensures Somes(s[..|s|], f) == Somes(s, f)
  {
    assert s[..|s|] == s;
  }

  /** One value per element `f` is defined on, in order, and it is the value
      `f` gives that element. */
  lemma {:induction false} SomesPerElement<T, U>(s: seq<T>, f: T -> Option<U>)
    ensures |Somes(s, f)| == |Filter(s, Defined(f))|
    ensures forall k :: 0 <= k < |Somes(s, f)| ==> f(Filter(s, Defined(f))[k]) == Some(Somes(s, f)[k])
  {
    if s != [] {
      var init := s[..|s| - 1];
      var last := s[|s| - 1];
      SomesPerElement(init, f);
      assert s == init + [last];
      FilterAppend(init, [last], Defined(f));
    }
  }
}
