/** Spec-name derivation: the short key a file is served under, made from
    the file name's stem (spec_server.py:55-57). */
module Naming {
  import opened Text

  /** `s.rfind(c)`: the last index of `c` in `s`, or -1. */
  function RFind(s: string, c: char): (i: int)
    ensures -1 <= i < |s|
    ensures i >= 0 ==> s[i] == c
    ensures forall k :: i < k < |s| ==> s[k] != c
  {
    if s == [] then -1
    else if s[|s| - 1] == c then |s| - 1
    else RFind(s[..|s| - 1], c)
  }

  /** pathlib's rule for where the suffix starts: at the last dot, provided
      it is neither the first nor the last character of the name. */
  predicate HasSuffix(name: string)
  {
    0 < RFind(name, '.') < |name| - 1
  }

  /** `Path(name).suffix`. */
  function Suffix(name: string): string
  {
    if HasSuffix(name) then name[RFind(name, '.')..] else ""
  }

  /** `Path(name).stem`. */
  function Stem(name: string): string
  {
    if HasSuffix(name) then name[..RFind(name, '.')] else name
  }

  /** The three removals of line 55, in order: every `-openapi`, then every
      `_openapi`, then every `openapi`. */
  function Removed(stem: string): string
  {
    RemoveAll(RemoveAll(RemoveAll(stem, "-openapi"), "_openapi"), "openapi")
  }

  /** The whole chain of line 55: the removals, then `-` and `.` turned
      into `_`, then `_` stripped from both ends. */
  function Clean(stem: string): string
  {
    Strip(ReplaceChar(ReplaceChar(Removed(stem), '-', '_'), '.', '_'), {'_'})
  }

  /** The spec name of a stem: the cleaned stem, or the stem itself when
      cleaning leaves nothing. */
  function SpecName(stem: string): string
  {
    var c := Clean(stem);
    if c == "" then stem else c
  }

  lemma ReplaceCharAbsent(s: string, a: char, b: char, c: char)
    requires c != b && (c == a || c !in s)
    ensures c !in ReplaceChar(s, a, b)
  {
  }

  lemma ReplaceCharIdentity(s: string, a: char, b: char)
    requires a !in s
    ensures ReplaceChar(s, a, b) == s
  {
  }

  lemma StripAbsent(s: string, cs: set<char>, c: char)
    requires c !in s
    ensures c !in Strip(s, cs)
  {
    var r := Strip(s, cs);
    var i, j :| 0 <= i <= j <= |s| && r == s[i..j];
    assert forall x :: x in r ==> x in s;
  }

  /** Stripping a string that neither starts nor ends with a stripped
      character changes nothing. */
  lemma StripNothing(s: string, cs: set<char>)
    requires s != [] && s[0] !in cs && s[|s| - 1] !in cs
    ensures Strip(s, cs) == s
  {
    var r := Strip(s, cs);
    var i, j :| 0 <= i <= j <= |s| && r == s[i..j]
      && (forall k :: 0 <= k < i ==> s[k] in cs)
      && (forall k :: j <= k < |s| ==> s[k] in cs);
    assert i == 0 && j == |s|;
  }

  /** The cleaned stem holds no `-` or `.` and neither starts nor ends with
      `_`. */
  lemma CleanShape(stem: string)
    ensures '-' !in Clean(stem) && '.' !in Clean(stem)
    ensures Clean(stem) != [] ==> Clean(stem)[0] != '_' && Clean(stem)[|Clean(stem)| - 1] != '_'
  {
    var removed := Removed(stem);
    var u1 := ReplaceChar(removed, '-', '_');
    ReplaceCharAbsent(removed, '-', '_', '-');
    var u := ReplaceChar(u1, '.', '_');
    ReplaceCharAbsent(u1, '.', '_', '.');
    ReplaceCharAbsent(u1, '.', '_', '-');
    StripAbsent(u, {'_'}, '-');
    StripAbsent(u, {'_'}, '.');
  }

  /** Cleaning a stem whose removals leave a string without `-` and `.` and
      without `_` at either end yields that string. */
  lemma CleanOfRemoved(stem: string)
    requires Removed(stem) != [] && '-' !in Removed(stem) && '.' !in Removed(stem)
    requires Removed(stem)[0] != '_' && Removed(stem)[|Removed(stem)| - 1] != '_'
    ensures Clean(stem) == Removed(stem)
  {
    var removed := Removed(stem);
    ReplaceCharIdentity(removed, '-', '_');
    ReplaceCharIdentity(removed, '.', '_');
    StripNothing(removed, {'_'});
  }

  /** What a derived name looks like. Off the fallback it holds no `-` or
      `.` and neither starts nor ends with `_`; on the fallback it is the
      stem verbatim (which may hold both). A non-empty stem never yields an
      empty name. */
  lemma SpecNameShape(stem: string)
    ensures Clean(stem) != "" ==>
      && SpecName(stem) == Clean(stem)
      && '-' !in SpecName(stem) && '.' !in SpecName(stem)
      && SpecName(stem)[0] != '_' && SpecName(stem)[|SpecName(stem)| - 1] != '_'
    ensures Clean(stem) == "" ==> SpecName(stem) == stem
    ensures stem != "" ==> SpecName(stem) != ""
  {
    CleanShape(stem);
  }

  /** A pattern whose first character is missing from `s` cannot occur. */
  lemma AbsentFirstChar(s: string, p: string)
    requires p != [] && p[0] !in s
    ensures forall i: nat :: !OccursAt(s, p, i)
  {
    forall i: nat ensures !OccursAt(s, p, i) {
      if i + |p| <= |s| {
        assert s[i..i + |p|][0] == s[i];
      }
    }
  }

  lemma RemoveAllAbsentChar(s: string, p: string)
    requires p != [] && p[0] !in s
    ensures RemoveAll(s, p) == s
  {
    AbsentFirstChar(s, p);
    RemoveAllAbsent(s, p);
  }

  /** An occurrence of `-openapi` or `_openapi` contains one of `openapi`. */
  lemma PrefixedOccurrence(s: string, c: char, i: nat)
    requires OccursAt(s, [c] + "openapi", i)
    ensures OccursAt(s, "openapi", i + 1)
  {
    assert s[i + 1..i + 8] == s[i..i + 8][1..];
  }

  /** A name without `openapi` in it passes the removals untouched. */
  lemma RemovalsAbsent(n: string)
    requires forall i: nat :: !OccursAt(n, "openapi", i)
    ensures Removed(n) == n
  {
    forall i: nat ensures !OccursAt(n, "-openapi", i) && !OccursAt(n, "_openapi", i) {
      if OccursAt(n, "-openapi", i) { PrefixedOccurrence(n, '-', i); }
      if OccursAt(n, "_openapi", i) { PrefixedOccurrence(n, '_', i); }
    }
    RemoveAllAbsent(n, "-openapi");
    RemoveAllAbsent(n, "_openapi");
    RemoveAllAbsent(n, "openapi");
  }

  /** The stem of `n + ext` is `n`, for a non-empty `n` and one of the three
      served extensions. */
  lemma StemWithExtension(n: string, ext: string)
    requires n != []
    requires ext in [".yaml", ".yml", ".json"]
    ensures RFind(n + ext, '.') == |n|
    ensures Stem(n + ext) == n && Suffix(n + ext) == ext
  {
    var s := n + ext;
    assert s[|n|] == '.';
    assert forall k :: |n| < k < |s| ==> s[k] == ext[k - |n|];
    assert s[..|n|] == n && s[|n|..] == ext;
  }

  /** Re-deriving the name from `name + ext` gives the name back, provided the
      name came from the fallback or contains no `openapi`. (Without that
      proviso it is false: see `SpecNameNotIdempotent`.) */
  lemma SpecNameStable(stem: string, ext: string)
    requires stem != ""
    requires ext in [".yaml", ".yml", ".json"]
    requires Clean(stem) == "" || forall i: nat :: !OccursAt(SpecName(stem), "openapi", i)
    ensures SpecName(Stem(SpecName(stem) + ext)) == SpecName(stem)
  {
    SpecNameShape(stem);
    var n := SpecName(stem);
    StemWithExtension(n, ext);
    if Clean(stem) != "" {
      RemovalsAbsent(n);
      CleanOfRemoved(n);
    }
  }

  /** `p` does not occur at `i` when the two differ at offset `k`. */
  lemma Mismatch(s: string, p: string, i: nat, k: nat)
    requires k < |p| && i + k < |s| && s[i + k] != p[k]
    ensures !OccursAt(s, p, i)
  {
    if i + |p| <= |s| {
      assert s[i..i + |p|][k] == s[i + k];
    }
  }

  /** Neither `-openapi` nor `_openapi` can occur in a string without `-`
      and `_`. */
  lemma PrefixedAbsent(s: string)
    requires '-' !in s && '_' !in s
    ensures RemoveAll(RemoveAll(s, "-openapi"), "_openapi") == s
  {
    RemoveAllAbsentChar(s, "-openapi");
    RemoveAllAbsentChar(s, "_openapi");
  }

  /** Removal can create the pattern it removes: `xopeopenapinapi` becomes
      `xopenapi`, which derives `x`. */
  lemma SpecNameNotIdempotent(stem: string)
    requires stem == "xopeopenapinapi"
    ensures SpecName(stem) == "xopenapi"
    ensures SpecName(Stem(SpecName(stem) + ".yaml")) == "x"
  {
    var n := "xopenapi";
    CleanXopeopenapinapi(stem, n);
    StemWithExtension(n, ".yaml");
    CleanXopenapi(n);
  }

  // Facts about the literals of SpecNameNotIdempotent, one string per
  // lemma so that no proof unfolds more than one literal at a time.
  lemma CleanXopeopenapinapi(stem: string, n: string)
    requires stem == "xopeopenapinapi" && n == "xopenapi"
    ensures SpecName(stem) == n
  {
    RemovedXopeopenapinapi(stem, "xope", "openapi", "napi");
    assert "xope" + "napi" == n;
    CleanOfRemoved(stem);
  }

  lemma CleanXopenapi(n: string)
    requires n == "xopenapi"
    ensures SpecName(n) == "x"
  {
    RemovedXopenapi(n, "x", "openapi");
    CleanOfRemoved(n);
  }

  lemma RemovedXopeopenapinapi(s: string, a: string, p: string, b: string)
    requires a == "xope" && p == "openapi" && b == "napi" && s == a + p + b
    ensures Removed(s) == a + b
  {
    PrefixedAbsent(s);
    RemoveAllXopeopenapinapi(s, a, p, b);
  }

  lemma RemoveAllXopeopenapinapi(s: string, a: string, p: string, b: string)
    requires a == "xope" && p == "openapi" && b == "napi" && s == a + p + b
    ensures RemoveAll(s, p) == a + b
  {
    Mismatch(s, p, 0, 0);
    Mismatch(s, p, 1, 3);
    Mismatch(s, p, 2, 0);
    Mismatch(s, p, 3, 0);
    RemoveAllLeftmost(a, p, b);
  }

  lemma RemovedXopenapi(n: string, a: string, p: string)
    requires a == "x" && p == "openapi" && n == a + p
    ensures Removed(n) == a
  {
    PrefixedAbsent(n);
    assert n == a + p + [];
    RemoveAllLeftmost(a, p, []);
  }

  /** The stem of a non-empty name with a served extension is the name. */
  lemma StemOf(file: string, stem: string, ext: string)
    requires stem != [] && ext in [".yaml", ".yml", ".json"] && file == stem + ext
    ensures Stem(file) == stem
  {
    StemWithExtension(stem, ext);
  }

  /** A stem whose removals leave a well-shaped name is served under it. */
  lemma NameOfRemoved(stem: string, name: string)
    requires Removed(stem) == name
    requires name != [] && '-' !in name && '.' !in name && name[0] != '_' && name[|name| - 1] != '_'
    ensures SpecName(stem) == name
  {
    CleanOfRemoved(stem);
  }

  /** The stem `weather-openapi` of `weather-openapi.yaml` is served as
      `weather`. */
  lemma SpecNameWeather(file: string)
    requires file == "weather-openapi.yaml"
    ensures SpecName(Stem(file)) == "weather"
  {
    WeatherStem(file, "weather-openapi");
    WeatherName("weather-openapi", "weather");
  }

  // Facts about the literals of SpecNameWeather, one string per lemma.
  lemma WeatherStem(file: string, stem: string)
    requires file == "weather-openapi.yaml" && stem == "weather-openapi"
    ensures Stem(file) == stem
  {
    assert file == stem + ".yaml";
    StemOf(file, stem, ".yaml");
  }

  lemma WeatherName(stem: string, name: string)
    requires stem == "weather-openapi" && name == "weather"
    ensures SpecName(stem) == name
  {
    RemovedWeather(stem, name, "-openapi");
    WeatherShape(name);
    NameOfRemoved(stem, name);
  }

  lemma WeatherShape(name: string)
    requires name == "weather"
    ensures name != [] && '-' !in name && '.' !in name && name[0] != '_' && name[|name| - 1] != '_'
  {
  }

  lemma RemovedWeather(s: string, a: string, p: string)
    requires a == "weather" && p == "-openapi" && s == a + p
    ensures Removed(s) == a
  {
    assert s == a + p + [];
    forall i: nat | i < |a| ensures !OccursAt(s, p, i) {
      Mismatch(s, p, i, 0);
    }
    RemoveAllLeftmost(a, p, []);
    assert RemoveAll(s, "-openapi") == a;
    RemoveAllAbsentChar(a, "_openapi");
    RemoveAllAbsentChar(a, "openapi");
  }

  /** A stem that cleans to nothing is served verbatim, `-` and all. */
  lemma SpecNameFallback(file: string)
    requires file == "-openapi.json"
    ensures SpecName(Stem(file)) == "-openapi"
  {
    var stem := "-openapi";
    StemOf(file, stem, ".json");
    assert stem == [] + stem + [];
    RemoveAllLeftmost([], stem, []);
    assert Removed(stem) == [];
    assert Clean(stem) == "";
  }
}
