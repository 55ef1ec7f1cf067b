/** The spec registry: a scan of the specs directory into a name -> file
    index (spec_server.py:44-62). The directory is given as the list of the
    names it holds, in the order the file system lists them, or `None` when
    it does not exist. */
module Registry {
  import opened Wrappers
  import opened Naming
  import PyDict
  import opened Tokens

  /** The glob patterns, in the order the scan tries them, written as the
      extension each one requires after its `*`. */
  const Extensions: seq<string> := [".yaml", ".yml", ".json"]

  /** `fnmatch(name, "*" + ext)`: `*` matches any run of characters,
      including an empty one and a leading dot. */
  predicate MatchesPattern(name: string, ext: string)
  {
    |name| >= |ext| && name[|name| - |ext|..] == ext
  }

  /** `SPECS_DIR.glob("*" + ext)`, in listing order. */
  function Glob(listing: seq<string>, ext: string): seq<string>
  {
    Filter(listing, name => MatchesPattern(name, ext))
  }

  /** The files the scan visits, in order: those of the first `p` patterns. */
  function ScanOrderUpTo(listing: seq<string>, p: nat): seq<string>
    requires p <= |Extensions|
  {
    if p == 0 then [] else ScanOrderUpTo(listing, p - 1) + Glob(listing, Extensions[p - 1])
  }

  function ScanOrder(listing: seq<string>): seq<string>
  {
    ScanOrderUpTo(listing, |Extensions|)
  }

  /** The name a file is registered under. */
  function NameOf(file: string): string
  {
    SpecName(Stem(file))
  }

  /** The index after registering each of `files`, one after the other,
      under the name `key` gives it, into an empty dict. */
  function Register<K(==), F>(files: seq<F>, key: F -> K): seq<(K, F)>
  {
    if files == [] then []
    else
      var last := files[|files| - 1];
      PyDict.Put(Register(files[..|files| - 1], key), key(last), last)
  }

  /** What `discover_specs` returns. */
  function Index(dir: Option<seq<string>>): seq<(string, string)>
  {
    match dir
    case None => []
    case Some(listing) => Register(ScanOrder(listing), NameOf)
  }

  /** `discover_specs` (lines 44-62). */
  method DiscoverSpecs(dir: Option<seq<string>>) returns (specs: seq<(string, string)>)
    ensures specs == Index(dir)
    ensures dir.None? ==> specs == []
  {
    if dir.None? {
      specs := [];
    } else {
      specs := ScanListing(dir.value);
    }
  }

  /** The outer loop of lines 52-59, one glob pattern after the other. */
  method ScanListing(listing: seq<string>) returns (specs: seq<(string, string)>)
    ensures specs == Register(ScanOrder(listing), NameOf)
  {
    specs := [];
    for p := 0 to |Extensions|
      invariant specs == Register(ScanOrderUpTo(listing, p), NameOf)
    {
      specs := RegisterMatches(specs, ScanOrderUpTo(listing, p), Glob(listing, Extensions[p]));
    }
  }

  /** The inner loop of lines 53-59: registers the files one glob pattern
      matched, each under its derived name, into the index built so far. */
  method RegisterMatches(specs: seq<(string, string)>, ghost visited: seq<string>, matched: seq<string>)
    returns (r: seq<(string, string)>)
    requires specs == Register(visited, NameOf)
    ensures r == Register(visited + matched, NameOf)
  {
    r := specs;
    EmptyPrefix(visited, matched);
    for k := 0 to |matched|
      invariant r == Register(visited + matched[..k], NameOf)
    {
      var file := matched[k];
      RegisterStep(visited, matched, k, NameOf);
      r := PyDict.Put(r, NameOf(file), file);
    }
    WholePrefix(visited, matched);
  }

  /** One more file registered. */
  lemma RegisterStep<K, F>(visited: seq<F>, matched: seq<F>, k: nat, key: F -> K)
    requires k < |matched|
    ensures Register(visited + matched[..k + 1], key) ==
      PyDict.Put(Register(visited + matched[..k], key), key(matched[k]), matched[k])
  {
    assert visited + matched[..k + 1] == (visited + matched[..k]) + [matched[k]];
    assert ((visited + matched[..k]) + [matched[k]])[..|visited| + k] == visited + matched[..k];
  }

  lemma EmptyPrefix<F>(visited: seq<F>, matched: seq<F>)
    ensures visited + matched[..0] == visited
  {
    assert matched[..0] == [];
  }

  lemma WholePrefix<F>(visited: seq<F>, matched: seq<F>)
    ensures visited + matched[..|matched|] == visited + matched
  {
    assert matched[..|matched|] == matched;
  }

  /** No key of the index occurs twice. */
  lemma {:induction false} RegisterDistinct<K, F>(files: seq<F>, key: F -> K)
    ensures PyDict.DistinctKeys(Register(files, key))
  {
    if files != [] {
      var init := files[..|files| - 1];
      RegisterDistinct(init, key);
      PyDict.PutDistinct(Register(init, key), key(files[|files| - 1]), files[|files| - 1]);
    }
  }

  /** Every registered file's name is a key of the index. */
  lemma {:induction false} RegisterHasKey<K, F>(files: seq<F>, key: F -> K, j: nat)
    requires j < |files|
    ensures key(files[j]) in PyDict.Keys(Register(files, key))
  {
    var init := files[..|files| - 1];
    var last := files[|files| - 1];
    assert Register(files, key) == PyDict.Put(Register(init, key), key(last), last);
    PyDict.PutKeys(Register(init, key), key(last), last, key(files[j]));
    if j < |init| {
      RegisterHasKey(init, key, j);
      assert init[j] == files[j];
    }
  }

  /** Every key of the index is the name of a registered file. */
  lemma {:induction false} RegisterKeyFrom<K, F>(files: seq<F>, key: F -> K, k: K) returns (j: nat)
    requires k in PyDict.Keys(Register(files, key))
    ensures j < |files| && key(files[j]) == k
  {
    var init := files[..|files| - 1];
    if k == key(files[|files| - 1]) {
      j := |files| - 1;
    } else {
      j := RegisterKeyFrom(init, key, k);
      assert init[j] == files[j];
    }
  }

  /** Last write wins: each name maps to the last registered file that
      has it. */
  lemma {:induction false} RegisterLastWins<K, F>(files: seq<F>, key: F -> K, j: nat)
    requires j < |files|
    requires forall j' :: j < j' < |files| ==> key(files[j']) != key(files[j])
    ensures PyDict.Get(Register(files, key), key(files[j])) == Some(files[j])
  {
    var init := files[..|files| - 1];
    if j == |init| {
      RegisterGet(files, key, key(files[j]));
    } else {
      LaterKeysDiffer(files, init, key, j);
      RegisterLastWins(init, key, j);
      assert init[j] == files[j];
      LastWinsStep(files, key, j);
    }
  }

  /** A file whose name the last file does not share keeps its entry. */
  lemma LastWinsStep<K, F>(files: seq<F>, key: F -> K, j: nat)
    requires j < |files| - 1
    requires key(files[|files| - 1]) != key(files[j])
    requires PyDict.Get(Register(files[..|files| - 1], key), key(files[j])) == Some(files[j])
    ensures PyDict.Get(Register(files, key), key(files[j])) == Some(files[j])
  {
    RegisterGet(files, key, key(files[j]));
  }

  /** Reading the index after the last file is registered. */
  lemma RegisterGet<K, F>(files: seq<F>, key: F -> K, k: K)
    requires files != []
    ensures PyDict.Get(Register(files, key), k) ==
      if k == key(files[|files| - 1]) then Some(files[|files| - 1])
      else PyDict.Get(Register(files[..|files| - 1], key), k)
  {
    var last := files[|files| - 1];
    PyDict.PutGet(Register(files[..|files| - 1], key), key(last), last, k);
  }

  /** The hypothesis of `RegisterLastWins` carries over to all but the last
      file. */
  lemma LaterKeysDiffer<K, F>(files: seq<F>, init: seq<F>, key: F -> K, j: nat)
    requires 0 < |files| && init == files[..|files| - 1] && j < |init|
    requires forall j' :: j < j' < |files| ==> key(files[j']) != key(files[j])
    ensures forall j' :: j < j' < |init| ==> key(init[j']) != key(init[j])
  {
    forall j' | j < j' < |init| ensures key(init[j']) != key(init[j]) {
      assert init[j'] == files[j'] && init[j] == files[j];
    }
  }

  /** The keys of the index are the names of the files the scan visits
      (the `.yaml`, then `.yml`, then `.json` matches), and none occurs twice;
      a missing directory gives no keys at all. */
  lemma IndexKeys(listing: seq<string>, k: string)
    ensures Index(None) == []
    ensures PyDict.DistinctKeys(Index(Some(listing)))
    ensures k in PyDict.Keys(Index(Some(listing))) <==>
      exists j :: 0 <= j < |ScanOrder(listing)| && NameOf(ScanOrder(listing)[j]) == k
  {
    var files := ScanOrder(listing);
    RegisterDistinct(files, NameOf);
    if k in PyDict.Keys(Register(files, NameOf)) {
      var j := RegisterKeyFrom(files, NameOf, k);
    }
    if exists j :: 0 <= j < |files| && NameOf(files[j]) == k {
      var j :| 0 <= j < |files| && NameOf(files[j]) == k;
      RegisterHasKey(files, NameOf, j);
    }
  }

  /** Last write wins: a name shared by several files belongs to the last
      of them the scan visits. */
  lemma IndexLastWins(listing: seq<string>, j: nat)
    requires j < |ScanOrder(listing)|
    requires forall j' :: j < j' < |ScanOrder(listing)| ==> NameOf(ScanOrder(listing)[j']) != NameOf(ScanOrder(listing)[j])
    ensures PyDict.Get(Index(Some(listing)), NameOf(ScanOrder(listing)[j])) == Some(ScanOrder(listing)[j])
  {
    RegisterLastWins(ScanOrder(listing), NameOf, j);
  }

  /** Every file the scan visits was listed and ends in one of the three
      extensions. */
  lemma {:induction false} ScanOrderUpToMatches(listing: seq<string>, p: nat, f: string)
    requires p <= |Extensions|
    requires f in ScanOrderUpTo(listing, p)
    ensures f in listing && exists e :: e in Extensions && MatchesPattern(f, e)
  {
    if f !in Glob(listing, Extensions[p - 1]) {
      ScanOrderUpToMatches(listing, p - 1, f);
    }
  }

  /** The scan visits the `.yaml` matches, then the `.yml` ones, then the
      `.json` ones, each group in listing order. */
  lemma ScanOrderIsGlobs(listing: seq<string>)
    ensures ScanOrder(listing) == Glob(listing, ".yaml") + Glob(listing, ".yml") + Glob(listing, ".json")
  {
    assert ScanOrderUpTo(listing, 1) == Glob(listing, ".yaml");
    assert ScanOrderUpTo(listing, 2) == Glob(listing, ".yaml") + Glob(listing, ".yml");
  }

  /** Every file in the index is one of the registered files. */
  lemma {:induction false} RegisterFiles<K, F>(files: seq<F>, key: F -> K, e: (K, F))
    requires e in Register(files, key)
    ensures e.1 in files
  {
    var init := files[..|files| - 1];
    var last := files[|files| - 1];
    PyDict.PutPairs(Register(init, key), key(last), last, e);
    if e != (key(last), last) {
      RegisterFiles(init, key, e);
    }
  }

  /** Every file in the index is listed in the directory and matches one of
      the three patterns. */
  lemma IndexFiles(listing: seq<string>, e: (string, string))
    requires e in Index(Some(listing))
    ensures e.1 in listing && exists ext :: ext in Extensions && MatchesPattern(e.1, ext)
  {
    RegisterFiles(ScanOrder(listing), NameOf, e);
    ScanOrderUpToMatches(listing, |Extensions|, e.1);
  }
}
