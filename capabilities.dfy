/** `extract_capabilities_from_spec` (spec_server.py:64-96): the words that
    describe what an API can do, gathered from the operations of its paths. */
module Capabilities {
  import opened Wrappers
  import opened Document
  import PyDict
  import opened Text
  import opened Tokens
  import opened Ordering

  /** The keys of a path item that name an operation, compared after
      lowercasing. */
  const HttpMethods: set<string> := {"get", "post", "put", "delete", "patch"}

  /** The words never reported as a capability. */
  const CommonWords: set<string> := {
    "get", "post", "put", "delete", "patch", "the", "and", "for", "with", "from",
    "this", "that", "are", "you", "all", "can", "will", "one", "use"
  }

  /** A path segment that is kept: non-empty, not a `{parameter}`, and longer
      than two characters. */
  predicate KeptSegment(seg: string)
  {
    seg != "" && seg[0] != '{' && |seg| > 2
  }

  /** The segments of a lowercased path that become capabilities. */
  function PathSegments(pathLower: string): (r: seq<string>)
    ensures forall k :: 0 <= k < |r| ==> KeptSegment(r[k]) && '/' !in r[k]
    ensures forall seg :: seg in r <==> seg in SplitOn(pathLower, '/') && KeptSegment(seg)
  {
    var pieces := SplitOn(pathLower, '/');
    var r := Filter(pieces, KeptSegment);
    forall seg ensures seg in r <==> seg in pieces && KeptSegment(seg) {
      FilterIn(pieces, KeptSegment, seg);
    }
    r
  }

  predicate LongWord(w: string)
  {
    |w| > 3
  }

  /** The first three words of a lowercased summary longer than three
      characters; none for an empty summary. */
  function SummaryWords(summaryLower: string): (r: seq<string>)
    ensures |r| <= 3
    ensures forall k :: 0 <= k < |r| ==> LongWord(r[k])
    ensures summaryLower == "" ==> r == []
  {
    if summaryLower == "" then [] else Take(Filter(Words(summaryLower), LongWord), 3)
  }

  /** `operation.get('operationId', '')`. */
  function OperationId(op: Value): Value
    requires op.Map?
  {
    PyDict.GetOr(op.entries, Str("operationId"), Str(""))
  }

  /** What one operation contributes, in order: its operationId, its path's
      segments, its summary's first words.

      The operation must be a mapping whose summary and description are
      absent or strings, and the path must be a string. A truthy operationId
      that is not a string is appended as it is and makes the final set
      comprehension raise (a number, a boolean or `len` of it, a list or a
      dict as soon as it is hashed), so it is a failure here already. */
  function OperationTokens(path: Value, op: Value): (r: Result<seq<string>>)
    ensures r.Ok? <==>
      && path.Str?
      && op.Map?
      && (Truthy(OperationId(op)) ==> OperationId(op).Str?)
      && StrField(op, "summary").Ok?
      && StrField(op, "description").Ok?
  {
    if !op.Map? then Err(Raised)
    else
      match (StrField(op, "summary"), StrField(op, "description"))
      case (Ok(summary), Ok(_)) =>
        var id := OperationId(op);
        if !path.Str? || (Truthy(id) && !id.Str?) then Err(Raised)
        else Ok((if Truthy(id) then [id.s] else []) + PathSegments(Lower(path.s)) + SummaryWords(Lower(summary)))
      case _ => Err(Raised)
  }

  /** One `method, operation` pair of a path item: the key must be a string,
      and only the five HTTP methods, in any case, contribute. */
  function MethodTokens(path: Value, entry: (Value, Value)): (r: Result<seq<string>>)
    ensures !entry.0.Str? ==> r.Err?
    ensures entry.0.Str? && Lower(entry.0.s) !in HttpMethods ==> r == Ok([])
    ensures entry.0.Str? && Lower(entry.0.s) in HttpMethods ==> r == OperationTokens(path, entry.1)
  {
    if !entry.0.Str? then Err(Raised)
    else if Lower(entry.0.s) !in HttpMethods then Ok([])
    else OperationTokens(path, entry.1)
  }

  /** `MethodTokens` for the operations of one path. */
  function MethodTokensOn(path: Value): ((Value, Value)) -> Result<seq<string>>
  {
    entry => MethodTokens(path, entry)
  }

  /** One `path, path_item` pair of `paths`: the item must be a mapping. */
  function PathItemTokens(entry: (Value, Value)): (r: Result<seq<string>>)
    ensures !entry.1.Map? ==> r.Err?
  {
    match entry.1
    case Map(ops) => Collect(ops, MethodTokensOn(entry.0))
    case _ => Err(Raised)
  }

  /** The list the loops of lines 69-90 build: the spec must be a mapping, and
      its `paths`, an empty mapping when absent, a mapping too. */
  function RawCapabilities(spec: Value): (r: Result<seq<string>>)
    ensures !spec.Map? ==> r.Err?
  {
    match Field(spec, "paths", Map([]))
    case Ok(Map(ps)) => Collect(ps, PathItemTokens)
    case _ => Err(Raised)
  }

  predicate Meaningful(c: string)
  {
    c !in CommonWords && |c| > 2
  }

  /** What `extract_capabilities_from_spec` returns: the distinct collected
      words that are not common words and are longer than two characters,
      in ascending order. */
  function Capabilities(spec: Value): (r: Result<seq<string>>)
    ensures r.Ok? <==> RawCapabilities(spec).Ok?
    ensures r.Ok? ==> StrictlySorted(r.value)
    ensures r.Ok? ==> forall k :: 0 <= k < |r.value| ==> Meaningful(r.value[k])
  {
    match RawCapabilities(spec)
    case Ok(raw) =>
      var kept := Filter(raw, Meaningful);
      var r := SortedSet(kept);
      assert forall k :: 0 <= k < |r| ==> r[k] in kept;
      Ok(r)
    case Err(e) => Err(e)
  }

  /** `extract_capabilities_from_spec`, with the loop over `paths`. */
  method ExtractCapabilities(spec: Value) returns (r: Result<seq<string>>)
    ensures r == Capabilities(spec)
  {
    var paths := Field(spec, "paths", Map([]));
    if paths.Err? || !paths.value.Map? {
      return Err(Raised);
    }
    var ps := paths.value.entries;
    var capabilities: seq<string> := [];
    for i := 0 to |ps|
      invariant Collect(ps[..i], PathItemTokens) == Ok(capabilities)
    {
      var found := PathOperations(ps[i].0, ps[i].1);
      CollectStep(ps, PathItemTokens, i);
      if found.Err? {
        CollectErr(ps, PathItemTokens, i + 1);
        return Err(found.error);
      }
      capabilities := capabilities + found.value;
    }
    CollectAll(ps, PathItemTokens);
    r := Ok(SortedSet(Filter(capabilities, Meaningful)));
  }

  /** The loop over the operations of one path item. */
  method PathOperations(path: Value, item: Value) returns (r: Result<seq<string>>)
    ensures r == PathItemTokens((path, item))
  {
    if !item.Map? {
      return Err(Raised);
    }
    var ops := item.entries;
    var found: seq<string> := [];
    for j := 0 to |ops|
      invariant Collect(ops[..j], MethodTokensOn(path)) == Ok(found)
    {
      var t := MethodTokens(path, ops[j]);
      CollectStep(ops, MethodTokensOn(path), j);
      if t.Err? {
        CollectErr(ops, MethodTokensOn(path), j + 1);
        return Err(t.error);
      }
      found := found + t.value;
    }
    CollectAll(ops, MethodTokensOn(path));
    r := Ok(found);
  }

  /** A word is reported exactly when some operation collected it and it is
      neither a common word nor shorter than three characters. */
  lemma CapabilityIn(spec: Value, c: string)
    requires RawCapabilities(spec).Ok?
    ensures c in Capabilities(spec).value <==> c in RawCapabilities(spec).value && Meaningful(c)
  {
    FilterIn(RawCapabilities(spec).value, Meaningful, c);
  }

  /** An operation contributes its truthy operationId verbatim, the kept
      segments of its lowercased path and the words its summary yields, and
      nothing else. */
  lemma OperationTokensIn(path: Value, op: Value, c: string)
    requires OperationTokens(path, op).Ok?
    ensures c in OperationTokens(path, op).value <==>
      || (Truthy(OperationId(op)) && c == OperationId(op).s)
      || (c in SplitOn(Lower(path.s), '/') && KeptSegment(c))
      || c in SummaryWords(Lower(StrField(op, "summary").value))
  {
  }

  /** The summary words are the long words of a prefix of the summary: none
      is skipped, and the prefix is the whole summary unless three were
      found. */
  lemma SummaryWordsPrefix(summaryLower: string)
    ensures exists i ::
      && 0 <= i <= |Words(summaryLower)|
      && SummaryWords(summaryLower) == Filter(Words(summaryLower)[..i], LongWord)
      && (i == |Words(summaryLower)| || |SummaryWords(summaryLower)| == 3)
  {
    if summaryLower == "" {
      assert Words(summaryLower) == [];
      assert Words(summaryLower)[..0] == [];
    } else {
      TakeFilterIsPrefix(Words(summaryLower), LongWord, 3);
    }
  }

  /** A path item contributes what its HTTP-method operations contribute. */
  lemma PathItemTokensIn(path: Value, item: Value, c: string)
    requires PathItemTokens((path, item)).Ok?
    ensures c in PathItemTokens((path, item)).value <==>
      exists j ::
        && 0 <= j < |item.entries|
        && item.entries[j].0.Str?
        && Lower(item.entries[j].0.s) in HttpMethods
        && OperationTokens(path, item.entries[j].1).Ok?
        && c in OperationTokens(path, item.entries[j].1).value
  {
    CollectIn(item.entries, MethodTokensOn(path), c);
    CollectOk(item.entries, MethodTokensOn(path));
  }

  /** The collected list holds what the path items contribute. */
  lemma RawCapabilityIn(spec: Value, c: string)
    requires RawCapabilities(spec).Ok?
    ensures c in RawCapabilities(spec).value <==>
      exists i ::
        && 0 <= i < |Paths(spec)|
        && PathItemTokens(Paths(spec)[i]).Ok?
        && c in PathItemTokens(Paths(spec)[i]).value
  {
    CollectIn(Paths(spec), PathItemTokens, c);
  }

  /** The `paths` mapping of a spec whose collection succeeds. */
  function Paths(spec: Value): seq<(Value, Value)>
    requires RawCapabilities(spec).Ok?
  {
    Field(spec, "paths", Map([])).value.entries
  }

  /** The collection fails exactly when the spec is not a mapping, its
      `paths` is not a mapping, or one of the path items fails. */
  lemma RawCapabilitiesOk(spec: Value)
    ensures RawCapabilities(spec).Ok? <==>
      && spec.Map?
      && Field(spec, "paths", Map([])).value.Map?
      && forall i :: 0 <= i < |Field(spec, "paths", Map([])).value.entries| ==>
           PathItemTokens(Field(spec, "paths", Map([])).value.entries[i]).Ok?
  {
    if spec.Map? && Field(spec, "paths", Map([])).value.Map? {
      CollectOk(Field(spec, "paths", Map([])).value.entries, PathItemTokens);
    }
  }

  /** A path item fails exactly when it is not a mapping, has a key that is
      not a string, or one of its HTTP-method operations fails. */
  lemma PathItemTokensOk(path: Value, item: Value)
    ensures PathItemTokens((path, item)).Ok? <==>
      && item.Map?
      && forall j :: 0 <= j < |item.entries| ==>
           && item.entries[j].0.Str?
           && (Lower(item.entries[j].0.s) in HttpMethods ==> OperationTokens(path, item.entries[j].1).Ok?)
  {
    if item.Map? {
      CollectOk(item.entries, MethodTokensOn(path));
    }
  }

  /** A spec without `paths`, or with an empty one, has no capabilities. */
  lemma NoPaths(spec: Value)
    requires spec.Map?
    requires Str("paths") !in PyDict.Keys(spec.entries) || PyDict.Get(spec.entries, Str("paths")) == Some(Map([]))
    ensures Capabilities(spec) == Ok([])
  {
  }
}
