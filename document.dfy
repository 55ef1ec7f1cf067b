/** The parsed OpenAPI document: the untyped tree that `json.load` and
    `yaml.safe_load` produce. A mapping keeps its pairs in document order,
    as a Python dict does; keys are themselves values, because YAML keys need
    not be strings. */
module Document {
  import opened Wrappers
  import PyDict

  datatype Value =
    | Map(entries: seq<(Value, Value)>)
    | Seq(items: seq<Value>)
    | Str(s: string)
    | Num(n: real)
    | Bool(b: bool)
    | Null

  /** Python truthiness of a decoded value. */
  predicate Truthy(v: Value)
  {
    match v
    case Map(es) => es != []
    case Seq(xs) => xs != []
    case Str(s) => s != ""
    case Num(n) => n != 0.0
    case Bool(b) => b
    case Null => false
  }

  /** `v.get(key, default)`: defined only on a mapping; anything else has no
      `get` and raises AttributeError. */
  function Field(v: Value, key: string, default: Value): (r: Result<Value>)
    ensures r.Ok? <==> v.Map?
    ensures v.Map? && Str(key) !in PyDict.Keys(v.entries) ==> r == Ok(default)
  {
    if v.Map? then Ok(PyDict.GetOr(v.entries, Str(key), default)) else Err(Raised)
  }

  /** `v.get(key, '')` followed by `.lower()` or another string method: the
      field must be absent or a string. */
  function StrField(v: Value, key: string): (r: Result<string>)
    ensures r.Ok? <==> v.Map? && PyDict.GetOr(v.entries, Str(key), Str("")).Str?
  {
    match Field(v, key, Str(""))
    case Ok(Str(s)) => Ok(s)
    case _ => Err(Raised)
  }

  /** `for x in v`: a list yields its items, a dict its keys, a string its
      one-character strings; numbers, booleans and None are not iterable. */
  function Iterate(v: Value): (r: Result<seq<Value>>)
    ensures r.Ok? <==> v.Map? || v.Seq? || v.Str?
    ensures v.Seq? ==> r == Ok(v.items)
  {
    match v
    case Seq(xs) => Ok(xs)
    case Map(es) => Ok(PyDict.Keys(es))
    case Str(s) => Ok(seq(|s|, i requires 0 <= i < |s| => Str([s[i]])))
    case _ => Err(Raised)
  }

  /** `spec_data.get('info', {})` of a mapping document. */
  function InfoOf(data: Value): Value
    requires data.Map?
  {
    PyDict.GetOr(data.entries, Str("info"), Map([]))
  }

  /** `spec_data.get('servers', [])` of a mapping document. */
  function ServersOf(data: Value): Value
    requires data.Map?
  {
    PyDict.GetOr(data.entries, Str("servers"), Seq([]))
  }

  /** `spec_data.get('paths', {})` of a mapping document. */
  function PathsOf(data: Value): Value
    requires data.Map?
  {
    PyDict.GetOr(data.entries, Str("paths"), Map([]))
  }

  /** `spec_data.get('components', {})` of a mapping document. */
  function ComponentsOf(data: Value): Value
    requires data.Map?
  {
    PyDict.GetOr(data.entries, Str("components"), Map([]))
  }

  /** `len(v)`: defined on mappings, lists and strings only. */
  function Len(v: Value): (r: Result<nat>)
    ensures r.Ok? <==> v.Map? || v.Seq? || v.Str?
    ensures v.Map? ==> r == Ok(|v.entries|)
  {
    match v
    case Map(es) => Ok(|es|)
    case Seq(xs) => Ok(|xs|)
    case Str(s) => Ok(|s|)
    case _ => Err(Raised)
  }
}
