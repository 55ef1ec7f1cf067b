/** `GET /{spec_name}/info` (spec_server.py:330-380): a summary of one
    registered spec. */
module Info {
  import opened Wrappers
  import opened Document
  import PyDict
  import opened Text
  import opened Naming
  import opened Files

  /** Up to this many paths are listed by name. */
  const MaxListedPaths: nat := 50

  /** The returned dict, without `file_info`'s `path`, `size_bytes` and
      `modified`, which come from the file system. `title`, `version`,
      `description`, `endpoint_paths` and `servers` are whatever the document
      holds there. */
  datatype Summary = Summary(
    specName: string,
    title: Value,
    version: Value,
    description: Value,
    endpoints: nat,
    endpointPaths: Value,
    schemas: nat,
    securitySchemes: nat,
    servers: Value,
    fileName: string,
    fileType: string,
    yamlUrl: string,
    jsonUrl: string,
    downloadUrl: string)

  /** How the handler ends: the summary, a 404 (the name is not registered
      or its file is gone), or a 500 (anything failing inside the `try`). */
  datatype Outcome = Found(summary: Summary) | NotFound | Failed

  /** `endpoint_paths` for `paths` of length `n`: the keys when there are at
      most fifty (only a mapping has keys), a count message otherwise. */
  function EndpointPaths(paths: Value, n: nat): (r: Result<Value>)
    ensures n <= MaxListedPaths ==> (r.Ok? <==> paths.Map?)
    ensures n <= MaxListedPaths && paths.Map? ==> r == Ok(Seq(PyDict.Keys(paths.entries)))
    ensures n > MaxListedPaths ==> r == Ok(Str(NatToString(n) + " endpoints (too many to list)"))
  {
    if n <= MaxListedPaths then
      if paths.Map? then Ok(Seq(PyDict.Keys(paths.entries))) else Err(Raised)
    else Ok(Str(NatToString(n) + " endpoints (too many to list)"))
  }

  /** The dict of lines 350-377 for a loaded document. It exists exactly
      when the document, its `info` and its `components` (each an empty
      mapping when absent) are mappings, `paths`, `schemas` and
      `securitySchemes` have a length, and `paths` has keys if there are at
      most fifty. Each field is the one the source reads, with its default:
      `Unknown` for a missing title or version, `""` for a missing
      description, no paths, schemas or security schemes, and no servers. */
  function Summarize(name: string, file: string, data: Value): (r: Result<Summary>)
    ensures r.Ok? <==>
      && data.Map?
      && InfoOf(data).Map?
      && Len(PathsOf(data)).Ok?
      && EndpointPaths(PathsOf(data), Len(PathsOf(data)).value).Ok?
      && ComponentsOf(data).Map?
      && Len(PyDict.GetOr(ComponentsOf(data).entries, Str("schemas"), Map([]))).Ok?
      && Len(PyDict.GetOr(ComponentsOf(data).entries, Str("securitySchemes"), Map([]))).Ok?
    ensures r.Ok? ==>
      && r.value.specName == name
      && r.value.title == PyDict.GetOr(InfoOf(data).entries, Str("title"), Str("Unknown"))
      && r.value.version == PyDict.GetOr(InfoOf(data).entries, Str("version"), Str("Unknown"))
      && r.value.description == PyDict.GetOr(InfoOf(data).entries, Str("description"), Str(""))
      && r.value.endpoints == Len(PathsOf(data)).value
      && r.value.endpointPaths == EndpointPaths(PathsOf(data), r.value.endpoints).value
      && r.value.schemas == Len(PyDict.GetOr(ComponentsOf(data).entries, Str("schemas"), Map([]))).value
      && r.value.securitySchemes ==
           Len(PyDict.GetOr(ComponentsOf(data).entries, Str("securitySchemes"), Map([]))).value
      && r.value.servers == ServersOf(data)
      && r.value.fileName == file && r.value.fileType == Suffix(file)
      && r.value.yamlUrl == "/" + name + "/openapi.yaml"
      && r.value.jsonUrl == "/" + name + "/openapi.json"
      && r.value.downloadUrl == "/" + name + "/download"
    ensures r.Ok? && Str("title") !in PyDict.Keys(InfoOf(data).entries) ==> r.value.title == Str("Unknown")
    ensures r.Ok? && Str("version") !in PyDict.Keys(InfoOf(data).entries) ==> r.value.version == Str("Unknown")
    ensures r.Ok? && Str("description") !in PyDict.Keys(InfoOf(data).entries) ==> r.value.description == Str("")
    ensures r.Ok? && Str("paths") !in PyDict.Keys(data.entries) ==> r.value.endpoints == 0
    ensures r.Ok? && Str("schemas") !in PyDict.Keys(ComponentsOf(data).entries) ==> r.value.schemas == 0
    ensures r.Ok? && Str("securitySchemes") !in PyDict.Keys(ComponentsOf(data).entries) ==>
      r.value.securitySchemes == 0
    ensures r.Ok? && Str("servers") !in PyDict.Keys(data.entries) ==> r.value.servers == Seq([])
  {
    if !data.Map? then Err(Raised)
    else
      var info := InfoOf(data);
      var paths := PathsOf(data);
      var components := ComponentsOf(data);
      match (Field(info, "title", Str("Unknown")), Field(info, "version", Str("Unknown")),
             Field(info, "description", Str("")), Len(paths))
      case (Ok(title), Ok(version), Ok(description), Ok(n)) =>
        (match (EndpointPaths(paths, n), Field(components, "schemas", Map([])),
                Field(components, "securitySchemes", Map([])))
         case (Ok(listed), Ok(schemas), Ok(schemes)) =>
           (match (Len(schemas), Len(schemes))
            case (Ok(s), Ok(ss)) =>
              Ok(Summary(name, title, version, description, n, listed, s, ss,
                         ServersOf(data), file, Suffix(file),
                         "/" + name + "/openapi.yaml", "/" + name + "/openapi.json", "/" + name + "/download"))
            case _ => Err(Raised))
         case _ => Err(Raised))
      case _ => Err(Raised)
  }

  /** `get_spec_info` over the index: a 404 for an unknown name or a missing
      file, the summary of the loaded document, or a 500 when loading or
      summarizing fails. A file with none of the three suffixes raises an HTTPException(400) inside the `try`, whose
      `except Exception` turns it into a 500 like any other failure. */
  function SpecInfo(disk: Disk, index: seq<(string, string)>, name: string): (r: Outcome)
    ensures r == NotFound <==> name !in PyDict.Keys(index) || !disk.present(PyDict.Get(index, name).value)
    ensures r.Found? <==>
      && name in PyDict.Keys(index)
      && disk.present(PyDict.Get(index, name).value)
      && Load(disk, PyDict.Get(index, name).value).Ok?
      && Load(disk, PyDict.Get(index, name).value).value.Some?
      && Summarize(name, PyDict.Get(index, name).value, Load(disk, PyDict.Get(index, name).value).value.value).Ok?
    ensures r.Found? ==>
      r.summary == Summarize(name, PyDict.Get(index, name).value, Load(disk, PyDict.Get(index, name).value).value.value).value
    ensures r.Found? ==> r.summary.specName == name && r.summary.fileName == PyDict.Get(index, name).value
  {
    match PyDict.Get(index, name)
    case None => NotFound
    case Some(file) =>
      if !disk.present(file) then NotFound
      else
        match Load(disk, file)
        case Ok(Some(data)) =>
          (match Summarize(name, file, data)
           case Ok(s) => Found(s)
           case Err(_) => Failed)
        case _ => Failed
  }

  /** `endpoints` is the number of paths, and `endpoint_paths` lists them,
      in document order, exactly when there are at most fifty. */
  lemma EndpointsOfPaths(name: string, file: string, data: Value)
    requires Summarize(name, file, data).Ok?
    requires Field(data, "paths", Map([])).value.Map?
    ensures Summarize(name, file, data).value.endpoints == |Field(data, "paths", Map([])).value.entries|
    ensures Summarize(name, file, data).value.endpointPaths ==
      var entries := Field(data, "paths", Map([])).value.entries;
      if |entries| <= MaxListedPaths then Seq(PyDict.Keys(entries))
      else Str(NatToString(|entries|) + " endpoints (too many to list)")
  {
  }

  /** Without `info`, the title and version read `Unknown` and the
      description is empty; without `paths`, there are no endpoints; without
      `components`, no schemas and no security schemes; without `servers`,
      an empty list. */
  lemma MissingFields(name: string, file: string, data: Value)
    requires data.Map?
    requires forall key :: key in ["info", "paths", "components", "servers"] ==> Str(key) !in PyDict.Keys(data.entries)
    ensures Summarize(name, file, data).Ok?
    ensures Summarize(name, file, data).value.title == Str("Unknown")
    ensures Summarize(name, file, data).value.version == Str("Unknown")
    ensures Summarize(name, file, data).value.description == Str("")
    ensures Summarize(name, file, data).value.endpoints == 0
    ensures Summarize(name, file, data).value.endpointPaths == Seq([])
    ensures Summarize(name, file, data).value.schemas == 0 && Summarize(name, file, data).value.securitySchemes == 0
    ensures Summarize(name, file, data).value.servers == Seq([])
  {
    assert "info" in ["info", "paths", "components", "servers"];
    assert "paths" in ["info", "paths", "components", "servers"];
    assert "components" in ["info", "paths", "components", "servers"];
    assert "servers" in ["info", "paths", "components", "servers"];
    var none: seq<(Value, Value)> := [];
    assert PyDict.Keys(none) == [];
  }

  /** A registered, existing file that opens but has none of the three
      suffixes makes the handler fail, not report a client error. */
  lemma UnsupportedFails(disk: Disk, index: seq<(string, string)>, name: string)
    requires name in PyDict.Keys(index)
    requires disk.present(PyDict.Get(index, name).value) && disk.opens(PyDict.Get(index, name).value)
    requires !IsJson(PyDict.Get(index, name).value) && !IsYaml(PyDict.Get(index, name).value)
    ensures SpecInfo(disk, index, name) == Failed
  {
  }
}
