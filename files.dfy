/** The file access both handlers share: the `with open(...)` block of
    spec_server.py:140-146 and 341-347, which picks the decoder by suffix. */
module Files {
  import opened Wrappers
  import opened Document
  import opened Text
  import opened Naming

  /** The file system and the two decoders, for the files the index names:
      `present` is `Path.exists()`, `opens` tells whether opening the file as
      UTF-8 text succeeds, and `json` and `yaml` are what `json.load` and
      `yaml.safe_load` make of its contents. */
  datatype Disk = Disk(
    present: string -> bool,
    opens: string -> bool,
    json: string -> Result<Value>,
    yaml: string -> Result<Value>)

  predicate IsJson(file: string)
  {
    Lower(Suffix(file)) == ".json"
  }

  predicate IsYaml(file: string)
  {
    Lower(Suffix(file)) == ".yaml" || Lower(Suffix(file)) == ".yml"
  }

  /** The file opened and decoded by its lowercased suffix: `None` when the
      suffix is none of `.json`, `.yaml`, `.yml` (the file is opened first,
      so a file that cannot be opened fails whatever its suffix). */
  function Load(disk: Disk, file: string): (r: Result<Option<Value>>)
    ensures r.Err? <==>
      || !disk.opens(file)
      || (IsJson(file) && disk.json(file).Err?)
      || (!IsJson(file) && IsYaml(file) && disk.yaml(file).Err?)
    ensures r == Ok(None) <==> disk.opens(file) && !IsJson(file) && !IsYaml(file)
    ensures r.Ok? && r.value.Some? ==> r.value.value == (if IsJson(file) then disk.json(file) else disk.yaml(file)).value
  {
    if !disk.opens(file) then Err(ReadError(file))
    else if IsJson(file) then
      match disk.json(file)
      case Ok(v) => Ok(Some(v))
      case Err(e) => Err(e)
    else if IsYaml(file) then
      match disk.yaml(file)
      case Ok(v) => Ok(Some(v))
      case Err(e) => Err(e)
    else Ok(None)
  }

  lemma LowerUnchanged(s: string)
    requires forall k :: 0 <= k < |s| ==> !IsUpper(s[k])
    ensures Lower(s) == s
  {
  }

  /** A file the scan registers under a non-empty stem is decoded by the
      decoder its pattern names. */
  lemma LoadRegistered(stem: string, ext: string)
    requires stem != []
    requires ext in [".yaml", ".yml", ".json"]
    ensures ext == ".json" ==> IsJson(stem + ext)
    ensures ext != ".json" ==> IsYaml(stem + ext) && !IsJson(stem + ext)
  {
    StemWithExtension(stem, ext);
    LowerUnchanged(ext);
  }
}
