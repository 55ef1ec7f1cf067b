/** The root listing (spec_server.py:130-181): one collection record per
    registered spec whose file exists, built from its document, or a fallback
    record when anything on the way fails. */
module Listing {
  import opened Wrappers
  import opened Document
  import PyDict
  import opened Text
  import opened Tokens
  import opened Files
  import Tags
  import Capabilities
  import Registry

  /** One element of the returned list. `name` and `baseUrl` are whatever
      the document holds there, not necessarily strings. */
  datatype Collection = Collection(
    name: Value,
    tags: seq<string>,
    description: string,
    openapiSpec: string,
    capabilities: seq<string>,
    baseUrl: Value)

  /** Where the collection's OpenAPI document is served. */
  function SpecUrl(name: string): string
  {
    "http://0.0.0.0:8001/" + name + "/openapi.json"
  }

  /** `spec_name.replace('_', ' ').title()`. */
  function DisplayName(name: string): string
  {
    Title(ReplaceChar(name, '_', ' '))
  }

  /** `f"{spec_name.title()} API"`. */
  function DefaultDescription(name: string): string
  {
    Title(name) + " API"
  }

  /** The record of lines 172-179 for a spec that could not be processed. */
  function Fallback(name: string): Collection
  {
    Collection(Str(DisplayName(name)), [], DefaultDescription(name), SpecUrl(name), [], Str(""))
  }

  /** `servers[0]` of a dict: the value under the key 0, which in Python is
      also the key `0.0` and the key `False`. */
  function ZeroKeyed(es: seq<(Value, Value)>): Option<Value>
  {
    match PyDict.Get(es, Num(0.0))
    case Some(v) => Some(v)
    case None => PyDict.Get(es, Bool(false))
  }

  /** Lines 153-155: `""` for falsy `servers`; otherwise `len(servers)` must
      be defined and `servers[0].get('url', '')` evaluate. */
  function BaseUrl(servers: Value): (r: Result<Value>)
    ensures !Truthy(servers) ==> r == Ok(Str(""))
    ensures servers.Seq? && servers.items != [] ==>
      r == Field(servers.items[0], "url", Str(""))
    ensures servers.Str? || servers.Num? || servers.Bool? ==> (r.Ok? <==> !Truthy(servers))
  {
    if !Truthy(servers) then Ok(Str(""))
    else
      match servers
      case Seq(xs) => Field(xs[0], "url", Str(""))
      case Map(es) =>
        (match ZeroKeyed(es)
         case Some(first) => Field(first, "url", Str(""))
         case None => Err(Raised))
      case _ => Err(Raised)
  }

  /** The `collection` dict of lines 149-165 for a loaded document. It is
      built exactly when the document and its `info` are mappings, the base
      URL, the tags and the capabilities can be computed, and the
      description is a string; otherwise the entry falls back. Its name is
      `info`'s title and its description `info`'s description stripped,
      each defaulting to the spec name's display forms. */
  function CollectionOf(name: string, data: Value): (r: Result<Collection>)
    ensures r.Ok? <==>
      && data.Map?
      && InfoOf(data).Map?
      && BaseUrl(ServersOf(data)).Ok?
      && Tags.Tags(data).Ok?
      && Capabilities.Capabilities(data).Ok?
      && PyDict.GetOr(InfoOf(data).entries, Str("description"), Str(DefaultDescription(name))).Str?
    ensures r.Ok? ==>
      && r.value.name == PyDict.GetOr(InfoOf(data).entries, Str("title"), Str(DisplayName(name)))
      && r.value.description ==
           StripSpace(PyDict.GetOr(InfoOf(data).entries, Str("description"), Str(DefaultDescription(name))).s)
      && r.value.baseUrl == BaseUrl(ServersOf(data)).value
      && Tags.Tags(data) == Ok(r.value.tags)
      && Capabilities.Capabilities(data) == Ok(r.value.capabilities)
      && r.value.openapiSpec == SpecUrl(name)
    ensures r.Ok? && Str("title") !in PyDict.Keys(InfoOf(data).entries) ==>
      r.value.name == Str(DisplayName(name))
    ensures r.Ok? && Str("description") !in PyDict.Keys(InfoOf(data).entries) ==>
      r.value.description == StripSpace(DefaultDescription(name))
  {
    if !data.Map? then Err(Raised)
    else
      var info := InfoOf(data);
      match (BaseUrl(ServersOf(data)), Field(info, "title", Str(DisplayName(name))), Tags.Tags(data),
             Field(info, "description", Str(DefaultDescription(name))), Capabilities.Capabilities(data))
      case (Ok(url), Ok(title), Ok(tags), Ok(Str(d)), Ok(caps)) =>
        Ok(Collection(title, tags, StripSpace(d), SpecUrl(name), caps, url))
      case _ => Err(Raised)
  }

  /** What one registry entry adds to the listing (lines 136-179): nothing
      when its file is missing or has another suffix, the fallback when the
      file cannot be read or decoded or its record cannot be built. */
  function EntryRecord(disk: Disk, name: string, file: string): Option<Collection>
  {
    if !disk.present(file) then None
    else
      match Load(disk, file)
      case Err(_) => Some(Fallback(name))
      case Ok(None) => None
      case Ok(Some(data)) =>
        match CollectionOf(name, data)
        case Ok(c) => Some(c)
        case Err(_) => Some(Fallback(name))
  }

  function EntryRecordOf(disk: Disk): ((string, string)) -> Option<Collection>
  {
    (entry: (string, string)) => EntryRecord(disk, entry.0, entry.1)
  }

  /** The list `root` returns for the index: the entries' records, in index
      order. */
  function Collections(disk: Disk, index: seq<(string, string)>): seq<Collection>
  {
    Somes(index, EntryRecordOf(disk))
  }

  /** `root`: the loop of lines 135-179, with its per-entry `try`. */
  method Root(disk: Disk, index: seq<(string, string)>) returns (collections: seq<Collection>)
    ensures collections == Collections(disk, index)
  {
    collections := [];
    for i := 0 to |index|
      invariant collections == Somes(index[..i], EntryRecordOf(disk))
    {
      var (name, file) := index[i];
      SomesStep(index, EntryRecordOf(disk), i);
      if !disk.present(file) {
        continue;
      }
      var loaded := Load(disk, file);
      if loaded.Err? {
        collections := collections + [Fallback(name)];
        continue;
      }
      if loaded.value.None? {
        continue;
      }
      var collection := CollectionOf(name, loaded.value.value);
      if collection.Ok? {
        collections := collections + [collection.value];
      } else {
        collections := collections + [Fallback(name)];
      }
    }
    SomesAll(index, EntryRecordOf(disk));
  }

  /** The listing holds, in index order, exactly one record for each entry
      that emits one, and it is that entry's record. */
  lemma CollectionsPerEntry(disk: Disk, index: seq<(string, string)>)
    ensures |Collections(disk, index)| == |Filter(index, Defined(EntryRecordOf(disk)))|
    ensures forall k :: 0 <= k < |Collections(disk, index)| ==>
      var entry := Filter(index, Defined(EntryRecordOf(disk)))[k];
      EntryRecord(disk, entry.0, entry.1) == Some(Collections(disk, index)[k])
  {
    SomesPerElement(index, EntryRecordOf(disk));
  }

  /** An entry emits a record exactly when its file exists and either cannot
      be opened or has one of the three suffixes; the record always points at
      the spec's own URL. */
  lemma EntryEmits(disk: Disk, name: string, file: string)
    ensures EntryRecord(disk, name, file).Some? <==>
      disk.present(file) && (!disk.opens(file) || IsJson(file) || IsYaml(file))
    ensures EntryRecord(disk, name, file).Some? ==> EntryRecord(disk, name, file).value.openapiSpec == SpecUrl(name)
  {
  }

  /** A failing entry gets the fallback record: empty tags, empty
      capabilities, an empty base URL, and the name and description made from
      the spec name. A succeeding one gets the record built from its
      document. */
  lemma EntryFallback(disk: Disk, name: string, file: string)
    requires disk.present(file)
    ensures Load(disk, file).Err? ==> EntryRecord(disk, name, file) == Some(Fallback(name))
    ensures Load(disk, file).Ok? && Load(disk, file).value.Some? ==>
      EntryRecord(disk, name, file) ==
        (match CollectionOf(name, Load(disk, file).value.value)
         case Ok(c) => Some(c)
         case Err(_) => Some(Fallback(name)))
    ensures
      && Fallback(name).tags == []
      && Fallback(name).capabilities == []
      && Fallback(name).baseUrl == Str("")
      && Fallback(name).name == Str(DisplayName(name))
      && Fallback(name).description == DefaultDescription(name)
      && Fallback(name).openapiSpec == SpecUrl(name)
  {
  }

  /** When every entry's file exists and can be opened or has a served
      suffix, the listing has one record per entry, in index order. */
  lemma AllEntriesListed(disk: Disk, index: seq<(string, string)>)
    requires forall k :: 0 <= k < |index| ==>
      disk.present(index[k].1) && (!disk.opens(index[k].1) || IsJson(index[k].1) || IsYaml(index[k].1))
    ensures |Collections(disk, index)| == |index|
    ensures forall k :: 0 <= k < |index| ==>
      EntryRecord(disk, index[k].0, index[k].1) == Some(Collections(disk, index)[k])
    ensures forall k :: 0 <= k < |index| ==> Collections(disk, index)[k].openapiSpec == SpecUrl(index[k].0)
  {
    SomesPerElement(index, EntryRecordOf(disk));
    forall k | 0 <= k < |index| ensures Defined(EntryRecordOf(disk))(index[k]) {
      EntryEmits(disk, index[k].0, index[k].1);
    }
    AllKept(index, Defined(EntryRecordOf(disk)));
    forall k | 0 <= k < |index| ensures Collections(disk, index)[k].openapiSpec == SpecUrl(index[k].0) {
      EntryEmits(disk, index[k].0, index[k].1);
    }
  }

  lemma {:induction false} AllKept<T>(s: seq<T>, p: T -> bool)
    requires forall k :: 0 <= k < |s| ==> p(s[k])
    ensures Filter(s, p) == s
  {
    if s != [] {
      AllKept(s[1..], p);
    }
  }

  /** Over the index the scan builds, every entry whose file still exists
      gets exactly one record, in index order, unless the file is named
      exactly `.yaml`, `.yml` or `.json` (its suffix is then empty). */
  lemma DiscoveredListed(disk: Disk, listing: seq<string>)
    requires forall e :: e in Registry.Index(Some(listing)) ==>
      disk.present(e.1) && e.1 !in Registry.Extensions
    ensures |Collections(disk, Registry.Index(Some(listing)))| == |Registry.Index(Some(listing))|
    ensures forall k :: 0 <= k < |Registry.Index(Some(listing))| ==>
      Collections(disk, Registry.Index(Some(listing)))[k].openapiSpec == SpecUrl(Registry.Index(Some(listing))[k].0)
  {
    var index := Registry.Index(Some(listing));
    forall k | 0 <= k < |index| ensures IsJson(index[k].1) || IsYaml(index[k].1) {
      Registry.IndexFiles(listing, index[k]);
      var ext :| ext in Registry.Extensions && Registry.MatchesPattern(index[k].1, ext);
      ServedSuffix(index[k].1, ext);
    }
    AllEntriesListed(disk, index);
  }

  /** A file matching a pattern, and longer than its extension, is decoded by
      the decoder the extension names. */
  lemma ServedSuffix(file: string, ext: string)
    requires ext in Registry.Extensions && Registry.MatchesPattern(file, ext) && file != ext
    ensures IsJson(file) || IsYaml(file)
  {
    var stem := file[..|file| - |ext|];
    assert file == stem + ext;
    LoadRegistered(stem, ext);
  }
}
