# openapi-spec-server, modelled in Dafny

The server scans a directory for OpenAPI documents and derives a spec name from each file name. It then serves an index of them. The root listing describes each spec by its tags and capabilities. Those come from the document's declared tags, its title and description, and the operations of its paths.

This project models that document-analysis core of `spec_server.py`:

- **Names and the registry (`Naming`, `Registry`).**
  - How a file stem becomes a spec name.
  - How `discover_specs` builds the name→file index in glob order. When two files share a name, the last one wins.
- **Capabilities (`Capabilities`).**
  - `extract_capabilities_from_spec`: the operationIds, path segments and summary words of the HTTP-method operations.
  - Those tokens are then filtered, de-duplicated and sorted.
- **Tags (`Tags`).**
  - `extract_tags_from_spec`: the declared tags, plus up to five keywords of the title and description.
- **Derived views.**
  - The root listing (`Listing`): one record per indexed spec whose file exists, or a fallback record when processing it fails.
  - The `/{spec_name}/info` summary (`Info`).

A parsed document is a `Document.Value` tree. A mapping in it is an ordered sequence of key/value pairs, as a Python dict is (`PyDict`). The file system and the JSON and YAML decoders are parameters: `Files.Disk` says which files exist, which open, and what each decoder returns.

Every Python exception that escapes an extractor is the one error `Raised`. The `Result` contracts state exactly when the code raises, not which exception it raises.

Loops in the source are modelled as methods with loop invariants:
- `Registry.DiscoverSpecs`, `Registry.ScanListing` and `Registry.RegisterMatches`;
- `Capabilities.ExtractCapabilities` and `Capabilities.PathOperations`;
- `Tags.ExtractTags`;
- `Listing.Root`.

Each method is proved equal to a specification function. The source's promises are lemmas about those functions.

Where the code and its documentation differ, the model follows the code:

- **Name removal.** Removing `-openapi`, `_openapi` and `openapi` drops every occurrence, not only the first.
- **Names are not idempotent.** Deriving a name is not idempotent in general: `Naming.SpecNameNotIdempotent` shows the stem `xopeopenapinapi` deriving `xopenapi`, which derives `x`. Re-derivation is stable only under the hypothesis of `Naming.SpecNameStable`.
- **Unsupported suffix in `/info`.** A registered file with an unsupported suffix gets no 400 from `/info`. That HTTPException is raised inside the handler's `try`, and the handler's `except Exception` turns it into a 500 (`Info.UnsupportedFails`).
- **Unsupported suffix in the root listing.** The root listing skips such a file; it gets no fallback record. A file that cannot be opened gets the fallback whatever its suffix, because it is opened before its suffix is examined.
- **A file named exactly `.json`, `.yml` or `.yaml`.** Its pathlib suffix is empty, so it is registered and then skipped by the listing. `Listing.DiscoveredListed` assumes no such file.

## Model

| member | source | states |
|---|---|---|
| Text.RemoveAll | spec_server.py:55 | `str.replace(p, "")` never lengthens the string |
| Text.RemoveAllAbsent | spec_server.py:55 | a string without the pattern is returned unchanged |
| Text.RemoveAllLeftmost | spec_server.py:55 | the leftmost occurrence is removed and scanning resumes after it, so every non-overlapping occurrence goes |
| Text.ReplaceChar | spec_server.py:55 | definition of single-character `replace`; properties in `Naming.CleanShape` and `Naming.SpecNameShape` |
| Text.Strip | spec_server.py:55 | `strip(cs)` returns a middle slice whose cut-off ends consist only of characters of `cs` and which neither starts nor ends with one |
| Naming.Suffix | spec_server.py:142 | definition of `Path.suffix`: from the last dot, when that dot is neither first nor last; properties in `Naming.StemWithExtension` |
| Naming.Stem | spec_server.py:55 | definition of `Path.stem`: the name without its suffix; properties in `Naming.StemWithExtension` |
| Naming.Removed | spec_server.py:55 | definition of the three removals, in source order; properties in `Naming.RemovalsAbsent` and `Text.RemoveAllLeftmost` |
| Naming.Clean | spec_server.py:55 | definition of the whole chain: the removals, `-` and `.` to `_`, `_` stripped; properties in `Naming.CleanShape` |
| Naming.SpecName | spec_server.py:55-57 | definition of the served name: the cleaned stem, or the stem when cleaning leaves nothing; properties in `Naming.SpecNameShape` and `Naming.SpecNameStable` |
| Naming.CleanShape | spec_server.py:55 | the cleaned stem has no `-` or `.` and no `_` at either end |
| Naming.RemovalsAbsent | spec_server.py:55 | a name without `openapi` passes the three removals unchanged |
| Naming.SpecNameShape | spec_server.py:55-57 | a non-fallback name has no `-` or `.` and no leading or trailing `_`; the fallback name is the stem verbatim; a non-empty stem never gives an empty name |
| Naming.StemWithExtension | spec_server.py:52-55 | the stem of `n + ext` is `n` and its suffix `ext`, for the three served extensions |
| Naming.SpecNameStable | spec_server.py:55-57 | re-deriving from `name + ext` gives the name back when the name came from the fallback or holds no `openapi` |
| Naming.SpecNameNotIdempotent | spec_server.py:55 | the stem `xopeopenapinapi` gives `xopenapi`, and that re-derives to `x` |
| Naming.SpecNameWeather | spec_server.py:55-57 | `weather-openapi.yaml` is served as `weather` |
| Naming.SpecNameFallback | spec_server.py:56-57 | `-openapi.json` cleans to nothing and is served as `-openapi` |
| PyDict.Get | spec_server.py:332-335 | a lookup fails exactly for a missing key; a found value is paired with the key in the dict |
| PyDict.Put | spec_server.py:59 | `d[k] = v` keeps the key order and appends `k` only when it is new |
| PyDict.PutKeys | spec_server.py:59 | after `d[k] = v` the keys are the old keys and `k` |
| PyDict.PutGet | spec_server.py:59 | after `d[k] = v`, `d[k]` is `v` and every other key reads as before |
| PyDict.PutDistinct | spec_server.py:59 | assignment keeps keys distinct |
| Registry.MatchesPattern | spec_server.py:52-53 | definition of `fnmatch(name, "*" + ext)`: the name ends in `ext`; properties in `Registry.IndexFiles` |
| Registry.Glob | spec_server.py:53 | definition of one pattern's matches, in listing order; properties in `Registry.ScanOrderIsGlobs` |
| Registry.ScanOrderUpTo | spec_server.py:52-53 | definition of the files the first `p` patterns visit, pattern by pattern, each in listing order; properties in `Registry.ScanOrderIsGlobs` and `Registry.ScanOrderUpToMatches` |
| Registry.ScanOrder | spec_server.py:52-53 | definition of the visiting order of all three patterns; properties in `Registry.ScanOrderIsGlobs` |
| Registry.NameOf | spec_server.py:55-57 | definition of the name a file is registered under, the spec name of its stem; properties in `Naming.SpecNameShape` and `Registry.IndexKeys` |
| Registry.Register | spec_server.py:59 | definition of the repeated `specs[name] = file`; properties in `Registry.RegisterLastWins`, `Registry.RegisterDistinct` and `Registry.RegisterHasKey` |
| Registry.Index | spec_server.py:44-62 | definition of what `discover_specs` returns; properties in `Registry.IndexKeys`, `Registry.IndexLastWins` and `Registry.IndexFiles` |
| Registry.DiscoverSpecs | spec_server.py:44-62 | the returned dict is the index of the directory; a missing directory gives an empty dict |
| Registry.ScanListing | spec_server.py:52-59 | the two nested loops build the index of all matches of the three patterns in order |
| Registry.RegisterMatches | spec_server.py:53-59 | registering one pattern's matches extends the index by exactly those files |
| Registry.ScanOrderIsGlobs | spec_server.py:52-53 | the scan visits the `*.yaml` matches, then the `*.yml` ones, then the `*.json` ones |
| Registry.IndexKeys | spec_server.py:47-59 | no directory gives no keys; otherwise keys are distinct and are exactly the names derived from the visited files |
| Registry.IndexLastWins | spec_server.py:52-59 | a name maps to the last visited file that derives it |
| Registry.RegisterLastWins | spec_server.py:59 | for any key function, the last file with a key is the one stored under it |
| Registry.IndexFiles | spec_server.py:52-59 | every indexed file is in the directory and matches one of the three patterns |
| Document.Truthy | spec_server.py:79 | definition of Python truthiness of a decoded value (also at lines 89, 107 and 154); used by the contracts of `Listing.BaseUrl` and `Capabilities.OperationTokens` |
| Document.Field | spec_server.py:67 | `.get(key, default)` needs a mapping and gives the default for a missing key |
| Document.StrField | spec_server.py:72-74 | `.get(key, '').lower()` succeeds exactly on a mapping whose value there is absent or a string |
| Document.Iterate | spec_server.py:103-104 | iteration needs a list, dict or string; a list yields its items |
| Document.Len | spec_server.py:360-363 | `len` is defined on mappings, lists and strings, and a mapping's length is its number of keys |
| Text.Lower | spec_server.py:73-75 | lowercasing keeps the length and lowers each character |
| Text.SplitOn | spec_server.py:83 | `split('/')` gives at least one piece, no piece holds `/`, and joining them gives the path back |
| Tokens.Words | spec_server.py:90 | definition of `str.split()` (also line 118); properties in `Tokens.WordsShape` and `Tokens.WordsJoined` |
| Tokens.WordsShape | spec_server.py:90 | every word of `split()` is non-empty and holds no whitespace |
| Tokens.WordsJoined | spec_server.py:117-118 | the words of `title + " " + description` are the title's words followed by the description's |
| Tokens.Filter | spec_server.py:83 | a comprehension with a condition keeps only elements that pass, and keeps every element that passes |
| Tokens.Take | spec_server.py:91 | `s[:n]` is a prefix of length `min(n, len(s))` |
| Tokens.TakeFilterIsPrefix | spec_server.py:90-91 | the first `n` passing elements are all passing elements of some prefix, which is the whole sequence unless `n` were found |
| Capabilities.KeptSegment | spec_server.py:83-85 | definition of a kept segment: non-empty, not starting with `{`, longer than two characters; properties in `Capabilities.PathSegments` |
| Capabilities.OperationId | spec_server.py:72 | definition of `operation.get('operationId', '')`; used by `Capabilities.OperationTokens` and `Capabilities.OperationTokensIn` |
| Capabilities.LongWord | spec_server.py:90 | definition of a summary word kept: `len(word) > 3`; properties in `Capabilities.SummaryWords` and `Capabilities.SummaryWordsPrefix` |
| Capabilities.PathSegments | spec_server.py:83-86 | a kept segment is a non-empty `/`-piece of the path that does not start with `{` and is longer than two characters |
| Capabilities.SummaryWords | spec_server.py:89-91 | at most three summary words, each longer than three characters, and none for an empty summary |
| Capabilities.SummaryWordsPrefix | spec_server.py:89-91 | the summary words are the long words of a prefix of the summary, in order, and none is skipped |
| Capabilities.OperationTokens | spec_server.py:72-91 | an operation succeeds exactly when it is a mapping, the path is a string, a truthy operationId is a string, and summary and description are absent or strings |
| Capabilities.OperationTokensIn | spec_server.py:79-91 | an operation contributes its truthy operationId verbatim, its kept path segments and its summary words, and nothing else |
| Capabilities.MethodTokens | spec_server.py:70-71 | definition of one `method, operation` pair: a non-string key fails, only the five HTTP methods in any case contribute; properties in `Capabilities.PathItemTokensOk` and `Capabilities.PathItemTokensIn` |
| Capabilities.PathItemTokens | spec_server.py:70 | a path item that is not a mapping fails |
| Capabilities.PathItemTokensOk | spec_server.py:70-74 | a path item fails exactly when it is not a mapping, a key is not a string, or an HTTP-method operation fails |
| Capabilities.PathItemTokensIn | spec_server.py:70-91 | a path item contributes exactly what its HTTP-method operations contribute |
| Capabilities.RawCapabilities | spec_server.py:66-69 | a spec that is not a mapping fails |
| Capabilities.RawCapabilitiesOk | spec_server.py:67-70 | collection succeeds exactly when the spec and its `paths` are mappings and every path item succeeds |
| Capabilities.RawCapabilityIn | spec_server.py:69-91 | the collected words are exactly those some path item contributes |
| Capabilities.Meaningful | spec_server.py:94-95 | definition of a reported word: not a common word and longer than two characters; properties in `Capabilities.Capabilities` and `Capabilities.CapabilityIn` |
| Capabilities.Capabilities | spec_server.py:93-96 | the result is strictly ascending, so sorted and duplicate-free, and every word is longer than two characters and not a common word |
| Capabilities.CapabilityIn | spec_server.py:94-96 | a word is reported exactly when it was collected and is meaningful |
| Capabilities.NoPaths | spec_server.py:67-69 | absent or empty `paths` gives no capabilities |
| Capabilities.ExtractCapabilities | spec_server.py:64-96 | the loop over `paths` computes `Capabilities` |
| Capabilities.PathOperations | spec_server.py:70-91 | the loop over one path item computes that item's contribution |
| Ordering.Less | spec_server.py:96 | definition of Python's `<` on strings, code point by code point with a proper prefix first; properties in `Ordering.LessIrreflexive`, `Ordering.LessTransitive` and `Ordering.LessTotal` |
| Ordering.LessIrreflexive | spec_server.py:96 | no string is less than itself |
| Ordering.LessTransitive | spec_server.py:96 | string `<` is transitive |
| Ordering.LessTotal | spec_server.py:96 | any two different strings are ordered one way or the other |
| Ordering.SortedSet | spec_server.py:95-96 | `sorted(set(xs))` is strictly ascending and holds exactly the elements of `xs` |
| Ordering.StrictlySortedUnique | spec_server.py:96 | two strictly ascending lists with the same elements are equal, so the sorted result does not depend on set order |
| Tags.TagEntries | spec_server.py:103-104 | a spec that is not a mapping fails; otherwise the result is what `for` over `tags` (an empty list when absent) iterates |
| Tags.DeclaredTags | spec_server.py:103-110 | definition of the tags the first loop appends; properties in `Tags.DeclaredTagsIn` and `Tags.DeclaredTagsOk` |
| Tags.InfoText | spec_server.py:113-114 | the lowercased title and description exist only for a mapping spec; properties in `Tags.NoInfo` and `Tags.WeatherCities` |
| Tags.KeptWord | spec_server.py:121-122 | definition of a kept word: longer than three characters and not a stop word, judged before stripping; properties in `Tags.TextTagsPrefix` and `Tags.StopWordAfterStrip` |
| Tags.TagList | spec_server.py:100-125 | definition of the list before `list(set(...))`: the declared tags followed by the text tags; properties in `Tags.TagsIn` |
| Tags.DeclaredTag | spec_server.py:104-110 | a string tag gives itself lowercased; a mapping tag gives its non-empty lowercased name or nothing, and fails on a non-string name; other tags give nothing |
| Tags.DeclaredTagsIn | spec_server.py:103-110 | the declared tags are exactly the lowercased string tags and the lowercased non-empty names of mapping tags |
| Tags.DeclaredTagsOk | spec_server.py:103-106 | declared tags fail exactly when the spec is not a mapping, its `tags` is not iterable, or a mapping tag's name is not a string |
| Tags.NoDeclaredTags | spec_server.py:103 | a spec without `tags` declares none |
| Tags.StripPunctuation | spec_server.py:122 | definition of `word.strip('.,!?;:')`; properties in `Text.Strip` and `Tags.StopWordAfterStrip` |
| Tags.TextTags | spec_server.py:117-125 | at most five text tags |
| Tags.TextTagsPrefix | spec_server.py:122-125 | the text tags are the stripped kept words of a prefix of the words, which is all of them unless five were found |
| Tags.TextTagsOrder | spec_server.py:117-122 | the title's kept words come before the description's |
| Tags.NoInfo | spec_server.py:113-114 | without `info` the text is empty and gives no tags |
| Tags.StopWordAfterStrip | spec_server.py:122 | stop words and length are judged before stripping, so the title `API.` yields the tag `api` |
| Tags.WeatherCities | spec_server.py:113-125 | the title `Weather API for Cities` yields exactly the tags `weather` and `cities` |
| Tags.Tags | spec_server.py:127-128 | the result has no duplicates and holds the same tags as the collected list |
| Tags.TagsIn | spec_server.py:98-128 | a tag is in the result exactly when it is declared or a text tag |
| Tags.ExtractTags | spec_server.py:98-128 | the loop over the declared tags computes `Tags` |
| Ordering.Distinct | spec_server.py:128 | `list(set(xs))` has no duplicates and the same elements as `xs` |
| Files.IsJson | spec_server.py:142 | definition of the JSON branch: the lowercased suffix is `.json`; properties in `Files.Load` |
| Files.IsYaml | spec_server.py:144 | definition of the YAML branch: the lowercased suffix is `.yaml` or `.yml`; properties in `Files.Load` |
| Files.Load | spec_server.py:140-147 | loading fails when the file cannot be opened or its decoder fails; a suffix other than `.json`, `.yaml`, `.yml` (any case) loads nothing |
| Files.LoadRegistered | spec_server.py:142-145 | a file registered under a non-empty stem is decoded by the decoder its pattern names |
| Text.StripSpace | spec_server.py:161 | `strip()` returns a middle slice whose cut-off ends are all whitespace and which neither starts nor ends with whitespace |
| Document.InfoOf | spec_server.py:149 | definition of `spec_data.get('info', {})` (also line 350); used by `Listing.CollectionOf` and `Info.Summarize` |
| Document.ServersOf | spec_server.py:150 | definition of `spec_data.get('servers', [])` (also line 364); used by `Listing.CollectionOf` and `Info.Summarize` |
| Document.PathsOf | spec_server.py:351 | definition of `spec_data.get('paths', {})`; used by `Info.Summarize` |
| Document.ComponentsOf | spec_server.py:352 | definition of `spec_data.get('components', {})`; used by `Info.Summarize` |
| Listing.SpecUrl | spec_server.py:162 | definition of the served URL of a spec (also line 176); used by `Listing.CollectionOf`, `Listing.EntryEmits` and `Listing.DiscoveredListed` |
| Listing.DisplayName | spec_server.py:159 | definition of `spec_name.replace('_', ' ').title()` (also line 173); used by `Listing.CollectionOf` and `Listing.Fallback` |
| Listing.DefaultDescription | spec_server.py:161 | definition of `f"{spec_name.title()} API"` (also line 175); used by `Listing.CollectionOf` |
| Listing.Fallback | spec_server.py:172-179 | definition of the fallback record; properties in `Listing.EntryFallback` |
| Listing.ZeroKeyed | spec_server.py:155 | definition of `servers[0]` on a dict: the value under `0`, which Python also finds as `0.0` or `False`; used by `Listing.BaseUrl` |
| Listing.BaseUrl | spec_server.py:153-155 | falsy `servers` gives `""`; a non-empty list gives its first item's `url`; a truthy string, number or boolean fails |
| Listing.CollectionOf | spec_server.py:149-165 | a record is built exactly when the document and `info` are mappings, the base URL, tags and capabilities succeed and the description is a string; it carries `info`'s title (default the display name), `info`'s description stripped (default the default description), the base URL, the spec's tags and capabilities and its own URL |
| Listing.EntryRecord | spec_server.py:136-179 | definition of what one index entry adds; properties in `Listing.EntryEmits` and `Listing.EntryFallback` |
| Listing.Collections | spec_server.py:133-181 | definition of the returned list; properties in `Listing.CollectionsPerEntry`, `Listing.AllEntriesListed` and `Listing.DiscoveredListed` |
| Listing.Root | spec_server.py:130-181 | the loop with its per-entry `try` computes `Collections` |
| Listing.CollectionsPerEntry | spec_server.py:135-181 | the listing holds one record per entry that emits one, in index order, and it is that entry's record |
| Listing.EntryEmits | spec_server.py:136-147 | an entry emits exactly when its file exists and either fails to open or has a served suffix; the record points at the spec's URL |
| Listing.EntryFallback | spec_server.py:169-179 | a failing entry gets the fallback with empty tags, empty capabilities and an empty base URL; a succeeding one gets its built record |
| Listing.AllEntriesListed | spec_server.py:135-181 | when every file exists and is served, there is one record per entry, in index order |
| Listing.DiscoveredListed | spec_server.py:135-181 | over the index the scan builds, when every file still exists and none is named exactly like an extension, there is one record per entry, in index order, each with its spec's URL |
| Text.Title | spec_server.py:159 | definition of `str.title()` on the letters A to Z (also lines 161, 173 and 175): a letter after a letter is lowered, any other letter raised; used by `Listing.DisplayName` and `Listing.DefaultDescription` |
| Info.EndpointPaths | spec_server.py:361 | definition of `endpoint_paths`: the keys for at most fifty paths, the count message otherwise; properties in `Info.EndpointsOfPaths` |
| Info.Summarize | spec_server.py:350-377 | the summary exists exactly when the document, `info` and `components` are mappings, the counted values have a length and `paths` has keys when listed; title and version default to `Unknown`, the description to `""`, the counts to zero and servers to `[]`; `endpoints` is `len(paths)`, `endpoint_paths` follows the fifty-path rule, and the three URLs are the spec's |
| Info.EndpointsOfPaths | spec_server.py:360-361 | `endpoints` is the number of keys of `paths`, and the keys are listed exactly when there are at most fifty |
| Info.MissingFields | spec_server.py:350-364 | a document without `info`, `paths`, `components` and `servers` has a summary, with the `Unknown` title and version, an empty description, zero counts and no servers |
| Info.SpecInfo | spec_server.py:330-380 | 404 exactly for an unregistered name or missing file; a summary exactly when the file loads to a document that summarizes, and then it is that document's summary; a 500 otherwise |
| Info.UnsupportedFails | spec_server.py:340-348 | an unsupported suffix ends in a 500, not a 400 |
| Text.NatToStringValue | spec_server.py:361 | `str(n)` is a string of digits denoting `n` |
| Text.NatToString | spec_server.py:361 | `str(n)` is a non-empty string of digits, without a leading zero unless `n` is zero |

## Left out

- HTTP plumbing is not modelled: FastAPI routing, CORS, response headers and the mapping of errors to status codes, beyond the Found/NotFound/Failed outcome of `/info`. The other handlers (`/health`, `/specs`, the spec download and conversion routes) are not modelled either. They are web-framework glue, not document analysis.
- The JSON and YAML decoders and encoders are the uninterpreted functions `Disk.json` and `Disk.yaml`. No transcoding round trip is claimed. They are foreign library code.
- The file system is abstract: existence, opening and the directory listing are parameters. So are the order `glob` returns files in, and the fact that it matches directories and dot-files too. It is outside the program.
- `file_info`'s `path`, `size_bytes` and `modified` (a float) are not in `Info.Summary`. `path` is `str(spec_path)`, a file-system path string, and the other two come from `stat()`.
- Info.SpecInfo: a `stat()` that fails after the file has loaded makes `/info` answer 500; the model has no `stat` and answers with the summary there.
- Logging, the module-level `discovered_specs` global and the startup hook are left out. The index is passed as a parameter instead.
- The `__main__` block and `run_spec_server.py` are left out. run_spec_server.py is not part of this model.
- Text.Lower: only the letters A to Z are lowered; Python's full Unicode case mapping is not modelled.
- Text.Title: only the letters A to Z change case; Python's Unicode title-casing is not modelled.
- Tags.Tags: Python returns `list(set(tags))` in hash order. The model keeps first occurrences, and its contracts promise only the elements and the absence of duplicates.
- Capabilities.OperationTokens: a truthy non-string operationId fails here already. In Python the failure comes later, at the final `set`/`len`, with the same outcome for the caller.
- Errors are not distinguished: every exception is `Raised`, and decoder or open failures carry their message only.
- Listing.BaseUrl: on a dict, it looks `servers[0]` up under the keys `0.0` and `False`. Python's hash equality of `0`, `0.0` and `False` is modelled only there. Elsewhere keys compare as decoded values.
- A document mapping with duplicate keys is taken as decoded; the decoders decide what survives.
- `extract_tags_from_spec`'s `spec_name` parameter is unused in the source and dropped.
