/** `extract_tags_from_spec` (spec_server.py:98-128): the tags a collection
    is listed with, from the spec's declared tags and from the words of its
    title and description. */
module Tags {
  import opened Wrappers
  import opened Document
  import opened Text
  import opened Tokens
  import opened Ordering
  import PyDict

  /** The words of the title and description never used as a tag. */
  const TagStopWords: set<string> := {
    "api", "the", "and", "for", "with", "from", "this", "that", "are", "you", "all",
    "can", "will", "one", "use", "get", "via", "about", "information", "data",
    "service", "services"
  }

  /** What is stripped from both ends of a kept word. */
  const Punctuation: set<char> := {'.', ',', '!', '?', ';', ':'}

  /** One entry of the spec's `tags`: a mapping gives its lowercased
      non-empty `name` (which must be absent or a string), a string gives
      itself lowercased (even when empty), anything else nothing. */
  function DeclaredTag(tag: Value): (r: Result<seq<string>>)
    ensures tag.Str? ==> r == Ok([Lower(tag.s)])
    ensures !tag.Map? && !tag.Str? ==> r == Ok([])
    ensures tag.Map? ==> (r.Ok? <==> StrField(tag, "name").Ok?)
    ensures r.Ok? ==> |r.value| <= 1
    ensures tag.Map? && r.Ok? ==> forall t :: t in r.value <==> StrField(tag, "name").value != "" && t == Lower(StrField(tag, "name").value)
  {
    match tag
    case Map(_) =>
      (match StrField(tag, "name")
       case Ok(n) =>
         var name := Lower(n);
         if name == "" then Ok([]) else Ok([name])
       case Err(e) => Err(e))
    case Str(s) => Ok([Lower(s)])
    case _ => Ok([])
  }

  /** The spec's `tags` as the loop of lines 104-111 iterates it: absent
      means an empty list; the spec must be a mapping and `tags` iterable. */
  function TagEntries(spec: Value): (r: Result<seq<Value>>)
    ensures !spec.Map? ==> r.Err?
    ensures spec.Map? ==> r == Iterate(PyDict.GetOr(spec.entries, Str("tags"), Seq([])))
  {
    match Field(spec, "tags", Seq([]))
    case Ok(v) => Iterate(v)
    case Err(e) => Err(e)
  }

  /** The tags the loop of lines 104-111 appends. */
  function DeclaredTags(spec: Value): Result<seq<string>>
  {
    match TagEntries(spec)
    case Ok(entries) => Collect(entries, DeclaredTag)
    case Err(e) => Err(e)
  }

  /** The lowercased `title` and `description` of `info` (an empty mapping
      when absent): `info` must be a mapping and both fields absent or
      strings. */
  function InfoText(spec: Value): (r: Result<(string, string)>)
    ensures r.Ok? ==> spec.Map?
  {
    var info := Field(spec, "info", Map([]));
    if info.Err? then Err(info.error)
    else
      match (StrField(info.value, "title"), StrField(info.value, "description"))
      case (Ok(title), Ok(description)) => Ok((Lower(title), Lower(description)))
      case _ => Err(Raised)
  }

  /** A word of the text worth keeping, judged before its punctuation is
      stripped. */
  predicate KeptWord(w: string)
  {
    |w| > 3 && w !in TagStopWords
  }

  function StripPunctuation(w: string): string
  {
    Strip(w, Punctuation)
  }

  /** The first five kept words of `title + " " + description`, stripped of
      punctuation. */
  function TextTags(title: string, description: string): (r: seq<string>)
    ensures |r| <= 5
  {
    Take(MapSeq(Filter(Words(title + " " + description), KeptWord), StripPunctuation), 5)
  }

  /** The list `tags` holds before the final `list(set(tags))`. */
  function TagList(spec: Value): Result<seq<string>>
  {
    match (DeclaredTags(spec), InfoText(spec))
    case (Ok(declared), Ok((title, description))) => Ok(declared + TextTags(title, description))
    case (Err(e), _) => Err(e)
    case (_, Err(e)) => Err(e)
  }

  /** What `extract_tags_from_spec` returns: each tag once. Python leaves
      the order to the set, so the model keeps the first occurrences. */
  function Tags(spec: Value): (r: Result<seq<string>>)
    ensures r.Ok? <==> TagList(spec).Ok?
    ensures r.Ok? ==> NoDuplicates(r.value) && SameElements(r.value, TagList(spec).value)
  {
    match TagList(spec)
    case Ok(tags) => Ok(Distinct(tags))
    case Err(e) => Err(e)
  }

  /** `extract_tags_from_spec`, with the loop over the declared tags. */
  method ExtractTags(spec: Value) returns (r: Result<seq<string>>)
    ensures r == Tags(spec)
  {
    var entries := TagEntries(spec);
    if entries.Err? {
      return Err(entries.error);
    }
    var tags: seq<string> := [];
    for i := 0 to |entries.value|
      invariant Collect(entries.value[..i], DeclaredTag) == Ok(tags)
    {
      var tag := DeclaredTag(entries.value[i]);
      CollectStep(entries.value, DeclaredTag, i);
      if tag.Err? {
        CollectErr(entries.value, DeclaredTag, i + 1);
        return Err(tag.error);
      }
      tags := tags + tag.value;
    }
    CollectAll(entries.value, DeclaredTag);
    var text := InfoText(spec);
    if text.Err? {
      return Err(text.error);
    }
    var (title, description) := text.value;
    tags := tags + TextTags(title, description);
    r := Ok(Distinct(tags));
  }

  /** The declared tags are, for the entries of `tags` in order, each
      string lowercased and each mapping's non-empty `name` lowercased. */
  lemma DeclaredTagsIn(spec: Value, t: string)
    requires TagEntries(spec).Ok? && DeclaredTags(spec).Ok?
    ensures t in DeclaredTags(spec).value <==>
      exists i :: 0 <= i < |TagEntries(spec).value| && DeclaredFrom(TagEntries(spec).value[i], t)
  {
    var entries := TagEntries(spec).value;
    CollectIn(entries, DeclaredTag, t);
    CollectOk(entries, DeclaredTag);
    if exists i :: 0 <= i < |entries| && DeclaredFrom(entries[i], t) {
      var i :| 0 <= i < |entries| && DeclaredFrom(entries[i], t);
      assert DeclaredTag(entries[i]).Ok? && t in DeclaredTag(entries[i]).value;
    }
  }

  /** `t` is the tag the entry `tag` declares. */
  predicate DeclaredFrom(tag: Value, t: string)
  {
    || (tag.Str? && t == Lower(tag.s))
    || (tag.Map? && StrField(tag, "name").Ok? && StrField(tag, "name").value != "" &&
        t == Lower(StrField(tag, "name").value))
  }

  /** The declared tags fail exactly when the spec is not a mapping, its
      `tags` is not iterable, or a mapping among them has a `name` that is
      not a string. */
  lemma DeclaredTagsOk(spec: Value)
    ensures DeclaredTags(spec).Ok? <==>
      && TagEntries(spec).Ok?
      && forall i :: 0 <= i < |TagEntries(spec).value| && TagEntries(spec).value[i].Map? ==>
           StrField(TagEntries(spec).value[i], "name").Ok?
  {
    if TagEntries(spec).Ok? {
      CollectOk(TagEntries(spec).value, DeclaredTag);
    }
  }

  /** At most five text tags, and they come from a prefix of the words:
      every kept word before the last one used is used, and the prefix is
      the whole text unless five were found. */
  lemma {:induction false} TextTagsPrefix(title: string, description: string)
    ensures exists i ::
      && 0 <= i <= |Words(title + " " + description)|
      && TextTags(title, description) ==
         MapSeq(Filter(Words(title + " " + description)[..i], KeptWord), StripPunctuation)
      && (i == |Words(title + " " + description)| || |TextTags(title, description)| == 5)
  {
    var ws := Words(title + " " + description);
    TakeMap(Filter(ws, KeptWord), StripPunctuation, 5);
    TakeFilterIsPrefix(ws, KeptWord, 5);
    var i :| 0 <= i <= |ws| && Take(Filter(ws, KeptWord), 5) == Filter(ws[..i], KeptWord) &&
      (i == |ws| || |Filter(ws[..i], KeptWord)| == 5);
    assert TextTags(title, description) == MapSeq(Filter(ws[..i], KeptWord), StripPunctuation);
  }

  /** The title's kept words come before the description's. */
  lemma TextTagsOrder(title: string, description: string)
    ensures TextTags(title, description) ==
      Take(MapSeq(Filter(Words(title), KeptWord) + Filter(Words(description), KeptWord), StripPunctuation), 5)
  {
    WordsJoined(title, description);
    FilterAppend(Words(title), Words(description), KeptWord);
  }

  /** A spec without `info` has no text tags. */
  lemma NoInfo(spec: Value)
    requires spec.Map? && Str("info") !in PyDict.Keys(spec.entries)
    ensures InfoText(spec) == Ok(("", ""))
    ensures TextTags(InfoText(spec).value.0, InfoText(spec).value.1) == []
  {
    NoInfoText(spec);
    EmptyText();
  }

  lemma NoInfoText(spec: Value)
    requires spec.Map? && Str("info") !in PyDict.Keys(spec.entries)
    ensures InfoText(spec) == Ok(("", ""))
  {
    var none: seq<(Value, Value)> := [];
    assert PyDict.Keys(none) == [];
  }

  /** Empty text has no tags. */
  lemma EmptyText()
    ensures TextTags("", "") == []
  {
    WordsTrailingSpace("");
    assert Words("") == [];
  }

  /** The result holds exactly the declared tags and the text tags. */
  lemma TagsIn(spec: Value, t: string)
    requires Tags(spec).Ok?
    ensures t in Tags(spec).value <==>
      t in DeclaredTags(spec).value || t in TextTags(InfoText(spec).value.0, InfoText(spec).value.1)
  {
  }

  /** The stop words are checked before the punctuation is stripped, so a
      title "API." yields the tag "api". */
  lemma StopWordAfterStrip(title: string)
    requires title == "api."
    ensures TextTags(title, "") == ["api"]
  {
    ApiWords(title);
    ApiKept(title);
    ApiStripped(title);
    KeptSingle(title, "api");
  }

  /** The text tags of a text that is one kept word. */
  lemma KeptSingle(w: string, t: string)
    requires Words(w + " " + "") == [w] && KeptWord(w) && StripPunctuation(w) == t
    ensures TextTags(w, "") == [t]
  {
    Single(w, t, KeptWord, StripPunctuation);
  }

  lemma Single<T>(x: T, y: T, p: T -> bool, f: T -> T)
    requires p(x) && f(x) == y
    ensures Take(MapSeq(Filter([x], p), f), 5) == [y]
  {
    assert Filter([x], p) == [x];
    assert MapSeq([x], f) == [y];
  }

  // Facts about the literal "api." of StopWordAfterStrip, one per lemma so
  // that no proof unfolds the literal more than once.
  lemma ApiWords(title: string)
    requires title == "api."
    ensures Words(title + " " + "") == [title]
  {
    WordsJoined(title, "");
    ApiNoSpace(title);
    WordsSingle(title);
    assert Words("") == [];
  }

  lemma ApiNoSpace(title: string)
    requires title == "api."
    ensures title != [] && NoSpace(title)
  {
    assert title[0] == 'a' && title[1] == 'p' && title[2] == 'i' && title[3] == '.';
  }

  lemma ApiKept(title: string)
    requires title == "api."
    ensures KeptWord(title)
  {
    assert title[0] == 'a' && title[3] == '.';
  }

  lemma ApiStripped(title: string)
    requires title == "api."
    ensures StripPunctuation(title) == "api"
  {
    assert title[0] !in Punctuation && title[3] in Punctuation && title[2] !in Punctuation;
    assert title[..3] == "api";
    assert StripStart(title, Punctuation) == title;
    assert StripEnd(title[..3], Punctuation) == title[..3];
  }

  // General lemmas about short texts of lowercase words, used by
  // WeatherCities.

  /** A non-empty word of the letters a to z. */
  predicate Letters(w: string)
  {
    w != [] && forall k :: 0 <= k < |w| ==> 'a' <= w[k] <= 'z'
  }

  /** A word of lowercase letters has no whitespace... */
  lemma LettersNoSpace(w: string)
    requires Letters(w)
    ensures NoSpace(w)
  {
  }

  /** ... and no punctuation to strip. */
  lemma LettersUnstripped(w: string)
    requires Letters(w)
    ensures StripPunctuation(w) == w
  {
    assert w[0] !in Punctuation && w[|w| - 1] !in Punctuation;
  }

  /** A text followed by a space and a word of letters splits into the
      text's words and that word. */
  lemma WordsSnoc(text: string, w: string)
    requires Letters(w)
    ensures Words(text + " " + w) == Words(text) + [w]
  {
    WordsJoined(text, w);
    LettersNoSpace(w);
    WordsSingle(w);
  }

  /** Words of letters joined by single spaces split back into them. */
  lemma TwoWords(w1: string, w2: string)
    requires Letters(w1) && Letters(w2)
    ensures Words(w1 + " " + w2) == [w1, w2]
  {
    LettersNoSpace(w1);
    WordsSingle(w1);
    WordsSnoc(w1, w2);
    PairDisplay(w1, w2);
  }

  lemma PairDisplay<T>(a: T, b: T)
    ensures [a] + [b] == [a, b]
  {
  }

  lemma ThreeWords(w1: string, w2: string, w3: string)
    requires Letters(w1) && Letters(w2) && Letters(w3)
    ensures Words(w1 + " " + w2 + " " + w3) == [w1, w2, w3]
  {
    TwoWords(w1, w2);
    WordsSnoc(w1 + " " + w2, w3);
  }

  lemma FourWords(w1: string, w2: string, w3: string, w4: string)
    requires Letters(w1) && Letters(w2) && Letters(w3) && Letters(w4)
    ensures Words(w1 + " " + w2 + " " + w3 + " " + w4 + " " + "") == [w1, w2, w3, w4]
  {
    ThreeWords(w1, w2, w3);
    WordsSnoc(w1 + " " + w2 + " " + w3, w4);
    WordsTrailingSpace(w1 + " " + w2 + " " + w3 + " " + w4);
  }

  /** Of four words, only the first and the last are kept. */
  lemma KeepOuter(w1: string, w2: string, w3: string, w4: string)
    requires KeptWord(w1) && !KeptWord(w2) && !KeptWord(w3) && KeptWord(w4)
    ensures Filter([w1, w2, w3, w4], KeptWord) == [w1, w4]
  {
    var ws := [w1, w2, w3, w4];
    FilterCons(ws, KeptWord);
    FilterCons(ws[1..], KeptWord);
    FilterCons(ws[2..], KeptWord);
    FilterCons(ws[3..], KeptWord);
    assert ws[1..][1..][1..][1..] == [];
  }

  /** Two different tags stay as they are. */
  lemma DistinctPair(a: string, b: string)
    requires a != b
    ensures Distinct([a, b]) == [a, b]
  {
    assert [a, b][..1] == [a];
    assert [a][..0] == [];
    assert Distinct([a]) == [a];
  }

  /** The tags of a title of four lowercase words, of which the outer two
      are kept. */
  lemma OuterTags(w1: string, w2: string, w3: string, w4: string)
    requires Letters(w1) && Letters(w2) && Letters(w3) && Letters(w4)
    requires KeptWord(w1) && !KeptWord(w2) && !KeptWord(w3) && KeptWord(w4)
    ensures TextTags(w1 + " " + w2 + " " + w3 + " " + w4, "") == [w1, w4]
  {
    var text := w1 + " " + w2 + " " + w3 + " " + w4;
    FourWords(w1, w2, w3, w4);
    KeepOuter(w1, w2, w3, w4);
    LettersUnstripped(w1);
    LettersUnstripped(w4);
    OuterMapped(Words(text + " " + ""), w1, w4);
  }

  lemma OuterMapped(ws: seq<string>, w1: string, w4: string)
    requires Filter(ws, KeptWord) == [w1, w4]
    requires StripPunctuation(w1) == w1 && StripPunctuation(w4) == w4
    ensures Take(MapSeq(Filter(ws, KeptWord), StripPunctuation), 5) == [w1, w4]
  {
    MapFixedPair(w1, w4, StripPunctuation);
  }

  lemma MapFixedPair<T>(a: T, b: T, f: T -> T)
    requires f(a) == a && f(b) == b
    ensures Take(MapSeq([a, b], f), 5) == [a, b]
  {
    assert MapSeq([a, b], f) == [a, b];
  }

  /** The title "Weather API for Cities" yields the tags `weather` and
      `cities`: "api" is a stop word and "for" is too short. */
  lemma WeatherCities(spec: Value, title: string)
    requires title == "Weather API for Cities"
    requires spec == Map([(Str("info"), Map([(Str("title"), Str(title))]))])
    ensures InfoText(spec) == Ok(("weather api for cities", ""))
    ensures Tags(spec) == Ok(["weather", "cities"])
  {
    WeatherLower(title);
    WeatherInfo(spec, title);
    WeatherText("weather api for cities");
    WeatherLetters("weather");
    WeatherLetters("api");
    WeatherLetters("for");
    WeatherLetters("cities");
    WeatherKept("weather", "api", "for", "cities");
    OuterTags("weather", "api", "for", "cities");
    WeatherTags(spec, "weather", "cities");
  }

  // Facts about the literals of WeatherCities, one string per lemma.
  lemma WeatherLower(title: string)
    requires title == "Weather API for Cities"
    ensures Lower(title) == "weather api for cities"
  {
  }

  lemma WeatherInfo(spec: Value, title: string)
    requires spec == Map([(Str("info"), Map([(Str("title"), Str(title))]))])
    requires Lower(title) == "weather api for cities"
    ensures InfoText(spec) == Ok(("weather api for cities", ""))
  {
  }

  lemma WeatherText(text: string)
    requires text == "weather api for cities"
    ensures text == "weather" + " " + "api" + " " + "for" + " " + "cities"
  {
  }

  lemma WeatherLetters(w: string)
    requires w == "weather" || w == "api" || w == "for" || w == "cities"
    ensures Letters(w)
  {
  }

  lemma WeatherKept(w1: string, w2: string, w3: string, w4: string)
    requires w1 == "weather" && w2 == "api" && w3 == "for" && w4 == "cities"
    ensures KeptWord(w1) && !KeptWord(w2) && !KeptWord(w3) && KeptWord(w4)
  {
    assert w2 in TagStopWords;
  }

  lemma WeatherTags(spec: Value, a: string, b: string)
    requires spec.Map? && Str("tags") !in PyDict.Keys(spec.entries)
    requires a == "weather" && b == "cities"
    requires InfoText(spec).Ok? && TextTags(InfoText(spec).value.0, InfoText(spec).value.1) == [a, b]
    ensures Tags(spec) == Ok([a, b])
  {
    NoDeclaredTags(spec);
    assert a != b by {
      assert a[0] != b[0];
    }
    OnlyTextTags(spec, a, b);
  }

  /** Without `tags` nothing is declared. */
  lemma NoDeclaredTags(spec: Value)
    requires spec.Map? && Str("tags") !in PyDict.Keys(spec.entries)
    ensures DeclaredTags(spec) == Ok([])
  {
    assert TagEntries(spec) == Ok([]);
  }

  /** Two different text tags and nothing declared are the result. */
  lemma OnlyTextTags(spec: Value, a: string, b: string)
    requires DeclaredTags(spec) == Ok([]) && a != b
    requires InfoText(spec).Ok? && TextTags(InfoText(spec).value.0, InfoText(spec).value.1) == [a, b]
    ensures Tags(spec) == Ok([a, b])
  {
    assert TagList(spec) == Ok([] + [a, b]);
    assert [] + [a, b] == [a, b];
    DistinctPair(a, b);
  }
}
