/** The second Google Takeout extractor (google_aaaa.py): four known
    categories (`.csv` comments and `My Activity` files in English and
    Dutch), `validate`, the per-data-type file search of
    `extract_zip_content`, the column resolution and rows of
    `parse_csv_content`, and `remove_google_url_prefix`. */
module GoogleAaaa {
  import opened Json
  import opened Text
  import opened Validation
  import opened Archive
  import opened Seqs
  import opened Records

  const JsonEnFiles: seq<string> := ["comments.csv", "My Activity.json", "MyActivity.json", "MyActivities.json", "My Activities.json"]
  const HtmlEnFiles: seq<string> := ["comments.csv", "MyActivity.html", "MyActivities.html", "My Activities.html", "My Activity.html"]
  const JsonNlFiles: seq<string> := ["reacties.csv", "MyActivity.json", "MyActivities.json", "My Activities.json", "My Activity.json"]
  const HtmlNlFiles: seq<string> := ["reacties.csv", "MyActivity.html", "MyActivities.html", "My Activities.html", "My Activity.html"]

  const DdpCategories: seq<DDPCategory> := [
    DDPCategory("json_en", JSON, EN, JsonEnFiles),
    DDPCategory("html_en", HTML, EN, HtmlEnFiles),
    DDPCategory("json_nl", JSON, NL, JsonNlFiles),
    DDPCategory("html_nl", HTML, NL, HtmlNlFiles)
  ]

  const StatusCodes: seq<StatusCode> := [
    StatusCode(0, "Valid DDP", "Valid DDP"),
    StatusCode(1, "Not a valid DDP", "Not a valid DDP"),
    StatusCode(2, "Bad zipfile", "Bad zip")
  ]

  const Suffixes: seq<string> := [".json", ".html", ".csv"]

  /** The tables are well formed: distinct ids, no empty file list. */
  lemma Tables()
    ensures Inferable(LookupKeys(DdpCategories), LookupMap(DdpCategories))
    ensures LookupKeys(DdpCategories) == ["json_en", "html_en", "json_nl", "html_nl"]
    ensures forall i | 0 <= i < 4 :: LookupMap(DdpCategories)[LookupKeys(DdpCategories)[i]] == DdpCategories[i]
    ensures forall c | 0 <= c < 3 :: c in StatusMap(StatusCodes) && StatusMap(StatusCodes)[c] == StatusCodes[c]
  {
    DistinctTable(DdpCategories);
    DistinctStatusTable(StatusCodes);
  }

  lemma TablesInferable()
    ensures Inferable(LookupKeys(DdpCategories), LookupMap(DdpCategories))
  {
    DistinctTable(DdpCategories);
  }

  /** The category `validate` infers from the entries of an archive. */
  function Category(names: seq<string>): Option<DDPCategory> {
    TablesInferable();
    Inferred(LookupKeys(DdpCategories), LookupMap(DdpCategories), KeptNames(names, Suffixes))
  }

  /** The status id `validate` assigns: 2 for `BadZipFile`, 1 for any other
      exception, otherwise 0 exactly when the inferred category is a JSON
      or HTML one. */
  function Status(a: Archive): int {
    match a
    case BadZip => 2
    case OpenFailure => 1
    case Entries(names) =>
      match Category(names)
      case None => 1
      case Some(c) => if c.ddpFiletype == JSON || c.ddpFiletype == HTML then 0 else 1
  }

  /** `validate(file)`: unlike the other platforms, the kept basenames are
      stored in `validated_paths` on every exit, a failed inference
      included. */
  method Validate(a: Archive) returns (v: ValidateInput)
    ensures fresh(v)
    ensures v.statusCodes == StatusCodes && v.ddpCategories == DdpCategories
    ensures v.statusCode == Some(StatusCodes[Status(a)])
    ensures v.ddpCategory == if a.Entries? then Category(a.names) else None
    ensures v.validatedPaths == if a.Entries? then KeptNames(a.names, Suffixes) else []
  {
    Tables();
    v := new ValidateInput(StatusCodes, DdpCategories);
    var paths: seq<string> := [];
    match a
    case BadZip =>
      v.SetStatusCode(2);
    case OpenFailure =>
      v.SetStatusCode(1);
    case Entries(names) =>
      paths := CollectPaths(names, Suffixes);
      var _ := v.InferDdpCategory(paths);
      if v.ddpCategory.None? {
        v.SetStatusCode(1);
      } else if v.ddpCategory.value.ddpFiletype == JSON || v.ddpCategory.value.ddpFiletype == HTML {
        v.SetStatusCode(0);
      } else {
        v.SetStatusCode(1);
      }
    v.validatedPaths := paths;
  }

  /** Every category of the table is a JSON or HTML one, so the archive is
      valid exactly when some category is inferred. */
  lemma ValidIffInferred(names: seq<string>)
    ensures Status(Entries(names)) == 0 <==> Category(names).Some?
  {
    TablesInferable();
    var order := LookupKeys(DdpCategories);
    var lookup := LookupMap(DdpCategories);
    var paths := KeptNames(names, Suffixes);
    if Category(names).Some? {
      InferredIsEarliestMax(order, lookup, paths);
      var b :| 0 <= b < |order| && Category(names).value == lookup[order[b]];
      LookupValues(DdpCategories, order[b]);
    }
  }

  lemma CsvEnding(k: string)
    requires k == "comments.csv" || k == "reacties.csv"
    ensures Suffix(k) in Suffixes
  {
    assert EndsWith(k, ".csv");
    SuffixByExt(k, "csv");
  }

  /** Every known file carries a suffix that `validate` keeps. */
  lemma JsonEnKept(i: int)
    requires 1 <= i < 5
    ensures Suffix(JsonEnFiles[i]) in Suffixes
  {
    assert EndsWith(JsonEnFiles[i], ".json");
    SuffixByExt(JsonEnFiles[i], "json");
  }

  lemma JsonNlKept(i: int)
    requires 1 <= i < 5
    ensures Suffix(JsonNlFiles[i]) in Suffixes
  {
    assert EndsWith(JsonNlFiles[i], ".json");
    SuffixByExt(JsonNlFiles[i], "json");
  }

  lemma HtmlEnKept(i: int)
    requires 1 <= i < 5
    ensures Suffix(HtmlEnFiles[i]) in Suffixes
  {
    assert EndsWith(HtmlEnFiles[i], ".html");
    SuffixByExt(HtmlEnFiles[i], "html");
  }

  lemma HtmlNlKept(i: int)
    requires 1 <= i < 5
    ensures Suffix(HtmlNlFiles[i]) in Suffixes
  {
    assert EndsWith(HtmlNlFiles[i], ".html");
    SuffixByExt(HtmlNlFiles[i], "html");
  }

  lemma KnownFileKept(c: int, i: int)
    requires 0 <= c < 4 && 0 <= i < 5
    ensures Suffix(DdpCategories[c].knownFiles[i]) in Suffixes
  {
    if i == 0 {
      CsvEnding(DdpCategories[c].knownFiles[i]);
    } else if c == 0 {
      JsonEnKept(i);
    } else if c == 1 {
      HtmlEnKept(i);
    } else if c == 2 {
      JsonNlKept(i);
    } else {
      HtmlNlKept(i);
    }
  }

  /** One known basename among the entries (1 of 5, 20%) already makes the
      archive valid. */
  lemma OneKnownFileSuffices(names: seq<string>, n: int, c: int, i: int)
    requires 0 <= n < |names| && 0 <= c < 4 && 0 <= i < 5
    requires Basename(names[n]) == DdpCategories[c].knownFiles[i]
    ensures Status(Entries(names)) == 0
  {
    Tables();
    var known := DdpCategories[c].knownFiles;
    KnownFileKept(c, i);
    KeptEntry(names, Suffixes, n);
    var paths := KeptNames(names, Suffixes);
    var j :| 0 <= j < |paths| && paths[j] == known[i];
    HitsPositive(paths, known, j);
    var order := LookupKeys(DdpCategories);
    assert LookupMap(DdpCategories)[order[c]].knownFiles == known;
    InferredIff(order, LookupMap(DdpCategories), paths);
    ValidIffInferred(names);
  }

  /** A lone `My Activity.json` hits `json_en` and `json_nl`, 1 of 5 each:
      the scores tie and `json_en`, listed first, wins. */
  lemma LoneMyActivity()
    ensures Category(["Takeout/My Activity/My Activity.json"]) == Some(DdpCategories[0])
  {
    MyActivityKept();
    MyActivityScores();
  }

  lemma MyActivityKept()
    ensures KeptNames(["Takeout/My Activity/My Activity.json"], Suffixes) == ["My Activity.json"]
  {
    var f := "Takeout/My Activity/My Activity.json";
    assert f == "Takeout/My Activity" + "/" + "My Activity.json";
    BasenameOfChild("Takeout/My Activity", "My Activity.json");
    JsonSuffix("My Activity.json");
    assert Basenames([f]) == ["My Activity.json"];
    assert Basenames([f])[..0] == [];
  }

  lemma MyActivityScores()
    ensures Inferable(LookupKeys(DdpCategories), LookupMap(DdpCategories))
    ensures Inferred(LookupKeys(DdpCategories), LookupMap(DdpCategories), ["My Activity.json"]) == Some(DdpCategories[0])
  {
    Tables();
    var k := "My Activity.json";
    assert k == JsonEnFiles[1] && k == JsonNlFiles[4];
    assert k !in HtmlEnFiles && k !in HtmlNlFiles;
    HitsSingle(k, JsonEnFiles);
    HitsSingle(k, HtmlEnFiles);
    HitsSingle(k, JsonNlFiles);
    HitsSingle(k, HtmlNlFiles);
    var s := Scores(LookupKeys(DdpCategories), LookupMap(DdpCategories), [k]);
    assert s[0] == 1.0 / 5.0 * 100.0 && s[2] == s[0];
    assert s[1] == 0.0 && s[3] == 0.0;
    assert BestIndex(s[..2]) == 0;
    assert s[..3][..2] == s[..2];
    assert BestIndex(s[..3]) == 0;
    assert s[..3] == s[..|s| - 1];
    assert BestIndex(s) == 0;
  }

  // ---------------------------------------------------------------------
  // `extract_zip_content`: the data format and the per-data-type search.

  /** No name ends in both `.json` and `.html`. */
  lemma JsonNotHtml(f: string)
    requires EndsWith(f, ".json")
    ensures !EndsWith(f, ".html")
  {
    assert f[|f| - 1] == ".json"[4];
  }

  /** The first pass: `.json` entries, and (`elif`) `.html` entries. */
  method CountFormats(names: seq<string>) returns (json: nat, html: nat)
    ensures json == CountEnding(names, ".json") && html == CountEnding(names, ".html")
  {
    json, html := 0, 0;
    for i := 0 to |names|
      invariant json == CountEnding(names[..i], ".json") && html == CountEnding(names[..i], ".html")
    {
      assert names[..i + 1][..i] == names[..i];
      if EndsWith(names[i], ".json") {
        JsonNotHtml(names[i]);
        json := json + 1;
      } else if EndsWith(names[i], ".html") {
        html := html + 1;
      }
    }
    assert names[..|names|] == names;
  }

  /** `max(file_counts, key=file_counts.get)` over `{"json", "html", "csv"}`
      with the `csv` count never incremented: the first key whose count is
      maximal. */
  function DataFormat(json: nat, html: nat): string {
    ["json", "html", "csv"][BestIndex([json as real, html as real, 0.0])]
  }

  /** JSON wins ties, 0/0 included; `csv` is never chosen. */
  lemma DataFormatRule(json: nat, html: nat)
    ensures DataFormat(json, html) == "json" <==> json >= html
    ensures DataFormat(json, html) == "html" <==> html > json
    ensures DataFormat(json, html) != "csv"
  {
    var s := [json as real, html as real, 0.0];
    BestIndexIsFirstMax(s);
    assert s[..2][..1] == [json as real];
    assert s[..2] == s[..|s| - 1];
    if json >= html {
      assert BestIndex(s[..2]) == 0;
      assert BestIndex(s) == 0;
    } else {
      assert BestIndex(s[..2]) == 1;
      assert BestIndex(s) == 1;
    }
  }

  /** A macOS metadata entry: `__MACOSX/...` or `._...`. */
  predicate MacMeta(f: string) {
    StartsWith(f, "__MACOSX/") || StartsWith(f, "._")
  }

  /** The entry test of `extract_zip_content` AS WRITTEN: `and` binds
      tighter than `or`, so every `.csv` entry passes for every base path. */
  predicate AsWrittenSelected(f: string, base: string, fmt: string)
    ensures EndsWith(f, ".csv") ==> AsWrittenSelected(f, base, fmt)
  {
    (StartsWith(f, base) && EndsWith(f, "." + fmt)) || EndsWith(f, ".csv")
  }

  /** The evidently intended test: an entry under the base path, in the
      data format or CSV. */
  predicate Selected(f: string, base: string, fmt: string)
    ensures Selected(f, base, fmt) ==> AsWrittenSelected(f, base, fmt)
  {
    StartsWith(f, base) && (EndsWith(f, "." + fmt) || EndsWith(f, ".csv"))
  }

  /** An entry the search may take: selected, not macOS metadata, and
      parsing to non-empty data (`if data:`). */
  predicate Candidate<D>(sel: (string, string, string) -> bool, load: (string, string) -> seq<D>,
                         dataType: string, base: string, fmt: string, f: string) {
    sel(f, base, fmt) && !MacMeta(f) && load(dataType, f) != []
  }

  /** The first candidate entry for one base path, in archive order. */
  function FirstLoaded<D>(sel: (string, string, string) -> bool, load: (string, string) -> seq<D>,
                          names: seq<string>, dataType: string, base: string, fmt: string): (r: Option<string>)
    ensures r.Some? ==> r.value in names && Candidate(sel, load, dataType, base, fmt, r.value)
    decreases |names|
  {
    if names == [] then None
    else if Candidate(sel, load, dataType, base, fmt, names[0]) then Some(names[0])
    else FirstLoaded(sel, load, names[1..], dataType, base, fmt)
  }

  /** `FirstLoaded` finds nothing exactly when no entry is a candidate, and
      otherwise the earliest one. */
  lemma {:induction false} FirstLoadedIsFirst<D>(sel: (string, string, string) -> bool, load: (string, string) -> seq<D>,
                                                 names: seq<string>, dataType: string, base: string, fmt: string)
    ensures FirstLoaded(sel, load, names, dataType, base, fmt).None? <==>
      forall i | 0 <= i < |names| :: !Candidate(sel, load, dataType, base, fmt, names[i])
    ensures FirstLoaded(sel, load, names, dataType, base, fmt).Some? ==>
      exists i | 0 <= i < |names| :: names[i] == FirstLoaded(sel, load, names, dataType, base, fmt).value
        && forall j | 0 <= j < i :: !Candidate(sel, load, dataType, base, fmt, names[j])
    decreases |names|
  {
    if names != [] && !Candidate(sel, load, dataType, base, fmt, names[0]) {
      FirstLoadedIsFirst(sel, load, names[1..], dataType, base, fmt);
      var r := FirstLoaded(sel, load, names, dataType, base, fmt);
      if r.Some? {
        var i :| 0 <= i < |names[1..]| && names[1..][i] == r.value
          && forall j | 0 <= j < i :: !Candidate(sel, load, dataType, base, fmt, names[1..][j]);
        assert names[i + 1] == r.value;
      }
    }
  }

  /** The entry stored for a data type: the first base path, in order, that
      has a candidate entry decides. */
  function PickFrom<D>(sel: (string, string, string) -> bool, load: (string, string) -> seq<D>,
                       names: seq<string>, dataType: string, bases: seq<string>, fmt: string): (r: Option<string>)
    ensures r.Some? ==> r.value in names && exists b | b in bases :: Candidate(sel, load, dataType, b, fmt, r.value)
    decreases |bases|
  {
    if bases == [] then None
    else
      match FirstLoaded(sel, load, names, dataType, bases[0], fmt)
      case Some(f) => Some(f)
      case None => PickFrom(sel, load, names, dataType, bases[1..], fmt)
  }

  /** `extracted_data` after the data types of `table`, in order. */
  function Extracted<D>(sel: (string, string, string) -> bool, load: (string, string) -> seq<D>,
                        names: seq<string>, table: seq<(string, seq<string>)>, fmt: string): map<string, seq<D>>
  {
    if table == [] then map[]
    else
      var (dataType, bases) := table[|table| - 1];
      var prev := Extracted(sel, load, names, table[..|table| - 1], fmt);
      match PickFrom(sel, load, names, dataType, bases, fmt)
      case None => prev
      case Some(f) => prev[dataType := load(dataType, f)]
  }

  predicate DistinctKeys<V>(table: seq<(string, V)>) {
    forall i, j | 0 <= i < j < |table| :: table[i].0 != table[j].0
  }

  /** With distinct data types, a data type is extracted exactly when its
      search finds an entry, and then holds that entry's data. */
  lemma {:induction false} ExtractedEntries<D>(sel: (string, string, string) -> bool, load: (string, string) -> seq<D>,
                                               names: seq<string>, table: seq<(string, seq<string>)>, fmt: string)
    requires DistinctKeys(table)
    ensures forall k | k in Extracted(sel, load, names, table, fmt) :: exists i | 0 <= i < |table| :: table[i].0 == k
    ensures forall i | 0 <= i < |table| ::
      var r := PickFrom(sel, load, names, table[i].0, table[i].1, fmt);
      && (table[i].0 in Extracted(sel, load, names, table, fmt) <==> r.Some?)
      && (r.Some? ==> Extracted(sel, load, names, table, fmt)[table[i].0] == load(table[i].0, r.value))
  {
    if table != [] {
      var init := table[..|table| - 1];
      assert DistinctKeys(init) by {
        forall i, j | 0 <= i < j < |init| ensures init[i].0 != init[j].0 {
          assert init[i] == table[i] && init[j] == table[j];
        }
      }
      ExtractedEntries(sel, load, names, init, fmt);
      forall i | 0 <= i < |init| ensures init[i] == table[i] {
      }
    }
  }

  /** The data types of `extract_zip_content` with their base paths, Dutch
      first. */
  const BasePaths: seq<(string, seq<string>)> := [
    ("ads", ["Takeout/Mijn activiteit/Advertenties/", "Takeout/My Activity/Ads/"]),
    ("searches", ["Takeout/Mijn activiteit/Zoeken/", "Takeout/My Activity/Search/"]),
    ("browser_history", ["Takeout/Mijn activiteit/Chrome/", "Takeout/My Activity/Chrome/"]),
    ("google_news", ["Takeout/Mijn activiteit/Google Nieuws/", "Takeout/My Activity/Google News/"]),
    ("news", ["Takeout/Mijn activiteit/Nieuws/", "Takeout/My Activity/News/"]),
    ("video_search", ["Takeout/Mijn activiteit/Video_s zoeken/", "Takeout/My Activity/Video Search/"]),
    ("youtube", ["Takeout/Mijn activiteit/YouTube/", "Takeout/My Activity/YouTube/"]),
    ("youtube_comment", ["Takeout/YouTube en YouTube Music/reacties/", "Takeout/YouTube and YouTube Music/comments/"]),
    ("bookmarks", ["Takeout/Chrome/"]),
    ("reading_list", ["Takeout/Chrome/"])
  ]

  lemma BasePathsDistinct()
    ensures DistinctKeys(BasePaths)
  {
  }

  /** The innermost loop: the first candidate entry for one base path,
      under the entry test as written. */
  method FindEntry<D>(load: (string, string) -> seq<D>, names: seq<string>, dataType: string, base: string, fmt: string)
    returns (r: Option<string>)
    ensures r == FirstLoaded(AsWrittenSelected, load, names, dataType, base, fmt)
  {
    for i := 0 to |names|
      invariant FirstLoaded(AsWrittenSelected, load, names, dataType, base, fmt) == FirstLoaded(AsWrittenSelected, load, names[i..], dataType, base, fmt)
    {
      assert names[i..][0] == names[i] && names[i..][1..] == names[i + 1..];
      var f := names[i];
      if AsWrittenSelected(f, base, fmt) {
        if MacMeta(f) {
          continue;
        }
        var data := load(dataType, f);
        if data != [] {
          return Some(f);
        }
      }
    }
    r := None;
  }

  /** The loop over the base paths of one data type, stopping at `found`. */
  method PickEntry<D>(load: (string, string) -> seq<D>, names: seq<string>, dataType: string, bases: seq<string>, fmt: string)
    returns (r: Option<string>)
    ensures r == PickFrom(AsWrittenSelected, load, names, dataType, bases, fmt)
  {
    for i := 0 to |bases|
      invariant PickFrom(AsWrittenSelected, load, names, dataType, bases, fmt) == PickFrom(AsWrittenSelected, load, names, dataType, bases[i..], fmt)
    {
      assert bases[i..][0] == bases[i] && bases[i..][1..] == bases[i + 1..];
      var found := FindEntry(load, names, dataType, bases[i], fmt);
      if found.Some? {
        return found;
      }
    }
    r := None;
  }

  /** `extract_zip_content(google_zip)` on the entries of the archive, with
      `load(data_type, f)` the data the parser for `f`'s extension gives
      (`[]` where it raises). */
  method ExtractZipContent<D>(load: (string, string) -> seq<D>, names: seq<string>)
    returns (format: string, extracted: map<string, seq<D>>)
    ensures format == DataFormat(CountEnding(names, ".json"), CountEnding(names, ".html"))
    ensures extracted == Extracted(AsWrittenSelected, load, names, BasePaths, format)
  {
    var json, html := CountFormats(names);
    format := ["json", "html", "csv"][BestIndex([json as real, html as real, 0.0])];
    extracted := map[];
    for i := 0 to |BasePaths|
      invariant extracted == Extracted(AsWrittenSelected, load, names, BasePaths[..i], format)
    {
      assert BasePaths[..i + 1][..i] == BasePaths[..i];
      var (dataType, bases) := BasePaths[i];
      var found := PickEntry(load, names, dataType, bases, format);
      if found.Some? {
        extracted := extracted[dataType := load(dataType, found.value)];
      }
    }
    assert BasePaths[..|BasePaths|] == BasePaths;
  }

  /** With the intended test, every stored entry lies under one of its data
      type's base paths, has the data format or `.csv` as extension, and is
      not macOS metadata. */
  lemma PickedEntryBelongs<D>(load: (string, string) -> seq<D>, names: seq<string>, i: int, fmt: string)
    requires 0 <= i < |BasePaths|
    requires PickFrom(Selected, load, names, BasePaths[i].0, BasePaths[i].1, fmt).Some?
    ensures var f := PickFrom(Selected, load, names, BasePaths[i].0, BasePaths[i].1, fmt).value;
      && f in names && !MacMeta(f)
      && (exists b | b in BasePaths[i].1 :: StartsWith(f, b))
      && (EndsWith(f, "." + fmt) || EndsWith(f, ".csv"))
  {
  }

  /** As written, every stored entry is an entry of the archive that is
      not macOS metadata and either lies under one of its data type's base
      paths with the data format as extension, or is any `.csv` entry. */
  lemma AsWrittenPickedEntry<D>(load: (string, string) -> seq<D>, names: seq<string>, i: int, fmt: string)
    requires 0 <= i < |BasePaths|
    requires PickFrom(AsWrittenSelected, load, names, BasePaths[i].0, BasePaths[i].1, fmt).Some?
    ensures var f := PickFrom(AsWrittenSelected, load, names, BasePaths[i].0, BasePaths[i].1, fmt).value;
      && f in names && !MacMeta(f) && load(BasePaths[i].0, f) != []
      && ((exists b | b in BasePaths[i].1 :: StartsWith(f, b) && EndsWith(f, "." + fmt)) || EndsWith(f, ".csv"))
  {
  }

  /** Under either entry test, the extraction keeps the entry of each data
      type whose search succeeds, under that data type, and nothing else. */
  lemma ExtractedPerType<D>(sel: (string, string, string) -> bool, load: (string, string) -> seq<D>, names: seq<string>, fmt: string)
    ensures forall k | k in Extracted(sel, load, names, BasePaths, fmt) :: exists i | 0 <= i < |BasePaths| :: BasePaths[i].0 == k
    ensures forall i | 0 <= i < |BasePaths| ::
      var r := PickFrom(sel, load, names, BasePaths[i].0, BasePaths[i].1, fmt);
      && (BasePaths[i].0 in Extracted(sel, load, names, BasePaths, fmt) <==> r.Some?)
      && (r.Some? ==> Extracted(sel, load, names, BasePaths, fmt)[BasePaths[i].0] == load(BasePaths[i].0, r.value))
  {
    BasePathsDistinct();
    ExtractedEntries(sel, load, names, BasePaths, fmt);
  }

  const CommentsCsv := "Takeout/" + "YouTube and YouTube Music/" + "comments/comments.csv"
  const AdsJson := "Takeout/My Activity/Ads/" + "My Activity.json"

  /** A string that differs from `p` at a position of `p` does not start
      with `p`. */
  lemma DiffersAt(s: string, p: string, i: int)
    requires 0 <= i < |p| && i < |s| && s[i] != p[i]
    ensures !StartsWith(s, p)
  {
    if |p| <= |s| {
      assert s[..|p|][i] == s[i];
    }
  }

  /** Every entry parses to some data. */
  function LoadAny(dataType: string, f: string): seq<string> { [f] }

  /** Where the two example entries lie. */
  lemma ExampleEntries()
    ensures EndsWith(CommentsCsv, ".csv") && !MacMeta(CommentsCsv) && !MacMeta(AdsJson)
    ensures !StartsWith(CommentsCsv, "Takeout/Mijn activiteit/Advertenties/") && !StartsWith(CommentsCsv, "Takeout/My Activity/Ads/")
    ensures !StartsWith(AdsJson, "Takeout/Mijn activiteit/Advertenties/")
    ensures StartsWith(AdsJson, "Takeout/My Activity/Ads/") && EndsWith(AdsJson, "." + "json")
  {
    assert EndsWith(CommentsCsv, ".csv");
    DiffersAt(CommentsCsv, "__MACOSX/", 0);
    DiffersAt(CommentsCsv, "._", 0);
    DiffersAt(AdsJson, "__MACOSX/", 0);
    DiffersAt(AdsJson, "._", 0);
    DiffersAt(CommentsCsv, "Takeout/Mijn activiteit/Advertenties/", 8);
    DiffersAt(CommentsCsv, "Takeout/My Activity/Ads/", 8);
    DiffersAt(AdsJson, "Takeout/Mijn activiteit/Advertenties/", 9);
    assert StartsWith(AdsJson, "Takeout/My Activity/Ads/");
    assert EndsWith(AdsJson, "." + "json");
  }

  /** As written, a comment export listed before the ads file is stored as
      the `ads` data, found under the first (Dutch) ads base path it does
      not even lie under; the intended test stores the ads file. */
  lemma CsvTakenForAds()
    ensures AsWrittenSelected(CommentsCsv, "Takeout/Mijn activiteit/Advertenties/", "json")
    ensures !Selected(CommentsCsv, "Takeout/Mijn activiteit/Advertenties/", "json")
    ensures PickFrom(AsWrittenSelected, LoadAny, [CommentsCsv, AdsJson], "ads", BasePaths[0].1, "json") == Some(CommentsCsv)
    ensures PickFrom(Selected, LoadAny, [CommentsCsv, AdsJson], "ads", BasePaths[0].1, "json") == Some(AdsJson)
  {
    ExampleEntries();
    var nl := "Takeout/Mijn activiteit/Advertenties/";
    var en := "Takeout/My Activity/Ads/";
    var names := [CommentsCsv, AdsJson];
    assert names[1..] == [AdsJson] && names[1..][1..] == [];
    assert FirstLoaded(Selected, LoadAny, names, "ads", nl, "json").None?;
    assert FirstLoaded(Selected, LoadAny, names, "ads", en, "json") == Some(AdsJson);
    assert BasePaths[0].1 == [nl, en];
    assert [nl, en][1..] == [en];
  }

  // ---------------------------------------------------------------------
  // `parse_csv_content`, on the rows the CSV reader yields.

  const EnglishHeaders: seq<string> := ["Comment text", "Video ID", "Comment ID", "Parent comment ID", "Comment create timestamp"]
  const DutchHeaders: seq<string> := ["Reactietekst", "Video-id", "Reactie-ID", "Bovenliggende reactie-ID", "Reactiecreatietijdstempel"]

  /** `xs.index(x)`: the first position holding `x`, `None` for `ValueError`. */
  function IndexOf(xs: seq<string>, x: string): (r: Option<nat>)
    ensures r.Some? <==> x in xs
    ensures r.Some? ==> r.value < |xs| && xs[r.value] == x && forall j | 0 <= j < r.value :: xs[j] != x
  {
    if xs == [] then None
    else if xs[0] == x then Some(0)
    else
      match IndexOf(xs[1..], x)
      case None => None
      case Some(i) => Some(i + 1)
  }

  /** One column: the English header if present, else the Dutch one. */
  function Column(headers: seq<string>, k: int): Option<nat>
    requires 0 <= k < 5
  {
    if EnglishHeaders[k] in headers then IndexOf(headers, EnglishHeaders[k]) else IndexOf(headers, DutchHeaders[k])
  }

  /** The five column indices (comment text, video id, comment id, parent
      comment id, timestamp): all resolved from the header row, or, as soon
      as one header is missing, positions 0 to 4. */
  function Columns(headers: seq<string>): (cols: seq<nat>)
    ensures |cols| == 5
  {
    if forall k | 0 <= k < 5 :: Column(headers, k).Some? then
      seq(5, k requires 0 <= k < 5 => Column(headers, k).value)
    else [0, 1, 2, 3, 4]
  }

  /** A column is the first position of its English header when that is
      present and of its Dutch header otherwise, unless some header of the
      five is missing altogether, when every column falls back to its
      position. */
  lemma ColumnsResolved(headers: seq<string>, k: int)
    requires 0 <= k < 5
    ensures (exists m | 0 <= m < 5 :: EnglishHeaders[m] !in headers && DutchHeaders[m] !in headers) ==> Columns(headers)[k] == k
    ensures (forall m | 0 <= m < 5 :: EnglishHeaders[m] in headers || DutchHeaders[m] in headers) ==>
      && (EnglishHeaders[k] in headers ==>
            headers[Columns(headers)[k]] == EnglishHeaders[k]
            && forall j | 0 <= j < Columns(headers)[k] :: headers[j] != EnglishHeaders[k])
      && (EnglishHeaders[k] !in headers ==>
            headers[Columns(headers)[k]] == DutchHeaders[k]
            && forall j | 0 <= j < Columns(headers)[k] :: headers[j] != DutchHeaders[k])
  {
    if exists m | 0 <= m < 5 :: EnglishHeaders[m] !in headers && DutchHeaders[m] !in headers {
      var m :| 0 <= m < 5 && EnglishHeaders[m] !in headers && DutchHeaders[m] !in headers;
      assert Column(headers, m).None?;
      assert [0, 1, 2, 3, 4][k] == k;
    } else {
      forall m | 0 <= m < 5 ensures Column(headers, m).Some? {
      }
    }
  }

  const WatchPrefix := "https://www.youtube.com/watch?v="

  /** The comment title: `""` stays `""`; otherwise the `text` of the decoded
      JSON, or the raw text where decoding fails (`decode` gives `None`).
      A decoded value without `text` raises, skipping the row. */
  function CommentTitle(text: string, decode: string -> Option<Json>): Option<Json> {
    if text == "" then Some(Str(""))
    else
      match decode(text)
      case None => Some(Str(text))
      case Some(v) => Field(v, "text")
  }

  /** A row lacking one of the five columns: its subscript raises
      `IndexError` and the row is skipped. */
  predicate TooShort(cols: seq<nat>, row: seq<string>)
    requires |cols| == 5
  {
    exists k | 0 <= k < 5 :: cols[k] >= |row|
  }

  /** One data row, or `None` where the row is skipped: too short for the
      columns, a decoded comment without `text`, or a date the parser
      `parseDate` (`robust_datetime_parser`) rejects. */
  function CsvRow(cols: seq<nat>, decode: string -> Option<Json>, parseDate: string -> Option<string>, row: seq<string>): (r: Option<Row>)
    requires |cols| == 5
    ensures r.Some? ==> forall k | 0 <= k < 5 :: cols[k] < |row|
    ensures r.Some? ==>
      && r.value.dataType == "youtube_comment" && r.value.action == "Comment"
      && r.value.url == Str(WatchPrefix + row[cols[1]])
      && r.value.details == [("comment_id", Str(row[cols[2]])), ("parent_comment_id", Str(row[cols[3]])), ("video_id", Str(row[cols[1]]))]
  {
    if TooShort(cols, row) then None
    else
      match (CommentTitle(row[cols[0]], decode), parseDate(row[cols[4]]))
      case (Some(title), Some(date)) =>
        Some(Row("youtube_comment", "Comment", title, Str(WatchPrefix + row[cols[1]]), Str(date),
          [("comment_id", Str(row[cols[2]])), ("parent_comment_id", Str(row[cols[3]])), ("video_id", Str(row[cols[1]]))]))
      case _ => None
  }

  /** The comments of the data rows, skipped rows left out. */
  function CsvRows(cols: seq<nat>, decode: string -> Option<Json>, parseDate: string -> Option<string>, data: seq<seq<string>>): seq<Row>
    requires |cols| == 5
  {
    Successes(data, r => CsvRow(cols, decode, parseDate, r))
  }

  /** One more data row adds its comment, unless it is skipped. */
  lemma CsvRowsSnoc(cols: seq<nat>, decode: string -> Option<Json>, parseDate: string -> Option<string>, data: seq<seq<string>>, row: seq<string>)
    requires |cols| == 5
    ensures CsvRows(cols, decode, parseDate, data + [row]) ==
      match CsvRow(cols, decode, parseDate, row)
      case Some(u) => CsvRows(cols, decode, parseDate, data) + [u]
      case None => CsvRows(cols, decode, parseDate, data)
  {
    assert (data + [row])[..|data|] == data;
  }

  /** The rows `parse_csv_content` returns: none without a (non-empty)
      header row, otherwise the data rows that are not skipped. */
  function CsvComments(rows: seq<seq<string>>, decode: string -> Option<Json>, parseDate: string -> Option<string>): seq<Row> {
    if rows == [] || rows[0] == [] then []
    else CsvRows(Columns(rows[0]), decode, parseDate, rows[1..])
  }

  /** `parse_csv_content(csv_content)` on the rows of the decoded text. */
  method ParseCsvContent(rows: seq<seq<string>>, decode: string -> Option<Json>, parseDate: string -> Option<string>)
    returns (comments: seq<Row>)
    ensures comments == CsvComments(rows, decode, parseDate)
  {
    comments := [];
    if rows == [] || rows[0] == [] {
      return;
    }
    var cols := Columns(rows[0]);
    var data := rows[1..];
    for i := 0 to |data|
      invariant comments == CsvRows(cols, decode, parseDate, data[..i])
    {
      var row := data[i];
      assert data[..i + 1] == data[..i] + [row];
      CsvRowsSnoc(cols, decode, parseDate, data[..i], row);
      if TooShort(cols, row) {
        continue;
      }
      var title := CommentTitle(row[cols[0]], decode);
      var date := parseDate(row[cols[4]]);
      if title.Some? && date.Some? {
        comments := comments + [Row("youtube_comment", "Comment", title.value, Str(WatchPrefix + row[cols[1]]), Str(date.value),
          [("comment_id", Str(row[cols[2]])), ("parent_comment_id", Str(row[cols[3]])), ("video_id", Str(row[cols[1]]))])];
      }
    }
    assert data[..|data|] == data;
  }

  /** Every comment links to the video of its own row, and a data row
      too short for the columns yields nothing. */
  lemma CommentsFromRows(rows: seq<seq<string>>, decode: string -> Option<Json>, parseDate: string -> Option<string>)
    ensures |CsvComments(rows, decode, parseDate)| < |rows| || rows == []
    ensures forall c | c in CsvComments(rows, decode, parseDate) ::
      exists i | 1 <= i < |rows| :: Columns(rows[0])[1] < |rows[i]| && c.url == Str(WatchPrefix + rows[i][Columns(rows[0])[1]]) && c.dataType == "youtube_comment"
  {
    if rows != [] && rows[0] != [] {
      var f := r => CsvRow(Columns(rows[0]), decode, parseDate, r);
      var data := rows[1..];
      SuccessesMembers(data, f);
      forall c | c in CsvComments(rows, decode, parseDate)
        ensures exists i | 1 <= i < |rows| :: Columns(rows[0])[1] < |rows[i]| && c.url == Str(WatchPrefix + rows[i][Columns(rows[0])[1]]) && c.dataType == "youtube_comment"
      {
        var i :| 0 <= i < |data| && f(data[i]) == Some(c);
        assert data[i] == rows[i + 1];
      }
    }
  }

  /** A data row shorter than one of its columns is skipped. */
  lemma ShortRowSkipped(cols: seq<nat>, decode: string -> Option<Json>, parseDate: string -> Option<string>, row: seq<string>, k: int)
    requires |cols| == 5 && 0 <= k < 5 && cols[k] >= |row|
    ensures CsvRow(cols, decode, parseDate, row).None?
  {
  }

  /** An empty comment text gives an empty title, and text that is not
      JSON is kept as it is. */
  lemma TitleFallbacks(text: string, decode: string -> Option<Json>)
    ensures text == "" ==> CommentTitle(text, decode) == Some(Str(""))
    ensures text != "" && decode(text).None? ==> CommentTitle(text, decode) == Some(Str(text))
    ensures text != "" && decode(text) == Some(Obj([("text", Str("hi"))])) ==> CommentTitle(text, decode) == Some(Str("hi"))
  {
    var o := Obj([("text", Str("hi"))]);
    assert Lookup(o.fields, "text") == Some(Str("hi"));
  }

  // ---------------------------------------------------------------------

  const GoogleUrlPrefix := "https://www.google.com/url?q="

  /** `remove_google_url_prefix(s)`. */
  function RemoveGoogleUrlPrefix(s: string): (r: string)
    ensures StartsWith(s, GoogleUrlPrefix) ==> GoogleUrlPrefix + r == s
    ensures !StartsWith(s, GoogleUrlPrefix) ==> r == s
  {
    if StartsWith(s, GoogleUrlPrefix) then s[|GoogleUrlPrefix|..] else s
  }

  /** The prefix is removed exactly once: a prefixed string gives back what
      followed the prefix, even when that starts with the prefix again. */
  lemma RemovesPrefixOnce(t: string)
    ensures RemoveGoogleUrlPrefix(GoogleUrlPrefix + t) == t
    ensures RemoveGoogleUrlPrefix(GoogleUrlPrefix + GoogleUrlPrefix + t) == GoogleUrlPrefix + t
  {
    assert (GoogleUrlPrefix + t)[..|GoogleUrlPrefix|] == GoogleUrlPrefix;
    assert GoogleUrlPrefix + GoogleUrlPrefix + t == GoogleUrlPrefix + (GoogleUrlPrefix + t);
    assert (GoogleUrlPrefix + (GoogleUrlPrefix + t))[..|GoogleUrlPrefix|] == GoogleUrlPrefix;
  }

  /** Applying it to its own result changes nothing only when the result
      does not start with the prefix. */
  lemma RemoveIdempotentWhenUnprefixed(s: string)
    requires !StartsWith(RemoveGoogleUrlPrefix(s), GoogleUrlPrefix)
    ensures RemoveGoogleUrlPrefix(RemoveGoogleUrlPrefix(s)) == RemoveGoogleUrlPrefix(s)
  {
  }
}
