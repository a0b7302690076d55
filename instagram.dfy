/** Instagram archives: the two known categories, `validate`, and the
    early exit and majority-format choice of `extract_instagram_data`. */
module Instagram {
  import opened Json
  import opened Text
  import opened Validation
  import opened Archive
  import Platform

  const JsonEnFiles: seq<string> := [
    "accounts_you're_not_interested_in.json",
    "ads_viewed.json",
    "posts_viewed.json",
    "videos_watched.json",
    "your_topics.json",
    "post_comments.json",
    "liked_posts.json",
    "following.json"
  ]

  const HtmlEnFiles: seq<string> := [
    "accounts_you're_not_interested_in.html",
    "ads_viewed.html",
    "posts_viewed.html",
    "videos_watched.html",
    "your_topics.html",
    "post_comments.html",
    "liked_posts.html",
    "following.html"
  ]

  const DdpCategories: seq<DDPCategory> := [
    DDPCategory("json_en", JSON, EN, JsonEnFiles),
    DDPCategory("html_en", HTML, EN, HtmlEnFiles)
  ]

  const StatusCodes: seq<StatusCode> := [
    StatusCode(0, "Valid DDP", "Valid DDP"),
    StatusCode(1, "Not a valid DDP", "Not a valid DDP"),
    StatusCode(2, "Bad zipfile", "Bad zip")
  ]

  const Suffixes: seq<string> := [".json", ".html"]

  /** The tables are well formed: distinct ids, no empty file list. */
  lemma Tables()
    ensures Inferable(LookupKeys(DdpCategories), LookupMap(DdpCategories))
    ensures LookupKeys(DdpCategories) == ["json_en", "html_en"]
    ensures "json_en" in LookupMap(DdpCategories) && LookupMap(DdpCategories)["json_en"] == DdpCategories[0]
    ensures "html_en" in LookupMap(DdpCategories) && LookupMap(DdpCategories)["html_en"] == DdpCategories[1]
    ensures forall c | 0 <= c < 3 :: c in StatusMap(StatusCodes) && StatusMap(StatusCodes)[c] == StatusCodes[c]
  {
    DistinctTable(DdpCategories);
    DistinctStatusTable(StatusCodes);
  }

  lemma TablesInferable()
    ensures Inferable(LookupKeys(DdpCategories), LookupMap(DdpCategories))
  {
    DistinctTable(DdpCategories);
  }

  /** The category `validate` infers from the entries of an archive. */
  function Category(names: seq<string>): Option<DDPCategory> {
    TablesInferable();
    Platform.Category(DdpCategories, Suffixes, names)
  }

  /** The status id `validate` assigns. */
  function Status(a: Archive): int {
    TablesInferable();
    Platform.Status(DdpCategories, Suffixes, a)
  }

  /** `validate(file)`: the status is one of the three listed codes. */
  method Validate(a: Archive) returns (v: ValidateInput)
    ensures fresh(v)
    ensures v.statusCodes == StatusCodes && v.ddpCategories == DdpCategories
    ensures v.statusCode == Some(StatusCodes[Status(a)])
    ensures v.ddpCategory == if a.Entries? then Category(a.names) else None
    ensures v.validatedPaths == if a.Entries? && Category(a.names).Some? then KeptNames(a.names, Suffixes) else []
  {
    Tables();
    v := Platform.ValidateZip(StatusCodes, DdpCategories, Suffixes, a);
  }

  lemma JsonEnEndings()
    ensures forall i | 0 <= i < |JsonEnFiles| :: EndsWith(JsonEnFiles[i], ".json") && |JsonEnFiles[i]| > 6
  {
  }

  lemma HtmlEnEndings()
    ensures forall i | 0 <= i < |HtmlEnFiles| :: EndsWith(HtmlEnFiles[i], ".html") && |HtmlEnFiles[i]| > 6
  {
  }

  /** Every known file carries a suffix that `validate` keeps. */
  lemma JsonEnKept(i: int)
    requires 0 <= i < |JsonEnFiles|
    ensures Suffix(JsonEnFiles[i]) in Suffixes
  {
    JsonEnEndings();
    SuffixByExt(JsonEnFiles[i], "json");
  }

  lemma HtmlEnKept(i: int)
    requires 0 <= i < |HtmlEnFiles|
    ensures Suffix(HtmlEnFiles[i]) in Suffixes
  {
    HtmlEnEndings();
    SuffixByExt(HtmlEnFiles[i], "html");
  }

  lemma KnownFilesKept(k: string)
    requires k in JsonEnFiles || k in HtmlEnFiles
    ensures Suffix(k) in Suffixes
  {
    if k in JsonEnFiles {
      var i :| 0 <= i < |JsonEnFiles| && JsonEnFiles[i] == k;
      JsonEnKept(i);
    } else {
      var i :| 0 <= i < |HtmlEnFiles| && HtmlEnFiles[i] == k;
      HtmlEnKept(i);
    }
  }

  /** A single known basename among the entries (1 of 8, 12.5%) already
      makes the archive valid. */
  lemma OneKnownFileSuffices(names: seq<string>, i: int)
    requires 0 <= i < |names|
    requires Basename(names[i]) in JsonEnFiles || Basename(names[i]) in HtmlEnFiles
    ensures Status(Entries(names)) == 0
  {
    Tables();
    var k := Basename(names[i]);
    KnownFilesKept(k);
    KeptEntry(names, Suffixes, i);
    var paths := KeptNames(names, Suffixes);
    var j :| 0 <= j < |paths| && paths[j] == k;
    var order := LookupKeys(DdpCategories);
    var lookup := LookupMap(DdpCategories);
    if k in JsonEnFiles {
      HitsPositive(paths, JsonEnFiles, j);
      assert 20 * Hits(paths, lookup[order[0]].knownFiles) >= |lookup[order[0]].knownFiles|;
    } else {
      HitsPositive(paths, HtmlEnFiles, j);
      assert 20 * Hits(paths, lookup[order[1]].knownFiles) >= |lookup[order[1]].knownFiles|;
    }
    InferredIff(order, lookup, paths);
  }

  /** An archive whose basenames miss every known file is invalid. */
  lemma NoKnownFileInvalid(names: seq<string>)
    requires forall i | 0 <= i < |names| :: Basename(names[i]) !in JsonEnFiles && Basename(names[i]) !in HtmlEnFiles
    ensures Status(Entries(names)) == 1
  {
    Tables();
    var paths := KeptNames(names, Suffixes);
    KeptNamesExactly(names, Suffixes);
    NoHits(paths, JsonEnFiles);
    NoHits(paths, HtmlEnFiles);
    InferredIff(LookupKeys(DdpCategories), LookupMap(DdpCategories), paths);
  }

  /** As many JSON as HTML known files among the kept basenames, at least
      one: the scores tie and `json_en`, listed first, wins. */
  lemma TieGoesToJson(names: seq<string>)
    requires Hits(KeptNames(names, Suffixes), JsonEnFiles) == Hits(KeptNames(names, Suffixes), HtmlEnFiles) >= 1
    ensures Category(names) == Some(DdpCategories[0])
  {
    Tables();
    var paths := KeptNames(names, Suffixes);
    var s := Scores(LookupKeys(DdpCategories), LookupMap(DdpCategories), paths);
    assert s[0] == Score(paths, JsonEnFiles);
    assert s[1] == Score(paths, HtmlEnFiles);
    assert s[0] == s[1];
    assert BestIndex(s) == 0;
    ScoreThreshold(paths, JsonEnFiles);
  }

  /** `extract_instagram_data` returns `{}` unless the status is present
      with id 0; after a successful validation it reads the majority-format
      entries, `.json` only with strictly more `.json` entries. */
  lemma ExtractAfterValidation(names: seq<string>)
    ensures Status(Entries(names)) != 0 ==>
      Platform.ExtractPlan(Some(StatusCodes[Status(Entries(names))]), names).None?
    ensures Status(Entries(names)) == 0 ==>
      Platform.ExtractPlan(Some(StatusCodes[Status(Entries(names))]), names)
        == Some((MajorityFormat(names), FilesToProcess(names)))
    ensures MajorityFormat(names) == "json" <==> CountEnding(names, ".json") > CountEnding(names, ".html")
  {
    MajorityRule(names);
  }
}
