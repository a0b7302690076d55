/** Facebook archives: the two known categories, `validate`, the
    majority-format choice of `extract_facebook_data`, and the
    `times_interacted` field of group interactions. */
module Facebook {
  import opened Json
  import opened Text
  import opened Validation
  import opened Archive
  import Platform

  const JsonEnFiles: seq<string> := [
    "group_interactions.json",
    "ad_preferences.json",
    "your_posts_1.json",
    "advertisers_using_your_activity_or_information.json",
    "advertisers_you've_interacted_with.json",
    "comments.json",
    "likes_and_reactions_1.json",
    "other_categories_used_to_reach_you.json",
    "recently_viewed.json",
    "recently_visited.json",
    "story_views_in_past_7_days.json",
    "subscription_for_no_ads.json",
    "who_you've_followed.json",
    "your_posts__check_ins__photos_and_videos_1.json",
    "your_search_history.json"
  ]

  /** The HTML export also lists the JSON file `your_posts_1.json`. */
  const HtmlEnFiles: seq<string> := [
    "group_interactions.html",
    "ad_preferences.html",
    "your_posts_1.json",
    "advertisers_using_your_activity_or_information.html",
    "advertisers_you've_interacted_with.html",
    "comments.html",
    "likes_and_reactions_1.html",
    "other_categories_used_to_reach_you.html",
    "recently_viewed.html",
    "recently_visited.html",
    "story_views_in_past_7_days.html",
    "subscription_for_no_ads.html",
    "who_you've_followed.html",
    "your_posts__check_ins__photos_and_videos_1.html",
    "your_search_history.html"
  ]

  const DdpCategories: seq<DDPCategory> := [
    DDPCategory("json_en", JSON, EN, JsonEnFiles),
    DDPCategory("html_en", HTML, EN, HtmlEnFiles)
  ]

  const StatusCodes: seq<StatusCode> := [
    StatusCode(0, "Valid DDP", "Valid DDP"),
    StatusCode(1, "Not a valid DDP", "Not a valid DDP"),
    StatusCode(2, "Bad zipfile", "Bad zip")
  ]

  const Suffixes: seq<string> := [".json", ".html"]

  /** The tables are well formed: distinct ids, no empty file list. */
  lemma Tables()
    ensures Inferable(LookupKeys(DdpCategories), LookupMap(DdpCategories))
    ensures LookupKeys(DdpCategories) == ["json_en", "html_en"]
    ensures "json_en" in LookupMap(DdpCategories) && LookupMap(DdpCategories)["json_en"] == DdpCategories[0]
    ensures "html_en" in LookupMap(DdpCategories) && LookupMap(DdpCategories)["html_en"] == DdpCategories[1]
    ensures forall c | 0 <= c < 3 :: c in StatusMap(StatusCodes) && StatusMap(StatusCodes)[c] == StatusCodes[c]
  {
    DistinctTable(DdpCategories);
    DistinctStatusTable(StatusCodes);
  }

  lemma TablesInferable()
    ensures Inferable(LookupKeys(DdpCategories), LookupMap(DdpCategories))
  {
    DistinctTable(DdpCategories);
  }

  /** The category `validate` infers from the entries of an archive. */
  function Category(names: seq<string>): Option<DDPCategory> {
    TablesInferable();
    Platform.Category(DdpCategories, Suffixes, names)
  }

  /** The status id `validate` assigns. */
  function Status(a: Archive): int {
    TablesInferable();
    Platform.Status(DdpCategories, Suffixes, a)
  }

  /** `validate(file)`: the status is one of the three listed codes. */
  method Validate(a: Archive) returns (v: ValidateInput)
    ensures fresh(v)
    ensures v.statusCodes == StatusCodes && v.ddpCategories == DdpCategories
    ensures v.statusCode == Some(StatusCodes[Status(a)])
    ensures v.ddpCategory == if a.Entries? then Category(a.names) else None
    ensures v.validatedPaths == if a.Entries? && Category(a.names).Some? then KeptNames(a.names, Suffixes) else []
  {
    Tables();
    v := Platform.ValidateZip(StatusCodes, DdpCategories, Suffixes, a);
  }

  /** Every known file carries a suffix that `validate` keeps. */
  lemma JsonEnKept(i: int)
    requires 0 <= i < |JsonEnFiles|
    ensures Suffix(JsonEnFiles[i]) in Suffixes
  {
    if i == 0 {
      JsonSuffix(JsonEnFiles[0]);
    } else if i == 1 {
      JsonSuffix(JsonEnFiles[1]);
    } else if i == 2 {
      JsonSuffix(JsonEnFiles[2]);
    } else if i == 3 {
      JsonSuffix(JsonEnFiles[3]);
    } else if i == 4 {
      JsonSuffix(JsonEnFiles[4]);
    } else if i == 5 {
      JsonSuffix(JsonEnFiles[5]);
    } else if i == 6 {
      JsonSuffix(JsonEnFiles[6]);
    } else if i == 7 {
      JsonSuffix(JsonEnFiles[7]);
    } else if i == 8 {
      JsonSuffix(JsonEnFiles[8]);
    } else if i == 9 {
      JsonSuffix(JsonEnFiles[9]);
    } else if i == 10 {
      JsonSuffix(JsonEnFiles[10]);
    } else if i == 11 {
      JsonSuffix(JsonEnFiles[11]);
    } else if i == 12 {
      JsonSuffix(JsonEnFiles[12]);
    } else if i == 13 {
      JsonSuffix(JsonEnFiles[13]);
    } else if i == 14 {
      JsonSuffix(JsonEnFiles[14]);
    }
  }

  lemma HtmlEnKept(i: int)
    requires 0 <= i < |HtmlEnFiles|
    ensures Suffix(HtmlEnFiles[i]) in Suffixes
  {
    if i == 0 {
      HtmlSuffix(HtmlEnFiles[0]);
    } else if i == 1 {
      HtmlSuffix(HtmlEnFiles[1]);
    } else if i == 2 {
      JsonSuffix(HtmlEnFiles[2]);
    } else if i == 3 {
      HtmlSuffix(HtmlEnFiles[3]);
    } else if i == 4 {
      HtmlSuffix(HtmlEnFiles[4]);
    } else if i == 5 {
      HtmlSuffix(HtmlEnFiles[5]);
    } else if i == 6 {
      HtmlSuffix(HtmlEnFiles[6]);
    } else if i == 7 {
      HtmlSuffix(HtmlEnFiles[7]);
    } else if i == 8 {
      HtmlSuffix(HtmlEnFiles[8]);
    } else if i == 9 {
      HtmlSuffix(HtmlEnFiles[9]);
    } else if i == 10 {
      HtmlSuffix(HtmlEnFiles[10]);
    } else if i == 11 {
      HtmlSuffix(HtmlEnFiles[11]);
    } else if i == 12 {
      HtmlSuffix(HtmlEnFiles[12]);
    } else if i == 13 {
      HtmlSuffix(HtmlEnFiles[13]);
    } else if i == 14 {
      HtmlSuffix(HtmlEnFiles[14]);
    }
  }

  lemma KnownFilesKept(k: string)
    requires k in JsonEnFiles || k in HtmlEnFiles
    ensures Suffix(k) in Suffixes
  {
    if k in JsonEnFiles {
      var i :| 0 <= i < |JsonEnFiles| && JsonEnFiles[i] == k;
      JsonEnKept(i);
    } else {
      var i :| 0 <= i < |HtmlEnFiles| && HtmlEnFiles[i] == k;
      HtmlEnKept(i);
    }
  }

  /** A single known basename among the entries (1 of 15, over 5%)
      already makes the archive valid. */
  lemma OneKnownFileSuffices(names: seq<string>, i: int)
    requires 0 <= i < |names|
    requires Basename(names[i]) in JsonEnFiles || Basename(names[i]) in HtmlEnFiles
    ensures Status(Entries(names)) == 0
  {
    Tables();
    var k := Basename(names[i]);
    KnownFilesKept(k);
    KeptEntry(names, Suffixes, i);
    var paths := KeptNames(names, Suffixes);
    var j :| 0 <= j < |paths| && paths[j] == k;
    var order := LookupKeys(DdpCategories);
    var lookup := LookupMap(DdpCategories);
    if k in JsonEnFiles {
      HitsPositive(paths, JsonEnFiles, j);
      assert 20 * Hits(paths, lookup[order[0]].knownFiles) >= |lookup[order[0]].knownFiles|;
    } else {
      HitsPositive(paths, HtmlEnFiles, j);
      assert 20 * Hits(paths, lookup[order[1]].knownFiles) >= |lookup[order[1]].knownFiles|;
    }
    InferredIff(order, lookup, paths);
  }

  /** Only an archive whose kept basenames miss every known file is invalid. */
  lemma NoKnownFileInvalid(names: seq<string>)
    requires forall i | 0 <= i < |names| :: Basename(names[i]) !in JsonEnFiles && Basename(names[i]) !in HtmlEnFiles
    ensures Status(Entries(names)) == 1
  {
    Tables();
    var paths := KeptNames(names, Suffixes);
    KeptNamesExactly(names, Suffixes);
    NoHits(paths, JsonEnFiles);
    NoHits(paths, HtmlEnFiles);
    InferredIff(LookupKeys(DdpCategories), LookupMap(DdpCategories), paths);
  }

  /** `your_posts_1.json` alone is a hit for both categories; the scores
      tie and `json_en`, listed first, wins. */
  lemma YourPostsTie()
    ensures Category(["your_posts_1.json"]) == Some(DdpCategories[0])
  {
    YourPostsKept();
    YourPostsScores();
  }

  lemma YourPostsKept()
    ensures KeptNames(["your_posts_1.json"], Suffixes) == ["your_posts_1.json"]
  {
    BasenameNoSlash("your_posts_1.json");
    JsonSuffix("your_posts_1.json");
    assert Basenames(["your_posts_1.json"]) == ["your_posts_1.json"];
  }

  lemma YourPostsScores()
    ensures Inferable(LookupKeys(DdpCategories), LookupMap(DdpCategories))
    ensures Inferred(LookupKeys(DdpCategories), LookupMap(DdpCategories), ["your_posts_1.json"]) == Some(DdpCategories[0])
  {
    Tables();
    var paths := ["your_posts_1.json"];
    assert JsonEnFiles[2] == "your_posts_1.json" && HtmlEnFiles[2] == "your_posts_1.json";
    HitsSingle("your_posts_1.json", JsonEnFiles);
    HitsSingle("your_posts_1.json", HtmlEnFiles);
    assert Hits(paths, JsonEnFiles) == Hits(paths, HtmlEnFiles) == 1;
    assert |JsonEnFiles| == |HtmlEnFiles| == 15;
    var s := Scores(LookupKeys(DdpCategories), LookupMap(DdpCategories), paths);
    assert s[0] == Score(paths, JsonEnFiles) == Score(paths, HtmlEnFiles) == s[1];
    assert BestIndex(s) == 0;
    ScoreThreshold(paths, JsonEnFiles);
  }

  /** After a successful validation `extract_facebook_data` reads the
      entries of the majority format; `.json` wins only with strictly more
      `.json` entries. */
  lemma ExtractAfterValidation(names: seq<string>)
    requires Status(Entries(names)) == 0
    ensures Platform.ExtractPlan(Some(StatusCodes[Status(Entries(names))]), names)
      == Some((MajorityFormat(names), FilesToProcess(names)))
    ensures MajorityFormat(names) == "json" <==> CountEnding(names, ".json") > CountEnding(names, ".html")
  {
    MajorityRule(names);
  }

  /** `value.split(" ")[0]` in `parse_group_interactions`: the text before
      the first space, or all of `value` when it has none. */
  function TimesInteracted(value: string): (r: string)
    ensures ' ' !in r
    ensures StartsWith(value, r)
    ensures ' ' !in value ==> r == value
    ensures |r| < |value| ==> value[|r|] == ' '
  {
    var parts := Split(value, " ");
    SplitPiecesFree(value, " ");
    SplitHead(value, " ");
    assert parts[0] in parts;
    ContainsChar(parts[0], ' ');
    ContainsChar(value, ' ');
    if Contains(value, " ") then
      assert value[Find(value, " ")..Find(value, " ") + 1] == " ";
      parts[0]
    else parts[0]
  }

  /** The count read from a group interaction is everything before the
      first space of `value`, and the rest starts at that space. */
  lemma TimesInteractedSplits(value: string)
    ensures var r := TimesInteracted(value);
      value == r + value[|r|..] && ' ' !in r && (value[|r|..] == [] || value[|r|..][0] == ' ')
  {
    var r := TimesInteracted(value);
    assert value[..|r|] == r;
  }
}
