/** Google Takeout archives: the two known categories, `validate` (which,
    unlike the other platforms, lets exceptions other than `BadZipFile`
    escape), and the record flattening of `parse_data`. */
module Google {
  import opened Json
  import opened Text
  import opened Validation
  import opened Archive
  import opened Seqs
  import Platform

  const JsonEnFiles: seq<string> := [
    "Autofill.json",
    "Bookmarks.html",
    "BrowserHistory.json",
    "Device Information.json",
    "Dictionary.csv",
    "Extensions.json",
    "Omnibox.json",
    "OS Settings.json",
    "ReadingList.html",
    "SearchEngines.json",
    "SyncSettings.json",
    "My Activity.json",
    "My Activities.json",
    "comments.csv"
  ]

  const JsonNlFiles: seq<string> := [
    "Adressen en meer.json",
    "Bookmarks.html",
    "Geschiedenis.json",
    "Leeslijst.html",
    "Woordenboek.csv",
    "Apparaatgegevens.json",
    "Extensies.json",
    "Instellingen.json",
    "OS-instellingen.json",
    "My Activity.json"
  ]

  const DdpCategories: seq<DDPCategory> := [
    DDPCategory("json_en", JSON, EN, JsonEnFiles),
    DDPCategory("json_nl", JSON, NL, JsonNlFiles)
  ]

  const StatusCodes: seq<StatusCode> := [
    StatusCode(0, "Valid zip", ""),
    StatusCode(1, "Not a valid DDP", ""),
    StatusCode(2, "Bad zipfile", "")
  ]

  const Suffixes: seq<string> := [".json", ".csv", ".html"]

  /** The tables are well formed: distinct ids, no empty file list. */
  lemma Tables()
    ensures Inferable(LookupKeys(DdpCategories), LookupMap(DdpCategories))
    ensures LookupKeys(DdpCategories) == ["json_en", "json_nl"]
    ensures "json_en" in LookupMap(DdpCategories) && LookupMap(DdpCategories)["json_en"] == DdpCategories[0]
    ensures "json_nl" in LookupMap(DdpCategories) && LookupMap(DdpCategories)["json_nl"] == DdpCategories[1]
    ensures forall c | 0 <= c < 3 :: c in StatusMap(StatusCodes) && StatusMap(StatusCodes)[c] == StatusCodes[c]
  {
    DistinctTable(DdpCategories);
    DistinctStatusTable(StatusCodes);
  }

  lemma TablesInferable()
    ensures Inferable(LookupKeys(DdpCategories), LookupMap(DdpCategories))
  {
    DistinctTable(DdpCategories);
  }

  /** The category `validate` infers from the entries of an archive. */
  function Category(names: seq<string>): Option<DDPCategory> {
    TablesInferable();
    Platform.Category(DdpCategories, Suffixes, names)
  }

  /** The status id `validate` assigns, or `None` when the exception
      escapes `validate` (any failure other than `BadZipFile`). */
  function Outcome(a: Archive): Option<int> {
    match a
    case BadZip => Some(2)
    case OpenFailure => None
    case Entries(names) => if Category(names).Some? then Some(0) else Some(1)
  }

  /** `validate(zfile)`; `raised` says the exception propagates to the
      caller, in which case nothing was recorded on `v`. */
  method Validate(a: Archive) returns (v: ValidateInput, raised: bool)
    ensures fresh(v)
    ensures v.statusCodes == StatusCodes && v.ddpCategories == DdpCategories
    ensures raised <==> Outcome(a).None?
    ensures raised ==> v.statusCode == None
    ensures !raised ==> v.statusCode == Some(StatusCodes[Outcome(a).value])
    ensures v.ddpCategory == if a.Entries? then Category(a.names) else None
    ensures v.validatedPaths == if a.Entries? && Category(a.names).Some? then KeptNames(a.names, Suffixes) else []
  {
    Tables();
    v := new ValidateInput(StatusCodes, DdpCategories);
    raised := false;
    match a
    case BadZip =>
      v.SetStatusCode(2);
    case OpenFailure =>
      raised := true;
    case Entries(names) =>
      var paths := CollectPaths(names, Suffixes);
      var ok := v.InferDdpCategory(paths);
      if ok {
        v.SetStatusCode(0);
      } else {
        v.SetStatusCode(1);
      }
  }

  /** Every known file carries a suffix that `validate` keeps. */
  lemma JsonEnKept(i: int)
    requires 0 <= i < |JsonEnFiles|
    ensures Suffix(JsonEnFiles[i]) in Suffixes
  {
    if i == 0 {
      JsonSuffix(JsonEnFiles[0]);
    } else if i == 1 {
      HtmlSuffix(JsonEnFiles[1]);
    } else if i == 2 {
      JsonSuffix(JsonEnFiles[2]);
    } else if i == 3 {
      JsonSuffix(JsonEnFiles[3]);
    } else if i == 4 {
      CsvSuffix(JsonEnFiles[4]);
    } else if i == 5 {
      JsonSuffix(JsonEnFiles[5]);
    } else if i == 6 {
      JsonSuffix(JsonEnFiles[6]);
    } else if i == 7 {
      JsonSuffix(JsonEnFiles[7]);
    } else if i == 8 {
      HtmlSuffix(JsonEnFiles[8]);
    } else if i == 9 {
      JsonSuffix(JsonEnFiles[9]);
    } else if i == 10 {
      JsonSuffix(JsonEnFiles[10]);
    } else if i == 11 {
      JsonSuffix(JsonEnFiles[11]);
    } else if i == 12 {
      JsonSuffix(JsonEnFiles[12]);
    } else if i == 13 {
      CsvSuffix(JsonEnFiles[13]);
    }
  }

  lemma JsonNlKept(i: int)
    requires 0 <= i < |JsonNlFiles|
    ensures Suffix(JsonNlFiles[i]) in Suffixes
  {
    if i == 0 {
      JsonSuffix(JsonNlFiles[0]);
    } else if i == 1 {
      HtmlSuffix(JsonNlFiles[1]);
    } else if i == 2 {
      JsonSuffix(JsonNlFiles[2]);
    } else if i == 3 {
      HtmlSuffix(JsonNlFiles[3]);
    } else if i == 4 {
      CsvSuffix(JsonNlFiles[4]);
    } else if i == 5 {
      JsonSuffix(JsonNlFiles[5]);
    } else if i == 6 {
      JsonSuffix(JsonNlFiles[6]);
    } else if i == 7 {
      JsonSuffix(JsonNlFiles[7]);
    } else if i == 8 {
      JsonSuffix(JsonNlFiles[8]);
    } else if i == 9 {
      JsonSuffix(JsonNlFiles[9]);
    }
  }

  lemma KnownFilesKept(k: string)
    requires k in JsonEnFiles || k in JsonNlFiles
    ensures Suffix(k) in Suffixes
  {
    if k in JsonEnFiles {
      var i :| 0 <= i < |JsonEnFiles| && JsonEnFiles[i] == k;
      JsonEnKept(i);
    } else {
      var i :| 0 <= i < |JsonNlFiles| && JsonNlFiles[i] == k;
      JsonNlKept(i);
    }
  }

  /** One known basename (at least 1 of 14, over 5%) makes the archive valid. */
  lemma OneKnownFileSuffices(names: seq<string>, i: int)
    requires 0 <= i < |names|
    requires Basename(names[i]) in JsonEnFiles || Basename(names[i]) in JsonNlFiles
    ensures Outcome(Entries(names)) == Some(0)
  {
    Tables();
    var k := Basename(names[i]);
    KnownFilesKept(k);
    KeptEntry(names, Suffixes, i);
    var paths := KeptNames(names, Suffixes);
    var j :| 0 <= j < |paths| && paths[j] == k;
    var order := LookupKeys(DdpCategories);
    var lookup := LookupMap(DdpCategories);
    if k in JsonEnFiles {
      HitsPositive(paths, JsonEnFiles, j);
      assert 20 * Hits(paths, lookup[order[0]].knownFiles) >= |lookup[order[0]].knownFiles|;
    } else {
      HitsPositive(paths, JsonNlFiles, j);
      assert 20 * Hits(paths, lookup[order[1]].knownFiles) >= |lookup[order[1]].knownFiles|;
    }
    InferredIff(order, lookup, paths);
  }

  /** A lone `My Activity.json` scores 1/14 for `json_en` and 1/10 for
      `json_nl`, so the Dutch category is chosen. */
  lemma LoneMyActivity()
    ensures Category(["Takeout/My Activity/Search/My Activity.json"]) == Some(DdpCategories[1])
  {
    MyActivityKept();
    MyActivityScores();
  }

  lemma MyActivityKept()
    ensures KeptNames(["Takeout/My Activity/Search/My Activity.json"], Suffixes) == ["My Activity.json"]
  {
    var f := "Takeout/My Activity/Search/My Activity.json";
    assert f == "Takeout/My Activity/Search" + "/" + "My Activity.json";
    BasenameOfChild("Takeout/My Activity/Search", "My Activity.json");
    JsonSuffix("My Activity.json");
    assert Basenames([f]) == ["My Activity.json"];
    assert Basenames([f])[..0] == [];
  }

  lemma MyActivityScores()
    ensures Inferable(LookupKeys(DdpCategories), LookupMap(DdpCategories))
    ensures Inferred(LookupKeys(DdpCategories), LookupMap(DdpCategories), ["My Activity.json"]) == Some(DdpCategories[1])
  {
    Tables();
    var paths := ["My Activity.json"];
    assert JsonEnFiles[11] == "My Activity.json";
    assert JsonNlFiles[9] == "My Activity.json";
    HitsSingle("My Activity.json", JsonEnFiles);
    HitsSingle("My Activity.json", JsonNlFiles);
    var s := Scores(LookupKeys(DdpCategories), LookupMap(DdpCategories), paths);
    assert s[0] == 1.0 / 14.0 * 100.0;
    assert s[1] == 1.0 / 10.0 * 100.0;
    assert BestIndex(s) == 1;
  }

  // ---------------------------------------------------------------------
  // `parse_data`: one flat record per activity item.

  /** A value of a parsed record. `Epoch(n, millis)` is
      `pd.to_datetime(n, unit='ms' if millis else 's')`, `ParsedDate(v)` is
      `pd.to_datetime(v)`; both stand for `NaT` when pandas raises. */
  datatype Cell = Plain(value: Json) | Epoch(n: int, millis: bool) | ParsedDate(raw: Json)

  type Record = Fields<Cell>

  /** The `Date` cell for a `time`/`Date` value: numbers (a `bool` is an
      `int` in Python) above 1e11 are milliseconds, other numbers seconds. */
  function DateCell(v: Json): (c: Cell)
    ensures v.Int? ==> c.Epoch? && c.n == v.i && (c.millis <==> v.i > 100000000000)
    ensures v.Bool? ==> c.Epoch? && !c.millis
    ensures !v.Int? && !v.Bool? ==> c == ParsedDate(v)
  {
    match v
    case Int(i) => Epoch(i, i > 100000000000)
    case Bool(b) => Epoch(if b then 1 else 0, false)
    case _ => ParsedDate(v)
  }

  /** `', '.join(str(v) for v in value)`. */
  function ListText(xs: seq<Json>): string {
    Join(", ", seq(|xs|, i requires 0 <= i < |xs| => PyStr(xs[i])))
  }

  /** `parsed_item[f"{key}_{sub_key}"] = sub_value` for each sub-entry. */
  function Flattened(k: string, sub: Fields<Json>): (ws: Fields<Cell>)
    ensures |ws| == |sub|
    ensures forall i | 0 <= i < |sub| :: ws[i] == (k + "_" + sub[i].0, Plain(sub[i].1))
  {
    seq(|sub|, i requires 0 <= i < |sub| => (k + "_" + sub[i].0, Plain(sub[i].1)))
  }

  /** The assignments to `parsed_item` for one entry of an item. */
  function EntryWrites(k: string, v: Json, dataType: string): Fields<Cell> {
    if k == "time" || k == "Date" then [("Date", DateCell(v))]
    else if k == "details" && dataType == "youtube_comment" then [("details", Plain(v))]
    else
      match v
      case List(xs) => [(k, Plain(Str(ListText(xs))))]
      case Obj(sub) => Flattened(k, sub)
      case _ => [(k, Plain(v))]
  }

  /** All assignments for an item, entry by entry. */
  function Writes(item: Fields<Json>, dataType: string): Fields<Cell> {
    FlatMap(item, (e: (string, Json)) => EntryWrites(e.0, e.1, dataType))
  }

  function Initial(dataType: string): Record {
    [("data_type", Plain(Str(dataType)))]
  }

  /** The record for one item. */
  function ParseItem(item: Fields<Json>, dataType: string): Record {
    ApplyWrites(Initial(dataType), Writes(item, dataType))
  }

  /** The loops of `parse_data` that build `parsed_data`. */
  method ParseData(data: seq<Fields<Json>>, dataType: string) returns (parsed: seq<Record>)
    ensures |parsed| == |data|
    ensures forall i | 0 <= i < |data| :: parsed[i] == ParseItem(data[i], dataType)
  {
    parsed := [];
    for n := 0 to |data|
      invariant |parsed| == n
      invariant forall i | 0 <= i < n :: parsed[i] == ParseItem(data[i], dataType)
    {
      var record := BuildItem(data[n], dataType);
      parsed := parsed + [record];
    }
  }

  /** The body of the outer loop: `parsed_item` built key by key. */
  method BuildItem(item: Fields<Json>, dataType: string) returns (parsedItem: Record)
    ensures parsedItem == ParseItem(item, dataType)
  {
    parsedItem := Initial(dataType);
    for e := 0 to |item|
      invariant parsedItem == ApplyWrites(Initial(dataType), Writes(item[..e], dataType))
    {
      assert item[..e + 1] == item[..e] + [item[e]];
      WritesAppend(item[..e], [item[e]], dataType);
      WritesOne(item[e], dataType);
      parsedItem := AddEntry(parsedItem, item[e].0, item[e].1, dataType);
      ApplyWritesConcat(Initial(dataType), Writes(item[..e], dataType), EntryWrites(item[e].0, item[e].1, dataType));
    }
    assert item[..|item|] == item;
  }

  /** The assignments made for one entry `key, value` of an item. */
  method AddEntry(d: Record, key: string, value: Json, dataType: string) returns (r: Record)
    ensures r == ApplyWrites(d, EntryWrites(key, value, dataType))
  {
    if key == "time" || key == "Date" {
      r := SetField(d, "Date", DateCell(value));
      assert ApplyWrites(d, [("Date", DateCell(value))]) == SetField(ApplyWrites(d, []), "Date", DateCell(value));
    } else if key == "details" && dataType == "youtube_comment" {
      r := SetField(d, "details", Plain(value));
      assert ApplyWrites(d, [("details", Plain(value))]) == SetField(ApplyWrites(d, []), "details", Plain(value));
    } else if value.List? {
      var text := ListText(value.items);
      r := SetField(d, key, Plain(Str(text)));
      assert ApplyWrites(d, [(key, Plain(Str(text)))]) == SetField(ApplyWrites(d, []), key, Plain(Str(text)));
    } else if value.Obj? {
      r := AddFlattened(d, key, value.fields);
    } else {
      r := SetField(d, key, Plain(value));
      assert ApplyWrites(d, [(key, Plain(value))]) == SetField(ApplyWrites(d, []), key, Plain(value));
    }
  }

  /** `for sub_key, sub_value in value.items(): parsed_item[f"{key}_{sub_key}"] = sub_value`. */
  method AddFlattened(d: Record, key: string, sub: Fields<Json>) returns (r: Record)
    ensures r == ApplyWrites(d, Flattened(key, sub))
  {
    r := d;
    ghost var ws := Flattened(key, sub);
    for s := 0 to |sub|
      invariant r == ApplyWrites(d, ws[..s])
    {
      assert ws[..s + 1][..s] == ws[..s];
      r := SetField(r, key + "_" + sub[s].0, Plain(sub[s].1));
    }
    assert ws[..|sub|] == ws;
  }

  /** Two runs of assignments make one run. */
  lemma {:induction false} ApplyWritesConcat(d: Record, a: Fields<Cell>, b: Fields<Cell>)
    ensures ApplyWrites(d, a + b) == ApplyWrites(ApplyWrites(d, a), b)
  {
    if b == [] {
      assert a + b == a;
    } else {
      assert (a + b)[..|a + b| - 1] == a + b[..|b| - 1];
      ApplyWritesConcat(d, a, b[..|b| - 1]);
    }
  }

  lemma WritesAppend(a: Fields<Json>, b: Fields<Json>, dataType: string)
    ensures Writes(a + b, dataType) == Writes(a, dataType) + Writes(b, dataType)
  {
    FlatMapAppend(a, b, (e: (string, Json)) => EntryWrites(e.0, e.1, dataType));
  }

  lemma WritesOne(e: (string, Json), dataType: string)
    ensures Writes([e], dataType) == EntryWrites(e.0, e.1, dataType)
  {
    FlatMapOne(e, (e: (string, Json)) => EntryWrites(e.0, e.1, dataType));
  }

  /** The value the record holds for `k` when entry `i` of the item is the
      last one to assign `k`. */
  lemma LastEntryWins(item: Fields<Json>, dataType: string, i: int, k: string)
    requires 0 <= i < |item|
    requires LastWrite(EntryWrites(item[i].0, item[i].1, dataType), k).Some?
    requires LastWrite(Writes(item[i + 1..], dataType), k).None?
    ensures Lookup(ParseItem(item, dataType), k) == LastWrite(EntryWrites(item[i].0, item[i].1, dataType), k)
  {
    var before := item[..i];
    var after := item[i + 1..];
    var ws := EntryWrites(item[i].0, item[i].1, dataType);
    WritesAround(item, dataType, i);
    LastOfThree(Writes(before, dataType), ws, Writes(after, dataType), k);
    ApplyWritesLast(Initial(dataType), Writes(item, dataType), k);
  }

  /** The writes of an item are those before entry `i`, then entry `i`'s,
      then those after it. */
  lemma WritesAround(item: Fields<Json>, dataType: string, i: int)
    requires 0 <= i < |item|
    ensures Writes(item, dataType)
      == Writes(item[..i], dataType) + EntryWrites(item[i].0, item[i].1, dataType) + Writes(item[i + 1..], dataType)
  {
    var before := item[..i];
    var after := item[i + 1..];
    assert item == before + [item[i]] + after;
    WritesAppend(before + [item[i]], after, dataType);
    WritesAppend(before, [item[i]], dataType);
    WritesOne(item[i], dataType);
  }

  /** The last write of a key in the middle run that the last run leaves
      alone is the last write of the whole. */
  lemma LastOfThree(a: Fields<Cell>, b: Fields<Cell>, c: Fields<Cell>, k: string)
    requires LastWrite(b, k).Some? && LastWrite(c, k).None?
    ensures LastWrite(a + b + c, k) == LastWrite(b, k)
  {
    LastWriteAppend(a + b, c, k);
    LastWriteAppend(a, b, k);
  }

  /** Each assignment comes from one entry: under that entry's own key, or
      a `key_subkey` name, or the `Date` column for a time entry. */
  lemma WritesFrom(item: Fields<Json>, dataType: string, w: (string, Cell))
    requires w in Writes(item, dataType)
    ensures exists j | 0 <= j < |item| ::
      || (w.0 == "Date" && (item[j].0 == "time" || item[j].0 == "Date"))
      || w.0 == item[j].0
      || (exists sk :: w.0 == item[j].0 + "_" + sk)
  {
    FlatMapMembers(item, (e: (string, Json)) => EntryWrites(e.0, e.1, dataType), w);
    var j :| 0 <= j < |item| && w in EntryWrites(item[j].0, item[j].1, dataType);
    var (k, v) := item[j];
    if !(k == "time" || k == "Date") && !(k == "details" && dataType == "youtube_comment") && v.Obj? {
      var m :| 0 <= m < |v.fields| && Flattened(k, v.fields)[m] == w;
      assert w.0 == k + "_" + v.fields[m].0;
    }
  }

  /** `Date` cannot be a `key_subkey` name or any key other than `Date`. */
  lemma DateNotFlattened(k: string, sk: string)
    ensures k + "_" + sk != "Date"
  {
    var n := k + "_" + sk;
    assert n[|k|] == '_';
  }

  /** A `time`/`Date` entry with no later one sets the `Date` column; an
      integer above 1e11 is read as milliseconds, otherwise as seconds. */
  lemma DateUnit(item: Fields<Json>, dataType: string, i: int)
    requires 0 <= i < |item|
    requires item[i].0 == "time" || item[i].0 == "Date"
    requires forall j | i < j < |item| :: item[j].0 != "time" && item[j].0 != "Date"
    ensures Lookup(ParseItem(item, dataType), "Date") == Some(DateCell(item[i].1))
    ensures item[i].1.Int? ==>
      Lookup(ParseItem(item, dataType), "Date") == Some(Epoch(item[i].1.i, item[i].1.i > 100000000000))
  {
    var after := item[i + 1..];
    forall j | 0 <= j < |after| ensures after[j].0 != "time" && after[j].0 != "Date" {
      assert after[j] == item[i + 1 + j];
    }
    assert "Date" != "time";
    forall w | w in Writes(after, dataType) ensures w.0 != "Date" {
      WritesFrom(after, dataType, w);
      var j :| 0 <= j < |after| &&
        (|| (w.0 == "Date" && (after[j].0 == "time" || after[j].0 == "Date"))
         || w.0 == after[j].0
         || (exists sk :: w.0 == after[j].0 + "_" + sk));
      if exists sk :: w.0 == after[j].0 + "_" + sk {
        var sk :| w.0 == after[j].0 + "_" + sk;
        DateNotFlattened(after[j].0, sk);
      }
    }
    LastEntryWins(item, dataType, i, "Date");
  }

  /** A list entry that nothing later overwrites becomes its
      `', '`-joined text. */
  lemma ListJoined(item: Fields<Json>, dataType: string, i: int)
    requires 0 <= i < |item| && item[i].1.List?
    requires item[i].0 != "time" && item[i].0 != "Date"
    requires !(item[i].0 == "details" && dataType == "youtube_comment")
    requires LastWrite(Writes(item[i + 1..], dataType), item[i].0).None?
    ensures Lookup(ParseItem(item, dataType), item[i].0) == Some(Plain(Str(ListText(item[i].1.items))))
  {
    LastEntryWins(item, dataType, i, item[i].0);
  }

  /** A dict entry is flattened one level: each sub-entry that nothing
      later overwrites lands under `key_subkey`. */
  lemma DictFlattened(item: Fields<Json>, dataType: string, i: int, m: int)
    requires 0 <= i < |item| && item[i].1.Obj?
    requires item[i].0 != "time" && item[i].0 != "Date"
    requires !(item[i].0 == "details" && dataType == "youtube_comment")
    requires 0 <= m < |item[i].1.fields|
    requires forall m' | m < m' < |item[i].1.fields| :: item[i].1.fields[m'].0 != item[i].1.fields[m].0
    requires LastWrite(Writes(item[i + 1..], dataType), item[i].0 + "_" + item[i].1.fields[m].0).None?
    ensures Lookup(ParseItem(item, dataType), item[i].0 + "_" + item[i].1.fields[m].0)
      == Some(Plain(item[i].1.fields[m].1))
  {
    var k := item[i].0;
    var sub := item[i].1.fields;
    var ws := Flattened(k, sub);
    var name := k + "_" + sub[m].0;
    forall m' | m < m' < |sub| ensures ws[m'].0 != name {
      assert ws[m'].0 == k + "_" + sub[m'].0;
      assert (k + "_" + sub[m'].0)[|k| + 1..] == sub[m'].0;
      assert name[|k| + 1..] == sub[m].0;
    }
    assert ws == ws[..m + 1] + ws[m + 1..];
    LastWriteAppend(ws[..m + 1], ws[m + 1..], name);
    assert ws[..m + 1][..m] == ws[..m];
    LastEntryWins(item, dataType, i, name);
  }

  /** Any other value, under a key nothing later overwrites, is copied. */
  lemma ScalarCopied(item: Fields<Json>, dataType: string, i: int)
    requires 0 <= i < |item| && !item[i].1.List? && !item[i].1.Obj?
    requires item[i].0 != "time" && item[i].0 != "Date"
    requires LastWrite(Writes(item[i + 1..], dataType), item[i].0).None?
    ensures Lookup(ParseItem(item, dataType), item[i].0) == Some(Plain(item[i].1))
  {
    LastEntryWins(item, dataType, i, item[i].0);
  }

  /** `data_type` stays the one passed in unless an entry assigns it. */
  lemma DataTypeKept(item: Fields<Json>, dataType: string)
    requires LastWrite(Writes(item, dataType), "data_type").None?
    ensures Lookup(ParseItem(item, dataType), "data_type") == Some(Plain(Str(dataType)))
  {
    ApplyWritesLast(Initial(dataType), Writes(item, dataType), "data_type");
  }

  // ---------------------------------------------------------------------
  // The column renaming of `parse_data`.

  /** The `column_mapping` of `parse_data`. */
  function RenameColumn(c: string): string {
    if c == "header" then "Action"
    else if c == "titleUrl" then "URL"
    else if c == "details_name" then "Ad_Type"
    else c
  }

  /** `df.rename(columns={old: new ... if old in df.columns})`. */
  function Renamed(columns: seq<string>): (r: seq<string>)
    ensures |r| == |columns|
  {
    seq(|columns|, i requires 0 <= i < |columns| => RenameColumn(columns[i]))
  }

  /** Only the three mapped columns change name, and none of the three
      old names survives. */
  lemma RenameOnlyMapped(columns: seq<string>)
    ensures forall i | 0 <= i < |columns| && columns[i] != "header" && columns[i] != "titleUrl" && columns[i] != "details_name" ::
      Renamed(columns)[i] == columns[i]
    ensures "header" !in Renamed(columns) && "titleUrl" !in Renamed(columns) && "details_name" !in Renamed(columns)
  {
  }

  /** A new name appears exactly when its old name, or the new name
      itself, was a column: renaming an absent column changes nothing. */
  lemma RenamedPresent(columns: seq<string>)
    ensures "Action" in Renamed(columns) <==> "header" in columns || "Action" in columns
    ensures "URL" in Renamed(columns) <==> "titleUrl" in columns || "URL" in columns
    ensures "Ad_Type" in Renamed(columns) <==> "details_name" in columns || "Ad_Type" in columns
  {
    RenamedTo(columns, "header", "Action");
    RenamedTo(columns, "titleUrl", "URL");
    RenamedTo(columns, "details_name", "Ad_Type");
  }

  lemma RenamedTo(columns: seq<string>, from: string, to: string)
    requires RenameColumn(from) == to && RenameColumn(to) == to
    requires forall c :: RenameColumn(c) == to ==> c == from || c == to
    ensures to in Renamed(columns) <==> from in columns || to in columns
  {
    var r := Renamed(columns);
    if to in r {
      var i :| 0 <= i < |r| && r[i] == to;
      assert RenameColumn(columns[i]) == to;
    }
    if from in columns {
      var i :| 0 <= i < |columns| && columns[i] == from;
      assert r[i] == to;
    }
    if to in columns {
      var i :| 0 <= i < |columns| && columns[i] == to;
      assert r[i] == to;
    }
  }
}
