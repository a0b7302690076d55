# Data-donation validation and extraction helpers, in Dafny

This project models the core of a data-donation tool's processing scripts.
People upload the export archive (a "data download package", DDP) that a
platform gave them. The Python scripts then decide which kind of export it is
and turn parts of it into flat records. The model covers the following.

- **Category inference and validation** (`validate.py`). `ValidateInput`
  is a class with the fields the source assigns. `InferDdpCategory` scores
  every known category by how many input names it lists. The score is
  multiplied by 100 and divided by the length of the category's file list.
  A category is accepted at 5% or more, and the earliest category with the
  maximal score wins. `SetStatusCode` and the two lookup tables that
  construction builds are modelled too.
- **The per-platform `validate` shells** of `facebook.py`,
  `instagram.py`, `google.py` and `google_aaaa.py`.
  - The archive is either a bad zip, an archive that fails to open, or a
    sequence of entry names.
  - Each shell keeps the basenames (`Path(f).name`) whose suffix it
    accepts, runs inference, and records status 0, 1 or 2.
  - The static category tables are constants, so concrete facts are proved
    about them: which single file is enough, and which category wins a tie.
  - The majority-file-format rules of the extractors are modelled.
  - So are the macOS-entry skip and the first-match file search of
    `google_aaaa.py`'s `extract_zip_content`, the CSV header resolution of
    its `parse_csv_content`, and its `remove_google_url_prefix`.
  - So are the key-by-key record building of `google.py`'s `parse_data`
    and its column renaming.
- **The helpers of `helpers.py`**:
  - `find_items_bfs`: breadth-first search over a decoded JSON tree, as a
    `while` loop over a queue;
  - `find_items`: the least nested matching key of a denested dict;
  - `dict_denester`: path flattening into a shared dict;
  - `get_json_keys`;
  - `replace_months`;
  - `is_epoch`;
  - `epoch_to_iso`: UTC civil time from Unix seconds, by CPython's
    proleptic Gregorian ordinal arithmetic;
  - the first three stages of `robust_datetime_parser`;
  - `str_squish`;
  - the chunking of `split_dataframe`.
- **`reconstruct_json.py`**:
  - `extract_keys_from_string` recovers logged key paths from marked lines;
  - `reconstruct_json_from_keys` rebuilds nested dicts from `__`-separated
    paths, with `"BORK"` at every leaf.
- **`safe_get` and the record mappers** of `tiktok.py` and `insta.py`.
  They produce one row per item. In `insta.py` an item that raises inside
  the loop body is skipped.

Modules follow the source:

| module | source |
|---|---|
| `Json`, `Text`, `Seqs`, `Records` | decoded JSON values; the Python string, list and dict operations the code relies on; `safe_get` |
| `Validation` | `validate.py` |
| `Archive`, `Platform` | the entry filter and majority rules shared by the platform shells |
| `Facebook`, `Instagram`, `Google`, `GoogleAaaa` | the platform files of the same names |
| `Helpers`, `Denest`, `Trees`, `JsonKeys`, `Dates`, `Epoch` | `helpers.py` |
| `Reconstruct` | `reconstruct_json.py` |
| `TikTok`, `Insta` | `tiktok.py`, `insta.py` |

Loops in the source are `method`s with loop invariants. Each is proved
equal to a specification function. The properties are then proved about
that function as lemmas. Where the source raises an exception that a
caller catches, the model returns `Option`: `None` stands for "raised".

The docstring of `infer_ddp_category` (`validate.py:70-74`) says that an
input is compared with the known files and that at least 5% of the known
files should match. The code is more specific than that reading in two
places, and the model follows the code:

- **Hits count input names with multiplicity.** "5% of the known files"
  reads as a count of distinct known files. The code counts every input
  name that is a known file (`validate.py:77-79`), so the same known name
  listed twice counts twice and a score can exceed 100.
- **Ties are deterministic.** The docstring does not say which category
  wins a tie. `max(prop_category, key=prop_category.get)` (`validate.py:83`)
  returns the earliest category reaching the maximum, in the iteration
  order of the lookup dict.

## Model

| member | source | states |
|---|---|---|
| Validation.LookupKeysShape | src/framework/processing/py/port/validate.py:103-105 | the iteration order of `ddp_categories_lookup` lists each category id once, in order of first appearance, and holds exactly the ids of the list |
| Validation.LookupMapLast | src/framework/processing/py/port/validate.py:103-105 | `ddp_categories_lookup[id]` is the last category in the list with that id |
| Validation.StatusMapLast | src/framework/processing/py/port/validate.py:106-108 | `status_codes_lookup[id]` is the last status code in the list with that id |
| Validation.StatusMapAbsent | src/framework/processing/py/port/validate.py:106-108 | an id no status code carries is not a key of the lookup |
| Validation.LookupKeysDistinct | src/framework/processing/py/port/validate.py:103-105 | with distinct ids the lookup iterates in list order |
| Validation.ScoreThreshold | src/framework/processing/py/port/validate.py:80-82 | the test `hits / len(known_files) * 100 >= 5` holds exactly when `20 * hits >= len(known_files)` |
| Validation.Score | src/framework/processing/py/port/validate.py:77-80 | denotes `sum(n_files_found) / len(known_files) * 100`; `ScoreThreshold` and `ScoreMonotone` state it |
| Validation.HitsAppend | src/framework/processing/py/port/validate.py:77-79 | hits of a concatenation of input lists add up: hits count input names with multiplicity |
| Validation.BestIndexIsFirstMax | src/framework/processing/py/port/validate.py:83 | `max(d, key=d.get)` picks a maximal score, and no earlier key has that score |
| Validation.InferredIff | src/framework/processing/py/port/validate.py:76-82 | inference succeeds iff some category has `20 * hits >= len(known_files)` |
| Validation.Inferred | src/framework/processing/py/port/validate.py:76-84 | denotes the category `infer_ddp_category` records; `InferredIff` and `InferredIsEarliestMax` state it |
| Validation.InferredIsEarliestMax | src/framework/processing/py/port/validate.py:82-84 | on success the chosen category is the earliest one in iteration order with the maximal score |
| Validation.ScoreMonotone | src/framework/processing/py/port/validate.py:77-80 | appending input names never lowers a category's score |
| Validation.AcceptedStaysAccepted | src/framework/processing/py/port/validate.py:77-82 | an accepted input list stays accepted when names are appended |
| Validation.TableInferable | src/framework/processing/py/port/validate.py:80-82 | a non-empty table whose categories all list known files is one inference can run on without raising |
| Validation.LookupValues | src/framework/processing/py/port/validate.py:103-105 | every value of the lookup is a category of the list, stored under its own id |
| Validation.DistinctTable | src/framework/processing/py/port/validate.py:103-105 | with distinct ids the lookup's order is the list order and each id maps to its own category |
| Validation.DistinctStatusTable | src/framework/processing/py/port/validate.py:106-108 | with distinct ids each status code is found under its own id |
| Validation.HitsPositive | src/framework/processing/py/port/validate.py:77-79 | one known name among the inputs is at least one hit |
| Validation.NoHits | src/framework/processing/py/port/validate.py:77-79 | inputs none of which is known score no hit |
| Validation.HitsSingle | src/framework/processing/py/port/validate.py:77-79 | a single name is one hit when it is known and none otherwise |
| Validation.ValidateInput.constructor | src/framework/processing/py/port/validate.py:98-108 | construction stores both lists, leaves status, category and validated paths empty and builds both lookups |
| Validation.ValidateInput.InferDdpCategory | src/framework/processing/py/port/validate.py:69-90 | returns true exactly when inference succeeds; then `ddp_category` is the inferred category and `validated_paths` the input; on failure both are unchanged |
| Validation.ValidateInput.SetStatusCode | src/framework/processing/py/port/validate.py:92-96 | `status_code` becomes the code with that id, or none when no code has it; nothing else changes |
| Validation.CountKnown | src/framework/processing/py/port/validate.py:77-80 | the loop counts the inputs that are known, with multiplicity |
| Validation.Hits | src/framework/processing/py/port/validate.py:77-79 | a category never has more hits than there are input names |
| Validation.PercentThreshold | src/framework/processing/py/port/validate.py:80-82 | `h / n * 100 >= 5` over exact reals holds iff `20 * h >= n` |
| Validation.DivMul | src/framework/processing/py/port/validate.py:80 | `(h / n) * n == h` for positive `n` |
| Validation.MulMono | src/framework/processing/py/port/validate.py:82 | multiplying by a positive number keeps the order |
| Validation.PercentMono | src/framework/processing/py/port/validate.py:80 | the percentage grows with the hits |
| Validation.BestIndex | src/framework/processing/py/port/validate.py:83 | the chosen index is a position of the scores |
| Validation.Scores | src/framework/processing/py/port/validate.py:76-80 | one score per category, in lookup order |
| Archive.LastSegment | src/framework/processing/py/port/facebook.py:84-87 | the last non-empty, non-`.` segment of a path lies within the path |
| Archive.BasenameOfChild | src/framework/processing/py/port/facebook.py:84-87 | `Path(dir + "/" + file).name` is `file` for a plain file name |
| Archive.Basename | src/framework/processing/py/port/facebook.py:84-87 | denotes `Path(f).name`; `LastSegment`, `BasenameOfChild` and `BasenameNoSlash` state it |
| Archive.BasenameNoSlash | src/framework/processing/py/port/facebook.py:84-87 | a plain name without `/` is its own `Path(f).name` |
| Archive.Basenames | src/framework/processing/py/port/facebook.py:83-87 | one basename per archive entry, in entry order |
| Archive.CollectPaths | src/framework/processing/py/port/facebook.py:81-87 | the loop collects exactly the kept basenames, in entry order |
| Archive.KeptNamesExactly | src/framework/processing/py/port/facebook.py:83-87 | a name is collected iff it is the basename of an entry whose suffix is `.json` or `.html` |
| Archive.KeptNames | src/framework/processing/py/port/facebook.py:83-87 | denotes the `paths` list of kept basenames; `KeptNamesExactly` and `CollectPaths` state it |
| Archive.SuffixOf | src/framework/processing/py/port/facebook.py:85 | `Path(stem + "." + ext).suffix` is `"." + ext` for a dot-free extension |
| Archive.Suffix | src/framework/processing/py/port/facebook.py:85 | denotes `Path(name).suffix`; `SuffixOf` and `SuffixByExt` state it |
| Archive.SuffixByExt | src/framework/processing/py/port/facebook.py:85 | a name ending in `.ext` after a non-empty stem has suffix `.ext` |
| Archive.JsonSuffix | src/framework/processing/py/port/facebook.py:85 | a known `.json` file name has suffix `.json` |
| Archive.HtmlSuffix | src/framework/processing/py/port/facebook.py:85 | a known `.html` file name has suffix `.html` |
| Archive.CsvSuffix | src/framework/processing/py/port/google_aaaa.py:206 | a name ending in `.csv` has suffix `.csv` |
| Archive.KeptEntry | src/framework/processing/py/port/facebook.py:85-87 | an entry with a kept suffix contributes its basename |
| Archive.UpperCaseName | src/framework/processing/py/port/facebook.py:84-85 | `Path("dir/X.JSON")` has name `X.JSON` and suffix `.JSON` |
| Archive.SuffixCaseSensitive | src/framework/processing/py/port/facebook.py:85 | the suffix test is case-sensitive: `X.JSON` is not collected |
| Archive.CountEnding | src/framework/processing/py/port/facebook.py:116-117 | at most as many matching names as entries |
| Archive.Ending | src/framework/processing/py/port/facebook.py:116-117 | the `endswith` comprehension keeps exactly as many names as end in the extension, each an entry that does |
| Archive.MajorityFormat | src/framework/processing/py/port/facebook.py:120 | the data format is `json` or `html` |
| Archive.MajorityRule | src/framework/processing/py/port/facebook.py:116-122 | JSON is chosen iff strictly more names end in `.json` than in `.html`; the processed list is never the shorter one and each of its names ends in the chosen extension |
| Platform.ValidateZip | src/framework/processing/py/port/facebook.py:77-104 | a fresh result holding both tables; status 2 for a bad archive, 1 for another error or no category, 0 when the kept basenames infer a category; category and validated paths as `infer_ddp_category` left them |
| Platform.ExtractPlan | src/framework/processing/py/port/facebook.py:106-122 | nothing is read unless the status is present with id 0; otherwise the majority format and the files of that format |
| Platform.PlannedEntries | src/framework/processing/py/port/facebook.py:116-122 | every planned file ends in `.` plus the chosen format |
| Archive.FilesToProcess | src/framework/processing/py/port/facebook.py:116-122 | denotes `json_files if DATA_FORMAT == "json" else html_files`; `MajorityRule` states it |
| Facebook.Tables | src/framework/processing/py/port/facebook.py:24-75 | the category lookup iterates `json_en` then `html_en`, each id finds its own category, the three status ids find their own codes, and inference can run on the table |
| Facebook.TablesInferable | src/framework/processing/py/port/facebook.py:24-69 | both categories list known files, so inference never divides by zero |
| Facebook.Validate | src/framework/processing/py/port/facebook.py:77-104 | the status is one of the three listed codes, chosen as in `Platform.ValidateZip`, with category and validated paths as inference left them |
| Facebook.JsonEnKept | src/framework/processing/py/port/facebook.py:29-44 | every `json_en` known file has a suffix `validate` keeps |
| Facebook.HtmlEnKept | src/framework/processing/py/port/facebook.py:52-67 | every `html_en` known file has a suffix `validate` keeps |
| Facebook.KnownFilesKept | src/framework/processing/py/port/facebook.py:24-69 | every known file survives the suffix filter of `validate` |
| Facebook.OneKnownFileSuffices | src/framework/processing/py/port/facebook.py:77-96 | one entry whose basename is a known file (1 of 15, over 5%) makes the archive valid (status 0) |
| Facebook.NoKnownFileInvalid | src/framework/processing/py/port/facebook.py:77-96 | an archive none of whose basenames is a known file gets status 1 |
| Facebook.YourPostsTie | src/framework/processing/py/port/facebook.py:31-54 | `your_posts_1.json`, listed by both categories, ties the scores and infers `json_en` |
| Facebook.YourPostsKept | src/framework/processing/py/port/facebook.py:83-87 | `your_posts_1.json` is collected as is |
| Facebook.YourPostsScores | src/framework/processing/py/port/facebook.py:24-69 | inference on `["your_posts_1.json"]` gives `json_en` |
| Facebook.ExtractAfterValidation | src/framework/processing/py/port/facebook.py:106-122 | after a valid status `extract_facebook_data` reads the files of the majority format; JSON only with strictly more `.json` names |
| Facebook.TimesInteracted | src/framework/processing/py/port/facebook.py:177 | `value.split(" ")[0]` is the text before the first space of the value: space-free, a prefix, followed by a space or the end of the value, and the whole value when it has no space |
| Facebook.TimesInteractedSplits | src/framework/processing/py/port/facebook.py:177 | the value is the count followed by a rest that is empty or starts with a space |
| Instagram.Tables | src/framework/processing/py/port/instagram.py:24-61 | the lookup iterates `json_en` then `html_en`, each id finds its own category, the three status ids find their own codes |
| Instagram.TablesInferable | src/framework/processing/py/port/instagram.py:24-55 | both categories list known files |
| Instagram.Validate | src/framework/processing/py/port/instagram.py:63-90 | the status is one of the three listed codes, chosen as in `Platform.ValidateZip` |
| Instagram.JsonEnEndings | src/framework/processing/py/port/instagram.py:29-38 | every `json_en` known file ends in `.json` after a stem |
| Instagram.HtmlEnEndings | src/framework/processing/py/port/instagram.py:44-53 | every `html_en` known file ends in `.html` after a stem |
| Instagram.JsonEnKept | src/framework/processing/py/port/instagram.py:71 | every `json_en` known file has a kept suffix |
| Instagram.HtmlEnKept | src/framework/processing/py/port/instagram.py:71 | every `html_en` known file has a kept suffix |
| Instagram.KnownFilesKept | src/framework/processing/py/port/instagram.py:69-73 | every known file survives the suffix filter |
| Instagram.OneKnownFileSuffices | src/framework/processing/py/port/instagram.py:63-81 | one known basename (1 of 8, 12.5%) makes the archive valid |
| Instagram.NoKnownFileInvalid | src/framework/processing/py/port/instagram.py:63-81 | an archive with no known basename gets status 1 |
| Instagram.TieGoesToJson | src/framework/processing/py/port/validate.py:83 | equal hits for both categories, at least one, infer `json_en` |
| Instagram.ExtractAfterValidation | src/framework/processing/py/port/instagram.py:92-107 | `extract_instagram_data` reads nothing unless the status is 0, and then the files of the majority format |
| Google.Tables | src/framework/processing/py/port/google.py:55-102 | the lookup iterates `json_en` then `json_nl`, each id finds its own category, the three status ids find their own codes |
| Google.TablesInferable | src/framework/processing/py/port/google.py:55-94 | both categories list known files |
| Google.Validate | src/framework/processing/py/port/google.py:105-125 | status 0 iff inference succeeds, 1 otherwise, 2 for a bad archive; any other failure propagates with no status recorded |
| Google.JsonEnKept | src/framework/processing/py/port/google.py:60-75 | every `json_en` known file has a suffix `validate` keeps |
| Google.JsonNlKept | src/framework/processing/py/port/google.py:81-92 | every `json_nl` known file has a suffix `validate` keeps |
| Google.KnownFilesKept | src/framework/processing/py/port/google.py:111-115 | every known file survives the `.json`/`.csv`/`.html` filter |
| Google.OneKnownFileSuffices | src/framework/processing/py/port/google.py:105-120 | one known basename (1 of at most 14, over 5%) makes the archive valid |
| Google.LoneMyActivity | src/framework/processing/py/port/google.py:72-91 | a lone `My Activity.json` scores 1/14 for `json_en` and 1/10 for `json_nl`, so `json_nl` is chosen |
| Google.MyActivityKept | src/framework/processing/py/port/google.py:111-115 | an archive path ending in `My Activity.json` is collected as its basename |
| Google.MyActivityScores | src/framework/processing/py/port/google.py:55-94 | inference on `["My Activity.json"]` gives `json_nl` |
| Google.DateCell | src/framework/processing/py/port/google.py:208-220 | an integer above 1e11 is read as milliseconds, any other integer or a bool as seconds, anything else goes to the date parser |
| Google.Flattened | src/framework/processing/py/port/google.py:225-227 | one `key_subkey` assignment per sub-entry, in order, with the sub-value |
| Google.ParseData | src/framework/processing/py/port/google.py:202-231 | one record per item, in order, each the item's key-by-key record |
| Google.ParseItem | src/framework/processing/py/port/google.py:205-229 | denotes one item's record: `data_type` first, then each entry's writes; `LastEntryWins` and the lemmas after it state its columns |
| Google.BuildItem | src/framework/processing/py/port/google.py:205-231 | the record starts with `data_type` and applies each entry's assignments in turn |
| Google.AddEntry | src/framework/processing/py/port/google.py:207-229 | one entry's assignments are applied to the record |
| Google.AddFlattened | src/framework/processing/py/port/google.py:226-227 | the inner loop applies the flattened assignments |
| Google.ApplyWritesConcat | src/framework/processing/py/port/google.py:207-229 | applying two runs of assignments is applying their concatenation |
| Google.WritesAppend | src/framework/processing/py/port/google.py:207-229 | the assignments of concatenated items are concatenated |
| Google.WritesOne | src/framework/processing/py/port/google.py:207-229 | the assignments of a single entry are that entry's |
| Google.LastEntryWins | src/framework/processing/py/port/google.py:207-229 | a column holds the value of the last entry that assigns it |
| Google.EntryWrites | src/framework/processing/py/port/google.py:208-229 | denotes the assignments for one entry; `ListJoined`, `DictFlattened`, `ScalarCopied` and `DateUnit` state each branch |
| Google.Writes | src/framework/processing/py/port/google.py:207-229 | denotes the assignments for an item, entry by entry; `WritesAppend`, `WritesOne` and `LastEntryWins` state it |
| Google.WritesAround | src/framework/processing/py/port/google.py:207-229 | an item's assignments split around entry `i` |
| Google.LastOfThree | src/framework/processing/py/port/google.py:207-229 | the last assignment to a key is in the last run that assigns it |
| Google.WritesFrom | src/framework/processing/py/port/google.py:207-229 | every column of a record is `Date` from a time entry, an entry's own key, or a `key_subkey` name |
| Google.DateNotFlattened | src/framework/processing/py/port/google.py:208-227 | no `key_subkey` name is `Date` |
| Google.DateUnit | src/framework/processing/py/port/google.py:208-216 | the last `time`/`Date` entry sets `Date`; an integer above 1e11 is milliseconds, otherwise seconds |
| Google.ListJoined | src/framework/processing/py/port/google.py:223-224 | a list value not overwritten later becomes its `', '`-joined text |
| Google.DictFlattened | src/framework/processing/py/port/google.py:225-227 | each sub-entry of a dict value, not overwritten later, lands under `key_subkey` |
| Google.ScalarCopied | src/framework/processing/py/port/google.py:228-229 | any other value, not overwritten later, is copied under its key |
| Google.DataTypeKept | src/framework/processing/py/port/google.py:206 | `data_type` stays the one passed in unless an entry assigns it |
| Google.Renamed | src/framework/processing/py/port/google.py:236-241 | renaming keeps the number of columns |
| Google.RenameOnlyMapped | src/framework/processing/py/port/google.py:236-241 | only `header`, `titleUrl`, `details_name` change name, and none of them survives |
| Google.RenamedPresent | src/framework/processing/py/port/google.py:236-241 | `Action`, `URL`, `Ad_Type` appear exactly when the old name or the new name was a column |
| Google.RenamedTo | src/framework/processing/py/port/google.py:236-241 | a target name appears exactly when its source or itself was a column |
| GoogleAaaa.Tables | src/framework/processing/py/port/google_aaaa.py:46-101 | the lookup iterates the four ids in list order, each finding its own category, and the three status ids find their own codes |
| GoogleAaaa.TablesInferable | src/framework/processing/py/port/google_aaaa.py:46-95 | every category lists known files |
| GoogleAaaa.Validate | src/framework/processing/py/port/google_aaaa.py:103-135 | status 2 for a bad archive, else 0 iff a category is inferred (its filetype being JSON or HTML); `validated_paths` is the kept list on every exit |
| GoogleAaaa.ValidIffInferred | src/framework/processing/py/port/google_aaaa.py:114-126 | the archive is valid exactly when some category is inferred, since every category is JSON or HTML |
| GoogleAaaa.CsvEnding | src/framework/processing/py/port/google_aaaa.py:111 | `comments.csv` and `reacties.csv` have a kept suffix |
| GoogleAaaa.JsonEnKept | src/framework/processing/py/port/google_aaaa.py:51-57 | the `json_en` known files have a kept suffix |
| GoogleAaaa.JsonNlKept | src/framework/processing/py/port/google_aaaa.py:75-81 | the `json_nl` known files have a kept suffix |
| GoogleAaaa.HtmlEnKept | src/framework/processing/py/port/google_aaaa.py:63-69 | the `html_en` known files have a kept suffix |
| GoogleAaaa.HtmlNlKept | src/framework/processing/py/port/google_aaaa.py:87-93 | the `html_nl` known files have a kept suffix |
| GoogleAaaa.KnownFileKept | src/framework/processing/py/port/google_aaaa.py:109-112 | every known file survives the `.json`/`.html`/`.csv` filter |
| GoogleAaaa.OneKnownFileSuffices | src/framework/processing/py/port/google_aaaa.py:103-120 | one known basename (1 of 5, 20%) makes the archive valid |
| GoogleAaaa.LoneMyActivity | src/framework/processing/py/port/google_aaaa.py:46-95 | a lone `My Activity.json` ties `json_en` and `json_nl` at 20% and `json_en` wins |
| GoogleAaaa.MyActivityKept | src/framework/processing/py/port/google_aaaa.py:109-112 | an archive path ending in `My Activity.json` is kept as its basename |
| GoogleAaaa.MyActivityScores | src/framework/processing/py/port/google_aaaa.py:46-95 | inference on `["My Activity.json"]` gives `json_en` |
| GoogleAaaa.JsonNotHtml | src/framework/processing/py/port/google_aaaa.py:188-191 | no name ends in both `.json` and `.html`, so the `elif` never hides a count |
| GoogleAaaa.CountFormats | src/framework/processing/py/port/google_aaaa.py:183-191 | the first pass counts the names ending in `.json` and in `.html` |
| GoogleAaaa.DataFormatRule | src/framework/processing/py/port/google_aaaa.py:183-194 | `max` over `{json, html, csv}` gives `json` iff json >= html, `html` iff html > json, and never `csv` |
| GoogleAaaa.DataFormat | src/framework/processing/py/port/google_aaaa.py:183-194 | denotes `max(file_counts, key=file_counts.get)` over the `json`, `html` and `csv` counts; its outcome is stated by `DataFormatRule` |
| GoogleAaaa.AsWrittenSelected | src/framework/processing/py/port/google_aaaa.py:206 | the entry test as written: every `.csv` entry passes it for every base path and format |
| GoogleAaaa.Selected | src/framework/processing/py/port/google_aaaa.py:206 | the intended entry test is stricter than the written one: whatever it admits, the written one admits |
| GoogleAaaa.FirstLoaded | src/framework/processing/py/port/google_aaaa.py:205-227 | the entry found for one base path is an archive entry that passes the test and loads non-empty data |
| GoogleAaaa.FirstLoadedIsFirst | src/framework/processing/py/port/google_aaaa.py:205-227 | nothing is found iff no entry qualifies; otherwise the earliest qualifying entry is taken |
| GoogleAaaa.PickFrom | src/framework/processing/py/port/google_aaaa.py:203-232 | the entry stored for a data type qualifies under one of its base paths |
| GoogleAaaa.ExtractedEntries | src/framework/processing/py/port/google_aaaa.py:197-242 | a data type is a key of the result iff its search finds an entry, and then holds that entry's data; no other key appears |
| GoogleAaaa.Extracted | src/framework/processing/py/port/google_aaaa.py:197-242 | denotes `extracted_data` after every data type; `ExtractedEntries` and `ExtractedPerType` state it |
| GoogleAaaa.MacMeta | src/framework/processing/py/port/google_aaaa.py:207-209 | denotes the macOS metadata skip; `FindEntry` and `AsWrittenPickedEntry` state that no such entry is stored |
| GoogleAaaa.BasePathsDistinct | src/framework/processing/py/port/google_aaaa.py:142-181 | the data types of the base-path table are distinct |
| GoogleAaaa.FindEntry | src/framework/processing/py/port/google_aaaa.py:205-230 | with the entry test as written (`(A and B) or C`), the innermost loop returns the first entry that passes it, is not macOS metadata and parses to non-empty data |
| GoogleAaaa.PickEntry | src/framework/processing/py/port/google_aaaa.py:203-232 | with the entry test as written, the loop over a data type's base paths stops at the first base path whose search finds an entry, in the order of the table |
| GoogleAaaa.ExtractZipContent | src/framework/processing/py/port/google_aaaa.py:138-242 | the format is the majority rule on the counts, and the result maps each data type to the data of its first entry found with the entry test as written, which admits every `.csv` entry for every data type |
| GoogleAaaa.PickedEntryBelongs | src/framework/processing/py/port/google_aaaa.py:205-209 | with the intended test, a stored entry lies under one of its base paths, has the format or `.csv` as extension and is not macOS metadata |
| GoogleAaaa.AsWrittenPickedEntry | src/framework/processing/py/port/google_aaaa.py:203-232 | as written, a stored entry is an archive entry, not macOS metadata, parses to data, and either lies under one of its base paths with the format's extension or is any `.csv` entry |
| GoogleAaaa.ExtractedPerType | src/framework/processing/py/port/google_aaaa.py:197-242 | with either entry test, a data type is a key of the result exactly when its search finds an entry, it then holds that entry's data, and no other key occurs |
| GoogleAaaa.DiffersAt | src/framework/processing/py/port/google_aaaa.py:206 | a name that differs from a base path inside it does not start with it |
| GoogleAaaa.ExampleEntries | src/framework/processing/py/port/google_aaaa.py:142-146 | where the comment export and the ads file of the example lie relative to the ads base paths |
| GoogleAaaa.CsvTakenForAds | src/framework/processing/py/port/google_aaaa.py:206 | as written, a comment export listed before the ads file is stored as the `ads` data; with the intended test the ads file is |
| GoogleAaaa.IndexOf | src/framework/processing/py/port/google_aaaa.py:261-265 | `headers.index(x)` is the first position of `x`, failing iff `x` is absent |
| GoogleAaaa.Columns | src/framework/processing/py/port/google_aaaa.py:258-273 | five column indices |
| GoogleAaaa.ColumnsResolved | src/framework/processing/py/port/google_aaaa.py:258-273 | each index is the first position of the English header if present, else of the Dutch one; if any of the five is missing entirely all indices fall back to 0–4 |
| GoogleAaaa.CsvRow | src/framework/processing/py/port/google_aaaa.py:276-308 | a kept row is long enough for every index, and yields a `youtube_comment` / `Comment` record whose URL is the watch prefix plus its video id and whose details carry its ids |
| GoogleAaaa.CsvRowsSnoc | src/framework/processing/py/port/google_aaaa.py:276-308 | one more data row appends its record unless it is skipped |
| GoogleAaaa.ParseCsvContent | src/framework/processing/py/port/google_aaaa.py:246-312 | the comments are those of the data rows under the header's columns; no header row gives none |
| GoogleAaaa.CommentsFromRows | src/framework/processing/py/port/google_aaaa.py:276-308 | fewer comments than rows (the header is not a comment), and every comment links to the video of its own row |
| GoogleAaaa.CsvRows | src/framework/processing/py/port/google_aaaa.py:276-308 | denotes the comments of the data rows, skipped rows left out; `CsvRowsSnoc` and `CommentsFromRows` state it |
| GoogleAaaa.ShortRowSkipped | src/framework/processing/py/port/google_aaaa.py:279-306 | a row too short for a column is skipped |
| GoogleAaaa.TitleFallbacks | src/framework/processing/py/port/google_aaaa.py:286-290 | empty comment text gives `""`, text that is not JSON is kept, decoded text gives its `text` field |
| GoogleAaaa.RemoveGoogleUrlPrefix | src/framework/processing/py/port/google_aaaa.py:314-318 | a prefixed string loses the prefix exactly, any other string is returned unchanged |
| GoogleAaaa.RemovesPrefixOnce | src/framework/processing/py/port/google_aaaa.py:316-317 | the prefix is stripped only once, even when it repeats |
| GoogleAaaa.RemoveIdempotentWhenUnprefixed | src/framework/processing/py/port/google_aaaa.py:314-318 | applying it again changes nothing when the result no longer starts with the prefix |
| Records.SafeGet | src/framework/processing/py/port/tiktok.py:31-37 | the loop returns the value at the end of the path, or the default as soon as a step fails |
| Records.SafeGetValue | src/framework/processing/py/port/tiktok.py:31-37 | no keys give the data itself, and a path that fails gives the default |
| Records.WalkAppend | src/framework/processing/py/port/tiktok.py:32-36 | following a path in two legs is following it at once |
| Records.Walk | src/framework/processing/py/port/tiktok.py:32-36 | denotes the walk `safe_get` makes down dict keys; `WalkAppend` and `SafeGetValue` state it |
| Records.SafeGetStep | src/framework/processing/py/port/tiktok.py:31-37 | no keys gives `data`; `safe_get(d, k, *ks)` is `safe_get(d[k], *ks)` when `d` is a dict holding `k`, else the default |
| Records.SafeGetFound | src/framework/processing/py/port/insta.py:38-44 | where the full path exists the result is the value at its end, whatever the default |
| Records.Field | src/framework/processing/py/port/tiktok.py:45-46 | `d[k]` succeeds iff `d` is a dict holding `k` |
| Records.GetOr | src/framework/processing/py/port/insta.py:53-58 | `d.get(k, default)` succeeds iff `d` is a dict, giving the default for a missing key |
| Records.First | src/framework/processing/py/port/insta.py:53 | `x[0]` succeeds iff `x` is a non-empty list or string |
| Records.Items | src/framework/processing/py/port/tiktok.py:49 | iteration succeeds on lists (their items), dicts (their keys) and strings (their characters) only |
| Records.In | src/framework/processing/py/port/insta.py:146-149 | `needle in x` is key membership on dicts, substring on strings, element membership on lists, and raises otherwise |
| Records.PyInt | src/framework/processing/py/port/insta.py:59 | `int(x)` keeps integers and refuses `None`, lists and dicts |
| Records.ParseIntOfString | src/framework/processing/py/port/insta.py:59 | `int(str(i)) == i` |
| Records.ParseInt | src/framework/processing/py/port/insta.py:59 | denotes `int(s)` on a string: optional outer whitespace, an optional sign, decimal digits; `ParseIntOfString` states the round trip |
| Records.NoSpaceStrip | src/framework/processing/py/port/insta.py:59 | a string without surrounding whitespace is its own strip |
| Seqs.FilterMap | src/framework/processing/py/port/facebook.py:83-87 | a filtered comprehension, here the kept basenames, is never longer than its input |
| Seqs.FilterMapMembers | src/framework/processing/py/port/facebook.py:83-87 | its members are exactly the images of the kept inputs |
| Seqs.FlatMapAppend | src/framework/processing/py/port/google.py:207-229 | the assignments of concatenated entries are the concatenated assignments |
| Seqs.FlatMapOne | src/framework/processing/py/port/google.py:207-229 | the assignments of one entry are that entry's own |
| Seqs.FlatMapMembers | src/framework/processing/py/port/google.py:207-229 | every assignment comes from some entry |
| Seqs.Successes | src/framework/processing/py/port/insta.py:51-63 | a loop that skips failing items yields at most one result per item |
| Seqs.SuccessesMembers | src/framework/processing/py/port/insta.py:51-63 | its results are exactly the results of the items that succeed |
| Seqs.SuccessesTotal | src/framework/processing/py/port/insta.py:51-63 | when every item succeeds no item is skipped and order is kept |
| Seqs.AllOf | src/framework/processing/py/port/tiktok.py:41-50 | a raising comprehension, when it succeeds, maps item `i` to result `i` |
| Seqs.AllOfFails | src/framework/processing/py/port/tiktok.py:41-50 | it fails exactly when some item fails |
| TikTok.MissingPathNoRows | src/framework/processing/py/port/tiktok.py:33-40 | a missing path gives the default `[]` and so no rows |
| TikTok.OneRowPerItem | src/framework/processing/py/port/tiktok.py:39-50 | on success there is exactly one row per item, row `i` the mapping of item `i`; the parse raises iff the value is not iterable or some item's mapping raises |
| TikTok.ParseWith | src/framework/processing/py/port/tiktok.py:39-50 | denotes `[row(x) for x in safe_get(...)]`; `OneRowPerItem` and `MissingPathNoRows` state it |
| TikTok.ParseHashtags | src/framework/processing/py/port/tiktok.py:39-50 | without the hashtag list there are no rows; every row is a `tiktok_hashtag`/`HashtagUse` row with `Date == ''` |
| TikTok.ParseLoginHistory | src/framework/processing/py/port/tiktok.py:52-67 | without the login list there are no rows; every row is a `tiktok_login`/`Login` row whose title starts with `Login from ` |
| TikTok.ParseVideoHistory | src/framework/processing/py/port/tiktok.py:69-80 | without the video list there are no rows; every row is a `tiktok_video_view`/`VideoView` row titled `Watched video` |
| TikTok.ParseShareHistory | src/framework/processing/py/port/tiktok.py:82-93 | without the share list there are no rows; every row is a `tiktok_share`/`Share` row |
| TikTok.ParseLikeHistory | src/framework/processing/py/port/tiktok.py:95-106 | without the like list there are no rows; every row is a `tiktok_like`/`Like` row titled `Liked video` |
| TikTok.ParseSearchHistory | src/framework/processing/py/port/tiktok.py:108-119 | without the search list there are no rows; every row is a `tiktok_search`/`Search` row with an empty URL |
| TikTok.ParseAdInfo | src/framework/processing/py/port/tiktok.py:121-132 | without the ad list there are no rows; every row is a `tiktok_ad_activity`/`AdActivity` row with an empty URL |
| TikTok.ParseComments | src/framework/processing/py/port/tiktok.py:134-145 | without the comment list there are no rows; every row is a `tiktok_comment`/`Comment` row |
| TikTok.HashtagRow | src/framework/processing/py/port/tiktok.py:41-49 | a hashtag row exists iff the item has both keys; it is `tiktok_hashtag` / `HashtagUse` with `Date ''` |
| TikTok.LoginRow | src/framework/processing/py/port/tiktok.py:54-66 | a login row exists iff the item has its six keys; the title starts with `Login from ` |
| TikTok.VideoRow | src/framework/processing/py/port/tiktok.py:71-79 | a video row exists iff the item has `Link` and `Date`; title `Watched video`, URL the link |
| TikTok.ShareRow | src/framework/processing/py/port/tiktok.py:84-92 | a share row exists iff the item has its four keys; details carry the method |
| TikTok.LikeRow | src/framework/processing/py/port/tiktok.py:97-105 | a like row exists iff the item has `Link` and `Date`; title `Liked video` |
| TikTok.SearchRow | src/framework/processing/py/port/tiktok.py:110-118 | a search row exists iff the item has `SearchTerm` and `Date`; empty URL |
| TikTok.AdRow | src/framework/processing/py/port/tiktok.py:123-131 | an ad row exists iff the item has its three keys; the date is its `TimeStamp` |
| TikTok.CommentRow | src/framework/processing/py/port/tiktok.py:136-144 | a comment row exists iff the item has its four keys; details carry the photo |
| TikTok.AllRows | src/framework/processing/py/port/tiktok.py:39-145 | a property of every row a mapping can give holds of every parsed row |
| TikTok.HashtagWithoutLinkRaises | src/framework/processing/py/port/tiktok.py:45-46 | a hashtag without `HashtagLink` makes the whole parse raise |
| Insta.ParseList | src/framework/processing/py/port/insta.py:50-64 | the loop appends the row of each item whose mapping succeeds, in order |
| Insta.ParseValue | src/framework/processing/py/port/insta.py:48-64 | denotes the rows a `parse_*` function returns; `SkipsOnlyFailing` and `ParseList` state it |
| Insta.SkipsOnlyFailing | src/framework/processing/py/port/insta.py:48-64 | a missing path gives `[]`; otherwise never more rows than items, and the rows are exactly the results of the items that succeed |
| Insta.RowsHold | src/framework/processing/py/port/insta.py:48-64 | a property of every row a mapper can build holds of every row the parse returns |
| Insta.Following | src/framework/processing/py/port/insta.py:46-65 | without the following list there are no rows; every row is an `instagram_following`/`Follow` row without details |
| Insta.Posts | src/framework/processing/py/port/insta.py:67-89 | without the media list there are no rows; every row is an `instagram_post`/`Post` row |
| Insta.Likes | src/framework/processing/py/port/insta.py:91-109 | without the likes list there are no rows; every row is an `instagram_like`/`Like` row |
| Insta.AdsClicked | src/framework/processing/py/port/insta.py:111-129 | without the clicked-ads list there are no rows; every row is an `instagram_ad_clicked`/`AdClick` row with an empty URL |
| Insta.AdsViewed | src/framework/processing/py/port/insta.py:131-157 | without the viewed-ads list there are no rows; every row is an `instagram_ad_viewed`/`AdView` row with an empty URL |
| Insta.PostsViewed | src/framework/processing/py/port/insta.py:159-177 | without the viewed-posts list there are no rows; every row is an `instagram_post_viewed`/`PostView` row with an empty URL |
| Insta.VideosWatched | src/framework/processing/py/port/insta.py:179-197 | without the watched-videos list there are no rows; every row is an `instagram_video_watched`/`VideoWatch` row with an empty URL |
| Insta.FollowingRow | src/framework/processing/py/port/insta.py:53-61 | a following row is `instagram_following` / `Follow`; an account without `string_list_data` gives `Unknown Account` at timestamp 0 |
| Insta.PostRow | src/framework/processing/py/port/insta.py:74-85 | a post row exists iff the post is a dict; its date is `creation_timestamp` or `''` |
| Insta.LikeRow | src/framework/processing/py/port/insta.py:98-105 | a like row takes its title and the first listed `href` |
| Insta.AdClickedRow | src/framework/processing/py/port/insta.py:118-125 | an ad-clicked row has an empty URL and title `Unknown Ad` when the ad has none |
| Insta.AdViewedRow | src/framework/processing/py/port/insta.py:136-153 | the title differs from `Ad Viewed` only via `Author`, and the date is set only from a truthy `Time` timestamp |
| Insta.AdWithoutMapData | src/framework/processing/py/port/insta.py:138-153 | an ad without `string_map_data` yields `Ad Viewed` with `Date ''` |
| Insta.AuthorSetsTitle | src/framework/processing/py/port/insta.py:147-148 | an `Author` entry sets the title to its value |
| Insta.FalsyTimestampNoDate | src/framework/processing/py/port/insta.py:149-152 | a falsy `Time` timestamp leaves the date empty |
| Insta.ViewedRow | src/framework/processing/py/port/insta.py:166-173 | a viewed row takes its title from `Author.value` and needs a `Time.timestamp` |
| Insta.PostsOfDicts | src/framework/processing/py/port/insta.py:67-89 | a list of dict posts gives one row per post |
| Insta.PlainAdsAllDefault | src/framework/processing/py/port/insta.py:131-157 | ads without `string_map_data` all give the default row |
| Insta.NumberRaises | src/framework/processing/py/port/insta.py:48-51 | a number at the path makes the loop header raise |
| Helpers.SpaceRunSpec | src/framework/processing/py/port/helpers.py:493 | the leading whitespace run is all whitespace and is followed by a non-space |
| Helpers.WordRunSpec | src/framework/processing/py/port/helpers.py:493 | the leading word run has no whitespace and is followed by whitespace |
| Helpers.WordsAreWords | src/framework/processing/py/port/helpers.py:493 | every word is non-empty and free of whitespace |
| Helpers.Words | src/framework/processing/py/port/helpers.py:493 | denotes `text.split()`, the maximal whitespace-free runs; `WordsAreWords` and `StrSquishJoinsWords` state it |
| Helpers.WordsSkipSpaces | src/framework/processing/py/port/helpers.py:493 | leading whitespace does not change the words |
| Helpers.CollapseWord | src/framework/processing/py/port/helpers.py:493 | a whitespace-free prefix passes through the `\s+` substitution unchanged |
| Helpers.CollapseIsJoin | src/framework/processing/py/port/helpers.py:493 | the substitution of a string not starting with whitespace is its words joined by one space, plus one space when it ended in whitespace |
| Helpers.OneWord | src/framework/processing/py/port/helpers.py:493 | the substitution of a single word is that word |
| Helpers.WordThenMore | src/framework/processing/py/port/helpers.py:493 | the join shape of the rest extends to a word followed by the rest |
| Helpers.WordsStart | src/framework/processing/py/port/helpers.py:493 | a string starting with a non-space has a word |
| Helpers.SplitAfterWord | src/framework/processing/py/port/helpers.py:493 | the substitution and the words both split after the first word and its whitespace run |
| Helpers.SplitCollapse | src/framework/processing/py/port/helpers.py:493 | the substitution writes the first word, one space, then the substitution of the rest |
| Helpers.CollapseWordSpace | src/framework/processing/py/port/helpers.py:493 | a whitespace run after a word becomes one space |
| Helpers.SplitWords | src/framework/processing/py/port/helpers.py:493 | the words are the first word followed by the words of the rest |
| Helpers.CollapseSpaces | src/framework/processing/py/port/helpers.py:493 | a leading whitespace run becomes one space |
| Helpers.SplitEnds | src/framework/processing/py/port/helpers.py:493 | the string ends in whitespace iff the rest after the first word and its run is empty or does |
| Helpers.JoinWordsEdges | src/framework/processing/py/port/helpers.py:493 | words joined by spaces neither start nor end with whitespace |
| Helpers.StripSpaceFront | src/framework/processing/py/port/helpers.py:493 | a leading space is stripped |
| Helpers.StripSpaceBack | src/framework/processing/py/port/helpers.py:493 | a trailing space is stripped |
| Helpers.StrSquishJoinsWords | src/framework/processing/py/port/helpers.py:488-493 | `str_squish(text)` is the whitespace-separated words of `text` joined by single spaces |
| Helpers.StrSquish | src/framework/processing/py/port/helpers.py:488-493 | `str_squish` leaves no whitespace at either end; `StrSquishJoinsWords` gives its value |
| Helpers.StrSquishShape | src/framework/processing/py/port/helpers.py:488-493 | the result has no whitespace at either end and every whitespace character in it is a lone space between two non-spaces |
| Helpers.JoinWordsSpaces | src/framework/processing/py/port/helpers.py:493 | in words joined by spaces every whitespace is a lone space between non-spaces |
| Helpers.ChunkCount | src/framework/processing/py/port/helpers.py:33 | for a positive row count there are `ceil(n / row_count)` chunks, none for no rows; a negative row count gives none |
| Helpers.ChunkCountPositive | src/framework/processing/py/port/helpers.py:33 | the count expression is the ceiling of the division for positive row counts |
| Helpers.ChunkCountNegative | src/framework/processing/py/port/helpers.py:33 | a negative row count gives no chunks |
| Helpers.StartIsProduct | src/framework/processing/py/port/helpers.py:36 | chunk `i` starts at `i * row_count` |
| Helpers.StartMono | src/framework/processing/py/port/helpers.py:36 | later chunks start later |
| Helpers.ChunkStart | src/framework/processing/py/port/helpers.py:33-36 | every chunk starts inside the rows |
| Helpers.SplitDataframeSpec | src/framework/processing/py/port/helpers.py:24-38 | the chunks concatenate back to the rows; each has 1 to `row_count` rows and all but the last exactly `row_count` |
| Helpers.SplitDataframe | src/framework/processing/py/port/helpers.py:24-38 | a negative row count gives no chunks, and every chunk holds between one and `row_count` rows |
| Helpers.Chunk | src/framework/processing/py/port/helpers.py:36 | a chunk that starts inside the table holds between one and `row_count` rows |
| Helpers.ConcatPrefix | src/framework/processing/py/port/helpers.py:36 | the first `i` chunks concatenate to the rows before `i * row_count` |
| Denest.FieldWritesSnoc | src/framework/processing/py/port/helpers.py:182-187 | one more dict entry appends its writes |
| Denest.ItemWritesSnoc | src/framework/processing/py/port/helpers.py:190-191 | one more list item appends its writes under its index |
| Denest.ApplyWritesConcat | src/framework/processing/py/port/helpers.py:187-194 | applying two runs of updates is applying their concatenation |
| Denest.FieldStep | src/framework/processing/py/port/helpers.py:182-187 | one loop step over a dict entry applies that entry's writes |
| Denest.ItemStep | src/framework/processing/py/port/helpers.py:190-191 | one loop step over a list item applies that item's writes |
| Denest.ScalarWrite | src/framework/processing/py/port/helpers.py:193-194 | a scalar is stored under its name with the leading character dropped |
| Denest.DenestInto | src/framework/processing/py/port/helpers.py:168-196 | the recursive call leaves the shared dict as the old one updated with the writes of its input |
| Denest.DenestFields | src/framework/processing/py/port/helpers.py:181-187 | the dict loop applies the writes of every entry in order |
| Denest.DenestItems | src/framework/processing/py/port/helpers.py:189-191 | the list loop applies the writes of every item in order, named by index |
| Denest.DictDenester | src/framework/processing/py/port/helpers.py:168-196 | the result is a fresh dict updated with the writes of the whole input |
| Denest.DenestWrites | src/framework/processing/py/port/helpers.py:168-196 | denotes the assignments the denester makes, in order; `DictDenesterLeaves` states what they leave in the result |
| Denest.JoinDashCons | src/framework/processing/py/port/helpers.py:184-191 | extending a name by one step and then the rest is extending it by all steps |
| Denest.DenestSound | src/framework/processing/py/port/helpers.py:181-194 | every write is a scalar leaf under its `-`-joined path with the first character dropped |
| Denest.FieldSound | src/framework/processing/py/port/helpers.py:181-187 | every write of a dict's entries is a leaf of the dict |
| Denest.ItemSound | src/framework/processing/py/port/helpers.py:189-191 | every write of a list's items is a leaf of the list |
| Denest.DenestComplete | src/framework/processing/py/port/helpers.py:181-194 | every scalar leaf is written under its path |
| Denest.FieldWritesContain | src/framework/processing/py/port/helpers.py:182-187 | an entry's writes are among the dict's |
| Denest.ItemWritesContain | src/framework/processing/py/port/helpers.py:190-191 | an item's writes are among the list's |
| Denest.DictDenesterLeaves | src/framework/processing/py/port/helpers.py:168-196 | every key of the result names a scalar leaf of the input holding its value, and every leaf path is a key; empty containers contribute nothing |
| Denest.LeafKeysSound | src/framework/processing/py/port/helpers.py:168-196 | every key of the result names a leaf holding its value |
| Denest.WrittenFrom | src/framework/processing/py/port/helpers.py:187-194 | a key of the result was written with its final value |
| Denest.LeafKeysComplete | src/framework/processing/py/port/helpers.py:168-196 | every leaf path is a key of the result |
| JsonKeys.JoinUnderCons | src/framework/processing/py/port/helpers.py:516 | extending a prefix by one key and then the rest is extending it by all keys |
| JsonKeys.KeysSound | src/framework/processing/py/port/helpers.py:496-526 | every returned path is the `__`-joined trail of kept keys of the input |
| JsonKeys.FieldKeysSound | src/framework/processing/py/port/helpers.py:509-520 | every path from a dict's entries is a trail of the dict |
| JsonKeys.ItemKeysSound | src/framework/processing/py/port/helpers.py:521-524 | every path from a list's items is a trail of the list |
| JsonKeys.KeysComplete | src/framework/processing/py/port/helpers.py:496-526 | the path of every trail is returned |
| JsonKeys.FieldKeysContain | src/framework/processing/py/port/helpers.py:510-520 | a kept entry contributes its path and the paths below it |
| JsonKeys.ItemKeysContain | src/framework/processing/py/port/helpers.py:522-524 | an item's paths are among the list's |
| JsonKeys.GetJsonKeysSpec | src/framework/processing/py/port/helpers.py:496-526 | `get_json_keys(data)` is exactly the set of `__`-joined trails of kept keys (keys whose lower case holds `badges`, `messages` or `cookie` prune their subtree), lists passing through |
| JsonKeys.GetJsonKeys | src/framework/processing/py/port/helpers.py:496-526 | a scalar has no key paths, and every kept key of a dict is itself one of its paths; `GetJsonKeysSpec` gives the whole set |
| JsonKeys.FieldKeys | src/framework/processing/py/port/helpers.py:509-520 | every kept key of the entries contributes its own path |
| Helpers.SpaceRun | src/framework/processing/py/port/helpers.py:493 | the leading whitespace run lies within the text |
| Helpers.WordRun | src/framework/processing/py/port/helpers.py:493 | the leading word run lies within the text |
| Helpers.EndsAfter | src/framework/processing/py/port/helpers.py:493 | ending in whitespace is decided by the rest after a whitespace run |
| Helpers.JoinStep | src/framework/processing/py/port/helpers.py:493 | a word followed by one space and the joined rest is the join of all words |
| Helpers.PrefixOfRun | src/framework/processing/py/port/helpers.py:493 | a prefix of a whitespace-free run is whitespace-free |
| Trees.ChildrenSmaller | src/framework/processing/py/port/helpers.py:213-215 | the values a dict or list adds to the queue are smaller than it |
| Trees.SizeAllIsQueueSize | src/framework/processing/py/port/helpers.py:205-215 | the size of a node's children is the size of the queue they form |
| Trees.QueueSizeAppend | src/framework/processing/py/port/helpers.py:213-215 | queue size adds up over concatenation |
| Trees.NextShrinks | src/framework/processing/py/port/helpers.py:205-215 | one `popleft` and `extend` step makes the queue strictly smaller, so the search ends |
| Trees.FindItemsBfs | src/framework/processing/py/port/helpers.py:200-220 | the while loop over the deque returns the search's result |
| Trees.ReachesChild | src/framework/processing/py/port/helpers.py:213-215 | what a child reaches, its parent reaches |
| Trees.ReachesSplit | src/framework/processing/py/port/helpers.py:213-215 | what a node reaches other than itself, one of its children reaches |
| Trees.NextAt | src/framework/processing/py/port/helpers.py:206-215 | the next queue is the rest of the queue followed by the popped node's children |
| Trees.HolderMoves | src/framework/processing/py/port/helpers.py:205-215 | a dict holding the key and reached from the queue stays reachable after a step that did not find the key |
| Trees.HolderBack | src/framework/processing/py/port/helpers.py:205-215 | whatever the next queue reaches, the current queue reaches |
| Trees.BfsFindSpec | src/framework/processing/py/port/helpers.py:205-217 | the search finds a value iff some dict reachable from the queue holds the key, and the value is that dict's |
| Trees.BfsFind | src/framework/processing/py/port/helpers.py:205-217 | denotes the breadth-first search over the queue; `BfsFindSpec` states what it finds |
| Trees.BfsResult | src/framework/processing/py/port/helpers.py:200-220 | the result is the replacement or a truthy found value |
| Trees.FindItemsBfsSpec | src/framework/processing/py/port/helpers.py:200-217 | with no dict holding the key the replacement is returned; any other result is a truthy value of a reachable dict holding the key |
| Trees.BfsShallowFirst | src/framework/processing/py/port/helpers.py:203-213 | a shallower holder is found before a deeper one listed earlier |
| Trees.BfsFalsyStops | src/framework/processing/py/port/helpers.py:209-212 | a falsy value at the first holder returns the replacement without searching further |
| Trees.LeastMatchUnique | src/framework/processing/py/port/helpers.py:248-253 | the earliest key of least depth is unique |
| Trees.FindItems | src/framework/processing/py/port/helpers.py:224-257 | no matching key gives `""`; otherwise `str` of the value of the earliest matching key with the fewest `-` |
| Trees.FindItemsExample | src/framework/processing/py/port/helpers.py:232-239 | the documented example returns `2` |
| Trees.SecondOfThree | src/framework/processing/py/port/helpers.py:248-253 | among two matches the less nested one wins |
| Trees.ExampleMatches | src/framework/processing/py/port/helpers.py:232-237 | which keys of the example contain `asd` |
| Trees.ExampleDepths | src/framework/processing/py/port/helpers.py:250 | the depths of the example keys |
| Dates.ReplaceFirstReplacesFirst | src/framework/processing/py/port/helpers.py:328 | `replace(pat, rep, 1)` replaces the first occurrence only, and changes nothing without one |
| Dates.ReplaceMonths | src/framework/processing/py/port/helpers.py:318-331 | the loop with early return computes the month replacement |
| Dates.ReplacedMonthsNone | src/framework/processing/py/port/helpers.py:331 | no month in the string leaves it unchanged |
| Dates.ReplacedMonthsPick | src/framework/processing/py/port/helpers.py:326-329 | the first listed month present is replaced, once |
| Dates.ReplaceMonthsEffect | src/framework/processing/py/port/helpers.py:318-331 | only the first occurrence of the first of `mrt`, `mei`, `okt` present is replaced; the length is kept |
| Dates.WordAtTail | src/framework/processing/py/port/helpers.py:395 | a `\b`-delimited match in a tail is one in the whole string |
| Dates.NoOverlap | src/framework/processing/py/port/helpers.py:395 | matches of a word do not overlap |
| Dates.SubWordLength | src/framework/processing/py/port/helpers.py:395 | substituting a word of the same length keeps the length |
| Dates.SubWordMatches | src/framework/processing/py/port/helpers.py:395 | every `\b`-delimited occurrence is replaced |
| Dates.SubWord | src/framework/processing/py/port/helpers.py:395 | denotes `re.sub(r'\b' + w + r'\b', e, s)`; `SubWordMatches` and `SubWordElsewhere` state it, and `MonthTableEffect` its use |
| Dates.SliceAfterPrefix | src/framework/processing/py/port/helpers.py:395 | a slice past a prefix is a slice of the rest |
| Dates.MatchesAfterMatch | src/framework/processing/py/port/helpers.py:395 | the replacement extends past a match at the start |
| Dates.MatchesAfterCopy | src/framework/processing/py/port/helpers.py:395 | the replacement extends past a copied first character |
| Dates.CopyShift | src/framework/processing/py/port/helpers.py:395 | matches shift by one past a copied character |
| Dates.SubWordElsewhere | src/framework/processing/py/port/helpers.py:395 | characters outside every match are unchanged |
| Dates.ElsewhereAfterMatch | src/framework/processing/py/port/helpers.py:395 | unchanged characters extend past a match at the start |
| Dates.ElsewhereAfterCopy | src/framework/processing/py/port/helpers.py:395 | unchanged characters extend past a copied first character |
| Dates.SubWordSame | src/framework/processing/py/port/helpers.py:390-395 | substituting a word by itself changes nothing |
| Dates.LettersWord | src/framework/processing/py/port/helpers.py:390-392 | a three-letter month is a word |
| Dates.MonthTableWords | src/framework/processing/py/port/helpers.py:389-393 | every month of the table is a word |
| Dates.TranslatedLength | src/framework/processing/py/port/helpers.py:394-395 | the substitution loop keeps the length |
| Dates.SkipSame | src/framework/processing/py/port/helpers.py:394-395 | an identity pair of the table changes nothing |
| Dates.MonthShapeHolds | src/framework/processing/py/port/helpers.py:389-393 | only `mrt`, `mei` and `okt` differ from their translation |
| Dates.TranslatedStep | src/framework/processing/py/port/helpers.py:394-395 | one loop step substitutes one pair |
| Dates.SkipRange | src/framework/processing/py/port/helpers.py:394-395 | a run of identity pairs changes nothing |
| Dates.ShapeEffect | src/framework/processing/py/port/helpers.py:394-395 | the loop amounts to substituting `mrt`, `mei`, `okt` in turn |
| Dates.MonthTableEffect | src/framework/processing/py/port/helpers.py:389-395 | the month loop replaces every whole-word `mrt`, `mei` and `okt` by `mar`, `may` and `oct` |
| Dates.MonthTableLength | src/framework/processing/py/port/helpers.py:389-395 | the month loop keeps the length |
| Dates.CountDigits | src/framework/processing/py/port/helpers.py:379 | a digit string has no dot |
| Dates.FirstChar | src/framework/processing/py/port/helpers.py:379 | the first occurrence of a character is found |
| Dates.FirstDot | src/framework/processing/py/port/helpers.py:379 | the first dot is found |
| Dates.NumericIsDotted | src/framework/processing/py/port/helpers.py:379 | a numeric text that is not all digits is digits, one dot, digits |
| Dates.DottedIsNumeric | src/framework/processing/py/port/helpers.py:379 | digits, one dot, digits is numeric text |
| Dates.NumericTextIff | src/framework/processing/py/port/helpers.py:379 | the epoch test holds iff the text is all digits or digits around a single dot |
| Dates.NumericParts | src/framework/processing/py/port/helpers.py:379-381 | both sides of the dot are digits |
| Dates.RobustDatetimeParser | src/framework/processing/py/port/helpers.py:361-441 | the method computes the parser's result, with the library stages as a parameter |
| Dates.RobustDatetime | src/framework/processing/py/port/helpers.py:361-441 | denotes the parser's result: `""` for blank text, the ISO text of the truncated epoch seconds for exact numeric text, otherwise the later stages on the month-translated text; the branch lemmas below state each case |
| Dates.BlankGivesEmpty | src/framework/processing/py/port/helpers.py:372-376 | input that is blank after `str().strip()` gives `""` |
| Dates.LowerKeeps | src/framework/processing/py/port/helpers.py:372 | lower-casing keeps a string without capitals |
| Dates.PlainText | src/framework/processing/py/port/helpers.py:372 | digits and dots pass `strip().lower()` unchanged |
| Dates.DottedText | src/framework/processing/py/port/helpers.py:372-379 | `a.b` of digits is numeric text with those parts |
| Dates.NumericBranch | src/framework/processing/py/port/helpers.py:379-383 | numeric text whose float is exact takes the epoch branch |
| Dates.EpochBranch | src/framework/processing/py/port/helpers.py:379-383 | `a.b` in the supported range gives the ISO text of `a` seconds: the fraction is truncated |
| Dates.EpochText | src/framework/processing/py/port/helpers.py:379-383 | numeric text in range gives the ISO text of its seconds |
| Dates.EpochBranchInstant | src/framework/processing/py/port/helpers.py:379-383 | that result is a valid ISO date-time denoting exactly `a` seconds after the epoch |
| Dates.IntegerBranch | src/framework/processing/py/port/helpers.py:372-383 | an integer in range gives its ISO text |
| Dates.WordBranch | src/framework/processing/py/port/helpers.py:388-399 | any other non-blank text goes, with whole-word Dutch months replaced, to the later stages |
| Reconstruct.LineRun | src/framework/processing/py/port/reconstruct_json.py:12 | the run up to the next line break lies within the text |
| Reconstruct.LineRunSpec | src/framework/processing/py/port/reconstruct_json.py:12 | that run holds no break and ends at a break or at the end |
| Reconstruct.LinesHaveNoBreaks | src/framework/processing/py/port/reconstruct_json.py:12 | no line of `splitlines()` holds a line-break character |
| Reconstruct.Lines | src/framework/processing/py/port/reconstruct_json.py:12 | denotes `splitlines()`; `LinesHaveNoBreaks` states it |
| Reconstruct.ExtractKeysFromString | src/framework/processing/py/port/reconstruct_json.py:1-20 | the loop unites the keys of the marked lines; a key is in the result iff some line holding `Extracted data keys:` yields it |
| Reconstruct.MarkedKeysSpec | src/framework/processing/py/port/reconstruct_json.py:11-19 | the keys are exactly those of the marked lines |
| Reconstruct.MarkedKeys | src/framework/processing/py/port/reconstruct_json.py:11-19 | denotes the union of the keys of the marked lines; `MarkedKeysSpec` states it |
| Reconstruct.UnmarkedIgnored | src/framework/processing/py/port/reconstruct_json.py:13 | a line without the marker adds nothing |
| Reconstruct.QuoteAll | src/framework/processing/py/port/reconstruct_json.py:19 | each key quoted as in the logged set |
| Reconstruct.StripQuote | src/framework/processing/py/port/reconstruct_json.py:19 | `strip("'")` undoes the quoting of a plain key |
| Reconstruct.NoCommaNoSep | src/framework/processing/py/port/reconstruct_json.py:18 | text without a comma holds no `", "` |
| Reconstruct.FindSepAfter | src/framework/processing/py/port/reconstruct_json.py:18 | the first separator follows a comma-free piece |
| Reconstruct.SplitQuoted | src/framework/processing/py/port/reconstruct_json.py:18 | `split(", ")` of joined quoted plain keys gives the quoted keys back |
| Reconstruct.FindBrace | src/framework/processing/py/port/reconstruct_json.py:15 | `find('{')` finds the first brace |
| Reconstruct.BodyBetween | src/framework/processing/py/port/reconstruct_json.py:15-17 | the slice is the text between the first `{` and the last `}` |
| Reconstruct.RFindLast | src/framework/processing/py/port/reconstruct_json.py:16 | `rfind` finds the last occurrence |
| Reconstruct.UnquoteAll | src/framework/processing/py/port/reconstruct_json.py:19 | stripping the quotes of quoted plain keys gives the set of keys |
| Reconstruct.LogLineKeys | src/framework/processing/py/port/reconstruct_json.py:13-19 | a log line printing a non-empty set of plain keys yields exactly those keys |
| Reconstruct.LineKeys | src/framework/processing/py/port/reconstruct_json.py:13-19 | denotes the keys of one marked line; `LogLineKeys`, `NoBraces` and `EmptySetLine` state it |
| Reconstruct.FindAbsent | src/framework/processing/py/port/reconstruct_json.py:15 | `find` of an absent character is -1 |
| Reconstruct.RFindAbsent | src/framework/processing/py/port/reconstruct_json.py:16 | `rfind` of an absent character is -1 |
| Reconstruct.NoBraces | src/framework/processing/py/port/reconstruct_json.py:15-19 | a marked line without braces yields one key: the line minus its last character |
| Reconstruct.EmptySetLine | src/framework/processing/py/port/reconstruct_json.py:15-19 | a logged empty set (`set()`) yields one spurious key, not none |
| Reconstruct.InsertStep | src/framework/processing/py/port/reconstruct_json.py:37-41 | a dict met on the path is descended into and kept; a missing key or a non-dict is replaced by a fresh dict; other keys are untouched |
| Reconstruct.ReconstructJsonFromKeys | src/framework/processing/py/port/reconstruct_json.py:22-42 | the last key's path ends in `"BORK"`; with no key a `__`-prefix of another every key's does; every leaf of the result is `"BORK"` at a key's path |
| Reconstruct.BuildSpec | src/framework/processing/py/port/reconstruct_json.py:33-42 | the same three facts of the fold over the keys |
| Reconstruct.InsertPath | src/framework/processing/py/port/reconstruct_json.py:35-41 | after inserting a path: it holds `"BORK"`, its proper prefixes hold dicts, paths through its end hold nothing, every other path is unchanged |
| Reconstruct.Insert | src/framework/processing/py/port/reconstruct_json.py:35-41 | denotes one key's walk down the dict; `InsertPath` states its effect on every path |
| Reconstruct.Build | src/framework/processing/py/port/reconstruct_json.py:33-42 | denotes the dict after the keys in order; `BuildSpec` states its paths |
| Reconstruct.InsertAside | src/framework/processing/py/port/reconstruct_json.py:37-41 | paths off the first key are unchanged |
| Reconstruct.SameHead | src/framework/processing/py/port/reconstruct_json.py:37-41 | a path's value depends on the dict only through the value at its first key |
| Reconstruct.InsertOther | src/framework/processing/py/port/reconstruct_json.py:37-41 | other top-level keys are unchanged |
| Reconstruct.InsertAtLast | src/framework/processing/py/port/reconstruct_json.py:41 | a one-part path holds `"BORK"` and nothing lies below it |
| Reconstruct.InsertAbove | src/framework/processing/py/port/reconstruct_json.py:38-40 | the first key of a longer path holds a dict |
| Reconstruct.InsertBelow | src/framework/processing/py/port/reconstruct_json.py:37-41 | the four facts carry down one level |
| Reconstruct.PrefixTail | src/framework/processing/py/port/reconstruct_json.py:37 | prefixes agree after a common first part |
| Reconstruct.SubPath | src/framework/processing/py/port/reconstruct_json.py:40 | a path below a key is a path in its sub-dict |
| Reconstruct.EmptyPath | src/framework/processing/py/port/reconstruct_json.py:33 | an empty dict holds no path |
| Reconstruct.BuildLeavesSound | src/framework/processing/py/port/reconstruct_json.py:33-42 | every leaf of the result is `"BORK"` at some key's path |
| Reconstruct.BuildKeeps | src/framework/processing/py/port/reconstruct_json.py:33-42 | with prefix-free keys every key's path holds `"BORK"` |
| Reconstruct.PrefixFreeInit | src/framework/processing/py/port/reconstruct_json.py:34 | prefix-freeness holds of the keys before the last |
| Reconstruct.BuildLast | src/framework/processing/py/port/reconstruct_json.py:41 | the last key's path holds `"BORK"` |
| Epoch.MonthsAdjoin | src/framework/processing/py/port/helpers.py:350 | the days before a month plus its length are the days before the next |
| Epoch.Cycles | src/framework/processing/py/port/helpers.py:350 | a day count splits into 400-, 100-, 4- and 1-year cycles and a day of the year |
| Epoch.MonthGuess | src/framework/processing/py/port/helpers.py:350 | the month estimate is a month |
| Epoch.Div4 | src/framework/processing/py/port/helpers.py:350 | division by 4 of `4q + r` |
| Epoch.Div100 | src/framework/processing/py/port/helpers.py:350 | division by 100 of `100q + r` |
| Epoch.Div400 | src/framework/processing/py/port/helpers.py:350 | division by 400 of `400q + r` |
| Epoch.YearLength | src/framework/processing/py/port/helpers.py:350 | a year has 366 days iff it is a Gregorian leap year |
| Epoch.DaysBeforeCycles | src/framework/processing/py/port/helpers.py:350 | the days before a year given by its cycles, and when it is a leap year |
| Epoch.MonthDayCorrect | src/framework/processing/py/port/helpers.py:350 | the month and day found for a day of the year are valid and denote it |
| Epoch.InYear | src/framework/processing/py/port/helpers.py:350 | the date found inside a year denotes the day count |
| Epoch.CycleEnd | src/framework/processing/py/port/helpers.py:350 | the last day of a four-year cycle is 31 December |
| Epoch.LastDayOfCentury | src/framework/processing/py/port/helpers.py:350 | the last day of a 400-year cycle is converted correctly |
| Epoch.LastDayOfQuad | src/framework/processing/py/port/helpers.py:350 | the last day of a four-year cycle is converted correctly |
| Epoch.WithinYear | src/framework/processing/py/port/helpers.py:350 | any other day is converted correctly |
| Epoch.OrdToYmdCorrect | src/framework/processing/py/port/helpers.py:350 | the day-number to date conversion gives a valid date denoting that day |
| Epoch.CivilOf | src/framework/processing/py/port/helpers.py:350 | a timestamp in range gives a valid civil time exactly that many seconds after 1970 |
| Epoch.YearsIncrease | src/framework/processing/py/port/helpers.py:350 | later years start later |
| Epoch.MonthsIncrease | src/framework/processing/py/port/helpers.py:350 | later months start later |
| Epoch.OrdinalInYear | src/framework/processing/py/port/helpers.py:350 | a date's day number lies in its year |
| Epoch.OrdinalInjective | src/framework/processing/py/port/helpers.py:350 | distinct valid dates have distinct day numbers |
| Epoch.SecondsInjective | src/framework/processing/py/port/helpers.py:350 | distinct valid civil times have distinct epoch seconds |
| Epoch.EpochStart | src/framework/processing/py/port/helpers.py:350 | second 0 is 1970-01-01 00:00:00 |
| Epoch.ThreeReadsBack | src/framework/processing/py/port/helpers.py:350 | a three-field text reads back to its numbers |
| Epoch.DigitCount | src/framework/processing/py/port/helpers.py:350 | a number below `10^k` has at most `k` digits |
| Epoch.PaddedWidth | src/framework/processing/py/port/helpers.py:350 | zero padding gives exactly the width and keeps the value |
| Epoch.PaddedReadsBack | src/framework/processing/py/port/helpers.py:350 | padded fields read back |
| Epoch.IsoParts | src/framework/processing/py/port/helpers.py:350 | an ISO text of date, `T`, time and `+00:00` reads back to its fields |
| Epoch.IsoReadsBack | src/framework/processing/py/port/helpers.py:350 | the ISO text of a valid civil time reads back to it |
| Epoch.EpochToIsoDenotes | src/framework/processing/py/port/helpers.py:343-353 | in range the result is a `YYYY-MM-DDTHH:MM:SS+00:00` text of the unique civil time with those epoch seconds; out of range it is `str(input)` |
| Epoch.EpochToIso | src/framework/processing/py/port/helpers.py:343-353 | denotes `epoch_to_iso` on an integer: the ISO text of the UTC instant in range, `str(t)` outside; `EpochToIsoDenotes` states what that text means |
| Epoch.EpochBounds | src/framework/processing/py/port/helpers.py:134-135 | the bounds of `is_epoch` are the starts of 2000 and 2040 |
| Epoch.IsEpoch | src/framework/processing/py/port/helpers.py:128-149 | the loop with early return decides whether the first `min(len, check_minimum)` values are ints in [946684800, 2208988800] |
| Epoch.EpochLikePrefix | src/framework/processing/py/port/helpers.py:138 | an empty prefix is accepted, a shorter prefix is accepted when a longer one is, and only the checked prefix matters |
| Epoch.EarlyValueRejects | src/framework/processing/py/port/helpers.py:140-142 | a value before 2000 inside the checked prefix rejects the list |
| Text.Lower | src/framework/processing/py/port/helpers.py:372 | lower-casing keeps the length and maps each character |
| Text.ContainsChar | src/framework/processing/py/port/reconstruct_json.py:13 | substring test for one character is membership |
| Text.OccursAtShift | src/framework/processing/py/port/reconstruct_json.py:13 | occurrences shift by one in a tail |
| Text.Find | src/framework/processing/py/port/reconstruct_json.py:15 | `find` returns -1 or an occurrence |
| Text.FindFirst | src/framework/processing/py/port/reconstruct_json.py:15 | `find` is -1 iff absent, and no earlier occurrence exists |
| Text.FindNone | src/framework/processing/py/port/reconstruct_json.py:15 | -1 means no occurrence anywhere |
| Text.FindEarlier | src/framework/processing/py/port/reconstruct_json.py:15 | nothing occurs before the found index |
| Text.CountAppend | src/framework/processing/py/port/helpers.py:379 | character counts add over concatenation |
| Text.RFindChar | src/framework/processing/py/port/reconstruct_json.py:16 | `rfind` is -1 or an index of the text |
| Text.RFindCharBefore | src/framework/processing/py/port/reconstruct_json.py:16 | the helper search stays before its bound |
| Text.RFindCharSpec | src/framework/processing/py/port/reconstruct_json.py:16 | `rfind` finds the character and none after it |
| Text.RFindBeforeSpec | src/framework/processing/py/port/reconstruct_json.py:16 | the helper finds the character and none after it before the bound |
| Text.Slice | src/framework/processing/py/port/reconstruct_json.py:17 | a clamped slice is never longer than the text |
| Text.Clamp | src/framework/processing/py/port/reconstruct_json.py:17 | clamping stays within the bound |
| Text.Split | src/framework/processing/py/port/reconstruct_json.py:18 | `split` gives at least one piece |
| Text.SplitAt | src/framework/processing/py/port/reconstruct_json.py:18 | splitting at an occurrence gives at least two pieces |
| Text.SplitPiecesFree | src/framework/processing/py/port/reconstruct_json.py:18 | no piece holds the separator |
| Text.SplitHead | src/framework/processing/py/port/reconstruct_json.py:18 | the first piece is a prefix, and text without the separator is one piece |
| Text.JoinSplit | src/framework/processing/py/port/reconstruct_json.py:18 | joining the pieces with the separator gives the text back |
| Text.Around | src/framework/processing/py/port/reconstruct_json.py:17 | a text is its three slices |
| Text.JoinCons | src/framework/processing/py/port/helpers.py:493 | joining a head and a non-empty tail |
| Text.StripChar | src/framework/processing/py/port/reconstruct_json.py:19 | stripping a character leaves it at neither end, and changes nothing when absent; with `StripCharSlice` the result is exactly the middle slice |
| Text.Strip | src/framework/processing/py/port/helpers.py:372 | `strip()` leaves no whitespace at either end, and gives `""` iff the text is all whitespace; with `StripSlice` the result is exactly the middle slice |
| Text.StripCharSlice | src/framework/processing/py/port/reconstruct_json.py:19 | `s.strip(c)` is a slice `s[i..j]` with only `c` before `i` and after `j` |
| Text.CharFramedFront | src/framework/processing/py/port/reconstruct_json.py:19 | a leading `c` widens the frame by one |
| Text.CharFramedBack | src/framework/processing/py/port/reconstruct_json.py:19 | a trailing `c` keeps the frame |
| Text.StripSlice | src/framework/processing/py/port/helpers.py:372 | `s.strip()` is a slice `s[i..j]` with only whitespace before `i` and after `j` |
| Text.SpaceFramedFront | src/framework/processing/py/port/helpers.py:372 | leading whitespace widens the frame by one |
| Text.SpaceFramedBack | src/framework/processing/py/port/helpers.py:372 | trailing whitespace keeps the frame |
| Text.DigitChar | src/framework/processing/py/port/helpers.py:350 | a digit's character |
| Text.NatToString | src/framework/processing/py/port/helpers.py:350 | `str(n)` of a natural is digits with no leading zero |
| Text.NatToStringValue | src/framework/processing/py/port/helpers.py:350 | `str(n)` reads back to `n` |
| Text.ZeroPad | src/framework/processing/py/port/helpers.py:350 | zero padding keeps the value and reaches the width |
| Text.PadOne | src/framework/processing/py/port/helpers.py:350 | one leading zero keeps the value |
| Text.LeadingZero | src/framework/processing/py/port/helpers.py:350 | a leading zero keeps the value |
| Json.Lookup | src/framework/processing/py/port/helpers.py:209-210 | a key is found iff present, with a value stored under it |
| Json.SetField | src/framework/processing/py/port/helpers.py:187 | assignment stores the value, leaves other keys alone, keeps the position of an existing key and appends a new one |
| Json.HasKeyCons | src/framework/processing/py/port/helpers.py:209 | key membership of a prepended entry |
| Json.LookupCons | src/framework/processing/py/port/helpers.py:210 | lookup in a prepended entry |
| Json.LastWrite | src/framework/processing/py/port/google.py:207-229 | the last assignment to a key, none iff there is none |
| Json.ApplyWritesLast | src/framework/processing/py/port/google.py:207-229 | after a run of assignments a key holds its last assigned value, or its old one |
| Json.LastWriteAppend | src/framework/processing/py/port/google.py:207-229 | the last write of a concatenation |
| Json.ChildSmaller | src/framework/processing/py/port/helpers.py:213-215 | children are smaller than their parent |
| Json.PyStr | src/framework/processing/py/port/google.py:224 | `str()` of a list is bracketed and of a dict braced |
| Json.Repr | src/framework/processing/py/port/google.py:224 | `repr` of a text is quoted with the same quote at both ends |
| Json.ReprStr | src/framework/processing/py/port/google.py:224 | `repr(s)` starts and ends with the same quote, `'` or `"` |
| Json.HexRoundTrip | src/framework/processing/py/port/google.py:224 | a hexadecimal digit reads back as its value and is printable |
| Json.EscapeReadsBack | src/framework/processing/py/port/google.py:224 | one escaped character reads back as itself |
| Json.EscapeForReadsBack | src/framework/processing/py/port/google.py:224 | the escaped text reads back as the original |
| Json.EscapeForShown | src/framework/processing/py/port/google.py:224 | no control character, DEL, C1 control, no-break space or soft hyphen is left raw |
| Json.ReprStrReadsBack | src/framework/processing/py/port/google.py:224 | `repr(s)` reads back as `s` between its quotes and holds no raw hidden character |

## Left out

- Zip access, `json.load`, `lxml` and HTML scraping, the `csv` module, `pandas`, logging, the progress bar, `script.py` and `vis.py` are not part of this model.
  - They are I/O or foreign libraries.
  - An archive is `BadZip | OpenFailure | Entries(names)`.
  - What a parser gives for a file is a function parameter (`load`, `decode`).
  - A CSV file is the sequence of its decoded rows.
- Floating point is not modelled.
  - Scores are exact rationals. `Validation.ScoreThreshold` proves the 5% test equal to `20 * hits >= len(known_files)`. Double rounding cannot change that comparison for these small counts, but this is not proved.
  - Decoded JSON has no float values.
  - `google.py` compares a float time with `1e11` the same way it compares an int; only ints and bools are modelled.
- `Validation.ValidateInput.InferDdpCategory` requires a non-empty lookup whose categories all list known files, because the source divides by zero or calls `max` of an empty dict otherwise.
- Status 1 is recorded for an exception other than `BadZipFile` in `facebook.py` and `instagram.py`. That exception is modelled only as the `OpenFailure` archive; no other place in `validate` is modelled as raising.
- `Helpers.ChunkCount` requires a non-zero row count, because `split_dataframe` divides by it.
  - The count is stated for the exact quotient. `int(len / row_count)` in floating point could differ only for lengths above 2^53.
  - The chunks are sequences of rows, not DataFrames with reset indices.
- `Dates.RobustDatetimeParser`: the `dateutil.parser.parse` and `strptime` stages (`helpers.py:398-441`) are one function parameter `later`.
  - The epoch branch is stated only for integer parts below 2^33 with at most six fraction digits, where `float()` is exact.
  - Numeric text outside that domain gives `None` (not modelled). There the float conversion may round. Text large enough to leave years 1 to 9999 makes CPython raise `OverflowError`, which the `except ValueError` does not catch, so no totality is claimed there.
- `Epoch.EpochToIsoDenotes` covers `epoch_to_iso` on integer input only.
  - For a string input, the `int(float(s))` conversion is not modelled.
  - The first, shadowed definition at `helpers.py:152-166` is not modelled.
  - On the host's limits for `fromtimestamp` (`OSError`), the range is stated as years 1 to 9999.
- `Insta`: `datetime.fromtimestamp(x)` without a time zone depends on the host's local zone. It is the parameter `localIso`.
- ASCII only:
  - `str.lower()`, `str.isdigit()` and the `\b`/`\w` word class of `re` are modelled for ASCII letters and digits only;
  - `isspace()` covers the full Unicode whitespace list;
  - `int()` does not accept digit-group underscores.
- `Trees.FindItems` matches a key as substring containment. It assumes `key_to_match` has no regular-expression metacharacters and the keys no newline.
- `Denest.DictDenester`: the shared `new` dict passed down the recursion is threaded as a value. Each recursive call returns the updated dict, and the result is the same.
- `Reconstruct.ReconstructJsonFromKeys`:
  - The inner walk of `current_level`, which aliases nested dicts, is modelled on values by the recursive `Insert`.
  - The Python `set` of keys is given as a sequence in its iteration order, which the source does not fix.
- `Reconstruct.LogLineKeys` is stated only for keys free of `,` and `'`. Such keys cannot be recovered faithfully by the source's split and strip.
- `Reconstruct.ExtractKeysFromString`: the content is a string, and decoding the log file is not modelled.
- `reconstruct_json.py:44-70` (`pretty_print_json` and the module-level file read and print) is not modelled.
- These functions of `helpers.py` are not modelled: `is_timestamp`, `is_isoformat`, `sort_isotimestamp`, `fix_latin1_string`, `try_to_convert_any_timestamp_to_iso8601`, `html_tables`, `replace_email` and `log_file_size`. They are `pandas`, regex-engine, codec or file-system behaviour.
- The HTML branches of the `facebook.py` and `instagram.py` parsers and the `process_*_data` and `*_to_df` functions are not modelled. They are `lxml` and `pandas` work.
  - From `facebook.py`'s parsers, only `times_interacted` is modelled.
  - `google.py`'s `extract_zip_content` and `parse_youtube_comments` are not modelled. They read the zip and call `pd.to_datetime`.
- `Json.ReprStr`: of the characters that `str.isprintable` rejects, only the ASCII and Latin-1 ones are escaped, as `\xNN`. Those above U+00FF (such as U+200B or U+2028) are copied raw, where Python writes `\uNNNN` or `\UNNNNNNNN`. The Unicode character database is not part of this model.
- `GoogleAaaa.ExtractZipContent` takes the entry names, not the zip. The first counting pass opens the zip outside any `try` (`google_aaaa.py:186-191`), so a bad archive raises `BadZipFile` to the caller, and the later `except zipfile.BadZipFile` (`google_aaaa.py:237`) never sees it. The model has no bad-archive case here.
- `Records.Row`: `details` is the dict before `json.dumps`. The JSON text each parser stores is not modelled.
- `Google.DateCell`: `pd.to_datetime` is not modelled. A converted value is a tagged integer with its unit (`Epoch(n, millis)`). Any other value is tagged `ParsedDate(v)`, unconverted. Both tags also stand for `pd.NaT` where pandas raises.

## Findings

| source | as written | input that shows it | evidently intended | confidence | as-written member | corrected member |
|---|---|---|---|---|---|---|
| src/framework/processing/py/port/google_aaaa.py:206 | `startswith(base_path) and endswith(f'.{DATA_FORMAT}') or endswith('.csv')` binds as `(A and B) or C`, so every `.csv` entry, wherever it lies, is a candidate for every data type | entries `["Takeout/YouTube and YouTube Music/comments/comments.csv", "Takeout/My Activity/Ads/My Activity.json"]`, format `json`: the comment export is stored as the `ads` data | `startswith(base_path) and (endswith(f'.{DATA_FORMAT}') or endswith('.csv'))`: an entry under the data type's base path with the data format or `.csv` as extension | not executed | GoogleAaaa.CsvTakenForAds | GoogleAaaa.PickedEntryBelongs |

`FindEntry`, `PickEntry` and `ExtractZipContent` run the entry test as written (`AsWrittenSelected`), so they keep the behaviour above. `ExtractedPerType` holds for either test, and `PickedEntryBelongs` states the intended property for the corrected test `Selected`.
