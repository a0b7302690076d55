/** A zip archive as the validators see it: either unreadable, or the
    list of its entry names. Also the `pathlib` name/suffix rules used to
    pick entries, and the "majority file format" rule of the extractors. */
module Archive {
  import opened Text
  import opened Seqs

  /** `BadZip`: `zipfile.BadZipFile` is raised. `OpenFailure`: opening or
      listing the archive raises any other exception. */
  datatype Archive = BadZip | OpenFailure | Entries(names: seq<string>)

  /** `PurePosixPath(f).name`: the last path segment that is neither empty
      nor `"."`, or `""` when there is none. */
  function Basename(f: string): string {
    var (a, b) := LastSegment(f, |f|);
    f[a..b]
  }

  /** The bounds of the last segment of `f[..n]` that is neither empty nor `"."`. */
  function LastSegment(f: string, n: nat): (r: (nat, nat))
    requires n <= |f|
    ensures r.0 <= r.1 <= n
    decreases n
  {
    var i := RFindCharBefore(f, '/', n);
    if i + 1 < n && !(i + 2 == n && f[i + 1] == '.') then (i + 1, n)
    else if i < 0 then (0, 0)
    else LastSegment(f, i)
  }

  /** The name of a file inside a directory is the file's own name. */
  lemma BasenameOfChild(dir: string, file: string)
    requires file != "" && file != "." && '/' !in file
    ensures Basename(dir + "/" + file) == file
  {
    var f := dir + "/" + file;
    RFindBeforeSpec(f, '/', |f|);
    assert f[|dir|] == '/';
    assert forall j | |dir| < j < |f| :: f[j] == file[j - |dir| - 1];
    assert f[|dir| + 1..] == file;
  }

  /** A name without `/` is its own basename. */
  lemma BasenameNoSlash(f: string)
    requires f != "" && f != "." && '/' !in f
    ensures Basename(f) == f
  {
    RFindBeforeSpec(f, '/', |f|);
    assert f[0..|f|] == f;
  }

  /** `PurePosixPath(name).suffix`: from the last `.` on, provided that
      dot is neither the first nor the last character. */
  function Suffix(name: string): string {
    var i := RFindChar(name, '.');
    if 0 < i < |name| - 1 then name[i..] else ""
  }

  /** `Path(f).name` of every entry, in order. */
  function Basenames(names: seq<string>): (r: seq<string>)
    ensures |r| == |names|
    ensures forall i | 0 <= i < |names| :: r[i] == Basename(names[i])
  {
    seq(|names|, i requires 0 <= i < |names| => Basename(names[i]))
  }

  /** `suffix in suffixes` for a name. */
  function HasSuffixIn(suffixes: seq<string>): string -> bool {
    (p: string) => Suffix(p) in suffixes
  }

  /** `[Path(f).name for f in names if Path(f).suffix in suffixes]`. */
  function KeptNames(names: seq<string>, suffixes: seq<string>): seq<string> {
    FilterMap(Basenames(names), HasSuffixIn(suffixes), (p: string) => p)
  }

  /** The loop that collects `paths` in each platform's `validate`. */
  method CollectPaths(names: seq<string>, suffixes: seq<string>) returns (paths: seq<string>)
    ensures paths == KeptNames(names, suffixes)
  {
    paths := [];
    ghost var all := Basenames(names);
    for i := 0 to |names|
      invariant paths == FilterMap(all[..i], HasSuffixIn(suffixes), (p: string) => p)
    {
      assert all[..i + 1][..i] == all[..i];
      var p := Basename(names[i]);
      if Suffix(p) in suffixes {
        paths := paths + [p];
      }
    }
    assert all[..|names|] == all;
  }

  /** The kept list holds exactly the basenames whose suffix is listed;
      it is in entry order, with repetitions, so never longer than the entries. */
  lemma KeptNamesExactly(names: seq<string>, suffixes: seq<string>)
    ensures forall x :: x in KeptNames(names, suffixes) <==>
      exists i | 0 <= i < |names| :: Suffix(Basename(names[i])) in suffixes && x == Basename(names[i])
  {
    FilterMapMembers(Basenames(names), HasSuffixIn(suffixes), (p: string) => p);
  }

  /** The suffix of `stem.ext` is `.ext` when `ext` holds no dot. */
  lemma SuffixOf(stem: string, ext: string)
    requires stem != "" && ext != "" && '.' !in ext
    ensures Suffix(stem + "." + ext) == "." + ext
  {
    var f := stem + "." + ext;
    RFindCharSpec(f, '.');
    assert f[|stem|] == '.';
    assert forall j | |stem| < j < |f| :: f[j] == ext[j - |stem| - 1];
    assert f[|stem|..] == "." + ext;
  }

  /** A name ending in `.ext` after a non-empty stem has suffix `.ext`. */
  lemma SuffixByExt(k: string, ext: string)
    requires ext != "" && '.' !in ext && |k| > |ext| + 1 && EndsWith(k, "." + ext)
    ensures Suffix(k) == "." + ext
  {
    var stem := k[..|k| - |ext| - 1];
    assert k == stem + "." + ext;
    SuffixOf(stem, ext);
  }

  /** A name of more than six characters ending in the characters of
      `.json` has suffix `.json`; stated character by character so that it
      applies cheaply to a literal file name. */
  lemma JsonSuffix(k: string)
    requires |k| > 6 && k[|k| - 5] == '.' && k[|k| - 4] == 'j' && k[|k| - 3] == 's' && k[|k| - 2] == 'o' && k[|k| - 1] == 'n'
    ensures Suffix(k) == ".json"
  {
    assert k[|k| - 5..] == ".json";
    SuffixByExt(k, "json");
  }

  lemma HtmlSuffix(k: string)
    requires |k| > 6 && k[|k| - 5] == '.' && k[|k| - 4] == 'h' && k[|k| - 3] == 't' && k[|k| - 2] == 'm' && k[|k| - 1] == 'l'
    ensures Suffix(k) == ".html"
  {
    assert k[|k| - 5..] == ".html";
    SuffixByExt(k, "html");
  }

  lemma CsvSuffix(k: string)
    requires |k| > 5 && k[|k| - 4] == '.' && k[|k| - 3] == 'c' && k[|k| - 2] == 's' && k[|k| - 1] == 'v'
    ensures Suffix(k) == ".csv"
  {
    assert k[|k| - 4..] == ".csv";
    SuffixByExt(k, "csv");
  }

  /** An entry whose basename has a kept suffix contributes that basename. */
  lemma KeptEntry(names: seq<string>, suffixes: seq<string>, i: int)
    requires 0 <= i < |names| && Suffix(Basename(names[i])) in suffixes
    ensures Basename(names[i]) in KeptNames(names, suffixes)
  {
    KeptNamesExactly(names, suffixes);
  }

  /** The basename and suffix of the upper-case example below. */
  lemma UpperCaseName()
    ensures Basename("dir/X.JSON") == "X.JSON" && Suffix("X.JSON") == ".JSON"
  {
    BasenameOfChild("dir", "X.JSON");
    assert "dir" + "/" + "X.JSON" == "dir/X.JSON";
    SuffixOf("X", "JSON");
    assert "X" + "." + "JSON" == "X.JSON";
  }

  /** Suffixes compare case-sensitively: `"X.JSON"` is not kept. */
  lemma SuffixCaseSensitive()
    ensures KeptNames(["dir/X.JSON"], [".json", ".html"]) == []
  {
    UpperCaseName();
    assert ".JSON"[1] != ".json"[1] && ".JSON"[1] != ".html"[1];
    assert !HasSuffixIn([".json", ".html"])("X.JSON");
    assert Basenames(["dir/X.JSON"]) == ["X.JSON"];
    assert ["X.JSON"][..0] == [];
  }

  /** The number of names ending in `ext` (`f.endswith(ext)` on the full name). */
  function CountEnding(names: seq<string>, ext: string): (n: nat)
    ensures n <= |names|
  {
    if names == [] then 0
    else CountEnding(names[..|names| - 1], ext) + (if EndsWith(names[|names| - 1], ext) then 1 else 0)
  }

  /** The names ending in `ext`, in order. */
  function Ending(names: seq<string>, ext: string): (r: seq<string>)
    ensures |r| == CountEnding(names, ext)
    ensures forall f | f in r :: EndsWith(f, ext) && f in names
  {
    if names == [] then []
    else
      var prev := Ending(names[..|names| - 1], ext);
      if EndsWith(names[|names| - 1], ext) then prev + [names[|names| - 1]] else prev
  }

  /** `"json" if len(json_files) > len(html_files) else "html"`. */
  function MajorityFormat(names: seq<string>): (fmt: string)
    ensures fmt == "json" || fmt == "html"
  {
    if CountEnding(names, ".json") > CountEnding(names, ".html") then "json" else "html"
  }

  /** `json_files if DATA_FORMAT == "json" else html_files` */
  function FilesToProcess(names: seq<string>): seq<string> {
    if MajorityFormat(names) == "json" then Ending(names, ".json") else Ending(names, ".html")
  }

  /** JSON is chosen only with strictly more `.json` entries (ties, 0/0
      included, give HTML), and the chosen list is never the shorter one. */
  lemma MajorityRule(names: seq<string>)
    ensures MajorityFormat(names) == "json" <==> CountEnding(names, ".json") > CountEnding(names, ".html")
    ensures |FilesToProcess(names)| >= CountEnding(names, ".json")
    ensures |FilesToProcess(names)| >= CountEnding(names, ".html")
    ensures forall f | f in FilesToProcess(names) ::
      EndsWith(f, if MajorityFormat(names) == "json" then ".json" else ".html")
  {
  }
}
