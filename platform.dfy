/** The `validate` shell shared by the Facebook and Instagram modules:
    collect the basenames with a kept suffix, infer the category, and map
    the outcome to status 0 (valid), 1 (not a valid DDP) or 2 (bad zip).
    Also the plan `extract_*_data` follows after validating. */
module Platform {
  import opened Json
  import opened Text
  import opened Validation
  import opened Archive

  /** The category inferred from the kept basenames of the entries. */
  function Category(cats: seq<DDPCategory>, suffixes: seq<string>, names: seq<string>): Option<DDPCategory>
    requires Inferable(LookupKeys(cats), LookupMap(cats))
  {
    Inferred(LookupKeys(cats), LookupMap(cats), KeptNames(names, suffixes))
  }

  /** The status id the shell assigns: 2 for `BadZipFile`, 1 for any other
      exception, otherwise 0 exactly when a category was inferred. */
  function Status(cats: seq<DDPCategory>, suffixes: seq<string>, a: Archive): int
    requires Inferable(LookupKeys(cats), LookupMap(cats))
  {
    match a
    case BadZip => 2
    case OpenFailure => 1
    case Entries(names) => if Category(cats, suffixes, names).Some? then 0 else 1
  }

  /** What `set_status_code(c)` stores for a status table. */
  function Code(codes: seq<StatusCode>, c: int): Option<StatusCode> {
    if c in StatusMap(codes) then Some(StatusMap(codes)[c]) else None
  }

  /** `validate(file)` of facebook.py and instagram.py, for the given tables. */
  method ValidateZip(codes: seq<StatusCode>, cats: seq<DDPCategory>, suffixes: seq<string>, a: Archive)
    returns (v: ValidateInput)
    requires Inferable(LookupKeys(cats), LookupMap(cats))
    ensures fresh(v)
    ensures v.statusCodes == codes && v.ddpCategories == cats
    ensures v.statusCode == Code(codes, Status(cats, suffixes, a))
    ensures v.ddpCategory == if a.Entries? then Category(cats, suffixes, a.names) else None
    ensures v.validatedPaths ==
      if a.Entries? && Category(cats, suffixes, a.names).Some? then KeptNames(a.names, suffixes) else []
  {
    v := new ValidateInput(codes, cats);
    match a
    case BadZip =>
      v.SetStatusCode(2);
    case OpenFailure =>
      v.SetStatusCode(1);
    case Entries(names) =>
      var paths := CollectPaths(names, suffixes);
      var _ := v.InferDdpCategory(paths);
      if v.ddpCategory.None? {
        v.SetStatusCode(1);
      } else {
        v.SetStatusCode(0);
      }
  }

  /** What `extract_*_data` reads: nothing (`{}`) unless the validation
      status is present with id 0; otherwise the majority format and the
      entries of that format. */
  function ExtractPlan(status: Option<StatusCode>, names: seq<string>): (r: Option<(string, seq<string>)>)
    ensures r.None? <==> status.None? || status.value.id != 0
    ensures r.Some? ==> r.value.0 == MajorityFormat(names) && r.value.1 == FilesToProcess(names)
  {
    if status.None? || status.value.id != 0 then None
    else Some((MajorityFormat(names), FilesToProcess(names)))
  }

  /** Each planned entry ends in `.` followed by the chosen format. */
  lemma PlannedEntries(status: Option<StatusCode>, names: seq<string>)
    requires ExtractPlan(status, names).Some?
    ensures forall f | f in ExtractPlan(status, names).value.1 :: EndsWith(f, "." + ExtractPlan(status, names).value.0)
  {
    MajorityRule(names);
    if MajorityFormat(names) == "json" {
      assert "." + MajorityFormat(names) == ".json";
    } else {
      assert "." + MajorityFormat(names) == ".html";
    }
  }
}
