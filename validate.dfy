/** Input validation of data download packages (DDPs): the category
    records, the status codes, and the `ValidateInput` object that infers
    which known category a list of file names belongs to. */
module Validation {
  import opened Json

  datatype Language = EN | NL | ES | DE | AR | TR | ZH

  datatype DDPFiletype = JSON | HTML | CSV | TXT

  /** One recognisable export shape and the file names that identify it. */
  datatype DDPCategory = DDPCategory(
    id: string,
    ddpFiletype: DDPFiletype,
    language: Language,
    knownFiles: seq<string>)

  datatype StatusCode = StatusCode(id: int, description: string, message: string)

  // ---------------------------------------------------------------------
  // The dict comprehensions of `__post_init__`. A key keeps the position
  // of its first insertion; its value is the last one assigned.

  /** The keys of `{c.id: c for c in cats}`, in iteration order. */
  function LookupKeys(cats: seq<DDPCategory>): (keys: seq<string>)
  {
    if cats == [] then []
    else
      var prev := LookupKeys(cats[..|cats| - 1]);
      if cats[|cats| - 1].id in prev then prev else prev + [cats[|cats| - 1].id]
  }

  /** The mapping of `{c.id: c for c in cats}`. */
  function LookupMap(cats: seq<DDPCategory>): map<string, DDPCategory>
  {
    if cats == [] then map[]
    else LookupMap(cats[..|cats| - 1])[cats[|cats| - 1].id := cats[|cats| - 1]]
  }

  /** `{s.id: s for s in codes}`. */
  function StatusMap(codes: seq<StatusCode>): map<int, StatusCode>
  {
    if codes == [] then map[]
    else StatusMap(codes[..|codes| - 1])[codes[|codes| - 1].id := codes[|codes| - 1]]
  }

  /** The iteration order lists every category id once, in order of first
      appearance, and exactly the keys of the mapping. */
  lemma {:induction false} LookupKeysShape(cats: seq<DDPCategory>)
    ensures forall i, j | 0 <= i < j < |LookupKeys(cats)| :: LookupKeys(cats)[i] != LookupKeys(cats)[j]
    ensures forall k :: k in LookupKeys(cats) <==> k in LookupMap(cats)
    ensures forall k :: k in LookupMap(cats) <==> exists i | 0 <= i < |cats| :: cats[i].id == k
  {
    if cats != [] {
      var init := cats[..|cats| - 1];
      LookupKeysShape(init);
      assert forall i | 0 <= i < |init| :: init[i] == cats[i];
    }
  }

  /** `ddp_categories_lookup[id]` is the last category in the list with that id. */
  lemma {:induction false} LookupMapLast(cats: seq<DDPCategory>, i: int)
    requires 0 <= i < |cats|
    requires forall j | i < j < |cats| :: cats[j].id != cats[i].id
    ensures cats[i].id in LookupMap(cats) && LookupMap(cats)[cats[i].id] == cats[i]
  {
    if i < |cats| - 1 {
      var init := cats[..|cats| - 1];
      LookupMapLast(init, i);
    }
  }

  /** Likewise `status_codes_lookup[id]` is the last status code with that id. */
  lemma {:induction false} StatusMapLast(codes: seq<StatusCode>, i: int)
    requires 0 <= i < |codes|
    requires forall j | i < j < |codes| :: codes[j].id != codes[i].id
    ensures codes[i].id in StatusMap(codes) && StatusMap(codes)[codes[i].id] == codes[i]
  {
    if i < |codes| - 1 {
      StatusMapLast(codes[..|codes| - 1], i);
    }
  }

  /** An id that no status code carries is absent from the lookup. */
  lemma {:induction false} StatusMapAbsent(codes: seq<StatusCode>, c: int)
    requires forall j | 0 <= j < |codes| :: codes[j].id != c
    ensures c !in StatusMap(codes)
  {
    if codes != [] {
      StatusMapAbsent(codes[..|codes| - 1], c);
    }
  }

  /** With distinct ids the iteration order is the list order of the ids. */
  lemma {:induction false} LookupKeysDistinct(cats: seq<DDPCategory>)
    requires forall i, j | 0 <= i < j < |cats| :: cats[i].id != cats[j].id
    ensures LookupKeys(cats) == seq(|cats|, i requires 0 <= i < |cats| => cats[i].id)
  {
    if cats != [] {
      var init := cats[..|cats| - 1];
      LookupKeysDistinct(init);
      LookupKeysShape(init);
      assert cats[|cats| - 1].id !in LookupMap(init);
    }
  }

  // ---------------------------------------------------------------------
  // Scoring.

  /** `sum(1 if f in known else 0 for f in files)`: input names counted
      with their multiplicity. */
  function Hits(files: seq<string>, known: seq<string>): (n: nat)
    ensures n <= |files|
  {
    if files == [] then 0
    else Hits(files[..|files| - 1], known) + (if files[|files| - 1] in known then 1 else 0)
  }

  /** `hits / len(known_files) * 100`, computed exactly. */
  function Score(files: seq<string>, known: seq<string>): real
    requires |known| > 0
  {
    (Hits(files, known) as real) / (|known| as real) * 100.0
  }

  /** The 5% acceptance test is the integer test `20 * hits >= len`. */
  lemma ScoreThreshold(files: seq<string>, known: seq<string>)
    requires |known| > 0
    ensures Score(files, known) >= 5.0 <==> 20 * Hits(files, known) >= |known|
  {
    PercentThreshold(Hits(files, known), |known|);
  }

  lemma PercentThreshold(h: nat, n: nat)
    requires n > 0
    ensures (h as real) / (n as real) * 100.0 >= 5.0 <==> 20 * h >= n
  {
    var q := (h as real) / (n as real);
    DivMul(h as real, n as real);
    MulMono(q, 0.05, n as real);
  }

  lemma DivMul(h: real, n: real)
    requires n > 0.0
    ensures (h / n) * n == h
  {
  }

  lemma MulMono(x: real, y: real, n: real)
    requires n > 0.0
    ensures x >= y <==> x * n >= y * n
  {
    if x >= y {
      assert (x - y) * n >= 0.0;
    } else {
      assert (y - x) * n > 0.0;
    }
  }

  lemma {:induction false} HitsAppend(files: seq<string>, more: seq<string>, known: seq<string>)
    ensures Hits(files + more, known) == Hits(files, known) + Hits(more, known)
    decreases |more|
  {
    if more == [] {
      assert files + more == files;
    } else {
      var m := more[..|more| - 1];
      HitsAppend(files, m, known);
      assert (files + more)[..|files + more| - 1] == files + m;
      assert (files + more)[|files + more| - 1] == more[|more| - 1];
    }
  }

  /** The key of `max(d, key=d.get)` over the scores in iteration order:
      the first position holding a maximal score. */
  function BestIndex(scores: seq<real>): (b: nat)
    requires |scores| > 0
    ensures b < |scores|
  {
    if |scores| == 1 then 0
    else
      var prev := BestIndex(scores[..|scores| - 1]);
      if scores[|scores| - 1] > scores[prev] then |scores| - 1 else prev
  }

  lemma {:induction false} BestIndexIsFirstMax(scores: seq<real>)
    requires |scores| > 0
    ensures forall j | 0 <= j < |scores| :: scores[j] <= scores[BestIndex(scores)]
    ensures forall j | 0 <= j < BestIndex(scores) :: scores[j] < scores[BestIndex(scores)]
  {
    if |scores| > 1 {
      BestIndexIsFirstMax(scores[..|scores| - 1]);
    }
  }

  /** A category table the inference accepts without raising: at least
      one id, and no key whose category has an empty `known_files`. */
  predicate Inferable(order: seq<string>, lookup: map<string, DDPCategory>) {
    |order| > 0 && forall i | 0 <= i < |order| :: order[i] in lookup && |lookup[order[i]].knownFiles| > 0
  }

  /** `prop_category.values()` in iteration order. */
  function Scores(order: seq<string>, lookup: map<string, DDPCategory>, files: seq<string>): (s: seq<real>)
    requires Inferable(order, lookup)
    ensures |s| == |order|
  {
    seq(|order|, i requires 0 <= i < |order| => Score(files, lookup[order[i]].knownFiles))
  }

  /** The category `infer_ddp_category` records, or `None` when the best
      score stays under 5%. */
  function Inferred(order: seq<string>, lookup: map<string, DDPCategory>, files: seq<string>): Option<DDPCategory>
    requires Inferable(order, lookup)
  {
    var s := Scores(order, lookup, files);
    var b := BestIndex(s);
    if s[b] >= 5.0 then Some(lookup[order[b]]) else None
  }

  /** Inference succeeds iff some category has `20 * hits >= len(known_files)`. */
  lemma InferredIff(order: seq<string>, lookup: map<string, DDPCategory>, files: seq<string>)
    requires Inferable(order, lookup)
    ensures Inferred(order, lookup, files).Some? <==>
      exists i | 0 <= i < |order| :: 20 * Hits(files, lookup[order[i]].knownFiles) >= |lookup[order[i]].knownFiles|
  {
    var s := Scores(order, lookup, files);
    BestIndexIsFirstMax(s);
    forall i | 0 <= i < |order|
      ensures s[i] >= 5.0 <==> 20 * Hits(files, lookup[order[i]].knownFiles) >= |lookup[order[i]].knownFiles|
    {
      ScoreThreshold(files, lookup[order[i]].knownFiles);
    }
  }

  /** On success the chosen category is the earliest one in iteration order
      whose score is maximal. */
  lemma InferredIsEarliestMax(order: seq<string>, lookup: map<string, DDPCategory>, files: seq<string>)
    requires Inferable(order, lookup)
    requires Inferred(order, lookup, files).Some?
    ensures exists b | 0 <= b < |order| ::
      && Inferred(order, lookup, files).value == lookup[order[b]]
      && (forall j | 0 <= j < |order| :: Scores(order, lookup, files)[j] <= Scores(order, lookup, files)[b])
      && (forall j | 0 <= j < b :: Scores(order, lookup, files)[j] < Scores(order, lookup, files)[b])
  {
    BestIndexIsFirstMax(Scores(order, lookup, files));
  }

  /** Appending file names never lowers a category's score. */
  lemma ScoreMonotone(files: seq<string>, more: seq<string>, known: seq<string>)
    requires |known| > 0
    ensures Score(files, known) <= Score(files + more, known)
  {
    HitsAppend(files, more, known);
    var n := |known| as real;
    var a := Hits(files, known) as real;
    var b := Hits(files + more, known) as real;
    assert a <= b;
    PercentMono(a, b, n);
  }

  lemma PercentMono(a: real, b: real, n: real)
    requires a <= b && n > 0.0
    ensures a / n * 100.0 <= b / n * 100.0
  {
    DivMul(a, n);
    DivMul(b, n);
    MulMono(b / n, a / n, n);
  }

  /** So an accepted list of names stays accepted when names are added,
      though the winning category may change. */
  lemma AcceptedStaysAccepted(order: seq<string>, lookup: map<string, DDPCategory>, files: seq<string>, more: seq<string>)
    requires Inferable(order, lookup)
    requires Inferred(order, lookup, files).Some?
    ensures Inferred(order, lookup, files + more).Some?
  {
    InferredIff(order, lookup, files);
    InferredIff(order, lookup, files + more);
    var i :| 0 <= i < |order| && 20 * Hits(files, lookup[order[i]].knownFiles) >= |lookup[order[i]].knownFiles|;
    HitsAppend(files, more, lookup[order[i]].knownFiles);
  }

  lemma TableInferable(cats: seq<DDPCategory>)
    requires |cats| > 0
    requires forall i | 0 <= i < |cats| :: |cats[i].knownFiles| > 0
    ensures Inferable(LookupKeys(cats), LookupMap(cats))
  {
    LookupKeysShape(cats);
    assert cats[0].id in LookupMap(cats);
    assert LookupKeys(cats) != [];
    forall k | k in LookupMap(cats) ensures |LookupMap(cats)[k].knownFiles| > 0 {
      LookupValues(cats, k);
    }
  }

  lemma {:induction false} LookupValues(cats: seq<DDPCategory>, k: string)
    requires k in LookupMap(cats)
    ensures LookupMap(cats)[k] in cats && LookupMap(cats)[k].id == k
  {
    var last := cats[|cats| - 1];
    if last.id != k {
      LookupValues(cats[..|cats| - 1], k);
    }
  }

  /** No two categories share an id. */
  predicate DistinctIds(cats: seq<DDPCategory>) {
    forall i, j | 0 <= i < j < |cats| :: cats[i].id != cats[j].id
  }

  /** With distinct ids the lookup is the list itself: its order is the
      list order and each id maps to its own category. */
  lemma DistinctTable(cats: seq<DDPCategory>)
    requires |cats| > 0 && DistinctIds(cats)
    requires forall i | 0 <= i < |cats| :: |cats[i].knownFiles| > 0
    ensures |LookupKeys(cats)| == |cats|
    ensures forall i | 0 <= i < |cats| :: LookupKeys(cats)[i] == cats[i].id
    ensures forall i | 0 <= i < |cats| :: cats[i].id in LookupMap(cats) && LookupMap(cats)[cats[i].id] == cats[i]
    ensures Inferable(LookupKeys(cats), LookupMap(cats))
  {
    LookupKeysDistinct(cats);
    forall i | 0 <= i < |cats| ensures cats[i].id in LookupMap(cats) && LookupMap(cats)[cats[i].id] == cats[i] {
      LookupMapLast(cats, i);
    }
  }

  /** With distinct ids each status code is found under its own id. */
  lemma DistinctStatusTable(codes: seq<StatusCode>)
    requires forall i, j | 0 <= i < j < |codes| :: codes[i].id != codes[j].id
    ensures forall i | 0 <= i < |codes| :: codes[i].id in StatusMap(codes) && StatusMap(codes)[codes[i].id] == codes[i]
  {
    forall i | 0 <= i < |codes| ensures codes[i].id in StatusMap(codes) && StatusMap(codes)[codes[i].id] == codes[i] {
      StatusMapLast(codes, i);
    }
  }

  /** One listed name among the inputs is a hit. */
  lemma {:induction false} HitsPositive(files: seq<string>, known: seq<string>, i: int)
    requires 0 <= i < |files| && files[i] in known
    ensures Hits(files, known) >= 1
  {
    if i < |files| - 1 {
      HitsPositive(files[..|files| - 1], known, i);
    }
  }

  /** Names none of which is known score no hit. */
  lemma {:induction false} NoHits(files: seq<string>, known: seq<string>)
    requires forall f | f in files :: f !in known
    ensures Hits(files, known) == 0
  {
    if files != [] {
      NoHits(files[..|files| - 1], known);
    }
  }

  /** A single name is one hit if it is listed and none otherwise. */
  lemma HitsSingle(f: string, known: seq<string>)
    ensures Hits([f], known) == if f in known then 1 else 0
  {
    assert [f][..0] == [];
  }

  // ---------------------------------------------------------------------

  /** The result of validating one archive against one platform's categories. */
  class ValidateInput {
    const statusCodes: seq<StatusCode>
    const ddpCategories: seq<DDPCategory>
    var statusCode: Option<StatusCode>
    var ddpCategory: Option<DDPCategory>
    var validatedPaths: seq<string>
    /** `ddp_categories_lookup`: its keys in iteration order, and its mapping. */
    const categoryOrder: seq<string>
    const ddpCategoriesLookup: map<string, DDPCategory>
    const statusCodesLookup: map<int, StatusCode>

    /** `ValidateInput(status_codes, ddp_categories)` followed by `__post_init__`. */
    constructor (statusCodes: seq<StatusCode>, ddpCategories: seq<DDPCategory>)
      ensures this.statusCodes == statusCodes && this.ddpCategories == ddpCategories
      ensures statusCode == None && ddpCategory == None && validatedPaths == []
      ensures categoryOrder == LookupKeys(ddpCategories)
      ensures ddpCategoriesLookup == LookupMap(ddpCategories)
      ensures statusCodesLookup == StatusMap(statusCodes)
    {
      var order: seq<string> := [];
      var lookup: map<string, DDPCategory> := map[];
      for i := 0 to |ddpCategories|
        invariant order == LookupKeys(ddpCategories[..i])
        invariant lookup == LookupMap(ddpCategories[..i])
      {
        var c := ddpCategories[i];
        assert ddpCategories[..i + 1][..i] == ddpCategories[..i];
        if c.id !in order {
          order := order + [c.id];
        }
        lookup := lookup[c.id := c];
      }
      var codes: map<int, StatusCode> := map[];
      for i := 0 to |statusCodes|
        invariant codes == StatusMap(statusCodes[..i])
      {
        assert statusCodes[..i + 1][..i] == statusCodes[..i];
        codes := codes[statusCodes[i].id := statusCodes[i]];
      }
      assert ddpCategories[..|ddpCategories|] == ddpCategories;
      assert statusCodes[..|statusCodes|] == statusCodes;
      this.statusCodes := statusCodes;
      this.ddpCategories := ddpCategories;
      statusCode := None;
      ddpCategory := None;
      validatedPaths := [];
      categoryOrder := order;
      ddpCategoriesLookup := lookup;
      statusCodesLookup := codes;
    }

    /** `infer_ddp_category(file_list_input)`. */
    method InferDdpCategory(fileListInput: seq<string>) returns (found: bool)
      requires Inferable(categoryOrder, ddpCategoriesLookup)
      modifies this`ddpCategory, this`validatedPaths
      ensures found <==> Inferred(categoryOrder, ddpCategoriesLookup, fileListInput).Some?
      ensures found ==> ddpCategory == Inferred(categoryOrder, ddpCategoriesLookup, fileListInput)
      ensures found ==> validatedPaths == fileListInput
      ensures !found ==> ddpCategory == old(ddpCategory) && validatedPaths == old(validatedPaths)
    {
      ghost var all := Scores(categoryOrder, ddpCategoriesLookup, fileListInput);
      var propCategory: map<string, real> := map[];
      for i := 0 to |categoryOrder|
        invariant forall j | 0 <= j < i :: categoryOrder[j] in propCategory && propCategory[categoryOrder[j]] == all[j]
        invariant ddpCategory == old(ddpCategory) && validatedPaths == old(validatedPaths)
      {
        var known := ddpCategoriesLookup[categoryOrder[i]].knownFiles;
        var hits := CountKnown(fileListInput, known);
        assert all[i] == (hits as real) / (|known| as real) * 100.0;
        propCategory := propCategory[categoryOrder[i] := (hits as real) / (|known| as real) * 100.0];
      }
      // `max(prop_category, key=prop_category.get)`, whose score is also
      // `max(prop_category.values())`
      var highest := 0;
      for i := 1 to |categoryOrder|
        invariant highest < i
        invariant highest == BestIndex(all[..i])
        invariant ddpCategory == old(ddpCategory) && validatedPaths == old(validatedPaths)
      {
        assert all[..i + 1][..i] == all[..i];
        assert propCategory[categoryOrder[i]] == all[i] && propCategory[categoryOrder[highest]] == all[highest];
        assert BestIndex(all[..i + 1]) == if all[i] > all[highest] then i else highest;
        if propCategory[categoryOrder[i]] > propCategory[categoryOrder[highest]] {
          highest := i;
        }
      }
      assert all[..|categoryOrder|] == all;
      if propCategory[categoryOrder[highest]] >= 5.0 {
        ddpCategory := Some(ddpCategoriesLookup[categoryOrder[highest]]);
        validatedPaths := fileListInput;
        return true;
      }
      return false;
    }

    /** `set_status_code(code)`. */
    method SetStatusCode(code: int)
      modifies this`statusCode
      ensures statusCode == if code in statusCodesLookup then Some(statusCodesLookup[code]) else None
    {
      if code in statusCodesLookup {
        statusCode := Some(statusCodesLookup[code]);
      } else {
        statusCode := None;
      }
    }
  }

  /** The list comprehension `sum(1 if f in known else 0 for f in files)`. */
  method CountKnown(files: seq<string>, known: seq<string>) returns (n: nat)
    ensures n == Hits(files, known)
  {
    n := 0;
    for i := 0 to |files|
      invariant n == Hits(files[..i], known)
    {
      assert files[..i + 1][..i] == files[..i];
      if files[i] in known {
        n := n + 1;
      }
    }
    assert files[..|files|] == files;
  }
}
