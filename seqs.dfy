/** Filtering and mapping of sequences, the shape of Python's list
    comprehensions with an `if` and of loops that skip failing items. */
module Seqs {
  import opened Json

  /** `[f(x) for x in xs if keep(x)]`. */
  function FilterMap<T, U>(xs: seq<T>, keep: T -> bool, f: T -> U): (r: seq<U>)
    ensures |r| <= |xs|
  {
    if xs == [] then []
    else
      var prev := FilterMap(xs[..|xs| - 1], keep, f);
      if keep(xs[|xs| - 1]) then prev + [f(xs[|xs| - 1])] else prev
  }

  lemma {:induction false} FilterMapMembers<T, U>(xs: seq<T>, keep: T -> bool, f: T -> U)
    ensures forall y :: y in FilterMap(xs, keep, f) <==> exists i | 0 <= i < |xs| :: keep(xs[i]) && y == f(xs[i])
  {
    if xs != [] {
      var init := xs[..|xs| - 1];
      FilterMapMembers(init, keep, f);
      assert forall i | 0 <= i < |init| :: init[i] == xs[i];
    }
  }

  /** `[y for x in xs for y in f(x)]`. */
  function FlatMap<T, U>(xs: seq<T>, f: T -> seq<U>): seq<U> {
    if xs == [] then [] else FlatMap(xs[..|xs| - 1], f) + f(xs[|xs| - 1])
  }

  lemma {:induction false} FlatMapAppend<T, U>(a: seq<T>, b: seq<T>, f: T -> seq<U>)
    ensures FlatMap(a + b, f) == FlatMap(a, f) + FlatMap(b, f)
  {
    if b == [] {
      assert a + b == a;
    } else {
      assert (a + b)[..|a + b| - 1] == a + b[..|b| - 1];
      FlatMapAppend(a, b[..|b| - 1], f);
    }
  }

  lemma FlatMapOne<T, U>(x: T, f: T -> seq<U>)
    ensures FlatMap([x], f) == f(x)
  {
    assert [x][..0] == [];
  }

  /** Every output comes from the output of some input. */
  lemma {:induction false} FlatMapMembers<T, U>(xs: seq<T>, f: T -> seq<U>, y: U)
    requires y in FlatMap(xs, f)
    ensures exists i | 0 <= i < |xs| :: y in f(xs[i])
  {
    var init := xs[..|xs| - 1];
    if y in FlatMap(init, f) {
      FlatMapMembers(init, f, y);
      var i :| 0 <= i < |init| && y in f(init[i]);
      assert init[i] == xs[i];
    }
  }

  /** The results of `f` on the items where it succeeds, in order: a loop
      whose body is wrapped in `try`/`except Exception` and appends once. */
  function Successes<T, U>(xs: seq<T>, f: T -> Option<U>): (r: seq<U>)
    ensures |r| <= |xs|
  {
    if xs == [] then []
    else
      var prev := Successes(xs[..|xs| - 1], f);
      match f(xs[|xs| - 1])
      case Some(u) => prev + [u]
      case None => prev
  }

  /** Every result comes from some item, and an item on which `f` succeeds
      contributes its result. */
  lemma {:induction false} SuccessesMembers<T, U>(xs: seq<T>, f: T -> Option<U>)
    ensures forall u :: u in Successes(xs, f) <==> exists i | 0 <= i < |xs| :: f(xs[i]) == Some(u)
  {
    if xs != [] {
      var init := xs[..|xs| - 1];
      SuccessesMembers(init, f);
      assert forall i | 0 <= i < |init| :: init[i] == xs[i];
    }
  }

  /** When `f` succeeds everywhere, no item is skipped. */
  lemma {:induction false} SuccessesTotal<T, U>(xs: seq<T>, f: T -> Option<U>)
    requires forall i | 0 <= i < |xs| :: f(xs[i]).Some?
    ensures |Successes(xs, f)| == |xs|
    ensures forall i | 0 <= i < |xs| :: Successes(xs, f)[i] == f(xs[i]).value
  {
    if xs != [] {
      var init := xs[..|xs| - 1];
      assert forall i | 0 <= i < |init| :: init[i] == xs[i];
      SuccessesTotal(init, f);
    }
  }

  /** `[f(x) for x in xs]` where any failing item raises: all or nothing. */
  function AllOf<T, U>(xs: seq<T>, f: T -> Option<U>): (r: Option<seq<U>>)
    ensures r.Some? ==> |r.value| == |xs|
    ensures r.Some? ==> forall i | 0 <= i < |xs| :: f(xs[i]) == Some(r.value[i])
  {
    if xs == [] then Some([])
    else
      match AllOf(xs[..|xs| - 1], f)
      case None => None
      case Some(prev) =>
        match f(xs[|xs| - 1])
        case None => None
        case Some(u) =>
          assert forall i | 0 <= i < |xs| - 1 :: xs[..|xs| - 1][i] == xs[i];
          Some(prev + [u])
  }

  /** The comprehension fails exactly when some item fails. */
  lemma {:induction false} AllOfFails<T, U>(xs: seq<T>, f: T -> Option<U>)
    ensures AllOf(xs, f).None? <==> exists i | 0 <= i < |xs| :: f(xs[i]).None?
  {
    if xs != [] {
      var init := xs[..|xs| - 1];
      AllOfFails(init, f);
      assert forall i | 0 <= i < |init| :: init[i] == xs[i];
    }
  }
}
