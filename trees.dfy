/** The two lookups of `helpers.py` over decoded JSON trees:
    `find_items_bfs`, a breadth-first search for the first dict holding a
    key, and `find_items`, the least nested matching key of a flattened
    dict. */
module Trees {
  import opened Text
  import opened Json

  // ---------------------------------------------------------------------
  // Sizes, for the termination of the search

  lemma ChildrenSmaller(j: Json)
    ensures forall i | 0 <= i < |Children(j)| :: Children(j)[i] < j
  {
    forall i | 0 <= i < |Children(j)| ensures Children(j)[i] < j {
      ChildSmaller(j, i);
    }
  }

  /** The number of values in a tree, the tree itself included. */
  function Size(j: Json): nat
    decreases j, 1
  {
    ChildrenSmaller(j);
    1 + SizeAll(j, Children(j))
  }

  function SizeAll(ghost parent: Json, cs: seq<Json>): nat
    requires forall i | 0 <= i < |cs| :: cs[i] < parent
    decreases parent, 0, |cs|
  {
    if cs == [] then 0 else Size(cs[0]) + SizeAll(parent, cs[1..])
  }

  /** The number of values in all trees of a queue. */
  function QueueSize(q: seq<Json>): nat {
    if q == [] then 0 else Size(q[0]) + QueueSize(q[1..])
  }

  lemma {:induction false} SizeAllIsQueueSize(parent: Json, cs: seq<Json>)
    requires forall i | 0 <= i < |cs| :: cs[i] < parent
    ensures SizeAll(parent, cs) == QueueSize(cs)
    decreases |cs|
  {
    if cs != [] {
      SizeAllIsQueueSize(parent, cs[1..]);
    }
  }

  lemma {:induction false} QueueSizeAppend(a: seq<Json>, b: seq<Json>)
    ensures QueueSize(a + b) == QueueSize(a) + QueueSize(b)
    decreases |a|
  {
    if a == [] {
      assert a + b == b;
    } else {
      assert (a + b)[1..] == a[1..] + b;
      QueueSizeAppend(a[1..], b);
    }
  }

  /** The queue after one step of the search. */
  function Next(q: seq<Json>): seq<Json>
    requires q != []
  {
    q[1..] + Children(q[0])
  }

  /** One step of the search visits one value: the queue shrinks. */
  lemma NextShrinks(q: seq<Json>)
    requires q != []
    ensures QueueSize(Next(q)) < QueueSize(q)
  {
    ChildrenSmaller(q[0]);
    QueueSizeAppend(q[1..], Children(q[0]));
    SizeAllIsQueueSize(q[0], Children(q[0]));
  }

  // ---------------------------------------------------------------------
  // `find_items_bfs`

  /** A dict that holds `key`. */
  predicate Holder(x: Json, key: string) {
    x.Obj? && HasKey(x.fields, key)
  }

  /** The searched value of the first dict holding `key`, visiting the
      queue in breadth-first order: a dict's values and a list's items
      join the end of the queue. */
  function BfsFind(q: seq<Json>, key: string): Option<Json>
    decreases QueueSize(q)
  {
    if q == [] then None
    else if Holder(q[0], key) then Lookup(q[0].fields, key)
    else
      NextShrinks(q);
      BfsFind(Next(q), key)
  }

  /** `find_items_bfs(d, key, replacement)`: the value found, unless it is
      falsy or nothing is found, in which case `replacement`. */
  function BfsResult(d: Json, key: string, replacement: Json): (r: Json)
    ensures r == replacement || Truthy(r)
  {
    match BfsFind([d], key)
    case Some(v) => if Truthy(v) then v else replacement
    case None => replacement
  }

  /** `find_items_bfs`: pops the front of the queue; a dict holding the
      key ends the search, and otherwise a dict's values or a list's items
      join the queue. */
  method FindItemsBfs(d: Json, key: string, replacement: Json) returns (r: Json)
    ensures r == BfsResult(d, key, replacement)
  {
    var queue := [d];
    while queue != []
      invariant BfsFind(queue, key) == BfsFind([d], key)
      decreases QueueSize(queue)
    {
      NextShrinks(queue);
      var current := queue[0];
      ghost var next := Next(queue);
      queue := queue[1..];
      match current
      case Obj(fields) =>
        if HasKey(fields, key) {
          var value := Lookup(fields, key).value;
          if Truthy(value) {
            return value;
          }
          return replacement;
        }
        queue := queue + seq(|fields|, i requires 0 <= i < |fields| => fields[i].1);
      case List(items) =>
        queue := queue + items;
      case _ =>
        assert queue == queue + Children(current);
    }
    return replacement;
  }

  /** Is `x` the tree `j` or inside it, through dict values and list items? */
  ghost predicate Reaches(j: Json, x: Json)
    decreases j
  {
    j == x ||
      match j
      case List(items) => exists i | 0 <= i < |items| :: Reaches(items[i], x)
      case Obj(fields) => exists i | 0 <= i < |fields| :: Reaches(fields[i].1, x)
      case _ => false
  }

  /** Some tree of the queue reaches a dict holding `key`. */
  ghost predicate HolderIn(q: seq<Json>, key: string) {
    exists i, x | 0 <= i < |q| :: Reaches(q[i], x) && Holder(x, key)
  }

  lemma ReachesChild(j: Json, m: int, x: Json)
    requires 0 <= m < |Children(j)| && Reaches(Children(j)[m], x)
    ensures Reaches(j, x)
  {
    match j
    case List(items) =>
    case Obj(fields) => assert Children(j)[m] == fields[m].1;
  }

  lemma ReachesSplit(j: Json, x: Json)
    requires Reaches(j, x) && j != x
    ensures exists m | 0 <= m < |Children(j)| :: Reaches(Children(j)[m], x)
  {
    match j
    case List(items) =>
      var m :| 0 <= m < |items| && Reaches(items[m], x);
      assert Children(j)[m] == items[m];
    case Obj(fields) =>
      var m :| 0 <= m < |fields| && Reaches(fields[m].1, x);
      assert Children(j)[m] == fields[m].1;
  }

  lemma NextAt(q: seq<Json>, k: int)
    requires q != [] && 0 <= k < |Next(q)|
    ensures Next(q)[k] == if k < |q| - 1 then q[k + 1] else Children(q[0])[k - |q| + 1]
  {
  }

  /** A holder below the queue is a holder below the next queue, unless it
      is the front of the queue itself. */
  lemma HolderMoves(q: seq<Json>, key: string, i: int, x: Json)
    requires 0 <= i < |q| && Reaches(q[i], x) && Holder(x, key) && !Holder(q[0], key)
    ensures HolderIn(Next(q), key)
  {
    if i > 0 {
      NextAt(q, i - 1);
      assert Reaches(Next(q)[i - 1], x);
    } else {
      assert q[0] != x;
      ReachesSplit(q[0], x);
      var m :| 0 <= m < |Children(q[0])| && Reaches(Children(q[0])[m], x);
      NextAt(q, |q| - 1 + m);
      assert Reaches(Next(q)[|q| - 1 + m], x);
    }
  }

  /** A holder below the next queue is a holder below the queue. */
  lemma HolderBack(q: seq<Json>, key: string, k: int, x: Json)
    requires q != [] && 0 <= k < |Next(q)| && Reaches(Next(q)[k], x)
    ensures exists i | 0 <= i < |q| :: Reaches(q[i], x)
  {
    NextAt(q, k);
    if k < |q| - 1 {
      assert Reaches(q[k + 1], x);
    } else {
      ReachesChild(q[0], k - |q| + 1, x);
      assert Reaches(q[0], x);
    }
  }

  /** The search finds something exactly when some dict below the queue
      holds the key, and what it finds is the value of such a dict. */
  lemma {:induction false} BfsFindSpec(q: seq<Json>, key: string)
    ensures BfsFind(q, key).Some? <==> HolderIn(q, key)
    ensures BfsFind(q, key).Some? ==>
      exists i, x | 0 <= i < |q| :: Reaches(q[i], x) && Holder(x, key) && Lookup(x.fields, key) == BfsFind(q, key)
    decreases QueueSize(q)
  {
    if q != [] {
      if Holder(q[0], key) {
        assert Reaches(q[0], q[0]);
      } else {
        NextShrinks(q);
        BfsFindSpec(Next(q), key);
        if HolderIn(q, key) {
          var i, x :| 0 <= i < |q| && Reaches(q[i], x) && Holder(x, key);
          HolderMoves(q, key, i, x);
        }
        if BfsFind(q, key).Some? {
          var k, x :| 0 <= k < |Next(q)| && Reaches(Next(q)[k], x) && Holder(x, key)
            && Lookup(x.fields, key) == BfsFind(Next(q), key);
          HolderBack(q, key, k, x);
        }
      }
    }
  }

  /** `find_items_bfs` gives `replacement` when no dict below `d` holds the
      key; any other result is a truthy value that some dict below `d`
      holds under the key. */
  lemma FindItemsBfsSpec(d: Json, key: string, replacement: Json)
    ensures !HolderIn([d], key) ==> BfsResult(d, key, replacement) == replacement
    ensures var r := BfsResult(d, key, replacement);
      r != replacement ==> Truthy(r) && exists x :: Reaches(d, x) && Holder(x, key) && Lookup(x.fields, key) == Some(r)
  {
    BfsFindSpec([d], key);
    var r := BfsResult(d, key, replacement);
    if r != replacement {
      var i, x :| 0 <= i < 1 && Reaches([d][i], x) && Holder(x, key) && Lookup(x.fields, key) == BfsFind([d], key);
      assert Reaches(d, x);
    }
  }

  /** Breadth first: a shallow holder wins over a deeper one met earlier
      in depth-first order. */
  lemma BfsShallowFirst()
    ensures BfsFind([Obj([("x", Obj([("y", Obj([("k", Int(1))]))])), ("z", Obj([("k", Int(2))]))])], "k") == Some(Int(2))
  {
    var deep := Obj([("k", Int(1))]);
    var y := Obj([("y", deep)]);
    var z := Obj([("k", Int(2))]);
    var d := Obj([("x", y), ("z", z)]);
    assert !Holder(d, "k") by {
      assert d.fields[0].0 == "x" && d.fields[1].0 == "z";
    }
    assert Next([d]) == [y, z];
    assert !Holder(y, "k") by {
      assert y.fields[0].0 == "y";
    }
    assert Next([y, z]) == [z, deep];
    assert Holder(z, "k") by {
      assert z.fields[0].0 == "k";
    }
  }

  /** A falsy value under the key ends the search with the replacement,
      even when a later dict holds a truthy value. */
  lemma BfsFalsyStops(replacement: Json)
    ensures BfsResult(Obj([("a", Str("")), ("b", Obj([("a", Str("x"))]))]), "a", replacement) == replacement
  {
    var d := Obj([("a", Str("")), ("b", Obj([("a", Str("x"))]))]);
    assert Holder(d, "a") by {
      assert d.fields[0].0 == "a";
    }
  }

  // ---------------------------------------------------------------------
  // `find_items`

  /** The number of `-` in a flattened key: its nesting depth. */
  function Depth(k: string): nat {
    CountChar(k, '-')
  }

  /** Entry `i` of a flattened dict matches `key`. */
  predicate Matching(d: Fields<Json>, key: string, i: int) {
    0 <= i < |d| && Contains(d[i].0, key)
  }

  /** Among the first `n` entries, `m` is the first matching entry of least
      depth. */
  predicate LeastMatch(d: Fields<Json>, key: string, n: int, m: int) {
    0 <= m < n <= |d| && Matching(d, key, m)
    && (forall j | 0 <= j < m && Matching(d, key, j) :: Depth(d[j].0) > Depth(d[m].0))
    && (forall j | m < j < n && Matching(d, key, j) :: Depth(d[j].0) >= Depth(d[m].0))
  }

  /** There is at most one first matching entry of least depth. */
  lemma LeastMatchUnique(d: Fields<Json>, key: string, n: int, m: int, m': int)
    requires LeastMatch(d, key, n, m) && LeastMatch(d, key, n, m')
    ensures m == m'
  {
  }

  /** `find_items(d, key)`: `str` of the value of the least nested key
      containing `key`, the first such key on a tie, and `""` when no key
      contains it. */
  method FindItems(d: Fields<Json>, key: string) returns (out: string)
    ensures (forall i | 0 <= i < |d| :: !Matching(d, key, i)) ==> out == ""
    ensures (exists i :: Matching(d, key, i)) ==> exists m :: LeastMatch(d, key, |d|, m) && out == PyStr(d[m].1)
  {
    out := "";
    var depth: Option<nat> := None;
    ghost var m := -1;
    for i := 0 to |d|
      invariant depth.None? <==> forall j | 0 <= j < i :: !Matching(d, key, j)
      invariant depth.None? ==> out == ""
      invariant depth.Some? ==> LeastMatch(d, key, i, m) && depth.value == Depth(d[m].0) && out == PyStr(d[m].1)
    {
      var k := d[i].0;
      if Contains(k, key) {
        assert Matching(d, key, i);
        var current := CountChar(k, '-');
        if depth.None? || current < depth.value {
          depth := Some(current);
          out := PyStr(d[i].1);
          m := i;
        }
      }
    }
    if exists i :: Matching(d, key, i) {
      assert depth.Some?;
    }
  }

  /** The example of `find_items`' own documentation: of the keys
      `asd-asd-asd-asd-asd-asd`, `asd-asd` and `qwe`, `asd` picks the
      second, whose value `2` the method returns as `"2"`. */
  lemma FindItemsExample()
    ensures var d := [("asd-asd-asd-asd-asd-asd", Int(1)), ("asd-asd", Int(2)), ("qwe", Int(3))];
      LeastMatch(d, "asd", |d|, 1) && PyStr(d[1].1) == "2"
  {
    var d := [("asd-asd-asd-asd-asd-asd", Int(1)), ("asd-asd", Int(2)), ("qwe", Int(3))];
    ExampleMatches();
    ExampleDepths();
    assert d[0].0 == "asd-asd-asd-asd-asd-asd" && d[1].0 == "asd-asd" && d[2].0 == "qwe";
    SecondOfThree(d, "asd");
    assert PyStr(Int(2)) == IntToString(2) == NatToString(2) == [DigitChar(2)];
  }

  lemma SecondOfThree(d: Fields<Json>, key: string)
    requires |d| == 3 && Contains(d[0].0, key) && Contains(d[1].0, key) && !Contains(d[2].0, key)
    requires Depth(d[0].0) > Depth(d[1].0)
    ensures LeastMatch(d, key, 3, 1)
  {
    assert Matching(d, key, 1) && !Matching(d, key, 2);
  }

  lemma ExampleMatches()
    ensures Contains("asd-asd-asd-asd-asd-asd", "asd") && Contains("asd-asd", "asd") && !Contains("qwe", "asd")
  {
    assert OccursAt("asd-asd-asd-asd-asd-asd", "asd", 0);
    assert OccursAt("asd-asd", "asd", 0);
    assert !OccursAt("qwe", "asd", 0) by {
      assert "qwe"[0] != "asd"[0];
    }
  }

  lemma ExampleDepths()
    ensures Depth("asd-asd-asd-asd-asd-asd") > Depth("asd-asd")
  {
    var u := "asd-asd";
    assert u == "asd" + "-asd";
    var long := "asd-asd-asd-asd-asd-asd";
    assert long == u + "-asd-asd-asd-asd";
    CountAppend(u, "-asd-asd-asd-asd", '-');
    assert "-asd-asd-asd-asd"[0] == '-';
  }
}
