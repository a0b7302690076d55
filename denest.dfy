/** `dict_denester` of `helpers.py`: flattens a decoded JSON tree into a
    dict from `-`-joined paths to the scalar leaves. */
module Denest {
  import opened Text
  import opened Json

  /** Neither a dict nor a list. */
  predicate Scalar(j: Json) {
    !j.Obj? && !j.List?
  }

  /** Python's `s[1:]`. */
  function DropFirst(s: string): string {
    if s == [] then [] else s[1..]
  }

  /** The assignments `new[path] = leaf` the denester makes below `j`, in
      order, when `j` sits at the path `name`. */
  function DenestWrites(j: Json, name: string): Fields<Json>
    decreases j, 2
  {
    match j
    case Obj(fields) => FieldWrites(j, fields, name)
    case List(items) => ItemWrites(j, items, name, 0)
    case _ => [(DropFirst(name), j)]
  }

  function FieldWrites(ghost parent: Json, fields: Fields<Json>, name: string): Fields<Json>
    requires forall i | 0 <= i < |fields| :: fields[i].1 < parent
    decreases parent, 1, |fields|
  {
    if fields == [] then []
    else DenestWrites(fields[0].1, name + "-" + fields[0].0) + FieldWrites(parent, fields[1..], name)
  }

  /** The writes of `items`, the first of which has index `n`. */
  function ItemWrites(ghost parent: Json, items: seq<Json>, name: string, n: nat): Fields<Json>
    requires forall i | 0 <= i < |items| :: items[i] < parent
    decreases parent, 1, |items|
  {
    if items == [] then []
    else DenestWrites(items[0], name + "-" + IntToString(n)) + ItemWrites(parent, items[1..], name, n + 1)
  }

  lemma {:induction false} FieldWritesSnoc(parent: Json, fields: Fields<Json>, p: (string, Json), name: string)
    requires forall i | 0 <= i < |fields| :: fields[i].1 < parent
    requires p.1 < parent
    ensures FieldWrites(parent, fields + [p], name) == FieldWrites(parent, fields, name) + DenestWrites(p.1, name + "-" + p.0)
    decreases |fields|
  {
    if fields == [] {
      assert FieldWrites(parent, [p], name) == DenestWrites(p.1, name + "-" + p.0) + [];
    } else {
      assert (fields + [p])[1..] == fields[1..] + [p];
      FieldWritesSnoc(parent, fields[1..], p, name);
    }
  }

  lemma {:induction false} ItemWritesSnoc(parent: Json, items: seq<Json>, x: Json, name: string, n: nat)
    requires forall i | 0 <= i < |items| :: items[i] < parent
    requires x < parent
    ensures ItemWrites(parent, items + [x], name, n) == ItemWrites(parent, items, name, n) + DenestWrites(x, name + "-" + IntToString(n + |items|))
    decreases |items|
  {
    if items == [] {
      assert ItemWrites(parent, [x], name, n) == DenestWrites(x, name + "-" + IntToString(n)) + [];
    } else {
      assert (items + [x])[1..] == items[1..] + [x];
      ItemWritesSnoc(parent, items[1..], x, name, n + 1);
    }
  }

  /** Two runs of assignments in a row are one run. */
  lemma {:induction false} ApplyWritesConcat(d: Fields<Json>, a: Fields<Json>, b: Fields<Json>)
    ensures ApplyWrites(d, a + b) == ApplyWrites(ApplyWrites(d, a), b)
    decreases |b|
  {
    if b == [] {
      assert a + b == a;
    } else {
      assert (a + b)[..|a + b| - 1] == a + b[..|b| - 1];
      ApplyWritesConcat(d, a, b[..|b| - 1]);
    }
  }

  /** One more field of the loop in `DenestFields`. */
  lemma FieldStep(parent: Json, fields: Fields<Json>, i: nat, acc: Fields<Json>, name: string)
    requires forall m | 0 <= m < |fields| :: fields[m].1 < parent
    requires i < |fields|
    ensures ApplyWrites(acc, FieldWrites(parent, fields[..i + 1], name))
      == ApplyWrites(ApplyWrites(acc, FieldWrites(parent, fields[..i], name)), DenestWrites(fields[i].1, name + "-" + fields[i].0))
  {
    assert fields[..i + 1] == fields[..i] + [fields[i]];
    FieldWritesSnoc(parent, fields[..i], fields[i], name);
    ApplyWritesConcat(acc, FieldWrites(parent, fields[..i], name), DenestWrites(fields[i].1, name + "-" + fields[i].0));
  }

  /** One more item of the loop in `DenestItems`. */
  lemma ItemStep(parent: Json, items: seq<Json>, i: nat, acc: Fields<Json>, name: string)
    requires forall m | 0 <= m < |items| :: items[m] < parent
    requires i < |items|
    ensures ApplyWrites(acc, ItemWrites(parent, items[..i + 1], name, 0))
      == ApplyWrites(ApplyWrites(acc, ItemWrites(parent, items[..i], name, 0)), DenestWrites(items[i], name + "-" + IntToString(i)))
  {
    assert items[..i + 1] == items[..i] + [items[i]];
    ItemWritesSnoc(parent, items[..i], items[i], name, 0);
    ApplyWritesConcat(acc, ItemWrites(parent, items[..i], name, 0), DenestWrites(items[i], name + "-" + IntToString(i)));
  }

  /** Writing a scalar is one assignment. */
  lemma ScalarWrite(before: Fields<Json>, name: string, v: Json)
    requires Scalar(v)
    ensures ApplyWrites(before, DenestWrites(v, name)) == SetField(before, DropFirst(name), v)
  {
    assert DenestWrites(v, name) == [(DropFirst(name), v)];
    assert [(DropFirst(name), v)][..0] == [];
  }

  /** `dict_denester(inp, new, name, run_first=False)`: writes into the
      shared dict `new`, here the accumulator `acc` threaded through as a
      value. A scalar is written under `name[1:]`. */
  method DenestInto(inp: Json, acc: Fields<Json>, name: string) returns (out: Fields<Json>)
    ensures out == ApplyWrites(acc, DenestWrites(inp, name))
    decreases inp, 1
  {
    match inp
    case Obj(fields) =>
      out := DenestFields(inp, fields, acc, name);
    case List(items) =>
      out := DenestItems(inp, items, acc, name);
    case _ =>
      ScalarWrite(acc, name, inp);
      out := SetField(acc, DropFirst(name), inp);
  }

  /** The dict branch of `dict_denester`: a container value is entered with
      the name extended by `-k`, a scalar value is written directly under
      `(name + "-" + k)[1:]`. */
  method DenestFields(ghost parent: Json, fields: Fields<Json>, acc: Fields<Json>, name: string) returns (out: Fields<Json>)
    requires forall i | 0 <= i < |fields| :: fields[i].1 < parent
    ensures out == ApplyWrites(acc, FieldWrites(parent, fields, name))
    decreases parent, 0
  {
    out := acc;
    for i := 0 to |fields|
      invariant out == ApplyWrites(acc, FieldWrites(parent, fields[..i], name))
    {
      var k, v := fields[i].0, fields[i].1;
      FieldStep(parent, fields, i, acc, name);
      if v.Obj? || v.List? {
        out := DenestInto(v, out, name + "-" + k);
      } else {
        var newname := name + "-" + k;
        ScalarWrite(out, newname, v);
        out := SetField(out, newname[1..], v);
      }
    }
    assert fields[..|fields|] == fields;
  }

  /** The list branch of `dict_denester`: item `i` is entered with the name
      extended by `-i`. */
  method DenestItems(ghost parent: Json, items: seq<Json>, acc: Fields<Json>, name: string) returns (out: Fields<Json>)
    requires forall i | 0 <= i < |items| :: items[i] < parent
    ensures out == ApplyWrites(acc, ItemWrites(parent, items, name, 0))
    decreases parent, 0
  {
    out := acc;
    for i := 0 to |items|
      invariant out == ApplyWrites(acc, ItemWrites(parent, items[..i], name, 0))
    {
      ItemStep(parent, items, i, acc, name);
      out := DenestInto(items[i], out, name + "-" + IntToString(i));
    }
    assert items[..|items|] == items;
  }

  /** `dict_denester(inp)`: starts from an empty dict and the empty name. */
  method DictDenester(inp: Json) returns (r: Fields<Json>)
    ensures r == ApplyWrites([], DenestWrites(inp, ""))
  {
    r := DenestInto(inp, [], "");
  }

  // ---------------------------------------------------------------------
  // The flattened keys are the paths to the scalar leaves

  /** One step down a tree: a dict key or a list index. */
  datatype Step = Key(k: string) | Index(n: nat)

  function StepName(s: Step): string {
    match s
    case Key(k) => k
    case Index(n) => IntToString(n)
  }

  /** The path written as `-a-b-0-c`. */
  function JoinDash(steps: seq<Step>): string {
    if steps == [] then "" else "-" + StepName(steps[0]) + JoinDash(steps[1..])
  }

  /** Following `steps` from `j` ends at the scalar `v`. */
  ghost predicate LeafAt(j: Json, steps: seq<Step>, v: Json)
    decreases |steps|
  {
    if steps == [] then j == v && Scalar(v)
    else
      match steps[0]
      case Key(k) => j.Obj? && exists i | 0 <= i < |j.fields| :: j.fields[i].0 == k && LeafAt(j.fields[i].1, steps[1..], v)
      case Index(n) => j.List? && n < |j.items| && LeafAt(j.items[n], steps[1..], v)
  }

  /** The path of a write one level down. */
  lemma JoinDashCons(name: string, s: Step, rest: seq<Step>)
    ensures name + JoinDash([s] + rest) == (name + "-" + StepName(s)) + JoinDash(rest)
  {
    var x, j := StepName(s), JoinDash(rest);
    assert ([s] + rest)[0] == s && ([s] + rest)[1..] == rest;
    calc {
      name + JoinDash([s] + rest);
      name + ("-" + x + j);
      { assert "-" + x + j == "-" + (x + j); }
      name + ("-" + (x + j));
      (name + "-") + (x + j);
      (name + "-" + x) + j;
    }
  }

  /** Every write goes to the path of a scalar leaf, under that path. */
  lemma {:induction false} DenestSound(j: Json, name: string, w: (string, Json))
    requires w in DenestWrites(j, name)
    ensures exists steps :: w.0 == DropFirst(name + JoinDash(steps)) && LeafAt(j, steps, w.1)
    decreases j, 2
  {
    match j
    case Obj(fields) =>
      FieldSound(j, fields, name, w);
    case List(items) =>
      ItemSound(j, items, name, 0, w);
    case _ =>
      assert name + JoinDash([]) == name;
      assert LeafAt(j, [], w.1);
  }

  lemma {:induction false} FieldSound(parent: Json, fields: Fields<Json>, name: string, w: (string, Json))
    requires parent.Obj? && |fields| <= |parent.fields| && fields == parent.fields[|parent.fields| - |fields|..]
    requires forall i | 0 <= i < |fields| :: fields[i].1 < parent
    requires w in FieldWrites(parent, fields, name)
    ensures exists steps :: w.0 == DropFirst(name + JoinDash(steps)) && LeafAt(parent, steps, w.1)
    decreases parent, 1, |fields|
  {
    var k, v := fields[0].0, fields[0].1;
    if w in DenestWrites(v, name + "-" + k) {
      DenestSound(v, name + "-" + k, w);
      var rest :| w.0 == DropFirst(name + "-" + k + JoinDash(rest)) && LeafAt(v, rest, w.1);
      var steps := [Key(k)] + rest;
      JoinDashCons(name, Key(k), rest);
      var at := |parent.fields| - |fields|;
      assert parent.fields[at] == fields[0];
      assert steps[0] == Key(k) && steps[1..] == rest;
      assert LeafAt(parent, steps, w.1);
    } else {
      assert fields[1..] == parent.fields[|parent.fields| - |fields[1..]|..];
      FieldSound(parent, fields[1..], name, w);
    }
  }

  lemma {:induction false} ItemSound(parent: Json, items: seq<Json>, name: string, n: nat, w: (string, Json))
    requires parent.List? && n + |items| == |parent.items| && items == parent.items[n..]
    requires forall i | 0 <= i < |items| :: items[i] < parent
    requires w in ItemWrites(parent, items, name, n)
    ensures exists steps :: w.0 == DropFirst(name + JoinDash(steps)) && LeafAt(parent, steps, w.1)
    decreases parent, 1, |items|
  {
    if w in DenestWrites(items[0], name + "-" + IntToString(n)) {
      DenestSound(items[0], name + "-" + IntToString(n), w);
      var rest :| w.0 == DropFirst(name + "-" + IntToString(n) + JoinDash(rest)) && LeafAt(items[0], rest, w.1);
      var steps := [Index(n)] + rest;
      JoinDashCons(name, Index(n), rest);
      assert parent.items[n] == items[0];
      assert steps[0] == Index(n) && steps[1..] == rest;
      assert LeafAt(parent, steps, w.1);
    } else {
      assert items[1..] == parent.items[n + 1..];
      ItemSound(parent, items[1..], name, n + 1, w);
    }
  }

  /** Every scalar leaf is written under its path. */
  lemma {:induction false} DenestComplete(j: Json, name: string, steps: seq<Step>, v: Json)
    requires LeafAt(j, steps, v)
    ensures (DropFirst(name + JoinDash(steps)), v) in DenestWrites(j, name)
    decreases |steps|
  {
    if steps == [] {
      assert name + JoinDash(steps) == name;
    } else {
      var rest := steps[1..];
      assert steps == [steps[0]] + rest;
      JoinDashCons(name, steps[0], rest);
      match steps[0]
      case Key(k) =>
        var fields := j.fields;
        var i :| 0 <= i < |fields| && fields[i].0 == k && LeafAt(fields[i].1, rest, v);
        DenestComplete(fields[i].1, name + "-" + k, rest, v);
        FieldWritesContain(j, fields, name, i, (DropFirst(name + JoinDash(steps)), v));
      case Index(n) =>
        var items := j.items;
        DenestComplete(items[n], name + "-" + IntToString(n), rest, v);
        ItemWritesContain(j, items, name, 0, n, (DropFirst(name + JoinDash(steps)), v));
    }
  }

  lemma {:induction false} FieldWritesContain(parent: Json, fields: Fields<Json>, name: string, i: int, w: (string, Json))
    requires forall m | 0 <= m < |fields| :: fields[m].1 < parent
    requires 0 <= i < |fields| && w in DenestWrites(fields[i].1, name + "-" + fields[i].0)
    ensures w in FieldWrites(parent, fields, name)
    decreases |fields|
  {
    if i > 0 {
      FieldWritesContain(parent, fields[1..], name, i - 1, w);
    }
  }

  lemma {:induction false} ItemWritesContain(parent: Json, items: seq<Json>, name: string, n: nat, i: int, w: (string, Json))
    requires forall m | 0 <= m < |items| :: items[m] < parent
    requires n <= i < n + |items| && w in DenestWrites(items[i - n], name + "-" + IntToString(i))
    ensures w in ItemWrites(parent, items, name, n)
    decreases |items|
  {
    if i > n {
      ItemWritesContain(parent, items[1..], name, n + 1, i, w);
    }
  }

  /** `dict_denester(inp)` holds exactly the `-`-joined paths of the scalar
      leaves of `inp`, with the leading `-` dropped: every key it holds is
      such a path and maps to the leaf there, and every such path is a key.
      Empty dicts and lists have no leaves and so contribute nothing. When
      two paths spell the same key the later write wins. */
  lemma DictDenesterLeaves(inp: Json, key: string)
    ensures var r := ApplyWrites([], DenestWrites(inp, ""));
      (Lookup(r, key).Some? ==> exists steps :: key == DropFirst(JoinDash(steps)) && LeafAt(inp, steps, Lookup(r, key).value))
      && (forall steps, v | LeafAt(inp, steps, v) && key == DropFirst(JoinDash(steps)) :: HasKey(r, key))
  {
    LeafKeysSound(inp, key);
    LeafKeysComplete(inp, key);
  }

  lemma LeafKeysSound(inp: Json, key: string)
    ensures var r := ApplyWrites([], DenestWrites(inp, ""));
      Lookup(r, key).Some? ==> exists steps :: key == DropFirst(JoinDash(steps)) && LeafAt(inp, steps, Lookup(r, key).value)
  {
    var ws := DenestWrites(inp, "");
    var r := ApplyWrites([], ws);
    if Lookup(r, key).Some? {
      var v := Lookup(r, key).value;
      WrittenFrom(ws, key);
      DenestSound(inp, "", (key, v));
      var steps :| key == DropFirst("" + JoinDash(steps)) && LeafAt(inp, steps, v);
      assert "" + JoinDash(steps) == JoinDash(steps);
    }
  }

  /** A key found after a run of assignments into an empty dict was
      assigned its value by one of them. */
  lemma WrittenFrom(ws: Fields<Json>, key: string)
    requires Lookup(ApplyWrites([], ws), key).Some?
    ensures (key, Lookup(ApplyWrites([], ws), key).value) in ws
  {
    ApplyWritesLast([], ws, key);
  }

  lemma LeafKeysComplete(inp: Json, key: string)
    ensures var r := ApplyWrites([], DenestWrites(inp, ""));
      forall steps, v | LeafAt(inp, steps, v) && key == DropFirst(JoinDash(steps)) :: HasKey(r, key)
  {
    var ws := DenestWrites(inp, "");
    var r := ApplyWrites([], ws);
    ApplyWritesLast([], ws, key);
    forall steps, v | LeafAt(inp, steps, v) && key == DropFirst(JoinDash(steps))
      ensures HasKey(r, key)
    {
      DenestComplete(inp, "", steps, v);
      assert "" + JoinDash(steps) == JoinDash(steps);
      var i :| 0 <= i < |ws| && ws[i] == (key, v);
      assert ws[i].0 == key;
    }
  }
}
