/** `get_json_keys` of `helpers.py`: the set of `__`-joined key paths of a
    decoded JSON tree, with lists transparent and keys about badges,
    messages and cookies pruned. */
module JsonKeys {
  import opened Text
  import opened Json

  /** A key whose lower case contains `badges`, `messages` or `cookie`:
      it and everything below it are skipped. */
  predicate Skipped(key: string) {
    var l := Lower(key);
    Contains(l, "badges") || Contains(l, "messages") || Contains(l, "cookie")
  }

  /** `f"{prefix}__{key}" if prefix else key`. */
  function Extend(prefix: string, key: string): string {
    if prefix != "" then prefix + "__" + key else key
  }

  /** `get_json_keys(data, prefix)`: each kept key of a dict adds its path
      and the paths below its value; a list adds the paths of its items
      under the same prefix; anything else adds nothing. */
  function GetJsonKeys(data: Json, prefix: string): (r: set<string>)
    ensures !data.Obj? && !data.List? ==> r == {}
    ensures data.Obj? ==> forall i | 0 <= i < |data.fields| && !Skipped(data.fields[i].0) :: Extend(prefix, data.fields[i].0) in r
    decreases data, 2
  {
    match data
    case Obj(fields) => FieldKeys(data, fields, prefix)
    case List(items) => ItemKeys(data, items, prefix)
    case _ => {}
  }

  function FieldKeys(ghost parent: Json, fields: Fields<Json>, prefix: string): (r: set<string>)
    requires forall i | 0 <= i < |fields| :: fields[i].1 < parent
    ensures forall i | 0 <= i < |fields| && !Skipped(fields[i].0) :: Extend(prefix, fields[i].0) in r
    decreases parent, 1, |fields|
  {
    if fields == [] then {}
    else
      var key, value := fields[0].0, fields[0].1;
      var rest := FieldKeys(parent, fields[1..], prefix);
      if Skipped(key) then rest
      else {Extend(prefix, key)} + GetJsonKeys(value, Extend(prefix, key)) + rest
  }

  function ItemKeys(ghost parent: Json, items: seq<Json>, prefix: string): set<string>
    requires forall i | 0 <= i < |items| :: items[i] < parent
    decreases parent, 1, |items|
  {
    if items == [] then {}
    else GetJsonKeys(items[0], prefix) + ItemKeys(parent, items[1..], prefix)
  }

  // ---------------------------------------------------------------------
  // Reference: the key trails of a tree

  /** `ks` is a non-empty run of kept keys leading down from `data`, each
      key held by a dict and lists passed through without a step. */
  ghost predicate KeyTrail(data: Json, ks: seq<string>)
    decreases data
  {
    match data
    case Obj(fields) =>
      ks != [] && !Skipped(ks[0]) &&
      exists i | 0 <= i < |fields| :: fields[i].0 == ks[0] && (|ks| == 1 || KeyTrail(fields[i].1, ks[1..]))
    case List(items) => exists i | 0 <= i < |items| :: KeyTrail(items[i], ks)
    case _ => false
  }

  /** The path a trail is written as, below `prefix`. */
  function JoinUnder(prefix: string, ks: seq<string>): string
    decreases |ks|
  {
    if ks == [] then prefix else JoinUnder(Extend(prefix, ks[0]), ks[1..])
  }

  lemma JoinUnderCons(prefix: string, k: string, ks: seq<string>)
    ensures JoinUnder(prefix, [k] + ks) == JoinUnder(Extend(prefix, k), ks)
  {
    assert ([k] + ks)[0] == k && ([k] + ks)[1..] == ks;
  }

  /** Every path `get_json_keys` returns is the path of a trail. */
  lemma {:induction false} KeysSound(data: Json, prefix: string, p: string)
    requires p in GetJsonKeys(data, prefix)
    ensures exists ks :: KeyTrail(data, ks) && p == JoinUnder(prefix, ks)
    decreases data, 2
  {
    match data
    case Obj(fields) => FieldKeysSound(data, fields, prefix, p);
    case List(items) => ItemKeysSound(data, items, prefix, p);
  }

  lemma {:induction false} FieldKeysSound(parent: Json, fields: Fields<Json>, prefix: string, p: string)
    requires parent.Obj? && |fields| <= |parent.fields| && fields == parent.fields[|parent.fields| - |fields|..]
    requires forall i | 0 <= i < |fields| :: fields[i].1 < parent
    requires p in FieldKeys(parent, fields, prefix)
    ensures exists ks :: KeyTrail(parent, ks) && p == JoinUnder(prefix, ks)
    decreases parent, 1, |fields|
  {
    var key, value := fields[0].0, fields[0].1;
    var at := |parent.fields| - |fields|;
    assert parent.fields[at] == fields[0];
    var here := Extend(prefix, key);
    if !Skipped(key) && p == here {
      JoinUnderCons(prefix, key, []);
      assert [key][0] == key;
      assert KeyTrail(parent, [key]);
    } else if !Skipped(key) && p in GetJsonKeys(value, here) {
      KeysSound(value, here, p);
      var ks :| KeyTrail(value, ks) && p == JoinUnder(here, ks);
      JoinUnderCons(prefix, key, ks);
      var trail := [key] + ks;
      assert trail[0] == key && trail[1..] == ks;
      assert KeyTrail(parent, trail);
    } else {
      assert fields[1..] == parent.fields[|parent.fields| - |fields[1..]|..];
      FieldKeysSound(parent, fields[1..], prefix, p);
    }
  }

  lemma {:induction false} ItemKeysSound(parent: Json, items: seq<Json>, prefix: string, p: string)
    requires parent.List? && |items| <= |parent.items| && items == parent.items[|parent.items| - |items|..]
    requires forall i | 0 <= i < |items| :: items[i] < parent
    requires p in ItemKeys(parent, items, prefix)
    ensures exists ks :: KeyTrail(parent, ks) && p == JoinUnder(prefix, ks)
    decreases parent, 1, |items|
  {
    var at := |parent.items| - |items|;
    assert parent.items[at] == items[0];
    if p in GetJsonKeys(items[0], prefix) {
      KeysSound(items[0], prefix, p);
      var ks :| KeyTrail(items[0], ks) && p == JoinUnder(prefix, ks);
      assert KeyTrail(parent, ks);
    } else {
      assert items[1..] == parent.items[|parent.items| - |items[1..]|..];
      ItemKeysSound(parent, items[1..], prefix, p);
    }
  }

  /** The path of every trail is returned. */
  lemma {:induction false} KeysComplete(data: Json, prefix: string, ks: seq<string>)
    requires KeyTrail(data, ks)
    ensures JoinUnder(prefix, ks) in GetJsonKeys(data, prefix)
    decreases data
  {
    match data
    case Obj(fields) =>
      var i :| 0 <= i < |fields| && fields[i].0 == ks[0] && (|ks| == 1 || KeyTrail(fields[i].1, ks[1..]));
      var here := Extend(prefix, ks[0]);
      assert ks == [ks[0]] + ks[1..];
      JoinUnderCons(prefix, ks[0], ks[1..]);
      FieldKeysContain(data, fields, prefix, i);
      if |ks| > 1 {
        KeysComplete(fields[i].1, here, ks[1..]);
      }
    case List(items) =>
      var i :| 0 <= i < |items| && KeyTrail(items[i], ks);
      KeysComplete(items[i], prefix, ks);
      ItemKeysContain(data, items, prefix, i);
  }

  lemma {:induction false} FieldKeysContain(parent: Json, fields: Fields<Json>, prefix: string, i: int)
    requires forall m | 0 <= m < |fields| :: fields[m].1 < parent
    requires 0 <= i < |fields| && !Skipped(fields[i].0)
    ensures var here := Extend(prefix, fields[i].0);
      here in FieldKeys(parent, fields, prefix) && GetJsonKeys(fields[i].1, here) <= FieldKeys(parent, fields, prefix)
    decreases |fields|
  {
    if i > 0 {
      FieldKeysContain(parent, fields[1..], prefix, i - 1);
    }
  }

  lemma {:induction false} ItemKeysContain(parent: Json, items: seq<Json>, prefix: string, i: int)
    requires forall m | 0 <= m < |items| :: items[m] < parent
    requires 0 <= i < |items|
    ensures GetJsonKeys(items[i], prefix) <= ItemKeys(parent, items, prefix)
    decreases |items|
  {
    if i > 0 {
      ItemKeysContain(parent, items[1..], prefix, i - 1);
    }
  }

  /** `get_json_keys(data)` is exactly the set of `__`-joined trails of
      kept keys of `data`: every (not only every leaf) dict key reached
      through dicts and lists without passing a skipped key. */
  lemma GetJsonKeysSpec(data: Json, p: string)
    ensures p in GetJsonKeys(data, "") <==> exists ks :: KeyTrail(data, ks) && p == JoinUnder("", ks)
  {
    if p in GetJsonKeys(data, "") {
      KeysSound(data, "", p);
    }
    if exists ks :: KeyTrail(data, ks) && p == JoinUnder("", ks) {
      var ks :| KeyTrail(data, ks) && p == JoinUnder("", ks);
      KeysComplete(data, "", ks);
    }
  }
}
