/** The record shape shared by the TikTok, Instagram and Google extractors,
    `safe_get` (tiktok.py and insta.py define it identically), and the
    Python operations the `parse_*` functions apply to decoded JSON:
    subscripts, `.get`, iteration, `in`, `[0]` and `int()`. Each of these
    yields `None` where Python raises. */
module Records {
  import opened Json
  import opened Text

  /** One output row: `data_type`, `Action`, `title`, `URL`, `Date`, and the
      dict that `details` holds before `json.dumps`. */
  datatype Row = Row(dataType: string, action: string, title: Json, url: Json, date: Json, details: Fields<Json>)

  /** The value at the end of a path of dict keys, or `None` as soon as
      the current value is not a dict or lacks the next key. */
  function Walk(d: Json, keys: seq<string>): Option<Json>
    decreases |keys|
  {
    if keys == [] then Some(d)
    else if d.Obj? && HasKey(d.fields, keys[0]) then Walk(Lookup(d.fields, keys[0]).value, keys[1..])
    else None
  }

  /** What `safe_get(data, *keys, default=default)` returns. */
  function SafeGetValue(d: Json, keys: seq<string>, default: Json): (r: Json)
    ensures keys == [] ==> r == d
    ensures Walk(d, keys).None? ==> r == default
  {
    match Walk(d, keys)
    case Some(v) => v
    case None => default
  }

  /** `safe_get(data, *keys, default=default)`. */
  method SafeGet(data: Json, keys: seq<string>, default: Json) returns (r: Json)
    ensures r == SafeGetValue(data, keys, default)
  {
    r := data;
    for i := 0 to |keys|
      invariant Walk(data, keys) == Walk(r, keys[i..])
    {
      assert keys[i..][1..] == keys[i + 1..];
      if r.Obj? && HasKey(r.fields, keys[i]) {
        r := Lookup(r.fields, keys[i]).value;
      } else {
        return default;
      }
    }
    assert keys[|keys|..] == [];
  }

  /** Following a path in two legs is following it at once. */
  lemma {:induction false} WalkAppend(d: Json, a: seq<string>, b: seq<string>)
    ensures Walk(d, a + b) == match Walk(d, a) case None => None case Some(v) => Walk(v, b)
    decreases |a|
  {
    if a == [] {
      assert a + b == b;
    } else {
      assert (a + b)[0] == a[0];
      assert (a + b)[1..] == a[1..] + b;
      if d.Obj? && HasKey(d.fields, a[0]) {
        WalkAppend(Lookup(d.fields, a[0]).value, a[1..], b);
      }
    }
  }

  /** `safe_get(d)` with no keys is `d`; `safe_get(d, k, *ks)` is
      `safe_get(d[k], *ks)` when `d` is a dict holding `k`, and `default`
      otherwise. */
  lemma SafeGetStep(d: Json, k: string, ks: seq<string>, default: Json)
    ensures SafeGetValue(d, [], default) == d
    ensures d.Obj? && HasKey(d.fields, k) ==>
      SafeGetValue(d, [k] + ks, default) == SafeGetValue(Lookup(d.fields, k).value, ks, default)
    ensures !(d.Obj? && HasKey(d.fields, k)) ==> SafeGetValue(d, [k] + ks, default) == default
  {
    assert ([k] + ks)[0] == k;
    assert ([k] + ks)[1..] == ks;
  }

  /** Where the full path exists the result is the value at its end,
      whatever the default. */
  lemma SafeGetFound(d: Json, keys: seq<string>, default: Json, v: Json)
    requires Walk(d, keys) == Some(v)
    ensures SafeGetValue(d, keys, default) == v
  {
  }

  /** `d[k]` on a decoded value: only a dict holding `k` succeeds. */
  function Field(j: Json, k: string): (r: Option<Json>)
    ensures r.Some? <==> j.Obj? && HasKey(j.fields, k)
  {
    if j.Obj? then Lookup(j.fields, k) else None
  }

  /** `d.get(k, default)`: fails (`AttributeError`) unless `d` is a dict. */
  function GetOr(j: Json, k: string, default: Json): (r: Option<Json>)
    ensures r.Some? <==> j.Obj?
    ensures j.Obj? && !HasKey(j.fields, k) ==> r == Some(default)
  {
    if j.Obj? then Some(Get(j.fields, k, default)) else None
  }

  /** `x[0]`: the first element of a non-empty list or string. */
  function First(j: Json): (r: Option<Json>)
    ensures r.Some? <==> (j.List? && j.items != []) || (j.Str? && j.s != "")
  {
    match j
    case List(items) => if items == [] then None else Some(items[0])
    case Str(s) => if s == "" then None else Some(Str([s[0]]))
    case _ => None
  }

  /** `for x in j` (and `len(j)`): lists give their elements, dicts their
      keys, strings their characters; other values raise `TypeError`. */
  function Items(j: Json): (r: Option<seq<Json>>)
    ensures r.Some? <==> j.List? || j.Obj? || j.Str?
    ensures j.List? ==> r == Some(j.items)
    ensures r.Some? && j.Obj? ==> |r.value| == |j.fields|
    ensures r.Some? && j.Str? ==> |r.value| == |j.s|
  {
    match j
    case List(items) => Some(items)
    case Obj(fields) => Some(seq(|fields|, i requires 0 <= i < |fields| => Str(fields[i].0)))
    case Str(s) => Some(seq(|s|, i requires 0 <= i < |s| => Str([s[i]])))
    case _ => None
  }

  /** `needle in j`: a dict key, a substring, or a list element. */
  function In(needle: string, j: Json): (r: Option<bool>)
    ensures r.Some? <==> j.Obj? || j.Str? || j.List?
    ensures j.Obj? ==> r == Some(HasKey(j.fields, needle))
    ensures j.Str? ==> r == Some(Contains(j.s, needle))
    ensures j.List? ==> r == Some(Str(needle) in j.items)
  {
    match j
    case Obj(fields) => Some(HasKey(fields, needle))
    case Str(s) => Some(Contains(s, needle))
    case List(items) => Some(Str(needle) in items)
    case _ => None
  }

  /** `int(s)` on a string: optional whitespace, an optional sign, then
      decimal digits. */
  function ParseInt(s: string): (r: Option<int>)
  {
    var t := Strip(s);
    if t == "" then None
    else if t[0] == '-' || t[0] == '+' then
      var ds := t[1..];
      if ds != "" && AllDigits(ds) then Some(if t[0] == '-' then 0 - DigitsValue(ds) as int else DigitsValue(ds) as int) else None
    else if AllDigits(t) then Some(DigitsValue(t))
    else None
  }

  /** `int(x)` on a decoded value. */
  function PyInt(j: Json): (r: Option<int>)
    ensures j.Int? ==> r == Some(j.i)
    ensures j.Null? || j.List? || j.Obj? ==> r.None?
  {
    match j
    case Int(i) => Some(i)
    case Bool(b) => Some(if b then 1 else 0)
    case Str(s) => ParseInt(s)
    case _ => None
  }

  /** `int(str(i)) == i`. */
  lemma ParseIntOfString(i: int)
    ensures ParseInt(IntToString(i)) == Some(i)
  {
    var s := IntToString(i);
    var n: nat := if i < 0 then -i else i;
    var ds := NatToString(n);
    NatToStringValue(n);
    assert !IsSpace(ds[0]) && !IsSpace(ds[|ds| - 1]);
    if i < 0 {
      assert s == "-" + ds;
      assert s[1..] == ds;
      assert !IsSpace(s[0]) && !IsSpace(s[|s| - 1]);
    }
    NoSpaceStrip(s);
  }

  /** A string that neither starts nor ends with whitespace is its own strip. */
  lemma NoSpaceStrip(s: string)
    requires s != "" && !IsSpace(s[0]) && !IsSpace(s[|s| - 1])
    ensures Strip(s) == s
  {
  }

  /** The local-time `datetime.fromtimestamp(x)` applied to a decoded
      value without `int()` first: only numbers are accepted. */
  function FromTimestamp(j: Json, localIso: int -> Option<string>): Option<string> {
    match j
    case Int(i) => localIso(i)
    case Bool(b) => localIso(if b then 1 else 0)
    case _ => None
  }
}
