/** Decoded JSON values as the extractors see them after `json.load`:
    Python `None`, `bool`, `int`, `str`, `list` and `dict`. A `dict` is an
    insertion-ordered sequence of key/value pairs; lookups use the first
    pair with the key, which for a real `dict` (distinct keys) is the only one. */
module Json {
  import opened Text

  datatype Option<T> = None | Some(value: T)

  datatype Json =
    | Null
    | Bool(b: bool)
    | Int(i: int)
    | Str(s: string)
    | List(items: seq<Json>)
    | Obj(fields: seq<(string, Json)>)

  /** Python truthiness: `None`, `False`, `0`, `""`, `[]` and `{}` are falsy. */
  predicate Truthy(j: Json) {
    match j
    case Null => false
    case Bool(b) => b
    case Int(i) => i != 0
    case Str(s) => s != ""
    case List(items) => items != []
    case Obj(fields) => fields != []
  }

  /** The pairs of a `dict`, in insertion order. */
  type Fields<V> = seq<(string, V)>

  predicate HasKey<V>(fields: Fields<V>, k: string) {
    exists i | 0 <= i < |fields| :: fields[i].0 == k
  }

  /** `d[k]` for a `dict` given by its pairs, or `None` when `k not in d`. */
  function Lookup<V>(fields: Fields<V>, k: string): (r: Option<V>)
    ensures r.None? <==> !HasKey(fields, k)
    ensures r.Some? ==> exists i | 0 <= i < |fields| :: fields[i] == (k, r.value)
  {
    if fields == [] then None
    else if fields[0].0 == k then Some(fields[0].1)
    else
      var r := Lookup(fields[1..], k);
      assert forall i | 1 <= i < |fields| :: fields[i] == fields[1..][i - 1];
      r
  }

  /** `d.get(k, default)` on a `dict` value. */
  function Get(fields: Fields<Json>, k: string, default: Json): Json {
    match Lookup(fields, k)
    case Some(v) => v
    case None => default
  }

  /** `d[k] = v`: an existing key keeps its position and takes the new
      value; a new key is appended at the end. */
  function SetField<V>(fields: Fields<V>, k: string, v: V): (r: Fields<V>)
    ensures Lookup(r, k) == Some(v)
    ensures forall k' | k' != k :: Lookup(r, k') == Lookup(fields, k')
    ensures HasKey(fields, k) ==> |r| == |fields|
    ensures !HasKey(fields, k) ==> r == fields + [(k, v)]
  {
    if fields == [] then [(k, v)]
    else
      var head, tail := fields[0], fields[1..];
      assert fields == [head] + tail;
      HasKeyCons(head, tail, k);
      if head.0 == k then
        var r := [(k, v)] + tail;
        forall k' | k' != k ensures Lookup(r, k') == Lookup(fields, k') {
          LookupCons((k, v), tail, k');
          LookupCons(head, tail, k');
        }
        LookupCons((k, v), tail, k);
        r
      else
        var rest := SetField(tail, k, v);
        var r := [head] + rest;
        forall k' ensures Lookup(r, k') == if head.0 == k' then Some(head.1) else Lookup(rest, k') {
          LookupCons(head, rest, k');
        }
        forall k' ensures Lookup(fields, k') == if head.0 == k' then Some(head.1) else Lookup(tail, k') {
          LookupCons(head, tail, k');
        }
        assert !HasKey(tail, k) ==> r == [head] + (tail + [(k, v)]) == fields + [(k, v)];
        r
  }

  lemma HasKeyCons<V>(p: (string, V), rest: Fields<V>, k: string)
    ensures HasKey([p] + rest, k) <==> p.0 == k || HasKey(rest, k)
  {
    var f := [p] + rest;
    if p.0 == k {
      assert f[0].0 == k;
    }
    if HasKey(rest, k) {
      var i :| 0 <= i < |rest| && rest[i].0 == k;
      assert f[i + 1].0 == k;
    }
    if HasKey(f, k) && p.0 != k {
      var i :| 0 <= i < |f| && f[i].0 == k;
      assert rest[i - 1].0 == k;
    }
  }

  lemma LookupCons<V>(p: (string, V), rest: Fields<V>, k: string)
    ensures Lookup([p] + rest, k) == if p.0 == k then Some(p.1) else Lookup(rest, k)
  {
    assert ([p] + rest)[1..] == rest;
  }

  /** A run of `d[k] = v` assignments, in order. */
  function ApplyWrites<V>(d: Fields<V>, ws: Fields<V>): Fields<V> {
    if ws == [] then d
    else SetField(ApplyWrites(d, ws[..|ws| - 1]), ws[|ws| - 1].0, ws[|ws| - 1].1)
  }

  /** The value of the last write to `k`, if any: a reference definition
      read from the end. */
  function LastWrite<V>(ws: Fields<V>, k: string): (r: Option<V>)
    ensures r.Some? ==> exists i | 0 <= i < |ws| :: ws[i] == (k, r.value) && forall j | i < j < |ws| :: ws[j].0 != k
    ensures r.None? <==> forall i | 0 <= i < |ws| :: ws[i].0 != k
  {
    if ws == [] then None
    else if ws[|ws| - 1].0 == k then Some(ws[|ws| - 1].1)
    else
      var r := LastWrite(ws[..|ws| - 1], k);
      assert forall i | 0 <= i < |ws| - 1 :: ws[..|ws| - 1][i] == ws[i];
      r
  }

  /** After a run of assignments each key holds its last written value;
      keys never written keep theirs. */
  lemma {:induction false} ApplyWritesLast<V>(d: Fields<V>, ws: Fields<V>, k: string)
    ensures Lookup(ApplyWrites(d, ws), k) == if LastWrite(ws, k).Some? then LastWrite(ws, k) else Lookup(d, k)
  {
    if ws != [] {
      ApplyWritesLast(d, ws[..|ws| - 1], k);
    }
  }

  /** The last write of a concatenation comes from its second part when
      that part writes the key at all. */
  lemma {:induction false} LastWriteAppend<V>(a: Fields<V>, b: Fields<V>, k: string)
    ensures LastWrite(a + b, k) == if LastWrite(b, k).Some? then LastWrite(b, k) else LastWrite(a, k)
  {
    if b == [] {
      assert a + b == a;
    } else {
      assert (a + b)[..|a + b| - 1] == a + b[..|b| - 1];
      LastWriteAppend(a, b[..|b| - 1], k);
    }
  }

  /** The values of a container: list elements, or dict values in order. */
  function Children(j: Json): seq<Json> {
    match j
    case List(items) => items
    case Obj(fields) => seq(|fields|, i requires 0 <= i < |fields| => fields[i].1)
    case _ => []
  }

  lemma ChildSmaller(j: Json, i: int)
    requires 0 <= i < |Children(j)|
    ensures Children(j)[i] < j
  {
    match j
    case List(items) =>
    case Obj(fields) => assert Children(j)[i] == fields[i].1;
  }

  /** `repr(s)` for a `str`: single quotes unless the text holds a single
      quote and no double quote, and every character escaped as `Escape`
      says. */
  function ReprStr(s: string): (r: string)
    ensures |r| >= 2 && r[0] == r[|r| - 1] && (r[0] == '\'' || r[0] == '"')
  {
    var q := if ('\'' in s && '"' !in s) then '"' else '\'';
    [q] + EscapeFor(s, q) + [q]
  }

  function EscapeFor(s: string, q: char): string {
    if s == [] then "" else Escape(s[0], q) + EscapeFor(s[1..], q)
  }

  /** The characters below U+0100 that `str.isprintable` rejects: the C0
      and C1 controls, DEL, the no-break space and the soft hyphen. */
  predicate Hidden(c: char) {
    c as int < 0x20 || (0x7f <= c as int <= 0xa0) || c as int == 0xad
  }

  /** A lower-case hexadecimal digit. */
  function HexDigit(n: int): char
    requires 0 <= n < 16
  {
    if n < 10 then ('0' as int + n) as char else ('a' as int + n - 10) as char
  }

  function HexValue(c: char): int {
    if '0' <= c <= '9' then c as int - '0' as int
    else if 'a' <= c <= 'f' then c as int - 'a' as int + 10
    else 0
  }

  /** How `repr` writes one character inside quotes `q`: backslash and the
      quote are escaped, tab, newline and carriage return get their letter,
      other hidden characters become `\xNN`, the rest is copied. */
  function Escape(c: char, q: char): string {
    if c == '\\' then "\\\\"
    else if c == q then ['\\', q]
    else if c == '\n' then "\\n"
    else if c == '\r' then "\\r"
    else if c == '\t' then "\\t"
    else if Hidden(c) then ['\\', 'x', HexDigit(c as int / 16), HexDigit(c as int % 16)]
    else [c]
  }

  /** Reading an escaped text back, as Python's parser reads the literal. */
  function UnescapeFor(t: string): string
    decreases |t|
  {
    if t == [] then ""
    else if t[0] == '\\' && |t| >= 4 && t[1] == 'x' then
      [(16 * HexValue(t[2]) + HexValue(t[3])) as char] + UnescapeFor(t[4..])
    else if t[0] == '\\' && |t| >= 2 then
      var d := t[1];
      (if d == 'n' then "\n" else if d == 'r' then "\r" else if d == 't' then "\t" else [d]) + UnescapeFor(t[2..])
    else [t[0]] + UnescapeFor(t[1..])
  }

  lemma HexRoundTrip(n: int)
    requires 0 <= n < 16
    ensures HexValue(HexDigit(n)) == n && !Hidden(HexDigit(n))
  {
  }

  /** One escaped character reads back as itself, whatever follows. */
  lemma EscapeReadsBack(c: char, q: char, rest: string)
    requires q == '\'' || q == '"'
    ensures UnescapeFor(Escape(c, q) + rest) == [c] + UnescapeFor(rest)
  {
    var e := Escape(c, q);
    if c != '\\' && c != q && c != '\n' && c != '\r' && c != '\t' && Hidden(c) {
      var hi, lo := c as int / 16, c as int % 16;
      HexRoundTrip(hi);
      HexRoundTrip(lo);
      assert (e + rest)[4..] == rest;
      assert (16 * HexValue(e[2]) + HexValue(e[3])) as char == c;
    } else if |e| == 2 {
      assert (e + rest)[2..] == rest;
    } else {
      assert (e + rest)[1..] == rest;
    }
  }

  /** The escaped text reads back as the original one. */
  lemma {:induction false} EscapeForReadsBack(s: string, q: char)
    requires q == '\'' || q == '"'
    ensures UnescapeFor(EscapeFor(s, q)) == s
    decreases |s|
  {
    if s != [] {
      EscapeReadsBack(s[0], q, EscapeFor(s[1..], q));
      EscapeForReadsBack(s[1..], q);
    }
  }

  /** No hidden character is left raw in an escaped text. */
  lemma {:induction false} EscapeForShown(s: string, q: char)
    requires q == '\'' || q == '"'
    ensures forall k | 0 <= k < |EscapeFor(s, q)| :: !Hidden(EscapeFor(s, q)[k])
    decreases |s|
  {
    if s != [] {
      var c := s[0];
      if Hidden(c) {
        HexRoundTrip(c as int / 16);
        HexRoundTrip(c as int % 16);
      }
      EscapeForShown(s[1..], q);
      var e, t := Escape(c, q), EscapeFor(s[1..], q);
      assert EscapeFor(s, q) == e + t;
      forall k | 0 <= k < |e + t| ensures !Hidden((e + t)[k]) {
        if k >= |e| {
          assert (e + t)[k] == t[k - |e|];
        }
      }
    }
  }

  /** `repr` of a text can be read back: between its quotes lies an
      escaped text that gives the original, with no hidden character
      left raw. */
  lemma ReprStrReadsBack(s: string)
    ensures var r := ReprStr(s);
      UnescapeFor(r[1..|r| - 1]) == s && forall k | 0 <= k < |r| :: !Hidden(r[k])
  {
    var q := if ('\'' in s && '"' !in s) then '"' else '\'';
    var r := ReprStr(s);
    assert r[1..|r| - 1] == EscapeFor(s, q);
    EscapeForReadsBack(s, q);
    EscapeForShown(s, q);
    forall k | 0 <= k < |r| ensures !Hidden(r[k]) {
      if 0 < k < |r| - 1 {
        assert r[k] == EscapeFor(s, q)[k - 1];
      }
    }
  }

  /** `repr(v)`, as used for the elements of a container by `str`. */
  function Repr(j: Json): (r: string)
    ensures j.Str? ==> |r| >= 2 && r[0] == r[|r| - 1] && (r[0] == '\'' || r[0] == '"')
    decreases j, 3
  {
    match j
    case Str(s) => ReprStr(s)
    case _ => PyStr(j)
  }

  /** `str(v)`. */
  function PyStr(j: Json): (r: string)
    ensures j.List? ==> |r| >= 2 && r[0] == '[' && r[|r| - 1] == ']'
    ensures j.Obj? ==> |r| >= 2 && r[0] == '{' && r[|r| - 1] == '}'
    decreases j, 2
  {
    match j
    case Null => "None"
    case Bool(b) => if b then "True" else "False"
    case Int(i) => IntToString(i)
    case Str(s) => s
    case List(items) => "[" + ReprItems(j, items) + "]"
    case Obj(fields) => "{" + ReprFields(j, fields) + "}"
  }

  function ReprItems(ghost parent: Json, items: seq<Json>): string
    requires forall i | 0 <= i < |items| :: items[i] < parent
    decreases parent, 1, |items|
  {
    if items == [] then ""
    else if |items| == 1 then Repr(items[0])
    else Repr(items[0]) + ", " + ReprItems(parent, items[1..])
  }

  function ReprFields(ghost parent: Json, fields: seq<(string, Json)>): string
    requires forall i | 0 <= i < |fields| :: fields[i].1 < parent
    decreases parent, 1, |fields|
  {
    if fields == [] then ""
    else
      var one := ReprStr(fields[0].0) + ": " + Repr(fields[0].1);
      if |fields| == 1 then one else one + ", " + ReprFields(parent, fields[1..])
  }
}
