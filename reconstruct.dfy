/** `reconstruct_json.py`: recovers the key paths an extraction run wrote to
    its log and rebuilds a dummy JSON document with those paths, every leaf
    holding the placeholder `"BORK"`. */
module Reconstruct {
  import opened Text
  import opened Json

  // ---------------------------------------------------------------------
  // `str.splitlines`

  /** The characters `str.splitlines` breaks lines at. */
  predicate LineBreak(c: char) {
    c == '\n' || c == '\r' || c == '\U{000B}' || c == '\U{000C}' || c == '\U{001C}' || c == '\U{001D}'
    || c == '\U{001E}' || c == '\U{0085}' || c == '\U{2028}' || c == '\U{2029}'
  }

  /** The length of the line at the start of `s`. */
  function LineRun(s: string): (n: nat)
    ensures n <= |s|
  {
    if s == [] || LineBreak(s[0]) then 0 else 1 + LineRun(s[1..])
  }

  lemma {:induction false} LineRunSpec(s: string)
    ensures forall i | 0 <= i < LineRun(s) :: !LineBreak(s[i])
    ensures LineRun(s) < |s| ==> LineBreak(s[LineRun(s)])
    decreases |s|
  {
    if s != [] && !LineBreak(s[0]) {
      LineRunSpec(s[1..]);
      assert forall i | 1 <= i < |s| :: s[i] == s[1..][i - 1];
    }
  }

  /** `s.splitlines()`: the lines without their breaks, `\r\n` counting as
      one break and a final break not starting another line. */
  function Lines(s: string): seq<string>
    decreases |s|
  {
    if s == [] then []
    else
      var n := LineRun(s);
      if n == |s| then [s]
      else
        var skip := if s[n] == '\r' && n + 1 < |s| && s[n + 1] == '\n' then 2 else 1;
        [s[..n]] + Lines(s[n + skip..])
  }

  predicate NoBreak(line: string) {
    forall i | 0 <= i < |line| :: !LineBreak(line[i])
  }

  /** No line holds a line break. */
  lemma {:induction false} LinesHaveNoBreaks(s: string)
    ensures forall line | line in Lines(s) :: NoBreak(line)
    decreases |s|
  {
    if s != [] {
      LineRunSpec(s);
      var n := LineRun(s);
      if n < |s| {
        var skip := if s[n] == '\r' && n + 1 < |s| && s[n + 1] == '\n' then 2 else 1;
        LinesHaveNoBreaks(s[n + skip..]);
        assert NoBreak(s[..n]);
      } else {
        assert s[..n] == s;
      }
    }
  }

  // ---------------------------------------------------------------------
  // `extract_keys_from_string`

  const Marker: string := "Extracted data keys:"

  /** A line the keys are read from. */
  predicate Marked(line: string) {
    Contains(line, Marker)
  }

  /** The keys of one marked line: the text after the first `{` and before
      the last `}` (Python slice semantics, so a missing `}` cuts the last
      character), split at `", "`, each piece stripped of `'`. */
  function LineKeys(line: string): set<string> {
    Unquoted(Split(LineBody(line), ", "))
  }

  /** `line[line.find('{') + 1:line.rfind('}')]`. */
  function LineBody(line: string): string {
    Slice(line, Find(line, "{") + 1, RFindChar(line, '}'))
  }

  /** `[key.strip("'") for key in pieces]`, as a set. */
  function Unquoted(pieces: seq<string>): set<string> {
    set p | p in pieces :: StripChar(p, '\'')
  }

  /** The keys of the marked lines among `lines`: a reference definition,
      one line at a time from the front. */
  function MarkedKeys(lines: seq<string>): set<string> {
    if lines == [] then {}
    else
      var last := lines[|lines| - 1];
      MarkedKeys(lines[..|lines| - 1]) + (if Marked(last) then LineKeys(last) else {})
  }

  /** `extract_keys_from_string(file_content)`. */
  method ExtractKeysFromString(content: string) returns (keys: set<string>)
    ensures keys == MarkedKeys(Lines(content))
    ensures forall k :: k in keys <==> exists line | line in Lines(content) :: Marked(line) && k in LineKeys(line)
  {
    var lines := Lines(content);
    keys := {};
    for i := 0 to |lines|
      invariant keys == MarkedKeys(lines[..i])
    {
      var line := lines[i];
      assert lines[..i + 1][..i] == lines[..i];
      if Marked(line) {
        keys := keys + LineKeys(line);
      }
    }
    assert lines[..|lines|] == lines;
    MarkedKeysSpec(lines);
  }

  /** A key is extracted exactly when some marked line holds it: the
      result is the union over the marked lines and nothing else. */
  lemma {:induction false} MarkedKeysSpec(lines: seq<string>)
    ensures forall k :: k in MarkedKeys(lines) <==> exists line | line in lines :: Marked(line) && k in LineKeys(line)
  {
    if lines != [] {
      var init, last := lines[..|lines| - 1], lines[|lines| - 1];
      MarkedKeysSpec(init);
      assert lines == init + [last];
      forall k ensures k in MarkedKeys(lines) <==> exists line | line in lines :: Marked(line) && k in LineKeys(line) {
        if k in MarkedKeys(lines) && k !in MarkedKeys(init) {
          assert last in lines;
        }
        if exists line | line in lines :: Marked(line) && k in LineKeys(line) {
          var line :| line in lines && Marked(line) && k in LineKeys(line);
          if line != last {
            assert line in init;
          }
        }
      }
    }
  }

  /** Lines without the marker contribute nothing. */
  lemma UnmarkedIgnored(lines: seq<string>, line: string)
    requires !Marked(line)
    ensures MarkedKeys(lines + [line]) == MarkedKeys(lines)
  {
    assert (lines + [line])[..|lines|] == lines;
  }

  /** How a set of key names is written inside a log line: `'k'`. */
  function Quote(k: string): string {
    "'" + k + "'"
  }

  function QuoteAll(ks: seq<string>): (r: seq<string>)
    ensures |r| == |ks| && forall i | 0 <= i < |ks| :: r[i] == Quote(ks[i])
  {
    if ks == [] then [] else [Quote(ks[0])] + QuoteAll(ks[1..])
  }

  /** A key without commas and quotes, as the round trip needs. */
  predicate PlainKey(k: string) {
    forall i | 0 <= i < |k| :: k[i] != ',' && k[i] != '\''
  }

  /** A quoted plain key loses exactly its quotes. */
  lemma StripQuote(k: string)
    requires PlainKey(k)
    ensures StripChar(Quote(k), '\'') == k
  {
    var q := Quote(k);
    assert q[1..] == k + "'";
    if k == [] {
      assert (k + "'")[1..] == [];
    } else {
      assert (k + "'")[0] == k[0];
      assert (k + "'")[..|k + "'"| - 1] == k;
    }
  }

  /** A string without commas never holds `", "`. */
  lemma NoCommaNoSep(s: string)
    requires forall i | 0 <= i < |s| :: s[i] != ','
    ensures !Contains(s, ", ")
  {
    forall i | 0 <= i <= |s| - 2 ensures !OccursAt(s, ", ", i) {
      assert s[i..i + 2][0] == s[i];
    }
  }

  /** The first `", "` after a comma-free piece is the one just after it. */
  lemma FindSepAfter(x: string, y: string)
    requires forall i | 0 <= i < |x| :: x[i] != ','
    ensures Find(x + ", " + y, ", ") == |x|
  {
    var s := x + ", " + y;
    assert s[|x|..|x| + 2] == ", ";
    assert OccursAt(s, ", ", |x|);
    FindFirst(s, ", ");
    var f := Find(s, ", ");
    assert s[f..f + 2][0] == s[f];
  }

  /** Splitting the written form of a run of plain keys at `", "` gives
      back the quoted keys. */
  lemma {:induction false} SplitQuoted(ks: seq<string>)
    requires ks != [] && forall i | 0 <= i < |ks| :: PlainKey(ks[i])
    ensures Split(Join(", ", QuoteAll(ks)), ", ") == QuoteAll(ks)
    decreases |ks|
  {
    var q := QuoteAll(ks);
    var x := q[0];
    assert forall i | 0 <= i < |x| :: x[i] != ',' by {
      assert x == "'" + ks[0] + "'";
      forall i | 0 <= i < |x| ensures x[i] != ',' {
        if 0 < i < |x| - 1 {
          assert x[i] == ks[0][i - 1];
        }
      }
    }
    if |ks| == 1 {
      assert Join(", ", q) == x;
      NoCommaNoSep(x);
      SplitHead(x, ", ");
    } else {
      var rest := ks[1..];
      assert QuoteAll(rest) == q[1..];
      SplitQuoted(rest);
      var y := Join(", ", q[1..]);
      assert q == [x] + q[1..];
      JoinCons(", ", x, q[1..]);
      var s := x + ", " + y;
      FindSepAfter(x, y);
      assert s[..|x|] == x;
      assert s[|x| + 2..] == y;
      assert Split(s, ", ") == SplitAt(s, ", ", |x|) == [x] + Split(y, ", ");
    }
  }

  /** `{` first occurs just after a text without one. */
  lemma {:induction false} FindBrace(a: string, b: string)
    requires forall i | 0 <= i < |a| :: a[i] != '{'
    ensures Find(a + "{" + b, "{") == |a|
    decreases |a|
  {
    var s := a + "{" + b;
    if a != [] {
      assert s[..1] == [a[0]];
      assert s[1..] == a[1..] + "{" + b;
      FindBrace(a[1..], b);
    } else {
      assert s[..1] == "{";
    }
  }

  /** The body of a line is what lies between a `{` with none before it
      and a `}` with none after it. */
  lemma BodyBetween(head: string, body: string, tail: string)
    requires forall i | 0 <= i < |head| :: head[i] != '{'
    requires forall i | 0 <= i < |tail| :: tail[i] != '}'
    ensures LineBody(head + "{" + body + "}" + tail) == body
  {
    var line := head + "{" + body + "}" + tail;
    assert line == head + "{" + (body + "}" + tail);
    FindBrace(head, body + "}" + tail);
    var p := |head| + 1 + |body|;
    assert line[p] == '}';
    assert forall j | p < j < |line| :: line[j] == tail[j - p - 1];
    RFindLast(line, '}', p);
    assert line[|head| + 1..p] == body;
  }

  /** `rfind` finds the place of `c` that has none after it. */
  lemma RFindLast(s: string, c: char, p: nat)
    requires p < |s| && s[p] == c && forall j | p < j < |s| :: s[j] != c
    ensures RFindChar(s, c) == p
  {
    RFindCharSpec(s, c);
  }

  /** Stripping the quotes of the quoted plain keys gives the keys. */
  lemma UnquoteAll(ks: seq<string>)
    requires forall i | 0 <= i < |ks| :: PlainKey(ks[i])
    ensures Unquoted(QuoteAll(ks)) == set k | k in ks
  {
    var q := QuoteAll(ks);
    forall k | k in ks ensures k in Unquoted(q) {
      var i :| 0 <= i < |ks| && ks[i] == k;
      StripQuote(k);
      assert q[i] in q;
    }
    forall k | k in Unquoted(q) ensures k in ks {
      var i :| 0 <= i < |q| && StripChar(q[i], '\'') == k;
      StripQuote(ks[i]);
    }
  }

  /** A log line that writes a non-empty set of plain keys the way Python
      prints a set, `... {'k1', 'k2'} ...`, with no `{` before the set
      and no `}` after it, yields exactly those keys. */
  lemma LogLineKeys(head: string, ks: seq<string>, tail: string)
    requires ks != [] && forall i | 0 <= i < |ks| :: PlainKey(ks[i])
    requires forall i | 0 <= i < |head| :: head[i] != '{'
    requires forall i | 0 <= i < |tail| :: tail[i] != '}'
    ensures LineKeys(head + "{" + Join(", ", QuoteAll(ks)) + "}" + tail) == set k | k in ks
  {
    BodyBetween(head, Join(", ", QuoteAll(ks)), tail);
    SplitQuoted(ks);
    UnquoteAll(ks);
  }

  /** `find` gives -1 for a character that does not occur. */
  lemma FindAbsent(s: string, c: char)
    requires forall i | 0 <= i < |s| :: s[i] != c
    ensures Find(s, [c]) == -1
  {
    ContainsChar(s, c);
    FindFirst(s, [c]);
  }

  /** `rfind` gives -1 for a character that does not occur. */
  lemma RFindAbsent(s: string, c: char)
    requires forall i | 0 <= i < |s| :: s[i] != c
    ensures RFindChar(s, c) == -1
  {
    RFindCharSpec(s, c);
  }

  /** A line without braces: the body is the line without its last
      character, and without commas or quotes that is the one key. */
  lemma NoBraces(line: string)
    requires line != []
    requires forall i | 0 <= i < |line| :: line[i] != '{' && line[i] != '}' && line[i] != ',' && line[i] != '\''
    ensures LineKeys(line) == {line[..|line| - 1]}
  {
    FindAbsent(line, '{');
    assert "{" == ['{'];
    RFindAbsent(line, '}');
    var body := line[..|line| - 1];
    assert LineBody(line) == body;
    NoCommaNoSep(body);
    SplitHead(body, ", ");
    assert Split(body, ", ") == [body];
    assert StripChar(body, '\'') == body;
    assert Unquoted([body]) == {body};
  }

  /** An empty set is written `set()`, which has no braces: the slice is
      then `line[0:-1]` and the whole line but its last character comes
      back as one key. */
  lemma EmptySetLine()
    ensures LineKeys(Marker + " set()") == {Marker + " set("}
  {
    var line := Marker + " set()";
    NoBraces(line);
    assert line[..|line| - 1] == Marker + " set(";
  }

  // ---------------------------------------------------------------------
  // `reconstruct_json_from_keys`

  const Placeholder: Json := Str("BORK")

  /** One key's walk: each part but the last names a dict, made afresh where
      the part is missing or holds something else; the last part is set to
      the placeholder. */
  function Insert(d: Fields<Json>, parts: seq<string>): Fields<Json>
    requires |parts| >= 1
    decreases |parts|
  {
    if |parts| == 1 then SetField(d, parts[0], Placeholder)
    else
      var sub := SubDict(d, parts[0]);
      SetField(d, parts[0], Obj(Insert(sub, parts[1..])))
  }

  /** The dict held at `k`, or a fresh empty one when `k` is missing or
      holds something else. */
  function SubDict(d: Fields<Json>, k: string): Fields<Json> {
    match Lookup(d, k)
    case Some(v) => if v.Obj? then v.fields else []
    case None => []
  }

  /** A part met on the way down keeps the dict it holds and descends
      into it; a missing part, or one holding anything but a dict, is
      replaced by a fresh dict holding only the rest of the key. Other
      keys of the level are untouched. */
  lemma InsertStep(d: Fields<Json>, parts: seq<string>)
    requires |parts| > 1
    ensures var old_v := Lookup(d, parts[0]);
      old_v.Some? && old_v.value.Obj? ==> Lookup(Insert(d, parts), parts[0]) == Some(Obj(Insert(old_v.value.fields, parts[1..])))
    ensures var old_v := Lookup(d, parts[0]);
      !(old_v.Some? && old_v.value.Obj?) ==> Lookup(Insert(d, parts), parts[0]) == Some(Obj(Insert([], parts[1..])))
    ensures forall k | k != parts[0] :: Lookup(Insert(d, parts), k) == Lookup(d, k)
  {
  }

  /** The parts of a key. */
  function Parts(key: string): seq<string> {
    Split(key, "__")
  }

  /** The document after the keys `keys`, in order: a reference definition
      one key at a time. */
  function Build(keys: seq<string>): Fields<Json> {
    if keys == [] then []
    else Insert(Build(keys[..|keys| - 1]), Parts(keys[|keys| - 1]))
  }

  /** `reconstruct_json_from_keys(key_set)`, with the set given in its
      iteration order. */
  method ReconstructJsonFromKeys(keys: seq<string>) returns (obj: Fields<Json>)
    ensures obj == Build(keys)
    ensures keys != [] ==> PathValue(obj, Parts(keys[|keys| - 1])) == Some(Placeholder)
    ensures PrefixFree(keys) ==> forall i | 0 <= i < |keys| :: PathValue(obj, Parts(keys[i])) == Some(Placeholder)
    ensures forall q | Leaf(obj, q) :: PathValue(obj, q) == Some(Placeholder) && KeyPath(keys, q)
  {
    obj := [];
    for i := 0 to |keys|
      invariant obj == Build(keys[..i])
    {
      assert keys[..i + 1][..i] == keys[..i];
      obj := Insert(obj, Parts(keys[i]));
    }
    assert keys[..|keys|] == keys;
    BuildSpec(keys);
  }

  /** What the document holds: the last key's path ends in the
      placeholder, so does every key's path when no path is a proper
      prefix of another's, and every non-dict value is the placeholder at
      some key's path. */
  lemma BuildSpec(keys: seq<string>)
    ensures keys != [] ==> PathValue(Build(keys), Parts(keys[|keys| - 1])) == Some(Placeholder)
    ensures PrefixFree(keys) ==> forall i | 0 <= i < |keys| :: PathValue(Build(keys), Parts(keys[i])) == Some(Placeholder)
    ensures forall q | Leaf(Build(keys), q) :: PathValue(Build(keys), q) == Some(Placeholder) && KeyPath(keys, q)
  {
    if keys != [] {
      BuildLast(keys);
    }
    if PrefixFree(keys) {
      forall i | 0 <= i < |keys| ensures PathValue(Build(keys), Parts(keys[i])) == Some(Placeholder) {
        BuildKeeps(keys, i);
      }
    }
    forall q | Leaf(Build(keys), q) ensures PathValue(Build(keys), q) == Some(Placeholder) && KeyPath(keys, q) {
      BuildLeavesSound(keys, q);
    }
  }

  // ---------------------------------------------------------------------
  // Paths

  /** The value at the end of `path`, walking dicts from `d`. */
  function PathValue(d: Fields<Json>, path: seq<string>): Option<Json>
    decreases |path|
  {
    if path == [] then None
    else
      match Lookup(d, path[0])
      case None => None
      case Some(v) =>
        if |path| == 1 then Some(v)
        else if v.Obj? then PathValue(v.fields, path[1..])
        else None
  }

  predicate IsPrefix(a: seq<string>, b: seq<string>) {
    |a| <= |b| && b[..|a|] == a
  }

  /** The effect of one key on every path: its own path holds the
      placeholder, the paths above it hold dicts, the paths below it are
      gone, and every path that parts from it is untouched. */
  lemma {:induction false} InsertPath(d: Fields<Json>, parts: seq<string>, q: seq<string>)
    requires |parts| >= 1 && q != []
    ensures q == parts ==> PathValue(Insert(d, parts), q) == Some(Placeholder)
    ensures IsPrefix(q, parts) && q != parts ==> PathValue(Insert(d, parts), q).Some? && PathValue(Insert(d, parts), q).value.Obj?
    ensures IsPrefix(parts, q) && q != parts ==> PathValue(Insert(d, parts), q) == None
    ensures !IsPrefix(q, parts) && !IsPrefix(parts, q) ==> PathValue(Insert(d, parts), q) == PathValue(d, q)
    decreases |parts|, 1
  {
    if q[0] != parts[0] {
      InsertAside(d, parts, q);
    } else if |parts| == 1 {
      InsertAtLast(d, parts, q);
    } else if |q| == 1 {
      InsertAbove(d, parts, q);
    } else {
      InsertBelow(d, parts, q);
    }
  }

  /** A path that starts elsewhere is untouched. */
  lemma InsertAside(d: Fields<Json>, parts: seq<string>, q: seq<string>)
    requires |parts| >= 1 && q != [] && q[0] != parts[0]
    ensures !IsPrefix(q, parts) && !IsPrefix(parts, q)
    ensures PathValue(Insert(d, parts), q) == PathValue(d, q)
  {
    InsertOther(d, parts, q[0]);
    SameHead(Insert(d, parts), d, q);
    if |q| <= |parts| {
      assert parts[..|q|][0] == parts[0];
    }
    if |parts| <= |q| {
      assert q[..|parts|][0] == q[0];
    }
  }

  /** A path's value depends on its top-level dict only through the
      value at its first key. */
  lemma SameHead(d: Fields<Json>, e: Fields<Json>, q: seq<string>)
    requires q != [] && Lookup(d, q[0]) == Lookup(e, q[0])
    ensures PathValue(d, q) == PathValue(e, q)
  {
  }

  /** Keys other than the first part keep their values. */
  lemma InsertOther(d: Fields<Json>, parts: seq<string>, k: string)
    requires |parts| >= 1 && k != parts[0]
    ensures Lookup(Insert(d, parts), k) == Lookup(d, k)
  {
  }

  /** A one-part key: its path holds the placeholder and nothing below it
      is left. */
  lemma InsertAtLast(d: Fields<Json>, parts: seq<string>, q: seq<string>)
    requires |parts| == 1 && q != [] && q[0] == parts[0]
    ensures IsPrefix(parts, q) && !(IsPrefix(q, parts) && q != parts)
    ensures q == parts ==> PathValue(Insert(d, parts), q) == Some(Placeholder)
    ensures q != parts ==> PathValue(Insert(d, parts), q) == None
  {
    assert Lookup(Insert(d, parts), q[0]) == Some(Placeholder);
    assert q[..1] == parts;
    if |q| == 1 {
      assert q == parts;
    }
  }

  /** The first part of a longer key holds a dict. */
  lemma InsertAbove(d: Fields<Json>, parts: seq<string>, q: seq<string>)
    requires |parts| > 1 && |q| == 1 && q[0] == parts[0]
    ensures IsPrefix(q, parts) && q != parts && !IsPrefix(parts, q)
    ensures PathValue(Insert(d, parts), q).Some? && PathValue(Insert(d, parts), q).value.Obj?
  {
    assert Lookup(Insert(d, parts), q[0]) == Some(Obj(Insert(SubDict(d, parts[0]), parts[1..])));
    assert parts[..1] == q;
  }

  /** Below the first part, the rest of the key is inserted into the dict
      found (or made) there. */
  lemma InsertBelow(d: Fields<Json>, parts: seq<string>, q: seq<string>)
    requires |parts| > 1 && |q| > 1 && q[0] == parts[0]
    ensures q == parts ==> PathValue(Insert(d, parts), q) == Some(Placeholder)
    ensures IsPrefix(q, parts) && q != parts ==> PathValue(Insert(d, parts), q).Some? && PathValue(Insert(d, parts), q).value.Obj?
    ensures IsPrefix(parts, q) && q != parts ==> PathValue(Insert(d, parts), q) == None
    ensures !IsPrefix(q, parts) && !IsPrefix(parts, q) ==> PathValue(Insert(d, parts), q) == PathValue(d, q)
    decreases |parts|, 0
  {
    var sub := SubDict(d, parts[0]);
    var inner := Insert(sub, parts[1..]);
    assert Lookup(Insert(d, parts), q[0]) == Some(Obj(inner));
    InsertPath(sub, parts[1..], q[1..]);
    assert PathValue(Insert(d, parts), q) == PathValue(inner, q[1..]);
    PrefixTail(q, parts);
    PrefixTail(parts, q);
    assert q == parts <==> q[1..] == parts[1..] by {
      assert q == [q[0]] + q[1..] && parts == [parts[0]] + parts[1..];
    }
    if !IsPrefix(q, parts) && !IsPrefix(parts, q) {
      SubPath(d, parts[0], q, sub);
    }
  }

  /** Two paths with the same first part are prefixes of each other
      exactly when their tails are. */
  lemma PrefixTail(a: seq<string>, b: seq<string>)
    requires a != [] && b != [] && a[0] == b[0]
    ensures IsPrefix(a, b) <==> IsPrefix(a[1..], b[1..])
  {
    if IsPrefix(a[1..], b[1..]) {
      assert b[..|a|] == [b[0]] + b[1..][..|a| - 1];
      assert a == [a[0]] + a[1..];
    }
    if IsPrefix(a, b) {
      assert b[1..][..|a| - 1] == b[..|a|][1..];
    }
  }

  /** A path that continues below `k` reads the dict found there, or
      finds nothing when `k` holds no dict. */
  lemma SubPath(d: Fields<Json>, k: string, q: seq<string>, sub: Fields<Json>)
    requires |q| >= 2 && q[0] == k
    requires sub == SubDict(d, k)
    ensures PathValue(d, q) == PathValue(sub, q[1..])
  {
    match Lookup(d, k)
    case None =>
      assert PathValue(d, q) == None;
      EmptyPath(q[1..]);
    case Some(v) =>
      if !v.Obj? {
        EmptyPath(q[1..]);
      }
  }

  lemma EmptyPath(q: seq<string>)
    ensures PathValue([], q) == None
  {
  }

  /** `q` ends in something other than a dict. */
  predicate Leaf(d: Fields<Json>, q: seq<string>) {
    PathValue(d, q).Some? && !PathValue(d, q).value.Obj?
  }

  /** `q` is the path of one of the keys. */
  predicate KeyPath(keys: seq<string>, q: seq<string>) {
    exists i | 0 <= i < |keys| :: Parts(keys[i]) == q
  }

  /** Every value that is not a dict is the placeholder, at the path of one
      of the keys: nothing is made up. */
  lemma {:induction false} BuildLeavesSound(keys: seq<string>, q: seq<string>)
    requires Leaf(Build(keys), q)
    ensures PathValue(Build(keys), q) == Some(Placeholder) && KeyPath(keys, q)
    decreases |keys|
  {
    if keys == [] {
      EmptyPath(q);
    } else {
      var init := keys[..|keys| - 1];
      var parts := Parts(keys[|keys| - 1]);
      assert q != [];
      InsertPath(Build(init), parts, q);
      if q == parts {
        assert Parts(keys[|keys| - 1]) == q;
      } else {
        BuildLeavesSound(init, q);
        var i :| 0 <= i < |init| && Parts(init[i]) == q;
        assert keys[i] == init[i];
      }
    }
  }

  /** No key's path is a proper prefix of another's. */
  predicate PrefixFree(keys: seq<string>) {
    forall i, j | 0 <= i < |keys| && 0 <= j < |keys| :: IsPrefix(Parts(keys[i]), Parts(keys[j])) ==> Parts(keys[i]) == Parts(keys[j])
  }

  /** When no key's path is a proper prefix of another's, every key's path
      holds the placeholder: together with `BuildLeavesSound`, the
      non-dict leaves are exactly the keys. */
  lemma {:induction false} BuildKeeps(keys: seq<string>, i: nat)
    requires PrefixFree(keys) && i < |keys|
    ensures PathValue(Build(keys), Parts(keys[i])) == Some(Placeholder)
    decreases |keys|
  {
    var init := keys[..|keys| - 1];
    var parts := Parts(keys[|keys| - 1]);
    var p := Parts(keys[i]);
    assert p != [];
    assert Build(keys) == Insert(Build(init), parts);
    InsertPath(Build(init), parts, p);
    if p != parts {
      assert i < |keys| - 1;
      assert !IsPrefix(p, parts) && !IsPrefix(parts, p) by {
        assert IsPrefix(Parts(keys[i]), Parts(keys[|keys| - 1])) ==> p == parts;
        assert IsPrefix(Parts(keys[|keys| - 1]), Parts(keys[i])) ==> p == parts;
      }
      assert init[i] == keys[i];
      PrefixFreeInit(keys);
      BuildKeeps(init, i);
    }
  }

  lemma PrefixFreeInit(keys: seq<string>)
    requires keys != [] && PrefixFree(keys)
    ensures PrefixFree(keys[..|keys| - 1])
  {
    var init := keys[..|keys| - 1];
    forall a, b | 0 <= a < |init| && 0 <= b < |init| && IsPrefix(Parts(init[a]), Parts(init[b]))
      ensures Parts(init[a]) == Parts(init[b])
    {
      assert init[a] == keys[a] && init[b] == keys[b];
    }
  }

  /** The last key always ends in the placeholder. */
  lemma BuildLast(keys: seq<string>)
    requires keys != []
    ensures PathValue(Build(keys), Parts(keys[|keys| - 1])) == Some(Placeholder)
  {
    InsertPath(Build(keys[..|keys| - 1]), Parts(keys[|keys| - 1]), Parts(keys[|keys| - 1]));
  }
}
