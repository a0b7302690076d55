/** Python string primitives that the extractors rely on: searching,
    slicing, `split`/`join`, `strip`, `str.isspace`, ASCII `lower`,
    and decimal conversion between `int` and `str`. */
module Text {

  /** `str.isspace` (and the `\s` class of `re` on `str` patterns):
      the characters CPython's Py_UNICODE_ISSPACE accepts. */
  predicate IsSpace(c: char) {
    ('\U{0009}' <= c <= '\U{000D}') || ('\U{001C}' <= c <= '\U{0020}') ||
    c == '\U{0085}' || c == '\U{00A0}' || c == '\U{1680}' ||
    ('\U{2000}' <= c <= '\U{200A}') || c == '\U{2028}' || c == '\U{2029}' ||
    c == '\U{202F}' || c == '\U{205F}' || c == '\U{3000}'
  }

  predicate IsDigit(c: char) { '0' <= c <= '9' }

  predicate AllDigits(s: string) { forall i | 0 <= i < |s| :: IsDigit(s[i]) }

  /** A character of the `\w` class (ASCII letters, digits and underscore). */
  predicate IsWordChar(c: char) {
    ('a' <= c <= 'z') || ('A' <= c <= 'Z') || IsDigit(c) || c == '_'
  }

  function LowerChar(c: char): char {
    if 'A' <= c <= 'Z' then (c as int + 32) as char else c
  }

  /** `s.lower()` on ASCII letters. */
  function Lower(s: string): (r: string)
    ensures |r| == |s|
    ensures forall i | 0 <= i < |s| :: r[i] == LowerChar(s[i])
  {
    if s == [] then [] else [LowerChar(s[0])] + Lower(s[1..])
  }

  predicate StartsWith(s: string, p: string) { |p| <= |s| && s[..|p|] == p }

  predicate EndsWith(s: string, p: string) { |p| <= |s| && s[|s| - |p|..] == p }

  predicate OccursAt(s: string, sub: string, i: int) {
    0 <= i && i + |sub| <= |s| && s[i..i + |sub|] == sub
  }

  /** `sub in s`. */
  predicate Contains(s: string, sub: string) {
    exists i | 0 <= i <= |s| - |sub| :: OccursAt(s, sub, i)
  }

  /** A one-character string occurs exactly where that character does. */
  lemma ContainsChar(s: string, c: char)
    ensures Contains(s, [c]) <==> c in s
  {
    if c in s {
      var i :| 0 <= i < |s| && s[i] == c;
      assert OccursAt(s, [c], i);
    }
    if Contains(s, [c]) {
      var i :| 0 <= i <= |s| - 1 && OccursAt(s, [c], i);
      assert s[i] == s[i..i + 1][0];
    }
  }

  lemma OccursAtShift(s: string, sub: string, j: int)
    requires |s| > 0 && 0 <= j
    ensures OccursAt(s[1..], sub, j) <==> OccursAt(s, sub, j + 1)
  {
    if 0 <= j && j + |sub| <= |s| - 1 {
      assert s[1..][j..j + |sub|] == s[j + 1..j + 1 + |sub|];
    }
  }

  /** `s.find(sub)`: the first index at which `sub` occurs, or -1
      (`FindFirst` proves it is the first). */
  function Find(s: string, sub: string): (r: int)
    ensures r == -1 || OccursAt(s, sub, r)
    decreases |s|
  {
    if |s| < |sub| then -1
    else if s[..|sub|] == sub then 0
    else
      var k := Find(s[1..], sub);
      if k == -1 then -1
      else
        OccursAtShift(s, sub, k);
        k + 1
  }

  /** `find` gives -1 exactly when `sub` does not occur, and otherwise
      the first place it occurs. */
  lemma FindFirst(s: string, sub: string)
    ensures Find(s, sub) == -1 <==> !Contains(s, sub)
    ensures forall j | 0 <= j < Find(s, sub) :: !OccursAt(s, sub, j)
  {
    FindNone(s, sub);
    FindEarlier(s, sub);
  }

  lemma {:induction false} FindNone(s: string, sub: string)
    ensures Find(s, sub) == -1 ==> forall i :: !OccursAt(s, sub, i)
    decreases |s|
  {
    if |s| >= |sub| && s[..|sub|] != sub && Find(s[1..], sub) == -1 {
      FindNone(s[1..], sub);
      forall i | 1 <= i
        ensures !OccursAt(s, sub, i)
      {
        OccursAtShift(s, sub, i - 1);
      }
      assert !OccursAt(s, sub, 0);
    }
  }

  lemma {:induction false} FindEarlier(s: string, sub: string)
    ensures forall j | 0 <= j < Find(s, sub) :: !OccursAt(s, sub, j)
    decreases |s|
  {
    if |s| >= |sub| && s[..|sub|] != sub && Find(s[1..], sub) >= 0 {
      FindEarlier(s[1..], sub);
      forall j | 1 <= j < Find(s, sub)
        ensures !OccursAt(s, sub, j)
      {
        OccursAtShift(s, sub, j - 1);
      }
      assert !OccursAt(s, sub, 0);
    }
  }

  /** `s.count(c)` for one character. */
  function CountChar(s: string, c: char): nat
    decreases |s|
  {
    if s == [] then 0 else (if s[0] == c then 1 else 0) + CountChar(s[1..], c)
  }

  /** Counting distributes over concatenation. */
  lemma {:induction false} CountAppend(a: string, b: string, c: char)
    ensures CountChar(a + b, c) == CountChar(a, c) + CountChar(b, c)
    decreases |a|
  {
    if a == [] {
      assert a + b == b;
    } else {
      assert (a + b)[0] == a[0];
      assert (a + b)[1..] == a[1..] + b;
      assert CountChar(a + b, c) == (if a[0] == c then 1 else 0) + CountChar(a[1..] + b, c);
      CountAppend(a[1..], b, c);
    }
  }

  /** `s.rfind(c)` for a single character: the last index holding `c`, or -1. */
  function RFindChar(s: string, c: char): (r: int)
    ensures -1 <= r < |s|
  {
    RFindCharBefore(s, c, |s|)
  }

  /** The last index below `n` holding `c`, or -1. */
  function RFindCharBefore(s: string, c: char, n: nat): (r: int)
    requires n <= |s|
    ensures -1 <= r < n
  {
    if n == 0 then -1
    else if s[n - 1] == c then n - 1
    else RFindCharBefore(s, c, n - 1)
  }

  /** `RFindChar` finds `c` at its result and nowhere after it. */
  lemma RFindCharSpec(s: string, c: char)
    ensures RFindChar(s, c) >= 0 ==> s[RFindChar(s, c)] == c
    ensures forall j | RFindChar(s, c) < j < |s| :: s[j] != c
  {
    RFindBeforeSpec(s, c, |s|);
  }

  lemma {:induction false} RFindBeforeSpec(s: string, c: char, n: nat)
    requires n <= |s|
    ensures RFindCharBefore(s, c, n) >= 0 ==> s[RFindCharBefore(s, c, n)] == c
    ensures forall j | RFindCharBefore(s, c, n) < j < n :: s[j] != c
  {
    if n > 0 && s[n - 1] != c {
      RFindBeforeSpec(s, c, n - 1);
    }
  }

  /** Python's `s[a:b]` with negative indices counted from the end and
      both bounds clamped to the string. */
  function Slice(s: string, a: int, b: int): (r: string)
    ensures |r| <= |s|
  {
    var lo := Clamp(if a < 0 then a + |s| else a, |s|);
    var hi := Clamp(if b < 0 then b + |s| else b, |s|);
    if lo < hi then s[lo..hi] else ""
  }

  function Clamp(x: int, n: nat): (r: nat)
    ensures r <= n
  {
    if x < 0 then 0 else if x > n then n else x
  }

  /** `s.split(sep)` for a non-empty separator: occurrences are found
      from the left and do not overlap. */
  function Split(s: string, sep: string): (parts: seq<string>)
    requires |sep| > 0
    ensures |parts| >= 1
    decreases |s|
  {
    var i := Find(s, sep);
    if i < 0 then [s] else SplitAt(s, sep, i)
  }

  /** The pieces of `s` when its first separator starts at `i`. */
  function SplitAt(s: string, sep: string, i: int): (parts: seq<string>)
    requires |sep| > 0 && OccursAt(s, sep, i)
    ensures |parts| >= 2
    decreases |s|, 0
  {
    [s[..i]] + Split(s[i + |sep|..], sep)
  }

  /** No piece produced by `Split` contains the separator. */
  lemma {:induction false} SplitPiecesFree(s: string, sep: string)
    requires |sep| > 0
    ensures forall p | p in Split(s, sep) :: !Contains(p, sep)
    decreases |s|
  {
    var i := Find(s, sep);
    FindFirst(s, sep);
    if i >= 0 {
      SplitPiecesFree(s[i + |sep|..], sep);
      forall j | OccursAt(s[..i], sep, j) ensures OccursAt(s, sep, j) {
        assert s[..i][j..j + |sep|] == s[j..j + |sep|];
      }
      assert Split(s, sep) == [s[..i]] + Split(s[i + |sep|..], sep);
    }
  }

  /** The first piece of a split is a prefix; without the separator the
      string is its own only piece. */
  lemma SplitHead(s: string, sep: string)
    requires |sep| > 0
    ensures StartsWith(s, Split(s, sep)[0])
    ensures !Contains(s, sep) ==> Split(s, sep) == [s]
    ensures Contains(s, sep) ==> 0 <= Find(s, sep) && Split(s, sep)[0] == s[..Find(s, sep)]
  {
    FindFirst(s, sep);
    var i := Find(s, sep);
    if i >= 0 {
      assert Split(s, sep) == SplitAt(s, sep, i);
      assert s[..i] == s[..|s[..i]|];
    }
  }

  /** `sep.join(parts)`. */
  function Join(sep: string, parts: seq<string>): string {
    if parts == [] then ""
    else if |parts| == 1 then parts[0]
    else parts[0] + sep + Join(sep, parts[1..])
  }

  /** Splitting and joining again gives back the original string. */
  lemma {:induction false} JoinSplit(s: string, sep: string)
    requires |sep| > 0
    ensures Join(sep, Split(s, sep)) == s
    decreases |s|
  {
    var i := Find(s, sep);
    if i >= 0 {
      var rest := s[i + |sep|..];
      JoinSplit(rest, sep);
      var tail := Split(rest, sep);
      assert Split(s, sep) == SplitAt(s, sep, i) == [s[..i]] + tail;
      JoinCons(sep, s[..i], tail);
      Around(s, i, |sep|);
    }
  }

  lemma Around(s: string, i: nat, n: nat)
    requires i + n <= |s|
    ensures s == s[..i] + s[i..i + n] + s[i + n..]
  {
  }

  lemma JoinCons(sep: string, a: string, tail: seq<string>)
    requires |tail| >= 1
    ensures Join(sep, [a] + tail) == a + sep + Join(sep, tail)
  {
    assert ([a] + tail)[1..] == tail;
  }

  /** `s.strip(c)` for one character `c`. */
  function StripChar(s: string, c: char): (r: string)
    ensures |r| <= |s|
    ensures r != "" ==> r[0] != c && r[|r| - 1] != c
    ensures (forall i | 0 <= i < |s| :: s[i] != c) ==> r == s
    decreases |s|
  {
    if s == [] then s
    else if s[0] == c then StripChar(s[1..], c)
    else if s[|s| - 1] == c then StripChar(s[..|s| - 1], c)
    else s
  }

  /** `s.strip()`: drops leading and trailing whitespace. */
  function Strip(s: string): (r: string)
    ensures |r| <= |s|
    ensures r != "" ==> !IsSpace(r[0]) && !IsSpace(r[|r| - 1])
    ensures r == "" <==> forall i | 0 <= i < |s| :: IsSpace(s[i])
    decreases |s|
  {
    if s == [] then s
    else if IsSpace(s[0]) then
      var r := Strip(s[1..]);
      assert forall i | 1 <= i < |s| :: s[i] == s[1..][i - 1];
      r
    else if IsSpace(s[|s| - 1]) then
      var r := Strip(s[..|s| - 1]);
      r
    else s
  }

  /** `s[i..j]` is what remains of `s` once leading and trailing runs of
      `c` are cut off. */
  predicate CharFramed(s: string, c: char, i: int, j: int) {
    0 <= i <= j <= |s| && (forall k | 0 <= k < i :: s[k] == c) && (forall k | j <= k < |s| :: s[k] == c)
  }

  lemma CharFramedFront(s: string, c: char, i: int, j: int)
    requires s != [] && s[0] == c && CharFramed(s[1..], c, i, j)
    ensures CharFramed(s, c, i + 1, j + 1) && s[1..][i..j] == s[i + 1..j + 1]
  {
    assert forall k | 1 <= k < |s| :: s[k] == s[1..][k - 1];
  }

  lemma CharFramedBack(s: string, c: char, i: int, j: int)
    requires s != [] && s[|s| - 1] == c && CharFramed(s[..|s| - 1], c, i, j)
    ensures CharFramed(s, c, i, j) && s[..|s| - 1][i..j] == s[i..j]
  {
    assert forall k | 0 <= k < |s| - 1 :: s[k] == s[..|s| - 1][k];
  }

  /** `s.strip(c)` is the slice of `s` left after its leading and trailing
      runs of `c`; with the ends `StripChar` guarantees, that slice is
      unique. */
  lemma {:induction false} StripCharSlice(s: string, c: char)
    ensures exists i, j :: CharFramed(s, c, i, j) && StripChar(s, c) == s[i..j]
    decreases |s|
  {
    if s == [] {
      assert CharFramed(s, c, 0, 0) && StripChar(s, c) == s[0..0];
    } else if s[0] == c {
      StripCharSlice(s[1..], c);
      var i, j :| CharFramed(s[1..], c, i, j) && StripChar(s[1..], c) == s[1..][i..j];
      CharFramedFront(s, c, i, j);
    } else if s[|s| - 1] == c {
      StripCharSlice(s[..|s| - 1], c);
      var i, j :| CharFramed(s[..|s| - 1], c, i, j) && StripChar(s[..|s| - 1], c) == s[..|s| - 1][i..j];
      CharFramedBack(s, c, i, j);
    } else {
      assert CharFramed(s, c, 0, |s|) && StripChar(s, c) == s[0..|s|];
    }
  }

  /** `s[i..j]` is what remains of `s` once leading and trailing
      whitespace is cut off. */
  predicate SpaceFramed(s: string, i: int, j: int) {
    0 <= i <= j <= |s| && (forall k | 0 <= k < i :: IsSpace(s[k])) && (forall k | j <= k < |s| :: IsSpace(s[k]))
  }

  lemma SpaceFramedFront(s: string, i: int, j: int)
    requires s != [] && IsSpace(s[0]) && SpaceFramed(s[1..], i, j)
    ensures SpaceFramed(s, i + 1, j + 1) && s[1..][i..j] == s[i + 1..j + 1]
  {
    assert forall k | 1 <= k < |s| :: s[k] == s[1..][k - 1];
  }

  lemma SpaceFramedBack(s: string, i: int, j: int)
    requires s != [] && IsSpace(s[|s| - 1]) && SpaceFramed(s[..|s| - 1], i, j)
    ensures SpaceFramed(s, i, j) && s[..|s| - 1][i..j] == s[i..j]
  {
    assert forall k | 0 <= k < |s| - 1 :: s[k] == s[..|s| - 1][k];
  }

  /** `s.strip()` is the slice of `s` left after its leading and trailing
      whitespace; with the ends `Strip` guarantees, that slice is unique. */
  lemma {:induction false} StripSlice(s: string)
    ensures exists i, j :: SpaceFramed(s, i, j) && Strip(s) == s[i..j]
    decreases |s|
  {
    if s == [] {
      assert SpaceFramed(s, 0, 0) && Strip(s) == s[0..0];
    } else if IsSpace(s[0]) {
      StripSlice(s[1..]);
      var i, j :| SpaceFramed(s[1..], i, j) && Strip(s[1..]) == s[1..][i..j];
      SpaceFramedFront(s, i, j);
    } else if IsSpace(s[|s| - 1]) {
      StripSlice(s[..|s| - 1]);
      var i, j :| SpaceFramed(s[..|s| - 1], i, j) && Strip(s[..|s| - 1]) == s[..|s| - 1][i..j];
      SpaceFramedBack(s, i, j);
    } else {
      assert SpaceFramed(s, 0, |s|) && Strip(s) == s[0..|s|];
    }
  }

  function DigitValue(c: char): nat
    requires IsDigit(c)
  {
    c as int - '0' as int
  }

  function DigitChar(d: nat): (c: char)
    requires d < 10
    ensures IsDigit(c) && DigitValue(c) == d
  {
    ('0' as int + d) as char
  }

  /** The value of a string of decimal digits (most significant first). */
  function DigitsValue(s: string): nat
    requires AllDigits(s)
  {
    if s == [] then 0 else DigitsValue(s[..|s| - 1]) * 10 + DigitValue(s[|s| - 1])
  }

  /** `str(n)` for a natural number. */
  function NatToString(n: nat): (s: string)
    ensures |s| >= 1 && AllDigits(s)
    ensures |s| > 1 ==> s[0] != '0'
  {
    if n < 10 then [DigitChar(n)] else NatToString(n / 10) + [DigitChar(n % 10)]
  }

  /** `str(i)` for a Python `int`. */
  function IntToString(i: int): string {
    if i < 0 then "-" + NatToString(-i) else NatToString(i)
  }

  lemma {:induction false} NatToStringValue(n: nat)
    ensures DigitsValue(NatToString(n)) == n
  {
    if n >= 10 {
      NatToStringValue(n / 10);
      var s := NatToString(n);
      assert s[..|s| - 1] == NatToString(n / 10);
    }
  }

  /** `"%0<w>d" % n`: left-padded with zeros to at least `w` digits. */
  function ZeroPad(n: nat, w: nat): (s: string)
    ensures AllDigits(s) && DigitsValue(s) == n
    ensures |s| == if |NatToString(n)| >= w then |NatToString(n)| else w
    decreases w
  {
    var t := NatToString(n);
    NatToStringValue(n);
    if |t| >= w then t else PadOne(ZeroPad(n, w - 1))
  }

  /** Prepends a `'0'`, which keeps the value of a digit string. */
  function PadOne(s: string): (r: string)
    requires AllDigits(s)
    ensures r == "0" + s && AllDigits(r)
    ensures DigitsValue(r) == DigitsValue(s)
  {
    LeadingZero(s);
    "0" + s
  }

  lemma {:induction false} LeadingZero(s: string)
    requires AllDigits(s)
    ensures AllDigits("0" + s) && DigitsValue("0" + s) == DigitsValue(s)
    decreases |s|
  {
    if s != [] {
      var z := "0" + s;
      assert z[..|z| - 1] == "0" + s[..|s| - 1];
      LeadingZero(s[..|s| - 1]);
    }
  }
}
