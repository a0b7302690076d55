/** `epoch_to_iso` (the second definition in helpers.py, which shadows the
    first) and `is_epoch`: Unix seconds to a UTC calendar date by the
    proleptic Gregorian ordinal arithmetic of CPython's `datetime`, and the
    range test the extractors use to recognise epoch columns. */
module Epoch {
  import opened Json
  import opened Text
  import opened Records

  /** `datetime.fromtimestamp(t, tz=timezone.utc)` succeeds exactly for
      the seconds of the years 1 to 9999. */
  const MinTimestamp := -62135596800
  const MaxTimestamp := 253402300799

  /** The ordinal (day 1 = 0001-01-01) of 1970-01-01. */
  const EpochOrdinal := 719163
  const MaxOrdinal := 3652059

  predicate IsLeap(y: int) {
    y % 4 == 0 && (y % 100 != 0 || y % 400 == 0)
  }

  function DaysInMonth(y: int, m: int): int
    requires 1 <= m <= 12
  {
    [31, 28, 31, 30, 31, 30, 31, 31, 30, 31, 30, 31][m - 1] + (if m == 2 && IsLeap(y) then 1 else 0)
  }

  function DaysBeforeMonth(y: int, m: int): int
    requires 1 <= m <= 12
  {
    [0, 31, 59, 90, 120, 151, 181, 212, 243, 273, 304, 334][m - 1] + (if m > 2 && IsLeap(y) then 1 else 0)
  }

  /** Days in the years before `y`. */
  function DaysBeforeYear(y: int): int
    requires y >= 1
  {
    var y1 := y - 1;
    y1 * 365 + y1 / 4 - y1 / 100 + y1 / 400
  }

  predicate ValidDate(y: int, m: int, d: int) {
    1 <= y <= 9999 && 1 <= m <= 12 && 1 <= d <= DaysInMonth(y, m)
  }

  /** `date.toordinal()`. */
  function Ordinal(y: int, m: int, d: int): int
    requires ValidDate(y, m, d)
  {
    DaysBeforeYear(y) + DaysBeforeMonth(y, m) + d
  }

  /** Each month starts where the one before it ends. */
  lemma MonthsAdjoin(y: int, m: int)
    requires 1 <= m < 12
    ensures DaysBeforeMonth(y, m + 1) == DaysBeforeMonth(y, m) + DaysInMonth(y, m)
  {
  }

  /** `_ord2ymd`: the date of an ordinal, by 400-, 100-, 4- and 1-year
      cycles and a first guess at the month that is at most one too large. */
  function OrdToYmd(n: int): (int, int, int)
    requires 1 <= n <= MaxOrdinal
  {
    var c := Cycles(n - 1);
    var year := c.0 * 400 + 1 + c.1 * 100 + c.2 * 4 + c.3;
    if c.3 == 4 || c.1 == 4 then (year - 1, 12, 31)
    else (year, MonthDay(year, c.4).0, MonthDay(year, c.4).1)
  }

  /** The successive `divmod`s of `_ord2ymd`: whole 400-, 100-, 4- and
      1-year cycles in `n0` days, and the days left over. */
  function Cycles(n0: int): (c: (int, int, int, int, int))
    requires 0 <= n0 < MaxOrdinal
    ensures n0 == 146097 * c.0 + 36524 * c.1 + 1461 * c.2 + 365 * c.3 + c.4
    ensures 0 <= c.0 <= 24 && 0 <= c.1 <= 4 && 0 <= c.2 <= 24 && 0 <= c.3 <= 4 && 0 <= c.4 < 365
    ensures c.1 == 4 ==> c.2 == 0 && c.3 == 0 && c.4 == 0
    ensures c.3 == 4 ==> c.4 == 0 && c.2 <= 23
    ensures c.2 == 24 ==> 365 * c.3 + c.4 < 1460
  {
    var n400 := n0 / 146097;
    var r400 := n0 % 146097;
    var n100 := r400 / 36524;
    var r100 := r400 % 36524;
    var n4 := r100 / 1461;
    var r4 := r100 % 1461;
    var n1 := r4 / 365;
    var e := r4 % 365;
    (n400, n100, n4, n1, e)
  }

  /** The month and day of the 0-based day `e` of year `y`: the guess, or
      the month before it when the guess starts after `e`. */
  function MonthDay(y: int, e: int): (int, int)
    requires 0 <= e < 365
  {
    var m := MonthGuess(e);
    var start := DaysBeforeMonth(y, m);
    if start > e then (m - 1, e - DaysBeforeMonth(y, m - 1) + 1)
    else (m, e - start + 1)
  }

  /** `(n + 50) >> 5`. */
  function MonthGuess(e: int): (m: int)
    requires 0 <= e < 366
    ensures 1 <= m <= 12
  {
    (e + 50) / 32
  }

  lemma Div4(q: int, r: int)
    requires 0 <= r < 4
    ensures (4 * q + r) / 4 == q && (4 * q + r) % 4 == r
  {
  }

  lemma Div100(q: int, r: int)
    requires 0 <= r < 100
    ensures (100 * q + r) / 100 == q && (100 * q + r) % 100 == r
  {
  }

  lemma Div400(q: int, r: int)
    requires 0 <= r < 400
    ensures (400 * q + r) / 400 == q && (400 * q + r) % 400 == r
  {
  }

  /** A year has 366 days when it is a leap year and 365 otherwise. */
  lemma YearLength(y: int)
    requires y >= 1
    ensures DaysBeforeYear(y + 1) - DaysBeforeYear(y) == if IsLeap(y) then 366 else 365
  {
    var d4 := y / 4 - (y - 1) / 4;
    var d100 := y / 100 - (y - 1) / 100;
    var d400 := y / 400 - (y - 1) / 400;
    if y % 4 == 0 { Div4(y / 4 - 1, 3); } else { Div4(y / 4, y % 4 - 1); }
    if y % 100 == 0 { Div100(y / 100 - 1, 99); Div4(25 * (y / 100), 0); } else { Div100(y / 100, y % 100 - 1); }
    if y % 400 == 0 { Div400(y / 400 - 1, 399); Div100(4 * (y / 400), 0); } else { Div400(y / 400, y % 400 - 1); }
    assert d4 == (if y % 4 == 0 then 1 else 0);
    assert d100 == (if y % 100 == 0 then 1 else 0);
    assert d400 == (if y % 400 == 0 then 1 else 0);
    assert DaysBeforeYear(y + 1) - DaysBeforeYear(y) == 365 + d4 - d100 + d400;
  }

  /** The days counted by whole cycles: 400 years are 146097 days, 100
      years 36524, 4 years 1461 and a year 365, as long as no cycle is
      complete; and which years of the cycles are leap years. */
  lemma DaysBeforeCycles(a: int, b: int, c: int, e: int)
    requires a >= 0 && 0 <= b <= 3 && 0 <= c <= 24 && 0 <= e <= 3
    ensures DaysBeforeYear(400 * a + 100 * b + 4 * c + e + 1) == 146097 * a + 36524 * b + 1461 * c + 365 * e
    ensures IsLeap(400 * a + 100 * b + 4 * c + e + 1) <==> e == 3 && (c != 24 || b == 3)
  {
    var y1 := 400 * a + 100 * b + 4 * c + e;
    Div4(100 * a + 25 * b + c, e);
    Div100(4 * a + b, 4 * c + e);
    Div400(a, 100 * b + 4 * c + e);
    var y := y1 + 1;
    if e == 3 {
      Div4(100 * a + 25 * b + c + 1, 0);
    } else {
      Div4(100 * a + 25 * b + c, e + 1);
    }
    if 4 * c + e + 1 == 100 {
      Div100(4 * a + b + 1, 0);
    } else {
      Div100(4 * a + b, 4 * c + e + 1);
    }
    if 100 * b + 4 * c + e + 1 == 400 {
      Div400(a + 1, 0);
    } else {
      Div400(a, 100 * b + 4 * c + e + 1);
    }
  }

  /** The day found is a real day of that month, and `e` days precede it
      in the year. */
  lemma MonthDayCorrect(y: int, e: int)
    requires 1 <= y <= 9999 && 0 <= e < 365
    ensures var (m, d) := MonthDay(y, e); ValidDate(y, m, d) && DaysBeforeMonth(y, m) + d == e + 1
  {
    var m := MonthGuess(e);
    if m == 1 {
    } else if m == 2 {
    } else if m == 3 {
    } else if m == 4 {
    } else if m == 5 {
    } else if m == 6 {
    } else if m == 7 {
    } else if m == 8 {
    } else if m == 9 {
    } else if m == 10 {
    } else if m == 11 {
    } else {
    }
  }

  /** The date at `e` days into the year after `n400`, `n100`, `n4` and
      `n1` whole cycles, none of `n100` and `n1` complete. */
  lemma InYear(n: int, y: int, n400: int, n100: int, n4: int, n1: int, e: int)
    requires 1 <= n <= MaxOrdinal && y == 400 * n400 + 100 * n100 + 4 * n4 + n1 + 1
    requires n - 1 == 146097 * n400 + 36524 * n100 + 1461 * n4 + 365 * n1 + e
    requires 0 <= n400 && 0 <= n100 <= 3 && 0 <= n4 <= 24 && 0 <= n1 <= 3 && 0 <= e < 365
    requires n4 == 24 ==> 365 * n1 + e < 1460
    ensures ValidDate(y, MonthDay(y, e).0, MonthDay(y, e).1) && Ordinal(y, MonthDay(y, e).0, MonthDay(y, e).1) == n
  {
    DaysBeforeCycles(n400, n100, n4, n1);
    assert y <= 9999;
    MonthDayCorrect(y, e);
  }

  /** The last day of the leap year that closes a cycle of four or of four
      hundred years. */
  lemma CycleEnd(n: int, y: int, n400: int, n100: int, n4: int)
    requires 1 <= n <= MaxOrdinal && y == 400 * n400 + 100 * n100 + 4 * n4 + 4
    requires n - 1 == 146097 * n400 + 36524 * n100 + 1461 * n4 + 1460
    requires 0 <= n400 && 0 <= n100 <= 3 && 0 <= n4 <= 24 && (n4 == 24 ==> n100 == 3)
    ensures ValidDate(y, 12, 31) && Ordinal(y, 12, 31) == n
  {
    DaysBeforeCycles(n400, n100, n4, 3);
  }

  /** `_ord2ymd` finds a real date whose ordinal is `n`. */
  predicate YmdOfOrdinal(n: int)
    requires 1 <= n <= MaxOrdinal
  {
    var r := OrdToYmd(n);
    ValidDate(r.0, r.1, r.2) && Ordinal(r.0, r.1, r.2) == n
  }

  lemma LastDayOfCentury(n: int)
    requires 1 <= n <= MaxOrdinal && Cycles(n - 1).1 == 4
    ensures YmdOfOrdinal(n)
  {
    var c := Cycles(n - 1);
    var year := c.0 * 400 + 1 + c.1 * 100 + c.2 * 4 + c.3;
    CycleEnd(n, year - 1, c.0, 3, 24);
  }

  lemma LastDayOfQuad(n: int)
    requires 1 <= n <= MaxOrdinal && Cycles(n - 1).1 != 4 && Cycles(n - 1).3 == 4
    ensures YmdOfOrdinal(n)
  {
    var c := Cycles(n - 1);
    var year := c.0 * 400 + 1 + c.1 * 100 + c.2 * 4 + c.3;
    CycleEnd(n, year - 1, c.0, c.1, c.2);
  }

  lemma WithinYear(n: int)
    requires 1 <= n <= MaxOrdinal && Cycles(n - 1).1 != 4 && Cycles(n - 1).3 != 4
    ensures YmdOfOrdinal(n)
  {
    var c := Cycles(n - 1);
    var year := c.0 * 400 + 1 + c.1 * 100 + c.2 * 4 + c.3;
    var md := MonthDay(year, c.4);
    assert OrdToYmd(n) == (year, md.0, md.1);
    InYear(n, year, c.0, c.1, c.2, c.3, c.4);
  }

  /** `_ord2ymd` inverts `toordinal`: it yields a real date whose ordinal is
      the one given. */
  lemma OrdToYmdCorrect(n: int)
    requires 1 <= n <= MaxOrdinal
    ensures ValidDate(OrdToYmd(n).0, OrdToYmd(n).1, OrdToYmd(n).2)
    ensures Ordinal(OrdToYmd(n).0, OrdToYmd(n).1, OrdToYmd(n).2) == n
  {
    var c := Cycles(n - 1);
    if c.1 == 4 {
      LastDayOfCentury(n);
    } else if c.3 == 4 {
      LastDayOfQuad(n);
    } else {
      WithinYear(n);
    }
  }

  /** A UTC date and time of day. */
  datatype Civil = Civil(year: int, month: int, day: int, hour: int, minute: int, second: int)

  predicate ValidCivil(c: Civil) {
    ValidDate(c.year, c.month, c.day) && 0 <= c.hour < 24 && 0 <= c.minute < 60 && 0 <= c.second < 60
  }

  /** The Unix time of a date and time of day. */
  function Seconds(c: Civil): int
    requires ValidCivil(c)
  {
    (Ordinal(c.year, c.month, c.day) - EpochOrdinal) * 86400 + c.hour * 3600 + c.minute * 60 + c.second
  }

  /** The UTC date and time of `t` seconds after 1970-01-01T00:00:00. */
  function CivilOf(t: int): (c: Civil)
    requires MinTimestamp <= t <= MaxTimestamp
    ensures ValidCivil(c) && Seconds(c) == t
  {
    var days := t / 86400;
    var secs := t % 86400;
    OrdToYmdCorrect(days + EpochOrdinal);
    var (y, m, d) := OrdToYmd(days + EpochOrdinal);
    Civil(y, m, d, secs / 3600, secs % 3600 / 60, secs % 60)
  }

  /** Later years start later. */
  lemma {:induction false} YearsIncrease(a: int, b: int)
    requires 1 <= a <= b
    ensures DaysBeforeYear(b) - DaysBeforeYear(a) >= 365 * (b - a)
    decreases b - a
  {
    if a < b {
      YearLength(a);
      YearsIncrease(a + 1, b);
    }
  }

  /** Later months of a year start later. */
  lemma {:induction false} MonthsIncrease(y: int, a: int, b: int)
    requires 1 <= a < b <= 12
    ensures DaysBeforeMonth(y, a) + DaysInMonth(y, a) <= DaysBeforeMonth(y, b)
    decreases b - a
  {
    MonthsAdjoin(y, a);
    if a + 1 < b {
      MonthsIncrease(y, a + 1, b);
    }
  }

  /** The ordinal of a date lies within its year. */
  lemma OrdinalInYear(y: int, m: int, d: int)
    requires ValidDate(y, m, d)
    ensures DaysBeforeYear(y) < Ordinal(y, m, d) <= DaysBeforeYear(y + 1)
  {
    YearLength(y);
    if m < 12 {
      MonthsIncrease(y, m, 12);
    }
  }

  /** Distinct dates have distinct ordinals. */
  lemma OrdinalInjective(y1: int, m1: int, d1: int, y2: int, m2: int, d2: int)
    requires ValidDate(y1, m1, d1) && ValidDate(y2, m2, d2)
    requires Ordinal(y1, m1, d1) == Ordinal(y2, m2, d2)
    ensures y1 == y2 && m1 == m2 && d1 == d2
  {
    OrdinalInYear(y1, m1, d1);
    OrdinalInYear(y2, m2, d2);
    if y1 < y2 {
      YearsIncrease(y1 + 1, y2);
    } else if y2 < y1 {
      YearsIncrease(y2 + 1, y1);
    }
    assert y1 == y2;
    if m1 < m2 {
      MonthsIncrease(y1, m1, m2);
    } else if m2 < m1 {
      MonthsIncrease(y1, m2, m1);
    }
  }

  /** Distinct dates and times are distinct instants. */
  lemma SecondsInjective(c1: Civil, c2: Civil)
    requires ValidCivil(c1) && ValidCivil(c2) && Seconds(c1) == Seconds(c2)
    ensures c1 == c2
  {
    var o1 := Ordinal(c1.year, c1.month, c1.day);
    var o2 := Ordinal(c2.year, c2.month, c2.day);
    var r1 := c1.hour * 3600 + c1.minute * 60 + c1.second;
    var r2 := c2.hour * 3600 + c2.minute * 60 + c2.second;
    assert 0 <= r1 < 86400 && 0 <= r2 < 86400;
    assert (o1 - o2) * 86400 == r2 - r1;
    assert o1 == o2;
    OrdinalInjective(c1.year, c1.month, c1.day, c2.year, c2.month, c2.day);
  }

  /** The Unix epoch is the first second of 1970. */
  lemma EpochStart()
    ensures CivilOf(0) == Civil(1970, 1, 1, 0, 0, 0)
  {
    var c := Civil(1970, 1, 1, 0, 0, 0);
    assert DaysBeforeYear(1970) == 719162;
    assert Seconds(c) == 0;
    SecondsInjective(CivilOf(0), c);
  }

  /** `isoformat()` of an aware UTC datetime without microseconds. */
  function Iso(c: Civil): string
    requires ValidCivil(c)
  {
    Three(ZeroPad(c.year, 4), '-', ZeroPad(c.month, 2), ZeroPad(c.day, 2)) + "T"
      + Three(ZeroPad(c.hour, 2), ':', ZeroPad(c.minute, 2), ZeroPad(c.second, 2)) + "+00:00"
  }

  /** Three fields with a separator between each two. */
  function Three(a: string, sep: char, b: string, c: string): string {
    a + [sep] + b + [sep] + c
  }

  /** A number field of `w` digits, a separator and two fields of two
      digits each: `YYYY-MM-DD` or `HH:MM:SS`. */
  predicate ThreeShaped(s: string, w: nat, sep: char) {
    |s| == w + 6 && AllDigits(s[..w]) && s[w] == sep && AllDigits(s[w + 1..w + 3]) && s[w + 3] == sep && AllDigits(s[w + 4..])
  }

  function ReadThree(s: string, w: nat, sep: char): (int, int, int)
    requires ThreeShaped(s, w, sep)
  {
    (DigitsValue(s[..w]), DigitsValue(s[w + 1..w + 3]), DigitsValue(s[w + 4..]))
  }

  lemma ThreeReadsBack(a: string, sep: char, b: string, c: string)
    requires |b| == 2 && |c| == 2 && AllDigits(a) && AllDigits(b) && AllDigits(c) && !IsDigit(sep)
    ensures ThreeShaped(Three(a, sep, b, c), |a|, sep)
    ensures ReadThree(Three(a, sep, b, c), |a|, sep) == (DigitsValue(a), DigitsValue(b), DigitsValue(c))
  {
    var s := Three(a, sep, b, c);
    assert s[..|a|] == a;
    assert s[|a| + 1..|a| + 3] == b;
    assert s[|a| + 4..] == c;
  }

  /** The `YYYY-MM-DDTHH:MM:SS+00:00` layout. */
  predicate IsoShaped(s: string) {
    |s| == 25 && ThreeShaped(s[..10], 4, '-') && s[10] == 'T' && ThreeShaped(s[11..19], 2, ':') && s[19..] == "+00:00"
  }

  /** Reads the six numbers back out of an ISO-shaped string. */
  function ReadIso(s: string): Civil
    requires IsoShaped(s)
  {
    var (y, m, d) := ReadThree(s[..10], 4, '-');
    var (hh, mm, ss) := ReadThree(s[11..19], 2, ':');
    Civil(y, m, d, hh, mm, ss)
  }

  function Pow10(k: nat): nat {
    if k == 0 then 1 else 10 * Pow10(k - 1)
  }

  /** A number below `10^k` has at most `k` digits. */
  lemma {:induction false} DigitCount(n: nat, k: nat)
    requires n < Pow10(k) && k >= 1
    ensures |NatToString(n)| <= k
  {
    if n >= 10 {
      assert k >= 2;
      DigitCount(n / 10, k - 1);
    }
  }

  /** A zero-padded number of fewer than `w` digits has exactly `w`
      characters and reads back as itself. */
  lemma PaddedWidth(n: nat, w: nat)
    requires 1 <= w && n < Pow10(w)
    ensures |ZeroPad(n, w)| == w && AllDigits(ZeroPad(n, w)) && DigitsValue(ZeroPad(n, w)) == n
  {
    DigitCount(n, w);
  }

  /** Three zero-padded numbers with separators read back as themselves. */
  lemma PaddedReadsBack(a: nat, w: nat, sep: char, b: nat, c: nat)
    requires 1 <= w && a < Pow10(w) && b < 100 && c < 100 && !IsDigit(sep)
    ensures var s := Three(ZeroPad(a, w), sep, ZeroPad(b, 2), ZeroPad(c, 2));
      ThreeShaped(s, w, sep) && ReadThree(s, w, sep) == (a, b, c)
  {
    assert Pow10(2) == 100;
    PaddedWidth(a, w);
    PaddedWidth(b, 2);
    PaddedWidth(c, 2);
    ThreeReadsBack(ZeroPad(a, w), sep, ZeroPad(b, 2), ZeroPad(c, 2));
  }

  /** A date part, `T`, a time part and `+00:00` make an ISO-shaped
      string that reads back as the two parts. */
  lemma IsoParts(date: string, time: string)
    requires ThreeShaped(date, 4, '-') && ThreeShaped(time, 2, ':')
    ensures IsoShaped(date + "T" + time + "+00:00")
    ensures var (y, m, d) := ReadThree(date, 4, '-');
      var (hh, mm, ss) := ReadThree(time, 2, ':');
      ReadIso(date + "T" + time + "+00:00") == Civil(y, m, d, hh, mm, ss)
  {
    var s := date + "T" + time + "+00:00";
    assert s[..10] == date;
    assert s[11..19] == time;
    assert s[19..] == "+00:00";
  }

  /** The ISO string of a date and time has the fixed layout and reads back
      as that date and time. */
  lemma IsoReadsBack(c: Civil)
    requires ValidCivil(c)
    ensures IsoShaped(Iso(c)) && ReadIso(Iso(c)) == c
  {
    assert Pow10(4) == 10000;
    var date := Three(ZeroPad(c.year, 4), '-', ZeroPad(c.month, 2), ZeroPad(c.day, 2));
    var time := Three(ZeroPad(c.hour, 2), ':', ZeroPad(c.minute, 2), ZeroPad(c.second, 2));
    PaddedReadsBack(c.year, 4, '-', c.month, c.day);
    PaddedReadsBack(c.hour, 2, ':', c.minute, c.second);
    IsoParts(date, time);
  }

  /** `epoch_to_iso(t)` for an integer `t`: the ISO string of the UTC
      instant, or `str(t)` when `datetime` rejects the year. */
  function EpochToIso(t: int): string {
    if MinTimestamp <= t <= MaxTimestamp then Iso(CivilOf(t)) else IntToString(t)
  }

  /** In range the result is a `YYYY-MM-DDTHH:MM:SS+00:00` string whose
      fields are a real date and time of day denoting `t`, and the only
      such; out of range it is `str(t)`, which never holds a `T`. */
  lemma EpochToIsoDenotes(t: int)
    ensures MinTimestamp <= t <= MaxTimestamp ==>
      var r := EpochToIso(t);
      IsoShaped(r) && ValidCivil(ReadIso(r)) && Seconds(ReadIso(r)) == t
      && forall c | ValidCivil(c) && Seconds(c) == t :: c == ReadIso(r)
    ensures !(MinTimestamp <= t <= MaxTimestamp) ==> EpochToIso(t) == IntToString(t)
    ensures 'T' in EpochToIso(t) <==> MinTimestamp <= t <= MaxTimestamp
  {
    var r := EpochToIso(t);
    if MinTimestamp <= t <= MaxTimestamp {
      IsoReadsBack(CivilOf(t));
      assert r[10] == 'T';
      forall c | ValidCivil(c) && Seconds(c) == t
        ensures c == ReadIso(r)
      {
        SecondsInjective(c, CivilOf(t));
      }
    } else {
      var n: nat := if t < 0 then -t else t;
      assert forall i | 0 <= i < |NatToString(n)| :: IsDigit(NatToString(n)[i]);
      assert forall i | 0 <= i < |r| :: r[i] == '-' || IsDigit(r[i]);
    }
  }

  /** `is_epoch`'s bounds: 2000-01-01T00:00:00 and 2040-01-01T00:00:00. */
  const Year2000 := 946684800
  const Year2040 := 2208988800

  lemma EpochBounds()
    ensures CivilOf(Year2000) == Civil(2000, 1, 1, 0, 0, 0)
    ensures CivilOf(Year2040) == Civil(2040, 1, 1, 0, 0, 0)
  {
    var c2000 := Civil(2000, 1, 1, 0, 0, 0);
    var c2040 := Civil(2040, 1, 1, 0, 0, 0);
    assert DaysBeforeYear(2000) == 730119;
    assert DaysBeforeYear(2040) == 744729;
    assert Seconds(c2000) == Year2000;
    assert Seconds(c2040) == Year2040;
    SecondsInjective(CivilOf(Year2000), c2000);
    SecondsInjective(CivilOf(Year2040), c2040);
  }

  /** `int(x)` succeeds and lands in `[year2000, year2040]`. */
  predicate InEpochRange(x: Json) {
    PyInt(x).Some? && Year2000 <= PyInt(x).value <= Year2040
  }

  /** What `is_epoch` decides: each of the first `min(len, check_minimum)`
      values is an in-range epoch second. */
  predicate EpochLike(xs: seq<Json>, checkMinimum: int) {
    forall i | 0 <= i < |xs| && i < checkMinimum :: InEpochRange(xs[i])
  }

  /** `is_epoch(datetime_int, check_minimum)`: a conversion that raises and
      a value out of range both end the scan with `False`. */
  method IsEpoch(xs: seq<Json>, checkMinimum: int) returns (r: bool)
    ensures r == EpochLike(xs, checkMinimum)
  {
    var n := if |xs| < checkMinimum then |xs| else checkMinimum;
    var i := 0;
    while i < n
      invariant 0 <= i && (n >= 0 ==> i <= n) && i <= |xs|
      invariant forall j | 0 <= j < i :: InEpochRange(xs[j])
    {
      var t := PyInt(xs[i]);
      if t.None? {
        return false;
      }
      if !(Year2000 <= t.value <= Year2040) {
        return false;
      }
      i := i + 1;
    }
    return true;
  }

  /** Nothing to check is an epoch column, and checking fewer values never
      turns a yes into a no. */
  lemma EpochLikePrefix(xs: seq<Json>, k: int, k': int)
    requires k' <= k
    ensures k' <= 0 || xs == [] ==> EpochLike(xs, k')
    ensures EpochLike(xs, k) ==> EpochLike(xs, k')
    ensures EpochLike(xs, k) <==> EpochLike(xs[..if 0 <= k <= |xs| then k else |xs|], k)
  {
  }

  /** A column holding a value before 2000 within the checked prefix is not
      an epoch column. */
  lemma EarlyValueRejects(xs: seq<Json>, k: int, i: int)
    requires 0 <= i < |xs| && i < k && xs[i] == Int(Year2000 - 1)
    ensures !EpochLike(xs, k)
  {
    assert !InEpochRange(xs[i]);
  }
}
