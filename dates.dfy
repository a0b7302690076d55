/** The date-text helpers of helpers.py: `replace_months` and the
    pre-processing stages of `robust_datetime_parser` (trimming and
    lower-casing, the numeric test with its epoch conversion, and the
    word-bounded substitution of Dutch month abbreviations). */
module Dates {
  import opened Json
  import opened Text
  import opened Epoch
  import Records

  // ---------------------------------------------------------------------
  // `replace_months`

  /** `s.replace(pat, rep, 1)`. */
  function ReplaceFirst(s: string, pat: string, rep: string): string {
    var i := Find(s, pat);
    if i < 0 then s else s[..i] + rep + s[i + |pat|..]
  }

  /** Without `pat` the text is unchanged; otherwise exactly the first
      occurrence of `pat` is replaced. */
  lemma ReplaceFirstReplacesFirst(s: string, pat: string, rep: string)
    ensures !Contains(s, pat) ==> ReplaceFirst(s, pat, rep) == s
    ensures Contains(s, pat) ==> exists i | 0 <= i <= |s| - |pat| ::
      && OccursAt(s, pat, i)
      && (forall j | 0 <= j < i :: !OccursAt(s, pat, j))
      && ReplaceFirst(s, pat, rep) == s[..i] + rep + s[i + |pat|..]
    ensures |rep| == |pat| ==> |ReplaceFirst(s, pat, rep)| == |s|
  {
    FindFirst(s, pat);
    var i := Find(s, pat);
    if Contains(s, pat) {
      assert OccursAt(s, pat, i);
    }
  }

  /** `month_mapping` of `replace_months`, in its iteration order. */
  const DutchMonths: seq<(string, string)> := [("mrt", "mar"), ("mei", "may"), ("okt", "oct")]

  /** The first entry of `table` whose Dutch name occurs, replaced once;
      the text itself when none occurs. */
  function ReplacedMonths(s: string, table: seq<(string, string)>): string
    decreases |table|
  {
    if table == [] then s
    else if Contains(s, table[0].0) then ReplaceFirst(s, table[0].0, table[0].1)
    else ReplacedMonths(s, table[1..])
  }

  /** `replace_months(input_string)`. */
  method ReplaceMonths(s: string) returns (r: string)
    ensures r == ReplacedMonths(s, DutchMonths)
  {
    for i := 0 to |DutchMonths|
      invariant ReplacedMonths(s, DutchMonths) == ReplacedMonths(s, DutchMonths[i..])
    {
      assert DutchMonths[i..][1..] == DutchMonths[i + 1..];
      var (dutch, english) := DutchMonths[i];
      if Contains(s, dutch) {
        return ReplaceFirst(s, dutch, english);
      }
    }
    assert DutchMonths[|DutchMonths|..] == [];
    return s;
  }

  /** When no Dutch name of `table` occurs nothing changes. */
  lemma {:induction false} ReplacedMonthsNone(s: string, table: seq<(string, string)>)
    requires forall k | 0 <= k < |table| :: !Contains(s, table[k].0)
    ensures ReplacedMonths(s, table) == s
    decreases |table|
  {
    if table != [] {
      assert !Contains(s, table[0].0);
      forall k | 0 <= k < |table| - 1 ensures !Contains(s, table[1..][k].0) {
        assert table[1..][k] == table[k + 1];
      }
      ReplacedMonthsNone(s, table[1..]);
    }
  }

  /** The entry that acts is the first one, in table order, whose Dutch
      name occurs anywhere in the text. */
  lemma {:induction false} ReplacedMonthsPick(s: string, table: seq<(string, string)>, k: int)
    requires 0 <= k < |table| && Contains(s, table[k].0)
    requires forall m | 0 <= m < k :: !Contains(s, table[m].0)
    ensures ReplacedMonths(s, table) == ReplaceFirst(s, table[k].0, table[k].1)
    decreases |table|
  {
    if k > 0 {
      assert !Contains(s, table[0].0);
      assert table[1..][k - 1] == table[k];
      forall m | 0 <= m < k - 1 ensures !Contains(s, table[1..][m].0) {
        assert table[1..][m] == table[m + 1];
      }
      ReplacedMonthsPick(s, table[1..], k - 1);
    }
  }

  /** `replace_months` keeps the length (every replacement has three
      letters), leaves text without `mrt`, `mei` and `okt` alone, and
      prefers `mrt` over `mei` and `mei` over `okt` wherever they occur. */
  lemma ReplaceMonthsEffect(s: string)
    ensures |ReplacedMonths(s, DutchMonths)| == |s|
    ensures !Contains(s, "mrt") && !Contains(s, "mei") && !Contains(s, "okt") ==> ReplacedMonths(s, DutchMonths) == s
    ensures Contains(s, "mrt") ==> ReplacedMonths(s, DutchMonths) == ReplaceFirst(s, "mrt", "mar")
    ensures !Contains(s, "mrt") && Contains(s, "mei") ==> ReplacedMonths(s, DutchMonths) == ReplaceFirst(s, "mei", "may")
    ensures !Contains(s, "mrt") && !Contains(s, "mei") && Contains(s, "okt") ==> ReplacedMonths(s, DutchMonths) == ReplaceFirst(s, "okt", "oct")
  {
    assert DutchMonths[0] == ("mrt", "mar") && DutchMonths[1] == ("mei", "may") && DutchMonths[2] == ("okt", "oct");
    ReplaceFirstReplacesFirst(s, "mrt", "mar");
    ReplaceFirstReplacesFirst(s, "mei", "may");
    ReplaceFirstReplacesFirst(s, "okt", "oct");
    if Contains(s, "mrt") {
      ReplacedMonthsPick(s, DutchMonths, 0);
    } else if Contains(s, "mei") {
      ReplacedMonthsPick(s, DutchMonths, 1);
    } else if Contains(s, "okt") {
      ReplacedMonthsPick(s, DutchMonths, 2);
    } else {
      ReplacedMonthsNone(s, DutchMonths);
    }
  }

  // ---------------------------------------------------------------------
  // `re.sub(r'\b' + w + r'\b', e, s)` for a word `w`

  /** A non-empty run of word characters. */
  predicate Word(w: string) {
    w != [] && forall k | 0 <= k < |w| :: IsWordChar(w[k])
  }

  /** `\b w \b` matches `s` at `j`; `prevWord` says whether the text
      before `s` ends in a word character (`false` at the start). */
  predicate WordAt(s: string, w: string, j: int, prevWord: bool) {
    && OccursAt(s, w, j)
    && (if j == 0 then !prevWord else !IsWordChar(s[j - 1]))
    && (j + |w| == |s| || !IsWordChar(s[j + |w|]))
  }

  /** Position `i` lies inside some match. */
  predicate Covered(s: string, w: string, i: int, prevWord: bool) {
    exists j | 0 <= j <= i && i < j + |w| :: WordAt(s, w, j, prevWord)
  }

  /** The left-to-right scan of `re.sub` for a non-empty `w`: a match is
      replaced and the scan resumes after it, otherwise one character is
      copied. */
  function SubWordFrom(s: string, w: string, e: string, prevWord: bool): string
    decreases |s|
  {
    if s == [] then []
    else if w != [] && WordAt(s, w, 0, prevWord) then e + SubWordFrom(s[|w|..], w, e, true)
    else [s[0]] + SubWordFrom(s[1..], w, e, IsWordChar(s[0]))
  }

  /** `re.sub(r'\b' + w + r'\b', e, s)`. */
  function SubWord(s: string, w: string, e: string): string
  {
    SubWordFrom(s, w, e, false)
  }

  /** Matches in a suffix are matches in the whole text, shifted. */
  lemma WordAtTail(s: string, w: string, k: int, j: int, p: bool)
    requires Word(w) && 1 <= k <= |s| && 0 <= j
    ensures WordAt(s[k..], w, j, IsWordChar(s[k - 1])) <==> WordAt(s, w, j + k, p)
  {
    var t := s[k..];
    if j + |w| <= |t| {
      assert t[j..j + |w|] == s[j + k..j + k + |w|];
    }
    if 0 < j <= |t| {
      assert t[j - 1] == s[j + k - 1];
    }
    if j + |w| < |t| {
      assert t[j + |w|] == s[j + k + |w|];
    }
  }

  /** Two matches never overlap: inside a match every character is a
      word character, so no second `\b` can open there. */
  lemma NoOverlap(s: string, w: string, j: int, p: bool, q: bool)
    requires Word(w) && WordAt(s, w, 0, p) && 0 < j < |w|
    ensures !WordAt(s, w, j, q)
  {
    assert s[j - 1] == s[..|w|][j - 1] == w[j - 1];
  }

  /** With a replacement as long as the word, the substitution keeps the
      length. */
  lemma {:induction false} SubWordLength(s: string, w: string, e: string, p: bool)
    requires Word(w) && |e| == |w|
    ensures |SubWordFrom(s, w, e, p)| == |s|
    decreases |s|
  {
    if s != [] {
      if WordAt(s, w, 0, p) {
        SubWordLength(s[|w|..], w, e, true);
      } else {
        SubWordLength(s[1..], w, e, IsWordChar(s[0]));
      }
    }
  }

  /** Every match is overwritten by `e`. */
  lemma {:induction false} SubWordMatches(s: string, w: string, e: string, p: bool)
    requires Word(w) && |e| == |w|
    ensures |SubWordFrom(s, w, e, p)| == |s|
    ensures forall j | WordAt(s, w, j, p) :: SubWordFrom(s, w, e, p)[j..j + |w|] == e
    decreases |s|
  {
    SubWordLength(s, w, e, p);
    if s != [] {
      if WordAt(s, w, 0, p) {
        SubWordLength(s[|w|..], w, e, true);
        SubWordMatches(s[|w|..], w, e, true);
        MatchesAfterMatch(s, w, e, p);
      } else {
        SubWordLength(s[1..], w, e, IsWordChar(s[0]));
        SubWordMatches(s[1..], w, e, IsWordChar(s[0]));
        MatchesAfterCopy(s, w, e, p);
      }
    }
  }

  /** A slice past a prefix is a slice of the rest. */
  lemma SliceAfterPrefix(e: string, r: string, j: int, n: nat)
    requires |e| <= j && j + n <= |e| + |r|
    ensures (e + r)[j..j + n] == r[j - |e|..j - |e| + n]
  {
  }

  /** The step of `SubWordMatches` where the text starts with a match. */
  lemma MatchesAfterMatch(s: string, w: string, e: string, p: bool)
    requires Word(w) && |e| == |w| && WordAt(s, w, 0, p)
    requires |SubWordFrom(s[|w|..], w, e, true)| == |s| - |w|
    requires forall j | WordAt(s[|w|..], w, j, true) :: SubWordFrom(s[|w|..], w, e, true)[j..j + |w|] == e
    ensures forall j | WordAt(s, w, j, p) :: SubWordFrom(s, w, e, p)[j..j + |w|] == e
  {
    var k := |w|;
    var r := SubWordFrom(s, w, e, p);
    var r' := SubWordFrom(s[k..], w, e, true);
    assert s[k - 1] == s[..k][k - 1] == w[k - 1];
    assert IsWordChar(s[k - 1]);
    assert r == e + r';
    assert r[..k] == e;
    forall j | WordAt(s, w, j, p)
      ensures r[j..j + k] == e
    {
      if 0 < j < k {
        NoOverlap(s, w, j, p, p);
      } else if j >= k {
        WordAtTail(s, w, k, j - k, p);
        SliceAfterPrefix(e, r', j, k);
      }
    }
  }

  /** The step of `SubWordMatches` where the first character is copied. */
  lemma MatchesAfterCopy(s: string, w: string, e: string, p: bool)
    requires Word(w) && |e| == |w| && s != [] && !WordAt(s, w, 0, p)
    requires |SubWordFrom(s[1..], w, e, IsWordChar(s[0]))| == |s| - 1
    requires forall j | WordAt(s[1..], w, j, IsWordChar(s[0])) :: SubWordFrom(s[1..], w, e, IsWordChar(s[0]))[j..j + |w|] == e
    ensures forall j | WordAt(s, w, j, p) :: SubWordFrom(s, w, e, p)[j..j + |w|] == e
  {
    var r' := SubWordFrom(s[1..], w, e, IsWordChar(s[0]));
    assert SubWordFrom(s, w, e, p) == [s[0]] + r';
    CopyShift(s, w, e, p, r');
  }

  /** Matches after a copied first character are the matches of the rest,
      one place further on. */
  lemma CopyShift(s: string, w: string, e: string, p: bool, r': string)
    requires Word(w) && |e| == |w| && s != [] && !WordAt(s, w, 0, p) && |r'| == |s| - 1
    requires forall j | WordAt(s[1..], w, j, IsWordChar(s[0])) :: r'[j..j + |w|] == e
    ensures forall j | WordAt(s, w, j, p) :: ([s[0]] + r')[j..j + |w|] == e
  {
    forall j | WordAt(s, w, j, p)
      ensures ([s[0]] + r')[j..j + |w|] == e
    {
      WordAtTail(s, w, 1, j - 1, p);
      SliceAfterPrefix([s[0]], r', j, |w|);
    }
  }

  /** Every position outside the matches keeps its character. */
  lemma {:induction false} SubWordElsewhere(s: string, w: string, e: string, p: bool)
    requires Word(w) && |e| == |w|
    ensures |SubWordFrom(s, w, e, p)| == |s|
    ensures forall i | 0 <= i < |s| && !Covered(s, w, i, p) :: SubWordFrom(s, w, e, p)[i] == s[i]
    decreases |s|
  {
    SubWordLength(s, w, e, p);
    if s != [] {
      if WordAt(s, w, 0, p) {
        SubWordLength(s[|w|..], w, e, true);
        SubWordElsewhere(s[|w|..], w, e, true);
        ElsewhereAfterMatch(s, w, e, p);
      } else {
        SubWordLength(s[1..], w, e, IsWordChar(s[0]));
        SubWordElsewhere(s[1..], w, e, IsWordChar(s[0]));
        ElsewhereAfterCopy(s, w, e, p);
      }
    }
  }

  /** The step of `SubWordElsewhere` after a match at the start. */
  lemma ElsewhereAfterMatch(s: string, w: string, e: string, p: bool)
    requires Word(w) && |e| == |w| && WordAt(s, w, 0, p)
    requires |SubWordFrom(s, w, e, p)| == |s|
    requires |SubWordFrom(s[|w|..], w, e, true)| == |s| - |w|
    requires forall i | 0 <= i < |s| - |w| && !Covered(s[|w|..], w, i, true) :: SubWordFrom(s[|w|..], w, e, true)[i] == s[|w|..][i]
    ensures forall i | 0 <= i < |s| && !Covered(s, w, i, p) :: SubWordFrom(s, w, e, p)[i] == s[i]
  {
    var k := |w|;
    var t := s[k..];
    var r := SubWordFrom(s, w, e, p);
    var r' := SubWordFrom(t, w, e, true);
    assert r == e + r';
    assert s[k - 1] == s[..k][k - 1];
    forall i | 0 <= i < |s| && !Covered(s, w, i, p)
      ensures r[i] == s[i]
    {
      if i < k {
        assert false;
      }
      if Covered(t, w, i - k, true) {
        var j' :| 0 <= j' <= i - k && i - k < j' + k && WordAt(t, w, j', true);
        WordAtTail(s, w, k, j', p);
        assert false;
      }
      assert r[i] == r'[i - k];
      assert t[i - k] == s[i];
    }
  }

  /** The step of `SubWordElsewhere` after a copied first character. */
  lemma ElsewhereAfterCopy(s: string, w: string, e: string, p: bool)
    requires Word(w) && |e| == |w| && s != [] && !WordAt(s, w, 0, p)
    requires |SubWordFrom(s, w, e, p)| == |s|
    requires |SubWordFrom(s[1..], w, e, IsWordChar(s[0]))| == |s| - 1
    requires forall i | 0 <= i < |s| - 1 && !Covered(s[1..], w, i, IsWordChar(s[0])) :: SubWordFrom(s[1..], w, e, IsWordChar(s[0]))[i] == s[1..][i]
    ensures forall i | 0 <= i < |s| && !Covered(s, w, i, p) :: SubWordFrom(s, w, e, p)[i] == s[i]
  {
    var t := s[1..];
    var q := IsWordChar(s[0]);
    var r := SubWordFrom(s, w, e, p);
    var r' := SubWordFrom(t, w, e, q);
    assert r == [s[0]] + r';
    forall i | 0 < i < |s| && !Covered(s, w, i, p)
      ensures r[i] == s[i]
    {
      if Covered(t, w, i - 1, q) {
        var j' :| 0 <= j' <= i - 1 && i - 1 < j' + |w| && WordAt(t, w, j', q);
        WordAtTail(s, w, 1, j', p);
        assert false;
      }
      assert r[i] == r'[i - 1];
      assert t[i - 1] == s[i];
    }
  }

  /** Replacing a word by itself changes nothing. */
  lemma {:induction false} SubWordSame(s: string, w: string, p: bool)
    ensures SubWordFrom(s, w, w, p) == s
    decreases |s|
  {
    if s != [] {
      if w != [] && WordAt(s, w, 0, p) {
        SubWordSame(s[|w|..], w, true);
        assert s == s[..|w|] + s[|w|..];
      } else {
        SubWordSame(s[1..], w, IsWordChar(s[0]));
        assert s == [s[0]] + s[1..];
      }
    }
  }

  /** `month_mapping` of `robust_datetime_parser`, in its iteration order. */
  const MonthTable: seq<(string, string)> := [
    ("jan", "jan"), ("feb", "feb"), ("mrt", "mar"), ("apr", "apr"),
    ("mei", "may"), ("jun", "jun"), ("jul", "jul"), ("aug", "aug"),
    ("sep", "sep"), ("okt", "oct"), ("nov", "nov"), ("dec", "dec")
  ]

  /** Every entry maps a word to a text of the same length. */
  predicate WordTable(table: seq<(string, string)>) {
    forall k | 0 <= k < |table| :: Word(table[k].0) && |table[k].1| == |table[k].0|
  }

  predicate Letters3(w: string) {
    |w| == 3 && 'a' <= w[0] <= 'z' && 'a' <= w[1] <= 'z' && 'a' <= w[2] <= 'z'
  }

  lemma LettersWord(w: string)
    requires Letters3(w)
    ensures Word(w)
  {
  }

  lemma MonthTableWords()
    ensures WordTable(MonthTable)
  {
    forall k | 0 <= k < |MonthTable|
      ensures Word(MonthTable[k].0) && |MonthTable[k].1| == |MonthTable[k].0|
    {
      assert Letters3(MonthTable[k].0) && |MonthTable[k].1| == 3;
      LettersWord(MonthTable[k].0);
    }
  }

  /** The substitutions of `table` from entry `i` on, in order. */
  function Translated(t: string, table: seq<(string, string)>, i: nat): string
    requires i <= |table|
    decreases |table| - i
  {
    if i == |table| then t else Translated(SubWord(t, table[i].0, table[i].1), table, i + 1)
  }

  /** The substitutions keep the length of the text. */
  lemma {:induction false} TranslatedLength(t: string, table: seq<(string, string)>, i: nat)
    requires WordTable(table) && i <= |table|
    ensures |Translated(t, table, i)| == |t|
    decreases |table| - i
  {
    if i < |table| {
      SubWordLength(t, table[i].0, table[i].1, false);
      TranslatedLength(SubWord(t, table[i].0, table[i].1), table, i + 1);
    }
  }

  /** An entry mapping a word to itself is skipped. */
  lemma SkipSame(t: string, table: seq<(string, string)>, i: nat)
    requires i < |table| && table[i].0 == table[i].1
    ensures Translated(t, table, i) == Translated(t, table, i + 1)
  {
    SubWordSame(t, table[i].0, false);
  }

  /** The shape of `MonthTable` the effect lemma needs: twelve entries of
      which only 2, 4 and 9 map a word to a different text. */
  predicate MonthShape(table: seq<(string, string)>) {
    |table| == 12
    && table[2] == ("mrt", "mar") && table[4] == ("mei", "may") && table[9] == ("okt", "oct")
    && table[0].0 == table[0].1 && table[1].0 == table[1].1 && table[3].0 == table[3].1
    && table[5].0 == table[5].1 && table[6].0 == table[6].1 && table[7].0 == table[7].1
    && table[8].0 == table[8].1 && table[10].0 == table[10].1 && table[11].0 == table[11].1
  }

  lemma MonthShapeHolds()
    ensures MonthShape(MonthTable)
  {
  }

  /** One substitution step of `Translated`. */
  lemma TranslatedStep(t: string, table: seq<(string, string)>, i: nat)
    requires i < |table|
    ensures Translated(t, table, i) == Translated(SubWord(t, table[i].0, table[i].1), table, i + 1)
  {
  }

  /** A run of entries that map words to themselves is skipped. */
  lemma {:induction false} SkipRange(t: string, table: seq<(string, string)>, i: nat, j: nat)
    requires i <= j <= |table|
    requires forall k | i <= k < j :: table[k].0 == table[k].1
    ensures Translated(t, table, i) == Translated(t, table, j)
    decreases j - i
  {
    if i < j {
      SkipSame(t, table, i);
      SkipRange(t, table, i + 1, j);
    }
  }

  lemma ShapeEffect(t: string, table: seq<(string, string)>)
    requires MonthShape(table)
    ensures Translated(t, table, 0) == SubWord(SubWord(SubWord(t, "mrt", "mar"), "mei", "may"), "okt", "oct")
  {
    var a := SubWord(t, "mrt", "mar");
    var b := SubWord(a, "mei", "may");
    var c := SubWord(b, "okt", "oct");
    SkipRange(t, table, 0, 2);
    TranslatedStep(t, table, 2);
    assert Translated(t, table, 2) == Translated(a, table, 3);
    SkipSame(a, table, 3);
    TranslatedStep(a, table, 4);
    assert Translated(a, table, 4) == Translated(b, table, 5);
    SkipRange(b, table, 5, 9);
    TranslatedStep(b, table, 9);
    assert Translated(b, table, 9) == Translated(c, table, 10);
    SkipRange(c, table, 10, 12);
  }

  /** Of the twelve substitutions only `mrt`, `mei` and `okt` change
      anything. */
  lemma MonthTableEffect(t: string)
    ensures Translated(t, MonthTable, 0) == SubWord(SubWord(SubWord(t, "mrt", "mar"), "mei", "may"), "okt", "oct")
  {
    MonthShapeHolds();
    ShapeEffect(t, MonthTable);
  }

  /** The twelve substitutions keep the length of the text. */
  lemma MonthTableLength(t: string)
    ensures |Translated(t, MonthTable, 0)| == |t|
  {
    MonthTableWords();
    TranslatedLength(t, MonthTable, 0);
  }

  // ---------------------------------------------------------------------
  // `robust_datetime_parser`

  /** `str.isdigit()` on ASCII text (false for the empty string). */
  predicate IsDigitText(t: string) {
    t != "" && AllDigits(t)
  }

  /** `timestamp.isdigit() or (timestamp.replace('.', '', 1).isdigit() and
      timestamp.count('.') < 2)`. */
  predicate NumericText(t: string) {
    IsDigitText(t) || (IsDigitText(ReplaceFirst(t, ".", "")) && CountChar(t, '.') < 2)
  }

  lemma {:induction false} CountDigits(s: string)
    requires AllDigits(s)
    ensures CountChar(s, '.') == 0
    decreases |s|
  {
    if s != [] {
      CountDigits(s[1..]);
    }
  }

  /** The first occurrence of a character in a text holding it. */
  lemma FirstChar(t: string, c: char)
    requires c in t
    ensures 0 <= Find(t, [c]) < |t| && t[Find(t, [c])] == c
    ensures forall j | 0 <= j < Find(t, [c]) :: t[j] != c
  {
    ContainsChar(t, c);
    FindFirst(t, [c]);
    var i := Find(t, [c]);
    assert OccursAt(t, [c], i);
    assert t[i] == t[i..i + 1][0];
    forall j | 0 <= j < i ensures t[j] != c {
      assert !OccursAt(t, [c], j);
      assert t[j..j + 1] == [t[j]];
    }
  }

  /** The first `.` of a text holding one. */
  lemma FirstDot(t: string)
    requires '.' in t
    ensures 0 <= Find(t, ".") < |t| && t[Find(t, ".")] == '.'
    ensures forall j | 0 <= j < Find(t, ".") :: t[j] != '.'
  {
    assert "." == ['.'];
    FirstChar(t, '.');
  }

  /** Digits, a `.` at `i` and digits, with at least one digit in all. */
  predicate DottedDigits(t: string, i: int) {
    0 <= i < |t| && t[i] == '.' && AllDigits(t[..i]) && AllDigits(t[i + 1..]) && |t| >= 2
  }

  /** A numeric text that is not all digits has the dotted shape, at its
      first `.`. */
  lemma NumericIsDotted(t: string)
    requires NumericText(t) && !IsDigitText(t)
    ensures '.' in t && DottedDigits(t, Find(t, "."))
  {
    ContainsChar(t, '.');
    FindFirst(t, ".");
    FirstDot(t);
    var i := Find(t, ".");
    var u := ReplaceFirst(t, ".", "");
    assert u == t[..i] + t[i + 1..];
    assert t[..i] == u[..i];
    assert t[i + 1..] == u[i..];
  }

  /** The dotted shape passes the numeric test, and its `.` is the first. */
  lemma DottedIsNumeric(t: string, i: int)
    requires DottedDigits(t, i)
    ensures NumericText(t) && '.' in t && Find(t, ".") == i
  {
    FirstDot(t);
    var u := ReplaceFirst(t, ".", "");
    assert u == t[..i] + t[i + 1..];
    assert t == t[..i] + (['.'] + t[i + 1..]);
    CountAppend(t[..i], ['.'] + t[i + 1..], '.');
    CountDigits(t[..i]);
    CountDigits(t[i + 1..]);
    assert (['.'] + t[i + 1..])[1..] == t[i + 1..];
  }

  /** The numeric test accepts exactly a digit string, or digits, one `.`
      and digits with at least one digit in all. */
  lemma NumericTextIff(t: string)
    ensures NumericText(t) <==> IsDigitText(t) || exists i :: DottedDigits(t, i)
  {
    if NumericText(t) && !IsDigitText(t) {
      NumericIsDotted(t);
    }
    if exists i :: DottedDigits(t, i) {
      var i :| DottedDigits(t, i);
      DottedIsNumeric(t, i);
    }
  }

  /** The digits before the `.` (all of them without one), which
      `int(float(timestamp))` yields. */
  function IntPart(t: string): string {
    if '.' in t then
      FirstDot(t);
      t[..Find(t, ".")]
    else t
  }

  /** The digits after the `.`, which `int(float(...))` drops. */
  function FracPart(t: string): string {
    if '.' in t then
      FirstDot(t);
      t[Find(t, ".") + 1..]
    else ""
  }

  lemma NumericParts(t: string)
    requires NumericText(t)
    ensures AllDigits(IntPart(t)) && AllDigits(FracPart(t))
  {
    if !IsDigitText(t) {
      NumericIsDotted(t);
    } else {
      ContainsChar(t, '.');
    }
  }

  /** Below 2^33 seconds with at most six fractional digits the `float`
      holds the integer part exactly and rounds no fraction up to the
      next integer, so `int(float(t))` is the integer part. */
  predicate ExactFloat(t: string)
    requires NumericText(t)
  {
    NumericParts(t);
    DigitsValue(IntPart(t)) < 0x2_0000_0000 && |FracPart(t)| <= 6
  }

  /** The seconds of a numeric text: its fraction truncated. */
  function EpochSeconds(t: string): nat
    requires NumericText(t)
  {
    NumericParts(t);
    DigitsValue(IntPart(t))
  }

  /** What `robust_datetime_parser(x)` returns, where `later` stands for the
      `dateutil` and `strptime` stages applied to the month-translated text.
      `None` marks a numeric text outside the domain where the `float`
      conversion is exact (there the source may also raise). */
  function RobustDatetime(x: Json, later: string -> string): Option<string> {
    var t := Lower(Strip(PyStr(x)));
    if t == "" then Some("")
    else if NumericText(t) then
      if ExactFloat(t) then Some(EpochToIso(EpochSeconds(t))) else None
    else Some(later(Translated(t, MonthTable, 0)))
  }

  /** `robust_datetime_parser(timestamp)`. */
  method RobustDatetimeParser(x: Json, later: string -> string) returns (r: Option<string>)
    ensures r == RobustDatetime(x, later)
  {
    var t := Lower(Strip(PyStr(x)));
    if t == "" {
      return Some("");
    }
    if NumericText(t) {
      if !ExactFloat(t) {
        return None;
      }
      return Some(EpochToIso(EpochSeconds(t)));
    }
    ghost var t0 := t;
    for i := 0 to |MonthTable|
      invariant Translated(t0, MonthTable, 0) == Translated(t, MonthTable, i)
    {
      t := SubWord(t, MonthTable[i].0, MonthTable[i].1);
    }
    return Some(later(t));
  }

  /** Text that is empty after stripping gives `""`. */
  lemma BlankGivesEmpty(x: Json, later: string -> string)
    requires forall i | 0 <= i < |PyStr(x)| :: IsSpace(PyStr(x)[i])
    ensures RobustDatetime(x, later) == Some("")
  {
  }

  lemma LowerKeeps(s: string)
    requires forall i | 0 <= i < |s| :: !('A' <= s[i] <= 'Z')
    ensures Lower(s) == s
  {
  }

  /** Digits and dots only. */
  predicate DigitsAndDots(t: string) {
    forall i | 0 <= i < |t| :: IsDigit(t[i]) || t[i] == '.'
  }

  /** Such a text is its own strip and its own lower case. */
  lemma PlainText(t: string)
    requires t != "" && DigitsAndDots(t)
    ensures Lower(Strip(t)) == t
  {
    assert !IsSpace(t[0]) && !IsSpace(t[|t| - 1]);
    Records.NoSpaceStrip(t);
    LowerKeeps(t);
  }

  /** The text `a.b` is its own strip and lower case, passes the numeric
      test and splits back into `a` and `b`. */
  lemma DottedText(a: string, b: string)
    requires AllDigits(a) && AllDigits(b) && a + b != ""
    ensures var t := a + "." + b;
      Lower(Strip(t)) == t && NumericText(t) && IntPart(t) == a && FracPart(t) == b
  {
    var t := a + "." + b;
    assert t[|a|] == '.' && t[..|a|] == a && t[|a| + 1..] == b;
    assert DottedDigits(t, |a|);
    DottedIsNumeric(t, |a|);
    forall i | 0 <= i < |t| ensures IsDigit(t[i]) || t[i] == '.' {
      if i < |a| {
        assert t[i] == t[..|a|][i];
      } else if i > |a| {
        assert t[i] == t[|a| + 1..][i - |a| - 1];
      }
    }
    PlainText(t);
  }

  /** A numeric text in the exact domain takes the epoch branch. */
  lemma NumericBranch(x: Json, later: string -> string)
    requires var t := Lower(Strip(PyStr(x))); t != "" && NumericText(t) && ExactFloat(t)
    ensures RobustDatetime(x, later) == Some(EpochToIso(EpochSeconds(Lower(Strip(PyStr(x))))))
  {
  }

  /** Digits, a `.` and at most six more digits take the epoch branch
      with the fraction truncated. */
  lemma EpochBranch(a: string, b: string, later: string -> string)
    requires a != "" && AllDigits(a) && AllDigits(b) && |b| <= 6 && DigitsValue(a) < 0x2_0000_0000
    ensures RobustDatetime(Str(a + "." + b), later) == Some(EpochToIso(DigitsValue(a)))
  {
    DottedText(a, b);
    EpochText(a + "." + b, DigitsValue(a), later);
  }

  lemma EpochText(t: string, n: nat, later: string -> string)
    requires Lower(Strip(t)) == t && t != "" && NumericText(t)
    requires EpochSeconds(t) == n && n < 0x2_0000_0000 && |FracPart(t)| <= 6
    ensures RobustDatetime(Str(t), later) == Some(EpochToIso(n))
  {
    assert PyStr(Str(t)) == t;
    NumericBranch(Str(t), later);
  }

  /** The text of that branch names exactly the second of the integer
      part, in UTC. */
  lemma EpochBranchInstant(a: string, b: string, later: string -> string)
    requires a != "" && AllDigits(a) && AllDigits(b) && |b| <= 6 && DigitsValue(a) < 0x2_0000_0000
    ensures RobustDatetime(Str(a + "." + b), later).Some?
    ensures var r := RobustDatetime(Str(a + "." + b), later).value;
      IsoShaped(r) && ValidCivil(ReadIso(r)) && Seconds(ReadIso(r)) == DigitsValue(a)
  {
    EpochBranch(a, b, later);
    EpochToIsoDenotes(DigitsValue(a));
  }

  /** An `int` below 2^33 converts as that many seconds. */
  lemma IntegerBranch(n: int, later: string -> string)
    requires 0 <= n < 0x2_0000_0000
    ensures RobustDatetime(Int(n), later) == Some(EpochToIso(n))
  {
    var t := NatToString(n);
    NatToStringValue(n);
    assert PyStr(Int(n)) == t;
    Records.NoSpaceStrip(t);
    LowerKeeps(t);
    assert NumericText(t);
    ContainsChar(t, '.');
    assert '.' !in t;
    NumericParts(t);
  }

  /** Any other non-blank text reaches the later stages with only the
      whole words `mrt`, `mei` and `okt` translated. */
  lemma WordBranch(x: Json, later: string -> string)
    requires Lower(Strip(PyStr(x))) != "" && !NumericText(Lower(Strip(PyStr(x))))
    ensures var t := Lower(Strip(PyStr(x)));
      RobustDatetime(x, later) == Some(later(SubWord(SubWord(SubWord(t, "mrt", "mar"), "mei", "may"), "okt", "oct")))
  {
    MonthTableEffect(Lower(Strip(PyStr(x))));
  }
}
