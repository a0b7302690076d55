/** Two small utilities of `helpers.py`: `str_squish`, which collapses
    whitespace, and `split_dataframe`, which cuts a table into chunks of a
    given number of rows. */
module Helpers {
  import opened Text
  import Records

  // ---------------------------------------------------------------------
  // `str_squish`

  /** The length of the run of whitespace at the start of `s`. */
  function SpaceRun(s: string): (n: nat)
    ensures n <= |s|
  {
    if s == [] || !IsSpace(s[0]) then 0 else 1 + SpaceRun(s[1..])
  }

  /** The length of the run of non-whitespace at the start of `s`. */
  function WordRun(s: string): (n: nat)
    ensures n <= |s|
  {
    if s == [] || IsSpace(s[0]) then 0 else 1 + WordRun(s[1..])
  }

  /** `SpaceRun` covers whitespace only and stops at a non-whitespace
      character. */
  lemma {:induction false} SpaceRunSpec(s: string)
    ensures forall i | 0 <= i < SpaceRun(s) :: IsSpace(s[i])
    ensures SpaceRun(s) < |s| ==> !IsSpace(s[SpaceRun(s)])
    decreases |s|
  {
    if s != [] && IsSpace(s[0]) {
      SpaceRunSpec(s[1..]);
      assert forall i | 1 <= i < |s| :: s[i] == s[1..][i - 1];
    }
  }

  /** `WordRun` covers non-whitespace only and stops at whitespace. */
  lemma {:induction false} WordRunSpec(s: string)
    ensures forall i | 0 <= i < WordRun(s) :: !IsSpace(s[i])
    ensures WordRun(s) < |s| ==> IsSpace(s[WordRun(s)])
    decreases |s|
  {
    if s != [] && !IsSpace(s[0]) {
      WordRunSpec(s[1..]);
      assert forall i | 1 <= i < |s| :: s[i] == s[1..][i - 1];
    }
  }

  /** `re.sub(r'\s+', ' ', s)`: each maximal run of whitespace becomes one
      space. */
  function Collapse(s: string): string
    decreases |s|
  {
    if s == [] then []
    else if IsSpace(s[0]) then " " + Collapse(s[SpaceRun(s)..])
    else [s[0]] + Collapse(s[1..])
  }

  /** `str_squish(text)`: `re.sub(r'\s+', ' ', text).strip()`. */
  function StrSquish(text: string): (r: string)
    ensures r != [] ==> !IsSpace(r[0]) && !IsSpace(r[|r| - 1])
  {
    Strip(Collapse(text))
  }

  /** Python's `text.split()`: the maximal runs of non-whitespace. */
  function Words(s: string): seq<string>
    decreases |s|
  {
    if s == [] then []
    else if IsSpace(s[0]) then Words(s[1..])
    else [s[..WordRun(s)]] + Words(s[WordRun(s)..])
  }

  /** A word is non-empty and holds no whitespace. */
  predicate IsWord(w: string) {
    w != [] && forall i | 0 <= i < |w| :: !IsSpace(w[i])
  }

  lemma {:induction false} WordsAreWords(s: string)
    ensures forall w | w in Words(s) :: IsWord(w)
    decreases |s|
  {
    if s != [] {
      if IsSpace(s[0]) {
        WordsAreWords(s[1..]);
      } else {
        WordRunSpec(s);
        WordsAreWords(s[WordRun(s)..]);
      }
    }
  }

  /** Leading whitespace does not change the words. */
  lemma {:induction false} WordsSkipSpaces(s: string, n: nat)
    requires n <= |s| && forall i | 0 <= i < n :: IsSpace(s[i])
    ensures Words(s) == Words(s[n..])
    decreases n
  {
    if n > 0 {
      assert s[1..][n - 1..] == s[n..];
      WordsSkipSpaces(s[1..], n - 1);
    }
  }

  /** A word is copied through unchanged. */
  lemma {:induction false} CollapseWord(w: string, r: string)
    requires forall i | 0 <= i < |w| :: !IsSpace(w[i])
    ensures Collapse(w + r) == w + Collapse(r)
    decreases |w|
  {
    if w != [] {
      assert (w + r)[0] == w[0] && (w + r)[1..] == w[1..] + r;
      CollapseWord(w[1..], r);
      assert Collapse(w + r) == [w[0]] + (w[1..] + Collapse(r));
      assert w == [w[0]] + w[1..];
    } else {
      assert w + r == r;
    }
  }

  predicate EndsInSpace(s: string) {
    s != [] && IsSpace(s[|s| - 1])
  }

  /** Without leading whitespace, the collapsed text is the words joined by
      single spaces, plus one space when the text ends in whitespace. */
  lemma {:induction false} CollapseIsJoin(s: string)
    requires s == [] || !IsSpace(s[0])
    ensures Collapse(s) == Join(" ", Words(s)) + (if EndsInSpace(s) then " " else "")
    decreases |s|
  {
    if s != [] {
      var n := WordRun(s);
      if n == |s| {
        OneWord(s);
      } else {
        var r := s[n..];
        var r' := r[SpaceRun(r)..];
        SpaceRunSpec(r);
        CollapseIsJoin(r');
        WordThenMore(s);
      }
    }
  }

  /** A text that is one word collapses to itself. */
  lemma OneWord(s: string)
    requires s != [] && WordRun(s) == |s|
    ensures Collapse(s) == Join(" ", Words(s)) + (if EndsInSpace(s) then " " else "")
  {
    WordRunSpec(s);
    CollapseWord(s, []);
    assert s + [] == s;
    assert s[..|s|] == s && s[|s|..] == [];
    assert Words(s) == [s] + Words([]);
  }

  /** A word, whitespace and the rest: the step of `CollapseIsJoin`. */
  lemma WordThenMore(s: string)
    requires s != [] && !IsSpace(s[0]) && WordRun(s) < |s|
    requires var r := s[WordRun(s)..]; var r' := r[SpaceRun(r)..];
      Collapse(r') == Join(" ", Words(r')) + (if EndsInSpace(r') then " " else "")
    ensures Collapse(s) == Join(" ", Words(s)) + (if EndsInSpace(s) then " " else "")
  {
    var n := WordRun(s);
    var r := s[n..];
    var r' := r[SpaceRun(r)..];
    SplitAfterWord(s);
    SplitEnds(s);
    if r' != [] {
      SpaceRunSpec(r);
      WordsStart(r');
    }
    JoinStep(s[..n], Collapse(r'), Words(r'), if EndsInSpace(r') then " " else "",
      if EndsInSpace(s) then " " else "", Collapse(s), Words(s));
  }

  /** A text starting with a word has at least one word. */
  lemma WordsStart(x: string)
    requires x != [] && !IsSpace(x[0])
    ensures Words(x) != []
  {
  }

  /** The string algebra of `WordThenMore`. */
  lemma JoinStep(w: string, cr: string, tail: seq<string>, tr: string, ts: string, cs: string, ws: seq<string>)
    requires cs == w + " " + cr && ws == [w] + tail && cr == Join(" ", tail) + tr
    requires tail == [] ==> cr == [] && ts == " "
    requires tail != [] ==> ts == tr
    ensures cs == Join(" ", ws) + ts
  {
    if tail == [] {
      assert ws == [w];
      assert cs == w + " ";
    } else {
      JoinCons(" ", w, tail);
      assert cs == w + " " + Join(" ", tail) + tr;
    }
  }

  /** A word followed by whitespace: the collapsed text and the words. */
  lemma SplitAfterWord(s: string)
    requires s != [] && !IsSpace(s[0]) && WordRun(s) < |s|
    ensures var n := WordRun(s); var r := s[n..]; var r' := r[SpaceRun(r)..];
      Collapse(s) == s[..n] + " " + Collapse(r') && Words(s) == [s[..n]] + Words(r')
  {
    SplitCollapse(s);
    SplitWords(s);
  }

  lemma SplitCollapse(s: string)
    requires s != [] && !IsSpace(s[0]) && WordRun(s) < |s|
    ensures var n := WordRun(s); var r := s[n..]; var r' := r[SpaceRun(r)..];
      Collapse(s) == s[..n] + " " + Collapse(r')
  {
    var n := WordRun(s);
    var w, r := s[..n], s[n..];
    WordRunSpec(s);
    assert s == w + r;
    PrefixOfRun(s, n);
    CollapseWordSpace(w, r);
  }

  lemma PrefixOfRun(s: string, n: nat)
    requires n <= |s| && forall i | 0 <= i < n :: !IsSpace(s[i])
    ensures forall i | 0 <= i < |s[..n]| :: !IsSpace(s[..n][i])
  {
  }

  /** A word, then whitespace: the word, one space, and the rest collapsed. */
  lemma CollapseWordSpace(w: string, r: string)
    requires forall i | 0 <= i < |w| :: !IsSpace(w[i])
    requires r != [] && IsSpace(r[0])
    ensures Collapse(w + r) == w + " " + Collapse(r[SpaceRun(r)..])
  {
    var x := Collapse(r[SpaceRun(r)..]);
    calc {
      Collapse(w + r);
      { CollapseWord(w, r); }
      w + Collapse(r);
      { CollapseSpaces(r); }
      w + (" " + x);
      w + " " + x;
    }
  }

  lemma SplitWords(s: string)
    requires s != [] && !IsSpace(s[0]) && WordRun(s) < |s|
    ensures var n := WordRun(s); var r := s[n..]; var r' := r[SpaceRun(r)..];
      Words(s) == [s[..n]] + Words(r')
  {
    var r := s[WordRun(s)..];
    SpaceRunSpec(r);
    WordsSkipSpaces(r, SpaceRun(r));
  }

  lemma CollapseSpaces(r: string)
    requires r != [] && IsSpace(r[0])
    ensures Collapse(r) == " " + Collapse(r[SpaceRun(r)..])
  {
  }

  /** The text ends in whitespace exactly when what follows its first
      word and whitespace is empty or ends in whitespace. */
  lemma SplitEnds(s: string)
    requires s != [] && WordRun(s) < |s|
    ensures var r := s[WordRun(s)..]; var r' := r[SpaceRun(r)..];
      EndsInSpace(s) == (r' == [] || EndsInSpace(r'))
  {
    var r := s[WordRun(s)..];
    SpaceRunSpec(r);
    EndsAfter(s, r, SpaceRun(r));
  }

  lemma EndsAfter(s: string, r: string, m: nat)
    requires r != [] && |r| <= |s| && r == s[|s| - |r|..]
    requires m <= |r| && forall i | 0 <= i < m :: IsSpace(r[i])
    ensures EndsInSpace(s) == (r[m..] == [] || EndsInSpace(r[m..]))
  {
    var r' := r[m..];
    assert s[|s| - 1] == r[|r| - 1];
    if r' == [] {
      assert IsSpace(r[|r| - 1]);
    } else {
      assert r[|r| - 1] == r'[|r'| - 1];
    }
  }

  /** The words joined by single spaces neither start nor end with
      whitespace. */
  lemma {:induction false} JoinWordsEdges(ws: seq<string>)
    requires ws != [] && forall w | w in ws :: IsWord(w)
    ensures var j := Join(" ", ws); j != [] && !IsSpace(j[0]) && !IsSpace(j[|j| - 1])
    decreases |ws|
  {
    assert ws[0] in ws;
    if |ws| > 1 {
      assert forall w | w in ws[1..] :: w in ws;
      JoinWordsEdges(ws[1..]);
      var rest := Join(" ", ws[1..]);
      assert Join(" ", ws) == ws[0] + " " + rest;
      assert (ws[0] + " " + rest)[0] == ws[0][0];
    }
  }

  lemma StripSpaceFront(x: string)
    ensures Strip(" " + x) == Strip(x)
  {
    assert (" " + x)[1..] == x;
  }

  lemma {:induction false} StripSpaceBack(x: string)
    ensures Strip(x + " ") == Strip(x)
    decreases |x|
  {
    if x == [] {
      assert Strip(" ") == Strip(" "[1..]);
    } else if IsSpace(x[0]) {
      assert (x + " ")[1..] == x[1..] + " ";
      StripSpaceBack(x[1..]);
    } else {
      assert (x + " ")[..|x|] == x;
    }
  }

  /** `str_squish(text)` is `" ".join(text.split())`: the words of the
      text, in order, separated by single spaces and with no whitespace
      around them. */
  lemma StrSquishJoinsWords(text: string)
    ensures StrSquish(text) == Join(" ", Words(text))
  {
    var m := SpaceRun(text);
    var s := text[m..];
    SpaceRunSpec(text);
    WordsSkipSpaces(text, m);
    CollapseIsJoin(s);
    if m > 0 {
      assert Collapse(text) == " " + Collapse(s);
      StripSpaceFront(Collapse(s));
    }
    var j := Join(" ", Words(s));
    if EndsInSpace(s) {
      StripSpaceBack(j);
    }
    WordsAreWords(s);
    if Words(s) != [] {
      JoinWordsEdges(Words(s));
      Records.NoSpaceStrip(j);
    }
  }

  /** The shape this gives: no whitespace at either end, and every
      whitespace character of the result is a single space between two
      non-whitespace characters. */
  lemma StrSquishShape(text: string)
    ensures var r := StrSquish(text);
      (r != [] ==> !IsSpace(r[0]) && !IsSpace(r[|r| - 1]))
      && (forall i | 0 <= i < |r| && IsSpace(r[i]) :: r[i] == ' ' && 0 < i < |r| - 1 && !IsSpace(r[i - 1]) && !IsSpace(r[i + 1]))
  {
    StrSquishJoinsWords(text);
    WordsAreWords(text);
    JoinWordsSpaces(Words(text));
  }

  lemma {:induction false} JoinWordsSpaces(ws: seq<string>)
    requires forall w | w in ws :: IsWord(w)
    ensures var j := Join(" ", ws);
      forall i | 0 <= i < |j| && IsSpace(j[i]) :: j[i] == ' ' && 0 < i < |j| - 1 && !IsSpace(j[i - 1]) && !IsSpace(j[i + 1])
    decreases |ws|
  {
    if |ws| > 1 {
      assert ws[0] in ws;
      assert forall w | w in ws[1..] :: w in ws;
      JoinWordsSpaces(ws[1..]);
      JoinWordsEdges(ws[1..]);
      var w, rest := ws[0], Join(" ", ws[1..]);
      var j := Join(" ", ws);
      assert j == w + " " + rest;
      forall i | 0 <= i < |j| && IsSpace(j[i])
        ensures j[i] == ' ' && 0 < i < |j| - 1 && !IsSpace(j[i - 1]) && !IsSpace(j[i + 1])
      {
        if i < |w| {
          assert false;
        } else if i == |w| {
          assert j[i - 1] == w[|w| - 1] && j[i + 1] == rest[0];
        } else {
          var k := i - |w| - 1;
          if k == 0 {
            assert false;
          }
          assert j[i] == rest[k] && j[i - 1] == rest[k - 1] && j[i + 1] == rest[k + 1];
        }
      }
    } else if |ws| == 1 {
      assert ws[0] in ws;
    }
  }

  // ---------------------------------------------------------------------
  // `split_dataframe`

  /** `int(a / b)` for `a >= 0`: the quotient truncated toward zero. */
  function TruncDiv(a: nat, b: int): int
    requires b != 0
  {
    if b > 0 then a / b else -(a / -b)
  }

  /** Python's `a % b`: the remainder takes the sign of the divisor. */
  function PyMod(a: int, b: int): int
    requires b != 0
  {
    var r := a % b;
    if b < 0 && r != 0 then r + b else r
  }

  /** `num_splits = int(len(df) / row_count) + (len(df) % row_count > 0)`. */
  function NumSplits(n: nat, rowCount: int): int
    requires rowCount != 0
  {
    TruncDiv(n, rowCount) + (if PyMod(n, rowCount) > 0 then 1 else 0)
  }

  /** `range(num_splits)` has this many elements. */
  function Chunks(n: nat, rowCount: int): nat
    requires rowCount != 0
  {
    if NumSplits(n, rowCount) > 0 then NumSplits(n, rowCount) else 0
  }

  /** For a positive row count the number of chunks is the ceiling of
      `n / rowCount`: just enough chunks of `rowCount` rows to hold all
      `n` rows. A negative row count gives no chunks. */
  lemma ChunkCount(n: nat, rowCount: int)
    requires rowCount != 0
    ensures rowCount > 0 ==> (Chunks(n, rowCount) - 1) * rowCount < n <= Chunks(n, rowCount) * rowCount || n == Chunks(n, rowCount) == 0
    ensures rowCount > 0 ==> (Chunks(n, rowCount) == 0 <==> n == 0)
    ensures rowCount < 0 ==> Chunks(n, rowCount) == 0
  {
    if rowCount > 0 {
      ChunkCountPositive(n, rowCount, n / rowCount, n % rowCount);
    } else {
      ChunkCountNegative(n, rowCount);
    }
  }

  lemma ChunkCountPositive(n: nat, rowCount: int, q: int, r: int)
    requires rowCount > 0 && q == n / rowCount && r == n % rowCount
    ensures (Chunks(n, rowCount) - 1) * rowCount < n <= Chunks(n, rowCount) * rowCount || n == Chunks(n, rowCount) == 0
    ensures Chunks(n, rowCount) == 0 <==> n == 0
  {
    assert n == q * rowCount + r && 0 <= r < rowCount;
    assert q >= 0;
    assert PyMod(n, rowCount) == r && TruncDiv(n, rowCount) == q;
    if r > 0 {
      assert Chunks(n, rowCount) == q + 1;
      assert (q + 1) * rowCount == q * rowCount + rowCount;
      assert (q + 1 - 1) * rowCount == q * rowCount;
    } else {
      assert Chunks(n, rowCount) == q;
      if q > 0 {
        assert (q - 1) * rowCount == q * rowCount - rowCount;
      } else {
        assert n == 0;
      }
    }
  }

  lemma ChunkCountNegative(n: nat, rowCount: int)
    requires rowCount < 0
    ensures Chunks(n, rowCount) == 0
  {
    var b := -rowCount;
    assert n / b >= 0;
    var r := n % rowCount;
    assert 0 <= r < b;
    assert PyMod(n, rowCount) <= 0;
  }

  /** Where chunk `i` starts: `i * rowCount`, built up one chunk at a
      time so that the proofs below stay linear. */
  function Start(i: nat, rowCount: nat): nat {
    if i == 0 then 0 else Start(i - 1, rowCount) + rowCount
  }

  lemma {:induction false} StartIsProduct(i: nat, rowCount: nat)
    ensures Start(i, rowCount) == i * rowCount
  {
    if i > 0 {
      StartIsProduct(i - 1, rowCount);
      assert (i - 1) * rowCount + rowCount == i * rowCount;
    }
  }

  lemma {:induction false} StartMono(i: nat, j: nat, rowCount: nat)
    requires i <= j
    ensures Start(i, rowCount) <= Start(j, rowCount)
    decreases j
  {
    if i < j {
      StartMono(i, j - 1, rowCount);
    }
  }

  /** Chunk `i` starts inside the table. */
  lemma ChunkStart(n: nat, rowCount: int, i: nat)
    requires rowCount > 0 && i < Chunks(n, rowCount)
    ensures Start(i, rowCount) < n
  {
    var k := Chunks(n, rowCount);
    ChunkCount(n, rowCount);
    StartMono(i, k - 1, rowCount);
    StartIsProduct(k - 1, rowCount);
  }

  /** Chunk `i`: `df[i*row_count:(i+1)*row_count]`, a slice clamped to the
      table. */
  function Chunk<T>(rows: seq<T>, rowCount: int, i: nat): (r: seq<T>)
    requires rowCount > 0 && Start(i, rowCount) < |rows|
    ensures 0 < |r| <= rowCount
  {
    var hi := Start(i + 1, rowCount);
    rows[Start(i, rowCount)..if hi < |rows| then hi else |rows|]
  }

  /** `split_dataframe(df, row_count)` on the rows of the table. */
  function SplitDataframe<T>(rows: seq<T>, rowCount: int): (chunks: seq<seq<T>>)
    requires rowCount != 0
    ensures rowCount < 0 ==> chunks == []
    ensures forall i | 0 <= i < |chunks| :: 0 < |chunks[i]| <= rowCount
  {
    var k := Chunks(|rows|, rowCount);
    if rowCount < 0 then []
    else
      seq(k, i requires 0 <= i < k => ChunkStart(|rows|, rowCount, i); Chunk(rows, rowCount, i))
  }

  function Concat<T>(chunks: seq<seq<T>>): seq<T> {
    if chunks == [] then [] else Concat(chunks[..|chunks| - 1]) + chunks[|chunks| - 1]
  }

  /** The chunks put back together are the table; each holds between one
      and `rowCount` rows, and all but the last hold exactly `rowCount`. */
  lemma SplitDataframeSpec<T>(rows: seq<T>, rowCount: int)
    requires rowCount > 0
    ensures var chunks := SplitDataframe(rows, rowCount);
      Concat(chunks) == rows
      && (forall i | 0 <= i < |chunks| :: 0 < |chunks[i]| <= rowCount)
      && (forall i | 0 <= i < |chunks| - 1 :: |chunks[i]| == rowCount)
  {
    var chunks := SplitDataframe(rows, rowCount);
    var k := |chunks|;
    forall i | 0 <= i < k ensures 0 < |chunks[i]| <= rowCount && (i < k - 1 ==> |chunks[i]| == rowCount) {
      ChunkStart(|rows|, rowCount, i);
      if i < k - 1 {
        ChunkStart(|rows|, rowCount, i + 1);
      }
    }
    ConcatPrefix(rows, rowCount, k);
    ChunkCount(|rows|, rowCount);
    StartIsProduct(k, rowCount);
    assert chunks[..k] == chunks;
  }

  /** The first `i` chunks put together are the rows before chunk `i`
      starts, clamped to the table. */
  lemma {:induction false} ConcatPrefix<T>(rows: seq<T>, rowCount: int, i: nat)
    requires rowCount > 0 && i <= Chunks(|rows|, rowCount)
    ensures var e := Start(i, rowCount);
      Concat(SplitDataframe(rows, rowCount)[..i]) == rows[..if e < |rows| then e else |rows|]
  {
    var chunks := SplitDataframe(rows, rowCount);
    if i > 0 {
      ConcatPrefix(rows, rowCount, i - 1);
      ChunkStart(|rows|, rowCount, i - 1);
      assert chunks[..i][..i - 1] == chunks[..i - 1];
      var lo := Start(i - 1, rowCount);
      var hi := if Start(i, rowCount) < |rows| then Start(i, rowCount) else |rows|;
      assert chunks[i - 1] == rows[lo..hi];
      assert rows[..hi] == rows[..lo] + rows[lo..hi];
    } else {
      assert Concat(chunks[..0]) == [];
    }
  }
}
