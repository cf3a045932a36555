/** What the widget's state promises: marker removal by type, the reading
    of a zero index, the placement codec's round trips in both directions,
    and the square names. */
module BoardStateFacts {
  import opened Wrappers
  import opened Text
  import opened BoardState

  /* ---------- markers ---------- */

  /** The markers left when only a type is given, as a reference: every
      marker of that type goes, and so does a marker with neither index nor
      type (its missing index equals the missing argument); the rest stay
      in order. */
  function WithoutKind(ms: seq<Marker>, t: nat): seq<Marker> {
    if |ms| == 0 then []
    else
      (if ms[0].kind == Some(t) || ms[0] == Marker(None, None) then [] else [ms[0]])
      + WithoutKind(ms[1..], t)
  }

  lemma {:induction false} WithoutKindSnoc(ms: seq<Marker>, m: Marker, t: nat)
    ensures WithoutKind(ms + [m], t) ==
      WithoutKind(ms, t) + (if m.kind == Some(t) || m == Marker(None, None) then [] else [m])
  {
    if |ms| == 0 {
      assert ms + [m] == [m];
      assert [m][1..] == [];
    } else {
      assert (ms + [m])[1..] == ms[1..] + [m];
      WithoutKindSnoc(ms[1..], m, t);
    }
  }

  /** `removeMarkers(undefined, type)` removes exactly the markers of that
      type (and those with neither index nor type) and keeps the others in
      order, under either reading of the index. */
  lemma {:induction false} RemoveKindOnly(ms: seq<Marker>, t: nat, rd: Reading)
    ensures KeptMarkers(ms, None, Some(t), rd) == WithoutKind(ms, t)
  {
    if |ms| > 0 {
      var init := ms[..|ms| - 1];
      RemoveKindOnly(init, t, rd);
      assert ms == init + [ms[|ms| - 1]];
      WithoutKindSnoc(init, ms[|ms| - 1], t);
    }
  }

  /** The two readings of `removeMarkers` differ only for square 0. */
  lemma {:induction false} ReadingsAgree(ms: seq<Marker>, index: Option<int>, kind: Option<nat>)
    requires index != Some(0)
    ensures KeptMarkers(ms, index, kind, AsWritten) == KeptMarkers(ms, index, kind, Intended)
  {
    if |ms| > 0 {
      ReadingsAgree(ms[..|ms| - 1], index, kind);
    }
  }

  /** Removing with the index and type a marker was just added with takes
      it off again and leaves the markers as they were filtered before. */
  lemma AddThenRemove(w: Widget, i: int, t: nat, rd: Reading)
    requires IndexGiven(Some(i), rd)
    ensures RemoveMarkers(AddMarker(w, Some(i), Some(t)), Some(i), Some(t), rd) ==
      RemoveMarkers(w, Some(i), Some(t), rd)
  {
    var ms := w.markers + [Marker(Some(i), Some(t))];
    assert ms[..|ms| - 1] == w.markers;
  }

  /** As written, `removeMarkers(0)` clears markers on other squares. */
  lemma RemoveAtZeroAsWritten()
    ensures var w := AddMarker(Initial, Some(5), Some(1));
      && Marker(Some(5), Some(1)) in w.markers
      && RemoveMarkers(w, Some(0), None, AsWritten).markers == []
  {
    var w := AddMarker(Initial, Some(5), Some(1));
    assert w.markers == [Marker(Some(5), Some(1))];
  }

  /** As intended, a call that names a square removes only markers added
      with that square. */
  lemma RemoveAtSquareOnly(w: Widget, i: int, kind: Option<nat>)
    ensures forall m | m in w.markers && m.index != Some(i) :: m in RemoveMarkers(w, Some(i), kind, Intended).markers
  {
  }

  /* ---------- the placement codec: text to squares to text ---------- */

  /** A character a canonical rank uses for a piece: an ASCII letter. */
  predicate PieceLetter(c: char) {
    IsUpper(c) || IsLower(c)
  }

  /** Rank text made of piece letters and the digits 1 to 8. */
  predicate RankChars(s: string) {
    forall i | 0 <= i < |s| :: PieceLetter(s[i]) || '1' <= s[i] <= '8'
  }

  /** No two digits next to each other. */
  predicate SingleDigits(s: string) {
    forall i | 0 <= i < |s| - 1 :: !(IsDigit(s[i]) && IsDigit(s[i + 1]))
  }

  /** A rank as a canonical FEN writes it: piece letters and single digits
      spelling exactly eight squares. */
  predicate CanonicalRank(s: string) {
    RankChars(s) && SingleDigits(s) && |ExpandDigits(s)| == 8
  }

  /** The squares an expanded rank spells, one per character. */
  function ExpandedCells(e: string): (r: seq<Cell>)
    ensures |r| == |e|
  {
    seq(|e|, c requires 0 <= c < |e| => CellOfText([e[c]]))
  }

  lemma ExpandedCellsAppend(a: string, b: string)
    ensures ExpandedCells(a + b) == ExpandedCells(a) + ExpandedCells(b)
  {
    assert forall c | 0 <= c < |a| :: (a + b)[c] == a[c];
    assert forall c | |a| <= c < |a| + |b| :: (a + b)[c] == b[c - |a|];
  }

  /** A run of empty squares lengthens the pending count. */
  lemma {:induction false} RankTextRun(cells: seq<Cell>, n: nat, run: nat)
    requires n <= |cells| && forall c | 0 <= c < n :: cells[c].None?
    ensures RankText(cells, run) == RankText(cells[n..], run + n)
    decreases n
  {
    if n > 0 {
      RankTextRun(cells[1..], n - 1, run + 1);
      assert cells[1..][n - 1..] == cells[n..];
    }
  }

  /** The letter of a piece the codec wrote reads back as that letter. */
  lemma LetterName(l: char)
    requires PieceLetter(l)
    ensures CellOfText([l]).Some? && !Vacant(CellOfText([l]))
    ensures NameText(CellOfText([l]).value) == [l]
  {
    if IsLower(l) {
      assert UpperText([l]) == [ToUpper(l)];
    } else {
      assert UpperText([l]) == [l];
      assert LowerText([l]) == [ToLower(l)];
      assert ("w" + [ToLower(l)])[1..2] == [ToLower(l)];
      assert UpperText([ToLower(l)]) == [ToUpper(ToLower(l))];
    }
  }

  /** A single digit's count of empty squares prints as the digit. */
  lemma DigitRun(c: char)
    requires '1' <= c <= '8'
    ensures EmptyRun(DigitValue(c)) == [c]
  {
  }

  /** Encoding the squares a rank tail spells, after a pending run of
      empty squares, prints the run and then the tail. */
  lemma {:induction false} EncodeSpelled(s: string, run: nat)
    requires RankChars(s) && SingleDigits(s) && run <= 8
    requires run > 0 ==> |s| == 0 || !IsDigit(s[0])
    ensures RankText(ExpandedCells(ExpandDigits(s)), run) == EmptyRun(run) + s
  {
    if |s| > 0 {
      assert RankChars(s[1..]) && SingleDigits(s[1..]);
      if IsDigit(s[0]) {
        EncodeSpelled(s[1..], DigitValue(s[0]));
        DigitStep(s);
      } else {
        EncodeSpelled(s[1..], 0);
        LetterStep(s, run);
      }
    }
  }

  /** A digit followed by a tail that encodes back after its run. */
  lemma DigitStep(s: string)
    requires |s| > 0 && '1' <= s[0] <= '8'
    requires RankText(ExpandedCells(ExpandDigits(s[1..])), DigitValue(s[0])) == EmptyRun(DigitValue(s[0])) + s[1..]
    ensures RankText(ExpandedCells(ExpandDigits(s)), 0) == s
  {
    var e := ExpandDigits(s[1..]);
    var d := DigitValue(s[0]);
    var dashes := ExpandedCells(Dashes(d));
    assert ExpandDigits(s) == Dashes(d) + e;
    ExpandedCellsAppend(Dashes(d), e);
    assert forall c | 0 <= c < d :: dashes[c].None?;
    RankTextRun(dashes + ExpandedCells(e), d, 0);
    assert (dashes + ExpandedCells(e))[d..] == ExpandedCells(e);
    DigitRun(s[0]);
    assert [s[0]] + s[1..] == s;
  }

  /** A first square read from a piece letter: the letter is written
      after the pending run, then the rest of the rank. */
  lemma LetterFirst(cells: seq<Cell>, run: nat, l: char, rest: string)
    requires |cells| > 0 && PieceLetter(l) && cells[0] == CellOfText([l])
    requires RankText(cells[1..], 0) == rest
    ensures RankText(cells, run) == EmptyRun(run) + ([l] + rest)
  {
    LetterName(l);
  }

  /** The squares read from a piece letter and an expanded tail: the
      letter's square, then the tail's. */
  lemma LetterCells(s: string)
    requires |s| > 0 && PieceLetter(s[0])
    ensures var cells := ExpandedCells(ExpandDigits(s));
      && |cells| > 0 && cells[0] == CellOfText([s[0]])
      && cells[1..] == ExpandedCells(ExpandDigits(s[1..]))
  {
    var e := ExpandDigits(s[1..]);
    assert ExpandDigits(s) == [s[0]] + e;
    ExpandedCellsAppend([s[0]], e);
  }

  /** A non-empty text is its first character and the rest. */
  lemma HeadTail(s: string)
    requires |s| > 0
    ensures [s[0]] + s[1..] == s
  {
  }

  /** A piece letter followed by a tail that encodes back. */
  lemma LetterStep(s: string, run: nat)
    requires |s| > 0 && PieceLetter(s[0])
    requires RankText(ExpandedCells(ExpandDigits(s[1..])), 0) == s[1..]
    ensures RankText(ExpandedCells(ExpandDigits(s)), run) == EmptyRun(run) + s
  {
    LetterCells(s);
    LetterFirst(ExpandedCells(ExpandDigits(s)), run, s[0], s[1..]);
    HeadTail(s);
  }

  /** Reading a canonical rank and writing the squares back gives the rank. */
  lemma RankRoundTrip(s: string)
    requires CanonicalRank(s)
    ensures RankText(RankCells(s), 0) == s
  {
    var e := ExpandDigits(s);
    assert RankCells(s) == ExpandedCells(e);
    EncodeSpelled(s, 0);
  }

  /** Piece letters and digits are neither '/' nor white space. */
  lemma RankAvoids(s: string)
    requires RankChars(s)
    ensures Avoids(s, Separators)
  {
  }

  /** Every white-space character separates. */
  lemma SpaceSeparates(c: char)
    requires IsSpace(c)
    ensures c in Separators && c != '/'
  {
  }

  lemma {:induction false} JoinAvoids(parts: seq<string>, sep: char, cs: set<char>)
    requires |parts| >= 1 && sep !in cs
    requires forall k | 0 <= k < |parts| :: Avoids(parts[k], cs)
    ensures Avoids(Join(parts, sep), cs)
  {
    if |parts| >= 2 {
      JoinAvoids(parts[1..], sep, cs);
    }
  }

  /** Eight ranks of piece letters and digits, joined with '/', are split
      back into those ranks, and trimming leaves them alone. */
  lemma PlacementParts(ranks: seq<string>)
    requires |ranks| == 8 && forall k | 0 <= k < 8 :: RankChars(ranks[k]) && |ranks[k]| > 0
    ensures Join(ranks, '/') != "" && Parts(Join(ranks, '/')) == ranks
  {
    var p := Join(ranks, '/');
    forall k | 0 <= k < 8 ensures Avoids(ranks[k], Separators) {
      RankAvoids(ranks[k]);
    }
    JoinAvoids(ranks, '/', Separators - {'/'});
    assert |p| > 0 by {
      assert |p| >= |ranks[0]|;
    }
    if IsSpace(p[0]) { SpaceSeparates(p[0]); }
    if IsSpace(p[|p| - 1]) { SpaceSeparates(p[|p| - 1]); }
    assert Trim(p) == p;
    SplitJoinAmong(ranks, '/', Separators);
  }

  /** The squares `setPosition` writes from eight fields. */
  function Written(parts: seq<string>): (r: Squares)
    requires |parts| >= 8
  {
    seq(64, i requires 0 <= i < 64 => RankCells(parts[7 - i / 8])[i % 8])
  }

  /** Reading rank `k` from the top out of the written squares gives the
      squares of field `k`. */
  lemma WrittenRank(parts: seq<string>, k: nat)
    requires |parts| >= 8 && k < 8
    ensures Written(parts)[8 * (7 - k) .. 8 * (7 - k) + 8] == RankCells(parts[k])
  {
    var sq := Written(parts);
    forall c | 0 <= c < 8 ensures sq[8 * (7 - k) + c] == RankCells(parts[k])[c] {
      var i := 8 * (7 - k) + c;
      assert i / 8 == 7 - k && i % 8 == c;
    }
  }

  /** `getPosition()` after `setPosition(p)` gives `p` back, for every
      placement of eight canonical ranks. */
  lemma PlacementRoundTrip(w: Widget, ranks: seq<string>)
    requires |ranks| == 8 && forall k | 0 <= k < 8 :: CanonicalRank(ranks[k])
    ensures SetPosition(w, Join(ranks, '/')).Ok?
    ensures GetPosition(SetPosition(w, Join(ranks, '/')).value) == Join(ranks, '/')
  {
    assert forall k | 0 <= k < 8 :: |ranks[k]| > 0;
    PlacementParts(ranks);
    var w' := w.(squares := Written(ranks));
    assert SetPosition(w, Join(ranks, '/')) == Ok(w');
    WrittenRanks(w', ranks);
  }

  /** The ranks read from squares written from canonical ranks are those
      ranks. */
  lemma WrittenRanks(w: Widget, ranks: seq<string>)
    requires |ranks| == 8 && forall k | 0 <= k < 8 :: CanonicalRank(ranks[k])
    requires w.squares == Written(ranks)
    ensures GetPosition(w) == Join(ranks, '/')
  {
    forall k | 0 <= k < 8 ensures RankFromTop(w, k) == ranks[k] {
      WrittenRank(ranks, k);
      RankRoundTrip(ranks[k]);
    }
    assert seq(8, k requires 0 <= k < 8 => RankFromTop(w, k)) == ranks;
  }

  /* ---------- the placement codec: squares to text to squares ---------- */

  /** A square as `setPosition` leaves it for a piece letter: nothing, or
      "w" or "b" followed by a lower-case letter. */
  predicate CanonicalCell(c: Cell) {
    c.None? || (|c.value| == 2 && c.value[0] in "wb" && IsLower(c.value[1]))
  }

  /** The character an expanded rank holds for a canonical square. */
  function CellChar(c: Cell): char
    requires CanonicalCell(c)
  {
    if c.None? then '-' else if c.value[0] == 'w' then ToUpper(c.value[1]) else c.value[1]
  }

  function CellChars(cells: seq<Cell>): (r: string)
    requires forall i | 0 <= i < |cells| :: CanonicalCell(cells[i])
    ensures |r| == |cells|
  {
    seq(|cells|, i requires 0 <= i < |cells| => CellChar(cells[i]))
  }

  /** The name of a canonical piece prints as its letter. */
  lemma CellName(c: Cell)
    requires CanonicalCell(c) && c.Some?
    ensures !Vacant(c) && NameText(c.value) == [CellChar(c)] && PieceLetter(CellChar(c))
  {
    assert c.value[..1] == [c.value[0]] && c.value[1..2] == [c.value[1]];
    assert UpperText([c.value[1]]) == [ToUpper(c.value[1])];
  }

  /** A canonical square's character reads back as that square. */
  lemma CellCharRoundTrip(c: Cell)
    requires CanonicalCell(c)
    ensures CellOfText([CellChar(c)]) == c
  {
    if c.Some? {
      var l := c.value[1];
      assert [c.value[0], l] == c.value;
      if c.value[0] == 'w' {
        assert UpperText([ToUpper(l)]) == [ToUpper(l)];
        assert LowerText([ToUpper(l)]) == [ToLower(ToUpper(l))];
        CaseRoundTrip(ToUpper(l));
        assert "w" + [l] == c.value;
      } else {
        assert CellChar(c) == l && ToUpper(l) != l;
        assert UpperText([l]) == [ToUpper(l)] != [l];
        assert "b" + [l] == c.value;
      }
    }
  }

  lemma {:induction false} ExpandDigitsAppend(a: string, b: string)
    ensures ExpandDigits(a + b) == ExpandDigits(a) + ExpandDigits(b)
  {
    if |a| > 0 {
      assert (a + b)[1..] == a[1..] + b;
      ExpandDigitsAppend(a[1..], b);
    } else {
      assert a + b == b;
    }
  }

  /** Expanding the text of canonical squares, after a pending run of
      empty ones, gives a dash for each empty square and each piece's
      letter; the text uses piece letters and digits 1 to 8 only. */
  lemma {:induction false} ExpandRankText(cells: seq<Cell>, run: nat)
    requires forall i | 0 <= i < |cells| :: CanonicalCell(cells[i])
    requires run + |cells| <= 8
    ensures ExpandDigits(RankText(cells, run)) == Dashes(run) + CellChars(cells)
    ensures RankChars(RankText(cells, run))
  {
    if |cells| == 0 {
      RunExpands(run);
    } else if cells[0].None? {
      ExpandRankText(cells[1..], run + 1);
      VacantExpands(cells, run);
    } else {
      ExpandRankText(cells[1..], 0);
      PieceExpands(cells, run);
    }
  }

  /** An empty first square joins the pending run: the dashes move from
      the square's character into the run. */
  lemma VacantExpands(cells: seq<Cell>, run: nat)
    requires |cells| > 0 && cells[0].None?
    requires forall i | 0 <= i < |cells| :: CanonicalCell(cells[i])
    requires ExpandDigits(RankText(cells[1..], run + 1)) == Dashes(run + 1) + CellChars(cells[1..])
    ensures ExpandDigits(RankText(cells, run)) == Dashes(run) + CellChars(cells)
  {
    assert RankText(cells, run) == RankText(cells[1..], run + 1);
    assert CellChars(cells) == ['-'] + CellChars(cells[1..]);
    assert Dashes(run + 1) == Dashes(run) + ['-'];
  }

  /** A pending run prints as the digit that expands back to it. */
  lemma RunExpands(run: nat)
    requires run <= 8
    ensures ExpandDigits(EmptyRun(run)) == Dashes(run) && RankChars(EmptyRun(run))
  {
    if run > 0 {
      assert EmptyRun(run) == [DigitChar(run)];
      assert ExpandDigits([DigitChar(run)]) == Dashes(run) + "";
    }
  }

  /** A piece after a pending run: the run's digit, the piece's letter,
      then the rest. */
  lemma PieceExpands(cells: seq<Cell>, run: nat)
    requires |cells| > 0 && cells[0].Some?
    requires forall i | 0 <= i < |cells| :: CanonicalCell(cells[i])
    requires run + |cells| <= 8
    requires ExpandDigits(RankText(cells[1..], 0)) == CellChars(cells[1..])
    requires RankChars(RankText(cells[1..], 0))
    ensures ExpandDigits(RankText(cells, run)) == Dashes(run) + CellChars(cells)
    ensures RankChars(RankText(cells, run))
  {
    PieceText(cells, run);
    RunBeforeLetter(run, CellChar(cells[0]), RankText(cells[1..], 0));
    CellCharsCons(cells);
  }

  lemma CellCharsCons(cells: seq<Cell>)
    requires |cells| > 0 && forall i | 0 <= i < |cells| :: CanonicalCell(cells[i])
    ensures CellChars(cells) == [CellChar(cells[0])] + CellChars(cells[1..])
  {
  }

  /** A run's digit, a letter, then more text: the digit expands, the
      letter and the text stay as they are. */
  lemma RunBeforeLetter(run: nat, letter: char, rest: string)
    requires run <= 8 && PieceLetter(letter) && RankChars(rest)
    ensures ExpandDigits(EmptyRun(run) + [letter] + rest) == Dashes(run) + ([letter] + ExpandDigits(rest))
    ensures RankChars(EmptyRun(run) + [letter] + rest)
  {
    RunExpands(run);
    LetterExpands(letter);
    var e := EmptyRun(run);
    ExpandDigitsAppend(e + [letter], rest);
    ExpandDigitsAppend(e, [letter]);
    assert Dashes(run) + [letter] + ExpandDigits(rest) == Dashes(run) + ([letter] + ExpandDigits(rest));
    AppendChars(e, [letter]);
    AppendChars(e + [letter], rest);
  }

  lemma LetterExpands(letter: char)
    requires PieceLetter(letter)
    ensures ExpandDigits([letter]) == [letter] && RankChars([letter])
  {
    assert [letter][1..] == [];
  }

  /** The text of squares that start with a piece. */
  lemma PieceText(cells: seq<Cell>, run: nat)
    requires |cells| > 0 && cells[0].Some? && CanonicalCell(cells[0])
    ensures RankText(cells, run) == EmptyRun(run) + [CellChar(cells[0])] + RankText(cells[1..], 0)
    ensures PieceLetter(CellChar(cells[0]))
  {
    CellName(cells[0]);
  }

  lemma AppendChars(a: string, b: string)
    requires RankChars(a) && RankChars(b)
    ensures RankChars(a + b)
  {
    assert forall i | 0 <= i < |a| :: (a + b)[i] == a[i];
    assert forall i | |a| <= i < |a| + |b| :: (a + b)[i] == b[i - |a|];
  }

  /** Reading back the text of eight canonical squares gives them back. */
  lemma CellsRoundTrip(cells: seq<Cell>)
    requires |cells| == 8 && forall i | 0 <= i < 8 :: CanonicalCell(cells[i])
    ensures RankCells(RankText(cells, 0)) == cells
    ensures RankChars(RankText(cells, 0)) && |RankText(cells, 0)| > 0
  {
    ExpandRankText(cells, 0);
    var e := ExpandDigits(RankText(cells, 0));
    assert e == CellChars(cells);
    forall c | 0 <= c < 8 ensures RankCells(RankText(cells, 0))[c] == cells[c] {
      assert CharAt(e, c) == [CellChar(cells[c])];
      CellCharRoundTrip(cells[c]);
    }
  }

  /** `setPosition(getPosition())` restores every square, when each holds
      nothing or a colour letter and a lower-case piece letter; the markers
      stay. */
  lemma SquaresRoundTrip(w: Widget, w0: Widget)
    requires forall i | 0 <= i < 64 :: CanonicalCell(w.squares[i])
    ensures SetPosition(w0, GetPosition(w)) == Ok(w0.(squares := w.squares))
  {
    var ranks := seq(8, k requires 0 <= k < 8 => RankFromTop(w, k));
    forall k | 0 <= k < 8 ensures RankChars(ranks[k]) && |ranks[k]| > 0
      && RankCells(ranks[k]) == w.squares[8 * (7 - k) .. 8 * (7 - k) + 8]
    {
      CellsRoundTrip(w.squares[8 * (7 - k) .. 8 * (7 - k) + 8]);
    }
    PlacementParts(ranks);
    ReadRanks(w.squares, ranks);
  }

  /** Writing squares from the ranks read off them gives them back. */
  lemma ReadRanks(sq: Squares, ranks: seq<string>)
    requires |ranks| == 8
    requires forall k | 0 <= k < 8 :: RankCells(ranks[k]) == sq[8 * (7 - k) .. 8 * (7 - k) + 8]
    ensures Written(ranks) == sq
  {
    forall i | 0 <= i < 64 ensures Written(ranks)[i] == sq[i] {
      var k := 7 - i / 8;
      assert 8 * (7 - k) + i % 8 == i;
      assert RankCells(ranks[k])[i % 8] == sq[8 * (7 - k) .. 8 * (7 - k) + 8][i % 8];
    }
  }

  /* ---------- square names ---------- */

  /** The name of square `i`: its file letter, then its rank digit. */
  function SquareName(i: int): (r: string)
    requires 0 <= i < 64
    ensures |r| == 2 && r[0] as int == 'a' as int + i % 8 && r[1] as int == '1' as int + i / 8
  {
    ["abcdefgh"[i % 8], "12345678"[i / 8]]
  }

  /** The table of names spells each square's file and rank; the four
      lemmas below check it two ranks at a time. */
  lemma SquareNamesSpelled(i: int)
    requires 0 <= i < 64
    ensures SquareNames[i] == SquareName(i)
  {
    if i < 16 { SpelledFirstRanks(i); }
    else if i < 32 { SpelledLowerMiddle(i); }
    else if i < 48 { SpelledUpperMiddle(i); }
    else { SpelledLastRanks(i); }
  }

  lemma SpelledFirstRanks(i: int)
    requires 0 <= i < 16
    ensures SquareNames[i] == SquareName(i)
  {
    if i < 8 {} else {}
  }

  lemma SpelledLowerMiddle(i: int)
    requires 16 <= i < 32
    ensures SquareNames[i] == SquareName(i)
  {
    if i < 24 {} else {}
  }

  lemma SpelledUpperMiddle(i: int)
    requires 32 <= i < 48
    ensures SquareNames[i] == SquareName(i)
  {
    if i < 40 {} else {}
  }

  lemma SpelledLastRanks(i: int)
    requires 48 <= i < 64
    ensures SquareNames[i] == SquareName(i)
  {
    if i < 56 {} else {}
  }

  /** `squareToIndex(SQUARE_COORDINATES[i]) == i` for every square. */
  lemma NameToIndex(i: int)
    requires 0 <= i < 64
    ensures SquareToIndex(SquareNames[i]) == Some(i)
  {
    SquareNamesSpelled(i);
  }

  /** Every well-formed name is the table's entry at its index. */
  lemma IndexToName(square: string)
    requires |square| == 2 && 'a' <= square[0] <= 'h' && '1' <= square[1] <= '8'
    ensures SquareToIndex(square).Some? && SquareNames[SquareToIndex(square).value] == square
  {
    var i := SquareToIndex(square).value;
    SquareNamesSpelled(i);
    assert SquareName(i) == square;
  }
}
