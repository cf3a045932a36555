/** Writing a position with `stateToFen` and reading it back with
    `fenToState` gives the same position, for every position the engine
    can reach from a well-formed FEN. */
module FenRoundTrip {
  import opened Wrappers
  import opened Text
  import opened Pieces
  import opened Squares
  import opened Position
  import opened Fen
  import opened FenFacts
  import opened Tally

  /** Every cell is empty or holds a piece. */
  predicate CellsOk(cells: seq<int>) {
    forall i | 0 <= i < |cells| :: cells[i] == 0 || IsPiece(cells[i])
  }

  lemma LetterChar(p: int)
    requires IsPiece(p)
    ensures LetterOfPiece(p).Some?
    ensures var c := LetterOfPiece(p).value;
            PieceOfLetter(c) == Some(p) && c in "pnbrqkPNBRQK" && CharNumber(c).None?
            && GroupChar(c) && !IsDigit(c) && c != '/'
  {
    var c := LetterOfPiece(p).value;
    assert PieceOfLetter(c).Some?;
  }

  lemma ExpandLetter(c: char, rest: string, afterNumber: bool)
    requires PieceOfLetter(c).Some? && CharNumber(c).None?
    ensures ExpandRow([c] + rest, afterNumber) ==
      (if ExpandRow(rest, false).None? then None else Some([PieceOfLetter(c).value] + ExpandRow(rest, false).value))
  {
    assert ([c] + rest)[0] == c && ([c] + rest)[1..] == rest;
  }

  lemma ExpandDigit(n: nat, rest: string)
    requires 1 <= n <= 8
    ensures ExpandRow(EmptyRun(n) + rest, false) ==
      (if ExpandRow(rest, true).None? then None else Some(seq(n, _ => 0) + ExpandRow(rest, true).value))
  {
    assert EmptyRun(n) == [DigitChar(n)];
    assert (EmptyRun(n) + rest)[0] == DigitChar(n) && (EmptyRun(n) + rest)[1..] == rest;
  }

  /** Reading back the text of a rank gives its cells, with the pending
      run of `empties` empty cells in front. */
  lemma {:induction false} EncodeExpand(cells: seq<int>, empties: nat, afterNumber: bool)
    requires CellsOk(cells) && empties + |cells| <= 8
    requires afterNumber ==> empties == 0 && (|cells| == 0 || cells[0] != 0)
    ensures ExpandRow(EncodeRank(cells, empties), afterNumber) == Some(seq(empties, _ => 0) + cells)
    decreases |cells|, 2
  {
    if |cells| == 0 {
      if empties > 0 {
        ExpandDigit(empties, "");
        assert EmptyRun(empties) + "" == EmptyRun(empties);
      }
      assert seq(empties, _ => 0) + cells == seq(empties, _ => 0);
    } else if cells[0] == 0 {
      EncodeExpand(cells[1..], empties + 1, afterNumber);
      assert seq(empties + 1, _ => 0) + cells[1..] == seq(empties, _ => 0) + cells;
    } else {
      EncodeExpandPiece(cells, empties, afterNumber);
    }
  }

  lemma {:induction false} EncodeExpandPiece(cells: seq<int>, empties: nat, afterNumber: bool)
    requires CellsOk(cells) && empties + |cells| <= 8
    requires |cells| > 0 && cells[0] != 0
    requires afterNumber ==> empties == 0
    ensures ExpandRow(EncodeRank(cells, empties), afterNumber) == Some(seq(empties, _ => 0) + cells)
    decreases |cells|, 1
  {
    LetterChar(cells[0]);
    var c := LetterOfPiece(cells[0]).value;
    var tail := EncodeRank(cells[1..], 0);
    var text := EncodeRank(cells, empties);
    assert text == EmptyRun(empties) + ([c] + tail) by {
      EncodePieceText(cells, empties);
    }
    LetteredExpands(cells, afterNumber || empties > 0);
    if empties > 0 {
      assert ExpandRow(text, afterNumber) == Some(seq(empties, _ => 0) + cells) by {
        ExpandDigit(empties, [c] + tail);
      }
    } else {
      assert text == [c] + tail;
      assert seq(empties, _ => 0) + cells == cells;
    }
  }

  /** The text from a rank's first piece on reads back as its cells. */
  lemma {:induction false} LetteredExpands(cells: seq<int>, afterNumber: bool)
    requires CellsOk(cells) && |cells| <= 8
    requires |cells| > 0 && cells[0] != 0
    ensures LetterOfPiece(cells[0]).Some?
    ensures ExpandRow([LetterOfPiece(cells[0]).value] + EncodeRank(cells[1..], 0), afterNumber) == Some(cells)
    decreases |cells|, 0
  {
    LetterChar(cells[0]);
    var c := LetterOfPiece(cells[0]).value;
    var tail := EncodeRank(cells[1..], 0);
    assert ExpandRow(tail, false) == Some(cells[1..]) by {
      EncodeExpand(cells[1..], 0, false);
      assert seq(0, _ => 0) + cells[1..] == cells[1..];
    }
    assert ExpandRow([c] + tail, afterNumber) == Some([cells[0]] + cells[1..]) by {
      ExpandLetter(c, tail, afterNumber);
    }
    assert [cells[0]] + cells[1..] == cells;
  }

  lemma EncodePieceText(cells: seq<int>, empties: nat)
    requires |cells| > 0 && IsPiece(cells[0])
    ensures LetterOfPiece(cells[0]).Some?
    ensures EncodeRank(cells, empties) ==
      EmptyRun(empties) + [LetterOfPiece(cells[0]).value] + EncodeRank(cells[1..], 0)
  {
  }

  /** The characters of a rank's text are piece letters and digits 1-8. */
  lemma {:induction false} EncodeChars(cells: seq<int>, empties: nat)
    requires CellsOk(cells) && empties + |cells| <= 8
    ensures var s := EncodeRank(cells, empties);
            forall i | 0 <= i < |s| :: GroupChar(s[i])
    ensures var s := EncodeRank(cells, empties);
            1 <= |s| <= empties + |cells| || (|s| == 0 && empties + |cells| == 0)
    ensures !HasDoubleDigit(EncodeRank(cells, empties))
  {
    if |cells| == 0 {
      if empties > 0 { assert EmptyRun(empties) == [DigitChar(empties)]; }
    } else if cells[0] == 0 {
      EncodeChars(cells[1..], empties + 1);
    } else {
      LetterChar(cells[0]);
      var c := LetterOfPiece(cells[0]).value;
      EncodeChars(cells[1..], 0);
      var tail := EncodeRank(cells[1..], 0);
      if empties > 0 { assert EmptyRun(empties) == [DigitChar(empties)]; }
      assert EncodeRank(cells, empties) == (EmptyRun(empties) + [c]) + tail;
      DoubleDigitAppend(EmptyRun(empties), [c]);
      DoubleDigitAppend(EmptyRun(empties) + [c], tail);
    }
  }

  /** A rank holding a piece and at least two cells prints as at least two
      characters. */
  lemma {:induction false} EncodeLongEnough(cells: seq<int>, empties: nat, sq: int)
    requires CellsOk(cells) && empties + |cells| <= 8 && empties + |cells| >= 2
    requires 0 <= sq < |cells| && cells[sq] != 0
    ensures |EncodeRank(cells, empties)| >= 2
  {
    if cells[0] == 0 {
      EncodeLongEnough(cells[1..], empties + 1, sq - 1);
    } else {
      EncodeChars(cells[1..], 0);
      if empties > 0 { assert EmptyRun(empties) == [DigitChar(empties)]; }
    }
  }

  lemma DoubleDigitAppend(a: string, b: string)
    requires !HasDoubleDigit(a) && !HasDoubleDigit(b)
    requires |a| > 0 && |b| > 0 ==> !IsDigit(a[|a| - 1]) || !IsDigit(b[0])
    ensures !HasDoubleDigit(a + b)
  {
    var s := a + b;
    forall i | 0 <= i < |s| - 1 ensures !(IsDigit(s[i]) && IsDigit(s[i + 1])) {
      if i + 1 < |a| {
        assert s[i] == a[i] && s[i + 1] == a[i + 1];
      } else if i >= |a| {
        assert s[i] == b[i - |a|] && s[i + 1] == b[i - |a| + 1];
      }
    }
  }

  /** Reading back the text of rank `r` gives its eight cells. */
  lemma RankRoundTrip(b: Board, r: nat)
    requires r < 8 && CellsOk(b)
    ensures RowCells(RankText(b, r)) == Some(b[8 * r .. 8 * r + 8])
  {
    var cells := b[8 * r .. 8 * r + 8];
    EncodeExpand(cells, 0, false);
    assert seq(0, _ => 0) + cells == cells;
  }

  /* ---------- the position regular expression ---------- */

  function TotalLength(rs: seq<string>): nat {
    if |rs| == 0 then 0 else |rs[0]| + TotalLength(rs[1..])
  }

  predicate GroupText(s: string) {
    1 <= |s| <= 8 && forall i | 0 <= i < |s| :: GroupChar(s[i])
  }

  lemma JoinSplitOff(rs: seq<string>)
    requires |rs| >= 2
    ensures Join(rs, '/') == rs[0] + ['/'] + Join(rs[1..], '/')
  {
  }

  lemma {:induction false} TotalAtLeastCount(rs: seq<string>)
    requires forall k | 0 <= k < |rs| :: GroupText(rs[k])
    ensures TotalLength(rs) >= |rs|
  {
    if |rs| > 0 { TotalAtLeastCount(rs[1..]); }
  }

  /** `k` slash-separated groups can be read as anywhere from `k - 1` to
      one less than their total length groups, leaving a non-empty tail of
      word characters for `\w+`. */
  lemma {:induction false} JoinGroups(rs: seq<string>, n: nat)
    requires |rs| >= 1
    requires forall k | 0 <= k < |rs| :: GroupText(rs[k])
    requires |rs| - 1 <= n < TotalLength(rs)
    ensures PositionGroups(Join(rs, '/'), n)
    decreases TotalLength(rs), 2
  {
    if n == 0 {
      assert Join(rs, '/') == rs[0];
    } else if n >= |rs| && |rs[0]| >= 2 {
      GroupsFirstChar(rs, n);
    } else {
      GroupsWholeRank(rs, n);
    }
  }

  /** Read the first character of the first group as a group of its own. */
  lemma {:induction false} GroupsFirstChar(rs: seq<string>, n: nat)
    requires |rs| >= 1 && n >= 1
    requires forall k | 0 <= k < |rs| :: GroupText(rs[k])
    requires |rs| <= n < TotalLength(rs) && |rs[0]| >= 2
    ensures PositionGroups(Join(rs, '/'), n)
    decreases TotalLength(rs), 1
  {
    var rs' := [rs[0][1..]] + rs[1..];
    ShortenedGroups(rs, n);
    FirstCharStep(rs, rs', n);
  }

  /** The groups with the first character dropped are read with one
      group fewer. */
  lemma {:induction false} ShortenedGroups(rs: seq<string>, n: nat)
    requires |rs| >= 1 && n >= 1
    requires forall k | 0 <= k < |rs| :: GroupText(rs[k])
    requires |rs| <= n < TotalLength(rs) && |rs[0]| >= 2
    ensures PositionGroups(Join([rs[0][1..]] + rs[1..], '/'), n - 1)
    decreases TotalLength(rs), 0
  {
    var rs' := [rs[0][1..]] + rs[1..];
    assert rs'[1..] == rs[1..];
    assert TotalLength(rs') == TotalLength(rs) - 1;
    JoinGroups(rs', n - 1);
  }

  /** One character of the first group, then the rest. */
  lemma FirstCharStep(rs: seq<string>, rs': seq<string>, n: nat)
    requires |rs| >= 1 && n >= 1 && |rs[0]| >= 2 && GroupText(rs[0])
    requires rs' == [rs[0][1..]] + rs[1..]
    requires PositionGroups(Join(rs', '/'), n - 1)
    ensures PositionGroups(Join(rs, '/'), n)
  {
    var s := Join(rs, '/');
    assert rs'[1..] == rs[1..];
    if |rs| == 1 {
      assert s == rs[0];
    } else {
      JoinSplitOff(rs);
      JoinSplitOff(rs');
    }
    assert s[1..] == Join(rs', '/');
    assert GroupChar(s[0]);
    GroupsStep(s, n, 1);
  }

  /** Read the whole first group with its '/'. */
  lemma {:induction false} GroupsWholeRank(rs: seq<string>, n: nat)
    requires |rs| >= 1 && n >= 1
    requires forall k | 0 <= k < |rs| :: GroupText(rs[k])
    requires |rs| - 1 <= n < TotalLength(rs)
    requires n == |rs| - 1 || |rs[0]| == 1
    ensures PositionGroups(Join(rs, '/'), n)
    decreases TotalLength(rs), 1
  {
    assert |rs| >= 2;
    TailGroups(rs, n);
    WholeRankStep(rs, n);
  }

  /** The groups after the first are read with one group fewer. */
  lemma {:induction false} TailGroups(rs: seq<string>, n: nat)
    requires |rs| >= 2 && n >= 1
    requires forall k | 0 <= k < |rs| :: GroupText(rs[k])
    requires |rs| - 1 <= n < TotalLength(rs)
    requires n == |rs| - 1 || |rs[0]| == 1
    ensures PositionGroups(Join(rs[1..], '/'), n - 1)
    decreases TotalLength(rs), 0
  {
    TotalAtLeastCount(rs[1..]);
    JoinGroups(rs[1..], n - 1);
  }

  /** The first group and its '/', then the rest. */
  lemma WholeRankStep(rs: seq<string>, n: nat)
    requires |rs| >= 2 && n >= 1 && GroupText(rs[0])
    requires PositionGroups(Join(rs[1..], '/'), n - 1)
    ensures PositionGroups(Join(rs, '/'), n)
  {
    var s := Join(rs, '/');
    JoinSplitOff(rs);
    var k := |rs[0]|;
    assert s[..k] == rs[0] && s[k] == '/' && s[k + 1..] == Join(rs[1..], '/');
    GroupsSlash(s, n, k);
  }

  lemma GroupsStep(s: string, n: nat, k: int)
    requires n >= 1 && 1 <= k <= 8 && k <= |s|
    requires forall i | 0 <= i < k :: GroupChar(s[i])
    requires PositionGroups(s[k..], n - 1)
    ensures PositionGroups(s, n)
  {
  }

  lemma GroupsSlash(s: string, n: nat, k: int)
    requires n >= 1 && 1 <= k <= 8 && k < |s|
    requires forall i | 0 <= i < k :: GroupChar(s[i])
    requires s[k] == '/' && PositionGroups(s[k + 1..], n - 1)
    ensures PositionGroups(s, n)
  {
  }

  lemma {:induction false} JoinNoDoubleDigit(rs: seq<string>)
    requires |rs| >= 1
    requires forall k | 0 <= k < |rs| :: !HasDoubleDigit(rs[k])
    ensures !HasDoubleDigit(Join(rs, '/'))
  {
    if |rs| >= 2 {
      JoinNoDoubleDigit(rs[1..]);
      JoinSplitOff(rs);
      DoubleDigitAppend(rs[0], ['/']);
      DoubleDigitAppend(rs[0] + ['/'], Join(rs[1..], '/'));
    }
  }

  /* ---------- the board ---------- */

  lemma {:induction false} TotalWithLongOne(rs: seq<string>, j: int)
    requires forall k | 0 <= k < |rs| :: GroupText(rs[k])
    requires 0 <= j < |rs| && |rs[j]| >= 2
    ensures TotalLength(rs) >= |rs| + 1
  {
    if j == 0 {
      TotalAtLeastCount(rs[1..]);
    } else {
      TotalWithLongOne(rs[1..], j - 1);
    }
  }

  /** Each rank of a board prints as a group the position pattern accepts. */
  lemma RankGroup(b: Board, r: nat)
    requires r < 8 && CellsOk(b)
    ensures GroupText(RankText(b, r)) && !HasDoubleDigit(RankText(b, r))
  {
    EncodeChars(b[8 * r .. 8 * r + 8], 0);
  }

  /** The text `boardToFen` writes for a board with a white king passes
      both checks `parseFen` makes on the position field. */
  lemma BoardTextAccepted(b: Board)
    requires CellsOk(b) && exists i :: 0 <= i < 64 && b[i] == WhiteKing
    ensures PositionGroups(BoardToFen(b), 8)
    ensures !HasDoubleDigit(BoardToFen(b))
  {
    var rs := RanksTopDown(b);
    forall k | 0 <= k < 8 ensures GroupText(rs[k]) && !HasDoubleDigit(rs[k]) {
      RankGroup(b, 7 - k);
    }
    var i :| 0 <= i < 64 && b[i] == WhiteKing;
    var r := i / 8;
    assert |RankText(b, r)| >= 2 by {
      EncodeLongEnough(b[8 * r .. 8 * r + 8], 0, i % 8);
    }
    assert rs[7 - r] == RankText(b, r);
    TotalWithLongOne(rs, 7 - r);
    JoinGroups(rs, 8);
    JoinNoDoubleDigit(rs);
  }

  lemma {:induction false} OccursIn(s: string, c: char)
    requires Occurrences(s, {c}) >= 1
    ensures c in s
  {
    if s[0] != c { OccursIn(s[1..], c); }
  }

  /** The ranks `fenToBoard` reads back from `boardToFen`, first rank
      first, are the board's own. */
  lemma BoardRows(b: Board)
    requires CellsOk(b)
    ensures Split(BoardToFen(b), {'/'}) == RanksTopDown(b)
    ensures Reverse(RanksTopDown(b)) == seq(8, r requires 0 <= r < 8 => RankText(b, r))
    ensures forall r | 0 <= r < 8 :: RowCells(RankText(b, r)) == Some(b[8 * r .. 8 * r + 8])
  {
    BoardSplits(b);
    forall r | 0 <= r < 8 ensures RowCells(RankText(b, r)) == Some(b[8 * r .. 8 * r + 8]) {
      RankRoundTrip(b, r);
    }
  }

  /** Splitting the text of a board at '/' gives its ranks, top down. */
  lemma BoardSplits(b: Board)
    requires CellsOk(b)
    ensures Split(BoardToFen(b), {'/'}) == RanksTopDown(b)
  {
    var rs := RanksTopDown(b);
    forall k | 0 <= k < 8 ensures Free(rs[k], '/') {
      RankGroup(b, 7 - k);
    }
    SplitJoin(rs, '/');
  }

  /** The number of a king's letters in the ranks is the number of kings
      on the board. */
  lemma RowsKingCount(b: Board, rows: seq<string>, c: char)
    requires c == 'K' || c == 'k'
    requires |rows| == 8
    requires forall r | 0 <= r < 8 :: RowCells(rows[r]) == Some(b[8 * r .. 8 * r + 8])
    ensures LetterCount(rows, c) == Count(b, PieceOfLetter(c).value)
  {
    var p := PieceOfLetter(c).value;
    var css := RowsCells(rows);
    RowsFlatten(b, rows);
    RowsLetterCount(rows, c);
    FlattenCount(css, p);
  }

  /** The cells of the ranks, laid end to end, are the board. */
  lemma RowsFlatten(b: Board, rows: seq<string>)
    requires |rows| == 8
    requires forall r | 0 <= r < 8 :: RowCells(rows[r]) == Some(b[8 * r .. 8 * r + 8])
    ensures Flatten(RowsCells(rows)) == b
  {
    var css := RowsCells(rows);
    FlattenLength(css);
    forall i | 0 <= i < 64 ensures Flatten(css)[i] == b[i] {
      RowsFlattenAt(b, rows, i);
    }
  }

  /** One cell of the flattened ranks is the board's cell. */
  lemma RowsFlattenAt(b: Board, rows: seq<string>, i: int)
    requires |rows| == 8 && 0 <= i < 64
    requires forall r | 0 <= r < 8 :: RowCells(rows[r]) == Some(b[8 * r .. 8 * r + 8])
    ensures |Flatten(RowsCells(rows))| == 64 && Flatten(RowsCells(rows))[i] == b[i]
  {
    var css := RowsCells(rows);
    FlattenLength(css);
    FlattenIndex(css, i);
    var r := i / 8;
    assert css[r] == b[8 * r .. 8 * r + 8];
  }

  /** `fenToBoard` accepts a position field whose ranks read back as the
      ranks of a board with one king of each colour, and returns that
      board. */
  lemma ReadRows(part: string, b: Board)
    requires Count(b, WhiteKing) == 1 && Count(b, BlackKing) == 1
    requires |Split(part, {'/'})| == 8
    requires forall r | 0 <= r < 8 :: RowCells(Reverse(Split(part, {'/'}))[r]) == Some(b[8 * r .. 8 * r + 8])
    ensures FenToBoard(part) == Ok(b)
  {
    var rows := Reverse(Split(part, {'/'}));
    KingLetterOnce(part, b, 'K');
    KingLetterOnce(part, b, 'k');
    RowsBoard(rows, b);
  }

  /** A king letter that the ranks hold once occurs once in the field. */
  lemma KingLetterOnce(part: string, b: Board, c: char)
    requires c == 'K' || c == 'k'
    requires Count(b, PieceOfLetter(c).value) == 1
    requires |Split(part, {'/'})| == 8
    requires forall r | 0 <= r < 8 :: RowCells(Reverse(Split(part, {'/'}))[r]) == Some(b[8 * r .. 8 * r + 8])
    ensures LetterCount(Reverse(Split(part, {'/'})), c) == 1 && c in part
  {
    var rows := Reverse(Split(part, {'/'}));
    RowsKingCount(b, rows, c);
    LetterCountReverse(Split(part, {'/'}), c);
    SplitCount(part, '/', c);
    OccursIn(part, c);
  }

  /** The cells of eight ranks that read back as a board's, laid end to
      end, are the board. */
  lemma RowsBoard(rows: seq<string>, b: Board)
    requires |rows| == 8
    requires forall r | 0 <= r < 8 :: RowCells(rows[r]) == Some(b[8 * r .. 8 * r + 8])
    ensures seq(64, i requires 0 <= i < 64 => RowCells(rows[i / 8]).value[i % 8]) == b
  {
    var board := seq(64, i requires 0 <= i < 64 => RowCells(rows[i / 8]).value[i % 8]);
    forall i | 0 <= i < 64 ensures board[i] == b[i] {
      var r := i / 8;
      assert RowCells(rows[r]).value == b[8 * r .. 8 * r + 8];
    }
  }

  /** `fenToBoard` reads back the board `boardToFen` wrote, for any board
      of pieces with one king of each colour. */
  lemma BoardRoundTrip(b: Board)
    requires CellsOk(b)
    requires Count(b, WhiteKing) == 1 && Count(b, BlackKing) == 1
    ensures FenToBoard(BoardToFen(b)) == Ok(b)
  {
    var part := BoardToFen(b);
    assert |Split(part, {'/'})| == 8
        && forall r | 0 <= r < 8 :: RowCells(Reverse(Split(part, {'/'}))[r]) == Some(b[8 * r .. 8 * r + 8]) by {
      BoardRows(b);
      forall r | 0 <= r < 8 ensures Reverse(Split(part, {'/'}))[r] == RankText(b, r) {
        assert Reverse(RanksTopDown(b))[r] == RanksTopDown(b)[7 - r];
      }
    }
    ReadRows(part, b);
  }

  /* ---------- the whole position ---------- */

  /** A position `stateToFen` writes in a form the corrected reader reads
      back: consistent, pieces only on the board, a side of "w" or "b",
      castling rights drawn from K, Q, k and q, an en-passant square (if
      any) on the third or sixth rank, and counters below 2^53, which a
      JavaScript number holds exactly and prints without an exponent. */
  predicate WellFormed(st: State) {
    && Consistent(st)
    && CellsOk(st.board)
    && (st.side == "w" || st.side == "b")
    && (forall i | 0 <= i < |st.castling| :: st.castling[i] in "KQkq")
    && (st.enPassant.Some? ==>
          && ValidSquare(st.enPassant.value)
          && (RankOf(st.enPassant.value) == 2 || RankOf(st.enPassant.value) == 5))
    && st.halfMoves < ExactLimit && st.moveCount < ExactLimit
  }

  /** A position the engine's own reader reads back: well formed, and not
      holding black's queen-side right alone, which the written castling
      check turns away. */
  predicate Canonical(st: State) {
    WellFormed(st) && st.castling != "q"
  }

  /** The castling rights a reading accepts back. */
  predicate RightsReadable(st: State, check: CastlingCheck) {
    check == Written ==> st.castling != "q"
  }

  /** The six fields `stateToFen` writes. */
  function Fields(st: State): seq<string> {
    [BoardToFen(st.board), st.side, CastlingText(st), EnPassantText(st),
     Decimal(st.halfMoves), Decimal(st.moveCount)]
  }

  lemma DigitsFree(n: nat)
    ensures Free(Decimal(n), ' ') && AllDigits(Decimal(n)) && ParseDecimal(Decimal(n)) == n
  {
    DecimalRoundTrip(n);
  }

  /** The castling field of a well-formed position has no spaces and passes
      the check, unless it is the lone "q" the written check turns away. */
  lemma CastlingTextAccepted(st: State, check: CastlingCheck)
    requires forall i | 0 <= i < |st.castling| :: st.castling[i] in "KQkq"
    ensures Free(CastlingText(st), ' ')
    ensures CastlingPasses(CastlingText(st), check) <==> RightsReadable(st, check)
  {
    CastlingAsWrittenRejectsOnlyQ(CastlingText(st));
  }

  /** A well-formed position's text splits back into its six fields, and
      all but the castling field pass their checks. */
  lemma FieldsSplit(st: State)
    requires WellFormed(st)
    ensures Split(StateToFen(st), {' '}) == Fields(st)
    ensures PositionGroups(Fields(st)[0], 8) && !HasDoubleDigit(Fields(st)[0])
    ensures SideFieldOk(Fields(st)[1]) && EnPassantFieldOk(Fields(st)[3])
    ensures CounterFieldOk(Fields(st)[4]) && CounterFieldOk(Fields(st)[5])
  {
    var f := Fields(st);
    assert StateToFen(st) == Join(f, ' ');
    BoardFieldAccepted(st);
    OtherFieldsAccepted(st);
    SplitJoin(f, ' ');
  }

  /** The fields of a well-formed position contain no spaces and each
      passes its `parseFen` check, under either castling check that
      accepts its rights. */
  lemma FieldsAccepted(st: State, check: CastlingCheck)
    requires WellFormed(st) && RightsReadable(st, check)
    ensures ParseFen(StateToFen(st), check) == Ok(Fields(st))
  {
    FieldsSplit(st);
    CastlingTextAccepted(st, check);
  }

  /** The engine's reader turns away the text it writes itself for a
      position whose only castling right is black's queen side. */
  lemma WrittenRejectsOwnQ(st: State)
    requires WellFormed(st) && st.castling == "q"
    ensures ParseFen(StateToFen(st), Written) == Err("invalid castling")
    ensures FenToState(StateToFen(st), Written) == Err("invalid castling")
  {
    FieldsSplit(st);
    CastlingTextAccepted(st, Written);
  }

  /** The position field has no spaces and passes both its checks. */
  lemma BoardFieldAccepted(st: State)
    requires WellFormed(st)
    ensures Free(Fields(st)[0], ' ') && PositionGroups(Fields(st)[0], 8) && !HasDoubleDigit(Fields(st)[0])
  {
    BoardTextFree(st.board);
    assert st.board[st.whiteKing] == WhiteKing;
    BoardTextAccepted(st.board);
  }

  /** The text of a board has no spaces. */
  lemma BoardTextFree(b: Board)
    requires CellsOk(b)
    ensures Free(BoardToFen(b), ' ')
  {
    forall k | 0 <= k < 8 ensures Free(RanksTopDown(b)[k], ' ') {
      RankGroup(b, 7 - k);
    }
    JoinFree(RanksTopDown(b), '/', ' ');
  }

  /** The side, castling, en-passant and counter fields have no spaces, and
      all but the castling field pass their checks. */
  lemma OtherFieldsAccepted(st: State)
    requires WellFormed(st)
    ensures forall k | 1 <= k < 6 :: Free(Fields(st)[k], ' ')
    ensures SideFieldOk(Fields(st)[1]) && EnPassantFieldOk(Fields(st)[3])
    ensures CounterFieldOk(Fields(st)[4]) && CounterFieldOk(Fields(st)[5])
  {
    var f := Fields(st);
    assert Free(f[3], ' ') && EnPassantFieldOk(f[3]) by {
      if st.enPassant.Some? {
        SquareParts(st.enPassant.value);
      }
    }
    DigitsFree(st.halfMoves);
    DigitsFree(st.moveCount);
    CastlingTextAccepted(st, Written);
    assert Free(f[1], ' ') && SideFieldOk(f[1]);
  }

  lemma {:induction false} JoinFree(parts: seq<string>, sep: char, c: char)
    requires |parts| >= 1 && sep != c
    requires forall k | 0 <= k < |parts| :: Free(parts[k], c)
    ensures Free(Join(parts, sep), c)
  {
    if |parts| >= 2 { JoinFree(parts[1..], sep, c); }
  }

  /** Writing a canonical position and reading it back with the engine's
      reader gives the same position: board, colour boards, king cache,
      side, castling rights, en-passant square and both counters. */
  lemma FenRoundTrip(st: State)
    requires Canonical(st)
    ensures FenToState(StateToFen(st), Written) == Ok(st)
  {
    RoundTrip(st, Written);
  }

  /** With the corrected castling check every well-formed position reads
      back, a lone "q" included. */
  lemma FenRoundTripCorrected(st: State)
    requires WellFormed(st)
    ensures FenToState(StateToFen(st), Corrected) == Ok(st)
  {
    RoundTrip(st, Corrected);
  }

  lemma RoundTrip(st: State, check: CastlingCheck)
    requires WellFormed(st) && RightsReadable(st, check)
    ensures FenToState(StateToFen(st), check) == Ok(st)
  {
    FieldsAccepted(st, check);
    BoardFieldRead(st);
    OtherFieldsRead(st);
    ReadState(StateToFen(st), Fields(st), st, check);
  }

  /** The position field reads back as the board. */
  lemma BoardFieldRead(st: State)
    requires WellFormed(st)
    ensures FenToBoard(Fields(st)[0]) == Ok(st.board)
  {
    var b := st.board;
    CountUnique(b, WhiteKing, st.whiteKing);
    CountUnique(b, BlackKing, st.blackKing);
    BoardRoundTrip(b);
  }

  /** The castling, en-passant and counter fields read back as the
      position's own. */
  lemma OtherFieldsRead(st: State)
    requires WellFormed(st)
    ensures AllDigits(Fields(st)[4]) && AllDigits(Fields(st)[5])
    ensures ParseDecimal(Fields(st)[4]) == st.halfMoves && ParseDecimal(Fields(st)[5]) == st.moveCount
    ensures (if Fields(st)[3] == "-" then None else NotationToSquare(Fields(st)[3])) == st.enPassant
    ensures (if Fields(st)[2] == "-" then "" else Fields(st)[2]) == st.castling
  {
    var f := Fields(st);
    DigitsFree(st.halfMoves);
    DigitsFree(st.moveCount);
    if st.enPassant.Some? {
      var sq := st.enPassant.value;
      SquareParts(sq);
      NotationRoundTrip(sq);
      assert SquareText(sq) == SquareToNotation(sq);
    }
    if st.castling != "" {
      assert st.castling[0] in "KQkq";
    }
  }

  lemma ReadState(fen: string, f: seq<string>, st: State, check: CastlingCheck)
    requires Consistent(st)
    requires ParseFen(fen, check) == Ok(f)
    requires FenToBoard(f[0]) == Ok(st.board)
    requires f[1] == st.side
    requires (if f[2] == "-" then "" else f[2]) == st.castling
    requires (if f[3] == "-" then None else NotationToSquare(f[3])) == st.enPassant
    requires ParseDecimal(f[4]) == st.halfMoves && ParseDecimal(f[5]) == st.moveCount
    ensures FenToState(fen, check) == Ok(st)
  {
    var b := st.board;
    assert WhitePart(b) == st.white;
    assert BlackPart(b) == st.black;
    IndexOfUnique(b, WhiteKing, st.whiteKing);
    IndexOfUnique(b, BlackKing, st.blackKing);
  }

  /** `findIndex` of a value held by exactly one cell finds that cell. */
  lemma IndexOfUnique(b: Board, v: int, i: int)
    requires 0 <= i < 64 && b[i] == v
    requires forall j | 0 <= j < 64 && b[j] == v :: j == i
    ensures IndexOf(b, v) == i
  {
  }
}
