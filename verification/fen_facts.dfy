/** What the FEN reader guarantees about the boards it accepts, and the
    round trip between the writer and the reader. */
module FenFacts {
  import opened Wrappers
  import opened Text
  import opened Pieces
  import opened Squares
  import opened Position
  import opened Fen
  import opened Tally

  /** Distinct letters name distinct pieces. */
  lemma LetterInjective(c: char, d: char)
    requires PieceOfLetter(c).Some? && PieceOfLetter(c) == PieceOfLetter(d)
    ensures c == d
  {
    LetterRoundTrip(c);
    LetterRoundTrip(d);
  }

  /** Reading a rank turns each occurrence of a piece letter into exactly
      one cell holding that piece. */
  lemma {:induction false} ExpandCount(row: string, afterNumber: bool, c: char)
    requires PieceOfLetter(c).Some?
    requires ExpandRow(row, afterNumber).Some?
    ensures Count(ExpandRow(row, afterNumber).value, PieceOfLetter(c).value) == Occurrences(row, {c})
  {
    if |row| > 0 {
      match CharNumber(row[0])
      case None =>
        ExpandCount(row[1..], false, c);
        LetterCountStep(row, afterNumber, c);
      case Some(n) =>
        ExpandCount(row[1..], true, c);
        DigitCountStep(row, afterNumber, c);
    }
  }

  /** A leading letter counts once, for its own piece only. */
  lemma LetterCountStep(row: string, afterNumber: bool, c: char)
    requires |row| > 0 && CharNumber(row[0]).None? && PieceOfLetter(c).Some?
    requires ExpandRow(row, afterNumber).Some?
    requires ExpandRow(row[1..], false).Some?
    requires Count(ExpandRow(row[1..], false).value, PieceOfLetter(c).value) == Occurrences(row[1..], {c})
    ensures Count(ExpandRow(row, afterNumber).value, PieceOfLetter(c).value) == Occurrences(row, {c})
  {
    var p := PieceOfLetter(c).value;
    var q := PieceOfLetter(row[0]).value;
    CountAppend([q], ExpandRow(row[1..], false).value, p);
    if q == p { LetterInjective(c, row[0]); }
  }

  /** A leading digit adds only empty cells, which count for no piece. */
  lemma DigitCountStep(row: string, afterNumber: bool, c: char)
    requires |row| > 0 && CharNumber(row[0]).Some? && PieceOfLetter(c).Some?
    requires ExpandRow(row, afterNumber).Some?
    requires ExpandRow(row[1..], true).Some?
    requires Count(ExpandRow(row[1..], true).value, PieceOfLetter(c).value) == Occurrences(row[1..], {c})
    ensures Count(ExpandRow(row, afterNumber).value, PieceOfLetter(c).value) == Occurrences(row, {c})
  {
    var p := PieceOfLetter(c).value;
    var n := CharNumber(row[0]).value;
    CountAppend(seq(n, _ => 0), ExpandRow(row[1..], true).value, p);
    CountZeros(n, p);
  }


  lemma {:induction false} LetterCountAppend(a: seq<string>, b: seq<string>, c: char)
    ensures LetterCount(a + b, c) == LetterCount(a, c) + LetterCount(b, c)
  {
    if |a| == 0 {
      assert a + b == b;
    } else {
      assert (a + b)[1..] == a[1..] + b;
      LetterCountAppend(a[1..], b, c);
    }
  }

  lemma {:induction false} LetterCountReverse(rows: seq<string>, c: char)
    ensures LetterCount(Reverse(rows), c) == LetterCount(rows, c)
  {
    if |rows| > 0 {
      LetterCountReverse(rows[1..], c);
      LetterCountAppend(Reverse(rows[1..]), [rows[0]], c);
      assert Reverse(rows) == Reverse(rows[1..]) + [rows[0]];
    }
  }

  /** Splitting keeps every character other than the separator: the parts
      hold as many of it as the whole. */
  lemma {:induction false} SplitCount(s: string, sep: char, c: char)
    requires c != sep
    ensures LetterCount(Split(s, {sep}), c) == Occurrences(s, {c})
  {
    if |s| > 0 {
      SplitCount(s[1..], sep, c);
      var rest := Split(s[1..], {sep});
      if s[0] != sep {
        assert [s[0]] + rest[0] == [s[0]] + rest[0];
        OccurrencesAppend([s[0]], rest[0], {c});
        assert rest == [rest[0]] + rest[1..];
        assert LetterCount(rest, c) == Occurrences(rest[0], {c}) + LetterCount(rest[1..], c);
      }
    }
  }

  lemma OccursCount(s: string, c: char)
    requires c in s
    ensures Occurrences(s, {c}) >= 1
  {
    var i :| 0 <= i < |s| && s[i] == c;
    OccurrencesAppend(s[..i], s[i..], {c});
    assert s == s[..i] + s[i..];
  }

  /** The rows one after another. */
  function Flatten(css: seq<seq<int>>): seq<int> {
    if |css| == 0 then [] else css[0] + Flatten(css[1..])
  }

  /** How many cells of all rows together hold `v`. */
  function RowsCount(css: seq<seq<int>>, v: int): nat {
    if |css| == 0 then 0 else Count(css[0], v) + RowsCount(css[1..], v)
  }

  lemma {:induction false} FlattenCount(css: seq<seq<int>>, v: int)
    ensures Count(Flatten(css), v) == RowsCount(css, v)
  {
    if |css| > 0 {
      FlattenCount(css[1..], v);
      CountAppend(css[0], Flatten(css[1..]), v);
    }
  }

  lemma {:induction false} FlattenIndex(css: seq<seq<int>>, i: int)
    requires forall r | 0 <= r < |css| :: |css[r]| == 8
    requires 0 <= i < 8 * |css|
    ensures |Flatten(css)| == 8 * |css|
    ensures Flatten(css)[i] == css[i / 8][i % 8]
  {
    FlattenLength(css);
    if i >= 8 {
      FlattenIndex(css[1..], i - 8);
      assert (i - 8) / 8 == i / 8 - 1 && (i - 8) % 8 == i % 8;
    }
  }

  lemma {:induction false} FlattenLength(css: seq<seq<int>>)
    requires forall r | 0 <= r < |css| :: |css[r]| == 8
    ensures |Flatten(css)| == 8 * |css|
  {
    if |css| > 0 { FlattenLength(css[1..]); }
  }

  /** The cells of the eight rows `fenToBoard` accepted. */
  function RowsCells(rows: seq<string>): (css: seq<seq<int>>)
    requires forall r | 0 <= r < |rows| :: RowCells(rows[r]).Some?
    ensures |css| == |rows|
    ensures forall r | 0 <= r < |rows| :: css[r] == RowCells(rows[r]).value
  {
    seq(|rows|, r requires 0 <= r < |rows| => RowCells(rows[r]).value)
  }

  lemma {:induction false} RowsLetterCount(rows: seq<string>, c: char)
    requires PieceOfLetter(c).Some?
    requires forall r | 0 <= r < |rows| :: RowCells(rows[r]).Some?
    ensures RowsCount(RowsCells(rows), PieceOfLetter(c).value) == LetterCount(rows, c)
  {
    if |rows| > 0 {
      RowsLetterCount(rows[1..], c);
      ExpandCount(rows[0], false, c);
      assert RowsCells(rows)[1..] == RowsCells(rows[1..]);
    }
  }

  /** The board `fenToBoard` returns is the accepted rows, first rank
      first. */
  lemma BoardIsRows(part: string)
    requires FenToBoard(part).Ok?
    ensures var rows := Reverse(Split(part, {'/'}));
            && |rows| == 8
            && (forall r | 0 <= r < 8 :: RowCells(rows[r]).Some?)
            && FenToBoard(part).value == Flatten(RowsCells(rows))
  {
    var rows := Reverse(Split(part, {'/'}));
    var css := RowsCells(rows);
    var b := FenToBoard(part).value;
    FlattenLength(css);
    forall i | 0 <= i < 64 ensures b[i] == Flatten(css)[i] {
      FlattenIndex(css, i);
    }
  }

  /** A board `fenToBoard` accepts has exactly one king of each colour. */
  lemma {:induction false} FenBoardKings(part: string)
    requires FenToBoard(part).Ok?
    ensures Count(FenToBoard(part).value, WhiteKing) == 1
    ensures Count(FenToBoard(part).value, BlackKing) == 1
  {
    var rows := Reverse(Split(part, {'/'}));
    BoardIsRows(part);
    KingLetters(part, rows, 'K');
    KingLetters(part, rows, 'k');
    FlattenCount(RowsCells(rows), WhiteKing);
    FlattenCount(RowsCells(rows), BlackKing);
  }

  lemma KingLetters(part: string, rows: seq<string>, c: char)
    requires FenToBoard(part).Ok? && rows == Reverse(Split(part, {'/'}))
    requires c == 'K' || c == 'k'
    ensures forall r | 0 <= r < |rows| :: RowCells(rows[r]).Some?
    ensures RowsCount(RowsCells(rows), PieceOfLetter(c).value) == 1
  {
    BoardIsRows(part);
    RowsLetterCount(rows, c);
    LetterCountReverse(Split(part, {'/'}), c);
    SplitCount(part, '/', c);
    OccursCount(part, c);
  }

  /** Every position `fenToState` accepts is consistent: the colour boards
      match the board, each king stands on one square and the cache names
      it. */
  lemma FenStateConsistent(fen: string, check: CastlingCheck)
    requires FenToState(fen, check).Ok?
    ensures Consistent(FenToState(fen, check).value)
  {
    var part := ParseFen(fen, check).value[0];
    var b := FenToBoard(part).value;
    FenBoardKings(part);
    CountOnce(b, WhiteKing);
    CountOnce(b, BlackKing);
  }

  /** Of the well-formed castling fields ("-" or one or more of K, Q, k,
      q) the written check turns away exactly one, "q"; the corrected check
      takes them all. */
  lemma CastlingAsWrittenRejectsOnlyQ(s: string)
    requires s == "-" || (|s| > 0 && forall i | 0 <= i < |s| :: s[i] in "KQkq")
    ensures CastlingFieldOk(s)
    ensures CastlingFieldAsWritten(s) <==> s != "q"
  {
    if s != "-" && 'K' !in s && 'Q' !in s && 'k' !in s {
      forall i | 0 <= i < |s| ensures s[i] == 'q' && IsWordChar(s[i]) {
        assert s[i] in "KQkq" && s[i] in s;
      }
      if |s| >= 2 {
        assert s[0] == 'q' && forall j | 0 < j < |s| :: IsWordChar(s[j]);
      } else {
        assert s == [s[0]];
      }
    }
  }
}
