/** Reading and writing Forsyth-Edwards Notation: the field checks of
    `parseFen`, the board reader `fenToBoard`, the writers `boardToFen` and
    `stateToFen`, and `fenToState`. */
module Fen {
  import opened Wrappers
  import opened Text
  import opened Pieces
  import opened Squares
  import opened Position

  const DefaultFen := "rnbqkbnr/pppppppp/8/8/8/8/PPPPPPPP/RNBQKBNR w KQkq - 0 1"

  const InvalidPosition := "invalid position part"

  /* ---------- reading the board ---------- */

  /** `Number(c)` for a one-character string: a digit gives its value,
      white space gives zero, anything else is not a number. */
  function CharNumber(c: char): Option<nat> {
    if IsDigit(c) then Some(DigitValue(c)) else if IsSpace(c) then Some(0) else None
  }

  /** The cells one FEN rank spells, left to right, while `afterNumber`
      says the previous character was a number. A piece letter is one cell,
      a number that many empty cells; an unknown letter or two numbers in a
      row make the rank unreadable. */
  function ExpandRow(row: string, afterNumber: bool): (r: Option<seq<int>>)
    ensures r.Some? ==> forall i | 0 <= i < |r.value| :: r.value[i] == 0 || IsPiece(r.value[i])
  {
    if |row| == 0 then Some([])
    else
      match CharNumber(row[0])
      case None =>
        (match PieceOfLetter(row[0])
         case None => None
         case Some(p) =>
           var rest := ExpandRow(row[1..], false);
           if rest.None? then None else Some([p] + rest.value))
      case Some(n) =>
        if afterNumber then None
        else
          var rest := ExpandRow(row[1..], true);
          if rest.None? then None else Some(seq(n, _ => 0) + rest.value)
  }

  /** The eight cells of one rank, if it spells exactly eight. */
  function RowCells(row: string): (r: Option<seq<int>>)
    ensures r.Some? ==> |r.value| == 8
  {
    var cells := ExpandRow(row, false);
    if cells.Some? && |cells.value| == 8 then cells else None
  }

  function Reverse<T>(s: seq<T>): (r: seq<T>)
    ensures |r| == |s|
    ensures forall i | 0 <= i < |s| :: r[i] == s[|s| - 1 - i]
  {
    if |s| == 0 then [] else Reverse(s[1..]) + [s[0]]
  }

  /** How many times a letter occurs in all the rows together. */
  function LetterCount(rows: seq<string>, c: char): nat {
    if |rows| == 0 then 0 else Occurrences(rows[0], {c}) + LetterCount(rows[1..], c)
  }

  /** `fenToBoard`: eight ranks separated by '/', last rank first; both
      kings named and neither twice; every rank readable and exactly eight
      cells long. Every failure is the same error. */
  function FenToBoard(part: string): (r: Result<Board, string>)
    ensures r.Err? ==> r.error == InvalidPosition
    ensures r.Ok? ==> forall i | 0 <= i < 64 :: r.value[i] == 0 || IsPiece(r.value[i])
    ensures r.Ok? ==> 'K' in part && 'k' in part
  {
    var rows := Reverse(Split(part, {'/'}));
    if |rows| != 8 then Err(InvalidPosition)
    else if 'K' !in part || 'k' !in part then Err(InvalidPosition)
    else if LetterCount(rows, 'K') > 1 || LetterCount(rows, 'k') > 1 then Err(InvalidPosition)
    else if exists r | 0 <= r < 8 :: RowCells(rows[r]).None? then Err(InvalidPosition)
    else Ok(seq(64, i requires 0 <= i < 64 => RowCells(rows[i / 8]).value[i % 8]))
  }

  /* ---------- writing the board ---------- */

  /** The text for one cell value: its letter, or "undefined" for a value
      with no letter. */
  function PieceText(p: int): string {
    match LetterOfPiece(p)
    case Some(c) => [c]
    case None => "undefined"
  }

  /** The count of pending empty cells, printed only when non-zero. */
  function EmptyRun(n: nat): string {
    if n > 0 then Decimal(n) else ""
  }

  /** One rank of `boardToFen`: runs of empty cells become their count,
      `empties` is the length of the run pending before `cells`. */
  function EncodeRank(cells: seq<int>, empties: nat): string {
    if |cells| == 0 then EmptyRun(empties)
    else if cells[0] == 0 then EncodeRank(cells[1..], empties + 1)
    else EmptyRun(empties) + PieceText(cells[0]) + EncodeRank(cells[1..], 0)
  }

  /** The text of rank `r` (0 is the first rank). */
  function RankText(b: Board, r: nat): string
    requires r < 8
  {
    EncodeRank(b[8 * r .. 8 * r + 8], 0)
  }

  /** The ranks from the eighth down to the first. */
  function RanksTopDown(b: Board): (rs: seq<string>)
    ensures |rs| == 8
  {
    seq(8, k requires 0 <= k < 8 => RankText(b, 7 - k))
  }

  /** `boardToFen`: the ranks, eighth first, joined with '/'. */
  function BoardToFen(b: Board): string {
    Join(RanksTopDown(b), '/')
  }

  /* ---------- the field checks of parseFen ---------- */

  predicate GroupChar(c: char) { c in "pnbrqkPNBRQK" || '1' <= c <= '8' }

  /** `/^([pnbrqkPNBRQK1-8]{1,8}\/?){n}\w+$/`: `n` groups of one to eight
      piece letters or digits 1-8, each optionally followed by '/', then one
      or more word characters to the end. */
  predicate PositionGroups(s: string, n: nat)
    decreases |s|
  {
    if n == 0 then |s| > 0 && forall i | 0 <= i < |s| :: IsWordChar(s[i])
    else
      exists k | 1 <= k <= 8 && k <= |s| ::
        && (forall i | 0 <= i < k :: GroupChar(s[i]))
        && (PositionGroups(s[k..], n - 1) || (k < |s| && s[k] == '/' && PositionGroups(s[k + 1..], n - 1)))
  }

  /** `/\d+\d+/`: two digits in a row somewhere. */
  predicate HasDoubleDigit(s: string) {
    exists i | 0 <= i < |s| - 1 :: IsDigit(s[i]) && IsDigit(s[i + 1])
  }

  /** `/^b|w$/`: starts with 'b' or ends with 'w'. */
  predicate SideFieldOk(s: string) {
    StartsWith(s, 'b') || (|s| > 0 && s[|s| - 1] == 'w')
  }

  /** `/^-|K|Q|k|q\w+$/` as written: starts with '-', or contains 'K', 'Q'
      or 'k', or has a 'q' followed by one or more word characters to the
      end. A field of just "q" fails it. */
  predicate CastlingFieldAsWritten(s: string) {
    || StartsWith(s, '-')
    || 'K' in s || 'Q' in s || 'k' in s
    || exists i | 0 <= i < |s| - 1 :: s[i] == 'q' && forall j | i < j < |s| :: IsWordChar(s[j])
  }

  /** The castling check with the one well-formed field the alternation
      above loses put back: everything the written check accepts, and a
      lone "q" (black may castle queen side only). */
  predicate CastlingFieldOk(s: string) {
    CastlingFieldAsWritten(s) || s == "q"
  }

  /** `/^-|[a-h][3-6]$/`: starts with '-' or ends with a square on the
      third to sixth rank. */
  predicate EnPassantFieldOk(s: string) {
    StartsWith(s, '-') || (|s| >= 2 && 'a' <= s[|s| - 2] <= 'h' && '3' <= s[|s| - 1] <= '6')
  }

  /** `/^\d+$/`. */
  predicate CounterFieldOk(s: string) { AllDigits(s) }

  /** Which castling check the reader applies: the pattern as the engine
      writes it, or the corrected one that also takes a lone "q". The
      engine itself reads `Written`. */
  datatype CastlingCheck = Written | Corrected

  predicate CastlingPasses(s: string, check: CastlingCheck) {
    match check
    case Written => CastlingFieldAsWritten(s)
    case Corrected => CastlingFieldOk(s)
  }

  /** Each of six fields passes its `parseFen` check. */
  predicate FieldsOk(f: seq<string>, check: CastlingCheck)
    requires |f| == 6
  {
    && PositionGroups(f[0], 8) && !HasDoubleDigit(f[0])
    && SideFieldOk(f[1]) && CastlingPasses(f[2], check) && EnPassantFieldOk(f[3])
    && CounterFieldOk(f[4]) && CounterFieldOk(f[5])
  }

  /** `parseFen`: six space-separated fields, each passing its check, in
      the order the checks are made. */
  function ParseFen(fen: string, check: CastlingCheck): (r: Result<seq<string>, string>)
    ensures r.Ok? <==> |Split(fen, {' '})| == 6 && FieldsOk(Split(fen, {' '}), check)
    ensures r.Ok? ==> r.value == Split(fen, {' '})
    ensures |Split(fen, {' '})| != 6 ==> r == Err("missing FEN parts")
    ensures |Split(fen, {' '})| == 6 && PositionGroups(Split(fen, {' '})[0], 8) && !HasDoubleDigit(Split(fen, {' '})[0])
            && SideFieldOk(Split(fen, {' '})[1]) && !CastlingPasses(Split(fen, {' '})[2], check) ==>
      r == Err("invalid castling")
  {
    var f := Split(fen, {' '});
    if |f| != 6 then Err("missing FEN parts")
    else if !PositionGroups(f[0], 8) || HasDoubleDigit(f[0]) then Err(InvalidPosition)
    else if !SideFieldOk(f[1]) then Err("invalid side to move")
    else if !CastlingPasses(f[2], check) then Err("invalid castling")
    else if !EnPassantFieldOk(f[3]) then Err("invalid en passant")
    else if !CounterFieldOk(f[4]) then Err("invalid half move count")
    else if !CounterFieldOk(f[5]) then Err("invalid move count")
    else Ok(f)
  }

  /** `findIndex`: the first square holding `v`, or -1. */
  function IndexOf(b: Board, v: int): (r: int)
    ensures -1 <= r < 64
    ensures r >= 0 ==> b[r] == v && forall j | 0 <= j < r :: b[j] != v
    ensures r == -1 ==> forall j | 0 <= j < 64 :: b[j] != v
  {
    IndexFrom(b, v, 0)
  }

  function IndexFrom(b: Board, v: int, from: nat): (r: int)
    requires from <= 64
    ensures -1 <= r < 64
    ensures r >= 0 ==> from <= r && b[r] == v && forall j | from <= j < r :: b[j] != v
    ensures r == -1 ==> forall j | from <= j < 64 :: b[j] != v
    decreases 64 - from
  {
    if from == 64 then -1 else if b[from] == v then from else IndexFrom(b, v, from + 1)
  }

  /** `fenToState`: check the fields, read the board, derive the colour
      boards and the king cache from it, and read the metadata. */
  function FenToState(fen: string, check: CastlingCheck): (r: Result<State, string>)
    ensures r.Ok? ==> ColoursMatch(r.value)
    ensures r.Ok? <==> ParseFen(fen, check).Ok? && FenToBoard(ParseFen(fen, check).value[0]).Ok?
    ensures ParseFen(fen, check).Err? ==> r == Err(ParseFen(fen, check).error)
  {
    var fields :- ParseFen(fen, check);
    var board :- FenToBoard(fields[0]);
    Ok(State(
      board := board,
      white := WhitePart(board),
      black := BlackPart(board),
      side := fields[1],
      castling := if fields[2] == "-" then "" else fields[2],
      enPassant := if fields[3] == "-" then None else NotationToSquare(fields[3]),
      halfMoves := ParseDecimal(fields[4]),
      moveCount := ParseDecimal(fields[5]),
      whiteKing := IndexOf(board, WhiteKing),
      blackKing := IndexOf(board, BlackKing)))
  }

  /** The text of a square: `squareToBoardPositionNotation`, which prints
      "undefined" for a file or rank outside the board. */
  function SquareText(sq: int): string {
    var f := FileOf(sq);
    var r := RankOf(sq);
    (if 0 <= f < 8 then [FileLetter(f)] else "undefined")
    + (if 0 <= r < 8 then [RankDigit(r)] else "undefined")
  }

  /** The castling field `stateToFen` writes: "-" for no rights. */
  function CastlingText(st: State): string {
    if st.castling == "" then "-" else st.castling
  }

  /** The en-passant field `stateToFen` writes: "-" when there is no
      square, and also for square 0, which the source tests for
      truthiness. */
  function EnPassantText(st: State): string {
    if st.enPassant.None? || st.enPassant == Some(0) then "-" else SquareText(st.enPassant.value)
  }

  /** `stateToFen`: the six fields separated by single spaces. */
  function StateToFen(st: State): string {
    Join([BoardToFen(st.board), st.side, CastlingText(st), EnPassantText(st),
          Decimal(st.halfMoves), Decimal(st.moveCount)], ' ')
  }
}
