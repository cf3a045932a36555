/** The engine's position record: the main board, the two colour boards, the
    king cache and the metadata read from and written to FEN. */
module Position {
  import opened Wrappers
  import opened Pieces
  import opened Squares

  /** A 64-cell array of piece codes, indexed by square. */
  type Board = b: seq<int> | |b| == 64 witness seq(64, _ => 0)

  const EmptyBoard: Board := seq(64, _ => 0)

  /** Which side a castling move castles to: `"K"` or `"Q"` in the source. */
  datatype Castle = KingSide | QueenSide

  /** A move record. `promotion` is the replacement piece code, `castling`
      marks the king's two-square castling step. */
  datatype Move = Move(piece: int, from: int, to: int, promotion: Option<int>, castling: Option<Castle>)

  /** The position. `side` and `castling` keep the text the FEN carried (the
      engine compares `side` with "w" and searches `castling` for letters);
      a missing castling field (`null`) is the empty string, which every
      reader treats the same way. `enPassant` is `None` for `null` and for
      the `NaN` an unreadable square produces, which every reader also treats
      the same way. */
  datatype State = State(
    board: Board,
    white: Board,
    black: Board,
    side: string,
    castling: string,
    enPassant: Option<int>,
    halfMoves: nat,
    moveCount: nat,
    whiteKing: int,
    blackKing: int)

  predicate WhiteToMove(st: State) { st.side == "w" }

  /** `oppositeColor`: anything but "w" counts as black. */
  function Opposite(side: string): (r: string)
    ensures side == "w" ==> r == "b"
    ensures side != "w" ==> r == "w"
  {
    if side == "w" then "b" else "w"
  }

  /** `arr[i] = v` on one of the 64-cell arrays. An index off the board adds
      a property the engine never reads, so the 64 cells stay as they were. */
  function Put(b: Board, i: int, v: int): (r: Board)
    ensures ValidSquare(i) ==> r[i] == v
    ensures forall j | 0 <= j < 64 && j != i :: r[j] == b[j]
  {
    if ValidSquare(i) then b[i := v] else b
  }

  /** The square of the king of the given colour in the king cache. */
  function KingOf(st: State, white: bool): int {
    if white then st.whiteKing else st.blackKing
  }

  /** The colour string `isColorAttackingSquare` expects for one side. */
  function ColourName(white: bool): string { if white then "w" else "b" }

  /** The white cells of a board (`populateColorsPositions`). */
  function WhitePart(b: Board): (w: Board)
    ensures forall i | 0 <= i < 64 :: w[i] == (if b[i] > 0 then b[i] else 0)
  {
    seq(64, i requires 0 <= i < 64 => if b[i] > 0 then b[i] else 0)
  }

  /** The black cells of a board (`populateColorsPositions`). */
  function BlackPart(b: Board): (k: Board)
    ensures forall i | 0 <= i < 64 :: k[i] == (if b[i] < 0 then b[i] else 0)
  {
    seq(64, i requires 0 <= i < 64 => if b[i] < 0 then b[i] else 0)
  }

  /** The colour boards hold exactly the white and the black cells of the
      main board. */
  predicate ColoursMatch(st: State) {
    forall i | 0 <= i < 64 ::
      && st.white[i] == (if st.board[i] > 0 then st.board[i] else 0)
      && st.black[i] == (if st.board[i] < 0 then st.board[i] else 0)
  }

  /** Each king stands on exactly one square, and the cache names it. */
  predicate KingsCached(st: State) {
    && ValidSquare(st.whiteKing)
    && ValidSquare(st.blackKing)
    && forall i | 0 <= i < 64 ::
         && (st.board[i] == WhiteKing <==> i == st.whiteKing)
         && (st.board[i] == BlackKing <==> i == st.blackKing)
  }

  /** The standing invariant of a position: the redundant arrays agree with
      the board and the king cache is current. */
  predicate Consistent(st: State) {
    ColoursMatch(st) && KingsCached(st)
  }
}
