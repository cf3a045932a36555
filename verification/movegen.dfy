/** Pseudo-legal move generation, one generator per piece type, in the order
    the engine produces moves (the order matters: the search breaks ties by
    it and notation moves resolve to the first match). */
module MoveGen {
  import opened Wrappers
  import opened Pieces
  import opened Squares
  import opened Rays
  import opened Position
  import opened Attacks

  /** `canTake` of the sliding generator: an enemy piece of the side to move. */
  predicate CanTake(whiteToMove: bool, p: int) {
    if whiteToMove then p < 0 else p > 0
  }

  function Quiet(piece: int, from: int, to: int): Move {
    Move(piece, from, to, None, None)
  }

  /** `getSlidingMoves` for one direction, from step `step` on: empty squares
      are destinations, the first occupied square ends the walk and is a
      destination only when it holds an enemy piece. */
  function RayMoves(st: State, from: int, ray: Ray, step: nat): seq<Move>
    requires ValidSquare(from)
    decreases ray.steps - step
  {
    if step >= ray.steps then []
    else
      var pos := Cell(from, ray.delta, step + 1);
      if !ValidSquare(pos) then []
      else if st.board[pos] != 0 then
        (if CanTake(WhiteToMove(st), st.board[pos]) then [Quiet(st.board[from], from, pos)] else [])
      else [Quiet(st.board[from], from, pos)] + RayMoves(st, from, ray, step + 1)
  }

  /** `getSlidingMoves` over a list of directions. */
  function RaysMoves(st: State, from: int, rays: seq<Ray>): seq<Move>
    requires ValidSquare(from)
  {
    if |rays| == 0 then [] else RayMoves(st, from, rays[0], 0) + RaysMoves(st, from, rays[1..])
  }

  /** One knight leap by `offset` squares: a move when the destination is
      on the board and not friendly. */
  function Leap(st: State, piece: int, from: int, offset: int): seq<Move> {
    var white := WhiteToMove(st);
    var pos := from + offset;
    if ValidSquare(pos) && (if white then st.board[pos] <= 0 else st.board[pos] >= 0)
    then [Quiet(piece, from, pos)] else []
  }

  /** `getKnightPossibleMoves`: the piece code follows the side to move, and
      each leap is guarded by the file distance to the edge. */
  function KnightMoves(st: State, from: int): seq<Move>
    requires ValidSquare(from)
  {
    var piece := if WhiteToMove(st) then WhiteKnight else BlackKnight;
    var f := FileOf(from);
    (if f < 7 then Leap(st, piece, from, 17) + Leap(st, piece, from, -15) else [])
    + (if f < 6 then Leap(st, piece, from, 10) + Leap(st, piece, from, -6) else [])
    + (if f > 0 then Leap(st, piece, from, -17) + Leap(st, piece, from, 15) else [])
    + (if f > 1 then Leap(st, piece, from, -10) + Leap(st, piece, from, 6) else [])
  }

  /** The four promotion choices, queen first, then knight, rook, bishop. */
  function Promotions(white: bool): seq<int> {
    if white then [WhiteQueen, WhiteKnight, WhiteRook, WhiteBishop]
    else [BlackQueen, BlackKnight, BlackRook, BlackBishop]
  }

  /** A pawn step to `to`: four promotion moves on the last rank, one plain
      move elsewhere. */
  function PawnStep(white: bool, from: int, to: int): (ms: seq<Move>)
    ensures |ms| >= 1
  {
    var pawn := if white then WhitePawn else BlackPawn;
    if OnRank(to, if white then 7 else 0) then
      var ps := Promotions(white);
      [Move(pawn, from, to, Some(ps[0]), None), Move(pawn, from, to, Some(ps[1]), None),
       Move(pawn, from, to, Some(ps[2]), None), Move(pawn, from, to, Some(ps[3]), None)]
    else [Move(pawn, from, to, None, None)]
  }

  /** `getPawnMovesForWhite`. */
  function WhitePawnMoves(st: State, from: int): seq<Move>
    requires ValidSquare(from)
  {
    var one := from + 8;
    var two := from + 16;
    var left := from + 7;
    var right := from + 9;
    (if ValidSquare(one) && st.board[one] == 0 then PawnStep(true, from, one) else [])
    + (if ValidSquare(two) && OnRank(from, 1) && st.board[one] == 0 && st.board[two] == 0
       then [Move(WhitePawn, from, two, None, None)] else [])
    + (if !OnFile(from, 0) && ValidSquare(left) && (st.board[left] < 0 || st.enPassant == Some(left))
       then PawnStep(true, from, left) else [])
    + (if !OnFile(from, 7) && ValidSquare(right) && (st.board[right] < 0 || st.enPassant == Some(right))
       then PawnStep(true, from, right) else [])
  }

  /** `getPawnMovesForBlack`. */
  function BlackPawnMoves(st: State, from: int): seq<Move>
    requires ValidSquare(from)
  {
    var one := from - 8;
    var two := from - 16;
    var right := from - 9;
    var left := from - 7;
    (if ValidSquare(one) && st.board[one] == 0 then PawnStep(false, from, one) else [])
    + (if ValidSquare(two) && OnRank(from, 6) && st.board[one] == 0 && st.board[two] == 0
       then [Move(BlackPawn, from, two, None, None)] else [])
    + (if !OnFile(from, 0) && ValidSquare(right) && (st.board[right] > 0 || st.enPassant == Some(right))
       then PawnStep(false, from, right) else [])
    + (if !OnFile(from, 7) && ValidSquare(left) && (st.board[left] > 0 || st.enPassant == Some(left))
       then PawnStep(false, from, left) else [])
  }

  /** `canCastleThroughPath`: the squares between king and rook are empty
      and none of the king's start, transit and landing squares is attacked
      by the other side. */
  predicate CanCastleThroughPath(st: State, path: seq<int>, kingSquares: seq<int>) {
    && (forall k | 0 <= k < |path| :: ValidSquare(path[k]) ==> st.board[path[k]] == 0)
    && (forall k | 0 <= k < |kingSquares| :: !Attacked(Opposite(st.side), st, kingSquares[k]))
  }

  /** `canWhiteKingCastle` and its three siblings: the right is still held
      and the path is clear and safe. */
  predicate CanCastle(st: State, white: bool, castle: Castle) {
    match (white, castle)
    case (true, KingSide) => 'K' in st.castling && CanCastleThroughPath(st, [5, 6], [4, 5, 6])
    case (true, QueenSide) => 'Q' in st.castling && CanCastleThroughPath(st, [1, 2, 3], [2, 3, 4])
    case (false, KingSide) => 'k' in st.castling && CanCastleThroughPath(st, [61, 62], [60, 61, 62])
    case (false, QueenSide) => 'q' in st.castling && CanCastleThroughPath(st, [57, 58, 59], [58, 59, 60])
  }

  /** The castling moves `getKingPossibleMoves` appends: two squares right
      for the king side, two left for the queen side. */
  function CastleMoves(st: State, from: int): seq<Move> {
    var white := WhiteToMove(st);
    var king := if white then WhiteKing else BlackKing;
    (if CanCastle(st, white, KingSide) then [Move(king, from, from + 2, None, Some(KingSide))] else [])
    + (if CanCastle(st, white, QueenSide) then [Move(king, from, from - 2, None, Some(QueenSide))] else [])
  }

  /** `getKingPossibleMoves`: one step in each direction, then castling. */
  function KingMoves(st: State, from: int): seq<Move>
    requires ValidSquare(from)
  {
    RaysMoves(st, from, KingRays(from)) + CastleMoves(st, from)
  }

  /** The dispatch of `possibleMoves` on the piece code found on `from`. */
  function PieceMoves(st: State, piece: int, from: int): seq<Move>
    requires ValidSquare(from)
  {
    if piece == WhitePawn then WhitePawnMoves(st, from)
    else if piece == BlackPawn then BlackPawnMoves(st, from)
    else if piece == WhiteKnight || piece == BlackKnight then KnightMoves(st, from)
    else if piece == WhiteBishop || piece == BlackBishop then RaysMoves(st, from, BishopRays(from))
    else if piece == WhiteRook || piece == BlackRook then RaysMoves(st, from, RookRays(from))
    else if piece == WhiteQueen || piece == BlackQueen then RaysMoves(st, from, QueenRays(from))
    else if piece == WhiteKing || piece == BlackKing then KingMoves(st, from)
    else []
  }

  /** The board of the side to move, which `possibleMoves` scans. */
  function MoverPieces(st: State): Board {
    if WhiteToMove(st) then st.white else st.black
  }

  /** Pseudo-legal moves of the pieces on squares `pos` .. 63 of the mover's
      board, in square order. */
  function PseudoMovesFrom(st: State, pos: nat): seq<Move>
    requires pos <= 64
    decreases 64 - pos
  {
    if pos == 64 then []
    else
      var piece := MoverPieces(st)[pos];
      (if piece != 0 then PieceMoves(st, piece, pos) else []) + PseudoMovesFrom(st, pos + 1)
  }

  /** Every pseudo-legal move of the side to move, before the legality
      filter. */
  function PseudoMoves(st: State): seq<Move> {
    PseudoMovesFrom(st, 0)
  }

  /** The pseudo-legal moves of one square, before the legality filter
      (`possibleMovesForSquare`): nothing for an off-board or empty square or
      for a piece of the side not to move. */
  function SquarePseudoMoves(st: State, square: int): seq<Move> {
    if !ValidSquare(square) then []
    else
      var piece := st.board[square];
      if piece == 0 then []
      else if piece > 0 && !WhiteToMove(st) then []
      else if piece < 0 && WhiteToMove(st) then []
      else PieceMoves(st, piece, square)
  }
}
