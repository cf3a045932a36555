/** Applying a move to a position: the five steps of the game's private
    `move`, in its order (half-move clock, move counter, castling rights, the
    board arrays, the en-passant square), then the side flip. Each step reads
    only fields that no earlier step writes, so each is computed from the
    position before the move. */
module Play {
  import opened Wrappers
  import opened Pieces
  import opened Squares
  import opened Position

  /** The piece that lands on the destination: the promotion piece if there
      is one, else the moving piece. */
  function Landing(m: Move): int {
    if m.promotion.Some? then m.promotion.value else m.piece
  }

  /** The move takes something: the destination is occupied, or a pawn moves
      onto the en-passant square. */
  predicate Resets(st: State, m: Move) {
    (ValidSquare(m.to) && st.board[m.to] != 0)
    || (st.enPassant == Some(m.to) && IsPawn(m.piece))
  }

  /** `applyHalfMoveCount`: the clock restarts on a capture or an en-passant
      capture and otherwise grows by one. */
  function HalfMoveClock(st: State, m: Move): (r: nat)
    ensures r == 0 <==> Resets(st, m)
    ensures r != 0 ==> r == st.halfMoves + 1
  {
    if Resets(st, m) then 0 else st.halfMoves + 1
  }

  /** `applyMoveCount`: the full-move number grows after black's move. */
  function MoveCounter(st: State): (r: nat)
    ensures r == st.moveCount || r == st.moveCount + 1
    ensures r == st.moveCount + 1 <==> st.side == "b"
  {
    if st.side == "b" then st.moveCount + 1 else st.moveCount
  }

  /** `removeCastling`: drop the given letters from the rights string,
      keeping the order of the rest. */
  function RemoveRights(castling: string, letters: set<char>): (r: string)
    ensures |r| <= |castling|
    ensures forall c :: c in r <==> c in castling && c !in letters
  {
    if |castling| == 0 then ""
    else
      var rest := RemoveRights(castling[1..], letters);
      if castling[0] in letters then rest else [castling[0]] + rest
  }

  /** `updateCastling`: a king move gives up both of its side's rights, a
      rook leaving its corner gives up that corner's right, and so does a
      rook captured on its corner. */
  function UpdateCastling(st: State, m: Move): (r: string)
    ensures forall c :: c in r ==> c in st.castling
    ensures m.piece == WhiteKing ==> 'K' !in r && 'Q' !in r
    ensures m.piece == BlackKing ==> 'k' !in r && 'q' !in r
    ensures (m.from == 0 && m.piece == WhiteRook) || (m.to == 0 && st.board[0] == WhiteRook) ==> 'Q' !in r
    ensures (m.from == 7 && m.piece == WhiteRook) || (m.to == 7 && st.board[7] == WhiteRook) ==> 'K' !in r
    ensures (m.from == 56 && m.piece == BlackRook) || (m.to == 56 && st.board[56] == BlackRook) ==> 'q' !in r
    ensures (m.from == 63 && m.piece == BlackRook) || (m.to == 63 && st.board[63] == BlackRook) ==> 'k' !in r
  {
    var byMover :=
      if m.piece == WhiteKing then RemoveRights(st.castling, {'K', 'Q'})
      else if m.piece == BlackKing then RemoveRights(st.castling, {'k', 'q'})
      else if m.piece == WhiteRook then
        var c := if m.from == 0 then RemoveRights(st.castling, {'Q'}) else st.castling;
        if m.from == 7 then RemoveRights(c, {'K'}) else c
      else if m.piece == BlackRook then
        var c := if m.from == 56 then RemoveRights(st.castling, {'q'}) else st.castling;
        if m.from == 63 then RemoveRights(c, {'k'}) else c
      else st.castling;
    var target := if ValidSquare(m.to) then st.board[m.to] else 0;
    if target == WhiteRook && m.to == 0 then RemoveRights(byMover, {'Q'})
    else if target == WhiteRook && m.to == 7 then RemoveRights(byMover, {'K'})
    else if target == BlackRook && m.to == 56 then RemoveRights(byMover, {'q'})
    else if target == BlackRook && m.to == 63 then RemoveRights(byMover, {'k'})
    else byMover
  }

  /** The corner a castling rook starts from. */
  function RookHome(white: bool, c: Castle): int {
    match (white, c)
    case (true, KingSide) => 7
    case (true, QueenSide) => 0
    case (false, KingSide) => 63
    case (false, QueenSide) => 56
  }

  /** The square a castling rook lands on, next to the king's landing
      square. */
  function RookLanding(white: bool, c: Castle): int {
    match (white, c)
    case (true, KingSide) => 5
    case (true, QueenSide) => 3
    case (false, KingSide) => 61
    case (false, QueenSide) => 59
  }

  /** The square of the pawn an en-passant capture removes, if the move is
      one: the square behind the en-passant square, seen from the mover. */
  function EnPassantVictim(st: State, m: Move): Option<int> {
    if st.enPassant != Some(m.to) then None
    else if m.piece == WhitePawn then Some(m.to - 8)
    else if m.piece == BlackPawn then Some(m.to + 8)
    else None
  }

  /** The squares `applyMove` may write. */
  function Touched(st: State, m: Move): set<int> {
    {m.from, m.to}
    + (if EnPassantVictim(st, m).Some? then {EnPassantVictim(st, m).value} else {})
    + (if m.castling.Some?
       then {RookHome(WhiteToMove(st), m.castling.value), RookLanding(WhiteToMove(st), m.castling.value)}
       else {})
  }

  /** The rook a castling move brings along. */
  function CastlingRook(white: bool): int {
    if white then WhiteRook else BlackRook
  }

  /** The main board after `applyMove`: the origin cleared, the landing
      piece placed, a pawn taken en passant removed and a castling rook
      moved from its corner. */
  function BoardAfter(st: State, m: Move): (r: Board)
    ensures forall sq | 0 <= sq < 64 && sq !in Touched(st, m) :: r[sq] == st.board[sq]
    ensures ValidSquare(m.to) && m.castling.None? ==> r[m.to] == Landing(m)
    ensures ValidSquare(m.from) && m.from != m.to && EnPassantVictim(st, m) != Some(m.from) && m.castling.None? ==>
      r[m.from] == 0
  {
    var b1 := Put(Put(st.board, m.from, 0), m.to, Landing(m));
    var victim := EnPassantVictim(st, m);
    var b2 := if victim.None? then b1 else Put(b1, victim.value, 0);
    if m.castling.None? then b2
    else
      var white := WhiteToMove(st);
      Put(Put(b2, RookHome(white, m.castling.value), 0), RookLanding(white, m.castling.value), CastlingRook(white))
  }

  /** The white board after `applyMove`: an en-passant victim taken by
      anything but a white pawn is cleared, the rook of white's castling
      moves, and then white's move is written, or black's destination is
      cleared. */
  function WhiteAfter(st: State, m: Move): (r: Board)
    ensures forall sq | 0 <= sq < 64 && sq !in Touched(st, m) :: r[sq] == st.white[sq]
  {
    var white := WhiteToMove(st);
    var victim := EnPassantVictim(st, m);
    var w2 := if victim.Some? && m.piece != WhitePawn then Put(st.white, victim.value, 0) else st.white;
    var w3 :=
      if m.castling.Some? && white
      then Put(Put(w2, RookHome(true, m.castling.value), 0), RookLanding(true, m.castling.value), WhiteRook)
      else w2;
    if white then Put(Put(w3, m.from, 0), m.to, Landing(m)) else Put(w3, m.to, 0)
  }

  /** The black board after `applyMove`, symmetrically: a victim taken by a
      white pawn is cleared, the rook of black's castling moves, and then
      black's move is written, or white's destination is cleared. */
  function BlackAfter(st: State, m: Move): (r: Board)
    ensures forall sq | 0 <= sq < 64 && sq !in Touched(st, m) :: r[sq] == st.black[sq]
  {
    var white := WhiteToMove(st);
    var victim := EnPassantVictim(st, m);
    var k2 := if victim.Some? && m.piece == WhitePawn then Put(st.black, victim.value, 0) else st.black;
    var k3 :=
      if m.castling.Some? && !white
      then Put(Put(k2, RookHome(false, m.castling.value), 0), RookLanding(false, m.castling.value), BlackRook)
      else k2;
    if white then Put(k3, m.to, 0) else Put(Put(k3, m.from, 0), m.to, Landing(m))
  }

  /** `applyMove`: the three boards as above, and the king cache follows a
      king's move. */
  function ApplyMove(st: State, m: Move): (r: State)
    ensures r.side == st.side && r.castling == st.castling && r.enPassant == st.enPassant
    ensures r.halfMoves == st.halfMoves && r.moveCount == st.moveCount
    ensures forall sq | 0 <= sq < 64 && sq !in Touched(st, m) ::
      r.board[sq] == st.board[sq] && r.white[sq] == st.white[sq] && r.black[sq] == st.black[sq]
    ensures ValidSquare(m.to) && m.castling.None? ==> r.board[m.to] == Landing(m)
    ensures ValidSquare(m.from) && m.from != m.to && EnPassantVictim(st, m) != Some(m.from) && m.castling.None? ==>
      r.board[m.from] == 0
    ensures r.whiteKing == (if m.piece == WhiteKing then m.to else st.whiteKing)
    ensures r.blackKing == (if m.piece == BlackKing then m.to else st.blackKing)
  {
    st.(board := BoardAfter(st, m), white := WhiteAfter(st, m), black := BlackAfter(st, m),
        whiteKing := if m.piece == WhiteKing then m.to else st.whiteKing,
        blackKing := if m.piece == BlackKing then m.to else st.blackKing)
  }

  /** `applyEnPassant`: after a pawn's two-square advance from its starting
      rank the en-passant square is the square it passed over; after any
      other move there is none. */
  function EnPassantAfter(m: Move): (r: Option<int>)
    ensures r.Some? <==>
      (m.piece == WhitePawn && OnRank(m.from, 1) && m.to == m.from + 16)
      || (m.piece == BlackPawn && OnRank(m.from, 6) && m.to == m.from - 16)
    ensures r.Some? ==> r.value + r.value == m.from + m.to && ValidSquare(r.value)
  {
    if m.piece == WhitePawn && OnRank(m.from, 1) && m.to - m.from == 16 then Some(m.from + 8)
    else if m.piece == BlackPawn && OnRank(m.from, 6) && m.from - m.to == 16 then Some(m.from - 8)
    else None
  }

  /** The game's private `move` on the position: every step, then the side
      to move flips. */
  function Play(st: State, m: Move): (r: State)
    ensures r.side == Opposite(st.side)
    ensures forall c :: c in r.castling ==> c in st.castling
    ensures r.halfMoves == 0 <==> Resets(st, m)
    ensures r.moveCount == (if st.side == "b" then st.moveCount + 1 else st.moveCount)
  {
    var applied := ApplyMove(st, m);
    applied.(halfMoves := HalfMoveClock(st, m),
             moveCount := MoveCounter(st),
             castling := UpdateCastling(st, m),
             enPassant := EnPassantAfter(m),
             side := Opposite(st.side))
  }
}
