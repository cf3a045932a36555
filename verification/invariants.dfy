/** The standing invariant of positions reached by legal play, and its
    preservation by `Play` for any move that fits the position: the colour
    boards and king cache stay in step with the board, held castling rights
    keep their king and rook at home, and an en-passant square sits behind
    an enemy pawn that has just made its double step. */
module Invariants {
  import opened Wrappers
  import opened Pieces
  import opened Squares
  import opened Position
  import opened Play

  /** A piece of the side to move. */
  predicate Own(st: State, p: int) {
    if WhiteToMove(st) then 1 <= p <= 6 else -6 <= p <= -1
  }

  /** A piece of the side not to move. */
  predicate Enemy(st: State, p: int) {
    if WhiteToMove(st) then -6 <= p <= -1 else 1 <= p <= 6
  }

  /** The king's home square and the square it castles to. */
  function KingHome(white: bool): int { if white then 4 else 60 }

  function KingTarget(white: bool, c: Castle): int {
    KingHome(white) + (if c == KingSide then 2 else -2)
  }

  function OwnRook(white: bool): int { if white then WhiteRook else BlackRook }

  /** Each held castling right has its king and its rook on their home
      squares. */
  predicate RightsAtHome(st: State) {
    && ('K' in st.castling ==> st.board[4] == WhiteKing && st.board[7] == WhiteRook)
    && ('Q' in st.castling ==> st.board[4] == WhiteKing && st.board[0] == WhiteRook)
    && ('k' in st.castling ==> st.board[60] == BlackKing && st.board[63] == BlackRook)
    && ('q' in st.castling ==> st.board[60] == BlackKing && st.board[56] == BlackRook)
  }

  /** An en-passant square is empty, on the sixth rank from the mover's
      side, with the enemy pawn that passed over it just behind it. */
  predicate EnPassantSound(st: State) {
    st.enPassant.Some? ==>
      var e := st.enPassant.value;
      && ValidSquare(e) && st.board[e] == 0
      && if WhiteToMove(st) then RankOf(e) == 5 && st.board[e - 8] == BlackPawn
         else RankOf(e) == 2 && st.board[e + 8] == WhitePawn
  }

  /** What `applyMove` silently relies on: a move of one of the mover's
      pieces from its square to another square of the board holding no
      friendly piece and no king; a promotion only on the last rank, to a
      piece of the mover other than a king; an en-passant capture removing
      an enemy pawn; a double step over an empty square; and a castling
      move of the king from home, two squares towards a rook at home, with
      the rook's landing square and the king's empty. */
  predicate Fits(st: State, m: Move) {
    var white := WhiteToMove(st);
    && ValidSquare(m.from) && ValidSquare(m.to) && m.from != m.to
    && st.board[m.from] == m.piece && Own(st, m.piece)
    && (st.board[m.to] == 0 || Enemy(st, st.board[m.to]))
    && !IsKing(st.board[m.to])
    && (m.promotion.Some? ==>
          && IsPawn(m.piece) && OnRank(m.to, if white then 7 else 0)
          && Own(st, m.promotion.value) && !IsKing(m.promotion.value))
    && (EnPassantVictim(st, m).Some? ==>
          var v := EnPassantVictim(st, m).value;
          && ValidSquare(v) && st.board[m.to] == 0
          && st.board[v] == (if white then BlackPawn else WhitePawn))
    && (EnPassantAfter(m).Some? ==> st.board[EnPassantAfter(m).value] == 0)
    && (m.castling.Some? ==> CastleFits(st, m))
  }

  /** A castling move: the king from home, two squares towards its rook,
      the rook at home, and the king's and rook's landing squares empty. */
  predicate CastleFits(st: State, m: Move)
    requires m.castling.Some?
  {
    var white := WhiteToMove(st);
    var c := m.castling.value;
    && m.piece == (if white then WhiteKing else BlackKing)
    && m.promotion.None?
    && m.from == KingHome(white) && m.to == KingTarget(white, c)
    && st.board[KingTarget(white, c)] == 0
    && st.board[RookHome(white, c)] == OwnRook(white)
    && st.board[RookLanding(white, c)] == 0
  }

  /** Moving only the metadata leaves the arrays and the cache alone. */
  lemma ConsistentOfArrays(a: State, b: State)
    requires a.board == b.board && a.white == b.white && a.black == b.black
    requires a.whiteKing == b.whiteKing && a.blackKing == b.blackKing
    ensures Consistent(a) <==> Consistent(b)
  {
  }

  /** The cells `applyMove` writes, by square: for a move that fits, the
      origin, destination, en-passant victim and castling-rook squares are
      all different, so the order of the writes does not matter. */
  function Expected(st: State, m: Move, i: int): int
    requires 0 <= i < 64
  {
    var white := WhiteToMove(st);
    if m.castling.Some? && i == RookLanding(white, m.castling.value) then OwnRook(white)
    else if m.castling.Some? && i == RookHome(white, m.castling.value) then 0
    else if EnPassantVictim(st, m) == Some(i) then 0
    else if i == m.to then Landing(m)
    else if i == m.from then 0
    else st.board[i]
  }

  lemma ApplyBoard(st: State, m: Move)
    requires Consistent(st) && Fits(st, m)
    ensures forall i | 0 <= i < 64 :: ApplyMove(st, m).board[i] == Expected(st, m, i)
  {
  }

  lemma WhiteColours(st: State, m: Move)
    requires Consistent(st) && Fits(st, m)
    ensures forall i | 0 <= i < 64 ::
      WhiteAfter(st, m)[i] == (if Expected(st, m, i) > 0 then Expected(st, m, i) else 0)
  {
  }

  lemma BlackColours(st: State, m: Move)
    requires Consistent(st) && Fits(st, m)
    ensures forall i | 0 <= i < 64 ::
      BlackAfter(st, m)[i] == (if Expected(st, m, i) < 0 then Expected(st, m, i) else 0)
  {
  }

  lemma ApplyColours(st: State, m: Move)
    requires Consistent(st) && Fits(st, m)
    ensures forall i | 0 <= i < 64 ::
      var e := Expected(st, m, i);
      && ApplyMove(st, m).white[i] == (if e > 0 then e else 0)
      && ApplyMove(st, m).black[i] == (if e < 0 then e else 0)
  {
    WhiteColours(st, m);
    BlackColours(st, m);
  }

  lemma ApplyKings(st: State, m: Move)
    requires Consistent(st) && Fits(st, m)
    ensures forall i | 0 <= i < 64 ::
      && (Expected(st, m, i) == WhiteKing <==> i == ApplyMove(st, m).whiteKing)
      && (Expected(st, m, i) == BlackKing <==> i == ApplyMove(st, m).blackKing)
  {
  }

  /** `applyMove` keeps the colour boards and king cache in step with the
      board for a move that fits. */
  lemma ApplyKeepsConsistent(st: State, m: Move)
    requires Consistent(st) && Fits(st, m)
    ensures Consistent(ApplyMove(st, m))
  {
    ApplyBoard(st, m);
    ApplyColours(st, m);
    ApplyKings(st, m);
  }

  /** Every cell holds a piece code or is empty. */
  predicate CodesInRange(st: State) {
    forall i | 0 <= i < 64 :: -6 <= st.board[i] <= 6
  }

  /** The invariant of positions reached by play from a sound start. */
  predicate Sound(st: State) {
    Consistent(st) && CodesInRange(st) && RightsAtHome(st) && EnPassantSound(st)
  }

  lemma PlayBoard(st: State, m: Move)
    requires Consistent(st) && Fits(st, m)
    ensures forall i | 0 <= i < 64 :: Play.Play(st, m).board[i] == Expected(st, m, i)
    ensures Consistent(Play.Play(st, m))
  {
    ApplyBoard(st, m);
    ApplyKeepsConsistent(st, m);
    ConsistentOfArrays(ApplyMove(st, m), Play.Play(st, m));
  }

  /** A right that survives the move still has its king and rook at home:
      a king move or a rook leaving or taken on its corner drops the right,
      and nothing else writes those squares. */
  lemma PlayKeepsRight(st: State, m: Move, right: char, king: int, rook: int, kingHome: int, rookHome: int)
    requires Sound(st) && Fits(st, m)
    requires (right, king, rook, kingHome, rookHome) in
      {('K', WhiteKing, WhiteRook, 4, 7), ('Q', WhiteKing, WhiteRook, 4, 0),
       ('k', BlackKing, BlackRook, 60, 63), ('q', BlackKing, BlackRook, 60, 56)}
    ensures right in Play.Play(st, m).castling ==>
      Play.Play(st, m).board[kingHome] == king && Play.Play(st, m).board[rookHome] == rook
  {
    PlayBoard(st, m);
  }

  lemma PlayKeepsRights(st: State, m: Move)
    requires Sound(st) && Fits(st, m)
    ensures RightsAtHome(Play.Play(st, m))
  {
    PlayKeepsRight(st, m, 'K', WhiteKing, WhiteRook, 4, 7);
    PlayKeepsRight(st, m, 'Q', WhiteKing, WhiteRook, 4, 0);
    PlayKeepsRight(st, m, 'k', BlackKing, BlackRook, 60, 63);
    PlayKeepsRight(st, m, 'q', BlackKing, BlackRook, 60, 56);
  }

  /** The en-passant square after a double step lies behind the pawn that
      made it, for the side now to move; after any other move there is
      none. */
  lemma PlayKeepsEnPassant(st: State, m: Move)
    requires Sound(st) && Fits(st, m)
    ensures EnPassantSound(Play.Play(st, m))
  {
    PlayBoard(st, m);
  }

  /** Every move that fits keeps a sound position sound. */
  lemma PlayKeepsSound(st: State, m: Move)
    requires Sound(st) && Fits(st, m)
    ensures Sound(Play.Play(st, m))
  {
    PlayBoard(st, m);
    PlayKeepsRights(st, m);
    PlayKeepsEnPassant(st, m);
  }
}
