/** What the move generator guarantees about its moves in a sound
    position: each fits the position in the sense `applyMove` needs, and a
    move onto an occupied square is an attack of the mover's piece, so that
    the attack probe sees every capture the generator offers. */
module GeneratorFacts {
  import opened Wrappers
  import opened Pieces
  import opened Squares
  import opened Rays
  import opened Position
  import opened Attacks
  import opened MoveGen
  import opened Play
  import opened Invariants

  /** The shape every move of a sliding walk has. */
  predicate Slides(st: State, from: int, m: Move) {
    && ValidSquare(from) && m.from == from && m.piece == st.board[from]
    && ValidSquare(m.to) && m.to != from
    && m.promotion.None? && m.castling.None?
    && (st.board[m.to] == 0 || CanTake(WhiteToMove(st), st.board[m.to]))
  }

  lemma {:induction false} RayMoveFacts(st: State, from: int, ray: Ray, step: nat, m: Move)
    requires ValidSquare(from) && ray.delta != 0
    requires m in RayMoves(st, from, ray, step)
    ensures Slides(st, from, m) && RayReaches(st.board, from, ray, step, m.to)
    decreases ray.steps - step
  {
    var pos := Cell(from, ray.delta, step + 1);
    assert pos != from by {
      assert (step + 1) * ray.delta != 0;
    }
    if st.board[pos] == 0 && m != Quiet(st.board[from], from, pos) {
      RayMoveFacts(st, from, ray, step + 1, m);
    }
  }

  lemma {:induction false} RaysMoveFacts(st: State, from: int, rays: seq<Ray>, m: Move)
    requires ValidSquare(from) && forall k | 0 <= k < |rays| :: rays[k].delta != 0
    requires m in RaysMoves(st, from, rays)
    ensures Slides(st, from, m) && AnyRayReaches(st.board, from, rays, m.to)
  {
    if m in RayMoves(st, from, rays[0], 0) {
      RayMoveFacts(st, from, rays[0], 0, m);
    } else {
      RaysMoveFacts(st, from, rays[1..], m);
      var k :| 0 <= k < |rays[1..]| && RayReaches(st.board, from, rays[1..][k], 0, m.to);
      assert rays[k + 1] == rays[1..][k];
    }
  }

  lemma LeapFacts(st: State, piece: int, from: int, offset: int, m: Move)
    requires m in Leap(st, piece, from, offset)
    ensures m == Quiet(piece, from, from + offset) && ValidSquare(m.to)
    ensures st.board[m.to] == 0 || CanTake(WhiteToMove(st), st.board[m.to])
  {
  }

  lemma KnightMoveFacts(st: State, from: int, m: Move)
    requires ValidSquare(from)
    requires m in KnightMoves(st, from)
    ensures m.from == from && m.piece == (if WhiteToMove(st) then WhiteKnight else BlackKnight)
    ensures ValidSquare(m.to) && m.to != from && m.promotion.None? && m.castling.None?
    ensures st.board[m.to] == 0 || CanTake(WhiteToMove(st), st.board[m.to])
    ensures KnightReaches(from, m.to)
  {
    var piece := if WhiteToMove(st) then WhiteKnight else BlackKnight;
    var f := FileOf(from);
    if f < 7 && m in Leap(st, piece, from, 17) {
      LeapFacts(st, piece, from, 17, m);
    } else if f < 7 && m in Leap(st, piece, from, -15) {
      LeapFacts(st, piece, from, -15, m);
    } else if f < 6 && m in Leap(st, piece, from, 10) {
      LeapFacts(st, piece, from, 10, m);
    } else if f < 6 && m in Leap(st, piece, from, -6) {
      LeapFacts(st, piece, from, -6, m);
    } else if f > 0 && m in Leap(st, piece, from, -17) {
      LeapFacts(st, piece, from, -17, m);
    } else if f > 0 && m in Leap(st, piece, from, 15) {
      LeapFacts(st, piece, from, 15, m);
    } else if f > 1 && m in Leap(st, piece, from, -10) {
      LeapFacts(st, piece, from, -10, m);
    } else {
      assert f > 1 && m in Leap(st, piece, from, 6);
      LeapFacts(st, piece, from, 6, m);
    }
  }

  /** The facts about a pawn move `Fits` asks for, and the attack a pawn
      capture is. */
  predicate PawnFits(st: State, from: int, m: Move) {
    var white := WhiteToMove(st);
    && m.from == from && m.piece == (if white then WhitePawn else BlackPawn)
    && ValidSquare(m.to) && m.to != from && m.castling.None?
    && (st.board[m.to] == 0 || CanTake(white, st.board[m.to]))
    && (m.promotion.Some? ==>
          && OnRank(m.to, if white then 7 else 0)
          && Own(st, m.promotion.value) && !IsKing(m.promotion.value))
    && (EnPassantVictim(st, m).Some? ==>
          var v := EnPassantVictim(st, m).value;
          && ValidSquare(v) && st.board[m.to] == 0
          && st.board[v] == (if white then BlackPawn else WhitePawn))
    && (EnPassantAfter(m).Some? ==> st.board[EnPassantAfter(m).value] == 0)
    && (st.board[m.to] != 0 ==>
          if white then WhitePawnReaches(from, m.to) else BlackPawnReaches(from, m.to))
  }

  lemma PawnStepFacts(white: bool, from: int, to: int, m: Move)
    requires m in PawnStep(white, from, to)
    ensures m.from == from && m.to == to && m.piece == (if white then WhitePawn else BlackPawn)
    ensures m.castling.None?
    ensures m.promotion.Some? ==>
      && OnRank(to, if white then 7 else 0)
      && m.promotion.value in Promotions(white)
  {
  }

  lemma WhitePawnFacts(st: State, from: int, m: Move)
    requires ValidSquare(from) && WhiteToMove(st) && st.board[from] == WhitePawn
    requires EnPassantSound(st)
    requires m in WhitePawnMoves(st, from)
    ensures PawnFits(st, from, m)
  {
    var one := from + 8;
    var two := from + 16;
    var left := from + 7;
    var right := from + 9;
    SquareParts(from);
    if ValidSquare(one) && st.board[one] == 0 && m in PawnStep(true, from, one) {
      PawnStepFacts(true, from, one, m);
    } else if m == Move(WhitePawn, from, two, None, None) {
    } else if !OnFile(from, 0) && ValidSquare(left) && m in PawnStep(true, from, left) {
      PawnStepFacts(true, from, left, m);
    } else {
      assert !OnFile(from, 7) && ValidSquare(right) && m in PawnStep(true, from, right);
      PawnStepFacts(true, from, right, m);
    }
  }

  lemma BlackPawnFacts(st: State, from: int, m: Move)
    requires ValidSquare(from) && !WhiteToMove(st) && st.board[from] == BlackPawn
    requires EnPassantSound(st)
    requires m in BlackPawnMoves(st, from)
    ensures PawnFits(st, from, m)
  {
    var one := from - 8;
    var two := from - 16;
    var right := from - 9;
    var left := from - 7;
    SquareParts(from);
    if ValidSquare(one) && st.board[one] == 0 && m in PawnStep(false, from, one) {
      PawnStepFacts(false, from, one, m);
    } else if m == Move(BlackPawn, from, two, None, None) {
    } else if !OnFile(from, 0) && ValidSquare(right) && m in PawnStep(false, from, right) {
      PawnStepFacts(false, from, right, m);
    } else {
      assert !OnFile(from, 7) && ValidSquare(left) && m in PawnStep(false, from, left);
      PawnStepFacts(false, from, left, m);
    }
  }

  lemma CastleMoveFacts(st: State, from: int, m: Move)
    requires KingsCached(st) && RightsAtHome(st) && ValidSquare(from)
    requires st.board[from] == (if WhiteToMove(st) then WhiteKing else BlackKing)
    requires m in CastleMoves(st, from)
    ensures m.castling.Some? && m.from == from && CastleFits(st, m)
  {
    var white := WhiteToMove(st);
    var c := m.castling.value;
    if white && c == KingSide {
      assert st.board[4] == WhiteKing;
      var path := [5, 6];
      assert ValidSquare(path[0]) && ValidSquare(path[1]);
    } else if white {
      assert st.board[4] == WhiteKing;
      var path := [1, 2, 3];
      assert ValidSquare(path[1]) && ValidSquare(path[2]);
    } else if c == KingSide {
      assert st.board[60] == BlackKing;
      var path := [61, 62];
      assert ValidSquare(path[0]) && ValidSquare(path[1]);
    } else {
      assert st.board[60] == BlackKing;
      var path := [57, 58, 59];
      assert ValidSquare(path[1]) && ValidSquare(path[2]);
    }
  }

  /** The moves of one of the mover's pieces fit the position (unless they
      land on a king), and those onto an occupied square are attacks of
      that piece. */
  lemma PieceMovesFit(st: State, from: int, m: Move)
    requires Sound(st) && ValidSquare(from) && MoverPieces(st)[from] != 0
    requires m in PieceMoves(st, MoverPieces(st)[from], from)
    ensures ValidSquare(m.to) && m.from == from
    ensures st.board[m.to] == 0 || CanTake(WhiteToMove(st), st.board[m.to])
    ensures !IsKing(st.board[m.to]) ==> Fits(st, m)
    ensures st.board[m.to] != 0 ==> PieceAttacks(st.board, MoverPieces(st)[from], from, m.to)
  {
    var p := MoverPieces(st)[from];
    assert p == st.board[from] && Own(st, p);
    if p == WhitePawn || p == BlackPawn {
      PawnMovesFit(st, from, m);
    } else if p == WhiteKnight || p == BlackKnight {
      KnightMovesFit(st, from, m);
    } else if p == WhiteKing || p == BlackKing {
      KingMovesFit(st, from, m);
    } else {
      SliderMovesFit(st, from, m);
    }
  }

  /** `PieceMovesFit` for a pawn. */
  lemma PawnMovesFit(st: State, from: int, m: Move)
    requires Sound(st) && ValidSquare(from) && MoverPieces(st)[from] != 0
    requires MoverPieces(st)[from] == WhitePawn || MoverPieces(st)[from] == BlackPawn
    requires m in PieceMoves(st, MoverPieces(st)[from], from)
    ensures ValidSquare(m.to) && m.from == from
    ensures st.board[m.to] == 0 || CanTake(WhiteToMove(st), st.board[m.to])
    ensures !IsKing(st.board[m.to]) ==> Fits(st, m)
    ensures st.board[m.to] != 0 ==> PieceAttacks(st.board, MoverPieces(st)[from], from, m.to)
  {
    var p := MoverPieces(st)[from];
    assert p == st.board[from] && Own(st, p);
    if p == WhitePawn {
      WhitePawnFacts(st, from, m);
    } else {
      BlackPawnFacts(st, from, m);
    }
  }

  /** `PieceMovesFit` for a knight. */
  lemma KnightMovesFit(st: State, from: int, m: Move)
    requires Sound(st) && ValidSquare(from) && MoverPieces(st)[from] != 0
    requires MoverPieces(st)[from] == WhiteKnight || MoverPieces(st)[from] == BlackKnight
    requires m in PieceMoves(st, MoverPieces(st)[from], from)
    ensures ValidSquare(m.to) && m.from == from
    ensures st.board[m.to] == 0 || CanTake(WhiteToMove(st), st.board[m.to])
    ensures !IsKing(st.board[m.to]) ==> Fits(st, m)
    ensures st.board[m.to] != 0 ==> PieceAttacks(st.board, MoverPieces(st)[from], from, m.to)
  {
    var p := MoverPieces(st)[from];
    assert p == st.board[from] && Own(st, p);
    KnightMoveFacts(st, from, m);
  }

  /** `PieceMovesFit` for a bishop, rook or queen. */
  lemma SliderMovesFit(st: State, from: int, m: Move)
    requires Sound(st) && ValidSquare(from) && MoverPieces(st)[from] != 0
    requires !IsPawn(MoverPieces(st)[from]) && !IsKing(MoverPieces(st)[from])
    requires MoverPieces(st)[from] != WhiteKnight && MoverPieces(st)[from] != BlackKnight
    requires m in PieceMoves(st, MoverPieces(st)[from], from)
    ensures ValidSquare(m.to) && m.from == from
    ensures st.board[m.to] == 0 || CanTake(WhiteToMove(st), st.board[m.to])
    ensures !IsKing(st.board[m.to]) ==> Fits(st, m)
    ensures st.board[m.to] != 0 ==> PieceAttacks(st.board, MoverPieces(st)[from], from, m.to)
  {
    var p := MoverPieces(st)[from];
    assert p == st.board[from] && Own(st, p);
    if p == WhiteBishop || p == BlackBishop {
      RaysMoveFacts(st, from, BishopRays(from), m);
    } else if p == WhiteRook || p == BlackRook {
      RaysMoveFacts(st, from, RookRays(from), m);
    } else {
      RaysMoveFacts(st, from, QueenRays(from), m);
    }
  }

  /** `PieceMovesFit` for a king: a step or a castling. */
  lemma KingMovesFit(st: State, from: int, m: Move)
    requires Sound(st) && ValidSquare(from) && MoverPieces(st)[from] != 0
    requires MoverPieces(st)[from] == WhiteKing || MoverPieces(st)[from] == BlackKing
    requires m in PieceMoves(st, MoverPieces(st)[from], from)
    ensures ValidSquare(m.to) && m.from == from
    ensures st.board[m.to] == 0 || CanTake(WhiteToMove(st), st.board[m.to])
    ensures !IsKing(st.board[m.to]) ==> Fits(st, m)
    ensures st.board[m.to] != 0 ==> PieceAttacks(st.board, MoverPieces(st)[from], from, m.to)
  {
    var p := MoverPieces(st)[from];
    assert p == st.board[from] && Own(st, p);
    assert m in RaysMoves(st, from, KingRays(from)) || m in CastleMoves(st, from);
    if m in RaysMoves(st, from, KingRays(from)) {
      KingStepFits(st, from, m);
    } else {
      KingCastleFits(st, from, m);
    }
  }

  /** A one-square king step. */
  lemma KingStepFits(st: State, from: int, m: Move)
    requires Sound(st) && ValidSquare(from)
    requires st.board[from] == (if WhiteToMove(st) then WhiteKing else BlackKing)
    requires m in RaysMoves(st, from, KingRays(from))
    ensures ValidSquare(m.to) && m.from == from
    ensures st.board[m.to] == 0 || CanTake(WhiteToMove(st), st.board[m.to])
    ensures !IsKing(st.board[m.to]) ==> Fits(st, m)
    ensures st.board[m.to] != 0 ==> PieceAttacks(st.board, st.board[from], from, m.to)
  {
    RaysMoveFacts(st, from, KingRays(from), m);
  }

  /** A castling move. */
  lemma KingCastleFits(st: State, from: int, m: Move)
    requires Sound(st) && ValidSquare(from)
    requires st.board[from] == (if WhiteToMove(st) then WhiteKing else BlackKing)
    requires m in CastleMoves(st, from)
    ensures ValidSquare(m.to) && m.from == from
    ensures st.board[m.to] == 0 || CanTake(WhiteToMove(st), st.board[m.to])
    ensures !IsKing(st.board[m.to]) ==> Fits(st, m)
    ensures st.board[m.to] != 0 ==> PieceAttacks(st.board, st.board[from], from, m.to)
  {
    CastleMoveFacts(st, from, m);
  }


  /* ---------- where generated moves start ---------- */

  lemma {:induction false} RayMovesStart(st: State, from: int, ray: Ray, step: nat, m: Move)
    requires ValidSquare(from) && m in RayMoves(st, from, ray, step)
    ensures m.from == from
    decreases ray.steps - step
  {
    if step < ray.steps && m in RayMoves(st, from, ray, step + 1) {
      RayMovesStart(st, from, ray, step + 1, m);
    }
  }

  lemma {:induction false} RaysMovesStart(st: State, from: int, rays: seq<Ray>, m: Move)
    requires ValidSquare(from) && m in RaysMoves(st, from, rays)
    ensures m.from == from
  {
    if m in RayMoves(st, from, rays[0], 0) {
      RayMovesStart(st, from, rays[0], 0, m);
    } else {
      RaysMovesStart(st, from, rays[1..], m);
    }
  }

  lemma PawnStepStart(white: bool, from: int, to: int, m: Move)
    requires m in PawnStep(white, from, to)
    ensures m.from == from
  {
  }

  lemma WhitePawnStart(st: State, from: int, m: Move)
    requires ValidSquare(from) && m in WhitePawnMoves(st, from)
    ensures m.from == from
  {
    if ValidSquare(from + 8) && st.board[from + 8] == 0 && m in PawnStep(true, from, from + 8) {
      PawnStepStart(true, from, from + 8, m);
    } else if m in PawnStep(true, from, from + 7) {
      PawnStepStart(true, from, from + 7, m);
    } else if m in PawnStep(true, from, from + 9) {
      PawnStepStart(true, from, from + 9, m);
    }
  }

  lemma BlackPawnStart(st: State, from: int, m: Move)
    requires ValidSquare(from) && m in BlackPawnMoves(st, from)
    ensures m.from == from
  {
    if ValidSquare(from - 8) && st.board[from - 8] == 0 && m in PawnStep(false, from, from - 8) {
      PawnStepStart(false, from, from - 8, m);
    } else if m in PawnStep(false, from, from - 9) {
      PawnStepStart(false, from, from - 9, m);
    } else if m in PawnStep(false, from, from - 7) {
      PawnStepStart(false, from, from - 7, m);
    }
  }

  lemma KnightStart(st: State, from: int, m: Move)
    requires ValidSquare(from) && m in KnightMoves(st, from)
    ensures m.from == from
  {
    var piece := if WhiteToMove(st) then WhiteKnight else BlackKnight;
    assert forall offset | m in Leap(st, piece, from, offset) :: m.from == from;
  }

  lemma KingStart(st: State, from: int, m: Move)
    requires ValidSquare(from) && m in KingMoves(st, from)
    ensures m.from == from
  {
    if m in RaysMoves(st, from, KingRays(from)) {
      RaysMovesStart(st, from, KingRays(from), m);
    }
  }

  /** Every move a generator makes for a square starts on that square,
      whatever the position holds. */
  lemma PieceMovesStart(st: State, piece: int, from: int, m: Move)
    requires ValidSquare(from) && m in PieceMoves(st, piece, from)
    ensures m.from == from
  {
    if piece == WhitePawn {
      WhitePawnStart(st, from, m);
    } else if piece == BlackPawn {
      BlackPawnStart(st, from, m);
    } else if piece == WhiteKnight || piece == BlackKnight {
      KnightStart(st, from, m);
    } else if piece == WhiteBishop || piece == BlackBishop {
      RaysMovesStart(st, from, BishopRays(from), m);
    } else if piece == WhiteRook || piece == BlackRook {
      RaysMovesStart(st, from, RookRays(from), m);
    } else if piece == WhiteQueen || piece == BlackQueen {
      RaysMovesStart(st, from, QueenRays(from), m);
    } else {
      KingStart(st, from, m);
    }
  }

  /** Every pseudo-legal move comes from one square of the mover's board. */
  lemma {:induction false} PseudoMoveSource(st: State, pos: nat, m: Move)
    requires pos <= 64 && m in PseudoMovesFrom(st, pos)
    ensures exists q | pos <= q < 64 :: MoverPieces(st)[q] != 0 && m in PieceMoves(st, MoverPieces(st)[q], q)
    decreases 64 - pos
  {
    if pos < 64 {
      var piece := MoverPieces(st)[pos];
      if !(piece != 0 && m in PieceMoves(st, piece, pos)) {
        PseudoMoveSource(st, pos + 1, m);
      }
    }
  }

  /** In a sound position every pseudo-legal move that does not land on a
      king fits, and every capture it offers is an attack the probe sees. */
  lemma PseudoMoveFacts(st: State, m: Move)
    requires Sound(st) && m in PseudoMoves(st)
    ensures ValidSquare(m.to)
    ensures st.board[m.to] == 0 || CanTake(WhiteToMove(st), st.board[m.to])
    ensures !IsKing(st.board[m.to]) ==> Fits(st, m)
    ensures st.board[m.to] != 0 ==> Attacked(ColourName(WhiteToMove(st)), st, m.to)
  {
    PseudoMoveSource(st, 0, m);
    var q :| 0 <= q < 64 && MoverPieces(st)[q] != 0 && m in PieceMoves(st, MoverPieces(st)[q], q);
    PieceMovesFit(st, q, m);
    if st.board[m.to] != 0 {
      var pieces := PiecesOf(st, ColourName(WhiteToMove(st)));
      assert pieces == MoverPieces(st);
      assert pieces[q] != 0 && PieceAttacks(st.board, pieces[q], q, m.to);
    }
  }
}
