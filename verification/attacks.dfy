/** The attack oracle: attack-only variants of each piece's movement rule,
    probed for one target square, and `isColorAttackingSquare` built on them.
    Pawns attack only their two forward diagonals; sliding attacks stop at
    the first occupied square whatever its colour, counting that square. */
module Attacks {
  import opened Pieces
  import opened Squares
  import opened Rays
  import opened Position

  /** `getSlidingAttacks` for one direction, from step `step` on: does the
      walk reach `target`? */
  function RayReaches(board: Board, from: int, ray: Ray, step: nat, target: int): bool
    decreases ray.steps - step
  {
    if step >= ray.steps then false
    else
      var pos := Cell(from, ray.delta, step + 1);
      if !ValidSquare(pos) then false
      else if pos == target then true
      else if board[pos] != 0 then false
      else RayReaches(board, from, ray, step + 1, target)
  }

  /** The squares strictly between the start and the `k`-th step are on the
      board and empty. */
  predicate ClearUpTo(board: Board, from: int, delta: int, lo: nat, k: int) {
    forall j | lo < j < k :: ValidSquare(Cell(from, delta, j)) && board[Cell(from, delta, j)] == 0
  }

  /** Independent description of a sliding attack: the target is the `k`-th
      square of the ray for some `k` within the limit, and every square
      before it is empty. */
  lemma {:induction false} RayReachesIff(board: Board, from: int, ray: Ray, step: nat, target: int)
    ensures RayReaches(board, from, ray, step, target) <==>
      exists k | step < k <= ray.steps ::
        Cell(from, ray.delta, k) == target && ValidSquare(target) && ClearUpTo(board, from, ray.delta, step, k)
    decreases ray.steps - step
  {
    if step < ray.steps {
      var pos := Cell(from, ray.delta, step + 1);
      RayReachesIff(board, from, ray, step + 1, target);
      if RayReaches(board, from, ray, step, target) {
        if pos == target {
          assert ClearUpTo(board, from, ray.delta, step, step + 1);
        } else {
          var k :| step + 1 < k <= ray.steps && Cell(from, ray.delta, k) == target && ValidSquare(target)
                   && ClearUpTo(board, from, ray.delta, step + 1, k);
          assert ClearUpTo(board, from, ray.delta, step, k);
        }
      } else {
        forall k | step < k <= ray.steps
          ensures !(Cell(from, ray.delta, k) == target && ValidSquare(target) && ClearUpTo(board, from, ray.delta, step, k))
        {
          if k > step + 1 && Cell(from, ray.delta, k) == target && ValidSquare(target) && ClearUpTo(board, from, ray.delta, step, k) {
            assert ValidSquare(Cell(from, ray.delta, step + 1)) && board[pos] == 0;
            assert ClearUpTo(board, from, ray.delta, step + 1, k);
          }
        }
      }
    }
  }

  /** Some direction of the list reaches the target. */
  predicate AnyRayReaches(board: Board, from: int, rays: seq<Ray>, target: int) {
    exists k | 0 <= k < |rays| :: RayReaches(board, from, rays[k], 0, target)
  }

  /** `getKnightPossibleAttacks`: the eight leaps, each guarded by the file
      distance to the edge so that no leap wraps to the other side. */
  predicate KnightReaches(from: int, target: int) {
    var f := FileOf(from);
    ValidSquare(target) &&
    ( (f < 7 && (target == from + 17 || target == from - 15))
    || (f < 6 && (target == from + 10 || target == from - 6))
    || (f > 0 && (target == from - 17 || target == from + 15))
    || (f > 1 && (target == from - 10 || target == from + 6)))
  }

  /** `getPawnAttacksForWhite`: the two forward diagonals. */
  predicate WhitePawnReaches(from: int, target: int) {
    ValidSquare(target) &&
    ((!OnFile(from, 0) && target == from + 7) || (!OnFile(from, 7) && target == from + 9))
  }

  /** `getPawnAttacksForBlack`. */
  predicate BlackPawnReaches(from: int, target: int) {
    ValidSquare(target) &&
    ((!OnFile(from, 0) && target == from - 9) || (!OnFile(from, 7) && target == from - 7))
  }

  /** The dispatch inside `isColorAttackingSquare` for the piece code found
      on `from`. */
  predicate PieceAttacks(board: Board, piece: int, from: int, target: int) {
    if piece == WhitePawn then WhitePawnReaches(from, target)
    else if piece == BlackPawn then BlackPawnReaches(from, target)
    else if piece == WhiteKnight || piece == BlackKnight then KnightReaches(from, target)
    else if piece == WhiteBishop || piece == BlackBishop then AnyRayReaches(board, from, BishopRays(from), target)
    else if piece == WhiteRook || piece == BlackRook then AnyRayReaches(board, from, RookRays(from), target)
    else if piece == WhiteQueen || piece == BlackQueen then AnyRayReaches(board, from, QueenRays(from), target)
    else if piece == WhiteKing || piece == BlackKing then AnyRayReaches(board, from, KingRays(from), target)
    else false
  }

  /** The colour board `isColorAttackingSquare` scans: "w" selects the white
      board, anything else the black one. */
  function PiecesOf(st: State, colour: string): Board {
    if colour == "w" then st.white else st.black
  }

  /** `isColorAttackingSquare`: some piece on the colour's board attacks the
      square. */
  predicate Attacked(colour: string, st: State, target: int) {
    exists pos | 0 <= pos < 64 ::
      PiecesOf(st, colour)[pos] != 0 && PieceAttacks(st.board, PiecesOf(st, colour)[pos], pos, target)
  }

  /** A piece of the given colour on the board itself. */
  predicate OwnedBy(piece: int, white: bool) {
    if white then piece > 0 else piece < 0
  }

  /** When the colour boards agree with the board, the probe through the
      colour board sees exactly the pieces of that colour on the board. */
  lemma AttackedOnBoard(st: State, white: bool, target: int)
    requires ColoursMatch(st)
    ensures Attacked(ColourName(white), st, target) <==>
      exists pos | 0 <= pos < 64 :: OwnedBy(st.board[pos], white) && PieceAttacks(st.board, st.board[pos], pos, target)
  {
    var b := PiecesOf(st, ColourName(white));
    assert forall pos | 0 <= pos < 64 :: b[pos] == (if OwnedBy(st.board[pos], white) then st.board[pos] else 0);
  }

  /** A knight's leap changes file by one and rank by two, or file by two
      and rank by one: the file guards rule out leaps across an edge. */
  lemma KnightGeometry(from: int, target: int)
    requires ValidSquare(from) && KnightReaches(from, target)
    ensures var df := FileOf(target) - FileOf(from);
            var dr := RankOf(target) - RankOf(from);
            ((df == 1 || df == -1) && (dr == 2 || dr == -2)) || ((df == 2 || df == -2) && (dr == 1 || dr == -1))
  {
    SquareParts(from);
    SquareParts(target);
  }

  /** A pawn attacks one file to either side, one rank forward. */
  lemma PawnAttackGeometry(from: int, target: int)
    requires ValidSquare(from)
    ensures WhitePawnReaches(from, target) ==>
      RankOf(target) == RankOf(from) + 1 && (FileOf(target) == FileOf(from) + 1 || FileOf(target) == FileOf(from) - 1)
    ensures BlackPawnReaches(from, target) ==>
      RankOf(target) == RankOf(from) - 1 && (FileOf(target) == FileOf(from) + 1 || FileOf(target) == FileOf(from) - 1)
  {
    SquareParts(from);
    if WhitePawnReaches(from, target) || BlackPawnReaches(from, target) {
      SquareParts(target);
    }
  }
}
