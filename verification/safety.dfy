/** Play by legal moves from a settled position: the position stays
    settled, every move is one `applyMove` handles correctly, every move can
    be scored, and so the search never meets a missing table. */
module Safety {
  import opened Wrappers
  import opened Pieces
  import opened Squares
  import opened Position
  import opened Attacks
  import opened MoveGen
  import opened Play
  import opened Invariants
  import opened GeneratorFacts
  import opened Engine
  import opened Evaluation
  import opened AlphaBeta

  /** A sound position in which the side that just moved is not in check
      (no pseudo-legal move can take a king). */
  predicate Settled(st: State) {
    Sound(st) && !KingAttacked(st, !WhiteToMove(st))
  }

  /** Every legal move of a settled position fits it. */
  lemma LegalMoveFits(st: State, m: Move)
    requires Settled(st) && m in LegalMoves(st)
    ensures Fits(st, m)
  {
    assert m in PseudoMoves(st);
    PseudoMoveFacts(st, m);
  }

  /** A legal move keeps the position settled: it fits, so the position
      stays sound, and the legality filter keeps the mover's king, now the
      king of the side not to move, out of attack. */
  lemma LegalKeepsSettled(st: State, m: Move)
    requires Settled(st) && m in LegalMoves(st)
    ensures Settled(Play.Play(st, m))
  {
    LegalMoveFits(st, m);
    PlayKeepsSound(st, m);
  }

  /** Every legal move of a settled position has a score. */
  lemma LegalScorable(st: State, m: Move, ai: bool)
    requires Settled(st) && m in LegalMoves(st)
    ensures MoveScore(st, m, ai).Some?
  {
    LegalMoveFits(st, m);
    FitsScorable(st, m, ai);
  }

  /** A move that fits its position has a score: both squares are on the
      board, and the moving, arriving and taken pieces all have tables. */
  lemma FitsScorable(st: State, m: Move, ai: bool)
    requires Fits(st, m)
    ensures MoveScore(st, m, ai).Some?
  {
    assert PieceTable(WhiteToMove(st), m.piece).Some?;
    assert PieceTable(WhiteToMove(st), Arriving(m)).Some?;
  }

  /** Each move of `ms` is legal in the position the moves before it
      lead to. */
  predicate LegalLine(g: Game, ms: seq<Move>)
    decreases |ms|
  {
    |ms| == 0 || (LegalLine(g, ms[..|ms| - 1]) && ms[|ms| - 1] in LegalMoves(PlayAll(g, ms[..|ms| - 1]).state))
  }

  /** Making legal moves one after another from a settled position keeps
      the game's position settled. */
  lemma {:induction false} PlayAllSettled(g: Game, ms: seq<Move>)
    requires Settled(g.state) && LegalLine(g, ms)
    ensures Settled(PlayAll(g, ms).state)
    decreases |ms|
  {
    if |ms| > 0 {
      var init := ms[..|ms| - 1];
      PlayAllSettled(g, init);
      MoveSettles(PlayAll(g, init), ms[|ms| - 1]);
    }
  }

  /** From a settled position the search always completes: every score it
      asks for exists, at every depth. */
  lemma {:induction false} SearchSucceeds(g: Game, depth: int, ai: bool, alpha: Score, beta: Score, score: int)
    requires Settled(g.state)
    ensures Search(g, depth, ai, alpha, beta, score).Ok?
    decreases Depth(depth), 3
  {
    var moves := LegalMoves(g.state);
    if depth >= 1 && |moves| > 0 {
      var scored := MovesScored(g.state, ai);
      SortedAmong(ai, scored, moves);
      RepliesSucceed(g, depth, ai);
      ChildrenOk(g, depth, ai, moves, SortScored(ai, scored), 0, score, Opening(alpha, beta));
    }
  }

  /** Every legal move of a settled position is scored. */
  lemma MovesScored(st: State, ai: bool) returns (scored: seq<Scored>)
    requires Settled(st)
    ensures ScoreMoves(st, LegalMoves(st), ai) == Some(scored)
  {
    var moves := LegalMoves(st);
    forall k | 0 <= k < |moves| ensures MoveScore(st, moves[k], ai).Some? {
      LegalScorable(st, moves[k], ai);
    }
    ScoreMovesSome(st, moves, ai);
    scored := ScoreMoves(st, moves, ai).value;
  }

  /** The reply to every legal move of a settled position is searched to
      completion, one ply down, whatever the window and score. */
  lemma {:induction false} RepliesSucceed(g: Game, depth: int, ai: bool)
    requires Settled(g.state) && depth >= 1
    ensures forall m, a, b, s | m in LegalMoves(g.state) :: ReplyOk(g, m, depth, ai, a, b, s)
    decreases Depth(depth), 2
  {
    forall m, a, b, s | m in LegalMoves(g.state) ensures ReplyOk(g, m, depth, ai, a, b, s) {
      ReplySucceeds(g, m, depth, ai, a, b, s);
    }
  }

  /** The reply to one legal move of a settled position is searched to
      completion. */
  lemma {:induction false} ReplySucceeds(g: Game, m: Move, depth: int, ai: bool, alpha: Score, beta: Score, score: int)
    requires Settled(g.state) && depth >= 1 && m in LegalMoves(g.state)
    ensures ReplyOk(g, m, depth, ai, alpha, beta, score)
    decreases Depth(depth), 1
  {
    MoveSettles(g, m);
    SettledReplySucceeds(g, m, depth, ai, alpha, beta, score);
  }

  /** A legal move leaves the game in a settled position. */
  lemma MoveSettles(g: Game, m: Move)
    requires Settled(g.state) && m in LegalMoves(g.state)
    ensures Settled(MakeMove(g, m).state)
  {
    LegalKeepsSettled(g.state, m);
  }

  /** The search after a move into a settled position completes. */
  lemma {:induction false} SettledReplySucceeds(
    g: Game, m: Move, depth: int, ai: bool, alpha: Score, beta: Score, score: int)
    requires Settled(MakeMove(g, m).state) && depth >= 1
    ensures ReplyOk(g, m, depth, ai, alpha, beta, score)
    decreases Depth(depth), 0
  {
    SearchSucceeds(MakeMove(g, m), depth - 1, !ai, alpha, beta, score);
  }

  /** `bestMove` from a settled position with a legal move finds one. */
  lemma BestMoveFound(g: Game, depth: int)
    requires Settled(g.state) && depth >= 1 && |LegalMoves(g.state)| > 0
    ensures BestMove(g, depth).Ok? && BestMove(g, depth).value.Some?
  {
    SearchSucceeds(g, depth, true, NegInf, PosInf, 0);
  }
}
