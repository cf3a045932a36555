/** `getBestMove`: a fixed-depth alpha-beta search over the legal moves,
    which plays each candidate on the game and takes it back. */
module AlphaBeta {
  import opened Wrappers
  import opened Position
  import opened Engine
  import opened Evaluation

  /** A search score: an integer, or one of JavaScript's two infinities,
      which only the bounds and the running best start from. */
  datatype Score = NegInf | Fin(n: int) | PosInf

  /** `a > b` on scores. */
  predicate Above(a: Score, b: Score) {
    match (a, b)
    case (PosInf, _) => !b.PosInf?
    case (Fin(x), Fin(y)) => x > y
    case (Fin(_), NegInf) => true
    case _ => false
  }

  /** The score of a mate: `10 ** 10`. */
  const Mate: int := 10000000000

  /** What a search reports: the chosen move (none at depth zero or when
      nothing can be played), its score, and the game as it is left. */
  datatype Outcome = Outcome(move: Option<Move>, score: Score, game: Game)

  /** Each legal move with its `getMoveScore`, in order; `None` when a score
      cannot be computed (the source throws there). */
  function ScoreMoves(st: State, ms: seq<Move>, ai: bool): (r: Option<seq<Scored>>)
    ensures r.Some? ==> |r.value| == |ms|
    ensures r.Some? ==> forall k | 0 <= k < |ms| :: r.value[k].0 == ms[k] && MoveScore(st, ms[k], ai) == Some(r.value[k].1)
  {
    if |ms| == 0 then Some([])
    else
      match MoveScore(st, ms[0], ai)
      case None => None
      case Some(v) =>
        var rest := ScoreMoves(st, ms[1..], ai);
        if rest.None? then None else Some([(ms[0], v)] + rest.value)
  }

  /** The moves are scored exactly when every one of them has a score. */
  lemma {:induction false} ScoreMovesSome(st: State, ms: seq<Move>, ai: bool)
    ensures ScoreMoves(st, ms, ai).Some? <==> forall k | 0 <= k < |ms| :: MoveScore(st, ms[k], ai).Some?
  {
    if |ms| > 0 {
      ScoreMovesSome(st, ms[1..], ai);
      if ScoreMoves(st, ms[1..], ai).None? {
        var k :| 0 <= k < |ms[1..]| && MoveScore(st, ms[1..][k], ai).None?;
        assert ms[k + 1] == ms[1..][k];
      } else {
        forall k | 0 <= k < |ms| && k > 0 ensures MoveScore(st, ms[k], ai).Some? {
          assert ms[k] == ms[1..][k - 1];
        }
      }
    }
  }

  /** Sorting scored moves keeps them among the moves scored. */
  lemma SortedAmong(ai: bool, scored: seq<Scored>, ms: seq<Move>)
    requires |scored| == |ms| && forall k | 0 <= k < |ms| :: scored[k].0 == ms[k]
    ensures forall k | 0 <= k < |SortScored(ai, scored)| :: SortScored(ai, scored)[k].0 in ms
  {
    var sorted := SortScored(ai, scored);
    forall k | 0 <= k < |sorted| ensures sorted[k].0 in ms {
      assert sorted[k] in multiset(scored);
      var j :| 0 <= j < |scored| && scored[j] == sorted[k];
    }
  }

  function Depth(depth: int): nat { if depth < 0 then 0 else depth }

  /** `getBestMove(game, depth, isAISide, alpha, beta, score)`. Below depth
      one: no move and the incoming score. With no legal move: no move and
      the mate score (against the AI side when it is the one in check) or
      the incoming score. Otherwise the scored moves, best first for the
      side, are searched one ply deeper in turn. */
  function Search(g: Game, depth: int, ai: bool, alpha: Score, beta: Score, score: int): (r: Result<Outcome, string>)
    ensures r.Ok? ==> r.value.game == g && r.value.score.Fin?
    ensures depth < 1 ==> r == Ok(Outcome(None, Fin(score), g))
    decreases Depth(depth), 2, 0
  {
    if depth < 1 then Ok(Outcome(None, Fin(score), g))
    else
      var moves := LegalMoves(g.state);
      if |moves| == 0 then
        Ok(Outcome(None, Fin(if InCheck(g.state) then (if ai then -Mate else Mate) else score), g))
      else
        match ScoreMoves(g.state, moves, ai)
        case None => Err("TypeError")
        case Some(scored) =>
          var sorted := SortScored(ai, scored);
          SortedAmong(ai, scored, moves);
          SearchChildren(g, depth, ai, moves, sorted, 0, score, Opening(alpha, beta))
  }

  /** What the search reports about the position it is given: a move only
      from depth one on, and then a legal one whenever there is one; with
      no legal move the mate or incoming score; and it fails only on a
      position with legal moves, when one of them has no score. */
  lemma SearchSpec(g: Game, depth: int, ai: bool, alpha: Score, beta: Score, score: int)
    ensures var r := Search(g, depth, ai, alpha, beta, score);
      && (r.Ok? && r.value.move.Some? ==> depth >= 1 && r.value.move.value in LegalMoves(g.state))
      && (r.Ok? && depth >= 1 && |LegalMoves(g.state)| > 0 ==> r.value.move.Some?)
      && (depth >= 1 && |LegalMoves(g.state)| == 0 ==>
            r == Ok(Outcome(None, Fin(if InCheck(g.state) then (if ai then -Mate else Mate) else score), g)))
      && (r.Err? ==> depth >= 1 && |LegalMoves(g.state)| > 0)
  {
  }

  /** The loop variables of `getBestMove`: the bounds, the running best
      score of each side and the move that set it. */
  datatype Window = Window(alpha: Score, beta: Score, highest: Score, lowest: Score, best: Option<Move>)

  /** The loop's start: the full window passed in, no best yet. */
  function Opening(alpha: Score, beta: Score): Window {
    Window(alpha, beta, NegInf, PosInf, None)
  }

  /** One loop step after move `m`'s reply scored `child`: the AI side keeps
      the highest score and raises `alpha`, the other side keeps the lowest
      and lowers `beta`; a score equal to the running best does not replace
      it. */
  function Update(ai: bool, w: Window, m: Move, child: Score): (r: Window)
    ensures ai ==> r.lowest == w.lowest && r.beta == w.beta
    ensures !ai ==> r.highest == w.highest && r.alpha == w.alpha
    ensures r.best == w.best || r.best == Some(m)
    ensures ai && Above(child, w.highest) ==> r.highest == child && r.best == Some(m)
    ensures ai && !Above(child, w.highest) ==> r.highest == w.highest && r.best == w.best
    ensures !ai && Above(w.lowest, child) ==> r.lowest == child && r.best == Some(m)
    ensures !ai && !Above(w.lowest, child) ==> r.lowest == w.lowest && r.best == w.best
  {
    if ai then
      var improves := Above(child, w.highest);
      w.(highest := if improves then child else w.highest,
         best := if improves then Some(m) else w.best,
         alpha := if Above(child, w.alpha) then child else w.alpha)
    else
      var improves := Above(w.lowest, child);
      w.(lowest := if improves then child else w.lowest,
         best := if improves then Some(m) else w.best,
         beta := if Above(w.beta, child) then child else w.beta)
  }

  /** The state the loop may be in before candidate `i`. */
  predicate LoopReady(ai: bool, legal: seq<Move>, i: nat, w: Window) {
    && (w.best.Some? ==> w.best.value in legal)
    && (i == 0 ==> w.highest == NegInf && w.lowest == PosInf && w.best.None?)
    && (i > 0 ==> w.best.Some? && (if ai then w.highest.Fin? else w.lowest.Fin?))
  }

  /** The score handed down to the search of a reply: the score so far
      plus the move's own. */
  function Carried(score: int, moveScore: int): int {
    moveScore + score
  }

  /** The reply's score in one turn of the loop of `getBestMove` on
      candidate `m`: play it, search the reply with the bounds so far and
      the score so far plus the move's own, and take the move back. */
  function ReplyScore(g: Game, depth: int, ai: bool, m: Move, moveScore: int, score: int, w: Window)
    : (r: Result<Score, string>)
    requires depth >= 1
    ensures r.Ok? ==> r.value.Fin?
    decreases Depth(depth), 0, 0
  {
    match Search(MakeMove(g, m), depth - 1, !ai, w.alpha, w.beta, Carried(score, moveScore))
    case Err(e) => Err(e)
    case Ok(child) => Ok(child.score)
  }

  /** The loop of `getBestMove` from candidate `i` on: a turn per
      candidate, which updates the window with the reply's score,
      stopping once `alpha >= beta`. */
  function SearchChildren(
    g: Game, depth: int, ai: bool, legal: seq<Move>, sorted: seq<Scored>, i: nat, score: int, w: Window)
    : (r: Result<Outcome, string>)
    requires depth >= 1 && i <= |sorted|
    requires forall k | 0 <= k < |sorted| :: sorted[k].0 in legal
    requires LoopReady(ai, legal, i, w)
    ensures r.Ok? ==> r.value.game == g
    ensures r.Ok? && |sorted| > 0 ==> r.value.move.Some? && r.value.move.value in legal && r.value.score.Fin?
    decreases Depth(depth), 1, |sorted| - i
  {
    if i == |sorted| then Ok(Outcome(w.best, if ai then w.highest else w.lowest, g))
    else
      var (m, moveScore) := sorted[i];
      match ReplyScore(g, depth, ai, m, moveScore, score, w)
      case Err(e) => Err(e)
      case Ok(c) =>
        var w' := Update(ai, w, m, c);
        UpdateReady(ai, legal, i, w, m, c);
        if !Above(w'.beta, w'.alpha) then
          Ok(Outcome(w'.best, if ai then w'.highest else w'.lowest, g))
        else
          SearchChildren(g, depth, ai, legal, sorted, i + 1, score, w')
  }

  /** A turn of the loop with a finite reply score keeps the loop ready. */
  lemma UpdateReady(ai: bool, legal: seq<Move>, i: nat, w: Window, m: Move, child: Score)
    requires LoopReady(ai, legal, i, w) && m in legal && child.Fin?
    ensures LoopReady(ai, legal, i + 1, Update(ai, w, m, child))
  {
  }

  /** The search one ply below `g`, after move `m`, completes. */
  predicate ReplyOk(g: Game, m: Move, depth: int, ai: bool, alpha: Score, beta: Score, score: int) {
    Search(MakeMove(g, m), depth - 1, !ai, alpha, beta, score).Ok?
  }

  /** The loop before candidate `i`, ready, among moves whose reply
      searches all complete. */
  ghost predicate Running(g: Game, depth: int, ai: bool, legal: seq<Move>, sorted: seq<Scored>, i: nat, w: Window) {
    && depth >= 1 && i <= |sorted|
    && (forall k | 0 <= k < |sorted| :: sorted[k].0 in legal)
    && LoopReady(ai, legal, i, w)
    && (forall m, a, b, s | m in legal :: ReplyOk(g, m, depth, ai, a, b, s))
  }

  /** Past the last candidate the loop reports the window it holds. */
  lemma ChildrenDone(
    g: Game, depth: int, ai: bool, legal: seq<Move>, sorted: seq<Scored>, i: nat, score: int, w: Window)
    requires Running(g, depth, ai, legal, sorted, i, w) && i == |sorted|
    ensures SearchChildren(g, depth, ai, legal, sorted, i, score, w) ==
      Ok(Outcome(w.best, if ai then w.highest else w.lowest, g))
  {
  }

  /** The outcome of a reply search, when every reply search completes. */
  lemma ReplyOutcome(
    g: Game, m: Move, depth: int, ai: bool, alpha: Score, beta: Score, score: int, legal: seq<Move>)
    returns (child: Outcome)
    requires m in legal
    requires forall m, a, b, s | m in legal :: ReplyOk(g, m, depth, ai, a, b, s)
    ensures Search(MakeMove(g, m), depth - 1, !ai, alpha, beta, score) == Ok(child)
  {
    assert ReplyOk(g, m, depth, ai, alpha, beta, score);
    child := Search(MakeMove(g, m), depth - 1, !ai, alpha, beta, score).value;
  }

  /** One turn of the loop, when every reply search completes: the loop
      either stops, completing, or goes on from the same game with the
      updated window, still running, and completes when the rest of it
      does. */
  lemma ChildrenTurn(
    g: Game, depth: int, ai: bool, legal: seq<Move>, sorted: seq<Scored>, i: nat, score: int, w: Window)
    returns (w': Window)
    requires Running(g, depth, ai, legal, sorted, i, w) && i < |sorted|
    ensures Running(g, depth, ai, legal, sorted, i + 1, w')
    ensures !Above(w'.beta, w'.alpha) || SearchChildren(g, depth, ai, legal, sorted, i + 1, score, w').Ok? ==>
      SearchChildren(g, depth, ai, legal, sorted, i, score, w).Ok?
  {
    var (m, moveScore) := sorted[i];
    var child := ReplyOutcome(g, m, depth, ai, w.alpha, w.beta, Carried(score, moveScore), legal);
    UpdateReady(ai, legal, i, w, m, child.score);
    w' := Update(ai, w, m, child.score);
  }

  /** The loop completes when the search of every reply does, whatever
      the window and the score handed down. */
  lemma {:induction false} ChildrenOk(
    g: Game, depth: int, ai: bool, legal: seq<Move>, sorted: seq<Scored>, i: nat, score: int, w: Window)
    requires Running(g, depth, ai, legal, sorted, i, w)
    ensures SearchChildren(g, depth, ai, legal, sorted, i, score, w).Ok?
    decreases |sorted| - i
  {
    if i < |sorted| {
      var w' := ChildrenTurn(g, depth, ai, legal, sorted, i, score, w);
      if Above(w'.beta, w'.alpha) {
        ChildrenOk(g, depth, ai, legal, sorted, i + 1, score, w');
      }
    } else {
      ChildrenDone(g, depth, ai, legal, sorted, i, score, w);
    }
  }

  /** `bestMove(depth = 6)`: the search for the AI side from the full
      window, reported in notation. */
  function BestMove(g: Game, depth: int): (r: Result<Option<NotationMove>, string>)
    ensures r.Ok? && r.value.Some? ==> r.value.value in NotationMoves(g.state)
    ensures depth >= 1 && |LegalMoves(g.state)| > 0 && r.Ok? ==> r.value.Some?
    ensures depth < 1 || |LegalMoves(g.state)| == 0 ==> r == Ok(None)
    ensures r.Ok? <==> Search(g, depth, true, NegInf, PosInf, 0).Ok?
  {
    SearchSpec(g, depth, true, NegInf, PosInf, 0);
    var out :- Search(g, depth, true, NegInf, PosInf, 0);
    if out.move.None? then Ok(None)
    else
      NotationOfLegal(g.state, out.move.value);
      Ok(Some(ToNotation(out.move.value)))
  }
}
