/** An unpruned reference for `getBestMove`, and the proof that the
    alpha-beta loop computes it: every reply is searched whatever the
    others score, and the side to move takes the best value. */
module SearchFacts {
  import opened Wrappers
  import opened Position
  import opened Engine
  import opened Evaluation
  import opened AlphaBeta

  /** `x` is at least as good as `y` for the side: higher for the AI side,
      lower for the other. */
  predicate AtLeast(ai: bool, x: int, y: int) {
    if ai then x >= y else x <= y
  }

  /** The best of the values for the side. */
  function BestValue(ai: bool, values: seq<int>): (v: int)
    requires |values| > 0
    ensures v in values
    ensures forall k | 0 <= k < |values| :: AtLeast(ai, v, values[k])
  {
    if |values| == 1 then values[0]
    else
      var rest := BestValue(ai, values[1..]);
      assert forall k | 1 <= k < |values| :: values[k] == values[1..][k - 1];
      if AtLeast(ai, values[0], rest) then values[0] else rest
  }

  /** The first place where the best value occurs: every value before it
      is strictly worse. */
  function FirstBest(ai: bool, values: seq<int>): (k: nat)
    requires |values| > 0
    ensures k < |values| && values[k] == BestValue(ai, values)
    ensures forall j | 0 <= j < k :: !AtLeast(ai, values[j], values[k])
  {
    if values[0] == BestValue(ai, values) then 0
    else
      assert BestValue(ai, values) in values[1..];
      assert BestValue(ai, values[1..]) == BestValue(ai, values) by {
        var v := BestValue(ai, values);
        var w := BestValue(ai, values[1..]);
        var j :| 0 <= j < |values[1..]| && values[1..][j] == w;
        assert AtLeast(ai, v, values[j + 1]);
        var i :| 0 <= i < |values| && values[i] == v;
        assert i > 0 && AtLeast(ai, w, values[1..][i - 1]);
      }
      var k := 1 + FirstBest(ai, values[1..]);
      assert forall j | 1 <= j < k :: values[j] == values[1..][j - 1];
      k
  }

  /** The place where a value leads: every value before it is strictly
      worse. */
  predicate LeadsAt(ai: bool, values: seq<int>, m: int) {
    && 0 <= m < |values|
    && forall j | 0 <= j < m :: !AtLeast(ai, values[j], values[m])
  }

  /** A leading value equal to the best is at the first best place. */
  lemma FirstBestAt(ai: bool, values: seq<int>, m: int)
    requires LeadsAt(ai, values, m) && values[m] == BestValue(ai, values)
    ensures FirstBest(ai, values) == m
  {
  }

  /** The value of the position below `g`, searched `depth` plies deep with
      the scores that `getBestMove` hands down: below depth one the score
      so far; with no legal move the mate or incoming score; otherwise the
      best of the replies' values for the side. It fails where the search
      could, when a move has no score. */
  function Minimax(g: Game, depth: int, ai: bool, score: int): (r: Result<int, string>)
    decreases Depth(depth), 2, 0
  {
    if depth < 1 then Ok(score)
    else
      var moves := LegalMoves(g.state);
      if |moves| == 0 then
        Ok(if InCheck(g.state) then (if ai then -Mate else Mate) else score)
      else
        match ScoreMoves(g.state, moves, ai)
        case None => Err("TypeError")
        case Some(scored) =>
          var sorted := SortScored(ai, scored);
          assert |sorted| == |multiset(sorted)| == |moves|;
          match Replies(g, depth, ai, sorted, score)
          case Err(e) => Err(e)
          case Ok(values) => Ok(BestValue(ai, values))
  }

  /** The value of every reply, in the order given. */
  function Replies(g: Game, depth: int, ai: bool, sorted: seq<Scored>, score: int): (r: Result<seq<int>, string>)
    requires depth >= 1
    ensures r.Ok? ==> |r.value| == |sorted|
    decreases Depth(depth), 1, |sorted|
  {
    if |sorted| == 0 then Ok([])
    else
      match ReplyValue(g, depth, ai, sorted[0], score)
      case Err(e) => Err(e)
      case Ok(v) =>
        match Replies(g, depth, ai, sorted[1..], score)
        case Err(e) => Err(e)
        case Ok(vs) => Ok([v] + vs)
  }

  /** The value of one reply: the position after the move, searched a ply
      shallower for the other side, with the move's score added. */
  function ReplyValue(g: Game, depth: int, ai: bool, s: Scored, score: int): Result<int, string>
    requires depth >= 1
    decreases Depth(depth), 0, 0
  {
    Minimax(MakeMove(g, s.0), depth - 1, !ai, Carried(score, s.1))
  }

  /** `values` holds the value of every reply, in order. */
  ghost predicate ValuesAre(g: Game, depth: int, ai: bool, sorted: seq<Scored>, score: int, values: seq<int>) {
    && depth >= 1 && |values| == |sorted|
    && forall k {:trigger ReplyValue(g, depth, ai, sorted[k], score)} | 0 <= k < |sorted| ::
         ReplyValue(g, depth, ai, sorted[k], score) == Ok(values[k])
  }

  /** The values of the replies are the replies' values, in order. */
  lemma {:induction false} RepliesValues(g: Game, depth: int, ai: bool, sorted: seq<Scored>, score: int)
    requires depth >= 1 && Replies(g, depth, ai, sorted, score).Ok?
    ensures ValuesAre(g, depth, ai, sorted, score, Replies(g, depth, ai, sorted, score).value)
    decreases |sorted|
  {
    if |sorted| > 0 {
      RepliesValues(g, depth, ai, sorted[1..], score);
      var vs := Replies(g, depth, ai, sorted[1..], score).value;
      var values := Replies(g, depth, ai, sorted, score).value;
      assert values == [values[0]] + vs;
      forall k | 1 <= k < |sorted| ensures ReplyValue(g, depth, ai, sorted[k], score) == Ok(values[k]) {
        assert sorted[k] == sorted[1..][k - 1];
        assert ReplyValue(g, depth, ai, sorted[1..][k - 1], score) == Ok(vs[k - 1]);
      }
    }
  }

  /** The move the reference picks: none below depth one or with nothing
      to play, otherwise the first move, in the sorted order, whose reply
      has the best value. */
  function PrincipalMove(g: Game, depth: int, ai: bool, score: int): (r: Result<Option<Move>, string>)
    ensures r.Ok? <==> Minimax(g, depth, ai, score).Ok?
    ensures r.Ok? && r.value.Some? ==> depth >= 1 && r.value.value in LegalMoves(g.state)
  {
    if depth < 1 then Ok(None)
    else
      var moves := LegalMoves(g.state);
      if |moves| == 0 then Ok(None)
      else
        match ScoreMoves(g.state, moves, ai)
        case None => Err("TypeError")
        case Some(scored) =>
          var sorted := SortScored(ai, scored);
          assert |sorted| == |multiset(sorted)| == |moves|;
          SortedAmong(ai, scored, moves);
          match Replies(g, depth, ai, sorted, score)
          case Err(e) => Err(e)
          case Ok(values) => Ok(Some(sorted[FirstBest(ai, values)].0))
  }

  /** The fail-soft guarantee of alpha-beta for a search that reports `x`
      from the window (`alpha`, `beta`) on a position of value `v`: a report
      at or below `alpha` bounds the value from above, one at or above
      `beta` bounds it from below, and one strictly inside is the value. */
  predicate FailSoft(x: int, v: int, alpha: Score, beta: Score) {
    && (!Above(Fin(x), alpha) ==> v <= x)
    && (!Above(beta, Fin(x)) ==> v >= x)
    && (Above(Fin(x), alpha) && Above(beta, Fin(x)) ==> v == x)
  }

  /** The higher of two scores. */
  function Higher(a: Score, b: Score): Score { if Above(b, a) then b else a }

  /** The lower of two scores. */
  function Lower(a: Score, b: Score): Score { if Above(a, b) then b else a }

  /** The running best of the side. */
  function Own(ai: bool, w: Window): Score { if ai then w.highest else w.lowest }

  /** `a` is strictly better than `b` for the side. */
  predicate Beats(ai: bool, a: Score, b: Score) { if ai then Above(a, b) else Above(b, a) }

  /** What the loop of `getBestMove` knows before candidate `i`, searched
      from the window (`alpha`, `beta`) over replies of the given values:
      the window is still open; the side's own bound is the bound passed in
      moved by its running best; no reply so far has a value better than
      the running best; and when the running best has moved past the bound
      passed in, it is the value of the first reply that reaches it, and
      that reply's move is the one held. */
  ghost predicate Tracking(
    ai: bool, alpha: Score, beta: Score, values: seq<int>, sorted: seq<Scored>, i: nat, w: Window)
  {
    && |values| == |sorted| && i <= |sorted|
    && Above(w.beta, w.alpha)
    && (ai ==> w.beta == beta && w.lowest == PosInf && w.alpha == Higher(alpha, w.highest))
    && (!ai ==> w.alpha == alpha && w.highest == NegInf && w.beta == Lower(beta, w.lowest))
    && (forall j | 0 <= j < i :: !Beats(ai, Fin(values[j]), Own(ai, w)))
    && (Beats(ai, Own(ai, w), if ai then alpha else beta) ==>
          exists m | 0 <= m < i :: LeadsAt(ai, values, m) && Own(ai, w) == Fin(values[m]) && w.best == Some(sorted[m].0))
  }

  /** The loop starts tracking on an open window. */
  lemma OpeningTracks(ai: bool, alpha: Score, beta: Score, values: seq<int>, sorted: seq<Scored>)
    requires Above(beta, alpha) && |values| == |sorted|
    ensures Tracking(ai, alpha, beta, values, sorted, 0, Opening(alpha, beta))
  {
  }

  /** One turn of the loop for the AI side on a reply that reports `c`
      fail-soft: the loop either stays tracking, or stops with the reply's
      report, which is then fail-soft for the whole position. */
  lemma HighTurn(alpha: Score, beta: Score, values: seq<int>, sorted: seq<Scored>, i: nat, w: Window, c: int)
    requires Tracking(true, alpha, beta, values, sorted, i, w) && i < |sorted|
    requires FailSoft(c, values[i], w.alpha, w.beta)
    ensures var w' := Update(true, w, sorted[i].0, Fin(c));
      && (Above(w'.beta, w'.alpha) ==> Tracking(true, alpha, beta, values, sorted, i + 1, w'))
      && (!Above(w'.beta, w'.alpha) ==> w'.highest == Fin(c) && FailSoft(c, BestValue(true, values), alpha, beta))
  {
    var w' := Update(true, w, sorted[i].0, Fin(c));
    var v := BestValue(true, values);
    assert values[i] <= v;
    if Above(w'.beta, w'.alpha) {
      if Above(Fin(c), w.highest) && Above(Fin(c), alpha) {
        assert LeadsAt(true, values, i);
      }
    }
  }

  /** The same turn for the other side. */
  lemma LowTurn(alpha: Score, beta: Score, values: seq<int>, sorted: seq<Scored>, i: nat, w: Window, c: int)
    requires Tracking(false, alpha, beta, values, sorted, i, w) && i < |sorted|
    requires FailSoft(c, values[i], w.alpha, w.beta)
    ensures var w' := Update(false, w, sorted[i].0, Fin(c));
      && (Above(w'.beta, w'.alpha) ==> Tracking(false, alpha, beta, values, sorted, i + 1, w'))
      && (!Above(w'.beta, w'.alpha) ==> w'.lowest == Fin(c) && FailSoft(c, BestValue(false, values), alpha, beta))
  {
    var w' := Update(false, w, sorted[i].0, Fin(c));
    var v := BestValue(false, values);
    assert values[i] >= v;
    if Above(w'.beta, w'.alpha) {
      if Above(w.lowest, Fin(c)) && Above(beta, Fin(c)) {
        assert LeadsAt(false, values, i);
      }
    }
  }

  /** Past the last candidate, the running best is fail-soft for the whole
      position, and when it lies inside the window the move held is the
      first best reply. */
  lemma TrackingDone(ai: bool, alpha: Score, beta: Score, values: seq<int>, sorted: seq<Scored>, w: Window)
    requires Tracking(ai, alpha, beta, values, sorted, |sorted|, w) && |sorted| > 0
    requires Own(ai, w).Fin?
    ensures FailSoft(Own(ai, w).n, BestValue(ai, values), alpha, beta)
    ensures Above(Own(ai, w), alpha) && Above(beta, Own(ai, w)) ==>
      w.best == Some(sorted[FirstBest(ai, values)].0)
  {
    var v := BestValue(ai, values);
    var k :| 0 <= k < |values| && values[k] == v;
    assert !Beats(ai, Fin(values[k]), Own(ai, w));
    if Beats(ai, Own(ai, w), if ai then alpha else beta) {
      var m :| 0 <= m < |sorted| && LeadsAt(ai, values, m) && Own(ai, w) == Fin(values[m]) && w.best == Some(sorted[m].0);
      assert AtLeast(ai, v, values[m]);
      FirstBestAt(ai, values, m);
    }
  }

  /** One turn of the loop on a reply that reports `c`: the loop goes on
      from the updated window while it is open, and otherwise stops with
      the updated window's best. */
  lemma ChildStep(
    g: Game, depth: int, ai: bool, legal: seq<Move>, sorted: seq<Scored>, i: nat, score: int, w: Window, c: int)
    requires depth >= 1 && i < |sorted|
    requires forall k | 0 <= k < |sorted| :: sorted[k].0 in legal
    requires LoopReady(ai, legal, i, w)
    requires ReplyScore(g, depth, ai, sorted[i].0, sorted[i].1, score, w) == Ok(Fin(c))
    ensures var w' := Update(ai, w, sorted[i].0, Fin(c));
      && LoopReady(ai, legal, i + 1, w')
      && SearchChildren(g, depth, ai, legal, sorted, i, score, w) ==
           if Above(w'.beta, w'.alpha) then SearchChildren(g, depth, ai, legal, sorted, i + 1, score, w')
           else Ok(Outcome(w'.best, Own(ai, w'), g))
  {
    UpdateReady(ai, legal, i, w, sorted[i].0, Fin(c));
  }

  /** A search result that reports the value `v` fail-soft from the window
      (`alpha`, `beta`): it completes with a finite score, and a score
      strictly inside the window comes with the move `best`. */
  predicate Reports(r: Result<Outcome, string>, v: int, alpha: Score, beta: Score, best: Option<Move>) {
    && r.Ok? && r.value.score.Fin?
    && FailSoft(r.value.score.n, v, alpha, beta)
    && (Above(r.value.score, alpha) && Above(beta, r.value.score) ==> r.value.move == best)
  }

  /** The loop of `getBestMove` before candidate `i`, over the sorted
      replies of the given values, ready and tracking. */
  ghost predicate Looping(
    g: Game, depth: int, ai: bool, legal: seq<Move>, sorted: seq<Scored>, i: nat, score: int, w: Window,
    alpha: Score, beta: Score, values: seq<int>)
  {
    && depth >= 1 && |sorted| > 0
    && (forall k | 0 <= k < |sorted| :: sorted[k].0 in legal)
    && LoopReady(ai, legal, i, w)
    && ValuesAre(g, depth, ai, sorted, score, values)
    && Tracking(ai, alpha, beta, values, sorted, i, w)
  }

  /** The loop past its last candidate reports the position's value. */
  lemma ChildrenLast(
    g: Game, depth: int, ai: bool, legal: seq<Move>, sorted: seq<Scored>, score: int, w: Window,
    alpha: Score, beta: Score, values: seq<int>)
    requires depth >= 1 && |sorted| > 0
    requires forall k | 0 <= k < |sorted| :: sorted[k].0 in legal
    requires LoopReady(ai, legal, |sorted|, w)
    requires Tracking(ai, alpha, beta, values, sorted, |sorted|, w)
    ensures Reports(SearchChildren(g, depth, ai, legal, sorted, |sorted|, score, w),
      BestValue(ai, values), alpha, beta, Some(sorted[FirstBest(ai, values)].0))
  {
    assert SearchChildren(g, depth, ai, legal, sorted, |sorted|, score, w) == Ok(Outcome(w.best, Own(ai, w), g));
    TrackingDone(ai, alpha, beta, values, sorted, w);
  }

  /** The reply searched in turn `i` of the loop, from an open window,
      reports the value of the reply fail-soft. */
  lemma ReplyReports(
    g: Game, depth: int, ai: bool, sorted: seq<Scored>, i: nat, score: int, w: Window, values: seq<int>)
    returns (c: int)
    requires depth >= 1 && i < |sorted| && Above(w.beta, w.alpha)
    requires ValuesAre(g, depth, ai, sorted, score, values)
    ensures ReplyScore(g, depth, ai, sorted[i].0, sorted[i].1, score, w) == Ok(Fin(c))
    ensures FailSoft(c, values[i], w.alpha, w.beta)
    decreases Depth(depth), 0, 0, 0
  {
    var child := MakeMove(g, sorted[i].0);
    var carried := Carried(score, sorted[i].1);
    assert Minimax(child, depth - 1, !ai, carried) == Ok(values[i]) by {
      assert ReplyValue(g, depth, ai, sorted[i], score) == Ok(values[i]);
    }
    SearchMinimax(child, depth - 1, !ai, w.alpha, w.beta, carried);
    var r := Search(child, depth - 1, !ai, w.alpha, w.beta, carried);
    c := r.value.score.n;
  }

  /** One turn of the loop, while tracking, on a reply that reports its
      value `c` fail-soft: the loop either goes on, still tracking, with
      the same result, or stops with a report of the position's value. */
  lemma ChildrenTurn(
    g: Game, depth: int, ai: bool, legal: seq<Move>, sorted: seq<Scored>, i: nat, score: int, w: Window,
    alpha: Score, beta: Score, values: seq<int>, c: int)
    requires depth >= 1 && i < |sorted|
    requires forall k | 0 <= k < |sorted| :: sorted[k].0 in legal
    requires LoopReady(ai, legal, i, w)
    requires Tracking(ai, alpha, beta, values, sorted, i, w)
    requires ReplyScore(g, depth, ai, sorted[i].0, sorted[i].1, score, w) == Ok(Fin(c))
    requires FailSoft(c, values[i], w.alpha, w.beta)
    ensures var w' := Update(ai, w, sorted[i].0, Fin(c));
      && (Above(w'.beta, w'.alpha) ==>
            && LoopReady(ai, legal, i + 1, w')
            && Tracking(ai, alpha, beta, values, sorted, i + 1, w')
            && SearchChildren(g, depth, ai, legal, sorted, i, score, w) ==
                 SearchChildren(g, depth, ai, legal, sorted, i + 1, score, w'))
      && (!Above(w'.beta, w'.alpha) ==>
            Reports(SearchChildren(g, depth, ai, legal, sorted, i, score, w),
              BestValue(ai, values), alpha, beta, Some(sorted[FirstBest(ai, values)].0)))
  {
    ChildStep(g, depth, ai, legal, sorted, i, score, w, c);
    if ai {
      HighTurn(alpha, beta, values, sorted, i, w, c);
    } else {
      LowTurn(alpha, beta, values, sorted, i, w, c);
    }
  }

  /** The alpha-beta loop from candidate `i` on, while tracking, reports
      the position's value fail-soft, with the first best reply's move
      whenever the report lies inside the window. */
  lemma {:induction false} ChildrenMinimax(
    g: Game, depth: int, ai: bool, legal: seq<Move>, sorted: seq<Scored>, i: nat, score: int, w: Window,
    alpha: Score, beta: Score, values: seq<int>)
    requires Looping(g, depth, ai, legal, sorted, i, score, w, alpha, beta, values)
    ensures Reports(SearchChildren(g, depth, ai, legal, sorted, i, score, w),
      BestValue(ai, values), alpha, beta, Some(sorted[FirstBest(ai, values)].0))
    decreases Depth(depth), 0, |sorted| - i, 2
  {
    if i == |sorted| {
      ChildrenLast(g, depth, ai, legal, sorted, score, w, alpha, beta, values);
    } else {
      var w' := ChildrenAdvance(g, depth, ai, legal, sorted, i, score, w, alpha, beta, values);
      if Above(w'.beta, w'.alpha) {
        ChildrenMinimax(g, depth, ai, legal, sorted, i + 1, score, w', alpha, beta, values);
      }
    }
  }

  /** One turn of the loop, while tracking: the reply's search reports its
      value fail-soft, and the loop either goes on, still tracking, to the
      same result, or stops with a report of the position's value. */
  lemma ChildrenAdvance(
    g: Game, depth: int, ai: bool, legal: seq<Move>, sorted: seq<Scored>, i: nat, score: int, w: Window,
    alpha: Score, beta: Score, values: seq<int>)
    returns (w': Window)
    requires Looping(g, depth, ai, legal, sorted, i, score, w, alpha, beta, values) && i < |sorted|
    ensures Above(w'.beta, w'.alpha) ==>
      && Looping(g, depth, ai, legal, sorted, i + 1, score, w', alpha, beta, values)
      && (Reports(SearchChildren(g, depth, ai, legal, sorted, i + 1, score, w'),
            BestValue(ai, values), alpha, beta, Some(sorted[FirstBest(ai, values)].0)) ==>
          Reports(SearchChildren(g, depth, ai, legal, sorted, i, score, w),
            BestValue(ai, values), alpha, beta, Some(sorted[FirstBest(ai, values)].0)))
    ensures !Above(w'.beta, w'.alpha) ==>
      Reports(SearchChildren(g, depth, ai, legal, sorted, i, score, w),
        BestValue(ai, values), alpha, beta, Some(sorted[FirstBest(ai, values)].0))
    decreases Depth(depth), 0, |sorted| - i, 1
  {
    var c := ReplyReports(g, depth, ai, sorted, i, score, w, values);
    ChildrenTurn(g, depth, ai, legal, sorted, i, score, w, alpha, beta, values, c);
    w' := Update(ai, w, sorted[i].0, Fin(c));
  }

  /** `getBestMove` from an open window (`alpha`, `beta`) completes wherever
      the reference does, and reports the reference's value fail-soft:
      exactly when the report lies inside the window, as a bound on the
      side of the window it falls otherwise. */
  lemma {:induction false} SearchMinimax(g: Game, depth: int, ai: bool, alpha: Score, beta: Score, score: int)
    requires Above(beta, alpha) && Minimax(g, depth, ai, score).Ok?
    ensures var r := Search(g, depth, ai, alpha, beta, score);
      r.Ok? && r.value.score.Fin? && FailSoft(r.value.score.n, Minimax(g, depth, ai, score).value, alpha, beta)
    decreases Depth(depth), 1, 0, 0
  {
    if depth >= 1 && |LegalMoves(g.state)| > 0 {
      SearchChildrenMinimax(g, depth, ai, alpha, beta, score);
    }
  }

  /** When the search from an open window reports a score strictly inside
      it, its move is the reference's. */
  lemma SearchPrincipal(g: Game, depth: int, ai: bool, alpha: Score, beta: Score, score: int)
    requires Above(beta, alpha) && Minimax(g, depth, ai, score).Ok?
    ensures Reports(Search(g, depth, ai, alpha, beta, score),
      Minimax(g, depth, ai, score).value, alpha, beta, PrincipalMove(g, depth, ai, score).value)
  {
    SearchMinimax(g, depth, ai, alpha, beta, score);
    if depth >= 1 && |LegalMoves(g.state)| > 0 {
      SearchChildrenMinimax(g, depth, ai, alpha, beta, score);
    }
  }

  /** At depth one or more with moves to play, the search is the loop over
      the sorted replies, which reports the reference's value and move. */
  lemma SearchChildrenMinimax(g: Game, depth: int, ai: bool, alpha: Score, beta: Score, score: int)
    requires depth >= 1 && |LegalMoves(g.state)| > 0
    requires Above(beta, alpha) && Minimax(g, depth, ai, score).Ok?
    ensures Reports(Search(g, depth, ai, alpha, beta, score),
      Minimax(g, depth, ai, score).value, alpha, beta, PrincipalMove(g, depth, ai, score).value)
    decreases Depth(depth), 0, |LegalMoves(g.state)| + 2, 0
  {
    var moves := LegalMoves(g.state);
    var scored := ScoreMoves(g.state, moves, ai).value;
    var sorted := SortScored(ai, scored);
    assert |sorted| == |multiset(sorted)| == |moves|;
    SortedAmong(ai, scored, moves);
    var values := Replies(g, depth, ai, sorted, score).value;
    RepliesValues(g, depth, ai, sorted, score);
    OpeningTracks(ai, alpha, beta, values, sorted);
    ChildrenMinimax(g, depth, ai, moves, sorted, 0, score, Opening(alpha, beta), alpha, beta, values);
  }

  /** From the full window `getBestMove` is the reference: the same value
      and the first move, in the sorted order, that reaches it. */
  lemma SearchIsMinimax(g: Game, depth: int, ai: bool, score: int)
    requires Minimax(g, depth, ai, score).Ok?
    ensures Search(g, depth, ai, NegInf, PosInf, score) ==
      Ok(Outcome(PrincipalMove(g, depth, ai, score).value, Fin(Minimax(g, depth, ai, score).value), g))
  {
    SearchPrincipal(g, depth, ai, NegInf, PosInf, score);
  }

  /** `bestMove` plays the reference's move for the AI side. */
  lemma BestMoveIsMinimax(g: Game, depth: int)
    requires Minimax(g, depth, true, 0).Ok?
    ensures BestMove(g, depth) ==
      Ok(match PrincipalMove(g, depth, true, 0).value
         case None => None
         case Some(m) => Some(ToNotation(m)))
  {
    SearchIsMinimax(g, depth, true, 0);
  }
}
