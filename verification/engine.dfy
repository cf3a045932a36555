/** The `Game` class: a position with an undo history, the legality filter
    built on moving and taking the move back, the game-end tests, and the
    notation-level entry points. */
module Engine {
  import opened Wrappers
  import opened Pieces
  import opened Squares
  import opened Position
  import opened Attacks
  import opened MoveGen
  import opened Play
  import opened Fen
  import FenFacts
  import GeneratorFacts
  import FenRoundTrip

  /** A game: the current position and the positions before each move made
      so far, most recent last. */
  datatype Game = Game(state: State, history: seq<State>)

  /** The constructor: the given FEN, or the initial position when none is
      given, with an empty history. */
  function NewGame(fen: Option<string>): (r: Result<Game, string>)
    ensures r.Ok? ==> r.value.history == [] && Consistent(r.value.state)
  {
    var text := if fen.Some? then fen.value else DefaultFen;
    var st :- FenToState(text, Written);
    FenFacts.FenStateConsistent(text, Written);
    Ok(Game(st, []))
  }

  /** `load`: replaces the position and keeps the history. */
  function Load(g: Game, fen: string): (r: Result<Game, string>)
    ensures r.Ok? ==> r.value.history == g.history && Consistent(r.value.state)
    ensures r.Err? <==> FenToState(fen, Written).Err?
  {
    var st :- FenToState(fen, Written);
    FenFacts.FenStateConsistent(fen, Written);
    Ok(Game(st, g.history))
  }

  /** The private `move`: save a copy of the position, then play the move
      on it. The move is not checked. */
  function MakeMove(g: Game, m: Move): (r: Game)
    ensures |r.history| == |g.history| + 1
  {
    Game(Play.Play(g.state, m), g.history + [g.state])
  }

  /** A move saves the position it was made from after the earlier ones,
      and passes the turn to the other side. */
  lemma MoveSavesPosition(g: Game, m: Move)
    ensures var r := MakeMove(g, m);
      && r.history[..|g.history|] == g.history && r.history[|g.history|] == g.state
      && r.state.side == Opposite(g.state.side)
  {
    assert (g.history + [g.state])[..|g.history|] == g.history;
  }

  /** `undo`: go back to the last saved position; with nothing saved, do
      nothing. */
  function Undo(g: Game): (r: Game)
    ensures |g.history| == 0 ==> r == g
    ensures |g.history| > 0 ==> |r.history| == |g.history| - 1 && r.history == g.history[..|r.history|]
  {
    if |g.history| == 0 then g
    else Game(g.history[|g.history| - 1], g.history[..|g.history| - 1])
  }

  /** Undo takes back exactly the last move. */
  lemma UndoAfterMove(g: Game, m: Move)
    ensures Undo(MakeMove(g, m)) == g
  {
    assert (g.history + [g.state])[..|g.history|] == g.history;
  }

  /** Play a list of moves one after another. */
  function PlayAll(g: Game, ms: seq<Move>): (r: Game)
    ensures |r.history| == |g.history| + |ms|
  {
    if |ms| == 0 then g else MakeMove(PlayAll(g, ms[..|ms| - 1]), ms[|ms| - 1])
  }

  /** Undo `n` times. */
  function UndoTimes(g: Game, n: nat): Game
    decreases n
  {
    if n == 0 then g else UndoTimes(Undo(g), n - 1)
  }

  /** Undoing as many times as moves were played restores the game, saved
      history included. */
  lemma {:induction false} UndoAll(g: Game, ms: seq<Move>)
    ensures UndoTimes(PlayAll(g, ms), |ms|) == g
  {
    if |ms| > 0 {
      var before := PlayAll(g, ms[..|ms| - 1]);
      UndoAfterMove(before, ms[|ms| - 1]);
      UndoAll(g, ms[..|ms| - 1]);
    }
  }

  /** `isInCheckAfterMove`: after the move, the square the king cache gives
      for the mover's king is attacked by the other colour. */
  predicate InCheckAfter(st: State, m: Move) {
    KingAttacked(Play.Play(st, m), WhiteToMove(st))
  }

  /** The square the king cache gives for the king of one colour is
      attacked by the other colour. */
  predicate KingAttacked(st: State, white: bool) {
    Attacked(ColourName(!white), st, KingOf(st, white))
  }

  /** The moves of `ms` that do not leave the mover's king attacked, in
      their order. */
  function KeepLegal(st: State, ms: seq<Move>): (r: seq<Move>)
    ensures |r| <= |ms|
    ensures forall m :: m in r <==> m in ms && !InCheckAfter(st, m)
  {
    if |ms| == 0 then []
    else
      var last := ms[|ms| - 1];
      var init := KeepLegal(st, ms[..|ms| - 1]);
      if InCheckAfter(st, last) then init else init + [last]
  }

  /** `possibleMoves`: the pseudo-legal moves that survive the filter. */
  function LegalMoves(st: State): (r: seq<Move>)
    ensures forall m :: m in r <==> m in PseudoMoves(st) && !InCheckAfter(st, m)
  {
    KeepLegal(st, PseudoMoves(st))
  }

  /** Filtering one more candidate of a list. */
  lemma KeepLegalStep(st: State, candidates: seq<Move>, i: nat)
    requires i < |candidates|
    ensures KeepLegal(st, candidates[..i + 1]) ==
      KeepLegal(st, candidates[..i]) + (if InCheckAfter(st, candidates[i]) then [] else [candidates[i]])
  {
    assert candidates[..i + 1][..i] == candidates[..i];
  }

  /** One candidate of `possibleMoves`: play it on the game, test the
      mover's king, and take the move back. The test is exactly
      `InCheckAfter`, and the game is left as it was. */
  method TryMove(game: Game, m: Move) returns (attacked: bool, after: Game)
    ensures attacked == InCheckAfter(game.state, m)
    ensures after == game
  {
    var white := WhiteToMove(game.state);
    after := MakeMove(game, m);
    attacked := KingAttacked(after.state, white);
    after := Undo(after);
    UndoAfterMove(game, m);
  }

  /** `possibleMoves` as the source runs it: each candidate is played on
      the game, the king tested, and the move taken back, so the game is
      the same after every candidate. */
  method PossibleMoves(g: Game) returns (moves: seq<Move>)
    ensures forall m :: m in moves <==> m in PseudoMoves(g.state) && !InCheckAfter(g.state, m)
    ensures moves == LegalMoves(g.state)
  {
    moves := TryEach(g, PseudoMoves(g.state));
  }

  /** The loop of `possibleMoves` over the candidates. */
  method TryEach(g: Game, candidates: seq<Move>) returns (moves: seq<Move>)
    ensures moves == KeepLegal(g.state, candidates)
  {
    var game := g;
    moves := [];
    for i := 0 to |candidates|
      invariant game == g
      invariant moves == KeepLegal(g.state, candidates[..i])
    {
      var attacked;
      attacked, game := TryMove(game, candidates[i]);
      KeepLegalStep(g.state, candidates, i);
      if !attacked {
        moves := moves + [candidates[i]];
      }
    }
    assert candidates[..|candidates|] == candidates;
  }

  /** `isInCheck`: the side to move's king is attacked. */
  predicate InCheck(st: State) {
    KingAttacked(st, WhiteToMove(st))
  }

  /** In a consistent position the cached square holds the mover's king,
      and the side to move is in check exactly when a piece of the other
      colour on the board attacks that square. */
  lemma InCheckOnBoard(st: State)
    requires Consistent(st)
    ensures st.board[KingOf(st, WhiteToMove(st))] == (if WhiteToMove(st) then WhiteKing else BlackKing)
    ensures InCheck(st) <==> exists pos | 0 <= pos < 64 ::
      OwnedBy(st.board[pos], !WhiteToMove(st)) && PieceAttacks(st.board, st.board[pos], pos, KingOf(st, WhiteToMove(st)))
  {
    AttackedOnBoard(st, !WhiteToMove(st), KingOf(st, WhiteToMove(st)));
  }

  /** The pieces on a colour board, in square order, that pass `keep`'s
      sign test (`filter`). */
  function PiecesWhere(b: seq<int>, white: bool): (r: seq<int>)
    ensures |r| <= |b|
    ensures forall i | 0 <= i < |r| :: OwnedBy(r[i], white)
    ensures forall x :: x in r <==> x in b && OwnedBy(x, white)
  {
    if |b| == 0 then []
    else
      var rest := PiecesWhere(b[1..], white);
      assert b == [b[0]] + b[1..];
      if OwnedBy(b[0], white) then [b[0]] + rest else rest
  }

  /** `find`: the first element other than `v`. */
  function FirstOther(xs: seq<int>, v: int): (r: Option<int>)
    ensures r.Some? ==> r.value in xs && r.value != v
    ensures r.None? <==> forall i | 0 <= i < |xs| :: xs[i] == v
  {
    if |xs| == 0 then None else if xs[0] != v then Some(xs[0]) else FirstOther(xs[1..], v)
  }

  /** `hasInsufficientPieces`: a lone king against a lone king, a lone king
      against king and bishop or king and knight, or king and bishop
      against king and bishop with both bishops (the first of each colour
      on the board) on squares of the same shade. */
  predicate InsufficientPieces(st: State) {
    var whites := PiecesWhere(st.white, true);
    var blacks := PiecesWhere(st.black, false);
    var whiteLone := |whites| == 1;
    var blackLone := |blacks| == 1;
    if whiteLone && blackLone then true
    else if (!whiteLone && |whites| != 2) || (!blackLone && |blacks| != 2) then false
    else
      var whiteSecond := FirstOther(whites, WhiteKing);
      var blackSecond := FirstOther(blacks, BlackKing);
      if whiteLone then blackSecond == Some(BlackBishop) || blackSecond == Some(BlackKnight)
      else if blackLone then whiteSecond == Some(WhiteBishop) || whiteSecond == Some(WhiteKnight)
      else
        && whiteSecond == Some(WhiteBishop) && blackSecond == Some(BlackBishop)
        && ShadeOf(IndexOf(st.board, WhiteBishop)) == ShadeOf(IndexOf(st.board, BlackBishop))
  }

  /** No cell of `b` passes the sign test: nothing is kept. */
  lemma {:induction false} PiecesWhereNone(b: seq<int>, white: bool)
    requires forall j | 0 <= j < |b| :: !OwnedBy(b[j], white)
    ensures PiecesWhere(b, white) == []
  {
    if |b| > 0 {
      PiecesWhereNone(b[1..], white);
    }
  }

  /** Exactly one cell of `b` passes the sign test: it alone is kept. */
  lemma {:induction false} PiecesWhereSingle(b: seq<int>, white: bool, i: int)
    requires 0 <= i < |b| && OwnedBy(b[i], white)
    requires forall j | 0 <= j < |b| && j != i :: !OwnedBy(b[j], white)
    ensures PiecesWhere(b, white) == [b[i]]
  {
    if i == 0 {
      PiecesWhereNone(b[1..], white);
    } else {
      PiecesWhereSingle(b[1..], white, i - 1);
    }
  }

  /** Exactly two cells of `b` pass the sign test: both are kept, in square
      order. */
  lemma {:induction false} PiecesWherePair(b: seq<int>, white: bool, i: int, k: int)
    requires 0 <= i < k < |b| && OwnedBy(b[i], white) && OwnedBy(b[k], white)
    requires forall j | 0 <= j < |b| && j != i && j != k :: !OwnedBy(b[j], white)
    ensures PiecesWhere(b, white) == [b[i], b[k]]
  {
    if i == 0 {
      PiecesWhereSingle(b[1..], white, k - 1);
    } else {
      PiecesWherePair(b[1..], white, i - 1, k - 1);
    }
  }

  /** King against king is a material draw. */
  lemma KingsOnlyInsufficient(st: State)
    requires Consistent(st)
    requires forall i | 0 <= i < 64 && i != st.whiteKing && i != st.blackKing :: st.board[i] == 0
    ensures InsufficientPieces(st)
  {
    PiecesWhereSingle(st.white, true, st.whiteKing);
    PiecesWhereSingle(st.black, false, st.blackKing);
  }

  /** A lone extra white bishop or knight on square `i`: a material draw. */
  lemma WhiteMinorInsufficient(st: State, i: int)
    requires Consistent(st) && 0 <= i < 64
    requires st.board[i] == WhiteBishop || st.board[i] == WhiteKnight
    requires forall j | 0 <= j < 64 && j != i && j != st.whiteKing && j != st.blackKing :: st.board[j] == 0
    ensures InsufficientPieces(st)
  {
    if i < st.whiteKing {
      PiecesWherePair(st.white, true, i, st.whiteKing);
    } else {
      PiecesWherePair(st.white, true, st.whiteKing, i);
    }
    PiecesWhereSingle(st.black, false, st.blackKing);
  }

  /** A lone extra black bishop or knight on square `i`: a material draw. */
  lemma BlackMinorInsufficient(st: State, i: int)
    requires Consistent(st) && 0 <= i < 64
    requires st.board[i] == BlackBishop || st.board[i] == BlackKnight
    requires forall j | 0 <= j < 64 && j != i && j != st.whiteKing && j != st.blackKing :: st.board[j] == 0
    ensures InsufficientPieces(st)
  {
    PiecesWhereSingle(st.white, true, st.whiteKing);
    if i < st.blackKing {
      PiecesWherePair(st.black, false, i, st.blackKing);
    } else {
      PiecesWherePair(st.black, false, st.blackKing, i);
    }
  }

  /** A pawn, rook or queen of either colour. */
  predicate Heavy(piece: int) {
    piece in {WhitePawn, WhiteRook, WhiteQueen, BlackPawn, BlackRook, BlackQueen}
  }

  /** Two kept pieces, one of them `v`: the other is the one `find` returns. */
  lemma SecondOfPair(xs: seq<int>, v: int, x: int)
    requires |xs| == 2 && v in xs && x in xs && x != v
    ensures FirstOther(xs, v) == Some(x)
  {
  }

  /** A heavy white piece on `i` leaves white with more than a lone king
      and rules out every drawn white side. */
  lemma WhiteHeavySufficient(st: State, i: int)
    requires Consistent(st) && 0 <= i < 64 && Heavy(st.board[i]) && st.board[i] > 0
    ensures !InsufficientPieces(st)
  {
    var whites := PiecesWhere(st.white, true);
    assert st.white[st.whiteKing] == WhiteKing && WhiteKing in whites;
    assert st.white[i] == st.board[i] && st.board[i] in whites;
    if |whites| == 2 {
      SecondOfPair(whites, WhiteKing, st.board[i]);
    }
  }

  /** The same for a heavy black piece. */
  lemma BlackHeavySufficient(st: State, i: int)
    requires Consistent(st) && 0 <= i < 64 && Heavy(st.board[i]) && st.board[i] < 0
    ensures !InsufficientPieces(st)
  {
    var blacks := PiecesWhere(st.black, false);
    assert st.black[st.blackKing] == BlackKing && BlackKing in blacks;
    assert st.black[i] == st.board[i] && st.board[i] in blacks;
    if |blacks| == 2 {
      SecondOfPair(blacks, BlackKing, st.board[i]);
    }
  }

  /** Any pawn, rook or queen on the board rules out the material draw. */
  lemma HeavyPieceSufficient(st: State, i: int)
    requires Consistent(st) && 0 <= i < 64 && Heavy(st.board[i])
    ensures !InsufficientPieces(st)
  {
    if st.board[i] > 0 {
      WhiteHeavySufficient(st, i);
    } else {
      BlackHeavySufficient(st, i);
    }
  }

  /** `isGameOver`: no legal move, the half-move clock at fifty, or too
      little material. */
  predicate IsGameOver(st: State) {
    |LegalMoves(st)| == 0 || st.halfMoves >= 50 || InsufficientPieces(st)
  }

  /** The results `status` reports. */
  datatype Status = Playing | Checkmate(winner: string) | Stalemate | FiftyMoveDraw | InsufficientDraw

  /** `status`: a game that is not over is playing; without legal moves it
      is checkmate (won by the side that just moved) when in check and
      stalemate otherwise; then the fifty-move draw, then the material
      draw. */
  function GameStatus(st: State): (r: Status)
    ensures r == Playing <==> !IsGameOver(st)
    ensures r.Checkmate? <==> |LegalMoves(st)| == 0 && InCheck(st)
    ensures r.Checkmate? ==> r.winner == (if WhiteToMove(st) then "black" else "white")
    ensures r == Stalemate <==> |LegalMoves(st)| == 0 && !InCheck(st)
    ensures r == FiftyMoveDraw <==> |LegalMoves(st)| > 0 && st.halfMoves >= 50
    ensures r == InsufficientDraw <==> |LegalMoves(st)| > 0 && st.halfMoves < 50 && InsufficientPieces(st)
  {
    var moves := LegalMoves(st);
    var fifty := st.halfMoves >= 50;
    var insufficient := InsufficientPieces(st);
    if |moves| > 0 && !fifty && !insufficient then Playing
    else if |moves| == 0 then
      (if InCheck(st) then Checkmate(if st.side == "w" then "black" else "white") else Stalemate)
    else if fifty then FiftyMoveDraw
    else InsufficientDraw
  }

  /** With a legal move, the clock below fifty and a pawn, rook or queen on
      the board, the game goes on. */
  lemma GameGoesOn(st: State, i: int)
    requires Consistent(st) && 0 <= i < 64 && Heavy(st.board[i])
    requires |LegalMoves(st)| > 0 && st.halfMoves < 50
    ensures !IsGameOver(st) && GameStatus(st) == Playing
  {
    HeavyPieceSufficient(st, i);
  }

  /** The two ways `pieceOnSquare` takes a square. */
  datatype SquareRef = Index(i: int) | Name(s: string)

  /** The index a square reference names, if it names one. */
  function SquareOfRef(sq: SquareRef): Option<int> {
    if sq.Index? then Some(sq.i) else NotationToSquare(sq.s)
  }

  /** `pieceOnSquare`: the letter of the piece on the square, or nothing
      for an empty, unknown or unreadable square. */
  function PieceOnSquare(st: State, sq: SquareRef): (r: Option<char>)
    ensures r.Some? ==>
      var i := SquareOfRef(sq);
      && i.Some? && ValidSquare(i.value)
      && PieceOfLetter(r.value) == Some(st.board[i.value])
    ensures var i := SquareOfRef(sq);
      i.Some? && ValidSquare(i.value) && IsPiece(st.board[i.value]) ==>
        r.Some? && PieceOfLetter(r.value) == Some(st.board[i.value])
  {
    var i := SquareOfRef(sq);
    if i.None? || !ValidSquare(i.value) || st.board[i.value] == 0 then None
    else LetterOfPiece(st.board[i.value])
  }

  /** A move as the public methods report it: squares in notation, the
      promotion and the piece as letters. */
  datatype NotationMove = NotationMove(
    from: string, to: string, promotion: Option<char>, piece: Option<char>, castling: Option<Castle>)

  function ToNotation(m: Move): NotationMove {
    NotationMove(
      SquareText(m.from), SquareText(m.to),
      if m.promotion.Some? && m.promotion.value != 0 then LetterOfPiece(m.promotion.value) else None,
      LetterOfPiece(m.piece), m.castling)
  }

  /** `possibleMoves()`: the legal moves in notation. */
  function NotationMoves(st: State): (r: seq<NotationMove>)
    ensures |r| == |LegalMoves(st)|
    ensures forall k | 0 <= k < |r| :: r[k] == ToNotation(LegalMoves(st)[k])
  {
    var ms := LegalMoves(st);
    seq(|ms|, k requires 0 <= k < |ms| => ToNotation(ms[k]))
  }

  /** Moves in notation, in their order. */
  function NotationsOf(ms: seq<Move>): (r: seq<NotationMove>)
    ensures |r| == |ms| && forall k | 0 <= k < |r| :: r[k] == ToNotation(ms[k])
  {
    seq(|ms|, k requires 0 <= k < |ms| => ToNotation(ms[k]))
  }

  /** The legal moves from square `sq`, in notation. */
  function SquareReport(st: State, sq: int): seq<NotationMove> {
    NotationsOf(KeepLegal(st, SquarePseudoMoves(st, sq)))
  }

  /** `possibleMovesForPosition`: the legal moves of the piece on one
      square, for the side to move. */
  function MovesForPosition(st: State, position: string): (r: seq<NotationMove>)
    ensures NotationToSquare(position).None? ==> r == []
    ensures Consistent(st) && NotationToSquare(position).Some? ==>
      ReportsExactly(st, NotationToSquare(position).value, r)
  {
    var sq := NotationToSquare(position);
    if sq.None? then []
    else if Consistent(st) then
      SquareReportExact(st, sq.value);
      SquareReport(st, sq.value)
    else SquareReport(st, sq.value)
  }

  /** In a consistent position the report for a square is exactly the
      legal moves from it. */
  lemma SquareReportExact(st: State, sq: int)
    requires Consistent(st)
    ensures ReportsExactly(st, sq, SquareReport(st, sq))
  {
    var ms := KeepLegal(st, SquarePseudoMoves(st, sq));
    SquareMovesExact(st, sq);
    ReportedMoves(st, sq, ms, NotationsOf(ms));
  }

  /** The moves reported for square `sq` are public moves, each the
      notation of a legal move starting there, and every legal move
      starting there is reported. */
  predicate ReportsExactly(st: State, sq: int, r: seq<NotationMove>) {
    && (forall k | 0 <= k < |r| :: r[k] in NotationMoves(st))
    && (forall k | 0 <= k < |r| :: MoveFrom(st, sq, r[k]))
    && (forall m | m in LegalMoves(st) && m.from == sq :: ToNotation(m) in r)
  }

  /** `nm` is the notation of a legal move starting on `sq`. */
  predicate MoveFrom(st: State, sq: int, nm: NotationMove) {
    exists m | m in LegalMoves(st) :: m.from == sq && nm == ToNotation(m)
  }

  lemma ReportedMoves(st: State, sq: int, ms: seq<Move>, r: seq<NotationMove>)
    requires forall m :: m in ms <==> m in LegalMoves(st) && m.from == sq
    requires |r| == |ms| && forall k | 0 <= k < |ms| :: r[k] == ToNotation(ms[k])
    ensures ReportsExactly(st, sq, r)
  {
    forall k | 0 <= k < |r| ensures r[k] in NotationMoves(st) {
      assert ms[k] in ms;
      NotationOfLegal(st, ms[k]);
    }
    forall k | 0 <= k < |r| ensures MoveFrom(st, sq, r[k]) {
      var m := ms[k];
      assert m in ms;
      assert m in LegalMoves(st) && m.from == sq && r[k] == ToNotation(m);
    }
    forall m | m in LegalMoves(st) && m.from == sq ensures ToNotation(m) in r {
      var k :| 0 <= k < |ms| && ms[k] == m;
      assert r[k] == ToNotation(m);
    }
  }

  /** A legal move's notation is among the reported moves. */
  lemma NotationOfLegal(st: State, m: Move)
    requires m in LegalMoves(st)
    ensures ToNotation(m) in NotationMoves(st)
  {
    var ms := LegalMoves(st);
    var j :| 0 <= j < |ms| && ms[j] == m;
    assert NotationMoves(st)[j] == ToNotation(m);
  }

  /** The moves `possibleMovesForSquare` keeps are among the legal moves. */
  lemma SquareMovesAreLegal(st: State, sq: int)
    requires Consistent(st)
    ensures forall m | m in KeepLegal(st, SquarePseudoMoves(st, sq)) :: m in LegalMoves(st)
  {
    forall m | m in KeepLegal(st, SquarePseudoMoves(st, sq)) ensures m in PseudoMoves(st) {
      if ValidSquare(sq) {
        PseudoMovesCover(st, 0, sq, m);
      }
    }
  }

  /** `possibleMovesForSquare` keeps exactly the legal moves that start on
      the square. */
  lemma SquareMovesExact(st: State, sq: int)
    requires Consistent(st)
    ensures forall m :: m in KeepLegal(st, SquarePseudoMoves(st, sq)) <==> m in LegalMoves(st) && m.from == sq
  {
    SquareMovesAreLegal(st, sq);
    forall m | m in KeepLegal(st, SquarePseudoMoves(st, sq)) ensures m.from == sq {
      GeneratorFacts.PieceMovesStart(st, st.board[sq], sq, m);
    }
    forall m | m in LegalMoves(st) && m.from == sq ensures m in SquarePseudoMoves(st, sq) {
      PseudoMovesAt(st, m);
    }
  }

  /** A pseudo-legal move starting on `m.from` is a move of the mover's
      piece there. */
  lemma PseudoMovesAt(st: State, m: Move)
    requires Consistent(st) && m in PseudoMoves(st)
    ensures m in SquarePseudoMoves(st, m.from)
  {
    GeneratorFacts.PseudoMoveSource(st, 0, m);
    var q :| 0 <= q < 64 && MoverPieces(st)[q] != 0 && m in PieceMoves(st, MoverPieces(st)[q], q);
    GeneratorFacts.PieceMovesStart(st, MoverPieces(st)[q], q, m);
    assert MoverPieces(st)[q] == st.board[q];
  }

  /** The generator's list from square `pos` on holds the moves of the
      piece on every later square of the mover's board. */
  lemma {:induction false} PseudoMovesCover(st: State, pos: nat, sq: int, m: Move)
    requires pos <= sq < 64
    requires MoverPieces(st)[sq] != 0 && m in PieceMoves(st, MoverPieces(st)[sq], sq)
    ensures m in PseudoMovesFrom(st, pos)
    decreases sq - pos
  {
    if pos < sq {
      PseudoMovesCover(st, pos + 1, sq, m);
    }
  }

  /** A move as callers name it: two squares in notation and, for a
      promotion, the letter of the piece. */
  datatype MoveRequest = MoveRequest(from: string, to: string, promotion: Option<string>)

  /** What the promotion of a request looks up to: `null` for a missing or
      empty text, the piece of a known letter, and `undefined` for any other
      text, which equals no move's promotion. */
  datatype PromotionKey = NoPromotion | PromoteTo(piece: int) | UnknownPiece

  function KeyOf(promotion: Option<string>): (r: PromotionKey)
    ensures r.PromoteTo? ==> promotion.Some? && PieceOfKey(promotion.value) == Some(r.piece)
    ensures r == NoPromotion <==> promotion.None? || promotion.value == ""
    ensures promotion.Some? && PieceOfKey(promotion.value).Some? ==> r == PromoteTo(PieceOfKey(promotion.value).value)
    ensures r == UnknownPiece <==> promotion.Some? && promotion.value != "" && PieceOfKey(promotion.value).None?
  {
    if promotion.None? || promotion.value == "" then NoPromotion
    else match PieceOfKey(promotion.value)
      case Some(p) => PromoteTo(p)
      case None => UnknownPiece
  }

  /** The `find` test: same squares and the same promotion. */
  predicate Matches(m: Move, from: int, to: int, key: PromotionKey) {
    && m.from == from && m.to == to
    && match key
       case NoPromotion => m.promotion.None?
       case PromoteTo(p) => m.promotion == Some(p)
       case UnknownPiece => false
  }

  /** `find`: the position of the first move that fits, or `|ms|`. */
  function FirstFit(ms: seq<Move>, from: int, to: int, key: PromotionKey): (r: nat)
    ensures r <= |ms|
    ensures r < |ms| ==> Matches(ms[r], from, to, key)
    ensures forall j | 0 <= j < r :: !Matches(ms[j], from, to, key)
  {
    if |ms| == 0 then 0
    else if Matches(ms[0], from, to, key) then 0
    else 1 + FirstFit(ms[1..], from, to, key)
  }

  /** `boardPositionNotationMoveToMove`: the first of `ms` with the named
      squares and promotion; "invalid move" when a square does not read or
      nothing fits. */
  function ResolveMove(ms: seq<Move>, req: MoveRequest): (r: Result<Move, string>)
    ensures r.Err? ==> r.error == "invalid move"
    ensures r.Ok? ==>
      && r.value in ms
      && NotationToSquare(req.from) == Some(r.value.from)
      && NotationToSquare(req.to) == Some(r.value.to)
      && Matches(r.value, r.value.from, r.value.to, KeyOf(req.promotion))
    ensures r.Err? <==>
      || NotationToSquare(req.from).None? || NotationToSquare(req.to).None?
      || forall m | m in ms :: !Matches(m, NotationToSquare(req.from).value, NotationToSquare(req.to).value, KeyOf(req.promotion))
  {
    var from := NotationToSquare(req.from);
    var to := NotationToSquare(req.to);
    if from.None? || to.None? then Err("invalid move")
    else
      var key := KeyOf(req.promotion);
      var i := FirstFit(ms, from.value, to.value, key);
      if i == |ms| then Err("invalid move") else Ok(ms[i])
  }

  /** The request that names a move: its squares, and the letter of its
      promotion piece. */
  function RequestOf(m: Move): MoveRequest
    requires ValidSquare(m.from) && ValidSquare(m.to)
    requires m.promotion.Some? ==> IsPiece(m.promotion.value)
  {
    MoveRequest(
      SquareToNotation(m.from), SquareToNotation(m.to),
      if m.promotion.Some? then Some([LetterOfPiece(m.promotion.value).value]) else None)
  }

  /** Naming a move of the list and resolving the name finds a move of the
      list with the same squares and promotion. */
  lemma ResolveRequestOf(ms: seq<Move>, m: Move)
    requires m in ms
    requires ValidSquare(m.from) && ValidSquare(m.to)
    requires m.promotion.Some? ==> IsPiece(m.promotion.value)
    ensures ResolveMove(ms, RequestOf(m)).Ok?
    ensures var found := ResolveMove(ms, RequestOf(m)).value;
      found.from == m.from && found.to == m.to && found.promotion == m.promotion
  {
    NotationRoundTrip(m.from);
    NotationRoundTrip(m.to);
    var req := RequestOf(m);
    if m.promotion.Some? {
      var c := LetterOfPiece(m.promotion.value).value;
      assert PieceOfKey([c]) == Some(m.promotion.value);
    }
    assert Matches(m, m.from, m.to, KeyOf(req.promotion));
  }

  /** `move` with a move in notation: resolved against the legal moves,
      then played. */
  function MoveByNotation(g: Game, req: MoveRequest): (r: Result<Game, string>)
    ensures r.Err? <==> ResolveMove(LegalMoves(g.state), req).Err?
    ensures r.Ok? ==>
      exists m | m in LegalMoves(g.state) :: r.value == MakeMove(g, m) && !InCheckAfter(g.state, m)
    ensures r.Ok? ==> Undo(r.value) == g
  {
    var m :- ResolveMove(LegalMoves(g.state), req);
    UndoAfterMove(g, m);
    Ok(MakeMove(g, m))
  }

  /** `fen`: the position in FEN. */
  function GameFen(g: Game): string {
    StateToFen(g.state)
  }

  /** Writing the game's position and loading it back changes nothing, for
      a position in the form the writer produces. */
  lemma FenThenLoad(g: Game)
    requires FenRoundTrip.Canonical(g.state)
    ensures Load(g, GameFen(g)) == Ok(g)
  {
    FenRoundTrip.FenRoundTrip(g.state);
  }
}
