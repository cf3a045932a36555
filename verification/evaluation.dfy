/** The evaluation `getBestMove` sorts and sums: material weights,
    piece-square tables, the score of a single move, and the stable sort of
    scored moves. */
module Evaluation {
  import opened Wrappers
  import opened Pieces
  import opened Squares
  import opened Position
  import Fen

  /** `weights`: the material value of each piece code, the same for both
      colours. */
  function Weight(p: int): (r: Option<int>)
    ensures r.Some? <==> IsPiece(p)
    ensures r.Some? ==> r.value >= 100
  {
    var a := if p < 0 then -p else p;
    if a == 1 then Some(100)
    else if a == 2 then Some(320)
    else if a == 3 then Some(330)
    else if a == 4 then Some(500)
    else if a == 5 then Some(900)
    else if a == 6 then Some(60000)
    else None
  }

  /* The white piece-square tables, square 0 (a1) first. */

  const PawnTable: seq<int> := [
     0, 0, 0, 0, 0, 0, 0, 0,
     5, 10, 10, -20, -20, 10, 10, 5,
     5, -5, -10, 0, 0, -10, -5, 5,
     0, 0, 0, 20, 20, 0, 0, 0,
     5, 5, 10, 25, 25, 10, 5, 5,
     10, 10, 20, 30, 30, 20, 10, 10,
     50, 50, 50, 50, 50, 50, 50, 50,
     0, 0, 0, 0, 0, 0, 0, 0]

  const KnightTable: seq<int> := [
     -50, -40, -30, -30, -30, -30, -40, -50,
     -40, -20, 0, 5, 5, 0, -20, -40,
     -30, 5, 10, 15, 15, 10, 5, -30,
     -30, 0, 15, 20, 20, 15, 0, -30,
     -30, 5, 15, 20, 20, 15, 5, -30,
     -30, 0, 10, 15, 15, 10, 0, -30,
     -40, -20, 0, 0, 0, 0, -20, -40,
     -50, -40, -30, -30, -30, -30, -40, -50]

  const BishopTable: seq<int> := [
     -20, -10, -10, -10, -10, -10, -10, -20,
     -10, 5, 0, 0, 0, 0, 5, -10,
     -10, 10, 10, 10, 10, 10, 10, -10,
     -10, 0, 10, 10, 10, 10, 0, -10,
     -10, 5, 5, 10, 10, 5, 5, -10,
     -10, 0, 5, 10, 10, 5, 0, -10,
     -10, 0, 0, 0, 0, 0, 0, -10,
     -20, -10, -10, -10, -10, -10, -10, -20]

  const RookTable: seq<int> := [
     0, 0, 0, 5, 5, 0, 0, 0,
     -5, 0, 0, 0, 0, 0, 0, -5,
     -5, 0, 0, 0, 0, 0, 0, -5,
     -5, 0, 0, 0, 0, 0, 0, -5,
     -5, 0, 0, 0, 0, 0, 0, -5,
     -5, 0, 0, 0, 0, 0, 0, -5,
     5, 10, 10, 10, 10, 10, 10, 5,
     0, 0, 0, 0, 0, 0, 0, 0]

  const QueenTable: seq<int> := [
     -20, -10, -10, -5, -5, -10, -10, -20,
     -10, 0, 0, 0, 0, 5, 0, -10,
     -10, 0, 5, 5, 5, 5, 5, -10,
     -5, 0, 5, 5, 5, 5, 0, 0,
     -5, 0, 5, 5, 5, 5, 0, -5,
     -10, 0, 5, 5, 5, 5, 0, -10,
     -10, 0, 0, 0, 0, 0, 0, -10,
     -20, -10, -10, -5, -5, -10, -10, -20]

  const KingTable: seq<int> := [
     20, 30, 10, 0, 0, 10, 30, 20,
     20, 20, 0, 0, 0, 0, 20, 20,
     -10, -20, -20, -20, -20, -20, -20, -10,
     -20, -30, -30, -40, -40, -30, -30, -20,
     -30, -40, -40, -50, -50, -40, -40, -30,
     -30, -40, -40, -50, -50, -40, -40, -30,
     -30, -40, -40, -50, -50, -40, -40, -30,
     -30, -40, -40, -50, -50, -40, -40, -30]

  function WhiteTable(p: int): (r: seq<int>)
    requires 1 <= p <= 6
    ensures |r| == 64
  {
    if p == 1 then PawnTable
    else if p == 2 then KnightTable
    else if p == 3 then BishopTable
    else if p == 4 then RookTable
    else if p == 5 then QueenTable
    else KingTable
  }

  /** `whitePST.get(p)` and `blackPST.get(p)`: the white map holds the white
      codes, the black map the black codes, each black table being the white
      one reversed. */
  function PieceTable(white: bool, p: int): (r: Option<seq<int>>)
    ensures r.Some? <==> (if white then 1 <= p <= 6 else -6 <= p <= -1)
    ensures r.Some? ==> |r.value| == 64
  {
    if white && 1 <= p <= 6 then Some(WhiteTable(p))
    else if !white && -6 <= p <= -1 then Some(Mirror(WhiteTable(-p)))
    else None
  }

  /** A 64-entry table read from the other end: `reverse()` on the white
      table. */
  function Mirror(t: seq<int>): (r: seq<int>)
    requires |t| == 64
    ensures |r| == 64
  {
    seq(64, i requires 0 <= i < 64 => t[63 - i])
  }

  /** `Mirror` is the list reversal the source applies. */
  lemma MirrorIsReverse(t: seq<int>)
    requires |t| == 64
    ensures Mirror(t) == Fen.Reverse(t)
  {
    var r := Fen.Reverse(t);
    assert forall i | 0 <= i < 64 :: Mirror(t)[i] == r[i];
  }

  /** A black piece on a square scores what the white piece scores on the
      square diagonally opposite (the board turned half a turn). */
  lemma BlackTableMirrors(p: int, sq: int)
    requires 1 <= p <= 6 && ValidSquare(sq)
    ensures PieceTable(false, -p).value[sq] == PieceTable(true, p).value[63 - sq]
  {
  }

  /** The piece a move leaves on its destination, as `promotion || piece`
      reads it: a promotion code of 0 counts as none. */
  function Arriving(m: Move): int {
    if m.promotion.Some? && m.promotion.value != 0 then m.promotion.value else m.piece
  }

  /** `getMoveScore` for the AI side, before the sign: the weight and table
      value of the piece taken, plus what the arriving piece is worth on the
      destination, less what the moving piece was worth on its origin. The
      source throws when a table lookup finds no table (a code of the wrong
      colour for the map, or an off-board destination), and computes `NaN`
      from an off-board origin; both are `None` here. */
  function RawScore(st: State, m: Move): (r: Option<int>)
    ensures r.Some? <==>
      && ValidSquare(m.from) && ValidSquare(m.to)
      && PieceTable(WhiteToMove(st), m.piece).Some?
      && PieceTable(WhiteToMove(st), Arriving(m)).Some?
      && (st.board[m.to] != 0 ==> PieceTable(!WhiteToMove(st), st.board[m.to]).Some?)
  {
    var white := WhiteToMove(st);
    if !ValidSquare(m.from) || !ValidSquare(m.to) then None
    else
      var target := st.board[m.to];
      var landing := Arriving(m);
      var own := PieceTable(white, m.piece);
      var arrive := PieceTable(white, landing);
      var taken := if target != 0 then PieceTable(!white, target) else Some([]);
      if own.None? || arrive.None? || taken.None? then None
      else
        var capture := if target != 0 then Weight(target).value + taken.value[m.to] else 0;
        Some(capture + Weight(landing).value + arrive.value[m.to] - (Weight(m.piece).value + own.value[m.from]))
  }

  /** `getMoveScore`: the raw score for the AI side, its negation for the
      other side. */
  function MoveScore(st: State, m: Move, ai: bool): (r: Option<int>)
    ensures r.Some? <==> RawScore(st, m).Some?
  {
    match RawScore(st, m)
    case None => None
    case Some(s) => Some(if ai then s else -s)
  }

  /** The two sides score every move with opposite signs. */
  lemma ScoreAntisymmetric(st: State, m: Move)
    ensures MoveScore(st, m, true).Some? <==> MoveScore(st, m, false).Some?
    ensures MoveScore(st, m, true).Some? ==> MoveScore(st, m, true).value == -MoveScore(st, m, false).value
  {
  }

  /* ---------- the sort of scored moves ---------- */

  /** A move with its score. */
  type Scored = (Move, int)

  /** The comparator of the sort: the AI side puts higher scores first,
      the other side lower scores first. */
  predicate Ahead(ai: bool, a: int, b: int) {
    if ai then a >= b else a <= b
  }

  predicate SortedFor(ai: bool, s: seq<Scored>) {
    forall i, j | 0 <= i < j < |s| :: Ahead(ai, s[i].1, s[j].1)
  }

  /** Insert `x` before the first element it may precede. */
  function Insert(ai: bool, x: Scored, s: seq<Scored>): (r: seq<Scored>)
    ensures multiset(r) == multiset(s) + multiset{x}
  {
    if |s| == 0 then [x]
    else if Ahead(ai, x.1, s[0].1) then [x] + s
    else
      assert s == [s[0]] + s[1..];
      [s[0]] + Insert(ai, x, s[1..])
  }

  /** `sort` with the comparator `b[1] - a[1]` (AI side) or `a[1] - b[1]`:
      a stable sort, here as an insertion sort. */
  function SortScored(ai: bool, s: seq<Scored>): (r: seq<Scored>)
    ensures multiset(r) == multiset(s)
  {
    if |s| == 0 then []
    else
      assert s == [s[0]] + s[1..];
      Insert(ai, s[0], SortScored(ai, s[1..]))
  }

  lemma {:induction false} InsertSorted(ai: bool, x: Scored, s: seq<Scored>)
    requires SortedFor(ai, s)
    ensures SortedFor(ai, Insert(ai, x, s))
  {
    if |s| > 0 && !Ahead(ai, x.1, s[0].1) {
      InsertSorted(ai, x, s[1..]);
      var r := Insert(ai, x, s);
      forall j | 0 < j < |r| ensures Ahead(ai, r[0].1, r[j].1) {
        assert r[j] in multiset(s[1..]) + multiset{x};
        if r[j] == x {
        } else {
          assert r[j] in s[1..];
        }
      }
    }
  }

  /** The sorted list is ordered by the comparator. */
  lemma {:induction false} SortSorted(ai: bool, s: seq<Scored>)
    ensures SortedFor(ai, SortScored(ai, s))
  {
    if |s| > 0 {
      SortSorted(ai, s[1..]);
      InsertSorted(ai, s[0], SortScored(ai, s[1..]));
    }
  }

  /** The entries of a list with a given score, in their order. */
  function WithScore(s: seq<Scored>, v: int): (r: seq<Scored>)
    ensures forall k | 0 <= k < |r| :: r[k].1 == v
  {
    if |s| == 0 then [] else (if s[0].1 == v then [s[0]] else []) + WithScore(s[1..], v)
  }

  lemma WithScoreCons(y: Scored, t: seq<Scored>, v: int)
    ensures WithScore([y] + t, v) == (if y.1 == v then [y] else []) + WithScore(t, v)
  {
    assert ([y] + t)[1..] == t;
  }

  lemma {:induction false} InsertStable(ai: bool, x: Scored, s: seq<Scored>, v: int)
    ensures WithScore(Insert(ai, x, s), v) == (if x.1 == v then [x] else []) + WithScore(s, v)
  {
    if |s| == 0 {
      WithScoreCons(x, [], v);
    } else if Ahead(ai, x.1, s[0].1) {
      WithScoreCons(x, s, v);
    } else {
      var rest := Insert(ai, x, s[1..]);
      InsertStable(ai, x, s[1..], v);
      WithScoreCons(s[0], rest, v);
      WithScoreCons(s[0], s[1..], v);
      assert s == [s[0]] + s[1..];
      assert s[0].1 == v ==> x.1 != v;
    }
  }

  /** The sort is stable: the entries of each score keep their order. */
  lemma {:induction false} SortStable(ai: bool, s: seq<Scored>, v: int)
    ensures WithScore(SortScored(ai, s), v) == WithScore(s, v)
  {
    if |s| > 0 {
      SortStable(ai, s[1..], v);
      InsertStable(ai, s[0], SortScored(ai, s[1..]), v);
    }
  }
}
