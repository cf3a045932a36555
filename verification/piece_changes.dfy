/** The widget's animation planner (`seekChanges`): which pieces move,
    appear or disappear when the board goes from one set of squares to
    another, and the square distance it uses to pair a vacated square
    with a newly occupied one. */
module PieceChanges {
  import opened Wrappers
  import opened BoardState
  import Board = Squares

  /* ---------- squareDistance ---------- */

  function Abs(x: int): nat {
    if x < 0 then -x else x
  }

  /** `squareDistance(index1, index2)`: the number of king steps between
      two squares, the larger of the rank and the file difference, with
      `%` and `Math.floor` read as in `Squares.FileOf` and `Squares.RankOf`. */
  function SquareDistance(a: int, b: int): (r: nat)
    ensures Abs(Board.RankOf(b) - Board.RankOf(a)) <= r && Abs(Board.FileOf(b) - Board.FileOf(a)) <= r
    ensures r == Abs(Board.RankOf(b) - Board.RankOf(a)) || r == Abs(Board.FileOf(b) - Board.FileOf(a))
  {
    var ranks := Abs(Board.RankOf(b) - Board.RankOf(a));
    var files := Abs(Board.FileOf(b) - Board.FileOf(a));
    if ranks >= files then ranks else files
  }

  /** The distance does not depend on the order of its arguments. */
  lemma DistanceSymmetric(a: int, b: int)
    ensures SquareDistance(a, b) == SquareDistance(b, a)
  {
  }

  /** Two indices are at distance zero exactly when they are equal: the
      file and the rank together determine the index, negative ones too. */
  lemma DistanceZero(a: int, b: int)
    ensures SquareDistance(a, b) == 0 <==> a == b
  {
    if SquareDistance(a, b) == 0 {
      Recompose(a);
      Recompose(b);
    }
  }

  /** An index is rebuilt from its rank and its file; a negative index
      whose truncated remainder is not zero sits one rank lower. */
  lemma Recompose(a: int)
    ensures Board.FileOf(a) > 0 ==> a >= 0
    ensures a == 8 * Board.RankOf(a) + Board.FileOf(a) + (if Board.FileOf(a) < 0 then 8 else 0)
  {
    if a < 0 {
      assert -a == 8 * ((-a) / 8) + (-a) % 8;
    }
  }

  /** On the board no two squares are more than seven steps apart. */
  lemma DistanceOnBoard(a: int, b: int)
    requires 0 <= a < 64 && 0 <= b < 64
    ensures SquareDistance(a, b) <= 7
  {
  }

  /** The distance is a metric: going through a third square is never
      shorter. */
  lemma DistanceTriangle(a: int, b: int, c: int)
    ensures SquareDistance(a, c) <= SquareDistance(a, b) + SquareDistance(b, c)
  {
  }

  /* ---------- seekChanges ---------- */

  /** A piece name on a square: an entry of `appearedList` or
      `disappearedList`. */
  datatype Placed = Placed(piece: string, index: int)

  /** One change the animation shows. */
  datatype Change =
    | Move(piece: string, atIndex: int, toIndex: int)
    | Appear(piece: string, atIndex: int)
    | Disappear(piece: string, atIndex: int)

  /** Square `i` differs between the two boards and `side` has a piece
      there (`side[i] !== other[i]` and `side[i]` truthy). */
  predicate Occupies(side: Squares, other: Squares, i: int)
    requires 0 <= i < 64
  {
    side[i] != other[i] && !Vacant(side[i])
  }

  /** The entries of the first `n` squares where `side` has a piece that
      `other` has not, in index order: `appearedList` is
      `Listed(to, from, 64)`, `disappearedList` is `Listed(from, to, 64)`. */
  function Listed(side: Squares, other: Squares, n: nat): (r: seq<Placed>)
    requires n <= 64
    ensures forall k | 0 <= k < |r| ::
              0 <= r[k].index < n && Occupies(side, other, r[k].index) && side[r[k].index] == Some(r[k].piece)
    ensures forall j, k | 0 <= j < k < |r| :: r[j].index < r[k].index
  {
    if n == 0 then []
    else
      var init := Listed(side, other, n - 1);
      if Occupies(side, other, n - 1) then init + [Placed(side[n - 1].value, n - 1)] else init
  }

  /** What the scan over `disappearedList` keeps: the entry found so far
      (its position in the list) and the shortest distance seen. */
  datatype Pick = Pick(found: Option<nat>, shortest: int)

  /** The inner `forEach`: the entry of `ds` with the same piece as `a` at
      the shortest distance below 8, the first one on a tie. */
  function Scan(a: Placed, ds: seq<Placed>): (r: Pick)
    ensures r.shortest <= 8
    ensures r.found.None? ==> r.shortest == 8
    ensures r.found.Some? ==>
              r.found.value < |ds| && ds[r.found.value].piece == a.piece
              && SquareDistance(a.index, ds[r.found.value].index) == r.shortest
    ensures forall j | 0 <= j < |ds| && ds[j].piece == a.piece :: r.shortest <= SquareDistance(a.index, ds[j].index)
    ensures r.found.Some? ==> forall j | 0 <= j < r.found.value && ds[j].piece == a.piece ::
      r.shortest < SquareDistance(a.index, ds[j].index)
  {
    if |ds| == 0 then Pick(None, 8)
    else
      var p := Scan(a, ds[..|ds| - 1]);
      var d := ds[|ds| - 1];
      if a.piece == d.piece && SquareDistance(a.index, d.index) < p.shortest
      then Pick(Some(|ds| - 1), SquareDistance(a.index, d.index))
      else p
  }

  /** On the board every candidate is nearer than 8, so the scan finds an
      entry exactly when some entry holds the same piece. */
  lemma ScanOnBoard(a: Placed, ds: seq<Placed>)
    requires 0 <= a.index < 64 && forall j | 0 <= j < |ds| :: 0 <= ds[j].index < 64
    ensures Scan(a, ds).found.Some? <==> exists j | 0 <= j < |ds| :: ds[j].piece == a.piece
  {
    if exists j | 0 <= j < |ds| :: ds[j].piece == a.piece {
      var j :| 0 <= j < |ds| && ds[j].piece == a.piece;
      DistanceOnBoard(a.index, ds[j].index);
    }
  }

  /** The square a change brings a piece to, if any. */
  function ArrivalOf(c: Change): seq<Placed> {
    match c
    case Move(p, _, t) => [Placed(p, t)]
    case Appear(p, at) => [Placed(p, at)]
    case Disappear(_, _) => []
  }

  /** The square a change takes a piece from, if any. */
  function DepartureOf(c: Change): seq<Placed> {
    match c
    case Move(p, at, _) => [Placed(p, at)]
    case Appear(_, _) => []
    case Disappear(p, at) => [Placed(p, at)]
  }

  /** The arrivals of a list of changes, in order. */
  function Arrivals(cs: seq<Change>): seq<Placed> {
    if |cs| == 0 then [] else ArrivalOf(cs[0]) + Arrivals(cs[1..])
  }

  /** The departures of a list of changes, in order. */
  function Departures(cs: seq<Change>): seq<Placed> {
    if |cs| == 0 then [] else DepartureOf(cs[0]) + Departures(cs[1..])
  }

  /** `disappearedList.splice(k, 1)`. */
  function Without(ds: seq<Placed>, k: nat): (r: seq<Placed>)
    requires k < |ds|
    ensures multiset(r) + multiset{ds[k]} == multiset(ds)
    ensures forall x | x in r :: x in ds
  {
    assert ds == ds[..k] + [ds[k]] + ds[k + 1..];
    ds[..k] + ds[k + 1..]
  }

  /** The changes of the outer `forEach` and the entries of
      `disappearedList` it leaves unpaired. */
  datatype Paired = Paired(changes: seq<Change>, left: seq<Placed>)

  /** The outer `forEach` over `appearedList`: each entry becomes a move
      from the nearest unpaired entry of `ds` with the same piece, which
      leaves the list, or an appearance when there is none. */
  function Pair(arriving: seq<Placed>, ds: seq<Placed>): Paired
    decreases |arriving|
  {
    if |arriving| == 0 then Paired([], ds)
    else
      var a := arriving[0];
      match Scan(a, ds).found
      case None =>
        var rest := Pair(arriving[1..], ds);
        Paired([Appear(a.piece, a.index)] + rest.changes, rest.left)
      case Some(k) =>
        var rest := Pair(arriving[1..], Without(ds, k));
        Paired([Move(a.piece, ds[k].index, a.index)] + rest.changes, rest.left)
  }

  /** Every entry of `appearedList` becomes exactly one change, in order,
      bringing its piece to its square. */
  lemma {:induction false} PairArrivals(arriving: seq<Placed>, ds: seq<Placed>)
    ensures Arrivals(Pair(arriving, ds).changes) == arriving
    decreases |arriving|
  {
    if |arriving| > 0 {
      var a := arriving[0];
      match Scan(a, ds).found
      case None =>
        PairArrivals(arriving[1..], ds);
        Cons(Appear(a.piece, a.index), Pair(arriving[1..], ds).changes);
      case Some(k) =>
        PairArrivals(arriving[1..], Without(ds, k));
        Cons(Move(a.piece, ds[k].index, a.index), Pair(arriving[1..], Without(ds, k)).changes);
    }
  }

  /** Each entry of `disappearedList` is either the origin of one move or
      left unpaired. */
  lemma {:induction false} PairDepartures(arriving: seq<Placed>, ds: seq<Placed>)
    ensures multiset(Departures(Pair(arriving, ds).changes)) + multiset(Pair(arriving, ds).left) == multiset(ds)
    decreases |arriving|
  {
    if |arriving| > 0 {
      var a := arriving[0];
      match Scan(a, ds).found
      case None =>
        PairDepartures(arriving[1..], ds);
        Cons(Appear(a.piece, a.index), Pair(arriving[1..], ds).changes);
      case Some(k) =>
        var rest := Pair(arriving[1..], Without(ds, k));
        PairDepartures(arriving[1..], Without(ds, k));
        Cons(Move(a.piece, ds[k].index, a.index), rest.changes);
        assert DepartureOf(Move(a.piece, ds[k].index, a.index)) == [ds[k]];
    }
  }

  /** The outer loop only moves and makes appear; a move takes a piece
      from an entry of `disappearedList` to the entry of `appearedList`
      with the same piece. */
  lemma {:induction false} PairMoves(arriving: seq<Placed>, ds: seq<Placed>)
    ensures forall c | c in Pair(arriving, ds).changes :: !c.Disappear?
    ensures forall c | c in Pair(arriving, ds).changes && c.Move? ::
              Placed(c.piece, c.atIndex) in ds && Placed(c.piece, c.toIndex) in arriving
    decreases |arriving|
  {
    if |arriving| > 0 {
      var a := arriving[0];
      match Scan(a, ds).found
      case None =>
        PairMoves(arriving[1..], ds);
      case Some(k) =>
        PairMoves(arriving[1..], Without(ds, k));
        assert ds[k] == Placed(a.piece, ds[k].index);
    }
  }

  /** The final `forEach`: every unpaired entry disappears. */
  function Vanish(ds: seq<Placed>): (r: seq<Change>)
    ensures Arrivals(r) == [] && Departures(r) == ds
    ensures forall c | c in r :: c.Disappear?
  {
    if |ds| == 0 then []
    else
      var c := Disappear(ds[0].piece, ds[0].index);
      Cons(c, Vanish(ds[1..]));
      [c] + Vanish(ds[1..])
  }

  lemma Cons(c: Change, cs: seq<Change>)
    ensures Arrivals([c] + cs) == ArrivalOf(c) + Arrivals(cs)
    ensures Departures([c] + cs) == DepartureOf(c) + Departures(cs)
  {
    assert ([c] + cs)[1..] == cs;
  }

  lemma {:induction false} ArrivalsAppend(a: seq<Change>, b: seq<Change>)
    ensures Arrivals(a + b) == Arrivals(a) + Arrivals(b)
    ensures Departures(a + b) == Departures(a) + Departures(b)
  {
    if |a| == 0 {
      assert a + b == b;
    } else {
      assert a + b == [a[0]] + (a[1..] + b);
      Cons(a[0], a[1..] + b);
      Cons(a[0], a[1..]);
      ArrivalsAppend(a[1..], b);
      assert ArrivalOf(a[0]) + (Arrivals(a[1..]) + Arrivals(b)) == ArrivalOf(a[0]) + Arrivals(a[1..]) + Arrivals(b);
      assert DepartureOf(a[0]) + (Departures(a[1..]) + Departures(b)) == DepartureOf(a[0]) + Departures(a[1..]) + Departures(b);
    }
  }

  /** `seekChanges(fromSquares, toSquares)`: the pieces arriving on
      squares that changed, each as a move or an appearance, in index
      order; then the vacated squares no move took a piece from, as
      disappearances. */
  function SeekChanges(from: Squares, to: Squares): (r: seq<Change>)
    ensures Arrivals(r) == Listed(to, from, 64)
    ensures multiset(Departures(r)) == multiset(Listed(from, to, 64))
    ensures forall j, k | 0 <= j < k < |r| && r[j].Disappear? :: r[k].Disappear?
    ensures forall c | c in r && c.Move? ::
              0 <= c.atIndex < 64 && 0 <= c.toIndex < 64 && c.atIndex != c.toIndex
              && from[c.atIndex] == Some(c.piece) && to[c.toIndex] == Some(c.piece)
  {
    var appeared := Listed(to, from, 64);
    var disappeared := Listed(from, to, 64);
    var paired := Pair(appeared, disappeared);
    PairArrivals(appeared, disappeared);
    PairDepartures(appeared, disappeared);
    PairMoves(appeared, disappeared);
    ArrivalsAppend(paired.changes, Vanish(paired.left));
    paired.changes + Vanish(paired.left)
  }

  /* ---------- what the changes say about each square ---------- */

  /** The entries on square `i`, in order. */
  function AtSquare(ps: seq<Placed>, i: int): seq<Placed> {
    if |ps| == 0 then []
    else (if ps[0].index == i then [ps[0]] else []) + AtSquare(ps[1..], i)
  }

  lemma {:induction false} AtSquareAppend(a: seq<Placed>, b: seq<Placed>, i: int)
    ensures AtSquare(a + b, i) == AtSquare(a, i) + AtSquare(b, i)
  {
    if |a| == 0 {
      assert a + b == b;
    } else {
      assert (a + b)[1..] == a[1..] + b;
      AtSquareAppend(a[1..], b, i);
    }
  }

  lemma AtSquareOne(x: Placed, i: int)
    ensures AtSquare([x], i) == if x.index == i then [x] else []
  {
    assert [x][1..] == [];
  }

  /** The listed entries on square `i`: one when `side` has a piece there
      that `other` has not, none otherwise. */
  lemma {:induction false} ListedAt(side: Squares, other: Squares, n: nat, i: int)
    requires n <= 64
    ensures AtSquare(Listed(side, other, n), i)
            == if 0 <= i < n && Occupies(side, other, i) then [Placed(side[i].value, i)] else []
  {
    if n > 0 {
      ListedAt(side, other, n - 1, i);
      if Occupies(side, other, n - 1) {
        var last := Placed(side[n - 1].value, n - 1);
        AtSquareAppend(Listed(side, other, n - 1), [last], i);
        AtSquareOne(last, i);
      }
    }
  }

  /** Filtering by square keeps the count of each entry on that square. */
  lemma {:induction false} AtSquareCount(ps: seq<Placed>, i: int, x: Placed)
    ensures multiset(AtSquare(ps, i))[x] == if x.index == i then multiset(ps)[x] else 0
  {
    if |ps| > 0 {
      AtSquareCount(ps[1..], i, x);
      assert ps == [ps[0]] + ps[1..];
    }
  }

  /** Rearranging entries rearranges the entries on each square. */
  lemma AtSquarePermutation(ps: seq<Placed>, qs: seq<Placed>, i: int)
    requires multiset(ps) == multiset(qs)
    ensures multiset(AtSquare(ps, i)) == multiset(AtSquare(qs, i))
  {
    forall x ensures multiset(AtSquare(ps, i))[x] == multiset(AtSquare(qs, i))[x] {
      AtSquareCount(ps, i, x);
      AtSquareCount(qs, i, x);
    }
  }

  /** A sequence with the elements of `[x]` is `[x]`. */
  lemma Singleton(s: seq<Placed>, x: Placed)
    requires multiset(s) == multiset{x}
    ensures s == [x]
  {
    assert |s| == |multiset(s)| == 1;
    assert s[0] in multiset(s);
  }

  /** A piece arrives on square `i` exactly when `i` changed and the new
      board has a piece there: then exactly one change brings that piece,
      otherwise none brings anything. */
  lemma ArrivalsAt(from: Squares, to: Squares, i: int)
    requires 0 <= i < 64
    ensures AtSquare(Arrivals(SeekChanges(from, to)), i)
            == if Occupies(to, from, i) then [Placed(to[i].value, i)] else []
  {
    ListedAt(to, from, 64, i);
  }

  /** A piece leaves square `i` exactly when `i` changed and the old board
      had a piece there: then exactly one change takes that piece,
      otherwise none takes anything. */
  lemma DeparturesAt(from: Squares, to: Squares, i: int)
    requires 0 <= i < 64
    ensures AtSquare(Departures(SeekChanges(from, to)), i)
            == if Occupies(from, to, i) then [Placed(from[i].value, i)] else []
  {
    var departed := AtSquare(Departures(SeekChanges(from, to)), i);
    ListedAt(from, to, 64, i);
    AtSquarePermutation(Departures(SeekChanges(from, to)), Listed(from, to, 64), i);
    if Occupies(from, to, i) {
      Singleton(departed, Placed(from[i].value, i));
    } else {
      assert |departed| == |multiset(departed)| == 0;
    }
  }

  /** A square that holds the same on both boards takes part in no change. */
  lemma UnchangedSquareQuiet(from: Squares, to: Squares, i: int)
    requires 0 <= i < 64 && from[i] == to[i]
    ensures AtSquare(Arrivals(SeekChanges(from, to)), i) == []
    ensures AtSquare(Departures(SeekChanges(from, to)), i) == []
  {
    ArrivalsAt(from, to, i);
    DeparturesAt(from, to, i);
  }
}
