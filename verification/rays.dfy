/** The eight stepping directions of the flat 0..63 board and, per piece, how
    many steps each direction may take from a square before it would leave
    the board (the `steps` tables of the bishop, rook, queen and king move
    and attack generators). */
module Rays {
  import opened Squares

  const Top := 8
  const Bottom := -8
  const Right := 1
  const Left := -1
  const TopLeft := 7
  const TopRight := 9
  const BottomRight := -7
  const BottomLeft := -9

  /** One direction with its step limit. */
  datatype Ray = Ray(delta: int, steps: int)

  /** The square `k` steps from `from` along `delta`. */
  function Cell(from: int, delta: int, k: int): int { from + k * delta }

  /** Bishop directions in the order top-left, top-right, bottom-left,
      bottom-right; the limits use the file only (a step past the top or
      bottom edge is caught by the square-range test). */
  function BishopRays(from: int): (rs: seq<Ray>)
    ensures |rs| == 4
  {
    var f := FileOf(from);
    [Ray(TopLeft, f), Ray(TopRight, 7 - f), Ray(BottomLeft, f), Ray(BottomRight, 7 - f)]
  }

  /** Rook directions in the order top, bottom, right, left. */
  function RookRays(from: int): (rs: seq<Ray>)
    ensures |rs| == 4
  {
    var f := FileOf(from);
    var r := RankOf(from);
    [Ray(Top, 7 - r), Ray(Bottom, r), Ray(Right, 7 - f), Ray(Left, f)]
  }

  /** The queen walks the rook directions, then the bishop directions. */
  function QueenRays(from: int): (rs: seq<Ray>)
    ensures |rs| == 8
  {
    RookRays(from) + BishopRays(from)
  }

  /** The king walks the queen's directions one step, none off the edge. */
  function KingRays(from: int): (rs: seq<Ray>)
    ensures |rs| == 8
    ensures forall k | 0 <= k < 8 :: 0 <= rs[k].steps <= 1
  {
    var f := FileOf(from);
    var r := RankOf(from);
    [ Ray(Top, if r == 7 then 0 else 1),
      Ray(Bottom, if r == 0 then 0 else 1),
      Ray(Right, if f == 7 then 0 else 1),
      Ray(Left, if f == 0 then 0 else 1),
      Ray(TopLeft, if f == 0 || r == 7 then 0 else 1),
      Ray(TopRight, if f == 7 || r == 7 then 0 else 1),
      Ray(BottomLeft, if f == 0 || r == 0 then 0 else 1),
      Ray(BottomRight, if f == 7 || r == 0 then 0 else 1)]
  }

  /** The line a direction follows: `df` files and `dr` ranks per step. */
  function FileStep(delta: int): int {
    if delta in {Right, TopRight, BottomRight} then 1
    else if delta in {Left, TopLeft, BottomLeft} then -1
    else 0
  }

  function RankStep(delta: int): int {
    if delta in {Top, TopLeft, TopRight} then 1
    else if delta in {Bottom, BottomLeft, BottomRight} then -1
    else 0
  }

  /** A square of the board seen as (file, rank). */
  lemma Coordinates(sq: int, f: int, r: int)
    requires 0 <= f < 8 && 0 <= r < 8 && sq == r * 8 + f
    ensures FileOf(sq) == f && RankOf(sq) == r
  {
  }

  /** Within its step limit a ray never wraps around an edge of the board:
      the `k`-th square, when on the board, lies `k` files and `k` ranks
      away in the ray's direction. So the rook rays stay on a rank or file
      and the bishop rays on a diagonal. */
  lemma RayGeometry(from: int, ray: Ray, k: int)
    requires ValidSquare(from)
    requires ray in QueenRays(from) || ray in KingRays(from)
    requires 1 <= k <= ray.steps
    requires ValidSquare(Cell(from, ray.delta, k))
    ensures FileOf(Cell(from, ray.delta, k)) == FileOf(from) + k * FileStep(ray.delta)
    ensures RankOf(Cell(from, ray.delta, k)) == RankOf(from) + k * RankStep(ray.delta)
  {
    var f := FileOf(from);
    var r := RankOf(from);
    var f' := f + k * FileStep(ray.delta);
    var r' := r + k * RankStep(ray.delta);
    SquareParts(from);
    assert ray.delta in {Top, Bottom, Right, Left, TopLeft, TopRight, BottomLeft, BottomRight};
    assert Cell(from, ray.delta, k) == r' * 8 + f';
    assert 0 <= f' < 8;
    assert 0 <= r' < 8 by {
      var c := Cell(from, ray.delta, k);
      assert 0 <= c < 64;
    }
    Coordinates(Cell(from, ray.delta, k), f', r');
  }
}
