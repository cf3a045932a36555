/** Square numbering and the algebraic square notation of the engine. A
    square is `rank * 8 + file`, file a = 0 .. h = 7 and rank 1 = 0 .. 8 = 7,
    so square 0 is a1 and 63 is h8. */
module Squares {
  import opened Wrappers

  predicate ValidSquare(sq: int) { 0 <= sq <= 63 }

  /** `square % 8`, with JavaScript's remainder (the sign of the dividend). */
  function FileOf(sq: int): int {
    if sq >= 0 then sq % 8 else -((-sq) % 8)
  }

  /** `Math.floor(square / 8)`; Dafny's division by a positive divisor floors. */
  function RankOf(sq: int): int { sq / 8 }

  /** `isSquareOnRank`. */
  predicate OnRank(sq: int, rank: int) { RankOf(sq) == rank }

  /** `isSquareOnFile`. */
  predicate OnFile(sq: int, file: int) { FileOf(sq) == file }

  lemma SquareParts(sq: int)
    requires ValidSquare(sq)
    ensures 0 <= FileOf(sq) < 8 && 0 <= RankOf(sq) < 8
    ensures sq == RankOf(sq) * 8 + FileOf(sq)
  {
  }

  function FileLetter(f: int): char
    requires 0 <= f < 8
  {
    ('a' as int + f) as char
  }

  function RankDigit(r: int): char
    requires 0 <= r < 8
  {
    ('1' as int + r) as char
  }

  /** `squareToBoardPositionNotation`: file letter then rank digit. */
  function SquareToNotation(sq: int): (s: string)
    requires ValidSquare(sq)
    ensures |s| == 2 && 'a' <= s[0] <= 'h' && '1' <= s[1] <= '8'
  {
    [FileLetter(FileOf(sq)), RankDigit(RankOf(sq))]
  }

  /** `boardPositionNotationToSquare`: reads the first two characters; when
      either is not a file letter or rank digit the lookup yields `undefined`
      and the square is `NaN`, written `None` here. Further characters are
      ignored. */
  function NotationToSquare(s: string): (r: Option<int>)
    ensures r.Some? <==> |s| >= 2 && 'a' <= s[0] <= 'h' && '1' <= s[1] <= '8'
    ensures r.Some? ==>
      && ValidSquare(r.value)
      && r.value == (s[1] as int - '1' as int) * 8 + (s[0] as int - 'a' as int)
      && SquareToNotation(r.value) == s[..2]
  {
    if |s| >= 2 && 'a' <= s[0] <= 'h' && '1' <= s[1] <= '8' then
      var file := s[0] as int - 'a' as int;
      var rank := s[1] as int - '1' as int;
      assert FileOf(rank * 8 + file) == file && RankOf(rank * 8 + file) == rank;
      Some(rank * 8 + file)
    else None
  }

  /** Every square survives printing and reading back. */
  lemma NotationRoundTrip(sq: int)
    requires ValidSquare(sq)
    ensures NotationToSquare(SquareToNotation(sq)) == Some(sq)
  {
    SquareParts(sq);
  }

  datatype Shade = Dark | Light

  /** `colorOfSquare`: a1 is dark, and the shade alternates along ranks and
      files. */
  function ShadeOf(sq: int): Shade {
    if (RankOf(sq) % 2 == 0) == (FileOf(sq) % 2 == 0) then Dark else Light
  }

  /** Neighbouring squares on a rank have opposite shades, and so do
      neighbouring squares on a file. */
  lemma ShadeAlternates(sq: int)
    requires ValidSquare(sq)
    ensures FileOf(sq) < 7 ==> ShadeOf(sq + 1) != ShadeOf(sq)
    ensures RankOf(sq) < 7 ==> ShadeOf(sq + 8) != ShadeOf(sq)
  {
  }
}
