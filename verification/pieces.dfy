/** Piece codes: 0 is an empty cell, magnitudes 1..6 are pawn, knight, bishop,
    rook, queen and king, and the sign is the colour (positive is white). */
module Pieces {
  import opened Wrappers

  const Empty := 0
  const WhitePawn := 1
  const BlackPawn := -1
  const WhiteKnight := 2
  const BlackKnight := -2
  const WhiteBishop := 3
  const BlackBishop := -3
  const WhiteRook := 4
  const BlackRook := -4
  const WhiteQueen := 5
  const BlackQueen := -5
  const WhiteKing := 6
  const BlackKing := -6

  predicate IsWhitePiece(p: int) { p > 0 }
  predicate IsBlackPiece(p: int) { p < 0 }

  /** A code that stands for a piece. */
  predicate IsPiece(p: int) { -6 <= p <= 6 && p != 0 }

  predicate IsKing(p: int) { p == WhiteKing || p == BlackKing }
  predicate IsPawn(p: int) { p == WhitePawn || p == BlackPawn }

  /** The letter table of the engine: upper case is white, lower case black. */
  function PieceOfLetter(c: char): (p: Option<int>)
    ensures p.Some? <==> c in "pnbrqkPNBRQK"
    ensures p.Some? ==> IsPiece(p.value) && (IsWhitePiece(p.value) <==> 'A' <= c <= 'Z')
  {
    match c
    case 'p' => Some(BlackPawn)
    case 'P' => Some(WhitePawn)
    case 'n' => Some(BlackKnight)
    case 'N' => Some(WhiteKnight)
    case 'b' => Some(BlackBishop)
    case 'B' => Some(WhiteBishop)
    case 'r' => Some(BlackRook)
    case 'R' => Some(WhiteRook)
    case 'q' => Some(BlackQueen)
    case 'Q' => Some(WhiteQueen)
    case 'k' => Some(BlackKing)
    case 'K' => Some(WhiteKing)
    case _ => None
  }

  /** The inverse table, built from the letter table by swapping its entries. */
  function LetterOfPiece(p: int): (c: Option<char>)
    ensures c.Some? <==> IsPiece(p)
    ensures c.Some? ==> PieceOfLetter(c.value) == Some(p)
  {
    match p
    case -1 => Some('p')
    case 1 => Some('P')
    case -2 => Some('n')
    case 2 => Some('N')
    case -3 => Some('b')
    case 3 => Some('B')
    case -4 => Some('r')
    case 4 => Some('R')
    case -5 => Some('q')
    case 5 => Some('Q')
    case -6 => Some('k')
    case 6 => Some('K')
    case _ => None
  }

  /** Reading a letter and writing it back gives the letter. */
  lemma LetterRoundTrip(c: char)
    requires PieceOfLetter(c).Some?
    ensures LetterOfPiece(PieceOfLetter(c).value) == Some(c)
  {
  }

  /** `pieceLettersToValueMap[s]` for an arbitrary string key: only the twelve
      one-letter keys are present. */
  function PieceOfKey(s: string): (p: Option<int>)
    ensures p.Some? ==> |s| == 1 && PieceOfLetter(s[0]) == p
  {
    if |s| == 1 then PieceOfLetter(s[0]) else None
  }
}
