/**
 * Sides, piece kinds and the piece-glyph table of `getUnicodePiece`.
 * Colours and kinds are written with the one-letter codes the rules library uses
 * (`'w'`/`'b'` and `'p' 'r' 'n' 'b' 'q' 'k'`).
 */
module Pieces {
  import opened Wrappers

  datatype Color = White | Black

  datatype PieceType = Pawn | Rook | Knight | Bishop | Queen | King

  datatype Piece = Piece(color: Color, kind: PieceType)

  function Opponent(c: Color): (o: Color)
    ensures o != c
  {
    if c == White then Black else White
  }

  /** The word the status line uses for a side. */
  function ColorName(c: Color): string {
    if c == White then "White" else "Black"
  }

  function ColorCode(c: Color): char {
    if c == White then 'w' else 'b'
  }

  function TypeCode(t: PieceType): char {
    match t
    case Pawn => 'p'
    case Rook => 'r'
    case Knight => 'n'
    case Bishop => 'b'
    case Queen => 'q'
    case King => 'k'
  }

  /** The nested lookup table of `getUnicodePiece`, keyed by colour code and then type code. */
  const UnicodePieces: map<char, map<char, char>> := map[
    'w' := map['p' := '\U{2659}', 'r' := '\U{2656}', 'n' := '\U{2658}',
               'b' := '\U{2657}', 'q' := '\U{2655}', 'k' := '\U{2654}'],
    'b' := map['p' := '\U{265F}', 'r' := '\U{265C}', 'n' := '\U{265E}',
               'b' := '\U{265D}', 'q' := '\U{265B}', 'k' := '\U{265A}']
  ]

  /** The glyph drawn for a piece: a lookup in `UnicodePieces` that always finds an entry. */
  function GetUnicodePiece(p: Piece): (g: char)
    ensures PieceOfGlyph(g) == Some(p)
  {
    UnicodePieces[ColorCode(p.color)][TypeCode(p.kind)]
  }

  /** The reading of a glyph back into the piece it depicts; `None` for any other character. */
  function PieceOfGlyph(g: char): Option<Piece> {
    if g == '\U{2659}' then Some(Piece(White, Pawn))
    else if g == '\U{2656}' then Some(Piece(White, Rook))
    else if g == '\U{2658}' then Some(Piece(White, Knight))
    else if g == '\U{2657}' then Some(Piece(White, Bishop))
    else if g == '\U{2655}' then Some(Piece(White, Queen))
    else if g == '\U{2654}' then Some(Piece(White, King))
    else if g == '\U{265F}' then Some(Piece(Black, Pawn))
    else if g == '\U{265C}' then Some(Piece(Black, Rook))
    else if g == '\U{265E}' then Some(Piece(Black, Knight))
    else if g == '\U{265D}' then Some(Piece(Black, Bishop))
    else if g == '\U{265B}' then Some(Piece(Black, Queen))
    else if g == '\U{265A}' then Some(Piece(Black, King))
    else None
  }

  /** The table has exactly the two colour codes, each with exactly the six type codes. */
  lemma UnicodePiecesTotal()
    ensures UnicodePieces.Keys == {ColorCode(White), ColorCode(Black)}
    ensures forall c: Color ::
              UnicodePieces[ColorCode(c)].Keys == set t: PieceType :: TypeCode(t)
  {
    var codes := set t: PieceType :: TypeCode(t);
    assert TypeCode(Pawn) in codes && TypeCode(Rook) in codes && TypeCode(Knight) in codes;
    assert TypeCode(Bishop) in codes && TypeCode(Queen) in codes && TypeCode(King) in codes;
    assert codes == {'p', 'r', 'n', 'b', 'q', 'k'};
  }

  /** Every glyph that reads back as a piece is that piece's glyph. */
  lemma PieceOfGlyphSound(g: char, p: Piece)
    requires PieceOfGlyph(g) == Some(p)
    ensures GetUnicodePiece(p) == g
  {
  }

  /** Twelve pieces, twelve distinct glyphs. */
  lemma GlyphInjective(p: Piece, q: Piece)
    ensures GetUnicodePiece(p) == GetUnicodePiece(q) <==> p == q
  {
  }

  /** No white glyph is also a black glyph. */
  lemma WhiteAndBlackGlyphsDiffer(s: PieceType, t: PieceType)
    ensures GetUnicodePiece(Piece(White, s)) != GetUnicodePiece(Piece(Black, t))
  {
  }
}
