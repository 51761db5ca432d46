/**
 * Board geometry of `updateBoard`: a cell at display `row` and `col` (both 0..7, row 0 at
 * the top) is the square whose file letter is `'a' + col` and whose rank is `8 - row`;
 * it is drawn light exactly when `row + col` is even. The board is built row by row,
 * left to right, so the squares come out from a8 to h1.
 */
module Board {
  import opened Wrappers
  import opened Text
  import opened Pieces

  /** The files and ranks of a chess board. */
  const Size: nat := 8

  /** One rendered square: its name, its shade and the glyph of the piece on it, if any. */
  datatype Cell = Cell(name: string, light: bool, glyph: Option<char>)

  /** The square name written into `data-position` for a display cell. */
  function SquareName(row: nat, col: nat): (name: string)
    requires row < Size && col < Size
    ensures |name| == 2
    ensures 'a' <= name[0] <= 'h' && '1' <= name[1] <= '8'
    ensures name[0] as int - 'a' as int == col
    ensures name[1] as int - '0' as int == Size - row
  {
    [(97 + col) as char] + NatToString(Size - row)
  }

  /** The inverse of `SquareName`: the display cell of a square name, if it names one. */
  function ParseSquare(name: string): Option<(nat, nat)> {
    if |name| == 2 && 'a' <= name[0] <= 'h' && '1' <= name[1] <= '8' then
      Some((Size - (name[1] as int - '0' as int), name[0] as int - 'a' as int))
    else
      None
  }

  lemma SquareNameRoundTrip(row: nat, col: nat)
    requires row < Size && col < Size
    ensures ParseSquare(SquareName(row, col)) == Some((row, col))
  {
  }

  lemma ParseSquareRoundTrip(name: string)
    requires ParseSquare(name).Some?
    ensures ParseSquare(name).value.0 < Size && ParseSquare(name).value.1 < Size
    ensures SquareName(ParseSquare(name).value.0, ParseSquare(name).value.1) == name
  {
    var (row, col) := ParseSquare(name).value;
    var n := SquareName(row, col);
    assert n[0] == name[0] && n[1] == name[1];
  }

  /** No two display cells share a square name. */
  lemma SquareNameInjective(r1: nat, c1: nat, r2: nat, c2: nat)
    requires r1 < Size && c1 < Size && r2 < Size && c2 < Size
    ensures SquareName(r1, c1) == SquareName(r2, c2) <==> r1 == r2 && c1 == c2
  {
    SquareNameRoundTrip(r1, c1);
    SquareNameRoundTrip(r2, c2);
  }

  /** The `white` class of a display cell: light exactly when row and column have the same parity. */
  predicate IsLightSquare(row: nat, col: nat): (light: bool)
    ensures light <==> row % 2 == col % 2
  {
    (row + col) % 2 == 0
  }

  /** a8 and h1 are light, a1 and h8 are dark. */
  lemma CornerShades()
    ensures SquareName(0, 0) == "a8" && IsLightSquare(0, 0)
    ensures SquareName(7, 7) == "h1" && IsLightSquare(7, 7)
    ensures SquareName(7, 0) == "a1" && !IsLightSquare(7, 0)
    ensures SquareName(0, 7) == "h8" && !IsLightSquare(0, 7)
  {
  }

  /** Orthogonal neighbours always have opposite shades. */
  lemma NeighboursDiffer(r1: nat, c1: nat, r2: nat, c2: nat)
    requires (r1 == r2 && (c2 == c1 + 1 || c1 == c2 + 1)) || (c1 == c2 && (r2 == r1 + 1 || r1 == r2 + 1))
    ensures IsLightSquare(r1, c1) != IsLightSquare(r2, c2)
  {
  }

  /** The shade can be read from the name: light exactly when file index plus rank is even. */
  lemma ShadeFromName(row: nat, col: nat)
    requires row < Size && col < Size
    ensures var name := SquareName(row, col);
      IsLightSquare(row, col) <==> ((name[0] as int - 'a' as int) + (name[1] as int - '0' as int)) % 2 == 0
  {
  }

  /** The cell drawn at a display position, given where the rules library has pieces. */
  function CellAt(row: nat, col: nat, placement: map<string, Piece>): (c: Cell)
    requires row < Size && col < Size
    ensures c.name == SquareName(row, col) && c.light == IsLightSquare(row, col)
    ensures c.glyph.Some? <==> c.name in placement
    ensures c.glyph.Some? ==> PieceOfGlyph(c.glyph.value) == Some(placement[c.name])
  {
    var name := SquareName(row, col);
    Cell(name, IsLightSquare(row, col),
         if name in placement then Some(GetUnicodePiece(placement[name])) else None)
  }

  /** All 64 cells in the order `updateBoard` appends them. */
  function BoardCells(placement: map<string, Piece>): (cells: seq<Cell>)
    ensures |cells| == Size * Size
  {
    seq(Size * Size, i requires 0 <= i < Size * Size => CellAt(i / Size, i % Size, placement))
  }

  /** `updateBoard`'s nested loops: row by row, column by column, one cell appended each time. */
  method RenderBoard(placement: map<string, Piece>) returns (cells: seq<Cell>)
    ensures cells == BoardCells(placement)
  {
    cells := [];
    var row := 0;
    while row < Size
      invariant 0 <= row <= Size
      invariant cells == BoardCells(placement)[..row * Size]
    {
      var col := 0;
      while col < Size
        invariant 0 <= col <= Size
        invariant cells == BoardCells(placement)[..row * Size + col]
      {
        assert (row * Size + col) / Size == row && (row * Size + col) % Size == col;
        cells := cells + [CellAt(row, col, placement)];
        col := col + 1;
      }
      row := row + 1;
    }
  }

  /** Cell `i` of the board is the square at row `i / 8`, column `i % 8`. */
  lemma BoardCellAt(placement: map<string, Piece>, i: nat)
    requires i < Size * Size
    ensures BoardCells(placement)[i].name == SquareName(i / Size, i % Size)
    ensures BoardCells(placement)[i].light == IsLightSquare(i / Size, i % Size)
    ensures BoardCells(placement)[i].glyph.Some? <==> BoardCells(placement)[i].name in placement
    ensures var c := BoardCells(placement)[i];
      c.glyph.Some? ==> PieceOfGlyph(c.glyph.value) == Some(placement[c.name])
  {
  }

  /** The board starts at a8 and ends at h1. */
  lemma BoardEnds(placement: map<string, Piece>)
    ensures BoardCells(placement)[0].name == "a8"
    ensures BoardCells(placement)[Size * Size - 1].name == "h1"
  {
    BoardCellAt(placement, 0);
    BoardCellAt(placement, 63);
    CornerShades();
  }

  /** Earlier cells have a higher rank, or the same rank and an earlier file. */
  lemma BoardOrder(placement: map<string, Piece>, i: nat, j: nat)
    requires i < j < Size * Size
    ensures var a, b := BoardCells(placement)[i].name, BoardCells(placement)[j].name;
      a[1] > b[1] || (a[1] == b[1] && a[0] < b[0])
  {
    BoardCellAt(placement, i);
    BoardCellAt(placement, j);
  }

  /** The 64 cells carry 64 different names. */
  lemma BoardNamesDistinct(placement: map<string, Piece>, i: nat, j: nat)
    requires i < Size * Size && j < Size * Size && i != j
    ensures BoardCells(placement)[i].name != BoardCells(placement)[j].name
  {
    if i < j { BoardOrder(placement, i, j); } else { BoardOrder(placement, j, i); }
  }

  /** Every square name appears on the board, at row-major index of its display cell. */
  lemma BoardCoversEverySquare(placement: map<string, Piece>, name: string)
    requires ParseSquare(name).Some?
    ensures var (row, col) := ParseSquare(name).value;
      row * Size + col < Size * Size && BoardCells(placement)[row * Size + col].name == name
  {
    ParseSquareRoundTrip(name);
    var (row, col) := ParseSquare(name).value;
    BoardCellAt(placement, row * Size + col);
    assert (row * Size + col) / Size == row && (row * Size + col) % Size == col;
  }
}
