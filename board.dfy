/** ChessProblemApp.Board: a rows x columns board kept as a row-major array of cell states. */
module Boards {
  import opened CellStates
  import opened Positions
  import opened Grids
  import opened Rendering
  import opened Optional

  class Board {
    const rowCount: int
    const columnCount: int
    const cells: array<CellState>

    ghost predicate Valid() {
      rowCount > 0 && columnCount > 0 && cells.Length == rowCount * columnCount
    }

    /** The board's current contents as a value. */
    function Value(): (g: Grid)
      reads cells
      ensures g.rowCount == rowCount && g.columnCount == columnCount
      ensures Valid() ==> g.Valid()
    {
      Grid(rowCount, columnCount, cells[..])
    }

    /** The private constructor: the board takes the given array as its storage. */
    constructor (rowCount: int, columnCount: int, cells: array<CellState>)
      ensures this.rowCount == rowCount && this.columnCount == columnCount && this.cells == cells
    {
      this.rowCount := rowCount;
      this.columnCount := columnCount;
      this.cells := cells;
    }

    /** Board.of: a new board with every cell Available. */
    static method Of(rowCount: int, columnCount: int) returns (b: Board)
      requires rowCount > 0 && columnCount > 0
      ensures fresh(b) && fresh(b.cells) && b.Valid()
      ensures b.Value() == Empty(rowCount, columnCount)
    {
      MulMonotone(0, rowCount, columnCount);
      var cells := new CellState[rowCount * columnCount](_ => Available);
      b := new Board(rowCount, columnCount, cells);
    }

    /** get(row, column), for an on-board cell. */
    function Get(row: int, column: int): (s: CellState)
      reads cells
      requires Valid() && InBounds(Position(row, column), rowCount, columnCount)
      ensures s == Value().At(Position(row, column))
    {
      IndexMappingInRange(row, column, rowCount, columnCount);
      cells[IndexMapping(row, column, columnCount)]
    }

    /** get(Position): empty off the board, the cell's state on it. */
    function GetAt(p: Position): (r: Option<CellState>)
      reads cells
      requires Valid()
      ensures r.Some? <==> Value().Contains(p)
      ensures r.Some? ==> r.value == Value().At(p)
    {
      if p.row < 0 || p.row >= rowCount || p.column < 0 || p.column >= columnCount then None
      else Some(Get(p.row, p.column))
    }

    /** set(row, column, value): overwrites one cell in place. */
    method Set(row: int, column: int, value: CellState)
      requires Valid() && InBounds(Position(row, column), rowCount, columnCount)
      modifies cells
      ensures Value() == old(Value()).Update(Position(row, column), value)
    {
      IndexMappingInRange(row, column, rowCount, columnCount);
      var i := IndexMapping(row, column, columnCount);
      cells[i] := value;
    }

    /** set(Position, value) */
    method SetAt(p: Position, value: CellState)
      requires Valid() && Value().Contains(p)
      modifies cells
      ensures Value() == old(Value()).Update(p, value)
    {
      Set(p.row, p.column, value);
    }

    /** copy: a new board with the same dimensions and contents in a fresh array. */
    method Copy() returns (b: Board)
      requires Valid()
      ensures fresh(b) && fresh(b.cells) && b.Valid()
      ensures b.Value() == Value()
    {
      var copied := new CellState[cells.Length](i reads cells requires 0 <= i < cells.Length => cells[i]);
      b := new Board(rowCount, columnCount, copied);
    }

    /** asString(): the plain rendering, which shows only the pieces. */
    method AsPlainString() returns (s: string)
      requires Valid()
      ensures s == Render(Value(), false)
      ensures forall c :: c in s ==> PlainChar(c)
    {
      s := AsString(false);
      PlainRenderShowsOnlyPieces(Value());
    }

    /** asString(detailed): the bordered text grid, built one cell at a time. */
    method AsString(detailed: bool) returns (s: string)
      requires Valid()
      ensures s == Render(Value(), detailed)
    {
      ghost var g := Value();
      var divider := Repeat("+-", columnCount) + "+\n";
      s := divider;
      var row := 0;
      while row < rowCount
        invariant 0 <= row <= rowCount
        invariant s == Divider(columnCount) + RowsText(g, row, detailed)
      {
        ghost var before := s;
        var column := 0;
        while column < columnCount
          invariant 0 <= column <= columnCount
          invariant s == before + CellsText(g, row, column, detailed)
        {
          var cell := Get(row, column);
          var cellChar := ' ';
          if detailed || cell == Queen || cell == Horse {
            cellChar := cell.Symbol();
          }
          AppendAssoc(before, CellsText(g, row, column, detailed), ['|', cellChar]);
          s := s + ['|', cellChar];
          column := column + 1;
        }
        s := s + "|\n";
        s := s + divider;
        RowAssoc(Divider(columnCount), RowsText(g, row, detailed), CellsText(g, row, columnCount, detailed), "|\n", divider);
        row := row + 1;
      }
    }
  }
}
