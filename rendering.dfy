/** The text that Board.asString builds: a grid of `|x` cells between `+-` divider lines. */
module Rendering {
  import opened CellStates
  import opened Positions
  import opened Grids

  /** String.repeat */
  function Repeat(s: string, n: nat): (r: string)
    ensures |r| == |s| * n
    ensures forall c :: c in r ==> c in s
  {
    if n == 0 then "" else Repeat(s, n - 1) + s
  }

  /** The line drawn above, between and below the rows of cells. */
  function Divider(columnCount: nat): string {
    Repeat("+-", columnCount) + "+\n"
  }

  /** The character shown for a cell: its glyph when detailed or when it holds a piece,
      a blank otherwise. */
  function CellChar(s: CellState, detailed: bool): (c: char)
    ensures detailed ==> c == s.Symbol()
    ensures !detailed ==> (c != ' ' <==> s.IsPiece())
  {
    if detailed || s == Queen || s == Horse then s.Symbol() else ' '
  }

  /** `|x` for each of the first `columns` cells of row `row`. */
  function CellsText(g: Grid, row: int, columns: nat, detailed: bool): (r: string)
    requires g.Valid() && 0 <= row < g.rowCount && columns <= g.columnCount
    ensures |r| == 2 * columns
  {
    if columns == 0 then ""
    else CellsText(g, row, columns - 1, detailed) + ['|', CellChar(g.At(Position(row, columns - 1)), detailed)]
  }

  /** The whole line of row `row`, closing bar and line break included. */
  function CellLine(g: Grid, row: int, detailed: bool): string
    requires g.Valid() && 0 <= row < g.rowCount
  {
    CellsText(g, row, g.columnCount, detailed) + "|\n"
  }

  /** The first `rows` rows, each followed by a divider. */
  function RowsText(g: Grid, rows: nat, detailed: bool): string
    requires g.Valid() && rows <= g.rowCount
  {
    if rows == 0 then "" else RowsText(g, rows - 1, detailed) + CellLine(g, rows - 1, detailed) + Divider(g.columnCount)
  }

  /** Board.asString(detailed) */
  function Render(g: Grid, detailed: bool): (r: string)
    requires g.Valid()
    ensures |r| >= 2 * (2 * g.columnCount + 2)
    ensures r[..2 * g.columnCount + 2] == Divider(g.columnCount)
    ensures r[|r| - (2 * g.columnCount + 2)..] == Divider(g.columnCount)
  {
    Divider(g.columnCount) + RowsText(g, g.rowCount, detailed)
  }

  /** The rendering read as lines: a divider, then each row's line followed by a divider. */
  function Lines(g: Grid, detailed: bool): seq<string>
    requires g.Valid()
  {
    LinesUpTo(g, detailed, g.rowCount)
  }

  /** The lines of a rendering of the first `rows` rows. */
  function LinesUpTo(g: Grid, detailed: bool, rows: nat): (ls: seq<string>)
    requires g.Valid() && rows <= g.rowCount
    ensures |ls| == 2 * rows + 1
  {
    if rows == 0 then [Divider(g.columnCount)]
    else LinesUpTo(g, detailed, rows - 1) + [CellLine(g, rows - 1, detailed), Divider(g.columnCount)]
  }

  function Concat(ls: seq<string>): string {
    if ls == [] then "" else Concat(ls[..|ls| - 1]) + ls[|ls| - 1]
  }

  /** asString is its lines joined. */
  lemma RenderIsLines(g: Grid, detailed: bool)
    requires g.Valid()
    ensures Render(g, detailed) == Concat(Lines(g, detailed))
  {
    RowsAreLines(g, detailed, g.rowCount);
  }

  // The regrouping lemmas below state facts about + that Dafny knows; calling them names
  // the one regrouping a proof step needs, which keeps that step's proof obligation small.

  lemma ConcatAppend(ls: seq<string>, line: string)
    ensures Concat(ls + [line]) == Concat(ls) + line
  {
    assert (ls + [line])[..|ls|] == ls;
  }

  lemma AppendAssoc(a: string, b: string, c: string)
    ensures (a + b) + c == a + (b + c)
  {
  }

  /** The regrouping that closes a row of asString. */
  lemma RowAssoc(a: string, b: string, c: string, d: string, e: string)
    ensures (((a + b) + c) + d) + e == a + ((b + (c + d)) + e)
  {
  }

  lemma SeqAssoc3(a: string, b: string, c: string, d: string)
    ensures ((a + b) + c) + d == a + ((b + c) + d)
  {
  }

  lemma {:induction false} RowsAreLines(g: Grid, detailed: bool, rows: nat)
    requires g.Valid() && rows <= g.rowCount
    ensures Divider(g.columnCount) + RowsText(g, rows, detailed) == Concat(LinesUpTo(g, detailed, rows))
  {
    if rows == 0 {
      ConcatAppend([], Divider(g.columnCount));
    } else {
      RowsAreLines(g, detailed, rows - 1);
      ConcatStep(LinesUpTo(g, detailed, rows - 1), Divider(g.columnCount), RowsText(g, rows - 1, detailed),
        CellLine(g, rows - 1, detailed), Divider(g.columnCount));
    }
  }

  /** Appending a row's line and a divider to the lines appends them to the text. */
  lemma ConcatStep(prefix: seq<string>, head: string, before: string, line: string, divider: string)
    requires head + before == Concat(prefix)
    ensures head + ((before + line) + divider) == Concat(prefix + [line, divider])
  {
    calc {
      Concat(prefix + [line, divider]);
      { assert prefix + [line, divider] == (prefix + [line]) + [divider]; }
      Concat((prefix + [line]) + [divider]);
      { ConcatAppend(prefix + [line], divider); }
      Concat(prefix + [line]) + divider;
      { ConcatAppend(prefix, line); }
      (Concat(prefix) + line) + divider;
      ((head + before) + line) + divider;
      { SeqAssoc3(head, before, line, divider); }
      head + ((before + line) + divider);
    }
  }

  /** Line k of a rendering is a divider when k is even and the line of row k / 2 when k
      is odd: 2 * rows + 1 lines in all. */
  lemma {:induction false} LineAt(g: Grid, detailed: bool, rows: nat, k: int)
    requires g.Valid() && rows <= g.rowCount && 0 <= k < 2 * rows + 1
    ensures LinesUpTo(g, detailed, rows)[k] ==
      if k % 2 == 0 then Divider(g.columnCount) else CellLine(g, k / 2, detailed)
  {
    if k < 2 * rows - 1 {
      LineAt(g, detailed, rows - 1, k);
    }
  }

  /** Every line of asString is 2 * columns + 2 characters long, ends its only line break,
      and the even-numbered ones are the divider "+-+-...+". */
  lemma LineShape(g: Grid, detailed: bool, k: int)
    requires g.Valid() && 0 <= k < 2 * g.rowCount + 1
    ensures var line := Lines(g, detailed)[k];
      |line| == 2 * g.columnCount + 2 && line[|line| - 1] == '\n' &&
      '\n' !in line[..|line| - 1] &&
      (k % 2 == 0 ==> line == Repeat("+-", g.columnCount) + "+\n")
  {
    var line := Lines(g, detailed)[k];
    LineAt(g, detailed, g.rowCount, k);
    if k % 2 == 0 {
      assert line[..|line| - 1] == Repeat("+-", g.columnCount) + "+";
    } else {
      var cells := CellsText(g, k / 2, g.columnCount, detailed);
      assert line[..|line| - 1] == cells + "|";
      CellsTextHasNoBreak(g, k / 2, g.columnCount, detailed);
    }
  }

  lemma {:induction false} CellsTextHasNoBreak(g: Grid, row: int, columns: nat, detailed: bool)
    requires g.Valid() && 0 <= row < g.rowCount && columns <= g.columnCount
    ensures '\n' !in CellsText(g, row, columns, detailed)
  {
    if columns > 0 {
      CellsTextHasNoBreak(g, row, columns - 1, detailed);
    }
  }

  /** asString's total length is (2 * columns + 2) * (2 * rows + 1). */
  lemma RenderLength(g: Grid, detailed: bool)
    requires g.Valid()
    ensures |Render(g, detailed)| == (2 * g.columnCount + 2) * (2 * g.rowCount + 1)
  {
    var w := 2 * g.columnCount + 2;
    RowsTextLength(g, detailed, g.rowCount);
    MulAddOne(w, 2 * g.rowCount);
  }

  /** Distributivity at the one point RenderLength needs it. */
  lemma MulAddOne(a: int, b: int)
    ensures a * (b + 1) == a * b + a
  {
  }

  lemma LineLengths(g: Grid, detailed: bool, row: int)
    requires g.Valid() && 0 <= row < g.rowCount
    ensures |CellLine(g, row, detailed)| == 2 * g.columnCount + 2
    ensures |Divider(g.columnCount)| == 2 * g.columnCount + 2
  {
  }

  lemma {:induction false} RowsTextLength(g: Grid, detailed: bool, rows: nat)
    requires g.Valid() && rows <= g.rowCount
    ensures |RowsText(g, rows, detailed)| == (2 * g.columnCount + 2) * (2 * rows)
  {
    if rows > 0 {
      var w := 2 * g.columnCount + 2;
      RowsTextLength(g, detailed, rows - 1);
      LineLengths(g, detailed, rows - 1);
      MulAddOne(w, 2 * rows - 2);
      MulAddOne(w, 2 * rows - 1);
    }
  }

  /** The characters a plain (not detailed) rendering may contain. */
  predicate PlainChar(c: char) {
    c == '+' || c == '-' || c == '|' || c == '\n' || c == ' ' ||
    c == Queen.Symbol() || c == Horse.Symbol()
  }

  /** A plain asString shows queens and knights and blanks out every other state. */
  lemma PlainRenderShowsOnlyPieces(g: Grid)
    requires g.Valid()
    ensures forall c :: c in Render(g, false) ==> PlainChar(c)
  {
    forall rows | 0 <= rows <= g.rowCount
      ensures forall c :: c in RowsText(g, rows, false) ==> PlainChar(c)
    {
      PlainRowsText(g, rows);
    }
  }

  lemma {:induction false} PlainRowsText(g: Grid, rows: nat)
    requires g.Valid() && rows <= g.rowCount
    ensures forall c :: c in RowsText(g, rows, false) ==> PlainChar(c)
  {
    if rows > 0 {
      PlainRowsText(g, rows - 1);
      PlainCellsText(g, rows - 1, g.columnCount);
      PlainDivider(g.columnCount);
      PlainJoin(RowsText(g, rows - 1, false), CellsText(g, rows - 1, g.columnCount, false), Divider(g.columnCount));
    }
  }

  lemma PlainDivider(columnCount: nat)
    ensures forall c :: c in Divider(columnCount) ==> PlainChar(c)
  {
  }

  /** A row's text followed by its closing bar and a divider stays plain. */
  lemma PlainJoin(before: string, cells: string, divider: string)
    requires forall c :: c in before ==> PlainChar(c)
    requires forall c :: c in cells ==> PlainChar(c)
    requires forall c :: c in divider ==> PlainChar(c)
    ensures forall c :: c in (before + (cells + "|\n")) + divider ==> PlainChar(c)
  {
  }

  lemma {:induction false} PlainCellsText(g: Grid, row: int, columns: nat)
    requires g.Valid() && 0 <= row < g.rowCount && columns <= g.columnCount
    ensures forall c :: c in CellsText(g, row, columns, false) ==> PlainChar(c)
  {
    if columns > 0 {
      PlainCellsText(g, row, columns - 1);
    }
  }

  /** The grid with every cell that holds no piece shown as Available. */
  function Stripped(g: Grid): (h: Grid)
    requires g.Valid()
    ensures h.Valid() && h.rowCount == g.rowCount && h.columnCount == g.columnCount
  {
    g.(cells := seq(|g.cells|, i requires 0 <= i < |g.cells| =>
      if g.cells[i].IsPiece() then g.cells[i] else Available))
  }

  /** The plain rendering of a board is the detailed rendering of the board with its
      markings erased: only the pieces survive. */
  lemma PlainRenderIsStrippedRender(g: Grid)
    requires g.Valid()
    ensures Render(g, false) == Render(Stripped(g), true)
  {
    StrippedRows(g, g.rowCount);
  }

  lemma {:induction false} StrippedRows(g: Grid, rows: nat)
    requires g.Valid() && rows <= g.rowCount
    ensures RowsText(g, rows, false) == RowsText(Stripped(g), rows, true)
  {
    if rows > 0 {
      StrippedRows(g, rows - 1);
      StrippedCells(g, rows - 1, g.columnCount);
    }
  }

  lemma {:induction false} StrippedCells(g: Grid, row: int, columns: nat)
    requires g.Valid() && 0 <= row < g.rowCount && columns <= g.columnCount
    ensures CellsText(g, row, columns, false) == CellsText(Stripped(g), row, columns, true)
  {
    if columns > 0 {
      StrippedCells(g, row, columns - 1);
      StrippedCell(g, Position(row, columns - 1));
    }
  }

  lemma StrippedCell(g: Grid, p: Position)
    requires g.Valid() && g.Contains(p)
    ensures CellChar(g.At(p), false) == CellChar(Stripped(g).At(p), true)
  {
    IndexMappingRoundTrip(p.row, p.column, g.rowCount, g.columnCount);
    assert Stripped(g).At(p) == if g.At(p).IsPiece() then g.At(p) else Available;
  }
}
