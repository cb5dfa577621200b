/** Attack propagation: the two passes that rewrite the cells a queen or a knight on a
    position could attack, and placeQueen / placeHorse, which run both passes on a copy of
    the board and then put the piece down. */
module Propagation {
  import opened CellStates
  import opened Positions
  import opened Grids
  import opened Boards

  /** The grid after the queen pass from p: QueenBan applied to every cell on p's lines. */
  function QueenBanned(g: Grid, p: Position, forceRewrite: bool): (r: Grid)
    requires g.Valid()
    ensures r.Valid() && r.rowCount == g.rowCount && r.columnCount == g.columnCount
  {
    g.(cells := seq(|g.cells|, i requires 0 <= i < |g.cells| =>
      if OnQueenLine(p, g.Locate(i)) then QueenBan(g.cells[i], forceRewrite) else g.cells[i]))
  }

  /** The grid after the knight pass from p: HorseBan applied to every on-board knight
      target of p. */
  function HorseBanned(g: Grid, p: Position, forceRewrite: bool): (r: Grid)
    requires g.Valid()
    ensures r.Valid() && r.rowCount == g.rowCount && r.columnCount == g.columnCount
  {
    g.(cells := seq(|g.cells|, i requires 0 <= i < |g.cells| =>
      if KnightMove(p, g.Locate(i)) then HorseBan(g.cells[i], forceRewrite) else g.cells[i]))
  }

  /** The board placeQueen returns. */
  function PlacedQueen(g: Grid, p: Position): (r: Grid)
    requires g.Valid() && g.Contains(p)
    ensures r.Valid() && r.rowCount == g.rowCount && r.columnCount == g.columnCount
  {
    HorseBanned(QueenBanned(g, p, true), p, false).Update(p, Queen)
  }

  /** The board placeHorse returns. */
  function PlacedHorse(g: Grid, p: Position): (r: Grid)
    requires g.Valid() && g.Contains(p)
    ensures r.Valid() && r.rowCount == g.rowCount && r.columnCount == g.columnCount
  {
    QueenBanned(HorseBanned(g, p, true), p, false).Update(p, Horse)
  }

  /** The queen pass, read cell by cell: cells on p's lines get the QueenBan rule and every
      other cell keeps its state. */
  lemma QueenBannedAt(g: Grid, p: Position, forceRewrite: bool, q: Position)
    requires g.Valid() && g.Contains(q)
    ensures QueenBanned(g, p, forceRewrite).At(q) ==
      if OnQueenLine(p, q) then QueenBan(g.At(q), forceRewrite) else g.At(q)
  {
    IndexMappingRoundTrip(q.row, q.column, g.rowCount, g.columnCount);
  }

  /** The knight pass, read cell by cell: p's knight targets get the HorseBan rule and every
      other cell keeps its state. */
  lemma HorseBannedAt(g: Grid, p: Position, forceRewrite: bool, q: Position)
    requires g.Valid() && g.Contains(q)
    ensures HorseBanned(g, p, forceRewrite).At(q) ==
      if KnightMove(p, q) then HorseBan(g.At(q), forceRewrite) else g.At(q)
  {
    IndexMappingRoundTrip(q.row, q.column, g.rowCount, g.columnCount);
  }

  /** After placeQueen(p): p holds the queen, every other cell on p's lines is NotAvailable
      (the knight pass leaves NotAvailable alone), p's knight targets get the non-forced
      HorseBan rule, and every other cell is unchanged. */
  lemma PlacedQueenAt(g: Grid, p: Position, q: Position)
    requires g.Valid() && g.Contains(p) && g.Contains(q)
    ensures PlacedQueen(g, p).At(q) ==
      if q == p then Queen
      else if OnQueenLine(p, q) then NotAvailable
      else if KnightMove(p, q) then HorseBan(g.At(q), false)
      else g.At(q)
  {
    var banned := QueenBanned(g, p, true);
    QueenBannedAt(g, p, true, q);
    HorseBannedAt(banned, p, false, q);
    UpdateAt(HorseBanned(banned, p, false), p, Queen, q);
  }

  /** After placeHorse(p): p holds the knight, p's knight targets are NotAvailable, the other
      cells on p's lines get the non-forced QueenBan rule, and every other cell is
      unchanged. */
  lemma PlacedHorseAt(g: Grid, p: Position, q: Position)
    requires g.Valid() && g.Contains(p) && g.Contains(q)
    ensures PlacedHorse(g, p).At(q) ==
      if q == p then Horse
      else if KnightMove(p, q) then NotAvailable
      else if OnQueenLine(p, q) then QueenBan(g.At(q), false)
      else g.At(q)
  {
    var banned := HorseBanned(g, p, true);
    HorseBannedAt(g, p, true, q);
    QueenBannedAt(banned, p, false, q);
    UpdateAt(QueenBanned(banned, p, false), p, Horse, q);
  }

  lemma UpdateAt(g: Grid, p: Position, s: CellState, q: Position)
    requires g.Valid() && g.Contains(p) && g.Contains(q)
    ensures g.Update(p, s).At(q) == if q == p then s else g.At(q)
  {
    IndexMappingRoundTrip(p.row, p.column, g.rowCount, g.columnCount);
    IndexMappingRoundTrip(q.row, q.column, g.rowCount, g.columnCount);
  }

  /** One step of the queen pass: the rule applied to the cell at (row, column). */
  method BanCellForQueen(board: Board, row: int, column: int, forceRewrite: bool)
    requires board.Valid() && InBounds(Position(row, column), board.rowCount, board.columnCount)
    modifies board.cells
    ensures board.Value() ==
      old(board.Value()).Update(Position(row, column), QueenBan(old(board.Get(row, column)), forceRewrite))
    ensures forall i :: 0 <= i < board.cells.Length ==>
      board.cells[i] == if i == IndexMapping(row, column, board.columnCount) then QueenBan(old(board.cells[i]), forceRewrite) else old(board.cells[i])
  {
    var cell := board.Get(row, column);
    if forceRewrite || cell == CanPlaceQueen {
      board.Set(row, column, NotAvailable);
    } else if cell == Available {
      board.Set(row, column, CanPlaceHorse);
    } else {
      IndexMappingInRange(row, column, board.rowCount, board.columnCount);
      assert board.Value() == board.Value().Update(Position(row, column), cell);
    }
  }

  /** banCellThatQueenCouldAttack: the column, the row and the two diagonals through p, each
      scanned by its own loop. The row and column loops both visit p itself; the rule is
      idempotent, so p ends as if visited once. */
  method BanCellsThatQueenCouldAttack(board: Board, p: Position, forceRewrite: bool)
    requires board.Valid() && board.Value().Contains(p)
    modifies board.cells
    ensures board.Value() == QueenBanned(old(board.Value()), p, forceRewrite)
  {
    ghost var g := board.Value();
    AllPositionsRoundTrip(board.rowCount, board.columnCount);
    BanColumn(board, p, forceRewrite, g);
    BanRow(board, p, forceRewrite, g);
    BanDiagonalsAbove(board, p, forceRewrite, g);
    BanDiagonalsBelow(board, p, forceRewrite, g);
    assert forall i :: 0 <= i < |g.cells| ==>
      (BelowBefore(p, g.Locate(i), board.rowCount - p.row) <==> OnQueenLine(p, g.Locate(i)));
    assert board.Value().cells == QueenBanned(g, p, forceRewrite).cells;
  }

  /** The board holds g with the queen rule applied to the cells `covered` picks out. */
  ghost predicate QueenRuleApplied(board: Board, g: Grid, forceRewrite: bool, covered: Position -> bool)
    reads board.cells
    requires g.Valid()
  {
    board.cells.Length == |g.cells| &&
    forall i :: 0 <= i < |g.cells| ==>
      board.cells[i] == (if covered(g.Locate(i)) then QueenBan(g.cells[i], forceRewrite) else g.cells[i])
  }

  /** What every step of the queen pass may assume about the board and the grid it started
      from. */
  ghost predicate PassFrame(board: Board, g: Grid, p: Position) {
    board.Valid() && g.Valid() && g.Contains(p) &&
    g.rowCount == board.rowCount && g.columnCount == board.columnCount &&
    forall i :: 0 <= i < |g.cells| ==>
      g.Contains(g.Locate(i)) && Index(g.Locate(i), g.columnCount) == i
  }

  /** The first loop of banCellThatQueenCouldAttack: every row of p's column. */
  method BanColumn(board: Board, p: Position, forceRewrite: bool, ghost g: Grid)
    requires PassFrame(board, g, p) && board.Value() == g
    modifies board.cells
    ensures QueenRuleApplied(board, g, forceRewrite, (q: Position) => q.column == p.column)
  {
    for row := 0 to board.rowCount
      invariant QueenRuleApplied(board, g, forceRewrite, q => InColumnBefore(p, q, row))
    {
      IndexMappingRoundTrip(row, p.column, board.rowCount, board.columnCount);
      BanCellForQueen(board, row, p.column, forceRewrite);
    }
  }

  /** The second loop: every column of p's row. */
  method BanRow(board: Board, p: Position, forceRewrite: bool, ghost g: Grid)
    requires PassFrame(board, g, p)
    requires QueenRuleApplied(board, g, forceRewrite, (q: Position) => q.column == p.column)
    modifies board.cells
    ensures QueenRuleApplied(board, g, forceRewrite, (q: Position) => q.column == p.column || q.row == p.row)
  {
    for column := 0 to board.columnCount
      invariant QueenRuleApplied(board, g, forceRewrite, q => InRowBefore(p, q, column))
    {
      IndexMappingRoundTrip(p.row, column, board.rowCount, board.columnCount);
      BansAreIdempotent(g.cells[IndexMapping(p.row, column, board.columnCount)], forceRewrite);
      BanCellForQueen(board, p.row, column, forceRewrite);
    }
  }

  /** The third loop: both diagonals above p, one row at a time. */
  method BanDiagonalsAbove(board: Board, p: Position, forceRewrite: bool, ghost g: Grid)
    requires PassFrame(board, g, p)
    requires QueenRuleApplied(board, g, forceRewrite, (q: Position) => q.column == p.column || q.row == p.row)
    modifies board.cells
    ensures QueenRuleApplied(board, g, forceRewrite, q => AboveBefore(p, q, p.row + 1))
  {
    var i := 1;
    while p.row - i >= 0
      invariant 1 <= i <= p.row + 1
      invariant QueenRuleApplied(board, g, forceRewrite, q => AboveBefore(p, q, i))
    {
      BanAboveLeft(board, p, i, forceRewrite, g);
      BanAboveRight(board, p, i, forceRewrite, g);
      i := i + 1;
    }
  }

  /** The left cell of row i of the third loop, when it lies on the board. */
  method BanAboveLeft(board: Board, p: Position, i: int, forceRewrite: bool, ghost g: Grid)
    requires PassFrame(board, g, p) && 1 <= i <= p.row
    requires QueenRuleApplied(board, g, forceRewrite, q => AboveBefore(p, q, i))
    modifies board.cells
    ensures QueenRuleApplied(board, g, forceRewrite, q => AboveLeftBefore(p, q, i))
  {
    var leftColumn, row := p.column - i, p.row - i;
    if leftColumn >= 0 {
      IndexMappingRoundTrip(row, leftColumn, board.rowCount, board.columnCount);
      BanCellForQueen(board, row, leftColumn, forceRewrite);
    }
  }

  /** The right cell of row i of the third loop, when it lies on the board. */
  method BanAboveRight(board: Board, p: Position, i: int, forceRewrite: bool, ghost g: Grid)
    requires PassFrame(board, g, p) && 1 <= i <= p.row
    requires QueenRuleApplied(board, g, forceRewrite, q => AboveLeftBefore(p, q, i))
    modifies board.cells
    ensures QueenRuleApplied(board, g, forceRewrite, q => AboveBefore(p, q, i + 1))
  {
    var rightColumn, row := p.column + i, p.row - i;
    if rightColumn < board.columnCount {
      IndexMappingRoundTrip(row, rightColumn, board.rowCount, board.columnCount);
      BanCellForQueen(board, row, rightColumn, forceRewrite);
    }
  }

  /** The fourth loop: both diagonals below p, one row at a time. */
  method BanDiagonalsBelow(board: Board, p: Position, forceRewrite: bool, ghost g: Grid)
    requires PassFrame(board, g, p)
    requires QueenRuleApplied(board, g, forceRewrite, q => AboveBefore(p, q, p.row + 1))
    modifies board.cells
    ensures QueenRuleApplied(board, g, forceRewrite, q => BelowBefore(p, q, board.rowCount - p.row))
  {
    var i := 1;
    while p.row + i < board.rowCount
      invariant 1 <= i <= board.rowCount - p.row
      invariant QueenRuleApplied(board, g, forceRewrite, q => BelowBefore(p, q, i))
    {
      BanBelowLeft(board, p, i, forceRewrite, g);
      BanBelowRight(board, p, i, forceRewrite, g);
      i := i + 1;
    }
  }

  /** The left cell of row i of the fourth loop, when it lies on the board. */
  method BanBelowLeft(board: Board, p: Position, i: int, forceRewrite: bool, ghost g: Grid)
    requires PassFrame(board, g, p) && 1 <= i && p.row + i < board.rowCount
    requires QueenRuleApplied(board, g, forceRewrite, q => BelowBefore(p, q, i))
    modifies board.cells
    ensures QueenRuleApplied(board, g, forceRewrite, q => BelowLeftBefore(p, q, i))
  {
    var leftColumn, row := p.column - i, p.row + i;
    if leftColumn >= 0 {
      IndexMappingRoundTrip(row, leftColumn, board.rowCount, board.columnCount);
      BanCellForQueen(board, row, leftColumn, forceRewrite);
    }
  }

  /** The right cell of row i of the fourth loop, when it lies on the board. */
  method BanBelowRight(board: Board, p: Position, i: int, forceRewrite: bool, ghost g: Grid)
    requires PassFrame(board, g, p) && 1 <= i && p.row + i < board.rowCount
    requires QueenRuleApplied(board, g, forceRewrite, q => BelowLeftBefore(p, q, i))
    modifies board.cells
    ensures QueenRuleApplied(board, g, forceRewrite, q => BelowBefore(p, q, i + 1))
  {
    var rightColumn, row := p.column + i, p.row + i;
    if rightColumn < board.columnCount {
      IndexMappingRoundTrip(row, rightColumn, board.rowCount, board.columnCount);
      BanCellForQueen(board, row, rightColumn, forceRewrite);
    }
  }

  // How much of p's lines the queen pass has covered, loop by loop.

  ghost predicate InColumnBefore(p: Position, q: Position, row: int) {
    q.column == p.column && q.row < row
  }

  ghost predicate InRowBefore(p: Position, q: Position, column: int) {
    q.column == p.column || (q.row == p.row && q.column < column)
  }

  ghost predicate AboveBefore(p: Position, q: Position, i: int) {
    q.column == p.column || q.row == p.row ||
    (p.row - i < q.row < p.row && Abs(q.column - p.column) == p.row - q.row)
  }

  ghost predicate BelowBefore(p: Position, q: Position, i: int) {
    q.column == p.column || q.row == p.row ||
    (q.row < p.row && Abs(q.column - p.column) == p.row - q.row) ||
    (p.row < q.row < p.row + i && Abs(q.column - p.column) == q.row - p.row)
  }

  ghost predicate AboveLeftBefore(p: Position, q: Position, i: int) {
    AboveBefore(p, q, i) || (q.row == p.row - i && q.column == p.column - i)
  }

  ghost predicate BelowLeftBefore(p: Position, q: Position, i: int) {
    BelowBefore(p, q, i) || (q.row == p.row + i && q.column == p.column - i)
  }

  /** banCellThatHorseCouldAttack: the eight knight targets of p in turn, each rewritten when
      it lies on the board and skipped when it does not. */
  method BanCellsThatHorseCouldAttack(board: Board, p: Position, forceRewrite: bool)
    requires board.Valid()
    modifies board.cells
    ensures board.Value() == HorseBanned(old(board.Value()), p, forceRewrite)
  {
    ghost var g := board.Value();
    AllPositionsRoundTrip(board.rowCount, board.columnCount);
    HorseTargetsAreKnightMoves(p);
    var horseAttackPositions := HorseTargets(p);
    for k := 0 to |horseAttackPositions|
      invariant forall i :: 0 <= i < |g.cells| ==>
        board.cells[i] == (if TargetIndex(p, g.Locate(i)) < k then HorseBan(g.cells[i], forceRewrite) else g.cells[i])
    {
      var target := horseAttackPositions[k];
      var cell := board.GetAt(target);
      if cell.Some? {
        IndexMappingRoundTrip(target.row, target.column, board.rowCount, board.columnCount);
        if forceRewrite || cell.value == CanPlaceHorse {
          board.SetAt(target, NotAvailable);
        } else if cell.value == Available {
          board.SetAt(target, CanPlaceQueen);
        }
      }
    }
  }

  /** placeQueen: the original board is left as it was; the returned board is a fresh copy
      with the forced queen pass and the non-forced knight pass run from p and the queen
      put on p. */
  method PlaceQueen(board: Board, p: Position) returns (placed: Board)
    requires board.Valid() && board.Value().Contains(p)
    ensures fresh(placed) && fresh(placed.cells) && placed.Valid()
    ensures placed.Value() == PlacedQueen(board.Value(), p)
    ensures board.Value() == old(board.Value())
  {
    placed := board.Copy();
    BanCellsThatQueenCouldAttack(placed, p, true);
    BanCellsThatHorseCouldAttack(placed, p, false);
    placed.SetAt(p, Queen);
  }

  /** placeHorse: the mirror image of placeQueen. */
  method PlaceHorse(board: Board, p: Position) returns (placed: Board)
    requires board.Valid() && board.Value().Contains(p)
    ensures fresh(placed) && fresh(placed.cells) && placed.Valid()
    ensures placed.Value() == PlacedHorse(board.Value(), p)
    ensures board.Value() == old(board.Value())
  {
    placed := board.Copy();
    BanCellsThatHorseCouldAttack(placed, p, true);
    BanCellsThatQueenCouldAttack(placed, p, false);
    placed.SetAt(p, Horse);
  }
}
