/** Board coordinates: the (row, column) pair, the conversions between it and the row-major
    flat index of a board's cell array, and the two attack geometries. */
module Positions {

  datatype Position = Position(row: int, column: int)

  /** Java's `/` on int: the quotient truncated toward zero. */
  function TruncDiv(a: int, b: int): (q: int)
    requires b > 0
    ensures Abs(q) == Abs(a) / b
    ensures q == 0 || (q < 0 <==> a < 0)
  {
    if a >= 0 then a / b else -((-a) / b)
  }

  /** Java's `%` on int: the remainder takes the sign of the dividend. */
  function TruncRem(a: int, b: int): (m: int)
    requires b > 0
    ensures Abs(m) == Abs(a) % b
    ensures m == 0 || (m < 0 <==> a < 0)
  {
    if a >= 0 then a % b else -((-a) % b)
  }

  /** Position.of: the position of flat index `index` on a board `columnCount` wide. */
  function PositionOf(index: int, columnCount: int): (p: Position)
    requires columnCount > 0
    ensures Abs(p.column) < columnCount
    ensures index >= 0 ==> p.row >= 0 && p.column >= 0
  {
    Position(TruncDiv(index, columnCount), TruncRem(index, columnCount))
  }

  /** Board.indexMapping: the flat index of (row, column). */
  function IndexMapping(row: int, column: int, columnCount: int): (i: int)
    ensures 0 <= column < columnCount ==> row * columnCount <= i < row * columnCount + columnCount
  {
    row * columnCount + column
  }

  /** indexMapping applied to a Position; a shorthand, so that lemmas quantifying over
      positions can hang their triggers on a single term. */
  function Index(p: Position, columnCount: int): int {
    IndexMapping(p.row, p.column, columnCount)
  }

  predicate InBounds(p: Position, rowCount: int, columnCount: int) {
    0 <= p.row < rowCount && 0 <= p.column < columnCount
  }

  /** Position.moveOn */
  function MoveOn(p: Position, rowDiff: int, columnDiff: int): (r: Position)
    ensures r.row - p.row == rowDiff && r.column - p.column == columnDiff
  {
    Position(p.row + rowDiff, p.column + columnDiff)
  }

  function Abs(x: int): nat {
    if x < 0 then -x else x
  }

  /** q lies on p's row, column or one of its two diagonals (p itself included): the squares
      a queen on p reaches when nothing blocks it. */
  predicate OnQueenLine(p: Position, q: Position) {
    p.row == q.row || p.column == q.column || Abs(q.row - p.row) == Abs(q.column - p.column)
  }

  /** q is one knight's move away from p. */
  predicate KnightMove(p: Position, q: Position) {
    var dr, dc := Abs(q.row - p.row), Abs(q.column - p.column);
    (dr == 1 && dc == 2) || (dr == 2 && dc == 1)
  }

  /** The eight knight targets of p, in the order the knight pass visits them. */
  function HorseTargets(p: Position): (ts: seq<Position>)
    ensures |ts| == 8
  {
    [MoveOn(p, 2, 1), MoveOn(p, -2, 1), MoveOn(p, 2, -1), MoveOn(p, -2, -1),
     MoveOn(p, 1, 2), MoveOn(p, -1, 2), MoveOn(p, 1, -2), MoveOn(p, -1, -2)]
  }

  /** Which of p's eight knight targets q is, or 8 when it is none of them. */
  function TargetIndex(p: Position, q: Position): (k: nat)
    ensures k <= 8
    ensures k < 8 <==> KnightMove(p, q)
    ensures k < 8 ==> HorseTargets(p)[k] == q
  {
    var dr, dc := q.row - p.row, q.column - p.column;
    if dr == 2 && dc == 1 then 0
    else if dr == -2 && dc == 1 then 1
    else if dr == 2 && dc == -1 then 2
    else if dr == -2 && dc == -1 then 3
    else if dr == 1 && dc == 2 then 4
    else if dr == -1 && dc == 2 then 5
    else if dr == 1 && dc == -2 then 6
    else if dr == -1 && dc == -2 then 7
    else 8
  }

  /** The eight targets are exactly the knight moves from p, each listed once. */
  lemma HorseTargetsAreKnightMoves(p: Position)
    ensures forall k :: 0 <= k < 8 ==> TargetIndex(p, HorseTargets(p)[k]) == k
    ensures forall q :: KnightMove(p, q) <==> q in HorseTargets(p)
  {
    var ts := HorseTargets(p);
    forall q | q in ts ensures KnightMove(p, q) {
      var k :| 0 <= k < 8 && ts[k] == q;
    }
    forall q | KnightMove(p, q) ensures q in ts {
      assert ts[TargetIndex(p, q)] == q;
    }
  }

  /** Queen lines and knight moves are symmetric, and a knight move never lies on a queen
      line: the two attack patterns of one square are disjoint. */
  lemma AttackGeometry(p: Position, q: Position)
    ensures OnQueenLine(p, q) <==> OnQueenLine(q, p)
    ensures KnightMove(p, q) <==> KnightMove(q, p)
    ensures KnightMove(p, q) ==> !OnQueenLine(p, q) && p != q
  {
  }

  /** Euclidean division of row * columnCount + column by columnCount gives back the pair. */
  lemma DivModUnique(n: int, columnCount: int, row: int, column: int)
    requires columnCount > 0 && 0 <= column < columnCount
    requires n == row * columnCount + column
    ensures n / columnCount == row && n % columnCount == column
  {
    var q, m := n / columnCount, n % columnCount;
    assert q * columnCount + m == row * columnCount + column;
    if q > row {
      MulAtLeast(q - row, columnCount);
    } else if q < row {
      MulAtLeast(row - q, columnCount);
    }
  }

  lemma MulAtLeast(a: int, b: int)
    requires a >= 1 && b > 0
    ensures a * b >= b
  {
  }

  lemma MulMonotone(a: int, b: int, c: int)
    requires 0 <= a <= b && c >= 0
    ensures a * c <= b * c
  {
  }

  /** indexMapping sends an on-board (row, column) into the cell array. */
  lemma IndexMappingInRange(row: int, column: int, rowCount: int, columnCount: int)
    requires InBounds(Position(row, column), rowCount, columnCount)
    ensures 0 <= IndexMapping(row, column, columnCount) < rowCount * columnCount
  {
    MulMonotone(row + 1, rowCount, columnCount);
  }

  /** indexMapping sends an on-board (row, column) into the cell array, and Position.of
      inverts it. */
  lemma IndexMappingRoundTrip(row: int, column: int, rowCount: int, columnCount: int)
    requires InBounds(Position(row, column), rowCount, columnCount)
    ensures 0 <= IndexMapping(row, column, columnCount) < rowCount * columnCount
    ensures PositionOf(IndexMapping(row, column, columnCount), columnCount) == Position(row, column)
  {
    IndexMappingInRange(row, column, rowCount, columnCount);
    DivModUnique(IndexMapping(row, column, columnCount), columnCount, row, column);
  }

  /** Position.of sends every index of the cell array to an on-board position, and
      indexMapping inverts it. */
  lemma PositionOfRoundTrip(index: int, rowCount: int, columnCount: int)
    requires columnCount > 0 && 0 <= index < rowCount * columnCount
    ensures InBounds(PositionOf(index, columnCount), rowCount, columnCount)
    ensures Index(PositionOf(index, columnCount), columnCount) == index
  {
    var p := PositionOf(index, columnCount);
    assert p.row * columnCount + p.column == index;
    if p.row >= rowCount {
      MulMonotone(rowCount, p.row, columnCount);
    }
  }

  /** PositionOfRoundTrip for every index at once. */
  lemma AllPositionsRoundTrip(rowCount: int, columnCount: int)
    requires columnCount > 0
    ensures forall i :: 0 <= i < rowCount * columnCount ==>
      InBounds(PositionOf(i, columnCount), rowCount, columnCount) &&
      Index(PositionOf(i, columnCount), columnCount) == i
  {
    forall i | 0 <= i < rowCount * columnCount
      ensures InBounds(PositionOf(i, columnCount), rowCount, columnCount)
      ensures Index(PositionOf(i, columnCount), columnCount) == i
    {
      PositionOfRoundTrip(i, rowCount, columnCount);
    }
  }
}
