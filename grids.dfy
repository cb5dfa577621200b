/** The contents of a board as an immutable value, and the row-major scan for cells that
    satisfy a predicate (Board.lookFor). */
module Grids {
  import opened CellStates
  import opened Positions

  /** A snapshot of a Board: its two dimensions and its row-major cell array. */
  datatype Grid = Grid(rowCount: int, columnCount: int, cells: seq<CellState>) {

    predicate Valid() {
      rowCount > 0 && columnCount > 0 && |cells| == rowCount * columnCount
    }

    predicate Contains(p: Position) {
      InBounds(p, rowCount, columnCount)
    }

    /** The position of flat index i: Position.of on this grid's own width, so that the
        lemmas about a grid need not repeat the width at every use. */
    function Locate(i: int): Position
      requires columnCount > 0
    {
      PositionOf(i, columnCount)
    }

    /** The state of the cell at an on-board position. */
    function At(p: Position): CellState
      requires Valid() && Contains(p)
    {
      IndexMappingInRange(p.row, p.column, rowCount, columnCount);
      cells[Index(p, columnCount)]
    }

    /** The grid with the cell at p replaced by s. */
    function Update(p: Position, s: CellState): (g: Grid)
      requires Valid() && Contains(p)
      ensures g.Valid() && g.rowCount == rowCount && g.columnCount == columnCount
    {
      IndexMappingInRange(p.row, p.column, rowCount, columnCount);
      this.(cells := cells[Index(p, columnCount) := s])
    }

    /** The number of cells in state s. */
    function Count(s: CellState): nat {
      Occurrences(cells, s)
    }
  }

  /** The number of entries of cells equal to s. */
  function Occurrences(cells: seq<CellState>, s: CellState): nat {
    if cells == [] then 0
    else Occurrences(cells[..|cells| - 1], s) + (if cells[|cells| - 1] == s then 1 else 0)
  }

  lemma {:induction false} NoOccurrences(cells: seq<CellState>, s: CellState)
    requires s !in cells
    ensures Occurrences(cells, s) == 0
  {
    if cells != [] {
      assert cells[..|cells| - 1] <= cells;
      NoOccurrences(cells[..|cells| - 1], s);
    }
  }

  /** The grid of Board.of: every cell Available. */
  function Empty(rowCount: int, columnCount: int): (g: Grid)
    requires rowCount > 0 && columnCount > 0
    ensures g.Valid() && g.rowCount == rowCount && g.columnCount == columnCount
    ensures forall i :: 0 <= i < |g.cells| ==> g.cells[i] == Available
  {
    MulMonotone(0, rowCount, columnCount);
    Grid(rowCount, columnCount, seq(rowCount * columnCount, _ => Available))
  }

  /** Board.lookFor: the positions whose cell satisfies pred, in row-major order. */
  function LookFor(g: Grid, pred: CellState -> bool): (ps: seq<Position>)
    requires g.Valid()
    ensures forall k :: 0 <= k < |ps| ==> g.Contains(ps[k]) && pred(g.At(ps[k]))
  {
    LookForFrom(g, pred, 0)
  }

  /** The positions from flat index `from` on whose cell satisfies pred. */
  function LookForFrom(g: Grid, pred: CellState -> bool, from: nat): (ps: seq<Position>)
    requires g.Valid() && from <= |g.cells|
    ensures forall k :: 0 <= k < |ps| ==> g.Contains(ps[k]) && pred(g.At(ps[k])) && from <= Index(ps[k], g.columnCount)
    ensures forall i {:trigger g.Locate(i)} :: from <= i < |g.cells| && pred(g.cells[i]) ==> g.Locate(i) in ps
    decreases |g.cells| - from
  {
    if from == |g.cells| then []
    else
      PositionOfRoundTrip(from, g.rowCount, g.columnCount);
      var rest := LookForFrom(g, pred, from + 1);
      if pred(g.cells[from]) then [g.Locate(from)] + rest else rest
  }

  /** The positions the scan yields come in strictly increasing flat-index order. */
  lemma {:induction false} LookForFromIncreasing(g: Grid, pred: CellState -> bool, from: nat)
    requires g.Valid() && from <= |g.cells|
    ensures forall k, l :: 0 <= k < l < |LookForFrom(g, pred, from)| ==>
      Index(LookForFrom(g, pred, from)[k], g.columnCount) < Index(LookForFrom(g, pred, from)[l], g.columnCount)
    decreases |g.cells| - from
  {
    if from < |g.cells| {
      var rest := LookForFrom(g, pred, from + 1);
      LookForFromIncreasing(g, pred, from + 1);
      if pred(g.cells[from]) {
        PositionOfRoundTrip(from, g.rowCount, g.columnCount);
        ConsIncreasing(g.Locate(from), rest, g.columnCount, from);
      }
    }
  }

  /** Putting a position with flat index `from` in front of positions whose flat indices
      exceed `from` and increase keeps them increasing. */
  lemma ConsIncreasing(p: Position, rest: seq<Position>, columnCount: int, from: int)
    requires Index(p, columnCount) == from
    requires forall k :: 0 <= k < |rest| ==> from < Index(rest[k], columnCount)
    requires forall k, l :: 0 <= k < l < |rest| ==> Index(rest[k], columnCount) < Index(rest[l], columnCount)
    ensures forall k, l :: 0 <= k < l < |[p] + rest| ==>
      Index(([p] + rest)[k], columnCount) < Index(([p] + rest)[l], columnCount)
  {
    var ps := [p] + rest;
    forall k, l | 0 <= k < l < |ps|
      ensures Index(ps[k], columnCount) < Index(ps[l], columnCount)
    {
      assert ps[l] == rest[l - 1];
      if k > 0 {
        assert ps[k] == rest[k - 1];
      }
    }
  }

  /** lookFor yields exactly the on-board positions whose cell satisfies pred, each once,
      in strictly increasing flat-index order. */
  lemma LookForExactly(g: Grid, pred: CellState -> bool)
    requires g.Valid()
    ensures forall k, l :: 0 <= k < l < |LookFor(g, pred)| ==>
      Index(LookFor(g, pred)[k], g.columnCount) < Index(LookFor(g, pred)[l], g.columnCount)
    ensures forall p :: g.Contains(p) ==> (p in LookFor(g, pred) <==> pred(g.At(p)))
  {
    var ps := LookFor(g, pred);
    LookForFromIncreasing(g, pred, 0);
    forall p | g.Contains(p) && pred(g.At(p)) ensures p in ps {
      IndexMappingRoundTrip(p.row, p.column, g.rowCount, g.columnCount);
      assert pred(g.cells[Index(p, g.columnCount)]);
      assert g.Locate(Index(p, g.columnCount)) == p;
    }
  }

  /** Two cell sequences that agree, below n and away from j, on which entries are s hold
      equally many of them there once entry j is accounted for. */
  lemma {:induction false} PrefixCount(a: seq<CellState>, b: seq<CellState>, s: CellState, j: int, n: nat)
    requires n <= |a| == |b|
    requires forall i :: 0 <= i < n && i != j ==> (a[i] == s <==> b[i] == s)
    ensures Occurrences(b[..n], s) + (if 0 <= j < n && a[j] == s then 1 else 0) ==
            Occurrences(a[..n], s) + (if 0 <= j < n && b[j] == s then 1 else 0)
  {
    if n > 0 {
      PrefixCount(a, b, s, j, n - 1);
      assert a[..n][..n - 1] == a[..n - 1];
      assert b[..n][..n - 1] == b[..n - 1];
    }
  }

  /** When two grids of the same shape differ in state s at most at p, their counts of s
      differ only by what p held before and holds after. */
  lemma CountOutside(a: Grid, b: Grid, p: Position, s: CellState)
    requires a.Valid() && b.Valid() && a.rowCount == b.rowCount && a.columnCount == b.columnCount
    requires a.Contains(p)
    requires forall q :: a.Contains(q) && q != p ==> (a.At(q) == s <==> b.At(q) == s)
    ensures b.Count(s) == a.Count(s) - (if a.At(p) == s then 1 else 0) + (if b.At(p) == s then 1 else 0)
  {
    AllPositionsRoundTrip(a.rowCount, a.columnCount);
    IndexMappingRoundTrip(p.row, p.column, a.rowCount, a.columnCount);
    var j := Index(p, a.columnCount);
    forall i | 0 <= i < |a.cells| && i != j ensures a.cells[i] == s <==> b.cells[i] == s {
      assert a.At(a.Locate(i)) == a.cells[i];
    }
    PrefixCount(a.cells, b.cells, s, j, |a.cells|);
    assert a.cells[..|a.cells|] == a.cells;
    assert b.cells[..|b.cells|] == b.cells;
  }
}
