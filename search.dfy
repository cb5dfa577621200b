/** findSolution: depth-first search that places the queens, then the knights, each on the
    first admissible cell (in row-major order) from which the rest of the search succeeds.
    Also the invariant the search keeps, and what it implies about a returned board. */
module Search {
  import opened CellStates
  import opened Positions
  import opened Grids
  import opened Optional
  import opened Propagation

  datatype Piece = QueenPiece | HorsePiece

  /** canPlaceQueen or canPlaceHorse, whichever matches the piece. */
  predicate Admits(piece: Piece, s: CellState) {
    match piece
    case QueenPiece => s.AcceptsQueen()
    case HorsePiece => s.AcceptsHorse()
  }

  /** placeQueen or placeHorse, whichever matches the piece. */
  function Place(g: Grid, p: Position, piece: Piece): (r: Grid)
    requires g.Valid() && g.Contains(p)
    ensures r.Valid() && r.rowCount == g.rowCount && r.columnCount == g.columnCount
  {
    match piece
    case QueenPiece => PlacedQueen(g, p)
    case HorsePiece => PlacedHorse(g, p)
  }

  /** findSolution(board, queensCount, horsesCount). A solution has the board's dimensions. */
  function FindSolution(g: Grid, queensCount: nat, horsesCount: nat): (r: Option<Grid>)
    requires g.Valid()
    ensures r.Some? ==> r.value.Valid() && r.value.rowCount == g.rowCount && r.value.columnCount == g.columnCount
    decreases queensCount + horsesCount, 1, 0
  {
    if queensCount == 0 && horsesCount == 0 then Some(g)
    else
      var piece := if queensCount > 0 then QueenPiece else HorsePiece;
      var queensLeft := if queensCount > 0 then queensCount - 1 else 0;
      var horsesLeft := if queensCount > 0 then horsesCount else horsesCount - 1;
      FirstSolution(g, Candidates(g, piece), piece, queensLeft, horsesLeft)
  }

  /** lookFor(canPlaceQueen) or lookFor(canPlaceHorse): the admissible cells in row-major order. */
  function Candidates(g: Grid, piece: Piece): (ps: seq<Position>)
    requires g.Valid()
    ensures forall k :: 0 <= k < |ps| ==> g.Contains(ps[k]) && Admits(piece, g.At(ps[k]))
  {
    LookFor(g, s => Admits(piece, s))
  }

  /** The candidates for a piece are exactly the on-board cells that admit it, in strictly
      increasing row-major order. */
  lemma CandidatesAreAdmissibleCells(g: Grid, piece: Piece)
    requires g.Valid()
    ensures forall p :: g.Contains(p) ==> (p in Candidates(g, piece) <==> Admits(piece, g.At(p)))
    ensures forall k, l :: 0 <= k < l < |Candidates(g, piece)| ==>
      Index(Candidates(g, piece)[k], g.columnCount) < Index(Candidates(g, piece)[l], g.columnCount)
  {
    LookForExactly(g, s => Admits(piece, s));
  }

  /** lookFor(...).flatMap(position -> findSolution(place(board, position), ...)).findAny()
      on a sequential stream: the solution reached through the first candidate, in order,
      from which the search succeeds. */
  function FirstSolution(g: Grid, candidates: seq<Position>, piece: Piece, queensCount: nat, horsesCount: nat): (r: Option<Grid>)
    requires g.Valid() && forall k :: 0 <= k < |candidates| ==> g.Contains(candidates[k])
    ensures r.Some? ==> r.value.Valid() && r.value.rowCount == g.rowCount && r.value.columnCount == g.columnCount
    decreases queensCount + horsesCount + 1, 0, |candidates|
  {
    if candidates == [] then None
    else
      match Attempt(g, candidates[0], piece, queensCount, horsesCount)
      case Some(solution) => Some(solution)
      case None => FirstSolution(g, candidates[1..], piece, queensCount, horsesCount)
  }

  /** One element of the flatMap: put the piece on p and search on from the new board. */
  function Attempt(g: Grid, p: Position, piece: Piece, queensCount: nat, horsesCount: nat): (r: Option<Grid>)
    requires g.Valid() && g.Contains(p)
    ensures r.Some? ==> r.value.Valid() && r.value.rowCount == g.rowCount && r.value.columnCount == g.columnCount
    decreases queensCount + horsesCount + 1, 0, 0
  {
    FindSolution(Place(g, p, piece), queensCount, horsesCount)
  }

  /** The first candidate that succeeds decides the answer: the ones after it are never
      consulted, and if none succeeds there is no answer. */
  lemma FirstSolutionIsFirst(g: Grid, candidates: seq<Position>, piece: Piece, queensCount: nat, horsesCount: nat)
    requires g.Valid() && forall k :: 0 <= k < |candidates| ==> g.Contains(candidates[k])
    ensures var r := FirstSolution(g, candidates, piece, queensCount, horsesCount);
      (r.None? <==> forall k :: 0 <= k < |candidates| ==>
         Attempt(g, candidates[k], piece, queensCount, horsesCount).None?) &&
      (r.Some? ==>
         exists k :: 0 <= k < |candidates| &&
           r == Attempt(g, candidates[k], piece, queensCount, horsesCount) &&
           forall j :: 0 <= j < k ==> Attempt(g, candidates[j], piece, queensCount, horsesCount).None?)
  {
    NoSolutionWhenAllFail(g, candidates, piece, queensCount, horsesCount);
    SolutionOfFirstSuccess(g, candidates, piece, queensCount, horsesCount);
  }

  lemma {:induction false} NoSolutionWhenAllFail(g: Grid, candidates: seq<Position>, piece: Piece, queensCount: nat, horsesCount: nat)
    requires g.Valid() && forall k :: 0 <= k < |candidates| ==> g.Contains(candidates[k])
    ensures FirstSolution(g, candidates, piece, queensCount, horsesCount).None? <==>
      forall k :: 0 <= k < |candidates| ==> Attempt(g, candidates[k], piece, queensCount, horsesCount).None?
    decreases |candidates|
  {
    if candidates != [] {
      var rest := candidates[1..];
      NoSolutionWhenAllFail(g, rest, piece, queensCount, horsesCount);
      assert forall k :: 1 <= k < |candidates| ==> candidates[k] == rest[k - 1];
    }
  }

  lemma {:induction false} SolutionOfFirstSuccess(g: Grid, candidates: seq<Position>, piece: Piece, queensCount: nat, horsesCount: nat)
    requires g.Valid() && forall k :: 0 <= k < |candidates| ==> g.Contains(candidates[k])
    ensures var r := FirstSolution(g, candidates, piece, queensCount, horsesCount);
      r.Some? ==>
        exists k :: 0 <= k < |candidates| &&
          r == Attempt(g, candidates[k], piece, queensCount, horsesCount) &&
          forall j :: 0 <= j < k ==> Attempt(g, candidates[j], piece, queensCount, horsesCount).None?
    decreases |candidates|
  {
    if candidates != [] {
      var rest := candidates[1..];
      var r := FirstSolution(g, candidates, piece, queensCount, horsesCount);
      var first := Attempt(g, candidates[0], piece, queensCount, horsesCount);
      if first.Some? {
        assert r == first;
      } else if r.Some? {
        assert r == FirstSolution(g, rest, piece, queensCount, horsesCount);
        SolutionOfFirstSuccess(g, rest, piece, queensCount, horsesCount);
        var k :| 0 <= k < |rest| &&
          r == Attempt(g, rest[k], piece, queensCount, horsesCount) &&
          forall j :: 0 <= j < k ==> Attempt(g, rest[j], piece, queensCount, horsesCount).None?;
        assert forall j :: 1 <= j <= k ==> candidates[j] == rest[j - 1];
        assert r == Attempt(g, candidates[k + 1], piece, queensCount, horsesCount);
      }
    }
  }

  /** While queens remain the next piece placed is a queen on one of the cells that admit
      one; only when none remain does a knight go on a cell that admits a knight. */
  lemma QueensBeforeKnights(g: Grid, queensCount: nat, horsesCount: nat)
    requires g.Valid()
    ensures var r := FindSolution(g, queensCount, horsesCount);
      queensCount > 0 && r.Some? ==>
        exists p :: p in Candidates(g, QueenPiece) && r == Attempt(g, p, QueenPiece, queensCount - 1, horsesCount)
    ensures var r := FindSolution(g, queensCount, horsesCount);
      queensCount == 0 && horsesCount > 0 && r.Some? ==>
        exists p :: p in Candidates(g, HorsePiece) && r == Attempt(g, p, HorsePiece, 0, horsesCount - 1)
  {
    if queensCount > 0 {
      QueenPlacedNext(g, queensCount, horsesCount);
    } else if horsesCount > 0 {
      KnightPlacedNext(g, horsesCount);
    }
  }

  lemma QueenPlacedNext(g: Grid, queensCount: nat, horsesCount: nat)
    requires g.Valid() && queensCount > 0
    ensures var r := FindSolution(g, queensCount, horsesCount);
      r.Some? ==> exists p :: p in Candidates(g, QueenPiece) && r == Attempt(g, p, QueenPiece, queensCount - 1, horsesCount)
  {
    assert FindSolution(g, queensCount, horsesCount) ==
      FirstSolution(g, Candidates(g, QueenPiece), QueenPiece, queensCount - 1, horsesCount);
    ReachedThroughCandidate(g, QueenPiece, queensCount - 1, horsesCount);
  }

  lemma KnightPlacedNext(g: Grid, horsesCount: nat)
    requires g.Valid() && horsesCount > 0
    ensures var r := FindSolution(g, 0, horsesCount);
      r.Some? ==> exists p :: p in Candidates(g, HorsePiece) && r == Attempt(g, p, HorsePiece, 0, horsesCount - 1)
  {
    assert FindSolution(g, 0, horsesCount) ==
      FirstSolution(g, Candidates(g, HorsePiece), HorsePiece, 0, horsesCount - 1);
    ReachedThroughCandidate(g, HorsePiece, 0, horsesCount - 1);
  }

  lemma ReachedThroughCandidate(g: Grid, piece: Piece, queensCount: nat, horsesCount: nat)
    requires g.Valid()
    ensures var r := FirstSolution(g, Candidates(g, piece), piece, queensCount, horsesCount);
      r.Some? ==> exists p :: p in Candidates(g, piece) && r == Attempt(g, p, piece, queensCount, horsesCount)
  {
    var candidates := Candidates(g, piece);
    var r := FirstSolution(g, candidates, piece, queensCount, horsesCount);
    FirstSolutionIsFirst(g, candidates, piece, queensCount, horsesCount);
    if r.Some? {
      var k :| 0 <= k < |candidates| && r == Attempt(g, candidates[k], piece, queensCount, horsesCount);
      assert candidates[k] in candidates;
    }
  }

  // ---------------------------------------------------------------------------------------
  // The invariant of the boards the search builds.

  /** What the cell states promise about the pieces already on g, seen from the piece on a:
      every cell a queen on a attacks is NotAvailable, every cell a knight on a attacks is
      NotAvailable, a knight's move from a queen can take no knight, and a queen's line from
      a knight can take no queen. */
  ghost predicate Guarded(g: Grid, a: Position, b: Position)
    requires g.Valid() && g.Contains(a) && g.Contains(b)
  {
    (g.At(a) == Queen && OnQueenLine(a, b) ==> g.At(b) == NotAvailable) &&
    (g.At(a) == Horse && KnightMove(a, b) ==> g.At(b) == NotAvailable) &&
    (g.At(a) == Queen && KnightMove(a, b) ==> !g.At(b).AcceptsHorse() && g.At(b) != Horse) &&
    (g.At(a) == Horse && OnQueenLine(a, b) ==> !g.At(b).AcceptsQueen() && g.At(b) != Queen)
  }

  ghost predicate Consistent(g: Grid)
    requires g.Valid()
  {
    forall a, b {:trigger Guarded(g, a, b)} :: g.Contains(a) && g.Contains(b) && a != b ==> Guarded(g, a, b)
  }

  /** The piece on a attacks the cell b. */
  ghost predicate Attacks(g: Grid, a: Position, b: Position)
    requires g.Valid() && g.Contains(a)
  {
    (g.At(a) == Queen && OnQueenLine(a, b)) || (g.At(a) == Horse && KnightMove(a, b))
  }

  /** No piece on g attacks another. */
  ghost predicate Peaceful(g: Grid)
    requires g.Valid()
  {
    forall a, b {:trigger Attacks(g, a, b)} :: g.Contains(a) && g.Contains(b) && a != b && g.At(a).IsPiece() && g.At(b).IsPiece() ==>
      !Attacks(g, a, b)
  }

  /** On a consistent board no two pieces attack each other. */
  lemma ConsistentIsPeaceful(g: Grid)
    requires g.Valid() && Consistent(g)
    ensures Peaceful(g)
  {
    forall a, b | g.Contains(a) && g.Contains(b) && a != b && g.At(a).IsPiece() && g.At(b).IsPiece()
      ensures !Attacks(g, a, b)
    {
      assert Guarded(g, a, b);
    }
  }

  /** A board with no piece on it is consistent. */
  lemma EmptyIsConsistent(rowCount: int, columnCount: int)
    requires rowCount > 0 && columnCount > 0
    ensures Consistent(Empty(rowCount, columnCount))
    ensures Empty(rowCount, columnCount).Count(Queen) == 0 && Empty(rowCount, columnCount).Count(Horse) == 0
  {
    var g := Empty(rowCount, columnCount);
    forall a, b | g.Contains(a) && g.Contains(b) && a != b ensures Guarded(g, a, b) {
      IndexMappingInRange(a.row, a.column, rowCount, columnCount);
    }
    assert Queen !in g.cells && Horse !in g.cells;
    NoOccurrences(g.cells, Queen);
    NoOccurrences(g.cells, Horse);
  }

  /** placeQueen on an admissible cell of a consistent board: the new board is consistent,
      and every piece already on the board is still there (the forced queen pass could
      overwrite a piece, but on a consistent board none lies on the new queen's lines). */
  lemma PlaceQueenKeepsConsistency(g: Grid, p: Position)
    requires g.Valid() && g.Contains(p) && Consistent(g) && g.At(p).AcceptsQueen()
    ensures Consistent(PlacedQueen(g, p))
    ensures forall q :: g.Contains(q) && q != p ==>
      (g.At(q).IsPiece() || PlacedQueen(g, p).At(q).IsPiece() ==> PlacedQueen(g, p).At(q) == g.At(q))
  {
    var h := PlacedQueen(g, p);
    forall a, b | g.Contains(a) && g.Contains(b) && a != b ensures Guarded(h, a, b) {
      PlacedQueenAt(g, p, a);
      PlacedQueenAt(g, p, b);
      AttackGeometry(a, b);
      AttackGeometry(p, a);
      AttackGeometry(p, b);
      assert Guarded(g, a, b);
      if a != p { assert Guarded(g, a, p); }
      if b != p { assert Guarded(g, b, p); }
    }
    forall q | g.Contains(q) && q != p ensures g.At(q).IsPiece() || h.At(q).IsPiece() ==> h.At(q) == g.At(q) {
      PlacedQueenAt(g, p, q);
      AttackGeometry(p, q);
      assert Guarded(g, q, p);
    }
  }

  /** placeHorse on an admissible cell of a consistent board: the mirror image. */
  lemma PlaceHorseKeepsConsistency(g: Grid, p: Position)
    requires g.Valid() && g.Contains(p) && Consistent(g) && g.At(p).AcceptsHorse()
    ensures Consistent(PlacedHorse(g, p))
    ensures forall q :: g.Contains(q) && q != p ==>
      (g.At(q).IsPiece() || PlacedHorse(g, p).At(q).IsPiece() ==> PlacedHorse(g, p).At(q) == g.At(q))
  {
    var h := PlacedHorse(g, p);
    forall a, b | g.Contains(a) && g.Contains(b) && a != b ensures Guarded(h, a, b) {
      PlacedHorseAt(g, p, a);
      PlacedHorseAt(g, p, b);
      AttackGeometry(a, b);
      AttackGeometry(p, a);
      AttackGeometry(p, b);
      assert Guarded(g, a, b);
      if a != p { assert Guarded(g, a, p); }
      if b != p { assert Guarded(g, b, p); }
    }
    forall q | g.Contains(q) && q != p ensures g.At(q).IsPiece() || h.At(q).IsPiece() ==> h.At(q) == g.At(q) {
      PlacedHorseAt(g, p, q);
      AttackGeometry(p, q);
      assert Guarded(g, q, p);
    }
  }

  /** One more piece of the placed kind, the other kind unchanged. */
  function Added(piece: Piece, kind: Piece): nat {
    if piece == kind then 1 else 0
  }

  /** Placing either piece on an admissible cell of a consistent board keeps it consistent
      and adds exactly that one piece. */
  lemma PlaceKeepsConsistency(g: Grid, p: Position, piece: Piece)
    requires g.Valid() && g.Contains(p) && Consistent(g) && Admits(piece, g.At(p))
    ensures Consistent(Place(g, p, piece))
    ensures Place(g, p, piece).Count(Queen) == g.Count(Queen) + Added(piece, QueenPiece)
    ensures Place(g, p, piece).Count(Horse) == g.Count(Horse) + Added(piece, HorsePiece)
  {
    match piece
    case QueenPiece =>
      PlaceQueenKeepsConsistency(g, p);
      PlacedQueenAt(g, p, p);
      PiecesKept(g, PlacedQueen(g, p), p);
    case HorsePiece =>
      PlaceHorseKeepsConsistency(g, p);
      PlacedHorseAt(g, p, p);
      PiecesKept(g, PlacedHorse(g, p), p);
  }

  /** h keeps every piece of g except at p, where g held none: the piece counts grow by what
      p now holds. */
  lemma PiecesKept(g: Grid, h: Grid, p: Position)
    requires g.Valid() && h.Valid() && g.rowCount == h.rowCount && g.columnCount == h.columnCount
    requires g.Contains(p) && !g.At(p).IsPiece()
    requires forall q :: g.Contains(q) && q != p ==> (g.At(q).IsPiece() || h.At(q).IsPiece() ==> h.At(q) == g.At(q))
    ensures h.Count(Queen) == g.Count(Queen) + (if h.At(p) == Queen then 1 else 0)
    ensures h.Count(Horse) == g.Count(Horse) + (if h.At(p) == Horse then 1 else 0)
  {
    CountOutside(g, h, p, Queen);
    CountOutside(g, h, p, Horse);
  }

  /** findSolution from a consistent board: a solution it returns is consistent and holds
      exactly queensCount more queens and horsesCount more knights. */
  lemma {:induction false} SearchKeepsConsistency(g: Grid, queensCount: nat, horsesCount: nat)
    requires g.Valid() && Consistent(g)
    ensures var r := FindSolution(g, queensCount, horsesCount);
      r.Some? ==>
        Consistent(r.value) &&
        r.value.Count(Queen) == g.Count(Queen) + queensCount &&
        r.value.Count(Horse) == g.Count(Horse) + horsesCount
    decreases queensCount + horsesCount, 1, 0
  {
    if queensCount > 0 || horsesCount > 0 {
      var piece := if queensCount > 0 then QueenPiece else HorsePiece;
      var queensLeft := if queensCount > 0 then queensCount - 1 else 0;
      var horsesLeft := if queensCount > 0 then horsesCount else horsesCount - 1;
      FirstSolutionKeepsConsistency(g, Candidates(g, piece), piece, queensLeft, horsesLeft);
    }
  }

  lemma {:induction false} FirstSolutionKeepsConsistency(g: Grid, candidates: seq<Position>, piece: Piece, queensCount: nat, horsesCount: nat)
    requires g.Valid() && Consistent(g)
    requires forall k :: 0 <= k < |candidates| ==> g.Contains(candidates[k]) && Admits(piece, g.At(candidates[k]))
    ensures var r := FirstSolution(g, candidates, piece, queensCount, horsesCount);
      r.Some? ==>
        Consistent(r.value) &&
        r.value.Count(Queen) == g.Count(Queen) + Added(piece, QueenPiece) + queensCount &&
        r.value.Count(Horse) == g.Count(Horse) + Added(piece, HorsePiece) + horsesCount
    decreases queensCount + horsesCount + 1, 0, |candidates|
  {
    if candidates != [] {
      var placed := Place(g, candidates[0], piece);
      var first := Attempt(g, candidates[0], piece, queensCount, horsesCount);
      assert first == FindSolution(placed, queensCount, horsesCount);
      var rest := FirstSolution(g, candidates[1..], piece, queensCount, horsesCount);
      assert FirstSolution(g, candidates, piece, queensCount, horsesCount) == if first.Some? then first else rest;
      PlaceKeepsConsistency(g, candidates[0], piece);
      SearchKeepsConsistency(placed, queensCount, horsesCount);
      FirstSolutionKeepsConsistency(g, candidates[1..], piece, queensCount, horsesCount);
    }
  }

  /** findSolution(Board.of(rows, columns), queens, knights): a board it returns has the
      requested dimensions, exactly that many queens and knights, and no piece on it
      attacks another. */
  lemma SolutionIsPeaceful(rowCount: int, columnCount: int, queensCount: nat, horsesCount: nat)
    requires rowCount > 0 && columnCount > 0
    ensures var r := FindSolution(Empty(rowCount, columnCount), queensCount, horsesCount);
      r.Some? ==>
        r.value.rowCount == rowCount && r.value.columnCount == columnCount &&
        r.value.Count(Queen) == queensCount && r.value.Count(Horse) == horsesCount &&
        Peaceful(r.value)
  {
    var g := Empty(rowCount, columnCount);
    EmptyIsConsistent(rowCount, columnCount);
    SearchKeepsConsistency(g, queensCount, horsesCount);
    var r := FindSolution(g, queensCount, horsesCount);
    if r.Some? {
      ConsistentIsPeaceful(r.value);
    }
  }

  /** With nothing left to place the board itself is the solution. */
  lemma NothingToPlace(g: Grid)
    requires g.Valid()
    ensures FindSolution(g, 0, 0) == Some(g)
  {
  }

  /** A 1 x 1 board takes one queen, which fills its only cell, but not two. */
  lemma OneByOne()
    ensures FindSolution(Empty(1, 1), 1, 0) == Some(Grid(1, 1, [Queen]))
    ensures FindSolution(Empty(1, 1), 2, 0) == None
  {
    var g := Empty(1, 1);
    var p := Position(0, 0);
    assert g.cells == [Available];
    assert LookForFrom(g, s => Admits(QueenPiece, s), 1) == [];
    assert Candidates(g, QueenPiece) == [p];
    var placed := Grid(1, 1, [Queen]);
    PlacedQueenAt(g, p, p);
    assert PlacedQueen(g, p) == placed;
    assert LookForFrom(placed, s => Admits(QueenPiece, s), 1) == [];
    assert Candidates(placed, QueenPiece) == [];
    assert FindSolution(placed, 1, 0) == None;
    assert FirstSolution(g, [p], QueenPiece, 1, 0) == FirstSolution(g, [], QueenPiece, 1, 0);
  }

  /** The forced queen pass rewrites every cell on the queen's lines, pieces included: on a
      board that is not consistent, placeQueen erases a queen already there. */
  lemma ForcedPassOverwritesPieces()
    ensures PlacedQueen(Grid(1, 2, [Queen, Available]), Position(0, 1)).cells == [NotAvailable, Queen]
  {
    var g := Grid(1, 2, [Queen, Available]);
    var h := PlacedQueen(g, Position(0, 1));
    PlacedQueenAt(g, Position(0, 1), Position(0, 0));
    PlacedQueenAt(g, Position(0, 1), Position(0, 1));
    assert h.cells[0] == h.At(Position(0, 0));
    assert h.cells[1] == h.At(Position(0, 1));
  }
}
