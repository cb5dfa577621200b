/** findSolution run over Board objects: each candidate is placed on a fresh copy with
    placeQueen or placeHorse, and the search recurses on that copy. */
module Solver {
  import opened Positions
  import opened Grids
  import opened Optional
  import opened Boards
  import opened Propagation
  import Search

  /** findSolution(board, queensCount, horsesCount): the board it returns, if any, holds
      exactly the grid the search of Search.FindSolution finds, and it finds none exactly
      when that search finds none. The board passed in is left as it was. */
  method FindSolution(board: Board, queensCount: nat, horsesCount: nat) returns (r: Option<Board>)
    requires board.Valid()
    ensures r.None? <==> Search.FindSolution(board.Value(), queensCount, horsesCount).None?
    ensures r.Some? ==> r.value.Valid() && r.value.Value() == Search.FindSolution(board.Value(), queensCount, horsesCount).value
    decreases queensCount + horsesCount
  {
    if queensCount == 0 && horsesCount == 0 {
      return Some(board);
    }
    var g := board.Value();
    var piece := if queensCount == 0 then Search.HorsePiece else Search.QueenPiece;
    var queensLeft := if queensCount == 0 then 0 else queensCount - 1;
    var horsesLeft := if queensCount == 0 then horsesCount - 1 else horsesCount;
    var candidates := Search.Candidates(g, piece);
    var k := 0;
    while k < |candidates|
      invariant 0 <= k <= |candidates|
      invariant board.Value() == g
      invariant Search.FindSolution(g, queensCount, horsesCount) ==
        Search.FirstSolution(g, candidates[k..], piece, queensLeft, horsesLeft)
    {
      assert candidates[k..][1..] == candidates[k + 1..];
      var placed;
      if piece == Search.QueenPiece {
        placed := PlaceQueen(board, candidates[k]);
      } else {
        placed := PlaceHorse(board, candidates[k]);
      }
      var found := FindSolution(placed, queensLeft, horsesLeft);
      if found.Some? {
        return found;
      }
      k := k + 1;
    }
    return None;
  }
}
