# chess-problem in Dafny

A model of `ChessProblemApp`, a console program that places a given number of queens
and then a given number of knights on a rows × columns board so that no piece attacks
another. It searches depth first and returns the first board it completes.

The board is a row-major array of six cell states:
- `AVAILABLE`
- `QUEEN`
- `HORSE`
- `NOT_AVAILABLE`
- `CAN_PLACE_QUEEN`: a knight could reach the cell, so only a queen may go there.
- `CAN_PLACE_HORSE`: a queen could reach the cell, so only a knight may go there.

Placing a piece works on a copy of the board. It runs two marking passes from the new
square and then writes the piece:
- The piece's own attack pattern is banned outright (the forced pass).
- The other piece's pattern is marked with the non-forced rules.

Modules, one per concept of the program:

- `CellStates`: the cell-state enum, `canPlaceQueen` and `canPlaceHorse`, and the two
  single-cell rewriting rules of the marking passes (`QueenBan`, `HorseBan`).
- `Positions`: `Position`, and `Position.of` with Java's truncating `/` and `%`. Also
  `indexMapping`, `moveOn`, queen lines, and the knight targets in the order the knight
  pass visits them.
- `Grids`: `Grid`, the contents of a board as a value; `Board.of`'s empty grid; and
  `lookFor`.
- `Rendering`: the text `asString` produces, as functions, with its shape proved.
- `Boards`: the class `Board` over an `array<CellState>`, with `of`, the constructor,
  `get`, `set`, `copy` and `asString`.
- `Propagation`: the two marking passes as methods that mutate a `Board`, and
  `placeQueen` and `placeHorse`. Each method is proved equal to a function on `Grid`.
- `Search`: `findSolution` as a pure recursive function over grids. Also the invariant
  its boards keep, and the theorem that a returned board holds exactly the requested
  pieces and none attacks another.
- `Solver`: `findSolution` run over `Board` objects, calling the imperative
  `placeQueen` and `placeHorse`. It is proved to return exactly what `Search.FindSolution`
  returns.

The core of the proof is an invariant, `Search.Consistent`. For every piece on the board:
- The cells it attacks are `NOT_AVAILABLE`.
- The cells the other kind of piece would attack from that square can no longer take
  that other kind.

Both placements preserve `Consistent` when the piece goes on a cell that admits it. On
such boards the forced pass never overwrites a piece. So each placement adds exactly
one piece, and a consistent board is peaceful.

On a 3 × 3 board the four corners and the centre hold five knights that do not attack
each other, and the cell rules admit them, so the search returns a board for 0 queens
and 5 knights. `Search.SolutionIsPeaceful` says what any board the search returns must
satisfy.

## Model

All source paths are in `src/main/java/com/melalex/ChessProblemApp.java`.

| member | source | states |
|---|---|---|
| CellStates.CellState.Symbol | src/main/java/com/melalex/ChessProblemApp.java:179-194 | getSymbol: the glyph of each state; no glyph is a frame character (`|`, `+`, `-`) or a line break |
| CellStates.CellState.AcceptsQueen | src/main/java/com/melalex/ChessProblemApp.java:196-198 | canPlaceQueen: every state admits a queen except the two pieces, NOT_AVAILABLE and CAN_PLACE_HORSE |
| CellStates.CellState.AcceptsHorse | src/main/java/com/melalex/ChessProblemApp.java:200-202 | canPlaceHorse: every state admits a knight except the two pieces, NOT_AVAILABLE and CAN_PLACE_QUEEN |
| CellStates.QueenBan | src/main/java/com/melalex/ChessProblemApp.java:81-85 | the queen-pass rule: the result never admits a queen; forced it is NOT_AVAILABLE; otherwise it keeps whether a knight is admitted, changes only CAN_PLACE_QUEEN (to NOT_AVAILABLE) and AVAILABLE (to CAN_PLACE_HORSE), and leaves every other state as it was |
| CellStates.HorseBan | src/main/java/com/melalex/ChessProblemApp.java:168-172 | the knight-pass rule, the mirror image: never admits a knight; forced NOT_AVAILABLE; otherwise CAN_PLACE_HORSE becomes NOT_AVAILABLE, AVAILABLE becomes CAN_PLACE_QUEEN, anything else is unchanged |
| CellStates.BansAreIdempotent | src/main/java/com/melalex/ChessProblemApp.java:77-97 | applying a rule twice equals applying it once, so the square the column and row loops both visit ends as if visited once |
| CellStates.NoCrossOffers | src/main/java/com/melalex/ChessProblemApp.java:196-202 | a CAN_PLACE_QUEEN cell is offered to queens and never to knights, a CAN_PLACE_HORSE cell the reverse, and pieces and NOT_AVAILABLE cells to neither |
| CellStates.SymbolIsInjective | src/main/java/com/melalex/ChessProblemApp.java:178-184 | the six glyphs are pairwise distinct |
| Positions.TruncDiv | src/main/java/com/melalex/ChessProblemApp.java:211 | Java's `/` on int: the quotient's magnitude is the dividend's magnitude divided by the divisor, rounded down, and its sign is the dividend's |
| Positions.TruncRem | src/main/java/com/melalex/ChessProblemApp.java:211 | Java's `%` on int: the remainder's magnitude is the dividend's magnitude modulo the divisor, and its sign is the dividend's |
| Positions.PositionOf | src/main/java/com/melalex/ChessProblemApp.java:210-212 | Position.of: the column lies strictly within the width in magnitude, and a non-negative index gives a non-negative row and column |
| Positions.IndexMapping | src/main/java/com/melalex/ChessProblemApp.java:322-324 | indexMapping is row-major: for a column within the width, row r's cells take the block of columnCount indices starting at r · columnCount |
| Positions.MoveOn | src/main/java/com/melalex/ChessProblemApp.java:227-229 | moveOn: the new position is displaced from the old one by exactly (rowDiff, columnDiff) |
| Positions.HorseTargets | src/main/java/com/melalex/ChessProblemApp.java:155-164 | the knight pass visits exactly eight targets |
| Positions.TargetIndex | src/main/java/com/melalex/ChessProblemApp.java:155-164 | q is among p's eight targets exactly when it is a knight's move away, and the index found names it |
| Positions.HorseTargetsAreKnightMoves | src/main/java/com/melalex/ChessProblemApp.java:155-164 | the eight offsets (±2,±1), (±1,±2) are exactly the knight moves from p, each listed once |
| Positions.AttackGeometry | src/main/java/com/melalex/ChessProblemApp.java:99-164 | queen lines and knight moves are symmetric, and a knight move never lies on a queen line |
| Positions.IndexMappingInRange | src/main/java/com/melalex/ChessProblemApp.java:322-324 | indexMapping sends every on-board (row, column) into the cell array |
| Positions.IndexMappingRoundTrip | src/main/java/com/melalex/ChessProblemApp.java:322-324 | Position.of inverts indexMapping on the board |
| Positions.PositionOfRoundTrip | src/main/java/com/melalex/ChessProblemApp.java:210-212 | Position.of sends every array index to an on-board position, and indexMapping inverts it |
| Positions.AllPositionsRoundTrip | src/main/java/com/melalex/ChessProblemApp.java:210-212 | the same, for every index of the array at once |
| Grids.Empty | src/main/java/com/melalex/ChessProblemApp.java:238-244 | the grid of Board.of: rows × columns cells, every one AVAILABLE |
| Grids.Grid.Update | src/main/java/com/melalex/ChessProblemApp.java:280-282 | overwriting one on-board cell keeps the grid's shape |
| Grids.LookForFrom | src/main/java/com/melalex/ChessProblemApp.java:288-292 | the scan from flat index i on: exactly the on-board positions at index i or later whose cell satisfies the predicate, in strictly increasing flat-index order |
| Grids.LookForFromIncreasing | src/main/java/com/melalex/ChessProblemApp.java:288-292 | the positions the scan yields come in strictly increasing flat-index order |
| Grids.LookFor | src/main/java/com/melalex/ChessProblemApp.java:288-292 | every position lookFor yields is on the board and its cell satisfies the predicate |
| Grids.LookForExactly | src/main/java/com/melalex/ChessProblemApp.java:288-292 | an on-board position is yielded exactly when its cell satisfies the predicate, and the positions come in strictly increasing flat-index order |
| Rendering.CellChar | src/main/java/com/melalex/ChessProblemApp.java:307-311 | a detailed rendering shows each cell's glyph; a plain one shows a non-blank exactly for the cells holding a piece |
| Rendering.Render | src/main/java/com/melalex/ChessProblemApp.java:298-319 | asString(detailed): the text starts and ends with a divider line, and so holds at least two of them |
| Rendering.Repeat | src/main/java/com/melalex/ChessProblemApp.java:300 | String.repeat: n copies, as long as s times n, made only of characters of s |
| Rendering.CellsText | src/main/java/com/melalex/ChessProblemApp.java:305-314 | the bar-and-glyph pairs of a row, two characters per column |
| Rendering.LinesUpTo | src/main/java/com/melalex/ChessProblemApp.java:302-317 | a rendering of r rows has 2·r + 1 lines |
| Rendering.RenderIsLines | src/main/java/com/melalex/ChessProblemApp.java:298-319 | asString is a divider followed, per row, by the row's line and a divider |
| Rendering.LineAt | src/main/java/com/melalex/ChessProblemApp.java:302-317 | line k is the divider when k is even and the line of row k / 2 when k is odd |
| Rendering.LineShape | src/main/java/com/melalex/ChessProblemApp.java:298-319 | every line is 2·columns + 2 characters long and ends in its only line break; even lines are "+-"×columns + "+" |
| Rendering.RenderLength | src/main/java/com/melalex/ChessProblemApp.java:298-319 | asString is (2·columns + 2)·(2·rows + 1) characters long |
| Rendering.PlainRenderShowsOnlyPieces | src/main/java/com/melalex/ChessProblemApp.java:307-311 | a plain rendering contains only frame characters, blanks and the queen and knight glyphs |
| Rendering.PlainRenderIsStrippedRender | src/main/java/com/melalex/ChessProblemApp.java:307-311 | a plain rendering equals the detailed rendering of the board with every non-piece cell shown as AVAILABLE |
| Rendering.StrippedRows | src/main/java/com/melalex/ChessProblemApp.java:302-317 | the first r rows render the same plainly as the stripped board does in detail |
| Rendering.StrippedCells | src/main/java/com/melalex/ChessProblemApp.java:305-314 | the same for the first c cells of one row |
| Rendering.StrippedCell | src/main/java/com/melalex/ChessProblemApp.java:307-311 | one cell shows the same character plainly as its stripped state does in detail |
| Boards.Board.Value | src/main/java/com/melalex/ChessProblemApp.java:234-236 | a board's contents as a grid of its own dimensions, well formed when the board is |
| Boards.Board.constructor | src/main/java/com/melalex/ChessProblemApp.java:246-250 | the board keeps the dimensions and the array it is given |
| Boards.Board.Of | src/main/java/com/melalex/ChessProblemApp.java:238-244 | a fresh board over a fresh array holding the empty grid |
| Boards.Board.Get | src/main/java/com/melalex/ChessProblemApp.java:260-262 | get(row, column) reads the cell at that position |
| Boards.Board.GetAt | src/main/java/com/melalex/ChessProblemApp.java:264-274 | get(Position) is empty exactly off the board and holds the cell's state on it |
| Boards.Board.Set | src/main/java/com/melalex/ChessProblemApp.java:280-282 | set(row, column, value) changes that one cell and nothing else |
| Boards.Board.SetAt | src/main/java/com/melalex/ChessProblemApp.java:276-278 | set(Position, value) changes that one cell and nothing else |
| Boards.Board.Copy | src/main/java/com/melalex/ChessProblemApp.java:284-286 | a fresh board over a fresh array with the same dimensions and contents |
| Boards.Board.AsPlainString | src/main/java/com/melalex/ChessProblemApp.java:294-296 | asString() is the plain rendering and shows only pieces |
| Boards.Board.AsString | src/main/java/com/melalex/ChessProblemApp.java:298-320 | the text built cell by cell is the rendering whose shape the Rendering lemmas state |
| Propagation.QueenBanned | src/main/java/com/melalex/ChessProblemApp.java:76-152 | the queen pass as a function: same shape |
| Propagation.QueenBannedAt | src/main/java/com/melalex/ChessProblemApp.java:76-152 | the queen pass applies QueenBan to exactly the cells on p's row, column and diagonals; all other cells are unchanged |
| Propagation.HorseBanned | src/main/java/com/melalex/ChessProblemApp.java:154-176 | the knight pass as a function: same shape |
| Propagation.HorseBannedAt | src/main/java/com/melalex/ChessProblemApp.java:154-176 | the knight pass applies HorseBan to exactly p's on-board knight targets; all other cells are unchanged |
| Propagation.PlacedQueen | src/main/java/com/melalex/ChessProblemApp.java:54-63 | the board placeQueen returns: same shape |
| Propagation.PlacedQueenAt | src/main/java/com/melalex/ChessProblemApp.java:54-63 | after placeQueen(p): p is QUEEN, every other cell on p's lines is NOT_AVAILABLE, the knight targets get the non-forced knight rule, and every other cell is unchanged |
| Propagation.PlacedHorse | src/main/java/com/melalex/ChessProblemApp.java:65-74 | the board placeHorse returns: same shape |
| Propagation.PlacedHorseAt | src/main/java/com/melalex/ChessProblemApp.java:65-74 | after placeHorse(p): p is HORSE, its knight targets are NOT_AVAILABLE, the other cells on its lines get the non-forced queen rule, and every other cell is unchanged |
| Propagation.BanCellForQueen | src/main/java/com/melalex/ChessProblemApp.java:79-85 | one step of the queen pass rewrites one cell by the queen rule |
| Propagation.BanColumn | src/main/java/com/melalex/ChessProblemApp.java:77-86 | the first loop applies the rule to every cell of p's column |
| Propagation.BanRow | src/main/java/com/melalex/ChessProblemApp.java:88-97 | the second loop extends that to p's row, with p counted once |
| Propagation.BanDiagonalsAbove | src/main/java/com/melalex/ChessProblemApp.java:99-124 | the third loop extends it to both diagonals above p |
| Propagation.BanAboveLeft | src/main/java/com/melalex/ChessProblemApp.java:105-113 | one step of the third loop, left half: the queen rule on the cell i rows up and i columns left, when that column is on the board |
| Propagation.BanAboveRight | src/main/java/com/melalex/ChessProblemApp.java:115-123 | the right half of the same step: the queen rule on the cell i rows up and i columns right, when that column is on the board |
| Propagation.BanDiagonalsBelow | src/main/java/com/melalex/ChessProblemApp.java:126-151 | the fourth loop extends it to both diagonals below p |
| Propagation.BanBelowLeft | src/main/java/com/melalex/ChessProblemApp.java:132-140 | one step of the fourth loop, left half: the queen rule on the cell i rows down and i columns left, when that column is on the board |
| Propagation.BanBelowRight | src/main/java/com/melalex/ChessProblemApp.java:142-150 | the right half of the same step: the queen rule on the cell i rows down and i columns right, when that column is on the board |
| Propagation.BanCellsThatQueenCouldAttack | src/main/java/com/melalex/ChessProblemApp.java:76-152 | the board after banCellThatQueenCouldAttack is QueenBanned of the board before |
| Propagation.BanCellsThatHorseCouldAttack | src/main/java/com/melalex/ChessProblemApp.java:154-176 | the board after banCellThatHorseCouldAttack is HorseBanned of the board before, with off-board targets skipped |
| Propagation.PlaceQueen | src/main/java/com/melalex/ChessProblemApp.java:54-63 | returns a fresh board holding PlacedQueen of the input and leaves the input unchanged |
| Propagation.PlaceHorse | src/main/java/com/melalex/ChessProblemApp.java:65-74 | returns a fresh board holding PlacedHorse of the input and leaves the input unchanged |
| Search.Place | src/main/java/com/melalex/ChessProblemApp.java:45-49 | placing either piece keeps the grid's shape |
| Search.Candidates | src/main/java/com/melalex/ChessProblemApp.java:44-48 | every candidate is on the board and admits the piece |
| Search.CandidatesAreAdmissibleCells | src/main/java/com/melalex/ChessProblemApp.java:44-48 | the candidates are exactly the cells admitting the piece, in strictly increasing row-major order |
| Search.FindSolution | src/main/java/com/melalex/ChessProblemApp.java:36-52 | a returned board has the input's dimensions; the recursion terminates because queensCount + horsesCount drops by one per placement |
| Search.FirstSolution | src/main/java/com/melalex/ChessProblemApp.java:44-50 | a solution reached through a candidate has the board's dimensions |
| Search.Attempt | src/main/java/com/melalex/ChessProblemApp.java:45-49 | one element of the flatMap: placing the piece on a candidate and searching on yields, if anything, a board of the same dimensions |
| Search.FirstSolutionIsFirst | src/main/java/com/melalex/ChessProblemApp.java:44-50 | there is no result exactly when no candidate leads to one; otherwise the result is that of the first candidate that succeeds |
| Search.NoSolutionWhenAllFail | src/main/java/com/melalex/ChessProblemApp.java:44-50 | the candidate loop finds nothing exactly when every candidate's attempt finds nothing |
| Search.SolutionOfFirstSuccess | src/main/java/com/melalex/ChessProblemApp.java:44-50 | a result of the candidate loop is the result of some candidate's attempt, and every earlier candidate's attempt found nothing |
| Search.QueensBeforeKnights | src/main/java/com/melalex/ChessProblemApp.java:41-51 | while queens remain, the next piece placed is a queen on an admitting cell; a knight is placed only once the queens are exhausted |
| Search.QueenPlacedNext | src/main/java/com/melalex/ChessProblemApp.java:47-50 | with queens left, a result comes from placing a queen on a cell that admits one |
| Search.KnightPlacedNext | src/main/java/com/melalex/ChessProblemApp.java:43-46 | with no queens and some knights left, a result comes from placing a knight on a cell that admits one |
| Search.NothingToPlace | src/main/java/com/melalex/ChessProblemApp.java:41-42 | with both counts 0 the given board is returned unchanged |
| Search.OneByOne | src/main/java/com/melalex/ChessProblemApp.java:36-52 | on a 1 × 1 board one queen gives the single-QUEEN board and two queens give no solution |
| Search.ConsistentIsPeaceful | src/main/java/com/melalex/ChessProblemApp.java:76-176 | on a board whose markings are consistent no piece attacks another |
| Search.EmptyIsConsistent | src/main/java/com/melalex/ChessProblemApp.java:238-244 | Board.of's board is consistent and holds no piece |
| Search.PlaceQueenKeepsConsistency | src/main/java/com/melalex/ChessProblemApp.java:54-63 | placeQueen on an admitting cell of a consistent board keeps it consistent and leaves every other piece in place |
| Search.PlaceHorseKeepsConsistency | src/main/java/com/melalex/ChessProblemApp.java:65-74 | placeHorse on an admitting cell of a consistent board keeps it consistent and leaves every other piece in place |
| Search.PlaceKeepsConsistency | src/main/java/com/melalex/ChessProblemApp.java:54-74 | either placement adds exactly one piece of its kind and keeps the board consistent |
| Search.SearchKeepsConsistency | src/main/java/com/melalex/ChessProblemApp.java:36-52 | from a consistent board, a returned board is consistent and holds exactly queensCount more queens and horsesCount more knights |
| Search.FirstSolutionKeepsConsistency | src/main/java/com/melalex/ChessProblemApp.java:44-50 | the same through the candidate loop, counting the piece being placed |
| Search.SolutionIsPeaceful | src/main/java/com/melalex/ChessProblemApp.java:36-52 | from Board.of(rows, columns), a returned board has those dimensions, exactly Q queens and H knights, and no piece attacking another |
| Search.ForcedPassOverwritesPieces | src/main/java/com/melalex/ChessProblemApp.java:81-82 | the forced queen pass rewrites pieces too: on an inconsistent 1 × 2 board it erases a queen, which is why the invariant is needed |
| Solver.FindSolution | src/main/java/com/melalex/ChessProblemApp.java:36-52 | findSolution over Board objects returns nothing exactly when Search.FindSolution does, and otherwise a board holding the same grid |

## Left out

- `main` (lines 15-34) is left out: reading the four numbers from the console, `Integer.parseInt`, and printing the result are input and output.
- The tracing `System.out.println` calls in `findSolution` (lines 37-39) are left out. They do not affect the result.
- Java `Stream` laziness is not modelled. Candidates are a finite ordered sequence, and `findAny` on the sequential stream is modelled as taking the first candidate that succeeds.
- Java `int` overflow is not modelled. Integers are unbounded, so `rowCount * columnCount` and `indexMapping` never wrap.
- Search.FindSolution: counts are natural numbers. The Java code also accepts a negative count, which it keeps decrementing while placing pieces until no cell admits one. That path is not modelled.
- Solver.FindSolution: counts are natural numbers, for the same reason.
- Boards.Board.Of: requires both dimensions to be positive. Java builds an empty board when a dimension is 0, and throws for a negative array size.
- Boards.Board.Get and Boards.Board.Set: require an on-board (row, column). Java accepts any pair whose flat index lands in the array, so an out-of-range column can alias a cell of the neighbouring row, and otherwise throws.
- Propagation.BanCellsThatQueenCouldAttack: requires the queen's square to be on the board. The search only passes on-board candidates.
- `getRowCount` and `getColumnCount` are the `const` fields of `Boards.Board`. `getUnsafe` is folded into `Boards.Board.GetAt`.
- Splitting the queen pass into four methods (`BanColumn`, `BanRow`, `BanDiagonalsAbove`, `BanDiagonalsBelow`), and each diagonal step into a left and a right half, is proof structure only. Together they run the four loops of lines 77-151 in order on the same board, with the same steps in the same order.
- No board larger than 1 × 1 is evaluated in the model.
- Completeness of the search (that it finds a solution whenever one exists under the marking rules) is not stated.
