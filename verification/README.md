# Chess engine core in Dafny

A model of the engine core of ChessEngineSFML, a small C++ chess program, together with proofs about it. The modelled core is:

- **Board** (`Board.cpp`): an 8x8 grid of pieces with a side to move;
- **Move generation**: pawn single push and diagonal capture, knight, sliding pieces and king. The generation is pseudo-legal: no check test, no castling, no two-square push, no en passant;
- **`makeMove` / `undoMove`**: auto-promotion to a queen, and the undo heuristic;
- **Search** (`Minimax.cpp`): the fail-soft alpha-beta search and the root move chooser;
- **Material evaluation** (`Evaluation.cpp`) and the evolutionary tuner of its piece values;
- **Piece and move types** (`ChessTypes.h`).

Modules follow the program:

| module | file | what it holds |
|---|---|---|
| `ChessTypes` | ChessTypes.dfy | the enums, `Piece` and `Move` with their default values |
| `Boards` | Boards.dfy | the board, `initBoard`, `makeMove`, `undoMove`, and a corrected make/undo pair |
| `MoveGen` | MoveGen.dfy | the four generators and `generateMoves`. Each generator is proved equal to a movement rule, and `generateMoves` is proved to yield exactly the moves those rules allow |
| `Opening` | Opening.dfy | the exact move list of the start position |
| `Evaluation` | Evaluation.dfy | `evaluateBoard` against a per-kind material balance, colour symmetry, and bounds |
| `TreeSearch` | TreeSearch.dfy | alpha-beta on an abstract game tree, proved fail-soft against plain minimax |
| `Search` | Search.dfy | the search over the generated move tree with a pure successor board, and `findBestMove` |
| `InPlaceSearch` | InPlaceSearch.dfy | the search as written, which makes and undoes moves on one shared board |
| `Training` | Training.dfy | `mutateParameters`, `measureFitness` and the truncation-selection loop of `trainEvalParameters` |

**Successor board versus shared board.** The source searches on one board and calls `makeMove` before each child and `undoMove` after it. `Search` models the search over pure successor boards. `InPlaceSearch` models the shared board.

- `InPlaceSearch.InPlaceIsPure` proves that if every move of the unpruned search tree round trips, the two agree and the board comes back unchanged. The condition is sufficient, not necessary: alpha-beta may cut off a move that would not round trip.
- `Boards.MakeUndoRoundTrip` characterises the moves that round trip: with a real side to move, all except a queen moving onto its own promotion rank.

**Search stated once.** The search is stated over `Search.Rules`, a record of move-generation, make, undo and evaluation functions. Its theorems hold for any rules. `Search.Engine` instantiates them with this engine's functions.

**Tuner.**
- The random draws of `mutateParameters` and of the initial population are inputs, given as sequences of `Training.Draws`.
- `std::sort` is an input too: any function satisfying `Training.IsSorter`, which requires a permutation in descending fitness order. `Training.SortersExist` shows one exists. The order among equal fitnesses is deliberately left open.
- The replacement step keeps the top half. For an odd population of three or more the last slot copies from a slot that has already been overwritten in the same pass, so that slot is mutated twice. A single candidate copies from itself before any slot is overwritten and is mutated once. `Training.ReplaceHalf` states both cases.

## Model

| member | source | states |
|---|---|---|
| ChessTypes.TypeOrdinal | ChessEngineSFML/ChessTypes.h:11-19 | piece kinds number 0..6 and only `Empty` is 0 |
| ChessTypes.ColorOrdinal | ChessEngineSFML/ChessTypes.h:22-26 | `White` is 0, `Black` is 1, and the ordinal is below 3 |
| ChessTypes.EnumerationsAreComplete | ChessEngineSFML/ChessTypes.h:11-26 | exactly seven kinds and three colours, listed in ordinal order |
| ChessTypes.EmptyMeansDefault | ChessEngineSFML/ChessTypes.h:33-35 | on a well-formed piece, kind `Empty` holds exactly when the piece is the default `(Empty, NoColor)` |
| ChessTypes.NewMove | ChessEngineSFML/ChessTypes.h:44-46 | the constructor stores the four coordinates and always sets the score to 0 |
| ChessTypes.DefaultMove | ChessEngineSFML/ChessTypes.h:44-46 | the default move is the no-move sentinel: from equals to, both (0,0), score 0 |
| Boards.Flip | ChessEngineSFML/Board.cpp:111 | the side flip never yields `NoColor` and changes every real colour |
| Boards.ClearSquares | ChessEngineSFML/Board.cpp:13-17 | the clearing loops leave every one of the 64 squares holding the default empty piece, whatever the grid held before |
| Boards.PlacePawns | ChessEngineSFML/Board.cpp:20-23 | on the cleared grid the pawn loop leaves white pawns on row 1, black pawns on row 6, and every other square empty |
| Boards.PlaceRooks | ChessEngineSFML/Board.cpp:26-29 | the four rook assignments put the rooks on (0,0), (0,7) for White and (7,0), (7,7) for Black, and change no other square |
| Boards.PlaceKnights | ChessEngineSFML/Board.cpp:32-35 | the knight assignments add the knights on columns 1 and 6 of both back ranks, and change no other square |
| Boards.PlaceBishops | ChessEngineSFML/Board.cpp:38-41 | the bishop assignments add the bishops on columns 2 and 5 of both back ranks, and change no other square |
| Boards.PlaceQueens | ChessEngineSFML/Board.cpp:44-45 | the queen assignments add the queens on column 3 of both back ranks, and change no other square |
| Boards.PlaceKings | ChessEngineSFML/Board.cpp:48-49 | the king assignments add the kings on column 4 of both back ranks, completing both back ranks |
| Boards.InitBoard | ChessEngineSFML/Board.cpp:11-50 | from any 8x8 grid, clearing, the pawn loop and the sixteen back-rank assignments leave every square with its start piece. Pawns are on rows 1 and 6, the back ranks on rows 0 and 7, and rows 2-5 are empty. The result is the grid `NewBoard` starts from |
| Boards.NewBoard | ChessEngineSFML/Board.cpp:5-50 | the constructed board is well formed with White to move. Rows 2-5 are empty and rows 1 and 6 are pawns. There is exactly one white king, at (0,4), and one black king, at (7,4) |
| Boards.InitialIsMirrored | ChessEngineSFML/Board.cpp:19-49 | the start position is colour-symmetric: row 7-r is row r with colours exchanged |
| Boards.MakeMove | ChessEngineSFML/Board.cpp:94-112 | the destination receives the moving piece, promoted to a queen on its last rank, and the source is emptied. Every other square is unchanged and the side to move flips |
| Boards.MakeMoveKeepsWellFormed | ChessEngineSFML/Board.cpp:94-112 | making a move keeps the board well formed: a real side to move, and on every square kind `Empty` exactly when colour `NoColor` |
| Boards.UndoMove | ChessEngineSFML/Board.cpp:115-132 | the source receives the destination's piece, demoted if it is a queen on its own last rank. When the squares differ the destination receives `captured`. No other square changes and the side flips |
| Boards.MakeUndoRoundTrip | ChessEngineSFML/Board.cpp:115-132 | undo right after make, with the old destination piece, restores the board if and only if the mover is not a queen moving onto its own promotion rank and the side to move is a real colour |
| Boards.MakeUndoRestoresSide | ChessEngineSFML/Board.cpp:131 | with a real side to move (`White` or `Black`), undo after make always restores it |
| Boards.UndoMoveDemotesQueen | ChessEngineSFML/Board.cpp:123-128 | counterexample: a white queen moving from (6,0) to (7,0) comes back as a pawn |
| Boards.MakeMoveTracked | ChessEngineSFML/Board.cpp:94-112 | corrected make: the same board as `makeMove`, plus a record of the captured piece and of whether a promotion happened |
| Boards.UndoMoveTracked | ChessEngineSFML/Board.cpp:115-132 | corrected undo: puts the captured piece back, touches no other square but the source, and flips the side |
| Boards.TrackedRoundTrip | ChessEngineSFML/Board.cpp:115-132 | with a real side to move, the corrected pair round trips on every in-bounds move, promotions and queens included |
| MoveGen.PawnRule | ChessEngineSFML/Board.cpp:137-154 | pawn moves are exactly the one-row-forward push onto an empty square and the diagonal steps onto an opposing piece. They come out push first, then column c-1, then c+1 |
| MoveGen.StepRule | ChessEngineSFML/Board.cpp:156-171 | knight and king moves are exactly the in-bounds offset targets not holding the mover's colour, and there are no more moves than offsets |
| MoveGen.RayRule | ChessEngineSFML/Board.cpp:173-195 | a ray's moves are exactly the squares whose predecessors along the ray are all empty and which are empty or hold an opposing piece |
| MoveGen.RayStopsAtBlocker | ChessEngineSFML/Board.cpp:179-192 | when the ray's last move is a quiet move, the next square is off the board or holds the mover's own piece |
| MoveGen.RayMovesAreShaped | ChessEngineSFML/Board.cpp:173-195 | every ray move stays on the board, ends on a different square, and does not land on the mover's colour |
| MoveGen.DirectionListsAreUnitSteps | ChessEngineSFML/Board.cpp:69-80 | bishop, rook and queen directions are unit steps, and the queen's list is the rook's followed by the bishop's |
| MoveGen.OffsetListsAreNonZero | ChessEngineSFML/Board.cpp:156-160 | no knight or king offset is the null step |
| MoveGen.PieceMovesAreShaped | ChessEngineSFML/Board.cpp:60-86 | a square yields moves only if it holds the side to move's piece, and each move leaves it for a different enterable square. Empty squares yield nothing |
| MoveGen.BoardScanProperties | ChessEngineSFML/Board.cpp:58-89 | the row-major scan from row r yields only in-bounds moves from rows at or after r, leaving a piece of the side to move, with the shape of a generated move, in row-major order of source square |
| MoveGen.SlidingRule | ChessEngineSFML/Board.cpp:173-195 | a sliding piece's moves are exactly the moves some direction's ray rule allows |
| MoveGen.PieceMovesFollowRule | ChessEngineSFML/Board.cpp:60-86 | the moves generated for the square (r, c) are exactly those the movement rule of its piece allows; an empty square or a piece of the other side yields none |
| MoveGen.GeneratedMovesArePieceMoves | ChessEngineSFML/Board.cpp:56-91 | a move is generated exactly when it is one of the moves generated for the piece on its in-bounds source square: the scan loses and adds nothing |
| MoveGen.GenerationFollowsRules | ChessEngineSFML/Board.cpp:56-211 | `generateMoves` is sound and complete for the movement rules: a move is generated exactly when it leaves a square of the board and the rule of the piece there allows it |
| MoveGen.GeneratedMoveFeatures | ChessEngineSFML/Board.cpp:56-91 | every generated move is in bounds, has distinct squares and score 0, and starts on the mover's colour. Its destination is enterable, and moves are ordered row-major by source |
| MoveGen.GeneratedMovesInBounds | ChessEngineSFML/Board.cpp:56-91 | every generated move's four coordinates lie on the board |
| MoveGen.GeneratedMovesArePseudoLegal | ChessEngineSFML/Board.cpp:56-91 | on a well-formed board every generated move starts on a real piece of the side to move and ends on a square without one |
| Opening.OpeningMoveList | ChessEngineSFML/Board.cpp:137-171 | from the start position `generateMoves` gives exactly twelve moves, in order: four knight moves, then eight single pawn pushes. It is twelve, not twenty, because `generatePawnMoves` has no two-square advance (Board.cpp:141-145) |
| Evaluation.RowScoreIsBalance | ChessEngineSFML/Evaluation.cpp:10-25 | one row's score is the per-kind value times White's surplus of that kind |
| Evaluation.EvaluationIsMaterialBalance | ChessEngineSFML/Evaluation.cpp:7-28 | the evaluation is the material balance: each valued kind's parameter times White's count minus Black's. Kings and empty squares add nothing |
| Evaluation.SwapRowNegates | ChessEngineSFML/Evaluation.cpp:10-25 | exchanging colours in a row negates its score |
| Evaluation.MirrorNegatesEvaluation | ChessEngineSFML/Evaluation.cpp:7-28 | reversing the rows and exchanging colours negates the evaluation |
| Evaluation.InitialEvaluationIsZero | ChessEngineSFML/Evaluation.cpp:7-28 | the start position evaluates to 0 for every parameter vector |
| Evaluation.EvaluationBound | ChessEngineSFML/Evaluation.cpp:7-28 | the evaluation is at most 64 times the largest absolute piece value in magnitude |
| TreeSearch.SearchIsFailSoft | ChessEngineSFML/Minimax.cpp:16-45 | with leaves strictly inside the sentinels, alpha-beta equals minimax inside the window. When minimax is at most alpha the result lies between it and alpha; when it is at least beta, between beta and it |
| TreeSearch.MaxLoopIsFailSoft | ChessEngineSFML/Minimax.cpp:16-30 | the maximising loop from any child is fail-soft for the larger of its running value and the remaining children's best minimax value |
| TreeSearch.MinLoopIsFailSoft | ChessEngineSFML/Minimax.cpp:31-45 | the minimising loop is fail-soft for the smaller of its running value and the remaining children's worst minimax value |
| TreeSearch.WideWindowIsExact | ChessEngineSFML/Minimax.cpp:57-63 | a window containing both sentinels returns the exact minimax value |
| Search.ChildTree | ChessEngineSFML/Minimax.cpp:5-22 | the search tree is a leaf with the static evaluation exactly at depth 0 or without moves. Otherwise White maximises and child j is the tree after move j at depth-1 |
| Search.AlphaBetaIsFailSoft | ChessEngineSFML/Minimax.cpp:4-46 | `alphaBeta` returns the evaluation at depth 0 or without moves, and is fail-soft against minimax of the generated tree when the leaves lie inside the sentinels |
| Search.RootScoreIsAlphaBeta | ChessEngineSFML/Minimax.cpp:59-65 | each root move is scored by `alphaBeta` on the board after it, at depth-1 with window (-1000000, 1000000) |
| Search.RootScoreIsMinimax | ChessEngineSFML/Minimax.cpp:59-65 | with leaves inside the sentinels, each root score is the child's depth-1 minimax value |
| Search.FindBest | ChessEngineSFML/Minimax.cpp:48-81 | for any rules: no moves gives the default move; the result is the default or a generated move; with scores inside the sentinels it is the first move reaching the best score for the side to move |
| Search.FindBestMove | ChessEngineSFML/Minimax.cpp:48-81 | `findBestMove` for this engine: the default move when `generateMoves` is empty, otherwise the first generated move with the best root score |
| Search.BestMoveFollowsMinimax | ChessEngineSFML/Minimax.cpp:57-79 | the chosen move's minimax value is at least as good as every other move's and strictly better than every earlier one's |
| InPlaceSearch.AllRoundTripCharacterised | ChessEngineSFML/Minimax.cpp:18-24 | a condition that picks out exactly the round-tripping moves picks out exactly the unpruned search trees in which every move round trips |
| InPlaceSearch.RunIsPure | ChessEngineSFML/Minimax.cpp:4-46 | if every move of the unpruned tree round trips, the shared-board search returns the pure search's score and gives the board back unchanged |
| InPlaceSearch.MaxRunIsPure | ChessEngineSFML/Minimax.cpp:16-30 | the shared-board maximising loop equals the pure one and leaves the board as it found it |
| InPlaceSearch.MinRunIsPure | ChessEngineSFML/Minimax.cpp:31-45 | the shared-board minimising loop equals the pure one and leaves the board as it found it |
| InPlaceSearch.RunKeepsSide | ChessEngineSFML/Minimax.cpp:18-28 | from an 8x8 board with a real side to move, the shared-board search ends on an 8x8 board with that side to move, round trip or not |
| InPlaceSearch.SharedStep | ChessEngineSFML/Minimax.cpp:59-65 | one root probe on the shared board gives the pure root score and leaves the board intact if every move of the unpruned tree round trips, and, from an 8x8 board with a real side to move, keeps that side in any case |
| InPlaceSearch.FindBestShared | ChessEngineSFML/Minimax.cpp:48-81 | with a real side to move, the shared-board `findBestMove` keeps it. If every move of the unpruned tree round trips it returns the board unchanged and the first best move |
| InPlaceSearch.EngineStaysOnBoard | ChessEngineSFML/Board.cpp:94-132 | this engine's generator, make and undo keep to 8x8 boards and flip the side |
| InPlaceSearch.EngineRoundTrips | ChessEngineSFML/Board.cpp:115-132 | for this engine, a move round trips exactly when it is not a queen moving onto its own promotion rank and the side is a real colour |
| InPlaceSearch.InPlaceKeepsSide | ChessEngineSFML/Minimax.cpp:4-46 | with a real side to move, `alphaBeta` on the shared board ends with the side to move it started with |
| InPlaceSearch.InPlaceIsPure | ChessEngineSFML/Minimax.cpp:4-46 | every move of the unpruned tree round trips exactly when every such move is revertible; if so, the shared board is restored and the score is that of the pure `alphaBeta` |
| InPlaceSearch.FindBestMoveInPlace | ChessEngineSFML/Minimax.cpp:48-81 | with a real side to move, `findBestMove` as written keeps the side that line 67 tests. If every move of the unpruned tree is revertible it returns the board unchanged and the first best move |
| Training.MutationReach | ChessEngineSFML/Evaluation.cpp:30-42 | a mutation with draws in [-10, 10] moves each of the five values by at most 10, and every such vector is reachable |
| Training.InitialParamsRange | ChessEngineSFML/Evaluation.cpp:71-82 | initial values are exactly: pawn in [80,120], knight and bishop 3x, rook 5x, queen 9x a value in [80,120] |
| Training.InitialPopulation | ChessEngineSFML/Evaluation.cpp:74-82 | candidate i gets the initial parameters of its draws and fitness 0. When the draws lie in [80, 120], every candidate starts from plausible piece values (pawn in [80,120], knight and bishop multiples of 3 in [240,360], rook a multiple of 5 in [400,600], queen a multiple of 9 in [720,1080]) |
| Training.FitnessIsNonPositive | ChessEngineSFML/Evaluation.cpp:58-67 | fitness is never positive, and is 0 exactly when every test position evaluates to 0 |
| Training.StartPositionsAreNeutral | ChessEngineSFML/Evaluation.cpp:45-67 | the test positions are start positions, so every candidate's fitness is 0 |
| Training.Evaluate | ChessEngineSFML/Evaluation.cpp:90-92 | every candidate keeps its parameters, and its new fitness is never positive and is 0 exactly when its parameters evaluate every test position to 0 |
| Training.SortersExist | ChessEngineSFML/Evaluation.cpp:95-98 | a descending-by-fitness permutation of the population always exists, so the sort assumption can be met |
| Training.SortDescendingSorts | ChessEngineSFML/Evaluation.cpp:95-98 | insertion sort yields a permutation in descending fitness order |
| Training.SortedHeadIsBest | ChessEngineSFML/Evaluation.cpp:94-102 | after the sort, `population[0]` is a member of the population with the maximum fitness |
| Training.ReplaceFromResult | ChessEngineSFML/Evaluation.cpp:105-110 | the replacement loop leaves earlier slots alone; slot j receives the mutation of slot j-n/2 as it stands when j is reached |
| Training.ReplaceHalf | ChessEngineSFML/Evaluation.cpp:105-110 | the top half is kept and slot n/2+j gets mutated `population[j]`. For odd n ≥ 3 the last slot is mutated twice, and for n = 1 the sole candidate is mutated |
| Training.BestFitnessNeverDecreases | ChessEngineSFML/Evaluation.cpp:88-111 | with at least two candidates and fixed test positions, the best fitness never falls from one generation to the next |
| Training.SoleCandidateIsMutated | ChessEngineSFML/Evaluation.cpp:105-110 | with one candidate, a generation replaces it by its own mutation |
| Training.EvolveLast | ChessEngineSFML/Evaluation.cpp:88-111 | the evolution over g generations is one generation applied to the evolution over g-1 |
| Training.TrainReturnsFittest | ChessEngineSFML/Evaluation.cpp:88-113 | with at least two candidates and at least one generation, the returned parameters belong to a maximum-fitness candidate of the last evaluated generation |

## Left out

- `main.cpp`: the SFML window, event loop, drawing and mouse mapping are presentation. The user-move check there is membership in `generateMoves`, which is modelled.
- `Board.h`, `Evaluation.h` and `Minimax.h` only declare; the datatypes mirror them.
- The `std::mt19937` generators seeded from the clock: every random draw is an input (`Training.Draws`), constrained to the source's ranges by `Training.DrawsIn`.
- Console output of the tuner.
- Training.MeasureFitness: the `double` fitness `-Σ|eval|/100.0` is modelled as the integer `-Σ|eval|`. This is the same score scaled by 100, with the same order; floating-point rounding is not modelled.
- Training.SortersExist: `std::sort` is unstable, so the sort is a parameter constrained only by permutation and descending order. The order of equal fitnesses is not fixed.
- Training.Train: requires a population of at least one candidate, because `population[0]` is read at the end.
- Boards.MakeUndoRestoresSide: requires a real side to move. From `NoColor` the two flips give `White` and then `Black` (Board.cpp:111 and 131), so the side does not come back; `Boards.MakeUndoRoundTrip` carries the same condition in its if-and-only-if. The same condition is required, for the same reason, by `Boards.TrackedRoundTrip`, `InPlaceSearch.RunKeepsSide`, `InPlaceSearch.SharedStep`, `InPlaceSearch.FindBestShared`, `InPlaceSearch.InPlaceKeepsSide` and `InPlaceSearch.FindBestMoveInPlace`: from `NoColor` each make and revert on the shared board leaves `Black` to move.
- Training.TrainReturnsFittest: requires at least two candidates and at least one generation. With one candidate the last generation replaces it by its mutation, as `Training.SoleCandidateIsMutated` states. With no generation the result is the first initial candidate, which was never measured.
- Training.BestFitnessNeverDecreases: needs two or more candidates. With one, the candidate is replaced by its mutation, which `Training.SoleCandidateIsMutated` states instead.
- 32-bit `int` overflow: integers are unbounded. The search theorems assume leaves strictly inside the sentinels ±999999, as `Search.LeavesInside` and `TreeSearch.Inside` state.
- Search.FindBestMove: requires depth at least 1. At depth 0 the source calls `alphaBeta` at depth -1, which never reaches its depth-0 base case. Depths are `nat`.
- InPlaceSearch.FindBestMoveInPlace: requires depth at least 1, for the same reason.
- InPlaceSearch.InPlaceIsPure: proves that the board is restored, with the pure score, if every move of the unpruned search tree round trips. The converse is not proved and does not hold: a beta cut-off can skip a move that would not round trip, and the board still comes back.
- Training.CreateTestPositions: the count is a `nat`. In the source a negative `testPositionsCount` makes `reserve` throw `std::length_error` (Evaluation.cpp:47); that error path is not modelled.
- Training.Train: `populationSize` and `generations` are `nat` as well. A negative `populationSize` makes the `std::vector` constructor throw (Evaluation.cpp:74), and a negative `generations` runs no generation, the same as 0. Neither case is modelled.
- Search.Engine: the generator, make and undo are totalised to return the board unchanged off 8x8 boards or for off-board moves. The source never reaches those cases, and all theorems about the engine require 8x8 boards.
- MoveGen.StepRule: states membership and count, not the order of a piece's moves. That order is the offset declaration order by construction of `MoveGen.StepMoves`. It is pinned for the start position by `Opening.OpeningMoveList`. `MoveGen.PawnRule` states the pawn order.
- MoveGen.RayRule: likewise states membership; the order along a ray and across directions is the order of construction.
- `alphaBeta` terminates at every depth; in the model this is Dafny's termination check on the decreasing depth, not a separate theorem.

## Findings

| source | as written | input that shows it | evidently intended | confidence | as-written member | corrected member |
|---|---|---|---|---|---|---|
| ChessEngineSFML/Board.cpp:123-128 | `undoMove` turns any queen back into a pawn when the move ended on that queen's own promotion rank, whether or not the move was a promotion | a white queen moving from (6,0) to (7,0), then undone, comes back to (6,0) as a white pawn | undo reverts a promotion only when `makeMove` performed one | high (proved; not executed) | Boards.UndoMoveDemotesQueen | Boards.TrackedRoundTrip |

The corrected pair `Boards.MakeMoveTracked` / `Boards.UndoMoveTracked` records whether a promotion happened. `InPlaceSearch.InPlaceIsPure` bounds the harm to the search: if no move of the unpruned search tree is such a queen move, the shared board is restored and the scores match the pure search.
