# 15-puzzle IDA* solver, modelled in Dafny

This project models the solving engine of a 15-puzzle solver that exists in
two near-identical copies: the web back end (`endpoints.py`) and the desktop
script (`solve.py`). The model covers these parts:

- the board, a list of four rows of four integers with 0 as the blank;
- the goal arrangement and the `goal_positions` table;
- the Manhattan-plus-linear-conflict heuristic;
- both versions of the neighbour generator;
- the in-place `apply_move` of `solve.py`;
- the IDA* search: a depth-first pass over a shared path, and a driver that raises the threshold;
- the input checks that `api_solve` runs before it solves a puzzle: four rows of four numbers, the values 0..15 each once, and the inversion-parity test.

Modules:

- `Wrappers`: `Option` and `Result`.
- `Board` (`board.dfy`):
  - boards, well-formed boards and the goal;
  - `GoalPosition`, the `goal_positions` table;
  - swapping two cells.
- `Moves` (`moves.dfy`):
  - directions, `get_neighbors` in both of its forms;
  - `apply_move` on a 4x4 array, and the board value it produces (`ApplyMoveSpec`);
  - replaying a list of moves.
- `Heuristic` (`heuristic.dfy`): `manhattan_linear_conflict` as loops, proved equal to a row-by-row sum (`Estimate`).
- `Search` (`search.dfy`):
  - the path, as a class whose list of entries is appended to and popped;
  - the recursive `search` pass;
  - the pass driver, and `ida_star`.
- `Validation` (`validation.dfy`): the row parsing, the permutation check, the inversion count, the blank-row scan and the parity test of `api_solve`, then the solve and its error replies.

Sentinels become a datatype. The pass result `"FOUND"` / number /
`float('inf')` is `Cost = Found | Bound(n) | Infinite`. Python's comparison
`temp < min_cost` is `Less`. `PassValue` gives, by the same recursion as
`search`, the value a pass returns on a path, and `FoundPath` the path a
"FOUND" pass leaves; the methods are proved to return them.
`DriverOutcome` does the same for the driver loop.

The two drivers share one loop, `RunPasses(start, maxPasses)`:

- `endpoints.py`'s `while iterations < 50` is `IdaStar`, which runs at most 50 passes.
- `solve.py`'s `while True` is the same loop with a pass budget chosen by the caller.

The shared pass lists neighbours with endpoints.py's generator, the full scan `GetNeighbors`. solve.py's `search` calls its own generator instead (solve.py:76), which moves the last 0 it finds. `GeneratorsAgree` proves the two list the same neighbours on every valid board, and the search only meets valid boards.

Python compares lists by value (`p == goal`, `prev[0] == neighbor`), so boards
are `seq<seq<int>>` values. The one operation that changes a board in place,
`apply_move`, works on an `array2<int>`. `Snapshot` reads that array as a
board value.

## Model

| member | source | states |
|---|---|---|
| Board.GoalPosition | endpoints.py:14 | `goal_positions[v]` is a grid cell where Goal holds v (the table inverts Goal) |
| Board.GoalPositionOfCell | solve.py:11-18 | looking up the value of any goal cell gives that cell back |
| Board.GoalCell | endpoints.py:8-13 | the goal holds tile 4*i+j+1 at (i, j) and the blank at (3, 3) |
| Board.FlattenGoal | endpoints.py:8-13 | the goal in row-major order reads 1, 2, ..., 15, 0 |
| Board.GoalIsValid | endpoints.py:8-13 | the goal is a well-formed board: 4x4, values 0..15 each once |
| Board.IsGoalIff | endpoints.py:37-38 | the cell-by-cell goal test IsGoal holds exactly when the board equals Goal |
| Board.IsGoal | endpoints.py:37-38 | the goal test, cell by cell: a 4x4 grid holding tile 4*i+j+1 at (i, j) and the blank at (3, 3) |
| Board.Flatten | endpoints.py:867 | the row-major list has 16 entries, entry c being cell (c / 4, c % 4) |
| Board.SwapCells | endpoints.py:50-51 | the tuple swap exchanges the two cells and leaves every other cell as it was |
| Board.SwapKeepsValid | endpoints.py:46-51 | swapping two cells keeps a board a permutation of 0..15 |
| Board.ValidCellsDistinct | endpoints.py:868 | on a board passing `sorted(flat) == list(range(16))` no value sits in two cells |
| Board.RangeCountAtMostOne | endpoints.py:868 | each value occurs at most once in `range(16)` |
| Board.TwoPositionsCount | endpoints.py:868 | a value found at two indices occurs at least twice |
| Board.ValidInRange | endpoints.py:23 | every cell of a valid board is a key of `goal_positions` |
| Board.ValidHasEveryValue | endpoints.py:868 | every value 0..15 sits in some cell of a valid board |
| Board.ValidHasBlank | endpoints.py:43-45 | a valid board has a cell holding 0 |
| Board.Blank | endpoints.py:43-45 | a valid board's blank: a cell holding 0 and the only one |
| Board.GridExt | endpoints.py:38 | boards equal cell by cell are equal lists |
| Moves.ScanRowsStep | endpoints.py:41-52 | scanning one more cell appends its neighbours exactly when it holds 0 |
| Moves.LastZero | solve.py:50-54 | the cell solve.py's scan leaves in (x, y) holds 0 and no later cell in row-major order does |
| Moves.LastZeroBelow | solve.py:115-118 | the last zero before index c holds 0 and no zero lies between it and c |
| Moves.BlankHasIndex | solve.py:115-118 | a board with a 0 has a row-major index holding 0 |
| Moves.LastZeroIsBlank | solve.py:49-54 | on a valid board the last zero is the blank |
| Moves.CellAt | endpoints.py:42-44 | row-major index 4*i+j is cell (i, j) |
| Moves.ApplyMoveSpec | solve.py:114-127 | the board `apply_move` leaves has a blank, and is valid whenever the input is |
| Moves.Replay | solve.py:149-151 | replaying moves one after another keeps a blank and keeps a valid board valid |
| Moves.Labels | endpoints.py:52 | the labels of a neighbour list, one per entry, in order |
| Moves.NeighborsAtUnfold | endpoints.py:46-52 | a blank's neighbours are the up, down, left and right steps, concatenated in that order |
| Moves.NeighborsAtSpec | endpoints.py:46-52 | the neighbours of a blank at (x, y) carry exactly the on-grid labels in the order up, down, left, right; there are 2 in a corner, 3 on an edge and 4 inside; each is the input with the blank and the labelled cell swapped |
| Moves.StepLabels | endpoints.py:48-52 | a direction yields its own label exactly when its target is on the grid |
| Moves.NeighborsAtLabels | endpoints.py:46-52 | the labels of a blank's neighbours are the legal directions in order |
| Moves.LabelsAppend | endpoints.py:52 | labels of appended lists are the appended labels |
| Moves.DirectionDelta | solve.py:119-123 | each direction's label maps back to the same offsets in `apply_move` |
| Moves.MoveOffsets | solve.py:119-123 | the if-chain gives each label its offsets (Delta), and an unknown label none |
| Moves.GeneratorsAgree | solve.py:49-62 | on a valid board solve.py's generator, which moves the last 0, lists exactly what endpoints.py's full scan lists |
| Moves.StepIsMoveOf | endpoints.py:48-52 | a step in a direction is the blank swapped with the cell that direction points at |
| Moves.StepsAreMoves | endpoints.py:46-52 | every neighbour is the input with the blank and its label's target cell swapped |
| Moves.ScanRowSingleZero | endpoints.py:41-52 | scanning part of a row of a board whose only 0 is at (b0, b1) yields that cell's neighbours once the scan has passed it, and nothing before |
| Moves.ScanRowsSingleZero | endpoints.py:41-52 | the same for the first i rows |
| Moves.ScanFindsBlank | endpoints.py:40-53 | on a valid board the full scan yields exactly the blank's neighbours |
| Moves.ValidScan | endpoints.py:40-53 | on a valid board `get_neighbors` yields the blank's neighbours with the legal labels in order, each a valid board and each what `apply_move` makes of the input with its label |
| Moves.NeighborIsApplyMove | solve.py:119-126 | for every `(nb, m)` the neighbour generator yields, `apply_move` on the board with m gives nb |
| Moves.ApplyMoveSwaps | solve.py:124-126 | a move with an on-grid target swaps the blank with that cell, keeps the board valid and moves the blank there |
| Moves.ApplyMoveUndo | solve.py:114-127 | a legal move followed by its opposite gives the original board back |
| Moves.OppositeDelta | solve.py:119-123 | opposite labels have negated offsets |
| Moves.ApplyMoveNoop | solve.py:119-126 | an unknown label or an off-grid target leaves the board unchanged |
| Moves.DirectionSteps | endpoints.py:46-52 | the direction loop appends exactly the blank's on-grid neighbours, in order |
| Moves.GetNeighbors | endpoints.py:40-53 | the nested loops return the scan of every cell in row-major order, each 0 cell contributing its neighbours |
| Moves.ScanNeighbors | endpoints.py:40-53 | the neighbour list of the full row-major scan: each cell holding 0, in order, contributes its up, down, left and right steps |
| Moves.GetNeighborsLastBlank | solve.py:49-62 | solve.py's version returns the neighbours of the last 0 cell, each being what `apply_move` makes of the board with its label |
| Moves.ScanCellStep | solve.py:50-54 | visiting cell (i, j) in row-major order moves (x, y) to it when it holds 0 and otherwise keeps (x, y), so (x, y) stays the last 0 seen so far |
| Moves.ScanEnd | solve.py:50-54 | once all 16 cells are visited on a board with a 0, (x, y) is its last 0 cell |
| Moves.SameLastZero | solve.py:50-54 | a 0 cell with no 0 after it is the cell the scan ends on |
| Moves.Snapshot | solve.py:114 | the array read as rows, cell for cell |
| Moves.LastBlankCell | solve.py:115-118 | the scan over the array ends on its last 0 cell |
| Moves.ApplyMoveAt | solve.py:119-126 | once the blank is known, `apply_move` swaps it with the target cell if that is on the grid, and otherwise changes nothing |
| Moves.SwapInPlace | solve.py:126 | the in-place tuple swap leaves the array holding the input board with the two cells exchanged |
| Moves.ApplyMove | solve.py:114-127 | `apply_move` changes the board it is given into ApplyMoveSpec of its old contents and returns that same board |
| Heuristic.RowPenalty | endpoints.py:25-29 | the row loop adds 2 per tile right of (i, j) whose goal is in row i left of goal column gj |
| Heuristic.ColumnPenalty | endpoints.py:30-34 | the column loop adds 2 per tile below (i, j) whose goal is in column j above goal row gi |
| Heuristic.TileCost | endpoints.py:20-34 | a tile adds its Manhattan distance plus its conflict penalties; the blank adds nothing |
| Heuristic.ManhattanLinearConflict | endpoints.py:16-35 | the value computed is Estimate, the sum of all tile costs (a `nat`, so never negative) |
| Heuristic.Estimate | endpoints.py:16-35 | the heuristic as a sum over the rows of every tile's Manhattan distance plus its conflict penalties |
| Heuristic.RowCostZero | solve.py:27-43 | a row's sum is 0 exactly when each of its cells costs 0 |
| Heuristic.RowsCostZero | solve.py:27-43 | the whole sum is 0 exactly when every cell costs 0 |
| Heuristic.NoRowConflicts | endpoints.py:25-29 | with no conflicting tile to the right, the row penalty is 0 |
| Heuristic.NoColConflicts | endpoints.py:30-34 | with no conflicting tile below, the column penalty is 0 |
| Heuristic.GoalInRange | endpoints.py:8-14 | every goal value is a key of `goal_positions` |
| Heuristic.GoalRowInOrder | endpoints.py:25-29 | the goal has no row conflicts |
| Heuristic.GoalColumnInOrder | endpoints.py:30-34 | the goal has no column conflicts |
| Heuristic.GoalCellCostZero | endpoints.py:20-34 | every goal cell costs 0 |
| Heuristic.EstimateGoalZero | endpoints.py:16-35 | the heuristic of the goal board is 0 |
| Heuristic.ZeroCostTileHome | endpoints.py:23-24 | a tile that costs 0 stands on its goal cell |
| Heuristic.SettledBoardIsGoal | endpoints.py:8-14 | a valid board with every tile on its goal cell is the goal |
| Heuristic.EstimateZeroIsGoal | solve.py:25-44 | a valid board with heuristic 0 is the goal |
| Heuristic.EstimateZeroIffGoal | endpoints.py:16-38 | on a valid board the heuristic is 0 exactly at the goal |
| Search.StepIsMove | endpoints.py:67-70 | a path step is to a valid board, the one `apply_move` makes of the previous board with the step's label |
| Search.ScannedAreSteps | endpoints.py:67 | every pair `get_neighbors` yields is a step from the node |
| Search.ChainValid | endpoints.py:60 | every board on the path is valid |
| Search.MovesOf | endpoints.py:83 | `[m for _, m in path[1:]]` takes each entry's move, in order |
| Search.ChainStart | endpoints.py:57 | `[(start, None)]` is a path without repeats |
| Search.ChainExtend | endpoints.py:68-70 | appending a neighbour that is not yet on the path keeps a chain of steps without repeated boards |
| Search.ChainTail | endpoints.py:70 | a path minus its first entry is still a chain of steps |
| Search.MovesOfCons | endpoints.py:83 | the move list of a path is its first move followed by the rest |
| Search.ReplayChain | endpoints.py:83 | replaying a path's moves from its first board ends at its last board |
| Search.ReplayFirstStep | endpoints.py:83 | replaying a path's moves starts with the move that produced its second board |
| Search.Path.Append | endpoints.py:70 | `path.append` adds the entry at the end |
| Search.Path.Pop | endpoints.py:76 | `path.pop` drops the last entry |
| Search.Path.Contains | endpoints.py:68 | `any(prev[0] == b for prev in path)` holds exactly when b is on the path (OnPath) |
| Search.Path.constructor | endpoints.py:57 | a fresh path holds only the start entry |
| Search.Search | endpoints.py:59-77 | the result is PassValue of the path it is given, and "FOUND" leaves exactly FoundPath of it: the first goal path in the order the neighbours are tried. The pass keeps the path a chain of steps without repeats. A numeric result is above the threshold and leaves the path as it found it. "FOUND" leaves the old path extended to the goal within the threshold, and a goal node within the threshold is "FOUND" at once |
| Search.Expand | endpoints.py:66-77 | past both early returns, the result is PassValue of the path and "FOUND" leaves FoundPath of it; "FOUND" adds at least one entry and ends on the goal |
| Search.SearchNeighbors | endpoints.py:67-77 | the neighbour loop skips boards on the path and matches each append with a pop unless a deeper call finds the goal. Its result is LoopValue of the costs TriedCost gives the neighbours in order, and "FOUND" leaves FirstFound of the path: the goal path of the first neighbour that finds it |
| Search.TryNeighbor | endpoints.py:70-76 | pushing a neighbour not on the path and searching one level deeper returns that deeper pass's PassValue. On "FOUND" the path is FoundPath of the pushed path, and otherwise the neighbour is popped again |
| Search.Less | endpoints.py:74 | `temp < min_cost` holds only for a number against a larger number or infinity |
| Search.LessIsStrictOrder | endpoints.py:74 | the comparison is irreflexive, asymmetric and transitive |
| Search.MinCostIsLeast | endpoints.py:66-77 | `min_cost` after the loop is infinity or one of the costs seen, and is at or below every numeric cost seen |
| Search.MinCost | endpoints.py:66-77 | `min_cost` after the loop has compared the costs in order: start at infinity, take each cost below the one kept |
| Search.PassValue | endpoints.py:59-77 | the value `search` returns on a path: f = g + h above the threshold, "FOUND" at the goal, else LoopValue of the neighbours' costs |
| Search.CostList | endpoints.py:67-75 | one TriedCost per neighbour, in the order the loop tries them |
| Search.TriedCost | endpoints.py:68-72 | infinity for a neighbour already on the path, else PassValue one level deeper with it pushed |
| Search.LoopValue | endpoints.py:66-77 | "FOUND" when a neighbour's cost is "FOUND", else the minimum of the costs |
| Search.FoundPath | endpoints.py:59-77 | the path a "FOUND" pass leaves: the path itself at the goal, else the path of the first neighbour whose cost is "FOUND"; it extends the given path with entries carrying moves |
| Search.FirstFound | endpoints.py:67-73 | the same from the k-th neighbour on: the first one from there whose cost is "FOUND" |
| Search.MinCostAppend | endpoints.py:74-75 | one more cost replaces the minimum exactly when it compares below it |
| Search.MinCostAbove | endpoints.py:66-77 | when every cost seen is above the threshold or infinity, so is `min_cost` |
| Search.PassValueExplored | endpoints.py:59-77 | a pass that does not return "FOUND" returns a number above the threshold, or infinity |
| Search.TriedCostIsNeighborCost | endpoints.py:67-75 | each cost the loop compares is infinity for a board already on the path, otherwise above the threshold, and exactly the neighbour's own f = g + 1 + h when the deeper pass cuts off at once |
| Search.GoalEstimateZero | endpoints.py:61-65 | a board passing `is_goal` has heuristic 0, so a goal node within the threshold reaches the `is_goal` test |
| Search.RisingAppend | endpoints.py:86 | appending a threshold above the last one keeps the thresholds strictly increasing |
| Search.RunPasses | endpoints.py:79-88 | the outcome is DriverResult of the start and the budget. The passes run form a PassTrace, at most the budget of them and at least one when the budget allows. "Solved" follows a "FOUND" pass, `Exhausted` a pass returning infinity, and the pass limit means every pass returned a number. A move list replays from the start to the goal and is no longer than the last threshold. The goal yields `[]` |
| Search.PassTraceAppend | endpoints.py:81-88 | a pass at the threshold the last pass returned extends the trace |
| Search.PassTrace | endpoints.py:79-88 | the passes run: the first threshold is the start's heuristic, each result is that pass's PassValue, and each later threshold is the number the pass before returned |
| Search.DriverOutcome | endpoints.py:79-88 | the driver from threshold t with n passes left: the moves of the path a "FOUND" pass leaves, `Exhausted` on infinity, the limit at n = 0, else the next pass at the number returned |
| Search.TraceOutcome | endpoints.py:79-88 | along a trace of passes with enough passes left, the driver's outcome is settled by the last pass: its found path's moves on "FOUND", `Exhausted` on infinity, and the limit when the trace used up every pass |
| Search.DriverResult | endpoints.py:79-88 | DriverOutcome from the start board's heuristic |
| Search.IdaStarValue | endpoints.py:55-88 | what `ida_star` returns: the moves of a solved run of 50 passes, else `None` |
| Search.TracedPass | endpoints.py:79-87 | one turn of the driver loop adds its threshold and result to the trace, which stays a PassTrace with rising thresholds. A number above the threshold carries on with the path holding only the start. "FOUND" yields the moves of FoundPath at that threshold, which replay to the goal. Infinity yields `Exhausted` |
| Search.RunPass | endpoints.py:81-85 | one pass returns PassValue of the start path at the threshold. On "FOUND" the path is FoundPath of the start path, and the outcome is its moves, which replay from the start to the goal within the threshold. Infinity gives `Exhausted`. A number leaves the path holding only the start |
| Search.FoundPathSolves | endpoints.py:82-83 | a path a pass reports as "FOUND" yields moves that replay from the start to the goal, no more than the threshold |
| Search.FoundMoves | endpoints.py:82-83 | on "FOUND" the outcome is the moves of the path after its first entry; they replay from the start to the goal within the threshold, and an unextended path gives `[]` |
| Search.IdaStar | endpoints.py:55-88 | the result is IdaStarValue of the start, over between 1 and 50 passes traced as in RunPasses. A returned move list comes from a pass returning "FOUND", replays from the start to the goal and is no longer than the last threshold. `None` means the last pass returned infinity, or all 50 returned a number. The goal board yields `[]` |
| Validation.FirstLineErrorNone | endpoints.py:857-864 | no line fails exactly when every line is four numbers |
| Validation.FirstLineError | endpoints.py:857-864 | the reply for the first line that is not four numbers: a field `int` rejects, or a wrong count; none when every line is good |
| Validation.Rows | endpoints.py:856-864 | the board built from the lines holds each line as its row |
| Validation.ParseRows | endpoints.py:850-864 | anything but 4 lines is "exactly 4 rows". Otherwise the first bad line decides between the `ValueError` reply and "4 numbers". The parse succeeds exactly on 4 lines of 4 numbers, giving those rows |
| Validation.NonBlank | endpoints.py:876 | the filtered list holds no 0 and is no longer than the input |
| Validation.NonBlankCounts | endpoints.py:876 | the filter keeps each non-zero value as often as it occurs and drops every 0 |
| Validation.ExceedingZero | endpoints.py:878-880 | the inner count for i is 0 exactly when s[i] is at most every later entry |
| Validation.InversionsBeforeZero | endpoints.py:877-880 | no inversion starts below i exactly when each s[a], a < i, is at most every later entry |
| Validation.InversionsZeroIffSorted | endpoints.py:875-880 | there are no inversions exactly when the list is sorted |
| Validation.CountInversions | endpoints.py:875-880 | the nested loops count the pairs a < b with s[a] > s[b] |
| Validation.Inversions | endpoints.py:875-880 | the number of pairs a < b with s[a] > s[b] |
| Validation.EmptyRowFrom | endpoints.py:883-887 | the blank-row value is at most 4 |
| Validation.EmptyRowIsBlankRow | endpoints.py:883-887 | on a valid board the value found is 4 minus the blank's row index |
| Validation.EmptyRow | endpoints.py:883-887 | the loop returns the first row holding 0, counted from the bottom, or 0 |
| Validation.SolvableValid | endpoints.py:892 | on a valid board the parity test is (inversions + 4 - blank row) odd |
| Validation.Solvable | endpoints.py:875-892 | the parity test: inversions of the board without its 0, plus the blank's row counted from the bottom, is odd |
| Validation.NonBlankAppend | endpoints.py:876 | filtering distributes over concatenation |
| Validation.NonBlankNoZero | endpoints.py:876 | filtering a list without 0 changes nothing |
| Validation.NonBlankLastBlank | endpoints.py:876 | a board whose only 0 is last filters to its first 15 cells |
| Validation.InOrderSolvable | endpoints.py:875-892 | a board reading 1..15 then the blank passes the parity test |
| Validation.BottomBlankRow | endpoints.py:883-887 | a board whose only 0 is its last cell has blank row 1 from the bottom |
| Validation.GoalSolvable | endpoints.py:889-892 | the goal passes the parity test |
| Validation.OneSwapUnsolvable | endpoints.py:875-892 | a board reading 1..13, 15, 14 then the blank fails the parity test |
| Validation.FlattenSwapped | endpoints.py:867 | the goal with 14 and 15 exchanged reads 1..13, 15, 14, 0 |
| Validation.SwappedUnsolvable | endpoints.py:866-892 | the goal with 14 and 15 exchanged is well-formed but fails the parity test |
| Validation.CheckPuzzle | endpoints.py:848-898 | each failed check gives its own reply in the source's order. A puzzle is accepted exactly when it is 4 rows of 4 numbers, a permutation of 0..15 and passes the parity test |
| Validation.ApiSolve | endpoints.py:842-916 | a puzzle failing a check gets that check's own reply, in the source's order: row count, first bad line, permutation, parity. An accepted puzzle gets exactly the moves `ida_star` returns for it (IdaStarValue), or the no-solution reply when that is `None`. Moves sent back replay from the puzzle to the goal, and the goal gets `[]` |
| Validation.SolveChecked | endpoints.py:899-916 | for a checked puzzle the reply carries exactly the moves `ida_star` returns (IdaStarValue), or is the no-solution reply on `None`; moves sent back replay from the puzzle to the goal, and the goal gets `[]` |

## Left out

- The Flask application: routes, HTML templates, `request.get_json` and `jsonify`. `ApiSolve` takes the puzzle text already split into lines and returns `Result` values; `Message` holds the reply texts.
- Text parsing: `strip`, `split` and the blank-line filter. Each input line arrives as a `Line`, either its numbers or `Unparsable` for a field `int` rejects.
- The generic `except Exception` handler: no modelled step raises anything but the `ValueError` case.
- Clock reads (`time.time()`) and the reported solve time.
- solve.py's pygame window, `read_puzzle`, the `output.txt` file, `print` and the environment variable.
- Optimality and admissibility of the returned solution: the source never checks them.
- Search.RunPasses: solve.py's `while True` has no bound. It is modelled with a pass budget, so nothing is said about the case where the budget runs out.
- Moves.GetNeighbors: the list copies `[row[:] for row in board]` are modelled as values. That the input board is never changed holds by construction, so no contract states it.
- Moves.GetNeighbors: the contract only ties the result to the scan. ValidScan states the result on a valid board: the blank's neighbours, their labels and the move each one is.
- Heuristic.ManhattanLinearConflict: requires every value to be in 0..15. Other values make `goal_positions[val]` raise `KeyError`, and the model leaves that failure out. Valid boards always meet the requirement (ValidInRange).
- Moves.GetNeighborsLastBlank: requires a 0 on the board. Without one, solve.py reads unset `x, y` and fails, and that failure is not modelled.
- Moves.ApplyMove: requires a 0 in the array for the same reason.
- Search.RunPasses: requires a valid start board. endpoints.py validates the puzzle before it calls `ida_star` (endpoints.py:866-898), but solve.py hands the rows `read_puzzle` returns (solve.py:20-23) straight to `ida_star` (solve.py:174-178). Such a start is not modelled. On it solve.py raises `KeyError` in the heuristic for a value outside 0..15, `UnboundLocalError` when there is no 0, and `IndexError` when a row is shorter than four or the file has fewer than four lines. With a repeated tile it can never reach the goal, because a move keeps the multiset of cells. A row longer than four has its extra cells ignored by the heuristic and the generator, but it keeps `is_goal` from ever holding, so solve.py's `while True` never ends.
- Search.Search: requires a well-formed path, a chain of neighbour steps from a valid start, as `ida_star` builds from a valid start board.
- Solvability: the model does not prove that the parity test separates solvable from unsolvable boards, nor that a move keeps the parity.
