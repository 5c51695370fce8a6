# N-puzzle solver core, modelled in Dafny

This project models the core of a Rust N-puzzle solver: a sliding-tile board of side `n` holding the
labels `0 .. n*n-1`, with 0 the blank. It covers how the solver reads a puzzle file, decides whether the
puzzle can be solved, builds its goal boards, moves the blank, estimates distances and searches with
IDA*. Each core file has its own module:

- `Puzzles` (`puzzles.dfy`, from `src/puzzle.rs`)
  - The board record is `Puzzle(n, flat, end, blank, was)`.
    - `end` is the goal table: `end[v]` is the goal index of label `v`.
    - `blank` is the cached blank index; `was` is the move that would undo the last one.
  - The blank search, the move listing and the four swaps are here. The swaps work in place on the
    `array` of the class `Board`.
  - Also here: the neighbours of a board, and the equality and order of boards.
- `Moves` (`moves.dfy`, from `src/moves.rs`): `opposite`, the move listing that leaves out the move
  undoing the last one, and `apply`, in place on a `Board`.
- `Tiles` (`tiles.dfy`, from `src/tile.rs`): a tile and its row and column conflicts.
- `Graph` (`graph.dfy`, from `src/graph.rs`)
  - The linear-conflict graph is the class `LinearConflictGraph`, whose `map` field its methods update.
  - The well-formedness invariant those methods keep is proved.
  - So is the greedy count of removals the heuristics make.
- `Heuristics` (`heuristics.dfy`, from `src/heuristics.rs`) and `Heuristic` (`heuristic.dfy`, from
  `src/heuristic.rs`)
  - The zero, Hamming, Manhattan and linear-conflict estimates, and the dispatch that picks one.
  - `ConflictExamples` (`conflict_examples.dfy`) holds the linear-conflict test boards.
- `Inversions` (`inversions.dfy`, from `src/inversions.rs`): the merge-sort and naive inversion
  counters, both proved equal to the inversion count.
- `Validity` (`validity.dfy`, from `src/validity.rs`)
  - The solvability test: the parity rule on tile inversions and on the blank's row counted from the
    bottom.
  - Proved: the rule is invariant under every legal slide.
- `Generate` (`generate.dfy`, from `src/generate.rs`): the classic, reversed and snail goal boards. The
  snail spiral fills an `array` ring by ring.
- `IdaStar` (`ida_star.dfy`, from `src/ida_star.rs`)
  - The recursive bounded search over a path held in the class `PathStack`.
  - The outer loop that raises the bound.
- `Parsing` (`parsing.dfy`, from `src/parsing.rs`)
  - Comment removal, `trim`, `split_whitespace`, unsigned number parsing, and the parse of the side and
    of the matrix.
  - The round trip from a written puzzle back to its side and matrix.
- `Seqs` (`seqs.dfy`) and `Wrappers` (`wrappers.dfy`): helpers shared by these modules.
  - `Seqs`: `position`, `swap`, `remove`, `reverse` and filtering on sequences.
  - `Wrappers`: `Option` and `Result`.

Integers are mathematical. Tiles are `u16` in the source; the parser enforces that bound, and
elsewhere labels are plain naturals. The heuristic functions take the board and its goal table as a
record, and the IDA* search takes the heuristic and the neighbour generator as function parameters.

## Model

| member | source | states |
|---|---|---|
| `Puzzles.FromMatrix` | src/puzzle.rs:26-39 | The board is the rows concatenated, ragged or not; for a square matrix that is row-major order: `msize` rows of `msize` give `msize * msize` cells, entry `(i, j)` at `i * msize + j`; the cached blank is the first index of 0, as `blank()` finds it, and holds a 0 when there is one |
| `Puzzles.FlattenRowMajor` | src/puzzle.rs:29-33 | Concatenating rows of equal length `m` gives as many cells as rows times `m` with entry `(i, j)` at `i * m + j` |
| `Puzzles.Blank` | src/puzzle.rs:146-151 | The first index holding 0, for a board with a blank |
| `Puzzles.OnGridMeaning` | src/puzzle.rs:65-88 | The row and column tests of `moves` accept a direction exactly when the cell the blank moves to exists and shares a side with it |
| `Puzzles.SelectedMeaning` | src/puzzle.rs:70-87 | The listing holds a direction iff its flag is set, never `Hold`, in the order Up, Down, Left, Right |
| `Puzzles.DirectionsMeaning` | src/puzzle.rs:65-88 | A direction is listed iff it passes the grid test and is not the excluded one; the list is in source order without repetition |
| `Puzzles.Moves` | src/puzzle.rs:65-88 | `moves` lists exactly the directions that keep the blank on the grid, in the order Up, Down, Left, Right |
| `Puzzles.Board.Swap` | src/puzzle.rs:90-120 | `swap_up` / `swap_down` / `swap_left` / `swap_right` trade the first 0 with its neighbour in place; the new board is `Slid` of the old one |
| `Puzzles.NewState` | src/puzzle.rs:122-133 | A clone with the blank slid: the two cells exchanged, every other cell, the labels and the other fields unchanged |
| `Puzzles.SquareCanExpand` | src/puzzle.rs:135-144 | On a square board with a blank every listed move can be played without a panic |
| `Puzzles.SuccessorsComplete` | src/puzzle.rs:135-144 | Every legal slide of a board gives one of its neighbours |
| `Puzzles.SuccessorsSound` | src/puzzle.rs:135-144 | At most four neighbours, each one legal slide away, each with the same labels, side and goal table |
| `Puzzles.Neighbors` | src/puzzle.rs:135-144 | `neighbors` returns one new board per listed move, in order |
| `Puzzles.LexCompareEqual` | src/puzzle.rs:168-172 | The order on tile arrays says `Equal` exactly on equal arrays |
| `Puzzles.LexCompareFlip` | src/puzzle.rs:168-172 | Swapping the arguments flips the answer |
| `Puzzles.LexCompareTransitive` | src/puzzle.rs:168-172 | `Less` is transitive |
| `Puzzles.CompareAgreesWithSame` | src/puzzle.rs:168-184 | `cmp` says `Equal` exactly when `eq` holds, and both read only the tile arrays |
| `Moves.Opposite` | src/moves.rs:13-21 | The opposite of a direction is another direction, `Hold` maps to itself, and sliding in a direction then in its opposite returns to the start |
| `Moves.OppositeInvolutive` | src/moves.rs:13-21 | The opposite of the opposite is the move itself |
| `Moves.PrunedMoves` | src/moves.rs:23-44 | `Move::moves` lists exactly the directions that pass the grid test for the cached blank and differ from `was`, in source order |
| `Moves.Apply` | src/moves.rs:46-61 | `apply` changes the board in place to `Applied`: the cached blank traded with its neighbour and moved there, `was` set to the opposite |
| `Moves.AppliedInvariant` | src/moves.rs:46-61 | `apply` keeps the labels, the side and the goal table, keeps the cached blank on a 0 and records the opposite move |
| `Moves.AppliedUndo` | src/moves.rs:46-61 | Applying the opposite right after a move restores the tiles and the blank |
| `Moves.NoImmediateUndo` | src/moves.rs:23-61 | After a move, the next listing never offers the move that undoes it |
| `Moves.ListedMovesApply` | src/moves.rs:23-61 | On a square board every listed move applies and takes the blank to a grid neighbour |
| `Moves.AppliedAgreesWithSlid` | src/moves.rs:46-61 | With the cached blank on the first 0, `apply` moves the tiles as `puzzle.rs`'s swaps do |
| `Tiles.NewTile` | src/tile.rs:15-26 | A tile carries the label at its cell, its position, and the goal cell that decodes `end[label]` |
| `Tiles.ConflictStrict` | src/tile.rs:28-42 | The conflict tests are strict: never a tile with itself, never both ways, never with the blank |
| `Tiles.ColIsTransposedRow` | src/tile.rs:28-42 | The column test is the row test on transposed tiles |
| `Tiles.RowConflictMeaning` | src/tile.rs:28-34 | Two tiles of one row conflict iff both are labels at home in that goal row with their goals in reverse order |
| `Seqs.IndexOf` | src/puzzle.rs:146-151 | The first position of a value, or the length when absent |
| `Seqs.Swapped` | src/moves.rs:47-50 | `slice::swap` exchanges two entries and keeps the rest and the multiset |
| `Seqs.RemoveFirstAt` | src/graph.rs:38-40 | Removing at the `position` of a value removes its first occurrence |
| `Seqs.RemoveFirstMultiset` | src/graph.rs:38-40 | Removing an occurring value takes exactly one copy out of the multiset |
| `Graph.LinearConflictGraph.constructor` | src/graph.rs:9-13 | A new graph has no entry and is well formed |
| `Graph.LinearConflictGraph.Push` | src/graph.rs:15-23 | `push` appends `t2` to the list of `t1`, creating the entry if needed |
| `Graph.LinearConflictGraph.PushConflict` | src/graph.rs:25-28 | `push_conflict` records the conflict on both sides and keeps the graph well formed for distinct labels |
| `Graph.PushedPairWellFormed` | src/graph.rs:25-28 | Recording a conflict between two labels keeps every conflict listed equally often on both sides |
| `Graph.LinearConflictGraph.IsConflicts` | src/graph.rs:30-32 | `is_conflicts` holds exactly when the graph has an entry |
| `Graph.LinearConflictGraph.RemoveConflictWith` | src/graph.rs:34-46 | `remove_conflict_with` gives `Removed`: the entry dropped, the label removed once from each list it appears in, emptied lists dropped |
| `Graph.RemovedCounts` | src/graph.rs:34-46 | Removal takes away exactly the conflicts of the label, keeps the others, shrinks the key set and keeps the graph well formed |
| `Graph.StageEnd` | src/graph.rs:36-45 | The loop over the removed label's links ends in `Removed` |
| `Graph.LinearConflictGraph.MostConflicts` | src/graph.rs:48-56 | `most_conflicts` returns a label whose list is as long as any |
| `Graph.GreedyBound` | src/heuristics.rs:108-112 | The greedy removal loop makes no removal exactly on an empty graph, and never more removals than entries |
| `Graph.GreedyOneEdge` | src/heuristics.rs:108-112 | A single conflict costs one removal |
| `Graph.GreedyTriangle` | src/heuristics.rs:108-112 | Three mutually conflicting labels cost two removals, whichever is removed first |
| `Graph.LinearConflictGraph.PushConflictExample` | src/graph.rs:69-80 | `push_conflict(1, 2)` and `push_conflict(1, 3)` build `{1: [2, 3], 2: [1], 3: [1]}` |
| `Graph.LinearConflictGraph.RemoveConflictExamples` | src/graph.rs:83-106 | On that graph removing 2 then 3, or removing 1, leaves it empty |
| `Graph.LinearConflictGraph.MostConflictsExample` | src/graph.rs:109-117 | With conflicts 1-2, 1-3, 2-3 and 1-4, label 1 is the only label of most conflicts |
| `Heuristics.ZeroEstimate` | src/heuristics.rs:20-34 | The zero heuristic is 0 |
| `Heuristics.Difference` | src/heuristics.rs:31-33 | `difference` is 0 for every heuristic |
| `Heuristics.Hamming` | src/heuristics.rs:38-48 | `hamming_distance` counts the cells whose label is away from its goal index |
| `Heuristics.HammingMeaning` | src/heuristics.rs:38-48 | The Hamming count is at most the cell count, and 0 exactly on a board in goal position |
| `Heuristics.ManhattanSum` | src/heuristics.rs:62-81 | `manhattan_distance` sums, over every label but the blank, the grid steps to its goal index |
| `Heuristics.CellDistanceZero` | src/heuristics.rs:70-77 | Two cells are no step apart exactly when they are the same cell |
| `Heuristics.ManhattanZero` | src/heuristics.rs:62-81 | The Manhattan distance is 0 exactly when every label but the blank is home, in particular in goal position |
| `Heuristics.ManhattanExchanged` | src/heuristics.rs:62-81 | A goal board with two labels exchanged is twice their distance away |
| `Heuristics.LineTile` | src/heuristics.rs:101-102 | Tile `k` of a row or column is `Tile::new` at that cell, its goal decoded from the goal table |
| `Heuristics.ConflictDistinct` | src/heuristics.rs:103-104 | Two conflicting tiles of a line carry different labels |
| `Heuristics.LineGraphWellFormed` | src/heuristics.rs:99-107 | The conflict graph the nested loops build is well formed |
| `Heuristics.LineGraphMeaning` | src/heuristics.rs:96-107 | The graph of a line is empty exactly when no two of its tiles conflict, and has at most one entry per tile |
| `Heuristics.BuildLineGraph` | src/heuristics.rs:97-107 | The nested loops leave in a fresh graph every conflicting pair of the line, in loop order |
| `Heuristics.CountRemovals` | src/heuristics.rs:108-113 | The closing loop returns a greedy count of removals of the graph it started from |
| `Heuristics.LineConflicts` | src/heuristics.rs:96-134 | `linear_row_conflicts` and `linear_col_conflicts` return a greedy removal count of the line's conflict graph |
| `Heuristics.LineCountMeaning` | src/heuristics.rs:96-134 | A line's count is 0 exactly when it has no conflict, and at most the side |
| `Heuristics.GoalConflictFree` | src/heuristics.rs:96-134 | A board in goal position has no conflict on any line |
| `Heuristics.LinearConflictsSum` | src/heuristics.rs:136-143 | `linear_conflicts_sum` is the sum of one row count and one column count per line index |
| `Heuristics.ConflictSumMeaning` | src/heuristics.rs:136-143 | Any value `linear_conflicts_sum` can return is 0 exactly when no line has a conflict, and at most `2 n^2` |
| `Heuristics.LineCountsZero` | src/heuristics.rs:136-143 | The sum is 0 exactly when no line has a conflict |
| `Heuristics.LineCountsBound` | src/heuristics.rs:136-143 | The sum is at most `n` per row and per column |
| `Heuristics.LinearConflictsEstimate` | src/heuristics.rs:148-151 | `linear_conflicts` is the Manhattan distance plus twice the conflict sum |
| `Heuristics.LinearConflictsMeaning` | src/heuristics.rs:148-151 | The estimate exceeds the Manhattan distance by at most `4 n^2`, equals it exactly when no line conflicts, and is 0 in goal position |
| `Heuristics.LinearConflictEstimateMeaning` | src/heuristics.rs:148-151 | Any value `linear_conflicts` can return lies between the Manhattan distance and that plus `4 n^2`, equals the Manhattan distance exactly when no line conflicts, and is 0 in goal position |
| `Heuristics.Estimate` | src/heuristics.rs:154-170 | `get_heuristic(kind).first_time` computes the estimate of the chosen kind |
| `Heuristics.EstimateAtGoal` | src/heuristics.rs:154-170 | Every estimate is 0 on a board in goal position |
| `Heuristics.GoalTableOf` | src/heuristics.rs:191-197 | A table that locates every label of a goal without repeats is that goal's table |
| `Heuristics.TestGoalTables` | src/heuristics.rs:191-233 | The goal tables used in the tests are those of the classic and snail 3x3 goals |
| `Heuristics.TestGoalTable4` | src/heuristics.rs:250-275 | The 4x4 goal table used in the test is that of the classic 4x4 goal |
| `Heuristics.ClassicManhattan8` | src/heuristics.rs:178-211 | The first test board is 8 steps from the classic goal |
| `Heuristics.ClassicManhattan9` | src/heuristics.rs:178-211 | The second test board is 9 steps from the classic goal |
| `Heuristics.ClassicManhattan10` | src/heuristics.rs:178-211 | The third test board is 10 steps from the classic goal |
| `Heuristics.SnailManhattan12` | src/heuristics.rs:214-247 | The first test board is 12 steps from the snail goal |
| `Heuristics.SnailManhattan11` | src/heuristics.rs:214-247 | The second test board is 11 steps from the snail goal |
| `Heuristics.SnailManhattan16` | src/heuristics.rs:214-247 | The third test board is 16 steps from the snail goal |
| `Heuristics.BigClassicManhattan2` | src/heuristics.rs:250-275 | The 4x4 classic goal with 1 and 2 exchanged is 2 steps away |
| `ConflictExamples.LinearConflictsSum1` | src/heuristics.rs:306-327 | The conflict sum of `0 2 1 / 7 4 5 / 6 3 8` is 1 whatever label of most conflicts the loop removes |
| `ConflictExamples.LinearConflictsSum3` | src/heuristics.rs:306-328 | The conflict sum of `0 2 1 / 5 4 3 / 6 7 8` is 3 |
| `ConflictExamples.LinearConflictsSum5` | src/heuristics.rs:306-329 | The conflict sum of `2 7 0 / 5 4 3 / 8 1 6` is 5 |
| `Heuristic.Hamming` | src/heuristic.rs:17-25 | `hamming_distance` counts the cells where the two boards differ |
| `Heuristic.MismatchesMeaning` | src/heuristic.rs:17-25 | The count is at most the cell count and 0 exactly when the boards agree |
| `Heuristic.HammingZero` | src/heuristic.rs:17-25 | On boards of one size the count is 0 exactly when they are equal |
| `Heuristic.HammingAgrees` | src/heuristic.rs:17-25 | Against the goal board, this count is the goal-table count of `heuristics.rs` |
| `Heuristic.Manhattan` | src/heuristic.rs:27-44 | `manhattan_distance` is the Manhattan distance of the first board; the second is ignored |
| `Heuristic.LineConflicts` | src/heuristic.rs:46-93 | `line_conflicts` sums a greedy row count and column count per line of the first board |
| `Heuristic.LinearConflictOf` | src/heuristic.rs:98-100 | `linear_conflict` is the Manhattan distance plus twice the line conflicts |
| `Heuristic.Apply` | src/heuristic.rs:102-113 | The function `get_heuristic` picks computes the chosen estimate |
| `Heuristic.ApplyAtGoal` | src/heuristic.rs:102-113 | Every choice gives 0 on a board in goal position compared with its goal |
| `Inversions.PairsConcat` | src/inversions.rs:21-30 | The inversions of a concatenation are those inside each part plus those across |
| `Inversions.PairsZero` | src/inversions.rs:21-30 | A sequence has no inversion exactly when it is sorted |
| `Inversions.CrossPermutation` | src/inversions.rs:26-29 | The inversions across two parts depend only on the parts' multisets |
| `Inversions.MergeMeaning` | src/inversions.rs:1-19 | Merging two sorted sequences gives a sorted permutation of both |
| `Inversions.MergeCountSplit` | src/inversions.rs:1-19 | `merge_count_split_inversion` returns the merge and the number of inversions across the two sorted sides |
| `Inversions.MergeCountInversion` | src/inversions.rs:21-30 | `merge_count_inversion` returns a sorted permutation of the input and its inversion count |
| `Inversions.MergeSort` | src/inversions.rs:35-38 | `merge_sort` returns the inversion count |
| `Inversions.Naive` | src/inversions.rs:40-51 | `naive` returns the inversion count, so it agrees with `merge_sort` on every input |
| `Inversions.PairsByPosition` | src/inversions.rs:42-48 | The count read position by position, as the double loop reads it, is the inversion count |
| `Inversions.Known1Count` | src/inversions.rs:58-66 | The first test vector has 49 inversions |
| `Inversions.Known2Count` | src/inversions.rs:59-67 | The second test vector has 48 inversions |
| `Inversions.Known3Count` | src/inversions.rs:60-68 | The third test vector has 9 inversions |
| `Inversions.Known4Count` | src/inversions.rs:61-69 | The fourth test vector has 11 inversions |
| `Validity.InversionCount` | src/validity.rs:3-13 | `get_inversion_count` counts the pairs `i < j` of non-blank tiles with `s[i] > s[j]` |
| `Validity.TileInversionsFilter` | src/validity.rs:3-13 | That count is the inversion count of the tiles with the blank left out |
| `Validity.BlankFreeCounts` | src/validity.rs:62-65 | `[3, 1, 2]` has 2 inversions and `[8, 4, 2, 1]` has 6 |
| `Validity.Blanked1Count` | src/validity.rs:69-72 | The first test vector with a blank counts 49 |
| `Validity.Blanked2Count` | src/validity.rs:73-76 | The second counts 48 |
| `Validity.Blanked3Count` | src/validity.rs:77 | The third counts 9 |
| `Validity.Blanked4Count` | src/validity.rs:78 | The fourth counts 11 |
| `Validity.BlankIndex` | src/validity.rs:15-22 | `get_blank_index` returns the first index holding the blank |
| `Validity.DistinctBlank` | src/validity.rs:15-22 | With distinct labels that blank is the only one |
| `Validity.BlankRowRange` | src/validity.rs:24-26 | On a square board the blank row from the bottom lies in `1 .. msize` |
| `Validity.BlankRowFromBottom` | src/validity.rs:24-26 | `get_blank_row_from_bottom` is `msize` minus the blank's row |
| `Validity.BlankRow1` | src/validity.rs:83-89 | The blank of the first 4x4 test vector is on row 2 from the bottom |
| `Validity.BlankRow2` | src/validity.rs:90-96 | The blank of the second is on row 3 |
| `Validity.BlankRowsCorner` | src/validity.rs:97-107 | A blank in the top-left corner is on row `msize` from the bottom |
| `Validity.IsSolvable` | src/validity.rs:38-46 | `is_solvable` decides the parity rule: even inversions on an odd width; on an even width, inversion parity opposite to the blank row's |
| `Validity.SwapParity` | src/validity.rs:38-46 | Exchanging the blank with a tile changes the tile inversion count by the parity of the number of cells between them |
| `Validity.SolvableKept` | src/validity.rs:38-46 | Every legal slide keeps the parity rule's verdict |
| `Validity.IsFormatCoherent` | src/validity.rs:48-50 | `is_format_coherent` holds iff there are `msize` rows of `msize` entries; the flattened board then has `msize * msize` cells |
| `Validity.CheckPuzzle` | src/validity.rs:52-55 | Among coherent matrices of positive side that hold a blank when the side is even, `check_puzzle` accepts exactly those whose flattening satisfies the parity rule; a matrix that is not coherent is rejected |
| `Validity.InsertedSolvable` | src/validity.rs:38-46 | On a board of blank-free tiles with one blank inserted, the rule reads the tiles' inversion count and the insertion row |
| `Validity.CheckSolved` | src/validity.rs:111-123 | `check_puzzle` accepts the solved 4x4 board |
| `Validity.CheckSwapped` | src/validity.rs:124-135 | `check_puzzle` rejects the solved 4x4 board with 14 and 15 exchanged |
| `Generate.GenerateClassic` | src/generate.rs:4-11 | `generate_classic` pushes `1 .. n*n` in order |
| `Generate.NewClassic` | src/generate.rs:13-25 | `new_classic` is the classic goal with the blank in the last cell |
| `Generate.ClassicArrangement` | src/generate.rs:13-25 | The classic goal holds each of `0 .. n*n-1` exactly once |
| `Generate.ClassicBlank` | src/generate.rs:13-25 | Its blank is the last cell and every other cell holds its index plus one |
| `Generate.NewReverse` | src/generate.rs:27-33 | `new_reverse` is the classic goal reversed, the blank looked up again |
| `Generate.ReverseBlank` | src/generate.rs:27-33 | The reversed board starts with the blank and counts down from `n*n - 1` |
| `Generate.ReversedArrangement` | src/generate.rs:27-33 | Reversing keeps each of `0 .. n*n-1` exactly once |
| `Generate.SnailRound` | src/generate.rs:44-64 | One round of the spiral writes ring `d` in order and shrinks the four bounds by one |
| `Generate.GenerateSnail` | src/generate.rs:37-67 | `generate_snail` fills every cell with its spiral number |
| `Generate.SnailNumbers` | src/generate.rs:37-67 | The spiral numbers the cells `1 .. n*n`, each number once |
| `Generate.CentreLast` | src/generate.rs:37-67 | The spiral ends with `n*n` on the centre cell |
| `Generate.SnailCentre` | src/generate.rs:69-73 | `get_index_of(flat, n*n)` finds the centre cell |
| `Generate.NewSnail` | src/generate.rs:69-81 | `new_snail` is the spiral with the blank on the centre cell |
| `Generate.SnailBoard` | src/generate.rs:69-81 | The snail goal holds each of `0 .. n*n-1` exactly once |
| `Generate.SnailBlank` | src/generate.rs:69-81 | The blank of the snail goal is found on the centre cell |
| `Generate.SnailGoalThree` | src/generate.rs:100-110 | The 3x3 snail goal is `1 2 3 / 8 0 4 / 7 6 5` with the blank at 4 |
| `Generate.SnailGoalFour` | src/generate.rs:112-123 | The 4x4 snail goal, cell by cell, with the blank at 9 |
| `Generate.SnailGoalFive` | src/generate.rs:125-137 | The 5x5 snail goal, cell by cell, with the blank at 12 |
| `IdaStar.SquareSuccessors` | src/puzzle.rs:135-144 | The neighbours of a square board are square, so the search can keep expanding |
| `IdaStar.FreshMeaning` | src/ida_star.rs:53-63 | The `filter_map` keeps exactly the neighbours not on the path, each with the estimate `g + h + 1` |
| `IdaStar.SortPermutes` | src/ida_star.rs:64 | `sort_by_key` only reorders |
| `IdaStar.SortSorted` | src/ida_star.rs:64 | The sort leaves the estimates ascending |
| `IdaStar.SortStable` | src/ida_star.rs:64 | The sort is stable: entries of one estimate keep their order |
| `IdaStar.ChildrenMeaning` | src/ida_star.rs:53-64 | The explored children are the neighbours of the last board not on the path, with their estimates |
| `IdaStar.ChildrenSorted` | src/ida_star.rs:53-64 | The children are explored in ascending order of estimate |
| `IdaStar.Lower` | src/ida_star.rs:68-76 | The kept minimum never grows and takes a reported `Minimum` only when it is lower |
| `IdaStar.Outcome` | src/ida_star.rs:37-84 | `search` only extends the path, and only on `Found`; a `Minimum` lies past the bound |
| `IdaStar.OutcomeFound` | src/ida_star.rs:37-84 | On `Found` the path ends at a board equal to the goal, each added board a neighbour of the one before, with no board repeated |
| `IdaStar.ExploreLeast` | src/ida_star.rs:65-83 | The `Minimum` the loop returns is at most every `Minimum` a child reported; `NotFound` means none did |
| `IdaStar.ExploreAttained` | src/ida_star.rs:65-83 | The `Minimum` the loop returns is the one carried in or one a child reported |
| `IdaStar.ExploreDecided` | src/ida_star.rs:65-83 | The loop returns `Found` when a child does, and `NotFound` when none was carried in and every child reported `NotFound` |
| `IdaStar.OutcomeOfChildren` | src/ida_star.rs:37-84 | Within the bound and off the goal, `search` is `Found` iff a child found it, `NotFound` iff every child reported `NotFound`, and otherwise the least `Minimum` a child reported |
| `IdaStar.FoundSolution` | src/ida_star.rs:20-30 | When the search from the start board finds the goal, the returned path starts at the start board, ends at a board equal to the goal, repeats no board and moves by legal slides |
| `IdaStar.ExpandSteps` | src/ida_star.rs:53-67 | A path from a square board through the neighbour generator moves by legal slides |
| `IdaStar.PathStack.constructor` | src/ida_star.rs:20 | The path starts as the start board alone |
| `IdaStar.Search` | src/ida_star.rs:37-84 | `search` on the path stack returns `Outcome` and leaves the path `Outcome` gives |
| `IdaStar.SearchChildren` | src/ida_star.rs:65-83 | The loop pushes each child, searches it one level deeper, returns on `Found`, else keeps the least `Minimum` and pops |
| `IdaStar.IdaStarRun` | src/ida_star.rs:14-35 | From a square start (elsewhere `neighbors` panics), the first bound is the start estimate and each later bound is the previous search's `Minimum`, strictly larger; a solution is a path without repeats, of legal slides, from the start to a board equal to the goal |
| `Parsing.BeforeHash` | src/parsing.rs:19 | The text before the first `#` is a prefix of the line with no `#`, followed by `#` when shorter |
| `Parsing.SanitizeComments` | src/parsing.rs:16-23 | `sanitize_comments` keeps no more lines than it gets, each non-empty and without `#` |
| `Parsing.SanitizeAppend` | src/parsing.rs:16-23 | Sanitizing works line by line |
| `Parsing.SanitizeKeeps` | src/parsing.rs:16-23 | Every line with text before its comment survives |
| `Parsing.SanitizeFrom` | src/parsing.rs:16-23 | Every surviving line is the uncommented text of an input line |
| `Parsing.SanitizeClean` | src/parsing.rs:16-23 | Non-empty lines without `#` pass through unchanged |
| `Parsing.SanitizeIdempotent` | src/parsing.rs:16-23 | Sanitizing twice is sanitizing once |
| `Parsing.LeadingSpaces` | src/parsing.rs:26 | The count of leading white space: all white before it, none at it |
| `Parsing.TextEnd` | src/parsing.rs:26 | Where the text ends: only white space after it, none just before it |
| `Parsing.TrimOf` | src/parsing.rs:26 | `trim` removes the white space around the text and nothing else |
| `Parsing.SplitWhitespace` | src/parsing.rs:33 | `split_whitespace` yields non-empty tokens without white space |
| `Parsing.SplitUnwords` | src/parsing.rs:33 | Splitting words joined by white space gives the words back |
| `Parsing.ParseUnsigned` | src/parsing.rs:26-34 | `parse` of an unsigned type succeeds only on a non-empty token without white space, with a value at most the type's maximum |
| `Parsing.ParseShow` | src/parsing.rs:26-34 | A number in range, printed and parsed, gives the number |
| `Parsing.ParsePlus` | src/parsing.rs:26-34 | A single leading `+` is accepted |
| `Parsing.ParseSign` | src/parsing.rs:26-34 | A leading `-` and a lone `+` are errors |
| `Parsing.ParseMatrixSize` | src/parsing.rs:25-27 | `parse_matrix_size` reads a `usize` |
| `Parsing.ParseSizeShow` | src/parsing.rs:25-27 | A side written between white space reads back as itself |
| `Parsing.ParseNumbers` | src/parsing.rs:33-35 | A row parses iff every token is a `u16`, giving one value per token |
| `Parsing.ParseMatrix` | src/parsing.rs:29-38 | `parse_matrix` succeeds iff every line parses, giving one row per line |
| `Parsing.ParseMatrixBound` | src/parsing.rs:29-38 | Every tile read is at most 65535 |
| `Parsing.ParseRender` | src/parsing.rs:29-38 | Writing a matrix of `u16` tiles line by line and parsing it gives the matrix |
| `Parsing.ParsePuzzle` | src/parsing.rs:40-46 | `parse_puzzle` reads the side from the first surviving line and one row per later line, failing when either parse fails |
| `Parsing.ParsePuzzleText` | src/parsing.rs:40-46 | A written puzzle file (comment, side, rows) parses back to its side and matrix |
| `Parsing.ParseSubjectOne` | src/parsing.rs:59-65 | The first test file parses to side 3 and `3 2 6 / 1 4 0 / 8 7 5` |

## Left out

- Reading the file from disk (`read_file`) and the I/O error it can return are not modelled.
  - `Parsing.ParsePuzzle` starts from the file's lines as `BufRead::lines` returns them.
  - The test with a missing file is left out for the same reason.
- `Parsing.ParseSubjectOne`: `puzzles/subject-1.txt` is not part of this model. The lemma takes that file
  to be a comment line, the side and the three rows.
  - The tests on `subject-2.txt` and `subject-3.txt` are left out: the files are not available.
- `Validity.CheckPuzzle` requires a coherent matrix to have a positive side, and a blank when the side is
  even. On a coherent matrix of side 0 the source panics at `arr.len() - 1` in `get_inversion_count`. On a
  coherent even-sided matrix without 0 it reaches `panic!` in `get_blank_index`. No caller checks for
  either case first, so a puzzle file can trigger both; the model does not describe those panics.
- Other members require what the source needs to avoid a panic, and do not describe the panic:
  - `Generate.NewClassic`, `Generate.NewReverse` and `Generate.NewSnail` require `n > 0`.
  - `Heuristic.Hamming` requires `p1` to be no longer than `p2`, where the source indexes `p2` out of
    bounds.
  - `Graph.LinearConflictGraph.RemoveConflictWith` requires the tile to have an entry, and
    `Graph.LinearConflictGraph.MostConflicts` a non-empty graph, where the source's `unwrap` calls panic.
  - `Puzzles.Board.Swap` and `Puzzles.NewState` require the target cell to lie in the array
    (`TargetInRange`), where the source's `swap` panics.
  - `Puzzles.Blank` and `Puzzles.Moves` require a 0 on the board, where `blank()`'s `expect` panics.
- `Parsing.ParsePuzzle` requires at least one line to survive comment removal. On a file with none the
  source panics indexing `puzzle_maybe[0]`.
- `Parsing.ParseUnsigned`: says only that an error occurs. Which `ParseIntError` kind is returned (empty,
  invalid digit, overflow) is not modelled.
  - `usize` is taken as 64-bit.
- `randomize` in `src/generate.rs` draws from a random number generator and is not modelled.
  - Its effect is covered by `Moves.PrunedMoves` and `Moves.Apply`.
- `src/a_star.rs`, `src/args.rs`, `src/main.rs` and `src/solution.rs` are not part of this model.
  - These are the A* variant, argument handling, the program driver and the solution printer.
- `src/puzzle.rs` details left out:
  - The `f`, `g`, `h` and `previous` fields are never read by the modelled code.
  - `Debug` formatting is output.
  - `Puzzle::new` and its private `new_classic` build the same board as `Generate.NewClassic`, and `Puzzle::new`
    panics on every other kind.
  - The record carries the `end`, `blank` and `was` fields of the other `Puzzle` that `src/moves.rs` and
    `src/generate.rs` use.
- `get_index_of` and `set_goal` are not part of this model.
  - `get_index_of` is modelled as `Seqs.IndexOf`.
  - The goal table `set_goal` fills is given to the heuristics (see `Heuristics.GoalTable`).
- Integer widths are not modelled: tiles are naturals outside the parser, counts never wrap, and `i16`
  differences are exact.
  - `Generate.GenerateClassic`: does not model the `as u16` truncation of the loop bound, which makes the
    source's board shorter than `n*n` once `n*n` exceeds 65535.
  - `Generate.GenerateSnail`: does not model the `u16` counter `nb` and the `(n * n) as u16` lookup of
    the blank, which wrap once `n*n` exceeds 65535.
  - `Heuristics.ManhattanSum`: does not model the `i16`/`u32` casts, which only matter for boards far
    larger than the solver handles.
- `Inversions.Naive` and `Validity.InversionCount` require a non-empty input. The source computes
  `arr.len() - 1` in `usize` and panics on an empty one.
- `Graph.LinearConflictGraph.MostConflicts`: returns some label of largest degree. Which one `max_by`
  picks depends on the `HashMap` iteration order and is not modelled.
  - The line-conflict counts are therefore stated as greedy counts valid for every such choice.
- `IdaStar.IdaStarRun`: runs at most `rounds` rounds of the outer loop and reports that it stopped.
  - The source loops until `Found` or `NotFound`, and may not terminate.
  - `total_opened` and `max_states` are 0 in the solution, as in the source.
- `IdaStar.Search` takes the neighbour generator as a parameter; `IdaStar.IdaStarRun` passes the board's
  successors (`neighbors`) through `IdaStar.Expand`.
- `IdaStar.Expand`: returns no neighbours on a board that cannot be expanded, where `neighbors` panics
  (no blank, or a move off the array). `IdaStar.IdaStarRun` requires a square start, and every board the
  search reaches from one is square (`IdaStar.SquareSuccessors`), so that case never arises there.
  - The heuristic is any function of the board and the goal, as `&dyn Heuristic` is.
- The 5x5 snail Manhattan test in `src/heuristics.rs` (277-303) is not stated.
- `src/heuristic.rs` has tests (120-248) on the same boards as `src/heuristics.rs`. They are covered
  through `Heuristic.Manhattan` and `Heuristic.LineConflicts`, which compute the same functions as the
  lemmas cited for `src/heuristics.rs`.
- The randomized test of `src/inversions.rs` (93-101) and `test_implem_match` (73-90) are covered by
  `Inversions.Naive` and `Inversions.MergeSort` computing the same count on every input.
- `Generate.SnailGoalFour` and `Generate.SnailGoalFive` state the 4x4 and 5x5 snail goals cell by cell, not
  as one literal sequence.
- `Generate.GenerateSnail`'s loop body is split into `Generate.SnailRound` and `Generate.Put` for the proof.
