# Connect Four move selection (`AIPlayer`), modelled in Dafny

This project models the move-selection engine of a Connect Four player:
`AIPlayer` in `Player.py`. Given a 6 x 7 board (row 0 at the top; 0 marks an
empty cell, 1 and 2 the two players' pieces) and the player's number, the
engine returns the column to play. It has two strategies:

- **Alpha-beta.** Depth-5 minimax with alpha-beta pruning (`get_alpha_beta_move`).
- **Expectimax.** Depth-4 expectimax against an opponent that picks uniformly at random (`get_expectimax_move`).

Both strategies are built on four pieces of shared code:

- the legal-move enumerator (`validMoves`);
- the string-based run detector (`checkBoard`);
- the evaluation (`evaluation_function`);
- a selection step that turns the root's list of `(value, column)` pairs into a column.

The random player's list of candidate columns (`RandomPlayer.get_move`) is modelled with the enumerator.

## Modules

| file | module | models |
|---|---|---|
| `results.dfy` | `Results` | Python exceptions as values: `EmptySequence` (`max` of an empty list), `UnboundColumn` (the root scan finds nothing), `ZeroDivision` |
| `text.dfy` | `Text` | `str(int)`, string repetition, `''.join(a.astype(str))` and substring `in` |
| `board.dfy` | `Board` | the grid as `seq<seq<int>>`; `np.copy` and one cell write on `array2<int>`, tied to the grid by `GridOf` |
| `moves.dfy` | `Legal` | `validMoves`, and the random player's candidate columns |
| `runs.dfy` | `Runs` | `checkBoard`, kept as the source builds it: pattern strings, transpose, mirror and `np.diagonal` offsets |
| `evaluation.dfy` | `Evaluation` | `designateOpponent` and `evaluation_function` |
| `selection.dfy` | `Selection` | the root's `max(values, key=lambda i: i[1])[0]` followed by the `max_val in item` scan |
| `search.dfy` | `Search` | the game tree both searches walk, the leaf rule, and the shared root board copy |
| `alphabeta.dfy` | `AlphaBeta` | `min_value`, `max_value`, `alpha_beta` and the entry point |
| `expectimax.dfy` | `Expectimax` | `expectimax`, `max_value`, `expected_value` and the entry point |

How the searches are modelled:

- **Node values.** The recursion of each search's node functions is the game tree `Search.Tree`:
  - it uses the same leaf test (depth at most 1, or four in a line for either side);
  - it lists the replies in `validMoves` order, each on the board with that reply played.
- **Specifications.** Each node's value is a function on that tree. A loop over replies becomes a recursive helper that carries the loop's variables.
- **Methods.** The source's node functions are imperative methods (`SearchMin`, `SearchMax`, `SearchExpected`). Each copies the `array2` board, writes one cell and loops over the replies. Each is proved equal to the function on the tree.
- **Roots.** The two roots are methods that write into a single board copy, as the source does. Their loop invariants tie the copy, and the list built so far, to the specification.
- **Numbers.** Expectimax values are reals. Python computes them as floats.
- **Input board.** No method has a `modifies` clause on its input board, so the model shows the input board is never changed.

### Where the code departs from its apparent intent

The model follows `Player.py` as written. Each point below is proved:

- **Runs of 2 and 3 are never found.** `checkBoard` builds its search string as `('{0}' * num).format(player) + '{0}' * (4 - num)`. The formatting happens before the padding, so for `num < 4` the string keeps literal `{0}` text. That text never occurs in a string of digits.
  - Consequence: the ±10000 and ±2000 terms of `evaluation_function` are never added.
  - The score is always -200000, 0 or +200000 (`Runs.ShortRunsNeverMatch`, `Evaluation.ScoreIsWinDifference`).
- **The alpha-beta root does not pick the highest-valued column.** The `max` is keyed on the COLUMN, so `max_val` is the value of the last legal column. The scan then returns the first entry whose value *or column number* equals `max_val` (`Selection.SelectAgainstLastValue`, `AlphaBeta.ChoiceAgainstLastColumn`).
  - `Selection.SelectIsNotArgmax`, an example: column 1 valued 3.0 is chosen over column 0 valued 5.0.
  - `Selection.SelectAtOrBeforeMatch`: an entry holding `max_val` bounds the choice from above, so ties go to the LOWER column.
  - `Selection.SelectMatchesColumnNumber`: a column whose index equals `max_val` is chosen.
- **The expectimax root matches values against column numbers.** Its entries record the running maximum, so the last entry holds the best branch value. The scan returns the first column where the running maximum reaches that value, or whose column number equals it (`Expectimax.ChoiceReachesBest`).
  - When the best value is 0.0 and column 0 has space, column 0 is chosen whatever its own value (`Expectimax.ZeroBestPicksColumnZero`).
  - Example: column 0 at -1.0 and column 1 at 0.0 give column 0 (`Expectimax.ColumnNumberBeatsValue`).
- **Root branches share one board.** Both roots copy the board once and write the player's piece into that copy for every legal column in turn. Branch `k` is therefore searched with the pieces of branches `0..k-1` still on the board (`Search.RootBoardsAccumulate`). Inner nodes copy the board for every reply.
- **A full board raises.** With no legal move, both roots call `max()` on an empty list, which raises (`EmptySequence`).
- **Expectimax can divide by zero inside the search.** An inner chance node that has no reply computes `v / 0` (`Expectimax.NoReplyDividesByZero`). This happens on a full board without four in a line and with at least two plies left. The error propagates to the root.

## Model

| member | source | states |
|---|---|---|
| `Board.Place` | Player.py:90 | `mockboard[row][col] = x` on a grid: the result is a 6 x 7 grid holding `x` at the written cell; `Board.WriteIsPlace` states that an array write is exactly this |
| `Board.CopyBoard` | Player.py:89 | `np.copy(board)`: a fresh 6 x 7 array with the same cells as the board |
| `Board.HasSpace` | Player.py:269 | the definition of `0 in board[:, col]`: some row of the column holds 0; `Legal.ColumnListed` and `Legal.ColumnsOfMoves` state that these are exactly the columns `validMoves` lists |
| `Board.PlaceAll` | Player.py:115-118 | the definition of writing the player's piece into one copy for each move in turn; `Board.PlaceAllCells` states that every written cell holds the piece and every other cell keeps its value |
| `Legal.LandingRow` | Player.py:13-16 | the scan from row 5 upward finds a row exactly when the column has an empty cell |
| `Legal.Moves` | Player.py:10-17 | each entry is the landing cell of its column (empty, with only occupied cells below); columns strictly increase; a column is listed iff it has space; the list is empty iff the board is full |
| `Legal.SpaceIsListed` | Player.py:12-16 | after scanning columns 0..n-1, every column below n that has space is listed |
| `Legal.NothingListedWhenFull` | Player.py:10-17 | the scan lists nothing exactly when every cell is occupied |
| `Legal.MovesAtMostSeven` | Player.py:12-16 | at most one move per scanned column |
| `Legal.ValidMoves` | Player.py:10-17 | the nested loop with `break` returns exactly `Moves` of the array's grid |
| `Legal.CandidateColumns` | Player.py:267-270 | the random player's candidates are the columns of `validMoves`, in order |
| `Legal.ColumnsOfMoves` | Player.py:267-270 | a column is a candidate iff it is in range and contains an empty cell |
| `Evaluation.Opponent` | Player.py:19-23 | the opponent is 1 or 2, and it is 2 exactly for player 1 |
| `Evaluation.OpponentSwaps` | Player.py:19-23 | for players 1 and 2 the opponent is the other player, and the opponent's opponent is the player |
| `Text.IntToString` | Player.py:28 | `str(n)` is one character exactly for 0..9, that digit, and otherwise only digits and a minus sign |
| `Text.ToStrDigits` | Player.py:30 | a line of single-digit cells turns into one digit character per cell |
| `Text.ToStr` | Player.py:30 | the definition of `''.join(a.astype(str))` for a line of integer cells; `Text.ToStrNumerals` and `Text.ToStrDigits` state what its text consists of |
| `Text.Repeat` | Player.py:27-29 | `s * n` (lines 27 and 29): for `n > 0` the text starts with `s`; `Text.RepeatFour` states that four copies are `s + s + s + s` |
| `Text.Contains` | Player.py:34 | the definition of `needle in hay`, as also used at lines 46 and 53: the needle occurs at some position; `Text.AbsentCharBlocksMatch` states that a needle character missing from the text rules out a match |
| `Runs.RunPattern` | Player.py:26-29 | the definition of the search string: `num` copies of `str(player)`, then `4 - num` literal `{0}` placeholders; `Runs.ShortRunsNeverMatch` and `Runs.LineFourDigit` state what it matches |
| `Runs.Transpose` | Player.py:39 | `b.T`: seven lines of six cells; `Runs.TransposeRows` states that line c is column c |
| `Runs.Mirror` | Player.py:43 | `np.fliplr`: a 6 x 7 grid; `Runs.MirrorCells` states that cell (r, c) is cell (r, 6 - c) of the board |
| `Runs.Diagonal` | Player.py:45 | `np.diagonal(board, offset=k)`: a line of the diagonal's length; `Runs.DiagonalCells` states which cells it holds |
| `Runs.CheckHorizontal` | Player.py:32-36 | the definition of `check_horizontal`: some line contains the pattern; `Runs.HorizontalFour` characterises it for a run of four |
| `Runs.CheckVertical` | Player.py:38-39 | the definition of `check_vertical` as `check_horizontal` of the transpose; `Runs.VerticalFour` characterises it |
| `Runs.DiagonalsMatch` | Player.py:45-54 | the definition of one pass of `check_diagonal`: the main diagonal, then offsets i and -i for i in 1..3; `Runs.DiagonalsMatchFour` characterises it |
| `Runs.CheckDiagonal` | Player.py:41-56 | the definition of `check_diagonal` on the board and its mirror; `Runs.DiagonalBothFour` characterises it |
| `Runs.CheckBoard` | Player.py:25-60 | the definition of `checkBoard` as horizontal, vertical or diagonal match; `Runs.ShortRunsNeverMatch` and `Runs.CheckBoardFour` state its meaning |
| `Runs.ShortRunsNeverMatch` | Player.py:26-29 | for `num < 4` no row, column or diagonal of any board matches the pattern |
| `Runs.ShortDiagonalNeverMatches` | Player.py:49-54 | the offset -3 diagonal has three cells and can never hold a run of four |
| `Runs.HorizontalFour` | Player.py:32-36 | the row check for four succeeds iff some four horizontally adjacent cells all belong to the player |
| `Runs.VerticalFour` | Player.py:38-39 | the transposed check succeeds iff some four vertically adjacent cells all belong to the player |
| `Runs.DiagonalBothFour` | Player.py:41-56 | the diagonal check on the board and its mirror succeeds iff four cells in a line down-right or down-left all belong to the player |
| `Runs.CheckBoardFour` | Player.py:25-60 | `checkBoard(board, 4, p)` is true iff the player has four in a line in some direction |
| `Evaluation.Score` | Player.py:223-240 | the definition of the six-term sum; `Evaluation.ScoreIsWinDifference`, `Evaluation.ScoreOnBoard` and `Evaluation.ScoreSwapMarks` state its value |
| `Evaluation.ScoreIsWinDifference` | Player.py:223-240 | the score is +200000 for the player's four minus 200000 for the opponent's, hence one of -200000, 0, 200000 |
| `Evaluation.ScoreOnBoard` | Player.py:223-240 | on a board of 0/1/2 cells the score is read off who has four in a line |
| `Evaluation.ScoreAntisymmetric` | Player.py:223-240 | player 1's evaluation of a board is the negation of player 2's |
| `Evaluation.SwapFour` | Player.py:227-230 | after exchanging the pieces, player p has four in a line iff the other player had |
| `Evaluation.ScoreSwapMarks` | Player.py:205-240 | exchanging the two players' pieces negates the evaluation |
| `Evaluation.EvaluationFunction` | Player.py:223-240 | the accumulation of the six terms equals `Score`, and is -200000, 0 or 200000 |
| `Selection.MaxByColumn` | Player.py:121 | the definition of `max(values, key=lambda i: i[1])`; `Selection.MaxByColumnIsFirstGreatest` states which entry it returns |
| `Selection.FirstMatch` | Player.py:122-125 | the definition of the `for item in values` scan, unbound when nothing matches; `Selection.SelectFirstMatch` states its result |
| `Selection.Select` | Player.py:121-126 | the definition of the whole selection, failing on an empty list; `Selection.SelectFirstMatch` and `Selection.SelectAtOrBeforeMatch` state its result |
| `Selection.Matches` | Player.py:123 | the definition of `max_val in item` (also line 169) for a `(value, col)` pair: the target equals the value or the column number; `Selection.SelectMatchesColumnNumber` shows the column-number case deciding the choice |
| `Selection.MaxByColumnIsFirstGreatest` | Player.py:121 | `max` with a column key returns the first entry whose column is greatest |
| `Selection.MaxByColumnIsLast` | Player.py:121 | on a list built in increasing column order, `max` returns the last entry |
| `Selection.SelectFirstMatch` | Player.py:121-126 | on a non-empty list the scan never leaves the column unbound; it returns the column of the first entry whose value or column equals `max_val` |
| `Selection.SelectAgainstLastValue` | Player.py:121-126 | for the roots' lists, the choice is the first entry matching the last entry's value |
| `Selection.SelectIsNotArgmax` | Player.py:121-126 | an example: column 1 valued 3.0 is chosen over column 0 valued 5.0 |
| `Selection.SelectAtOrBeforeMatch` | Player.py:121-126 | on a list in increasing column order, whenever an entry holds `max_val` the choice is that entry's column or a lower one, so ties go to the lower column |
| `Selection.SelectTieGoesToLowerColumn` | Player.py:121-126 | an example: of two entries with equal value, the lower column is chosen |
| `Selection.SelectMatchesColumnNumber` | Player.py:122-125 | `max_val in item` also matches an entry's column number |
| `Selection.SelectColumn` | Player.py:121-126 | the selection loop returns `Select` of the list |
| `Search.IsLeaf` | Player.py:85 | the definition of the leaf test shared by all four node functions: depth at most 1, or four in a line for either side |
| `Search.LeafValue` | Player.py:86 | the definition of `evaluation_function(board) * depth`; `AlphaBeta.LeafNodes` and `Expectimax.LeafNodes` state that the nodes return it |
| `Search.PlayerTree` | Player.py:98-111 | the node is a leaf exactly under the leaf rule, a leaf holds evaluation times depth, and an inner node has one child per legal move |
| `Search.OpponentTree` | Player.py:83-96 | the same for the node where the opponent moves |
| `Search.PlayerChild` | Player.py:103-106 | reply k of a player's node is the opponent's node on the board with the player's piece in the k-th landing cell |
| `Search.OpponentChild` | Player.py:88-91 | reply k of an opponent's node is the player's node on the board with the opponent's piece in the k-th landing cell |
| `Search.PlayOnCopy` | Player.py:89-90 | the copy is fresh and holds the board with one piece added |
| `Search.RootBoardStep` | Player.py:117-118 | writing move k into the root copy gives the board with moves 0..k placed |
| `Search.RootBoard` | Player.py:115-118 | the definition of branch k's board (the same copy at lines 159-162): the board with the player's pieces of moves 0..k written in; `Search.RootBoardStep` and `Search.RootBoardsAccumulate` state how it grows |
| `Search.RootBoardsAccumulate` | Player.py:115-118 | branch k's board holds the player's pieces of all branches 0..k, and from the second branch on it differs from the board with only its own move |
| `Search.RootChoiceIsLegal` | Player.py:121-126 | the root fails iff the board is full, then with `EmptySequence`; otherwise it returns a column with space |
| `AlphaBeta.MinValue` | Player.py:83-96 | `min_value` on the tree; at an inner node it is at most +1000000; `AlphaBeta.MinValueAgrees` relates it to minimax |
| `AlphaBeta.MinLoop` | Player.py:88-96 | the reply loop of `min_value`, with cutoff when `v <= alpha`: it never raises the running value |
| `AlphaBeta.MaxValue` | Player.py:98-111 | `max_value` on the tree; at an inner node it is at least -1000000; `AlphaBeta.MaxValueAgrees` relates it to minimax |
| `AlphaBeta.MaxLoop` | Player.py:103-111 | the reply loop of `max_value`, with cutoff when `v >= beta`: it never lowers the running value |
| `AlphaBeta.NoReplyIsSentinel` | Player.py:87-96 | an inner node with no legal move returns its sentinel, +1000000 or -1000000 |
| `AlphaBeta.LeafNodes` | Player.py:85-86 | at a leaf both node kinds return the evaluation times the depth |
| `AlphaBeta.MinNode` | Player.py:83-96 | the definition of `min_value` on a board as the pruned value of the opponent's tree; `AlphaBeta.SearchMin` is proved equal to it and `AlphaBeta.MinValueAgrees` relates it to minimax |
| `AlphaBeta.MaxNode` | Player.py:98-111 | the definition of `max_value` on a board as the pruned value of the player's tree; `AlphaBeta.SearchMax` is proved equal to it and `AlphaBeta.MaxValueAgrees` relates it to minimax |
| `AlphaBeta.OpponentReply` | Player.py:89-91 | one opponent reply on a fresh copy returns `max_value` one ply down on the board with the opponent's piece written at the move |
| `AlphaBeta.PlayerReply` | Player.py:104-106 | one player reply on a fresh copy returns `min_value` one ply down on the board with the player's piece written at the move |
| `AlphaBeta.SearchMin` | Player.py:83-96 | the minimising node (copy, write, recursion, alpha cutoff) returns the pruned value of the opponent's tree |
| `AlphaBeta.SearchMax` | Player.py:98-111 | the maximising node (copy, write, recursion, beta cutoff) returns the pruned value of the player's tree |
| `AlphaBeta.MinimaxMinIsLeast` | Player.py:87-96 | the unpruned value of a minimising node is at most every child's value, and is the sentinel or some child's value |
| `AlphaBeta.MinimaxMaxIsGreatest` | Player.py:102-111 | the unpruned value of a maximising node is at least every child's value, and is the sentinel or some child's value |
| `AlphaBeta.MinValueAgrees` | Player.py:83-96 | pruning is sound: clamped to the window, the pruned minimising value equals the minimax value |
| `AlphaBeta.MaxValueAgrees` | Player.py:98-111 | the same for the maximising node |
| `AlphaBeta.RootValueAgrees` | Player.py:119 | at the root window, `max(alpha, min_value(...))` equals the unpruned minimax value, floored at -1000000 |
| `AlphaBeta.BranchValue` | Player.py:119 | the definition of `max(alpha, min_value(...))` one ply down on a branch's board; `AlphaBeta.RootValueAgrees` relates it to minimax |
| `AlphaBeta.RootBranch` | Player.py:119 | the value recorded for the shared copy as it stands is `BranchValue` of the copy's grid |
| `AlphaBeta.AlphaBetaRootValues` | Player.py:113-120 | the list the root builds has one entry per legal move, entry k carrying move k's column and the branch value on the board with moves 0..k written in |
| `AlphaBeta.RootValuesAreMinimax` | Player.py:113-120 | with the window (-1000000, 1000000) every root entry equals its unpruned minimax entry |
| `AlphaBeta.RootStep` | Player.py:117-120 | one root iteration adds move k to the shared copy and appends entry k of the root list |
| `AlphaBeta.AlphaBetaSearch` | Player.py:113-126 | the root returns the selection from the list of branch values on the accumulating copy |
| `AlphaBeta.GetAlphaBetaMove` | Player.py:128-130 | at depth 5 the move is the selection from the unpruned minimax list; it fails iff the board is full; otherwise it is a column with space |
| `AlphaBeta.ChoiceAgainstLastColumn` | Player.py:121-126 | the chosen column is the first whose value or index equals the last legal column's value |
| `Expectimax.MaxValue` | Player.py:174-184 | `max_value` on the tree: it can fail only by division by zero, and an inner node is at least -1000000; `Expectimax.MaxValueIsMaximum` gives its value |
| `Expectimax.MaxLoop` | Player.py:179-184 | the reply loop of `max_value`: it fails only by division by zero and never lowers the running maximum |
| `Expectimax.ExpectedValue` | Player.py:186-197 | `expected_value` on the tree: it can fail only by division by zero; `Expectimax.ExpectedValueIsMean` gives its value |
| `Expectimax.SumLoop` | Player.py:192-196 | the summing loop of `expected_value`: it fails only by division by zero; `Expectimax.SumLoopIsSum` gives its value |
| `Expectimax.MaxValueIsMaximum` | Player.py:178-184 | a player's node is the greatest of its replies' expected values, floored at the sentinel, and fails iff one of them fails |
| `Expectimax.ExpectedValueIsMean` | Player.py:191-197 | a chance node is the mean of its replies' values, and fails iff one fails or there is no reply |
| `Expectimax.MeanWithin` | Player.py:197 | the mean of values between two bounds lies between them |
| `Expectimax.ChanceNodeWithin` | Player.py:191-197 | a chance node whose replies all have values is valued between its worst and its best reply |
| `Expectimax.NoReplyDividesByZero` | Player.py:187-197 | an inner chance node on a full board fails with a division by zero |
| `Expectimax.LeafNodes` | Player.py:176-177 | at a leaf both node kinds return the evaluation times the depth |
| `Expectimax.MaxNode` | Player.py:174-184 | the definition of `max_value` on a board as the value of the player's tree; `Expectimax.SearchMax` is proved equal to it and `Expectimax.MaxValueIsMaximum` gives its value |
| `Expectimax.ExpectedNode` | Player.py:186-197 | the definition of `expected_value` on a board as the value of the opponent's tree; `Expectimax.SearchExpected` is proved equal to it and `Expectimax.ExpectedValueIsMean` gives its value |
| `Expectimax.PlayerReply` | Player.py:180-182 | one player reply on a fresh copy returns `expected_value` one ply down on the board with the player's piece written at the move |
| `Expectimax.OpponentReply` | Player.py:193-195 | one opponent reply on a fresh copy returns `max_value` one ply down on the board with the opponent's piece written at the move |
| `Expectimax.SearchMax` | Player.py:174-184 | the maximising node (copy, write, recursion) returns the value of the player's tree |
| `Expectimax.SearchExpected` | Player.py:186-197 | the averaging node (copy, write, recursion, division) returns the value of the opponent's tree |
| `Expectimax.BranchResults` | Player.py:161-163 | one result per legal move: `expected_value` one ply down on the copy holding moves 0..k |
| `Expectimax.Running` | Player.py:161-165 | the definition of the list the root builds, or the first branch's error; `Expectimax.RunningSpec` and `Expectimax.RunningEntries` state its entries |
| `Expectimax.RunningSpec` | Player.py:161-165 | the root list is built iff every branch succeeds, otherwise the error of a failing branch; entry j holds column j and a value at least every branch value up to j and equal to one of them or the start |
| `Expectimax.RunningEntries` | Player.py:161-165 | entry j of the root list holds column j and the best value among branches 0..j |
| `Expectimax.RunningSelect` | Player.py:161-172 | the definition of the selection applied to the running-maximum list, or the first branch's error; `Expectimax.RunningChoice` states which column it returns |
| `Expectimax.ExpectimaxChoice` | Player.py:156-172 | the definition of the root's answer as `RunningSelect` of the branch results and the legal columns; `Expectimax.ChoiceIsLegal` and `Expectimax.ChoiceReachesBest` state what it returns |
| `Expectimax.RootStep` | Player.py:161-165 | one root iteration adds move k to the shared copy and advances the running list, or stops with the branch's error |
| `Expectimax.ExpectimaxSearch` | Player.py:156-172 | the root returns the selection from the running-maximum list, or the first branch error |
| `Expectimax.GetExpectimaxMove` | Player.py:199-201 | at depth 4 the move fails with `EmptySequence` iff the board is full, can otherwise fail only by division by zero, and is otherwise a column with space |
| `Expectimax.ChoiceIsLegal` | Player.py:156-172 | the root's result is a column with space, the empty-list error of a full board, or a division by zero |
| `Expectimax.ChoiceReachesBest` | Player.py:161-172 | when every branch succeeds the chosen column is the first where the running maximum, or the column number, equals the best branch value |
| `Expectimax.ZeroBestPicksColumnZero` | Player.py:167-172 | when every branch succeeds, the best value is 0.0 and column 0 has space, column 0 is chosen whatever its own value |
| `Expectimax.ColumnNumberBeatsValue` | Player.py:167-172 | an example: column 0 valued -1.0 and column 1 valued 0.0 give column 0 |

## Left out

- `HumanPlayer` is not modelled. It reads keyboard input and prints prompts.
- `RandomPlayer.get_move`: the uniform draw by `np.random.choice` is left out, because it is randomness. Only the list of candidate columns it draws from is modelled (`Legal.CandidateColumns`).
- The constructors' display fields `type` and `player_string` are left out. They play no part in choosing a move. The player number is passed as a parameter instead.
- Floating point is not modelled. Expectimax values are exact reals, so rounding in `v / lengthMoves` and in float comparisons is not captured.
- The board is assumed to hold integers. `check_horizontal` and `check_vertical` print cells in the board's own dtype; only the diagonals go through `astype(np.int)`. `Text.ToStr` models integer printing only, so a float board's text such as `1.0` is not captured.
- `astype(np.int)` is treated as the identity on integer cells. Current numpy versions no longer define the `np.int` alias, and the model does not capture that failure.
- Only the board's cells are numpy integers, and they hold 0, 1 or 2, so their fixed width never matters. The search values are Python ints, which are unbounded as the model's are, and Python floats, which are modelled as exact reals (see above).
- `AlphaBeta.RootValuesAreMinimax`: pruning agreement at the root is stated only for the window the entry point uses, (-1000000, 1000000). For other windows, the agreement holds clamped to the window (`AlphaBeta.MinValueAgrees`).
