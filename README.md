# Gomoku: a verified model of the rule, board and bookkeeping core

This project models in Dafny the deterministic core of a Gomoku game with captures and the
double-three restriction. The project has a web front end, a C++ minimax engine and a Python
AlphaZero server. The model covers these parts:

- **Game-end evaluator** of the front end (`useEndLogic`). It decides:
  - the capture-goal win;
  - the "unbreakable five", a run of five or more that no immediate capture can break;
  - the draw, when every empty cell is a forbidden double-three.
- **Game store** of the front end. It places stones, clears captured cells, undoes and
  replays moves against the history list, sums capture tallies, refuses a forbidden
  double-three, and orders the end-of-game checks.
- **Engine bitboard** (`Board.cpp`). It keeps one 64-bit mask per player per row. It packs
  lines two bits per cell, counts cells in a pattern, swaps the turn, applies capture
  scoring and names cells ("A1" … "S19").
- **Engine constants and packing helpers** (`Gomoku.hpp`).
- **Search bookkeeping** of the minimax engine:
  - the neighbour and candidate masks;
  - the alpha-beta bound update;
  - the transposition-table flag and probe rules;
  - the killer-move table;
  - the move-ordering comparators.
- **Benchmark's helpers**: argument parsing, integer parsing, trimming, comma splitting,
  scenario and variant selection, and stone counting on text boards.
- **Engine's error reply** serialiser.
- **AlphaZero server's helpers**: stone names, board rendering for the log, defaults of the
  move-request log, and message routing.
- **Documentation store** of the front end: open accordion groups, document grouping, file
  names, and the natural and group orders.
- **Maintenance banner**: a consecutive-failure state machine.

Each source file becomes one module:

- Pure code becomes datatypes, functions and lemmas.
- Code that updates state becomes a class whose methods are proved against specification
  functions.
- Loops become methods with invariants.

The files are:

| file | models |
|---|---|
| `Wrappers.dfy` | `Option` and `Result` |
| `Decimals.dfy` | decimal text of natural numbers, shared by the engine, the benchmark and the documentation store |
| `Geometry.dfy` | stones, the 19×19 board, coordinates, and the assumed `useBaseLogic` helpers |
| `EndLogic.dfy` | front/composables/games/useEndLogic.ts |
| `GameStore.dfy` | front/stores/game.store.ts |
| `Packing.dfy` | minimax/inc/gomoku/Gomoku.hpp |
| `Bitboard.dfy` | cpp/src/gomoku/Board.cpp |
| `SearchBookkeeping.dfy` | minimax/src/gomoku/search/Minimax.cpp |
| `Benchmark.dfy` | minimax/bench/search_benchmark.cpp |
| `ErrorResponse.dfy` | minimax/src/ws/response_builder.cpp |
| `AlphaZeroServer.dfy` | alphazero/server/websocket.py |
| `DocsStore.dfy` | front/stores/docs.store.ts |
| `Maintenance.dfy` | front/stores/maintenance.store.ts |

## Assumed helpers

The front end's rule code calls helpers from `useBaseLogic` and `useDoubleThreeLogic`, which
are not part of this model. The model gives them these meanings:

- **`directions`**: eight unit steps. The first four are (1,0), (0,1), (1,1) and (1,−1), and
  entry i + 4 is the negation of entry i. The evaluators only rely on this: the first four
  are pairwise non-opposite, and the table holds each of the eight unit steps once.
- **`move(p, d, k)`**: the cell k steps from p along d, that is p + k·d.
- **`isOutOfBound`**: the negation of 0 ≤ x, y < 19.
- **`getOppositeStone`**: swaps "X" and "O".
- **`moveToEdgeOfLine(p, d)`**: the last cell of the run of p's stone that starts at p and
  goes along d. It is on the board and holds the same stone.
- **Unshown rule helpers** are function-typed parameters:
  - `checkDoubleThree` (the front end's double-three test), with no property assumed;
  - `getCapturedStones` (the front end's capture detection), assumed to return cells on the
    board: `GameStore.Store.AddStoneToBoardData` requires this of its result, and
    `GameStore.Store.UpdateBoard` of the captured list it is given, because `updateBoard`
    indexes each listed cell without a bounds test and throws a TypeError on an off-board row;
  - the engine's double-three and capture tests used by `shouldIncludeMove`, with no property
    assumed.

## Model

| member | source | states |
|---|---|---|
| EndLogic.StonesInLineIsRun | front/composables/games/useEndLogic.ts:17-29 | `getStonesInLine` extends `res` by exactly the run of `stone` from (x, y) along the direction, one entry per cell in walking order, and stops at the first cell that is off the board or holds something else (so nothing is added when the start does not match) |
| EndLogic.LineIsMaximalRun | front/composables/games/useEndLogic.ts:49-58 | the run collected from the edge reached by `moveToEdgeOfLine` back along the axis is the whole maximal run through the cell, with the cell itself at the position given by the distance to the edge |
| EndLogic.RunThroughCell | front/composables/games/useEndLogic.ts:50-58 | the same for any unit step: walking back from the far edge collects every cell of the run and no other |
| EndLogic.IsCaptureEnded | front/composables/games/useEndLogic.ts:31-43 | PAIR_CAPTURED iff player1 ≥ goal or player2 ≥ goal; the winner is "X" whenever player1 ≥ goal (so "X" wins a tie), else "O"; otherwise the empty result |
| EndLogic.LongLinesMembership | front/composables/games/useEndLogic.ts:60-62 | a line is a candidate win line iff it is one of the collected axis runs and has five or more stones |
| EndLogic.CollectWinLines | front/composables/games/useEndLogic.ts:46-63 | the first loop collects, axis by axis over `directions.slice(0, 4)`, exactly the runs of length ≥ 5 |
| EndLogic.CollectStep | front/composables/games/useEndLogic.ts:60-62 | one more axis adds its run to the candidates exactly when the run has five or more stones |
| EndLogic.NonParallelDirections | front/composables/games/useEndLogic.ts:74-76 | the two filters keep exactly the directions that are neither the inclination nor its negation |
| EndLogic.NonParallelCount | front/composables/games/useEndLogic.ts:74-76 | for a line along a scanned axis exactly two of the eight directions are dropped |
| EndLogic.FirstFilter | front/composables/games/useEndLogic.ts:75 | dropping the inclination leaves seven distinct directions with its negation still among them |
| EndLogic.Without | front/composables/games/useEndLogic.ts:75-76 | one `filter` keeps exactly the entries different from the removed one, and never lengthens the list |
| EndLogic.WithoutOne | front/composables/games/useEndLogic.ts:75-76 | removing an entry that occurs once from a repetition-free list shortens it by one and keeps it repetition-free |
| EndLogic.LineInclination | front/composables/games/useEndLogic.ts:70-73 | the inclination of a collected line (second stone minus first) is the negated scan axis, so the skipped directions are exactly that axis |
| EndLogic.IsLineBreakable | front/composables/games/useEndLogic.ts:78-114 | the nested scan with its flag and `break`s answers true iff some stone of the line, along some non-parallel direction, sees [".", turn, opponent] at offsets (−1, +1, +2) or at (−2, −1, +1), all on the board |
| EndLogic.IsPerfectFiveEnded | front/composables/games/useEndLogic.ts:45-125 | FIVE_OR_MORE_STONES with winner = turn iff some run of five or more through the cell has no breaking stone; otherwise the empty result; the other colour is never named |
| EndLogic.CheckFiveStones | front/composables/games/useEndLogic.ts:127-142 | true iff some scanned axis has a run of five or more through (x, y); breakability plays no part |
| EndLogic.FiveThroughCellCounts | front/composables/games/useEndLogic.ts:134-139 | for a cell holding the stone, a run of five along an axis means four more stones of that colour on the cell's two sides along the axis |
| EndLogic.IsCurrentTurnFiveEnded | front/composables/games/useEndLogic.ts:144-160 | only cells holding `turn` are examined; the result is a five-win for `turn` iff one of them has a run of five or more, else the empty result |
| EndLogic.IsDrawEnded | front/composables/games/useEndLogic.ts:162-178 | DRAW iff every "." cell is a double-three for `turn` (a board without "." is a draw); otherwise the empty result |
| Geometry.MoveIsOffset | front/composables/games/useEndLogic.ts:85-92 | `move(p, d, k)` is p + k·d for every integer k |
| Geometry.MoveAdd | front/composables/games/useEndLogic.ts:85-92 | walks along one direction compose: k steps then j steps is k + j steps |
| Geometry.DirectionsShape | front/composables/games/useEndLogic.ts:49 | the assumed direction table has eight unit steps and entry i + 4 negates entry i |
| Geometry.DirectionsDistinct | front/composables/games/useEndLogic.ts:74 | the eight directions are pairwise distinct |
| Geometry.ScannedAxesNotOpposite | front/composables/games/useEndLogic.ts:49 | no two of the four scanned axes are opposite, so each line orientation is scanned once |
| Geometry.EdgeDistanceIsRun | front/composables/games/useEndLogic.ts:50-53 | the distance to the edge is the length of the run of the stone beyond p: all those cells hold it and the next does not |
| Geometry.MoveToEdgeOfLine | front/composables/games/useEndLogic.ts:50-53 | the assumed `moveToEdgeOfLine` stays on the board |
| Geometry.EdgeOfLine | front/composables/games/useEndLogic.ts:50-53 | the edge cell is the cell that many steps from p along d |
| Geometry.Opposite | front/composables/games/useEndLogic.ts:66 | the assumed `getOppositeStone` of a player's stone is the other player's stone |
| GameStore.InitialBoard | front/stores/game.store.ts:63-75 | 19 rows of 19 cells, every one empty |
| GameStore.SetCell | front/stores/game.store.ts:209 | one cell assignment changes that cell and no other |
| GameStore.ClearCells | front/stores/game.store.ts:212-214 | clearing the captured list empties exactly the listed cells and leaves the rest |
| GameStore.RestoreCells | front/stores/game.store.ts:225-228 | writing recorded stones back leaves unlisted cells alone and gives each listed cell the stone it had when recorded |
| GameStore.PlayedCells | front/stores/game.store.ts:206-215 | `updateBoard` puts the stone on (x, y), then empties the captured cells; no other cell changes |
| GameStore.PlayedIsReplayed | front/stores/game.store.ts:206-215 | replaying (as `onNextHistory`, lines 79-96, does) an entry (clear, then place) and playing it (place, then clear) agree when a move does not capture its own cell |
| GameStore.UndoPlayed | front/stores/game.store.ts:217-237 | undoing a move played on an empty cell, whose captures were recorded from the board, gives back the board before the move |
| GameStore.UndoTwoMoves | front/stores/game.store.ts:247-278 | undoing the AI's move and then the player's move gives back the board before both |
| GameStore.ReplayUndone | front/stores/game.store.ts:79-118 | stepping back over an entry the replay board shows and forward again gives back the same board |
| GameStore.PositionsShown | front/stores/game.store.ts:79-96 | when every captured cell of an entry is empty, every listed position is on the board and empty |
| GameStore.SameCells | front/stores/game.store.ts:63-75 | two 19×19 boards with the same cells are the same board |
| GameStore.Flip | front/stores/game.store.ts:191-194 | `changeTurn()` maps "X" to "O" and anything else to "X" |
| GameStore.FlipTwice | front/stores/game.store.ts:191-194 | two argument-less turn changes give a player's stone back |
| GameStore.AdvantageOwners | front/stores/game.store.ts:139-156 | `advantage1` goes to "X" when Player1 moves first and to "O" otherwise; `advantage2` to the other stone |
| GameStore.MovesOf | front/stores/game.store.ts:141-143 | the filter keeps only entries played with the stone and never lengthens the history |
| GameStore.SumPairs | front/stores/game.store.ts:144-152 | the reduce of captured pairs is never negative |
| GameStore.MovesOfConcat | front/stores/game.store.ts:141-143 | filtering a concatenation is concatenating the filtered parts |
| GameStore.SumPairsConcat | front/stores/game.store.ts:144-152 | the pair sum of a concatenation is the sum of the parts' pair sums |
| GameStore.TotalCapturedConcat | front/stores/game.store.ts:139-156 | the tally over a longer history is the tally over the prefix plus the pairs captured by the stone's own later moves |
| GameStore.TotalCapturedAfterMove | front/stores/game.store.ts:139-156 | one more entry raises the stone's tally by capturedStones.length / 2 if the entry is the stone's, and by nothing otherwise |
| GameStore.TotalCapturedAtLeastAdvantage | front/stores/game.store.ts:139-156 | a tally is never below the stone's advantage |
| GameStore.GameEnding | front/stores/game.store.ts:281-323 | the first cell in row-major order with an unbreakable five wins for its stone; failing that the capture goal decides; failing that a draw; otherwise no result, which happens iff no end condition holds |
| GameStore.DoubleThreeForbids | front/stores/game.store.ts:325-332 | the double-three check refuses a move only when the restriction is enabled |
| GameStore.Store.constructor | front/stores/game.store.ts:57-78 | default settings (lines 17-28), "X" to play, empty history, replay index 0, not over, no history mode, empty live and replay boards |
| GameStore.Store.SetHistoryMode | front/stores/game.store.ts:163-172 | switching history mode on from off sets the replay index to the last entry and copies the live board; the watch fires only on a change, so setting it on while already on, or switching it off, changes neither |
| GameStore.Store.InitGame | front/stores/game.store.ts:184-189 | "X" to play, not over, empty history, empty board |
| GameStore.Store.ChangeTurn | front/stores/game.store.ts:191-194 | a given stone becomes the turn; without one the turn flips |
| GameStore.Store.UpdateBoard | front/stores/game.store.ts:206-215 | the live board becomes the played board, cell by cell |
| GameStore.Store.DeleteLastHistory | front/stores/game.store.ts:217-237 | on an empty history nothing changes; otherwise the last entry is undone on the board, dropped from the history, the game is not over and the turn goes back to the undone stone |
| GameStore.Store.CanUndoTurn | front/stores/game.store.ts:239-245 | an undo is offered only while the game is not over and the history is not empty; without an AI it is then always offered, against the AI exactly when the AI is not thinking and the last entry is "O" |
| GameStore.Store.DeleteLastTurn | front/stores/game.store.ts:239-278 | without an AI it is `deleteLastHistory`; against the AI nothing changes unless the last entry is "O"; with two or more entries both are undone and removed and "X" is to play; with one "O" entry only that one |
| GameStore.Store.OnNextHistory | front/stores/game.store.ts:79-96 | with an entry after the replay index, it is replayed on the replay board, the index advances and the turn is that entry's stone; otherwise nothing changes |
| GameStore.Store.OnPrevHistory | front/stores/game.store.ts:97-118 | with an entry at the replay index, it is undone on the replay board, the index goes back, the game is not over and the turn is that entry's stone; otherwise nothing changes |
| GameStore.Store.PrevThenNextHistory | front/stores/game.store.ts:79-118 | a step back then a step forward restore the replay board and the replay index |
| GameStore.Store.CheckGameOver | front/stores/game.store.ts:281-323 | a result is returned iff an end condition holds, and the game is then marked over |
| GameStore.Store.ChangeTurnAndCheck | front/stores/game.store.ts:439-455 | the turn flips, then the end-of-game check runs on the live board with the current tallies for the player now to move, and the game is over iff it was or an end condition holds |
| GameStore.Store.AddStoneToBoardData | front/stores/game.store.ts:401-457 | a move the double-three check forbids returns false and changes nothing; any other returns true, appends exactly one history entry, plays it on the board, flips the turn and runs the end-of-game check for the player now to move |
| Packing.CellCodes | minimax/inc/gomoku/Gomoku.hpp:11-18 | EMPTY_SPACE, PLAYER_1, PLAYER_2 and OUT_OF_BOUNDS are distinct and fit in two bits |
| Packing.Opponent | minimax/inc/gomoku/Gomoku.hpp:15 | `OPPONENT` gives PLAYER_2 exactly for PLAYER_1 and PLAYER_1 for every other value |
| Packing.OpponentInvolutive | minimax/inc/gomoku/Gomoku.hpp:15 | on the two player codes `OPPONENT` swaps them and is its own inverse |
| Packing.DirectionsTable | minimax/inc/gomoku/Gomoku.hpp:20-32 | eight distinct unit steps, entry i + 4 the negation of entry i |
| Packing.PackCells4Fields | minimax/inc/gomoku/Gomoku.hpp:38-40 | for 2-bit inputs a, b, c, d sit in bits 6-7, 4-5, 2-3, 0-1, each recovered by shift and mask, nothing above bit 7 |
| Packing.PackCells3Fields | minimax/inc/gomoku/Gomoku.hpp:42-44 | the same most-significant-first layout for three cells |
| Packing.PackCells2Fields | minimax/inc/gomoku/Gomoku.hpp:46 | the same layout for two cells |
| Packing.PackCellsInjective | minimax/inc/gomoku/Gomoku.hpp:38-48 | packing is injective on 2-bit inputs |
| Bitboard.Board.GetValueBit | cpp/src/gomoku/Board.cpp:72-78 | OUT_OF_BOUNDS iff the coordinate is invalid; otherwise one of PLAYER_1, PLAYER_2, EMPTY_SPACE |
| Bitboard.Board.ValueIsMaskTest | cpp/src/gomoku/Board.cpp:72-78 | on the board the value is the one the `row & mask` tests of player 1's then player 2's rows give |
| Bitboard.Board.constructor | cpp/src/gomoku/Board.cpp:3-11 | goal 5, player 1 last, player 2 next, zero scores, no pending captures, every cell empty |
| Bitboard.Board.FromData | cpp/src/gomoku/Board.cpp:13-23 | the given goal and scores; "X" names player 1 and any other text player 2; 'X' cells hold player 1, 'O' cells player 2, all others are empty |
| Bitboard.Board.ResetBitboard | cpp/src/gomoku/Board.cpp:42-46 | every cell becomes empty |
| Bitboard.Board.SetValueBit | cpp/src/gomoku/Board.cpp:57-69 | on a valid cell the value becomes the player for codes 1 and 2 and empty for any other code; no other cell changes; no cell is set in both masks; off the board nothing changes |
| Bitboard.ClearSetBit | cpp/src/gomoku/Board.cpp:63-68 | clearing then setting bit `col` touches no other bit |
| Bitboard.Board.InitBitboardFromData | cpp/src/gomoku/Board.cpp:29-40 | every in-board 'X' becomes player 1 and 'O' player 2; other characters and entries beyond 19×19 leave the cell as it was |
| Bitboard.Board.ReadCell | cpp/src/gomoku/Board.cpp:110-118 | one step of the line scan reads OUT_OF_BOUNDS off the board and the cell's code on it |
| Bitboard.Board.ExtractLineAsBits | cpp/src/gomoku/Board.cpp:97-127 | the codes of the cells at steps 1..length packed two bits each, nearest first in the most-significant position, off-board cells as 3 |
| Bitboard.PackSlots | cpp/src/gomoku/Board.cpp:97-127 | for up to 16 cells each code is read back from its slot, the nearest cell in the most-significant one |
| Bitboard.PackOntoIsPack | cpp/src/gomoku/Board.cpp:105-124 | shifting codes in one at a time continues the packing of the codes before them |
| Bitboard.PackFour | cpp/src/gomoku/Board.cpp:97-127 | a four-cell line packs exactly as `pack_cells_4` does |
| Bitboard.GetCellCount | cpp/src/gomoku/Board.cpp:86-91 | the count is at most windowLength, every counted slot (from the most-significant end) is not 3, and the next slot is 3 when the count stops short |
| Bitboard.Board.SwitchTurn | cpp/src/gomoku/Board.cpp:137-146 | the two players exchange roles and scores |
| Bitboard.Board.SwitchTurnTwice | cpp/src/gomoku/Board.cpp:137-146 | switching twice restores players and scores |
| Bitboard.Board.StoreCapturedStone | cpp/src/gomoku/Board.cpp:252-259 | the stone is appended to the pending captures |
| Bitboard.Board.ApplyCapture | cpp/src/gomoku/Board.cpp:261-279 | every pending cell is emptied, each stone credits the opposing side one point, both scores are then halved by truncating division, and the pending list is empty |
| Bitboard.EveryStoneScores | cpp/src/gomoku/Board.cpp:261-279 | when every captured stone belongs to one of the two players each stone scores exactly once |
| Bitboard.Half | cpp/src/gomoku/Board.cpp:276-277 | C++ `/ 2` truncates toward zero |
| Bitboard.ConvertIndexToCoordinates | cpp/src/gomoku/Board.cpp:197-211 | valid iff both indices are in 0..18: letter 'A' + col then the decimal form of row + 1; otherwise the column error or the row error, column checked first |
| Decimals.DecimalRoundTrip | cpp/src/gomoku/Board.cpp:208-210 | the decimal text written for a row number reads back as that number |
| Bitboard.CoordinatesInjective | cpp/src/gomoku/Board.cpp:197-211 | two distinct cells get distinct names |
| SearchBookkeeping.RowMask | minimax/src/gomoku/search/Minimax.cpp:16 | exactly the low 19 bits are set |
| SearchBookkeeping.ShiftRowLeft | minimax/src/gomoku/search/Minimax.cpp:23 | bit c is bit c − 1 of the row for 1 ≤ c < 19, and the result stays within the row mask |
| SearchBookkeeping.ShiftRowRight | minimax/src/gomoku/search/Minimax.cpp:24 | bit c is bit c + 1 of the row; an on-board row stays on the board |
| SearchBookkeeping.ComputeNeighborMask | minimax/src/gomoku/search/Minimax.cpp:27-45 | every row of `neighbor` is the OR of the shifted rows above, at and below, as the neighbour row function gives |
| SearchBookkeeping.NeighborOf | minimax/src/gomoku/search/Minimax.cpp:29-43 | one row of the loop equals the neighbour row |
| SearchBookkeeping.NeighborRowMeaning | minimax/src/gomoku/search/Minimax.cpp:16-45 | bit c of neighbour row i is set iff c < 19 and some stone lies in rows i−1..i+1 and columns c−1..c+1 on the board |
| SearchBookkeeping.ComputeCandidateMask | minimax/src/gomoku/search/Minimax.cpp:49-51 | bit c is set iff c < 19, the cell is a neighbour, and it is empty |
| SearchBookkeeping.CandidatesAreEmptyNeighbours | minimax/src/gomoku/search/Minimax.cpp:27-51 | a candidate is exactly an empty on-board cell with a stone among its eight neighbours |
| SearchBookkeeping.ShouldIncludeMove | minimax/src/gomoku/search/Minimax.cpp:79-85 | every cell is kept when the restriction is off or the cell is no double-three; a double-three cell is kept iff it captures |
| SearchBookkeeping.InitialExtreme | minimax/src/gomoku/search/Minimax.cpp:53-55 | every 32-bit eval is ≥ the maximiser's start and ≤ the minimiser's |
| SearchBookkeeping.UpdateBestAndBounds | minimax/src/gomoku/search/Minimax.cpp:61-77 | maximising: best replaced only on a strictly greater eval, alpha := max(alpha, eval), beta unchanged; minimising mirrored; the window only shrinks |
| SearchBookkeeping.BestAfterIsFirstMaximum | minimax/src/gomoku/search/Minimax.cpp:61-77 | folding the update over a move list keeps the maximum eval and the first move that attains it |
| SearchBookkeeping.FlagFor | minimax/src/gomoku/search/Minimax.cpp:287-296 | UPPERBOUND iff score ≤ alpha0; LOWERBOUND iff alpha0 < score and score ≥ beta; EXACT iff alpha0 < score < beta |
| SearchBookkeeping.StoredEntryCuts | minimax/src/gomoku/search/Minimax.cpp:260-296 | an entry stored for a window is a hit when probed again with the same window |
| SearchBookkeeping.NarrowShrinks | minimax/src/gomoku/search/Minimax.cpp:276-284 | a bound entry only narrows the window, and it hits iff alpha ≥ beta afterwards |
| SearchBookkeeping.SearchTables.constructor | minimax/src/gomoku/search/Minimax.cpp:10-17 | an empty table and zero-filled killer slots, as the static storage of `transTable` (line 10) and `killerMoves` (line 17) starts |
| SearchBookkeeping.SearchTables.ProbeTT | minimax/src/gomoku/search/Minimax.cpp:260-285 | a miss returns false and changes nothing; a shallower entry returns false and only sets bestMove; otherwise bestMove and score are taken and EXACT hits while a bound entry tightens alpha or beta and hits iff alpha ≥ beta |
| SearchBookkeeping.SearchTables.StoreTT | minimax/src/gomoku/search/Minimax.cpp:287-296 | the entry for the hash is overwritten with the score, depth, move and flag |
| SearchBookkeeping.SearchTables.InitKillerMoves | minimax/src/gomoku/search/Minimax.cpp:169-174 | depths 0..MAX_DEPTH−1 get two invalid moves; slot MAX_DEPTH is left as it was |
| SearchBookkeeping.SearchTables.RecordKiller | minimax/src/gomoku/search/Minimax.cpp:359-362 | a move already in a slot leaves the table unchanged; otherwise slot 0 moves to slot 1 and the move takes slot 0; other depths never change and the move is a killer afterwards; `pvs` repeats the same update at lines 641-644 |
| SearchBookkeeping.ComparatorsOrder | minimax/src/gomoku/search/Minimax.cpp:182-199 | both comparators put killers first; within one killer status Max sorts by descending and Min by ascending score |
| SearchBookkeeping.ComparatorsAreStrictWeakOrders | minimax/src/gomoku/search/Minimax.cpp:182-199 | both comparators are irreflexive and transitive, and incomparable moves have equal killer status and score |
| Benchmark.ParseInt | minimax/bench/search_benchmark.cpp:87-96 | success only on non-empty text that `strtol` consumes entirely with a value in [minValue, 1000000]; on failure outValue is unchanged |
| Benchmark.ParseIntDecimal | minimax/bench/search_benchmark.cpp:87-96 | the decimal text of any n in [minValue, 1000000] parses to n |
| Benchmark.ParseIntRejectsTrailing | minimax/bench/search_benchmark.cpp:87-96 | text ending in a non-digit is rejected and leaves outValue alone |
| Benchmark.ParseIntSuccessIgnoresOut | minimax/bench/search_benchmark.cpp:87-96 | whether parsing succeeds does not depend on outValue |
| Benchmark.Strtol | minimax/bench/search_benchmark.cpp:89-90 | `strtol` never consumes beyond the text and gives 0 when it consumes nothing |
| Benchmark.Trim | minimax/bench/search_benchmark.cpp:98-106 | the two index loops compute the trimmed text |
| Benchmark.Trimmed | minimax/bench/search_benchmark.cpp:98-106 | the trimmed text starts and ends with neither space nor tab and has no character the input lacks |
| Benchmark.TrimmedIsInfix | minimax/bench/search_benchmark.cpp:98-106 | the trimmed text is a substring of the input with only spaces and tabs cut off each end |
| Benchmark.TrimIdempotent | minimax/bench/search_benchmark.cpp:98-106 | trimming twice is trimming once |
| Benchmark.NoBlankEdgesFixed | minimax/bench/search_benchmark.cpp:98-106 | text without blank edges is its own trim |
| Benchmark.FieldsJoin | minimax/bench/search_benchmark.cpp:108-123 | the comma-separated fields joined by commas give back the text |
| Benchmark.FieldsHaveNoComma | minimax/bench/search_benchmark.cpp:108-123 | no field holds a comma |
| Benchmark.SplitCsvTokensClean | minimax/bench/search_benchmark.cpp:108-123 | every token is non-empty, comma-free and already trimmed |
| Benchmark.SplitCsvNoComma | minimax/bench/search_benchmark.cpp:108-123 | text without a comma gives [trim(s)], or [] when that is empty |
| Benchmark.SplitCsv | minimax/bench/search_benchmark.cpp:108-123 | the character loop computes the token list |
| Benchmark.Contains | minimax/bench/search_benchmark.cpp:125-130 | true iff the target is in the list |
| Benchmark.ParseArgs | minimax/bench/search_benchmark.cpp:144-190 | the argument loop computes the grammar-driven parse from index 1 |
| Benchmark.ParseSucceedsIffAccepted | minimax/bench/search_benchmark.cpp:144-190 | parsing succeeds iff every option is known, every value-taking option has a value, and --iterations ≥ 1 and --warmup ≥ 0 parse |
| Benchmark.ParseKeepsCountsInRange | minimax/bench/search_benchmark.cpp:150-165 | the iteration count stays ≥ 1 and the warm-up count ≥ 0 |
| Benchmark.FindFrom | minimax/bench/search_benchmark.cpp:455-462 | the search from position j finds nothing iff no element from j on has the key; what it finds is in the list and has the key |
| Benchmark.MatchesFollowRequest | minimax/bench/search_benchmark.cpp:451-488 | the selection has one element per known requested key, in request order, each with that key, all from the catalogue |
| Benchmark.MatchRequested | minimax/bench/search_benchmark.cpp:451-488 | the loop over the request computes the selection |
| Benchmark.SelectScenarios | minimax/bench/search_benchmark.cpp:451-465 | an empty request or one containing "all" selects every scenario; otherwise one match per known key in request order, unknown keys dropped |
| Benchmark.SelectVariants | minimax/bench/search_benchmark.cpp:467-488 | the same rule for variants |
| Benchmark.EmptyRows | minimax/bench/search_benchmark.cpp:192-194 | 19 rows of 19 '.' |
| Benchmark.PlaceStone | minimax/bench/search_benchmark.cpp:196-199 | a no-op outside 0..18; otherwise exactly the one character changes |
| Benchmark.CountStones | minimax/bench/search_benchmark.cpp:360-368 | the loop counts the 'X' and 'O' characters |
| Benchmark.StonesUpdate | minimax/bench/search_benchmark.cpp:360-368 | replacing one row changes the count by the difference of the two rows' counts |
| Benchmark.EmptyRowsHaveNoStones | minimax/bench/search_benchmark.cpp:360-368 | the board `emptyRows` builds (lines 192-194) has no stones |
| Benchmark.PlaceStoneAddsOne | minimax/bench/search_benchmark.cpp:196-199 | placing a stone on a '.' cell adds exactly one to the count |
| Benchmark.HasValidBoardShape | minimax/bench/search_benchmark.cpp:370-376 | true iff there are 19 rows, each of length 19 |
| ErrorResponse.Message | minimax/src/ws/response_builder.cpp:95-108 | the three error codes get their own texts, and every other code gets "Unknown error" (both directions); no message holds a colon |
| ErrorResponse.ConstructErrorResponse | minimax/src/ws/response_builder.cpp:91-116 | the reply starts with `{"type":"error","error":"`, ends with `"}`, and between them holds the message followed by ": " and the details verbatim iff the details are non-empty |
| ErrorResponse.ErrorResponseInjective | minimax/src/ws/response_builder.cpp:91-116 | equal replies have equal messages and equal details |
| AlphaZeroServer.StoneForPlayer | alphazero/server/websocket.py:31-36 | "X" for PLAYER_1, "O" for PLAYER_2, a ValueError carrying the value otherwise |
| AlphaZeroServer.OpponentStone | alphazero/server/websocket.py:67-68 | "O" exactly for "X", "X" for everything else |
| AlphaZeroServer.OpponentStoneSwaps | alphazero/server/websocket.py:31-68 | the opponent of one player's stone is the other's, and two opponents give a stone back |
| AlphaZeroServer.RenderCell | alphazero/server/websocket.py:80-87 | "." stays ".", "X" becomes "1", "O" becomes "2", any other cell its `str` |
| AlphaZeroServer.JoinThenSpace | alphazero/server/websocket.py:88 | joining with single spaces and adding one puts exactly one space after every cell; an empty row gives a single space |
| AlphaZeroServer.RenderRowCellBySpace | alphazero/server/websocket.py:78-88 | a rendered row is each cell's text followed by one space, or " " for an empty row |
| AlphaZeroServer.OneLinePerListRow | alphazero/server/websocket.py:75-77 | there are as many lines as rows that are lists; other rows are skipped |
| AlphaZeroServer.FormatRequestBoard | alphazero/server/websocket.py:71-89 | [] for a non-list board; otherwise the loops compute the list-row lines in order |
| AlphaZeroServer.MoveRequestSummary | alphazero/server/websocket.py:92-103 | without a dict `lastPlay` the coordinates are (−1, −1) and the last player is the opponent of an "X"/"O" next player, else ""; with a dict `lastPlay`, a `coordinate` that is not a dict raises, the call raises exactly when a present "x" or "y" fails `int()`, and otherwise each coordinate is −1 when missing and its `int()` when present, and the last player is `str` of "stone", "" by default; the next player is `str` of the field, "" by default |
| AlphaZeroServer.SummaryInfersLastPlayer | alphazero/server/websocket.py:92-103 | a request naming only the next player logs (−1, −1) and the other stone |
| AlphaZeroServer.SummaryReportsLastPlay | alphazero/server/websocket.py:95-99 | a `lastPlay` with integer "x" and "y" and a string "stone" is logged as exactly that play |
| AlphaZeroServer.SummaryWithoutCoordinate | alphazero/server/websocket.py:95-99 | a `lastPlay` without a coordinate logs (−1, −1) and its own stone |
| AlphaZeroServer.HandlePayload | alphazero/server/websocket.py:196-212 | "move"/"test" go to the move handler, "evaluate" to the evaluate handler, "reset" is acknowledged, a list or dict type raises, and anything else gets the unknown-type reply |
| AlphaZeroServer.UnknownTypesGetErrorReply | alphazero/server/websocket.py:196-212 | a missing type or any other string type gets the "Unknown type" error |
| DocsStore.ToLower | front/stores/docs.store.ts:19 | the lower-cased name has no capital and keeps every other character |
| DocsStore.ToLowerIdempotent | front/stores/docs.store.ts:18-30 | lower-casing twice is lower-casing once |
| DocsStore.IndexOf | front/stores/docs.store.ts:24 | the first position of the name, or −1 iff it is absent |
| DocsStore.Store.IsGroupOpen | front/stores/docs.store.ts:18-20 | open iff the lower-cased name is listed |
| DocsStore.Toggled | front/stores/docs.store.ts:22-30 | an absent name is appended in lower case; a present one is removed, leaving one entry fewer; other groups are unaffected |
| DocsStore.ToggleFlipsOpen | front/stores/docs.store.ts:22-30 | on a duplicate-free list a toggle flips whether the group is open |
| DocsStore.ToggleTwiceRestores | front/stores/docs.store.ts:22-30 | toggling twice restores the open groups, exactly so when the group was closed |
| DocsStore.Added | front/stores/docs.store.ts:32-37 | the group is open afterwards and nothing else is added |
| DocsStore.AddedIdempotent | front/stores/docs.store.ts:32-37 | adding an open group changes nothing, so adding twice is adding once |
| DocsStore.UpdatesKeepWellFormed | front/stores/docs.store.ts:22-37 | both updates keep the list duplicate-free and lower-case |
| DocsStore.Store.constructor | front/stores/docs.store.ts:16 | no group is open |
| DocsStore.Store.ToggleGroup | front/stores/docs.store.ts:22-30 | the list is replaced by its toggled form; a well-formed list stays well formed and the group's open state flips |
| DocsStore.Store.AddOpenGroup | front/stores/docs.store.ts:32-37 | the list is replaced by its added form; the group is open and a well-formed list stays well formed |
| DocsStore.GroupOf | front/stores/docs.store.ts:47 | a missing or empty group is "Other" |
| DocsStore.ItemOf | front/stores/docs.store.ts:57-64 | an entry carries the title and path, the icon or "pi-file", and the id or else the path |
| DocsStore.GroupDocs | front/stores/docs.store.ts:46-69 | the document loop builds the path map and the group map with its keys in first-seen order |
| DocsStore.PathMapKeys | front/stores/docs.store.ts:50 | exactly the documents' paths are mapped |
| DocsStore.PathMapKeepsLastDoc | front/stores/docs.store.ts:50 | a path maps to the group of the last document with that path |
| DocsStore.GroupOrderListsEachGroupOnce | front/stores/docs.store.ts:52-54 | each group is listed once, and exactly the documents' groups are listed |
| DocsStore.ItemsInOwnGroup | front/stores/docs.store.ts:52-66 | each document's entry is in its own group, and a group holds entries of its own documents only |
| DocsStore.UnlistedGroupIsEmpty | front/stores/docs.store.ts:52-66 | a group no document belongs to has no entries |
| DocsStore.LastSegment | front/stores/docs.store.ts:74-75 | the last piece of the split holds no slash, ends the text, and follows a slash unless it is the whole text |
| DocsStore.StripMd | front/stores/docs.store.ts:76 | one trailing ".md" is removed and nothing else |
| DocsStore.FileNameFromId | front/stores/docs.store.ts:72-77 | the file name holds no slash unless the id (or the url when the id is empty) ends with one; the name itself, case by case, is stated by the four lemmas that follow |
| DocsStore.FileNameFallsBackToUrl | front/stores/docs.store.ts:73 | with no id the file name is the one the url gives as an id |
| DocsStore.FileNameOfPath | front/stores/docs.store.ts:72-77 | for an id `p/t` with a non-empty last segment t, the file name is t without its trailing ".md" when it has one, and t otherwise |
| DocsStore.FileNameWithoutSlash | front/stores/docs.store.ts:72-77 | an id without a slash gives itself, without a trailing ".md" when it has one |
| DocsStore.FileNameOfDirectory | front/stores/docs.store.ts:74-76 | an id ending in a slash has an empty last piece, so the whole id is the file name |
| DocsStore.FileNameOfDocId | front/stores/docs.store.ts:72-77 | the file name of "dir/name.md" is "name" |
| DocsStore.LastSegmentAfterSlash | front/stores/docs.store.ts:74-75 | what follows the last slash is the last piece |
| DocsStore.LastSegmentWithoutSlash | front/stores/docs.store.ts:74-75 | text without a slash splits into one piece, itself |
| DocsStore.LeadingDigits | front/stores/docs.store.ts:82-83 | the match of `^(\d+)` is the run of leading ASCII digits |
| DocsStore.NumberedNamesCompareByNumber | front/stores/docs.store.ts:80-100 | two names starting with different numbers compare by the difference of the numbers; with equal numbers by `localeCompare` of the rests |
| DocsStore.NaturalCompare | front/stores/docs.store.ts:80-100 | unless both names start with digits `localeCompare` decides; different leading numbers decide by their order and never tie; equal ones leave the rests after the digits to `localeCompare` |
| DocsStore.NaturalCompareAntisymmetric | front/stores/docs.store.ts:80-100 | swapping the arguments negates the result when `localeCompare` does |
| DocsStore.Priority | front/stores/docs.store.ts:116-117 | the rank is −1 iff the lower-cased group is not in the priority list |
| DocsStore.KnownGroupsInPriorityOrder | front/stores/docs.store.ts:115-124 | two listed groups of different ranks sort by rank, whatever their capitalisation |
| DocsStore.UnrankedGroupsByLocale | front/stores/docs.store.ts:115-124 | a group outside the list is placed by `localeCompare` alone |
| DocsStore.GroupCompare | front/stores/docs.store.ts:115-124 | two groups ranked differently compare by rank (never a tie); otherwise `localeCompare` decides |
| DocsStore.GroupCompareCycle | front/stores/docs.store.ts:115-124 | the group comparator is not an order: when `localeCompare` puts a group such as "Basics" between "alphazero" and "minimax", the three compare in a cycle |
| DocsStore.RankOf | front/stores/docs.store.ts:10 | each listed group's rank is its list position |
| Maintenance.StepKeepsConsistent | front/stores/maintenance.store.ts:2-28 | every operation keeps "counter ≥ 3 implies the banner is shown" |
| Maintenance.RunKeepsConsistent | front/stores/maintenance.store.ts:2-28 | so does every sequence of operations from a consistent state |
| Maintenance.FailuresCount | front/stores/maintenance.store.ts:13-18 | n failures add n to the counter; the banner is then shown iff it already was or the counter reached 3; failures never hide it |
| Maintenance.ThirdFailureShowsBanner | front/stores/maintenance.store.ts:3-18 | from counter 0 and a hidden banner, fewer than three failures leave it hidden and the third shows it |
| Maintenance.SuccessRestartsCount | front/stores/maintenance.store.ts:13-23 | a success between failures starts the count again |
| Maintenance.RunConcat | front/stores/maintenance.store.ts:2-28 | running two sequences is running one then the other |
| Maintenance.Store.constructor | front/stores/maintenance.store.ts:2-3 | hidden banner, counter 0 |
| Maintenance.Store.SetMaintenance | front/stores/maintenance.store.ts:6-11 | the banner takes the value; hiding it resets the counter, showing it leaves the counter alone |
| Maintenance.Store.ReportBackendFailure | front/stores/maintenance.store.ts:13-18 | the counter grows by one and the banner is shown once it is ≥ 3; it is never hidden |
| Maintenance.Store.ReportBackendSuccess | front/stores/maintenance.store.ts:20-23 | counter 0 and the banner hidden |
| Maintenance.Store.ForceMaintenance | front/stores/maintenance.store.ts:25-28 | counter 3 and the banner shown |

## Left out

- Helpers of `useBaseLogic` and `useDoubleThreeLogic` are not part of this model. They are defined or taken as parameters as described under "Assumed helpers".
- `getCapturedStones`, the engine's double-three and capture tests, `Board::getHash`, `flushCaptures` and the Zobrist keys are not shown. They are parameters (the hash is an input of the table methods) or left out.
- The game store's I/O is not modelled: alerts, sounds, local storage, `nextTick`, `historyToLog` (a log string with a `toFixed` float), `exportUrl`, `exportJson` and `importData`. `debugAddStoneToBoardData` is also left out. It is `addStoneToBoardData` with the turn change made only when `askAi || !isDebugTurnLocked`, with the end-of-game check run for the opponent of the placed stone, and it returns nothing.
- GameStore.Store.AddStoneToBoardData: it is split into the board edit and `ChangeTurnAndCheck`, and the situation's `turn` is the player now to move. The AI call that follows the move is left out. It requires `getCapturedStones` to return cells on the board; the source throws a TypeError when a returned cell lies on an off-board row, so an off-board result is not modelled.
- GameStore: JavaScript numbers are `real`, so `capturedStones.length / 2` is exact division. Board rows are sequences that the methods reassign cell by cell, not shared arrays.
- Bitboard: a `uint64_t` row mask is modelled as its 64 bits, `seq<bool>`, with `&`, `|`, `~` and shifts applied bit by bit. The 2-bit line patterns stay 32-bit words.
- Bitboard.GetCellCount: it requires windowLength ≤ 16, because a longer window shifts a 32-bit pattern by 32 or more bits, which C++ leaves undefined.
- Bitboard: `getBitboardByPlayer`, `getOccupancy`, the score and player getters, `getCurrentScore`, `cloneBoard`, `BitboardToJsonBoardboard` and the printing helpers are left out. They copy, expose or print state that the model already holds.
- Bitboard: the engine tree's own `Board.hpp` and `Gomoku.hpp` are not part of this model. They are taken to define the same values as minimax/inc/gomoku/Gomoku.hpp (board size 19, codes 0 to 3), which the model uses through the `Packing` module.
- SearchBookkeeping: `minimax`, `pvs`, `quiescenceSearch`, `rootSearch`, `iterativeDeepening` and `getBestMove*` are left out. They depend on clock-based time limits, on move making and undoing, and on evaluation code that is not shown.
- SearchBookkeeping: `generateCandidateMoves`, `generateCaptureMoves`, `scoreAndSortMoves`, `processHashMove`, `tryMoveAndCutoff`, `timeExceeded`, `isCaptureMove` and `printBoardWithCandidates` are left out for the same reason. Their mask and ordering rules are modelled by the helpers above.
- SearchBookkeeping.SearchTables.InitKillerMoves: as written it resets depths 0 to MAX_DEPTH − 1 only. The slot of depth MAX_DEPTH keeps its earlier contents, and the model keeps this.
- SearchBookkeeping.SearchTables.ProbeTT: the `flushCaptures` call on a hit is left out. It does not affect the returned values.
- Benchmark: `nowMs`, `percentile`, `summarize`, `runBenchmark`, `runVariant`, `moveToString`, `printUsage`, `printCatalog`, `printHeader`, `printRow` and `main` are left out. They are timing, floating point and output.
- Benchmark: `makeOpeningScenario`, `makeMidgameScenario`, `makeLateMidgameScenario`, `buildScenarios`, `buildVariants`, `toBoardData` and `createBoard` are left out. They are fixed data; scenarios and variants are inputs here.
- Benchmark.ParseInt: `strtol`'s `long` saturation is not modelled. A saturated value lies outside [minValue, 1000000] as the unbounded value does, so the answer is the same.
- Benchmark.ParseArgs: an option's value that `parseInt` rejects fails the whole parse, as in the source. Option values are Dafny strings, since `argv`'s C strings are modelled as text.
- ErrorResponse: the header that declares the `ParseResult` enumeration is not part of this model. Its constants are named as the parser and the handler use them; only the three error codes with their own message matter.
- AlphaZeroServer: `PLAYER_1` and `PLAYER_2` come from a configuration module that is not part of this model, so they are parameters.
- AlphaZeroServer: Python's `str` of a list, dict or other value is a parameter (`reprOf`), and so is `int` of a string (`intOfText`).
- AlphaZeroServer: `_serve`, `_handle_move`, `_handle_evaluate`, `_safe_send_json`, the endpoints and `_clamp_percentage` are left out. They are asynchronous socket code, model inference and floating point.
- AlphaZeroServer.MoveRequestSummary: it returns what `_log_move_request` logs rather than writing a log. Only the coordinates and the two players are modelled, not the goal, capture and scores lines. A raised exception is an `Err` naming AttributeError for a coordinate that is not a dict, and "int() raises" for a failed `int()`, which Python reports as ValueError or TypeError depending on the value.
- DocsStore.ToLower: it lower-cases the ASCII letters only. JavaScript's full Unicode case mapping is not modelled.
- DocsStore.NaturalCompare: `parseInt` of a long digit run loses precision in JavaScript above 2^53. The model compares exact integers, and `localeCompare` is a parameter.
- DocsStore: the two `Array.prototype.sort` calls and the final `docLinks` list are left out. Both branches of the accordion test build the same entry. Sorting with the group comparator, which is not an order (see GroupCompareCycle), gives an engine-dependent result.
- DocsStore: `fetchDocLinks`' content query is an input (the list of documents). The insertion order of the group map is the explicit `order` sequence.
