# Falling-block puzzle engine, modelled in Dafny

This project models the game-logic engine of a browser falling-block
(Tetris-style) puzzle, whose whole implementation is `script.js`. The
board is 10 columns by 20 rows. The seven tetrominoes spawn at column 3,
row 0. A piece moves sideways, turns clockwise with a one-column wall kick,
and soft-drops or hard-drops. When a piece locks, it is merged into the
board, full rows are cleared with a bottom-up scan, points are scored from
a fixed table, and the gravity interval is recomputed from the score
(between 95 and 520 ms; the first lock raises the starting 500 to 520,
and after that it only falls as the score crosses multiples of 650). A time accumulator
turns frame timestamps into gravity ticks. While the game is over, every
input except "restart" is ignored.

Files and modules:

- `board.dfy`, module `Board`: cells, the grid and `createGrid`.
  - `collides`: the method `Collides`, specified by the predicate `Blocked`.
  - `merge`: the method `Merge`, specified by the function `Merged`.
  - `clearLines`: the method `ClearLines`, specified by the function `Cleared`, which uses `FullCount` and `Kept`.
  - `getGhostY`: the method `GetGhostY`, specified by the function `DropRow` and the predicate `IsLanding`.
- `pieces.dfy`, module `Pieces`: the shape and colour tables, `pickPiece` (the function `PickPiece`) and `rotate` (the method `Rotate`, specified by the function `Rotated`).
- `engine.dfy`, module `Engine`:
  - the scoring table `Points` and the speed formula `Interval`;
  - the datatype `State`, which holds the module-level variables `grid`, `current`, `score`, `linesTotal`, `gameOver`, `paused`, `dropCounter`, `lastTime` and `dropInterval`;
  - one ghost function per operation on `State`: `UpdateScoreSpec`, `LockSpec`, `SoftDropSpec`, `HardDropSpec`, `MoveSpec`, `TurnSpec`, `RestartSpec`, `TogglePauseSpec`, `StepSpec` and `ActionSpec`. Each follows the source's branches; the lemmas reason about these functions;
  - the invariant `Inv`, which holds between any two operations;
  - two methods on values that the class uses: `Settle` (the `merge` then `clearLines` of `lockAndNext`) and `TurnPlacement` (the three collision tests of `turn`, specified by the ghost function `TurnedPlacement`);
  - the class `Game`. Its fields are the module-level variables. Each method updates them step by step, as the script does, and its `ensures` ties `Abs()` (the fields as a `State`) to the operation's ghost function applied to the old state.

Inputs that the source takes from the environment are parameters here:

- the random index drawn by `pickPiece` is `idx: ShapeIndex` (0 to 6);
- the value `performance.now()` read by `restart` is `now`;
- frame timestamps are integer milliseconds.

The matrix cells `1`/`0` are modelled as `true`/`false`; the source only tests whether a cell is truthy. Grid cells are `Empty` (the source's `0`) or `Block(color)`. Grids, rows and pieces are values. The source never shares a row or a matrix between two places: `createGrid` and `clearLines` build fresh rows, and `pickPiece` copies the shape rows. So updating a copy in the model behaves like the source's in-place writes.

The engine methods that can spawn a piece or end the game require `!gameOver`. These are `LockAndNext`, `SoftDrop` and `HardDrop`. The source reaches them only through `step` and `triggerAction`, and both stop first when the game is over. `merge` needs every occupied cell of the piece to lie on a column of the board and above the floor: the source does not check this and would otherwise write past the row or fail. The invariant places the piece of a running game where it does not collide, and a piece there always meets that bound (`NotBlockedFits`).

## Model

| member | source | states |
|---|---|---|
| `Board.CreateGrid` | script.js:154-156 | the new grid has ROWS rows of COLS cells, and every cell is empty |
| `Board.Collides` | script.js:175-186 | returns true exactly when some occupied matrix cell, placed at the piece position plus the offsets, lands left of column 0, at or right of COLS, at or below row ROWS, or on a filled cell of a row >= 0; a cell above row 0 never collides on its own |
| `Board.BlockedBelowFloor` | script.js:181 | a matrix with an occupied cell, placed at or below the floor, collides; this is why the drop loops stop |
| `Board.NotBlockedFits` | script.js:188-197 | a placement that does not collide keeps every occupied cell within the columns and above the floor, which are the bounds `merge` relies on |
| `Board.Merge` | script.js:188-197 | the result equals `Merged`: the piece's colour on exactly the board cells under an occupied matrix cell (only rows >= 0 exist on the board), and every other cell as before |
| `Board.MergedShowsPiece` | script.js:188-197 | after the merge, every occupied matrix cell on a row >= 0 shows the piece's colour at (piece.y + y, piece.x + x), and rows outside the piece's reach are untouched |
| `Board.KeptLength` | script.js:199-210 | the kept rows plus the full rows number exactly the input rows; every kept row is not full and is a row of the input |
| `Board.ClearedWF` | script.js:199-210 | after clearing, the grid still has ROWS rows of COLS cells and holds no full row |
| `Board.KeptNoFull` | script.js:199-210 | when no row is full, every row is kept in place and none is counted |
| `Board.ClearedIdempotent` | script.js:199-210 | clearing an already cleared grid finds 0 lines and changes nothing |
| `Board.FullCountWindow` | script.js:199-210 | if every full row has its index in [lo, hi), there are at most hi - lo full rows |
| `Board.ClearLines` | script.js:199-210 | the bottom-up scan with the splice, the unshift and the index retest returns `Cleared(grid)`: one empty row on top for each full row, then the rows that were not full, in their original order. The count it returns is the number of full rows in the input, adjacent and cascading ones included |
| `Board.MergedFullRowsBound` | script.js:300-302 | merging into a grid with no full row fills at most as many rows as the piece is tall |
| `Board.DropRowLands` | script.js:227-233 | the ghost row is at or below the piece's row, the row after it collides, and every row passed on the way down is free |
| `Board.LandingIsDropRow` | script.js:227-233 | any row with those three properties is the ghost row, so together with `DropRowLands` the ghost row is exactly the landing row |
| `Board.DropRowFree` | script.js:227-233 | if the start does not collide, the piece does not collide at its ghost row |
| `Board.GetGhostY` | script.js:227-233 | the loop returns `DropRow(grid, piece)`, which is the landing row (at or below the start, free on the way, blocked one row further); it requires an occupied cell, without which the source loops forever |
| `Pieces.PickPiece` | script.js:158-161 | the picked piece is a shape (rectangular, at least one column, at least one occupied cell) of at most 2 x 4 cells, at column floor(10 / 2) - 2 = 3 and row 0, whatever the shape's width |
| `Pieces.SpawnFreeOnEmpty` | script.js:158-161 | a freshly picked piece does not collide on an empty board, at any row from its spawn row down to ROWS - 2 |
| `Pieces.Rotate` | script.js:163-173 | the nested loops over a zero-filled w x h matrix return `Rotated(m)`, which has w rows of h cells |
| `Pieces.Rotated` | script.js:163-173 | the quarter turn of an h x w matrix has w rows of h cells |
| `Pieces.RotatedAt` | script.js:169 | input cell (y, x) lands at (x, h - 1 - y), and output cell (i, j) is input cell (h - 1 - j, i) |
| `Pieces.RotatedIsRect` | script.js:163-173 | the quarter turn of a rectangular matrix with at least one column is rectangular again, with h columns |
| `Pieces.RotatedTwice` | script.js:163-173 | two quarter turns are the half turn (cell (i, j) is input cell (h - 1 - i, w - 1 - j)) |
| `Pieces.HalfTurnTwice` | script.js:163-173 | two half turns give back the matrix |
| `Pieces.RotatedFourTimes` | script.js:163-173 | four clockwise rotations give back the original matrix |
| `Pieces.TurnedCard` | script.js:169 | the cell map (y, x) to (x, h - 1 - y) never sends two cells to the same place, so a set of cells keeps its size |
| `Pieces.RotatedKeepsCells` | script.js:163-173 | the occupied cells of the rotated matrix are exactly the images of the input's occupied cells, so their number is the same; a matrix with an occupied cell keeps one |
| `Pieces.RotatedIsShape` | script.js:163-173 | the rotation of a shape is a shape |
| `Engine.Points` | script.js:293-294 | the points lookup `[0, 120, 320, 560, 900][lines] ?? lines * 220` gives 0 exactly when no line is cleared |
| `Engine.PointsMonotone` | script.js:293-294 | clearing more lines at once never earns fewer points, past the end of the table too |
| `Engine.PointsFourLineBonus` | script.js:293 | four lines at once pay more than four single lines (900 > 480) |
| `Engine.Interval` | script.js:309 | max(95, 520 - floor(score / 650) * 20) lies between 95 and 520 |
| `Engine.IntervalMonotone` | script.js:309 | a higher score never gives a longer interval |
| `Engine.RestartKeepsInv` | script.js:361-374 | restart gives a state that meets the invariant: an empty grid, score and line total 0, and a running game |
| `Engine.LockKeepsInv` | script.js:300-317 | a lock restores the invariant from any well-formed grid, whatever the old interval. The grid keeps its shape and has no full row, and the interval stays in [95, 520]. If the new piece collides the game is over; otherwise it sits at a legal place |
| `Engine.MoveKeepsInv` | script.js:334-339 | a move keeps the invariant, because only a shift that does not collide is accepted |
| `Engine.TurnKeepsInv` | script.js:341-359 | a turn keeps the invariant: the rotated matrix is still a shape, and it is installed only where it does not collide |
| `Engine.SoftDropKeepsInv` | script.js:319-326 | a soft drop keeps the invariant |
| `Engine.HardDropKeepsInv` | script.js:328-332 | a hard drop keeps the invariant |
| `Engine.StepKeepsInv` | script.js:376-394 | a frame step keeps the invariant |
| `Engine.ActionKeepsInv` | script.js:401-429 | every input action keeps the invariant |
| `Engine.StepCounterBelowInterval` | script.js:384-390 | after a step of a running, unpaused game, the drop counter is below the interval: either it did not reach the interval, or it was reset to 0 after the one soft drop |
| `Engine.TurnResult` | script.js:341-359 | a turn either changes nothing, or installs the quarter turn of the old matrix shifted by 0, -1 or +1, at the same row and colour, at a place that does not collide; the piece keeps its number of cells |
| `Engine.HardDropLandsAtGhost` | script.js:328-332 | the hard drop puts the piece at its ghost row, which is the landing row and a free place. The grid afterwards is the cleared merge of the piece at that row, and every cell of the piece on the board lies within the board and shows its colour in the merge |
| `Engine.LockClearsAtMostFour` | script.js:292-309 | a lock in play clears at most four lines. The score grows by the table entry for that count, so the `lines * 220` fallback is never used, and the line total grows by the count |
| `Engine.OLandsOnFloor` | script.js:328-329 | the O piece spawned on an empty board has row 18 as its landing row, so its cells go to rows 18 and 19 |
| `Engine.OMergedOnFloor` | script.js:301-302 | the O piece merged at rows 18 and 19 of an empty board fills columns 3 and 4 of both rows with its colour; no row is full, so clearing changes nothing and counts 0 lines |
| `Engine.ODropsToFloor` | script.js:328-332 | after a restart with the O piece, the hard drop lands it on rows 18 and 19 of the empty board. Its four cells get its colour, and no line is cleared or scored |
| `Engine.Apply` | script.js:376-429 | one frame (`step`) or one input (`triggerAction`) keeps the invariant |
| `Engine.Run` | script.js:376-429 | any sequence of frames and inputs keeps the invariant |
| `Engine.GameOverFrozen` | script.js:376-402 | once the game is over, no sequence of frames and inputs without "restart" changes any part of the state |
| `Engine.ApplyAsWritten` | script.js:376-394 | the frame loop as the script runs it keeps the invariant; `step` requests a next frame only when the game was not over, and no input requests one |
| `Engine.ApplyFixed` | script.js:361-394 | the frame loop with "restart" requesting a frame keeps the invariant |
| `Engine.FixedLoopStaysLive` | script.js:361-394 | with the fix, every event keeps "a running game has a frame scheduled" |
| `Engine.RunFixed` | script.js:376-429 | any sequence of events under the fixed loop keeps the invariant |
| `Engine.FixedRunStaysLive` | script.js:376-429 | with the fix, a live session stays live through any sequence of frames and inputs |
| `Engine.RestartLeavesLoopStopped` | script.js:376-380 | as written, after a game over, one frame and a restart, the new game runs with no frame scheduled, and a later frame changes nothing |
| `Engine.RestartRearmsLoop` | script.js:361-374 | with the fix, the same events leave a frame scheduled, and the frame 500 ms after the restart moves the new piece down one row |
| `Engine.Game.constructor` | script.js:282-290 | the initial variables: an empty grid, the picked piece, zero counters, flags off, clock 0 and interval 500 (not the 520 the formula would give) |
| `Engine.Game.UpdateScore` | script.js:292-298 | adds `Points(lines)` to the score and `lines` to the line total; nothing else changes |
| `Engine.Settle` | script.js:301-302 | the grid after `merge` and `clearLines` is the cleared merge of the piece, the count returned is the number of full rows of the merge, and the result has its fixed size and no full row |
| `Engine.TurnPlacement` | script.js:341-359 | rotates the matrix and tries the shifts 0, -1 and +1 in that order; the result is the rotated piece at the first shift that does not collide, or the piece unchanged when all three collide (`TurnedPlacement`) |
| `Engine.Game.LockAndNext` | script.js:300-317 | merges, clears and, only when `lines > 0`, updates the score. It then sets the interval from the new score and spawns piece `idx`. The game becomes over exactly when the new piece collides on the cleared grid. The invariant is kept |
| `Engine.Game.SoftDrop` | script.js:319-326 | moves the piece down one row and returns true if that row is free; otherwise it locks (as `LockAndNext`) and returns false |
| `Engine.Game.HardDrop` | script.js:328-332 | the loop moves `current.y` to exactly `DropRow(grid, current)`, the row `getGhostY` returns, and then locks |
| `Engine.Game.Move` | script.js:334-339 | changes `current.x` by dx if the shifted piece does not collide, and otherwise changes nothing |
| `Engine.Game.Turn` | script.js:341-359 | replaces the piece by its turned placement: the rotated matrix at the first of the shifts 0, -1, +1 that does not collide, or the piece unchanged if all three collide. No other variable changes, and the invariant is kept |
| `Engine.Game.Restart` | script.js:361-374 | gives an empty grid, piece `idx`, score and lines 0 (with `updateScore(0)`), flags off, counter 0, interval 500 and `lastTime = now` |
| `Engine.Game.Step` | script.js:376-394 | does nothing while the game is over. Otherwise it sets `lastTime = timestamp`; unless paused, it adds the delta to `dropCounter`, and when the counter reaches `dropInterval` it soft-drops once and resets the counter to 0 |
| `Engine.Game.TogglePause` | script.js:396-399 | flips `paused`, nothing else |
| `Engine.Game.TriggerAction` | script.js:401-429 | while the game is over it ignores every action except "restart". Otherwise it dispatches "left", "right", "down", "drop", "rotate", "pause" and "restart" to their operations, and an unknown action changes nothing |

## Left out

- `AudioEngine` (script.js:45-150) and every `audio.*` call: these are Web Audio oscillators, noise buffers and a music timer, with floating-point synthesis.
- Rendering: `draw` and `drawCell` (script.js:235-280) are canvas drawing. `getGhostY` is modelled; only its use inside `draw` is left out.
- DOM feedback: `shakeBoard`, `showCombo` (including the choice of the "MEGA CLEAR" text at 4 or more lines) and the `textContent` updates in `updateScore`, `lockAndNext`, `restart` and `togglePause`. These are presentation only.
- Event wiring: the keyboard, button, touch and pointer listeners (script.js:431-475) are not modelled; actions reach the model as `TriggerAction` calls or `Press` events.
- `requestAnimationFrame` (script.js:393, 478): the class method `Game.Step` is a single call with a timestamp. The frame loop itself is modelled only by the `Session` functions used for the finding below.
- `Math.random` in `pickPiece`: replaced by the shape index parameter. `performance.now()` and the frame timestamps are replaced by integer milliseconds given as parameters.
- Default parameters: `collides`' default `matrix = piece.matrix` and the defaults `lines = 0` and `timestamp = 0` are not modelled; callers pass every argument.
- Number width: the score, the line total and the timestamps are unbounded integers. The source's numbers are doubles, which are exact only up to 2^53.
- `Pieces.Rotate` requires a rectangular matrix with at least one row. On an empty matrix the source fails, and on a ragged one it copies `undefined` cells; neither kind of matrix ever reaches `rotate`.
- `Board.Merge` requires every occupied cell of the piece to lie within the columns and above the floor. The source writes out of the row or fails in other cases, and its callers never pass such a piece.

## Findings

| source | as written | input that shows it | evidently intended | confidence | as-written member | corrected member |
|---|---|---|---|---|---|---|
| script.js:376-394 | `step` requests the next frame only when the game is not over, and `restart` (script.js:361-374) never requests one. So once a frame has run after the game over, the frame loop stops for good. | a game ends, one frame runs, then "restart": the new game has no frame scheduled, so gravity never ticks and the board is never redrawn | `restart` re-arms the frame loop, so a running game always has a frame scheduled | high; not executed | `Engine.RestartLeavesLoopStopped` | `Engine.RestartRearmsLoop` |
