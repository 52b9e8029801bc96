# Game of Life: the simulation core of main.c

This project models the simulation core of a small interactive Game of Life
written in C on top of raylib: the `W_TILES x H_TILES` board of booleans, the
step that recounts every cell's neighbours into a second buffer and copies it
back, the mouse edit of the cell under the cursor, the `W` toggle of
`running`, the hold-to-step key `E`, and the reset key `R`. It proves the
in-place step equal to a pure next-generation function, and proves facts
about that function and about the per-frame state machine.

Modules:

- `Sizing` (sizing.dfy): C's truncating integer division, the grid size
  `W_TILES = WIDTH / TILE`, `H_TILES = HEIGHT / TILE`, and the cell index
  `(int) x / TILE` of an integral world coordinate.
- `Rules` (rules.dfy): the bounded rule as pure functions. `CountFirst`
  follows the program's direction loop. `NeighbourCount` is the same count
  written as eight terms. `NextCell` is the program's two `if`s, and
  `NextGen` is a whole generation computed from the old grid only.
- `Patterns` (patterns.dfy) and `Glider` (glider.dfy): the block, the blinker
  and the glider under that rule. The glider proof works in the unbounded
  plane and carries the result over to the grid with `ClippingInvisible`.
- `Game` (game.dfy): class `Life`, whose `array2<bool>` fields `board` and
  `buffBoard` and `bool` field `running` are updated in place by the
  methods `Step`, `Edit`, `Clear` and `Frame`, mirroring the loops of main.c.
  `NextFrame` is the pure specification of one frame.

Design decisions:

- The board is indexed `board[x, y]` as in main.c, `x` the column
  (`0 <= x < W_TILES`) and `y` the row.
- main.c writes `board[dx][dy]` with no bounds check. So `Edit` and `Frame`
  require the cell to be on the board whenever a write happens
  (`EditInRange`). Out-of-range edits are not silently ignored: the write is
  undefined behaviour in C, and the model follows the code.
  `ClickBesideBoard` shows that this precondition can fail without any
  panning: a click in the unused pixels right of the board in a 10 x 10
  window with 4-pixel tiles names column 2 of a 2-column board.
- The cell index truncates toward zero (C's `/`), not floor. So a world
  coordinate in `(-TILE, 0)` selects cell 0 (`CellOf`, `CellOfInRange`).
- Reset clears the board only. `running` keeps whatever value the `W`
  toggle gave it in that frame (`ResetKeepsRunning`).
- The step is the full recount of main.c. No incremental neighbour-tally
  variant exists in this program, so none is modelled.
- `TILE > 0` is a precondition, because main.c divides by it unchecked. The
  two derived sizes must not be negative, because they size C
  variable-length arrays. A size of 0 (any `TILE` wider than the window) is
  admitted as an empty board: ISO C (C11 section 6.7.6.2) requires a
  variable-length array's size to be positive, so this case follows the
  common compilers, which accept a zero-length array. For `TILE > 0`, C's `int` division cannot overflow.
  The neighbour indices `i ± 1` stay within `int` because `i < W_TILES`. So
  unbounded integers are exact here.

## Model

| member | source | states |
|---|---|---|
| Sizing.TruncDiv | main.c:41-42 | C's `/` for a positive divisor: a non-negative dividend gives the floor quotient, a negative one the quotient rounded up toward zero, each bounded by the dividend within one divisor |
| Sizing.GridSize | main.c:41-42 | W_TILES and H_TILES are the numbers of whole tiles that fit in the window: `W_TILES * TILE <= WIDTH < (W_TILES + 1) * TILE`, the same for H_TILES |
| Sizing.DefaultGrid | main.c:18-20 | the default 800 x 800 window with 4-pixel tiles gives a 200 x 200 grid |
| Sizing.CellOf | main.c:81-82 | the cell of an integral world coordinate is the tile that contains it when the coordinate is non-negative; any coordinate in (-TILE, 0) gives cell 0 and anything further left a negative index |
| Sizing.CellOfInRange | main.c:81-82 | a coordinate names a cell of an axis of `tiles` cells iff it lies in (-TILE, tiles * TILE): one tile wider on the low side than the drawn board |
| Rules.DirectionsAreNeighbours | main.c:67-71 | the offset table holds eight distinct offsets, each at most one step in each axis and none (0, 0): every neighbour of a cell exactly once |
| Rules.Live | main.c:136-142 | an offset contributes 1 iff it lies on the board and its cell is alive; an off-board offset is never read |
| Rules.CountFirst | main.c:134-143 | `total` after `d` rounds of the direction loop; after all eight rounds it equals `NeighbourCount` (proved in `CountAllDirections`); its own contract is only the bound `total <= d` |
| Rules.NeighbourCount | main.c:67-71 | the live-neighbour count is between 0 and 8, at most 3 at a corner and at most 5 on an edge |
| Rules.CountAllDirections | main.c:135-143 | the eight rounds of the program's direction loop count exactly the live on-board neighbours |
| Rules.NextCell | main.c:144-149 | the program's two `if`s on `total`, in their order, applied to the value copied into the buffer: a cell is alive next only with 2 or 3 neighbours, always alive with 3, and with 2 keeps its old value |
| Rules.NextCellIsB3S23 | main.c:144-149 | the program's two tests on `total` are Conway's rule: a cell is alive next iff it has 3 live neighbours, or it is alive and has 2 |
| Rules.NextGen | main.c:130-154 | the next generation has the board's dimensions, and each cell follows B3/S23 applied to counts taken on the old board only |
| Rules.Dead | main.c:55-59 | the cleared board has the board's dimensions and every cell dead |
| Rules.StepCases | main.c:144-148 | after a step a cell with fewer than 2 or more than 3 neighbours is dead, a dead cell with 3 is alive, and every other cell keeps its old value |
| Rules.DeadIsStill | main.c:130-154 | an all-dead board stays all dead |
| Patterns.BlockIsStill | main.c:130-154 | a 2 x 2 block alone on the board is a still life, also when it touches an edge or corner |
| Patterns.RowBecomesColumn | main.c:130-154 | a row of three with a free cell on each side becomes a column of three in one step |
| Patterns.ColumnBecomesRow | main.c:130-154 | a column of three with a free cell on each side becomes a row of three in one step |
| Patterns.BlinkerPeriodTwo | main.c:130-154 | the blinker changes in one step and returns after two: period 2 |
| Glider.PlaneCount | main.c:67-71 | the eight offsets counted without clipping: a reference count for `ClippingInvisible`, which the program does not have; its own contract is only the bound of at most 8 |
| Glider.ClippingInvisible | main.c:135-143 | for a pattern that lies on the board, skipping off-board offsets loses no live neighbour: the clipped count equals the plane count |
| Glider.GridFollowsPlane | main.c:130-154 | a plane generation between two patterns that both lie on the board is what the board's step computes |
| Glider.PlaneStepShift | main.c:130-154 | the rule is translation invariant: moving both patterns keeps a plane step a plane step |
| Glider.PhaseStep | main.c:144-149 | in the unbounded plane, each of the glider's four phases turns into the next under the program's cell rule |
| Glider.GliderGeneration | main.c:130-154 | each of the four glider phases becomes the next in one step when the glider's 4 x 4 box lies on the board |
| Glider.GliderMoves | main.c:130-154 | after four steps the glider is the same shape moved by exactly (1, 1) |
| Game.Paint | main.c:93-99 | the write `board[dx][dy] = v` of an edit: that one cell becomes `v`, every other cell is unchanged, the dimensions are kept |
| Game.Edited | main.c:85-100 | with Space held no cell changes; otherwise the cell under the cursor becomes alive on a left press, else dead on a right press (left wins), and no other cell changes |
| Game.ClickBesideBoard | main.c:81-98 | a left click inside the window but right of the board of a 10 x 10 window with 4-pixel tiles names a column off the 2 x 2 board |
| Game.NextFrame | main.c:125-163 | `W` flips `running` before the step decision; the board steps iff `E` is held or the flipped `running` is set; `R` is applied last, so any frame with `R` ends with an all-dead board |
| Game.PausedIdleFrame | main.c:125-163 | a paused simulation with no input keeps its board and flag |
| Game.RunningIdleFrame | main.c:125-154 | a running simulation with no input advances exactly one generation per frame |
| Game.ToggleBeforeStep | main.c:125-154 | pressing `W` stops a running simulation before this frame's step, and starts a paused one with a step in the same frame |
| Game.ResetKeepsRunning | main.c:156-163 | `R` clears the board and does not touch `running`: a running simulation stays running |
| Game.Copy | main.c:131 | the `memcpy` between the two boards leaves the destination equal to the old source, cell by cell |
| Game.Life.constructor | main.c:54-73 | the board is sized W_TILES x H_TILES from the window and tile sizes, every cell starts dead and `running` starts false |
| Game.Life.CountLive | main.c:134-143 | the direction loop returns the number of live on-board neighbours of the cell |
| Game.Life.UpdateCell | main.c:144-149 | the buffer cell, which holds the cell's old value, becomes the cell's next-generation value, and no other buffer cell changes |
| Game.Life.Step | main.c:130-154 | copy, update and copy back leave the board equal to the next generation of the old board as a whole, in the program's loop order; every count reads the untouched board, so the result depends on the old board alone |
| Game.Life.Edit | main.c:85-100 | the board after the mouse edit is `Edited` of the old board |
| Game.Life.Clear | main.c:157-163 | the reset leaves every cell dead |
| Game.Life.Frame | main.c:125-163 | one pass of the frame loop takes board and `running` to `NextFrame` of the old ones |

## Left out

- Camera, pan and zoom (main.c:48-49, 85-90, 102-119): single-precision float arithmetic inside raylib. The zoom-to-cursor property is about that float camera and is not modelled.
- Screen-to-world mapping and the float-to-int cast (main.c:79-82): the model takes the cell indices `dx`, `dy` as integer inputs. `CellOf` covers only the integer division of an integral world coordinate.
- Command-line parsing (main.c:22-38): it is a thin wrapper over C's `strtol` (ISO C11 section 7.22.1.4), which is not part of this model. None of its checks rejects `TILE <= 0` or a window size that gives a negative grid size; the model requires `TILE > 0` and non-negative sizes instead (the `Life` constructor).
- Drawing and the zoom text (main.c:168-192), window lifecycle and frame pacing (main.c:16, 44-45, 75, 195): I/O through raylib.
- Key and mouse queries (`IsKeyDown`, `IsKeyPressed`, `IsMouseButtonDown`): edge- and level-triggering happen inside raylib. Each frame's decoded booleans form the `Input` value.
- The boards are stack-allocated variable-length arrays. A stack overflow for very large grids is not modelled.
- `memcpy` is specified cell by cell over the two `array2` buffers (`Copy`). Byte layout is not modelled.
