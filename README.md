# Sudoku board checker

A Dafny model of the board of a Unity Sudoku game (`SudokuGame/Scripts/Game/Board.cs`).
The board holds a 9x9 array of tiles, indexed `tiles[x, y]` with x the column and
y the row. A tile holds an integer value, and 0 means the tile is empty. On a
non-constant board, `LoadTilesToArray` subscribes `CheckBoard` to each tile's
`ValueChanged` event (Board.cs:57-59). `CheckBoard` makes three passes and stops
at the first failure:

- `CheckRows`: each row must hold no 0 and no value twice. A running `HashSet` is
  emptied after each row.
- `CheckColumns`: the same check, transposed.
- `CheckBoxes`: the same check on each of the nine 3x3 boxes, box row by box row
  (`CheckSingleBox`).

`SudokuCorrect` is raised only if all three passes succeed. `SetLevel` copies
the tiles that a level shows into the board as constants. `Clear` empties
every tile. `LoadTilesToArray` puts each tile into its slot: tile (tileX, tileY)
of group (groupX, groupY) goes to (3·groupX + tileX, 3·groupY + tileY).

The model has two files:

- `sudoku_rules.dfy` (module `SudokuRules`) states the rules over values. A
  `Grid` is a `seq<seq<int>>` indexed `g[x][y]`, like the tile array. It defines
  `Row`, `Column` and `Box`, with `Box` listing its tiles in the order the checker
  visits them. It also defines `RowOk`, `ColumnOk`, `BoxOk` ("no empty tile, no
  value twice") and `Solved`. The lemmas about them cover: the set-based scan,
  empty tiles, the fact that each unit depends only on its own tiles, the
  equivalence with "each unit holds 1..9 exactly once", and three concrete boards
  (`Stripes`, `Canonical` and `Latin`).
- `game_board.dfy` (module `Game`) holds the class `Board`. Its `tiles: array2<int>`
  holds the values and `fixed: array2<bool>` marks the constants. The methods
  follow the C# loops, with a `set<int>` standing in for the `HashSet<int>`,
  and each is proved against the predicates above. The module also holds
  `Level`, the overlay that `SetLevel` performs, and the tile-slot arithmetic.

Events are return values. `CheckBoard` returns `correct`, which says whether
`SudokuCorrect` is raised. As ghost outputs, it also returns the passes that ran,
and each pass returns the row, column or box that it reports in its log line.

Some behaviour of `BoardTile` (its source is not part of this model) is assumed:
- `SetConstantValue(v)` sets the value to v and marks the tile constant.
- `Clear()` sets the value to 0 and removes the constant mark.
- `LoadTilesToArray` fills every slot of the array with a tile whose initial
  value is 0 and that is not constant. Line 16 of `Board.cs` only allocates 81
  null references; a slot left unfilled would make `CheckRows` throw a
  `NullReferenceException`, which the model does not capture.

The checker does not assume a value range. Values are unbounded integers, which
is exact, because the C# code only compares them.

What `Board.cs` does, and so what the model does:
- `Board.cs` has no `setValue`, `setConstant` or `valueAt` operation, and no
  error cases for bad positions, bad digits or constant tiles.
- It checks each unit for "no 0 and no repeat", not for "a permutation of 1..9".
  `SolvedIffSudoku` proves the two agree when every value is in 0..9.
- It returns no per-unit validation result; it only raises `SudokuCorrect`.
- A pass stops at the first failing tile, so a failing first row can cost fewer
  than nine reads.

## Model

| member | source | states |
|---|---|---|
| Game.Board.CheckRows | SudokuGame/Scripts/Game/Board.cs:77-95 | returns true iff every row y in 0..8 has no 0 and nine pairwise distinct values; on false, the reported row fails and every earlier row passes |
| Game.Board.CheckColumns | SudokuGame/Scripts/Game/Board.cs:97-115 | returns true iff every column x in 0..8 has no 0 and nine pairwise distinct values; on false, the reported column fails and every earlier column passes |
| Game.Board.CheckSingleBox | SudokuGame/Scripts/Game/Board.cs:130-145 | returns true iff the nine tiles with x in [3·boxX, 3·boxX+3) and y in [3·boxY, 3·boxY+3) hold no 0 and are pairwise distinct |
| Game.Board.CheckBoxes | SudokuGame/Scripts/Game/Board.cs:117-128 | returns true iff all nine boxes pass; on false, the reported box fails and every box visited before it (earlier box row, or same box row and further left) passes |
| Game.Board.CheckBoard | SudokuGame/Scripts/Game/Board.cs:69-75 | SudokuCorrect is raised iff rows, columns and boxes all pass; the passes run in order, columns only if rows passed, boxes only if rows and columns passed |
| Game.Board.SetLevel | SudokuGame/Scripts/Game/Board.cs:32-42 | every tile the level displays gets the level's value and becomes constant; every other tile keeps its value and its constant mark |
| Game.Board.Clear | SudokuGame/Scripts/Game/Board.cs:28-30 | every tile becomes empty (0) and non-constant |
| Game.Board.constructor | SudokuGame/Scripts/Game/Board.cs:16 | a fresh 9x9 board of empty, non-constant tiles, the state once `LoadTilesToArray` has filled every slot with a tile of initial value 0 |
| SudokuRules.ScanNext | SudokuGame/Scripts/Game/Board.cs:82-88 | with the values seen so far held in a set, a next value that is 0 or already in the set makes the whole unit fail; any other value, once added, keeps the set equal to the values seen and the prefix passing |
| SudokuRules.BoxTile | SudokuGame/Scripts/Game/Board.cs:132-137 | tile (x, y) of box (boxX, boxY) is visited at place 3·(y − 3·boxY) + (x − 3·boxX), row by row and left to right |
| SudokuRules.BoxOfCell | SudokuGame/Scripts/Game/Board.cs:117-119 | every tile (x, y) lies in box (x/3, y/3), which the box pass visits |
| SudokuRules.EmptyCellNeverSolved | SudokuGame/Scripts/Game/Board.cs:84 | a board with any empty tile fails the row pass, the column pass and the box pass, so it is never reported solved |
| SudokuRules.EmptyGridNotSolved | SudokuGame/Scripts/Game/Board.cs:28-30 | a cleared board is not solved |
| SudokuRules.RowOkLocal | SudokuGame/Scripts/Game/Board.cs:80-92 | whether row y passes depends only on row y, because the seen-set is emptied after each row |
| SudokuRules.ColumnOkLocal | SudokuGame/Scripts/Game/Board.cs:100-112 | whether column x passes depends only on column x, because the seen-set is emptied after each column |
| SudokuRules.BoxOkLocal | SudokuGame/Scripts/Game/Board.cs:131-142 | whether a box passes depends only on the nine tiles inside it, because each box gets a fresh set |
| SudokuRules.RepeatAcrossRowsAllowed | SudokuGame/Scripts/Game/Board.cs:91 | a value repeated across different rows is no failure: a board whose every row is 1..9 passes the row pass |
| SudokuRules.UnitOkIffDigits | SudokuGame/Scripts/Game/Board.cs:84-88 | for nine values in 0..9, "no 0 and no repeat" holds iff the values are exactly {1..9} |
| SudokuRules.SolvedIffSudoku | SudokuGame/Scripts/Game/Board.cs:69-75 | on a board of values in 0..9, the three passes succeed iff every row, column and box holds exactly the digits 1..9 |
| SudokuRules.CanonicalSolved | SudokuGame/Scripts/Game/Board.cs:69-75 | a board holding a complete valid solution passes all three passes |
| SudokuRules.BoxPassNeeded | SudokuGame/Scripts/Game/Board.cs:72 | the box pass is not redundant: a Latin square passes every row and every column, yet fails at box (0, 0) and is not solved |
| Game.OverlayIdempotent | SudokuGame/Scripts/Game/Board.cs:32-40 | loading the same level twice leaves the same values as loading it once |
| Game.OverlayShowingAll | SudokuGame/Scripts/Game/Board.cs:32-40 | a level that displays every tile replaces the whole board, so the board is then solved iff the level's values are |
| Game.TileSlot | SudokuGame/Scripts/Game/Board.cs:53-54 | the slot of tile (tileX, tileY) in group (groupX, groupY) is (3·groupX + tileX, 3·groupY + tileY); for coordinates in 0..2 it lies on the board and lies in box (groupX, groupY) |
| Game.TileSlotInRange | SudokuGame/Scripts/Game/Board.cs:53-54 | group and tile coordinates in 0..2 give a slot with x and y in 0..8 |
| Game.TileSlotInjective | SudokuGame/Scripts/Game/Board.cs:53-56 | two different (group, tile) pairs never get the same slot, so no slot is assigned twice |
| Game.TileSlotInverse | SudokuGame/Scripts/Game/Board.cs:53-54 | the slot determines the pair: the group is the slot divided by 3, the tile is the remainder |
| Game.TileSlotCoversBoard | SudokuGame/Scripts/Game/Board.cs:53-54 | every one of the 81 slots is the slot of some (group, tile) pair |

## Left out

- `SudokuGame/Scripts/MainMenu/MatchHistoryEntry.cs`: it only binds UI text and colours, and has no logic to model.
- `Start` and `Update`: these are Unity lifecycle hooks. `Update` is a debug hook driven by keyboard input and `Random.Range`.
- `LoadTilesToArray`'s scene-graph walk is not modelled; only its index arithmetic is (`TileSlot`). That covers the `Transform` iteration, the digits parsed from object names with `char.GetNumericValue`, `GetComponent`, disabling colliders on a constant board, subscribing to `TilePressed` and `ValueChanged`, and the `BoardFinishedLoading` event.
- The `BoardReadyToPlay` event that `SetLevel` raises at its end: this is event plumbing with no state.
- `Debug.Log` calls are not modelled as output. The row, column or box they report is returned as a ghost out-parameter.
- `SudokuCorrect` is raised in C# only when someone subscribes. The model returns whether it is raised, and leaves out the subscriber list.
- `Game.Board.SetLevel`, `Game.Board.Clear`: any `CheckBoard` runs set off by the tiles' `ValueChanged` event while these methods change tiles are not modelled, because whether `SetConstantValue` and `BoardTile.Clear` raise that event is up to `BoardTile`. Neither method runs the check in the model, so a level that shows every tile is not reported solved while it loads.
- `Game.Board.constructor`: the 81 null slots that line 16 allocates, and the `NullReferenceException` a slot left unfilled by `LoadTilesToArray` would cause, are not modelled; the constructor gives the state after every slot is filled.
- `BoardTile` is not part of this model. The model uses the assumptions stated above: tile values are unbounded integers, and nothing stops a constant tile from being overwritten.
