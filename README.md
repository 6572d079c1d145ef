# Snake game tick, modelled in Dafny

This project models the game engine of the snake game in
`app/src/main/java/com/example/snackgame/MainActivity.kt`: the `Game`
object, its published `State` (food cell and body, head first), the tick
loop's length counter `snackLenth` and the `move` direction field.

Each tick adds `move` to the head and wraps it around the 22×22 toroidal
board. It raises the counter by one when the new head is on the food. It
resets the counter to 4 when the new head lands on any cell of the body as
it was before the move; that reset is applied second, so it wins. Eaten
food respawns at a randomly drawn cell. The new body is the new head
followed by the first `snackLenth - 1` cells of the old body.

- `board.dfy` (module `Board`): cells and direction vectors as pairs of
  Kotlin `Int`s. The head step `(c + d + BOARD_SIZE) % BOARD_SIZE` is written
  with Kotlin's 32-bit wrapping addition and its truncating `%`, because the
  setter accepts any pair. Lemmas show that this is plain modular arithmetic
  for unit moves, that the edges wrap, and that the opposite move undoes a move.
- `rules.dfy` (module `Rules`): one tick as a pure function on a snapshot
  `(state, snackLen, move)`, the setter, runs of interleaved ticks and setter
  calls, and the lemmas about them.
- `engine.dfy` (module `Engine`): the class `Game` with fields `state`,
  `snackLen` and `move`. Its methods `Tick` and `SetMove` update those fields
  step by step as the source does. Each method is proved equal to the pure
  step in `Rules`.

The random food draw is the parameter `rnd` of `Tick`. The precondition
`OnBoard(rnd)` is the guarantee `Random.nextInt(BOARD_SIZE)` gives.

Growth is immediate: the counter is raised before the body is rebuilt, so
on a full body a meal adds the cell in the same tick
(`Rules.EatingGrowsFullBody`). The board is 22 cells wide (`BOARD_SIZE`,
line 115).

## Model

| member | source | states |
|---|---|---|
| `Board.Wrap32` | app/src/main/java/com/example/snackgame/MainActivity.kt:85-86 | Kotlin `Int` addition: the result is a 32-bit value congruent to the sum modulo 2^32, and equal to it when the sum fits |
| `Board.BoardRem` | app/src/main/java/com/example/snackgame/MainActivity.kt:85-86 | Kotlin `% BOARD_SIZE`: the remainder is below the board size in magnitude, has the dividend's sign and differs from the dividend by a multiple of the board size |
| `Board.ButtonMoveIsUnit` | app/src/main/java/com/example/snackgame/MainActivity.kt:174-193 | every direction the four arrow buttons send is a non-zero unit move |
| `Board.NextCoord` | app/src/main/java/com/example/snackgame/MainActivity.kt:85-86 | one coordinate of the head step on Kotlin `Int`; it stays strictly inside (-22, 22), and for an on-board coordinate and a unit step it is `(c + d) mod 22`; the general case is `NextCoordIsModulo` and `NextCoordOnBoardIff` |
| `Board.NextHead` | app/src/main/java/com/example/snackgame/MainActivity.kt:82-89 | the head plus `move`, wrapped on both axes; from an on-board head with a unit move it is the coordinate-wise `mod 22` sum and lies on the board |
| `Board.NextCoordIsModulo` | app/src/main/java/com/example/snackgame/MainActivity.kt:84-87 | for an on-board coordinate and no overflow, a step with a non-negative offset sum is `(c + d) mod BOARD_SIZE` |
| `Board.NextCoordOnBoardIff` | app/src/main/java/com/example/snackgame/MainActivity.kt:84-87 | for an on-board coordinate and no overflow, the new coordinate is on the board if and only if `c + d + BOARD_SIZE` is non-negative or `c + d` is a multiple of the board size |
| `Board.UnitMoveStaysOnBoard` | app/src/main/java/com/example/snackgame/MainActivity.kt:82-89 | from a cell on the board, a move with components in [-1, 1] gives a new head on the board |
| `Board.EdgesWrap` | app/src/main/java/com/example/snackgame/MainActivity.kt:85 | moving +x from column 21 enters column 0, and moving -x from column 0 enters column 21 |
| `Board.EdgesWrapVertically` | app/src/main/java/com/example/snackgame/MainActivity.kt:86 | moving +y from row 21 enters row 0, and moving -y from row 0 enters row 21 |
| `Board.LongLeftMoveLeavesBoard` | app/src/main/java/com/example/snackgame/MainActivity.kt:85-86 | an unvalidated move further left than a board width can give a negative coordinate |
| `Board.NextCoordUndo` | app/src/main/java/com/example/snackgame/MainActivity.kt:85-86 | along one axis, the opposite unit step returns to the starting coordinate |
| `Board.NextHeadUndo` | app/src/main/java/com/example/snackgame/MainActivity.kt:82-89 | the opposite unit move returns the head to the cell it came from |
| `Rules.Take` | app/src/main/java/com/example/snackgame/MainActivity.kt:107 | Kotlin `take(n)`: the first `min(n, size)` elements of the list |
| `Rules.NextLength` | app/src/main/java/com/example/snackgame/MainActivity.kt:91-97 | the counter update: 4 on collision, otherwise +1 on food and unchanged without; a counter of at least 4 stays at least 4 |
| `Rules.Tick` | app/src/main/java/com/example/snackgame/MainActivity.kt:79-108 | one tick on a snapshot: the body starts with the new head, eaten food moves to the draw and uneaten food stays, `move` is unchanged; the growth, reset, body and invariant rules are `TickLength`, `TickBody`, `TickFood` and `TickKeepsInv` |
| `Rules.SetMove` | app/src/main/java/com/example/snackgame/MainActivity.kt:66-73 | the setter on a snapshot: the direction becomes `m` and the state and the counter are unchanged |
| `Rules.TickLength` | app/src/main/java/com/example/snackgame/MainActivity.kt:91-97 | the counter grows by exactly 1 on food without collision, is unchanged without either, and is 4 after a collision even when food was eaten on that tick |
| `Rules.TickLengthAtLeastInitial` | app/src/main/java/com/example/snackgame/MainActivity.kt:77-107 | a counter of at least 4 stays at least 4, so `take(snackLenth - 1)` never gets a negative count |
| `Rules.TickBody` | app/src/main/java/com/example/snackgame/MainActivity.kt:107 | the new body starts with the new head, its remainder is the first `snackLenth - 1` old cells, its length is `min(snackLenth, old length + 1)` and it is not empty |
| `Rules.TickFood` | app/src/main/java/com/example/snackgame/MainActivity.kt:100-105 | uneaten food is unchanged; eaten food moves to the drawn cell, which is on the board |
| `Rules.FoodCanSpawnUnderHead` | app/src/main/java/com/example/snackgame/MainActivity.kt:100-105 | the respawn does not exclude body cells: the draw of the new head's cell puts food under the head |
| `Rules.TickKeepsMove` | app/src/main/java/com/example/snackgame/MainActivity.kt:79-110 | a tick only reads the direction, never writes it |
| `Rules.SetMoveThenTick` | app/src/main/java/com/example/snackgame/MainActivity.kt:66-73 | setting the direction leaves the state and counter unchanged, and the next tick moves the head by the direction set |
| `Rules.TickKeepsWellFormed` | app/src/main/java/com/example/snackgame/MainActivity.kt:76-111 | for any direction, a tick keeps the body non-empty, the counter at least 4 and at least the body length, and the food on the board |
| `Rules.TickKeepsSlack` | app/src/main/java/com/example/snackgame/MainActivity.kt:77-107 | the counter exceeds the body length by at most 3 before and after a tick |
| `Rules.TickKeepsInv` | app/src/main/java/com/example/snackgame/MainActivity.kt:82-108 | with a unit direction, a tick also keeps every body cell on the board |
| `Rules.ReversalResets` | app/src/main/java/com/example/snackgame/MainActivity.kt:85-97 | after a tick with a unit move, turning back the opposite way makes the next tick's head equal the second body cell, a collision that resets the counter to 4 |
| `Rules.TurningBackResets` | app/src/main/java/com/example/snackgame/MainActivity.kt:85-97 | on a body of at least 2 cells, a direction that takes the head onto the second cell is a collision and resets the counter to 4 |
| `Rules.EatingGrowsFullBody` | app/src/main/java/com/example/snackgame/MainActivity.kt:91-107 | on a body as long as the counter, eating without collision adds exactly one cell in that tick |
| `Rules.MovingKeepsFullBody` | app/src/main/java/com/example/snackgame/MainActivity.kt:107 | on a full body, a tick without food or collision keeps the length and drops exactly the tail cell |
| `Rules.Apply` | app/src/main/java/com/example/snackgame/MainActivity.kt:66-111 | a tick or a setter call, whatever direction is set, keeps the snapshot well formed |
| `Rules.Run` | app/src/main/java/com/example/snackgame/MainActivity.kt:79-110 | any sequence of ticks and setter calls keeps the snapshot well formed |
| `Rules.InitialInv` | app/src/main/java/com/example/snackgame/MainActivity.kt:63-77 | the initial food (5, 5), body [(7, 7)], counter 4 and direction (1, 0) satisfy the board invariant |
| `Rules.RunKeepsInv` | app/src/main/java/com/example/snackgame/MainActivity.kt:66-111 | any run of arrow-button presses and ticks keeps the board invariant |
| `Rules.ReachableInv` | app/src/main/java/com/example/snackgame/MainActivity.kt:63-111 | from the initial state, after any run of button presses and ticks, the food and every body cell are on the board, the body is non-empty and the counter is at least 4 |
| `Engine.Game.constructor` | app/src/main/java/com/example/snackgame/MainActivity.kt:62-77 | the game starts with food (5, 5), body [(7, 7)], counter 4 and direction (1, 0), which satisfy the board invariant |
| `Engine.Game.SetMove` | app/src/main/java/com/example/snackgame/MainActivity.kt:66-73 | the setter writes `move` and leaves `state` and `snackLen` unchanged |
| `Engine.Game.Tick` | app/src/main/java/com/example/snackgame/MainActivity.kt:79-109 | the step-by-step tick leaves the fields equal to the pure tick of the old fields, and keeps well-formedness and the board invariant |

## Left out

- The Compose UI (`Snack`, `Board`, `Buttons`) and the activity lifecycle are rendering. The setter's only caller is the buttons (line 129), so the board-invariant lemmas `Rules.RunKeepsInv` and `Rules.ReachableInv` assume the four directions they send (`ButtonMove`); `Rules.Apply`, `Rules.Run` and `Rules.TickKeepsWellFormed` accept any direction.
- The Stop and Restart buttons have empty click handlers, so they have no behaviour to model.
- Coroutine scheduling (`scope.launch`, `delay(230)`, the endless `while (true)`) is timing. A run is modelled as a finite sequence of events, `Rules.Run`.
- The `Mutex` around the setter's write and the tick's read only serialises those two accesses. The model is sequential, so each is a plain field access.
- The setter writes `move` from a coroutine it launches, so the write lands later and two quick calls may land in either order. The model applies each setter call at once, in call order.
- `MutableStateFlow` and its broadcast to subscribers are a reactive library. The model has one `state` field that each tick replaces wholesale. A retry of `update`'s lambda is not modelled; only the tick loop writes the flow, so no retry happens.
- `Random.nextInt` is an external generator. Its result is the parameter `rnd`.
- Rules.TickLength: the counter `snackLenth` is an unbounded integer here, not a 32-bit `Int`. The counter stays within 3 of the body length (`Rules.TickKeepsSlack`) and grows only by one per meal, so a wrap would need a body of about 2^31 cells on a 484-cell board; the model does not prove that bound on the body.
- `first()` on an empty body and `take` with a negative count throw in Kotlin. The pure tick requires a non-empty body and a positive counter instead, and `Rules.TickKeepsWellFormed` shows every tick preserves both.
