# Snake game store, modelled in Dafny

This project models the simulation core of a browser snake game. The core is a
store holding one state record: the grid, the snake (head first), its
direction, the food list, the bomb list, the score, the tick interval, the
`running` and `gameOver` flags and the boundary mode (`WALLS_SOLID` or `WRAP`).

Every store action is a pure function from the current state to the next one:

- `setMode`, `setSpeed`, `setGridSize`, `setDirection` (with its 180-degree
  guard), `togglePause`, `setGameOver` and `resetGame`;
- `tick`, the per-step transition. It checks, in this order, wall, self, bomb
  and food. A collision stops the game. Eating food grows the snake and scores
  10. Otherwise the snake moves by one cell.

`randomPosition` is the store's rejection sampler, capped at 100 draws. Its
randomness is an explicit input: a sequence of draws, each a pair of numbers
in [0, 1).

The keyboard hook's decision table is modelled as a pure function of the key,
the current direction and the game-over flag. It has its own reversal guard.

Modules, one file each:

- `GameTypes` (`types.dfy`): the entities.
- `Geometry` (`geometry.dfy`): the cell helpers, including JavaScript's
  truncating `%`.
- `Placement` (`placement.dfy`): `randomPosition`, as a recursive function and
  as the source's do-while loop.
- `GameStore` (`store.dfy`): the initial state, the mutators and `tick`.
- `StoreInvariants` (`invariants.dfy`): the board invariant, the score/length
  bookkeeping, runs of actions and the worked scenarios.
- `ReversalGuard` (`reversal_guard.dfy`): the direction guard and its flaw at
  the wrap seam (see Findings).
- `KeyboardInput` (`keyboard.dfy`): the key handler's decision.
- `SettingsInput` (`settings.dfy`): the settings page's grid-size fields, which
  pass unchecked sizes to the store (see Findings).

Facts about the code that shape the model:

- `resetGame` restores the constant initial state, mode and speed included
  (`WALLS_SOLID`, 200 ms).
- `setGridSize` only replaces the grid. It does not rebuild the board, so
  shrinking the grid can leave the snake off it.
- The initial board is a constant 20 x 20 layout.
- A growth step replaces the whole food list with one new cell. That cell
  avoids the new snake and the bombs, but not the other food.
- `GameConfig` and the state's `config` field are declared, but the store never
  sets or reads them: there is no multi-food start, no bomb spawning and no bomb
  cap.

## Model

| member | source | states |
|---|---|---|
| Geometry.NextPosition | src/store/gameStore.tsx:29-36 | A step changes exactly one coordinate, by exactly one unit: UP is y-1, DOWN is y+1, LEFT is x-1, RIGHT is x+1 |
| Geometry.NextPositionReversible | src/store/gameStore.tsx:29-36 | A step followed by a step in the opposite direction returns to the starting cell |
| Geometry.NextPositionInjective | src/store/gameStore.tsx:29-36 | Two directions reach the same cell from a given head only when they are the same direction |
| Geometry.JsRem | src/store/gameStore.tsx:40-41 | JavaScript's `%` takes the sign of the dividend. Within one to three moduli of zero it removes exactly the whole moduli |
| Geometry.WrapPosition | src/store/gameStore.tsx:38-43 | For x >= -cols and y >= -rows the wrapped cell is on the grid. Each coordinate is shifted by one grid dimension onto the grid. Cells already on the grid are unchanged |
| Geometry.WrapEdges | src/store/gameStore.tsx:38-43 | x = -1 wraps to cols-1 and x = cols wraps to 0, with the same row. Likewise for y |
| Geometry.WrapFarBelowStaysOff | src/store/gameStore.tsx:38-43 | Some cells below -cols wrap off the grid: for cols > 1, x = -cols-1 wraps to -1. So the lower bound in WrapPosition is needed |
| Geometry.WrapAtDoubleWidthLandsOnGrid | src/store/gameStore.tsx:38-43 | Not every cell below -cols wraps off the grid: x = -2*cols wraps to column 0, since JavaScript's `-0` compares equal to 0 in the bounds check |
| Geometry.WrappedStepInGrid | src/store/gameStore.tsx:94-98 | In WRAP mode, a step from a cell on the grid lands on the grid |
| Geometry.IsOutOfBounds | src/store/gameStore.tsx:45-47 | A cell is out of bounds exactly when it is not in [0,cols) x [0,rows) |
| Geometry.CellsEqual | src/store/gameStore.tsx:49-51 | Comparing coordinates is the same as equality of cells |
| Geometry.Any | src/store/gameStore.tsx:106 | The list scan `some(cellsEqual)` holds exactly when the cell occurs in the list |
| Placement.DrawCell | src/store/gameStore.tsx:57-60 | A cell built from two draws in [0,1) lies on any non-empty grid |
| Placement.ScaledFloorBelow | src/store/gameStore.tsx:58-59 | floor(u * n) is in [0, n) for u in [0,1) and n > 0 |
| Placement.PlacementIndex | src/store/gameStore.tsx:56-62 | The loop stops at an attempt below 100. Every earlier attempt collided, and it stops before the 100th only on a free candidate |
| Placement.RandomPosition | src/store/gameStore.tsx:53-64 | The result is one of the first 100 draws. It avoids `avoid` whenever any of those draws does. If all collide it is the 100th draw |
| Placement.RandomPositionInGrid | src/store/gameStore.tsx:56-63 | With draws in [0,1), the placed cell lies on any non-empty grid |
| Placement.FirstFreeCandidateWins | src/store/gameStore.tsx:56-62 | The first draw outside `avoid` is the one returned |
| Placement.RandomPositionLoop | src/store/gameStore.tsx:53-64 | The do-while loop with its attempt counter returns the same cell as the recursive definition |
| GameStore.InitialState | src/store/gameStore.tsx:16-26 | The start is a 3-segment snake heading RIGHT with its neck directly behind the head. Score 0, 200 ms, WALLS_SOLID, paused, not over. One food cell off the snake and bombs. No bomb under the snake |
| GameStore.SetMode | src/store/gameStore.tsx:70 | Only `mode` changes |
| GameStore.SetSpeed | src/store/gameStore.tsx:71 | Only `speedMs` changes |
| GameStore.SetGridSize | src/store/gameStore.tsx:72 | Only `grid` changes. The snake, food and bombs are not rebuilt |
| GameStore.SetDirection | src/store/gameStore.tsx:73-83 | The state is unchanged, or only `direction` changes. The new direction takes effect exactly when it is not a turn whose unwrapped step lands on the second segment |
| GameStore.TogglePause | src/store/gameStore.tsx:84 | Only `running` changes, and it is flipped |
| GameStore.SetGameOver | src/store/gameStore.tsx:85 | Only `gameOver` changes, to the given value |
| GameStore.ResetGame | src/store/gameStore.tsx:87 | Any state resets to the initial state: WALLS_SOLID, 200 ms, not over, paused |
| GameStore.Tick | src/store/gameStore.tsx:89-141 | A paused or finished game is unchanged. A tick never changes grid, mode, direction, bombs or speed. A wall, self or bomb collision changes only the two flags. Food grows the snake by one at the head, adds 10 and leaves exactly one food cell, the placed one. A plain move adds the head, drops the tail and keeps score and food |
| StoreInvariants.InitialWellFormed | src/store/gameStore.tsx:16-26 | The initial state is a consistent board. Its score matches its length |
| StoreInvariants.TargetInGrid | src/store/gameStore.tsx:93-103 | A step that does not crash leads to a cell on the grid, in both modes |
| StoreInvariants.GrowthPreservesWellFormed | src/store/gameStore.tsx:124-130 | An eating step keeps the board consistent: the new head is on the grid and off the snake, and the new food is on the grid |
| StoreInvariants.MovePreservesWellFormed | src/store/gameStore.tsx:131-134 | A plain move keeps the board consistent: the new head is on the grid and off every segment that remains |
| StoreInvariants.TickPreservesWellFormed | src/store/gameStore.tsx:97-134 | A tick keeps segments pairwise distinct and on the grid, keeps food and bombs on the grid, and keeps bombs off the snake |
| StoreInvariants.GrowthFoodPlacement | src/store/gameStore.tsx:124-130 | After eating, the food list is one cell on the grid. That cell avoids the new snake and all bombs whenever one of the 100 draws could |
| StoreInvariants.WrapEndsOnlyOnCollision | src/store/gameStore.tsx:96-115 | In WRAP mode a tick ends the game exactly when the target is on the snake or on a bomb. Otherwise the new head is on the grid |
| StoreInvariants.WallStopsSnake | src/store/gameStore.tsx:99-103 | In WALLS_SOLID mode, stepping off the grid sets gameOver and clears running. Snake, food, bombs and score are unchanged |
| StoreInvariants.SetGridSizeWellFormedIff | src/store/gameStore.tsx:72 | Resizing keeps a consistent board consistent exactly when the new grid is non-empty and still holds every segment, food and bomb |
| StoreInvariants.ShrinkThenTickEndsGame | src/store/gameStore.tsx:72 | Shrinking the initial board to 10 x 10 leaves the snake off the grid. The next step with solid walls ends the game |
| StoreInvariants.MutatorsPreserveWellFormed | src/store/gameStore.tsx:70-87 | setDirection, togglePause, setMode, setSpeed, setGameOver and resetGame keep the board consistent |
| StoreInvariants.TogglePauseTwice | src/store/gameStore.tsx:84 | Toggling pause twice is the identity |
| StoreInvariants.GameOverFreezesTick | src/store/gameStore.tsx:91 | Once gameOver is set, a tick changes nothing |
| StoreInvariants.Step | src/store/gameStore.tsx:70-141 | Every action with positive grid sizes, and every tick with at least 100 draws, keeps the grid non-empty and keeps score = 10 x (length - 3). `setGridSize` with a zero or negative size does not keep the grid non-empty (see Findings). Only a tick or a reset changes the score, and a tick raises it by 0 or 10 |
| StoreInvariants.Run | src/store/gameStore.tsx:66-141 | Along any sequence of actions with positive grid sizes, starting from a state with a positive grid and score = 10 x (length - 3), the snake has at least 3 segments and the score is a non-negative multiple of 10 |
| StoreInvariants.GrowthScenario | src/store/gameStore.tsx:118-130 | Snake (10,10),(9,10),(8,10) heading RIGHT with food at (11,10) becomes (11,10),(10,10),(9,10),(8,10). Score becomes 10 and the food list is the one placed cell |
| StoreInvariants.WallScenario | src/store/gameStore.tsx:99-103 | On a 10 x 10 WALLS_SOLID board, a head at (9,5) moving RIGHT ends the game with the snake unchanged |
| StoreInvariants.WrapScenario | src/store/gameStore.tsx:97-98 | On a 10 x 10 WRAP board, a head at (9,5) moving RIGHT re-enters at (0,5) and the game goes on |
| StoreInvariants.TailChaseScenario | src/store/gameStore.tsx:105-109 | Stepping onto the current tail cell ends the game, because the tail has not moved yet |
| ReversalGuard.GuardRejectsExactlyReversal | src/store/gameStore.tsx:73-83 | When the neck lies directly behind the head, setDirection rejects exactly the reverse of the current direction |
| ReversalGuard.GuardKeepsNeckSafeWithWalls | src/store/gameStore.tsx:73-83 | With solid walls, no turn the guard accepts aims the next step at the neck |
| ReversalGuard.SeamReversalAccepted | src/store/gameStore.tsx:76-81 | In WRAP mode at the seam, the guard as written accepts a turn into the neck. The next tick then ends the game |
| ReversalGuard.SetDirectionWrapAware | src/store/gameStore.tsx:73-83 | The corrected guard never lets the next step aim at the neck, in either mode. With solid walls it equals the original |
| ReversalGuard.WrapAwareRejectsSeamReversal | src/store/gameStore.tsx:76-81 | The corrected guard refuses the seam turn that the original accepts |
| SettingsInput.SetRowsAsWritten | src/app/settings/page.tsx:72 | The rows field passes its numeric value to `setGridSize` unchanged, so only the grid's row count changes |
| SettingsInput.EmptyRowsFieldBreaksWrap | src/app/settings/page.tsx:67-72 | Clearing the rows field (`Number("")` is 0) in a running WRAP game leaves a state that `tick` cannot step and that has no positive grid |
| SettingsInput.ClampSize | src/app/settings/page.tsx:69-70 | A size is pulled into the advertised range 10 to 40. Sizes in range are kept, smaller ones become 10 and larger ones 40 |
| SettingsInput.SetGridSizeClamped | src/app/settings/page.tsx:67-84 | Whatever is typed, the grid becomes 10 to 40 by 10 to 40 and nothing else changes. In range it is exactly the store's `setGridSize` |
| SettingsInput.ClampedSettingKeepsBookkeeping | src/app/settings/page.tsx:67-84 | The clamped setting is an action `Step` accepts. It keeps the positive grid and score bookkeeping, so a wrapping tick stays defined |
| KeyboardInput.HandleKey | src/hooks/useKeybaordInputs.tsx:11-46 | When the game is over, every key does nothing. Space toggles pause. Unlisted keys do nothing. A steering key asks for its direction unless that is the reverse of the current one. No requested turn is ever a reversal |
| KeyboardInput.SpaceOnlyPauses | src/hooks/useKeybaordInputs.tsx:37-40 | Space yields exactly the pause toggle, or nothing once the game is over, and never a turn |
| KeyboardInput.TurnRequestedIff | src/hooks/useKeybaordInputs.tsx:16-36 | A key requests direction d exactly when it is bound to d, the game is not over, and d is not the reverse of the current direction |

## Left out

- The reactive store container, React hooks and effects: the state is an explicit value passed in and returned.
- The fixed-interval driver in src/app/play/page.tsx: it is timer glue that calls `tick` while `running`.
- Rendering (GameCanvas, HudBar) and the static pages: presentation only.
- The `GameConfig` record and the `config` field: the store never sets or reads them.
- Registering the key listener and `preventDefault`: DOM side effects. Only the handler's decision is modelled.
- `Math.random`: it becomes a sequence of draws. Probability and uniformity are not modelled.
- Floating point: a draw is a real number, so `Math.floor(Math.random() * n)` is exact here.
- Number width: JavaScript numbers are modelled as unbounded integers. A score past 2^53 is not modelled.
- GameStore.Tick: it requires a non-empty snake and, in WRAP mode, a positive grid. The source would throw on an empty snake. For `% 0` it would produce NaN coordinates, which an integer cell cannot represent. With a negative size, the wrapped coordinates are integers off the grid, and the board invariant no longer holds. Every state reached by actions with positive grid sizes meets the requirement (see StoreInvariants.Run). The settings page does not guarantee positive sizes (see Findings).
- Placement.RandomPosition: it requires at least 100 draws. `Math.random` can always supply them.

## Findings

| source | as written | input that shows it | evidently intended | confidence | as-written member | corrected member |
|---|---|---|---|---|---|---|
| src/store/gameStore.tsx:76-81 | The 180-degree guard compares the neck with the unwrapped next cell, but `tick` moves to the wrapped one | WRAP, 20 x 20 board, snake (0,5),(19,5),(18,5) just crossed the seam heading RIGHT. Press UP, then LEFT before the next tick. The keyboard guard allows LEFT because the direction is now UP. The store guard compares (-1,5) with the neck (19,5) and accepts. The next tick wraps to (19,5) and the game ends on the snake's own neck | Reject a turn whose wrapped next cell is the neck | medium; not executed | ReversalGuard.SeamReversalAccepted | ReversalGuard.SetDirectionWrapAware |
| src/app/settings/page.tsx:72-83 | The grid-size fields pass `Number(e.target.value)` to `setGridSize` unchecked; `min="10"`/`max="40"` do not stop typed values | A running WRAP game. On the settings page, clear the rows field: `Number("")` is 0 and the store sets 0 rows. The next tick computes `% 0`, and the head's y becomes NaN | Keep each size within 10 to 40 before it reaches the store | medium; not executed | SettingsInput.EmptyRowsFieldBreaksWrap | SettingsInput.SetGridSizeClamped |
