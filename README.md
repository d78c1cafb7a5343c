# ctrl: the level scene, modelled in Dafny

`ctrl` is a tile platformer. Each level gives the player a budget of "ctrls":
Ctrl+C copies the tile index last clicked, and Ctrl+V arms a paste of it. The
next click on an empty cell then writes that tile into the level as a solid
block. This project models `LevelScene`, the per-level gameplay scene:

- **The foreground layer** (module `Tiles`). It is a grid of cells, each empty
  or holding a tile index with a collision flag. A tile collides when its index
  is in 0..200, except 92, 94, 140 (the exit) and 152 (the spawn marker). The
  model writes the rule as the calls the scene makes, in their order, and
  proves that they give exactly this range with four exceptions. Tiles are
  16×16 at the origin, and world points map to cells by floor division. The
  hero spawns over the first cell in row order that holds 152.
- **The edit protocol** (module `Edit`). It covers the budget, the selection,
  the copy buffer and the armed paste, as a value. The lemmas cover any
  sequence of key presses and pointer presses:
  - the budget drops by exactly one per spending event;
  - it never goes below zero, so a level allows at most `level + 2` copies and arms in all;
  - once it is zero, neither C nor V does anything;
  - an armed paste waits through any number of presses on occupied cells.
- **The hero's intent** (module `Hero`). This is the steering and animation
  part of a tick: ground and air traction, A winning over D, facing, jumping
  only from the ground, and run versus idle.
- **Winning** (module `Goal`). Standing on tile 140 restarts the scene at the
  next level; on the last level (5) it wins the game. On level 5, tiles 104,
  105 and 106 in cells (60,34), (61,34) and (62,34) reveal the exit at (61,33).
  This happens once.
- **The scene** (module `Scene`, class `LevelScene`). It holds the fields the
  JavaScript scene updates: `fg` as an `array2` edited in place, `ctrls`,
  `selected`, `copied`, `pasting`, `endadded` and the hero. The methods mirror
  the code that updates them:
  - `create` is the constructor and `Create`, which loads the level's own tilemap from the ones the scene was given;
  - the C, V and F key-down handlers; F only queues a restart, as `scene.restart` does;
  - `Update`, split into its pointer part and its level-5 trigger.

  Each method says what the new state is in terms of the old one. `Valid` is
  the invariant all of them keep: the budget is not negative, an armed paste
  has a buffer, and the buffer is only ever filled from a selection.

Points where the code behaves in a way that may surprise:

- Ctrl+C does not check that anything is selected. With a ctrl left it spends
  one and copies the selection, even when it is still `undefined`
  (`Edit.CopyWithoutSelectionSpends`).
- A restart runs `create` again on the same scene object. `create` never
  assigns `selected`, `copied` or `endadded`, so all three carry over to the
  restarted level and to the next level. One result is that if the player
  restarts level 5 after the exit appeared, the fresh layer has no exit and the
  trigger never fires again (`Scene.LevelScene.Create` keeps `endadded`, and
  `Scene.LevelScene.EndTrigger` writes nothing once it is set).
- A paste may only land on a cell with no tile. The cell's collision flag
  plays no part: a non-colliding decoration such as 92 also blocks a paste.
- The order within a tick is steering, then the exit check, then the pointer,
  then the level-5 trigger. A paste that completes the puzzle therefore
  reveals the exit in the same tick. The exit check already ran that tick, on
  the layer as it was before the paste.
- The copy buffer is tested with JavaScript truthiness, so a copied index 0
  could not be pasted. Tiled numbers tiles from 1, so index 0 does not occur
  in authored levels. The model keeps the test as written (`Edit.Truthy`).

## Model

| member | source | states |
|---|---|---|
| Tiles.LayerRulesAreRangeWithExceptions | src/levelScene.js:36-40 | Applying `setCollisionBetween(0, 200)` and then clearing 92, 94, 140 and 152, in that order, makes an index collide exactly when it is in 0..200 and is none of those four. |
| Tiles.FromIndex | src/levelScene.js:35-40 | A cell from the level data is empty exactly for index -1. Otherwise it keeps its index, and its collision flag is the one the layer's rule calls give that index. |
| Tiles.WorldToTile | src/levelScene.js:177-180 | The cell of a world coordinate is the one whose 16-unit span contains it: its origin is at most the point, and the point is below the next origin. |
| Tiles.CellInteriorMapsBack | src/levelScene.js:177-180 | Snapping a cell to its world origin (plus any offset inside the cell) and mapping back gives the same cell. |
| Tiles.FirstIndex | src/levelScene.js:41 | Returns the first position of an index in a row, or nothing exactly when the row does not contain it. |
| Tiles.FindByIndex | src/levelScene.js:41 | Returns the first cell in row order holding the index: it is in bounds, holds the index, and no earlier row or earlier cell of its row does. Returns nothing exactly when no row holds it. |
| Tiles.LoadLayer | src/levelScene.js:30-35 | The new layer has the level's width and height, and each cell is the authored index made into a cell. |
| Hero.Spawned | src/levelScene.js:41-48 | The hero is placed over the spawn cell: its centre maps back to that cell. It starts at rest, not grounded, facing right, with no animation playing. |
| Hero.Steer | src/levelScene.js:144-161 | The horizontal acceleration is ±600 on the ground and ±200 in the air, or 0 with neither key held. It is negative exactly with A held, and positive exactly with D held and not A. The facing follows a non-zero acceleration and is otherwise kept. The vertical velocity changes only to -500, from the ground, with SPACE held. The animation is `run` exactly when the horizontal velocity is non-zero. Position and horizontal velocity are not changed. |
| Goal.GoalOutcome | src/levelScene.js:164-176 | The hero over tile 140 gives "restart at level + 1" below level 5 and "won" on level 5. Over any other cell there is no level change. |
| Edit.StepAccounting | src/levelScene.js:118-132 | One edit event keeps the edit invariant. It lowers the budget by exactly one when it spends and leaves it alone otherwise. |
| Edit.BudgetAccounting | src/levelScene.js:100-132 | Over any sequence of copies, paste-arms and pointer presses: the budget drops by exactly the number of events that spend, it stays non-negative, and no more events spend than the starting budget. |
| Edit.OutOfCtrlsFreezesKeys | src/levelScene.js:118-132 | From a zero budget, no sequence of events changes the copy buffer, arms a paste or spends anything. |
| Edit.ArmTwiceSpendsTwice | src/levelScene.js:125-132 | Two Ctrl+V presses before any commit spend two ctrls and leave the paste armed. |
| Edit.CopyWithoutSelectionSpends | src/levelScene.js:118-124 | Ctrl+C with nothing selected still spends a ctrl, and it leaves the copy buffer undefined. |
| Edit.PasteWaitsForEmptyCell | src/levelScene.js:187-210 | An armed paste survives any number of presses on occupied cells, which change neither the buffer nor the budget. The next press on an empty cell commits it. |
| Scene.LevelScene.CellAt | src/levelScene.js:165 | A cell inside the layer reads as the layer's cell there; a cell outside the layer reads as holding no tile. |
| Scene.LevelScene.constructor | src/levelScene.js:25-100 | The scene keeps the given tilemaps and starts on the given level with that level's layer, the hero over the spawn cell, `level + 2` ctrls and no armed paste. Selection, copy buffer and exit flag are still unset. |
| Scene.LevelScene.Create | src/levelScene.js:25-100 | Running `create` again for a level gives a fresh layer from that level's own tilemap, a respawned hero, `level + 2` ctrls and no armed paste. Selection, copy buffer and exit flag keep their values. |
| Scene.LevelScene.OnKeyDownF | src/levelScene.js:112-117 | F queues a restart of the current level and changes nothing yet; the restart is `Create` of that level, run after the step. |
| Scene.DataOf | src/levelScene.js:30-32 | The tilemap of a level is the one cached under that level's number, and it has a spawn marker. |
| Scene.LevelScene.OnKeyDownC | src/levelScene.js:118-124 | With Ctrl held and a ctrl left, the copy buffer becomes the selection and one ctrl is spent. Otherwise nothing changes. The invariant, including budget ≥ 0, is kept. |
| Scene.LevelScene.OnKeyDownV | src/levelScene.js:125-132 | With Ctrl held, a ctrl left and a truthy copy buffer, a paste is armed and one ctrl is spent. Otherwise nothing changes. The invariant is kept. |
| Scene.LevelScene.PointerPress | src/levelScene.js:187-210 | A press on a tile selects its index and leaves the layer and the armed paste alone. A press on an empty cell with a paste armed writes the copied index there as a colliding tile and disarms the paste. No other cell changes. |
| Scene.LevelScene.EndTrigger | src/levelScene.js:211-225 | The exit flag becomes set exactly when it was set already, or when on level 5 the three puzzle cells hold 104, 105, 106. Only when it becomes set is the non-colliding exit written at (61,33), and no other cell changes. |
| Scene.LevelScene.Update | src/levelScene.js:140-226 | Without a body the tick changes nothing. Otherwise the hero is steered, and the outcome is the goal outcome of the cell under the hero before any edit. The pointer press and the trigger then act as above. The layer differs from before only in the pasted cell and the revealed exit. |

## Left out

- Arcade physics (drag 2000, max velocity 200/500, integrating velocity and position, colliding the body with the layer) runs in the physics library between ticks. The hero's position, velocity and `blocked.down` are fields that this engine writes. The model only reads them.
- Positions are integers. The source's world coordinates are floats, and both map to cells by floor division by 16.
- The pointer is given in world coordinates. The camera conversion, the camera bounds and scrolling are not modelled.
- Music, the pause scene, the animation frame tables, the labels, and the marker, selection and paste-preview graphics are presentation only. The "Out of Control!" label is exposed only as `OutOfCtrls`, which holds when `ctrls == 0`.
- Scene.LevelScene.Update: requires a committing press to be inside the layer. Outside it, `putTileAtWorldXY` returns null and the next call on it throws.
- Scene.LevelScene.PointerPress: requires a committing press to be inside the layer, for the same reason as `Update`.
- Scene.LevelScene.constructor: requires every level's tilemap to have a spawn marker, since without one `create` dereferences a null tile. It also requires a level in 1..5, the levels that are loaded.
- Scene.LevelScene.Create: requires a level in 1..5; the spawn markers are already part of the scene's invariant.
- The restart that `Update` or `OnKeyDownF` returns is performed by the caller, by calling `Create` with the returned level after the step. Stopping the scene for the win screen is not modelled.
- Parsing the Tiled JSON and Phaser's layer internals are replaced by rows of tile indices, with -1 for an empty cell.
- The loading scene (assets, progress bar, profile values read from local storage) and the info scene (a credits window tween) are I/O and UI glue with no rules of their own.
