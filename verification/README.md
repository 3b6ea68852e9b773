# Grid game state machine — a Dafny model

This project models the browser game in `App/static/js/game.js`. The game is
played on a 9×9 board spread over four zones (forest, castle, cave, dungeon).
The zones are linked by directional connections. The player walks with
W/A/S/D, turns with the arrow keys and attacks the faced cell with Enter.
Enemies wander at random every 20th frame and hurt a player who shares
their cell. Killing an enemy heals the player by one hit point, up to 100.
A defeat resets the player to the forest, and the restart button starts
over with 100 hit points.

The model is functional. The game state is an immutable record:
`GameState(player, enemies, kills, tick)`. Every operation is a pure
function from the old state to the new one. The source's random choices are
explicit inputs:

- Enemy placement takes a sequence of random cell draws, `seq<Draw>`, where
  a `Draw` is an on-board cell. The draws are consumed in order, the way the
  retry loop consumes `Math.random()`. When the draws run out before the
  roster is complete, the operation returns `None`, meaning that not enough
  randomness was supplied. Every operation that places enemies therefore
  returns an `Option<GameState>`.
- The enemy pass takes one `Roll` per enemy. `None` means the enemy does not
  try to move. `Some(k)` means it tries the k-th entry of the source's offset
  list.

Modules, in dependency order:

- `Wrappers`: `Option`.
- `Grid`: board size, directions, one-cell steps, the placement distance
  test.
- `World`: the zone table and the per-zone enemy counts.
- `Game`: the state record, the game's constants and the invariant `Inv`.
- `Spawning`: `spawnEnemiesForZone`.
- `Movement`: `setDirection`, `movePlayer`, `changeZone`.
- `Combat`: `playerAttack`.
- `EnemyAi`: `updateEnemies`.
- `Frame`: one iteration of `loop`, the defeat reset, the restart button and
  the initial state.
- `Input`: the key mapping.
- `Session`: runs of events starting from the initial state.

The model follows the code on these points:

- An attack strikes the enemy with the HIGHEST index on the faced cell,
  because the scan runs backwards.
- Hit points have no lower clamp. Within one frame, several enemies on
  the player's cell can push them below zero. `EnemyAi.DamageCanPassZero`
  shows this with 1 hit point and two enemies. The defeat reset runs only
  afterwards.
- The placement distance is measured from the player's current cell. After
  a zone change that is the connection's destination cell.
- A defeat resets hit points to 10. The restart button resets them to 100.
- A defeat keeps the facing direction and the frame counter. A restart keeps
  the frame counter.

## Model

| member | source | states |
|---|---|---|
| `Grid.FarCellExists` | App/static/js/game.js:121-125 | whatever on-board cell the player stands on, some on-board cell passes the placement test, so the retry loop can always succeed |
| `Grid.FarIsChebyshev` | App/static/js/game.js:124 | the source's test "one coordinate differs by more than 2" is exactly Chebyshev distance greater than 2 |
| `World.Zones` | App/static/js/game.js:62-97 | the zone table: every spawn, item and connection destination is on the board; every connection targets a zone of the table; the forest spawns at (4,4) |
| `World.ZonesReversible` | App/static/js/game.js:62-97 | every connection has a way back: the target zone connects in the opposite direction to the zone it came from |
| `World.EnemyCount` | App/static/js/game.js:118 | the roster size is the zone's entry in the count table, or 3 for a missing or zero entry; it is never zero |
| `World.FirstMatch` | App/static/js/game.js:146-151 | finds the first connection, in list order, whose direction matches, or reports that none matches |
| `Spawning.Place` | App/static/js/game.js:119-127 | succeeds exactly when at least `count` draws pass the distance test; the i-th enemy is a fresh enemy (hp 30, given zone) on the i-th accepted draw |
| `Spawning.SpawnFor` | App/static/js/game.js:116-128 | replaces only the roster, with exactly `EnemyCount(zone)` enemies; each has hp 30, the given zone, an on-board cell and Chebyshev distance > 2 from the player |
| `Movement.SetDirection` | App/static/js/game.js:130-133 | sets the facing and changes nothing else |
| `Movement.ChangeZone` | App/static/js/game.js:160-168 | an unknown zone is a no-op; otherwise the player is in the zone at the destination with hp, facing, kills and tick kept, and a fresh full roster at distance > 2 from the destination; it keeps the invariant for on-board destinations |
| `Movement.Move` | App/static/js/game.js:135-158 | an unknown current zone is a no-op; a step onto the board moves the player exactly one cell and changes nothing else; a step off the board with no connection in that direction is a no-op; otherwise the first matching connection is followed; it keeps the invariant |
| `Movement.MoveUndo` | App/static/js/game.js:139-156 | a step inside the board is undone by the opposite step |
| `Combat.FindTarget` | App/static/js/game.js:180-191 | the backward scan returns the highest index below `n` of an enemy on the cell in the zone, or reports that there is none |
| `Combat.Attack` | App/static/js/game.js:170-193 | only the player's hit points, the roster and kills can change; kills grow by at most one; a kill removes exactly one enemy and sets hp to min(100, hp+1); otherwise the roster length and hp are kept; it keeps the invariant |
| `Combat.AttackSpec` | App/static/js/game.js:178-189 | an off-board faced cell, or no enemy on it, leaves the state unchanged; otherwise the highest-index enemy there loses 30 hp and is removed, with a kill and a heal, when that brings it to zero or below |
| `EnemyAi.StepEnemy` | App/static/js/game.js:197-205 | an enemy keeps its hp and zone and stays on the board; it moves only when its roll asks, and then by one cell and never onto the player; a rolled step onto an on-board cell other than the player's is always taken |
| `EnemyAi.Advance` | App/static/js/game.js:196-207 | the roster loop steps every enemy and takes one hit point per enemy that ends its step on the player's cell |
| `EnemyAi.UpdateEnemies` | App/static/js/game.js:195-208 | every enemy takes exactly its own rolled step; keeps the roster length and every enemy's hp and zone; keeps on-board enemies on the board; moves no enemy onto the player; lowers player hp by exactly the number of enemies on the player's cell after the moves |
| `EnemyAi.DamageCanPassZero` | App/static/js/game.js:206 | a player on 1 hp with two enemies on its cell ends the pass on -1 hp |
| `Frame.Defeat` | App/static/js/game.js:313-315 | resets hp to 10 and kills to 0 and puts the player in the forest at (4,4) with a full forest roster of 30-hp enemies, each on the board more than 2 cells from (4,4); the result satisfies the invariant |
| `Frame.LoopStep` | App/static/js/game.js:294-298 | the frame counter grows by one; enemies act exactly on frames whose new counter is a multiple of 20; hp at or below zero triggers the defeat reset; a frame never ends with hp at or below zero; it keeps the invariant |
| `Frame.Restart` | App/static/js/game.js:287-292 | the player is in the forest at (4,4) facing down with 100 hp; kills are 0; the tick is kept; the roster is a full forest roster of 30-hp enemies, each on the board more than 2 cells from (4,4); the result satisfies the invariant |
| `Frame.Init` | App/static/js/game.js:100-106 | the game starts in the forest at (4,4), facing down, with 10 hp, no kills, tick 0 and a full forest roster of 30-hp enemies, each on the board more than 2 cells from (4,4); the invariant holds |
| `Input.KeyAction` | App/static/js/game.js:272-283 | a key is bound to an action only if its lower-cased name is that action's key name |
| `Input.KeyRoundTrip` | App/static/js/game.js:272-283 | pressing an action's key, in any letter case, selects exactly that action |
| `Input.BrowserKeyNames` | App/static/js/game.js:273-282 | "w" and "W" walk up, "ArrowLeft" turns left, "Enter" attacks and "Escape" does nothing |
| `Input.HandleKey` | App/static/js/game.js:272-283 | unbound keys do nothing; W/A/S/D move, arrows turn and Enter attacks; it keeps the invariant |
| `Session.Apply` | App/static/js/game.js:272-319 | a key press, a frame or a restart click keeps the invariant |
| `Session.RunInv` | App/static/js/game.js:135-165 | any sequence of events keeps the player on the board of a known zone with hp in (0, 100] and only live, on-board enemies of that zone; the positive hp bound rests on the defeat reset running in the same frame, while in the game hp at or below zero lasts until the reset timer fires, up to 100 ms, with keys still active |
| `Session.Reachable` | App/static/js/game.js:100-106 | every state reachable from the initial state satisfies the invariant |
| `Session.KillsStepByOne` | App/static/js/game.js:186 | one event raises the kill counter by at most one |

## Left out

- Rendering is not modelled: sprites, image loading, the grid, entities, the HUD and `gridToPixel` (game.js:11-59, 112-114, 210-269). It only draws. `getZone` (game.js:108-110) is modelled as the table lookup `Zones()[s.player.zone]` in `Movement.Move`. Zone names and items are kept as table data only: items are read only by the drawing code, and zone names only by the HUD and the defeat `alert`, which are not modelled.
- The score report is not modelled: the `alert`, the `fetch` POST and its error logging (game.js:299-312). These are network and UI side effects. The server-side score bookkeeping is not part of this model.
- `Frame.LoopStep`: the source runs the defeat reset from a `setTimeout` 100 ms later. It schedules another reset on every frame while hp is at or below zero, so several resets can run. The model applies exactly one reset in the frame that detects the defeat.
- `requestAnimationFrame` scheduling is not modelled. One `loop` iteration is one `LoopStep`.
- Probabilities are not modelled: the 0.15 move chance and the uniform choice of offsets and cells. Random outcomes are inputs instead. `Draw` assumes `Math.floor(Math.random() * 9)` lies in 0..8.
- The retry loop in `spawnEnemiesForZone` is unbounded. The model consumes a finite sequence of draws and returns `None` when they run out. `Grid.FarCellExists` shows that an acceptable cell always exists.
- The canvas click handler (game.js:285) calls `movePlayerForward`, which is never defined. It has no behaviour to model.
- Input.KeyAction: lower-casing covers only A-Z. No non-ASCII character lower-cases to one of the bound key names, so which keys are bound is unaffected.
- The frame counter is an unbounded `nat`. JavaScript numbers lose integer precision above 2^53 frames.
- `updateDirectionIndicator` (game.js:132) is not defined in this file. Its effect, if any, is outside this model.
- App/static/js/app.js, App/main.js, App/display.py and App/src/sqlutils.js are not modelled. They hold DOM form handling, HTTP routing, template rendering and database connection setup, with no game logic.
