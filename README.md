# Bomber simulation core in Dafny

This project models the simulation engine of a browser grid game in the
bomb-placement genre (`main.js`). The player walks a 15 × 13 tile maze, lays
bombs whose blasts destroy breakable walls and enemies, and collects
power-ups. The goal is to clear a wave of enemies on each of three levels.
Rendering, audio and the DOM are not modelled. The model covers:

- the tile grid and its generation;
- the enemy spawn rules;
- walkability;
- bomb placement;
- the bomb fuse loop and the ray-cast blast;
- power-up spawn and pickup;
- the enemy direction filter;
- the enemy-kill loop;
- player death and respawn;
- the level state machine.

## Layout

The modules follow the data the program works on:

- `Tiles` (`tiles.dfy`): the tile codes, grid generation, `isWalkable`
  and the loot choice of `maybeSpawnPowerup`.
- `Blast` (`blast.dfy`): bombs and explosions as values.
  - `Explode` is the five ray-casts of `explode`.
  - `Place` is `placeBomb`.
  - `BurnAll` is the descending fuse loop of `update`.
- `Actors` (`actors.dfy`): the player and the enemies.
  - level start (`initMap` / `startGame(resetAll)`), death and pickup;
  - the enemy spawn loop, the enemy safe-direction filter and the enemy step;
  - the explosion loop with its enemy-kill `forEach`;
  - `checkLevelComplete`.
- `Rules` (`rules.dfy`): the whole game state `State` and one update,
  `Tick`, in the source's order of phases. It also proves the invariants one
  update keeps.
- `Game` (`game.dfy`): the imperative program.
  - The `World` class holds the grid as an `array2<int>` (`grid[y, x]`, as
    `grid[y][x]` in the source), plus the bombs, explosions, player,
    enemies, game state, level and round clock.
  - Its methods are the source's functions, with loops and early `break`s.
  - Each method's `ensures` ties the new state, `Snapshot()`, to the
    function that specifies it: `Update` ends in
    `Snapshot() == Tick(old(Snapshot()), ...)`, `Explode` in
    `Blast.Explode`, and so on.
  - A ghost `view` mirrors the array, and `Mirrored()` keeps the two equal.

Randomness is passed in as oracle arguments of type `Unit` (a real in
[0, 1)):

- map generation takes one roll per cell;
- the enemy spawn takes a finite sequence of coordinate draws;
- an enemy's choice takes one roll per enemy;
- a destroyed wall takes one `Roll` (spawn and kind) per cell. A
  breakable cell breaks at most once per map, so this covers every
  sequence of draws.

Time is whole milliseconds. The round clock is held in ms, `RoundTime =
180000`, for the source's `gameTime = 180` seconds.

## Behaviour of the code worth knowing

These follow from `main.js` as written, and the model keeps them:

- **The centre cell is flamed twice.** The centre "ray" runs `d = 0..1`
  with a zero step (main.js:391-394), so a range-2 bomb on open ground
  pushes ten explosion entries for nine cells (`Blast.CenterTwice`,
  `Blast.OpenGround`). A player on the bomb's cell is hit by both entries
  and can lose two lives in one update (main.js:317-321,
  `Actors.CenterKillsTwice`), which can leave `lives` at -1.
- **A chained bomb goes off in the same update only if it has a lower
  index.** A chain only sets the other bomb's fuse to 0 (main.js:401), and
  the fuse loop walks from the last bomb down (main.js:312-315).
  - A chained bomb at a lower index than the bomb that blew goes off later
    in the same loop, so no bomb is left on its cell
    (`Blast.ChainDownwardFires`).
  - One at a higher index has already been visited, so it stays until the
    next update with fuse 0 (`Blast.ChainUpwardWaits`).
- **The round clock is never reset while playing.** `gameTime` is only set
  by `initMap` (main.js:172). Once it reaches 0, every later update calls
  `handlePlayerDeath` again (main.js:300-301), so the player loses a life
  per update until the game is over (`Rules.TimeUpKeepsKilling`).
- **Every level start resets the player.** `initMap` sets lives, score,
  range and bomb capacity back to their first values (main.js:173-175), and
  it runs at every level start, not only in a new game
  (`Actors.LevelStartForgets`, `Rules.NextLevelForgets`).
- **Enemies avoid power-ups.** The enemy filter accepts only an EMPTY tile
  (main.js:374), which is stricter than `isWalkable` (main.js:284-288,
  `Actors.SafeIsStricter`).
- **The enemy fallback is unchecked.** An enemy with no safe direction
  picks any of the four directions with no check (main.js:378), and may
  target a wall (`Actors.BoxedInWalksIntoWall`).
- **The enemy-kill loop skips.** `splice` inside `forEach`
  (main.js:322-324) skips the enemy right after each one removed. Of two
  consecutive enemies on one flame only the first is removed
  (`Actors.SweepSkipsNeighbour`). Only when no two consecutive enemies
  stand on the flame is the loop a clean filter (`Actors.SweepClean`).

## Model

| member | source | states |
|---|---|---|
| Tiles.Walkable | main.js:284-288 | false off the 15 × 13 grid and on both wall kinds; on a grid of valid tiles, true exactly when the cell is on the grid and EMPTY or a power-up |
| Tiles.BreakChance | main.js:217-224 | the breakable chance is 0.5 + 0.05 · level up to level 7, and never above 0.85 |
| Tiles.BreakChanceMonotone | main.js:217-224 | a higher level never makes breakable walls less likely |
| Tiles.GeneratedTile | main.js:221-224 | border and even-even cells are WALL_SOLID; the safe corner x < 3, y < 3 is EMPTY; any other cell is WALL_BREAKABLE exactly when its roll is below the break chance, else EMPTY |
| Tiles.Generate | main.js:218-226 | the generated grid is 15 × 13 and holds valid tiles with a solid frame; every cell is the tile the rules pick for its roll |
| Tiles.GeneratedShape | main.js:218-226 | cell by cell: border and pillars solid, safe corner empty, all else EMPTY or WALL_BREAKABLE |
| Tiles.StartIsOpen | main.js:223 | the player's start (1, 1) and both its neighbours are EMPTY on every generated map |
| Tiles.Pick | main.js:409 | `Math.floor(r * n)` is a valid index below n |
| Tiles.Loot | main.js:406-411 | a destroyed wall becomes a power-up exactly when the spawn roll is below 0.3, else EMPTY |
| Tiles.LootCoversEveryKind | main.js:408-409 | each of the four power-ups is the result of some roll |
| Blast.FindBomb | main.js:400 | a found index holds a bomb on the cell |
| Blast.FindBombFirst | main.js:400 | `find` returns the first bomb on the cell, and finds none exactly when no bomb is there |
| Blast.ChainEffect | main.js:400-401 | one chain step sets the fuse of the bomb found on the cell to 0 unless it is the exploding bomb; every other bomb and every cell is unchanged |
| Blast.ScanLimits | main.js:393-399 | a ray flames at most limit − d + 1 cells, each on the grid and not solid; only the last may be breakable, and then the ray broke it; a ray that stops short met the edge or a solid wall |
| Blast.RayFlamesEffect | main.js:393-398 | a ray appends exactly the flames of the cells it reaches, in order of distance |
| Blast.RayChainEffect | main.js:400-401 | a ray's bombs are those chained from the cells it passes, excluding the broken wall |
| Blast.RayWallEffect | main.js:399-411 | a ray that meets a breakable wall turns that cell into the loot tile and scores 10; otherwise grid and score are unchanged |
| Blast.ExplodeEffect | main.js:385-404 | explode appends the five rays' flames in ray order, chains the bombs on the rays' cells, scores 10 per broken wall, leaves the bomb count alone, and changes no grid cell but the broken walls |
| Blast.FlamesOfRays | main.js:389-390 | the flames come centre, down, up, right, left, as the directions list orders them |
| Blast.CardinalRayLimits | main.js:389-398 | a cardinal ray emits at most `range` cells at distances 1 .. range, on the grid and not solid; it stops on the first breakable wall, and stops short only at the edge or a solid wall |
| Blast.CenterTwice | main.js:391-394 | on an open cell the centre emits the bomb's own cell twice, and looks for bombs there twice |
| Blast.ExplodeFlameCount | main.js:389-398 | one explosion adds at most 2 + 4 · range flames |
| Blast.OpenGround | main.js:389-398 | on open ground the bound is reached: exactly 2 + 4 · range flames (ten for range 2) |
| Blast.ExplodeChains | main.js:400-401 | with one bomb per cell, another bomb's fuse goes to 0 exactly when it sits on a chain cell of the blast |
| Blast.ExplodeOnlyZeroes | main.js:401 | each bomb is unchanged or has its fuse forced to 0, and the exploding bomb itself is never touched |
| Blast.ExplodeGrid | main.js:399-409 | a cell changes only if it was a breakable wall, and then becomes EMPTY or a power-up |
| Blast.ExplodeKeepsShape | main.js:399-409 | explode keeps the tiles valid and keeps the solid frame and pillars |
| Blast.PlaceEffect | main.js:290-296 | placeBomb changes nothing exactly when all bombs are out or a bomb already sits on the cell; otherwise it appends one bomb there with fuse 3000 and the player's range and counts it |
| Blast.PlaceKeepsCount | main.js:290-296 | placing keeps activeBombs == \|bombs\| ≤ maxBombs with one bomb per cell |
| Blast.VisitEffect | main.js:313-314 | one turn of the fuse loop removes bomb i exactly when its decremented fuse is ≤ 0, and then counts it off; otherwise only that fuse is decremented; the other bombs keep their order |
| Blast.BurnBookkeeping | main.js:312-315 | the fuse loop removes bombs and decrements activeBombs one for one |
| Blast.BurnQuiet | main.js:312-315 | when no fuse runs out the loop only decrements every fuse |
| Blast.BurnNonNegative | main.js:312-315 | no bomb left after the loop has a negative fuse |
| Blast.BurnOrder | main.js:312-315 | the surviving bombs keep their relative order, cells and ranges |
| Blast.BurnKeepsCount | main.js:312-315 | the fuse loop keeps activeBombs == \|bombs\| ≤ maxBombs with one bomb per cell |
| Blast.BurnKeepsShape | main.js:312-315 | the fuse loop keeps the tiles valid and the frame solid |
| Blast.BurnSpent | main.js:312-315 | after the loop has visited bombs n − 1 down to 0, every bomb left came from one of the input, in order; one visited had its fuse decremented (or forced to 0) and had fuse left; one not visited kept its fuse or had it forced to 0 |
| Blast.BurnAllSpent | main.js:312-315 | after the whole fuse loop, every bomb left is an input bomb, in order, whose decremented fuse was positive, and its fuse is that decrement or 0 |
| Blast.BurnAbove | main.js:312-315 | the loop from bomb n − 1 down leaves the bombs above n − 1 in place as the suffix, each unchanged or with fuse 0 |
| Blast.BurnClears | main.js:312-315 | with one bomb per cell and dt ≥ 0, a bomb the loop reaches whose decremented fuse is ≤ 0 leaves no bomb on its cell |
| Blast.ChainCellsNear | main.js:389-401 | whatever the grid, every cell where explode looks for a bomb is the bomb's own cell or within its range along one of the four directions |
| Blast.FireSpares | main.js:313-314 | when bomb i goes off, a bomb that no other bomb has within reach is left as it was, at its index shifted past the removal |
| Blast.VisitSpares | main.js:313-314 | a turn of the loop at another bomb keeps such a bomb unchanged, still out of every other bomb's reach, with one bomb per cell |
| Blast.BurnSpares | main.js:312-315 | such a bomb with fuse left is still there after the loop from bomb n − 1 down, its fuse less dt if the loop reached it |
| Blast.BurnKeepsUnreached | main.js:312-315 | with one bomb per cell, a bomb whose decremented fuse is positive and that no other bomb has within reach survives the whole loop with its fuse less dt |
| Blast.VisitChains | main.js:313-314 | when bomb i goes off, any other bomb on one of its chain cells is kept with fuse 0, at its index shifted past the removed bomb |
| Blast.ChainDownwardFires | main.js:312-315 | with one bomb per cell and dt ≥ 0, a bomb j on a chain cell of a bomb i > j that goes off leaves no bomb on its cell once the loop from i down ends |
| Blast.ChainUpwardWaits | main.js:312-315 | with one bomb per cell, a bomb j on a chain cell of a bomb i < j that goes off is still there with fuse 0 once the loop from i down ends |
| Blast.TwoBombsDownward | main.js:312-315 | with two bombs, a first bomb chained by the second explodes in the same update |
| Blast.TwoBombsUpward | main.js:312-315 | with two bombs, a second bomb chained by the first survives the update with fuse 0 |
| Actors.LevelStartForgets | main.js:170-176 | the player at a level start depends only on the speed and shield carried over: 3 lives, score 0, one bomb, range 1, at (1, 1) |
| Actors.NewGameIsFirst | main.js:205-215 | a full reset followed by the level start gives the initial player |
| Actors.DeathEffect | main.js:424-441 | death takes one life and keeps score and upgrades; with lives ≤ 0 the game is over and the player stays; otherwise it respawns at (1, 1), target (1, 1), at rest, shielded for 3000 ms |
| Actors.PickupEffect | main.js:413-422 | on a power-up tile, exactly the matching effect (range+1, maxBombs+1, speed+0.02, shield 5000) plus 50 points, and the tile becomes EMPTY; elsewhere nothing changes |
| Actors.PickupIdempotent | main.js:413-422 | a second pickup on the same cell changes nothing |
| Actors.PickupKeepsShape | main.js:418-421 | pickup keeps the tiles valid and the frame solid |
| Actors.EnemySpeed | main.js:235 | enemy speed is 0.04 + 0.02 · level up to level 4, and never above 0.12 |
| Actors.SpawnCell | main.js:232-233 | a spawn draw lands at x ∈ 3..13, y ∈ 3..11 |
| Actors.HitsAreEmpty | main.js:231-234 | every accepted draw is a cell in the spawn area on an EMPTY tile |
| Actors.SpawnRules | main.js:228-237 | 3 + level enemies spawn, or as many as the draws hit; each is in x ∈ 3..13, y ∈ 3..11, outside the safe corner, on an EMPTY tile, at rest, with the level's speed |
| Actors.SafeAmongMembers | main.js:371-377 | the filter keeps exactly the listed directions that are safe |
| Actors.SafeAmongOrder | main.js:371-377 | the filter keeps the list's order |
| Actors.SafeDirsExact | main.js:370-377 | the safe directions are exactly the safe cardinals, in the order down, up, right, left |
| Actors.SafeIsStricter | main.js:371-377 | a safe step is walkable, but a power-up cell is walkable and never safe |
| Actors.EnemyTargetsSafely | main.js:378-379 | an enemy at rest always sets off to a neighbouring cell; if any direction is safe, its target is on the grid, EMPTY and bomb-free |
| Actors.BoxedInWalksIntoWall | main.js:378-379 | an enemy walled in on all four sides still sets off, towards a cell that is not walkable |
| Actors.SweepPays | main.js:322-329 | the kill loop pays 100 per enemy removed |
| Actors.SweepSpread | main.js:322-329 | when no two consecutive enemies stand on the flame, the loop removes exactly those on it |
| Actors.SweepClean | main.js:322-329 | in that case the survivors are those off the flame, and the score rises by 100 per kill |
| Actors.SweepSkipsNeighbour | main.js:322-329 | two enemies on one flame: only the first is removed and only 100 is paid |
| Actors.ScorchSteady | main.js:321 | a hit on the player changes neither the score, the bomb counts, nor anything but the player and game state |
| Actors.FlareFlames | main.js:318-319 | one turn of the explosion loop drops that flame if its timer runs out, else decrements it |
| Actors.FlareSteady | main.js:317-331 | one flame turn keeps the bomb counts and the player's placement |
| Actors.FadeSteady | main.js:317-331 | the explosion loop keeps the bomb counts and the player's placement |
| Actors.FadeFlames | main.js:317-319 | after the loop has visited the last n flames, they are replaced by the live ones, decremented, in order |
| Actors.FadeAllFlames | main.js:317-319 | after the explosion loop, exactly the flames with time left remain, decremented, in order |
| Actors.CenterKillsTwice | main.js:317-321 | an unshielded player with one life on a bomb's doubled centre flame ends at -1 lives, game over |
| Actors.ProwlEffect | main.js:361-382 | each enemy takes exactly its own step, independently of the others; flames and score are kept |
| Actors.CheckLevelEffect | main.js:245-261 | the state changes only when no enemy is left while playing; then it is WIN at level ≥ 3, else LEVEL_COMPLETE |
| Rules.Heading | main.js:274-275 | the arrows are read in the order up, down, left, right: the first one held gives the heading (Up, Down, Left or Right), and there is none exactly when no arrow is held |
| Rules.LevelSetupEffect | main.js:205-243 | a level start sets the level (1 on a full reset), generates the map, empties bombs and flames, sets 180 s and PLAYING, resets the player, and spawns enemies on EMPTY cells outside the safe corner; the invariants hold |
| Rules.NextLevelForgets | main.js:256-259 | advancing raises the level by one, and the new player is the same whatever lives, score and upgrades were earned |
| Rules.CountdownKept | main.js:300-302 | the clock falls by dt and grid, bombs and enemies are kept; while the clock is above 0 only the shield changes, falling by dt when it was positive; at 0 one life is lost, with a respawn at (1, 1) shielded for 3000 − dt ms, or game over on the last life |
| Rules.ArrivalKept | main.js:305-310 | arriving keeps the invariants and the lives |
| Rules.BurnKept | main.js:312-315 | the fuse loop keeps the invariants and the lives |
| Rules.FadeKept | main.js:317-331 | the explosion loop keeps the invariants and never adds lives |
| Rules.ProwlKept | main.js:361-382 | the enemy loop keeps the invariants and never adds lives |
| Rules.SteerKept | main.js:271-282 | input handling keeps the invariants and the lives |
| Rules.SteerEffect | main.js:271-282 | moving or not playing: nothing changes. Otherwise a new target is the adjacent walkable cell of the first pressed direction, and when that cell is walkable the player targets it and starts moving; the only bomb a press of Space adds is the player's at its cell, and with room and a free cell it adds exactly that bomb and counts it |
| Rules.TickKept | main.js:298-336 | one update keeps activeBombs == \|bombs\| ≤ maxBombs, unique bomb cells and an on-grid player; lives never rise, the clock falls by dt, and an expired clock costs a life |
| Rules.TimeUpKeepsKilling | main.js:300-301 | once the clock is at or below 0 while playing, every update leaves it there and costs a life |
| Rules.TickShaped | main.js:298-336 | one update keeps the tiles valid and the frame and pillars solid |
| Rules.TickIdle | main.js:299 | outside PLAYING an update changes nothing |
| Game.World.constructor | main.js:142-165 | the initial state: MENU, level 1, the initial player, 180 s, no bombs, flames or enemies |
| Game.World.InitMap | main.js:170-176 | initMap clears bombs, flames and enemies, sets 180 s and resets the player |
| Game.World.GenerateMap | main.js:217-226 | the nested loops fill the buffer with the generated map |
| Game.World.SpawnEnemies | main.js:228-237 | the spawn loop appends exactly the enemies `Spawn` predicts |
| Game.World.StartGame | main.js:205-243 | startGame produces the level setup and keeps the invariants |
| Game.World.AdvanceLevel | main.js:256-259 | the delayed continuation raises the level and starts it |
| Game.World.IsWalkable | main.js:284-288 | agrees with `Walkable` on the buffer |
| Game.World.PlaceBomb | main.js:290-296 | the new state is the one `Place` gives |
| Game.World.HandleInput | main.js:271-282 | the new state is the one `Steer` gives |
| Game.World.CheckPowerups | main.js:413-422 | the new grid and player are those `Pickup` gives |
| Game.World.HandlePlayerDeath | main.js:424-441 | the new state is the one `Death` gives |
| Game.World.MaybeSpawnPowerup | main.js:406-411 | the cell becomes the loot tile when the roll is below 0.3, else nothing changes |
| Game.World.MovePlayer | main.js:305-310 | arrival with its pickup does what `Arrival` specifies |
| Game.World.RunClock | main.js:300-302 | the clock step does what `Countdown` specifies |
| Game.World.FlameCell | main.js:396-401 | one cell of the ray: when it stops the ray, the state is the one `Ray` gives; otherwise the rest of the ray from the next distance gives the same result |
| Game.World.CastRay | main.js:393-402 | the ray loop with its breaks does what `Ray` specifies |
| Game.World.Explode | main.js:385-404 | the five-direction loop does what `Blast.Explode` specifies |
| Game.World.FuseBurn | main.js:313-314 | one turn of the fuse loop does what `Visit` specifies |
| Game.World.UpdateBombs | main.js:312-315 | the descending fuse loop does what `BurnAll` specifies |
| Game.World.KillSweep | main.js:322-329 | the forEach with splice does what `Sweep` specifies, skip included |
| Game.World.FlameBurn | main.js:318-330 | one turn of the explosion loop does what `Flare` specifies |
| Game.World.UpdateExplosions | main.js:317-331 | the explosion loop does what `FadeAll` specifies |
| Game.World.IsSafe | main.js:372-375 | agrees with the filter's test `Safe` on the buffer |
| Game.World.SafeFilter | main.js:371-377 | the filter loop over any direction list returns exactly `SafeAmong` |
| Game.World.SafeDirections | main.js:370-377 | the filter loop returns exactly `SafeDirs` |
| Game.World.StepEnemy | main.js:363-380 | one enemy's move is the one `EnemyStep` gives |
| Game.World.EnemyTurn | main.js:362-381 | one turn of the enemy loop does what enemy k's step in `Prowl` specifies |
| Game.World.UpdateEnemies | main.js:361-382 | the enemy loop does what `Prowl` specifies |
| Game.World.Phases | main.js:305-335 | the phases after the clock run in the source's order: arrival, fuse loop, explosion loop, enemies, input, level check |
| Game.World.CheckLevelComplete | main.js:245-261 | the state transition is the one `CheckLevel` gives |
| Game.World.Update | main.js:298-336 | one update is `Tick` and keeps the invariants |

## Specification functions

The functions the methods are proved against, and the source lines each
one models:

| function | source | models |
|---|---|---|
| Blast.Ray | main.js:393-402 | one ray of `explode`, from distance d to the limit, with its breaks |
| Blast.Explode | main.js:385-404 | `explode`: the five rays in order |
| Blast.Place | main.js:290-296 | `placeBomb` |
| Blast.Visit | main.js:313-314 | one turn of the fuse loop |
| Blast.BurnAll | main.js:312-315 | the whole descending fuse loop |
| Actors.Death | main.js:424-441 | `handlePlayerDeath` |
| Actors.Pickup | main.js:413-422 | `checkPowerups` |
| Actors.Spawn | main.js:228-237 | the enemy spawn loop of `startGame` |
| Actors.SafeDirs | main.js:370-377 | the safe-direction filter of `updateEnemies` |
| Actors.EnemyStep | main.js:363-380 | one enemy's move |
| Actors.Sweep | main.js:322-329 | the enemy-kill `forEach` with `splice` |
| Actors.Flare | main.js:318-330 | one turn of the explosion loop |
| Actors.FadeAll | main.js:317-331 | the whole explosion loop |
| Actors.Prowl | main.js:361-382 | `updateEnemies` |
| Actors.CheckLevel | main.js:245-261 | the state change of `checkLevelComplete` |
| Rules.Countdown | main.js:300-302 | the clock and shield step of `update` |
| Rules.Arrival | main.js:305-310 | the player's arrival and pickup |
| Rules.Steer | main.js:271-282 | `handleInput` |
| Rules.Tick | main.js:298-336 | one `update` |
| Rules.LevelSetup | main.js:205-243 | `startGame` |
| Rules.NextLevel | main.js:256-259 | the continuation that starts the next level |

## Left out

- Rendering (`draw` and the `draw*` helpers), the HUD and the overlays: display output only.
- Audio (`initAudio`, `playSFX`, `playBackgroundMusic`): foreign Web Audio calls.
- The menu, theme and audio buttons, keyboard listeners, the animation-frame loop and the restart reload: DOM plumbing. Input is one `Keys` record per update (the four arrows and Space).
- Particles and screen shake: cosmetic floats that nothing else reads.
- Continuous movement. The player and the enemies move whole cells: an actor in transit reaches its target in one update. The float speeds are kept as reals but never used for motion. An enemy touches the player when they share a cell, which stands in for the `Math.hypot(…) < 0.6` test.
- `floatOffset` of enemies: animation only.
- Float probabilities (`Math.random`): replaced by the oracle arguments described above.
- The 3-second `setTimeout` before the next level: `checkLevelComplete` sets LEVEL_COMPLETE and `AdvanceLevel` is the continuation, called explicitly.
- Game.World.SpawnEnemies: the source's `do … while` redraws until it hits an EMPTY cell, without bound. The model takes a finite list of draws and stops when it runs out. `Actors.SpawnRules` then gives 3 + level enemies only when the draws hold enough hits.
- Game.World.InitMap: `grid = []` is not modelled. The same buffer is kept and then refilled by `GenerateMap`.
- Bomb `owner`: there is one player, so `b.owner.activeBombs--` is the player's count.
- The round clock in whole milliseconds, for `gameTime` in fractional seconds.
