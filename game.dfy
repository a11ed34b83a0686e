/**
 * The game object of main.js: the grid as a fixed 13 x 15 buffer updated
 * in place, the bomb, flame and enemy lists, the player record, the game
 * state and the level. Each method follows the source statement by
 * statement and is proved to compute the matching function of Rules,
 * Actors or Blast on the state it starts from.
 */
module Game {
  import opened Tiles
  import opened Blast
  import opened Actors
  import opened Rules

  /** The grid before the first level is generated. */
  function Blank(): (g: Grid)
    ensures WellSized(g) && forall y, x :: InBounds(x, y) ==> g[y][x] == Empty
  {
    seq(Height, y => seq(Width, x => Empty))
  }

  class World {
    /** grid[y, x] is the tile at (x, y). */
    const grid: array2<int>
    /** The grid's contents as a value. */
    ghost var view: Grid
    var bombs: seq<Bomb>
    var explosions: seq<Explosion>
    var player: Player
    var enemies: seq<Enemy>
    var currentGameState: GameState
    var currentLevel: int
    /** The round clock, in milliseconds. */
    var gameTime: int

    /** The buffer has the grid's size and holds exactly view. */
    ghost predicate Mirrored()
      reads this, grid
    {
      && grid.Length0 == Height && grid.Length1 == Width && WellSized(view)
      && forall y, x :: 0 <= y < Height && 0 <= x < Width ==> grid[y, x] == view[y][x]
    }

    ghost predicate Valid()
      reads this, grid
    {
      Mirrored() && Kept(Snapshot())
    }

    /** The whole state as a value. */
    ghost function Snapshot(): State
      reads this
    {
      State(view, bombs, explosions, player, enemies, currentGameState, currentLevel, gameTime)
    }

    ghost function Core(): Arena
      reads this
    {
      ArenaOf(Snapshot())
    }

    /** The page as it loads: the menu, level 1, the first player, an empty grid. */
    constructor()
      ensures Valid() && fresh(grid)
      ensures Snapshot() == State(Blank(), [], [], FirstPlayer, [], Menu, 1, RoundTime)
    {
      grid := new int[Height, Width]((y, x) => Empty);
      view := Blank();
      bombs := [];
      explosions := [];
      player := FirstPlayer;
      enemies := [];
      currentGameState := Menu;
      currentLevel := 1;
      gameTime := RoundTime;
    }

    /** grid[y][x] = t */
    method SetCell(x: int, y: int, t: int)
      requires Mirrored() && InBounds(x, y)
      modifies this, grid
      ensures Mirrored() && Snapshot() == old(Snapshot()).(grid := SetTile(old(view), x, y, t))
    {
      grid[y, x] := t;
      view := SetTile(view, x, y, t);
    }

    // -------------------------------------------------------------------
    // Level start

    /** initMap (main.js:171-176); the grid itself is refilled right after. */
    method InitMap()
      modifies this
      ensures Snapshot() == Cleared(old(Snapshot()))
    {
      enemies := [];
      bombs := [];
      explosions := [];
      gameTime := RoundTime;
      player := player.(x := 1, y := 1, targetX := 1, targetY := 1, isMoving := false, lives := StartLives,
                        score := 0, activeBombs := 0, maxBombs := 1, bombRange := 1);
    }

    /** The generation loops of startGame (main.js:217-226); rolls(x, y) is the draw for cell (x, y). */
    method GenerateMap(rolls: (int, int) -> Unit)
      requires Mirrored()
      modifies this, grid
      ensures Mirrored() && Snapshot() == old(Snapshot()).(grid := Generate(currentLevel, rolls))
    {
      var y := 0;
      while y < Height
        invariant 0 <= y <= Height
        invariant forall y', x' :: 0 <= y' < y && 0 <= x' < Width ==>
                    grid[y', x'] == GeneratedTile(currentLevel, x', y', rolls(x', y'))
        modifies grid
      {
        var x := 0;
        while x < Width
          invariant 0 <= x <= Width
          invariant forall y', x' :: 0 <= y' < y && 0 <= x' < Width ==>
                      grid[y', x'] == GeneratedTile(currentLevel, x', y', rolls(x', y'))
          invariant forall x' :: 0 <= x' < x ==> grid[y, x'] == GeneratedTile(currentLevel, x', y, rolls(x', y))
          modifies grid
        {
          grid[y, x] := GeneratedTile(currentLevel, x, y, rolls(x, y));
          x := x + 1;
        }
        y := y + 1;
      }
      view := Generate(currentLevel, rolls);
    }

    /**
     * The spawn loop of startGame (main.js:228-236): each draw that lands on
     * an empty cell places one enemy there, until 3 + level are placed.
     */
    method SpawnEnemies(draws: seq<(Unit, Unit)>)
      requires Mirrored()
      modifies this
      ensures Mirrored() && Snapshot() == old(Snapshot()).(enemies := old(enemies) + Spawn(view, currentLevel, draws))
    {
      var quota := Quota(currentLevel);
      var placed := 0;
      var j := 0;
      while j < |draws| && placed < quota
        invariant 0 <= j <= |draws| && Mirrored()
        invariant placed == |Hits(view, draws[..j])| <= quota
        invariant Snapshot() == old(Snapshot()).(enemies := old(enemies) + Crowd(Hits(view, draws[..j]), currentLevel))
      {
        var c := SpawnCell(draws[j]);
        HitsStep(view, draws, j);
        ghost var hs := Hits(view, draws[..j]);
        if grid[c.1, c.0] == Empty {
          CrowdSnoc(hs, c, currentLevel);
          enemies := enemies + [Newcomer(c, currentLevel)];
          placed := placed + 1;
        }
        j := j + 1;
      }
      SpawnStops(view, currentLevel, draws, j);
    }

    /** startGame(resetAll) (main.js:205-239). */
    method StartGame(resetAll: bool, rolls: (int, int) -> Unit, draws: seq<(Unit, Unit)>)
      requires Mirrored()
      modifies this, grid
      ensures Valid() && Snapshot() == LevelSetup(old(Snapshot()), resetAll, rolls, draws)
    {
      if resetAll {
        currentLevel := 1;
        player := player.(score := 0, lives := StartLives, bombRange := 1, maxBombs := 1, speed := StartSpeed);
      }
      InitMap();
      GenerateMap(rolls);
      SpawnEnemies(draws);
      currentGameState := Playing;
    }

    /** The continuation checkLevelComplete schedules with setTimeout (main.js:256-259), run as its own step. */
    method AdvanceLevel(rolls: (int, int) -> Unit, draws: seq<(Unit, Unit)>)
      requires Mirrored()
      modifies this, grid
      ensures Valid() && Snapshot() == NextLevel(old(Snapshot()), rolls, draws)
    {
      currentLevel := currentLevel + 1;
      StartGame(false, rolls, draws);
    }

    // -------------------------------------------------------------------
    // The player

    /** isWalkable (main.js:284-288), on the buffer. */
    function IsWalkable(x: int, y: int): (r: bool)
      requires Mirrored()
      reads this, grid
      ensures r == Walkable(view, x, y)
    {
      if x < 0 || x >= Width || y < 0 || y >= Height then false
      else grid[y, x] == Empty || grid[y, x] >= PowerupFire
    }

    /** placeBomb (main.js:290-296). */
    method PlaceBomb()
      modifies this
      ensures Snapshot() == PlaceIn(old(Snapshot()))
    {
      var px := player.x;
      var py := player.y;
      if player.activeBombs < player.maxBombs && !HasBombAt(bombs, px, py) {
        bombs := bombs + [Bomb(px, py, FuseTime, player.bombRange)];
        player := player.(activeBombs := player.activeBombs + 1);
      }
    }

    /** handleInput (main.js:271-282), with the keys held down as a parameter. */
    method HandleInput(keys: Keys)
      requires Mirrored()
      modifies this
      ensures Snapshot() == Steer(old(Snapshot()), keys)
    {
      if currentGameState != Playing || player.isMoving {
        return;
      }
      var heading := Heading(keys);
      if heading.Some? {
        var next := StepCell(player.x, player.y, heading.value, 1);
        if IsWalkable(next.0, next.1) {
          player := player.(targetX := next.0, targetY := next.1, isMoving := true);
        }
      }
      if keys.space {
        PlaceBomb();
      }
    }

    /** checkPowerups (main.js:413-422). */
    method CheckPowerups()
      requires Mirrored() && InBounds(player.x, player.y)
      modifies this, grid
      ensures Mirrored()
      ensures Snapshot() == old(Snapshot()).(grid := Pickup(old(view), old(player)).0, player := Pickup(old(view), old(player)).1)
    {
      var x := player.x;
      var y := player.y;
      var tile := grid[y, x];
      if tile == PowerupFire {
        player := player.(bombRange := player.bombRange + 1, score := player.score + PickupBonus);
        SetCell(x, y, Empty);
      } else if tile == PowerupBomb {
        player := player.(maxBombs := player.maxBombs + 1, score := player.score + PickupBonus);
        SetCell(x, y, Empty);
      } else if tile == PowerupSpeed {
        player := player.(speed := player.speed + SpeedBonus, score := player.score + PickupBonus);
        SetCell(x, y, Empty);
      } else if tile == PowerupShield {
        player := player.(shieldTimer := PickupShield, score := player.score + PickupBonus);
        SetCell(x, y, Empty);
      }
    }

    /** The player's movement in update (main.js:305-310), one whole cell per step. */
    method MovePlayer()
      requires Mirrored() && InBounds(player.targetX, player.targetY)
      modifies this, grid
      ensures Mirrored() && Snapshot() == Arrival(old(Snapshot()))
    {
      if player.isMoving {
        player := player.(x := player.targetX, y := player.targetY, isMoving := false);
        CheckPowerups();
      }
    }

    /** handlePlayerDeath (main.js:424-441). */
    method HandlePlayerDeath()
      modifies this
      ensures Snapshot() == Die(old(Snapshot()))
    {
      player := player.(lives := player.lives - 1);
      if player.lives <= 0 {
        currentGameState := GameOver;
      } else {
        player := player.(x := 1, y := 1, targetX := 1, targetY := 1, isMoving := false, shieldTimer := RespawnShield);
      }
    }

    // -------------------------------------------------------------------
    // explode (main.js:385-411)

    /** maybeSpawnPowerup (main.js:406-411), with its two draws as roll. */
    method MaybeSpawnPowerup(x: int, y: int, roll: Roll)
      requires Mirrored() && InBounds(x, y)
      modifies this, grid
      ensures Mirrored()
      ensures Snapshot() == old(Snapshot()).(grid := if roll.spawn < 0.3 then SetTile(old(view), x, y, Loot(roll)) else old(view))
    {
      if roll.spawn < 0.3 {
        SetCell(x, y, PowerupKinds[Pick(roll.kind, |PowerupKinds|)]);
      }
    }

    /** The inner loop of explode for one direction: steps from .. limit, with its breaks. */
    method CastRay(self: nat, ox: int, oy: int, dir: Dir, from: int, limit: int, loot: (int, int) -> Roll)
      requires Mirrored()
      modifies this, grid
      ensures Mirrored()
      ensures Snapshot() == WithArena(old(Snapshot()), Ray(old(Core()), self, ox, oy, dir, from, limit, loot))
    {
      ghost var s0 := Snapshot();
      ghost var a0 := Core();
      var d := from;
      while d <= limit
        invariant Mirrored() && Snapshot() == WithArena(s0, Core())
        invariant Ray(Core(), self, ox, oy, dir, d, limit, loot) == Ray(a0, self, ox, oy, dir, from, limit, loot)
        decreases limit - d
      {
        var stop := FlameCell(self, ox, oy, dir, d, limit, loot);
        if stop {
          break;
        }
        d := d + 1;
      }
    }

    /**
     * One cell of a ray: stop at the grid's edge or a solid wall, otherwise
     * burn the cell; a breakable wall also stops the ray.
     */
    method FlameCell(self: nat, ox: int, oy: int, dir: Dir, d: int, limit: int, loot: (int, int) -> Roll) returns (stop: bool)
      requires Mirrored() && d <= limit
      modifies this, grid
      ensures Mirrored() && Snapshot() == WithArena(old(Snapshot()), Core())
      ensures stop ==> Core() == Ray(old(Core()), self, ox, oy, dir, d, limit, loot)
      ensures !stop ==> Ray(Core(), self, ox, oy, dir, d + 1, limit, loot) == Ray(old(Core()), self, ox, oy, dir, d, limit, loot)
    {
      ghost var a := Core();
      var c := StepCell(ox, oy, dir, d);
      var tx := c.0;
      var ty := c.1;
      if tx < 0 || tx >= Width || ty < 0 || ty >= Height {
        return true;
      }
      var tile := grid[ty, tx];
      if tile == WallSolid {
        return true;
      }
      explosions := explosions + [Explosion(tx, ty, BlastTime)];
      if tile == WallBreakable {
        SetCell(tx, ty, Empty);
        MaybeSpawnPowerup(tx, ty, loot(tx, ty));
        SetTileTwice(a.grid, tx, ty, Empty, Loot(loot(tx, ty)));
        player := player.(score := player.score + WallBonus);
        return true;
      }
      var target := FindBomb(bombs, tx, ty);
      if target.Some? && target.value != self {
        bombs := bombs[target.value := bombs[target.value].(timer := 0)];
      }
      RayUnfold(a, self, ox, oy, dir, d, limit, loot);
      stop := false;
    }

    /** explode(bombs[self]) (main.js:385-404): the five directions in turn. */
    method Explode(self: nat, loot: (int, int) -> Roll)
      requires Mirrored() && self < |bombs|
      modifies this, grid
      ensures Mirrored()
      ensures Snapshot() == WithArena(old(Snapshot()), Blast.Explode(old(Core()), self, loot))
    {
      ghost var s0 := Snapshot();
      ghost var a0 := Core();
      var bomb := bombs[self];
      var k := 0;
      while k < |Rays|
        invariant 0 <= k <= |Rays|
        invariant Mirrored() && Snapshot() == WithArena(s0, Core())
        invariant Core() == Stage(a0, self, bomb, k, loot)
      {
        var dir := Rays[k];
        CastRay(self, bomb.x, bomb.y, dir, FirstStep(dir), LastStep(dir, bomb.range), loot);
        k := k + 1;
      }
    }

    // -------------------------------------------------------------------
    // update (main.js:298-336)

    /** One turn of the bomb loop (main.js:313-314): bomb i's fuse burns dt; when it is out the bomb explodes, leaves, and is counted off. */
    method FuseBurn(i: nat, dt: int, loot: (int, int) -> Roll)
      requires Mirrored() && i < |bombs|
      modifies this, grid
      ensures Mirrored()
      ensures Snapshot() == WithArena(old(Snapshot()), Visit(old(Core()), i, dt, loot))
    {
      var b := bombs[i].(timer := bombs[i].timer - dt);
      bombs := bombs[i := b];
      if b.timer <= 0 {
        Explode(i, loot);
        bombs := bombs[..i] + bombs[i + 1..];
        player := player.(activeBombs := player.activeBombs - 1);
      }
    }

    /** The bomb loop of update (main.js:312-315), from the last bomb down. */
    method UpdateBombs(dt: int, loot: (int, int) -> Roll)
      requires Mirrored()
      modifies this, grid
      ensures Mirrored()
      ensures Snapshot() == BombPhase(old(Snapshot()), dt, loot)
    {
      ghost var s0 := Snapshot();
      ghost var a0 := Core();
      var i := |bombs|;
      while i > 0
        invariant 0 <= i <= |bombs|
        invariant Mirrored() && Snapshot() == WithArena(s0, Core())
        invariant Burn(Core(), i, dt, loot) == BurnAll(a0, dt, loot)
        decreases i
      {
        i := i - 1;
        FuseBurn(i, dt, loot);
      }
    }

    /** enemies.forEach with a splice inside (main.js:322-329), for a flame at (ex, ey). */
    method KillSweep(ex: int, ey: int)
      modifies this
      ensures var (es, score) := Sweep(old(enemies), 0, ex, ey, old(player).score);
        Snapshot() == old(Snapshot()).(enemies := es, player := old(player).(score := score))
    {
      ghost var s0 := Snapshot();
      var k := 0;
      while k < |enemies|
        invariant k <= |enemies| + 1
        invariant Sweep(enemies, k, ex, ey, player.score) == Sweep(s0.enemies, 0, ex, ey, s0.player.score)
        invariant Snapshot() == s0.(enemies := enemies, player := s0.player.(score := player.score))
        decreases |enemies| + 1 - k
      {
        if enemies[k].x == ex && enemies[k].y == ey {
          enemies := enemies[..k] + enemies[k + 1..];
          player := player.(score := player.score + KillBonus);
        }
        k := k + 1;
      }
    }

    ghost function SceneNow(): Scene
      reads this
    {
      SceneOf(Snapshot())
    }

    /** One turn of the explosion loop (main.js:318-330). */
    method FlameBurn(i: nat, dt: int)
      requires Mirrored() && i < |explosions|
      modifies this
      ensures Mirrored()
      ensures Snapshot() == WithScene(old(Snapshot()), Flare(SceneOf(old(Snapshot())), i, dt))
    {
      var ex := explosions[i].(timer := explosions[i].timer - dt);
      if ex.timer <= 0 {
        explosions := explosions[..i] + explosions[i + 1..];
      } else {
        explosions := explosions[i := ex];
        if player.x == ex.x && player.y == ex.y && player.shieldTimer <= 0 {
          HandlePlayerDeath();
        }
        KillSweep(ex.x, ex.y);
      }
    }

    /** The explosion loop of update (main.js:317-331), from the last flame down. */
    method UpdateExplosions(dt: int)
      requires Mirrored()
      modifies this
      ensures Mirrored()
      ensures Snapshot() == FlamePhase(old(Snapshot()), dt)
    {
      ghost var s0 := Snapshot();
      var i := |explosions|;
      while i > 0
        invariant 0 <= i <= |explosions|
        invariant Mirrored() && Snapshot() == WithScene(s0, SceneNow())
        invariant Fade(SceneNow(), i, dt) == FadeAll(SceneOf(s0), dt)
        decreases i
      {
        i := i - 1;
        FlameBurn(i, dt);
      }
    }

    /** The test inside the safeDirs filter (main.js:372-375), on the buffer. */
    function IsSafe(x: int, y: int, d: Dir): (r: bool)
      requires Mirrored()
      reads this, grid
      ensures r == Safe(view, bombs, x, y, d)
    {
      var c := StepCell(x, y, d, 1);
      if c.0 < 0 || c.0 >= Width || c.1 < 0 || c.1 >= Height then false
      else if grid[c.1, c.0] != Empty then false
      else !HasBombAt(bombs, c.0, c.1)
    }

    /** The safeDirs filter of updateEnemies (main.js:370-376), on the buffer. */
    method SafeDirections(x: int, y: int) returns (safe: seq<Dir>)
      requires Mirrored()
      ensures safe == SafeDirs(view, bombs, x, y)
    {
      safe := SafeFilter(x, y, Cardinals);
    }

    /** The filter itself, over any list of directions, keeping their order. */
    method SafeFilter(x: int, y: int, ds: seq<Dir>) returns (safe: seq<Dir>)
      requires Mirrored()
      ensures safe == SafeAmong(view, bombs, x, y, ds)
    {
      safe := [];
      var k := 0;
      assert ds[0..] == ds;
      while k < |ds|
        invariant 0 <= k <= |ds|
        invariant SafeAmong(view, bombs, x, y, ds) == safe + SafeAmong(view, bombs, x, y, ds[k..])
      {
        var d := ds[k];
        var ok := IsSafe(x, y, d);
        SafeAmongStep(view, bombs, x, y, ds, k);
        if ok {
          AppendAssoc(safe, [d], SafeAmong(view, bombs, x, y, ds[k + 1..]));
          safe := safe + [d];
        }
        k := k + 1;
      }
      assert ds[k..] == [];
    }

    /** One enemy's turn (main.js:363-380): arrive, or pick a direction and set off. */
    method StepEnemy(en: Enemy, r: Unit) returns (next: Enemy)
      requires Mirrored()
      ensures next == EnemyStep(view, bombs, en, r)
    {
      if en.isMoving {
        next := en.(x := en.targetX, y := en.targetY, isMoving := false);
      } else {
        var safe := SafeDirections(en.x, en.y);
        var d := ChooseDir(safe, r);
        var c := StepCell(en.x, en.y, d, 1);
        next := en.(targetX := c.0, targetY := c.1, isMoving := true);
      }
    }

    /** updateEnemies (main.js:361-383); rolls(k) is enemy k's draw. */
    method UpdateEnemies(rolls: int -> Unit)
      requires Mirrored()
      modifies this
      ensures Mirrored()
      ensures Snapshot() == EnemyPhase(old(Snapshot()), rolls)
    {
      ghost var s0 := Snapshot();
      var k := 0;
      while k < |enemies|
        invariant 0 <= k <= |enemies| == |s0.enemies|
        invariant Mirrored() && Snapshot() == WithScene(s0, SceneNow())
        invariant Prowl(SceneNow(), view, bombs, rolls, k) == Prowl(SceneOf(s0), s0.grid, s0.bombs, rolls, 0)
        decreases |enemies| - k
      {
        EnemyTurn(k, rolls(k));
        k := k + 1;
      }
    }

    /** One enemy's turn in updateEnemies, then the contact check (main.js:362-382). */
    method EnemyTurn(k: nat, r: Unit)
      requires Mirrored() && k < |enemies|
      modifies this
      ensures Mirrored()
      ensures var s := old(Snapshot()); var e := EnemyStep(s.grid, s.bombs, s.enemies[k], r);
        Snapshot() == WithScene(s, Scorch(SceneOf(s).(enemies := s.enemies[k := e]), e.x, e.y))
    {
      var en := StepEnemy(enemies[k], r);
      enemies := enemies[k := en];
      if player.x == en.x && player.y == en.y && player.shieldTimer <= 0 {
        HandlePlayerDeath();
      }
    }

    /** checkLevelComplete (main.js:245-261); the delayed level advance is AdvanceLevel. */
    method CheckLevelComplete()
      modifies this
      ensures Snapshot() == Judge(old(Snapshot()))
    {
      if |enemies| == 0 && currentGameState == Playing {
        if currentLevel >= LastLevel {
          currentGameState := Win;
          return;
        }
        currentGameState := LevelComplete;
      }
    }

    /** The clocks at the top of update (main.js:300-302). */
    method RunClock(dt: int)
      modifies this
      ensures Snapshot() == Countdown(old(Snapshot()), dt)
    {
      gameTime := gameTime - dt;
      if gameTime <= 0 {
        HandlePlayerDeath();
      }
      if player.shieldTimer > 0 {
        player := player.(shieldTimer := player.shieldTimer - dt);
      }
    }

    /** update(dt) (main.js:298-336). */
    method Update(dt: int, loot: (int, int) -> Roll, rolls: int -> Unit, keys: Keys)
      requires Valid()
      modifies this, grid
      ensures Valid() && Snapshot() == Tick(old(Snapshot()), dt, loot, rolls, keys)
    {
      ghost var s0 := Snapshot();
      if currentGameState != Playing {
        return;
      }
      RunClock(dt);
      CountdownKept(s0, dt);
      Phases(dt, loot, rolls, keys);
      TickKept(s0, dt, loot, rolls, keys);
    }

    /** The rest of update after the clocks (main.js:305-335). */
    method Phases(dt: int, loot: (int, int) -> Roll, rolls: int -> Unit, keys: Keys)
      requires Mirrored() && InBounds(player.targetX, player.targetY)
      modifies this, grid
      ensures Mirrored()
      ensures Snapshot() == Judge(Steer(EnemyPhase(FlamePhase(BombPhase(Arrival(old(Snapshot())), dt, loot), dt), rolls), keys))
    {
      MovePlayer();
      UpdateBombs(dt, loot);
      UpdateExplosions(dt);
      UpdateEnemies(rolls);
      HandleInput(keys);
      CheckLevelComplete();
    }
  }
}
