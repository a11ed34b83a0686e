/**
 * One frame of the game as a function of the whole game state: startGame
 * and the level advance, handleInput, and update's phases in main.js's
 * order (main.js:205-243, 245-261, 271-282, 298-336). The World class
 * follows these step by step; the invariants of the game are proved here.
 */
module Rules {
  import opened Tiles
  import opened Blast
  import opened Actors

  /** The round clock, in milliseconds (gameTime = 180 seconds). */
  const RoundTime := 180000

  /** The keys handleInput reads. */
  datatype Keys = Keys(up: bool, down: bool, left: bool, right: bool, space: bool)

  /** The whole simulated state: the grid, the bombs and flames, the player, the enemies, the game state, the level and the clock. */
  datatype State = State(
    grid: Grid, bombs: seq<Bomb>, explosions: seq<Explosion>, player: Player,
    enemies: seq<Enemy>, mode: GameState, level: int, clock: int)

  /** The part of the state that explode and the fuse loop work on. */
  function ArenaOf(s: State): Arena {
    Arena(s.grid, s.bombs, s.explosions, s.player.score, s.player.activeBombs)
  }

  function WithArena(s: State, a: Arena): State {
    s.(grid := a.grid, bombs := a.bombs, explosions := a.explosions,
       player := s.player.(score := a.score, activeBombs := a.activeBombs))
  }

  /** The part of the state that the explosion loop and the enemy loop work on. */
  function SceneOf(s: State): Scene {
    Scene(s.player, s.mode, s.enemies, s.explosions)
  }

  function WithScene(s: State, c: Scene): State {
    s.(player := c.player, mode := c.state, enemies := c.enemies, explosions := c.explosions)
  }

  // ---------------------------------------------------------------------
  // The invariants

  /** The bookkeeping every frame keeps: the player on the grid, and the bomb count right and under the allowance. */
  ghost predicate Kept(s: State) {
    WellSized(s.grid) && Placed(s.player) && Counted(ArenaOf(s), s.player.maxBombs)
  }

  /** The map's shape: valid tiles and the solid frame. */
  ghost predicate Shaped(s: State) {
    WellSized(s.grid) && TilesValid(s.grid) && Framed(s.grid)
  }

  // ---------------------------------------------------------------------
  // startGame and the level advance (main.js:205-243, 256-259)

  /** initMap: no enemies, bombs or flames, a full clock, and the player reset. */
  function Cleared(s: State): State {
    s.(enemies := [], bombs := [], explosions := [], clock := RoundTime, player := LevelStart(s.player))
  }

  /** startGame(resetAll), with rolls for the map and draws for the enemy cells. */
  function LevelSetup(s: State, resetAll: bool, rolls: (int, int) -> Unit, draws: seq<(Unit, Unit)>): State {
    var s1 := if resetAll then s.(level := 1, player := NewGame(s.player)) else s;
    var s2 := Cleared(s1);
    var g := Generate(s2.level, rolls);
    s2.(grid := g, enemies := Spawn(g, s2.level, draws), mode := Playing)
  }

  /** The continuation checkLevelComplete schedules: the next level, started without a reset. */
  function NextLevel(s: State, rolls: (int, int) -> Unit, draws: seq<(Unit, Unit)>): State {
    LevelSetup(s.(level := s.level + 1), false, rolls, draws)
  }

  /**
   * Every level starts the same way: a freshly generated map, the player at
   * rest on the empty start cell with 3 lives, no score, one bomb of range
   * one, no bombs or flames about, a full clock, and every enemy at rest on
   * an empty cell outside the safe corner. Only a new game goes back to
   * level 1.
   */
  lemma LevelSetupEffect(s: State, resetAll: bool, rolls: (int, int) -> Unit, draws: seq<(Unit, Unit)>)
    requires resetAll || s.level >= 0
    ensures var r := LevelSetup(s, resetAll, rolls, draws);
      && r.level == (if resetAll then 1 else s.level)
      && r.grid == Generate(r.level, rolls) && r.grid[1][1] == Empty
      && r.mode == Playing && r.clock == RoundTime && r.bombs == [] && r.explosions == []
      && r.player == FirstPlayer.(speed := r.player.speed, shieldTimer := s.player.shieldTimer)
      && (resetAll ==> r.player.speed == StartSpeed)
      && (forall k :: 0 <= k < |r.enemies| ==>
            InBounds(r.enemies[k].x, r.enemies[k].y) && !InSafeCorner(r.enemies[k].x, r.enemies[k].y)
            && r.grid[r.enemies[k].y][r.enemies[k].x] == Empty
            && !r.enemies[k].isMoving)
      && Kept(r) && Shaped(r)
  {
    var r := LevelSetup(s, resetAll, rolls, draws);
    StartIsOpen(r.level, rolls);
    SpawnRules(r.grid, r.level, draws);
  }

  /**
   * The level advance forgets the player's progress: however many lives,
   * points and upgrades it had, the next level starts with 3 lives, no score
   * and one bomb of range one, and one level further on.
   */
  lemma NextLevelForgets(s: State, t: State, rolls: (int, int) -> Unit, draws: seq<(Unit, Unit)>)
    requires s.level == t.level && s.player.speed == t.player.speed && s.player.shieldTimer == t.player.shieldTimer
    ensures NextLevel(s, rolls, draws) == NextLevel(t, rolls, draws).(mode := NextLevel(s, rolls, draws).mode)
    ensures NextLevel(s, rolls, draws).level == s.level + 1
    ensures var p := NextLevel(s, rolls, draws).player;
      p.lives == StartLives && p.score == 0 && p.maxBombs == 1 && p.bombRange == 1
  {
    LevelStartForgets(s.player, t.player);
  }

  // ---------------------------------------------------------------------
  // update's phases (main.js:298-336)

  /** handlePlayerDeath on the whole state. */
  function Die(s: State): State {
    var (p, m) := Death(s.player, s.mode);
    s.(player := p, mode := m)
  }

  /** The round clock and the shield run down; at zero the clock takes a life, and goes on taking one every frame. */
  function Countdown(s: State, dt: int): State {
    var s1 := s.(clock := s.clock - dt);
    var s2 := if s1.clock <= 0 then Die(s1) else s1;
    if s2.player.shieldTimer > 0 then s2.(player := s2.player.(shieldTimer := s2.player.shieldTimer - dt)) else s2
  }

  /** A moving player reaches its target, and picks up what lies there. */
  function Arrival(s: State): State
    requires WellSized(s.grid) && InBounds(s.player.targetX, s.player.targetY)
  {
    if s.player.isMoving then
      var p := s.player.(x := s.player.targetX, y := s.player.targetY, isMoving := false);
      var (g, q) := Pickup(s.grid, p);
      s.(grid := g, player := q)
    else s
  }

  /** The heading handleInput takes: up, else down, else left, else right. */
  function Heading(k: Keys): (h: Option<Dir>)
    ensures h.Some? ==> IsCardinal(h.value)
    ensures h.None? <==> !(k.up || k.down || k.left || k.right)
    ensures k.up ==> h == Some(Up)
    ensures !k.up && k.down ==> h == Some(Down)
    ensures !k.up && !k.down && k.left ==> h == Some(Left)
    ensures !k.up && !k.down && !k.left && k.right ==> h == Some(Right)
  {
    if k.up then Some(Up) else if k.down then Some(Down)
    else if k.left then Some(Left) else if k.right then Some(Right) else None
  }

  /** placeBomb on the whole state. */
  function PlaceIn(s: State): State {
    WithArena(s, Place(ArenaOf(s), s.player.x, s.player.y, s.player.maxBombs, s.player.bombRange))
  }

  /** handleInput: at rest and in play, set off towards a walkable neighbour, and on Space place a bomb. */
  function Steer(s: State, k: Keys): State
    requires WellSized(s.grid)
  {
    if s.mode != Playing || s.player.isMoving then s
    else
      var s1 := match Heading(k)
        case None => s
        case Some(d) =>
          var c := StepCell(s.player.x, s.player.y, d, 1);
          if Walkable(s.grid, c.0, c.1) then s.(player := s.player.(targetX := c.0, targetY := c.1, isMoving := true)) else s;
      if k.space then PlaceIn(s1) else s1
  }

  /** The bomb loop of update. */
  function BombPhase(s: State, dt: int, loot: (int, int) -> Roll): State
    requires WellSized(s.grid)
  {
    WithArena(s, BurnAll(ArenaOf(s), dt, loot))
  }

  /** The explosion loop of update. */
  function FlamePhase(s: State, dt: int): State {
    WithScene(s, FadeAll(SceneOf(s), dt))
  }

  /** updateEnemies. */
  function EnemyPhase(s: State, rolls: int -> Unit): State
    requires WellSized(s.grid)
  {
    WithScene(s, Prowl(SceneOf(s), s.grid, s.bombs, rolls, 0))
  }

  /** checkLevelComplete. */
  function Judge(s: State): State {
    s.(mode := CheckLevel(s.mode, |s.enemies|, s.level))
  }

  /** update(dt): with loot for destroyed walls, rolls for the enemies' choices and the keys held down. */
  function Tick(s: State, dt: int, loot: (int, int) -> Roll, rolls: int -> Unit, k: Keys): State
    requires Kept(s)
  {
    if s.mode != Playing then s
    else
      var s1 := Countdown(s, dt);
      CountdownKept(s, dt);
      Judge(Steer(EnemyPhase(FlamePhase(BombPhase(Arrival(s1), dt, loot), dt), rolls), k))
  }

  // ---------------------------------------------------------------------
  // What a frame keeps

  /**
   * The clock runs down by dt and is never reset. While time is left only
   * the shield changes, by dt if it was up. At zero the clock takes one life:
   * with lives to spare the player respawns shielded and the shield at once
   * burns dt, otherwise the game is over.
   */
  lemma CountdownKept(s: State, dt: int)
    requires Kept(s)
    ensures var r := Countdown(s, dt);
      && Kept(r) && r.grid == s.grid && r.bombs == s.bombs && r.enemies == s.enemies
      && r.clock == s.clock - dt && r.player.lives <= s.player.lives
      && (s.clock - dt > 0 ==>
            && r.mode == s.mode
            && r.player == s.player.(shieldTimer := if s.player.shieldTimer > 0 then s.player.shieldTimer - dt else s.player.shieldTimer))
      && (s.clock - dt <= 0 ==> r.player.lives == s.player.lives - 1)
      && (s.clock - dt <= 0 && s.player.lives > 1 ==>
            r.mode == s.mode && r.player.x == 1 && r.player.y == 1 && r.player.shieldTimer == RespawnShield - dt)
      && (s.clock - dt <= 0 && s.player.lives <= 1 ==> r.mode == GameOver)
  {
    DeathEffect(s.player, s.mode);
  }

  lemma ArrivalKept(s: State)
    requires Kept(s)
    ensures var r := Arrival(s); Kept(r) && r.player.lives == s.player.lives
  {
    if s.player.isMoving {
      var p := s.player.(x := s.player.targetX, y := s.player.targetY, isMoving := false);
      PickupEffect(s.grid, p);
    }
  }

  lemma BurnKept(s: State, dt: int, loot: (int, int) -> Roll)
    requires Kept(s)
    ensures var r := BombPhase(s, dt, loot); Kept(r) && r.player.lives == s.player.lives
  {
    BurnKeepsCount(ArenaOf(s), dt, loot, s.player.maxBombs);
  }

  lemma FadeKept(s: State, dt: int)
    requires Kept(s)
    ensures var r := FlamePhase(s, dt); Kept(r) && r.player.lives <= s.player.lives
  {
    FadeSteady(SceneOf(s), |s.explosions|, dt);
    FadeAllFlames(SceneOf(s), dt);
  }

  lemma ProwlKept(s: State, rolls: int -> Unit)
    requires Kept(s)
    ensures var r := EnemyPhase(s, rolls); Kept(r) && r.player.lives <= s.player.lives
  {
    ProwlEffect(SceneOf(s), s.grid, s.bombs, rolls, 0);
  }

  lemma SteerKept(s: State, k: Keys)
    requires Kept(s)
    ensures var r := Steer(s, k); Kept(r) && r.player.lives == s.player.lives
  {
    if s.mode == Playing && !s.player.isMoving {
      var s1 := match Heading(k)
        case None => s
        case Some(d) =>
          var c := StepCell(s.player.x, s.player.y, d, 1);
          if Walkable(s.grid, c.0, c.1) then s.(player := s.player.(targetX := c.0, targetY := c.1, isMoving := true)) else s;
      assert Kept(s1);
      PlaceKeepsCount(ArenaOf(s1), s1.player.x, s1.player.y, s1.player.maxBombs, s1.player.bombRange);
    }
  }

  /**
   * A frame keeps the bookkeeping: the player stays on the grid and heads
   * for a cell on it, and the bomb count is still the number of bombs on
   * the field, never above the allowance, one per cell. No frame gives a
   * life back, and once the clock has run out every frame in play takes one.
   */
  lemma TickKept(s: State, dt: int, loot: (int, int) -> Roll, rolls: int -> Unit, k: Keys)
    requires Kept(s)
    ensures var r := Tick(s, dt, loot, rolls, k);
      && Kept(r) && r.player.lives <= s.player.lives
      && (s.mode == Playing ==> r.clock == s.clock - dt)
      && (s.mode == Playing && s.clock - dt <= 0 ==> r.player.lives < s.player.lives)
  {
    if s.mode == Playing {
      var s1 := Countdown(s, dt);
      CountdownKept(s, dt);
      var s2 := Arrival(s1);
      ArrivalKept(s1);
      var s3 := BombPhase(s2, dt, loot);
      BurnKept(s2, dt, loot);
      var s4 := FlamePhase(s3, dt);
      FadeKept(s3, dt);
      var s5 := EnemyPhase(s4, rolls);
      ProwlKept(s4, rolls);
      SteerKept(s5, k);
    }
  }

  /**
   * The round clock is never reset within a level: once it has run out,
   * every further update in play costs another life, until the game is over.
   */
  lemma TimeUpKeepsKilling(s: State, dt: int, loot: (int, int) -> Roll, rolls: int -> Unit, k: Keys)
    requires Kept(s) && s.mode == Playing && s.clock <= 0 && dt >= 0
    ensures var r := Tick(s, dt, loot, rolls, k);
      r.clock <= 0 && r.player.lives < s.player.lives
  {
    TickKept(s, dt, loot, rolls, k);
  }

  lemma ArrivalShaped(s: State)
    requires Kept(s) && Shaped(s)
    ensures Shaped(Arrival(s))
  {
    if s.player.isMoving {
      PickupKeepsShape(s.grid, s.player.(x := s.player.targetX, y := s.player.targetY, isMoving := false));
    }
  }

  lemma BurnShaped(s: State, dt: int, loot: (int, int) -> Roll)
    requires Shaped(s)
    ensures Shaped(BombPhase(s, dt, loot))
  {
    BurnKeepsShape(ArenaOf(s), |s.bombs|, dt, loot);
  }

  /** A frame keeps every tile code valid and the solid frame standing. */
  lemma TickShaped(s: State, dt: int, loot: (int, int) -> Roll, rolls: int -> Unit, k: Keys)
    requires Kept(s) && Shaped(s)
    ensures Shaped(Tick(s, dt, loot, rolls, k))
  {
    if s.mode == Playing {
      var s1 := Countdown(s, dt);
      CountdownKept(s, dt);
      var s2 := Arrival(s1);
      ArrivalShaped(s1);
      BurnShaped(s2, dt, loot);
    }
  }

  /** Nothing happens out of play: in the menu, after the game is over or won, and while a level change is pending. */
  lemma TickIdle(s: State, dt: int, loot: (int, int) -> Roll, rolls: int -> Unit, k: Keys)
    requires Kept(s) && s.mode != Playing
    ensures Tick(s, dt, loot, rolls, k) == s
  {
  }

  /**
   * handleInput: out of play or on the way, nothing changes; otherwise the
   * player may set off only towards the walkable neighbour the heading
   * names, and only Space places a bomb, under placeBomb's conditions.
   */
  lemma SteerEffect(s: State, k: Keys)
    requires WellSized(s.grid)
    ensures var r := Steer(s, k);
      && (s.mode != Playing || s.player.isMoving ==> r == s)
      && r.grid == s.grid && r.enemies == s.enemies && r.mode == s.mode
      && r.player.x == s.player.x && r.player.y == s.player.y
      && ((r.player.targetX, r.player.targetY) != (s.player.targetX, s.player.targetY) ==>
            && Heading(k).Some? && r.player.isMoving
            && (r.player.targetX, r.player.targetY) == StepCell(s.player.x, s.player.y, Heading(k).value, 1)
            && Walkable(s.grid, r.player.targetX, r.player.targetY))
      && (!k.space ==> r.bombs == s.bombs)
      && (r.bombs != s.bombs ==> r.bombs == s.bombs + [Bomb(s.player.x, s.player.y, FuseTime, s.player.bombRange)])
      && (s.mode == Playing && !s.player.isMoving && Heading(k).Some? ==>
            var c := StepCell(s.player.x, s.player.y, Heading(k).value, 1);
            Walkable(s.grid, c.0, c.1) ==> r.player.targetX == c.0 && r.player.targetY == c.1 && r.player.isMoving)
      && (s.mode == Playing && !s.player.isMoving && k.space &&
          s.player.activeBombs < s.player.maxBombs && !HasBombAt(s.bombs, s.player.x, s.player.y) ==>
            && r.bombs == s.bombs + [Bomb(s.player.x, s.player.y, FuseTime, s.player.bombRange)]
            && r.player.activeBombs == s.player.activeBombs + 1)
  {
    if s.mode == Playing && !s.player.isMoving {
      var s1 := match Heading(k)
        case None => s
        case Some(d) =>
          var c := StepCell(s.player.x, s.player.y, d, 1);
          if Walkable(s.grid, c.0, c.1) then s.(player := s.player.(targetX := c.0, targetY := c.1, isMoving := true)) else s;
      PlaceEffect(ArenaOf(s1), s1.player.x, s1.player.y, s1.player.maxBombs, s1.player.bombRange);
    }
  }
}
