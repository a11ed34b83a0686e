/**
 * The player and the enemies as values: pickup, death and respawn, the
 * enemy spawn rules and safe-direction filter, the explosion loop of update
 * with its kill sweep, and the level-completion check (main.js:148-159,
 * 170-176, 205-261, 317-331, 361-383, 413-441).
 */
module Actors {
  import opened Tiles
  import opened Blast

  datatype GameState = Menu | Playing | GameOver | LevelComplete | Win

  const StartLives := 3
  const RespawnShield := 3000
  const PickupShield := 5000
  const PickupBonus := 50
  const KillBonus := 100
  const StartSpeed: real := 0.15
  const SpeedBonus: real := 0.02
  const LastLevel := 3

  /** The player object; positions are whole cells. */
  datatype Player = Player(
    x: int, y: int, targetX: int, targetY: int, isMoving: bool, speed: real,
    bombRange: int, maxBombs: int, activeBombs: int, lives: int, score: int, shieldTimer: int)

  /** The player as the page loads it (main.js:148-159). */
  const FirstPlayer := Player(1, 1, 1, 1, false, StartSpeed, 1, 1, 0, StartLives, 0, 0)

  /** The player stands on the grid and heads for a cell on the grid. */
  predicate Placed(p: Player) {
    InBounds(p.x, p.y) && InBounds(p.targetX, p.targetY)
  }

  /**
   * What flames and enemies can do to the player: take lives and move it
   * back to the start, but not touch its bombs or its range.
   */
  predicate Steady(p: Player, q: Player) {
    && q.maxBombs == p.maxBombs && q.activeBombs == p.activeBombs && q.bombRange == p.bombRange
    && q.lives <= p.lives && (Placed(p) ==> Placed(q))
  }

  /** An enemy; the floating animation offset is left out. */
  datatype Enemy = Enemy(x: int, y: int, targetX: int, targetY: int, isMoving: bool, speed: real)

  // ---------------------------------------------------------------------
  // Level start (startGame and initMap, main.js:171-176, 205-214)

  /** startGame(true) before initMap: a new game forgets the upgrades. */
  function NewGame(p: Player): Player {
    p.(score := 0, lives := StartLives, bombRange := 1, maxBombs := 1, speed := StartSpeed)
  }

  /** initMap's part on the player: back to (1, 1), and lives, score, range and bombs reset. */
  function LevelStart(p: Player): Player {
    p.(x := 1, y := 1, targetX := 1, targetY := 1, isMoving := false,
       lives := StartLives, score := 0, activeBombs := 0, maxBombs := 1, bombRange := 1)
  }

  /**
   * Every level start resets the player: what it starts with depends on
   * nothing but the speed and the shield carried over, so lives, score,
   * range and bombs earned on the previous level are lost.
   */
  lemma LevelStartForgets(p: Player, q: Player)
    requires p.speed == q.speed && p.shieldTimer == q.shieldTimer
    ensures LevelStart(p) == LevelStart(q)
    ensures LevelStart(p).lives == StartLives && LevelStart(p).score == 0
  {
  }

  /** A new game is the first player again, except for a shield still running. */
  lemma NewGameIsFirst(p: Player)
    ensures LevelStart(NewGame(p)) == FirstPlayer.(shieldTimer := p.shieldTimer)
  {
  }

  // ---------------------------------------------------------------------
  // handlePlayerDeath (main.js:424-441)

  /** A life lost: game over at zero lives, otherwise back to (1, 1) with a 3-second shield. */
  function Death(p: Player, s: GameState): (Player, GameState) {
    var lives := p.lives - 1;
    if lives <= 0 then (p.(lives := lives), GameOver)
    else (p.(lives := lives, x := 1, y := 1, targetX := 1, targetY := 1, isMoving := false, shieldTimer := RespawnShield), s)
  }

  /**
   * Death takes one life. With none left the game is over and the player
   * stays where it is, unshielded; otherwise it respawns at (1, 1), at rest,
   * shielded for 3000 ms, and the game goes on. Score and upgrades are kept.
   */
  lemma DeathEffect(p: Player, s: GameState)
    ensures var (q, t) := Death(p, s);
      && q.lives == p.lives - 1
      && q.score == p.score && q.bombRange == p.bombRange && q.maxBombs == p.maxBombs
      && q.activeBombs == p.activeBombs && q.speed == p.speed
      && (p.lives <= 1 ==> t == GameOver && q.x == p.x && q.y == p.y && q.shieldTimer == p.shieldTimer)
      && (p.lives > 1 ==>
            && t == s && q.x == 1 && q.y == 1 && q.targetX == 1 && q.targetY == 1
            && !q.isMoving && q.shieldTimer == RespawnShield)
  {
  }

  // ---------------------------------------------------------------------
  // checkPowerups (main.js:413-422)

  /** The power-up under the player, if any, is applied and taken off the grid. */
  function Pickup(g: Grid, p: Player): (Grid, Player)
    requires WellSized(g) && InBounds(p.x, p.y)
  {
    var t := g[p.y][p.x];
    var taken := SetTile(g, p.x, p.y, Empty);
    var paid := p.(score := p.score + PickupBonus);
    if t == PowerupFire then (taken, paid.(bombRange := p.bombRange + 1))
    else if t == PowerupBomb then (taken, paid.(maxBombs := p.maxBombs + 1))
    else if t == PowerupSpeed then (taken, paid.(speed := p.speed + SpeedBonus))
    else if t == PowerupShield then (taken, paid.(shieldTimer := PickupShield))
    else (g, p)
  }

  /**
   * On a power-up the player gets exactly that power-up's effect and 50
   * points, and the cell becomes empty; no other cell and no other field
   * changes. On any other tile nothing changes.
   */
  lemma PickupEffect(g: Grid, p: Player)
    requires WellSized(g) && InBounds(p.x, p.y)
    ensures var t := g[p.y][p.x]; var (g1, q) := Pickup(g, p); var paid := p.(score := p.score + PickupBonus);
      && (IsPowerup(t) ==> g1 == SetTile(g, p.x, p.y, Empty))
      && (t == PowerupFire ==> q == paid.(bombRange := p.bombRange + 1))
      && (t == PowerupBomb ==> q == paid.(maxBombs := p.maxBombs + 1))
      && (t == PowerupSpeed ==> q == paid.(speed := p.speed + SpeedBonus))
      && (t == PowerupShield ==> q == paid.(shieldTimer := PickupShield))
      && (!IsPowerup(t) ==> g1 == g && q == p)
  {
  }

  /** Picking up twice on the same cell is picking up once: the second call finds an empty cell. */
  lemma PickupIdempotent(g: Grid, p: Player)
    requires WellSized(g) && InBounds(p.x, p.y)
    ensures var (g1, q) := Pickup(g, p); Pickup(g1, q) == (g1, q)
  {
    var (g1, q) := Pickup(g, p);
    assert q.x == p.x && q.y == p.y;
    if IsPowerup(g[p.y][p.x]) {
      assert g1[p.y][p.x] == Empty;
    }
  }

  /** A pickup keeps the tile codes valid and leaves walls alone. */
  lemma PickupKeepsShape(g: Grid, p: Player)
    requires WellSized(g) && InBounds(p.x, p.y) && TilesValid(g) && Framed(g)
    ensures var g1 := Pickup(g, p).0; WellSized(g1) && TilesValid(g1) && Framed(g1)
  {
  }

  // ---------------------------------------------------------------------
  // Enemy spawn (startGame, main.js:228-236)

  /** enemyCount = 3 + currentLevel */
  function EnemyCount(level: int): int {
    3 + level
  }

  /** Math.min(0.12, 0.04 + currentLevel * 0.02) */
  function EnemySpeed(level: int): (v: real)
    ensures v <= 0.12
    ensures level <= 4 ==> v == 0.04 + level as real * 0.02
  {
    var v := 0.04 + level as real * 0.02;
    if v < 0.12 then v else 0.12
  }

  /** One try of the do-while: rx = floor(r * 11) + 3, ry = floor(r' * 9) + 3. */
  function SpawnCell(draw: (Unit, Unit)): (c: Cell)
    ensures 3 <= c.0 <= 13 && 3 <= c.1 <= 11
  {
    (Pick(draw.0, Width - 4) + 3, Pick(draw.1, Height - 4) + 3)
  }

  /** The cells of the draws that land on an empty tile, in draw order. */
  function Hits(g: Grid, draws: seq<(Unit, Unit)>): seq<Cell>
    requires WellSized(g)
  {
    if draws == [] then []
    else
      var c := SpawnCell(draws[|draws| - 1]);
      Hits(g, draws[..|draws| - 1]) + (if g[c.1][c.0] == Empty then [c] else [])
  }

  /** A fresh enemy at rest on c. */
  function Newcomer(c: Cell, level: int): Enemy {
    Enemy(c.0, c.1, c.0, c.1, false, EnemySpeed(level))
  }

  /** The number of enemies the spawn loop places: enemyCount, or none when that is not positive. */
  function Quota(level: int): nat {
    if EnemyCount(level) < 0 then 0 else EnemyCount(level)
  }

  /** Fresh enemies at rest on the cells cs, in order. */
  function Crowd(cs: seq<Cell>, level: int): (es: seq<Enemy>)
    ensures |es| == |cs|
  {
    seq(|cs|, k requires 0 <= k < |cs| => Newcomer(cs[k], level))
  }

  /** The enemies of a level: one on each of the first 3 + level hits, as far as the draws go. */
  function Spawn(g: Grid, level: int, draws: seq<(Unit, Unit)>): seq<Enemy>
    requires WellSized(g)
  {
    var hs := Hits(g, draws);
    Crowd(hs[..if Quota(level) <= |hs| then Quota(level) else |hs|], level)
  }

  lemma CrowdSnoc(cs: seq<Cell>, c: Cell, level: int)
    ensures Crowd(cs + [c], level) == Crowd(cs, level) + [Newcomer(c, level)]
  {
  }

  /** One more draw adds at most its own cell to the hits. */
  lemma HitsStep(g: Grid, draws: seq<(Unit, Unit)>, j: nat)
    requires WellSized(g) && j < |draws|
    ensures var c := SpawnCell(draws[j]);
      Hits(g, draws[..j + 1]) == Hits(g, draws[..j]) + (if g[c.1][c.0] == Empty then [c] else [])
  {
    assert draws[..j + 1][..j] == draws[..j];
  }

  /** The hits of the first draws are the first hits. */
  lemma {:induction false} HitsPrefix(g: Grid, draws: seq<(Unit, Unit)>, j: nat)
    requires WellSized(g) && j <= |draws|
    ensures Hits(g, draws[..j]) <= Hits(g, draws)
    decreases |draws|
  {
    if j < |draws| {
      var init := draws[..|draws| - 1];
      HitsPrefix(g, init, j);
      assert init[..j] == draws[..j];
    } else {
      assert draws[..j] == draws;
    }
  }

  /**
   * The spawn loop may stop as soon as it has its quota or runs out of
   * draws: the hits so far are then the enemies Spawn places.
   */
  lemma SpawnStops(g: Grid, level: int, draws: seq<(Unit, Unit)>, j: nat)
    requires WellSized(g) && j <= |draws|
    requires |Hits(g, draws[..j])| <= Quota(level)
    requires j == |draws| || |Hits(g, draws[..j])| == Quota(level)
    ensures Spawn(g, level, draws) == Crowd(Hits(g, draws[..j]), level)
  {
    HitsPrefix(g, draws, j);
    if j == |draws| {
      assert draws[..j] == draws;
    }
  }

  lemma {:induction false} HitsAreEmpty(g: Grid, draws: seq<(Unit, Unit)>)
    requires WellSized(g)
    ensures forall c :: c in Hits(g, draws) ==> 3 <= c.0 <= 13 && 3 <= c.1 <= 11 && g[c.1][c.0] == Empty
    decreases |draws|
  {
    if draws != [] {
      HitsAreEmpty(g, draws[..|draws| - 1]);
    }
  }

  /**
   * The spawn rules: 3 + level enemies when the draws hit that many empty
   * cells (fewer only if they run out); each at rest on an EMPTY cell with
   * 3 <= x <= 13 and 3 <= y <= 11, so never in the safe corner, moving at
   * the level's speed.
   */
  lemma SpawnRules(g: Grid, level: int, draws: seq<(Unit, Unit)>)
    requires WellSized(g) && level >= 0
    ensures var es := Spawn(g, level, draws); var hs := Hits(g, draws);
      && |es| == (if EnemyCount(level) <= |hs| then EnemyCount(level) else |hs|)
      && forall k :: 0 <= k < |es| ==>
           && 3 <= es[k].x <= 13 && 3 <= es[k].y <= 11 && !InSafeCorner(es[k].x, es[k].y)
           && g[es[k].y][es[k].x] == Empty
           && es[k].targetX == es[k].x && es[k].targetY == es[k].y && !es[k].isMoving
           && es[k].speed == EnemySpeed(level)
  {
    HitsAreEmpty(g, draws);
    var hs := Hits(g, draws);
    var es := Spawn(g, level, draws);
    forall k | 0 <= k < |es| ensures es[k] == Newcomer(hs[k], level) && hs[k] in hs {
    }
  }

  // ---------------------------------------------------------------------
  // The enemy's choice of direction (updateEnemies, main.js:370-380)

  /** The enemy AI's directions, in main.js's order. */
  const Cardinals: seq<Dir> := [Down, Up, Right, Left]

  /** A move the filter accepts: onto the grid, onto an EMPTY tile, and not onto a bomb. */
  predicate Safe(g: Grid, bs: seq<Bomb>, x: int, y: int, d: Dir)
    requires WellSized(g)
  {
    var c := StepCell(x, y, d, 1);
    InBounds(c.0, c.1) && g[c.1][c.0] == Empty && !HasBombAt(bs, c.0, c.1)
  }

  /** dirs.filter(...) */
  function SafeAmong(g: Grid, bs: seq<Bomb>, x: int, y: int, ds: seq<Dir>): seq<Dir>
    requires WellSized(g)
  {
    if ds == [] then []
    else (if Safe(g, bs, x, y, ds[0]) then [ds[0]] else []) + SafeAmong(g, bs, x, y, ds[1..])
  }

  function SafeDirs(g: Grid, bs: seq<Bomb>, x: int, y: int): seq<Dir>
    requires WellSized(g)
  {
    SafeAmong(g, bs, x, y, Cardinals)
  }

  /** The position of a direction in the AI's list. */
  function Rank(d: Dir): int {
    match d
    case Down => 0
    case Up => 1
    case Right => 2
    case Left => 3
    case Center => 4
  }

  lemma {:induction false} SafeAmongMembers(g: Grid, bs: seq<Bomb>, x: int, y: int, ds: seq<Dir>)
    requires WellSized(g)
    ensures forall d :: d in SafeAmong(g, bs, x, y, ds) <==> d in ds && Safe(g, bs, x, y, d)
    decreases |ds|
  {
    if ds != [] {
      SafeAmongMembers(g, bs, x, y, ds[1..]);
      assert ds == [ds[0]] + ds[1..];
    }
  }

  lemma {:induction false} SafeAmongAbove(g: Grid, bs: seq<Bomb>, x: int, y: int, ds: seq<Dir>, lo: int)
    requires WellSized(g)
    requires forall i :: 0 <= i < |ds| ==> lo < Rank(ds[i])
    ensures forall i :: 0 <= i < |SafeAmong(g, bs, x, y, ds)| ==> lo < Rank(SafeAmong(g, bs, x, y, ds)[i])
    decreases |ds|
  {
    if ds != [] {
      var tail := ds[1..];
      forall i | 0 <= i < |tail| ensures lo < Rank(tail[i]) {
        assert tail[i] == ds[i + 1];
      }
      SafeAmongAbove(g, bs, x, y, tail, lo);
      var rest := SafeAmong(g, bs, x, y, tail);
      var head := if Safe(g, bs, x, y, ds[0]) then [ds[0]] else [];
      var r := SafeAmong(g, bs, x, y, ds);
      assert r == head + rest;
      forall i | 0 <= i < |r| ensures lo < Rank(r[i]) {
        if i < |head| {
          assert r[i] == ds[0];
        } else {
          assert r[i] == rest[i - |head|];
        }
      }
    }
  }

  lemma {:induction false} SafeAmongOrder(g: Grid, bs: seq<Bomb>, x: int, y: int, ds: seq<Dir>)
    requires WellSized(g)
    requires forall i, j :: 0 <= i < j < |ds| ==> Rank(ds[i]) < Rank(ds[j])
    ensures forall i, j :: 0 <= i < j < |SafeAmong(g, bs, x, y, ds)| ==>
      Rank(SafeAmong(g, bs, x, y, ds)[i]) < Rank(SafeAmong(g, bs, x, y, ds)[j])
    decreases |ds|
  {
    if ds != [] {
      var tail := ds[1..];
      forall i, j | 0 <= i < j < |tail| ensures Rank(tail[i]) < Rank(tail[j]) {
        assert tail[i] == ds[i + 1] && tail[j] == ds[j + 1];
      }
      forall i | 0 <= i < |tail| ensures Rank(ds[0]) < Rank(tail[i]) {
        assert tail[i] == ds[i + 1];
      }
      SafeAmongOrder(g, bs, x, y, tail);
      SafeAmongAbove(g, bs, x, y, tail, Rank(ds[0]));
      var rest := SafeAmong(g, bs, x, y, tail);
      var head := if Safe(g, bs, x, y, ds[0]) then [ds[0]] else [];
      var r := SafeAmong(g, bs, x, y, ds);
      assert r == head + rest;
      forall i, j | 0 <= i < j < |r| ensures Rank(r[i]) < Rank(r[j]) {
        assert r[j] == rest[j - |head|];
        if i < |head| {
          assert r[i] == ds[0];
        } else {
          assert r[i] == rest[i - |head|];
        }
      }
    }
  }

  /** The filter from position k on: direction k if it is safe, then the filter of the rest. */
  lemma SafeAmongStep(g: Grid, bs: seq<Bomb>, x: int, y: int, ds: seq<Dir>, k: nat)
    requires WellSized(g) && k < |ds|
    ensures SafeAmong(g, bs, x, y, ds[k..]) ==
      (if Safe(g, bs, x, y, ds[k]) then [ds[k]] else []) + SafeAmong(g, bs, x, y, ds[k + 1..])
  {
    assert ds[k..][1..] == ds[k + 1..];
  }

  /** Nothing is safe, so the filter is empty. */
  lemma {:induction false} SafeAmongNone(g: Grid, bs: seq<Bomb>, x: int, y: int, ds: seq<Dir>)
    requires WellSized(g)
    requires forall i :: 0 <= i < |ds| ==> !Safe(g, bs, x, y, ds[i])
    ensures SafeAmong(g, bs, x, y, ds) == []
    decreases |ds|
  {
    if ds != [] {
      assert !Safe(g, bs, x, y, ds[0]);
      forall i | 0 <= i < |ds[1..]| ensures !Safe(g, bs, x, y, ds[1..][i]) {
        assert ds[1..][i] == ds[i + 1];
      }
      SafeAmongNone(g, bs, x, y, ds[1..]);
      assert SafeAmong(g, bs, x, y, ds) == [] + SafeAmong(g, bs, x, y, ds[1..]);
    }
  }

  /**
   * The safe-direction filter keeps exactly the cardinal directions whose
   * neighbour is on the grid, exactly EMPTY and free of bombs, in the order
   * down, up, right, left.
   */
  lemma SafeDirsExact(g: Grid, bs: seq<Bomb>, x: int, y: int)
    requires WellSized(g)
    ensures var r := SafeDirs(g, bs, x, y);
      && (forall d :: d in r <==> IsCardinal(d) && Safe(g, bs, x, y, d))
      && (forall i, j :: 0 <= i < j < |r| ==> Rank(r[i]) < Rank(r[j]))
  {
    SafeAmongMembers(g, bs, x, y, Cardinals);
    SafeAmongOrder(g, bs, x, y, Cardinals);
    forall d ensures d in Cardinals <==> IsCardinal(d) {
      match d
      case Center =>
      case Down => assert Cardinals[0] == d;
      case Up => assert Cardinals[1] == d;
      case Right => assert Cardinals[2] == d;
      case Left => assert Cardinals[3] == d;
    }
  }

  /**
   * The filter is stricter than isWalkable: a safe move is walkable, but a
   * power-up next to an enemy is walkable and never safe.
   */
  lemma SafeIsStricter(g: Grid, bs: seq<Bomb>, x: int, y: int, d: Dir)
    requires WellSized(g)
    ensures var c := StepCell(x, y, d, 1);
      && (Safe(g, bs, x, y, d) ==> Walkable(g, c.0, c.1))
      && (InBounds(c.0, c.1) && IsPowerup(g[c.1][c.0]) ==> Walkable(g, c.0, c.1) && !Safe(g, bs, x, y, d))
  {
  }

  /** safeDirs[floor(r * |safeDirs|)], or any of the four when none is safe. */
  function ChooseDir(safe: seq<Dir>, r: Unit): Dir {
    if |safe| > 0 then safe[Pick(r, |safe|)] else Cardinals[Pick(r, |Cardinals|)]
  }

  /** The enemy's turn: one whole-cell step towards its target, or a new target chosen. */
  function EnemyStep(g: Grid, bs: seq<Bomb>, e: Enemy, r: Unit): Enemy
    requires WellSized(g)
  {
    if e.isMoving then e.(x := e.targetX, y := e.targetY, isMoving := false)
    else
      var c := StepCell(e.x, e.y, ChooseDir(SafeDirs(g, bs, e.x, e.y), r), 1);
      e.(targetX := c.0, targetY := c.1, isMoving := true)
  }

  /**
   * An enemy at rest always sets off towards a neighbouring cell; when some
   * direction is safe, the cell is on the grid, EMPTY and free of bombs.
   */
  lemma EnemyTargetsSafely(g: Grid, bs: seq<Bomb>, e: Enemy, r: Unit)
    requires WellSized(g) && !e.isMoving
    ensures var n := EnemyStep(g, bs, e, r);
      && n.isMoving && n.x == e.x && n.y == e.y
      && (exists d :: IsCardinal(d) && (n.targetX, n.targetY) == StepCell(e.x, e.y, d, 1))
      && (SafeDirs(g, bs, e.x, e.y) != [] ==>
            InBounds(n.targetX, n.targetY) && g[n.targetY][n.targetX] == Empty && !HasBombAt(bs, n.targetX, n.targetY))
  {
    var safe := SafeDirs(g, bs, e.x, e.y);
    SafeDirsExact(g, bs, e.x, e.y);
    var d := ChooseDir(safe, r);
    if |safe| > 0 {
      assert d in safe;
    }
  }

  /**
   * The fallback is unchecked: an enemy walled in on all four sides still
   * sets off, towards a wall.
   */
  lemma BoxedInWalksIntoWall(g: Grid, bs: seq<Bomb>, e: Enemy, r: Unit)
    requires WellSized(g) && !e.isMoving
    requires forall d :: IsCardinal(d) ==> var c := StepCell(e.x, e.y, d, 1);
      InBounds(c.0, c.1) && (g[c.1][c.0] == WallSolid || g[c.1][c.0] == WallBreakable)
    ensures var n := EnemyStep(g, bs, e, r);
      n.isMoving && InBounds(n.targetX, n.targetY) && !Walkable(g, n.targetX, n.targetY)
  {
    var safe := SafeDirs(g, bs, e.x, e.y);
    forall i | 0 <= i < |Cardinals| ensures !Safe(g, bs, e.x, e.y, Cardinals[i]) {
      assert IsCardinal(Cardinals[i]);
    }
    SafeAmongNone(g, bs, e.x, e.y, Cardinals);
    var d := ChooseDir(safe, r);
    assert d in Cardinals;
  }

  // ---------------------------------------------------------------------
  // The kill sweep of update (main.js:322-329)

  /**
   * enemies.forEach with enemies.splice(eIdx, 1) inside, from index k on, for
   * a flame at (ex, ey): each kill pays 100, and the enemy that moves into the
   * removed one's place is skipped.
   */
  function Sweep(es: seq<Enemy>, k: nat, ex: int, ey: int, score: int): (r: (seq<Enemy>, int))
    decreases |es| - k
  {
    if k >= |es| then (es, score)
    else if es[k].x == ex && es[k].y == ey then Sweep(es[..k] + es[k + 1..], k + 1, ex, ey, score + KillBonus)
    else Sweep(es, k + 1, ex, ey, score)
  }

  /** An enemy standing on (ex, ey). */
  predicate OnFlame(e: Enemy, ex: int, ey: int) {
    e.x == ex && e.y == ey
  }

  /** The enemies not on (ex, ey), in order: what a clean filter would leave. */
  function Survivors(es: seq<Enemy>, ex: int, ey: int): (r: seq<Enemy>)
    ensures |r| <= |es|
  {
    if es == [] then []
    else (if OnFlame(es[0], ex, ey) then [] else [es[0]]) + Survivors(es[1..], ex, ey)
  }

  /** No two enemies next to each other in the list stand on (ex, ey). */
  ghost predicate Spread(es: seq<Enemy>, ex: int, ey: int) {
    forall i :: 0 <= i < |es| - 1 ==> !(OnFlame(es[i], ex, ey) && OnFlame(es[i + 1], ex, ey))
  }

  /** Each kill pays exactly 100 points. */
  lemma {:induction false} SweepPays(es: seq<Enemy>, k: nat, ex: int, ey: int, score: int)
    ensures var (r, s) := Sweep(es, k, ex, ey, score); |r| <= |es| && s == score + KillBonus * (|es| - |r|)
    decreases |es| - k
  {
    if k < |es| {
      if OnFlame(es[k], ex, ey) {
        SweepPays(es[..k] + es[k + 1..], k + 1, ex, ey, score + KillBonus);
      } else {
        SweepPays(es, k + 1, ex, ey, score);
      }
    }
  }

  /** A suffix of a spread list is spread. */
  lemma SpreadDrop(es: seq<Enemy>, m: nat, ex: int, ey: int)
    requires m <= |es| && Spread(es, ex, ey)
    ensures Spread(es[m..], ex, ey)
  {
    var t := es[m..];
    forall i | 0 <= i < |t| - 1 ensures !(OnFlame(t[i], ex, ey) && OnFlame(t[i + 1], ex, ey)) {
      assert t[i] == es[i + m] && t[i + 1] == es[i + m + 1];
    }
  }

  /** Removing the enemy at k shifts the next one into its place. */
  lemma DropAt(es: seq<Enemy>, k: nat)
    requires k + 1 < |es|
    ensures var es1 := es[..k] + es[k + 1..];
      && |es1| == |es| - 1 && es1[k + 1..] == es[k + 2..] && es1[..k + 1] == es[..k] + [es[k + 1]]
      && es[k..][2..] == es[k + 2..]
  {
  }

  /** A dying enemy followed by a living one contributes just the living one. */
  lemma SurvivorsSkip(t: seq<Enemy>, ex: int, ey: int)
    requires |t| >= 2 && OnFlame(t[0], ex, ey) && !OnFlame(t[1], ex, ey)
    ensures Survivors(t, ex, ey) == [t[1]] + Survivors(t[2..], ex, ey)
  {
    assert t[1..][1..] == t[2..];
    assert t[1..][0] == t[1];
  }

  lemma {:induction false} SweepSpread(es: seq<Enemy>, k: nat, ex: int, ey: int, score: int)
    requires k <= |es| && Spread(es[k..], ex, ey)
    ensures Sweep(es, k, ex, ey, score).0 == es[..k] + Survivors(es[k..], ex, ey)
    decreases |es| - k
  {
    var t := es[k..];
    if k == |es| {
      assert t == [];
      assert es[..k] == es;
    } else if OnFlame(es[k], ex, ey) {
      var es1 := es[..k] + es[k + 1..];
      assert t[0] == es[k];
      if k + 1 < |es| {
        assert t[1] == es[k + 1];
        DropAt(es, k);
        SpreadDrop(t, 2, ex, ey);
        SweepSpread(es1, k + 1, ex, ey, score + KillBonus);
        SurvivorsSkip(t, ex, ey);
      } else {
        assert es1 == es[..k];
        assert t[1..] == [];
        assert Survivors(t, ex, ey) == [];
      }
    } else {
      assert t[0] == es[k];
      assert t[1..] == es[k + 1..];
      SpreadDrop(t, 1, ex, ey);
      SweepSpread(es, k + 1, ex, ey, score);
      assert es[..k + 1] == es[..k] + [es[k]];
    }
  }

  /**
   * When no two enemies adjacent in the list stand on the flame, the sweep
   * is a clean filter: it removes exactly the enemies on the flame, keeps the
   * others in order, and pays 100 for each one removed.
   */
  lemma SweepClean(es: seq<Enemy>, ex: int, ey: int, score: int)
    requires Spread(es, ex, ey)
    ensures var (r, s) := Sweep(es, 0, ex, ey, score);
      r == Survivors(es, ex, ey) && s == score + KillBonus * (|es| - |r|)
  {
    assert es[0..] == es;
    assert es[..0] == [];
    SweepSpread(es, 0, ex, ey, score);
    SweepPays(es, 0, ex, ey, score);
  }

  /** The skip: two enemies on the same flame, next to each other in the list, and only the first dies. */
  lemma SweepSkipsNeighbour(e1: Enemy, e2: Enemy, score: int)
    requires e1.x == e2.x && e1.y == e2.y
    ensures Sweep([e1, e2], 0, e1.x, e1.y, score) == ([e2], score + KillBonus)
  {
    assert [e1, e2][..0] + [e1, e2][1..] == [e2];
  }

  // ---------------------------------------------------------------------
  // The explosion loop of update (main.js:317-331)

  /** What the explosion loop and the enemy loop read and write. */
  datatype Scene = Scene(player: Player, state: GameState, enemies: seq<Enemy>, explosions: seq<Explosion>)

  /** A flame on the player's cell kills it unless it is shielded. */
  function Scorch(s: Scene, x: int, y: int): Scene {
    if s.player.x == x && s.player.y == y && s.player.shieldTimer <= 0 then
      var (p, st) := Death(s.player, s.state);
      s.(player := p, state := st)
    else s
  }

  /** A hit takes at most one life and keeps the player's score, bombs and range; nothing but the player and the game state changes. */
  lemma ScorchSteady(s: Scene, x: int, y: int)
    ensures var r := Scorch(s, x, y);
      && Steady(s.player, r.player) && r.player.score == s.player.score
      && r.enemies == s.enemies && r.explosions == s.explosions
  {
    DeathEffect(s.player, s.state);
  }

  /** One turn of the loop: flame i burns dt; if it is out it is removed, otherwise it hits the player and sweeps the enemies. */
  function Flare(s: Scene, i: nat, dt: int): (r: Scene)
    requires i < |s.explosions|
    ensures i <= |r.explosions| <= |s.explosions|
  {
    var ex := s.explosions[i].(timer := s.explosions[i].timer - dt);
    if ex.timer <= 0 then s.(explosions := s.explosions[..i] + s.explosions[i + 1..])
    else
      var s1 := Scorch(s.(explosions := s.explosions[i := ex]), ex.x, ex.y);
      var (es, score) := Sweep(s1.enemies, 0, ex.x, ex.y, s1.player.score);
      s1.(enemies := es, player := s1.player.(score := score))
  }

  /** The loop over the flames at indices n - 1 down to 0. */
  function Fade(s: Scene, n: nat, dt: int): Scene
    requires n <= |s.explosions|
    decreases n
  {
    if n == 0 then s else Fade(Flare(s, n - 1, dt), n - 1, dt)
  }

  lemma FlareSteady(s: Scene, i: nat, dt: int)
    requires i < |s.explosions|
    ensures Steady(s.player, Flare(s, i, dt).player)
  {
    var ex := s.explosions[i].(timer := s.explosions[i].timer - dt);
    ScorchSteady(s.(explosions := s.explosions[i := ex]), ex.x, ex.y);
  }

  /** The flames take lives and may send the player back to the start, but they leave its bombs and range alone. */
  lemma {:induction false} FadeSteady(s: Scene, n: nat, dt: int)
    requires n <= |s.explosions|
    ensures Steady(s.player, Fade(s, n, dt).player)
    decreases n
  {
    if n > 0 {
      FlareSteady(s, n - 1, dt);
      FadeSteady(Flare(s, n - 1, dt), n - 1, dt);
    }
  }

  function FadeAll(s: Scene, dt: int): Scene {
    Fade(s, |s.explosions|, dt)
  }

  /** The flames of xs that are still burning after dt, each with dt taken off, in order. */
  function Live(xs: seq<Explosion>, dt: int): seq<Explosion> {
    if xs == [] then []
    else
      var e := xs[|xs| - 1];
      Live(xs[..|xs| - 1], dt) + (if e.timer - dt > 0 then [e.(timer := e.timer - dt)] else [])
  }

  lemma FlareFlames(s: Scene, i: nat, dt: int)
    requires i < |s.explosions|
    ensures var e := s.explosions[i];
      Flare(s, i, dt).explosions ==
        s.explosions[..i] + (if e.timer - dt > 0 then [e.(timer := e.timer - dt)] else []) + s.explosions[i + 1..]
  {
    var e := s.explosions[i];
    if e.timer - dt > 0 {
      var xs := s.explosions[i := e.(timer := e.timer - dt)];
      assert xs == s.explosions[..i] + [e.(timer := e.timer - dt)] + s.explosions[i + 1..];
    }
  }

  lemma SplitAt<T>(x: seq<T>, y: seq<T>, z: seq<T>)
    ensures (x + y + z)[..|x|] == x && (x + y + z)[|x|..] == y + z
  {
  }

  lemma LiveSnoc(xs: seq<Explosion>, n: nat, dt: int)
    requires 0 < n <= |xs|
    ensures var e := xs[n - 1];
      Live(xs[..n], dt) == Live(xs[..n - 1], dt) + (if e.timer - dt > 0 then [e.(timer := e.timer - dt)] else [])
  {
    assert xs[..n][..n - 1] == xs[..n - 1];
  }

  lemma {:induction false} FadeFlames(s: Scene, n: nat, dt: int)
    requires n <= |s.explosions|
    ensures Fade(s, n, dt).explosions == Live(s.explosions[..n], dt) + s.explosions[n..]
    decreases n
  {
    var xs := s.explosions;
    if n == 0 {
      assert xs[..0] == [] && xs[0..] == xs;
    } else {
      var s1 := Flare(s, n - 1, dt);
      var e := xs[n - 1];
      var kept := if e.timer - dt > 0 then [e.(timer := e.timer - dt)] else [];
      FlareFlames(s, n - 1, dt);
      SplitAt(xs[..n - 1], kept, xs[n..]);
      FadeFlames(s1, n - 1, dt);
      LiveSnoc(xs, n, dt);
      AppendAssoc(Live(xs[..n - 1], dt), kept, xs[n..]);
    }
  }

  /**
   * The explosion loop removes exactly the flames whose decremented timer is
   * at most zero, and keeps the others, decremented, in their order.
   */
  lemma FadeAllFlames(s: Scene, dt: int)
    ensures FadeAll(s, dt).explosions == Live(s.explosions, dt)
  {
    FadeFlames(s, |s.explosions|, dt);
    assert s.explosions[..|s.explosions|] == s.explosions;
  }

  /**
   * Lives can go below zero: an unshielded player with one life left on a
   * bomb's own cell meets both of the centre's flames, and the second one
   * takes a life from a player already out of the game.
   */
  lemma CenterKillsTwice(p: Player, x: int, y: int, dt: int)
    requires p.x == x && p.y == y && p.lives == 1 && p.shieldTimer <= 0 && 0 <= dt < BlastTime
    ensures var s := Scene(p, Playing, [], [Explosion(x, y, BlastTime), Explosion(x, y, BlastTime)]);
      FadeAll(s, dt).player.lives == -1 && FadeAll(s, dt).state == GameOver
  {
    var s := Scene(p, Playing, [], [Explosion(x, y, BlastTime), Explosion(x, y, BlastTime)]);
    var s1 := Flare(s, 1, dt);
    assert s1.player.lives == 0 && s1.state == GameOver && s1.player.x == x && s1.player.y == y;
    assert s1.player.shieldTimer <= 0 && s1.enemies == [];
    var s2 := Flare(s1, 0, dt);
    assert s2.player.lives == -1;
    assert Fade(s, 2, dt) == Fade(s1, 1, dt);
    assert Fade(s1, 1, dt) == Fade(s2, 0, dt);
  }

  // ---------------------------------------------------------------------
  // The enemy loop of update (main.js:361-383)

  /** enemies.forEach from index k on: each enemy takes its turn, then kills an unshielded player on its cell. */
  function Prowl(s: Scene, g: Grid, bs: seq<Bomb>, rolls: int -> Unit, k: nat): (r: Scene)
    requires WellSized(g) && k <= |s.enemies|
    ensures |r.enemies| == |s.enemies|
    decreases |s.enemies| - k
  {
    if k == |s.enemies| then s
    else
      var e := EnemyStep(g, bs, s.enemies[k], rolls(k));
      Prowl(Scorch(s.(enemies := s.enemies[k := e]), e.x, e.y), g, bs, rolls, k + 1)
  }

  /**
   * Every enemy takes exactly its own turn, independently of the player,
   * and the loop touches nothing but the enemies, the player's life and
   * position, and the game state.
   */
  lemma {:induction false} ProwlEffect(s: Scene, g: Grid, bs: seq<Bomb>, rolls: int -> Unit, k: nat)
    requires WellSized(g) && k <= |s.enemies|
    ensures var r := Prowl(s, g, bs, rolls, k);
      && (forall j :: 0 <= j < |s.enemies| ==>
            r.enemies[j] == if j < k then s.enemies[j] else EnemyStep(g, bs, s.enemies[j], rolls(j)))
      && r.explosions == s.explosions
      && r.player.score == s.player.score && Steady(s.player, r.player)
    decreases |s.enemies| - k
  {
    if k < |s.enemies| {
      var e := EnemyStep(g, bs, s.enemies[k], rolls(k));
      var s1 := Scorch(s.(enemies := s.enemies[k := e]), e.x, e.y);
      ScorchSteady(s.(enemies := s.enemies[k := e]), e.x, e.y);
      ProwlEffect(s1, g, bs, rolls, k + 1);
      assert Prowl(s, g, bs, rolls, k) == Prowl(s1, g, bs, rolls, k + 1);
    }
  }

  // ---------------------------------------------------------------------
  // checkLevelComplete (main.js:245-261)

  /** The state after the check: with no enemy left in play, the last level wins and the others complete. */
  function CheckLevel(st: GameState, enemiesLeft: nat, level: int): GameState {
    if enemiesLeft == 0 && st == Playing then (if level >= LastLevel then Win else LevelComplete) else st
  }

  /**
   * The check changes the state exactly when no enemy is left and the game
   * is in play; it then wins exactly when the level is 3 or beyond, and
   * otherwise completes the level.
   */
  lemma CheckLevelEffect(st: GameState, enemiesLeft: nat, level: int)
    ensures var r := CheckLevel(st, enemiesLeft, level);
      && (r != st <==> enemiesLeft == 0 && st == Playing)
      && (r != st ==> (r == Win <==> level >= LastLevel) && (r == LevelComplete <==> level < LastLevel))
  {
  }
}
