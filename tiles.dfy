/**
 * The tile grid of the simulation: its size, the tile codes, walkability,
 * level generation and the tile a destroyed wall leaves behind
 * (main.js:10-23, 217-226, 284-288, 406-411).
 */
module Tiles {

  datatype Option<T> = None | Some(value: T)

  const Width := 15
  const Height := 13

  // Tile codes, as main.js stores them in the grid.
  const Empty := 0
  const WallSolid := 1
  const WallBreakable := 2
  const PowerupFire := 3
  const PowerupBomb := 4
  const PowerupSpeed := 5
  const PowerupShield := 6

  /** A value returned by Math.random(). */
  type Unit = r: real | 0.0 <= r < 1.0

  /** The grid as a value: rows by y, then cells by x, so g[y][x] is the tile at (x, y). */
  type Grid = seq<seq<int>>

  /** A cell as an (x, y) pair. */
  type Cell = (int, int)

  predicate WellSized(g: Grid) {
    |g| == Height && forall y :: 0 <= y < Height ==> |g[y]| == Width
  }

  predicate InBounds(x: int, y: int) {
    0 <= x < Width && 0 <= y < Height
  }

  predicate IsTile(t: int) {
    Empty <= t <= PowerupShield
  }

  predicate IsPowerup(t: int) {
    PowerupFire <= t <= PowerupShield
  }

  /** Every cell holds one of the seven tile codes. */
  ghost predicate TilesValid(g: Grid)
    requires WellSized(g)
  {
    forall y, x :: InBounds(x, y) ==> IsTile(g[y][x])
  }

  predicate OnBorder(x: int, y: int) {
    y == 0 || y == Height - 1 || x == 0 || x == Width - 1
  }

  predicate IsPillar(x: int, y: int) {
    x % 2 == 0 && y % 2 == 0
  }

  /** The top-left corner that generation keeps free of walls. */
  predicate InSafeCorner(x: int, y: int) {
    x < 3 && y < 3
  }

  /** The solid frame: every border cell and every pillar is a solid wall. */
  ghost predicate Framed(g: Grid)
    requires WellSized(g)
  {
    forall y, x :: InBounds(x, y) && (OnBorder(x, y) || IsPillar(x, y)) ==> g[y][x] == WallSolid
  }

  /** The grid after writing tile t at (x, y); no other cell changes. */
  function SetTile(g: Grid, x: int, y: int, t: int): (r: Grid)
    requires WellSized(g) && InBounds(x, y)
    ensures WellSized(r)
    ensures r[y][x] == t
    ensures forall y', x' :: InBounds(x', y') && (x', y') != (x, y) ==> r[y'][x'] == g[y'][x']
  {
    g[y := g[y][x := t]]
  }

  /** Writing a cell twice leaves the second tile. */
  lemma SetTileTwice(g: Grid, x: int, y: int, t1: int, t2: int)
    requires WellSized(g) && InBounds(x, y)
    ensures SetTile(SetTile(g, x, y, t1), x, y, t2) == SetTile(g, x, y, t2)
  {
    assert SetTile(g, x, y, t1)[y][x := t2] == g[y][x := t2];
  }

  /** isWalkable (main.js:284-288). */
  function Walkable(g: Grid, x: int, y: int): (r: bool)
    requires WellSized(g)
    ensures !InBounds(x, y) ==> !r
    ensures InBounds(x, y) && (g[y][x] == WallSolid || g[y][x] == WallBreakable) ==> !r
    ensures TilesValid(g) ==> (r <==> InBounds(x, y) && (g[y][x] == Empty || IsPowerup(g[y][x])))
  {
    InBounds(x, y) && (g[y][x] == Empty || g[y][x] >= PowerupFire)
  }

  // ---------------------------------------------------------------------
  // Directions

  /**
   * The blast directions of explode, in main.js's order (main.js:389): the
   * bomb's own cell, then (0, 1), (0, -1), (1, 0), (-1, 0). The enemy AI uses
   * the four cardinal ones in the same order (main.js:370).
   */
  datatype Dir = Center | Down | Up | Right | Left

  predicate IsCardinal(dir: Dir) {
    dir != Center
  }

  /** The cell d steps from (x, y) in direction dir: (x + dx * d, y + dy * d). */
  function StepCell(x: int, y: int, dir: Dir, d: int): (c: Cell)
    ensures dir == Center ==> c == (x, y)
    ensures dir == Down ==> c == (x, y + d)
    ensures dir == Up ==> c == (x, y - d)
    ensures dir == Right ==> c == (x + d, y)
    ensures dir == Left ==> c == (x - d, y)
  {
    match dir
    case Center => (x, y)
    case Down => (x, y + d)
    case Up => (x, y - d)
    case Right => (x + d, y)
    case Left => (x - d, y)
  }

  // ---------------------------------------------------------------------
  // Level generation (startGame, main.js:217-226)

  /** Math.min(0.85, 0.5 + level * 0.05): the chance that a free cell becomes a breakable wall. */
  function BreakChance(level: int): (p: real)
    ensures p <= 0.85
    ensures level >= 0 ==> 0.5 <= p
    ensures level <= 7 ==> p == 0.5 + level as real * 0.05
    ensures level >= 7 ==> p == 0.85
  {
    var c := 0.5 + level as real * 0.05;
    if c < 0.85 then c else 0.85
  }

  /** Harder levels fill at least as many cells with breakable walls. */
  lemma BreakChanceMonotone(l1: int, l2: int)
    requires l1 <= l2
    ensures BreakChance(l1) <= BreakChance(l2)
  {
  }

  /** The tile generation writes at (x, y), given the random draw for that cell. */
  function GeneratedTile(level: int, x: int, y: int, roll: Unit): (t: int)
    requires InBounds(x, y)
    ensures IsTile(t)
    ensures OnBorder(x, y) || IsPillar(x, y) ==> t == WallSolid
    ensures !OnBorder(x, y) && !IsPillar(x, y) && InSafeCorner(x, y) ==> t == Empty
    ensures !OnBorder(x, y) && !IsPillar(x, y) && !InSafeCorner(x, y) ==>
              (t == WallBreakable <==> roll < BreakChance(level)) && (t == WallBreakable || t == Empty)
  {
    if OnBorder(x, y) then WallSolid
    else if IsPillar(x, y) then WallSolid
    else if InSafeCorner(x, y) then Empty
    else if roll < BreakChance(level) then WallBreakable
    else Empty
  }

  /** The grid a level starts with; rolls(x, y) is the draw of Math.random() for cell (x, y). */
  function Generate(level: int, rolls: (int, int) -> Unit): (g: Grid)
    ensures WellSized(g) && TilesValid(g) && Framed(g)
    ensures forall y, x :: InBounds(x, y) ==> g[y][x] == GeneratedTile(level, x, y, rolls(x, y))
  {
    seq(Height, y => GeneratedRow(level, rolls, y))
  }

  /** Row y of the generated grid. */
  function GeneratedRow(level: int, rolls: (int, int) -> Unit, y: int): (row: seq<int>)
    ensures |row| == Width
    ensures 0 <= y < Height ==> forall x :: 0 <= x < Width ==> row[x] == GeneratedTile(level, x, y, rolls(x, y))
  {
    seq(Width, x => if InBounds(x, y) then GeneratedTile(level, x, y, rolls(x, y)) else Empty)
  }

  /**
   * The shape of every generated grid: a solid frame, an empty 3x3 safe
   * corner, and only empty cells or breakable walls elsewhere.
   */
  lemma GeneratedShape(level: int, rolls: (int, int) -> Unit, x: int, y: int)
    requires InBounds(x, y)
    ensures var g := Generate(level, rolls);
      && (OnBorder(x, y) || IsPillar(x, y) ==> g[y][x] == WallSolid)
      && (!OnBorder(x, y) && !IsPillar(x, y) && InSafeCorner(x, y) ==> g[y][x] == Empty)
      && (!OnBorder(x, y) && !IsPillar(x, y) && !InSafeCorner(x, y) ==>
            g[y][x] == Empty || g[y][x] == WallBreakable)
  {
  }

  /** The player's start cell and its two neighbours are free on every generated grid. */
  lemma StartIsOpen(level: int, rolls: (int, int) -> Unit)
    ensures var g := Generate(level, rolls);
      g[1][1] == Empty && g[1][2] == Empty && g[2][1] == Empty
  {
    var g := Generate(level, rolls);
    assert g[1][1] == GeneratedTile(level, 1, 1, rolls(1, 1));
    assert g[1][2] == GeneratedTile(level, 2, 1, rolls(2, 1));
    assert g[2][1] == GeneratedTile(level, 1, 2, rolls(1, 2));
  }

  // ---------------------------------------------------------------------
  // Power-up drop (maybeSpawnPowerup, main.js:406-411)

  /** The two draws of Math.random() that maybeSpawnPowerup makes for one destroyed wall. */
  datatype Roll = Roll(spawn: Unit, kind: Unit)

  const PowerupKinds: seq<int> := [PowerupFire, PowerupBomb, PowerupSpeed, PowerupShield]

  /** Index Math.floor(r * n) into a list of n >= 1 elements. */
  function Pick(r: Unit, n: nat): (i: nat)
    requires n > 0
    ensures i < n
  {
    var f := (r * n as real).Floor;
    assert f as real <= r * n as real < n as real;
    f
  }

  /** The tile a destroyed breakable wall leaves: a power-up with chance 0.3, else empty. */
  function Loot(roll: Roll): (t: int)
    ensures t == Empty || IsPowerup(t)
    ensures t == Empty <==> roll.spawn >= 0.3
  {
    if roll.spawn < 0.3 then PowerupKinds[Pick(roll.kind, |PowerupKinds|)] else Empty
  }

  /** Every one of the four power-up kinds can drop. */
  lemma LootCoversEveryKind(t: int)
    requires IsPowerup(t)
    ensures exists roll: Roll :: Loot(roll) == t
  {
    var k := (t - PowerupFire) as real / 4.0;
    var f := (k * 4.0).Floor;
    assert k * 4.0 == (t - PowerupFire) as real;
    assert f == t - PowerupFire;
    assert Loot(Roll(0.0, k)) == t;
  }
}
