/**
 * Bombs and blasts as values: the bomb and explosion records, the five
 * ray-casts of explode (main.js:385-404) with wall destruction and chaining,
 * and the descending fuse loop of update (main.js:312-315).
 */
module Blast {
  import opened Tiles

  const FuseTime := 3000
  const BlastTime := 500
  const WallBonus := 10

  datatype Bomb = Bomb(x: int, y: int, timer: int, range: int)
  datatype Explosion = Explosion(x: int, y: int, timer: int)

  /** The part of the game state that explode and the fuse loop read and write. */
  datatype Arena = Arena(grid: Grid, bombs: seq<Bomb>, explosions: seq<Explosion>, score: int, activeBombs: int)

  // ---------------------------------------------------------------------
  // Finding bombs

  /** bombs.some(b => b.x === x && b.y === y) */
  predicate HasBombAt(bs: seq<Bomb>, x: int, y: int) {
    exists b :: b in bs && b.x == x && b.y == y
  }

  /** bombs.find(b => b.x === x && b.y === y), as an index: the first bomb on (x, y). */
  function FindBomb(bs: seq<Bomb>, x: int, y: int): (r: Option<nat>)
    ensures r.Some? ==> r.value < |bs| && bs[r.value].x == x && bs[r.value].y == y
  {
    if |bs| == 0 then None
    else if bs[0].x == x && bs[0].y == y then Some(0)
    else
      match FindBomb(bs[1..], x, y)
      case None => None
      case Some(j) => Some(j + 1)
  }

  /** FindBomb finds the first bomb on the cell, and finds none only when no bomb is there. */
  lemma {:induction false} FindBombFirst(bs: seq<Bomb>, x: int, y: int)
    ensures var r := FindBomb(bs, x, y);
      && (r.Some? ==> forall j :: 0 <= j < r.value ==> !(bs[j].x == x && bs[j].y == y))
      && (r.None? ==> forall j :: 0 <= j < |bs| ==> !(bs[j].x == x && bs[j].y == y))
      && (r.None? <==> !HasBombAt(bs, x, y))
    decreases |bs|
  {
    if |bs| > 0 && !(bs[0].x == x && bs[0].y == y) {
      FindBombFirst(bs[1..], x, y);
      var r := FindBomb(bs, x, y);
      if r.None? {
        forall b | b in bs ensures !(b.x == x && b.y == y) {
          if b != bs[0] {
            assert b in bs[1..];
          }
        }
      } else {
        forall j | 0 <= j < r.value ensures !(bs[j].x == x && bs[j].y == y) {
          if j > 0 {
            assert bs[j] == bs[1..][j - 1];
          }
        }
      }
    }
  }

  /** No two bombs share a cell; placeBomb refuses a second bomb on a cell. */
  ghost predicate UniqueCells(bs: seq<Bomb>) {
    forall i, j :: 0 <= i < j < |bs| ==> bs[i].x != bs[j].x || bs[i].y != bs[j].y
  }

  /** Two bomb lists with the same cells, index by index. */
  ghost predicate SameCells(bs: seq<Bomb>, cs: seq<Bomb>) {
    |bs| == |cs| && forall j :: 0 <= j < |bs| ==> bs[j].x == cs[j].x && bs[j].y == cs[j].y
  }

  lemma FindBombUnique(bs: seq<Bomb>, j: nat)
    requires UniqueCells(bs) && j < |bs|
    ensures FindBomb(bs, bs[j].x, bs[j].y) == Some(j)
  {
    FindBombFirst(bs, bs[j].x, bs[j].y);
  }

  lemma {:induction false} FindBombSameCells(bs: seq<Bomb>, cs: seq<Bomb>, x: int, y: int)
    requires SameCells(bs, cs)
    ensures FindBomb(bs, x, y) == FindBomb(cs, x, y)
  {
    if |bs| > 0 && !(bs[0].x == x && bs[0].y == y) {
      FindBombSameCells(bs[1..], cs[1..], x, y);
    }
  }

  // ---------------------------------------------------------------------
  // Chaining (main.js:400-401)

  /** The first bomb on (x, y) has its fuse forced to zero, unless it is the exploding bomb. */
  function Chain(bs: seq<Bomb>, self: nat, x: int, y: int): (r: seq<Bomb>)
    ensures |r| == |bs|
  {
    match FindBomb(bs, x, y)
    case Some(j) => if j != self then bs[j := bs[j].(timer := 0)] else bs
    case None => bs
  }

  /** Chain applied to each cell of cs in turn. */
  function ChainAll(bs: seq<Bomb>, self: nat, cs: seq<Cell>): (r: seq<Bomb>)
    ensures |r| == |bs|
    decreases |cs|
  {
    if cs == [] then bs else ChainAll(Chain(bs, self, cs[0].0, cs[0].1), self, cs[1..])
  }

  lemma ChainEffect(bs: seq<Bomb>, self: nat, x: int, y: int)
    ensures SameCells(bs, Chain(bs, self, x, y))
    ensures forall j :: 0 <= j < |bs| ==>
              Chain(bs, self, x, y)[j] == if j != self && FindBomb(bs, x, y) == Some(j) then bs[j].(timer := 0) else bs[j]
  {
  }

  lemma {:induction false} ChainAllSameCells(bs: seq<Bomb>, self: nat, cs: seq<Cell>)
    ensures SameCells(bs, ChainAll(bs, self, cs))
    decreases |cs|
  {
    if cs != [] {
      var bs1 := Chain(bs, self, cs[0].0, cs[0].1);
      ChainEffect(bs, self, cs[0].0, cs[0].1);
      ChainAllSameCells(bs1, self, cs[1..]);
    }
  }

  /** Some cell of cs has bomb j as its first bomb. */
  ghost predicate Hit(bs: seq<Bomb>, j: nat, cs: seq<Cell>) {
    exists c :: c in cs && FindBomb(bs, c.0, c.1) == Some(j)
  }

  lemma HitSameCells(bs: seq<Bomb>, cs: seq<Bomb>, j: nat, cells: seq<Cell>)
    requires SameCells(bs, cs)
    ensures Hit(bs, j, cells) == Hit(cs, j, cells)
  {
    forall c | c in cells ensures FindBomb(bs, c.0, c.1) == FindBomb(cs, c.0, c.1) {
      FindBombSameCells(bs, cs, c.0, c.1);
    }
  }

  /**
   * Chaining over a list of cells forces to zero exactly the fuses of the
   * bombs found on those cells, other than the exploding bomb, and touches
   * nothing else.
   */
  lemma {:induction false} ChainAllEffect(bs: seq<Bomb>, self: nat, cs: seq<Cell>, j: nat)
    requires j < |bs|
    ensures |ChainAll(bs, self, cs)| == |bs|
    ensures ChainAll(bs, self, cs)[j] == if j != self && Hit(bs, j, cs) then bs[j].(timer := 0) else bs[j]
    decreases |cs|
  {
    if cs != [] {
      var c := cs[0];
      var bs1 := Chain(bs, self, c.0, c.1);
      ChainEffect(bs, self, c.0, c.1);
      ChainAllEffect(bs1, self, cs[1..], j);
      HitSameCells(bs1, bs, j, cs[1..]);
      assert cs == [c] + cs[1..];
      assert Hit(bs, j, cs) == (FindBomb(bs, c.0, c.1) == Some(j) || Hit(bs, j, cs[1..]));
    }
  }

  lemma {:induction false} ChainAllAppend(bs: seq<Bomb>, self: nat, c: Cell, cs: seq<Cell>)
    ensures ChainAll(Chain(bs, self, c.0, c.1), self, cs) == ChainAll(bs, self, [c] + cs)
  {
    assert ([c] + cs)[0] == c;
    assert ([c] + cs)[1..] == cs;
  }

  lemma {:induction false} ChainAllConcat(bs: seq<Bomb>, self: nat, cs: seq<Cell>, ds: seq<Cell>)
    ensures ChainAll(ChainAll(bs, self, cs), self, ds) == ChainAll(bs, self, cs + ds)
    decreases |cs|
  {
    if cs == [] {
      assert cs + ds == ds;
    } else {
      var bs1 := Chain(bs, self, cs[0].0, cs[0].1);
      ChainAllConcat(bs1, self, cs[1..], ds);
      assert (cs + ds)[0] == cs[0];
      assert (cs + ds)[1..] == cs[1..] + ds;
      assert ChainAll(bs, self, cs) == ChainAll(bs1, self, cs[1..]);
      assert ChainAll(bs, self, cs + ds) == ChainAll(bs1, self, cs[1..] + ds);
    }
  }
  // ---------------------------------------------------------------------
  // One ray of explode (main.js:393-402)

  /**
   * The ray in direction dir from the bomb at (ox, oy), from step d up to and
   * including step limit: stop at the edge or a solid wall without a flame;
   * otherwise emit a flame; stop after destroying a breakable wall (a 10-point
   * bonus and maybe a power-up); otherwise chain any other bomb there and go on.
   */
  function Ray(a: Arena, self: nat, ox: int, oy: int, dir: Dir, d: int, limit: int, loot: (int, int) -> Roll): (r: Arena)
    requires WellSized(a.grid)
    ensures WellSized(r.grid) && |r.bombs| == |a.bombs| && r.activeBombs == a.activeBombs
    decreases limit - d
  {
    if d > limit then a
    else
      var c := StepCell(ox, oy, dir, d);
      if !InBounds(c.0, c.1) || a.grid[c.1][c.0] == WallSolid then a
      else
        var a1 := a.(explosions := a.explosions + [Explosion(c.0, c.1, BlastTime)]);
        if a.grid[c.1][c.0] == WallBreakable then
          a1.(grid := SetTile(a.grid, c.0, c.1, Loot(loot(c.0, c.1))), score := a.score + WallBonus)
        else
          Ray(a1.(bombs := Chain(a.bombs, self, c.0, c.1)), self, ox, oy, dir, d + 1, limit, loot)
  }

  /** How far a ray gets, read off the grid it starts on: its number of flames, and whether it ends on a wall it destroys. */
  datatype Span = Span(len: nat, broke: bool)

  function Scan(g: Grid, ox: int, oy: int, dir: Dir, d: int, limit: int): Span
    requires WellSized(g)
    decreases limit - d
  {
    if d > limit then Span(0, false)
    else
      var c := StepCell(ox, oy, dir, d);
      if !InBounds(c.0, c.1) || g[c.1][c.0] == WallSolid then Span(0, false)
      else if g[c.1][c.0] == WallBreakable then Span(1, true)
      else
        var s := Scan(g, ox, oy, dir, d + 1, limit);
        Span(s.len + 1, s.broke)
  }

  /** Predicate: the cell stops a ray without a flame (off the grid or a solid wall). */
  predicate Stops(g: Grid, c: Cell)
    requires WellSized(g)
  {
    !InBounds(c.0, c.1) || g[c.1][c.0] == WallSolid
  }

  /**
   * Ray limits. A ray from step d to step limit flames the cells at steps
   * d .. d + len - 1, never more than limit - d + 1 of them; each is on the
   * grid and not a solid wall; only the last may be a breakable wall, and then
   * the ray broke it; and if the ray stopped before its limit, it is because it
   * broke a wall or the next cell is off the grid or a solid wall.
   */
  lemma {:induction false} ScanLimits(g: Grid, ox: int, oy: int, dir: Dir, d: int, limit: int)
    requires WellSized(g)
    ensures var s := Scan(g, ox, oy, dir, d, limit);
      && s.len <= (if d <= limit then limit - d + 1 else 0)
      && (forall k :: d <= k < d + s.len ==> !Stops(g, StepCell(ox, oy, dir, k)))
      && (forall k :: d <= k < d + s.len - 1 ==>
            var c := StepCell(ox, oy, dir, k); g[c.1][c.0] != WallBreakable)
      && (s.broke <==> s.len > 0 && var c := StepCell(ox, oy, dir, d + s.len - 1); g[c.1][c.0] == WallBreakable)
      && (d + s.len <= limit && !s.broke ==> Stops(g, StepCell(ox, oy, dir, d + s.len)))
    decreases limit - d
  {
    if d <= limit {
      var c := StepCell(ox, oy, dir, d);
      if !Stops(g, c) && g[c.1][c.0] != WallBreakable {
        ScanLimits(g, ox, oy, dir, d + 1, limit);
      }
    }
  }

  /** The flames of the cells at steps d .. d + n - 1. */
  function Flames(ox: int, oy: int, dir: Dir, d: int, n: nat): (fs: seq<Explosion>)
    ensures |fs| == n
  {
    seq(n, k => Explosion(StepCell(ox, oy, dir, d + k).0, StepCell(ox, oy, dir, d + k).1, BlastTime))
  }

  /** The cells at steps d .. d + n - 1. */
  function RayCells(ox: int, oy: int, dir: Dir, d: int, n: nat): (cs: seq<Cell>)
    ensures |cs| == n
  {
    seq(n, k => StepCell(ox, oy, dir, d + k))
  }

  lemma FlamesCons(ox: int, oy: int, dir: Dir, d: int, n: nat)
    ensures var c := StepCell(ox, oy, dir, d);
      [Explosion(c.0, c.1, BlastTime)] + Flames(ox, oy, dir, d + 1, n) == Flames(ox, oy, dir, d, n + 1)
  {
    var c := StepCell(ox, oy, dir, d);
    var l, r := [Explosion(c.0, c.1, BlastTime)] + Flames(ox, oy, dir, d + 1, n), Flames(ox, oy, dir, d, n + 1);
    forall k | 0 <= k < n + 1 ensures l[k] == r[k] {
      if k > 0 {
        assert l[k] == Flames(ox, oy, dir, d + 1, n)[k - 1];
        assert d + 1 + (k - 1) == d + k;
      }
    }
  }

  lemma RayCellsCons(ox: int, oy: int, dir: Dir, d: int, n: nat)
    ensures [StepCell(ox, oy, dir, d)] + RayCells(ox, oy, dir, d + 1, n) == RayCells(ox, oy, dir, d, n + 1)
  {
    var l, r := [StepCell(ox, oy, dir, d)] + RayCells(ox, oy, dir, d + 1, n), RayCells(ox, oy, dir, d, n + 1);
    forall k | 0 <= k < n + 1 ensures l[k] == r[k] {
      if k > 0 {
        assert l[k] == RayCells(ox, oy, dir, d + 1, n)[k - 1];
        assert d + 1 + (k - 1) == d + k;
      }
    }
  }

  /** The number of flamed cells that were not a wall: the cells where the ray looks for bombs. */
  function Unbroken(s: Span): nat {
    if s.broke && s.len > 0 then s.len - 1 else s.len
  }

  /** The arena a ray goes on with after flaming and chaining a cell that is not a wall. */
  function Advance(a: Arena, self: nat, c: Cell): Arena {
    a.(explosions := a.explosions + [Explosion(c.0, c.1, BlastTime)], bombs := Chain(a.bombs, self, c.0, c.1))
  }

  lemma RayUnfold(a: Arena, self: nat, ox: int, oy: int, dir: Dir, d: int, limit: int, loot: (int, int) -> Roll)
    requires WellSized(a.grid) && d <= limit
    requires var c := StepCell(ox, oy, dir, d); !Stops(a.grid, c) && a.grid[c.1][c.0] != WallBreakable
    ensures Ray(a, self, ox, oy, dir, d, limit, loot) == Ray(Advance(a, self, StepCell(ox, oy, dir, d)), self, ox, oy, dir, d + 1, limit, loot)
  {
  }

  /** The flames one ray appends are those Scan predicts. */
  lemma {:induction false} RayFlamesEffect(a: Arena, self: nat, ox: int, oy: int, dir: Dir, d: int, limit: int, loot: (int, int) -> Roll)
    requires WellSized(a.grid)
    ensures Ray(a, self, ox, oy, dir, d, limit, loot).explosions ==
            a.explosions + Flames(ox, oy, dir, d, Scan(a.grid, ox, oy, dir, d, limit).len)
    decreases limit - d
  {
    var c := StepCell(ox, oy, dir, d);
    if d <= limit && !Stops(a.grid, c) && a.grid[c.1][c.0] != WallBreakable {
      RayUnfold(a, self, ox, oy, dir, d, limit, loot);
      var a1 := Advance(a, self, c);
      RayFlamesEffect(a1, self, ox, oy, dir, d + 1, limit, loot);
      var n := Scan(a.grid, ox, oy, dir, d + 1, limit).len;
      FlamesCons(ox, oy, dir, d, n);
      AppendAssoc(a.explosions, [Explosion(c.0, c.1, BlastTime)], Flames(ox, oy, dir, d + 1, n));
    } else if d <= limit && !Stops(a.grid, c) {
      assert Flames(ox, oy, dir, d, 1) == [Explosion(c.0, c.1, BlastTime)];
    }
  }

  lemma AppendAssoc<T>(x: seq<T>, y: seq<T>, z: seq<T>)
    ensures (x + y) + z == x + (y + z)
  {
  }

  /** The bombs one ray chains are those on the cells Scan predicts, short of a destroyed wall. */
  lemma {:induction false} RayChainEffect(a: Arena, self: nat, ox: int, oy: int, dir: Dir, d: int, limit: int, loot: (int, int) -> Roll)
    requires WellSized(a.grid)
    ensures Ray(a, self, ox, oy, dir, d, limit, loot).bombs ==
            ChainAll(a.bombs, self, RayCells(ox, oy, dir, d, Unbroken(Scan(a.grid, ox, oy, dir, d, limit))))
    decreases limit - d
  {
    var c := StepCell(ox, oy, dir, d);
    if d <= limit && !Stops(a.grid, c) && a.grid[c.1][c.0] != WallBreakable {
      var a1 := Advance(a, self, c);
      RayChainEffect(a1, self, ox, oy, dir, d + 1, limit, loot);
      RayChainStep(a, self, ox, oy, dir, d, limit, loot);
    } else {
      assert Unbroken(Scan(a.grid, ox, oy, dir, d, limit)) == 0;
      assert RayCells(ox, oy, dir, d, 0) == [];
    }
  }

  /** The step of RayChainEffect: chaining cell c first, then the rest of the ray. */
  lemma RayChainStep(a: Arena, self: nat, ox: int, oy: int, dir: Dir, d: int, limit: int, loot: (int, int) -> Roll)
    requires WellSized(a.grid) && d <= limit
    requires var c := StepCell(ox, oy, dir, d); !Stops(a.grid, c) && a.grid[c.1][c.0] != WallBreakable
    requires var a1 := Advance(a, self, StepCell(ox, oy, dir, d));
      Ray(a1, self, ox, oy, dir, d + 1, limit, loot).bombs ==
      ChainAll(a1.bombs, self, RayCells(ox, oy, dir, d + 1, Unbroken(Scan(a1.grid, ox, oy, dir, d + 1, limit))))
    ensures Ray(a, self, ox, oy, dir, d, limit, loot).bombs ==
            ChainAll(a.bombs, self, RayCells(ox, oy, dir, d, Unbroken(Scan(a.grid, ox, oy, dir, d, limit))))
  {
    var c := StepCell(ox, oy, dir, d);
    RayUnfold(a, self, ox, oy, dir, d, limit, loot);
    var a1 := Advance(a, self, c);
    assert a1.grid == a.grid && a1.bombs == Chain(a.bombs, self, c.0, c.1);
    var n := Unbroken(Scan(a.grid, ox, oy, dir, d + 1, limit));
    assert Unbroken(Scan(a.grid, ox, oy, dir, d, limit)) == n + 1;
    RayCellsCons(ox, oy, dir, d, n);
    ChainAllAppend(a.bombs, self, c, RayCells(ox, oy, dir, d + 1, n));
  }

  /** One ray changes the grid and the score only when it destroys a wall, and then only at that wall. */
  lemma {:induction false} RayWallEffect(a: Arena, self: nat, ox: int, oy: int, dir: Dir, d: int, limit: int, loot: (int, int) -> Roll)
    requires WellSized(a.grid)
    ensures var r := Ray(a, self, ox, oy, dir, d, limit, loot);
      var s := Scan(a.grid, ox, oy, dir, d, limit);
      && (s.broke ==>
            && s.len > 0
            && var c := StepCell(ox, oy, dir, d + s.len - 1);
            && InBounds(c.0, c.1) && a.grid[c.1][c.0] == WallBreakable
            && r.grid == SetTile(a.grid, c.0, c.1, Loot(loot(c.0, c.1)))
            && r.score == a.score + WallBonus)
      && (!s.broke ==> r.grid == a.grid && r.score == a.score)
    decreases limit - d
  {
    var c := StepCell(ox, oy, dir, d);
    if d <= limit && !Stops(a.grid, c) && a.grid[c.1][c.0] != WallBreakable {
      RayUnfold(a, self, ox, oy, dir, d, limit, loot);
      var a1 := Advance(a, self, c);
      assert a1.grid == a.grid && a1.score == a.score;
      RayWallEffect(a1, self, ox, oy, dir, d + 1, limit, loot);
    }
  }

  /** Two grids that agree on every cell of a ray give it the same span. */
  lemma {:induction false} ScanFrame(g1: Grid, g2: Grid, ox: int, oy: int, dir: Dir, d: int, limit: int)
    requires WellSized(g1) && WellSized(g2)
    requires forall k :: d <= k <= limit ==> var c := StepCell(ox, oy, dir, k);
      InBounds(c.0, c.1) ==> g1[c.1][c.0] == g2[c.1][c.0]
    ensures Scan(g1, ox, oy, dir, d, limit) == Scan(g2, ox, oy, dir, d, limit)
    decreases limit - d
  {
    if d <= limit {
      ScanFrame(g1, g2, ox, oy, dir, d + 1, limit);
    }
  }

  // ---------------------------------------------------------------------
  // explode (main.js:385-404)

  /** The five directions of explode, in main.js's order. */
  const Rays: seq<Dir> := [Center, Down, Up, Right, Left]

  /** The centre "ray" runs d = 0 .. 1; the four others run d = 1 .. range. */
  function FirstStep(dir: Dir): int {
    if dir == Center then 0 else 1
  }

  function LastStep(dir: Dir, range: int): int {
    if dir == Center then 1 else range
  }

  /** The ray of bomb b (bomb number self) in direction dir. */
  function BombRay(a: Arena, self: nat, b: Bomb, dir: Dir, loot: (int, int) -> Roll): (r: Arena)
    requires WellSized(a.grid)
    ensures WellSized(r.grid) && |r.bombs| == |a.bombs| && r.activeBombs == a.activeBombs
  {
    Ray(a, self, b.x, b.y, dir, FirstStep(dir), LastStep(dir, b.range), loot)
  }

  /** The state after the first n rays of directions.forEach. */
  function Stage(a: Arena, self: nat, b: Bomb, n: nat, loot: (int, int) -> Roll): (r: Arena)
    requires WellSized(a.grid) && n <= |Rays|
    ensures WellSized(r.grid) && |r.bombs| == |a.bombs| && r.activeBombs == a.activeBombs
  {
    if n == 0 then a else BombRay(Stage(a, self, b, n - 1, loot), self, b, Rays[n - 1], loot)
  }

  /** explode(bombs[self]): the five rays in turn. */
  function Explode(a: Arena, self: nat, loot: (int, int) -> Roll): (r: Arena)
    requires WellSized(a.grid) && self < |a.bombs|
    ensures WellSized(r.grid) && |r.bombs| == |a.bombs| && r.activeBombs == a.activeBombs
  {
    Stage(a, self, a.bombs[self], |Rays|, loot)
  }

  /** The span of bomb b's ray in direction dir on grid g. */
  function SpanOf(g: Grid, b: Bomb, dir: Dir): Span
    requires WellSized(g)
  {
    Scan(g, b.x, b.y, dir, FirstStep(dir), LastStep(dir, b.range))
  }

  function RayFlames(g: Grid, b: Bomb, dir: Dir): seq<Explosion>
    requires WellSized(g)
  {
    Flames(b.x, b.y, dir, FirstStep(dir), SpanOf(g, b, dir).len)
  }

  function RayChainCells(g: Grid, b: Bomb, dir: Dir): seq<Cell>
    requires WellSized(g)
  {
    RayCells(b.x, b.y, dir, FirstStep(dir), Unbroken(SpanOf(g, b, dir)))
  }

  /** The wall a ray destroys, if any. */
  function BrokenCell(g: Grid, b: Bomb, dir: Dir): Option<Cell>
    requires WellSized(g)
  {
    var s := SpanOf(g, b, dir);
    if s.broke && s.len > 0 then Some(StepCell(b.x, b.y, dir, FirstStep(dir) + s.len - 1)) else None
  }

  /** The flames of the rays in dirs, in order. */
  function FlamesOf(g: Grid, b: Bomb, dirs: seq<Dir>): seq<Explosion>
    requires WellSized(g)
  {
    if dirs == [] then [] else FlamesOf(g, b, dirs[..|dirs| - 1]) + RayFlames(g, b, dirs[|dirs| - 1])
  }

  /** The cells where the rays in dirs look for bombs to chain, in order. */
  function ChainCellsOf(g: Grid, b: Bomb, dirs: seq<Dir>): seq<Cell>
    requires WellSized(g)
  {
    if dirs == [] then [] else ChainCellsOf(g, b, dirs[..|dirs| - 1]) + RayChainCells(g, b, dirs[|dirs| - 1])
  }

  /** The walls the rays in dirs destroy. */
  function BrokenSet(g: Grid, b: Bomb, dirs: seq<Dir>): set<Cell>
    requires WellSized(g)
  {
    if dirs == [] then {}
    else
      var last := BrokenCell(g, b, dirs[|dirs| - 1]);
      BrokenSet(g, b, dirs[..|dirs| - 1]) + (if last.Some? then {last.value} else {})
  }

  /** The number of walls the rays in dirs destroy. */
  function BrokenCount(g: Grid, b: Bomb, dirs: seq<Dir>): nat
    requires WellSized(g)
  {
    if dirs == [] then 0
    else BrokenCount(g, b, dirs[..|dirs| - 1]) + (if SpanOf(g, b, dirs[|dirs| - 1]).broke then 1 else 0)
  }

  /** g1 is g with the cells of ws replaced by their loot. */
  ghost predicate Patched(g1: Grid, g: Grid, ws: set<Cell>, loot: (int, int) -> Roll)
    requires WellSized(g1) && WellSized(g)
  {
    forall y, x :: InBounds(x, y) ==> g1[y][x] == if (x, y) in ws then Loot(loot(x, y)) else g[y][x]
  }

  /** Ray cells past the bomb's own cell never meet cells of another direction's ray. */
  lemma RaysDisjoint(ox: int, oy: int, d1: Dir, k1: int, d2: Dir, k2: int)
    requires d1 != d2 && (d1 != Center ==> k1 >= 1) && (d2 != Center ==> k2 >= 1)
    ensures StepCell(ox, oy, d1, k1) != StepCell(ox, oy, d2, k2)
  {
  }

  /** Every cell of BrokenSet is the wall some ray of dirs destroys. */
  lemma {:induction false} BrokenSetFrom(g: Grid, b: Bomb, dirs: seq<Dir>, c: Cell)
    requires WellSized(g) && c in BrokenSet(g, b, dirs)
    ensures exists i :: 0 <= i < |dirs| && BrokenCell(g, b, dirs[i]) == Some(c)
    decreases |dirs|
  {
    var last := BrokenCell(g, b, dirs[|dirs| - 1]);
    if !(last.Some? && c == last.value) {
      BrokenSetFrom(g, b, dirs[..|dirs| - 1], c);
      var i :| 0 <= i < |dirs| - 1 && BrokenCell(g, b, dirs[..|dirs| - 1][i]) == Some(c);
      assert dirs[..|dirs| - 1][i] == dirs[i];
    }
  }

  /** A cardinal ray that comes after the rays in prior sees the original grid. */
  lemma LaterRaySeesOriginal(g: Grid, g1: Grid, b: Bomb, prior: seq<Dir>, dir: Dir, loot: (int, int) -> Roll)
    requires WellSized(g) && WellSized(g1) && dir != Center && dir !in prior
    requires Patched(g1, g, BrokenSet(g, b, prior), loot)
    ensures SpanOf(g1, b, dir) == SpanOf(g, b, dir)
  {
    forall k | 1 <= k <= b.range
      ensures var c := StepCell(b.x, b.y, dir, k); InBounds(c.0, c.1) ==> g1[c.1][c.0] == g[c.1][c.0]
    {
      var c := StepCell(b.x, b.y, dir, k);
      if c in BrokenSet(g, b, prior) {
        BrokenSetFrom(g, b, prior, c);
        var i :| 0 <= i < |prior| && BrokenCell(g, b, prior[i]) == Some(c);
        var e := prior[i];
        RaysDisjoint(b.x, b.y, e, FirstStep(e) + SpanOf(g, b, e).len - 1, dir, k);
      }
    }
    ScanFrame(g1, g, b.x, b.y, dir, 1, b.range);
  }

  lemma RaysPrefix(n: nat)
    requires n < |Rays|
    ensures Rays[..n + 1][..n] == Rays[..n] && Rays[..n + 1][n] == Rays[n]
    ensures Rays[n] !in Rays[..n]
    ensures Rays[n] == Center <==> n == 0
  {
  }

  /** After the first n rays, the grid is the original with the walls they destroyed replaced by loot, every ray so far has seen the original grid, and each destroyed wall has scored. */
  lemma {:induction false} RaysGrid(a: Arena, self: nat, b: Bomb, n: nat, loot: (int, int) -> Roll)
    requires WellSized(a.grid) && n <= |Rays|
    ensures var r := Stage(a, self, b, n, loot);
      && Patched(r.grid, a.grid, BrokenSet(a.grid, b, Rays[..n]), loot)
      && r.score == a.score + WallBonus * BrokenCount(a.grid, b, Rays[..n])
    ensures n < |Rays| ==> SpanOf(Stage(a, self, b, n, loot).grid, b, Rays[n]) == SpanOf(a.grid, b, Rays[n])
  {
    var g := a.grid;
    var dir := if n < |Rays| then Rays[n] else Center;
    if n == 0 {
      assert Rays[..0] == [];
    } else {
      RaysGrid(a, self, b, n - 1, loot);
      RaysPrefix(n - 1);
      var prev := Stage(a, self, b, n - 1, loot);
      var e := Rays[n - 1];
      RayWallEffect(prev, self, b.x, b.y, e, FirstStep(e), LastStep(e, b.range), loot);
      assert Rays[..n][..n - 1] == Rays[..n - 1];
    }
    if n < |Rays| {
      RaysPrefix(n);
      if dir != Center {
        LaterRaySeesOriginal(g, Stage(a, self, b, n, loot).grid, b, Rays[..n], dir, loot);
      } else {
        assert Stage(a, self, b, n, loot) == a;
      }
    }
  }

  /** Each ray spans the cells it would span on the grid explode started with. */
  lemma StageSpan(a: Arena, self: nat, b: Bomb, n: nat, loot: (int, int) -> Roll)
    requires WellSized(a.grid) && n < |Rays|
    ensures SpanOf(Stage(a, self, b, n, loot).grid, b, Rays[n]) == SpanOf(a.grid, b, Rays[n])
  {
    RaysGrid(a, self, b, n, loot);
  }

  /** Stage n is ray n - 1 run on stage n - 1. */
  lemma StageUnfold(a: Arena, self: nat, b: Bomb, n: nat, loot: (int, int) -> Roll)
    requires WellSized(a.grid) && 0 < n <= |Rays|
    ensures var e := Rays[n - 1];
      Stage(a, self, b, n, loot) == Ray(Stage(a, self, b, n - 1, loot), self, b.x, b.y, e, FirstStep(e), LastStep(e, b.range), loot)
  {
  }

  lemma FlamesOfSnoc(g: Grid, b: Bomb, n: nat)
    requires WellSized(g) && 0 < n <= |Rays|
    ensures FlamesOf(g, b, Rays[..n]) == FlamesOf(g, b, Rays[..n - 1]) + RayFlames(g, b, Rays[n - 1])
  {
    assert Rays[..n][..n - 1] == Rays[..n - 1];
  }

  lemma ChainCellsOfSnoc(g: Grid, b: Bomb, n: nat)
    requires WellSized(g) && 0 < n <= |Rays|
    ensures ChainCellsOf(g, b, Rays[..n]) == ChainCellsOf(g, b, Rays[..n - 1]) + RayChainCells(g, b, Rays[n - 1])
  {
    assert Rays[..n][..n - 1] == Rays[..n - 1];
  }

  /** After the first n rays, their flames have been appended in order. */
  lemma {:induction false} StageFlames(a: Arena, self: nat, b: Bomb, n: nat, loot: (int, int) -> Roll)
    requires WellSized(a.grid) && n <= |Rays|
    ensures Stage(a, self, b, n, loot).explosions == a.explosions + FlamesOf(a.grid, b, Rays[..n])
  {
    if n == 0 {
      assert Rays[..0] == [];
    } else {
      var prev := Stage(a, self, b, n - 1, loot);
      var e := Rays[n - 1];
      StageFlames(a, self, b, n - 1, loot);
      StageSpan(a, self, b, n - 1, loot);
      StageUnfold(a, self, b, n, loot);
      RayFlamesEffect(prev, self, b.x, b.y, e, FirstStep(e), LastStep(e, b.range), loot);
      FlamesOfSnoc(a.grid, b, n);
      AppendAssoc(a.explosions, FlamesOf(a.grid, b, Rays[..n - 1]), RayFlames(a.grid, b, e));
    }
  }

  /** After the first n rays, the bombs on their unbroken cells have been chained. */
  lemma {:induction false} StageChains(a: Arena, self: nat, b: Bomb, n: nat, loot: (int, int) -> Roll)
    requires WellSized(a.grid) && n <= |Rays|
    ensures Stage(a, self, b, n, loot).bombs == ChainAll(a.bombs, self, ChainCellsOf(a.grid, b, Rays[..n]))
  {
    if n == 0 {
      assert Rays[..0] == [];
    } else {
      var prev := Stage(a, self, b, n - 1, loot);
      var e := Rays[n - 1];
      StageChains(a, self, b, n - 1, loot);
      StageSpan(a, self, b, n - 1, loot);
      StageUnfold(a, self, b, n, loot);
      RayChainEffect(prev, self, b.x, b.y, e, FirstStep(e), LastStep(e, b.range), loot);
      ChainCellsOfSnoc(a.grid, b, n);
      ChainAllConcat(a.bombs, self, ChainCellsOf(a.grid, b, Rays[..n - 1]), RayChainCells(a.grid, b, e));
    }
  }

  /**
   * What explode does, in closed form over the grid it starts on: it appends
   * the flames of its five rays in order, chains the bombs on their unbroken
   * cells, adds 10 points per destroyed wall, and changes exactly the
   * destroyed walls into the loot rolled for them.
   */
  lemma ExplodeEffect(a: Arena, self: nat, loot: (int, int) -> Roll)
    requires WellSized(a.grid) && self < |a.bombs|
    ensures var r := Explode(a, self, loot); var b := a.bombs[self];
      && r.explosions == a.explosions + FlamesOf(a.grid, b, Rays)
      && r.bombs == ChainAll(a.bombs, self, ChainCellsOf(a.grid, b, Rays))
      && r.score == a.score + WallBonus * BrokenCount(a.grid, b, Rays)
      && r.activeBombs == a.activeBombs
      && Patched(r.grid, a.grid, BrokenSet(a.grid, b, Rays), loot)
  {
    RaysGrid(a, self, a.bombs[self], |Rays|, loot);
    StageFlames(a, self, a.bombs[self], |Rays|, loot);
    StageChains(a, self, a.bombs[self], |Rays|, loot);
    assert Rays[..|Rays|] == Rays;
  }

  // ---------------------------------------------------------------------
  // What explode promises

  /** The flames of explode, ray by ray: the centre, then down, up, right and left. */
  lemma FlamesOfRays(g: Grid, b: Bomb)
    requires WellSized(g)
    ensures FlamesOf(g, b, Rays) ==
      RayFlames(g, b, Center) + RayFlames(g, b, Down) + RayFlames(g, b, Up) + RayFlames(g, b, Right) + RayFlames(g, b, Left)
  {
    assert Rays[..0] == [];
    FlamesOfSnoc(g, b, 1);
    FlamesOfSnoc(g, b, 2);
    FlamesOfSnoc(g, b, 3);
    FlamesOfSnoc(g, b, 4);
    FlamesOfSnoc(g, b, 5);
    assert Rays[..5] == Rays;
  }

  /**
   * Ray limits. In a cardinal direction explode flames at most range cells:
   * the cells 1, 2, ... steps out in that direction, each on the grid and not
   * a solid wall, all but the last not a breakable wall either; the ray
   * destroys a wall exactly when its last cell is one; and a ray that ends
   * short of its range without destroying a wall ends because the next cell
   * is off the grid or a solid wall.
   */
  lemma CardinalRayLimits(g: Grid, b: Bomb, dir: Dir)
    requires WellSized(g) && dir != Center
    ensures var fs := RayFlames(g, b, dir); var s := SpanOf(g, b, dir);
      && |fs| <= (if b.range >= 1 then b.range else 0)
      && (forall k :: 0 <= k < |fs| ==> var c := StepCell(b.x, b.y, dir, k + 1);
            && fs[k] == Explosion(c.0, c.1, BlastTime)
            && InBounds(c.0, c.1) && g[c.1][c.0] != WallSolid)
      && (forall k :: 0 <= k < |fs| - 1 ==> g[fs[k].y][fs[k].x] != WallBreakable)
      && (s.broke <==> |fs| > 0 && g[fs[|fs| - 1].y][fs[|fs| - 1].x] == WallBreakable)
      && (|fs| < b.range && !s.broke ==> Stops(g, StepCell(b.x, b.y, dir, |fs| + 1)))
  {
    ScanLimits(g, b.x, b.y, dir, 1, b.range);
  }

  /** The centre "ray" flames the bomb's own cell twice, and looks for bombs there twice. */
  lemma CenterTwice(g: Grid, b: Bomb)
    requires WellSized(g) && InBounds(b.x, b.y) && g[b.y][b.x] != WallSolid && g[b.y][b.x] != WallBreakable
    ensures RayFlames(g, b, Center) == [Explosion(b.x, b.y, BlastTime), Explosion(b.x, b.y, BlastTime)]
    ensures RayChainCells(g, b, Center) == [(b.x, b.y), (b.x, b.y)]
  {
    assert Scan(g, b.x, b.y, Center, 2, 1) == Span(0, false);
    assert Scan(g, b.x, b.y, Center, 1, 1) == Span(1, false);
    assert SpanOf(g, b, Center) == Span(2, false);
  }

  /** Explode flames at most 2 + 4 * range cells. */
  lemma ExplodeFlameCount(a: Arena, self: nat, loot: (int, int) -> Roll)
    requires WellSized(a.grid) && self < |a.bombs|
    ensures var b := a.bombs[self];
      |Explode(a, self, loot).explosions| <= |a.explosions| + 2 + 4 * (if b.range >= 1 then b.range else 0)
  {
    var b := a.bombs[self];
    ExplodeEffect(a, self, loot);
    FlamesOfRays(a.grid, b);
    ScanLimits(a.grid, b.x, b.y, Center, 0, 1);
    CardinalRayLimits(a.grid, b, Down);
    CardinalRayLimits(a.grid, b, Up);
    CardinalRayLimits(a.grid, b, Right);
    CardinalRayLimits(a.grid, b, Left);
  }

  /** With one bomb per cell, bomb j is found exactly when its cell is among the cells searched. */
  lemma HitUnique(bs: seq<Bomb>, j: nat, cs: seq<Cell>)
    requires UniqueCells(bs) && j < |bs|
    ensures Hit(bs, j, cs) <==> (bs[j].x, bs[j].y) in cs
  {
    FindBombUnique(bs, j);
    if Hit(bs, j, cs) {
      var c :| c in cs && FindBomb(bs, c.0, c.1) == Some(j);
      assert c == (bs[j].x, bs[j].y);
    }
  }

  /**
   * Chaining. With one bomb per cell, explode forces to zero the fuse of
   * exactly the other bombs on a flamed cell short of a destroyed wall; the
   * exploding bomb and every other bomb are left as they were.
   */
  lemma ExplodeChains(a: Arena, self: nat, loot: (int, int) -> Roll, j: nat)
    requires WellSized(a.grid) && UniqueCells(a.bombs) && self < |a.bombs| && j < |a.bombs|
    ensures Explode(a, self, loot).bombs[j] ==
      if j != self && (a.bombs[j].x, a.bombs[j].y) in ChainCellsOf(a.grid, a.bombs[self], Rays)
      then a.bombs[j].(timer := 0) else a.bombs[j]
  {
    var cs := ChainCellsOf(a.grid, a.bombs[self], Rays);
    ExplodeEffect(a, self, loot);
    ChainAllEffect(a.bombs, self, cs, j);
    HitUnique(a.bombs, j, cs);
  }

  /** Whatever the layout, explode only ever sets fuses to zero, never the exploding bomb's own. */
  lemma ExplodeOnlyZeroes(a: Arena, self: nat, loot: (int, int) -> Roll, j: nat)
    requires WellSized(a.grid) && self < |a.bombs| && j < |a.bombs|
    ensures var r := Explode(a, self, loot).bombs;
      r[j] == a.bombs[j] || (j != self && r[j] == a.bombs[j].(timer := 0))
  {
    ExplodeEffect(a, self, loot);
    ChainAllEffect(a.bombs, self, ChainCellsOf(a.grid, a.bombs[self], Rays), j);
  }

  /** The wall a ray destroys was a breakable wall on the grid. */
  lemma BrokenCellIsWall(g: Grid, b: Bomb, dir: Dir)
    requires WellSized(g)
    ensures var w := BrokenCell(g, b, dir);
      w.Some? ==> InBounds(w.value.0, w.value.1) && g[w.value.1][w.value.0] == WallBreakable
  {
    ScanLimits(g, b.x, b.y, dir, FirstStep(dir), LastStep(dir, b.range));
  }

  /** Explode changes a cell only where a breakable wall stood, and leaves there an empty cell or a power-up. */
  lemma ExplodeGrid(a: Arena, self: nat, loot: (int, int) -> Roll, x: int, y: int)
    requires WellSized(a.grid) && self < |a.bombs| && InBounds(x, y)
    ensures var g := Explode(a, self, loot).grid;
      g[y][x] == a.grid[y][x] || (a.grid[y][x] == WallBreakable && (g[y][x] == Empty || IsPowerup(g[y][x])))
  {
    var b := a.bombs[self];
    ExplodeEffect(a, self, loot);
    if (x, y) in BrokenSet(a.grid, b, Rays) {
      BrokenSetFrom(a.grid, b, Rays, (x, y));
      var i :| 0 <= i < |Rays| && BrokenCell(a.grid, b, Rays[i]) == Some((x, y));
      BrokenCellIsWall(a.grid, b, Rays[i]);
    }
  }

  /** So explode keeps every tile code valid and the solid frame standing. */
  lemma ExplodeKeepsShape(a: Arena, self: nat, loot: (int, int) -> Roll)
    requires WellSized(a.grid) && self < |a.bombs| && TilesValid(a.grid) && Framed(a.grid)
    ensures TilesValid(Explode(a, self, loot).grid) && Framed(Explode(a, self, loot).grid)
  {
    var g := Explode(a, self, loot).grid;
    forall y, x | InBounds(x, y)
      ensures IsTile(g[y][x]) && ((OnBorder(x, y) || IsPillar(x, y)) ==> g[y][x] == WallSolid)
    {
      ExplodeGrid(a, self, loot, x, y);
    }
  }

  /** How explode's chain cells depend on the bomb: through its cell and range, not its fuse. */
  lemma {:induction false} ChainCellsOfFuse(g: Grid, b: Bomb, t: int, dirs: seq<Dir>)
    requires WellSized(g)
    ensures ChainCellsOf(g, b.(timer := t), dirs) == ChainCellsOf(g, b, dirs)
    decreases |dirs|
  {
    if dirs != [] {
      ChainCellsOfFuse(g, b, t, dirs[..|dirs| - 1]);
    }
  }

  // ---------------------------------------------------------------------
  // placeBomb (main.js:290-296)

  /** A bomb on (x, y) with the player's range, unless the player has all bombs out or one is already there. */
  function Place(a: Arena, x: int, y: int, maxBombs: int, range: int): Arena {
    if a.activeBombs < maxBombs && !HasBombAt(a.bombs, x, y) then
      a.(bombs := a.bombs + [Bomb(x, y, FuseTime, range)], activeBombs := a.activeBombs + 1)
    else a
  }

  /**
   * placeBomb appends exactly one fresh bomb on the player's cell and counts
   * it, or changes nothing; it changes nothing exactly when all the player's
   * bombs are out or a bomb already sits on that cell.
   */
  lemma PlaceEffect(a: Arena, x: int, y: int, maxBombs: int, range: int)
    ensures var r := Place(a, x, y, maxBombs, range);
      && (r == a <==> a.activeBombs >= maxBombs || exists k :: 0 <= k < |a.bombs| && a.bombs[k].x == x && a.bombs[k].y == y)
      && (r != a ==> r.bombs == a.bombs + [Bomb(x, y, FuseTime, range)] && r.activeBombs == a.activeBombs + 1)
      && r.grid == a.grid && r.explosions == a.explosions && r.score == a.score
  {
    if exists k :: 0 <= k < |a.bombs| && a.bombs[k].x == x && a.bombs[k].y == y {
      var k :| 0 <= k < |a.bombs| && a.bombs[k].x == x && a.bombs[k].y == y;
      assert a.bombs[k] in a.bombs;
    }
    var r := Place(a, x, y, maxBombs, range);
    if r != a {
      assert |r.bombs| == |a.bombs| + 1;
    }
  }

  /** The bomb count is the number of bombs on the field, and never above the player's allowance. */
  ghost predicate Counted(a: Arena, maxBombs: int) {
    a.activeBombs == |a.bombs| <= maxBombs && UniqueCells(a.bombs)
  }

  /** placeBomb keeps the count right, under the allowance, and one bomb per cell. */
  lemma PlaceKeepsCount(a: Arena, x: int, y: int, maxBombs: int, range: int)
    requires Counted(a, maxBombs)
    ensures Counted(Place(a, x, y, maxBombs, range), maxBombs)
  {
    var r := Place(a, x, y, maxBombs, range);
    if r != a {
      forall i, j | 0 <= i < j < |r.bombs| ensures r.bombs[i].x != r.bombs[j].x || r.bombs[i].y != r.bombs[j].y {
        if j == |a.bombs| {
          assert a.bombs[i] in a.bombs;
        }
      }
    }
  }

  // ---------------------------------------------------------------------
  // The fuse loop of update (main.js:312-315)

  /** bombs.splice(i, 1) and b.owner.activeBombs-- */
  function RemoveBomb(a: Arena, i: nat): (r: Arena)
    requires i < |a.bombs|
    ensures |r.bombs| == |a.bombs| - 1
  {
    a.(bombs := a.bombs[..i] + a.bombs[i + 1..], activeBombs := a.activeBombs - 1)
  }

  /** One turn of the loop: bomb i's fuse burns dt; if it is out, the bomb explodes and is removed. */
  function Visit(a: Arena, i: nat, dt: int, loot: (int, int) -> Roll): (r: Arena)
    requires WellSized(a.grid) && i < |a.bombs|
    ensures WellSized(r.grid) && i <= |r.bombs| <= |a.bombs|
  {
    var b := a.bombs[i].(timer := a.bombs[i].timer - dt);
    var a1 := a.(bombs := a.bombs[i := b]);
    if b.timer <= 0 then RemoveBomb(Explode(a1, i, loot), i) else a1
  }

  /** The loop over the bombs at indices n - 1 down to 0. */
  function Burn(a: Arena, n: nat, dt: int, loot: (int, int) -> Roll): (r: Arena)
    requires WellSized(a.grid) && n <= |a.bombs|
    ensures WellSized(r.grid)
    decreases n
  {
    if n == 0 then a else Burn(Visit(a, n - 1, dt, loot), n - 1, dt, loot)
  }

  /** The whole loop, from the last bomb down to the first. */
  function BurnAll(a: Arena, dt: int, loot: (int, int) -> Roll): (r: Arena)
    requires WellSized(a.grid)
    ensures WellSized(r.grid)
  {
    Burn(a, |a.bombs|, dt, loot)
  }

  /**
   * One turn of the loop removes bomb i exactly when its decremented fuse is
   * at most zero, and then counts it off; a bomb that stays only has its fuse
   * decremented. The other bombs keep their order, and each is as it was or
   * has had its fuse forced to zero.
   */
  lemma VisitEffect(a: Arena, i: nat, dt: int, loot: (int, int) -> Roll)
    requires WellSized(a.grid) && i < |a.bombs|
    ensures var t := a.bombs[i].timer - dt; var r := Visit(a, i, dt, loot);
      && (t > 0 ==> r == a.(bombs := a.bombs[i := a.bombs[i].(timer := t)]))
      && (t <= 0 ==>
            && |r.bombs| == |a.bombs| - 1 && r.activeBombs == a.activeBombs - 1
            && forall k :: 0 <= k < |r.bombs| ==>
                 var o := if k < i then k else k + 1;
                 r.bombs[k] == a.bombs[o] || r.bombs[k] == a.bombs[o].(timer := 0))
  {
    var t := a.bombs[i].timer - dt;
    if t <= 0 {
      var a1 := a.(bombs := a.bombs[i := a.bombs[i].(timer := t)]);
      var e := Explode(a1, i, loot);
      var r := RemoveBomb(e, i);
      forall k | 0 <= k < |r.bombs|
        ensures var o := if k < i then k else k + 1; r.bombs[k] == a.bombs[o] || r.bombs[k] == a.bombs[o].(timer := 0)
      {
        var o := if k < i then k else k + 1;
        ExplodeOnlyZeroes(a1, i, loot, o);
        assert r.bombs[k] == e.bombs[o];
      }
    }
  }

  /** Each removal counts one bomb off: the count and the number of bombs differ by the same amount after the loop. */
  lemma {:induction false} BurnBookkeeping(a: Arena, n: nat, dt: int, loot: (int, int) -> Roll)
    requires WellSized(a.grid) && n <= |a.bombs|
    ensures var r := Burn(a, n, dt, loot);
      && r.activeBombs - |r.bombs| == a.activeBombs - |a.bombs|
      && |r.bombs| <= |a.bombs|
    decreases n
  {
    if n > 0 {
      VisitEffect(a, n - 1, dt, loot);
      BurnBookkeeping(Visit(a, n - 1, dt, loot), n - 1, dt, loot);
    }
  }

  /** The bombs after a quiet loop: the first n have their fuses decremented by dt. */
  function Burned(bs: seq<Bomb>, n: nat, dt: int): (r: seq<Bomb>)
    ensures |r| == |bs|
  {
    seq(|bs|, k requires 0 <= k < |bs| => if k < n then bs[k].(timer := bs[k].timer - dt) else bs[k])
  }

  /** When no fuse runs out, the loop only decrements every fuse: no explosion, no removal. */
  lemma {:induction false} BurnQuiet(a: Arena, n: nat, dt: int, loot: (int, int) -> Roll)
    requires WellSized(a.grid) && n <= |a.bombs|
    requires forall k :: 0 <= k < n ==> a.bombs[k].timer > dt
    ensures Burn(a, n, dt, loot) == a.(bombs := Burned(a.bombs, n, dt))
    decreases n
  {
    if n == 0 {
      assert Burned(a.bombs, 0, dt) == a.bombs;
    } else {
      var i := n - 1;
      var bs1 := a.bombs[i := a.bombs[i].(timer := a.bombs[i].timer - dt)];
      var a1 := a.(bombs := bs1);
      assert Visit(a, i, dt, loot) == a1;
      BurnQuiet(a1, i, dt, loot);
      assert Burned(bs1, i, dt) == Burned(a.bombs, n, dt);
    }
  }

  /** After the loop no fuse is below zero: a surviving fuse was positive, or forced to zero by a later explosion. */
  lemma {:induction false} BurnNonNegative(a: Arena, n: nat, dt: int, loot: (int, int) -> Roll)
    requires WellSized(a.grid) && n <= |a.bombs|
    requires forall k :: n <= k < |a.bombs| ==> a.bombs[k].timer >= 0
    ensures var r := Burn(a, n, dt, loot); forall k :: 0 <= k < |r.bombs| ==> r.bombs[k].timer >= 0
    decreases n
  {
    if n > 0 {
      var i := n - 1;
      var v := Visit(a, i, dt, loot);
      VisitEffect(a, i, dt, loot);
      forall k | i <= k < |v.bombs| ensures v.bombs[k].timer >= 0 {
        if a.bombs[i].timer - dt <= 0 {
          assert v.bombs[k] == a.bombs[k + 1] || v.bombs[k] == a.bombs[k + 1].(timer := 0);
        }
      }
      BurnNonNegative(v, i, dt, loot);
      assert Burn(a, n, dt, loot) == Burn(v, i, dt, loot);
    }
  }

  /** Bomb rs[k] is bomb bs[m[k]], up to its fuse, and m is increasing: rs is bs with some bombs taken out, in order. */
  ghost predicate Embeds(rs: seq<Bomb>, bs: seq<Bomb>, m: seq<int>) {
    && |m| == |rs|
    && (forall k :: 0 <= k < |m| ==> 0 <= m[k] < |bs| && rs[k].x == bs[m[k]].x && rs[k].y == bs[m[k]].y && rs[k].range == bs[m[k]].range)
    && (forall k, l :: 0 <= k < l < |m| ==> m[k] < m[l])
  }

  lemma EmbedsCompose(rs: seq<Bomb>, ss: seq<Bomb>, bs: seq<Bomb>, m2: seq<int>, m1: seq<int>)
    requires Embeds(rs, ss, m2) && Embeds(ss, bs, m1)
    ensures Embeds(rs, bs, seq(|m2|, k requires 0 <= k < |m2| => m1[m2[k]]))
  {
  }

  /** One turn of the loop keeps the bombs it does not remove, in order. */
  lemma VisitOrder(a: Arena, i: nat, dt: int, loot: (int, int) -> Roll)
    requires WellSized(a.grid) && i < |a.bombs|
    ensures exists m :: Embeds(Visit(a, i, dt, loot).bombs, a.bombs, m)
  {
    var v := Visit(a, i, dt, loot);
    VisitEffect(a, i, dt, loot);
    if a.bombs[i].timer - dt > 0 {
      var m := seq(|a.bombs|, k => k);
      assert Embeds(v.bombs, a.bombs, m);
    } else {
      var m := seq(|a.bombs| - 1, k => if k < i then k else k + 1);
      forall k | 0 <= k < |m|
        ensures 0 <= m[k] < |a.bombs| && v.bombs[k].x == a.bombs[m[k]].x && v.bombs[k].y == a.bombs[m[k]].y
                && v.bombs[k].range == a.bombs[m[k]].range
      {
        var o := if k < i then k else k + 1;
        assert m[k] == o;
        assert v.bombs[k] == a.bombs[o] || v.bombs[k] == a.bombs[o].(timer := 0);
      }
      assert Embeds(v.bombs, a.bombs, m);
    }
  }

  /** The loop keeps the bombs it does not remove in their order. */
  lemma {:induction false} BurnOrder(a: Arena, n: nat, dt: int, loot: (int, int) -> Roll)
    requires WellSized(a.grid) && n <= |a.bombs|
    ensures exists m :: Embeds(Burn(a, n, dt, loot).bombs, a.bombs, m)
    decreases n
  {
    if n == 0 {
      var m := seq(|a.bombs|, k => k);
      assert Burn(a, n, dt, loot) == a;
      assert forall k :: 0 <= k < |m| ==> m[k] == k;
      assert Embeds(a.bombs, a.bombs, m);
    } else {
      var i := n - 1;
      var v := Visit(a, i, dt, loot);
      var r := Burn(v, i, dt, loot);
      assert Burn(a, n, dt, loot) == r;
      VisitOrder(a, i, dt, loot);
      var m1 :| Embeds(v.bombs, a.bombs, m1);
      BurnOrder(v, i, dt, loot);
      var m2 :| Embeds(r.bombs, v.bombs, m2);
      EmbedsCompose(r.bombs, v.bombs, a.bombs, m2, m1);
    }
  }

  /**
   * Chaining upward waits an update. Bomb 1 is visited first and its fuse
   * burns on; then bomb 0 goes off and chains it. Bomb 1 stays on the field
   * with its fuse at zero and explodes on the next update.
   */
  lemma TwoBombsUpward(a: Arena, dt: int, loot: (int, int) -> Roll)
    requires WellSized(a.grid) && |a.bombs| == 2
    requires a.bombs[0].x != a.bombs[1].x || a.bombs[0].y != a.bombs[1].y
    requires a.bombs[1].timer - dt > 0 && a.bombs[0].timer - dt <= 0
    requires (a.bombs[1].x, a.bombs[1].y) in ChainCellsOf(a.grid, a.bombs[0], Rays)
    ensures BurnAll(a, dt, loot).bombs == [a.bombs[1].(timer := 0)]
    ensures BurnAll(a, dt, loot).activeBombs == a.activeBombs - 1
  {
    var b0, b1 := a.bombs[0], a.bombs[1];
    var a1 := a.(bombs := [b0, b1.(timer := b1.timer - dt)]);
    assert Visit(a, 1, dt, loot) == a1;
    var a2 := a1.(bombs := [b0.(timer := b0.timer - dt), b1.(timer := b1.timer - dt)]);
    assert a2.bombs == a1.bombs[0 := a1.bombs[0].(timer := a1.bombs[0].timer - dt)];
    ChainCellsOfFuse(a.grid, b0, b0.timer - dt, Rays);
    ExplodeChains(a2, 0, loot, 1);
    var e := Explode(a2, 0, loot);
    assert e.bombs[1] == b1.(timer := 0);
    assert Visit(a1, 0, dt, loot) == RemoveBomb(e, 0);
    assert |e.bombs| == 2;
    assert e.bombs[..0] + e.bombs[1..] == [b1.(timer := 0)];
    assert Burn(a, 2, dt, loot) == Burn(a1, 1, dt, loot);
    assert Burn(a1, 1, dt, loot) == Burn(RemoveBomb(e, 0), 0, dt, loot);
  }

  /**
   * Chaining downward is immediate. Bomb 1 goes off first and chains bomb 0;
   * the loop then reaches bomb 0 with its fuse at zero, and it explodes in
   * the same update.
   */
  lemma TwoBombsDownward(a: Arena, dt: int, loot: (int, int) -> Roll)
    requires WellSized(a.grid) && |a.bombs| == 2 && dt >= 0
    requires a.bombs[0].x != a.bombs[1].x || a.bombs[0].y != a.bombs[1].y
    requires a.bombs[1].timer - dt <= 0
    requires (a.bombs[0].x, a.bombs[0].y) in ChainCellsOf(a.grid, a.bombs[1], Rays)
    ensures BurnAll(a, dt, loot).bombs == []
    ensures BurnAll(a, dt, loot).activeBombs == a.activeBombs - 2
  {
    var b0, b1 := a.bombs[0], a.bombs[1];
    var a1 := a.(bombs := [b0, b1.(timer := b1.timer - dt)]);
    assert a1.bombs == a.bombs[1 := a.bombs[1].(timer := a.bombs[1].timer - dt)];
    ChainCellsOfFuse(a.grid, b1, b1.timer - dt, Rays);
    ExplodeChains(a1, 1, loot, 0);
    var e := Explode(a1, 1, loot);
    assert e.bombs[0] == b0.(timer := 0);
    var v := RemoveBomb(e, 1);
    assert Visit(a, 1, dt, loot) == v;
    assert v.bombs == [b0.(timer := 0)];
    assert |Visit(v, 0, dt, loot).bombs| == 0;
    assert BurnAll(a, dt, loot) == Visit(v, 0, dt, loot);
  }

  lemma EmbedsUnique(rs: seq<Bomb>, bs: seq<Bomb>, m: seq<int>)
    requires Embeds(rs, bs, m) && UniqueCells(bs)
    ensures UniqueCells(rs)
  {
    forall i, j | 0 <= i < j < |rs| ensures rs[i].x != rs[j].x || rs[i].y != rs[j].y {
      assert m[i] < m[j];
    }
  }

  /** Together with placeBomb: the fuse loop keeps the count right, under the allowance, and one bomb per cell. */
  lemma BurnKeepsCount(a: Arena, dt: int, loot: (int, int) -> Roll, maxBombs: int)
    requires WellSized(a.grid) && Counted(a, maxBombs)
    ensures Counted(BurnAll(a, dt, loot), maxBombs)
  {
    BurnBookkeeping(a, |a.bombs|, dt, loot);
    BurnOrder(a, |a.bombs|, dt, loot);
    var m :| Embeds(BurnAll(a, dt, loot).bombs, a.bombs, m);
    EmbedsUnique(BurnAll(a, dt, loot).bombs, a.bombs, m);
  }

  /** The fuse loop keeps every tile code valid and the solid frame standing. */
  lemma {:induction false} BurnKeepsShape(a: Arena, n: nat, dt: int, loot: (int, int) -> Roll)
    requires WellSized(a.grid) && n <= |a.bombs| && TilesValid(a.grid) && Framed(a.grid)
    ensures TilesValid(Burn(a, n, dt, loot).grid) && Framed(Burn(a, n, dt, loot).grid)
    decreases n
  {
    if n > 0 {
      var i := n - 1;
      var a1 := a.(bombs := a.bombs[i := a.bombs[i].(timer := a.bombs[i].timer - dt)]);
      if a1.bombs[i].timer <= 0 {
        ExplodeKeepsShape(a1, i, loot);
      }
      BurnKeepsShape(Visit(a, i, dt, loot), i, dt, loot);
    }
  }

  /**
   * What the loop visiting bombs n - 1 down to 0 leaves of bs, through the
   * index map m: each survivor that was visited had fuse left after burning
   * dt, and now holds that fuse or zero (a lower bomb chained it); each one
   * not visited holds its fuse or zero.
   */
  ghost predicate Spent(rs: seq<Bomb>, bs: seq<Bomb>, m: seq<int>, n: nat, dt: int) {
    && Embeds(rs, bs, m)
    && forall k :: 0 <= k < |rs| ==>
         if m[k] < n then bs[m[k]].timer - dt > 0 && (rs[k].timer == bs[m[k]].timer - dt || rs[k].timer == 0)
         else rs[k].timer == bs[m[k]].timer || rs[k].timer == 0
  }

  /** One turn of the loop at bomb i, seen through its index map m: vs is what is left of bs. */
  ghost predicate Turned(vs: seq<Bomb>, bs: seq<Bomb>, m: seq<int>, i: nat, dt: int)
    requires i < |bs|
  {
    var t := bs[i].timer - dt;
    && Embeds(vs, bs, m)
    && (forall q :: 0 <= q < |vs| ==> m[q] == (if t <= 0 && q >= i then q + 1 else q))
    && (forall q :: 0 <= q < |vs| ==>
          if t > 0 && q == i then vs[q] == bs[i].(timer := t)
          else vs[q] == bs[m[q]] || vs[q] == bs[m[q]].(timer := 0))
  }

  /** One turn of the loop, with its index map written out. */
  lemma VisitMap(a: Arena, i: nat, dt: int, loot: (int, int) -> Roll) returns (m: seq<int>)
    requires WellSized(a.grid) && i < |a.bombs|
    ensures Turned(Visit(a, i, dt, loot).bombs, a.bombs, m, i, dt)
  {
    var v := Visit(a, i, dt, loot);
    var t := a.bombs[i].timer - dt;
    VisitEffect(a, i, dt, loot);
    if t > 0 {
      m := seq(|a.bombs|, q => q);
    } else {
      m := seq(|a.bombs| - 1, q => if q < i then q else q + 1);
      forall q | 0 <= q < |m|
        ensures v.bombs[q] == a.bombs[m[q]] || v.bombs[q] == a.bombs[m[q]].(timer := 0)
      {
        var o := if q < i then q else q + 1;
        assert m[q] == o;
      }
    }
  }

  /** A turn at bomb i followed by the loop below it is the loop from bomb i down. */
  lemma SpentCompose(rs: seq<Bomb>, vs: seq<Bomb>, bs: seq<Bomb>, m2: seq<int>, m1: seq<int>, i: nat, dt: int)
    requires i < |bs| && dt >= 0 && Turned(vs, bs, m1, i, dt) && Spent(rs, vs, m2, i, dt)
    ensures Spent(rs, bs, seq(|m2|, k requires 0 <= k < |m2| => m1[m2[k]]), i + 1, dt)
  {
    EmbedsCompose(rs, vs, bs, m2, m1);
    var m := seq(|m2|, k requires 0 <= k < |m2| => m1[m2[k]]);
    forall k | 0 <= k < |rs|
      ensures if m[k] < i + 1 then bs[m[k]].timer - dt > 0 && (rs[k].timer == bs[m[k]].timer - dt || rs[k].timer == 0)
              else rs[k].timer == bs[m[k]].timer || rs[k].timer == 0
    {
      var q := m2[k];
      assert m[k] == m1[q];
    }
  }

  /**
   * Fuse ticking over the whole loop: a bomb whose fuse runs out when the
   * loop reaches it is gone afterwards, and a survivor the loop reached
   * holds its fuse less dt, or zero.
   */
  lemma {:induction false} BurnSpent(a: Arena, n: nat, dt: int, loot: (int, int) -> Roll)
    requires WellSized(a.grid) && n <= |a.bombs| && dt >= 0
    ensures exists m :: Spent(Burn(a, n, dt, loot).bombs, a.bombs, m, n, dt)
    decreases n
  {
    if n == 0 {
      var m := seq(|a.bombs|, k => k);
      assert Burn(a, 0, dt, loot) == a;
      assert Spent(a.bombs, a.bombs, m, 0, dt);
    } else {
      var i := n - 1;
      var v := Visit(a, i, dt, loot);
      var r := Burn(v, i, dt, loot);
      assert Burn(a, n, dt, loot) == r;
      var m1 := VisitMap(a, i, dt, loot);
      BurnSpent(v, i, dt, loot);
      var m2 :| Spent(r.bombs, v.bombs, m2, i, dt);
      SpentCompose(r.bombs, v.bombs, a.bombs, m2, m1, i, dt);
    }
  }

  /** The whole loop: every survivor had fuse left after burning dt, and holds that fuse or zero. */
  lemma BurnAllSpent(a: Arena, dt: int, loot: (int, int) -> Roll)
    requires WellSized(a.grid) && dt >= 0
    ensures var r := BurnAll(a, dt, loot).bombs;
      exists m :: Embeds(r, a.bombs, m) && forall k :: 0 <= k < |r| ==>
        a.bombs[m[k]].timer - dt > 0 && (r[k].timer == a.bombs[m[k]].timer - dt || r[k].timer == 0)
  {
    BurnSpent(a, |a.bombs|, dt, loot);
    var m :| Spent(BurnAll(a, dt, loot).bombs, a.bombs, m, |a.bombs|, dt);
    assert Embeds(BurnAll(a, dt, loot).bombs, a.bombs, m);
  }

  /** With one bomb per cell, a bomb the loop reaches with no fuse left leaves no bomb on its cell. */
  lemma BurnClears(a: Arena, n: nat, dt: int, loot: (int, int) -> Roll, j: nat)
    requires WellSized(a.grid) && n <= |a.bombs| && dt >= 0 && UniqueCells(a.bombs)
    requires j < n && a.bombs[j].timer - dt <= 0
    ensures var r := Burn(a, n, dt, loot).bombs;
      forall k :: 0 <= k < |r| ==> r[k].x != a.bombs[j].x || r[k].y != a.bombs[j].y
  {
    var r := Burn(a, n, dt, loot).bombs;
    BurnSpent(a, n, dt, loot);
    var m :| Spent(r, a.bombs, m, n, dt);
    forall k | 0 <= k < |r| ensures r[k].x != a.bombs[j].x || r[k].y != a.bombs[j].y {
      if m[k] != j {
        assert m[k] < j || j < m[k];
      }
    }
  }

  /** rs ends with the bombs of bs from index n on, each with its fuse or zero. */
  ghost predicate KeepsAbove(rs: seq<Bomb>, bs: seq<Bomb>, n: nat) {
    && |bs| - n <= |rs| <= |bs|
    && forall q :: n <= q < |bs| ==>
         rs[|rs| - |bs| + q] == bs[q] || rs[|rs| - |bs| + q] == bs[q].(timer := 0)
  }

  lemma AboveCompose(rs: seq<Bomb>, vs: seq<Bomb>, bs: seq<Bomb>, i: nat)
    requires KeepsAbove(rs, vs, i) && KeepsAbove(vs, bs, i + 1) && |bs| - 1 <= |vs|
    ensures KeepsAbove(rs, bs, i + 1)
  {
    forall q | i + 1 <= q < |bs|
      ensures rs[|rs| - |bs| + q] == bs[q] || rs[|rs| - |bs| + q] == bs[q].(timer := 0)
    {
      var q' := |vs| - |bs| + q;
      assert |rs| - |vs| + q' == |rs| - |bs| + q;
    }
  }

  /** The loop never removes a bomb it has not reached: those above n end up last, with their fuse or zero. */
  lemma {:induction false} BurnAbove(a: Arena, n: nat, dt: int, loot: (int, int) -> Roll)
    requires WellSized(a.grid) && n <= |a.bombs|
    ensures KeepsAbove(Burn(a, n, dt, loot).bombs, a.bombs, n)
    decreases n
  {
    if n == 0 {
      assert Burn(a, 0, dt, loot) == a;
    } else {
      var i := n - 1;
      var v := Visit(a, i, dt, loot);
      var r := Burn(v, i, dt, loot).bombs;
      assert Burn(a, n, dt, loot).bombs == r;
      VisitEffect(a, i, dt, loot);
      assert KeepsAbove(v.bombs, a.bombs, n) by {
        forall q | n <= q < |a.bombs|
          ensures v.bombs[|v.bombs| - |a.bombs| + q] == a.bombs[q] || v.bombs[|v.bombs| - |a.bombs| + q] == a.bombs[q].(timer := 0)
        {
          if a.bombs[i].timer - dt <= 0 {
            assert v.bombs[q - 1] == a.bombs[q] || v.bombs[q - 1] == a.bombs[q].(timer := 0);
          }
        }
      }
      BurnAbove(v, i, dt, loot);
      AboveCompose(r, v.bombs, a.bombs, i);
    }
  }

  /** Bomb j as bomb i's explosion leaves it, for a bomb i whose fuse runs out. */
  lemma VisitChains(a: Arena, i: nat, dt: int, loot: (int, int) -> Roll, j: nat)
    requires WellSized(a.grid) && UniqueCells(a.bombs) && i < |a.bombs| && j < |a.bombs| && j != i
    requires a.bombs[i].timer - dt <= 0
    requires (a.bombs[j].x, a.bombs[j].y) in ChainCellsOf(a.grid, a.bombs[i], Rays)
    ensures var v := Visit(a, i, dt, loot).bombs;
      |v| == |a.bombs| - 1 && v[if j < i then j else j - 1] == a.bombs[j].(timer := 0)
  {
    var b := a.bombs[i].(timer := a.bombs[i].timer - dt);
    var a1 := a.(bombs := a.bombs[i := b]);
    assert UniqueCells(a1.bombs) by {
      forall p, q | 0 <= p < q < |a1.bombs| ensures a1.bombs[p].x != a1.bombs[q].x || a1.bombs[p].y != a1.bombs[q].y {
        assert a1.bombs[p].x == a.bombs[p].x && a1.bombs[p].y == a.bombs[p].y;
        assert a1.bombs[q].x == a.bombs[q].x && a1.bombs[q].y == a.bombs[q].y;
      }
    }
    ChainCellsOfFuse(a.grid, a.bombs[i], b.timer, Rays);
    ExplodeChains(a1, i, loot, j);
  }

  /**
   * Chaining downward fires in the same update. When the loop reaches bomb
   * i and its fuse runs out, a lower bomb j on its chain cells gets fuse
   * zero, explodes when the loop reaches it, and no bomb is left on its
   * cell when the loop ends.
   */
  lemma ChainDownwardFires(a: Arena, i: nat, j: nat, dt: int, loot: (int, int) -> Roll)
    requires WellSized(a.grid) && UniqueCells(a.bombs) && dt >= 0 && j < i < |a.bombs|
    requires a.bombs[i].timer - dt <= 0
    requires (a.bombs[j].x, a.bombs[j].y) in ChainCellsOf(a.grid, a.bombs[i], Rays)
    ensures var r := Burn(a, i + 1, dt, loot).bombs;
      forall k :: 0 <= k < |r| ==> r[k].x != a.bombs[j].x || r[k].y != a.bombs[j].y
  {
    var v := Visit(a, i, dt, loot);
    VisitChains(a, i, dt, loot, j);
    VisitOrder(a, i, dt, loot);
    var m :| Embeds(v.bombs, a.bombs, m);
    EmbedsUnique(v.bombs, a.bombs, m);
    BurnClears(v, i, dt, loot, j);
    assert Burn(a, i + 1, dt, loot) == Burn(v, i, dt, loot);
  }

  /**
   * Chaining upward waits for the next update. When the loop reaches bomb i
   * and its fuse runs out, a higher bomb j on its chain cells, which the loop
   * has passed already, gets fuse zero and stays on the field until the
   * loop ends.
   */
  lemma ChainUpwardWaits(a: Arena, i: nat, j: nat, dt: int, loot: (int, int) -> Roll)
    requires WellSized(a.grid) && UniqueCells(a.bombs) && i < j < |a.bombs|
    requires a.bombs[i].timer - dt <= 0
    requires (a.bombs[j].x, a.bombs[j].y) in ChainCellsOf(a.grid, a.bombs[i], Rays)
    ensures a.bombs[j].(timer := 0) in Burn(a, i + 1, dt, loot).bombs
  {
    var v := Visit(a, i, dt, loot);
    VisitChains(a, i, dt, loot, j);
    BurnAbove(v, i, dt, loot);
    var r := Burn(v, i, dt, loot).bombs;
    assert r[|r| - |v.bombs| + (j - 1)] == a.bombs[j].(timer := 0);
    assert Burn(a, i + 1, dt, loot) == Burn(v, i, dt, loot);
  }

  /** Cell c is out of bomb b's reach: neither b's own cell nor one of the cells within range along a direction. */
  predicate OutOfReach(b: Bomb, c: Cell) {
    && c != (b.x, b.y)
    && forall dir: Dir, k :: 1 <= k <= b.range ==> StepCell(b.x, b.y, dir, k) != c
  }

  /** Whatever the grid, a chain cell of bomb b is within its reach. */
  lemma {:induction false} ChainCellsNear(g: Grid, b: Bomb, dirs: seq<Dir>, c: Cell)
    requires WellSized(g) && c in ChainCellsOf(g, b, dirs)
    ensures !OutOfReach(b, c)
    decreases |dirs|
  {
    var dir := dirs[|dirs| - 1];
    if c in ChainCellsOf(g, b, dirs[..|dirs| - 1]) {
      ChainCellsNear(g, b, dirs[..|dirs| - 1], c);
    } else {
      var s := SpanOf(g, b, dir);
      ScanLimits(g, b.x, b.y, dir, FirstStep(dir), LastStep(dir, b.range));
      var cs := RayCells(b.x, b.y, dir, FirstStep(dir), Unbroken(s));
      assert c in cs;
      var q :| 0 <= q < |cs| && cs[q] == c;
      assert c == StepCell(b.x, b.y, dir, FirstStep(dir) + q);
    }
  }

  /** No other bomb of bs has the cell of bomb p within its reach. */
  ghost predicate Isolated(bs: seq<Bomb>, p: nat) {
    && p < |bs|
    && forall q :: 0 <= q < |bs| && q != p ==> OutOfReach(bs[q], (bs[p].x, bs[p].y))
  }

  /** When bomb i goes off, an isolated bomb p is not chained: the explosion leaves it as it was. */
  lemma FireSpares(a: Arena, i: nat, dt: int, loot: (int, int) -> Roll, p: nat)
    requires WellSized(a.grid) && UniqueCells(a.bombs) && i < |a.bombs| && Isolated(a.bombs, p) && i != p
    requires a.bombs[i].timer - dt <= 0
    ensures var v := Visit(a, i, dt, loot).bombs; |v| == |a.bombs| - 1 && v[if p > i then p - 1 else p] == a.bombs[p]
  {
    var t := a.bombs[i].timer - dt;
    var a1 := a.(bombs := a.bombs[i := a.bombs[i].(timer := t)]);
    assert UniqueCells(a1.bombs) by {
      forall x, y | 0 <= x < y < |a1.bombs| ensures a1.bombs[x].x != a1.bombs[y].x || a1.bombs[x].y != a1.bombs[y].y {
        assert a1.bombs[x].x == a.bombs[x].x && a1.bombs[x].y == a.bombs[x].y;
        assert a1.bombs[y].x == a.bombs[y].x && a1.bombs[y].y == a.bombs[y].y;
      }
    }
    ChainCellsOfFuse(a.grid, a.bombs[i], t, Rays);
    if (a.bombs[p].x, a.bombs[p].y) in ChainCellsOf(a.grid, a.bombs[i], Rays) {
      ChainCellsNear(a.grid, a.bombs[i], Rays, (a.bombs[p].x, a.bombs[p].y));
    }
    ExplodeChains(a1, i, loot, p);
  }

  /** A turn of the loop at another bomb leaves an isolated bomb as it was, at its index shifted past a removal. */
  lemma VisitSpares(a: Arena, i: nat, dt: int, loot: (int, int) -> Roll, p: nat)
    requires WellSized(a.grid) && UniqueCells(a.bombs) && i < |a.bombs| && Isolated(a.bombs, p) && i != p
    ensures var v := Visit(a, i, dt, loot).bombs;
      var p' := if a.bombs[i].timer - dt <= 0 && p > i then p - 1 else p;
      p' < |v| && v[p'] == a.bombs[p] && Isolated(v, p') && UniqueCells(v)
  {
    var v := Visit(a, i, dt, loot).bombs;
    var t := a.bombs[i].timer - dt;
    var p' := if t <= 0 && p > i then p - 1 else p;
    VisitEffect(a, i, dt, loot);
    VisitOrder(a, i, dt, loot);
    var m :| Embeds(v, a.bombs, m);
    EmbedsUnique(v, a.bombs, m);
    if t <= 0 {
      FireSpares(a, i, dt, loot, p);
      forall q | 0 <= q < |v| && q != p' ensures OutOfReach(v[q], (v[p'].x, v[p'].y)) {
        var o := if q < i then q else q + 1;
        assert v[q] == a.bombs[o] || v[q] == a.bombs[o].(timer := 0);
      }
    } else {
      forall q | 0 <= q < |v| && q != p' ensures OutOfReach(v[q], (v[p'].x, v[p'].y)) {
        assert v[q].x == a.bombs[q].x && v[q].y == a.bombs[q].y && v[q].range == a.bombs[q].range;
      }
    }
  }

  /**
   * An isolated bomb that the loop from bomb n - 1 down may reach keeps
   * burning: it is still on the field afterwards, with its fuse less dt when
   * the loop reached it, and as it was otherwise.
   */
  lemma {:induction false} BurnSpares(a: Arena, n: nat, dt: int, loot: (int, int) -> Roll, p: nat)
    requires WellSized(a.grid) && n <= |a.bombs| && UniqueCells(a.bombs) && Isolated(a.bombs, p)
    requires p < n ==> a.bombs[p].timer - dt > 0
    ensures (if p < n then a.bombs[p].(timer := a.bombs[p].timer - dt) else a.bombs[p]) in Burn(a, n, dt, loot).bombs
    decreases n
  {
    if n == 0 {
      assert a.bombs[p] in a.bombs;
    } else {
      var i := n - 1;
      var v := Visit(a, i, dt, loot);
      assert Burn(a, n, dt, loot) == Burn(v, i, dt, loot);
      if i == p {
        var b := a.bombs[p].(timer := a.bombs[p].timer - dt);
        VisitEffect(a, i, dt, loot);
        assert v.bombs == a.bombs[p := b];
        assert UniqueCells(v.bombs) by {
          forall x, y | 0 <= x < y < |v.bombs| ensures v.bombs[x].x != v.bombs[y].x || v.bombs[x].y != v.bombs[y].y {
            assert v.bombs[x].x == a.bombs[x].x && v.bombs[x].y == a.bombs[x].y;
            assert v.bombs[y].x == a.bombs[y].x && v.bombs[y].y == a.bombs[y].y;
          }
        }
        assert Isolated(v.bombs, p) by {
          forall q | 0 <= q < |v.bombs| && q != p ensures OutOfReach(v.bombs[q], (v.bombs[p].x, v.bombs[p].y)) {
            assert v.bombs[q] == a.bombs[q];
          }
        }
        BurnSpares(v, i, dt, loot, p);
      } else {
        VisitSpares(a, i, dt, loot, p);
        var p' := if a.bombs[i].timer - dt <= 0 && p > i then p - 1 else p;
        assert p' < i <==> p < n;
        BurnSpares(v, i, dt, loot, p');
      }
    }
  }

  /**
   * The other direction of the fuse loop: a bomb whose fuse does not run out
   * and that no other bomb has within reach survives the whole loop, its
   * fuse less dt.
   */
  lemma BurnKeepsUnreached(a: Arena, dt: int, loot: (int, int) -> Roll, j: nat)
    requires WellSized(a.grid) && UniqueCells(a.bombs) && j < |a.bombs|
    requires a.bombs[j].timer - dt > 0
    requires forall i :: 0 <= i < |a.bombs| && i != j ==> OutOfReach(a.bombs[i], (a.bombs[j].x, a.bombs[j].y))
    ensures a.bombs[j].(timer := a.bombs[j].timer - dt) in BurnAll(a, dt, loot).bombs
  {
    BurnSpares(a, |a.bombs|, dt, loot, j);
  }

  /** A ray on open ground burns every step up to its limit. */
  lemma {:induction false} OpenRay(g: Grid, ox: int, oy: int, dir: Dir, d: int, limit: int)
    requires WellSized(g)
    requires forall k :: d <= k <= limit ==> var c := StepCell(ox, oy, dir, k); InBounds(c.0, c.1) && g[c.1][c.0] == Empty
    ensures Scan(g, ox, oy, dir, d, limit) == Span(if d <= limit then limit - d + 1 else 0, false)
    decreases limit - d
  {
    if d <= limit {
      OpenRay(g, ox, oy, dir, d + 1, limit);
    }
  }

  /** The open ground around a bomb: every cell its rays can reach is on the grid and EMPTY. */
  predicate OpenAround(g: Grid, b: Bomb)
    requires WellSized(g)
  {
    forall dir: Dir, k :: 0 <= k <= b.range ==>
      var c := StepCell(b.x, b.y, dir, k); InBounds(c.0, c.1) && g[c.1][c.0] == Empty
  }

  lemma OpenSpan(g: Grid, b: Bomb, dir: Dir)
    requires WellSized(g) && b.range >= 1 && OpenAround(g, b)
    ensures SpanOf(g, b, dir).len == LastStep(dir, b.range) - FirstStep(dir) + 1
  {
    OpenRay(g, b.x, b.y, dir, FirstStep(dir), LastStep(dir, b.range));
  }

  /**
   * On open ground a bomb of range r flames 2 + 4 * r entries, not 1 + 4 * r
   * cells: the bound of ExplodeFlameCount is reached, and the bomb's own
   * cell is among them twice. With r = 2 that is ten entries.
   */
  lemma OpenGround(a: Arena, self: nat, loot: (int, int) -> Roll)
    requires WellSized(a.grid) && self < |a.bombs| && a.bombs[self].range >= 1
    requires OpenAround(a.grid, a.bombs[self])
    ensures |Explode(a, self, loot).explosions| == |a.explosions| + 2 + 4 * a.bombs[self].range
  {
    var b := a.bombs[self];
    ExplodeEffect(a, self, loot);
    FlamesOfRays(a.grid, b);
    OpenSpan(a.grid, b, Center);
    OpenSpan(a.grid, b, Down);
    OpenSpan(a.grid, b, Up);
    OpenSpan(a.grid, b, Right);
    OpenSpan(a.grid, b, Left);
  }
}
