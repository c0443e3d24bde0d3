/** Biome instances and the two operations that change the grid in place:
    `Spawn` (stamp a seed's pattern, then depress the openness around it)
    and `Spread` (one attempt of a biome to claim or reinforce a tile). */
module Biomes {
  import opened Basics
  import opened Catalog
  import opened Rand
  import opened Grid

  /** A biome instance. Identity is the instance's `id`, which is also its
      index in the sequence of all biomes; `frontier` is the list of
      positions it spreads from (`generator_tiles_pos_list`). */
  class Biome {
    const kind: BiomeType
    const id: nat
    var frontier: seq<Pos>

    constructor (kind: BiomeType, id: nat)
      ensures this.kind == kind && this.id == id && frontier == []
    {
      this.kind := kind;
      this.id := id;
      frontier := [];
    }

    /** `add_generator`: rebinds the frontier to itself plus `p`. */
    method AddGenerator(p: Pos)
      modifies this
      ensures frontier == old(frontier) + [p]
    {
      frontier := frontier + [p];
    }
  }

  // ---------------------------------------------------------------------
  // Spawning

  /** What `spawn` needs of a pattern: a first row, and no row shorter
      than it (every row is read up to the first row's length). */
  ghost predicate Stampable(p: seq<seq<int>>) {
    |p| > 0 && forall i :: 0 <= i < |p| ==> |p[0]| <= |p[i]|
  }

  /** The pattern entry that lands on tile (r, c) when the pattern is
      centred on column x, row y; 0 where no entry lands. */
  function PatternAt(p: seq<seq<int>>, x: int, y: int, r: int, c: int): int
    requires Stampable(p)
  {
    var ir := r - y + |p| / 2;
    var ic := c - x + |p[0]| / 2;
    if 0 <= ir < |p| && 0 <= ic < |p[0]| then p[ir][ic] else 0
  }

  /** The tile after the stamp: claimed with the pattern's value where a
      positive entry lands, untouched elsewhere. */
  function Stamped(cell: Cell, id: nat, p: seq<seq<int>>, x: int, y: int, r: int, c: int): Cell
    requires Stampable(p)
  {
    var v := PatternAt(p, x, y, r, c);
    if v > 0 then Cell(Some(id), v as real) else cell
  }

  /** The half-open exclusion square: rows y-a .. y+a-1, columns x-a .. x+a-1. */
  predicate InExclusion(a: int, x: int, y: int, r: int, c: int) {
    -a <= r - y < a && -a <= c - x < a
  }

  /** The tile after the exclusion step: an unclaimed tile of the square
      gets strength 0; every other tile is untouched. */
  function Excluded(cell: Cell, a: int, x: int, y: int, r: int, c: int): Cell {
    if InExclusion(a, x, y, r, c) && cell.owner.None? then Cell(None, 0.0) else cell
  }

  /** The tile (r, c) after `spawn` of biome `id` of archetype `t` at (x, y). */
  function Spawned(cell: Cell, id: nat, t: BiomeType, x: int, y: int, r: int, c: int): Cell
    requires Stampable(t.pattern)
  {
    Excluded(Stamped(cell, id, t.pattern, x, y, r, c), t.areaSize, x, y, r, c)
  }

  /** The in-grid positions that columns 0 .. n-1 of pattern row `irow`
      claim, left to right. */
  function StampCols(grid: array2<Cell>, p: seq<seq<int>>, x: int, y: int, irow: nat, n: nat): seq<Pos>
    requires Stampable(p) && irow < |p| && n <= |p[0]|
  {
    if n == 0 then []
    else
      var gy := y - |p| / 2 + irow;
      var gx := x - |p[0]| / 2 + (n - 1);
      StampCols(grid, p, x, y, irow, n - 1)
      + (if IsInGrid(grid, gx, gy) && p[irow][n - 1] > 0 then [(gy, gx)] else [])
  }

  /** The in-grid positions that pattern rows 0 .. n-1 claim, in row-major order. */
  function StampRows(grid: array2<Cell>, p: seq<seq<int>>, x: int, y: int, n: nat): seq<Pos>
    requires Stampable(p) && n <= |p|
  {
    if n == 0 then [] else StampRows(grid, p, x, y, n - 1) + StampCols(grid, p, x, y, n - 1, |p[0]|)
  }

  /** What `spawn` appends to the frontier. */
  function StampPositions(grid: array2<Cell>, p: seq<seq<int>>, x: int, y: int): seq<Pos>
    requires Stampable(p)
  {
    StampRows(grid, p, x, y, |p|)
  }

  lemma {:induction false} StampColsFacts(grid: array2<Cell>, p: seq<seq<int>>, x: int, y: int, irow: nat, n: nat)
    requires Stampable(p) && irow < |p| && n <= |p[0]|
    ensures NoDup(StampCols(grid, p, x, y, irow, n))
    ensures forall q :: q in StampCols(grid, p, x, y, irow, n) <==>
      && q.0 == y - |p| / 2 + irow
      && x - |p[0]| / 2 <= q.1 < x - |p[0]| / 2 + n
      && Inside(grid, q) && PatternAt(p, x, y, q.0, q.1) > 0
  {
    if n > 0 {
      StampColsFacts(grid, p, x, y, irow, n - 1);
      var gy := y - |p| / 2 + irow;
      var gx := x - |p[0]| / 2 + (n - 1);
      var tail := if IsInGrid(grid, gx, gy) && p[irow][n - 1] > 0 then [(gy, gx)] else [];
      NoDupConcat(StampCols(grid, p, x, y, irow, n - 1), tail);
    }
  }

  lemma {:induction false} StampRowsFacts(grid: array2<Cell>, p: seq<seq<int>>, x: int, y: int, n: nat)
    requires Stampable(p) && n <= |p|
    ensures NoDup(StampRows(grid, p, x, y, n))
    ensures forall q :: q in StampRows(grid, p, x, y, n) <==>
      && y - |p| / 2 <= q.0 < y - |p| / 2 + n
      && Inside(grid, q) && PatternAt(p, x, y, q.0, q.1) > 0
  {
    if n > 0 {
      var before, row := StampRows(grid, p, x, y, n - 1), StampCols(grid, p, x, y, n - 1, |p[0]|);
      StampRowsFacts(grid, p, x, y, n - 1);
      StampColsFacts(grid, p, x, y, n - 1, |p[0]|);
      forall q | q in before ensures q !in row {
        assert q.0 < y - |p| / 2 + (n - 1);
      }
      NoDupConcat(before, row);
    }
  }

  /** The positions `spawn` appends are exactly the in-grid tiles that a
      positive pattern entry lands on, each listed once. */
  lemma StampPositionsExact(grid: array2<Cell>, p: seq<seq<int>>, x: int, y: int)
    requires Stampable(p)
    ensures NoDup(StampPositions(grid, p, x, y))
    ensures forall q :: q in StampPositions(grid, p, x, y) <==>
      Inside(grid, q) && PatternAt(p, x, y, q.0, q.1) > 0
  {
    StampRowsFacts(grid, p, x, y, |p|);
  }

  /** The stamp restricted to the pattern entries before (nr, nc) in
      row-major order: the state of tile (r, c) part-way through the stamp. */
  function StampedBefore(cell: Cell, id: nat, p: seq<seq<int>>, x: int, y: int, r: int, c: int,
                         nr: int, nc: int): Cell
    requires Stampable(p)
  {
    var ir := r - y + |p| / 2;
    var ic := c - x + |p[0]| / 2;
    if 0 <= ir < |p| && 0 <= ic < |p[0]| && (ir < nr || (ir == nr && ic < nc)) && p[ir][ic] > 0
    then Cell(Some(id), p[ir][ic] as real)
    else cell
  }

  /** The exclusion restricted to the offsets before (nr, nc) in row-major order. */
  function ExcludedBefore(cell: Cell, a: int, x: int, y: int, r: int, c: int, nr: int, nc: int): Cell {
    if InExclusion(a, x, y, r, c) && (r - y < nr || (r - y == nr && c - x < nc)) && cell.owner.None?
    then Cell(None, 0.0)
    else cell
  }

  /** `spawn(grid, biome, x, y)`: every tile becomes `Spawned` of what it
      was, and the frontier grows by the stamped positions in row-major
      order. */
  method Spawn(grid: array2<Cell>, biome: Biome, x: int, y: int)
    requires Stampable(biome.kind.pattern)
    modifies grid, biome
    ensures forall r, c :: 0 <= r < grid.Length0 && 0 <= c < grid.Length1 ==>
      grid[r, c] == Spawned(old(grid[r, c]), biome.id, biome.kind, x, y, r, c)
    ensures biome.frontier == old(biome.frontier) + StampPositions(grid, biome.kind.pattern, x, y)
  {
    StampPattern(grid, biome, x, y);
    ClearArea(grid, biome.kind.areaSize, x, y);
  }

  /** The first half of `spawn`: the pattern, centred on (x, y), claims
      every in-grid tile under a positive entry, row by row, and each
      claimed position is appended to the frontier. */
  method StampPattern(grid: array2<Cell>, biome: Biome, x: int, y: int)
    requires Stampable(biome.kind.pattern)
    modifies grid, biome
    ensures forall r, c :: 0 <= r < grid.Length0 && 0 <= c < grid.Length1 ==>
      grid[r, c] == Stamped(old(grid[r, c]), biome.id, biome.kind.pattern, x, y, r, c)
    ensures biome.frontier == old(biome.frontier) + StampPositions(grid, biome.kind.pattern, x, y)
  {
    var pattern := biome.kind.pattern;
    var midRow, midCol := |pattern| / 2, |pattern[0]| / 2;
    for irow := 0 to |pattern|
      invariant biome.frontier == old(biome.frontier) + StampRows(grid, pattern, x, y, irow)
      invariant forall r, c :: 0 <= r < grid.Length0 && 0 <= c < grid.Length1 ==>
        grid[r, c] == StampedBefore(old(grid[r, c]), biome.id, pattern, x, y, r, c, irow, 0)
    {
      for icol := 0 to |pattern[0]|
        invariant biome.frontier == old(biome.frontier) + StampRows(grid, pattern, x, y, irow)
                                    + StampCols(grid, pattern, x, y, irow, icol)
        invariant forall r, c :: 0 <= r < grid.Length0 && 0 <= c < grid.Length1 ==>
          grid[r, c] == StampedBefore(old(grid[r, c]), biome.id, pattern, x, y, r, c, irow, icol)
      {
        var tilePercent := pattern[irow][icol];
        var gridX := x - midCol + icol;
        var gridY := y - midRow + irow;
        if IsInGrid(grid, gridX, gridY) {
          if tilePercent > 0 {
            grid[gridY, gridX] := Cell(Some(biome.id), tilePercent as real);
            biome.AddGenerator((gridY, gridX));
          }
        }
      }
    }
  }

  /** The second half of `spawn`: every unclaimed in-grid tile of the
      exclusion square of half-width `a` around (x, y) gets strength 0. */
  method ClearArea(grid: array2<Cell>, a: int, x: int, y: int)
    modifies grid
    ensures forall r, c :: 0 <= r < grid.Length0 && 0 <= c < grid.Length1 ==>
      grid[r, c] == Excluded(old(grid[r, c]), a, x, y, r, c)
  {
    var iRow := -a;
    while iRow < a
      invariant forall r, c :: 0 <= r < grid.Length0 && 0 <= c < grid.Length1 ==>
        grid[r, c] == ExcludedBefore(old(grid[r, c]), a, x, y, r, c, iRow, -a)
    {
      var iColumn := -a;
      while iColumn < a
        invariant forall r, c :: 0 <= r < grid.Length0 && 0 <= c < grid.Length1 ==>
          grid[r, c] == ExcludedBefore(old(grid[r, c]), a, x, y, r, c, iRow, iColumn)
      {
        var gridX := x + iColumn;
        var gridY := y + iRow;
        if IsInGrid(grid, gridX, gridY) {
          var tile := grid[gridY, gridX];
          if tile.owner.None? {
            grid[gridY, gridX] := Cell(tile.owner, 0.0);
          }
        }
        iColumn := iColumn + 1;
      }
      iRow := iRow + 1;
    }
  }

  // Properties of a spawn, tile by tile.

  /** A positive pattern entry landing on a tile claims it with that value. */
  lemma SpawnStampsPattern(cell: Cell, id: nat, t: BiomeType, x: int, y: int, r: int, c: int)
    requires Stampable(t.pattern) && PatternAt(t.pattern, x, y, r, c) > 0
    ensures Spawned(cell, id, t, x, y, r, c) == Cell(Some(id), PatternAt(t.pattern, x, y, r, c) as real)
  {
  }

  /** Outside the stamp, only unclaimed tiles of the exclusion square
      change, and they become unclaimed with strength 0. */
  lemma SpawnOutsideStamp(cell: Cell, id: nat, t: BiomeType, x: int, y: int, r: int, c: int)
    requires Stampable(t.pattern) && PatternAt(t.pattern, x, y, r, c) <= 0
    ensures Spawned(cell, id, t, x, y, r, c) ==
      if InExclusion(t.areaSize, x, y, r, c) && cell.owner.None? then Cell(None, 0.0) else cell
  {
  }

  /** A spawn never releases a claimed tile, and the only owner it
      writes is the new biome's. */
  lemma SpawnKeepsClaims(cell: Cell, id: nat, t: BiomeType, x: int, y: int, r: int, c: int)
    requires Stampable(t.pattern)
    ensures cell.owner.Some? ==> Spawned(cell, id, t, x, y, r, c).owner.Some?
    ensures Spawned(cell, id, t, x, y, r, c).owner != cell.owner ==>
      Spawned(cell, id, t, x, y, r, c).owner == Some(id)
  {
  }

  /** An archetype shaped like the catalog's has no exclusion square, so
      its spawn is its stamp. */
  lemma CatalogSpawnIsStamp(cell: Cell, id: nat, t: BiomeType, x: int, y: int, r: int, c: int)
    requires CatalogShaped(t)
    ensures Stampable(t.pattern)
    ensures Spawned(cell, id, t, x, y, r, c) == Stamped(cell, id, t.pattern, x, y, r, c)
  {
    WellFormedEntries(t);
  }

  /** After a spawn of such an archetype at (x, y) the centre tile is
      owned by the new biome at full strength. */
  lemma CatalogSpawnCentre(cell: Cell, id: nat, t: BiomeType, x: int, y: int)
    requires CatalogShaped(t)
    ensures Stampable(t.pattern)
    ensures Spawned(cell, id, t, x, y, y, x) == Cell(Some(id), 100.0)
  {
    WellFormedEntries(t);
  }

  /** The centre tile of a catalog archetype's stamp is part of the stamp. */
  lemma CatalogStampHasCentre(grid: array2<Cell>, t: BiomeType, x: int, y: int)
    requires CatalogShaped(t) && Inside(grid, (y, x))
    ensures Stampable(t.pattern)
    ensures (y, x) in StampPositions(grid, t.pattern, x, y)
  {
    WellFormedEntries(t);
    StampPositionsExact(grid, t.pattern, x, y);
    assert PatternAt(t.pattern, x, y, y, x) == 100;
  }

  /** Patterns of such archetypes are stampable and their values are
      percentages. */
  lemma CatalogStampable(t: BiomeType)
    requires CatalogShaped(t)
    ensures Stampable(t.pattern)
    ensures forall x, y, r, c :: 0 <= PatternAt(t.pattern, x, y, r, c) <= 100
  {
    WellFormedEntries(t);
  }

  // ---------------------------------------------------------------------
  // Spreading

  /** Python's `round` on a real: the nearest integer, ties to the even one. */
  function RoundHalfEven(v: real): (n: int)
    ensures -0.5 <= n as real - v <= 0.5
    ensures (n as real - v == 0.5 || v - n as real == 0.5) ==> n % 2 == 0
  {
    var f := v.Floor;
    var d := v - f as real;
    if d < 0.5 then f
    else if d > 0.5 then f + 1
    else if f % 2 == 0 then f
    else f + 1
  }

  /** The smaller of two reals. */
  function Min(a: real, b: real): real {
    if a <= b then a else b
  }

  /** The reinforcement of an own tile of strength `s` by a source of
      strength `chance`, capped at 100. */
  function Reinforced(s: real, chance: real): real {
    Min(100.0, s + RoundHalfEven(chance * 10.0 / 100.0) as real)
  }

  /** Whether an attempt on `cell` with claim draw `claimRoll` claims it. */
  predicate Claims(cell: Cell, chance: real, claimRoll: int) {
    cell.owner.None? && (claimRoll as real) < chance
  }

  /** The spread rule on one tile, given the attempt's two draws: claim an
      unclaimed tile when the claim draw is below `chance`, reinforce a
      tile of the same biome below 100, and leave any other tile alone. */
  function SpreadRule(cell: Cell, id: nat, chance: real, claimRoll: int, strengthRoll: int): Cell {
    if Claims(cell, chance, claimRoll) then Cell(Some(id), strengthRoll as real * chance / 100.0)
    else if cell.owner == Some(id) && cell.strength < 100.0 then
      Cell(cell.owner, Reinforced(cell.strength, chance))
    else cell
  }

  /** How many draws an attempt on `cell` consumes. */
  function DrawsUsed(cell: Cell, chance: real, claimRoll: int): nat {
    if Claims(cell, chance, claimRoll) then 2 else if cell.owner.None? then 1 else 0
  }

  /** `spread(grid, row, col, biome, chance)`: the tile becomes
      `SpreadRule` of what it was under the next draws of `rng`, one
      draw is consumed to test an unclaimed tile and one more on a
      claim, a claimed position is appended to the frontier, and no
      other tile changes. */
  method Spread(grid: array2<Cell>, row: int, col: int, biome: Biome, chance: real, rng: Random)
    requires 0 <= row < grid.Length0 && 0 <= col < grid.Length1
    modifies grid, biome, rng
    ensures
      var claimRoll := IntDraw(rng.stream, old(rng.used), 1, 100);
      var strengthRoll := IntDraw(rng.stream, old(rng.used) + 1, 80, 100);
      && grid[row, col] == SpreadRule(old(grid[row, col]), biome.id, chance, claimRoll, strengthRoll)
      && rng.used == old(rng.used) + DrawsUsed(old(grid[row, col]), chance, claimRoll)
      && biome.frontier == old(biome.frontier)
           + if Claims(old(grid[row, col]), chance, claimRoll) then [(row, col)] else []
    ensures forall r, c :: 0 <= r < grid.Length0 && 0 <= c < grid.Length1 && (r, c) != (row, col) ==>
      grid[r, c] == old(grid[r, c])
  {
    var tileBiome := grid[row, col].owner;
    var tileSpreadingValue := grid[row, col].strength;
    if tileBiome.None? {
      var rValue := rng.RandInt(1, 100);
      if (rValue as real) < chance {
        var roll := rng.RandInt(80, 100);
        var spreadingValue := roll as real * chance / 100.0;
        grid[row, col] := Cell(Some(biome.id), spreadingValue);
        biome.AddGenerator((row, col));
      }
    } else if tileBiome == Some(biome.id) && tileSpreadingValue < 100.0 {
      tileSpreadingValue := tileSpreadingValue + RoundHalfEven(chance * 10.0 / 100.0) as real;
      if tileSpreadingValue > 100.0 {
        tileSpreadingValue := 100.0;
      }
      grid[row, col] := Cell(tileBiome, tileSpreadingValue);
    }
  }

  // Properties of the spread rule.

  /** On an unclaimed tile the attempt claims it exactly when the claim
      draw is below `chance`; otherwise the tile is unchanged. */
  lemma ClaimIffDrawBelowChance(cell: Cell, id: nat, chance: real, claimRoll: int, strengthRoll: int)
    requires cell.owner.None?
    ensures SpreadRule(cell, id, chance, claimRoll, strengthRoll).owner == Some(id)
            <==> (claimRoll as real) < chance
    ensures !((claimRoll as real) < chance) ==> SpreadRule(cell, id, chance, claimRoll, strengthRoll) == cell
  {
  }

  /** A claimed tile gets between 80% and 100% of the source strength. */
  lemma ClaimStrength(cell: Cell, id: nat, chance: real, claimRoll: int, strengthRoll: int)
    requires cell.owner.None? && 1 <= claimRoll && (claimRoll as real) < chance
    requires 80 <= strengthRoll <= 100
    ensures 0.8 * chance <= SpreadRule(cell, id, chance, claimRoll, strengthRoll).strength <= chance
  {
    var s := strengthRoll as real;
    assert s * chance / 100.0 - 0.8 * chance == (s - 80.0) * chance / 100.0;
    assert chance - s * chance / 100.0 == (100.0 - s) * chance / 100.0;
    assert 0.0 < chance;
    assert 0.0 <= (s - 80.0) * chance;
    assert 0.0 <= (100.0 - s) * chance;
  }

  /** For a source strength in [0, 100] the reinforcement step is a whole
      number in [0, 10]. */
  lemma ReinforcementStep(chance: real)
    requires 0.0 <= chance <= 100.0
    ensures 0 <= RoundHalfEven(chance * 10.0 / 100.0) <= 10
  {
    var n := RoundHalfEven(chance * 10.0 / 100.0);
    assert -0.5 <= n as real - chance / 10.0 <= 0.5;
  }

  /** Reinforcing an own tile below 100 keeps its owner and raises its
      strength by the rounded tenth of `chance`, never above 100 and,
      for a non-negative `chance`, never below where it was. */
  lemma Reinforce(cell: Cell, id: nat, chance: real, claimRoll: int, strengthRoll: int)
    requires cell.owner == Some(id) && cell.strength < 100.0
    requires 0.0 <= chance
    ensures var after := SpreadRule(cell, id, chance, claimRoll, strengthRoll);
      && after.owner == cell.owner
      && cell.strength <= after.strength <= 100.0
      && after.strength == Min(100.0, cell.strength + RoundHalfEven(chance * 10.0 / 100.0) as real)
  {
    var n := RoundHalfEven(chance * 10.0 / 100.0);
    assert -0.5 <= n as real - chance / 10.0;
  }

  /** A tile owned by another biome, or an own tile already at 100 or
      more, is left as it is. */
  lemma LeavesOthersAlone(cell: Cell, id: nat, chance: real, claimRoll: int, strengthRoll: int)
    requires cell.owner.Some? && (cell.owner != Some(id) || cell.strength >= 100.0)
    ensures SpreadRule(cell, id, chance, claimRoll, strengthRoll) == cell
  {
  }

  /** The rule never changes an existing owner, and any tile it changes
      ends up owned by the spreading biome. */
  lemma SpreadKeepsOwner(cell: Cell, id: nat, chance: real, claimRoll: int, strengthRoll: int)
    ensures cell.owner.Some? ==> SpreadRule(cell, id, chance, claimRoll, strengthRoll).owner == cell.owner
    ensures SpreadRule(cell, id, chance, claimRoll, strengthRoll) != cell ==>
      SpreadRule(cell, id, chance, claimRoll, strengthRoll).owner == Some(id)
    ensures Claims(cell, chance, claimRoll) <==>
      cell.owner.None? && SpreadRule(cell, id, chance, claimRoll, strengthRoll).owner.Some?
  {
  }

  /** With a tile, a source and the strength draw in range, the rule
      keeps the tile's strength in [0, 100]. */
  lemma SpreadKeepsRange(cell: Cell, id: nat, chance: real, claimRoll: int, strengthRoll: int)
    requires 0.0 <= cell.strength <= 100.0 && 0.0 <= chance <= 100.0
    requires 1 <= claimRoll && 80 <= strengthRoll <= 100
    ensures 0.0 <= SpreadRule(cell, id, chance, claimRoll, strengthRoll).strength <= 100.0
  {
    if Claims(cell, chance, claimRoll) {
      ClaimStrength(cell, id, chance, claimRoll, strengthRoll);
    } else if cell.owner == Some(id) && cell.strength < 100.0 {
      Reinforce(cell, id, chance, claimRoll, strengthRoll);
    }
  }
}
