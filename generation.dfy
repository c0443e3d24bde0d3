/** World generation (`init`): seed the biomes one by one, then grow
    them in synchronous spread steps until every tile is claimed, keeping
    each biome's frontier equal to the tiles it owns. */
module Generation {
  import opened Basics
  import opened Catalog
  import opened Rand
  import opened Grid
  import opened Biomes

  // ---------------------------------------------------------------------
  // The world invariant

  /** The biomes are numbered by their position. Only a constant field
      is involved, so this holds in every state. */
  ghost predicate Ids(biomes: seq<Biome>) {
    forall j :: 0 <= j < |biomes| ==> biomes[j].id == j
  }

  /** Different ids mean different objects, so comparing ids is the
      biome comparison of world/biomes.py:226 and 291, which on objects
      without their own equality is identity. */
  lemma IdsDistinct(biomes: seq<Biome>, i: nat, j: nat)
    requires Ids(biomes) && i < |biomes| && j < |biomes| && i != j
    ensures biomes[i] != biomes[j]
  {
    assert biomes[i].id == i && biomes[j].id == j;
  }

  /** Frontier `f` of biome `j` lists each position at most once, lists
      only claimed in-grid tiles, and lists every tile that `j` owns. */
  ghost predicate FrontierSound(grid: array2<Cell>, j: nat, f: seq<Pos>)
    reads grid
  {
    && NoDup(f)
    && (forall i :: 0 <= i < |f| ==> Inside(grid, f[i]) && grid[f[i].0, f[i].1].owner.Some?)
    && (forall r, c :: 0 <= r < grid.Length0 && 0 <= c < grid.Length1 && grid[r, c].owner == Some(j) ==>
          (r, c) in f)
  }

  /** A sound frontier that lists only tiles `j` owns: exactly its territory. */
  ghost predicate FrontierExact(grid: array2<Cell>, j: nat, f: seq<Pos>)
    reads grid
  {
    FrontierSound(grid, j, f) && forall i :: 0 <= i < |f| ==> grid[f[i].0, f[i].1].owner == Some(j)
  }

  /** What holds between the operations of `init`. */
  ghost predicate WorldInv(grid: array2<Cell>, biomes: seq<Biome>)
    reads grid, biomes
  {
    && Ids(biomes)
    && StrengthsInRange(grid)
    && OwnersBelow(grid, |biomes|)
    && (forall j :: 0 <= j < |biomes| ==> FrontierSound(grid, j, biomes[j].frontier))
  }

  /** An exact frontier is a duplicate-free listing of the biome's tiles. */
  lemma ExactCount(grid: array2<Cell>, j: nat, f: seq<Pos>)
    requires FrontierExact(grid, j, f)
    ensures Elements(f) == OwnedBy(grid, j)
    ensures |f| == |OwnedBy(grid, j)|
  {
    forall q | q in OwnedBy(grid, j) ensures q in Elements(f) {
      var r, c :| q == (r, c) && 0 <= r < grid.Length0 && 0 <= c < grid.Length1 && grid[r, c].owner == Some(j);
    }
    forall q | q in Elements(f) ensures q in OwnedBy(grid, j) {
      var i :| 0 <= i < |f| && f[i] == q;
    }
    NoDupCardinality(f);
  }

  // ---------------------------------------------------------------------
  // Seeding

  /** The selection weights of a catalog: each archetype's spawning chance. */
  function SpawnWeights(types: seq<BiomeType>): (w: seq<real>)
    requires DrawableCatalog(types)
    ensures |w| == |types|
    ensures forall i :: 0 <= i < |w| ==> w[i] == types[i].spawningChance as real && 0.0 < w[i]
  {
    seq(|types|, i requires 0 <= i < |types| => types[i].spawningChance as real)
  }

  /** The archetype of `types` that a draw `u` picks: the one whose
      interval of the weighted catalog holds `u` times the total weight. */
  ghost predicate DrawPicks(u: real, types: seq<BiomeType>, t: BiomeType)
    requires DrawableCatalog(types)
  {
    exists k :: 0 <= k < |types| && t == types[k] && PickedAt(u, types, k)
  }

  /** The draw `u` falls in the interval of the k-th archetype. */
  ghost predicate PickedAt(u: real, types: seq<BiomeType>, k: nat)
    requires DrawableCatalog(types)
  {
    DrawHits(SpawnWeights(types), u, k)
  }

  /** `get_random_biome()` over the catalog `types`: one weighted draw
      picks the archetype whose interval holds the draw; the new biome has
      an empty frontier. It cannot fail, the weights being positive. */
  method GetRandomBiome(types: seq<BiomeType>, rng: Random, id: nat) returns (b: Biome)
    requires DrawableCatalog(types)
    modifies rng
    ensures fresh(b) && b.id == id && b.frontier == [] && b.kind in types && CatalogShaped(b.kind)
    ensures rng.used == old(rng.used) + 1
    ensures DrawPicks(UnitDraw(rng.stream, old(rng.used)), types, b.kind)
  {
    var weights := SpawnWeights(types);
    SumPositive(weights, 0);
    var choice := rng.Choices(weights);
    var k := choice.value;
    assert PickedAt(UnitDraw(rng.stream, old(rng.used)), types, k);
    b := new Biome(types[k], id);
  }

  /** The draw determines the archetype: at most one archetype is picked
      by a given draw. */
  lemma DrawPicksUnique(u: real, types: seq<BiomeType>, t1: BiomeType, t2: BiomeType)
    requires DrawableCatalog(types) && DrawPicks(u, types, t1) && DrawPicks(u, types, t2)
    ensures t1 == t2
  {
    var k1 :| 0 <= k1 < |types| && t1 == types[k1] && PickedAt(u, types, k1);
    var k2 :| 0 <= k2 < |types| && t2 == types[k2] && PickedAt(u, types, k2);
    DrawHitsUnique(SpawnWeights(types), u, k1, k2);
  }

  /** The weights of the tile draw: the strengths of the listed tiles. */
  function SeedWeights(grid: array2<Cell>, e: seq<Pos>): (w: seq<real>)
    requires forall i :: 0 <= i < |e| ==> Inside(grid, e[i])
    reads grid
    ensures |w| == |e|
    ensures forall i :: 0 <= i < |e| ==> Inside(grid, e[i]) && w[i] == grid[e[i].0, e[i].1].strength
    ensures StrengthsInRange(grid) ==> NonNegative(w)
  {
    seq(|e|, i requires 0 <= i < |e| && Inside(grid, e[i]) reads grid => grid[e[i].0, e[i].1].strength)
  }

  /** The draw `u` picks tile `p`: `p` sits at the index that `u` hits in
      the row-major listing of the unclaimed tiles, weighted by their
      strengths. */
  ghost predicate SeedDrawn(grid: array2<Cell>, u: real, p: Pos)
    reads grid
  {
    exists e: seq<Pos>, i: nat :: UnclaimedListing(grid, e) && i < |e| && e[i] == p
      && DrawHits(SeedWeights(grid, e), u, i)
  }

  /** The draw determines the seed tile. */
  lemma SeedDrawnUnique(grid: array2<Cell>, u: real, p1: Pos, p2: Pos)
    requires StrengthsInRange(grid)
    requires SeedDrawn(grid, u, p1) && SeedDrawn(grid, u, p2)
    ensures p1 == p2
  {
    var e1: seq<Pos>, i1: nat :| UnclaimedListing(grid, e1) && i1 < |e1| && e1[i1] == p1
      && DrawHits(SeedWeights(grid, e1), u, i1);
    var e2: seq<Pos>, i2: nat :| UnclaimedListing(grid, e2) && i2 < |e2| && e2[i2] == p2
      && DrawHits(SeedWeights(grid, e2), u, i2);
    UnclaimedListingUnique(grid, e1, e2);
    DrawHitsUnique(SeedWeights(grid, e1), u, i1, i2);
  }

  /** The tile draw of the seeding loop, `random.choices` over the
      unclaimed positions weighted by their strengths. It fails (None)
      where Python raises: when no unclaimed tile has a positive strength
      (no unclaimed tile at all, or all of them at strength 0). Otherwise
      the tile is the one the draw picks. */
  method ChooseSeedTile(grid: array2<Cell>, rng: Random) returns (p: Option<Pos>)
    requires StrengthsInRange(grid)
    modifies rng
    ensures p.None? <==> forall r, c :: 0 <= r < grid.Length0 && 0 <= c < grid.Length1 && grid[r, c].owner.None? ==>
      grid[r, c].strength <= 0.0
    ensures p.None? ==> rng.used == old(rng.used)
    ensures p.Some? ==>
      && rng.used == old(rng.used) + 1
      && Inside(grid, p.value) && grid[p.value.0, p.value.1].owner.None?
      && 0.0 < grid[p.value.0, p.value.1].strength
      && SeedDrawn(grid, UnitDraw(rng.stream, old(rng.used)), p.value)
  {
    var empty := GetEmptyTilesPos(grid);
    var weights := SeedWeights(grid, empty);
    var choice := rng.Choices(weights);
    if choice.None? {
      SumZeroAllZero(weights);
      forall r, c | 0 <= r < grid.Length0 && 0 <= c < grid.Length1 && grid[r, c].owner.None?
        ensures grid[r, c].strength <= 0.0
      {
        var i :| 0 <= i < |empty| && empty[i] == (r, c);
        assert weights[i] == grid[r, c].strength;
      }
      return None;
    }
    p := Some(empty[choice.value]);
    assert UnclaimedListing(grid, empty);
  }

  /** The two draws of a seeding round: the biome, then its tile. */
  method DrawSeed(grid: array2<Cell>, id: nat, types: seq<BiomeType>, rng: Random)
    returns (b: Biome, tile: Option<Pos>)
    requires StrengthsInRange(grid) && DrawableCatalog(types)
    modifies rng
    ensures fresh(b) && b.id == id && b.frontier == [] && b.kind in types && CatalogShaped(b.kind)
    ensures DrawPicks(UnitDraw(rng.stream, old(rng.used)), types, b.kind)
    ensures tile.None? <==> forall r, c :: 0 <= r < grid.Length0 && 0 <= c < grid.Length1 && grid[r, c].owner.None? ==>
      grid[r, c].strength <= 0.0
    ensures tile.Some? ==>
      && Inside(grid, tile.value) && grid[tile.value.0, tile.value.1].owner.None?
      && 0.0 < grid[tile.value.0, tile.value.1].strength
      && SeedDrawn(grid, UnitDraw(rng.stream, old(rng.used) + 1), tile.value)
    ensures rng.used == old(rng.used) + (if tile.Some? then 2 else 1)
  {
    b := GetRandomBiome(types, rng, id);
    tile := ChooseSeedTile(grid, rng);
  }

  /** One round of the seeding loop: draw a biome, draw a tile for it,
      and spawn the biome there. It fails (None) when the tile draw
      fails, leaving the grid as it was. */
  method PlaceSeed(grid: array2<Cell>, biomes: seq<Biome>, types: seq<BiomeType>, rng: Random)
    returns (seed: Option<(Biome, Pos)>)
    requires WorldInv(grid, biomes) && DrawableCatalog(types)
    modifies grid, rng
    ensures seed.None? ==> forall r, c :: 0 <= r < grid.Length0 && 0 <= c < grid.Length1 ==>
      grid[r, c] == old(grid[r, c]) && (grid[r, c].owner.None? ==> grid[r, c].strength <= 0.0)
    ensures seed.Some? ==>
      var b := seed.value.0; var p := seed.value.1;
      && fresh(b) && b.id == |biomes| && b.kind in types && CatalogShaped(b.kind)
      && DrawPicks(UnitDraw(rng.stream, old(rng.used)), types, b.kind)
      && Inside(grid, p) && old(grid[p.0, p.1]).owner.None? && 0.0 < old(grid[p.0, p.1]).strength
      && (forall r, c :: 0 <= r < grid.Length0 && 0 <= c < grid.Length1 ==>
            grid[r, c] == Spawned(old(grid[r, c]), b.id, b.kind, p.1, p.0, r, c))
      && b.frontier == StampPositions(grid, b.kind.pattern, p.1, p.0)
      && WorldInv(grid, biomes + [b])
      && (forall r, c :: 0 <= r < grid.Length0 && 0 <= c < grid.Length1 && grid[r, c].owner.None? ==>
            grid[r, c] == old(grid[r, c]))
    ensures seed.Some? ==> var p := seed.value.1; old(SeedDrawn(grid, UnitDraw(rng.stream, rng.used + 1), p))
    ensures rng.used == old(rng.used) + (if seed.Some? then 2 else 1)
  {
    var spawning, tile := DrawSeed(grid, |biomes|, types, rng);
    if tile.None? {
      return None;
    }
    var y, x := tile.value.0, tile.value.1;
    SpawnSeed(grid, biomes, spawning, x, y);
    seed := Some((spawning, tile.value));
  }

  /** `spawn` of a fresh catalog biome numbered after the others: on top
      of what `Spawn` promises, the world invariant now holds over the
      extended list and no unclaimed tile changed. */
  method SpawnSeed(grid: array2<Cell>, biomes: seq<Biome>, b: Biome, x: int, y: int)
    requires WorldInv(grid, biomes)
    requires b.id == |biomes| && CatalogShaped(b.kind) && b.frontier == [] && b !in biomes
    modifies grid, b
    ensures Stampable(b.kind.pattern)
    ensures forall r, c :: 0 <= r < grid.Length0 && 0 <= c < grid.Length1 ==>
      grid[r, c] == Spawned(old(grid[r, c]), b.id, b.kind, x, y, r, c)
    ensures b.frontier == StampPositions(grid, b.kind.pattern, x, y)
    ensures WorldInv(grid, biomes + [b])
    ensures forall r, c :: 0 <= r < grid.Length0 && 0 <= c < grid.Length1 && grid[r, c].owner.None? ==>
      grid[r, c] == old(grid[r, c])
  {
    CatalogStampable(b.kind);
    Spawn(grid, b, x, y);
    var all := biomes + [b];
    var id := b.id;
    StampPositionsExact(grid, b.kind.pattern, x, y);
    forall r, c | 0 <= r < grid.Length0 && 0 <= c < grid.Length1
      ensures 0.0 <= grid[r, c].strength <= 100.0
      ensures grid[r, c].owner.Some? ==> grid[r, c].owner.value < |all|
      ensures old(grid[r, c]).owner.Some? ==> grid[r, c].owner.Some?
      ensures grid[r, c].owner != old(grid[r, c]).owner ==> grid[r, c].owner == Some(id)
      ensures grid[r, c].owner == Some(id) ==> PatternAt(b.kind.pattern, x, y, r, c) > 0
      ensures grid[r, c].owner.None? ==> grid[r, c] == old(grid[r, c])
    {
      SpawnKeepsClaims(old(grid[r, c]), id, b.kind, x, y, r, c);
      CatalogSpawnIsStamp(old(grid[r, c]), id, b.kind, x, y, r, c);
      if PatternAt(b.kind.pattern, x, y, r, c) > 0 {
        SpawnStampsPattern(old(grid[r, c]), id, b.kind, x, y, r, c);
      } else {
        SpawnOutsideStamp(old(grid[r, c]), id, b.kind, x, y, r, c);
      }
    }
    assert Ids(all);
    forall j | 0 <= j < |all| ensures FrontierSound(grid, j, all[j].frontier) {
      if j < |biomes| {
        assert all[j] == biomes[j];
        assert old(FrontierSound(grid, j, biomes[j].frontier));
      } else {
        assert all[j] == b;
      }
    }
  }

  // ---------------------------------------------------------------------
  // One spread step

  /** Some orthogonal neighbour of (r, c) is listed in `f`. */
  ghost predicate Near(r: int, c: int, f: seq<Pos>) {
    (r - 1, c) in f || (r + 1, c) in f || (r, c - 1) in f || (r, c + 1) in f
  }

  /** Each of the four orthogonal neighbours (tr, tc) of a listed
      position (row, col) is near the list. */
  lemma NeighbourIsNear(row: int, col: int, tr: int, tc: int, f: seq<Pos>)
    requires (row, col) in f
    requires (tr == row && (tc == col + 1 || tc == col - 1)) || (tc == col && (tr == row + 1 || tr == row - 1))
    ensures Near(tr, tc, f)
  {
    if tr == row + 1 {
      assert (tr - 1, tc) == (row, col);
    } else if tr == row - 1 {
      assert (tr + 1, tc) == (row, col);
    } else if tc == col + 1 {
      assert (tr, tc - 1) == (row, col);
    } else {
      assert (tr, tc + 1) == (row, col);
    }
  }

  /** Part-way through a spread step from `grid` into its copy `next`,
      with `gens` the frontiers as the step found them: the world
      invariant holds on `next`, every frontier extends its snapshot,
      no claimed tile of `grid` changed owner, and every tile that
      changed is now owned by a biome one of whose snapshot positions
      is next to it. */
  ghost predicate StepInv(grid: array2<Cell>, next: array2<Cell>, biomes: seq<Biome>, gens: seq<seq<Pos>>)
    reads grid, next, biomes
  {
    && next.Length0 == grid.Length0 && next.Length1 == grid.Length1
    && |gens| == |biomes|
    && WorldInv(next, biomes)
    && (forall j :: 0 <= j < |biomes| ==> gens[j] <= biomes[j].frontier)
    && (forall r, c :: 0 <= r < grid.Length0 && 0 <= c < grid.Length1 && grid[r, c].owner.Some? ==>
          next[r, c].owner == grid[r, c].owner)
    && (forall r, c :: 0 <= r < grid.Length0 && 0 <= c < grid.Length1 && next[r, c] != grid[r, c] ==>
          next[r, c].owner.Some? && next[r, c].owner.value < |gens| && Near(r, c, gens[next[r, c].owner.value]))
  }

  /** A `spread` by biome `k` onto (row, col) of `next` keeps the world
      invariant on `next`: it changes only that tile, never takes a tile
      from its owner, gives a tile it changes to `k`, and only extends
      `k`'s frontier. */
  method SpreadKeepingWorld(next: array2<Cell>, biomes: seq<Biome>, k: nat,
                            row: int, col: int, chance: real, rng: Random)
    requires WorldInv(next, biomes) && k < |biomes|
    requires 0 <= row < next.Length0 && 0 <= col < next.Length1 && 0.0 <= chance <= 100.0
    modifies next, biomes[k], rng
    ensures WorldInv(next, biomes)
    ensures old(next[row, col]).owner.Some? ==> next[row, col].owner == old(next[row, col]).owner
    ensures next[row, col] != old(next[row, col]) ==> next[row, col].owner == Some(k)
    ensures forall r, c :: 0 <= r < next.Length0 && 0 <= c < next.Length1 && (r, c) != (row, col) ==>
      next[r, c] == old(next[r, c])
    ensures old(biomes[k].frontier) <= biomes[k].frontier
  {
    var b := biomes[k];
    ghost var before := next[row, col];
    ghost var claimRoll := IntDraw(rng.stream, rng.used, 1, 100);
    ghost var strengthRoll := IntDraw(rng.stream, rng.used + 1, 80, 100);
    ghost var claims := Claims(before, chance, claimRoll);
    assert claims ==> (row, col) !in b.frontier by {
      assert FrontierSound(next, k, b.frontier);
    }
    forall j | 0 <= j < |biomes| && j != k ensures biomes[j] != b {
      IdsDistinct(biomes, j, k);
    }
    Spread(next, row, col, b, chance, rng);
    SpreadKeepsOwner(before, k, chance, claimRoll, strengthRoll);
    SpreadKeepsRange(before, k, chance, claimRoll, strengthRoll);
    assert next[row, col] == SpreadRule(before, k, chance, claimRoll, strengthRoll);
    assert StrengthsInRange(next);
    assert OwnersBelow(next, |biomes|);
    forall j | 0 <= j < |biomes| ensures FrontierSound(next, j, biomes[j].frontier) {
      assert old(FrontierSound(next, j, biomes[j].frontier));
      if j == k && claims {
        NoDupConcat(old(b.frontier), [(row, col)]);
      }
    }
  }

  /** One `spread` call of the step, by biome `k` onto (row, col), which
      neighbours one of `k`'s snapshot positions. */
  method SpreadInStep(grid: array2<Cell>, next: array2<Cell>, biomes: seq<Biome>, k: nat,
                      row: int, col: int, chance: real, rng: Random, ghost gens: seq<seq<Pos>>)
    requires StepInv(grid, next, biomes, gens) && next != grid
    requires k < |biomes| && 0 <= row < next.Length0 && 0 <= col < next.Length1
    requires 0.0 <= chance <= 100.0 && Near(row, col, gens[k])
    modifies next, biomes[k], rng
    ensures StepInv(grid, next, biomes, gens)
  {
    forall j | 0 <= j < |biomes| && j != k ensures biomes[j] != biomes[k] {
      IdsDistinct(biomes, j, k);
    }
    SpreadKeepingWorld(next, biomes, k, row, col, chance, rng);
  }

  /** One guarded `spread` call of the step: biome `k`, from its
      generator (row, col), onto the neighbour (row + dr, col + dc),
      guarded by the one-sided bound test of that direction. */
  method SpreadToward(grid: array2<Cell>, next: array2<Cell>, biomes: seq<Biome>, k: nat,
                      row: int, col: int, dr: int, dc: int, chance: real, rng: Random,
                      ghost gens: seq<seq<Pos>>)
    requires StepInv(grid, next, biomes, gens) && next != grid
    requires k < |biomes| && (row, col) in gens[k] && Inside(grid, (row, col))
    requires (dr == 0 && (dc == 1 || dc == -1)) || (dc == 0 && (dr == 1 || dr == -1))
    requires 0.0 <= chance <= 100.0
    modifies next, biomes[k], rng
    ensures StepInv(grid, next, biomes, gens)
  {
    var targetRow, targetCol := row + dr, col + dc;
    if BoundTest(grid, row, col, dr, dc) {
      NeighbourInGrid(grid, row, col, dr, dc);
      NeighbourIsNear(row, col, targetRow, targetCol, gens[k]);
      SpreadInStep(grid, next, biomes, k, targetRow, targetCol, chance, rng, gens);
    }
  }

  /** `[row.copy() for row in grid]`: a fresh grid with the same tiles. */
  method CopyGrid(grid: array2<Cell>) returns (copy: array2<Cell>)
    ensures fresh(copy) && copy.Length0 == grid.Length0 && copy.Length1 == grid.Length1
    ensures forall r, c :: 0 <= r < grid.Length0 && 0 <= c < grid.Length1 ==> copy[r, c] == grid[r, c]
  {
    copy := new Cell[grid.Length0, grid.Length1]((r, c) requires 0 <= r < grid.Length0 && 0 <= c < grid.Length1
                                                  reads grid => grid[r, c]);
  }

  /** A copy of a grid satisfying the world invariant starts a step. */
  lemma StepStarts(grid: array2<Cell>, next: array2<Cell>, biomes: seq<Biome>, gens: seq<seq<Pos>>)
    requires WorldInv(grid, biomes)
    requires next.Length0 == grid.Length0 && next.Length1 == grid.Length1
    requires forall r, c :: 0 <= r < grid.Length0 && 0 <= c < grid.Length1 ==> next[r, c] == grid[r, c]
    requires |gens| == |biomes| && forall j :: 0 <= j < |biomes| ==> gens[j] == biomes[j].frontier
    ensures StepInv(grid, next, biomes, gens)
    ensures forall j, i :: 0 <= j < |gens| && 0 <= i < |gens[j]| ==> Inside(grid, gens[j][i])
  {
    forall j | 0 <= j < |biomes| ensures FrontierSound(next, j, biomes[j].frontier) {
      assert FrontierSound(grid, j, biomes[j].frontier);
    }
    forall j, i | 0 <= j < |gens| && 0 <= i < |gens[j]| ensures Inside(grid, gens[j][i]) {
      assert FrontierSound(grid, j, biomes[j].frontier);
    }
  }

  /** The body of the step's inner loop for generator (row, col) of
      biome `k`: the four guarded `spread` calls, up, down, left, right,
      each with the generator's strength in the old grid as chance. */
  method SpreadAround(grid: array2<Cell>, next: array2<Cell>, biomes: seq<Biome>, k: nat,
                      row: int, col: int, rng: Random, ghost gens: seq<seq<Pos>>)
    requires StepInv(grid, next, biomes, gens) && next != grid && StrengthsInRange(grid)
    requires next.Length0 == grid.Length0 && next.Length1 == grid.Length1
    requires k < |biomes| && (row, col) in gens[k] && Inside(grid, (row, col))
    modifies next, biomes[k], rng
    ensures StepInv(grid, next, biomes, gens)
  {
    var spreadingValue := grid[row, col].strength;
    assert 0.0 <= spreadingValue <= 100.0;
    SpreadToward(grid, next, biomes, k, row, col, -1, 0, spreadingValue, rng, gens);
    SpreadToward(grid, next, biomes, k, row, col, 1, 0, spreadingValue, rng, gens);
    SpreadToward(grid, next, biomes, k, row, col, 0, -1, spreadingValue, rng, gens);
    SpreadToward(grid, next, biomes, k, row, col, 0, 1, spreadingValue, rng, gens);
  }

  /** The spread step of `init`: copy the grid, then let every biome, in
      order, try to spread from every position of its frontier (as the
      step found it) onto its four neighbours. All writes go to the copy,
      all chances are read from the old grid. */
  method SpreadStep(grid: array2<Cell>, biomes: seq<Biome>, rng: Random) returns (next: array2<Cell>)
    requires Ids(biomes) && StrengthsInRange(grid) && OwnersBelow(grid, |biomes|)
    requires forall j :: 0 <= j < |biomes| ==> FrontierSound(grid, j, biomes[j].frontier)
    modifies biomes, rng
    ensures fresh(next) && next.Length0 == grid.Length0 && next.Length1 == grid.Length1
    ensures WorldInv(next, biomes)
    ensures forall j :: 0 <= j < |biomes| ==> old(biomes[j].frontier) <= biomes[j].frontier
    ensures forall r, c :: 0 <= r < grid.Length0 && 0 <= c < grid.Length1 && grid[r, c].owner.Some? ==>
      next[r, c].owner == grid[r, c].owner
    ensures forall r, c :: 0 <= r < grid.Length0 && 0 <= c < grid.Length1 && next[r, c] != grid[r, c] ==>
      && next[r, c].owner.Some?
      && var j := next[r, c].owner.value; j < |biomes| && Near(r, c, old(biomes[j].frontier))
  {
    next := CopyGrid(grid);
    ghost var gens := seq(|biomes|, j requires 0 <= j < |biomes| reads biomes => biomes[j].frontier);
    StepStarts(grid, next, biomes, gens);
    for k := 0 to |biomes|
      invariant StepInv(grid, next, biomes, gens)
      invariant forall j :: k <= j < |biomes| ==> biomes[j].frontier == gens[j]
    {
      forall j | k < j < |biomes| ensures biomes[j] != biomes[k] {
        IdsDistinct(biomes, j, k);
      }
      var generators := biomes[k].frontier;
      for i := 0 to |generators|
        invariant StepInv(grid, next, biomes, gens)
        invariant forall j :: k < j < |biomes| ==> biomes[j].frontier == gens[j]
      {
        var (row, col) := generators[i];
        SpreadAround(grid, next, biomes, k, row, col, rng, gens);
      }
    }
  }

  // ---------------------------------------------------------------------
  // Refreshing the frontiers

  /** Position `p` is a tile of the grid that biome `j` owns. */
  ghost predicate OwnsTile(grid: array2<Cell>, j: nat, p: Pos)
    reads grid
  {
    Inside(grid, p) && grid[p.0, p.1].owner == Some(j)
  }

  /** The positions of `f`, in order, whose tile biome `j` owns. */
  ghost function KeepOwned(grid: array2<Cell>, j: nat, f: seq<Pos>): seq<Pos>
    reads grid
  {
    if f == [] then []
    else
      var last := f[|f| - 1];
      KeepOwned(grid, j, f[..|f| - 1]) + (if OwnsTile(grid, j, last) then [last] else [])
  }

  lemma {:induction false} KeepOwnedFacts(grid: array2<Cell>, j: nat, f: seq<Pos>)
    ensures forall q :: q in KeepOwned(grid, j, f) <==> q in f && OwnsTile(grid, j, q)
    ensures NoDup(f) ==> NoDup(KeepOwned(grid, j, f))
  {
    if f != [] {
      var init := f[..|f| - 1];
      var last := f[|f| - 1];
      KeepOwnedFacts(grid, j, init);
      assert f == init + [last];
      if NoDup(f) {
        assert NoDup(init);
        assert last !in init by {
          forall i | 0 <= i < |init| ensures init[i] != last {
            assert init[i] == f[i];
          }
        }
        NoDupConcat(KeepOwned(grid, j, init), if OwnsTile(grid, j, last) then [last] else []);
      }
    }
  }

  /** Filtering a sound frontier by ownership leaves exactly the biome's
      territory. */
  lemma KeepOwnedExact(grid: array2<Cell>, j: nat, f: seq<Pos>)
    requires FrontierSound(grid, j, f)
    ensures FrontierExact(grid, j, KeepOwned(grid, j, f))
    ensures |KeepOwned(grid, j, f)| == |OwnedBy(grid, j)|
  {
    KeepOwnedFacts(grid, j, f);
    var g := KeepOwned(grid, j, f);
    assert forall i :: 0 <= i < |g| ==> g[i] in g;
    ExactCount(grid, j, g);
  }

  /** The inner loop of the refresh for one biome: the positions of `f`
      whose tile biome `id` owns, in order, and how many they are. */
  method FilterOwned(grid: array2<Cell>, f: seq<Pos>, id: nat) returns (kept: seq<Pos>, count: nat)
    requires forall i :: 0 <= i < |f| ==> Inside(grid, f[i])
    ensures kept == KeepOwned(grid, id, f) && count == |kept|
  {
    kept, count := [], 0;
    for i := 0 to |f|
      invariant kept == KeepOwned(grid, id, f[..i]) && count == |kept|
    {
      assert f[..i + 1][..i] == f[..i];
      var (y, x) := f[i];
      if grid[y, x].owner == Some(id) {
        kept := kept + [(y, x)];
        count := count + 1;
      }
    }
    assert f[..|f|] == f;
  }

  /** The body of the refresh loop for one biome: its frontier keeps
      the positions whose tile it owns, and the count is their number,
      which is the number of tiles it owns. */
  method RefreshOne(grid: array2<Cell>, b: Biome) returns (count: nat)
    requires FrontierSound(grid, b.id, b.frontier)
    modifies b
    ensures b.frontier == KeepOwned(grid, b.id, old(b.frontier))
    ensures FrontierExact(grid, b.id, b.frontier)
    ensures count == |OwnedBy(grid, b.id)|
  {
    var newTuple;
    newTuple, count := FilterOwned(grid, b.frontier, b.id);
    KeepOwnedExact(grid, b.id, b.frontier);
    b.frontier := newTuple;
  }

  /** The state of the refresh loop before biome `k`: the biomes below
      `k` kept the owned part of their frontier as it was (`before`), the
      others are untouched, and `tiles` counts the territory below `k`. */
  ghost predicate RefreshedBelow(grid: array2<Cell>, biomes: seq<Biome>, before: seq<seq<Pos>>, k: nat, tiles: nat)
    reads grid, biomes
  {
    && |before| == |biomes| && k <= |biomes| && Ids(biomes)
    && (forall j :: 0 <= j < |biomes| ==> FrontierSound(grid, j, before[j]))
    && (forall j :: 0 <= j < k ==> biomes[j].frontier == KeepOwned(grid, j, before[j]))
    && (forall j :: k <= j < |biomes| ==> biomes[j].frontier == before[j])
    && tiles == TerritoryTotal(grid, k)
  }

  /** One round of the refresh loop. */
  method RefreshAt(grid: array2<Cell>, biomes: seq<Biome>, ghost before: seq<seq<Pos>>, k: nat, tiles: nat)
    returns (tiles': nat)
    requires k < |biomes| && RefreshedBelow(grid, biomes, before, k, tiles)
    modifies biomes[k]
    ensures RefreshedBelow(grid, biomes, before, k + 1, tiles')
  {
    forall j | 0 <= j < |biomes| && j != k ensures biomes[j] != biomes[k] {
      IdsDistinct(biomes, j, k);
    }
    var count := RefreshOne(grid, biomes[k]);
    tiles' := tiles + count;
  }

  /** The refresh at the end of a step: each biome's frontier keeps, in
      order, the positions whose tile it still owns, which is then exactly
      its territory, and the number kept in total is the number of claimed
      tiles. */
  method RefreshFrontiers(grid: array2<Cell>, biomes: seq<Biome>) returns (tiles: nat)
    requires Ids(biomes) && OwnersBelow(grid, |biomes|)
    requires forall j :: 0 <= j < |biomes| ==> FrontierSound(grid, j, biomes[j].frontier)
    modifies biomes
    ensures forall j :: 0 <= j < |biomes| ==> biomes[j].frontier == KeepOwned(grid, j, old(biomes[j].frontier))
    ensures forall j :: 0 <= j < |biomes| ==> FrontierExact(grid, j, biomes[j].frontier)
    ensures tiles == |Claimed(grid)|
  {
    ghost var before := seq(|biomes|, j requires 0 <= j < |biomes| reads biomes => biomes[j].frontier);
    tiles := 0;
    for k := 0 to |biomes|
      invariant RefreshedBelow(grid, biomes, before, k, tiles)
      invariant forall j :: 0 <= j < |biomes| ==> before[j] == old(biomes[j].frontier)
    {
      tiles := RefreshAt(grid, biomes, before, k, tiles);
    }
    forall j | 0 <= j < |biomes| ensures FrontierExact(grid, j, biomes[j].frontier) {
      KeepOwnedExact(grid, j, before[j]);
    }
    TerritoryTotalCounts(grid, |biomes|);
  }

  // ---------------------------------------------------------------------
  // init

  /** How `init` ends: every tile claimed; a seed that found no tile
      (`random.choices` raising); the index error on an empty grid with
      no biomes (`len(grid[0])`); or the model's bound on spread steps
      reached. */
  datatype Outcome = Complete | NoSeedTile | EmptyGrid | OutOfFuel

  /** Every unclaimed tile is fully open. */
  ghost predicate UnclaimedOpen(grid: array2<Cell>)
    reads grid
  {
    forall r, c :: 0 <= r < grid.Length0 && 0 <= c < grid.Length1 && grid[r, c].owner.None? ==>
      grid[r, c].strength == 100.0
  }

  /** The map is a DrawableCatalog draw, there is one seed tile per
      biome, and round j's archetype was picked by draw number
      `used + 2 * j` of `stream`. */
  ghost predicate Seeding(bs: seq<Biome>, seeds: seq<Pos>, types: seq<BiomeType>, stream: nat -> nat, used: nat) {
    && DrawableCatalog(types) && |seeds| == |bs|
    && forall j :: 0 <= j < |bs| ==>
         Stampable(bs[j].kind.pattern) && DrawPicks(UnitDraw(stream, used + 2 * j), types, bs[j].kind)
  }

  /** A round that draws a stampable archetype with the next pair of
      draws extends the seeding by one biome. */
  lemma SeedingExtend(bs: seq<Biome>, seeds: seq<Pos>, types: seq<BiomeType>, stream: nat -> nat, used: nat,
                      k: nat, b: Biome, p: Pos)
    requires Seeding(bs, seeds, types, stream, used) && k == used + 2 * |bs|
    requires Stampable(b.kind.pattern) && DrawPicks(UnitDraw(stream, k), types, b.kind)
    ensures Seeding(bs + [b], seeds + [p], types, stream, used)
  {
    forall j | 0 <= j < |bs| + 1
      ensures Stampable((bs + [b])[j].kind.pattern)
      ensures DrawPicks(UnitDraw(stream, used + 2 * j), types, (bs + [b])[j].kind)
    {
      if j < |bs| {
        assert (bs + [b])[j] == bs[j];
      }
    }
  }

  /** Each seed lies on the grid, and each frontier is the stamp of its
      biome's pattern at its seed, which includes the seed tile. */
  ghost predicate Stamps(grid: array2<Cell>, bs: seq<Biome>, seeds: seq<Pos>)
    reads bs
  {
    && |seeds| == |bs|
    && forall j :: 0 <= j < |bs| ==>
         && Inside(grid, seeds[j]) && Stampable(bs[j].kind.pattern)
         && bs[j].frontier == StampPositions(grid, bs[j].kind.pattern, seeds[j].1, seeds[j].0)
         && seeds[j] in bs[j].frontier
  }

  /** A new biome on the grid whose frontier is its stamp extends the stamps. */
  lemma StampsExtend(grid: array2<Cell>, bs: seq<Biome>, seeds: seq<Pos>, b: Biome, p: Pos)
    requires Stamps(grid, bs, seeds) && Inside(grid, p) && Stampable(b.kind.pattern)
    requires b.frontier == StampPositions(grid, b.kind.pattern, p.1, p.0) && p in b.frontier
    ensures Stamps(grid, bs + [b], seeds + [p])
  {
    forall j | 0 <= j < |bs| + 1
      ensures Inside(grid, (seeds + [p])[j]) && Stampable((bs + [b])[j].kind.pattern)
      ensures (bs + [b])[j].frontier ==
        StampPositions(grid, (bs + [b])[j].kind.pattern, (seeds + [p])[j].1, (seeds + [p])[j].0)
      ensures (seeds + [p])[j] in (bs + [b])[j].frontier
    {
      if j < |bs| {
        assert (bs + [b])[j] == bs[j] && (seeds + [p])[j] == seeds[j];
      }
    }
  }

  /** Under the world invariant every seed tile is claimed: it is on its
      biome's frontier, and frontiers list claimed tiles only. */
  lemma SeedsClaimed(grid: array2<Cell>, bs: seq<Biome>, seeds: seq<Pos>)
    requires WorldInv(grid, bs) && Stamps(grid, bs, seeds)
    ensures forall j :: 0 <= j < |seeds| ==> Inside(grid, seeds[j]) && grid[seeds[j].0, seeds[j].1].owner.Some?
  {
    forall j | 0 <= j < |seeds|
      ensures Inside(grid, seeds[j]) && grid[seeds[j].0, seeds[j].1].owner.Some?
    {
      assert seeds[j] in bs[j].frontier && FrontierSound(grid, j, bs[j].frontier);
    }
  }

  /** The seeding loop of `init`: up to `nbBiomes` rounds of `SeedRound`
      on a grid whose unclaimed tiles are all open. It stops early, as
      Python raises, when a tile draw fails, which happens only once every
      tile is claimed (in particular at once on a grid with no rows).
      Each round uses two draws, the failing one a single draw. `seeds`
      are the drawn tiles: every biome's frontier is its stamp at its
      seed, and its archetype was drawn at the start of its round. */
  method SeedBiomes(grid: array2<Cell>, nbBiomes: nat, types: seq<BiomeType>, rng: Random)
    returns (biomes: seq<Biome>, ghost seeds: seq<Pos>)
    requires DrawableCatalog(types) && WorldInv(grid, []) && UnclaimedOpen(grid)
    modifies grid, rng
    ensures |biomes| <= nbBiomes && (|biomes| < nbBiomes ==> AllClaimed(grid))
    ensures grid.Length0 == 0 ==> |biomes| == 0
    ensures forall b :: b in biomes ==> fresh(b) && b.kind in types
    ensures WorldInv(grid, biomes)
    ensures rng.used == old(rng.used) + 2 * |biomes| + (if |biomes| < nbBiomes then 1 else 0)
    ensures Seeding(biomes, seeds, types, rng.stream, old(rng.used))
    ensures Stamps(grid, biomes, seeds)
  {
    ghost var used := rng.used;
    biomes, seeds := [], [];
    for s := 0 to nbBiomes
      invariant |biomes| == s && forall b :: b in biomes ==> fresh(b) && b.kind in types
      invariant WorldInv(grid, biomes) && UnclaimedOpen(grid)
      invariant grid.Length0 > 0 || s == 0
      invariant rng.used == used + 2 * s
      invariant Seeding(biomes, seeds, types, rng.stream, used)
      invariant Stamps(grid, biomes, seeds)
    {
      ghost var k := rng.used;
      var seed := SeedRound(grid, biomes, types, rng);
      if seed.None? {
        return;
      }
      var b := seed.value.0;
      ghost var p := seed.value.1;
      SeedingExtend(biomes, seeds, types, rng.stream, used, k, b, p);
      StampsExtend(grid, biomes, seeds, b, p);
      biomes, seeds := biomes + [b], seeds + [p];
    }
  }

  /** A round of `PlaceSeed` as the seeding loop sees it: on a grid whose
      unclaimed tiles are open, a failed round means every tile is
      claimed and changes nothing; a successful one stamps the biome of
      the first draw at the unclaimed tile of the second, which becomes
      (biome, 100), and keeps the unclaimed tiles open. */
  method SeedRound(grid: array2<Cell>, biomes: seq<Biome>, types: seq<BiomeType>, rng: Random)
    returns (seed: Option<(Biome, Pos)>)
    requires DrawableCatalog(types) && WorldInv(grid, biomes) && UnclaimedOpen(grid)
    modifies grid, rng
    ensures seed.None? ==> AllClaimed(grid) && WorldInv(grid, biomes)
    ensures seed.None? ==> forall r, c :: 0 <= r < grid.Length0 && 0 <= c < grid.Length1 ==>
      grid[r, c] == old(grid[r, c])
    ensures seed.Some? ==>
      var b := seed.value.0; var p := seed.value.1;
      && fresh(b) && b.id == |biomes| && b.kind in types && Stampable(b.kind.pattern)
      && DrawPicks(UnitDraw(rng.stream, old(rng.used)), types, b.kind)
      && Inside(grid, p) && old(grid[p.0, p.1]).owner.None? && grid[p.0, p.1] == Cell(Some(b.id), 100.0)
      && b.frontier == StampPositions(grid, b.kind.pattern, p.1, p.0) && p in b.frontier
      && WorldInv(grid, biomes + [b]) && grid.Length0 > 0
    ensures rng.used == old(rng.used) + (if seed.Some? then 2 else 1)
    ensures UnclaimedOpen(grid)
  {
    seed := PlaceSeed(grid, biomes, types, rng);
    if seed.None? {
      assert AllClaimed(grid);
      return;
    }
    var b, p := seed.value.0, seed.value.1;
    CatalogSpawnCentre(old(grid[p.0, p.1]), b.id, b.kind, p.1, p.0);
    CatalogStampHasCentre(grid, b.kind, p.1, p.0);
  }
  /** The spreading loop of `init`: spread steps, each followed by the
      refresh, until the refresh counts every tile as claimed. The grid
      with no rows raises at the first count; the model also stops, with
      `OutOfFuel`, after `fuel + 1` steps that left a tile unclaimed. */
  method GrowBiomes(grid: array2<Cell>, biomes: seq<Biome>, fuel: nat, rng: Random)
    returns (final: array2<Cell>, outcome: Outcome)
    requires WorldInv(grid, biomes) && (grid.Length0 == 0 ==> |biomes| == 0)
    modifies biomes, rng
    ensures fresh(final) && final.Length0 == grid.Length0 && final.Length1 == grid.Length1
    ensures WorldInv(final, biomes)
    ensures !outcome.NoSeedTile? && (outcome.EmptyGrid? <==> grid.Length0 == 0)
    ensures outcome.Complete? ==> AllClaimed(final)
    ensures outcome.Complete? ==> forall j :: 0 <= j < |biomes| ==> FrontierExact(final, j, biomes[j].frontier)
    ensures outcome.OutOfFuel? ==> !AllClaimed(final)
    ensures forall r, c :: 0 <= r < grid.Length0 && 0 <= c < grid.Length1 && grid[r, c].owner.Some? ==>
      final[r, c].owner == grid[r, c].owner
  {
    final := grid;
    var stop := false;
    var remaining := fuel;
    var stepped := false;
    while !stop
      invariant final.Length0 == grid.Length0 && final.Length1 == grid.Length1
      invariant stepped ==> fresh(final)
      invariant forall r, c :: 0 <= r < grid.Length0 && 0 <= c < grid.Length1 && grid[r, c].owner.Some? ==>
        final[r, c].owner == grid[r, c].owner
      invariant WorldInv(final, biomes)
      invariant stop ==> stepped && grid.Length0 > 0
      invariant stop ==> AllClaimed(final) && forall j :: 0 <= j < |biomes| ==> FrontierExact(final, j, biomes[j].frontier)
      decreases remaining + (if stop then 0 else 1)
    {
      final := SpreadStep(final, biomes, rng);
      stepped := true;
      var tiles := RefreshFrontiers(final, biomes);
      if final.Length0 == 0 {
        outcome := EmptyGrid;
        return;
      }
      ClaimedCount(final);
      if tiles >= final.Length0 * final.Length1 {
        stop := true;
      } else if remaining == 0 {
        outcome := OutOfFuel;
        return;
      } else {
        remaining := remaining - 1;
      }
    }
    outcome := Complete;
  }

  /** `init()` on a map of `width` columns and `height` rows with
      `nbBiomes` seeds drawn from the catalog `types` (the generator's is
      `Types()`, a `DrawableCatalog` by its contract), doing at most `fuel + 1`
      spread steps. `seeds` are the drawn seed tiles, one per biome: each
      is claimed by the seeding and stays claimed through the spreading. */
  method Init(width: nat, height: nat, nbBiomes: nat, types: seq<BiomeType>, fuel: nat, rng: Random)
    returns (biomes: seq<Biome>, grid: array2<Cell>, outcome: Outcome, ghost seeds: seq<Pos>)
    requires DrawableCatalog(types)
    modifies rng
    ensures fresh(grid) && grid.Length0 == height && grid.Length1 == width
    ensures forall b :: b in biomes ==> fresh(b) && b.kind in types
    ensures WorldInv(grid, biomes)
    ensures |biomes| <= nbBiomes
    ensures outcome.NoSeedTile? <==> |biomes| < nbBiomes
    ensures outcome.NoSeedTile? ==> AllClaimed(grid)
    ensures outcome.EmptyGrid? <==> height == 0 && nbBiomes == 0
    ensures outcome.Complete? ==> AllClaimed(grid)
    ensures outcome.Complete? ==> forall j :: 0 <= j < |biomes| ==> FrontierExact(grid, j, biomes[j].frontier)
    ensures outcome.OutOfFuel? ==> !AllClaimed(grid)
    ensures nbBiomes == 0 && height > 0 && width > 0 ==> outcome.OutOfFuel?
    ensures Seeding(biomes, seeds, types, rng.stream, old(rng.used))
    ensures |seeds| == |biomes|
    ensures forall j :: 0 <= j < |biomes| ==> Inside(grid, seeds[j]) && grid[seeds[j].0, seeds[j].1].owner.Some?
    ensures outcome.NoSeedTile? ==> rng.used == old(rng.used) + 2 * |biomes| + 1
    ensures outcome.NoSeedTile? ==> Stamps(grid, biomes, seeds)
  {
    grid := new Cell[height, width]((r, c) => Open);
    biomes, seeds := SeedBiomes(grid, nbBiomes, types, rng);
    if |biomes| < nbBiomes {
      SeedsClaimed(grid, biomes, seeds);
      outcome := NoSeedTile;
      return;
    }
    SeedsClaimed(grid, biomes, seeds);
    grid, outcome := GrowBiomes(grid, biomes, fuel, rng);
    if nbBiomes == 0 && height > 0 && width > 0 {
      // With no biome nobody owns a tile, so the grid is never all claimed.
      assert OwnersBelow(grid, 0) && grid[0, 0].owner.None?;
    }
  }
}
