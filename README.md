# Biome terrain generation, modelled in Dafny

This project models the biome generator of `world/biomes.py`. The map is a
rectangular grid of tiles. Each tile has an owner (a biome, or none) and a
strength. The generator works in two phases:

- **Seeding.** It places a number of seeds. Each seed is one biome of an
  archetype drawn from a weighted catalog of six (Forest, Volcano, Desert,
  Pond, Field, Mountains). It goes on an unclaimed tile drawn with the tile
  strengths as weights. There it stamps its 5x5 spawning pattern and then
  zeroes the openness of unclaimed tiles in an exclusion square.
- **Spreading.** It then repeats spread steps until every tile is owned:
  - Every biome tries to claim or reinforce the four orthogonal neighbours
    of each position on its frontier. The frontier is
    `generator_tiles_pos_list`.
  - Each attempt uses the source tile's strength, read from the grid as the
    step found it, as its chance.
  - All writes go to a copy of the grid, and the copy is swapped in at the
    end of the step.
  - After each step every frontier is filtered down to the tiles its biome
    still owns, and the kept positions are counted to decide whether to
    stop.

Modules, one file each:

- `Basics` (`basics.dfy`): the option type, `(row, column)` positions and
  duplicate-free sequences.
- `Catalog` (`catalog.dfy`): `BiomeType` and the six archetypes, as
  immutable data.
- `Rand` (`random.dfy`): the random source. It is a class holding a fixed
  stream of raw draws and a count of the draws consumed. It provides
  `randint`, `random` and `random.choices`. `choices` is written out as
  Python does it: running sums, then `bisect_right` on `random() * total`.
- `Grid` (`grid.dfy`): tiles, the grid as an `array2`, `_is_in_grid`,
  `_get_empty_tiles_pos`, and the counting facts the stop test needs.
- `Biomes` (`biomes.dfy`): the `Biome` class and the two in-place grid
  operations, `spawn` and `spread`.
- `Generation` (`generation.dfy`): `init`. This covers:
  - `get_random_biome` and the seed-tile draw;
  - the world invariant;
  - the spread step over the grid copy;
  - the frontier refresh with `tiles_counter`;
  - the outer loop.

Biome identity is Python object identity. Here a biome is identified by its
`id`, which is its index in the sequence of all biomes. The grid's first
dimension is the row, `MAP_SIZE[1]` of them. The second is the column,
`MAP_SIZE[0]` of them.

Behaviours of the code that the model keeps:

- At least one spread step always runs, even when seeding already claimed
  every tile.
- `spread` reads each target tile from the copy it writes
  (world/biomes.py:216, called at 270-282), not from a snapshot of the
  step. A tile claimed earlier in a step therefore blocks later claimants,
  and it can be reinforced in the same step. Only the source strength comes
  from the grid as the step found it (world/biomes.py:266).
- `spawn` does not check ownership, so a later seed can overwrite tiles of
  an earlier one (world/biomes.py:192-195). Until the first refresh, a
  frontier can therefore list tiles that another biome now owns. For this
  reason the world invariant (`Generation.WorldInv`) asks only that every
  frontier be duplicate-free, list claimed tiles and cover its biome's
  tiles. The refresh makes each frontier exactly its biome's territory.
- `tiles_counter` counts the frontier entries that still match the grid.
  It never undercounts, because every claim appends its position to the
  claimant's frontier. After each refresh the counter equals the number of
  claimed tiles (`Generation.RefreshFrontiers`), so the stop test fires
  exactly when every tile is claimed.
- With no seeds on a map that has tiles, no tile is ever claimed, so the
  loop never stops. `Generation.Init` proves that it then ends with
  `OutOfFuel`.
- A seed that finds no tile fails where Python raises: `random.choices` on an
  empty population or on weights that total zero. Seeding then stops with
  outcome `NoSeedTile`. The model proves this happens only when every tile is
  already claimed.
- A map with no rows and no seeds makes Python raise `IndexError` at
  `len(grid[0])` in the stop test. The model ends with `EmptyGrid` in exactly
  that case.

## Model

| member | source | states |
|---|---|---|
| Catalog.Base | world/biomes.py:7-25 | the base archetype is well formed, has only a centre entry of 100 in its pattern, a spreading chance of 100 and an exclusion half-width of 5, and keeps the given name, cost and chance |
| Catalog.SetPattern | world/biomes.py:27-28 | the pattern is replaced and every other field is kept: restoring the old pattern gives back the original archetype |
| Catalog.WellFormedEntries | world/biomes.py:39-45 | a well-formed pattern is 5x5 with entries in [0, 100], mirror-symmetric about its centre row and its centre column |
| Catalog.Forest | world/biomes.py:31-46 | the Forest pattern is well formed (5x5 percentages, symmetric, centre 100) and its exclusion half-width is 0 |
| Catalog.Volcano | world/biomes.py:49-64 | the Volcano pattern is well formed and its exclusion half-width is 0 |
| Catalog.Desert | world/biomes.py:67-82 | the Desert pattern is well formed and its exclusion half-width is 0 |
| Catalog.Pond | world/biomes.py:85-100 | the Pond pattern is well formed and its exclusion half-width is 0 |
| Catalog.Field | world/biomes.py:103-118 | the Field pattern is well formed and its exclusion half-width is 0 |
| Catalog.Mountains | world/biomes.py:121-136 | the Mountains pattern is well formed and its exclusion half-width is 0 |
| Catalog.Types | world/biomes.py:322 | the catalog has six archetypes, all well formed with no exclusion square, with positive spawning chances and positive crossing costs |
| Rand.IntDraw | world/biomes.py:220 | a `randint(lo, hi)` draw lies in [lo, hi] |
| Rand.UnitDraw | world/biomes.py:253 | a `random()` draw lies in [0, 1) |
| Rand.SumNonNegative | world/biomes.py:161-165 | non-negative weights have a non-negative total |
| Rand.SumMonotone | world/biomes.py:161-165 | with non-negative weights the running sums never decrease |
| Rand.PicksUnique | world/biomes.py:161-165 | with non-negative weights at most one index owns a target value, so the choice is determined by the draw |
| Rand.DrawHitsUnique | world/biomes.py:253 | a draw scaled by the total weight hits at most one index |
| Rand.SumZeroAllZero | world/biomes.py:253 | non-negative weights that total zero are all zero |
| Rand.SumPositive | world/biomes.py:161-165 | one positive weight makes the total positive |
| Rand.ScaleBelow | world/biomes.py:253 | `random() * total` lies in [0, total) for a positive total |
| Rand.RunningSumsMonotone | world/biomes.py:161-165 | the accumulated weights are non-decreasing |
| Rand.BisectFindsWeight | world/biomes.py:161-165 | the bisection index has a positive weight whose interval holds the target |
| Rand.Accumulate | world/biomes.py:161-165 | the running sums of the weights, position by position |
| Rand.BisectRight | world/biomes.py:253 | the first index below the bound whose running sum exceeds the target: all before are at most the target, all after exceed it |
| Rand.Random.constructor | world/biomes.py:1 | a fresh source over the given stream with no draws consumed |
| Rand.Random.RandInt | world/biomes.py:220-222 | `randint` returns the next stream draw mapped into [lo, hi] and consumes exactly one draw |
| Rand.Random.Uniform | world/biomes.py:253 | `random()` returns the next draw in [0, 1) and consumes exactly one draw |
| Rand.Random.Choices | world/biomes.py:161-165 | `choices` fails exactly when the weights total zero or less (including no weights) and then consumes nothing; otherwise it consumes one draw and returns the one index whose interval holds the scaled draw, and that weight is positive |
| Grid.IsInGrid | world/biomes.py:318-319 | `_is_in_grid(grid, x, y)`: column x and row y lie within the grid |
| Grid.InGridIffTile | world/biomes.py:318-319 | the test holds exactly for the positions (y, x) of the grid's tiles |
| Grid.NeighbourInGrid | world/biomes.py:268-282 | from an in-grid tile, each direction's one-sided bound test holds exactly when that neighbour is in the grid |
| Grid.RowMajorStrict | world/biomes.py:310-313 | row-major order is irreflexive and asymmetric |
| Grid.SortedHeadFirst | world/biomes.py:310-313 | the first element of a row-major sorted list comes before every other one |
| Grid.SortedUnique | world/biomes.py:307-315 | two row-major sorted lists with the same elements are equal |
| Grid.UnclaimedListingUnique | world/biomes.py:307-315 | the grid determines its row-major listing of unclaimed tiles |
| Grid.GetEmptyTilesPos | world/biomes.py:307-315 | the result lists only unclaimed in-grid tiles, lists every unclaimed tile, and is strictly row-major ordered (so each tile once) |
| Grid.RowCellsCount | world/biomes.py:311 | a row of width w has w positions |
| Grid.CellsSplit | world/biomes.py:310-311 | the positions of h rows are those of the first h-1 rows and, disjointly, those of the last row |
| Grid.CellsCount | world/biomes.py:301 | an h-by-w grid has h * w positions |
| Grid.ClaimedCount | world/biomes.py:301-302 | at most h * w tiles are claimed, and at least h * w are claimed exactly when every tile is |
| Grid.OwnedBelowNext | world/biomes.py:288-297 | the tiles of biomes 0..n split into those of 0..n-1 and those of n |
| Grid.OwnedBelowAll | world/biomes.py:288-297 | when every owner is below n, the tiles of biomes 0..n-1 are all the claimed tiles |
| Grid.TerritoryTotalCounts | world/biomes.py:287-297 | adding up the territory sizes of biomes 0..n-1 counts their tiles once each, and counts every claimed tile when all owners are below n |
| Basics.NoDupConcat | world/biomes.py:156 | appending a new position to a duplicate-free frontier keeps it duplicate-free |
| Basics.NoDupCardinality | world/biomes.py:291-297 | a duplicate-free list has as many entries as distinct elements |
| Biomes.Biome.constructor | world/biomes.py:145-150 | a new biome has the given archetype and id and an empty frontier |
| Biomes.Biome.AddGenerator | world/biomes.py:155-156 | the frontier becomes the old frontier followed by the position |
| Biomes.StampColsFacts | world/biomes.py:186-195 | the positions one pattern row claims are duplicate-free and are exactly its in-grid positions under a positive entry |
| Biomes.StampRowsFacts | world/biomes.py:185-195 | the positions the first n pattern rows claim are duplicate-free and exactly their in-grid positions under a positive entry |
| Biomes.StampPositionsExact | world/biomes.py:183-195 | what `spawn` appends to the frontier is duplicate-free and is exactly the in-grid tiles under a positive pattern entry |
| Biomes.Spawn | world/biomes.py:173-207 | every tile becomes its stamped-then-excluded value, and the frontier grows by the stamped positions in row-major order |
| Biomes.StampPattern | world/biomes.py:183-195 | every in-grid tile under a positive entry of the centred pattern becomes owned by the biome with that entry as strength, every other tile is unchanged, and the claimed positions are appended in row-major order |
| Biomes.ClearArea | world/biomes.py:198-207 | the unclaimed in-grid tiles of the half-open square rows y-a..y+a-1, columns x-a..x+a-1 get strength 0 and stay unclaimed; every other tile is unchanged |
| Biomes.SpawnStampsPattern | world/biomes.py:192-194 | a tile under a positive entry is owned by the new biome with that entry as strength, whatever it held before |
| Biomes.SpawnOutsideStamp | world/biomes.py:198-207 | outside the stamp only unclaimed tiles of the exclusion square change, to unclaimed with strength 0 |
| Biomes.SpawnKeepsClaims | world/biomes.py:173-207 | a spawn never releases a claimed tile, and the only owner it writes is the new biome |
| Biomes.CatalogSpawnIsStamp | world/biomes.py:46 | an archetype with no exclusion square spawns exactly its stamp |
| Biomes.CatalogSpawnCentre | world/biomes.py:189-194 | after a spawn of a catalog archetype at (x, y), tile (y, x) is owned by the new biome with strength 100 |
| Biomes.CatalogStampHasCentre | world/biomes.py:189-195 | the positions a catalog archetype's spawn at an in-grid (x, y) adds to the frontier include (y, x) itself |
| Biomes.CatalogStampable | world/biomes.py:183-187 | a catalog pattern can be stamped and all its values are percentages |
| Biomes.RoundHalfEven | world/biomes.py:227 | Python `round`: within 1/2 of the value, and on a tie the even neighbour |
| Biomes.Spread | world/biomes.py:210-235 | the target tile becomes the spread rule applied under the next draws; one draw tests an unclaimed tile and one more sets the strength on a claim; a claimed position is appended to the frontier; no other tile changes |
| Biomes.ClaimIffDrawBelowChance | world/biomes.py:219-221 | an unclaimed tile is claimed exactly when the claim draw is below the chance, and is otherwise unchanged |
| Biomes.ClaimStrength | world/biomes.py:222-223 | a claimed tile gets a strength between 80% and 100% of the chance |
| Biomes.ReinforcementStep | world/biomes.py:227 | for a chance in [0, 100] the reinforcement step is a whole number in [0, 10] |
| Biomes.Reinforce | world/biomes.py:226-235 | an own tile below 100 keeps its owner and gets min(100, s + round(chance/10)), never above 100 and, for any non-negative chance, never less than before |
| Biomes.LeavesOthersAlone | world/biomes.py:226 | a tile of another biome, or an own tile at 100 or more, is left unchanged |
| Biomes.SpreadKeepsOwner | world/biomes.py:219-235 | the rule never changes an existing owner, a tile it changes belongs to the spreading biome, and it claims exactly the unclaimed tiles it takes |
| Biomes.SpreadKeepsRange | world/biomes.py:219-235 | with strengths and chance in [0, 100], the rule keeps the tile's strength in [0, 100] |
| Generation.IdsDistinct | world/biomes.py:226 | biomes with different numbers are different objects |
| Generation.ExactCount | world/biomes.py:291-297 | an exact frontier lists the biome's tiles, each once, so its length is the territory size |
| Generation.SpawnWeights | world/biomes.py:163 | the archetype weights are the spawning chances, one per archetype, all positive |
| Generation.GetRandomBiome | world/biomes.py:159-170 | one draw, the archetype whose weighted interval holds it, and a new biome with an empty frontier; it cannot fail on the catalog |
| Generation.DrawPicksUnique | world/biomes.py:161-165 | one draw picks at most one archetype |
| Generation.SeedWeights | world/biomes.py:252 | the tile weights, one per listed tile, are non-negative on a grid whose strengths are in range, so `choices` can take them |
| Generation.SeedDrawnUnique | world/biomes.py:250-253 | one draw picks at most one seed tile |
| Generation.ChooseSeedTile | world/biomes.py:250-253 | the draw fails, consuming nothing, exactly when no unclaimed tile has positive strength; otherwise it consumes one draw and returns the tile the draw hits in the row-major listing of unclaimed tiles weighted by strength, which is unclaimed with positive strength |
| Generation.DrawSeed | world/biomes.py:248-253 | the biome draw picks the archetype of the first draw; the tile draw fails exactly when no unclaimed tile has positive strength, and otherwise picks the tile the second draw hits; two draws are consumed on success and one on failure |
| Generation.PlaceSeed | world/biomes.py:248-256 | a failed round leaves the grid unchanged with no positively weighted unclaimed tile; a successful one adds a biome of the drawn archetype, spawned at the drawn tile, with its frontier exactly the stamped positions, keeping the world invariant and every unclaimed tile; the round consumes two draws, or one when the tile draw fails |
| Generation.SpawnSeed | world/biomes.py:255-256 | spawning a fresh catalog biome numbered next keeps the world invariant over the extended list and leaves every unclaimed tile as it was |
| Generation.SeedRound | world/biomes.py:247-256 | on a grid whose unclaimed tiles are open, a failed round leaves the grid unchanged and means every tile is claimed; a successful one adds a fresh catalog biome numbered next, of the archetype the round's first draw picks, at a tile that was unclaimed and now holds (biome, 100), with its frontier exactly the stamp at that tile, which includes the tile; the world invariant holds and unclaimed tiles stay open; the round consumes two draws, or one when it fails |
| Generation.SeedingExtend | world/biomes.py:247-253 | a round whose archetype is picked by the draw after the earlier rounds' two draws each extends the seeding record by one biome |
| Generation.StampsExtend | world/biomes.py:255 | a new biome whose frontier is its stamp at an in-grid seed extends the record of stamps |
| Generation.SeedsClaimed | world/biomes.py:255 | under the world invariant every seed tile of the record is claimed |
| Generation.SeedBiomes | world/biomes.py:247-256 | at most `nbBiomes` seeds are placed, fewer only when every tile is claimed, none on a grid with no rows; exactly two draws per placed seed plus one for a failed round; biome j's archetype is the one picked by the seeding's draw number 2j (counting from 0), its seed tile is on the grid, and its frontier is exactly its stamp at that tile, which includes the tile; the world invariant holds |
| Generation.NeighbourIsNear | world/biomes.py:268-282 | each orthogonal neighbour of a frontier position is next to the frontier |
| Generation.SpreadKeepingWorld | world/biomes.py:270 | one `spread` keeps the world invariant, changes only its target, never takes a tile from its owner, and only extends the spreading biome's frontier |
| Generation.SpreadInStep | world/biomes.py:264-284 | one `spread` on a neighbour of the biome's snapshot frontier keeps the step invariant |
| Generation.SpreadToward | world/biomes.py:268-282 | a `spread` onto one neighbour, guarded by that direction's one-sided bound test, keeps the step invariant |
| Generation.CopyGrid | world/biomes.py:262 | the copy is a fresh grid with the same dimensions and the same tiles |
| Generation.StepStarts | world/biomes.py:262-265 | a copy of a grid holding the world invariant starts a step, and every snapshot position is in the grid |
| Generation.SpreadAround | world/biomes.py:266-282 | the four spreads from one generator, up, down, left, right, with the old grid's strength as chance, keep the step invariant |
| Generation.SpreadStep | world/biomes.py:262-284 | a fresh grid on which the world invariant holds; frontiers only grow; no claimed tile changes owner; every changed tile is owned by a biome with a pre-step frontier position next to it |
| Generation.KeepOwnedFacts | world/biomes.py:291-297 | the filtered frontier holds exactly the positions the biome owns, and stays duplicate-free |
| Generation.KeepOwnedExact | world/biomes.py:287-299 | filtering a sound frontier leaves exactly the biome's territory, so its length is the territory size |
| Generation.FilterOwned | world/biomes.py:291-297 | the loop keeps, in order, the positions whose tile the biome owns, and counts them |
| Generation.RefreshOne | world/biomes.py:289-299 | the frontier becomes its owned positions in order, which is exactly the biome's territory, and the count is its size |
| Generation.RefreshAt | world/biomes.py:288-299 | one more biome refreshed and counted |
| Generation.RefreshFrontiers | world/biomes.py:286-299 | every frontier keeps its owned positions in order and is then exactly its biome's territory; `tiles_counter` equals the number of claimed tiles |
| Generation.GrowBiomes | world/biomes.py:259-302 | the world invariant holds on the final grid; `Complete` means every tile is claimed and every frontier is exactly its territory; the empty-grid error occurs exactly when there are no rows; running out of steps means some tile is unclaimed; a tile claimed before the loop keeps its owner |
| Generation.Init | world/biomes.py:238-304 | a grid of `height` rows and `width` columns; at most `nbBiomes` biomes, all from the catalog; `NoSeedTile` exactly when seeding stopped early, and then every tile is claimed; `EmptyGrid` exactly for no rows and no seeds; `Complete` means every tile is claimed and every frontier is its territory; with no seeds on a map with tiles the run can only end `OutOfFuel`; one seed tile per biome, each on the grid and claimed in the returned grid; biome j's archetype is the one picked by the seeding's draw number 2j; when seeding stopped early, exactly 2·(biomes)+1 draws were used and every frontier is its stamp at its seed |

## Left out

- The Mersenne Twister and the `random` module's distributions. The model
  draws from an abstract stream of raw numbers. `randint` is a raw draw
  taken modulo the range, and `random()` is a raw draw scaled to a multiple
  of 2^-53.
- The `config` module. `MAP_SIZE` and `NB_BIOMES` are parameters of
  `Generation.Init`.
- The unweighted branch of `get_random_biome` (line 168). It indexes an
  archetype, which raises in Python, and `init` never takes it.
- `Biome.add` and `tiles_list`, which are never used, and the archetypes'
  `color`, which is for rendering only.
- The Python return value. `init` returns only the biomes. The model also
  returns the final grid and the outcome, so that its contract can speak of
  them.
- Generation.Init: does not prove that the spreading loop terminates. The
  source loop has no bound. With no seeds on a map that has tiles it never
  stops, and the model proves that such a run can only end `OutOfFuel`.
  With seeds, whether and how soon it stops depends on the draws. The model
  bounds it at `fuel + 1` spread steps, and `OutOfFuel` reports reaching
  that bound with a tile still unclaimed.
- Floating point. Strengths, chances and the scaled draw of `choices` are
  exact reals, and `round` is round-half-even on reals. The rounding error of
  `randint(...) * chance / 100`, of `chance * 10 / 100` and of
  `random() * total` is not modelled.
- Negative map sizes and seed counts. They are `nat` parameters, so a
  negative `MAP_SIZE` or `NB_BIOMES` cannot be expressed.
- Generation.Init: is stated for any catalog satisfying `DrawableCatalog`: not
  empty, every archetype well formed with no exclusion square and a positive
  spawning chance. The generator's own catalog is `Catalog.Types()`, which
  `Catalog.Types` proves to be one.
- Generation.SeedRound: does not restate the new value of every tile or
  which tile the draw selects (`SeedDrawn`). `Generation.PlaceSeed` states
  both for one round. Carrying them into the seeding loop makes its proof
  too large for the verifier's resource limit.
- Generation.SeedBiomes: states each biome's archetype draw, its seed tile
  and its stamp, and the draws used. It does not state the grid as the
  result of all the spawns in turn, or which tile each round's draw
  selects.
- Generation.Init: states that every seed tile is claimed at the end, but
  not by which biome: a spread step takes no tile from its owner, but a
  later seed's stamp can overwrite an earlier seed's tile. It does not
  state how many draws the spreading uses.
- Generation.SpreadStep: states the invariants the step keeps, the growth of
  the frontiers and the locality of every change. It does not state the new
  grid as a function of the old grid and the draws.
