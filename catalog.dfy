/** The static catalog of biome archetypes: `BiomeType` and its six
    concrete kinds, as immutable data. */
module Catalog {

  /** An archetype. `pattern` is the spawning pattern stamped around a
      seed; `areaSize` is the half-width of the square in which other
      seeds are discouraged. The rendering colour is not modelled. */
  datatype BiomeType = BiomeType(
    name: string,
    crossingCost: int,
    spawningChance: int,
    pattern: seq<seq<int>>,
    spreadingChance: int,
    areaSize: int)

  ghost predicate Percent(v: int) {
    0 <= v <= 100
  }

  /** A pattern row: five percentages, mirror-symmetric about its centre. */
  ghost predicate PatternRow(row: seq<int>) {
    |row| == 5
    && Percent(row[0]) && Percent(row[1]) && Percent(row[2]) && Percent(row[3]) && Percent(row[4])
    && row[0] == row[4] && row[1] == row[3]
  }

  /** What every archetype of the catalog satisfies: a 5x5 pattern of
      percentages, mirror-symmetric about its centre row and its centre
      column, with a full-strength centre. */
  ghost predicate WellFormed(t: BiomeType) {
    var p := t.pattern;
    |p| == 5
    && PatternRow(p[0]) && PatternRow(p[1]) && PatternRow(p[2]) && PatternRow(p[3]) && PatternRow(p[4])
    && p[0] == p[4] && p[1] == p[3]
    && p[2][2] == 100
  }

  /** The shape shared by every archetype of the catalog: well formed,
      and with no exclusion square. */
  ghost predicate CatalogShaped(t: BiomeType) {
    WellFormed(t) && t.areaSize == 0
  }

  /** The same facts, entry by entry. */
  lemma {:induction false} WellFormedEntries(t: BiomeType)
    requires WellFormed(t)
    ensures |t.pattern| == 5
    ensures forall i :: 0 <= i < 5 ==> |t.pattern[i]| == 5
    ensures forall i, j :: 0 <= i < 5 && 0 <= j < 5 ==> 0 <= t.pattern[i][j] <= 100
    ensures forall i, j {:trigger t.pattern[i][j]} :: 0 <= i < 5 && 0 <= j < 5 ==>
      t.pattern[i][j] == t.pattern[4 - i][j] && t.pattern[i][j] == t.pattern[i][4 - j]
  {
    var p := t.pattern;
    forall i, j | 0 <= i < 5 && 0 <= j < 5
      ensures 0 <= p[i][j] <= 100 && p[i][j] == p[4 - i][j] && p[i][j] == p[i][4 - j]
    {
      assert PatternRow(p[i]) && PatternRow(p[4 - i]);
    }
  }

  /** The base archetype: only the centre of the pattern is claimed, the
      spreading chance is 100 and the exclusion half-width is 5. */
  function Base(name: string, crossingCost: int, spawningChance: int): (t: BiomeType)
    ensures WellFormed(t)
    ensures forall i :: 0 <= i < 5 ==> t.pattern[i] == if i == 2 then [0, 0, 100, 0, 0] else [0, 0, 0, 0, 0]
    ensures t.spreadingChance == 100 && t.areaSize == 5
    ensures t.name == name && t.crossingCost == crossingCost && t.spawningChance == spawningChance
  {
    BiomeType(name, crossingCost, spawningChance,
              [[0, 0, 0, 0, 0],
               [0, 0, 0, 0, 0],
               [0, 0, 100, 0, 0],
               [0, 0, 0, 0, 0],
               [0, 0, 0, 0, 0]],
              100, 5)
  }

  /** `set_pattern` replaces the pattern and nothing else. */
  function SetPattern(t: BiomeType, pattern: seq<seq<int>>): (u: BiomeType)
    ensures u.pattern == pattern
    ensures u.(pattern := t.pattern) == t
  {
    t.(pattern := pattern)
  }

  function Forest(): (t: BiomeType)
    ensures WellFormed(t) && t.areaSize == 0
  {
    SetPattern(Base("Forest", 2, 60),
               [[100, 80, 70, 80, 100],
                [80, 100, 100, 100, 80],
                [70, 100, 100, 100, 70],
                [80, 100, 100, 100, 80],
                [100, 80, 70, 80, 100]]).(areaSize := 8 * 0)
  }

  function Volcano(): (t: BiomeType)
    ensures WellFormed(t) && t.areaSize == 0
  {
    SetPattern(Base("Volcano", 4, 15),
               [[0, 0, 0, 0, 0],
                [0, 50, 100, 50, 0],
                [0, 100, 100, 100, 0],
                [0, 50, 100, 50, 0],
                [0, 0, 0, 0, 0]]).(areaSize := 4 * 0)
  }

  function Desert(): (t: BiomeType)
    ensures WellFormed(t) && t.areaSize == 0
  {
    SetPattern(Base("Desert", 4, 30),
               [[100, 60, 50, 60, 100],
                [60, 100, 100, 100, 60],
                [50, 100, 100, 100, 50],
                [60, 100, 100, 100, 60],
                [100, 60, 50, 60, 100]]).(areaSize := 4 * 0)
  }

  function Pond(): (t: BiomeType)
    ensures WellFormed(t) && t.areaSize == 0
  {
    SetPattern(Base("Pond", 3, 30),
               [[40, 0, 0, 0, 40],
                [0, 100, 100, 100, 0],
                [0, 100, 100, 100, 0],
                [0, 100, 100, 100, 0],
                [40, 0, 0, 0, 40]]).(areaSize := 3 * 0)
  }

  function Field(): (t: BiomeType)
    ensures WellFormed(t) && t.areaSize == 0
  {
    SetPattern(Base("Field", 1, 100),
               [[100, 100, 100, 100, 100],
                [100, 100, 100, 100, 100],
                [100, 100, 100, 100, 100],
                [100, 100, 100, 100, 100],
                [100, 100, 100, 100, 100]]).(areaSize := 9 * 0)
  }

  function Mountains(): (t: BiomeType)
    ensures WellFormed(t) && t.areaSize == 0
  {
    SetPattern(Base("Mountains", 3, 40),
               [[0, 0, 0, 0, 0],
                [0, 0, 0, 0, 0],
                [100, 100, 100, 100, 100],
                [0, 0, 0, 0, 0],
                [0, 0, 0, 0, 0]]).(areaSize := 3 * 0)
  }

  /** A catalog to draw from: not empty, every archetype shaped like the
      catalog's and with a positive spawning chance. */
  ghost predicate DrawableCatalog(ts: seq<BiomeType>) {
    |ts| > 0 && forall i :: 0 <= i < |ts| ==> CatalogShaped(ts[i]) && ts[i].spawningChance > 0
  }

  /** `TYPES`: the six archetypes, in the order the selection weights use. */
  function Types(): (ts: seq<BiomeType>)
    ensures |ts| == 6 && DrawableCatalog(ts)
    ensures forall i :: 0 <= i < |ts| ==> ts[i].crossingCost > 0
  {
    [Forest(), Volcano(), Desert(), Pond(), Field(), Mountains()]
  }
}
