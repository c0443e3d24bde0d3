/** The terrain grid: a fixed-size two-dimensional array of tiles, each
    holding its owner and its strength, with the queries the generator
    makes over it and the facts about counting its tiles. */
module Grid {
  import opened Basics

  /** One tile. `owner` is the id of the biome that claimed it, None
      while it is unclaimed; `strength` is its openness while unclaimed
      and its spreading strength once claimed. */
  datatype Cell = Cell(owner: Option<nat>, strength: real)

  /** The tile every grid starts with: unclaimed, strength 100. */
  const Open: Cell := Cell(None, 100.0)

  /** `_is_in_grid(grid, x, y)`: `x` is the column and `y` the row. */
  predicate IsInGrid(grid: array2<Cell>, x: int, y: int) {
    0 <= y < grid.Length0 && 0 <= x < grid.Length1
  }

  /** The one-sided bound test the spread step makes before spreading
      from (row, col) in direction (dr, dc): up, down, left or right. */
  predicate BoundTest(grid: array2<Cell>, row: int, col: int, dr: int, dc: int) {
    if dr == -1 then row - 1 >= 0
    else if dr == 1 then row + 1 < grid.Length0
    else if dc == -1 then col - 1 >= 0
    else col + 1 < grid.Length1
  }

  /** From an in-grid tile, the one-sided test of a direction holds
      exactly when the neighbour in that direction is in the grid. */
  lemma NeighbourInGrid(grid: array2<Cell>, row: int, col: int, dr: int, dc: int)
    requires IsInGrid(grid, col, row)
    requires (dr == 0 && (dc == 1 || dc == -1)) || (dc == 0 && (dr == 1 || dr == -1))
    ensures BoundTest(grid, row, col, dr, dc) <==> IsInGrid(grid, col + dc, row + dr)
  {
  }

  /** A (row, column) position inside the grid. */
  predicate Inside(grid: array2<Cell>, p: Pos) {
    IsInGrid(grid, p.1, p.0)
  }

  predicate RowMajorBefore(p: Pos, q: Pos) {
    p.0 < q.0 || (p.0 == q.0 && p.1 < q.1)
  }

  ghost predicate StrengthsInRange(grid: array2<Cell>)
    reads grid
  {
    forall r, c :: 0 <= r < grid.Length0 && 0 <= c < grid.Length1 ==>
      0.0 <= grid[r, c].strength <= 100.0
  }

  /** Every owner recorded in the grid is the id of one of `n` biomes. */
  ghost predicate OwnersBelow(grid: array2<Cell>, n: nat)
    reads grid
  {
    forall r, c :: 0 <= r < grid.Length0 && 0 <= c < grid.Length1 && grid[r, c].owner.Some? ==>
      grid[r, c].owner.value < n
  }

  ghost predicate AllClaimed(grid: array2<Cell>)
    reads grid
  {
    forall r, c :: 0 <= r < grid.Length0 && 0 <= c < grid.Length1 ==> grid[r, c].owner.Some?
  }

  /** Order between positions is strict: irreflexive and asymmetric. */
  lemma RowMajorStrict(p: Pos, q: Pos)
    ensures !RowMajorBefore(p, p)
    ensures RowMajorBefore(p, q) ==> !RowMajorBefore(q, p)
  {
  }

  ghost predicate RowMajorSorted(s: seq<Pos>) {
    forall i, j :: 0 <= i < j < |s| ==> RowMajorBefore(s[i], s[j])
  }

  /** `e` lists the unclaimed positions of the grid in row-major order:
      what `_get_empty_tiles_pos` returns. */
  ghost predicate UnclaimedListing(grid: array2<Cell>, e: seq<Pos>)
    reads grid
  {
    && (forall i :: 0 <= i < |e| ==> Inside(grid, e[i]) && grid[e[i].0, e[i].1].owner.None?)
    && (forall r, c :: IsInGrid(grid, c, r) && grid[r, c].owner.None? ==> (r, c) in e)
    && RowMajorSorted(e)
  }

  /** The head of a row-major sorted sequence comes first. */
  lemma SortedHeadFirst(s: seq<Pos>, q: Pos)
    requires RowMajorSorted(s) && q in s
    ensures q == s[0] || RowMajorBefore(s[0], q)
  {
    var i :| 0 <= i < |s| && s[i] == q;
  }

  /** Two row-major sorted sequences with the same elements are equal. */
  lemma {:induction false} SortedUnique(a: seq<Pos>, b: seq<Pos>)
    requires RowMajorSorted(a) && RowMajorSorted(b)
    requires forall q :: q in a <==> q in b
    ensures a == b
    decreases |a|
  {
    assert |b| > 0 ==> b[0] in b;
    if a != [] {
      assert a[0] in b;
      SortedHeadFirst(b, a[0]);
      SortedHeadFirst(a, b[0]);
      RowMajorStrict(a[0], b[0]);
      assert a[0] == b[0];
      forall q ensures q in a[1..] <==> q in b[1..] {
        if q in a[1..] {
          var i :| 1 <= i < |a| && a[i] == q;
          RowMajorStrict(a[0], q);
          assert q in a && q in b;
          var j :| 0 <= j < |b| && b[j] == q;
          assert j > 0 && b[1..][j - 1] == q;
        }
        if q in b[1..] {
          var i :| 1 <= i < |b| && b[i] == q;
          RowMajorStrict(b[0], q);
          assert q in b && q in a;
          var j :| 0 <= j < |a| && a[j] == q;
          assert j > 0 && a[1..][j - 1] == q;
        }
      }
      SortedUnique(a[1..], b[1..]);
      assert a == [a[0]] + a[1..] && b == [b[0]] + b[1..];
    }
  }

  /** The unclaimed positions have one row-major listing, so what
      `_get_empty_tiles_pos` returns is determined by the grid. */
  lemma UnclaimedListingUnique(grid: array2<Cell>, e1: seq<Pos>, e2: seq<Pos>)
    requires UnclaimedListing(grid, e1) && UnclaimedListing(grid, e2)
    ensures e1 == e2
  {
    forall q ensures q in e1 <==> q in e2 {
      if q in e1 {
        var i :| 0 <= i < |e1| && e1[i] == q;
      }
      if q in e2 {
        var i :| 0 <= i < |e2| && e2[i] == q;
      }
    }
    SortedUnique(e1, e2);
  }

  /** `_get_empty_tiles_pos`: the unclaimed positions, in row-major order,
      each exactly once. */
  method GetEmptyTilesPos(grid: array2<Cell>) returns (empty: seq<Pos>)
    ensures forall i :: 0 <= i < |empty| ==>
      Inside(grid, empty[i]) && grid[empty[i].0, empty[i].1].owner.None?
    ensures forall r, c :: IsInGrid(grid, c, r) && grid[r, c].owner.None? ==> (r, c) in empty
    ensures forall i, j :: 0 <= i < j < |empty| ==> RowMajorBefore(empty[i], empty[j])
  {
    empty := [];
    for row := 0 to grid.Length0
      invariant forall i :: 0 <= i < |empty| ==>
        Inside(grid, empty[i]) && grid[empty[i].0, empty[i].1].owner.None? && empty[i].0 < row
      invariant forall r, c :: 0 <= r < row && 0 <= c < grid.Length1 && grid[r, c].owner.None? ==>
        (r, c) in empty
      invariant forall i, j :: 0 <= i < j < |empty| ==> RowMajorBefore(empty[i], empty[j])
    {
      for col := 0 to grid.Length1
        invariant forall i :: 0 <= i < |empty| ==>
          Inside(grid, empty[i]) && grid[empty[i].0, empty[i].1].owner.None?
          && RowMajorBefore(empty[i], (row, col))
        invariant forall r, c :: 0 <= r < row && 0 <= c < grid.Length1 && grid[r, c].owner.None? ==>
          (r, c) in empty
        invariant forall c :: 0 <= c < col && grid[row, c].owner.None? ==> (row, c) in empty
        invariant forall i, j :: 0 <= i < j < |empty| ==> RowMajorBefore(empty[i], empty[j])
      {
        if grid[row, col].owner.None? {
          empty := empty + [(row, col)];
        }
      }
    }
  }

  // Counting tiles.

  ghost function Cells(h: int, w: int): set<Pos> {
    set r, c | 0 <= r < h && 0 <= c < w :: (r, c)
  }

  ghost function RowCells(row: int, w: int): set<Pos> {
    set c | 0 <= c < w :: (row, c)
  }

  /** The positions of the claimed tiles. */
  ghost function Claimed(grid: array2<Cell>): set<Pos>
    reads grid
  {
    set r, c | 0 <= r < grid.Length0 && 0 <= c < grid.Length1 && grid[r, c].owner.Some? :: (r, c)
  }

  /** The positions of the tiles owned by biome `id`. */
  ghost function OwnedBy(grid: array2<Cell>, id: nat): set<Pos>
    reads grid
  {
    set r, c | 0 <= r < grid.Length0 && 0 <= c < grid.Length1 && grid[r, c].owner == Some(id) :: (r, c)
  }

  /** The positions of the tiles owned by one of the biomes 0 .. n-1. */
  ghost function OwnedBelow(grid: array2<Cell>, n: nat): set<Pos>
    reads grid
  {
    set r, c | 0 <= r < grid.Length0 && 0 <= c < grid.Length1 && grid[r, c].owner.Some?
                 && grid[r, c].owner.value < n :: (r, c)
  }

  lemma {:induction false} RowCellsCount(row: int, w: nat)
    ensures |RowCells(row, w)| == w
  {
    if w > 0 {
      RowCellsCount(row, w - 1);
      assert RowCells(row, w) == RowCells(row, w - 1) + {(row, w - 1)};
    }
  }

  /** The positions of an h-by-w grid are those of its first h-1 rows
      and those of its last row. */
  lemma CellsSplit(h: nat, w: nat)
    requires h > 0
    ensures Cells(h, w) == Cells(h - 1, w) + RowCells(h - 1, w)
    ensures Cells(h - 1, w) !! RowCells(h - 1, w)
  {
    forall q | q in Cells(h, w) ensures q in Cells(h - 1, w) + RowCells(h - 1, w) {
      if q.0 < h - 1 { assert q in Cells(h - 1, w); } else { assert q in RowCells(h - 1, w); }
    }
  }

  /** `_is_in_grid(grid, x, y)` holds exactly for the positions (y, x)
      of the grid's tiles. */
  lemma InGridIffTile(grid: array2<Cell>, x: int, y: int)
    ensures IsInGrid(grid, x, y) <==> (y, x) in Cells(grid.Length0, grid.Length1)
  {
  }

  /** An h-by-w grid has h * w positions. */
  lemma {:induction false} CellsCount(h: nat, w: nat)
    ensures |Cells(h, w)| == h * w
  {
    if h > 0 {
      CellsCount(h - 1, w);
      RowCellsCount(h - 1, w);
      CellsSplit(h, w);
      RowsTimesWidth(h, w);
    } else {
      NoRowsNoCells(w);
    }
  }

  lemma RowsTimesWidth(h: nat, w: nat)
    requires h > 0
    ensures (h - 1) * w + w == h * w
  {
  }

  lemma NoRowsNoCells(w: nat)
    ensures Cells(0, w) == {}
  {
  }

  /** The claimed tiles number at most h * w, and exactly h * w of them
      means that every tile is claimed. */
  lemma ClaimedCount(grid: array2<Cell>)
    ensures |Claimed(grid)| <= grid.Length0 * grid.Length1
    ensures |Claimed(grid)| >= grid.Length0 * grid.Length1 <==> AllClaimed(grid)
  {
    var all := Cells(grid.Length0, grid.Length1);
    CellsCount(grid.Length0, grid.Length1);
    assert Claimed(grid) <= all;
    assert |all| == |Claimed(grid)| + |all - Claimed(grid)|;
    if AllClaimed(grid) {
      assert all == Claimed(grid);
    }
    if |Claimed(grid)| >= |all| {
      assert all - Claimed(grid) == {};
      forall r, c | 0 <= r < grid.Length0 && 0 <= c < grid.Length1
        ensures grid[r, c].owner.Some?
      {
        assert (r, c) in all;
      }
    }
  }

  /** The tiles owned by biome `n` are those owned by 0 .. n but not by
      0 .. n-1. */
  lemma OwnedBelowNext(grid: array2<Cell>, n: nat)
    ensures OwnedBelow(grid, n + 1) == OwnedBelow(grid, n) + OwnedBy(grid, n)
    ensures OwnedBelow(grid, n) !! OwnedBy(grid, n)
  {
  }

  /** When every owner is below `n`, the tiles owned by 0 .. n-1 are all
      the claimed tiles. */
  lemma OwnedBelowAll(grid: array2<Cell>, n: nat)
    requires OwnersBelow(grid, n)
    ensures OwnedBelow(grid, n) == Claimed(grid)
  {
  }

  /** The numbers of tiles owned by biomes 0 .. n-1, added up. */
  ghost function TerritoryTotal(grid: array2<Cell>, n: nat): nat
    reads grid
  {
    if n == 0 then 0 else TerritoryTotal(grid, n - 1) + |OwnedBy(grid, n - 1)|
  }

  /** Adding up the territories of biomes 0 .. n-1 counts the tiles they
      own, each once; when every owner is below `n` that is the number
      of claimed tiles. */
  lemma {:induction false} TerritoryTotalCounts(grid: array2<Cell>, n: nat)
    ensures TerritoryTotal(grid, n) == |OwnedBelow(grid, n)|
    ensures OwnersBelow(grid, n) ==> TerritoryTotal(grid, n) == |Claimed(grid)|
  {
    if n > 0 {
      TerritoryTotalCounts(grid, n - 1);
      OwnedBelowNext(grid, n - 1);
    } else {
      assert OwnedBelow(grid, 0) == {};
    }
    if OwnersBelow(grid, n) {
      OwnedBelowAll(grid, n);
    }
  }
}
