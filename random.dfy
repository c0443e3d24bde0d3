/** The pseudo-random source the generator draws from, made explicit: a
    fixed stream of raw draws and a count of the draws used so far. The
    generator's only uses of it are `randint`, `random` (through
    `choices`) and `choices`. */
module Rand {
  import opened Basics

  /** Resolution of `random()`: it returns a multiple of 2^-53 in [0, 1). */
  const TwoTo53: nat := 9007199254740992

  /** `randint(lo, hi)` made from the raw draw `stream(k)`. */
  function IntDraw(stream: nat -> nat, k: nat, lo: int, hi: int): (r: int)
    requires lo <= hi
    ensures lo <= r <= hi
  {
    lo + stream(k) % (hi - lo + 1)
  }

  /** `random()` made from the raw draw `stream(k)`. */
  function UnitDraw(stream: nat -> nat, k: nat): (u: real)
    ensures 0.0 <= u < 1.0
  {
    (stream(k) % TwoTo53) as real / TwoTo53 as real
  }

  /** Sum of a sequence of weights, accumulated from the front, as
      `itertools.accumulate` does. */
  function Sum(w: seq<real>): real {
    if w == [] then 0.0 else Sum(w[..|w| - 1]) + w[|w| - 1]
  }

  ghost predicate NonNegative(w: seq<real>) {
    forall i :: 0 <= i < |w| ==> 0.0 <= w[i]
  }

  lemma {:induction false} SumNonNegative(w: seq<real>)
    requires NonNegative(w)
    ensures 0.0 <= Sum(w)
  {
    if w != [] {
      SumNonNegative(w[..|w| - 1]);
    }
  }

  /** With non-negative weights the running sums never decrease. */
  lemma {:induction false} SumMonotone(w: seq<real>, i: nat, j: nat)
    requires NonNegative(w) && i <= j <= |w|
    ensures 0.0 <= Sum(w[..i]) <= Sum(w[..j])
    decreases j - i
  {
    if i < j {
      SumMonotone(w, i, j - 1);
      assert w[..j][..j - 1] == w[..j - 1];
    } else {
      SumNonNegative(w[..i]);
    }
  }

  /** Index `k` owns the target `x`: `x` falls in the k-th weight's
      interval [Sum(w[..k]), Sum(w[..k+1])). */
  ghost predicate Picks(w: seq<real>, x: real, k: nat) {
    k < |w| && Sum(w[..k]) <= x < Sum(w[..k + 1])
  }

  /** With non-negative weights at most one index owns a target, so the
      draw determines the choice. */
  lemma PicksUnique(w: seq<real>, x: real, k1: nat, k2: nat)
    requires NonNegative(w) && Picks(w, x, k1) && Picks(w, x, k2)
    ensures k1 == k2
  {
    if k1 < k2 {
      SumMonotone(w, k1 + 1, k2);
    } else if k2 < k1 {
      SumMonotone(w, k2 + 1, k1);
    }
  }

  /** The draw `u` in [0, 1), scaled by the total weight, falls in the
      k-th weight's interval. */
  ghost predicate DrawHits(w: seq<real>, u: real, k: nat) {
    Picks(w, u * Sum(w), k)
  }

  /** A draw hits at most one index. */
  lemma DrawHitsUnique(w: seq<real>, u: real, k1: nat, k2: nat)
    requires NonNegative(w) && DrawHits(w, u, k1) && DrawHits(w, u, k2)
    ensures k1 == k2
  {
    PicksUnique(w, u * Sum(w), k1, k2);
  }

  /** Non-negative weights that total zero are all zero. */
  lemma SumZeroAllZero(w: seq<real>)
    requires NonNegative(w) && Sum(w) <= 0.0
    ensures forall i :: 0 <= i < |w| ==> w[i] == 0.0
  {
    forall i | 0 <= i < |w| ensures w[i] == 0.0 {
      SumMonotone(w, i, i + 1);
      SumMonotone(w, i + 1, |w|);
      assert w[..i + 1][..i] == w[..i];
      assert w[..|w|] == w;
    }
  }

  /** One positive weight makes the total positive. */
  lemma SumPositive(w: seq<real>, i: nat)
    requires NonNegative(w) && i < |w| && 0.0 < w[i]
    ensures 0.0 < Sum(w)
  {
    SumMonotone(w, i, i + 1);
    SumMonotone(w, i + 1, |w|);
    assert w[..i + 1][..i] == w[..i];
    assert w[..|w|] == w;
  }

  /** A fraction in [0, 1) of a positive total lies below the total. */
  lemma ScaleBelow(u: real, t: real, x: real)
    requires 0.0 <= u < 1.0 && 0.0 < t && x == u * t
    ensures 0.0 <= x < t
  {
    assert 0.0 <= (1.0 - u) * t;
  }

  ghost predicate RunningSums(w: seq<real>, cum: seq<real>) {
    |cum| == |w| && forall j :: 0 <= j < |w| ==> cum[j] == Sum(w[..j + 1])
  }

  lemma RunningSumsMonotone(w: seq<real>, cum: seq<real>)
    requires NonNegative(w) && RunningSums(w, cum)
    ensures forall i, j :: 0 <= i <= j < |cum| ==> cum[i] <= cum[j]
  {
    forall i, j | 0 <= i <= j < |cum| ensures cum[i] <= cum[j] {
      SumMonotone(w, i + 1, j + 1);
    }
  }

  /** The index that bisection finds for a target below the total is one
      whose weight interval contains the target. */
  lemma BisectFindsWeight(w: seq<real>, cum: seq<real>, x: real, k: nat)
    requires NonNegative(w) && RunningSums(w, cum) && 0 < |w|
    requires 0.0 <= x < cum[|w| - 1]
    requires k <= |w| - 1
    requires forall j :: 0 <= j < k ==> cum[j] <= x
    requires forall j :: k <= j < |w| - 1 ==> x < cum[j]
    ensures 0.0 < w[k]
    ensures Sum(w[..k]) <= x < Sum(w[..k + 1])
  {
    if k > 0 {
      assert cum[k - 1] <= x;
    } else {
      assert w[..0] == [];
    }
    assert x < cum[k];
    assert w[..k + 1][..k] == w[..k];
    assert Sum(w[..k + 1]) == Sum(w[..k]) + w[k];
  }

  /** The running sums `list(itertools.accumulate(w))`. */
  method Accumulate(w: seq<real>) returns (cum: seq<real>)
    ensures RunningSums(w, cum)
  {
    cum := [];
    var acc := 0.0;
    for i := 0 to |w|
      invariant |cum| == i && acc == Sum(w[..i])
      invariant forall j :: 0 <= j < i ==> cum[j] == Sum(w[..j + 1])
    {
      assert w[..i + 1][..i] == w[..i];
      acc := acc + w[i];
      cum := cum + [acc];
    }
  }

  /** `bisect.bisect_right(a, x, 0, hi)` on a non-decreasing `a`: the
      first index below `hi` whose element exceeds `x`, or `hi`. */
  method BisectRight(a: seq<real>, x: real, hi: nat) returns (k: nat)
    requires hi <= |a|
    requires forall i, j :: 0 <= i <= j < |a| ==> a[i] <= a[j]
    ensures k <= hi
    ensures forall j :: 0 <= j < k ==> a[j] <= x
    ensures forall j :: k <= j < hi ==> x < a[j]
  {
    var lo, h := 0, hi;
    while lo < h
      invariant 0 <= lo <= h <= hi
      invariant forall j :: 0 <= j < lo ==> a[j] <= x
      invariant forall j :: h <= j < hi ==> x < a[j]
    {
      var mid := (lo + h) / 2;
      if x < a[mid] {
        h := mid;
      } else {
        lo := mid + 1;
      }
    }
    k := lo;
  }

  class Random {
    /** The raw draws, in the order they are consumed. */
    const stream: nat -> nat
    /** How many raw draws have been consumed. */
    var used: nat

    constructor (stream: nat -> nat)
      ensures this.stream == stream && used == 0
    {
      this.stream := stream;
      used := 0;
    }

    /** `random.randint(lo, hi)`: one draw, an integer in [lo, hi]. */
    method RandInt(lo: int, hi: int) returns (r: int)
      requires lo <= hi
      modifies this
      ensures r == IntDraw(stream, old(used), lo, hi) && used == old(used) + 1
    {
      r := IntDraw(stream, used, lo, hi);
      used := used + 1;
    }

    /** `random.random()`: one draw, a real in [0, 1). */
    method Uniform() returns (u: real)
      modifies this
      ensures u == UnitDraw(stream, old(used)) && used == old(used) + 1
    {
      u := UnitDraw(stream, used);
      used := used + 1;
    }

    /** `random.choices(population, weights)[0]`, returning the index of
        the chosen element. It fails (None) where Python raises: on an
        empty population (`cum_weights[-1]`) and when the weights total
        zero. Otherwise it makes one draw `u` and returns the index that
        `Picks` the target `u * total`, found by bisection over the running
        sums; that weight is positive. */
    method Choices(weights: seq<real>) returns (r: Option<nat>)
      requires NonNegative(weights)
      modifies this
      ensures r.None? <==> Sum(weights) <= 0.0
      ensures r.None? ==> used == old(used)
      ensures r.Some? ==>
        && used == old(used) + 1
        && DrawHits(weights, UnitDraw(stream, old(used)), r.value)
        && 0.0 < weights[r.value]
    {
      var n := |weights|;
      if n == 0 {
        return None;
      }
      var cum := Accumulate(weights);
      assert weights[..n] == weights;
      var total := cum[n - 1];
      if total <= 0.0 {
        return None;
      }
      var u := Uniform();
      var x := u * total;
      ScaleBelow(u, total, x);
      RunningSumsMonotone(weights, cum);
      var k := BisectRight(cum, x, n - 1);
      BisectFindsWeight(weights, cum, x, k);
      r := Some(k);
    }
  }
}
