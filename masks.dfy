/**
 * The regions a set of cells touches together: the OR of the cells' masks.
 * This is what the engine accumulates in each set's `regions_touched`
 * (gamey/src/core/topology/engine.rs).  Each inductive proof below keeps
 * its step in a lemma of its own, away from the recursive call.
 */
module Masks {
  import opened Topology

  /** The regions cell `i` adds to the mask of `group`: its own, if it is a member. */
  function Contribution(regions: seq<RegionMask>, group: set<CellIndex>, i: CellIndex): RegionMask
    requires i < |regions|
  {
    if i in group then regions[i] else 0
  }

  /** The OR of the region masks of the cells of `group` below `n`. */
  function MaskOf(regions: seq<RegionMask>, group: set<CellIndex>, n: nat): RegionMask
    requires n <= |regions|
  {
    if n == 0 then 0
    else Merge(MaskOf(regions, group, n - 1), Contribution(regions, group, n - 1))
  }

  lemma MergeUnit(x: RegionMask)
    ensures Merge(x, x) == x && Merge(x, 0) == x && Merge(0, x) == x
  {
  }

  lemma MergeShuffle(ma: RegionMask, mb: RegionMask, ra: RegionMask, rb: RegionMask, rab: RegionMask)
    requires rab == Merge(ra, rb)
    ensures Merge(Merge(ma, mb), rab) == Merge(Merge(ma, ra), Merge(mb, rb))
  {
  }

  lemma MergeCoversRight(m: RegionMask, x: RegionMask)
    ensures Covers(Merge(m, x), x)
  {
  }

  /** A cell contributes to a union of groups what it contributes to either. */
  lemma ContributionUnion(regions: seq<RegionMask>, a: set<CellIndex>, b: set<CellIndex>, i: CellIndex)
    requires i < |regions|
    ensures Contribution(regions, a + b, i) == Merge(Contribution(regions, a, i), Contribution(regions, b, i))
  {
    MergeUnit(regions[i]);
    MergeUnit(0);
  }

  lemma MaskOfMemberStep(regions: seq<RegionMask>, group: set<CellIndex>, n: nat, d: CellIndex)
    requires 0 < n <= |regions| && d < n && d in group
    requires d < n - 1 ==> Covers(MaskOf(regions, group, n - 1), regions[d])
    ensures Covers(MaskOf(regions, group, n), regions[d])
  {
    if d < n - 1 {
      CoversGrow(MaskOf(regions, group, n - 1), Contribution(regions, group, n - 1), regions[d]);
    } else {
      MergeCoversRight(MaskOf(regions, group, n - 1), regions[d]);
    }
  }

  /** Every member's regions are among the group's regions. */
  lemma {:induction false} MaskOfMember(regions: seq<RegionMask>, group: set<CellIndex>, n: nat, d: CellIndex)
    requires n <= |regions| && d < n && d in group
    ensures Covers(MaskOf(regions, group, n), regions[d])
  {
    if d < n - 1 {
      MaskOfMember(regions, group, n - 1, d);
    }
    MaskOfMemberStep(regions, group, n, d);
  }

  lemma MaskOfUnionStep(regions: seq<RegionMask>, a: set<CellIndex>, b: set<CellIndex>, n: nat)
    requires 0 < n <= |regions|
    requires MaskOf(regions, a + b, n - 1) == Merge(MaskOf(regions, a, n - 1), MaskOf(regions, b, n - 1))
    ensures MaskOf(regions, a + b, n) == Merge(MaskOf(regions, a, n), MaskOf(regions, b, n))
  {
    var i := n - 1;
    ContributionUnion(regions, a, b, i);
    MergeShuffle(MaskOf(regions, a, i), MaskOf(regions, b, i),
      Contribution(regions, a, i), Contribution(regions, b, i), Contribution(regions, a + b, i));
  }

  /** The mask of a union of groups is the OR of their masks. */
  lemma {:induction false} MaskOfUnion(regions: seq<RegionMask>, a: set<CellIndex>, b: set<CellIndex>, n: nat)
    requires n <= |regions|
    ensures MaskOf(regions, a + b, n) == Merge(MaskOf(regions, a, n), MaskOf(regions, b, n))
  {
    if n > 0 {
      MaskOfUnion(regions, a, b, n - 1);
      MaskOfUnionStep(regions, a, b, n);
    } else {
      MergeUnit(0);
    }
  }

  lemma MaskOfSingletonStep(regions: seq<RegionMask>, c: CellIndex, n: nat)
    requires 0 < n <= |regions|
    requires MaskOf(regions, {c}, n - 1) == if c < n - 1 then regions[c] else 0
    ensures MaskOf(regions, {c}, n) == if c < n then regions[c] else 0
  {
    if c < n - 1 {
      assert Contribution(regions, {c}, n - 1) == 0;
      MergeUnit(regions[c]);
    } else if c == n - 1 {
      MergeUnit(regions[c]);
    } else {
      assert Contribution(regions, {c}, n - 1) == 0;
      MergeUnit(0);
    }
  }

  /** A single cell's group touches exactly that cell's regions. */
  lemma {:induction false} MaskOfSingleton(regions: seq<RegionMask>, c: CellIndex, n: nat)
    requires n <= |regions|
    ensures MaskOf(regions, {c}, n) == if c < n then regions[c] else 0
  {
    if n > 0 {
      MaskOfSingleton(regions, c, n - 1);
      MaskOfSingletonStep(regions, c, n);
    }
  }

  /** Only the cells below `n` count, so groups that agree below `n` have equal masks. */
  lemma {:induction false} MaskOfSame(regions: seq<RegionMask>, a: set<CellIndex>, b: set<CellIndex>, n: nat)
    requires n <= |regions|
    requires forall c :: 0 <= c < n ==> (c in a <==> c in b)
    ensures MaskOf(regions, a, n) == MaskOf(regions, b, n)
  {
    if n > 0 {
      MaskOfSame(regions, a, b, n - 1);
      assert Contribution(regions, a, n - 1) == Contribution(regions, b, n - 1);
    }
  }
}
