/**
 * The board-topology contract the engine is written against
 * (gamey/src/core/topology/mod.rs): cells are natural-number indices,
 * sets of board regions are 32-bit masks.
 */
module Topology {

  /** A cell of the board, identified by its index. */
  type CellIndex = nat

  /** A set of board regions (sides), one bit per region. */
  type RegionMask = bv32

  /**
   * The contract every board shape meets: `total` cells with indices
   * `0 .. total`, one neighbour list and one region mask per cell, and
   * every neighbour a valid index (the engine indexes its vectors with it).
   */
  ghost predicate IsBoardTopology(total: nat, adjacency: seq<seq<CellIndex>>, regions: seq<RegionMask>)
  {
    && |adjacency| == total
    && |regions| == total
    && forall c, n :: 0 <= c < total && n in adjacency[c] ==> n < total
  }

  /** The regions touched by two groups together: the bitwise OR of their masks. */
  function Merge(a: RegionMask, b: RegionMask): RegionMask
  {
    a | b
  }

  /** A group that touches the regions `touched` satisfies `winning`. */
  predicate Covers(touched: RegionMask, winning: RegionMask)
  {
    touched & winning == winning
  }

  /** Touching more regions never loses a win. */
  lemma CoversGrow(touched: RegionMask, more: RegionMask, winning: RegionMask)
    requires Covers(touched, winning)
    ensures Covers(Merge(touched, more), winning)
  {
  }
}
