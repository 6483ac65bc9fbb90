/**
 * The triangular board (gamey/src/core/topology/triangular.rs): a side-`size`
 * triangle of `size(size+1)/2` cells, each with a precomputed mask of the
 * sides it touches and a precomputed list of neighbour indices.
 */
module Triangular {
  import opened Topology
  import opened Coords

  const SIDE_A: RegionMask := 1  // 1 << 0, the side x = 0
  const SIDE_B: RegionMask := 2  // 1 << 1, the side y = 0
  const SIDE_C: RegionMask := 4  // 1 << 2, the side z = 0

  /** The sides cell `idx` touches, one bit per side and no other bit. */
  function CellRegions(size: nat, idx: nat): (m: RegionMask)
    requires idx < Tri(size)
    ensures (m & SIDE_A != 0) <==> TouchesSideA(FromIndex(idx, size))
    ensures (m & SIDE_B != 0) <==> TouchesSideB(FromIndex(idx, size))
    ensures (m & SIDE_C != 0) <==> TouchesSideC(FromIndex(idx, size))
    ensures m & !(SIDE_A | SIDE_B | SIDE_C) == 0
  {
    Sides(FromIndex(idx, size))
  }

  /** The sides a cell with coordinates `c` lies on, one bit each. */
  function Sides(c: Coordinates): RegionMask
  {
    (if TouchesSideA(c) then SIDE_A else 0)
      | (if TouchesSideB(c) then SIDE_B else 0)
      | (if TouchesSideC(c) then SIDE_C else 0)
  }

  function Dist(a: nat, b: nat): nat
  {
    if a < b then b - a else a - b
  }

  /**
   * Two cells one step apart on the board: the coordinate sum is kept and the
   * coordinates differ by 2 in total (one goes up by 1, another down by 1).
   */
  predicate OneStep(a: Coordinates, b: Coordinates)
  {
    && a.x + a.y + a.z == b.x + b.y + b.z
    && Dist(a.x, b.x) + Dist(a.y, b.y) + Dist(a.z, b.z) == 2
  }

  /** The neighbour coordinates of a cell, in the order the source pushes them. */
  function NeighborCoords(c: Coordinates): (ns: seq<Coordinates>)
    ensures |ns| <= 6
  {
    (if c.x > 0 then [Coordinates(c.x - 1, c.y + 1, c.z), Coordinates(c.x - 1, c.y, c.z + 1)] else [])
      + (if c.y > 0 then [Coordinates(c.x + 1, c.y - 1, c.z), Coordinates(c.x, c.y - 1, c.z + 1)] else [])
      + (if c.z > 0 then [Coordinates(c.x + 1, c.y, c.z - 1), Coordinates(c.x, c.y + 1, c.z - 1)] else [])
  }

  /** The neighbours are exactly the cells one step away. */
  lemma NeighborsAreOneStep(c: Coordinates)
    ensures forall n :: n in NeighborCoords(c) <==> OneStep(c, n)
  {
  }

  /** The neighbour indices of cell `idx`: its neighbour coordinates, numbered. */
  function NeighborIndices(size: nat, idx: nat): (ns: seq<CellIndex>)
    requires idx < Tri(size)
    ensures |ns| == |NeighborCoords(FromIndex(idx, size))|
  {
    var cs := NeighborCoords(FromIndex(idx, size));
    NeighborsAreOneStep(FromIndex(idx, size));
    seq(|cs|, k requires 0 <= k < |cs| => assert cs[k] in cs; ToIndex(cs[k], size))
  }

  /**
   * Each neighbour index names an on-board cell one step away from `idx`, and
   * is therefore in range and different from `idx`.
   */
  lemma NeighborIndexAt(size: nat, idx: nat, k: nat)
    requires idx < Tri(size)
    requires k < |NeighborIndices(size, idx)|
    ensures var n := NeighborIndices(size, idx)[k];
      && n < Tri(size)
      && FromIndex(n, size) == NeighborCoords(FromIndex(idx, size))[k]
      && OneStep(FromIndex(idx, size), FromIndex(n, size))
      && n != idx
  {
    var c := FromIndex(idx, size);
    var nc := NeighborCoords(c)[k];
    FromIndexFacts(idx, size);
    NeighborsAreOneStep(c);
    assert nc in NeighborCoords(c);
    IndexRoundTrip(nc, size);
  }

  /** Adjacency is symmetric: the inverse offset leads back. */
  lemma NeighborsSymmetric(size: nat, c: nat, d: nat)
    requires c < Tri(size)
    requires d in NeighborIndices(size, c)
    ensures d < Tri(size) && c in NeighborIndices(size, d)
  {
    var k :| 0 <= k < |NeighborIndices(size, c)| && NeighborIndices(size, c)[k] == d;
    NeighborIndexAt(size, c, k);
    var cc := FromIndex(c, size);
    var dc := FromIndex(d, size);
    FromIndexFacts(c, size);
    assert OneStep(dc, cc);
    NeighborsAreOneStep(dc);
    assert cc in NeighborCoords(dc);
    var j :| 0 <= j < |NeighborCoords(dc)| && NeighborCoords(dc)[j] == cc;
    assert NeighborIndices(size, d)[j] == ToIndex(cc, size) == c;
  }

  /** The topology value: the side length and the two precomputed tables. */
  datatype TriangularTopology = TriangularTopology(
    size: nat,
    adjacency: seq<seq<CellIndex>>,
    regions: seq<RegionMask>)
  {
    /** The tables hold, for every cell, its neighbours and its sides. */
    ghost predicate Valid()
    {
      && |adjacency| == Tri(size)
      && |regions| == Tri(size)
      && forall idx :: 0 <= idx < Tri(size) ==>
           adjacency[idx] == NeighborIndices(size, idx) && regions[idx] == CellRegions(size, idx)
    }

    function TotalCells(): (n: nat)
      ensures Valid() ==> n == |adjacency| == |regions|
    {
      TriFormula(size);
      (size * (size + 1)) / 2
    }

    /**
     * The neighbours of `cell`, as precomputed: in a valid topology they are
     * the cells adjacent to it on the board (see `GetNeighborsInRange`).
     */
    function GetNeighbors(cell: CellIndex): (ns: seq<CellIndex>)
      requires cell < |adjacency|
      ensures Valid() ==> ns == NeighborIndices(size, cell)
    {
      adjacency[cell]
    }

    /**
     * The sides `cell` touches, as precomputed: in a valid topology they are
     * the sides its coordinates lie on (see `CellRegionsInWinningMask`).
     */
    function GetCellRegions(cell: CellIndex): (m: RegionMask)
      requires cell < |regions|
      ensures Valid() ==> m == CellRegions(size, cell)
    {
      regions[cell]
    }

    /** To win in Y a group must touch all three sides: the mask has the three side bits and no other. */
    function WinningMask(): (m: RegionMask)
      ensures m & SIDE_A != 0 && m & SIDE_B != 0 && m & SIDE_C != 0
      ensures m & !(SIDE_A | SIDE_B | SIDE_C) == 0
    {
      SIDE_A | SIDE_B | SIDE_C
    }
  }

  /** The neighbour list of a cell of a valid topology: at most six cells, all different from it. */
  lemma GetNeighborsInRange(t: TriangularTopology, cell: CellIndex)
    requires t.Valid() && cell < |t.adjacency|
    ensures |t.GetNeighbors(cell)| <= 6
    ensures forall n :: n in t.GetNeighbors(cell) ==> n < t.TotalCells() && n != cell
  {
    NeighborsInRange(t.size, cell);
  }

  /** A cell touches only sides that the winning mask asks for. */
  lemma CellRegionsInWinningMask(t: TriangularTopology, cell: CellIndex)
    requires t.Valid() && cell < |t.regions|
    ensures t.GetCellRegions(cell) & !t.WinningMask() == 0
  {
  }

  lemma NeighborsInRange(size: nat, idx: nat)
    requires idx < Tri(size)
    ensures forall n :: n in NeighborIndices(size, idx) ==> n < Tri(size) && n != idx
  {
    forall n | n in NeighborIndices(size, idx)
      ensures n < Tri(size) && n != idx
    {
      var k :| 0 <= k < |NeighborIndices(size, idx)| && NeighborIndices(size, idx)[k] == n;
      NeighborIndexAt(size, idx, k);
    }
  }

  /**
   * What the game's `get_neighbors` returns for an on-board cell: the
   * neighbour indices of its index, turned back into coordinates, are its
   * neighbour coordinates, in the same order.
   */
  lemma NeighborCellsOf(size: nat, c: Coordinates)
    requires OnBoard(c, size)
    ensures ToIndex(c, size) < Tri(size)
    ensures |NeighborIndices(size, ToIndex(c, size))| == |NeighborCoords(c)|
    ensures forall k :: 0 <= k < |NeighborCoords(c)| ==>
      NeighborIndices(size, ToIndex(c, size))[k] < Tri(size)
      && FromIndex(NeighborIndices(size, ToIndex(c, size))[k], size) == NeighborCoords(c)[k]
  {
    IndexRoundTrip(c, size);
    forall k | 0 <= k < |NeighborCoords(c)|
      ensures NeighborIndices(size, ToIndex(c, size))[k] < Tri(size)
      ensures FromIndex(NeighborIndices(size, ToIndex(c, size))[k], size) == NeighborCoords(c)[k]
    {
      NeighborIndexAt(size, ToIndex(c, size), k);
    }
  }

  /**
   * On a side-5 board an interior cell has six neighbours, a corner two and
   * a cell on a side four, listed in the order the crate pushes them.
   */
  lemma SideFiveNeighbors()
    ensures OnBoard(Coordinates(2, 1, 1), 5) && OnBoard(Coordinates(4, 0, 0), 5) && OnBoard(Coordinates(0, 2, 2), 5)
    ensures NeighborCoords(Coordinates(2, 1, 1)) ==
      [Coordinates(1, 2, 1), Coordinates(1, 1, 2), Coordinates(3, 0, 1),
       Coordinates(2, 0, 2), Coordinates(3, 1, 0), Coordinates(2, 2, 0)]
    ensures NeighborCoords(Coordinates(4, 0, 0)) == [Coordinates(3, 1, 0), Coordinates(3, 0, 1)]
    ensures NeighborCoords(Coordinates(0, 2, 2)) ==
      [Coordinates(1, 1, 2), Coordinates(0, 1, 3), Coordinates(1, 2, 1), Coordinates(0, 3, 1)]
  {
  }

  /** The topology of a side-`size` board, as `TriangularTopology::new` builds it. */
  ghost function Build(size: nat): (t: TriangularTopology)
    ensures t.Valid() && t.size == size
  {
    TriangularTopology(
      size,
      seq(Tri(size), idx requires 0 <= idx < Tri(size) => NeighborIndices(size, idx)),
      seq(Tri(size), idx requires 0 <= idx < Tri(size) => CellRegions(size, idx)))
  }

  /** A valid topology is determined by its size. */
  lemma ValidIsBuild(t: TriangularTopology)
    requires t.Valid()
    ensures t == Build(t.size)
  {
  }

  /** Adjacency of a valid topology is symmetric and irreflexive. */
  ghost predicate SymmetricAdjacency(t: TriangularTopology)
  {
    forall c, d :: 0 <= c < |t.adjacency| && d in t.adjacency[c] ==>
      d < |t.adjacency| && d != c && c in t.adjacency[d]
  }

  lemma ValidSymmetric(t: TriangularTopology)
    requires t.Valid()
    ensures SymmetricAdjacency(t)
  {
    forall c, d | 0 <= c < |t.adjacency| && d in t.adjacency[c]
      ensures d < |t.adjacency| && d != c && c in t.adjacency[d]
    {
      SymmetricAt(t, c, d);
    }
  }

  lemma SymmetricAt(t: TriangularTopology, c: nat, d: nat)
    requires t.Valid() && c < |t.adjacency| && d in t.adjacency[c]
    ensures d < |t.adjacency| && d != c && c in t.adjacency[d]
  {
    assert t.adjacency[c] == NeighborIndices(t.size, c);
    NeighborsSymmetric(t.size, c, d);
    NeighborsInRange(t.size, c);
    assert t.adjacency[d] == NeighborIndices(t.size, d);
  }

  /**
   * What the engine relies on: the board-topology contract, with a
   * symmetric and irreflexive adjacency.
   */
  ghost predicate IsBoard(t: TriangularTopology)
  {
    && IsBoardTopology(t.TotalCells(), t.adjacency, t.regions)
    && SymmetricAdjacency(t)
  }

  lemma ValidIsBoard(t: TriangularTopology)
    requires t.Valid()
    ensures IsBoard(t)
  {
    ValidIsBoardTopology(t);
    ValidSymmetric(t);
  }

  /** A valid triangular topology meets the board-topology contract. */
  lemma ValidIsBoardTopology(t: TriangularTopology)
    requires t.Valid()
    ensures IsBoardTopology(t.TotalCells(), t.adjacency, t.regions)
  {
    forall c, n | 0 <= c < t.TotalCells() && n in t.adjacency[c]
      ensures n < t.TotalCells()
    {
      NeighborsInRange(t.size, c);
    }
  }

  /** The winning mask is the three side bits, so a winner touches all three sides. */
  lemma WinningMaskIsAllSides(t: TriangularTopology, m: RegionMask)
    ensures t.WinningMask() == 7
    ensures Covers(m, t.WinningMask()) <==>
      (m & SIDE_A != 0) && (m & SIDE_B != 0) && (m & SIDE_C != 0)
  {
  }

  /** The neighbour coordinates of a cell, pushed one offset at a time. */
  method PushNeighbors(coords: Coordinates) returns (neighbors: seq<Coordinates>)
    ensures neighbors == NeighborCoords(coords)
  {
    neighbors := [];
    var x, y, z := coords.x, coords.y, coords.z;
    if x > 0 {
      neighbors := neighbors + [Coordinates(x - 1, y + 1, z)];
      neighbors := neighbors + [Coordinates(x - 1, y, z + 1)];
    }
    if y > 0 {
      neighbors := neighbors + [Coordinates(x + 1, y - 1, z)];
      neighbors := neighbors + [Coordinates(x, y - 1, z + 1)];
    }
    if z > 0 {
      neighbors := neighbors + [Coordinates(x + 1, y, z - 1)];
      neighbors := neighbors + [Coordinates(x, y + 1, z - 1)];
    }
  }

  /** Convert neighbour coordinates to indices, one push per neighbour. */
  method IndicesOf(neighbors: seq<Coordinates>, size: nat) returns (indices: seq<CellIndex>)
    requires forall n :: n in neighbors ==> n.x < size
    ensures |indices| == |neighbors|
    ensures forall j :: 0 <= j < |neighbors| ==> indices[j] == ToIndex(neighbors[j], size)
  {
    indices := [];
    for j := 0 to |neighbors|
      invariant |indices| == j
      invariant forall i :: 0 <= i < j ==> indices[i] == ToIndex(neighbors[i], size)
    {
      indices := indices + [ToIndex(neighbors[j], size)];
    }
  }

  /** The neighbour list of cell `idx` (at `coords`): push the neighbour coordinates, then number them. */
  method NeighborsOf(coords: Coordinates, size: nat, idx: nat) returns (indices: seq<CellIndex>)
    requires idx < Tri(size) && coords == FromIndex(idx, size)
    ensures indices == NeighborIndices(size, idx)
  {
    var neighbors := PushNeighbors(coords);
    NeighborsAreOneStep(coords);
    indices := IndicesOf(neighbors, size);
  }

  /** The first `n` rows of the adjacency table of `Build(size)`. */
  ghost function AdjacencyUpTo(size: nat, n: nat): (a: seq<seq<CellIndex>>)
    requires n <= Tri(size)
    ensures |a| == n
  {
    if n == 0 then [] else AdjacencyUpTo(size, n - 1) + [NeighborIndices(size, n - 1)]
  }

  /** The first `n` entries of the region table of `Build(size)`. */
  ghost function RegionsUpTo(size: nat, n: nat): (r: seq<RegionMask>)
    requires n <= Tri(size)
    ensures |r| == n
  {
    if n == 0 then [] else RegionsUpTo(size, n - 1) + [CellRegions(size, n - 1)]
  }

  lemma {:induction false} UpToEntries(size: nat, n: nat)
    requires n <= Tri(size)
    ensures forall j :: 0 <= j < n ==> AdjacencyUpTo(size, n)[j] == NeighborIndices(size, j)
    ensures forall j :: 0 <= j < n ==> RegionsUpTo(size, n)[j] == CellRegions(size, j)
  {
    if n > 0 {
      UpToEntries(size, n - 1);
    }
  }

  /** Filled up to the last cell, the tables are those of `Build(size)`. */
  lemma UpToIsBuild(size: nat)
    ensures AdjacencyUpTo(size, Tri(size)) == Build(size).adjacency
    ensures RegionsUpTo(size, Tri(size)) == Build(size).regions
  {
    UpToEntries(size, Tri(size));
  }

  /** The region bits of one cell, set side by side as `new` does. */
  method SidesOf(coords: Coordinates) returns (mask: RegionMask)
    ensures mask == Sides(coords)
  {
    mask := 0;
    if TouchesSideA(coords) { mask := mask | SIDE_A; }
    if TouchesSideB(coords) { mask := mask | SIDE_B; }
    if TouchesSideC(coords) { mask := mask | SIDE_C; }
  }

  /**
   * `TriangularTopology::new`: fill the region and adjacency tables cell by
   * cell.
   */
  method NewTopology(size: nat) returns (t: TriangularTopology)
    ensures t.size == size && t.Valid()
  {
    var total := (size * (size + 1)) / 2;
    TriFormula(size);
    var adjacency: seq<seq<CellIndex>> := seq(total, _ => []);
    var regions: seq<RegionMask> := seq(total, _ => 0);
    for idx := 0 to total
      invariant |adjacency| == |regions| == total
      invariant adjacency[..idx] == AdjacencyUpTo(size, idx)
      invariant regions[..idx] == RegionsUpTo(size, idx)
    {
      var coords := FromIndex(idx, size);

      // 1. the sides the cell touches
      var mask := SidesOf(coords);
      regions := regions[idx := mask];

      // 2. the neighbours, as indices
      var indices := NeighborsOf(coords, size, idx);
      adjacency := adjacency[idx := indices];
      assert adjacency[..idx + 1] == adjacency[..idx] + [indices];
      assert regions[..idx + 1] == regions[..idx] + [mask];
    }
    assert adjacency == adjacency[..total];
    assert regions == regions[..total];
    UpToIsBuild(size);
    t := TriangularTopology(size, adjacency, regions);
    assert t == Build(size);
  }
}
