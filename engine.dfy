/**
 * The generic game engine (gamey/src/core/topology/engine.rs): who holds
 * each cell, and a union-find forest over the placed stones whose roots
 * carry the regions their group touches.  `MakeMove` is proved against the
 * board-level meaning of a win (`Groups.WinsAt`): it answers `Ok(true)`
 * exactly when the group of the new stone touches every winning region.
 */
module Engine {
  import opened Wrappers
  import opened Topology
  import opened Coords
  import opened Triangular
  import opened Masks
  import opened UnionFind
  import opened Groups

  /** Why the engine refuses a move. */
  datatype EngineError =
    | CellOutOfBounds(cell: CellIndex)
    | CellOccupied(cell: CellIndex)

  // ------------------------------------------------- invariant, on values

  /** Every mapped cell names an existing set of a well-ordered forest. */
  ghost predicate Mapped(sets: seq<DisjointSet>, cellSetMap: seq<Option<nat>>)
  {
    && Forest(sets)
    && forall c :: 0 <= c < |cellSetMap| && cellSetMap[c].Some? ==> cellSetMap[c].value < |sets|
  }

  /** The label of each cell: the root of its set, or -1 for an empty cell. */
  ghost function Labels(sets: seq<DisjointSet>, cellSetMap: seq<Option<nat>>): (lab: seq<int>)
    requires Mapped(sets, cellSetMap)
    ensures |lab| == |cellSetMap|
  {
    seq(|cellSetMap|, c requires 0 <= c < |cellSetMap| =>
      if cellSetMap[c].Some? then Root(sets, cellSetMap[c].value) else -1)
  }

  /** The shapes agree: one entry per cell, and a cell is mapped iff it is occupied. */
  ghost predicate Linked(t: TriangularTopology, state: Board, sets: seq<DisjointSet>, cellSetMap: seq<Option<nat>>)
  {
    && IsBoard(t)
    && |state| == |cellSetMap| == |t.regions|
    && Mapped(sets, cellSetMap)
    && forall c :: 0 <= c < |state| ==> (state[c].Some? <==> cellSetMap[c].Some?)
  }

  /** Each stone's root holds the regions touched by all the stones sharing that root. */
  ghost predicate MasksOk(regions: seq<RegionMask>, state: Board, sets: seq<DisjointSet>, lab: seq<int>)
    requires |lab| == |state| == |regions|
  {
    forall c :: 0 <= c < |state| && state[c].Some? ==>
      && 0 <= lab[c] < |sets|
      && sets[lab[c]].regionsTouched == MaskOf(regions, Group(state, lab, lab[c]), |state|)
  }

  /**
   * The engine invariant, allowing the stone on `x` not yet to be joined to
   * its neighbours (`x == -1`: no exception).
   */
  ghost predicate InvExcept(t: TriangularTopology, state: Board, sets: seq<DisjointSet>, cellSetMap: seq<Option<nat>>, x: int)
  {
    && Linked(t, state, sets, cellSetMap)
    && CompleteExcept(t, state, Labels(sets, cellSetMap), x)
    && Sound(t, state, Labels(sets, cellSetMap))
    && MasksOk(t.regions, state, sets, Labels(sets, cellSetMap))
  }

  /** The roots are exactly the connected groups, and each root knows its group's regions. */
  ghost predicate Inv(t: TriangularTopology, state: Board, sets: seq<DisjointSet>, cellSetMap: seq<Option<nat>>)
  {
    InvExcept(t, state, sets, cellSetMap, -1)
  }

  // ------------------------------------------------ invariant, preserved

  /** A fresh engine: an empty board and no sets. */
  lemma EmptyInv(t: TriangularTopology, state: Board, cellSetMap: seq<Option<nat>>)
    requires IsBoard(t) && |state| == |cellSetMap| == t.TotalCells()
    requires forall c :: 0 <= c < |state| ==> state[c].None? && cellSetMap[c].None?
    ensures Inv(t, state, [], cellSetMap)
  {
  }

  /** Hanging root `a` under root `b` relabels exactly the cells labelled `a`. */
  lemma LabelsLink(s: seq<DisjointSet>, s': seq<DisjointSet>, cellSetMap: seq<Option<nat>>, a: nat, b: nat)
    requires Mapped(s, cellSetMap) && |s'| == |s| && Forest(s')
    requires forall k :: 0 <= k < |s| ==> Root(s', k) == if Root(s, k) == a then b else Root(s, k)
    ensures Mapped(s', cellSetMap)
    ensures Labels(s', cellSetMap) == Relabel(Labels(s, cellSetMap), a, b)
  {
    assert Mapped(s', cellSetMap);
    var lab, lab' := Labels(s, cellSetMap), Labels(s', cellSetMap);
    forall c | 0 <= c < |cellSetMap|
      ensures lab'[c] == Relabel(lab, a, b)[c]
    {
      if cellSetMap[c].Some? {
        assert lab'[c] == Root(s', cellSetMap[c].value);
      }
    }
  }

  /** Changing the forest without changing roots or root masks keeps the invariant. */
  lemma SameRootsKeepInv(t: TriangularTopology, state: Board, s: seq<DisjointSet>, s': seq<DisjointSet>, cellSetMap: seq<Option<nat>>, x: int)
    requires InvExcept(t, state, s, cellSetMap, x)
    requires |s'| == |s| && Forest(s')
    requires forall k :: 0 <= k < |s| ==> Root(s', k) == Root(s, k)
    requires forall k :: 0 <= k < |s| ==> s'[k].regionsTouched == s[k].regionsTouched
    ensures InvExcept(t, state, s', cellSetMap, x)
    ensures Labels(s', cellSetMap) == Labels(s, cellSetMap)
  {
    assert Mapped(s', cellSetMap);
    assert Labels(s', cellSetMap) == Labels(s, cellSetMap);
  }

  /**
   * Placing a stone on an empty cell with a fresh singleton set keeps the
   * invariant, except that the new stone is not yet joined to its neighbours.
   */
  lemma PlaceKeepsInv(t: TriangularTopology, state: Board, sets: seq<DisjointSet>, cellSetMap: seq<Option<nat>>, cell: CellIndex, p: PlayerId)
    requires Inv(t, state, sets, cellSetMap)
    requires cell < |state| && state[cell].None?
    ensures var n := |sets|;
      var sets' := sets + [DisjointSet(n, t.regions[cell])];
      && InvExcept(t, state[cell := Some(p)], sets', cellSetMap[cell := Some(n)], cell)
      && Labels(sets', cellSetMap[cell := Some(n)]) == Labels(sets, cellSetMap)[cell := n]
  {
    var n := |sets|;
    var state' := state[cell := Some(p)];
    var sets' := sets + [DisjointSet(n, t.regions[cell])];
    var csm' := cellSetMap[cell := Some(n)];
    var lab := Labels(sets, cellSetMap);
    AppendKeepsRoots(sets, DisjointSet(n, t.regions[cell]), n);
    forall k | 0 <= k < n
      ensures Root(sets', k) == Root(sets, k)
    {
      AppendKeepsRoots(sets, DisjointSet(n, t.regions[cell]), k);
    }
    assert Mapped(sets', csm');
    var lab' := Labels(sets', csm');
    assert lab' == lab[cell := n];
    assert Linked(t, state', sets', csm');
    // only the new stone carries the new label
    assert forall c :: 0 <= c < |state| && state[c].Some? ==> lab[c] < n;
    assert Group(state', lab', n) == {cell};
    forall r | r != n
      ensures Group(state', lab', r) == Group(state, lab, r)
    {
    }
    forall c, d | 0 <= c < |state'| && 0 <= d < |state'| && state'[c].Some? && state'[d].Some? && lab'[c] == lab'[d]
      ensures Connected(t, state', c, d)
    {
      if c == cell || d == cell {
        assert c == d;
        ConnectedRefl(t, state', c);
      } else {
        ConnectedMono(t, state, state', c, d);
      }
    }
    MaskOfSingleton(t.regions, cell, |state|);
    assert MasksOk(t.regions, state', sets', lab');
  }

  /**
   * Hanging the root `rj` of a neighbour's set under the new stone's root `n`
   * (and OR-ing in its regions) keeps the invariant and merges the labels.
   */
  lemma UnionKeepsInv(t: TriangularTopology, state: Board, s: seq<DisjointSet>, s': seq<DisjointSet>, cellSetMap: seq<Option<nat>>, cell: CellIndex, nb: CellIndex)
    requires InvExcept(t, state, s, cellSetMap, cell)
    requires cell < |state| && state[cell].Some? && Labels(s, cellSetMap)[cell] == |s| - 1
    requires nb in t.adjacency[cell] && nb < |state| && state[nb] == state[cell]
    requires |s'| == |s| && Forest(s')
    requires var n, rj := |s| - 1, Labels(s, cellSetMap)[nb];
      && (forall k :: 0 <= k < |s| ==> Root(s', k) == if Root(s, k) == rj then n else Root(s, k))
      && s'[n].regionsTouched == (if rj == n then s[n].regionsTouched else Merge(s[n].regionsTouched, s[rj].regionsTouched))
      && (forall k :: 0 <= k < |s| && k != n ==> s'[k].regionsTouched == s[k].regionsTouched)
    ensures InvExcept(t, state, s', cellSetMap, cell)
    ensures Labels(s', cellSetMap) == Relabel(Labels(s, cellSetMap), Labels(s, cellSetMap)[nb], |s| - 1)
  {
    var n := |s| - 1;
    var lab := Labels(s, cellSetMap);
    var rj := lab[nb];
    LabelsLink(s, s', cellSetMap, rj, n);
    var lab' := Labels(s', cellSetMap);
    RelabelKeepsComplete(t, state, lab, cell, rj, n);
    MergeKeepsSound(t, state, lab, cell, nb);
    LinkKeepsMasks(t.regions, state, s, s', lab, rj, n, cell, nb);
  }

  /**
   * Linking keeps every root mask equal to the OR of its group's regions:
   * the new root's mask is the OR of the two merged masks.
   */
  lemma LinkKeepsMasks(regions: seq<RegionMask>, state: Board, s: seq<DisjointSet>, s': seq<DisjointSet>, lab: seq<int>, rj: int, n: nat, cell: CellIndex, nb: CellIndex)
    requires |lab| == |state| == |regions| && |s'| == |s| && n < |s|
    requires MasksOk(regions, state, s, lab)
    requires cell < |state| && state[cell].Some? && lab[cell] == n
    requires nb < |state| && state[nb].Some? && lab[nb] == rj
    requires s'[n].regionsTouched == (if rj == n then s[n].regionsTouched else Merge(s[n].regionsTouched, s[rj].regionsTouched))
    requires forall k :: 0 <= k < |s| && k != n ==> s'[k].regionsTouched == s[k].regionsTouched
    ensures MasksOk(regions, state, s', Relabel(lab, rj, n))
  {
    var lab' := Relabel(lab, rj, n);
    RelabelGroups(state, lab, rj, n);
    var merged := MaskOf(regions, Group(state, lab', n), |state|);
    assert s'[n].regionsTouched == merged by {
      assert s[n].regionsTouched == MaskOf(regions, Group(state, lab, n), |state|);
      assert s[rj].regionsTouched == MaskOf(regions, Group(state, lab, rj), |state|);
      if rj != n {
        MaskOfUnion(regions, Group(state, lab, n), Group(state, lab, rj), |state|);
        assert Group(state, lab', n) == Group(state, lab, n) + Group(state, lab, rj);
      } else {
        assert lab' == lab;
      }
    }
    forall c | 0 <= c < |state| && state[c].Some?
      ensures 0 <= lab'[c] < |s'|
      ensures s'[lab'[c]].regionsTouched == MaskOf(regions, Group(state, lab', lab'[c]), |state|)
    {
      if lab[c] == rj || lab[c] == n {
        assert lab'[c] == n;
      } else {
        OtherGroupKept(regions, state, s, s', lab, rj, n, c);
      }
    }
  }

  /** A group that the link does not touch keeps its label, its root mask and its members. */
  lemma OtherGroupKept(regions: seq<RegionMask>, state: Board, s: seq<DisjointSet>, s': seq<DisjointSet>, lab: seq<int>, a: int, b: nat, c: CellIndex)
    requires |lab| == |state| == |regions| && |s'| == |s| && b < |s|
    requires c < |state| && state[c].Some? && lab[c] != a && lab[c] != b && 0 <= lab[c] < |s|
    requires forall k :: 0 <= k < |s| && k != b ==> s'[k].regionsTouched == s[k].regionsTouched
    requires s[lab[c]].regionsTouched == MaskOf(regions, Group(state, lab, lab[c]), |state|)
    ensures var lab' := Relabel(lab, a, b);
      s'[lab'[c]].regionsTouched == MaskOf(regions, Group(state, lab', lab'[c]), |state|)
  {
    RelabelGroups(state, lab, a, b);
  }

  /** Joining the new stone to all its same-player neighbours restores the full invariant. */
  lemma JoinedKeepsInv(t: TriangularTopology, state: Board, s: seq<DisjointSet>, cellSetMap: seq<Option<nat>>, cell: CellIndex)
    requires InvExcept(t, state, s, cellSetMap, cell)
    requires cell < |state| && state[cell].Some?
    requires forall d :: d in t.adjacency[cell] && d < |state| && state[d] == state[cell] ==>
      Labels(s, cellSetMap)[d] == Labels(s, cellSetMap)[cell]
    ensures Inv(t, state, s, cellSetMap)
    ensures Covers(s[Labels(s, cellSetMap)[cell]].regionsTouched, t.WinningMask()) <==> WinsAt(t, state, cell)
  {
    var lab := Labels(s, cellSetMap);
    CompleteAround(t, state, lab, cell);
    GroupIsComponent(t, state, lab, cell);
  }

  /**
   * While `make_move` joins the new stone on `cell` (set `n`) to its
   * neighbours: the invariant holds except around `cell`, and the first `k`
   * neighbours that hold `p`'s stones already share `cell`'s root.
   */
  ghost predicate Joining(t: TriangularTopology, state: Board, sets: seq<DisjointSet>, cellSetMap: seq<Option<nat>>,
                          cell: CellIndex, p: PlayerId, n: nat, neighbors: seq<CellIndex>, k: nat)
  {
    && InvExcept(t, state, sets, cellSetMap, cell)
    && |sets| == n + 1
    && cell < |state| && state[cell] == Some(p)
    && Labels(sets, cellSetMap)[cell] == n
    && k <= |neighbors|
    && (forall m :: 0 <= m < |neighbors| ==> neighbors[m] in t.adjacency[cell])
    && (forall m :: 0 <= m < k && neighbors[m] < |state| && state[neighbors[m]] == Some(p) ==>
          Labels(sets, cellSetMap)[neighbors[m]] == n)
  }

  /** Placing `p`'s stone on an empty cell with a fresh set starts the joining. */
  lemma StartJoining(t: TriangularTopology, state: Board, sets: seq<DisjointSet>, cellSetMap: seq<Option<nat>>, cell: CellIndex, p: PlayerId)
    requires Inv(t, state, sets, cellSetMap)
    requires cell < |state| && state[cell].None?
    ensures cell < |t.adjacency|
    ensures Joining(t, state[cell := Some(p)], sets + [DisjointSet(|sets|, t.regions[cell])], cellSetMap[cell := Some(|sets|)],
                    cell, p, |sets|, t.GetNeighbors(cell), 0)
  {
    PlaceKeepsInv(t, state, sets, cellSetMap, cell, p);
  }

  /**
   * Once every neighbour is joined, the invariant holds in full and the new
   * stone's root covers the winning mask exactly when its group wins.
   */
  lemma FinishJoining(t: TriangularTopology, state: Board, s: seq<DisjointSet>, cellSetMap: seq<Option<nat>>, cell: CellIndex, p: PlayerId, n: nat)
    requires cell < |t.adjacency|
    requires Joining(t, state, s, cellSetMap, cell, p, n, t.GetNeighbors(cell), |t.GetNeighbors(cell)|)
    ensures Inv(t, state, s, cellSetMap)
    ensures Covers(s[n].regionsTouched, t.WinningMask()) <==> WinsAt(t, state, cell)
  {
    var neighbors := t.GetNeighbors(cell);
    forall d | d in t.adjacency[cell] && d < |state| && state[d] == state[cell]
      ensures Labels(s, cellSetMap)[d] == Labels(s, cellSetMap)[cell]
    {
      var m :| 0 <= m < |neighbors| && neighbors[m] == d;
    }
    JoinedKeepsInv(t, state, s, cellSetMap, cell);
  }

  /** What the loop body of `make_move` reads while joining: a neighbour in range, and its set if it is occupied. */
  lemma JoiningFacts(t: TriangularTopology, state: Board, sets: seq<DisjointSet>, cellSetMap: seq<Option<nat>>,
                     cell: CellIndex, p: PlayerId, n: nat, neighbors: seq<CellIndex>, k: nat)
    requires Joining(t, state, sets, cellSetMap, cell, p, n, neighbors, k) && k < |neighbors|
    ensures Forest(sets) && n == |sets| - 1
    ensures neighbors[k] < |state| == |cellSetMap|
    ensures state[neighbors[k]].Some? ==> cellSetMap[neighbors[k]].Some? && cellSetMap[neighbors[k]].value < |sets|
  {
    assert neighbors[k] in t.adjacency[cell];
  }

  /** A neighbour that is not `p`'s stone needs no joining. */
  lemma SkipNeighbor(t: TriangularTopology, state: Board, sets: seq<DisjointSet>, cellSetMap: seq<Option<nat>>,
                     cell: CellIndex, p: PlayerId, n: nat, neighbors: seq<CellIndex>, k: nat)
    requires Joining(t, state, sets, cellSetMap, cell, p, n, neighbors, k) && k < |neighbors|
    requires neighbors[k] < |state| ==> state[neighbors[k]] != Some(p)
    ensures Joining(t, state, sets, cellSetMap, cell, p, n, neighbors, k + 1)
  {
  }

  /**
   * Linking the root of neighbour `neighbors[k]` under `n` (what `union`
   * does) advances the joining by one neighbour, and `n` keeps every region
   * it touched.
   */
  lemma JoinStep(t: TriangularTopology, state: Board, s: seq<DisjointSet>, s': seq<DisjointSet>, cellSetMap: seq<Option<nat>>,
                 cell: CellIndex, p: PlayerId, n: nat, neighbors: seq<CellIndex>, k: nat, j: nat)
    requires Joining(t, state, s, cellSetMap, cell, p, n, neighbors, k) && k < |neighbors|
    requires neighbors[k] < |state| && state[neighbors[k]] == Some(p)
    requires neighbors[k] < |cellSetMap| && cellSetMap[neighbors[k]] == Some(j) && j < |s|
    requires |s'| == |s| && Forest(s')
    requires forall i :: 0 <= i < |s'| ==> Root(s', i) == if Root(s, i) == Root(s, j) then n else Root(s, i)
    requires s'[n].regionsTouched ==
      if Root(s, j) == n then s[n].regionsTouched else Merge(s[n].regionsTouched, s[Root(s, j)].regionsTouched)
    requires forall i :: 0 <= i < |s'| && i != n ==> s'[i].regionsTouched == s[i].regionsTouched
    ensures Joining(t, state, s', cellSetMap, cell, p, n, neighbors, k + 1)
    ensures Covers(s[n].regionsTouched, t.WinningMask()) ==> Covers(s'[n].regionsTouched, t.WinningMask())
  {
    var nb := neighbors[k];
    var rj := Root(s, j);
    assert Labels(s, cellSetMap)[nb] == rj;
    assert nb in t.adjacency[cell];
    UnionKeepsInv(t, state, s, s', cellSetMap, cell, nb);
    if rj != n && Covers(s[n].regionsTouched, t.WinningMask()) {
      CoversGrow(s[n].regionsTouched, s[rj].regionsTouched, t.WinningMask());
    }
  }

  // ------------------------------------------------------------ the class

  class GameEngine {
    const topology: TriangularTopology
    /** Who occupies each cell (`None` if empty). */
    var state: Board
    /** The union-find forest, one set per placed stone. */
    var sets: seq<DisjointSet>
    /** The set of each occupied cell. */
    var cellSetMap: seq<Option<nat>>

    ghost predicate Valid()
      reads this
    {
      Inv(topology, state, sets, cellSetMap)
    }

    /** `GameEngine::new`: an empty board and no sets. */
    constructor(t: TriangularTopology)
      requires IsBoard(t)
      ensures topology == t && sets == []
      ensures |state| == |cellSetMap| == t.TotalCells()
      ensures forall c :: 0 <= c < |state| ==> state[c].None? && cellSetMap[c].None?
      ensures Valid()
    {
      topology := t;
      var size := t.TotalCells();
      state := seq(size, _ => None);
      sets := [];
      cellSetMap := seq(size, _ => None);
      new;
      EmptyInv(t, state, cellSetMap);
    }

    /**
     * `find`: the root of set `i`, pointing every set on the way straight at
     * it.  No root and no region mask changes.
     */
    method Find(i: nat) returns (root: nat)
      requires Forest(sets) && i < |sets|
      modifies this
      ensures root == Root(old(sets), i)
      ensures |sets| == |old(sets)| && Forest(sets)
      ensures forall k :: 0 <= k < |sets| ==> Root(sets, k) == Root(old(sets), k)
      ensures forall k :: 0 <= k < |sets| ==> sets[k].regionsTouched == old(sets[k].regionsTouched)
      ensures state == old(state) && cellSetMap == old(cellSetMap)
      decreases |sets| - i
    {
      if sets[i].parent == i {
        root := i;
      } else {
        var parent := sets[i].parent;
        ghost var s0 := sets;
        root := Find(parent);
        ghost var s1 := sets;
        forall k | 0 <= k < |s1|
          ensures Root(s1[i := s1[i].(parent := root)], k) == Root(s1, k)
        {
          CompressKeepsRoots(s1, i, k);
        }
        CompressKeepsRoots(s1, i, i);
        sets := sets[i := sets[i].(parent := root)];
      }
    }

    /**
     * `union`, as `make_move` calls it: `i` is the newest set, so it is a
     * root, and the root of `j` is hung under it with its regions OR-ed in.
     * The answer says whether `i`'s group now covers the winning mask.
     */
    method Union(i: nat, j: nat) returns (win: bool)
      requires Forest(sets) && i == |sets| - 1 && j < |sets|
      modifies this
      ensures |sets| == |old(sets)| && Forest(sets)
      ensures forall k :: 0 <= k < |sets| ==>
        Root(sets, k) == if Root(old(sets), k) == Root(old(sets), j) then i else Root(old(sets), k)
      ensures sets[i].regionsTouched ==
        if Root(old(sets), j) == i then old(sets[i].regionsTouched)
        else Merge(old(sets[i].regionsTouched), old(sets[Root(sets, j)].regionsTouched))
      ensures forall k :: 0 <= k < |sets| && k != i ==> sets[k].regionsTouched == old(sets[k].regionsTouched)
      ensures win <==> Covers(sets[i].regionsTouched, topology.WinningMask())
      ensures state == old(state) && cellSetMap == old(cellSetMap)
    {
      ghost var s0 := sets;
      RootOfRoot(sets, i);
      var rootI := Find(i);
      var rootJ := Find(j);
      ghost var s2 := sets;
      if rootI != rootJ {
        // hang j's root under i's, then i's root touches the regions of both
        sets := Link(sets, rootJ, rootI);
      }
      UnionEffect(s0, s2, sets, i, j);
      var target := topology.WinningMask();
      win := Covers(sets[rootI].regionsTouched, target);
    }

    /**
     * The neighbour loop of `make_move`: unite the newest set (the placed
     * stone's) with the set of every neighbour holding a stone of the same
     * player; `won` records whether some union reported a win.
     */
    method JoinNeighbors(cell: CellIndex, player: PlayerId) returns (won: bool)
      requires cell < |topology.adjacency| && |sets| > 0
      requires Joining(topology, state, sets, cellSetMap, cell, player, |sets| - 1, topology.GetNeighbors(cell), 0)
      modifies this
      ensures |sets| == old(|sets|) && state == old(state) && cellSetMap == old(cellSetMap)
      ensures Joining(topology, state, sets, cellSetMap, cell, player, |sets| - 1,
                      topology.GetNeighbors(cell), |topology.GetNeighbors(cell)|)
      ensures won ==> Covers(sets[|sets| - 1].regionsTouched, topology.WinningMask())
    {
      var newSetIdx := |sets| - 1;
      var neighbors := topology.GetNeighbors(cell);
      won := false;
      for k := 0 to |neighbors|
        invariant |sets| == newSetIdx + 1
        invariant state == old(state) && cellSetMap == old(cellSetMap)
        invariant Joining(topology, state, sets, cellSetMap, cell, player, newSetIdx, neighbors, k)
        invariant won ==> Covers(sets[newSetIdx].regionsTouched, topology.WinningMask())
      {
        var joined := JoinNeighbor(cell, player, neighbors, k);
        won := won || joined;
      }
    }

    /**
     * One turn of that loop: if neighbour `neighbors[k]` holds a stone of
     * `player`, unite its set with the newest one.
     */
    method JoinNeighbor(cell: CellIndex, player: PlayerId, neighbors: seq<CellIndex>, k: nat) returns (won: bool)
      requires |sets| > 0 && k < |neighbors|
      requires Joining(topology, state, sets, cellSetMap, cell, player, |sets| - 1, neighbors, k)
      modifies this
      ensures |sets| == old(|sets|) && state == old(state) && cellSetMap == old(cellSetMap)
      ensures Joining(topology, state, sets, cellSetMap, cell, player, |sets| - 1, neighbors, k + 1)
      ensures won ==> Covers(sets[|sets| - 1].regionsTouched, topology.WinningMask())
      ensures Covers(old(sets[|sets| - 1].regionsTouched), topology.WinningMask()) ==>
        Covers(sets[|sets| - 1].regionsTouched, topology.WinningMask())
    {
      var newSetIdx := |sets| - 1;
      JoiningFacts(topology, state, sets, cellSetMap, cell, player, newSetIdx, neighbors, k);
      var neighbor := neighbors[k];
      if state[neighbor].Some? && state[neighbor].value == player {
        var neighborSetIdx := cellSetMap[neighbor].value;
        ghost var s := sets;
        RootOfRoot(sets, newSetIdx);
        won := Union(newSetIdx, neighborSetIdx);
        JoinStep(topology, state, s, sets, cellSetMap, cell, player, newSetIdx, neighbors, k, neighborSetIdx);
      } else {
        SkipNeighbor(topology, state, sets, cellSetMap, cell, player, newSetIdx, neighbors, k);
        won := false;
      }
    }

    /**
     * `make_move`: refuse a cell out of range or occupied, changing nothing;
     * otherwise place the stone, give it a fresh set, join it to every
     * neighbouring stone of the same player, and report whether its group
     * now touches every winning region.
     */
    method MakeMove(cell: CellIndex, player: PlayerId) returns (r: Result<bool, EngineError>)
      requires Valid()
      modifies this
      ensures Valid()
      ensures cell >= topology.TotalCells() ==>
        r == Err(CellOutOfBounds(cell))
        && state == old(state) && sets == old(sets) && cellSetMap == old(cellSetMap)
      ensures cell < topology.TotalCells() && old(state[cell].Some?) ==>
        r == Err(CellOccupied(cell))
        && state == old(state) && sets == old(sets) && cellSetMap == old(cellSetMap)
      ensures cell < topology.TotalCells() && old(state[cell].None?) ==>
        && state == old(state[cell := Some(player)])
        && |sets| == old(|sets|) + 1
        && cellSetMap == old(cellSetMap[cell := Some(|sets|)])
        && r == Ok(WinsAt(topology, state, cell))
    {
      if cell >= topology.TotalCells() {
        return Err(CellOutOfBounds(cell));
      }
      if state[cell].Some? {
        return Err(CellOccupied(cell));
      }

      // 1. place the stone
      StartJoining(topology, state, sets, cellSetMap, cell, player);
      state := state[cell := Some(player)];

      // 2. a new set for it
      var regions := topology.GetCellRegions(cell);
      var newSetIdx := |sets|;
      sets := sets + [DisjointSet(newSetIdx, regions)];
      cellSetMap := cellSetMap[cell := Some(newSetIdx)];

      // 3. join it to the neighbours of the same player
      var won := JoinNeighbors(cell, player);
      FinishJoining(topology, state, sets, cellSetMap, cell, player, newSetIdx);

      // a single stone may already touch every region (a tiny board)
      if !won {
        ghost var s := sets;
        RootOfRoot(sets, newSetIdx);
        var root := Find(newSetIdx);
        SameRootsKeepInv(topology, state, s, sets, cellSetMap, -1);
        if Covers(sets[root].regionsTouched, topology.WinningMask()) {
          won := true;
        }
      }
      return Ok(won);
    }
  }
}
