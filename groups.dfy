/**
 * What the engine's answer means, stated on the board alone: stones of one
 * player joined by a chain of neighbouring stones form a group, and a move
 * wins when the group of the new stone touches every region of the winning
 * mask.  The engine keeps a union-find labelling of the stones; the
 * predicates at the end say when such a labelling names exactly these
 * groups.
 */
module Groups {
  import opened Wrappers
  import opened Topology
  import opened Coords
  import opened Triangular
  import opened Masks

  /** Who occupies each cell, `None` for an empty cell. */
  type Board = seq<Option<PlayerId>>

  /** A chain of neighbouring cells, each holding a stone of player `p`. */
  ghost predicate IsPath(t: TriangularTopology, board: Board, p: PlayerId, path: seq<CellIndex>)
  {
    && |path| > 0
    && (forall k :: 0 <= k < |path| ==> path[k] < |board| && board[path[k]] == Some(p))
    && (forall k :: 0 <= k < |path| - 1 ==> path[k] < |t.adjacency| && path[k + 1] in t.adjacency[path[k]])
  }

  /** Cell `d` is reached from the stone on `c` through stones of the same player. */
  ghost predicate Connected(t: TriangularTopology, board: Board, c: CellIndex, d: CellIndex)
  {
    && c < |board|
    && board[c].Some?
    && exists path :: IsPath(t, board, board[c].value, path) && path[0] == c && path[|path| - 1] == d
  }

  /** The connected same-player group of the stone on `c`. */
  ghost function Component(t: TriangularTopology, board: Board, c: CellIndex): set<CellIndex>
  {
    set d | 0 <= d < |board| && Connected(t, board, c, d)
  }

  /** The regions touched by the group of the stone on `c`. */
  ghost function ComponentMask(t: TriangularTopology, board: Board, c: CellIndex): RegionMask
    requires |board| == |t.regions|
  {
    MaskOf(t.regions, Component(t, board, c), |board|)
  }

  /** The group of the stone on `c` touches every region the topology asks for. */
  ghost predicate WinsAt(t: TriangularTopology, board: Board, c: CellIndex)
    requires |board| == |t.regions|
  {
    Covers(ComponentMask(t, board, c), t.WinningMask())
  }

  // ---------------------------------------------------------- connectivity

  lemma ConnectedRefl(t: TriangularTopology, board: Board, c: CellIndex)
    requires c < |board| && board[c].Some?
    ensures Connected(t, board, c, c)
  {
    assert IsPath(t, board, board[c].value, [c]);
  }

  /** Both ends of a connection hold the same player's stone. */
  lemma ConnectedEnds(t: TriangularTopology, board: Board, c: CellIndex, d: CellIndex)
    requires Connected(t, board, c, d)
    ensures d < |board| && board[d] == board[c]
  {
    var path :| IsPath(t, board, board[c].value, path) && path[0] == c && path[|path| - 1] == d;
    assert path[|path| - 1] == d;
  }

  /** A connection extends by one step to a neighbouring stone of the same player. */
  lemma ConnectedStep(t: TriangularTopology, board: Board, c: CellIndex, d: CellIndex, e: CellIndex)
    requires Connected(t, board, c, d)
    requires d < |t.adjacency| && e in t.adjacency[d]
    requires e < |board| && board[e] == board[c]
    ensures Connected(t, board, c, e)
  {
    var p := board[c].value;
    var path :| IsPath(t, board, p, path) && path[0] == c && path[|path| - 1] == d;
    var path' := path + [e];
    assert IsPath(t, board, p, path');
  }

  /** A connection extends along a path that starts where it ends. */
  lemma {:induction false} ConnectedAlong(t: TriangularTopology, board: Board, c: CellIndex, path: seq<CellIndex>, i: nat)
    requires c < |board| && board[c].Some?
    requires IsPath(t, board, board[c].value, path) && Connected(t, board, c, path[0])
    requires i < |path|
    ensures Connected(t, board, c, path[i])
  {
    if i > 0 {
      ConnectedAlong(t, board, c, path, i - 1);
      ConnectedStep(t, board, c, path[i - 1], path[i]);
    }
  }

  /** Connections compose. */
  lemma ConnectedTrans(t: TriangularTopology, board: Board, c: CellIndex, d: CellIndex, e: CellIndex)
    requires Connected(t, board, c, d) && Connected(t, board, d, e)
    ensures Connected(t, board, c, e)
  {
    ConnectedEnds(t, board, c, d);
    var path :| IsPath(t, board, board[d].value, path) && path[0] == d && path[|path| - 1] == e;
    ConnectedAlong(t, board, c, path, |path| - 1);
  }

  /** Placing more stones never breaks a connection. */
  lemma ConnectedMono(t: TriangularTopology, board: Board, board': Board, c: CellIndex, d: CellIndex)
    requires |board'| == |board|
    requires forall k :: 0 <= k < |board| && board[k].Some? ==> board'[k] == board[k]
    requires Connected(t, board, c, d)
    ensures Connected(t, board', c, d)
  {
    var path :| IsPath(t, board, board[c].value, path) && path[0] == c && path[|path| - 1] == d;
    assert IsPath(t, board', board'[c].value, path);
  }

  /** A stone with no same-player stone elsewhere on the board is its own group. */
  lemma LoneStone(t: TriangularTopology, board: Board, c: CellIndex)
    requires c < |board| && board[c].Some?
    requires forall d :: 0 <= d < |board| && d != c ==> board[d] != board[c]
    ensures Component(t, board, c) == {c}
  {
    ConnectedRefl(t, board, c);
    forall d | d in Component(t, board, c)
      ensures d == c
    {
      ConnectedEnds(t, board, c, d);
    }
  }

  // ------------------------------------------------------------ labellings

  /** Relabel every cell labelled `a` with `b`. */
  function Relabel(lab: seq<int>, a: int, b: int): (lab': seq<int>)
    ensures |lab'| == |lab|
  {
    seq(|lab|, k requires 0 <= k < |lab| => if lab[k] == a then b else lab[k])
  }

  /** The stones labelled `r`. */
  ghost function Group(board: Board, lab: seq<int>, r: int): set<CellIndex>
    requires |lab| == |board|
  {
    set c | 0 <= c < |board| && board[c].Some? && lab[c] == r
  }

  /**
   * Neighbouring stones of the same player carry the same label, except
   * possibly when one of them is the cell `x`.
   */
  ghost predicate CompleteExcept(t: TriangularTopology, board: Board, lab: seq<int>, x: int)
    requires |lab| == |board|
  {
    forall c, d ::
      0 <= c < |board| && c < |t.adjacency| && d in t.adjacency[c] && d < |board|
      && c != x && d != x && board[c].Some? && board[d] == board[c]
      ==> lab[c] == lab[d]
  }

  /** Neighbouring stones of the same player carry the same label. */
  ghost predicate Complete(t: TriangularTopology, board: Board, lab: seq<int>)
    requires |lab| == |board|
  {
    CompleteExcept(t, board, lab, -1)
  }

  /** Stones with the same label are connected. */
  ghost predicate Sound(t: TriangularTopology, board: Board, lab: seq<int>)
    requires |lab| == |board|
  {
    forall c, d ::
      0 <= c < |board| && 0 <= d < |board| && board[c].Some? && board[d].Some? && lab[c] == lab[d]
      ==> Connected(t, board, c, d)
  }

  /** Along a path of stones a complete labelling never changes. */
  lemma {:induction false} PathStaysInGroup(t: TriangularTopology, board: Board, lab: seq<int>, p: PlayerId, path: seq<CellIndex>)
    requires |lab| == |board|
    requires Complete(t, board, lab) && IsPath(t, board, p, path)
    ensures forall k :: 0 <= k < |path| ==> lab[path[k]] == lab[path[0]]
  {
    if |path| > 1 {
      var prefix := path[..|path| - 1];
      assert IsPath(t, board, p, prefix);
      PathStaysInGroup(t, board, lab, p, prefix);
      var k := |path| - 1;
      assert path[k - 1] == prefix[k - 1];
      assert lab[path[k - 1]] == lab[path[k]];
    }
  }

  /**
   * A complete and sound labelling names exactly the connected groups: the
   * stones labelled like `c` are the group of `c`.
   */
  lemma GroupIsComponent(t: TriangularTopology, board: Board, lab: seq<int>, c: CellIndex)
    requires |lab| == |board|
    requires Complete(t, board, lab) && Sound(t, board, lab)
    requires c < |board| && board[c].Some?
    ensures Group(board, lab, lab[c]) == Component(t, board, c)
  {
    forall d | d in Component(t, board, c)
      ensures d in Group(board, lab, lab[c])
    {
      var path :| IsPath(t, board, board[c].value, path) && path[0] == c && path[|path| - 1] == d;
      PathStaysInGroup(t, board, lab, board[c].value, path);
    }
  }

  /** Relabelling only merges labels, so it keeps completeness. */
  lemma RelabelKeepsComplete(t: TriangularTopology, board: Board, lab: seq<int>, x: int, a: int, b: int)
    requires |lab| == |board|
    requires CompleteExcept(t, board, lab, x)
    ensures CompleteExcept(t, board, Relabel(lab, a, b), x)
  {
  }

  /** Relabelling `a` as `b` merges the two groups and leaves every other group alone. */
  lemma RelabelGroups(board: Board, lab: seq<int>, a: int, b: int)
    requires |lab| == |board|
    ensures Group(board, Relabel(lab, a, b), b) == Group(board, lab, a) + Group(board, lab, b)
    ensures forall r :: r != a && r != b ==> Group(board, Relabel(lab, a, b), r) == Group(board, lab, r)
  {
  }

  /**
   * Merging the labels of two neighbouring stones of one player keeps the
   * labelling sound.
   */
  lemma MergeKeepsSound(t: TriangularTopology, board: Board, lab: seq<int>, c0: CellIndex, nb: CellIndex)
    requires |lab| == |board| && SymmetricAdjacency(t)
    requires Sound(t, board, lab)
    requires c0 < |board| && c0 < |t.adjacency| && nb in t.adjacency[c0] && nb < |board|
    requires board[c0].Some? && board[nb] == board[c0]
    ensures Sound(t, board, Relabel(lab, lab[nb], lab[c0]))
  {
    var a, b := lab[nb], lab[c0];
    var lab' := Relabel(lab, a, b);
    ConnectedRefl(t, board, c0);
    ConnectedRefl(t, board, nb);
    assert nb < |t.adjacency| && c0 in t.adjacency[nb];
    forall c, d | 0 <= c < |board| && 0 <= d < |board| && board[c].Some? && board[d].Some? && lab'[c] == lab'[d]
      ensures Connected(t, board, c, d)
    {
      if lab[c] == lab[d] {
      } else if lab[c] == b {
        assert lab[d] == a;
        assert Connected(t, board, c, c0);
        ConnectedEnds(t, board, c, c0);
        ConnectedStep(t, board, c, c0, nb);
        assert Connected(t, board, nb, d);
        ConnectedTrans(t, board, c, nb, d);
      } else {
        assert lab[c] == a && lab[d] == b;
        assert Connected(t, board, c, nb);
        ConnectedEnds(t, board, c, nb);
        ConnectedStep(t, board, c, nb, c0);
        assert Connected(t, board, c0, d);
        ConnectedTrans(t, board, c, c0, d);
      }
    }
  }

  /**
   * Once every same-player neighbour of `x` carries `x`'s label, the
   * exception for `x` can be dropped (adjacency is symmetric).
   */
  lemma CompleteAround(t: TriangularTopology, board: Board, lab: seq<int>, x: CellIndex)
    requires |lab| == |board| && SymmetricAdjacency(t)
    requires CompleteExcept(t, board, lab, x)
    requires x < |t.adjacency|
    requires forall d :: d in t.adjacency[x] && d < |board| && x < |board| && board[d] == board[x] ==> lab[d] == lab[x]
    ensures Complete(t, board, lab)
  {
  }
}
