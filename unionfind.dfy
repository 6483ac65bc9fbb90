/**
 * The union-find forest of the engine (gamey/src/core/topology/engine.rs):
 * one `DisjointSet` per placed stone, linked through `parent` indices.
 * The engine only ever hangs an older root under the newest set, and path
 * compression points a set at its root, so a parent index is never smaller
 * than the set's own index; that ordering is what makes `find` terminate.
 */
module UnionFind {
  import opened Topology

  /** One set of the forest, with the regions its whole group touches. */
  datatype DisjointSet = DisjointSet(parent: nat, regionsTouched: RegionMask)

  /** Every parent lies at or after its set and inside the forest. */
  ghost predicate Forest(sets: seq<DisjointSet>)
  {
    forall k :: 0 <= k < |sets| ==> k <= sets[k].parent < |sets|
  }

  /** The representative of set `k`: follow parents until a set is its own parent. */
  ghost function Root(sets: seq<DisjointSet>, k: nat): (r: nat)
    requires Forest(sets) && k < |sets|
    ensures k <= r < |sets| && sets[r].parent == r
    decreases |sets| - k
  {
    if sets[k].parent == k then k else Root(sets, sets[k].parent)
  }

  /** A set that is its own parent is a root; the newest set always is one. */
  lemma RootOfRoot(sets: seq<DisjointSet>, k: nat)
    requires Forest(sets) && k < |sets|
    ensures sets[k].parent == k <==> Root(sets, k) == k
    ensures k == |sets| - 1 ==> sets[k].parent == k
  {
  }

  /** Forests with the same parents have the same roots. */
  lemma {:induction false} SameParentsSameRoots(s: seq<DisjointSet>, s': seq<DisjointSet>, k: nat)
    requires Forest(s) && |s'| == |s| && k < |s|
    requires forall j :: 0 <= j < |s| ==> s'[j].parent == s[j].parent
    ensures Forest(s') && Root(s', k) == Root(s, k)
    decreases |s| - k
  {
    if s[k].parent != k {
      SameParentsSameRoots(s, s', s[k].parent);
    }
  }

  /** A new singleton set at the end leaves every existing root alone. */
  lemma {:induction false} AppendKeepsRoots(s: seq<DisjointSet>, d: DisjointSet, k: nat)
    requires Forest(s) && d.parent == |s| && k <= |s|
    ensures Forest(s + [d])
    ensures Root(s + [d], k) == if k == |s| then k else Root(s, k)
    decreases |s| - k
  {
    var s' := s + [d];
    assert forall j :: 0 <= j < |s| ==> s'[j] == s[j];
    if k < |s| && s[k].parent != k {
      AppendKeepsRoots(s, d, s[k].parent);
    }
  }

  /** Path compression: pointing set `i` straight at its root changes no root. */
  lemma {:induction false} CompressKeepsRoots(s: seq<DisjointSet>, i: nat, k: nat)
    requires Forest(s) && i < |s| && k < |s|
    ensures Forest(s[i := s[i].(parent := Root(s, i))])
    ensures Root(s[i := s[i].(parent := Root(s, i))], k) == Root(s, k)
    decreases |s| - k
  {
    var s' := s[i := s[i].(parent := Root(s, i))];
    if k == i {
      if Root(s, i) != i {
        assert s'[Root(s, i)] == s[Root(s, i)];
      }
    } else if s[k].parent != k {
      CompressKeepsRoots(s, i, s[k].parent);
    }
  }

  /**
   * Linking root `a` under the later root `b` sends every set of `a`'s
   * tree to `b` and leaves every other root alone.
   */
  lemma {:induction false} LinkRoots(s: seq<DisjointSet>, a: nat, b: nat, k: nat)
    requires Forest(s) && a < b < |s| && k < |s|
    requires s[a].parent == a && s[b].parent == b
    ensures Forest(s[a := s[a].(parent := b)])
    ensures Root(s[a := s[a].(parent := b)], k) == if Root(s, k) == a then b else Root(s, k)
    decreases |s| - k
  {
    var s' := s[a := s[a].(parent := b)];
    if k == a {
      assert s'[b] == s[b];
    } else if s[k].parent != k {
      LinkRoots(s, a, b, s[k].parent);
    }
  }

  /** Hang root `a` under root `b`, and let `b` touch the regions of both. */
  function Link(s: seq<DisjointSet>, a: nat, b: nat): seq<DisjointSet>
    requires a < |s| && b < |s|
  {
    var s' := s[a := s[a].(parent := b)];
    s'[b := s'[b].(regionsTouched := Merge(s'[b].regionsTouched, s'[a].regionsTouched))]
  }

  /**
   * Linking two roots of a forest (the earlier under the later) keeps it a
   * forest, sends every set of `a`'s tree to `b` and changes no other root.
   */
  lemma LinkFacts(s: seq<DisjointSet>, a: nat, b: nat)
    requires Forest(s) && a < b < |s|
    requires s[a].parent == a && s[b].parent == b
    ensures |Link(s, a, b)| == |s| && Forest(Link(s, a, b))
    ensures forall k :: 0 <= k < |s| ==>
      Root(Link(s, a, b), k) == if Root(s, k) == a then b else Root(s, k)
  {
    var s1 := s[a := s[a].(parent := b)];
    var s2 := Link(s, a, b);
    assert forall k :: 0 <= k < |s| ==> s2[k].parent == s1[k].parent;
    LinkRoots(s, a, b, 0);
    forall k | 0 <= k < |s|
      ensures Root(s2, k) == if Root(s, k) == a then b else Root(s, k)
    {
      LinkRoots(s, a, b, k);
      SameParentsSameRoots(s1, s2, k);
    }
  }

  /** After linking, `b` touches the regions of both trees; no other mask changes. */
  lemma LinkRegions(s: seq<DisjointSet>, a: nat, b: nat)
    requires a < b < |s|
    ensures forall k :: 0 <= k < |s| ==>
      Link(s, a, b)[k].regionsTouched ==
        if k == b then Merge(s[b].regionsTouched, s[a].regionsTouched) else s[k].regionsTouched
  {
  }

  /**
   * What `union(i, j)` leaves behind, given the forest `s2` that the two
   * `find` calls produced from `s` (same roots, same masks): either `j` was
   * already in `i`'s tree and nothing changes, or `j`'s root is linked
   * under `i`.
   */
  lemma UnionEffect(s: seq<DisjointSet>, s2: seq<DisjointSet>, s': seq<DisjointSet>, i: nat, j: nat)
    requires Forest(s) && i == |s| - 1 && j < |s|
    requires |s2| == |s| && Forest(s2)
    requires forall k :: 0 <= k < |s| ==> Root(s2, k) == Root(s, k)
    requires forall k :: 0 <= k < |s| ==> s2[k].regionsTouched == s[k].regionsTouched
    requires Root(s, j) < |s2|
    requires s' == if Root(s, j) == i then s2 else Link(s2, Root(s, j), i)
    ensures |s'| == |s| && Forest(s')
    ensures forall k :: 0 <= k < |s'| ==> Root(s', k) == if Root(s, k) == Root(s, j) then i else Root(s, k)
    ensures s'[i].regionsTouched ==
      if Root(s, j) == i then s[i].regionsTouched else Merge(s[i].regionsTouched, s[Root(s, j)].regionsTouched)
    ensures forall k :: 0 <= k < |s'| && k != i ==> s'[k].regionsTouched == s[k].regionsTouched
  {
    var rj := Root(s, j);
    RootOfRoot(s, i);
    RootOfRoot(s2, i);
    if rj != i {
      assert Root(s2, rj) == rj by { RootOfRoot(s, rj); RootOfRoot(s2, rj); }
      RootOfRoot(s2, rj);
      LinkFacts(s2, rj, i);
      LinkRegions(s2, rj, i);
    }
  }
}
