/**
 * Barycentric cell coordinates of a triangular board of side `size`:
 * every cell has `x + y + z == size - 1`.  The crate's `Coordinates`
 * type and its `to_index` / `from_index` are not part of this model;
 * their behaviour is the assumed definition below, which numbers the
 * cells row by row from the top corner: row `r = size - 1 - x` holds
 * `r + 1` cells, and the cell in column `y` of row `r` has index
 * `r(r+1)/2 + y`.
 */
module Coords {

  /** Player identifiers: 0 plays 'B', 1 plays 'R'. */
  type PlayerId = nat

  /**
   * Number of cells in the first `r` rows of a triangle, row `k` holding
   * `k + 1` cells.  Written as a sum so that proofs about indices stay
   * linear; `TriFormula` gives the closed form the crate computes.
   */
  function Tri(r: nat): nat
  {
    if r == 0 then 0 else Tri(r - 1) + r
  }

  lemma TriStep(r: nat)
    ensures Tri(r + 1) == Tri(r) + r + 1
  {
  }

  /** The closed form `r(r+1)/2`, the way the crate counts a board's cells. */
  lemma {:induction false} TriFormula(r: nat)
    ensures Tri(r) == r * (r + 1) / 2
  {
    if r > 0 {
      TriFormula(r - 1);
      assert r * (r + 1) == (r - 1) * r + 2 * r;
    }
  }

  /** Rows are laid out one after the other: row `a` ends before row `b` starts. */
  lemma {:induction false} TriOrdered(a: nat, b: nat)
    requires a < b
    ensures Tri(a) + a < Tri(b)
    decreases b - a
  {
    TriStep(a);
    if a + 1 < b {
      TriOrdered(a + 1, b);
      TriStep(a + 1);
    }
  }

  /** A (row, column) pair, column within the row, names a unique index. */
  lemma TriUnique(r1: nat, c1: nat, r2: nat, c2: nat)
    requires c1 <= r1 && c2 <= r2
    requires Tri(r1) + c1 == Tri(r2) + c2
    ensures r1 == r2 && c1 == c2
  {
    if r1 < r2 {
      TriOrdered(r1, r2);
    } else if r2 < r1 {
      TriOrdered(r2, r1);
    }
  }

  datatype Coordinates = Coordinates(x: nat, y: nat, z: nat)

  /** The coordinates name a cell of the side-`size` board. */
  predicate OnBoard(c: Coordinates, size: nat)
  {
    c.x + c.y + c.z + 1 == size
  }

  predicate TouchesSideA(c: Coordinates) { c.x == 0 }
  predicate TouchesSideB(c: Coordinates) { c.y == 0 }
  predicate TouchesSideC(c: Coordinates) { c.z == 0 }

  /**
   * Cell index of the coordinates (assumed definition of `to_index`). The
   * test repeats the precondition so that the row number handed to `Tri` is
   * a natural number even where the verifier evaluates constant arguments.
   */
  function ToIndex(c: Coordinates, size: nat): nat
    requires c.x < size
  {
    if c.x < size then Tri(size - 1 - c.x) + c.y else c.y
  }

  /**
   * Row and column of the cell `k` places after the start of row `r`.
   * Its properties are stated apart, in `RowColFacts`, so that evaluating
   * it on small constants stays cheap.
   */
  function RowCol(k: nat, r: nat): (nat, nat)
    decreases k
  {
    if k <= r then (r, k) else RowCol(k - (r + 1), r + 1)
  }

  /** The column lies within its row, no earlier than row `r`, and the pair names the same index. */
  lemma {:induction false} RowColFacts(k: nat, r: nat)
    ensures RowCol(k, r).1 <= RowCol(k, r).0 && r <= RowCol(k, r).0
    ensures Tri(RowCol(k, r).0) + RowCol(k, r).1 == Tri(r) + k
    decreases k
  {
    if k > r {
      TriStep(r);
      RowColFacts(k - (r + 1), r + 1);
    }
  }

  /**
   * Coordinates of a cell index (assumed definition of `from_index`).  The
   * guard always holds for an index in range (`FromIndexFacts`); it lets
   * the definition be checked without a proof inside it.
   */
  function FromIndex(idx: nat, size: nat): (c: Coordinates)
    requires idx < Tri(size)
    ensures c.x + c.y + c.z + 1 == size  // the cell is on the board
  {
    var rc := RowCol(idx, 0);
    if rc.1 <= rc.0 < size then Coordinates(size - 1 - rc.0, rc.1, rc.0 - rc.1) else Coordinates(size - 1, 0, 0)
  }

  /** `to_index` undoes `from_index`. */
  lemma FromIndexFacts(idx: nat, size: nat)
    requires idx < Tri(size)
    ensures ToIndex(FromIndex(idx, size), size) == idx
  {
    RowColFacts(idx, 0);
    RowBelowSize(RowCol(idx, 0).0, RowCol(idx, 0).1, size);
  }

  lemma RowBelowSize(r: nat, col: nat, size: nat)
    requires col <= r && Tri(r) + col < Tri(size)
    ensures r < size
  {
    if size <= r {
      if size < r { TriOrdered(size, r); }
    }
  }

  /** An on-board cell has an in-range index, and `from_index` undoes `to_index`. */
  lemma IndexRoundTrip(c: Coordinates, size: nat)
    requires OnBoard(c, size)
    ensures ToIndex(c, size) < Tri(size)
    ensures FromIndex(ToIndex(c, size), size) == c
  {
    var r := size - 1 - c.x;
    TriStep(r);
    if r + 1 < size { TriOrdered(r + 1, size); }
    var idx := ToIndex(c, size);
    var rc := RowCol(idx, 0);
    RowColFacts(idx, 0);
    FromIndexFacts(idx, size);
    TriUnique(rc.0, rc.1, r, c.y);
  }

  /** Index of the cell in row `r`, column `col`, as the layout codec computes it. */
  lemma RowColumnIndex(r: nat, col: nat, size: nat)
    requires r < size && col <= r
    ensures Tri(r) + col < Tri(size)
    ensures FromIndex(Tri(r) + col, size) == Coordinates(size - 1 - r, col, r - col)
  {
    IndexRoundTrip(Coordinates(size - 1 - r, col, r - col), size);
  }
}
