/** Grid resolution, grid cells, the row-major traversal of the grid and the
    column reversal that glues the Klein-bottle seam. */
module Topology {

  /** The resolution constants: `gridU` x `gridV` wireframe lines, each
      `subU` (resp. `subV`) samples apart, so `StepsU()` x `StepsV()` samples. */
  datatype Dims = Dims(gridU: nat, gridV: nat, subU: nat, subV: nat) {
    predicate Valid() {
      gridU > 0 && gridV > 0 && subU > 0 && subV > 0
    }

    function StepsU(): nat {
      gridU * subU
    }

    function StepsV(): nat {
      gridV * subV
    }
  }

  /** The optimised build's resolution. */
  const ReleaseDims := Dims(32, 24, 8, 8)

  /** The debug build's resolution. */
  const DebugDims := Dims(24, 16, 3, 3)

  /** Both builds have a usable resolution: 256 x 192 samples in the
      optimised build, 72 x 48 in the debug build. */
  lemma BuildResolutions()
    ensures ReleaseDims.Valid() && ReleaseDims.StepsU() == 256 && ReleaseDims.StepsV() == 192
    ensures DebugDims.Valid() && DebugDims.StepsU() == 72 && DebugDims.StepsV() == 48
  {
  }

  /** A sample of the grid: row `row` along v, column `col` along u. */
  datatype Cell = Cell(row: nat, col: nat)

  predicate InBounds(d: Dims, c: Cell) {
    c.row < d.StepsV() && c.col < d.StepsU()
  }

  /** The column that column `i` is glued to across the seam of the surface:
      its additive inverse modulo `n`. */
  function Reverse(n: nat, i: nat): (r: nat)
    requires i < n
    ensures r < n && (i + r) % n == 0
  {
    ModSelf(n);
    if i == 0 then (n - i) % n
    else ModSmall(n - i, n); (n - i) % n
  }

  /** A remainder of a number below the divisor is the number itself. */
  lemma ModSmall(a: int, n: int)
    requires 0 <= a < n
    ensures a % n == a
  {
  }

  lemma ModSelf(n: int)
    requires 0 < n
    ensures n % n == 0
  {
  }

  lemma ReverseZero(n: nat)
    requires n > 0
    ensures Reverse(n, 0) == 0
  {
  }

  /** Reversal is its own inverse. */
  lemma ReverseInvolutive(n: nat, i: nat)
    requires i < n
    ensures Reverse(n, Reverse(n, i)) == i
  {
    if i != 0 {
      ModSmall(n - i, n);
      ModSmall(i, n);
      assert Reverse(n, i) == n - i;
    }
  }

  /** Reversal turns the successor of a column into the predecessor of its
      image: the edge (i, i + 1) is glued to the edge (r(i + 1), r(i) ) with
      r(i) = r(i + 1) + 1, so the seam is traversed backwards. */
  lemma ReverseSucc(n: nat, i: nat)
    requires i < n
    ensures (Reverse(n, (i + 1) % n) + 1) % n == Reverse(n, i)
  {
    ModSelf(n);
    if i == n - 1 {
      assert (i + 1) % n == 0;
      assert Reverse(n, 0) == 0;
      if i == 0 {
        assert 1 % n == 0;
      } else {
        ModSmall(1, n);
        assert Reverse(n, i) == 1;
      }
    } else {
      ModSmall(i + 1, n);
      ModSmall(n - i - 1, n);
      assert Reverse(n, i + 1) == n - i - 1;
      if i != 0 {
        ModSmall(n - i, n);
        assert Reverse(n, i) == n - i;
      }
    }
  }

  /** With `n = g * s`, reversing the multiple `k * s` gives the multiple of
      `s` by the reversal of `k` modulo `g`. */
  lemma ReverseMultiple(g: nat, s: nat, k: nat)
    requires s > 0 && k < g
    ensures k * s < g * s
    ensures Reverse(g * s, k * s) == Reverse(g, k) * s
  {
    MulStrict(k, g, s);
    if k != 0 {
      ModSmall(g - k, g);
      assert Reverse(g, k) == g - k;
      DistribSub(g, k, s);
      ModSmall(g * s - k * s, g * s);
      assert Reverse(g * s, k * s) == g * s - k * s;
    } else {
      ModSelf(g);
      ModSelf(g * s);
    }
  }

  /** Multiplying by a positive number keeps a strict order, with room for one more step. */
  lemma {:induction false} MulStrict(k: nat, g: nat, s: nat)
    requires k < g && s > 0
    ensures k * s < g * s && k * s + s <= g * s
    decreases g - k
  {
    var next := (k + 1) * s;
    DistribOne(k, s);
    assert next == k * s + s;
    if k + 1 < g {
      MulStrict(k + 1, g, s);
      assert next + s <= g * s;
    } else {
      assert g == k + 1;
      assert g * s == next;
    }
  }

  lemma DistribOne(k: int, s: int)
    ensures (k + 1) * s == k * s + s
  {
  }

  lemma DistribSub(g: int, k: int, s: int)
    ensures (g - k) * s == g * s - k * s
  {
  }

  /** The cells of row `j` in increasing column order. */
  function Row(j: nat, cols: nat): seq<Cell> {
    seq(cols, i requires 0 <= i < cols => Cell(j, i))
  }

  /** The cells of the first `rows` rows, row by row, each left to right. */
  function RowMajor(rows: nat, cols: nat): (cells: seq<Cell>)
    ensures |cells| == rows * cols
  {
    if rows == 0 then [] else RowMajor(rows - 1, cols) + Row(rows - 1, cols)
  }

  /** Cell (j, i) sits at position j * cols + i of the row-major order. */
  lemma {:induction false} RowMajorAt(rows: nat, cols: nat, j: nat, i: nat)
    requires j < rows && i < cols
    ensures j * cols + i < rows * cols
    ensures RowMajor(rows, cols)[j * cols + i] == Cell(j, i)
  {
    MulStrict(j, rows, cols);
    if j < rows - 1 {
      MulStrict(j, rows - 1, cols);
      RowMajorAt(rows - 1, cols, j, i);
    } else {
      assert RowMajor(rows, cols) == RowMajor(rows - 1, cols) + Row(rows - 1, cols);
    }
  }

  /** Every position of the row-major order holds an in-range cell whose
      position is determined by it. */
  lemma {:induction false} RowMajorIndex(rows: nat, cols: nat, k: nat)
    requires k < rows * cols
    ensures var c := RowMajor(rows, cols)[k];
      c.row < rows && c.col < cols && c.row * cols + c.col == k
  {
    var prefix := RowMajor(rows - 1, cols);
    assert RowMajor(rows, cols) == prefix + Row(rows - 1, cols);
    if k < |prefix| {
      RowMajorIndex(rows - 1, cols, k);
    } else {
      assert RowMajor(rows, cols)[k] == Cell(rows - 1, k - (rows - 1) * cols);
    }
  }

  /** The row-major order visits every in-range cell, and no cell twice. */
  lemma RowMajorExactlyOnce(rows: nat, cols: nat)
    ensures forall j, i :: 0 <= j < rows && 0 <= i < cols ==> Cell(j, i) in RowMajor(rows, cols)
    ensures forall k1, k2 :: 0 <= k1 < k2 < rows * cols ==> RowMajor(rows, cols)[k1] != RowMajor(rows, cols)[k2]
  {
    forall j, i | 0 <= j < rows && 0 <= i < cols
      ensures Cell(j, i) in RowMajor(rows, cols)
    {
      RowMajorAt(rows, cols, j, i);
    }
    forall k1, k2 | 0 <= k1 < k2 < rows * cols
      ensures RowMajor(rows, cols)[k1] != RowMajor(rows, cols)[k2]
    {
      RowMajorIndex(rows, cols, k1);
      RowMajorIndex(rows, cols, k2);
    }
  }
}
