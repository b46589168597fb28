/** The two render passes as index geometry: the decimated wireframe and the
    full quad mesh, each vertex named by the grid cell whose transformed
    point it is. The seam rows are glued with column reversal. */
module Render {
  import opened Topology

  datatype Primitive =
    | LineStrip(cells: seq<Cell>)
    | LineLoop(cells: seq<Cell>)
    | Quad(a: Cell, b: Cell, c: Cell, d: Cell)

  /** The wireframe line along v at column `i`: down every row, then across
      the seam to row 0 at the reversed column. */
  function Strip(d: Dims, i: nat): (s: seq<Cell>)
    requires d.Valid() && i < d.StepsU()
    ensures |s| == d.StepsV() + 1
    ensures forall k :: 0 <= k < |s| ==> InBounds(d, s[k])
  {
    seq(d.StepsV(), j requires 0 <= j < d.StepsV() => Cell(j, i)) + [Cell(0, Reverse(d.StepsU(), i))]
  }

  /** The closed wireframe line along u at row `j`. */
  function Ring(d: Dims, j: nat): (r: seq<Cell>)
    ensures |r| == d.StepsU()
    ensures j < d.StepsV() ==> forall k :: 0 <= k < |r| ==> InBounds(d, r[k])
  {
    Row(j, d.StepsU())
  }

  /** The first `n` strips of the wireframe, one every `subU` columns. */
  function Strips(d: Dims, n: nat): seq<Primitive>
    requires d.Valid() && n <= d.gridU
  {
    seq(n, k requires 0 <= k < n => MulStrict(k, d.gridU, d.subU); LineStrip(Strip(d, k * d.subU)))
  }

  /** The first `n` rings of the wireframe, one every `subV` rows. */
  function Rings(d: Dims, n: nat): seq<Primitive> {
    seq(n, k requires 0 <= k < n => LineLoop(Ring(d, k * d.subV)))
  }

  /** The whole wireframe: the strips, then the rings. */
  function GridWire(d: Dims): (w: seq<Primitive>)
    requires d.Valid()
    ensures |w| == d.gridU + d.gridV
    ensures forall k :: 0 <= k < |w| ==> PrimitiveInBounds(d, w[k])
  {
    Strips(d, d.gridU) + Rings(d, d.gridV)
  }

  /** Emits the wireframe: for every `subU`-th column a strip along v closed
      across the seam, then for every `subV`-th row a loop along u. */
  method GridPrimitives(d: Dims) returns (prims: seq<Primitive>)
    requires d.Valid()
    ensures prims == GridWire(d)
  {
    prims := [];
    var i := 0;
    ghost var n := 0;
    while i != d.StepsU()
      invariant n <= d.gridU && i == n * d.subU
      invariant prims == Strips(d, n)
      decreases d.gridU - n
    {
      assert n != d.gridU;
      MulStrict(n, d.gridU, d.subU);
      var strip := [];
      var j := 0;
      while j != d.StepsV()
        invariant 0 <= j <= d.StepsV()
        invariant strip == seq(j, jj requires 0 <= jj < j => Cell(jj, i))
      {
        strip := strip + [Cell(j, i)];
        j := j + 1;
      }
      var i2 := (d.StepsU() - i) % d.StepsU();
      strip := strip + [Cell(0, i2)];
      assert strip == Strip(d, i);
      assert Strips(d, n + 1) == Strips(d, n) + [LineStrip(Strip(d, i))];
      prims := prims + [LineStrip(strip)];
      DistribOne(n, d.subU);
      i := i + d.subU;
      n := n + 1;
    }
    assert n == d.gridU by {
      if n < d.gridU {
        MulStrict(n, d.gridU, d.subU);
      }
    }
    var j := 0;
    ghost var m := 0;
    while j != d.StepsV()
      invariant m <= d.gridV && j == m * d.subV
      invariant prims == Strips(d, d.gridU) + Rings(d, m)
      decreases d.gridV - m
    {
      assert m != d.gridV;
      MulStrict(m, d.gridV, d.subV);
      var ring := [];
      var i := 0;
      while i != d.StepsU()
        invariant 0 <= i <= d.StepsU()
        invariant ring == Row(j, i)
      {
        ring := ring + [Cell(j, i)];
        i := i + 1;
      }
      assert Rings(d, m + 1) == Rings(d, m) + [LineLoop(Ring(d, j))];
      prims := prims + [LineLoop(ring)];
      DistribOne(m, d.subV);
      j := j + d.subV;
      m := m + 1;
    }
    assert m == d.gridV by {
      if m < d.gridV {
        MulStrict(m, d.gridV, d.subV);
      }
    }
  }

  /** The quad of cell `c`: its own corner, the next column, and the two
      matching corners of the next row; past the last row the next row is
      row 0 with both columns reversed. */
  function CellQuad(d: Dims, c: Cell): (q: Primitive)
    requires d.Valid() && c.col < d.StepsU()
    ensures InBounds(d, c) ==> PrimitiveInBounds(d, q)
  {
    var j2 := (c.row + 1) % d.StepsV();
    var i1 := c.col;
    var i2 := (c.col + 1) % d.StepsU();
    if j2 == 0 then
      Quad(Cell(c.row, i1), Cell(c.row, i2), Cell(j2, Reverse(d.StepsU(), i2)), Cell(j2, Reverse(d.StepsU(), i1)))
    else
      Quad(Cell(c.row, i1), Cell(c.row, i2), Cell(j2, i2), Cell(j2, i1))
  }

  /** The quads of rows 0 .. `rows` - 1, row by row, each left to right. */
  function SurfaceRows(d: Dims, rows: nat): (quads: seq<Primitive>)
    requires d.Valid()
    ensures |quads| == rows * d.StepsU()
  {
    if rows == 0 then []
    else SurfaceRows(d, rows - 1) + seq(d.StepsU(), i requires 0 <= i < d.StepsU() => CellQuad(d, Cell(rows - 1, i)))
  }

  /** The whole quad mesh. */
  function SurfaceQuads(d: Dims): seq<Primitive>
    requires d.Valid()
  {
    SurfaceRows(d, d.StepsV())
  }

  /** Emits one quad per cell, in row-major order. */
  method SurfacePrimitives(d: Dims) returns (quads: seq<Primitive>)
    requires d.Valid()
    ensures quads == SurfaceQuads(d)
  {
    quads := [];
    var j := 0;
    while j != d.StepsV()
      invariant 0 <= j <= d.StepsV()
      invariant quads == SurfaceRows(d, j)
    {
      var j2 := (j + 1) % d.StepsV();
      var i := 0;
      while i != d.StepsU()
        invariant 0 <= i <= d.StepsU()
        invariant quads == SurfaceRows(d, j) + seq(i, ii requires 0 <= ii < i => CellQuad(d, Cell(j, ii)))
      {
        var i1 := i;
        var i2 := (i + 1) % d.StepsU();
        var a, b := Cell(j, i1), Cell(j, i2);
        if j2 == 0 {
          i1 := (d.StepsU() - i1) % d.StepsU();
          i2 := (d.StepsU() - i2) % d.StepsU();
        }
        quads := quads + [Quad(a, b, Cell(j2, i2), Cell(j2, i1))];
        i := i + 1;
      }
      j := j + 1;
    }
  }

  /** Every cell a primitive names lies in the grid. */
  predicate PrimitiveInBounds(d: Dims, p: Primitive) {
    match p
    case LineStrip(cells) => forall k :: 0 <= k < |cells| ==> InBounds(d, cells[k])
    case LineLoop(cells) => forall k :: 0 <= k < |cells| ==> InBounds(d, cells[k])
    case Quad(a, b, c, e) => InBounds(d, a) && InBounds(d, b) && InBounds(d, c) && InBounds(d, e)
  }

  /** The wireframe has `gridU` strips of `StepsV() + 1` points, one for each
      column multiple of `subU` in increasing order, then `gridV` loops of
      `StepsU()` points, one for each row multiple of `subV`. */
  lemma GridWireShape(d: Dims)
    requires d.Valid()
    ensures forall k :: 0 <= k < d.gridU ==>
      k * d.subU < d.StepsU() && GridWire(d)[k] == LineStrip(Strip(d, k * d.subU))
      && |Strip(d, k * d.subU)| == d.StepsV() + 1
    ensures forall k :: 0 <= k < d.gridV ==>
      GridWire(d)[d.gridU + k] == LineLoop(Ring(d, k * d.subV)) && |Ring(d, k * d.subV)| == d.StepsU()
  {
    var w := GridWire(d);
    forall k | 0 <= k < d.gridU
      ensures k * d.subU < d.StepsU() && w[k] == LineStrip(Strip(d, k * d.subU))
    {
      MulStrict(k, d.gridU, d.subU);
    }
    forall k | 0 <= k < d.gridV
      ensures w[d.gridU + k] == LineLoop(Ring(d, k * d.subV))
    {
      MulStrict(k, d.gridV, d.subV);
    }
  }

  /** Each strip ends where another strip starts: strip `k` closes at row 0
      of the column of strip `Reverse(gridU, k)`, so the seam crossings of the
      wireframe land on drawn lines. */
  lemma StripClosesOnStrip(d: Dims, k: nat)
    requires d.Valid() && k < d.gridU
    ensures k * d.subU < d.StepsU() && Reverse(d.gridU, k) * d.subU < d.StepsU()
    ensures Strip(d, k * d.subU)[d.StepsV()] == Strip(d, Reverse(d.gridU, k) * d.subU)[0]
  {
    ReverseMultiple(d.gridU, d.subU, k);
    MulStrict(Reverse(d.gridU, k), d.gridU, d.subU);
  }

  /** The corners of the quad of an in-range cell: below the last row they are the cell, its right neighbour (wrapping in u) and the
      two cells above; on the last row the upper corners are in row 0 at the
      reversed columns. */
  lemma CellQuadCorners(d: Dims, c: Cell)
    requires d.Valid() && InBounds(d, c)
    ensures var i2 := (c.col + 1) % d.StepsU();
      c.row < d.StepsV() - 1 ==>
        CellQuad(d, c) == Quad(c, Cell(c.row, i2), Cell(c.row + 1, i2), Cell(c.row + 1, c.col))
    ensures var i2 := (c.col + 1) % d.StepsU();
      c.row == d.StepsV() - 1 ==>
        CellQuad(d, c) == Quad(c, Cell(c.row, i2), Cell(0, Reverse(d.StepsU(), i2)), Cell(0, Reverse(d.StepsU(), c.col)))
  {
    ModSelf(d.StepsV());
    if c.row < d.StepsV() - 1 {
      ModSmall(c.row + 1, d.StepsV());
    }
  }

  /** The mesh lists the quad of every cell exactly once, in the row-major
      order in which the grid was sampled. */
  lemma {:induction false} SurfaceOrder(d: Dims, rows: nat, k: nat)
    requires d.Valid() && k < rows * d.StepsU()
    ensures RowMajor(rows, d.StepsU())[k].col < d.StepsU()
    ensures SurfaceRows(d, rows)[k] == CellQuad(d, RowMajor(rows, d.StepsU())[k])
  {
    var u := d.StepsU();
    assert RowMajor(rows, u) == RowMajor(rows - 1, u) + Row(rows - 1, u);
    if k < (rows - 1) * u {
      SurfaceOrder(d, rows - 1, k);
    }
  }

  /** The mesh has one quad per cell, and the quad of cell (j, i) is at
      position j * StepsU() + i. */
  lemma SurfaceCount(d: Dims, j: nat, i: nat)
    requires d.Valid() && j < d.StepsV() && i < d.StepsU()
    ensures |SurfaceQuads(d)| == d.StepsV() * d.StepsU()
    ensures j * d.StepsU() + i < |SurfaceQuads(d)|
    ensures SurfaceQuads(d)[j * d.StepsU() + i] == CellQuad(d, Cell(j, i))
  {
    RowMajorAt(d.StepsV(), d.StepsU(), j, i);
    SurfaceOrder(d, d.StepsV(), j * d.StepsU() + i);
  }

  /** Neighbouring quads along u share an edge: the right edge of a cell's
      quad is the left edge of the next cell's quad, also across the wrap from
      the last column to column 0. */
  lemma SurfaceClosedAlongU(d: Dims, c: Cell)
    requires d.Valid() && InBounds(d, c)
    ensures var next := Cell(c.row, (c.col + 1) % d.StepsU());
      next.col < d.StepsU() && CellQuad(d, c).b == CellQuad(d, next).a && CellQuad(d, c).c == CellQuad(d, next).d
  {
  }

  /** Below the last row, the top edge of a cell's quad is the bottom edge of
      the quad above it, traversed the other way. */
  lemma SurfaceClosedAlongV(d: Dims, c: Cell)
    requires d.Valid() && InBounds(d, c) && c.row < d.StepsV() - 1
    ensures var above := Cell(c.row + 1, c.col);
      CellQuad(d, c).d == CellQuad(d, above).a && CellQuad(d, c).c == CellQuad(d, above).b
  {
    CellQuadCorners(d, c);
  }

  /** The Klein-bottle seam: the top edge of a last-row quad is the bottom
      edge of a row-0 quad, the one at the reversed column of the next
      column, traversed the other way. */
  lemma SurfaceSeam(d: Dims, i: nat)
    requires d.Valid() && i < d.StepsU()
    ensures var u := d.StepsU();
      var glued := Cell(0, Reverse(u, (i + 1) % u));
      var last := Cell(d.StepsV() - 1, i);
      CellQuad(d, last).c == CellQuad(d, glued).a && CellQuad(d, last).d == CellQuad(d, glued).b
  {
    var u := d.StepsU();
    CellQuadCorners(d, Cell(d.StepsV() - 1, i));
    ReverseSucc(u, i);
  }

  /** Each wireframe strip runs along the left edges of the quads of its
      column, the seam crossing included. */
  lemma StripFollowsSurface(d: Dims, i: nat, j: nat)
    requires d.Valid() && i < d.StepsU() && j < d.StepsV()
    ensures Strip(d, i)[j] == CellQuad(d, Cell(j, i)).a && Strip(d, i)[j + 1] == CellQuad(d, Cell(j, i)).d
  {
    CellQuadCorners(d, Cell(j, i));
  }

  /** Each wireframe loop runs along the bottom edges of the quads of its row. */
  lemma RingFollowsSurface(d: Dims, j: nat, i: nat)
    requires d.Valid() && j < d.StepsV() && i < d.StepsU()
    ensures var r := Ring(d, j);
      |r| == d.StepsU() && r[i] == CellQuad(d, Cell(j, i)).a && r[(i + 1) % d.StepsU()] == CellQuad(d, Cell(j, i)).b
  {
  }
}
