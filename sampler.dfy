/** The sample grid: one point of the parametric surface per cell, filled
    once at start-up and only read afterwards. */
module Sampler {
  import opened Topology

  /** The parameter rectangle: u runs over [minU, minU + rangeU), v over
      [minV, minV + rangeV). */
  datatype Domain = Domain(minU: real, rangeU: real, minV: real, rangeV: real) {
    /** The u parameter of column `i`: `StepsU()` equal steps across the range. */
    function U(d: Dims, i: nat): real
      requires d.Valid()
    {
      minU + rangeU / (d.StepsU() as real) * (i as real)
    }

    /** The v parameter of row `j`. */
    function V(d: Dims, j: nat): real
      requires d.Valid()
    {
      minV + rangeV / (d.StepsV() as real) * (j as real)
    }
  }

  /** Fills `grid[j, i]` with the surface point at the parameters of column
      `i` and row `j`. The surface mapping is the parameter `makePoint`; the
      ghost result `order` records the cells in the order they are written,
      and a cell not yet recorded keeps its old value. */
  method Init<P>(grid: array2<P>, d: Dims, dom: Domain, makePoint: (real, real) -> P)
      returns (ghost order: seq<Cell>)
    requires d.Valid()
    requires grid.Length0 == d.StepsV() && grid.Length1 == d.StepsU()
    modifies grid
    ensures order == RowMajor(d.StepsV(), d.StepsU())
    ensures forall j, i :: 0 <= j < grid.Length0 && 0 <= i < grid.Length1 ==>
      grid[j, i] == makePoint(dom.U(d, i), dom.V(d, j))
  {
    order := [];
    var j := 0;
    while j != d.StepsV()
      invariant 0 <= j <= d.StepsV()
      invariant order == RowMajor(j, d.StepsU())
      invariant forall jj, i :: 0 <= jj < grid.Length0 && 0 <= i < grid.Length1 && Cell(jj, i) !in order ==>
        grid[jj, i] == old(grid[jj, i])
      invariant forall jj, i :: 0 <= jj < j && 0 <= i < grid.Length1 ==>
        grid[jj, i] == makePoint(dom.U(d, i), dom.V(d, jj))
    {
      var i := 0;
      while i != d.StepsU()
        invariant 0 <= i <= d.StepsU()
        invariant order == RowMajor(j, d.StepsU()) + Row(j, i)
        invariant forall jj, ii :: 0 <= jj < grid.Length0 && 0 <= ii < grid.Length1 && Cell(jj, ii) !in order ==>
          grid[jj, ii] == old(grid[jj, ii])
        invariant forall jj, ii :: 0 <= jj < j && 0 <= ii < grid.Length1 ==>
          grid[jj, ii] == makePoint(dom.U(d, ii), dom.V(d, jj))
        invariant forall ii :: 0 <= ii < i ==> grid[j, ii] == makePoint(dom.U(d, ii), dom.V(d, j))
      {
        grid[j, i] := makePoint(dom.U(d, i), dom.V(d, j));
        order := order + [Cell(j, i)];
        assert Row(j, i) + [Cell(j, i)] == Row(j, i + 1);
        i := i + 1;
      }
      j := j + 1;
    }
  }
}
