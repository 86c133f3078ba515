/** Row-major addressing of the Nx by Ny cell grid shared by the potential
    builder, the solver and the simulation. */
module Grid {

  /** idx(i, j, Nx): the flat index of cell (i, j), row j, column i. */
  function Idx(i: int, j: int, nx: int): int {
    j * nx + i
  }

  /** The column of flat index k. */
  function Col(k: int, nx: int): int
    requires nx > 0
  {
    k % nx
  }

  /** The row of flat index k. */
  function Row(k: int, nx: int): int
    requires nx > 0
  {
    k / nx
  }

  lemma MulAtLeast(nx: int, d: int)
    requires nx > 0 && d >= 1
    ensures nx * d >= nx
  {}

  lemma MulNonneg(a: int, b: int)
    requires a >= 0 && b >= 0
    ensures a * b >= 0
  {}

  /** Every in-grid cell has an index inside the flat buffer. */
  lemma IdxInRange(i: int, j: int, nx: int, ny: int)
    requires 0 <= i < nx && 0 <= j < ny
    ensures 0 <= Idx(i, j, nx) < nx * ny
  {
    MulNonneg(j, nx);
    MulNonneg(ny - 1 - j, nx);
    assert (ny - 1 - j) * nx == ny * nx - nx - j * nx;
    assert ny * nx == nx * ny;
  }

  /** Division with remainder has a unique answer. */
  lemma DivModUnique(k: int, nx: int, q: int, r: int)
    requires nx > 0 && 0 <= r < nx && k == nx * q + r
    ensures k / nx == q && k % nx == r
  {
    var q', r' := k / nx, k % nx;
    assert k == nx * q' + r';
    if q' > q {
      assert nx * (q' - q) == nx * q' - nx * q;
      MulAtLeast(nx, q' - q);
    } else if q' < q {
      assert nx * (q - q') == nx * q - nx * q';
      MulAtLeast(nx, q - q');
    }
  }

  /** Reading the column and row back from an index gives the cell. */
  lemma ColRowOfIdx(i: int, j: int, nx: int)
    requires 0 <= i < nx && 0 <= j
    ensures Col(Idx(i, j, nx), nx) == i && Row(Idx(i, j, nx), nx) == j
  {
    DivModUnique(Idx(i, j, nx), nx, j, i);
  }

  /** Every index is the index of its own column and row. */
  lemma IdxOfColRow(k: int, nx: int, ny: int)
    requires nx > 0 && 0 <= k < nx * ny
    ensures Idx(Col(k, nx), Row(k, nx), nx) == k
    ensures 0 <= Col(k, nx) < nx && 0 <= Row(k, nx) < ny
  {
    assert k == nx * (k / nx) + k % nx;
  }

  /** Cells a..b of row j are exactly the indices from idx(a, j) to idx(b, j). */
  lemma InRowSpan(k: int, j: int, a: int, b: int, nx: int)
    requires 0 <= a <= b < nx && 0 <= j && 0 <= k
    ensures Idx(a, j, nx) <= k <= Idx(b, j, nx) <==> Row(k, nx) == j && a <= Col(k, nx) <= b
  {
    if Idx(a, j, nx) <= k <= Idx(b, j, nx) {
      DivModUnique(k, nx, j, k - j * nx);
    }
  }

  /** The cell after the last one of row j is the first one of row j + 1. */
  lemma IdxNextRow(j: int, nx: int)
    ensures Idx(nx, j, nx) == Idx(0, j + 1, nx)
  {
    assert (j + 1) * nx == j * nx + nx;
  }

  /** The grid holds nx * ny cells, one past the index of its last cell. */
  lemma IdxEnd(nx: int, ny: int)
    ensures Idx(0, ny, nx) == nx * ny
  {}
}
