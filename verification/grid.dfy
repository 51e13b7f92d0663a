/** Flat addressing of a 3-D array stored with x fastest, then y, then z:
    cell (i, j, k) of an nx-by-ny-by-nz array lives at k*nx*ny + j*nx + i. */
module Grid {

  /** A lattice site; coordinates may lie outside any particular array. */
  datatype Cell = Cell(i: int, j: int, k: int) {
    function Plus(o: Cell): Cell { Cell(i + o.i, j + o.j, k + o.k) }
    function Minus(o: Cell): Cell { Cell(i - o.i, j - o.j, k - o.k) }
  }

  /** The flat index used throughout the solver for a cell of an array whose
      x and y extents are nx and ny. */
  function Flat(c: Cell, nx: int, ny: int): int
  {
    c.k * nx * ny + c.j * nx + c.i
  }

  predicate InArray(c: Cell, nx: int, ny: int, nz: int)
  {
    0 <= c.i < nx && 0 <= c.j < ny && 0 <= c.k < nz
  }

  /** A positive multiple of d is at least d. */
  lemma MulAtLeast(x: int, d: int)
    requires x >= 1 && d > 0
    ensures x * d >= d
  {
  }

  /** The only multiple of d strictly between -d and d is zero. */
  lemma SmallMultiple(x: int, d: int)
    requires d > 0 && -d < x * d < d
    ensures x == 0
  {
    if x >= 1 {
      MulAtLeast(x, d);
    } else if x <= -1 {
      MulAtLeast(-x, d);
    }
  }

  /** Quotient and remainder are determined by any decomposition with a
      remainder in range. */
  lemma DivModUnique(n: int, d: int, q: int, r: int)
    requires d > 0 && 0 <= r < d && n == q * d + r
    ensures n / d == q && n % d == r
  {
    var q0, r0 := n / d, n % d;
    assert (q - q0) * d == r0 - r;
    SmallMultiple(q - q0, d);
  }

  /** A remainder below nx*ny splits into a row below ny and a column below nx. */
  lemma RowBound(r: int, nx: int, ny: int)
    requires nx > 0 && ny > 0 && 0 <= r < nx * ny
    ensures 0 <= r / nx < ny
  {
    var q := r / nx;
    assert q * nx <= r;
    assert (ny - q) * nx > 0;
  }

  /** The cell at flat index n (Euclidean division, so every integer has one). */
  function Coords(n: int, nx: int, ny: int): (c: Cell)
    requires nx > 0 && ny > 0
    ensures 0 <= c.i < nx && 0 <= c.j < ny
    ensures Flat(c, nx, ny) == n
  {
    var plane := nx * ny;
    var r := n % plane;
    RowBound(r, nx, ny);
    assert n == (n / plane) * plane + r;
    assert r == (r / nx) * nx + r % nx;
    assert (n / plane) * nx * ny == (n / plane) * plane;
    Cell(r % nx, r / nx, n / plane)
  }

  /** Within an x-y plane, a cell's position is the flat index of its row and column. */
  lemma PlaneOffsetBound(c: Cell, nx: int, ny: int)
    requires nx > 0 && ny > 0 && 0 <= c.i < nx && 0 <= c.j < ny
    ensures 0 <= c.j * nx + c.i < nx * ny
  {
    assert c.j * nx <= (ny - 1) * nx;
  }

  /** Decoding a flat index recovers the cell it was built from. */
  lemma CoordsOfFlat(c: Cell, nx: int, ny: int)
    requires nx > 0 && ny > 0 && 0 <= c.i < nx && 0 <= c.j < ny
    ensures Coords(Flat(c, nx, ny), nx, ny) == c
  {
    var n := Flat(c, nx, ny);
    PlaneOffsetBound(c, nx, ny);
    assert n == c.k * (nx * ny) + (c.j * nx + c.i);
    DivModUnique(n, nx * ny, c.k, c.j * nx + c.i);
    DivModUnique(c.j * nx + c.i, nx, c.j, c.i);
  }

  /** Two cells with in-range x and y coordinates share a flat index only if equal. */
  lemma FlatInjective(a: Cell, b: Cell, nx: int, ny: int)
    requires nx > 0 && ny > 0
    requires 0 <= a.i < nx && 0 <= a.j < ny && 0 <= b.i < nx && 0 <= b.j < ny
    ensures Flat(a, nx, ny) == Flat(b, nx, ny) <==> a == b
  {
    if Flat(a, nx, ny) == Flat(b, nx, ny) {
      CoordsOfFlat(a, nx, ny);
      CoordsOfFlat(b, nx, ny);
    }
  }

  /** A cell inside the array has a flat index inside [0, nx*ny*nz). */
  lemma FlatInRange(c: Cell, nx: int, ny: int, nz: int)
    requires InArray(c, nx, ny, nz)
    ensures 0 <= Flat(c, nx, ny) < nx * ny * nz
  {
    var plane := nx * ny;
    PlaneOffsetBound(c, nx, ny);
    assert c.k * nx * ny == c.k * plane;
    MulMonotone(0, c.k, plane);
    MulMonotone(c.k, nz - 1, plane);
    assert (nz - 1) * plane == nz * plane - plane;
    assert nz * plane == nx * ny * nz;
  }

  lemma MulMonotone(a: int, b: int, p: int)
    requires a <= b && p >= 0
    ensures a * p <= b * p
  {
    assert b * p - a * p == (b - a) * p;
  }

  /** A flat index inside [0, nx*ny*nz) decodes to a cell inside the array. */
  lemma CoordsInArray(n: int, nx: int, ny: int, nz: int)
    requires nx > 0 && ny > 0 && 0 <= n < nx * ny * nz
    ensures InArray(Coords(n, nx, ny), nx, ny, nz)
  {
    RowBound(n, nx * ny, nz);
  }

  /** The flat index is linear in the cell: translating a cell translates its index. */
  lemma FlatPlus(c: Cell, s: Cell, nx: int, ny: int)
    ensures Flat(c.Plus(s), nx, ny) == Flat(c, nx, ny) + Flat(s, nx, ny)
  {
    assert (c.k + s.k) * nx * ny == c.k * nx * ny + s.k * nx * ny;
    assert (c.j + s.j) * nx == c.j * nx + s.j * nx;
  }
}
