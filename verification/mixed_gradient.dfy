/** The addressing of the mixed-gradient kernel ScaLBL_D3Q19_MixedGradient:
    for every listed site it decodes the site's flat index into (i, j, k),
    reads the field one step ahead, two steps ahead and one step behind along
    each of the 18 D3Q19 velocities, and writes one gradient value at the
    site.  Field values are exact reals; an array access outside its array
    is an error. */
module MixedGradient {
  import opened Grid
  import opened Results

  // ---------------------------------------------------------------------
  // The D3Q19 velocity table
  // ---------------------------------------------------------------------

  /** A lattice velocity. */
  datatype Step = Step(x: int, y: int, z: int) {
    function Negate(): Step { Step(-x, -y, -z) }

    function Times(s: int): Cell { Cell(s * x, s * y, s * z) }

    /** Every component is -1, 0 or 1. */
    predicate Unit() { -1 <= x <= 1 && -1 <= y <= 1 && -1 <= z <= 1 }

    function NonZeros(): nat
    {
      (if x != 0 then 1 else 0) + (if y != 0 then 1 else 0) + (if z != 0 then 1 else 0)
    }
  }

  /** Row q of the kernel's static D3Q19 table: six face neighbours, then
      twelve edge neighbours, each followed by its opposite. */
  function Velocity(q: int): Step
    requires 0 <= q < 18
  {
    match q
    case 0 => Step(1, 0, 0)
    case 1 => Step(-1, 0, 0)
    case 2 => Step(0, 1, 0)
    case 3 => Step(0, -1, 0)
    case 4 => Step(0, 0, 1)
    case 5 => Step(0, 0, -1)
    case 6 => Step(1, 1, 0)
    case 7 => Step(-1, -1, 0)
    case 8 => Step(1, -1, 0)
    case 9 => Step(-1, 1, 0)
    case 10 => Step(1, 0, 1)
    case 11 => Step(-1, 0, -1)
    case 12 => Step(1, 0, -1)
    case 13 => Step(-1, 0, 1)
    case 14 => Step(0, 1, 1)
    case 15 => Step(0, -1, -1)
    case 16 => Step(0, 1, -1)
    case _ => Step(0, -1, 1)
  }

  /** Rows 2m and 2m + 1 are opposite velocities. */
  lemma VelocityPairs(m: int)
    requires 0 <= m < 9
    ensures Velocity(2 * m + 1) == Velocity(2 * m).Negate()
  {
    // One case per pair.
    if m == 0 {
    } else if m == 1 {
    } else if m == 2 {
    } else if m == 3 {
    } else if m == 4 {
    } else if m == 5 {
    } else if m == 6 {
    } else if m == 7 {
    }
  }

  /** The first six rows are unit axis vectors, the other twelve have
      exactly two nonzero components, all of them -1 or 1. */
  lemma VelocityShape(q: int)
    requires 0 <= q < 18
    ensures Velocity(q).Unit()
    ensures q < 6 ==> Velocity(q).NonZeros() == 1
    ensures 6 <= q ==> Velocity(q).NonZeros() == 2
  {
  }

  function Side(a: int): int
  {
    if a == 1 then 0 else 1
  }

  function Pair(a: int, b: int): int
  {
    if a == b then Side(a) else 2 + Side(a)
  }

  /** The row of the table holding a given velocity: every velocity with
      components in {-1, 0, 1} and one or two of them nonzero is in the
      table. */
  function VelocityIndex(e: Step): (q: int)
    requires e.Unit() && 1 <= e.NonZeros() <= 2
    ensures 0 <= q < 18 && Velocity(q) == e
  {
    if e.NonZeros() == 1 then
      if e.x != 0 then Side(e.x)
      else if e.y != 0 then 2 + Side(e.y)
      else 4 + Side(e.z)
    else if e.z == 0 then 6 + Pair(e.x, e.y)
    else if e.y == 0 then 10 + Pair(e.x, e.z)
    else 14 + Pair(e.y, e.z)
  }

  /** No velocity appears twice in the table. */
  lemma VelocitiesDistinct(p: int, q: int)
    requires 0 <= p < 18 && 0 <= q < 18
    ensures Velocity(p) == Velocity(q) <==> p == q
  {
    VelocityShape(p);
    VelocityShape(q);
    if Velocity(p) == Velocity(q) {
      VelocityRow(p);
      VelocityRow(q);
    }
  }

  /** Looking up a row's velocity gives the row back. */
  lemma VelocityRow(q: int)
    requires 0 <= q < 18
    ensures Velocity(q).Unit() && 1 <= Velocity(q).NonZeros() <= 2
    ensures VelocityIndex(Velocity(q)) == q
  {
    VelocityShape(q);
  }

  // ---------------------------------------------------------------------
  // Flat index to coordinates (lines 20-22)
  // ---------------------------------------------------------------------

  function Abs(a: int): int
  {
    if a < 0 then -a else a
  }

  /** C's integer division, which truncates toward zero: the remainder has
      the sign of the dividend and is smaller than the divisor in size. */
  function CDiv(a: int, b: int): (q: int)
    requires b != 0
    ensures a >= 0 ==> 0 <= a - q * b < Abs(b)
    ensures a < 0 ==> -Abs(b) < a - q * b <= 0
  {
    var m := Abs(a) / Abs(b);
    var q := if (a < 0) == (b < 0) then m else -m;
    TruncatedRemainder(a, b, m, q);
    q
  }

  lemma TruncatedRemainder(a: int, b: int, m: int, q: int)
    requires b != 0 && m == Abs(a) / Abs(b)
    requires q == (if (a < 0) == (b < 0) then m else -m)
    ensures a >= 0 ==> a - q * b == Abs(a) % Abs(b)
    ensures a < 0 ==> a - q * b == -(Abs(a) % Abs(b))
  {
    var x, y := Abs(a), Abs(b);
    assert x == m * y + x % y;
    if (a < 0) == (b < 0) {
      SignedProduct(m, y, b);
    } else {
      SignedProduct(-m, y, b);
      assert -m * y == -(m * y);
    }
  }

  /** q * b for b = y or b = -y. */
  lemma SignedProduct(q: int, y: int, b: int)
    requires b == y || b == -y
    ensures b == y ==> q * b == q * y
    ensures b == -y ==> q * b == -(q * y)
  {
  }

  /** The kernel's decoding of site n: k = n / (Nx*Ny), then j from the
      remainder divided by Nx, then i as what is left, with C division. */
  function Decompose(n: int, nx: int, ny: int): (c: Cell)
    requires nx > 0 && ny > 0
    ensures Flat(c, nx, ny) == n
    ensures n >= 0 ==> c == Coords(n, nx, ny)
  {
    var k := CDiv(n, nx * ny);
    var j := CDiv(n - nx * ny * k, nx);
    var c := Cell(n - nx * ny * k - nx * j, j, k);
    DecomposeSpec(n, nx, ny, c);
    c
  }

  /** The decoded cell's flat index is n; for n >= 0 the C divisions agree
      with the Euclidean ones, so the decoding is the one the rest of the
      model uses. */
  lemma DecomposeSpec(n: int, nx: int, ny: int, c: Cell)
    requires nx > 0 && ny > 0
    requires c.k == CDiv(n, nx * ny) && c.j == CDiv(n - nx * ny * c.k, nx)
    requires c.i == n - nx * ny * c.k - nx * c.j
    ensures Flat(c, nx, ny) == n
    ensures n >= 0 ==> c == Coords(n, nx, ny)
  {
    Associate(c.k, nx, ny);
    assert nx * c.j == c.j * nx;
    if n >= 0 {
      DecomposeInRange(n, nx, ny, c);
      CoordsOfFlat(c, nx, ny);
    }
  }

  /** For n >= 0 both truncating divisions see non-negative dividends, so
      the decoded i and j fall inside the row and the plane. */
  lemma DecomposeInRange(n: int, nx: int, ny: int, c: Cell)
    requires nx > 0 && ny > 0 && n >= 0
    requires c.k == CDiv(n, nx * ny) && c.j == CDiv(n - nx * ny * c.k, nx)
    requires c.i == n - nx * ny * c.k - nx * c.j
    ensures 0 <= c.i < nx && 0 <= c.j < ny
  {
    var plane := nx * ny;
    MulAtLeast(nx, ny);
    CDivNonNegative(n, plane, c.k);
    assert plane * c.k == c.k * plane;
    RowSplit(n - plane * c.k, nx, ny, c.j, c.i);
  }

  /** On a non-negative dividend and a positive divisor the truncating
      quotient leaves a remainder in [0, b). */
  lemma CDivNonNegative(a: int, b: int, q: int)
    requires a >= 0 && b > 0 && q == CDiv(a, b)
    ensures 0 <= a - q * b < b
  {
    assert Abs(b) == b;
  }

  /** A position r inside an nx-by-ny plane splits into a row j < ny and a
      column i < nx. */
  lemma RowSplit(r: int, nx: int, ny: int, j: int, i: int)
    requires nx > 0 && ny > 0 && 0 <= r < nx * ny
    requires j == CDiv(r, nx) && i == r - nx * j
    ensures 0 <= i < nx && 0 <= j < ny
  {
    CDivNonNegative(r, nx, j);
    assert nx * j == j * nx;
    DivModUnique(r, nx, j, i);
    RowBound(r, nx, ny);
  }

  lemma Associate(k: int, nx: int, ny: int)
    ensures nx * ny * k == k * nx * ny
  {
  }

  /** Decoding the flat index of a cell with i and j in range and k >= 0
      recovers the cell. */
  lemma DecomposeFlat(c: Cell, nx: int, ny: int)
    requires nx > 0 && ny > 0 && 0 <= c.i < nx && 0 <= c.j < ny && c.k >= 0
    ensures Decompose(Flat(c, nx, ny), nx, ny) == c
  {
    PlaneOffsetBound(c, nx, ny);
    assert c.k * nx * ny >= 0;
    CoordsOfFlat(c, nx, ny);
  }

  /** A negative index just below zero decodes to i = n, outside [0, Nx),
      instead of the cell (n + Nx, Ny - 1, -1) it is the flat index of: the
      decoding needs n >= 0. */
  lemma NegativeIndexDecodesOutside(n: int, nx: int, ny: int)
    requires nx > 0 && ny > 0 && -nx < n < 0
    ensures Decompose(n, nx, ny) == Cell(n, 0, 0)
    ensures Decompose(n, nx, ny) != Coords(n, nx, ny)
  {
    var k := CDiv(n, nx * ny);
    MulAtLeast(ny, nx);
    assert ny * nx == nx * ny;
    SmallMultiple(k, nx * ny);
    var j := CDiv(n - nx * ny * k, nx);
    assert n - nx * ny * k == n;
    SmallMultiple(j, nx);
  }

  // ---------------------------------------------------------------------
  // Neighbour indices (lines 29-31 and 41-43)
  // ---------------------------------------------------------------------

  /** np: one step along e. */
  function Forward(c: Cell, e: Step, nx: int, ny: int): int
  {
    (c.k + e.z) * nx * ny + (c.j + e.y) * nx + c.i + e.x
  }

  /** np2: two steps along e. */
  function Forward2(c: Cell, e: Step, nx: int, ny: int): int
  {
    (c.k + 2 * e.z) * nx * ny + (c.j + 2 * e.y) * nx + c.i + 2 * e.x
  }

  /** nm: one step against e. */
  function Backward(c: Cell, e: Step, nx: int, ny: int): int
  {
    (c.k - e.z) * nx * ny + (c.j - e.y) * nx + c.i - e.x
  }

  /** The three neighbour indices are the flat indices of c + e, c + 2e and
      c - e. */
  lemma NeighbourIndices(c: Cell, e: Step, nx: int, ny: int)
    ensures Forward(c, e, nx, ny) == Flat(c.Plus(e.Times(1)), nx, ny)
    ensures Forward2(c, e, nx, ny) == Flat(c.Plus(e.Times(2)), nx, ny)
    ensures Backward(c, e, nx, ny) == Flat(c.Plus(e.Times(-1)), nx, ny)
  {
  }

  /** A site at least two cells from every face of the array. */
  predicate Interior(c: Cell, nx: int, ny: int, nz: int)
  {
    2 <= c.i < nx - 2 && 2 <= c.j < ny - 2 && 2 <= c.k < nz - 2
  }

  /** From an interior site, every cell the kernel reads is in the array. */
  lemma InteriorReach(c: Cell, q: int, s: int, nx: int, ny: int, nz: int)
    requires Interior(c, nx, ny, nz) && 0 <= q < 18 && -1 <= s <= 2
    ensures Grid.InArray(c.Plus(Velocity(q).Times(s)), nx, ny, nz)
  {
    VelocityShape(q);
  }

  /** From an interior site every index the kernel forms lies in
      [0, Nx*Ny*Nz) and decodes to the neighbour it was meant to name. */
  lemma InteriorReadsInBounds(c: Cell, q: int, nx: int, ny: int, nz: int)
    requires Interior(c, nx, ny, nz) && 0 <= q < 18
    ensures 0 <= Forward(c, Velocity(q), nx, ny) < nx * ny * nz
    ensures 0 <= Forward2(c, Velocity(q), nx, ny) < nx * ny * nz
    ensures 0 <= Backward(c, Velocity(q), nx, ny) < nx * ny * nz
    ensures Decompose(Forward(c, Velocity(q), nx, ny), nx, ny) == c.Plus(Velocity(q).Times(1))
    ensures Decompose(Forward2(c, Velocity(q), nx, ny), nx, ny) == c.Plus(Velocity(q).Times(2))
    ensures Decompose(Backward(c, Velocity(q), nx, ny), nx, ny) == c.Plus(Velocity(q).Times(-1))
  {
    var e := Velocity(q);
    NeighbourIndices(c, e, nx, ny);
    InteriorReach(c, q, 1, nx, ny, nz);
    InteriorReach(c, q, 2, nx, ny, nz);
    InteriorReach(c, q, -1, nx, ny, nz);
    FlatInRange(c.Plus(e.Times(1)), nx, ny, nz);
    FlatInRange(c.Plus(e.Times(2)), nx, ny, nz);
    FlatInRange(c.Plus(e.Times(-1)), nx, ny, nz);
    DecomposeFlat(c.Plus(e.Times(1)), nx, ny);
    DecomposeFlat(c.Plus(e.Times(2)), nx, ny);
    DecomposeFlat(c.Plus(e.Times(-1)), nx, ny);
  }

  /** Near a face the flat index wraps instead of leaving the array: one
      step in +x from the last cell of a row is the first cell of the next
      row, a different site inside the same array. */
  lemma RowWrap(c: Cell, nx: int, ny: int, nz: int)
    requires nx > 0 && c.i == nx - 1 && 0 <= c.j < ny - 1 && 0 <= c.k < nz
    ensures Forward(c, Velocity(0), nx, ny) == Flat(Cell(0, c.j + 1, c.k), nx, ny)
    ensures Decompose(Forward(c, Velocity(0), nx, ny), nx, ny) == Cell(0, c.j + 1, c.k)
    ensures Decompose(Forward(c, Velocity(0), nx, ny), nx, ny) != c.Plus(Velocity(0).Times(1))
  {
    DecomposeFlat(Cell(0, c.j + 1, c.k), nx, ny);
  }

  // ---------------------------------------------------------------------
  // The gradient at one site (lines 18-48)
  // ---------------------------------------------------------------------

  /** Face velocities weigh 0.25, edge velocities 0.125. */
  function Weight(q: int): (wt: real)
    requires 0 <= q < 18
    ensures wt == 0.25 <==> Velocity(q).NonZeros() == 1
    ensures wt == 0.125 <==> Velocity(q).NonZeros() == 2
  {
    VelocityShape(q);
    if q < 6 then 0.25 else 0.125
  }

  /** The value at index p of an array, or an error outside it. */
  function Read(phi: seq<real>, p: int): (r: Result<real>)
    ensures r.Ok? <==> 0 <= p < |phi|
    ensures r.Ok? ==> r.value == phi[p]
  {
    if 0 <= p < |phi| then Ok(phi[p]) else Err("read outside the array")
  }

  /** The contribution of velocity q at site c, whose own value is v. */
  function Term(phi: seq<real>, c: Cell, v: real, q: int, nx: int, ny: int): (r: Result<real>)
    requires 0 <= q < 18
    ensures r.Ok? <==> (0 <= Forward(c, Velocity(q), nx, ny) < |phi|
      && 0 <= Forward2(c, Velocity(q), nx, ny) < |phi| && 0 <= Backward(c, Velocity(q), nx, ny) < |phi|)
  {
    var e := Velocity(q);
    match Read(phi, Forward(c, e, nx, ny))
    case Err(m) => Err(m)
    case Ok(vp) =>
      match Read(phi, Forward2(c, e, nx, ny))
      case Err(m) => Err(m)
      case Ok(vp2) =>
        match Read(phi, Backward(c, e, nx, ny))
        case Err(m) => Err(m)
        case Ok(vm) => Ok(Weight(q) * (5.0 * vp - vp2 - 3.0 * v - vm))
  }

  /** The 18 terms of site c, in the order the two q loops visit them. */
  function Terms(phi: seq<real>, c: Cell, v: real, nx: int, ny: int): (rs: seq<Result<real>>)
    ensures |rs| == 18
  {
    seq(18, q requires 0 <= q < 18 => Term(phi, c, v, q, nx, ny))
  }

  /** grad += rs[q], rs[q + 1], ... in turn, stopping at the first failed
      term. */
  function Accumulate(rs: seq<Result<real>>, q: int, grad: real): Result<real>
    requires 0 <= q <= |rs|
    decreases |rs| - q
  {
    if q == |rs| then Ok(grad)
    else
      match rs[q]
      case Err(m) => Err(m)
      case Ok(t) => Accumulate(rs, q + 1, grad + t)
  }

  /** The value the kernel computes for site n. */
  function GradientAt(phi: seq<real>, n: int, nx: int, ny: int): (r: Result<real>)
    requires nx > 0 && ny > 0
    ensures r.Ok? <==> (0 <= n < |phi| &&
      forall q :: 0 <= q < 18 ==> Term(phi, Decompose(n, nx, ny), phi[n], q, nx, ny).Ok?)
  {
    match Read(phi, n)
    case Err(m) => Err(m)
    case Ok(v) =>
      var rs := Terms(phi, Decompose(n, nx, ny), v, nx, ny);
      AccumulateOk(rs, 0, 0.0);
      assert forall q :: 0 <= q < 18 ==> rs[q] == Term(phi, Decompose(n, nx, ny), phi[n], q, nx, ny);
      Accumulate(rs, 0, 0.0)
  }

  /** The running sum succeeds exactly when every remaining term does. */
  lemma {:induction false} AccumulateOk(rs: seq<Result<real>>, q: int, grad: real)
    requires 0 <= q <= |rs|
    ensures Accumulate(rs, q, grad).Ok? <==> forall p :: q <= p < |rs| ==> rs[p].Ok?
    decreases |rs| - q
  {
    if q < |rs| && rs[q].Ok? {
      AccumulateOk(rs, q + 1, grad + rs[q].value);
    }
  }

  /** When every term from q on succeeds with value ts[p], the running sum
      ends at grad plus the sum of those values. */
  lemma {:induction false} AccumulateSum(rs: seq<Result<real>>, q: int, grad: real, ts: seq<real>)
    requires 0 <= q <= |rs| && |ts| == |rs|
    requires forall p :: q <= p < |rs| ==> rs[p] == Ok(ts[p])
    ensures Accumulate(rs, q, grad) == Ok(grad + Sum(ts, q))
    decreases |rs| - q
  {
    if q < |rs| {
      AccumulateSum(rs, q + 1, grad + ts[q], ts);
    }
  }

  /** When every successful term is 0, a successful sum is where it
      started. */
  lemma {:induction false} AccumulateZeros(rs: seq<Result<real>>, q: int, grad: real)
    requires 0 <= q <= |rs|
    requires forall p :: q <= p < |rs| && rs[p].Ok? ==> rs[p].value == 0.0
    ensures Accumulate(rs, q, grad).Ok? ==> Accumulate(rs, q, grad).value == grad
    decreases |rs| - q
  {
    if q < |rs| && rs[q].Ok? {
      AccumulateZeros(rs, q + 1, grad + rs[q].value);
    }
  }

  /** ts[q] + ts[q + 1] + ... + ts[|ts| - 1]. */
  function Sum(ts: seq<real>, q: int): real
    requires 0 <= q <= |ts|
    decreases |ts| - q
  {
    if q == |ts| then 0.0 else ts[q] + Sum(ts, q + 1)
  }

  // ---------------------------------------------------------------------
  // The stencil in terms of cells
  // ---------------------------------------------------------------------

  /** The field value at a cell of the array. */
  function Value(phi: seq<real>, nx: int, ny: int, nz: int, d: Cell): real
    requires |phi| == nx * ny * nz && Grid.InArray(d, nx, ny, nz)
  {
    FlatInRange(d, nx, ny, nz);
    phi[Flat(d, nx, ny)]
  }

  /** The term of velocity e = Velocity(q) at cell c:
      weight * (5 phi(c + e) - phi(c + 2e) - 3 phi(c) - phi(c - e)). */
  function StencilTerm(phi: seq<real>, nx: int, ny: int, nz: int, c: Cell, q: int): real
    requires |phi| == nx * ny * nz && Interior(c, nx, ny, nz) && 0 <= q < 18
  {
    var e := Velocity(q);
    InteriorReach(c, q, 1, nx, ny, nz);
    InteriorReach(c, q, 2, nx, ny, nz);
    InteriorReach(c, q, -1, nx, ny, nz);
    InteriorReach(c, q, 0, nx, ny, nz);
    Weight(q) * (5.0 * Value(phi, nx, ny, nz, c.Plus(e.Times(1)))
                 - Value(phi, nx, ny, nz, c.Plus(e.Times(2)))
                 - 3.0 * Value(phi, nx, ny, nz, c.Plus(e.Times(0)))
                 - Value(phi, nx, ny, nz, c.Plus(e.Times(-1))))
  }

  /** The stencil's 18 terms, one per velocity. */
  function StencilTerms(phi: seq<real>, nx: int, ny: int, nz: int, c: Cell): (ts: seq<real>)
    requires |phi| == nx * ny * nz && Interior(c, nx, ny, nz)
    ensures |ts| == 18
  {
    seq(18, q requires 0 <= q < 18 => StencilTerm(phi, nx, ny, nz, c, q))
  }

  /** At an interior site, the kernel's term for velocity q reads the
      three neighbours of the stencil term. */
  lemma TermIsStencilTerm(phi: seq<real>, nx: int, ny: int, nz: int, c: Cell, q: int)
    requires |phi| == nx * ny * nz && Interior(c, nx, ny, nz) && 0 <= q < 18
    ensures 0 <= Flat(c, nx, ny) < |phi|
    ensures Term(phi, c, phi[Flat(c, nx, ny)], q, nx, ny) == Ok(StencilTerm(phi, nx, ny, nz, c, q))
  {
    var e := Velocity(q);
    InteriorReach(c, q, 0, nx, ny, nz);
    FlatInRange(c, nx, ny, nz);
    InteriorReadsInBounds(c, q, nx, ny, nz);
    NeighbourIndices(c, e, nx, ny);
    assert c.Plus(e.Times(0)) == c;
  }

  /** At an interior site every read succeeds and the kernel's value is the
      sum of the stencil's terms over the cells around the site. */
  lemma InteriorGradient(phi: seq<real>, c: Cell, nx: int, ny: int, nz: int)
    requires |phi| == nx * ny * nz && Interior(c, nx, ny, nz)
    ensures GradientAt(phi, Flat(c, nx, ny), nx, ny) == Ok(Sum(StencilTerms(phi, nx, ny, nz, c), 0))
  {
    var ts := StencilTerms(phi, nx, ny, nz, c);
    TermIsStencilTerm(phi, nx, ny, nz, c, 0);
    var v := phi[Flat(c, nx, ny)];
    var rs := Terms(phi, c, v, nx, ny);
    forall p | 0 <= p < 18
      ensures rs[p] == Ok(ts[p])
    {
      TermIsStencilTerm(phi, nx, ny, nz, c, p);
    }
    DecomposeFlat(c, nx, ny);
    AccumulateSum(rs, 0, 0.0, ts);
  }

  /** On a constant field every term that reads inside the array is
      weight * (5v - v - 3v - v) = 0. */
  lemma ConstantTerms(phi: seq<real>, c: Cell, v: real, nx: int, ny: int)
    requires forall p :: 0 <= p < |phi| ==> phi[p] == v
    ensures forall q :: 0 <= q < 18 && Terms(phi, c, v, nx, ny)[q].Ok? ==> Terms(phi, c, v, nx, ny)[q].value == 0.0
  {
  }

  /** A constant field has gradient exactly 0 wherever the kernel succeeds. */
  lemma ConstantFieldGivesZero(phi: seq<real>, n: int, nx: int, ny: int, v: real)
    requires nx > 0 && ny > 0
    requires forall p :: 0 <= p < |phi| ==> phi[p] == v
    ensures GradientAt(phi, n, nx, ny).Ok? ==> GradientAt(phi, n, nx, ny).value == 0.0
  {
    if 0 <= n < |phi| {
      var c := Decompose(n, nx, ny);
      ConstantTerms(phi, c, v, nx, ny);
      AccumulateZeros(Terms(phi, c, v, nx, ny), 0, 0.0);
    }
  }

  // ---------------------------------------------------------------------
  // The sweep over the listed sites (lines 17-18 and 49)
  // ---------------------------------------------------------------------

  /** The loop for idx = start, ..., finish - 1: n = Map[idx], then the
      gradient at n is stored at Gradient[n]. */
  function Sweep(m: seq<int>, phi: seq<real>, grad: seq<real>, start: int, finish: int, nx: int, ny: int): (r: Result<seq<real>>)
    requires nx > 0 && ny > 0
    ensures r.Ok? ==> |r.value| == |grad|
    decreases finish - start
  {
    if start >= finish then Ok(grad)
    else if !(0 <= start < |m|) then Err("Map read outside the array")
    else
      var n := m[start];
      match GradientAt(phi, n, nx, ny)
      case Err(e) => Err(e)
      case Ok(value) =>
        if 0 <= n < |grad| then Sweep(m, phi, grad[n := value], start + 1, finish, nx, ny)
        else Err("write outside the array")
  }

  /** The sites the loop visits: Map[idx] for idx in [start, finish). */
  function Sites(m: seq<int>, start: int, finish: int): set<int>
  {
    set idx | start <= idx < finish && 0 <= idx < |m| :: m[idx]
  }

  /** The gradient array after the loop, defined by the set of sites alone:
      each site holds its gradient, every other entry keeps its value. */
  function Expected(phi: seq<real>, grad: seq<real>, sites: set<int>, nx: int, ny: int): (r: seq<real>)
    requires nx > 0 && ny > 0
    ensures |r| == |grad|
  {
    seq(|grad|, p requires 0 <= p < |grad| =>
      if p in sites && GradientAt(phi, p, nx, ny).Ok? then GradientAt(phi, p, nx, ny).value else grad[p])
  }

  /** Position idx of the loop indexes Map, its site indexes an array of
      the given size, and the kernel can compute the site's gradient. */
  predicate SiteOk(m: seq<int>, phi: seq<real>, size: int, idx: int, nx: int, ny: int)
    requires nx > 0 && ny > 0
  {
    0 <= idx < |m| && 0 <= m[idx] < size && GradientAt(phi, m[idx], nx, ny).Ok?
  }

  /** The loop succeeds exactly when every idx in [start, finish) indexes
      Map, names a Gradient entry and has a gradient the kernel can
      compute. */
  lemma {:induction false} SweepOk(m: seq<int>, phi: seq<real>, grad: seq<real>, start: int, finish: int, nx: int, ny: int)
    requires nx > 0 && ny > 0
    ensures Sweep(m, phi, grad, start, finish, nx, ny).Ok? <==>
      forall idx :: start <= idx < finish ==> SiteOk(m, phi, |grad|, idx, nx, ny)
    decreases finish - start
  {
    if start < finish {
      if SiteOk(m, phi, |grad|, start, nx, ny) {
        var n := m[start];
        var next := grad[n := GradientAt(phi, n, nx, ny).value];
        assert Sweep(m, phi, grad, start, finish, nx, ny) == Sweep(m, phi, next, start + 1, finish, nx, ny);
        SweepOk(m, phi, next, start + 1, finish, nx, ny);
        assert |next| == |grad|;
      } else {
        assert Sweep(m, phi, grad, start, finish, nx, ny).Err?;
      }
    }
  }

  /** Writing one site's gradient, then the rest, is the same as the result
      for the larger set of sites. */
  lemma ExpectedInsert(phi: seq<real>, grad: seq<real>, sites: set<int>, n: int, nx: int, ny: int)
    requires nx > 0 && ny > 0 && 0 <= n < |grad| && GradientAt(phi, n, nx, ny).Ok?
    ensures Expected(phi, grad[n := GradientAt(phi, n, nx, ny).value], sites, nx, ny) ==
      Expected(phi, grad, sites + {n}, nx, ny)
  {
  }

  /** Sites from start on are the site at start and the sites after it. */
  lemma SitesSplit(m: seq<int>, start: int, finish: int)
    requires start < finish && 0 <= start < |m|
    ensures Sites(m, start, finish) == Sites(m, start + 1, finish) + {m[start]}
  {
  }

  /** Whatever order the sites come in, a successful loop leaves exactly the
      gradient array defined by the set of sites: only Gradient[Map[idx]] is
      written, each with the gradient of its own site. */
  lemma {:induction false} SweepMatchesExpected(m: seq<int>, phi: seq<real>, grad: seq<real>, start: int, finish: int, nx: int, ny: int)
    requires nx > 0 && ny > 0
    ensures Sweep(m, phi, grad, start, finish, nx, ny).Ok? ==>
      Sweep(m, phi, grad, start, finish, nx, ny).value == Expected(phi, grad, Sites(m, start, finish), nx, ny)
    decreases finish - start
  {
    if start >= finish {
      assert Sites(m, start, finish) == {};
    } else if 0 <= start < |m| {
      var n := m[start];
      if GradientAt(phi, n, nx, ny).Ok? && 0 <= n < |grad| {
        var next := grad[n := GradientAt(phi, n, nx, ny).value];
        SweepMatchesExpected(m, phi, next, start + 1, finish, nx, ny);
        ExpectedInsert(phi, grad, Sites(m, start + 1, finish), n, nx, ny);
        SitesSplit(m, start, finish);
      }
    }
  }

  /** Two loops over the same set of sites that both succeed leave the same
      gradient array, however the sites are ordered or repeated. */
  lemma SweepOrderIrrelevant(m1: seq<int>, s1: int, f1: int, m2: seq<int>, s2: int, f2: int,
                             phi: seq<real>, grad: seq<real>, nx: int, ny: int)
    requires nx > 0 && ny > 0 && Sites(m1, s1, f1) == Sites(m2, s2, f2)
    requires Sweep(m1, phi, grad, s1, f1, nx, ny).Ok? && Sweep(m2, phi, grad, s2, f2, nx, ny).Ok?
    ensures Sweep(m1, phi, grad, s1, f1, nx, ny) == Sweep(m2, phi, grad, s2, f2, nx, ny)
  {
    SweepMatchesExpected(m1, phi, grad, s1, f1, nx, ny);
    SweepMatchesExpected(m2, phi, grad, s2, f2, nx, ny);
  }

  /** If every listed site decodes to an interior cell of an Nx*Ny*Nz array,
      every read and write of the loop stays in bounds. */
  lemma InteriorSweepOk(m: seq<int>, phi: seq<real>, grad: seq<real>, start: int, finish: int, nx: int, ny: int, nz: int)
    requires nx > 0 && ny > 0 && |phi| == nx * ny * nz && |grad| == nx * ny * nz
    requires start >= finish || (0 <= start && finish <= |m|)
    requires forall idx :: start <= idx < finish && 0 <= idx < |m| ==> Interior(Decompose(m[idx], nx, ny), nx, ny, nz)
    ensures Sweep(m, phi, grad, start, finish, nx, ny).Ok?
  {
    forall idx | start <= idx < finish
      ensures SiteOk(m, phi, |grad|, idx, nx, ny)
    {
      var c := Decompose(m[idx], nx, ny);
      InteriorReach(c, 0, 0, nx, ny, nz);
      FlatInRange(c, nx, ny, nz);
      InteriorGradient(phi, c, nx, ny, nz);
    }
    SweepOk(m, phi, grad, start, finish, nx, ny);
  }
}
