/** The index boxes of the wide-halo communicator.  A local array of shape
    (Nx, Ny, Nz) is padded to (Nxh, Nyh, Nzh) for a halo of the given width;
    each of the 26 directions sends an inner slab of the owned region and
    receives into an outer ghost slab, each chosen per axis from three slabs. */
module Boxes {
  import opened Grid
  import opened Directions

  /** The half-open integer range [lo, hi); empty when hi <= lo. */
  datatype Range = Range(lo: int, hi: int) {
    function Extent(): nat
    {
      if hi > lo then hi - lo else 0
    }

    predicate Contains(v: int)
    {
      lo <= v < hi
    }

    function Shift(s: int): Range
    {
      Range(lo + s, hi + s)
    }
  }

  /** An axis-aligned box of cells, the argument list of getHaloBlock. */
  datatype Box = Box(x: Range, y: Range, z: Range) {
    function Count(): nat
    {
      x.Extent() * y.Extent() * z.Extent()
    }

    predicate NonEmpty()
    {
      x.Extent() > 0 && y.Extent() > 0 && z.Extent() > 0
    }

    predicate Contains(c: Cell)
    {
      x.Contains(c.i) && y.Contains(c.j) && z.Contains(c.k)
    }

    function Lo(): Cell
    {
      Cell(x.lo, y.lo, z.lo)
    }

    function Shift(s: Cell): Box
    {
      Box(x.Shift(s.i), y.Shift(s.j), z.Shift(s.k))
    }
  }

  /** The padded shape of the communicator and its halo width. */
  datatype Geometry = Geometry(nxh: int, nyh: int, nzh: int, width: int) {
    /** Nh: the number of cells of the padded array. */
    function Size(): int
    {
      nxh * nyh * nzh
    }

    /** Every axis is at least two halos wide, so the low and high ghost
        slabs of an axis do not overlap. */
    predicate Valid()
    {
      width >= 1 && nxh >= 2 * width && nyh >= 2 * width && nzh >= 2 * width
    }

    /** Every axis has room for a low and a high send slab inside the owned region. */
    predicate Roomy()
    {
      width >= 1 && nxh >= 3 * width && nyh >= 3 * width && nzh >= 3 * width
    }

    predicate InArray(c: Cell)
    {
      Grid.InArray(c, nxh, nyh, nzh)
    }

    /** Flat index of a cell of the padded array. */
    function Index(c: Cell): int
    {
      Flat(c, nxh, nyh)
    }
  }

  /** The padded shape for local shape (nx, ny, nz) and halo width w: each
      axis grows by w - 1 on either side, so the owned region keeps the
      extent it has in the width-1 layout. */
  function Pad(nx: int, ny: int, nz: int, w: int): (g: Geometry)
    ensures g.width == w
    ensures g.nxh - 2 * w == nx - 2 && g.nyh - 2 * w == ny - 2 && g.nzh - 2 * w == nz - 2
  {
    Geometry(nx + 2 * (w - 1), ny + 2 * (w - 1), nz + 2 * (w - 1), w)
  }

  /** The inner slab an axis contributes to a send box: width-thick at the
      low or high edge of the owned region, or the whole owned range. */
  function SendSlab(s: Sign, n: int, w: int): Range
  {
    match s
    case Neg => Range(w, 2 * w)
    case Zero => Range(w, n - w)
    case Pos => Range(n - 2 * w, n - w)
  }

  /** The outer slab an axis contributes to a receive box: the low or high
      ghost layer, or the whole owned range. */
  function GhostSlab(s: Sign, n: int, w: int): Range
  {
    match s
    case Neg => Range(0, w)
    case Zero => Range(w, n - w)
    case Pos => Range(n - w, n)
  }

  function SendBox(g: Geometry, d: Direction): Box
  {
    Box(SendSlab(d.x, g.nxh, g.width), SendSlab(d.y, g.nyh, g.width), SendSlab(d.z, g.nzh, g.width))
  }

  /** The ghost box of an offset; the zero offset gives the owned region. */
  function GhostBox(g: Geometry, o: Offset): Box
  {
    Box(GhostSlab(o.x, g.nxh, g.width), GhostSlab(o.y, g.nyh, g.width), GhostSlab(o.z, g.nzh, g.width))
  }

  function RecvBox(g: Geometry, d: Direction): Box
  {
    GhostBox(g, d)
  }

  /** The owned region [w, N?h - w) on every axis. */
  function OwnedBox(g: Geometry): Box
  {
    GhostBox(g, Offset(Zero, Zero, Zero))
  }

  // ---------------------------------------------------------------------
  // Enumeration of a box (the contract of getHaloBlock)
  // ---------------------------------------------------------------------

  /** The cells of a box in the order getHaloBlock lists them: i fastest,
      then j, then k. */
  function Cells(b: Box): (cs: seq<Cell>)
    ensures |cs| == b.Count()
  {
    if !b.NonEmpty() then []
    else seq(b.Count(), n requires 0 <= n < b.Count() =>
               b.Lo().Plus(Coords(n, b.x.Extent(), b.y.Extent())))
  }

  /** Position of a cell of b in Cells(b). */
  function Position(b: Box, c: Cell): int
  {
    Flat(c.Minus(b.Lo()), b.x.Extent(), b.y.Extent())
  }

  /** Every listed cell lies in the box, and every cell of the box is listed
      at its lexicographic position, so the list holds each cell exactly once. */
  lemma CellsExact(b: Box)
    ensures forall n :: 0 <= n < |Cells(b)| ==> b.Contains(Cells(b)[n])
    ensures forall c :: b.Contains(c) ==>
      0 <= Position(b, c) < |Cells(b)| && Cells(b)[Position(b, c)] == c
  {
    if b.NonEmpty() {
      var ex, ey, ez := b.x.Extent(), b.y.Extent(), b.z.Extent();
      forall n | 0 <= n < |Cells(b)|
        ensures b.Contains(Cells(b)[n])
      {
        CoordsInArray(n, ex, ey, ez);
      }
      forall c | b.Contains(c)
        ensures 0 <= Position(b, c) < |Cells(b)| && Cells(b)[Position(b, c)] == c
      {
        var r := c.Minus(b.Lo());
        assert Grid.InArray(r, ex, ey, ez);
        FlatInRange(r, ex, ey, ez);
        CoordsOfFlat(r, ex, ey);
      }
    } else {
      forall c | b.Contains(c)
        ensures false
      {
      }
    }
  }

  lemma CellsMembership(b: Box, c: Cell)
    ensures c in Cells(b) <==> b.Contains(c)
  {
    CellsExact(b);
    if b.Contains(c) {
      assert Cells(b)[Position(b, c)] == c;
    }
  }

  lemma CellsDistinct(b: Box)
    ensures Distinct(Cells(b))
  {
    var cs := Cells(b);
    forall m, n | 0 <= m < n < |cs|
      ensures cs[m] != cs[n]
    {
      var ex, ey := b.x.Extent(), b.y.Extent();
      assert Flat(Coords(m, ex, ey), ex, ey) == m;
      assert Flat(Coords(n, ex, ey), ex, ey) == n;
    }
  }

  /** Translating a box translates its enumeration entry by entry. */
  lemma CellsShift(b: Box, s: Cell)
    ensures |Cells(b.Shift(s))| == |Cells(b)|
    ensures forall n :: 0 <= n < |Cells(b)| ==> Cells(b.Shift(s))[n] == Cells(b)[n].Plus(s)
  {
    assert b.Shift(s).x.Extent() == b.x.Extent();
    assert b.Shift(s).y.Extent() == b.y.Extent();
    assert b.Shift(s).z.Extent() == b.z.Extent();
  }

  /** The flat index list getHaloBlock fills for box b of the padded array. */
  function HaloBlock(g: Geometry, b: Box): (list: seq<int>)
    ensures |list| == b.Count()
  {
    var cs := Cells(b);
    seq(|cs|, n requires 0 <= n < |cs| => g.Index(cs[n]))
  }

  /** A box inside the padded array lists distinct indices of [0, Nh). */
  lemma HaloBlockInArray(g: Geometry, b: Box)
    requires g.nxh > 0 && g.nyh > 0
    requires forall c :: b.Contains(c) ==> g.InArray(c)
    ensures Distinct(HaloBlock(g, b))
    ensures forall n :: 0 <= n < |HaloBlock(g, b)| ==> 0 <= HaloBlock(g, b)[n] < g.Size()
  {
    var cs := Cells(b);
    var list := HaloBlock(g, b);
    CellsExact(b);
    CellsDistinct(b);
    forall n | 0 <= n < |list|
      ensures 0 <= list[n] < g.Size()
    {
      FlatInRange(cs[n], g.nxh, g.nyh, g.nzh);
    }
    forall m, n | 0 <= m < n < |list|
      ensures list[m] != list[n]
    {
      FlatInjective(cs[m], cs[n], g.nxh, g.nyh);
    }
  }

  // ---------------------------------------------------------------------
  // Geometry of the send and receive boxes
  // ---------------------------------------------------------------------

  /** Which ghost slab of an axis of extent n a coordinate falls in. */
  function Classify(v: int, n: int, w: int): Sign
  {
    if v < w then Neg else if v >= n - w then Pos else Zero
  }

  /** The offset whose ghost box holds a cell of the padded array. */
  function Region(g: Geometry, c: Cell): Offset
  {
    Offset(Classify(c.i, g.nxh, g.width), Classify(c.j, g.nyh, g.width), Classify(c.k, g.nzh, g.width))
  }

  lemma GhostSlabClassify(s: Sign, v: int, n: int, w: int)
    requires w >= 1 && n >= 2 * w && 0 <= v < n
    ensures GhostSlab(s, n, w).Contains(v) <==> s == Classify(v, n, w)
  {
  }

  /** The 27 ghost boxes (26 receive boxes and the owned box) partition the
      padded array: a cell of the array lies in the ghost box of o exactly
      when o is its region. */
  lemma GhostBoxPartition(g: Geometry, o: Offset, c: Cell)
    requires g.Valid() && g.InArray(c)
    ensures GhostBox(g, o).Contains(c) <==> o == Region(g, c)
  {
    GhostSlabClassify(o.x, c.i, g.nxh, g.width);
    GhostSlabClassify(o.y, c.j, g.nyh, g.width);
    GhostSlabClassify(o.z, c.k, g.nzh, g.width);
  }

  /** Every ghost box lies inside the padded array. */
  lemma GhostBoxInArray(g: Geometry, o: Offset, c: Cell)
    requires g.Valid() && GhostBox(g, o).Contains(c)
    ensures g.InArray(c)
  {
  }

  /** Each send box is inside the owned region, built per axis from the
      low inner slab [w, 2w), the owned range [w, N - w) or the high inner
      slab [N - 2w, N - w) as the direction's component is -1, 0 or +1. */
  lemma SendBoxInOwned(g: Geometry, d: Direction, c: Cell)
    requires g.Roomy() && SendBox(g, d).Contains(c)
    ensures OwnedBox(g).Contains(c)
    ensures d.x == Neg ==> g.width <= c.i < 2 * g.width
    ensures d.x == Pos ==> g.nxh - 2 * g.width <= c.i < g.nxh - g.width
    ensures d.y == Neg ==> g.width <= c.j < 2 * g.width
    ensures d.y == Pos ==> g.nyh - 2 * g.width <= c.j < g.nyh - g.width
    ensures d.z == Neg ==> g.width <= c.k < 2 * g.width
    ensures d.z == Pos ==> g.nzh - 2 * g.width <= c.k < g.nzh - g.width
  {
  }

  /** Without room for two send slabs the -x send slab reaches into the
      ghost region: a local extent of 3 with halo width 2 pads to 5, the
      owned range is [2, 3), and the slab [2, 4) takes in ghost column 3,
      which is the +x receive box's. */
  lemma ThinBlockSendsGhost(g: Geometry)
    requires g == Pad(3, 3, 3, 2)
    ensures g.Valid() && !g.Roomy()
    ensures SendBox(g, Offset(Neg, Zero, Zero)).Contains(Cell(3, 2, 2))
    ensures !OwnedBox(g).Contains(Cell(3, 2, 2))
    ensures RecvBox(g, Offset(Pos, Zero, Zero)).Contains(Cell(3, 2, 2))
  {
  }

  /** The translation taking a subdomain's coordinates to those of its
      neighbour in direction d: the owned extent N - 2w, against d. */
  function PeerShift(g: Geometry, d: Direction): Cell
  {
    Cell(-d.x.Value() * (g.nxh - 2 * g.width),
         -d.y.Value() * (g.nyh - 2 * g.width),
         -d.z.Value() * (g.nzh - 2 * g.width))
  }

  lemma SlabShift(s: Sign, n: int, w: int)
    ensures SendSlab(s, n, w).Shift(-s.Value() * (n - 2 * w)) == GhostSlab(s.Flip(), n, w)
  {
  }

  /** The send box of d, seen from the neighbour in direction d, is that
      neighbour's receive box for the opposite direction. */
  lemma SendBoxMatchesPeerRecvBox(g: Geometry, d: Direction)
    ensures SendBox(g, d).Shift(PeerShift(g, d)) == RecvBox(g, Opposite(d))
  {
    SlabShift(d.x, g.nxh, g.width);
    SlabShift(d.y, g.nyh, g.width);
    SlabShift(d.z, g.nzh, g.width);
  }

  /** Position by position, the n-th cell packed for direction d is the
      neighbour's n-th ghost cell for the opposite direction, and the two
      lists have the same length. */
  lemma SendRecvOrderAgree(g: Geometry, d: Direction)
    ensures |Cells(SendBox(g, d))| == |Cells(RecvBox(g, Opposite(d)))|
    ensures forall n :: 0 <= n < |Cells(SendBox(g, d))| ==>
      Cells(RecvBox(g, Opposite(d)))[n] == Cells(SendBox(g, d))[n].Plus(PeerShift(g, d))
  {
    SendBoxMatchesPeerRecvBox(g, d);
    CellsShift(SendBox(g, d), PeerShift(g, d));
  }

  // ---------------------------------------------------------------------
  // Counts
  // ---------------------------------------------------------------------

  /** The count of the receive list for an offset; the zero offset names
      no direction and contributes nothing. */
  function RecvCount(g: Geometry, o: Offset): nat
  {
    if o.IsZero() then 0 else GhostBox(g, o).Count()
  }

  /** Receive counts summed over the directions (a, b, *). */
  function RecvCountsAlongZ(g: Geometry, a: Sign, b: Sign): int
  {
    RecvCount(g, Offset(a, b, Neg)) + RecvCount(g, Offset(a, b, Zero)) + RecvCount(g, Offset(a, b, Pos))
  }

  /** Receive counts summed over the directions (a, *, *). */
  function RecvCountsAlongYZ(g: Geometry, a: Sign): int
  {
    RecvCountsAlongZ(g, a, Neg) + RecvCountsAlongZ(g, a, Zero) + RecvCountsAlongZ(g, a, Pos)
  }

  /** The sum of all 26 receive counts. */
  function RecvCountsTotal(g: Geometry): int
  {
    RecvCountsAlongYZ(g, Neg) + RecvCountsAlongYZ(g, Zero) + RecvCountsAlongYZ(g, Pos)
  }

  /** The number of owned cells, (Nxh - 2w)(Nyh - 2w)(Nzh - 2w). */
  function OwnedCount(g: Geometry): int
  {
    (g.nxh - 2 * g.width) * (g.nyh - 2 * g.width) * (g.nzh - 2 * g.width)
  }

  lemma GhostSlabsSum(s: Sign, n: int, w: int)
    requires n >= 2 * w && w >= 0
    ensures GhostSlab(Neg, n, w).Extent() + GhostSlab(Zero, n, w).Extent() + GhostSlab(Pos, n, w).Extent() == n
    ensures GhostSlab(Zero, n, w).Extent() == n - 2 * w
  {
  }

  lemma RecvCountsAlongZSum(g: Geometry, a: Sign, b: Sign)
    requires g.Valid()
    ensures RecvCountsAlongZ(g, a, b)
         == GhostSlab(a, g.nxh, g.width).Extent() * GhostSlab(b, g.nyh, g.width).Extent() * g.nzh
          - (if a == Zero && b == Zero then OwnedCount(g) else 0)
  {
    var p := GhostSlab(a, g.nxh, g.width).Extent() * GhostSlab(b, g.nyh, g.width).Extent();
    GhostSlabsSum(Zero, g.nzh, g.width);
    GhostSlabsSum(Zero, g.nxh, g.width);
    GhostSlabsSum(Zero, g.nyh, g.width);
    var e0, e1, e2 := GhostSlab(Neg, g.nzh, g.width).Extent(), GhostSlab(Zero, g.nzh, g.width).Extent(),
      GhostSlab(Pos, g.nzh, g.width).Extent();
    assert p * e0 + p * e1 + p * e2 == p * g.nzh;
  }

  lemma RecvCountsAlongYZSum(g: Geometry, a: Sign)
    requires g.Valid()
    ensures RecvCountsAlongYZ(g, a)
         == GhostSlab(a, g.nxh, g.width).Extent() * g.nyh * g.nzh - (if a == Zero then OwnedCount(g) else 0)
  {
    RecvCountsAlongZSum(g, a, Neg);
    RecvCountsAlongZSum(g, a, Zero);
    RecvCountsAlongZSum(g, a, Pos);
    GhostSlabsSum(Zero, g.nyh, g.width);
    var ea := GhostSlab(a, g.nxh, g.width).Extent();
    var e0, e1, e2 := GhostSlab(Neg, g.nyh, g.width).Extent(), GhostSlab(Zero, g.nyh, g.width).Extent(),
      GhostSlab(Pos, g.nyh, g.width).Extent();
    Factor3(ea, e0, e1, e2, g.nzh);
  }

  lemma Factor3(a: int, e0: int, e1: int, e2: int, c: int)
    ensures a * e0 * c + a * e1 * c + a * e2 * c == a * (e0 + e1 + e2) * c
  {
  }

  /** The 26 receive counts add up to the ghost region: Nh minus the owned
      cells. */
  lemma RecvCountsSum(g: Geometry)
    requires g.Valid()
    ensures RecvCountsTotal(g) == g.Size() - OwnedCount(g)
  {
    RecvCountsAlongYZSum(g, Neg);
    RecvCountsAlongYZSum(g, Zero);
    RecvCountsAlongYZSum(g, Pos);
    GhostSlabsSum(Zero, g.nxh, g.width);
    var e0, e1, e2 := GhostSlab(Neg, g.nxh, g.width).Extent(), GhostSlab(Zero, g.nxh, g.width).Extent(),
      GhostSlab(Pos, g.nxh, g.width).Extent();
    Distribute3(e0, e1, e2, g.nyh, g.nzh);
  }

  lemma Distribute3(e0: int, e1: int, e2: int, a: int, b: int)
    ensures e0 * a * b + e1 * a * b + e2 * a * b == (e0 + e1 + e2) * a * b
  {
  }
}
