/** The communicator's hand-unrolled tables, transcribed as written in
    common/WideHalo.cpp: the 27 rank-table reads, the 52 getHaloBlock calls
    with the count variable and list each one fills, and the orders in which
    Send and Recv visit the directions.  Directions are written with the
    communicator's own variable suffixes (module Suffixes). */
module HaloTables {
  import opened Grid
  import opened Directions
  import opened Boxes
  import opened Suffixes

  // ---------------------------------------------------------------------
  // Symbolic box bounds
  // ---------------------------------------------------------------------

  /** The bound expressions the getHaloBlock calls are written with, for an
      axis of padded extent N and halo width w. */
  datatype Bound = Origin | Width | TwoWidth | ExtentLessTwoWidth | ExtentLessWidth | Extent {
    function Value(n: int, w: int): int
    {
      match this
      case Origin => 0
      case Width => w
      case TwoWidth => 2 * w
      case ExtentLessTwoWidth => n - 2 * w
      case ExtentLessWidth => n - w
      case Extent => n
    }
  }

  /** One getHaloBlock call: the count variable it assigns, the index list it
      fills and its six bounds. */
  datatype BlockCall = BlockCall(count: Direction, list: Direction,
                                 xlo: Bound, xhi: Bound, ylo: Bound, yhi: Bound, zlo: Bound, zhi: Bound)
  {
    function Box(g: Geometry): Boxes.Box
    {
      Boxes.Box(Range(xlo.Value(g.nxh, g.width), xhi.Value(g.nxh, g.width)),
                Range(ylo.Value(g.nyh, g.width), yhi.Value(g.nyh, g.width)),
                Range(zlo.Value(g.nzh, g.width), zhi.Value(g.nzh, g.width)))
    }
  }

  /** A call whose count variable and list carry the same suffix. */
  function Call(name: Direction, xlo: Bound, xhi: Bound, ylo: Bound, yhi: Bound, zlo: Bound, zhi: Bound): BlockCall
  {
    BlockCall(name, name, xlo, xhi, ylo, yhi, zlo, zhi)
  }

  /** The 26 send-list calls of lines 66-95, in source order, including the
      two whose count variable differs from their list (lines 71 and 91). */
  function SendCallAt(n: int): BlockCall
  {
    match n
    case 0 => Call(x, Width, TwoWidth, Width, ExtentLessWidth, Width, ExtentLessWidth)
    case 1 => Call(X, ExtentLessTwoWidth, ExtentLessWidth, Width, ExtentLessWidth, Width, ExtentLessWidth)
    case 2 => Call(y, Width, ExtentLessWidth, Width, TwoWidth, Width, ExtentLessWidth)
    case 3 => Call(Y, Width, ExtentLessWidth, ExtentLessTwoWidth, ExtentLessWidth, Width, ExtentLessWidth)
    case 4 => Call(z, Width, ExtentLessWidth, Width, ExtentLessWidth, Width, TwoWidth)
    case 5 => BlockCall(X, Z, Width, ExtentLessWidth, Width, ExtentLessWidth, ExtentLessTwoWidth, ExtentLessWidth)
    case 6 => Call(xy, Width, TwoWidth, Width, TwoWidth, Width, ExtentLessWidth)
    case 7 => Call(xY, Width, TwoWidth, ExtentLessTwoWidth, ExtentLessWidth, Width, ExtentLessWidth)
    case 8 => Call(Xy, ExtentLessTwoWidth, ExtentLessWidth, Width, TwoWidth, Width, ExtentLessWidth)
    case 9 => Call(XY, ExtentLessTwoWidth, ExtentLessWidth, ExtentLessTwoWidth, ExtentLessWidth, Width, ExtentLessWidth)
    case 10 => Call(xz, Width, TwoWidth, Width, ExtentLessWidth, Width, TwoWidth)
    case 11 => Call(xZ, Width, TwoWidth, Width, ExtentLessWidth, ExtentLessTwoWidth, ExtentLessWidth)
    case 12 => Call(Xz, ExtentLessTwoWidth, ExtentLessWidth, Width, ExtentLessWidth, Width, TwoWidth)
    case 13 => Call(XZ, ExtentLessTwoWidth, ExtentLessWidth, Width, ExtentLessWidth, ExtentLessTwoWidth, ExtentLessWidth)
    case 14 => Call(yz, Width, ExtentLessWidth, Width, TwoWidth, Width, TwoWidth)
    case 15 => Call(yZ, Width, ExtentLessWidth, Width, TwoWidth, ExtentLessTwoWidth, ExtentLessWidth)
    case 16 => Call(Yz, Width, ExtentLessWidth, ExtentLessTwoWidth, ExtentLessWidth, Width, TwoWidth)
    case 17 => Call(YZ, Width, ExtentLessWidth, ExtentLessTwoWidth, ExtentLessWidth, ExtentLessTwoWidth, ExtentLessWidth)
    case 18 => Call(xyz, Width, TwoWidth, Width, TwoWidth, Width, TwoWidth)
    case 19 => Call(xyZ, Width, TwoWidth, Width, TwoWidth, ExtentLessTwoWidth, ExtentLessWidth)
    case 20 => Call(xYz, Width, TwoWidth, ExtentLessTwoWidth, ExtentLessWidth, Width, TwoWidth)
    case 21 => BlockCall(xYz, xYZ, Width, TwoWidth, ExtentLessTwoWidth, ExtentLessWidth, ExtentLessTwoWidth, ExtentLessWidth)
    case 22 => Call(Xyz, ExtentLessTwoWidth, ExtentLessWidth, Width, TwoWidth, Width, TwoWidth)
    case 23 => Call(XyZ, ExtentLessTwoWidth, ExtentLessWidth, Width, TwoWidth, ExtentLessTwoWidth, ExtentLessWidth)
    case 24 => Call(XYz, ExtentLessTwoWidth, ExtentLessWidth, ExtentLessTwoWidth, ExtentLessWidth, Width, TwoWidth)
    case _ => Call(XYZ, ExtentLessTwoWidth, ExtentLessWidth, ExtentLessTwoWidth, ExtentLessWidth, ExtentLessTwoWidth, ExtentLessWidth)
  }

  const SendCalls: seq<BlockCall> := seq(26, SendCallAt)

  /** The 26 receive-list calls of lines 98-127, in source order. */
  function RecvCallAt(n: int): BlockCall
  {
    match n
    case 0 => Call(x, Origin, Width, Width, ExtentLessWidth, Width, ExtentLessWidth)
    case 1 => Call(X, ExtentLessWidth, Extent, Width, ExtentLessWidth, Width, ExtentLessWidth)
    case 2 => Call(y, Width, ExtentLessWidth, Origin, Width, Width, ExtentLessWidth)
    case 3 => Call(Y, Width, ExtentLessWidth, ExtentLessWidth, Extent, Width, ExtentLessWidth)
    case 4 => Call(z, Width, ExtentLessWidth, Width, ExtentLessWidth, Origin, Width)
    case 5 => Call(Z, Width, ExtentLessWidth, Width, ExtentLessWidth, ExtentLessWidth, Extent)
    case 6 => Call(xy, Origin, Width, Origin, Width, Width, ExtentLessWidth)
    case 7 => Call(xY, Origin, Width, ExtentLessWidth, Extent, Width, ExtentLessWidth)
    case 8 => Call(Xy, ExtentLessWidth, Extent, Origin, Width, Width, ExtentLessWidth)
    case 9 => Call(XY, ExtentLessWidth, Extent, ExtentLessWidth, Extent, Width, ExtentLessWidth)
    case 10 => Call(xz, Origin, Width, Width, ExtentLessWidth, Origin, Width)
    case 11 => Call(xZ, Origin, Width, Width, ExtentLessWidth, ExtentLessWidth, Extent)
    case 12 => Call(Xz, ExtentLessWidth, Extent, Width, ExtentLessWidth, Origin, Width)
    case 13 => Call(XZ, ExtentLessWidth, Extent, Width, ExtentLessWidth, ExtentLessWidth, Extent)
    case 14 => Call(yz, Width, ExtentLessWidth, Origin, Width, Origin, Width)
    case 15 => Call(yZ, Width, ExtentLessWidth, Origin, Width, ExtentLessWidth, Extent)
    case 16 => Call(Yz, Width, ExtentLessWidth, ExtentLessWidth, Extent, Origin, Width)
    case 17 => Call(YZ, Width, ExtentLessWidth, ExtentLessWidth, Extent, ExtentLessWidth, Extent)
    case 18 => Call(xyz, Origin, Width, Origin, Width, Origin, Width)
    case 19 => Call(xyZ, Origin, Width, Origin, Width, ExtentLessWidth, Extent)
    case 20 => Call(xYz, Origin, Width, ExtentLessWidth, Extent, Origin, Width)
    case 21 => Call(xYZ, Origin, Width, ExtentLessWidth, Extent, ExtentLessWidth, Extent)
    case 22 => Call(Xyz, ExtentLessWidth, Extent, Origin, Width, Origin, Width)
    case 23 => Call(XyZ, ExtentLessWidth, Extent, Origin, Width, ExtentLessWidth, Extent)
    case 24 => Call(XYz, ExtentLessWidth, Extent, ExtentLessWidth, Extent, Origin, Width)
    case _ => Call(XYZ, ExtentLessWidth, Extent, ExtentLessWidth, Extent, ExtentLessWidth, Extent)
  }

  const RecvCalls: seq<BlockCall> := seq(26, n => RecvCallAt(n))

  // ---------------------------------------------------------------------
  // Neighbour ranks and the orders of Send and Recv
  // ---------------------------------------------------------------------

  /** One read of the rank table: rank_<suffix> = rank_info.rank[a][b][c]. */
  datatype RankRead = RankRead(offset: Offset, a: nat, b: nat, c: nat)

  /** Lines 34-60; the first read, of the zero offset, is the rank itself. */
  function RankReadAt(n: int): RankRead
  {
    match n
    case 0 => RankRead(Offset(Zero, Zero, Zero), 1, 1, 1)
    case 1 => RankRead(X, 2, 1, 1)
    case 2 => RankRead(x, 0, 1, 1)
    case 3 => RankRead(Y, 1, 2, 1)
    case 4 => RankRead(y, 1, 0, 1)
    case 5 => RankRead(Z, 1, 1, 2)
    case 6 => RankRead(z, 1, 1, 0)
    case 7 => RankRead(XY, 2, 2, 1)
    case 8 => RankRead(xy, 0, 0, 1)
    case 9 => RankRead(Xy, 2, 0, 1)
    case 10 => RankRead(xY, 0, 2, 1)
    case 11 => RankRead(XZ, 2, 1, 2)
    case 12 => RankRead(xz, 0, 1, 0)
    case 13 => RankRead(Xz, 2, 1, 0)
    case 14 => RankRead(xZ, 0, 1, 2)
    case 15 => RankRead(YZ, 1, 2, 2)
    case 16 => RankRead(yz, 1, 0, 0)
    case 17 => RankRead(Yz, 1, 2, 0)
    case 18 => RankRead(yZ, 1, 0, 2)
    case 19 => RankRead(XYz, 2, 2, 0)
    case 20 => RankRead(xyz, 0, 0, 0)
    case 21 => RankRead(Xyz, 2, 0, 0)
    case 22 => RankRead(xYz, 0, 2, 0)
    case 23 => RankRead(XYZ, 2, 2, 2)
    case 24 => RankRead(xyZ, 0, 0, 2)
    case 25 => RankRead(XyZ, 2, 0, 2)
    case _ => RankRead(xYZ, 0, 2, 2)
  }

  const RankReads: seq<RankRead> := seq(27, n => RankReadAt(n))

  /** The order of the 26 Pack calls in Send (lines 208-234). */
  function PackAt(n: int): Direction
  {
    match n
    case 0 => x
    case 1 => y
    case 2 => z
    case 3 => X
    case 4 => Y
    case 5 => Z
    case 6 => xy
    case 7 => xY
    case 8 => Xy
    case 9 => XY
    case 10 => xz
    case 11 => xZ
    case 12 => Xz
    case 13 => XZ
    case 14 => yz
    case 15 => yZ
    case 16 => Yz
    case 17 => YZ
    case 18 => xyz
    case 19 => xyZ
    case 20 => xYz
    case 21 => xYZ
    case 22 => Xyz
    case 23 => XyZ
    case 24 => XYz
    case _ => XYZ
  }

  const PackOrder: seq<Direction> := seq(26, n => PackAt(n))

  /** The 26 Isend/Irecv pairs of Send (lines 239-291): the n-th pair sends
      the buffer of its first direction and posts a receive into the buffer
      of its second. */
  function ExchangePairAt(n: int): (Direction, Direction)
  {
    match n
    case 0 => (x, X)
    case 1 => (X, x)
    case 2 => (y, Y)
    case 3 => (Y, y)
    case 4 => (z, Z)
    case 5 => (Z, z)
    case 6 => (xy, XY)
    case 7 => (XY, xy)
    case 8 => (Xy, xY)
    case 9 => (xY, Xy)
    case 10 => (xz, XZ)
    case 11 => (XZ, xz)
    case 12 => (Xz, xZ)
    case 13 => (xZ, Xz)
    case 14 => (yz, YZ)
    case 15 => (YZ, yz)
    case 16 => (Yz, yZ)
    case 17 => (yZ, Yz)
    case 18 => (xyz, XYZ)
    case 19 => (XYZ, xyz)
    case 20 => (xYz, XyZ)
    case 21 => (XyZ, xYz)
    case 22 => (Xyz, xYZ)
    case 23 => (xYZ, Xyz)
    case 24 => (XYz, xyZ)
    case _ => (xyZ, XYz)
  }

  /** The order of the 26 Unpack calls in Recv (lines 302-328). */
  function UnpackAt(n: int): Direction
  {
    match n
    case 0 => x
    case 1 => y
    case 2 => X
    case 3 => Y
    case 4 => xy
    case 5 => xY
    case 6 => Xy
    case 7 => XY
    case 8 => z
    case 9 => xz
    case 10 => Xz
    case 11 => yz
    case 12 => Yz
    case 13 => Z
    case 14 => xZ
    case 15 => XZ
    case 16 => yZ
    case 17 => YZ
    case 18 => xyz
    case 19 => xYz
    case 20 => xyZ
    case 21 => xYZ
    case 22 => Xyz
    case 23 => XYz
    case 24 => XyZ
    case _ => XYZ
  }

  const UnpackOrder: seq<Direction> := seq(26, n => UnpackAt(n))

  /** The directions whose buffers Send sends, in order. */
  const SendSchedule: seq<Direction> := seq(26, n => ExchangePairAt(n).0)

  /** The directions whose buffers Send posts receives into, in order. */
  const RecvSchedule: seq<Direction> := seq(26, n => ExchangePairAt(n).1)

  /** The directions whose lists the getHaloBlock calls fill, in order. */
  function ListsFilled(calls: seq<BlockCall>): seq<Direction>
  {
    seq(|calls|, n requires 0 <= n < |calls| => calls[n].list)
  }

  // ---------------------------------------------------------------------
  // Where each direction sits in each table (proof witnesses)
  // ---------------------------------------------------------------------

  /** Position of All[k] among the lists the send and receive calls fill. */
  function ListPosition(k: int): int
  {
    match k
    case 0 => 18
    case 1 => 6
    case 2 => 19
    case 3 => 10
    case 4 => 0
    case 5 => 11
    case 6 => 20
    case 7 => 7
    case 8 => 21
    case 9 => 14
    case 10 => 2
    case 11 => 15
    case 12 => 4
    case 13 => 5
    case 14 => 16
    case 15 => 3
    case 16 => 17
    case 17 => 22
    case 18 => 8
    case 19 => 23
    case 20 => 12
    case 21 => 1
    case 22 => 13
    case 23 => 24
    case 24 => 9
    case _ => 25
  }

  /** Position of All[k] among the rank reads after the first. */
  function RankPosition(k: int): int
  {
    match k
    case 0 => 19
    case 1 => 7
    case 2 => 23
    case 3 => 11
    case 4 => 1
    case 5 => 13
    case 6 => 21
    case 7 => 9
    case 8 => 25
    case 9 => 15
    case 10 => 3
    case 11 => 17
    case 12 => 5
    case 13 => 4
    case 14 => 16
    case 15 => 2
    case 16 => 14
    case 17 => 20
    case 18 => 8
    case 19 => 24
    case 20 => 12
    case 21 => 0
    case 22 => 10
    case 23 => 18
    case 24 => 6
    case _ => 22
  }

  /** Position of All[k] in the send schedule. */
  function SendPosition(k: int): int
  {
    match k
    case 0 => 18
    case 1 => 6
    case 2 => 25
    case 3 => 10
    case 4 => 0
    case 5 => 13
    case 6 => 20
    case 7 => 9
    case 8 => 23
    case 9 => 14
    case 10 => 2
    case 11 => 17
    case 12 => 4
    case 13 => 5
    case 14 => 16
    case 15 => 3
    case 16 => 15
    case 17 => 22
    case 18 => 8
    case 19 => 21
    case 20 => 12
    case 21 => 1
    case 22 => 11
    case 23 => 24
    case 24 => 7
    case _ => 19
  }

  /** Position of All[k] in the pack order. */
  function PackPosition(k: int): int
  {
    match k
    case 0 => 18
    case 1 => 6
    case 2 => 19
    case 3 => 10
    case 4 => 0
    case 5 => 11
    case 6 => 20
    case 7 => 7
    case 8 => 21
    case 9 => 14
    case 10 => 1
    case 11 => 15
    case 12 => 2
    case 13 => 5
    case 14 => 16
    case 15 => 4
    case 16 => 17
    case 17 => 22
    case 18 => 8
    case 19 => 23
    case 20 => 12
    case 21 => 3
    case 22 => 13
    case 23 => 24
    case 24 => 9
    case _ => 25
  }

  /** Position of All[k] in the unpack order. */
  function UnpackPosition(k: int): int
  {
    match k
    case 0 => 18
    case 1 => 4
    case 2 => 20
    case 3 => 9
    case 4 => 0
    case 5 => 14
    case 6 => 19
    case 7 => 5
    case 8 => 21
    case 9 => 11
    case 10 => 1
    case 11 => 16
    case 12 => 8
    case 13 => 13
    case 14 => 12
    case 15 => 3
    case 16 => 17
    case 17 => 22
    case 18 => 6
    case 19 => 24
    case 20 => 10
    case 21 => 2
    case 22 => 15
    case 23 => 23
    case 24 => 7
    case _ => 25
  }

  // ---------------------------------------------------------------------
  // What the tables say
  // ---------------------------------------------------------------------

  /** A list whose entries are the opposites of an enumeration's entries is
      an enumeration too. */
  lemma OppositesEnumerate(s: seq<Direction>, t: seq<Direction>)
    requires Enumerates(s) && |t| == |s|
    requires forall n :: 0 <= n < |s| ==> t[n] == Opposite(s[n])
    ensures Enumerates(t)
  {
    forall a, b | 0 <= a < b < |t|
      ensures t[a] != t[b]
    {
      OppositeInvolutive(s[a]);
      OppositeInvolutive(s[b]);
    }
    forall d: Direction
      ensures d in t
    {
      var e := Opposite(d);
      assert e in s;
      var n :| 0 <= n < |s| && s[n] == e;
      OppositeInvolutive(d);
      assert t[n] == d;
    }
  }

  /** The neighbour rank of every direction is read from slot 1 + component
      on each axis, the own rank from the centre, and each of the 26
      neighbour ranks exactly once. */
  lemma RankReadsFollowRule()
    ensures |RankReads| == 27
    ensures forall n :: 0 <= n < 27 ==>
      var r := RankReads[n];
      r.a == r.offset.x.Slot() && r.b == r.offset.y.Slot() && r.c == r.offset.z.Slot()
    ensures RankReads[0].offset.IsZero()
    ensures Enumerates(seq(26, n requires 0 <= n < 26 => RankReads[n + 1].offset))
  {
    forall n | 0 <= n < 27
      ensures var r := RankReads[n];
        r.a == r.offset.x.Slot() && r.b == r.offset.y.Slot() && r.c == r.offset.z.Slot()
    {
      RankReadSlots(n);
    }
    RankReadsEnumerate();
  }

  /** Read n takes slot 1 + component of its offset on each axis. */
  lemma RankReadSlots(n: int)
    requires 0 <= n < 27
    ensures var r := RankReadAt(n);
      r.a == r.offset.x.Slot() && r.b == r.offset.y.Slot() && r.c == r.offset.z.Slot()
  {
  }

  /** The reads after the first cover each direction once. */
  lemma RankReadsEnumerate()
    ensures Enumerates(seq(26, n requires 0 <= n < 26 => RankReads[n + 1].offset))
  {
    EnumeratesByPositions(seq(26, n requires 0 <= n < 26 => RankReads[n + 1].offset), RankPosition);
  }

  /** Every send call fills the list of its direction with the box the
      per-axis slab rule gives. */
  lemma SendCallsFollowSlabRule(g: Geometry)
    ensures |SendCalls| == 26
    ensures forall n :: 0 <= n < 26 ==> SendCalls[n].Box(g) == SendBox(g, SendCalls[n].list)
  {
    forall n | 0 <= n < 26
      ensures SendCalls[n].Box(g) == SendBox(g, SendCalls[n].list)
    {
      SendCallBox(g, n);
    }
  }

  lemma SendCallBox(g: Geometry, n: int)
    requires 0 <= n < 26
    ensures SendCallAt(n).Box(g) == SendBox(g, SendCallAt(n).list)
  {
    // One case per call.
    if n == 0 {
    } else if n == 1 {
    } else if n == 2 {
    } else if n == 3 {
    } else if n == 4 {
    } else if n == 5 {
    } else if n == 6 {
    } else if n == 7 {
    } else if n == 8 {
    } else if n == 9 {
    } else if n == 10 {
    } else if n == 11 {
    } else if n == 12 {
    } else if n == 13 {
    } else if n == 14 {
    } else if n == 15 {
    } else if n == 16 {
    } else if n == 17 {
    } else if n == 18 {
    } else if n == 19 {
    } else if n == 20 {
    } else if n == 21 {
    } else if n == 22 {
    } else if n == 23 {
    } else if n == 24 {
    }
  }

  /** The 26 send calls fill each direction's list once. */
  lemma SendListsEnumerate()
    ensures Enumerates(ListsFilled(SendCalls))
  {
    EnumeratesByPositions(ListsFilled(SendCalls), ListPosition);
  }

  /** Every receive call assigns the count of the list it fills, with the
      box the per-axis ghost-slab rule gives; the lists come in the same
      order as the send lists. */
  lemma RecvCallsFollowSlabRule(g: Geometry)
    ensures |RecvCalls| == 26
    ensures forall n :: 0 <= n < 26 ==>
      && RecvCalls[n].count == RecvCalls[n].list
      && RecvCalls[n].list == SendCalls[n].list
      && RecvCalls[n].Box(g) == RecvBox(g, RecvCalls[n].list)
  {
    forall n | 0 <= n < 26
      ensures RecvCalls[n].Box(g) == RecvBox(g, RecvCalls[n].list)
    {
      RecvCallBox(g, n);
    }
  }

  lemma RecvCallBox(g: Geometry, n: int)
    requires 0 <= n < 26
    ensures RecvCallAt(n).Box(g) == RecvBox(g, RecvCallAt(n).list)
  {
    // One case per call.
    if n == 0 {
    } else if n == 1 {
    } else if n == 2 {
    } else if n == 3 {
    } else if n == 4 {
    } else if n == 5 {
    } else if n == 6 {
    } else if n == 7 {
    } else if n == 8 {
    } else if n == 9 {
    } else if n == 10 {
    } else if n == 11 {
    } else if n == 12 {
    } else if n == 13 {
    } else if n == 14 {
    } else if n == 15 {
    } else if n == 16 {
    } else if n == 17 {
    } else if n == 18 {
    } else if n == 19 {
    } else if n == 20 {
    } else if n == 21 {
    } else if n == 22 {
    } else if n == 23 {
    } else if n == 24 {
    }
  }

  /** The 26 receive calls fill each direction's list once. */
  lemma RecvListsEnumerate()
    ensures Enumerates(ListsFilled(RecvCalls))
  {
    EnumeratesByPositions(ListsFilled(RecvCalls), ListPosition);
  }

  /** In Send the n-th receive is posted for the opposite of the n-th send's
      direction, and each direction is sent once and received once. */
  lemma ExchangePairsOpposite()
    ensures |SendSchedule| == 26 && |RecvSchedule| == 26
    ensures forall n :: 0 <= n < 26 ==> RecvSchedule[n] == Opposite(SendSchedule[n])
    ensures Enumerates(SendSchedule) && Enumerates(RecvSchedule)
  {
    SendScheduleEnumerates();
    OppositesEnumerate(SendSchedule, RecvSchedule);
  }

  /** The n-th pair's receive is for the opposite of its send's direction. */
  lemma ScheduleOpposite(n: int)
    requires 0 <= n < 26
    ensures RecvSchedule[n] == Opposite(SendSchedule[n])
  {
  }

  lemma SendScheduleEnumerates()
    ensures Enumerates(SendSchedule)
  {
    EnumeratesByPositions(SendSchedule, SendPosition);
  }

  /** Send packs and Recv unpacks each of the 26 directions exactly once. */
  lemma PackUnpackOrdersEnumerate()
    ensures Enumerates(PackOrder) && Enumerates(UnpackOrder)
  {
    PackOrderEnumerates();
    UnpackOrderEnumerates();
  }

  lemma PackOrderEnumerates()
    ensures Enumerates(PackOrder)
  {
    EnumeratesByPositions(PackOrder, PackPosition);
  }

  lemma UnpackOrderEnumerates()
    ensures Enumerates(UnpackOrder)
  {
    EnumeratesByPositions(UnpackOrder, UnpackPosition);
  }
}
