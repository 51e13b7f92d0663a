/** The exchange of the wide-halo communicator: the lock that pairs Send with
    Recv, the neighbour ranks, the 52 non-blocking requests Send posts, and
    the unpacking Recv does once they complete.  MPI transport is not
    modelled; the requests are an ordered list, and the matching rule of MPI
    (the j-th receive a process posts for source s and tag t takes the j-th
    message s sends it with tag t) is stated over that list. */
module Exchange {
  import opened Grid
  import opened Directions
  import opened Boxes
  import opened Results
  import opened HaloTables
  import opened PackUnpack

  /** The communicator's Lock flag. */
  datatype Lock = Unlocked | Locked

  /** What the exchange needs of a communicator: its padded shape and halo
      width, and its lock. */
  datatype Communicator = Communicator(g: Geometry, lock: Lock)

  /** The constructor: the padded shape for local shape (nx, ny, nz) and
      halo width w, with the lock released. */
  function Create(nx: int, ny: int, nz: int, w: int): (c: Communicator)
    ensures c.lock == Unlocked
    ensures c.g.width == w && c.g.Size() == (nx + 2 * (w - 1)) * (ny + 2 * (w - 1)) * (nz + 2 * (w - 1))
  {
    Communicator(Pad(nx, ny, nz, w), Unlocked)
  }

  // ---------------------------------------------------------------------
  // Neighbour ranks
  // ---------------------------------------------------------------------

  /** rank_info.rank: the ranks of the 3 x 3 x 3 block of subdomains around
      this one, this one in the middle.  How it is filled (periodic or not)
      is not part of this model. */
  type RankTable = seq<seq<seq<int>>>

  predicate WellShaped(t: RankTable)
  {
    && |t| == 3
    && forall a :: 0 <= a < 3 ==> |t[a]| == 3 && forall b :: 0 <= b < 3 ==> |t[a][b]| == 3
  }

  /** The rank of the subdomain at offset o; the zero offset gives the
      process's own rank. */
  function Neighbour(t: RankTable, o: Offset): int
    requires WellShaped(t)
  {
    t[o.x.Slot()][o.y.Slot()][o.z.Slot()]
  }

  /** Each of the 27 rank reads of the constructor takes the entry of its
      offset: rank_d is the neighbour at offset d, and rank the process's
      own entry. */
  lemma RankLookup(t: RankTable)
    requires WellShaped(t)
    ensures forall n :: 0 <= n < 27 ==>
      t[RankReads[n].a][RankReads[n].b][RankReads[n].c] == Neighbour(t, RankReads[n].offset)
    ensures Neighbour(t, RankReads[0].offset) == t[1][1][1]
  {
    RankReadsFollowRule();
  }

  // ---------------------------------------------------------------------
  // Lists and buffers
  // ---------------------------------------------------------------------

  function SendList(g: Geometry, d: Direction): seq<int>
  {
    HaloBlock(g, SendBox(g, d))
  }

  function RecvList(g: Geometry, d: Direction): seq<int>
  {
    HaloBlock(g, RecvBox(g, d))
  }

  /** On a valid shape both lists of a direction index the padded array
      without repeats; the receive list has the direction's receive count. */
  lemma ListsFit(g: Geometry, d: Direction)
    requires g.Valid()
    ensures IndicesIn(SendList(g, d), g.Size()) && Distinct(SendList(g, d))
    ensures IndicesIn(RecvList(g, d), g.Size()) && Distinct(RecvList(g, d))
    ensures |RecvList(g, d)| == RecvCount(g, d)
  {
    forall c | RecvBox(g, d).Contains(c)
      ensures g.InArray(c)
    {
      GhostBoxInArray(g, d, c);
    }
    HaloBlockInArray(g, SendBox(g, d));
    HaloBlockInArray(g, RecvBox(g, d));
  }

  /** An index on the receive list of d is a cell of the padded array whose
      region is d. */
  lemma RecvListOwner(g: Geometry, d: Direction, p: int)
    requires g.Valid() && p in RecvList(g, d)
    ensures 0 <= p < g.Size()
    ensures Region(g, Coords(p, g.nxh, g.nyh)) == d
  {
    var b := RecvBox(g, d);
    var n :| 0 <= n < |RecvList(g, d)| && RecvList(g, d)[n] == p;
    var c := Cells(b)[n];
    CellsExact(b);
    GhostBoxInArray(g, d, c);
    FlatInRange(c, g.nxh, g.nyh, g.nzh);
    CoordsOfFlat(c, g.nxh, g.nyh);
    GhostBoxPartition(g, d, c);
  }

  /** A cell of the padded array outside the owned region is on the receive
      list of its region, at its lexicographic position in that box. */
  lemma RecvListCover(g: Geometry, p: int)
    requires g.Valid() && 0 <= p < g.Size()
    requires !Region(g, Coords(p, g.nxh, g.nyh)).IsZero()
    ensures var d: Direction := Region(g, Coords(p, g.nxh, g.nyh));
      var n := Position(RecvBox(g, d), Coords(p, g.nxh, g.nyh));
      0 <= n < |RecvList(g, d)| && RecvList(g, d)[n] == p
  {
    var c := Coords(p, g.nxh, g.nyh);
    var d: Direction := Region(g, c);
    CoordsInArray(p, g.nxh, g.nyh, g.nzh);
    GhostBoxPartition(g, d, c);
    CellsExact(RecvBox(g, d));
  }

  /** The buffer Send packs for d: the values at d's send list. */
  function SendBuffer(g: Geometry, d: Direction, data: seq<real>): (buf: seq<real>)
    requires g.Valid() && |data| == g.Size()
    ensures |buf| == |SendList(g, d)|
  {
    ListsFit(g, d);
    Pack(SendList(g, d), data)
  }

  /** The buffers Send packs, the buffer of d at position Ordinal(d).  The
      source packs them in the order of HaloTables.PackOrder; each pack
      reads the array and writes only its own buffer, so the order in which
      they are packed does not change any buffer. */
  function SendBuffers(g: Geometry, data: seq<real>): (bufs: seq<seq<real>>)
    requires g.Valid() && |data| == g.Size()
    ensures |bufs| == 26
  {
    seq(26, k => SendBuffer(g, DirectionAt(k), data))
  }

  lemma DirectionAtIndex(d: Direction)
    ensures DirectionAt(Ordinal(d)) == d
  {
    AllComplete(d);
  }

  /** The buffer of d sits at Ordinal(d). */
  lemma SendBufferOf(g: Geometry, data: seq<real>, d: Direction)
    requires g.Valid() && |data| == g.Size()
    ensures SendBuffers(g, data)[Ordinal(d)] == SendBuffer(g, d, data)
  {
    DirectionAtIndex(d);
  }

  /** The send list of d is as long as the receive list the neighbour in
      direction d keeps for the opposite direction. */
  lemma SendListMatchesPeer(g: Geometry, d: Direction)
    ensures |SendList(g, d)| == RecvCount(g, Opposite(d))
  {
    SendBoxMatchesPeerRecvBox(g, d);
    CellsShift(SendBox(g, d), PeerShift(g, d));
  }

  // ---------------------------------------------------------------------
  // The requests Send posts
  // ---------------------------------------------------------------------

  /** sendtag and recvtag. */
  const Tag := 1

  /** A non-blocking send of the buffer of a direction, or a non-blocking
      receive into the buffer of a direction, with its peer rank and tag. */
  datatype Request =
    | Isend(buffer: Direction, peer: int, tag: int)
    | Irecv(buffer: Direction, peer: int, tag: int)

  /** Request m of Send: pair m / 2 of the schedule, its send first. */
  function RequestAt(t: RankTable, m: int): (r: Request)
    requires WellShaped(t)
    ensures r.peer == Neighbour(t, r.buffer) && r.tag == Tag
  {
    var pair := ExchangePairAt(m / 2);
    if m % 2 == 0 then Isend(pair.0, Neighbour(t, pair.0), Tag)
    else Irecv(pair.1, Neighbour(t, pair.1), Tag)
  }

  function Requests(t: RankTable): (r: seq<Request>)
    requires WellShaped(t)
    ensures |r| == 52
  {
    seq(52, m requires 0 <= m < 52 => RequestAt(t, m))
  }

  /** The buffers of the sends to peer with the given tag, in posting order. */
  function SendsTo(reqs: seq<Request>, peer: int, tag: int): (r: seq<Direction>)
    ensures |r| <= |reqs|
  {
    if reqs == [] then []
    else
      var last := reqs[|reqs| - 1];
      SendsTo(reqs[..|reqs| - 1], peer, tag)
        + (if last.Isend? && last.peer == peer && last.tag == tag then [last.buffer] else [])
  }

  /** The buffers of the receives from peer with the given tag, in posting order. */
  function RecvsFrom(reqs: seq<Request>, peer: int, tag: int): (r: seq<Direction>)
    ensures |r| <= |reqs|
  {
    if reqs == [] then []
    else
      var last := reqs[|reqs| - 1];
      RecvsFrom(reqs[..|reqs| - 1], peer, tag)
        + (if last.Irecv? && last.peer == peer && last.tag == tag then [last.buffer] else [])
  }

  /** Requests 2n and 2n + 1 are the n-th pair of the schedule: the send of
      one direction's buffer and the receive into the opposite direction's,
      each addressed to the rank of its direction. */
  lemma RequestPair(t: RankTable, n: int)
    requires WellShaped(t) && 0 <= n < 26
    ensures Requests(t)[2 * n] == Isend(SendSchedule[n], Neighbour(t, SendSchedule[n]), Tag)
    ensures Requests(t)[2 * n + 1] == Irecv(Opposite(SendSchedule[n]), Neighbour(t, Opposite(SendSchedule[n])), Tag)
  {
    assert (2 * n) / 2 == n && (2 * n) % 2 == 0;
    assert (2 * n + 1) / 2 == n && (2 * n + 1) % 2 == 1;
    ScheduleOpposite(n);
  }

  /** Send posts 52 requests, all with the one tag: the n-th send and the
      n-th receive of the schedule, the receive for the opposite direction,
      each addressed to the rank of its direction; every direction is sent
      once and received once. */
  lemma RequestsFollowSchedule(t: RankTable)
    requires WellShaped(t)
    ensures forall m :: 0 <= m < 52 ==> Requests(t)[m].tag == Tag
    ensures forall n :: 0 <= n < 26 ==>
      Requests(t)[2 * n] == Isend(SendSchedule[n], Neighbour(t, SendSchedule[n]), Tag) &&
      Requests(t)[2 * n + 1] == Irecv(Opposite(SendSchedule[n]), Neighbour(t, Opposite(SendSchedule[n])), Tag)
    ensures Enumerates(SendSchedule) && Enumerates(RecvSchedule)
  {
    forall n | 0 <= n < 26
      ensures Requests(t)[2 * n] == Isend(SendSchedule[n], Neighbour(t, SendSchedule[n]), Tag)
      ensures Requests(t)[2 * n + 1] == Irecv(Opposite(SendSchedule[n]), Neighbour(t, Opposite(SendSchedule[n])), Tag)
    {
      RequestPair(t, n);
    }
    ExchangePairsOpposite();
  }

  /** Process a with table ta and process b with table tb see each other
      consistently: b is a's neighbour in direction d exactly when a is b's
      neighbour in the opposite direction. */
  ghost predicate Reciprocal(ta: RankTable, a: int, tb: RankTable, b: int)
    requires WellShaped(ta) && WellShaped(tb)
  {
    forall d: Direction :: Neighbour(ta, d) == b <==> Neighbour(tb, Opposite(d)) == a
  }

  /** Message matching: the j-th message a sends b is the buffer of some
      direction d, and the j-th receive b posts for a is into the buffer of
      the opposite direction, so the halo a sends across d arrives where b
      expects the halo from -d.  This holds however many directions lead to
      the same rank. */
  lemma MatchedInOrder(ta: RankTable, a: int, tb: RankTable, b: int)
    requires WellShaped(ta) && WellShaped(tb) && Reciprocal(ta, a, tb, b)
    ensures |SendsTo(Requests(ta), b, Tag)| == |RecvsFrom(Requests(tb), a, Tag)|
    ensures forall j :: 0 <= j < |SendsTo(Requests(ta), b, Tag)| ==>
      RecvsFrom(Requests(tb), a, Tag)[j] == Opposite(SendsTo(Requests(ta), b, Tag)[j])
  {
    RequestsFollowSchedule(ta);
    RequestsFollowSchedule(tb);
    MatchedPrefix(ta, a, tb, b, 26);
    assert Requests(ta)[..52] == Requests(ta) && Requests(tb)[..52] == Requests(tb);
  }

  /** Two sequences of directions that are opposite entry by entry. */
  predicate Opposed(s: seq<Direction>, r: seq<Direction>)
  {
    |s| == |r| && forall j :: 0 <= j < |s| ==> r[j] == Opposite(s[j])
  }

  /** Appending opposed pieces keeps two sequences opposed. */
  lemma OpposedAppend(s: seq<Direction>, r: seq<Direction>, s2: seq<Direction>, r2: seq<Direction>)
    requires Opposed(s, r) && Opposed(s2, r2)
    ensures Opposed(s + s2, r + r2)
  {
    forall j | 0 <= j < |s + s2|
      ensures (r + r2)[j] == Opposite((s + s2)[j])
    {
      if j >= |s| {
        assert (r + r2)[j] == r2[j - |s|] && (s + s2)[j] == s2[j - |s|];
      }
    }
  }

  /** A send followed by a receive adds at most the send's buffer to the
      sends to peer. */
  lemma SendsToPair(reqs: seq<Request>, m: nat, peer: int, tag: int)
    requires 2 * m + 2 <= |reqs| && reqs[2 * m + 1].Irecv?
    ensures SendsTo(reqs[..2 * m + 2], peer, tag) == SendsTo(reqs[..2 * m], peer, tag)
      + (if reqs[2 * m].Isend? && reqs[2 * m].peer == peer && reqs[2 * m].tag == tag then [reqs[2 * m].buffer] else [])
  {
    assert reqs[..2 * m + 2][..2 * m + 1] == reqs[..2 * m + 1];
    assert reqs[..2 * m + 1][..2 * m] == reqs[..2 * m];
  }

  /** A send followed by a receive adds at most the receive's buffer to the
      receives from peer. */
  lemma RecvsFromPair(reqs: seq<Request>, m: nat, peer: int, tag: int)
    requires 2 * m + 2 <= |reqs| && reqs[2 * m].Isend?
    ensures RecvsFrom(reqs[..2 * m + 2], peer, tag) == RecvsFrom(reqs[..2 * m], peer, tag)
      + (if reqs[2 * m + 1].Irecv? && reqs[2 * m + 1].peer == peer && reqs[2 * m + 1].tag == tag then [reqs[2 * m + 1].buffer] else [])
  {
    assert reqs[..2 * m + 2][..2 * m + 1] == reqs[..2 * m + 1];
    assert reqs[..2 * m + 1][..2 * m] == reqs[..2 * m];
  }

  /** Over the first n pairs, the sends a posts to b and the receives b
      posts for a are opposite entry by entry. */
  lemma {:induction false} MatchedPrefix(ta: RankTable, a: int, tb: RankTable, b: int, n: nat)
    requires WellShaped(ta) && WellShaped(tb) && Reciprocal(ta, a, tb, b) && n <= 26
    ensures Opposed(SendsTo(Requests(ta)[..2 * n], b, Tag), RecvsFrom(Requests(tb)[..2 * n], a, Tag))
  {
    if n > 0 {
      var m := n - 1;
      var d := SendSchedule[m];
      MatchedPrefix(ta, a, tb, b, m);
      RequestPair(ta, m);
      RequestPair(tb, m);
      SendsToPair(Requests(ta), m, b, Tag);
      RecvsFromPair(Requests(tb), m, a, Tag);
      assert Neighbour(ta, d) == b <==> Neighbour(tb, Opposite(d)) == a;
      OpposedAppend(SendsTo(Requests(ta)[..2 * m], b, Tag), RecvsFrom(Requests(tb)[..2 * m], a, Tag),
        if Neighbour(ta, d) == b then [d] else [],
        if Neighbour(tb, Opposite(d)) == a then [Opposite(d)] else []);
    }
  }

  // ---------------------------------------------------------------------
  // Send and Recv
  // ---------------------------------------------------------------------

  /** What a successful Send leaves: the locked communicator, the packed
      buffers and the requests in flight. */
  datatype Posted = Posted(comm: Communicator, buffers: seq<seq<real>>, requests: seq<Request>)

  /** Send on a locked communicator is the "did you forget to match
      Send/Recv calls?" error; otherwise it takes the lock, packs every send
      buffer and posts the 52 requests. */
  function Send(c: Communicator, t: RankTable, data: seq<real>): (r: Result<Posted>)
    requires c.g.Valid() && WellShaped(t) && |data| == c.g.Size()
    ensures r.Ok? <==> c.lock == Unlocked
    ensures r.Ok? ==> r.value.comm.lock == Locked && r.value.comm.g == c.g
  {
    match c.lock
    case Locked => Err("communicator is locked: Send without a matching Recv")
    case Unlocked => Ok(Posted(c.(lock := Locked), SendBuffers(c.g, data), Requests(t)))
  }

  /** A successful Send hands each direction the values at its send list,
      as many as the neighbour in that direction expects, and posts the
      requests of the schedule. */
  lemma SendPacks(c: Communicator, t: RankTable, data: seq<real>, d: Direction)
    requires c.g.Valid() && WellShaped(t) && |data| == c.g.Size() && c.lock == Unlocked
    ensures IndicesIn(SendList(c.g, d), |data|)
      && Send(c, t, data).value.buffers[Ordinal(d)] == Pack(SendList(c.g, d), data)
    ensures |Send(c, t, data).value.buffers[Ordinal(d)]| == RecvCount(c.g, Opposite(d))
    ensures Send(c, t, data).value.requests == Requests(t)
  {
    ListsFit(c.g, d);
    SendBufferOf(c.g, data, d);
    SendListMatchesPeer(c.g, d);
  }

  /** The receive buffers have arrived, one per direction at Ordinal(d), each
      of its direction's receive count, and data is the padded array. */
  ghost predicate Arrived(g: Geometry, bufs: seq<seq<real>>, data: seq<real>)
  {
    && g.Valid() && |data| == g.Size() && |bufs| == 26
    && forall d: Direction :: |bufs[Ordinal(d)]| == RecvCount(g, d)
  }

  /** The receive lists of the directions of order, in that order. */
  function RecvLists(g: Geometry, order: seq<Direction>): (lists: seq<seq<int>>)
    ensures |lists| == |order|
  {
    seq(|order|, n requires 0 <= n < |order| => RecvList(g, order[n]))
  }

  /** The receive buffers of the directions of order, in that order. */
  function Arrivals(order: seq<Direction>, bufs: seq<seq<real>>): (arrived: seq<seq<real>>)
    requires |bufs| == 26
    ensures |arrived| == |order|
  {
    seq(|order|, n requires 0 <= n < |order| => bufs[Ordinal(order[n])])
  }

  lemma ArrivalsMatch(g: Geometry, order: seq<Direction>, bufs: seq<seq<real>>, data: seq<real>)
    requires Arrived(g, bufs, data)
    ensures Matching(RecvLists(g, order), Arrivals(order, bufs), |data|)
  {
    forall n | 0 <= n < |order|
      ensures |Arrivals(order, bufs)[n]| == |RecvLists(g, order)[n]|
      ensures IndicesIn(RecvLists(g, order)[n], |data|)
    {
      ListsFit(g, order[n]);
    }
  }

  /** Unpack the receive buffers of the directions of order, in that order. */
  function UnpackInOrder(g: Geometry, order: seq<Direction>, bufs: seq<seq<real>>, data: seq<real>): (r: seq<real>)
    requires Arrived(g, bufs, data)
    ensures |r| == |data|
  {
    ArrivalsMatch(g, order, bufs, data);
    UnpackEach(RecvLists(g, order), Arrivals(order, bufs), data)
  }

  /** What Recv leaves: the released communicator and the updated array. */
  datatype Received = Received(comm: Communicator, data: seq<real>)

  /** Recv: once the requests complete, unpack the 26 receive buffers in the
      source's order and release the lock (whatever its state was). */
  function Recv(c: Communicator, bufs: seq<seq<real>>, data: seq<real>): (r: Received)
    requires Arrived(c.g, bufs, data)
    ensures r.comm.lock == Unlocked && r.comm.g == c.g
    ensures |r.data| == |data|
  {
    Received(c.(lock := Unlocked), UnpackInOrder(c.g, seq(26, n => UnpackAt(n)), bufs, data))
  }

  /** The lock pairs Send with Recv: a fresh communicator accepts a Send, a
      second Send before Recv is an error, and after Recv Send is accepted
      again. */
  lemma LockProtocol(nx: int, ny: int, nz: int, w: int, t: RankTable, data: seq<real>, bufs: seq<seq<real>>)
    requires Create(nx, ny, nz, w).g.Valid() && WellShaped(t) && |data| == Create(nx, ny, nz, w).g.Size()
    requires Arrived(Create(nx, ny, nz, w).g, bufs, data)
    ensures Send(Create(nx, ny, nz, w), t, data).Ok?
    ensures Send(Send(Create(nx, ny, nz, w), t, data).value.comm, t, data).Err?
    ensures Send(Recv(Send(Create(nx, ny, nz, w), t, data).value.comm, bufs, data).comm, t, data).Ok?
  {
  }

  // ---------------------------------------------------------------------
  // What Recv writes
  // ---------------------------------------------------------------------

  /** The receive lists of distinct directions share no index. */
  lemma RecvListsDisjoint(g: Geometry, order: seq<Direction>)
    requires g.Valid() && Distinct(order)
    ensures Disjoint(RecvLists(g, order))
    ensures forall n :: 0 <= n < |order| ==> Distinct(RecvLists(g, order)[n])
  {
    var lists := RecvLists(g, order);
    forall m, n, p | 0 <= m < n < |lists| && p in lists[m]
      ensures p !in lists[n]
    {
      RecvListOwner(g, order[m], p);
      if p in lists[n] {
        RecvListOwner(g, order[n], p);
      }
    }
    forall n | 0 <= n < |order|
      ensures Distinct(lists[n])
    {
      ListsFit(g, order[n]);
    }
  }

  /** Unpacking in any order that lists each direction once stores the
      buffer of d on d's receive list (packing that list afterwards gives the
      buffer back), and leaves every owned cell as it was. */
  lemma UnpackInOrderSpec(g: Geometry, order: seq<Direction>, bufs: seq<seq<real>>, data: seq<real>, d: Direction)
    requires Arrived(g, bufs, data) && Enumerates(order)
    ensures IndicesIn(RecvList(g, d), |data|)
      && Pack(RecvList(g, d), UnpackInOrder(g, order, bufs, data)) == bufs[Ordinal(d)]
    ensures forall c :: OwnedBox(g).Contains(c) ==>
      0 <= g.Index(c) < |data| && UnpackInOrder(g, order, bufs, data)[g.Index(c)] == data[g.Index(c)]
  {
    var lists := RecvLists(g, order);
    var arrived := Arrivals(order, bufs);
    var r := UnpackInOrder(g, order, bufs, data);
    ArrivalsMatch(g, order, bufs, data);
    RecvListsDisjoint(g, order);
    ListsFit(g, d);
    assert d in order;
    var n :| 0 <= n < |order| && order[n] == d;
    forall i | 0 <= i < |RecvList(g, d)|
      ensures r[RecvList(g, d)[i]] == bufs[Ordinal(d)][i]
    {
      UnpackEachWrites(lists, arrived, data, n, i);
    }
    forall c | OwnedBox(g).Contains(c)
      ensures 0 <= g.Index(c) < |data| && r[g.Index(c)] == data[g.Index(c)]
    {
      OwnedNotReceived(g, c);
      UnpackEachFrame(lists, arrived, data, g.Index(c));
    }
  }

  /** No receive list names an owned cell. */
  lemma OwnedNotReceived(g: Geometry, c: Cell)
    requires g.Valid() && OwnedBox(g).Contains(c)
    ensures 0 <= g.Index(c) < g.Size()
    ensures forall d: Direction :: g.Index(c) !in RecvList(g, d)
  {
    GhostBoxInArray(g, Offset(Zero, Zero, Zero), c);
    FlatInRange(c, g.nxh, g.nyh, g.nzh);
    CoordsOfFlat(c, g.nxh, g.nyh);
    GhostBoxPartition(g, Offset(Zero, Zero, Zero), c);
    forall d: Direction
      ensures g.Index(c) !in RecvList(g, d)
    {
      if g.Index(c) in RecvList(g, d) {
        RecvListOwner(g, d, g.Index(c));
      }
    }
  }

  /** The order of the unpacks does not matter: any order listing each
      direction once leaves the same array. */
  lemma UnpackOrderIrrelevant(g: Geometry, order1: seq<Direction>, order2: seq<Direction>, bufs: seq<seq<real>>, data: seq<real>)
    requires Arrived(g, bufs, data) && Enumerates(order1) && Enumerates(order2)
    ensures UnpackInOrder(g, order1, bufs, data) == UnpackInOrder(g, order2, bufs, data)
  {
    forall p | 0 <= p < |data|
      ensures UnpackInOrder(g, order1, bufs, data)[p] == UnpackInOrder(g, order2, bufs, data)[p]
    {
      UnpackedValue(g, order1, bufs, data, p);
      UnpackedValue(g, order2, bufs, data, p);
    }
  }

  /** After unpacking in any order that lists each direction once, an
      owned cell keeps its value and any other cell holds the entry of its
      region's buffer at its position in that region's box. */
  lemma UnpackedValue(g: Geometry, order: seq<Direction>, bufs: seq<seq<real>>, data: seq<real>, p: int)
    requires Arrived(g, bufs, data) && Enumerates(order) && 0 <= p < |data|
    ensures var c := Coords(p, g.nxh, g.nyh);
      var o := Region(g, c);
      var r := UnpackInOrder(g, order, bufs, data);
      if o.IsZero() then r[p] == data[p]
      else 0 <= Position(RecvBox(g, o), c) < |bufs[Ordinal(o)]| && r[p] == bufs[Ordinal(o)][Position(RecvBox(g, o), c)]
  {
    var c := Coords(p, g.nxh, g.nyh);
    var o := Region(g, c);
    var r := UnpackInOrder(g, order, bufs, data);
    if o.IsZero() {
      CoordsInArray(p, g.nxh, g.nyh, g.nzh);
      GhostBoxPartition(g, o, c);
      UnpackInOrderSpec(g, order, bufs, data, Offset(Pos, Zero, Zero));
      assert OwnedBox(g).Contains(c);
    } else {
      var d: Direction := o;
      var list := RecvList(g, d);
      var n := Position(RecvBox(g, d), c);
      RecvListCover(g, p);
      UnpackInOrderSpec(g, order, bufs, data, d);
      assert Pack(list, r)[n] == r[p];
    }
  }

  /** Recv stores each receive buffer on its receive list and leaves the
      owned region alone; the source's unpack order could be any other. */
  lemma RecvSpec(c: Communicator, bufs: seq<seq<real>>, data: seq<real>, d: Direction)
    requires Arrived(c.g, bufs, data)
    ensures IndicesIn(RecvList(c.g, d), |data|)
      && Pack(RecvList(c.g, d), Recv(c, bufs, data).data) == bufs[Ordinal(d)]
    ensures forall cell :: OwnedBox(c.g).Contains(cell) ==>
      0 <= c.g.Index(cell) < |data| && Recv(c, bufs, data).data[c.g.Index(cell)] == data[c.g.Index(cell)]
    ensures forall order :: Enumerates(order) ==>
      Recv(c, bufs, data).data == UnpackInOrder(c.g, order, bufs, data)
  {
    PackUnpackOrdersEnumerate();
    assert seq(26, n => UnpackAt(n)) == UnpackOrder;
    UnpackInOrderSpec(c.g, UnpackOrder, bufs, data, d);
    forall order | Enumerates(order)
      ensures Recv(c, bufs, data).data == UnpackInOrder(c.g, order, bufs, data)
    {
      UnpackOrderIrrelevant(c.g, UnpackOrder, order, bufs, data);
    }
  }

  /** The halo round trip: when the receive buffer of -d holds what the
      neighbour in direction -d packed for d (Delivery.DeliverHalo derives
      this from the posted requests), Recv leaves on the receive list
      of -d exactly the values on that neighbour's send list of d, entry by
      entry, and ghost cell n is the neighbour's send cell n translated into
      this subdomain's coordinates. */
  lemma HaloRoundTrip(c: Communicator, bufs: seq<seq<real>>, data: seq<real>, peer: seq<real>, d: Direction)
    requires Arrived(c.g, bufs, data) && |peer| == c.g.Size()
    requires bufs[Ordinal(Opposite(d))] == SendBuffer(c.g, d, peer)
    ensures IndicesIn(SendList(c.g, d), |peer|) && IndicesIn(RecvList(c.g, Opposite(d)), |data|)
      && Pack(RecvList(c.g, Opposite(d)), Recv(c, bufs, data).data) == Pack(SendList(c.g, d), peer)
    ensures forall n :: 0 <= n < |SendList(c.g, d)| ==>
      Cells(RecvBox(c.g, Opposite(d)))[n] == Cells(SendBox(c.g, d))[n].Plus(PeerShift(c.g, d))
  {
    ListsFit(c.g, d);
    ListsFit(c.g, Opposite(d));
    SendRecvOrderAgree(c.g, d);
    RecvSpec(c, bufs, data, Opposite(d));
  }
}
