/** Delivery of the exchange's messages between two processes.  MPI matches
    messages in order: the j-th message a sends b with a tag is taken by the
    j-th receive b posts for a with that tag.  Deliver writes each matched
    send buffer of a into the receive buffer of b that its receive names;
    with it the arrival of the halo that a packed for d in the receive
    buffer b keeps for -d is derived from the posted requests rather than
    assumed.  Both processes have the same padded shape. */
module Delivery {
  import opened Grid
  import opened Directions
  import opened Boxes
  import opened HaloTables
  import opened PackUnpack
  import opened Exchange

  function Min(a: int, b: int): int
  {
    if a <= b then a else b
  }

  /** The receive slots of the first k matched receives. */
  function Slots(recvs: seq<Direction>, k: int): (list: seq<int>)
    requires 0 <= k <= |recvs|
    ensures |list| == k && IndicesIn(list, 26)
  {
    seq(k, j requires 0 <= j < k => Ordinal(recvs[j]))
  }

  /** The messages of the first k matched sends. */
  function Messages(sends: seq<Direction>, out: seq<seq<real>>, k: int): (msgs: seq<seq<real>>)
    requires 0 <= k <= |sends| && |out| == 26
    ensures |msgs| == k
  {
    seq(k, j requires 0 <= j < k => out[Ordinal(sends[j])])
  }

  /** The j-th send of a (buffer sends[j] of out) lands in the receive
      buffer recvs[j] of b's inbox, j = 0, 1, ... in turn; sends or
      receives without a partner deliver nothing. */
  function Deliver(sends: seq<Direction>, recvs: seq<Direction>, out: seq<seq<real>>, inbox: seq<seq<real>>): (r: seq<seq<real>>)
    requires |out| == 26 && |inbox| == 26
    ensures |r| == 26
  {
    var k := Min(|sends|, |recvs|);
    Unpack(Slots(recvs, k), Messages(sends, out, k), inbox)
  }

  /** What b's inbox holds after a's posted sends met b's posted receives. */
  function Transfer(pa: Posted, a: int, pb: Posted, b: int, inbox: seq<seq<real>>): (r: seq<seq<real>>)
    requires |pa.buffers| == 26 && |inbox| == 26
    ensures |r| == 26
  {
    Deliver(SendsTo(pa.requests, b, Tag), RecvsFrom(pb.requests, a, Tag), pa.buffers, inbox)
  }

  /** No entry of a sequence of distinct directions repeats. */
  lemma DistinctAppend(s: seq<Direction>, x: Direction)
    requires Distinct(s) && x !in s
    ensures Distinct(s + [x])
  {
    forall a, b | 0 <= a < b < |s + [x]|
      ensures (s + [x])[a] != (s + [x])[b]
    {
      if b == |s| {
        assert (s + [x])[a] == s[a];
      } else {
        assert (s + [x])[a] == s[a] && (s + [x])[b] == s[b];
      }
    }
  }

  /** Entry m of the schedule is not among the entries before it. */
  lemma ScheduleFresh(m: int)
    requires 0 <= m < 26
    ensures SendSchedule[..m + 1] == SendSchedule[..m] + [SendSchedule[m]]
    ensures SendSchedule[m] !in SendSchedule[..m]
  {
    SendScheduleEnumerates();
    forall p | 0 <= p < m
      ensures SendSchedule[..m][p] != SendSchedule[m]
    {
      assert SendSchedule[..m][p] == SendSchedule[p];
    }
  }

  /** Appending a fresh direction when its neighbour is peer keeps s the
      repeat-free list of the directions of prev whose neighbour is peer. */
  lemma SendsStep(t: RankTable, peer: int, s: seq<Direction>, prev: seq<Direction>, d: Direction)
    requires WellShaped(t) && Distinct(s) && d !in prev
    requires forall x :: x in s <==> x in prev && Neighbour(t, x) == peer
    ensures Distinct(s + if Neighbour(t, d) == peer then [d] else [])
    ensures forall x :: x in s + (if Neighbour(t, d) == peer then [d] else []) <==>
      x in prev + [d] && Neighbour(t, x) == peer
  {
    if Neighbour(t, d) == peer {
      DistinctAppend(s, d);
    } else {
      assert s + [] == s;
    }
  }

  /** The first n schedule pairs send to peer exactly the directions among
      the first n of the schedule whose neighbour is peer, each once. */
  lemma {:induction false} SendsToContents(t: RankTable, peer: int, n: nat)
    requires WellShaped(t) && n <= 26
    ensures Distinct(SendsTo(Requests(t)[..2 * n], peer, Tag))
    ensures forall x :: x in SendsTo(Requests(t)[..2 * n], peer, Tag) <==>
      x in SendSchedule[..n] && Neighbour(t, x) == peer
  {
    if n == 0 {
      assert Requests(t)[..0] == [];
    } else {
      var m := n - 1;
      var d := SendSchedule[m];
      SendsToContents(t, peer, m);
      RequestPair(t, m);
      SendsToPair(Requests(t), m, peer, Tag);
      ScheduleFresh(m);
      SendsStep(t, peer, SendsTo(Requests(t)[..2 * m], peer, Tag), SendSchedule[..m], d);
    }
  }

  /** The receives b posts for a go into buffers of directions whose
      neighbour is a. */
  lemma {:induction false} RecvsFromNeighbours(t: RankTable, peer: int, n: nat)
    requires WellShaped(t) && n <= 26
    ensures forall x :: x in RecvsFrom(Requests(t)[..2 * n], peer, Tag) ==> Neighbour(t, x) == peer
  {
    if n == 0 {
      assert Requests(t)[..0] == [];
    } else {
      var m := n - 1;
      RecvsFromNeighbours(t, peer, m);
      RequestPair(t, m);
      RecvsFromPair(Requests(t), m, peer, Tag);
    }
  }

  /** Directions at distinct positions of All are distinct. */
  lemma OrdinalInjective(d: Direction, e: Direction)
    ensures Ordinal(d) == Ordinal(e) <==> d == e
  {
    AllComplete(d);
    AllComplete(e);
  }

  /** The sends a posts to b name each direction at most once, and name d
      when d leads to b. */
  lemma SentToNeighbour(t: RankTable, b: int, d: Direction)
    requires WellShaped(t) && Neighbour(t, d) == b
    ensures Distinct(SendsTo(Requests(t), b, Tag)) && d in SendsTo(Requests(t), b, Tag)
  {
    assert Requests(t)[..2 * 26] == Requests(t);
    SendsToContents(t, b, 26);
    SendScheduleEnumerates();
    assert SendSchedule[..26] == SendSchedule;
  }

  /** Receives opposite to repeat-free sends name distinct slots. */
  lemma SlotsDistinct(sends: seq<Direction>, recvs: seq<Direction>)
    requires Distinct(sends) && Opposed(sends, recvs)
    ensures Distinct(Slots(recvs, |recvs|))
  {
    var list := Slots(recvs, |recvs|);
    forall p, q | 0 <= p < q < |recvs|
      ensures list[p] != list[q]
    {
      OrdinalInjective(recvs[p], recvs[q]);
      OppositeInvolutive(sends[p]);
      OppositeInvolutive(sends[q]);
    }
  }

  /** The halo arrives: when b is a's neighbour across d and the two see
      each other consistently, the receive buffer b keeps for -d ends up
      holding the buffer a packed for d, whatever else b receives from a. */
  lemma DeliverHalo(g: Geometry, ta: RankTable, a: int, tb: RankTable, b: int,
                    dataA: seq<real>, inbox: seq<seq<real>>, d: Direction)
    requires g.Valid() && WellShaped(ta) && WellShaped(tb) && Reciprocal(ta, a, tb, b)
    requires |dataA| == g.Size() && |inbox| == 26 && Neighbour(ta, d) == b
    ensures Deliver(SendsTo(Requests(ta), b, Tag), RecvsFrom(Requests(tb), a, Tag), SendBuffers(g, dataA), inbox)[Ordinal(Opposite(d))]
      == SendBuffer(g, d, dataA)
  {
    var sends := SendsTo(Requests(ta), b, Tag);
    var recvs := RecvsFrom(Requests(tb), a, Tag);
    var out := SendBuffers(g, dataA);
    MatchedInOrder(ta, a, tb, b);
    SentToNeighbour(ta, b, d);
    var j :| 0 <= j < |sends| && sends[j] == d;
    SlotsDistinct(sends, recvs);
    UnpackWrites(Slots(recvs, |recvs|), Messages(sends, out, |sends|), inbox, j);
    SendBufferOf(g, dataA, d);
  }

  /** A receive buffer b keeps for a direction whose neighbour is not a is
      left alone by what a delivers. */
  lemma DeliverFrame(g: Geometry, ta: RankTable, a: int, tb: RankTable, b: int,
                     dataA: seq<real>, inbox: seq<seq<real>>, e: Direction)
    requires g.Valid() && WellShaped(ta) && WellShaped(tb)
    requires |dataA| == g.Size() && |inbox| == 26 && Neighbour(tb, e) != a
    ensures Deliver(SendsTo(Requests(ta), b, Tag), RecvsFrom(Requests(tb), a, Tag), SendBuffers(g, dataA), inbox)[Ordinal(e)]
      == inbox[Ordinal(e)]
  {
    var sends := SendsTo(Requests(ta), b, Tag);
    var recvs := RecvsFrom(Requests(tb), a, Tag);
    var k := Min(|sends|, |recvs|);
    assert Requests(tb)[..2 * 26] == Requests(tb);
    RecvsFromNeighbours(tb, a, 26);
    forall p | 0 <= p < k
      ensures Slots(recvs, k)[p] != Ordinal(e)
    {
      OrdinalInjective(recvs[p], e);
    }
    UnpackFrame(Slots(recvs, k), Messages(sends, SendBuffers(g, dataA), k), inbox, Ordinal(e));
  }

  /** Delivery keeps every receive buffer at its direction's receive
      count. */
  lemma DeliverKeepsArrived(g: Geometry, ta: RankTable, a: int, tb: RankTable, b: int,
                            dataA: seq<real>, inbox: seq<seq<real>>, dataB: seq<real>)
    requires g.Valid() && WellShaped(ta) && WellShaped(tb) && Reciprocal(ta, a, tb, b)
    requires |dataA| == g.Size() && Arrived(g, inbox, dataB)
    ensures Arrived(g, Deliver(SendsTo(Requests(ta), b, Tag), RecvsFrom(Requests(tb), a, Tag), SendBuffers(g, dataA), inbox), dataB)
  {
    var r := Deliver(SendsTo(Requests(ta), b, Tag), RecvsFrom(Requests(tb), a, Tag), SendBuffers(g, dataA), inbox);
    forall e: Direction
      ensures |r[Ordinal(e)]| == RecvCount(g, e)
    {
      if Neighbour(tb, e) == a {
        var d := Opposite(e);
        OppositeInvolutive(e);
        assert Neighbour(ta, d) == b;
        DeliverHalo(g, ta, a, tb, b, dataA, inbox, d);
        SendListMatchesPeer(g, d);
      } else {
        DeliverFrame(g, ta, a, tb, b, dataA, inbox, e);
      }
    }
  }

  /** The halo round trip from the posted requests: both processes Send,
      a's messages reach b's inbox, and once every buffer has arrived the
      Recv on b's communicator, as its Send left it, puts on b's receive
      list of -d exactly the values on a's send list of d. */
  lemma DeliveredRoundTrip(ca: Communicator, ta: RankTable, a: int, dataA: seq<real>,
                           cb: Communicator, tb: RankTable, b: int, dataB: seq<real>,
                           inbox: seq<seq<real>>, d: Direction)
    requires ca.g == cb.g && ca.g.Valid() && ca.lock == Unlocked && cb.lock == Unlocked
    requires WellShaped(ta) && WellShaped(tb) && Reciprocal(ta, a, tb, b) && Neighbour(ta, d) == b
    requires |dataA| == ca.g.Size() && |dataB| == cb.g.Size() && |inbox| == 26
    requires Arrived(cb.g, Transfer(Send(ca, ta, dataA).value, a, Send(cb, tb, dataB).value, b, inbox), dataB)
    ensures IndicesIn(SendList(ca.g, d), |dataA|) && IndicesIn(RecvList(cb.g, Opposite(d)), |dataB|)
    ensures Pack(RecvList(cb.g, Opposite(d)),
                 Recv(Send(cb, tb, dataB).value.comm,
                      Transfer(Send(ca, ta, dataA).value, a, Send(cb, tb, dataB).value, b, inbox), dataB).data)
      == Pack(SendList(ca.g, d), dataA)
  {
    var bufs := Transfer(Send(ca, ta, dataA).value, a, Send(cb, tb, dataB).value, b, inbox);
    DeliverHalo(ca.g, ta, a, tb, b, dataA, inbox, d);
    HaloRoundTrip(Send(cb, tb, dataB).value.comm, bufs, dataB, dataA, d);
  }
}
