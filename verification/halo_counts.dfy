/** The send counts the constructor leaves behind.  Each getHaloBlock call
    stores the size of its box in a count variable; two calls of
    common/WideHalo.cpp name the wrong variable (lines 71 and 91), so one
    count is overwritten and two are never assigned.  This module models the
    counts as written and the counts as intended. */
module HaloCounts {
  import opened Directions
  import opened Boxes
  import opened Results
  import opened Suffixes
  import opened HaloTables

  /** The last of the first n calls that assigns count variable v. */
  function LastWriter(calls: seq<BlockCall>, v: Direction, n: int): (r: Option<int>)
    requires 0 <= n <= |calls|
    ensures r.Some? ==> 0 <= r.value < n
  {
    if n == 0 then None
    else if calls[n - 1].count == v then Some(n - 1)
    else LastWriter(calls, v, n - 1)
  }

  /** LastWriter finds a writer of v with no later writer before n, and
      finds none exactly when no call before n writes v. */
  lemma {:induction false} LastWriterSpec(calls: seq<BlockCall>, v: Direction, n: int)
    requires 0 <= n <= |calls|
    ensures forall m :: LastWriter(calls, v, n) == Some(m) ==>
      calls[m].count == v && forall p :: m < p < n ==> calls[p].count != v
    ensures LastWriter(calls, v, n).None? <==> forall p :: 0 <= p < n ==> calls[p].count != v
  {
    if n > 0 && calls[n - 1].count != v {
      LastWriterSpec(calls, v, n - 1);
    }
  }

  /** Count variable v once the given calls have run in order: the box
      size stored by the last call that assigns it, or None when no call
      does (the variable keeps whatever it held before). */
  function AsWrittenCount(calls: seq<BlockCall>, g: Geometry, v: Direction): (r: Option<nat>)
    ensures r.None? <==> LastWriter(calls, v, |calls|).None?
  {
    match LastWriter(calls, v, |calls|)
    case None => None
    case Some(p) => Some(calls[p].Box(g).Count())
  }

  /** The count a direction's send buffer needs: the size of its send list. */
  function SendCount(g: Geometry, d: Direction): (r: nat)
    ensures r == |HaloBlock(g, SendBox(g, d))|
  {
    SendBox(g, d).Count()
  }

  /** The intended send count of d equals the receive count of the opposite
      list on the neighbour: what one side sends, the other expects. */
  lemma SendCountMatchesPeerRecvCount(g: Geometry, d: Direction)
    ensures SendCount(g, d) == RecvCount(g, Opposite(d))
  {
    SendBoxMatchesPeerRecvBox(g, d);
  }

  /** Apart from the calls at lines 71 and 91, every send call assigns the
      count variable of the list it fills. */
  lemma CountsFollowLists(p: int)
    requires 0 <= p < 26 && p != 5 && p != 21
    ensures SendCallAt(p).count == SendCallAt(p).list
  {
    // One case per call.
    if p == 0 {
    } else if p == 1 {
    } else if p == 2 {
    } else if p == 3 {
    } else if p == 4 {
    } else if p == 6 {
    } else if p == 7 {
    } else if p == 8 {
    } else if p == 9 {
    } else if p == 10 {
    } else if p == 11 {
    } else if p == 12 {
    } else if p == 13 {
    } else if p == 14 {
    } else if p == 15 {
    } else if p == 16 {
    } else if p == 17 {
    } else if p == 18 {
    } else if p == 19 {
    } else if p == 20 {
    } else if p == 22 {
    } else if p == 23 {
    } else if p == 24 {
    }
  }

  /** Which calls assign the four affected count variables. */
  lemma CountWriters()
    ensures LastWriter(SendCalls, X, 26) == Some(5)
    ensures LastWriter(SendCalls, xYz, 26) == Some(21)
    ensures LastWriter(SendCalls, Z, 26) == None
    ensures LastWriter(SendCalls, xYZ, 26) == None
  {
    SendListsEnumerate();
    var lists := ListsFilled(SendCalls);
    assert lists[1] == X && lists[5] == Z && lists[20] == xYz && lists[21] == xYZ;
    forall p | 0 <= p < 26
      ensures SendCallAt(p).count != Z && SendCallAt(p).count != xYZ
      ensures 5 < p ==> SendCallAt(p).count != X
      ensures 21 < p ==> SendCallAt(p).count != xYz
    {
      if p != 5 && p != 21 {
        CountsFollowLists(p);
        assert SendCallAt(p).list == lists[p];
      }
    }
    assert SendCallAt(5).count == X && SendCallAt(21).count == xYz;
    LastWriterSpec(SendCalls, X, 26);
    LastWriterSpec(SendCalls, xYz, 26);
    LastWriterSpec(SendCalls, Z, 26);
    LastWriterSpec(SendCalls, xYZ, 26);
  }

  /** As written, sendCount_Z and sendCount_xYZ are never assigned,
      sendCount_X holds the size of the +z face and sendCount_xYz the size
      of the xYZ corner. */
  lemma AsWrittenCountsDefects(g: Geometry)
    ensures AsWrittenCount(SendCalls, g, Z).None?
    ensures AsWrittenCount(SendCalls, g, xYZ).None?
    ensures AsWrittenCount(SendCalls, g, X) == Some(SendCount(g, Z))
    ensures AsWrittenCount(SendCalls, g, xYz) == Some(SendCount(g, xYZ))
  {
    CountWriters();
    OverwrittenCount(g, X, 5);
    OverwrittenCount(g, xYz, 21);
  }

  /** A count variable whose last writer is call p holds the size of the
      list call p fills. */
  lemma OverwrittenCount(g: Geometry, v: Direction, p: int)
    requires 0 <= p < 26 && LastWriter(SendCalls, v, 26) == Some(p)
    ensures AsWrittenCount(SendCalls, g, v) == Some(SendCount(g, SendCallAt(p).list))
  {
    CallCount(g, p, SendCallAt(p).Box(g).Count());
  }

  /** The size a send call stores is the size of the list it fills. */
  lemma CallCount(g: Geometry, n: int, c: nat)
    requires 0 <= n < 26 && c == SendCallAt(n).Box(g).Count()
    ensures c == SendCount(g, SendCallAt(n).list)
  {
    SendCallBox(g, n);
  }

  /** Every other count variable holds the size of its own list. */
  lemma AsWrittenCountsElsewhere(g: Geometry, n: int)
    requires 0 <= n < 26 && n != 1 && n != 5 && n != 20 && n != 21
    ensures SendCallAt(n).count == SendCallAt(n).list
    ensures AsWrittenCount(SendCalls, g, SendCallAt(n).list) == Some(SendCount(g, SendCallAt(n).list))
  {
    CountsFollowLists(n);
    LastWriterIsOwnCall(n);
    OverwrittenCount(g, SendCallAt(n).list, n);
  }

  /** The call filling list n is the last to assign that list's count. */
  lemma LastWriterIsOwnCall(n: int)
    requires 0 <= n < 26 && n != 1 && n != 5 && n != 20 && n != 21
    ensures LastWriter(SendCalls, SendCallAt(n).list, 26) == Some(n)
  {
    SendListsEnumerate();
    CountsFollowLists(n);
    var v := SendCallAt(n).list;
    assert SendCalls[n].count == v;
    forall p | n < p < 26
      ensures SendCalls[p].count != v
    {
      OtherCallsWriteOtherCounts(n, p);
      assert SendCalls[p] == SendCallAt(p);
    }
    LastWriterSpec(SendCalls, v, 26);
    match LastWriter(SendCalls, v, 26)
    case None =>
      assert false;
    case Some(m) =>
      assert !(m < n) && !(n < m);
  }

  /** Distinct lists mean no other call assigns the count of list n. */
  lemma OtherCallsWriteOtherCounts(n: int, p: int)
    requires 0 <= n < 26 && n != 1 && n != 5 && n != 20 && n != 21
    requires 0 <= p < 26 && p != n
    requires Distinct(ListsFilled(SendCalls))
    ensures SendCallAt(p).count != SendCallAt(n).list
  {
    var lists := ListsFilled(SendCalls);
    assert lists[p] != lists[n] && lists[1] != lists[n] && lists[20] != lists[n];
    if p != 5 && p != 21 {
      CountsFollowLists(p);
    } else {
      assert lists[1] == SendCallAt(5).count && lists[20] == SendCallAt(21).count;
    }
  }

  /** Whenever the padded x and z extents differ (and the y extent leaves
      an interior), sendCount_X as written is not the size of the +x send
      list, which is what the -x neighbour expects to receive. */
  lemma AsWrittenXCountWrong(g: Geometry)
    requires g.Valid() && g.nyh > 2 * g.width && g.nxh != g.nzh
    ensures AsWrittenCount(SendCalls, g, X) != Some(SendCount(g, X))
    ensures SendCount(g, X) == RecvCount(g, Opposite(X))
  {
    AsWrittenCountsDefects(g);
    SendCountMatchesPeerRecvCount(g, X);
    FaceSizesDiffer(g);
  }

  /** The +x and +z faces of the send region differ in size when the padded
      x and z extents differ. */
  lemma FaceSizesDiffer(g: Geometry)
    requires g.Valid() && g.nyh > 2 * g.width && g.nxh != g.nzh
    ensures SendCount(g, Z) != SendCount(g, X)
  {
    var w, a, b, c := g.width, g.nxh - 2 * g.width, g.nyh - 2 * g.width, g.nzh - 2 * g.width;
    assert SendCount(g, X) == w * b * c;
    assert SendCount(g, Z) == a * b * w;
    assert a != c;
    CancelCommon(a, c, b * w);
    assert a * b * w == a * (b * w) && w * b * c == c * (b * w);
  }

  lemma CancelCommon(a: int, c: int, k: int)
    requires k > 0 && a != c
    ensures a * k != c * k
  {
    if a < c {
      assert c * k - a * k == (c - a) * k;
    } else {
      assert a * k - c * k == (a - c) * k;
    }
  }

  /** A 4 x 4 x 6 padded block of halo width 1: the +x send list holds 8
      cells, and so the -x neighbour posts a receive of 8 values, but
      sendCount_X is 4, the size of the +z face. */
  lemma AsWrittenCountCounterexample(g: Geometry)
    requires g == Geometry(4, 4, 6, 1)
    ensures AsWrittenCount(SendCalls, g, X) == Some(4)
    ensures SendCount(g, X) == 8 && RecvCount(g, Opposite(X)) == 8
  {
    AsWrittenCountsDefects(g);
    SendCountMatchesPeerRecvCount(g, X);
    ExampleSizes(g);
  }

  lemma ExampleSizes(g: Geometry)
    requires g == Geometry(4, 4, 6, 1)
    ensures SendCount(g, Z) == 4 && SendCount(g, X) == 8
  {
  }
}
