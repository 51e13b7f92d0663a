/** Pack and Unpack as the communicator uses them (ScaLBL_Scalar_Pack and
    ScaLBL_Scalar_Unpack, whose bodies are not part of this model): Pack
    gathers the values at a list's indices into a buffer, Unpack scatters a
    buffer back to the indices of a list, entry 0 first. */
module PackUnpack {
  import opened Directions

  /** Every entry of list is an index into an array of the given size. */
  predicate IndicesIn(list: seq<int>, size: int)
  {
    forall i :: 0 <= i < |list| ==> 0 <= list[i] < size
  }

  /** Buffer entry i is the value at list[i]. */
  function Pack<T>(list: seq<int>, data: seq<T>): (buf: seq<T>)
    requires IndicesIn(list, |data|)
    ensures |buf| == |list|
  {
    seq(|list|, i requires 0 <= i < |list| => data[list[i]])
  }

  /** For i = 0, 1, ... in turn the value at list[i] becomes buf[i]. */
  function Unpack<T>(list: seq<int>, buf: seq<T>, data: seq<T>): (r: seq<T>)
    requires |buf| == |list| && IndicesIn(list, |data|)
    ensures |r| == |data|
    decreases |list|
  {
    if list == [] then data
    else Unpack(list[1..], buf[1..], data[list[0] := buf[0]])
  }

  /** Unpack leaves every index outside the list alone. */
  lemma {:induction false} UnpackFrame<T>(list: seq<int>, buf: seq<T>, data: seq<T>, p: int)
    requires |buf| == |list| && IndicesIn(list, |data|)
    requires 0 <= p < |data| && p !in list
    ensures Unpack(list, buf, data)[p] == data[p]
    decreases |list|
  {
    if list != [] {
      assert p != list[0];
      UnpackFrame(list[1..], buf[1..], data[list[0] := buf[0]], p);
    }
  }

  /** On a list without repeats, Unpack stores buf[i] at list[i]. */
  lemma {:induction false} UnpackWrites<T>(list: seq<int>, buf: seq<T>, data: seq<T>, i: int)
    requires |buf| == |list| && IndicesIn(list, |data|)
    requires Distinct(list) && 0 <= i < |list|
    ensures Unpack(list, buf, data)[list[i]] == buf[i]
    decreases |list|
  {
    var rest := list[1..];
    var next := data[list[0] := buf[0]];
    if i == 0 {
      assert list[0] !in rest by {
        forall m | 0 <= m < |rest|
          ensures rest[m] != list[0]
        {
          assert rest[m] == list[m + 1];
        }
      }
      UnpackFrame(rest, buf[1..], next, list[0]);
    } else {
      assert Distinct(rest) by {
        forall a, b | 0 <= a < b < |rest|
          ensures rest[a] != rest[b]
        {
          assert rest[a] == list[a + 1] && rest[b] == list[b + 1];
        }
      }
      UnpackWrites(rest, buf[1..], next, i - 1);
      assert rest[i - 1] == list[i];
    }
  }

  /** Unpacking then packing the same list gives the buffer back. */
  lemma PackAfterUnpack<T>(list: seq<int>, buf: seq<T>, data: seq<T>)
    requires |buf| == |list| && IndicesIn(list, |data|) && Distinct(list)
    ensures Pack(list, Unpack(list, buf, data)) == buf
  {
    forall i | 0 <= i < |list|
      ensures Pack(list, Unpack(list, buf, data))[i] == buf[i]
    {
      UnpackWrites(list, buf, data, i);
    }
  }

  /** Unpacking what was packed from the same array changes nothing, even
      when the list repeats an index. */
  lemma {:induction false} UnpackAfterPack<T>(list: seq<int>, data: seq<T>)
    requires IndicesIn(list, |data|)
    ensures Unpack(list, Pack(list, data), data) == data
    decreases |list|
  {
    if list != [] {
      var buf := Pack(list, data);
      assert data[list[0] := buf[0]] == data;
      assert buf[1..] == Pack(list[1..], data);
      UnpackAfterPack(list[1..], data);
    }
  }

  // ---------------------------------------------------------------------
  // A sequence of unpacks
  // ---------------------------------------------------------------------

  /** Each list has a buffer of its own length and indexes the array. */
  predicate Matching<T>(lists: seq<seq<int>>, bufs: seq<seq<T>>, size: int)
  {
    && |bufs| == |lists|
    && forall n :: 0 <= n < |lists| ==> |bufs[n]| == |lists[n]| && IndicesIn(lists[n], size)
  }

  /** No index appears in two different lists. */
  predicate Disjoint(lists: seq<seq<int>>)
  {
    forall m, n, p :: 0 <= m < n < |lists| && p in lists[m] ==> p !in lists[n]
  }

  /** Unpack list n with buffer n, for n = 0, 1, ... in turn. */
  function UnpackEach<T>(lists: seq<seq<int>>, bufs: seq<seq<T>>, data: seq<T>): (r: seq<T>)
    requires Matching(lists, bufs, |data|)
    ensures |r| == |data|
    decreases |lists|
  {
    if lists == [] then data
    else UnpackEach(lists[1..], bufs[1..], Unpack(lists[0], bufs[0], data))
  }

  /** An index in none of the lists keeps its value. */
  lemma {:induction false} UnpackEachFrame<T>(lists: seq<seq<int>>, bufs: seq<seq<T>>, data: seq<T>, p: int)
    requires Matching(lists, bufs, |data|)
    requires 0 <= p < |data| && forall n :: 0 <= n < |lists| ==> p !in lists[n]
    ensures UnpackEach(lists, bufs, data)[p] == data[p]
    decreases |lists|
  {
    if lists != [] {
      UnpackFrame(lists[0], bufs[0], data, p);
      assert forall n :: 0 <= n < |lists| - 1 ==> lists[1..][n] == lists[n + 1];
      UnpackEachFrame(lists[1..], bufs[1..], Unpack(lists[0], bufs[0], data), p);
    }
  }

  /** With lists that repeat no index, neither within nor across lists,
      entry i of list n ends up holding entry i of buffer n. */
  lemma {:induction false} UnpackEachWrites<T>(lists: seq<seq<int>>, bufs: seq<seq<T>>, data: seq<T>, n: int, i: int)
    requires Matching(lists, bufs, |data|)
    requires (forall m :: 0 <= m < |lists| ==> Distinct(lists[m])) && Disjoint(lists)
    requires 0 <= n < |lists| && 0 <= i < |lists[n]|
    ensures UnpackEach(lists, bufs, data)[lists[n][i]] == bufs[n][i]
    decreases |lists|
  {
    var next := Unpack(lists[0], bufs[0], data);
    assert forall m :: 0 <= m < |lists| - 1 ==> lists[1..][m] == lists[m + 1];
    if n == 0 {
      UnpackWrites(lists[0], bufs[0], data, i);
      assert lists[0][i] in lists[0];
      UnpackEachFrame(lists[1..], bufs[1..], next, lists[0][i]);
    } else {
      UnpackEachWrites(lists[1..], bufs[1..], next, n - 1, i);
    }
  }
}
