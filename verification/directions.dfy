/** The 26 neighbour directions of a subdomain in a 3-D process grid: every
    offset in {-1,0,1}^3 except (0,0,0).  The communicator names a direction by
    the axes it moves along, a lower-case letter for -1 and an upper-case
    letter for +1 ("x" is -x, "XY" is +x+y, "xYz" is -x+y-z). */
module Directions {
  import opened Grid

  /** One component of an offset. */
  datatype Sign = Neg | Zero | Pos {
    function Value(): int
    {
      match this
      case Neg => -1
      case Zero => 0
      case Pos => 1
    }

    function Flip(): (r: Sign)
      ensures r.Value() == -Value()
    {
      match this
      case Neg => Pos
      case Zero => Zero
      case Pos => Neg
    }

    /** Index 0, 1 or 2 of this component in the 3x3x3 rank table. */
    function Slot(): (r: nat)
      ensures r < 3 && r == 1 + Value()
    {
      match this
      case Neg => 0
      case Zero => 1
      case Pos => 2
    }
  }

  /** An offset in {-1,0,1}^3. */
  datatype Offset = Offset(x: Sign, y: Sign, z: Sign) {
    predicate IsZero()
    {
      x == Zero && y == Zero && z == Zero
    }

    /** The offset as an integer vector. */
    function Vector(): Cell
    {
      Cell(x.Value(), y.Value(), z.Value())
    }
  }

  /** A neighbour direction: a non-zero offset. */
  type Direction = d: Offset | !d.IsZero() witness Offset(Pos, Zero, Zero)

  /** The direction pointing the other way. */
  function Opposite(d: Direction): (r: Direction)
    ensures r.Vector() == Cell(-d.Vector().i, -d.Vector().j, -d.Vector().k)
  {
    Offset(d.x.Flip(), d.y.Flip(), d.z.Flip())
  }

  lemma OppositeInvolutive(d: Direction)
    ensures Opposite(Opposite(d)) == d
    ensures Opposite(d) != d
  {
  }

  /** The sign an axis takes in a direction name: the lower-case letter
      means -1, the upper-case letter +1, neither means 0. */
  function AxisSign(name: string, lower: char, upper: char): Sign
  {
    if lower in name then Neg else if upper in name then Pos else Zero
  }

  /** The direction a communicator variable suffix such as "xYz" denotes. */
  function Named(name: string): Offset
  {
    Offset(AxisSign(name, 'x', 'X'), AxisSign(name, 'y', 'Y'), AxisSign(name, 'z', 'Z'))
  }

  /** Position of an offset in the 3x3x3 rank table read in row-major
      order: 9 * (1 + dx) + 3 * (1 + dy) + (1 + dz). */
  function Code(o: Offset): (c: nat)
    ensures c < 27
    ensures c == 13 <==> o.IsZero()
  {
    9 * o.x.Slot() + 3 * o.y.Slot() + o.z.Slot()
  }

  lemma CodeInjective(a: Offset, b: Offset)
    ensures Code(a) == Code(b) <==> a == b
  {
    if Code(a) == Code(b) {
      assert a.z.Slot() == Code(a) % 3 && b.z.Slot() == Code(b) % 3;
      assert a.y.Slot() == (Code(a) / 3) % 3 && b.y.Slot() == (Code(b) / 3) % 3;
    }
  }

  /** The position of a direction in All, which numbers its buffers. */
  function Ordinal(d: Direction): (k: nat)
    ensures k < 26
  {
    if Code(d) < 13 then Code(d) else Code(d) - 1
  }

  /** The k-th direction in rank-table order (the centre skipped). */
  function DirectionAt(k: int): Direction
  {
    match k
    case 0 => Offset(Neg, Neg, Neg)
    case 1 => Offset(Neg, Neg, Zero)
    case 2 => Offset(Neg, Neg, Pos)
    case 3 => Offset(Neg, Zero, Neg)
    case 4 => Offset(Neg, Zero, Zero)
    case 5 => Offset(Neg, Zero, Pos)
    case 6 => Offset(Neg, Pos, Neg)
    case 7 => Offset(Neg, Pos, Zero)
    case 8 => Offset(Neg, Pos, Pos)
    case 9 => Offset(Zero, Neg, Neg)
    case 10 => Offset(Zero, Neg, Zero)
    case 11 => Offset(Zero, Neg, Pos)
    case 12 => Offset(Zero, Zero, Neg)
    case 13 => Offset(Zero, Zero, Pos)
    case 14 => Offset(Zero, Pos, Neg)
    case 15 => Offset(Zero, Pos, Zero)
    case 16 => Offset(Zero, Pos, Pos)
    case 17 => Offset(Pos, Neg, Neg)
    case 18 => Offset(Pos, Neg, Zero)
    case 19 => Offset(Pos, Neg, Pos)
    case 20 => Offset(Pos, Zero, Neg)
    case 21 => Offset(Pos, Zero, Zero)
    case 22 => Offset(Pos, Zero, Pos)
    case 23 => Offset(Pos, Pos, Neg)
    case 24 => Offset(Pos, Pos, Zero)
    case _ => Offset(Pos, Pos, Pos)
  }

  /** Every direction once, in rank-table order. */
  const All: seq<Direction> := seq(26, k => DirectionAt(k))

  /** The k-th entry of All sits at position k of the rank table, or k+1
      past the centre. */
  lemma AllCodes()
    ensures |All| == 26
    ensures forall k :: 0 <= k < 26 ==> Code(All[k]) == if k < 13 then k else k + 1
  {
  }

  /** No element occurs twice. */
  predicate Distinct<T(==)>(s: seq<T>)
  {
    forall a, b :: 0 <= a < b < |s| ==> s[a] != s[b]
  }

  /** s lists each of the 26 directions exactly once (and nothing else). */
  ghost predicate Enumerates(s: seq<Offset>)
  {
    && |s| == 26
    && Distinct(s)
    && (forall n :: 0 <= n < |s| ==> !s[n].IsZero())
    && forall d: Direction :: d in s
  }

  lemma AllComplete(d: Direction)
    ensures All[Ordinal(d)] == d
  {
    AllCodes();
    CodeInjective(All[Ordinal(d)], d);
  }

  lemma AllEnumerates()
    ensures Enumerates(All)
  {
    AllCodes();
    forall a, b | 0 <= a < b < 26
      ensures All[a] != All[b]
    {
      CodeInjective(All[a], All[b]);
    }
    forall d: Direction
      ensures d in All
    {
      AllComplete(d);
    }
  }

  /** The set of elements of a sequence. */
  function Elems<T>(s: seq<T>): set<T>
  {
    set x | x in s
  }

  /** A sequence has at most as many elements as entries, and exactly as
      many when it has no repeats. */
  lemma {:induction false} ElemsCard<T>(s: seq<T>)
    ensures |Elems(s)| <= |s|
    ensures |Elems(s)| == |s| <==> Distinct(s)
  {
    if s != [] {
      var t := s[1..];
      ElemsCard(t);
      assert Elems(s) == {s[0]} + Elems(t);
      if s[0] in t {
        assert Elems(s) == Elems(t);
        var m :| 0 <= m < |t| && t[m] == s[0];
        assert s[m + 1] == s[0];
      } else {
        assert |Elems(s)| == 1 + |Elems(t)|;
        if Distinct(s) {
          assert Distinct(t) by {
            forall a, b | 0 <= a < b < |t|
              ensures t[a] != t[b]
            {
              assert t[a] == s[a + 1] && t[b] == s[b + 1];
            }
          }
        }
        if |Elems(s)| == |s| {
          forall a, b | 0 <= a < b < |s|
            ensures s[a] != s[b]
          {
            if a > 0 {
              assert s[a] == t[a - 1] && s[b] == t[b - 1];
            } else {
              assert s[b] == t[b - 1];
            }
          }
        }
      }
    }
  }

  lemma SubsetCard<T>(a: set<T>, b: set<T>)
    requires a <= b
    ensures |a| <= |b|
  {
    assert b == a + (b - a);
  }

  /** A 26-entry list that contains every direction lists each exactly
      once; where(k) is the position of All[k] in it. */
  lemma EnumeratesByPositions(s: seq<Offset>, where: int -> int)
    requires |s| == 26
    requires forall k :: 0 <= k < 26 ==> 0 <= where(k) < 26 && s[where(k)] == All[k]
    ensures Enumerates(s)
  {
    AllEnumerates();
    ElemsCard(All);
    ElemsCard(s);
    assert Elems(All) <= Elems(s) by {
      forall e | e in Elems(All)
        ensures e in Elems(s)
      {
        var k :| 0 <= k < 26 && All[k] == e;
        assert s[where(k)] == e;
      }
    }
    SubsetCard(Elems(All), Elems(s));
    forall d: Direction
      ensures d in s
    {
      AllComplete(d);
      assert s[where(Ordinal(d))] == d;
    }
    forall n | 0 <= n < |s|
      ensures !s[n].IsZero()
    {
      if s[n].IsZero() {
        assert Elems(All) <= Elems(s) - {s[n]};
        SubsetCard(Elems(All), Elems(s) - {s[n]});
      }
    }
  }
}
