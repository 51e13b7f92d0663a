/** The Map the communicator's constructor builds: for every cell of the
    owned region of the padded array it records the cell's flat padded
    index at the corresponding coordinate of the halo-width-1 layout, so a
    kernel addressed in the width-1 layout can find its site in the wide
    one.  Map is an nx-by-ny-by-nz array (Map.resize(Nx, Ny, Nz)) addressed
    with x fastest; the entries the loop does not reach keep whatever the
    resize left there, which is a parameter here. */
module HaloMap {
  import opened Grid
  import opened Directions
  import opened Boxes
  import opened PackUnpack

  /** The shift from a padded coordinate to the width-1 coordinate it is
      stored at: i - width + 1 on every axis. */
  function Back(w: int): Cell
  {
    Cell(w - 1, w - 1, w - 1)
  }

  /** The Map slots the loop writes, in loop order: the width-1 position of
      each owned cell, k outermost and i innermost. */
  function MapSlots(nx: int, ny: int, nz: int, w: int): (slots: seq<int>)
    ensures |slots| == OwnedBox(Pad(nx, ny, nz, w)).Count()
  {
    var cs := Cells(OwnedBox(Pad(nx, ny, nz, w)));
    seq(|cs|, n requires 0 <= n < |cs| => Flat(cs[n].Minus(Back(w)), nx, ny))
  }

  /** A cell of the padded array's owned region, moved back to the width-1
      layout, lies in [1, N - 1) on every axis. */
  predicate Filled(c: Cell, nx: int, ny: int, nz: int)
  {
    1 <= c.i < nx - 1 && 1 <= c.j < ny - 1 && 1 <= c.k < nz - 1
  }

  lemma OwnedMovesToFilled(nx: int, ny: int, nz: int, w: int, c: Cell)
    ensures OwnedBox(Pad(nx, ny, nz, w)).Contains(c) <==> Filled(c.Minus(Back(w)), nx, ny, nz)
  {
  }

  /** The slots are distinct positions of the nx-by-ny-by-nz Map. */
  lemma MapSlotsFit(nx: int, ny: int, nz: int, w: int)
    requires nx >= 1 && ny >= 1
    ensures IndicesIn(MapSlots(nx, ny, nz, w), nx * ny * nz) && Distinct(MapSlots(nx, ny, nz, w))
  {
    var b := OwnedBox(Pad(nx, ny, nz, w));
    var cs := Cells(b);
    var slots := MapSlots(nx, ny, nz, w);
    CellsExact(b);
    CellsDistinct(b);
    forall n | 0 <= n < |slots|
      ensures 0 <= slots[n] < nx * ny * nz
    {
      FlatInRange(cs[n].Minus(Back(w)), nx, ny, nz);
    }
    forall m, n | 0 <= m < n < |slots|
      ensures slots[m] != slots[n]
    {
      FlatInjective(cs[m].Minus(Back(w)), cs[n].Minus(Back(w)), nx, ny);
      assert cs[m].Minus(Back(w)) != cs[n].Minus(Back(w));
    }
  }

  /** The constructor's loop over the owned region: slot n of the loop
      receives the flat padded index of owned cell n. */
  function BuildMap(nx: int, ny: int, nz: int, w: int, init: seq<int>): (m: seq<int>)
    requires nx >= 1 && ny >= 1 && |init| == nx * ny * nz
    ensures |m| == |init|
  {
    MapSlotsFit(nx, ny, nz, w);
    Unpack(MapSlots(nx, ny, nz, w), HaloBlock(Pad(nx, ny, nz, w), OwnedBox(Pad(nx, ny, nz, w))), init)
  }

  /** Map at width-1 cell c: for c in [1, N - 1) on every axis, the flat
      padded index of c + (w - 1, w - 1, w - 1), an owned cell; elsewhere
      the value the array held before. */
  lemma MapEntry(nx: int, ny: int, nz: int, w: int, init: seq<int>, c: Cell)
    requires nx >= 1 && ny >= 1 && |init| == nx * ny * nz && Grid.InArray(c, nx, ny, nz)
    ensures 0 <= Flat(c, nx, ny) < |init|
    ensures Filled(c, nx, ny, nz) ==>
      OwnedBox(Pad(nx, ny, nz, w)).Contains(c.Plus(Back(w))) &&
      BuildMap(nx, ny, nz, w, init)[Flat(c, nx, ny)] == Pad(nx, ny, nz, w).Index(c.Plus(Back(w)))
    ensures !Filled(c, nx, ny, nz) ==> BuildMap(nx, ny, nz, w, init)[Flat(c, nx, ny)] == init[Flat(c, nx, ny)]
  {
    var g := Pad(nx, ny, nz, w);
    var b := OwnedBox(g);
    var cs := Cells(b);
    var slots := MapSlots(nx, ny, nz, w);
    var values := HaloBlock(g, b);
    FlatInRange(c, nx, ny, nz);
    MapSlotsFit(nx, ny, nz, w);
    CellsExact(b);
    if Filled(c, nx, ny, nz) {
      var owned := c.Plus(Back(w));
      assert b.Contains(owned);
      var n := Position(b, owned);
      assert cs[n] == owned;
      assert owned.Minus(Back(w)) == c;
      assert slots[n] == Flat(c, nx, ny);
      UnpackWrites(slots, values, init, n);
    } else {
      assert Flat(c, nx, ny) !in slots by {
        forall n | 0 <= n < |slots|
          ensures slots[n] != Flat(c, nx, ny)
        {
          assert b.Contains(cs[n]);
          FlatInjective(cs[n].Minus(Back(w)), c, nx, ny);
        }
      }
      UnpackFrame(slots, values, init, Flat(c, nx, ny));
    }
  }

  /** Filled Map entries are indices of the padded array, and two of them
      agree only when they are the same entry. */
  lemma MapEntriesDistinct(nx: int, ny: int, nz: int, w: int, init: seq<int>, m: seq<int>, a: Cell, b: Cell)
    requires nx >= 1 && ny >= 1 && w >= 1 && |init| == nx * ny * nz && m == BuildMap(nx, ny, nz, w, init)
    requires Grid.InArray(a, nx, ny, nz) && Grid.InArray(b, nx, ny, nz)
    requires Filled(a, nx, ny, nz) && Filled(b, nx, ny, nz)
    ensures 0 <= Flat(a, nx, ny) < |m| && 0 <= Flat(b, nx, ny) < |m|
    ensures 0 <= m[Flat(a, nx, ny)] < Pad(nx, ny, nz, w).Size()
    ensures m[Flat(a, nx, ny)] == m[Flat(b, nx, ny)] <==> a == b
  {
    var g := Pad(nx, ny, nz, w);
    var pa, pb := a.Plus(Back(w)), b.Plus(Back(w));
    MapEntry(nx, ny, nz, w, init, a);
    MapEntry(nx, ny, nz, w, init, b);
    assert BuildMap(nx, ny, nz, w, init)[Flat(a, nx, ny)] == Pad(nx, ny, nz, w).Index(a.Plus(Back(w)));
    assert BuildMap(nx, ny, nz, w, init)[Flat(b, nx, ny)] == Pad(nx, ny, nz, w).Index(b.Plus(Back(w)));
    assert g.InArray(pa) && g.InArray(pb);
    FlatInRange(pa, g.nxh, g.nyh, g.nzh);
    FlatInjective(pa, pb, g.nxh, g.nyh);
    assert pa == pb <==> a == b;
  }

  /** There is one filled entry per owned cell: (nx - 2)(ny - 2)(nz - 2). */
  lemma FilledCount(nx: int, ny: int, nz: int, w: int, g: Geometry)
    requires g == Pad(nx, ny, nz, w) && nx >= 2 && ny >= 2 && nz >= 2
    ensures |MapSlots(nx, ny, nz, w)| == (nx - 2) * (ny - 2) * (nz - 2)
  {
    var b := OwnedBox(g);
    assert b.x.Extent() == nx - 2 && b.y.Extent() == ny - 2 && b.z.Extent() == nz - 2;
    CellsExact(b);
  }

  /** A local shape of 4 x 4 x 4 with halo width 2 pads to 6 x 6 x 6; the
      loop fills the 8 Map entries at width-1 coordinates 1 and 2, with
      padded indices at coordinates 2 and 3. */
  lemma MapScenario(nx: int, ny: int, nz: int, w: int, init: seq<int>)
    requires nx == 4 && ny == 4 && nz == 4 && w == 2 && |init| == 64
    ensures Pad(nx, ny, nz, w) == Geometry(6, 6, 6, 2)
    ensures BuildMap(nx, ny, nz, w, init)[21] == Flat(Cell(2, 2, 2), 6, 6)
    ensures BuildMap(nx, ny, nz, w, init)[42] == Flat(Cell(3, 3, 3), 6, 6)
    ensures BuildMap(nx, ny, nz, w, init)[23] == init[23]
  {
    MapEntry(nx, ny, nz, w, init, Cell(1, 1, 1));
    assert Flat(Cell(1, 1, 1), nx, ny) == 21 && Filled(Cell(1, 1, 1), nx, ny, nz);
    assert Cell(1, 1, 1).Plus(Back(w)) == Cell(2, 2, 2);
    MapEntry(nx, ny, nz, w, init, Cell(2, 2, 2));
    assert Flat(Cell(2, 2, 2), nx, ny) == 42 && Filled(Cell(2, 2, 2), nx, ny, nz);
    assert Cell(2, 2, 2).Plus(Back(w)) == Cell(3, 3, 3);
    MapEntry(nx, ny, nz, w, init, Cell(3, 1, 1));
    assert Flat(Cell(3, 1, 1), nx, ny) == 23 && !Filled(Cell(3, 1, 1), nx, ny, nz);
  }
}
