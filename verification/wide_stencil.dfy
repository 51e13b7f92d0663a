/** Why the halo is wide: the mixed-gradient kernel reads two cells along
    every D3Q19 velocity, so the sites it is handed through the Map must lie
    at least two cells inside the padded array.  With halo width 2 every
    filled Map entry does; with width 1 the two-step reads from the first
    owned cell leave its row and land on a different site. */
module WideStencil {
  import opened Grid
  import opened Boxes
  import opened HaloMap
  import opened MixedGradient
  import opened Results

  /** With halo width 2, the site a filled Map entry names decodes to the
      padded cell one step further along every axis, and that cell is at
      least two cells from every face of the padded array. */
  lemma MapSiteInterior(nx: int, ny: int, nz: int, init: seq<int>, m: seq<int>, g: Geometry, c: Cell)
    requires nx >= 1 && ny >= 1 && |init| == nx * ny * nz && m == BuildMap(nx, ny, nz, 2, init)
    requires g == Pad(nx, ny, nz, 2)
    requires Grid.InArray(c, nx, ny, nz) && Filled(c, nx, ny, nz)
    ensures 0 <= Flat(c, nx, ny) < |m|
    ensures Decompose(m[Flat(c, nx, ny)], g.nxh, g.nyh) == c.Plus(Back(2))
    ensures Interior(c.Plus(Back(2)), g.nxh, g.nyh, g.nzh)
  {
    MapEntry(nx, ny, nz, 2, init, c);
    assert m[Flat(c, nx, ny)] == g.Index(c.Plus(Back(2)));
    DecomposeFlat(c.Plus(Back(2)), g.nxh, g.nyh);
  }

  /** With halo width 2, the kernel succeeds at the site of every filled
      Map entry and computes the stencil around the matching padded cell. */
  lemma MapSiteGradient(nx: int, ny: int, nz: int, init: seq<int>, m: seq<int>, g: Geometry, c: Cell, phi: seq<real>)
    requires nx >= 1 && ny >= 1 && |init| == nx * ny * nz && m == BuildMap(nx, ny, nz, 2, init)
    requires g == Pad(nx, ny, nz, 2) && |phi| == g.Size()
    requires Grid.InArray(c, nx, ny, nz) && Filled(c, nx, ny, nz)
    ensures 0 <= Flat(c, nx, ny) < |m| && Interior(c.Plus(Back(2)), g.nxh, g.nyh, g.nzh)
    ensures GradientAt(phi, m[Flat(c, nx, ny)], g.nxh, g.nyh) ==
      Ok(Sum(StencilTerms(phi, g.nxh, g.nyh, g.nzh, c.Plus(Back(2))), 0))
  {
    MapSiteInterior(nx, ny, nz, init, m, g, c);
    var p := c.Plus(Back(2));
    assert m[Flat(c, nx, ny)] == Flat(p, g.nxh, g.nyh);
    InteriorGradient(phi, p, g.nxh, g.nyh, g.nzh);
  }

  /** With halo width 2, a kernel loop over Map positions that are all
      filled reads and writes only inside the padded arrays. */
  lemma MapSweepOk(nx: int, ny: int, nz: int, init: seq<int>, m: seq<int>, g: Geometry,
                   phi: seq<real>, grad: seq<real>, start: int, finish: int)
    requires nx >= 1 && ny >= 1 && |init| == nx * ny * nz && m == BuildMap(nx, ny, nz, 2, init)
    requires g == Pad(nx, ny, nz, 2) && |phi| == g.Size() && |grad| == g.Size()
    requires start >= finish || (0 <= start && finish <= |m|)
    requires forall idx :: start <= idx < finish && 0 <= idx < |m| ==> Filled(Coords(idx, nx, ny), nx, ny, nz)
    ensures Sweep(m, phi, grad, start, finish, g.nxh, g.nyh).Ok?
  {
    forall idx | start <= idx < finish && 0 <= idx < |m|
      ensures Interior(Decompose(m[idx], g.nxh, g.nyh), g.nxh, g.nyh, g.nzh)
    {
      var c := Coords(idx, nx, ny);
      CoordsInArray(idx, nx, ny, nz);
      MapSiteInterior(nx, ny, nz, init, m, g, c);
    }
    InteriorSweepOk(m, phi, grad, start, finish, g.nxh, g.nyh, g.nzh);
  }

  /** With halo width 1 the Map sends width-1 cell (1, 1, 1) to padded cell
      (1, 1, 1), and the kernel's two-step read along -x from there forms
      the index of cell (Nx - 1, 0, 1) at the far end of the row below,
      not of (-1, 1, 1): a wrong site inside the array, not an error. */
  lemma NarrowHaloMisreads(nx: int, ny: int, nz: int, init: seq<int>, m: seq<int>, g: Geometry)
    requires nx >= 3 && ny >= 3 && nz >= 3 && |init| == nx * ny * nz && m == BuildMap(nx, ny, nz, 1, init)
    requires g == Pad(nx, ny, nz, 1)
    ensures g == Geometry(nx, ny, nz, 1)
    ensures 0 <= Flat(Cell(1, 1, 1), nx, ny) < |m| && m[Flat(Cell(1, 1, 1), nx, ny)] == Flat(Cell(1, 1, 1), nx, ny)
    ensures Velocity(1) == Step(-1, 0, 0)
    ensures Forward2(Cell(1, 1, 1), Velocity(1), nx, ny) == Flat(Cell(nx - 1, 0, 1), nx, ny)
    ensures Decompose(Forward2(Cell(1, 1, 1), Velocity(1), nx, ny), nx, ny) == Cell(nx - 1, 0, 1)
  {
    MapEntry(nx, ny, nz, 1, init, Cell(1, 1, 1));
    assert Cell(1, 1, 1).Plus(Back(1)) == Cell(1, 1, 1);
    DecomposeFlat(Cell(nx - 1, 0, 1), nx, ny);
  }
}
