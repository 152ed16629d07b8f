/** What the windows of the face-centred routines add up to: each routine moves
    exactly the number of values its message size announces (so no buffer sized by
    ComputeVariableBufferSize is overrun), the same-level receiver's windows are the
    sender's windows moved across the boundary, and the shared face is exchanged only
    by edge/corner neighbours of a refined mesh. */
module FcWindowLemmas {
  import opened FcTypes
  import opened FcSizing
  import opened FcWindows

  /** `(g*x)/g == x`: the division in `size/NGHOST*(NGHOST + 1)` is exact. */
  lemma MulDivCancel(g: int, x: int)
    requires g >= 1
    ensures (g * x) / g == x
  {
    var q, r := (g * x) / g, (g * x) % g;
    assert g * x == g * q + r && 0 <= r < g;
    assert g * (x - q) == r;
  }

  /** Widening a product whose first factor is `NGHOST`. */
  lemma WidenFirst(g: int, b: int, c: int)
    requires g >= 1
    ensures (g * b * c) / g * (g + 1) == (g + 1) * b * c
  {
    assert g * b * c == g * (b * c);
    MulDivCancel(g, b * c);
  }

  lemma WidenSecond(g: int, a: int, c: int)
    requires g >= 1
    ensures (a * g * c) / g * (g + 1) == a * (g + 1) * c
  {
    assert a * g * c == g * (a * c);
    MulDivCancel(g, a * c);
    assert (a * c) * (g + 1) == a * (g + 1) * c;
  }

  lemma WidenThird(g: int, a: int, b: int)
    requires g >= 1
    ensures (a * b * g) / g * (g + 1) == a * b * (g + 1)
  {
    assert a * b * g == g * (a * b);
    MulDivCancel(g, a * b);
  }

  /** The three windows of a routine, x2f sharing k with x1f and x3f sharing i with
      x2f and j with x1f, move `a1*b1*c1 + a2*b2*c1 + a2*b1*c3` values. */
  lemma WindowsVolumeIs(ws: Windows, a1: int, b1: int, c1: int, a2: int, b2: int, c3: int)
    requires ws.w1.i.Len() == a1 && ws.w1.j.Len() == b1 && ws.w1.k.Len() == c1
    requires ws.w2.i.Len() == a2 && ws.w2.j.Len() == b2 && ws.w2.k == ws.w1.k
    requires ws.w3.i == ws.w2.i && ws.w3.j == ws.w1.j && ws.w3.k.Len() == c3
    ensures ws.Volume() == a1 * b1 * c1 + a2 * b2 * c1 + a2 * b1 * c3
  {
  }

  /** The widened sizes equal the products with `NGHOST + 1` on the widened axis;
      `on` is the gate of the widening (`multilevel` for same level, always for coarse). */
  lemma WidenTerms(m: MeshConfig, ni: NeighborIndexes, on: bool, a1: int, b1: int, c1: int, a2: int, b2: int, c3: int,
                   e1: int, e2: int, e3: int)
    requires m.nghost >= 1
    requires e1 == (if on && ni.ntype != Face && ni.ox1 != 0 then 1 else 0)
    requires e2 == (if on && ni.ntype != Face && ni.ox2 != 0 then 1 else 0)
    requires e3 == (if on && ni.ntype != Face && ni.ox3 != 0 then 1 else 0)
    requires ni.ox1 != 0 ==> a1 == m.nghost && a2 == m.nghost
    requires ni.ox2 != 0 ==> b1 == m.nghost && b2 == m.nghost
    requires ni.ox3 != 0 ==> c1 == m.nghost && c3 == m.nghost
    ensures on ==>
      Widen(m, ni, ni.ox1, a1 * b1 * c1) + Widen(m, ni, ni.ox2, a2 * b2 * c1) + Widen(m, ni, ni.ox3, a2 * b1 * c3)
      == (a1 + e1) * b1 * c1 + a2 * (b2 + e2) * c1 + a2 * b1 * (c3 + e3)
    ensures !on ==>
      a1 * b1 * c1 + a2 * b2 * c1 + a2 * b1 * c3
      == (a1 + e1) * b1 * c1 + a2 * (b2 + e2) * c1 + a2 * b1 * (c3 + e3)
  {
    var g := m.nghost;
    if e1 == 1 { WidenFirst(g, b1, c1); }
    if e2 == 1 { WidenSecond(g, a2, c1); }
    if e3 == 1 { WidenThird(g, a2, b1); }
  }

  // ---- lengths of the per-axis ranges ----

  /** An even cell count halves exactly. */
  lemma EvenHalf(n: int)
    requires n % 2 == 0
    ensures (n + 1) / 2 == n / 2 && n - n / 2 == n / 2
  {
  }

  /** Moving one end of a range by `h` shortens it by `h`. */
  lemma HalfLen(r: Range, upper: bool, h: int)
    requires r.s <= r.e + 1 && h <= r.e - r.s + 1
    ensures Half(r, upper, h).Len() == r.e - r.s + 1 - h
  {
  }

  /** A tangential axis of LoadBoundaryBufferToFiner: half the cells plus the margin on
      an active axis, the single cell otherwise. */
  lemma ToFinerZeroLen(s: int, e: int, nx: int, active: bool, fine: int, extra: int, cng: int)
    requires nx >= 1 && e == s + nx - 1 && cng >= 0 && 0 <= extra <= 1
    requires active ==> nx % 2 == 0
    requires !active ==> nx == 1
    ensures ToFinerZeroAxis(s, e, nx, active, fine, extra, cng).Len() == (nx + 1) / 2 + (if active then cng + extra else 0)
  {
    if active {
      EvenHalf(nx);
      HalfLen(Range(s, e + extra), fine == 1, nx / 2 - cng);
    }
  }

  /** A tangential axis of SetBoundaryFromFiner: half the cells on an active axis. */
  lemma FromFinerZeroLen(s: int, e: int, nx: int, active: bool, fine: int, extra: int)
    requires nx >= 1 && e == s + nx - 1 && 0 <= extra <= 1
    requires active ==> nx % 2 == 0
    requires !active ==> nx == 1
    ensures FromFinerZeroAxis(s, e, nx, active, fine, extra).Len() == (nx + 1) / 2 + (if active then extra else 0)
  {
    if active {
      EvenHalf(nx);
      HalfLen(Range(s, e + extra), fine == 1, nx / 2);
    }
  }

  /** The arithmetic core of every widened volume: windows with those lengths hold
      `total` values when `total` is the (possibly widened) sum of the three products. */
  lemma WidenedVolume(m: MeshConfig, ni: NeighborIndexes, on: bool, ws: Windows, total: int,
                      a1: int, b1: int, c1: int, a2: int, b2: int, c3: int, e1: int, e2: int, e3: int)
    requires m.nghost >= 1
    requires e1 == (if on && ni.ntype != Face && ni.ox1 != 0 then 1 else 0)
    requires e2 == (if on && ni.ntype != Face && ni.ox2 != 0 then 1 else 0)
    requires e3 == (if on && ni.ntype != Face && ni.ox3 != 0 then 1 else 0)
    requires ni.ox1 != 0 ==> a1 == m.nghost && a2 == m.nghost
    requires ni.ox2 != 0 ==> b1 == m.nghost && b2 == m.nghost
    requires ni.ox3 != 0 ==> c1 == m.nghost && c3 == m.nghost
    requires ws.w1.i.Len() == a1 + e1 && ws.w1.j.Len() == b1 && ws.w1.k.Len() == c1
    requires ws.w2.i.Len() == a2 && ws.w2.j.Len() == b2 + e2 && ws.w2.k == ws.w1.k
    requires ws.w3.i == ws.w2.i && ws.w3.j == ws.w1.j && ws.w3.k.Len() == c3 + e3
    requires on ==> (total
      == Widen(m, ni, ni.ox1, a1 * b1 * c1) + Widen(m, ni, ni.ox2, a2 * b2 * c1) + Widen(m, ni, ni.ox3, a2 * b1 * c3))
    requires !on ==> total == a1 * b1 * c1 + a2 * b2 * c1 + a2 * b1 * c3
    ensures ws.Volume() == total
  {
    WindowsVolumeIs(ws, a1 + e1, b1, c1, a2, b2 + e2, c3 + e3);
    WidenTerms(m, ni, on, a1, b1, c1, a2, b2, c3, e1, e2, e3);
  }

  // ---- the ranges of the pack and same-level unpack windows ----

  /** The x1 ranges of PackWindows: `n + 1` faces or `ng`, one more when widened. */
  lemma PackLensI(c: Bounds, nx2: int, nx3: int, ng: int, widen: bool, ni: NeighborIndexes)
    requires c.ilo <= c.ihi && ng >= 1
    ensures var ws, n := PackWindows(c, nx2, nx3, ng, widen, ni), c.ihi - c.ilo + 1;
      && ws.w1.i.Len() == Pick(ni.ox1, n + 1, ng) + (if widen && ni.ox1 != 0 then 1 else 0)
      && ws.w2.i.Len() == Pick(ni.ox1, n, ng)
      && ws.w3.i == ws.w2.i
  {
  }

  /** The x2 ranges of PackWindows; an inactive x2 never has a nonzero offset. */
  lemma PackLensJ(c: Bounds, nx2: int, nx3: int, ng: int, widen: bool, ni: NeighborIndexes)
    requires c.jlo <= c.jhi && ng >= 1 && (nx2 == 1 ==> ni.ox2 == 0)
    ensures var ws, n := PackWindows(c, nx2, nx3, ng, widen, ni), c.jhi - c.jlo + 1;
      && ws.w1.j.Len() == Pick(ni.ox2, n, ng)
      && ws.w2.j.Len() == Pick(ni.ox2, n + (if nx2 == 1 then 0 else 1), ng) + (if widen && ni.ox2 != 0 then 1 else 0)
      && ws.w3.j == ws.w1.j
  {
  }

  /** The x3 ranges of PackWindows; an inactive x3 never has a nonzero offset. */
  lemma PackLensK(c: Bounds, nx2: int, nx3: int, ng: int, widen: bool, ni: NeighborIndexes)
    requires c.klo <= c.khi && ng >= 1 && (nx3 == 1 ==> ni.ox3 == 0)
    ensures var ws, n := PackWindows(c, nx2, nx3, ng, widen, ni), c.khi - c.klo + 1;
      && ws.w1.k.Len() == Pick(ni.ox3, n, ng)
      && ws.w3.k.Len() == Pick(ni.ox3, n + (if nx3 == 1 then 0 else 1), ng) + (if widen && ni.ox3 != 0 then 1 else 0)
      && ws.w2.k == ws.w1.k
  {
  }

  /** The x1 ranges of SetBoundarySameLevel. */
  lemma UnpackLensI(m: MeshConfig, b: Block, ni: NeighborIndexes)
    requires ValidBlock(m, b)
    ensures var ws, g := SameLevelUnpackWindows(m, b, ni), m.nghost;
      && ws.w1.i.Len() == Pick(ni.ox1, b.nx1 + 1, g) + (if m.multilevel && ni.ntype != Face && ni.ox1 != 0 then 1 else 0)
      && ws.w2.i.Len() == Pick(ni.ox1, b.nx1, g)
      && ws.w3.i == ws.w2.i
  {
  }

  /** The x2 ranges of SetBoundarySameLevel. */
  lemma UnpackLensJ(m: MeshConfig, b: Block, ni: NeighborIndexes)
    requires ValidBlock(m, b) && (ni.ox2 != 0 ==> m.ndim >= 2)
    ensures var ws, g := SameLevelUnpackWindows(m, b, ni), m.nghost;
      && ws.w1.j.Len() == Pick(ni.ox2, b.nx2, g)
      && ws.w2.j.Len() == Pick(ni.ox2, b.nx2 + F2(m), g) + (if m.multilevel && ni.ntype != Face && ni.ox2 != 0 then 1 else 0)
      && ws.w3.j == ws.w1.j
  {
  }

  /** The x3 ranges of SetBoundarySameLevel. */
  lemma UnpackLensK(m: MeshConfig, b: Block, ni: NeighborIndexes)
    requires ValidBlock(m, b) && (ni.ox3 != 0 ==> m.ndim >= 3)
    ensures var ws, g := SameLevelUnpackWindows(m, b, ni), m.nghost;
      && ws.w1.k.Len() == Pick(ni.ox3, b.nx3, g)
      && ws.w3.k.Len() == Pick(ni.ox3, b.nx3 + F3(m), g) + (if m.multilevel && ni.ntype != Face && ni.ox3 != 0 then 1 else 0)
      && ws.w2.k == ws.w1.k
  {
  }

  // ---- same level ----

  /** The same-level size as the sum of its three (possibly widened) products. */
  lemma SameLevelTerms(m: MeshConfig, b: Block, ni: NeighborIndexes,
                       a1: int, b1: int, c1: int, a2: int, b2: int, c3: int)
    requires m.nghost >= 1
    requires var g := m.nghost;
      && a1 == Pick(ni.ox1, b.nx1 + 1, g) && b1 == Pick(ni.ox2, b.nx2, g) && c1 == Pick(ni.ox3, b.nx3, g)
      && a2 == Pick(ni.ox1, b.nx1, g) && b2 == Pick(ni.ox2, b.nx2 + F2(m), g) && c3 == Pick(ni.ox3, b.nx3 + F3(m), g)
    ensures m.multilevel ==> (SameLevelSize(m, b, ni)
      == Widen(m, ni, ni.ox1, a1 * b1 * c1) + Widen(m, ni, ni.ox2, a2 * b2 * c1) + Widen(m, ni, ni.ox3, a2 * b1 * c3))
    ensures !m.multilevel ==> SameLevelSize(m, b, ni) == a1 * b1 * c1 + a2 * b2 * c1 + a2 * b1 * c3
  {
  }

  /** `fsize` as the sum of its three widened products. */
  lemma FineToCoarseTerms(m: MeshConfig, b: Block, ni: NeighborIndexes,
                          a1: int, b1: int, c1: int, a2: int, b2: int, c3: int)
    requires m.nghost >= 1
    requires var g, h1, h2, h3 := m.nghost, (b.nx1 + 1) / 2, (b.nx2 + 1) / 2, (b.nx3 + 1) / 2;
      && a1 == Pick(ni.ox1, h1 + 1, g) && b1 == Pick(ni.ox2, h2, g) && c1 == Pick(ni.ox3, h3, g)
      && a2 == Pick(ni.ox1, h1, g) && b2 == Pick(ni.ox2, h2 + F2(m), g) && c3 == Pick(ni.ox3, h3 + F3(m), g)
    ensures FineToCoarseSize(m, b, ni)
      == Widen(m, ni, ni.ox1, a1 * b1 * c1) + Widen(m, ni, ni.ox2, a2 * b2 * c1) + Widen(m, ni, ni.ox3, a2 * b1 * c3)
  {
  }


  /** LoadBoundaryBufferSameLevel packs exactly the same-level message size. */
  lemma SameLevelPackVolume(m: MeshConfig, b: Block, ni: NeighborIndexes)
    requires ValidBlock(m, b) && ValidNeighbor(m, ni)
    ensures SameLevelPackWindows(m, b, ni).Volume() == SameLevelSize(m, b, ni)
  {
    var ws := SameLevelPackWindows(m, b, ni);
    var g, on := m.nghost, m.multilevel;
    var a1, b1, c1 := Pick(ni.ox1, b.nx1 + 1, g), Pick(ni.ox2, b.nx2, g), Pick(ni.ox3, b.nx3, g);
    var a2, b2 := Pick(ni.ox1, b.nx1, g), Pick(ni.ox2, b.nx2 + F2(m), g);
    var c3 := Pick(ni.ox3, b.nx3 + F3(m), g);
    var e1, e2, e3 := if on && ni.ntype != Face && ni.ox1 != 0 then 1 else 0,
                      if on && ni.ntype != Face && ni.ox2 != 0 then 1 else 0,
                      if on && ni.ntype != Face && ni.ox3 != 0 then 1 else 0;
    PackLensI(b.cells, b.nx2, b.nx3, g, on && ni.ntype != Face, ni);
    PackLensJ(b.cells, b.nx2, b.nx3, g, on && ni.ntype != Face, ni);
    PackLensK(b.cells, b.nx2, b.nx3, g, on && ni.ntype != Face, ni);
    SameLevelTerms(m, b, ni, a1, b1, c1, a2, b2, c3);
    WidenedVolume(m, ni, on, ws, SameLevelSize(m, b, ni), a1, b1, c1, a2, b2, c3, e1, e2, e3);
  }

  /** SetBoundarySameLevel, run by the neighbour (which sees this block at the mirrored
      offset), unpacks exactly the same-level message size. */
  lemma SameLevelUnpackVolume(m: MeshConfig, b: Block, ni: NeighborIndexes)
    requires ValidBlock(m, b) && ValidNeighbor(m, ni)
    ensures SameLevelUnpackWindows(m, b, ni).Volume() == SameLevelSize(m, b, ni)
  {
    var ws := SameLevelUnpackWindows(m, b, ni);
    var g, on := m.nghost, m.multilevel;
    var a1, b1, c1 := Pick(ni.ox1, b.nx1 + 1, g), Pick(ni.ox2, b.nx2, g), Pick(ni.ox3, b.nx3, g);
    var a2, b2 := Pick(ni.ox1, b.nx1, g), Pick(ni.ox2, b.nx2 + F2(m), g);
    var c3 := Pick(ni.ox3, b.nx3 + F3(m), g);
    var e1, e2, e3 := if on && ni.ntype != Face && ni.ox1 != 0 then 1 else 0,
                      if on && ni.ntype != Face && ni.ox2 != 0 then 1 else 0,
                      if on && ni.ntype != Face && ni.ox3 != 0 then 1 else 0;
    UnpackLensI(m, b, ni);
    UnpackLensJ(m, b, ni);
    UnpackLensK(m, b, ni);
    SameLevelTerms(m, b, ni, a1, b1, c1, a2, b2, c3);
    WidenedVolume(m, ni, on, ws, SameLevelSize(m, b, ni), a1, b1, c1, a2, b2, c3, e1, e2, e3);
  }

  /** LoadBoundaryBufferToCoarser packs exactly `fsize`. */
  lemma ToCoarserPackVolume(m: MeshConfig, b: Block, ni: NeighborIndexes)
    requires ValidBlock(m, b) && ValidNeighbor(m, ni)
    ensures ToCoarserPackWindows(m, b, ni).Volume() == FineToCoarseSize(m, b, ni)
  {
    var ws := ToCoarserPackWindows(m, b, ni);
    var g := m.nghost;
    var h1, h2, h3 := (b.nx1 + 1) / 2, (b.nx2 + 1) / 2, (b.nx3 + 1) / 2;
    var a1, b1, c1 := Pick(ni.ox1, h1 + 1, g), Pick(ni.ox2, h2, g), Pick(ni.ox3, h3, g);
    var a2, b2 := Pick(ni.ox1, h1, g), Pick(ni.ox2, h2 + F2(m), g);
    var c3 := Pick(ni.ox3, h3 + F3(m), g);
    var e1, e2, e3 := if ni.ntype != Face && ni.ox1 != 0 then 1 else 0,
                      if ni.ntype != Face && ni.ox2 != 0 then 1 else 0,
                      if ni.ntype != Face && ni.ox3 != 0 then 1 else 0;
    PackLensI(b.coarse, b.nx2, b.nx3, g, ni.ntype != Face, ni);
    PackLensJ(b.coarse, b.nx2, b.nx3, g, ni.ntype != Face, ni);
    PackLensK(b.coarse, b.nx2, b.nx3, g, ni.ntype != Face, ni);
    FineToCoarseTerms(m, b, ni, a1, b1, c1, a2, b2, c3);
    WidenedVolume(m, ni, true, ws, FineToCoarseSize(m, b, ni), a1, b1, c1, a2, b2, c3, e1, e2, e3);
  }

  /** The x1 ranges of SetBoundaryFromFiner. */
  lemma FromFinerLensI(m: MeshConfig, b: Block, ni: NeighborIndexes)
    requires ValidRefinedBlock(m, b) && ValidNeighbor(m, ni)
    ensures var ws, g, e := FromFinerUnpackWindows(m, b, ni), m.nghost, (if ni.ntype != Face then 1 else 0);
      var h1 := (b.nx1 + 1) / 2;
      && ws.w1.i.Len() == Pick(ni.ox1, h1 + 1, g) + (if ni.ox1 != 0 then e else 0)
      && ws.w2.i.Len() == Pick(ni.ox1, h1, g)
      && ws.w3.i == ws.w2.i
  {
    var c := b.cells;
    if ni.ox1 == 0 {
      EvenHalf(b.nx1);
      HalfLen(Range(c.ilo, c.ihi + 1), ni.fi1 == 1, b.nx1 / 2);
      HalfLen(Range(c.ilo, c.ihi), ni.fi1 == 1, b.nx1 / 2);
    }
  }

  /** The x2 ranges of SetBoundaryFromFiner. */
  lemma FromFinerLensJ(m: MeshConfig, b: Block, ni: NeighborIndexes)
    requires ValidRefinedBlock(m, b) && ValidNeighbor(m, ni)
    ensures var ws, g, e := FromFinerUnpackWindows(m, b, ni), m.nghost, (if ni.ntype != Face then 1 else 0);
      var h2 := (b.nx2 + 1) / 2;
      && ws.w1.j.Len() == Pick(ni.ox2, h2, g)
      && ws.w2.j.Len() == Pick(ni.ox2, h2 + F2(m), g) + (if ni.ox2 != 0 then e else 0)
      && ws.w3.j == ws.w1.j
  {
    var c := b.cells;
    if ni.ox2 == 0 {
      FromFinerZeroLen(c.jlo, c.jhi, b.nx2, b.nx2 > 1, FineJ(ni), 0);
      FromFinerZeroLen(c.jlo, c.jhi, b.nx2, b.nx2 > 1, FineJ(ni), 1);
    }
  }

  /** The x3 ranges of SetBoundaryFromFiner. */
  lemma FromFinerLensK(m: MeshConfig, b: Block, ni: NeighborIndexes)
    requires ValidRefinedBlock(m, b) && ValidNeighbor(m, ni)
    ensures var ws, g, e := FromFinerUnpackWindows(m, b, ni), m.nghost, (if ni.ntype != Face then 1 else 0);
      var h3 := (b.nx3 + 1) / 2;
      && ws.w1.k.Len() == Pick(ni.ox3, h3, g)
      && ws.w3.k.Len() == Pick(ni.ox3, h3 + F3(m), g) + (if ni.ox3 != 0 then e else 0)
      && ws.w2.k == ws.w1.k
  {
    var c := b.cells;
    if ni.ox3 == 0 {
      FromFinerZeroLen(c.klo, c.khi, b.nx3, b.nx3 > 1, FineK(ni), 0);
      FromFinerZeroLen(c.klo, c.khi, b.nx3, b.nx3 > 1, FineK(ni), 1);
    }
  }

  /** The sum behind FromFinerUnpackVolume, from the range lengths alone. */
  lemma FromFinerVolumeOfLens(m: MeshConfig, b: Block, ni: NeighborIndexes)
    requires ValidBlock(m, b) && ValidNeighbor(m, ni)
    requires var ws, g, e := FromFinerUnpackWindows(m, b, ni), m.nghost, (if ni.ntype != Face then 1 else 0);
      var h1, h2, h3 := (b.nx1 + 1) / 2, (b.nx2 + 1) / 2, (b.nx3 + 1) / 2;
      && ws.w1.i.Len() == Pick(ni.ox1, h1 + 1, g) + (if ni.ox1 != 0 then e else 0)
      && ws.w1.j.Len() == Pick(ni.ox2, h2, g)
      && ws.w1.k.Len() == Pick(ni.ox3, h3, g)
      && ws.w2.i.Len() == Pick(ni.ox1, h1, g)
      && ws.w2.j.Len() == Pick(ni.ox2, h2 + F2(m), g) + (if ni.ox2 != 0 then e else 0)
      && ws.w3.k.Len() == Pick(ni.ox3, h3 + F3(m), g) + (if ni.ox3 != 0 then e else 0)
      && ws.w2.k == ws.w1.k && ws.w3.i == ws.w2.i && ws.w3.j == ws.w1.j
    ensures FromFinerUnpackWindows(m, b, ni).Volume() == FineToCoarseSize(m, b, ni)
  {
    var g := m.nghost;
    var h1, h2, h3 := (b.nx1 + 1) / 2, (b.nx2 + 1) / 2, (b.nx3 + 1) / 2;
    var a1, b1, c1 := Pick(ni.ox1, h1 + 1, g), Pick(ni.ox2, h2, g), Pick(ni.ox3, h3, g);
    var a2, b2 := Pick(ni.ox1, h1, g), Pick(ni.ox2, h2 + F2(m), g);
    var c3 := Pick(ni.ox3, h3 + F3(m), g);
    var e1, e2, e3 := if ni.ntype != Face && ni.ox1 != 0 then 1 else 0,
                      if ni.ntype != Face && ni.ox2 != 0 then 1 else 0,
                      if ni.ntype != Face && ni.ox3 != 0 then 1 else 0;
    FineToCoarseTerms(m, b, ni, a1, b1, c1, a2, b2, c3);
    WidenedVolume(m, ni, true, FromFinerUnpackWindows(m, b, ni), FineToCoarseSize(m, b, ni),
                  a1, b1, c1, a2, b2, c3, e1, e2, e3);
  }

  /** SetBoundaryFromFiner unpacks exactly `fsize` (cell counts even under refinement). */
  lemma FromFinerUnpackVolume(m: MeshConfig, b: Block, ni: NeighborIndexes)
    requires ValidRefinedBlock(m, b) && ValidNeighbor(m, ni)
    ensures FromFinerUnpackWindows(m, b, ni).Volume() == FineToCoarseSize(m, b, ni)
  {
    FromFinerLensI(m, b, ni);
    FromFinerLensJ(m, b, ni);
    FromFinerLensK(m, b, ni);
    FromFinerVolumeOfLens(m, b, ni);
  }

  /** The x1 ranges of LoadBoundaryBufferToFiner: half the cells plus the margin. */
  lemma ToFinerLensI(m: MeshConfig, b: Block, ni: NeighborIndexes)
    requires ValidRefinedBlock(m, b) && ValidNeighbor(m, ni)
    ensures var ws, cng, h1 := ToFinerPackWindows(b, ni), b.cnghost, (b.nx1 + 1) / 2;
      && ws.w1.i.Len() == Pick(ni.ox1, h1 + cng + 1, cng + 1)
      && ws.w2.i.Len() == Pick(ni.ox1, h1 + cng, cng)
      && ws.w3.i == ws.w2.i
  {
    var c, cng := b.cells, b.cnghost;
    if ni.ox1 == 0 {
      EvenHalf(b.nx1);
      HalfLen(Range(c.ilo, c.ihi + 1), ni.fi1 == 1, b.nx1 / 2 - cng);
      HalfLen(Range(c.ilo, c.ihi), ni.fi1 == 1, b.nx1 / 2 - cng);
    }
  }

  /** The x2 ranges of LoadBoundaryBufferToFiner. */
  lemma ToFinerLensJ(m: MeshConfig, b: Block, ni: NeighborIndexes)
    requires ValidRefinedBlock(m, b) && ValidNeighbor(m, ni)
    ensures var ws, cng, h2 := ToFinerPackWindows(b, ni), b.cnghost, (b.nx2 + 1) / 2;
      && ws.w1.j.Len() == Pick(ni.ox2, h2 + cng * F2(m), cng)
      && ws.w2.j.Len() == Pick(ni.ox2, h2 + cng * F2(m) + F2(m), cng + 1)
      && ws.w3.j == ws.w1.j
  {
    var c, cng := b.cells, b.cnghost;
    assert cng * F2(m) == if m.ndim >= 2 then cng else 0;
    if ni.ox2 == 0 {
      ToFinerZeroLen(c.jlo, c.jhi, b.nx2, b.nx2 > 1, FineJ(ni), 0, cng);
      ToFinerZeroLen(c.jlo, c.jhi, b.nx2, b.nx2 > 1, FineJ(ni), 1, cng);
    }
  }

  /** The x3 ranges of LoadBoundaryBufferToFiner. */
  lemma ToFinerLensK(m: MeshConfig, b: Block, ni: NeighborIndexes)
    requires ValidRefinedBlock(m, b) && ValidNeighbor(m, ni)
    ensures var ws, cng, h3 := ToFinerPackWindows(b, ni), b.cnghost, (b.nx3 + 1) / 2;
      && ws.w1.k.Len() == Pick(ni.ox3, h3 + cng * F3(m), cng)
      && ws.w3.k.Len() == Pick(ni.ox3, h3 + cng * F3(m) + F3(m), cng + 1)
      && ws.w2.k == ws.w1.k
  {
    var c, cng := b.cells, b.cnghost;
    assert cng * F3(m) == if m.ndim >= 3 then cng else 0;
    if ni.ox3 == 0 {
      ToFinerZeroLen(c.klo, c.khi, b.nx3, b.nx3 > 1, FineK(ni), 0, cng);
      ToFinerZeroLen(c.klo, c.khi, b.nx3, b.nx3 > 1, FineK(ni), 1, cng);
    }
  }

  /** `csize` as the sum of its three products, named by their factors. */
  lemma CoarseToFineTerms(m: MeshConfig, b: Block, ni: NeighborIndexes, cng: int,
                          a1: int, b1: int, c1: int, a2: int, b2: int, c3: int)
    requires var h1, h2, h3 := (b.nx1 + 1) / 2, (b.nx2 + 1) / 2, (b.nx3 + 1) / 2;
      var cng2, cng3 := cng * F2(m), cng * F3(m);
      && a1 == Pick(ni.ox1, h1 + cng + 1, cng + 1) && b1 == Pick(ni.ox2, h2 + cng2, cng)
      && c1 == Pick(ni.ox3, h3 + cng3, cng) && a2 == Pick(ni.ox1, h1 + cng, cng)
      && b2 == Pick(ni.ox2, h2 + cng2 + F2(m), cng + 1) && c3 == Pick(ni.ox3, h3 + cng3 + F3(m), cng + 1)
    ensures CoarseToFineSize(m, b, ni, cng) == a1 * b1 * c1 + a2 * b2 * c1 + a2 * b1 * c3
  {
    var cng2, cng3 := cng * F2(m), cng * F3(m);
    var h1, h2, h3 := (b.nx1 + 1) / 2, (b.nx2 + 1) / 2, (b.nx3 + 1) / 2;
    var c2f1 := Pick(ni.ox1, h1 + cng + 1, cng + 1) * Pick(ni.ox2, h2 + cng2, cng) * Pick(ni.ox3, h3 + cng3, cng);
    var c2f2 := Pick(ni.ox1, h1 + cng, cng) * Pick(ni.ox2, h2 + cng2 + F2(m), cng + 1) * Pick(ni.ox3, h3 + cng3, cng);
    var c2f3 := Pick(ni.ox1, h1 + cng, cng) * Pick(ni.ox2, h2 + cng2, cng) * Pick(ni.ox3, h3 + cng3 + F3(m), cng + 1);
    assert CoarseToFineSize(m, b, ni, cng) == c2f1 + c2f2 + c2f3;
    assert c2f1 == a1 * b1 * c1 && c2f2 == a2 * b2 * c1 && c2f3 == a2 * b1 * c3;
  }

  /** LoadBoundaryBufferToFiner packs exactly `csize` with `cng = cnghost`. */
  lemma ToFinerPackVolume(m: MeshConfig, b: Block, ni: NeighborIndexes)
    requires ValidRefinedBlock(m, b) && ValidNeighbor(m, ni)
    ensures ToFinerPackWindows(b, ni).Volume() == CoarseToFineSize(m, b, ni, b.cnghost)
  {
    var cng := b.cnghost;
    var h1, h2, h3 := (b.nx1 + 1) / 2, (b.nx2 + 1) / 2, (b.nx3 + 1) / 2;
    var cng2, cng3 := cng * F2(m), cng * F3(m);
    var a1, b1, c1 := Pick(ni.ox1, h1 + cng + 1, cng + 1), Pick(ni.ox2, h2 + cng2, cng), Pick(ni.ox3, h3 + cng3, cng);
    var a2, b2, c3 := Pick(ni.ox1, h1 + cng, cng), Pick(ni.ox2, h2 + cng2 + F2(m), cng + 1), Pick(ni.ox3, h3 + cng3 + F3(m), cng + 1);
    CoarseToFineTerms(m, b, ni, cng, a1, b1, c1, a2, b2, c3);
    ToFinerLensI(m, b, ni);
    ToFinerLensJ(m, b, ni);
    ToFinerLensK(m, b, ni);
    WindowsVolumeIs(ToFinerPackWindows(b, ni), a1, b1, c1, a2, b2, c3);
  }

  /** The ranges of SetBoundaryFromCoarser: the coarse interior plus the `cnghost` margin. */
  lemma FromCoarserLens(m: MeshConfig, b: Block, ni: NeighborIndexes)
    requires ValidBlock(m, b) && ValidNeighbor(m, ni)
    ensures var ws, cng := FromCoarserUnpackWindows(b, ni), b.cnghost;
      var h1, h2, h3 := (b.nx1 + 1) / 2, (b.nx2 + 1) / 2, (b.nx3 + 1) / 2;
      var cng2, cng3 := cng * F2(m), cng * F3(m);
      && ws.w1.i.Len() == Pick(ni.ox1, h1 + cng + 1, cng + 1)
      && ws.w1.j.Len() == Pick(ni.ox2, h2 + cng2, cng)
      && ws.w1.k.Len() == Pick(ni.ox3, h3 + cng3, cng)
      && ws.w2.i.Len() == Pick(ni.ox1, h1 + cng, cng)
      && ws.w2.j.Len() == Pick(ni.ox2, h2 + cng2 + F2(m), cng + 1)
      && ws.w3.k.Len() == Pick(ni.ox3, h3 + cng3 + F3(m), cng + 1)
      && ws.w2.k == ws.w1.k && ws.w3.i == ws.w2.i && ws.w3.j == ws.w1.j
  {
    assert b.cnghost * F2(m) == if m.ndim >= 2 then b.cnghost else 0;
    assert b.cnghost * F3(m) == if m.ndim >= 3 then b.cnghost else 0;
  }

  /** SetBoundaryFromCoarser unpacks exactly `csize` with `cng = cnghost`. */
  lemma FromCoarserUnpackVolume(m: MeshConfig, b: Block, ni: NeighborIndexes)
    requires ValidBlock(m, b) && ValidNeighbor(m, ni)
    ensures FromCoarserUnpackWindows(b, ni).Volume() == CoarseToFineSize(m, b, ni, b.cnghost)
  {
    var cng := b.cnghost;
    var h1, h2, h3 := (b.nx1 + 1) / 2, (b.nx2 + 1) / 2, (b.nx3 + 1) / 2;
    var cng2, cng3 := cng * F2(m), cng * F3(m);
    var a1, b1, c1 := Pick(ni.ox1, h1 + cng + 1, cng + 1), Pick(ni.ox2, h2 + cng2, cng), Pick(ni.ox3, h3 + cng3, cng);
    var a2, b2, c3 := Pick(ni.ox1, h1 + cng, cng), Pick(ni.ox2, h2 + cng2 + F2(m), cng + 1), Pick(ni.ox3, h3 + cng3 + F3(m), cng + 1);
    CoarseToFineTerms(m, b, ni, cng, a1, b1, c1, a2, b2, c3);
    FromCoarserLens(m, b, ni);
    WindowsVolumeIs(FromCoarserUnpackWindows(b, ni), a1, b1, c1, a2, b2, c3);
  }

  // ---- sender and receiver agree ----

  /** Two blocks of one level: the receiver `bb`, seeing the sender at the mirrored
      offset, unpacks into exactly the sender's pack windows carried across the
      boundary, component by component and in the same order. */
  lemma SameLevelAlignment(m: MeshConfig, a: Block, bb: Block, ni: NeighborIndexes)
    requires ValidBlock(m, a) && ValidBlock(m, bb) && ValidNeighbor(m, ni)
    requires a.nx1 == bb.nx1 && a.nx2 == bb.nx2 && a.nx3 == bb.nx3
    ensures SameLevelUnpackWindows(m, bb, Mirror(ni))
         == SameLevelPackWindows(m, a, ni).Shift(
              Across(ni.ox3, a.cells.klo, a.cells.khi, bb.cells.klo, bb.cells.khi),
              Across(ni.ox2, a.cells.jlo, a.cells.jhi, bb.cells.jlo, bb.cells.jhi),
              Across(ni.ox1, a.cells.ilo, a.cells.ihi, bb.cells.ilo, bb.cells.ihi))
  {
  }

  /** The face shared with the neighbour is packed for an edge or corner neighbour of a
      multilevel mesh and for nobody else. */
  lemma SharedFaceOnlyWhenWidened(m: MeshConfig, b: Block, ni: NeighborIndexes)
    requires ValidBlock(m, b) && ValidNeighbor(m, ni)
    ensures var ws, c, widen := SameLevelPackWindows(m, b, ni), b.cells, m.multilevel && ni.ntype != Face;
      && (ni.ox1 != 0 ==> (ws.w1.i.Has(if ni.ox1 > 0 then c.ihi + 1 else c.ilo) <==> widen))
      && (ni.ox2 != 0 ==> (ws.w2.j.Has(if ni.ox2 > 0 then c.jhi + 1 else c.jlo) <==> widen))
      && (ni.ox3 != 0 ==> (ws.w3.k.Has(if ni.ox3 > 0 then c.khi + 1 else c.klo) <==> widen))
  {
  }

  /** The buffer allocated by ComputeVariableBufferSize holds what any of the six
      routines moves for that neighbour. */
  lemma BufferFitsEveryRoutine(m: MeshConfig, b: Block, ni: NeighborIndexes)
    requires ValidBlock(m, b) && ValidNeighbor(m, ni)
    requires m.multilevel ==> ValidRefinedBlock(m, b)
    ensures var size := ComputeVariableBufferSize(m, b, ni, b.cnghost);
      && SameLevelPackWindows(m, b, ni).Volume() <= size
      && SameLevelUnpackWindows(m, b, ni).Volume() <= size
      && (m.multilevel ==>
          && ToCoarserPackWindows(m, b, ni).Volume() <= size
          && FromFinerUnpackWindows(m, b, ni).Volume() <= size
          && ToFinerPackWindows(b, ni).Volume() <= size
          && FromCoarserUnpackWindows(b, ni).Volume() <= size)
  {
    SameLevelPackVolume(m, b, ni);
    SameLevelUnpackVolume(m, b, ni);
    if m.multilevel {
      ToCoarserPackVolume(m, b, ni);
      FromFinerUnpackVolume(m, b, ni);
      ToFinerPackVolume(m, b, ni);
      FromCoarserUnpackVolume(m, b, ni);
    }
  }
}
