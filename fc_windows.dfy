/** The inclusive index windows that the six face-centred pack/unpack routines hand
    to PackData/UnpackData, one `Window` per component (x1f, x2f, x3f). Each routine's
    branches are written with small per-axis helpers that follow the source's
    `if (ox == 0) ... else if (ox > 0) ... else ...` cascades. */
module FcWindows {
  import opened FcTypes

  /** The windows of one routine, in the order x1f, x2f, x3f. */
  datatype Windows = Windows(w1: Window, w2: Window, w3: Window) {
    function Volume(): nat { w1.Volume() + w2.Volume() + w3.Volume() }
    function Shift(dk: int, dj: int, di: int): Windows {
      Windows(w1.Shift(dk, dj, di), w2.Shift(dk, dj, di), w3.Shift(dk, dj, di))
    }
  }

  /** Index translation from the sender's `[sA, eA]` to the receiver's `[sB, eB]` along
      an axis where the receiver lies at offset `o`: across the boundary, or in step. */
  function Across(o: int, sA: int, eA: int, sB: int, eB: int): int {
    if o > 0 then sB - eA - 1 else if o < 0 then eB + 1 - sA else sB - sA
  }

  // ---- same-level and to-coarser packing ----

  /** Packing along an axis the component is not normal to. */
  function PackCellAxis(o: int, s: int, e: int, ng: int): Range {
    if o == 0 then Range(s, e) else if o > 0 then Range(e - ng + 1, e) else Range(s, s + ng - 1)
  }

  /** Packing along the component's own axis: the shared face is left out. */
  function PackFaceAxis(o: int, s: int, e: int, ng: int): Range {
    if o == 0 then Range(s, e + 1) else if o > 0 then Range(e - ng + 1, e) else Range(s + 1, s + ng)
  }

  /** Edge/corner widening of a pack range: one more face toward the neighbour. */
  function WidenPack(r: Range, o: int, widen: bool): Range {
    if widen && o > 0 then Range(r.s, r.e + 1) else if widen && o < 0 then Range(r.s - 1, r.e) else r
  }

  /** The windows of LoadBoundaryBufferSameLevel (bounds = cellbounds, `widen` =
      multilevel and not a face) and of LoadBoundaryBufferToCoarser (bounds =
      c_cellbounds, `widen` = not a face). */
  function PackWindows(c: Bounds, nx2: int, nx3: int, ng: int, widen: bool, ni: NeighborIndexes): Windows {
    // bx1
    var i1 := WidenPack(PackFaceAxis(ni.ox1, c.ilo, c.ihi, ng), ni.ox1, widen);
    var j1 := PackCellAxis(ni.ox2, c.jlo, c.jhi, ng);
    var k1 := PackCellAxis(ni.ox3, c.klo, c.khi, ng);
    // bx2 (k carried over from bx1)
    var i2 := PackCellAxis(ni.ox1, c.ilo, c.ihi, ng);
    var j2 := WidenPack(if nx2 == 1 then Range(c.jlo, c.jhi) else PackFaceAxis(ni.ox2, c.jlo, c.jhi, ng), ni.ox2, widen);
    // bx3 (i carried over from bx2)
    var j3 := PackCellAxis(ni.ox2, c.jlo, c.jhi, ng);
    var k3 := WidenPack(if nx3 == 1 then Range(c.klo, c.khi) else PackFaceAxis(ni.ox3, c.klo, c.khi, ng), ni.ox3, widen);
    Windows(Window(i1, j1, k1), Window(i2, j2, k1), Window(i2, j3, k3))
  }

  function SameLevelPackWindows(m: MeshConfig, b: Block, ni: NeighborIndexes): Windows {
    PackWindows(b.cells, b.nx2, b.nx3, m.nghost, m.multilevel && ni.ntype != Face, ni)
  }

  function ToCoarserPackWindows(m: MeshConfig, b: Block, ni: NeighborIndexes): Windows {
    PackWindows(b.coarse, b.nx2, b.nx3, m.nghost, ni.ntype != Face, ni)
  }

  // ---- same-level and from-finer unpacking ----

  function UnpackCellAxis(o: int, s: int, e: int, ng: int): Range {
    if o == 0 then Range(s, e) else if o > 0 then Range(e + 1, e + ng) else Range(s - ng, s - 1)
  }

  /** Unpacking along the component's own axis: the shared face is left out. */
  function UnpackFaceAxis(o: int, s: int, e: int, ng: int): Range {
    if o == 0 then Range(s, e + 1) else if o > 0 then Range(e + 2, e + ng + 1) else Range(s - ng, s - 1)
  }

  /** Edge/corner widening of an unpack range: one more face toward the interior. */
  function WidenUnpack(r: Range, o: int, widen: bool): Range {
    if widen && o > 0 then Range(r.s - 1, r.e) else if widen && o < 0 then Range(r.s, r.e + 1) else r
  }

  /** SetBoundarySameLevel; the bounds are the block's own cellbounds. */
  function SameLevelUnpackWindows(m: MeshConfig, b: Block, ni: NeighborIndexes): Windows {
    var c, ng, widen := b.cells, m.nghost, m.multilevel && ni.ntype != Face;
    var i1 := WidenUnpack(UnpackFaceAxis(ni.ox1, c.ilo, c.ihi, ng), ni.ox1, widen);
    var j1 := UnpackCellAxis(ni.ox2, c.jlo, c.jhi, ng);
    var k1 := UnpackCellAxis(ni.ox3, c.klo, c.khi, ng);
    var i2 := UnpackCellAxis(ni.ox1, c.ilo, c.ihi, ng);
    var j2 := WidenUnpack(if b.nx2 == 1 then Range(c.jlo, c.jhi) else UnpackFaceAxis(ni.ox2, c.jlo, c.jhi, ng), ni.ox2, widen);
    var j3 := UnpackCellAxis(ni.ox2, c.jlo, c.jhi, ng);
    var k3 := WidenUnpack(if b.nx3 == 1 then Range(c.klo, c.khi) else UnpackFaceAxis(ni.ox3, c.klo, c.khi, ng), ni.ox3, widen);
    Windows(Window(i1, j1, k1), Window(i2, j2, k1), Window(i2, j3, k3))
  }

  /** Keeps the upper (`upper`) or lower half of a range by moving one end by `h`. */
  function Half(r: Range, upper: bool, h: int): Range {
    if upper then Range(r.s + h, r.e) else Range(r.s, r.e - h)
  }

  /** Which fine sub-index selects the half along x2 and along x3. */
  function FineJ(ni: NeighborIndexes): int { if ni.ox1 != 0 then ni.fi1 else ni.fi2 }
  function FineK(ni: NeighborIndexes): int { if ni.ox1 != 0 && ni.ox2 != 0 then ni.fi1 else ni.fi2 }

  /** A tangential axis of SetBoundaryFromFiner: `extra` is 1 on the component's own
      axis (the `ej++`), and the half is chosen only on an active axis. */
  function FromFinerZeroAxis(s: int, e: int, nx: int, active: bool, fine: int, extra: int): Range {
    if active then Half(Range(s, e + extra), fine == 1, nx / 2) else Range(s, e)
  }

  /** SetBoundaryFromFiner: already restricted data into this block's ghost zones. */
  function FromFinerUnpackWindows(m: MeshConfig, b: Block, ni: NeighborIndexes): Windows {
    var c, ng, widen := b.cells, m.nghost, ni.ntype != Face;
    // bx1
    var i1 := WidenUnpack(
      if ni.ox1 == 0 then Half(Range(c.ilo, c.ihi + 1), ni.fi1 == 1, b.nx1 / 2) else UnpackFaceAxis(ni.ox1, c.ilo, c.ihi, ng),
      ni.ox1, widen);
    var j1 := if ni.ox2 == 0 then FromFinerZeroAxis(c.jlo, c.jhi, b.nx2, b.nx2 > 1, FineJ(ni), 0)
              else UnpackCellAxis(ni.ox2, c.jlo, c.jhi, ng);
    var k1 := if ni.ox3 == 0 then FromFinerZeroAxis(c.klo, c.khi, b.nx3, b.nx3 > 1, FineK(ni), 0)
              else UnpackCellAxis(ni.ox3, c.klo, c.khi, ng);
    // bx2 (k carried over from bx1)
    var i2 := if ni.ox1 == 0 then Half(Range(c.ilo, c.ihi), ni.fi1 == 1, b.nx1 / 2)
              else UnpackCellAxis(ni.ox1, c.ilo, c.ihi, ng);
    var j2 := WidenUnpack(
      if ni.ox2 == 0 then FromFinerZeroAxis(c.jlo, c.jhi, b.nx2, b.nx2 > 1, FineJ(ni), 1)
      else UnpackFaceAxis(ni.ox2, c.jlo, c.jhi, ng),
      ni.ox2, widen);
    // bx3 (i carried over from bx2)
    var j3 := j1;
    var k3 := WidenUnpack(
      if ni.ox3 == 0 then FromFinerZeroAxis(c.klo, c.khi, b.nx3, b.nx3 > 1, FineK(ni), 1)
      else UnpackFaceAxis(ni.ox3, c.klo, c.khi, ng),
      ni.ox3, widen);
    Windows(Window(i1, j1, k1), Window(i2, j2, k1), Window(i2, j3, k3))
  }

  // ---- to-finer packing (with the prolongation margin cnghost) ----

  /** A tangential axis of LoadBoundaryBufferToFiner: the half plus `cnghost` margin. */
  function ToFinerZeroAxis(s: int, e: int, nx: int, active: bool, fine: int, extra: int, cng: int): Range {
    if active then Half(Range(s, e + extra), fine == 1, nx / 2 - cng) else Range(s, e)
  }

  /** Nonzero offset, cell axis: `cnghost` cells next to the boundary (`cn = cnghost-1`). */
  function ToFinerCellAxis(o: int, s: int, e: int, cng: int): Range {
    if o > 0 then Range(e - (cng - 1), e) else Range(s, s + (cng - 1))
  }

  /** Nonzero offset, face axis: `cnghost + 1` faces including the boundary face. */
  function ToFinerFaceAxis(o: int, s: int, e: int, cng: int): Range {
    if o > 0 then Range(e + 1 - cng, e + 1) else Range(s, s + cng)
  }

  /** LoadBoundaryBufferToFiner. */
  function ToFinerPackWindows(b: Block, ni: NeighborIndexes): Windows {
    var c, cng := b.cells, b.cnghost;
    // bx1
    var i1 := if ni.ox1 == 0 then Half(Range(c.ilo, c.ihi + 1), ni.fi1 == 1, b.nx1 / 2 - cng)
              else ToFinerFaceAxis(ni.ox1, c.ilo, c.ihi, cng);
    var j1 := if ni.ox2 == 0 then ToFinerZeroAxis(c.jlo, c.jhi, b.nx2, b.nx2 > 1, FineJ(ni), 0, cng)
              else ToFinerCellAxis(ni.ox2, c.jlo, c.jhi, cng);
    var k1 := if ni.ox3 == 0 then ToFinerZeroAxis(c.klo, c.khi, b.nx3, b.nx3 > 1, FineK(ni), 0, cng)
              else ToFinerCellAxis(ni.ox3, c.klo, c.khi, cng);
    // bx2 (k carried over from bx1)
    var i2 := if ni.ox1 == 0 then Half(Range(c.ilo, c.ihi), ni.fi1 == 1, b.nx1 / 2 - cng)
              else ToFinerCellAxis(ni.ox1, c.ilo, c.ihi, cng);
    var j2 := if ni.ox2 == 0 then ToFinerZeroAxis(c.jlo, c.jhi, b.nx2, b.nx2 > 1, FineJ(ni), 1, cng)
              else ToFinerFaceAxis(ni.ox2, c.jlo, c.jhi, cng);
    // bx3 (i carried over from bx2)
    var k3 := if ni.ox3 == 0 then ToFinerZeroAxis(c.klo, c.khi, b.nx3, b.nx3 > 1, FineK(ni), 1, cng)
              else ToFinerFaceAxis(ni.ox3, c.klo, c.khi, cng);
    Windows(Window(i1, j1, k1), Window(i2, j2, k1), Window(i2, j1, k3))
  }

  // ---- from-coarser unpacking into the coarse buffer ----

  /** Grows a range by `cng` on the side away from the sibling: the upper side when the
      logical location is even. */
  function Extend(r: Range, even: bool, cng: int): Range {
    if even then Range(r.s, r.e + cng) else Range(r.s - cng, r.e)
  }

  function FromCoarserZeroAxis(s: int, e: int, active: bool, lx: int, extra: int, cng: int): Range {
    if active then Extend(Range(s, e + extra), lx % 2 == 0, cng) else Range(s, e)
  }

  function FromCoarserCellAxis(o: int, s: int, e: int, cng: int): Range {
    if o > 0 then Range(e + 1, e + cng) else Range(s - cng, s - 1)
  }

  function FromCoarserFaceAxis(o: int, s: int, e: int, cng: int): Range {
    if o > 0 then Range(e + 1, e + 1 + cng) else Range(s - cng, s)
  }

  /** SetBoundaryFromCoarser: windows in c_cellbounds with margin `cng = cnghost`. */
  function FromCoarserUnpackWindows(b: Block, ni: NeighborIndexes): Windows {
    var c, cng := b.coarse, b.cnghost;
    // bx1 (x1 is always active)
    var i1 := if ni.ox1 == 0 then FromCoarserZeroAxis(c.ilo, c.ihi, true, b.lx1, 1, cng)
              else FromCoarserFaceAxis(ni.ox1, c.ilo, c.ihi, cng);
    var j1 := if ni.ox2 == 0 then FromCoarserZeroAxis(c.jlo, c.jhi, b.nx2 > 1, b.lx2, 0, cng)
              else FromCoarserCellAxis(ni.ox2, c.jlo, c.jhi, cng);
    var k1 := if ni.ox3 == 0 then FromCoarserZeroAxis(c.klo, c.khi, b.nx3 > 1, b.lx3, 0, cng)
              else FromCoarserCellAxis(ni.ox3, c.klo, c.khi, cng);
    // bx2 (k carried over from bx1)
    var i2 := if ni.ox1 == 0 then FromCoarserZeroAxis(c.ilo, c.ihi, true, b.lx1, 0, cng)
              else FromCoarserCellAxis(ni.ox1, c.ilo, c.ihi, cng);
    var j2 := if ni.ox2 == 0 then FromCoarserZeroAxis(c.jlo, c.jhi, b.nx2 > 1, b.lx2, 1, cng)
              else FromCoarserFaceAxis(ni.ox2, c.jlo, c.jhi, cng);
    // bx3 (i carried over from bx2)
    var k3 := if ni.ox3 == 0 then FromCoarserZeroAxis(c.klo, c.khi, b.nx3 > 1, b.lx3, 1, cng)
              else FromCoarserFaceAxis(ni.ox3, c.klo, c.khi, cng);
    Windows(Window(i1, j1, k1), Window(i2, j2, k1), Window(i2, j1, k3))
  }
}
