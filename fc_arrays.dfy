/** The extents of the arrays the face-centred routines read and write: the field
    arrays over the block's cells with `NGHOST` ghost cells, and the coarse buffer over
    the coarse cells with `cnghost` ghost cells, ghosts only along active axes and one
    face more along each component's own axis. Every window the six routines hand to
    PackData/UnpackData lies inside the array it reads or writes. */
module FcArrays {
  import opened FcTypes
  import opened FcWindows

  /** The index box of component `d` (1, 2, 3) of an array over `c` with `g` ghost
      cells along x1 and along the active axes among x2 (`act2`) and x3 (`act3`). */
  function ArrayBox(c: Bounds, g: int, act2: bool, act3: bool, d: int): Window {
    var g2, g3 := if act2 then g else 0, if act3 then g else 0;
    Window(Range(c.ilo - g, c.ihi + g + (if d == 1 then 1 else 0)),
           Range(c.jlo - g2, c.jhi + g2 + (if d == 2 then 1 else 0)),
           Range(c.klo - g3, c.khi + g3 + (if d == 3 then 1 else 0)))
  }

  /** Component `d` of the block's face field. */
  function FineBox(m: MeshConfig, b: Block, d: int): Window {
    ArrayBox(b.cells, m.nghost, b.nx2 > 1, b.nx3 > 1, d)
  }

  /** Component `d` of the block's coarse buffer. */
  function CoarseBox(b: Block, d: int): Window {
    ArrayBox(b.coarse, b.cnghost, b.nx2 > 1, b.nx3 > 1, d)
  }

  /** An empty range, or one inside `o`. */
  predicate RangeWithin(r: Range, o: Range) {
    r.e < r.s || (o.s <= r.s && r.e <= o.e)
  }

  predicate Within(w: Window, box: Window) {
    RangeWithin(w.i, box.i) && RangeWithin(w.j, box.j) && RangeWithin(w.k, box.k)
  }

  /** The three windows lie in the three components' boxes. */
  predicate InArrays(ws: Windows, b1: Window, b2: Window, b3: Window) {
    Within(ws.w1, b1) && Within(ws.w2, b2) && Within(ws.w3, b3)
  }

  /** As InArrays, and the row (1D) and plane (1D/2D) the replication writes past the
      x2f and x3f windows lie in their boxes too. */
  predicate Fits(ws: Windows, b1: Window, b2: Window, b3: Window, nx2: int, nx3: int) {
    && InArrays(ws, b1, b2, b3)
    && (nx2 == 1 ==> Within(ws.w2.Shift(0, 1, 0), b2))
    && (nx3 == 1 ==> Within(ws.w3.Shift(1, 0, 0), b3))
  }

  predicate InFine(m: MeshConfig, b: Block, ws: Windows) {
    InArrays(ws, FineBox(m, b, 1), FineBox(m, b, 2), FineBox(m, b, 3))
  }

  predicate FitsFine(m: MeshConfig, b: Block, ws: Windows) {
    Fits(ws, FineBox(m, b, 1), FineBox(m, b, 2), FineBox(m, b, 3), b.nx2, b.nx3)
  }

  predicate FitsCoarse(b: Block, ws: Windows) {
    Fits(ws, CoarseBox(b, 1), CoarseBox(b, 2), CoarseBox(b, 3), b.nx2, b.nx3)
  }

  /** The x1, x2 and x3 ranges of three windows lie in the boxes' ranges; along x2
      (`AlongJ`) and x3 (`AlongK`) the replicated row or plane does too. */
  predicate AlongI(ws: Windows, b1: Window, b2: Window, b3: Window) {
    RangeWithin(ws.w1.i, b1.i) && RangeWithin(ws.w2.i, b2.i) && RangeWithin(ws.w3.i, b3.i)
  }

  predicate AlongJ(ws: Windows, b1: Window, b2: Window, b3: Window, nx2: int) {
    && RangeWithin(ws.w1.j, b1.j) && RangeWithin(ws.w2.j, b2.j) && RangeWithin(ws.w3.j, b3.j)
    && (nx2 == 1 ==> RangeWithin(ws.w2.j.Shift(1), b2.j))
  }

  predicate AlongK(ws: Windows, b1: Window, b2: Window, b3: Window, nx3: int) {
    && RangeWithin(ws.w1.k, b1.k) && RangeWithin(ws.w2.k, b2.k) && RangeWithin(ws.w3.k, b3.k)
    && (nx3 == 1 ==> RangeWithin(ws.w3.k.Shift(1), b3.k))
  }

  /** Three axes that fit make windows that fit. */
  lemma AxesFit(ws: Windows, b1: Window, b2: Window, b3: Window, nx2: int, nx3: int)
    requires AlongI(ws, b1, b2, b3) && AlongJ(ws, b1, b2, b3, nx2) && AlongK(ws, b1, b2, b3, nx3)
    ensures Fits(ws, b1, b2, b3, nx2, nx3)
  {
    assert ws.w2.Shift(0, 1, 0) == Window(ws.w2.i, ws.w2.j.Shift(1), ws.w2.k);
    assert ws.w3.Shift(1, 0, 0) == Window(ws.w3.i, ws.w3.j, ws.w3.k.Shift(1));
  }

  lemma SameLevelPackAlongI(m: MeshConfig, b: Block, ni: NeighborIndexes)
    requires ValidBlock(m, b) && ValidNeighbor(m, ni)
    ensures AlongI(SameLevelPackWindows(m, b, ni), FineBox(m, b, 1), FineBox(m, b, 2), FineBox(m, b, 3))
  {
  }

  lemma SameLevelPackAlongJ(m: MeshConfig, b: Block, ni: NeighborIndexes)
    requires ValidBlock(m, b) && ValidNeighbor(m, ni)
    ensures AlongJ(SameLevelPackWindows(m, b, ni), FineBox(m, b, 1), FineBox(m, b, 2), FineBox(m, b, 3), b.nx2)
  {
  }

  lemma SameLevelPackAlongK(m: MeshConfig, b: Block, ni: NeighborIndexes)
    requires ValidBlock(m, b) && ValidNeighbor(m, ni)
    ensures AlongK(SameLevelPackWindows(m, b, ni), FineBox(m, b, 1), FineBox(m, b, 2), FineBox(m, b, 3), b.nx3)
  {
  }

  /** LoadBoundaryBufferSameLevel reads only faces of the block's field. */
  lemma SameLevelPackInArrays(m: MeshConfig, b: Block, ni: NeighborIndexes)
    requires ValidBlock(m, b) && ValidNeighbor(m, ni)
    ensures InFine(m, b, SameLevelPackWindows(m, b, ni))
  {
    SameLevelPackAlongI(m, b, ni);
    SameLevelPackAlongJ(m, b, ni);
    SameLevelPackAlongK(m, b, ni);
    AxesFit(SameLevelPackWindows(m, b, ni), FineBox(m, b, 1), FineBox(m, b, 2), FineBox(m, b, 3), b.nx2, b.nx3);
  }

  lemma ToFinerPackAlongI(m: MeshConfig, b: Block, ni: NeighborIndexes)
    requires ValidBlock(m, b) && ValidNeighbor(m, ni) && GhostsFit(m, b)
    ensures AlongI(ToFinerPackWindows(b, ni), FineBox(m, b, 1), FineBox(m, b, 2), FineBox(m, b, 3))
  {
  }

  lemma ToFinerPackAlongJ(m: MeshConfig, b: Block, ni: NeighborIndexes)
    requires ValidBlock(m, b) && ValidNeighbor(m, ni) && GhostsFit(m, b)
    ensures AlongJ(ToFinerPackWindows(b, ni), FineBox(m, b, 1), FineBox(m, b, 2), FineBox(m, b, 3), b.nx2)
  {
  }

  lemma ToFinerPackAlongK(m: MeshConfig, b: Block, ni: NeighborIndexes)
    requires ValidBlock(m, b) && ValidNeighbor(m, ni) && GhostsFit(m, b)
    ensures AlongK(ToFinerPackWindows(b, ni), FineBox(m, b, 1), FineBox(m, b, 2), FineBox(m, b, 3), b.nx3)
  {
  }

  /** LoadBoundaryBufferToFiner reads only faces of the block's field. */
  lemma ToFinerPackInArrays(m: MeshConfig, b: Block, ni: NeighborIndexes)
    requires ValidBlock(m, b) && ValidNeighbor(m, ni) && GhostsFit(m, b)
    ensures InFine(m, b, ToFinerPackWindows(b, ni))
  {
    ToFinerPackAlongI(m, b, ni);
    ToFinerPackAlongJ(m, b, ni);
    ToFinerPackAlongK(m, b, ni);
    AxesFit(ToFinerPackWindows(b, ni), FineBox(m, b, 1), FineBox(m, b, 2), FineBox(m, b, 3), b.nx2, b.nx3);
  }

  lemma ToCoarserPackAlongI(m: MeshConfig, b: Block, ni: NeighborIndexes)
    requires ValidBlock(m, b) && ValidNeighbor(m, ni) && GhostsFit(m, b)
    ensures AlongI(ToCoarserPackWindows(m, b, ni), CoarseBox(b, 1), CoarseBox(b, 2), CoarseBox(b, 3))
  {
  }

  lemma ToCoarserPackAlongJ(m: MeshConfig, b: Block, ni: NeighborIndexes)
    requires ValidBlock(m, b) && ValidNeighbor(m, ni) && GhostsFit(m, b)
    ensures AlongJ(ToCoarserPackWindows(m, b, ni), CoarseBox(b, 1), CoarseBox(b, 2), CoarseBox(b, 3), b.nx2)
  {
  }

  lemma ToCoarserPackAlongK(m: MeshConfig, b: Block, ni: NeighborIndexes)
    requires ValidBlock(m, b) && ValidNeighbor(m, ni) && GhostsFit(m, b)
    ensures AlongK(ToCoarserPackWindows(m, b, ni), CoarseBox(b, 1), CoarseBox(b, 2), CoarseBox(b, 3), b.nx3)
  {
  }

  /** LoadBoundaryBufferToCoarser restricts into, replicates within and packs from the
      coarse buffer only. */
  lemma ToCoarserPackFits(m: MeshConfig, b: Block, ni: NeighborIndexes)
    requires ValidBlock(m, b) && ValidNeighbor(m, ni) && GhostsFit(m, b)
    ensures FitsCoarse(b, ToCoarserPackWindows(m, b, ni))
  {
    ToCoarserPackAlongI(m, b, ni);
    ToCoarserPackAlongJ(m, b, ni);
    ToCoarserPackAlongK(m, b, ni);
    AxesFit(ToCoarserPackWindows(m, b, ni), CoarseBox(b, 1), CoarseBox(b, 2), CoarseBox(b, 3), b.nx2, b.nx3);
  }

  lemma SameLevelUnpackAlongI(m: MeshConfig, b: Block, ni: NeighborIndexes)
    requires ValidBlock(m, b) && ValidNeighbor(m, ni)
    ensures AlongI(SameLevelUnpackWindows(m, b, ni), FineBox(m, b, 1), FineBox(m, b, 2), FineBox(m, b, 3))
  {
  }

  lemma SameLevelUnpackAlongJ(m: MeshConfig, b: Block, ni: NeighborIndexes)
    requires ValidBlock(m, b) && ValidNeighbor(m, ni)
    ensures AlongJ(SameLevelUnpackWindows(m, b, ni), FineBox(m, b, 1), FineBox(m, b, 2), FineBox(m, b, 3), b.nx2)
  {
  }

  lemma SameLevelUnpackAlongK(m: MeshConfig, b: Block, ni: NeighborIndexes)
    requires ValidBlock(m, b) && ValidNeighbor(m, ni)
    ensures AlongK(SameLevelUnpackWindows(m, b, ni), FineBox(m, b, 1), FineBox(m, b, 2), FineBox(m, b, 3), b.nx3)
  {
  }

  /** SetBoundarySameLevel writes only ghost faces of the block's field. */
  lemma SameLevelUnpackFits(m: MeshConfig, b: Block, ni: NeighborIndexes)
    requires ValidBlock(m, b) && ValidNeighbor(m, ni)
    ensures FitsFine(m, b, SameLevelUnpackWindows(m, b, ni))
  {
    SameLevelUnpackAlongI(m, b, ni);
    SameLevelUnpackAlongJ(m, b, ni);
    SameLevelUnpackAlongK(m, b, ni);
    AxesFit(SameLevelUnpackWindows(m, b, ni), FineBox(m, b, 1), FineBox(m, b, 2), FineBox(m, b, 3), b.nx2, b.nx3);
  }

  lemma FromFinerUnpackAlongI(m: MeshConfig, b: Block, ni: NeighborIndexes)
    requires ValidBlock(m, b) && ValidNeighbor(m, ni)
    ensures AlongI(FromFinerUnpackWindows(m, b, ni), FineBox(m, b, 1), FineBox(m, b, 2), FineBox(m, b, 3))
  {
  }

  lemma FromFinerUnpackAlongJ(m: MeshConfig, b: Block, ni: NeighborIndexes)
    requires ValidBlock(m, b) && ValidNeighbor(m, ni)
    ensures AlongJ(FromFinerUnpackWindows(m, b, ni), FineBox(m, b, 1), FineBox(m, b, 2), FineBox(m, b, 3), b.nx2)
  {
  }

  lemma FromFinerUnpackAlongK(m: MeshConfig, b: Block, ni: NeighborIndexes)
    requires ValidBlock(m, b) && ValidNeighbor(m, ni)
    ensures AlongK(FromFinerUnpackWindows(m, b, ni), FineBox(m, b, 1), FineBox(m, b, 2), FineBox(m, b, 3), b.nx3)
  {
  }

  /** SetBoundaryFromFiner writes only faces of the block's field. */
  lemma FromFinerUnpackFits(m: MeshConfig, b: Block, ni: NeighborIndexes)
    requires ValidBlock(m, b) && ValidNeighbor(m, ni)
    ensures FitsFine(m, b, FromFinerUnpackWindows(m, b, ni))
  {
    FromFinerUnpackAlongI(m, b, ni);
    FromFinerUnpackAlongJ(m, b, ni);
    FromFinerUnpackAlongK(m, b, ni);
    AxesFit(FromFinerUnpackWindows(m, b, ni), FineBox(m, b, 1), FineBox(m, b, 2), FineBox(m, b, 3), b.nx2, b.nx3);
  }

  lemma FromCoarserUnpackAlongI(m: MeshConfig, b: Block, ni: NeighborIndexes)
    requires ValidBlock(m, b) && ValidNeighbor(m, ni)
    ensures AlongI(FromCoarserUnpackWindows(b, ni), CoarseBox(b, 1), CoarseBox(b, 2), CoarseBox(b, 3))
  {
  }

  lemma FromCoarserUnpackAlongJ(m: MeshConfig, b: Block, ni: NeighborIndexes)
    requires ValidBlock(m, b) && ValidNeighbor(m, ni)
    ensures AlongJ(FromCoarserUnpackWindows(b, ni), CoarseBox(b, 1), CoarseBox(b, 2), CoarseBox(b, 3), b.nx2)
  {
  }

  lemma FromCoarserUnpackAlongK(m: MeshConfig, b: Block, ni: NeighborIndexes)
    requires ValidBlock(m, b) && ValidNeighbor(m, ni)
    ensures AlongK(FromCoarserUnpackWindows(b, ni), CoarseBox(b, 1), CoarseBox(b, 2), CoarseBox(b, 3), b.nx3)
  {
  }

  /** SetBoundaryFromCoarser writes only faces of the coarse buffer. */
  lemma FromCoarserUnpackFits(m: MeshConfig, b: Block, ni: NeighborIndexes)
    requires ValidBlock(m, b) && ValidNeighbor(m, ni)
    ensures FitsCoarse(b, FromCoarserUnpackWindows(b, ni))
  {
    FromCoarserUnpackAlongI(m, b, ni);
    FromCoarserUnpackAlongJ(m, b, ni);
    FromCoarserUnpackAlongK(m, b, ni);
    AxesFit(FromCoarserUnpackWindows(b, ni), CoarseBox(b, 1), CoarseBox(b, 2), CoarseBox(b, 3), b.nx2, b.nx3);
  }
}
