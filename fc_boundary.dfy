/** FaceCenteredBoundaryVariable: the three face-field components and the coarse
    buffer, the six routines that load a send buffer or set ghost faces from a received
    one, and the specification functions those routines are proved against. */
module FcBoundary {
  import opened FcTypes
  import opened FcSizing
  import opened FcWindows
  import opened FcWindowLemmas
  import opened FieldCopy
  import opened FcEdges
  import opened FcArrays

  /** A FaceField: one map per component, `x1f`, `x2f`, `x3f`. */
  datatype FaceField<V> = FaceField(x1f: Field<V>, x2f: Field<V>, x3f: Field<V>)

  predicate CoversWindows<V>(fc: FaceField<V>, ws: Windows) {
    Covers(fc.x1f, Coords(ws.w1)) && Covers(fc.x2f, Coords(ws.w2)) && Covers(fc.x3f, Coords(ws.w3))
  }

  /** Every index of `box` is present in `f`: the array was allocated over that box. */
  ghost predicate Holds<V>(f: Field<V>, box: Window) {
    forall c :: InWindow(c, box) ==> c in f
  }

  /** The face field holds its ghost-extended arrays. */
  ghost predicate HoldsFine<V>(m: MeshConfig, b: Block, fc: FaceField<V>) {
    Holds(fc.x1f, FineBox(m, b, 1)) && Holds(fc.x2f, FineBox(m, b, 2)) && Holds(fc.x3f, FineBox(m, b, 3))
  }

  /** The coarse buffer holds its ghost-extended coarse arrays. */
  ghost predicate HoldsCoarse<V>(b: Block, fc: FaceField<V>) {
    Holds(fc.x1f, CoarseBox(b, 1)) && Holds(fc.x2f, CoarseBox(b, 2)) && Holds(fc.x3f, CoarseBox(b, 3))
  }

  /** A window inside a held box is covered. */
  lemma WithinHeld<V>(f: Field<V>, w: Window, box: Window)
    requires Holds(f, box) && Within(w, box)
    ensures Covers(f, Coords(w))
  {
    CoordsFacts(w);
  }

  lemma HeldCovers<V>(fc: FaceField<V>, ws: Windows, b1: Window, b2: Window, b3: Window)
    requires Holds(fc.x1f, b1) && Holds(fc.x2f, b2) && Holds(fc.x3f, b3)
    requires InArrays(ws, b1, b2, b3)
    ensures CoversWindows(fc, ws)
  {
    WithinHeld(fc.x1f, ws.w1, b1);
    WithinHeld(fc.x2f, ws.w2, b2);
    WithinHeld(fc.x3f, ws.w3, b3);
  }

  /** A block's face field covers every window the same-level and to-finer Load
      routines read, so neither reads past its arrays. */
  lemma FieldCoversPackWindows<V>(m: MeshConfig, b: Block, ni: NeighborIndexes, fc: FaceField<V>)
    requires ValidBlock(m, b) && ValidNeighbor(m, ni) && HoldsFine(m, b, fc)
    ensures CoversWindows(fc, SameLevelPackWindows(m, b, ni))
    ensures GhostsFit(m, b) ==> CoversWindows(fc, ToFinerPackWindows(b, ni))
  {
    SameLevelPackInArrays(m, b, ni);
    HeldCovers(fc, SameLevelPackWindows(m, b, ni), FineBox(m, b, 1), FineBox(m, b, 2), FineBox(m, b, 3));
    if GhostsFit(m, b) {
      ToFinerPackInArrays(m, b, ni);
      HeldCovers(fc, ToFinerPackWindows(b, ni), FineBox(m, b, 1), FineBox(m, b, 2), FineBox(m, b, 3));
    }
  }

  /** What a Load routine puts in the buffer: x1f, then x2f, then x3f, each window in
      row-major order. */
  function Packed<V>(fc: FaceField<V>, ws: Windows): (r: seq<V>)
    requires CoversWindows(fc, ws)
    ensures |r| == ws.Volume()
  {
    Gather(fc.x1f, Coords(ws.w1)) + Gather(fc.x2f, Coords(ws.w2)) + Gather(fc.x3f, Coords(ws.w3))
  }

  /** The replicated row and plane lie inside their windows. */
  predicate Replicable(ws: Windows, nx2: int, nx3: int) {
    && (nx2 == 1 ==> ws.w2.k.s <= ws.w2.k.e && ws.w2.j.s <= ws.w2.j.e)
    && (nx3 == 1 ==> ws.w3.k.s <= ws.w3.k.e)
  }

  lemma FirstRowInWindow(w: Window)
    ensures w.k.s <= w.k.e && w.j.s <= w.j.e ==>
      forall c :: c in Cells(w.k.s, w.j.s, w.i) ==> c in Coords(w)
  {
    CellsFacts(w.k.s, w.j.s, w.i);
    CoordsFacts(w);
  }

  lemma FirstPlaneInWindow(w: Window)
    ensures w.k.s <= w.k.e ==> forall c :: c in Rows(w.k.s, w.j, w.i) ==> c in Coords(w)
  {
    RowsFacts(w.k.s, w.j, w.i);
    CoordsFacts(w);
  }

  /** The 1D replication of x2f: `x2f(sk, sj+1, i) = x2f(sk, sj, i)` over the window. */
  function ReplicateX2<V>(f: Field<V>, w: Window, nx2: int): Field<V>
    requires nx2 == 1 ==> Covers(f, Cells(w.k.s, w.j.s, w.i))
  {
    if nx2 == 1 then CopyAll(f, Cells(w.k.s, w.j.s, w.i), (0, 1, 0)) else f
  }

  /** The 1D/2D replication of x3f: `x3f(sk+1, j, i) = x3f(sk, j, i)` over the window. */
  function ReplicateX3<V>(f: Field<V>, w: Window, nx3: int): Field<V>
    requires nx3 == 1 ==> Covers(f, Rows(w.k.s, w.j, w.i))
  {
    if nx3 == 1 then CopyAll(f, Rows(w.k.s, w.j, w.i), (1, 0, 0)) else f
  }

  /** x2f filled from `vals` over its window, then replicated along j in 1D. */
  function UnpackX2<V>(f: Field<V>, w: Window, vals: seq<V>, nx2: int): Field<V>
    requires |vals| == w.Volume()
    requires nx2 == 1 ==> w.k.s <= w.k.e && w.j.s <= w.j.e
  {
    FirstRowInWindow(w);
    CoordsFacts(w);
    ScatterThenGather(f, Coords(w), vals);
    ReplicateX2(Scatter(f, Coords(w), vals), w, nx2)
  }

  /** x3f filled from `vals` over its window, then replicated along k in 1D/2D. */
  function UnpackX3<V>(f: Field<V>, w: Window, vals: seq<V>, nx3: int): Field<V>
    requires |vals| == w.Volume()
    requires nx3 == 1 ==> w.k.s <= w.k.e
  {
    FirstPlaneInWindow(w);
    CoordsFacts(w);
    ScatterThenGather(f, Coords(w), vals);
    ReplicateX3(Scatter(f, Coords(w), vals), w, nx3)
  }

  /** What a Set routine leaves in the field: the three windows filled from consecutive
      stretches of the buffer, with the degenerate-axis replication. */
  function Unpacked<V>(fc: FaceField<V>, ws: Windows, vals: seq<V>, nx2: int, nx3: int): FaceField<V>
    requires |vals| >= ws.Volume() && Replicable(ws, nx2, nx3)
  {
    var v1, v2, v3 := ws.w1.Volume(), ws.w2.Volume(), ws.w3.Volume();
    FaceField(Scatter(fc.x1f, Coords(ws.w1), vals[..v1]),
              UnpackX2(fc.x2f, ws.w2, vals[v1..v1 + v2], nx2),
              UnpackX3(fc.x3f, ws.w3, vals[v1 + v2..v1 + v2 + v3], nx3))
  }

  /** Scattering over a window inside a held box adds no index. */
  lemma ScatterKeepsKeys<V>(f: Field<V>, w: Window, vals: seq<V>, box: Window)
    requires |vals| == w.Volume() && Holds(f, box) && Within(w, box)
    ensures Scatter(f, Coords(w), vals).Keys == f.Keys
  {
    WithinHeld(f, w, box);
    ScatterKeys(f, Coords(w), vals);
  }

  /** The 1D replication of x2f adds no index when the row it writes is held. */
  lemma ReplicateX2Keys<V>(f: Field<V>, w: Window, nx2: int, box: Window)
    requires Holds(f, box)
    requires nx2 == 1 ==> Covers(f, Cells(w.k.s, w.j.s, w.i))
    requires nx2 == 1 ==> w.k.s <= w.k.e && w.j.s <= w.j.e && Within(w.Shift(0, 1, 0), box)
    ensures ReplicateX2(f, w, nx2).Keys == f.Keys
  {
    if nx2 == 1 {
      CopyAllKeys(f, Cells(w.k.s, w.j.s, w.i), (0, 1, 0));
      ShiftedCells(w.k.s, w.j.s, w.i, (0, 1, 0));
    }
  }

  /** The 1D/2D replication of x3f adds no index when the plane it writes is held. */
  lemma ReplicateX3Keys<V>(f: Field<V>, w: Window, nx3: int, box: Window)
    requires Holds(f, box)
    requires nx3 == 1 ==> Covers(f, Rows(w.k.s, w.j, w.i))
    requires nx3 == 1 ==> w.k.s <= w.k.e && Within(w.Shift(1, 0, 0), box)
    ensures ReplicateX3(f, w, nx3).Keys == f.Keys
  {
    if nx3 == 1 {
      CopyAllKeys(f, Rows(w.k.s, w.j, w.i), (1, 0, 0));
      ShiftedRows(w.k.s, w.j, w.i, (1, 0, 0));
    }
  }

  lemma UnpackX2Keys<V>(f: Field<V>, w: Window, vals: seq<V>, nx2: int, box: Window)
    requires |vals| == w.Volume() && Holds(f, box) && Within(w, box)
    requires nx2 == 1 ==> w.k.s <= w.k.e && w.j.s <= w.j.e && Within(w.Shift(0, 1, 0), box)
    ensures UnpackX2(f, w, vals, nx2).Keys == f.Keys
  {
    var g := Scatter(f, Coords(w), vals);
    ScatterKeepsKeys(f, w, vals, box);
    FirstRowInWindow(w);
    CoordsFacts(w);
    ScatterThenGather(f, Coords(w), vals);
    ReplicateX2Keys(g, w, nx2, box);
  }

  lemma UnpackX3Keys<V>(f: Field<V>, w: Window, vals: seq<V>, nx3: int, box: Window)
    requires |vals| == w.Volume() && Holds(f, box) && Within(w, box)
    requires nx3 == 1 ==> w.k.s <= w.k.e && Within(w.Shift(1, 0, 0), box)
    ensures UnpackX3(f, w, vals, nx3).Keys == f.Keys
  {
    var g := Scatter(f, Coords(w), vals);
    ScatterKeepsKeys(f, w, vals, box);
    FirstPlaneInWindow(w);
    CoordsFacts(w);
    ScatterThenGather(f, Coords(w), vals);
    ReplicateX3Keys(g, w, nx3, box);
  }

  /** Unpacking into windows that fit the held arrays adds no index to any component:
      nothing is written past the arrays. */
  lemma UnpackedKeys<V>(fc: FaceField<V>, ws: Windows, vals: seq<V>, nx2: int, nx3: int,
                        b1: Window, b2: Window, b3: Window)
    requires |vals| >= ws.Volume() && Replicable(ws, nx2, nx3)
    requires Holds(fc.x1f, b1) && Holds(fc.x2f, b2) && Holds(fc.x3f, b3)
    requires Fits(ws, b1, b2, b3, nx2, nx3)
    ensures var r := Unpacked(fc, ws, vals, nx2, nx3);
      r.x1f.Keys == fc.x1f.Keys && r.x2f.Keys == fc.x2f.Keys && r.x3f.Keys == fc.x3f.Keys
  {
    var v1, v2, v3 := ws.w1.Volume(), ws.w2.Volume(), ws.w3.Volume();
    ScatterKeepsKeys(fc.x1f, ws.w1, vals[..v1], b1);
    UnpackX2Keys(fc.x2f, ws.w2, vals[v1..v1 + v2], nx2, b2);
    UnpackX3Keys(fc.x3f, ws.w3, vals[v1 + v2..v1 + v2 + v3], nx3, b3);
  }

  /** `pmr->RestrictFieldXn(fine, coarse, window)`: every coarse face in the window gets
      the value the restriction operator computes from the fine field; `restrict` stands
      for that operator, which is not part of this model. */
  function Restricted<V>(coarse: Field<V>, fine: Field<V>, w: Window, restrict: (Field<V>, Idx) -> V): (r: Field<V>)
    ensures Covers(r, Coords(w))
    ensures forall c :: c in Coords(w) ==> r[c] == restrict(fine, c)
    ensures forall c :: c in coarse && c !in Coords(w) ==> c in r && r[c] == coarse[c]
  {
    coarse + map c | c in Coords(w) :: restrict(fine, c)
  }

  /** The coarse buffer after LoadBoundaryBufferToCoarser: each component restricted
      over its window, then the degenerate-axis replication. */
  function RestrictedCoarse<V>(coarse: FaceField<V>, fine: FaceField<V>, ws: Windows, nx2: int, nx3: int,
                               restrict: (int, Field<V>, Idx) -> V): (r: FaceField<V>)
    requires Replicable(ws, nx2, nx3)
  {
    var x2 := Restricted(coarse.x2f, fine.x2f, ws.w2, (f, c) => restrict(2, f, c));
    var x3 := Restricted(coarse.x3f, fine.x3f, ws.w3, (f, c) => restrict(3, f, c));
    FirstRowInWindow(ws.w2);
    FirstPlaneInWindow(ws.w3);
    FaceField(Restricted(coarse.x1f, fine.x1f, ws.w1, (f, c) => restrict(1, f, c)),
              ReplicateX2(x2, ws.w2, nx2), ReplicateX3(x3, ws.w3, nx3))
  }

  lemma RestrictedKeepsKeys<V>(coarse: Field<V>, fine: Field<V>, w: Window, restrict: (Field<V>, Idx) -> V, box: Window)
    requires Holds(coarse, box) && Within(w, box)
    ensures Restricted(coarse, fine, w, restrict).Keys == coarse.Keys
  {
    WithinHeld(coarse, w, box);
  }

  /** Restricting into windows that fit the held coarse arrays, and replicating, adds
      no index to the coarse buffer. */
  lemma RestrictedCoarseKeys<V>(coarse: FaceField<V>, fine: FaceField<V>, ws: Windows, nx2: int, nx3: int,
                                restrict: (int, Field<V>, Idx) -> V, b1: Window, b2: Window, b3: Window)
    requires Replicable(ws, nx2, nx3)
    requires Holds(coarse.x1f, b1) && Holds(coarse.x2f, b2) && Holds(coarse.x3f, b3)
    requires Fits(ws, b1, b2, b3, nx2, nx3)
    ensures var r := RestrictedCoarse(coarse, fine, ws, nx2, nx3, restrict);
      r.x1f.Keys == coarse.x1f.Keys && r.x2f.Keys == coarse.x2f.Keys && r.x3f.Keys == coarse.x3f.Keys
  {
    var x2 := Restricted(coarse.x2f, fine.x2f, ws.w2, (f, c) => restrict(2, f, c));
    var x3 := Restricted(coarse.x3f, fine.x3f, ws.w3, (f, c) => restrict(3, f, c));
    RestrictedKeepsKeys(coarse.x1f, fine.x1f, ws.w1, (f, c) => restrict(1, f, c), b1);
    RestrictedKeepsKeys(coarse.x2f, fine.x2f, ws.w2, (f, c) => restrict(2, f, c), b2);
    RestrictedKeepsKeys(coarse.x3f, fine.x3f, ws.w3, (f, c) => restrict(3, f, c), b3);
    FirstRowInWindow(ws.w2);
    FirstPlaneInWindow(ws.w3);
    ReplicateX2Keys(x2, ws.w2, nx2, b2);
    ReplicateX3Keys(x3, ws.w3, nx3, b3);
  }

  /** Every routine's windows keep the replicated row and plane inside them. */
  lemma WindowsReplicable(m: MeshConfig, b: Block, ni: NeighborIndexes)
    requires ValidBlock(m, b) && ValidNeighbor(m, ni)
    ensures Replicable(SameLevelUnpackWindows(m, b, ni), b.nx2, b.nx3)
    ensures Replicable(ToCoarserPackWindows(m, b, ni), b.nx2, b.nx3)
    ensures Replicable(FromFinerUnpackWindows(m, b, ni), b.nx2, b.nx3)
    ensures Replicable(FromCoarserUnpackWindows(b, ni), b.nx2, b.nx3)
  {
  }

  /** The windows SetBoundaryFromFiner unpacks fit the allocated buffer and keep the
      replicated row and plane inside them. */
  lemma FromFinerFits(m: MeshConfig, b: Block, ni: NeighborIndexes, len: int)
    requires ValidRefinedBlock(m, b) && ValidNeighbor(m, ni) && m.multilevel
    requires len >= ComputeVariableBufferSize(m, b, ni, b.cnghost)
    ensures Replicable(FromFinerUnpackWindows(m, b, ni), b.nx2, b.nx3)
    ensures FromFinerUnpackWindows(m, b, ni).Volume() <= len
  {
    FromFinerUnpackVolume(m, b, ni);
    WindowsReplicable(m, b, ni);
  }

  /** x2f carried by `d`: the 1D replication writes the row just past the received
      window, so every received face keeps the sent value. */
  lemma ReceivedX2<V>(src: Field<V>, dst: Field<V>, w: Window, dk: int, dj: int, di: int, nx2: int)
    requires Covers(src, Coords(w))
    requires nx2 == 1 ==> w.k.s <= w.k.e && w.j.s == w.j.e
    ensures w.Shift(dk, dj, di).Volume() == |Gather(src, Coords(w))|
    ensures var r := UnpackX2(dst, w.Shift(dk, dj, di), Gather(src, Coords(w)), nx2);
      forall c :: c in Coords(w) ==> AddIdx(c, (dk, dj, di)) in r && r[AddIdx(c, (dk, dj, di))] == src[c]
  {
    var wb := w.Shift(dk, dj, di);
    PackThenUnpack(src, dst, w, dk, dj, di);
    CoordsFacts(w);
    FirstRowInWindow(wb);
    CoordsFacts(wb);
    ScatterThenGather(dst, Coords(wb), Gather(src, Coords(w)));
    if nx2 == 1 {
      RowReplicated(Scatter(dst, Coords(wb), Gather(src, Coords(w))), wb.k.s, wb.j.s, wb.i);
    }
  }

  /** x3f carried by `d`: the 1D/2D replication writes the plane just past the received
      window. */
  lemma ReceivedX3<V>(src: Field<V>, dst: Field<V>, w: Window, dk: int, dj: int, di: int, nx3: int)
    requires Covers(src, Coords(w))
    requires nx3 == 1 ==> w.k.s == w.k.e
    ensures w.Shift(dk, dj, di).Volume() == |Gather(src, Coords(w))|
    ensures var r := UnpackX3(dst, w.Shift(dk, dj, di), Gather(src, Coords(w)), nx3);
      forall c :: c in Coords(w) ==> AddIdx(c, (dk, dj, di)) in r && r[AddIdx(c, (dk, dj, di))] == src[c]
  {
    var wb := w.Shift(dk, dj, di);
    PackThenUnpack(src, dst, w, dk, dj, di);
    CoordsFacts(w);
    FirstPlaneInWindow(wb);
    CoordsFacts(wb);
    ScatterThenGather(dst, Coords(wb), Gather(src, Coords(w)));
    if nx3 == 1 {
      PlaneReplicated(Scatter(dst, Coords(wb), Gather(src, Coords(w))), wb.k.s, wb.j, wb.i);
    }
  }

  lemma ShiftKeepsVolume(w: Window, dk: int, dj: int, di: int)
    ensures w.Shift(dk, dj, di).Volume() == w.Volume()
  {
    var v := w.Shift(dk, dj, di);
    assert v.i.Len() == w.i.Len() && v.j.Len() == w.j.Len() && v.k.Len() == w.k.Len();
  }

  /** A buffer made of one stretch per component unpacks stretch by stretch. */
  lemma UnpackedSplit<V>(fc: FaceField<V>, ws: Windows, a: seq<V>, b: seq<V>, c: seq<V>, nx2: int, nx3: int)
    requires |a| == ws.w1.Volume() && |b| == ws.w2.Volume() && |c| == ws.w3.Volume()
    requires Replicable(ws, nx2, nx3)
    ensures |a + b + c| == ws.Volume()
    ensures Unpacked(fc, ws, a + b + c, nx2, nx3)
         == FaceField(Scatter(fc.x1f, Coords(ws.w1), a), UnpackX2(fc.x2f, ws.w2, b, nx2), UnpackX3(fc.x3f, ws.w3, c, nx3))
  {
    var vals, v1, v2 := a + b + c, |a|, |b|;
    assert vals[..v1] == a;
    assert vals[v1..v1 + v2] == b;
    assert vals[v1 + v2..|vals|] == c;
  }

  /** Unpacking a buffer holding the gathered windows `wa` into `wa` carried by `d`
      puts each sent value at its carried index. */
  lemma ShiftedUnpack<V>(fa: FaceField<V>, fb: FaceField<V>, wa: Windows, dk: int, dj: int, di: int, nx2: int, nx3: int)
    requires CoversWindows(fa, wa)
    requires Replicable(wa.Shift(dk, dj, di), nx2, nx3)
    requires nx2 == 1 ==> wa.w2.j.e == wa.w2.j.s
    requires nx3 == 1 ==> wa.w3.k.e == wa.w3.k.s
    ensures wa.Shift(dk, dj, di).Volume() == |Packed(fa, wa)|
    ensures var r, d := Unpacked(fb, wa.Shift(dk, dj, di), Packed(fa, wa), nx2, nx3), (dk, dj, di);
      && (forall c :: c in Coords(wa.w1) ==> AddIdx(c, d) in r.x1f && r.x1f[AddIdx(c, d)] == fa.x1f[c])
      && (forall c :: c in Coords(wa.w2) ==> AddIdx(c, d) in r.x2f && r.x2f[AddIdx(c, d)] == fa.x2f[c])
      && (forall c :: c in Coords(wa.w3) ==> AddIdx(c, d) in r.x3f && r.x3f[AddIdx(c, d)] == fa.x3f[c])
  {
    var wb := wa.Shift(dk, dj, di);
    assert wb.w1 == wa.w1.Shift(dk, dj, di) && wb.w2 == wa.w2.Shift(dk, dj, di) && wb.w3 == wa.w3.Shift(dk, dj, di);
    ShiftKeepsVolume(wa.w1, dk, dj, di);
    ShiftKeepsVolume(wa.w2, dk, dj, di);
    ShiftKeepsVolume(wa.w3, dk, dj, di);
    UnpackedSplit(fb, wb, Gather(fa.x1f, Coords(wa.w1)), Gather(fa.x2f, Coords(wa.w2)), Gather(fa.x3f, Coords(wa.w3)), nx2, nx3);
    PackThenUnpack(fa.x1f, fb.x1f, wa.w1, dk, dj, di);
    ReceivedX2(fa.x2f, fb.x2f, wa.w2, dk, dj, di, nx2);
    ReceivedX3(fa.x3f, fb.x3f, wa.w3, dk, dj, di, nx3);
  }

  /** Same-level exchange end to end: what block `a` packs for its neighbour in
      direction `ni`, unpacked by that neighbour `bb` (which sees `a` in the mirrored
      direction), lands in `bb`'s ghost faces at the sender's faces carried across the
      boundary, for every component. */
  lemma SameLevelExchange<V>(m: MeshConfig, a: Block, bb: Block, ni: NeighborIndexes, fa: FaceField<V>, fb: FaceField<V>)
    requires ValidBlock(m, a) && ValidBlock(m, bb) && ValidNeighbor(m, ni)
    requires a.nx1 == bb.nx1 && a.nx2 == bb.nx2 && a.nx3 == bb.nx3
    requires CoversWindows(fa, SameLevelPackWindows(m, a, ni))
    ensures var wa, wb := SameLevelPackWindows(m, a, ni), SameLevelUnpackWindows(m, bb, Mirror(ni));
      && Replicable(wb, bb.nx2, bb.nx3) && wb.Volume() == |Packed(fa, wa)|
      && var r := Unpacked(fb, wb, Packed(fa, wa), bb.nx2, bb.nx3);
         var d := (Across(ni.ox3, a.cells.klo, a.cells.khi, bb.cells.klo, bb.cells.khi),
                   Across(ni.ox2, a.cells.jlo, a.cells.jhi, bb.cells.jlo, bb.cells.jhi),
                   Across(ni.ox1, a.cells.ilo, a.cells.ihi, bb.cells.ilo, bb.cells.ihi));
         && (forall c :: c in Coords(wa.w1) ==> AddIdx(c, d) in r.x1f && r.x1f[AddIdx(c, d)] == fa.x1f[c])
         && (forall c :: c in Coords(wa.w2) ==> AddIdx(c, d) in r.x2f && r.x2f[AddIdx(c, d)] == fa.x2f[c])
         && (forall c :: c in Coords(wa.w3) ==> AddIdx(c, d) in r.x3f && r.x3f[AddIdx(c, d)] == fa.x3f[c])
  {
    SameLevelAlignment(m, a, bb, ni);
    WindowsReplicable(m, bb, Mirror(ni));
    var wa := SameLevelPackWindows(m, a, ni);
    ShiftedUnpack(fa, fb, wa,
      Across(ni.ox3, a.cells.klo, a.cells.khi, bb.cells.klo, bb.cells.khi),
      Across(ni.ox2, a.cells.jlo, a.cells.jhi, bb.cells.jlo, bb.cells.jhi),
      Across(ni.ox1, a.cells.ilo, a.cells.ihi, bb.cells.ilo, bb.cells.ihi), bb.nx2, bb.nx3);
  }

  /** The status of one boundary channel (`BoundaryStatus`). */
  datatype BoundaryStatus = Waiting | Arrived | Completed

  /** The communication phase ClearBoundary is called for (`BoundaryCommSubset`). */
  datatype CommSubset = MeshInit | GrAmr | All

  /** What the routines read from a `NeighborBlock`: its direction and buffer slot. */
  datatype NeighborBlock = NeighborBlock(ni: NeighborIndexes, bufid: int)

  /** The buffer slots of the neighbours. */
  function BufIds(nbs: seq<NeighborBlock>): set<int> {
    set n | 0 <= n < |nbs| :: nbs[n].bufid
  }

  /** The buffer slots of the face and edge neighbours, the ones with a flux
      correction channel. */
  function FluxBufIds(nbs: seq<NeighborBlock>): set<int> {
    set n | 0 <= n < |nbs| && (nbs[n].ni.ntype == Face || nbs[n].ni.ntype == Edge) :: nbs[n].bufid
  }

  lemma BufIdsSnoc(nbs: seq<NeighborBlock>, nb: NeighborBlock)
    ensures BufIds(nbs + [nb]) == BufIds(nbs) + {nb.bufid}
    ensures FluxBufIds(nbs + [nb]) == FluxBufIds(nbs) + (if nb.ni.ntype == Face || nb.ni.ntype == Edge then {nb.bufid} else {})
  {
    var s := nbs + [nb];
    assert s[|nbs|] == nb;
    assert forall n :: 0 <= n < |nbs| ==> s[n] == nbs[n];
  }

  /** x2f unpacked at the cursor and replicated along j in 1D. */
  method UnpackX2Data<V>(buf: array<V>, f: Field<V>, w: Window, p0: int, nx2: int) returns (x: Field<V>, p: int)
    requires Covers(f, Coords(w))
    requires 0 <= p0 && p0 + w.Volume() <= buf.Length
    requires nx2 == 1 ==> w.k.s <= w.k.e && w.j.s <= w.j.e
    ensures p == p0 + w.Volume()
    ensures x == UnpackX2(f, w, buf[p0..p], nx2)
  {
    FirstRowInWindow(w);
    CoordsFacts(w);
    x, p := UnpackData(buf, f, w, p0);
    ScatterThenGather(f, Coords(w), buf[p0..p]);
    if nx2 == 1 {
      x := ReplicateRow(x, w.k.s, w.j.s, w.i);
    }
  }

  /** x3f unpacked at the cursor and replicated along k in 1D/2D. */
  method UnpackX3Data<V>(buf: array<V>, f: Field<V>, w: Window, p0: int, nx3: int) returns (x: Field<V>, p: int)
    requires Covers(f, Coords(w))
    requires 0 <= p0 && p0 + w.Volume() <= buf.Length
    requires nx3 == 1 ==> w.k.s <= w.k.e
    ensures p == p0 + w.Volume()
    ensures x == UnpackX3(f, w, buf[p0..p], nx3)
  {
    FirstPlaneInWindow(w);
    CoordsFacts(w);
    x, p := UnpackData(buf, f, w, p0);
    ScatterThenGather(f, Coords(w), buf[p0..p]);
    if nx3 == 1 {
      x := ReplicatePlane(x, w.k.s, w.j, w.i);
    }
  }

  /** FaceCenteredBoundaryVariable of one MeshBlock: the face field it exchanges, its
      coarse buffer, and the per-neighbour flags of the variable and of its flux
      correction. */
  class FaceCenteredBoundaryVariable<V> {
    const m: MeshConfig
    const b: Block
    var varFc: FaceField<V>
    var coarseBuf: FaceField<V>
    const flag: array<BoundaryStatus>
    const sflag: array<BoundaryStatus>
    const flcorFlag: array<BoundaryStatus>
    const flcorSflag: array<BoundaryStatus>
    const edgeFlag: array<bool>
    const nedgeFine: array<int>

    /** The flag arrays are distinct, one slot per neighbour buffer, and there are
        twelve edges. */
    predicate Valid()
      reads this
    {
      && flag != sflag && flag != flcorFlag && flag != flcorSflag
      && sflag != flcorFlag && sflag != flcorSflag && flcorFlag != flcorSflag
      && edgeFlag.Length == 12 && nedgeFine.Length == 12
      && sflag.Length == flag.Length && flcorFlag.Length == flag.Length && flcorSflag.Length == flag.Length
    }

    constructor(m: MeshConfig, b: Block, fc: FaceField<V>, coarse: FaceField<V>, nbuf: nat)
      ensures Valid()
      ensures this.m == m && this.b == b && varFc == fc && coarseBuf == coarse
      ensures flag.Length == nbuf
      ensures forall n :: 0 <= n < nbuf ==> flag[n] == Waiting && sflag[n] == Waiting
      ensures forall n :: 0 <= n < nbuf ==> flcorFlag[n] == Waiting && flcorSflag[n] == Waiting
      ensures forall e :: 0 <= e < 12 ==> !edgeFlag[e] && nedgeFine[e] == 0
    {
      this.m, this.b := m, b;
      varFc, coarseBuf := fc, coarse;
      flag := new BoundaryStatus[nbuf](_ => Waiting);
      sflag := new BoundaryStatus[nbuf](_ => Waiting);
      flcorFlag := new BoundaryStatus[nbuf](_ => Waiting);
      flcorSflag := new BoundaryStatus[nbuf](_ => Waiting);
      edgeFlag := new bool[12](_ => false);
      nedgeFine := new int[12](_ => 0);
    }

    /** Packs x1f, x2f, x3f through the window set `ws` into `buf` from offset 0. */
    method PackFace(fc: FaceField<V>, buf: array<V>, ws: Windows) returns (p: int)
      requires CoversWindows(fc, ws) && ws.Volume() <= buf.Length
      modifies buf
      ensures p == ws.Volume()
      ensures buf[..p] == Packed(fc, ws)
      ensures forall n :: p <= n < buf.Length ==> buf[n] == old(buf[n])
    {
      var p1 := PackData(fc.x1f, buf, ws.w1, 0);
      ghost var s1 := buf[0..p1];
      var p2 := PackData(fc.x2f, buf, ws.w2, p1);
      assert buf[0..p1] == s1;
      ghost var s2 := buf[p1..p2];
      var p3 := PackData(fc.x3f, buf, ws.w3, p2);
      assert buf[0..p1] == s1 && buf[p1..p2] == s2;
      assert buf[..p3] == buf[0..p1] + buf[p1..p2] + buf[p2..p3];
      p := p3;
    }

    /** Unpacks x1f, x2f, x3f from `buf`, replicating x2f along j in 1D and x3f along k
        in 1D/2D, as every SetBoundary routine does. */
    method UnpackFace(buf: array<V>, fc: FaceField<V>, ws: Windows) returns (r: FaceField<V>)
      requires CoversWindows(fc, ws)
      requires ws.Volume() <= buf.Length && Replicable(ws, b.nx2, b.nx3)
      ensures r == Unpacked(fc, ws, buf[..], b.nx2, b.nx3)
    {
      var x1, p1 := UnpackData(buf, fc.x1f, ws.w1, 0);
      var x2, p2 := UnpackX2Data(buf, fc.x2f, ws.w2, p1, b.nx2);
      var x3, p3 := UnpackX3Data(buf, fc.x3f, ws.w3, p2, b.nx3);
      assert buf[..][..p1] == buf[0..p1];
      assert buf[..][p1..p2] == buf[p1..p2];
      assert buf[..][p2..p3] == buf[p2..p3];
      r := FaceField(x1, x2, x3);
    }

    /** Sends to a same-level neighbour: returns the message length, which is the
        size SameLevelSize announces. */
    method LoadBoundaryBufferSameLevel(buf: array<V>, nb: NeighborBlock) returns (p: int)
      requires ValidBlock(m, b) && ValidNeighbor(m, nb.ni)
      requires buf.Length >= ComputeVariableBufferSize(m, b, nb.ni, b.cnghost)
      requires CoversWindows(varFc, SameLevelPackWindows(m, b, nb.ni))
      modifies buf
      ensures 0 <= p == SameLevelSize(m, b, nb.ni) <= buf.Length
      ensures buf[..p] == Packed(varFc, SameLevelPackWindows(m, b, nb.ni))
      ensures forall n :: p <= n < buf.Length ==> buf[n] == old(buf[n])
    {
      SameLevelPackVolume(m, b, nb.ni);
      var ws := SameLevelPackWindows(m, b, nb.ni);
      p := PackFace(varFc, buf, ws);
    }

    /** Sends to a coarser neighbour: restricts into the coarse buffer over the coarse
        windows, replicates the degenerate axes, and packs the coarse buffer. */
    method LoadBoundaryBufferToCoarser(buf: array<V>, nb: NeighborBlock, restrict: (int, Field<V>, Idx) -> V)
      returns (p: int)
      requires ValidBlock(m, b) && ValidNeighbor(m, nb.ni) && m.multilevel && GhostsFit(m, b)
      requires buf.Length >= ComputeVariableBufferSize(m, b, nb.ni, b.cnghost)
      requires HoldsCoarse(b, coarseBuf)
      modifies this, buf
      ensures Replicable(ToCoarserPackWindows(m, b, nb.ni), b.nx2, b.nx3)
      ensures coarseBuf == RestrictedCoarse(old(coarseBuf), old(varFc), ToCoarserPackWindows(m, b, nb.ni), b.nx2, b.nx3, restrict)
      ensures varFc == old(varFc)
      ensures coarseBuf.x1f.Keys == old(coarseBuf.x1f.Keys) && coarseBuf.x2f.Keys == old(coarseBuf.x2f.Keys)
           && coarseBuf.x3f.Keys == old(coarseBuf.x3f.Keys)
      ensures 0 <= p == FineToCoarseSize(m, b, nb.ni) <= buf.Length
      ensures CoversWindows(coarseBuf, ToCoarserPackWindows(m, b, nb.ni))
      ensures buf[..p] == Packed(coarseBuf, ToCoarserPackWindows(m, b, nb.ni))
      ensures forall n :: p <= n < buf.Length ==> buf[n] == old(buf[n])
    {
      var ws := ToCoarserPackWindows(m, b, nb.ni);
      ToCoarserPackVolume(m, b, nb.ni);
      WindowsReplicable(m, b, nb.ni);
      FirstRowInWindow(ws.w2);
      FirstPlaneInWindow(ws.w3);
      var x1 := Restricted(coarseBuf.x1f, varFc.x1f, ws.w1, (f, c) => restrict(1, f, c));
      var x2 := Restricted(coarseBuf.x2f, varFc.x2f, ws.w2, (f, c) => restrict(2, f, c));
      if b.nx2 == 1 {
        x2 := ReplicateRow(x2, ws.w2.k.s, ws.w2.j.s, ws.w2.i);
      }
      var x3 := Restricted(coarseBuf.x3f, varFc.x3f, ws.w3, (f, c) => restrict(3, f, c));
      if b.nx3 == 1 {
        x3 := ReplicatePlane(x3, ws.w3.k.s, ws.w3.j, ws.w3.i);
      }
      ToCoarserPackFits(m, b, nb.ni);
      RestrictedCoarseKeys(coarseBuf, varFc, ws, b.nx2, b.nx3, restrict, CoarseBox(b, 1), CoarseBox(b, 2), CoarseBox(b, 3));
      coarseBuf := FaceField(x1, x2, x3);
      p := PackFace(coarseBuf, buf, ws);
    }

    /** Sends to a finer neighbour: packs this block's faces over the half-block
        windows the fine neighbour needs. */
    method LoadBoundaryBufferToFiner(buf: array<V>, nb: NeighborBlock) returns (p: int)
      requires ValidRefinedBlock(m, b) && ValidNeighbor(m, nb.ni) && m.multilevel
      requires buf.Length >= ComputeVariableBufferSize(m, b, nb.ni, b.cnghost)
      requires CoversWindows(varFc, ToFinerPackWindows(b, nb.ni))
      modifies buf
      ensures 0 <= p == CoarseToFineSize(m, b, nb.ni, b.cnghost) <= buf.Length
      ensures buf[..p] == Packed(varFc, ToFinerPackWindows(b, nb.ni))
      ensures forall n :: p <= n < buf.Length ==> buf[n] == old(buf[n])
    {
      ToFinerPackVolume(m, b, nb.ni);
      p := PackFace(varFc, buf, ToFinerPackWindows(b, nb.ni));
    }

    /** Receives from a same-level neighbour into this block's ghost faces. */
    method SetBoundarySameLevel(buf: array<V>, nb: NeighborBlock)
      requires ValidBlock(m, b) && ValidNeighbor(m, nb.ni)
      requires buf.Length >= ComputeVariableBufferSize(m, b, nb.ni, b.cnghost)
      requires HoldsFine(m, b, varFc)
      modifies this
      ensures Replicable(SameLevelUnpackWindows(m, b, nb.ni), b.nx2, b.nx3) && SameLevelUnpackWindows(m, b, nb.ni).Volume() <= buf.Length
      ensures varFc == Unpacked(old(varFc), SameLevelUnpackWindows(m, b, nb.ni), buf[..], b.nx2, b.nx3)
      ensures varFc.x1f.Keys == old(varFc.x1f.Keys) && varFc.x2f.Keys == old(varFc.x2f.Keys)
           && varFc.x3f.Keys == old(varFc.x3f.Keys)
      ensures coarseBuf == old(coarseBuf)
    {
      var ws := SameLevelUnpackWindows(m, b, nb.ni);
      SameLevelUnpackVolume(m, b, nb.ni);
      WindowsReplicable(m, b, nb.ni);
      SameLevelUnpackFits(m, b, nb.ni);
      HeldCovers(varFc, ws, FineBox(m, b, 1), FineBox(m, b, 2), FineBox(m, b, 3));
      UnpackedKeys(varFc, ws, buf[..], b.nx2, b.nx3, FineBox(m, b, 1), FineBox(m, b, 2), FineBox(m, b, 3));
      varFc := UnpackFace(buf, varFc, ws);
    }

    /** Receives from a coarser neighbour into the coarse buffer, which prolongation
        then reads. */
    method SetBoundaryFromCoarser(buf: array<V>, nb: NeighborBlock)
      requires ValidBlock(m, b) && ValidNeighbor(m, nb.ni) && m.multilevel
      requires buf.Length >= ComputeVariableBufferSize(m, b, nb.ni, b.cnghost)
      requires HoldsCoarse(b, coarseBuf)
      modifies this
      ensures Replicable(FromCoarserUnpackWindows(b, nb.ni), b.nx2, b.nx3) && FromCoarserUnpackWindows(b, nb.ni).Volume() <= buf.Length
      ensures coarseBuf == Unpacked(old(coarseBuf), FromCoarserUnpackWindows(b, nb.ni), buf[..], b.nx2, b.nx3)
      ensures coarseBuf.x1f.Keys == old(coarseBuf.x1f.Keys) && coarseBuf.x2f.Keys == old(coarseBuf.x2f.Keys)
           && coarseBuf.x3f.Keys == old(coarseBuf.x3f.Keys)
      ensures varFc == old(varFc)
    {
      var ws := FromCoarserUnpackWindows(b, nb.ni);
      FromCoarserUnpackVolume(m, b, nb.ni);
      WindowsReplicable(m, b, nb.ni);
      FromCoarserUnpackFits(m, b, nb.ni);
      HeldCovers(coarseBuf, ws, CoarseBox(b, 1), CoarseBox(b, 2), CoarseBox(b, 3));
      UnpackedKeys(coarseBuf, ws, buf[..], b.nx2, b.nx3, CoarseBox(b, 1), CoarseBox(b, 2), CoarseBox(b, 3));
      coarseBuf := UnpackFace(buf, coarseBuf, ws);
    }

    /** Receives restricted faces from a finer neighbour into the quarter (or half) of
        the ghost zone it covers. */
    method SetBoundaryFromFiner(buf: array<V>, nb: NeighborBlock)
      requires ValidRefinedBlock(m, b) && ValidNeighbor(m, nb.ni) && m.multilevel
      requires buf.Length >= ComputeVariableBufferSize(m, b, nb.ni, b.cnghost)
      requires HoldsFine(m, b, varFc)
      modifies this
      ensures Replicable(FromFinerUnpackWindows(m, b, nb.ni), b.nx2, b.nx3) && FromFinerUnpackWindows(m, b, nb.ni).Volume() <= buf.Length
      ensures varFc == Unpacked(old(varFc), FromFinerUnpackWindows(m, b, nb.ni), buf[..], b.nx2, b.nx3)
      ensures varFc.x1f.Keys == old(varFc.x1f.Keys) && varFc.x2f.Keys == old(varFc.x2f.Keys)
           && varFc.x3f.Keys == old(varFc.x3f.Keys)
      ensures coarseBuf == old(coarseBuf)
    {
      var ws := FromFinerUnpackWindows(m, b, nb.ni);
      FromFinerFits(m, b, nb.ni, buf.Length);
      FromFinerUnpackFits(m, b, nb.ni);
      HeldCovers(varFc, ws, FineBox(m, b, 1), FineBox(m, b, 2), FineBox(m, b, 3));
      UnpackedKeys(varFc, ws, buf[..], b.nx2, b.nx3, FineBox(m, b, 1), FineBox(m, b, 2), FineBox(m, b, 3));
      varFc := UnpackFace(buf, varFc, ws);
    }

    /** One `for ox_b: for ox_a:` nest of CountFineEdges: the four edges of family `g`,
        written at `eid0 .. eid0+3`. */
    method ScanFamily(nb: Levels, mylevel: int, g: int, eid0: int) returns (eid: int)
      requires Valid() && ValidLevels(nb) && 0 <= g <= 2 && 0 <= eid0 && eid0 + 4 <= 12
      modifies edgeFlag, nedgeFine
      ensures eid == eid0 + 4
      ensures forall e :: eid0 <= e < eid ==> FamilyEdgeWritten(edgeFlag[..], nedgeFine[..], nb, mylevel, g, eid0, e)
      ensures forall e :: 0 <= e < 12 && !(eid0 <= e < eid) ==>
        edgeFlag[e] == old(edgeFlag[e]) && nedgeFine[e] == old(nedgeFine[e])
    {
      eid := eid0;
      var ob := -1;
      while ob <= 1
        invariant ob == -1 || ob == 1 || ob == 3
        invariant eid == eid0 + ob + 1
        invariant forall e :: eid0 <= e < eid ==> FamilyEdgeWritten(edgeFlag[..], nedgeFine[..], nb, mylevel, g, eid0, e)
        invariant forall e :: 0 <= e < 12 && !(eid0 <= e < eid) ==>
          edgeFlag[e] == old(edgeFlag[e]) && nedgeFine[e] == old(nedgeFine[e])
      {
        var oa := -1;
        while oa <= 1
          invariant oa == -1 || oa == 1 || oa == 3
          invariant eid == eid0 + ob + 1 + (oa + 1) / 2
          invariant forall e :: eid0 <= e < eid ==> FamilyEdgeWritten(edgeFlag[..], nedgeFine[..], nb, mylevel, g, eid0, e)
          invariant forall e :: 0 <= e < 12 && !(eid0 <= e < eid) ==>
            edgeFlag[e] == old(edgeFlag[e]) && nedgeFine[e] == old(nedgeFine[e])
        {
          var fl, nf := ScanEdge(nb, mylevel, g, ob, oa);
          assert Sign((eid - eid0) / 2) == ob && Sign((eid - eid0) % 2) == oa;
          ghost var f0, c0 := edgeFlag[..], nedgeFine[..];
          edgeFlag[eid] := fl == mylevel;
          nedgeFine[eid] := nf;
          assert edgeFlag[..] == f0[eid := fl == mylevel] && nedgeFine[..] == c0[eid := nf];
          forall e | eid0 <= e <= eid
            ensures FamilyEdgeWritten(edgeFlag[..], nedgeFine[..], nb, mylevel, g, eid0, e)
          {
            if e < eid {
              assert FamilyEdgeWritten(f0, c0, nb, mylevel, g, eid0, e);
            }
          }
          eid := eid + 1;
          oa := oa + 2;
        }
        ob := ob + 2;
      }
    }

    /** CountFineEdges: for each edge, whether no neighbour around it is finer
        (`edge_flag_`) and how many neighbours share the finest level (`nedge_fine_`);
        the four x1-x2 edges when nx2 > 1, then the eight others when nx3 > 1. */
    method CountFineEdges(nb: Levels, mylevel: int)
      requires Valid() && ValidLevels(nb)
      modifies edgeFlag, nedgeFine
      ensures forall e :: 0 <= e < EdgeCount(b.nx2, b.nx3) ==>
        EdgeCounted(edgeFlag[..], nedgeFine[..], nb, mylevel, b.nx2, b.nx3, e)
      ensures forall e :: EdgeCount(b.nx2, b.nx3) <= e < 12 ==>
        edgeFlag[e] == old(edgeFlag[e]) && nedgeFine[e] == old(nedgeFine[e])
    {
      var eid := 0;
      if b.nx2 > 1 {
        eid := ScanFamily(nb, mylevel, 0, eid);
      }
      ghost var base := eid;
      ghost var f1, c1 := edgeFlag[..], nedgeFine[..];
      if b.nx3 > 1 {
        eid := ScanFamily(nb, mylevel, 1, eid);
        ghost var f2, c2 := edgeFlag[..], nedgeFine[..];
        eid := ScanFamily(nb, mylevel, 2, eid);
        forall e | base <= e < base + 4
          ensures FamilyEdgeWritten(edgeFlag[..], nedgeFine[..], nb, mylevel, 1, base, e)
        {
          assert FamilyEdgeWritten(f2, c2, nb, mylevel, 1, base, e);
        }
      }
      forall e | 0 <= e < base
        ensures FamilyEdgeWritten(edgeFlag[..], nedgeFine[..], nb, mylevel, 0, 0, e)
      {
        assert FamilyEdgeWritten(f1, c1, nb, mylevel, 0, 0, e);
      }
      FamiliesCounted(edgeFlag[..], nedgeFine[..], nb, mylevel, b.nx2, b.nx3);
    }

    /** ClearBoundary: every neighbour's send and receive flags go back to waiting, and
        so do the flux-correction flags of face and edge neighbours when the whole
        exchange (`all`) is being reset; no other flag changes. */
    method ClearBoundary(phase: CommSubset, neighbors: seq<NeighborBlock>)
      requires Valid()
      requires forall n :: 0 <= n < |neighbors| ==> 0 <= neighbors[n].bufid < flag.Length
      modifies flag, sflag, flcorFlag, flcorSflag
      ensures forall x :: 0 <= x < flag.Length ==>
        && flag[x] == (if x in BufIds(neighbors) then Waiting else old(flag[x]))
        && sflag[x] == (if x in BufIds(neighbors) then Waiting else old(sflag[x]))
      ensures forall x :: 0 <= x < flag.Length ==>
        && flcorFlag[x] == (if phase == All && x in FluxBufIds(neighbors) then Waiting else old(flcorFlag[x]))
        && flcorSflag[x] == (if phase == All && x in FluxBufIds(neighbors) then Waiting else old(flcorSflag[x]))
    {
      var n := 0;
      while n < |neighbors|
        invariant 0 <= n <= |neighbors|
        invariant forall x :: 0 <= x < flag.Length ==>
          && flag[x] == (if x in BufIds(neighbors[..n]) then Waiting else old(flag[x]))
          && sflag[x] == (if x in BufIds(neighbors[..n]) then Waiting else old(sflag[x]))
        invariant forall x :: 0 <= x < flag.Length ==>
          && flcorFlag[x] == (if phase == All && x in FluxBufIds(neighbors[..n]) then Waiting else old(flcorFlag[x]))
          && flcorSflag[x] == (if phase == All && x in FluxBufIds(neighbors[..n]) then Waiting else old(flcorSflag[x]))
      {
        var nb := neighbors[n];
        assert neighbors[..n + 1] == neighbors[..n] + [nb];
        BufIdsSnoc(neighbors[..n], nb);
        flag[nb.bufid] := Waiting;
        sflag[nb.bufid] := Waiting;
        if (nb.ni.ntype == Face || nb.ni.ntype == Edge) && phase == All {
          flcorFlag[nb.bufid] := Waiting;
          flcorSflag[nb.bufid] := Waiting;
        }
        n := n + 1;
      }
      assert neighbors[..n] == neighbors;
    }
  }
}
