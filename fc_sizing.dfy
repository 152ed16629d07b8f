/** Buffer sizing of the face-centred boundary variable: the message sizes for the
    three refinement relationships, their maximum, the flux-correction buffer size and
    the send/receive size selection of the persistent channels. */
module FcSizing {
  import opened FcTypes

  /** `(o == 0) ? whenZero : whenNonzero`, the factor shape every size term uses. */
  function Pick(o: int, whenZero: int, whenNonzero: int): int {
    if o == 0 then whenZero else whenNonzero
  }

  /** The three face-array sizes `size1, size2, size3` before any widening. */
  function Size1(m: MeshConfig, b: Block, ni: NeighborIndexes): int {
    Pick(ni.ox1, b.nx1 + 1, m.nghost) * Pick(ni.ox2, b.nx2, m.nghost) * Pick(ni.ox3, b.nx3, m.nghost)
  }
  function Size2(m: MeshConfig, b: Block, ni: NeighborIndexes): int {
    Pick(ni.ox1, b.nx1, m.nghost) * Pick(ni.ox2, b.nx2 + F2(m), m.nghost) * Pick(ni.ox3, b.nx3, m.nghost)
  }
  function Size3(m: MeshConfig, b: Block, ni: NeighborIndexes): int {
    Pick(ni.ox1, b.nx1, m.nghost) * Pick(ni.ox2, b.nx2, m.nghost) * Pick(ni.ox3, b.nx3 + F3(m), m.nghost)
  }

  /** `size = size/NGHOST*(NGHOST + 1)` when the axis offset is nonzero and the
      neighbour is an edge or corner. */
  function Widen(m: MeshConfig, ni: NeighborIndexes, o: int, size: int): int
    requires m.nghost >= 1
  {
    if ni.ntype != Face && o != 0 then size / m.nghost * (m.nghost + 1) else size
  }

  /** Same-level message size: `size1 + size2 + size3`, widened under multilevel. */
  function SameLevelSize(m: MeshConfig, b: Block, ni: NeighborIndexes): int
    requires m.nghost >= 1
  {
    if m.multilevel then
      Widen(m, ni, ni.ox1, Size1(m, b, ni)) + Widen(m, ni, ni.ox2, Size2(m, b, ni))
        + Widen(m, ni, ni.ox3, Size3(m, b, ni))
    else Size1(m, b, ni) + Size2(m, b, ni) + Size3(m, b, ni)
  }

  /** `fsize`: the restricted (fine-to-coarse) message, `f2c1 + f2c2 + f2c3`. */
  function FineToCoarseSize(m: MeshConfig, b: Block, ni: NeighborIndexes): int
    requires m.nghost >= 1
  {
    var ng := m.nghost;
    var h1, h2, h3 := (b.nx1 + 1) / 2, (b.nx2 + 1) / 2, (b.nx3 + 1) / 2;
    var f2c1 := Pick(ni.ox1, h1 + 1, ng) * Pick(ni.ox2, h2, ng) * Pick(ni.ox3, h3, ng);
    var f2c2 := Pick(ni.ox1, h1, ng) * Pick(ni.ox2, h2 + F2(m), ng) * Pick(ni.ox3, h3, ng);
    var f2c3 := Pick(ni.ox1, h1, ng) * Pick(ni.ox2, h2, ng) * Pick(ni.ox3, h3 + F3(m), ng);
    Widen(m, ni, ni.ox1, f2c1) + Widen(m, ni, ni.ox2, f2c2) + Widen(m, ni, ni.ox3, f2c3)
  }

  /** `csize`: the coarse-to-fine message with `cng` ghost margin, `c2f1 + c2f2 + c2f3`. */
  function CoarseToFineSize(m: MeshConfig, b: Block, ni: NeighborIndexes, cng: int): int {
    var cng1, cng2, cng3 := cng, cng * F2(m), cng * F3(m);
    var h1, h2, h3 := (b.nx1 + 1) / 2, (b.nx2 + 1) / 2, (b.nx3 + 1) / 2;
    var c2f1 := Pick(ni.ox1, h1 + cng1 + 1, cng + 1) * Pick(ni.ox2, h2 + cng2, cng) * Pick(ni.ox3, h3 + cng3, cng);
    var c2f2 := Pick(ni.ox1, h1 + cng1, cng) * Pick(ni.ox2, h2 + cng2 + F2(m), cng + 1) * Pick(ni.ox3, h3 + cng3, cng);
    var c2f3 := Pick(ni.ox1, h1 + cng1, cng) * Pick(ni.ox2, h2 + cng2, cng) * Pick(ni.ox3, h3 + cng3 + F3(m), cng + 1);
    c2f1 + c2f2 + c2f3
  }

  function Max(a: int, b: int): int { if a >= b then a else b }

  /** ComputeVariableBufferSize: one buffer serves every refinement relationship. */
  function ComputeVariableBufferSize(m: MeshConfig, b: Block, ni: NeighborIndexes, cng: int): (r: int)
    requires m.nghost >= 1
    ensures r >= SameLevelSize(m, b, ni)
    ensures m.multilevel ==> r >= FineToCoarseSize(m, b, ni) && r >= CoarseToFineSize(m, b, ni, cng)
    ensures !m.multilevel ==> r == Size1(m, b, ni) + Size2(m, b, ni) + Size3(m, b, ni)
  {
    var size := SameLevelSize(m, b, ni);
    if m.multilevel then Max(size, Max(CoarseToFineSize(m, b, ni, cng), FineToCoarseSize(m, b, ni)))
    else size
  }

  /** ComputeFluxCorrectionBufferSize, branch for branch. */
  function ComputeFluxCorrectionBufferSize(b: Block, ni: NeighborIndexes): (r: int)
    requires b.nx1 >= 1 && b.nx2 >= 1 && b.nx3 >= 1
    ensures r >= 0
    ensures ni.ntype == Corner ==> r == 0
    ensures ni.ntype == Face && b.nx2 == 1 && b.nx3 == 1 ==> r == 2
    ensures ni.ntype == Edge && b.nx2 > 1 && b.nx3 == 1 ==> r == 1
    ensures ni.ntype == Edge && b.nx2 == 1 && b.nx3 == 1 ==> r == 0
  {
    var nx1, nx2, nx3 := b.nx1, b.nx2, b.nx3;
    match ni.ntype
    case Face =>
      if nx3 > 1 then
        if ni.ox1 != 0 then (nx2 + 1) * nx3 + nx2 * (nx3 + 1)
        else if ni.ox2 != 0 then (nx1 + 1) * nx3 + nx1 * (nx3 + 1)
        else (nx1 + 1) * nx2 + nx1 * (nx2 + 1)
      else if nx2 > 1 then
        if ni.ox1 != 0 then (nx2 + 1) + nx2 else (nx1 + 1) + nx1
      else 2
    case Edge =>
      // the three `if`s of the source run in order, so the last one that holds wins
      if nx3 > 1 then
        if ni.ox1 == 0 then nx1 else if ni.ox2 == 0 then nx2 else if ni.ox3 == 0 then nx3 else 0
      else if nx2 > 1 then 1
      else 0
    case Corner => 0
  }

  // ---- an independent reading of the flux-correction size ----

  function Nx(b: Block, axis: int): int {
    if axis == 1 then b.nx1 else if axis == 2 then b.nx2 else b.nx3
  }

  /** Extent along `axis` of the face array of component `c`: one extra face on its own
      axis when that axis is active (x1 always is). */
  function FaceExtent(b: Block, c: int, axis: int): int {
    Nx(b, axis) + (if axis == c && (axis == 1 || Nx(b, axis) > 1) then 1 else 0)
  }

  /** Number of component-`c` faces lying in a boundary plane normal to `normal`. */
  function FacesInPlane(b: Block, c: int, normal: int): int {
    if normal == 1 then FaceExtent(b, c, 2) * FaceExtent(b, c, 3)
    else if normal == 2 then FaceExtent(b, c, 1) * FaceExtent(b, c, 3)
    else FaceExtent(b, c, 1) * FaceExtent(b, c, 2)
  }

  function NormalAxis(ni: NeighborIndexes): int {
    if ni.ox1 != 0 then 1 else if ni.ox2 != 0 then 2 else 3
  }

  function EdgeAxis(ni: NeighborIndexes): int {
    if ni.ox1 == 0 then 1 else if ni.ox2 == 0 then 2 else 3
  }

  /** What crosses a shared face, edge or corner: the two tangential face components on
      a face, the cells along the edge on an edge, nothing at a corner. */
  function FluxCorrectionReference(b: Block, ni: NeighborIndexes): int {
    match ni.ntype
    case Face =>
      var n := NormalAxis(ni);
      (if n == 1 then 0 else FacesInPlane(b, 1, n)) + (if n == 2 then 0 else FacesInPlane(b, 2, n))
        + (if n == 3 then 0 else FacesInPlane(b, 3, n))
    case Edge => Nx(b, EdgeAxis(ni))
    case Corner => 0
  }

  lemma FluxCorrectionMatchesReference(m: MeshConfig, b: Block, ni: NeighborIndexes)
    requires ValidBlock(m, b) && ValidNeighbor(m, ni)
    ensures ComputeFluxCorrectionBufferSize(b, ni) == FluxCorrectionReference(b, ni)
  {
    match ni.ntype
    case Face =>
      if b.nx3 > 1 {
        assert FaceExtent(b, 2, 2) == b.nx2 + 1 && FaceExtent(b, 3, 3) == b.nx3 + 1;
      } else if b.nx2 > 1 {
        assert FaceExtent(b, 3, 3) == 1 && FaceExtent(b, 2, 2) == b.nx2 + 1;
      } else {
        assert NormalAxis(ni) == 1;
        assert FaceExtent(b, 2, 2) == 1 && FaceExtent(b, 3, 3) == 1;
      }
    case Edge =>
    case Corner =>
  }

  // ---- size selection in SetupPersistentMPI ----

  /** `(ssize, rsize)` for a neighbour at level `nblevel` seen from `mylevel`. */
  function SelectMessageSizes(nblevel: int, mylevel: int, size: int, csize: int, fsize: int): (int, int) {
    if nblevel == mylevel then (size, size)
    else if nblevel < mylevel then (fsize, csize)
    else (csize, fsize)
  }

  /** Exchanging the two levels exchanges the two sizes: what this block sends is what
      the neighbour, seeing this block from the other level, expects to receive, and
      the other way round. */
  lemma SelectionSwapsWithLevels(nblevel: int, mylevel: int, size: int, csize: int, fsize: int)
    ensures SelectMessageSizes(nblevel, mylevel, size, csize, fsize).0
         == SelectMessageSizes(mylevel, nblevel, size, csize, fsize).1
    ensures SelectMessageSizes(nblevel, mylevel, size, csize, fsize).1
         == SelectMessageSizes(mylevel, nblevel, size, csize, fsize).0
  {
  }

  /** The sizes of the persistent channels of block `b` toward neighbour `ni`, with
      `cng = cnghost` as SetupPersistentMPI uses. */
  function ChannelSizes(m: MeshConfig, b: Block, ni: NeighborIndexes, nblevel: int, mylevel: int): (int, int)
    requires m.nghost >= 1
  {
    SelectMessageSizes(nblevel, mylevel, SameLevelSize(m, b, ni), CoarseToFineSize(m, b, ni, b.cnghost),
                       FineToCoarseSize(m, b, ni))
  }

  /** Every size depends on the offsets only through which of them are zero. */
  lemma {:induction false} SizesMirrorSymmetric(m: MeshConfig, b: Block, ni: NeighborIndexes, cng: int)
    requires m.nghost >= 1
    ensures SameLevelSize(m, b, Mirror(ni)) == SameLevelSize(m, b, ni)
    ensures FineToCoarseSize(m, b, Mirror(ni)) == FineToCoarseSize(m, b, ni)
    ensures CoarseToFineSize(m, b, Mirror(ni), cng) == CoarseToFineSize(m, b, ni, cng)
  {
  }

  /** Two blocks of the same shape, each the other's neighbour: what one channel
      sends is what the matching channel on the other side expects. */
  lemma ChannelSizesAgree(m: MeshConfig, a: Block, bb: Block, ni: NeighborIndexes, levelA: int, levelB: int)
    requires m.nghost >= 1
    requires a.nx1 == bb.nx1 && a.nx2 == bb.nx2 && a.nx3 == bb.nx3 && a.cnghost == bb.cnghost
    ensures ChannelSizes(m, a, ni, levelB, levelA).0 == ChannelSizes(m, bb, Mirror(ni), levelA, levelB).1
    ensures ChannelSizes(m, a, ni, levelB, levelA).1 == ChannelSizes(m, bb, Mirror(ni), levelA, levelB).0
  {
    SizesMirrorSymmetric(m, bb, ni, bb.cnghost);
  }
}
