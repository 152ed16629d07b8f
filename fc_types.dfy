/** Shared vocabulary of the face-centred boundary code: inclusive index ranges,
    three-axis windows, neighbour descriptors and the block's interior bounds. */
module FcTypes {

  /** An inclusive index range `[s, e]`, the form every pack/unpack loop uses. */
  datatype Range = Range(s: int, e: int) {
    /** Number of indices the loop `for (x = s; x <= e; x++)` visits. */
    function Len(): nat { if e >= s then e - s + 1 else 0 }
    predicate Has(x: int) { s <= x <= e }
    function Shift(d: int): Range { Range(s + d, e + d) }
  }

  /** The six loop bounds `si, ei, sj, ej, sk, ek` handed to PackData/UnpackData. */
  datatype Window = Window(i: Range, j: Range, k: Range) {
    function Volume(): nat { i.Len() * j.Len() * k.Len() }
    predicate Has(kk: int, jj: int, ii: int) { k.Has(kk) && j.Has(jj) && i.Has(ii) }
    function Shift(dk: int, dj: int, di: int): Window { Window(i.Shift(di), j.Shift(dj), k.Shift(dk)) }
  }

  datatype ConnectType = Face | Edge | Corner

  /** NeighborIndexes: offset in {-1,0,1}^3, fine sub-indices and connection type. */
  datatype NeighborIndexes = NeighborIndexes(ox1: int, ox2: int, ox3: int, fi1: int, fi2: int, ntype: ConnectType)

  /** Interior index bounds of an IndexShape (`is(interior)` ... `ke(interior)`, as lo/hi pairs). */
  datatype Bounds = Bounds(ilo: int, ihi: int, jlo: int, jhi: int, klo: int, khi: int)

  /** Mesh-wide parameters: dimensionality, the `multilevel` flag and `NGHOST`. */
  datatype MeshConfig = MeshConfig(ndim: int, multilevel: bool, nghost: int)

  /** What the boundary code reads from its MeshBlock: cell counts, fine and coarse
      interior bounds, `cnghost` and the logical location. */
  datatype Block = Block(nx1: int, nx2: int, nx3: int, cells: Bounds, coarse: Bounds,
                         cnghost: int, lx1: int, lx2: int, lx3: int)

  /** Extra faces from being 2D/3D (`f2`, `f3`). */
  function F2(m: MeshConfig): int { if m.ndim >= 2 then 1 else 0 }
  function F3(m: MeshConfig): int { if m.ndim >= 3 then 1 else 0 }

  predicate ValidMesh(m: MeshConfig) { 1 <= m.ndim <= 3 && m.nghost >= 1 }

  predicate ValidBlock(m: MeshConfig, b: Block) {
    && ValidMesh(m)
    && b.nx1 >= 1 && b.nx2 >= 1 && b.nx3 >= 1
    && (b.nx2 > 1 <==> m.ndim >= 2)
    && (b.nx3 > 1 <==> m.ndim >= 3)
    && b.cells.ihi == b.cells.ilo + b.nx1 - 1
    && b.cells.jhi == b.cells.jlo + b.nx2 - 1
    && b.cells.khi == b.cells.klo + b.nx3 - 1
    && b.coarse.ihi == b.coarse.ilo + (b.nx1 + 1) / 2 - 1
    && b.coarse.jhi == b.coarse.jlo + (b.nx2 + 1) / 2 - 1
    && b.coarse.khi == b.coarse.klo + (b.nx3 + 1) / 2 - 1
    && b.cnghost >= 1
  }

  /** Under mesh refinement every active axis has an even cell count. */
  predicate ValidRefinedBlock(m: MeshConfig, b: Block) {
    && ValidBlock(m, b)
    && b.nx1 % 2 == 0
    && (m.ndim >= 2 ==> b.nx2 % 2 == 0)
    && (m.ndim >= 3 ==> b.nx3 % 2 == 0)
  }

  /** Along an active axis of `nx` cells: the `nghost` coarse cells the to-coarser
      pack reads next to the boundary lie within the coarse interior and its `cnghost`
      ghosts, and the `cnghost` margin of the to-finer pack lies within half the block
      and its `nghost` ghosts. */
  predicate AxisGhostsFit(ng: int, cng: int, nx: int) {
    ng <= (nx + 1) / 2 + cng && cng <= nx / 2 + ng
  }

  /** The ghost widths suit the block on every active axis. */
  predicate GhostsFit(m: MeshConfig, b: Block) {
    && AxisGhostsFit(m.nghost, b.cnghost, b.nx1)
    && (b.nx2 > 1 ==> AxisGhostsFit(m.nghost, b.cnghost, b.nx2))
    && (b.nx3 > 1 ==> AxisGhostsFit(m.nghost, b.cnghost, b.nx3))
  }

  function Abs(x: int): nat { if x < 0 then -x else x }

  function NonzeroCount(ni: NeighborIndexes): nat {
    (if ni.ox1 != 0 then 1 else 0) + (if ni.ox2 != 0 then 1 else 0) + (if ni.ox3 != 0 then 1 else 0)
  }

  predicate ValidNeighbor(m: MeshConfig, ni: NeighborIndexes) {
    && -1 <= ni.ox1 <= 1 && -1 <= ni.ox2 <= 1 && -1 <= ni.ox3 <= 1
    && NonzeroCount(ni) >= 1
    && (ni.ox2 != 0 ==> m.ndim >= 2)
    && (ni.ox3 != 0 ==> m.ndim >= 3)
    && (ni.ntype == Face <==> NonzeroCount(ni) == 1)
    && (ni.ntype == Edge <==> NonzeroCount(ni) == 2)
    && (ni.ntype == Corner <==> NonzeroCount(ni) == 3)
    && 0 <= ni.fi1 <= 1 && 0 <= ni.fi2 <= 1
  }

  /** How the neighbour in direction `ni` sees this block: the opposite offset. */
  function Mirror(ni: NeighborIndexes): NeighborIndexes {
    ni.(ox1 := -ni.ox1, ox2 := -ni.ox2, ox3 := -ni.ox3)
  }
}
