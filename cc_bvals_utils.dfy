/** The cell-centred boundary-cache helpers: the channel keys, the filtered traversal
    of every (block, variable, neighbour) boundary of a MeshData, and the buffer cache
    built, checked and rebuilt from that traversal. */
module CcBoundary {

  /** What a traversal callback tells ForEachBoundary (`LoopControl`). */
  datatype LoopControl = Cont | BreakOut

  /** Which boundaries a traversal visits (`BoundaryType`). */
  datatype BoundaryType = Any | Local | Nonlocal | FlxcorSend | FlxcorRecv

  /** What the traversal reads from a MeshBlock: its global id and refinement level. */
  datatype MeshBlock = MeshBlock(gid: int, level: int)

  /** What it reads from a NeighborBlock: the neighbour's rank, level and global id
      (`snb`) and its offset (`ni.ox1..ox3`). */
  datatype Neighbor = Neighbor(rank: int, level: int, gid: int, ox1: int, ox2: int, ox3: int)

  /** A cell variable: its label, whether it has `Metadata::FillGhost`, and whether it
      is allocated. */
  datatype Variable = Variable(name: string, fillGhost: bool, isAllocated: bool)

  /** One block of a MeshData: the block, its cell variables and its neighbours. */
  datatype BlockData = BlockData(block: MeshBlock, vars: seq<Variable>, neighbors: seq<Neighbor>)

  /** The arguments of one callback: `(pmb, nb, v)`. */
  datatype Boundary = Boundary(pmb: MeshBlock, nb: Neighbor, v: Variable)

  /** A channel key: `(sender gid, receiver gid, variable label, location index)`. */
  datatype Key = Key(sender: int, receiver: int, name: string, location: int)

  // ---------------------------------------------------------------------------------
  // Channel keys

  /** The geometric element index of offset (ox1, ox2, ox3), one of 27. */
  function LocationIndex(ox1: int, ox2: int, ox3: int): int {
    (1 + ox1) + 3 * (1 + ox2 + 3 * (1 + ox3))
  }

  predicate IsOffset(o: int) { -1 <= o <= 1 }

  /** The offset an index stands for: the inverse of LocationIndex. */
  function LocationOffsets(l: int): (int, int, int) {
    var q := l / 3;
    (l % 3 - 1, q % 3 - 1, q / 3 - 1)
  }

  lemma DivMod3(l: int, a: int, q: int)
    requires l == a + 3 * q && 0 <= a < 3
    ensures l % 3 == a && l / 3 == q
  {
  }

  lemma LocationIndexRoundTrip(ox1: int, ox2: int, ox3: int)
    requires IsOffset(ox1) && IsOffset(ox2) && IsOffset(ox3)
    ensures 0 <= LocationIndex(ox1, ox2, ox3) <= 26
    ensures LocationOffsets(LocationIndex(ox1, ox2, ox3)) == (ox1, ox2, ox3)
  {
    var l := LocationIndex(ox1, ox2, ox3);
    var q := (1 + ox2) + 3 * (1 + ox3);
    DivMod3(l, 1 + ox1, q);
    DivMod3(q, 1 + ox2, 1 + ox3);
    var r := LocationOffsets(l);
    assert r.0 == ox1 && r.1 == ox2 && r.2 == ox3;
  }

  /** Distinct offsets get distinct location indices. */
  lemma LocationIndexInjective(a1: int, a2: int, a3: int, b1: int, b2: int, b3: int)
    requires IsOffset(a1) && IsOffset(a2) && IsOffset(a3)
    requires IsOffset(b1) && IsOffset(b2) && IsOffset(b3)
    requires LocationIndex(a1, a2, a3) == LocationIndex(b1, b2, b3)
    ensures a1 == b1 && a2 == b2 && a3 == b3
  {
    LocationIndexRoundTrip(a1, a2, a3);
    LocationIndexRoundTrip(b1, b2, b3);
  }

  function SendKey(pmb: MeshBlock, nb: Neighbor, v: Variable): Key {
    Key(pmb.gid, nb.gid, v.name, LocationIndex(nb.ox1, nb.ox2, nb.ox3))
  }

  function ReceiveKey(pmb: MeshBlock, nb: Neighbor, v: Variable): Key {
    Key(nb.gid, pmb.gid, v.name, LocationIndex(-nb.ox1, -nb.ox2, -nb.ox3))
  }

  /** The receiving side indexes the element from the other end of the 27-cube. */
  lemma ReceiveLocationMirrorsSend(pmb: MeshBlock, nb: Neighbor, v: Variable)
    requires IsOffset(nb.ox1) && IsOffset(nb.ox2) && IsOffset(nb.ox3)
    ensures ReceiveKey(pmb, nb, v).location == 26 - SendKey(pmb, nb, v).location
    ensures 0 <= ReceiveKey(pmb, nb, v).location <= 26
  {
    LocationIndexRoundTrip(-nb.ox1, -nb.ox2, -nb.ox3);
  }

  /** Block `a` sends to its neighbour `nb` (block `bb`, offset o); `bb` sees `a` as
      `nbBack` at offset -o. Both sides then name the same channel. */
  lemma SendAndReceiveKeysMatch(a: MeshBlock, nb: Neighbor, bb: MeshBlock, nbBack: Neighbor, v: Variable)
    requires nb.gid == bb.gid && nbBack.gid == a.gid
    requires nbBack.ox1 == -nb.ox1 && nbBack.ox2 == -nb.ox2 && nbBack.ox3 == -nb.ox3
    ensures ReceiveKey(bb, nbBack, v) == SendKey(a, nb, v)
  {
  }

  /** A receiver's key never names a channel sent towards a different location: for
      fixed gids and label, equal keys mean mirrored offsets. */
  lemma ReceiveKeyDeterminesOffset(a: MeshBlock, nb: Neighbor, bb: MeshBlock, nbBack: Neighbor, v: Variable)
    requires IsOffset(nb.ox1) && IsOffset(nb.ox2) && IsOffset(nb.ox3)
    requires IsOffset(nbBack.ox1) && IsOffset(nbBack.ox2) && IsOffset(nbBack.ox3)
    requires ReceiveKey(bb, nbBack, v) == SendKey(a, nb, v)
    ensures nbBack.ox1 == -nb.ox1 && nbBack.ox2 == -nb.ox2 && nbBack.ox3 == -nb.ox3
    ensures nb.gid == bb.gid && nbBack.gid == a.gid
  {
    LocationIndexInjective(-nbBack.ox1, -nbBack.ox2, -nbBack.ox3, nb.ox1, nb.ox2, nb.ox3);
  }

  // ---------------------------------------------------------------------------------
  // The traversal

  function Abs(x: int): nat { if x < 0 then -x else x }

  /** The neighbour shares a face with the block. */
  predicate SharesFace(nb: Neighbor) { Abs(nb.ox1) + Abs(nb.ox2) + Abs(nb.ox3) == 1 }

  /** The neighbour filter of ForEachBoundary for boundary type `bound`. */
  predicate Keep(bound: BoundaryType, myRank: int, pmb: MeshBlock, nb: Neighbor) {
    match bound
    case Any => true
    case Local => nb.rank == myRank
    case Nonlocal => nb.rank != myRank
    case FlxcorSend => nb.level == pmb.level - 1 && SharesFace(nb)
    case FlxcorRecv => nb.level - 1 == pmb.level && SharesFace(nb)
  }

  /** A flux-correction sender on one side is a flux-correction receiver on the
      other: the finer block keeps its coarser face neighbour under `flxcor_send`
      exactly when that neighbour keeps it back under `flxcor_recv`. */
  lemma FluxCorrectionFiltersPair(myRank: int, fine: MeshBlock, toCoarse: Neighbor, coarse: MeshBlock, toFine: Neighbor)
    requires toCoarse.level == coarse.level && toFine.level == fine.level
    requires toFine.ox1 == -toCoarse.ox1 && toFine.ox2 == -toCoarse.ox2 && toFine.ox3 == -toCoarse.ox3
    ensures Keep(FlxcorSend, myRank, fine, toCoarse) <==> Keep(FlxcorRecv, myRank, coarse, toFine)
    ensures !(Keep(FlxcorSend, myRank, fine, toCoarse) && Keep(FlxcorRecv, myRank, fine, toCoarse))
  {
  }

  /** The boundaries `(pmb, nb, v)` over neighbours `nbs`, in order. */
  function NbBoundaries(bound: BoundaryType, myRank: int, pmb: MeshBlock, v: Variable, nbs: seq<Neighbor>): seq<Boundary>
    decreases |nbs|
  {
    if |nbs| == 0 then []
    else
      var last := nbs[|nbs| - 1];
      NbBoundaries(bound, myRank, pmb, v, nbs[..|nbs| - 1])
        + (if Keep(bound, myRank, pmb, last) then [Boundary(pmb, last, v)] else [])
  }

  /** The boundaries of one block over variables `vars`, in order. */
  function VarBoundaries(bound: BoundaryType, myRank: int, blk: BlockData, vars: seq<Variable>): seq<Boundary>
    decreases |vars|
  {
    if |vars| == 0 then []
    else
      var last := vars[|vars| - 1];
      VarBoundaries(bound, myRank, blk, vars[..|vars| - 1])
        + (if last.fillGhost then NbBoundaries(bound, myRank, blk.block, last, blk.neighbors) else [])
  }

  /** Every boundary ForEachBoundary visits over blocks `md`, in visiting order. */
  function Boundaries(bound: BoundaryType, myRank: int, md: seq<BlockData>): seq<Boundary>
    decreases |md|
  {
    if |md| == 0 then []
    else
      var last := md[|md| - 1];
      Boundaries(bound, myRank, md[..|md| - 1]) + VarBoundaries(bound, myRank, last, last.vars)
  }

  lemma {:induction false} NbSound(bound: BoundaryType, myRank: int, pmb: MeshBlock, v: Variable, nbs: seq<Neighbor>)
    ensures forall x :: x in NbBoundaries(bound, myRank, pmb, v, nbs) ==>
      x.pmb == pmb && x.v == v && x.nb in nbs && Keep(bound, myRank, pmb, x.nb)
    decreases |nbs|
  {
    if |nbs| > 0 {
      NbSound(bound, myRank, pmb, v, nbs[..|nbs| - 1]);
      assert forall y :: y in nbs[..|nbs| - 1] ==> y in nbs;
    }
  }

  lemma {:induction false} VarSound(bound: BoundaryType, myRank: int, blk: BlockData, vars: seq<Variable>)
    ensures forall x :: x in VarBoundaries(bound, myRank, blk, vars) ==>
      && x.pmb == blk.block && x.v in vars && x.v.fillGhost && x.nb in blk.neighbors
      && Keep(bound, myRank, blk.block, x.nb)
    decreases |vars|
  {
    if |vars| > 0 {
      VarSound(bound, myRank, blk, vars[..|vars| - 1]);
      NbSound(bound, myRank, blk.block, vars[|vars| - 1], blk.neighbors);
      assert forall y :: y in vars[..|vars| - 1] ==> y in vars;
    }
  }

  /** The filter keeps nothing it should drop: every visited boundary has a
      ghost-filled variable and a neighbour the filter accepts, from one of the
      blocks. */
  lemma {:induction false} EveryVisitedBoundaryKept(bound: BoundaryType, myRank: int, md: seq<BlockData>)
    ensures forall x :: x in Boundaries(bound, myRank, md) ==>
      && x.v.fillGhost && Keep(bound, myRank, x.pmb, x.nb)
      && exists i :: 0 <= i < |md| && md[i].block == x.pmb && x.v in md[i].vars && x.nb in md[i].neighbors
    decreases |md|
  {
    if |md| > 0 {
      var last := md[|md| - 1];
      EveryVisitedBoundaryKept(bound, myRank, md[..|md| - 1]);
      VarSound(bound, myRank, last, last.vars);
      forall x | x in Boundaries(bound, myRank, md)
        ensures exists i :: 0 <= i < |md| && md[i].block == x.pmb && x.v in md[i].vars && x.nb in md[i].neighbors
      {
        if x in Boundaries(bound, myRank, md[..|md| - 1]) {
          var i :| 0 <= i < |md| - 1 && md[..|md| - 1][i].block == x.pmb && x.v in md[..|md| - 1][i].vars
            && x.nb in md[..|md| - 1][i].neighbors;
          assert md[i] == md[..|md| - 1][i];
        } else {
          assert md[|md| - 1] == last;
        }
      }
    }
  }

  lemma {:induction false} NbVisited(bound: BoundaryType, myRank: int, pmb: MeshBlock, v: Variable, nbs: seq<Neighbor>, nb: Neighbor)
    requires nb in nbs && Keep(bound, myRank, pmb, nb)
    ensures Boundary(pmb, nb, v) in NbBoundaries(bound, myRank, pmb, v, nbs)
    decreases |nbs|
  {
    if nb != nbs[|nbs| - 1] {
      var k :| 0 <= k < |nbs| && nbs[k] == nb;
      assert nbs[..|nbs| - 1][k] == nb;
      NbVisited(bound, myRank, pmb, v, nbs[..|nbs| - 1], nb);
    }
  }

  lemma {:induction false} VarVisited(bound: BoundaryType, myRank: int, blk: BlockData, vars: seq<Variable>, v: Variable, nb: Neighbor)
    requires v in vars && v.fillGhost && nb in blk.neighbors && Keep(bound, myRank, blk.block, nb)
    ensures Boundary(blk.block, nb, v) in VarBoundaries(bound, myRank, blk, vars)
    decreases |vars|
  {
    if v == vars[|vars| - 1] {
      NbVisited(bound, myRank, blk.block, v, blk.neighbors, nb);
    } else {
      var k :| 0 <= k < |vars| && vars[k] == v;
      assert vars[..|vars| - 1][k] == v;
      VarVisited(bound, myRank, blk, vars[..|vars| - 1], v, nb);
    }
  }

  /** The filter drops nothing it should keep: every (block, ghost-filled variable,
      kept neighbour) triple is visited. */
  lemma {:induction false} EveryKeptBoundaryVisited(bound: BoundaryType, myRank: int, md: seq<BlockData>, i: int, v: Variable, nb: Neighbor)
    requires 0 <= i < |md| && v in md[i].vars && v.fillGhost
    requires nb in md[i].neighbors && Keep(bound, myRank, md[i].block, nb)
    ensures Boundary(md[i].block, nb, v) in Boundaries(bound, myRank, md)
    decreases |md|
  {
    if i == |md| - 1 {
      VarVisited(bound, myRank, md[i], md[i].vars, v, nb);
    } else {
      assert md[..|md| - 1][i] == md[i];
      EveryKeptBoundaryVisited(bound, myRank, md[..|md| - 1], i, v, nb);
    }
  }

  lemma {:induction false} NbSplitByRank(myRank: int, pmb: MeshBlock, v: Variable, nbs: seq<Neighbor>)
    ensures |NbBoundaries(Local, myRank, pmb, v, nbs)| + |NbBoundaries(Nonlocal, myRank, pmb, v, nbs)|
         == |NbBoundaries(Any, myRank, pmb, v, nbs)|
    decreases |nbs|
  {
    if |nbs| > 0 {
      NbSplitByRank(myRank, pmb, v, nbs[..|nbs| - 1]);
    }
  }

  lemma {:induction false} VarSplitByRank(myRank: int, blk: BlockData, vars: seq<Variable>)
    ensures |VarBoundaries(Local, myRank, blk, vars)| + |VarBoundaries(Nonlocal, myRank, blk, vars)|
         == |VarBoundaries(Any, myRank, blk, vars)|
    decreases |vars|
  {
    if |vars| > 0 {
      VarSplitByRank(myRank, blk, vars[..|vars| - 1]);
      NbSplitByRank(myRank, blk.block, vars[|vars| - 1], blk.neighbors);
    }
  }

  /** The `local` and `nonlocal` traversals split the full one: every boundary is on
      this rank or on another one. */
  lemma {:induction false} LocalAndNonlocalSplitAll(myRank: int, md: seq<BlockData>)
    ensures |Boundaries(Local, myRank, md)| + |Boundaries(Nonlocal, myRank, md)| == |Boundaries(Any, myRank, md)|
    decreases |md|
  {
    if |md| > 0 {
      LocalAndNonlocalSplitAll(myRank, md[..|md| - 1]);
      VarSplitByRank(myRank, md[|md| - 1], md[|md| - 1].vars);
    }
  }

  /** The traversal with early exit: the state after visiting `bs` in order, and
      whether a callback asked to break out (after which nothing more is visited). */
  function Run<S>(f: (S, Boundary) -> (S, LoopControl), s: S, bs: seq<Boundary>): (S, bool)
    decreases |bs|
  {
    if |bs| == 0 then (s, false)
    else
      var (t, stopped) := Run(f, s, bs[..|bs| - 1]);
      if stopped then (t, true)
      else
        var (u, c) := f(t, bs[|bs| - 1]);
        (u, c == BreakOut)
  }

  /** A callback that returns nothing, applied to every boundary in order. */
  function Fold<S>(g: (S, Boundary) -> S, s: S, bs: seq<Boundary>): S
    decreases |bs|
  {
    if |bs| == 0 then s else g(Fold(g, s, bs[..|bs| - 1]), bs[|bs| - 1])
  }

  /** `func_caller` for a callback that returns nothing: call it and continue. */
  function FuncCaller<S>(g: (S, Boundary) -> S): (S, Boundary) -> (S, LoopControl) {
    (s: S, x: Boundary) => (g(s, x), Cont)
  }

  /** A callback that never breaks out visits every boundary. */
  lemma {:induction false} FuncCallerVisitsAll<S>(g: (S, Boundary) -> S, s: S, bs: seq<Boundary>)
    ensures Run(FuncCaller(g), s, bs) == (Fold(g, s, bs), false)
    decreases |bs|
  {
    if |bs| > 0 {
      FuncCallerVisitsAll(g, s, bs[..|bs| - 1]);
    }
  }

  /** Once a callback has broken out, the rest of the traversal changes nothing. */
  lemma {:induction false} BreakOutEndsTraversal<S>(f: (S, Boundary) -> (S, LoopControl), s: S, p: seq<Boundary>, q: seq<Boundary>)
    requires p <= q && Run(f, s, p).1
    ensures Run(f, s, q) == Run(f, s, p)
    decreases |q|
  {
    if |q| > |p| {
      assert p <= q[..|q| - 1];
      BreakOutEndsTraversal(f, s, p, q[..|q| - 1]);
    } else {
      assert p == q;
    }
  }

  lemma PrefixAppend<T>(c: seq<T>, a: seq<T>, b: seq<T>)
    requires a <= b
    ensures c + a <= c + b
  {
    assert (c + b)[..|c + a|] == c + a;
  }

  lemma {:induction false} NbPrefix(bound: BoundaryType, myRank: int, pmb: MeshBlock, v: Variable, nbs: seq<Neighbor>, n: int)
    requires 0 <= n <= |nbs|
    ensures NbBoundaries(bound, myRank, pmb, v, nbs[..n]) <= NbBoundaries(bound, myRank, pmb, v, nbs)
    decreases |nbs|
  {
    if n < |nbs| {
      assert nbs[..|nbs| - 1][..n] == nbs[..n];
      NbPrefix(bound, myRank, pmb, v, nbs[..|nbs| - 1], n);
    } else {
      assert nbs[..n] == nbs;
    }
  }

  lemma {:induction false} VarPrefix(bound: BoundaryType, myRank: int, blk: BlockData, vars: seq<Variable>, n: int)
    requires 0 <= n <= |vars|
    ensures VarBoundaries(bound, myRank, blk, vars[..n]) <= VarBoundaries(bound, myRank, blk, vars)
    decreases |vars|
  {
    if n < |vars| {
      assert vars[..|vars| - 1][..n] == vars[..n];
      VarPrefix(bound, myRank, blk, vars[..|vars| - 1], n);
    } else {
      assert vars[..n] == vars;
    }
  }

  lemma {:induction false} BlocksPrefix(bound: BoundaryType, myRank: int, md: seq<BlockData>, n: int)
    requires 0 <= n <= |md|
    ensures Boundaries(bound, myRank, md[..n]) <= Boundaries(bound, myRank, md)
    decreases |md|
  {
    if n < |md| {
      assert md[..|md| - 1][..n] == md[..n];
      BlocksPrefix(bound, myRank, md[..|md| - 1], n);
    } else {
      assert md[..n] == md;
    }
  }

  /** The boundaries visited up to neighbour `n` of variable `vi` of block `bi` are a
      prefix of the whole traversal. */
  lemma VisitedSoFarIsPrefix(bound: BoundaryType, myRank: int, md: seq<BlockData>, bi: int, vi: int, n: int)
    requires 0 <= bi < |md| && 0 <= vi < |md[bi].vars| && md[bi].vars[vi].fillGhost
    requires 0 <= n <= |md[bi].neighbors|
    ensures
      var blk := md[bi];
      Boundaries(bound, myRank, md[..bi]) + VarBoundaries(bound, myRank, blk, blk.vars[..vi])
        + NbBoundaries(bound, myRank, blk.block, blk.vars[vi], blk.neighbors[..n])
      <= Boundaries(bound, myRank, md)
  {
    var blk := md[bi];
    var B := Boundaries(bound, myRank, md[..bi]);
    var V1 := VarBoundaries(bound, myRank, blk, blk.vars[..vi + 1]);
    InVariablePrefix(bound, myRank, B, blk, vi, n);
    InBlockPrefix(bound, myRank, md, bi, vi);
    PrefixTrans(B + VarBoundaries(bound, myRank, blk, blk.vars[..vi])
                  + NbBoundaries(bound, myRank, blk.block, blk.vars[vi], blk.neighbors[..n]),
                B + V1, Boundaries(bound, myRank, md));
  }

  lemma InVariablePrefix(bound: BoundaryType, myRank: int, B: seq<Boundary>, blk: BlockData, vi: int, n: int)
    requires 0 <= vi < |blk.vars| && blk.vars[vi].fillGhost && 0 <= n <= |blk.neighbors|
    ensures B + VarBoundaries(bound, myRank, blk, blk.vars[..vi])
              + NbBoundaries(bound, myRank, blk.block, blk.vars[vi], blk.neighbors[..n])
            <= B + VarBoundaries(bound, myRank, blk, blk.vars[..vi + 1])
  {
    var V := VarBoundaries(bound, myRank, blk, blk.vars[..vi]);
    var N := NbBoundaries(bound, myRank, blk.block, blk.vars[vi], blk.neighbors[..n]);
    var Nall := NbBoundaries(bound, myRank, blk.block, blk.vars[vi], blk.neighbors);
    NbPrefix(bound, myRank, blk.block, blk.vars[vi], blk.neighbors, n);
    VarSnoc(bound, myRank, blk, vi);
    PrefixExtend(B, V, N, Nall);
  }

  lemma VarSnoc(bound: BoundaryType, myRank: int, blk: BlockData, vi: int)
    requires 0 <= vi < |blk.vars|
    ensures VarBoundaries(bound, myRank, blk, blk.vars[..vi + 1])
         == VarBoundaries(bound, myRank, blk, blk.vars[..vi])
            + (if blk.vars[vi].fillGhost then NbBoundaries(bound, myRank, blk.block, blk.vars[vi], blk.neighbors) else [])
  {
    assert blk.vars[..vi + 1][..vi] == blk.vars[..vi];
  }

  lemma PrefixExtend<T>(b: seq<T>, v: seq<T>, n: seq<T>, nall: seq<T>)
    requires n <= nall
    ensures b + v + n <= b + (v + nall)
  {
    assert (b + (v + nall))[..|b + v + n|] == b + v + n;
  }

  lemma InBlockPrefix(bound: BoundaryType, myRank: int, md: seq<BlockData>, bi: int, vi: int)
    requires 0 <= bi < |md| && 0 <= vi < |md[bi].vars|
    ensures Boundaries(bound, myRank, md[..bi]) + VarBoundaries(bound, myRank, md[bi], md[bi].vars[..vi + 1])
            <= Boundaries(bound, myRank, md)
  {
    var blk := md[bi];
    var B := Boundaries(bound, myRank, md[..bi]);
    var V1 := VarBoundaries(bound, myRank, blk, blk.vars[..vi + 1]);
    var Vall := VarBoundaries(bound, myRank, blk, blk.vars);
    VarPrefix(bound, myRank, blk, blk.vars, vi + 1);
    PrefixAppend(B, V1, Vall);
    assert md[..bi + 1][..bi] == md[..bi];
    assert B + Vall == Boundaries(bound, myRank, md[..bi + 1]);
    BlocksPrefix(bound, myRank, md, bi + 1);
    PrefixTrans(B + V1, B + Vall, Boundaries(bound, myRank, md));
  }

  lemma PrefixTrans<T>(a: seq<T>, b: seq<T>, c: seq<T>)
    requires a <= b && b <= c
    ensures a <= c
  {
    assert c[..|a|] == b[..|a|];
  }

  lemma NbSnoc(bound: BoundaryType, myRank: int, pmb: MeshBlock, v: Variable, nbs: seq<Neighbor>, n: int)
    requires 0 <= n < |nbs|
    ensures NbBoundaries(bound, myRank, pmb, v, nbs[..n + 1])
         == NbBoundaries(bound, myRank, pmb, v, nbs[..n])
            + (if Keep(bound, myRank, pmb, nbs[n]) then [Boundary(pmb, nbs[n], v)] else [])
  {
    assert nbs[..n + 1][..n] == nbs[..n];
  }

  lemma BlockSnoc(bound: BoundaryType, myRank: int, md: seq<BlockData>, bi: int)
    requires 0 <= bi < |md|
    ensures Boundaries(bound, myRank, md[..bi + 1])
         == Boundaries(bound, myRank, md[..bi]) + VarBoundaries(bound, myRank, md[bi], md[bi].vars)
  {
    assert md[..bi + 1][..bi] == md[..bi];
  }

  lemma RunSnoc<S>(f: (S, Boundary) -> (S, LoopControl), s0: S, q: seq<Boundary>, x: Boundary)
    requires !Run(f, s0, q).1
    ensures Run(f, s0, q + [x]) == (f(Run(f, s0, q).0, x).0, f(Run(f, s0, q).0, x).1 == BreakOut)
  {
    assert (q + [x])[..|q|] == q;
  }

  /** The boundaries visited before variable `vi` of block `bi`. */
  function VisitedBefore(bound: BoundaryType, myRank: int, md: seq<BlockData>, bi: int, vi: int): seq<Boundary>
    requires 0 <= bi < |md| && 0 <= vi <= |md[bi].vars|
  {
    Boundaries(bound, myRank, md[..bi]) + VarBoundaries(bound, myRank, md[bi], md[bi].vars[..vi])
  }

  /** The boundaries visited before neighbour `n` of variable `vi` of block `bi`. */
  function VisitedBeforeNeighbor(bound: BoundaryType, myRank: int, md: seq<BlockData>, bi: int, vi: int, n: int): seq<Boundary>
    requires 0 <= bi < |md| && 0 <= vi < |md[bi].vars| && 0 <= n <= |md[bi].neighbors|
  {
    VisitedBefore(bound, myRank, md, bi, vi) + NbBoundaries(bound, myRank, md[bi].block, md[bi].vars[vi], md[bi].neighbors[..n])
  }

  /** One pass of the innermost loop body, for a neighbour the filter keeps. */
  lemma VisitKeptNeighbor<S>(bound: BoundaryType, myRank: int, md: seq<BlockData>, bi: int, vi: int, n: int,
                             f: (S, Boundary) -> (S, LoopControl), s0: S, s: S)
    requires 0 <= bi < |md| && 0 <= vi < |md[bi].vars| && md[bi].vars[vi].fillGhost && 0 <= n < |md[bi].neighbors|
    requires Keep(bound, myRank, md[bi].block, md[bi].neighbors[n])
    requires Run(f, s0, VisitedBeforeNeighbor(bound, myRank, md, bi, vi, n)) == (s, false)
    ensures var r := f(s, Boundary(md[bi].block, md[bi].neighbors[n], md[bi].vars[vi]));
      && Run(f, s0, VisitedBeforeNeighbor(bound, myRank, md, bi, vi, n + 1)) == (r.0, r.1 == BreakOut)
      && (r.1 == BreakOut ==> r.0 == Run(f, s0, Boundaries(bound, myRank, md)).0)
  {
    var blk := md[bi];
    var x := Boundary(blk.block, blk.neighbors[n], blk.vars[vi]);
    var Q := VisitedBeforeNeighbor(bound, myRank, md, bi, vi, n);
    var Q1 := VisitedBeforeNeighbor(bound, myRank, md, bi, vi, n + 1);
    NbSnoc(bound, myRank, blk.block, blk.vars[vi], blk.neighbors, n);
    assert Q1 == Q + [x];
    RunSnoc(f, s0, Q, x);
    if f(s, x).1 == BreakOut {
      VisitedSoFarIsPrefix(bound, myRank, md, bi, vi, n + 1);
      BreakOutEndsTraversal(f, s0, Q1, Boundaries(bound, myRank, md));
    }
  }

  /** A neighbour the filter rejects is skipped. */
  lemma SkipNeighbor(bound: BoundaryType, myRank: int, md: seq<BlockData>, bi: int, vi: int, n: int)
    requires 0 <= bi < |md| && 0 <= vi < |md[bi].vars| && 0 <= n < |md[bi].neighbors|
    requires !Keep(bound, myRank, md[bi].block, md[bi].neighbors[n])
    ensures VisitedBeforeNeighbor(bound, myRank, md, bi, vi, n + 1) == VisitedBeforeNeighbor(bound, myRank, md, bi, vi, n)
  {
    NbSnoc(bound, myRank, md[bi].block, md[bi].vars[vi], md[bi].neighbors, n);
  }

  lemma NeighborsDone(bound: BoundaryType, myRank: int, md: seq<BlockData>, bi: int, vi: int)
    requires 0 <= bi < |md| && 0 <= vi < |md[bi].vars| && md[bi].vars[vi].fillGhost
    ensures VisitedBeforeNeighbor(bound, myRank, md, bi, vi, 0) == VisitedBefore(bound, myRank, md, bi, vi)
    ensures VisitedBeforeNeighbor(bound, myRank, md, bi, vi, |md[bi].neighbors|) == VisitedBefore(bound, myRank, md, bi, vi + 1)
  {
    NeighborsStart(bound, myRank, md, bi, vi);
    NeighborsEnd(bound, myRank, md, bi, vi);
  }

  lemma NeighborsStart(bound: BoundaryType, myRank: int, md: seq<BlockData>, bi: int, vi: int)
    requires 0 <= bi < |md| && 0 <= vi < |md[bi].vars|
    ensures VisitedBeforeNeighbor(bound, myRank, md, bi, vi, 0) == VisitedBefore(bound, myRank, md, bi, vi)
  {
    var blk := md[bi];
    var pre := VisitedBefore(bound, myRank, md, bi, vi);
    var none := NbBoundaries(bound, myRank, blk.block, blk.vars[vi], blk.neighbors[..0]);
    assert none == [];
    assert pre + none == pre;
  }

  lemma NeighborsEnd(bound: BoundaryType, myRank: int, md: seq<BlockData>, bi: int, vi: int)
    requires 0 <= bi < |md| && 0 <= vi < |md[bi].vars| && md[bi].vars[vi].fillGhost
    ensures VisitedBeforeNeighbor(bound, myRank, md, bi, vi, |md[bi].neighbors|) == VisitedBefore(bound, myRank, md, bi, vi + 1)
  {
    var blk := md[bi];
    var b := Boundaries(bound, myRank, md[..bi]);
    var v := VarBoundaries(bound, myRank, blk, blk.vars[..vi]);
    var all := NbBoundaries(bound, myRank, blk.block, blk.vars[vi], blk.neighbors);
    assert blk.neighbors[..|blk.neighbors|] == blk.neighbors;
    VarSnoc(bound, myRank, blk, vi);
    assert VarBoundaries(bound, myRank, blk, blk.vars[..vi + 1]) == v + all;
    assert b + v + all == b + (v + all);
  }

  /** The innermost loop of ForEachBoundary, over the neighbours of block `bi` for its
      ghost-filled variable `vi`; `stop` reports that a callback broke out, in which
      case the whole traversal is over. */
  method VisitNeighbors<S>(bound: BoundaryType, myRank: int, md: seq<BlockData>, bi: int, vi: int,
                           f: (S, Boundary) -> (S, LoopControl), s0: S, sIn: S) returns (s: S, stop: bool)
    requires 0 <= bi < |md| && 0 <= vi < |md[bi].vars| && md[bi].vars[vi].fillGhost
    requires Run(f, s0, VisitedBefore(bound, myRank, md, bi, vi)) == (sIn, false)
    ensures stop ==> s == Run(f, s0, Boundaries(bound, myRank, md)).0
    ensures !stop ==> Run(f, s0, VisitedBefore(bound, myRank, md, bi, vi + 1)) == (s, false)
  {
    var blk := md[bi];
    var v := blk.vars[vi];
    s, stop := sIn, false;
    NeighborsDone(bound, myRank, md, bi, vi);
    var n := 0;
    while n < |blk.neighbors|
      invariant 0 <= n <= |blk.neighbors|
      invariant Run(f, s0, VisitedBeforeNeighbor(bound, myRank, md, bi, vi, n)) == (s, false)
    {
      var nb := blk.neighbors[n];
      if Keep(bound, myRank, blk.block, nb) {
        VisitKeptNeighbor(bound, myRank, md, bi, vi, n, f, s0, s);
        var r := f(s, Boundary(blk.block, nb, v));
        s := r.0;
        if r.1 == BreakOut {
          stop := true;
          return;
        }
      } else {
        SkipNeighbor(bound, myRank, md, bi, vi, n);
      }
      n := n + 1;
    }
  }

  /** ForEachBoundary: the nested block / variable / neighbour loops, skipping
      variables without FillGhost and neighbours the filter rejects, and returning as
      soon as a callback breaks out. */
  method ForEachBoundary<S>(bound: BoundaryType, myRank: int, md: seq<BlockData>,
                            f: (S, Boundary) -> (S, LoopControl), s0: S) returns (s: S)
    ensures s == Run(f, s0, Boundaries(bound, myRank, md)).0
  {
    s := s0;
    var bi := 0;
    while bi < |md|
      invariant 0 <= bi <= |md|
      invariant Run(f, s0, Boundaries(bound, myRank, md[..bi])) == (s, false)
    {
      var stop;
      s, stop := VisitVariables(bound, myRank, md, bi, f, s0, s);
      if stop {
        return;
      }
      bi := bi + 1;
    }
    assert md[..bi] == md;
  }

  /** The middle loop of ForEachBoundary, over the variables of block `bi`; `stop`
      reports that a callback broke out. */
  method VisitVariables<S>(bound: BoundaryType, myRank: int, md: seq<BlockData>, bi: int,
                           f: (S, Boundary) -> (S, LoopControl), s0: S, sIn: S) returns (s: S, stop: bool)
    requires 0 <= bi < |md|
    requires Run(f, s0, Boundaries(bound, myRank, md[..bi])) == (sIn, false)
    ensures stop ==> s == Run(f, s0, Boundaries(bound, myRank, md)).0
    ensures !stop ==> Run(f, s0, Boundaries(bound, myRank, md[..bi + 1])) == (s, false)
  {
    var blk := md[bi];
    s, stop := sIn, false;
    VariablesStart(bound, myRank, md, bi);
    var vi := 0;
    while vi < |blk.vars|
      invariant 0 <= vi <= |blk.vars|
      invariant Run(f, s0, VisitedBefore(bound, myRank, md, bi, vi)) == (s, false)
    {
      if blk.vars[vi].fillGhost {
        s, stop := VisitNeighbors(bound, myRank, md, bi, vi, f, s0, s);
        if stop {
          return;
        }
      } else {
        SkipVariable(bound, myRank, md, bi, vi);
      }
      vi := vi + 1;
    }
    VariablesEnd(bound, myRank, md, bi);
  }

  lemma VariablesStart(bound: BoundaryType, myRank: int, md: seq<BlockData>, bi: int)
    requires 0 <= bi < |md|
    ensures VisitedBefore(bound, myRank, md, bi, 0) == Boundaries(bound, myRank, md[..bi])
  {
    var blk := md[bi];
    var none := VarBoundaries(bound, myRank, blk, blk.vars[..0]);
    assert none == [];
    assert Boundaries(bound, myRank, md[..bi]) + none == Boundaries(bound, myRank, md[..bi]);
  }

  lemma SkipVariable(bound: BoundaryType, myRank: int, md: seq<BlockData>, bi: int, vi: int)
    requires 0 <= bi < |md| && 0 <= vi < |md[bi].vars| && !md[bi].vars[vi].fillGhost
    ensures VisitedBefore(bound, myRank, md, bi, vi + 1) == VisitedBefore(bound, myRank, md, bi, vi)
  {
    VarSnoc(bound, myRank, md[bi], vi);
    var v := VarBoundaries(bound, myRank, md[bi], md[bi].vars[..vi]);
    assert v + [] == v;
  }

  lemma VariablesEnd(bound: BoundaryType, myRank: int, md: seq<BlockData>, bi: int)
    requires 0 <= bi < |md|
    ensures Boundaries(bound, myRank, md[..bi + 1]) == VisitedBefore(bound, myRank, md, bi, |md[bi].vars|)
  {
    assert md[bi].vars[..|md[bi].vars|] == md[bi].vars;
    BlockSnoc(bound, myRank, md, bi);
  }


  // ---------------------------------------------------------------------------------
  // The buffer cache

  /** One `key_order` entry: `(27 * receiver gid + location, boundary index, key)`. */
  datatype KeyOrderEntry = KeyOrderEntry(recvrIdx: int, boundaryIdx: int, key: Key)

  /** The callback BuildBufferCache hands to ForEachBoundary: push the boundary's key
      with its sequential index, and advance `boundary_idx`. */
  function PushKey(keyFunc: Boundary -> Key): ((seq<KeyOrderEntry>, int), Boundary) -> (seq<KeyOrderEntry>, int) {
    (st: (seq<KeyOrderEntry>, int), x: Boundary) =>
      var k := keyFunc(x);
      (st.0 + [KeyOrderEntry(27 * k.receiver + k.location, st.1, k)], st.1 + 1)
  }

  /** After the traversal, `key_order[b]` is the b-th visited boundary's key, tagged
      with `b`. */
  lemma {:induction false} KeyOrderListsBoundaries(keyFunc: Boundary -> Key, bs: seq<Boundary>)
    ensures var r := Fold(PushKey(keyFunc), ([], 0), bs);
      && |r.0| == |bs| && r.1 == |bs|
      && forall b :: 0 <= b < |bs| ==> r.0[b].boundaryIdx == b && r.0[b].key == keyFunc(bs[b])
    decreases |bs|
  {
    if |bs| > 0 {
      var p := bs[..|bs| - 1];
      KeyOrderListsBoundaries(keyFunc, p);
      assert forall b :: 0 <= b < |p| ==> p[b] == bs[b];
    }
  }

  /** `p` lists each of `0 .. n-1` exactly once. */
  predicate IsPermutation(p: seq<int>, n: int) {
    && |p| == n
    && (forall t :: 0 <= t < n ==> 0 <= p[t] < n)
    && (forall t, u :: 0 <= t < u < n ==> p[t] != p[u])
    && (forall b :: 0 <= b < n ==> Hits(p, n, b))
  }

  /** Some `t < n` has `p[t] == b`. */
  predicate Hits(p: seq<int>, n: int, b: int)
    requires n <= |p|
  {
    exists t :: 0 <= t < n && p[t] == b
  }

  /** Where a cached boundary's metadata lives: the buffer it was built for and whether
      its variable was allocated then (`BndInfo`). */
  datatype BndInfo = BndInfo(buf: int, isAllocated: bool)

  datatype BufferState = Stale | Sending | SendingNull | Received | ReceivedNull

  /** A communication buffer: its state and the identity of the storage it holds. */
  datatype CommBuffer = CommBuffer(state: BufferState, resource: int)

  /** The buffer operations the cache calls but which are not part of this model:
      `Allocate`, `Free`, `IsAvailableForWrite` and `UsingSameResource`. */
  datatype BufferOps = BufferOps(allocate: CommBuffer -> CommBuffer, free: CommBuffer -> CommBuffer,
                                 availableForWrite: CommBuffer -> bool, sameResource: (int, int) -> bool)

  /** The buffer after the send check allocates or frees it to match its variable. */
  function Touched(ops: BufferOps, buf: CommBuffer, v: Variable): CommBuffer {
    if v.isAllocated then ops.allocate(buf) else ops.free(buf)
  }

  /** The first `n` sequential boundaries name valid cache slots holding live buffers. */
  predicate SlotsCover(bufVec: seq<Key>, idxVec: seq<int>, buffers: map<Key, CommBuffer>, n: int) {
    && 0 <= n <= |idxVec|
    && forall t :: 0 <= t < n ==> 0 <= idxVec[t] < |bufVec| && bufVec[idxVec[t]] in buffers
  }

  /** Sequential boundary `t` names a valid cache slot holding a live buffer. */
  predicate SlotLive(bufVec: seq<Key>, idxVec: seq<int>, buffers: map<Key, CommBuffer>, t: int) {
    0 <= t < |idxVec| && 0 <= idxVec[t] < |bufVec| && bufVec[idxVec[t]] in buffers
  }

  /** What the send check accumulates: the buffers, `rebuild`,
      `other_communication_unfinished` and `nbound`. */
  datatype SendCheck = SendCheck(buffers: map<Key, CommBuffer>, rebuild: bool, unfinished: bool, nbound: int)

  /** The send check visiting one more boundary `b` whose slot is `ibuf`: allocate or
      free the slot's buffer to match `b`'s variable, note a busy buffer, and ask for a
      rebuild when the slot has no metadata or its metadata names other storage. */
  function SendVisit(ops: BufferOps, bufVec: seq<Key>, bndInfo: seq<BndInfo>, st: SendCheck, ibuf: int, b: Boundary): SendCheck
    requires 0 <= ibuf < |bufVec| && bufVec[ibuf] in st.buffers
  {
    var k := bufVec[ibuf];
    var nbuf := Touched(ops, st.buffers[k], b.v);
    SendCheck(st.buffers[k := nbuf],
              if ibuf < |bndInfo| then st.rebuild || !ops.sameResource(bndInfo[ibuf].buf, nbuf.resource) else true,
              st.unfinished || !ops.availableForWrite(st.buffers[k]),
              st.nbound + 1)
  }

  /** The send check after the first `n` boundaries of `bs`. */
  function SendScan(ops: BufferOps, bufVec: seq<Key>, idxVec: seq<int>, bndInfo: seq<BndInfo>,
                    buffers0: map<Key, CommBuffer>, bs: seq<Boundary>, n: int): (r: SendCheck)
    requires 0 <= n <= |bs| && SlotsCover(bufVec, idxVec, buffers0, n)
    ensures r.nbound == n
    decreases n
  {
    if n == 0 then SendCheck(buffers0, false, false, 0)
    else
      var st := SendScan(ops, bufVec, idxVec, bndInfo, buffers0, bs, n - 1);
      // the slot's buffer is always live (SendScanKeys); the guard spares every
      // use of SendScan that fact
      if bufVec[idxVec[n - 1]] in st.buffers then SendVisit(ops, bufVec, bndInfo, st, idxVec[n - 1], bs[n - 1])
      else SendCheck(st.buffers, st.rebuild, st.unfinished, n)
  }

  /** The send check allocates and frees buffers but never adds or drops one. */
  lemma {:induction false} SendScanKeys(ops: BufferOps, bufVec: seq<Key>, idxVec: seq<int>, bndInfo: seq<BndInfo>,
                                        buffers0: map<Key, CommBuffer>, bs: seq<Boundary>, n: int)
    requires 0 <= n <= |bs| && SlotsCover(bufVec, idxVec, buffers0, n)
    ensures SendScan(ops, bufVec, idxVec, bndInfo, buffers0, bs, n).buffers.Keys == buffers0.Keys
    decreases n
  {
    if n > 0 {
      SendScanKeys(ops, bufVec, idxVec, bndInfo, buffers0, bs, n - 1);
    }
  }

  /** SlotsCover for a prefix of the boundaries. */
  lemma SlotsCoverPrefix(bufVec: seq<Key>, idxVec: seq<int>, buffers: map<Key, CommBuffer>, n: int, m: int)
    requires SlotsCover(bufVec, idxVec, buffers, n) && 0 <= m <= n
    ensures SlotsCover(bufVec, idxVec, buffers, m)
  {
  }

  /** One more boundary of the send check. */
  lemma SendScanStep(ops: BufferOps, bufVec: seq<Key>, idxVec: seq<int>, bndInfo: seq<BndInfo>,
                     buffers0: map<Key, CommBuffer>, bs: seq<Boundary>, n: int)
    requires 0 <= n < |bs| && SlotsCover(bufVec, idxVec, buffers0, n + 1)
    ensures SlotsCover(bufVec, idxVec, buffers0, n)
    ensures var st := SendScan(ops, bufVec, idxVec, bndInfo, buffers0, bs, n);
      && 0 <= idxVec[n] < |bufVec| && bufVec[idxVec[n]] in st.buffers
      && SendScan(ops, bufVec, idxVec, bndInfo, buffers0, bs, n + 1)
         == SendVisit(ops, bufVec, bndInfo, st, idxVec[n], bs[n])
  {
    SendScanKeys(ops, bufVec, idxVec, bndInfo, buffers0, bs, n);
  }

  /** Sequential boundary `t` forces a send-side rebuild: its slot has no metadata, or
      the metadata was built for other storage than its buffer holds once allocated or
      freed. */
  predicate SendSlotStale(ops: BufferOps, bufVec: seq<Key>, idxVec: seq<int>, bndInfo: seq<BndInfo>,
                          buffers0: map<Key, CommBuffer>, bs: seq<Boundary>, t: int)
    requires t < |bs| && SlotLive(bufVec, idxVec, buffers0, t)
  {
    var ibuf := idxVec[t];
    ibuf >= |bndInfo|
    || !ops.sameResource(bndInfo[ibuf].buf, Touched(ops, buffers0[bufVec[ibuf]], bs[t].v).resource)
  }

  /** The buffer of sequential boundary `t` was still in use when the check reached it. */
  predicate Busy(ops: BufferOps, bufVec: seq<Key>, idxVec: seq<int>, buffers0: map<Key, CommBuffer>, t: int)
    requires SlotLive(bufVec, idxVec, buffers0, t)
  {
    !ops.availableForWrite(buffers0[bufVec[idxVec[t]]])
  }

  /** A slot index past the metadata always forces a rebuild. */
  lemma {:induction false} SendScanOutOfRangeRebuilds(ops: BufferOps, bufVec: seq<Key>, idxVec: seq<int>, bndInfo: seq<BndInfo>,
                                                      buffers0: map<Key, CommBuffer>, bs: seq<Boundary>, n: int, t: int)
    requires 0 <= n <= |bs| && SlotsCover(bufVec, idxVec, buffers0, n)
    requires 0 <= t < n && idxVec[t] >= |bndInfo|
    ensures SendScan(ops, bufVec, idxVec, bndInfo, buffers0, bs, n).rebuild
    decreases n
  {
    SendScanStep(ops, bufVec, idxVec, bndInfo, buffers0, bs, n - 1);
    if t < n - 1 {
      SendScanOutOfRangeRebuilds(ops, bufVec, idxVec, bndInfo, buffers0, bs, n - 1, t);
    }
  }

  /** The visited boundaries use distinct buffers. */
  predicate DistinctBuffers(bufVec: seq<Key>, idxVec: seq<int>, n: int)
    requires 0 <= n <= |idxVec| && forall t :: 0 <= t < n ==> 0 <= idxVec[t] < |bufVec|
  {
    forall t, u :: 0 <= t < u < n ==> bufVec[idxVec[t]] != bufVec[idxVec[u]]
  }

  /** No sequential boundary below `n` uses the buffer `k`. */
  predicate Untouched(bufVec: seq<Key>, idxVec: seq<int>, n: int, k: Key)
    requires 0 <= n <= |idxVec| && forall t :: 0 <= t < n ==> 0 <= idxVec[t] < |bufVec|
  {
    forall t :: 0 <= t < n ==> bufVec[idxVec[t]] != k
  }

  /** With distinct buffers, the buffer of boundary `n - 1` is not used before it. */
  lemma LastUntouched(bufVec: seq<Key>, idxVec: seq<int>, buffers0: map<Key, CommBuffer>, n: int)
    requires 0 < n && SlotsCover(bufVec, idxVec, buffers0, n) && DistinctBuffers(bufVec, idxVec, n)
    ensures Untouched(bufVec, idxVec, n - 1, bufVec[idxVec[n - 1]])
  {
    forall t | 0 <= t < n - 1
      ensures bufVec[idxVec[t]] != bufVec[idxVec[n - 1]]
    {
      assert t < n - 1;
    }
  }

  /** The buffers after the first `n` boundaries, when they use distinct buffers: the
      same keys, each visited buffer allocated or freed to match its variable, the
      others as they were. */
  predicate TouchedUpTo(ops: BufferOps, bufVec: seq<Key>, idxVec: seq<int>, buffers0: map<Key, CommBuffer>,
                        bs: seq<Boundary>, buffers: map<Key, CommBuffer>, n: int)
    requires 0 <= n <= |bs| && SlotsCover(bufVec, idxVec, buffers0, n)
  {
    && buffers.Keys == buffers0.Keys
    && (forall t :: 0 <= t < n ==> buffers[bufVec[idxVec[t]]] == Touched(ops, buffers0[bufVec[idxVec[t]]], bs[t].v))
    && (forall k :: k in buffers0 && Untouched(bufVec, idxVec, n, k) ==> buffers[k] == buffers0[k])
  }

  /** Visiting boundary `n - 1`, whose buffer is new, extends TouchedUpTo by one. */
  lemma TouchedUpToStep(ops: BufferOps, bufVec: seq<Key>, idxVec: seq<int>, buffers0: map<Key, CommBuffer>,
                        bs: seq<Boundary>, buffers: map<Key, CommBuffer>, n: int)
    requires 0 < n <= |bs| && SlotsCover(bufVec, idxVec, buffers0, n) && DistinctBuffers(bufVec, idxVec, n)
    requires TouchedUpTo(ops, bufVec, idxVec, buffers0, bs, buffers, n - 1)
    ensures var k := bufVec[idxVec[n - 1]];
      && buffers[k] == buffers0[k]
      && TouchedUpTo(ops, bufVec, idxVec, buffers0, bs, buffers[k := Touched(ops, buffers[k], bs[n - 1].v)], n)
  {
    var k := bufVec[idxVec[n - 1]];
    LastUntouched(bufVec, idxVec, buffers0, n);
    var nbuf := Touched(ops, buffers0[k], bs[n - 1].v);
    var r := buffers[k := nbuf];
    forall t | 0 <= t < n
      ensures r[bufVec[idxVec[t]]] == Touched(ops, buffers0[bufVec[idxVec[t]]], bs[t].v)
    {
      if t < n - 1 {
        assert bufVec[idxVec[t]] != k;
      }
    }
    forall k' | k' in buffers0 && Untouched(bufVec, idxVec, n, k')
      ensures r[k'] == buffers0[k']
    {
      assert k != k';
      assert Untouched(bufVec, idxVec, n - 1, k');
    }
  }

  /** When the visited boundaries use distinct buffers, the send check allocates each
      buffer exactly when its variable is allocated and leaves the other buffers
      alone. */
  lemma {:induction false} SendScanBuffers(ops: BufferOps, bufVec: seq<Key>, idxVec: seq<int>, bndInfo: seq<BndInfo>,
                                           buffers0: map<Key, CommBuffer>, bs: seq<Boundary>, n: int)
    requires 0 <= n <= |bs| && SlotsCover(bufVec, idxVec, buffers0, n) && DistinctBuffers(bufVec, idxVec, n)
    ensures var r := SendScan(ops, bufVec, idxVec, bndInfo, buffers0, bs, n);
      && r.buffers.Keys == buffers0.Keys
      && (forall t :: 0 <= t < n ==> r.buffers[bufVec[idxVec[t]]] == Touched(ops, buffers0[bufVec[idxVec[t]]], bs[t].v))
      && (forall k :: k in buffers0 && Untouched(bufVec, idxVec, n, k) ==> r.buffers[k] == buffers0[k])
    decreases n
  {
    if n > 0 {
      SendScanStep(ops, bufVec, idxVec, bndInfo, buffers0, bs, n - 1);
      SendScanBuffers(ops, bufVec, idxVec, bndInfo, buffers0, bs, n - 1);
      var st := SendScan(ops, bufVec, idxVec, bndInfo, buffers0, bs, n - 1);
      TouchedUpToStep(ops, bufVec, idxVec, buffers0, bs, st.buffers, n);
    }
  }

  /** With distinct buffers, boundary `n` finds its buffer as it was before the scan. */
  lemma SendScanBufferKept(ops: BufferOps, bufVec: seq<Key>, idxVec: seq<int>, bndInfo: seq<BndInfo>,
                           buffers0: map<Key, CommBuffer>, bs: seq<Boundary>, n: int)
    requires 0 <= n < |bs| && SlotsCover(bufVec, idxVec, buffers0, n + 1) && DistinctBuffers(bufVec, idxVec, n + 1)
    ensures var k := bufVec[idxVec[n]];
      && k in SendScan(ops, bufVec, idxVec, bndInfo, buffers0, bs, n).buffers
      && SendScan(ops, bufVec, idxVec, bndInfo, buffers0, bs, n).buffers[k] == buffers0[k]
  {
    SlotsCoverPrefix(bufVec, idxVec, buffers0, n + 1, n);
    SendScanBuffers(ops, bufVec, idxVec, bndInfo, buffers0, bs, n);
    LastUntouched(bufVec, idxVec, buffers0, n + 1);
  }

  /** Some sequential boundary below `n` found its buffer still in use. */
  predicate AnyBusy(ops: BufferOps, bufVec: seq<Key>, idxVec: seq<int>, buffers0: map<Key, CommBuffer>, n: int)
    requires 0 <= n && SlotsCover(bufVec, idxVec, buffers0, n)
  {
    exists t :: 0 <= t < n && Busy(ops, bufVec, idxVec, buffers0, t)
  }

  lemma AnyBusyStep(ops: BufferOps, bufVec: seq<Key>, idxVec: seq<int>, buffers0: map<Key, CommBuffer>, n: int)
    requires 0 < n && SlotsCover(bufVec, idxVec, buffers0, n)
    ensures AnyBusy(ops, bufVec, idxVec, buffers0, n)
      == (AnyBusy(ops, bufVec, idxVec, buffers0, n - 1) || Busy(ops, bufVec, idxVec, buffers0, n - 1))
  {
    if AnyBusy(ops, bufVec, idxVec, buffers0, n) {
      var t :| 0 <= t < n && Busy(ops, bufVec, idxVec, buffers0, t);
      if t < n - 1 {
        assert AnyBusy(ops, bufVec, idxVec, buffers0, n - 1);
      }
    }
    if AnyBusy(ops, bufVec, idxVec, buffers0, n - 1) {
      var t :| 0 <= t < n - 1 && Busy(ops, bufVec, idxVec, buffers0, t);
      assert 0 <= t < n && Busy(ops, bufVec, idxVec, buffers0, t);
    }
  }

  /** ... and then flags unfinished communication exactly when some buffer was not
      available for write ... */
  lemma {:induction false} SendScanUnfinished(ops: BufferOps, bufVec: seq<Key>, idxVec: seq<int>, bndInfo: seq<BndInfo>,
                                              buffers0: map<Key, CommBuffer>, bs: seq<Boundary>, n: int)
    requires 0 <= n <= |bs| && SlotsCover(bufVec, idxVec, buffers0, n) && DistinctBuffers(bufVec, idxVec, n)
    ensures SendScan(ops, bufVec, idxVec, bndInfo, buffers0, bs, n).unfinished
      <==> exists t :: 0 <= t < n && Busy(ops, bufVec, idxVec, buffers0, t)
    decreases n
  {
    if n > 0 {
      SendScanStep(ops, bufVec, idxVec, bndInfo, buffers0, bs, n - 1);
      SendScanUnfinished(ops, bufVec, idxVec, bndInfo, buffers0, bs, n - 1);
      SendScanBufferKept(ops, bufVec, idxVec, bndInfo, buffers0, bs, n - 1);
      var st := SendScan(ops, bufVec, idxVec, bndInfo, buffers0, bs, n - 1);
      AnyBusyStep(ops, bufVec, idxVec, buffers0, n);
      assert st.unfinished == AnyBusy(ops, bufVec, idxVec, buffers0, n - 1);
      var k := bufVec[idxVec[n - 1]];
      var r := SendVisit(ops, bufVec, bndInfo, st, idxVec[n - 1], bs[n - 1]);
      assert r.unfinished == AnyBusy(ops, bufVec, idxVec, buffers0, n);
    }
  }

  /** Some sequential boundary below `n` found its slot stale. */
  predicate AnyStale(ops: BufferOps, bufVec: seq<Key>, idxVec: seq<int>, bndInfo: seq<BndInfo>,
                     buffers0: map<Key, CommBuffer>, bs: seq<Boundary>, n: int)
    requires 0 <= n <= |bs| && SlotsCover(bufVec, idxVec, buffers0, n)
  {
    exists t :: 0 <= t < n && SendSlotStale(ops, bufVec, idxVec, bndInfo, buffers0, bs, t)
  }

  lemma AnyStaleStep(ops: BufferOps, bufVec: seq<Key>, idxVec: seq<int>, bndInfo: seq<BndInfo>,
                     buffers0: map<Key, CommBuffer>, bs: seq<Boundary>, n: int)
    requires 0 < n <= |bs| && SlotsCover(bufVec, idxVec, buffers0, n)
    ensures AnyStale(ops, bufVec, idxVec, bndInfo, buffers0, bs, n)
      == (AnyStale(ops, bufVec, idxVec, bndInfo, buffers0, bs, n - 1) || SendSlotStale(ops, bufVec, idxVec, bndInfo, buffers0, bs, n - 1))
  {
    if AnyStale(ops, bufVec, idxVec, bndInfo, buffers0, bs, n) {
      var t :| 0 <= t < n && SendSlotStale(ops, bufVec, idxVec, bndInfo, buffers0, bs, t);
      if t < n - 1 {
        assert AnyStale(ops, bufVec, idxVec, bndInfo, buffers0, bs, n - 1);
      }
    }
    if AnyStale(ops, bufVec, idxVec, bndInfo, buffers0, bs, n - 1) {
      var t :| 0 <= t < n - 1 && SendSlotStale(ops, bufVec, idxVec, bndInfo, buffers0, bs, t);
      assert 0 <= t < n && SendSlotStale(ops, bufVec, idxVec, bndInfo, buffers0, bs, t);
    }
  }

  /** ... and asks for a rebuild exactly when some slot is stale. */
  lemma {:induction false} SendScanRebuild(ops: BufferOps, bufVec: seq<Key>, idxVec: seq<int>, bndInfo: seq<BndInfo>,
                                           buffers0: map<Key, CommBuffer>, bs: seq<Boundary>, n: int)
    requires 0 <= n <= |bs| && SlotsCover(bufVec, idxVec, buffers0, n) && DistinctBuffers(bufVec, idxVec, n)
    ensures SendScan(ops, bufVec, idxVec, bndInfo, buffers0, bs, n).rebuild
      <==> exists t :: 0 <= t < n && SendSlotStale(ops, bufVec, idxVec, bndInfo, buffers0, bs, t)
    decreases n
  {
    if n > 0 {
      SendScanStep(ops, bufVec, idxVec, bndInfo, buffers0, bs, n - 1);
      SendScanRebuild(ops, bufVec, idxVec, bndInfo, buffers0, bs, n - 1);
      SendScanBufferKept(ops, bufVec, idxVec, bndInfo, buffers0, bs, n - 1);
      var st := SendScan(ops, bufVec, idxVec, bndInfo, buffers0, bs, n - 1);
      AnyStaleStep(ops, bufVec, idxVec, bndInfo, buffers0, bs, n);
      assert st.rebuild == AnyStale(ops, bufVec, idxVec, bndInfo, buffers0, bs, n - 1);
      var k := bufVec[idxVec[n - 1]];
      var r := SendVisit(ops, bufVec, bndInfo, st, idxVec[n - 1], bs[n - 1]);
      assert r.rebuild == AnyStale(ops, bufVec, idxVec, bndInfo, buffers0, bs, n);
    }
  }

  /** Sequential boundary `t` forces a receive-side rebuild: no metadata for its slot,
      other storage, or data received for a slot cached as unallocated (or a null
      message for one cached as allocated). */
  predicate ReceiveSlotStale(ops: BufferOps, bufVec: seq<Key>, idxVec: seq<int>, bndInfo: seq<BndInfo>,
                             buffers: map<Key, CommBuffer>, t: int)
    requires SlotLive(bufVec, idxVec, buffers, t)
  {
    var ibuf := idxVec[t];
    var buf := buffers[bufVec[ibuf]];
    ibuf >= |bndInfo|
    || !ops.sameResource(bndInfo[ibuf].buf, buf.resource)
    || (buf.state == Received && !bndInfo[ibuf].isAllocated)
    || (buf.state == ReceivedNull && bndInfo[ibuf].isAllocated)
  }

  /** The slots `< n` were last written by sequential boundary `b`. */
  predicate LastWrite(idxVec: seq<int>, n: int, b: int)
    requires 0 <= b < n <= |idxVec|
  {
    forall c :: b < c < n ==> idxVec[c] != idxVec[b]
  }

  /** No sequential boundary below `n` writes slot `i`. */
  predicate Unwritten(idxVec: seq<int>, n: int, i: int)
    requires 0 <= n <= |idxVec|
  {
    forall b :: 0 <= b < n ==> idxVec[b] != i
  }

  /** A permutation writes every slot, each one once. */
  lemma PermutationWritesAll(idxVec: seq<int>, n: int)
    requires IsPermutation(idxVec, n)
    ensures forall b :: 0 <= b < n ==> LastWrite(idxVec, n, b)
    ensures forall i :: 0 <= i < n ==> !Unwritten(idxVec, n, i)
  {
    forall i | 0 <= i < n
      ensures !Unwritten(idxVec, n, i)
    {
      assert Hits(idxVec, n, i);
      var t :| 0 <= t < n && idxVec[t] == i;
    }
  }

  /** A sequence undoing permutation `perm` is itself a permutation, and maps every
      value back to its position in `perm`. */
  lemma InversePermutation(perm: seq<int>, inv: seq<int>, n: int)
    requires IsPermutation(perm, n) && |inv| == n
    requires forall u :: 0 <= u < n ==> inv[perm[u]] == u
    ensures IsPermutation(inv, n)
    ensures forall b :: 0 <= b < n ==> perm[inv[b]] == b
  {
    forall b | 0 <= b < n
      ensures 0 <= inv[b] < n && perm[inv[b]] == b
    {
      assert Hits(perm, n, b);
      var u :| 0 <= u < n && perm[u] == b;
    }
    forall u | 0 <= u < n
      ensures Hits(inv, n, u)
    {
      assert inv[perm[u]] == u;
    }
  }

  /** The body of the send-check callback for one boundary `b` whose slot is `ibuf`:
      note a busy buffer, allocate or free the buffer to match `b`'s variable, and
      compare the slot's metadata with the storage the buffer now holds. */
  method VisitSendBoundary(ops: BufferOps, bufVec: seq<Key>, bndInfo: seq<BndInfo>, buffers: map<Key, CommBuffer>,
                           rebuild: bool, unfinished: bool, n: int, ibuf: int, b: Boundary)
    returns (buffers': map<Key, CommBuffer>, rebuild': bool, unfinished': bool)
    requires 0 <= ibuf < |bufVec| && bufVec[ibuf] in buffers
    ensures SendCheck(buffers', rebuild', unfinished', n + 1)
      == SendVisit(ops, bufVec, bndInfo, SendCheck(buffers, rebuild, unfinished, n), ibuf, b)
  {
    var k := bufVec[ibuf];
    var buf := buffers[k];
    unfinished' := unfinished;
    if !ops.availableForWrite(buf) {
      unfinished' := true;
    }
    if b.v.isAllocated {
      buf := ops.allocate(buf);
    } else {
      buf := ops.free(buf);
    }
    buffers' := buffers[k := buf];
    if ibuf < |bndInfo| {
      rebuild' := rebuild || !ops.sameResource(bndInfo[ibuf].buf, buf.resource);
    } else {
      rebuild' := true;
    }
  }

  /** The send check's sweep over the boundaries `bs` in order. */
  method SendCheckScan(ops: BufferOps, bufVec: seq<Key>, idxVec: seq<int>, bndInfo: seq<BndInfo>,
                       buffers0: map<Key, CommBuffer>, bs: seq<Boundary>)
    returns (buffers: map<Key, CommBuffer>, rebuild: bool, unfinished: bool, nbound: int)
    requires SlotsCover(bufVec, idxVec, buffers0, |bs|)
    ensures SendCheck(buffers, rebuild, unfinished, nbound) == SendScan(ops, bufVec, idxVec, bndInfo, buffers0, bs, |bs|)
  {
    buffers, rebuild, unfinished, nbound := buffers0, false, false, 0;
    ghost var st := SendScan(ops, bufVec, idxVec, bndInfo, buffers0, bs, 0);
    while nbound < |bs|
      invariant 0 <= nbound <= |bs| && SlotsCover(bufVec, idxVec, buffers0, nbound)
      invariant st == SendScan(ops, bufVec, idxVec, bndInfo, buffers0, bs, nbound)
      invariant st == SendCheck(buffers, rebuild, unfinished, nbound)
    {
      SlotsCoverPrefix(bufVec, idxVec, buffers0, |bs|, nbound + 1);
      SendScanStep(ops, bufVec, idxVec, bndInfo, buffers0, bs, nbound);
      buffers, rebuild, unfinished := VisitSendBoundary(ops, bufVec, bndInfo, buffers, rebuild, unfinished, nbound, idxVec[nbound], bs[nbound]);
      st := SendScan(ops, bufVec, idxVec, bndInfo, buffers0, bs, nbound + 1);
      nbound := nbound + 1;
    }
  }

  /** The key loop of BuildBufferCache: one entry per boundary, in traversal order,
      tagged with its sequential index. */
  method CollectKeys(bound: BoundaryType, myRank: int, md: seq<BlockData>, keyFunc: Boundary -> Key)
    returns (keyOrder: seq<KeyOrderEntry>)
    ensures var bs := Boundaries(bound, myRank, md);
      && |keyOrder| == |bs|
      && forall b :: 0 <= b < |bs| ==> keyOrder[b].boundaryIdx == b && keyOrder[b].key == keyFunc(bs[b])
  {
    ghost var bs := Boundaries(bound, myRank, md);
    var st := ForEachBoundary(bound, myRank, md, FuncCaller(PushKey(keyFunc)), ([], 0));
    keyOrder := st.0;
    FuncCallerVisitsAll(PushKey(keyFunc), ([], 0), bs);
    KeyOrderListsBoundaries(keyFunc, bs);
  }

  /** The slot loop of BuildBufferCache: slot `t` gets the key of the boundary the
      permutation puts there, and each boundary learns its slot. */
  method FillSlots(keyOrder: seq<KeyOrderEntry>, perm: seq<int>) returns (bufVec: seq<Key>, idxVec: seq<int>)
    requires IsPermutation(perm, |keyOrder|)
    requires forall b :: 0 <= b < |keyOrder| ==> keyOrder[b].boundaryIdx == b
    ensures |bufVec| == |keyOrder| && IsPermutation(idxVec, |keyOrder|)
    ensures forall t :: 0 <= t < |keyOrder| ==> bufVec[t] == keyOrder[perm[t]].key
    ensures forall b :: 0 <= b < |keyOrder| ==> bufVec[idxVec[b]] == keyOrder[b].key
  {
    var n := |keyOrder|;
    var shuffled := seq(n, t requires 0 <= t < n => keyOrder[perm[t]]);
    bufVec := [];
    idxVec := seq(n, _ => 0);
    var t := 0;
    while t < n
      invariant 0 <= t <= n && |idxVec| == n && |bufVec| == t
      invariant forall u :: 0 <= u < t ==> bufVec[u] == keyOrder[perm[u]].key
      invariant forall u :: 0 <= u < t ==> idxVec[perm[u]] == u
    {
      bufVec := bufVec + [shuffled[t].key];
      idxVec := idxVec[shuffled[t].boundaryIdx := t];
      t := t + 1;
    }
    InversePermutation(perm, idxVec, n);
  }

  /** The live communication buffers, by key (`boundary_comm_map`). */
  class CommMap {
    var buffers: map<Key, CommBuffer>

    constructor(buffers: map<Key, CommBuffer>)
      ensures this.buffers == buffers
    {
      this.buffers := buffers;
    }
  }

  /** One sub-cache of a MeshData's boundary cache (`BvarsSubCache_t`): the buffers in
      slot order (`buf_vec`, each naming its channel by key), the slot of each
      sequential boundary (`idx_vec`), and the per-slot metadata (`bnd_info_h`). */
  class BvarsSubCache {
    var bufVec: seq<Key>
    var idxVec: seq<int>
    var bndInfo: seq<BndInfo>

    constructor()
      ensures bufVec == [] && idxVec == [] && bndInfo == []
    {
      bufVec, idxVec, bndInfo := [], [], [];
    }

    /** BuildBufferCache: record each boundary's key in traversal order, put the
        records in the order of the permutation `perm` (the shuffle), then give slot
        `t` the t-th shuffled channel and point each boundary at its slot. */
    method BuildBufferCache(bound: BoundaryType, myRank: int, md: seq<BlockData>, keyFunc: Boundary -> Key, perm: seq<int>)
      requires IsPermutation(perm, |Boundaries(bound, myRank, md)|)
      modifies this
      ensures var bs := Boundaries(bound, myRank, md);
        && |bufVec| == |bs| && IsPermutation(idxVec, |bs|)
        && (forall t :: 0 <= t < |bs| ==> bufVec[t] == keyFunc(bs[perm[t]]))
        && (forall b :: 0 <= b < |bs| ==> bufVec[idxVec[b]] == keyFunc(bs[b]))
      ensures bndInfo == old(bndInfo)
    {
      var keyOrder := CollectKeys(bound, myRank, md, keyFunc);
      bufVec, idxVec := FillSlots(keyOrder, perm);
    }

    /** CheckSendBufferCacheForRebuild: visit every boundary of `bound` (the callback
        never breaks out), allocate or free its buffer to match its variable, note
        buffers still busy, and ask for a rebuild when a slot is stale; `nbound`
        counts the boundaries. */
    method CheckSendBufferCacheForRebuild(bound: BoundaryType, myRank: int, md: seq<BlockData>, comm: CommMap, ops: BufferOps)
      returns (rebuild: bool, nbound: int, unfinished: bool)
      requires SlotsCover(bufVec, idxVec, comm.buffers, |Boundaries(bound, myRank, md)|)
      modifies comm
      ensures var bs := Boundaries(bound, myRank, md);
        SendCheck(comm.buffers, rebuild, unfinished, nbound)
          == SendScan(ops, bufVec, idxVec, bndInfo, old(comm.buffers), bs, |bs|)
    {
      var bs := Boundaries(bound, myRank, md);
      var buffers;
      buffers, rebuild, unfinished, nbound := SendCheckScan(ops, bufVec, idxVec, bndInfo, comm.buffers, bs);
      comm.buffers := buffers;
    }

    /** CheckReceiveBufferCacheForRebuild: over the `flxcor_recv` boundaries, whatever
        boundary type the cache was built for, ask for a rebuild exactly when some slot
        is stale; `nbound` counts the boundaries. */
    method CheckReceiveBufferCacheForRebuild(myRank: int, md: seq<BlockData>, comm: CommMap, ops: BufferOps)
      returns (rebuild: bool, nbound: int)
      requires SlotsCover(bufVec, idxVec, comm.buffers, |Boundaries(FlxcorRecv, myRank, md)|)
      ensures nbound == |Boundaries(FlxcorRecv, myRank, md)|
      ensures rebuild <==> exists t :: 0 <= t < nbound && ReceiveSlotStale(ops, bufVec, idxVec, bndInfo, comm.buffers, t)
    {
      var bs := Boundaries(FlxcorRecv, myRank, md);
      rebuild, nbound := false, 0;
      while nbound < |bs|
        invariant 0 <= nbound <= |bs|
        invariant rebuild <==> exists t :: 0 <= t < nbound && ReceiveSlotStale(ops, bufVec, idxVec, bndInfo, comm.buffers, t)
      {
        ghost var before := rebuild;
        var ibuf := idxVec[nbound];
        var buf := comm.buffers[bufVec[ibuf]];
        if ibuf < |bndInfo| {
          rebuild := rebuild || !ops.sameResource(bndInfo[ibuf].buf, buf.resource);
          if buf.state == Received && !bndInfo[ibuf].isAllocated {
            rebuild := true;
          }
          if buf.state == ReceivedNull && bndInfo[ibuf].isAllocated {
            rebuild := true;
          }
        } else {
          rebuild := true;
        }
        assert rebuild == (before || ReceiveSlotStale(ops, bufVec, idxVec, bndInfo, comm.buffers, nbound));
        nbound := nbound + 1;
      }
    }

    /** RebuildBufferCache: fresh metadata for `nbound` slots, the slot of each visited
        boundary filled from that boundary and its buffer (the last write winning), the
        other slots left default. */
    method RebuildBufferCache(bound: BoundaryType, myRank: int, md: seq<BlockData>, nbound: int,
                              creator: (Boundary, Key) -> BndInfo, empty: BndInfo)
      requires 0 <= nbound
      requires var bs := Boundaries(bound, myRank, md);
        |bs| <= |idxVec| && forall b :: 0 <= b < |bs| ==> 0 <= idxVec[b] < nbound && idxVec[b] < |bufVec|
      modifies this
      ensures bufVec == old(bufVec) && idxVec == old(idxVec) && |bndInfo| == nbound
      ensures var bs := Boundaries(bound, myRank, md);
        forall b :: 0 <= b < |bs| && LastWrite(idxVec, |bs|, b) ==>
          bndInfo[idxVec[b]] == creator(bs[b], bufVec[idxVec[b]])
      ensures var bs := Boundaries(bound, myRank, md);
        forall i :: 0 <= i < nbound && Unwritten(idxVec, |bs|, i) ==> bndInfo[i] == empty
    {
      var bs := Boundaries(bound, myRank, md);
      bndInfo := seq(nbound, _ => empty);
      var ibound := 0;
      while ibound < |bs|
        invariant 0 <= ibound <= |bs| && |bndInfo| == nbound
        invariant bufVec == old(bufVec) && idxVec == old(idxVec)
        invariant forall b :: 0 <= b < ibound && LastWrite(idxVec, ibound, b) ==>
          bndInfo[idxVec[b]] == creator(bs[b], bufVec[idxVec[b]])
        invariant forall i :: 0 <= i < nbound && Unwritten(idxVec, ibound, i) ==> bndInfo[i] == empty
      {
        var ibuf := idxVec[ibound];
        bndInfo := bndInfo[ibuf := creator(bs[ibound], bufVec[ibuf])];
        ibound := ibound + 1;
      }
    }
  }
}
