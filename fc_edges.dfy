/** The edge scan of CountFineEdges: for each edge of a block, walk the 2x2 neighbour
    levels around it, tracking the finest level seen (`fl`) and how many neighbours
    sit at it (`nf`). */
module FcEdges {

  /** `nblevel[k][j][i]`: refinement level of the neighbour at offset (k-1, j-1, i-1). */
  type Levels = seq<seq<seq<int>>>

  predicate ValidLevels(nb: Levels) {
    |nb| == 3 && forall k :: 0 <= k < 3 ==> |nb[k]| == 3 && forall j :: 0 <= j < 3 ==> |nb[k][j]| == 3
  }

  /** First and last offsets a scan visits along an axis where the edge lies at `o`:
      `std::max(o-1, -1)` and `std::min(o+1, 1)`. */
  function Lo(o: int): int { if o - 1 > -1 then o - 1 else -1 }
  function Hi(o: int): int { if o + 1 < 1 then o + 1 else 1 }

  /** The three edge families: 0 for edges along x3 (scanned in the (x2, x1) plane),
      1 for edges along x2 ((x3, x1) plane), 2 for edges along x1 ((x3, x2) plane).
      `x` is the outer scan offset, `y` the inner one. */
  function At(nb: Levels, g: int, x: int, y: int): int
    requires ValidLevels(nb) && 0 <= g <= 2 && -1 <= x <= 1 && -1 <= y <= 1
  {
    if g == 0 then nb[1][x + 1][y + 1]
    else if g == 1 then nb[x + 1][1][y + 1]
    else nb[x + 1][y + 1][1]
  }

  /** The four levels the nested scan loops visit, in loop order. */
  function Visited(nb: Levels, g: int, ob: int, oa: int): (r: seq<int>)
    requires ValidLevels(nb) && 0 <= g <= 2 && (ob == -1 || ob == 1) && (oa == -1 || oa == 1)
    ensures |r| == 4
  {
    var x, y := Lo(ob), Lo(oa);
    [At(nb, g, x, y), At(nb, g, x, y + 1), At(nb, g, x + 1, y), At(nb, g, x + 1, y + 1)]
  }

  /** The neighbour the scan loops reach at offsets `(x, y)`. */
  lemma VisitedAt(nb: Levels, g: int, ob: int, oa: int, x: int, y: int)
    requires ValidLevels(nb) && 0 <= g <= 2 && (ob == -1 || ob == 1) && (oa == -1 || oa == 1)
    requires Lo(ob) <= x <= Hi(ob) && Lo(oa) <= y <= Hi(oa)
    ensures -1 <= x <= 1 && -1 <= y <= 1
    ensures Visited(nb, g, ob, oa)[2 * (x - Lo(ob)) + (y - Lo(oa))] == At(nb, g, x, y)
  {
  }

  /** One iteration of the scan body. */
  function Step(st: (int, int), level: int): (int, int) {
    var (fl, nf) := if level > st.0 then (st.0 + 1, 0) else st;
    if level == fl then (fl, nf + 1) else (fl, nf)
  }

  /** The scan from `(mylevel, 0)` over `levels`. */
  function Scan(levels: seq<int>, mylevel: int): (int, int)
    decreases |levels|
  {
    if |levels| == 0 then (mylevel, 0)
    else Step(Scan(levels[..|levels| - 1], mylevel), levels[|levels| - 1])
  }

  /** How many entries of `levels` equal `x`. */
  function Count(levels: seq<int>, x: int): (r: nat)
    ensures r <= |levels|
    decreases |levels|
  {
    if |levels| == 0 then 0
    else Count(levels[..|levels| - 1], x) + (if levels[|levels| - 1] == x then 1 else 0)
  }

  predicate AnyFiner(levels: seq<int>, mylevel: int) {
    exists n :: 0 <= n < |levels| && levels[n] > mylevel
  }

  lemma {:induction false} CountAbsent(levels: seq<int>, x: int)
    requires forall n :: 0 <= n < |levels| ==> levels[n] != x
    ensures Count(levels, x) == 0
    decreases |levels|
  {
    if |levels| > 0 {
      CountAbsent(levels[..|levels| - 1], x);
    }
  }

  /** With neighbours at most one level finer (the mesh's 2:1 balance), the scan ends
      at the finest level present, one above `mylevel` exactly when some neighbour is
      finer, and `nf` counts the neighbours at that level. */
  lemma {:induction false} ScanCounts(levels: seq<int>, mylevel: int)
    requires forall n :: 0 <= n < |levels| ==> levels[n] <= mylevel + 1
    ensures Scan(levels, mylevel).0 == (if AnyFiner(levels, mylevel) then mylevel + 1 else mylevel)
    ensures Scan(levels, mylevel).1 == Count(levels, Scan(levels, mylevel).0)
    decreases |levels|
  {
    if |levels| > 0 {
      var p, last := levels[..|levels| - 1], levels[|levels| - 1];
      ScanCounts(p, mylevel);
      var st := Scan(p, mylevel);
      if AnyFiner(p, mylevel) {
        var n :| 0 <= n < |p| && p[n] > mylevel;
        assert levels[n] == p[n];
      }
      if last > st.0 {
        assert !AnyFiner(p, mylevel);
        CountAbsent(p, mylevel + 1);
        assert levels[|levels| - 1] > mylevel;
      } else if last > mylevel {
        assert levels[|levels| - 1] > mylevel;
      } else if AnyFiner(levels, mylevel) {
        var n :| 0 <= n < |levels| && levels[n] > mylevel;
        assert p[n] == levels[n];
      }
    }
  }

  /** The same under balance, read as the flag CountFineEdges stores: the edge flag is
      set exactly when no neighbour around the edge is finer. */
  lemma EdgeFlagMeansNoFinerNeighbour(levels: seq<int>, mylevel: int)
    requires forall n :: 0 <= n < |levels| ==> levels[n] <= mylevel + 1
    ensures Scan(levels, mylevel).0 == mylevel <==> forall n :: 0 <= n < |levels| ==> levels[n] <= mylevel
    ensures Scan(levels, mylevel).0 != mylevel ==> Scan(levels, mylevel).1 == Count(levels, mylevel + 1) >= 1
  {
    ScanCounts(levels, mylevel);
    if Scan(levels, mylevel).0 != mylevel {
      var n :| 0 <= n < |levels| && levels[n] > mylevel;
      CountPresent(levels, n);
    }
  }

  lemma {:induction false} CountPresent(levels: seq<int>, n: int)
    requires 0 <= n < |levels|
    ensures Count(levels, levels[n]) >= 1
    decreases |levels|
  {
    if n < |levels| - 1 {
      CountPresent(levels[..|levels| - 1], n);
    }
  }

  /** The `ox` value of the `q`-th pass of a `for (ox = -1; ox <= 1; ox += 2)` loop. */
  function Sign(q: int): int { if q == 0 then -1 else 1 }

  /** Number of edges CountFineEdges fills: four in 2D, twelve in 3D. */
  function EdgeCount(nx2: int, nx3: int): nat {
    (if nx2 > 1 then 4 else 0) + (if nx3 > 1 then 8 else 0)
  }

  /** The family and offsets of the `e`-th edge written. */
  function EdgeOf(nx2: int, e: int): (r: (int, int, int))
    requires 0 <= e
    requires nx2 > 1 ==> e < 12
    requires nx2 <= 1 ==> e < 8
    ensures 0 <= r.0 <= 2 && (r.1 == -1 || r.1 == 1) && (r.2 == -1 || r.2 == 1)
  {
    var q := if nx2 > 1 then e else e + 4;
    (q / 4, Sign(q % 4 / 2), Sign(q % 2))
  }

  lemma ScanSnoc(levels: seq<int>, n: int, mylevel: int)
    requires 0 <= n < |levels|
    ensures Scan(levels[..n + 1], mylevel) == Step(Scan(levels[..n], mylevel), levels[n])
  {
    assert levels[..n + 1][..n] == levels[..n];
  }

  /** The body of the inner loops for one neighbour at `level`: a finer neighbour
      raises the finest level seen by one and restarts the count, and a neighbour at
      the finest level is counted. */
  method Tally(fl: int, nf: int, level: int) returns (fl': int, nf': int)
    ensures (fl', nf') == Step((fl, nf), level)
  {
    fl', nf' := fl, nf;
    if level > fl' {
      fl', nf' := fl' + 1, 0;
    }
    if level == fl' {
      nf' := nf' + 1;
    }
  }

  /** The inner scan of one edge, as the two nested loops over the 2x2 neighbour
      window. */
  method ScanEdge(nb: Levels, mylevel: int, g: int, ob: int, oa: int) returns (fl: int, nf: int)
    requires ValidLevels(nb) && 0 <= g <= 2 && (ob == -1 || ob == 1) && (oa == -1 || oa == 1)
    ensures (fl, nf) == Scan(Visited(nb, g, ob, oa), mylevel)
  {
    var vis := Visited(nb, g, ob, oa);
    var xs, xe, ys, ye := Lo(ob), Hi(ob), Lo(oa), Hi(oa);
    assert xe == xs + 1 && ye == ys + 1;
    fl, nf := mylevel, 0;
    var x := xs;
    while x <= xe
      invariant xs <= x <= xe + 1
      invariant (fl, nf) == Scan(vis[..2 * (x - xs)], mylevel)
    {
      var y := ys;
      while y <= ye
        invariant ys <= y <= ye + 1
        invariant (fl, nf) == Scan(vis[..2 * (x - xs) + (y - ys)], mylevel)
      {
        var n := 2 * (x - xs) + (y - ys);
        var level := At(nb, g, x, y);
        VisitedAt(nb, g, ob, oa, x, y);
        ScanSnoc(vis, n, mylevel);
        fl, nf := Tally(fl, nf, level);
        y := y + 1;
      }
      x := x + 1;
    }
    assert vis[..4] == vis;
  }

  /** Entry `e` of the stored flags and counts holds the scan of edge (g, ob, oa):
      the flag says no neighbour is finer, the count is the neighbours at the finest level. */
  predicate EdgeWritten(flags: seq<bool>, counts: seq<int>, nb: Levels, mylevel: int, e: int, g: int, ob: int, oa: int)
    requires ValidLevels(nb) && 0 <= g <= 2 && (ob == -1 || ob == 1) && (oa == -1 || oa == 1)
    requires 0 <= e < |flags| && e < |counts|
  {
    var st := Scan(Visited(nb, g, ob, oa), mylevel);
    flags[e] == (st.0 == mylevel) && counts[e] == st.1
  }

  /** Entry `e` is the `(e - eid0)`-th edge of family `g`, in loop order. */
  predicate FamilyEdgeWritten(flags: seq<bool>, counts: seq<int>, nb: Levels, mylevel: int, g: int, eid0: int, e: int)
    requires ValidLevels(nb) && 0 <= g <= 2 && eid0 <= e < eid0 + 4
    requires 0 <= e < |flags| && e < |counts|
  {
    EdgeWritten(flags, counts, nb, mylevel, e, g, Sign((e - eid0) / 2), Sign((e - eid0) % 2))
  }

  /** Entry `e` holds the edge EdgeOf assigns to it. */
  predicate EdgeCounted(flags: seq<bool>, counts: seq<int>, nb: Levels, mylevel: int, nx2: int, nx3: int, e: int)
    requires ValidLevels(nb) && 0 <= e < EdgeCount(nx2, nx3)
    requires e < |flags| && e < |counts|
  {
    var (g, ob, oa) := EdgeOf(nx2, e);
    EdgeWritten(flags, counts, nb, mylevel, e, g, ob, oa)
  }

  /** The three family scans, written one after another from index 0 (family 0 only
      when nx2 > 1), leave every edge holding what EdgeOf assigns to it. */
  lemma FamiliesCounted(flags: seq<bool>, counts: seq<int>, nb: Levels, mylevel: int, nx2: int, nx3: int)
    requires ValidLevels(nb) && |flags| == 12 && |counts| == 12
    requires nx2 > 1 ==> forall e :: 0 <= e < 4 ==> FamilyEdgeWritten(flags, counts, nb, mylevel, 0, 0, e)
    requires var base := if nx2 > 1 then 4 else 0; var mid := base + 4;
      nx3 > 1 ==>
        && (forall e :: base <= e < base + 4 ==> FamilyEdgeWritten(flags, counts, nb, mylevel, 1, base, e))
        && (forall e :: mid <= e < mid + 4 ==> FamilyEdgeWritten(flags, counts, nb, mylevel, 2, mid, e))
    ensures forall e :: 0 <= e < EdgeCount(nx2, nx3) ==> EdgeCounted(flags, counts, nb, mylevel, nx2, nx3, e)
  {
    var base := if nx2 > 1 then 4 else 0;
    forall e | 0 <= e < EdgeCount(nx2, nx3)
      ensures EdgeCounted(flags, counts, nb, mylevel, nx2, nx3, e)
    {
      var q := if nx2 > 1 then e else e + 4;
      if e < base {
        assert FamilyEdgeWritten(flags, counts, nb, mylevel, 0, 0, e);
        assert q == e && q / 4 == 0 && q % 4 == e;
      } else if e < base + 4 {
        assert FamilyEdgeWritten(flags, counts, nb, mylevel, 1, base, e);
        assert q / 4 == 1 && q % 4 == e - base;
      } else {
        assert FamilyEdgeWritten(flags, counts, nb, mylevel, 2, base + 4, e);
        assert q / 4 == 2 && q % 4 == e - base - 4;
      }
    }
  }
}
