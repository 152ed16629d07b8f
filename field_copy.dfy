/** Field arrays as maps from `(k, j, i)` to opaque values, and the row-major copies
    PackData/UnpackData perform over an inclusive window: i runs fastest, then j, then
    k, and the cursor `p` advances by one per value. The degenerate-axis replication
    loops of the face-centred routines are here too. */
module FieldCopy {
  import opened FcTypes

  /** A cell or face index `(k, j, i)`. */
  type Idx = (int, int, int)

  /** One component of a face field (or of the coarse buffer): only the indices the
      array has are keys. */
  type Field<V> = map<Idx, V>

  // ---- the row-major order ----

  /** The cells `(k, j, ri.s) .. (k, j, ri.e)` of one row, in loop order. */
  function Cells(k: int, j: int, ri: Range): (r: seq<Idx>)
    ensures |r| == ri.Len()
    decreases ri.e - ri.s
  {
    if ri.e < ri.s then [] else Cells(k, j, Range(ri.s, ri.e - 1)) + [(k, j, ri.e)]
  }

  /** The rows `rj` of plane `k`, in loop order. */
  function Rows(k: int, rj: Range, ri: Range): seq<Idx>
    decreases rj.e - rj.s
  {
    if rj.e < rj.s then [] else Rows(k, Range(rj.s, rj.e - 1), ri) + Cells(k, rj.e, ri)
  }

  /** The planes `rk`, in loop order. */
  function Planes(rk: Range, rj: Range, ri: Range): seq<Idx>
    decreases rk.e - rk.s
  {
    if rk.e < rk.s then [] else Planes(Range(rk.s, rk.e - 1), rj, ri) + Rows(rk.e, rj, ri)
  }

  /** The order in which PackData reads and UnpackData writes a window. */
  function Coords(w: Window): (r: seq<Idx>)
    ensures |r| == w.Volume()
  {
    PlanesLength(w.k, w.j, w.i);
    Planes(w.k, w.j, w.i)
  }

  predicate InWindow(c: Idx, w: Window) { w.Has(c.0, c.1, c.2) }

  predicate Distinct(cs: seq<Idx>) {
    forall m, n :: 0 <= m < n < |cs| ==> cs[m] != cs[n]
  }

  predicate Covers<V>(f: Field<V>, cs: seq<Idx>) {
    forall c :: c in cs ==> c in f
  }

  /** The values of `f` at `cs`, in order. */
  function Gather<V>(f: Field<V>, cs: seq<Idx>): (r: seq<V>)
    requires Covers(f, cs)
    ensures |r| == |cs|
    ensures forall n :: 0 <= n < |cs| ==> r[n] == f[cs[n]]
  {
    seq(|cs|, n requires 0 <= n < |cs| => f[cs[n]])
  }

  /** `f` with `vs[n]` written at `cs[n]`, one after the other. */
  function Scatter<V>(f: Field<V>, cs: seq<Idx>, vs: seq<V>): Field<V>
    requires |cs| == |vs|
    decreases |cs|
  {
    if |cs| == 0 then f
    else Scatter(f, cs[..|cs| - 1], vs[..|vs| - 1])[cs[|cs| - 1] := vs[|vs| - 1]]
  }

  function AddIdx(c: Idx, d: Idx): Idx { (c.0 + d.0, c.1 + d.1, c.2 + d.2) }

  /** `f` with the value at each `cs[n]` copied to `cs[n] + d`, one after the other. */
  function CopyAll<V>(f: Field<V>, cs: seq<Idx>, d: Idx): (r: Field<V>)
    requires Covers(f, cs)
    ensures forall c :: c in f ==> c in r
    decreases |cs|
  {
    if |cs| == 0 then f
    else CopyAll(f, cs[..|cs| - 1], d)[AddIdx(cs[|cs| - 1], d) := f[cs[|cs| - 1]]]
  }

  // ---- lemmas about the order ----

  lemma {:induction false} CellsFacts(k: int, j: int, ri: Range)
    ensures forall c :: c in Cells(k, j, ri) <==> c.0 == k && c.1 == j && ri.Has(c.2)
    ensures Distinct(Cells(k, j, ri))
    decreases ri.e - ri.s
  {
    if ri.e >= ri.s {
      var pre := Range(ri.s, ri.e - 1);
      var a, last := Cells(k, j, pre), (k, j, ri.e);
      CellsFacts(k, j, pre);
      assert Cells(k, j, ri) == a + [last];
      forall c ensures c in a + [last] <==> c.0 == k && c.1 == j && ri.Has(c.2) {
        assert c in a + [last] <==> c in a || c == last;
      }
      DistinctConcat(a, [last]);
    }
  }

  lemma DistinctConcat(a: seq<Idx>, b: seq<Idx>)
    requires Distinct(a) && Distinct(b)
    requires forall c :: c in a ==> c !in b
    ensures Distinct(a + b)
  {
    var s := a + b;
    forall m, n | 0 <= m < n < |s|
      ensures s[m] != s[n]
    {
      if n < |a| {
      } else if m >= |a| {
        assert s[m] == b[m - |a|] && s[n] == b[n - |a|];
      } else {
        assert s[m] == a[m] && s[n] == b[n - |a|];
        assert a[m] in a;
      }
    }
  }

  lemma MulStep(l: int, a: int)
    ensures l * a + l == l * (a + 1)
  {
  }

  lemma {:induction false} RowsLength(k: int, rj: Range, ri: Range)
    ensures |Rows(k, rj, ri)| == ri.Len() * rj.Len()
    decreases rj.e - rj.s
  {
    if rj.e >= rj.s {
      var pre := Range(rj.s, rj.e - 1);
      RowsLength(k, pre, ri);
      assert pre.Len() + 1 == rj.Len();
      MulStep(ri.Len(), pre.Len());
    }
  }

  /** A window's coordinate list is as long as the window's volume. */
  lemma {:induction false} PlanesLength(rk: Range, rj: Range, ri: Range)
    ensures |Planes(rk, rj, ri)| == ri.Len() * rj.Len() * rk.Len()
    decreases rk.e - rk.s
  {
    if rk.e >= rk.s {
      var pre := Range(rk.s, rk.e - 1);
      PlanesLength(pre, rj, ri);
      RowsLength(rk.e, rj, ri);
      assert pre.Len() + 1 == rk.Len();
      MulStep(ri.Len() * rj.Len(), pre.Len());
    }
  }

  lemma {:induction false} RowsFacts(k: int, rj: Range, ri: Range)
    ensures forall c :: c in Rows(k, rj, ri) <==> c.0 == k && rj.Has(c.1) && ri.Has(c.2)
    ensures Distinct(Rows(k, rj, ri))
    decreases rj.e - rj.s
  {
    if rj.e >= rj.s {
      var pre := Range(rj.s, rj.e - 1);
      RowsFacts(k, pre, ri);
      CellsFacts(k, rj.e, ri);
      DistinctConcat(Rows(k, pre, ri), Cells(k, rj.e, ri));
    }
  }

  lemma {:induction false} PlanesFacts(rk: Range, rj: Range, ri: Range)
    ensures forall c :: c in Planes(rk, rj, ri) <==> rk.Has(c.0) && rj.Has(c.1) && ri.Has(c.2)
    ensures Distinct(Planes(rk, rj, ri))
    decreases rk.e - rk.s
  {
    if rk.e >= rk.s {
      var pre := Range(rk.s, rk.e - 1);
      PlanesFacts(pre, rj, ri);
      RowsFacts(rk.e, rj, ri);
      DistinctConcat(Planes(pre, rj, ri), Rows(rk.e, rj, ri));
    }
  }

  /** A window's coordinate list has one entry per cell of the window, each exactly once. */
  lemma CoordsFacts(w: Window)
    ensures forall c :: c in Coords(w) <==> InWindow(c, w)
    ensures Distinct(Coords(w))
  {
    PlanesFacts(w.k, w.j, w.i);
  }

  // ---- gathering, scattering and copying ----

  lemma GatherConcat<V>(f: Field<V>, a: seq<Idx>, b: seq<Idx>)
    requires Covers(f, a + b)
    ensures Covers(f, a) && Covers(f, b)
    ensures Gather(f, a + b) == Gather(f, a) + Gather(f, b)
  {
    assert forall c :: c in a ==> c in a + b;
    assert forall c :: c in b ==> c in a + b;
  }

  /** Scattering one more prefix element is one more map update. */
  lemma ScatterPrefix<V>(f: Field<V>, cs: seq<Idx>, vs: seq<V>, n: int)
    requires |cs| == |vs| && 0 <= n < |cs|
    ensures Scatter(f, cs[..n + 1], vs[..n + 1]) == Scatter(f, cs[..n], vs[..n])[cs[n] := vs[n]]
  {
    assert cs[..n + 1][..n] == cs[..n];
    assert vs[..n + 1][..n] == vs[..n];
  }

  lemma ScatterConcat<V>(f: Field<V>, a: seq<Idx>, b: seq<Idx>, va: seq<V>, vb: seq<V>)
    requires |a| == |va| && |b| == |vb|
    ensures Scatter(f, a + b, va + vb) == Scatter(Scatter(f, a, va), b, vb)
    decreases |b|
  {
    if |b| > 0 {
      var b', vb' := b[..|b| - 1], vb[..|vb| - 1];
      assert (a + b)[..|a + b| - 1] == a + b';
      assert (va + vb)[..|va + vb| - 1] == va + vb';
      ScatterConcat(f, a, b', va, vb');
    } else {
      assert a + b == a && va + vb == va;
    }
  }

  /** Each written index ends up holding the value written there last; with distinct
      indices that is `vs[n]` at `cs[n]`. */
  lemma {:induction false} ScatterAt<V>(f: Field<V>, cs: seq<Idx>, vs: seq<V>, n: int)
    requires |cs| == |vs| && Distinct(cs) && 0 <= n < |cs|
    ensures cs[n] in Scatter(f, cs, vs) && Scatter(f, cs, vs)[cs[n]] == vs[n]
    decreases |cs|
  {
    if n < |cs| - 1 {
      ScatterAt(f, cs[..|cs| - 1], vs[..|vs| - 1], n);
    }
  }

  /** Indices that are not written keep their value (and presence). */
  lemma {:induction false} ScatterElse<V>(f: Field<V>, cs: seq<Idx>, vs: seq<V>, c: Idx)
    requires |cs| == |vs| && c !in cs
    ensures c in Scatter(f, cs, vs) <==> c in f
    ensures c in f ==> Scatter(f, cs, vs)[c] == f[c]
    decreases |cs|
  {
    if |cs| > 0 {
      assert c != cs[|cs| - 1];
      assert forall x :: x in cs[..|cs| - 1] ==> x in cs;
      ScatterElse(f, cs[..|cs| - 1], vs[..|vs| - 1], c);
    }
  }

  /** Scattering writes only at `cs`: the keys after it are the old keys and `cs`. */
  lemma {:induction false} ScatterKeys<V>(f: Field<V>, cs: seq<Idx>, vs: seq<V>)
    requires |cs| == |vs|
    ensures forall c :: c in Scatter(f, cs, vs) <==> c in f || c in cs
    decreases |cs|
  {
    if |cs| > 0 {
      var cs' := cs[..|cs| - 1];
      ScatterKeys(f, cs', vs[..|vs| - 1]);
      assert cs == cs' + [cs[|cs| - 1]];
    }
  }

  /** Reading back the indices just written gives the values written. */
  lemma ScatterThenGather<V>(f: Field<V>, cs: seq<Idx>, vs: seq<V>)
    requires |cs| == |vs| && Distinct(cs)
    ensures Covers(Scatter(f, cs, vs), cs)
    ensures Gather(Scatter(f, cs, vs), cs) == vs
  {
    var g := Scatter(f, cs, vs);
    forall n | 0 <= n < |cs|
      ensures cs[n] in g && g[cs[n]] == vs[n]
    {
      ScatterAt(f, cs, vs, n);
    }
  }

  /** The destinations `cs[n] + d` of a copy, in order. */
  function Shifted(cs: seq<Idx>, d: Idx): (r: seq<Idx>)
    ensures |r| == |cs|
    ensures forall n :: 0 <= n < |cs| ==> r[n] == AddIdx(cs[n], d)
  {
    seq(|cs|, n requires 0 <= n < |cs| => AddIdx(cs[n], d))
  }

  /** Indices a copy does not write keep their value. */
  lemma {:induction false} CopyAllElse<V>(f: Field<V>, cs: seq<Idx>, d: Idx, c: Idx)
    requires Covers(f, cs) && c !in Shifted(cs, d)
    ensures c in CopyAll(f, cs, d) <==> c in f
    ensures c in f ==> CopyAll(f, cs, d)[c] == f[c]
    decreases |cs|
  {
    if |cs| > 0 {
      var cs' := cs[..|cs| - 1];
      assert Shifted(cs, d)[|cs| - 1] == AddIdx(cs[|cs| - 1], d);
      assert forall x :: x in cs' ==> x in cs;
      forall x | x in Shifted(cs', d) ensures x in Shifted(cs, d) {
        var n :| 0 <= n < |cs'| && Shifted(cs', d)[n] == x;
        assert Shifted(cs, d)[n] == x;
      }
      CopyAllElse(f, cs', d, c);
    }
  }

  /** A copy writes only at its destinations: the keys after it are the old keys and
      `cs` moved by `d`. */
  lemma {:induction false} CopyAllKeys<V>(f: Field<V>, cs: seq<Idx>, d: Idx)
    requires Covers(f, cs)
    ensures forall c :: c in CopyAll(f, cs, d) <==> c in f || c in Shifted(cs, d)
    decreases |cs|
  {
    if |cs| > 0 {
      var cs' := cs[..|cs| - 1];
      assert forall x :: x in cs' ==> x in cs;
      CopyAllKeys(f, cs', d);
      assert Shifted(cs, d) == Shifted(cs', d) + [AddIdx(cs[|cs| - 1], d)];
    }
  }

  /** Every destination holds the value of its source. */
  lemma {:induction false} CopyAllAt<V>(f: Field<V>, cs: seq<Idx>, d: Idx, n: int)
    requires Covers(f, cs) && 0 <= n < |cs|
    ensures AddIdx(cs[n], d) in CopyAll(f, cs, d)
    ensures CopyAll(f, cs, d)[AddIdx(cs[n], d)] == f[cs[n]]
    decreases |cs|
  {
    var last := |cs| - 1;
    if n < last && AddIdx(cs[last], d) != AddIdx(cs[n], d) {
      assert forall x :: x in cs[..last] ==> x in cs;
      CopyAllAt(f, cs[..last], d, n);
    }
  }

  /** Copying `a + b` is copying `a` and then `b`, provided no index of `b` is a
      destination of `a` (so `b` reads values `a` left alone). */
  lemma CopyAllConcat<V>(f: Field<V>, a: seq<Idx>, b: seq<Idx>, d: Idx)
    requires Covers(f, a + b)
    requires forall y :: y in b ==> y !in Shifted(a, d)
    ensures Covers(f, a) && Covers(f, b) && Covers(CopyAll(f, a, d), b)
    ensures CopyAll(f, a + b, d) == CopyAll(CopyAll(f, a, d), b, d)
    decreases |b|
  {
    assert forall c :: c in a ==> c in a + b;
    assert forall c :: c in b ==> c in a + b;
    if |b| == 0 {
      assert a + b == a;
    } else {
      var b', y := b[..|b| - 1], b[|b| - 1];
      assert b == b' + [y];
      assert a + b == (a + b') + [y];
      assert forall c :: c in a + b' ==> c in a + b;
      CopyAllConcat(f, a, b', d);
      CopyAllElse(f, a, d, y);
      var g := CopyAll(f, a, d);
      assert CopyAll(g, b, d) == CopyAll(g, b', d)[AddIdx(y, d) := g[y]];
      assert CopyAll(f, a + b, d) == CopyAll(f, a + b', d)[AddIdx(y, d) := f[y]];
    }
  }

  /** One source of a copy whose sources are not among its destinations: its
      destination holds its value and it keeps that value. */
  lemma ReplicatedAt<V>(f: Field<V>, cs: seq<Idx>, d: Idx, c: Idx)
    requires Covers(f, cs) && c in cs
    requires forall x :: x in cs ==> x !in Shifted(cs, d)
    ensures var g := CopyAll(f, cs, d);
      c in g && AddIdx(c, d) in g && g[AddIdx(c, d)] == g[c] == f[c]
  {
    var n :| 0 <= n < |cs| && cs[n] == c;
    CopyAllAt(f, cs, d, n);
    CopyAllElse(f, cs, d, c);
  }

  /** After a copy whose sources are not among its destinations, every destination
      equals its source and the source still holds its old value. */
  lemma CopyAllReplicates<V>(f: Field<V>, cs: seq<Idx>, d: Idx)
    requires Covers(f, cs)
    requires forall x :: x in cs ==> x !in Shifted(cs, d)
    ensures var g := CopyAll(f, cs, d);
      forall n :: 0 <= n < |cs| ==>
        && cs[n] in g && AddIdx(cs[n], d) in g
        && g[AddIdx(cs[n], d)] == g[cs[n]] == f[cs[n]]
    ensures forall c :: c in f && c !in Shifted(cs, d) ==> c in CopyAll(f, cs, d) && CopyAll(f, cs, d)[c] == f[c]
  {
    forall n | 0 <= n < |cs|
      ensures var g := CopyAll(f, cs, d);
        cs[n] in g && AddIdx(cs[n], d) in g && g[AddIdx(cs[n], d)] == g[cs[n]] == f[cs[n]]
    {
      ReplicatedAt(f, cs, d, cs[n]);
    }
    forall c | c in f && c !in Shifted(cs, d)
      ensures c in CopyAll(f, cs, d) && CopyAll(f, cs, d)[c] == f[c]
    {
      CopyAllElse(f, cs, d, c);
    }
  }

  // ---- moving a window ----

  lemma ShiftedConcat(a: seq<Idx>, b: seq<Idx>, d: Idx)
    ensures Shifted(a + b, d) == Shifted(a, d) + Shifted(b, d)
  {
  }

  lemma {:induction false} CellsShift(k: int, j: int, ri: Range, dk: int, dj: int, di: int)
    ensures Cells(k + dk, j + dj, ri.Shift(di)) == Shifted(Cells(k, j, ri), (dk, dj, di))
    decreases ri.e - ri.s
  {
    if ri.e >= ri.s {
      var pre := Range(ri.s, ri.e - 1);
      assert Range(ri.Shift(di).s, ri.Shift(di).e - 1) == pre.Shift(di);
      CellsShift(k, j, pre, dk, dj, di);
      ShiftedConcat(Cells(k, j, pre), [(k, j, ri.e)], (dk, dj, di));
    }
  }

  lemma {:induction false} RowsShift(k: int, rj: Range, ri: Range, dk: int, dj: int, di: int)
    ensures Rows(k + dk, rj.Shift(dj), ri.Shift(di)) == Shifted(Rows(k, rj, ri), (dk, dj, di))
    decreases rj.e - rj.s
  {
    if rj.e >= rj.s {
      var pre := Range(rj.s, rj.e - 1);
      assert Range(rj.Shift(dj).s, rj.Shift(dj).e - 1) == pre.Shift(dj);
      RowsShift(k, pre, ri, dk, dj, di);
      CellsShift(k, rj.e, ri, dk, dj, di);
      ShiftedConcat(Rows(k, pre, ri), Cells(k, rj.e, ri), (dk, dj, di));
    }
  }

  lemma {:induction false} PlanesShift(rk: Range, rj: Range, ri: Range, dk: int, dj: int, di: int)
    ensures Planes(rk.Shift(dk), rj.Shift(dj), ri.Shift(di)) == Shifted(Planes(rk, rj, ri), (dk, dj, di))
    decreases rk.e - rk.s
  {
    if rk.e >= rk.s {
      var pre := Range(rk.s, rk.e - 1);
      assert Range(rk.Shift(dk).s, rk.Shift(dk).e - 1) == pre.Shift(dk);
      PlanesShift(pre, rj, ri, dk, dj, di);
      RowsShift(rk.e, rj, ri, dk, dj, di);
      ShiftedConcat(Planes(pre, rj, ri), Rows(rk.e, rj, ri), (dk, dj, di));
    }
  }

  /** What one side packs from window `w` and the other unpacks into `w` moved by
      `(dk, dj, di)` lands cell for cell: the value at `c` arrives at `c + d`. */
  lemma PackThenUnpack<V>(src: Field<V>, dst: Field<V>, w: Window, dk: int, dj: int, di: int)
    requires Covers(src, Coords(w))
    ensures |Coords(w.Shift(dk, dj, di))| == |Gather(src, Coords(w))|
    ensures forall c :: c in Coords(w) ==>
      var g := Scatter(dst, Coords(w.Shift(dk, dj, di)), Gather(src, Coords(w)));
      AddIdx(c, (dk, dj, di)) in g && g[AddIdx(c, (dk, dj, di))] == src[c]
  {
    var cs, d := Coords(w), (dk, dj, di);
    PlanesShift(w.k, w.j, w.i, dk, dj, di);
    CoordsFacts(w.Shift(dk, dj, di));
    var g := Scatter(dst, Coords(w.Shift(dk, dj, di)), Gather(src, cs));
    forall c | c in cs
      ensures AddIdx(c, d) in g && g[AddIdx(c, d)] == src[c]
    {
      var n :| 0 <= n < |cs| && cs[n] == c;
      ScatterAt(dst, Coords(w.Shift(dk, dj, di)), Gather(src, cs), n);
    }
  }

  // ---- PackData and UnpackData: the window at the cursor ----

  /** PackData: the window's values in row-major order at `buf[p0..]`; the cursor
      advances by the window's volume and nothing else in the buffer changes. */
  method PackData<V>(src: Field<V>, buf: array<V>, w: Window, p0: int) returns (p: int)
    requires Covers(src, Coords(w))
    requires 0 <= p0 && p0 + w.Volume() <= buf.Length
    modifies buf
    ensures p == p0 + w.Volume()
    ensures buf[p0..p] == Gather(src, Coords(w))
    ensures forall n :: 0 <= n < buf.Length && !(p0 <= n < p) ==> buf[n] == old(buf[n])
  {
    var cs := Coords(w);
    p := p0;
    var n := 0;
    while n < |cs|
      invariant 0 <= n <= |cs| && p == p0 + n
      invariant forall m :: 0 <= m < n ==> buf[p0 + m] == src[cs[m]]
      invariant forall m :: 0 <= m < buf.Length && !(p0 <= m < p) ==> buf[m] == old(buf[m])
    {
      assert cs[n] in cs;
      buf[p] := src[cs[n]];
      p, n := p + 1, n + 1;
    }
    assert buf[p0..p] == Gather(src, cs) by {
      forall m | 0 <= m < |cs| ensures buf[p0..p][m] == Gather(src, cs)[m] {
        assert buf[p0..p][m] == buf[p0 + m];
      }
    }
  }

  /** UnpackData: the next `w.Volume()` buffer values written into the window in
      row-major order; the cursor advances by the window's volume. */
  method UnpackData<V>(buf: array<V>, dst: Field<V>, w: Window, p0: int) returns (f: Field<V>, p: int)
    requires Covers(dst, Coords(w))
    requires 0 <= p0 && p0 + w.Volume() <= buf.Length
    ensures p == p0 + w.Volume()
    ensures f == Scatter(dst, Coords(w), buf[p0..p])
    ensures f.Keys == dst.Keys
  {
    var cs := Coords(w);
    var vs := buf[p0..p0 + |cs|];
    f := dst;
    var n := 0;
    while n < |cs|
      invariant 0 <= n <= |cs|
      invariant f == Scatter(dst, cs[..n], vs[..n])
    {
      ScatterPrefix(dst, cs, vs, n);
      f := f[cs[n] := vs[n]];
      n := n + 1;
    }
    assert cs[..n] == cs && vs[..n] == vs;
    p := p0 + n;
    ScatterKeys(dst, cs, vs);
  }

  /** One more row of a plane: the prefix of rows grows by the cells of row `j`. */
  lemma RowsStep<V>(src: Field<V>, k: int, rj: Range, ri: Range, j: int)
    requires Covers(src, Rows(k, rj, ri)) && rj.s <= j <= rj.e
    ensures Rows(k, Range(rj.s, j), ri) == Rows(k, Range(rj.s, j - 1), ri) + Cells(k, j, ri)
    ensures Covers(src, Rows(k, Range(rj.s, j - 1), ri)) && Covers(src, Cells(k, j, ri))
  {
    RowsFacts(k, rj, ri);
    RowsFacts(k, Range(rj.s, j), ri);
  }

  // ---- degenerate-axis replication ----

  /** Where a copy of part of row `(k, j)` by `d` writes. */
  lemma ShiftedCells(k: int, j: int, ri: Range, d: Idx)
    ensures forall x :: x in Shifted(Cells(k, j, ri), d) ==>
      x.0 == k + d.0 && x.1 == j + d.1 && ri.Has(x.2 - d.2)
  {
    var cs := Cells(k, j, ri);
    CellsFacts(k, j, ri);
    forall x | x in Shifted(cs, d) ensures x.0 == k + d.0 && x.1 == j + d.1 && ri.Has(x.2 - d.2) {
      var n :| 0 <= n < |cs| && Shifted(cs, d)[n] == x;
      assert cs[n] in cs;
    }
  }

  /** Where a copy of part of plane `k` by `d` writes. */
  lemma ShiftedRows(k: int, rj: Range, ri: Range, d: Idx)
    ensures forall x :: x in Shifted(Rows(k, rj, ri), d) ==>
      x.0 == k + d.0 && rj.Has(x.1 - d.1) && ri.Has(x.2 - d.2)
  {
    var cs := Rows(k, rj, ri);
    RowsFacts(k, rj, ri);
    forall x | x in Shifted(cs, d) ensures x.0 == k + d.0 && rj.Has(x.1 - d.1) && ri.Has(x.2 - d.2) {
      var n :| 0 <= n < |cs| && Shifted(cs, d)[n] == x;
      assert cs[n] in cs;
    }
  }

  lemma CellsSnoc(k: int, j: int, s: int, i: int)
    requires s <= i
    ensures Cells(k, j, Range(s, i)) == Cells(k, j, Range(s, i - 1)) + [(k, j, i)]
  {
  }

  lemma CellsDone(k: int, j: int, ri: Range, i: int)
    requires ri.s <= i && (i == ri.e + 1 || i == ri.s) && ri.e < i
    ensures Cells(k, j, Range(ri.s, i - 1)) == Cells(k, j, ri)
  {
  }

  /** One step of a row copy: the source cell still holds its original value. */
  lemma CopyRowStep<V>(f: Field<V>, g: Field<V>, k: int, j: int, ri: Range, i: int, d: Idx)
    requires Covers(f, Cells(k, j, ri)) && ri.s <= i <= ri.e
    requires d.0 != 0 || d.1 != 0
    requires Covers(f, Cells(k, j, Range(ri.s, i - 1)))
    requires g == CopyAll(f, Cells(k, j, Range(ri.s, i - 1)), d)
    ensures Covers(f, Cells(k, j, Range(ri.s, i)))
    ensures (k, j, i) in g
    ensures g[AddIdx((k, j, i), d) := g[(k, j, i)]] == CopyAll(f, Cells(k, j, Range(ri.s, i)), d)
  {
    var done, c := Cells(k, j, Range(ri.s, i - 1)), (k, j, i);
    CellsSnoc(k, j, ri.s, i);
    assert (done + [c])[..|done|] == done;
    CellsFacts(k, j, Range(ri.s, i));
    CellsFacts(k, j, ri);
    ShiftedCells(k, j, Range(ri.s, i - 1), d);
    CopyAllElse(f, done, d, c);
  }

  /** The loop `for i: f(k + d.0, j + d.1, i + d.2) = f(k, j, i)` over `ri`; the copy
      leaves its own row, so it never reads a value it wrote. */
  method CopyRowAlong<V>(f: Field<V>, k: int, j: int, ri: Range, d: Idx) returns (g: Field<V>)
    requires Covers(f, Cells(k, j, ri))
    requires d.0 != 0 || d.1 != 0
    ensures g == CopyAll(f, Cells(k, j, ri), d)
  {
    g := f;
    var i := ri.s;
    while i <= ri.e
      invariant ri.s <= i && (i <= ri.e + 1 || i == ri.s)
      invariant Covers(f, Cells(k, j, Range(ri.s, i - 1)))
      invariant g == CopyAll(f, Cells(k, j, Range(ri.s, i - 1)), d)
    {
      CopyRowStep(f, g, k, j, ri, i, d);
      g := g[AddIdx((k, j, i), d) := g[(k, j, i)]];
      i := i + 1;
    }
    CellsDone(k, j, ri, i);
  }

  /** The 1D loop `for i: f(sk, sj+1, i) = f(sk, sj, i)`. */
  method ReplicateRow<V>(f: Field<V>, k: int, j: int, ri: Range) returns (g: Field<V>)
    requires Covers(f, Cells(k, j, ri))
    ensures g == CopyAll(f, Cells(k, j, ri), (0, 1, 0))
  {
    g := CopyRowAlong(f, k, j, ri, (0, 1, 0));
  }

  /** The 1D/2D loop `for j: for i: f(sk+1, j, i) = f(sk, j, i)`. */
  method ReplicatePlane<V>(f: Field<V>, k: int, rj: Range, ri: Range) returns (g: Field<V>)
    requires Covers(f, Rows(k, rj, ri))
    ensures g == CopyAll(f, Rows(k, rj, ri), (1, 0, 0))
  {
    var d := (1, 0, 0);
    g := f;
    var j := rj.s;
    while j <= rj.e
      invariant rj.s <= j && (j <= rj.e + 1 || j == rj.s)
      invariant Covers(f, Rows(k, Range(rj.s, j - 1), ri))
      invariant g == CopyAll(f, Rows(k, Range(rj.s, j - 1), ri), d)
    {
      var done := Rows(k, Range(rj.s, j - 1), ri);
      RowsStep(f, k, rj, ri, j);
      CellsFacts(k, j, ri);
      ShiftedRows(k, Range(rj.s, j - 1), ri, d);
      CopyAllConcat(f, done, Cells(k, j, ri), d);
      g := CopyRowAlong(g, k, j, ri, d);
      j := j + 1;
    }
    assert Rows(k, Range(rj.s, j - 1), ri) == Rows(k, rj, ri);
  }

  /** After the 1D replication row `j + 1` equals row `j` over `ri`, row `j` keeps its
      values, and nothing outside row `j + 1` changes. */
  lemma RowReplicated<V>(f: Field<V>, k: int, j: int, ri: Range)
    requires Covers(f, Cells(k, j, ri))
    ensures var g := CopyAll(f, Cells(k, j, ri), (0, 1, 0));
      forall i :: ri.Has(i) ==>
        && (k, j, i) in f && (k, j + 1, i) in g && (k, j, i) in g
        && g[(k, j + 1, i)] == g[(k, j, i)] == f[(k, j, i)]
    ensures var g := CopyAll(f, Cells(k, j, ri), (0, 1, 0));
      forall c :: c in f && !(c.0 == k && c.1 == j + 1 && ri.Has(c.2)) ==> c in g && g[c] == f[c]
  {
    var cs, d := Cells(k, j, ri), (0, 1, 0);
    CellsFacts(k, j, ri);
    ShiftedCells(k, j, ri, d);
    var g := CopyAll(f, cs, d);
    forall i | ri.Has(i)
      ensures (k, j, i) in f && (k, j + 1, i) in g && (k, j, i) in g && g[(k, j + 1, i)] == g[(k, j, i)] == f[(k, j, i)]
    {
      ReplicatedAt(f, cs, d, (k, j, i));
    }
    forall c | c in f && !(c.0 == k && c.1 == j + 1 && ri.Has(c.2))
      ensures c in g && g[c] == f[c]
    {
      CopyAllElse(f, cs, d, c);
    }
  }

  /** After the 1D/2D replication plane `k + 1` equals plane `k` over `rj` x `ri`,
      plane `k` keeps its values, and nothing outside that part of plane `k + 1` changes. */
  lemma PlaneReplicated<V>(f: Field<V>, k: int, rj: Range, ri: Range)
    requires Covers(f, Rows(k, rj, ri))
    ensures var g := CopyAll(f, Rows(k, rj, ri), (1, 0, 0));
      forall j, i :: rj.Has(j) && ri.Has(i) ==>
        && (k, j, i) in f && (k + 1, j, i) in g && (k, j, i) in g
        && g[(k + 1, j, i)] == g[(k, j, i)] == f[(k, j, i)]
    ensures var g := CopyAll(f, Rows(k, rj, ri), (1, 0, 0));
      forall c :: c in f && !(c.0 == k + 1 && rj.Has(c.1) && ri.Has(c.2)) ==> c in g && g[c] == f[c]
  {
    var cs, d := Rows(k, rj, ri), (1, 0, 0);
    RowsFacts(k, rj, ri);
    ShiftedRows(k, rj, ri, d);
    assert forall x :: x in cs ==> x !in Shifted(cs, d);
    var g := CopyAll(f, cs, d);
    forall j, i | rj.Has(j) && ri.Has(i)
      ensures (k, j, i) in f && (k + 1, j, i) in g && (k, j, i) in g && g[(k + 1, j, i)] == g[(k, j, i)] == f[(k, j, i)]
    {
      ReplicatedAt(f, cs, d, (k, j, i));
    }
    forall c | c in f && !(c.0 == k + 1 && rj.Has(c.1) && ri.Has(c.2))
      ensures c in g && g[c] == f[c]
    {
      assert c !in Shifted(cs, d);
      CopyAllElse(f, cs, d, c);
    }
  }
}
