/** Output helpers: the per-variable record built for output (`VarInfo`) with its
    component labels, the swarm-variable sizing record (`SwarmVarInfo`), the index
    walk that packs or unpacks one variable (`PackOrUnpackVar`) and the per-block
    flattening of block information (`FlattenBlockInfo`). */
module OutputUtils {
  import opened FcTypes

  datatype Result<T> = Success(value: T) | Failure(error: string)

  // ---------------------------------------------------------------------------------
  // Decimal rendering of component numbers (`std::to_string` on a non-negative int)

  function Digit(d: nat): (c: char)
    requires d < 10
    ensures '0' <= c <= '9'
  {
    "0123456789"[d]
  }

  /** The value of one decimal digit character. */
  function DigitValue(c: char): int {
    c as int - '0' as int
  }

  /** Decimal rendering without leading zeros. */
  function NatToString(n: nat): (s: string)
    ensures |s| > 0
    ensures forall m :: 0 <= m < |s| ==> '0' <= s[m] <= '9'
  {
    if n < 10 then [Digit(n)] else NatToString(n / 10) + [Digit(n % 10)]
  }

  /** The value a string of decimal digits denotes, most significant digit first. */
  function DecimalValue(s: string): int {
    if |s| == 0 then 0 else DecimalValue(s[..|s| - 1]) * 10 + DigitValue(s[|s| - 1])
  }

  /** Reading a rendered number back gives the number. */
  lemma {:induction false} NatToStringRoundTrip(n: nat)
    ensures DecimalValue(NatToString(n)) == n
  {
    var s := NatToString(n);
    if n < 10 {
      assert s[..0] == [];
    } else {
      NatToStringRoundTrip(n / 10);
      assert s[..|s| - 1] == NatToString(n / 10);
      assert DigitValue(s[|s| - 1]) == n % 10;
    }
  }

  lemma NatToStringInjective(a: nat, b: nat)
    requires NatToString(a) == NatToString(b)
    ensures a == b
  {
    NatToStringRoundTrip(a);
    NatToStringRoundTrip(b);
  }

  /** Decimal rendering of any int, with a leading minus sign for negatives. */
  function IntToString(x: int): (s: string)
    ensures |s| > 0
    ensures x < 0 <==> s[0] == '-'
  {
    if x < 0 then "-" + NatToString(-x) else NatToString(x)
  }

  /** What `std::to_string` renders: after the optional minus sign come decimal
      digits, at least one, whose value is the magnitude of `x`. */
  lemma IntToStringDigits(x: int)
    ensures var s := IntToString(x);
      var d := if x < 0 then s[1..] else s;
      && |d| > 0
      && (forall m :: 0 <= m < |d| ==> '0' <= d[m] <= '9')
      && DecimalValue(d) == (if x < 0 then -x else x)
  {
    var n: nat := if x < 0 then -x else x;
    NatToStringRoundTrip(n);
    if x < 0 {
      assert IntToString(x)[1..] == NatToString(n);
    }
  }

  // ---------------------------------------------------------------------------------
  // VarInfo

  /** The topological element a variable lives on. */
  datatype TopologicalElement = CC | F1 | F2 | F3 | E1 | E2 | E3 | NN

  /** Where a variable is located (`Metadata::Where()`). */
  datatype Where = WhereNone | WhereCell | WhereFace | WhereEdge | WhereNode

  /** The parts of a variable's metadata that VarInfo records. */
  datatype Metadata = Metadata(shape: seq<int>, where: Where, isCoordinateField: bool)

  /** Output description of one variable. `rnx` is `nx` in reverse order. */
  datatype VarInfo = VarInfo(
    name: string,
    numComponents: int,
    nx: seq<int>,
    tensorRank: int,
    where: Where,
    topologicalElements: seq<TopologicalElement>,
    isSparse: bool,
    isVector: bool,
    rnx: seq<int>,
    ntopElems: int,
    elementMatters: bool,
    isCoordinateField: bool,
    componentLabels: seq<string>)

  /** The full component labels a variable with `n > 0` components is written with:
      one component keeps the base name, suffixed by `_` and the first given label
      when there is one; more components get `_` plus their given label when exactly
      `n` are given, and `_` plus their number otherwise. */
  function ComponentLabels(name: string, given: seq<string>, n: int): seq<string>
    requires n > 0
  {
    if n == 1 then [name + (if |given| == 0 then "" else "_" + given[0])]
    else if |given| == n then seq(n, i requires 0 <= i < n => name + "_" + given[i])
    else seq(n, i requires 0 <= i < n => name + "_" + NatToString(i))
  }

  /** The message the constructor fails with on a non-positive component count. */
  function ComponentCountError(name: string, n: int): string {
    "### ERROR: Got variable " + name + " with " + IntToString(n)
      + " components. num_components must be greater than 0\n"
  }

  /** The label loops of the constructor for `n > 0` components. */
  method LabelComponents(name: string, given: seq<string>, n: int) returns (labels: seq<string>)
    requires n > 0
    ensures labels == ComponentLabels(name, given, n)
  {
    labels := [];
    if n == 1 {
      var suffix := if |given| == 0 then "" else "_" + given[0];
      labels := [name + suffix];
    } else if |given| == n {
      var i := 0;
      while i < n
        invariant 0 <= i <= n
        invariant |labels| == i
        invariant forall m :: 0 <= m < i ==> labels[m] == name + "_" + given[m]
      {
        labels := labels + [name + "_" + given[i]];
        i := i + 1;
      }
    } else {
      var i := 0;
      while i < n
        invariant 0 <= i <= n
        invariant |labels| == i
        invariant forall m :: 0 <= m < i ==> labels[m] == name + "_" + NatToString(m)
      {
        labels := labels + [name + "_" + NatToString(i)];
        i := i + 1;
      }
    }
  }

  /** The extents in reverse order, filled from the back as the constructor does. */
  method Reversed(nx: seq<int>) returns (rnx: seq<int>)
    ensures |rnx| == |nx|
    ensures forall i :: 0 <= i < |nx| ==> rnx[i] == nx[|nx| - 1 - i]
  {
    rnx := [];
    var k := |nx|;
    while k > 0
      invariant 0 <= k <= |nx|
      invariant |rnx| == |nx| - k
      invariant forall i :: 0 <= i < |rnx| ==> rnx[i] == nx[|nx| - 1 - i]
    {
      k := k - 1;
      rnx := rnx + [nx[k]];
    }
  }

  /** Builds the VarInfo of a variable: refuses a non-positive component count, then
      composes the component labels with the loops of the constructor. */
  method NewVarInfo(name: string, given: seq<string>, numComponents: int, nx: seq<int>,
                    metadata: Metadata, topologicalElements: seq<TopologicalElement>,
                    isSparse: bool, isVector: bool) returns (r: Result<VarInfo>)
    ensures numComponents <= 0 <==> r.Failure?
    ensures r.Failure? ==> r.error == ComponentCountError(name, numComponents)
    ensures r.Success? ==>
      var info := r.value;
      && info.componentLabels == ComponentLabels(name, given, numComponents)
      && |info.componentLabels| == numComponents
      && info.name == name && info.numComponents == numComponents && info.nx == nx
      && info.tensorRank == |metadata.shape| && info.where == metadata.where
      && info.topologicalElements == topologicalElements
      && info.isSparse == isSparse && info.isVector == isVector
      && info.isCoordinateField == metadata.isCoordinateField
      && info.ntopElems == |topologicalElements|
      && (info.elementMatters <==> |topologicalElements| > 1)
      && |info.rnx| == |nx|
      && (forall i :: 0 <= i < |nx| ==> info.rnx[i] == nx[|nx| - 1 - i])
  {
    if numComponents <= 0 {
      return Failure(ComponentCountError(name, numComponents));
    }
    var labels := LabelComponents(name, given, numComponents);
    var rnx := Reversed(nx);
    var ntop := |topologicalElements|;
    r := Success(VarInfo(name, numComponents, nx, |metadata.shape|, metadata.where,
                         topologicalElements, isSparse, isVector, rnx, ntop, ntop > 1,
                         metadata.isCoordinateField, labels));
  }

  /** Every component label starts with the variable's name. */
  lemma ComponentLabelsStartWithName(name: string, given: seq<string>, n: int, i: int)
    requires n > 0 && 0 <= i < n
    ensures |ComponentLabels(name, given, n)| == n
    ensures name <= ComponentLabels(name, given, n)[i]
  {
    var s := ComponentLabels(name, given, n)[i];
    if n == 1 {
      assert s == name + (if |given| == 0 then "" else "_" + given[0]);
    } else if |given| == n {
      assert s == name + ("_" + given[i]);
    } else {
      assert s == name + ("_" + NatToString(i));
    }
  }

  /** Stripping `name_` from a numbered label gives back the component number. */
  lemma NumberedLabelRoundTrip(name: string, given: seq<string>, n: int, i: int)
    requires n > 1 && |given| != n && 0 <= i < n
    ensures var s := ComponentLabels(name, given, n)[i];
      |s| > |name| + 1 && s[..|name| + 1] == name + "_" && DecimalValue(s[|name| + 1..]) == i
  {
    var s := ComponentLabels(name, given, n)[i];
    assert s == (name + "_") + NatToString(i);
    assert s[|name| + 1..] == NatToString(i);
    NatToStringRoundTrip(i);
  }

  /** Stripping `name_` from a label composed from given labels gives back that label. */
  lemma GivenLabelRoundTrip(name: string, given: seq<string>, n: int, i: int)
    requires n > 1 && |given| == n && 0 <= i < n
    ensures var s := ComponentLabels(name, given, n)[i];
      |s| >= |name| + 1 && s[..|name| + 1] == name + "_" && s[|name| + 1..] == given[i]
  {
    var s := ComponentLabels(name, given, n)[i];
    assert s == (name + "_") + given[i];
  }

  /** Numbered labels never collide, and labels composed from pairwise distinct given
      labels do not either. */
  lemma ComponentLabelsDistinct(name: string, given: seq<string>, n: int, i: int, j: int)
    requires n > 0 && 0 <= i < j < n
    requires |given| == n ==> given[i] != given[j]
    ensures ComponentLabels(name, given, n)[i] != ComponentLabels(name, given, n)[j]
  {
    var labels := ComponentLabels(name, given, n);
    if |given| == n {
      GivenLabelRoundTrip(name, given, n, i);
      GivenLabelRoundTrip(name, given, n, j);
    } else {
      NumberedLabelRoundTrip(name, given, n, i);
      NumberedLabelRoundTrip(name, given, n, j);
    }
  }

  // ---------------------------------------------------------------------------------
  // SwarmVarInfo

  /** Sizing of one swarm variable: `n` holds the extents n2..n6 in that order,
      `nvar` their product. */
  datatype SwarmVarInfo = SwarmVarInfo(n: seq<int>, nvar: int, tensorRank: int,
                                       swtype: string, vector: bool)

  /** The constructor: the variable is written as a vector only if it is a rank-one
      tensor with three components and carries the vector flag. */
  function NewSwarmVarInfo(n6: int, n5: int, n4: int, n3: int, n2: int, rank: int,
                           swtype: string, vector: bool): (r: SwarmVarInfo)
    ensures |r.n| == 5
  {
    var nvar := n6 * n5 * n4 * n3 * n2;
    SwarmVarInfo([n2, n3, n4, n5, n6], nvar, rank, swtype, rank == 1 && nvar == 3 && vector)
  }

  /** The extent of dimension `d`, for 1 < d <= 6. */
  function GetN(info: SwarmVarInfo, d: int): int
    requires |info.n| == 5
    requires 1 < d <= 6
  {
    info.n[d - 2]
  }

  /** GetN gives back the extents the constructor was handed, and `nvar` is their
      product. */
  lemma GetNReturnsExtents(n6: int, n5: int, n4: int, n3: int, n2: int, rank: int,
                           swtype: string, vector: bool)
    ensures var r := NewSwarmVarInfo(n6, n5, n4, n3, n2, rank, swtype, vector);
      && GetN(r, 6) == n6 && GetN(r, 5) == n5 && GetN(r, 4) == n4
      && GetN(r, 3) == n3 && GetN(r, 2) == n2
      && r.nvar == GetN(r, 6) * GetN(r, 5) * GetN(r, 4) * GetN(r, 3) * GetN(r, 2)
      && r.tensorRank == rank && r.swtype == swtype
  {
  }

  /** A vector-flagged rank-one swarm variable is written as a vector exactly when
      its extents multiply to three; any other rank, or no flag, never is. */
  lemma SwarmVectorNeedsThreeComponents(n6: int, n5: int, n4: int, n3: int, n2: int,
                                        swtype: string)
    requires n6 >= 0 && n5 >= 0 && n4 >= 0 && n3 >= 0 && n2 >= 0
    ensures NewSwarmVarInfo(n6, n5, n4, n3, n2, 1, swtype, true).vector
        <==> n6 * n5 * n4 * n3 * n2 == 3
    ensures !NewSwarmVarInfo(n6, n5, n4, n3, n2, 2, swtype, true).vector
    ensures !NewSwarmVarInfo(n6, n5, n4, n3, n2, 1, swtype, false).vector
  {
  }

  // ---------------------------------------------------------------------------------
  // PackOrUnpackVar: the seven-deep index walk

  /** One call of the per-element callback: the running index and the loop indices
      `(topo, t, u, v, k, j, i)`. */
  datatype Call = Call(idx: int, point: seq<int>)

  /** Points `[x] + p` for every `p` of `w`, in order. */
  function Prefixed(x: int, w: seq<seq<int>>): (r: seq<seq<int>>)
    ensures |r| == |w|
  {
    seq(|w|, n requires 0 <= n < |w| => [x] + w[n])
  }

  /** The outer loop over `x` in `[s, e]` with the walk `w` of the inner loops. */
  function Layer(s: int, e: int, w: seq<seq<int>>): seq<seq<int>>
    decreases e - s
  {
    if e < s then [] else Layer(s, e - 1, w) + Prefixed(e, w)
  }

  /** The points nested loops over the inclusive ranges `rs` visit, outermost first. */
  function Walk(rs: seq<Range>): seq<seq<int>>
    decreases |rs|
  {
    if |rs| == 0 then [[]] else Layer(rs[0].s, rs[0].e, Walk(rs[1..]))
  }

  /** Number of points of the box `rs`. */
  function Volume(rs: seq<Range>): nat
    decreases |rs|
  {
    if |rs| == 0 then 1 else rs[0].Len() * Volume(rs[1..])
  }

  /** Point `p` lies in the box `rs`. */
  predicate InBox(p: seq<int>, rs: seq<Range>) {
    |p| == |rs| && forall a :: 0 <= a < |rs| ==> rs[a].Has(p[a])
  }

  /** Strict lexicographic order on points of equal length. */
  predicate LexLess(a: seq<int>, b: seq<int>)
    decreases |a|
  {
    |a| > 0 && |b| > 0 && (a[0] < b[0] || (a[0] == b[0] && LexLess(a[1..], b[1..])))
  }

  predicate StrictlySorted(ps: seq<seq<int>>) {
    forall m, n :: 0 <= m < n < |ps| ==> LexLess(ps[m], ps[n])
  }

  /** Every point gets `pre` in front. */
  function Extend(pre: seq<int>, ps: seq<seq<int>>): (r: seq<seq<int>>)
    ensures |r| == |ps|
  {
    seq(|ps|, n requires 0 <= n < |ps| => pre + ps[n])
  }

  /** The calls made for the points `ps` when the running index starts at `idx0`. */
  function Tagged(idx0: int, ps: seq<seq<int>>): (r: seq<Call>)
    ensures |r| == |ps|
  {
    seq(|ps|, n requires 0 <= n < |ps| => Call(idx0 + n, ps[n]))
  }

  /** One more row of `b` items after `a` rows. */
  lemma CountStep(total: int, prev: int, c: int, a: int, b: int)
    requires prev == a * b && total == prev + b && c == a + 1
    ensures total == c * b
  {
  }

  lemma LayerLength(s: int, e: int, w: seq<seq<int>>)
    ensures |Layer(s, e, w)| == Range(s, e).Len() * |w|
    decreases e - s
  {
    if e >= s {
      LayerLength(s, e - 1, w);
      assert |Layer(s, e, w)| == |Layer(s, e - 1, w)| + |w|;
      CountStep(|Layer(s, e, w)|, |Layer(s, e - 1, w)|, Range(s, e).Len(), Range(s, e - 1).Len(), |w|);
    }
  }

  /** Nested loops visit exactly as many points as the box holds. */
  lemma {:induction false} WalkVolume(rs: seq<Range>)
    ensures |Walk(rs)| == Volume(rs)
    decreases |rs|
  {
    if |rs| > 0 {
      WalkVolume(rs[1..]);
      LayerLength(rs[0].s, rs[0].e, Walk(rs[1..]));
    }
  }

  lemma LayerMembers(s: int, e: int, w: seq<seq<int>>, p: seq<int>)
    ensures p in Layer(s, e, w) <==> |p| > 0 && s <= p[0] <= e && p[1..] in w
    decreases e - s
  {
    if e >= s {
      LayerMembers(s, e - 1, w, p);
      var pw := Prefixed(e, w);
      if p in pw {
        var n :| 0 <= n < |pw| && pw[n] == p;
        assert p[1..] == w[n];
      }
      if |p| > 0 && p[0] == e && p[1..] in w {
        var n :| 0 <= n < |w| && w[n] == p[1..];
        assert pw[n] == [e] + p[1..] == p;
      }
    }
  }

  /** A point is visited exactly when it lies in the box. */
  lemma {:induction false} WalkMembers(rs: seq<Range>, p: seq<int>)
    ensures p in Walk(rs) <==> InBox(p, rs)
    decreases |rs|
  {
    if |rs| == 0 {
      assert p in Walk(rs) <==> p == [];
    } else {
      LayerMembers(rs[0].s, rs[0].e, Walk(rs[1..]), p);
      if |p| > 0 {
        WalkMembers(rs[1..], p[1..]);
        if InBox(p, rs) {
          assert InBox(p[1..], rs[1..]) by {
            forall a | 0 <= a < |rs| - 1 ensures rs[1..][a].Has(p[1..][a]) {
              assert rs[1..][a] == rs[a + 1] && p[1..][a] == p[a + 1];
            }
          }
        }
        if rs[0].Has(p[0]) && InBox(p[1..], rs[1..]) {
          forall a | 0 <= a < |rs| ensures rs[a].Has(p[a]) {
            if a > 0 {
              assert rs[1..][a - 1] == rs[a] && p[1..][a - 1] == p[a];
            }
          }
        }
      }
    }
  }

  lemma LayerFirstCoordinates(s: int, e: int, w: seq<seq<int>>, m: int)
    requires 0 <= m < |Layer(s, e, w)|
    ensures |Layer(s, e, w)[m]| > 0 && s <= Layer(s, e, w)[m][0] <= e
    decreases e - s
  {
    var l := Layer(s, e, w);
    LayerMembers(s, e, w, l[m]);
  }

  lemma LayerSorted(s: int, e: int, w: seq<seq<int>>)
    requires StrictlySorted(w)
    ensures StrictlySorted(Layer(s, e, w))
    decreases e - s
  {
    if e >= s {
      LayerSorted(s, e - 1, w);
      var front := Layer(s, e - 1, w);
      var pw := Prefixed(e, w);
      var l := front + pw;
      forall m, n | 0 <= m < n < |l| ensures LexLess(l[m], l[n]) {
        if n < |front| {
          assert l[m] == front[m] && l[n] == front[n];
        } else if m < |front| {
          LayerFirstCoordinates(s, e - 1, w, m);
          assert l[m] == front[m] && l[n] == pw[n - |front|];
        } else {
          var m', n' := m - |front|, n - |front|;
          assert l[m] == [e] + w[m'] && l[n] == [e] + w[n'];
          assert l[m][1..] == w[m'] && l[n][1..] == w[n'];
        }
      }
    }
  }

  /** Nested loops visit the points in strictly increasing lexicographic order, so
      each point once. */
  lemma {:induction false} WalkSorted(rs: seq<Range>)
    ensures StrictlySorted(Walk(rs))
    decreases |rs|
  {
    if |rs| > 0 {
      WalkSorted(rs[1..]);
      LayerSorted(rs[0].s, rs[0].e, Walk(rs[1..]));
    }
  }

  lemma TaggedAppend(idx0: int, a: seq<seq<int>>, b: seq<seq<int>>)
    ensures Tagged(idx0, a) + Tagged(idx0 + |a|, b) == Tagged(idx0, a + b)
  {
  }

  lemma ExtendAppend(pre: seq<int>, a: seq<seq<int>>, b: seq<seq<int>>)
    ensures Extend(pre, a) + Extend(pre, b) == Extend(pre, a + b)
  {
  }

  lemma ExtendPrefixed(pre: seq<int>, x: int, w: seq<seq<int>>)
    ensures Extend(pre + [x], w) == Extend(pre, Prefixed(x, w))
  {
    forall n | 0 <= n < |w| ensures (pre + [x]) + w[n] == pre + ([x] + w[n]) {
    }
  }

  /** The loops from axis `d` inward, with the outer loop indices `pre` fixed: one
      loop per axis, each calling the next axis's loop for every index of its range,
      the innermost calling the callback and incrementing the running index. */
  method Sweep(rs: seq<Range>, d: nat, pre: seq<int>, idx0: int) returns (calls: seq<Call>, idx: int)
    requires d <= |rs|
    ensures calls == Tagged(idx0, Extend(pre, Walk(rs[d..])))
    ensures idx == idx0 + |calls|
    decreases |rs| - d
  {
    if d == |rs| {
      assert rs[d..] == [];
      assert pre + [] == pre;
      calls, idx := [Call(idx0, pre)], idx0 + 1;
      return;
    }
    ghost var w := Walk(rs[d + 1..]);
    assert rs[d..][1..] == rs[d + 1..];
    assert Walk(rs[d..]) == Layer(rs[d].s, rs[d].e, w);
    calls, idx := [], idx0;
    var x := rs[d].s;
    while x <= rs[d].e
      invariant rs[d].s <= x && (x <= rs[d].e + 1 || x == rs[d].s)
      invariant calls == Tagged(idx0, Extend(pre, Layer(rs[d].s, x - 1, w)))
      invariant idx == idx0 + |calls|
      decreases rs[d].e - x
    {
      var inner, next := Sweep(rs, d + 1, pre + [x], idx);
      ExtendPrefixed(pre, x, w);
      ExtendAppend(pre, Layer(rs[d].s, x - 1, w), Prefixed(x, w));
      TaggedAppend(idx0, Extend(pre, Layer(rs[d].s, x - 1, w)), Extend(pre, Prefixed(x, w)));
      calls, idx := calls + inner, next;
      x := x + 1;
    }
  }

  /** The ranges of the seven loops `(topo, t, u, v, k, j, i)`. The first four run over
      `[0, shape[n])`; the last three over the padded bounds `kb, jb, ib`, except for a
      variable located nowhere, whose cell loops run over its shape. With `asWritten`
      those loops run up to `shape[n]` inclusive, as the source writes it; otherwise
      up to `shape[n] - 1`. */
  function LoopRanges(whereNone: bool, shape: seq<int>, kb: Range, jb: Range, ib: Range,
                      asWritten: bool): (rs: seq<Range>)
    requires |shape| >= 7
    ensures |rs| == 7
  {
    var top := if asWritten then 0 else 1;
    var cells := if whereNone
                 then [Range(0, shape[4] - top), Range(0, shape[5] - top), Range(0, shape[6] - top)]
                 else [kb, jb, ib];
    [Range(0, shape[0] - 1), Range(0, shape[1] - 1), Range(0, shape[2] - 1), Range(0, shape[3] - 1)]
      + cells
  }

  /** Calls the per-element callback once for every `(topo, t, u, v, k, j, i)` of the
      padded shape, in lexicographic order, handing it consecutive values of the
      running index. `shape` and the bounds are those of the chosen index domain. */
  method PackOrUnpackVar(whereNone: bool, shape: seq<int>, kb: Range, jb: Range, ib: Range,
                         idx0: int) returns (calls: seq<Call>, idx: int)
    requires |shape| >= 7
    ensures var rs := LoopRanges(whereNone, shape, kb, jb, ib, false);
      && calls == Tagged(idx0, Walk(rs))
      && |calls| == Volume(rs)
      && StrictlySorted(Walk(rs))
    ensures idx == idx0 + |calls|
  {
    var rs := LoopRanges(whereNone, shape, kb, jb, ib, false);
    calls, idx := Sweep(rs, 0, [], idx0);
    assert rs[0..] == rs;
    assert Extend([], Walk(rs)) == Walk(rs) by {
      forall n | 0 <= n < |Walk(rs)| ensures [] + Walk(rs)[n] == Walk(rs)[n] { }
    }
    WalkVolume(rs);
    WalkSorted(rs);
  }

  /** The walk as the source writes it for a variable located nowhere: the cell loops
      run to `shape[n]` inclusive. */
  method PackOrUnpackVarAsWritten(whereNone: bool, shape: seq<int>, kb: Range, jb: Range,
                                  ib: Range, idx0: int) returns (calls: seq<Call>, idx: int)
    requires |shape| >= 7
    ensures var rs := LoopRanges(whereNone, shape, kb, jb, ib, true);
      && calls == Tagged(idx0, Walk(rs))
      && |calls| == Volume(rs)
    ensures idx == idx0 + |calls|
  {
    var rs := LoopRanges(whereNone, shape, kb, jb, ib, true);
    calls, idx := Sweep(rs, 0, [], idx0);
    assert rs[0..] == rs;
    assert Extend([], Walk(rs)) == Walk(rs) by {
      forall n | 0 <= n < |Walk(rs)| ensures [] + Walk(rs)[n] == Walk(rs)[n] { }
    }
    WalkVolume(rs);
  }

  function Product(shape: seq<int>): int {
    if |shape| == 0 then 1 else shape[0] * Product(shape[1..])
  }

  lemma VolumeOfShape(rs: seq<Range>, shape: seq<int>)
    requires |rs| == |shape|
    requires forall a :: 0 <= a < |rs| ==> rs[a] == Range(0, shape[a] - 1) && shape[a] >= 0
    ensures Volume(rs) == Product(shape)
    decreases |rs|
  {
    if |rs| > 0 {
      VolumeOfShape(rs[1..], shape[1..]);
    }
  }

  /** For a variable located nowhere, the corrected walk makes exactly as many calls as
      its padded shape has elements. */
  lemma {:induction false} NoneVariableWalkFillsShape(shape: seq<int>, kb: Range, jb: Range, ib: Range)
    requires |shape| == 7
    requires forall a :: 0 <= a < 7 ==> shape[a] >= 0
    ensures Volume(LoopRanges(true, shape, kb, jb, ib, false)) == Product(shape)
  {
    var rs := LoopRanges(true, shape, kb, jb, ib, false);
    VolumeOfShape(rs, shape);
  }

  /** As written, a variable located nowhere with a one-element shape gets eight calls
      instead of one: every cell loop runs one index past its extent. */
  lemma {:induction false} NoneVariableWalkOverruns(kb: Range, jb: Range, ib: Range)
    ensures Product([1, 1, 1, 1, 1, 1, 1]) == 1
    ensures Volume(LoopRanges(true, [1, 1, 1, 1, 1, 1, 1], kb, jb, ib, true)) == 8
  {
    var rs := LoopRanges(true, [1, 1, 1, 1, 1, 1, 1], kb, jb, ib, true);
    var one, two := Range(0, 0), Range(0, 1);
    assert rs == [one, one, one, one, two, two, two];
    VolumeCons(two, []);
    assert Volume([two]) == 2;
    VolumeCons(two, [two]);
    assert Volume([two, two]) == 4;
    VolumeCons(two, [two, two]);
    assert Volume([two, two, two]) == 8;
    VolumeCons(one, [two, two, two]);
    assert Volume([one, two, two, two]) == 8;
    VolumeCons(one, [one, two, two, two]);
    assert Volume([one, one, two, two, two]) == 8;
    VolumeCons(one, [one, one, two, two, two]);
    assert Volume([one, one, one, two, two, two]) == 8;
    VolumeCons(one, [one, one, one, two, two, two]);
  }

  lemma VolumeCons(r: Range, rest: seq<Range>)
    ensures Volume([r] + rest) == r.Len() * Volume(rest)
  {
    assert ([r] + rest)[1..] == rest;
  }

  // ---------------------------------------------------------------------------------
  // FlattenBlockInfo

  /** The callbacks over `blocks`, in order, each handed the data and the counter the
      previous one left (both passed by reference). */
  function Thread<B, T>(f: (B, seq<T>, int) -> (seq<T>, int), blocks: seq<B>, data: seq<T>,
                        i: int): (seq<T>, int)
    decreases |blocks|
  {
    if |blocks| == 0 then (data, i)
    else
      var st := Thread(f, blocks[..|blocks| - 1], data, i);
      f(blocks[|blocks| - 1], st.0, st.1)
  }

  function Fill<T>(n: nat, zero: T): (r: seq<T>)
    ensures |r| == n
  {
    seq(n, _ => zero)
  }

  /** The number of entries `count` blocks of `shape` values each take. */
  function Slots(shape: nat, count: nat): nat {
    shape * count
  }

  lemma SlotsSucc(shape: nat, count: nat)
    ensures Slots(shape, count + 1) == Slots(shape, count) + shape
  {
  }

  /** Allocates `shape * |blocks|` default entries and runs the callback over the
      blocks with one counter starting at 0. */
  method FlattenBlockInfo<B, T>(blocks: seq<B>, shape: nat, zero: T,
                                f: (B, seq<T>, int) -> (seq<T>, int)) returns (data: seq<T>)
    ensures data == Thread(f, blocks, Fill(Slots(shape, |blocks|), zero), 0).0
    ensures (forall b, d, i :: |f(b, d, i).0| == |d|) ==> |data| == shape * |blocks|
  {
    ghost var init := Fill(Slots(shape, |blocks|), zero);
    data := Fill(Slots(shape, |blocks|), zero);
    var i := 0;
    var n := 0;
    while n < |blocks|
      invariant 0 <= n <= |blocks|
      invariant (data, i) == Thread(f, blocks[..n], init, 0)
    {
      assert blocks[..n + 1][..n] == blocks[..n];
      var st := f(blocks[n], data, i);
      data, i := st.0, st.1;
      n := n + 1;
    }
    assert blocks[..n] == blocks;
    if forall b, d, i :: |f(b, d, i).0| == |d| {
      ThreadKeepsLength(f, blocks, init, 0);
    }
  }

  /** Callbacks that only write into the data leave its length alone. */
  lemma {:induction false} ThreadKeepsLength<B, T>(f: (B, seq<T>, int) -> (seq<T>, int),
                                                  blocks: seq<B>, data: seq<T>, i: int)
    requires forall b: B, d: seq<T>, j: int :: |f(b, d, j).0| == |d|
    ensures |Thread(f, blocks, data, i).0| == |data|
    decreases |blocks|
  {
    if |blocks| > 0 {
      ThreadKeepsLength(f, blocks[..|blocks| - 1], data, i);
      var st := Thread(f, blocks[..|blocks| - 1], data, i);
      CallKeepsLength(f, blocks[|blocks| - 1], st.0, st.1);
    }
  }

  lemma CallKeepsLength<B, T>(f: (B, seq<T>, int) -> (seq<T>, int), x: B, data: seq<T>, i: int)
    requires forall b: B, d: seq<T>, j: int :: |f(b, d, j).0| == |d|
    ensures |f(x, data, i).0| == |data|
  {
  }

  /** The counter is shared: running over `xs + ys` is running over `ys` from where
      the run over `xs` left the data and the counter. */
  lemma {:induction false} ThreadSplit<B, T>(f: (B, seq<T>, int) -> (seq<T>, int),
                                            xs: seq<B>, ys: seq<B>, data: seq<T>, i: int)
    ensures var st := Thread(f, xs, data, i);
      Thread(f, xs + ys, data, i) == Thread(f, ys, st.0, st.1)
    decreases |ys|
  {
    if |ys| == 0 {
      assert xs + ys == xs;
    } else {
      var ys' := ys[..|ys| - 1];
      assert (xs + ys)[..|xs + ys| - 1] == xs + ys';
      ThreadSplit(f, xs, ys', data, i);
    }
  }

  /** The usual callback: write the block's `shape` values at the counter and advance
      it by `shape`. */
  function Writer<B, T>(info: B -> seq<T>, shape: nat): (B, seq<T>, int) -> (seq<T>, int) {
    (b: B, d: seq<T>, i: int) =>
      if 0 <= i && i + shape <= |d| && |info(b)| == shape
      then (d[..i] + info(b) + d[i + shape..], i + shape)
      else (d, i)
  }

  /** The blocks' values laid end to end. */
  function Flat<B, T>(info: B -> seq<T>, blocks: seq<B>): seq<T>
    decreases |blocks|
  {
    if |blocks| == 0 then [] else Flat(info, blocks[..|blocks| - 1]) + info(blocks[|blocks| - 1])
  }

  lemma FlatLength<B, T>(info: B -> seq<T>, shape: nat, blocks: seq<B>)
    requires forall b :: |info(b)| == shape
    ensures |Flat(info, blocks)| == Slots(shape, |blocks|)
    decreases |blocks|
  {
    if |blocks| > 0 {
      FlatLength(info, shape, blocks[..|blocks| - 1]);
      SlotsSucc(shape, |blocks| - 1);
    }
  }

  /** One step of the usual callback on data holding the first blocks' values
      followed by room for `rest + 1` more. */
  lemma WriterStep<B, T>(info: B -> seq<T>, shape: nat, zero: T, front: seq<T>, b: B, rest: nat)
    requires forall x :: |info(x)| == shape
    ensures var d := front + Fill(Slots(shape, rest + 1), zero);
      Writer(info, shape)(b, d, |front|) == (front + info(b) + Fill(Slots(shape, rest), zero), |front| + shape)
  {
    var d := front + Fill(Slots(shape, rest + 1), zero);
    var i := |front|;
    SlotsSucc(shape, rest);
    assert d[..i] == front;
    assert d[i + shape..] == Fill(Slots(shape, rest), zero);
  }

  lemma {:induction false} WriterThread<B, T>(info: B -> seq<T>, shape: nat, zero: T,
                                             blocks: seq<B>, rest: nat, total: nat)
    requires forall b :: |info(b)| == shape
    requires total == |blocks| + rest
    ensures Thread(Writer(info, shape), blocks, Fill(Slots(shape, total), zero), 0)
         == (Flat(info, blocks) + Fill(Slots(shape, rest), zero), Slots(shape, |blocks|))
    decreases |blocks|
  {
    if |blocks| > 0 {
      var front := blocks[..|blocks| - 1];
      WriterThread(info, shape, zero, front, rest + 1, total);
      WriterThreadStep(info, shape, zero, blocks, rest, total);
    } else {
      assert Slots(shape, |blocks|) == 0;
      assert Flat(info, blocks) + Fill(Slots(shape, rest), zero) == Fill(Slots(shape, rest), zero);
    }
  }

  /** The inductive step of WriterThread: one more block after the first ones. */
  lemma WriterThreadStep<B, T>(info: B -> seq<T>, shape: nat, zero: T, blocks: seq<B>, rest: nat, total: nat)
    requires forall b :: |info(b)| == shape
    requires |blocks| > 0 && total == |blocks| + rest
    requires var front := blocks[..|blocks| - 1];
      Thread(Writer(info, shape), front, Fill(Slots(shape, total), zero), 0)
      == (Flat(info, front) + Fill(Slots(shape, rest + 1), zero), Slots(shape, |front|))
    ensures Thread(Writer(info, shape), blocks, Fill(Slots(shape, total), zero), 0)
         == (Flat(info, blocks) + Fill(Slots(shape, rest), zero), Slots(shape, |blocks|))
  {
    var f := Writer(info, shape);
    var front, b := blocks[..|blocks| - 1], blocks[|blocks| - 1];
    var init := Fill(Slots(shape, total), zero);
    var st := Thread(f, front, init, 0);
    assert st == (Flat(info, front) + Fill(Slots(shape, rest + 1), zero), Slots(shape, |front|));
    FlatLength(info, shape, front);
    WriterStep(info, shape, zero, Flat(info, front), b, rest);
    assert Thread(f, blocks, init, 0) == f(b, st.0, st.1);
    assert Flat(info, blocks) == Flat(info, front) + info(b);
    SlotsSucc(shape, |front|);
  }

  /** With the usual callback, the flattened data is every block's values laid end to
      end, and the shared counter ends at the data's length. */
  lemma FlattenWithWriterConcatenates<B, T>(info: B -> seq<T>, shape: nat, zero: T, blocks: seq<B>)
    requires forall b :: |info(b)| == shape
    ensures Thread(Writer(info, shape), blocks, Fill(Slots(shape, |blocks|), zero), 0)
         == (Flat(info, blocks), Slots(shape, |blocks|))
  {
    WriterThread(info, shape, zero, blocks, 0, |blocks|);
    var room := Fill(Slots(shape, 0), zero);
    assert room == [];
    assert Flat(info, blocks) + room == Flat(info, blocks);
  }
}
