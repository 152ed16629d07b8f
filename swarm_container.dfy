/** The per-block registry of particle swarms: a vector of swarms in insertion order
    and a map from each swarm's label to that swarm, kept in step by `Add` and
    `Remove`. */
module Swarms {

  datatype Option<T> = None | Some(value: T)

  /** The metadata a swarm is created with (its flags). */
  datatype Metadata = Metadata(flags: set<string>)

  /** A swarm: its label, its metadata and the block it belongs to. */
  datatype Swarm = Swarm(name: string, metadata: Metadata, block: int)

  /** How an operation ends: normally, or by throwing `std::invalid_argument`. */
  datatype Outcome = Ok | InvalidArgument(msg: string)

  /** The communication phase the boundary hooks are called for (`BoundaryCommSubset`). */
  datatype CommSubset = MeshInit | GrAmr | All

  /** The two containers of a SwarmContainer, as values. */
  datatype Registry = Registry(vector: seq<Swarm>, swarms: map<string, Swarm>)

  /** The vector holds each label once, and the map sends exactly the labels in the
      vector to their swarms. */
  predicate Consistent(r: Registry) {
    && (forall i, j :: 0 <= i < j < |r.vector| ==> r.vector[i].name != r.vector[j].name)
    && (forall i :: 0 <= i < |r.vector| ==>
          r.vector[i].name in r.swarms && r.swarms[r.vector[i].name] == r.vector[i])
    && (forall l :: l in r.swarms ==> r.swarms[l] in r.vector && r.swarms[l].name == l)
  }

  // ---------------------------------------------------------------------------------
  // Add

  function DuplicateError(lbl: string): string {
    "swarm " + lbl + " already enrolled during Add()!"
  }

  /** Adding one label: a label already mapped is refused and nothing changes;
      otherwise a new swarm is appended to the vector and mapped from its label. */
  function AddOne(r: Registry, lbl: string, metadata: Metadata, block: int): (Registry, Outcome) {
    if lbl in r.swarms then (r, InvalidArgument(DuplicateError(lbl)))
    else
      var s := Swarm(lbl, metadata, block);
      (Registry(r.vector + [s], r.swarms[lbl := s]), Ok)
  }

  /** Adding a list of labels one after the other; the first refusal ends the run. */
  function AddList(r: Registry, labels: seq<string>, metadata: Metadata, block: int): (Registry, Outcome)
    decreases |labels|
  {
    if |labels| == 0 then (r, Ok)
    else
      var st := AddList(r, labels[..|labels| - 1], metadata, block);
      if st.1.Ok? then AddOne(st.0, labels[|labels| - 1], metadata, block) else st
  }

  lemma AddOneKeepsConsistent(r: Registry, lbl: string, metadata: Metadata, block: int)
    requires Consistent(r)
    ensures Consistent(AddOne(r, lbl, metadata, block).0)
  {
    if lbl !in r.swarms {
      var s := Swarm(lbl, metadata, block);
      var r' := AddOne(r, lbl, metadata, block).0;
      forall i, j | 0 <= i < j < |r'.vector| ensures r'.vector[i].name != r'.vector[j].name {
        if j == |r.vector| {
          assert r'.vector[i] == r.vector[i];
        }
      }
      forall l | l in r'.swarms ensures r'.swarms[l] in r'.vector && r'.swarms[l].name == l {
        if l != lbl {
          assert r.swarms[l] in r.vector;
        } else {
          assert r'.vector[|r.vector|] == s;
        }
      }
    }
  }

  /** A fresh label gets exactly one new swarm, at the end, and the map sends the
      label to it; a mapped label is refused and leaves both containers alone. */
  lemma AddOneMeaning(r: Registry, lbl: string, metadata: Metadata, block: int)
    ensures var (r', o) := AddOne(r, lbl, metadata, block);
      && (lbl in r.swarms <==> o.InvalidArgument?)
      && (lbl in r.swarms ==> r' == r && o == InvalidArgument(DuplicateError(lbl)))
      && (lbl !in r.swarms ==>
            && o == Ok
            && |r'.vector| == |r.vector| + 1
            && r'.vector[..|r.vector|] == r.vector
            && r'.vector[|r.vector|] == Swarm(lbl, metadata, block)
            && r'.swarms[lbl] == r'.vector[|r.vector|]
            && (forall l :: l != lbl ==> (l in r'.swarms <==> l in r.swarms))
            && (forall l :: l != lbl && l in r.swarms ==> r'.swarms[l] == r.swarms[l]))
  {
    if lbl !in r.swarms {
      var r' := AddOne(r, lbl, metadata, block).0;
      assert r'.vector[..|r.vector|] == r.vector;
    }
  }

  /** Once a run over a list has been refused, later labels change nothing. */
  lemma {:induction false} AddListRefusalIsFinal(r: Registry, labels: seq<string>, metadata: Metadata,
                                                 block: int, k: nat)
    requires k <= |labels|
    requires AddList(r, labels[..k], metadata, block).1.InvalidArgument?
    ensures AddList(r, labels, metadata, block) == AddList(r, labels[..k], metadata, block)
    decreases |labels| - k
  {
    if k < |labels| {
      var labels' := labels[..k + 1];
      assert labels'[..k] == labels[..k];
      assert labels'[..|labels'| - 1] == labels[..k];
      assert AddList(r, labels', metadata, block) == AddList(r, labels[..k], metadata, block);
      AddListRefusalIsFinal(r, labels, metadata, block, k + 1);
    } else {
      assert labels[..k] == labels;
    }
  }

  /** A run over a list that is never refused appends one swarm per label, in the
      order of the list. */
  lemma {:induction false} AddListAppendsInOrder(r: Registry, labels: seq<string>, metadata: Metadata,
                                                 block: int)
    requires AddList(r, labels, metadata, block).1 == Ok
    ensures var r' := AddList(r, labels, metadata, block).0;
      && |r'.vector| == |r.vector| + |labels|
      && r'.vector[..|r.vector|] == r.vector
      && (forall m :: 0 <= m < |labels| ==> r'.vector[|r.vector| + m] == Swarm(labels[m], metadata, block))
    decreases |labels|
  {
    if |labels| > 0 {
      var front := labels[..|labels| - 1];
      var st := AddList(r, front, metadata, block);
      assert st.1 == Ok;
      AddListAppendsInOrder(r, front, metadata, block);
      var r' := AddList(r, labels, metadata, block).0;
      assert r'.vector == st.0.vector + [Swarm(labels[|labels| - 1], metadata, block)];
      forall m | 0 <= m < |labels| ensures r'.vector[|r.vector| + m] == Swarm(labels[m], metadata, block) {
        if m < |front| {
          assert front[m] == labels[m];
        }
      }
      assert r'.vector[..|r.vector|] == st.0.vector[..|r.vector|];
    }
  }

  lemma {:induction false} AddListKeepsConsistent(r: Registry, labels: seq<string>, metadata: Metadata,
                                                  block: int)
    requires Consistent(r)
    ensures Consistent(AddList(r, labels, metadata, block).0)
    decreases |labels|
  {
    if |labels| > 0 {
      var front := labels[..|labels| - 1];
      AddListKeepsConsistent(r, front, metadata, block);
      var st := AddList(r, front, metadata, block);
      if st.1.Ok? {
        AddOneKeepsConsistent(st.0, labels[|labels| - 1], metadata, block);
      }
    }
  }

  // ---------------------------------------------------------------------------------
  // Remove

  /** The first position whose swarm carries `lbl`. */
  function FirstIndex(v: seq<Swarm>, lbl: string): (o: Option<nat>)
    ensures o.Some? ==> o.value < |v| && v[o.value].name == lbl
    ensures o.Some? ==> forall j :: 0 <= j < o.value ==> v[j].name != lbl
    ensures o.None? ==> forall j :: 0 <= j < |v| ==> v[j].name != lbl
    decreases |v|
  {
    if |v| == 0 then None
    else if v[0].name == lbl then Some(0)
    else match FirstIndex(v[1..], lbl)
      case None => None
      case Some(k) => Some(k + 1)
  }

  const NotFoundError := "swarm not found in Remove()"

  /** Removing a label: a label no swarm carries is refused and nothing changes;
      otherwise the last swarm takes the place of the first one carrying it, the
      vector shrinks by one and the label leaves the map. */
  function RemoveOne(r: Registry, lbl: string): (Registry, Outcome) {
    match FirstIndex(r.vector, lbl)
    case None => (r, InvalidArgument(NotFoundError))
    case Some(i) =>
      var last := |r.vector| - 1;
      (Registry(r.vector[i := r.vector[last]][..last], r.swarms - {lbl}), Ok)
  }

  /** Removal refuses exactly the labels no swarm carries; otherwise it shrinks the
      vector by one, moves the last swarm into the freed slot, keeps every other
      position and drops the removed swarm from the vector's multiset. */
  lemma RemoveOneMeaning(r: Registry, lbl: string)
    ensures var (r', o) := RemoveOne(r, lbl);
      && (o.InvalidArgument? <==> forall j :: 0 <= j < |r.vector| ==> r.vector[j].name != lbl)
      && (o.InvalidArgument? ==> r' == r)
      && (o.Ok? ==>
            var i := FirstIndex(r.vector, lbl).value;
            var last := |r.vector| - 1;
            && |r'.vector| == last
            && (i < last ==> r'.vector[i] == r.vector[last])
            && (forall j :: 0 <= j < last && j != i ==> r'.vector[j] == r.vector[j])
            && multiset(r'.vector) + multiset{r.vector[i]} == multiset(r.vector)
            && r'.swarms == r.swarms - {lbl})
  {
    var o := FirstIndex(r.vector, lbl);
    if o.Some? {
      MoveLastInto(r.vector, o.value);
    }
  }

  /** Moving the last element into slot `i` and dropping the last slot. */
  lemma MoveLastInto(v: seq<Swarm>, i: nat)
    requires i < |v|
    ensures var last := |v| - 1;
      var w := v[i := v[last]][..last];
      && |w| == last
      && (forall j :: 0 <= j < last ==> w[j] == if j == i then v[last] else v[j])
      && multiset(w) + multiset{v[i]} == multiset(v)
  {
    MoveLastMultiset(v, i);
  }

  lemma MoveLastMultiset(v: seq<Swarm>, i: nat)
    requires i < |v|
    ensures var last := |v| - 1;
      multiset(v[i := v[last]][..last]) + multiset{v[i]} == multiset(v)
  {
    var last := |v| - 1;
    var moved := v[i := v[last]];
    var w := moved[..last];
    assert moved == w + [v[last]];
    assert multiset(moved) == multiset(w) + multiset{v[last]};
    assert multiset(moved) == multiset(v) - multiset{v[i]} + multiset{v[last]};
    assert v[i] in multiset(v);
  }

  lemma RemoveOneKeepsConsistent(r: Registry, lbl: string)
    requires Consistent(r)
    ensures Consistent(RemoveOne(r, lbl).0)
  {
    var o := FirstIndex(r.vector, lbl);
    if o.Some? {
      var i, v := o.value, r.vector;
      assert RemoveOne(r, lbl).0 == Registry(v[i := v[|v| - 1]][..|v| - 1], r.swarms - {lbl});
      RemovedNamesDistinct(r, i);
      RemovedSwarmsMapped(r, lbl, i);
      MappedSwarmsRemain(r, lbl, i);
    }
  }

  lemma RemovedNamesDistinct(r: Registry, i: nat)
    requires Consistent(r) && i < |r.vector|
    ensures var last := |r.vector| - 1;
      var w := r.vector[i := r.vector[last]][..last];
      forall a, b :: 0 <= a < b < |w| ==> w[a].name != w[b].name
  {
    var v, last := r.vector, |r.vector| - 1;
    var w := v[i := v[last]][..last];
    MoveLastInto(v, i);
    forall a, b | 0 <= a < b < |w|
      ensures w[a].name != w[b].name
    {
      var a', b' := if a == i then last else a, if b == i then last else b;
      assert w[a] == v[a'] && w[b] == v[b'] && a' != b';
      if a' < b' {
        assert v[a'].name != v[b'].name;
      } else {
        assert v[b'].name != v[a'].name;
      }
    }
  }

  lemma RemovedSwarmsMapped(r: Registry, lbl: string, i: nat)
    requires Consistent(r) && i < |r.vector| && r.vector[i].name == lbl
    ensures var last := |r.vector| - 1;
      var w := r.vector[i := r.vector[last]][..last];
      forall j :: 0 <= j < |w| ==> w[j].name in r.swarms - {lbl} && (r.swarms - {lbl})[w[j].name] == w[j]
  {
    var v, last := r.vector, |r.vector| - 1;
    var w := v[i := v[last]][..last];
    MoveLastInto(v, i);
    forall j | 0 <= j < |w|
      ensures w[j].name != lbl
    {
      var j' := if j == i then last else j;
      assert w[j] == v[j'] && j' != i;
      if j' < i {
        assert v[j'].name != v[i].name;
      } else {
        assert v[i].name != v[j'].name;
      }
    }
  }

  lemma MappedSwarmsRemain(r: Registry, lbl: string, i: nat)
    requires Consistent(r) && i < |r.vector| && r.vector[i].name == lbl
    ensures var last := |r.vector| - 1;
      var w := r.vector[i := r.vector[last]][..last];
      forall l :: l in r.swarms - {lbl} ==> r.swarms[l] in w && r.swarms[l].name == l
  {
    var v, last := r.vector, |r.vector| - 1;
    var w := v[i := v[last]][..last];
    MoveLastInto(v, i);
    forall l | l in r.swarms - {lbl}
      ensures r.swarms[l] in w
    {
      var sw := r.swarms[l];
      var k :| 0 <= k < |v| && v[k] == sw;
      assert k != i;
      if k == last {
        assert w[i] == sw;
      } else {
        assert w[k] == sw;
      }
    }
  }

  // ---------------------------------------------------------------------------------
  // The container

  class SwarmContainer {
    var swarmVector: seq<Swarm>
    var swarmMap: map<string, Swarm>
    /** The block every swarm added here belongs to. */
    var pmyBlock: int

    function State(): Registry
      reads this
    {
      Registry(swarmVector, swarmMap)
    }

    predicate Valid()
      reads this
    {
      Consistent(State())
    }

    constructor(pmyBlock: int)
      ensures State() == Registry([], map[]) && this.pmyBlock == pmyBlock
      ensures Valid()
    {
      swarmVector := [];
      swarmMap := map[];
      this.pmyBlock := pmyBlock;
    }

    /** Enrols a swarm under `lbl`, refusing a label already enrolled. */
    method Add(lbl: string, metadata: Metadata) returns (o: Outcome)
      modifies this
      ensures (State(), o) == AddOne(old(State()), lbl, metadata, pmyBlock)
      ensures pmyBlock == old(pmyBlock)
      ensures old(Valid()) ==> Valid()
    {
      if lbl in swarmMap {
        return InvalidArgument(DuplicateError(lbl));
      }
      ghost var before := State();
      var swarm := Swarm(lbl, metadata, pmyBlock);
      swarmVector := swarmVector + [swarm];
      swarmMap := swarmMap[lbl := swarm];
      o := Ok;
      if Consistent(before) {
        AddOneKeepsConsistent(before, lbl, metadata, pmyBlock);
      }
    }

    /** Enrols one swarm per label, in order, stopping at the first refusal. */
    method AddAll(labels: seq<string>, metadata: Metadata) returns (o: Outcome)
      modifies this
      ensures (State(), o) == AddList(old(State()), labels, metadata, pmyBlock)
      ensures pmyBlock == old(pmyBlock)
      ensures old(Valid()) ==> Valid()
    {
      ghost var start := State();
      var n := 0;
      o := Ok;
      while n < |labels|
        invariant 0 <= n <= |labels|
        invariant pmyBlock == old(pmyBlock)
        invariant o == Ok
        invariant (State(), Ok) == AddList(start, labels[..n], metadata, pmyBlock)
      {
        ghost var prefix := labels[..n + 1];
        assert prefix[..n] == labels[..n] && prefix[n] == labels[n] && |prefix| == n + 1;
        o := Add(labels[n], metadata);
        assert (State(), o) == AddList(start, prefix, metadata, pmyBlock);
        if o.InvalidArgument? {
          AddListRefusalIsFinal(start, labels, metadata, pmyBlock, n + 1);
          if Consistent(start) {
            AddListKeepsConsistent(start, labels, metadata, pmyBlock);
          }
          return;
        }
        n := n + 1;
      }
      assert labels[..n] == labels;
      if Consistent(start) {
        AddListKeepsConsistent(start, labels, metadata, pmyBlock);
      }
    }

    /** Removes the first swarm carrying `lbl`: the last swarm moves into its
        slot, the vector shrinks by one and the label leaves the map. */
    method Remove(lbl: string) returns (o: Outcome)
      modifies this
      ensures (State(), o) == RemoveOne(old(State()), lbl)
      ensures pmyBlock == old(pmyBlock)
      ensures old(Valid()) ==> Valid()
    {
      ghost var before := State();
      if Consistent(before) {
        RemoveOneKeepsConsistent(before, lbl);
      }
      var isize := |swarmVector|;
      var idx := 0;
      while idx < isize
        invariant 0 <= idx <= isize
        invariant forall j :: 0 <= j < idx ==> swarmVector[j].name != lbl
      {
        if swarmVector[idx].name == lbl {
          break;
        }
        idx := idx + 1;
      }
      if idx >= isize {
        return InvalidArgument(NotFoundError);
      }
      isize := isize - 1;
      swarmVector := swarmVector[idx := swarmVector[isize]];
      swarmVector := swarmVector[..isize];
      swarmMap := swarmMap - {lbl};
      o := Ok;
    }

    /** Swarms exchange no boundary data: these hooks do nothing. */
    method SendBoundaryBuffers() {
    }

    method SetupPersistentMPI() {
    }

    /** Nothing is ever awaited, so receiving always reports completion. */
    method ReceiveBoundaryBuffers() returns (done: bool)
      ensures done
    {
      done := true;
    }

    method ReceiveAndSetBoundariesWithWait() {
    }

    method SetBoundaries() {
    }

    method StartReceiving(phase: CommSubset) {
    }

    method ClearBoundary(phase: CommSubset) {
    }
  }
}
