/** GraphObj: the graph engine as an object whose lists and objects change in
    place, with the arena allocator it owns. */
module Graphs {
  import opened Util
  import opened Types
  import opened GraphCore
  import opened Allocators
  import Connect
  import Topo = TopoSort
  import Opt = Optimize
  import Infer = ShapeInfer

  /** The graph as topo_sort leaves it: as it is when already marked sorted,
      otherwise with the operator list in the order of the scans, or none
      when a scan places nothing. */
  function Sorted(s: GraphState, sorted: bool): (r: Option<GraphState>)
    requires Closed(s)
    ensures r.Some? ==> Closed(r.value) && r.value == s.(ops := r.value.ops)
    ensures r.Some? ==> multiset(r.value.ops) == multiset(s.ops)
    ensures sorted ==> r == Some(s)
    ensures !sorted && r.Some? ==> Distinct(r.value.ops) && Topo.Ordered(s, r.value.ops)
    ensures !sorted ==> (r.None? <==> !Distinct(s.ops) || exists S :: Topo.Knot(s, s.ops, S))
  {
    if sorted then Some(s)
    else
      Topo.TopoFails(s);
      match Topo.TopoOrder(s)
      case None => None
      case Some(p) =>
        Topo.TopoSucceeds(s);
        assert forall o :: o in p ==> o in s.ops by {
          forall o | o in p ensures o in s.ops {
            assert o in multiset(p);
          }
        }
        Some(s.(ops := p))
  }

  /** A newly added tensor has neither producer nor consumer, so checkValid
      rejects the graph until an operator is connected to it. */
  lemma UnlinkedTensorRejected(s: GraphState, t: Tid)
    requires Listed(s) && t in s.tensors
    requires s.tensorOf[t].targets == [] && s.tensorOf[t].source.None?
    ensures CheckValid(s) == Fail(DanglingReference)
  {
    CheckValidMeaning(s);
    assert !TensorWired(s, s.tensorOf[t]);
  }

  // ---------------------------------------------------------------------------
  // Memory planning

  /** The bytes the allocator hands out for a tensor of `bytes(rec)` bytes. */
  function SizeOf(bytes: TensorRec -> Word64, rec: TensorRec): nat {
    AlignedSize(bytes(rec))
  }

  /** The range [a, a + n) meets no free block. */
  ghost predicate Clear(fb: set<BlockInfo>, a: nat, n: nat) {
    forall x :: Covered(fb, x) ==> !(a <= x < a + n)
  }

  /** The ranges [a, a + n) and [b, b + m) share no address. */
  predicate Disjoint(a: nat, n: nat, b: nat, m: nat) {
    n == 0 || m == 0 || a + n <= b || b + m <= a
  }

  /** A range below the old peak that no old free block covers stays clear of
      the free blocks after an allocation, and shares no address with the
      range handed out, since that range was free or above the old peak. */
  lemma FreshRangeApart(fb0: set<BlockInfo>, fb1: set<BlockInfo>, p0: nat, p1: nat, a: nat, n: nat, b: nat, m: nat)
    requires Clear(fb0, b, m) && b + m <= p0
    requires forall x :: Covered(fb1, x) || a <= x < a + n <==> Covered(fb0, x) || p0 <= x < p1
    ensures Clear(fb1, b, m) && Disjoint(a, n, b, m)
  {
    var x := if a < b then b else a;
    if a <= x < a + n {
      assert Covered(fb1, x) || a <= x < a + n;
      assert Covered(fb0, x) || p0 <= x < p1;
    }
    forall x | Covered(fb1, x) ensures !(b <= x < b + m) {
      assert Covered(fb0, x) || p0 <= x < p1;
    }
  }

  /** After dataMalloc a tensor differs only by its data, which lies at the
      allocator's base plus an offset, inside the arena. */
  ghost predicate Bound(before: TensorRec, after: TensorRec, ptr: nat, size: nat, peak: nat) {
    && after == before.(blob := after.blob)
    && after.blob.Some? && ptr <= after.blob.value && after.blob.value + size <= ptr + peak
  }

  /** The offsets of dataMalloc's first loop: one for each of the tensors
      `ts`, each inside the arena and clear of the free blocks, no two
      overlapping. */
  ghost predicate Planned(off: map<Tid, nat>, ts: seq<Tid>, T: map<Tid, TensorRec>, bytes: TensorRec -> Word64,
                          fb: set<BlockInfo>, peak: nat) {
    && (forall t :: t in off <==> t in ts)
    && (forall t :: t in off ==> t in T)
    && (forall t :: t in off && t in T ==>
          off[t] + SizeOf(bytes, T[t]) <= peak && Clear(fb, off[t], SizeOf(bytes, T[t])))
    && (forall t, u :: t in off && u in off && t in T && u in T && t != u ==>
          Disjoint(off[t], SizeOf(bytes, T[t]), off[u], SizeOf(bytes, T[u])))
  }

  /** Adding `p` to the predecessors of `q` first and `q` to the successors of
      `p` second gives the same graph as the other order. */
  lemma LinkEitherOrder(s: GraphState, p: Oid, q: Oid)
    requires p in s.opOf && q in s.opOf
    ensures var m1 := s.opOf[q := s.opOf[q].(preds := s.opOf[q].preds + [p])];
      Connect.Link(s, p, q) == s.(opOf := m1[p := m1[p].(succs := m1[p].succs + [q])])
  {
    var m1 := s.opOf[q := s.opOf[q].(preds := s.opOf[q].preds + [p])];
    var m2 := m1[p := m1[p].(succs := m1[p].succs + [q])];
    var l := Connect.Link(s, p, q).opOf;
    if p != q {
      assert forall k :: k in l ==> k in m2 && l[k] == m2[k];
      assert l == m2;
    }
  }

  /** One pass of dataMalloc's first loop keeps the offsets planned. */
  lemma PlannedStep(off: map<Tid, nat>, ts: seq<Tid>, T: map<Tid, TensorRec>, bytes: TensorRec -> Word64,
                    fb0: set<BlockInfo>, p0: nat, fb1: set<BlockInfo>, p1: nat, t: Tid, a: nat)
    requires Planned(off, ts, T, bytes, fb0, p0) && t in T && p0 <= p1
    requires a + SizeOf(bytes, T[t]) <= p1 && Clear(fb1, a, SizeOf(bytes, T[t]))
    requires forall x :: Covered(fb1, x) || a <= x < a + SizeOf(bytes, T[t]) <==> Covered(fb0, x) || p0 <= x < p1
    ensures Planned(off[t := a], ts + [t], T, bytes, fb1, p1)
  {
    forall u | u in off
      ensures Clear(fb1, off[u], SizeOf(bytes, T[u]))
      ensures Disjoint(a, SizeOf(bytes, T[t]), off[u], SizeOf(bytes, T[u]))
    {
      FreshRangeApart(fb0, fb1, p0, p1, a, SizeOf(bytes, T[t]), off[u], SizeOf(bytes, T[u]));
    }
  }

  /** Binding data changes no link, so no link dangles afterwards either. */
  lemma BlobsKeepClosed(s: GraphState, m: map<Tid, TensorRec>)
    requires Closed(s) && m.Keys == s.tensorOf.Keys
    requires forall t :: t in m ==> m[t] == s.tensorOf[t].(blob := m[t].blob)
    ensures Closed(s.(tensorOf := m))
  {
    assert forall t :: t in m ==> TensorRefsIn(m[t], s.opOf.Keys) by {
      forall t | t in m ensures TensorRefsIn(m[t], s.opOf.Keys) {
        assert TensorRefsIn(s.tensorOf[t], s.opOf.Keys);
      }
    }
  }

  /** What dataMalloc promises of the tensors `ts` of `T0` once their data is
      bound in `T`: each keeps everything but its data, which lies inside the
      arena at `ptr` and clear of the free blocks, and no two overlap. */
  ghost predicate Placed(T0: map<Tid, TensorRec>, T: map<Tid, TensorRec>, ts: seq<Tid>, bytes: TensorRec -> Word64,
                         ptr: nat, fb: set<BlockInfo>, peak: nat) {
    && (forall t :: t in ts ==> t in T0 && t in T)
    && (forall t :: t in ts ==>
          && Bound(T0[t], T[t], ptr, SizeOf(bytes, T0[t]), peak)
          && Clear(fb, T[t].blob.value - ptr, SizeOf(bytes, T0[t])))
    && (forall t, u :: t in ts && u in ts && t != u ==>
          Disjoint(T[t].blob.value, SizeOf(bytes, T0[t]), T[u].blob.value, SizeOf(bytes, T0[u])))
  }

  /** Binding every planned tensor to the buffer plus its offset places them. */
  lemma PlanPlaces(off: map<Tid, nat>, ts: seq<Tid>, T0: map<Tid, TensorRec>, T: map<Tid, TensorRec>,
                   bytes: TensorRec -> Word64, ptr: nat, fb: set<BlockInfo>, peak: nat)
    requires Planned(off, ts, T0, bytes, fb, peak) && T.Keys == T0.Keys
    requires forall t :: t in T0 ==> T[t] == if t in off then T0[t].(blob := Some(ptr + off[t])) else T0[t]
    ensures Placed(T0, T, ts, bytes, ptr, fb, peak)
  {
  }

  /** What dataMalloc promises once it succeeds: no tensor is added or
      removed; the buffer sits at `base` unless it was realized before; the
      arena does not shrink; tensors off the list are untouched; and the
      listed ones are placed. */
  ghost predicate Placement(T0: map<Tid, TensorRec>, T: map<Tid, TensorRec>, ts: seq<Tid>, bytes: TensorRec -> Word64,
                            ptr0: Option<nat>, ptr: Option<nat>, base: nat, peak0: nat, peak: nat, fb: set<BlockInfo>) {
    && T.Keys == T0.Keys
    && ptr == Some(if ptr0.Some? then ptr0.value else base)
    && peak >= peak0
    && (forall t :: t in T0 && t !in ts ==> T[t] == T0[t])
    && Placed(T0, T, ts, bytes, ptr.value, fb, peak)
  }

  lemma PlacementFromPlan(off: map<Tid, nat>, ts: seq<Tid>, T0: map<Tid, TensorRec>, T: map<Tid, TensorRec>,
                          bytes: TensorRec -> Word64, ptr0: Option<nat>, ptr: Option<nat>, base: nat,
                          peak0: nat, peak: nat, fb: set<BlockInfo>, p: nat)
    requires Planned(off, ts, T0, bytes, fb, peak) && T.Keys == T0.Keys
    requires forall t :: t in T0 ==> T[t] == if t in off then T0[t].(blob := Some(p + off[t])) else T0[t]
    requires ptr == Some(p) && p == (if ptr0.Some? then ptr0.value else base) && peak >= peak0
    ensures Placement(T0, T, ts, bytes, ptr0, ptr, base, peak0, peak, fb)
  {
    PlanPlaces(off, ts, T0, T, bytes, p, fb, peak);
  }

  class Graph {
    var tensors: seq<Tid>
    var ops: seq<Oid>
    var tensorOf: map<Tid, TensorRec>
    var opOf: map<Oid, OpRec>
    var sorted: bool
    const allocator: Allocator

    function State(): GraphState
      reads this
    {
      GraphState(tensors, ops, tensorOf, opOf)
    }

    ghost predicate Valid()
      reads this, allocator
    {
      Closed(State()) && allocator.Valid()
    }

    /** An empty, unsorted graph with a fresh allocator. */
    constructor ()
      ensures Valid() && fresh(allocator)
      ensures State() == GraphState([], [], map[], map[]) && !sorted
      ensures allocator.ptr.None? && allocator.peak == 0 && allocator.freeBlocks == {}
    {
      tensors := [];
      ops := [];
      tensorOf := map[];
      opOf := map[];
      sorted := false;
      allocator := new Allocator();
    }

    /** addTensor(dim, dtype): a new tensor object, with no links and no data,
        appended to the list; `fuid` is the family id its constructor draws. */
    method AddTensor(dims: Shape, dtype: DataType, fuid: nat) returns (t: Tid)
      requires Valid()
      modifies this`tensors, this`tensorOf
      ensures Valid()
      ensures t !in old(tensorOf)
      ensures tensors == old(tensors) + [t]
      ensures tensorOf == old(tensorOf)[t := TensorRec(fuid, dims, dtype, None, [], None)]
    {
      t := Fresh(tensorOf.Keys);
      tensorOf := tensorOf[t := TensorRec(fuid, dims, dtype, None, [], None)];
      tensors := tensors + [t];
    }

    /** addTensor(tensor): an existing tensor object appended to the list. */
    method AddExistingTensor(t: Tid)
      requires Valid() && t in tensorOf
      modifies this`tensors
      ensures Valid()
      ensures tensors == old(tensors) + [t]
    {
      tensors := tensors + [t];
    }

    /** addTensor(tensors): each one appended in turn. */
    method AddTensors(ts: seq<Tid>)
      requires Valid() && forall t :: t in ts ==> t in tensorOf
      modifies this`tensors
      ensures Valid()
      ensures tensors == old(tensors) + ts
    {
      var i := 0;
      while i < |ts|
        invariant i <= |ts| && Valid()
        invariant tensors == old(tensors) + ts[..i]
      {
        AddExistingTensor(ts[i]);
        assert ts[..i + 1] == ts[..i] + [ts[i]];
        i := i + 1;
      }
      assert ts[..|ts|] == ts;
    }

    /** addOperatorAndConnect for a new operator of kind `kind` reading
        `inputs` and writing `outputs`. */
    method AddOperatorAndConnect(kind: OpKind, inputs: seq<Tid>, outputs: seq<Tid>) returns (o: Oid)
      requires Valid()
      requires forall t :: t in inputs ==> t in tensorOf
      requires forall t :: t in outputs ==> t in tensorOf
      modifies this`sorted, this`ops, this`tensorOf, this`opOf
      ensures Valid() && !sorted
      ensures o !in old(opOf)
      ensures State() == Connect.ConnectOp(old(State()), o, OpRec(kind, inputs, outputs, [], []))
    {
      o := Fresh(opOf.Keys);
      ghost var s0 := State();
      ghost var rec := OpRec(kind, inputs, outputs, [], []);
      Connect.ConnectClosed(s0, o, rec);
      Connect.AppendClosed(s0, o, rec);
      sorted := false;
      ops := ops + [o];
      opOf := opOf[o := OpRec(kind, inputs, outputs, [], [])];
      assert State() == Connect.Append(s0, o, rec);
      ConnectInputsLoop(o, inputs);
      ConnectOutputsLoop(o, outputs);
    }

    /** The input loop of addOperatorAndConnect. */
    method ConnectInputsLoop(o: Oid, inputs: seq<Tid>)
      requires Closed(State()) && o in opOf && forall t :: t in inputs ==> t in tensorOf
      modifies this`tensorOf, this`opOf
      ensures Closed(State())
      ensures State() == Connect.ConnectInputs(old(State()), o, inputs, 0)
    {
      var i := 0;
      while i < |inputs|
        invariant i <= |inputs| && Closed(State()) && o in opOf
        invariant tensors == old(tensors) && ops == old(ops) && tensorOf.Keys == old(tensorOf).Keys
        invariant Connect.ConnectInputs(State(), o, inputs, i) == Connect.ConnectInputs(old(State()), o, inputs, 0)
      {
        LinkInputStep(o, inputs[i]);
        i := i + 1;
      }
    }

    /** One pass of the input loop: `o` becomes a consumer of `t`, and the
        producer of `t`, if any, a predecessor of `o`. */
    method LinkInputStep(o: Oid, t: Tid)
      requires Closed(State()) && o in opOf && t in tensorOf
      modifies this`tensorOf, this`opOf
      ensures Closed(State())
      ensures State() == Connect.LinkInput(old(State()), o, t)
    {
      Connect.AddTargetClosed(State(), t, o);
      tensorOf := tensorOf[t := tensorOf[t].(targets := tensorOf[t].targets + [o])];
      var src := tensorOf[t].source;
      if src.Some? {
        var p := src.value;
        assert TensorRefsIn(tensorOf[t], opOf.Keys);
        Connect.LinkClosed(State(), p, o);
        opOf := opOf[p := opOf[p].(succs := opOf[p].succs + [o])];
        opOf := opOf[o := opOf[o].(preds := opOf[o].preds + [p])];
      }
    }

    /** The output loop of addOperatorAndConnect. */
    method ConnectOutputsLoop(o: Oid, outputs: seq<Tid>)
      requires Closed(State()) && o in opOf && forall t :: t in outputs ==> t in tensorOf
      modifies this`tensorOf, this`opOf
      ensures Closed(State())
      ensures State() == Connect.ConnectOutputs(old(State()), o, outputs, 0)
    {
      var k := 0;
      while k < |outputs|
        invariant k <= |outputs| && Closed(State()) && o in opOf
        invariant tensors == old(tensors) && ops == old(ops) && tensorOf.Keys == old(tensorOf).Keys
        invariant Connect.ConnectOutputs(State(), o, outputs, k) == Connect.ConnectOutputs(old(State()), o, outputs, 0)
      {
        LinkOutputStep(o, outputs[k]);
        k := k + 1;
      }
    }

    /** One pass of the output loop: `o` becomes the producer of `t` and a
        predecessor of each of its consumers. */
    method LinkOutputStep(o: Oid, t: Tid)
      requires Closed(State()) && o in opOf && t in tensorOf
      modifies this`tensorOf, this`opOf
      ensures Closed(State())
      ensures State() == Connect.LinkOutput(old(State()), o, t)
    {
      var qs := tensorOf[t].targets;
      assert TensorRefsIn(tensorOf[t], opOf.Keys);
      tensorOf := tensorOf[t := tensorOf[t].(source := Some(o))];
      assert State() == Connect.SetSource(old(State()), t, o);
      LinkTargetsLoop(o, qs);
    }

    /** The inner loop of the output pass: `o` becomes a predecessor of each
        operator in `qs`, and each of them a successor of `o`. */
    method LinkTargetsLoop(o: Oid, qs: seq<Oid>)
      requires Closed(State()) && o in opOf && forall q :: q in qs ==> q in opOf
      modifies this`opOf
      ensures Closed(State())
      ensures State() == Connect.LinkTargets(old(State()), o, qs, 0)
    {
      ghost var s0 := State();
      var m := opOf;
      var j := 0;
      while j < |qs|
        invariant j <= |qs| && m.Keys == s0.opOf.Keys
        invariant Closed(s0.(opOf := m))
        invariant Connect.LinkTargets(s0.(opOf := m), o, qs, j) == Connect.LinkTargets(s0, o, qs, 0)
      {
        var q := qs[j];
        ghost var pre := s0.(opOf := m);
        Connect.LinkClosed(pre, o, q);
        m := m[q := m[q].(preds := m[q].preds + [o])];
        m := m[o := m[o].(succs := m[o].succs + [q])];
        LinkEitherOrder(pre, o, q);
        j := j + 1;
      }
      opOf := m;
    }

    /** topo_sort: true at once when the graph is marked sorted; otherwise the
        scans' order replaces the operator list and the graph is marked, or
        nothing changes and the answer is false. */
    method TopoSort() returns (ok: bool)
      requires Valid()
      modifies this`ops, this`sorted
      ensures Valid()
      ensures ok <==> Sorted(old(State()), old(sorted)).Some?
      ensures ok ==> State() == Sorted(old(State()), old(sorted)).value && sorted
      ensures !ok ==> ops == old(ops) && sorted == old(sorted)
    {
      if sorted {
        return true;
      }
      ghost var s0 := State();
      var r := Topo.TopoOrderLoop(State());
      match r {
        case None =>
          ok := false;
        case Some(p) =>
          assert Sorted(s0, false) == Some(s0.(ops := p));
          ops := p;
          sorted := true;
          ok := true;
      }
    }

    /** optimize: sort first (a failed sort aborts), then walk the operator
        list, rewriting transpose pairs and transpose-into-matmul in place. */
    method Optimize() returns (r: Outcome)
      requires Valid()
      modifies this`ops, this`sorted, this`tensors, this`tensorOf, this`opOf
      ensures Valid()
      ensures Sorted(old(State()), old(sorted)).None? ==> r == Fail(CycleDetected) && State() == old(State())
      ensures Sorted(old(State()), old(sorted)).Some? ==>
        var res := Opt.OptimizeFrom(Sorted(old(State()), old(sorted)).value, 0);
        && sorted
        && (res.Success? ==> r == Pass && State() == res.value)
        && (res.Failure? ==> r == Fail(res.error))
    {
      var ok := TopoSort();
      if !ok {
        return Fail(CycleDetected);
      }
      var res := Opt.OptimizeLoop(State());
      match res {
        case Failure(e) =>
          r := Fail(e);
        case Success(st) =>
          Opt.OptimizeKeepsClosed(State(), 0);
          tensors, ops, tensorOf, opOf := st.tensors, st.ops, st.tensorOf, st.opOf;
          r := Pass;
      }
    }

    /** shape_infer: every operator's outputs take their inferred shapes. */
    method ShapeInfer() returns (r: Outcome)
      requires Valid()
      modifies this`tensorOf
      ensures Valid()
      ensures var res := Infer.ShapeInferFrom(old(State()), 0);
        && (res.Success? ==> r == Pass && State() == res.value)
        && (res.Failure? ==> r == Fail(res.error) && State() == old(State()))
    {
      var res := Infer.ShapeInferLoop(State());
      match res {
        case Failure(e) =>
          r := Fail(e);
        case Success(s) =>
          tensorOf := s.tensorOf;
          r := Pass;
      }
    }

    /** dataMalloc: sort first (a failed sort aborts), give every listed
        tensor an offset from the allocator, realize the buffer at `base`, and
        bind each tensor's data to the buffer plus its offset. `bytes` is the
        tensor's byte size. */
    method DataMalloc(bytes: TensorRec -> Word64, base: nat) returns (r: Outcome)
      requires Valid()
      modifies this`ops, this`sorted, this`tensorOf, allocator
      ensures Valid()
      ensures Sorted(old(State()), old(sorted)).None? ==>
        r == Fail(CycleDetected) && State() == old(State()) && unchanged(allocator)
      ensures Sorted(old(State()), old(sorted)).Some? && old(allocator.ptr).Some? && |old(tensors)| > 0 ==>
        r == Fail(AllocatorMisuse) && State() == Sorted(old(State()), old(sorted)).value && unchanged(allocator)
      ensures r == Pass <==>
        Sorted(old(State()), old(sorted)).Some? && (old(allocator.ptr).None? || |old(tensors)| == 0)
      ensures r == Pass ==>
        && sorted && ops == Sorted(old(State()), old(sorted)).value.ops
        && tensors == old(tensors) && opOf == old(opOf)
        && Placement(old(tensorOf), tensorOf, tensors, bytes, old(allocator.ptr), allocator.ptr, base,
                     old(allocator.peak), allocator.peak, allocator.freeBlocks)
    {
      var ok := TopoSort();
      if !ok {
        return Fail(CycleDetected);
      }
      r := PlaceTensors(bytes, base);
    }

    /** dataMalloc after the sort: plan, realize, bind. */
    method PlaceTensors(bytes: TensorRec -> Word64, base: nat) returns (r: Outcome)
      requires Valid()
      modifies this`tensorOf, allocator
      ensures Valid()
      ensures r == Pass <==> old(allocator.ptr).None? || |tensors| == 0
      ensures r != Pass ==> r == Fail(AllocatorMisuse) && tensorOf == old(tensorOf) && unchanged(allocator)
      ensures r == Pass ==> Placement(old(tensorOf), tensorOf, tensors, bytes, old(allocator.ptr), allocator.ptr, base,
                                      old(allocator.peak), allocator.peak, allocator.freeBlocks)
    {
      var placed := Place(allocator, State(), bytes, base);
      if placed.Failure? {
        return Fail(placed.error);
      }
      tensorOf := placed.value;
      r := Pass;
    }
  }

  /** dataMalloc's allocation, realization and binding on a graph state:
      the new tensor map, or the misuse of an already realized allocator. */
  method Place(alloc: Allocator, s: GraphState, bytes: TensorRec -> Word64, base: nat)
    returns (r: Result<map<Tid, TensorRec>>)
    requires alloc.Valid() && Closed(s)
    modifies alloc
    ensures alloc.Valid()
    ensures r.Failure? <==> old(alloc.ptr).Some? && |s.tensors| > 0
    ensures r.Failure? ==> r.error == AllocatorMisuse && unchanged(alloc)
    ensures r.Success? ==> Closed(s.(tensorOf := r.value))
    ensures r.Success? ==> Placement(s.tensorOf, r.value, s.tensors, bytes, old(alloc.ptr), alloc.ptr, base,
                                     old(alloc.peak), alloc.peak, alloc.freeBlocks)
  {
    assert forall t :: t in s.tensors ==> t in s.tensorOf;
    var plan := Reserve(alloc, s.tensors, s.tensorOf, bytes, base);
    if plan.Failure? {
      return Failure(plan.error);
    }
    var (offsets, p) := plan.value;
    var m := BindLoop(s.tensorOf, offsets, p);
    BlobsKeepClosed(s, m);
    PlacementFromPlan(offsets, s.tensors, s.tensorOf, m, bytes, old(alloc.ptr), alloc.ptr, base,
                      old(alloc.peak), alloc.peak, alloc.freeBlocks, p);
    r := Success(m);
  }

  /** The allocation loop of dataMalloc followed by the realization of the
      buffer at `base`: the offsets and the buffer's address. */
  method Reserve(alloc: Allocator, ts: seq<Tid>, T: map<Tid, TensorRec>, bytes: TensorRec -> Word64, base: nat)
    returns (r: Result<(map<Tid, nat>, nat)>)
    requires alloc.Valid() && forall t :: t in ts ==> t in T
    modifies alloc
    ensures alloc.Valid()
    ensures r.Failure? <==> old(alloc.ptr).Some? && |ts| > 0
    ensures r.Failure? ==> r.error == AllocatorMisuse && unchanged(alloc)
    ensures r.Success? ==>
      && alloc.ptr == Some(r.value.1) && r.value.1 == (if old(alloc.ptr).Some? then old(alloc.ptr).value else base)
      && alloc.peak >= old(alloc.peak)
      && Planned(r.value.0, ts, T, bytes, alloc.freeBlocks, alloc.peak)
  {
    var plan := PlanOffsets(alloc, ts, T, bytes);
    if plan.Failure? {
      return Failure(plan.error);
    }
    var p := alloc.GetPtr(base);
    r := Success((plan.value, p));
  }

  /** The allocation loop of dataMalloc: an offset for every tensor of `ts`,
      or the allocator's refusal once its buffer is realized. */
  method PlanOffsets(alloc: Allocator, ts: seq<Tid>, T: map<Tid, TensorRec>, bytes: TensorRec -> Word64)
    returns (r: Result<map<Tid, nat>>)
    requires alloc.Valid() && forall t :: t in ts ==> t in T
    modifies alloc
    ensures alloc.Valid()
    ensures alloc.ptr == old(alloc.ptr) && alloc.realizedBytes == old(alloc.realizedBytes)
    ensures r.Failure? <==> old(alloc.ptr).Some? && |ts| > 0
    ensures r.Failure? ==> r.error == AllocatorMisuse
    ensures old(alloc.ptr).Some? ==> unchanged(alloc)
    ensures alloc.peak >= old(alloc.peak)
    ensures r.Success? ==> Planned(r.value, ts, T, bytes, alloc.freeBlocks, alloc.peak)
  {
    var offsets: map<Tid, nat> := map[];
    var k := 0;
    while k < |ts|
      invariant k <= |ts| && alloc.Valid()
      invariant alloc.ptr == old(alloc.ptr) && alloc.realizedBytes == old(alloc.realizedBytes)
      invariant k > 0 ==> alloc.ptr.None?
      invariant old(alloc.ptr).Some? ==> unchanged(alloc)
      invariant alloc.peak >= old(alloc.peak)
      invariant Planned(offsets, ts[..k], T, bytes, alloc.freeBlocks, alloc.peak)
    {
      var t := ts[k];
      assert ts[..k + 1] == ts[..k] + [t];
      ghost var fb0, p0 := alloc.freeBlocks, alloc.peak;
      var a := alloc.Alloc(bytes(T[t]));
      if a.Failure? {
        return Failure(a.error);
      }
      var off := a.value;
      PlannedStep(offsets, ts[..k], T, bytes, fb0, p0, alloc.freeBlocks, alloc.peak, t, off);
      offsets := offsets[t := off];
      k := k + 1;
    }
    assert ts[..k] == ts;
    r := Success(offsets);
  }

  /** The binding loop of dataMalloc: each planned tensor's data becomes the
      buffer at `p` plus its offset. */
  method BindLoop(T0: map<Tid, TensorRec>, offsets: map<Tid, nat>, p: nat) returns (m: map<Tid, TensorRec>)
    requires offsets.Keys <= T0.Keys
    ensures m.Keys == T0.Keys
    ensures forall t :: t in T0 ==>
      m[t] == if t in offsets then T0[t].(blob := Some(p + offsets[t])) else T0[t]
  {
    m := T0;
    var rest := offsets.Keys;
    while rest != {}
      invariant rest <= offsets.Keys && m.Keys == T0.Keys
      invariant forall t :: t in T0 ==>
        m[t] == if t in offsets && t !in rest then T0[t].(blob := Some(p + offsets[t])) else T0[t]
      decreases |rest|
    {
      var t :| t in rest;
      ghost var m0 := m;
      m := m[t := T0[t].(blob := Some(p + offsets[t]))];
      rest := rest - {t};
      forall u | u in T0
        ensures m[u] == if u in offsets && u !in rest then T0[u].(blob := Some(p + offsets[u])) else T0[u]
      {
        if u != t {
          assert m[u] == m0[u];
        }
      }
    }
  }
}
