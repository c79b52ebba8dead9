/** addOperatorAndConnect as values: the links a new operator gets to the
    producers of its inputs and the consumers of its outputs. */
module Connect {
  import opened Util
  import opened GraphCore

  /** The graph's lists and its sets of objects are the same. */
  predicate SameFrame(a: GraphState, b: GraphState) {
    b.tensors == a.tensors && b.ops == a.ops && b.tensorOf.Keys == a.tensorOf.Keys && b.opOf.Keys == a.opOf.Keys
  }

  /** Every element of `a` occurs in `b`. */
  predicate Within<T(==)>(a: seq<T>, b: seq<T>) {
    forall x :: x in a ==> x in b
  }

  /** A tensor record without its links. */
  function TensorBare(x: TensorRec): TensorRec {
    x.(targets := [], source := None)
  }

  /** An operator record without its neighbour lists. */
  function OpBare(x: OpRec): OpRec {
    x.(preds := [], succs := [])
  }

  /** `y` is `x` with consumers added (its producer may differ). */
  predicate TensorGrows(x: TensorRec, y: TensorRec) {
    TensorBare(y) == TensorBare(x) && Within(x.targets, y.targets)
  }

  /** `y` is `x` with neighbours added. */
  predicate OpGrows(x: OpRec, y: OpRec) {
    OpBare(y) == OpBare(x) && Within(x.preds, y.preds) && Within(x.succs, y.succs)
  }

  // ---------------------------------------------------------------------------
  // The two kinds of link

  /** addTarget: `o` becomes a consumer of tensor `t`. */
  function AddTarget(s: GraphState, t: Tid, o: Oid): (r: GraphState)
    requires t in s.tensorOf
    ensures SameFrame(s, r) && r.opOf == s.opOf
  {
    s.(tensorOf := s.tensorOf[t := s.tensorOf[t].(targets := s.tensorOf[t].targets + [o])])
  }

  /** addSuccessors on `p` and addPredecessors on `q`: `q` now follows `p`. */
  function Link(s: GraphState, p: Oid, q: Oid): (r: GraphState)
    requires p in s.opOf && q in s.opOf
    ensures SameFrame(s, r) && r.tensorOf == s.tensorOf
  {
    var s1 := s.(opOf := s.opOf[p := s.opOf[p].(succs := s.opOf[p].succs + [q])]);
    s1.(opOf := s1.opOf[q := s1.opOf[q].(preds := s1.opOf[q].preds + [p])])
  }

  lemma LinkClosed(s: GraphState, p: Oid, q: Oid)
    requires Closed(s) && p in s.opOf && q in s.opOf
    ensures Closed(Link(s, p, q))
  {
  }

  lemma AddTargetClosed(s: GraphState, t: Tid, o: Oid)
    requires Closed(s) && t in s.tensorOf && o in s.opOf
    ensures Closed(AddTarget(s, t, o))
  {
  }

  /** What a link adds: `q` follows `p`, and every operator only gains
      neighbours. */
  lemma LinkEffect(s: GraphState, p: Oid, q: Oid, u: Oid)
    requires p in s.opOf && q in s.opOf && u in s.opOf
    ensures var r := Link(s, p, q);
      q in r.opOf[p].succs && p in r.opOf[q].preds && OpGrows(s.opOf[u], r.opOf[u])
  {
  }

  // ---------------------------------------------------------------------------
  // The input loop

  /** One input `t` of the new operator `o`: `o` becomes a target of `t`, and
      when `t` has a producer `p`, `p` and `o` are linked. */
  function LinkInput(s: GraphState, o: Oid, t: Tid): (r: GraphState)
    requires t in s.tensorOf && o in s.opOf
    ensures SameFrame(s, r)
  {
    var s1 := AddTarget(s, t, o);
    match s.tensorOf[t].source
    case None => s1
    case Some(p) => if p !in s1.opOf then s1 else Link(s1, p, o)
  }

  /** The input loop from position k. */
  function ConnectInputs(s: GraphState, o: Oid, ins: seq<Tid>, k: nat): (r: GraphState)
    requires o in s.opOf && forall t :: t in ins ==> t in s.tensorOf
    ensures SameFrame(s, r)
    decreases |ins| - k
  {
    if k >= |ins| then s else ConnectInputs(LinkInput(s, o, ins[k]), o, ins, k + 1)
  }

  // ---------------------------------------------------------------------------
  // The output loop

  /** The loop over one output's consumers, from position j, linking `o`
      before each. */
  function LinkTargets(s: GraphState, o: Oid, qs: seq<Oid>, j: nat): (r: GraphState)
    requires o in s.opOf
    ensures SameFrame(s, r) && r.tensorOf == s.tensorOf
    decreases |qs| - j
  {
    if j >= |qs| then s
    else LinkTargets(if qs[j] in s.opOf then Link(s, o, qs[j]) else s, o, qs, j + 1)
  }

  /** setSource: `o` becomes the producer of `t`. */
  function SetSource(s: GraphState, t: Tid, o: Oid): (r: GraphState)
    requires t in s.tensorOf
    ensures SameFrame(s, r) && r.opOf == s.opOf
  {
    s.(tensorOf := s.tensorOf[t := s.tensorOf[t].(source := Some(o))])
  }

  /** One output `t` of `o`: `o` becomes its producer, then is linked with
      each of its consumers. */
  function LinkOutput(s: GraphState, o: Oid, t: Tid): (r: GraphState)
    requires t in s.tensorOf && o in s.opOf
    ensures SameFrame(s, r)
  {
    LinkTargets(SetSource(s, t, o), o, s.tensorOf[t].targets, 0)
  }

  /** The output loop from position k. */
  function ConnectOutputs(s: GraphState, o: Oid, outs: seq<Tid>, k: nat): (r: GraphState)
    requires o in s.opOf && forall t :: t in outs ==> t in s.tensorOf
    ensures SameFrame(s, r)
    decreases |outs| - k
  {
    if k >= |outs| then s else ConnectOutputs(LinkOutput(s, o, outs[k]), o, outs, k + 1)
  }

  /** The operator with identity `o` and record `rec` appended to the list,
      before any link is made. */
  function Append(s: GraphState, o: Oid, rec: OpRec): GraphState {
    s.(ops := s.ops + [o], opOf := s.opOf[o := rec])
  }

  /** addOperatorAndConnect: `o` is appended, then the input loop and the
      output loop run. */
  function ConnectOp(s: GraphState, o: Oid, rec: OpRec): (r: GraphState)
    requires forall t :: t in rec.inputs ==> t in s.tensorOf
    requires forall t :: t in rec.outputs ==> t in s.tensorOf
    ensures r.tensors == s.tensors && r.ops == s.ops + [o]
    ensures r.tensorOf.Keys == s.tensorOf.Keys && r.opOf.Keys == s.opOf.Keys + {o}
  {
    var s0 := Append(s, o, rec);
    ConnectOutputs(ConnectInputs(s0, o, rec.inputs, 0), o, rec.outputs, 0)
  }

  // ---------------------------------------------------------------------------
  // No link dangles

  lemma {:induction false} ConnectInputsClosed(s: GraphState, o: Oid, ins: seq<Tid>, k: nat)
    requires Closed(s) && o in s.opOf && forall t :: t in ins ==> t in s.tensorOf
    ensures Closed(ConnectInputs(s, o, ins, k))
    decreases |ins| - k
  {
    if k < |ins| {
      var t := ins[k];
      AddTargetClosed(s, t, o);
      var s1 := AddTarget(s, t, o);
      if s.tensorOf[t].source.Some? && s.tensorOf[t].source.value in s1.opOf {
        LinkClosed(s1, s.tensorOf[t].source.value, o);
      }
      ConnectInputsClosed(LinkInput(s, o, t), o, ins, k + 1);
    }
  }

  lemma {:induction false} LinkTargetsClosed(s: GraphState, o: Oid, qs: seq<Oid>, j: nat)
    requires Closed(s) && o in s.opOf
    ensures Closed(LinkTargets(s, o, qs, j))
    decreases |qs| - j
  {
    if j < |qs| {
      if qs[j] in s.opOf {
        LinkClosed(s, o, qs[j]);
      }
      LinkTargetsClosed(if qs[j] in s.opOf then Link(s, o, qs[j]) else s, o, qs, j + 1);
    }
  }

  lemma {:induction false} ConnectOutputsClosed(s: GraphState, o: Oid, outs: seq<Tid>, k: nat)
    requires Closed(s) && o in s.opOf && forall t :: t in outs ==> t in s.tensorOf
    ensures Closed(ConnectOutputs(s, o, outs, k))
    decreases |outs| - k
  {
    if k < |outs| {
      var t := outs[k];
      assert Closed(SetSource(s, t, o));
      LinkTargetsClosed(SetSource(s, t, o), o, s.tensorOf[t].targets, 0);
      ConnectOutputsClosed(LinkOutput(s, o, t), o, outs, k + 1);
    }
  }

  // ---------------------------------------------------------------------------
  // The input loop, object by object

  /** Under the input loop a tensor keeps its producer and only gains
      consumers, each of them `o`, and a tensor outside `ins[k..]` is untouched. */
  lemma {:induction false} InputsTensor(s: GraphState, o: Oid, ins: seq<Tid>, k: nat, t: Tid)
    requires o in s.opOf && forall u :: u in ins ==> u in s.tensorOf
    requires t in s.tensorOf && k <= |ins|
    ensures var r := ConnectInputs(s, o, ins, k).tensorOf[t];
      && TensorGrows(s.tensorOf[t], r) && r.source == s.tensorOf[t].source
      && (forall x :: x in r.targets ==> x in s.tensorOf[t].targets || x == o)
      && (t !in ins[k..] ==> r == s.tensorOf[t])
    decreases |ins| - k
  {
    if k < |ins| {
      var s1 := LinkInput(s, o, ins[k]);
      assert s1.tensorOf == AddTarget(s, ins[k], o).tensorOf;
      InputsTensor(s1, o, ins, k + 1, t);
      assert ins[k..] == [ins[k]] + ins[k + 1..];
    }
  }

  /** Under the input loop an operator only gains neighbours. */
  lemma {:induction false} InputsOp(s: GraphState, o: Oid, ins: seq<Tid>, k: nat, q: Oid)
    requires o in s.opOf && q in s.opOf && forall u :: u in ins ==> u in s.tensorOf
    ensures OpGrows(s.opOf[q], ConnectInputs(s, o, ins, k).opOf[q])
    decreases |ins| - k
  {
    if k < |ins| {
      var t := ins[k];
      var s1 := AddTarget(s, t, o);
      if s.tensorOf[t].source.Some? && s.tensorOf[t].source.value in s1.opOf {
        LinkEffect(s1, s.tensorOf[t].source.value, o, q);
      }
      InputsOp(LinkInput(s, o, t), o, ins, k + 1, q);
    }
  }

  /** The input loop from k makes `o` a consumer of the input at position j. */
  lemma {:induction false} InputConsumed(s: GraphState, o: Oid, ins: seq<Tid>, k: nat, j: nat)
    requires o in s.opOf && forall u :: u in ins ==> u in s.tensorOf
    requires k <= j < |ins|
    ensures o in ConnectInputs(s, o, ins, k).tensorOf[ins[j]].targets
    decreases |ins| - k
  {
    var s1 := LinkInput(s, o, ins[k]);
    if j == k {
      assert s1.tensorOf == AddTarget(s, ins[k], o).tensorOf;
      InputsTensor(s1, o, ins, k + 1, ins[j]);
    } else {
      InputConsumed(s1, o, ins, k + 1, j);
    }
  }

  /** The input loop from k links `o` with the producer `p` of the input at
      position j. */
  lemma {:induction false} InputLinked(s: GraphState, o: Oid, ins: seq<Tid>, k: nat, j: nat, p: Oid)
    requires o in s.opOf && p in s.opOf && forall u :: u in ins ==> u in s.tensorOf
    requires k <= j < |ins| && s.tensorOf[ins[j]].source == Some(p)
    ensures var r := ConnectInputs(s, o, ins, k);
      p in r.opOf[o].preds && o in r.opOf[p].succs
    decreases |ins| - k
  {
    var s1 := LinkInput(s, o, ins[k]);
    if j == k {
      LinkEffect(AddTarget(s, ins[k], o), p, o, o);
      InputsOp(s1, o, ins, k + 1, o);
      InputsOp(s1, o, ins, k + 1, p);
    } else {
      assert s1.tensorOf == AddTarget(s, ins[k], o).tensorOf;
      InputLinked(s1, o, ins, k + 1, j, p);
    }
  }

  // ---------------------------------------------------------------------------
  // The output loop, object by object

  lemma {:induction false} LinkTargetsOp(s: GraphState, o: Oid, qs: seq<Oid>, j: nat, q: Oid)
    requires o in s.opOf && q in s.opOf
    ensures OpGrows(s.opOf[q], LinkTargets(s, o, qs, j).opOf[q])
    decreases |qs| - j
  {
    if j < |qs| {
      if qs[j] in s.opOf {
        LinkEffect(s, o, qs[j], q);
      }
      LinkTargetsOp(if qs[j] in s.opOf then Link(s, o, qs[j]) else s, o, qs, j + 1, q);
    }
  }

  /** The consumer loop links `o` with the consumer at position i. */
  lemma {:induction false} TargetLinked(s: GraphState, o: Oid, qs: seq<Oid>, j: nat, i: nat)
    requires o in s.opOf && j <= i < |qs| && qs[i] in s.opOf
    ensures var r := LinkTargets(s, o, qs, j);
      o in r.opOf[qs[i]].preds && qs[i] in r.opOf[o].succs
    decreases |qs| - j
  {
    if i == j {
      LinkEffect(s, o, qs[j], o);
      LinkTargetsOp(Link(s, o, qs[j]), o, qs, j + 1, o);
      LinkTargetsOp(Link(s, o, qs[j]), o, qs, j + 1, qs[i]);
    } else {
      TargetLinked(if qs[j] in s.opOf then Link(s, o, qs[j]) else s, o, qs, j + 1, i);
    }
  }

  /** Under the output loop an operator only gains neighbours. */
  lemma {:induction false} OutputsOp(s: GraphState, o: Oid, outs: seq<Tid>, k: nat, q: Oid)
    requires o in s.opOf && q in s.opOf && forall u :: u in outs ==> u in s.tensorOf
    ensures OpGrows(s.opOf[q], ConnectOutputs(s, o, outs, k).opOf[q])
    decreases |outs| - k
  {
    if k < |outs| {
      LinkTargetsOp(SetSource(s, outs[k], o), o, s.tensorOf[outs[k]].targets, 0, q);
      OutputsOp(LinkOutput(s, o, outs[k]), o, outs, k + 1, q);
    }
  }

  /** Under the output loop a tensor keeps its consumers, and takes `o` as
      producer exactly when it is among the outputs from k on. */
  lemma {:induction false} OutputsTensor(s: GraphState, o: Oid, outs: seq<Tid>, k: nat, t: Tid)
    requires o in s.opOf && t in s.tensorOf && forall u :: u in outs ==> u in s.tensorOf
    requires k <= |outs|
    ensures var r := ConnectOutputs(s, o, outs, k).tensorOf[t];
      && r == s.tensorOf[t].(source := r.source)
      && r.source == if t in outs[k..] then Some(o) else s.tensorOf[t].source
    decreases |outs| - k
  {
    if k < |outs| {
      OutputsTensor(LinkOutput(s, o, outs[k]), o, outs, k + 1, t);
      assert outs[k..] == [outs[k]] + outs[k + 1..];
    }
  }

  /** The output loop from k links `o` with each consumer `q` of the output at
      position j. */
  lemma {:induction false} OutputLinked(s: GraphState, o: Oid, outs: seq<Tid>, k: nat, j: nat, q: Oid)
    requires o in s.opOf && q in s.opOf && forall u :: u in outs ==> u in s.tensorOf
    requires k <= j < |outs| && q in s.tensorOf[outs[j]].targets
    ensures var r := ConnectOutputs(s, o, outs, k);
      o in r.opOf[q].preds && q in r.opOf[o].succs
    decreases |outs| - k
  {
    var s1 := LinkOutput(s, o, outs[k]);
    if j == k {
      var qs := s.tensorOf[outs[k]].targets;
      var i :| 0 <= i < |qs| && qs[i] == q;
      TargetLinked(SetSource(s, outs[k], o), o, qs, 0, i);
      OutputsOp(s1, o, outs, k + 1, o);
      OutputsOp(s1, o, outs, k + 1, q);
    } else {
      assert s1.tensorOf[outs[j]].targets == s.tensorOf[outs[j]].targets by {
        assert s1.tensorOf == SetSource(s, outs[k], o).tensorOf;
      }
      OutputLinked(s1, o, outs, k + 1, j, q);
    }
  }

  // ---------------------------------------------------------------------------
  // addOperatorAndConnect as a whole

  /** The new operator, before any link, on a graph without dangling links. */
  lemma AppendClosed(s: GraphState, o: Oid, rec: OpRec)
    requires Closed(s) && rec.preds == [] && rec.succs == []
    requires forall t :: t in rec.inputs ==> t in s.tensorOf
    requires forall t :: t in rec.outputs ==> t in s.tensorOf
    ensures Closed(Append(s, o, rec))
  {
  }

  /** Connecting a new operator leaves no link dangling. */
  lemma ConnectClosed(s: GraphState, o: Oid, rec: OpRec)
    requires Closed(s) && rec.preds == [] && rec.succs == []
    requires forall t :: t in rec.inputs ==> t in s.tensorOf
    requires forall t :: t in rec.outputs ==> t in s.tensorOf
    ensures Closed(ConnectOp(s, o, rec))
  {
    var s0 := Append(s, o, rec);
    AppendClosed(s, o, rec);
    ConnectInputsClosed(s0, o, rec.inputs, 0);
    ConnectOutputsClosed(ConnectInputs(s0, o, rec.inputs, 0), o, rec.outputs, 0);
  }

  /** Connecting changes no object but by links: the new operator keeps its
      kind and tensors, every other operator only gains neighbours, and every
      tensor keeps its family id, shape, type and data. */
  lemma ConnectOnlyLinks(s: GraphState, o: Oid, rec: OpRec)
    requires o !in s.opOf
    requires forall t :: t in rec.inputs ==> t in s.tensorOf
    requires forall t :: t in rec.outputs ==> t in s.tensorOf
    ensures var r := ConnectOp(s, o, rec);
      && OpBare(r.opOf[o]) == OpBare(rec)
      && (forall q :: q in s.opOf ==> OpGrows(s.opOf[q], r.opOf[q]))
      && (forall t :: t in s.tensorOf ==> TensorBare(r.tensorOf[t]) == TensorBare(s.tensorOf[t]))
  {
    var s0 := Append(s, o, rec);
    var m := ConnectInputs(s0, o, rec.inputs, 0);
    forall q | q in s0.opOf
      ensures OpGrows(s0.opOf[q], ConnectOp(s, o, rec).opOf[q])
    {
      InputsOp(s0, o, rec.inputs, 0, q);
      OutputsOp(m, o, rec.outputs, 0, q);
    }
    forall t | t in s.tensorOf
      ensures TensorBare(ConnectOp(s, o, rec).tensorOf[t]) == TensorBare(s.tensorOf[t])
    {
      InputsTensor(s0, o, rec.inputs, 0, t);
      OutputsTensor(m, o, rec.outputs, 0, t);
    }
  }

  /** Connecting makes the new operator a consumer of exactly its inputs, and
      the producer of exactly its outputs. */
  lemma ConnectTensors(s: GraphState, o: Oid, rec: OpRec)
    requires Closed(s) && o !in s.opOf
    requires forall t :: t in rec.inputs ==> t in s.tensorOf
    requires forall t :: t in rec.outputs ==> t in s.tensorOf
    ensures var r := ConnectOp(s, o, rec);
      && (forall t, x :: t in s.tensorOf ==>
            (x in r.tensorOf[t].targets <==> x in s.tensorOf[t].targets || (x == o && t in rec.inputs)))
      && (forall t :: t in s.tensorOf ==>
            r.tensorOf[t].source == if t in rec.outputs then Some(o) else s.tensorOf[t].source)
  {
    var s0 := Append(s, o, rec);
    var m := ConnectInputs(s0, o, rec.inputs, 0);
    var r := ConnectOp(s, o, rec);
    assert rec.inputs[0..] == rec.inputs && rec.outputs[0..] == rec.outputs;
    forall t | t in s.tensorOf
      ensures forall x :: x in r.tensorOf[t].targets <==> x in s.tensorOf[t].targets || (x == o && t in rec.inputs)
      ensures r.tensorOf[t].source == if t in rec.outputs then Some(o) else s.tensorOf[t].source
    {
      InputsTensor(s0, o, rec.inputs, 0, t);
      OutputsTensor(m, o, rec.outputs, 0, t);
      assert o !in s.tensorOf[t].targets;
      if t in rec.inputs {
        var j :| 0 <= j < |rec.inputs| && rec.inputs[j] == t;
        InputConsumed(s0, o, rec.inputs, 0, j);
      }
    }
  }

  /** Connecting links the new operator both ways with the producer of each
      of its inputs. */
  lemma ConnectLinksProducers(s: GraphState, o: Oid, rec: OpRec)
    requires Closed(s) && o !in s.opOf
    requires forall t :: t in rec.inputs ==> t in s.tensorOf
    requires forall t :: t in rec.outputs ==> t in s.tensorOf
    ensures var r := ConnectOp(s, o, rec);
      forall t :: t in rec.inputs && s.tensorOf[t].source.Some? ==>
        s.tensorOf[t].source.value in r.opOf[o].preds && o in r.opOf[s.tensorOf[t].source.value].succs
  {
    var s0 := Append(s, o, rec);
    var m := ConnectInputs(s0, o, rec.inputs, 0);
    forall t | t in rec.inputs && s.tensorOf[t].source.Some?
      ensures var r := ConnectOp(s, o, rec);
        s.tensorOf[t].source.value in r.opOf[o].preds && o in r.opOf[s.tensorOf[t].source.value].succs
    {
      var p := s.tensorOf[t].source.value;
      var j :| 0 <= j < |rec.inputs| && rec.inputs[j] == t;
      InputLinked(s0, o, rec.inputs, 0, j, p);
      OutputsOp(m, o, rec.outputs, 0, o);
      OutputsOp(m, o, rec.outputs, 0, p);
    }
  }

  /** Connecting links the new operator both ways with each consumer `q` of
      each of its outputs `t`. */
  lemma ConnectLinksConsumer(s: GraphState, o: Oid, rec: OpRec, t: Tid, q: Oid)
    requires o !in s.opOf
    requires forall t :: t in rec.inputs ==> t in s.tensorOf
    requires forall t :: t in rec.outputs ==> t in s.tensorOf
    requires t in rec.outputs && q in s.tensorOf[t].targets && q in s.opOf
    ensures var r := ConnectOp(s, o, rec);
      o in r.opOf[q].preds && q in r.opOf[o].succs
  {
    var s0 := Append(s, o, rec);
    var m := ConnectInputs(s0, o, rec.inputs, 0);
    var j :| 0 <= j < |rec.outputs| && rec.outputs[j] == t;
    InputsTensor(s0, o, rec.inputs, 0, t);
    OutputLinked(m, o, rec.outputs, 0, j, q);
  }

  /** An operator that reads a tensor it also writes becomes its own
      predecessor and successor. */
  lemma ConnectSelfLoop(s: GraphState, o: Oid, rec: OpRec, t: Tid)
    requires o !in s.opOf
    requires forall t :: t in rec.inputs ==> t in s.tensorOf
    requires forall t :: t in rec.outputs ==> t in s.tensorOf
    requires t in rec.outputs && t in rec.inputs
    ensures var r := ConnectOp(s, o, rec);
      o in r.opOf[o].preds && o in r.opOf[o].succs
  {
    var s0 := Append(s, o, rec);
    var m := ConnectInputs(s0, o, rec.inputs, 0);
    var i :| 0 <= i < |rec.inputs| && rec.inputs[i] == t;
    var j :| 0 <= j < |rec.outputs| && rec.outputs[j] == t;
    InputConsumed(s0, o, rec.inputs, 0, i);
    OutputLinked(m, o, rec.outputs, 0, j, o);
  }

  // ---------------------------------------------------------------------------
  // Exactly the links addOperatorAndConnect makes

  /** Operator `q` produces tensor `t`. */
  predicate Produces(s: GraphState, t: Tid, q: Oid) {
    t in s.tensorOf && s.tensorOf[t].source == Some(q)
  }

  /** Operator `q` consumes tensor `t`. */
  predicate Consumes(s: GraphState, t: Tid, q: Oid) {
    t in s.tensorOf && q in s.tensorOf[t].targets
  }

  /** Every link runs both ways: `q` lists `p` as a predecessor exactly when
      `p` lists `q` as a successor. */
  predicate Symmetric(s: GraphState) {
    forall p, q :: p in s.opOf && q in s.opOf ==> (p in s.opOf[q].preds <==> q in s.opOf[p].succs)
  }

  /** A link adds exactly `q` to the successors of `p` and `p` to the
      predecessors of `q`. */
  lemma LinkExact(s: GraphState, p: Oid, q: Oid, u: Oid, x: Oid)
    requires p in s.opOf && q in s.opOf && u in s.opOf
    ensures var r := Link(s, p, q).opOf[u];
      && (x in r.succs <==> x in s.opOf[u].succs || (u == p && x == q))
      && (x in r.preds <==> x in s.opOf[u].preds || (u == q && x == p))
  {
  }

  lemma {:induction false} InputsSuccs(s: GraphState, o: Oid, ins: seq<Tid>, k: nat, q: Oid, x: Oid)
    requires o in s.opOf && q in s.opOf && forall u :: u in ins ==> u in s.tensorOf
    requires k <= |ins|
    ensures x in ConnectInputs(s, o, ins, k).opOf[q].succs <==>
      x in s.opOf[q].succs || (x == o && exists t :: t in ins[k..] && Produces(s, t, q))
    decreases |ins| - k
  {
    if k < |ins| {
      var t := ins[k];
      var s1 := LinkInput(s, o, t);
      var s2 := AddTarget(s, t, o);
      assert s1.tensorOf == s2.tensorOf;
      InputsSuccs(s1, o, ins, k + 1, q, x);
      if s.tensorOf[t].source.Some? && s.tensorOf[t].source.value in s2.opOf {
        LinkExact(s2, s.tensorOf[t].source.value, o, q, x);
      }
      assert x in s1.opOf[q].succs <==> x in s.opOf[q].succs || (x == o && Produces(s, t, q));
      assert ins[k..] == [t] + ins[k + 1..];
      assert forall u :: Produces(s1, u, q) <==> Produces(s, u, q);
      assert (exists u :: u in ins[k..] && Produces(s, u, q))
        <==> Produces(s, t, q) || exists u :: u in ins[k + 1..] && Produces(s1, u, q);
    }
  }

  lemma {:induction false} InputsPreds(s: GraphState, o: Oid, ins: seq<Tid>, k: nat, q: Oid, x: Oid)
    requires o in s.opOf && q in s.opOf && forall u :: u in ins ==> u in s.tensorOf
    requires k <= |ins|
    ensures x in ConnectInputs(s, o, ins, k).opOf[q].preds <==>
      x in s.opOf[q].preds || (q == o && x in s.opOf && exists t :: t in ins[k..] && Produces(s, t, x))
    decreases |ins| - k
  {
    if k < |ins| {
      var t := ins[k];
      var s1 := LinkInput(s, o, t);
      var s2 := AddTarget(s, t, o);
      assert s1.tensorOf == s2.tensorOf;
      InputsPreds(s1, o, ins, k + 1, q, x);
      if s.tensorOf[t].source.Some? && s.tensorOf[t].source.value in s2.opOf {
        LinkExact(s2, s.tensorOf[t].source.value, o, q, x);
      }
      assert x in s1.opOf[q].preds <==> x in s.opOf[q].preds || (q == o && x in s.opOf && Produces(s, t, x));
      assert ins[k..] == [t] + ins[k + 1..];
      assert forall u :: Produces(s1, u, x) <==> Produces(s, u, x);
      assert (exists u :: u in ins[k..] && Produces(s, u, x))
        <==> Produces(s, t, x) || exists u :: u in ins[k + 1..] && Produces(s1, u, x);
    }
  }

  /** The input loop from k adds `o` to the successors of each producer of an
      input from k on, and those producers to the predecessors of `o`. */
  lemma InputsLinks(s: GraphState, o: Oid, ins: seq<Tid>, k: nat, q: Oid, x: Oid)
    requires o in s.opOf && q in s.opOf && forall u :: u in ins ==> u in s.tensorOf
    requires k <= |ins|
    ensures var r := ConnectInputs(s, o, ins, k).opOf[q];
      && (x in r.succs <==> x in s.opOf[q].succs || (x == o && exists t :: t in ins[k..] && Produces(s, t, q)))
      && (x in r.preds <==> x in s.opOf[q].preds || (q == o && x in s.opOf && exists t :: t in ins[k..] && Produces(s, t, x)))
  {
    InputsSuccs(s, o, ins, k, q, x);
    InputsPreds(s, o, ins, k, q, x);
  }

  /** The consumer loop from j adds each listed operator from j on to the
      successors of `o`, and `o` to their predecessors. */
  lemma {:induction false} LinkTargetsLinks(s: GraphState, o: Oid, qs: seq<Oid>, j: nat, q: Oid, x: Oid)
    requires o in s.opOf && q in s.opOf && j <= |qs|
    ensures var r := LinkTargets(s, o, qs, j).opOf[q];
      && (x in r.succs <==> x in s.opOf[q].succs || (q == o && x in s.opOf && x in qs[j..]))
      && (x in r.preds <==> x in s.opOf[q].preds || (x == o && q in qs[j..]))
    decreases |qs| - j
  {
    if j < |qs| {
      var s1 := if qs[j] in s.opOf then Link(s, o, qs[j]) else s;
      LinkTargetsLinks(s1, o, qs, j + 1, q, x);
      assert qs[j..] == [qs[j]] + qs[j + 1..];
      if qs[j] in s.opOf {
        LinkExact(s, o, qs[j], q, x);
      }
    }
  }

  /** The output loop from k adds the consumers of each output from k on to
      the successors of `o`, and `o` to their predecessors. */
  lemma {:induction false} OutputsLinks(s: GraphState, o: Oid, outs: seq<Tid>, k: nat, q: Oid, x: Oid)
    requires o in s.opOf && q in s.opOf && forall u :: u in outs ==> u in s.tensorOf
    requires k <= |outs|
    ensures var r := ConnectOutputs(s, o, outs, k).opOf[q];
      && (x in r.succs <==> x in s.opOf[q].succs || (q == o && x in s.opOf && exists t :: t in outs[k..] && Consumes(s, t, x)))
      && (x in r.preds <==> x in s.opOf[q].preds || (x == o && exists t :: t in outs[k..] && Consumes(s, t, q)))
    decreases |outs| - k
  {
    if k < |outs| {
      var t := outs[k];
      var s2 := SetSource(s, t, o);
      var s1 := LinkOutput(s, o, t);
      assert s1.tensorOf == s2.tensorOf;
      assert forall u, y :: Consumes(s1, u, y) <==> Consumes(s, u, y);
      OutputsLinks(s1, o, outs, k + 1, q, x);
      var qs := s.tensorOf[t].targets;
      LinkTargetsLinks(s2, o, qs, 0, q, x);
      assert qs[0..] == qs;
      assert x in s1.opOf[q].succs <==> x in s.opOf[q].succs || (q == o && x in s.opOf && Consumes(s, t, x));
      assert x in s1.opOf[q].preds <==> x in s.opOf[q].preds || (x == o && Consumes(s, t, q));
      assert outs[k..] == [t] + outs[k + 1..];
      assert (exists u :: u in outs[k..] && Consumes(s, u, x))
        <==> Consumes(s, t, x) || exists u :: u in outs[k + 1..] && Consumes(s1, u, x);
      assert (exists u :: u in outs[k..] && Consumes(s, u, q))
        <==> Consumes(s, t, q) || exists u :: u in outs[k + 1..] && Consumes(s1, u, q);
    }
  }

  /** The input loop makes `o` a consumer of exactly its inputs. */
  lemma InputsTargets(s: GraphState, o: Oid, ins: seq<Tid>, t: Tid, y: Oid)
    requires o in s.opOf && t in s.tensorOf && forall u :: u in ins ==> u in s.tensorOf
    ensures Consumes(ConnectInputs(s, o, ins, 0), t, y) <==> Consumes(s, t, y) || (y == o && t in ins)
  {
    InputsTensor(s, o, ins, 0, t);
    assert ins[0..] == ins;
    if t in ins {
      var j :| 0 <= j < |ins| && ins[j] == t;
      InputConsumed(s, o, ins, 0, j);
    }
  }

  /** An operator already in the graph gains exactly one new neighbour, the
      new operator `o`: as a successor when it produces one of `o`'s inputs,
      as a predecessor when it consumes one of `o`'s outputs. */
  lemma ConnectLinksExact(s: GraphState, o: Oid, rec: OpRec, q: Oid, x: Oid)
    requires Closed(s) && o !in s.opOf && rec.preds == [] && rec.succs == []
    requires forall t :: t in rec.inputs ==> t in s.tensorOf
    requires forall t :: t in rec.outputs ==> t in s.tensorOf
    requires q in s.opOf
    ensures var r := ConnectOp(s, o, rec).opOf[q];
      && (x in r.succs <==> x in s.opOf[q].succs || (x == o && exists t :: t in rec.inputs && Produces(s, t, q)))
      && (x in r.preds <==> x in s.opOf[q].preds || (x == o && exists t :: t in rec.outputs && Consumes(s, t, q)))
  {
    var s0 := Append(s, o, rec);
    var m := ConnectInputs(s0, o, rec.inputs, 0);
    InputsLinks(s0, o, rec.inputs, 0, q, x);
    OutputsLinks(m, o, rec.outputs, 0, q, x);
    assert rec.inputs[0..] == rec.inputs && rec.outputs[0..] == rec.outputs;
    forall t | t in rec.outputs
      ensures Consumes(m, t, q) <==> Consumes(s, t, q)
    {
      InputsTargets(s0, o, rec.inputs, t, q);
    }
  }

  lemma NewPredsExact(s: GraphState, o: Oid, rec: OpRec, x: Oid)
    requires Closed(s) && o !in s.opOf && rec.preds == [] && rec.succs == []
    requires forall t :: t in rec.inputs ==> t in s.tensorOf
    requires forall t :: t in rec.outputs ==> t in s.tensorOf
    ensures x in ConnectOp(s, o, rec).opOf[o].preds <==>
      (exists t :: t in rec.inputs && Produces(s, t, x)) || (x == o && exists t :: t in rec.outputs && t in rec.inputs)
  {
    var s0 := Append(s, o, rec);
    var m := ConnectInputs(s0, o, rec.inputs, 0);
    InputsLinks(s0, o, rec.inputs, 0, o, x);
    OutputsLinks(m, o, rec.outputs, 0, o, x);
    assert rec.inputs[0..] == rec.inputs && rec.outputs[0..] == rec.outputs;
    assert forall t :: Produces(s, t, x) ==> x in s.opOf;
    forall t | t in rec.outputs
      ensures Consumes(m, t, o) <==> t in rec.inputs
    {
      InputsTargets(s0, o, rec.inputs, t, o);
    }
  }

  lemma NewSuccsExact(s: GraphState, o: Oid, rec: OpRec, x: Oid)
    requires Closed(s) && o !in s.opOf && rec.preds == [] && rec.succs == []
    requires forall t :: t in rec.inputs ==> t in s.tensorOf
    requires forall t :: t in rec.outputs ==> t in s.tensorOf
    ensures x in ConnectOp(s, o, rec).opOf[o].succs <==>
      (exists t :: t in rec.outputs && Consumes(s, t, x)) || (x == o && exists t :: t in rec.outputs && t in rec.inputs)
  {
    var s0 := Append(s, o, rec);
    var m := ConnectInputs(s0, o, rec.inputs, 0);
    InputsLinks(s0, o, rec.inputs, 0, o, x);
    OutputsLinks(m, o, rec.outputs, 0, o, x);
    assert rec.inputs[0..] == rec.inputs && rec.outputs[0..] == rec.outputs;
    assert forall t :: Produces(s, t, o) ==> false;
    forall t | t in rec.outputs
      ensures Consumes(m, t, x) <==> Consumes(s, t, x) || (x == o && t in rec.inputs)
      ensures Consumes(s, t, x) ==> x in s.opOf
    {
      InputsTargets(s0, o, rec.inputs, t, x);
    }
  }

  /** The new operator `o` has as predecessors exactly the producers of its
      inputs and as successors exactly the consumers of its outputs, and is its
      own neighbour exactly when it reads a tensor it writes. */
  lemma ConnectNewLinksExact(s: GraphState, o: Oid, rec: OpRec, x: Oid)
    requires Closed(s) && o !in s.opOf && rec.preds == [] && rec.succs == []
    requires forall t :: t in rec.inputs ==> t in s.tensorOf
    requires forall t :: t in rec.outputs ==> t in s.tensorOf
    ensures var r := ConnectOp(s, o, rec).opOf[o];
      && (x in r.preds <==>
            (exists t :: t in rec.inputs && Produces(s, t, x)) || (x == o && exists t :: t in rec.outputs && t in rec.inputs))
      && (x in r.succs <==>
            (exists t :: t in rec.outputs && Consumes(s, t, x)) || (x == o && exists t :: t in rec.outputs && t in rec.inputs))
  {
    NewPredsExact(s, o, rec, x);
    NewSuccsExact(s, o, rec, x);
  }

  /** Connecting keeps every link running both ways. */
  lemma ConnectKeepsSymmetric(s: GraphState, o: Oid, rec: OpRec)
    requires Closed(s) && Symmetric(s) && o !in s.opOf && rec.preds == [] && rec.succs == []
    requires forall t :: t in rec.inputs ==> t in s.tensorOf
    requires forall t :: t in rec.outputs ==> t in s.tensorOf
    ensures Symmetric(ConnectOp(s, o, rec))
  {
    var r := ConnectOp(s, o, rec);
    forall p, q | p in r.opOf && q in r.opOf
      ensures p in r.opOf[q].preds <==> q in r.opOf[p].succs
    {
      if p != o && q != o {
        ConnectLinksExact(s, o, rec, q, p);
        ConnectLinksExact(s, o, rec, p, q);
      } else if p == o && q != o {
        ConnectLinksExact(s, o, rec, q, o);
        ConnectNewLinksExact(s, o, rec, q);
        assert o !in s.opOf[q].preds;
      } else if p != o && q == o {
        ConnectLinksExact(s, o, rec, p, o);
        ConnectNewLinksExact(s, o, rec, p);
        assert o !in s.opOf[p].succs;
      } else {
        ConnectNewLinksExact(s, o, rec, o);
      }
    }
  }
}
