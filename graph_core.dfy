/** The graph's state as values: tensor and operator objects live in an arena
    keyed by identity, and the graph holds ordered lists of identities. */
module GraphCore {
  import opened Util
  import opened Types
  import opened Unary

  /** Identity of a tensor object (the pointer the graph holds). */
  type Tid = nat
  /** Identity of an operator object. */
  type Oid = nat

  /** The operator kinds of the model, with the attributes inference reads. */
  datatype OpKind =
    | MatMulOp(transA: bool, transB: bool)
    | TransposeOp(permute: seq<int>)
    | ConcatOp(dim: int)
    | UnaryOp
    | ClipOp
    | CastOp(castType: CastType)

  /** A tensor object: its family id, shape, element type, producing
      operator, consuming operators (in insertion order) and data blob. */
  datatype TensorRec = TensorRec(
    fuid: nat, dims: Shape, dtype: DataType,
    source: Option<Oid>, targets: seq<Oid>, blob: Option<nat>)

  /** An operator object: kind, input and output tensors, and the
      predecessor and successor operators it has been linked to. */
  datatype OpRec = OpRec(
    kind: OpKind, inputs: seq<Tid>, outputs: seq<Tid>,
    preds: seq<Oid>, succs: seq<Oid>)

  /** The graph's `tensors` and `ops` lists plus every object they can reach. */
  datatype GraphState = GraphState(
    tensors: seq<Tid>, ops: seq<Oid>,
    tensorOf: map<Tid, TensorRec>, opOf: map<Oid, OpRec>)

  /** Every reference a tensor holds names an operator object. */
  predicate TensorRefsIn(r: TensorRec, ops: set<Oid>) {
    (r.source.Some? ==> r.source.value in ops) && (forall o :: o in r.targets ==> o in ops)
  }

  /** Every reference an operator holds names an object of the right kind. */
  predicate OpRefsIn(r: OpRec, ts: set<Tid>, ops: set<Oid>) {
    && (forall t :: t in r.inputs ==> t in ts)
    && (forall t :: t in r.outputs ==> t in ts)
    && (forall o :: o in r.preds ==> o in ops)
    && (forall o :: o in r.succs ==> o in ops)
  }

  /** No pointer dangles: the graph's lists and every object's links name
      objects of the arena (shared pointers keep their targets alive). */
  predicate Closed(s: GraphState) {
    && (forall t :: t in s.tensors ==> t in s.tensorOf)
    && (forall o :: o in s.ops ==> o in s.opOf)
    && (forall t :: t in s.tensorOf ==> TensorRefsIn(s.tensorOf[t], s.opOf.Keys))
    && (forall o :: o in s.opOf ==> OpRefsIn(s.opOf[o], s.tensorOf.Keys, s.opOf.Keys))
  }

  /** An identity no object of `ks` uses (a fresh guid): one past the largest. */
  method Fresh(ks: set<nat>) returns (n: nat)
    ensures n !in ks
  {
    n := 0;
    var rest := ks;
    while rest != {}
      invariant rest <= ks
      invariant forall k :: k in ks && k !in rest ==> k < n
      decreases |rest|
    {
      var k :| k in rest;
      if k + 1 > n {
        n := k + 1;
      }
      rest := rest - {k};
    }
  }

  /** The index, at or after `from`, of the first tensor with family id `fuid`. */
  function FindFuid(ts: seq<Tid>, tensorOf: map<Tid, TensorRec>, fuid: nat, from: nat): (r: Option<nat>)
    requires forall t :: t in ts ==> t in tensorOf
    ensures r.Some? ==> from <= r.value < |ts| && tensorOf[ts[r.value]].fuid == fuid
    ensures r.Some? ==> forall j :: from <= j < r.value ==> tensorOf[ts[j]].fuid != fuid
    ensures r.None? ==> forall j :: from <= j < |ts| ==> tensorOf[ts[j]].fuid != fuid
    decreases |ts| - from
  {
    if from >= |ts| then None
    else if tensorOf[ts[from]].fuid == fuid then Some(from)
    else FindFuid(ts, tensorOf, fuid, from + 1)
  }

  /** getTensor: the first tensor of the graph with family id `fuid`, or none
      (nullptr). */
  function GetTensor(s: GraphState, fuid: nat): (r: Option<Tid>)
    requires forall t :: t in s.tensors ==> t in s.tensorOf
    ensures r.Some? ==> r.value in s.tensors && s.tensorOf[r.value].fuid == fuid
    ensures r.None? <==> forall t :: t in s.tensors ==> s.tensorOf[t].fuid != fuid
  {
    match FindFuid(s.tensors, s.tensorOf, fuid, 0)
    case Some(k) => Some(s.tensors[k])
    case None => None
  }

  /** The tensors' family ids are pairwise different (position by position). */
  predicate DistinctFuids(s: GraphState)
    requires forall t :: t in s.tensors ==> t in s.tensorOf
  {
    forall i, j :: 0 <= i < j < |s.tensors| ==> s.tensorOf[s.tensors[i]].fuid != s.tensorOf[s.tensors[j]].fuid
  }

  /** With distinct family ids, getTensor finds exactly the tensor that has it. */
  lemma GetTensorExact(s: GraphState, t: Tid)
    requires forall t :: t in s.tensors ==> t in s.tensorOf
    requires DistinctFuids(s) && t in s.tensors
    ensures GetTensor(s, s.tensorOf[t].fuid) == Some(t)
  {
    var k :| 0 <= k < |s.tensors| && s.tensors[k] == t;
    var f := FindFuid(s.tensors, s.tensorOf, s.tensorOf[t].fuid, 0);
    assert f.Some?;
    assert s.tensorOf[s.tensors[f.value]].fuid == s.tensorOf[s.tensors[k]].fuid;
    assert f.value == k;
  }

  // ---------------------------------------------------------------------------
  // checkValid

  /** The graph's own lists name objects of the arena. */
  predicate Listed(s: GraphState) {
    (forall t :: t in s.tensors ==> t in s.tensorOf) && (forall o :: o in s.ops ==> o in s.opOf)
  }

  /** A tensor is wired into the graph: it has a consumer or a producer, and
      every one of them is one of the graph's operators. */
  predicate TensorWired(s: GraphState, r: TensorRec) {
    && (|r.targets| > 0 || r.source.Some?)
    && (forall o :: o in r.targets ==> o in s.ops)
    && (r.source.Some? ==> r.source.value in s.ops)
  }

  /** An operator is wired into the graph: its tensors are the graph's
      tensors and its neighbours are the graph's operators. */
  predicate OpWired(s: GraphState, r: OpRec) {
    && (forall t :: t in r.inputs ==> t in s.tensors)
    && (forall t :: t in r.outputs ==> t in s.tensors)
    && (forall o :: o in r.preds ==> o in s.ops)
    && (forall o :: o in r.succs ==> o in s.ops)
  }

  /** The tensor loop of checkValid from position k. */
  function CheckTensorsFrom(s: GraphState, k: nat): (r: Outcome)
    requires Listed(s)
    ensures r == Pass || r == Fail(DanglingReference)
    decreases |s.tensors| - k
  {
    if k >= |s.tensors| then Pass
    else
      var r := s.tensorOf[s.tensors[k]];
      if |r.targets| == 0 && r.source.None? then Fail(DanglingReference)
      else if exists o :: o in r.targets && o !in s.ops then Fail(DanglingReference)
      else if r.source.Some? && r.source.value !in s.ops then Fail(DanglingReference)
      else CheckTensorsFrom(s, k + 1)
  }

  /** The operator loop of checkValid from position k. */
  function CheckOpsFrom(s: GraphState, k: nat): (r: Outcome)
    requires Listed(s)
    ensures r == Pass || r == Fail(DanglingReference)
    decreases |s.ops| - k
  {
    if k >= |s.ops| then Pass
    else
      var r := s.opOf[s.ops[k]];
      if exists t :: t in r.inputs && t !in s.tensors then Fail(DanglingReference)
      else if exists t :: t in r.outputs && t !in s.tensors then Fail(DanglingReference)
      else if exists o :: o in r.preds && o !in s.ops then Fail(DanglingReference)
      else if exists o :: o in r.succs && o !in s.ops then Fail(DanglingReference)
      else CheckOpsFrom(s, k + 1)
  }

  /** The family-id loop of checkValid from position k, with the ids seen so far. */
  function CheckFuidsFrom(s: GraphState, k: nat, seen: set<nat>): (r: Outcome)
    requires Listed(s)
    ensures r == Pass || r == Fail(DuplicateIdentity)
    decreases |s.tensors| - k
  {
    if k >= |s.tensors| then Pass
    else
      var f := s.tensorOf[s.tensors[k]].fuid;
      if f in seen then Fail(DuplicateIdentity)
      else CheckFuidsFrom(s, k + 1, seen + {f})
  }

  /** checkValid: the three loops in order; the first violation aborts. */
  function CheckValid(s: GraphState): (r: Outcome)
    requires Listed(s)
    ensures r == Pass || r == Fail(DanglingReference) || r == Fail(DuplicateIdentity)
  {
    match CheckTensorsFrom(s, 0)
    case Fail(e) => Fail(e)
    case Pass =>
      match CheckOpsFrom(s, 0)
      case Fail(e) => Fail(e)
      case Pass => CheckFuidsFrom(s, 0, {})
  }

  /** The declarative reading of a valid graph. */
  predicate WellFormed(s: GraphState)
    requires Listed(s)
  {
    && (forall t :: t in s.tensors ==> TensorWired(s, s.tensorOf[t]))
    && (forall o :: o in s.ops ==> OpWired(s, s.opOf[o]))
    && DistinctFuids(s)
  }

  lemma {:induction false} CheckTensorsMeaning(s: GraphState, k: nat)
    requires Listed(s)
    ensures CheckTensorsFrom(s, k) == Pass <==>
      forall j :: k <= j < |s.tensors| ==> TensorWired(s, s.tensorOf[s.tensors[j]])
    ensures CheckTensorsFrom(s, k) != Pass ==> CheckTensorsFrom(s, k) == Fail(DanglingReference)
    decreases |s.tensors| - k
  {
    if k < |s.tensors| {
      CheckTensorsMeaning(s, k + 1);
    }
  }

  lemma {:induction false} CheckOpsMeaning(s: GraphState, k: nat)
    requires Listed(s)
    ensures CheckOpsFrom(s, k) == Pass <==>
      forall j :: k <= j < |s.ops| ==> OpWired(s, s.opOf[s.ops[j]])
    ensures CheckOpsFrom(s, k) != Pass ==> CheckOpsFrom(s, k) == Fail(DanglingReference)
    decreases |s.ops| - k
  {
    if k < |s.ops| {
      CheckOpsMeaning(s, k + 1);
    }
  }

  lemma {:induction false} CheckFuidsMeaning(s: GraphState, k: nat, seen: set<nat>)
    requires Listed(s)
    ensures CheckFuidsFrom(s, k, seen) == Pass <==>
      && (forall j :: k <= j < |s.tensors| ==> s.tensorOf[s.tensors[j]].fuid !in seen)
      && (forall i, j :: k <= i < j < |s.tensors| ==> s.tensorOf[s.tensors[i]].fuid != s.tensorOf[s.tensors[j]].fuid)
    ensures CheckFuidsFrom(s, k, seen) != Pass ==> CheckFuidsFrom(s, k, seen) == Fail(DuplicateIdentity)
    decreases |s.tensors| - k
  {
    if k < |s.tensors| {
      var f := s.tensorOf[s.tensors[k]].fuid;
      CheckFuidsMeaning(s, k + 1, seen + {f});
    }
  }

  /** checkValid passes exactly on a well-formed graph; it reports a
      duplicate family id only when every link is sound, and a dangling
      link otherwise. */
  lemma CheckValidMeaning(s: GraphState)
    requires Listed(s)
    ensures CheckValid(s) == Pass <==> WellFormed(s)
    ensures CheckValid(s) == Fail(DuplicateIdentity) <==>
      && (forall t :: t in s.tensors ==> TensorWired(s, s.tensorOf[t]))
      && (forall o :: o in s.ops ==> OpWired(s, s.opOf[o]))
      && !DistinctFuids(s)
    ensures CheckValid(s) == Pass || CheckValid(s) == Fail(DanglingReference) || CheckValid(s) == Fail(DuplicateIdentity)
  {
    CheckTensorsMeaning(s, 0);
    CheckOpsMeaning(s, 0);
    CheckFuidsMeaning(s, 0, {});
    assert (forall t :: t in s.tensors ==> TensorWired(s, s.tensorOf[t])) <==>
      forall j :: 0 <= j < |s.tensors| ==> TensorWired(s, s.tensorOf[s.tensors[j]]);
    assert (forall o :: o in s.ops ==> OpWired(s, s.opOf[o])) <==>
      forall j :: 0 <= j < |s.ops| ==> OpWired(s, s.opOf[s.ops[j]]);
  }
}
