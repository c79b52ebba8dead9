/** The rewrite pass `optimize`: walking the sorted operator list, a
    Transpose whose first successor is a Transpose is removed together with
    the operator after it, and a Transpose whose first successor is a MatMul
    is folded into that MatMul's trans flag. */
module Optimize {
  import opened Util
  import opened Types
  import opened GraphCore
  import MatMul
  import Transpose

  /** Every operator of `ps` forgets `o` as a successor (the loop over the
      removed operator's predecessors). */
  function DropSuccessor(m: map<Oid, OpRec>, ps: seq<Oid>, o: Oid): (r: map<Oid, OpRec>)
    ensures r.Keys == m.Keys
    ensures forall p :: p in m ==> r[p] == if p in ps then m[p].(succs := RemoveAll(m[p].succs, o)) else m[p]
  {
    map p | p in m :: if p in ps then m[p].(succs := RemoveAll(m[p].succs, o)) else m[p]
  }

  /** Every operator of `qs` forgets `o` as a predecessor (the loop over the
      removed operator's successors). */
  function DropPredecessor(m: map<Oid, OpRec>, qs: seq<Oid>, o: Oid): (r: map<Oid, OpRec>)
    ensures r.Keys == m.Keys
    ensures forall q :: q in m ==> r[q] == if q in qs then m[q].(preds := RemoveAll(m[q].preds, o)) else m[q]
  {
    map q | q in m :: if q in qs then m[q].(preds := RemoveAll(m[q].preds, o)) else m[q]
  }

  /** A position the pass can act on: the operator there is a Transpose with
      one output, an input and a first successor. */
  predicate Rewritable(s: GraphState, i: nat)
    requires Closed(s) && i < |s.ops|
  {
    var r := s.opOf[s.ops[i]];
    r.kind.TransposeOp? && |r.outputs| == 1 && |r.inputs| > 0 && |r.succs| > 0
  }

  /** The first successor of the Transpose at position i. */
  function Consumer(s: GraphState, i: nat): (q: Oid)
    requires Closed(s) && i < |s.ops| && Rewritable(s, i)
    ensures q in s.opOf
  {
    s.opOf[s.ops[i]].succs[0]
  }

  /** The new MatMul record after folding in a transpose whose output is
      `output` and whose input is `input`: the operand slot that reads
      `output` has its trans flag toggled and reads `input` instead. A slot
      read past the end of the input list fails. */
  function Fold(mm: OpRec, output: Tid, input: Tid): (r: Result<OpRec>)
    requires mm.kind.MatMulOp?
    ensures r.Failure? <==> |mm.inputs| == 0 || (mm.inputs[0] != output && |mm.inputs| < 2)
    ensures r.Success? ==>
      r.value.kind.MatMulOp? && r.value.outputs == mm.outputs && r.value.preds == mm.preds && r.value.succs == mm.succs
  {
    if |mm.inputs| == 0 then Failure(DanglingReference)
    else if mm.inputs[0] == output then
      Success(mm.(kind := MatMulOp(!mm.kind.transA, mm.kind.transB), inputs := ReplaceAll(mm.inputs, output, input)))
    else if |mm.inputs| < 2 then Failure(DanglingReference)
    else if mm.inputs[1] == output then
      Success(mm.(kind := MatMulOp(mm.kind.transA, !mm.kind.transB), inputs := ReplaceAll(mm.inputs, output, input)))
    else Success(mm)
  }

  /** Folding toggles exactly the flag of the operand slot that read the
      transpose's output, points every read of it at the transpose's input,
      and leaves the record alone when neither slot reads it. */
  lemma FoldMeaning(mm: OpRec, output: Tid, input: Tid)
    requires mm.kind.MatMulOp? && |mm.inputs| >= 2
    ensures Fold(mm, output, input).Success?
    ensures var r := Fold(mm, output, input).value;
      && r.kind.MatMulOp? && r.outputs == mm.outputs && r.preds == mm.preds && r.succs == mm.succs
      && (r.kind.transA != mm.kind.transA <==> mm.inputs[0] == output)
      && (r.kind.transB != mm.kind.transB <==> mm.inputs[0] != output && mm.inputs[1] == output)
      && (output in mm.inputs[..2] ==> output !in r.inputs || output == input)
      && (output in mm.inputs[..2] && input != output ==> r.inputs[0] != output && r.inputs[1] != output)
      && (output !in mm.inputs[..2] ==> r == mm)
  {
    var r := Fold(mm, output, input).value;
    if output in mm.inputs[..2] && input != output {
      assert r.inputs == ReplaceAll(mm.inputs, output, input);
      assert output !in r.inputs;
    }
  }

  // Each edit the rewrites make, as a step on the graph state that keeps
  // every link inside the arena.

  /** addTarget after removeTarget on tensor t: consumer `o` is replaced by
      `q` at the end of the list. */
  function Retarget(s: GraphState, t: Tid, o: Oid, q: Oid): (r: GraphState)
    requires t in s.tensorOf
    ensures r.tensors == s.tensors && r.ops == s.ops && r.opOf == s.opOf
    ensures r.tensorOf.Keys == s.tensorOf.Keys
  {
    var tr := s.tensorOf[t];
    s.(tensorOf := s.tensorOf[t := tr.(targets := RemoveAll(tr.targets, o) + [q])])
  }

  /** Operator q's record replaced by `rec`, whose links stay in the arena. */
  function SetOp(s: GraphState, q: Oid, rec: OpRec): (r: GraphState)
    requires q in s.opOf
    ensures r.tensors == s.tensors && r.ops == s.ops && r.tensorOf == s.tensorOf
    ensures r.opOf.Keys == s.opOf.Keys
  {
    s.(opOf := s.opOf[q := rec])
  }

  /** removeTensor: every entry `t` leaves the tensor list. */
  function DropTensor(s: GraphState, t: Tid): (r: GraphState)
    ensures r.tensors == RemoveAll(s.tensors, t) && r.ops == s.ops
    ensures r.tensorOf == s.tensorOf && r.opOf == s.opOf
  {
    s.(tensors := RemoveAll(s.tensors, t))
  }

  /** The operators of `ps` forget successor `o`. */
  function ForgetSuccessor(s: GraphState, ps: seq<Oid>, o: Oid): (r: GraphState)
    ensures r.tensors == s.tensors && r.ops == s.ops && r.tensorOf == s.tensorOf
    ensures r.opOf == DropSuccessor(s.opOf, ps, o)
  {
    s.(opOf := DropSuccessor(s.opOf, ps, o))
  }

  /** The operators of `qs` forget predecessor `o`. */
  function ForgetPredecessor(s: GraphState, qs: seq<Oid>, o: Oid): (r: GraphState)
    ensures r.tensors == s.tensors && r.ops == s.ops && r.tensorOf == s.tensorOf
    ensures r.opOf == DropPredecessor(s.opOf, qs, o)
  {
    s.(opOf := DropPredecessor(s.opOf, qs, o))
  }

  /** ops.erase at positions i .. i + k - 1. */
  function EraseOps(s: GraphState, i: nat, k: nat): (r: GraphState)
    requires i + k <= |s.ops|
    ensures r.ops == EraseAt(s.ops, i, k) && Elems(r.ops) <= Elems(s.ops)
    ensures r.tensors == s.tensors && r.tensorOf == s.tensorOf && r.opOf == s.opOf
  {
    var r := s.(ops := EraseAt(s.ops, i, k));
    assert forall o :: o in r.ops ==> o in s.ops by {
      forall o | o in r.ops ensures o in s.ops {
        var j :| 0 <= j < |r.ops| && r.ops[j] == o;
        if j < i { assert r.ops[j] == s.ops[j]; } else { assert r.ops[j] == s.ops[j + k]; }
      }
    }
    r
  }

  // Each edit keeps every link inside the arena.

  lemma RetargetClosed(s: GraphState, t: Tid, o: Oid, q: Oid)
    requires Closed(s) && t in s.tensorOf && q in s.opOf
    ensures Closed(Retarget(s, t, o, q))
  {
  }

  lemma SetOpClosed(s: GraphState, q: Oid, rec: OpRec)
    requires Closed(s) && q in s.opOf && OpRefsIn(rec, s.tensorOf.Keys, s.opOf.Keys)
    ensures Closed(SetOp(s, q, rec))
  {
  }

  lemma DropTensorClosed(s: GraphState, t: Tid)
    requires Closed(s)
    ensures Closed(DropTensor(s, t))
  {
  }

  lemma ForgetSuccessorClosed(s: GraphState, ps: seq<Oid>, o: Oid)
    requires Closed(s)
    ensures Closed(ForgetSuccessor(s, ps, o))
  {
  }

  lemma ForgetPredecessorClosed(s: GraphState, qs: seq<Oid>, o: Oid)
    requires Closed(s)
    ensures Closed(ForgetPredecessor(s, qs, o))
  {
  }

  lemma EraseOpsClosed(s: GraphState, i: nat, k: nat)
    requires Closed(s) && i + k <= |s.ops|
    ensures Closed(EraseOps(s, i, k))
  {
  }

  /** The folded MatMul links only what the old one did, plus the
      transpose's input. */
  lemma FoldKeepsLinks(mm: OpRec, output: Tid, input: Tid, ts: set<Tid>, ops: set<Oid>)
    requires mm.kind.MatMulOp? && OpRefsIn(mm, ts, ops) && input in ts
    ensures Fold(mm, output, input).Success? ==> OpRefsIn(Fold(mm, output, input).value, ts, ops)
  {
  }

  /** Transpose followed by Transpose: the first transpose's input feeds the
      second transpose's first successor directly, both output tensors leave
      the tensor list, the removed operators' neighbours forget them, and the
      operators at positions i and i + 1 are erased. */
  function EliminatePair(s: GraphState, i: nat): (r: Result<GraphState>)
    requires Closed(s) && i + 1 < |s.ops| && Rewritable(s, i)
    requires s.opOf[Consumer(s, i)].kind.TransposeOp?
    ensures r.Success? ==> Closed(r.value) && r.value.ops == EraseAt(s.ops, i, 2)
    ensures r.Success? ==> r.value.tensorOf.Keys == s.tensorOf.Keys && r.value.opOf.Keys == s.opOf.Keys
    ensures r.Failure? <==> |s.opOf[Consumer(s, i)].succs| == 0 || |s.opOf[Consumer(s, i)].outputs| == 0
    ensures r.Success? ==>
      r.value.tensors == RemoveAll(RemoveAll(s.tensors, s.opOf[s.ops[i]].outputs[0]), s.opOf[Consumer(s, i)].outputs[0])
  {
    var o := s.ops[i];
    var rec := s.opOf[o];
    var input := rec.inputs[0];
    var succ := Consumer(s, i);
    var srec := s.opOf[succ];
    if |srec.succs| == 0 || |srec.outputs| == 0 then Failure(DanglingReference)
    else
      var next := srec.succs[0];
      var s1 := Retarget(s, input, o, next);
      var nrec := s1.opOf[next];
      var s2 := SetOp(s1, next, nrec.(inputs := ReplaceAll(nrec.inputs, srec.outputs[0], input)));
      var s3 := DropTensor(DropTensor(s2, rec.outputs[0]), srec.outputs[0]);
      var s4 := ForgetSuccessor(s3, s3.opOf[o].preds, o);
      var s5 := ForgetPredecessor(s4, s4.opOf[succ].succs, succ);
      RetargetClosed(s, input, o, next);
      SetOpClosed(s1, next, nrec.(inputs := ReplaceAll(nrec.inputs, srec.outputs[0], input)));
      DropTensorClosed(s2, rec.outputs[0]);
      DropTensorClosed(DropTensor(s2, rec.outputs[0]), srec.outputs[0]);
      ForgetSuccessorClosed(s3, s3.opOf[o].preds, o);
      ForgetPredecessorClosed(s4, s4.opOf[succ].succs, succ);
      EraseOpsClosed(s5, i, 2);
      Success(EraseOps(s5, i, 2))
  }

  /** Transpose followed by MatMul: the MatMul is folded, the transpose's
      input lists the MatMul as a consumer in place of the transpose, the
      transpose's output leaves the tensor list, its neighbours forget it, and
      it is erased from position i. */
  function FuseMatMul(s: GraphState, i: nat): (r: Result<GraphState>)
    requires Closed(s) && i + 1 < |s.ops| && Rewritable(s, i)
    requires s.opOf[Consumer(s, i)].kind.MatMulOp?
    ensures r.Success? ==> Closed(r.value) && r.value.ops == EraseAt(s.ops, i, 1)
    ensures r.Success? ==> r.value.tensors == RemoveAll(s.tensors, s.opOf[s.ops[i]].outputs[0])
    ensures r.Success? ==> r.value.tensorOf.Keys == s.tensorOf.Keys && r.value.opOf.Keys == s.opOf.Keys
    ensures r.Failure? <==> Fold(s.opOf[Consumer(s, i)], s.opOf[s.ops[i]].outputs[0], s.opOf[s.ops[i]].inputs[0]).Failure?
  {
    var o := s.ops[i];
    var rec := s.opOf[o];
    var input := rec.inputs[0];
    var output := rec.outputs[0];
    var mm := Consumer(s, i);
    match Fold(s.opOf[mm], output, input)
    case Failure(e) => Failure(e)
    case Success(mrec) =>
      var s1 := SetOp(s, mm, mrec);
      var s2 := Retarget(s1, input, o, mm);
      var s3 := DropTensor(s2, output);
      var s4 := ForgetSuccessor(s3, s3.opOf[o].preds, o);
      var s5 := ForgetPredecessor(s4, s4.opOf[o].succs, o);
      FoldKeepsLinks(s.opOf[mm], output, input, s.tensorOf.Keys, s.opOf.Keys);
      SetOpClosed(s, mm, mrec);
      RetargetClosed(s1, input, o, mm);
      DropTensorClosed(s2, output);
      ForgetSuccessorClosed(s3, s3.opOf[o].preds, o);
      ForgetPredecessorClosed(s4, s4.opOf[o].succs, o);
      EraseOpsClosed(s5, i, 1);
      Success(EraseOps(s5, i, 1))
  }

  /** One visit of the loop at position i: the new state and the position
      the iterator then points at. */
  datatype Step = Step(state: GraphState, next: nat)

  /** The body of optimize's loop at position i. A Transpose with no
      output, input or successor to read fails (the source reads past the
      end of a list). */
  function OptimizeAt(s: GraphState, i: nat): (r: Result<Step>)
    requires Closed(s) && i + 1 < |s.ops|
    ensures r.Success? ==> Closed(r.value.state)
    ensures r.Success? ==> r.value.next <= |r.value.state.ops| && |r.value.state.ops| - r.value.next < |s.ops| - i
    ensures r.Success? ==> r.value.state.tensorOf.Keys == s.tensorOf.Keys && r.value.state.opOf.Keys == s.opOf.Keys
    ensures r.Success? ==> Elems(r.value.state.ops) <= Elems(s.ops)
    ensures r.Success? && r.value.next == i + 1 ==> r.value.state == s
  {
    var k := s.opOf[s.ops[i]].kind;
    if !k.TransposeOp? then Success(Step(s, i + 1))
    else if !Rewritable(s, i) then Failure(DanglingReference)
    else
      var ck := s.opOf[Consumer(s, i)].kind;
      if ck.TransposeOp? then
        match EliminatePair(s, i)
        case Failure(e) => Failure(e)
        case Success(t) => Success(Step(t, i))
      else if ck.MatMulOp? then
        match FuseMatMul(s, i)
        case Failure(e) => Failure(e)
        case Success(t) => Success(Step(t, i))
      else Success(Step(s, i + 1))
  }

  /** optimize's loop from position i while i + 1 < |ops|: the last operator
      is never visited. */
  function OptimizeFrom(s: GraphState, i: nat): (r: Result<GraphState>)
    requires Closed(s)
    decreases |s.ops| - i
  {
    if i + 1 >= |s.ops| then Success(s)
    else
      match OptimizeAt(s, i)
      case Failure(e) => Failure(e)
      case Success(st) => OptimizeFrom(st.state, st.next)
  }

  /** The pass as a loop over the operator list, which the rewrites shrink. */
  method OptimizeLoop(s0: GraphState) returns (r: Result<GraphState>)
    requires Closed(s0)
    ensures r == OptimizeFrom(s0, 0)
  {
    var s := s0;
    var i: nat := 0;
    while i + 1 < |s.ops|
      invariant Closed(s)
      invariant OptimizeFrom(s, i) == OptimizeFrom(s0, 0)
      decreases |s.ops| - i
    {
      var step := OptimizeAt(s, i);
      if step.Failure? {
        return Failure(step.error);
      }
      s, i := step.value.state, step.value.next;
    }
    r := Success(s);
  }

  // ---------------------------------------------------------------------------
  // What the pass keeps and what it does

  /** The pass never leaves a dangling link, keeps every object alive, and
      only removes operators from the list. */
  lemma {:induction false} OptimizeKeepsClosed(s: GraphState, i: nat)
    requires Closed(s) && OptimizeFrom(s, i).Success?
    ensures var r := OptimizeFrom(s, i).value;
      && Closed(r) && Elems(r.ops) <= Elems(s.ops)
      && r.tensorOf.Keys == s.tensorOf.Keys && r.opOf.Keys == s.opOf.Keys
    decreases |s.ops| - i
  {
    if i + 1 < |s.ops| {
      var st := OptimizeAt(s, i).value;
      OptimizeKeepsClosed(st.state, st.next);
    }
  }

  /** A graph with no Transpose before its last operator comes back
      unchanged; in particular a trailing Transpose is never rewritten. */
  lemma {:induction false} NoTransposeUnchanged(s: GraphState, i: nat)
    requires Closed(s)
    requires forall j :: i <= j < |s.ops| - 1 ==> !s.opOf[s.ops[j]].kind.TransposeOp?
    ensures OptimizeFrom(s, i) == Success(s)
    decreases |s.ops| - i
  {
    if i + 1 < |s.ops| {
      assert OptimizeAt(s, i) == Success(Step(s, i + 1));
      NoTransposeUnchanged(s, i + 1);
    }
  }

  /** Transpose in front of a MatMul: the transpose and its output tensor
      leave the graph's lists, and nothing else does. */
  lemma FusionRemovesTranspose(s: GraphState, i: nat)
    requires Closed(s) && i + 1 < |s.ops| && Rewritable(s, i)
    requires Distinct(s.ops)
    requires var mm := s.opOf[Consumer(s, i)]; mm.kind.MatMulOp? && |mm.inputs| >= 2
    ensures FuseMatMul(s, i).Success?
    ensures var o := s.ops[i];
      var r := FuseMatMul(s, i).value;
      && (forall q :: q in r.ops <==> q in s.ops && q != o)
      && (forall t :: t in r.tensors <==> t in s.tensors && t != s.opOf[o].outputs[0])
  {
    FoldMeaning(s.opOf[Consumer(s, i)], s.opOf[s.ops[i]].outputs[0], s.opOf[s.ops[i]].inputs[0]);
    EraseOneMembers(s.ops, i);
  }

  /** The rewiring of the fusion, for a MatMul other than the transpose that
      does not also precede it: the MatMul's record becomes the folded one
      (see FoldMeaning) without the transpose among its predecessors, and the
      transpose's input names the MatMul as a consumer in place of the
      transpose. */
  lemma FusionRewires(s: GraphState, i: nat)
    requires Closed(s) && i + 1 < |s.ops| && Rewritable(s, i)
    requires var mm := s.opOf[Consumer(s, i)]; mm.kind.MatMulOp? && |mm.inputs| >= 2
    requires var o := s.ops[i]; var mm := Consumer(s, i); mm != o && mm !in s.opOf[o].preds
    ensures FuseMatMul(s, i).Success?
    ensures var o, rec, mm := s.ops[i], s.opOf[s.ops[i]], Consumer(s, i);
      var r := FuseMatMul(s, i).value;
      && Fold(s.opOf[mm], rec.outputs[0], rec.inputs[0]).Success?
      && r.opOf[mm] == Fold(s.opOf[mm], rec.outputs[0], rec.inputs[0]).value.(preds := RemoveAll(s.opOf[mm].preds, o))
      && r.tensorOf[rec.inputs[0]].targets == RemoveAll(s.tensorOf[rec.inputs[0]].targets, o) + [mm]
  {
    var o, rec, mm := s.ops[i], s.opOf[s.ops[i]], Consumer(s, i);
    FoldMeaning(s.opOf[mm], rec.outputs[0], rec.inputs[0]);
    var f := Fold(s.opOf[mm], rec.outputs[0], rec.inputs[0]).value;
    var s1 := SetOp(s, mm, f);
    var s2 := Retarget(s1, rec.inputs[0], o, mm);
    var s3 := DropTensor(s2, rec.outputs[0]);
    var s4 := ForgetSuccessor(s3, s3.opOf[o].preds, o);
    var s5 := ForgetPredecessor(s4, s4.opOf[o].succs, o);
    assert FuseMatMul(s, i) == Success(EraseOps(s5, i, 1));
    assert mm in rec.succs;
    assert s4.opOf[mm] == f;
  }

  /** Transpose followed, in the first successor and in the list, by a
      Transpose: both operators and both output tensors leave the graph's
      lists, and nothing else does. */
  lemma EliminationRemovesPair(s: GraphState, i: nat)
    requires Closed(s) && i + 1 < |s.ops| && Rewritable(s, i)
    requires Distinct(s.ops)
    requires var sr := s.opOf[Consumer(s, i)]; sr.kind.TransposeOp? && |sr.succs| > 0 && |sr.outputs| > 0
    requires s.ops[i + 1] == Consumer(s, i)
    ensures EliminatePair(s, i).Success?
    ensures var o, succ := s.ops[i], Consumer(s, i);
      var r := EliminatePair(s, i).value;
      && (forall q :: q in r.ops <==> q in s.ops && q != o && q != succ)
      && (forall t :: t in r.tensors <==>
            t in s.tensors && t != s.opOf[o].outputs[0] && t != s.opOf[succ].outputs[0])
  {
    EraseTwoMembers(s.ops, i);
  }

  /** The rewiring of the elimination: the second transpose's first
      successor reads the first transpose's input in place of the second
      transpose's output, and that input lists it as a consumer in place of
      the first transpose. */
  lemma EliminationRewires(s: GraphState, i: nat)
    requires Closed(s) && i + 1 < |s.ops| && Rewritable(s, i)
    requires var sr := s.opOf[Consumer(s, i)]; sr.kind.TransposeOp? && |sr.succs| > 0 && |sr.outputs| > 0
    ensures EliminatePair(s, i).Success?
    ensures var o, rec, succ := s.ops[i], s.opOf[s.ops[i]], Consumer(s, i);
      var sr := s.opOf[succ];
      var next := sr.succs[0];
      var r := EliminatePair(s, i).value;
      && r.opOf[next].inputs == ReplaceAll(s.opOf[next].inputs, sr.outputs[0], rec.inputs[0])
      && r.tensorOf[rec.inputs[0]].targets == RemoveAll(s.tensorOf[rec.inputs[0]].targets, o) + [next]
  {
    var o, rec, succ := s.ops[i], s.opOf[s.ops[i]], Consumer(s, i);
    var input, srec := rec.inputs[0], s.opOf[succ];
    var next := srec.succs[0];
    var s1 := Retarget(s, input, o, next);
    var nrec := s1.opOf[next];
    var s2 := SetOp(s1, next, nrec.(inputs := ReplaceAll(nrec.inputs, srec.outputs[0], input)));
    var s3 := DropTensor(DropTensor(s2, rec.outputs[0]), srec.outputs[0]);
    var s4 := ForgetSuccessor(s3, s3.opOf[o].preds, o);
    var s5 := ForgetPredecessor(s4, s4.opOf[succ].succs, succ);
    assert EliminatePair(s, i) == Success(EraseOps(s5, i, 2));
    assert s5.opOf[next].inputs == s2.opOf[next].inputs;
    assert s5.tensorOf[input] == s1.tensorOf[input];
  }

  /** The elimination erases whatever operator follows in the list: when that
      is not the second transpose, the second transpose stays listed and the
      operator after the first one disappears. */
  lemma EliminationErasesNeighbour(s: GraphState, i: nat)
    requires Closed(s) && i + 1 < |s.ops| && Rewritable(s, i)
    requires Distinct(s.ops)
    requires s.opOf[Consumer(s, i)].kind.TransposeOp? && EliminatePair(s, i).Success?
    requires s.ops[i + 1] != Consumer(s, i) && s.ops[i] != Consumer(s, i) && Consumer(s, i) in s.ops
    ensures Consumer(s, i) in EliminatePair(s, i).value.ops
    ensures s.ops[i + 1] !in EliminatePair(s, i).value.ops
  {
    var r := EliminatePair(s, i).value;
    var succ := Consumer(s, i);
    var j :| 0 <= j < |s.ops| && s.ops[j] == succ;
    if j < i { assert r.ops[j] == s.ops[j]; } else { assert r.ops[j - 2] == s.ops[j]; }
    forall k | 0 <= k < |r.ops| ensures r.ops[k] != s.ops[i + 1] {
      if k < i { assert r.ops[k] == s.ops[k]; } else { assert r.ops[k] == s.ops[k + 2]; }
    }
  }

  // ---------------------------------------------------------------------------
  // What the rewrites assume about shapes

  /** Transposing the last two axes of MatMul's first operand is the same as
      toggling transA: the fusion is exact for that permutation. */
  lemma FusionExactForSwap(a: Shape, b: Shape, transA: bool, transB: bool)
    requires |a| >= 2
    ensures MatMul.MatMulShape(Transpose.Permuted(a, Transpose.SwapLastPermute(|a|)), b, transA, transB)
         == MatMul.MatMulShape(a, b, !transA, transB)
  {
    var a' := Transpose.Permuted(a, Transpose.SwapLastPermute(|a|));
    assert a' == MatMul.SwapLastTwo(a);
    if |b| >= 2 {
      MatMul.TransFlagIsSwap(a, b, transA, transB);
    }
  }

  /** The same for the second operand and transB. */
  lemma FusionExactForSwapB(a: Shape, b: Shape, transA: bool, transB: bool)
    requires |b| >= 2
    ensures MatMul.MatMulShape(a, Transpose.Permuted(b, Transpose.SwapLastPermute(|b|)), transA, transB)
         == MatMul.MatMulShape(a, b, transA, !transB)
  {
    var b' := Transpose.Permuted(b, Transpose.SwapLastPermute(|b|));
    assert b' == MatMul.SwapLastTwo(b);
    if |a| >= 2 {
      MatMul.TransFlagIsSwap(a, b, transA, transB);
    }
  }

  /** The fusion does not look at the permutation: with one that swaps the
      first two axes of a rank-3 operand, the fused MatMul infers a
      different shape from the original pair. */
  lemma FusionIgnoresPermutation()
    ensures Transpose.Permuted([2, 3, 3], [1, 0, 2]) == [3, 2, 3]
    ensures MatMul.MatMulShape([3, 2, 3], [3, 4], false, false) == Success([3, 2, 4])
    ensures MatMul.MatMulShape([2, 3, 3], [3, 4], true, false) == Success([2, 3, 4])
  {
    var p := Transpose.Permuted([2, 3, 3], [1, 0, 2]);
    assert p[0] == 3 && p[1] == 2 && p[2] == 3;
    assert p == [3, 2, 3];
    var x := MatMul.ProductShape([3, 2, 3], [3, 4]);
    assert x[0] == 3 && x[1] == 2 && x[2] == 4;
    assert x == [3, 2, 4];
    var y := MatMul.ProductShape(MatMul.SwapLastTwo([2, 3, 3]), [3, 4]);
    assert MatMul.SwapLastTwo([2, 3, 3]) == [2, 3, 3];
    assert y[0] == 2 && y[1] == 3 && y[2] == 4;
    assert y == [2, 3, 4];
  }

  /** Removing a Transpose pair is exact when the second permutation inverts
      the first. */
  lemma EliminationExactForInverse(a: Shape, p: seq<int>, q: seq<int>)
    requires Transpose.IsInverse(q, p, |a|)
    ensures Transpose.Permuted(Transpose.Permuted(a, p), q) == a
  {
    Transpose.InverseRestoresShape(a, p, q);
  }

  /** The elimination does not compare the permutations: two transposes that
      swap different axis pairs do not cancel, yet both are removed. */
  lemma EliminationIgnoresPermutations()
    ensures Transpose.Permuted(Transpose.Permuted([2, 3, 4], [1, 0, 2]), [0, 2, 1]) == [3, 4, 2]
  {
    var x := Transpose.Permuted([2, 3, 4], [1, 0, 2]);
    assert x[0] == 3 && x[1] == 2 && x[2] == 4;
    assert x == [3, 2, 4];
    var y := Transpose.Permuted(x, [0, 2, 1]);
    assert y[0] == 3 && y[1] == 4 && y[2] == 2;
  }
}
