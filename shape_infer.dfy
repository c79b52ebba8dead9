/** shape_infer: in operator-list order, each operator's shape inference is
    run on the current shapes of its inputs, and every output whose shape
    differs is given the inferred one (looked up by family id). */
module ShapeInfer {
  import opened Util
  import opened Types
  import opened GraphCore
  import MatMul
  import Transpose
  import Concat
  import Unary

  /** The current shapes of an operator's inputs, in order. */
  function InputShapes(s: GraphState, rec: OpRec): (r: seq<Shape>)
    requires forall t :: t in rec.inputs ==> t in s.tensorOf
    ensures |r| == |rec.inputs|
    ensures forall k :: 0 <= k < |r| ==> r[k] == s.tensorOf[rec.inputs[k]].dims
  {
    seq(|rec.inputs|, k requires 0 <= k < |rec.inputs| => s.tensorOf[rec.inputs[k]].dims)
  }

  /** An operator's inferShape on the shapes of its inputs. Reading an input
      that is not there fails, and so does a Transpose whose permutation
      does not index the input's axes or a Concat whose axis is not one of
      the first input's axes. */
  function InferOp(kind: OpKind, ins: seq<Shape>): (r: Result<seq<Shape>>)
    ensures r.Success? ==> |r.value| == 1
  {
    match kind
    case MatMulOp(transA, transB) =>
      if |ins| < 2 then Failure(DanglingReference)
      else
        (match MatMul.MatMulShape(ins[0], ins[1], transA, transB)
         case Success(shape) => Success([shape])
         case Failure(e) => Failure(e))
    case TransposeOp(permute) =>
      if |ins| < 1 then Failure(DanglingReference)
      else if !Transpose.Indexes(permute, |ins[0]|) then Failure(AxisOutOfRange)
      else Success([Transpose.Permuted(ins[0], permute)])
    case ConcatOp(dim) =>
      if |ins| < 1 then Failure(DanglingReference)
      else if !(0 <= dim < |ins[0]|) then Failure(AxisOutOfRange)
      else
        (match Concat.ConcatShape(ins, dim)
         case Success(shape) => Success([shape])
         case Failure(e) => Failure(e))
    case UnaryOp => if |ins| < 1 then Failure(DanglingReference) else Success(Unary.UnaryShape(ins))
    case ClipOp => if |ins| < 1 then Failure(DanglingReference) else Success(Unary.ClipShape(ins))
    case CastOp(_) => if |ins| < 1 then Failure(DanglingReference) else Success(Unary.CastShape(ins))
  }

  /** What inference gives, kind by kind: a Transpose keeps the rank and
      permutes the axes, element-wise operators keep the first input's
      shape, and every kind fails when an input it reads is missing. */
  lemma InferOpMeaning(kind: OpKind, ins: seq<Shape>)
    ensures (kind.MatMulOp? && |ins| < 2) || (!kind.MatMulOp? && |ins| < 1) ==>
      InferOp(kind, ins) == Failure(DanglingReference)
    ensures kind.TransposeOp? && |ins| >= 1 ==>
      (InferOp(kind, ins).Success? <==> Transpose.Indexes(kind.permute, |ins[0]|))
    ensures kind.TransposeOp? && InferOp(kind, ins).Success? ==>
      var out := InferOp(kind, ins).value[0];
      |out| == |ins[0]| && forall k :: 0 <= k < |out| ==> out[k] == ins[0][kind.permute[k]]
    ensures (kind.UnaryOp? || kind.ClipOp? || kind.CastOp?) && |ins| >= 1 ==>
      InferOp(kind, ins) == Success([ins[0]])
    ensures kind.MatMulOp? && |ins| >= 2 ==>
      (InferOp(kind, ins).Success? <==> MatMul.MatMulShape(ins[0], ins[1], kind.transA, kind.transB).Success?)
    ensures kind.ConcatOp? && |ins| >= 1 && 0 <= kind.dim < |ins[0]| && InferOp(kind, ins).Success? ==>
      var out := InferOp(kind, ins).value[0];
      |out| == |ins[0]| && out[kind.dim] == Concat.AxisSum(ins, kind.dim, |ins|)
  {
    if (kind.UnaryOp? || kind.ClipOp? || kind.CastOp?) && |ins| >= 1 {
      Unary.ElementwiseKeepShape(ins);
    }
    if kind.ConcatOp? && |ins| >= 1 && 0 <= kind.dim < |ins[0]| {
      Concat.ConcatMeaning(ins, kind.dim);
    }
  }

  /** The same dispatch, through each operator's own inference routine. */
  method InferOpShapes(kind: OpKind, ins: seq<Shape>) returns (r: Result<seq<Shape>>)
    ensures r == InferOp(kind, ins)
  {
    match kind
    case MatMulOp(transA, transB) =>
      if |ins| < 2 {
        return Failure(DanglingReference);
      }
      var m := MatMul.InferShape(ins[0], ins[1], transA, transB);
      r := if m.Success? then Success([m.value]) else Failure(m.error);
    case TransposeOp(permute) =>
      if |ins| < 1 {
        return Failure(DanglingReference);
      }
      if !Transpose.Indexes(permute, |ins[0]|) {
        return Failure(AxisOutOfRange);
      }
      var t := Transpose.InferShape(ins[0], permute);
      r := Success([t]);
    case ConcatOp(dim) =>
      if |ins| < 1 {
        return Failure(DanglingReference);
      }
      if !(0 <= dim < |ins[0]|) {
        return Failure(AxisOutOfRange);
      }
      var c := Concat.InferShape(ins, dim);
      r := if c.Success? then Success([c.value]) else Failure(c.error);
    case UnaryOp =>
      r := if |ins| < 1 then Failure(DanglingReference) else Success(Unary.UnaryShape(ins));
    case ClipOp =>
      r := if |ins| < 1 then Failure(DanglingReference) else Success(Unary.ClipShape(ins));
    case CastOp(_) =>
      r := if |ins| < 1 then Failure(DanglingReference) else Success(Unary.CastShape(ins));
  }

  /** setShape on tensor t. */
  function SetShape(s: GraphState, t: Tid, shape: Shape): (r: GraphState)
    requires t in s.tensorOf
    ensures r.tensors == s.tensors && r.ops == s.ops && r.opOf == s.opOf
    ensures r.tensorOf.Keys == s.tensorOf.Keys
  {
    s.(tensorOf := s.tensorOf[t := s.tensorOf[t].(dims := shape)])
  }

  /** Only shapes change: every other field of every object stays. */
  ghost predicate OnlyShapes(s: GraphState, r: GraphState) {
    && r.tensors == s.tensors && r.ops == s.ops && r.opOf == s.opOf
    && r.tensorOf.Keys == s.tensorOf.Keys
    && forall t :: t in s.tensorOf ==> r.tensorOf[t] == s.tensorOf[t].(dims := r.tensorOf[t].dims)
  }

  lemma SetShapeKeeps(s: GraphState, t: Tid, shape: Shape)
    requires Closed(s) && t in s.tensorOf
    ensures Closed(SetShape(s, t, shape)) && OnlyShapes(s, SetShape(s, t, shape))
  {
  }

  lemma OnlyShapesTrans(a: GraphState, b: GraphState, c: GraphState)
    requires OnlyShapes(a, b) && OnlyShapes(b, c)
    ensures OnlyShapes(a, c)
  {
  }

  /** The inner loop over one operator's outputs from position j: an output
      whose current shape differs from the inferred one has the tensor with
      its family id reshaped; none with that id fails (a null tensor). */
  function ApplyShapes(s: GraphState, outs: seq<Tid>, shapes: seq<Shape>, j: nat): (r: Result<GraphState>)
    requires Closed(s) && |outs| == |shapes| && forall t :: t in outs ==> t in s.tensorOf
    decreases |outs| - j
  {
    if j >= |outs| then Success(s)
    else
      var cur := s.tensorOf[outs[j]];
      if shapes[j] == cur.dims then ApplyShapes(s, outs, shapes, j + 1)
      else
        match GetTensor(s, cur.fuid)
        case None => Failure(DanglingReference)
        case Some(t) =>
          SetShapeKeeps(s, t, shapes[j]);
          ApplyShapes(SetShape(s, t, shapes[j]), outs, shapes, j + 1)
  }

  /** The inner loop changes shapes only, and leaves no link dangling. */
  lemma {:induction false} ApplyShapesOnlyShapes(s: GraphState, outs: seq<Tid>, shapes: seq<Shape>, j: nat)
    requires Closed(s) && |outs| == |shapes| && forall t :: t in outs ==> t in s.tensorOf
    requires ApplyShapes(s, outs, shapes, j).Success?
    ensures Closed(ApplyShapes(s, outs, shapes, j).value)
    ensures OnlyShapes(s, ApplyShapes(s, outs, shapes, j).value)
    decreases |outs| - j
  {
    if j < |outs| {
      var cur := s.tensorOf[outs[j]];
      if shapes[j] == cur.dims {
        ApplyShapesOnlyShapes(s, outs, shapes, j + 1);
      } else {
        var t := GetTensor(s, cur.fuid).value;
        SetShapeKeeps(s, t, shapes[j]);
        var s' := SetShape(s, t, shapes[j]);
        ApplyShapesOnlyShapes(s', outs, shapes, j + 1);
        OnlyShapesTrans(s, s', ApplyShapes(s', outs, shapes, j + 1).value);
      }
    }
  }

  /** The outer loop over the operator list from position k. An operator
      whose inference fails, or that infers a different number of shapes
      than it has outputs, halts the pass. */
  function ShapeInferFrom(s: GraphState, k: nat): (r: Result<GraphState>)
    requires Closed(s)
    ensures r.Success? ==> Closed(r.value) && OnlyShapes(s, r.value)
    decreases |s.ops| - k
  {
    if k >= |s.ops| then Success(s)
    else
      var rec := s.opOf[s.ops[k]];
      match InferOp(rec.kind, InputShapes(s, rec))
      case Failure(e) => Failure(e)
      case Success(shapes) =>
        if |shapes| != |rec.outputs| then Failure(ShapeMismatch)
        else
          match ApplyShapes(s, rec.outputs, shapes, 0)
          case Failure(e) => Failure(e)
          case Success(s') =>
            ApplyShapesOnlyShapes(s, rec.outputs, shapes, 0);
            var r := ShapeInferFrom(s', k + 1);
            if r.Success? then
              OnlyShapesTrans(s, s', r.value);
              r
            else r
  }

  /** The pass as loops: for each operator, infer, compare the count, then
      walk its outputs. */
  method ShapeInferLoop(s0: GraphState) returns (r: Result<GraphState>)
    requires Closed(s0)
    ensures r == ShapeInferFrom(s0, 0)
  {
    var s := s0;
    var k := 0;
    while k < |s.ops|
      invariant Closed(s) && s.ops == s0.ops && k <= |s.ops|
      invariant ShapeInferFrom(s, k) == ShapeInferFrom(s0, 0)
      decreases |s.ops| - k
    {
      var rec := s.opOf[s.ops[k]];
      var shapes := InferOpShapes(rec.kind, InputShapes(s, rec));
      if shapes.Failure? {
        return Failure(shapes.error);
      }
      if |shapes.value| != |rec.outputs| {
        return Failure(ShapeMismatch);
      }
      var applied := ApplyShapesLoop(s, rec.outputs, shapes.value);
      if applied.Failure? {
        return Failure(applied.error);
      }
      ShapeInferUnfold(s, k, shapes.value, applied.value);
      s := applied.value;
      k := k + 1;
    }
    r := Success(s);
  }

  /** One step of the outer loop whose operator's outputs all took their shapes. */
  lemma ShapeInferUnfold(s: GraphState, k: nat, shapes: seq<Shape>, s': GraphState)
    requires Closed(s) && k < |s.ops|
    requires InferOp(s.opOf[s.ops[k]].kind, InputShapes(s, s.opOf[s.ops[k]])) == Success(shapes)
    requires |shapes| == |s.opOf[s.ops[k]].outputs|
    requires ApplyShapes(s, s.opOf[s.ops[k]].outputs, shapes, 0) == Success(s')
    ensures Closed(s') && s'.ops == s.ops
    ensures ShapeInferFrom(s, k) == ShapeInferFrom(s', k + 1)
  {
    ApplyShapesOnlyShapes(s, s.opOf[s.ops[k]].outputs, shapes, 0);
  }

  /** The inner loop of shape_infer: each output whose shape differs is
      looked up by family id and given its inferred shape. */
  method ApplyShapesLoop(s: GraphState, outs: seq<Tid>, shapes: seq<Shape>) returns (r: Result<GraphState>)
    requires Closed(s) && |outs| == |shapes| && forall t :: t in outs ==> t in s.tensorOf
    ensures r == ApplyShapes(s, outs, shapes, 0)
  {
    var cur := s;
    var j := 0;
    while j < |outs|
      invariant Closed(cur) && cur.tensorOf.Keys == s.tensorOf.Keys && j <= |outs|
      invariant ApplyShapes(cur, outs, shapes, j) == ApplyShapes(s, outs, shapes, 0)
      decreases |outs| - j
    {
      var out := cur.tensorOf[outs[j]];
      if shapes[j] != out.dims {
        var t := GetTensor(cur, out.fuid);
        if t.None? {
          return Failure(DanglingReference);
        }
        ApplyShapesUnfold(cur, outs, shapes, j, t.value);
        cur := SetShape(cur, t.value, shapes[j]);
      }
      j := j + 1;
    }
    r := Success(cur);
  }

  /** One step of the inner loop that rewrites a shape. */
  lemma ApplyShapesUnfold(s: GraphState, outs: seq<Tid>, shapes: seq<Shape>, j: nat, t: Tid)
    requires Closed(s) && |outs| == |shapes| && forall u :: u in outs ==> u in s.tensorOf
    requires j < |outs| && shapes[j] != s.tensorOf[outs[j]].dims
    requires GetTensor(s, s.tensorOf[outs[j]].fuid) == Some(t)
    ensures t in s.tensorOf && Closed(SetShape(s, t, shapes[j]))
    ensures ApplyShapes(s, outs, shapes, j) == ApplyShapes(SetShape(s, t, shapes[j]), outs, shapes, j + 1)
  {
    SetShapeKeeps(s, t, shapes[j]);
  }

  // ---------------------------------------------------------------------------
  // What the pass does

  /** With distinct family ids and distinct outputs that the graph lists,
      the inner loop gives each output (from position j on) exactly its
      inferred shape and leaves every other tensor's shape alone. */
  lemma ApplyShapesEffect(s: GraphState, outs: seq<Tid>, shapes: seq<Shape>, j: nat)
    requires Closed(s) && |outs| == |shapes| && j <= |outs|
    requires forall t :: t in outs ==> t in s.tensors
    requires Distinct(outs) && DistinctFuids(s)
    ensures ApplyShapes(s, outs, shapes, j).Success?
    ensures ApplyShapes(s, outs, shapes, j).value.tensorOf.Keys == s.tensorOf.Keys
    ensures var r := ApplyShapes(s, outs, shapes, j).value;
      && (forall m :: j <= m < |outs| ==> r.tensorOf[outs[m]].dims == shapes[m])
      && (forall t :: t in s.tensorOf && t !in outs[j..] ==> r.tensorOf[t] == s.tensorOf[t])
  {
    ApplyShapesSucceeds(s, outs, shapes, j);
    ApplyShapesOnlyShapes(s, outs, shapes, j);
    forall m | j <= m < |outs| ensures ApplyShapes(s, outs, shapes, j).value.tensorOf[outs[m]].dims == shapes[m] {
      ApplyShapesSets(s, outs, shapes, j, m);
    }
    forall t | t in s.tensorOf && t !in outs[j..]
      ensures ApplyShapes(s, outs, shapes, j).value.tensorOf[t] == s.tensorOf[t]
    {
      ApplyShapesKeeps(s, outs, shapes, j, t);
    }
  }

  lemma {:induction false} ApplyShapesSucceeds(s: GraphState, outs: seq<Tid>, shapes: seq<Shape>, j: nat)
    requires Closed(s) && |outs| == |shapes| && j <= |outs|
    requires forall t :: t in outs ==> t in s.tensors
    requires DistinctFuids(s)
    ensures ApplyShapes(s, outs, shapes, j).Success?
    decreases |outs| - j
  {
    if j < |outs| {
      var t := outs[j];
      if shapes[j] == s.tensorOf[t].dims {
        ApplyShapesSucceeds(s, outs, shapes, j + 1);
      } else {
        GetTensorExact(s, t);
        SetShapeFuids(s, t, shapes[j]);
        SetShapeKeeps(s, t, shapes[j]);
        ApplyShapesSucceeds(SetShape(s, t, shapes[j]), outs, shapes, j + 1);
      }
    }
  }

  lemma {:induction false} ApplyShapesSets(s: GraphState, outs: seq<Tid>, shapes: seq<Shape>, j: nat, m: nat)
    requires Closed(s) && |outs| == |shapes| && j <= m < |outs|
    requires forall t :: t in outs ==> t in s.tensors
    requires Distinct(outs) && DistinctFuids(s)
    ensures ApplyShapes(s, outs, shapes, j).Success?
    ensures ApplyShapes(s, outs, shapes, j).value.tensorOf.Keys == s.tensorOf.Keys
    ensures ApplyShapes(s, outs, shapes, j).value.tensorOf[outs[m]].dims == shapes[m]
    decreases |outs| - j
  {
    ApplyShapesSucceeds(s, outs, shapes, j);
    ApplyShapesOnlyShapes(s, outs, shapes, j);
    var t := outs[j];
    var s' := s;
    if shapes[j] != s.tensorOf[t].dims {
      GetTensorExact(s, t);
      SetShapeFuids(s, t, shapes[j]);
      SetShapeKeeps(s, t, shapes[j]);
      s' := SetShape(s, t, shapes[j]);
    }
    if m == j {
      DistinctTail(outs, j);
      ApplyShapesKeeps(s', outs, shapes, j + 1, t);
    } else {
      ApplyShapesSets(s', outs, shapes, j + 1, m);
    }
  }

  lemma {:induction false} ApplyShapesKeeps(s: GraphState, outs: seq<Tid>, shapes: seq<Shape>, j: nat, u: Tid)
    requires Closed(s) && |outs| == |shapes| && j <= |outs|
    requires forall t :: t in outs ==> t in s.tensors
    requires Distinct(outs) && DistinctFuids(s)
    requires u in s.tensorOf && u !in outs[j..]
    ensures ApplyShapes(s, outs, shapes, j).Success?
    ensures ApplyShapes(s, outs, shapes, j).value.tensorOf.Keys == s.tensorOf.Keys
    ensures ApplyShapes(s, outs, shapes, j).value.tensorOf[u] == s.tensorOf[u]
    decreases |outs| - j
  {
    ApplyShapesSucceeds(s, outs, shapes, j);
    ApplyShapesOnlyShapes(s, outs, shapes, j);
    if j < |outs| {
      var t := outs[j];
      assert outs[j..] == [t] + outs[j + 1..];
      var s' := s;
      if shapes[j] != s.tensorOf[t].dims {
        GetTensorExact(s, t);
        SetShapeFuids(s, t, shapes[j]);
        SetShapeKeeps(s, t, shapes[j]);
        s' := SetShape(s, t, shapes[j]);
      }
      ApplyShapesKeeps(s', outs, shapes, j + 1, u);
    }
  }

  /** Setting a shape leaves every family id as it was. */
  lemma SetShapeFuids(s: GraphState, t: Tid, shape: Shape)
    requires forall u :: u in s.tensors ==> u in s.tensorOf
    requires t in s.tensorOf && DistinctFuids(s)
    ensures DistinctFuids(SetShape(s, t, shape))
  {
    var s' := SetShape(s, t, shape);
    forall a, b | 0 <= a < b < |s'.tensors|
      ensures s'.tensorOf[s'.tensors[a]].fuid != s'.tensorOf[s'.tensors[b]].fuid
    {
      assert s'.tensorOf[s'.tensors[a]].fuid == s.tensorOf[s.tensors[a]].fuid;
      assert s'.tensorOf[s'.tensors[b]].fuid == s.tensorOf[s.tensors[b]].fuid;
    }
  }

  /** An operator list agrees with the current shapes from position k on
      when every operator there infers exactly its outputs' shapes. */
  ghost predicate Consistent(s: GraphState, k: nat)
    requires Closed(s)
  {
    forall m :: k <= m < |s.ops| ==>
      var rec := s.opOf[s.ops[m]];
      InferOp(rec.kind, InputShapes(s, rec)).Success? &&
      InferOp(rec.kind, InputShapes(s, rec)).value == seq(|rec.outputs|, j requires 0 <= j < |rec.outputs| => s.tensorOf[rec.outputs[j]].dims)
  }

  /** On a graph whose shapes already agree with inference, shape_infer
      changes nothing. */
  lemma {:induction false} ShapeInferFixedPoint(s: GraphState, k: nat)
    requires Closed(s) && Consistent(s, k)
    ensures ShapeInferFrom(s, k) == Success(s)
    decreases |s.ops| - k
  {
    if k < |s.ops| {
      var rec := s.opOf[s.ops[k]];
      var shapes := InferOp(rec.kind, InputShapes(s, rec)).value;
      ApplyUnchanged(s, rec.outputs, shapes, 0);
      ShapeInferFixedPoint(s, k + 1);
    }
  }

  lemma {:induction false} ApplyUnchanged(s: GraphState, outs: seq<Tid>, shapes: seq<Shape>, j: nat)
    requires Closed(s) && |outs| == |shapes| && forall t :: t in outs ==> t in s.tensorOf
    requires forall m :: j <= m < |outs| ==> shapes[m] == s.tensorOf[outs[m]].dims
    ensures ApplyShapes(s, outs, shapes, j) == Success(s)
    decreases |outs| - j
  {
    if j < |outs| {
      ApplyUnchanged(s, outs, shapes, j + 1);
    }
  }

  /** A visit that fails stops the pass with that failure. */
  lemma ShapeInferHalts(s: GraphState, k: nat)
    requires Closed(s) && k < |s.ops|
    requires InferOp(s.opOf[s.ops[k]].kind, InputShapes(s, s.opOf[s.ops[k]])).Failure?
    ensures ShapeInferFrom(s, k) == Failure(InferOp(s.opOf[s.ops[k]].kind, InputShapes(s, s.opOf[s.ops[k]])).error)
  {
  }

  /** An operator that infers a different number of shapes than it has
      outputs halts the pass. */
  lemma ShapeInferCountMismatch(s: GraphState, k: nat)
    requires Closed(s) && k < |s.ops|
    requires var rec := s.opOf[s.ops[k]];
      InferOp(rec.kind, InputShapes(s, rec)).Success? && |rec.outputs| != 1
    ensures ShapeInferFrom(s, k) == Failure(ShapeMismatch)
  {
  }
}
