/** Concat: output-shape inference for joining tensors along one axis. */
module Concat {
  import opened Util
  import opened Types

  /** `s` has the rank of `base` and agrees with it on every axis but `d`. */
  predicate Conforms(s: Shape, base: Shape, d: int) {
    |s| == |base| && forall j :: 0 <= j < |base| && j != d ==> s[j] == base[j]
  }

  /** The first input at or after position `from` that does not conform to
      input 0, if there is one. */
  function FirstNonConforming(inputs: seq<Shape>, d: int, from: nat): (r: Option<nat>)
    requires 1 <= |inputs|
    ensures r.None? <==> forall i :: from <= i < |inputs| ==> Conforms(inputs[i], inputs[0], d)
    ensures r.Some? ==> from <= r.value < |inputs| && !Conforms(inputs[r.value], inputs[0], d)
    ensures r.Some? ==> forall i :: from <= i < r.value ==> Conforms(inputs[i], inputs[0], d)
    decreases |inputs| - from
  {
    if from >= |inputs| then None
    else if !Conforms(inputs[from], inputs[0], d) then Some(from)
    else FirstNonConforming(inputs, d, from + 1)
  }

  /** The sum of axis `j` over the first `n` inputs. */
  function AxisSum(inputs: seq<Shape>, j: nat, n: nat): int
    requires n <= |inputs|
    requires forall i :: 0 <= i < n ==> j < |inputs[i]|
  {
    if n == 0 then 0 else AxisSum(inputs, j, n - 1) + inputs[n - 1][j]
  }

  /** The shape Concat infers along axis `dim` (already normalized into
      [0, rank) by the constructor): input 0's shape with axis `dim` replaced
      by the sum over all inputs, provided every input conforms. The first
      input that does not conform decides the failure. */
  function ConcatShape(inputs: seq<Shape>, dim: int): Result<Shape>
    requires 1 <= |inputs| && 0 <= dim < |inputs[0]|
  {
    match FirstNonConforming(inputs, dim, 1)
    case Some(i) => Failure(if |inputs[i]| != |inputs[0]| then RankMismatch else ShapeMismatch)
    case None => Success(inputs[0][dim := AxisSum(inputs, dim, |inputs|)])
  }

  /** inferShape: start from input 0's dimensions and, input by input,
      accumulate the concatenation axis and compare every other axis. */
  method InferShape(inputs: seq<Shape>, dim: int) returns (r: Result<Shape>)
    requires 1 <= |inputs| && 0 <= dim < |inputs[0]|
    ensures r == ConcatShape(inputs, dim)
  {
    var dims := inputs[0];
    var rank := |inputs[0]|;
    var realDim := if dim < 0 then rank + dim else dim;
    var i := 1;
    while i < |inputs|
      invariant 1 <= i <= |inputs|
      invariant forall k :: 1 <= k < i ==> Conforms(inputs[k], inputs[0], dim)
      invariant dims == inputs[0][dim := AxisSum(inputs, dim, i)]
    {
      if rank != |inputs[i]| {
        return Failure(RankMismatch);
      }
      var j := 0;
      while j < rank
        invariant 0 <= j <= rank
        invariant forall jj :: 0 <= jj < j && jj != dim ==> inputs[i][jj] == inputs[0][jj]
        invariant dims == inputs[0][dim := if j > dim then AxisSum(inputs, dim, i + 1) else AxisSum(inputs, dim, i)]
      {
        if j == realDim {
          dims := dims[j := dims[j] + inputs[i][j]];
        } else if dims[j] != inputs[i][j] {
          assert !Conforms(inputs[i], inputs[0], dim);
          return Failure(ShapeMismatch);
        }
        j := j + 1;
      }
      i := i + 1;
    }
    return Success(dims);
  }

  /** Concat succeeds exactly when every input conforms to input 0; the
      result has input 0's rank, the summed extent on the axis, and every
      input's extent on every other axis. */
  lemma ConcatMeaning(inputs: seq<Shape>, dim: int)
    requires 1 <= |inputs| && 0 <= dim < |inputs[0]|
    ensures ConcatShape(inputs, dim).Success? <==>
      forall i :: 0 <= i < |inputs| ==> Conforms(inputs[i], inputs[0], dim)
    ensures ConcatShape(inputs, dim).Success? ==>
      var r := ConcatShape(inputs, dim).value;
      |r| == |inputs[0]| && r[dim] == AxisSum(inputs, dim, |inputs|) &&
      forall i, j :: 0 <= i < |inputs| && 0 <= j < |r| && j != dim ==> r[j] == inputs[i][j]
  {
    assert Conforms(inputs[0], inputs[0], dim);
    if FirstNonConforming(inputs, dim, 1).None? {
      assert forall i :: 0 <= i < |inputs| ==> Conforms(inputs[i], inputs[0], dim) by {
        forall i | 0 <= i < |inputs| ensures Conforms(inputs[i], inputs[0], dim) {
          if i >= 1 {
            assert Conforms(inputs[i], inputs[0], dim);
          }
        }
      }
    } else {
      var i := FirstNonConforming(inputs, dim, 1).value;
      assert !Conforms(inputs[i], inputs[0], dim);
    }
  }

  /** A failure names the first non-conforming input: RankMismatch when its
      rank differs from input 0's, ShapeMismatch when another axis differs. */
  lemma ConcatFailureKind(inputs: seq<Shape>, dim: int, i: nat)
    requires 1 <= |inputs| && 0 <= dim < |inputs[0]|
    requires 1 <= i < |inputs| && !Conforms(inputs[i], inputs[0], dim)
    requires forall k :: 1 <= k < i ==> Conforms(inputs[k], inputs[0], dim)
    ensures ConcatShape(inputs, dim) ==
      Failure(if |inputs[i]| != |inputs[0]| then RankMismatch else ShapeMismatch)
  {
    var f := FirstNonConforming(inputs, dim, 1);
    assert f.Some?;
    assert !Conforms(inputs[f.value], inputs[0], dim);
    assert f.value == i;
  }

  /** With a single input the output is that input's shape. */
  lemma ConcatSingle(s: Shape, dim: int)
    requires 0 <= dim < |s|
    ensures ConcatShape([s], dim) == Success(s)
  {
    assert AxisSum([s], dim, 1) == s[dim];
    assert s[dim := s[dim]] == s;
  }

  /** One more conforming input adds its extent on the axis and changes
      nothing else. */
  lemma {:induction false} ConcatAppend(inputs: seq<Shape>, s: Shape, dim: int)
    requires 1 <= |inputs| && 0 <= dim < |inputs[0]|
    requires ConcatShape(inputs, dim).Success? && Conforms(s, inputs[0], dim)
    ensures ConcatShape(inputs + [s], dim) ==
      Success(ConcatShape(inputs, dim).value[dim := ConcatShape(inputs, dim).value[dim] + s[dim]])
  {
    var all := inputs + [s];
    assert all[0] == inputs[0];
    assert forall i :: 0 <= i < |all| ==> Conforms(all[i], all[0], dim) by {
      ConcatMeaning(inputs, dim);
    }
    assert FirstNonConforming(all, dim, 1) == None;
    AxisSumPrefix(inputs, s, dim, |inputs|);
    assert AxisSum(all, dim, |all|) == AxisSum(inputs, dim, |inputs|) + s[dim];
    var u := inputs[0][dim := AxisSum(inputs, dim, |inputs|)];
    assert ConcatShape(inputs, dim) == Success(u);
    assert u[dim := u[dim] + s[dim]] == inputs[0][dim := AxisSum(all, dim, |all|)];
  }

  /** Sums over a prefix of `inputs + [s]` are sums over `inputs`. */
  lemma {:induction false} AxisSumPrefix(inputs: seq<Shape>, s: Shape, j: nat, n: nat)
    requires n <= |inputs|
    requires forall i :: 0 <= i < n ==> j < |inputs[i]|
    ensures AxisSum(inputs + [s], j, n) == AxisSum(inputs, j, n)
  {
    if n > 0 {
      AxisSumPrefix(inputs, s, j, n - 1);
      assert (inputs + [s])[n - 1] == inputs[n - 1];
    }
  }

  /** Concrete cases: [2,3] and [2,5] on axis 1 give [2,8]; [2,3] and
      [3,3] on axis 1 fail because axis 0 differs. */
  lemma ConcatExamples()
    ensures ConcatShape([[2, 3], [2, 5]], 1) == Success([2, 8])
    ensures ConcatShape([[2, 3], [3, 3]], 1) == Failure(ShapeMismatch)
    ensures ConcatShape([[2, 3], [2, 3, 1]], 1) == Failure(RankMismatch)
  {
    var ok: seq<Shape> := [[2, 3], [2, 5]];
    assert AxisSum(ok, 1, 1) == 3;
    assert AxisSum(ok, 1, 2) == 8;
    assert Conforms(ok[1], ok[0], 1);
    assert FirstNonConforming(ok, 1, 1) == None;
    assert ok[0][1 := 8] == [2, 8];
    var bad: seq<Shape> := [[2, 3], [3, 3]];
    assert bad[1][0] != bad[0][0];
    assert FirstNonConforming(bad, 1, 1) == Some(1);
    var deep: seq<Shape> := [[2, 3], [2, 3, 1]];
    assert FirstNonConforming(deep, 1, 1) == Some(1);
  }
}
