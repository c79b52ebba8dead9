/** MatMul: output-shape inference for a batched matrix product with
    optional transposition of either operand and broadcasting of the
    leading (batch) axes. */
module MatMul {
  import opened Util
  import opened Types

  /** The shape with its last two axes exchanged (the effect of a trans flag). */
  function SwapLastTwo(s: Shape): (r: Shape)
    requires |s| >= 2
    ensures |r| == |s|
    ensures r[|s| - 1] == s[|s| - 2] && r[|s| - 2] == s[|s| - 1]
    ensures forall i :: 0 <= i < |s| - 2 ==> r[i] == s[i]
  {
    s[..|s| - 2] + [s[|s| - 1], s[|s| - 2]]
  }

  /** The extent of axis i counted from the right (0 is the last axis); an
      axis the shape does not have counts as 1. */
  function FromRight(s: Shape, i: nat): int {
    if i < |s| then s[|s| - 1 - i] else 1
  }

  /** Two batch extents broadcast together when equal or when one is 1. */
  predicate Broadcastable(x: int, y: int) {
    x == y || x == 1 || y == 1
  }

  /** The broadcast extent of a compatible pair: the one that is not 1. */
  function Broadcast(x: int, y: int): int {
    if x != 1 then x else y
  }

  /** The operand as the product sees it, after its trans flag. */
  function Oriented(s: Shape, trans: bool): (r: Shape)
    requires |s| >= 2
    ensures |r| == |s|
  {
    if trans then SwapLastTwo(s) else s
  }

  /** Every batch axis (2 <= i < n, counted from the right) of the two
      operands broadcasts. */
  predicate BatchCompatible(a: Shape, b: Shape, n: nat) {
    forall i :: 2 <= i < n ==> Broadcastable(FromRight(a, i), FromRight(b, i))
  }

  /** The broadcast extent of result axis k of an n-axis product; batch axis
      k sits n - 1 - k axes from the right. */
  function BatchExtent(a: Shape, b: Shape, n: nat, k: nat): int
    requires k < n
  {
    Broadcast(FromRight(a, n - 1 - k), FromRight(b, n - 1 - k))
  }

  /** The reference output shape of `a x b` (operands already oriented):
      the batch axes broadcast, then the rows of `a`, then the columns of `b`. */
  function ProductShape(a: Shape, b: Shape): (r: Shape)
    requires |a| >= 2 && |b| >= 2
    ensures |r| == Max(|a|, |b|)
  {
    var n := Max(|a|, |b|);
    seq(n - 2, k requires 0 <= k < n - 2 => BatchExtent(a, b, n, k)) + [a[|a| - 2], b[|b| - 1]]
  }

  /** The product of two oriented operands: the inner extents must agree and
      every batch axis must broadcast. */
  function Product(x: Shape, y: Shape): Result<Shape>
    requires |x| >= 2 && |y| >= 2
  {
    if x[|x| - 1] != y[|y| - 2] then Failure(ShapeMismatch)
    else if !BatchCompatible(x, y, Max(|x|, |y|)) then Failure(ShapeMismatch)
    else Success(ProductShape(x, y))
  }

  /** The shape MatMul infers for operands `a` and `b` and the two flags. */
  function MatMulShape(a: Shape, b: Shape, transA: bool, transB: bool): Result<Shape> {
    if |a| < 2 || |b| < 2 then Failure(RankMismatch)
    else Product(Oriented(a, transA), Oriented(b, transB))
  }

  /** inferShape: swap in local copies, fill the result's last two axes, then
      walk the batch axes from the right. */
  method InferShape(a: Shape, b: Shape, transA: bool, transB: bool) returns (r: Result<Shape>)
    ensures r == MatMulShape(a, b, transA, transB)
  {
    if !(|a| >= 2 && |b| >= 2) {
      return Failure(RankMismatch);
    }
    var A, B := a, b;
    if transA {
      A := SwapLastTwo(A);
    }
    if transB {
      B := SwapLastTwo(B);
    }
    var n := if |A| >= |B| then |A| else |B|;
    var ret := Repeat(0, n);
    if A[|A| - 1] != B[|B| - 2] {
      return Failure(ShapeMismatch);
    }
    ret := ret[n - 1 := B[|B| - 1]];
    ret := ret[n - 2 := A[|A| - 2]];
    var ok;
    ok, ret := FillBatch(A, B, ret);
    if !ok {
      return Failure(ShapeMismatch);
    }
    return Success(ret);
  }

  /** The broadcast loop of inferShape: fills batch axis i (from the right)
      of `ret`, or stops at the first pair that does not broadcast. */
  method FillBatch(A: Shape, B: Shape, ret0: Shape) returns (ok: bool, ret: Shape)
    requires |A| >= 2 && |B| >= 2 && |ret0| == Max(|A|, |B|)
    requires ret0[|ret0| - 1] == B[|B| - 1] && ret0[|ret0| - 2] == A[|A| - 2]
    ensures ok <==> BatchCompatible(A, B, Max(|A|, |B|))
    ensures ok ==> ret == ProductShape(A, B)
  {
    ret := ret0;
    var n := |ret|;
    var i := 2;
    while i < n
      invariant 2 <= i <= n
      invariant |ret| == n
      invariant ret[n - 1] == B[|B| - 1] && ret[n - 2] == A[|A| - 2]
      invariant BatchCompatible(A, B, i)
      invariant forall k :: n - i <= k < n - 2 ==> ret[k] == BatchExtent(A, B, n, k)
    {
      var dimA := if i < |A| then A[|A| - 1 - i] else 1;
      var dimB := if i < |B| then B[|B| - 1 - i] else 1;
      if !(dimA == dimB || dimA == 1 || dimB == 1) {
        assert !Broadcastable(FromRight(A, i), FromRight(B, i));
        return false, ret;
      }
      ret := ret[n - 1 - i := if dimA != 1 then dimA else dimB];
      i := i + 1;
    }
    assert ret == ProductShape(A, B) by {
      assert ret[..n - 2] == seq(n - 2, k requires 0 <= k < n - 2 => BatchExtent(A, B, n, k));
      assert ret == ret[..n - 2] + [A[|A| - 2], B[|B| - 1]];
    }
    return true, ret;
  }

  /** Inference fails exactly when an operand has fewer than two axes, the
      inner extents differ, or a batch axis does not broadcast; on success the
      rank is the larger rank and the last two axes are (rows of A, columns of B). */
  lemma MatMulShapeMeaning(a: Shape, b: Shape, transA: bool, transB: bool)
    ensures MatMulShape(a, b, transA, transB).Success? <==>
      |a| >= 2 && |b| >= 2 &&
      Oriented(a, transA)[|a| - 1] == Oriented(b, transB)[|b| - 2] &&
      BatchCompatible(Oriented(a, transA), Oriented(b, transB), Max(|a|, |b|))
    ensures |a| < 2 || |b| < 2 ==> MatMulShape(a, b, transA, transB) == Failure(RankMismatch)
    ensures MatMulShape(a, b, transA, transB).Failure? && |a| >= 2 && |b| >= 2 ==>
      MatMulShape(a, b, transA, transB) == Failure(ShapeMismatch)
    ensures MatMulShape(a, b, transA, transB).Success? ==>
      var r, a', b' := MatMulShape(a, b, transA, transB).value, Oriented(a, transA), Oriented(b, transB);
      |r| == Max(|a|, |b|) && r[|r| - 1] == b'[|b| - 1] && r[|r| - 2] == a'[|a| - 2]
  {
  }

  /** Each batch axis of a successful result is a common broadcast of the two
      operands' extents on that axis (missing axes read as 1): each operand's
      extent is 1 or the result's, and the result is 1 only when both are. */
  lemma BatchAxesBroadcast(a: Shape, b: Shape, transA: bool, transB: bool, k: nat)
    requires MatMulShape(a, b, transA, transB).Success?
    requires k + 2 < Max(|a|, |b|)
    ensures var r, n := MatMulShape(a, b, transA, transB).value, Max(|a|, |b|);
      var x, y := FromRight(a, n - 1 - k), FromRight(b, n - 1 - k);
      (x == 1 || x == r[k]) && (y == 1 || y == r[k]) && (r[k] == 1 <==> x == 1 && y == 1)
  {
    var n := Max(|a|, |b|);
    var i := n - 1 - k;
    var a', b' := Oriented(a, transA), Oriented(b, transB);
    assert FromRight(a', i) == FromRight(a, i);
    assert FromRight(b', i) == FromRight(b, i);
    assert Broadcastable(FromRight(a', i), FromRight(b', i));
    assert ProductShape(a', b')[k] == Broadcast(FromRight(a', i), FromRight(b', i));
  }

  /** A trans flag is the same as transposing the operand's last two axes. */
  lemma TransFlagIsSwap(a: Shape, b: Shape, transA: bool, transB: bool)
    requires |a| >= 2 && |b| >= 2
    ensures MatMulShape(a, b, !transA, transB) == MatMulShape(SwapLastTwo(a), b, transA, transB)
    ensures MatMulShape(a, b, transA, !transB) == MatMulShape(a, SwapLastTwo(b), transA, transB)
  {
    assert SwapLastTwo(SwapLastTwo(a)) == a;
    assert SwapLastTwo(SwapLastTwo(b)) == b;
  }

  /** Exchanging the last two axes twice changes nothing. */
  lemma SwapTwice(s: Shape)
    requires |s| >= 2
    ensures SwapLastTwo(SwapLastTwo(s)) == s
  {
  }

  /** Exchanging the last two axes leaves every batch axis where it was. */
  lemma SwapKeepsBatch(s: Shape, i: nat)
    requires |s| >= 2 && i >= 2
    ensures FromRight(SwapLastTwo(s), i) == FromRight(s, i)
  {
  }

  /** Transposing both operands and exchanging them transposes the product. */
  lemma ProductTransposed(x: Shape, y: Shape)
    requires |x| >= 2 && |y| >= 2 && Product(x, y).Success?
    ensures Product(SwapLastTwo(y), SwapLastTwo(x)) == Success(SwapLastTwo(Product(x, y).value))
  {
    var n := Max(|x|, |y|);
    var x', y' := SwapLastTwo(x), SwapLastTwo(y);
    forall i | 2 <= i < n
      ensures Broadcastable(FromRight(y', i), FromRight(x', i))
    {
      SwapKeepsBatch(x, i);
      SwapKeepsBatch(y, i);
    }
    var r, r' := ProductShape(x, y), ProductShape(y', x');
    forall k | 0 <= k < n
      ensures r'[k] == SwapLastTwo(r)[k]
    {
      if k < n - 2 {
        var i := n - 1 - k;
        SwapKeepsBatch(x, i);
        SwapKeepsBatch(y, i);
        assert Broadcastable(FromRight(x, i), FromRight(y, i));
      }
    }
    assert r' == SwapLastTwo(r);
  }

  /** The shape of (A x B) transposed is the shape of B^T x A^T: swapping the
      operands and toggling both flags swaps the result's last two axes. */
  lemma ProductOfTransposes(a: Shape, b: Shape, transA: bool, transB: bool)
    requires MatMulShape(a, b, transA, transB).Success?
    ensures MatMulShape(b, a, !transB, !transA) == Success(SwapLastTwo(MatMulShape(a, b, transA, transB).value))
  {
    var a', b' := Oriented(a, transA), Oriented(b, transB);
    SwapTwice(a);
    SwapTwice(b);
    assert Oriented(a, !transA) == SwapLastTwo(a');
    assert Oriented(b, !transB) == SwapLastTwo(b');
    ProductTransposed(a', b');
  }

  /** A concrete case: [1,4,3] x [5,3,2] gives [5,4,2]. */
  lemma BroadcastExample()
    ensures MatMulShape([1, 4, 3], [5, 3, 2], false, false) == Success([5, 4, 2])
  {
    var r := ProductShape([1, 4, 3], [5, 3, 2]);
    assert FromRight([1, 4, 3], 2) == 1 && FromRight([5, 3, 2], 2) == 5;
    assert r[0] == 5 && r[1] == 4 && r[2] == 2;
    assert r == [5, 4, 2];
  }

  /** A concrete failure: inner extents 3 and 2 do not match, until the
      trans flag turns the first operand into [3,2]. */
  lemma InnerMismatchExample()
    ensures MatMulShape([2, 3], [2, 5], false, false) == Failure(ShapeMismatch)
    ensures MatMulShape([2, 3], [2, 5], true, false) == Success([3, 5])
  {
    assert SwapLastTwo([2, 3]) == [3, 2];
    var r := ProductShape([3, 2], [2, 5]);
    assert r[0] == 3 && r[1] == 5;
    assert r == [3, 5];
  }
}
