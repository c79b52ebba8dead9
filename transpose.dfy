/** Transpose: the permutation a transpose operator keeps, and the output
    shape it infers (output axis i is input axis perm[i]). */
module Transpose {
  import opened Util
  import opened Types

  /** The identity permutation of length n. */
  function Identity(n: nat): (p: seq<int>)
    ensures |p| == n
    ensures forall i :: 0 <= i < n ==> p[i] == i
  {
    seq(n, i => i)
  }

  /** The constructor's choice of permutation for an input of rank `rank`:
      an empty request means the identity, any other one must name every axis. */
  method MakePermute(rank: nat, permute: seq<int>) returns (r: Result<seq<int>>)
    ensures permute == [] ==> r == Success(Identity(rank))
    ensures permute != [] && |permute| != rank ==> r == Failure(RankMismatch)
    ensures permute != [] && |permute| == rank ==> r == Success(permute)
  {
    if permute == [] {
      var p := Repeat(0, rank);
      var i := 0;
      while i < rank
        invariant 0 <= i <= rank
        invariant |p| == rank
        invariant forall k :: 0 <= k < i ==> p[k] == k
      {
        p := p[i := i];
        i := i + 1;
      }
      assert p == Identity(rank);
      return Success(p);
    }
    if rank != |permute| {
      return Failure(RankMismatch);
    }
    return Success(permute);
  }

  /** Every one of the first `rank` entries of `perm` names an axis below `rank`. */
  predicate Indexes(perm: seq<int>, rank: nat) {
    |perm| >= rank && forall i :: 0 <= i < rank ==> 0 <= perm[i] < rank
  }

  /** The reference output shape: axis i of the result is axis perm[i] of the input. */
  function Permuted(input: Shape, perm: seq<int>): (r: Shape)
    requires Indexes(perm, |input|)
    ensures |r| == |input|
    ensures forall i :: 0 <= i < |input| ==> r[i] == input[perm[i]]
  {
    seq(|input|, i requires 0 <= i < |input| => input[perm[i]])
  }

  /** inferShape: copy the input's dimensions, then overwrite axis by axis. */
  method InferShape(input: Shape, perm: seq<int>) returns (r: Shape)
    requires Indexes(perm, |input|)
    ensures r == Permuted(input, perm)
  {
    r := input;
    var rank := |input|;
    var i := 0;
    while i < rank
      invariant 0 <= i <= rank
      invariant |r| == rank
      invariant forall k :: 0 <= k < i ==> r[k] == input[perm[k]]
    {
      r := r[i := input[perm[i]]];
      i := i + 1;
    }
  }

  /** `perm` is a permutation of 0 .. n-1. */
  predicate IsPermutation(perm: seq<int>, n: nat) {
    Indexes(perm, n) && |perm| == n && Distinct(perm)
  }

  /** `q` undoes `p`: applying p and then q puts every axis back. */
  predicate Undoes(q: seq<int>, p: seq<int>, n: nat) {
    Indexes(p, n) && Indexes(q, n) && forall j :: 0 <= j < n ==> p[q[j]] == j
  }

  /** The permutation that applies `p` first and `q` second. */
  function Compose(p: seq<int>, q: seq<int>, n: nat): (c: seq<int>)
    requires Indexes(p, n) && Indexes(q, n)
    ensures Indexes(c, n) && |c| == n
    ensures forall j :: 0 <= j < n ==> c[j] == p[q[j]]
  {
    seq(n, j requires 0 <= j < n => p[q[j]])
  }

  /** Transposing by the identity keeps the shape. */
  lemma IdentityKeepsShape(s: Shape)
    ensures Permuted(s, Identity(|s|)) == s
  {
  }

  /** Two transposes in a row are one transpose by the composed permutation. */
  lemma PermutedTwice(s: Shape, p: seq<int>, q: seq<int>)
    requires Indexes(p, |s|) && Indexes(q, |s|)
    ensures Permuted(Permuted(s, p), q) == Permuted(s, Compose(p, q, |s|))
  {
  }

  /** Transposing by `p` and then by a permutation that undoes it gives back
      the original shape: the reason an opposite pair of transposes can go. */
  lemma UndoRestoresShape(s: Shape, p: seq<int>, q: seq<int>)
    requires Undoes(q, p, |s|)
    ensures Permuted(Permuted(s, p), q) == s
  {
    PermutedTwice(s, p, q);
    assert Compose(p, q, |s|) == Identity(|s|);
  }

  /** `q` is the inverse permutation of `p`: q[p[i]] == i for every axis i. */
  predicate IsInverse(q: seq<int>, p: seq<int>, n: nat) {
    IsPermutation(p, n) && IsPermutation(q, n) && forall i :: 0 <= i < n ==> q[p[i]] == i
  }

  /** An inverse also undoes `p` in the other order (p[q[j]] == j). */
  lemma InverseUndoes(q: seq<int>, p: seq<int>, n: nat)
    requires IsInverse(q, p, n)
    ensures Undoes(q, p, n)
  {
    forall j | 0 <= j < n
      ensures p[q[j]] == j
    {
      var a := q[j];
      assert q[p[a]] == a;
    }
  }

  /** Transposing by `p` and then by its inverse gives back the original shape. */
  lemma InverseRestoresShape(s: Shape, p: seq<int>, q: seq<int>)
    requires IsInverse(q, p, |s|)
    ensures Permuted(Permuted(s, p), q) == s
  {
    InverseUndoes(q, p, |s|);
    UndoRestoresShape(s, p, q);
  }

  /** The permutation that swaps the last two axes of a rank-n tensor. */
  function SwapLastPermute(n: nat): (p: seq<int>)
    requires n >= 2
    ensures IsPermutation(p, n)
  {
    var p := Identity(n)[n - 2 := n - 1][n - 1 := n - 2];
    assert forall i :: 0 <= i < n ==> p[i] == if i == n - 2 then n - 1 else if i == n - 1 then n - 2 else i;
    p
  }

  /** Swapping the last two axes is its own inverse. */
  lemma SwapLastSelfInverse(n: nat)
    requires n >= 2
    ensures IsInverse(SwapLastPermute(n), SwapLastPermute(n), n)
  {
  }
}
