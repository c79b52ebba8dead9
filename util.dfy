/** Shared value types: optional values, fallible results, the engine's error
    kinds, and the sequence operations the graph's collections are built from. */
module Util {

  datatype Option<+T> = None | Some(value: T)

  /** The distinguishable failure kinds of the planning core. Where the source
      aborts the process (an IT_ASSERT, a halt) the model returns one of these. */
  datatype Error =
    | CycleDetected
    | ShapeMismatch
    | RankMismatch
    | AxisOutOfRange
    | UnsupportedCast
    | DanglingReference
    | DuplicateIdentity
    | AllocatorMisuse

  datatype Result<+T> = Success(value: T) | Failure(error: Error)

  /** The outcome of an operation that returns nothing but may fail. */
  datatype Outcome = Pass | Fail(error: Error)

  /** Number of occurrences of `x` in `s`. */
  function Count<T(==)>(s: seq<T>, x: T): (n: nat)
    ensures n <= |s|
    ensures n == 0 <==> x !in s
  {
    if s == [] then 0 else (if s[0] == x then 1 else 0) + Count(s[1..], x)
  }

  /** `s` with every occurrence of `x` erased, the rest in order
      (the erase-all loops of removeTarget, removeTensor, remove*ors). */
  function RemoveAll<T(==,!new)>(s: seq<T>, x: T): (r: seq<T>)
    ensures x !in r
    ensures forall y :: y in r <==> y in s && y != x
    ensures |r| <= |s|
  {
    if s == [] then []
    else if s[0] == x then RemoveAll(s[1..], x)
    else [s[0]] + RemoveAll(s[1..], x)
  }

  /** `s` with every occurrence of `a` overwritten by `b` (replaceInput). */
  function ReplaceAll<T(==)>(s: seq<T>, a: T, b: T): (r: seq<T>)
    ensures |r| == |s|
    ensures forall i :: 0 <= i < |s| ==> r[i] == if s[i] == a then b else s[i]
  {
    if s == [] then [] else [if s[0] == a then b else s[0]] + ReplaceAll(s[1..], a, b)
  }

  /** `n` copies of `x`. */
  function Repeat<T>(x: T, n: nat): (r: seq<T>)
    ensures |r| == n
    ensures forall i :: 0 <= i < n ==> r[i] == x
  {
    if n == 0 then [] else [x] + Repeat(x, n - 1)
  }

  predicate Distinct<T(==)>(s: seq<T>) {
    forall i, j :: 0 <= i < j < |s| ==> s[i] != s[j]
  }

  /** The sequence with positions `i` .. `i + k - 1` erased (vector::erase). */
  function EraseAt<T>(s: seq<T>, i: nat, k: nat): (r: seq<T>)
    requires i + k <= |s|
    ensures |r| == |s| - k
    ensures forall j :: 0 <= j < i ==> r[j] == s[j]
    ensures forall j :: i <= j < |r| ==> r[j] == s[j + k]
  {
    s[..i] + s[i + k..]
  }

  lemma {:induction false} CountAppend<T>(s: seq<T>, t: seq<T>, x: T)
    ensures Count(s + t, x) == Count(s, x) + Count(t, x)
  {
    if s == [] {
      assert s + t == t;
    } else {
      assert (s + t)[1..] == s[1..] + t;
      CountAppend(s[1..], t, x);
    }
  }

  lemma {:induction false} CountRemoveAll<T(!new)>(s: seq<T>, x: T, y: T)
    ensures Count(RemoveAll(s, x), y) == if y == x then 0 else Count(s, y)
  {
    if s != [] {
      CountRemoveAll(s[1..], x, y);
      if s[0] != x {
        assert ([s[0]] + RemoveAll(s[1..], x))[1..] == RemoveAll(s[1..], x);
      }
    }
  }

  lemma {:induction false} CountRepeat<T>(x: T, n: nat, y: T)
    ensures Count(Repeat(x, n), y) == if y == x then n else 0
  {
    if n > 0 {
      assert Repeat(x, n)[1..] == Repeat(x, n - 1);
      CountRepeat(x, n - 1, y);
    }
  }

  /** The set of elements of a sequence. */
  function Elems<T>(s: seq<T>): set<T> {
    set x | x in s
  }

  lemma {:induction false} DistinctCard<T>(s: seq<T>)
    requires Distinct(s)
    ensures |Elems(s)| == |s|
  {
    if s != [] {
      DistinctCard(s[1..]);
      assert Elems(s) == Elems(s[1..]) + {s[0]};
      assert s[0] !in Elems(s[1..]);
    }
  }

  /** A sequence has at most as many distinct elements as entries, and
      strictly fewer when an element repeats. */
  lemma {:induction false} ElemsCard<T>(s: seq<T>)
    ensures |Elems(s)| <= |s|
    ensures !Distinct(s) ==> |Elems(s)| < |s|
  {
    if s != [] {
      ElemsCard(s[1..]);
      if s[0] in s[1..] {
        assert Elems(s) == Elems(s[1..]);
      } else {
        assert Elems(s) == Elems(s[1..]) + {s[0]};
        if !Distinct(s) {
          var i, j :| 0 <= i < j < |s| && s[i] == s[j];
          assert i > 0;
          assert s[1..][i - 1] == s[1..][j - 1];
        }
      }
    }
  }

  /** In a repeat-free sequence every element occurs exactly once. */
  lemma {:induction false} DistinctMultiset<T>(s: seq<T>)
    requires Distinct(s)
    ensures forall x :: multiset(s)[x] == if x in s then 1 else 0
  {
    if s != [] {
      var t := s[1..];
      assert Distinct(t) by {
        forall i, j | 0 <= i < j < |t| ensures t[i] != t[j] {
          assert t[i] == s[i + 1] && t[j] == s[j + 1];
        }
      }
      DistinctMultiset(t);
      assert s == [s[0]] + t;
      assert s[0] !in t;
      forall x ensures multiset(s)[x] == if x in s then 1 else 0 {
        assert multiset(s) == multiset{s[0]} + multiset(t);
        assert x in s <==> x == s[0] || x in t;
      }
    }
  }

  /** Erasing a stretch of a repeat-free sequence removes exactly the
      elements of that stretch. */
  lemma EraseAtMembers<T>(s: seq<T>, i: nat, k: nat)
    requires i + k <= |s| && Distinct(s)
    ensures forall x :: x in EraseAt(s, i, k) <==> x in s && x !in s[i..i + k]
  {
    var r := EraseAt(s, i, k);
    assert s == s[..i] + s[i..i + k] + s[i + k..];
    forall x ensures x in r <==> x in s && x !in s[i..i + k] {
      if x in r {
        var j :| 0 <= j < |r| && r[j] == x;
        var j' := if j < i then j else j + k;
        assert s[j'] == x;
        forall m | i <= m < i + k ensures s[m] != x {
          assert j' != m;
        }
      }
    }
  }

  lemma EraseTwoMembers<T>(s: seq<T>, i: nat)
    requires i + 2 <= |s| && Distinct(s)
    ensures forall x :: x in EraseAt(s, i, 2) <==> x in s && x != s[i] && x != s[i + 1]
  {
    EraseAtMembers(s, i, 2);
    assert s[i..i + 2] == [s[i], s[i + 1]];
  }

  lemma EraseOneMembers<T>(s: seq<T>, i: nat)
    requires i < |s| && Distinct(s)
    ensures forall x :: x in EraseAt(s, i, 1) <==> x in s && x != s[i]
  {
    EraseAtMembers(s, i, 1);
    assert s[i..i + 1] == [s[i]];
  }

  /** In a repeat-free sequence an element does not recur after its position. */
  lemma DistinctTail<T>(s: seq<T>, j: nat)
    requires Distinct(s) && j < |s|
    ensures s[j..] == [s[j]] + s[j + 1..]
    ensures s[j] !in s[j + 1..]
  {
    assert s[j..] == [s[j]] + s[j + 1..];
  }
}
