/** topo_sort: repeated scans over the operator list, each placing every
    operator whose inputs are produced by already placed operators. */
module TopoSort {
  import opened Util
  import opened GraphCore

  /** The inputs of operator `o` (none for an object outside the arena). */
  function InputsOf(s: GraphState, o: Oid): seq<Tid> {
    if o in s.opOf then s.opOf[o].inputs else []
  }

  /** The producer of tensor `t` (none for an object outside the arena). */
  function SourceOf(s: GraphState, t: Tid): Option<Oid> {
    if t in s.tensorOf then s.tensorOf[t].source else None
  }

  /** `o` reads a tensor that `q` produces. */
  predicate DependsOn(s: GraphState, o: Oid, q: Oid) {
    exists t :: t in InputsOf(s, o) && SourceOf(s, t) == Some(q)
  }

  /** The scan's test: `o` is not placed yet, and each of its inputs has no
      producer or an already placed one. */
  predicate Ready(s: GraphState, flags: set<Oid>, o: Oid) {
    o !in flags && forall t :: t in InputsOf(s, o) ==> SourceOf(s, t).None? || SourceOf(s, t).value in flags
  }

  lemma ReadyMeaning(s: GraphState, flags: set<Oid>, o: Oid)
    ensures Ready(s, flags, o) <==> o !in flags && forall q :: DependsOn(s, o, q) ==> q in flags
  {
    if o !in flags && forall q :: DependsOn(s, o, q) ==> q in flags {
      forall t | t in InputsOf(s, o) && SourceOf(s, t).Some?
        ensures SourceOf(s, t).value in flags
      {
        assert DependsOn(s, o, SourceOf(s, t).value);
      }
    }
  }

  /** `placed` lists each flagged operator once (as many entries as flags),
      and only operators of `ops` are flagged. */
  ghost predicate Placed(placed: seq<Oid>, flags: set<Oid>, ops: seq<Oid>) {
    |placed| == |flags| && (forall o :: o in placed <==> o in flags) && (forall o :: o in flags ==> o in ops)
  }

  /** The placed list has no repeats. */
  lemma PlacedDistinct(placed: seq<Oid>, flags: set<Oid>, ops: seq<Oid>)
    requires Placed(placed, flags, ops)
    ensures Distinct(placed) && Elems(placed) == flags
  {
    assert Elems(placed) == flags;
    ElemsCard(placed);
  }

  /** Every operator of `order` comes after the producers of its inputs. */
  ghost predicate Ordered(s: GraphState, order: seq<Oid>) {
    forall i, q :: 0 <= i < |order| && DependsOn(s, order[i], q) ==> q in order[..i]
  }

  /** One scan over ops[..k]: in list order, each ready operator is placed,
      and counts as placed for the operators after it. */
  function Scan(s: GraphState, ops: seq<Oid>, placed: seq<Oid>, flags: set<Oid>, k: nat): (seq<Oid>, set<Oid>)
    requires k <= |ops|
  {
    if k == 0 then (placed, flags)
    else
      var r := Scan(s, ops, placed, flags, k - 1);
      if Ready(s, r.1, ops[k - 1]) then (r.0 + [ops[k - 1]], r.1 + {ops[k - 1]}) else r
  }

  /** A scan keeps `Placed` and `Ordered`, only appends, and places nothing
      exactly when no operator it looked at was ready. */
  lemma {:induction false} ScanFacts(s: GraphState, ops: seq<Oid>, placed: seq<Oid>, flags: set<Oid>, k: nat)
    requires k <= |ops| && Placed(placed, flags, ops)
    ensures var r := Scan(s, ops, placed, flags, k);
      && Placed(r.0, r.1, ops)
      && |r.0| >= |placed| && r.0[..|placed|] == placed && flags <= r.1
      && (Ordered(s, placed) ==> Ordered(s, r.0))
      && (|r.0| == |placed| ==> r == (placed, flags) && forall j :: 0 <= j < k ==> !Ready(s, flags, ops[j]))
      && (|r.0| > |placed| ==> exists o :: o in r.1 && o !in flags)
  {
    if k > 0 {
      ScanFacts(s, ops, placed, flags, k - 1);
      var r := Scan(s, ops, placed, flags, k - 1);
      var o := ops[k - 1];
      if Ready(s, r.1, o) {
        var p := r.0 + [o];
        assert o !in r.0;
        assert p[..|placed|] == placed by {
          assert p[..|r.0|] == r.0;
        }
        if Ordered(s, placed) {
          forall i, q | 0 <= i < |p| && DependsOn(s, p[i], q)
            ensures q in p[..i]
          {
            if i < |r.0| {
              assert p[..i] == r.0[..i];
            } else {
              ReadyMeaning(s, r.1, o);
              assert p[..i] == r.0;
            }
          }
        }
      }
    }
  }

  /** Scans repeated until everything is placed; a scan that places nothing
      ends the sort in failure. */
  function Rounds(s: GraphState, ops: seq<Oid>, placed: seq<Oid>, flags: set<Oid>): Option<seq<Oid>>
    requires Placed(placed, flags, ops)
    decreases |Elems(ops) - flags|
  {
    if |placed| >= |ops| then Some(placed)
    else
      var r := Scan(s, ops, placed, flags, |ops|);
      ScanFacts(s, ops, placed, flags, |ops|);
      if |r.0| == |placed| then None
      else
        assert Elems(ops) - r.1 < Elems(ops) - flags by {
          var o :| o in r.1 && o !in flags;
          assert o in Elems(ops) - flags;
        }
        Rounds(s, ops, r.0, r.1)
  }

  /** The order topo_sort installs, if it succeeds. */
  function TopoOrder(s: GraphState): Option<seq<Oid>> {
    Rounds(s, s.ops, [], {})
  }

  /** The loops of topo_sort (without the early exit on `sorted`). */
  method TopoOrderLoop(s: GraphState) returns (r: Option<seq<Oid>>)
    ensures r == TopoOrder(s)
  {
    var sorted: seq<Oid> := [];
    var flags: set<Oid> := {};
    while |sorted| < |s.ops|
      invariant Placed(sorted, flags, s.ops)
      invariant Rounds(s, s.ops, sorted, flags) == TopoOrder(s)
      decreases |Elems(s.ops) - flags|
    {
      ghost var sorted0, flags0 := sorted, flags;
      var modified;
      sorted, flags, modified := ScanLoop(s, sorted, flags);
      ScanFacts(s, s.ops, sorted0, flags0, |s.ops|);
      if !modified {
        return None;
      }
      assert Elems(s.ops) - flags < Elems(s.ops) - flags0 by {
        var o :| o in flags && o !in flags0;
        assert o in Elems(s.ops) - flags0;
      }
    }
    return Some(sorted);
  }

  /** The inner loop of topo_sort: one pass over the operator list, noting
      whether anything was placed. */
  method ScanLoop(s: GraphState, sorted0: seq<Oid>, flags0: set<Oid>) returns (sorted: seq<Oid>, flags: set<Oid>, modified: bool)
    ensures (sorted, flags) == Scan(s, s.ops, sorted0, flags0, |s.ops|)
    ensures modified <==> |sorted| > |sorted0|
  {
    sorted, flags, modified := sorted0, flags0, false;
    var k := 0;
    while k < |s.ops|
      invariant 0 <= k <= |s.ops|
      invariant (sorted, flags) == Scan(s, s.ops, sorted0, flags0, k)
      invariant |sorted| >= |sorted0| && (modified <==> |sorted| > |sorted0|)
    {
      var op := s.ops[k];
      if Ready(s, flags, op) {
        modified := true;
        sorted := sorted + [op];
        flags := flags + {op};
      }
      k := k + 1;
    }
  }

  // ---------------------------------------------------------------------------
  // What a successful sort installs

  lemma {:induction false} RoundsSuccess(s: GraphState, ops: seq<Oid>, placed: seq<Oid>, flags: set<Oid>)
    requires Placed(placed, flags, ops) && Ordered(s, placed)
    requires Rounds(s, ops, placed, flags).Some?
    ensures var p := Rounds(s, ops, placed, flags).value;
      Distinct(p) && (forall o :: o in p ==> o in ops) && |p| >= |ops| && Ordered(s, p)
    decreases |Elems(ops) - flags|
  {
    if |placed| >= |ops| {
      PlacedDistinct(placed, flags, ops);
    } else {
      ScanFacts(s, ops, placed, flags, |ops|);
      var r := Scan(s, ops, placed, flags, |ops|);
      assert Elems(ops) - r.1 < Elems(ops) - flags by {
        var o :| o in r.1 && o !in flags;
        assert o in Elems(ops) - flags;
      }
      RoundsSuccess(s, ops, r.0, r.1);
    }
  }

  /** A repeat-free list drawn from `ops` and at least as long as `ops` is a
      rearrangement of `ops`, which then has no repeats either. */
  lemma FillsOps(p: seq<Oid>, ops: seq<Oid>)
    requires Distinct(p) && (forall o :: o in p ==> o in ops) && |p| >= |ops|
    ensures Distinct(ops) && |p| == |ops| && Elems(p) == Elems(ops)
  {
    DistinctCard(p);
    ElemsCard(ops);
    var extra := Elems(ops) - Elems(p);
    assert Elems(ops) == Elems(p) + extra;
    assert |extra| == 0;
  }

  /** On success topo_sort's new list is a permutation of the old one (which
      therefore had no repeats) in which every operator comes after the
      producer of each of its inputs. */
  lemma TopoSucceeds(s: GraphState)
    requires TopoOrder(s).Some?
    ensures var p := TopoOrder(s).value;
      && Distinct(s.ops) && Distinct(p) && |p| == |s.ops|
      && multiset(p) == multiset(s.ops)
      && Ordered(s, p)
  {
    RoundsSuccess(s, s.ops, [], {});
    var p := TopoOrder(s).value;
    FillsOps(p, s.ops);
    DistinctMultiset(p);
    DistinctMultiset(s.ops);
    assert multiset(p) == multiset(s.ops) by {
      forall x ensures multiset(p)[x] == multiset(s.ops)[x] {
        assert x in p <==> x in Elems(p);
      }
    }
  }

  // ---------------------------------------------------------------------------
  // When the sort fails

  /** A nonempty set of listed operators none of which can ever be placed:
      each reads a tensor produced inside the set or by an unlisted operator. */
  ghost predicate Knot(s: GraphState, ops: seq<Oid>, S: set<Oid>) {
    && S != {} && S <= Elems(ops)
    && forall o {:trigger Held(s, ops, S, o)} :: o in S ==> Held(s, ops, S, o)
  }

  /** `o` reads a tensor produced inside `S` or by an operator outside `ops`. */
  ghost predicate Held(s: GraphState, ops: seq<Oid>, S: set<Oid>, o: Oid) {
    exists q :: DependsOn(s, o, q) && (q in S || q !in ops)
  }

  /** A scan never places a member of a knot. */
  lemma {:induction false} ScanAvoids(s: GraphState, ops: seq<Oid>, placed: seq<Oid>, flags: set<Oid>, k: nat, S: set<Oid>)
    requires k <= |ops| && (forall o :: o in flags ==> o in ops) && Knot(s, ops, S) && flags !! S
    ensures var f := Scan(s, ops, placed, flags, k).1; f !! S && forall o :: o in f ==> o in ops
  {
    if k > 0 {
      ScanAvoids(s, ops, placed, flags, k - 1, S);
      var r := Scan(s, ops, placed, flags, k - 1);
      var o := ops[k - 1];
      if o in S {
        assert Held(s, ops, S, o);
        var q :| DependsOn(s, o, q) && (q in S || q !in ops);
        assert q !in r.1;
        ReadyMeaning(s, r.1, o);
        assert !Ready(s, r.1, o);
      }
      assert Scan(s, ops, placed, flags, k).1 == if Ready(s, r.1, o) then r.1 + {o} else r.1;
    }
  }

  lemma {:induction false} RoundsBlocked(s: GraphState, ops: seq<Oid>, placed: seq<Oid>, flags: set<Oid>, S: set<Oid>)
    requires Placed(placed, flags, ops) && Knot(s, ops, S) && flags !! S
    ensures Rounds(s, ops, placed, flags).None?
    decreases |Elems(ops) - flags|
  {
    ElemsCard(ops);
    var rest := Elems(ops) - S;
    assert Elems(ops) == rest + S;
    assert flags <= rest;
    assert |flags| <= |rest| by {
      assert rest == flags + (rest - flags);
    }
    ScanFacts(s, ops, placed, flags, |ops|);
    ScanAvoids(s, ops, placed, flags, |ops|, S);
    var r := Scan(s, ops, placed, flags, |ops|);
    if |r.0| != |placed| {
      assert Elems(ops) - r.1 < Elems(ops) - flags by {
        var o :| o in r.1 && o !in flags;
        assert o in Elems(ops) - flags;
      }
      RoundsBlocked(s, ops, r.0, r.1, S);
    }
  }

  lemma {:induction false} RoundsStuck(s: GraphState, ops: seq<Oid>, placed: seq<Oid>, flags: set<Oid>)
    requires Placed(placed, flags, ops) && Distinct(ops) && Rounds(s, ops, placed, flags).None?
    ensures exists S :: Knot(s, ops, S)
    decreases |Elems(ops) - flags|
  {
    ScanFacts(s, ops, placed, flags, |ops|);
    var r := Scan(s, ops, placed, flags, |ops|);
    if |r.0| == |placed| {
      var S := Elems(ops) - flags;
      DistinctCard(ops);
      assert Elems(ops) == S + flags;
      assert |S| > 0;
      forall o | o in S
        ensures Held(s, ops, S, o)
      {
        var j :| 0 <= j < |ops| && ops[j] == o;
        assert !Ready(s, flags, ops[j]);
        ReadyMeaning(s, flags, o);
        var q :| DependsOn(s, o, q) && q !in flags;
        assert q in S || q !in ops;
      }
      assert Knot(s, ops, S);
    } else {
      assert Elems(ops) - r.1 < Elems(ops) - flags by {
        var o :| o in r.1 && o !in flags;
        assert o in Elems(ops) - flags;
      }
      RoundsStuck(s, ops, r.0, r.1);
    }
  }

  /** topo_sort fails exactly when the operator list repeats an operator or
      some nonempty set of operators can never be placed. */
  lemma TopoFails(s: GraphState)
    ensures TopoOrder(s).None? <==> !Distinct(s.ops) || exists S :: Knot(s, s.ops, S)
  {
    if TopoOrder(s).Some? {
      TopoSucceeds(s);
      if S :| Knot(s, s.ops, S) {
        RoundsBlocked(s, s.ops, [], {}, S);
      }
    } else if Distinct(s.ops) {
      RoundsStuck(s, s.ops, [], {});
    }
  }

  /** A dependency cycle among listed operators (each c[i] reads what c[i+1]
      produces, and the last reads what the first produces) makes the sort fail. */
  lemma CycleFails(s: GraphState, c: seq<Oid>)
    requires |c| > 0 && forall i :: 0 <= i < |c| ==> c[i] in s.ops
    requires forall i :: 0 <= i < |c| - 1 ==> DependsOn(s, c[i], c[i + 1])
    requires DependsOn(s, c[|c| - 1], c[0])
    ensures TopoOrder(s).None?
  {
    var S := Elems(c);
    forall o | o in S
      ensures Held(s, s.ops, S, o)
    {
      var i :| 0 <= i < |c| && c[i] == o;
      var j := if i < |c| - 1 then i + 1 else 0;
      assert DependsOn(s, c[i], c[j]);
      assert c[j] in S;
    }
    assert c[0] in S;
    assert Knot(s, s.ops, S);
    RoundsBlocked(s, s.ops, [], {}, S);
  }
}
