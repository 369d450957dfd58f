/**
 The order of a fused region's members: a depth-first postorder over the edges between
 them (`_topo_order` in bdc/emit.py).
 */
module TopoOrder {
  import opened Graphs

  type Deps = map<nat, seq<nat>>

  /** An arc from each node to each node that depends on it. */
  ghost function DepArcs(deps: Deps): Arcs {
    set i, d | i in deps && d in deps[i] :: (d, i)
  }

  /** Dependencies lead only to other keys of `deps`. */
  ghost predicate Inward(deps: Deps) {
    forall i, d | i in deps && d in deps[i] :: d in deps
  }

  /** Every node's dependencies come before it. */
  ghost predicate Ordered(deps: Deps, order: seq<nat>) {
    forall k, d | 0 <= k < |order| && order[k] in deps && d in deps[order[k]] :: d in order[..k]
  }

  ghost predicate NoRepeats(order: seq<nat>) {
    forall j, k | 0 <= j < k < |order| :: order[j] != order[k]
  }

  /** Every node still being visited depends, perhaps through others, on `i`. */
  ghost predicate Awaiting(deps: Deps, visited: set<nat>, order: seq<nat>, i: nat) {
    forall a | a in visited && a !in order :: Above(deps, i, a)
  }

  ghost predicate Above(deps: Deps, d: nat, a: nat) {
    exists p :: p != [] && Walk(DepArcs(deps), d, p, a)
  }

  /** What is true of `visited` and `order` between visits. */
  ghost predicate Sorting(deps: Deps, visited: set<nat>, order: seq<nat>) {
    && Elements(order) <= visited <= deps.Keys && NoRepeats(order)
    && (Acyclic(DepArcs(deps)) ==> Ordered(deps, order))
  }

  lemma {:induction false} AboveStep(deps: Deps, d: nat, i: nat, a: nat)
    requires i in deps && d in deps[i] && (i == a || Above(deps, i, a))
    ensures Above(deps, d, a)
  {
    var p: seq<nat> := [];
    if i != a {
      p :| p != [] && Walk(DepArcs(deps), i, p, a);
    }
    assert ([i] + p)[1..] == p;
    assert Walk(DepArcs(deps), d, [i] + p, a);
  }

  lemma {:induction false} AwaitingDeeper(deps: Deps, visited: set<nat>, order: seq<nat>, i: nat, d: nat)
    requires Awaiting(deps, visited - {i}, order, i) && i in deps && d in deps[i]
    ensures Awaiting(deps, visited, order, d)
  {
    forall a | a in visited && a !in order ensures Above(deps, d, a) {
      AboveStep(deps, d, i, a);
    }
  }

  /** No node awaits itself in an acyclic graph. */
  lemma {:induction false} NotAboveItself(deps: Deps, i: nat)
    requires Acyclic(DepArcs(deps))
    ensures !Above(deps, i, i)
  {
    assert !OnCycle(DepArcs(deps), i);
  }

  lemma {:induction false} SameWaiting(deps: Deps, v: set<nat>, o: seq<nat>, v': set<nat>, o': seq<nat>, i: nat)
    requires Awaiting(deps, v, o, i) && v' - Elements(o') == v - Elements(o)
    ensures Awaiting(deps, v', o', i)
  {
    forall a | a in v' && a !in o' ensures Above(deps, i, a) {
      assert a in v' - Elements(o');
      assert a in v - Elements(o);
    }
  }

  /** `i` joins the order once everything it depends on is there. */
  lemma {:induction false} Append(deps: Deps, visited: set<nat>, order: seq<nat>, i: nat)
    requires Sorting(deps, visited, order) && i in visited && i !in order
    requires Acyclic(DepArcs(deps)) ==> forall d | d in deps[i] :: d in order
    ensures Sorting(deps, visited, order + [i])
  {
    var longer := order + [i];
    hide Acyclic;
    if Acyclic(DepArcs(deps)) {
      forall k, d | 0 <= k < |longer| && longer[k] in deps && d in deps[longer[k]] ensures d in longer[..k] {
        if k < |order| {
          assert longer[..k] == order[..k];
        } else {
          assert longer[..k] == order;
        }
      }
    }
  }

  /** Visit everything `i` depends on, then append `i`. */
  method Visit(deps: Deps, i: nat, visited: set<nat>, order: seq<nat>) returns (seen: set<nat>, longer: seq<nat>)
    requires Inward(deps) && i in deps && Sorting(deps, visited, order) && Awaiting(deps, visited, order, i)
    ensures Sorting(deps, seen, longer) && visited + {i} <= seen && order <= longer
    ensures seen - Elements(longer) == visited - Elements(order)
    ensures Acyclic(DepArcs(deps)) ==> i in longer
    decreases |deps.Keys - visited|
  {
    hide Acyclic, Above, Ordered, NoRepeats, DepArcs, Elements;
    if i in visited {
      seen, longer := visited, order;
      if i !in order && Acyclic(DepArcs(deps)) {
        NotAboveItself(deps, i);
        assert false;
      }
      return;
    }
    seen, longer := visited + {i}, order;
    ghost var active := visited + {i} - Elements(order);
    for k := 0 to |deps[i]|
      invariant Sorting(deps, seen, longer) && visited + {i} <= seen && order <= longer
      invariant seen - Elements(longer) == active
      invariant Acyclic(DepArcs(deps)) ==> forall j | 0 <= j < k :: deps[i][j] in longer
    {
      var d := deps[i][k];
      Descend(deps, visited, order, seen, longer, i, d);
      seen, longer := Visit(deps, d, seen, longer);
    }
    Finished(visited, order, seen, longer, i);
    Append(deps, seen, longer, i);
    longer := longer + [i];
  }

  /** What `i` depends on may be visited next, and there is less left to visit. */
  lemma {:induction false} Descend(deps: Deps, visited: set<nat>, order: seq<nat>, seen: set<nat>, longer: seq<nat>,
      i: nat, d: nat)
    requires i in deps && d in deps[i] && i !in visited && visited + {i} <= seen
    requires Elements(order) <= visited && seen - Elements(longer) == visited + {i} - Elements(order)
    requires Awaiting(deps, visited, order, i)
    ensures Awaiting(deps, seen, longer, d) && |deps.Keys - seen| < |deps.Keys - visited|
  {
    hide Above, DepArcs;
    SameWaiting(deps, visited, order, seen - {i}, longer, i) by {
      assert seen - {i} - Elements(longer) == seen - Elements(longer) - {i};
      assert seen - {i} - Elements(longer) == visited - Elements(order);
    }
    AwaitingDeeper(deps, seen, longer, i, d);
    Shrinks(deps, visited, seen, i);
  }

  lemma {:induction false} Finished(visited: set<nat>, order: seq<nat>, seen: set<nat>, longer: seq<nat>, i: nat)
    requires i !in visited && Elements(order) <= visited && seen - Elements(longer) == visited + {i} - Elements(order)
    ensures i in seen && i !in longer && i in longer + [i]
    ensures seen - Elements(longer + [i]) == visited - Elements(order)
  {
    assert i in seen - Elements(longer);
    assert Elements(longer + [i]) == Elements(longer) + {i};
    assert seen - Elements(longer) - {i} == visited - Elements(order);
  }

  lemma {:induction false} Shrinks(deps: Deps, visited: set<nat>, seen: set<nat>, i: nat)
    requires i in deps && i !in visited && visited + {i} <= seen
    ensures |deps.Keys - seen| < |deps.Keys - visited|
  {
    var rest := deps.Keys - visited - {i};
    assert deps.Keys - visited == rest + {i};
    assert rest == (deps.Keys - seen) + (rest - (deps.Keys - seen));
  }

  /** The keys of `deps`, all below `n`, each after everything it depends on. */
  method TopologicalOrder(n: nat, deps: Deps) returns (order: seq<nat>)
    requires Inward(deps) && forall i | i in deps :: i < n
    ensures Elements(order) == deps.Keys && NoRepeats(order)
    ensures Acyclic(DepArcs(deps)) ==> Ordered(deps, order)
  {
    hide Acyclic, Above, Ordered, NoRepeats, DepArcs;
    var visited: set<nat> := {};
    order := [];
    SortingStarts(deps);
    for i := 0 to n
      invariant Sorting(deps, visited, order) && visited == Elements(order)
      invariant forall j | j in deps && j < i :: j in visited
    {
      if i in deps {
        assert Awaiting(deps, visited, order, i);
        visited, order := Visit(deps, i, visited, order);
        NothingOpen(deps, visited, order);
      }
    }
  }

  /** With no visit under way, every visited node is in the order. */
  lemma {:induction false} NothingOpen(deps: Deps, visited: set<nat>, order: seq<nat>)
    requires Sorting(deps, visited, order) && visited - Elements(order) == {}
    ensures visited == Elements(order)
  {
    assert forall x | x in visited :: x in Elements(order) || x in visited - Elements(order);
  }

  lemma {:induction false} SortingStarts(deps: Deps)
    ensures Sorting(deps, {}, [])
  {
  }
}
