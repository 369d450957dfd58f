/**
 The storage check of bdc/slack.py: with the storage nodes taken out, is the graph still cyclic?
 */
module Slack {
  import opened Graphs
  import opened Dataflow
  import opened Tarjan

  /** A component is a genuine cycle if it has two nodes, or one that feeds itself. */
  predicate IsCycle(scc: seq<nat>, adj: map<nat, seq<nat>>) {
    |scc| > 1 || (|scc| == 1 && scc[0] in adj && scc[0] in adj[scc[0]])
  }

  /** A component is a genuine cycle exactly when each of its nodes is on a cycle. */
  lemma {:induction false} IsCycleIff(c: seq<nat>, adj: map<nat, seq<nat>>, nodes: set<nat>, x: nat)
    requires IsComponent(Restricted(adj, nodes), c) && x in c && x in nodes
    ensures IsCycle(c, adj) <==> OnCycle(Restricted(adj, nodes), x)
  {
    var g := Restricted(adj, nodes);
    if |c| > 1 {
      var y := if c[0] == x then c[1] else c[0];
      assert y in c && y != x;
      var p :| Walk(g, x, p, y);
      var q :| Walk(g, y, q, x);
      WalkConcat(g, x, p, y, q, x);
      assert p != [];
    } else {
      assert c == [x];
      OnCycleIff(g, x);
      if OnCycle(g, x) {
        var v :| (x, v) in g && Reaches(g, v, x);
        ReachesArc(g, x, v);
        assert v in c;
      } else {
        ReachesSelf(g, x);
      }
    }
  }

  /** The components of `0..n`'s subset `ids` that are genuine cycles. */
  method LiveComponents(ids: seq<nat>, adj: map<nat, seq<nat>>) returns (live: seq<seq<nat>>)
    ensures forall c | c in live :: IsComponent(Restricted(adj, Elements(ids)), c) && IsCycle(c, adj)
    ensures forall c, x | c in live && x in c :: x in ids
    ensures forall i, j, x | 0 <= i < j < |live| && x in live[i] :: x !in live[j]
    ensures forall x | OnCycle(Restricted(adj, Elements(ids)), x) && x in ids :: exists c :: c in live && x in c
  {
    hide IsComponent, Restricted;
    var sccs := TarjanScc(ids, adj);
    ghost var g := Restricted(adj, Elements(ids));
    live := [];
    for k := 0 to |sccs|
      invariant forall c | c in live :: IsComponent(g, c) && IsCycle(c, adj)
      invariant forall i | 0 <= i < |live| :: exists j :: 0 <= j < k && live[i] == sccs[j]
      invariant forall i, j, x | 0 <= i < j < |live| && x in live[i] :: x !in live[j]
      invariant forall j | 0 <= j < k && IsCycle(sccs[j], adj) :: sccs[j] in live
    {
      if IsCycle(sccs[k], adj) {
        live := live + [sccs[k]];
      }
    }
    forall c, x | c in live && x in c ensures x in ids {
      var i :| 0 <= i < |live| && live[i] == c;
      var j :| 0 <= j < |sccs| && live[i] == sccs[j];
      assert sccs[j] == c;
      assert x in sccs[j];
      assert x in Elements(ids);
    }
    forall x | OnCycle(g, x) && x in ids ensures exists c :: c in live && x in c {
      var j :| 0 <= j < |sccs| && x in sccs[j];
      IsCycleIff(sccs[j], adj, Elements(ids), x);
    }
  }

  // ---- the verdict ------------------------------------------------------------

  /** A storage-free cyclic component, and the edges inside it where a link would help. */
  datatype Violation = Violation(nodes: seq<nat>, channels: seq<Edge>)

  ghost predicate Visits(es: seq<Edge>, s: set<nat>) {
    exists e :: e in es && e.producer in s
  }

  /** The nodes whose operation provides storage. */
  ghost function StorageNodes(nodes: seq<Node>, storageOps: set<string>): set<nat> {
    set v: nat | v < |nodes| && nodes[v].op in storageOps
  }

  /** The residual graph keeps a trail whose every node it keeps. */
  lemma {:induction false} TrailStaysResidual(edges: seq<Edge>, u: nat, es: seq<Edge>, v: nat, adj: map<nat, seq<nat>>,
      s: set<nat>)
    requires Trail(edges, u, es, v) && u in s && v in s && forall e | e in es :: e.producer in s
    requires forall e | e in edges :: e.producer in adj && e.consumer in adj[e.producer]
    ensures Reaches(Restricted(adj, s), u, v)
    ensures es != [] ==> (u, es[0].consumer) in Restricted(adj, s) && Reaches(Restricted(adj, s), es[0].consumer, v)
    decreases |es|
  {
    var g := Restricted(adj, s);
    if es == [] {
      ReachesSelf(g, u);
    } else {
      var w := es[0].consumer;
      assert w in s by {
        if es[1..] != [] {
          assert es[1] in es;
          assert es[1..][0] == es[1];
        }
      }
      TrailStaysResidual(edges, w, es[1..], v, adj, s);
      ReachesArc(g, u, w);
      ReachesTrans(g, u, w, v);
    }
  }

  /** A residual cycle is a ring of the whole graph that keeps clear of the nodes taken out. */
  lemma {:induction false} ResidualRing(edges: seq<Edge>, x: nat, adj: map<nat, seq<nat>>, s: set<nat>)
      returns (es: seq<Edge>)
    requires OnCycle(Restricted(adj, s), x)
    requires forall v, w | v in adj && w in adj[v] :: (v, w) in ArcsOf(edges)
    ensures Ring(edges, es) && es[0].producer == x && forall e | e in es :: e.producer in s
  {
    var p :| p != [] && Walk(Restricted(adj, s), x, p, x);
    es := ResidualTrail(edges, x, p, x, adj, s);
  }

  lemma {:induction false} ResidualTrail(edges: seq<Edge>, u: nat, p: seq<nat>, v: nat, adj: map<nat, seq<nat>>,
      s: set<nat>)
    returns (es: seq<Edge>)
    requires Walk(Restricted(adj, s), u, p, v)
    requires forall x, w | x in adj && w in adj[x] :: (x, w) in ArcsOf(edges)
    ensures Trail(edges, u, es, v) && |es| == |p| && forall e | e in es :: e.producer in s
    decreases |p|
  {
    es := [];
    if p != [] {
      assert (u, p[0]) in ArcsOf(edges);
      var e :| e in edges && (e.producer, e.consumer) == (u, p[0]);
      var rest := ResidualTrail(edges, p[0], p[1..], v, adj, s);
      es := [e] + rest;
      assert es[1..] == rest;
    }
  }

  /** A cycle through `x` visits none of `s`. */
  ghost predicate Loose(edges: seq<Edge>, s: set<nat>, x: nat) {
    exists es: seq<Edge> :: Ring(edges, es) && es[0].producer == x && !Visits(es, s)
  }

  ghost predicate Reported(violations: seq<Violation>, x: nat) {
    exists i :: 0 <= i < |violations| && x in violations[i].nodes
  }

  /** Round 2 of the check: take out the storage nodes and report every cycle that survives. */
  method CheckCycles(nodes: seq<Node>, edges: seq<Edge>, storageOps: set<string>) returns (violations: seq<Violation>)
    requires EdgesWithin(|nodes|, edges)
    ensures violations == [] <==> forall es | Ring(edges, es) :: Visits(es, StorageNodes(nodes, storageOps))
    ensures forall x :: Reported(violations, x) <==> Loose(edges, StorageNodes(nodes, storageOps), x)
    ensures forall i, j, x | 0 <= i < j < |violations| && x in violations[i].nodes :: x !in violations[j].nodes
    ensures forall i, e | 0 <= i < |violations| ::
        e in violations[i].channels <==>
          e in edges && e.producer in violations[i].nodes && e.consumer in violations[i].nodes
  {
    hide IsComponent, Restricted;
    var adj := Adjacency(|nodes|, edges);
    var residual := Residual(nodes, storageOps);
    var live := LiveComponents(residual, adj);
    violations := [];
    for k := 0 to |live|
      invariant |violations| == k
      invariant forall i | 0 <= i < k :: violations[i].nodes == live[i]
      invariant forall i, e | 0 <= i < k ::
          e in violations[i].channels <==> e in edges && e.producer in live[i] && e.consumer in live[i]
    {
      violations := violations + [Violation(live[k], Inside(edges, live[k]))];
    }
    VerdictIff(nodes, edges, storageOps, adj, residual, live);
    forall x ensures Reported(violations, x) <==> Loose(edges, StorageNodes(nodes, storageOps), x) {
      LooseIff(nodes, edges, storageOps, adj, residual, live, x);
      assert Reported(violations, x) <==> exists c :: c in live && x in c by {
        if c :| c in live && x in c {
          var i :| 0 <= i < |live| && live[i] == c;
          assert x in violations[i].nodes;
        }
      }
    }
  }

  function Inside(edges: seq<Edge>, c: seq<nat>): (r: seq<Edge>)
    ensures forall e :: e in r <==> e in edges && e.producer in c && e.consumer in c
  {
    if edges == [] then []
    else (if edges[0].producer in c && edges[0].consumer in c then [edges[0]] else []) + Inside(edges[1..], c)
  }

  method Residual(nodes: seq<Node>, storageOps: set<string>) returns (ids: seq<nat>)
    ensures forall v: nat :: v in ids <==> v < |nodes| && nodes[v].op !in storageOps
  {
    ids := [];
    for v := 0 to |nodes|
      invariant forall x: nat :: x in ids <==> x < v && nodes[x].op !in storageOps
    {
      if nodes[v].op !in storageOps {
        ids := ids + [v];
      }
    }
  }

  /** The nodes of the cyclic residual components are those on cycles without storage. */
  lemma {:induction false} LooseIff(nodes: seq<Node>, edges: seq<Edge>, storageOps: set<string>,
      adj: map<nat, seq<nat>>,
                   residual: seq<nat>, live: seq<seq<nat>>, x: nat)
    requires EdgesWithin(|nodes|, edges)
    requires forall v: nat :: v in adj <==> v < |nodes|
    requires forall v: nat, w | v < |nodes| :: w in adj[v] <==> (v, w) in ArcsOf(edges)
    requires forall v: nat :: v in residual <==> v < |nodes| && nodes[v].op !in storageOps
    requires forall c | c in live :: IsComponent(Restricted(adj, Elements(residual)), c) && IsCycle(c, adj)
    requires forall c, x | c in live && x in c :: x in residual
    requires forall x | OnCycle(Restricted(adj, Elements(residual)), x) && x in residual ::
               exists c :: c in live && x in c
    ensures (exists c :: c in live && x in c) <==> Loose(edges, StorageNodes(nodes, storageOps), x)
  {
    var s, g, storage := Elements(residual), Restricted(adj, Elements(residual)), StorageNodes(nodes, storageOps);
    if c :| c in live && x in c {
      IsCycleIff(c, adj, s, x);
      var es := ResidualRing(edges, x, adj, s);
      assert !Visits(es, storage);
    }
    if Loose(edges, storage, x) {
      var es: seq<Edge> :| Ring(edges, es) && es[0].producer == x && !Visits(es, storage);
      TrailUses(edges, x, es, x, edges);
      assert es[0] in es;
      TrailStaysResidual(edges, x, es, x, adj, s);
      OnCycleIff(g, x);
    }
  }

  lemma {:induction false} VerdictIff(nodes: seq<Node>, edges: seq<Edge>, storageOps: set<string>,
      adj: map<nat, seq<nat>>,
                   residual: seq<nat>, live: seq<seq<nat>>)
    requires EdgesWithin(|nodes|, edges)
    requires forall v: nat :: v in adj <==> v < |nodes|
    requires forall v: nat, w | v < |nodes| :: w in adj[v] <==> (v, w) in ArcsOf(edges)
    requires forall v: nat :: v in residual <==> v < |nodes| && nodes[v].op !in storageOps
    requires forall c | c in live :: IsComponent(Restricted(adj, Elements(residual)), c) && IsCycle(c, adj)
    requires forall c, x | c in live && x in c :: x in residual
    requires forall x | OnCycle(Restricted(adj, Elements(residual)), x) && x in residual ::
               exists c :: c in live && x in c
    ensures live == [] <==> forall es | Ring(edges, es) :: Visits(es, StorageNodes(nodes, storageOps))
  {
    var s, g, storage := Elements(residual), Restricted(adj, Elements(residual)), StorageNodes(nodes, storageOps);
    if live != [] {
      assert live[0] in live;
      var x := live[0][0];
      assert x in live[0];
      IsCycleIff(live[0], adj, s, x);
      var es := ResidualRing(edges, x, adj, s);
      assert !Visits(es, storage);
    }
    forall es: seq<Edge> | live == [] && Ring(edges, es) ensures Visits(es, storage) {
      if !Visits(es, storage) {
        TrailUses(edges, es[0].producer, es, es[0].producer, edges);
        TrailStaysResidual(edges, es[0].producer, es, es[0].producer, adj, s);
        OnCycleIff(g, es[0].producer);
      }
    }
  }
}
