/**
 Where storage goes: enough links that every cycle has one (`cycle_sites` in bdc/emit.py).
 */
module Storage {
  import opened Graphs
  import opened Dataflow
  import opened Tarjan
  import opened Slack

  datatype Outcome<+T> =
    Placed(value: T) | NoUnlinkedEdge(component: seq<nat>) | NoLinkedEdge(ring: seq<Edge>) | NotConverged

  // ---- the order in which candidate edges are preferred -----------------------

  /** Edges into a loop header come first, then the alphabetically smaller value. */
  predicate Before(nodes: seq<Node>, d: Edge, e: Edge)
    requires d.consumer < |nodes| && e.consumer < |nodes|
  {
    var dHeader, eHeader := nodes[d.consumer].op in HEADER_OPS, nodes[e.consumer].op in HEADER_OPS;
    if dHeader != eHeader then dHeader else StringLess(d.value, e.value)
  }

  lemma {:induction false} BeforeTrans(nodes: seq<Node>, d: Edge, e: Edge, f: Edge)
    requires d.consumer < |nodes| && e.consumer < |nodes| && f.consumer < |nodes|
    requires Before(nodes, d, e) && Before(nodes, e, f)
    ensures Before(nodes, d, f)
  {
    if StringLess(d.value, e.value) && StringLess(e.value, f.value) {
      StringLessTrans(d.value, e.value, f.value);
    }
  }

  ghost predicate IntoHeader(nodes: seq<Node>, e: Edge) {
    e.consumer < |nodes| && nodes[e.consumer].op in {"control_merge", "merge", "mux"}
  }

  /** `e` leads into a header if any of `cand` does, and none of its likes has a smaller value. */
  ghost predicate IsPick(nodes: seq<Node>, cand: seq<Edge>, e: Edge) {
    && e in cand && (forall d | d in cand && IntoHeader(nodes, d) :: IntoHeader(nodes, e))
    && forall d | d in cand && IntoHeader(nodes, d) == IntoHeader(nodes, e) :: !StringLess(d.value, e.value)
  }

  /** The first of `cand` in that order: into a header if any is, and no smaller value among its likes. */
  method First(nodes: seq<Node>, cand: seq<Edge>) returns (pick: Edge)
    requires cand != [] && EdgesWithin(|nodes|, cand)
    ensures pick in cand && forall e | e in cand :: !Before(nodes, e, pick)
    ensures IsPick(nodes, cand, pick)
  {
    pick := cand[0];
    assert !StringLess(pick.value, pick.value) by {
      StringLessIrreflexive(pick.value);
    }
    for i := 1 to |cand|
      invariant pick in cand
      invariant forall j | 0 <= j < i :: !Before(nodes, cand[j], pick)
    {
      if Before(nodes, cand[i], pick) {
        StringLessIrreflexive(cand[i].value);
        forall j | 0 <= j < i ensures !Before(nodes, cand[j], cand[i]) {
          if Before(nodes, cand[j], cand[i]) {
            BeforeTrans(nodes, cand[j], cand[i], pick);
          }
        }
        pick := cand[i];
      }
    }
  }

  // ---- cutting every cycle ----------------------------------------------------

  /** Every cycle of `edges` passes through a loop header. */
  ghost predicate HeaderOnEveryCycle(nodes: seq<Node>, edges: seq<Edge>) {
    forall es: seq<Edge> | Ring(edges, es) ::
      exists e: Edge :: e in es && IntoHeader(nodes, e)
  }

  /** `v` names an edge on a cycle none of whose other values is in `vs`. */
  ghost predicate OnFreeCycle(edges: seq<Edge>, vs: set<string>, v: string) {
    exists es: seq<Edge> :: Ring(Without(edges, vs), es) && es[0].value == v
  }

  /** The successor lists of the edges that carry no link yet. */
  ghost predicate ResidualAdj(n: nat, edges: seq<Edge>, linked: set<string>, adj: map<nat, seq<nat>>) {
    && (forall v: nat :: v in adj <==> v < n)
    && (forall v: nat, w | v < n :: w in adj[v] <==> (v, w) in ArcsOf(Without(edges, linked)))
  }

  function Inner(edges: seq<Edge>, c: seq<nat>, linked: set<string>): (r: seq<Edge>)
    ensures forall e :: e in r <==> e in edges && e.producer in c && e.consumer in c && e.value !in linked
  {
    Inside(Without(edges, linked), c)
  }

  lemma {:induction false} ResidualGraph(n: nat, edges: seq<Edge>, linked: set<string>, adj: map<nat, seq<nat>>)
    requires EdgesWithin(n, edges) && ResidualAdj(n, edges, linked, adj)
    ensures Restricted(adj, Elements(Ids(n))) == ArcsOf(Without(edges, linked))
  {
    var g, h := Restricted(adj, Elements(Ids(n))), ArcsOf(Without(edges, linked));
    forall v: nat, w: nat ensures (v, w) in g <==> (v, w) in h {
      if (v, w) in h {
        var e :| e in Without(edges, linked) && (e.producer, e.consumer) == (v, w);
        assert v in Ids(n) && w in Ids(n);
      }
    }
  }

  /** Every node of a live component has an unlinked edge to follow inside the component, back to itself. */
  lemma {:induction false} LiveStep(edges: seq<Edge>, c: seq<nat>, x: nat) returns (e: Edge)
    requires IsComponent(ArcsOf(edges), c) && x in c && OnCycle(ArcsOf(edges), x)
    ensures e in edges && e.producer == x && e.consumer in c
  {
    var g := ArcsOf(edges);
    OnCycleIff(g, x);
    var w :| (x, w) in g && Reaches(g, w, x);
    ReachesArc(g, x, w);
    e :| e in edges && (e.producer, e.consumer) == (x, w);
  }

  /** An edge inside a component closes a ring. */
  lemma {:induction false} InnerOnRing(edges: seq<Edge>, c: seq<nat>, e: Edge) returns (es: seq<Edge>)
    requires IsComponent(ArcsOf(edges), c) && e in edges && e.producer in c && e.consumer in c
    ensures Ring(edges, es) && es[0] == e
  {
    var p :| Walk(ArcsOf(edges), e.consumer, p, e.producer);
    var back := WalkHasTrail(edges, e.consumer, p, e.producer);
    es := [e] + back;
    assert es[1..] == back;
  }

  lemma {:induction false} TrailThrough(edges: seq<Edge>, u: nat, es: seq<Edge>, v: nat, e: Edge)
    requires Trail(edges, u, es, v) && e in es
    ensures Reaches(ArcsOf(edges), u, e.producer) && Reaches(ArcsOf(edges), e.consumer, v) && e in edges
    decreases |es|
  {
    var g := ArcsOf(edges);
    if e == es[0] {
      ReachesSelf(g, u);
      TrailReaches(edges, es[0].consumer, es[1..], v);
    } else {
      TrailThrough(edges, es[0].consumer, es[1..], v, e);
      ReachesArc(g, u, es[0].consumer);
      ReachesTrans(g, u, es[0].consumer, e.producer);
    }
  }

  /** A ring through a component stays inside it. */
  lemma {:induction false} RingInside(edges: seq<Edge>, c: seq<nat>, es: seq<Edge>, e: Edge)
    requires IsComponent(ArcsOf(edges), c) && Ring(edges, es) && es[0].producer in c && e in es
    ensures e in edges && e.producer in c && e.consumer in c
  {
    var g, u := ArcsOf(edges), es[0].producer;
    TrailThrough(edges, u, es, u, e);
    ReachesArc(g, e.producer, e.consumer);
    ReachesTrans(g, e.producer, e.consumer, u);
    ReachesTrans(g, u, e.producer, e.consumer);
  }

  /** When every cycle passes a loop header, a live component has an inner edge into one. */
  lemma {:induction false} HeaderEdge(nodes: seq<Node>, edges: seq<Edge>, linked: set<string>, c: seq<nat>)
      returns (e: Edge)
    requires IsComponent(ArcsOf(Without(edges, linked)), c) && OnCycle(ArcsOf(Without(edges, linked)), c[0])
    requires HeaderOnEveryCycle(nodes, edges)
    ensures e in Inner(edges, c, linked) && IntoHeader(nodes, e)
  {
    var free := Without(edges, linked);
    var step := LiveStep(free, c, c[0]);
    var es := InnerOnRing(free, c, step);
    TrailUses(free, es[0].producer, es, es[0].producer, edges);
    assert Ring(edges, es);
    e :| e in es && IntoHeader(nodes, e);
    RingInside(free, c, es, e);
  }

  /** What a batch of picks achieves: each newly linked value lies on a cycle that was free of links. */
  ghost predicate Picked(nodes: seq<Node>, edges: seq<Edge>, before: set<string>, after: set<string>) {
    && before <= after
    && (forall v | v in after - before :: OnFreeCycle(edges, before, v))
    && (OneProducer(edges) && HeaderOnEveryCycle(nodes, edges) ==>
          forall v | v in after - before :: AtHeader(nodes, edges, v))
  }

  ghost predicate AtHeader(nodes: seq<Node>, edges: seq<Edge>, v: string) {
    exists e :: e in edges && e.value == v && IntoHeader(nodes, e)
  }

  /** The values linked since `before` come from producers in the first `k` components. */
  ghost predicate FromEarlier(edges: seq<Edge>, before: set<string>, after: set<string>, live: seq<seq<nat>>, k: nat)
    requires k <= |live|
  {
    forall e | e in edges && e.value in after - before :: exists j :: 0 <= j < k && e.producer in live[j]
  }

  ghost predicate AllLive(edges: seq<Edge>, live: seq<seq<nat>>) {
    && (forall k | 0 <= k < |live| :: IsComponent(ArcsOf(edges), live[k]) && OnCycle(ArcsOf(edges), live[k][0]))
    && (forall i, j, x | 0 <= i < j < |live| && x in live[i] :: x !in live[j])
  }

  /** With one producer per value, the picks so far leave component `k` untouched. */
  lemma {:induction false} Untouched(edges: seq<Edge>, before: set<string>, after: set<string>, live: seq<seq<nat>>,
      k: nat, e: Edge)
    requires k < |live| && FromEarlier(edges, before, after, live, k) && AllLive(Without(edges, before), live)
    requires e in Inner(edges, live[k], before)
    ensures e in Inner(edges, live[k], after)
  {
    assert forall j | 0 <= j < k :: e.producer !in live[j];
  }

  /** From `before` to `after` one edge was linked in each of the first `k` components: the pick of those left. */
  ghost predicate OneEach(nodes: seq<Node>, edges: seq<Edge>, live: seq<seq<nat>>, k: nat, before: set<string>,
      after: set<string>)
    requires k <= |live|
    decreases k
  {
    if k == 0 then after == before
    else exists mid, e ::
      OneEach(nodes, edges, live, k - 1, before, mid) && IsPick(nodes, Inner(edges, live[k - 1], mid), e)
        && after == mid + {e.value}
  }

  /** Every node that is on a cycle without links is in some component of `live`. */
  ghost predicate Covered(edges: seq<Edge>, linked: set<string>, live: seq<seq<nat>>) {
    forall x | OnCycle(ArcsOf(Without(edges, linked)), x) :: exists c :: c in live && x in c
  }

  /** From `before` to `after` one edge was linked in each component that the links so far leave cyclic. */
  ghost predicate Batch(nodes: seq<Node>, edges: seq<Edge>, before: set<string>, after: set<string>) {
    exists live :: live != [] && AllLive(Without(edges, before), live) && Covered(edges, before, live)
      && OneEach(nodes, edges, live, |live|, before, after)
  }

  ghost predicate Batches(nodes: seq<Node>, edges: seq<Edge>, steps: seq<set<string>>)
    decreases |steps|
  {
    var n := |steps|;
    n > 0 && (n > 1 ==> Batch(nodes, edges, steps[n - 2], steps[n - 1]) && Batches(nodes, edges, steps[..n - 1]))
  }

  /** `after` comes from `before` by such batches, and by nothing else. */
  ghost predicate InBatches(nodes: seq<Node>, edges: seq<Edge>, before: set<string>, after: set<string>) {
    exists steps :: Batches(nodes, edges, steps) && steps[0] == before && steps[|steps| - 1] == after
  }

  lemma {:induction false} NoBatch(nodes: seq<Node>, edges: seq<Edge>, linked: set<string>)
    ensures InBatches(nodes, edges, linked, linked)
  {
    assert Batches(nodes, edges, [linked]);
  }

  lemma {:induction false} OneMoreBatch(nodes: seq<Node>, edges: seq<Edge>, before: set<string>, linked: set<string>,
      more: set<string>)
    requires InBatches(nodes, edges, before, linked) && Batch(nodes, edges, linked, more)
    ensures InBatches(nodes, edges, before, more)
  {
    hide Batch;
    var steps :| Batches(nodes, edges, steps) && steps[0] == before && steps[|steps| - 1] == linked;
    var now := steps + [more];
    assert now[..|now| - 1] == steps;
    assert Batches(nodes, edges, now);
  }

  lemma {:induction false} NothingEach(nodes: seq<Node>, edges: seq<Edge>, live: seq<seq<nat>>, before: set<string>)
    ensures OneEach(nodes, edges, live, 0, before, before)
  {
  }

  lemma {:induction false} OneMorePick(nodes: seq<Node>, edges: seq<Edge>, live: seq<seq<nat>>, k: nat,
      before: set<string>, mid: set<string>, e: Edge)
    requires k < |live| && OneEach(nodes, edges, live, k, before, mid)
    requires IsPick(nodes, Inner(edges, live[k], mid), e)
    ensures OneEach(nodes, edges, live, k + 1, before, mid + {e.value})
  {
    hide IsPick;
  }

  /** Link one edge in each of the live components, in turn. */
  method CutEach(nodes: seq<Node>, edges: seq<Edge>, live: seq<seq<nat>>, before: set<string>)
      returns (r: Outcome<set<string>>)
    requires EdgesWithin(|nodes|, edges) && AllLive(Without(edges, before), live)
    ensures r.Placed? ==> Picked(nodes, edges, before, r.value)
    ensures r.Placed? && live != [] ==> exists e :: e in edges && e.value in r.value - before
    ensures r.Placed? ==> before <= r.value && OneEach(nodes, edges, live, |live|, before, r.value)
    ensures r.Placed? || r.NoUnlinkedEdge?
    ensures OneProducer(edges) ==> r.Placed?
  {
    hide IsComponent, HeaderOnEveryCycle, OneProducer, AllLive, OnFreeCycle, Picked, FromEarlier, OneEach, IsPick;
    var linked := before;
    assert OneEach(nodes, edges, live, 0, before, before) by {
      NothingEach(nodes, edges, live, before);
    }
    NothingPicked(nodes, edges, before, live);
    for k := 0 to |live|
      invariant Picked(nodes, edges, before, linked) && before <= linked
      invariant OneEach(nodes, edges, live, k, before, linked)
      invariant OneProducer(edges) ==> FromEarlier(edges, before, linked, live, k)
      invariant k > 0 ==> exists e :: e in edges && e.value in linked - before
    {
      var cand := Inner(edges, live[k], linked);
      CandidatesRemain(nodes, edges, before, linked, live, k);
      if cand == [] {
        return NoUnlinkedEdge(live[k]);
      }
      var pick := First(nodes, cand);
      PickIsFree(edges, before, live, k, pick);
      PickedMore(nodes, edges, before, linked, pick);
      OneMorePick(nodes, edges, live, k, before, linked, pick);
      linked := linked + {pick.value};
      PickFromHere(edges, before, linked, live, k, pick);
    }
    return Placed(linked);
  }

  lemma {:induction false} CandidatesRemain(nodes: seq<Node>, edges: seq<Edge>, before: set<string>,
      linked: set<string>, live: seq<seq<nat>>, k: nat)
    requires AllLive(Without(edges, before), live) && k < |live|
    requires OneProducer(edges) ==> FromEarlier(edges, before, linked, live, k)
    ensures OneProducer(edges) ==> Inner(edges, live[k], linked) != []
    ensures OneProducer(edges) && HeaderOnEveryCycle(nodes, edges) ==>
              exists e :: e in Inner(edges, live[k], linked) && IntoHeader(nodes, e)
  {
    if OneProducer(edges) {
      var step := LiveStep(Without(edges, before), live[k], live[k][0]);
      Untouched(edges, before, linked, live, k, step);
      if HeaderOnEveryCycle(nodes, edges) {
        var e := HeaderEdge(nodes, edges, before, live[k]);
        Untouched(edges, before, linked, live, k, e);
      }
    }
  }

  lemma {:induction false} PickIsFree(edges: seq<Edge>, before: set<string>, live: seq<seq<nat>>, k: nat, pick: Edge)
    requires AllLive(Without(edges, before), live) && k < |live|
    requires pick in edges && pick.producer in live[k] && pick.consumer in live[k] && pick.value !in before
    ensures OnFreeCycle(edges, before, pick.value)
  {
    var es := InnerOnRing(Without(edges, before), live[k], pick);
  }

  lemma {:induction false} NothingPicked(nodes: seq<Node>, edges: seq<Edge>, before: set<string>, live: seq<seq<nat>>)
    ensures Picked(nodes, edges, before, before) && FromEarlier(edges, before, before, live, 0)
  {
  }

  lemma {:induction false} PickedMore(nodes: seq<Node>, edges: seq<Edge>, before: set<string>, linked: set<string>,
      pick: Edge)
    requires Picked(nodes, edges, before, linked) && pick in edges && OnFreeCycle(edges, before, pick.value)
    requires OneProducer(edges) && HeaderOnEveryCycle(nodes, edges) ==> IntoHeader(nodes, pick)
    ensures Picked(nodes, edges, before, linked + {pick.value})
  {
    hide OnFreeCycle, OneProducer, HeaderOnEveryCycle;
    assert OneProducer(edges) && HeaderOnEveryCycle(nodes, edges) ==> AtHeader(nodes, edges, pick.value);
  }

  lemma {:induction false} PickFromHere(edges: seq<Edge>, before: set<string>, after: set<string>, live: seq<seq<nat>>,
      k: nat, pick: Edge)
    requires k < |live| && pick in edges && pick.producer in live[k]
    requires OneProducer(edges) ==> FromEarlier(edges, before, after - {pick.value}, live, k)
    ensures OneProducer(edges) ==> FromEarlier(edges, before, after, live, k + 1)
  {
    if OneProducer(edges) {
      forall e | e in edges && e.value in after - before ensures exists j :: 0 <= j < k + 1 && e.producer in live[j] {
        if e.value != pick.value {
          var j :| 0 <= j < k && e.producer in live[j];
        }
      }
    }
  }

  /**
   Batches of links, one in each component that the links so far leave cyclic, until they leave none.
   The values of `exclude` are wires that are never drawn.
   */
  method CycleSites(nodes: seq<Node>, allEdges: seq<Edge>, already: set<string>, exclude: set<string>)
    returns (r: Outcome<set<string>>)
    requires EdgesWithin(|nodes|, allEdges)
    ensures r.Placed? ==> Acyclic(ArcsOf(Without(Without(allEdges, exclude), already + r.value)))
    ensures r.Placed? ==> Picked(nodes, Without(allEdges, exclude), already, already + r.value) && already !! r.value
    ensures r.Placed? ==> InBatches(nodes, Without(allEdges, exclude), already, already + r.value)
    ensures r.Placed? || r.NoUnlinkedEdge?
    ensures OneProducer(Without(allEdges, exclude)) ==> r.Placed?
  {
    hide Picked, OneProducer, AllLive, Acyclic, ArcsOf, Without, InBatches, OneEach, Covered;
    var edges := Without(allEdges, exclude);
    var linked := already;
    NothingPicked(nodes, edges, already, []);
    NoBatch(nodes, edges, already);
    EdgesStayWithin(|nodes|, allEdges, exclude);
    while true
      invariant Picked(nodes, edges, already, linked) && already <= linked
      invariant InBatches(nodes, edges, already, linked)
      decreases |Values(edges) - linked|
    {
      var live := StillCyclic(|nodes|, edges, linked);
      if live == [] {
        assert already + (linked - already) == linked;
        return Placed(linked - already);
      }
      var cut := CutEach(nodes, edges, live, linked);
      if !cut.Placed? {
        return NoUnlinkedEdge(cut.component);
      }
      PickedTrans(nodes, edges, already, linked, cut.value);
      OneMoreBatch(nodes, edges, already, linked, cut.value);
      Progress(edges, linked, cut.value);
      linked := cut.value;
    }
  }

  lemma {:induction false} EdgesStayWithin(n: nat, edges: seq<Edge>, vs: set<string>)
    requires EdgesWithin(n, edges)
    ensures EdgesWithin(n, Without(edges, vs))
  {
  }

  /** The cyclic components of the graph once every edge with a link is taken away. */
  method StillCyclic(n: nat, edges: seq<Edge>, linked: set<string>) returns (live: seq<seq<nat>>)
    requires EdgesWithin(n, edges)
    ensures AllLive(Without(edges, linked), live) && Covered(edges, linked, live)
    ensures live == [] ==> Acyclic(ArcsOf(Without(edges, linked)))
  {
    hide IsComponent, Restricted, AllLive, IsCycle, Acyclic, OnCycle, Covered;
    var adj := Adjacency(n, Without(edges, linked));
    ResidualGraph(n, edges, linked, adj);
    live := LiveComponents(Ids(n), adj);
    LiveAreLive(n, edges, linked, adj, live);
  }

  ghost function Values(edges: seq<Edge>): set<string> {
    set e | e in edges :: e.value
  }

  lemma {:induction false} Progress(edges: seq<Edge>, before: set<string>, after: set<string>)
    requires before <= after && exists e :: e in edges && e.value in after - before
    ensures |Values(edges) - after| < |Values(edges) - before|
  {
    var e :| e in edges && e.value in after - before;
    var rest := Values(edges) - before - {e.value};
    assert Values(edges) - before == rest + {e.value};
    assert rest == (Values(edges) - after) + (rest - (Values(edges) - after));
  }

  lemma {:induction false} FreeCycleShrinks(edges: seq<Edge>, fewer: set<string>, more: set<string>, v: string)
    requires fewer <= more && OnFreeCycle(edges, more, v)
    ensures OnFreeCycle(edges, fewer, v)
  {
    var es: seq<Edge> :| Ring(Without(edges, more), es) && es[0].value == v;
    TrailUses(Without(edges, more), es[0].producer, es, es[0].producer, Without(edges, fewer));
  }

  lemma {:induction false} PickedTrans(nodes: seq<Node>, edges: seq<Edge>, a: set<string>, b: set<string>,
      c: set<string>)
    requires Picked(nodes, edges, a, b) && Picked(nodes, edges, b, c)
    ensures Picked(nodes, edges, a, c)
  {
    hide OnFreeCycle, OneProducer, HeaderOnEveryCycle, AtHeader;
    forall v | v in c - a ensures OnFreeCycle(edges, a, v) {
      if v !in b {
        FreeCycleShrinks(edges, a, b, v);
      }
    }
  }

  lemma {:induction false} LiveAreLive(n: nat, edges: seq<Edge>, linked: set<string>, adj: map<nat, seq<nat>>,
      live: seq<seq<nat>>)
    requires EdgesWithin(n, edges)
    requires Restricted(adj, Elements(Ids(n))) == ArcsOf(Without(edges, linked))
    requires forall c | c in live :: IsComponent(Restricted(adj, Elements(Ids(n))), c) && IsCycle(c, adj)
    requires forall c, x | c in live && x in c :: x in Ids(n)
    requires forall i, j, x | 0 <= i < j < |live| && x in live[i] :: x !in live[j]
    requires forall x | OnCycle(Restricted(adj, Elements(Ids(n))), x) && x in Ids(n) :: exists c :: c in live && x in c
    ensures AllLive(Without(edges, linked), live) && Covered(edges, linked, live)
    ensures live == [] ==> Acyclic(ArcsOf(Without(edges, linked)))
  {
    hide Restricted, IsCycle;
    var g := ArcsOf(Without(edges, linked));
    forall k | 0 <= k < |live| ensures IsComponent(g, live[k]) && OnCycle(g, live[k][0]) {
      assert live[k] in live;
      assert live[k][0] in live[k];
      IsCycleIff(live[k], adj, Elements(Ids(n)), live[k][0]);
    }
    forall u | OnCycle(g, u) ensures live != [] {
      OnCycleIff(g, u);
      var v :| (u, v) in g && Reaches(g, v, u);
      assert u in Ids(n);
    }
  }
}
