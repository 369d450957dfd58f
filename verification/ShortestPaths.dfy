/**
 Shortest paths by storage stages, as `ring_depths` in bdc/emit.py computes them: Dijkstra's
 algorithm with lazy deletion, over weights that may be zero.
 */
module ShortestPaths {
  import opened Graphs
  import opened Dataflow

  type Depths = map<string, nat>

  function StagesOf(depth: Depths, e: Edge): nat {
    if e.value in depth then depth[e.value] else 0
  }

  function Stages(depth: Depths, es: seq<Edge>): nat {
    if es == [] then 0 else StagesOf(depth, es[0]) + Stages(depth, es[1..])
  }

  /** The stages of a path are those of its links, added up: none on a bare edge, each counted as often as passed. */
  lemma {:induction false} StagesAdd(depth: Depths, e: Edge, front: seq<Edge>, back: seq<Edge>)
    ensures Stages(depth, []) == 0
    ensures Stages(depth, [e]) == if e.value in depth then depth[e.value] else 0
    ensures Stages(depth, front + back) == Stages(depth, front) + Stages(depth, back)
  {
    if front == [] {
      assert front + back == back;
    } else {
      StagesAdd(depth, e, front[1..], back);
      assert (front + back)[1..] == front[1..] + back;
    }
  }

  // ---- shortest paths from one node -------------------------------------------

  /** Tentative distances, the edge each was reached by, and the priority queue. */
  datatype Paths = Paths(dist: map<nat, nat>, pred: map<nat, Edge>, queue: set<(nat, nat)>)

  /** Every node but the source was last improved by an edge from a settled node. */
  ghost predicate PathTree(edges: seq<Edge>, depth: Depths, src: nat, p: Paths, rank: map<nat, nat>) {
    && src in p.dist && p.dist[src] == 0
    && rank.Keys <= p.dist.Keys
    && forall v | v in p.dist && v != src ::
         v in p.pred && p.pred[v] in edges && p.pred[v].consumer == v && p.pred[v].producer in rank
         && p.dist[v] == p.dist[p.pred[v].producer] + StagesOf(depth, p.pred[v])
  }

  /** `rank` is the order of settling: over edges of weight zero distances alone would not order the tree. */
  ghost predicate Ranked(src: nat, p: Paths, rank: map<nat, nat>) {
    && (forall v | v in rank :: rank[v] < |rank|)
    && (forall v | v in rank && v != src ::
          v in p.pred && p.pred[v].producer in rank && rank[p.pred[v].producer] < rank[v])
  }

  /** A queue entry is no nearer than any settled node; one for a settled node is stale. */
  ghost predicate Sound(p: Paths, rank: map<nat, nat>, c: nat, v: nat)
    requires rank.Keys <= p.dist.Keys
  {
    && v in p.dist && p.dist[v] <= c
    && (v in rank ==> p.dist[v] < c)
    && (forall x | x in rank :: p.dist[x] <= c)
  }

  /** Unsettled nodes are queued at their distance, and every entry is sound. */
  ghost predicate Queued(p: Paths, rank: map<nat, nat>) {
    && rank.Keys <= p.dist.Keys
    && (forall c, v | (c, v) in p.queue :: Sound(p, rank, c, v))
    && (forall v | v in p.dist && v !in rank :: (p.dist[v], v) in p.queue)
  }

  /** No edge out of a settled node, save those still `due`, would shorten a distance. */
  ghost predicate Relaxed(edges: seq<Edge>, depth: Depths, p: Paths, rank: map<nat, nat>, due: seq<Edge>) {
    && rank.Keys <= p.dist.Keys
    && forall e | e in edges && e.producer in rank && e !in due ::
         e.consumer in p.dist && p.dist[e.consumer] <= p.dist[e.producer] + StagesOf(depth, e)
  }

  /** `u` is settled at distance `c`, the furthest so far. */
  ghost predicate Settling(p: Paths, rank: map<nat, nat>, c: nat, u: nat) {
    && u in rank && u in p.dist && p.dist[u] == c
    && rank.Keys <= p.dist.Keys
    && (forall x | x in rank :: p.dist[x] <= c)
    && (forall d, v | (d, v) in p.queue :: c <= d)
  }

  /** Offer the distance through `e`, whose producer is at distance `c`. */
  function Relax(depth: Depths, p: Paths, e: Edge, c: nat): Paths {
    var d := c + StagesOf(depth, e);
    if e.consumer !in p.dist || d < p.dist[e.consumer] then
      Paths(p.dist[e.consumer := d], p.pred[e.consumer := e], p.queue + {(d, e.consumer)})
    else p
  }

  lemma {:induction false} RelaxTree(edges: seq<Edge>, depth: Depths, src: nat, p: Paths, rank: map<nat, nat>, e: Edge,
      c: nat)
    requires PathTree(edges, depth, src, p, rank) && Settling(p, rank, c, e.producer) && e in edges
    ensures PathTree(edges, depth, src, Relax(depth, p, e, c), rank)
  {
    var q := Relax(depth, p, e, c);
    assert forall x | x in rank :: q.dist[x] == p.dist[x];
  }

  lemma {:induction false} RelaxRanked(depth: Depths, src: nat, p: Paths, rank: map<nat, nat>, e: Edge, c: nat)
    requires Ranked(src, p, rank) && Settling(p, rank, c, e.producer)
    ensures Ranked(src, Relax(depth, p, e, c), rank)
  {
  }

  lemma {:induction false} RelaxQueued(depth: Depths, p: Paths, rank: map<nat, nat>, e: Edge, c: nat)
    requires Queued(p, rank) && Settling(p, rank, c, e.producer)
    ensures Queued(Relax(depth, p, e, c), rank) && Settling(Relax(depth, p, e, c), rank, c, e.producer)
  {
    var q := Relax(depth, p, e, c);
    assert forall x | x in rank :: q.dist[x] == p.dist[x];
    forall d, v | (d, v) in q.queue ensures Sound(q, rank, d, v) {
      assert (d, v) in p.queue ==> Sound(p, rank, d, v);
    }
  }

  lemma {:induction false} RelaxRelaxed(edges: seq<Edge>, depth: Depths, p: Paths, rank: map<nat, nat>, due: seq<Edge>,
      e: Edge, c: nat)
    requires Relaxed(edges, depth, p, rank, [e] + due) && Settling(p, rank, c, e.producer)
    ensures Relaxed(edges, depth, Relax(depth, p, e, c), rank, due)
  {
    var q := Relax(depth, p, e, c);
    assert forall x | x in rank :: q.dist[x] == p.dist[x];
    forall f | f in edges && f.producer in rank && f !in due
      ensures f.consumer in q.dist && q.dist[f.consumer] <= q.dist[f.producer] + StagesOf(depth, f)
    {
      assert f != e ==> f !in [e] + due;
    }
  }

  function Unqueue(p: Paths, c: nat, u: nat): Paths {
    p.(queue := p.queue - {(c, u)})
  }

  ghost function Settle(rank: map<nat, nat>, u: nat): map<nat, nat> {
    rank[u := |rank|]
  }

  lemma {:induction false} SettleTree(edges: seq<Edge>, depth: Depths, src: nat, p: Paths, rank: map<nat, nat>, c: nat,
      u: nat)
    requires PathTree(edges, depth, src, p, rank) && Ranked(src, p, rank) && u in p.dist && u !in rank
    ensures PathTree(edges, depth, src, Unqueue(p, c, u), Settle(rank, u))
    ensures Ranked(src, Unqueue(p, c, u), Settle(rank, u))
  {
    assert u != src ==> u in p.pred && p.pred[u].producer in rank;
    SettlePaths(edges, depth, src, p, rank, c, u);
    hide PathTree;
    SettleRanked(src, p, Unqueue(p, c, u), rank, u);
  }

  lemma {:induction false} SettleRanked(src: nat, p: Paths, q: Paths, rank: map<nat, nat>, u: nat)
    requires Ranked(src, p, rank) && q.pred == p.pred && u !in rank
    requires u != src ==> u in p.pred && p.pred[u].producer in rank
    ensures Ranked(src, q, Settle(rank, u))
  {
    SettleSize(rank, u);
  }

  lemma {:induction false} SettleSize(rank: map<nat, nat>, u: nat)
    requires u !in rank
    ensures |Settle(rank, u)| == |rank| + 1
  {
    assert Settle(rank, u).Keys == rank.Keys + {u};
  }

  lemma {:induction false} SettlePaths(edges: seq<Edge>, depth: Depths, src: nat, p: Paths, rank: map<nat, nat>, c: nat,
      u: nat)
    requires PathTree(edges, depth, src, p, rank) && u in p.dist && u !in rank
    ensures PathTree(edges, depth, src, Unqueue(p, c, u), Settle(rank, u))
  {
  }

  lemma {:induction false} SettleQueued(p: Paths, rank: map<nat, nat>, c: nat, u: nat)
    requires Queued(p, rank) && u !in rank && (c, u) in p.queue && c == p.dist[u]
    requires forall d, v | (d, v) in p.queue :: c <= d
    ensures Queued(Unqueue(p, c, u), Settle(rank, u))
  {
    var q, r := Unqueue(p, c, u), Settle(rank, u);
    forall d, v | (d, v) in q.queue ensures Sound(q, r, d, v) {
      assert Sound(p, rank, d, v);
    }
  }

  lemma {:induction false} SettleSettling(p: Paths, rank: map<nat, nat>, c: nat, u: nat)
    requires Queued(p, rank) && u !in rank && (c, u) in p.queue && c == p.dist[u]
    requires forall d, v | (d, v) in p.queue :: c <= d
    ensures Settling(Unqueue(p, c, u), Settle(rank, u), c, u)
  {
  }

  lemma {:induction false} SettleRelaxed(edges: seq<Edge>, depth: Depths, p: Paths, rank: map<nat, nat>, c: nat, u: nat)
    requires Relaxed(edges, depth, p, rank, []) && u in p.dist && u !in rank
    ensures Relaxed(edges, depth, Unqueue(p, c, u), Settle(rank, u), OutEdges(edges, u))
  {
  }

  ghost predicate Shortest(edges: seq<Edge>, depth: Depths, src: nat, dist: map<nat, nat>) {
    && src in dist && dist[src] == 0
    && forall e | e in edges && e.producer in dist ::
         e.consumer in dist && dist[e.consumer] <= dist[e.producer] + StagesOf(depth, e)
  }

  /** The least queued pair: nearest first, then the lower node number. */
  method PopMin(queue: set<(nat, nat)>) returns (c: nat, u: nat)
    requires queue != {}
    ensures (c, u) in queue && forall d, v | (d, v) in queue :: c < d || (c == d && u <= v)
  {
    var rest := queue;
    var best :| best in rest;
    rest := rest - {best};
    while rest != {}
      invariant rest <= queue && best in queue
      invariant forall d, v | (d, v) in queue - rest :: best.0 < d || (best.0 == d && best.1 <= v)
      decreases rest
    {
      var x :| x in rest;
      rest := rest - {x};
      if x.0 < best.0 || (x.0 == best.0 && x.1 < best.1) {
        best := x;
      }
    }
    c, u := best.0, best.1;
  }

  /** Dijkstra's algorithm with lazy deletion, over stage counts. */
  method Dijkstra(n: nat, edges: seq<Edge>, depth: Depths, src: nat) returns (p: Paths, ghost rank: map<nat, nat>)
    requires EdgesWithin(n, edges) && src < n
    ensures Shortest(edges, depth, src, p.dist) && rank.Keys == p.dist.Keys
    ensures PathTree(edges, depth, src, p, rank) && Ranked(src, p, rank)
  {
    hide PathTree, Ranked, Queued, Relaxed;
    p, rank := Paths(map[src := 0], map[], {(0, src)}), map[];
    StartPaths(edges, depth, src);
    while p.queue != {}
      invariant PathTree(edges, depth, src, p, rank) && Ranked(src, p, rank) && Queued(p, rank)
      invariant Relaxed(edges, depth, p, rank, [])
      invariant rank.Keys <= Elements(Ids(n)) && p.dist.Keys <= Elements(Ids(n))
      decreases |Elements(Ids(n)) - rank.Keys|, |p.queue|
    {
      var c, u := PopMin(p.queue);
      QueuedKnown(p, rank, c, u);
      ghost var before := p.queue;
      if c > p.dist[u] {
        Stale(p, rank, c, u);
        UnqueueKeeps(edges, depth, src, p, rank, c, u);
        p := Unqueue(p, c, u);
        SmallerQueue(before, p.queue, (c, u));
      } else {
        SettleTree(edges, depth, src, p, rank, c, u);
        SettleQueued(p, rank, c, u);
        SettleSettling(p, rank, c, u);
        SettleRelaxed(edges, depth, p, rank, c, u);
        ghost var ranked := rank;
        p, rank := Unqueue(p, c, u), Settle(rank, u);
        OneMoreSettled(n, ranked, rank, u);
        TargetsWithin(n, edges, u);
        p := RelaxAll(n, edges, depth, src, p, rank, c, u);
      }
    }
    AllSettled(edges, depth, src, p, rank);
  }

  lemma {:induction false} SmallerQueue(before: set<(nat, nat)>, after: set<(nat, nat)>, x: (nat, nat))
    requires x in before && after == before - {x}
    ensures |after| < |before|
  {
    assert before == after + {x};
  }

  lemma {:induction false} OneMoreSettled(n: nat, before: map<nat, nat>, after: map<nat, nat>, u: nat)
    requires u < n && u !in before && after.Keys == before.Keys + {u}
    ensures |Elements(Ids(n)) - after.Keys| < |Elements(Ids(n)) - before.Keys|
  {
    var ids := Elements(Ids(n));
    assert ids - before.Keys == (ids - after.Keys) + {u};
  }

  lemma {:induction false} TargetsWithin(n: nat, edges: seq<Edge>, u: nat)
    requires EdgesWithin(n, edges)
    ensures (set e | e in OutEdges(edges, u) :: e.consumer) <= Elements(Ids(n))
  {
  }

  lemma {:induction false} StartPaths(edges: seq<Edge>, depth: Depths, src: nat)
    ensures var p := Paths(map[src := 0], map[], {(0, src)});
      && PathTree(edges, depth, src, p, map[]) && Ranked(src, p, map[]) && Queued(p, map[])
      && Relaxed(edges, depth, p, map[], [])
  {
  }

  lemma {:induction false} QueuedKnown(p: Paths, rank: map<nat, nat>, c: nat, u: nat)
    requires Queued(p, rank) && (c, u) in p.queue
    ensures u in p.dist && p.dist[u] <= c && (p.dist[u] == c ==> u !in rank)
  {
  }

  /** An entry longer than its node's distance can go: the distance was queued again when it improved. */
  lemma {:induction false} Stale(p: Paths, rank: map<nat, nat>, c: nat, u: nat)
    requires Queued(p, rank) && u in p.dist && p.dist[u] < c
    ensures Queued(Unqueue(p, c, u), rank)
  {
    var q := Unqueue(p, c, u);
    forall d, v | (d, v) in q.queue ensures Sound(q, rank, d, v) {
      assert Sound(p, rank, d, v);
    }
  }

  lemma {:induction false} UnqueueKeeps(edges: seq<Edge>, depth: Depths, src: nat, p: Paths, rank: map<nat, nat>,
      c: nat, u: nat)
    requires PathTree(edges, depth, src, p, rank) && Ranked(src, p, rank) && Relaxed(edges, depth, p, rank, [])
    ensures var q := Unqueue(p, c, u);
      PathTree(edges, depth, src, q, rank) && Ranked(src, q, rank) && Relaxed(edges, depth, q, rank, [])
  {
  }

  lemma {:induction false} AllSettled(edges: seq<Edge>, depth: Depths, src: nat, p: Paths, rank: map<nat, nat>)
    requires PathTree(edges, depth, src, p, rank) && Queued(p, rank) && Relaxed(edges, depth, p, rank, [])
    requires p.queue == {}
    ensures Shortest(edges, depth, src, p.dist) && rank.Keys == p.dist.Keys
  {
  }

  lemma {:induction false} RelaxKeys(depth: Depths, p: Paths, e: Edge, c: nat)
    ensures Relax(depth, p, e, c).dist.Keys <= p.dist.Keys + {e.consumer}
  {
  }

  /** Offer the distance through every edge out of `u`; a node settled before gains nothing. */
  method RelaxAll(n: nat, edges: seq<Edge>, depth: Depths, src: nat, p0: Paths, ghost rank: map<nat, nat>, c: nat,
      u: nat)
    returns (p: Paths)
    requires PathTree(edges, depth, src, p0, rank) && Ranked(src, p0, rank) && Queued(p0, rank)
    requires Relaxed(edges, depth, p0, rank, OutEdges(edges, u)) && Settling(p0, rank, c, u)
    ensures PathTree(edges, depth, src, p, rank) && Ranked(src, p, rank) && Queued(p, rank)
    ensures Relaxed(edges, depth, p, rank, [])
    ensures p.dist.Keys <= p0.dist.Keys + (set e | e in OutEdges(edges, u) :: e.consumer)
  {
    hide PathTree, Ranked, Queued, Relaxed, Settling;
    p := p0;
    var out := OutEdges(edges, u);
    for k := 0 to |out|
      invariant PathTree(edges, depth, src, p, rank) && Ranked(src, p, rank) && Queued(p, rank)
      invariant Relaxed(edges, depth, p, rank, out[k..]) && Settling(p, rank, c, u)
      invariant p.dist.Keys <= p0.dist.Keys + (set e | e in out :: e.consumer)
    {
      var e := out[k];
      assert out[k..] == [e] + out[k + 1..];
      RelaxTree(edges, depth, src, p, rank, e, c);
      RelaxRanked(depth, src, p, rank, e, c);
      RelaxRelaxed(edges, depth, p, rank, out[k + 1..], e, c);
      RelaxQueued(depth, p, rank, e, c);
      RelaxKeys(depth, p, e, c);
      hide Relax;
      p := Relax(depth, p, e, c);
    }
  }
}
