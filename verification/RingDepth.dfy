/**
 How deep each link has to be: find the lightest cycle, deepen one link on it, repeat
 (`ring_depths` in bdc/emit.py).
 */
module RingDepth {
  import opened Graphs
  import opened Dataflow
  import opened Storage
  import opened ShortestPaths

  /** Fewer stages than this and a token cannot go round. */
  const RING_MIN_STAGES: nat := 3

  // ---- what a shortest-path tree says about trails ----------------------------

  lemma {:induction false} ShortestBounds(edges: seq<Edge>, depth: Depths, src: nat, dist: map<nat, nat>, u: nat,
      es: seq<Edge>, v: nat)
    requires Shortest(edges, depth, src, dist) && u in dist && Trail(edges, u, es, v)
    ensures v in dist && dist[v] <= dist[u] + Stages(depth, es)
    decreases |es|
  {
    if es != [] {
      ShortestBounds(edges, depth, src, dist, es[0].consumer, es[1..], v);
    }
  }

  function Reverse(es: seq<Edge>): (r: seq<Edge>)
    ensures |r| == |es| && forall e :: e in r <==> e in es
  {
    if es == [] then [] else [es[|es| - 1]] + Reverse(es[..|es| - 1])
  }

  /** The ring in the direction it is travelled: its first edge, then the way back the search traced backwards. */
  ghost function Unwound(ring: seq<Edge>): seq<Edge>
    requires ring != []
  {
    [ring[0]] + Reverse(ring[1..])
  }

  /** No node is passed twice. */
  ghost predicate Simple(ring: seq<Edge>) {
    forall i, j | 0 <= i < j < |ring| :: ring[i].producer != ring[j].producer
  }

  /** `ring` is a simple cycle of weight `w`. */
  ghost predicate IsRing(edges: seq<Edge>, depth: Depths, w: nat, ring: seq<Edge>) {
    ring != [] && Simple(ring) && Ring(edges, Unwound(ring)) && Stages(depth, Unwound(ring)) == w
  }

  /** ... and no cycle of any length is lighter. */
  ghost predicate Lightest(edges: seq<Edge>, depth: Depths, w: nat, ring: seq<Edge>) {
    IsRing(edges, depth, w, ring) && forall es | Ring(edges, es) :: w <= Stages(depth, es)
  }

  /** Follow the predecessor edges from `u` back to the source `v`. */
  method WayBack(edges: seq<Edge>, depth: Depths, p: Paths, ghost rank: map<nat, nat>, v: nat, u: nat)
      returns (path: seq<Edge>)
    requires PathTree(edges, depth, v, p, rank) && Ranked(v, p, rank) && rank.Keys == p.dist.Keys && u in p.dist
    ensures Trail(edges, v, Reverse(path), u) && Stages(depth, Reverse(path)) == p.dist[u]
    ensures Simple(path) && forall e | e in path :: e.producer != u
  {
    path := [];
    var at := u;
    while at != v
      invariant at in p.dist && Trail(edges, at, Reverse(path), u)
      invariant p.dist[u] == p.dist[at] + Stages(depth, Reverse(path))
      invariant forall i | 0 <= i < |path| :: path[i].producer in rank && rank[at] <= rank[path[i].producer] < rank[u]
      invariant forall i, j | 0 <= i < j < |path| :: rank[path[j].producer] < rank[path[i].producer]
      invariant path == [] ==> at == u
      invariant path != [] ==> at == path[|path| - 1].producer
      decreases rank[at]
    {
      var pe := p.pred[at];
      ghost var before := path;
      path := path + [pe];
      assert path[..|path| - 1] == before;
      assert Reverse(path) == [pe] + Reverse(before);
      assert Reverse(path)[1..] == Reverse(before);
      at := pe.producer;
    }
  }

  datatype Found = Found(weight: nat, ring: seq<Edge>)

  function Insert(s: string, ss: seq<string>): seq<string> {
    if ss == [] || StringLess(s, ss[0]) then [s] + ss else [ss[0]] + Insert(s, ss[1..])
  }

  /** The values round a ring, sorted: what breaks a tie between rings of the same weight. */
  function Names(ring: seq<Edge>): seq<string> {
    if ring == [] then [] else Insert(ring[0].value, Names(ring[1..]))
  }

  predicate NamesLess(a: seq<string>, b: seq<string>) {
    if b == [] then false
    else if a == [] then true
    else StringLess(a[0], b[0]) || (a[0] == b[0] && NamesLess(a[1..], b[1..]))
  }

  /** The values round a ring, in order. */
  ghost function ValuesAlong(ring: seq<Edge>): seq<string> {
    seq(|ring|, i requires 0 <= i < |ring| => ring[i].value)
  }

  ghost predicate Alphabetical(ss: seq<string>) {
    forall i, j | 0 <= i < j < |ss| :: !StringLess(ss[j], ss[i])
  }

  /** The names of a ring are its values, sorted. */
  lemma {:induction false} NamesAre(ring: seq<Edge>)
    ensures multiset(Names(ring)) == multiset(ValuesAlong(ring)) && Alphabetical(Names(ring))
  {
    if ring != [] {
      NamesAre(ring[1..]);
      assert ValuesAlong(ring) == [ring[0].value] + ValuesAlong(ring[1..]);
      hide ValuesAlong, Alphabetical;
      InsertSorted(ring[0].value, Names(ring[1..]));
    }
  }

  lemma {:induction false} Prepended(s: string, ss: seq<string>)
    requires Alphabetical(ss) && forall j | 0 <= j < |ss| :: !StringLess(ss[j], s)
    ensures Alphabetical([s] + ss) && multiset([s] + ss) == multiset{s} + multiset(ss)
  {
    hide StringLess;
  }

  lemma {:induction false} InsertElements(s: string, ss: seq<string>)
    ensures multiset(Insert(s, ss)) == multiset(ss) + multiset{s}
  {
    if ss != [] {
      assert ss == [ss[0]] + ss[1..];
      InsertElements(s, ss[1..]);
      hide StringLess;
    }
  }

  /** What is smaller than the first is smaller than all. */
  lemma {:induction false} AllAbove(s: string, ss: seq<string>, j: nat)
    requires Alphabetical(ss) && j < |ss| && StringLess(s, ss[0])
    ensures !StringLess(ss[j], s)
  {
    if StringLess(ss[j], s) {
      StringLessTrans(ss[j], s, ss[0]);
      StringLessIrreflexive(ss[0]);
    }
    hide StringLess;
  }

  lemma {:induction false} InsertSorted(s: string, ss: seq<string>)
    requires Alphabetical(ss)
    ensures multiset(Insert(s, ss)) == multiset(ss) + multiset{s} && Alphabetical(Insert(s, ss))
  {
    hide StringLess;
    InsertElements(s, ss);
    if ss != [] && StringLess(s, ss[0]) {
      forall j | 0 <= j < |ss| ensures !StringLess(ss[j], s) {
        AllAbove(s, ss, j);
      }
      hide Alphabetical;
      Prepended(s, ss);
    } else if ss != [] {
      InsertSorted(s, ss[1..]);
      var rest := Insert(s, ss[1..]);
      InsertElements(s, ss[1..]);
      assert Insert(s, ss) == [ss[0]] + rest;
      hide Insert;
      forall j | 0 <= j < |rest| ensures !StringLess(rest[j], ss[0]) {
        assert rest[j] in multiset(rest);
        assert rest[j] == s || rest[j] in ss[1..];
      }
      hide Alphabetical;
      Prepended(ss[0], rest);
    }
  }

  /** They agree before place `k`, where `a` has ended or has the smaller name. */
  ghost predicate NamesLessAt(a: seq<string>, b: seq<string>, k: nat) {
    k <= |a| && k < |b| && a[..k] == b[..k] && (k == |a| || StringLess(a[k], b[k]))
  }

  lemma {:induction false} NamesLessIff(a: seq<string>, b: seq<string>)
    ensures NamesLess(a, b) <==> exists k: nat :: NamesLessAt(a, b, k)
  {
    if b != [] && (a == [] || StringLess(a[0], b[0])) {
      assert NamesLessAt(a, b, 0);
    } else if a != [] && b != [] {
      NamesLessIff(a[1..], b[1..]);
      if k: nat :| NamesLessAt(a[1..], b[1..], k) {
        SamePrefix(a, b, k + 1);
        assert a[0] == b[0] ==> NamesLessAt(a, b, k + 1);
      }
      if k: nat :| NamesLessAt(a, b, k) && a[0] == b[0] {
        SamePrefix(a, b, k);
        assert NamesLessAt(a[1..], b[1..], k - 1);
      }
    }
  }

  lemma {:induction false} NamesLessTrans(a: seq<string>, b: seq<string>, c: seq<string>)
    requires NamesLess(a, b) && NamesLess(b, c)
    ensures NamesLess(a, c)
  {
    if a != [] {
      if StringLess(a[0], b[0]) && StringLess(b[0], c[0]) {
        StringLessTrans(a[0], b[0], c[0]);
      } else if a[0] == b[0] && b[0] == c[0] && !StringLess(a[0], c[0]) {
        StringLessIrreflexive(a[0]);
        NamesLessTrans(a[1..], b[1..], c[1..]);
      }
    }
  }

  lemma {:induction false} NamesLessIrreflexive(a: seq<string>)
    ensures !NamesLess(a, a)
  {
    if a != [] {
      StringLessIrreflexive(a[0]);
      NamesLessIrreflexive(a[1..]);
    }
  }

  lemma {:induction false} ImprovesTrans(f: Found, g: Found, best: Option<Found>)
    requires Improves(f, Some(g)) && Improves(g, best)
    ensures Improves(f, best)
  {
    if best.Some? && f.weight == g.weight == best.value.weight {
      NamesLessTrans(Names(f.ring), Names(g.ring), Names(best.value.ring));
    }
  }

  lemma {:induction false} ImprovesIrreflexive(f: Found)
    ensures !Improves(f, Some(f))
  {
    NamesLessIrreflexive(Names(f.ring));
  }

  /** Lighter, or as light with alphabetically smaller names. */
  predicate Improves(f: Found, best: Option<Found>) {
    best.None? || f.weight < best.value.weight
    || (f.weight == best.value.weight && NamesLess(Names(f.ring), Names(best.value.ring)))
  }

  /** No ring that sets out over `e` is lighter than what was found. */
  ghost predicate Bounds(edges: seq<Edge>, depth: Depths, best: Option<Found>, e: Edge) {
    forall es: seq<Edge> | Ring(edges, es) && es[0] == e :: best.Some? && best.value.weight <= Stages(depth, es)
  }

  ghost predicate Genuine(edges: seq<Edge>, depth: Depths, best: Option<Found>) {
    best.Some? ==> IsRing(edges, depth, best.value.weight, best.value.ring)
  }

  /** The edge `e`, then the shortest way back from its consumer to its producer. */
  method CloseRing(n: nat, edges: seq<Edge>, depth: Depths, e: Edge) returns (r: Option<Found>)
    requires EdgesWithin(n, edges) && e in edges
    ensures Genuine(edges, depth, r) && Bounds(edges, depth, r, e)
    ensures r.Some? ==> r.value.ring != [] && r.value.ring[0] == e
  {
    hide PathTree, Ranked, Shortest;
    var u, v, w := e.producer, e.consumer, StagesOf(depth, e);
    if v == u {
      SelfRing(edges, depth, e);
      return Some(Found(w, [e]));
    }
    var p, rank := Dijkstra(n, edges, depth, v);
    WayBackBounds(edges, depth, v, p.dist, e);
    if u !in p.dist {
      return None;
    }
    var path := WayBack(edges, depth, p, rank, v, u);
    RingFromPath(edges, depth, e, path, p.dist[u]);
    return Some(Found(w + p.dist[u], [e] + path));
  }

  lemma {:induction false} SelfRing(edges: seq<Edge>, depth: Depths, e: Edge)
    requires e in edges && e.producer == e.consumer
    ensures IsRing(edges, depth, StagesOf(depth, e), [e])
    ensures Bounds(edges, depth, Some(Found(StagesOf(depth, e), [e])), e)
  {
    assert Trail(edges, e.consumer, [], e.producer);
    assert [e][1..] == [];
    assert Unwound([e]) == [e];
  }

  lemma {:induction false} WayBackBounds(edges: seq<Edge>, depth: Depths, v: nat, dist: map<nat, nat>, e: Edge)
    requires Shortest(edges, depth, v, dist) && e.consumer == v
    ensures forall es: seq<Edge> | Ring(edges, es) && es[0] == e ::
              e.producer in dist && StagesOf(depth, e) + dist[e.producer] <= Stages(depth, es)
  {
    forall es: seq<Edge> | Ring(edges, es) && es[0] == e
      ensures e.producer in dist && StagesOf(depth, e) + dist[e.producer] <= Stages(depth, es)
    {
      ShortestBounds(edges, depth, v, dist, v, es[1..], e.producer);
    }
  }

  lemma {:induction false} RingFromPath(edges: seq<Edge>, depth: Depths, e: Edge, path: seq<Edge>, back: nat)
    requires e in edges && Trail(edges, e.consumer, Reverse(path), e.producer) && Stages(depth, Reverse(path)) == back
    requires Simple(path) && forall f | f in path :: f.producer != e.producer
    ensures IsRing(edges, depth, StagesOf(depth, e) + back, [e] + path)
  {
    var ring := [e] + path;
    assert ring[1..] == path;
    assert Unwound(ring)[1..] == Reverse(path);
    assert forall j | 0 < j < |ring| :: ring[j] == path[j - 1];
  }

  /** A cycle that sets out over an edge and is as light as any that does. */
  ghost predicate Candidate(edges: seq<Edge>, depth: Depths, f: Found) {
    && IsRing(edges, depth, f.weight, f.ring) && f.ring[0] in edges
    && forall es: seq<Edge> | Ring(edges, es) && es[0] == f.ring[0] :: f.weight <= Stages(depth, es)
  }

  ghost predicate HasCandidate(cands: seq<Found>, edges: seq<Edge>, e: Edge) {
    (exists es: seq<Edge> :: Ring(edges, es) && es[0] == e) ==> exists f :: f in cands && f.ring != [] && f.ring[0] == e
  }

  /** `best` is among the candidates, and none of them is lighter, or as light with smaller names. */
  ghost predicate LeastOf(cands: seq<Found>, best: Option<Found>) {
    match best
    case None => cands == []
    case Some(b) =>
      b in cands && forall f | f in cands ::
        b.weight < f.weight || (b.weight == f.weight && !NamesLess(Names(f.ring), Names(b.ring)))
  }

  /** `best` is least among cycles of which there is one over each edge that is on a cycle. */
  ghost predicate Chosen(edges: seq<Edge>, depth: Depths, best: Option<Found>) {
    exists cands ::
      AllCandidates(edges, depth, cands) && (forall e | e in edges :: HasCandidate(cands, edges, e))
        && LeastOf(cands, best)
  }

  /** One candidate more. */
  lemma {:induction false} OneMoreCandidate(edges: seq<Edge>, depth: Depths, cands: seq<Found>, best: Option<Found>,
      r: Option<Found>, e: Edge)
    requires LeastOf(cands, best) && Bounds(edges, depth, r, e)
    ensures var more, now := if r.Some? then cands + [r.value] else cands,
                             if r.Some? && Improves(r.value, best) then r else best;
            && LeastOf(more, now)
            && (r.Some? && r.value.ring != [] && r.value.ring[0] == e ==> HasCandidate(more, edges, e))
            && (r.None? ==> HasCandidate(more, edges, e))
            && forall d | HasCandidate(cands, edges, d) :: HasCandidate(more, edges, d)
  {
    if r.Some? {
      var f := r.value;
      ImprovesIrreflexive(f);
      if Improves(f, best) {
        forall g | g in cands ensures !Improves(g, r) {
          if Improves(g, r) {
            ImprovesTrans(g, f, best);
          }
        }
      }
    }
  }

  ghost predicate AllCandidates(edges: seq<Edge>, depth: Depths, cands: seq<Found>) {
    forall f | f in cands :: Candidate(edges, depth, f)
  }

  lemma {:induction false} NoCandidates()
    ensures LeastOf([], None)
  {
  }

  lemma {:induction false} IsCandidate(edges: seq<Edge>, depth: Depths, r: Option<Found>, e: Edge)
    requires r.Some? && Genuine(edges, depth, r) && Bounds(edges, depth, r, e) && e in edges
    requires r.value.ring != [] && r.value.ring[0] == e
    ensures Candidate(edges, depth, r.value)
  {
    hide IsRing;
  }

  /** A lightest cycle of the whole graph, if it has a cycle at all. */
  method LightestCycle(n: nat, edges: seq<Edge>, depth: Depths) returns (best: Option<Found>)
    requires EdgesWithin(n, edges)
    ensures Chosen(edges, depth, best)
    ensures best.None? ==> forall es :: !Ring(edges, es)
    ensures best.Some? ==> Lightest(edges, depth, best.value.weight, best.value.ring)
  {
    hide Bounds, IsRing, Candidate, HasCandidate, LeastOf;
    best := None;
    ghost var cands := [];
    assert LeastOf(cands, best) by {
      NoCandidates();
    }
    for u := 0 to n
      invariant Genuine(edges, depth, best) && LeastOf(cands, best) && AllCandidates(edges, depth, cands)
      invariant forall e | e in edges && e.producer < u ::
          Bounds(edges, depth, best, e) && HasCandidate(cands, edges, e)
    {
      var out := OutEdges(edges, u);
      for k := 0 to |out|
        invariant Genuine(edges, depth, best) && LeastOf(cands, best) && AllCandidates(edges, depth, cands)
        invariant forall e | e in edges && e.producer < u ::
            Bounds(edges, depth, best, e) && HasCandidate(cands, edges, e)
        invariant forall i | 0 <= i < k :: Bounds(edges, depth, best, out[i]) && HasCandidate(cands, edges, out[i])
      {
        assert out[k] in out;
        var f := CloseRing(n, edges, depth, out[k]);
        BestBounds(edges, depth, best, f);
        OneMoreCandidate(edges, depth, cands, best, f, out[k]);
        if f.Some? {
          IsCandidate(edges, depth, f, out[k]);
          cands := cands + [f.value];
        }
        if f.Some? && Improves(f.value, best) {
          best := f;
        }
      }
    }
    AllBounded(n, edges, depth, best);
  }

  /** Whichever of two candidates wins, it bounds what either bounded. */
  lemma {:induction false} BestBounds(edges: seq<Edge>, depth: Depths, best: Option<Found>, f: Option<Found>)
    ensures var now := if f.Some? && Improves(f.value, best) then f else best;
      forall e | Bounds(edges, depth, best, e) || Bounds(edges, depth, f, e) :: Bounds(edges, depth, now, e)
  {
    var now := if f.Some? && Improves(f.value, best) then f else best;
    forall e | Bounds(edges, depth, best, e) || Bounds(edges, depth, f, e) ensures Bounds(edges, depth, now, e) {
      forall es: seq<Edge> | Ring(edges, es) && es[0] == e ensures now.Some? && now.value.weight <= Stages(depth, es) {
      }
    }
  }

  lemma {:induction false} AllBounded(n: nat, edges: seq<Edge>, depth: Depths, best: Option<Found>)
    requires EdgesWithin(n, edges) && forall e | e in edges && e.producer < n :: Bounds(edges, depth, best, e)
    ensures forall es | Ring(edges, es) :: best.Some? && best.value.weight <= Stages(depth, es)
  {
    forall es: seq<Edge> | Ring(edges, es) ensures best.Some? && best.value.weight <= Stages(depth, es) {
      assert es[0] in edges;
      assert Bounds(edges, depth, best, es[0]);
    }
  }

  // ---- deepening ----------------------------------------------------------------

  function Deepen(depth: Depths, v: string, k: nat): Depths
    requires v in depth
  {
    depth[v := depth[v] + k]
  }

  /** Deepening `v` by `k` adds at least `k` to every trail through it, and takes from none. */
  lemma {:induction false} DeepenAdds(depth: Depths, v: string, k: nat, es: seq<Edge>)
    requires v in depth
    ensures Stages(depth, es) <= Stages(Deepen(depth, v, k), es)
    ensures (exists e :: e in es && e.value == v) ==> Stages(depth, es) + k <= Stages(Deepen(depth, v, k), es)
  {
    if es != [] {
      DeepenAdds(depth, v, k, es[1..]);
      if e :| e in es && e.value == v {
        assert e == es[0] || e in es[1..];
      }
    }
  }

  /** Every cycle through the value `v` has enough stages. */
  ghost predicate Lifted(edges: seq<Edge>, depth: Depths, v: string) {
    forall es, e: Edge | Ring(edges, es) && e in es && e.value == v :: RING_MIN_STAGES <= Stages(depth, es)
  }

  /** Every cycle has enough stages. */
  ghost predicate Floor(edges: seq<Edge>, depth: Depths) {
    forall es | Ring(edges, es) :: RING_MIN_STAGES <= Stages(depth, es)
  }

  /** Every cycle has a link on it. */
  ghost predicate LinkOnEveryCycle(edges: seq<Edge>, linked: set<string>) {
    forall es | Ring(edges, es) :: exists e: Edge :: e in es && e.value in linked
  }

  /**
   The key step: because the cycle being deepened is the lightest, adding what it lacks lifts every
   cycle through the chosen link to the floor, and cycles lifted before stay lifted.
   */
  lemma {:induction false} DeepenLifts(edges: seq<Edge>, depth: Depths, w: nat, ring: seq<Edge>, pick: Edge)
    requires Lightest(edges, depth, w, ring) && w < RING_MIN_STAGES && pick.value in depth
    ensures Lifted(edges, Deepen(depth, pick.value, RING_MIN_STAGES - w), pick.value)
    ensures forall v | Lifted(edges, depth, v) :: Lifted(edges, Deepen(depth, pick.value, RING_MIN_STAGES - w), v)
  {
    var after := Deepen(depth, pick.value, RING_MIN_STAGES - w);
    forall es, e: Edge | Ring(edges, es) && e in es && e.value == pick.value
      ensures RING_MIN_STAGES <= Stages(after, es)
    {
      DeepenAdds(depth, pick.value, RING_MIN_STAGES - w, es);
    }
    forall v | Lifted(edges, depth, v) ensures Lifted(edges, after, v) {
      forall es, e: Edge | Ring(edges, es) && e in es && e.value == v ensures RING_MIN_STAGES <= Stages(after, es) {
        DeepenAdds(depth, pick.value, RING_MIN_STAGES - w, es);
      }
    }
  }

  /** So no link on a cycle still under the floor was chosen before, and its weight is not zero. */
  lemma {:induction false} NeverTwice(edges: seq<Edge>, depth: Depths, w: nat, ring: seq<Edge>, pick: Edge)
    requires IsRing(edges, depth, w, ring) && w < RING_MIN_STAGES && pick in ring
    ensures !Lifted(edges, depth, pick.value)
    ensures StagesOf(depth, pick) <= w
    ensures pick in edges
  {
    var es := Unwound(ring);
    assert pick in es;
    StageCounts(depth, es, pick);
    TrailUses(edges, es[0].producer, es, es[0].producer, edges);
  }

  lemma {:induction false} StageCounts(depth: Depths, es: seq<Edge>, e: Edge)
    requires e in es
    ensures StagesOf(depth, e) <= Stages(depth, es)
  {
    if e != es[0] {
      StageCounts(depth, es[1..], e);
    }
  }

  /** A cycle without a link weighs nothing, and a weightless cycle has no link on it. */
  lemma {:induction false} WeightlessIff(depth: Depths, es: seq<Edge>)
    requires forall v | v in depth :: 1 <= depth[v]
    ensures Stages(depth, es) == 0 <==> forall e | e in es :: e.value !in depth
  {
    if es != [] {
      WeightlessIff(depth, es[1..]);
      assert es == [es[0]] + es[1..];
    }
  }

  /** Every link a plain one. */
  function Plain(linked: set<string>): Depths {
    map v | v in linked :: 1
  }

  ghost predicate Through(es: seq<Edge>, v: string) {
    exists e: Edge :: e in es && e.value == v
  }

  /**
   Some cycle through `v` needs `k` stages there: with every other link a plain one it gets no further than the
   floor.
   */
  ghost predicate Needs(edges: seq<Edge>, linked: set<string>, v: string, k: nat) {
    exists es :: Ring(edges, es) && Through(es, v) && Stages(Plain(linked), es) + k <= RING_MIN_STAGES + 1
  }

  lemma {:induction false} PlainIsLeast(linked: set<string>, depth: Depths, es: seq<Edge>)
    requires depth.Keys == linked && forall v | v in depth :: 1 <= depth[v]
    ensures Stages(Plain(linked), es) <= Stages(depth, es)
  {
    if es != [] {
      PlainIsLeast(linked, depth, es[1..]);
    }
  }

  /** What the loop knows after `chosen` values have been deepened. */
  ghost predicate Progressing(edges: seq<Edge>, linked: set<string>, depth: Depths, chosen: set<string>) {
    && depth.Keys == linked
    && chosen <= Values(edges)
    && (forall v | v in chosen :: Lifted(edges, depth, v))
    && (forall v | v in chosen && v in linked :: Needs(edges, linked, v, depth[v]))
    && (forall v | v in linked :: if v in chosen then 1 < depth[v] <= RING_MIN_STAGES else depth[v] == 1)
  }

  /** From `before` to `after` one link on the chosen cycle, the pick of those on it, got what the cycle lacked. */
  ghost predicate Deepened(nodes: seq<Node>, edges: seq<Edge>, before: Depths, after: Depths) {
    exists f: Found, pick ::
      Chosen(edges, before, Some(f)) && f.weight < 3 && IsPick(nodes, OnDepth(f.ring, before), pick)
        && pick.value in before && after == before[pick.value := before[pick.value] + 3 - f.weight]
  }

  ghost predicate Rounds(nodes: seq<Node>, edges: seq<Edge>, steps: seq<Depths>)
    decreases |steps|
  {
    var n := |steps|;
    n > 0 && (n > 1 ==> Deepened(nodes, edges, steps[n - 2], steps[n - 1]) && Rounds(nodes, edges, steps[..n - 1]))
  }

  /** `depth` comes from one stage for each link by such rounds, and by nothing else. */
  ghost predicate InRounds(nodes: seq<Node>, edges: seq<Edge>, linked: set<string>, depth: Depths) {
    exists steps :: Rounds(nodes, edges, steps) && steps[0] == Plain(linked) && steps[|steps| - 1] == depth
  }

  lemma {:induction false} NoRound(nodes: seq<Node>, edges: seq<Edge>, linked: set<string>)
    ensures InRounds(nodes, edges, linked, Plain(linked))
  {
    assert Rounds(nodes, edges, [Plain(linked)]);
  }

  lemma {:induction false} OneMoreRound(nodes: seq<Node>, edges: seq<Edge>, linked: set<string>, depth: Depths,
      f: Found, pick: Edge, more: Depths)
    requires InRounds(nodes, edges, linked, depth) && Chosen(edges, depth, Some(f)) && f.weight < 3
    requires IsPick(nodes, OnDepth(f.ring, depth), pick) && pick.value in depth
    requires more == Deepen(depth, pick.value, 3 - f.weight)
    ensures InRounds(nodes, edges, linked, more)
  {
    hide Chosen, IsPick, Plain;
    assert Deepened(nodes, edges, depth, more);
    hide Deepened;
    var steps :| Rounds(nodes, edges, steps) && steps[0] == Plain(linked) && steps[|steps| - 1] == depth;
    var now := steps + [more];
    assert now[..|now| - 1] == steps;
    assert Rounds(nodes, edges, now);
  }

  function OnDepth(ring: seq<Edge>, depth: Depths): (r: seq<Edge>)
    ensures forall e :: e in r <==> e in ring && e.value in depth
  {
    if ring == [] then [] else (if ring[0].value in depth then [ring[0]] else []) + OnDepth(ring[1..], depth)
  }

  lemma {:induction false} Round(edges: seq<Edge>, linked: set<string>, depth: Depths, chosen: set<string>, w: nat,
      ring: seq<Edge>, pick: Edge)
    requires Progressing(edges, linked, depth, chosen) && Lightest(edges, depth, w, ring) && w < RING_MIN_STAGES
    requires pick in ring && pick.value in depth
    ensures pick.value !in chosen
    ensures Progressing(edges, linked, Deepen(depth, pick.value, RING_MIN_STAGES - w), chosen + {pick.value})
  {
    hide Lifted, IsRing, Needs;
    NeverTwice(edges, depth, w, ring, pick);
    DeepenLifts(edges, depth, w, ring, pick);
    RingNeeds(edges, linked, depth, w, ring, pick);
  }

  /** The deepened cycle is what the new depth is for. */
  lemma {:induction false} RingNeeds(edges: seq<Edge>, linked: set<string>, depth: Depths, w: nat, ring: seq<Edge>,
      pick: Edge)
    requires depth.Keys == linked && (forall v | v in depth :: 1 <= depth[v])
    requires IsRing(edges, depth, w, ring) && w < RING_MIN_STAGES && pick in ring
    ensures Needs(edges, linked, pick.value, 1 + RING_MIN_STAGES - w)
  {
    PlainIsLeast(linked, depth, Unwound(ring));
    assert pick in Unwound(ring);
    assert Through(Unwound(ring), pick.value);
  }

  lemma {:induction false} NoLinkWeightless(edges: seq<Edge>, linked: set<string>, depth: Depths, chosen: set<string>,
      w: nat, ring: seq<Edge>)
    requires Progressing(edges, linked, depth, chosen) && Lightest(edges, depth, w, ring)
    ensures OnDepth(ring, depth) == [] <==> !LinkOnEveryCycle(edges, linked)
    ensures OnDepth(ring, depth) == [] ==> w == 0
  {
    hide Lifted;
    var u := Unwound(ring);
    assert forall e :: e in u <==> e in ring;
    WeightlessIff(depth, u);
    assert OnDepth(ring, depth) == [] <==> forall e | e in ring :: e.value !in depth by {
      if OnDepth(ring, depth) != [] {
        assert OnDepth(ring, depth)[0] in OnDepth(ring, depth);
      }
    }
    if !LinkOnEveryCycle(edges, linked) {
      var es :| Ring(edges, es) && !exists e: Edge :: e in es && e.value in linked;
      WeightlessIff(depth, es);
    }
  }

  lemma {:induction false} ValuesBounded(edges: seq<Edge>)
    ensures |Values(edges)| <= |edges|
  {
    if edges == [] {
      assert Values(edges) == {};
    } else {
      ValuesBounded(edges[1..]);
      assert edges == [edges[0]] + edges[1..];
      assert Values(edges) == {edges[0].value} + Values(edges[1..]);
    }
  }

  /**
   Depth 1 everywhere, then deeper on one link of each cycle under the floor. It succeeds exactly
   when every cycle has a link on it, and the round limit is never what stops it.
   */
  method RingDepths(nodes: seq<Node>, allEdges: seq<Edge>, linked: set<string>, exclude: set<string>)
      returns (r: Outcome<Depths>)
    requires EdgesWithin(|nodes|, allEdges)
    ensures r.Placed? <==> LinkOnEveryCycle(Without(allEdges, exclude), linked)
    ensures r.Placed? || r.NoLinkedEdge?
    ensures r.Placed? ==> r.value.Keys == linked && Floor(Without(allEdges, exclude), r.value)
    ensures r.Placed? ==> forall es | Ring(Without(allEdges, exclude), es) :: 3 <= Stages(r.value, es)
    ensures r.Placed? ==> forall v | v in linked :: 1 <= r.value[v] <= 3
    ensures r.Placed? ==> InRounds(nodes, Without(allEdges, exclude), linked, r.value)
    ensures r.Placed? ==> forall v | v in linked
                            && r.value[v] > 1 :: Needs(Without(allEdges, exclude), linked, v, r.value[v])
  {
    hide Needs, Progressing, Lightest, LinkOnEveryCycle, Floor, Lifted, InRounds, Chosen, IsPick;
    var edges := Without(allEdges, exclude);
    EdgesStayWithin(|nodes|, allEdges, exclude);
    var depth := Plain(linked);
    ghost var chosen := {};
    StartRounds(edges, linked);
    NoRound(nodes, edges, linked);
    for i := 0 to |edges| + 1
      invariant Progressing(edges, linked, depth, chosen) && |chosen| == i && InRounds(nodes, edges, linked, depth)
    {
      var found := LightestCycle(|nodes|, edges, depth);
      if found.None? || found.value.weight >= RING_MIN_STAGES {
        Settled(edges, linked, depth, chosen, found);
        return Placed(depth);
      }
      var Found(weight, ring) := found.value;
      var cand := OnDepth(ring, depth);
      NoLinkWeightless(edges, linked, depth, chosen, weight, ring);
      if cand == [] {
        return NoLinkedEdge(ring);
      }
      RingWithin(|nodes|, edges, depth, weight, ring);
      var pick := First(nodes, cand);
      Round(edges, linked, depth, chosen, weight, ring, pick);
      OneMoreRound(nodes, edges, linked, depth, found.value, pick, Deepen(depth, pick.value, RING_MIN_STAGES - weight));
      depth := Deepen(depth, pick.value, RING_MIN_STAGES - weight);
      chosen := chosen + {pick.value};
    }
    // The source raises here; each round chose another of at most |edges| values, so it cannot get here.
    ChosenBounded(edges, linked, depth, chosen);
    assert false;
  }

  lemma {:induction false} StartRounds(edges: seq<Edge>, linked: set<string>)
    ensures Progressing(edges, linked, Plain(linked), {})
  {
  }

  lemma {:induction false} ChosenBounded(edges: seq<Edge>, linked: set<string>, depth: Depths, chosen: set<string>)
    requires Progressing(edges, linked, depth, chosen)
    ensures |chosen| <= |edges|
  {
    ValuesBounded(edges);
    assert Values(edges) == chosen + (Values(edges) - chosen);
  }

  lemma {:induction false} RingWithin(n: nat, edges: seq<Edge>, depth: Depths, w: nat, ring: seq<Edge>)
    requires EdgesWithin(n, edges) && Lightest(edges, depth, w, ring)
    ensures EdgesWithin(n, OnDepth(ring, depth))
  {
    var es := Unwound(ring);
    TrailUses(edges, es[0].producer, es, es[0].producer, edges);
    assert forall e | e in ring :: e in es;
  }

  /** The loop stops with no cycle, or with a lightest one at the floor: either way all is well. */
  lemma {:induction false} Settled(edges: seq<Edge>, linked: set<string>, depth: Depths, chosen: set<string>,
      found: Option<Found>)
    requires Progressing(edges, linked, depth, chosen)
    requires found.None? ==> forall es :: !Ring(edges, es)
    requires found.Some? ==> Lightest(edges, depth, found.value.weight, found.value.ring)
    requires found.Some? ==> RING_MIN_STAGES <= found.value.weight
    ensures LinkOnEveryCycle(edges, linked) && Floor(edges, depth) && depth.Keys == linked
    ensures forall es | Ring(edges, es) :: 3 <= Stages(depth, es)
    ensures forall v | v in linked :: 1 <= depth[v] <= 3
    ensures forall v | v in linked && depth[v] > 1 :: Needs(edges, linked, v, depth[v])
  {
    hide Lifted, IsRing, Needs;
    if found.Some? {
      NoLinkWeightless(edges, linked, depth, chosen, found.value.weight, found.value.ring);
    }
  }

  /** Both rules together: cut every cycle, then deepen until every cycle clears the floor. */
  method PlaceStorage(nodes: seq<Node>, edges: seq<Edge>, already: set<string>, exclude: set<string>)
    returns (r: Outcome<Depths>)
    requires EdgesWithin(|nodes|, edges)
    ensures OneProducer(Without(edges, exclude)) ==> r.Placed?
    ensures r.Placed? ==> Floor(Without(edges, exclude), r.value) && already <= r.value.Keys
    ensures r.Placed? ==> forall es | Ring(Without(edges, exclude), es) :: 3 <= Stages(r.value, es)
    ensures r.Placed? ==> forall v | v in r.value :: 1 <= r.value[v] <= 3
    ensures r.Placed? ==> InBatches(nodes, Without(edges, exclude), already, r.value.Keys)
                          && InRounds(nodes, Without(edges, exclude), r.value.Keys, r.value)
    ensures r.Placed? ==> forall v | v in r.value.Keys - already :: OnFreeCycle(Without(edges, exclude), already, v)
    ensures r.Placed? ==> forall v | v in r.value
                            && r.value[v] > 1 :: Needs(Without(edges, exclude), r.value.Keys, v, r.value[v])
  {
    hide Needs, Floor, OnFreeCycle, OneProducer, LinkOnEveryCycle, Acyclic, HeaderOnEveryCycle, InBatches, InRounds;
    var sites := CycleSites(nodes, edges, already, exclude);
    if !sites.Placed? {
      return NoUnlinkedEdge(sites.component);
    }
    AcyclicLinked(Without(edges, exclude), already + sites.value);
    r := RingDepths(nodes, edges, already + sites.value, exclude);
  }

  /** If the unlinked edges close no cycle, every cycle has a link on it. */
  lemma {:induction false} AcyclicLinked(edges: seq<Edge>, linked: set<string>)
    requires Acyclic(ArcsOf(Without(edges, linked)))
    ensures LinkOnEveryCycle(edges, linked)
  {
    forall es: seq<Edge> | Ring(edges, es) ensures exists e: Edge :: e in es && e.value in linked {
      TrailUses(edges, es[0].producer, es, es[0].producer, Without(edges, linked));
      if forall e: Edge | e in es :: e.value !in linked {
        RingOnCycle(Without(edges, linked), es);
      }
    }
  }
}
