/**
 Which fusable operations share a cell: capped union over the edges between them
 (the region-grouping step of `compute_fusion` in bdc/emit.py).
 */
module Grouping {
  import opened Graphs
  import opened Dataflow
  import opened ValueUse
  import opened UnionFind

  ghost predicate FusableEdge(nodes: seq<Node>, e: Edge) {
    && Fusable(nodes, e.producer) && Fusable(nodes, e.consumer)
    && e.value in nodes[e.consumer].operands && ProducerOf(nodes, e.value) == Some(e.producer)
  }

  ghost predicate Feeds(nodes: seq<Node>, p: nat, c: nat) {
    exists v :: FusableEdge(nodes, Edge(p, c, v))
  }

  /** The graph of the fusable operations alone. */
  ghost function FusableArcs(nodes: seq<Node>): Arcs {
    set p: nat, c: nat | p < |nodes| && c < |nodes| && Feeds(nodes, p, c) :: (p, c)
  }

  ghost function FusableNodes(nodes: seq<Node>): set<nat> {
    set i: nat | i < |nodes| && Fusable(nodes, i)
  }

  /** What materialisation promises of a function before fusion. */
  ghost predicate Materialised(nodes: seq<Node>) {
    OneReader(nodes) && (forall i: nat | Fusable(nodes, i) :: |nodes[i].results| == 1) && Acyclic(FusableArcs(nodes))
  }

  /** No member of `x`'s component reads `x`. */
  ghost predicate Open(nodes: seq<Node>, root: map<nat, nat>, x: nat)
    requires x in root && Fusable(nodes, x)
  {
    forall c: nat | c in root && root[c] == root[x] && c < |nodes|
      && nodes[x].results != [] :: nodes[x].results[0] !in nodes[c].operands
  }

  ghost predicate AllFusable(nodes: seq<Node>, root: map<nat, nat>) {
    forall x | x in root :: Fusable(nodes, x)
  }

  ghost predicate OneOpen(nodes: seq<Node>, root: map<nat, nat>)
    requires AllFusable(nodes, root)
  {
    forall x, y | x in root && y in root && root[x] == root[y] && Open(nodes, root, x) && Open(nodes, root, y) :: x == y
  }

  ghost predicate Capped(root: map<nat, nat>, cap: nat) {
    forall x | x in root :: |Class(root, root[x])| <= cap
  }

  /** Merging `e`'s two ends is done, or would exceed the cap. */
  ghost predicate Settled(root: map<nat, nat>, e: Edge, cap: nat) {
    e.producer in root && e.consumer in root && !Joins(root, e.producer, e.consumer, cap)
  }

  lemma {:induction false} OpenBefore(nodes: seq<Node>, root: map<nat, nat>, ra: nat, rb: nat, x: nat)
    requires AllFusable(nodes, root) && x in root && Open(nodes, Merged(root, ra, rb), x)
    ensures Open(nodes, root, x)
  {
    var later := Merged(root, ra, rb);
    assert Fusable(nodes, x);
    forall c: nat | c in root && root[c] == root[x] && c < |nodes| && nodes[x].results != []
      ensures nodes[x].results[0] !in nodes[c].operands
    {
      assert c in later && later[c] == later[x];
    }
  }

  /** A value's reader is its only reader. */
  lemma {:induction false} OtherReader(nodes: seq<Node>, e: Edge, d: nat)
    requires OneReader(nodes) && FusableEdge(nodes, e) && d < |nodes| && e.value in nodes[d].operands
    ensures d == e.consumer
  {
    EatersIff(nodes, e.value);
    assert d in Eaters(nodes, e.value) && e.consumer in Eaters(nodes, e.value);
    assert |Eaters(nodes, e.value)| <= 1;
  }

  /** The producer of an edge between components is the open member of its own. */
  lemma {:induction false} ProducerOpen(nodes: seq<Node>, root: map<nat, nat>, e: Edge)
    requires OneReader(nodes) && FusableEdge(nodes, e) && nodes[e.producer].results == [e.value]
    requires e.producer in root && e.consumer in root && root[e.producer] != root[e.consumer]
    ensures Open(nodes, root, e.producer)
  {
    forall c: nat | c in root && root[c] == root[e.producer] && c < |nodes| && nodes[e.producer].results != []
      ensures nodes[e.producer].results[0] !in nodes[c].operands
    {
      if nodes[e.producer].results[0] in nodes[c].operands {
        OtherReader(nodes, e, c);
      }
    }
  }

  lemma {:induction false} ProducerClosed(nodes: seq<Node>, root: map<nat, nat>, e: Edge)
    requires FusableEdge(nodes, e) && nodes[e.producer].results == [e.value]
    requires e.producer in root && e.consumer in root && root[e.producer] == root[e.consumer]
    ensures !Open(nodes, root, e.producer)
  {
  }

  /** The producer of a merged edge was the open member of its component, and is open no longer. */
  lemma {:induction false} MergeClosesProducer(nodes: seq<Node>, root: map<nat, nat>, e: Edge, x: nat)
    requires OneReader(nodes) && AllFusable(nodes, root) && OneOpen(nodes, root)
    requires FusableEdge(nodes, e) && e.producer in root && e.consumer in root && root[e.producer] != root[e.consumer]
    requires nodes[e.producer].results == [e.value]
    requires x in root && root[x] == root[e.producer]
    ensures !Open(nodes, Merged(root, root[e.producer], root[e.consumer]), x)
  {
    hide Open, FusableEdge, OneReader;
    ProducerOpen(nodes, root, e);
    ProducerClosed(nodes, Merged(root, root[e.producer], root[e.consumer]), e);
    if Open(nodes, Merged(root, root[e.producer], root[e.consumer]), x) {
      OpenBefore(nodes, root, root[e.producer], root[e.consumer], x);
    }
  }

  lemma {:induction false} MergeKeepsOneOpen(nodes: seq<Node>, root: map<nat, nat>, e: Edge)
    requires OneReader(nodes) && AllFusable(nodes, root) && OneOpen(nodes, root)
    requires FusableEdge(nodes, e) && e.producer in root && e.consumer in root && root[e.producer] != root[e.consumer]
    requires nodes[e.producer].results == [e.value]
    ensures AllFusable(nodes, Merged(root, root[e.producer], root[e.consumer]))
    ensures OneOpen(nodes, Merged(root, root[e.producer], root[e.consumer]))
  {
    hide Open, FusableEdge, OneReader;
    var ra, rb := root[e.producer], root[e.consumer];
    var later := Merged(root, ra, rb);
    forall x, y | x in later && y in later && later[x] == later[y] && Open(nodes, later, x) && Open(nodes, later, y)
      ensures x == y
    {
      OpenBefore(nodes, root, ra, rb, x);
      OpenBefore(nodes, root, ra, rb, y);
      if root[x] == ra {
        MergeClosesProducer(nodes, root, e, x);
      }
      if root[y] == ra {
        MergeClosesProducer(nodes, root, e, y);
      }
      assert root[x] == root[y];
    }
  }

  /** Components only grow, so what was refused stays refused. */
  lemma {:induction false} MergeKeepsSettled(root: map<nat, nat>, ra: nat, rb: nat, e: Edge, cap: nat)
    requires ra != rb && Settled(root, e, cap)
    ensures Settled(Merged(root, ra, rb), e, cap)
  {
    MergedClasses(root, ra, rb);
  }

  lemma {:induction false} MergeSettles(root: map<nat, nat>, e: Edge, cap: nat)
    requires e.producer in root && e.consumer in root
    ensures Settled(Merged(root, root[e.producer], root[e.consumer]), e, cap)
  {
  }

  lemma {:induction false} MergeKeepsCapped(root: map<nat, nat>, ra: nat, rb: nat, cap: nat)
    requires ra != rb && Capped(root, cap) && |Class(root, ra)| + |Class(root, rb)| <= cap
    ensures Capped(Merged(root, ra, rb), cap)
  {
    MergedClasses(root, ra, rb);
    var later := Merged(root, ra, rb);
    forall x | x in later ensures |Class(later, later[x])| <= cap {
      assert later[x] == ra || (later[x] == root[x] && later[x] != rb);
    }
  }

  ghost predicate SettledUpTo(root: map<nat, nat>, edges: seq<Edge>, k: nat, cap: nat)
    requires k <= |edges|
  {
    forall j | 0 <= j < k :: Settled(root, edges[j], cap)
  }

  ghost predicate Grouped(nodes: seq<Node>, root: map<nat, nat>) {
    && root.Keys == FusableNodes(nodes) && AllFusable(nodes, root)
    && Capped(root, MAX_FUSE_NODES)
    && (Materialised(nodes) ==> OneOpen(nodes, root))
  }

  lemma {:induction false} GroupingStarts(nodes: seq<Node>, root: map<nat, nat>)
    requires root.Keys == FusableNodes(nodes) && forall x | x in root :: root[x] == x
    ensures Grouped(nodes, root)
  {
    forall x | x in root ensures |Class(root, root[x])| <= 1 {
      assert Class(root, x) == {x};
    }
  }

  lemma {:induction false} GroupingStep(nodes: seq<Node>, edges: seq<Edge>, k: nat, before: map<nat, nat>,
      after: map<nat, nat>)
    requires OneWriter(nodes) && k < |edges| && FusableEdge(nodes, edges[k])
    requires Grouped(nodes, before) && SettledUpTo(before, edges, k, MAX_FUSE_NODES)
    requires edges[k].producer in before && edges[k].consumer in before
    requires var e := edges[k];
             if Joins(before, e.producer, e.consumer, MAX_FUSE_NODES)
             then after == Merged(before, before[e.producer], before[e.consumer])
             else after == before
    ensures Grouped(nodes, after) && SettledUpTo(after, edges, k + 1, MAX_FUSE_NODES)
  {
    hide FusableEdge, Acyclic, OneReader;
    var e := edges[k];
    if Joins(before, e.producer, e.consumer, MAX_FUSE_NODES) {
      var ra, rb := before[e.producer], before[e.consumer];
      forall j | 0 <= j < k ensures Settled(after, edges[j], MAX_FUSE_NODES) {
        MergeKeepsSettled(before, ra, rb, edges[j], MAX_FUSE_NODES);
      }
      MergeSettles(before, e, MAX_FUSE_NODES);
      MergeKeepsCapped(before, ra, rb, MAX_FUSE_NODES);
      GroupingMerge(nodes, before, e);
    }
  }

  lemma {:induction false} GroupingMerge(nodes: seq<Node>, root: map<nat, nat>, e: Edge)
    requires Grouped(nodes, root) && FusableEdge(nodes, e)
    requires e.producer in root && e.consumer in root && root[e.producer] != root[e.consumer]
    ensures var later := Merged(root, root[e.producer], root[e.consumer]);
            later.Keys == root.Keys && AllFusable(nodes, later) && (Materialised(nodes) ==> OneOpen(nodes, later))
  {
    if Materialised(nodes) {
      assert e.value in nodes[e.producer].results;
      MergeKeepsOneOpen(nodes, root, e);
    }
  }

  // ---- the pass -----------------------------------------------------------------

  /** Every use of one fusable operation's result by another. */
  method FusableEdges(nodes: seq<Node>, producer: Producers) returns (edges: seq<Edge>)
    requires forall v :: LookUp(producer, v) == ProducerOf(nodes, v)
    ensures forall e :: e in edges <==> FusableEdge(nodes, e)
  {
    edges := [];
    for i := 0 to |nodes|
      invariant forall e :: e in edges <==> FusableEdge(nodes, e) && e.consumer < i
    {
      var operands := nodes[i].operands;
      if Fusable(nodes, i) {
        for k := 0 to |operands|
          invariant forall e :: e in edges <==>
              FusableEdge(nodes, e) && (e.consumer < i || (e.consumer == i && e.value in operands[..k]))
        {
          assert operands[..k + 1] == operands[..k] + [operands[k]];
          var p := LookUp(producer, operands[k]);
          assert p == ProducerOf(nodes, operands[k]);
          if p.Some? && Fusable(nodes, p.value) {
            edges := edges + [Edge(p.value, i, operands[k])];
          }
        }
        assert operands[..|operands|] == operands;
      }
    }
  }

  /** No edge comes after one with an alphabetically larger value. */
  ghost predicate Sorted(edges: seq<Edge>) {
    forall i, j | 0 <= i < j < |edges| :: !StringLess(edges[j].value, edges[i].value)
  }

  method SortByValue(edges: seq<Edge>) returns (sorted: seq<Edge>)
    ensures Sorted(sorted) && multiset(sorted) == multiset(edges)
  {
    hide Sorted;
    sorted := [];
    SortedEmpty();
    for k := 0 to |edges|
      invariant Sorted(sorted) && multiset(sorted) == multiset(edges[..k])
    {
      var e := edges[k];
      var at := |sorted|;
      while at > 0 && StringLess(e.value, sorted[at - 1].value)
        invariant 0 <= at <= |sorted|
        invariant forall i | at <= i < |sorted| :: StringLess(e.value, sorted[i].value)
      {
        at := at - 1;
      }
      assert e == edges[k];
      InsertSorted(sorted, e, at);
      SameElements(edges, k, sorted, at);
      sorted := sorted[..at] + [e] + sorted[at..];
    }
    assert edges[..|edges|] == edges;
  }

  lemma {:induction false} SortedEmpty()
    ensures Sorted([])
  {
  }

  lemma {:induction false} SameElements(edges: seq<Edge>, k: nat, sorted: seq<Edge>, at: nat)
    requires k < |edges| && at <= |sorted| && multiset(sorted) == multiset(edges[..k])
    ensures multiset(sorted[..at] + [edges[k]] + sorted[at..]) == multiset(edges[..k + 1])
  {
    assert edges[..k + 1] == edges[..k] + [edges[k]];
    assert sorted[..at] + sorted[at..] == sorted;
  }

  lemma {:induction false} InsertSorted(edges: seq<Edge>, e: Edge, at: nat)
    requires Sorted(edges) && at <= |edges|
    requires forall i | at <= i < |edges| :: StringLess(e.value, edges[i].value)
    requires at > 0 ==> !StringLess(e.value, edges[at - 1].value)
    ensures Sorted(edges[..at] + [e] + edges[at..])
  {
    forall i | 0 <= i < at ensures !StringLess(e.value, edges[i].value) {
      if StringLess(e.value, edges[i].value) {
        StringLessTotal(edges[i].value, edges[at - 1].value);
        if StringLess(edges[i].value, edges[at - 1].value) {
          StringLessTrans(e.value, edges[i].value, edges[at - 1].value);
        }
      }
    }
    forall i | at <= i < |edges| ensures !StringLess(edges[i].value, e.value) {
      if StringLess(edges[i].value, e.value) {
        StringLessTrans(edges[i].value, e.value, edges[i].value);
        StringLessIrreflexive(edges[i].value);
      }
    }
  }

  /** The components after `edges` were taken one by one: two are joined if together they have at most four members. */
  ghost function Unions(root: map<nat, nat>, edges: seq<Edge>): map<nat, nat> {
    if edges == [] then root
    else
      var before := Unions(root, edges[..|edges| - 1]);
      var e := edges[|edges| - 1];
      if e.producer in before && e.consumer in before && before[e.producer] != before[e.consumer]
         && |Class(before, before[e.producer])| + |Class(before, before[e.consumer])| <= 4
      then Merged(before, before[e.producer], before[e.consumer])
      else before
  }

  /** Every fusable operation a component of its own. */
  ghost function Alone(nodes: seq<Node>): map<nat, nat> {
    map x | x in FusableNodes(nodes) :: x
  }

  /** `root` is what taking all fusable edges in the order of their values leads to. */
  ghost predicate InValueOrder(nodes: seq<Node>, root: map<nat, nat>) {
    exists edges :: Sorted(edges) && (forall e :: e in edges <==> FusableEdge(nodes, e))
      && root == Unions(Alone(nodes), edges)
  }

  lemma {:induction false} OrderFollowed(nodes: seq<Node>, edges: seq<Edge>, start: map<nat, nat>, root: map<nat, nat>)
    requires Sorted(edges) && (forall e :: e in edges <==> FusableEdge(nodes, e)) && root == Unions(start, edges)
    requires start.Keys == FusableNodes(nodes) && forall x | x in start :: start[x] == x
    ensures InValueOrder(nodes, root)
  {
    hide Sorted, FusableEdge, Unions;
    assert start == Alone(nodes);
  }

  lemma {:induction false} NoUnions(root: map<nat, nat>)
    ensures Unions(root, []) == root
  {
  }

  lemma {:induction false} UnionsMore(root: map<nat, nat>, edges: seq<Edge>, k: nat)
    requires k < |edges|
    ensures var before, e := Unions(root, edges[..k]), edges[k];
            Unions(root, edges[..k + 1]) ==
              if e.producer in before && e.consumer in before && Joins(before, e.producer, e.consumer, MAX_FUSE_NODES)
              then Merged(before, before[e.producer], before[e.consumer]) else before
  {
    assert edges[..k + 1][..k] == edges[..k];
  }

  /** Union over the fusable edges in value order; `root` says who ends up with whom. */
  method Group(nodes: seq<Node>, producer: Producers) returns (uf: Forest)
    requires OneWriter(nodes) && forall v :: LookUp(producer, v) == ProducerOf(nodes, v)
    ensures fresh(uf) && uf.Valid() && Grouped(nodes, uf.root) && InValueOrder(nodes, uf.root)
    ensures forall e | FusableEdge(nodes, e) :: Settled(uf.root, e, MAX_FUSE_NODES)
  {
    hide Grouped, FusableEdge, OneWriter, Settled, Joins, Sorted, Unions;
    var listed := FusableEdges(nodes, producer);
    var edges := SortByValue(listed);
    assert forall e :: e in edges <==> e in multiset(listed);
    var fusable := set i: nat | i < |nodes| && Fusable(nodes, i);
    uf := new Forest(fusable);
    GroupingStarts(nodes, uf.root);
    ghost var start := uf.root;
    assert Unions(start, edges[..0]) == start by {
      NoUnions(start);
    }
    for k := 0 to |edges|
      invariant fresh(uf) && uf.Valid() && Grouped(nodes, uf.root)
      invariant SettledUpTo(uf.root, edges, k, MAX_FUSE_NODES) && uf.root == Unions(start, edges[..k])
    {
      assert edges[k] in edges;
      UnionsMore(start, edges, k);
      EdgeEnds(nodes, uf.root, edges[k]);
      ghost var before := uf.root;
      var _ := uf.UnionIf(edges[k].producer, edges[k].consumer, MAX_FUSE_NODES);
      GroupingStep(nodes, edges, k, before, uf.root);
    }
    assert edges[..|edges|] == edges;
    OrderFollowed(nodes, edges, start, uf.root);
    forall e | FusableEdge(nodes, e) ensures Settled(uf.root, e, MAX_FUSE_NODES) {
      assert e in edges;
    }
  }

  lemma {:induction false} EdgeEnds(nodes: seq<Node>, root: map<nat, nat>, e: Edge)
    requires Grouped(nodes, root) && FusableEdge(nodes, e)
    ensures e.producer in root && e.consumer in root
  {
    assert e.producer in FusableNodes(nodes) && e.consumer in FusableNodes(nodes);
  }
}
