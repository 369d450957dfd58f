/**
 The node graph of one handshake function: which node feeds which, by which value.
 */
module Dataflow {
  import opened Graphs

  datatype Option<+T> = None | Some(value: T)

  /** One operation: its name, the values it reads and produces, its integer `value` and its predicate. */
  datatype Node = Node(op: string, operands: seq<string>, results: seq<string>, value: Option<int>, pred: string)

  datatype Edge = Edge(producer: nat, consumer: nat, value: string)

  /** Loop headers, the preferred place for storage. */
  const HEADER_OPS: set<string> := {"control_merge", "merge", "mux"}

  ghost predicate IsEdge(nodes: seq<Node>, e: Edge) {
    && e.producer < |nodes| && e.consumer < |nodes|
    && e.value in nodes[e.producer].results && e.value in nodes[e.consumer].operands
  }

  /** `edges` lists every reader of every result, and nothing else. */
  ghost predicate IsNodeGraph(nodes: seq<Node>, edges: seq<Edge>) {
    forall e :: e in edges <==> IsEdge(nodes, e)
  }

  ghost predicate EdgesWithin(n: nat, edges: seq<Edge>) {
    forall e | e in edges :: e.producer < n && e.consumer < n
  }

  ghost predicate OneProducer(edges: seq<Edge>) {
    forall d, e | d in edges && e in edges && d.value == e.value :: d.producer == e.producer
  }

  /** How many edges `e` stands for: one for each time its producer lists its value and each operand that reads it. */
  ghost function Multiplicity(nodes: seq<Node>, e: Edge): nat {
    if e.producer < |nodes| && e.consumer < |nodes|
    then multiset(nodes[e.producer].results)[e.value] * multiset(nodes[e.consumer].operands)[e.value]
    else 0
  }

  /** One edge for each result of each node and each operand position that reads it. */
  method BuildNodeGraph(nodes: seq<Node>) returns (edges: seq<Edge>)
    ensures IsNodeGraph(nodes, edges)
    ensures forall e :: multiset(edges)[e] == Multiplicity(nodes, e)
  {
    edges := [];
    for i := 0 to |nodes|
      invariant forall e :: multiset(edges)[e] == if e.producer < i then Multiplicity(nodes, e) else 0
    {
      var results := nodes[i].results;
      for k := 0 to |results|
        invariant forall e :: multiset(edges)[e] == CountSoFar(nodes, i, results[..k], e)
      {
        var readers := Readers(nodes, results[k]);
        edges := edges + EdgesTo(i, readers, results[k]);
        forall e ensures multiset(edges)[e] == CountSoFar(nodes, i, results[..k + 1], e) {
          CountEdgesTo(i, readers, results[k], e);
          CountNext(nodes, i, k, e);
        }
      }
      assert results[..|results|] == results;
    }
    CountedIsNodeGraph(nodes, edges);
  }

  /** An edge from `i` to each of `readers`. */
  function EdgesTo(i: nat, readers: seq<nat>, v: string): seq<Edge> {
    if readers == [] then [] else EdgesTo(i, readers[..|readers| - 1], v) + [Edge(i, readers[|readers| - 1], v)]
  }

  lemma {:induction false} CountEdgesTo(i: nat, readers: seq<nat>, v: string, e: Edge)
    ensures multiset(EdgesTo(i, readers, v))[e]
            == if e.producer == i && e.value == v then multiset(readers)[e.consumer] else 0
  {
    if readers != [] {
      var init := readers[..|readers| - 1];
      assert readers == init + [readers[|readers| - 1]];
      CountEdgesTo(i, init, v, e);
    }
  }

  /** The edges of the nodes before `i`, and of the results `done` of `i`. */
  ghost function CountSoFar(nodes: seq<Node>, i: nat, done: seq<string>, e: Edge): nat {
    if e.producer < i then Multiplicity(nodes, e)
    else if e.producer == i
           && e.consumer < |nodes| then multiset(done)[e.value] * multiset(nodes[e.consumer].operands)[e.value]
    else 0
  }

  lemma {:induction false} CountNext(nodes: seq<Node>, i: nat, k: nat, e: Edge)
    requires i < |nodes| && k < |nodes[i].results|
    ensures var results := nodes[i].results;
            CountSoFar(nodes, i, results[..k + 1], e)
            == CountSoFar(nodes, i, results[..k], e)
               + if e.producer == i && e.consumer < |nodes| && e.value == results[k]
                 then multiset(nodes[e.consumer].operands)[e.value] else 0
  {
    var results := nodes[i].results;
    assert results[..k + 1] == results[..k] + [results[k]];
    var m := multiset(results[..k])[e.value];
    var n := if e.consumer < |nodes| then multiset(nodes[e.consumer].operands)[e.value] else 0;
    assert (m + 1) * n == m * n + n;
  }

  lemma {:induction false} CountedIsNodeGraph(nodes: seq<Node>, edges: seq<Edge>)
    requires forall e :: multiset(edges)[e] == if e.producer < |nodes| then Multiplicity(nodes, e) else 0
    ensures IsNodeGraph(nodes, edges)
  {
    forall e ensures e in edges <==> IsEdge(nodes, e) {
      assert e in edges <==> multiset(edges)[e] > 0;
      if e.producer < |nodes| && e.consumer < |nodes| {
        var m, n := multiset(nodes[e.producer].results)[e.value], multiset(nodes[e.consumer].operands)[e.value];
        PositiveProduct(m, n);
      }
    }
  }

  lemma {:induction false} PositiveProduct(m: nat, n: nat)
    ensures m * n > 0 <==> m > 0 && n > 0
  {
  }

  /** The nodes reading `v`, once for each operand position that does. */
  method Readers(nodes: seq<Node>, v: string) returns (readers: seq<nat>)
    ensures forall j: nat :: multiset(readers)[j] == if j < |nodes| then multiset(nodes[j].operands)[v] else 0
  {
    readers := [];
    for j := 0 to |nodes|
      invariant forall i: nat :: multiset(readers)[i] == if i < j then multiset(nodes[i].operands)[v] else 0
    {
      for p := 0 to |nodes[j].operands|
        invariant forall i: nat :: multiset(readers)[i] == ReadsSoFar(nodes, j, p, i, v)
      {
        assert nodes[j].operands[..p + 1] == nodes[j].operands[..p] + [nodes[j].operands[p]];
        if nodes[j].operands[p] == v {
          readers := readers + [j];
        }
      }
      assert nodes[j].operands[..|nodes[j].operands|] == nodes[j].operands;
    }
  }

  /** How often node `i` reads `v`, as far as the nodes before `j` and the first `p` operands of `j` go. */
  ghost function ReadsSoFar(nodes: seq<Node>, j: nat, p: nat, i: nat, v: string): nat
    requires j < |nodes| && p <= |nodes[j].operands|
  {
    if i < j then multiset(nodes[i].operands)[v] else if i == j then multiset(nodes[j].operands[..p])[v] else 0
  }

  // ---- trails: walks that name the channels they use ------------------------

  ghost predicate Trail(edges: seq<Edge>, u: nat, es: seq<Edge>, v: nat)
    decreases |es|
  {
    if es == [] then u == v
    else es[0] in edges && es[0].producer == u && Trail(edges, es[0].consumer, es[1..], v)
  }

  /** A cycle, as the edges round it. */
  ghost predicate Ring(edges: seq<Edge>, es: seq<Edge>) {
    es != [] && Trail(edges, es[0].producer, es, es[0].producer)
  }

  ghost function ArcsOf(edges: seq<Edge>): Arcs {
    set e | e in edges :: (e.producer, e.consumer)
  }

  lemma {:induction false} TrailReaches(edges: seq<Edge>, u: nat, es: seq<Edge>, v: nat)
    requires Trail(edges, u, es, v)
    ensures Reaches(ArcsOf(edges), u, v)
    decreases |es|
  {
    if es == [] {
      ReachesSelf(ArcsOf(edges), u);
    } else {
      TrailReaches(edges, es[0].consumer, es[1..], v);
      ReachesArc(ArcsOf(edges), u, es[0].consumer);
      ReachesTrans(ArcsOf(edges), u, es[0].consumer, v);
    }
  }

  lemma {:induction false} RingOnCycle(edges: seq<Edge>, es: seq<Edge>)
    requires Ring(edges, es)
    ensures OnCycle(ArcsOf(edges), es[0].producer)
  {
    TrailReaches(edges, es[0].consumer, es[1..], es[0].producer);
    assert (es[0].producer, es[0].consumer) in ArcsOf(edges);
    OnCycleIff(ArcsOf(edges), es[0].producer);
  }

  lemma {:induction false} WalkHasTrail(edges: seq<Edge>, u: nat, p: seq<nat>, v: nat) returns (es: seq<Edge>)
    requires Walk(ArcsOf(edges), u, p, v)
    ensures Trail(edges, u, es, v) && |es| == |p|
    ensures forall i | 0 <= i < |p| :: es[i].consumer == p[i]
    decreases |p|
  {
    es := [];
    if p != [] {
      var e :| e in edges && (e.producer, e.consumer) == (u, p[0]);
      var rest := WalkHasTrail(edges, p[0], p[1..], v);
      es := [e] + rest;
      assert es[1..] == rest;
      forall i | 0 <= i < |p| ensures es[i].consumer == p[i] {
        if i > 0 {
          assert p[i] == p[1..][i - 1];
        }
      }
    }
  }

  /** Trails only use listed edges, and a sub-list that still lists them carries them. */
  lemma {:induction false} TrailUses(edges: seq<Edge>, u: nat, es: seq<Edge>, v: nat, sub: seq<Edge>)
    requires Trail(edges, u, es, v)
    ensures forall e | e in es :: e in edges
    ensures (forall e | e in es :: e in sub) ==> Trail(sub, u, es, v)
    decreases |es|
  {
    if es != [] {
      TrailUses(edges, es[0].consumer, es[1..], v, sub);
      assert es == [es[0]] + es[1..];
    }
  }

  // ---- adjacency lists --------------------------------------------------------

  function OutEdges(edges: seq<Edge>, u: nat): (r: seq<Edge>)
    ensures forall e :: e in r <==> e in edges && e.producer == u
  {
    if edges == [] then []
    else (if edges[0].producer == u then [edges[0]] else []) + OutEdges(edges[1..], u)
  }

  /** The edges whose value is not in `vs`. */
  function Without(edges: seq<Edge>, vs: set<string>): (r: seq<Edge>)
    ensures forall e :: e in r <==> e in edges && e.value !in vs
    ensures |r| <= |edges|
  {
    if edges == [] then []
    else (if edges[0].value in vs then [] else [edges[0]]) + Without(edges[1..], vs)
  }

  /** The node numbers `0..n`. */
  function Ids(n: nat): (ids: seq<nat>)
    ensures forall v: nat :: v in ids <==> v < n
  {
    if n == 0 then [] else Ids(n - 1) + [n - 1]
  }

  /** Successor lists of nodes `0..n`, in edge order. */
  method Adjacency(n: nat, edges: seq<Edge>) returns (adj: map<nat, seq<nat>>)
    requires EdgesWithin(n, edges)
    ensures forall v: nat :: v in adj <==> v < n
    ensures forall v: nat, w | v < n :: w in adj[v] <==> (v, w) in ArcsOf(edges)
  {
    adj := map v | v in Ids(n) :: [];
    for k := 0 to |edges|
      invariant forall v: nat :: v in adj <==> v < n
      invariant forall v: nat, w | v < n :: w in adj[v] <==> (v, w) in ArcsOf(edges[..k])
    {
      var e := edges[k];
      adj := adj[e.producer := adj[e.producer] + [e.consumer]];
      assert edges[..k + 1] == edges[..k] + [e];
      assert ArcsOf(edges[..k + 1]) == ArcsOf(edges[..k]) + {(e.producer, e.consumer)};
    }
    assert edges[..|edges|] == edges;
  }

  // ---- the order of value names -------------------------------------------------

  predicate StringLess(s: string, t: string) {
    if t == "" then false
    else if s == "" then true
    else s[0] < t[0] || (s[0] == t[0] && StringLess(s[1..], t[1..]))
  }

  /** They agree before place `k`, where `s` has ended or has the smaller character. */
  ghost predicate LessAt(s: string, t: string, k: nat) {
    k <= |s| && k < |t| && s[..k] == t[..k] && (k == |s| || s[k] < t[k])
  }

  /** Alphabetical order. */
  lemma {:induction false} StringLessIff(s: string, t: string)
    ensures StringLess(s, t) <==> exists k: nat :: LessAt(s, t, k)
  {
    if t != "" && (s == "" || s[0] < t[0]) {
      assert LessAt(s, t, 0);
    } else if s != "" && t != "" {
      StringLessIff(s[1..], t[1..]);
      if k: nat :| LessAt(s[1..], t[1..], k) {
        SamePrefix(s, t, k + 1);
        assert s[0] == t[0] ==> LessAt(s, t, k + 1);
      }
      if k: nat :| LessAt(s, t, k) && s[0] == t[0] {
        SamePrefix(s, t, k);
        assert LessAt(s[1..], t[1..], k - 1);
      }
    }
  }

  lemma {:induction false} SamePrefix<T>(s: seq<T>, t: seq<T>, k: nat)
    requires 0 < k <= |s| && k <= |t|
    ensures s[..k] == t[..k] <==> s[0] == t[0] && s[1..][..k - 1] == t[1..][..k - 1]
  {
    assert s[..k] == [s[0]] + s[1..][..k - 1] && t[..k] == [t[0]] + t[1..][..k - 1];
  }

  lemma {:induction false} StringLessTrans(s: string, t: string, u: string)
    requires StringLess(s, t) && StringLess(t, u)
    ensures StringLess(s, u)
  {
    if s != "" && s[0] == t[0] && t[0] == u[0] {
      StringLessTrans(s[1..], t[1..], u[1..]);
    }
  }

  lemma {:induction false} StringLessIrreflexive(s: string)
    ensures !StringLess(s, s)
  {
    if s != "" {
      StringLessIrreflexive(s[1..]);
    }
  }

  lemma {:induction false} StringLessTotal(s: string, t: string)
    ensures s == t || StringLess(s, t) || StringLess(t, s)
  {
    if s != "" && t != "" && s[0] == t[0] {
      StringLessTotal(s[1..], t[1..]);
      assert s == [s[0]] + s[1..] && t == [t[0]] + t[1..];
    }
  }
}
