/**
 Who writes and who reads each value, and which operations may share a cell (bdc/emit.py).
 */
module ValueUse {
  import opened Dataflow
  import opened Operators

  const FUSABLE_OPS: set<string> :=
    {"addi", "subi", "muli", "cmpi", "andi", "ori", "xori", "shli", "shrsi", "shrui", "select"}

  const MAX_FUSE_NODES: nat := 4

  predicate Fusable(nodes: seq<Node>, i: nat) {
    i < |nodes| && nodes[i].op in FUSABLE_OPS
  }

  /** The operand and result counts the operations are defined to have. */
  predicate Shaped(nodes: seq<Node>) {
    forall i: nat | i < |nodes| :: ShapedNode(nodes[i])
  }

  predicate ShapedNode(n: Node) {
    && (n.op in FUSABLE_OPS ==> |n.operands| == Arity(n.op))
    && (n.op == "constant" ==> |n.operands| == 1 && |n.results| == 1)
    && (n.op == "source" ==> n.operands == [] && |n.results| == 1)
  }

  // ---- who writes and who reads a value -----------------------------------------

  /** The node that produces `v`. */
  function ProducerOf(nodes: seq<Node>, v: string): (r: Option<nat>)
    ensures r.Some? ==> r.value < |nodes| && v in nodes[r.value].results
    ensures r.None? ==> forall i | 0 <= i < |nodes| :: v !in nodes[i].results
  {
    if nodes == [] then None
    else
      var n := |nodes| - 1;
      if v in nodes[n].results then Some(n) else ProducerOf(nodes[..n], v)
  }

  function Occurrences(xs: seq<string>, v: string): nat {
    if xs == [] then 0 else Occurrences(xs[..|xs| - 1], v) + if xs[|xs| - 1] == v then 1 else 0
  }

  /** The readers of `v` in node order, each as often as it reads it. */
  function Eaters(nodes: seq<Node>, v: string): seq<nat> {
    if nodes == [] then []
    else
      var n := |nodes| - 1;
      Eaters(nodes[..n], v) + Repeated(n, Occurrences(nodes[n].operands, v))
  }

  function Repeated(x: nat, times: nat): (r: seq<nat>)
    ensures |r| == times && forall y :: y in r <==> y == x && times > 0
  {
    if times == 0 then [] else Repeated(x, times - 1) + [x]
  }

  /** Static single assignment: no two nodes produce the same value. */
  ghost predicate OneWriter(nodes: seq<Node>) {
    forall i: nat, j: nat, v | i < |nodes| && j < |nodes| && v in nodes[i].results && v in nodes[j].results :: i == j
  }

  ghost predicate OneReader(nodes: seq<Node>) {
    forall v :: |Eaters(nodes, v)| <= 1
  }

  lemma {:induction false} OccurrencesIff(xs: seq<string>, v: string)
    ensures Occurrences(xs, v) > 0 <==> v in xs
  {
    if xs != [] {
      var init := xs[..|xs| - 1];
      OccurrencesIff(init, v);
      assert xs == init + [xs[|xs| - 1]];
    }
  }

  lemma {:induction false} OccursTwice(xs: seq<string>, v: string, k: nat, l: nat)
    requires k < l < |xs| && xs[k] == v && xs[l] == v
    ensures Occurrences(xs, v) >= 2
  {
    var init := xs[..|xs| - 1];
    if l < |xs| - 1 {
      OccursTwice(init, v, k, l);
    } else {
      OccurrencesIff(init, v);
      assert init[k] == v;
    }
  }

  lemma {:induction false} EatersIff(nodes: seq<Node>, v: string)
    ensures forall j: nat :: j in Eaters(nodes, v) <==> j < |nodes| && v in nodes[j].operands
  {
    if nodes != [] {
      var n := |nodes| - 1;
      EatersIff(nodes[..n], v);
      OccurrencesIff(nodes[n].operands, v);
    }
  }

  lemma {:induction false} EatersGrow(nodes: seq<Node>, v: string, j: nat)
    requires j < |nodes|
    ensures |Eaters(nodes, v)| >= Occurrences(nodes[j].operands, v)
    ensures forall i: nat | i < j
              && v in nodes[i].operands :: |Eaters(nodes, v)| >= Occurrences(nodes[j].operands, v) + 1
    decreases |nodes|
  {
    var n := |nodes| - 1;
    EatersIff(nodes[..n], v);
    if j < n {
      EatersGrow(nodes[..n], v, j);
    }
  }

  /** A value with one reader is read in one place only. */
  lemma {:induction false} SoleReader(nodes: seq<Node>, v: string, i: nat, k: nat, j: nat, l: nat)
    requires |Eaters(nodes, v)| <= 1
    requires i < |nodes| && k < |nodes[i].operands| && nodes[i].operands[k] == v
    requires j < |nodes| && l < |nodes[j].operands| && nodes[j].operands[l] == v
    ensures i == j && k == l && Eaters(nodes, v) == [i]
  {
    EatersIff(nodes, v);
    OccurrencesIff(nodes[i].operands, v);
    OccurrencesIff(nodes[j].operands, v);
    if i != j {
      EatersGrow(nodes, v, if i < j then j else i);
    } else if k != l {
      OccursTwice(nodes[i].operands, v, if k < l then k else l, if k < l then l else k);
      EatersGrow(nodes, v, i);
    }
    assert i in Eaters(nodes, v);
  }

  lemma {:induction false} ProducerIs(nodes: seq<Node>, v: string, i: nat)
    requires OneWriter(nodes) && i < |nodes| && v in nodes[i].results
    ensures ProducerOf(nodes, v) == Some(i)
  {
  }

  type Producers = map<string, nat>
  type Readership = map<string, seq<nat>>

  function LookUp<K, V>(m: map<K, V>, k: K): Option<V> {
    if k in m then Some(m[k]) else None
  }

  function ReadersIn(m: Readership, v: string): seq<nat> {
    if v in m then m[v] else []
  }

  method ProducerMap(nodes: seq<Node>) returns (producer: Producers)
    ensures forall v :: LookUp(producer, v) == ProducerOf(nodes, v)
  {
    producer := map[];
    for i := 0 to |nodes|
      invariant forall v :: LookUp(producer, v) == ProducerOf(nodes[..i], v)
    {
      var results := nodes[i].results;
      ghost var before := producer;
      for k := 0 to |results|
        invariant forall v :: LookUp(producer, v) == if v in results[..k] then Some(i) else LookUp(before, v)
      {
        assert results[..k + 1] == results[..k] + [results[k]];
        producer := producer[results[k] := i];
      }
      assert results[..|results|] == results;
      assert nodes[..i + 1][..i] == nodes[..i];
    }
    assert nodes[..|nodes|] == nodes;
  }

  /** The readers of `v` among the first `i` nodes and the first `k` operands of node `i`. */
  ghost function EatersUpTo(nodes: seq<Node>, i: nat, k: nat, v: string): seq<nat>
    requires i < |nodes| && k <= |nodes[i].operands|
  {
    Eaters(nodes[..i], v) + Repeated(i, Occurrences(nodes[i].operands[..k], v))
  }

  lemma {:induction false} EatersNext(nodes: seq<Node>, i: nat, k: nat, v: string)
    requires i < |nodes| && k < |nodes[i].operands|
    ensures EatersUpTo(nodes, i, k + 1, v) == EatersUpTo(nodes, i, k, v) + if nodes[i].operands[k] == v then [i] else []
  {
    assert nodes[i].operands[..k + 1][..k] == nodes[i].operands[..k];
  }

  lemma {:induction false} EatersEnds(nodes: seq<Node>, i: nat, v: string)
    requires i < |nodes|
    ensures EatersUpTo(nodes, i, 0, v) == Eaters(nodes[..i], v)
    ensures EatersUpTo(nodes, i, |nodes[i].operands|, v) == Eaters(nodes[..i + 1], v)
  {
    assert nodes[..i + 1][..i] == nodes[..i];
    assert nodes[i].operands[..|nodes[i].operands|] == nodes[i].operands;
  }

  method ConsumerMap(nodes: seq<Node>) returns (consumers: Readership)
    ensures forall v :: ReadersIn(consumers, v) == Eaters(nodes, v)
  {
    hide EatersUpTo;
    consumers := map[];
    for i := 0 to |nodes|
      invariant forall v :: ReadersIn(consumers, v) == Eaters(nodes[..i], v)
    {
      forall v ensures ReadersIn(consumers, v) == EatersUpTo(nodes, i, 0, v) {
        EatersEnds(nodes, i, v);
      }
      for k := 0 to |nodes[i].operands|
        invariant forall v :: ReadersIn(consumers, v) == EatersUpTo(nodes, i, k, v)
      {
        var o := nodes[i].operands[k];
        consumers := consumers[o := ReadersIn(consumers, o) + [i]];
        forall v ensures ReadersIn(consumers, v) == EatersUpTo(nodes, i, k + 1, v) {
          EatersNext(nodes, i, k, v);
        }
      }
      forall v ensures ReadersIn(consumers, v) == Eaters(nodes[..i + 1], v) {
        EatersEnds(nodes, i, v);
      }
    }
    assert nodes[..|nodes|] == nodes;
  }
}
