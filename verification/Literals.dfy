/**
 Which constants fold into the operation they feed (the constant-absorption step of
 `compute_fusion` in bdc/emit.py).
 */
module Literals {
  import opened Dataflow
  import opened ValueUse

  /** An operand: a node and a position in its operand list. */
  type Place = (nat, nat)

  /** A constant with one reader, a fusable one, whose own trigger comes from a bare `source`. */
  ghost predicate Absorbable(nodes: seq<Node>, i: nat) {
    && i < |nodes| && nodes[i].op == "constant" && nodes[i].value.Some?
    && |nodes[i].operands| == 1 && |nodes[i].results| == 1
    && |Eaters(nodes, nodes[i].results[0])| == 1
    && Fusable(nodes, Eaters(nodes, nodes[i].results[0])[0])
    && Trigger(nodes, i).Some? && nodes[Trigger(nodes, i).value].op == "source"
  }

  /** The node that triggers constant `i`. */
  function Trigger(nodes: seq<Node>, i: nat): (r: Option<nat>)
    requires i < |nodes| && |nodes[i].operands| == 1
    ensures r.Some? ==> r.value < |nodes|
  {
    ProducerOf(nodes, nodes[i].operands[0])
  }

  /** Operand `k` of node `c` reads the absorbable constant `i`. */
  ghost predicate LiteralFrom(nodes: seq<Node>, i: nat, c: nat, k: nat) {
    Absorbable(nodes, i) && c < |nodes| && k < |nodes[c].operands| && nodes[c].operands[k] == nodes[i].results[0]
  }

  /** Operand `k` of node `c` becomes a literal. */
  ghost predicate Folds(nodes: seq<Node>, c: nat, k: nat) {
    exists i: nat :: LiteralFrom(nodes, i, c, k)
  }

  /** Node `x` disappears: an absorbed constant, or the source that triggers one. */
  ghost predicate Elided(nodes: seq<Node>, x: nat) {
    Absorbable(nodes, x) || exists i: nat :: Absorbable(nodes, i) && Trigger(nodes, i) == Some(x)
  }

  /** `lits` gives each listed place the value of the constant it reads. */
  ghost predicate LiteralValues(nodes: seq<Node>, lits: map<Place, int>) {
    forall i: nat, c: nat, k: nat | LiteralFrom(nodes, i, c, k)
      && (c, k) in lits :: Some(lits[(c, k)]) == nodes[i].value
  }

  ghost predicate FoldsBefore(nodes: seq<Node>, n: nat, c: nat, k: nat) {
    exists i: nat :: i < n && LiteralFrom(nodes, i, c, k)
  }

  ghost predicate ElidedBefore(nodes: seq<Node>, n: nat, x: nat) {
    (x < n && Absorbable(nodes, x)) || exists i: nat :: i < n && Absorbable(nodes, i) && Trigger(nodes, i) == Some(x)
  }

  ghost predicate Absorbing(nodes: seq<Node>, n: nat, absorbed: set<nat>, lits: map<Place, int>) {
    && (forall x: nat :: x in absorbed <==> ElidedBefore(nodes, n, x))
    && (forall c: nat, k: nat :: (c, k) in lits <==> FoldsBefore(nodes, n, c, k))
    && LiteralValues(nodes, lits)
  }

  lemma {:induction false} AbsorbSkips(nodes: seq<Node>, n: nat, absorbed: set<nat>, lits: map<Place, int>)
    requires Absorbing(nodes, n, absorbed, lits) && !Absorbable(nodes, n)
    ensures Absorbing(nodes, n + 1, absorbed, lits)
  {
    forall x: nat ensures ElidedBefore(nodes, n + 1, x) <==> ElidedBefore(nodes, n, x) {
    }
    forall c: nat, k: nat ensures FoldsBefore(nodes, n + 1, c, k) <==> FoldsBefore(nodes, n, c, k) {
    }
  }

  /** One more absorbed constant folds one more place: the only one that reads it. */
  lemma {:induction false} AbsorbsOne(nodes: seq<Node>, n: nat, absorbed: set<nat>, lits: map<Place, int>, c: nat,
      k: nat)
    requires Absorbing(nodes, n, absorbed, lits) && LiteralFrom(nodes, n, c, k) && OneWriter(nodes)
    ensures Absorbing(nodes, n + 1, absorbed + {n, Trigger(nodes, n).value}, lits[(c, k) := nodes[n].value.value])
  {
    hide OneWriter, LiteralValues;
    var more := absorbed + {n, Trigger(nodes, n).value};
    forall x: nat ensures x in more <==> ElidedBefore(nodes, n + 1, x) {
      ElidedNext(nodes, n, x);
    }
    var longer := lits[(c, k) := nodes[n].value.value];
    forall d: nat, l: nat ensures (d, l) in longer <==> FoldsBefore(nodes, n + 1, d, l) {
      FoldsNext(nodes, n, c, k, d, l);
    }
    ValuesNext(nodes, n, lits, c, k);
  }

  lemma {:induction false} ValuesNext(nodes: seq<Node>, n: nat, lits: map<Place, int>, c: nat, k: nat)
    requires LiteralValues(nodes, lits) && LiteralFrom(nodes, n, c, k) && OneWriter(nodes)
    ensures LiteralValues(nodes, lits[(c, k) := nodes[n].value.value])
  {
    hide OneWriter;
    var longer := lits[(c, k) := nodes[n].value.value];
    forall i: nat, d: nat, l: nat | LiteralFrom(nodes, i, d, l) && (d, l) in longer
      ensures Some(longer[(d, l)]) == nodes[i].value
    {
      if (d, l) == (c, k) {
        SameConstant(nodes, n, i, c, k);
      } else {
        assert (d, l) in lits;
      }
    }
  }

  lemma {:induction false} ElidedNext(nodes: seq<Node>, n: nat, x: nat)
    requires Absorbable(nodes, n)
    ensures ElidedBefore(nodes, n + 1, x) <==> ElidedBefore(nodes, n, x) || x == n || x == Trigger(nodes, n).value
  {
  }

  lemma {:induction false} FoldsNext(nodes: seq<Node>, n: nat, c: nat, k: nat, d: nat, l: nat)
    requires LiteralFrom(nodes, n, c, k)
    ensures FoldsBefore(nodes, n + 1, d, l) <==> FoldsBefore(nodes, n, d, l) || (d, l) == (c, k)
  {
    if LiteralFrom(nodes, n, d, l) {
      SoleReader(nodes, nodes[n].results[0], c, k, d, l);
    }
  }

  lemma {:induction false} SameConstant(nodes: seq<Node>, i: nat, j: nat, c: nat, k: nat)
    requires LiteralFrom(nodes, i, c, k) && LiteralFrom(nodes, j, c, k) && OneWriter(nodes)
    ensures i == j
  {
    assert nodes[i].results[0] in nodes[i].results && nodes[j].results[0] in nodes[j].results;
  }

  /** The absorbed nodes, and the literal at each place they feed. */
  method AbsorbConstants(nodes: seq<Node>, producer: Producers, consumers: Readership)
    returns (absorbed: set<nat>, constOf: map<Place, int>)
    requires Shaped(nodes) && OneWriter(nodes)
    requires forall v :: LookUp(producer, v) == ProducerOf(nodes, v)
    requires forall v :: ReadersIn(consumers, v) == Eaters(nodes, v)
    ensures forall x: nat :: x in absorbed <==> Elided(nodes, x)
    ensures forall c: nat, k: nat :: (c, k) in constOf <==> Folds(nodes, c, k)
    ensures LiteralValues(nodes, constOf)
  {
    hide LiteralFrom, OneWriter, Absorbing;
    absorbed, constOf := {}, map[];
    AbsorbingStarts(nodes);
    for i := 0 to |nodes|
      invariant Absorbing(nodes, i, absorbed, constOf)
    {
      AbsorbSkipsIf(nodes, i, absorbed, constOf);
      var n := nodes[i];
      assert ShapedNode(n);
      if n.op == "constant" && n.value.Some? {
        var eaters := ReadersIn(consumers, n.results[0]);
        var trigger := LookUp(producer, n.operands[0]);
        assert trigger == Trigger(nodes, i);
        if |eaters| == 1 && Fusable(nodes, eaters[0]) && trigger.Some? && nodes[trigger.value].op == "source" {
          assert Absorbable(nodes, i);
          var port := Port(nodes, eaters[0], n.results[0]);
          LiteralHere(nodes, i, eaters[0], port);
          AbsorbsOne(nodes, i, absorbed, constOf, eaters[0], port);
          constOf := constOf[(eaters[0], port) := n.value.value];
          absorbed := absorbed + {i, trigger.value};
        }
      }
    }
    AbsorbingEnds(nodes, absorbed, constOf);
  }

  lemma {:induction false} AbsorbingStarts(nodes: seq<Node>)
    ensures Absorbing(nodes, 0, {}, map[])
  {
  }

  lemma {:induction false} LiteralHere(nodes: seq<Node>, i: nat, c: nat, k: nat)
    requires Absorbable(nodes, i) && c < |nodes| && k < |nodes[c].operands|
    requires nodes[c].operands[k] == nodes[i].results[0]
    ensures LiteralFrom(nodes, i, c, k)
  {
  }

  lemma {:induction false} AbsorbSkipsIf(nodes: seq<Node>, n: nat, absorbed: set<nat>, lits: map<Place, int>)
    requires Absorbing(nodes, n, absorbed, lits)
    ensures !Absorbable(nodes, n) ==> Absorbing(nodes, n + 1, absorbed, lits)
  {
    if !Absorbable(nodes, n) {
      AbsorbSkips(nodes, n, absorbed, lits);
    }
  }

  lemma {:induction false} AbsorbingEnds(nodes: seq<Node>, absorbed: set<nat>, lits: map<Place, int>)
    requires Absorbing(nodes, |nodes|, absorbed, lits)
    ensures forall x: nat :: x in absorbed <==> Elided(nodes, x)
    ensures forall c: nat, k: nat :: (c, k) in lits <==> Folds(nodes, c, k)
    ensures LiteralValues(nodes, lits)
  {
    forall x: nat ensures x in absorbed <==> Elided(nodes, x) {
      assert ElidedBefore(nodes, |nodes|, x) <==> Elided(nodes, x);
    }
    forall c: nat, k: nat ensures (c, k) in lits <==> Folds(nodes, c, k) {
      assert FoldsBefore(nodes, |nodes|, c, k) <==> Folds(nodes, c, k);
    }
  }

  /** The first operand position at which reader `c` reads `v`. */
  method Port(nodes: seq<Node>, c: nat, v: string) returns (k: nat)
    requires c in Eaters(nodes, v)
    ensures c < |nodes| && k < |nodes[c].operands| && nodes[c].operands[k] == v
    ensures forall l | 0 <= l < k :: nodes[c].operands[l] != v
  {
    EatersIff(nodes, v);
    k := 0;
    while nodes[c].operands[k] != v
      invariant k < |nodes[c].operands| && v in nodes[c].operands[k..]
      invariant forall l | 0 <= l < k :: nodes[c].operands[l] != v
      decreases |nodes[c].operands| - k
    {
      assert nodes[c].operands[k..] == [nodes[c].operands[k]] + nodes[c].operands[k + 1..];
      k := k + 1;
    }
  }
}
