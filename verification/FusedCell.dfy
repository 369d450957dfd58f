/**
 What a fused cell does, and that it does what its operations and constants did as cells of
 their own (`_emit_fused_module` in bdc/emit.py).
 */
module FusedCell {
  import opened Graphs
  import opened Dataflow
  import opened Powers
  import opened Operators
  import opened ValueUse
  import opened TopoOrder
  import opened Literals
  import opened Regions
  import opened Streams

  /** `r` is a region whose members are listed producers first. */
  ghost predicate SortedRegion(nodes: seq<Node>, r: Region) {
    && Shaped(nodes) && OneWriter(nodes) && Members(nodes, Elements(r.nodeIds))
    && IsRegion(nodes, Elements(r.nodeIds), r) && ProducersFirst(nodes, r.nodeIds)
  }

  ghost predicate RegionTyped(nodes: seq<Node>, width: Width, r: Region) {
    forall i | i in r.nodeIds :: i < |nodes| && WellTyped(nodes[i], width)
  }

  // ---- the operations as separate cells -----------------------------------------

  ghost predicate MembersFire(nodes: seq<Node>, width: Width, r: Region, h: History)
    requires RegionTyped(nodes, width, r)
  {
    forall i | i in r.nodeIds :: Fires(nodes[i], width, h)
  }

  /** Constant `c` and the source that triggers it are live. */
  ghost predicate LiveConstant(nodes: seq<Node>, width: Width, h: History, c: nat)
    requires Shaped(nodes) && Absorbable(nodes, c)
  {
    ShapedTrigger(nodes, c);
    ConstantFires(nodes[c], width, h) && SourceFires(nodes[Trigger(nodes, c).value], h)
  }

  lemma {:induction false} ShapedTrigger(nodes: seq<Node>, c: nat)
    requires Shaped(nodes) && Absorbable(nodes, c)
    ensures nodes[Trigger(nodes, c).value].results == [nodes[c].operands[0]]
  {
    assert ShapedNode(nodes[Trigger(nodes, c).value]);
  }

  ghost predicate LiteralsLive(nodes: seq<Node>, width: Width, r: Region, h: History)
    requires Shaped(nodes)
  {
    forall c: nat, i: nat, k: nat | LiteralFrom(nodes, c, i, k)
      && (i, k) in r.constOf :: LiveConstant(nodes, width, h, c)
  }

  /** `h` is a history of the region's operations and absorbed constants, each a cell of its own. */
  ghost predicate Separate(nodes: seq<Node>, width: Width, r: Region, h: History)
    requires Shaped(nodes) && RegionTyped(nodes, width, r)
  {
    MembersFire(nodes, width, r, h) && LiteralsLive(nodes, width, r, h)
  }

  // ---- the fused cell -----------------------------------------------------------

  /** What port `p` of member `i` is wired to. */
  ghost function PortValue(nodes: seq<Node>, width: Width, r: Region, wires: map<nat, nat>, inputs: seq<nat>, i: nat,
      p: nat): nat
    requires i < |nodes| && |nodes[i].operands| == Arity(nodes[i].op)
  {
    if (i, p) !in r.refs then 0
    else match r.refs[(i, p)]
      case Literal(v) => Mask(PortWidth(nodes[i].op, p, OpWidth(nodes[i], width)), v)
      case External(j) => if j < |inputs| then inputs[j] else 0
      case Interior(q) => if q in wires then wires[q] else 0
  }

  ghost function PortValues(nodes: seq<Node>, width: Width, r: Region, wires: map<nat, nat>, inputs: seq<nat>,
      i: nat): (ports: seq<nat>)
    requires i < |nodes| && |nodes[i].operands| == Arity(nodes[i].op)
    ensures |ports| == Arity(nodes[i].op)
  {
    seq(|nodes[i].operands|, p requires 0 <= p < |nodes[i].operands| => PortValue(nodes, width, r, wires, inputs, i, p))
  }

  /** The interior wires of the first `n` members. */
  ghost function CellWires(nodes: seq<Node>, width: Width, r: Region, inputs: seq<nat>, n: nat): (wires: map<nat, nat>)
    requires RegionTyped(nodes, width, r) && n <= |r.nodeIds|
    ensures wires.Keys == Elements(r.nodeIds[..n])
  {
    if n == 0 then map[]
    else
      var i := r.nodeIds[n - 1];
      assert i in r.nodeIds && r.nodeIds[..n] == r.nodeIds[..n - 1] + [i];
      var wires := CellWires(nodes, width, r, inputs, n - 1);
      var ports := PortValues(nodes, width, r, wires, inputs, i);
      wires[i := FusedExpr(nodes[i].op, nodes[i].pred, OpWidth(nodes[i], width), ports)]
  }

  ghost function CellValue(nodes: seq<Node>, width: Width, r: Region, inputs: seq<nat>): nat
    requires RegionTyped(nodes, width, r) && r.anchor in r.nodeIds
  {
    assert r.nodeIds[..|r.nodeIds|] == r.nodeIds;
    CellWires(nodes, width, r, inputs, |r.nodeIds|)[r.anchor]
  }

  /** The channel the cell drives. */
  ghost function Output(nodes: seq<Node>, r: Region, h: History): Channel
    requires r.anchor < |nodes| && nodes[r.anchor].results != []
  {
    h(ResultName(nodes[r.anchor]))
  }

  ghost predicate InputsOffer(r: Region, h: History, k: nat) {
    forall j | 0 <= j < |r.extInputs| :: Has(h(r.extInputs[j]).offered, k)
  }

  ghost function InputTokens(r: Region, h: History, k: nat): seq<nat> {
    seq(|r.extInputs|, j requires 0 <= j < |r.extInputs| => At(h(r.extInputs[j]).offered, k))
  }

  /** `h` is a history of the region as one cell: one join, the interior logic, one acknowledge. */
  ghost predicate FusedFires(nodes: seq<Node>, width: Width, r: Region, h: History)
    requires RegionTyped(nodes, width, r) && r.anchor in r.nodeIds
  {
    var z := Output(nodes, r, h);
    && (forall k :: Has(z.offered, k) <==> InputsOffer(r, h, k))
    && (forall k | Has(z.offered, k) :: At(z.offered, k) == CellValue(nodes, width, r, InputTokens(r, h, k)))
    && forall j | 0 <= j < |r.extInputs| :: h(r.extInputs[j]).taken == z.taken
  }

  ghost predicate InputsTyped(width: Width, r: Region, h: History) {
    forall j | 0 <= j < |r.extInputs| :: TypedTokens(r.extInputs[j], width, h)
  }

  // ---- from separate cells to the fused one -------------------------------------

  lemma {:induction false} SortedFacts(nodes: seq<Node>, r: Region)
    requires SortedRegion(nodes, r)
    ensures NoRepeats(r.nodeIds) && OneResultEach(nodes, r.nodeIds) && ProducersFirst(nodes, r.nodeIds)
    ensures OneWriter(nodes)
    ensures r.anchor in r.nodeIds && r.anchor < |nodes| && |nodes[r.anchor].results| == 1
  {
  }

  lemma {:induction false} RegionWires(nodes: seq<Node>, r: Region, i: nat, p: nat)
    requires SortedRegion(nodes, r) && i in r.nodeIds && i < |nodes| && p < |nodes[i].operands|
    ensures (i, p) in r.refs && Wires(nodes, Elements(r.nodeIds), r.constOf, r.extInputs, i, p, r.refs[(i, p)])
  {
    assert i in Elements(r.nodeIds);
  }

  /** A folded operand's constant, and the literal it carries. */
  lemma {:induction false} LiteralSource(nodes: seq<Node>, r: Region, i: nat, p: nat) returns (c: nat)
    requires SortedRegion(nodes, r) && (i, p) in r.constOf
    ensures LiteralFrom(nodes, c, i, p) && nodes[c].value == Some(r.constOf[(i, p)])
  {
    assert (i, p) in FoldedPlaces(nodes, Elements(r.nodeIds));
    assert Folds(nodes, i, p);
    c :| LiteralFrom(nodes, c, i, p);
  }

  /** A live constant offers its masked literal for ever. */
  lemma {:induction false} LiteralEndless(nodes: seq<Node>, width: Width, r: Region, h: History, i: nat, p: nat, k: nat)
    requires SortedRegion(nodes, r) && LiteralsLive(nodes, width, r, h) && (i, p) in r.constOf && i < |nodes|
    requires p < |nodes[i].operands|
    ensures Has(h(nodes[i].operands[p]).offered, k)
    ensures At(h(nodes[i].operands[p]).offered, k) == Mask(width(nodes[i].operands[p]), r.constOf[(i, p)])
  {
    var c := LiteralSource(nodes, r, i, p);
    hide SortedRegion;
    ShapedTrigger(nodes, c);
    assert LiveConstant(nodes, width, h, c);
  }

  /** The member whose result an interior operand is, earlier in the order. */
  lemma {:induction false} InteriorSource(nodes: seq<Node>, r: Region, n: nat, p: nat) returns (m: nat)
    requires SortedRegion(nodes, r) && n < |r.nodeIds| && r.nodeIds[n] < |nodes| && p < |nodes[r.nodeIds[n]].operands|
    requires (r.nodeIds[n], p) in r.refs && r.refs[(r.nodeIds[n], p)].Interior?
    ensures m < n && r.nodeIds[m] == r.refs[(r.nodeIds[n], p)].producer && r.nodeIds[m] < |nodes|
    ensures nodes[r.nodeIds[m]].results == [nodes[r.nodeIds[n]].operands[p]]
  {
    var i := r.nodeIds[n];
    assert i in r.nodeIds;
    RegionWires(nodes, r, i, p);
    SortedFacts(nodes, r);
    m := EarlierProducer(nodes, r.nodeIds, n, p);
  }

  lemma {:induction false} EarlierProducer(nodes: seq<Node>, order: seq<nat>, n: nat, p: nat) returns (m: nat)
    requires ProducersFirst(nodes, order) && OneResultEach(nodes, order)
    requires n < |order| && order[n] < |nodes| && p < |nodes[order[n]].operands|
    requires Interiorly(nodes, Elements(order), nodes[order[n]].operands[p])
    ensures m < n && Some(order[m]) == ProducerOf(nodes, nodes[order[n]].operands[p]) && order[m] < |nodes|
    ensures nodes[order[m]].results == [nodes[order[n]].operands[p]]
  {
    var v := nodes[order[n]].operands[p];
    assert v in nodes[order[n]].operands;
    var q := ProducerOf(nodes, v).value;
    assert q in order[..n];
    m :| 0 <= m < n && order[m] == q;
    assert q in order;
  }

  /** Member `m`'s result has a `k`th token, the value on its wire. */
  ghost predicate Computed(nodes: seq<Node>, width: Width, r: Region, h: History, k: nat, wires: map<nat, nat>, m: nat)
    requires m < |r.nodeIds| && RegionTyped(nodes, width, r)
  {
    var i := r.nodeIds[m];
    assert i in r.nodeIds;
    var z := h(ResultName(nodes[i])).offered;
    Has(z, k) && i in wires && At(z, k) == wires[i] < Pow2(width(ResultName(nodes[i])))
  }

  /** Each port of the next member carries the operand's `k`th token. */
  lemma {:induction false} PortComputed(nodes: seq<Node>, width: Width, r: Region, h: History, k: nat, n: nat,
      wires: map<nat, nat>, p: nat)
    requires SortedRegion(nodes, r) && RegionTyped(nodes, width, r) && LiteralsLive(nodes, width, r, h)
    requires InputsTyped(width, r, h) && InputsOffer(r, h, k)
    requires n < |r.nodeIds| && r.nodeIds[n] < |nodes|
    requires |nodes[r.nodeIds[n]].operands| == Arity(nodes[r.nodeIds[n]].op) > p
    requires forall m: nat | m < n :: Computed(nodes, width, r, h, k, wires, m)
    ensures var i := r.nodeIds[n]; var v := nodes[i].operands[p];
            && Has(h(v).offered, k)
            && At(h(v).offered, k) == PortValue(nodes, width, r, wires, InputTokens(r, h, k), i, p) < Pow2(width(v))
  {
    var i := r.nodeIds[n];
    var v := nodes[i].operands[p];
    assert i in r.nodeIds;
    RegionWires(nodes, r, i, p);
    match r.refs[(i, p)] {
      case Literal(lit) =>
        LiteralEndless(nodes, width, r, h, i, p, k);
        assert WellTyped(nodes[i], width);
      case External(j) =>
        assert TypedTokens(r.extInputs[j], width, h);
      case Interior(q) =>
        var m := InteriorSource(nodes, r, n, p);
        assert Computed(nodes, width, r, h, k, wires, m);
    }
  }

  /** The next member's wire carries its result's `k`th token. */
  lemma {:induction false} MemberComputes(nodes: seq<Node>, width: Width, r: Region, h: History, k: nat, n: nat,
      wires: map<nat, nat>) returns (x: nat)
    requires SortedRegion(nodes, r) && RegionTyped(nodes, width, r) && Separate(nodes, width, r, h)
    requires InputsTyped(width, r, h) && InputsOffer(r, h, k) && n < |r.nodeIds|
    requires forall m: nat | m < n :: Computed(nodes, width, r, h, k, wires, m)
    ensures var i := r.nodeIds[n];
            && i in r.nodeIds
            && x == FusedExpr(nodes[i].op, nodes[i].pred, OpWidth(nodes[i], width),
                PortValues(nodes, width, r, wires, InputTokens(r, h, k), i))
            && Computed(nodes, width, r, h, k, wires[i := x], n)
  {
    hide SortedRegion, Computed, InputsOffer, InputsTyped, LiteralsLive, PortValue;
    var i := r.nodeIds[n];
    assert i in r.nodeIds;
    assert WellTyped(nodes[i], width) && Fires(nodes[i], width, h);
    var ports := PortValues(nodes, width, r, wires, InputTokens(r, h, k), i);
    forall p: nat | p < |nodes[i].operands|
      ensures Has(h(nodes[i].operands[p]).offered, k)
      ensures At(h(nodes[i].operands[p]).offered, k) == ports[p] < Pow2(width(nodes[i].operands[p]))
    {
      PortComputed(nodes, width, r, h, k, n, wires, p);
    }
    assert Tokens(nodes[i], h, k) == ports;
    UnitsAgree(nodes[i].op, nodes[i].pred, OpWidth(nodes[i], width), ports);
    x := FusedExpr(nodes[i].op, nodes[i].pred, OpWidth(nodes[i], width), ports);
    JustComputed(nodes, width, r, h, k, wires, n, x);
  }

  lemma {:induction false} JustComputed(nodes: seq<Node>, width: Width, r: Region, h: History, k: nat,
      wires: map<nat, nat>, n: nat, x: nat)
    requires n < |r.nodeIds| && RegionTyped(nodes, width, r) && r.nodeIds[n] in r.nodeIds
    requires var z := h(ResultName(nodes[r.nodeIds[n]])).offered;
             Has(z, k) && At(z, k) == x < Pow2(width(ResultName(nodes[r.nodeIds[n]])))
    ensures Computed(nodes, width, r, h, k, wires[r.nodeIds[n] := x], n)
  {
  }

  lemma {:induction false} ComputedKept(nodes: seq<Node>, width: Width, r: Region, h: History, k: nat,
      wires: map<nat, nat>, m: nat, i: nat, x: nat)
    requires m < |r.nodeIds| && RegionTyped(nodes, width, r) && Computed(nodes, width, r, h, k, wires, m)
    requires r.nodeIds[m] != i
    ensures Computed(nodes, width, r, h, k, wires[i := x], m)
  {
  }

  lemma {:induction false} KeepsComputed(nodes: seq<Node>, width: Width, r: Region, h: History, k: nat, n: nat,
      wires: map<nat, nat>, i: nat, x: nat,
                     more: map<nat, nat>)
    requires NoRepeats(r.nodeIds) && RegionTyped(nodes, width, r) && n < |r.nodeIds| && i == r.nodeIds[n]
    requires forall m: nat | m < n :: Computed(nodes, width, r, h, k, wires, m)
    requires Computed(nodes, width, r, h, k, more, n) && more == wires[i := x]
    ensures forall m: nat | m < n + 1 :: Computed(nodes, width, r, h, k, more, m)
  {
    hide RegionTyped, Computed;
    forall m: nat | m < n + 1 ensures Computed(nodes, width, r, h, k, more, m) {
      if m < n {
        ComputedKept(nodes, width, r, h, k, wires, m, i, x);
      }
    }
  }

  /** The wires of the first `n` members carry the tokens of their results. */
  lemma {:induction false} CellComputes(nodes: seq<Node>, width: Width, r: Region, h: History, k: nat, n: nat)
    requires SortedRegion(nodes, r) && RegionTyped(nodes, width, r) && Separate(nodes, width, r, h)
    requires InputsTyped(width, r, h) && InputsOffer(r, h, k) && n <= |r.nodeIds|
    ensures forall m: nat | m < n :: Computed(nodes, width, r, h, k,
                CellWires(nodes, width, r, InputTokens(r, h, k), n), m)
  {
    if n > 0 {
      SortedFacts(nodes, r);
      hide SortedRegion, InputsOffer, InputsTyped, Separate, Computed, NoRepeats, OneResultEach, ProducersFirst,
        OneWriter, WellTyped, PortValues;
      var inputs := InputTokens(r, h, k);
      var wires := CellWires(nodes, width, r, inputs, n - 1);
      CellComputes(nodes, width, r, h, k, n - 1);
      var i := r.nodeIds[n - 1];
      var x := MemberComputes(nodes, width, r, h, k, n - 1, wires);
      assert CellWires(nodes, width, r, inputs, n) == wires[i := x];
      KeepsComputed(nodes, width, r, h, k, n - 1, wires, i, x, wires[i := x]);
    }
  }

  // ---- everything leads to the anchor -------------------------------------------

  /** A member other than the anchor is read by a later member. */
  lemma {:induction false} ReaderLater(nodes: seq<Node>, r: Region, m: nat) returns (n: nat, p: nat)
    requires SortedRegion(nodes, r) && m < |r.nodeIds| && r.nodeIds[m] != r.anchor
    ensures m < n < |r.nodeIds| && r.nodeIds[m] < |nodes| && r.nodeIds[n] < |nodes|
    ensures p < |nodes[r.nodeIds[n]].operands|
    ensures nodes[r.nodeIds[m]].results == [nodes[r.nodeIds[n]].operands[p]]
  {
    SortedFacts(nodes, r);
    var x := r.nodeIds[m];
    assert x in r.nodeIds;
    var v := nodes[x].results[0];
    n := MemberReader(nodes, r, x);
    p :| 0 <= p < |nodes[r.nodeIds[n]].operands| && nodes[r.nodeIds[n]].operands[p] == v;
    hide SortedRegion;
    ProducerIs(nodes, v, x);
    assert x in Elements(r.nodeIds);
    var l := EarlierProducer(nodes, r.nodeIds, n, p);
  }

  lemma {:induction false} MemberReader(nodes: seq<Node>, r: Region, x: nat) returns (n: nat)
    requires SortedRegion(nodes, r) && x in r.nodeIds && x != r.anchor
    ensures n < |r.nodeIds| && r.nodeIds[n] < |nodes| && x < |nodes| && |nodes[x].results| == 1
    ensures nodes[x].results[0] in nodes[r.nodeIds[n]].operands
  {
    SortedFacts(nodes, r);
    var members := Elements(r.nodeIds);
    assert x in members && !Sink(nodes, members, x);
    hide SortedRegion, ProducersFirst, NoRepeats;
    var eaters := Eaters(nodes, nodes[x].results[0]);
    EatersIff(nodes, nodes[x].results[0]);
    assert eaters[0] in eaters;
    assert eaters[0] in r.nodeIds;
    n :| 0 <= n < |r.nodeIds| && r.nodeIds[n] == eaters[0];
  }

  /** The anchor comes last. */
  lemma {:induction false} AnchorIsLast(nodes: seq<Node>, r: Region)
    requires SortedRegion(nodes, r)
    ensures r.nodeIds != [] && r.anchor == r.nodeIds[|r.nodeIds| - 1]
  {
    SortedFacts(nodes, r);
    var last := |r.nodeIds| - 1;
    if r.nodeIds[last] != r.anchor {
      var n, p := ReaderLater(nodes, r, last);
    }
  }

  /** Each result is offered as often, and taken as often, as the anchor's. */
  ghost predicate Leads(nodes: seq<Node>, r: Region, h: History, k: nat, m: nat)
    requires m < |r.nodeIds| && r.nodeIds[m] < |nodes| && nodes[r.nodeIds[m]].results != []
    requires r.anchor < |nodes| && nodes[r.anchor].results != []
  {
    var c, z := h(ResultName(nodes[r.nodeIds[m]])), Output(nodes, r, h);
    (Has(z.offered, k) ==> Has(c.offered, k)) && c.taken == z.taken
  }

  lemma {:induction false} AllLead(nodes: seq<Node>, width: Width, r: Region, h: History, k: nat, m: nat)
    requires SortedRegion(nodes, r) && RegionTyped(nodes, width, r) && MembersFire(nodes, width, r, h)
    requires m < |r.nodeIds|
    ensures r.nodeIds[m] < |nodes| && |nodes[r.nodeIds[m]].results| == 1 && r.anchor < |nodes|
    ensures |nodes[r.anchor].results| == 1
    ensures Leads(nodes, r, h, k, m)
    decreases |r.nodeIds| - m
  {
    SortedFacts(nodes, r);
    assert r.nodeIds[m] in r.nodeIds;
    if r.nodeIds[m] != r.anchor {
      var n, p := ReaderLater(nodes, r, m);
      hide SortedRegion;
      assert r.nodeIds[n] in r.nodeIds;
      AllLead(nodes, width, r, h, k, n);
      assert Fires(nodes[r.nodeIds[n]], width, h);
    }
  }

  /** The member that reads an external input. */
  lemma {:induction false} InputReader(nodes: seq<Node>, r: Region, j: nat) returns (m: nat, p: nat)
    requires SortedRegion(nodes, r) && j < |r.extInputs|
    ensures m < |r.nodeIds| && r.nodeIds[m] < |nodes| && p < |nodes[r.nodeIds[m]].operands|
    ensures nodes[r.nodeIds[m]].operands[p] == r.extInputs[j]
    ensures Outside(nodes, Elements(r.nodeIds), r.constOf, r.nodeIds[m], p)
  {
    assert r.extInputs[j] in r.extInputs;
    assert FromOutside(nodes, Elements(r.nodeIds), r.constOf, r.extInputs[j]);
    hide SortedRegion;
    var i: nat;
    i, p :| Outside(nodes, Elements(r.nodeIds), r.constOf, i, p) && nodes[i].operands[p] == r.extInputs[j];
    m :| 0 <= m < |r.nodeIds| && r.nodeIds[m] == i;
  }

  /** What the anchor offers and takes, every external input offers and takes. */
  lemma {:induction false} InputLeads(nodes: seq<Node>, width: Width, r: Region, h: History, k: nat, j: nat)
    requires SortedRegion(nodes, r) && RegionTyped(nodes, width, r) && MembersFire(nodes, width, r, h)
    requires j < |r.extInputs|
    ensures r.anchor < |nodes| && |nodes[r.anchor].results| == 1
    ensures Has(Output(nodes, r, h).offered, k) ==> Has(h(r.extInputs[j]).offered, k)
    ensures h(r.extInputs[j]).taken == Output(nodes, r, h).taken
  {
    var m, p := InputReader(nodes, r, j);
    AllLead(nodes, width, r, h, k, m);
    hide SortedRegion;
    assert r.nodeIds[m] in r.nodeIds;
    assert Fires(nodes[r.nodeIds[m]], width, h);
  }

  lemma {:induction false} OutputComputed(nodes: seq<Node>, width: Width, r: Region, h: History, k: nat)
    requires SortedRegion(nodes, r) && RegionTyped(nodes, width, r) && Separate(nodes, width, r, h)
    requires InputsTyped(width, r, h) && InputsOffer(r, h, k)
    ensures r.anchor in r.nodeIds
    ensures Has(Output(nodes, r, h).offered, k)
    ensures At(Output(nodes, r, h).offered, k) == CellValue(nodes, width, r, InputTokens(r, h, k))
  {
    AnchorIsLast(nodes, r);
    CellComputes(nodes, width, r, h, k, |r.nodeIds|);
    var wires := CellWires(nodes, width, r, InputTokens(r, h, k), |r.nodeIds|);
    hide SortedRegion, InputsOffer, InputsTyped, Separate, CellWires;
    assert Computed(nodes, width, r, h, k, wires, |r.nodeIds| - 1);
    assert r.nodeIds[..|r.nodeIds|] == r.nodeIds;
  }

  /** Whatever the separate cells do between inputs and output, the fused cell does too. */
  lemma {:induction false} SeparateIsFused(nodes: seq<Node>, width: Width, r: Region, h: History)
    requires SortedRegion(nodes, r) && RegionTyped(nodes, width, r) && InputsTyped(width, r, h)
    requires Separate(nodes, width, r, h)
    ensures r.anchor in r.nodeIds && FusedFires(nodes, width, r, h)
  {
    SortedFacts(nodes, r);
    hide SortedRegion, InputsTyped, RegionTyped, CellValue, InputTokens;
    var z := Output(nodes, r, h);
    forall k ensures Has(z.offered, k) <==> InputsOffer(r, h, k)
      ensures Has(z.offered, k) ==> At(z.offered, k) == CellValue(nodes, width, r, InputTokens(r, h, k))
    {
      if InputsOffer(r, h, k) {
        OutputComputed(nodes, width, r, h, k);
      }
      if Has(z.offered, k) {
        forall j | 0 <= j < |r.extInputs| ensures Has(h(r.extInputs[j]).offered, k) {
          InputLeads(nodes, width, r, h, k, j);
        }
      }
    }
    forall j | 0 <= j < |r.extInputs| ensures h(r.extInputs[j]).taken == z.taken {
      InputLeads(nodes, width, r, h, 0, j);
    }
  }
}
