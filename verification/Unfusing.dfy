/**
 The converse: every history of a fused cell is the visible part of a history of its operations
 and constants as separate cells.
 */
module Unfusing {
  import opened Graphs
  import opened Dataflow
  import opened Operators
  import opened ValueUse
  import opened TopoOrder
  import opened Literals
  import opened Regions
  import opened Streams
  import opened FusedCell

  /** `v` is the result of an absorbed constant that `r` reads as a literal. */
  ghost predicate LiteralName(nodes: seq<Node>, r: Region, c: nat, v: string) {
    exists i: nat, k: nat :: (i, k) in r.constOf && LiteralFrom(nodes, c, i, k) && nodes[c].results[0] == v
  }

  /** `v` is the result of the source that triggers such a constant. */
  ghost predicate TriggerName(nodes: seq<Node>, r: Region, c: nat, v: string) {
    exists i: nat, k: nat :: (i, k) in r.constOf && LiteralFrom(nodes, c, i, k) && nodes[c].operands[0] == v
  }

  ghost predicate MemberName(nodes: seq<Node>, r: Region, v: string) {
    exists i :: i in r.nodeIds && ResultIs(nodes, i, v)
  }

  ghost predicate ResultIs(nodes: seq<Node>, i: nat, v: string) {
    i < |nodes| && nodes[i].results == [v]
  }

  /** The values the fused cell leaves without a channel. */
  ghost predicate Hidden(nodes: seq<Node>, r: Region, v: string) {
    || SomeLiteral(nodes, r, v) || SomeTrigger(nodes, r, v)
    || (MemberName(nodes, r, v) && !ResultIs(nodes, r.anchor, v))
  }

  ghost predicate SomeLiteral(nodes: seq<Node>, r: Region, v: string) {
    exists c: nat :: LiteralName(nodes, r, c, v)
  }

  ghost predicate SomeTrigger(nodes: seq<Node>, r: Region, v: string) {
    exists c: nat :: TriggerName(nodes, r, c, v)
  }

  /** The stream a live constant puts on `v`. */
  ghost function LiteralStream(nodes: seq<Node>, width: Width, r: Region, v: string): Stream
    requires SomeLiteral(nodes, r, v)
  {
    var c: nat :| LiteralName(nodes, r, c, v);
    var lit := nodes[c].value.value;
    Endless(_ => Mask(width(v), lit))
  }

  /** `h` with the absorbed constants and their sources brought back. */
  ghost function WithLiterals(nodes: seq<Node>, width: Width, r: Region, h: History, taken: Option<nat>): History {
    v => if SomeLiteral(nodes, r, v) then Channel(LiteralStream(nodes, width, r, v), taken)
         else if SomeTrigger(nodes, r, v) then Channel(Endless(_ => 0), taken)
         else h(v)
  }

  ghost function OperandStreams(n: Node, h: History): (ins: seq<Stream>)
    ensures |ins| == |n.operands|
  {
    seq(|n.operands|, p requires 0 <= p < |n.operands| => h(n.operands[p]).offered)
  }

  /** What `n` as a cell of its own puts on its result. */
  ghost function UnitStream(n: Node, width: Width, h: History): (s: Stream)
    requires WellTyped(n, width)
    ensures forall k :: Has(s, k) <==> Offers(n, h, k)
    ensures forall k | Has(s, k) :: At(s, k) == UnitExpr(n.op, n.pred, OpWidth(n, width), Tokens(n, h, k))
  {
    var ins := OperandStreams(n, h);
    var f := (xs: seq<nat>) requires |xs| == Arity(n.op) => UnitExpr(n.op, n.pred, OpWidth(n, width), xs);
    assert forall k: nat :: AllHave(ins, k) <==> Offers(n, h, k) by {
      forall k: nat ensures AllHave(ins, k) <==> Offers(n, h, k) {
        forall p | 0 <= p < |ins| ensures ins[p] == h(n.operands[p]).offered {
        }
      }
    }
    assert forall k: nat :: Heads(ins, k) == Tokens(n, h, k);
    Zip(ins, f)
  }

  /** `h` with the first `n` members run as separate cells. */
  ghost function Extended(nodes: seq<Node>, width: Width, r: Region, h: History, taken: Option<nat>, n: nat): History
    requires RegionTyped(nodes, width, r) && n <= |r.nodeIds|
  {
    if n == 0 then WithLiterals(nodes, width, r, h, taken)
    else
      var prev := Extended(nodes, width, r, h, taken, n - 1);
      var i := r.nodeIds[n - 1];
      assert i in r.nodeIds;
      var stream := UnitStream(nodes[i], width, prev);
      v => if v == nodes[i].results[0] then Channel(stream, taken) else prev(v)
  }

  lemma {:induction false} ExtendedStep(nodes: seq<Node>, width: Width, r: Region, h: History, taken: Option<nat>,
      n: nat, v: string)
    requires RegionTyped(nodes, width, r) && n < |r.nodeIds| && r.nodeIds[n] in r.nodeIds
    ensures !ResultIs(nodes, r.nodeIds[n], v) ==>
              Extended(nodes, width, r, h, taken, n + 1)(v) == Extended(nodes, width, r, h, taken, n)(v)
    ensures ResultIs(nodes, r.nodeIds[n], v) ==>
              Extended(nodes, width, r, h, taken, n + 1)(v)
              == Channel(UnitStream(nodes[r.nodeIds[n]], width, Extended(nodes, width, r, h, taken, n)), taken)
  {
    assert WellTyped(nodes[r.nodeIds[n]], width);
    hide UnitStream;
  }

  /** Extending by later members leaves every other value alone. */
  lemma {:induction false} ExtendedKeeps(nodes: seq<Node>, width: Width, r: Region, h: History, taken: Option<nat>,
      m: nat, n: nat, v: string)
    requires RegionTyped(nodes, width, r) && m <= n <= |r.nodeIds|
    requires forall l: nat | m <= l < n :: !ResultIs(nodes, r.nodeIds[l], v)
    ensures Extended(nodes, width, r, h, taken, n)(v) == Extended(nodes, width, r, h, taken, m)(v)
    decreases n
  {
    hide RegionTyped, ResultIs, Extended;
    if m < n {
      ExtendedKeeps(nodes, width, r, h, taken, m, n - 1, v);
      assert !ResultIs(nodes, r.nodeIds[n - 1], v);
      ExtendedStep(nodes, width, r, h, taken, n - 1, v);
    }
  }

  /** Results of different members have different names. */
  lemma {:induction false} DistinctResults(nodes: seq<Node>, r: Region, m: nat, n: nat, v: string)
    requires SortedRegion(nodes, r) && m < |r.nodeIds| && n < |r.nodeIds|
    requires ResultIs(nodes, r.nodeIds[m], v) && ResultIs(nodes, r.nodeIds[n], v)
    ensures m == n
  {
    SortedFacts(nodes, r);
    hide SortedRegion;
    assert v in nodes[r.nodeIds[m]].results && v in nodes[r.nodeIds[n]].results;
    assert r.nodeIds[m] == r.nodeIds[n];
  }

  /** What member `m` reads is not a result of it or of a later member. */
  lemma {:induction false} OperandsSettled(nodes: seq<Node>, r: Region, m: nat, p: nat, l: nat)
    requires SortedRegion(nodes, r) && m <= l < |r.nodeIds| && r.nodeIds[m] < |nodes|
    requires p < |nodes[r.nodeIds[m]].operands|
    ensures !ResultIs(nodes, r.nodeIds[l], nodes[r.nodeIds[m]].operands[p])
  {
    SortedFacts(nodes, r);
    hide SortedRegion;
    var v := nodes[r.nodeIds[m]].operands[p];
    if ResultIs(nodes, r.nodeIds[l], v) {
      assert v in nodes[r.nodeIds[l]].results;
      ProducerIs(nodes, v, r.nodeIds[l]);
      assert r.nodeIds[l] in r.nodeIds;
      var e := EarlierProducer(nodes, r.nodeIds, m, p);
      assert false;
    }
  }

  lemma {:induction false} FusableMember(nodes: seq<Node>, r: Region, i: nat)
    requires SortedRegion(nodes, r) && i in r.nodeIds
    ensures Fusable(nodes, i)
  {
    assert i in Elements(r.nodeIds);
  }

  /** Constants and sources are not members. */
  lemma {:induction false} LiteralNotMember(nodes: seq<Node>, r: Region, c: nat, v: string)
    requires SortedRegion(nodes, r) && (LiteralName(nodes, r, c, v) || TriggerName(nodes, r, c, v))
    ensures !MemberName(nodes, r, v)
    ensures c < |nodes| && Absorbable(nodes, c)
    ensures LiteralName(nodes, r, c, v) ==> ResultIs(nodes, c, v)
    ensures TriggerName(nodes, r, c, v) ==> ResultIs(nodes, Trigger(nodes, c).value, v)
  {
    ShapedTrigger(nodes, c);
    var x := if LiteralName(nodes, r, c, v) then c else Trigger(nodes, c).value;
    forall i | i in r.nodeIds ensures !ResultIs(nodes, i, v) {
      FusableMember(nodes, r, i);
      OtherWriter(nodes, i, x, v);
    }
  }

  lemma {:induction false} ResultProducer(nodes: seq<Node>, i: nat, v: string)
    requires OneWriter(nodes)
    ensures ResultIs(nodes, i, v) ==> ProducerOf(nodes, v) == Some(i)
  {
    if ResultIs(nodes, i, v) {
      assert v in nodes[i].results;
      ProducerIs(nodes, v, i);
    }
  }

  lemma {:induction false} OtherWriter(nodes: seq<Node>, i: nat, x: nat, v: string)
    requires OneWriter(nodes) && Fusable(nodes, i) && !Fusable(nodes, x) && ResultIs(nodes, x, v)
    ensures !ResultIs(nodes, i, v)
  {
    ResultProducer(nodes, i, v);
    ResultProducer(nodes, x, v);
  }

  // ---- the extension is a history of the separate cells -------------------------

  ghost function Full(nodes: seq<Node>, width: Width, r: Region, h: History, taken: Option<nat>): History
    requires RegionTyped(nodes, width, r)
  {
    Extended(nodes, width, r, h, taken, |r.nodeIds|)
  }

  /** At an operand of member `m` the whole extension agrees with what the member was run on. */
  lemma {:induction false} FullAtOperand(nodes: seq<Node>, width: Width, r: Region, h: History, taken: Option<nat>,
      m: nat, p: nat)
    requires SortedRegion(nodes, r) && RegionTyped(nodes, width, r)
    requires m < |r.nodeIds| && r.nodeIds[m] < |nodes| && p < |nodes[r.nodeIds[m]].operands|
    ensures var v := nodes[r.nodeIds[m]].operands[p];
            Full(nodes, width, r, h, taken)(v) == Extended(nodes, width, r, h, taken, m)(v)
  {
    hide SortedRegion, RegionTyped, ResultIs, Extended;
    var v := nodes[r.nodeIds[m]].operands[p];
    forall l: nat | m <= l < |r.nodeIds| ensures !ResultIs(nodes, r.nodeIds[l], v) {
      OperandsSettled(nodes, r, m, p, l);
    }
    ExtendedKeeps(nodes, width, r, h, taken, m, |r.nodeIds|, v);
  }

  lemma {:induction false} FullAtResult(nodes: seq<Node>, width: Width, r: Region, h: History, taken: Option<nat>,
      m: nat)
    requires SortedRegion(nodes, r) && RegionTyped(nodes, width, r) && m < |r.nodeIds| && r.nodeIds[m] in r.nodeIds
    ensures Full(nodes, width, r, h, taken)(ResultName(nodes[r.nodeIds[m]]))
            == Channel(UnitStream(nodes[r.nodeIds[m]], width, Extended(nodes, width, r, h, taken, m)), taken)
  {
    assert WellTyped(nodes[r.nodeIds[m]], width);
    var v := ResultName(nodes[r.nodeIds[m]]);
    assert ResultIs(nodes, r.nodeIds[m], v);
    hide SortedRegion, ResultIs, Extended, UnitStream, RegionTyped;
    forall l: nat | m + 1 <= l < |r.nodeIds| ensures !ResultIs(nodes, r.nodeIds[l], v) {
      if ResultIs(nodes, r.nodeIds[l], v) {
        DistinctResults(nodes, r, m, l, v);
      }
    }
    ExtendedKeeps(nodes, width, r, h, taken, m + 1, |r.nodeIds|, v);
    ExtendedStep(nodes, width, r, h, taken, m, v);
  }

  lemma {:induction false} NotMember(nodes: seq<Node>, width: Width, r: Region, h: History, taken: Option<nat>,
      v: string)
    requires RegionTyped(nodes, width, r) && !MemberName(nodes, r, v)
    ensures Full(nodes, width, r, h, taken)(v) == WithLiterals(nodes, width, r, h, taken)(v)
  {
    hide Extended, WithLiterals, RegionTyped, ResultIs;
    forall l: nat | 0 <= l < |r.nodeIds| ensures !ResultIs(nodes, r.nodeIds[l], v) {
      assert r.nodeIds[l] in r.nodeIds;
    }
    ExtendedKeeps(nodes, width, r, h, taken, 0, |r.nodeIds|, v);
    assert Extended(nodes, width, r, h, taken, 0) == WithLiterals(nodes, width, r, h, taken) by {
      ExtendedZero(nodes, width, r, h, taken);
    }
  }

  lemma {:induction false} ExtendedZero(nodes: seq<Node>, width: Width, r: Region, h: History, taken: Option<nat>)
    requires RegionTyped(nodes, width, r)
    ensures Extended(nodes, width, r, h, taken, 0) == WithLiterals(nodes, width, r, h, taken)
  {
  }

  /** An external input is none of the values the cell hides. */
  lemma {:induction false} InputVisible(nodes: seq<Node>, r: Region, j: nat)
    requires SortedRegion(nodes, r) && OneReader(nodes) && j < |r.extInputs|
    ensures var v := r.extInputs[j]; !MemberName(nodes, r, v) && !SomeLiteral(nodes, r, v) && !SomeTrigger(nodes, r, v)
  {
    var v := r.extInputs[j];
    var m, p := InputReader(nodes, r, j);
    var i := r.nodeIds[m];
    assert i in r.nodeIds;
    FusableMember(nodes, r, i);
    assert OneWriter(nodes);
    hide SortedRegion;
    forall x | x in r.nodeIds ensures !ResultIs(nodes, x, v) {
      ResultProducer(nodes, x, v);
      assert x in Elements(r.nodeIds);
    }
    forall c: nat ensures !LiteralName(nodes, r, c, v) && !TriggerName(nodes, r, c, v) {
      NotLiteral(nodes, r, c, v, i, p);
    }
  }

  lemma {:induction false} NotLiteral(nodes: seq<Node>, r: Region, c: nat, v: string, i: nat, p: nat)
    requires OneReader(nodes) && Fusable(nodes, i) && p < |nodes[i].operands| && nodes[i].operands[p] == v
    requires (i, p) !in r.constOf
    ensures !LiteralName(nodes, r, c, v) && !TriggerName(nodes, r, c, v)
  {
    forall i': nat, k: nat | (i', k) in r.constOf && LiteralFrom(nodes, c, i', k)
      ensures nodes[c].results[0] != v && nodes[c].operands[0] != v
    {
      if nodes[c].results[0] == v {
        SoleReader(nodes, v, i, p, i', k);
      }
      if nodes[c].operands[0] == v {
        SoleReader(nodes, v, i, p, c, 0);
      }
    }
  }

  lemma {:induction false} FullAtInput(nodes: seq<Node>, width: Width, r: Region, h: History, taken: Option<nat>,
      j: nat)
    requires SortedRegion(nodes, r) && OneReader(nodes) && RegionTyped(nodes, width, r) && j < |r.extInputs|
    ensures Full(nodes, width, r, h, taken)(r.extInputs[j]) == h(r.extInputs[j])
  {
    hide SortedRegion, RegionTyped, OneReader, MemberName, SomeLiteral, SomeTrigger, Extended;
    InputVisible(nodes, r, j);
    NotMember(nodes, width, r, h, taken, r.extInputs[j]);
  }

  /** Every operand of every member is taken as often as the cell's output. */
  lemma {:induction false} FullTaken(nodes: seq<Node>, width: Width, r: Region, h: History, taken: Option<nat>, m: nat,
      p: nat)
    requires SortedRegion(nodes, r) && OneReader(nodes) && RegionTyped(nodes, width, r)
    requires m < |r.nodeIds| && r.nodeIds[m] < |nodes| && p < |nodes[r.nodeIds[m]].operands|
    requires forall j | 0 <= j < |r.extInputs| :: h(r.extInputs[j]).taken == taken
    ensures Full(nodes, width, r, h, taken)(nodes[r.nodeIds[m]].operands[p]).taken == taken
  {
    var i := r.nodeIds[m];
    var v := nodes[i].operands[p];
    assert i in r.nodeIds;
    RegionWires(nodes, r, i, p);
    hide *;
    match r.refs[(i, p)] {
      case Literal(lit) =>
        LiteralChannel(nodes, width, r, h, taken, i, p);
      case External(j) =>
        FullAtInput(nodes, width, r, h, taken, j);
      case Interior(q) =>
        InteriorTaken(nodes, width, r, h, taken, m, p);
    }
  }

  lemma {:induction false} InteriorTaken(nodes: seq<Node>, width: Width, r: Region, h: History, taken: Option<nat>,
      m: nat, p: nat)
    requires SortedRegion(nodes, r) && RegionTyped(nodes, width, r)
    requires m < |r.nodeIds| && r.nodeIds[m] < |nodes| && p < |nodes[r.nodeIds[m]].operands|
    requires (r.nodeIds[m], p) in r.refs && r.refs[(r.nodeIds[m], p)].Interior?
    ensures Full(nodes, width, r, h, taken)(nodes[r.nodeIds[m]].operands[p]).taken == taken
  {
    var e := InteriorSource(nodes, r, m, p);
    assert r.nodeIds[e] in r.nodeIds;
    hide SortedRegion, RegionTyped, Full, UnitStream, Extended, Elements;
    FullAtResult(nodes, width, r, h, taken, e);
  }

  /** A folded operand's channel in the extension. */
  lemma {:induction false} LiteralChannel(nodes: seq<Node>, width: Width, r: Region, h: History, taken: Option<nat>,
      i: nat, p: nat)
    requires SortedRegion(nodes, r) && RegionTyped(nodes, width, r) && (i, p) in r.constOf && i < |nodes|
    requires p < |nodes[i].operands|
    ensures Full(nodes, width, r, h, taken)(nodes[i].operands[p]).taken == taken
  {
    var v := nodes[i].operands[p];
    var c := LiteralSource(nodes, r, i, p);
    assert LiteralName(nodes, r, c, v);
    hide SortedRegion, RegionTyped, Full, LiteralName, TriggerName, WithLiterals, MemberName, LiteralFrom, Absorbable;
    LiteralNotMember(nodes, r, c, v);
    NotMember(nodes, width, r, h, taken, v);
    LiteralHistory(nodes, width, r, h, taken, v);
  }

  lemma {:induction false} LiteralHistory(nodes: seq<Node>, width: Width, r: Region, h: History, taken: Option<nat>,
      v: string)
    ensures SomeLiteral(nodes, r, v) ==>
              WithLiterals(nodes, width, r, h, taken)(v) == Channel(LiteralStream(nodes, width, r, v), taken)
    ensures !SomeLiteral(nodes, r, v) && SomeTrigger(nodes, r, v) ==>
              WithLiterals(nodes, width, r, h, taken)(v) == Channel(Endless(_ => 0), taken)
    ensures !SomeLiteral(nodes, r, v) && !SomeTrigger(nodes, r, v) ==>
              WithLiterals(nodes, width, r, h, taken)(v) == h(v)
  {
  }

  /** Run on the extension, a member offers what it was made to offer. */
  lemma {:induction false} MemberFires(n: Node, width: Width, before: History, after: History, taken: Option<nat>)
    requires WellTyped(n, width)
    requires forall p | 0 <= p < |n.operands| :: after(n.operands[p]) == before(n.operands[p])
               && after(n.operands[p]).taken == taken
    requires after(ResultName(n)) == Channel(UnitStream(n, width, before), taken)
    ensures Fires(n, width, after)
  {
    hide WellTyped;
    forall k ensures Offers(n, after, k) <==> Offers(n, before, k) {
    }
    forall k ensures Tokens(n, after, k) == Tokens(n, before, k) {
    }
  }

  lemma {:induction false} FullFires(nodes: seq<Node>, width: Width, r: Region, h: History, taken: Option<nat>)
    requires SortedRegion(nodes, r) && OneReader(nodes) && RegionTyped(nodes, width, r)
    requires forall j | 0 <= j < |r.extInputs| :: h(r.extInputs[j]).taken == taken
    ensures MembersFire(nodes, width, r, Full(nodes, width, r, h, taken))
  {
    var after := Full(nodes, width, r, h, taken);
    forall i | i in r.nodeIds ensures Fires(nodes[i], width, after) {
      assert WellTyped(nodes[i], width);
      var m: nat :| m < |r.nodeIds| && r.nodeIds[m] == i;
      hide SortedRegion, OneReader, Full, WellTyped, Fires, UnitStream, Extended;
      var before := Extended(nodes, width, r, h, taken, m);
      forall p: nat | p < |nodes[i].operands|
        ensures after(nodes[i].operands[p]) == before(nodes[i].operands[p])
        ensures after(nodes[i].operands[p]).taken == taken
      {
        FullAtOperand(nodes, width, r, h, taken, m, p);
        FullTaken(nodes, width, r, h, taken, m, p);
      }
      FullAtResult(nodes, width, r, h, taken, m);
      MemberFires(nodes[i], width, before, after, taken);
    }
  }

  lemma {:induction false} FullAtConstant(nodes: seq<Node>, width: Width, r: Region, h: History, taken: Option<nat>,
      c: nat, i: nat, k: nat)
    requires SortedRegion(nodes, r) && RegionTyped(nodes, width, r) && LiteralFrom(nodes, c, i, k)
    requires (i, k) in r.constOf
    ensures var f := Full(nodes, width, r, h, taken); var v, t := nodes[c].results[0], nodes[c].operands[0];
            && f(t).offered.Endless? && f(t).taken == taken && f(v).taken == taken && f(v).offered.Endless?
            && SomeLiteral(nodes, r, v) && f(v).offered == LiteralStream(nodes, width, r, v)
  {
    var v, t := nodes[c].results[0], nodes[c].operands[0];
    assert LiteralName(nodes, r, c, v) && TriggerName(nodes, r, c, t);
    hide Full, RegionTyped, SortedRegion, LiteralName, TriggerName, WithLiterals, MemberName, LiteralFrom, Absorbable;
    LiteralNotMember(nodes, r, c, v);
    LiteralNotMember(nodes, r, c, t);
    NotMember(nodes, width, r, h, taken, v);
    NotMember(nodes, width, r, h, taken, t);
    LiteralHistory(nodes, width, r, h, taken, v);
    LiteralHistory(nodes, width, r, h, taken, t);
  }

  lemma {:induction false} LiteralStreamIs(nodes: seq<Node>, width: Width, r: Region, c: nat, k: nat)
    requires OneWriter(nodes) && Absorbable(nodes, c) && SomeLiteral(nodes, r, nodes[c].results[0])
    ensures At(LiteralStream(nodes, width, r, nodes[c].results[0]), k) ==
              Mask(width(nodes[c].results[0]), nodes[c].value.value)
  {
    var v := nodes[c].results[0];
    var d: nat :| LiteralName(nodes, r, d, v);
    forall d: nat | LiteralName(nodes, r, d, v) ensures d == c {
      SameWriter(nodes, d, c, v);
    }
  }

  lemma {:induction false} SameWriter(nodes: seq<Node>, d: nat, c: nat, v: string)
    requires OneWriter(nodes) && Absorbable(nodes, c) && Absorbable(nodes, d)
    requires nodes[c].results[0] == v == nodes[d].results[0]
    ensures c == d
  {
    assert v in nodes[c].results && v in nodes[d].results;
  }

  lemma {:induction false} LiveFrom(nodes: seq<Node>, width: Width, f: History, c: nat)
    requires Shaped(nodes) && Absorbable(nodes, c)
    requires f(nodes[c].operands[0]).offered.Endless? && f(nodes[c].results[0]).offered.Endless?
    requires f(nodes[c].operands[0]).taken == f(nodes[c].results[0]).taken
    requires forall k: nat :: At(f(nodes[c].results[0]).offered, k) ==
               Mask(width(nodes[c].results[0]), nodes[c].value.value)
    ensures LiveConstant(nodes, width, f, c)
  {
    ShapedTrigger(nodes, c);
  }

  lemma {:induction false} FullLiteral(nodes: seq<Node>, width: Width, r: Region, h: History, taken: Option<nat>,
      c: nat, i: nat, k: nat)
    requires SortedRegion(nodes, r) && RegionTyped(nodes, width, r) && LiteralFrom(nodes, c, i, k)
    requires (i, k) in r.constOf
    ensures LiveConstant(nodes, width, Full(nodes, width, r, h, taken), c)
  {
    SortedFacts(nodes, r);
    FullAtConstant(nodes, width, r, h, taken, c, i, k);
    hide SortedRegion, Full, RegionTyped, SomeLiteral, OneWriter, LiteralStream, Shaped, Elements;
    forall t: nat
      ensures At(LiteralStream(nodes, width, r, nodes[c].results[0]), t) ==
                Mask(width(nodes[c].results[0]), nodes[c].value.value)
    {
      LiteralStreamIs(nodes, width, r, c, t);
    }
    hide At, Absorbable;
    LiveFrom(nodes, width, Full(nodes, width, r, h, taken), c);
  }

  lemma {:induction false} FullLiterals(nodes: seq<Node>, width: Width, r: Region, h: History, taken: Option<nat>)
    requires SortedRegion(nodes, r) && RegionTyped(nodes, width, r)
    ensures LiteralsLive(nodes, width, r, Full(nodes, width, r, h, taken))
  {
    hide RegionTyped, Full, LiveConstant;
    forall c: nat, i: nat, k: nat | LiteralFrom(nodes, c, i, k) && (i, k) in r.constOf
      ensures LiveConstant(nodes, width, Full(nodes, width, r, h, taken), c)
    {
      hide SortedRegion;
      FullLiteral(nodes, width, r, h, taken, c, i, k);
    }
  }

  // ---- the hidden part of a fused history ---------------------------------------

  /** Histories that agree token by token are histories of the same separate cells. */
  lemma {:induction false} SeparateSame(nodes: seq<Node>, width: Width, r: Region, h: History, g: History)
    requires Shaped(nodes) && RegionTyped(nodes, width, r) && Separate(nodes, width, r, h)
    requires forall v :: SameChannel(h(v), g(v))
    ensures Separate(nodes, width, r, g)
  {
    forall i | i in r.nodeIds ensures Fires(nodes[i], width, g) {
      assert Fires(nodes[i], width, h);
      hide WellTyped;
      FiresSame(nodes[i], width, h, g);
    }
    forall c: nat, i: nat, k: nat | LiteralFrom(nodes, c, i, k) && (i, k) in r.constOf
      ensures LiveConstant(nodes, width, g, c)
    {
      assert LiveConstant(nodes, width, h, c);
      LiveSame(nodes, width, h, g, c);
    }
  }

  lemma {:induction false} FiresSame(n: Node, width: Width, h: History, g: History)
    requires WellTyped(n, width) && Fires(n, width, h) && forall v :: SameChannel(h(v), g(v))
    ensures Fires(n, width, g)
  {
    assert SameChannel(h(ResultName(n)), g(ResultName(n)));
    hide WellTyped;
    forall k ensures Offers(n, g, k) <==> Offers(n, h, k) {
      assert forall p | 0 <= p < |n.operands| :: SameChannel(h(n.operands[p]), g(n.operands[p]));
    }
    forall k | Offers(n, h, k) ensures Tokens(n, g, k) == Tokens(n, h, k) {
      assert forall p | 0 <= p < |n.operands| :: SameChannel(h(n.operands[p]), g(n.operands[p]));
    }
    assert forall p | 0 <= p < |n.operands| :: SameChannel(h(n.operands[p]), g(n.operands[p]));
  }

  lemma {:induction false} LiveSame(nodes: seq<Node>, width: Width, h: History, g: History, c: nat)
    requires Shaped(nodes) && Absorbable(nodes, c) && LiveConstant(nodes, width, h, c)
    requires forall v :: SameChannel(h(v), g(v))
    ensures LiveConstant(nodes, width, g, c)
  {
    ShapedTrigger(nodes, c);
    hide Absorbable;
    assert SameChannel(h(nodes[c].operands[0]), g(nodes[c].operands[0]))
             && SameChannel(h(nodes[c].results[0]), g(nodes[c].results[0]));
  }

  /** `g` shows the same as `h` on every value the cell leaves visible. */
  ghost predicate ShowsSame(nodes: seq<Node>, r: Region, h: History, g: History) {
    forall v | !Hidden(nodes, r, v) :: g(v) == h(v)
  }

  /** The whole extension, with the anchor's own channel as it was. */
  ghost function Unfused(nodes: seq<Node>, width: Width, r: Region, h: History): History
    requires RegionTyped(nodes, width, r) && r.anchor in r.nodeIds
  {
    v => if ResultIs(nodes, r.anchor, v) then h(v) else Full(nodes, width, r, h, Output(nodes, r, h).taken)(v)
  }

  lemma {:induction false} UnfusedShows(nodes: seq<Node>, width: Width, r: Region, h: History)
    requires RegionTyped(nodes, width, r) && r.anchor in r.nodeIds
    ensures ShowsSame(nodes, r, h, Unfused(nodes, width, r, h))
  {
    var taken := Output(nodes, r, h).taken;
    hide Full, RegionTyped, MemberName, SomeLiteral, SomeTrigger, WithLiterals, Extended;
    forall v | !Hidden(nodes, r, v) ensures Unfused(nodes, width, r, h)(v) == h(v) {
      if !ResultIs(nodes, r.anchor, v) {
        NotMember(nodes, width, r, h, taken, v);
        LiteralHistory(nodes, width, r, h, taken, v);
      }
    }
  }

  /** The extension's output is the cell's output. */
  lemma {:induction false} FullOutput(nodes: seq<Node>, width: Width, r: Region, h: History, f: History)
    requires RegionTyped(nodes, width, r) && r.anchor in r.nodeIds
    requires FusedFires(nodes, width, r, h) && FusedFires(nodes, width, r, f) && r.extInputs != []
    requires forall j | 0 <= j < |r.extInputs| :: f(r.extInputs[j]) == h(r.extInputs[j])
    ensures SameChannel(Output(nodes, r, f), Output(nodes, r, h))
  {
    hide CellValue;
    forall k ensures InputsOffer(r, h, k) <==> InputsOffer(r, f, k) {
    }
    forall k ensures InputTokens(r, h, k) == InputTokens(r, f, k) {
    }
    assert h(r.extInputs[0]).taken == f(r.extInputs[0]).taken;
  }

  /**
   Whatever the fused cell does, the separate cells could have done: its history extends to the
   hidden values as a history of the separate operations and live constants.
   */
  lemma {:induction false} FusedIsSeparate(nodes: seq<Node>, width: Width, r: Region, h: History)
    requires SortedRegion(nodes, r) && OneReader(nodes) && RegionTyped(nodes, width, r) && InputsTyped(width, r, h)
    requires r.anchor in r.nodeIds && FusedFires(nodes, width, r, h)
    ensures var g := Unfused(nodes, width, r, h); Separate(nodes, width, r, g) && ShowsSame(nodes, r, h, g)
  {
    hide FusedFires;
    UnfusedShows(nodes, width, r, h);
    FullIsSeparate(nodes, width, r, h);
    var f := Full(nodes, width, r, h, Output(nodes, r, h).taken);
    var g := Unfused(nodes, width, r, h);
    forall v ensures SameChannel(f(v), g(v)) {
      UnfusedIsFull(nodes, width, r, h, v);
    }
    SeparateSame(nodes, width, r, f, g);
  }

  lemma {:induction false} UnfusedIsFull(nodes: seq<Node>, width: Width, r: Region, h: History, v: string)
    requires RegionTyped(nodes, width, r) && r.anchor in r.nodeIds
    requires SameChannel(Output(nodes, r, Full(nodes, width, r, h, Output(nodes, r, h).taken)), Output(nodes, r, h))
    ensures SameChannel(Full(nodes, width, r, h, Output(nodes, r, h).taken)(v), Unfused(nodes, width, r, h)(v))
  {
    hide Full;
  }

  lemma {:induction false} FullIsSeparate(nodes: seq<Node>, width: Width, r: Region, h: History)
    requires SortedRegion(nodes, r) && OneReader(nodes) && RegionTyped(nodes, width, r) && InputsTyped(width, r, h)
    requires r.anchor in r.nodeIds && FusedFires(nodes, width, r, h)
    ensures Shaped(nodes)
    ensures var f := Full(nodes, width, r, h, Output(nodes, r, h).taken);
            Separate(nodes, width, r, f) && SameChannel(Output(nodes, r, f), Output(nodes, r, h))
  {
    var taken := Output(nodes, r, h).taken;
    var f := Full(nodes, width, r, h, taken);
    InputsTaken(nodes, width, r, h);
    SomeInput(nodes, r);
    hide Full, FusedFires, RegionTyped, OneReader, MembersFire, LiteralsLive, SortedRegion, InputsTyped;
    FullFires(nodes, width, r, h, taken);
    FullLiterals(nodes, width, r, h, taken);
    forall j: nat | j < |r.extInputs| ensures f(r.extInputs[j]) == h(r.extInputs[j]) {
      FullAtInput(nodes, width, r, h, taken, j);
    }
    InputsTypedSame(width, r, h, f);
    SeparateIsFused(nodes, width, r, f);
    FullOutput(nodes, width, r, h, f);
  }

  lemma {:induction false} InputsTaken(nodes: seq<Node>, width: Width, r: Region, h: History)
    requires RegionTyped(nodes, width, r) && r.anchor in r.nodeIds && FusedFires(nodes, width, r, h)
    ensures forall j | 0 <= j < |r.extInputs| :: h(r.extInputs[j]).taken == Output(nodes, r, h).taken
  {
  }

  lemma {:induction false} SomeInput(nodes: seq<Node>, r: Region)
    requires SortedRegion(nodes, r)
    ensures r.extInputs != [] && Shaped(nodes)
  {
  }

  lemma {:induction false} InputsTypedSame(width: Width, r: Region, h: History, f: History)
    requires InputsTyped(width, r, h) && forall j | 0 <= j < |r.extInputs| :: f(r.extInputs[j]) == h(r.extInputs[j])
    ensures InputsTyped(width, r, f)
  {
  }
}
