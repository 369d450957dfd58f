/**
 Fusion preserves meaning, for a whole function: the fused cells and the separate operations with
 live constants have the same histories on every value that keeps a channel.
 */
module FusionMeaning {
  import opened Graphs
  import opened Dataflow
  import opened Operators
  import opened ValueUse
  import opened TopoOrder
  import opened Literals
  import opened Grouping
  import opened Regions
  import opened Fusion
  import opened LinkSites
  import opened Streams
  import opened FusedCell
  import opened Unfusing

  ghost predicate PlanTyped(nodes: seq<Node>, width: Width) {
    forall i: nat | Fusable(nodes, i) :: WellTyped(nodes[i], width)
  }

  /** A plan for a materialised, well-typed function. */
  ghost predicate GoodPlan(nodes: seq<Node>, width: Width, plan: Plan) {
    Shaped(nodes) && OneWriter(nodes) && Materialised(nodes) && IsPlan(nodes, plan) && PlanTyped(nodes, width)
  }

  lemma {:induction false} RegionIsSorted(nodes: seq<Node>, width: Width, plan: Plan, a: nat)
    requires GoodPlan(nodes, width, plan) && a in plan.anchorRegion
    ensures var r := plan.anchorRegion[a];
            SortedRegion(nodes, r) && RegionTyped(nodes, width, r) && r.anchor in r.nodeIds && r.anchor == a
    ensures OneReader(nodes)
  {
    AnchoredRegion(nodes, plan, a);
    var r := plan.anchorRegion[a];
    RegionMembers(nodes, Elements(r.nodeIds), r);
    assert LookUp(plan.anchorRegion, a) ==
      if a in plan.regionOf && plan.regionOf[a].anchor == a then Some(plan.regionOf[a]) else None;
    hide IsRegion, Acyclic, OneReader, WellTyped;
    forall i | i in r.nodeIds ensures Fusable(nodes, i) {
      MemberIsFusable(nodes, plan, i);
    }
    RegionRanked(nodes, Elements(r.nodeIds), r);
  }

  lemma {:induction false} RegionRanked(nodes: seq<Node>, members: set<nat>, r: Region)
    requires IsRegion(nodes, members, r) && Acyclic(FusableArcs(nodes))
    ensures ProducersFirst(nodes, r.nodeIds)
  {
    hide Acyclic;
  }

  /** Every region of the plan as one cell. */
  ghost predicate AllFused(nodes: seq<Node>, width: Width, plan: Plan, h: History)
    requires GoodPlan(nodes, width, plan)
  {
    forall a: nat | a in plan.anchorRegion ::
      (RegionIsSorted(nodes, width, plan, a); FusedFires(nodes, width, plan.anchorRegion[a], h))
  }

  /** Every operation and every absorbed constant as a cell of its own. */
  ghost predicate AllSeparate(nodes: seq<Node>, width: Width, plan: Plan, h: History)
    requires GoodPlan(nodes, width, plan)
  {
    forall a: nat | a in plan.anchorRegion ::
      (RegionIsSorted(nodes, width, plan, a); Separate(nodes, width, plan.anchorRegion[a], h))
  }

  ghost predicate AllInputsTyped(width: Width, plan: Plan, h: History) {
    forall a: nat | a in plan.anchorRegion :: InputsTyped(width, plan.anchorRegion[a], h)
  }

  lemma {:induction false} SeparateHistoriesFuse(nodes: seq<Node>, width: Width, plan: Plan, h: History)
    requires GoodPlan(nodes, width, plan) && AllInputsTyped(width, plan, h) && AllSeparate(nodes, width, plan, h)
    ensures AllFused(nodes, width, plan, h)
  {
    hide GoodPlan, SortedRegion, RegionTyped, FusedFires, InputsTyped;
    forall a: nat | a in plan.anchorRegion
      ensures (RegionIsSorted(nodes, width, plan, a); FusedFires(nodes, width, plan.anchorRegion[a], h))
    {
      RegionIsSorted(nodes, width, plan, a);
      SeparateIsFused(nodes, width, plan.anchorRegion[a], h);
    }
  }

  // ---- who hides a value --------------------------------------------------------

  /** Hidden values are dead. */
  lemma {:induction false} HiddenIsDead(nodes: seq<Node>, width: Width, plan: Plan, a: nat, v: string)
    requires GoodPlan(nodes, width, plan) && a in plan.anchorRegion && Hidden(nodes, plan.anchorRegion[a], v)
    ensures v in plan.deadValues
  {
    RegionIsSorted(nodes, width, plan, a);
    AnchoredRegion(nodes, plan, a);
    var r := plan.anchorRegion[a];
    assert IsPlan(nodes, plan) && Shaped(nodes);
    hide GoodPlan, SortedRegion, IsRegion, RegionTyped, IsPlan, LiteralName, TriggerName, Shaped, OneReader;
    if SomeLiteral(nodes, r, v) || SomeTrigger(nodes, r, v) {
      var c: nat :| LiteralName(nodes, r, c, v) || TriggerName(nodes, r, c, v);
      HiddenConstant(nodes, plan, r, c, v);
    } else {
      var i :| i in r.nodeIds && ResultIs(nodes, i, v);
      BuriedIsDead(nodes, plan, i, v);
    }
  }

  lemma {:induction false} BuriedIsDead(nodes: seq<Node>, plan: Plan, i: nat, v: string)
    requires IsPlan(nodes, plan) && Buried(plan.regionOf, i) && ResultOf(nodes, i, v)
    ensures v in plan.deadValues
  {
  }

  lemma {:induction false} HiddenConstant(nodes: seq<Node>, plan: Plan, r: Region, c: nat, v: string)
    requires Shaped(nodes) && IsPlan(nodes, plan) && (LiteralName(nodes, r, c, v) || TriggerName(nodes, r, c, v))
    ensures v in plan.deadValues
  {
    hide IsPlan;
    assert Absorbable(nodes, c);
    ShapedTrigger(nodes, c);
    var x := if LiteralName(nodes, r, c, v) then c else Trigger(nodes, c).value;
    assert Elided(nodes, x) && ResultOf(nodes, x, v);
    ElidedIsDead(nodes, plan, x, v);
  }

  /** The values a region's separate cells write or read. */
  ghost predicate Touched(nodes: seq<Node>, r: Region, v: string) {
    || SomeLiteral(nodes, r, v) || SomeTrigger(nodes, r, v) || MemberName(nodes, r, v)
    || exists i: nat, k: nat :: i in r.nodeIds && Reads(nodes, i, k, v)
  }

  /** A dead value that a region touches is hidden by that region, if the region has a live operand. */
  lemma {:induction false} DeadIsHidden(nodes: seq<Node>, width: Width, plan: Plan, a: nat, v: string)
    requires GoodPlan(nodes, width, plan) && a in plan.anchorRegion && v in plan.deadValues
    requires !AllLiteral(nodes, Elements(plan.anchorRegion[a].nodeIds)) && Touched(nodes, plan.anchorRegion[a], v)
    ensures Hidden(nodes, plan.anchorRegion[a], v)
  {
    var r := plan.anchorRegion[a];
    RegionIsSorted(nodes, width, plan, a);
    AnchoredRegion(nodes, plan, a);
    assert IsPlan(nodes, plan) && Shaped(nodes) && OneWriter(nodes);
    AnchorIsLive(nodes, plan, a);
    hide GoodPlan, IsRegion, SortedRegion, RegionTyped, IsPlan, Folds, AllLiteral, LiteralName, TriggerName, Shaped,
      OneReader;
    if !SomeLiteral(nodes, r, v) && !SomeTrigger(nodes, r, v) && !MemberName(nodes, r, v) {
      var i: nat, k: nat :| i in r.nodeIds && Reads(nodes, i, k, v);
      DeadIsInternal(nodes, plan, v, i, k);
      MemberIsFusable(nodes, plan, i);
      if Folds(nodes, i, k) {
        FoldedIsLiteral(nodes, r, i, k);
      } else {
        InteriorIsMember(nodes, r, v);
      }
    }
  }

  lemma {:induction false} InteriorIsMember(nodes: seq<Node>, r: Region, v: string)
    requires SortedRegion(nodes, r) && Interiorly(nodes, Elements(r.nodeIds), v)
    ensures MemberName(nodes, r, v)
  {
    SortedFacts(nodes, r);
    hide SortedRegion, ProducersFirst, OneWriter, NoRepeats, ProducerOf;
    var q := ProducerOf(nodes, v).value;
    assert q in Elements(r.nodeIds);
    ResultsOf(nodes, r, q, v);
  }

  lemma {:induction false} ResultsOf(nodes: seq<Node>, r: Region, q: nat, v: string)
    requires OneResultEach(nodes, r.nodeIds) && q in r.nodeIds && q < |nodes| && v in nodes[q].results
    ensures ResultIs(nodes, q, v)
  {
    assert nodes[q].results == [nodes[q].results[0]];
  }

  lemma {:induction false} FoldedIsLiteral(nodes: seq<Node>, r: Region, i: nat, k: nat)
    requires SortedRegion(nodes, r) && i in r.nodeIds && Folds(nodes, i, k) && !AllLiteral(nodes, Elements(r.nodeIds))
    ensures i < |nodes| && k < |nodes[i].operands| && exists c: nat :: LiteralName(nodes, r, c, nodes[i].operands[k])
  {
    var c: nat :| LiteralFrom(nodes, c, i, k);
    assert i in Elements(r.nodeIds);
    assert (i, k) in FoldedPlaces(nodes, Elements(r.nodeIds));
    assert (i, k) in r.constOf;
    assert LiteralName(nodes, r, c, nodes[i].operands[k]);
  }

  /** The anchor's result keeps its channel. */
  lemma {:induction false} AnchorIsLive(nodes: seq<Node>, plan: Plan, a: nat)
    requires Shaped(nodes) && OneWriter(nodes) && IsPlan(nodes, plan) && a in plan.anchorRegion
    ensures forall v | ResultIs(nodes, a, v) :: v !in plan.deadValues
  {
    AnchoredRegion(nodes, plan, a);
    MemberIsFusable(nodes, plan, a);
    assert LookUp(plan.anchorRegion, a) ==
      if a in plan.regionOf && plan.regionOf[a].anchor == a then Some(plan.regionOf[a]) else None;
    forall v | ResultIs(nodes, a, v) ensures v !in plan.deadValues {
      if v in plan.deadValues {
        var x: nat :| x in plan.skip && ResultOf(nodes, x, v);
        assert v in nodes[a].results && v in nodes[x].results;
        assert x == a;
        assert Elided(nodes, a);
        ElidedResults(nodes, a);
      }
    }
  }

  /** The reader of `v`, if there is one. */
  ghost function ReaderOf(nodes: seq<Node>, v: string): nat {
    if Eaters(nodes, v) == [] then 0 else Eaters(nodes, v)[0]
  }

  /** The member on whose account `v` is hidden: its producer, its reader, or its reader's reader. */
  ghost function Seat(nodes: seq<Node>, v: string): nat {
    var p := ProducerOf(nodes, v);
    if p.None? then 0
    else if Fusable(nodes, p.value) then p.value
    else if nodes[p.value].op == "constant" then ReaderOf(nodes, v)
    else
      var c := ReaderOf(nodes, v);
      if c < |nodes| && nodes[c].results != [] then ReaderOf(nodes, nodes[c].results[0]) else 0
  }

  lemma {:induction false} SeatOfConstant(nodes: seq<Node>, r: Region, c: nat, v: string)
    requires Shaped(nodes) && OneWriter(nodes) && OneReader(nodes) && forall i | i in r.nodeIds :: Fusable(nodes, i)
    requires forall pl | pl in r.constOf :: pl.0 in r.nodeIds
    requires LiteralName(nodes, r, c, v) || TriggerName(nodes, r, c, v)
    ensures Seat(nodes, v) in r.nodeIds
  {
    var i: nat, k: nat :| (i, k) in r.constOf && LiteralFrom(nodes, c, i, k)
      && (nodes[c].results[0] == v || nodes[c].operands[0] == v);
    ShapedTrigger(nodes, c);
    var z := nodes[c].results[0];
    SoleReader(nodes, z, i, k, i, k);
    if z == v {
      ResultProducer(nodes, c, v);
    } else {
      var s := Trigger(nodes, c).value;
      ResultProducer(nodes, s, v);
      SoleReader(nodes, v, c, 0, c, 0);
    }
  }

  lemma {:induction false} SeatIn(nodes: seq<Node>, width: Width, plan: Plan, a: nat, v: string)
    requires GoodPlan(nodes, width, plan) && a in plan.anchorRegion && Hidden(nodes, plan.anchorRegion[a], v)
    ensures Seat(nodes, v) in plan.anchorRegion[a].nodeIds
  {
    var r := plan.anchorRegion[a];
    RegionIsSorted(nodes, width, plan, a);
    assert Shaped(nodes) && OneWriter(nodes) && OneReader(nodes);
    forall i | i in r.nodeIds ensures Fusable(nodes, i) {
      FusableMember(nodes, r, i);
    }
    LiteralPlaces(nodes, r);
    hide GoodPlan, SortedRegion, RegionTyped, LiteralName, TriggerName, OneReader, OneWriter, Shaped;
    if SomeLiteral(nodes, r, v) || SomeTrigger(nodes, r, v) {
      var c: nat :| LiteralName(nodes, r, c, v) || TriggerName(nodes, r, c, v);
      SeatOfConstant(nodes, r, c, v);
    } else {
      var i :| i in r.nodeIds && ResultIs(nodes, i, v);
      ResultProducer(nodes, i, v);
    }
  }

  lemma {:induction false} LiteralPlaces(nodes: seq<Node>, r: Region)
    requires SortedRegion(nodes, r)
    ensures forall pl | pl in r.constOf :: pl.0 in r.nodeIds
  {
    forall pl | pl in r.constOf ensures pl.0 in r.nodeIds {
      assert pl in FoldedPlaces(nodes, Elements(r.nodeIds));
    }
  }

  /** A value is hidden by one region only. */
  lemma {:induction false} OneHider(nodes: seq<Node>, width: Width, plan: Plan, a: nat, b: nat, v: string)
    requires GoodPlan(nodes, width, plan) && a in plan.anchorRegion && b in plan.anchorRegion
    requires Hidden(nodes, plan.anchorRegion[a], v) && Hidden(nodes, plan.anchorRegion[b], v)
    ensures a == b
  {
    SeatIn(nodes, width, plan, a, v);
    SeatIn(nodes, width, plan, b, v);
    assert IsPlan(nodes, plan);
    AnchoredRegion(nodes, plan, a);
    AnchoredRegion(nodes, plan, b);
    RegionIsSorted(nodes, width, plan, a);
    RegionIsSorted(nodes, width, plan, b);
  }

  // ---- every fused history unfolds ----------------------------------------------

  ghost predicate Hides(nodes: seq<Node>, plan: Plan, a: nat, v: string) {
    a in plan.anchorRegion && Hidden(nodes, plan.anchorRegion[a], v)
  }

  ghost predicate SomeHides(nodes: seq<Node>, plan: Plan, v: string) {
    exists a: nat :: Hides(nodes, plan, a, v)
  }

  /** One region's own unfolding. */
  ghost function UnfusedAt(nodes: seq<Node>, width: Width, plan: Plan, h: History, a: nat, v: string): Channel
    requires GoodPlan(nodes, width, plan) && a in plan.anchorRegion
  {
    RegionIsSorted(nodes, width, plan, a);
    Unfused(nodes, width, plan.anchorRegion[a], h)(v)
  }

  ghost function HiderOf(nodes: seq<Node>, plan: Plan, v: string): (a: nat)
    requires SomeHides(nodes, plan, v)
    ensures Hides(nodes, plan, a, v)
  {
    var a: nat :| Hides(nodes, plan, a, v);
    a
  }

  /** `h` off the dead values; on a dead value, what its region's separate cells would do. */
  ghost function UnfusedAll(nodes: seq<Node>, width: Width, plan: Plan, h: History): History
    requires GoodPlan(nodes, width, plan)
  {
    v => if SomeHides(nodes, plan, v) then UnfusedAt(nodes, width, plan, h, HiderOf(nodes, plan, v), v) else h(v)
  }

  lemma {:induction false} HiderIs(nodes: seq<Node>, width: Width, plan: Plan, a: nat, v: string)
    requires GoodPlan(nodes, width, plan) && a in plan.anchorRegion && !SomeAllLiteral(nodes, plan)
    requires Touched(nodes, plan.anchorRegion[a], v) && SomeHides(nodes, plan, v)
    ensures HiderOf(nodes, plan, v) == a
  {
    hide GoodPlan, Touched, Hidden, AllLiteral;
    var b := HiderOf(nodes, plan, v);
    HiddenIsDead(nodes, width, plan, b, v);
    DeadIsHidden(nodes, width, plan, a, v);
    OneHider(nodes, width, plan, a, b, v);
  }

  lemma {:induction false} NotHidden(nodes: seq<Node>, width: Width, plan: Plan, h: History, a: nat, v: string)
    requires GoodPlan(nodes, width, plan) && a in plan.anchorRegion && !Hidden(nodes, plan.anchorRegion[a], v)
    ensures UnfusedAt(nodes, width, plan, h, a, v) == h(v)
  {
    RegionIsSorted(nodes, width, plan, a);
    hide GoodPlan, Hidden, Unfused;
    UnfusedShows(nodes, width, plan.anchorRegion[a], h);
  }

  /** Where a region looks, the whole unfolding agrees with the region's own. */
  lemma {:induction false} UnfusedAgrees(nodes: seq<Node>, width: Width, plan: Plan, h: History, a: nat, v: string)
    requires GoodPlan(nodes, width, plan) && a in plan.anchorRegion && !SomeAllLiteral(nodes, plan)
    requires Touched(nodes, plan.anchorRegion[a], v)
    ensures UnfusedAll(nodes, width, plan, h)(v) == UnfusedAt(nodes, width, plan, h, a, v)
  {
    hide GoodPlan, SomeAllLiteral, Touched, Hidden, UnfusedAt;
    if SomeHides(nodes, plan, v) {
      HiderIs(nodes, width, plan, a, v);
    } else {
      assert !Hides(nodes, plan, a, v);
      NotHidden(nodes, width, plan, h, a, v);
    }
  }

  lemma {:induction false} TouchedByMember(nodes: seq<Node>, r: Region, i: nat)
    requires i in r.nodeIds && i < |nodes| && |nodes[i].results| == 1
    ensures Touched(nodes, r, nodes[i].results[0])
    ensures forall p: nat | p < |nodes[i].operands| :: Touched(nodes, r, nodes[i].operands[p])
  {
    assert ResultIs(nodes, i, nodes[i].results[0]);
    forall p: nat | p < |nodes[i].operands| ensures Touched(nodes, r, nodes[i].operands[p]) {
      assert Reads(nodes, i, p, nodes[i].operands[p]);
    }
  }

  lemma {:induction false} LiveLocal(nodes: seq<Node>, width: Width, r: Region, g: History, h: History, c: nat, i: nat,
      k: nat)
    requires Shaped(nodes) && LiteralFrom(nodes, c, i, k) && (i, k) in r.constOf && LiveConstant(nodes, width, g, c)
    requires forall v | Touched(nodes, r, v) :: h(v) == g(v)
    ensures LiveConstant(nodes, width, h, c)
  {
    ShapedTrigger(nodes, c);
    assert LiteralName(nodes, r, c, nodes[c].results[0]) && TriggerName(nodes, r, c, nodes[c].operands[0]);
    assert Touched(nodes, r, nodes[c].results[0]) && Touched(nodes, r, nodes[c].operands[0]);
    hide Touched, Absorbable;
  }

  /** A region's separate cells depend only on what they touch. */
  lemma {:induction false} SeparateLocal(nodes: seq<Node>, width: Width, r: Region, g: History, h: History)
    requires Shaped(nodes) && RegionTyped(nodes, width, r) && Separate(nodes, width, r, g)
    requires forall v | Touched(nodes, r, v) :: h(v) == g(v)
    ensures Separate(nodes, width, r, h)
  {
    hide Shaped, Touched, WellTyped, Fires, LiveConstant;
    forall i | i in r.nodeIds ensures Fires(nodes[i], width, h) {
      assert Fires(nodes[i], width, g);
      WellTypedResult(nodes[i], width);
      TouchedByMember(nodes, r, i);
      FiresLocal(nodes[i], width, g, h);
    }
    forall c: nat, i: nat, k: nat | LiteralFrom(nodes, c, i, k) && (i, k) in r.constOf
      ensures LiveConstant(nodes, width, h, c)
    {
      assert LiveConstant(nodes, width, g, c);
      LiveLocal(nodes, width, r, g, h, c, i, k);
    }
  }

  lemma {:induction false} WellTypedResult(n: Node, width: Width)
    requires WellTyped(n, width)
    ensures |n.results| == 1
  {
  }

  lemma {:induction false} FiresLocal(n: Node, width: Width, g: History, h: History)
    requires |n.results| == 1 && WellTyped(n, width) && Fires(n, width, g) && h(n.results[0]) == g(n.results[0])
    requires forall p | 0 <= p < |n.operands| :: h(n.operands[p]) == g(n.operands[p])
    ensures Fires(n, width, h)
  {
    hide WellTyped;
    forall k ensures Offers(n, h, k) <==> Offers(n, g, k) {
    }
    forall k ensures Tokens(n, h, k) == Tokens(n, g, k) {
    }
  }

  /** Off the dead values the two histories show the same. */
  ghost predicate SameVisible(plan: Plan, h: History, g: History) {
    forall v | v !in plan.deadValues :: g(v) == h(v)
  }

  /**
   A history of the fused cells is the visible part of a history of the separate operations and
   constants, provided no region has only literals to read.
   */
  lemma {:induction false} FusedHistoriesUnfold(nodes: seq<Node>, width: Width, plan: Plan, h: History)
    requires GoodPlan(nodes, width, plan) && AllInputsTyped(width, plan, h) && !SomeAllLiteral(nodes, plan)
    requires AllFused(nodes, width, plan, h)
    ensures var g := UnfusedAll(nodes, width, plan, h); AllSeparate(nodes, width, plan, g) && SameVisible(plan, h, g)
  {
    var g := UnfusedAll(nodes, width, plan, h);
    hide GoodPlan, SortedRegion, RegionTyped, FusedFires, InputsTyped, Unfused, Separate, Hidden, SomeAllLiteral,
      Touched, OneReader;
    forall a: nat | a in plan.anchorRegion
      ensures (RegionIsSorted(nodes, width, plan, a); Separate(nodes, width, plan.anchorRegion[a], g))
    {
      RegionIsSorted(nodes, width, plan, a);
      RegionUnfolds(nodes, width, plan, h, a);
    }
    forall v | v !in plan.deadValues ensures g(v) == h(v) {
      if SomeHides(nodes, plan, v) {
        HiddenIsDead(nodes, width, plan, HiderOf(nodes, plan, v), v);
      }
    }
  }

  lemma {:induction false} RegionUnfolds(nodes: seq<Node>, width: Width, plan: Plan, h: History, a: nat)
    requires GoodPlan(nodes, width, plan) && AllInputsTyped(width, plan, h) && !SomeAllLiteral(nodes, plan)
    requires AllFused(nodes, width, plan, h) && a in plan.anchorRegion
    ensures RegionTyped(nodes, width, plan.anchorRegion[a]) && Shaped(nodes)
    ensures Separate(nodes, width, plan.anchorRegion[a], UnfusedAll(nodes, width, plan, h))
  {
    var r := plan.anchorRegion[a];
    RegionIsSorted(nodes, width, plan, a);
    SomeInput(nodes, r);
    hide GoodPlan, SortedRegion, RegionTyped, FusedFires, InputsTyped, Unfused, Separate, SomeAllLiteral, Touched,
      OneReader, UnfusedAll;
    FusedIsSeparate(nodes, width, r, h);
    var mine := Unfused(nodes, width, r, h);
    forall v | Touched(nodes, r, v) ensures UnfusedAll(nodes, width, plan, h)(v) == mine(v) {
      UnfusedAgrees(nodes, width, plan, h, a, v);
    }
    SeparateLocal(nodes, width, r, mine, UnfusedAll(nodes, width, plan, h));
  }
}
