/**
 When fusion leaves a cell reading a dead value, told from the function before fusion
 (`_build_region` and `compute_fusion` in bdc/emit.py).
 */
module Stranding {
  import opened Graphs
  import opened Dataflow
  import opened ValueUse
  import opened TopoOrder
  import opened Literals
  import opened Grouping
  import opened Regions
  import opened Fusion
  import opened LinkSites
  import opened FusedCell
  import opened Streams
  import opened FusionMeaning

  /** A function that can be fused, and a plan for it. */
  ghost predicate Planned(nodes: seq<Node>, plan: Plan) {
    Shaped(nodes) && OneWriter(nodes) && Materialised(nodes) && IsPlan(nodes, plan)
  }

  lemma {:induction false} PlannedRegion(nodes: seq<Node>, plan: Plan, a: nat)
    requires Planned(nodes, plan) && a in plan.anchorRegion
    ensures var r := plan.anchorRegion[a];
            && SortedRegion(nodes, r) && r.anchor == a && a in r.nodeIds && OneReader(nodes)
              && Acyclic(FusableArcs(nodes))
            && a in plan.regionOf
            && forall j | j in r.nodeIds :: j in plan.regionOf && plan.regionOf[j] == r && Fusable(nodes, j)
  {
    AnchoredRegion(nodes, plan, a);
    var r := plan.anchorRegion[a];
    RegionMembers(nodes, Elements(r.nodeIds), r);
    assert LookUp(plan.anchorRegion, a) ==
      if a in plan.regionOf && plan.regionOf[a].anchor == a then Some(plan.regionOf[a]) else None;
    hide IsRegion, Acyclic, OneReader;
    forall i | i in r.nodeIds ensures Fusable(nodes, i) {
      MemberIsFusable(nodes, plan, i);
    }
    RegionRanked(nodes, Elements(r.nodeIds), r);
  }

  // ---- enough for no cell to be stranded ------------------------------------------

  /** Every fusable operation has an operand that does not fold. */
  ghost predicate NoneConstant(nodes: seq<Node>) {
    forall i: nat | Fusable(nodes, i) :: ReadsLive(nodes, i)
  }

  ghost predicate ReadsLive(nodes: seq<Node>, i: nat) {
    exists k: nat :: i < |nodes| && k < |nodes[i].operands| && !Folds(nodes, i, k)
  }

  /** The first member of a region reads nothing from inside; if all it reads are literals, it has no live operand. */
  lemma {:induction false} LiveOperandsSuffice(nodes: seq<Node>, plan: Plan)
    requires Planned(nodes, plan) && NoneConstant(nodes)
    ensures !SomeAllLiteral(nodes, plan)
    ensures forall v | v in plan.deadValues :: !CellInput(plan, v)
  {
    forall a: nat | a in plan.anchorRegion ensures !AllLiteral(nodes, Elements(plan.anchorRegion[a].nodeIds)) {
      PlannedRegion(nodes, plan, a);
      FirstReadsLive(nodes, plan.anchorRegion[a]);
    }
    DeadInputIff(nodes, plan);
  }

  lemma {:induction false} FirstReadsLive(nodes: seq<Node>, r: Region)
    requires SortedRegion(nodes, r) && r.nodeIds != [] && ReadsLive(nodes, r.nodeIds[0])
    ensures !AllLiteral(nodes, Elements(r.nodeIds))
  {
    var i := r.nodeIds[0];
    var k: nat :| k < |nodes[i].operands| && !Folds(nodes, i, k);
    hide IsRegion, Folds, Interiorly, ProducersFirst, Shaped, OneWriter;
    FirstReadsOutside(nodes, r.nodeIds, nodes[i].operands[k]);
    assert i in Elements(r.nodeIds);
  }

  lemma {:induction false} FirstReadsOutside(nodes: seq<Node>, order: seq<nat>, v: string)
    requires ProducersFirst(nodes, order) && order != [] && order[0] < |nodes| && v in nodes[order[0]].operands
    ensures !Interiorly(nodes, Elements(order), v)
  {
    assert order[..0] == [];
  }

  /** So then every history of the fused function unfolds. */
  lemma {:induction false} LiveFunctionsUnfold(nodes: seq<Node>, width: Width, plan: Plan, h: History)
    requires GoodPlan(nodes, width, plan) && AllInputsTyped(width, plan, h) && NoneConstant(nodes)
    requires AllFused(nodes, width, plan, h)
    ensures var g := UnfusedAll(nodes, width, plan, h); AllSeparate(nodes, width, plan, g) && SameVisible(plan, h, g)
  {
    LiveOperandsSuffice(nodes, plan);
    hide *;
    FusedHistoriesUnfold(nodes, width, plan, h);
  }

  // ---- operations that compute a constant -------------------------------------------

  /** Every operand of operation `i` is a literal or comes from `s`. */
  ghost predicate Literally(nodes: seq<Node>, s: set<nat>, i: nat) {
    Fusable(nodes, i) &&
    forall k: nat | k < |nodes[i].operands| :: Folds(nodes, i, k) || Interiorly(nodes, s, nodes[i].operands[k])
  }

  /** Operations that compute from literals alone. */
  ghost predicate LiteralSet(nodes: seq<Node>, s: set<nat>) {
    forall i | i in s :: Literally(nodes, s, i)
  }

  /** No fusable operation reads `i`'s result. */
  ghost predicate ReadByNone(nodes: seq<Node>, i: nat) {
    forall c: nat :: !Feeds(nodes, i, c)
  }

  /** What feeds a member of a literal set is in it. */
  lemma {:induction false} FeederIsLiteral(nodes: seq<Node>, s: set<nat>, x: nat, i: nat, k: nat)
    requires OneWriter(nodes) && Literally(nodes, s, i) && k < |nodes[i].operands|
    requires x < |nodes| && Fusable(nodes, x) && nodes[x].results == [nodes[i].operands[k]]
    ensures x in s
  {
    var v := nodes[i].operands[k];
    ProducerIs(nodes, v, x);
    if Folds(nodes, i, k) {
      var c: nat :| LiteralFrom(nodes, c, i, k);
      assert v in nodes[c].results;
      ProducerIs(nodes, v, c);
      assert nodes[x].op == "constant";
      NotFusable(nodes, x);
    }
  }

  lemma {:induction false} NotFusable(nodes: seq<Node>, x: nat)
    requires x < |nodes| && nodes[x].op == "constant"
    ensures !Fusable(nodes, x)
  {
  }

  lemma {:induction false} OperandFeeds(nodes: seq<Node>, x: nat, i: nat, k: nat)
    requires OneWriter(nodes) && Fusable(nodes, x) && Fusable(nodes, i) && i < |nodes| && k < |nodes[i].operands|
    requires x < |nodes| && nodes[x].results == [nodes[i].operands[k]]
    ensures (x, i) in FusableArcs(nodes) && FusableEdge(nodes, Edge(x, i, nodes[i].operands[k]))
  {
    ProducerIs(nodes, nodes[i].operands[k], x);
    assert FusableEdge(nodes, Edge(x, i, nodes[i].operands[k]));
    assert Feeds(nodes, x, i);
  }

  /** A region whose anchor is in a literal set lies in it, and each member leads to the anchor. */
  lemma {:induction false} MemberIsLiteral(nodes: seq<Node>, s: set<nat>, r: Region, n: nat)
    requires SortedRegion(nodes, r) && (forall j | j in r.nodeIds :: Fusable(nodes, j))
    requires LiteralSet(nodes, s) && r.anchor in s && n < |r.nodeIds|
    ensures r.nodeIds[n] in s && Reaches(FusableArcs(nodes), r.nodeIds[n], r.anchor)
    decreases |r.nodeIds| - n
  {
    var x := r.nodeIds[n];
    if x == r.anchor {
      ReachesSelf(FusableArcs(nodes), x);
    } else {
      var m, p := ReaderLater(nodes, r, n);
      MemberIsLiteral(nodes, s, r, m);
      hide IsRegion, ProducersFirst, Folds, Interiorly, Reaches, FusableArcs, Shaped;
      assert r.nodeIds[m] in r.nodeIds;
      FeederIsLiteral(nodes, s, x, r.nodeIds[m], p);
      OperandFeeds(nodes, x, r.nodeIds[m], p);
      ReachesArc(FusableArcs(nodes), x, r.nodeIds[m]);
      ReachesTrans(FusableArcs(nodes), x, r.nodeIds[m], r.anchor);
    }
  }

  /** The part of `s` that leads to `j`. */
  ghost function Leading(nodes: seq<Node>, s: set<nat>, j: nat): set<nat> {
    set x | x in s && Reaches(FusableArcs(nodes), x, j)
  }

  lemma {:induction false} LeadingIsLiteral(nodes: seq<Node>, s: set<nat>, j: nat)
    requires OneWriter(nodes) && (forall i: nat | Fusable(nodes, i) :: |nodes[i].results| == 1) && LiteralSet(nodes, s)
    ensures LiteralSet(nodes, Leading(nodes, s, j))
  {
    var t := Leading(nodes, s, j);
    forall i, k: nat | i in t && i < |nodes| && k < |nodes[i].operands|
      ensures Folds(nodes, i, k) || Interiorly(nodes, t, nodes[i].operands[k])
    {
      assert Literally(nodes, s, i);
      if !Folds(nodes, i, k) {
        var x := ProducerOf(nodes, nodes[i].operands[k]).value;
        assert Literally(nodes, s, x) && nodes[x].results == [nodes[i].operands[k]];
        hide Reaches, FusableArcs, Folds;
        OperandFeeds(nodes, x, i, k);
        ReachesArc(FusableArcs(nodes), x, i);
        ReachesTrans(FusableArcs(nodes), x, i, j);
      }
    }
  }

  /** A member of a region has an operand from outside, unless all is literal. */
  lemma {:induction false} OutsideOperand(nodes: seq<Node>, s: set<nat>, members: set<nat>)
      returns (x: nat, k: nat, j: nat)
    requires LiteralSet(nodes, s) && members <= s && !AllLiteral(nodes, members)
    ensures x in members && x < |nodes| && k < |nodes[x].operands| && j in s && j !in members
    ensures ProducerOf(nodes, nodes[x].operands[k]) == Some(j)
  {
    x, k :| x in members && x < |nodes| && k < |nodes[x].operands|
            && !Folds(nodes, x, k) && !Interiorly(nodes, members, nodes[x].operands[k]);
    assert Literally(nodes, s, x);
    j := ProducerOf(nodes, nodes[x].operands[k]).value;
  }

  /** A fusable operation read outside its region is its region's anchor. */
  lemma {:induction false} ReadOutsideIsAnchor(nodes: seq<Node>, plan: Plan, j: nat)
    requires Planned(nodes, plan) && Fusable(nodes, j) && j in plan.regionOf && j < |nodes| && |nodes[j].results| == 1
    requires Eaters(nodes, nodes[j].results[0]) == []
             || exists c :: c in Eaters(nodes, nodes[j].results[0]) && c !in plan.regionOf[j].nodeIds
    ensures j in plan.anchorRegion && plan.anchorRegion[j] == plan.regionOf[j]
  {
    RegionFacts(nodes, plan, j);
    var r := plan.regionOf[j];
    RegionMembers(nodes, Elements(r.nodeIds), r);
    assert Sink(nodes, Elements(r.nodeIds), j);
    hide Eaters;
    assert r.anchor == j;
    assert LookUp(plan.anchorRegion, j) ==
      if j in plan.regionOf && plan.regionOf[j].anchor == j then Some(plan.regionOf[j]) else None;
  }

  lemma {:induction false} ReaderIsFed(nodes: seq<Node>, i: nat, c: nat, v: string)
    requires Fusable(nodes, i) && Fusable(nodes, c) && v in nodes[c].operands && ProducerOf(nodes, v) == Some(i)
    ensures Feeds(nodes, i, c)
  {
    assert FusableEdge(nodes, Edge(i, c, v));
  }

  lemma {:induction false} UnreadIsAnchor(nodes: seq<Node>, plan: Plan, i: nat)
    requires Planned(nodes, plan) && Fusable(nodes, i) && ReadByNone(nodes, i)
    ensures i in plan.anchorRegion
  {
    RegionKeys(nodes, plan);
    assert i in FusableNodes(nodes);
    var v := nodes[i].results[0];
    EatersIff(nodes, v);
    if Eaters(nodes, v) != [] {
      var c := Eaters(nodes, v)[0];
      assert c in Eaters(nodes, v);
      ProducerIs(nodes, v, i);
      RegionFacts(nodes, plan, i);
      if c in plan.regionOf[i].nodeIds {
        MemberIsFusable(nodes, plan, c);
        ReaderIsFed(nodes, i, c, v);
      }
    }
    ReadOutsideIsAnchor(nodes, plan, i);
  }

  lemma {:induction false} RegionIsLiteral(nodes: seq<Node>, s: set<nat>, r: Region)
    requires SortedRegion(nodes, r) && (forall j | j in r.nodeIds :: Fusable(nodes, j))
    requires LiteralSet(nodes, s) && r.anchor in s
    ensures forall x | x in Elements(r.nodeIds) :: x in s && Reaches(FusableArcs(nodes), x, r.anchor)
  {
    hide SortedRegion, LiteralSet, Reaches, FusableArcs;
    forall x | x in Elements(r.nodeIds) ensures x in s && Reaches(FusableArcs(nodes), x, r.anchor) {
      var n :| 0 <= n < |r.nodeIds| && r.nodeIds[n] == x;
      MemberIsLiteral(nodes, s, r, n);
    }
  }

  /** If a literal anchor's region is not all literal, a smaller literal set has an anchor that feeds it. */
  lemma {:induction false} EarlierAnchor(nodes: seq<Node>, plan: Plan, s: set<nat>, a: nat) returns (j: nat)
    requires Planned(nodes, plan) && LiteralSet(nodes, s) && a in s && a in plan.anchorRegion
    requires !AllLiteral(nodes, Elements(plan.anchorRegion[a].nodeIds))
    ensures j in Leading(nodes, s, j) && Leading(nodes, s, j) <= s - {a} && j in plan.anchorRegion
    ensures LiteralSet(nodes, Leading(nodes, s, j))
  {
    PlannedRegion(nodes, plan, a);
    var r := plan.anchorRegion[a];
    var members := Elements(r.nodeIds);
    RegionIsLiteral(nodes, s, r);
    var x, k;
    x, k, j := OutsideOperand(nodes, s, members);
    hide SortedRegion, AllLiteral, Folds, Reaches, FusableArcs;
    FeederAnchors(nodes, plan, s, r, x, k, j);
    LeadingIsLiteral(nodes, s, j);
    hide Planned, LiteralSet;
    NoWayBack(nodes, x, j, a);
    ReachesSelf(FusableArcs(nodes), j);
  }

  /** An anchor that computes from literals alone means an all-literal region: its own, or one that feeds it. */
  lemma {:induction false} LiteralAnchorStrands(nodes: seq<Node>, plan: Plan, s: set<nat>, a: nat)
    requires Planned(nodes, plan) && LiteralSet(nodes, s) && a in s && a in plan.anchorRegion
    ensures SomeAllLiteral(nodes, plan)
    decreases |s|
  {
    if !AllLiteral(nodes, Elements(plan.anchorRegion[a].nodeIds)) {
      hide Planned, LiteralSet, AllLiteral, Leading, SomeAllLiteral;
      var j := EarlierAnchor(nodes, plan, s, a);
      SmallerThan(Leading(nodes, s, j), s, a);
      LiteralAnchorStrands(nodes, plan, Leading(nodes, s, j), j);
    }
  }

  lemma {:induction false} SmallerThan(t: set<nat>, s: set<nat>, a: nat)
    requires a in s && t <= s - {a}
    ensures |t| < |s|
  {
    assert s == t + (s - t);
    assert a in s - t;
  }

  /** What a fusable operation produces is its one result. */
  lemma {:induction false} ProducedIsResult(nodes: seq<Node>, j: nat, v: string)
    requires Materialised(nodes) && Fusable(nodes, j) && ProducerOf(nodes, v) == Some(j)
    ensures j < |nodes| && nodes[j].results == [v]
  {
    hide Acyclic, OneReader;
  }

  lemma {:induction false} OtherRegion(nodes: seq<Node>, plan: Plan, x: nat, j: nat)
    requires IsPlan(nodes, plan) && x in plan.regionOf && j in plan.regionOf && j !in plan.regionOf[x].nodeIds
    ensures x !in plan.regionOf[j].nodeIds && plan.regionOf[j] != plan.regionOf[x]
  {
    RegionFacts(nodes, plan, j);
    RegionFacts(nodes, plan, x);
    hide IsPlan, IsRegion;
  }

  /** What feeds a region from outside anchors its own, and feeds. */
  lemma {:induction false} FeederAnchors(nodes: seq<Node>, plan: Plan, s: set<nat>, r: Region, x: nat, k: nat, j: nat)
    requires Planned(nodes, plan) && LiteralSet(nodes, s) && j in s
    requires x in r.nodeIds && x in plan.regionOf && plan.regionOf[x] == r && j !in r.nodeIds
    requires x < |nodes| && k < |nodes[x].operands| && ProducerOf(nodes, nodes[x].operands[k]) == Some(j)
    ensures j in plan.anchorRegion && (j, x) in FusableArcs(nodes)
  {
    var v := nodes[x].operands[k];
    assert Literally(nodes, s, j);
    RegionKeys(nodes, plan);
    assert j in FusableNodes(nodes);
    MemberIsFusable(nodes, plan, x);
    ProducedIsResult(nodes, j, v);
    hide IsPlan, Shaped, Materialised, Eaters, Literally, FusableNodes;
    OperandFeeds(nodes, j, x, k);
    EatersIff(nodes, v);
    OtherRegion(nodes, plan, x, j);
    assert x in Eaters(nodes, v);
    ReadOutsideIsAnchor(nodes, plan, j);
  }

  lemma {:induction false} NoWayBack(nodes: seq<Node>, x: nat, j: nat, a: nat)
    requires Acyclic(FusableArcs(nodes)) && (j, x) in FusableArcs(nodes) && Reaches(FusableArcs(nodes), x, a)
    ensures !Reaches(FusableArcs(nodes), a, j)
  {
    var g := FusableArcs(nodes);
    hide FusableArcs;
    if Reaches(g, a, j) {
      ReachesTrans(g, x, a, j);
      OnCycleIff(g, j);
    }
  }

  /**
   An operation that computes from literals alone, and that nothing fusable reads, strands some cell under every
   plan.
   */
  lemma {:induction false} ConstantResultStrands(nodes: seq<Node>, plan: Plan, s: set<nat>, i: nat)
    requires Planned(nodes, plan) && LiteralSet(nodes, s) && i in s && ReadByNone(nodes, i)
    ensures SomeAllLiteral(nodes, plan)
    ensures exists v :: v in plan.deadValues && CellInput(plan, v)
  {
    assert Literally(nodes, s, i);
    UnreadIsAnchor(nodes, plan, i);
    LiteralAnchorStrands(nodes, plan, s, i);
    DeadInputIff(nodes, plan);
  }

  // ---- exactly when ---------------------------------------------------------------------

  /** Some operation computes from literals alone and nothing fusable reads its result. */
  ghost predicate ComputesConstant(nodes: seq<Node>) {
    exists i: nat :: FromLiterals(nodes, i) && ReadByNone(nodes, i)
  }

  ghost predicate FromLiterals(nodes: seq<Node>, i: nat) {
    exists s: set<nat> :: LiteralSet(nodes, s) && i in s
  }

  ghost function Labelled(nodes: seq<Node>, group: nat -> nat, l: nat): set<nat> {
    set i | i in FusableNodes(nodes) && group(i) == l
  }

  /** Fusable operations that are connected are in one group, and no group has more than one cell can hold. */
  ghost predicate SmallGroups(nodes: seq<Node>, group: nat -> nat) {
    && (forall p: nat, c: nat | Feeds(nodes, p, c) :: group(p) == group(c))
    && forall l: nat :: |Labelled(nodes, group, l)| <= MAX_FUSE_NODES
  }

  lemma {:induction false} SharesLabel(nodes: seq<Node>, group: nat -> nat, r: Region, n: nat)
    requires SortedRegion(nodes, r) && (forall j | j in r.nodeIds :: Fusable(nodes, j))
    requires SmallGroups(nodes, group) && n < |r.nodeIds|
    ensures group(r.nodeIds[n]) == group(r.anchor)
    decreases |r.nodeIds| - n
  {
    if r.nodeIds[n] != r.anchor {
      var m, p := ReaderLater(nodes, r, n);
      SharesLabel(nodes, group, r, m);
      hide IsRegion, ProducersFirst, Shaped;
      assert r.nodeIds[m] in r.nodeIds;
      OperandFeeds(nodes, r.nodeIds[n], r.nodeIds[m], p);
      assert Feeds(nodes, r.nodeIds[n], r.nodeIds[m]);
    }
  }

  lemma {:induction false} RegionLabelled(nodes: seq<Node>, plan: Plan, group: nat -> nat, i: nat)
    requires Planned(nodes, plan) && SmallGroups(nodes, group) && i in plan.regionOf
    ensures var r := plan.regionOf[i];
            Elements(r.nodeIds) <= Labelled(nodes, group, group(i)) && |r.nodeIds| == |Elements(r.nodeIds)|
  {
    RegionFacts(nodes, plan, i);
    var r := plan.regionOf[i];
    RegionMembers(nodes, Elements(r.nodeIds), r);
    assert r.anchor in plan.regionOf && plan.regionOf[r.anchor] == r;
    assert LookUp(plan.anchorRegion, r.anchor) ==
      if r.anchor in plan.regionOf
        && plan.regionOf[r.anchor].anchor == r.anchor then Some(plan.regionOf[r.anchor]) else None;
    PlannedRegion(nodes, plan, r.anchor);
    RegionKeys(nodes, plan);
    forall x | x in Elements(r.nodeIds) ensures x in Labelled(nodes, group, group(i)) {
      var n :| 0 <= n < |r.nodeIds| && r.nodeIds[n] == x;
      SharesLabel(nodes, group, r, n);
      var m :| 0 <= m < |r.nodeIds| && r.nodeIds[m] == i;
      SharesLabel(nodes, group, r, m);
      assert x in FusableNodes(nodes);
    }
  }

  /** In groups that fit into a cell, a region's anchor is read by nothing fusable. */
  lemma {:induction false} AnchorReadByNone(nodes: seq<Node>, plan: Plan, group: nat -> nat, a: nat)
    requires Planned(nodes, plan) && SmallGroups(nodes, group) && a in plan.anchorRegion
    ensures ReadByNone(nodes, a)
  {
    PlannedRegion(nodes, plan, a);
    var r := plan.anchorRegion[a];
    forall c: nat ensures !Feeds(nodes, a, c) {
      if Feeds(nodes, a, c) {
        var v :| FusableEdge(nodes, Edge(a, c, v));
        AnchorsReaderElsewhere(nodes, plan, a, c, v);
        TwoRegionsFit(nodes, plan, group, a, c);
      }
    }
  }

  lemma {:induction false} AnchorsReaderElsewhere(nodes: seq<Node>, plan: Plan, a: nat, c: nat, v: string)
    requires Planned(nodes, plan) && a in plan.anchorRegion && FusableEdge(nodes, Edge(a, c, v))
    ensures a in plan.regionOf && c in plan.regionOf && plan.regionOf[a] != plan.regionOf[c]
    ensures |plan.regionOf[a].nodeIds| + |plan.regionOf[c].nodeIds| > MAX_FUSE_NODES
  {
    PlannedRegion(nodes, plan, a);
    AnchoredRegion(nodes, plan, a);
    var r := plan.anchorRegion[a];
    ProducedIsResult(nodes, a, v);
    var e := Edge(a, c, v);
    assert e.consumer in plan.regionOf && FusableEdge(nodes, e);
    var d := AnchorsReader(nodes, r, a, v, c);
    RegionFacts(nodes, plan, c);
    hide IsRegion, Shaped, Materialised, Eaters, SortedRegion;
    assert c !in r.nodeIds;
    assert plan.regionOf[a] != plan.regionOf[c];
  }

  /** The one reader of an anchor's result is not in the region. */
  lemma {:induction false} AnchorsReader(nodes: seq<Node>, r: Region, a: nat, v: string, c: nat) returns (d: nat)
    requires SortedRegion(nodes, r) && r.anchor == a && OneReader(nodes)
    requires a < |nodes| && nodes[a].results == [v] && c < |nodes| && v in nodes[c].operands
    ensures d == c && d !in r.nodeIds
  {
    assert Sink(nodes, Elements(r.nodeIds), a);
    var k :| 0 <= k < |nodes[c].operands| && nodes[c].operands[k] == v;
    hide SortedRegion;
    EatersIff(nodes, v);
    d :| d in Eaters(nodes, v) && d !in Elements(r.nodeIds);
    SoleReader(nodes, v, c, k, c, k);
  }

  lemma {:induction false} TwoRegionsFit(nodes: seq<Node>, plan: Plan, group: nat -> nat, a: nat, c: nat)
    requires Planned(nodes, plan) && SmallGroups(nodes, group) && Feeds(nodes, a, c)
    requires a in plan.regionOf && c in plan.regionOf && plan.regionOf[a] != plan.regionOf[c]
    ensures |plan.regionOf[a].nodeIds| + |plan.regionOf[c].nodeIds| <= MAX_FUSE_NODES
  {
    RegionLabelled(nodes, plan, group, a);
    RegionLabelled(nodes, plan, group, c);
    RegionFacts(nodes, plan, a);
    RegionFacts(nodes, plan, c);
    var s, t := Elements(plan.regionOf[a].nodeIds), Elements(plan.regionOf[c].nodeIds);
    hide Planned, IsRegion, Labelled;
    assert s !! t;
    TwoFit(s, t, Labelled(nodes, group, group(a)));
  }

  lemma {:induction false} TwoFit(s: set<nat>, t: set<nat>, all: set<nat>)
    requires s !! t && s <= all && t <= all
    ensures |s| + |t| <= |all|
  {
    assert |s + t| == |s| + |t|;
    assert all == (s + t) + (all - (s + t));
  }

  /**
   Where connected fusable operations fit into one cell, a cell is stranded exactly when some operation computes a
   constant that nothing fusable reads.
   */
  lemma {:induction false} StrandedIff(nodes: seq<Node>, plan: Plan, group: nat -> nat)
    requires Planned(nodes, plan) && SmallGroups(nodes, group)
    ensures (exists v :: v in plan.deadValues && CellInput(plan, v)) <==> ComputesConstant(nodes)
  {
    DeadInputIff(nodes, plan);
    if SomeAllLiteral(nodes, plan) {
      var a: nat :| a in plan.anchorRegion && AllLiteral(nodes, Elements(plan.anchorRegion[a].nodeIds));
      PlannedRegion(nodes, plan, a);
      AnchorReadByNone(nodes, plan, group, a);
      var s := Elements(plan.anchorRegion[a].nodeIds);
      assert LiteralSet(nodes, s) && a in s;
      assert FromLiterals(nodes, a);
    }
    if ComputesConstant(nodes) {
      var i: nat :| FromLiterals(nodes, i) && ReadByNone(nodes, i);
      var s: set<nat> :| LiteralSet(nodes, s) && i in s;
      ConstantResultStrands(nodes, plan, s, i);
    }
  }
}
