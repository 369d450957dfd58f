/**
 Which channels get a link when operations are fused, and why a link never lands on a value
 that fusion has turned into a bare wire (`measurability_sites_fused`, `link_sites` and the
 leak check in bdc/emit.py).
 */
module LinkSites {
  import opened Graphs
  import opened Dataflow
  import opened ValueUse
  import opened TopoOrder
  import opened Literals
  import opened Grouping
  import opened Regions
  import opened Fusion
  import opened Storage
  import opened ShortestPaths
  import opened RingDepth

  ghost predicate Reads(nodes: seq<Node>, i: nat, k: nat, v: string) {
    i < |nodes| && k < |nodes[i].operands| && nodes[i].operands[k] == v
  }

  /** The external inputs of the fused cells. */
  ghost predicate CellInput(plan: Plan, v: string) {
    exists a: nat :: a in plan.anchorRegion && v in plan.anchorRegion[a].extInputs
  }

  ghost predicate SomeAllLiteral(nodes: seq<Node>, plan: Plan) {
    exists a: nat :: a in plan.anchorRegion && AllLiteral(nodes, Elements(plan.anchorRegion[a].nodeIds))
  }

  /** A dead value is read inside its own region, as a literal, or by a constant as its trigger. */
  lemma {:induction false} DeadIsInternal(nodes: seq<Node>, plan: Plan, v: string, i: nat, k: nat)
    requires Shaped(nodes) && OneWriter(nodes) && OneReader(nodes) && IsPlan(nodes, plan)
    requires v in plan.deadValues && Reads(nodes, i, k, v)
    ensures nodes[i].op == "constant"
            || (i in plan.regionOf && (Interiorly(nodes, Elements(plan.regionOf[i].nodeIds), v) || Folds(nodes, i, k)))
  {
    hide Partition, Maximal, Anchors, OneWriter, OneReader, Shaped, Elided, Buried, Interiorly, Folds;
    var x: nat :| x in plan.skip && ResultOf(nodes, x, v);
    if Buried(plan.regionOf, x) {
      BuriedStays(nodes, plan, x, v, i, k);
    } else {
      ElidedReader(nodes, x, v, i, k);
      if nodes[i].op != "constant" {
        assert i in FusableNodes(nodes);
        RegionKeys(nodes, plan);
      }
    }
  }

  lemma {:induction false} RegionKeys(nodes: seq<Node>, plan: Plan)
    requires IsPlan(nodes, plan)
    ensures plan.regionOf.Keys == FusableNodes(nodes)
  {
  }

  lemma {:induction false} RegionFacts(nodes: seq<Node>, plan: Plan, x: nat)
    requires IsPlan(nodes, plan) && x in plan.regionOf
    ensures RegionAt(nodes, plan.regionOf, x)
  {
  }

  /** A result that stays inside its region is read there only. */
  lemma {:induction false} BuriedStays(nodes: seq<Node>, plan: Plan, x: nat, v: string, i: nat, k: nat)
    requires OneWriter(nodes) && OneReader(nodes) && IsPlan(nodes, plan)
    requires Buried(plan.regionOf, x) && ResultOf(nodes, x, v) && Reads(nodes, i, k, v)
    ensures i in plan.regionOf && plan.regionOf[i] == plan.regionOf[x]
    ensures Interiorly(nodes, Elements(plan.regionOf[i].nodeIds), v)
  {
    RegionFacts(nodes, plan, x);
    hide IsPlan;
    var r := plan.regionOf[x];
    var members := Elements(r.nodeIds);
    RegionMembers(nodes, members, r);
    assert !Sink(nodes, members, x);
    SoleReader(nodes, v, i, k, i, k);
    ProducerIs(nodes, v, x);
    assert i in Eaters(nodes, v);
    assert i in members;
  }

  /** What an absorbed node produced becomes a literal, or triggered a constant. */
  lemma {:induction false} ElidedReader(nodes: seq<Node>, x: nat, v: string, i: nat, k: nat)
    requires OneReader(nodes) && Elided(nodes, x) && ResultOf(nodes, x, v) && Reads(nodes, i, k, v) && OneWriter(nodes)
    requires Shaped(nodes)
    ensures nodes[i].op == "constant" || (Folds(nodes, i, k) && Fusable(nodes, i))
  {
    if Absorbable(nodes, x) {
      assert LiteralFrom(nodes, x, i, k);
      SoleReader(nodes, v, i, k, i, k);
    } else {
      ElidedResults(nodes, x);
      var c: nat :| Absorbable(nodes, c) && Trigger(nodes, c) == Some(x);
      SoleReader(nodes, v, i, k, c, 0);
    }
  }

  /** The place at which a region reads an external input, and what `IsRegion` says of it. */
  lemma {:induction false} InputPlace(nodes: seq<Node>, members: set<nat>, r: Region, v: string)
      returns (i: nat, k: nat)
    requires IsRegion(nodes, members, r) && v in r.extInputs
    ensures i in members && Reads(nodes, i, k, v) && !Interiorly(nodes, members, v) && (i, k) !in r.constOf
    ensures Folds(nodes, i, k) ==> AllLiteral(nodes, members)
  {
    assert FromOutside(nodes, members, r.constOf, v);
    i, k :| Outside(nodes, members, r.constOf, i, k) && nodes[i].operands[k] == v;
    if Folds(nodes, i, k) {
      assert (i, k) in FoldedPlaces(nodes, members);
    }
  }

  /** An external input of a fused cell is dead exactly when some region has only literals to read. */
  lemma {:induction false} DeadInputIff(nodes: seq<Node>, plan: Plan)
    requires Shaped(nodes) && OneWriter(nodes) && OneReader(nodes) && IsPlan(nodes, plan)
    ensures (exists v :: v in plan.deadValues && CellInput(plan, v)) <==> SomeAllLiteral(nodes, plan)
  {
    hide *;
    forall v | v in plan.deadValues && CellInput(plan, v) ensures SomeAllLiteral(nodes, plan) {
      DeadInput(nodes, plan, v);
    }
    if SomeAllLiteral(nodes, plan) {
      LiteralInput(nodes, plan);
    }
  }

  lemma {:induction false} AnchoredRegion(nodes: seq<Node>, plan: Plan, a: nat)
    requires IsPlan(nodes, plan) && a in plan.anchorRegion
    ensures a in plan.regionOf && plan.regionOf[a] == plan.anchorRegion[a]
    ensures IsRegion(nodes, Elements(plan.anchorRegion[a].nodeIds), plan.anchorRegion[a])
    ensures forall j | j in plan.anchorRegion[a].nodeIds :: j in plan.regionOf
              && plan.regionOf[j] == plan.anchorRegion[a]
  {
    assert LookUp(plan.anchorRegion, a) ==
      if a in plan.regionOf && plan.regionOf[a].anchor == a then Some(plan.regionOf[a]) else None;
    RegionFacts(nodes, plan, a);
  }

  lemma {:induction false} DeadInput(nodes: seq<Node>, plan: Plan, v: string)
    requires Shaped(nodes) && OneWriter(nodes) && OneReader(nodes) && IsPlan(nodes, plan)
    requires v in plan.deadValues && CellInput(plan, v)
    ensures SomeAllLiteral(nodes, plan)
  {
    hide IsPlan, IsRegion, Folds, Interiorly, AllLiteral, Shaped, OneWriter, OneReader;
    var a: nat :| a in plan.anchorRegion && v in plan.anchorRegion[a].extInputs;
    AnchoredRegion(nodes, plan, a);
    var r := plan.anchorRegion[a];
    var i, k := InputPlace(nodes, Elements(r.nodeIds), r, v);
    DeadIsInternal(nodes, plan, v, i, k);
    assert i in r.nodeIds;
    RegionMembers(nodes, Elements(r.nodeIds), r);
    MemberIsFusable(nodes, plan, i);
  }

  lemma {:induction false} MemberIsFusable(nodes: seq<Node>, plan: Plan, i: nat)
    requires IsPlan(nodes, plan) && i in plan.regionOf
    ensures Fusable(nodes, i)
  {
    RegionKeys(nodes, plan);
    assert i in FusableNodes(nodes);
  }

  lemma {:induction false} LiteralInput(nodes: seq<Node>, plan: Plan)
    requires Shaped(nodes) && OneWriter(nodes) && IsPlan(nodes, plan) && SomeAllLiteral(nodes, plan)
    ensures exists v :: v in plan.deadValues && CellInput(plan, v)
  {
    hide IsPlan, IsRegion, OneWriter, AllLiteral;
    var a: nat :| a in plan.anchorRegion && AllLiteral(nodes, Elements(plan.anchorRegion[a].nodeIds));
    AnchoredRegion(nodes, plan, a);
    var r := plan.anchorRegion[a];
    assert r.extInputs != [] by {
      RegionHasInput(nodes, Elements(r.nodeIds), r);
    }
    var v := r.extInputs[0];
    assert v in r.extInputs;
    var i, k := InputPlace(nodes, Elements(r.nodeIds), r, v);
    AllLiteralAt(nodes, Elements(r.nodeIds), i, k);
    var c: nat :| LiteralFrom(nodes, c, i, k);
    assert Elided(nodes, c) && ResultOf(nodes, c, v);
    ElidedIsDead(nodes, plan, c, v);
    assert CellInput(plan, v);
  }

  lemma {:induction false} AllLiteralAt(nodes: seq<Node>, members: set<nat>, i: nat, k: nat)
    requires AllLiteral(nodes, members) && i in members && i < |nodes| && k < |nodes[i].operands|
    ensures Folds(nodes, i, k) || Interiorly(nodes, members, nodes[i].operands[k])
  {
  }

  lemma {:induction false} RegionHasInput(nodes: seq<Node>, members: set<nat>, r: Region)
    requires IsRegion(nodes, members, r)
    ensures r.extInputs != []
  {
  }

  lemma {:induction false} ElidedIsDead(nodes: seq<Node>, plan: Plan, c: nat, v: string)
    requires IsPlan(nodes, plan) && Elided(nodes, c) && ResultOf(nodes, c, v)
    ensures v in plan.deadValues
  {
  }

  // ---- a region with only literals ------------------------------------------------

  /** `1 + 2`, each literal from its own source. */
  const CONSTANT_SUM: seq<Node> :=
    [Node("source", [], ["s0"], None, ""), Node("constant", ["s0"], ["c0"], Some(1), ""),
     Node("source", [], ["s1"], None, ""), Node("constant", ["s1"], ["c1"], Some(2), ""),
     Node("addi", ["c0", "c1"], ["z"], None, "")]

  lemma {:induction false} OneOperand(x: string, v: string)
    ensures Occurrences([x], v) == if x == v then 1 else 0
  {
    assert [x][..0] == [];
  }

  /** Who reads what in `1 + 2`. */
  lemma {:induction false} SumEaters(v: string)
    ensures Eaters(CONSTANT_SUM, v)
            == Repeated(1, if v == "s0" then 1 else 0) + Repeated(3, if v == "s1" then 1 else 0)
               + Repeated(4, if v == "c0" || v == "c1" then 1 else 0)
  {
    var ns := CONSTANT_SUM;
    OneOperand("s0", v);
    OneOperand("s1", v);
    OneOperand("c0", v);
    assert ["c0", "c1"][..1] == ["c0"];
    assert ns[..4][..3] == ns[..3] && ns[..3][..2] == ns[..2] && ns[..2][..1] == ns[..1] && ns[..1][..0] == [];
    assert Eaters(ns[..1], v) == [] + Repeated(0, 0);
    assert Eaters(ns[..2], v) == Eaters(ns[..1], v) + Repeated(1, if v == "s0" then 1 else 0);
    assert Eaters(ns[..3], v) == Eaters(ns[..2], v) + Repeated(2, 0);
    assert Eaters(ns[..4], v) == Eaters(ns[..3], v) + Repeated(3, if v == "s1" then 1 else 0);
  }

  /** Where the operands of `1 + 2` come from. */
  lemma {:induction false} SumProducers()
    ensures ProducerOf(CONSTANT_SUM, "s0") == Some(0) && ProducerOf(CONSTANT_SUM, "c0") == Some(1)
    ensures ProducerOf(CONSTANT_SUM, "s1") == Some(2) && ProducerOf(CONSTANT_SUM, "c1") == Some(3)
    ensures OneWriter(CONSTANT_SUM)
  {
    var ns := CONSTANT_SUM;
    assert "s0" in ns[0].results && "c0" in ns[1].results && "s1" in ns[2].results && "c1" in ns[3].results;
    forall i: nat, j: nat, v | i < |ns| && j < |ns| && v in ns[i].results && v in ns[j].results ensures i == j {
      assert v == ns[i].results[0] == ns[j].results[0];
    }
    ProducerIs(ns, "s0", 0);
    ProducerIs(ns, "c0", 1);
    ProducerIs(ns, "s1", 2);
    ProducerIs(ns, "c1", 3);
  }

  /** Both operands of the sum are literals. */
  lemma {:induction false} SumFolds()
    ensures Folds(CONSTANT_SUM, 4, 0) && Folds(CONSTANT_SUM, 4, 1)
  {
    var ns := CONSTANT_SUM;
    SumProducers();
    SumEaters("c0");
    SumEaters("c1");
    hide ProducerOf, Eaters, Repeated;
    assert Eaters(ns, "c0") == [4] && Eaters(ns, "c1") == [4] by {
      OneTime(4);
    }
    assert Absorbable(ns, 1) && Absorbable(ns, 3);
    assert LiteralFrom(ns, 1, 4, 0) && LiteralFrom(ns, 3, 4, 1);
  }

  lemma {:induction false} OneTime(x: nat)
    ensures Repeated(x, 1) == [x] && Repeated(1, 0) == Repeated(3, 0) == []
  {
    assert Repeated(x, 1) == Repeated(x, 0) + [x];
  }

  lemma {:induction false} OnlySumFuses(i: nat)
    ensures Fusable(CONSTANT_SUM, i) <==> i == 4
  {
  }

  /** No fusable operation feeds another. */
  lemma {:induction false} SumHasNoArcs()
    ensures FusableArcs(CONSTANT_SUM) == {}
  {
    SumProducers();
    hide ProducerOf;
    forall p: nat, c: nat ensures !Feeds(CONSTANT_SUM, p, c) {
      OnlySumFuses(p);
      OnlySumFuses(c);
      forall v ensures !FusableEdge(CONSTANT_SUM, Edge(p, c, v)) {
        if v in CONSTANT_SUM[4].operands {
          assert v == "c0" || v == "c1";
        }
      }
    }
  }

  lemma {:induction false} NoArcsAcyclic()
    ensures Acyclic({})
  {
    forall u ensures !OnCycle({}, u) {
    }
  }

  lemma {:induction false} SumReadOnce()
    ensures OneReader(CONSTANT_SUM)
  {
    forall v ensures |Eaters(CONSTANT_SUM, v)| <= 1 {
      SumEaters(v);
    }
  }

  lemma {:induction false} SumMaterialised()
    ensures Shaped(CONSTANT_SUM) && Materialised(CONSTANT_SUM)
  {
    SumHasNoArcs();
    NoArcsAcyclic();
    SumReadOnce();
    hide FusableArcs, Acyclic, OneReader;
    forall i: nat | Fusable(CONSTANT_SUM, i) ensures |CONSTANT_SUM[i].results| == 1 {
    }
  }

  /**
   A materialised function whose sum has only literals to read: whatever plan is made for it, a fused cell
   waits for a value that has no net.
   */
  lemma {:induction false} LiteralSumIsStranded(plan: Plan)
    requires IsPlan(CONSTANT_SUM, plan)
    ensures Shaped(CONSTANT_SUM) && OneWriter(CONSTANT_SUM) && Materialised(CONSTANT_SUM)
    ensures exists v :: v in plan.deadValues && CellInput(plan, v)
  {
    SumMaterialised();
    SumProducers();
    SumFolds();
    SumStranded(plan);
    hide *;
    DeadInputIff(CONSTANT_SUM, plan);
  }

  /** A region of one member is filed under it. */
  lemma {:induction false} LoneRegion(nodes: seq<Node>, plan: Plan, i: nat)
    requires IsPlan(nodes, plan) && i in plan.regionOf && forall j | j in plan.regionOf :: j == i
    ensures i in plan.anchorRegion && forall j | j in plan.anchorRegion[i].nodeIds :: j == i
  {
    RegionFacts(nodes, plan, i);
    var r := plan.regionOf[i];
    RegionMembers(nodes, Elements(r.nodeIds), r);
    hide IsRegion;
    assert r.anchor == i;
    assert LookUp(plan.anchorRegion, i) ==
      if i in plan.regionOf && plan.regionOf[i].anchor == i then Some(plan.regionOf[i]) else None;
  }

  lemma {:induction false} SumStranded(plan: Plan)
    requires IsPlan(CONSTANT_SUM, plan) && Folds(CONSTANT_SUM, 4, 0) && Folds(CONSTANT_SUM, 4, 1)
    ensures SomeAllLiteral(CONSTANT_SUM, plan)
  {
    RegionKeys(CONSTANT_SUM, plan);
    hide IsPlan, Folds;
    OnlySumFuses(4);
    assert 4 in FusableNodes(CONSTANT_SUM);
    forall j | j in plan.regionOf ensures j == 4 {
      assert j in FusableNodes(CONSTANT_SUM);
      OnlySumFuses(j);
    }
    LoneRegion(CONSTANT_SUM, plan, 4);
    LiteralSum(Elements(plan.anchorRegion[4].nodeIds));
  }

  lemma {:induction false} LiteralSum(members: set<nat>)
    requires Folds(CONSTANT_SUM, 4, 0) && Folds(CONSTANT_SUM, 4, 1) && forall i | i in members :: i == 4
    ensures AllLiteral(CONSTANT_SUM, members)
  {
    hide Folds;
  }

  // ---- link sites ---------------------------------------------------------------

  /** An operation left on its own whose data inputs need a known start: a mux, or a merge of several channels. */
  predicate Bearing(n: Node) {
    n.op == "mux" || (n.op in {"merge", "control_merge"} && |n.operands| >= 2)
  }

  /** Values that come from a constant, and so are never late. */
  ghost predicate IsConstant(nodes: seq<Node>, v: string) {
    exists i: nat :: i < |nodes| && nodes[i].op == "constant" && v in nodes[i].results
  }

  ghost predicate BearingInput(nodes: seq<Node>, n: nat, v: string) {
    exists i: nat :: i < n && i < |nodes| && v in nodes[i].operands
      && (nodes[i].op == "mux" || (nodes[i].op in {"merge", "control_merge"} && |nodes[i].operands| >= 2))
  }

  ghost predicate Widths(nodes: seq<Node>, width: map<string, nat>) {
    forall i: nat, v | i < |nodes| && v in nodes[i].operands :: v in width
  }

  method ConstantValues(nodes: seq<Node>) returns (values: set<string>)
    ensures forall v :: v in values <==> IsConstant(nodes, v)
  {
    values := {};
    for i := 0 to |nodes|
      invariant forall v :: v in values <==>
                  exists j: nat :: j < i && nodes[j].op == "constant" && v in nodes[j].results
    {
      if nodes[i].op == "constant" {
        values := values + set v | v in nodes[i].results;
      }
    }
  }

  /** The wide, non-constant values of `vs`. */
  function Worthwhile(vs: set<string>, width: map<string, nat>, constants: set<string>): set<string>
    requires vs <= width.Keys
  {
    set v | v in vs && width[v] != 0 && v !in constants
  }

  /** The values rule 1 puts storage on: the wide, non-constant inputs of fused cells and of bearing operations. */
  ghost function Measured(nodes: seq<Node>, width: map<string, nat>, plan: Plan): set<string> {
    set v | v in width && width[v] != 0 && !IsConstant(nodes, v)
      && (BearingInput(nodes, |nodes|, v) || CellInput(plan, v))
  }

  /** Rule 1 after fusion: storage in front of fused cells and of the bearing operations left on their own. */
  method MeasurabilitySites(nodes: seq<Node>, width: map<string, nat>, plan: Plan) returns (sites: set<string>)
    requires Widths(nodes, width) && forall v | CellInput(plan, v) :: v in width
    ensures sites == Measured(nodes, width, plan)
  {
    hide IsConstant;
    var constants := ConstantValues(nodes);
    sites := {};
    for i := 0 to |nodes|
      invariant forall v :: v in sites <==> v in width && width[v] != 0 && v !in constants && BearingInput(nodes, i, v)
    {
      if Bearing(nodes[i]) {
        var operands := set v | v in nodes[i].operands;
        sites := sites + Worthwhile(operands, width, constants);
      }
    }
    var todo := plan.anchorRegion.Keys;
    while todo != {}
      invariant todo <= plan.anchorRegion.Keys
      invariant forall v :: v in sites <==>
          (v in width && width[v] != 0 && v !in constants &&
           (BearingInput(nodes, |nodes|, v)
            || exists a: nat :: a in plan.anchorRegion && a !in todo && v in plan.anchorRegion[a].extInputs))
    {
      var a: nat :| a in todo;
      var inputs := set v | v in plan.anchorRegion[a].extInputs;
      assert forall v | v in inputs :: CellInput(plan, v);
      todo := todo - {a};
      sites := sites + Worthwhile(inputs, width, constants);
    }
  }

  /**
   Storage placed; or fusion refused, or a link asked for on a dead value. (With one producer per value every
   cycle can be cut.)
   */
  datatype Linking = Linked(plan: Plan, linked: set<string>) | FusionRefused | Leaked(values: set<string>)

  lemma {:induction false} InputsHaveWidths(nodes: seq<Node>, width: map<string, nat>, plan: Plan)
    requires IsPlan(nodes, plan) && Widths(nodes, width)
    ensures forall v | CellInput(plan, v) :: v in width
  {
    hide IsPlan, IsRegion;
    forall v | CellInput(plan, v) ensures v in width {
      var a: nat :| a in plan.anchorRegion && v in plan.anchorRegion[a].extInputs;
      AnchoredRegion(nodes, plan, a);
      var i, k := InputPlace(nodes, Elements(plan.anchorRegion[a].nodeIds), plan.anchorRegion[a], v);
    }
  }

  /** Nothing that survives on its own reads a dead value. */
  lemma {:induction false} UnfusedReader(nodes: seq<Node>, plan: Plan, v: string, i: nat)
    requires Shaped(nodes) && OneWriter(nodes) && OneReader(nodes) && IsPlan(nodes, plan)
    requires i < |nodes| && v in nodes[i].operands && nodes[i].op !in FUSABLE_OPS && nodes[i].op != "constant"
    ensures v !in plan.deadValues
  {
    hide IsPlan, Shaped, OneWriter, OneReader, Interiorly, Folds;
    if v in plan.deadValues {
      var k :| 0 <= k < |nodes[i].operands| && nodes[i].operands[k] == v;
      DeadIsInternal(nodes, plan, v, i, k);
      MemberIsFusable(nodes, plan, i);
    }
  }

  /** A dead external input could only be a constant's, and those get no link. */
  lemma {:induction false} LiveInput(nodes: seq<Node>, plan: Plan, v: string)
    requires Shaped(nodes) && OneWriter(nodes) && OneReader(nodes) && IsPlan(nodes, plan)
    requires CellInput(plan, v) && !IsConstant(nodes, v)
    ensures v !in plan.deadValues
  {
    hide IsPlan, IsRegion, Folds, Interiorly, AllLiteral, Shaped, OneWriter, OneReader, IsConstant;
    if v in plan.deadValues {
      var a: nat :| a in plan.anchorRegion && v in plan.anchorRegion[a].extInputs;
      AnchoredRegion(nodes, plan, a);
      var r := plan.anchorRegion[a];
      var i, k := InputPlace(nodes, Elements(r.nodeIds), r, v);
      DeadIsInternal(nodes, plan, v, i, k);
      RegionMembers(nodes, Elements(r.nodeIds), r);
      MemberIsFusable(nodes, plan, i);
      FoldsConstant(nodes, i, k);
      assert false;
    }
  }

  lemma {:induction false} FoldsConstant(nodes: seq<Node>, i: nat, k: nat)
    requires Folds(nodes, i, k)
    ensures i < |nodes| && k < |nodes[i].operands| && IsConstant(nodes, nodes[i].operands[k])
  {
    var c: nat :| LiteralFrom(nodes, c, i, k);
    assert nodes[c].results[0] in nodes[c].results;
  }

  lemma {:induction false} NodeGraphFacts(nodes: seq<Node>, edges: seq<Edge>, exclude: set<string>)
    requires IsNodeGraph(nodes, edges)
    ensures EdgesWithin(|nodes|, edges)
    ensures OneWriter(nodes) ==> OneProducer(Without(edges, exclude))
  {
    forall e | e in edges ensures IsEdge(nodes, e) {
    }
  }

  lemma {:induction false} BearingUnfused(n: Node)
    requires Bearing(n)
    ensures n.op !in FUSABLE_OPS && n.op != "constant"
  {
  }

  lemma {:induction false} HeadersUnfused(op: string)
    requires op in {"control_merge", "merge", "mux"}
    ensures op !in FUSABLE_OPS && op != "constant"
  {
  }

  lemma {:induction false} HeaderIsLive(nodes: seq<Node>, plan: Plan, edges: seq<Edge>, exclude: set<string>, v: string)
    requires Shaped(nodes) && OneWriter(nodes) && OneReader(nodes) && IsPlan(nodes, plan) && IsNodeGraph(nodes, edges)
    requires AtHeader(nodes, Without(edges, exclude), v)
    ensures v !in plan.deadValues
  {
    hide IsPlan, Shaped, OneWriter, OneReader, HEADER_OPS, FUSABLE_OPS;
    var e :| e in Without(edges, exclude) && e.value == v && IntoHeader(nodes, e);
    assert IsEdge(nodes, e);
    HeadersUnfused(nodes[e.consumer].op);
    UnfusedReader(nodes, plan, v, e.consumer);
  }

  /** Rule 1 and rule 2 both keep clear of dead values. */
  lemma {:induction false} NothingLeaks(nodes: seq<Node>, plan: Plan, edges: seq<Edge>, exclude: set<string>,
      sites: set<string>, cuts: set<string>)
    requires Shaped(nodes) && OneWriter(nodes) && OneReader(nodes) && IsPlan(nodes, plan) && IsNodeGraph(nodes, edges)
    requires forall v | v in sites :: !IsConstant(nodes, v) && (BearingInput(nodes, |nodes|, v) || CellInput(plan, v))
    requires forall v | v in cuts :: AtHeader(nodes, Without(edges, exclude), v)
    ensures plan.deadValues !! sites + cuts
  {
    hide IsPlan, Shaped, OneWriter, OneReader, IsConstant, AtHeader, CellInput, IsNodeGraph;
    forall v | v in sites + cuts ensures v !in plan.deadValues {
      if v in cuts {
        HeaderIsLive(nodes, plan, edges, exclude, v);
      } else if CellInput(plan, v) {
        LiveInput(nodes, plan, v);
      } else {
        var i: nat :| i < |nodes| && Bearing(nodes[i]) && v in nodes[i].operands;
        BearingUnfused(nodes[i]);
        UnfusedReader(nodes, plan, v, i);
      }
    }
  }

  /** Fuse, then place links, then check that no link is on a value fusion has folded away. */
  method PlaceLinks(nodes: seq<Node>, edges: seq<Edge>, width: map<string, nat>, exclude: set<string>)
      returns (r: Linking)
    requires Shaped(nodes) && OneWriter(nodes) && IsNodeGraph(nodes, edges) && Widths(nodes, width)
    ensures r.Linked? ==> IsPlan(nodes, r.plan) && ByValueOrder(nodes, r.plan.regionOf)
    ensures r.Linked? ==> r.plan.deadValues !! r.linked
                          && Acyclic(ArcsOf(Without(Without(edges, exclude), r.linked)))
    ensures r.Linked? ==> var sites := Measured(nodes, width, r.plan);
                          sites <= r.linked
                            && InBatches(nodes, Without(edges, exclude), sites, r.linked)
                            && forall v | v in r.linked - sites :: OnFreeCycle(Without(edges, exclude), sites, v)
    ensures Materialised(nodes) && HeaderOnEveryCycle(nodes, Without(edges, exclude)) ==> r.Linked?
  {
    hide IsPlan, Shaped, OneWriter, OneReader, IsConstant, AtHeader, CellInput, IsNodeGraph, Acyclic,
      HeaderOnEveryCycle, OneProducer, Widths, ByValueOrder, InBatches,
      OnFreeCycle;
    var fusion := ComputeFusion(nodes);
    if fusion.None? {
      return FusionRefused;
    }
    var plan := fusion.value;
    InputsHaveWidths(nodes, width, plan);
    var sites := MeasurabilitySites(nodes, width, plan);
    NodeGraphFacts(nodes, edges, exclude);
    var cuts := CycleSites(nodes, edges, sites, exclude);
    var linked := sites + cuts.value;
    if Materialised(nodes) && HeaderOnEveryCycle(nodes, Without(edges, exclude)) {
      NothingLeaks(nodes, plan, edges, exclude, sites, cuts.value);
    }
    var leaked := linked * plan.deadValues;
    assert forall v :: v in leaked <==> v in linked && v in plan.deadValues;
    r := if leaked != {} then Leaked(leaked) else Linked(plan, linked);
  }

  /** The whole of it: fuse, link, check, and deepen the links until every cycle clears the floor. */
  method PlaceFusedStorage(nodes: seq<Node>, edges: seq<Edge>, width: map<string, nat>, exclude: set<string>)
    returns (r: Linking, depth: Depths)
    requires Shaped(nodes) && OneWriter(nodes) && IsNodeGraph(nodes, edges) && Widths(nodes, width)
    ensures r.Linked? ==> IsPlan(nodes, r.plan) && r.plan.deadValues !! r.linked
    ensures r.Linked? ==> depth.Keys == r.linked && Floor(Without(edges, exclude), depth)
                          && InRounds(nodes, Without(edges, exclude), r.linked, depth)
                          && forall v | v in depth :: 1 <= depth[v] <= 3
    ensures r.Linked? ==> forall es | Ring(Without(edges, exclude), es) :: 3 <= Stages(depth, es)
    ensures Materialised(nodes) && HeaderOnEveryCycle(nodes, Without(edges, exclude)) ==> r.Linked?
  {
    hide *;
    r := PlaceLinks(nodes, edges, width, exclude);
    depth := map[];
    if r.Linked? {
      NodeGraphFacts(nodes, edges, exclude);
      AcyclicLinked(Without(edges, exclude), r.linked);
      var depths := RingDepths(nodes, edges, r.linked, exclude);
      depth := depths.value;
    }
  }
}
