/**
 Which operations become one cell, which constants fold into it, and which values lose
 their channel (`compute_fusion` in bdc/emit.py).
 */
module Fusion {
  import opened Graphs
  import opened Dataflow
  import opened ValueUse
  import opened UnionFind
  import opened TopoOrder
  import opened Literals
  import opened Grouping
  import opened Regions

  /**
   `skip` holds the nodes that are not lowered on their own, `regionOf` each fusable node's region,
   `anchorRegion` each region under its anchor, `deadValues` the results left without a net.
   */
  datatype Plan = Plan(skip: set<nat>, regionOf: map<nat, Region>, anchorRegion: map<nat, Region>,
      deadValues: set<string>)

  /** Each fusable node has a region it belongs to, and shares it with exactly the other members. */
  ghost predicate Partition(nodes: seq<Node>, regionOf: map<nat, Region>) {
    && regionOf.Keys == FusableNodes(nodes)
    && forall i | i in regionOf :: RegionAt(nodes, regionOf, i)
  }

  ghost predicate RegionAt(nodes: seq<Node>, regionOf: map<nat, Region>, i: nat)
    requires i in regionOf
  {
    var r := regionOf[i];
    && IsRegion(nodes, Elements(r.nodeIds), r) && i in r.nodeIds && |r.nodeIds| <= 4
    && forall j | j in r.nodeIds :: j in regionOf && regionOf[j] == r
  }

  /** Two regions joined by an edge would be too big for one. */
  ghost predicate Maximal(nodes: seq<Node>, regionOf: map<nat, Region>) {
    forall e | FusableEdge(nodes, e) :: e.producer in regionOf && e.consumer in regionOf &&
      (regionOf[e.producer] == regionOf[e.consumer]
       || |regionOf[e.producer].nodeIds| + |regionOf[e.consumer].nodeIds| > 4)
  }

  /** A member whose result stays inside its region. */
  ghost predicate Buried(regionOf: map<nat, Region>, x: nat) {
    x in regionOf && regionOf[x].anchor != x
  }

  ghost predicate ResultOf(nodes: seq<Node>, x: nat, v: string) {
    x < |nodes| && nodes[x].results != [] && nodes[x].results[0] == v
  }

  ghost predicate Skips(nodes: seq<Node>, plan: Plan) {
    && (forall x: nat :: x in plan.skip <==> Elided(nodes, x) || Buried(plan.regionOf, x))
    && forall v :: v in plan.deadValues <==> exists x :: x in plan.skip && ResultOf(nodes, x, v)
  }

  ghost predicate Anchors(plan: Plan) {
    forall a: nat :: LookUp(plan.anchorRegion, a) ==
      if a in plan.regionOf && plan.regionOf[a].anchor == a then Some(plan.regionOf[a]) else None
  }

  ghost predicate IsPlan(nodes: seq<Node>, plan: Plan) {
    Partition(nodes, plan.regionOf) && Maximal(nodes, plan.regionOf) && Skips(nodes, plan) && Anchors(plan)
  }

  /** Two fusable operations share a region exactly if they share a component of `root`. */
  ghost predicate SameParts(root: map<nat, nat>, regionOf: map<nat, Region>) {
    && root.Keys == regionOf.Keys
    && forall i, j | i in root && j in root ::
         i in regionOf && j in regionOf && (regionOf[i] == regionOf[j] <==> root[i] == root[j])
  }

  /** Which operations share a region is decided by taking the edges between them in the order of their values. */
  ghost predicate ByValueOrder(nodes: seq<Node>, regionOf: map<nat, Region>) {
    exists root :: InValueOrder(nodes, root) && SameParts(root, regionOf)
  }

  // ---- building it --------------------------------------------------------------

  /** Node `i`, and so its component's root, has the region of its component. */
  ghost predicate BuiltAt(nodes: seq<Node>, root: map<nat, nat>, regionOf: map<nat, Region>, i: nat)
    requires i in root && i in regionOf
  {
    IsRegion(nodes, Class(root, root[i]), regionOf[i]) && root[i] in regionOf && regionOf[i] == regionOf[root[i]]
  }

  /** The regions once the components with roots below `n` have been built. */
  ghost predicate Built(nodes: seq<Node>, root: map<nat, nat>, n: nat, regionOf: map<nat, Region>) {
    && (forall i: nat :: i in regionOf <==> i in root && root[i] < n)
    && forall i: nat | i in regionOf :: BuiltAt(nodes, root, regionOf, i)
  }

  ghost predicate Recorded(nodes: seq<Node>, absorbed: set<nat>, plan: Plan) {
    && (forall x :: x in plan.skip <==> x in absorbed || Buried(plan.regionOf, x))
    && (forall v :: v in plan.deadValues <==> exists x :: Buried(plan.regionOf, x) && ResultOf(nodes, x, v))
    && Anchors(plan)
  }

  method AddRegion(nodes: seq<Node>, plan: Plan, region: Region) returns (more: Plan)
    requires OneResultEach(nodes, region.nodeIds)
    ensures forall i: nat :: LookUp(more.regionOf, i) ==
              if i in region.nodeIds then Some(region) else LookUp(plan.regionOf, i)
    ensures forall x :: x in more.skip <==> x in plan.skip || (x in region.nodeIds && x != region.anchor)
    ensures forall v :: v in more.deadValues <==>
        v in plan.deadValues || exists x :: x in region.nodeIds && x != region.anchor && ResultOf(nodes, x, v)
    ensures more.anchorRegion == plan.anchorRegion[region.anchor := region]
  {
    var ids := region.nodeIds;
    more := plan;
    for k := 0 to |ids|
      invariant more.anchorRegion == plan.anchorRegion
      invariant forall i: nat :: LookUp(more.regionOf, i) ==
                  if i in ids[..k] then Some(region) else LookUp(plan.regionOf, i)
      invariant forall x :: x in more.skip <==> x in plan.skip || (x in ids[..k] && x != region.anchor)
      invariant forall v :: v in more.deadValues <==>
          v in plan.deadValues || exists x :: x in ids[..k] && x != region.anchor && ResultOf(nodes, x, v)
    {
      var i := ids[k];
      assert i in ids;
      assert ids[..k + 1] == ids[..k] + [i];
      more := more.(regionOf := more.regionOf[i := region]);
      if i != region.anchor {
        assert ResultOf(nodes, i, nodes[i].results[0]);
        more := more.(skip := more.skip + {i}, deadValues := more.deadValues + {nodes[i].results[0]});
      }
    }
    assert ids[..|ids|] == ids;
    more := more.(anchorRegion := more.anchorRegion[region.anchor := region]);
  }

  lemma {:induction false} RegionMembers(nodes: seq<Node>, members: set<nat>, r: Region)
    requires IsRegion(nodes, members, r)
    ensures (forall i: nat :: i in r.nodeIds <==> i in members) && OneResultEach(nodes, r.nodeIds)
    ensures r.anchor in r.nodeIds
    ensures |r.nodeIds| == |members| && Elements(r.nodeIds) == members
  {
    hide Wired, FoldsAllBut, Sink, ProducersFirst, OneResultEach, NoRepeats;
    assert forall i: nat :: i in Elements(r.nodeIds) <==> i in members;
    CountMembers(r.nodeIds);
  }

  lemma {:induction false} CountMembers(order: seq<nat>)
    requires NoRepeats(order)
    ensures |Elements(order)| == |order|
  {
    if order != [] {
      var n := |order| - 1;
      CountMembers(order[..n]);
      assert order == order[..n] + [order[n]];
      assert Elements(order) == Elements(order[..n]) + {order[n]};
    }
  }

  lemma {:induction false} BuiltMore(nodes: seq<Node>, root: map<nat, nat>, n: nat, before: map<nat, Region>,
      region: Region, after: map<nat, Region>)
    requires Built(nodes, root, n, before) && IsRegion(nodes, Class(root, n), region) && n in root && root[n] == n
    requires forall i: nat :: LookUp(after, i) == if i in region.nodeIds then Some(region) else LookUp(before, i)
    ensures Built(nodes, root, n + 1, after)
  {
    RegionMembers(nodes, Class(root, n), region);
    assert forall i: nat :: i in region.nodeIds <==> i in root && root[i] == n;
    hide IsRegion;
    forall i: nat ensures i in after <==> i in root && root[i] < n + 1 {
      assert LookUp(after, i) == if i in region.nodeIds then Some(region) else LookUp(before, i);
    }
    forall i: nat | i in after ensures BuiltAt(nodes, root, after, i) {
      assert LookUp(after, i) == if i in region.nodeIds then Some(region) else LookUp(before, i);
      assert LookUp(after, root[i]) == if root[i] in region.nodeIds then Some(region) else LookUp(before, root[i]);
      assert i !in region.nodeIds ==> BuiltAt(nodes, root, before, i);
    }
  }

  lemma {:induction false} RecordedMore(nodes: seq<Node>, root: map<nat, nat>, n: nat, absorbed: set<nat>, before: Plan,
      region: Region, after: Plan)
    requires Recorded(nodes, absorbed, before) && region.anchor in region.nodeIds
    requires forall i: nat | i in region.nodeIds :: i !in before.regionOf
    requires forall i: nat :: LookUp(after.regionOf, i) ==
               if i in region.nodeIds then Some(region) else LookUp(before.regionOf, i)
    requires forall x :: x in after.skip <==> x in before.skip || (x in region.nodeIds && x != region.anchor)
    requires forall v :: v in after.deadValues <==>
        v in before.deadValues || exists x :: x in region.nodeIds && x != region.anchor && ResultOf(nodes, x, v)
    requires after.anchorRegion == before.anchorRegion[region.anchor := region]
    ensures Recorded(nodes, absorbed, after)
  {
    forall x: nat
      ensures Buried(after.regionOf, x) <==> Buried(before.regionOf, x) || (x in region.nodeIds && x != region.anchor)
    {
      assert LookUp(after.regionOf, x) == if x in region.nodeIds then Some(region) else LookUp(before.regionOf, x);
    }
    forall a: nat ensures LookUp(after.anchorRegion, a) ==
      if a in after.regionOf && after.regionOf[a].anchor == a then Some(after.regionOf[a]) else None
    {
      assert LookUp(after.regionOf, a) == if a in region.nodeIds then Some(region) else LookUp(before.regionOf, a);
      assert LookUp(before.anchorRegion, a) ==
        if a in before.regionOf && before.regionOf[a].anchor == a then Some(before.regionOf[a]) else None;
    }
  }

  /** The members of each component, under its root. */
  method Groups(nodes: seq<Node>, uf: Forest) returns (groups: map<nat, set<nat>>)
    requires uf.Valid() && uf.root.Keys == FusableNodes(nodes)
    modifies uf`parent
    ensures uf.Valid()
    ensures forall r: nat :: r in groups <==> r in uf.root && uf.root[r] == r
    ensures forall r: nat | r in groups :: groups[r] == Class(uf.root, r)
  {
    hide Linked, Rooted, Sized, GroupsBelow;
    groups := map[];
    GroupsStart(uf.root);
    for i := 0 to |nodes|
      invariant uf.Valid() && GroupsBelow(uf.root, i, groups)
    {
      GroupsNext(uf.root, i, groups);
      if Fusable(nodes, i) {
        assert i in FusableNodes(nodes);
        var r := uf.Find(i);
        groups := groups[r := (if r in groups then groups[r] else {}) + {i}];
      }
    }
    GroupsEnd(nodes, uf.parent, uf.root, groups);
  }

  ghost function ClassBelow(root: map<nat, nat>, r: nat, n: nat): set<nat> {
    set x | x in Class(root, r) && x < n
  }

  /** The groups once the nodes below `n` have joined theirs. */
  ghost predicate GroupsBelow(root: map<nat, nat>, n: nat, groups: map<nat, set<nat>>) {
    && (forall r: nat :: r in groups <==> ClassBelow(root, r, n) != {})
    && forall r: nat | r in groups :: groups[r] == ClassBelow(root, r, n)
  }

  lemma {:induction false} GroupsStart(root: map<nat, nat>)
    ensures GroupsBelow(root, 0, map[])
  {
  }

  lemma {:induction false} GroupsNext(root: map<nat, nat>, n: nat, groups: map<nat, set<nat>>)
    requires GroupsBelow(root, n, groups)
    ensures n !in root ==> GroupsBelow(root, n + 1, groups)
    ensures n in root ==>
        var r := root[n]; GroupsBelow(root, n + 1, groups[r := (if r in groups then groups[r] else {}) + {n}])
  {
    forall r: nat
      ensures ClassBelow(root, r, n + 1) == ClassBelow(root, r, n) + if n in root && root[n] == r then {n} else {}
    {
    }
  }

  lemma {:induction false} GroupsEnd(nodes: seq<Node>, parent: map<nat, nat>, root: map<nat, nat>,
      groups: map<nat, set<nat>>)
    requires root.Keys == FusableNodes(nodes) && Rooted(parent, root)
    requires GroupsBelow(root, |nodes|, groups)
    ensures forall r: nat :: r in groups <==> r in root && root[r] == r
    ensures forall r: nat | r in groups :: groups[r] == Class(root, r)
  {
    assert forall j: nat | j in root :: j < |nodes|;
    forall r: nat | r in groups ensures r in root && root[r] == r && groups[r] == Class(root, r) {
      var j :| j in ClassBelow(root, r, |nodes|);
      assert Based(parent, root, j);
      assert ClassBelow(root, r, |nodes|) == Class(root, r);
    }
    forall r: nat | r in root && root[r] == r ensures r in groups {
      assert r in ClassBelow(root, r, |nodes|);
    }
  }

  /** A component with one open member has one sink. */
  lemma {:induction false} ComponentSink(nodes: seq<Node>, root: map<nat, nat>, r: nat)
    requires Grouped(nodes, root)
    ensures Materialised(nodes) ==> UniqueSink(nodes, Class(root, r))
  {
    hide Sink, Open, Acyclic, OneReader, Capped;
    var members := Class(root, r);
    if Materialised(nodes) {
      forall x, y | x in members && y in members && Sink(nodes, members, x) && Sink(nodes, members, y) ensures x == y {
        SinkIsOpen(nodes, root, members, x);
        SinkIsOpen(nodes, root, members, y);
      }
    }
  }

  lemma {:induction false} ComponentMembers(nodes: seq<Node>, root: map<nat, nat>, r: nat)
    requires Grouped(nodes, root) && r in root && root[r] == r
    ensures Members(nodes, Class(root, r))
  {
    assert r in Class(root, r);
  }

  /** A region for each component, unless one of them is refused. */
  method BuildRegions(nodes: seq<Node>, producer: Producers, consumers: Readership, absorbed: set<nat>,
      constOf: map<Place, int>,
                      ghost parent: map<nat, nat>, ghost root: map<nat, nat>, groups: map<nat, set<nat>>)
    returns (plan: Option<Plan>)
    requires Shaped(nodes) && OneWriter(nodes) && Grouped(nodes, root) && Rooted(parent, root)
    requires (forall v :: LookUp(producer, v) == ProducerOf(nodes, v))
    requires forall v :: ReadersIn(consumers, v) == Eaters(nodes, v)
    requires (forall c: nat, k: nat :: (c, k) in constOf <==> Folds(nodes, c, k)) && LiteralValues(nodes, constOf)
    requires forall r: nat :: r in groups <==> r in root && root[r] == r
    requires forall r: nat | r in groups :: groups[r] == Class(root, r)
    ensures plan.Some? ==> Built(nodes, root, |nodes|, plan.value.regionOf) && Recorded(nodes, absorbed, plan.value)
    ensures Materialised(nodes) ==> plan.Some?
  {
    hide Grouped, Folds, LiteralValues, IsRegion, Materialised, OneWriter, Shaped, Members, Built, Recorded, Rooted;
    var p := Plan(absorbed, map[], map[], {});
    NothingBuilt(nodes, root, absorbed);
    for r := 0 to |nodes|
      invariant Built(nodes, root, r, p.regionOf) && Recorded(nodes, absorbed, p)
    {
      if r in groups {
        ComponentMembers(nodes, root, r);
        ComponentSink(nodes, root, r);
        var region := BuildRegion(nodes, producer, consumers, groups[r], constOf);
        if region.None? {
          return None;
        }
        RegionMembers(nodes, groups[r], region.value);
        var more := AddRegion(nodes, p, region.value);
        NotYetBuilt(nodes, root, r, p.regionOf);
        BuiltMore(nodes, root, r, p.regionOf, region.value, more.regionOf);
        RecordedMore(nodes, root, r, absorbed, p, region.value, more);
        p := more;
      } else {
        BuiltSame(nodes, parent, root, r, p.regionOf);
      }
    }
    plan := Some(p);
  }

  lemma {:induction false} NothingBuilt(nodes: seq<Node>, root: map<nat, nat>, absorbed: set<nat>)
    ensures Built(nodes, root, 0, map[]) && Recorded(nodes, absorbed, Plan(absorbed, map[], map[], {}))
  {
  }

  lemma {:induction false} NotYetBuilt(nodes: seq<Node>, root: map<nat, nat>, n: nat, regionOf: map<nat, Region>)
    requires Built(nodes, root, n, regionOf)
    ensures forall i: nat | i in Class(root, n) :: i !in regionOf
  {
  }

  lemma {:induction false} BuiltSame(nodes: seq<Node>, parent: map<nat, nat>, root: map<nat, nat>, n: nat,
      regionOf: map<nat, Region>)
    requires Built(nodes, root, n, regionOf) && Rooted(parent, root) && !(n in root && root[n] == n)
    ensures Built(nodes, root, n + 1, regionOf)
  {
    forall i: nat | i in root ensures root[i] != n {
      assert Based(parent, root, i);
    }
    hide BuiltAt;
  }

  // ---- the plan -----------------------------------------------------------------

  /** Members of one component share its region. */
  ghost predicate Shared(root: map<nat, nat>, regionOf: map<nat, Region>) {
    && (forall i, j: nat | i in root && j in root && root[i] == root[j] :: i in regionOf && j in regionOf
          && regionOf[i] == regionOf[j])
    && forall i: nat | i in root :: i in regionOf && |regionOf[i].nodeIds| == |Class(root, root[i])|
  }

  lemma {:induction false} RegionSize(nodes: seq<Node>, root: map<nat, nat>, regionOf: map<nat, Region>, i: nat)
    requires i in root && i in regionOf && BuiltAt(nodes, root, regionOf, i)
    ensures |regionOf[i].nodeIds| == |Class(root, root[i])|
    ensures root[i] in regionOf && regionOf[i] == regionOf[root[i]]
  {
    RegionMembers(nodes, Class(root, root[i]), regionOf[i]);
  }

  lemma {:induction false} RegionsShared(nodes: seq<Node>, root: map<nat, nat>, regionOf: map<nat, Region>)
    requires Built(nodes, root, |nodes|, regionOf) && forall i: nat | i in root :: root[i] < |nodes|
    ensures regionOf.Keys == root.Keys && Shared(root, regionOf)
  {
    hide BuiltAt;
    assert forall i: nat :: i in regionOf <==> i in root;
    forall i, j: nat | i in root && j in root && root[i] == root[j] ensures regionOf[i] == regionOf[j] {
      RegionSize(nodes, root, regionOf, i);
      RegionSize(nodes, root, regionOf, j);
    }
    forall i: nat | i in root ensures |regionOf[i].nodeIds| == |Class(root, root[i])| {
      RegionSize(nodes, root, regionOf, i);
    }
  }

  lemma {:induction false} RegionIsAt(nodes: seq<Node>, root: map<nat, nat>, regionOf: map<nat, Region>, i: nat)
    requires Capped(root, MAX_FUSE_NODES) && Shared(root, regionOf) && i in root && i in regionOf
    requires BuiltAt(nodes, root, regionOf, i)
    ensures RegionAt(nodes, regionOf, i)
  {
    RegionMembers(nodes, Class(root, root[i]), regionOf[i]);
    hide IsRegion;
  }

  lemma {:induction false} RegionsPartition(nodes: seq<Node>, root: map<nat, nat>, regionOf: map<nat, Region>)
    requires Grouped(nodes, root) && Built(nodes, root, |nodes|, regionOf)
    requires forall i: nat | i in root :: root[i] < |nodes|
    ensures Partition(nodes, regionOf) && Shared(root, regionOf)
  {
    hide IsRegion, OneOpen, Materialised, BuiltAt, RegionAt, Shared, Capped;
    RegionsShared(nodes, root, regionOf);
    forall i: nat | i in regionOf ensures RegionAt(nodes, regionOf, i) {
      RegionIsAt(nodes, root, regionOf, i);
    }
  }

  lemma {:induction false} RegionsMaximal(nodes: seq<Node>, root: map<nat, nat>, regionOf: map<nat, Region>)
    requires forall e | FusableEdge(nodes, e) :: Settled(root, e, MAX_FUSE_NODES)
    requires Shared(root, regionOf)
    ensures Maximal(nodes, regionOf)
  {
    hide FusableEdge, Class;
  }

  lemma {:induction false} RecordedSkips(nodes: seq<Node>, absorbed: set<nat>, plan: Plan, more: Plan)
    requires Recorded(nodes, absorbed, plan) && forall x: nat :: x in absorbed <==> Elided(nodes, x)
    requires more == plan.(deadValues := more.deadValues)
    requires forall v :: v in more.deadValues <==>
               v in plan.deadValues || exists x :: x in absorbed && ResultOf(nodes, x, v)
    ensures Skips(nodes, more) && Anchors(more)
  {
    hide Elided, ResultOf;
  }

  /** The values of the absorbed constants and sources. */
  method AbsorbedValues(nodes: seq<Node>, absorbed: set<nat>) returns (values: set<string>)
    requires forall x | x in absorbed :: x < |nodes| && nodes[x].results != []
    ensures forall v :: v in values <==> exists x :: x in absorbed && ResultOf(nodes, x, v)
  {
    values := {};
    for i := 0 to |nodes|
      invariant forall v :: v in values <==> exists x :: x in absorbed && x < i && ResultOf(nodes, x, v)
    {
      if i in absorbed {
        assert ResultOf(nodes, i, nodes[i].results[0]);
        values := values + {nodes[i].results[0]};
      }
    }
  }

  lemma {:induction false} ElidedResults(nodes: seq<Node>, x: nat)
    requires Shaped(nodes) && Elided(nodes, x)
    ensures x < |nodes| && nodes[x].results != [] && !Fusable(nodes, x) && |nodes[x].results| == 1
    ensures nodes[x].op == "constant" || nodes[x].op == "source"
  {
    if !Absorbable(nodes, x) {
      var i: nat :| Absorbable(nodes, i) && Trigger(nodes, i) == Some(x);
    }
    assert ShapedNode(nodes[x]);
  }

  /**
   The fusion plan; none if an operation has several results or a group has not exactly one
   external result, neither of which happens to a materialised function.
   */
  method ComputeFusion(nodes: seq<Node>) returns (plan: Option<Plan>)
    requires Shaped(nodes) && OneWriter(nodes)
    ensures plan.Some? ==> IsPlan(nodes, plan.value) && ByValueOrder(nodes, plan.value.regionOf)
    ensures plan.Some? ==> forall i: nat :: i in plan.value.regionOf <==> i < |nodes| && Combinational(nodes[i].op)
    ensures Materialised(nodes) ==> plan.Some?
  {
    hide Shaped, OneWriter, Materialised, IsRegion, Elided, Folds, LiteralValues, Grouped, Built, Recorded, Partition,
      Maximal, Skips, InValueOrder, ByValueOrder,
      Anchors, Rooted, Linked, Sized, Settled, Shared;
    var producer := ProducerMap(nodes);
    var consumers := ConsumerMap(nodes);
    var absorbed, constOf := AbsorbConstants(nodes, producer, consumers);
    var uf := Group(nodes, producer);
    GroupedKeys(nodes, uf.root);
    var groups := Groups(nodes, uf);
    plan := BuildRegions(nodes, producer, consumers, absorbed, constOf, uf.parent, uf.root, groups);
    if plan.None? {
      return;
    }
    forall x | x in absorbed ensures x < |nodes| && nodes[x].results != [] {
      ElidedResults(nodes, x);
    }
    var values := AbsorbedValues(nodes, absorbed);
    var more := plan.value.(deadValues := plan.value.deadValues + values);
    RootsBelow(nodes, uf.parent, uf.root);
    RegionsPartition(nodes, uf.root, more.regionOf);
    RegionsMaximal(nodes, uf.root, more.regionOf);
    RecordedSkips(nodes, absorbed, plan.value, more);
    RegionsByOrder(nodes, uf.root, more.regionOf);
    plan := Some(more);
  }

  /** The arithmetic, logic and shift operations, comparison and selection. */
  ghost predicate Combinational(op: string) {
    op in {"addi", "subi", "muli", "cmpi", "andi", "ori", "xori", "shli", "shrsi", "shrui", "select"}
  }

  lemma {:induction false} FusableNodesAre(nodes: seq<Node>)
    ensures forall i: nat :: i in FusableNodes(nodes) <==> i < |nodes| && Combinational(nodes[i].op)
  {
  }

  lemma {:induction false} RegionsByOrder(nodes: seq<Node>, root: map<nat, nat>, regionOf: map<nat, Region>)
    requires InValueOrder(nodes, root) && root.Keys == FusableNodes(nodes)
    requires Built(nodes, root, |nodes|, regionOf) && forall i: nat | i in root :: root[i] < |nodes|
    ensures ByValueOrder(nodes, regionOf)
    ensures forall i: nat :: i in regionOf <==> i < |nodes| && Combinational(nodes[i].op)
  {
    FusableNodesAre(nodes);
    hide InValueOrder, FusableNodes, IsRegion, Combinational, BuiltAt;
    RegionsShared(nodes, root, regionOf);
    forall i: nat, j: nat | i in root && j in root && regionOf[i] == regionOf[j] ensures root[i] == root[j] {
      ClassOf(nodes, root, regionOf, i);
      ClassOf(nodes, root, regionOf, j);
      assert j in Class(root, root[j]);
    }
    hide Built;
    assert SameParts(root, regionOf);
  }

  lemma {:induction false} ClassOf(nodes: seq<Node>, root: map<nat, nat>, regionOf: map<nat, Region>, i: nat)
    requires i in root && i in regionOf && BuiltAt(nodes, root, regionOf, i)
    ensures Elements(regionOf[i].nodeIds) == Class(root, root[i])
  {
    RegionMembers(nodes, Class(root, root[i]), regionOf[i]);
  }

  lemma {:induction false} GroupedKeys(nodes: seq<Node>, root: map<nat, nat>)
    requires Grouped(nodes, root)
    ensures root.Keys == FusableNodes(nodes)
  {
  }

  lemma {:induction false} RootsBelow(nodes: seq<Node>, parent: map<nat, nat>, root: map<nat, nat>)
    requires root.Keys == FusableNodes(nodes) && Rooted(parent, root)
    ensures forall i: nat | i in root :: root[i] < |nodes|
  {
    forall i: nat | i in root ensures root[i] < |nodes| {
      assert Based(parent, root, i);
    }
  }
}
