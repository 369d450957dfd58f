/**
 One fused region: its order, its single sink, and how every operand is wired
 (`_build_region` in bdc/emit.py).
 */
module Regions {
  import opened Graphs
  import opened Dataflow
  import opened ValueUse
  import opened TopoOrder
  import opened Literals
  import opened Grouping

  /** A folded literal, the `k`th external input, or another member's result. */
  datatype Ref = Literal(value: int) | External(k: nat) | Interior(producer: nat)

  datatype Region = Region(nodeIds: seq<nat>, anchor: nat, extInputs: seq<string>, constOf: map<Place, int>,
      refs: map<Place, Ref>)

  ghost predicate Members(nodes: seq<Node>, members: set<nat>) {
    members != {} && forall i | i in members :: Fusable(nodes, i)
  }

  /** `v` is another member's result. */
  predicate Interiorly(nodes: seq<Node>, members: set<nat>, v: string) {
    ProducerOf(nodes, v).Some? && ProducerOf(nodes, v).value in members
  }

  // ---- order --------------------------------------------------------------------

  ghost predicate DependsOn(nodes: seq<Node>, members: set<nat>, i: nat, d: nat) {
    && i < |nodes| && d in members
    && exists v :: v in nodes[i].operands && ProducerOf(nodes, v) == Some(d)
  }

  method Dependencies(nodes: seq<Node>, producer: Producers, members: set<nat>) returns (deps: Deps)
    requires Members(nodes, members) && forall v :: LookUp(producer, v) == ProducerOf(nodes, v)
    ensures deps.Keys == members
    ensures forall i: nat, d | i in members :: d in deps[i] <==> DependsOn(nodes, members, i, d)
  {
    deps := map[];
    for i := 0 to |nodes|
      invariant forall j: nat :: j in deps <==> j in members && j < i
      invariant forall j: nat, d | j in deps :: d in deps[j] <==> DependsOn(nodes, members, j, d)
    {
      if i in members {
        var mine: seq<nat> := [];
        var operands := nodes[i].operands;
        for k := 0 to |operands|
          invariant forall d :: d in mine <==>
                      d in members && exists v :: v in operands[..k] && ProducerOf(nodes, v) == Some(d)
        {
          var p := LookUp(producer, operands[k]);
          assert p == ProducerOf(nodes, operands[k]);
          assert operands[..k + 1] == operands[..k] + [operands[k]];
          if p.Some? && p.value in members {
            mine := mine + [p.value];
          }
        }
        assert operands[..|operands|] == operands;
        deps := deps[i := mine];
      }
    }
  }

  lemma {:induction false} DepsAreFusableArcs(nodes: seq<Node>, members: set<nat>, deps: Deps)
    requires Members(nodes, members) && deps.Keys == members
    requires forall i: nat, d | i in members :: d in deps[i] <==> DependsOn(nodes, members, i, d)
    ensures Inward(deps) && (forall i | i in deps :: i < |nodes|)
    ensures Acyclic(FusableArcs(nodes)) ==> Acyclic(DepArcs(deps))
  {
    hide Acyclic;
    forall a | a in DepArcs(deps) ensures a in FusableArcs(nodes) {
      var (d, i) := a;
      var v :| v in nodes[i].operands && ProducerOf(nodes, v) == Some(d);
      assert FusableEdge(nodes, Edge(d, i, v));
      assert Feeds(nodes, d, i);
    }
    if Acyclic(FusableArcs(nodes)) {
      SmallerIsAcyclic(DepArcs(deps), FusableArcs(nodes));
    }
  }

  /** Every interior operand is produced earlier in the order. */
  ghost predicate ProducersFirst(nodes: seq<Node>, order: seq<nat>) {
    forall k, v | 0 <= k < |order| && order[k] < |nodes| && v in nodes[order[k]].operands
      && Interiorly(nodes, Elements(order), v) ::
      ProducerOf(nodes, v).value in order[..k]
  }

  lemma {:induction false} OrderedIsProducersFirst(nodes: seq<Node>, members: set<nat>, deps: Deps, order: seq<nat>)
    requires deps.Keys == members == Elements(order) && Ordered(deps, order)
    requires forall i: nat, d | i in members :: d in deps[i] <==> DependsOn(nodes, members, i, d)
    ensures ProducersFirst(nodes, order)
  {
    forall k, v | 0 <= k < |order| && order[k] < |nodes| && v in nodes[order[k]].operands
      && Interiorly(nodes, Elements(order), v)
      ensures ProducerOf(nodes, v).value in order[..k]
    {
      assert order[k] in members;
      assert DependsOn(nodes, members, order[k], ProducerOf(nodes, v).value);
    }
  }

  method RegionOrder(nodes: seq<Node>, producer: Producers, members: set<nat>) returns (order: seq<nat>)
    requires Members(nodes, members) && forall v :: LookUp(producer, v) == ProducerOf(nodes, v)
    ensures Elements(order) == members && NoRepeats(order)
    ensures Acyclic(FusableArcs(nodes)) ==> ProducersFirst(nodes, order)
  {
    hide Acyclic, Ordered, Inward, ProducersFirst, NoRepeats, DependsOn;
    var deps := Dependencies(nodes, producer, members);
    DepsAreFusableArcs(nodes, members, deps);
    order := TopologicalOrder(|nodes|, deps);
    if Acyclic(FusableArcs(nodes)) {
      OrderedIsProducersFirst(nodes, members, deps, order);
    }
  }

  // ---- the sink -----------------------------------------------------------------

  predicate AnyOutside(eaters: seq<nat>, members: set<nat>) {
    exists c :: c in eaters && c !in members
  }

  /** `i`'s result leaves the region, or is read by nobody. */
  ghost predicate Sink(nodes: seq<Node>, members: set<nat>, i: nat) {
    && i < |nodes| && |nodes[i].results| == 1
    && (Eaters(nodes, nodes[i].results[0]) == [] || AnyOutside(Eaters(nodes, nodes[i].results[0]), members))
  }

  ghost predicate OneResultEach(nodes: seq<Node>, order: seq<nat>) {
    forall i | i in order :: i < |nodes| && |nodes[i].results| == 1
  }

  /** The sinks of a region, or nothing if a member has not exactly one result. */
  method Sinks(nodes: seq<Node>, consumers: Readership, members: set<nat>, order: seq<nat>)
      returns (sinks: Option<seq<nat>>)
    requires (forall v :: ReadersIn(consumers, v) == Eaters(nodes, v)) && forall i | i in order :: i < |nodes|
    ensures sinks.Some? <==> OneResultEach(nodes, order)
    ensures sinks.Some? ==> forall i :: i in sinks.value <==> i in order && Sink(nodes, members, i)
    ensures sinks.Some? && NoRepeats(order) ==> NoRepeats(sinks.value)
  {
    hide Sink, NoRepeats, AnyOutside, Eaters;
    var found: seq<nat> := [];
    NothingRepeats();
    for k := 0 to |order|
      invariant OneResultEach(nodes, order[..k])
      invariant forall i :: i in found <==> i in order[..k] && Sink(nodes, members, i)
      invariant NoRepeats(order) ==> NoRepeats(found)
    {
      var i := order[k];
      assert i in order;
      assert order[..k + 1] == order[..k] + [i];
      if |nodes[i].results| != 1 {
        return None;
      }
      var eaters := ReadersIn(consumers, nodes[i].results[0]);
      SinkIff(nodes, members, i);
      if eaters == [] || AnyOutside(eaters, members) {
        NewAt(order, k, found);
        found := found + [i];
      }
    }
    assert order[..|order|] == order;
    return Some(found);
  }

  lemma {:induction false} SinkIff(nodes: seq<Node>, members: set<nat>, i: nat)
    requires i < |nodes| && |nodes[i].results| == 1
    ensures var eaters := Eaters(nodes, nodes[i].results[0]);
            Sink(nodes, members, i) <==> eaters == [] || AnyOutside(eaters, members)
  {
  }

  lemma {:induction false} NothingRepeats()
    ensures NoRepeats([])
  {
  }

  /** What comes next in a list without repetition may be appended to a selection of what came before. */
  lemma {:induction false} NewAt(order: seq<nat>, k: nat, found: seq<nat>)
    requires k < |order| && forall i | i in found :: i in order[..k]
    ensures NoRepeats(order) && NoRepeats(found) ==> NoRepeats(found + [order[k]])
  {
    assert NoRepeats(order) ==> order[k] !in order[..k];
  }

  /** The last member in producers-first order is a sink. */
  lemma {:induction false} LastIsSink(nodes: seq<Node>, order: seq<nat>)
    requires OneWriter(nodes) && order != [] && OneResultEach(nodes, order) && NoRepeats(order)
    requires ProducersFirst(nodes, order)
    ensures Sink(nodes, Elements(order), order[|order| - 1])
  {
    var last := order[|order| - 1];
    assert last in order;
    var v := nodes[last].results[0];
    var eaters := Eaters(nodes, v);
    if eaters != [] && !AnyOutside(eaters, Elements(order)) {
      EatersIff(nodes, v);
      assert eaters[0] in eaters;
      var k :| 0 <= k < |order| && order[k] == eaters[0];
      ProducerIs(nodes, v, last);
      assert false;
    }
  }

  /** A component with one open member has one sink. */
  lemma {:induction false} SinkIsOpen(nodes: seq<Node>, root: map<nat, nat>, members: set<nat>, x: nat)
    requires OneReader(nodes) && x in root && Fusable(nodes, x) && Sink(nodes, members, x)
    requires forall i | i in root && root[i] == root[x] :: i in members
    ensures Open(nodes, root, x)
  {
    var v := nodes[x].results[0];
    EatersIff(nodes, v);
    forall c: nat | c in root && root[c] == root[x] && c < |nodes| && nodes[x].results != []
      ensures v !in nodes[c].operands
    {
      if v in nodes[c].operands {
        assert c in Eaters(nodes, v) && |Eaters(nodes, v)| <= 1;
      }
    }
  }

  // ---- wiring -------------------------------------------------------------------

  /** Operand `k` of member `i` comes from outside the region. */
  ghost predicate Outside(nodes: seq<Node>, members: set<nat>, lits: map<Place, int>, i: nat, k: nat) {
    && i in members && i < |nodes| && k < |nodes[i].operands|
    && (i, k) !in lits && !Interiorly(nodes, members, nodes[i].operands[k])
  }

  /** `ref` says where operand `k` of member `i` comes from. */
  ghost predicate Wires(nodes: seq<Node>, members: set<nat>, lits: map<Place, int>, ext: seq<string>, i: nat, k: nat,
      ref: Ref) {
    && i in members && i < |nodes| && k < |nodes[i].operands|
    && match ref
       case Literal(v) => (i, k) in lits && v == lits[(i, k)]
       case Interior(p) => (i, k) !in lits && ProducerOf(nodes, nodes[i].operands[k]) == Some(p) && p in members
       case External(j) => Outside(nodes, members, lits, i, k) && j < |ext| && ext[j] == nodes[i].operands[k]
  }

  ghost predicate WiresAll(nodes: seq<Node>, members: set<nat>, lits: map<Place, int>, ext: seq<string>,
      refs: map<Place, Ref>) {
    forall pl | pl in refs :: Wires(nodes, members, lits, ext, pl.0, pl.1, refs[pl])
  }

  ghost predicate FromOutside(nodes: seq<Node>, members: set<nat>, lits: map<Place, int>, v: string) {
    exists i: nat, k: nat :: Outside(nodes, members, lits, i, k) && nodes[i].operands[k] == v
  }

  /** Every external input is read by some member, and listed once. */
  ghost predicate Inputs(nodes: seq<Node>, members: set<nat>, lits: map<Place, int>, ext: seq<string>) {
    && (forall v | v in ext :: FromOutside(nodes, members, lits, v))
    && forall a, b | 0 <= a < b < |ext| :: ext[a] != ext[b]
  }

  /** Every operand of every member is wired. */
  ghost predicate Wired(nodes: seq<Node>, members: set<nat>, lits: map<Place, int>, ext: seq<string>,
      refs: map<Place, Ref>) {
    && (forall i: nat, k: nat | i in members && i < |nodes| && k < |nodes[i].operands| :: (i, k) in refs)
    && WiresAll(nodes, members, lits, ext, refs) && Inputs(nodes, members, lits, ext)
  }

  ghost predicate Indexed(ext: seq<string>, index: map<string, nat>) {
    && (forall v :: v in index <==> v in ext)
    && forall v | v in index :: index[v] < |ext| && ext[index[v]] == v
  }

  lemma {:induction false} WiresMore(nodes: seq<Node>, members: set<nat>, lits: map<Place, int>, ext: seq<string>,
      refs: map<Place, Ref>,
                  i: nat, k: nat, longer: seq<string>, ref: Ref)
    requires WiresAll(nodes, members, lits, ext, refs) && Wires(nodes, members, lits, longer, i, k, ref)
    requires ext <= longer
    ensures WiresAll(nodes, members, lits, longer, refs[(i, k) := ref])
  {
  }

  lemma {:induction false} InputsMore(nodes: seq<Node>, members: set<nat>, lits: map<Place, int>, ext: seq<string>,
      i: nat, k: nat)
    requires Inputs(nodes, members, lits, ext) && Outside(nodes, members, lits, i, k) && nodes[i].operands[k] !in ext
    ensures Inputs(nodes, members, lits, ext + [nodes[i].operands[k]])
  {
    var v := nodes[i].operands[k];
    hide Outside;
    assert FromOutside(nodes, members, lits, v);
  }

  /** Wire operand `k` of member `i`, listing its value as an external input if it is a new one. */
  method WireOne(nodes: seq<Node>, producer: Producers, members: set<nat>, lits: map<Place, int>, i: nat, k: nat,
      ext: seq<string>, index: map<string, nat>)
      returns (ext': seq<string>, index': map<string, nat>, ref: Ref)
    requires i in members && i < |nodes| && k < |nodes[i].operands|
    requires forall v :: LookUp(producer, v) == ProducerOf(nodes, v)
    requires Inputs(nodes, members, lits, ext) && Indexed(ext, index)
    ensures Inputs(nodes, members, lits, ext') && Indexed(ext', index') && ext <= ext'
    ensures Wires(nodes, members, lits, ext', i, k, ref)
  {
    hide Inputs;
    ext', index' := ext, index;
    var operand := nodes[i].operands[k];
    var p := LookUp(producer, operand);
    assert p == ProducerOf(nodes, operand);
    if (i, k) in lits {
      ref := Literal(lits[(i, k)]);
    } else if p.Some? && p.value in members {
      ref := Interior(p.value);
    } else {
      if operand !in index {
        InputsMore(nodes, members, lits, ext, i, k);
        index' := index[operand := |ext|];
        ext' := ext + [operand];
      }
      ref := External(index'[operand]);
    }
  }

  method Wire(nodes: seq<Node>, producer: Producers, members: set<nat>, order: seq<nat>, lits: map<Place, int>)
    returns (ext: seq<string>, refs: map<Place, Ref>)
    requires Members(nodes, members) && Elements(order) == members
    requires forall v :: LookUp(producer, v) == ProducerOf(nodes, v)
    ensures Wired(nodes, members, lits, ext, refs)
  {
    hide Inputs, WiresAll, Wires, Indexed;
    ext, refs := [], map[];
    var index: map<string, nat> := map[];
    NothingWired(nodes, members, lits);
    for a := 0 to |order|
      invariant WiresAll(nodes, members, lits, ext, refs) && Inputs(nodes, members, lits, ext) && Indexed(ext, index)
      invariant forall i: nat, k: nat | i in order[..a] && i < |nodes| && k < |nodes[i].operands| :: (i, k) in refs
    {
      var i := order[a];
      assert i in Elements(order);
      assert order[..a + 1] == order[..a] + [i];
      for k := 0 to |nodes[i].operands|
        invariant WiresAll(nodes, members, lits, ext, refs) && Inputs(nodes, members, lits, ext) && Indexed(ext, index)
        invariant forall j: nat, l: nat | j in order[..a] && j < |nodes| && l < |nodes[j].operands| :: (j, l) in refs
        invariant forall l: nat | l < k :: (i, l) in refs
      {
        var ext', index', ref := WireOne(nodes, producer, members, lits, i, k, ext, index);
        WiresMore(nodes, members, lits, ext, refs, i, k, ext', ref);
        ext, index, refs := ext', index', refs[(i, k) := ref];
      }
    }
    assert order[..|order|] == order;
  }

  lemma {:induction false} NothingWired(nodes: seq<Node>, members: set<nat>, lits: map<Place, int>)
    ensures WiresAll(nodes, members, lits, [], map[]) && Inputs(nodes, members, lits, []) && Indexed([], map[])
  {
  }

  // ---- the region ---------------------------------------------------------------

  ghost function FoldedPlaces(nodes: seq<Node>, members: set<nat>): set<Place> {
    set i: nat, k: nat | i in members && i < |nodes| && k < |nodes[i].operands| && Folds(nodes, i, k) :: (i, k)
  }

  /** Every operand of the region is a literal or another member's result. */
  ghost predicate AllLiteral(nodes: seq<Node>, members: set<nat>) {
    forall i: nat, k: nat | i in members && i < |nodes| && k < |nodes[i].operands| ::
      Folds(nodes, i, k) || Interiorly(nodes, members, nodes[i].operands[k])
  }

  /** Every foldable operand is a literal, except one if the region would have no external input. */
  ghost predicate FoldsAllBut(nodes: seq<Node>, members: set<nat>, lits: map<Place, int>) {
    LiteralValues(nodes, lits) &&
    if AllLiteral(nodes, members)
    then exists u :: u in FoldedPlaces(nodes, members) && lits.Keys == FoldedPlaces(nodes, members) - {u}
    else lits.Keys == FoldedPlaces(nodes, members)
  }

  ghost predicate Ranked(nodes: seq<Node>, members: set<nat>, order: seq<nat>) {
    && Elements(order) == members && NoRepeats(order) && OneResultEach(nodes, order)
    && (Acyclic(FusableArcs(nodes)) ==> ProducersFirst(nodes, order))
  }

  ghost predicate SingleSink(nodes: seq<Node>, members: set<nat>, anchor: nat) {
    anchor in members && forall x | x in members :: Sink(nodes, members, x) <==> x == anchor
  }

  ghost predicate IsRegion(nodes: seq<Node>, members: set<nat>, r: Region) {
    && Ranked(nodes, members, r.nodeIds) && SingleSink(nodes, members, r.anchor)
    && Wired(nodes, members, r.constOf, r.extInputs, r.refs) && r.extInputs != []
    && FoldsAllBut(nodes, members, r.constOf)
  }

  lemma {:induction false} NoInputsIff(nodes: seq<Node>, members: set<nat>, lits: map<Place, int>, ext: seq<string>,
      refs: map<Place, Ref>)
    requires Members(nodes, members) && Wired(nodes, members, lits, ext, refs)
    requires lits.Keys == FoldedPlaces(nodes, members)
    ensures ext == [] <==> AllLiteral(nodes, members)
  {
    if ext != [] {
      assert ext[0] in ext;
      var i: nat, k: nat :| Outside(nodes, members, lits, i, k) && nodes[i].operands[k] == ext[0];
      assert (i, k) !in FoldedPlaces(nodes, members);
    } else {
      forall i: nat, k: nat | i in members && i < |nodes| && k < |nodes[i].operands|
        ensures Folds(nodes, i, k) || Interiorly(nodes, members, nodes[i].operands[k])
      {
        assert (i, k) in refs;
        assert Wires(nodes, members, lits, ext, i, k, refs[(i, k)]);
        if (i, k) in lits {
          assert (i, k) in FoldedPlaces(nodes, members);
        }
      }
    }
  }

  lemma {:induction false} WiresWithout(nodes: seq<Node>, members: set<nat>, lits: map<Place, int>, ext: seq<string>,
      u: Place, i: nat, k: nat, ref: Ref)
    requires Wires(nodes, members, lits, [], i, k, ref) && (i, k) != u
    ensures Wires(nodes, members, lits - {u}, ext, i, k, ref)
  {
  }

  /** With its last constant made live again, an all-literal region has one external input. */
  lemma {:induction false} UnfoldOne(nodes: seq<Node>, members: set<nat>, lits: map<Place, int>, refs: map<Place, Ref>,
      i: nat, k: nat)
    requires Members(nodes, members) && OneWriter(nodes) && Wired(nodes, members, lits, [], refs)
    requires (i, k) in lits && lits.Keys == FoldedPlaces(nodes, members) && LiteralValues(nodes, lits)
    ensures i in members && i < |nodes| && k < |nodes[i].operands|
    ensures Wired(nodes, members, lits - {(i, k)}, [nodes[i].operands[k]], refs[(i, k) := External(0)])
    ensures LiteralValues(nodes, lits - {(i, k)})
  {
    assert (i, k) in FoldedPlaces(nodes, members);
    LiteralIsOutside(nodes, members, i, k);
    hide Folds, LiteralFrom;
    UnfoldWires(nodes, members, lits, refs, i, k);
  }

  lemma {:induction false} UnfoldWires(nodes: seq<Node>, members: set<nat>, lits: map<Place, int>,
      refs: map<Place, Ref>, i: nat, k: nat)
    requires Wired(nodes, members, lits, [], refs) && i in members && i < |nodes| && k < |nodes[i].operands|
    requires !Interiorly(nodes, members, nodes[i].operands[k])
    ensures Wired(nodes, members, lits - {(i, k)}, [nodes[i].operands[k]], refs[(i, k) := External(0)])
  {
    var fewer, ext, more := lits - {(i, k)}, [nodes[i].operands[k]], refs[(i, k) := External(0)];
    assert Outside(nodes, members, fewer, i, k);
    assert Wires(nodes, members, fewer, ext, i, k, External(0));
    assert FromOutside(nodes, members, fewer, ext[0]);
    hide Wires, Outside;
    forall pl | pl in more ensures Wires(nodes, members, fewer, ext, pl.0, pl.1, more[pl]) {
      if pl != (i, k) {
        assert (pl.0, pl.1) != (i, k);
        WiresWithout(nodes, members, lits, ext, (i, k), pl.0, pl.1, refs[pl]);
      }
    }
    assert Inputs(nodes, members, fewer, ext);
  }

  /** A folded operand's producer is a constant, which no region contains. */
  lemma {:induction false} LiteralIsOutside(nodes: seq<Node>, members: set<nat>, i: nat, k: nat)
    requires Members(nodes, members) && OneWriter(nodes) && Folds(nodes, i, k)
    ensures i < |nodes| && k < |nodes[i].operands| && !Interiorly(nodes, members, nodes[i].operands[k])
  {
    var c: nat :| LiteralFrom(nodes, c, i, k);
    assert nodes[c].results[0] in nodes[c].results;
    ProducerIs(nodes, nodes[i].operands[k], c);
    assert !Fusable(nodes, c);
  }

  /** The first member of an all-literal region reads nothing but literals. */
  lemma {:induction false} SomethingFolds(nodes: seq<Node>, members: set<nat>, order: seq<nat>)
    requires Shaped(nodes) && Members(nodes, members) && Elements(order) == members && order != []
    requires ProducersFirst(nodes, order) && AllLiteral(nodes, members)
    ensures FoldedPlaces(nodes, members) != {}
  {
    var i := order[0];
    assert i in members;
    assert ShapedNode(nodes[i]);
    assert nodes[i].operands[0] in nodes[i].operands;
    assert Folds(nodes, i, 0);
    assert (i, 0) in FoldedPlaces(nodes, members);
  }

  /** The literals of one region's members. */
  function Restricted(lits: map<Place, int>, members: set<nat>): map<Place, int> {
    map pl | pl in lits && pl.0 in members :: lits[pl]
  }

  lemma {:induction false} RestrictedFolds(nodes: seq<Node>, members: set<nat>, lits: map<Place, int>)
    requires Members(nodes, members) && LiteralValues(nodes, lits)
    requires forall c: nat, k: nat :: (c, k) in lits <==> Folds(nodes, c, k)
    ensures Restricted(lits, members).Keys == FoldedPlaces(nodes, members)
    ensures LiteralValues(nodes, Restricted(lits, members))
  {
    var mine, folded := Restricted(lits, members), FoldedPlaces(nodes, members);
    forall pl | pl in mine ensures pl in folded {
      assert Folds(nodes, pl.0, pl.1);
      assert (pl.0, pl.1) in folded;
    }
  }

  /**
   One region from its members: none if a member has several results, if not exactly one
   result leaves, or if nothing is left to un-fold.
   */
  method BuildRegion(nodes: seq<Node>, producer: Producers, consumers: Readership, members: set<nat>,
      constOf: map<Place, int>)
    returns (r: Option<Region>)
    requires Shaped(nodes) && OneWriter(nodes) && Members(nodes, members)
    requires (forall v :: LookUp(producer, v) == ProducerOf(nodes, v))
    requires forall v :: ReadersIn(consumers, v) == Eaters(nodes, v)
    requires (forall c: nat, k: nat :: (c, k) in constOf <==> Folds(nodes, c, k)) && LiteralValues(nodes, constOf)
    ensures r.Some? ==> IsRegion(nodes, members, r.value)
    ensures r.None? <==> Refused(nodes, members)
    ensures r.None? ==> !Materialised(nodes) || !UniqueSink(nodes, members)
  {
    hide SingleSink, Shaped, OneWriter, Acyclic, ProducersFirst, OneResultEach, NoRepeats, Sink, Wired, FoldsAllBut,
      LiteralValues, AllLiteral, Folds,
      UniqueSink;
    var order := RegionOrder(nodes, producer, members);
    assert forall i | i in order :: i in Elements(order);
    var sinks := Sinks(nodes, consumers, members, order);
    MembersRanked(nodes, members, order);
    ResultsOfMembers(nodes, members, order);
    if sinks.None? {
      return None;
    }
    SinkCount(nodes, members, order, sinks.value);
    OneSinkIff(nodes, members, sinks.value);
    if |sinks.value| != 1 {
      return None;
    }
    SinkFound(nodes, members, sinks.value);
    var lits := Restricted(constOf, members);
    RestrictedFolds(nodes, members, constOf);
    var ext, refs := Wire(nodes, producer, members, order, lits);
    NoInputsIff(nodes, members, lits, ext, refs);
    if ext == [] {
      if lits == map[] {
        NothingToUnfold(nodes, members, order);
        return None;
      }
      var pl :| pl in lits;
      UnfoldOne(nodes, members, lits, refs, pl.0, pl.1);
      FoldsBut(nodes, members, lits, pl);
      ext, refs, lits := [nodes[pl.0].operands[pl.1]], refs[pl := External(0)], lits - {pl};
    } else {
      FoldsExactly(nodes, members, lits);
    }
    r := Some(Region(order, sinks.value[0], ext, lits, refs));
  }

  /** No region: a member has not one result, not one result leaves, or there is nothing to make live again. */
  ghost predicate Refused(nodes: seq<Node>, members: set<nat>) {
    || (exists i :: i in members && i < |nodes| && |nodes[i].results| != 1)
    || (forall a: nat :: !SingleSink(nodes, members, a))
    || (AllLiteral(nodes, members) && FoldedPlaces(nodes, members) == {})
  }

  lemma {:induction false} ResultsOfMembers(nodes: seq<Node>, members: set<nat>, order: seq<nat>)
    requires Members(nodes, members) && forall i :: i in order <==> i in members
    ensures OneResultEach(nodes, order) <==> !exists i :: i in members && i < |nodes| && |nodes[i].results| != 1
  {
  }

  lemma {:induction false} OneSinkIff(nodes: seq<Node>, members: set<nat>, sinks: seq<nat>)
    requires NoRepeats(sinks) && forall i :: i in sinks <==> i in members && Sink(nodes, members, i)
    ensures |sinks| == 1 <==> exists a: nat :: SingleSink(nodes, members, a)
  {
    hide Sink, NoRepeats;
    if |sinks| == 1 {
      SinkFound(nodes, members, sinks);
    }
    if a: nat :| SingleSink(nodes, members, a) {
      assert a in sinks;
      TwoDiffer(sinks);
    }
  }

  /** Not exactly one sink is a matter for the caller to rule out. */
  ghost predicate UniqueSink(nodes: seq<Node>, members: set<nat>) {
    forall x, y | x in members && y in members && Sink(nodes, members, x) && Sink(nodes, members, y) :: x == y
  }

  lemma {:induction false} FoldsBut(nodes: seq<Node>, members: set<nat>, lits: map<Place, int>, u: Place)
    requires AllLiteral(nodes, members) && lits.Keys == FoldedPlaces(nodes, members) && u in lits
    requires LiteralValues(nodes, lits - {u})
    ensures FoldsAllBut(nodes, members, lits - {u})
  {
    assert (lits - {u}).Keys == FoldedPlaces(nodes, members) - {u};
  }

  lemma {:induction false} FoldsExactly(nodes: seq<Node>, members: set<nat>, lits: map<Place, int>)
    requires !AllLiteral(nodes, members) && lits.Keys == FoldedPlaces(nodes, members) && LiteralValues(nodes, lits)
    ensures FoldsAllBut(nodes, members, lits)
  {
  }

  lemma {:induction false} MembersRanked(nodes: seq<Node>, members: set<nat>, order: seq<nat>)
    requires Members(nodes, members) && Elements(order) == members && NoRepeats(order)
    requires Acyclic(FusableArcs(nodes)) ==> ProducersFirst(nodes, order)
    ensures Materialised(nodes) ==> OneResultEach(nodes, order)
    ensures OneResultEach(nodes, order) ==> Ranked(nodes, members, order)
    ensures forall i :: i in order <==> i in members
  {
    hide Acyclic, ProducersFirst, NoRepeats, OneReader;
  }

  lemma {:induction false} SinkCount(nodes: seq<Node>, members: set<nat>, order: seq<nat>, sinks: seq<nat>)
    requires OneWriter(nodes) && Members(nodes, members) && Ranked(nodes, members, order) && NoRepeats(sinks)
    requires forall i :: i in sinks <==> i in members && Sink(nodes, members, i)
    ensures Materialised(nodes) && UniqueSink(nodes, members) ==> |sinks| == 1
  {
    hide Acyclic, OneReader, OneResultEach, Sink, ProducersFirst;
    if Materialised(nodes) && UniqueSink(nodes, members) {
      assert order != [] by {
        assert Elements([]) == {};
      }
      LastIsSink(nodes, order);
      assert order[|order| - 1] in sinks;
      TwoDiffer(sinks);
    }
  }

  lemma {:induction false} TwoDiffer(xs: seq<nat>)
    requires NoRepeats(xs)
    ensures |xs| <= 1 || exists x, y :: x in xs && y in xs && x != y
  {
    if |xs| > 1 {
      assert xs[0] in xs && xs[1] in xs && xs[0] != xs[1];
    }
  }

  lemma {:induction false} SinkFound(nodes: seq<Node>, members: set<nat>, sinks: seq<nat>)
    requires |sinks| == 1 && forall i :: i in sinks <==> i in members && Sink(nodes, members, i)
    ensures SingleSink(nodes, members, sinks[0])
  {
    assert sinks[0] in sinks;
  }

  lemma {:induction false} NothingToUnfold(nodes: seq<Node>, members: set<nat>, order: seq<nat>)
    requires Shaped(nodes) && Members(nodes, members) && Ranked(nodes, members, order)
    requires AllLiteral(nodes, members) && FoldedPlaces(nodes, members) == {}
    ensures !Materialised(nodes)
  {
    hide Acyclic, OneReader, OneResultEach, AllLiteral, ProducersFirst;
    if Materialised(nodes) {
      assert order != [] by {
        assert Elements([]) == {};
      }
      SomethingFolds(nodes, members, order);
      assert false;
    }
  }
}
