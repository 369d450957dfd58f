/**
 Finite directed graphs as sets of arcs, and the little reachability theory that
 the storage-placement and fusion proofs share.
 */
module Graphs {
  type Arcs = set<(nat, nat)>

  function Elements(xs: seq<nat>): set<nat> {
    set x | x in xs
  }

  /** `p` lists the nodes visited after `u`, the last of which is `v`. */
  ghost predicate Walk(g: Arcs, u: nat, p: seq<nat>, v: nat)
    decreases |p|
  {
    if p == [] then u == v else (u, p[0]) in g && Walk(g, p[0], p[1..], v)
  }

  ghost predicate Reaches(g: Arcs, u: nat, v: nat) {
    exists p :: Walk(g, u, p, v)
  }

  /** `u` lies on a cycle: a walk of at least one arc leads back to it. */
  ghost predicate OnCycle(g: Arcs, u: nat) {
    exists p :: p != [] && Walk(g, u, p, u)
  }

  ghost predicate Acyclic(g: Arcs) {
    forall u :: !OnCycle(g, u)
  }

  ghost predicate Closed(g: Arcs, s: set<nat>) {
    forall x, y | (x, y) in g && x in s :: y in s
  }

  lemma {:induction false} WalkConcat(g: Arcs, u: nat, p: seq<nat>, v: nat, q: seq<nat>, w: nat)
    requires Walk(g, u, p, v) && Walk(g, v, q, w)
    ensures Walk(g, u, p + q, w)
    decreases |p|
  {
    if p == [] {
      assert p + q == q;
    } else {
      WalkConcat(g, p[0], p[1..], v, q, w);
      assert (p + q)[1..] == p[1..] + q;
    }
  }

  lemma {:induction false} ReachesSelf(g: Arcs, u: nat)
    ensures Reaches(g, u, u)
  {
    assert Walk(g, u, [], u);
  }

  lemma {:induction false} ReachesArc(g: Arcs, u: nat, v: nat)
    requires (u, v) in g
    ensures Reaches(g, u, v)
  {
    assert Walk(g, v, [], v);
    assert [v][1..] == [];
    assert Walk(g, u, [v], v);
  }

  lemma {:induction false} ReachesTrans(g: Arcs, u: nat, v: nat, w: nat)
    requires Reaches(g, u, v) && Reaches(g, v, w)
    ensures Reaches(g, u, w)
  {
    var p :| Walk(g, u, p, v);
    var q :| Walk(g, v, q, w);
    WalkConcat(g, u, p, v, q, w);
  }

  lemma {:induction false} WalkStaysInside(g: Arcs, s: set<nat>, u: nat, p: seq<nat>, v: nat)
    requires Closed(g, s) && u in s && Walk(g, u, p, v)
    ensures v in s
    decreases |p|
  {
    if p != [] {
      WalkStaysInside(g, s, p[0], p[1..], v);
    }
  }

  lemma {:induction false} ReachesStaysInside(g: Arcs, s: set<nat>, u: nat, v: nat)
    requires Closed(g, s) && u in s && Reaches(g, u, v)
    ensures v in s
  {
    var p :| Walk(g, u, p, v);
    WalkStaysInside(g, s, u, p, v);
  }

  lemma {:induction false} WalkInLarger(g: Arcs, h: Arcs, u: nat, p: seq<nat>, v: nat)
    requires g <= h && Walk(g, u, p, v)
    ensures Walk(h, u, p, v)
    decreases |p|
  {
    if p != [] {
      WalkInLarger(g, h, p[0], p[1..], v);
    }
  }

  lemma {:induction false} SmallerIsAcyclic(g: Arcs, h: Arcs)
    requires g <= h && Acyclic(h)
    ensures Acyclic(g)
  {
    forall u ensures !OnCycle(g, u) {
      if OnCycle(g, u) {
        var p :| p != [] && Walk(g, u, p, u);
        WalkInLarger(g, h, u, p, u);
        assert OnCycle(h, u);
      }
    }
  }

  /** A node is on a cycle exactly when one of its successors leads back to it. */
  lemma {:induction false} OnCycleIff(g: Arcs, u: nat)
    ensures OnCycle(g, u) <==> exists v :: (u, v) in g && Reaches(g, v, u)
  {
    if OnCycle(g, u) {
      var p :| p != [] && Walk(g, u, p, u);
      assert Walk(g, p[0], p[1..], u);
    }
    if v :| (u, v) in g && Reaches(g, v, u) {
      var p :| Walk(g, v, p, u);
      assert ([v] + p)[1..] == p;
      assert Walk(g, u, [v] + p, u);
    }
  }
}
