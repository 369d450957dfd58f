/**
 The heaviest simple cycle of a component, by a depth-first walk that meets every simple cycle once
 (`heaviest_ring` in bdc/ring_stages.py).
 */
module HeaviestRing {
  import opened Graphs
  import opened TopoOrder

  /** Successors of each node. */
  type Successors = map<nat, set<nat>>

  type Weights = map<(nat, nat), nat>

  predicate Arc(sub: Successors, u: nat, v: nat) {
    u in sub && v in sub[u]
  }

  function WeightOf(w: Weights, u: nat, v: nat): nat {
    if (u, v) in w then w[(u, v)] else 0
  }

  /** A walk of nodes below `n` that repeats none and never goes below its start. */
  ghost predicate SimplePath(sub: Successors, n: nat, p: seq<nat>) {
    && p != [] && NoRepeats(p)
    && (forall i | 0 <= i < |p| :: p[i] < n)
    && (forall i | 0 < i < |p| :: p[0] < p[i] && Arc(sub, p[i - 1], p[i]))
  }

  /** A simple cycle, written from its smallest node. */
  ghost predicate IsCycle(sub: Successors, n: nat, c: seq<nat>) {
    SimplePath(sub, n, c) && Arc(sub, c[|c| - 1], c[0])
  }

  lemma {:induction false} FirstBelow(p: seq<nat>, n: nat)
    requires p != [] && forall i | 0 <= i < |p| :: p[i] < n
    ensures n > 0
  {
    assert p[0] < n;
  }

  lemma {:induction false} ShortPath(p: seq<nat>, n: nat)
    requires NoRepeats(p) && forall i | 0 <= i < |p| :: p[i] < n
    ensures |p| <= n
  {
    if n == 0 {
      if p != [] {
        FirstBelow(p, n);
      }
    } else if n - 1 in p {
      var k :| 0 <= k < |p| && p[k] == n - 1;
      ShortPath(p[..k] + p[k + 1..], n - 1);
    } else {
      forall i | 0 <= i < |p| ensures p[i] < n - 1 {
        assert p[i] in p;
      }
      ShortPath(p, n - 1);
    }
  }

  // ---- the cycles, in the order the walk meets them -------------------------------

  /** The cycles that go on from `p` by a node that is at least `v`. */
  ghost function CyclesFrom(sub: Successors, n: nat, p: seq<nat>, v: nat): seq<seq<nat>>
    requires SimplePath(sub, n, p)
    decreases n - |p|, n - v
  {
    ShortPath(p, n);
    if v >= n then [] else CyclesVia(sub, n, p, v) + CyclesFrom(sub, n, p, v + 1)
  }

  ghost predicate Extends(sub: Successors, n: nat, p: seq<nat>, v: nat)
    requires p != []
  {
    Arc(sub, p[|p| - 1], v) && v < n && v !in p && v > p[0]
  }

  lemma {:induction false} ExtendedPath(sub: Successors, n: nat, p: seq<nat>, v: nat)
    requires SimplePath(sub, n, p) && Extends(sub, n, p, v)
    ensures SimplePath(sub, n, p + [v]) && |p| < n
  {
    ShortPath(p + [v], n);
  }

  /** Those that go on by exactly `v`: `p` itself if that closes it. */
  ghost function CyclesVia(sub: Successors, n: nat, p: seq<nat>, v: nat): seq<seq<nat>>
    requires SimplePath(sub, n, p) && v < n
    decreases n - |p|, n - v, 0
  {
    if v == p[0] && Arc(sub, p[|p| - 1], v) then [p]
    else if Extends(sub, n, p, v) then (ExtendedPath(sub, n, p, v); CyclesFrom(sub, n, p + [v], 0))
    else []
  }

  /** The cycles whose smallest node is at least `start`. */
  ghost function CyclesAbove(sub: Successors, n: nat, start: nat): seq<seq<nat>>
    decreases n - start
  {
    if start >= n then []
    else (if start in sub then CyclesFrom(sub, n, [start], 0) else []) + CyclesAbove(sub, n, start + 1)
  }

  /** Where a cycle goes after the prefix `p`. */
  ghost function Onward(p: seq<nat>, c: seq<nat>): nat
    requires p != []
  {
    if |c| > |p| then c[|p|] else p[0]
  }

  /** What `CyclesFrom` lists. */
  ghost predicate Continues(sub: Successors, n: nat, p: seq<nat>, v: nat, c: seq<nat>)
    requires p != []
  {
    IsCycle(sub, n, c) && p <= c && Onward(p, c) >= v
  }

  lemma {:induction false} CyclesFromIff(sub: Successors, n: nat, p: seq<nat>, v: nat, c: seq<nat>)
    requires SimplePath(sub, n, p)
    ensures c in CyclesFrom(sub, n, p, v) <==> Continues(sub, n, p, v, c)
    decreases n - |p|, n - v
  {
    ShortPath(p, n);
    if v < n {
      CyclesViaIff(sub, n, p, v, c);
      CyclesFromIff(sub, n, p, v + 1, c);
      OnwardSplit(sub, n, p, v, c);
    } else if Continues(sub, n, p, v, c) {
      OnwardBelow(sub, n, p, c);
    }
  }

  lemma {:induction false} OnwardBelow(sub: Successors, n: nat, p: seq<nat>, c: seq<nat>)
    requires p != [] && IsCycle(sub, n, c) && p <= c
    ensures Onward(p, c) < n
  {
  }

  lemma {:induction false} OnwardSplit(sub: Successors, n: nat, p: seq<nat>, v: nat, c: seq<nat>)
    requires p != []
    ensures Continues(sub, n, p, v, c) <==>
            Continues(sub, n, p, v + 1, c) || (IsCycle(sub, n, c) && p <= c && Onward(p, c) == v)
  {
  }

  lemma {:induction false} CyclesViaIff(sub: Successors, n: nat, p: seq<nat>, v: nat, c: seq<nat>)
    requires SimplePath(sub, n, p) && v < n
    ensures c in CyclesVia(sub, n, p, v) <==> IsCycle(sub, n, c) && p <= c && Onward(p, c) == v
    decreases n - |p|, n - v, 0
  {
    if Extends(sub, n, p, v) {
      ExtendedPath(sub, n, p, v);
      CyclesFromIff(sub, n, p + [v], 0, c);
    }
    if IsCycle(sub, n, c) && p <= c && Onward(p, c) == v {
      GoesOn(sub, n, p, v, c);
    }
    if v == p[0] && Arc(sub, p[|p| - 1], v) && c == p {
      assert IsCycle(sub, n, c);
    }
  }

  /** A cycle beyond `p` either is `p`, closed, or extends it. */
  lemma {:induction false} GoesOn(sub: Successors, n: nat, p: seq<nat>, v: nat, c: seq<nat>)
    requires SimplePath(sub, n, p) && IsCycle(sub, n, c) && p <= c && Onward(p, c) == v
    ensures (c == p && v == p[0] && Arc(sub, p[|p| - 1], v)) || (v != p[0] && Extends(sub, n, p, v) && p + [v] <= c)
  {
    if |c| > |p| {
      assert c[0] == p[0] && c[|p| - 1] == p[|p| - 1];
      assert forall i | 0 <= i < |p| :: p[i] == c[i];
      assert c[..|p| + 1] == p + [v];
    } else {
      assert c == p;
    }
  }

  // ---- each cycle is met once -----------------------------------------------------

  ghost predicate Distinct(cs: seq<seq<nat>>) {
    forall i, j | 0 <= i < j < |cs| :: cs[i] != cs[j]
  }

  lemma {:induction false} DistinctConcat(a: seq<seq<nat>>, b: seq<seq<nat>>)
    requires Distinct(a) && Distinct(b) && forall c | c in a :: c !in b
    ensures Distinct(a + b)
  {
    forall i, j | 0 <= i < j < |a + b| ensures (a + b)[i] != (a + b)[j] {
      if i < |a| <= j {
        assert a[i] in a && b[j - |a|] in b;
      }
    }
  }

  lemma {:induction false} CyclesFromDistinct(sub: Successors, n: nat, p: seq<nat>, v: nat)
    requires SimplePath(sub, n, p)
    ensures Distinct(CyclesFrom(sub, n, p, v))
    decreases n - |p|, n - v
  {
    ShortPath(p, n);
    if v < n {
      CyclesViaDistinct(sub, n, p, v);
      CyclesFromDistinct(sub, n, p, v + 1);
      forall c | c in CyclesVia(sub, n, p, v) ensures c !in CyclesFrom(sub, n, p, v + 1) {
        CyclesViaIff(sub, n, p, v, c);
        CyclesFromIff(sub, n, p, v + 1, c);
      }
      DistinctConcat(CyclesVia(sub, n, p, v), CyclesFrom(sub, n, p, v + 1));
    }
  }

  lemma {:induction false} CyclesViaDistinct(sub: Successors, n: nat, p: seq<nat>, v: nat)
    requires SimplePath(sub, n, p) && v < n
    ensures Distinct(CyclesVia(sub, n, p, v))
    decreases n - |p|, n - v, 0
  {
    if Extends(sub, n, p, v) {
      ExtendedPath(sub, n, p, v);
      CyclesFromDistinct(sub, n, p + [v], 0);
    }
  }

  lemma {:induction false} StartPath(sub: Successors, n: nat, start: nat)
    requires start < n
    ensures SimplePath(sub, n, [start])
  {
  }

  /** The list holds every simple cycle from its smallest node, once. */
  lemma {:induction false} CyclesAboveExact(sub: Successors, n: nat, start: nat)
    ensures forall c :: c in CyclesAbove(sub, n, start) <==> IsCycle(sub, n, c) && c[0] >= start
    ensures Distinct(CyclesAbove(sub, n, start))
    decreases n - start
  {
    if start < n {
      StartPath(sub, n, start);
      CyclesAboveExact(sub, n, start + 1);
      CyclesFromDistinct(sub, n, [start], 0);
      forall c ensures c in CyclesFrom(sub, n, [start], 0) <==> IsCycle(sub, n, c) && c[0] == start {
        CyclesFromIff(sub, n, [start], 0, c);
      }
      forall c | IsCycle(sub, n, c) ensures c[0] in sub {
        assert |c| == 1 || Arc(sub, c[0], c[1]);
      }
      DistinctConcat(if start in sub then CyclesFrom(sub, n, [start], 0) else [], CyclesAbove(sub, n, start + 1));
    } else {
      forall c | IsCycle(sub, n, c) ensures c[0] < n {
      }
    }
  }

  // ---- the heaviest ---------------------------------------------------------------

  function PathWeight(w: Weights, p: seq<nat>): nat {
    if |p| <= 1 then 0 else PathWeight(w, p[..|p| - 1]) + WeightOf(w, p[|p| - 2], p[|p| - 1])
  }

  /** The storage stages round a cycle. */
  function CycleWeight(w: Weights, c: seq<nat>): nat
    requires c != []
  {
    PathWeight(w, c) + WeightOf(w, c[|c| - 1], c[0])
  }

  ghost function Sum(xs: seq<nat>): nat {
    if xs == [] then 0 else Sum(xs[..|xs| - 1]) + xs[|xs| - 1]
  }

  /** What the arcs round `c` weigh, from each node to the next and from the last to the first. */
  ghost function Along(w: Weights, c: seq<nat>): (r: seq<nat>)
    ensures |r| == |c|
  {
    seq(|c|, i requires 0 <= i < |c| =>
      var arc := (c[i], c[if i == |c| - 1 then 0 else i + 1]); if arc in w then w[arc] else 0)
  }

  lemma {:induction false} PathWeightIs(w: Weights, c: seq<nat>, k: nat)
    requires 0 < k <= |c|
    ensures PathWeight(w, c[..k]) == Sum(Along(w, c)[..k - 1])
  {
    if k > 1 {
      PathWeightIs(w, c, k - 1);
      assert c[..k][..k - 1] == c[..k - 1] && c[..k][k - 2] == c[k - 2] && c[..k][k - 1] == c[k - 1];
      assert Along(w, c)[..k - 1][..k - 2] == Along(w, c)[..k - 2];
      assert Along(w, c)[..k - 1][k - 2] == WeightOf(w, c[k - 2], c[k - 1]);
    }
  }

  /** A cycle weighs what its arcs weigh together. */
  lemma {:induction false} CycleWeightIs(w: Weights, c: seq<nat>)
    requires c != []
    ensures CycleWeight(w, c) == Sum(Along(w, c))
  {
    var n := |c|;
    PathWeightIs(w, c, n);
    assert c[..n] == c && Along(w, c)[..n] == Along(w, c);
    assert Along(w, c)[n - 1] == WeightOf(w, c[n - 1], c[0]);
  }

  /** The stages and nodes of the first heaviest cycle; nothing if none has a stage. */
  ghost function Heaviest(w: Weights, cs: seq<seq<nat>>): (nat, nat)
    requires [] !in cs
  {
    if cs == [] then (0, 0)
    else
      var best, c := Heaviest(w, cs[..|cs| - 1]), cs[|cs| - 1];
      assert c in cs;
      if CycleWeight(w, c) > best.0 then (CycleWeight(w, c), |c|) else best
  }

  /** It is as heavy as any, and it is one of them. */
  lemma {:induction false} HeaviestIsMax(w: Weights, cs: seq<seq<nat>>)
    requires [] !in cs
    ensures forall c | c in cs :: CycleWeight(w, c) <= Heaviest(w, cs).0
    ensures Heaviest(w, cs) == (0, 0) || exists c :: c in cs && (CycleWeight(w, c), |c|) == Heaviest(w, cs)
  {
    if cs != [] {
      var front, last := cs[..|cs| - 1], cs[|cs| - 1];
      assert cs == front + [last];
      HeaviestIsMax(w, front);
      assert last in cs;
    }
  }

  /** The first `cap + 1` cycles. */
  function Capped(cs: seq<seq<nat>>, cap: nat): seq<seq<nat>> {
    if |cs| > cap + 1 then cs[..cap + 1] else cs
  }

  lemma {:induction false} CapOnce(a: seq<seq<nat>>, b: seq<seq<nat>>, c: seq<seq<nat>>, cap: nat)
    requires a == Capped(b, cap)
    ensures Capped(a + c, cap) == Capped(b + c, cap)
    ensures |a| > cap ==> Capped(b + c, cap) == a
  {
  }

  // ---- the walk -------------------------------------------------------------------

  class Walker {
    const sub: Successors
    const w: Weights
    const n: nat
    const cap: nat
    var path: seq<nat>
    var onpath: set<nat>
    var best: (nat, nat)
    var walked: nat
    /** The cycles walked so far. */
    ghost var log: seq<seq<nat>>

    ghost predicate Valid()
      reads this
    {
      && [] !in log && walked == |log| <= cap + 1 && best == Heaviest(w, log)
    }

    ghost predicate OnPath()
      reads this
    {
      path != [] && SimplePath(sub, n, path) && onpath == Elements(path)
    }

    constructor (sub: Successors, w: Weights, n: nat, cap: nat)
      ensures this.sub == sub && this.w == w && this.n == n && this.cap == cap
      ensures Valid() && log == []
    {
      this.sub, this.w, this.n, this.cap := sub, w, n, cap;
      path, onpath, best, walked, log := [], {}, (0, 0), 0, [];
    }

    /** Close the path into a cycle. */
    method Close(acc: nat)
      requires Valid() && OnPath() && walked <= cap && acc == PathWeight(w, path)
      modifies this`best, this`walked, this`log
      ensures Valid() && log == old(log) + [path]
    {
      walked := walked + 1;
      var tot := acc + WeightOf(w, path[|path| - 1], path[0]);
      if tot > best.0 {
        best := (tot, |path|);
      }
      log := log + [path];
      assert log[..|log| - 1] == old(log);
    }

    /** Go on from `u`, the end of the path, by `v`. */
    method Visit(u: nat, acc: nat, v: nat)
      requires Valid() && OnPath() && u == path[|path| - 1] && acc == PathWeight(w, path) && v < n && walked <= cap
      modifies this`path, this`onpath, this`best, this`walked, this`log
      ensures Valid() && OnPath() && path == old(path)
      ensures log == Capped(old(log) + CyclesVia(sub, n, path, v), cap)
      decreases n - |path|, 0
    {
      hide CyclesFrom, Heaviest, PathWeight, SimplePath;
      if u in sub && v in sub[u] {
        if v == path[0] {
          Close(acc);
        } else if v !in onpath && v > path[0] {
          ghost var p := path;
          ExtendedPath(sub, n, p, v);
          OneMore(w, p, v);
          onpath := onpath + {v};
          path := path + [v];
          Dfs(v, acc + WeightOf(w, u, v));
          path := path[..|path| - 1];
          onpath := onpath - {v};
          assert path == p;
        }
      }
    }

    /** Walk every cycle that extends the path, until more than `cap` have been walked. */
    method Dfs(u: nat, acc: nat)
      requires Valid() && OnPath() && u == path[|path| - 1] && acc == PathWeight(w, path)
      modifies this`path, this`onpath, this`best, this`walked, this`log
      ensures Valid() && OnPath() && path == old(path)
      ensures log == Capped(old(log) + CyclesFrom(sub, n, path, 0), cap)
      decreases n - |path|, 1
    {
      hide CyclesVia, CyclesFrom, Heaviest, PathWeight, SimplePath;
      if walked > cap {
        return;
      }
      ghost var all := Capped(log + CyclesFrom(sub, n, path, 0), cap);
      for v := 0 to n
        invariant Valid() && OnPath() && path == old(path) && walked <= cap
        invariant Capped(log + CyclesFrom(sub, n, path, v), cap) == all
      {
        FromStep(sub, n, path, v, log, cap);
        ghost var before := log;
        Visit(u, acc, v);
        CapOnce(log, before + CyclesVia(sub, n, path, v), CyclesFrom(sub, n, path, v + 1), cap);
        if walked > cap {
          return;
        }
      }
      FromEnd(sub, n, path);
      assert log + [] == log;
    }
  }

  lemma {:induction false} FromStep(sub: Successors, n: nat, p: seq<nat>, v: nat, log: seq<seq<nat>>, cap: nat)
    requires SimplePath(sub, n, p) && v < n
    ensures log + CyclesFrom(sub, n, p, v) == log + CyclesVia(sub, n, p, v) + CyclesFrom(sub, n, p, v + 1)
  {
  }

  lemma {:induction false} FromEnd(sub: Successors, n: nat, p: seq<nat>)
    requires SimplePath(sub, n, p)
    ensures CyclesFrom(sub, n, p, n) == []
  {
  }

  lemma {:induction false} OneMore(w: Weights, p: seq<nat>, v: nat)
    requires p != []
    ensures PathWeight(w, p + [v]) == PathWeight(w, p) + WeightOf(w, p[|p| - 1], v)
    ensures Elements(p + [v]) == Elements(p) + {v}
  {
    assert (p + [v])[..|p|] == p;
  }

  lemma {:induction false} AboveStep(sub: Successors, n: nat, start: nat, log: seq<seq<nat>>)
    requires start < n
    ensures log + CyclesAbove(sub, n, start)
            == log + (if start in sub then (StartPath(sub, n, start); CyclesFrom(sub, n, [start], 0)) else [])
                        + CyclesAbove(sub, n, start + 1)
  {
  }

  /**
   How much the heaviest simple cycle weighs, how long it is, and how many cycles were looked at: all of them,
   each once, unless the count exceeds the cap.
   */
  method HeaviestRing(sub: Successors, w: Weights, n: nat, cap: nat) returns (best: (nat, nat), walked: nat)
    requires forall u | u in sub :: u < n
    ensures walked == |Capped(CyclesAbove(sub, n, 0), cap)|
    ensures [] !in CyclesAbove(sub, n, 0) && (walked <= cap ==> best == Heaviest(w, CyclesAbove(sub, n, 0)))
  {
    hide CyclesAbove, CyclesFrom, Heaviest, PathWeight;
    var walker := new Walker(sub, w, n, cap);
    assert [] + CyclesAbove(sub, n, 0) == CyclesAbove(sub, n, 0);
    for start := 0 to n
      invariant fresh(walker) && walker.sub == sub && walker.w == w && walker.n == n && walker.cap == cap
      invariant walker.Valid()
      invariant Capped(walker.log + CyclesAbove(sub, n, start), cap) == Capped(CyclesAbove(sub, n, 0), cap)
    {
      AboveStep(sub, n, start, walker.log);
      ghost var before := walker.log;
      if start in sub {
        walker.path := [start];
        walker.onpath := {start};
        StartPath(sub, n, start);
        PathWeightOne(w, start);
        walker.Dfs(start, 0);
        CapOnce(walker.log, before + CyclesFrom(sub, n, [start], 0), CyclesAbove(sub, n, start + 1), cap);
      } else {
        assert before + [] == before;
      }
    }
    AboveEnd(sub, n);
    assert walker.log + [] == walker.log;
    CyclesAboveExact(sub, n, 0);
    return walker.best, walker.walked;
  }

  lemma {:induction false} AboveEnd(sub: Successors, n: nat)
    ensures CyclesAbove(sub, n, n) == []
  {
  }

  lemma {:induction false} PathWeightOne(w: Weights, start: nat)
    ensures PathWeight(w, [start]) == 0 && Elements([start]) == {start}
  {
  }

  /** The list that the walk follows holds each simple cycle once, and its heaviest is as heavy as any. */
  lemma {:induction false} WalkIsExact(sub: Successors, w: Weights, n: nat)
    ensures var all := CyclesAbove(sub, n, 0);
            && (forall c :: c in all <==> IsCycle(sub, n, c)) && Distinct(all) && [] !in all
            && (forall c | IsCycle(sub, n, c) :: CycleWeight(w, c) <= Heaviest(w, all).0)
            && (Heaviest(w, all) == (0, 0)
                || exists c :: IsCycle(sub, n, c) && (CycleWeight(w, c), |c|) == Heaviest(w, all))
  {
    var all := CyclesAbove(sub, n, 0);
    CyclesAboveExact(sub, n, 0);
    assert [] !in all;
    HeaviestIsMax(w, all);
  }
}
