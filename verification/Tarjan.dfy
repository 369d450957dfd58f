/**
 Strongly connected components by an iterative depth-first search with an explicit
 work stack, as in bdc/slack.py.
 */
module Tarjan {
  import opened Graphs

  /** A work item: a node, and the neighbours its iterator has still to produce. */
  datatype Frame = Frame(node: nat, rest: seq<nat>)

  datatype Search = Search(
    index: map<nat, nat>,
    low: map<nat, nat>,
    onStack: set<nat>,
    stack: seq<nat>,
    counter: nat,
    work: seq<Frame>)

  /** `adj[v]` in iteration order, keeping only the nodes under consideration. */
  function Neighbours(adj: map<nat, seq<nat>>, nodes: set<nat>, v: nat): (r: seq<nat>)
    ensures forall w :: w in r <==> w in nodes && v in adj && w in adj[v]
  {
    if v in adj then Restrict(adj[v], nodes) else []
  }

  function Restrict(ws: seq<nat>, nodes: set<nat>): (r: seq<nat>)
    ensures forall w :: w in r <==> w in nodes && w in ws
  {
    if ws == [] then []
    else (if ws[0] in nodes then [ws[0]] else []) + Restrict(ws[1..], nodes)
  }

  /** The graph restricted to `nodes`: arcs with both ends inside. */
  ghost function Restricted(adj: map<nat, seq<nat>>, nodes: set<nat>): (g: Arcs)
    ensures forall v, w :: (v, w) in g <==> v in nodes && w in Neighbours(adj, nodes, v)
  {
    set v, w | v in nodes && w in nodes && w in Neighbours(adj, nodes, v) :: (v, w)
  }

  // ---- what the search maintains -------------------------------------------

  ghost function Ix(s: Search, x: nat): int {
    if x in s.index then s.index[x] else -1
  }

  ghost function Low(s: Search, x: nat): int {
    if x in s.low then s.low[x] else -1
  }

  ghost predicate Numbered(s: Search) {
    && s.onStack == Elements(s.stack)
    && s.onStack <= s.index.Keys
    && (forall i, j | 0 <= i < j < |s.stack| :: Ix(s, s.stack[i]) < Ix(s, s.stack[j]))
    && (forall x | x in s.index :: s.index[x] < s.counter)
  }

  /** The nodes on the work stack are a subsequence of the node stack that starts where it starts. */
  ghost predicate WorkOnStack(s: Search) {
    && (forall i | 0 <= i < |s.work| ::
          s.work[i].node in s.onStack && s.work[i].node in s.low
          && Low(s, s.work[i].node) <= Ix(s, s.work[i].node))
    && (forall i, j | 0 <= i < j < |s.work| :: Ix(s, s.work[i].node) < Ix(s, s.work[j].node))
    && (forall x | x in s.onStack :: s.work != [] && Ix(s, s.work[0].node) <= Ix(s, x))
  }

  ghost predicate IsOpen(s: Search, x: nat) {
    exists i :: 0 <= i < |s.work| && s.work[i].node == x
  }

  /** Every arc out of a visited node has been followed, or waits in that node's frame
      (or leads to a node that is `due` to be visited next). */
  ghost predicate Followed(s: Search, g: Arcs, due: set<nat>) {
    && (forall x, w | (x, w) in g && x in s.index && !IsOpen(s, x) :: w in s.index)
    && (forall i, w | 0 <= i < |s.work| && (s.work[i].node, w) in g ::
          w in s.index || w in s.work[i].rest || w in due)
  }

  /** The nodes whose component is complete. */
  ghost function Done(s: Search): set<nat> {
    s.index.Keys - s.onStack
  }

  /** No arc leads from a node whose component is complete to any other node. */
  ghost predicate DoneClosed(s: Search, g: Arcs) {
    Closed(g, Done(s))
  }

  /** An open node reaches everything stacked after it. */
  ghost predicate OpenReaches(s: Search, g: Arcs) {
    forall i, y | 0 <= i < |s.work| && y in s.onStack && Ix(s, s.work[i].node) <= Ix(s, y) ::
      Reaches(g, s.work[i].node, y)
  }

  /** Everything stacked reaches an open node stacked no later. */
  ghost predicate ReachesOpen(s: Search, g: Arcs) {
    forall y | y in s.onStack :: exists i :: ReachesBack(s, g, y, i)
  }

  ghost predicate ReachesBack(s: Search, g: Arcs, y: nat, i: nat) {
    i < |s.work| && Ix(s, s.work[i].node) <= Ix(s, y) && Reaches(g, y, s.work[i].node)
  }

  /** `low` of an open node is the number of a stack node it reaches. */
  ghost predicate LowReached(s: Search, g: Arcs) {
    forall i: nat | i < |s.work| :: HasLow(s, g, i)
  }

  ghost predicate HasLow(s: Search, g: Arcs, i: nat)
    requires i < |s.work|
  {
    exists y :: LowIs(s, g, i, y)
  }

  ghost predicate LowIs(s: Search, g: Arcs, i: nat, y: nat)
    requires i < |s.work|
  {
    y in s.onStack && Ix(s, y) == Low(s, s.work[i].node) && Reaches(g, s.work[i].node, y)
  }

  /** `x` was stacked while frame `i` was the topmost of the frames up to `i`. */
  ghost predicate InSegment(s: Search, i: nat, x: nat) {
    && i < |s.work|
    && Ix(s, s.work[i].node) <= Ix(s, x)
    && (i + 1 < |s.work| ==> Ix(s, x) < Ix(s, s.work[i + 1].node))
  }

  /** `low` of an open node bounds every followed arc from its segment back into the stack. */
  ghost predicate LowBounds(s: Search, g: Arcs) {
    forall i: nat, x, y | x in s.onStack && InSegment(s, i, x) && (x, y) in g && y in s.onStack
                          && (x == s.work[i].node ==> y !in s.work[i].rest) ::
      Low(s, s.work[i].node) <= Ix(s, y)
  }

  ghost predicate Inv(s: Search, g: Arcs) {
    && Numbered(s) && WorkOnStack(s) && Followed(s, g, {}) && DoneClosed(s, g)
    && OpenReaches(s, g) && ReachesOpen(s, g) && LowReached(s, g) && LowBounds(s, g)
  }

  // ---- numbering a new node --------------------------------------------------

  /** Number `w`, put it on both stacks. */
  function Visit(s: Search, w: nat, nbrs: seq<nat>): Search {
    s.(index := s.index[w := s.counter], low := s.low[w := s.counter], counter := s.counter + 1,
       stack := s.stack + [w], onStack := s.onStack + {w}, work := s.work + [Frame(w, nbrs)])
  }

  lemma {:induction false} VisitNumbered(s: Search, w: nat, nbrs: seq<nat>)
    requires Numbered(s) && w !in s.index
    ensures Numbered(Visit(s, w, nbrs))
  {
    var t, m := Visit(s, w, nbrs), |s.stack|;
    forall i, j | 0 <= i < j < |t.stack| ensures Ix(t, t.stack[i]) < Ix(t, t.stack[j]) {
      assert t.stack[i] == s.stack[i] && s.stack[i] in s.onStack;
      if j < m {
        assert t.stack[j] == s.stack[j] && s.stack[j] in s.onStack;
      }
    }
    assert t.stack[m] == w;
  }

  lemma {:induction false} VisitWork(s: Search, w: nat, nbrs: seq<nat>)
    requires Numbered(s) && WorkOnStack(s) && w !in s.index
    ensures WorkOnStack(Visit(s, w, nbrs))
  {
    var t := Visit(s, w, nbrs);
    assert forall x | x in s.onStack :: Ix(t, x) == Ix(s, x) < s.counter;
    hide Numbered;
  }

  lemma {:induction false} VisitFollowed(s: Search, g: Arcs, w: nat, nbrs: seq<nat>)
    requires Numbered(s) && WorkOnStack(s) && Followed(s, g, {w}) && DoneClosed(s, g) && w !in s.index
    requires forall x :: (w, x) in g ==> x in nbrs
    ensures Followed(Visit(s, w, nbrs), g, {}) && DoneClosed(Visit(s, w, nbrs), g)
  {
    var t := Visit(s, w, nbrs);
    assert Done(t) == Done(s);
    assert forall i | 0 <= i < |s.work| :: t.work[i] == s.work[i];
    forall x, y | (x, y) in g && x in t.index && !IsOpen(t, x) ensures y in t.index {
      assert t.work[|s.work|].node == w;
      assert !IsOpen(s, x);
    }
  }

  lemma {:induction false} VisitOpenReaches(s: Search, g: Arcs, w: nat, nbrs: seq<nat>)
    requires Numbered(s) && WorkOnStack(s) && w !in s.index && OpenReaches(s, g)
    requires s.work != [] ==> (s.work[|s.work| - 1].node, w) in g
    ensures OpenReaches(Visit(s, w, nbrs), g)
  {
    var t, n := Visit(s, w, nbrs), |s.work|;
    forall i, y | 0 <= i < |t.work| && y in t.onStack && Ix(t, t.work[i].node) <= Ix(t, y)
      ensures Reaches(g, t.work[i].node, y)
    {
      if y != w {
        assert i < n;
        assert Reaches(g, s.work[i].node, y);
      } else if i == n {
        ReachesSelf(g, w);
      } else {
        assert Ix(s, s.work[i].node) <= Ix(s, s.work[n - 1].node);
        ReachesArc(g, s.work[n - 1].node, w);
        ReachesTrans(g, s.work[i].node, s.work[n - 1].node, w);
      }
    }
  }

  lemma {:induction false} VisitReachesOpen(s: Search, g: Arcs, w: nat, nbrs: seq<nat>)
    requires Numbered(s) && WorkOnStack(s) && w !in s.index && ReachesOpen(s, g)
    ensures ReachesOpen(Visit(s, w, nbrs), g)
  {
    var t, n := Visit(s, w, nbrs), |s.work|;
    forall y | y in t.onStack ensures exists i :: ReachesBack(t, g, y, i) {
      if y == w {
        ReachesSelf(g, w);
        assert ReachesBack(t, g, y, n);
      } else {
        var i: nat :| ReachesBack(s, g, y, i);
        assert ReachesBack(t, g, y, i);
      }
    }
  }

  lemma {:induction false} VisitLowReached(s: Search, g: Arcs, w: nat, nbrs: seq<nat>)
    requires Numbered(s) && WorkOnStack(s) && w !in s.index && LowReached(s, g)
    ensures LowReached(Visit(s, w, nbrs), g)
  {
    var t, n := Visit(s, w, nbrs), |s.work|;
    forall i: nat | i < |t.work| ensures HasLow(t, g, i) {
      if i == n {
        ReachesSelf(g, w);
        assert LowIs(t, g, i, w);
      } else {
        assert HasLow(s, g, i);
        var y :| LowIs(s, g, i, y);
        assert LowIs(t, g, i, y);
      }
    }
  }

  lemma {:induction false} VisitLowBounds(s: Search, g: Arcs, w: nat, nbrs: seq<nat>)
    requires Numbered(s) && WorkOnStack(s) && w !in s.index
    requires forall x :: (w, x) in g ==> x in nbrs
    requires LowBounds(s, g)
    ensures LowBounds(Visit(s, w, nbrs), g)
  {
    var t := Visit(s, w, nbrs);
    VisitOld(s, w, nbrs);
    hide Numbered, WorkOnStack, InSegment;
    forall i: nat, x, y | x in t.onStack && InSegment(t, i, x) && (x, y) in g && y in t.onStack
                          && (x == t.work[i].node ==> y !in t.work[i].rest)
      ensures Low(t, t.work[i].node) <= Ix(t, y)
    {
      VisitBounds(s, g, w, nbrs, i, x, y);
    }
  }

  /** What was numbered and open before stays as it was. */
  lemma {:induction false} VisitOld(s: Search, w: nat, nbrs: seq<nat>)
    requires Numbered(s) && WorkOnStack(s) && w !in s.index
    ensures forall x | x in s.onStack :: Ix(Visit(s, w, nbrs), x) == Ix(s, x) < s.counter
    ensures forall i | 0 <= i < |s.work| ::
              && s.work[i].node in s.onStack && s.work[i].node != w
              && Low(Visit(s, w, nbrs), s.work[i].node) == Low(s, s.work[i].node) < s.counter
  {
  }

  lemma {:induction false} VisitBounds(s: Search, g: Arcs, w: nat, nbrs: seq<nat>, i: nat, x: nat, y: nat)
    requires LowBounds(s, g) && w !in s.index && (forall z :: (w, z) in g ==> z in nbrs)
    requires forall z | z in s.onStack :: Ix(Visit(s, w, nbrs), z) == Ix(s, z) < s.counter
    requires forall j | 0 <= j < |s.work| ::
               && s.work[j].node in s.onStack && s.work[j].node != w
               && Low(Visit(s, w, nbrs), s.work[j].node) == Low(s, s.work[j].node) < s.counter
    requires var t := Visit(s, w, nbrs);
             x in t.onStack && InSegment(t, i, x) && (x, y) in g && y in t.onStack
               && (x == t.work[i].node ==> y !in t.work[i].rest)
    ensures var t := Visit(s, w, nbrs); Low(t, t.work[i].node) <= Ix(t, y)
  {
    var t, n := Visit(s, w, nbrs), |s.work|;
    assert Ix(t, w) == s.counter;
    if i < n {
      assert t.work[i] == s.work[i];
      if y != w {
        assert i + 1 < n ==> t.work[i + 1] == s.work[i + 1];
        assert x in s.onStack && InSegment(s, i, x);
      }
    }
  }

  // ---- taking the next neighbour ---------------------------------------------

  /** Take the next neighbour off the top frame's iterator. */
  function Advance(s: Search): Search
    requires s.work != [] && s.work[|s.work| - 1].rest != []
  {
    var top := s.work[|s.work| - 1];
    s.(work := s.work[|s.work| - 1 := top.(rest := top.rest[1..])])
  }

  /** `low` of `v` drops to `n` if that is lower. */
  function Lower(s: Search, v: nat, n: nat): Search
    requires v in s.low
  {
    s.(low := s.low[v := if n < s.low[v] then n else s.low[v]])
  }

  lemma {:induction false} AdvanceKeepsReach(s: Search, g: Arcs)
    requires s.work != [] && s.work[|s.work| - 1].rest != []
    requires OpenReaches(s, g) && ReachesOpen(s, g) && LowReached(s, g)
    ensures var t := Advance(s); OpenReaches(t, g) && ReachesOpen(t, g) && LowReached(t, g)
  {
    var t := Advance(s);
    assert forall i | 0 <= i < |s.work| :: t.work[i].node == s.work[i].node;
    assert forall x :: Ix(t, x) == Ix(s, x) && Low(t, x) == Low(s, x);
    forall y | y in t.onStack ensures exists i :: ReachesBack(t, g, y, i) {
      var i: nat :| ReachesBack(s, g, y, i);
      assert ReachesBack(t, g, y, i);
    }
    forall i: nat | i < |t.work| ensures HasLow(t, g, i) {
      assert HasLow(s, g, i);
      var y :| LowIs(s, g, i, y);
      assert LowIs(t, g, i, y);
    }
  }

  lemma {:induction false} AdvanceKeepsOrder(s: Search, g: Arcs)
    requires s.work != [] && s.work[|s.work| - 1].rest != []
    requires Numbered(s) && WorkOnStack(s) && DoneClosed(s, g)
    ensures var t := Advance(s); Numbered(t) && WorkOnStack(t) && DoneClosed(t, g)
  {
    var t := Advance(s);
    assert forall i | 0 <= i < |s.work| :: t.work[i].node == s.work[i].node;
    assert forall x :: Ix(t, x) == Ix(s, x) && Low(t, x) == Low(s, x);
  }

  lemma {:induction false} AdvanceFollowed(s: Search, g: Arcs)
    requires s.work != [] && s.work[|s.work| - 1].rest != []
    requires Followed(s, g, {})
    ensures Followed(Advance(s), g, {s.work[|s.work| - 1].rest[0]})
  {
    var t, n := Advance(s), |s.work| - 1;
    assert forall i | 0 <= i < |s.work| :: t.work[i].node == s.work[i].node;
    assert s.work[n].rest == [s.work[n].rest[0]] + t.work[n].rest;
    assert forall x | IsOpen(s, x) :: IsOpen(t, x) by {
      forall x | IsOpen(s, x) ensures IsOpen(t, x) {
        var i :| 0 <= i < |s.work| && s.work[i].node == x;
        assert t.work[i].node == x;
      }
    }
  }

  lemma {:induction false} AdvanceLowBounds(s: Search, g: Arcs)
    requires s.work != [] && s.work[|s.work| - 1].rest != []
    requires LowBounds(s, g)
    requires var w := s.work[|s.work| - 1].rest[0];
      w in s.onStack ==> Low(s, s.work[|s.work| - 1].node) <= Ix(s, w)
    ensures LowBounds(Advance(s), g)
  {
    var t, n := Advance(s), |s.work| - 1;
    assert forall i | 0 <= i < |s.work| :: t.work[i].node == s.work[i].node;
    assert s.work[n].rest == [s.work[n].rest[0]] + t.work[n].rest;
    forall i: nat, x, y | x in t.onStack && InSegment(t, i, x) && (x, y) in g && y in t.onStack
                          && (x == t.work[i].node ==> y !in t.work[i].rest)
      ensures Low(t, t.work[i].node) <= Ix(t, y)
    {
      assert InSegment(s, i, x);
      assert Low(t, t.work[i].node) == Low(s, s.work[i].node) && Ix(t, y) == Ix(s, y);
    }
  }

  lemma {:induction false} LowerKeepsOrder(s: Search, g: Arcs, y: nat)
    requires Numbered(s) && WorkOnStack(s) && DoneClosed(s, g) && s.work != [] && y in s.onStack
    ensures var t := Lower(s, s.work[|s.work| - 1].node, s.index[y]);
      Numbered(t) && WorkOnStack(t) && DoneClosed(t, g)
  {
    var t := Lower(s, s.work[|s.work| - 1].node, s.index[y]);
    assert forall x :: Ix(t, x) == Ix(s, x);
    assert forall x :: Low(t, x) <= Low(s, x);
  }

  lemma {:induction false} LowerKeepsReach(s: Search, g: Arcs, v: nat, n: nat)
    requires Followed(s, g, {}) && OpenReaches(s, g) && ReachesOpen(s, g) && v in s.low
    ensures var t := Lower(s, v, n); Followed(t, g, {}) && OpenReaches(t, g) && ReachesOpen(t, g)
  {
    var t := Lower(s, v, n);
    assert forall x :: Ix(t, x) == Ix(s, x);
    assert forall x :: IsOpen(t, x) == IsOpen(s, x);
    forall y | y in t.onStack ensures exists i :: ReachesBack(t, g, y, i) {
      var i: nat :| ReachesBack(s, g, y, i);
      assert ReachesBack(t, g, y, i);
    }
  }

  lemma {:induction false} LowerLowReached(s: Search, g: Arcs, y: nat)
    requires Numbered(s) && WorkOnStack(s) && LowReached(s, g)
    requires s.work != [] && y in s.onStack && Reaches(g, s.work[|s.work| - 1].node, y)
    ensures LowReached(Lower(s, s.work[|s.work| - 1].node, s.index[y]), g)
  {
    var n := |s.work| - 1;
    var v := s.work[n].node;
    var t := Lower(s, v, s.index[y]);
    forall i: nat | i < |t.work| ensures HasLow(t, g, i) {
      assert HasLow(s, g, i);
      var z :| LowIs(s, g, i, z);
      assert LowIs(t, g, i, if i == n && s.index[y] < s.low[v] then y else z);
    }
  }

  lemma {:induction false} LowerLowBounds(s: Search, g: Arcs, v: nat, n: nat)
    requires LowBounds(s, g) && v in s.low
    ensures LowBounds(Lower(s, v, n), g)
  {
    var t := Lower(s, v, n);
    assert forall x :: Low(t, x) <= Low(s, x);
    forall i: nat, x, z | x in t.onStack && InSegment(t, i, x) && (x, z) in g && z in t.onStack
                          && (x == t.work[i].node ==> z !in t.work[i].rest)
      ensures Low(t, t.work[i].node) <= Ix(t, z)
    {
      assert InSegment(s, i, x);
    }
  }

  /** Lowering `low` of the top node to the number of a stack node it reaches keeps every invariant. */
  lemma {:induction false} LowerKeeps(s: Search, g: Arcs, y: nat)
    requires Inv(s, g) && s.work != []
    requires y in s.onStack && Reaches(g, s.work[|s.work| - 1].node, y)
    ensures Inv(Lower(s, s.work[|s.work| - 1].node, s.index[y]), g)
  {
    var v := s.work[|s.work| - 1].node;
    LowerKeepsOrder(s, g, y);
    LowerKeepsReach(s, g, v, s.index[y]);
    LowerLowReached(s, g, y);
    LowerLowBounds(s, g, v, s.index[y]);
  }

  // ---- following one arc -------------------------------------------------------

  /** The neighbour `w` is new: it becomes the top of both stacks. */
  lemma {:induction false} DescendInv(s: Search, g: Arcs, nbrs: seq<nat>)
    requires Inv(s, g) && s.work != [] && s.work[|s.work| - 1].rest != []
    requires var w := s.work[|s.work| - 1].rest[0];
      w !in s.index && (s.work[|s.work| - 1].node, w) in g && forall x :: (w, x) in g ==> x in nbrs
    ensures Inv(Visit(Advance(s), s.work[|s.work| - 1].rest[0], nbrs), g)
  {
    hide Inv, VisitDue, Visit, Advance;
    AdvanceTop(s);
    AdvanceDue(s, g);
    VisitInv(Advance(s), g, s.work[|s.work| - 1].rest[0], nbrs);
  }

  lemma {:induction false} AdvanceTop(s: Search)
    requires s.work != [] && s.work[|s.work| - 1].rest != []
    ensures Advance(s).index == s.index && |Advance(s).work| == |s.work|
    ensures Advance(s).work[|s.work| - 1].node == s.work[|s.work| - 1].node
  {
  }

  /** The invariants, with `w` the one neighbour taken off its iterator and not yet followed. */
  ghost predicate VisitDue(s: Search, g: Arcs, w: nat) {
    && Numbered(s) && WorkOnStack(s) && Followed(s, g, {w}) && DoneClosed(s, g)
    && OpenReaches(s, g) && ReachesOpen(s, g) && LowReached(s, g) && LowBounds(s, g)
  }

  lemma {:induction false} AdvanceDue(s: Search, g: Arcs)
    requires Inv(s, g) && s.work != [] && s.work[|s.work| - 1].rest != [] && s.work[|s.work| - 1].rest[0] !in s.index
    ensures VisitDue(Advance(s), g, s.work[|s.work| - 1].rest[0])
  {
    assert s.work[|s.work| - 1].rest[0] !in s.onStack by {
      hide WorkOnStack, Followed, DoneClosed, OpenReaches, ReachesOpen, LowReached, LowBounds;
    }
    hide Numbered, WorkOnStack, Followed, DoneClosed, OpenReaches, ReachesOpen, LowReached, LowBounds, Advance;
    AdvanceKeepsOrder(s, g);
    AdvanceKeepsReach(s, g);
    AdvanceFollowed(s, g);
    AdvanceLowBounds(s, g);
  }

  /** A new node, due to be visited from the top frame, may be numbered. */
  lemma {:induction false} VisitInv(s: Search, g: Arcs, w: nat, nbrs: seq<nat>)
    requires VisitDue(s, g, w)
    requires w !in s.index && (s.work != [] ==> (s.work[|s.work| - 1].node, w) in g)
    requires forall x :: (w, x) in g ==> x in nbrs
    ensures Inv(Visit(s, w, nbrs), g)
  {
    hide Numbered, WorkOnStack, Followed, DoneClosed, OpenReaches, ReachesOpen, LowReached, LowBounds, Visit;
    VisitNumbered(s, w, nbrs);
    VisitWork(s, w, nbrs);
    VisitOpenReaches(s, g, w, nbrs);
    VisitReachesOpen(s, g, w, nbrs);
    VisitLowReached(s, g, w, nbrs);
    VisitLowBounds(s, g, w, nbrs);
    VisitFollowed(s, g, w, nbrs);
  }

  // ---- leaving a node whose neighbours are exhausted -------------------------

  /** Pop the top work item and hand its `low` down to its parent. */
  function Retreat(s: Search): Search
    requires s.work != [] && s.work[|s.work| - 1].node in s.low
    requires |s.work| > 1 ==> s.work[|s.work| - 2].node in s.low
  {
    var n := |s.work| - 1;
    var t := s.(work := s.work[..n]);
    if n == 0 then t else Lower(t, s.work[n - 1].node, s.low[s.work[n].node])
  }

  lemma {:induction false} RetreatOrder(s: Search, g: Arcs)
    requires Numbered(s) && WorkOnStack(s) && DoneClosed(s, g) && |s.work| > 1
    ensures Numbered(Retreat(s)) && WorkOnStack(Retreat(s)) && DoneClosed(Retreat(s), g)
  {
    var t := Retreat(s);
    assert forall x :: Ix(t, x) == Ix(s, x);
    assert forall x :: Low(t, x) <= Low(s, x);
  }

  lemma {:induction false} RetreatFollowed(s: Search, g: Arcs)
    requires Numbered(s) && WorkOnStack(s) && Followed(s, g, {}) && s.work != [] && s.work[|s.work| - 1].rest == []
    ensures Followed(Retreat(s), g, {})
  {
    var t, n := Retreat(s), |s.work| - 1;
    forall x, w | (x, w) in g && x in t.index && !IsOpen(t, x) ensures w in t.index {
      assert forall i | 0 <= i < n :: t.work[i] == s.work[i] && t.work[i].node != x;
    }
  }

  lemma {:induction false} RetreatOpenReaches(s: Search, g: Arcs)
    requires Numbered(s) && WorkOnStack(s) && OpenReaches(s, g) && s.work != []
    ensures OpenReaches(Retreat(s), g)
  {
    var t := Retreat(s);
    assert forall x :: Ix(t, x) == Ix(s, x);
    assert forall i | 0 <= i < |t.work| :: t.work[i] == s.work[i];
  }

  /** When the top node's `low` is below its number, it reaches a frame further down. */
  lemma {:induction false} TopReachesBelow(s: Search, g: Arcs) returns (j: nat)
    requires Numbered(s) && WorkOnStack(s) && ReachesOpen(s, g) && LowReached(s, g) && |s.work| > 1
    requires Low(s, s.work[|s.work| - 1].node) < Ix(s, s.work[|s.work| - 1].node)
    ensures j < |s.work| - 1 && Reaches(g, s.work[|s.work| - 1].node, s.work[j].node)
    ensures Ix(s, s.work[j].node) < Ix(s, s.work[|s.work| - 1].node)
  {
    var n := |s.work| - 1;
    assert HasLow(s, g, n);
    var low :| LowIs(s, g, n, low);
    j :| ReachesBack(s, g, low, j);
    ReachesTrans(g, s.work[n].node, low, s.work[j].node);
  }

  lemma {:induction false} RetreatReachesOpen(s: Search, g: Arcs, j: nat)
    requires ReachesOpen(s, g) && |s.work| > 1
    requires s.work[|s.work| - 1].node in s.low && s.work[|s.work| - 2].node in s.low
    requires j < |s.work| - 1 && Reaches(g, s.work[|s.work| - 1].node, s.work[j].node)
    requires Ix(s, s.work[j].node) < Ix(s, s.work[|s.work| - 1].node)
    ensures ReachesOpen(Retreat(s), g)
  {
    var t, n := Retreat(s), |s.work| - 1;
    assert forall x :: Ix(t, x) == Ix(s, x);
    assert forall i | 0 <= i < n :: t.work[i] == s.work[i];
    forall y | y in t.onStack ensures exists i :: ReachesBack(t, g, y, i) {
      var i: nat :| ReachesBack(s, g, y, i);
      if i == n {
        ReachesTrans(g, y, s.work[n].node, s.work[j].node);
      }
      assert ReachesBack(t, g, y, if i < n then i else j);
    }
  }

  lemma {:induction false} RetreatLowReached(s: Search, g: Arcs)
    requires WorkOnStack(s) && OpenReaches(s, g) && LowReached(s, g) && |s.work| > 1
    ensures LowReached(Retreat(s), g)
  {
    var t, n := Retreat(s), |s.work| - 1;
    assert Reaches(g, s.work[n - 1].node, s.work[n].node);
    hide OpenReaches, WorkOnStack;
    assert HasLow(s, g, n);
    var low :| LowIs(s, g, n, low);
    ReachesTrans(g, s.work[n - 1].node, s.work[n].node, low);
    assert forall x :: Ix(t, x) == Ix(s, x);
    forall i: nat | i < |t.work| ensures HasLow(t, g, i) {
      assert HasLow(s, g, i);
      var z :| LowIs(s, g, i, z);
      assert LowIs(t, g, i, z) || LowIs(t, g, i, low);
    }
  }

  /** When the top frame goes, its segment becomes part of the one below. */
  lemma {:induction false} RetreatLowBounds(s: Search, t: Search, g: Arcs)
    requires LowBounds(s, g) && |s.work| == |t.work| + 1 && t.work != [] && s.work[|t.work|].rest == []
    requires t.index == s.index && t.onStack == s.onStack
    requires forall i | 0 <= i < |t.work| :: t.work[i] == s.work[i]
    requires forall i | 0 <= i < |t.work| :: Low(t, t.work[i].node) <= Low(s, t.work[i].node)
    requires Low(t, t.work[|t.work| - 1].node) <= Low(s, s.work[|t.work|].node)
    ensures LowBounds(t, g)
  {
    var n := |t.work|;
    forall i: nat, x, z | x in t.onStack && InSegment(t, i, x) && (x, z) in g && z in t.onStack
                          && (x == t.work[i].node ==> z !in t.work[i].rest)
      ensures Low(t, t.work[i].node) <= Ix(t, z)
    {
      var j := if i == n - 1 && Ix(s, s.work[n].node) <= Ix(s, x) then n else i;
      assert InSegment(s, j, x);
      LowBound(s, g, j, x, z);
    }
  }

  lemma {:induction false} LowBound(s: Search, g: Arcs, i: nat, x: nat, y: nat)
    requires LowBounds(s, g) && x in s.onStack && InSegment(s, i, x) && (x, y) in g && y in s.onStack
    requires x == s.work[i].node ==> y !in s.work[i].rest
    ensures Low(s, s.work[i].node) <= Ix(s, y)
  {
  }

  /** The top node is finished but reaches below itself: its segment joins its parent's. */
  lemma {:induction false} RetreatInv(s: Search, g: Arcs)
    requires Inv(s, g) && |s.work| > 1 && s.work[|s.work| - 1].rest == []
    requires Low(s, s.work[|s.work| - 1].node) < Ix(s, s.work[|s.work| - 1].node)
    ensures Inv(Retreat(s), g)
  {
    hide Numbered, Followed, DoneClosed, OpenReaches, ReachesOpen, LowReached, LowBounds;
    RetreatOrder(s, g);
    RetreatFollowed(s, g);
    RetreatOpenReaches(s, g);
    var j := TopReachesBelow(s, g);
    RetreatReachesOpen(s, g, j);
    RetreatLowReached(s, g);
    RetreatLowBounds(s, Retreat(s), g);
  }

  // ---- closing a component ------------------------------------------------------

  /** `c` lists, without repetition, the nodes mutually reachable with any one of its members. */
  ghost predicate IsComponent(g: Arcs, c: seq<nat>) {
    && c != []
    && (forall i, j | 0 <= i < j < |c| :: c[i] != c[j])
    && (forall x, y | x in c && y in c :: Reaches(g, x, y))
    && (forall x, y | x in c && Reaches(g, x, y) && Reaches(g, y, x) :: y in c)
  }

  /** Drop the node stack back to height `k`. */
  function Cut(s: Search, k: nat): Search
    requires k <= |s.stack|
  {
    s.(stack := s.stack[..k], onStack := s.onStack - Elements(s.stack[k..]))
  }

  /** The finished top node's `low` is its own number, and it sits at height `k` of the stack. */
  ghost predicate AtRoot(s: Search, k: nat) {
    && s.work != [] && k < |s.stack|
    && var top := s.work[|s.work| - 1];
       top.rest == [] && top.node == s.stack[k] && Low(s, top.node) == Ix(s, top.node)
  }

  lemma {:induction false} AboveRoot(s: Search, k: nat, x: nat)
    requires Numbered(s) && k < |s.stack|
    ensures x in s.stack[k..] <==> x in s.onStack && Ix(s, s.stack[k]) <= Ix(s, x)
  {
    if x in s.stack[k..] {
      var i :| 0 <= i < |s.stack[k..]| && s.stack[k..][i] == x;
      assert s.stack[k + i] == x;
    }
    if x in s.onStack && Ix(s, s.stack[k]) <= Ix(s, x) {
      var i :| 0 <= i < |s.stack| && s.stack[i] == x;
      assert k <= i;
      assert s.stack[k..][i - k] == x;
    }
  }

  lemma {:induction false} RootClosed(s: Search, g: Arcs, k: nat)
    requires Numbered(s) && WorkOnStack(s) && Followed(s, g, {}) && DoneClosed(s, g) && LowBounds(s, g) && AtRoot(s, k)
    ensures DoneClosed(Cut(s, k), g)
  {
    var t := Cut(s, k);
    forall x, y | (x, y) in g && x in Done(t) ensures y in Done(t) {
      AboveRoot(s, k, x);
      AboveRoot(s, k, y);
      if x in s.onStack {
        RootBounds(s, g, k, x, y);
      }
    }
  }

  /** From the root's segment no arc leads to an earlier stack node. */
  lemma {:induction false} RootBounds(s: Search, g: Arcs, k: nat, x: nat, y: nat)
    requires WorkOnStack(s) && Followed(s, g, {}) && LowBounds(s, g) && AtRoot(s, k)
    requires x in s.onStack && s.onStack <= s.index.Keys && Ix(s, s.stack[k]) <= Ix(s, x) && (x, y) in g
    ensures y in s.index && (y in s.onStack ==> Ix(s, s.stack[k]) <= Ix(s, y))
  {
    var n := |s.work| - 1;
    assert InSegment(s, n, x);
    if IsOpen(s, x) {
      var i :| 0 <= i < |s.work| && s.work[i].node == x;
      assert i == n;
    }
    assert y in s.index;
  }

  /** Everything stacked from the root upwards reaches the root. */
  lemma {:induction false} ReachesRoot(s: Search, g: Arcs, k: nat, x: nat)
    requires Numbered(s) && WorkOnStack(s) && OpenReaches(s, g) && ReachesOpen(s, g)
    requires AtRoot(s, k) && DoneClosed(Cut(s, k), g) && x in s.stack[k..]
    ensures Reaches(g, s.stack[k], x) && Reaches(g, x, s.stack[k])
  {
    var t, n := Cut(s, k), |s.work| - 1;
    AboveRoot(s, k, x);
    var i: nat :| ReachesBack(s, g, x, i);
    ReachesStaysInside(g, Done(t), x, s.work[i].node);
    AboveRoot(s, k, s.work[i].node);
    assert i == n;
  }

  /** The stack from the root upwards is one strongly connected component. */
  lemma {:induction false} RootComponent(s: Search, g: Arcs, k: nat)
    requires Numbered(s) && WorkOnStack(s) && DoneClosed(s, g) && OpenReaches(s, g) && ReachesOpen(s, g)
    requires AtRoot(s, k) && DoneClosed(Cut(s, k), g)
    ensures IsComponent(g, s.stack[k..])
  {
    hide OpenReaches, ReachesOpen, WorkOnStack;
    var v, c := s.stack[k], s.stack[k..];
    assert c[0] == v;
    forall x, y | x in c && y in c ensures Reaches(g, x, y) {
      ReachesRoot(s, g, k, x);
      ReachesRoot(s, g, k, y);
      ReachesTrans(g, x, v, y);
    }
    forall x, y | x in c && Reaches(g, x, y) && Reaches(g, y, x) ensures y in c {
      RootIsMaximal(s, g, k, x, y);
    }
    RootDistinct(s, k);
  }

  lemma {:induction false} RootDistinct(s: Search, k: nat)
    requires Numbered(s) && k <= |s.stack|
    ensures var c := s.stack[k..]; forall i, j | 0 <= i < j < |c| :: c[i] != c[j]
  {
    var c := s.stack[k..];
    forall i, j | 0 <= i < j < |c| ensures c[i] != c[j] {
      assert Ix(s, s.stack[k + i]) < Ix(s, s.stack[k + j]);
    }
  }

  lemma {:induction false} RootIsMaximal(s: Search, g: Arcs, k: nat, x: nat, y: nat)
    requires Numbered(s) && k < |s.stack| && DoneClosed(s, g) && DoneClosed(Cut(s, k), g)
    requires x in s.stack[k..] && Reaches(g, x, y) && Reaches(g, y, x)
    ensures y in s.stack[k..]
  {
    var t := Cut(s, k);
    AboveRoot(s, k, x);
    ReachesStaysInside(g, Done(t), x, y);
    if y !in s.stack[k..] {
      ReachesStaysInside(g, Done(s), y, x);
    }
  }

  /** What is left on the stack once the component is closed. */
  lemma {:induction false} CutStack(s: Search, k: nat)
    requires Numbered(s) && k < |s.stack|
    ensures Numbered(Cut(s, k))
    ensures Cut(s, k).onStack == (set x | x in s.onStack && Ix(s, x) < Ix(s, s.stack[k]))
  {
    var t := Cut(s, k);
    forall x {
      AboveRoot(s, k, x);
    }
    forall x | x in t.onStack ensures x in t.stack {
      var i :| 0 <= i < |s.stack| && s.stack[i] == x;
      assert s.stack[k] in s.onStack;
      assert i < k;
    }
    assert t.onStack == Elements(t.stack);
    assert forall x :: Ix(t, x) == Ix(s, x);
  }

  /** Closing changes no number, and no `low` either: a root's is above its parent's. */
  lemma {:induction false} CloseNumbers(s: Search, k: nat)
    requires WorkOnStack(s) && AtRoot(s, k) && k <= |s.stack|
    ensures forall x :: Ix(Cut(Retreat(s), k), x) == Ix(s, x) && Low(Cut(Retreat(s), k), x) == Low(s, x)
  {
    var t, n := Cut(Retreat(s), k), |s.work| - 1;
    if n > 0 {
      assert Low(s, s.work[n - 1].node) <= Ix(s, s.work[n - 1].node) < Ix(s, s.work[n].node);
    }
    assert forall x :: Ix(t, x) == Ix(s, x);
  }

  lemma {:induction false} CloseOrder(s: Search, k: nat)
    requires Numbered(s) && WorkOnStack(s) && AtRoot(s, k)
    ensures Numbered(Cut(Retreat(s), k)) && WorkOnStack(Cut(Retreat(s), k))
    ensures Cut(Retreat(s), k).onStack == (set x | x in s.onStack && Ix(s, x) < Ix(s, s.stack[k]))
  {
    RetreatNumbered(s);
    CutStack(Retreat(s), k);
    CloseNumbers(s, k);
    hide Numbered, WorkOnStack;
    assert s.work[|s.work| - 1].node == s.stack[k];
    CloseWork(s, Cut(Retreat(s), k));
  }

  lemma {:induction false} RetreatNumbered(s: Search)
    requires Numbered(s) && WorkOnStack(s) && s.work != []
    ensures Numbered(Retreat(s)) && Retreat(s).stack == s.stack && Retreat(s).onStack == s.onStack
    ensures forall x :: Ix(Retreat(s), x) == Ix(s, x)
  {
    RetreatIndex(s);
    hide WorkOnStack;
  }

  lemma {:induction false} RetreatIndex(s: Search)
    requires s.work != [] && s.work[|s.work| - 1].node in s.low && (|s.work| > 1 ==> s.work[|s.work| - 2].node in s.low)
    ensures forall x :: Ix(Retreat(s), x) == Ix(s, x)
  {
  }

  lemma {:induction false} CloseWork(s: Search, t: Search)
    requires WorkOnStack(s) && |s.work| == |t.work| + 1
    requires forall x :: Ix(t, x) == Ix(s, x) && Low(t, x) == Low(s, x)
    requires t.low.Keys == s.low.Keys && forall i | 0 <= i < |t.work| :: t.work[i] == s.work[i]
    requires t.onStack == (set x | x in s.onStack && Ix(s, x) < Ix(s, s.work[|t.work|].node))
    ensures WorkOnStack(t)
  {
  }

  lemma {:induction false} CloseFollowed(s: Search, g: Arcs, k: nat)
    requires WorkOnStack(s) && Followed(s, g, {}) && AtRoot(s, k)
    ensures Followed(Cut(Retreat(s), k), g, {})
  {
    var t, n := Cut(Retreat(s), k), |s.work| - 1;
    forall x, w | (x, w) in g && x in t.index && !IsOpen(t, x) ensures w in t.index {
      assert forall i | 0 <= i < n :: t.work[i] == s.work[i] && t.work[i].node != x;
    }
  }

  lemma {:induction false} CloseOpenReaches(s: Search, g: Arcs, k: nat)
    requires WorkOnStack(s) && OpenReaches(s, g) && AtRoot(s, k)
    ensures OpenReaches(Cut(Retreat(s), k), g)
  {
    var t, n := Cut(Retreat(s), k), |s.work| - 1;
    assert forall x :: Ix(t, x) == Ix(s, x);
    assert forall i | 0 <= i < n :: t.work[i] == s.work[i];
  }

  /** Stack nodes numbered below the top frame's reach an open node other than it. */
  lemma {:induction false} CloseReachesOpen(s: Search, t: Search, g: Arcs)
    requires ReachesOpen(s, g) && |s.work| == |t.work| + 1 && t.index == s.index
    requires forall i | 0 <= i < |t.work| :: t.work[i] == s.work[i]
    requires forall y | y in t.onStack :: y in s.onStack && Ix(s, y) < Ix(s, s.work[|t.work|].node)
    ensures ReachesOpen(t, g)
  {
    assert forall x :: Ix(t, x) == Ix(s, x);
    forall y | y in t.onStack ensures exists i :: ReachesBack(t, g, y, i) {
      var i: nat :| ReachesBack(s, g, y, i);
      assert ReachesBack(t, g, y, i);
    }
  }

  lemma {:induction false} CloseLowReached(s: Search, t: Search, g: Arcs)
    requires WorkOnStack(s) && LowReached(s, g) && |s.work| == |t.work| + 1
    requires forall x :: Ix(t, x) == Ix(s, x) && Low(t, x) == Low(s, x)
    requires forall i | 0 <= i < |t.work| :: t.work[i] == s.work[i]
    requires t.onStack == (set x | x in s.onStack && Ix(s, x) < Ix(s, s.work[|t.work|].node))
    ensures LowReached(t, g)
  {
    forall i: nat | i < |t.work| ensures HasLow(t, g, i) {
      assert HasLow(s, g, i);
      var y :| LowIs(s, g, i, y);
      assert LowIs(t, g, i, y);
    }
  }

  lemma {:induction false} CloseLowBounds(s: Search, t: Search, g: Arcs)
    requires LowBounds(s, g) && |s.work| == |t.work| + 1
    requires forall x :: Ix(t, x) == Ix(s, x) && Low(t, x) == Low(s, x)
    requires forall i | 0 <= i < |t.work| :: t.work[i] == s.work[i]
    requires t.onStack == (set x | x in s.onStack && Ix(s, x) < Ix(s, s.work[|t.work|].node))
    ensures LowBounds(t, g)
  {
    forall i: nat, x, z | x in t.onStack && InSegment(t, i, x) && (x, z) in g && z in t.onStack
                          && (x == t.work[i].node ==> z !in t.work[i].rest)
      ensures Low(t, t.work[i].node) <= Ix(t, z)
    {
      assert InSegment(s, i, x);
    }
  }

  /** The top node is the root of a component: what lies above it is that component, and may leave. */
  lemma {:induction false} CloseInv(s: Search, g: Arcs, k: nat)
    requires Inv(s, g) && AtRoot(s, k)
    ensures Inv(Cut(Retreat(s), k), g) && IsComponent(g, s.stack[k..])
  {
    hide Numbered, Followed, OpenReaches, ReachesOpen, LowReached, LowBounds;
    CloseOrder(s, k);
    CloseFollowed(s, g, k);
    RootClosed(s, g, k);
    RootComponent(s, g, k);
    CloseOpenReaches(s, g, k);
    CloseReachesOpen(s, Cut(Retreat(s), k), g);
    CloseNumbers(s, k);
    CloseLowReached(s, Cut(Retreat(s), k), g);
    CloseLowBounds(s, Cut(Retreat(s), k), g);
  }

  // ---- the search ------------------------------------------------------------

  /** What an iterator still holds are neighbours of its node. */
  ghost predicate RestFollows(s: Search, g: Arcs) {
    forall i, w | 0 <= i < |s.work| && w in s.work[i].rest :: (s.work[i].node, w) in g
  }

  /** `sccs` are components, no node is in two of them, and together they hold the nodes in `done`. */
  ghost predicate Found(sccs: seq<seq<nat>>, done: set<nat>, g: Arcs) {
    && (forall i | 0 <= i < |sccs| :: IsComponent(g, sccs[i]))
    && (forall i, j, x | 0 <= i < j < |sccs| && x in sccs[i] :: x !in sccs[j])
    && (forall i, x | 0 <= i < |sccs| && x in sccs[i] :: x in done)
    && (forall x | x in done :: exists i :: 0 <= i < |sccs| && x in sccs[i])
  }

  /** The top frame's node meets its neighbour `w`, numbered already. */
  function Meet(s: Search, w: nat): Search
    requires s.work != [] && s.work[|s.work| - 1].rest != [] && s.work[|s.work| - 1].node in s.low
    requires w in s.onStack ==> w in s.index
  {
    var v := s.work[|s.work| - 1].node;
    if w in s.onStack then Advance(Lower(s, v, s.index[w])) else Advance(s)
  }

  lemma {:induction false} MeetInv(s: Search, g: Arcs, w: nat)
    requires Inv(s, g) && RestFollows(s, g) && s.work != [] && s.work[|s.work| - 1].rest != []
    requires w == s.work[|s.work| - 1].rest[0] && w in s.index
    requires s.work[|s.work| - 1].node in s.low
    ensures Inv(Meet(s, w), g)
  {
    hide Numbered, WorkOnStack, Followed, DoneClosed, OpenReaches, ReachesOpen, LowReached, LowBounds;
    var v := s.work[|s.work| - 1].node;
    if w in s.onStack {
      ReachesArc(g, v, w);
      LowerKeeps(s, g, w);
      var l := Lower(s, v, s.index[w]);
      assert Low(l, v) <= Ix(l, w);
      AdvanceInv(l, g);
    } else {
      AdvanceInv(s, g);
    }
  }

  lemma {:induction false} AdvanceInv(s: Search, g: Arcs)
    requires Inv(s, g) && s.work != [] && s.work[|s.work| - 1].rest != []
    requires var w := s.work[|s.work| - 1].rest[0];
      w in s.index && (w in s.onStack ==> Low(s, s.work[|s.work| - 1].node) <= Ix(s, w))
    ensures Inv(Advance(s), g)
  {
    var w := s.work[|s.work| - 1].rest[0];
    AdvanceKeepsOrder(s, g);
    AdvanceKeepsReach(s, g);
    AdvanceFollowed(s, g);
    AdvanceLowBounds(s, g);
    DueVisited(Advance(s), g, w);
  }

  lemma {:induction false} DueVisited(s: Search, g: Arcs, w: nat)
    requires Followed(s, g, {w}) && w in s.index
    ensures Followed(s, g, {})
  {
  }

  // ---- the search, loop by loop --------------------------------------------------

  ghost predicate Searching(s: Search, adj: map<nat, seq<nat>>, nodes: set<nat>) {
    var g := Restricted(adj, nodes);
    Inv(s, g) && RestFollows(s, g) && s.index.Keys <= nodes
  }

  lemma {:induction false} OpenHasLow(s: Search, g: Arcs)
    requires Inv(s, g)
    ensures forall i | 0 <= i < |s.work| :: s.work[i].node in s.low && s.work[i].node in s.index
    ensures s.onStack <= s.index.Keys
  {
  }

  lemma {:induction false} DescendSearching(s: Search, adj: map<nat, seq<nat>>, nodes: set<nat>)
    requires Searching(s, adj, nodes) && s.work != [] && s.work[|s.work| - 1].rest != []
    requires s.work[|s.work| - 1].rest[0] !in s.index
    ensures var w := s.work[|s.work| - 1].rest[0];
      var t := Visit(Advance(s), w, Neighbours(adj, nodes, w));
      Searching(t, adj, nodes) && Done(t) == Done(s)
  {
    hide Inv, Neighbours;
    var g, w := Restricted(adj, nodes), s.work[|s.work| - 1].rest[0];
    assert (s.work[|s.work| - 1].node, w) in g;
    OpenHasLow(s, g);
    DescendInv(s, g, Neighbours(adj, nodes, w));
  }

  lemma {:induction false} MeetSearching(s: Search, adj: map<nat, seq<nat>>, nodes: set<nat>)
    requires Searching(s, adj, nodes) && s.work != [] && s.work[|s.work| - 1].rest != []
    requires s.work[|s.work| - 1].rest[0] in s.index
    ensures s.work[|s.work| - 1].node in s.low
    ensures Searching(Meet(s, s.work[|s.work| - 1].rest[0]), adj, nodes)
  {
    hide Inv, Neighbours;
    var g, w := Restricted(adj, nodes), s.work[|s.work| - 1].rest[0];
    OpenHasLow(s, g);
    MeetInv(s, g, w);
  }

  /** Run the top frame's iterator until it yields an unnumbered node, or is exhausted. */
  method Scan(s0: Search, adj: map<nat, seq<nat>>, nodes: set<nat>) returns (s: Search, advanced: bool)
    requires Searching(s0, adj, nodes) && s0.work != []
    ensures Searching(s, adj, nodes)
    ensures Done(s) == Done(s0) && s0.index.Keys <= s.index.Keys
    ensures advanced ==> |s.index| == |s0.index| + 1 && |s.work| == |s0.work| + 1
    ensures !advanced ==> s.index == s0.index && |s.work| == |s0.work| && s.work[|s.work| - 1].rest == []
  {
    hide Searching;
    s := s0;
    advanced := false;
    while s.work[|s.work| - 1].rest != []
      invariant Searching(s, adj, nodes) && |s.work| == |s0.work| && s.index == s0.index && s.onStack == s0.onStack
      decreases |s.work[|s.work| - 1].rest|
    {
      var w := s.work[|s.work| - 1].rest[0];
      if w !in s.index {
        DescendSearching(s, adj, nodes);
        s := Visit(Advance(s), w, Neighbours(adj, nodes, w));
        advanced := true;
        return;
      }
      MeetSearching(s, adj, nodes);
      s := Meet(s, w);
    }
  }

  lemma {:induction false} ComponentReversed(g: Arcs, c: seq<nat>, d: seq<nat>)
    requires IsComponent(g, c) && |d| == |c| && forall i | 0 <= i < |d| :: d[i] == c[|c| - 1 - i]
    ensures IsComponent(g, d) && forall x :: x in d <==> x in c
  {
    forall x ensures x in d <==> x in c {
      if x in c {
        var i :| 0 <= i < |c| && c[i] == x;
        assert d[|c| - 1 - i] == x;
      }
    }
    forall i, j | 0 <= i < j < |d| ensures d[i] != d[j] {
      assert c[|c| - 1 - j] != c[|c| - 1 - i];
    }
  }

  /** Where on the node stack `x` sits. */
  lemma {:induction false} OnStackAt(s: Search, x: nat) returns (k: nat)
    requires Numbered(s) && x in s.onStack
    ensures k < |s.stack| && s.stack[k] == x
  {
    assert x in Elements(s.stack);
    k :| 0 <= k < |s.stack| && s.stack[k] == x;
  }

  /** A finished top node is the root of its component, or its `low` shows it is not. */
  lemma {:induction false} Finished(s: Search, g: Arcs) returns (k: nat)
    requires Inv(s, g) && s.work != []
    ensures k < |s.stack| && s.stack[k] == s.work[|s.work| - 1].node
    ensures s.work[|s.work| - 1].node in s.low && s.work[|s.work| - 1].node in s.index
    ensures s.low[s.work[|s.work| - 1].node] <= s.index[s.work[|s.work| - 1].node]
    ensures |s.work| > 1 ==> s.work[|s.work| - 2].node in s.low
    ensures s.low[s.work[|s.work| - 1].node] < s.index[s.work[|s.work| - 1].node] ==> |s.work| > 1
  {
    hide Followed, DoneClosed, OpenReaches, ReachesOpen, LowBounds;
    var n := |s.work| - 1;
    k := OnStackAt(s, s.work[n].node);
    assert HasLow(s, g, n);
    var low :| LowIs(s, g, n, low);
  }

  /** Take the nodes above and including `v` off the stack; they are returned in the order popped. */
  method PopComponent(s0: Search, v: nat, ghost k: nat) returns (s: Search, comp: seq<nat>)
    requires k < |s0.stack| && s0.stack[k] == v && forall i | k < i < |s0.stack| :: s0.stack[i] != v
    ensures s == Cut(s0, k)
    ensures |comp| == |s0.stack| - k && forall i | 0 <= i < |comp| :: comp[i] == s0.stack[k..][|comp| - 1 - i]
  {
    s, comp := s0, [];
    while true
      invariant k < |s.stack| == |s0.stack| - |comp|
      invariant s == Cut(s0, |s.stack|)
      invariant forall i | 0 <= i < |comp| :: comp[i] == s0.stack[|s0.stack| - 1 - i]
      decreases |s.stack|
    {
      var m := |s.stack| - 1;
      var w := s.stack[m];
      assert s0.stack[m..] == [w] + s0.stack[m + 1..];
      s := s.(stack := s.stack[..m], onStack := s.onStack - {w});
      assert s.stack == s0.stack[..m];
      assert Elements(s0.stack[m..]) == Elements(s0.stack[m + 1..]) + {w};
      comp := comp + [w];
      if w == v {
        return;
      }
    }
  }

  /** Pop a finished node off the work stack; if it is the root of its component, pop the component. */
  method Leave(s0: Search, adj: map<nat, seq<nat>>, nodes: set<nat>) returns (s: Search, comp: seq<nat>)
    requires Searching(s0, adj, nodes) && s0.work != [] && s0.work[|s0.work| - 1].rest == []
    ensures Searching(s, adj, nodes) && s.index == s0.index && |s.work| == |s0.work| - 1
    ensures Done(s0) !! Elements(comp) && Done(s) == Done(s0) + Elements(comp)
    ensures if comp == [] then Done(s) == Done(s0) else IsComponent(Restricted(adj, nodes), comp)
  {
    hide Inv, IsComponent, Restricted, Neighbours;
    var v := s0.work[|s0.work| - 1].node;
    ghost var g := Restricted(adj, nodes);
    ghost var k := Finished(s0, g);
    s, comp := Retreat(s0), [];
    if s0.low[v] == s0.index[v] {
      assert AtRoot(s0, k);
      CloseInv(s0, g, k);
      CloseOnce(s0, g, k);
      s, comp := PopComponent(s, v, k);
      ComponentReversed(g, s0.stack[k..], comp);
      assert Elements(comp) == Elements(s0.stack[k..]);
    } else {
      RetreatInv(s0, g);
    }
  }

  lemma {:induction false} CloseOnce(s: Search, g: Arcs, k: nat)
    requires Inv(s, g) && k < |s.stack|
    ensures forall i | k < i < |s.stack| :: s.stack[i] != s.stack[k]
    ensures Elements(s.stack[k..]) <= s.onStack <= s.index.Keys
  {
    hide Followed, DoneClosed, OpenReaches, ReachesOpen, LowReached, LowBounds, WorkOnStack;
    forall x | x in s.stack[k..] ensures x in s.onStack {
      AboveRoot(s, k, x);
    }
  }

  lemma {:induction false} FoundMore(sccs: seq<seq<nat>>, done: set<nat>, comp: seq<nat>, g: Arcs)
    requires Found(sccs, done, g) && IsComponent(g, comp) && done !! Elements(comp)
    ensures Found(sccs + [comp], done + Elements(comp), g)
  {
    hide IsComponent;
    var more, m := sccs + [comp], |sccs|;
    assert forall i | 0 <= i < m :: more[i] == sccs[i];
    assert more[m] == comp;
    forall i, x | 0 <= i < |more| && x in more[i] ensures x in done + Elements(comp) && (i < m ==> x in done) {
      if i < m {
        assert x in sccs[i];
      }
    }
    forall x | x in done + Elements(comp) ensures exists i :: 0 <= i < |more| && x in more[i] {
      if x in done {
        var i :| 0 <= i < |sccs| && x in sccs[i];
        assert x in more[i];
      } else {
        assert x in more[m];
      }
    }
    assert forall x | x in comp :: x in Elements(comp);
  }

  /** Explore everything reachable from `start`, a node not yet numbered. */
  method Explore(s0: Search, start: nat, adj: map<nat, seq<nat>>, nodes: set<nat>, sccs0: seq<seq<nat>>)
    returns (s: Search, sccs: seq<seq<nat>>)
    requires Searching(s0, adj, nodes) && s0.work == [] && start in nodes && start !in s0.index
    requires Found(sccs0, Done(s0), Restricted(adj, nodes))
    ensures Searching(s, adj, nodes) && s.work == []
    ensures s0.index.Keys <= s.index.Keys && start in s.index
    ensures Found(sccs, Done(s), Restricted(adj, nodes))
  {
    hide Searching, Found, Restricted, Neighbours, Done, IsComponent;
    StartSearching(s0, start, adj, nodes);
    s, sccs := Visit(s0, start, Neighbours(adj, nodes, start)), sccs0;
    while s.work != []
      invariant Searching(s, adj, nodes) && |s.index| <= |nodes|
      invariant s0.index.Keys <= s.index.Keys && start in s.index
      invariant Found(sccs, Done(s), Restricted(adj, nodes))
      decreases |nodes| - |s.index|, |s.work|
    {
      var advanced;
      s, advanced := Scan(s, adj, nodes);
      SearchingWithin(s, adj, nodes);
      if !advanced {
        ghost var done := Done(s);
        var comp;
        s, comp := Leave(s, adj, nodes);
        if comp != [] {
          FoundMore(sccs, done, comp, Restricted(adj, nodes));
          sccs := sccs + [comp];
        }
      }
    }
  }

  lemma {:induction false} SubsetSize(a: set<nat>, b: set<nat>)
    requires a <= b
    ensures |a| <= |b|
  {
    assert b == a + (b - a);
  }

  lemma {:induction false} SearchingWithin(s: Search, adj: map<nat, seq<nat>>, nodes: set<nat>)
    requires Searching(s, adj, nodes)
    ensures s.index.Keys <= nodes && |s.index| <= |nodes|
    ensures s.work == [] ==> Done(s) == s.index.Keys
  {
    SubsetSize(s.index.Keys, nodes);
  }

  lemma {:induction false} StartSearching(s: Search, w: nat, adj: map<nat, seq<nat>>, nodes: set<nat>)
    requires Searching(s, adj, nodes) && s.work == [] && w in nodes && w !in s.index
    ensures var t := Visit(s, w, Neighbours(adj, nodes, w));
      Searching(t, adj, nodes) && Done(t) == Done(s) && |t.index| <= |nodes|
  {
    var g := Restricted(adj, nodes);
    var nbrs := Neighbours(adj, nodes, w);
    SubsetSize(Visit(s, w, nbrs).index.Keys, nodes);
    assert Followed(s, g, {w});
    hide Numbered, WorkOnStack, Followed, DoneClosed, OpenReaches, ReachesOpen, LowReached, LowBounds, Neighbours;
    VisitInv(s, g, w, nbrs);
  }

  /**
   The strongly connected components of the graph restricted to `nodeIds`: every listed node is
   in exactly one of them, and each is a full class of mutually reachable nodes.
   */
  method TarjanScc(nodeIds: seq<nat>, adj: map<nat, seq<nat>>) returns (sccs: seq<seq<nat>>)
    ensures Found(sccs, Elements(nodeIds), Restricted(adj, Elements(nodeIds)))
  {
    hide Searching, Found, Restricted, Neighbours, IsComponent;
    var nodes := Elements(nodeIds);
    var s := Search(map[], map[], {}, [], 0, []);
    sccs := [];
    EmptySearch(adj, nodes);
    for i := 0 to |nodeIds|
      invariant Searching(s, adj, nodes) && s.work == []
      invariant forall j | 0 <= j < i :: nodeIds[j] in s.index
      invariant Found(sccs, Done(s), Restricted(adj, nodes))
    {
      if nodeIds[i] !in s.index {
        s, sccs := Explore(s, nodeIds[i], adj, nodes, sccs);
      }
    }
    SearchingWithin(s, adj, nodes);
    assert Done(s) == nodes;
  }

  lemma {:induction false} EmptySearch(adj: map<nat, seq<nat>>, nodes: set<nat>)
    ensures var s := Search(map[], map[], {}, [], 0, []);
      Searching(s, adj, nodes) && Found([], Done(s), Restricted(adj, nodes))
  {
  }

  /** Two listed nodes share a component exactly when each reaches the other. */
  lemma {:induction false} SharedComponentIff(sccs: seq<seq<nat>>, nodes: set<nat>, g: Arcs, x: nat, y: nat)
    requires Found(sccs, nodes, g) && x in nodes && y in nodes
    ensures (exists i :: 0 <= i < |sccs| && x in sccs[i] && y in sccs[i]) <==> Reaches(g, x, y) && Reaches(g, y, x)
  {
    if Reaches(g, x, y) && Reaches(g, y, x) {
      var i :| 0 <= i < |sccs| && x in sccs[i];
      assert IsComponent(g, sccs[i]);
      assert y in sccs[i];
    }
    if i :| 0 <= i < |sccs| && x in sccs[i] && y in sccs[i] {
      assert IsComponent(g, sccs[i]);
    }
  }
}
