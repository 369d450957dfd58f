/**
 A ring of N link controllers: what circulates, and when it can (`ring_depths`' floor in bdc/emit.py;
 `LINK_PAIR` in cells/verify/inits.py).
 */
module Ring {
  import opened Gates
  import RingDepth

  function Prev(i: nat, n: nat): (p: nat)
    requires i < n
    ensures p < n
  {
    if i == 0 then n - 1 else i - 1
  }

  function Next(i: nat, n: nat): (p: nat)
    requires i < n
    ensures p < n
  {
    if i == n - 1 then 0 else i + 1
  }

  /** `C(c_{i-1}, ~c_{i+1})` asks stage `i` to move. */
  predicate Excited(c: seq<bool>, i: nat)
    requires i < |c|
  {
    Majority(c[Prev(i, |c|)], !c[Next(i, |c|)], c[i]) != c[i]
  }

  predicate Stuck(c: seq<bool>) {
    forall i: nat | i < |c| :: !Excited(c, i)
  }

  function Fire(c: seq<bool>, i: nat): (d: seq<bool>)
    requires i < |c|
    ensures |d| == |c|
  {
    c[i := !c[i]]
  }

  /** `d` is reached from `c` by firing the excited stages `is`, in order. */
  ghost predicate Run(c: seq<bool>, fires: seq<nat>, d: seq<bool>)
    decreases |fires|
  {
    if fires == [] then c == d else fires[0] < |c| && Excited(c, fires[0]) && Run(Fire(c, fires[0]), fires[1..], d)
  }

  /** Stages below `k` whose level differs from the next one's: where a value, or its return to zero, begins. */
  function Boundaries(c: seq<bool>, k: nat): (b: nat)
    requires k <= |c|
    ensures b <= k
  {
    if k == 0 then 0 else Boundaries(c, k - 1) + if c[k - 1] != c[Next(k - 1, |c|)] then 1 else 0
  }

  /** An excited stage differs from the one before it and agrees with the one after. */
  lemma {:induction false} ExcitedIff(c: seq<bool>, i: nat)
    requires i < |c|
    ensures Excited(c, i) <==> c[Prev(i, |c|)] != c[i] && c[i] == c[Next(i, |c|)]
  {
  }

  /** Firing stage `i` moves the boundary before it to after it. */
  lemma {:induction false} FireMovesBoundary(c: seq<bool>, i: nat, k: nat)
    requires i < |c| && k <= |c| && Excited(c, i)
    ensures Boundaries(Fire(c, i), k) + (if Prev(i, |c|) < k then 1 else 0) == Boundaries(c, k) + if i < k then 1 else 0
  {
    ExcitedIff(c, i);
    if k > 0 {
      FireMovesBoundary(c, i, k - 1);
    }
  }

  /** The number of boundaries never changes. */
  lemma {:induction false} BoundariesConserved(c: seq<bool>, fires: seq<nat>, d: seq<bool>)
    requires Run(c, fires, d)
    ensures |d| == |c| && Boundaries(d, |d|) == Boundaries(c, |c|)
    decreases |fires|
  {
    if fires != [] {
      FireMovesBoundary(c, fires[0], |c|);
      BoundariesConserved(Fire(c, fires[0]), fires[1..], d);
    }
  }

  /** An excited stage stays excited until it fires. */
  lemma {:induction false} ExcitedStays(c: seq<bool>, i: nat, j: nat)
    requires i < |c| && j < |c| && i != j && Excited(c, i) && Excited(c, j)
    ensures Excited(Fire(c, j), i)
  {
    ExcitedIff(c, i);
    ExcitedIff(c, j);
    ExcitedIff(Fire(c, j), i);
  }

  lemma {:induction false} AllAlike(c: seq<bool>, k: nat)
    requires k <= |c|
    ensures (forall i: nat | i < k :: c[i] == c[Next(i, |c|)]) ==> Boundaries(c, k) == 0
    ensures (forall i: nat | i < k :: c[i] != c[Next(i, |c|)]) ==> Boundaries(c, k) == k
    ensures forall i: nat | i < k && c[i] != c[Next(i, |c|)] :: Boundaries(c, k) > 0
    ensures forall i: nat | i < k && c[i] == c[Next(i, |c|)] :: Boundaries(c, k) < k
  {
    if k > 0 {
      AllAlike(c, k - 1);
    }
  }

  /** In a stuck ring a boundary before a stage is followed by one after it. */
  lemma {:induction false} BoundarySpreads(c: seq<bool>, i: nat, k: nat)
    requires Stuck(c) && i < |c| && c[Prev(i, |c|)] != c[i] && k < |c|
    ensures c[k] != c[Next(k, |c|)]
    decreases if k >= i then k - i else |c| + k - i
  {
    var n := |c|;
    assert !Excited(c, i);
    ExcitedIff(c, i);
    if k != i {
      assert Prev(Next(i, n), n) == i;
      BoundarySpreads(c, Next(i, n), k);
    }
  }

  /** A ring is stuck exactly when it is empty of boundaries or full of them. */
  lemma {:induction false} StuckIff(c: seq<bool>)
    ensures Stuck(c) <==> Boundaries(c, |c|) == 0 || Boundaries(c, |c|) == |c|
  {
    var n := |c|;
    AllAlike(c, n);
    if Stuck(c) && !(forall i: nat | i < n :: c[i] == c[Next(i, n)]) {
      var i: nat :| i < n && c[i] != c[Next(i, n)];
      assert Prev(Next(i, n), n) == i;
      forall k: nat | k < n ensures c[k] != c[Next(k, n)] {
        BoundarySpreads(c, Next(i, n), k);
      }
    }
    forall i: nat | i < n && Excited(c, i) ensures 0 < Boundaries(c, n) < n {
      ExcitedIff(c, i);
      assert Next(Prev(i, n), n) == i;
    }
  }

  /** Two stages can never move. */
  lemma {:induction false} TwoStagesStuck(c: seq<bool>)
    requires |c| == 2
    ensures Stuck(c)
  {
    forall i: nat | i < 2 ensures !Excited(c, i) {
      ExcitedIff(c, i);
    }
  }

  /**
   A ring that holds one value has two boundaries for ever, and it can go on moving for ever exactly when it
   has three stages.
   */
  lemma {:induction false} OneValueCirculates(c: seq<bool>, fires: seq<nat>, d: seq<bool>)
    requires Boundaries(c, |c|) == 2 && Run(c, fires, d)
    ensures Boundaries(d, |d|) == 2 && (Stuck(d) <==> |c| < 3)
  {
    BoundariesConserved(c, fires, d);
    StuckIff(d);
  }

  /** The places below `k` at which two rings differ. */
  ghost function Differ(c: seq<bool>, d: seq<bool>, k: nat): set<nat>
    requires k <= |c| == |d|
  {
    set i: nat | i < k && c[i] != d[i]
  }

  lemma {:induction false} OneMore(c: seq<bool>, d: seq<bool>, k: nat)
    requires k < |c| == |d|
    ensures |Differ(c, d, k + 1)| == |Differ(c, d, k)| + if c[k] != d[k] then 1 else 0
  {
    assert Differ(c, d, k + 1) == if c[k] != d[k] then Differ(c, d, k) + {k} else Differ(c, d, k);
  }

  /** As many as there are places where the ring differs from itself turned by one stage. */
  lemma {:induction false} BoundariesCount(c: seq<bool>, turned: seq<bool>, k: nat)
    requires k <= |c| == |turned| && (c != [] ==> turned == c[1..] + [c[0]])
    ensures Boundaries(c, k) == |Differ(c, turned, k)|
  {
    if k > 0 {
      BoundariesCount(c, turned, k - 1);
      OneMore(c, turned, k - 1);
      assert c[Next(k - 1, |c|)] == turned[k - 1];
    }
  }

  /** The levels of `n` stages of which only the first is up. */
  function OneUp(n: nat): (c: seq<bool>)
    ensures |c| == n
  {
    seq(n, i => i == 0)
  }

  lemma {:induction false} OneUpBoundaries(n: nat, k: nat)
    requires 2 <= n && k <= n
    ensures Boundaries(OneUp(n), k) == if k == 0 then 0 else if k < n then 1 else 2
  {
    if k > 0 {
      OneUpBoundaries(n, k - 1);
    }
  }

  /** A ring of `n` stages can hold one value, and whatever it has done it can still move. */
  ghost predicate Circulates(n: nat) {
    && (exists c: seq<bool> :: |c| == n && Boundaries(c, n) == 2)
    && (forall c: seq<bool>, fires, d | |c| == n && Boundaries(c, n) == 2 && Run(c, fires, d) :: !Stuck(d))
  }

  /** The floor the links are deepened to is the length from which a ring carries a value round, and no longer. */
  lemma {:induction false} FloorIsExact(n: nat)
    ensures Circulates(n) <==> RingDepth.RING_MIN_STAGES <= n
  {
    if n >= 2 {
      OneUpBoundaries(n, n);
    }
    if n == 2 {
      var c := OneUp(2);
      assert Run(c, [], c);
      OneValueCirculates(c, [], c);
    }
    forall c: seq<bool>, fires, d | |c| == n && Boundaries(c, n) == 2 && Run(c, fires, d) && n >= 3 ensures !Stuck(d) {
      OneValueCirculates(c, fires, d);
    }
  }
}
