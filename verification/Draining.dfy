/**
 Progress of the link pipeline: left alone it hands out everything it has taken in (cells/rtl/bd_link.v).
 */
module Draining {
  import opened Gates
  import opened Powers
  import opened Pipeline

  /** Anything that is not the producer's choice and changes something; to withdraw a request is its duty. */
  ghost predicate Moves<T>(s: Pipe<T>, e: Event<T>)
    requires Shape(s)
  {
    Enabled(ToAckFall, s, e) && !e.Offer? && !e.Change? && Step(s, e) != s
  }

  /** Every level is down. */
  ghost predicate Resting<T>(s: Pipe<T>) {
    Shape(s) && !s.req && !s.ack && forall i | 0 <= i < |s.c| :: !s.c[i]
  }

  // ---- nothing is disabled ------------------------------------------------------

  /** A controller about to move, or an environment about to answer, stays so until it does. */
  lemma {:induction false} Persistent<T>(s: Pipe<T>, e: Event<T>, f: Event<T>)
    requires Shape(s) && Enabled(ToAckFall, s, e) && Enabled(ToAckFall, s, f) && e != f
    requires f.Control? || f.Withdraw? || f.Take? || f.Release?
    ensures Enabled(ToAckFall, Step(s, e), f)
  {
  }

  // ---- something can move -------------------------------------------------------

  /** With no stage excited all levels from `i` on are the consumer's. */
  lemma {:induction false} LevelFrom<T>(s: Pipe<T>, i: nat)
    requires Shape(s) && i < |s.c| && s.c[|s.c| - 1] == s.ack
    requires forall j: nat | j < |s.c| && After(s, j) == s.c[j] :: Before(s, j) == s.c[j]
    ensures s.c[i] == After(s, i) == Before(s, i) == s.ack
    decreases |s.c| - i
  {
    if i < |s.c| - 1 {
      LevelFrom(s, i + 1);
    }
  }

  /** Unless everything is at rest, something can move. */
  lemma {:induction false} NeverStuck<T>(s: Pipe<T>) returns (e: Event<T>)
    requires Shape(s) && !Resting(s)
    ensures Moves(s, e)
  {
    var n := |s.c|;
    if s.c[n - 1] && !s.ack {
      return Take;
    }
    if !s.c[n - 1] && s.ack {
      return Release;
    }
    if i: nat :| i < n && After(s, i) == s.c[i] && Before(s, i) != s.c[i] {
      e := ExcitedMoves(s, i);
      return;
    }
    forall i: nat | i < n ensures s.c[i] == Before(s, i) == s.ack {
      LevelFrom(s, i);
    }
    assert s.req == s.c[0] == s.ack;
    assert Step(s, Withdraw) != s;
    return Withdraw;
  }

  /** An excited controller moves, or its latch has a value to let through first. */
  lemma {:induction false} ExcitedMoves<T>(s: Pipe<T>, i: nat) returns (e: Event<T>)
    requires Shape(s) && i < |s.c| && After(s, i) == s.c[i] && Before(s, i) != s.c[i]
    ensures Moves(s, e)
  {
    if s.c[i] && s.d[i] != LatchIn(s, i) {
      e := Latch(i);
      assert Step(s, e).d[i] == LatchIn(s, i);
    } else {
      e := Control(i);
      assert Step(s, e).c[i] != s.c[i];
    }
  }

  // ---- every move makes progress ------------------------------------------------

  /** The producer's request, the controllers, and the consumer's acknowledge, in a row. */
  function Level<T>(s: Pipe<T>, j: nat): bool
    requires j <= |s.c| + 1
  {
    if j == 0 then s.req else if j <= |s.c| then s.c[j - 1] else s.ack
  }

  /** How far the changes of level among the first `k + 1` are from the end of the row, together. */
  function Distance<T>(s: Pipe<T>, k: nat): nat
    requires k <= |s.c| + 1
  {
    if k == 0 then 0
    else (if Level(s, k - 1) != Level(s, k) then |s.c| + 2 - k else 0) + Distance(s, k - 1)
  }

  lemma {:induction false} SameLevels<T>(s: Pipe<T>, t: Pipe<T>, k: nat)
    requires |t.c| == |s.c| && k <= |s.c| + 1 && forall j: nat | j <= k :: Level(t, j) == Level(s, j)
    ensures Distance(t, k) == Distance(s, k)
  {
    if k > 0 {
      SameLevels(s, t, k - 1);
    }
  }

  /** A stage that follows the one before it passes the change of level on. */
  lemma {:induction false} ChangePassesOn<T>(s: Pipe<T>, t: Pipe<T>, i: nat, k: nat)
    requires |t.c| == |s.c| && 0 < i <= |s.c| && i < k <= |s.c| + 1
    requires forall j: nat | j <= |s.c| + 1 :: Level(t, j) == if j == i then !Level(s, j) else Level(s, j)
    requires Level(s, i - 1) != Level(s, i) == Level(s, i + 1)
    ensures Distance(t, k) + 1 == Distance(s, k)
  {
    if k == i + 1 {
      SameLevels(s, t, i - 1);
      assert Distance(s, k) == Distance(s, i) && Distance(t, i) == Distance(t, i - 1);
    } else {
      ChangePassesOn(s, t, i, k - 1);
    }
  }

  /** When the first level changes from the next one's, a change of level begins its way. */
  lemma {:induction false} ChangeBegins<T>(s: Pipe<T>, t: Pipe<T>, k: nat)
    requires |t.c| == |s.c| && 0 < k <= |s.c| + 1 && Level(s, 0) == Level(s, 1) && Level(t, 0) != Level(s, 0)
    requires forall j: nat | 0 < j <= |s.c| + 1 :: Level(t, j) == Level(s, j)
    ensures Distance(t, k) == Distance(s, k) + |s.c| + 1
  {
    if k > 1 {
      ChangeBegins(s, t, k - 1);
    }
  }

  /** Latches from stage `i` on that have yet to follow their inputs; an earlier one may unsettle all later ones. */
  ghost function Unsettled<T>(s: Pipe<T>, i: nat): nat
    requires Shape(s) && i <= |s.c|
    decreases |s.c| - i
  {
    if i == |s.c| then 0
    else (if s.d[i] != LatchIn(s, i) then Pow2(|s.c| - i) else 0) + Unsettled(s, i + 1)
  }

  /** How far a request still up, the changes of level, and the values under way have to go. */
  ghost function ToGo<T>(s: Pipe<T>): nat
    requires Shape(s)
  {
    (if s.req then |s.c| + 2 else 0) + Distance(s, |s.c| + 1) + Unsettled(s, 0)
  }

  lemma {:induction false} SameUnsettled<T>(s: Pipe<T>, t: Pipe<T>, i: nat)
    requires Shape(s) && Shape(t) && |t.c| == |s.c| && i <= |s.c|
    requires forall j: nat | i <= j < |s.c| :: t.d[j] == s.d[j] && LatchIn(t, j) == LatchIn(s, j)
    ensures Unsettled(t, i) == Unsettled(s, i)
    decreases |s.c| - i
  {
    if i < |s.c| {
      SameUnsettled(s, t, i + 1);
    }
  }

  /** A latch that follows its input unsettles at most the next one. */
  lemma {:induction false} NextUnsettled<T>(s: Pipe<T>, t: Pipe<T>, i: nat)
    requires Shape(s) && Shape(t) && |t.c| == |s.c| && i < |s.c|
    requires t.d == s.d[i := LatchIn(s, i)] && t.din == s.din
    ensures Unsettled(t, i + 1) < Pow2(|s.c| - i) + Unsettled(s, i + 1)
  {
    var n := |s.c|;
    if i + 1 < n {
      SameUnsettled(s, t, i + 2);
      assert Pow2(n - i) == 2 * Pow2(n - i - 1);
      hide Pow2;
    }
  }

  lemma {:induction false} LatchSettles<T>(s: Pipe<T>, t: Pipe<T>, i: nat, k: nat)
    requires Shape(s) && Shape(t) && |t.c| == |s.c| && k <= i < |s.c|
    requires s.d[i] != LatchIn(s, i) && t.d == s.d[i := LatchIn(s, i)] && t.din == s.din
    ensures Unsettled(t, k) < Unsettled(s, k)
    decreases i - k
  {
    assert LatchIn(t, k) == LatchIn(s, k);
    hide Pow2, LatchIn;
    if k < i {
      LatchSettles(s, t, i, k + 1);
    } else {
      NextUnsettled(s, t, i);
    }
  }

  lemma {:induction false} LatchShrinks<T>(s: Pipe<T>, i: nat)
    requires Shape(s) && Moves(s, Latch(i))
    ensures ToGo(Step(s, Latch(i))) < ToGo(s)
  {
    var t := Step(s, Latch(i));
    assert s.d[i] == LatchIn(s, i) ==> t.d == s.d;
    hide Distance, Unsettled;
    LatchSettles(s, t, i, 0);
    SameLevels(s, t, |s.c| + 1);
  }

  lemma {:induction false} ControlShrinks<T>(s: Pipe<T>, i: nat)
    requires Shape(s) && Moves(s, Control(i))
    ensures ToGo(Step(s, Control(i))) < ToGo(s)
  {
    var t := Step(s, Control(i));
    ControlMoves(s, i);
    hide Distance, Unsettled, Enabled, Step;
    SameUnsettled(s, t, 0);
    assert Level(s, i) == Before(s, i) && Level(s, i + 2) == After(s, i);
    ChangePassesOn(s, t, i + 1, |s.c| + 1);
  }

  lemma {:induction false} EndShrinks<T>(s: Pipe<T>, e: Event<T>)
    requires Shape(s) && Moves(s, e) && (e.Withdraw? || e.Take? || e.Release?)
    ensures ToGo(Step(s, e)) < ToGo(s)
  {
    var t, n := Step(s, e), |s.c|;
    SameUnsettled(s, t, 0);
    hide Unsettled;
    if e.Withdraw? {
      hide Distance;
      ChangeBegins(s, t, n + 1);
    } else {
      SameLevels(s, t, n);
    }
  }

  /** Every move brings the pipeline nearer to rest. */
  lemma {:induction false} MoveShrinks<T>(s: Pipe<T>, e: Event<T>)
    requires Shape(s) && Moves(s, e)
    ensures ToGo(Step(s, e)) < ToGo(s)
  {
    match e
    case Latch(i) => LatchShrinks(s, i);
    case Control(i) => ControlShrinks(s, i);
    case _ => EndShrinks(s, e);
  }

  // ---- everything comes out -----------------------------------------------------

  /** The producer offers nothing more, and only what changes something happens. */
  ghost predicate MoveRun<T>(s: Pipe<T>, es: seq<Event<T>>, t: Pipe<T>)
    requires Shape(s)
    decreases |es|
  {
    if es == [] then s == t else Moves(s, es[0]) && MoveRun(Step(s, es[0]), es[1..], t)
  }

  lemma {:induction false} MoveRunInv<T>(s: Pipe<T>, es: seq<Event<T>>, t: Pipe<T>)
    requires Inv(s) && MoveRun(s, es, t)
    ensures Inv(t) && |es| + ToGo(t) <= ToGo(s) && s.accepted <= t.accepted
    decreases |es|
  {
    if es != [] {
      assert Enabled(ToAckFall, s, es[0]) && s.accepted <= Step(s, es[0]).accepted;
      hide Inv, Step, Enabled, Moves, ToGo;
      StepInv(s, es[0]);
      assert Shape(s);
      MoveShrinks(s, es[0]);
      MoveRunInv(Step(s, es[0]), es[1..], t);
    }
  }

  lemma {:induction false} RestHoldsNothing<T>(s: Pipe<T>, k: nat)
    requires Resting(s) && k <= |s.c|
    ensures Tokens(s, k) == []
  {
    if k > 0 {
      RestHoldsNothing(s, k - 1);
    }
  }

  /**
   From every reachable state, once the producer offers nothing more, every run ends within a bound, and where
   nothing can move all that was taken in has been handed out.
   */
  lemma {:induction false} EverythingComesOut<T>(s0: Pipe<T>, before: seq<Event<T>>, s: Pipe<T>, es: seq<Event<T>>,
      t: Pipe<T>)
    requires Empty(s0) && Run(ToAckFall, s0, before, s) && MoveRun(s, es, t)
    ensures |es| <= ToGo(s) && s.accepted <= t.accepted && t.delivered <= t.accepted
    ensures Shape(t) && ((forall e :: !Moves(t, e)) <==> Resting(t))
    ensures (forall e :: !Moves(t, e)) ==> t.delivered == t.accepted
  {
    EmptyHolds(s0, |s0.c|);
    RunInv(s0, before, s);
    MoveRunInv(s, es, t);
    if Resting(t) {
      RestHoldsNothing(t, |t.c|);
      forall e ensures !Moves(t, e) {
        RestMovesNothing(t, e);
      }
    } else {
      var e := NeverStuck(t);
    }
  }

  lemma {:induction false} RestMovesNothing<T>(s: Pipe<T>, e: Event<T>)
    requires Resting(s)
    ensures !Moves(s, e)
  {
  }
}
