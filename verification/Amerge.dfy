/**
 The N-input arbitrated merge: a cascade of two-input arbiters and a priority-chain index
 (`emit_amerge`, `_index_expr`, `_data_mux` in bdc/emit.py; `ARB_STATE_R0_HOLD` in cells/verify/inits.py).
 */
module Amerge {
  import opened Gates

  /** Whether an arbiter's state node is frozen while its resource acknowledges. */
  datatype Arbiter = Frozen | Unfrozen

  /**
   Input requests `r`; the state node `q[k]` of stage `k` (stage 0 is input 0 itself); `a0[k]`, the
   acknowledge of the winner among inputs `0..k`; `ack[k]`, the acknowledge of input `k` from its own
   stage; the output request and acknowledge; which input each output transaction was said to come from,
   and the inputs acknowledged, in order.
   */
  datatype Merge = Merge(r: seq<bool>, q: seq<bool>, a0: seq<bool>, ack: seq<bool>, zReq: bool, zAck: bool,
                         served: seq<nat>, acked: seq<nat>)

  datatype Event = Raise(i: nat) | Lower(i: nat) | Decide(k: nat) | Output | Consume

  predicate Shape(s: Merge) {
    |s.r| == |s.q| == |s.a0| == |s.ack| >= 2
  }

  /** The accumulated request of inputs `0..k`: `R0` of stage `k`. */
  function Acc(r: seq<bool>, q: seq<bool>, k: nat): bool
    requires k < |r| == |q|
  {
    if k == 0 then r[0] else (Acc(r, q, k - 1) && q[k]) || (r[k] && !q[k])
  }

  function Grant1(r: seq<bool>, q: seq<bool>, k: nat): bool
    requires 0 < k < |r| == |q|
  {
    Acc(r, q, k - 1) && q[k]
  }

  function Grant2(r: seq<bool>, q: seq<bool>, k: nat): bool
    requires 0 < k < |r| == |q|
  {
    r[k] && !q[k]
  }

  function InAck(s: Merge, i: nat): bool
    requires i < |s.a0| == |s.ack|
  {
    if i == 0 then s.a0[0] else s.ack[i]
  }

  // ---- acknowledges, which settle with the step that moves them -------------------

  /** The settled acknowledge of the winner among `0..k`: `C(g1, A0)` of the stage above. */
  function Settled0(s: Merge, k: nat): bool
    requires k < |s.r| == |s.q| == |s.a0|
    decreases |s.r| - k
  {
    if k == |s.r| - 1 then s.zAck else Majority(Grant1(s.r, s.q, k + 1), Settled0(s, k + 1), s.a0[k])
  }

  /** The settled acknowledge of input `k`: `C(g2, A0)` of its stage. */
  function Settled(s: Merge, k: nat): bool
    requires k < |s.r| == |s.q| == |s.a0| == |s.ack|
  {
    if k == 0 then false else Majority(Grant2(s.r, s.q, k), Settled0(s, k), s.ack[k])
  }

  function Settle(s: Merge): (t: Merge)
    requires |s.r| == |s.q| == |s.a0| == |s.ack|
    ensures |t.r| == |s.r| && |t.q| == |s.q| && |t.a0| == |s.a0| && |t.ack| == |s.ack|
  {
    s.(a0 := seq(|s.r|, k requires 0 <= k < |s.r| => Settled0(s, k)),
       ack := seq(|s.r|, k requires 0 <= k < |s.r| => Settled(s, k)))
  }

  /** The inputs below `k` whose acknowledge rises from `s` to `t`. */
  function Risen(s: Merge, t: Merge, k: nat): seq<nat>
    requires k <= |s.a0| == |s.ack| == |t.a0| == |t.ack|
  {
    if k == 0 then []
    else Risen(s, t, k - 1) + if !InAck(s, k - 1) && InAck(t, k - 1) then [k - 1] else []
  }

  // ---- the index ----------------------------------------------------------------

  /** `won[k] = g2[k] | ack`. */
  function Won(s: Merge, k: nat): bool
    requires 0 < k < |s.r| == |s.q| == |s.ack|
  {
    Grant2(s.r, s.q, k) || s.ack[k]
  }

  /** The priority chain over the stages up to `k`, the latest first. */
  function Index(s: Merge, k: nat): (i: nat)
    requires k < |s.r| == |s.q| == |s.ack|
    ensures i <= k
  {
    if k == 0 then 0 else if Won(s, k) then k else Index(s, k - 1)
  }

  /** `z_data`, as a chain of conditionals on the index. */
  function DataMux<T>(data: seq<T>, sel: nat, k: nat): T
    requires k < |data|
  {
    if k == 0 then data[0] else if sel == k then data[k] else DataMux(data, sel, k - 1)
  }

  lemma {:induction false} DataMuxPicks<T>(data: seq<T>, sel: nat, k: nat)
    requires sel <= k < |data|
    ensures DataMux(data, sel, k) == data[sel]
  {
    if k > 0 && sel != k {
      DataMuxPicks(data, sel, k - 1);
    }
  }

  // ---- steps --------------------------------------------------------------------

  /** What stage `k`'s state node is asked for. */
  function Wanted(arb: Arbiter, s: Merge, k: nat): bool
    requires 0 < k < |s.r| == |s.q| == |s.a0|
  {
    if arb == Frozen && s.a0[k] then s.q[k] else Majority(Acc(s.r, s.q, k - 1), !s.r[k], s.q[k])
  }

  predicate Enabled(arb: Arbiter, s: Merge, e: Event)
    requires Shape(s)
  {
    match e
    case Raise(i) => i < |s.r| && !s.r[i] && !InAck(s, i)
    case Lower(i) => i < |s.r| && s.r[i] && InAck(s, i)
    case Decide(k) => 0 < k < |s.r| && Wanted(arb, s, k) != s.q[k]
    case Output => s.zReq != Acc(s.r, s.q, |s.r| - 1)
    case Consume => s.zAck != s.zReq
  }

  /** The node that moves, before acknowledges settle. */
  function Moved(s: Merge, e: Event): (t: Merge)
    requires Shape(s)
    ensures |t.r| == |s.r| && |t.q| == |s.q| && |t.a0| == |s.a0| && |t.ack| == |s.ack|
  {
    match e
    case Raise(i) => if i < |s.r| then s.(r := s.r[i := true]) else s
    case Lower(i) => if i < |s.r| then s.(r := s.r[i := false]) else s
    case Decide(k) => if k < |s.q| then s.(q := s.q[k := !s.q[k]]) else s
    case Output => s.(zReq := !s.zReq)
    case Consume => s.(zAck := !s.zAck, served := if s.zAck then s.served else s.served + [Index(s, |s.r| - 1)])
  }

  function Step(s: Merge, e: Event): (t: Merge)
    requires Shape(s)
    ensures |t.r| == |s.r| && |t.q| == |s.q| && |t.a0| == |s.a0| && |t.ack| == |s.ack|
  {
    var t := Settle(Moved(s, e));
    t.(acked := s.acked + Risen(s, t, |s.r|))
  }

  function Low(n: nat): seq<bool> {
    seq(n, _ => false)
  }

  /** After reset every state node is set. */
  function Reset(n: nat): Merge {
    Merge(Low(n), seq(n, _ => true), Low(n), Low(n), false, false, [], [])
  }

  ghost predicate Run(arb: Arbiter, s: Merge, es: seq<Event>, t: Merge)
    requires Shape(s)
    decreases |es|
  {
    && Shape(t) && |t.r| == |s.r|
    && if es == [] then s == t else Enabled(arb, s, es[0]) && Run(arb, Step(s, es[0]), es[1..], t)
  }

  // ---- the input being served ---------------------------------------------------

  /** The input the state nodes select among `0..k`. */
  function Selected(q: seq<bool>, k: nat): (i: nat)
    requires k < |q|
    ensures i <= k && (i > 0 ==> !q[i]) && forall j | i < j <= k :: q[j]
  {
    if k == 0 then 0 else if q[k] then Selected(q, k - 1) else k
  }

  /** The input the whole cascade selects. */
  function Winner(s: Merge): (i: nat)
    requires |s.q| > 0
    ensures i < |s.q|
  {
    Selected(s.q, |s.q| - 1)
  }

  /** Between the winner and stage `k` the accumulated request is the winner's. */
  lemma {:induction false} AccFrom(r: seq<bool>, q: seq<bool>, p: nat, k: nat)
    requires p <= k < |r| == |q| && (p > 0 ==> !q[p]) && forall j | p < j <= k :: q[j]
    ensures Acc(r, q, k) == r[p]
  {
    if k > p {
      AccFrom(r, q, p, k - 1);
    }
  }

  /** From the merged request rising until the output acknowledge has fallen. */
  predicate Busy(s: Merge)
    requires |s.r| == |s.q| > 0
  {
    Acc(s.r, s.q, |s.r| - 1) || s.zReq || s.zAck
  }

  /** Acknowledges run from the output down to the winner, and nowhere else. */
  predicate Acknowledged(s: Merge)
    requires Shape(s)
  {
    forall k: nat | k < |s.r| :: s.a0[k] == (s.zAck && k >= Winner(s))
      && s.ack[k] == (s.zAck && k == Winner(s) && k > 0)
  }

  predicate Inv(s: Merge) {
    && Shape(s) && Acknowledged(s)
    && (s.zReq && !s.zAck ==> s.r[Winner(s)])
    && (s.zAck && !s.zReq ==> !s.r[Winner(s)])
    && s.served == s.acked
  }

  lemma {:induction false} ResetInv(n: nat)
    requires n >= 2
    ensures Inv(Reset(n))
  {
  }

  /** `s` is about to settle: acknowledges are up from the output to winner `p`, or all down. */
  predicate Unsettled(s: Merge, p: nat, was: bool) {
    && Shape(s) && p == Winner(s)
    && (forall k: nat | k < |s.r| :: s.a0[k] == (was && k >= p) && s.ack[k] == (was && k == p && k > 0))
    && (s.zAck && !was ==> s.r[p]) && (!s.zAck && was ==> !s.r[p])
  }

  lemma {:induction false} SettledFrom(s: Merge, p: nat, was: bool, k: nat)
    requires Unsettled(s, p, was) && k < |s.r|
    ensures Settled0(s, k) == (s.zAck && k >= p)
    decreases |s.r| - k
  {
    if k < |s.r| - 1 {
      SettledFrom(s, p, was, k + 1);
      if k >= p {
        AccFrom(s.r, s.q, p, k);
      }
    }
  }

  lemma {:induction false} SettledIs(s: Merge, p: nat, was: bool)
    requires Unsettled(s, p, was)
    ensures Shape(Settle(s)) && Acknowledged(Settle(s)) && Winner(Settle(s)) == p
  {
    forall k: nat | k < |s.r|
      ensures Settled0(s, k) == (s.zAck && k >= p) && Settled(s, k) == (s.zAck && k == p && k > 0)
    {
      SettledFrom(s, p, was, k);
    }
  }

  /** The winner cannot change while a transaction is on. */
  lemma {:induction false} WinnerHolds(s: Merge, k: nat)
    requires Inv(s) && Enabled(Frozen, s, Decide(k)) && Busy(s)
    ensures k < Winner(s) && Winner(Moved(s, Decide(k))) == Winner(s)
  {
    AccFrom(s.r, s.q, Winner(s), |s.q| - 1);
    if k > Winner(s) {
      AccFrom(s.r, s.q, Winner(s), k - 1);
    }
    SelectedIs(Moved(s, Decide(k)).q, Winner(s), |s.q| - 1);
  }

  lemma {:induction false} SelectedIs(q: seq<bool>, p: nat, k: nat)
    requires p <= k < |q| && (p > 0 ==> !q[p]) && forall j | p < j <= k :: q[j]
    ensures Selected(q, k) == p
  {
    if k > p {
      SelectedIs(q, p, k - 1);
    }
  }

  /** While a transaction is on, the index names the input being served. */
  lemma {:induction false} IndexFrom(s: Merge, k: nat)
    requires Inv(s) && Busy(s) && Winner(s) <= k < |s.r|
    ensures Index(s, k) == Winner(s)
    decreases k
  {
    var p := Winner(s);
    AccFrom(s.r, s.q, p, |s.q| - 1);
    if k > p {
      IndexFrom(s, k - 1);
    }
  }

  // ---- what acknowledges rise ---------------------------------------------------

  /** When only input `p`'s acknowledge rises, it alone is logged; when none rises, nothing is. */
  lemma {:induction false} RisenOne(s: Merge, t: Merge, p: nat, k: nat)
    requires k <= |s.a0| == |s.ack| == |t.a0| == |t.ack|
    requires forall i: nat | i < |s.a0| :: !InAck(s, i) && InAck(t, i) <==> i == p
    ensures Risen(s, t, k) == if p < k then [p] else []
  {
    hide InAck;
    if k > 0 {
      RisenOne(s, t, p, k - 1);
    }
  }

  lemma {:induction false} RisenNone(s: Merge, t: Merge, k: nat)
    requires k <= |s.a0| == |s.ack| == |t.a0| == |t.ack|
    requires forall i: nat | i < |s.a0| :: InAck(t, i) ==> InAck(s, i)
    ensures Risen(s, t, k) == []
  {
    if k > 0 {
      RisenNone(s, t, k - 1);
    }
  }

  /** Input acknowledges are the output acknowledge, at the winner. */
  lemma {:induction false} InAckIs(s: Merge, i: nat)
    requires Shape(s) && Acknowledged(s) && i < |s.r|
    ensures InAck(s, i) == (s.zAck && i == Winner(s))
  {
  }

  lemma {:induction false} ConsumeInv(s: Merge)
    requires Inv(s) && Enabled(Frozen, s, Consume)
    ensures Inv(Step(s, Consume)) && Winner(Step(s, Consume)) == Winner(s)
  {
    var m, u, p := Moved(s, Consume), Settle(Moved(s, Consume)), Winner(s);
    AccFrom(s.r, s.q, p, |s.q| - 1);
    SettledIs(m, p, s.zAck);
    ConsumeRises(s, u);
    if !s.zAck {
      IndexFrom(s, |s.r| - 1);
    }
    StepIsSettle(s, Consume);
    assert u == m.(a0 := u.a0, ack := u.ack);
    var t := Step(s, Consume);
    assert t == u.(acked := s.acked + if s.zAck then [] else [p]);
    hide Acknowledged, Acc, Index, Selected, Risen, Settle, Step;
    Relogged(u, t);
  }

  /** The log of acknowledges changes nothing else. */
  lemma {:induction false} Relogged(u: Merge, t: Merge)
    requires Shape(u) && t == u.(acked := t.acked)
    ensures Shape(t) && Winner(t) == Winner(u) && (Acknowledged(u) ==> Acknowledged(t))
  {
    hide Selected;
  }

  /** Only a rising output acknowledge raises an input's: the winner's. */
  lemma {:induction false} ConsumeRises(s: Merge, u: Merge)
    requires Shape(s) && Shape(u) && |u.r| == |s.r| && Acknowledged(s) && Acknowledged(u)
    requires Winner(u) == Winner(s) && u.zAck == !s.zAck
    ensures Risen(s, u, |s.r|) == if s.zAck then [] else [Winner(s)]
  {
    forall i: nat | i < |s.r|
      ensures InAck(s, i) == (s.zAck && i == Winner(s)) && InAck(u, i) == (u.zAck && i == Winner(s))
    {
      InAckIs(s, i);
      InAckIs(u, i);
    }
    hide Acknowledged, InAck;
    if s.zAck {
      RisenNone(s, u, |s.r|);
    } else {
      RisenOne(s, u, Winner(s), |s.r|);
    }
  }

  lemma {:induction false} MovedInv(s: Merge, e: Event)
    requires Inv(s) && Enabled(Frozen, s, e) && e != Consume
    ensures var m := Moved(s, e);
            && Unsettled(m, Winner(m), s.zAck) && m.zAck == s.zAck && m.served == s.served
            && (m.zReq && !m.zAck ==> m.r[Winner(m)]) && (m.zAck && !m.zReq ==> !m.r[Winner(m)])
            && (Busy(s) ==> Winner(m) == Winner(s))
  {
    AccFrom(s.r, s.q, Winner(s), |s.q| - 1);
    InAckIs(s, Winner(s));
    if e.Raise? || e.Lower? {
      InAckIs(s, e.i);
    }
    if e.Decide? && Busy(s) {
      WinnerHolds(s, e.k);
    }
  }

  /** Unless the output acknowledge rises, no input's does. */
  lemma {:induction false} NoneRises(s: Merge, m: Merge)
    requires Shape(s) && Acknowledged(s) && Shape(m) && |m.r| == |s.r| && m.zAck == s.zAck
    requires Unsettled(m, Winner(m), s.zAck) && (s.zAck ==> Winner(m) == Winner(s))
    ensures Shape(Settle(m)) && Acknowledged(Settle(m)) && Winner(Settle(m)) == Winner(m)
    ensures Risen(s, Settle(m), |s.r|) == []
  {
    SettledIs(m, Winner(m), s.zAck);
    hide Settle, Unsettled, Acknowledged, Winner;
    forall i: nat | i < |s.r| ensures InAck(Settle(m), i) ==> InAck(s, i) {
      InAckIs(s, i);
      InAckIs(Settle(m), i);
    }
    RisenNone(s, Settle(m), |s.r|);
  }

  lemma {:induction false} OtherInv(s: Merge, e: Event)
    requires Inv(s) && Enabled(Frozen, s, e) && e != Consume
    ensures Inv(Step(s, e)) && (Busy(s) ==> Winner(Step(s, e)) == Winner(s))
  {
    var m := Moved(s, e);
    MovedInv(s, e);
    assert s.zAck ==> Busy(s);
    hide Moved, Enabled, Busy, Unsettled, Acknowledged, Winner, Settle, Risen;
    NoneRises(s, m);
    var u := Settle(m);
    assert s.acked + Risen(s, u, |s.r|) == s.acked;
    StepIsSettle(s, e);
    hide Step;
    LoggedInv(s, m, u, Step(s, e));
  }

  lemma {:induction false} StepIsSettle(s: Merge, e: Event)
    requires Shape(s)
    ensures var u := Settle(Moved(s, e)); Step(s, e) == u.(acked := s.acked + Risen(s, u, |s.r|))
  {
  }

  lemma {:induction false} LoggedInv(s: Merge, m: Merge, u: Merge, t: Merge)
    requires Inv(s) && Shape(m) && Shape(u) && t == u.(acked := s.acked) && m.served == s.served
    requires u.r == m.r && u.q == m.q && u.zReq == m.zReq && u.zAck == m.zAck && u.served == m.served
    requires Acknowledged(u) && Winner(u) == Winner(m)
    requires (m.zReq && !m.zAck ==> m.r[Winner(m)]) && (m.zAck && !m.zReq ==> !m.r[Winner(m)])
    ensures Inv(t) && Winner(t) == Winner(m)
  {
    hide Selected;
  }

  lemma {:induction false} StepInv(s: Merge, e: Event)
    requires Inv(s) && Enabled(Frozen, s, e)
    ensures Inv(Step(s, e)) && |Step(s, e).r| == |s.r| && (Busy(s) ==> Winner(Step(s, e)) == Winner(s))
  {
    if e == Consume {
      ConsumeInv(s);
    } else {
      OtherInv(s, e);
    }
  }

  lemma {:induction false} RunInv(s: Merge, es: seq<Event>, t: Merge)
    requires Shape(s) && Inv(s) && Run(Frozen, s, es, t)
    ensures Inv(t)
    decreases |es|
  {
    hide Inv, Step, Enabled;
    if es != [] {
      StepInv(s, es[0]);
      RunInv(Step(s, es[0]), es[1..], t);
    }
  }

  lemma {:induction false} Reached(n: nat, es: seq<Event>, t: Merge)
    requires n >= 2 && Run(Frozen, Reset(n), es, t)
    ensures Inv(t) && |t.r| == n
  {
    ResetInv(n);
    RunInv(Reset(n), es, t);
  }

  /** What a busy merge shows: the index, and the acknowledges, name the winner. */
  lemma {:induction false} BusyShows(t: Merge, n: nat)
    requires Inv(t) && Busy(t) && |t.r| == n
    ensures Index(t, n - 1) == Winner(t) && (t.r[Winner(t)] || t.zAck)
    ensures forall j: nat | j < n :: InAck(t, j) == (t.zAck && j == Winner(t))
  {
    IndexFrom(t, n - 1);
    AccFrom(t.r, t.q, Winner(t), n - 1);
    forall j: nat | j < n ensures InAck(t, j) == (t.zAck && j == Winner(t)) {
      InAckIs(t, j);
    }
  }

  /**
   For every run of the n-input merge: while a transaction is on, whatever happens next, the index names
   one and the same input; the data output is that input's data; no other input is acknowledged; and the
   input is acknowledged exactly when the output is.
   */
  lemma {:induction false} IndexNamesTheServed<T>(n: nat, es: seq<Event>, t: Merge, e: Event, data: seq<T>)
    requires n >= 2 && Run(Frozen, Reset(n), es, t) && Busy(t) && Enabled(Frozen, t, e) && |data| == n
    ensures var i := Index(t, n - 1);
            && (forall j: nat | j < n :: InAck(t, j) == (t.zAck && j == i))
            && (t.r[i] || t.zAck)
            && DataMux(data, i, n - 1) == data[i]
    ensures var u := Step(t, e); Busy(u) ==> Index(u, n - 1) == Index(t, n - 1)
  {
    Reached(n, es, t);
    hide Run, Reset, Inv, Enabled, Step, Busy, Index, InAck, DataMux;
    ServedStep(n, t, e);
    DataMuxPicks(data, Index(t, n - 1), n - 1);
  }

  lemma {:induction false} ServedStep(n: nat, t: Merge, e: Event)
    requires Inv(t) && |t.r| == n && Busy(t) && Enabled(Frozen, t, e)
    ensures var i := Index(t, n - 1);
            && i < n && (forall j: nat | j < n :: InAck(t, j) == (t.zAck && j == i))
            && (t.r[i] || t.zAck)
    ensures var u := Step(t, e); |u.r| == n && (Busy(u) ==> Index(u, n - 1) == Index(t, n - 1))
  {
    StepInv(t, e);
    hide Inv, Enabled, Step, Index, InAck;
    BusyShows(t, n);
    if Busy(Step(t, e)) {
      BusyShows(Step(t, e), n);
    }
  }

  /** Acknowledges and output transactions match one for one, in order. */
  lemma {:induction false} AcknowledgesMatch(n: nat, es: seq<Event>, t: Merge)
    requires n >= 2 && Run(Frozen, Reset(n), es, t)
    ensures t.acked == t.served
  {
    Reached(n, es, t);
  }

  /** The merged request is not withdrawn before it is acknowledged. */
  lemma {:induction false} RequestPersists(n: nat, es: seq<Event>, t: Merge, e: Event)
    requires n >= 2 && Run(Frozen, Reset(n), es, t) && Enabled(Frozen, t, e)
    requires Acc(t.r, t.q, n - 1) && !t.zAck
    ensures var u := Step(t, e); Acc(u.r, u.q, n - 1)
  {
    Reached(n, es, t);
    hide Run, Reset, Inv, Enabled, Step, Acc;
    MergedPersists(t, e);
  }

  lemma {:induction false} MergedPersists(t: Merge, e: Event)
    requires Inv(t) && Enabled(Frozen, t, e) && Acc(t.r, t.q, |t.r| - 1) && !t.zAck
    ensures var u := Step(t, e); |u.r| == |t.r| && Acc(u.r, u.q, |u.r| - 1)
  {
    InvShape(t);
    MergedIs(t);
    StepInv(t, e);
    WinnerKeepsAsking(t, e);
    InvShape(Step(t, e));
    hide Inv, Enabled, Step, Acc, Winner;
    MergedIs(Step(t, e));
  }

  lemma {:induction false} InvShape(s: Merge)
    requires Inv(s)
    ensures Shape(s)
  {
  }

  /** The merged request is the winner's. */
  lemma {:induction false} MergedIs(s: Merge)
    requires Shape(s)
    ensures Acc(s.r, s.q, |s.r| - 1) == s.r[Winner(s)]
  {
    AccFrom(s.r, s.q, Winner(s), |s.r| - 1);
  }

  lemma {:induction false} WinnerKeepsAsking(t: Merge, e: Event)
    requires Inv(t) && Enabled(Frozen, t, e) && !t.zAck && t.r[Winner(t)]
    ensures Step(t, e).r[Winner(t)]
  {
    if e.Lower? {
      InAckIs(t, e.i);
    }
  }

  // ---- no request is ignored ----------------------------------------------------

  /** A request that has reached stage `k` moves some state node, or comes out at the top. */
  lemma {:induction false} Climbs(s: Merge, k: nat) returns (e: Event)
    requires Shape(s) && k < |s.r| && Acc(s.r, s.q, k) && !s.zAck && !s.zReq
    requires forall j: nat | j < |s.r| :: !s.a0[j]
    ensures Enabled(Frozen, s, e) && (e.Decide? || e.Output?)
    decreases |s.r| - k
  {
    if k == |s.r| - 1 {
      e := Output;
    } else if Wanted(Frozen, s, k + 1) != s.q[k + 1] {
      e := Decide(k + 1);
    } else {
      e := Climbs(s, k + 1);
    }
  }

  /** While some input asks and is not acknowledged, the merge, its consumer or the served client can move. */
  lemma {:induction false} RequestsAnswered(n: nat, es: seq<Event>, t: Merge, i: nat) returns (e: Event)
    requires n >= 2 && Run(Frozen, Reset(n), es, t) && i < n && |t.r| == n && t.r[i] && !InAck(t, i)
    ensures Enabled(Frozen, t, e) && (e.Decide? || e.Output? || e.Consume? || (e.Lower? && InAck(t, e.i)))
  {
    Reached(n, es, t);
    hide Run, Reset;
    e := Answer(t, i);
  }

  lemma {:induction false} Answer(t: Merge, i: nat) returns (e: Event)
    requires Inv(t) && i < |t.r| && t.r[i] && !InAck(t, i)
    ensures Enabled(Frozen, t, e) && (e.Decide? || e.Output? || e.Consume? || (e.Lower? && InAck(t, e.i)))
  {
    InAckIs(t, i);
    AccFrom(t.r, t.q, Winner(t), |t.r| - 1);
    if t.zReq != t.zAck {
      e := Consume;
    } else if t.zAck {
      InAckIs(t, Winner(t));
      e := if t.r[Winner(t)] then Lower(Winner(t)) else Output;
    } else if i > 0 && t.q[i] && !Acc(t.r, t.q, i - 1) {
      e := Decide(i);
    } else {
      e := Climbs(t, i);
    }
  }

  // ---- the unfrozen state node --------------------------------------------------

  lemma {:induction false} RunOn(arb: Arbiter, s: Merge, es: seq<Event>, t: Merge, e: Event)
    requires Shape(s) && Run(arb, s, es, t) && Shape(t) && Enabled(arb, t, e)
    ensures Run(arb, s, es + [e], Step(t, e))
    decreases |es|
  {
    if es == [] {
      assert [e][1..] == [];
    } else {
      RunOn(arb, Step(s, es[0]), es[1..], t, e);
      assert (es + [e])[1..] == es[1..] + [e];
    }
  }

  /** The merge of two inputs as plain booleans: requests, state node and the clients' acknowledges. */
  datatype Pair = Pair(r0: bool, r1: bool, q: bool, in0: bool, in1: bool, zReq: bool, zAck: bool, served: seq<nat>,
      acked: seq<nat>)

  /** `s` is a two-input merge in the state `p` describes. */
  ghost predicate Shows(s: Merge, p: Pair) {
    && |s.r| == |s.q| == |s.a0| == |s.ack| == 2
    && s.r[0] == p.r0 && s.r[1] == p.r1 && s.q[1] == p.q && s.a0[0] == p.in0 && s.ack[1] == p.in1
    && s.zReq == p.zReq && s.zAck == p.zAck && s.served == p.served && s.acked == p.acked
  }

  /** The pair after an event, before acknowledges settle. */
  function MovedPair(p: Pair, e: Event): Pair {
    match e
    case Raise(i) => p.(r0 := i == 0 || p.r0, r1 := i == 1 || p.r1)
    case Lower(i) => p.(r0 := i != 0 && p.r0, r1 := i != 1 && p.r1)
    case Decide(_) => p.(q := !p.q)
    case Output => p.(zReq := !p.zReq)
    case Consume =>
      var index := if (p.r1 && !p.q) || p.in1 then 1 else 0;
      p.(zAck := !p.zAck, served := if p.zAck then p.served else p.served + [index])
  }

  function Rises(was0: bool, is0: bool, was1: bool, is1: bool): seq<nat> {
    (if !was0 && is0 then [0] else []) + if !was1 && is1 then [1] else []
  }

  function SettledPair(p: Pair): Pair {
    var in0, in1 := Majority(p.r0 && p.q, p.zAck, p.in0), Majority(p.r1 && !p.q, p.zAck, p.in1);
    p.(in0 := in0, in1 := in1,
       acked := p.acked + Rises(p.in0, in0, p.in1, in1))
  }

  predicate EnabledPair(p: Pair, e: Event) {
    match e
    case Raise(i) => (i == 0 && !p.r0 && !p.in0) || (i == 1 && !p.r1 && !p.in1)
    case Lower(i) => (i == 0 && p.r0 && p.in0) || (i == 1 && p.r1 && p.in1)
    case Decide(k) => k == 1 && Majority(p.r0, !p.r1, p.q) != p.q
    case Output => p.zReq != ((p.r0 && p.q) || (p.r1 && !p.q))
    case Consume => p.zAck != p.zReq
  }

  lemma {:induction false} TwoAccs(s: Merge, p: Pair)
    requires Shows(s, p)
    ensures Acc(s.r, s.q, 0) == p.r0
    ensures Acc(s.r, s.q, 1) == ((p.r0 && p.q) || (p.r1 && !p.q))
    ensures Index(s, 1) == if (p.r1 && !p.q) || p.in1 then 1 else 0
  {
    assert Index(s, 0) == 0;
  }

  lemma {:induction false} MovedTwo(s: Merge, p: Pair, e: Event)
    requires Shows(s, p) && EnabledPair(p, e)
    ensures Enabled(Unfrozen, s, e) && Shows(Moved(s, e), MovedPair(p, e))
  {
    TwoAccs(s, p);
    hide Acc, Index;
  }

  lemma {:induction false} SettleTwo(m: Merge, p: Pair)
    requires Shows(m, p)
    ensures Shows(Settle(m), SettledPair(p).(acked := p.acked))
  {
    assert Settled0(m, 1) == p.zAck;
    assert Grant1(m.r, m.q, 1) == (p.r0 && p.q) && Grant2(m.r, m.q, 1) == (p.r1 && !p.q);
  }

  lemma {:induction false} RisenTwo(s: Merge, u: Merge, p: Pair, t: Pair)
    requires Shows(s, p) && Shows(u, t)
    ensures Risen(s, u, 2) == Rises(p.in0, t.in0, p.in1, t.in1)
  {
    assert Risen(s, u, 0) == [];
    assert Risen(s, u, 1) == Risen(s, u, 0) + if !p.in0 && t.in0 then [0] else [];
  }

  /** A step of the two-input merge, on booleans. */
  lemma {:induction false} PairStep(s: Merge, p: Pair, e: Event)
    requires Shows(s, p) && EnabledPair(p, e)
    ensures Enabled(Unfrozen, s, e) && Shows(Step(s, e), SettledPair(MovedPair(p, e)))
  {
    MovedTwo(s, p, e);
    StepIsSettle(s, e);
    PairSettles(s, Moved(s, e), p, MovedPair(p, e));
    assert |s.r| == 2;
    hide *;
  }

  lemma {:induction false} PairSettles(s: Merge, m: Merge, p: Pair, moved: Pair)
    requires Shows(s, p) && Shows(m, moved) && moved.in0 == p.in0 && moved.in1 == p.in1 && moved.acked == p.acked
    ensures Shows(Settle(m).(acked := s.acked + Risen(s, Settle(m), 2)), SettledPair(moved))
  {
    var u, t := Settle(m), SettledPair(moved).(acked := moved.acked);
    SettleTwo(m, moved);
    RisenTwo(s, u, p, t);
    assert s.acked == p.acked;
    ShowsLogged(u, t, s.acked + Risen(s, u, 2));
    assert SettledPair(moved).acked == moved.acked + Rises(moved.in0, t.in0, moved.in1, t.in1);
    hide Shows, Risen, Majority, Rises, Settle;
  }

  lemma {:induction false} ShowsLogged(u: Merge, p: Pair, acked: seq<nat>)
    requires Shows(u, p)
    ensures Shows(u.(acked := acked), p.(acked := acked))
  {
  }

  lemma {:induction false} PairRun(s: Merge, es: seq<Event>, t: Merge, p: Pair, e: Event)
      returns (longer: seq<Event>, u: Merge)
    requires Shape(s) && Run(Unfrozen, s, es, t) && Shows(t, p) && EnabledPair(p, e)
    ensures Run(Unfrozen, s, longer, u) && Shows(u, SettledPair(MovedPair(p, e)))
  {
    PairStep(t, p, e);
    RunOn(Unfrozen, s, es, t, e);
    longer, u := es + [e], Step(t, e);
  }

  /**
   With the state node unfrozen, a run acknowledges two inputs for one output transaction: the second is
   granted while the first's acknowledge is still up.
   */
  lemma {:induction false} UnfrozenOverAcknowledges() returns (es: seq<Event>, t: Merge)
    ensures Run(Unfrozen, Reset(2), es, t)
    ensures |t.served| == 1 && |t.acked| == 2
  {
    var s := Reset(2);
    t := s;
    assert Shows(s, Pair(false, false, true, false, false, false, false, [], []));
    assert Run(Unfrozen, s, [], s);
    hide Run, Reset;
    assert Rises(false, false, false, false) == Rises(true, true, false, false) == []
             && Rises(false, true, false, false) == [0];
    assert Rises(true, true, false, true) == [1];
    es, t := PairRun(s, [], t, Pair(false, false, true, false, false, false, false, [], []), Raise(0));
    es, t := PairRun(s, es, t, Pair(true, false, true, false, false, false, false, [], []), Raise(1));
    es, t := PairRun(s, es, t, Pair(true, true, true, false, false, false, false, [], []), Output);
    es, t := PairRun(s, es, t, Pair(true, true, true, false, false, true, false, [], []), Consume);
    es, t := PairRun(s, es, t, Pair(true, true, true, true, false, true, true, [0], [0]), Lower(0));
    es, t := PairRun(s, es, t, Pair(false, true, true, true, false, true, true, [0], [0]), Decide(1));
  }
}
