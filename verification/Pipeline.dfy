/**
 An N-stage link pipeline refines a FIFO: controllers `c_i = C(c_{i-1}, ~c_{i+1})` and latches
 transparent while `c_i` is up (cells/rtl/bd_link.v; `LINK_PAIR`, `LATCH_PAIR` in cells/verify/inits.py).
 */
module Pipeline {
  import opened Gates

  /** How long the producer holds its data: to its acknowledge's fall, as required, or only to its request's. */
  datatype DataRule = ToAckFall | ToReqFall

  /**
   The producer's request and data; the controllers and latch outputs; the consumer's acknowledge; and the
   values taken in (as `c[0]` rises) and handed out (as the acknowledge falls).
   */
  datatype Pipe<T> = Pipe(req: bool, din: T, c: seq<bool>, d: seq<T>, ack: bool, accepted: seq<T>, delivered: seq<T>,
      acks: nat)

  datatype Event<T> = Offer(value: T) | Withdraw | Change(value: T) | Control(i: nat) | Latch(i: nat) | Take | Release

  predicate Shape<T>(s: Pipe<T>) {
    |s.c| == |s.d| >= 1
  }

  /** The level before stage `i`. */
  function Before<T>(s: Pipe<T>, i: nat): bool
    requires i < |s.c|
  {
    if i == 0 then s.req else s.c[i - 1]
  }

  /** The level after stage `i`. */
  function After<T>(s: Pipe<T>, i: nat): bool
    requires i < |s.c|
  {
    if i == |s.c| - 1 then s.ack else s.c[i + 1]
  }

  function LatchIn<T>(s: Pipe<T>, i: nat): T
    requires Shape(s) && i < |s.d|
  {
    if i == 0 then s.din else s.d[i - 1]
  }

  /**
   What may happen next. A controller follows `C(c_{i-1}, ~c_{i+1})`, a latch follows its input while its
   controller is up, and a latch has settled before its controller closes it.
   */
  predicate Enabled<T(==)>(rule: DataRule, s: Pipe<T>, e: Event<T>)
    requires Shape(s)
  {
    match e
    case Offer(_) => !s.req && !s.c[0]
    case Withdraw => s.req && s.c[0]
    case Change(_) => !s.req && (rule == ToReqFall || !s.c[0])
    case Control(i) => i < |s.c| && Majority(Before(s, i), !After(s, i), s.c[i]) != s.c[i]
      && (s.c[i] ==> s.d[i] == LatchIn(s, i))
    case Latch(i) => i < |s.c| && s.c[i]
    case Take => s.c[|s.c| - 1] && !s.ack
    case Release => !s.c[|s.c| - 1] && s.ack
  }

  function Step<T>(s: Pipe<T>, e: Event<T>): (t: Pipe<T>)
    requires Shape(s)
    ensures Shape(t) && |t.c| == |s.c|
  {
    match e
    case Offer(v) => s.(req := true, din := v)
    case Withdraw => s.(req := false)
    case Change(v) => s.(din := v)
    case Control(i) =>
      if i >= |s.c| then s
      else
        var taken := if i == 0 && !s.c[0] then [s.din] else [];
        s.(c := s.c[i := !s.c[i]], accepted := s.accepted + taken)
    case Latch(i) => if i < |s.c| then s.(d := s.d[i := LatchIn(s, i)]) else s
    case Take => s.(ack := true, acks := s.acks + 1)
    case Release => s.(ack := false, delivered := s.delivered + [s.d[|s.d| - 1]])
  }

  /** After reset all controllers are down; latches hold anything. */
  ghost predicate Empty<T>(s: Pipe<T>) {
    && Shape(s) && !s.req && !s.ack && (forall i | 0 <= i < |s.c| :: !s.c[i])
    && s.accepted == [] && s.delivered == [] && s.acks == 0
  }

  ghost predicate Run<T>(rule: DataRule, s: Pipe<T>, es: seq<Event<T>>, t: Pipe<T>)
    requires Shape(s)
    decreases |es|
  {
    && Shape(t) && |t.c| == |s.c|
    && if es == [] then s == t else Enabled(rule, s, es[0]) && Run(rule, Step(s, es[0]), es[1..], t)
  }

  // ---- what the pipeline holds --------------------------------------------------

  /** What stage `i` passes on: through open latches, back to the nearest closed one. */
  function Passed<T>(s: Pipe<T>, i: nat): T
    requires Shape(s) && i < |s.c|
  {
    if !s.c[i] then s.d[i] else if i == 0 then s.din else Passed(s, i - 1)
  }

  /** A value rests where a run of raised controllers ends. */
  function TokenAt<T>(s: Pipe<T>, i: nat): seq<T>
    requires Shape(s) && i < |s.c|
  {
    if s.c[i] && !After(s, i) then [Passed(s, i)] else []
  }

  /** The values at rest in the stages below `k`, oldest first. */
  function Tokens<T>(s: Pipe<T>, k: nat): seq<T>
    requires Shape(s) && k <= |s.c|
  {
    if k == 0 then [] else TokenAt(s, k - 1) + Tokens(s, k - 1)
  }

  /** Everything taken in and not yet handed out. */
  function Content<T>(s: Pipe<T>): seq<T>
    requires Shape(s)
  {
    (if s.ack then [Passed(s, |s.c| - 1)] else []) + Tokens(s, |s.c|)
  }

  ghost predicate Inv<T>(s: Pipe<T>) {
    Shape(s) && s.accepted == s.delivered + Content(s) && s.acks == |s.delivered| + if s.ack then 1 else 0
  }

  // ---- each step keeps the content ----------------------------------------------

  /** Stages that look alike up to `k` pass on and hold alike. */
  lemma {:induction false} SamePassed<T>(s: Pipe<T>, t: Pipe<T>, k: nat)
    requires Shape(s) && Shape(t) && |t.c| == |s.c| && k < |s.c|
    requires forall i | 0 <= i <= k :: t.c[i] == s.c[i] && (!s.c[i] ==> t.d[i] == s.d[i])
    requires s.c[0] ==> t.din == s.din
    ensures Passed(t, k) == Passed(s, k)
  {
    if k > 0 {
      SamePassed(s, t, k - 1);
    }
  }

  lemma {:induction false} SameTokens<T>(s: Pipe<T>, t: Pipe<T>, k: nat)
    requires Shape(s) && Shape(t) && |t.c| == |s.c| && k <= |s.c|
    requires forall i: nat | i < k :: t.c[i] == s.c[i] && After(t, i) == After(s, i) && (!s.c[i] ==> t.d[i] == s.d[i])
    requires s.c[0] ==> t.din == s.din
    ensures Tokens(t, k) == Tokens(s, k)
  {
    if k > 0 {
      SamePassed(s, t, k - 1);
      SameTokens(s, t, k - 1);
    }
  }

  /** What happens below stage `i` is unchanged by it; what `i` and later stages pass on agrees from `k` down to `i`. */
  lemma {:induction false} PassedFrom<T>(s: Pipe<T>, t: Pipe<T>, i: nat, k: nat)
    requires Shape(s) && Shape(t) && |t.c| == |s.c| && i <= k < |s.c|
    requires forall j: nat | i < j < |s.c| :: t.c[j] == s.c[j] && t.d[j] == s.d[j]
    requires Passed(t, i) == Passed(s, i)
    ensures Passed(t, k) == Passed(s, k)
  {
    if k > i {
      PassedFrom(s, t, i, k - 1);
    }
  }

  /** Stage `j` stands as it did, between the same levels, and passes on the same value. */
  ghost predicate Alike<T>(s: Pipe<T>, t: Pipe<T>, j: nat) {
    && Shape(s) && Shape(t) && j < |s.c| == |t.c|
    && t.c[j] == s.c[j] && After(t, j) == After(s, j) && Passed(t, j) == Passed(s, j)
  }

  /** If stage `i` moves, whatever stages `i` and below come to hold besides, the whole pipeline does. */
  lemma {:induction false} TokensFrom<T>(s: Pipe<T>, t: Pipe<T>, i: nat, k: nat, more: seq<T>)
    requires Shape(s) && Shape(t) && |t.c| == |s.c| && i < k <= |s.c|
    requires forall j: nat | i < j < |s.c| :: Alike(s, t, j)
    requires Tokens(t, i + 1) == Tokens(s, i + 1) + more
    ensures Tokens(t, k) == Tokens(s, k) + more
  {
    hide Alike, Tokens;
    if k > i + 1 {
      TokensFrom(s, t, i, k - 1, more);
      TokensNext(s, t, k - 1, more);
    }
  }

  lemma {:induction false} TokensNext<T>(s: Pipe<T>, t: Pipe<T>, k: nat, more: seq<T>)
    requires Alike(s, t, k) && Tokens(t, k) == Tokens(s, k) + more
    ensures Tokens(t, k + 1) == Tokens(s, k + 1) + more
  {
    hide Passed;
    var head := TokenAt(s, k);
    assert Tokens(s, k + 1) == head + Tokens(s, k) && Tokens(t, k + 1) == head + Tokens(t, k);
    hide Tokens, TokenAt;
    assert head + (Tokens(s, k) + more) == (head + Tokens(s, k)) + more;
  }

  /**
   A controller moves when the stage before it differs from it and the one after agrees with it; little else
   changes.
   */
  lemma {:induction false} ControlMoves<T>(s: Pipe<T>, i: nat)
    requires Shape(s) && Enabled(ToAckFall, s, Control(i))
    ensures Before(s, i) != s.c[i] && After(s, i) == s.c[i] && (s.c[i] ==> s.d[i] == LatchIn(s, i))
    ensures var t := Step(s, Control(i));
            && t.c == s.c[i := !s.c[i]]
            && t == s.(c := t.c, accepted := if i == 0 && !s.c[0] then s.accepted + [s.din] else s.accepted)
  {
  }

  /** Where neither a stage nor its surroundings have moved, it holds what it did. */
  lemma {:induction false} TokensBelow<T>(s: Pipe<T>, t: Pipe<T>, i: nat)
    requires Shape(s) && 0 < i < |s.c| && t.c == s.c[i := !s.c[i]] && t.d == s.d && t.din == s.din
    ensures Tokens(t, i - 1) == Tokens(s, i - 1) && Passed(t, i - 1) == Passed(s, i - 1)
    ensures Tokens(s, i + 1) == TokenAt(s, i) + (TokenAt(s, i - 1) + Tokens(s, i - 1))
    ensures Tokens(t, i + 1) == TokenAt(t, i) + (TokenAt(t, i - 1) + Tokens(s, i - 1))
  {
    SameTokens(s, t, i - 1);
    SamePassed(s, t, i - 1);
    hide TokenAt, Passed;
  }

  /** A rising controller takes over the value of the stage before it. */
  lemma {:induction false} RisingTokens<T>(s: Pipe<T>, t: Pipe<T>, i: nat)
    requires Shape(s) && 0 < i < |s.c| && t.c == s.c[i := true] && t == s.(c := t.c)
    requires s.c[i - 1] && !s.c[i] && !After(s, i)
    ensures Tokens(t, i + 1) == Tokens(s, i + 1)
  {
    TokensBelow(s, t, i);
    assert Passed(t, i) == Passed(t, i - 1);
    hide Tokens, Passed;
    assert TokenAt(s, i) == [] == TokenAt(t, i - 1);
    assert TokenAt(s, i - 1) == [Passed(s, i - 1)] == TokenAt(t, i);
    hide TokenAt;
    var rest := Tokens(s, i - 1);
    assert [] + (TokenAt(t, i) + rest) == TokenAt(t, i) + ([] + rest);
  }

  /** A falling controller held nothing, and the stage before it neither. */
  lemma {:induction false} FallingTokens<T>(s: Pipe<T>, t: Pipe<T>, i: nat)
    requires Shape(s) && 0 < i < |s.c| && t.c == s.c[i := false] && t == s.(c := t.c)
    requires !s.c[i - 1] && s.c[i] && After(s, i)
    ensures Tokens(t, i + 1) == Tokens(s, i + 1)
  {
    TokensBelow(s, t, i);
    hide Tokens, Passed;
    assert TokenAt(s, i) == [] == TokenAt(t, i);
    assert TokenAt(s, i - 1) == [] == TokenAt(t, i - 1);
  }

  /** The first controller, rising, takes in the data; falling, it held nothing. */
  lemma {:induction false} FirstTokens<T>(s: Pipe<T>, t: Pipe<T>)
    requires Shape(s) && t.c == s.c[0 := !s.c[0]] && t.d == s.d && t.din == s.din && t.ack == s.ack
    requires After(s, 0) == s.c[0]
    ensures Tokens(t, 1) == Tokens(s, 1) + if s.c[0] then [] else [s.din]
  {
    assert Tokens(s, 1) == TokenAt(s, 0) + Tokens(s, 0) && Tokens(t, 1) == TokenAt(t, 0) + Tokens(t, 0);
    assert After(t, 0) == After(s, 0);
  }

  /** Around a moving controller nothing is gained or lost; the first one, rising, takes in the data. */
  lemma {:induction false} ControlTokens<T>(s: Pipe<T>, i: nat)
    requires Shape(s) && Enabled(ToAckFall, s, Control(i))
    ensures var t := Step(s, Control(i));
            Tokens(t, i + 1) == Tokens(s, i + 1) + if i == 0 && !s.c[0] then [s.din] else []
  {
    var t := Step(s, Control(i));
    ControlMoves(s, i);
    hide Tokens, Enabled, Step;
    if i == 0 {
      FirstTokens(s, t);
    } else if s.c[i] {
      FallingTokens(s, t, i);
    } else {
      RisingTokens(s, t, i);
    }
  }

  lemma {:induction false} ControlPassed<T>(s: Pipe<T>, i: nat, j: nat)
    requires Shape(s) && Enabled(ToAckFall, s, Control(i)) && i < j < |s.c|
    ensures Passed(Step(s, Control(i)), j) == Passed(s, j)
  {
    var t := Step(s, Control(i));
    if i > 0 {
      SamePassed(s, t, i - 1);
    }
    assert Passed(t, i + 1) == Passed(s, i + 1);
    PassedFrom(s, t, i + 1, j);
  }

  /** Whatever the controller takes in, the whole pipeline comes to hold. */
  lemma {:induction false} ControlAll<T>(s: Pipe<T>, i: nat)
    requires Shape(s) && Enabled(ToAckFall, s, Control(i))
    ensures var t := Step(s, Control(i));
            Tokens(t, |s.c|) == Tokens(s, |s.c|) + if i == 0 && !s.c[0] then [s.din] else []
  {
    var t := Step(s, Control(i));
    ControlMoves(s, i);
    ControlTokens(s, i);
    forall j: nat | i < j < |s.c| ensures Alike(s, t, j) {
      hide Tokens, Passed, Enabled;
      ControlPassed(s, i, j);
    }
    hide Alike, Tokens, Passed, Enabled, Step;
    TokensFrom(s, t, i, |s.c|, if i == 0 && !s.c[0] then [s.din] else []);
  }

  lemma {:induction false} ControlContent<T>(s: Pipe<T>, i: nat)
    requires Shape(s) && Enabled(ToAckFall, s, Control(i))
    ensures Content(Step(s, Control(i))) == Content(s) + if i == 0 && !s.c[0] then [s.din] else []
  {
    ControlMoves(s, i);
    hide Tokens, Passed, Enabled, Step;
    ControlAll(s, i);
    if s.ack {
      ControlAtEnd(s, i);
    }
  }

  lemma {:induction false} ControlInv<T>(s: Pipe<T>, i: nat)
    requires Inv(s) && Enabled(ToAckFall, s, Control(i))
    ensures Inv(Step(s, Control(i)))
  {
    ControlMoves(s, i);
    ControlContent(s, i);
    hide Content, Enabled;
    assert s.delivered + (Content(s) + [s.din]) == (s.delivered + Content(s)) + [s.din];
  }

  /** What the consumer is being handed does not change. */
  lemma {:induction false} ControlAtEnd<T>(s: Pipe<T>, i: nat)
    requires Shape(s) && Enabled(ToAckFall, s, Control(i)) && s.ack
    ensures Passed(Step(s, Control(i)), |s.c| - 1) == Passed(s, |s.c| - 1)
  {
    if i < |s.c| - 1 {
      ControlPassed(s, i, |s.c| - 1);
    } else if i > 0 {
      SamePassed(s, Step(s, Control(i)), i - 1);
    }
  }

  lemma {:induction false} StepInv<T>(s: Pipe<T>, e: Event<T>)
    requires Inv(s) && Enabled(ToAckFall, s, e)
    ensures Inv(Step(s, e))
  {
    hide Inv, Enabled, Step;
    match e
    case Control(i) => ControlInv(s, i);
    case Take => TakeInv(s);
    case Release => ReleaseInv(s);
    case _ => OtherInv(s, e);
  }

  /** The producer, and latches passing values on, change nothing that is held. */
  lemma {:induction false} OtherInv<T>(s: Pipe<T>, e: Event<T>)
    requires Inv(s) && Enabled(ToAckFall, s, e) && !e.Control? && !e.Take? && !e.Release?
    ensures Inv(Step(s, e))
  {
    var t, n := Step(s, e), |s.c|;
    SameTokens(s, t, n);
    SamePassed(s, t, n - 1);
    hide Tokens, Passed;
    assert Content(t) == Content(s);
    hide Content;
  }

  /** What is at rest below the last stage does not depend on the consumer. */
  lemma {:induction false} LastToken<T>(s: Pipe<T>, t: Pipe<T>)
    requires Shape(s) && t.c == s.c && t.d == s.d && t.din == s.din
    ensures var n := |s.c|;
            && Tokens(s, n) == TokenAt(s, n - 1) + Tokens(s, n - 1)
              && Tokens(t, n) == TokenAt(t, n - 1) + Tokens(s, n - 1)
            && Passed(t, n - 1) == Passed(s, n - 1)
  {
    SameTokens(s, t, |s.c| - 1);
    SamePassed(s, t, |s.c| - 1);
    hide TokenAt, Passed;
  }

  /** The consumer's acknowledge turns the last resting value into the one being handed out. */
  lemma {:induction false} TakeInv<T>(s: Pipe<T>)
    requires Inv(s) && Enabled(ToAckFall, s, Take)
    ensures Inv(Step(s, Take))
  {
    LastToken(s, Step(s, Take));
    hide Tokens, Passed;
    assert Content(Step(s, Take)) == Content(s);
  }

  /** Its fall lets it go. */
  lemma {:induction false} ReleaseInv<T>(s: Pipe<T>)
    requires Inv(s) && Enabled(ToAckFall, s, Release)
    ensures Inv(Step(s, Release))
  {
    var t, n := Step(s, Release), |s.c|;
    LastToken(s, t);
    assert Passed(s, n - 1) == s.d[n - 1];
    hide Tokens, Passed;
    assert Content(s) == [s.d[n - 1]] + Content(t);
    assert s.delivered + ([s.d[n - 1]] + Content(t)) == (s.delivered + [s.d[n - 1]]) + Content(t);
  }

  lemma {:induction false} RunInv<T>(s: Pipe<T>, es: seq<Event<T>>, t: Pipe<T>)
    requires Shape(s) && Inv(s) && Run(ToAckFall, s, es, t)
    ensures Inv(t)
    decreases |es|
  {
    hide Inv;
    if es != [] {
      StepInv(s, es[0]);
      RunInv(Step(s, es[0]), es[1..], t);
    }
  }

  lemma {:induction false} EmptyHolds<T>(s: Pipe<T>, k: nat)
    requires Empty(s) && k <= |s.c|
    ensures Tokens(s, k) == []
  {
    if k > 0 {
      EmptyHolds(s, k - 1);
    }
  }

  lemma {:induction false} AtMostHalf<T>(s: Pipe<T>, k: nat)
    requires Shape(s) && k <= |s.c|
    ensures |Tokens(s, k)| <= (k + if k == 0 || !(if k == |s.c| then s.ack else s.c[k]) then 1 else 0) / 2
  {
    if k > 0 {
      AtMostHalf(s, k - 1);
    }
  }

  /**
   In every run the values handed out are the first of those taken in, in order, and what is between is what
   the stages hold: at most half a value per stage, rounded up, besides the one being acknowledged.
   */
  lemma {:induction false} PipelineIsFifo<T>(s: Pipe<T>, es: seq<Event<T>>, t: Pipe<T>)
    requires Empty(s) && Run(ToAckFall, s, es, t)
    ensures t.accepted == t.delivered + Content(t) && t.delivered <= t.accepted
    ensures t.acks <= |t.accepted| <= t.acks + (|t.c| + 1) / 2
    ensures |t.accepted| - |t.delivered| <= if t.ack then |t.c| / 2 + 1 else (|t.c| + 1) / 2
  {
    EmptyHolds(s, |s.c|);
    RunInv(s, es, t);
    AtMostHalf(t, |t.c|);
  }

  // ---- data let go too early ----------------------------------------------------

  lemma {:induction false} RunOn<T>(rule: DataRule, s: Pipe<T>, es: seq<Event<T>>, t: Pipe<T>, e: Event<T>)
    requires Shape(s) && Run(rule, s, es, t) && Enabled(rule, t, e)
    ensures Run(rule, s, es + [e], Step(t, e))
    decreases |es|
  {
    if es == [] {
      assert [e][1..] == [];
    } else {
      RunOn(rule, Step(s, es[0]), es[1..], t, e);
      assert (es + [e])[1..] == es[1..] + [e];
    }
  }

  /** A one-stage pipeline. */
  function One(req: bool, din: nat, c: bool, d: nat, ack: bool, accepted: seq<nat>, delivered: seq<nat>,
      acks: nat): Pipe<nat> {
    Pipe(req, din, [c], [d], ack, accepted, delivered, acks)
  }

  /** The value 1 is taken in; the data becomes 2 when the request falls. */
  lemma {:induction false} ChangedTooEarly(s: Pipe<nat>) returns (es: seq<Event<nat>>)
    requires s == One(false, 0, false, 0, false, [], [], 0)
    ensures Run(ToReqFall, s, es, One(false, 2, true, 0, false, [1], [], 0))
  {
    assert Run(ToReqFall, s, [], s);
    assert [false][0 := true] == [true];
    assert [] + [1] == [1];
    hide Run;
    RunOn(ToReqFall, s, [], s, Offer(1));
    es := [] + [Offer(1)];
    RunOn(ToReqFall, s, es, One(true, 1, false, 0, false, [], [], 0), Control(0));
    es := es + [Control(0)];
    RunOn(ToReqFall, s, es, One(true, 1, true, 0, false, [1], [], 0), Withdraw);
    es := es + [Withdraw];
    RunOn(ToReqFall, s, es, One(false, 1, true, 0, false, [1], [], 0), Change(2));
    es := es + [Change(2)];
  }

  /** The open latch lets it through, and the consumer acknowledges. */
  lemma {:induction false} LatchedAndTaken(s: Pipe<nat>, before: seq<Event<nat>>) returns (es: seq<Event<nat>>)
    requires Shape(s) && Run(ToReqFall, s, before, One(false, 2, true, 0, false, [1], [], 0))
    ensures Run(ToReqFall, s, es, One(false, 2, true, 2, true, [1], [], 1))
  {
    var latch: seq<nat> := [0];
    assert latch[0 := 2] == [2];
    hide Run;
    RunOn(ToReqFall, s, before, One(false, 2, true, 0, false, [1], [], 0), Latch(0));
    es := before + [Latch(0)];
    RunOn(ToReqFall, s, es, One(false, 2, true, 2, false, [1], [], 0), Take);
    es := es + [Take];
  }

  /** With data held only until the request falls, a run hands out a value that was never taken in. */
  lemma {:induction false} EarlyChangeCorrupts() returns (s: Pipe<nat>, es: seq<Event<nat>>, t: Pipe<nat>)
    ensures Empty(s) && Run(ToReqFall, s, es, t) && t.accepted == [1] && t.delivered == [2]
  {
    s := One(false, 0, false, 0, false, [], [], 0);
    assert Empty(s);
    es := ChangedTooEarly(s);
    assert [true][0 := false] == [false];
    assert [] + [2] == [2] && [1] + [] == [1];
    hide Run, Empty;
    es := LatchedAndTaken(s, es);
    RunOn(ToReqFall, s, es, One(false, 2, true, 2, true, [1], [], 1), Control(0));
    es := es + [Control(0)];
    RunOn(ToReqFall, s, es, One(false, 2, false, 2, true, [1], [], 1), Release);
    es := es + [Release];
    t := One(false, 2, false, 2, false, [1], [2], 1);
  }
}
