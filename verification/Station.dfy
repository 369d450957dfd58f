/**
 One memory access station (`emit_unit` in bdc/mem.py): its four gates between a join of operands,
 a consumer and a port, run in any order.
 */
module Station {
  import opened Logic = Gates

  /** The gate outputs: `joined`, `hold`, `done` and the port claim `p_req`. */
  datatype Gates = Gates(joined: bool, hold: bool, done: bool, claim: bool)

  datatype Gate = Join | Hold | Done | Claim

  /** What each gate's inputs ask of it. */
  function Target(g: Gate, req: seq<bool>, u: Gates, portAck: bool, zAck: bool): bool {
    match g
    case Join => CElement(req, u.joined)
    case Hold => zAck || (u.hold && portAck)
    case Done => u.joined && (portAck || u.done)
    case Claim => u.joined && !u.done
  }

  function Output(g: Gate, u: Gates): bool {
    match g
    case Join => u.joined
    case Hold => u.hold
    case Done => u.done
    case Claim => u.claim
  }

  function Toggle(g: Gate, u: Gates): Gates {
    match g
    case Join => u.(joined := !u.joined)
    case Hold => u.(hold := !u.hold)
    case Done => u.(done := !u.done)
    case Claim => u.(claim := !u.claim)
  }

  predicate Excited(g: Gate, req: seq<bool>, u: Gates, portAck: bool, zAck: bool) {
    Target(g, req, u, portAck, zAck) != Output(g, u)
  }

  // ---- the station and its surroundings -----------------------------------------

  /** Operands acknowledged by `hold`, or straight by the consumer (`BDC_MEM_NAIVE_ACK`). */
  datatype Wiring = Held | Naive

  /**
   A station with its producers, consumer and port, and how often each of these has happened:
   operand sets joined, port claims raised, accesses acknowledged, results offered, operand sets released.
   */
  datatype State = State(req: seq<bool>, u: Gates, portAck: bool, zAck: bool,
                         sets: nat, claims: nat, accesses: nat, results: nat, releases: nat)

  datatype Event = Offer(i: nat) | Drop(i: nat) | Fire(g: Gate) | Port | Consume

  function Ack(w: Wiring, s: State): bool {
    if w == Held then s.u.hold else s.zAck
  }

  predicate Enabled(w: Wiring, s: State, e: Event) {
    match e
    case Offer(i) => i < |s.req| && !s.req[i] && !Ack(w, s)
    case Drop(i) => i < |s.req| && s.req[i] && Ack(w, s)
    case Fire(g) => Excited(g, s.req, s.u, s.portAck, s.zAck)
    case Port => s.portAck != s.u.claim
    case Consume => s.zAck != s.u.done
  }

  function Count(b: bool): nat {
    if b then 1 else 0
  }

  function Step(s: State, e: Event): State {
    match e
    case Offer(i) => if i < |s.req| then s.(req := s.req[i := true]) else s
    case Drop(i) => if i < |s.req| then s.(req := s.req[i := false]) else s
    case Port => s.(portAck := !s.portAck, accesses := s.accesses + Count(!s.portAck))
    case Consume => s.(zAck := !s.zAck)
    case Fire(g) =>
      var t := s.(u := Toggle(g, s.u));
      match g
      case Join => t.(sets := s.sets + Count(!s.u.joined))
      case Hold => t.(releases := s.releases + Count(!s.u.hold))
      case Done => t.(results := s.results + Count(!s.u.done))
      case Claim => t.(claims := s.claims + Count(!s.u.claim))
  }

  /** After reset, with `n` operands. */
  function Reset(n: nat): State {
    State(seq(n, _ => false), Gates(false, false, false, false), false, false, 0, 0, 0, 0, 0)
  }

  /** `t` is reached from `s` by the events of `es`, each enabled when it happens. */
  ghost predicate Run(w: Wiring, s: State, es: seq<Event>, t: State)
    decreases |es|
  {
    if es == [] then s == t else Enabled(w, s, es[0]) && Run(w, Step(s, es[0]), es[1..], t)
  }

  // ---- what every run keeps -----------------------------------------------------

  /**
   The control states of a station seen from its boundary: idle, claiming and answered before its
   operands are released, releasing, and waiting for the port and the consumer to return to zero.
   */
  predicate Phased(req: seq<bool>, u: Gates, portAck: bool, zAck: bool) {
    if u.hold then
      && (u.claim ==> portAck) && (u.done ==> zAck)
      && (if u.joined then u.done else AllDown(req))
    else if u.joined then
      && AllUp(req)
      && (if u.done then u.claim ==> portAck else !zAck && (portAck ==> u.claim))
    else
      !u.done && !u.claim && !portAck && !zAck
  }

  /** The operand set has not been claimed, has not been accessed, has not been answered, has not been released. */
  ghost predicate Counted(s: State) {
    var kept := s.u.joined && !s.u.hold;
    && s.sets == s.releases + Count(kept)
    && s.sets == s.results + Count(kept && !s.u.done)
    && s.sets == s.accesses + Count(kept && !s.u.done && !s.portAck)
    && s.sets == s.claims + Count(kept && !s.u.done && !s.portAck && !s.u.claim)
  }

  ghost predicate Inv(s: State) {
    s.req != [] && Phased(s.req, s.u, s.portAck, s.zAck) && Counted(s)
  }

  lemma {:induction false} ResetInv(n: nat)
    requires n > 0
    ensures Inv(Reset(n))
  {
    assert Reset(n).req[0] == false;
  }

  lemma {:induction false} StepInv(s: State, e: Event)
    requires Inv(s) && Enabled(Held, s, e)
    ensures Inv(Step(s, e))
  {
    if e.Fire? {
      FireInv(s, e.g);
    } else {
      hide Target;
    }
  }

  lemma {:induction false} FireInv(s: State, g: Gate)
    requires Inv(s) && Enabled(Held, s, Fire(g))
    ensures Inv(Step(s, Fire(g)))
  {
    assert s.req[0] ==> !AllDown(s.req);
  }

  lemma {:induction false} RunInv(s: State, es: seq<Event>, t: State)
    requires Inv(s) && Run(Held, s, es, t)
    ensures Inv(t) && |t.req| == |s.req|
    decreases |es|
  {
    if es != [] {
      StepInv(s, es[0]);
      RunInv(Step(s, es[0]), es[1..], t);
    }
  }

  /** In every run each operand set makes one claim, one access and one result, and nothing else does. */
  lemma {:induction false} OneAccessPerSet(n: nat, es: seq<Event>, t: State)
    requires n > 0 && Run(Held, Reset(n), es, t)
    ensures t.releases <= t.results <= t.accesses <= t.claims <= t.sets <= t.releases + 1
    ensures !t.u.joined ==> t.sets == t.claims == t.accesses == t.results == t.releases
  {
    ResetInv(n);
    RunInv(Reset(n), es, t);
  }

  /** Operands are offered again only when the port has returned to zero. */
  lemma {:induction false} ReofferedAtPortQuiet(n: nat, es: seq<Event>, t: State, i: nat)
    requires n > 0 && Run(Held, Reset(n), es, t) && Enabled(Held, t, Offer(i))
    ensures !t.portAck && !t.u.claim && !t.u.joined
  {
    ResetInv(n);
    RunInv(Reset(n), es, t);
  }

  /** No event takes away another's turn: nothing glitches, whatever the gates' delays. */
  lemma {:induction false} Persistent(n: nat, es: seq<Event>, t: State, e: Event, f: Event)
    requires n > 0 && Run(Held, Reset(n), es, t) && Enabled(Held, t, e) && Enabled(Held, t, f) && e != f
    ensures Enabled(Held, Step(t, e), f)
  {
    ResetInv(n);
    RunInv(Reset(n), es, t);
    StaysExcited(t, e, f);
  }

  lemma {:induction false} StaysExcited(s: State, e: Event, f: Event)
    requires Inv(s) && Enabled(Held, s, e) && Enabled(Held, s, f) && e != f
    ensures Enabled(Held, Step(s, e), f)
  {
    assert AllUp(s.req) ==> s.req[0];
    assert AllDown(s.req) ==> !s.req[0];
    if e.Offer? || e.Drop? {
      AfterOperand(s, e, f);
    } else {
      AfterGate(s, e, f);
    }
  }

  /** While an operand moves, the join is not about to, and no other gate sees it. */
  lemma {:induction false} AfterOperand(s: State, e: Event, f: Event)
    requires Inv(s) && Enabled(Held, s, e) && Enabled(Held, s, f) && e != f && (e.Offer? || e.Drop?)
    ensures Enabled(Held, Step(s, e), f)
  {
    assert if e.Offer? then !AllUp(s.req) else !AllDown(s.req);
    assert f != Fire(Join);
    hide AllUp, AllDown, Counted;
  }

  /** A gate, the port or the consumer moves: the operands stay as they are. */
  lemma {:induction false} AfterGate(s: State, e: Event, f: Event)
    requires Inv(s) && Enabled(Held, s, e) && Enabled(Held, s, f) && e != f && !e.Offer? && !e.Drop?
    requires !(AllUp(s.req) && AllDown(s.req))
    ensures Enabled(Held, Step(s, e), f)
  {
    assert f.Offer? ==> !AllUp(s.req);
    assert f.Drop? ==> !AllDown(s.req);
    hide AllUp, AllDown, Counted;
  }

  /** Something can always happen. */
  lemma {:induction false} NeverStuck(n: nat, es: seq<Event>, t: State) returns (e: Event)
    requires n > 0 && Run(Held, Reset(n), es, t)
    ensures Enabled(Held, t, e)
  {
    ResetInv(n);
    RunInv(Reset(n), es, t);
    e := NextEvent(t);
  }

  lemma {:induction false} NextEvent(s: State) returns (e: Event)
    requires Inv(s)
    ensures Enabled(Held, s, e)
  {
    if !s.u.hold && !s.u.joined {
      if AllUp(s.req) {
        e := Fire(Join);
      } else {
        var i: nat :| i < |s.req| && !s.req[i];
        e := Offer(i);
      }
    } else if s.u.hold && s.u.joined && !AllDown(s.req) {
      var i: nat :| i < |s.req| && s.req[i];
      e := Drop(i);
    } else if s.u.hold && s.u.joined {
      assert !s.req[0];
      e := Fire(Join);
    } else {
      e := if s.portAck != s.u.claim then Port
           else if s.zAck != s.u.done then Consume
           else if Excited(Claim, s.req, s.u, s.portAck, s.zAck) then Fire(Claim)
           else if Excited(Done, s.req, s.u, s.portAck, s.zAck) then Fire(Done)
           else Fire(Hold);
    }
  }

  // ---- the negative control -----------------------------------------------------

  /** One more event at the end of a run. */
  lemma {:induction false} RunOn(w: Wiring, s: State, es: seq<Event>, t: State, e: Event)
    requires Run(w, s, es, t) && Enabled(w, t, e)
    ensures Run(w, s, es + [e], Step(t, e))
    decreases |es|
  {
    if es == [] {
      assert [e][1..] == [];
    } else {
      RunOn(w, Step(s, es[0]), es[1..], t, e);
      assert (es + [e])[1..] == es[1..] + [e];
    }
  }

  /** The single-operand station in a given control state. */
  function Single(req: bool, u: Gates, portAck: bool, zAck: bool, counts: (nat, nat, nat, nat, nat)): State {
    State([req], u, portAck, zAck, counts.0, counts.1, counts.2, counts.3, counts.4)
  }

  lemma {:induction false} OneOperand(req: bool)
    ensures AllUp([req]) == req && AllDown([req]) == !req
    ensures forall b: bool :: [req][0 := b] == [b]
  {
    assert [req][0] == req;
  }

  function IdleSingle(): State {
    Single(false, Gates(false, false, false, false), false, false, (0, 0, 0, 0, 0))
  }

  lemma {:induction false} ResetSingle()
    ensures Reset(1) == IdleSingle()
  {
    assert Reset(1).req == [false];
  }

  lemma {:induction false} RunNone(w: Wiring, s: State)
    ensures Run(w, s, [], s)
  {
  }

  /** The first operand set claims the port. */
  lemma {:induction false} FirstClaimed() returns (es: seq<Event>)
    ensures Run(Naive, IdleSingle(), es, Single(true, Gates(true, false, false, true), false, false, (1, 1, 0, 0, 0)))
  {
    OneOperand(true);
    OneOperand(false);
    RunNone(Naive, IdleSingle());
    hide Run, AllUp, AllDown;
    es := [];
    RunOn(Naive, IdleSingle(), es, Single(false, Gates(false, false, false, false), false, false, (0, 0, 0, 0, 0)),
        Offer(0));
    es := es + [Offer(0)];
    RunOn(Naive, IdleSingle(), es, Single(true, Gates(false, false, false, false), false, false, (0, 0, 0, 0, 0)),
        Fire(Join));
    es := es + [Fire(Join)];
    RunOn(Naive, IdleSingle(), es, Single(true, Gates(true, false, false, false), false, false, (1, 0, 0, 0, 0)),
        Fire(Claim));
    es := es + [Fire(Claim)];
  }

  /** It is accessed, and answered. */
  lemma {:induction false} FirstServed() returns (es: seq<Event>)
    ensures Run(Naive, IdleSingle(), es, Single(true, Gates(true, false, true, true), true, false, (1, 1, 1, 1, 0)))
  {
    es := FirstClaimed();
    hide Run, AllUp, AllDown;
    RunOn(Naive, IdleSingle(), es, Single(true, Gates(true, false, false, true), false, false, (1, 1, 0, 0, 0)), Port);
    es := es + [Port];
    RunOn(Naive, IdleSingle(), es, Single(true, Gates(true, false, false, true), true, false, (1, 1, 1, 0, 0)),
        Fire(Done));
    es := es + [Fire(Done)];
  }

  /** The consumer takes the result and the operand goes, while the port is still up. */
  lemma {:induction false} FirstTaken() returns (es: seq<Event>)
    ensures Run(Naive, IdleSingle(), es, Single(false, Gates(false, false, false, false), true, false, (1, 1, 1, 1, 0)))
  {
    es := FirstServed();
    OneOperand(true);
    OneOperand(false);
    hide Run, AllUp, AllDown;
    RunOn(Naive, IdleSingle(), es, Single(true, Gates(true, false, true, true), true, false, (1, 1, 1, 1, 0)), Consume);
    es := es + [Consume];
    RunOn(Naive, IdleSingle(), es, Single(true, Gates(true, false, true, true), true, true, (1, 1, 1, 1, 0)), Drop(0));
    es := es + [Drop(0)];
    RunOn(Naive, IdleSingle(), es, Single(false, Gates(true, false, true, true), true, true, (1, 1, 1, 1, 0)),
        Fire(Claim));
    es := es + [Fire(Claim)];
    RunOn(Naive, IdleSingle(), es, Single(false, Gates(true, false, true, false), true, true, (1, 1, 1, 1, 0)),
        Fire(Join));
    es := es + [Fire(Join)];
    RunOn(Naive, IdleSingle(), es, Single(false, Gates(false, false, true, false), true, true, (1, 1, 1, 1, 0)),
        Fire(Done));
    es := es + [Fire(Done)];
    RunOn(Naive, IdleSingle(), es, Single(false, Gates(false, false, false, false), true, true, (1, 1, 1, 1, 0)),
        Consume);
    es := es + [Consume];
  }

  /** With operands acknowledged straight by the consumer, a second operand set is answered without an access. */
  lemma {:induction false} NaiveAckSwallows() returns (es: seq<Event>, t: State)
    ensures Run(Naive, Reset(1), es, t)
    ensures t.sets == 2 && t.results == 2 && t.claims == 1 && t.accesses == 1
  {
    ResetSingle();
    es := FirstTaken();
    OneOperand(true);
    OneOperand(false);
    hide Run, AllUp, AllDown;
    RunOn(Naive, IdleSingle(), es, Single(false, Gates(false, false, false, false), true, false, (1, 1, 1, 1, 0)),
        Offer(0));
    es := es + [Offer(0)];
    RunOn(Naive, IdleSingle(), es, Single(true, Gates(false, false, false, false), true, false, (1, 1, 1, 1, 0)),
        Fire(Join));
    es := es + [Fire(Join)];
    RunOn(Naive, IdleSingle(), es, Single(true, Gates(true, false, false, false), true, false, (2, 1, 1, 1, 0)),
        Fire(Done));
    es := es + [Fire(Done)];
    t := Single(true, Gates(true, false, true, false), true, false, (2, 1, 1, 2, 0));
  }
}
