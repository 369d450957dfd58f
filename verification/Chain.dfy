/**
 A store station chained to a load station by its completion token, sharing one port
 (`emit_unit` and `emit_port` in bdc/mem.py, `ARB_STATE_R0_HOLD` in cells/verify/inits.py).
 */
module Chain {
  import opened Logic = Gates
  import opened Station

  datatype Slot = StoreSlot | LoadSlot

  /** `latched`: claims let go by themselves (`done`). `arbitrated`: an arbiter in front of the RAM. */
  datatype Design = Design(latched: bool, arbitrated: bool)

  /** The design as built. */
  const BUILT: Design := Design(true, true)

  /**
   Both stations, the arbiter's state node `q`, the RAM's acknowledge `a0` and the slots' own
   `a1` and `a2`, the final consumer, the RAM clock edges in order, and the accesses each station reports.
   The load's first operand is the store's completion; `others` are the rest.
   */
  datatype Chained = Chained(sReq: seq<bool>, s: Gates, others: seq<bool>, l: Gates, q: bool, a0: bool, a1: bool,
      a2: bool, z: bool,
                         edges: seq<Slot>, stores: nat, loads: nat)

  datatype Move = StoreOffer(i: nat) | StoreDrop(i: nat) | LoadOffer(i: nat) | LoadDrop(i: nat)
                 | StoreFire(g: Gate) | LoadFire(g: Gate) | Arbitrate | Ram | Take

  function PortAck(d: Design, own: bool, shared: bool): bool {
    if d.arbitrated then own else shared
  }

  /** A station's result channel: `done`, or the acknowledge gated by `joined` before `done` existed. */
  function Result(d: Design, u: Gates, portAck: bool): bool {
    if d.latched then u.done else u.joined && portAck
  }

  function LoadReq(d: Design, c: Chained): seq<bool> {
    [Result(d, c.s, PortAck(d, c.a1, c.a0))] + c.others
  }

  /** What a station's gate is asked for in design `d`. */
  function Wanted(d: Design, g: Gate, req: seq<bool>, u: Gates, portAck: bool, zAck: bool): bool {
    if d.latched || g == Join || g == Hold then Target(g, req, u, portAck, zAck)
    else if g == Claim then u.joined
    else u.done
  }

  function Grant1(c: Chained): bool {
    c.s.claim && c.q
  }

  function Grant2(c: Chained): bool {
    c.l.claim && !c.q
  }

  /** The request the RAM sees. */
  function RamReq(d: Design, c: Chained): bool {
    if d.arbitrated then Grant1(c) || Grant2(c) else c.s.claim || c.l.claim
  }

  /** The arbiter's state node: frozen while the RAM acknowledges. */
  function NextState(c: Chained): bool {
    if c.a0 then c.q else Majority(c.s.claim, !c.l.claim, c.q)
  }

  predicate Enabled(d: Design, c: Chained, e: Move) {
    match e
    case StoreOffer(i) => i < |c.sReq| && !c.sReq[i] && !c.s.hold
    case StoreDrop(i) => i < |c.sReq| && c.sReq[i] && c.s.hold
    case LoadOffer(i) => i < |c.others| && !c.others[i] && !c.l.hold
    case LoadDrop(i) => i < |c.others| && c.others[i] && c.l.hold
    case StoreFire(g) => Wanted(d, g, c.sReq, c.s, PortAck(d, c.a1, c.a0), c.l.hold) != Output(g, c.s)
    case LoadFire(g) => Wanted(d, g, LoadReq(d, c), c.l, PortAck(d, c.a2, c.a0), c.z) != Output(g, c.l)
    case Arbitrate => d.arbitrated && NextState(c) != c.q
    case Ram => RamReq(d, c) != c.a0
    case Take => c.z != Result(d, c.l, PortAck(d, c.a2, c.a0))
  }

  function SetAt(req: seq<bool>, i: nat, b: bool): seq<bool> {
    if i < |req| then req[i := b] else req
  }

  /** Whose access the RAM makes, if it makes one. */
  function Chosen(d: Design, c: Chained): Slot {
    if (if d.arbitrated then Grant1(c) else c.s.claim) then StoreSlot else LoadSlot
  }

  /** The RAM answers, and the slots' acknowledges settle with it; a rise is a RAM clock edge. */
  function RamStep(d: Design, c: Chained): Chained {
    var up := !c.a0;
    c.(a0 := up, a1 := Majority(Grant1(c), up, c.a1), a2 := Majority(Grant2(c), up, c.a2),
       edges := if up then c.edges + [Chosen(d, c)] else c.edges)
  }

  function Step(d: Design, c: Chained, e: Move): Chained {
    match e
    case StoreOffer(i) => c.(sReq := SetAt(c.sReq, i, true))
    case StoreDrop(i) => c.(sReq := SetAt(c.sReq, i, false))
    case LoadOffer(i) => c.(others := SetAt(c.others, i, true))
    case LoadDrop(i) => c.(others := SetAt(c.others, i, false))
    case StoreFire(g) => c.(s := Toggle(g, c.s), stores := c.stores + Count(g == Done && !c.s.done))
    case LoadFire(g) => c.(l := Toggle(g, c.l), loads := c.loads + Count(g == Done && !c.l.done))
    case Arbitrate => c.(q := !c.q)
    case Ram => RamStep(d, c)
    case Take => c.(z := !c.z)
  }

  function Low(n: nat): seq<bool> {
    seq(n, _ => false)
  }

  const QUIET := Gates(false, false, false, false)

  /** After reset: the store has `n` operands, the load `m` besides the token, and `q` is set. */
  function Reset(n: nat, m: nat): Chained {
    Chained(Low(n), QUIET, Low(m), QUIET, true, false, false, false, false, [], 0, 0)
  }

  ghost predicate Run(d: Design, c: Chained, es: seq<Move>, t: Chained)
    decreases |es|
  {
    if es == [] then c == t else Enabled(d, c, es[0]) && Run(d, Step(d, c, es[0]), es[1..], t)
  }

  // ---- what every run of the built chain keeps ----------------------------------

  /** Each station as its neighbours see it, and an arbiter that acknowledges only the slot it granted. */
  predicate Linked(c: Chained) {
    && c.sReq != []
    && Phased(c.sReq, c.s, c.a1, c.l.hold)
    && Phased(LoadReq(BUILT, c), c.l, c.a2, c.z)
    && (c.a1 ==> c.q) && (c.a2 ==> !c.q) && c.a0 == (c.a1 || c.a2)
  }

  predicate Alternates(edges: seq<Slot>) {
    forall i | 0 <= i < |edges| :: edges[i] == if i % 2 == 0 then StoreSlot else LoadSlot
  }

  /** The store has had its RAM edge and the load, for this token, has not. */
  predicate Owed(c: Chained) {
    c.s.joined && (c.a1 || c.s.done) && !c.l.hold && !c.a2 && !c.l.done
  }

  /** A station has had its RAM edge and not reported it yet. */
  predicate Unreported(u: Gates, portAck: bool) {
    u.joined && !u.hold && !u.done && portAck
  }

  predicate Logged(c: Chained) {
    && Alternates(c.edges)
    && |c.edges| % 2 == Count(Owed(c))
    && (|c.edges| + 1) / 2 == c.stores + Count(Unreported(c.s, c.a1))
    && |c.edges| / 2 == c.loads + Count(Unreported(c.l, c.a2))
  }

  predicate Inv(c: Chained) {
    Linked(c) && Logged(c)
  }

  lemma {:induction false} ResetInv(n: nat, m: nat)
    requires n > 0
    ensures Inv(Reset(n, m))
  {
    assert !Reset(n, m).sReq[0];
    assert !LoadReq(BUILT, Reset(n, m))[0];
  }

  lemma {:induction false} OperandStep(c: Chained, e: Move)
    requires Inv(c) && Enabled(BUILT, c, e) && (e.StoreOffer? || e.StoreDrop? || e.LoadOffer? || e.LoadDrop?)
    ensures Inv(Step(BUILT, c, e))
  {
    var t := Step(BUILT, c, e);
    assert LoadReq(BUILT, c)[0] == LoadReq(BUILT, t)[0];
    assert forall i | 0 <= i < |c.others| :: LoadReq(BUILT, c)[i + 1] == c.others[i]
             && LoadReq(BUILT, t)[i + 1] == t.others[i];
  }

  /** The load's first operand is the store's completion. */
  lemma {:induction false} TokenFirst(c: Chained)
    ensures AllUp(LoadReq(BUILT, c)) ==> c.s.done
    ensures AllDown(LoadReq(BUILT, c)) ==> !c.s.done
  {
    assert LoadReq(BUILT, c)[0] == c.s.done;
  }

  lemma {:induction false} RamInv(c: Chained)
    requires Inv(c) && Enabled(BUILT, c, Ram)
    ensures Inv(Step(BUILT, c, Ram))
  {
    TokenFirst(c);
    assert LoadReq(BUILT, Step(BUILT, c, Ram)) == LoadReq(BUILT, c);
    hide AllUp, AllDown, LoadReq;
  }

  lemma {:induction false} ConsumerInv(c: Chained, e: Move)
    requires Inv(c) && Enabled(BUILT, c, e) && (e.Take? || e.Arbitrate?)
    ensures Inv(Step(BUILT, c, e))
  {
    hide AllUp, AllDown;
  }

  lemma {:induction false} StoreFireLinked(c: Chained, g: Gate)
    requires Linked(c) && Enabled(BUILT, c, StoreFire(g))
    ensures Linked(Step(BUILT, c, StoreFire(g)))
  {
    TokenFirst(c);
    assert c.sReq[0] ==> !AllDown(c.sReq);
    assert !c.sReq[0] ==> !AllUp(c.sReq);
    var t := Step(BUILT, c, StoreFire(g));
    if g != Done {
      assert LoadReq(BUILT, t) == LoadReq(BUILT, c);
      hide AllUp, AllDown, LoadReq;
    } else {
      TokenFalls(c, t);
      hide AllUp, AllDown, LoadReq;
    }
  }

  /** When the token falls to join others already down, all are down; when it rises, nobody minds. */
  lemma {:induction false} TokenFalls(c: Chained, t: Chained)
    requires t.others == c.others
    ensures AllDown(LoadReq(BUILT, c)) && !t.s.done ==> AllDown(LoadReq(BUILT, t))
    ensures AllUp(LoadReq(BUILT, c)) && t.s.done ==> AllUp(LoadReq(BUILT, t))
  {
    assert forall i | 0 <= i < |c.others| :: LoadReq(BUILT, c)[i + 1] == c.others[i];
  }

  lemma {:induction false} StoreFireLogged(c: Chained, g: Gate)
    requires Linked(c) && Logged(c) && Enabled(BUILT, c, StoreFire(g))
    ensures Logged(Step(BUILT, c, StoreFire(g)))
  {
    TokenFirst(c);
    assert c.sReq[0] ==> !AllDown(c.sReq);
    assert !c.sReq[0] ==> !AllUp(c.sReq);
    hide AllUp, AllDown, LoadReq, Alternates;
  }

  lemma {:induction false} StoreFireInv(c: Chained, g: Gate)
    requires Inv(c) && Enabled(BUILT, c, StoreFire(g))
    ensures Inv(Step(BUILT, c, StoreFire(g)))
  {
    StoreFireLinked(c, g);
    StoreFireLogged(c, g);
    hide Linked, Logged, Enabled, Step;
  }

  lemma {:induction false} LoadFireInv(c: Chained, g: Gate)
    requires Inv(c) && Enabled(BUILT, c, LoadFire(g))
    ensures Inv(Step(BUILT, c, LoadFire(g)))
  {
    TokenFirst(c);
  }

  lemma {:induction false} StepInv(c: Chained, e: Move)
    requires Inv(c) && Enabled(BUILT, c, e)
    ensures Inv(Step(BUILT, c, e))
  {
    hide Inv, Enabled, Step;
    match e
    case StoreFire(g) => StoreFireInv(c, g);
    case LoadFire(g) => LoadFireInv(c, g);
    case Ram => RamInv(c);
    case Take => ConsumerInv(c, e);
    case Arbitrate => ConsumerInv(c, e);
    case StoreOffer(_) => OperandStep(c, e);
    case StoreDrop(_) => OperandStep(c, e);
    case LoadOffer(_) => OperandStep(c, e);
    case LoadDrop(_) => OperandStep(c, e);
  }

  lemma {:induction false} RunInv(c: Chained, es: seq<Move>, t: Chained)
    requires Inv(c) && Run(BUILT, c, es, t)
    ensures Inv(t)
    decreases |es|
  {
    hide Inv, Enabled, Step;
    if es != [] {
      StepInv(c, es[0]);
      RunInv(Step(BUILT, c, es[0]), es[1..], t);
    }
  }

  /**
   Every RAM edge is one access and every access is one RAM edge: edges alternate store, load, and each
   station has reported all its edges but possibly the one in flight.
   */
  lemma {:induction false} EdgesAlternate(n: nat, m: nat, es: seq<Move>, t: Chained)
    requires n > 0 && Run(BUILT, Reset(n, m), es, t)
    ensures Alternates(t.edges)
    ensures t.stores <= (|t.edges| + 1) / 2 <= t.stores + 1 && t.loads <= |t.edges| / 2 <= t.loads + 1
    ensures !t.a0 ==> (|t.edges| + 1) / 2 == t.stores && |t.edges| / 2 == t.loads
  {
    ResetInv(n, m);
    RunInv(Reset(n, m), es, t);
  }

  /** The arbiter acknowledges one slot at a time, and only the one whose claim the RAM serves. */
  lemma {:induction false} OneSlotServed(n: nat, m: nat, es: seq<Move>, t: Chained)
    requires n > 0 && Run(BUILT, Reset(n, m), es, t)
    ensures !(t.a1 && t.a2) && t.a0 == (t.a1 || t.a2)
    ensures t.a1 == Majority(Grant1(t), t.a0, t.a1) && t.a2 == Majority(Grant2(t), t.a0, t.a2)
  {
    ResetInv(n, m);
    RunInv(Reset(n, m), es, t);
  }

  // ---- the chain never gets stuck -----------------------------------------------

  /** Whatever has happened, something more can. */
  lemma {:induction false} NeverStuck(n: nat, m: nat, es: seq<Move>, t: Chained) returns (e: Move)
    requires n > 0 && Run(BUILT, Reset(n, m), es, t)
    ensures Enabled(BUILT, t, e)
  {
    ResetInv(n, m);
    RunInv(Reset(n, m), es, t);
    e := NextMove(t);
  }

  lemma {:induction false} NextMove(c: Chained) returns (e: Move)
    requires Inv(c)
    ensures Enabled(BUILT, c, e)
  {
    TokenFirst(c);
    e := Take;
    if Enabled(BUILT, c, Take) {
      return;
    }
    if Enabled(BUILT, c, Ram) {
      return Ram;
    }
    if Enabled(BUILT, c, Arbitrate) {
      return Arbitrate;
    }
    e := QuietMove(c);
  }

  /** With consumer, RAM and arbiter at rest, a gate fires or an operand moves. */
  lemma {:induction false} QuietMove(c: Chained) returns (e: Move)
    requires Inv(c) && !Enabled(BUILT, c, Take) && !Enabled(BUILT, c, Ram) && !Enabled(BUILT, c, Arbitrate)
    ensures Enabled(BUILT, c, e)
  {
    TokenFirst(c);
    var g := ExcitedGate(c.sReq, c.s, c.a1, c.l.hold);
    if Excited(g, c.sReq, c.s, c.a1, c.l.hold) {
      return StoreFire(g);
    }
    var h := ExcitedGate(LoadReq(BUILT, c), c.l, c.a2, c.z);
    if Excited(h, LoadReq(BUILT, c), c.l, c.a2, c.z) {
      return LoadFire(h);
    }
    if !c.s.hold && !c.s.joined && !AllUp(c.sReq) {
      var i: nat :| i < |c.sReq| && !c.sReq[i];
      return StoreOffer(i);
    }
    if c.s.hold && c.s.joined && !AllDown(c.sReq) {
      var i: nat :| i < |c.sReq| && c.sReq[i];
      return StoreDrop(i);
    }
    e := OtherOperand(c);
  }

  /** A gate of the station to fire, if any is excited. */
  lemma {:induction false} ExcitedGate(req: seq<bool>, u: Gates, portAck: bool, zAck: bool) returns (g: Gate)
    ensures Excited(g, req, u, portAck, zAck) || forall h :: !Excited(h, req, u, portAck, zAck)
  {
    g := if Excited(Claim, req, u, portAck, zAck) then Claim
         else if Excited(Done, req, u, portAck, zAck) then Done
         else if Excited(Hold, req, u, portAck, zAck) then Hold
         else Join;
  }

  lemma {:induction false} OtherOperand(c: Chained) returns (e: Move)
    requires Inv(c) && !Enabled(BUILT, c, Take) && !Enabled(BUILT, c, Ram) && !Enabled(BUILT, c, Arbitrate)
    requires forall g :: !Excited(g, c.sReq, c.s, c.a1, c.l.hold)
    requires forall g :: !Excited(g, LoadReq(BUILT, c), c.l, c.a2, c.z)
    requires !c.s.hold && !c.s.joined ==> AllUp(c.sReq)
    requires c.s.hold && c.s.joined ==> AllDown(c.sReq)
    ensures Enabled(BUILT, c, e)
  {
    TokenFirst(c);
    assert !Excited(Join, c.sReq, c.s, c.a1, c.l.hold) && !Excited(Claim, c.sReq, c.s, c.a1, c.l.hold);
    assert !Excited(Done, c.sReq, c.s, c.a1, c.l.hold) && !Excited(Hold, c.sReq, c.s, c.a1, c.l.hold);
    var req := LoadReq(BUILT, c);
    assert !Excited(Join, req, c.l, c.a2, c.z) && !Excited(Claim, req, c.l, c.a2, c.z);
    assert !Excited(Done, req, c.l, c.a2, c.z) && !Excited(Hold, req, c.l, c.a2, c.z);
    assert AllUp(c.sReq) ==> c.sReq[0];
    assert AllDown(c.sReq) ==> !c.sReq[0];
    if !c.l.hold {
      assert !c.l.joined && !AllUp(req) && req[0];
      var i: nat :| i < |req| && !req[i];
      e := LoadOffer(i - 1);
    } else {
      assert c.l.joined && !AllDown(req) && !req[0];
      var i: nat :| i < |req| && req[i];
      e := LoadDrop(i - 1);
    }
  }

  // ---- a claim that does not let go ---------------------------------------------

  /** `p_req = joined`, as before `done` existed. */
  const UNLATCHED: Design := Design(false, true)

  function CountUp(req: seq<bool>): (k: nat)
    ensures k <= |req|
  {
    if req == [] then 0 else CountUp(req[..|req| - 1]) + Count(req[|req| - 1])
  }

  lemma {:induction false} CountRaised(req: seq<bool>, i: nat)
    requires i < |req| && !req[i]
    ensures CountUp(req[i := true]) == CountUp(req) + 1
  {
    var n := |req| - 1;
    if i < n {
      CountRaised(req[..n], i);
      assert req[i := true][..n] == req[..n][i := true];
    } else {
      assert req[i := true][..n] == req[..n];
    }
  }

  lemma {:induction false} CountLow(n: nat)
    ensures CountUp(Low(n)) == 0
  {
    if n > 0 {
      CountLow(n - 1);
      assert Low(n)[..n - 1] == Low(n - 1);
    }
  }

  /** How many signals are up. */
  function Height(c: Chained): nat {
    CountUp(c.sReq) + CountUp(c.others) + Count(c.s.joined) + Count(c.s.claim) + Count(c.a0) + Count(c.l.joined)
      + Count(c.l.claim)
  }

  /** The chain without `done` on its only way up: nothing has come down yet, and nothing will. */
  predicate Climbing(c: Chained) {
    && c.sReq != [] && c.q && !c.a2 && !c.z && c.a1 == c.a0
    && !c.s.hold && !c.l.hold && !c.s.done && !c.l.done
    && (c.a0 ==> c.s.claim) && (c.s.claim ==> c.s.joined) && (c.s.joined ==> AllUp(c.sReq))
    && (c.l.claim ==> c.l.joined) && (c.l.joined ==> c.s.joined && c.a1 && AllUp(c.others))
    && c.edges == (if c.a0 then [StoreSlot] else [])
  }

  lemma {:induction false} LoadReqUp(c: Chained)
    ensures AllUp(LoadReq(UNLATCHED, c)) <==> (c.s.joined && c.a1) && AllUp(c.others)
    ensures AllDown(LoadReq(UNLATCHED, c)) ==> !(c.s.joined && c.a1)
  {
    var req := LoadReq(UNLATCHED, c);
    assert req[0] == (c.s.joined && c.a1);
    assert forall i | 0 <= i < |c.others| :: req[i + 1] == c.others[i];
  }

  lemma {:induction false} ClimbingStep(c: Chained, e: Move)
    requires Climbing(c) && Enabled(UNLATCHED, c, e)
    ensures Climbing(Step(UNLATCHED, c, e)) && Height(Step(UNLATCHED, c, e)) == Height(c) + 1
    ensures |Step(UNLATCHED, c, e).sReq| == |c.sReq| && |Step(UNLATCHED, c, e).others| == |c.others|
  {
    LoadReqUp(c);
    assert c.sReq[0] ==> !AllDown(c.sReq);
    match e
    case StoreOffer(i) => CountRaised(c.sReq, i);
    case LoadOffer(i) => CountRaised(c.others, i);
    case _ => hide AllUp, AllDown, LoadReq, CountUp;
  }

  lemma {:induction false} ClimbingRun(c: Chained, es: seq<Move>, t: Chained)
    requires Climbing(c) && Run(UNLATCHED, c, es, t)
    ensures Climbing(t) && Height(t) == Height(c) + |es| && |t.sReq| == |c.sReq| && |t.others| == |c.others|
    decreases |es|
  {
    hide Climbing, Enabled, Step, Height;
    if es != [] {
      ClimbingStep(c, es[0]);
      ClimbingRun(Step(UNLATCHED, c, es[0]), es[1..], t);
    }
  }

  /** Every run of the chain without `done` ends, with at most one RAM edge and no load ever served. */
  lemma {:induction false} UnlatchedStops(n: nat, m: nat, es: seq<Move>, t: Chained)
    requires n > 0 && Run(UNLATCHED, Reset(n, m), es, t)
    ensures |es| <= n + m + 5 && t.edges <= [StoreSlot] && !t.a2
    ensures (forall e :: !Enabled(UNLATCHED, t, e)) ==> t.edges == [StoreSlot] && t.s.claim && t.l.claim
  {
    CountLow(n);
    CountLow(m);
    ClimbingRun(Reset(n, m), es, t);
    LoadReqUp(t);
    if forall e :: !Enabled(UNLATCHED, t, e) {
      StuckAtTop(t);
    }
  }

  lemma {:induction false} StuckAtTop(c: Chained)
    requires Climbing(c) && forall e :: !Enabled(UNLATCHED, c, e)
    ensures c.edges == [StoreSlot] && c.s.claim && c.l.claim
  {
    LoadReqUp(c);
    assert !Enabled(UNLATCHED, c, StoreFire(Join)) && !Enabled(UNLATCHED, c, StoreFire(Claim))
             && !Enabled(UNLATCHED, c, Ram);
    assert !Enabled(UNLATCHED, c, LoadFire(Join)) && !Enabled(UNLATCHED, c, LoadFire(Claim));
    forall i: nat | i < |c.sReq| ensures c.sReq[i] {
      assert !Enabled(UNLATCHED, c, StoreOffer(i));
    }
    forall i: nat | i < |c.others| ensures c.others[i] {
      assert !Enabled(UNLATCHED, c, LoadOffer(i));
    }
  }

  // ---- a port without an arbiter ------------------------------------------------

  /** One shared acknowledge, the request the OR of the claims. */
  const SHARED: Design := Design(true, false)

  lemma {:induction false} RunOn(d: Design, c: Chained, es: seq<Move>, t: Chained, e: Move)
    requires Run(d, c, es, t) && Enabled(d, t, e)
    ensures Run(d, c, es + [e], Step(d, t, e))
    decreases |es|
  {
    if es == [] {
      assert [e][1..] == [];
    } else {
      RunOn(d, Step(d, c, es[0]), es[1..], t, e);
      assert (es + [e])[1..] == es[1..] + [e];
    }
  }

  /** A store of address and data, a load of token and address, with the RAM edges so far. */
  function Small(a: bool, d: bool, s: Gates, b: bool, l: Gates, ack: bool, edges: seq<Slot>, stores: nat,
      loads: nat): Chained {
    Chained([a, d], s, [b], l, true, ack, ack && s.claim, false, false, edges, stores, loads)
  }

  lemma {:induction false} SmallReset()
    ensures Reset(2, 1) == Small(false, false, QUIET, false, QUIET, false, [], 0, 0)
  {
    assert Low(2) == [false, false] && Low(1) == [false];
  }

  lemma {:induction false} TwoOperands(a: bool, b: bool)
    ensures AllUp([a, b]) == (a && b) && AllDown([a, b]) == (!a && !b)
  {
    assert [a, b][0] == a && [a, b][1] == b;
  }

  /** All operands arrive. */
  lemma {:induction false} SharedOffered(c: Chained) returns (es: seq<Move>)
    requires c == Small(false, false, QUIET, false, QUIET, false, [], 0, 0)
    ensures Run(SHARED, c, es, Small(true, true, QUIET, true, QUIET, false, [], 0, 0))
  {
    assert Run(SHARED, c, [], c);
    assert [false, false][0 := true] == [true, false] && [true, false][1 := true] == [true, true]
             && [false][0 := true] == [true];
    hide Run, AllUp, AllDown;
    RunOn(SHARED, c, [], c, StoreOffer(0));
    RunOn(SHARED, c, [StoreOffer(0)], Small(true, false, QUIET, false, QUIET, false, [], 0, 0), StoreOffer(1));
    es := [StoreOffer(0)] + [StoreOffer(1)];
    RunOn(SHARED, c, es, Small(true, true, QUIET, false, QUIET, false, [], 0, 0), LoadOffer(0));
    es := es + [LoadOffer(0)];
  }

  /** The store claims the port. */
  lemma {:induction false} SharedClaimed(c: Chained) returns (es: seq<Move>)
    requires c == Small(false, false, QUIET, false, QUIET, false, [], 0, 0)
    ensures Run(SHARED, c, es, Small(true, true, Gates(true, false, false, true), true, QUIET, false, [], 0, 0))
  {
    es := SharedOffered(c);
    TwoOperands(true, true);
    hide Run, AllUp, AllDown;
    RunOn(SHARED, c, es, Small(true, true, QUIET, true, QUIET, false, [], 0, 0), StoreFire(Join));
    es := es + [StoreFire(Join)];
    RunOn(SHARED, c, es, Small(true, true, Gates(true, false, false, false), true, QUIET, false, [], 0, 0),
        StoreFire(Claim));
    es := es + [StoreFire(Claim)];
  }

  /** It is served and reports it, its claim not yet down. */
  lemma {:induction false} SharedServed(c: Chained) returns (es: seq<Move>)
    requires c == Small(false, false, QUIET, false, QUIET, false, [], 0, 0)
    ensures Run(SHARED, c, es, Small(true, true, Gates(true, false, true, true), true, QUIET, true, [StoreSlot], 1, 0))
  {
    es := SharedClaimed(c);
    hide Run, AllUp, AllDown;
    assert [] + [StoreSlot] == [StoreSlot];
    RunOn(SHARED, c, es, Small(true, true, Gates(true, false, false, true), true, QUIET, false, [], 0, 0), Ram);
    es := es + [Ram];
    RunOn(SHARED, c, es, Small(true, true, Gates(true, false, false, true), true, QUIET, true, [StoreSlot], 0, 0),
        StoreFire(Done));
    es := es + [StoreFire(Done)];
  }

  /** On the shared-acknowledge port the load reports an access that made no RAM edge. */
  lemma {:induction false} SharedPortSwallows() returns (es: seq<Move>, t: Chained)
    ensures Run(SHARED, Reset(2, 1), es, t)
    ensures t.stores == 1 && t.loads == 1 && t.edges == [StoreSlot]
    ensures t.s.joined && t.l.joined && t.l.done && !t.z
  {
    SmallReset();
    var c := Reset(2, 1);
    es := SharedServed(c);
    TwoOperands(true, true);
    hide Run, AllUp, AllDown;
    t := Small(true, true, Gates(true, false, true, true), true, QUIET, true, [StoreSlot], 1, 0);
    assert LoadReq(SHARED, t) == [true, true];
    RunOn(SHARED, c, es, t, LoadFire(Join));
    es := es + [LoadFire(Join)];
    t := Small(true, true, Gates(true, false, true, true), true, Gates(true, false, false, false), true, [StoreSlot], 1,
        0);
    RunOn(SHARED, c, es, t, LoadFire(Done));
    es := es + [LoadFire(Done)];
    t := Step(SHARED, t, LoadFire(Done));
  }

  // ---- speed independence -------------------------------------------------------

  /** No move of the built chain takes away another's turn. */
  lemma {:induction false} Persistent(n: nat, m: nat, es: seq<Move>, t: Chained, e: Move, f: Move)
    requires n > 0 && Run(BUILT, Reset(n, m), es, t)
    requires Enabled(BUILT, t, e) && Enabled(BUILT, t, f) && e != f
    ensures Enabled(BUILT, Step(BUILT, t, e), f)
  {
    ResetInv(n, m);
    RunInv(Reset(n, m), es, t);
    StaysEnabled(t, e, f);
  }

  lemma {:induction false} StaysEnabled(c: Chained, e: Move, f: Move)
    requires Inv(c) && Enabled(BUILT, c, e) && Enabled(BUILT, c, f) && e != f
    ensures Enabled(BUILT, Step(BUILT, c, e), f)
  {
    TokenFirst(c);
    assert AllUp(c.sReq) ==> c.sReq[0];
    assert AllDown(c.sReq) ==> !c.sReq[0];
    match e
    case StoreFire(g) => AfterStoreFire(c, g, f);
    case LoadFire(g) => AfterLoadFire(c, g, f);
    case Ram => hide AllUp, AllDown;
    case Take => hide AllUp, AllDown;
    case Arbitrate => hide AllUp, AllDown;
    case StoreOffer(_) => AfterStoreOperand(c, e, f);
    case StoreDrop(_) => AfterStoreOperand(c, e, f);
    case LoadOffer(_) => AfterLoadOperand(c, e, f);
    case LoadDrop(_) => AfterLoadOperand(c, e, f);
  }

  lemma {:induction false} AfterStoreOperand(c: Chained, e: Move, f: Move)
    requires Inv(c) && Enabled(BUILT, c, e) && Enabled(BUILT, c, f) && e != f && (e.StoreOffer? || e.StoreDrop?)
    ensures Enabled(BUILT, Step(BUILT, c, e), f)
  {
    assert LoadReq(BUILT, Step(BUILT, c, e)) == LoadReq(BUILT, c);
    hide LoadReq;
  }

  lemma {:induction false} AfterLoadOperand(c: Chained, e: Move, f: Move)
    requires Inv(c) && Enabled(BUILT, c, e) && Enabled(BUILT, c, f) && e != f && (e.LoadOffer? || e.LoadDrop?)
    ensures Enabled(BUILT, Step(BUILT, c, e), f)
  {
    TokenFirst(c);
    var i := e.i;
    assert LoadReq(BUILT, c)[i + 1] == c.others[i];
    if f.LoadFire? {
      LoadJoinStays(c, e, f.g);
    }
    hide LoadReq, AllUp, AllDown;
  }

  /** While an operand of the load is moving, its join is not about to. */
  lemma {:induction false} LoadJoinStays(c: Chained, e: Move, g: Gate)
    requires Inv(c) && Enabled(BUILT, c, e) && (e.LoadOffer? || e.LoadDrop?) && Enabled(BUILT, c, LoadFire(g))
    ensures g != Join && Enabled(BUILT, Step(BUILT, c, e), LoadFire(g))
  {
    assert LoadReq(BUILT, c)[e.i + 1] == c.others[e.i];
    TokenFirst(c);
  }

  lemma {:induction false} AfterStoreFire(c: Chained, g: Gate, f: Move)
    requires Inv(c) && Enabled(BUILT, c, StoreFire(g)) && Enabled(BUILT, c, f) && StoreFire(g) != f
    ensures Enabled(BUILT, Step(BUILT, c, StoreFire(g)), f)
  {
    var t := Step(BUILT, c, StoreFire(g));
    TokenFirst(c);
    TokenFirst(t);
    assert AllUp(c.sReq) ==> c.sReq[0];
    assert AllDown(c.sReq) ==> !c.sReq[0];
    forall i: nat | i < |c.sReq| ensures AllUp(c.sReq) ==> c.sReq[i] {
    }
    assert g != Done ==> LoadReq(BUILT, t) == LoadReq(BUILT, c);
  }

  lemma {:induction false} AfterLoadFire(c: Chained, g: Gate, f: Move)
    requires Inv(c) && Enabled(BUILT, c, LoadFire(g)) && Enabled(BUILT, c, f) && LoadFire(g) != f
    ensures Enabled(BUILT, Step(BUILT, c, LoadFire(g)), f)
  {
    var t := Step(BUILT, c, LoadFire(g));
    TokenFirst(c);
    assert LoadReq(BUILT, t) == LoadReq(BUILT, c);
    assert forall i | 0 <= i < |c.others| :: LoadReq(BUILT, c)[i + 1] == c.others[i];
  }
}
