/**
 What the chained stations do to the words: the addresses and data on their operand channels, the RAM behind
 the arbitrated port, and what the load hands on (`emit_unit`, `emit_port` in bdc/mem.py).
 */
module StoreLoad {
  import opened Logic = Gates
  import opened Station
  import C = Chain

  datatype Write = Write(addr: nat, data: nat)

  /**
   The chain, with the words on its wires, the RAM and its output register; the stores and loads that have been
   joined, in order, and the words the consumer has taken. The store's operands are address and data, in that
   order; the load's first operand besides the token is its address.
   */
  datatype Memory = Memory(c: C.Chained, sAddr: nat, sData: nat, lAddr: nat, ram: map<nat, nat>, rdata: nat,
                           stores: seq<Write>, loads: seq<nat>, taken: seq<nat>)

  /** A word may change only while its channel is idle, request and acknowledge both low. */
  datatype Event = Control(move: C.Move) | StoreAddress(v: nat) | StoreData(v: nat) | LoadAddress(v: nat)

  predicate Enabled(d: C.Design, s: Memory, e: Event) {
    match e
    case Control(f) => C.Enabled(d, s.c, f)
    case StoreAddress(_) => s.c.sReq != [] && !s.c.sReq[0] && !s.c.s.hold
    case StoreData(_) => |s.c.sReq| > 1 && !s.c.sReq[1] && !s.c.s.hold
    case LoadAddress(_) => s.c.others != [] && !s.c.others[0] && !s.c.l.hold
  }

  /** A RAM powers up at zero. */
  function At(ram: map<nat, nat>, a: nat): nat {
    if a in ram then ram[a] else 0
  }

  /** A RAM clock edge; a write shows on the output too. */
  function Access(d: C.Design, s: Memory): Memory {
    if C.Chosen(d, s.c) == C.StoreSlot then s.(ram := s.ram[s.sAddr := s.sData], rdata := s.sData)
    else s.(rdata := At(s.ram, s.lAddr))
  }

  /** What the words do at a control step. */
  function Moved(d: C.Design, s: Memory, f: C.Move): Memory {
    match f
    case Ram => if s.c.a0 then s else Access(d, s)
    case StoreFire(g) => if g == Join && !s.c.s.joined then s.(stores := s.stores + [Write(s.sAddr, s.sData)]) else s
    case LoadFire(g) => if g == Join && !s.c.l.joined then s.(loads := s.loads + [s.lAddr]) else s
    case Take => if s.c.z then s else s.(taken := s.taken + [s.rdata])
    case _ => s
  }

  function Step(d: C.Design, s: Memory, e: Event): Memory {
    match e
    case Control(f) => Moved(d, s, f).(c := C.Step(d, s.c, f))
    case StoreAddress(v) => s.(sAddr := v)
    case StoreData(v) => s.(sData := v)
    case LoadAddress(v) => s.(lAddr := v)
  }

  /** After reset the wires hold anything. */
  ghost predicate Fresh(s: Memory, n: nat, m: nat) {
    s.c == C.Reset(n, m) && s.ram == map[] && s.stores == [] && s.loads == [] && s.taken == []
  }

  ghost predicate Run(d: C.Design, s: Memory, es: seq<Event>, t: Memory)
    decreases |es|
  {
    if es == [] then s == t else Enabled(d, s, es[0]) && Run(d, Step(d, s, es[0]), es[1..], t)
  }

  // ---- the program the chain stands for -------------------------------------------

  /** The memory after the stores, one after the other. */
  function After(stores: seq<Write>): map<nat, nat> {
    if stores == [] then map[]
    else
      var w := stores[|stores| - 1];
      After(stores[..|stores| - 1])[w.addr := w.data]
  }

  /** What read `i` returns when every read comes after its own write and before the next one. */
  function Returned(stores: seq<Write>, loads: seq<nat>, i: nat): nat
    requires i < |stores| && i < |loads|
  {
    At(After(stores[..i + 1]), loads[i])
  }

  // ---- what every run keeps -------------------------------------------------------

  /** A station whose operands are joined and whose access is still to come. */
  predicate Pending(u: Gates, portAck: bool) {
    u.joined && !u.done && !portAck
  }

  /** Joined and performed accesses differ by the pending ones. */
  predicate Recorded(s: Memory) {
    && |s.stores| == (|s.c.edges| + 1) / 2 + Count(Pending(s.c.s, s.c.a1))
    && |s.loads| == |s.c.edges| / 2 + Count(Pending(s.c.l, s.c.a2))
    && |s.taken| + Count(s.c.l.done && !s.c.z) == s.c.loads && (s.c.z ==> s.taken != [])
  }

  /** The words of a joined operand set stay on the wires until it is released. */
  predicate Steady(s: Memory) {
    && (s.c.s.joined && !s.c.s.hold ==> s.stores != [] && s.stores[|s.stores| - 1] == Write(s.sAddr, s.sData))
    && (s.c.l.joined && !s.c.l.hold ==> s.loads != [] && s.loads[|s.loads| - 1] == s.lAddr)
  }

  predicate Sequential(s: Memory) {
    var k := |s.c.edges|;
    && k / 2 <= |s.loads| && |s.taken| <= |s.loads| && (k + 1) / 2 <= |s.stores| && |s.taken| <= |s.stores|
    && s.ram == After(s.stores[..(k + 1) / 2])
    && (k % 2 == 0 && k > 0 ==> s.rdata == Returned(s.stores, s.loads, k / 2 - 1))
    && forall i: nat | i < |s.taken| :: s.taken[i] == Returned(s.stores, s.loads, i)
  }

  predicate Inv(s: Memory) {
    C.Inv(s.c) && |s.c.sReq| > 1 && s.c.others != [] && Recorded(s) && Steady(s) && Sequential(s)
  }

  lemma {:induction false} FreshInv(s: Memory, n: nat, m: nat)
    requires Fresh(s, n, m) && n > 1 && m > 0
    ensures Inv(s)
  {
    C.ResetInv(n, m);
  }

  /** A joined operand set is offered in full until it is released. */
  lemma {:induction false} Held(c: C.Chained)
    requires C.Inv(c) && |c.sReq| > 1 && c.others != []
    ensures c.s.joined && !c.s.hold ==> c.sReq[0] && c.sReq[1]
    ensures c.l.joined && !c.l.hold ==> c.others[0]
  {
    assert C.LoadReq(C.BUILT, c)[1] == c.others[0];
  }

  lemma {:induction false} WireInv(s: Memory, e: Event)
    requires Inv(s) && Enabled(C.BUILT, s, e) && !e.Control?
    ensures Inv(Step(C.BUILT, s, e))
  {
    Held(s.c);
    var t := Step(C.BUILT, s, e);
    hide C.Inv, Recorded, Steady, Sequential;
    MoreJoined(s, t);
    WireAccounts(s, t, e);
  }

  lemma {:induction false} WireAccounts(s: Memory, t: Memory, e: Event)
    requires Recorded(s) && Steady(s) && !e.Control? && Enabled(C.BUILT, s, e) && t == Step(C.BUILT, s, e)
    requires s.c.s.joined && !s.c.s.hold ==> |s.c.sReq| > 1 && s.c.sReq[0] && s.c.sReq[1]
    requires s.c.l.joined && !s.c.l.hold ==> s.c.others != [] && s.c.others[0]
    ensures Recorded(t) && Steady(t)
  {
    hide Pending;
  }

  /**
   What a station's gates do to its accesses: a rising join makes one pending, and only it makes its operands
   count.
   */
  lemma {:induction false} FireFacts(g: Gate, req: seq<bool>, u: Gates, portAck: bool, zAck: bool)
    requires req != [] && Phased(req, u, portAck, zAck) && Excited(g, req, u, portAck, zAck)
    ensures var v := Toggle(g, u);
            && Pending(v, portAck) == ((g == Join && !u.joined) || Pending(u, portAck))
            && (g == Join && !u.joined ==> !Pending(u, portAck))
            && (v.joined && !v.hold ==> (g == Join && !u.joined) || (u.joined && !u.hold))
            && (g == Done ==> zAck == u.done) && v.done == if g == Done then !u.done else u.done
  {
    assert req[0] ==> !AllDown(req);
    assert !req[0] ==> !AllUp(req);
  }

  /** More is joined; what has been performed stays as it was. */
  lemma {:induction false} MoreJoined(s: Memory, t: Memory)
    requires Sequential(s) && s.stores <= t.stores && s.loads <= t.loads
    requires t.ram == s.ram && t.rdata == s.rdata && t.taken == s.taken && t.c.edges == s.c.edges
    ensures Sequential(t)
  {
    forall i: nat | i < |s.stores| && i < |s.loads|
      ensures Returned(t.stores, t.loads, i) == Returned(s.stores, s.loads, i)
    {
      assert t.stores[..i + 1] == s.stores[..i + 1];
    }
    assert t.stores[..(|s.c.edges| + 1) / 2] == s.stores[..(|s.c.edges| + 1) / 2];
    hide Returned, After;
  }

  lemma {:induction false} StoreFireInv(s: Memory, g: Gate)
    requires Inv(s) && C.Enabled(C.BUILT, s.c, C.StoreFire(g))
    ensures Inv(Step(C.BUILT, s, Control(C.StoreFire(g))))
  {
    C.StepInv(s.c, C.StoreFire(g));
    FireFacts(g, s.c.sReq, s.c.s, s.c.a1, s.c.l.hold);
    var t := Step(C.BUILT, s, Control(C.StoreFire(g)));
    hide C.Inv, C.Enabled, Recorded, Steady, Sequential, Pending, Toggle;
    MoreJoined(s, t);
    StoreFireAccounts(s, t, g);
  }

  lemma {:induction false} StoreFireAccounts(s: Memory, t: Memory, g: Gate)
    requires t == Step(C.BUILT, s, Control(C.StoreFire(g))) && Recorded(s) && Steady(s)
    requires var v := Toggle(g, s.c.s);
             && Pending(v, s.c.a1) == ((g == Join && !s.c.s.joined) || Pending(s.c.s, s.c.a1))
             && (g == Join && !s.c.s.joined ==> !Pending(s.c.s, s.c.a1))
             && (v.joined && !v.hold ==> (g == Join && !s.c.s.joined) || (s.c.s.joined && !s.c.s.hold))
    ensures Recorded(t) && Steady(t)
  {
    hide Pending, Toggle;
  }

  lemma {:induction false} LoadFireInv(s: Memory, g: Gate)
    requires Inv(s) && C.Enabled(C.BUILT, s.c, C.LoadFire(g))
    ensures Inv(Step(C.BUILT, s, Control(C.LoadFire(g))))
  {
    C.StepInv(s.c, C.LoadFire(g));
    FireFacts(g, C.LoadReq(C.BUILT, s.c), s.c.l, s.c.a2, s.c.z);
    var t := Step(C.BUILT, s, Control(C.LoadFire(g)));
    hide C.Inv, C.Enabled, Recorded, Steady, Sequential, Pending, Toggle;
    MoreJoined(s, t);
    LoadFireAccounts(s, t, g);
  }

  lemma {:induction false} LoadFireAccounts(s: Memory, t: Memory, g: Gate)
    requires t == Step(C.BUILT, s, Control(C.LoadFire(g))) && Recorded(s) && Steady(s)
    requires var v := Toggle(g, s.c.l);
             && Pending(v, s.c.a2) == ((g == Join && !s.c.l.joined) || Pending(s.c.l, s.c.a2))
             && (g == Join && !s.c.l.joined ==> !Pending(s.c.l, s.c.a2))
             && (v.joined && !v.hold ==> (g == Join && !s.c.l.joined) || (s.c.l.joined && !s.c.l.hold))
             && v.done == (if g == Done then !s.c.l.done else s.c.l.done)
             && (g == Done ==> s.c.z == s.c.l.done)
    ensures Recorded(t) && Steady(t)
  {
    hide Pending, Toggle;
  }

  lemma {:induction false} OperandInv(s: Memory, f: C.Move)
    requires Inv(s) && C.Enabled(C.BUILT, s.c, f)
    requires f.StoreOffer? || f.StoreDrop? || f.LoadOffer? || f.LoadDrop? || f.Arbitrate?
    ensures Inv(Step(C.BUILT, s, Control(f)))
  {
    C.StepInv(s.c, f);
    var t := Step(C.BUILT, s, Control(f));
    hide C.Inv, Pending, Returned, After, C.Enabled, Sequential;
    MoreJoined(s, t);
    hide Recorded;
    OnlyControl(s, t, f);
  }

  lemma {:induction false} OnlyControl(s: Memory, t: Memory, f: C.Move)
    requires f.StoreOffer? || f.StoreDrop? || f.LoadOffer? || f.LoadDrop? || f.Arbitrate?
    requires t == Step(C.BUILT, s, Control(f)) && Recorded(s) && Steady(s)
    ensures Recorded(t) && Steady(t) && |t.c.sReq| == |s.c.sReq| && |t.c.others| == |s.c.others|
  {
    hide Pending;
  }

  /** What a RAM edge finds. */
  lemma {:induction false} EdgeFacts(c: C.Chained)
    requires C.Inv(c) && C.Enabled(C.BUILT, c, C.Ram) && !c.a0
    ensures C.Chosen(C.BUILT, c) == C.StoreSlot ==> |c.edges| % 2 == 0 && Pending(c.s, c.a1) && !c.s.hold
    ensures C.Chosen(C.BUILT, c) == C.LoadSlot ==> |c.edges| % 2 == 1 && Pending(c.l, c.a2) && !c.l.hold
    ensures var t := C.Step(C.BUILT, c, C.Ram);
            && Pending(t.s, t.a1) == (Pending(c.s, c.a1) && C.Chosen(C.BUILT, c) == C.LoadSlot)
            && Pending(t.l, t.a2) == (Pending(c.l, c.a2) && C.Chosen(C.BUILT, c) == C.StoreSlot)
  {
    C.StepInv(c, C.Ram);
    var t := C.Step(C.BUILT, c, C.Ram);
    assert t.edges[|c.edges|] == C.Chosen(C.BUILT, c);
    hide AllUp, AllDown, C.LoadReq;
  }

  /** The RAM's return to zero changes no account. */
  lemma {:induction false} QuietFacts(c: C.Chained)
    requires C.Inv(c) && C.Enabled(C.BUILT, c, C.Ram) && c.a0
    ensures var t := C.Step(C.BUILT, c, C.Ram);
            Pending(t.s, t.a1) == Pending(c.s, c.a1) && Pending(t.l, t.a2) == Pending(c.l, c.a2)
  {
    hide AllUp, AllDown, C.LoadReq;
  }

  lemma {:induction false} RamInv(s: Memory)
    requires Inv(s) && C.Enabled(C.BUILT, s.c, C.Ram)
    ensures Inv(Step(C.BUILT, s, Control(C.Ram)))
  {
    C.StepInv(s.c, C.Ram);
    var t := Step(C.BUILT, s, Control(C.Ram));
    assert t.c == C.Step(C.BUILT, s.c, C.Ram) && |t.c.sReq| == |s.c.sReq| && |t.c.others| == |s.c.others|;
    hide C.Inv, Recorded, Steady, Sequential, Pending, C.Chosen, C.Enabled, Step;
    if s.c.a0 {
      QuietFacts(s.c);
      QuietAccounts(s, t);
    } else {
      EdgeFacts(s.c);
      EdgeAccounts(s, t);
      if C.Chosen(C.BUILT, s.c) == C.StoreSlot {
        StoreEdge(s, t);
      } else {
        LoadEdge(s, t);
      }
    }
  }

  lemma {:induction false} QuietAccounts(s: Memory, t: Memory)
    requires t == Step(C.BUILT, s, Control(C.Ram)) && Recorded(s) && Steady(s) && Sequential(s) && s.c.a0
    requires Pending(t.c.s, t.c.a1) == Pending(s.c.s, s.c.a1) && Pending(t.c.l, t.c.a2) == Pending(s.c.l, s.c.a2)
    ensures Recorded(t) && Steady(t) && Sequential(t)
  {
    hide Pending, Returned, After;
  }

  lemma {:induction false} EdgeAccounts(s: Memory, t: Memory)
    requires t == Step(C.BUILT, s, Control(C.Ram)) && Recorded(s) && Steady(s) && !s.c.a0
    requires var slot := C.Chosen(C.BUILT, s.c);
             && (if slot == C.StoreSlot then |s.c.edges| % 2 == 0
                   && Pending(s.c.s, s.c.a1) else |s.c.edges| % 2 == 1 && Pending(s.c.l, s.c.a2))
             && Pending(t.c.s, t.c.a1) == (Pending(s.c.s, s.c.a1) && slot == C.LoadSlot)
             && Pending(t.c.l, t.c.a2) == (Pending(s.c.l, s.c.a2) && slot == C.StoreSlot)
    ensures Recorded(t) && Steady(t)
  {
    hide Pending, C.Chosen;
  }

  lemma {:induction false} StoreEdge(s: Memory, t: Memory)
    requires t == Step(C.BUILT, s, Control(C.Ram)) && Recorded(s) && Steady(s) && Sequential(s) && !s.c.a0
    requires C.Chosen(C.BUILT, s.c) == C.StoreSlot && |s.c.edges| % 2 == 0 && Pending(s.c.s, s.c.a1) && !s.c.s.hold
    ensures Sequential(t)
  {
    var k := |s.c.edges|;
    assert s.stores[..k / 2 + 1] == s.stores && s.stores[..k / 2] == s.stores[..|s.stores| - 1];
    hide C.Chosen, Returned;
  }

  lemma {:induction false} LoadEdge(s: Memory, t: Memory)
    requires t == Step(C.BUILT, s, Control(C.Ram)) && Recorded(s) && Steady(s) && Sequential(s) && !s.c.a0
    requires C.Chosen(C.BUILT, s.c) == C.LoadSlot && |s.c.edges| % 2 == 1 && Pending(s.c.l, s.c.a2) && !s.c.l.hold
    ensures Sequential(t)
  {
    var k := |s.c.edges|;
    assert t == s.(c := t.c, rdata := At(s.ram, s.lAddr)) && |t.c.edges| == k + 1;
    hide C.Chosen, After, Step;
    assert s.loads[k / 2] == s.lAddr;
    assert Returned(s.stores, s.loads, k / 2) == t.rdata;
    hide Returned, Recorded, Steady;
  }

  /** What the consumer finds. */
  lemma {:induction false} TakeFacts(c: C.Chained)
    requires C.Inv(c) && C.Enabled(C.BUILT, c, C.Take)
    ensures !c.z ==> c.l.done && |c.edges| % 2 == 0 && c.loads == |c.edges| / 2
    ensures c.z ==> !c.l.done
  {
    hide AllUp, AllDown, C.LoadReq;
  }

  lemma {:induction false} TakeInv(s: Memory)
    requires Inv(s) && C.Enabled(C.BUILT, s.c, C.Take)
    ensures Inv(Step(C.BUILT, s, Control(C.Take)))
  {
    C.StepInv(s.c, C.Take);
    TakeFacts(s.c);
    var t := Step(C.BUILT, s, Control(C.Take));
    assert t.c == C.Step(C.BUILT, s.c, C.Take) && |t.c.sReq| == |s.c.sReq| && |t.c.others| == |s.c.others|;
    hide C.Inv, Recorded, Steady, Sequential, C.Enabled, Step;
    TakeAccounts(s, t);
  }

  lemma {:induction false} TakeAccounts(s: Memory, t: Memory)
    requires t == Step(C.BUILT, s, Control(C.Take)) && Recorded(s) && Steady(s) && Sequential(s)
    requires if s.c.z then !s.c.l.done else s.c.l.done && |s.c.edges| % 2 == 0 && s.c.loads == |s.c.edges| / 2
    ensures Recorded(t) && Steady(t) && Sequential(t)
  {
    hide Pending, Returned, After;
  }

  lemma {:induction false} StepInv(s: Memory, e: Event)
    requires Inv(s) && Enabled(C.BUILT, s, e)
    ensures Inv(Step(C.BUILT, s, e))
  {
    hide Inv, C.Enabled, Step;
    match e
    case Control(f) =>
      match f {
        case StoreFire(g) => StoreFireInv(s, g);
        case LoadFire(g) => LoadFireInv(s, g);
        case Ram => RamInv(s);
        case Take => TakeInv(s);
        case _ => OperandInv(s, f);
      }
    case _ => WireInv(s, e);
  }

  lemma {:induction false} RunInv(s: Memory, es: seq<Event>, t: Memory)
    requires Inv(s) && Run(C.BUILT, s, es, t)
    ensures Inv(t)
    decreases |es|
  {
    hide Inv, Enabled, Step;
    if es != [] {
      StepInv(s, es[0]);
      RunInv(Step(C.BUILT, s, es[0]), es[1..], t);
    }
  }

  /**
   In every run the chain is a sequential memory: the consumer takes, in order, what each load returns when
   store and load take turns; and while a load's word is offered or its acknowledge still up, the output register
   holds it.
   */
  lemma {:induction false} LoadsReadSequentially(n: nat, m: nat, s: Memory, es: seq<Event>, t: Memory)
    requires n > 1 && m > 0 && Fresh(s, n, m) && Run(C.BUILT, s, es, t)
    ensures |t.taken| <= |t.stores| && |t.taken| <= |t.loads|
    ensures forall i: nat | i < |t.taken| :: t.taken[i] == Returned(t.stores, t.loads, i)
    ensures t.c.l.done || t.c.z ==>
              var i := if t.c.z then |t.taken| - 1 else |t.taken|;
              0 <= i < |t.stores| && i < |t.loads| && t.rdata == Returned(t.stores, t.loads, i)
  {
    FreshInv(s, n, m);
    RunInv(s, es, t);
    OfferedWord(t);
    hide Inv, Run, Returned;
  }

  lemma {:induction false} OfferedWord(t: Memory)
    requires Inv(t)
    ensures t.c.l.done || t.c.z ==>
              var i := if t.c.z then |t.taken| - 1 else |t.taken|;
              0 <= i < |t.stores| && i < |t.loads| && t.rdata == Returned(t.stores, t.loads, i)
  {
    assert t.c.l.done || t.c.z ==> |t.c.edges| % 2 == 0 && t.c.loads == |t.c.edges| / 2 by {
      hide AllUp, AllDown, C.LoadReq;
    }
    hide C.Inv, Returned, After, Pending;
  }

  // ---- the shared acknowledge -----------------------------------------------------

  /** 7 is to be stored at address 0, and address 1 to be read; a lone RAM edge is the store's. */
  predicate Watched(s: Memory) {
    && s.sAddr == 0 && s.sData == 7 && s.lAddr == 1
    && (forall i: nat | i < |s.stores| :: s.stores[i] == Write(0, 7))
          && (forall i: nat | i < |s.loads| :: s.loads[i] == 1)
    && (s.c.s.joined ==> s.stores != []) && (s.c.l.joined ==> s.loads != [])
    && (s.c.edges == [C.StoreSlot] ==> s.rdata == 7)
  }

  lemma {:induction false} WatchedStep(d: C.Design, s: Memory, f: C.Move)
    requires Watched(s)
    ensures Watched(Step(d, s, Control(f)))
  {
    var t := Step(d, s, Control(f));
    if f.Ram? && !s.c.a0 {
      assert t.c.edges == s.c.edges + [C.Chosen(d, s.c)] && t.c.edges[|s.c.edges|] == C.Chosen(d, s.c);
    }
    assert t.c.edges == s.c.edges || (f.Ram? && !s.c.a0);
  }

  /** A run of the control is a run with the words held still. */
  lemma {:induction false} Lifted(d: C.Design, s: Memory, moves: seq<C.Move>, c: C.Chained)
      returns (es: seq<Event>, t: Memory)
    requires C.Run(d, s.c, moves, c) && Watched(s)
    ensures Run(d, s, es, t) && t.c == c && Watched(t)
    decreases |moves|
  {
    if moves == [] {
      return [], s;
    }
    WatchedStep(d, s, moves[0]);
    hide Watched;
    var next := Step(d, s, Control(moves[0]));
    var rest;
    rest, t := Lifted(d, next, moves[1..], c);
    es := [Control(moves[0])] + rest;
    assert es[1..] == rest;
  }

  lemma {:induction false} RunOn(d: C.Design, s: Memory, es: seq<Event>, t: Memory, e: Event)
    requires Run(d, s, es, t) && Enabled(d, t, e)
    ensures Run(d, s, es + [e], Step(d, t, e))
    decreases |es|
  {
    if es != [] {
      RunOn(d, Step(d, s, es[0]), es[1..], t, e);
      assert (es + [e])[1..] == es[1..] + [e];
    } else {
      assert (es + [e])[1..] == [];
    }
  }

  lemma {:induction false} NeverWritten(stores: seq<Write>)
    requires forall i: nat | i < |stores| :: stores[i] == Write(0, 7)
    ensures At(After(stores), 1) == 0
  {
    if stores != [] {
      NeverWritten(stores[..|stores| - 1]);
    }
  }

  /** On the shared-acknowledge port a load of an address that was never written hands on the word just stored. */
  lemma {:induction false} SharedPortMisreads() returns (s: Memory, es: seq<Event>, t: Memory)
    ensures Fresh(s, 2, 1) && Run(C.SHARED, s, es, t)
    ensures t.stores != [] && t.loads != [] && t.taken != [] && t.taken[|t.taken| - 1] == 7
    ensures forall i: nat | i < |t.stores| && i < |t.loads| :: Returned(t.stores, t.loads, i) == 0
  {
    s := Memory(C.Reset(2, 1), 0, 7, 1, map[], 0, [], [], []);
    var moves, c := C.SharedPortSwallows();
    var before, u := Lifted(C.SHARED, s, moves, c);
    RunOn(C.SHARED, s, before, u, Control(C.Take));
    es, t := before + [Control(C.Take)], Step(C.SHARED, u, Control(C.Take));
    WatchedStep(C.SHARED, u, C.Take);
    forall i: nat | i < |t.stores| && i < |t.loads| ensures Returned(t.stores, t.loads, i) == 0 {
      NeverWritten(t.stores[..i + 1]);
    }
  }
}
