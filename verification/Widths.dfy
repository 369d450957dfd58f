/**
 Channel widths, resolved to a fixpoint over nodes in any order (`result_channels` and
 `Emitter._resolve_widths` in bdc/emit.py).
 */
module Widths {
  import opened Dataflow

  /** A channel's width, and whether it is a control channel, which has no data at all. */
  datatype Chan = Chan(width: nat, control: bool)

  const CONTROL: Chan := Chan(0, true)

  /** An operation with the result types its type clause spells and, for a constant, its literal's own type. */
  datatype Op = Op(op: string, operands: seq<string>, results: seq<string>, clause: seq<Chan>, literal: Option<Chan>)

  type Channels = map<string, Chan>

  function LookUp(ch: Channels, v: string): Option<Chan> {
    if v in ch then Some(ch[v]) else None
  }

  /** The first of `chs` that is known. */
  function Known(chs: seq<Option<Chan>>): Option<Chan> {
    if chs == [] then None else if chs[0].Some? then chs[0] else Known(chs[1..])
  }

  function Copies(n: nat, c: Option<Chan>): seq<Option<Chan>> {
    seq(n, _ => c)
  }

  function Given(clause: seq<Chan>): (r: seq<Option<Chan>>)
    ensures |r| == |clause|
  {
    seq(|clause|, i requires 0 <= i < |clause| => Some(clause[i]))
  }

  const LIKE_FIRST: set<string> :=
    {"addi", "subi", "muli", "andi", "ori", "xori", "shli", "shrsi", "shrui", "br", "buffer"}

  /** The width of each result, none where the rule must ask again; nothing if there is no rule. */
  function ResultChannels(n: Op, known: seq<Option<Chan>>): Option<seq<Option<Chan>>>
    requires |known| == |n.operands|
  {
    if n.op in {"fork", "lazy_fork"} then (if known == [] then None else Some(Copies(|n.results|, known[0])))
    else if n.op in {"source", "join"} then Some([Some(CONTROL)])
    else if n.op == "constant" then
      if n.literal.Some? then Some([n.literal])
      else if n.clause == [] then None
      else Some([Some(n.clause[|n.clause| - 1])])
    else if n.op == "cmpi" then Some([Some(Chan(1, false))])
    else if n.op in LIKE_FIRST then (if known == [] then None else Some([known[0]]))
    else if n.op == "select" then (if |known| < 2 then None else Some([known[1]]))
    else if n.op == "cond_br" then (if |known| < 2 then None else Some([known[1], known[1]]))
    else if n.op == "merge" then Some([Known(known)])
    else if n.op in {"trunci", "extui", "extsi"} then
      (if n.clause == [] then None else Some([Some(n.clause[|n.clause| - 1])]))
    else if n.op == "mux" then (if known == [] then Some([None]) else Some([Known(known[1..])]))
    else if n.op == "control_merge" then (if |n.clause| != 2 then None else Some(Given(n.clause)))
    else if n.op in {"sink", "end"} then Some([])
    else if n.op in {"load", "store"} then
      (if |n.clause| != 4 || |n.results| != 2 then None else Some(Given(n.clause[2..])))
    else if n.op == "mem_controller" then
      if n.results == [] || |n.clause| != |n.results| - 1 then None else Some(Given(n.clause) + [Some(CONTROL)])
    else None
  }

  function Reads(xs: seq<string>, ch: Channels): (r: seq<Option<Chan>>)
    ensures |r| == |xs|
  {
    seq(|xs|, i requires 0 <= i < |xs| => LookUp(ch, xs[i]))
  }

  function KnownOperands(n: Op, ch: Channels): (r: seq<Option<Chan>>)
    ensures |r| == |n.operands|
  {
    Reads(n.operands, ch)
  }

  /** What the rule answers when `ch` is known. */
  function Answer(n: Op, ch: Channels): Option<seq<Option<Chan>>> {
    ResultChannels(n, KnownOperands(n, ch))
  }

  // ---- consistent typings -------------------------------------------------------

  /** Operands that must all have one type, since any of them may answer for the result. */
  function Alike(n: Op): seq<string> {
    if n.op == "merge" then n.operands
    else if n.op == "mux" && n.operands != [] then n.operands[1..]
    else []
  }

  /** What the result of an operation with one result, typed `out`, has to do with its operands, typed `ins`. */
  ghost predicate OneResult(n: Op, ins: seq<Chan>, out: Chan) {
    match n.op
    case "addi" | "subi" | "muli" | "andi" | "ori" | "xori" | "shli" | "shrsi" | "shrui" | "br" | "buffer" =>
      ins != [] && out == ins[0]
    case "cmpi" => out == Chan(1, false)
    case "select" => |ins| >= 2 && out == ins[1]
    case "merge" => ins != [] && forall i | 0 <= i < |ins| :: out == ins[i]
    case "mux" => |ins| >= 2 && forall i | 1 <= i < |ins| :: out == ins[i]
    case "trunci" | "extui" | "extsi" => n.clause != [] && out == n.clause[|n.clause| - 1]
    case "constant" =>
      if n.literal.Some? then out == n.literal.value else n.clause != [] && out == n.clause[|n.clause| - 1]
    case "source" | "join" => out == Chan(0, true)
    case _ => false
  }

  /** What the results of the other operations, typed `outs`, have to do with their operands, typed `ins`. */
  ghost predicate OtherResults(n: Op, ins: seq<Chan>, outs: seq<Chan>) {
    match n.op
    case "fork" | "lazy_fork" => ins != [] && forall k | 0 <= k < |outs| :: outs[k] == ins[0]
    case "cond_br" => |ins| >= 2 && outs == [ins[1], ins[1]]
    case "control_merge" => |outs| == 2 && outs == n.clause
    case "load" | "store" => |n.clause| == 4 && outs == [n.clause[2], n.clause[3]]
    case "mem_controller" => outs == n.clause + [Chan(0, true)]
    case "sink" | "end" => outs == []
    case _ => false
  }

  ghost predicate Related(n: Op, ins: seq<Chan>, outs: seq<Chan>) {
    (|outs| == 1 && OneResult(n, ins, outs[0])) || OtherResults(n, ins, outs)
  }

  /** The channels `t` gives to `xs`. */
  ghost function Typed(xs: seq<string>, t: Channels): (r: seq<Chan>)
    requires forall v | v in xs :: v in t
    ensures |r| == |xs|
  {
    seq(|xs|, i requires 0 <= i < |xs| => t[xs[i]])
  }

  /** `t` types every operand and result of `n` as the operation requires. */
  ghost predicate WellTyped(n: Op, t: Channels) {
    && (forall v | v in n.operands :: v in t) && (forall v | v in n.results :: v in t)
    && Related(n, Typed(n.operands, t), Typed(n.results, t))
  }

  /** Enough operands of `n` are known for its results: which ones, and how many, depends on the operation. */
  ghost predicate Ready(n: Op, ch: Channels) {
    match n.op
    case "fork" | "lazy_fork" => n.results == [] || (n.operands != [] && n.operands[0] in ch)
    case "addi" | "subi" | "muli" | "andi" | "ori" | "xori" | "shli" | "shrsi" | "shrui" | "br" | "buffer" =>
      n.operands != [] && n.operands[0] in ch
    case "select" | "cond_br" => |n.operands| >= 2 && n.operands[1] in ch
    case "merge" => exists i :: 0 <= i < |n.operands| && n.operands[i] in ch
    case "mux" => exists i :: 1 <= i < |n.operands| && n.operands[i] in ch
    case _ => true
  }

  ghost predicate Typing(nodes: seq<Op>, t: Channels) {
    forall n | n in nodes :: WellTyped(n, t)
  }

  /** `a` knows no more than `b`, and nothing else. */
  ghost predicate Below(a: Channels, b: Channels) {
    forall v | v in a :: v in b && b[v] == a[v]
  }

  ghost predicate AllSame(xs: seq<Chan>) {
    forall i, j | 0 <= i < |xs| && 0 <= j < |xs| :: xs[i] == xs[j]
  }

  /** The operands that may answer for each other have one type. */
  ghost predicate Agree(n: Op, ins: seq<Chan>) {
    && (n.op == "merge" ==> AllSame(ins))
    && (n.op == "mux" && ins != [] ==> AllSame(ins[1..]))
  }

  lemma {:induction false} KnownFirst(xs: seq<Chan>)
    ensures Known(Given(xs)) == if xs == [] then None else Some(xs[0])
  {
  }

  lemma {:induction false} GivenOne(outs: seq<Chan>, x: Option<Chan>)
    ensures [x] == Given(outs) <==> |outs| == 1 && x == Some(outs[0])
  {
    if |outs| == 1 {
      assert Given(outs) == [Some(outs[0])];
    }
  }

  lemma {:induction false} GivenIff(xs: seq<Chan>, ys: seq<Chan>)
    ensures Given(xs) == Given(ys) <==> xs == ys
  {
    if Given(xs) == Given(ys) {
      forall i | 0 <= i < |xs| ensures xs[i] == ys[i] {
        assert Given(xs)[i] == Given(ys)[i];
      }
    }
  }

  lemma {:induction false} MergedIff(n: Op, ins: seq<Chan>, outs: seq<Chan>)
    requires n.op in {"merge", "mux"}
    requires |ins| == |n.operands| && |outs| == |n.results|
    ensures Related(n, ins, outs) <==> Agree(n, ins) && ResultChannels(n, Given(ins)) == Some(Given(outs))
  {
    KnownFirst(ins);
    if ins != [] {
      assert Given(ins)[1..] == Given(ins[1..]);
      KnownFirst(ins[1..]);
      GivenOne(outs, if n.op == "merge" then Known(Given(ins)) else Known(Given(ins[1..])));
    } else {
      GivenOne(outs, None);
    }
    hide Known, Given;
  }

  lemma {:induction false} ClauseIff(n: Op, ins: seq<Chan>, outs: seq<Chan>)
    requires n.op in {"control_merge", "load", "store", "mem_controller"}
    requires |ins| == |n.operands| && |outs| == |n.results|
    ensures Related(n, ins, outs) <==> ResultChannels(n, Given(ins)) == Some(Given(outs))
  {
    GivenIff(n.clause, outs);
    GivenIff(n.clause + [CONTROL], outs);
    assert Given(n.clause) + [Some(CONTROL)] == Given(n.clause + [CONTROL]);
    if |n.clause| == 4 {
      GivenIff(n.clause[2..], outs);
      assert n.clause[2..] == [n.clause[2], n.clause[3]];
    }
  }

  lemma {:induction false} CopiedIff(n: Op, ins: seq<Chan>, outs: seq<Chan>)
    requires n.op in {"fork", "lazy_fork", "cond_br"}
    requires |ins| == |n.operands| && |outs| == |n.results|
    ensures Related(n, ins, outs) <==> ResultChannels(n, Given(ins)) == Some(Given(outs))
  {
    if n.op == "cond_br" {
      if |ins| >= 2 {
        GivenIff([ins[1], ins[1]], outs);
        assert Given([ins[1], ins[1]]) == [Some(ins[1]), Some(ins[1])];
      }
    } else if ins != [] {
      assert Copies(|outs|, Given(ins)[0]) == Given(seq(|outs|, _ => ins[0]));
      GivenIff(seq(|outs|, _ => ins[0]), outs);
    }
  }

  lemma {:induction false} OtherIff(n: Op, ins: seq<Chan>, outs: seq<Chan>)
    requires n.op !in {"merge", "mux", "control_merge", "load", "store", "mem_controller"}
    requires n.op !in {"fork", "lazy_fork", "cond_br"}
    requires |ins| == |n.operands| && |outs| == |n.results|
    ensures Related(n, ins, outs) <==> ResultChannels(n, Given(ins)) == Some(Given(outs))
  {
    var r := ResultChannels(n, Given(ins));
    if r.Some? && |r.value| == 1 {
      assert r.value == [r.value[0]];
      GivenOne(outs, r.value[0]);
    }
  }

  /** With every operand known, the rule answers exactly the results that the operation asks for. */
  lemma {:induction false} RuleIff(n: Op, ins: seq<Chan>, outs: seq<Chan>)
    requires |ins| == |n.operands| && |outs| == |n.results|
    ensures Related(n, ins, outs) <==> Agree(n, ins) && ResultChannels(n, Given(ins)) == Some(Given(outs))
  {
    hide Related, ResultChannels;
    if n.op in {"merge", "mux"} {
      MergedIff(n, ins, outs);
    } else if n.op in {"control_merge", "load", "store", "mem_controller"} {
      ClauseIff(n, ins, outs);
    } else if n.op in {"fork", "lazy_fork", "cond_br"} {
      CopiedIff(n, ins, outs);
    } else {
      OtherIff(n, ins, outs);
    }
  }

  /** So a graph is well typed exactly when the rule, asked about the typing, answers the typing. */
  lemma {:induction false} AnswersTyping(n: Op, t: Channels)
    requires (forall v | v in n.operands :: v in t) && (forall v | v in n.results :: v in t)
    ensures WellTyped(n, t) <==> Agree(n, Typed(n.operands, t)) && Answer(n, t) == Some(Given(Typed(n.results, t)))
  {
    assert KnownOperands(n, t) == Given(Typed(n.operands, t));
    RuleIff(n, Typed(n.operands, t), Typed(n.results, t));
    hide Related, ResultChannels, Agree;
  }

  lemma {:induction false} AlikeSame(n: Op, t: Channels)
    requires WellTyped(n, t)
    ensures forall v | v in Alike(n) :: v in t && t[v] == t[Alike(n)[0]]
  {
    AnswersTyping(n, t);
    var ins := Typed(n.operands, t);
    if Alike(n) != [] {
      var d := if n.op == "mux" then 1 else 0;
      forall i | 0 <= i < |Alike(n)| ensures Alike(n)[i] in t && t[Alike(n)[i]] == t[Alike(n)[0]] {
        assert n.operands[d + i] in n.operands;
        assert Typed(n.operands, t)[d..][i] == Typed(n.operands, t)[d..][0];
      }
    }
  }

  lemma {:induction false} KnownIs(xs: seq<string>, ch: Channels, c: Chan)
    requires forall v | v in xs && v in ch :: ch[v] == c
    ensures Known(Reads(xs, ch)) in {None, Some(c)}
    ensures Known(Reads(xs, ch)).Some? <==> exists v :: v in xs && v in ch
  {
    if xs != [] {
      var rest := xs[1..];
      assert Reads(xs, ch)[1..] == Reads(rest, ch);
      assert xs[0] in xs;
      assert forall v :: v in xs <==> v == xs[0] || v in rest;
      KnownIs(rest, ch, c);
    }
  }

  ghost predicate Complete(a: Option<seq<Option<Chan>>>) {
    a.Some? && forall k | 0 <= k < |a.value| :: a.value[k].Some?
  }

  /** The `k`th answer, if the rule gives one. */
  ghost function AnswerAt(n: Op, ch: Channels, k: nat): Option<Chan> {
    var a := Answer(n, ch);
    if a.Some? && k < |a.value| then a.value[k] else None
  }

  lemma {:induction false} KnownMerge(n: Op, xs: seq<string>, a: Channels, b: Channels, t: Channels)
    requires WellTyped(n, t) && Below(a, b) && Below(b, t) && xs == Alike(n)
    ensures var ka := Known(Reads(xs, a));
            var kb := Known(Reads(xs, b));
            var kt := Known(Reads(xs, t));
            && (ka.None? || ka == kt) && (kb.None? || kb == kt) && (ka.Some? ==> kb.Some?)
  {
    AlikeSame(n, t);
    hide WellTyped;
    if xs != [] {
      assert xs[0] in xs;
      var c := t[xs[0]];
      KnownIs(xs, a, c);
      KnownIs(xs, b, c);
      KnownIs(xs, t, c);
    }
  }

  /** `x` is unknown or what `z` is, and known if `y` must be. */
  predicate Grows(x: Option<Chan>, y: Option<Chan>, z: Option<Chan>) {
    (x.None? || x == z) && (x.Some? ==> y.Some?)
  }

  predicate AllGrow(xs: seq<Option<Chan>>, ys: seq<Option<Chan>>, zs: seq<Option<Chan>>) {
    |xs| == |ys| == |zs| && forall i | 0 <= i < |xs| :: Grows(xs[i], ys[i], zs[i])
  }

  lemma {:induction false} RuleGrows(n: Op, xs: seq<Option<Chan>>, ys: seq<Option<Chan>>, zs: seq<Option<Chan>>)
    requires |xs| == |ys| == |zs| == |n.operands| && AllGrow(xs, ys, zs)
    requires n.op == "merge" ==> Grows(Known(xs), Known(ys), Known(zs))
    requires n.op == "mux" && xs != [] ==> Grows(Known(xs[1..]), Known(ys[1..]), Known(zs[1..]))
    ensures var x, y, z := ResultChannels(n, xs), ResultChannels(n, ys), ResultChannels(n, zs);
            (x.Some? <==> z.Some?) && (y.Some? <==> z.Some?) && (z.Some? ==> AllGrow(x.value, y.value, z.value))
  {
    hide Known;
  }

  /** Knowing more never changes an answer, and every answer is the typing's. */
  lemma {:induction false} AnswersGrow(n: Op, a: Channels, b: Channels, t: Channels)
    requires WellTyped(n, t) && Below(a, b) && Below(b, t)
    ensures Answer(n, a).Some? && |Answer(n, a).value| == |n.results|
    ensures forall k: nat | k < |n.results| ::
        && (AnswerAt(n, a, k).Some? ==> AnswerAt(n, b, k).Some?)
        && (AnswerAt(n, a, k).None? || AnswerAt(n, a, k) == Some(t[n.results[k]]))
  {
    var ka, kb, kt := KnownOperands(n, a), KnownOperands(n, b), KnownOperands(n, t);
    forall i | 0 <= i < |n.operands| ensures Grows(ka[i], kb[i], kt[i]) {
      assert n.operands[i] in n.operands;
    }
    OperandsKnown(n, a, b, t);
    AnswersTyping(n, t);
    assert forall k | 0 <= k < |n.results| :: n.results[k] in n.results;
    RuleGrows(n, ka, kb, kt);
    hide ResultChannels, KnownOperands, Known, WellTyped, Agree, AllSame;
    assert AllGrow(Answer(n, a).value, Answer(n, b).value, Answer(n, t).value);
  }

  lemma {:induction false} OperandsKnown(n: Op, a: Channels, b: Channels, t: Channels)
    requires WellTyped(n, t) && Below(a, b) && Below(b, t)
    ensures var ka, kb, kt := KnownOperands(n, a), KnownOperands(n, b), KnownOperands(n, t);
            && (n.op == "merge" ==> Grows(Known(ka), Known(kb), Known(kt)))
            && (n.op == "mux" && ka != [] ==> Grows(Known(ka[1..]), Known(kb[1..]), Known(kt[1..])))
  {
    var ka, kb, kt := KnownOperands(n, a), KnownOperands(n, b), KnownOperands(n, t);
    if n.op == "merge" {
      KnownMerge(n, n.operands, a, b, t);
    } else if n.op == "mux" && n.operands != [] {
      var xs := n.operands[1..];
      KnownMerge(n, xs, a, b, t);
      hide Known, WellTyped;
      assert ka[1..] == Reads(xs, a);
      assert kb[1..] == Reads(xs, b);
      assert kt[1..] == Reads(xs, t);
    }
  }

  lemma {:induction false} SomeFrom(xs: seq<string>, d: nat, ch: Channels)
    requires d <= |xs|
    ensures (exists v :: v in xs[d..] && v in ch) <==> exists i :: d <= i < |xs| && xs[i] in ch
  {
    if v :| v in xs[d..] && v in ch {
      var j :| 0 <= j < |xs[d..]| && xs[d..][j] == v;
      assert xs[d + j] in ch;
    }
    if i :| d <= i < |xs| && xs[i] in ch {
      assert xs[d..][i - d] in ch;
    }
  }

  /** A merge asks the operands from this one on. */
  function FirstAsked(n: Op): (d: nat)
    ensures d <= |n.operands|
  {
    if n.op == "mux" && n.operands != [] then 1 else 0
  }

  lemma {:induction false} MergeAsks(n: Op, ch: Channels)
    requires n.op in {"merge", "mux"}
    ensures Complete(Answer(n, ch)) <==> Known(Reads(n.operands[FirstAsked(n)..], ch)).Some?
  {
    var d := FirstAsked(n);
    assert Reads(n.operands[d..], ch) == KnownOperands(n, ch)[d..];
    hide Known;
    assert Answer(n, ch) == Some([Known(Reads(n.operands[d..], ch))]);
    assert Complete(Answer(n, ch)) <==> Answer(n, ch).value[0].Some?;
  }

  lemma {:induction false} MergeKnows(n: Op, ch: Channels, t: Channels)
    requires n.op in {"merge", "mux"} && WellTyped(n, t) && Below(ch, t)
    ensures var xs := n.operands[FirstAsked(n)..]; Known(Reads(xs, ch)).Some? <==> exists v :: v in xs && v in ch
  {
    AlikeSame(n, t);
    hide WellTyped;
    var xs := n.operands[FirstAsked(n)..];
    assert xs == Alike(n);
    if xs != [] {
      KnownIs(xs, ch, t[xs[0]]);
    }
  }

  lemma {:induction false} MergeReady(n: Op, ch: Channels, t: Channels)
    requires n.op in {"merge", "mux"} && WellTyped(n, t) && Below(ch, t)
    ensures Complete(Answer(n, ch)) <==> Ready(n, ch)
  {
    var d := FirstAsked(n);
    MergeAsks(n, ch);
    MergeKnows(n, ch, t);
    SomeFrom(n.operands, d, ch);
    hide WellTyped, Known, Reads, Answer;
    assert Ready(n, ch) <==> exists i :: d <= i < |n.operands| && n.operands[i] in ch;
  }

  lemma {:induction false} ForkReady(n: Op, ch: Channels)
    requires n.op in {"fork", "lazy_fork", "cond_br"}
    requires Answer(n, ch).Some? && |Answer(n, ch).value| == |n.results|
    ensures Complete(Answer(n, ch)) <==> Ready(n, ch)
  {
    hide Known;
    var a := Answer(n, ch).value;
    assert a != [] ==> (Complete(Answer(n, ch)) <==> a[0].Some?);
  }

  lemma {:induction false} OthersReady(n: Op, ch: Channels)
    requires n.op !in {"merge", "mux", "fork", "lazy_fork", "cond_br"}
    requires Answer(n, ch).Some? && |Answer(n, ch).value| == |n.results|
    ensures Complete(Answer(n, ch)) <==> Ready(n, ch)
  {
    hide Known;
    var a := Answer(n, ch).value;
    if n.op !in {"control_merge", "load", "store", "mem_controller"} && a != [] {
      assert Complete(Answer(n, ch)) <==> a[0].Some?;
    }
  }

  /** What makes the rule answer in full: just the operands that the operation's results depend on. */
  lemma {:induction false} ReadyIff(n: Op, ch: Channels, t: Channels)
    requires WellTyped(n, t) && Below(ch, t)
    ensures Complete(Answer(n, ch)) <==> Ready(n, ch)
  {
    if n.op in {"merge", "mux"} {
      MergeReady(n, ch, t);
    } else {
      AnswersGrow(n, ch, ch, t);
      hide WellTyped, Known;
      if n.op in {"fork", "lazy_fork", "cond_br"} {
        ForkReady(n, ch);
      } else {
        OthersReady(n, ch);
      }
    }
  }

  /** What is enough to know stays enough when more is known. */
  lemma {:induction false} ReadyMore(n: Op, a: Channels, b: Channels)
    requires Ready(n, a) && forall v | v in a :: v in b
    ensures Ready(n, b)
  {
  }

  // ---- the sweep ------------------------------------------------------------------

  /** All widths found; or a node whose rule refuses; or nodes that wait for each other. */
  datatype Outcome = Resolved(ch: Channels) | Refused(node: Op) | Deadlocked(ch: Channels, pending: seq<Op>)

  ghost predicate Has(n: Op, ch: Channels) {
    forall v | v in n.results :: v in ch
  }

  /** `n` has been answered. */
  ghost predicate Done(n: Op, ch: Channels) {
    Has(n, ch) && Ready(n, ch)
  }

  /** Nothing more can be answered from `ch`. */
  ghost predicate Closed(nodes: seq<Op>, ch: Channels) {
    forall n | n in nodes && Ready(n, ch) :: Has(n, ch)
  }

  /** `ch` is what must be known, and no more: the least closed extension of `args` below the typing. */
  ghost predicate Least(nodes: seq<Op>, args: Channels, t: Channels, ch: Channels) {
    && Closed(nodes, ch) && Below(args, ch) && Below(ch, t)
    && forall c :: Closed(nodes, c) && Below(args, c) && Below(c, t) ==> Below(ch, c)
  }

  /** What holds, in a well-typed graph, between assignments. */
  ghost predicate Sound(nodes: seq<Op>, args: Channels, t: Channels, ch: Channels) {
    && Below(args, ch) && Below(ch, t)
    && forall c :: Closed(nodes, c) && Below(args, c) && Below(c, t) ==> Below(ch, c)
  }

  /** `ch` with the answers for `n`'s results. */
  function Assign(ch: Channels, names: seq<string>, widths: seq<Option<Chan>>): (r: Channels)
    requires |names| == |widths|
    ensures forall v :: v in r ==> v in ch || v in names
    ensures forall v | v in ch && v !in names :: v in r && r[v] == ch[v]
    decreases |names|
  {
    if names == [] then ch
    else
      var n := |names| - 1;
      var rest := Assign(ch, names[..n], widths[..n]);
      if widths[n].Some? then rest[names[n] := widths[n].value] else rest
  }

  lemma {:induction false} AssignTyped(ch: Channels, names: seq<string>, widths: seq<Option<Chan>>, t: Channels)
    requires |names| == |widths| && Below(ch, t)
    requires forall k | 0 <= k < |names| :: names[k] in t && widths[k] == Some(t[names[k]])
    ensures Below(Assign(ch, names, widths), t) && Below(ch, Assign(ch, names, widths))
    ensures forall v | v in names :: v in Assign(ch, names, widths)
    ensures forall c | Below(ch, c) && Below(c, t)
              && (forall v | v in names :: v in c) :: Below(Assign(ch, names, widths), c)
    decreases |names|
  {
    if names != [] {
      var n := |names| - 1;
      AssignTyped(ch, names[..n], widths[..n], t);
      assert names == names[..n] + [names[n]];
      assert names[n] in names;
    }
  }

  /** A completely answered node adds only what the typing and every closed extension have. */
  lemma {:induction false} AssignSound(nodes: seq<Op>, args: Channels, t: Channels, ch: Channels, n: Op)
    requires n in nodes && WellTyped(n, t) && Sound(nodes, args, t, ch) && Complete(Answer(n, ch))
    requires |Answer(n, ch).value| == |n.results|
    ensures var more := Assign(ch, n.results, Answer(n, ch).value);
            Sound(nodes, args, t, more) && Below(ch, more) && Done(n, more)
  {
    var widths := Answer(n, ch).value;
    AnswersGrow(n, ch, ch, t);
    forall k: nat | k < |n.results| ensures n.results[k] in t && widths[k] == Some(t[n.results[k]]) {
      assert n.results[k] in n.results;
      assert AnswerAt(n, ch, k) == widths[k];
    }
    AssignTyped(ch, n.results, widths, t);
    var more := Assign(ch, n.results, widths);
    ReadyIff(n, ch, t);
    hide Ready, WellTyped, Answer, AnswerAt;
    forall c | Closed(nodes, c) && Below(args, c) && Below(c, t) ensures Below(more, c) {
      ReadyMore(n, ch, c);
    }
    ReadyMore(n, ch, more);
  }

  predicate AnyUnknown(widths: seq<Option<Chan>>) {
    exists k :: 0 <= k < |widths| && widths[k].None?
  }

  /**
   One pass over the pending nodes: those whose widths are all known are assigned, the rest are kept.
   Nothing if a rule refuses.
   */
  method Sweep(nodes: seq<Op>, pending: seq<Op>, start: Channels, ghost args: Channels, ghost t: Channels)
    returns (ch: Channels, kept: seq<Op>, refused: Option<Op>)
    requires forall n | n in pending :: n in nodes
    ensures |kept| <= |pending| && (forall n | n in kept :: n in pending)
    ensures Typing(nodes, t) && Sound(nodes, args, t, start) ==>
              refused.None? && Sound(nodes, args, t, ch) && Below(start, ch)
    ensures Typing(nodes, t) && Sound(nodes, args, t, start) ==> forall n | n in pending && n !in kept :: Done(n, ch)
    ensures refused.None? && |kept| == |pending| ==>
              ch == start && kept == pending && forall n | n in pending :: !Complete(Answer(n, ch))
  {
    hide Sound, Typing, Closed, Answer, WellTyped, Done, Below;
    ch, kept := start, [];
    BelowItself(start);
    for i := 0 to |pending|
      invariant |kept| <= i && forall n | n in kept :: n in pending[..i]
      invariant Typing(nodes, t) && Sound(nodes, args, t, start) ==>
          Sound(nodes, args, t, ch) && Below(start, ch) && forall n | n in pending[..i] && n !in kept :: Done(n, ch)
      invariant |kept| == i ==> ch == start && kept == pending[..i] && forall n | n in kept :: !Complete(Answer(n, ch))
    {
      var n := pending[i];
      assert n in pending;
      assert pending[..i + 1] == pending[..i] + [n];
      var widths := Answer(n, ch);
      SweepOne(nodes, args, t, start, ch, n);
      if widths.None? || |widths.value| != |n.results| {
        return ch, kept, Some(n);
      }
      if AnyUnknown(widths.value) {
        kept := kept + [n];
      } else {
        assert Complete(widths);
        ch := Assign(ch, n.results, widths.value);
      }
    }
    assert pending[..|pending|] == pending;
    refused := None;
  }

  lemma {:induction false} BelowItself(ch: Channels)
    ensures Below(ch, ch)
  {
  }

  lemma {:induction false} BelowTrans(a: Channels, b: Channels, c: Channels)
    requires Below(a, b) && Below(b, c)
    ensures Below(a, c)
  {
  }

  lemma {:induction false} DoneMore(n: Op, a: Channels, b: Channels)
    requires Done(n, a) && Below(a, b)
    ensures Done(n, b)
  {
    ReadyMore(n, a, b);
    hide Ready;
  }

  /** In a well-typed graph the rule answers, and a complete answer keeps everything sound. */
  lemma {:induction false} SweepOne(nodes: seq<Op>, args: Channels, t: Channels, start: Channels, ch: Channels, n: Op)
    requires n in nodes
    ensures Typing(nodes, t) && Sound(nodes, args, t, ch) ==>
              Answer(n, ch).Some? && |Answer(n, ch).value| == |n.results|
    ensures Typing(nodes, t) && Sound(nodes, args, t, ch) && Below(start, ch) && Complete(Answer(n, ch)) ==>
              var more := Assign(ch, n.results, Answer(n, ch).value);
              && Sound(nodes, args, t, more) && Below(start, more) && Done(n, more)
              && forall m | m in nodes && Done(m, ch) :: Done(m, more)
  {
    if Typing(nodes, t) && Sound(nodes, args, t, ch) {
      assert WellTyped(n, t);
      AnswersGrow(n, ch, ch, t);
      if Below(start, ch) && Complete(Answer(n, ch)) {
        AssignSound(nodes, args, t, ch, n);
        var more := Assign(ch, n.results, Answer(n, ch).value);
        assert Below(more, t);
        hide Sound, Answer, WellTyped, Assign, Done;
        BelowTrans(start, ch, more);
        forall m | m in nodes && Done(m, ch) ensures Done(m, more) {
          DoneMore(m, ch, more);
        }
      }
    }
  }

  lemma {:induction false} SoundStart(nodes: seq<Op>, args: Channels, t: Channels)
    requires Below(args, t)
    ensures Sound(nodes, args, t, args)
  {
  }

  /** Nodes answered stay answered, and the rest are still pending. */
  ghost predicate Settled(nodes: seq<Op>, pending: seq<Op>, ch: Channels) {
    forall n | n in nodes && n !in pending :: Done(n, ch)
  }

  lemma {:induction false} SettledMore(nodes: seq<Op>, pending: seq<Op>, kept: seq<Op>, start: Channels, ch: Channels,
      t: Channels)
    requires Typing(nodes, t) && Settled(nodes, pending, start) && Below(start, ch) && Below(ch, t)
    requires forall n | n in pending && n !in kept :: Done(n, ch)
    ensures Settled(nodes, kept, ch)
  {
    forall n | n in nodes && n !in kept ensures Done(n, ch) {
      if n !in pending {
        DoneMore(n, start, ch);
      }
    }
  }

  /** Swept until nothing is pending or a pass assigns nothing; at most one pass per node. */
  method ResolveWidths(nodes: seq<Op>, args: Channels, ghost t: Channels) returns (r: Outcome, rounds: nat)
    ensures rounds <= |nodes|
    ensures Typing(nodes, t) && Below(args, t) ==> !r.Refused? && Least(nodes, args, t, r.ch)
    ensures Typing(nodes, t) && Below(args, t) ==> (r.Resolved? <==> forall n | n in nodes :: Done(n, r.ch))
    ensures Typing(nodes, t) && Below(args, t) && r.Resolved? ==>
              forall n, v | n in nodes && v in n.results :: v in r.ch && v in t && r.ch[v] == t[v]
  {
    hide Typing, Below, Sound, Done, Least, Settled;
    var ch, pending := args, nodes;
    rounds := 0;
    if Below(args, t) {
      SoundStart(nodes, args, t);
    }
    SettledAtFirst(nodes, args);
    while pending != []
      invariant rounds + |pending| <= |nodes| && forall n | n in pending :: n in nodes
      invariant Typing(nodes, t) && Below(args, t) ==> Sound(nodes, args, t, ch) && Settled(nodes, pending, ch)
      decreases |pending|
    {
      var more, kept, refused := Sweep(nodes, pending, ch, args, t);
      rounds := rounds + 1;
      if refused.Some? {
        return Refused(refused.value), rounds;
      }
      if Typing(nodes, t) && Below(args, t) {
        SettledSweep(nodes, pending, kept, args, ch, more, t);
      }
      if |kept| == |pending| {
        if Typing(nodes, t) && Below(args, t) {
          DeadlockIsLeast(nodes, pending, args, ch, t);
        }
        return Deadlocked(ch, pending), rounds;
      }
      ch, pending := more, kept;
    }
    if Typing(nodes, t) && Below(args, t) {
      ResolvedIsLeast(nodes, args, ch, t);
    }
    r := Resolved(ch);
  }

  lemma {:induction false} SettledAtFirst(nodes: seq<Op>, ch: Channels)
    ensures Settled(nodes, nodes, ch)
  {
  }

  lemma {:induction false} SettledSweep(nodes: seq<Op>, pending: seq<Op>, kept: seq<Op>, args: Channels,
      start: Channels, ch: Channels, t: Channels)
    requires Typing(nodes, t) && Settled(nodes, pending, start) && Below(start, ch) && Sound(nodes, args, t, ch)
    requires forall n | n in pending && n !in kept :: Done(n, ch)
    ensures Settled(nodes, kept, ch)
  {
    SettledMore(nodes, pending, kept, start, ch, t);
  }

  lemma {:induction false} DeadlockIsLeast(nodes: seq<Op>, pending: seq<Op>, args: Channels, ch: Channels, t: Channels)
    requires Typing(nodes, t) && Sound(nodes, args, t, ch) && Settled(nodes, pending, ch) && pending != []
    requires forall n | n in pending :: n in nodes
    requires forall n | n in pending :: !Complete(Answer(n, ch))
    ensures Least(nodes, args, t, ch) && exists n :: n in nodes && !Done(n, ch)
  {
    assert pending[0] in pending;
    forall n | n in pending ensures !Ready(n, ch) {
      ReadyIff(n, ch, t);
    }
    hide Ready, WellTyped, Answer;
    assert !Done(pending[0], ch);
    forall n | n in nodes && Ready(n, ch) ensures Has(n, ch) {
      assert n !in pending;
    }
  }

  lemma {:induction false} ResolvedIsLeast(nodes: seq<Op>, args: Channels, ch: Channels, t: Channels)
    requires Sound(nodes, args, t, ch) && Settled(nodes, [], ch)
    ensures Least(nodes, args, t, ch) && forall n | n in nodes :: Done(n, ch)
    ensures forall n, v | n in nodes && v in n.results :: v in ch && v in t && ch[v] == t[v]
  {
  }

  /**
   The order in which a well-typed graph's nodes are listed makes no difference: the widths found are the
   typing's, and they, and so whether all are found, are the same.
   */
  lemma {:induction false} OrderIrrelevant(nodes: seq<Op>, others: seq<Op>, args: Channels, t: Channels, ch: Channels,
      ch': Channels)
    requires forall n :: n in nodes <==> n in others
    requires Least(nodes, args, t, ch) && Least(others, args, t, ch')
    ensures ch == ch' && Below(ch, t)
  {
    assert Closed(nodes, ch') && Closed(others, ch);
    assert Below(ch, ch') && Below(ch', ch);
    assert ch.Keys == ch'.Keys;
  }
}
