/**
 Channel histories: the tokens offered on each channel of a function, and how many of them
 are taken. Operations zip their operands' histories (a Kahn semantics).
 */
module Streams {
  import opened Dataflow
  import opened Powers
  import opened Operators
  import opened ValueUse
  import opened Literals

  /** All the tokens ever offered: finitely many, or one for every index. */
  datatype Stream = Fin(tokens: seq<nat>) | Endless(at: nat -> nat)

  /** The tokens offered, and how many are acknowledged (none stands for all of an endless stream). */
  datatype Channel = Channel(offered: Stream, taken: Option<nat>)

  type History = string -> Channel

  type Width = string -> nat

  predicate Has(s: Stream, k: nat) {
    s.Endless? || k < |s.tokens|
  }

  /** The `k`th token, if there is one. */
  function At(s: Stream, k: nat): nat {
    match s
    case Fin(tokens) => if k < |tokens| then tokens[k] else 0
    case Endless(at) => at(k)
  }

  ghost predicate SameTokens(s: Stream, t: Stream) {
    (forall k :: Has(s, k) <==> Has(t, k)) && forall k | Has(s, k) :: At(s, k) == At(t, k)
  }

  ghost predicate SameChannel(c: Channel, d: Channel) {
    SameTokens(c.offered, d.offered) && c.taken == d.taken
  }

  function ResultName(n: Node): string
    requires n.results != []
  {
    n.results[0]
  }

  /** The width an operation works at: its `a` operand's. */
  function OpWidth(n: Node, width: Width): nat
    requires |n.operands| == Arity(n.op)
  {
    width(n.operands[if n.op == "select" then 1 else 0])
  }

  /** The IR is well typed at `n`. */
  ghost predicate WellTyped(n: Node, width: Width) {
    && |n.operands| == Arity(n.op) && |n.results| == 1 && Lowers(n.op, n.pred)
    && OpWidth(n, width) > 0
    && (forall p | 0 <= p < |n.operands| :: width(n.operands[p]) == PortWidth(n.op, p, OpWidth(n, width)))
    && width(n.results[0]) == ResultWidth(n.op, OpWidth(n, width))
  }

  /** Operand and result widths, operation by operation: a choice is one bit wide, and so is a comparison's answer. */
  lemma {:induction false} WellTypedIff(n: Node, width: Width)
    requires |n.results| == 1
    ensures n.op == "select" ==>
              (WellTyped(n, width) <==>
               && |n.operands| == 3 && width(n.operands[0]) == 1
               && width(n.operands[1]) == width(n.operands[2]) == width(n.results[0]) > 0)
    ensures n.op == "cmpi" ==>
              (WellTyped(n, width) <==>
               && |n.operands| == 2 && Lowers(n.op, n.pred)
               && width(n.operands[0]) == width(n.operands[1]) > 0 && width(n.results[0]) == 1)
    ensures n.op in BINARY ==>
              (WellTyped(n, width) <==>
               |n.operands| == 2 && width(n.operands[0]) == width(n.operands[1]) == width(n.results[0]) > 0)
  {
    assert "select" !in BINARY && "cmpi" !in BINARY;
  }

  /** Every operand has a `k`th token. */
  ghost predicate Offers(n: Node, h: History, k: nat) {
    forall p | 0 <= p < |n.operands| :: Has(h(n.operands[p]).offered, k)
  }

  ghost function Tokens(n: Node, h: History, k: nat): (r: seq<nat>)
    ensures |r| == |n.operands|
  {
    seq(|n.operands|, p requires 0 <= p < |n.operands| => At(h(n.operands[p]).offered, k))
  }

  /** Operation `n` as a cell of its own: it zips its operands, and acknowledges them as its result is acknowledged. */
  ghost predicate Fires(n: Node, width: Width, h: History)
    requires WellTyped(n, width)
  {
    var z := h(ResultName(n));
    && (forall k :: Has(z.offered, k) <==> Offers(n, h, k))
    && (forall k | Has(z.offered, k) ::
          At(z.offered, k) == UnitExpr(n.op, n.pred, OpWidth(n, width), Tokens(n, h, k)))
    && (forall p | 0 <= p < |n.operands| :: h(n.operands[p]).taken == z.taken)
  }

  /** A live constant turns each token of its trigger into its masked literal. */
  ghost predicate ConstantFires(n: Node, width: Width, h: History)
    requires |n.operands| == 1 && |n.results| == 1 && n.value.Some?
  {
    var trigger, z := h(n.operands[0]), h(n.results[0]);
    && (forall k :: Has(z.offered, k) <==> Has(trigger.offered, k))
    && (forall k | Has(z.offered, k) :: At(z.offered, k) == Mask(width(n.results[0]), n.value.value))
    && trigger.taken == z.taken
  }

  /** A source never runs out. */
  ghost predicate SourceFires(n: Node, h: History)
    requires n.results != []
  {
    forall k :: Has(h(n.results[0]).offered, k)
  }

  /** Tokens on `v` fit its width. */
  ghost predicate TypedTokens(v: string, width: Width, h: History) {
    forall k | Has(h(v).offered, k) :: At(h(v).offered, k) < Pow2(width(v))
  }

  // ---- zipping ------------------------------------------------------------------

  ghost predicate AllHave(ins: seq<Stream>, k: nat) {
    forall p | 0 <= p < |ins| :: Has(ins[p], k)
  }

  predicate Within(n: Option<nat>, k: nat) {
    n.Some? ==> k < n.value
  }

  /** How many tokens all of `ins` have; none if all are endless. */
  function Shortest(ins: seq<Stream>): (r: Option<nat>)
    ensures forall k: nat :: Within(r, k) <==> AllHave(ins, k)
  {
    if ins == [] then None
    else
      var rest := Shortest(ins[1..]);
      assert forall k: nat :: AllHave(ins, k) <==> Has(ins[0], k) && AllHave(ins[1..], k);
      if ins[0].Endless? then rest
      else if rest.None? || |ins[0].tokens| < rest.value then Some(|ins[0].tokens|) else rest
  }

  function Heads(ins: seq<Stream>, k: nat): (r: seq<nat>)
    ensures |r| == |ins|
  {
    seq(|ins|, p requires 0 <= p < |ins| => At(ins[p], k))
  }

  function FirstTokens(n: nat, at: nat -> nat): (r: seq<nat>)
    ensures |r| == n && forall k | 0 <= k < n :: r[k] == at(k)
  {
    if n == 0 then [] else FirstTokens(n - 1, at) + [at(n - 1)]
  }

  /** `f` of the operands' tokens, as long as all of them last. */
  ghost function Zip(ins: seq<Stream>, f: seq<nat> --> nat): (r: Stream)
    requires forall xs: seq<nat> | |xs| == |ins| :: f.requires(xs)
    ensures forall k :: Has(r, k) <==> AllHave(ins, k)
    ensures forall k | Has(r, k) :: At(r, k) == f(Heads(ins, k))
  {
    assert forall k: nat :: Within(Shortest(ins), k) <==> AllHave(ins, k);
    var at: nat -> nat := (k: nat) => if f.requires(Heads(ins, k)) then f(Heads(ins, k)) else 0;
    match Shortest(ins)
    case Some(n) => Fin(FirstTokens(n, at))
    case None => Endless(at)
  }
}
