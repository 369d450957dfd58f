/**
 What one compute unit computes, as emitted and as the operation is meant
 (`BINARY`, `CMPI`, `emit_unit` in bdc/compute.py; `_fused_node_expr` in bdc/emit.py).
 */
module Operators {
  import opened Powers

  /** `v & ((1 << w) - 1)`: the low `w` bits of `v` in two's complement. */
  function Mask(w: nat, v: int): (r: nat)
    ensures r < Pow2(w)
  {
    v % Pow2(w)
  }

  /** The two's complement reading of a `w`-bit value. */
  function Signed(w: nat, x: nat): int
    requires w > 0
  {
    if x >= Pow2(w - 1) then x - Pow2(w) else x
  }

  // ---- the Verilog operators ----------------------------------------------------

  datatype Gate = And | Or | Xor

  function GateBit(g: Gate, x: nat, y: nat): (b: nat)
    ensures b < 2
  {
    match g
    case And => if x % 2 == 1 && y % 2 == 1 then 1 else 0
    case Or => if x % 2 == 1 || y % 2 == 1 then 1 else 0
    case Xor => if x % 2 != y % 2 then 1 else 0
  }

  /** `&`, `|` or `^` on `w` bits. */
  function Bitwise(g: Gate, w: nat, x: nat, y: nat): (r: nat)
    ensures r < Pow2(w)
  {
    if w == 0 then 0 else GateBit(g, x, y) + 2 * Bitwise(g, w - 1, x / 2, y / 2)
  }

  /** `<<` on `w` bits: vacated places fill with zeros. */
  function ShiftLeft(w: nat, x: nat, y: nat): (r: nat)
    ensures x < Pow2(w) ==> r < Pow2(w)
    decreases y
  {
    if y == 0 then x else ShiftLeft(w, 2 * x % Pow2(w), y - 1)
  }

  /** `>>`: vacated places fill with zeros. */
  function ShiftRight(x: nat, y: nat): (r: nat)
    ensures r <= x
  {
    if y == 0 then x else ShiftRight(x / 2, y - 1)
  }

  /** `>>>` of a signed `w`-bit value: vacated places fill with the sign bit. */
  function ShiftRightSigned(w: nat, x: nat, y: nat): (r: nat)
    requires w > 0
    ensures x < Pow2(w) ==> r < Pow2(w)
    decreases y
  {
    if y == 0 then x
    else ShiftRightSigned(w, x / 2 + (if x >= Pow2(w - 1) then Pow2(w - 1) else 0), y - 1)
  }

  const BINARY: set<string> := {"addi", "subi", "muli", "andi", "ori", "xori", "shli", "shrui", "shrsi"}

  function BinaryExpr(op: string, w: nat, a: nat, b: nat): (r: nat)
    requires op in BINARY && w > 0
    ensures a < Pow2(w) && b < Pow2(w) ==> r < Pow2(w)
  {
    if op == "addi" then Mask(w, a + b)
    else if op == "subi" then Mask(w, a - b)
    else if op == "muli" then Mask(w, a * b)
    else if op == "andi" then Bitwise(And, w, a, b)
    else if op == "ori" then Bitwise(Or, w, a, b)
    else if op == "xori" then Bitwise(Xor, w, a, b)
    else if op == "shli" then ShiftLeft(w, a, b)
    else if op == "shrui" then ShiftRight(a, b)
    else ShiftRightSigned(w, a, b)
  }

  /** Each bit of a bitwise result is the gate of the operands' bits. */
  lemma {:induction false} BitwiseBits(g: Gate, w: nat, x: nat, y: nat, k: nat)
    requires k < w
    ensures ShiftRight(Bitwise(g, w, x, y), k) % 2 == GateBit(g, ShiftRight(x, k), ShiftRight(y, k))
    decreases k
  {
    var rest := Bitwise(g, w - 1, x / 2, y / 2);
    assert Bitwise(g, w, x, y) / 2 == rest;
    if k > 0 {
      BitwiseBits(g, w - 1, x / 2, y / 2, k - 1);
    }
  }

  /** Read as binary digits: `&` is both, `|` is either, `^` is exactly one, place by place. */
  lemma {:induction false} BitwiseDigits(w: nat, x: nat, y: nat, k: nat)
    requires k < w
    ensures Bitwise(And, w, x, y) / Pow2(k) % 2 == 1 <==> x / Pow2(k) % 2 == 1 && y / Pow2(k) % 2 == 1
    ensures Bitwise(Or, w, x, y) / Pow2(k) % 2 == 1 <==> x / Pow2(k) % 2 == 1 || y / Pow2(k) % 2 == 1
    ensures Bitwise(Xor, w, x, y) / Pow2(k) % 2 == 1 <==> x / Pow2(k) % 2 != y / Pow2(k) % 2
  {
    hide Bitwise, ShiftRight, Pow2;
    ShiftRightDivides(x, k);
    ShiftRightDivides(y, k);
    DigitOf(And, w, x, y, k);
    DigitOf(Or, w, x, y, k);
    DigitOf(Xor, w, x, y, k);
  }

  lemma {:induction false} DigitOf(g: Gate, w: nat, x: nat, y: nat, k: nat)
    requires k < w
    ensures Bitwise(g, w, x, y) / Pow2(k) % 2 == GateBit(g, ShiftRight(x, k), ShiftRight(y, k))
  {
    BitwiseBits(g, w, x, y, k);
    ShiftRightDivides(Bitwise(g, w, x, y), k);
  }

  // ---- comparison ---------------------------------------------------------------

  const PREDICATES: set<string> := {"eq", "ne", "ult", "ule", "ugt", "uge", "slt", "sle", "sgt", "sge"}
  const SIGNED_CMPI: set<string> := {"slt", "sle", "sgt", "sge"}

  /** Each predicate over the outputs of one (greater, equal) comparison. */
  function Template(pred: string, greater: bool, equal: bool): bool {
    if pred == "eq" then equal
    else if pred == "ne" then !equal
    else if pred in {"ult", "slt"} then !(greater || equal)
    else if pred in {"ule", "sle"} then !greater
    else if pred in {"ugt", "sgt"} then greater
    else greater || equal
  }

  /** `x ^ {1'b1, zeros}` when the predicate is signed. */
  function Flipped(pred: string, w: nat, x: nat): nat
    requires w > 0
  {
    if pred in SIGNED_CMPI then Bitwise(Xor, w, x, Pow2(w - 1)) else x
  }

  function CompareExpr(pred: string, w: nat, a: nat, b: nat): bool
    requires w > 0
  {
    var xa, xb := Flipped(pred, w, a), Flipped(pred, w, b);
    Template(pred, xa > xb, xa == xb)
  }

  /** What the predicate means. */
  predicate Compares(pred: string, w: nat, a: nat, b: nat)
    requires w > 0
  {
    if pred == "eq" then a == b
    else if pred == "ne" then a != b
    else if pred == "ult" then a < b
    else if pred == "ule" then a <= b
    else if pred == "ugt" then a > b
    else if pred == "uge" then a >= b
    else if pred == "slt" then Signed(w, a) < Signed(w, b)
    else if pred == "sle" then Signed(w, a) <= Signed(w, b)
    else if pred == "sgt" then Signed(w, a) > Signed(w, b)
    else Signed(w, a) >= Signed(w, b)
  }

  /** Flipping the top bit moves a value by half the range. */
  lemma {:induction false} FlipAdds(w: nat, x: nat)
    requires w > 0 && x < Pow2(w)
    ensures Bitwise(Xor, w, x, Pow2(w - 1)) == if x >= Pow2(w - 1) then x - Pow2(w - 1) else x + Pow2(w - 1)
  {
    if w == 1 {
      assert Pow2(0) == 1 && Pow2(1) == 2;
      assert Bitwise(Xor, 0, x / 2, 0) == 0;
      assert Bitwise(Xor, 1, x, 1) == GateBit(Xor, x, 1) + 2 * Bitwise(Xor, 0, x / 2, 0);
    } else {
      var half := Pow2(w - 2);
      assert Pow2(w - 1) == 2 * half && Pow2(w) == 4 * half;
      assert Pow2(w - 1) / 2 == half && Pow2(w - 1) % 2 == 0;
      FlipAdds(w - 1, x / 2);
      assert x == 2 * (x / 2) + x % 2;
      assert GateBit(Xor, x, 2 * half) == x % 2;
    }
  }

  lemma {:induction false} FlipKeepsOrder(w: nat, a: nat, b: nat)
    requires w > 0 && a < Pow2(w) && b < Pow2(w)
    ensures var m := Pow2(w - 1);
            && (Bitwise(Xor, w, a, m) < Bitwise(Xor, w, b, m) <==> Signed(w, a) < Signed(w, b))
            && (Bitwise(Xor, w, a, m) == Bitwise(Xor, w, b, m) <==> Signed(w, a) == Signed(w, b))
  {
    FlipAdds(w, a);
    FlipAdds(w, b);
    assert Pow2(w) == 2 * Pow2(w - 1);
  }

  /** One unsigned comparison serves all ten predicates, at every width. */
  lemma {:induction false} FlipOrders(pred: string, w: nat, a: nat, b: nat)
    requires pred in PREDICATES && w > 0 && a < Pow2(w) && b < Pow2(w)
    ensures CompareExpr(pred, w, a, b) == Compares(pred, w, a, b)
  {
    FlipKeepsOrder(w, a, b);
    hide Bitwise, Signed, Pow2;
  }

  // ---- shifts as arithmetic -----------------------------------------------------

  lemma {:induction false} ModTwice(x: nat, p: nat, m: nat)
    requires m > 0
    ensures (x % m) * p % m == x * p % m
  {
    var q, r := x / m, x % m;
    var q', r' := r * p / m, r * p % m;
    assert x * p == (m * q + r) * p == m * (q * p) + r * p;
    assert m * (q * p) + m * q' == m * (q * p + q');
    DivUnique(x * p, m, q * p + q', r');
  }

  lemma {:induction false} DoubleFactor(x: nat, p: nat)
    ensures 2 * x * p == x * (2 * p)
  {
  }

  lemma {:induction false} ShiftLeftMultiplies(w: nat, x: nat, y: nat)
    requires x < Pow2(w)
    ensures ShiftLeft(w, x, y) == x * Pow2(y) % Pow2(w)
    decreases y
  {
    var m := Pow2(w);
    if y == 0 {
      DivUnique(x, m, 0, x);
    } else {
      var p := Pow2(y - 1);
      assert Pow2(y) == 2 * p;
      ShiftLeftMultiplies(w, 2 * x % m, y - 1);
      hide Pow2;
      DoubleFactor(x, p);
      ModTwice(2 * x, p, m);
    }
  }

  lemma {:induction false} ShiftRightDivides(x: nat, y: nat)
    ensures ShiftRight(x, y) == x / Pow2(y)
    decreases y
  {
    if y > 0 {
      ShiftRightDivides(x / 2, y - 1);
      HalveTwice(x, Pow2(y - 1));
    }
  }

  /** A signed shift rounds the signed value towards minus infinity. */
  lemma {:induction false} ShiftRightSignedDivides(w: nat, x: nat, y: nat)
    requires w > 0 && x < Pow2(w)
    ensures Signed(w, ShiftRightSigned(w, x, y)) == Signed(w, x) / Pow2(y)
    decreases y
  {
    if y > 0 {
      assert Pow2(w) == 2 * Pow2(w - 1);
      var next := x / 2 + if x >= Pow2(w - 1) then Pow2(w - 1) else 0;
      assert Signed(w, next) == Signed(w, x) / 2;
      ShiftRightSignedDivides(w, next, y - 1);
      HalveTwice(Signed(w, x), Pow2(y - 1));
    }
  }

  // ---- whole units --------------------------------------------------------------

  /** There is a lowering for the operation. */
  predicate Lowers(op: string, pred: string) {
    op in BINARY || op == "select" || (op == "cmpi" && pred in PREDICATES)
  }

  lemma {:induction false} LoweredOperations(op: string, pred: string)
    ensures op in {"addi", "subi", "muli", "andi", "ori", "xori", "shli", "shrui", "shrsi", "select"} ==>
              Lowers(op, pred)
    ensures Lowers("cmpi", pred) <==>
              pred in {"eq", "ne", "ult", "ule", "ugt", "uge", "slt", "sle", "sgt", "sge"}
  {
  }

  /** Operands of a fusable operation: `s`, `a`, `b` of a select, otherwise `a`, `b`, in that order. */
  function Arity(op: string): nat {
    if op == "select" then 3 else 2
  }

  function ResultWidth(op: string, w: nat): nat {
    if op == "cmpi" then 1 else w
  }

  function PortWidth(op: string, k: nat, w: nat): nat {
    if op == "select" && k == 0 then 1 else w
  }

  /** The right-hand side a fused cell holds for one operation. */
  function FusedExpr(op: string, pred: string, w: nat, ports: seq<nat>): nat
    requires Lowers(op, pred) && w > 0 && |ports| == Arity(op)
  {
    if op == "cmpi" then (if CompareExpr(pred, w, ports[0], ports[1]) then 1 else 0)
    else if op == "select" then (if ports[0] != 0 then ports[1] else ports[2])
    else BinaryExpr(op, w, ports[0], ports[1])
  }

  /** The right-hand side of a unit of its own: a select looks at bit 0 only. */
  function UnitExpr(op: string, pred: string, w: nat, ports: seq<nat>): nat
    requires Lowers(op, pred) && w > 0 && |ports| == Arity(op)
  {
    if op == "cmpi" then (if CompareExpr(pred, w, ports[0], ports[1]) then 1 else 0)
    else if op == "select" then (if ports[0] % 2 == 1 then ports[1] else ports[2])
    else BinaryExpr(op, w, ports[0], ports[1])
  }

  /** What the operation means on two's complement values of width `w`. */
  function Meaning(op: string, pred: string, w: nat, ports: seq<nat>): nat
    requires Lowers(op, pred) && w > 0 && |ports| == Arity(op)
  {
    var a, b := ports[0], ports[1];
    if op == "select" then (if ports[0] == 1 then ports[1] else ports[2])
    else if op == "cmpi" then (if Compares(pred, w, a, b) then 1 else 0)
    else if op == "addi" then Mask(w, Signed(w, a) + Signed(w, b))
    else if op == "subi" then Mask(w, Signed(w, a) - Signed(w, b))
    else if op == "muli" then Mask(w, Signed(w, a) * Signed(w, b))
    else if op == "andi" then Bitwise(And, w, a, b)
    else if op == "ori" then Bitwise(Or, w, a, b)
    else if op == "xori" then Bitwise(Xor, w, a, b)
    else if op == "shli" then a * Pow2(b) % Pow2(w)
    else if op == "shrui" then a / Pow2(b)
    else Mask(w, Signed(w, a) / Pow2(b))
  }

  lemma {:induction false} MaskSigned(w: nat, x: nat)
    requires w > 0 && x < Pow2(w)
    ensures Mask(w, Signed(w, x)) == x
  {
    if x >= Pow2(w - 1) {
      DivUnique(x - Pow2(w), Pow2(w), -1, x);
    } else {
      DivUnique(x, Pow2(w), 0, x);
    }
  }

  /** Sums, differences and products do not care which reading of the operands is taken. */
  lemma {:induction false} MaskCongruent(m: nat, x: int, y: int, q: int)
    requires m > 0 && x == y + m * q
    ensures x % m == y % m
  {
    assert x == m * (y / m + q) + y % m;
    DivUnique(x, m, y / m + q, y % m);
  }

  lemma {:induction false} SignedArithmetic(w: nat, a: nat, b: nat)
    requires w > 0
    ensures Mask(w, a + b) == Mask(w, Signed(w, a) + Signed(w, b))
    ensures Mask(w, a - b) == Mask(w, Signed(w, a) - Signed(w, b))
    ensures Mask(w, a * b) == Mask(w, Signed(w, a) * Signed(w, b))
  {
    var m := Pow2(w);
    var i := if a >= Pow2(w - 1) then 1 else 0;
    var j := if b >= Pow2(w - 1) then 1 else 0;
    var sa, sb := Signed(w, a), Signed(w, b);
    assert a == sa + m * i && b == sb + m * j;
    hide Pow2, Signed;
    MaskCongruent(m, a + b, sa + sb, i + j);
    MaskCongruent(m, a - b, sa - sb, i - j);
    assert a * b == sa * sb + m * (i * sb + j * sa + m * (i * j)) by {
      Expand(sa, sb, m, i, j);
    }
    MaskCongruent(m, a * b, sa * sb, i * sb + j * sa + m * (i * j));
  }

  lemma {:induction false} Expand(x: int, y: int, m: int, i: int, j: int)
    ensures (x + m * i) * (y + m * j) == x * y + m * (i * y + j * x + m * (i * j))
  {
  }

  /** Fused or on its own, a unit computes what its operation means, and the result fits. */
  lemma {:induction false} UnitsAgree(op: string, pred: string, w: nat, ports: seq<nat>)
    requires Lowers(op, pred) && w > 0 && |ports| == if op == "select" then 3 else 2
    requires forall k | 0 <= k < |ports| :: ports[k] < Pow2(if op == "select" && k == 0 then 1 else w)
    ensures FusedExpr(op, pred, w, ports) == UnitExpr(op, pred, w, ports) ==
              Meaning(op, pred, w, ports) < Pow2(if op == "cmpi" then 1 else w)
    ensures op == "select" ==> Meaning(op, pred, w, ports) == if ports[0] == 1 then ports[1] else ports[2]
  {
    hide Bitwise, ShiftLeft, ShiftRight, ShiftRightSigned, CompareExpr, Compares;
    assert ports[0] < Pow2(PortWidth(op, 0, w)) && ports[1] < Pow2(PortWidth(op, 1, w));
    assert Pow2(1) == 2;
    if op == "select" {
      assert ports[2] < Pow2(PortWidth(op, 2, w));
    } else if op == "cmpi" {
      FlipOrders(pred, w, ports[0], ports[1]);
    } else {
      BinaryMeans(op, pred, w, ports);
    }
  }

  lemma {:induction false} BinaryMeans(op: string, pred: string, w: nat, ports: seq<nat>)
    requires op in BINARY && w > 0 && |ports| == Arity(op) && ports[0] < Pow2(w) && ports[1] < Pow2(w)
    ensures BinaryExpr(op, w, ports[0], ports[1]) == Meaning(op, pred, w, ports)
  {
    hide Bitwise, ShiftLeft, ShiftRight, ShiftRightSigned, Signed, Mask, Pow2;
    var a, b := ports[0], ports[1];
    SignedArithmetic(w, a, b);
    ShiftLeftMultiplies(w, a, b);
    ShiftRightDivides(a, b);
    ShiftRightSignedDivides(w, a, b);
    MaskSigned(w, ShiftRightSigned(w, a, b));
  }

  // ---- the operations in numbers --------------------------------------------------

  /** `s` is what the `w` bits `x` stand for as a signed number. */
  ghost predicate ReadsAs(w: nat, x: nat, s: int)
    requires w > 0
  {
    0 <= s + Pow2(w - 1) < Pow2(w) && s % Pow2(w) == x
  }

  lemma {:induction false} SignedIff(w: nat, x: nat, s: int)
    requires w > 0 && x < Pow2(w)
    ensures ReadsAs(w, x, s) <==> s == Signed(w, x)
  {
    var m := Pow2(w);
    assert m == 2 * Pow2(w - 1);
    MaskSigned(w, x);
    if ReadsAs(w, x, s) {
      DivUnique(s, m, if s < 0 then -1 else 0, if s < 0 then s + m else s);
    }
  }

  /** The bits of the three bitwise operations' results, spelled out. */
  lemma {:induction false} BitwiseOperations(op: string, pred: string, w: nat, a: nat, b: nat, r: nat, k: nat)
    requires op in {"andi", "ori", "xori"} && a < Pow2(w) && b < Pow2(w) && k < w
    requires r == Meaning(op, pred, w, [a, b]) || r == FusedExpr(op, pred, w, [a, b])
    ensures r < Pow2(w)
    ensures op == "andi" ==> (r / Pow2(k) % 2 == 1 <==> a / Pow2(k) % 2 == 1 && b / Pow2(k) % 2 == 1)
    ensures op == "ori" ==> (r / Pow2(k) % 2 == 1 <==> a / Pow2(k) % 2 == 1 || b / Pow2(k) % 2 == 1)
    ensures op == "xori" ==> (r / Pow2(k) % 2 == 1 <==> a / Pow2(k) % 2 != b / Pow2(k) % 2)
  {
    BitwiseDigits(w, a, b, k);
    hide Pow2, Bitwise;
  }

  /** The results of arithmetic and shifts, where `sa` and `sb` are the operands read as signed numbers. */
  lemma {:induction false} ArithmeticOperations(op: string, pred: string, w: nat, a: nat, b: nat, sa: int, r: nat)
    requires w > 0 && a < Pow2(w) && b < Pow2(w) && ReadsAs(w, a, sa)
    requires op in {"addi", "subi", "muli", "shli", "shrui", "shrsi"}
    requires r == Meaning(op, pred, w, [a, b]) || r == FusedExpr(op, pred, w, [a, b])
    ensures op == "addi" ==> r == (a + b) % Pow2(w)
    ensures op == "subi" ==> r == (a - b) % Pow2(w)
    ensures op == "muli" ==> r == a * b % Pow2(w)
    ensures op == "shli" ==> r == a * Pow2(b) % Pow2(w)
    ensures op == "shrui" ==> r == a / Pow2(b)
    ensures op == "shrsi" ==> r == sa / Pow2(b) % Pow2(w)
  {
    SignedIff(w, a, sa);
    BinaryMeans(op, pred, w, [a, b]);
    SignedArithmetic(w, a, b);
    hide Pow2, Bitwise, Signed, ShiftLeft, ShiftRight, ShiftRightSigned;
  }

  /** The answers of the ten comparisons. */
  lemma {:induction false} ComparisonOperations(pred: string, w: nat, a: nat, b: nat, sa: int, sb: int, r: nat)
    requires pred in {"eq", "ne", "ult", "ule", "ugt", "uge", "slt", "sle", "sgt", "sge"}
    requires w > 0 && a < Pow2(w) && b < Pow2(w)
    requires ReadsAs(w, a, sa) && ReadsAs(w, b, sb)
    requires r == Meaning("cmpi", pred, w, [a, b]) || r == FusedExpr("cmpi", pred, w, [a, b])
    ensures r == 0 || r == 1
    ensures pred == "eq" ==> (r == 1 <==> a == b)
    ensures pred == "ne" ==> (r == 1 <==> a != b)
    ensures pred == "ult" ==> (r == 1 <==> a < b)
    ensures pred == "ule" ==> (r == 1 <==> a <= b)
    ensures pred == "ugt" ==> (r == 1 <==> a > b)
    ensures pred == "uge" ==> (r == 1 <==> a >= b)
    ensures pred == "slt" ==> (r == 1 <==> sa < sb)
    ensures pred == "sle" ==> (r == 1 <==> sa <= sb)
    ensures pred == "sgt" ==> (r == 1 <==> sa > sb)
    ensures pred == "sge" ==> (r == 1 <==> sa >= sb)
  {
    SignedIff(w, a, sa);
    SignedIff(w, b, sb);
    FlipOrders(pred, w, a, b);
    hide Pow2, Signed, CompareExpr;
  }
}
