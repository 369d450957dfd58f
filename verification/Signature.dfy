/**
 The signature of a batch of gcd runs, computed twice: by the oracle (`lfsr_next`, `uniform_sig` in
 cells/hw/uniform_oracle.py) and by the host's replay (`advance`, `rotl1`, `replay` in
 cells/hw/host_gcd_replay.py).
 */
module Signature {
  import opened Operators
  import opened Powers
  import opened Words
  import opened BinaryGcd

  const WORD: nat := 0x1_0000_0000

  /** Bit `k` of `x`. */
  function Bit(x: nat, k: nat): (b: nat)
    ensures b < 2
  {
    ShiftRight(x, k) % 2
  }

  /** `((s >> 31) ^ (s >> 21) ^ (s >> 1) ^ s) & 1`. */
  function Feedback(s: nat): (b: nat)
    ensures b < 2
  {
    (Bit(s, 31) + Bit(s, 21) + Bit(s, 1) + Bit(s, 0)) % 2
  }

  /** The oracle's register step: shift within 32 bits, then set the low bit. */
  function LfsrNext(s: nat): (t: nat)
    ensures t < WORD
  {
    2 * s % WORD + Feedback(s)
  }

  /** The replay's: mask, shift and set the low bit, then mask. */
  function Advance(x: nat): (t: nat)
    ensures t < WORD
  {
    var y := x % WORD;
    (2 * y + Feedback(y)) % WORD
  }

  lemma {:induction false} TwoSteps(s: nat)
    requires s < WORD
    ensures Advance(s) == LfsrNext(s)
  {
    assert s % WORD == s;
    hide Feedback;
  }

  lemma {:induction false} ShiftRightWide(x: nat, k: nat, m: nat)
    requires k <= m && x == Pow2(m)
    ensures ShiftRight(x, k) == Pow2(m - k)
    decreases k
  {
    if k > 0 {
      ShiftRightWide(x / 2, k - 1, m - 1);
    }
  }

  lemma {:induction false} BitDivides(x: nat, k: nat)
    ensures Bit(x, k) == x / Pow2(k) % 2
  {
    ShiftRightDivides(x, k);
  }

  /** A number doubled, cut to 32 bits, with `b` in the place vacated. */
  lemma {:induction false} DoubledBits(x: nat, b: nat, k: nat)
    requires x < 0x1_0000_0000 && b < 2 && k < 32
    ensures Bit(2 * x % 0x1_0000_0000 + b, k) == if k == 0 then b else Bit(x, k - 1)
  {
    var y := 2 * x % 0x1_0000_0000 + b;
    assert y % 2 == b && y / 2 == x % 0x8000_0000;
    if k > 0 {
      PowersOfTwo();
      LowBits(x, 31, k - 1);
      BitDivides(x, k - 1);
      BitDivides(x % 0x8000_0000, k - 1);
      hide Pow2;
    }
  }

  /** The register moves up by one bit, and the new low bit is the parity of bits 31, 21, 1 and 0. */
  lemma {:induction false} RegisterBits(s: nat, k: nat)
    requires s < 0x1_0000_0000 && k < 32
    ensures LfsrNext(s) % 2 == (s / 0x8000_0000 + s / 0x20_0000 + s / 2 + s) % 2
    ensures k > 0 ==> LfsrNext(s) / Pow2(k) % 2 == s / Pow2(k - 1) % 2
  {
    DoubledBits(s, Feedback(s), 0);
    DoubledBits(s, Feedback(s), k);
    FeedbackParity(s);
    BitDivides(LfsrNext(s), k);
    if k > 0 {
      BitDivides(s, k - 1);
    }
    hide Feedback, Pow2;
  }

  lemma {:induction false} FeedbackParity(s: nat)
    ensures Feedback(s) == (s / 0x8000_0000 + s / 0x20_0000 + s / 2 + s) % 2
  {
    PowersOfTwo();
    hide Pow2, Bit;
    BitDivides(s, 31);
    BitDivides(s, 21);
    BitDivides(s, 1);
    BitDivides(s, 0);
    ParityAdds(s / 0x8000_0000, s / 0x20_0000, s / 2, s);
  }

  lemma {:induction false} ParityAdds(a: nat, b: nat, c: nat, d: nat)
    ensures (a % 2 + b % 2 + c % 2 + d % 2) % 2 == (a + b + c + d) % 2
  {
  }

  /** The register never reaches zero, at which it would stay. */
  lemma {:induction false} NeverZero(s: nat)
    requires 0 < s < WORD
    ensures 0 < LfsrNext(s) < WORD
  {
    if 2 * s % WORD == 0 {
      assert s == WORD / 2;
      assert Pow2(31) == 0x8000_0000 by {
        PowersOfTwo();
      }
      ShiftRightWide(s, 31, 31);
      ShiftRightWide(s, 21, 31);
      ShiftRightWide(s, 1, 31);
      ShiftRightWide(s, 0, 31);
      assert Pow2(10) % 2 == 0 && Pow2(30) % 2 == 0 && Pow2(31) % 2 == 0;
      assert Bit(s, 31) == 1 && Bit(s, 21) == 0 && Bit(s, 1) == 0 && Bit(s, 0) == 0;
    }
  }

  lemma {:induction false} PowersOfTwo()
    ensures Pow2(8) == 0x100 && Pow2(16) == 0x1_0000 && Pow2(24) == 0x100_0000 && Pow2(31) == 0x8000_0000
    ensures Pow2(32) == 0x1_0000_0000 && Pow2(21) == 0x20_0000 && Pow2(1) == 2 && Pow2(0) == 1
  {
    assert Pow2(4) == 16;
    assert Pow2(8) == 256;
    assert Pow2(12) == 4096;
    assert Pow2(16) == 65536;
    assert Pow2(20) == 1048576;
    assert Pow2(21) == 2097152;
    assert Pow2(24) == 16777216;
    assert Pow2(28) == 268435456;
    assert Pow2(31) == 2147483648;
  }

  /** Rotate left by one bit, and fold in a result. */
  function Fold(sig: nat, v: nat): (r: nat)
    ensures r < WORD
  {
    PowersOfTwo();
    Bitwise(Xor, 32, 2 * sig % WORD + ShiftRight(sig, 31) % 2, v)
  }

  lemma {:induction false} FoldBit(sig: nat, v: nat, k: nat)
    requires sig < 0x1_0000_0000 && k < 32
    ensures Bit(Fold(sig, v), k) != Bit(v, k) <==> Bit(sig, if k == 0 then 31 else k - 1) == 1
  {
    DoubledBits(sig, Bit(sig, 31), k);
    BitwiseBits(Xor, 32, 2 * sig % 0x1_0000_0000 + Bit(sig, 31), v, k);
    hide Bitwise, ShiftRight;
  }

  /** Folding in a result flips its bits where the rotated signature has a one. */
  lemma {:induction false} FoldBits(sig: nat, v: nat, k: nat)
    requires sig < 0x1_0000_0000 && v < 0x1_0000_0000 && k < 32
    ensures k == 0 ==> (Fold(sig, v) % 2 != v % 2 <==> sig / 0x8000_0000 % 2 == 1)
    ensures k > 0 ==> (Fold(sig, v) / Pow2(k) % 2 != v / Pow2(k) % 2 <==> sig / Pow2(k - 1) % 2 == 1)
  {
    PowersOfTwo();
    hide Bit, Fold, Pow2;
    FoldBit(sig, v, k);
    BitDivides(Fold(sig, v), k);
    BitDivides(v, k);
    BitDivides(sig, if k == 0 then 31 else k - 1);
  }

  /** The register after `n` runs, each of which steps it twice. */
  function State(seed: nat, n: nat): nat
  {
    if n == 0 then (if seed % WORD == 0 then 1 else seed % WORD) else LfsrNext(LfsrNext(State(seed, n - 1)))
  }

  lemma {:induction false} StateNonZero(seed: nat, n: nat)
    ensures 0 < State(seed, n) < WORD
  {
    if n > 0 {
      StateNonZero(seed, n - 1);
      NeverZero(State(seed, n - 1));
      NeverZero(LfsrNext(State(seed, n - 1)));
    }
  }

  /** The operands of run `n`: two register words with the sign bit cleared. */
  function Operands(seed: nat, n: nat): (ops: (nat, nat))
    ensures ops.0 < LIMIT && ops.1 < LIMIT
  {
    (State(seed, n) % LIMIT, LfsrNext(State(seed, n)) % LIMIT)
  }

  /** The signature of the first `n` runs: a fold over mathematical greatest common divisors. */
  function Sig(seed: nat, n: nat): nat {
    if n == 0 then 0
    else
      var (a, b) := Operands(seed, n - 1);
      Fold(Sig(seed, n - 1), Gcd(a, b))
  }

  /**
   A batch run by run. The register starts at the seed's low 32 bits, or 1, and steps twice a run; the operands are
   its words with the sign bit cleared; the signature is rotated and its bits flip those of the divisor.
   */
  lemma {:induction false} RunByRun(seed: nat, n: nat, k: nat)
    requires k < 32
    ensures Sig(seed, 0) == 0 && State(seed, 0) == if seed % 0x1_0000_0000 == 0 then 1 else seed % 0x1_0000_0000
    ensures State(seed, n + 1) == LfsrNext(LfsrNext(State(seed, n)))
    ensures Operands(seed, n) == (State(seed, n) % 0x8000_0000, LfsrNext(State(seed, n)) % 0x8000_0000)
    ensures var now, before := Sig(seed, n + 1), Sig(seed, n);
            var g := Gcd(Operands(seed, n).0, Operands(seed, n).1);
            && now < 0x1_0000_0000
            && (k == 0 ==> (now % 2 != g % 2 <==> before / 0x8000_0000 % 2 == 1))
            && (k > 0 ==> (now / Pow2(k) % 2 != g / Pow2(k) % 2 <==> before / Pow2(k - 1) % 2 == 1))
  {
    var (a, b) := Operands(seed, n);
    GcdBound(a, b);
    FoldBits(Sig(seed, n), Gcd(a, b), k);
    hide Fold, LfsrNext, Gcd, Pow2;
  }

  /** The oracle's signature, with the wrapping kernel. */
  method UniformSig(seed: nat, n: nat) returns (sig: nat)
    ensures sig == Sig(seed, n)
  {
    hide Fold, LfsrNext, Gcd;
    var lfsr := seed % WORD;
    if lfsr == 0 {
      lfsr := 1;
    }
    sig := 0;
    for i := 0 to n
      invariant lfsr == State(seed, i) && sig == Sig(seed, i)
    {
      var n1 := LfsrNext(lfsr);
      var n2 := LfsrNext(n1);
      var v := GcdWrapping(lfsr % LIMIT, n1 % LIMIT);
      sig := Fold(sig, v % WORD);
      lfsr := n2;
    }
  }

  /** The host's signature with its own register step and kernel, and the last run it replayed. */
  method Replay(seed: nat, n: nat) returns (sig: nat, op0: nat, op1: nat, result: nat)
    requires seed < WORD
    ensures sig == Sig(seed, n)
    ensures n > 0 ==> (op0, op1) == Operands(seed, n - 1) && result == Gcd(op0, op1)
  {
    hide Fold, LfsrNext, Advance, Gcd;
    var state := if seed != 0 then seed else 1;
    sig, op0, op1, result := 0, 0, 0, 0;
    for i := 0 to n
      invariant state == State(seed, i) && sig == Sig(seed, i)
      invariant i > 0 ==> (op0, op1) == Operands(seed, i - 1) && result == Gcd(op0, op1)
    {
      StateNonZero(seed, i);
      TwoSteps(state);
      TwoSteps(LfsrNext(state));
      var n1 := Advance(state);
      var n2 := Advance(n1);
      op0, op1 := state % LIMIT, n1 % LIMIT;
      var g := GcdStein(op0, op1);
      GcdBound(op0, op1);
      result := g % WORD;
      sig := Fold(sig, result);
      state := n2;
    }
  }
}
