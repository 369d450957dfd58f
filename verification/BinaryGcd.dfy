/**
 Binary greatest common divisor in wrapping 32-bit arithmetic, and the host's replica in unbounded
 integers (`k_gcd` in cells/hw/uniform_oracle.py, `gcd_stein` in cells/hw/host_gcd_replay.py).
 */
module BinaryGcd {
  import opened Powers
  import opened Words

  ghost predicate Divides(d: nat, x: nat) {
    exists k: nat :: x == d * k
  }

  /** `g` has exactly the common divisors of `a` and `b`. */
  ghost predicate IsGcd(a: nat, b: nat, g: nat) {
    forall d: nat :: Divides(d, g) <==> Divides(d, a) && Divides(d, b)
  }

  /** The greatest common divisor, by subtraction. */
  function Gcd(a: nat, b: nat): nat
    decreases a + b
  {
    if a == 0 then b
    else if b == 0 then a
    else if a >= b then Gcd(a - b, b)
    else Gcd(a, b - a)
  }

  lemma {:induction false} DividesZero(d: nat)
    ensures Divides(d, 0)
  {
    assert 0 == d * 0;
  }

  lemma {:induction false} DividesSum(d: nat, x: nat, y: nat)
    requires Divides(d, y)
    ensures Divides(d, x) <==> Divides(d, x + y)
  {
    var j: nat :| y == d * j;
    if Divides(d, x) {
      var k: nat :| x == d * k;
      assert x + y == d * (k + j);
    }
    if Divides(d, x + y) {
      var k: nat :| x + y == d * k;
      assert x == d * k - d * j == d * (k - j);
      if k < j {
        Negative(d, k - j);
        assert x == d * 0;
      } else {
        assert x == d * (k - j);
      }
    }
  }

  lemma {:induction false} Negative(d: nat, z: int)
    requires z < 0
    ensures d * z <= 0
  {
  }

  /** `Gcd` is the greatest common divisor. */
  lemma {:induction false} GcdIsGcd(a: nat, b: nat)
    ensures IsGcd(a, b, Gcd(a, b))
    decreases a + b
  {
    forall d: nat ensures Divides(d, Gcd(a, b)) <==> Divides(d, a) && Divides(d, b) {
      DividesZero(d);
      if a != 0 && b != 0 {
        if a >= b {
          GcdIsGcd(a - b, b);
          if Divides(d, b) {
            DividesSum(d, a - b, b);
          }
        } else {
          GcdIsGcd(a, b - a);
          if Divides(d, a) {
            DividesSum(d, b - a, a);
          }
        }
      }
    }
  }

  /** There is no other. */
  lemma {:induction false} GcdUnique(a: nat, b: nat, g: nat, h: nat)
    requires IsGcd(a, b, g) && IsGcd(a, b, h)
    ensures g == h
  {
    assert g == g * 1 && h == h * 1;
    assert Divides(g, g) && Divides(h, h);
    assert Divides(g, h) && Divides(h, g);
    var j: nat :| h == g * j;
    var k: nat :| g == h * k;
    assert g == g * j * k;
    if g != h {
      Squeeze(g, j, k);
    }
  }

  lemma {:induction false} Squeeze(g: nat, j: nat, k: nat)
    requires g == (g * j) * k
    ensures g == g * j
  {
  }

  // ---- the identities the binary algorithm rests on -------------------------------

  lemma {:induction false} GcdDouble(a: nat, b: nat)
    ensures Gcd(2 * a, 2 * b) == 2 * Gcd(a, b)
    decreases a + b
  {
    if a != 0 && b != 0 {
      if a >= b {
        GcdDouble(a - b, b);
        assert 2 * a - 2 * b == 2 * (a - b);
      } else {
        GcdDouble(a, b - a);
        assert 2 * b - 2 * a == 2 * (b - a);
      }
    }
  }

  lemma {:induction false} EvenProduct(d: nat, k: nat)
    requires d % 2 == 0
    ensures (d * k) % 2 == 0
  {
    assert d * k == 2 * (d / 2 * k);
  }

  lemma {:induction false} OddDivides(d: nat, x: nat)
    requires d % 2 == 1 && Divides(d, 2 * x)
    ensures Divides(d, x)
  {
    var k: nat :| 2 * x == d * k;
    var m := d / 2;
    assert d * k == (2 * m + 1) * k == 2 * (m * k) + k;
    var h := k / 2;
    assert k == 2 * h;
    assert d * k == 2 * (d * h);
    assert x == d * h;
  }

  lemma {:induction false} HalfDivisors(d: nat, a: nat, b: nat)
    requires b % 2 == 1 && Divides(d, b)
    ensures Divides(d, 2 * a) <==> Divides(d, a)
  {
    var k: nat :| b == d * k;
    if d % 2 == 0 {
      EvenProduct(d, k);
    }
    if Divides(d, 2 * a) {
      OddDivides(d, a);
    }
    if Divides(d, a) {
      var j: nat :| a == d * j;
      assert 2 * a == d * (2 * j);
    }
  }

  /** A factor of two in one operand does not count when the other is odd. */
  lemma {:induction false} GcdHalf(a: nat, b: nat)
    requires b % 2 == 1
    ensures Gcd(2 * a, b) == Gcd(a, b)
  {
    var g := Gcd(2 * a, b);
    GcdIsGcd(2 * a, b);
    GcdIsGcd(a, b);
    hide Gcd, Divides;
    forall d: nat ensures Divides(d, g) <==> Divides(d, a) && Divides(d, b) {
      if Divides(d, b) {
        HalfDivisors(d, a, b);
      }
    }
    GcdUnique(a, b, g, Gcd(a, b));
  }

  lemma {:induction false} GcdCommutes(a: nat, b: nat)
    ensures Gcd(a, b) == Gcd(b, a)
  {
    GcdIsGcd(a, b);
    GcdIsGcd(b, a);
    GcdUnique(a, b, Gcd(a, b), Gcd(b, a));
  }

  /** The difference and the smaller operand have the same divisor. */
  lemma {:induction false} GcdDifference(a: nat, b: nat)
    ensures a >= b ==> Gcd(a - b, b) == Gcd(a, b)
    ensures a < b ==> Gcd(b - a, a) == Gcd(a, b)
  {
    GcdCommutes(a, b);
  }

  lemma {:induction false} GcdBound(a: nat, b: nat)
    ensures Gcd(a, b) <= if a >= b then a else b
    decreases a + b
  {
    if a != 0 && b != 0 {
      if a >= b {
        GcdBound(a - b, b);
      } else {
        GcdBound(a, b - a);
      }
    }
  }

  // ---- the two replicas -----------------------------------------------------------

  /** The factors of two `a` and `b` share are taken out of both. */
  ghost predicate Halved(a0: nat, b0: nat, a: nat, b: nat, k: nat) {
    a > 0 && b > 0 && a <= a0 && b <= b0 && Gcd(a0, b0) == Gcd(a, b) * Pow2(k)
  }

  lemma {:induction false} HalvedMore(a0: nat, b0: nat, a: nat, b: nat, k: nat)
    requires Halved(a0, b0, a, b, k) && a % 2 == 0 && b % 2 == 0
    ensures Halved(a0, b0, a / 2, b / 2, k + 1)
  {
    GcdDouble(a / 2, b / 2);
    var g, p := Gcd(a / 2, b / 2), Pow2(k);
    assert 2 * (a / 2) == a && 2 * (b / 2) == b;
    assert 2 * g * p == g * (2 * p);
  }

  /** `x` without its factors of two; an odd `other` shares none of them. */
  method StripTwos(x: nat, ghost other: nat) returns (y: nat)
    ensures y <= x && (y == 0 <==> x == 0) && (y > 0 ==> y % 2 == 1) && (x % 2 == 1 ==> y == x)
    ensures other % 2 == 1 ==> Gcd(y, other) == Gcd(x, other)
  {
    y := x;
    while y > 0 && y % 2 == 0
      invariant y <= x && (y == 0 <==> x == 0) && (x % 2 == 1 ==> y == x)
      invariant other % 2 == 1 ==> Gcd(y, other) == Gcd(x, other)
    {
      if other % 2 == 1 {
        GcdHalf(y / 2, other);
      }
      y := y / 2;
    }
  }

  /** Stripping both operands, at least one of them odd, keeps their divisor. */
  lemma {:induction false} BothStripped(a: nat, b: nat, a': nat, b': nat)
    requires a % 2 == 1 || b % 2 == 1
    requires (b % 2 == 1 ==> Gcd(a', b) == Gcd(a, b)) && (a % 2 == 1 ==> a' == a)
    requires Gcd(b', a') == Gcd(b, a')
    ensures Gcd(a', b') == Gcd(a, b)
  {
    GcdCommutes(a', b');
    GcdCommutes(a', b);
  }

  /** The binary algorithm as the hardware runs it: every difference, negation and shift wraps to 32 bits. */
  method GcdWrapping(a0: int, b0: int) returns (r: int)
    requires 0 <= a0 < 0x8000_0000 && 0 <= b0 < 0x8000_0000
    ensures r == Gcd(a0, b0) && 0 <= r < 0x8000_0000
  {
    hide Gcd, Halved, S32;
    var a, b := S32(a0), S32(b0);
    if a == 0 {
      GcdWithZero(b);
      return b;
    }
    if b == 0 {
      GcdWithZero(a);
      return a;
    }
    var k := 0;
    HalvedStart(a, b);
    while a % 2 == 0 && b % 2 == 0
      invariant 0 < a <= a0 && 0 < b <= b0 && 0 <= k && Halved(a0, b0, a, b, k)
      decreases a
    {
      HalvedMore(a0, b0, a, b, k);
      a, b, k := a / 2, b / 2, k + 1;
    }
    ghost var both := Gcd(a, b);
    HalvedGives(a0, b0, a, b, k);
    var a' := StripTwos(a, b);
    var b' := StripTwos(b, a');
    BothStripped(a, b, a', b');
    a, b := a', b';
    while a != 0
      invariant 0 <= a < LIMIT && 0 < b < LIMIT && b % 2 == 1 && (a > 0 ==> a % 2 == 1) && Gcd(a, b) == both
      decreases a + b
    {
      GcdDifference(a, b);
      var diff := S32(a - b);
      assert diff == a - b;
      if a < b {
        b := a;
      }
      a := if diff >= 0 then diff else S32(-diff);
      a := StripTwos(a, b);
    }
    GcdWithZero(b);
    GcdBound(a0, b0);
    r := S32(b * Pow2(k));
  }

  lemma {:induction false} HalvedStart(a: nat, b: nat)
    requires a > 0 && b > 0
    ensures Halved(a, b, a, b, 0)
  {
  }

  lemma {:induction false} HalvedGives(a0: nat, b0: nat, a: nat, b: nat, k: nat)
    requires Halved(a0, b0, a, b, k)
    ensures Gcd(a0, b0) == Gcd(a, b) * Pow2(k)
  {
  }

  lemma {:induction false} GcdWithZero(b: nat)
    ensures Gcd(0, b) == b && Gcd(b, 0) == b
  {
  }

  /** The host's replica, which never wraps. */
  method GcdStein(a0: nat, b0: nat) returns (r: nat)
    ensures r == Gcd(a0, b0)
  {
    hide Gcd, Halved;
    var a, b := a0, b0;
    if a == 0 {
      GcdWithZero(b);
      return b;
    }
    if b == 0 {
      GcdWithZero(a);
      return a;
    }
    var k: nat := 0;
    HalvedStart(a, b);
    while a % 2 == 0 && b % 2 == 0
      invariant 0 < a && 0 < b && Halved(a0, b0, a, b, k)
      decreases a
    {
      HalvedMore(a0, b0, a, b, k);
      a, b, k := a / 2, b / 2, k + 1;
    }
    ghost var both := Gcd(a, b);
    HalvedGives(a0, b0, a, b, k);
    var a' := StripTwos(a, b);
    var b' := StripTwos(b, a');
    BothStripped(a, b, a', b');
    a, b := a', b';
    while a != 0
      invariant 0 <= a && 0 < b && b % 2 == 1 && (a > 0 ==> a % 2 == 1) && Gcd(a, b) == both
      decreases a + b
    {
      GcdDifference(a, b);
      var diff := a - b;
      if a < b {
        b := a;
      }
      if diff >= 0 {
        a := diff;
      } else {
        a := -diff;
      }
      a := StripTwos(a, b);
    }
    GcdWithZero(b);
    r := b * Pow2(k);
  }
}
