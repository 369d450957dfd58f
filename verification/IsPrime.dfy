/**
 Trial division with shift-and-subtract remainders in 32-bit signed arithmetic: the C kernel, in which
 overflow has no meaning, and its replica, in which it wraps as in the circuit (kernels/isprime/isprime.c,
 `k_isprime` in cells/hw/uniform_oracle.py).
 */
module IsPrime {
  import opened Powers
  import opened Words
  import opened Primes

  const INT_MAX: int := 0x7FFF_FFFF

  /** The largest value whose square an `int` can hold. */
  const ROOT: int := 46340

  /** A result, or the signed overflow at which C gives none. */
  datatype CInt = Value(value: int) | Overflow

  /** `d` shifted left by `k`. */
  ghost function Shifted(d: int, k: nat): int {
    d * Pow2(k)
  }

  lemma {:induction false} ShiftedSteps(d: int, k: nat)
    requires d >= 0
    ensures Shifted(d, 0) == d && Shifted(d, k + 1) == 2 * Shifted(d, k) && Shifted(d, k) >= d
  {
    Grows(d, Pow2(k), 1);
  }

  /** `r` is what is left of `n` after taking away multiples of `d`. */
  ghost predicate Reduced(n: int, d: int, r: int) {
    exists q :: n == d * q + r
  }

  lemma {:induction false} ReducedMore(n: int, d: int, r: int, k: nat)
    requires Reduced(n, d, r)
    ensures Reduced(n, d, r - Shifted(d, k))
  {
    var q :| n == d * q + r;
    assert d * (q + Pow2(k)) == d * q + d * Pow2(k);
  }

  lemma {:induction false} ReducedStart(n: int, d: int)
    ensures Reduced(n, d, n)
  {
    assert n == d * 0 + n;
  }

  lemma {:induction false} ReducedEnd(n: int, d: int, r: int)
    requires Reduced(n, d, r) && 0 <= r < d
    ensures r == n % d
  {
    var q :| n == d * q + r;
    DivUnique(n, d, q, r);
  }

  /** `n mod d`, by long division in base two; no step wraps. */
  method Remainder(n: int, d: int) returns (r: int)
    requires 2 <= d <= n <= INT_MAX
    ensures r == n % d
  {
    hide Shifted, Reduced, S32;
    r := n;
    var s := d;
    var half := n / 2;
    ghost var k: nat := 0;
    ShiftedSteps(d, 0);
    ReducedStart(n, d);
    while s <= half
      invariant d <= s <= n && s == Shifted(d, k)
      decreases half - s
    {
      ShiftedSteps(d, k);
      s := S32(2 * s);
      k := k + 1;
    }
    while s >= d
      invariant 0 <= s <= n && 0 <= r <= n && Reduced(n, d, r)
      invariant s >= d ==> s == Shifted(d, k) && r < 2 * s
      invariant s < d ==> r < d
      decreases s
    {
      if r >= s {
        ReducedMore(n, d, r, k);
        r := S32(r - s);
      }
      if k > 0 {
        ShiftedSteps(d, k - 1);
        k := k - 1;
      } else {
        ShiftedSteps(d, 0);
      }
      s := s / 2;
    }
    ReducedEnd(n, d, r);
  }

  /** Squares fit an `int` up to `ROOT`, and no further. */
  lemma {:induction false} SquareFits(d: int)
    requires d >= 0
    ensures d * d <= 0x7FFF_FFFF <==> d <= ROOT
  {
    if d <= ROOT {
      Grows(d, ROOT, d);
      Grows(ROOT, ROOT, d);
    } else {
      Grows(d, d, ROOT + 1);
      Grows(ROOT + 1, d, ROOT + 1);
    }
  }

  /**
   Whether `n` is prime, for every `int` n: the answer is right wherever there is one, and there is none
   exactly for the primes from 46340 squared on, at which `d * d` overflows.
   */
  method IsPrime(n: int) returns (r: CInt)
    requires -0x8000_0000 <= n <= 0x7FFF_FFFF
    ensures r.Overflow? <==> Prime(n) && n >= 2147395600
    ensures r.Value? ==> r.value == if Prime(n) then 1 else 0
  {
    if n < 2 {
      return Value(0);
    }
    var d := 2;
    while true
      invariant 2 <= d <= ROOT + 1 && NoDivisorBelow(n, d)
      invariant d > 2 ==> (d - 1) * (d - 1) <= n
      decreases ROOT + 1 - d
    {
      SquareFits(d);
      if d * d > INT_MAX {
        NoSmallDivisor(n, d);
        return Overflow;
      }
      if d * d > n {
        break;
      }
      Grows(d, d, 1);
      var rem := Remainder(n, d);
      DividesIff(d, n);
      if rem == 0 {
        Grows(d, d, 2);
        return Value(0);
      }
      d := d + 1;
    }
    NoSmallDivisor(n, d);
    Grows(d, ROOT, d);
    Grows(ROOT, ROOT, d);
    return Value(1);
  }

  /** Some wrapped square up to `n`'s own exceeds `n`, so that trial division ends before it tries `n` itself. */
  ghost predicate Stops(n: int) {
    exists d :: Exceeds(n, d)
  }

  ghost predicate Exceeds(n: int, d: int) {
    2 <= d <= n && S32(d * d) > n
  }

  /** A divisor below the loop's own bound shows up before a square can wrap. */
  lemma {:induction false} PrimeAtExit(n: int, d: int)
    requires 2 <= d && 2 <= n <= INT_MAX && NoDivisorBelow(n, d) && S32(d * d) > n
    ensures Prime(n)
  {
    SquareFits(d);
    if d <= ROOT {
      assert S32(d * d) == d * d;
      NoSmallDivisor(n, d);
    } else {
      SquareFits(ROOT + 1);
      NoSmallDivisor(n, ROOT + 1);
    }
  }

  /** Where `d * d` wraps, the circuit goes on: it finds every prime but those that no wrapped square exceeds. */
  method IsPrimeWrapping(n: int) returns (r: int)
    requires -0x8000_0000 <= n <= 0x7FFF_FFFF
    ensures r == if Prime(n) && n < 2147483641 then 1 else 0
    ensures r == (if Prime(n) then 1 else 0) <==> n != 0x7FFF_FFFF
  {
    hide S32;
    if n >= 2 {
      StopsIff(n);
    }
    if n >= TOP_SQUARE {
      OnePrimeLeft(n);
    }
    if n < 2 {
      return 0;
    }
    var d := 2;
    while S32(d * d) <= n
      invariant 2 <= d <= n && NoDivisorBelow(n, d)
      invariant forall e | 2 <= e < d :: !Exceeds(n, e)
      decreases n - d
    {
      var rem := Remainder(n, d);
      DividesIff(d, n);
      assert !Exceeds(n, d);
      if rem == 0 {
        assert d == n || !Prime(n);
        return 0;
      }
      if d == n {
        DivUnique(n, n, 1, 0);
      }
      d := d + 1;
    }
    PrimeAtExit(n, d);
    assert Exceeds(n, d);
    return 1;
  }

  /** Below `ROOT * ROOT` the square that ends the loop has not wrapped. */
  lemma {:induction false} SmallStops(n: int)
    requires 2 <= n < 2147395600
    ensures Stops(n)
  {
    var d := if n < ROOT then n else ROOT;
    SquareFits(d);
    if n < ROOT {
      Grows(n, n, 2);
    }
    assert Exceeds(n, d);
  }

  /** The largest word that is a wrapped square. */
  const TOP_SQUARE: int := 2147483641

  /** Some wrapped square exceeds every word below `TOP_SQUARE` ... */
  lemma {:induction false} LargeStops(n: int)
    requires ROOT * ROOT <= n < TOP_SQUARE
    ensures Stops(n)
  {
    assert Exceeds(n, 593968971);
  }

  /** ... and none exceeds a larger one: a square leaves one of seven remainders by 32. */
  lemma {:induction false} TopNeverStops(n: int)
    requires TOP_SQUARE <= n <= INT_MAX
    ensures !Stops(n)
  {
    forall d ensures !Exceeds(n, d) {
      SquareRemainder(d);
      WrapKeepsRemainder(d * d);
    }
  }

  lemma {:induction false} SquareRemainder(d: int)
    ensures d * d % 32 in {0, 1, 4, 9, 16, 17, 25}
  {
    var q, r := d / 16, d % 16;
    var square := SmallSquare(r);
    assert d == 16 * q + r;
    Square(16 * q, r);
    assert (16 * q) * (16 * q) == 32 * (8 * (q * q)) && 2 * ((16 * q) * r) == 32 * (q * r);
    DivUnique(d * d, 32, 8 * (q * q) + q * r + square / 32, square % 32);
  }

  lemma {:induction false} Square(x: int, y: int)
    ensures (x + y) * (x + y) == x * x + 2 * (x * y) + y * y
  {
  }

  lemma {:induction false} SmallSquare(r: int) returns (square: int)
    requires 0 <= r < 16
    ensures square == r * r && square % 32 in {0, 1, 4, 9, 16, 17, 25}
  {
    square := [0, 1, 4, 9, 16, 25, 36, 49, 64, 81, 100, 121, 144, 169, 196, 225][r];
  }

  lemma {:induction false} WrapKeepsRemainder(x: int)
    ensures S32(x) % 32 == x % 32
  {
    var q, y := x / (2 * LIMIT), x % (2 * LIMIT);
    DivUnique(x, 32, 134217728 * q + y / 32, y % 32);
  }

  lemma {:induction false} StopsIff(n: int)
    requires 2 <= n <= 0x7FFF_FFFF
    ensures Stops(n) <==> n < 2147483641
  {
    if n < ROOT * ROOT {
      SmallStops(n);
    } else if n < TOP_SQUARE {
      LargeStops(n);
    } else {
      TopNeverStops(n);
    }
  }

  /** Of the words the loop does not stop for, only the largest is prime. */
  lemma {:induction false} OnePrimeLeft(n: int)
    requires 2147483641 <= n <= 0x7FFF_FFFF
    ensures Prime(n) <==> n == 0x7FFF_FFFF
  {
    if n == INT_MAX {
      LargestIsPrime();
    } else {
      var d := if n % 2 == 0 then 2 else if n == 2147483641 then 2699 else if n == 2147483643 then 3 else 5;
      assert n % d == 0;
      DividesIff(d, n);
    }
  }
}
