/**
 Prime numbers, how trial division finds them, and how a primitive root gives one away.
 */
module Primes {
  import opened Powers

  ghost predicate Divides(d: int, n: int) {
    exists k :: n == d * k
  }

  ghost predicate Prime(n: int) {
    n >= 2 && forall d | 2 <= d < n :: !Divides(d, n)
  }

  ghost predicate NoDivisorBelow(n: int, d: int) {
    forall e | 2 <= e < d :: !Divides(e, n)
  }

  lemma {:induction false} DividesIff(d: int, n: int)
    requires d > 0
    ensures Divides(d, n) <==> n % d == 0
  {
    if Divides(d, n) {
      var k :| n == d * k;
      DivUnique(n, d, k, 0);
    }
    if n % d == 0 {
      assert n == d * (n / d);
    }
  }

  /** A cofactor of a divisor is a divisor, and one of the two is no larger than the root. */
  lemma {:induction false} NoSmallDivisor(n: int, d: int)
    requires n >= 2 && d >= 2 && d * d > n && NoDivisorBelow(n, d)
    ensures Prime(n)
  {
    forall e | 2 <= e < n ensures !Divides(e, n) {
      if Divides(e, n) && e >= d {
        var k :| n == e * k;
        if k <= 1 {
          Grows(e, 1, k);
        } else if k >= d {
          Grows(e, k, d);
          Grows(d, e, d);
        } else {
          assert n == k * e;
          assert Divides(k, n);
        }
      }
    }
  }

  // ---- a greatest common divisor as a combination ------------------------------------

  lemma {:induction false} Bezout(a: nat, b: nat) returns (g: nat, x: int, y: int)
    requires a > 0 || b > 0
    ensures g > 0 && g == a * x + b * y && Divides(g, a) && Divides(g, b)
    decreases b
  {
    if b == 0 {
      g, x, y := a, 1, 0;
      assert a == g * 1 && b == g * 0;
    } else {
      var u, v;
      g, u, v := Bezout(b, a % b);
      x, y := v, u - a / b * v;
      Combine(a, b, a / b, a % b, u, v);
      DividesCombination(g, b, a / b, a % b);
    }
  }

  lemma {:induction false} DividesCombination(g: int, b: int, q: int, r: int)
    requires Divides(g, b) && Divides(g, r)
    ensures Divides(g, b * q + r)
  {
    var k, l :| b == g * k && r == g * l;
    Regrouped(g, k, q);
    assert b * q + r == g * (k * q + l);
  }

  lemma {:induction false} Combine(a: int, b: int, q: int, r: int, u: int, v: int)
    requires a == b * q + r
    ensures b * u + r * v == a * v + b * (u - q * v)
  {
  }

  lemma {:induction false} PrimeDivisor(g: nat, q: nat)
    requires g > 0 && Prime(q) && Divides(g, q)
    ensures g == 1 || g == q
  {
    var k :| q == g * k;
    if k <= 0 {
      Grows(g, 0, k);
    } else {
      Grows(g, k, 1);
    }
  }

  /** A divisor of a product that shares nothing with a prime factor divides the rest. */
  lemma {:induction false} DropPrime(m: nat, q: nat, rest: nat)
    requires m > 0 && Prime(q) && !Divides(q, m) && Divides(m, q * rest)
    ensures Divides(m, rest)
  {
    var g, x, y := Bezout(m, q);
    PrimeDivisor(g, q);
    var t :| q * rest == m * t;
    DropFactor(m, q, rest, x, y, t);
    assert rest == m * (rest * x + t * y);
  }

  lemma {:induction false} DropFactor(m: int, q: int, rest: int, x: int, y: int, t: int)
    requires m * x + q * y == 1 && q * rest == m * t
    ensures rest == m * (rest * x + t * y)
  {
    calc {
      rest * (m * x + q * y);
      m * (rest * x) + (q * rest) * y;
      m * (rest * x) + (m * t) * y;
      m * (rest * x + t * y);
    }
  }

  function Product(qs: seq<nat>): nat {
    if qs == [] then 1 else qs[0] * Product(qs[1..])
  }

  /** A divisor of a product of primes that none of them divides is 1. */
  lemma {:induction false} NoPrimeLeft(m: nat, qs: seq<nat>)
    requires m > 0 && Divides(m, Product(qs)) && forall q | q in qs :: Prime(q) && !Divides(q, m)
    ensures m == 1
  {
    if qs == [] {
      var k :| 1 == m * k;
      DivisorOfOne(m, k);
    } else {
      assert qs[0] in qs;
      DropPrime(m, qs[0], Product(qs[1..]));
      NoPrimeLeft(m, qs[1..]);
    }
  }

  lemma {:induction false} DivisorOfOne(m: int, k: int)
    requires 1 == m * k && m > 0
    ensures m == 1
  {
    if k <= 0 {
      Grows(m, 0, k);
    } else if m >= 2 {
      Grows(m, k, 1);
    }
  }

  // ---- powers modulo n ----------------------------------------------------------------

  function Power(a: nat, e: nat): nat {
    if e == 0 then 1 else a * Power(a, e - 1)
  }

  lemma {:induction false} Regrouped(x: int, y: int, z: int)
    ensures x * (y * z) == (x * y) * z
  {
  }

  lemma {:induction false} PowerAdd(a: nat, i: nat, j: nat)
    ensures Power(a, i + j) == Power(a, i) * Power(a, j)
    decreases i
  {
    if i > 0 {
      PowerAdd(a, i - 1, j);
      Regrouped(a, Power(a, i - 1), Power(a, j));
      assert Power(a, i + j) == a * Power(a, i + j - 1);
    }
  }

  /** `x` and `y` leave the same remainder. */
  ghost predicate Alike(x: int, y: int, n: nat) {
    exists k: int :: x - y == n * k
  }

  lemma {:induction false} AlikeIff(x: int, y: int, n: nat)
    requires n > 0
    ensures Alike(x, y, n) <==> x % n == y % n
  {
    var p, q, u, v := x / n, y / n, x % n, y % n;
    if Alike(x, y, n) {
      var k :| x - y == n * k;
      assert x == n * (q + k) + v;
      DivUnique(x, n, q + k, v);
    }
    if u == v {
      assert x - y == n * (p - q);
    }
  }

  lemma {:induction false} AlikeChain(x: int, y: int, z: int, n: nat)
    requires Alike(x, y, n) && Alike(y, z, n)
    ensures Alike(x, z, n)
  {
    var k, l :| x - y == n * k && y - z == n * l;
    assert x - z == n * (k + l);
  }

  lemma {:induction false} AlikeBack(x: int, y: int, n: nat)
    requires Alike(x, y, n)
    ensures Alike(y, x, n)
  {
    var k :| x - y == n * k;
    assert y - x == n * -k;
  }

  lemma {:induction false} AlikeProduct(x: int, y: int, u: int, v: int, n: nat)
    requires Alike(x, y, n) && Alike(u, v, n)
    ensures Alike(x * u, y * v, n)
  {
    var k, l :| x - y == n * k && u - v == n * l;
    ProductDifference(x, y, u, v, n, k, l);
    assert x * u - y * v == n * (x * l + k * v);
  }

  lemma {:induction false} ProductDifference(x: int, y: int, u: int, v: int, n: int, k: int, l: int)
    requires x - y == n * k && u - v == n * l
    ensures x * u - y * v == n * (x * l + k * v)
  {
    calc {
      x * u - y * v;
      x * (u - v) + (x - y) * v;
      x * (n * l) + (n * k) * v;
      n * (x * l) + n * (k * v);
      n * (x * l + k * v);
    }
  }

  lemma {:induction false} AlikeItself(x: int, n: nat)
    ensures Alike(x, x, n)
  {
    assert x - x == n * 0;
  }

  lemma {:induction false} AlikeRemainder(x: int, n: nat)
    requires n > 0
    ensures Alike(x % n, x, n)
  {
    assert x % n - x == n * -(x / n);
  }

  /** `a` to the `e` leaves 1. */
  ghost predicate IsOne(a: nat, n: nat, e: nat) {
    Alike(Power(a, e), 1, n)
  }

  lemma {:induction false} OneTimes(a: nat, n: nat, i: nat, j: nat)
    requires IsOne(a, n, i)
    ensures Alike(Power(a, i + j), Power(a, j), n)
  {
    PowerAdd(a, i, j);
    AlikeItself(Power(a, j), n);
    AlikeProduct(Power(a, i), 1, Power(a, j), Power(a, j), n);
    hide Alike, Power;
  }

  lemma {:induction false} OneMultiple(a: nat, n: nat, k: nat, m: nat)
    requires IsOne(a, n, k)
    ensures IsOne(a, n, k * m)
    decreases m
  {
    if m == 0 {
      assert k * m == 0;
      AlikeItself(1, n);
    } else {
      hide Alike;
      OneMultiple(a, n, k, m - 1);
      assert k + k * (m - 1) == k * m;
      OneTimes(a, n, k, k * (m - 1));
      AlikeChain(Power(a, k * m), Power(a, k * (m - 1)), 1, n);
    }
  }

  ghost predicate IsOrder(a: nat, n: nat, k: nat) {
    k > 0 && IsOne(a, n, k) && forall j: nat | 0 < j < k :: !IsOne(a, n, j)
  }

  lemma {:induction false} LeastOne(a: nat, n: nat, e: nat, from: nat) returns (k: nat)
    requires IsOne(a, n, e) && 0 < from <= e && forall j: nat | 0 < j < from :: !IsOne(a, n, j)
    ensures k <= e && IsOrder(a, n, k)
    decreases e - from
  {
    hide IsOne;
    if IsOne(a, n, from) {
      k := from;
    } else {
      k := LeastOne(a, n, e, from + 1);
    }
  }

  lemma {:induction false} OrderDivides(a: nat, n: nat, k: nat, e: nat)
    requires IsOrder(a, n, k) && IsOne(a, n, e)
    ensures Divides(k, e)
  {
    var q, r := e / k, e % k;
    assert e == k * q + r;
    hide Alike, Power;
    OneMultiple(a, n, k, q);
    OneTimes(a, n, k * q, r);
    AlikeBack(Power(a, e), Power(a, r), n);
    AlikeChain(Power(a, r), Power(a, e), 1, n);
    assert IsOne(a, n, r);
    assert e == k * q;
  }

  // ---- many powers make large divisors ----------------------------------------------

  /** `a` to the `e` leaves 1, and to no quotient of `e` by one of its prime factors `qs`. */
  ghost predicate FullOrder(a: nat, n: nat, e: nat, qs: seq<nat>) {
    && e > 0 && Product(qs) == e && IsOne(a, n, e)
    && forall q | q in qs :: Prime(q) && !IsOne(a, n, e / q)
  }

  lemma {:induction false} FullIsOrder(a: nat, n: nat, e: nat, qs: seq<nat>)
    requires FullOrder(a, n, e, qs)
    ensures IsOrder(a, n, e)
  {
    var k := LeastOne(a, n, e, 1);
    OrderDivides(a, n, k, e);
    var m :| e == k * m;
    if m <= 0 {
      Grows(k, 0, m);
    }
    assert Divides(m, e) by {
      assert e == m * k;
    }
    forall q | q in qs ensures !Divides(q, m) {
      NotInRest(a, n, e, k, m, q);
    }
    hide Prime, Divides, IsOne;
    NoPrimeLeft(m, qs);
  }

  /** A prime factor of what the order leaves would show in a smaller power. */
  lemma {:induction false} NotInRest(a: nat, n: nat, e: nat, k: nat, m: nat, q: nat)
    requires IsOne(a, n, k) && e == k * m && k > 0 && q > 0 && !IsOne(a, n, e / q)
    ensures !Divides(q, m)
  {
    hide IsOne;
    if Divides(q, m) {
      var j :| m == q * j;
      if j <= 0 {
        Grows(q, 0, j);
      }
      Swapped(k, q, j);
      DivUnique(e, q, k * j, 0);
      OneMultiple(a, n, k, if j < 0 then 0 else j);
      if j < 0 {
        Grows(k, 0, j);
      }
    }
  }

  lemma {:induction false} Swapped(k: int, q: int, j: int)
    ensures k * (q * j) == q * (k * j)
  {
  }

  /** If two powers are alike, so are 1 and the power between them. */
  lemma {:induction false} PowersAlike(a: nat, n: nat, e: nat, i: nat, j: nat)
    requires IsOne(a, n, e) && i <= j && i <= e && Alike(Power(a, i), Power(a, j), n)
    ensures IsOne(a, n, j - i)
  {
    hide Power, Alike;
    var back := Power(a, e - i);
    PowerAdd(a, e - i, i);
    PowerAdd(a, e - i, j);
    AlikeItself(back, n);
    AlikeProduct(back, back, Power(a, i), Power(a, j), n);
    assert e - i + j == e + (j - i);
    OneTimes(a, n, e, j - i);
    AlikeBack(Power(a, e), Power(a, e + (j - i)), n);
    AlikeBack(Power(a, e + (j - i)), Power(a, j - i), n);
    AlikeChain(Power(a, j - i), Power(a, e + (j - i)), Power(a, e), n);
    AlikeChain(Power(a, j - i), Power(a, e), 1, n);
  }

  /** The powers below the order all differ. */
  lemma {:induction false} PowersDiffer(a: nat, n: nat, e: nat, i: nat, j: nat)
    requires IsOrder(a, n, e) && i < j < e
    ensures !Alike(Power(a, i), Power(a, j), n)
  {
    hide Power, Alike, IsOne;
    if Alike(Power(a, i), Power(a, j), n) {
      PowersAlike(a, n, e, i, j);
    }
  }

  function Residue(a: nat, n: nat, i: nat): nat
    requires n > 0
  {
    Power(a, i) % n
  }

  ghost function FirstPowers(a: nat, n: nat, t: nat): (s: set<nat>)
    requires n > 0
  {
    set i: nat | i < t :: Residue(a, n, i)
  }

  lemma {:induction false} CountPowers(a: nat, n: nat, e: nat, t: nat)
    requires n > 0 && IsOrder(a, n, e) && t <= e
    ensures |FirstPowers(a, n, t)| == t
  {
    if t > 0 {
      var s, x := FirstPowers(a, n, t - 1), Residue(a, n, t - 1);
      CountPowers(a, n, e, t - 1);
      forall i: nat | i < t - 1 ensures Residue(a, n, i) != x {
        PowersDiffer(a, n, e, i, t - 1);
        AlikeIff(Power(a, i), Power(a, t - 1), n);
      }
      hide Residue;
      assert x !in s;
      assert FirstPowers(a, n, t) == s + {x};
    }
  }

  ghost function Below(n: nat): (s: set<nat>)
    ensures forall x :: x in s <==> 0 < x < n
    ensures |s| == if n == 0 then 0 else n - 1
  {
    if n <= 1 then {} else Below(n - 1) + {n - 1}
  }

  /** No power of a root of 1 is a multiple of a divisor of `n`. */
  lemma {:induction false} PowersAreUnits(a: nat, n: nat, e: nat, i: nat, d: nat)
    requires n > 0 && IsOne(a, n, e) && i <= e && d > 1 && Divides(d, n)
    ensures !Divides(d, Residue(a, n, i))
  {
    hide Power;
    var u, v := Residue(a, n, i), Power(a, e - i);
    UnitAlike(a, n, e, i);
    var q :| u * v - 1 == n * q;
    var l :| n == d * l;
    hide Residue;
    forall k ensures u != d * k {
      UnitDivisor(d, k, v, l, q);
    }
  }

  lemma {:induction false} UnitAlike(a: nat, n: nat, e: nat, i: nat)
    requires n > 0 && IsOne(a, n, e) && i <= e
    ensures Alike(Residue(a, n, i) * Power(a, e - i), 1, n)
  {
    hide Power, Alike;
    var u, v := Residue(a, n, i), Power(a, e - i);
    PowerAdd(a, i, e - i);
    AlikeRemainder(Power(a, i), n);
    AlikeItself(v, n);
    AlikeProduct(u, Power(a, i), v, v, n);
    AlikeChain(u * v, Power(a, e), 1, n);
  }

  lemma {:induction false} UnitDivisor(d: int, k: int, v: int, l: int, q: int)
    requires d > 1
    ensures (d * k) * v - 1 != (d * l) * q
  {
    if (d * k) * v - 1 == (d * l) * q {
      assert (d * k) * v == d * (k * v) && (d * l) * q == d * (l * q);
      assert d * (k * v) - d * (l * q) == d * (k * v - l * q);
      DivisorOfOne(d, k * v - l * q);
    }
  }

  /** There are more residues than powers. */
  lemma {:induction false} OrderBelow(a: nat, n: nat, e: nat)
    requires n > 1 && IsOrder(a, n, e)
    ensures e < n
  {
    var powers := FirstPowers(a, n, e);
    CountPowers(a, n, e, e);
    forall x | x in powers ensures x in Below(n) {
      var i: nat :| i < e && x == Residue(a, n, i);
      assert n == n * 1 && 0 == n * 0;
      PowersAreUnits(a, n, e, i, n);
    }
    SmallerSet(powers, Below(n));
  }

  lemma {:induction false} SmallerSet(s: set<nat>, t: set<nat>)
    requires s <= t
    ensures |s| <= |t|
  {
    assert t == s + (t - s);
  }

  lemma {:induction false} AlikeForDivisor(x: int, y: int, n: nat, d: nat)
    requires Alike(x, y, n) && Divides(d, n)
    ensures Alike(x, y, d)
  {
    var k, l :| x - y == n * k && n == d * l;
    assert (d * l) * k == d * (l * k);
  }

  /** `h - 1` shares no divisor with `n`. */
  ghost predicate Apart(h: int, n: int) {
    exists x, y :: Combines(h, n, x, y)
  }

  ghost predicate Combines(h: int, n: int, x: int, y: int) {
    (h - 1) * x + n * y == 1
  }

  lemma {:induction false} ApartNotOne(h: int, n: nat, d: nat)
    requires Apart(h, n) && d > 1 && Divides(d, n)
    ensures !Alike(h, 1, d)
  {
    var x, y :| Combines(h, n, x, y);
    var l :| n == d * l;
    forall k: int ensures h - 1 != d * k {
      if h - 1 == d * k {
        assert (d * k) * x == d * (k * x) && (d * l) * y == d * (l * y);
        assert d * (k * x) + d * (l * y) == d * (k * x + l * y);
        DivisorOfOne(d, k * x + l * y);
      }
    }
  }

  /**
   `a` to the `e` leaves 1 modulo `n`; to a quotient of `e` by one of its primes, it leaves 1 modulo no divisor
   of `n`.
   */
  ghost predicate Certifies(a: nat, n: nat, e: nat, qs: seq<nat>) {
    && e > 0 && Product(qs) == e && IsOne(a, n, e)
    && forall q | q in qs :: Prime(q) && ApartAt(a, n, e / q)
  }

  ghost predicate ApartAt(a: nat, n: nat, e: nat) {
    exists h: int :: Alike(Power(a, e), h, n) && Apart(h, n)
  }

  /** Pocklington: every divisor of `n` is larger than `e`; so if `e` is at least its root, `n` is prime. */
  lemma {:induction false} CertifiedPrime(a: nat, n: nat, e: nat, qs: seq<nat>)
    requires n > 1 && Certifies(a, n, e, qs) && (e + 1) * (e + 1) > n
    ensures Prime(n)
  {
    forall d | 2 <= d < e + 1 ensures !Divides(d, n) {
      if Divides(d, n) {
        DivisorAboveOrder(a, n, e, qs, d);
      }
    }
    NoSmallDivisor(n, e + 1);
  }

  lemma {:induction false} ApartForDivisor(a: nat, n: nat, e: nat, d: nat)
    requires ApartAt(a, n, e) && d > 1 && Divides(d, n)
    ensures !IsOne(a, d, e)
  {
    var h: int :| Alike(Power(a, e), h, n) && Apart(h, n);
    hide Power, Alike, Apart, Divides;
    AlikeForDivisor(Power(a, e), h, n, d);
    ApartNotOne(h, n, d);
    if IsOne(a, d, e) {
      AlikeBack(Power(a, e), h, d);
      AlikeChain(h, Power(a, e), 1, d);
    }
  }

  lemma {:induction false} DivisorAboveOrder(a: nat, n: nat, e: nat, qs: seq<nat>, d: nat)
    requires Certifies(a, n, e, qs) && d > 1 && Divides(d, n)
    ensures e < d
  {
    AlikeForDivisor(Power(a, e), 1, n, d);
    assert IsOne(a, d, e);
    hide Power, Alike, ApartAt, Divides, IsOne;
    forall q | q in qs ensures !IsOne(a, d, e / q) {
      ApartForDivisor(a, n, e / q, d);
    }
    FullIsOrder(a, d, e, qs);
    OrderBelow(a, d, e);
  }

  // ---- the largest word -------------------------------------------------------------

  const MERSENNE: nat := 0x7FFF_FFFF

  lemma {:induction false} SmallPrime(q: nat, root: nat)
    requires 2 <= q < root * root && 2 <= root && forall d | 2 <= d < root :: q % d != 0
    ensures Prime(q)
  {
    forall d | 2 <= d < root ensures !Divides(d, q) {
      DividesIff(d, q);
    }
    NoSmallDivisor(q, root);
  }

  /** Squaring doubles the exponent; `k` and `r` are quotient and remainder. */
  lemma {:induction false} Doubled(a: nat, n: nat, e: nat, h: nat, k: nat, r: nat)
    requires Alike(Power(a, e), h, n) && h * h == n * k + r
    ensures Alike(Power(a, 2 * e), r, n)
  {
    PowerAdd(a, e, e);
    AlikeProduct(Power(a, e), h, Power(a, e), h, n);
    assert h * h - r == n * k;
    AlikeChain(Power(a, 2 * e), h * h, r, n);
  }

  lemma {:induction false} DoubledAndOne(a: nat, n: nat, e: nat, h: nat, k: nat, r: nat)
    requires Alike(Power(a, e), h, n) && h * h * a == n * k + r
    ensures Alike(Power(a, 2 * e + 1), r, n)
  {
    PowerAdd(a, e, e);
    assert Power(a, 2 * e + 1) == a * Power(a, 2 * e);
    assert Alike(h * h * a, r, n) by {
      assert h * h * a - r == n * k;
    }
    hide Power, Alike;
    AlikeProduct(Power(a, e), h, Power(a, e), h, n);
    AlikeItself(a, n);
    AlikeProduct(Power(a, 2 * e), h * h, a, a, n);
    AlikeChain(Power(a, 2 * e) * a, h * h * a, r, n);
  }

  lemma {:induction false} ToTheFirst(a: nat, n: nat)
    ensures Alike(Power(a, 1), a, n)
  {
    assert Power(a, 1) == a * Power(a, 0);
    AlikeItself(a, n);
  }

  /** A number whose order modulo the largest word is 151 * 331. */
  const ROOT: nat := 353469

  lemma {:induction false} RootToAll()
    ensures Alike(Power(ROOT, 49981), 1, MERSENNE)
  {
    hide Power, Alike;
    ToTheFirst(ROOT, MERSENNE);
    DoubledAndOne(ROOT, MERSENNE, 1, 353469, 20564782, 1855740755);
    Doubled(ROOT, MERSENNE, 3, 1855740755, 1603632118, 558995679);
    Doubled(ROOT, MERSENNE, 6, 558995679, 145508055, 521394456);
    Doubled(ROOT, MERSENNE, 12, 521394456, 126591035, 1228231291);
    Doubled(ROOT, MERSENNE, 24, 1228231291, 702474315, 291499876);
    DoubledAndOne(ROOT, MERSENNE, 48, 291499876, 13986151058348, 414104188);
    DoubledAndOne(ROOT, MERSENNE, 97, 414104188, 28225439383698, 451397730);
    Doubled(ROOT, MERSENNE, 195, 451397730, 94883102, 727519906);
    Doubled(ROOT, MERSENNE, 390, 727519906, 246467634, 96467638);
    DoubledAndOne(ROOT, MERSENNE, 780, 96467638, 1531738949455, 1019721251);
    DoubledAndOne(ROOT, MERSENNE, 1561, 1019721251, 171152956695424, 1096967141);
    DoubledAndOne(ROOT, MERSENNE, 3123, 1096967141, 198065440117019, 342914896);
    DoubledAndOne(ROOT, MERSENNE, 6247, 342914896, 19355044218310, 1721064134);
    Doubled(ROOT, MERSENNE, 12495, 1721064134, 1379317489, 1692567573);
    DoubledAndOne(ROOT, MERSENNE, 24990, 1692567573, 471534526817900, 1);
  }

  lemma {:induction false} RootTo151()
    ensures Alike(Power(ROOT, 151), 955958152, MERSENNE)
  {
    hide Power, Alike;
    ToTheFirst(ROOT, MERSENNE);
    Doubled(ROOT, MERSENNE, 1, 353469, 58, 386282435);
    Doubled(ROOT, MERSENNE, 2, 386282435, 69483239, 96436592);
    DoubledAndOne(ROOT, MERSENNE, 4, 96436592, 1530753194724, 1702537188);
    Doubled(ROOT, MERSENNE, 9, 1702537188, 1349781117, 736053645);
    DoubledAndOne(ROOT, MERSENNE, 18, 736053645, 89174442163432, 1987074221);
    DoubledAndOne(ROOT, MERSENNE, 37, 1987074221, 649904649724851, 1325819832);
    DoubledAndOne(ROOT, MERSENNE, 75, 1325819832, 289328015298632, 955958152);
  }

  lemma {:induction false} RootTo331()
    ensures Alike(Power(ROOT, 331), 485675917, MERSENNE)
  {
    hide Power, Alike;
    ToTheFirst(ROOT, MERSENNE);
    Doubled(ROOT, MERSENNE, 1, 353469, 58, 386282435);
    DoubledAndOne(ROOT, MERSENNE, 2, 386282435, 24560171021964, 337808817);
    Doubled(ROOT, MERSENNE, 5, 337808817, 53138843, 479939068);
    Doubled(ROOT, MERSENNE, 10, 479939068, 107261123, 1391353043);
    DoubledAndOne(ROOT, MERSENNE, 20, 1391353043, 318636960194186, 2100989839);
    Doubled(ROOT, MERSENNE, 41, 2100989839, 2055502638, 2110885135);
    DoubledAndOne(ROOT, MERSENNE, 82, 2110885135, 733416487746513, 2135749614);
    DoubledAndOne(ROOT, MERSENNE, 165, 2135749614, 750796326331481, 485675917);
  }

  lemma {:induction false} ApartAt151()
    ensures ApartAt(ROOT, MERSENNE, 151)
  {
    RootTo151();
    assert Combines(955958152, MERSENNE, 1037012242, -461628803);
    assert Apart(955958152, MERSENNE);
    hide Power, Alike, Apart;
  }

  lemma {:induction false} ApartAt331()
    ensures ApartAt(ROOT, MERSENNE, 331)
  {
    RootTo331();
    assert Combines(485675917, MERSENNE, 224705071, -50819405);
    assert Apart(485675917, MERSENNE);
    hide Power, Alike, Apart;
  }

  const FACTORS: seq<nat> := [151, 331]

  lemma {:induction false} FactorsMultiply()
    ensures Product(FACTORS) == 49981
  {
    assert FACTORS[1..] == [331] && Product([331]) == 331 * Product([]);
  }

  lemma {:induction false} FactorsArePrime()
    ensures Prime(151) && Prime(331)
  {
    SmallPrime(151, 13);
    SmallPrime(331, 19);
  }

  lemma {:induction false} RootCertifies()
    ensures Certifies(ROOT, MERSENNE, 49981, FACTORS)
  {
    FactorsMultiply();
    FactorsArePrime();
    ApartAt151();
    ApartAt331();
    RootToAll();
    hide Power, Alike, ApartAt, Prime, Product;
    assert 49981 / 151 == 331 && 49981 / 331 == 151;
  }

  lemma {:induction false} LargestIsPrime()
    ensures Prime(MERSENNE)
  {
    hide Certifies, Prime;
    RootCertifies();
    CertifiedPrime(ROOT, MERSENNE, 49981, FACTORS);
  }
}
