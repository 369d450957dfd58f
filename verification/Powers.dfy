/**
 Powers of two, and the two facts about division that the arithmetic proofs share.
 */
module Powers {

  function Pow2(n: nat): (r: nat)
    ensures r > 0
  {
    if n == 0 then 1 else 2 * Pow2(n - 1)
  }

  lemma {:induction false} Grows(m: int, x: int, y: int)
    requires m >= 0 && x >= y
    ensures m * x >= m * y
  {
  }

  /** Quotient and remainder are unique. */
  lemma {:induction false} DivUnique(x: int, m: int, q: int, r: int)
    requires m > 0 && x == m * q + r && 0 <= r < m
    ensures x / m == q && x % m == r
  {
    var d := x / m - q;
    assert x == m * (x / m) + x % m;
    assert m * d == m * (x / m) - m * q;
    if d >= 1 {
      Grows(m, d, 1);
    } else if d <= -1 {
      Grows(m, -1, d);
    }
  }

  /** Halving, and then dividing. */
  lemma {:induction false} HalveTwice(x: int, m: nat)
    requires m > 0
    ensures x / 2 / m == x / (2 * m)
  {
    var q, r := x / (2 * m), x % (2 * m);
    assert x == 2 * (m * q) + r;
    assert x / 2 == m * q + r / 2;
    assert 0 <= r / 2 < m;
    DivUnique(x / 2, m, q, r / 2);
  }

  lemma {:induction false} HalveRest(x: nat, m: nat)
    requires m > 0
    ensures x % (2 * m) / 2 == x / 2 % m && x % (2 * m) % 2 == x % 2
  {
    var q, r := x / (2 * m), x % (2 * m);
    assert x == 2 * (m * q) + r;
    DivUnique(x / 2, m, q, r / 2);
  }

  /** Cutting a number off above a bit leaves the bit alone. */
  lemma {:induction false} LowBits(x: nat, m: nat, k: nat)
    requires k < m
    ensures x % Pow2(m) / Pow2(k) % 2 == x / Pow2(k) % 2
  {
    HalveRest(x, Pow2(m - 1));
    if k > 0 {
      LowBits(x / 2, m - 1, k - 1);
      HalveTwice(x, Pow2(k - 1));
      HalveTwice(x % Pow2(m), Pow2(k - 1));
    }
  }
}
