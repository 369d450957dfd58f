/**
 Signed 32-bit words (`s32` in cells/hw/uniform_oracle.py).
 */
module Words {
  const LIMIT: int := 0x8000_0000

  /** `x` wrapped to a signed 32-bit value. */
  function S32(x: int): (r: int)
    ensures -LIMIT <= r < LIMIT
    ensures -LIMIT <= x < LIMIT ==> r == x
  {
    var y := x % (2 * LIMIT);
    if y >= LIMIT then y - 2 * LIMIT else y
  }

  /** The one signed word that differs from `x` by whole turns of 2^32. */
  lemma {:induction false} S32Iff(x: int, r: int)
    ensures r == S32(x) <==> -0x8000_0000 <= r <= 0x7FFF_FFFF && exists q :: x == r + q * 0x1_0000_0000
  {
    var q, y := x / 0x1_0000_0000, x % 0x1_0000_0000;
    if r == S32(x) {
      assert x == r + (if r < 0 then q + 1 else q) * 0x1_0000_0000;
    }
    if -0x8000_0000 <= r <= 0x7FFF_FFFF && exists q :: x == r + q * 0x1_0000_0000 {
      var q :| x == r + q * 0x1_0000_0000;
    }
  }
}
