// Unsigned 32-bit arithmetic as C performs it on `Uint32` values: every
// result is taken modulo 2^32.  Dafny's `%` is Euclidean, so `(a - b) % M`
// is never negative, exactly like the wrapped unsigned subtraction in C.
module Uint32 {

  const MODULUS: nat := 0x1_0000_0000

  type u32 = x: int | 0 <= x < MODULUS

  /** The C expression `a - b` on two Uint32 operands. */
  function Sub(a: u32, b: u32): (d: u32)
    ensures (b + d) % MODULUS == a
    ensures b <= a ==> d == a - b
    ensures a < b ==> d == a - b + MODULUS
  {
    (a - b) % MODULUS
  }

  /** The C expression `a + n` stored back into a Uint32. */
  function Add(a: u32, n: nat): (r: u32)
    ensures a + n < MODULUS ==> r == a + n
  {
    (a + n) % MODULUS
  }

  /** `++x` on a Uint32. */
  function Inc(a: u32): (r: u32)
    ensures a + 1 < MODULUS ==> r == a + 1
    ensures a + 1 == MODULUS ==> r == 0
  {
    Add(a, 1)
  }

  /** Counting up one at a time from `Add(a, n)` agrees with adding `n + 1`. */
  lemma IncAdd(a: u32, n: nat)
    ensures Inc(Add(a, n)) == Add(a, n + 1)
  {
  }

  /** The difference `Sub(a, b)` is the only value below 2^32 that leads from `b` to `a`. */
  lemma SubUnique(a: u32, b: u32, d: nat)
    requires d < MODULUS
    requires (b + d) % MODULUS == a
    ensures Sub(a, b) == d
  {
  }

  /**
   * Clock wrap-around.  When a real, unbounded millisecond clock moves from `t0`
   * to `t1` by less than 2^32, the difference of the two truncated Uint32
   * readings is the true elapsed time, even when the readings wrapped past zero.
   */
  lemma SubOfReadings(t0: nat, t1: nat)
    requires t0 <= t1 < t0 + MODULUS
    ensures Sub(t1 % MODULUS, t0 % MODULUS) == t1 - t0
  {
  }
}
