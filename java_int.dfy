/** Java's 32-bit `int` arithmetic, as far as the round-robin counter uses it:
    the wrap-around of `AtomicInteger.getAndIncrement` and the `%` operator,
    which truncates toward zero (unlike Dafny's Euclidean `%`). */
module JavaInt {

  const MIN_VALUE: int := -0x8000_0000
  const MAX_VALUE: int := 0x7fff_ffff
  const MODULUS: int := 0x1_0000_0000

  /** The values of a Java `int`. */
  type Int32 = x: int | MIN_VALUE <= x <= MAX_VALUE

  /** Two's-complement truncation of an integer to 32 bits: the unique `int`
      congruent to `x` modulo 2^32. */
  function Wrap(x: int): (r: Int32)
    ensures (x - r) % MODULUS == 0
    ensures MIN_VALUE <= x <= MAX_VALUE ==> r == x
  {
    (x - MIN_VALUE) % MODULUS + MIN_VALUE
  }

  /** The update `getAndIncrement` performs: one more, except that
      `Integer.MAX_VALUE` is followed by `Integer.MIN_VALUE`. */
  function Increment(x: Int32): (r: Int32)
    ensures x < MAX_VALUE ==> r == x + 1
    ensures x == MAX_VALUE ==> r == MIN_VALUE
  {
    Wrap(x + 1)
  }

  /** Java's `a / b` for a positive divisor: division truncated toward zero. */
  function Div(a: int, b: int): int
    requires b > 0
  {
    if a >= 0 then a / b else -((-a) / b)
  }

  /** Java's `a % b` for a positive divisor. Java defines it so that
      `(a / b) * b + a % b == a` with truncating `/`, hence the remainder has the
      sign of the dividend; together with the bounds this determines it. */
  function Rem(a: int, b: int): (r: int)
    requires b > 0
    ensures a == b * Div(a, b) + r
    ensures a >= 0 ==> 0 <= r < b
    ensures a < 0 ==> -b < r <= 0
  {
    if a >= 0 then a % b else -((-a) % b)
  }
}
