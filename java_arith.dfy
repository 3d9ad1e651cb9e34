/**
 * Java's integer operators where they differ from Dafny's.
 * Dafny's `/` and `%` are Euclidean; Java's truncate toward zero.
 * A Java `(short)` cast keeps the low 16 bits as a two's-complement value.
 */
module JavaArith {

  /** Java `a / b` for a positive divisor: truncates toward zero. */
  function JavaDiv(a: int, b: int): (q: int)
    requires b > 0
    ensures a >= 0 ==> b * q <= a < b * q + b
    ensures a < 0 ==> b * q - b < a <= b * q
    ensures a - b < b * q < a + b
  {
    if a >= 0 then a / b else -((-a) / b)
  }

  /** Java `a % b` for a positive divisor: takes the sign of `a`. */
  function JavaRem(a: int, b: int): (r: int)
    requires b > 0
    ensures a == b * JavaDiv(a, b) + r
    ensures a >= 0 ==> 0 <= r < b
    ensures a < 0 ==> -b < r <= 0
  {
    a - b * JavaDiv(a, b)
  }

  /** Java `(short) x`: the two's-complement value of the low 16 bits. */
  function ToShort(x: int): (s: int)
    ensures -32768 <= s < 32768
    ensures (s - x) % 65536 == 0
    ensures -32768 <= x < 32768 ==> s == x
  {
    (x + 32768) % 65536 - 32768
  }

  /** Java `Math.abs` on a long, without the overflow at Long.MIN_VALUE. */
  function Abs(x: int): (r: nat)
    ensures r == x || r == -x
  {
    if x < 0 then -x else x
  }
}
