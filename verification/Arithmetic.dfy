/** Go's truncating arithmetic, and other functions several modules need. */
module Arithmetic {
  /** Division of integers truncates towards zero. */
  function Quotient(a: int, b: int): (q: int)
    requires 0 < b
    ensures a >= 0 ==> q * b <= a < q * b + b
    ensures a <= 0 ==> q * b - b < a <= q * b
  {
    if a >= 0 then a / b else -((-a) / b)
  }

  /** So does the conversion of a float to an integer. */
  function Truncate(x: real): (n: int)
    ensures x >= 0.0 ==> n as real <= x < n as real + 1.0
    ensures x <= 0.0 ==> n as real - 1.0 < x <= n as real
  {
    if x >= 0.0 then x.Floor else -((-x).Floor)
  }

  function Abs(n: int): nat { if n < 0 then -n else n }

  function Pow2(n: nat): (p: nat)
    ensures p >= 1
  {
    if n == 0 then 1 else 2 * Pow2(n - 1)
  }
}
