/** The integer arithmetic of C where its width or rounding matters. */
module CInt {

  type byte = bv8

  predicate Int8(n: int) {
    -128 <= n <= 127
  }

  predicate Int16(n: int) {
    -32768 <= n <= 32767
  }

  /** The cast to int8_t. */
  function ToInt8(n: int): int {
    (n + 128) % 256 - 128
  }

  /** The cast to uint16_t. */
  function U16(n: int): nat {
    n % 65536
  }

  function Abs(n: int): nat {
    if n < 0 then -n else n
  }

  function Max(a: int, b: int): int {
    if a > b then a else b
  }

  function Min(a: int, b: int): int {
    if a < b then a else b
  }

  /** Division, which rounds towards zero. */
  function TruncDiv(a: int, b: int): int
    requires b != 0
  {
    if (a >= 0) == (b > 0) then Abs(a) / Abs(b) else -(Abs(a) / Abs(b))
  }

  lemma SmallIsItself(n: int)
    requires 0 <= n < 65536
    ensures U16(n) == n
  {
  }

  /** Quotient and remainder are unique. */
  lemma Quotient(a: int, b: int, q: int, r: int)
    requires b > 0 && a == q * b + r && 0 <= r < b
    ensures a / b == q && a % b == r
  {
    var d := a / b - q;
    assert d >= 1 ==> d * b >= b;
    assert d <= -1 ==> d * b <= -b;
    assert d * b == r - a % b;
  }
}
