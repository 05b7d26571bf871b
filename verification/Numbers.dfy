/** The machine arithmetic and rounding the rate limiter relies on. */
module Numbers {
  const TWO_32: int := 0x1_0000_0000
  const TWO_64: int := 0x1_0000_0000_0000_0000

  /** Two's-complement wrap-around of a 32-bit signed integer. */
  function Wrap32(x: int): (r: int)
    ensures -0x8000_0000 <= r < 0x8000_0000
    ensures -0x8000_0000 <= x < 0x8000_0000 ==> r == x
  {
    (x + 0x8000_0000) % TWO_32 - 0x8000_0000
  }

  /** Integer division that truncates toward zero. */
  function TruncDiv(a: int, b: int): (q: int)
    requires b != 0
    ensures a >= 0 && b > 0 ==> q == a / b
  {
    var q := (if a < 0 then -a else a) / (if b < 0 then -b else b);
    if (a < 0) == (b < 0) then q else -q
  }

  /** Conversion of a float to an integer: drops the fraction. */
  function Trunc(x: real): (r: int)
    ensures x >= 0.0 ==> r as real <= x < (r + 1) as real
    ensures x < 0.0 ==> (r - 1) as real < x <= r as real
  {
    if x >= 0.0 then x.Floor else -((-x).Floor)
  }

  /** The least integer that is not below x. */
  function Ceil(x: real): (r: int)
    ensures (r - 1) as real < x <= r as real
  {
    -((-x).Floor)
  }

  /** Nearest integer, halves away from zero. */
  function Round(x: real): (r: int)
    ensures r as real - x <= 0.5 && x - r as real <= 0.5
  {
    if x >= 0.0 then (x + 0.5).Floor else -((-x + 0.5).Floor)
  }

  /** The integer part of the square root. */
  function ISqrt(n: nat): (r: nat)
    ensures r * r <= n < (r + 1) * (r + 1)
  {
    if n == 0 then 0 else
      var r := ISqrt(n - 1);
      if (r + 1) * (r + 1) <= n then r + 1 else r
  }
}
