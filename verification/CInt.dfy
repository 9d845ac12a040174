/** C's integer arithmetic where it differs from that of the integers. */
module CInt {
  /** Division by a positive divisor, and its remainder: both truncate toward zero. */
  function Quotient(a: int, b: int): int
    requires b > 0
  {
    if a >= 0 then a / b else -(-a / b)
  }

  function Remainder(a: int, b: int): int
    requires b > 0
  {
    if a >= 0 then a % b else -(-a % b)
  }

  /** The remainder makes up for what the quotient leaves, and has the sign of the dividend. */
  lemma Divides(a: int, b: int)
    requires b > 0
    ensures a == Quotient(a, b) * b + Remainder(a, b)
    ensures if a >= 0 then 0 <= Remainder(a, b) < b else -b < Remainder(a, b) <= 0
  {
  }

  /** A value stored in an unsigned 16-bit field, and in a SINT32. */
  function U16(x: int): (u: nat)
    ensures u < 0x1_0000 && (0 <= x < 0x1_0000 ==> u == x)
  {
    x % 0x1_0000
  }

  function ToSint32(x: int): int
  {
    (x + 0x8000_0000) % 0x1_0000_0000 - 0x8000_0000
  }
}
