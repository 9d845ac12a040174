/** Bytes and little-endian words. */
module Bytes {
  type byte = x: int | 0 <= x < 256

  const WORD16 := 0x1_0000
  const WORD32 := 0x1_0000_0000

  function Le16(x: nat): (b: seq<byte>)
    requires x < WORD16
    ensures |b| == 2
  {
    [x % 256, x / 256]
  }

  function Le32(x: nat): (b: seq<byte>)
    requires x < WORD32
    ensures |b| == 4
  {
    Le16(x % WORD16) + Le16(x / WORD16)
  }

  function Read16(b: seq<byte>): nat
    requires |b| == 2
  {
    b[0] + 256 * b[1] as int
  }

  function Read32(b: seq<byte>): nat
    requires |b| == 4
  {
    Read16(b[..2]) + WORD16 * Read16(b[2..])
  }

  /** The number whose digits, to the base of 256, these bytes are, the lowest first. */
  function LowFirst(b: seq<byte>): nat
  {
    if b == [] then 0 else b[0] + 0x100 * LowFirst(b[1..])
  }

  /** Both forms are little-endian. */
  lemma Le16IsLowFirst(x: nat)
    requires x < WORD16
    ensures LowFirst(Le16(x)) == x
  {
    TwoDigits(x % 256, x / 256);
  }

  lemma Le32IsLowFirst(x: nat)
    requires x < WORD32
    ensures LowFirst(Le32(x)) == x
  {
    var low, high := x % WORD16, x / WORD16;
    FourDigits(low % 256, low / 256, high % 256, high / 256);
  }

  lemma TwoDigits(a: byte, b: byte)
    ensures LowFirst([a, b]) == a as int + 0x100 * b as int
  {
    assert [a, b][1..] == [b] && [b][1..] == [];
    assert LowFirst([b]) == b;
  }

  lemma FourDigits(a: byte, b: byte, c: byte, d: byte)
    ensures LowFirst([a, b, c, d]) == a as int + 0x100 * b as int + 0x1_0000 * c as int + 0x100_0000 * d as int
  {
    assert [a, b, c, d][1..] == [b, c, d] && [b, c, d][1..] == [c, d];
    TwoDigits(c, d);
  }

  lemma ReadLe16(x: nat)
    requires x < WORD16
    ensures Read16(Le16(x)) == x
  {
  }

  lemma ReadLe32(x: nat)
    requires x < WORD32
    ensures Read32(Le32(x)) == x
  {
    ReadLe16(x % WORD16);
    ReadLe16(x / WORD16);
    var b := Le32(x);
    assert b[..2] == Le16(x % WORD16) && b[2..] == Le16(x / WORD16);
  }
}
