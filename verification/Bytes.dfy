/** Octets and the fixed-width arithmetic both programs rely on. */
module Bytes {

  type Byte = x: int | 0 <= x < 256

  const TWO_16 := 0x1_0000
  const TWO_32 := 0x1_0000_0000

  function Min(a: int, b: int): int { if a <= b then a else b }

  function Max(a: int, b: int): int { if a <= b then b else a }

  /** Truncation to an unsigned 32-bit integer. */
  function U32(x: int): nat { x % TWO_32 }

  /** The value a little-endian host reads from a 16-bit field written in the other byte order. */
  function Swap16(x: nat): nat { (x % 256) * 256 + x / 256 % 256 }

  /** The 32-bit version of Swap16. */
  function Swap32(x: nat): nat { Swap16(x % TWO_16) * TWO_16 + Swap16(x / TWO_16 % TWO_16) }

  /** The octets come back in reverse. */
  lemma Swap16Octets(a: Byte, b: Byte)
    ensures Swap16(a as int * 0x100 + b) == b as int * 0x100 + a
  {
  }

  lemma Halves(hi: nat, lo: nat)
    requires hi < TWO_16 && lo < TWO_16
    ensures (hi * TWO_16 + lo) % TWO_16 == lo && (hi * TWO_16 + lo) / TWO_16 % TWO_16 == hi
  {
  }

  lemma Swap32Halves(hi: nat, lo: nat)
    requires hi < TWO_16 && lo < TWO_16
    ensures Swap32(hi * TWO_16 + lo) == Swap16(lo) * TWO_16 + Swap16(hi)
  {
    Halves(hi, lo);
  }

  lemma Swap32Octets(hi: nat, lo: nat, a: Byte, b: Byte, c: Byte, d: Byte)
    requires hi == a as int * 0x100 + b && lo == c as int * 0x100 + d
    ensures Swap32(hi * TWO_16 + lo) == (d as int * 0x100 + c) * TWO_16 + (b as int * 0x100 + a)
  {
    Swap16Octets(a, b);
    Swap16Octets(c, d);
    Swap32Halves(hi, lo);
  }
}
