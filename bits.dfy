/**
 * Fixed-width integers as the C++ source uses them. Arithmetic that the source
 * performs in 32 bits is written with Wrap32, conversions between signed and
 * unsigned 32-bit values with ToI32 / ToU32, and big-endian words with BeWord.
 */
module Bits {
  const Two32: int := 0x1_0000_0000
  const MaxI32: int := 0x7FFF_FFFF

  type u16 = x: int | 0 <= x < 0x1_0000
  type u32 = x: int | 0 <= x < 0x1_0000_0000
  type i32 = x: int | -0x8000_0000 <= x < 0x8000_0000

  /** Unsigned 32-bit wrap-around of an exact result. */
  function Wrap32(x: int): (r: u32)
    ensures 0 <= x < Two32 ==> r == x
  {
    x % Two32
  }

  /** The conversion of an unsigned 32-bit value to int32_t (two's complement). */
  function ToI32(x: u32): (r: i32)
    ensures x <= MaxI32 ==> r == x
    ensures x > MaxI32 ==> r < 0
  {
    if x <= MaxI32 then x else x - Two32
  }

  /** The conversion of a signed 32-bit value to uint32_t. */
  function ToU32(x: i32): (r: u32)
    ensures x >= 0 ==> r == x
    ensures ToI32(r) == x
  {
    if x >= 0 then x else x + Two32
  }

  lemma ToU32ToI32(x: u32)
    ensures ToU32(ToI32(x)) == x
  {
  }

  /** The low 16 bits, as when an int32_t is stored into a uint16_t. */
  function Low16(w: bv32): (r: u16)
  {
    (w & 0xFFFF) as int
  }

  /** Four bytes read most significant first. */
  function BeWord(b0: bv8, b1: bv8, b2: bv8, b3: bv8): bv32
  {
    (b0 as bv32 << 24) | (b1 as bv32 << 16) | (b2 as bv32 << 8) | b3 as bv32
  }

  /** The byte of `w` that lies `8 * k` bits above its least significant end. */
  function ByteOf(w: bv32, k: nat): bv8
    requires k < 4
  {
    match k
    case 3 => ((w >> 24) & 0xFF) as bv8
    case 2 => ((w >> 16) & 0xFF) as bv8
    case 1 => ((w >> 8) & 0xFF) as bv8
    case _ => (w & 0xFF) as bv8
  }

  /** Splitting a word into its bytes and reassembling them gives the word back. */
  lemma BeWordOfBytes(w: bv32)
    ensures BeWord(ByteOf(w, 3), ByteOf(w, 2), ByteOf(w, 1), ByteOf(w, 0)) == w
  {
  }

  /** Reassembling four bytes and splitting the word again gives the bytes back. */
  lemma BytesOfBeWord(b0: bv8, b1: bv8, b2: bv8, b3: bv8)
    ensures ByteOf(BeWord(b0, b1, b2, b3), 3) == b0
    ensures ByteOf(BeWord(b0, b1, b2, b3), 2) == b1
    ensures ByteOf(BeWord(b0, b1, b2, b3), 1) == b2
    ensures ByteOf(BeWord(b0, b1, b2, b3), 0) == b3
  {
  }

  /** The big-endian word that starts at byte `p` of `s`. */
  function WordAt(s: seq<bv8>, p: nat): bv32
    requires p + 4 <= |s|
  {
    BeWord(s[p], s[p + 1], s[p + 2], s[p + 3])
  }
}
