/**
 * Bit packing of integer fields inside a 32-bit record word: a field is the
 * bits under its mask, holding its value shifted left by its shift.
 */
module BitFields {

  /** `x << shift` on a 32-bit word. */
  function Shl(x: bv32, shift: bv8): bv32
    requires shift < 32
  {
    x << shift
  }

  /** `x >> shift` on a 32-bit word (logical: the word is unsigned). */
  function Shr(x: bv32, shift: bv8): bv32
    requires shift < 32
  {
    x >> shift
  }

  /** The value written into a field's bits: `(v << shift) & mask`. */
  function PackBits(v: bv32, mask: bv32, shift: bv8): bv32
    requires shift < 32
  {
    Shl(v, shift) & mask
  }

  /** Read-modify-write of a word: the bits outside `mask` from `cur`, the packed value over them. */
  function InsertBits(cur: bv32, packed: bv32, mask: bv32): bv32
  {
    (cur & !mask) | packed
  }

  /** The value of a field inside its word: `(word & mask) >> shift`. */
  function ExtractBits(w: bv32, mask: bv32, shift: bv8): bv32
    requires shift < 32
  {
    Shr(w & mask, shift)
  }

  /** A masked value has no bit outside the mask. */
  lemma MaskedInside(x: bv32, mask: bv32)
    ensures (x & mask) & !mask == 0
  {
  }

  lemma InsertedTakesInside(cur: bv32, p: bv32, mask: bv32)
    requires p & !mask == 0
    ensures InsertBits(cur, p, mask) & mask == p
  {
  }

  lemma ExtractOfInserted(cur: bv32, p: bv32, mask: bv32, shift: bv8)
    requires shift < 32
    requires p & !mask == 0
    ensures ExtractBits(InsertBits(cur, p, mask), mask, shift) == Shr(p, shift)
  {
    InsertedTakesInside(cur, p, mask);
  }

  lemma PackedInside(v: bv32, mask: bv32, shift: bv8)
    requires shift < 32
    ensures PackBits(v, mask, shift) & !mask == 0
  {
    MaskedInside(Shl(v, shift), mask);
  }

  /** Writing a field leaves every bit outside its mask as it was. */
  lemma InsertKeepsOutside(cur: bv32, v: bv32, mask: bv32, shift: bv8)
    requires shift < 32
    ensures InsertBits(cur, PackBits(v, mask, shift), mask) & !mask == cur & !mask
  {
  }

  /** Reading a field after writing `v` to it gives `v` cut to the field: `((v << shift) & mask) >> shift`. */
  lemma ExtractAfterInsert(cur: bv32, v: bv32, mask: bv32, shift: bv8)
    requires shift < 32
    ensures ExtractBits(InsertBits(cur, PackBits(v, mask, shift), mask), mask, shift)
            == Shr(PackBits(v, mask, shift), shift)
  {
    PackedInside(v, mask, shift);
    ExtractOfInserted(cur, PackBits(v, mask, shift), mask, shift);
  }

  /** A value that fits the field (no bit lost to the shift or the mask) reads back unchanged. */
  lemma ExtractAfterInsertExact(cur: bv32, v: bv32, mask: bv32, shift: bv8)
    requires shift < 32
    requires Shr(Shl(v, shift), shift) == v
    requires PackBits(v, mask, shift) == Shl(v, shift)
    ensures ExtractBits(InsertBits(cur, PackBits(v, mask, shift), mask), mask, shift) == v
  {
    ExtractAfterInsert(cur, v, mask, shift);
  }

  /** A field's value has no bit beyond the field's width. */
  lemma ExtractFits(w: bv32, mask: bv32, shift: bv8)
    requires shift < 32
    ensures ExtractBits(w, mask, shift) & !Shr(mask, shift) == 0
  {
  }
}
