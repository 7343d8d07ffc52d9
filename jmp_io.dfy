/**
 * LJmpIO: a JMP table held in memory. The header values, the field records and
 * a private copy of the record bytes are fields of `Table`; records are read and
 * written in place through big-endian 32-bit words.
 *
 * Floats are modelled by their IEEE-754 bit pattern, so PeekF32 / PokeF32 are
 * PeekU32 / PokeU32 and GetFloat / SetFloat move 32-bit words.
 */
module JmpIO {
  import opened Bits
  import opened Wrappers
  import opened BStream
  import opened BitFields
  import opened JmpFormat

  class Table {
    /** The modulus of the field-name hash (JMP_HASH_PRIME). */
    const hashPrime: Prime
    /** The type code that marks a string field (EJmpFieldType::String). */
    const stringType: bv8

    var entryCount: i32
    var fieldCount: i32
    var entryStartOffset: u32
    var entrySize: u32
    var fields: seq<FieldInfo>
    /** The record bytes; an empty array stands for a null buffer. */
    var data: array<bv8>

    constructor (prime: Prime, stringCode: bv8)
      ensures hashPrime == prime && stringType == stringCode
      ensures entryCount == 0 && fieldCount == 0 && entryStartOffset == 0 && entrySize == 0
      ensures fields == [] && fresh(data) && data.Length == 0
    {
      hashPrime := prime;
      stringType := stringCode;
      entryCount := 0;
      fieldCount := 0;
      entryStartOffset := 0;
      entrySize := 0;
      fields := [];
      data := new bv8[0];
    }

    // -------------------------------------------------------------------------
    // Loading

    /**
     * Load from a stream positioned at the header. The header values are stored
     * whatever the outcome; the records and the field directory only when the
     * bounds check passes. The check is the exact one (see Rejects).
     */
    method Load(s: Stream) returns (ok: bool)
      requires s.position + HeaderSize <= |s.buffer| < Two32
      requires var h := DecodeHeader(s.buffer, s.position);
               !Rejects(h, |s.buffer|) ==> s.position + HeaderSize + FieldDefSize * DirectoryLength(h) <= |s.buffer|
      modifies this, s
      ensures var h := DecodeHeader(s.buffer, old(s.position));
              && entryCount == h.entryCount && fieldCount == h.fieldCount
              && entryStartOffset == h.entryStartOffset && entrySize == h.entrySize
              && ok == !Rejects(h, |s.buffer|)
              && (ok ==> fresh(data)
                         && data[..] == s.buffer[h.entryStartOffset..h.entryStartOffset + BlockLength(h)]
                         && data.Length == DataSize()
                         && fields == DecodeFields(s.buffer, old(s.position) + HeaderSize, DirectoryLength(h))
                         && s.position == old(s.position) + HeaderSize + FieldDefSize * DirectoryLength(h))
              && (!ok ==> data == old(data) && fields == old(fields) && s.position == old(s.position) + HeaderSize)
    {
      var h := ReadHeader(s);
      entryCount := h.entryCount;
      fieldCount := h.fieldCount;
      entryStartOffset := h.entryStartOffset;
      entrySize := h.entrySize;
      if entrySize == 0 || entryStartOffset + BlockLength(h) > |s.buffer| {
        return false;
      }
      AcceptedBlockFits(h, |s.buffer|);
      data := CopyBlock(s.buffer, entryStartOffset, Wrap32(BlockLength(h)));
      fields := ReadFieldRecords(s, fieldCount);
      return true;
    }

    /** The four header words: entry count, field count, entry start offset, entry size. */
    static method ReadHeader(s: Stream) returns (h: Header)
      requires s.position + HeaderSize <= |s.buffer|
      modifies s
      ensures h == DecodeHeader(s.buffer, old(s.position))
      ensures s.position == old(s.position) + HeaderSize
    {
      ghost var p := s.position;
      var count := s.ReadWord();
      var fieldCount := s.ReadWord();
      var start := s.ReadWord();
      var size := s.ReadWord();
      assert count == WordAt(s.buffer, p) && fieldCount == WordAt(s.buffer, p + 4);
      assert start == WordAt(s.buffer, p + 8) && size == WordAt(s.buffer, p + 12);
      h := Header(ToI32(count as int), ToI32(fieldCount as int), start as int, size as int);
    }

    /** A fresh copy of `n` bytes of `buffer` from `start` (the memcpy of the record block). */
    static method CopyBlock(buffer: seq<bv8>, start: nat, n: nat) returns (a: array<bv8>)
      requires start + n <= |buffer|
      ensures fresh(a) && a[..] == buffer[start..start + n]
    {
      a := new bv8[n];
      forall i | 0 <= i < n {
        a[i] := buffer[start + i];
      }
    }

    /** The field directory: `count` records of 12 bytes read in order (none for a negative count). */
    static method ReadFieldRecords(s: Stream, count: i32) returns (fs: seq<FieldInfo>)
      requires s.position + FieldDefSize * (if count < 0 then 0 else count) <= |s.buffer|
      modifies s
      ensures var n := if count < 0 then 0 else count;
              && fs == DecodeFields(s.buffer, old(s.position), n)
              && s.position == old(s.position) + FieldDefSize * n
    {
      ghost var q := s.position;
      ghost var n: nat := if count < 0 then 0 else count;
      fs := [];
      var i: int := 0;
      while i < count
        invariant 0 <= i <= n
        invariant s.position == q + FieldDefSize * i
        invariant |fs| == i
        invariant forall j :: 0 <= j < i ==> fs[j] == DecodeField(s.buffer, q + FieldDefSize * j)
      {
        var hash := s.ReadWord();
        var mask := s.ReadWord();
        var start := s.ReadU16();
        var shift := s.ReadU8();
        var fieldType := s.ReadU8();
        fs := fs + [FieldInfo(hash as int, mask, start, shift, fieldType)];
        i := i + 1;
      }
    }

    /**
     * Load a layout from a template: the given field records and `count`
     * entries, with no record bytes. It fails only when the layout gives an
     * entry size of 0, which happens exactly when there are no fields.
     */
    method LoadTemplate(newFields: seq<FieldInfo>, count: nat) returns (ok: bool)
      modifies this
      ensures fields == newFields
      ensures entryCount == ToI32(Wrap32(count))
      ensures fieldCount == ToI32(Wrap32(|newFields|))
      ensures entryStartOffset == EntryStartFor(fieldCount)
      ensures entrySize == EntrySizeFor(newFields, stringType)
      ensures ok <==> newFields != []
      ensures ok ==> fresh(data) && data.Length == 0
      ensures !ok ==> data == old(data)
    {
      fields := newFields;
      entryCount := ToI32(Wrap32(count));
      fieldCount := ToI32(Wrap32(|fields|));
      entryStartOffset := EntryStartFor(fieldCount);
      entrySize := CalculateNewEntrySize();
      if entrySize == 0 {
        return false;
      }
      data := new bv8[0];
      return true;
    }

    /** The size of a record laid out from the field records: the largest field end. */
    method CalculateNewEntrySize() returns (size: u32)
      ensures size == EntrySizeFor(fields, stringType)
    {
      size := 0;
      for i := 0 to |fields|
        invariant size == EntrySizeFor(fields[..i], stringType)
      {
        var f := fields[i];
        var candidate := f.start + if f.fieldType == stringType then StringSize else 4;
        EntrySizeForStep(fields, i, stringType);
        size := if size < candidate then candidate else size;
      }
      assert fields[..|fields|] == fields;
    }

    // -------------------------------------------------------------------------
    // Field lookup

    method HashFieldName(name: seq<bv8>) returns (hash: u32)
      ensures hash == NameHash(hashPrime, name)
    {
      hash := 0;
      for i := 0 to |name|
        invariant hash == NameHash(hashPrime, name[..i])
      {
        assert name[..i + 1][..i] == name[..i];
        hash := HashStep(hashPrime, hash, name[i]);
      }
      assert name[..|name|] == name;
    }

    /** The first field record with the given hash. */
    method FetchFieldByHash(hash: u32) returns (r: Option<FieldInfo>)
      ensures r == FieldFor(fields, hash)
    {
      r := None;
      for i := 0 to |fields|
        invariant forall j :: 0 <= j < i ==> fields[j].hash != hash
      {
        if fields[i].hash == hash {
          r := Some(fields[i]);
          return;
        }
      }
    }

    method FetchFieldByName(name: seq<bv8>) returns (r: Option<FieldInfo>)
      ensures r == NamedField(name)
    {
      var hash := HashFieldName(name);
      r := FetchFieldByHash(hash);
    }

    function NamedField(name: seq<bv8>): Option<FieldInfo>
      reads this
    {
      FieldFor(fields, NameHash(hashPrime, name))
    }

    // -------------------------------------------------------------------------
    // Words of the record buffer

    /** The number of record bytes, `entryCount * entrySize` in 32 bits: the bound of Peek and Poke. */
    function DataSize(): u32
      reads this
    {
      Wrap32(entrySize * ToU32(entryCount))
    }

    /** Peek and Poke check the offset against DataSize only; the whole word must lie in the buffer. */
    predicate WordReadable(offset: u32)
      reads this
    {
      offset < DataSize() ==> offset + 4 <= data.Length
    }

    /** The byte offset of a field in entry `entryIndex`, computed in 32 bits. */
    function FieldOffset(entryIndex: u32, f: FieldInfo): u32
      reads this
    {
      Wrap32(entryIndex * entrySize + f.start)
    }

    predicate FieldWordReadable(entryIndex: u32, r: Option<FieldInfo>)
      reads this
    {
      r.Some? ==> WordReadable(FieldOffset(entryIndex, r.value))
    }

    predicate ShiftValid(r: Option<FieldInfo>)
    {
      r.Some? ==> r.value.shift < 32
    }

    /** The word at `offset`, or 0 when the offset is past the records. */
    function PeekU32(offset: u32): (w: bv32)
      requires WordReadable(offset)
      reads this, data
      ensures offset >= DataSize() ==> w == 0
      ensures offset < DataSize() ==>
                && ByteOf(w, 3) == data[offset] && ByteOf(w, 2) == data[offset + 1]
                && ByteOf(w, 1) == data[offset + 2] && ByteOf(w, 0) == data[offset + 3]
    {
      if offset >= DataSize() then 0
      else
        BytesOfBeWord(data[offset], data[offset + 1], data[offset + 2], data[offset + 3]);
        WordAt(data[..], offset)
    }

    /** The word at `offset` read as int32_t; its bits are those of PeekU32. */
    function PeekS32(offset: u32): (v: i32)
      requires WordReadable(offset)
      reads this, data
      ensures ToU32(v) == PeekU32(offset) as int
    {
      ToU32ToI32(PeekU32(offset) as int);
      ToI32(PeekU32(offset) as int)
    }

    /** Stores a word big-endian at `offset`, unless the offset is past the records. */
    method PokeU32(offset: u32, value: bv32) returns (ok: bool)
      requires WordReadable(offset)
      modifies data
      ensures ok == (offset < DataSize())
      ensures ok ==> data[..] == WriteWord(old(data[..]), offset, value)
      ensures ok ==> PeekU32(offset) == value
      ensures !ok ==> data[..] == old(data[..])
    {
      if offset >= DataSize() {
        return false;
      }
      data[offset] := ByteOf(value, 3);
      data[offset + 1] := ByteOf(value, 2);
      data[offset + 2] := ByteOf(value, 1);
      data[offset + 3] := ByteOf(value, 0);
      assert data[..] == WriteWord(old(data[..]), offset, value);
      return true;
    }

    /** Stores an int32_t, given as its two's-complement word; PeekS32 then reads back its value. */
    method PokeS32(offset: u32, value: bv32) returns (ok: bool)
      requires WordReadable(offset)
      modifies data
      ensures ok == (offset < DataSize())
      ensures ok ==> data[..] == WriteWord(old(data[..]), offset, value)
      ensures ok ==> PeekS32(offset) == ToI32(value as int)
      ensures !ok ==> data[..] == old(data[..])
    {
      ok := PokeU32(offset, value);
    }

    // -------------------------------------------------------------------------
    // Typed field access

    /** The value of an integer field: its bits under the mask, shifted down. */
    function UnsignedAt(entryIndex: u32, f: FieldInfo): bv32
      requires f.shift < 32 && WordReadable(FieldOffset(entryIndex, f))
      reads this, data
    {
      ExtractBits(PeekU32(FieldOffset(entryIndex, f)), f.bitmask, f.shift)
    }

    method GetUnsignedInt(entryIndex: u32, name: seq<bv8>) returns (v: bv32)
      requires FieldWordReadable(entryIndex, NamedField(name)) && ShiftValid(NamedField(name))
      ensures NamedField(name).None? ==> v == 0
      ensures NamedField(name).Some? ==> v == UnsignedAt(entryIndex, NamedField(name).value)
      ensures NamedField(name).Some? ==> v & !Shr(NamedField(name).value.bitmask, NamedField(name).value.shift) == 0
    {
      var field := FetchFieldByName(name);
      if field.None? {
        return 0;
      }
      var f := field.value;
      var raw := PeekU32(FieldOffset(entryIndex, f));
      v := ExtractBits(raw, f.bitmask, f.shift);
      ExtractFits(raw, f.bitmask, f.shift);
    }

    /** A signed field is the whole word: neither mask nor shift is applied. */
    method GetSignedInt(entryIndex: u32, name: seq<bv8>) returns (v: i32)
      requires FieldWordReadable(entryIndex, NamedField(name))
      ensures NamedField(name).None? ==> v == 0
      ensures NamedField(name).Some? ==> v == PeekS32(FieldOffset(entryIndex, NamedField(name).value))
    {
      var field := FetchFieldByName(name);
      if field.None? {
        return 0;
      }
      v := PeekS32(FieldOffset(entryIndex, field.value));
    }

    method GetSignedIntByHash(entryIndex: u32, hash: u32) returns (v: i32)
      requires FieldWordReadable(entryIndex, FieldFor(fields, hash))
      ensures FieldFor(fields, hash).None? ==> v == 0
      ensures FieldFor(fields, hash).Some? ==> v == PeekS32(FieldOffset(entryIndex, FieldFor(fields, hash).value))
    {
      var field := FetchFieldByHash(hash);
      if field.None? {
        return 0;
      }
      v := PeekS32(FieldOffset(entryIndex, field.value));
    }

    /** The bit pattern of a float field; a missing field gives the pattern of 0.0f. */
    method GetFloat(entryIndex: u32, name: seq<bv8>) returns (bits: bv32)
      requires FieldWordReadable(entryIndex, NamedField(name))
      ensures NamedField(name).None? ==> bits == 0
      ensures NamedField(name).Some? ==> bits == PeekU32(FieldOffset(entryIndex, NamedField(name).value))
    {
      var field := FetchFieldByName(name);
      if field.None? {
        return 0;
      }
      bits := PeekU32(FieldOffset(entryIndex, field.value));
    }

    method GetBoolean(entryIndex: u32, name: seq<bv8>) returns (b: bool)
      requires FieldWordReadable(entryIndex, NamedField(name)) && ShiftValid(NamedField(name))
      ensures b <==> NamedField(name).Some? && UnsignedAt(entryIndex, NamedField(name).value) != 0
    {
      var v := GetUnsignedInt(entryIndex, name);
      b := v != 0;
    }

    /** The 32-byte window of a string field holds the string up to its first 0 byte. */
    predicate StringReadable(entryIndex: u32, r: Option<FieldInfo>)
      reads this
    {
      r.Some? ==> FieldOffset(entryIndex, r.value) + StringSize <= data.Length
    }

    /** The field's 32-byte slot lies inside the records, the range check GetString and SetString lack. */
    predicate StringInRecords(entryIndex: u32, f: FieldInfo)
      reads this
    {
      FieldOffset(entryIndex, f) + StringSize <= DataSize()
    }

    /**
     * With one record of 4 bytes and a field at its start, entry 1 lies past
     * the records: Peek and Poke refuse its offset, while the string slot the
     * unchecked copy of GetString and SetString would use runs past the buffer.
     */
    lemma StringCheckMissing(f: FieldInfo)
      requires entrySize == 4 && entryCount == 1 && f.start == 0 && data.Length == 4
      ensures FieldOffset(1, f) >= DataSize()
      ensures !StringReadable(1, Some(f)) && !StringInRecords(1, f)
    {
      assert DataSize() == 4;
      assert FieldOffset(1, f) == 4;
    }

    function StringAt(entryIndex: u32, f: FieldInfo): seq<bv8>
      requires FieldOffset(entryIndex, f) + StringSize <= data.Length
      reads this, data
    {
      var off := FieldOffset(entryIndex, f);
      CString(data[off..off + StringSize])
    }

    method GetString(entryIndex: u32, name: seq<bv8>) returns (s: seq<bv8>)
      requires StringReadable(entryIndex, NamedField(name))
      ensures NamedField(name).None? ==> s == []
      ensures NamedField(name).Some? ==> s == StringAt(entryIndex, NamedField(name).value)
      ensures |s| <= StringSize && forall i :: 0 <= i < |s| ==> s[i] != 0
    {
      var field := FetchFieldByName(name);
      if field.None? {
        return [];
      }
      var off := FieldOffset(entryIndex, field.value);
      s := CString(data[off..off + StringSize]);
    }

    /**
     * GetString with a range check: a slot that is not inside the records
     * gives "" as an unknown name does.
     */
    method GetStringInRange(entryIndex: u32, name: seq<bv8>) returns (s: seq<bv8>)
      requires DataSize() <= data.Length
      ensures NamedField(name).None? ==> s == []
      ensures NamedField(name).Some? && !StringInRecords(entryIndex, NamedField(name).value) ==> s == []
      ensures NamedField(name).Some? && StringInRecords(entryIndex, NamedField(name).value) ==>
                s == StringAt(entryIndex, NamedField(name).value)
      ensures |s| <= StringSize && forall i :: 0 <= i < |s| ==> s[i] != 0
    {
      var field := FetchFieldByName(name);
      if field.None? || !StringInRecords(entryIndex, field.value) {
        return [];
      }
      var off := FieldOffset(entryIndex, field.value);
      s := CString(data[off..off + StringSize]);
    }

    /**
     * Read-modify-write of an integer field: the value shifted into place and
     * cut to the mask replaces the bits under the mask; the rest of the word
     * and the rest of the buffer stay as they were.
     */
    method SetUnsignedInt(entryIndex: u32, name: seq<bv8>, value: bv32) returns (ok: bool)
      requires FieldWordReadable(entryIndex, NamedField(name)) && ShiftValid(NamedField(name))
      modifies data
      ensures ok == (NamedField(name).Some? && FieldOffset(entryIndex, NamedField(name).value) < DataSize())
      ensures !ok ==> data[..] == old(data[..])
      ensures ok ==> var f := NamedField(name).value;
                     var off := FieldOffset(entryIndex, f);
                     && data[..]
                        == WriteWord(old(data[..]), off,
                                     InsertBits(old(PeekU32(off)), PackBits(value, f.bitmask, f.shift), f.bitmask))
                     && PeekU32(off) & !f.bitmask == old(PeekU32(off)) & !f.bitmask
                     && UnsignedAt(entryIndex, f) == Shr(PackBits(value, f.bitmask, f.shift), f.shift)
    {
      var field := FetchFieldByName(name);
      if field.None? {
        return false;
      }
      var f := field.value;
      var off := FieldOffset(entryIndex, f);
      var cur := PeekU32(off);
      var packed := PackBits(value, f.bitmask, f.shift);
      ok := PokeU32(off, InsertBits(cur, packed, f.bitmask));
      if ok {
        InsertKeepsOutside(cur, value, f.bitmask, f.shift);
        ExtractAfterInsert(cur, value, f.bitmask, f.shift);
      }
    }

    /** The int32_t value is given as its two's-complement word. */
    method SetSignedInt(entryIndex: u32, name: seq<bv8>, value: bv32) returns (ok: bool)
      requires FieldWordReadable(entryIndex, NamedField(name))
      modifies data
      ensures ok == (NamedField(name).Some? && FieldOffset(entryIndex, NamedField(name).value) < DataSize())
      ensures !ok ==> data[..] == old(data[..])
      ensures ok ==> var off := FieldOffset(entryIndex, NamedField(name).value);
                     data[..] == WriteWord(old(data[..]), off, value) && PeekS32(off) == ToI32(value as int)
    {
      var field := FetchFieldByName(name);
      if field.None? {
        return false;
      }
      ok := PokeS32(FieldOffset(entryIndex, field.value), value);
    }

    method SetSignedIntByHash(entryIndex: u32, hash: u32, value: bv32) returns (ok: bool)
      requires FieldWordReadable(entryIndex, FieldFor(fields, hash))
      modifies data
      ensures ok == (FieldFor(fields, hash).Some? && FieldOffset(entryIndex, FieldFor(fields, hash).value) < DataSize())
      ensures !ok ==> data[..] == old(data[..])
      ensures ok ==> var off := FieldOffset(entryIndex, FieldFor(fields, hash).value);
                     data[..] == WriteWord(old(data[..]), off, value) && PeekS32(off) == ToI32(value as int)
    {
      var field := FetchFieldByHash(hash);
      if field.None? {
        return false;
      }
      ok := PokeS32(FieldOffset(entryIndex, field.value), value);
    }

    method SetFloat(entryIndex: u32, name: seq<bv8>, bits: bv32) returns (ok: bool)
      requires FieldWordReadable(entryIndex, NamedField(name))
      modifies data
      ensures ok == (NamedField(name).Some? && FieldOffset(entryIndex, NamedField(name).value) < DataSize())
      ensures !ok ==> data[..] == old(data[..])
      ensures ok ==> var off := FieldOffset(entryIndex, NamedField(name).value);
                     data[..] == WriteWord(old(data[..]), off, bits) && PeekU32(off) == bits
    {
      var field := FetchFieldByName(name);
      if field.None? {
        return false;
      }
      ok := PokeU32(FieldOffset(entryIndex, field.value), bits);
    }

    /** A boolean is stored as the unsigned value 1 or 0. */
    method SetBoolean(entryIndex: u32, name: seq<bv8>, b: bool) returns (ok: bool)
      requires FieldWordReadable(entryIndex, NamedField(name)) && ShiftValid(NamedField(name))
      modifies data
      ensures ok == (NamedField(name).Some? && FieldOffset(entryIndex, NamedField(name).value) < DataSize())
      ensures !ok ==> data[..] == old(data[..])
      ensures ok ==> var f := NamedField(name).value;
                     var off := FieldOffset(entryIndex, f);
                     && data[..]
                        == WriteWord(old(data[..]), off,
                                     InsertBits(old(PeekU32(off)), PackBits(if b then 1 else 0, f.bitmask, f.shift),
                                                f.bitmask))
                     && PeekU32(off) & !f.bitmask == old(PeekU32(off)) & !f.bitmask
                     && UnsignedAt(entryIndex, f) == Shr(PackBits(if b then 1 else 0, f.bitmask, f.shift), f.shift)
    {
      ok := SetUnsignedInt(entryIndex, name, if b then 1 else 0);
    }

    /**
     * Stores a string into a field: at most StringSize - 1 bytes of the value
     * are copied over the first bytes of the field. No terminator is written,
     * so a shorter value leaves the old tail of the field in place.
     */
    method SetString(entryIndex: u32, name: seq<bv8>, value: seq<bv8>) returns (ok: bool)
      requires NamedField(name).Some? ==>
                 FieldOffset(entryIndex, NamedField(name).value) + StringCopyLength(value) <= data.Length
      modifies data
      ensures ok == NamedField(name).Some?
      ensures !ok ==> data[..] == old(data[..])
      ensures ok ==> var off := FieldOffset(entryIndex, NamedField(name).value);
                     var n := StringCopyLength(value);
                     && data[off..off + n] == value[..n]
                     && forall i :: 0 <= i < data.Length && !(off <= i < off + n) ==> data[i] == old(data[i])
      ensures ok && FieldOffset(entryIndex, NamedField(name).value) + StringSize <= data.Length ==>
                var off := FieldOffset(entryIndex, NamedField(name).value);
                data[off..off + StringSize] == StringWrittenAsIs(old(data[off..off + StringSize]), value)
      ensures ok && StringReadable(entryIndex, NamedField(name))
                 && |value| < StringSize && (forall i :: 0 <= i < |value| ==> value[i] != 0) ==>
                (StringAt(entryIndex, NamedField(name).value) == value
                 <==> old(data[FieldOffset(entryIndex, NamedField(name).value) + |value|]) == 0)
    {
      var field := FetchFieldByName(name);
      ok := field.Some?;
      if ok {
        var off := FieldOffset(entryIndex, field.value);
        CopyString(off, value);
      }
    }

    /**
     * SetString with a range check: it fails without change when the slot is
     * not inside the records, and otherwise copies as SetString does.
     */
    method SetStringInRange(entryIndex: u32, name: seq<bv8>, value: seq<bv8>) returns (ok: bool)
      requires DataSize() <= data.Length
      modifies data
      ensures ok == (NamedField(name).Some? && StringInRecords(entryIndex, NamedField(name).value))
      ensures !ok ==> data[..] == old(data[..])
      ensures ok ==> var off := FieldOffset(entryIndex, NamedField(name).value);
                     && data[off..off + StringSize] == StringWrittenAsIs(old(data[off..off + StringSize]), value)
                     && forall i :: 0 <= i < data.Length && !(off <= i < off + StringCopyLength(value)) ==>
                          data[i] == old(data[i])
    {
      var field := FetchFieldByName(name);
      if field.None? || !StringInRecords(entryIndex, field.value) {
        return false;
      }
      var off := FieldOffset(entryIndex, field.value);
      CopyString(off, value);
      return true;
    }

    /**
     * SetString with a 0 stored after the copied bytes, so that every value
     * that fits reads back as written.
     */
    method SetTerminatedString(entryIndex: u32, name: seq<bv8>, value: seq<bv8>) returns (ok: bool)
      requires NamedField(name).Some? ==>
                 FieldOffset(entryIndex, NamedField(name).value) + StringCopyLength(value) < data.Length
      modifies data
      ensures ok == NamedField(name).Some?
      ensures !ok ==> data[..] == old(data[..])
      ensures ok ==> var off := FieldOffset(entryIndex, NamedField(name).value);
                     var n := StringCopyLength(value);
                     && data[off..off + n] == value[..n]
                     && data[off + n] == 0
                     && forall i :: 0 <= i < data.Length && !(off <= i <= off + n) ==> data[i] == old(data[i])
      ensures ok && FieldOffset(entryIndex, NamedField(name).value) + StringSize <= data.Length ==>
                var off := FieldOffset(entryIndex, NamedField(name).value);
                data[off..off + StringSize] == StringWritten(old(data[off..off + StringSize]), value)
      ensures ok && StringReadable(entryIndex, NamedField(name))
                 && |value| < StringSize && (forall i :: 0 <= i < |value| ==> value[i] != 0) ==>
                StringAt(entryIndex, NamedField(name).value) == value
    {
      var field := FetchFieldByName(name);
      if field.None? {
        return false;
      }
      var off := FieldOffset(entryIndex, field.value);
      CopyTerminated(off, value);
      return true;
    }

    /** The copy of SetTerminatedString: the value's first bytes, then a 0, nothing else. */
    method CopyTerminated(off: nat, value: seq<bv8>)
      requires off + StringCopyLength(value) < data.Length
      modifies data
      ensures var n := StringCopyLength(value);
              && data[off..off + n] == value[..n]
              && data[off + n] == 0
              && forall i :: 0 <= i < data.Length && !(off <= i <= off + n) ==> data[i] == old(data[i])
      ensures off + StringSize <= data.Length ==>
                data[off..off + StringSize] == StringWritten(old(data[off..off + StringSize]), value)
      ensures off + StringSize <= data.Length && |value| < StringSize
              && (forall i :: 0 <= i < |value| ==> value[i] != 0) ==>
                CString(data[off..off + StringSize]) == value
    {
      ghost var before := data[..];
      var n := StringCopyLength(value);
      CopyBytes(off, value);
      data[off + n] := 0;
      StringStored(before, data[..], off, value);
    }

    /**
     * The memcpy of SetString: the first StringCopyLength(value) bytes of the
     * value, nothing else. The 32-byte window at `off` becomes
     * StringWrittenAsIs of the old one, and reads back as the value exactly
     * when the old window had a 0 right after it.
     */
    method CopyString(off: nat, value: seq<bv8>)
      requires off + StringCopyLength(value) <= data.Length
      modifies data
      ensures var n := StringCopyLength(value);
              && data[off..off + n] == value[..n]
              && forall i :: 0 <= i < data.Length && !(off <= i < off + n) ==> data[i] == old(data[i])
      ensures off + StringSize <= data.Length ==>
                data[off..off + StringSize] == StringWrittenAsIs(old(data[off..off + StringSize]), value)
      ensures off + StringSize <= data.Length && |value| < StringSize
              && (forall i :: 0 <= i < |value| ==> value[i] != 0) ==>
                (CString(data[off..off + StringSize]) == value <==> old(data[off + |value|]) == 0)
    {
      ghost var before := data[..];
      CopyBytes(off, value);
      StringStoredAsIs(before, data[..], off, value);
    }

    /** The byte loop of the copy: the first StringCopyLength(value) bytes of the value, nothing else. */
    method CopyBytes(off: nat, value: seq<bv8>)
      requires off + StringCopyLength(value) <= data.Length
      modifies data
      ensures var n := StringCopyLength(value);
              && (forall j :: 0 <= j < n ==> data[off + j] == value[j])
              && forall i :: 0 <= i < data.Length && !(off <= i < off + n) ==> data[i] == old(data[i])
    {
      var n := StringCopyLength(value);
      for k := 0 to n
        invariant forall j :: 0 <= j < k ==> data[off + j] == value[j]
        invariant forall i :: 0 <= i < data.Length && !(off <= i < off + k) ==> data[i] == old(data[i])
      {
        data[off + k] := value[k];
      }
    }
  }

  /**
   * A buffer that differs from `before` only by the copied bytes of `value`
   * at `off` holds, in the 32-byte window at `off`, StringWrittenAsIs of the
   * old window; a short value without 0 bytes reads back exactly when the old
   * window had a 0 right after it.
   */
  lemma StringStoredAsIs(before: seq<bv8>, after: seq<bv8>, off: nat, value: seq<bv8>)
    requires |before| == |after| && off + StringCopyLength(value) <= |after|
    requires forall j :: 0 <= j < StringCopyLength(value) ==> after[off + j] == value[j]
    requires forall i :: 0 <= i < |after| && !(off <= i < off + StringCopyLength(value)) ==> after[i] == before[i]
    ensures after[off..off + StringCopyLength(value)] == value[..StringCopyLength(value)]
    ensures off + StringSize <= |after| ==>
              after[off..off + StringSize] == StringWrittenAsIs(before[off..off + StringSize], value)
    ensures off + StringSize <= |after| && |value| < StringSize && (forall i :: 0 <= i < |value| ==> value[i] != 0) ==>
              (CString(after[off..off + StringSize]) == value <==> before[off + |value|] == 0)
  {
    var n := StringCopyLength(value);
    assert after[off..off + n] == value[..n];
    if off + StringSize <= |after| {
      var window := before[off..off + StringSize];
      assert after[off..off + StringSize] == StringWrittenAsIs(window, value);
      if |value| < StringSize && (forall i :: 0 <= i < |value| ==> value[i] != 0) {
        assert window[|value|] == before[off + |value|];
        StringWrittenAsIsReadsBack(window, value);
      }
    }
  }

  lemma StringStored(before: seq<bv8>, after: seq<bv8>, off: nat, value: seq<bv8>)
    requires |before| == |after| && off + StringCopyLength(value) < |after|
    requires forall j :: 0 <= j < StringCopyLength(value) ==> after[off + j] == value[j]
    requires after[off + StringCopyLength(value)] == 0
    requires forall i :: 0 <= i < |after| && !(off <= i <= off + StringCopyLength(value)) ==> after[i] == before[i]
    ensures after[off..off + StringCopyLength(value)] == value[..StringCopyLength(value)]
    ensures off + StringSize <= |after| ==>
              after[off..off + StringSize] == StringWritten(before[off..off + StringSize], value)
    ensures off + StringSize <= |after| && |value| < StringSize && (forall i :: 0 <= i < |value| ==> value[i] != 0) ==>
              CString(after[off..off + StringSize]) == value
  {
    var n := StringCopyLength(value);
    assert after[off..off + n] == value[..n];
    if off + StringSize <= |after| {
      var window := before[off..off + StringSize];
      assert after[off..off + StringSize] == StringWritten(window, value);
      if |value| < StringSize && forall i :: 0 <= i < |value| ==> value[i] != 0 {
        StringWrittenRoundTrip(window, value);
      }
    }
  }
}
