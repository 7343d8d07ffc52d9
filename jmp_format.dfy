/**
 * The JMP table format: the 16-byte header, the 12-byte field records, the
 * field-name hash, field lookup and the bit packing of integer fields.
 * Everything here is a pure function of its arguments; the table object that
 * owns a record buffer is `JmpIO.Table`.
 */
module JmpFormat {
  import opened Bits
  import opened Wrappers

  /** Size of the header: entry count, field count, entry start offset, entry size. */
  const HeaderSize: nat := 16
  /** Size of one field record: hash, bitmask, start, shift, type. */
  const FieldDefSize: nat := 12
  /** Storage of a string field, terminator included. */
  const StringSize: nat := 32

  type Prime = x: int | x > 0 witness 1

  datatype Header = Header(entryCount: i32, fieldCount: i32, entryStartOffset: u32, entrySize: u32)

  /** One field record. `fieldType` is the raw type byte. */
  datatype FieldInfo = FieldInfo(hash: u32, bitmask: bv32, start: u16, shift: bv8, fieldType: bv8)

  // ---------------------------------------------------------------------------
  // Decoding the header and the field directory

  /** The header: four big-endian words, the two counts read as int32_t. */
  function DecodeHeader(buf: seq<bv8>, p: nat): Header
    requires p + HeaderSize <= |buf|
  {
    Header(ToI32(WordAt(buf, p) as int), ToI32(WordAt(buf, p + 4) as int),
           WordAt(buf, p + 8) as int, WordAt(buf, p + 12) as int)
  }

  /** Each header value keeps the bits of its word, at offsets 0, 4, 8 and 12. */
  lemma DecodeHeaderWords(buf: seq<bv8>, p: nat)
    requires p + HeaderSize <= |buf|
    ensures ToU32(DecodeHeader(buf, p).entryCount) == WordAt(buf, p) as int
    ensures ToU32(DecodeHeader(buf, p).fieldCount) == WordAt(buf, p + 4) as int
    ensures DecodeHeader(buf, p).entryStartOffset == WordAt(buf, p + 8) as int
    ensures DecodeHeader(buf, p).entrySize == WordAt(buf, p + 12) as int
  {
    ToU32ToI32(WordAt(buf, p) as int);
    ToU32ToI32(WordAt(buf, p + 4) as int);
  }

  /** Where the records start: after the header and `fieldCount` field records, computed in 32 bits. */
  function EntryStartFor(fieldCount: i32): u32
  {
    Wrap32(HeaderSize + fieldCount * FieldDefSize)
  }

  function DecodeField(buf: seq<bv8>, q: nat): FieldInfo
    requires q + FieldDefSize <= |buf|
  {
    FieldInfo(WordAt(buf, q) as int, WordAt(buf, q + 4),
              buf[q + 8] as int * 256 + buf[q + 9] as int, buf[q + 10], buf[q + 11])
  }

  /** How many records the directory loop reads: none when the field count is negative. */
  function DirectoryLength(h: Header): nat
  {
    if h.fieldCount < 0 then 0 else h.fieldCount
  }

  /** `n` consecutive field records starting at byte `q`. */
  function DecodeFields(buf: seq<bv8>, q: nat, n: nat): (fs: seq<FieldInfo>)
    requires q + FieldDefSize * n <= |buf|
    ensures |fs| == n
    ensures forall i :: 0 <= i < n ==> fs[i] == DecodeField(buf, q + FieldDefSize * i)
  {
    seq(n, i requires 0 <= i < n => DecodeField(buf, q + FieldDefSize * i))
  }

  // ---------------------------------------------------------------------------
  // The bounds check of Load

  /** The number of record bytes the header describes, computed exactly. */
  function BlockLength(h: Header): nat
  {
    h.entrySize * ToU32(h.entryCount)
  }

  /** Load's rejection test with exact arithmetic: no record size, or the block runs past the end. */
  predicate Rejects(h: Header, streamSize: nat)
  {
    h.entrySize == 0 || h.entryStartOffset + BlockLength(h) > streamSize
  }

  /** Load's rejection test as the source computes it, in 32-bit unsigned arithmetic. */
  predicate RejectsAsWritten(h: Header, streamSize: nat)
  {
    h.entrySize == 0 || Wrap32(h.entryStartOffset + Wrap32(BlockLength(h))) > streamSize
  }

  /**
   * The 32-bit test also accepts headers whose copy stays inside the stream:
   * entry count 0x10001 and record size 0x10000 give a product that wraps to
   * 0x10000, so start 16 on a stream of 0x10010 bytes passes, and a table of
   * 0x10001 records is loaded over only 0x10000 bytes of data.
   */
  lemma AsWrittenAcceptsWrappedTable()
    ensures var h := Header(0x10001, 0, 16, 0x10000);
            && !RejectsAsWritten(h, 0x10010)
            && Rejects(h, 0x10010)
            && Wrap32(BlockLength(h)) == 0x10000
  {
    var h := Header(0x10001, 0, 16, 0x10000);
    assert BlockLength(h) == 0x1_0001_0000;
    assert Wrap32(BlockLength(h)) == 0x10000;
  }

  /** When the exact end of the block fits in 32 bits the two tests agree. */
  lemma AsWrittenAgreesWithoutWrap(h: Header, streamSize: nat)
    requires h.entryStartOffset + BlockLength(h) < Two32
    ensures RejectsAsWritten(h, streamSize) == Rejects(h, streamSize)
  {
    assert Wrap32(BlockLength(h)) == BlockLength(h);
  }

  /**
   * The 32-bit test accepts a header whose record block does not fit in the
   * stream: entry count -1 (0xFFFFFFFF as unsigned), entry size 1 and start
   * offset 1 make the sum wrap to 0, and the copy would then read 0xFFFFFFFF
   * bytes from a 16-byte buffer.
   */
  lemma AsWrittenAdmitsOverrun()
    ensures var h := Header(-1, 0, 1, 1);
            && !RejectsAsWritten(h, HeaderSize)
            && Rejects(h, HeaderSize)
            && Wrap32(BlockLength(h)) == 0xFFFF_FFFF
            && h.entryStartOffset + Wrap32(BlockLength(h)) > HeaderSize
  {
    var h := Header(-1, 0, 1, 1);
    assert ToU32(h.entryCount) == 0xFFFF_FFFF;
    assert BlockLength(h) == 0xFFFF_FFFF;
  }

  /** A header that passes the exact test describes a block inside the stream whose length fits in 32 bits. */
  lemma AcceptedBlockFits(h: Header, streamSize: nat)
    requires streamSize < Two32
    requires !Rejects(h, streamSize)
    ensures h.entryStartOffset + BlockLength(h) <= streamSize
    ensures Wrap32(BlockLength(h)) == BlockLength(h)
    ensures !RejectsAsWritten(h, streamSize)
  {
    AsWrittenAgreesWithoutWrap(h, streamSize);
  }

  // ---------------------------------------------------------------------------
  // Field-name hashing

  /** A `char` of the name, as a signed char promoted to int. */
  function SignedChar(c: bv8): (r: int)
    ensures -0x80 <= r < 0x80
    ensures c < 0x80 ==> r == c as int
  {
    if c < 0x80 then c as int else c as int - 0x100
  }

  /** One step of the hash: `((hash << 8) + c) % prime` with `hash` and the sum in 32 bits. */
  function HashStep(prime: Prime, h: u32, c: bv8): (r: u32)
    ensures r < prime
  {
    var sum := Wrap32(Wrap32(h * 0x100) + SignedChar(c));
    ModBelow(sum, prime);
    sum % prime
  }

  /** A remainder is below both the divisor and the dividend. */
  lemma ModBelow(x: nat, d: Prime)
    ensures x % d < d && x % d <= x
  {
    if x < d {
      assert x % d == x;
    }
  }

  /** The hash of a name: HashStep folded from the left, starting at 0. */
  function NameHash(prime: Prime, name: seq<bv8>): (r: u32)
    ensures name == [] ==> r == 0
    ensures name != [] ==> r < prime
  {
    if name == [] then 0
    else HashStep(prime, NameHash(prime, name[..|name| - 1]), name[|name| - 1])
  }

  /** The rolling hash in exact arithmetic over unsigned bytes: `hash = (hash * 256 + byte) mod prime`. */
  function RollingHash(prime: Prime, name: seq<bv8>): nat
  {
    if name == [] then 0
    else (RollingHash(prime, name[..|name| - 1]) * 256 + name[|name| - 1] as int) % prime
  }

  /** For a prime below 2^24 and a 7-bit name nothing wraps, so the source's hash is the rolling hash. */
  lemma {:induction false} NameHashIsRollingHash(prime: Prime, name: seq<bv8>)
    requires prime <= 0x100_0000
    requires forall i :: 0 <= i < |name| ==> name[i] < 0x80
    ensures NameHash(prime, name) == RollingHash(prime, name)
  {
    if name != [] {
      var init := name[..|name| - 1];
      NameHashIsRollingHash(prime, init);
      var h := NameHash(prime, init);
      var c := name[|name| - 1];
      assert h < 0x100_0000;
      assert Wrap32(h * 0x100) == h * 0x100;
      assert SignedChar(c) == c as int;
      assert Wrap32(h * 0x100 + c as int) == h * 0x100 + c as int;
      assert NameHash(prime, name) == HashStep(prime, h, c);
    }
  }

  /**
   * With a prime above 2^24 the shift can wrap: under the prime 2^32 - 5 the
   * name [1, 0, 0, 0, 0] reaches 2^24 after four bytes, and the fifth shift
   * turns it into 2^32, which wraps to 0, while the rolling hash gives 5.
   */
  lemma LargePrimeHashWraps()
    ensures NameHash(0xFFFF_FFFB, [1, 0, 0, 0, 0]) == 0
    ensures RollingHash(0xFFFF_FFFB, [1, 0, 0, 0, 0]) == 5
  {
    var name: seq<bv8> := [1, 0, 0, 0, 0];
    assert name[..1][..0] == [] && name[..2][..1] == name[..1] && name[..3][..2] == name[..2];
    assert name[..4][..3] == name[..3] && name[..4] == name[..|name| - 1];
    assert NameHash(0xFFFF_FFFB, name[..1]) == 1;
    assert NameHash(0xFFFF_FFFB, name[..2]) == 0x100;
    assert NameHash(0xFFFF_FFFB, name[..3]) == 0x1_0000;
    assert NameHash(0xFFFF_FFFB, name[..4]) == 0x100_0000;
    assert NameHash(0xFFFF_FFFB, name) == HashStep(0xFFFF_FFFB, 0x100_0000, 0);
    assert RollingHash(0xFFFF_FFFB, name[..1]) == 1;
    assert RollingHash(0xFFFF_FFFB, name[..2]) == 0x100;
    assert RollingHash(0xFFFF_FFFB, name[..3]) == 0x1_0000;
    assert RollingHash(0xFFFF_FFFB, name[..4]) == 0x100_0000;
  }

  /**
   * A name byte of 0x80 or above is added as a negative number: the one-byte
   * name [0x80] hashes to 2^32 - 128 before the reduction, not to 128.
   */
  lemma SignedCharHazard()
    ensures NameHash(0x100_0000, [0x80]) == 0x100_0000 - 0x80
    ensures RollingHash(0x100_0000, [0x80]) == 0x80
  {
    var name: seq<bv8> := [0x80];
    assert name[..0] == [];
    assert NameHash(0x100_0000, name) == HashStep(0x100_0000, 0, 0x80);
    assert RollingHash(0x100_0000, name) == (0 * 256 + 0x80) % 0x100_0000;
  }

  // ---------------------------------------------------------------------------
  // Field lookup

  /** The index of the first record whose hash equals `hash`, if any. */
  function FindField(fields: seq<FieldInfo>, hash: u32): (r: Option<nat>)
    ensures r.Some? ==> r.value < |fields| && fields[r.value].hash == hash
    ensures r.Some? ==> forall j :: 0 <= j < r.value ==> fields[j].hash != hash
    ensures r.None? ==> forall j :: 0 <= j < |fields| ==> fields[j].hash != hash
  {
    if fields == [] then None
    else if fields[0].hash == hash then Some(0)
    else
      match FindField(fields[1..], hash)
      case None => None
      case Some(i) => Some(i + 1)
  }

  /** The record the lookup returns (`FetchJmpFieldInfo`): the first match, or none. */
  function FieldFor(fields: seq<FieldInfo>, hash: u32): (r: Option<FieldInfo>)
  {
    match FindField(fields, hash)
    case None => None
    case Some(i) => Some(fields[i])
  }

  /** A record that repeats an earlier record's hash is never the one returned. */
  lemma LaterDuplicateShadowed(fields: seq<FieldInfo>, i: nat, j: nat)
    requires i < j < |fields| && fields[i].hash == fields[j].hash
    ensures FindField(fields, fields[j].hash).Some?
    ensures FindField(fields, fields[j].hash).value <= i
  {
  }

  // ---------------------------------------------------------------------------
  // Size of a record laid out from its fields (CalculateNewEntrySize)

  /** The byte just past a field: its start plus the string size or one word. */
  function FieldEnd(f: FieldInfo, stringType: bv8): nat
  {
    f.start + (if f.fieldType == stringType then StringSize else 4)
  }

  /** The running maximum of FieldEnd over the fields, 0 for none. */
  function EntrySizeFor(fields: seq<FieldInfo>, stringType: bv8): (r: nat)
    ensures fields == [] ==> r == 0
    ensures forall i :: 0 <= i < |fields| ==> FieldEnd(fields[i], stringType) <= r
    ensures fields != [] ==> exists i :: 0 <= i < |fields| && FieldEnd(fields[i], stringType) == r
    ensures r < 0x1_0000 + StringSize
  {
    if fields == [] then 0
    else
      var init := fields[..|fields| - 1];
      var prev := EntrySizeFor(init, stringType);
      var last := FieldEnd(fields[|fields| - 1], stringType);
      assert forall i :: 0 <= i < |init| ==> fields[i] == init[i];
      if prev < last then last else prev
  }

  /** Extending the fields by one takes the larger of the running maximum and the new field's end. */
  lemma EntrySizeForStep(fields: seq<FieldInfo>, i: nat, stringType: bv8)
    requires i < |fields|
    ensures var prev := EntrySizeFor(fields[..i], stringType);
            var last := FieldEnd(fields[i], stringType);
            EntrySizeFor(fields[..i + 1], stringType) == if prev < last then last else prev
  {
    assert fields[..i + 1][..i] == fields[..i];
  }

  // ---------------------------------------------------------------------------
  // Words and strings inside the record buffer

  /** The buffer with the four bytes of `w` written big-endian at `p`. */
  function WriteWord(s: seq<bv8>, p: nat, w: bv32): (r: seq<bv8>)
    requires p + 4 <= |s|
    ensures |r| == |s|
    ensures WordAt(r, p) == w
    ensures forall i :: 0 <= i < |s| && !(p <= i < p + 4) ==> r[i] == s[i]
  {
    BeWordOfBytes(w);
    s[p := ByteOf(w, 3)][p + 1 := ByteOf(w, 2)][p + 2 := ByteOf(w, 1)][p + 3 := ByteOf(w, 0)]
  }

  /** The C string stored in a byte window: the bytes before the first 0, or all of them. */
  function CString(s: seq<bv8>): (r: seq<bv8>)
    ensures |r| <= |s| && r == s[..|r|]
    ensures forall i :: 0 <= i < |r| ==> r[i] != 0
    ensures |r| < |s| ==> s[|r|] == 0
  {
    if s == [] || s[0] == 0 then []
    else [s[0]] + CString(s[1..])
  }

  /** How many bytes SetString copies: the value's length, at most StringSize - 1. */
  function StringCopyLength(value: seq<bv8>): (n: nat)
    ensures n <= |value| && n < StringSize
    ensures n == |value| || n == StringSize - 1
  {
    if |value| < StringSize - 1 then |value| else StringSize - 1
  }

  /** SetString's effect on a field's window: the copied bytes replace the first ones, nothing else. */
  function StringWrittenAsIs(window: seq<bv8>, value: seq<bv8>): (r: seq<bv8>)
    requires StringCopyLength(value) <= |window|
    ensures |r| == |window|
    ensures r[..StringCopyLength(value)] == value[..StringCopyLength(value)]
    ensures r[StringCopyLength(value)..] == window[StringCopyLength(value)..]
  {
    var n := StringCopyLength(value);
    value[..n] + window[n..]
  }

  /**
   * Writing "ab" over a field that holds "xyz" leaves "abz": no terminator is
   * written after the copied bytes, so the old tail shows through.
   */
  lemma ShorterStringKeepsOldTail()
    ensures var window: seq<bv8> := [0x78, 0x79, 0x7A] + seq(StringSize - 3, _ => 0);
            CString(StringWrittenAsIs(window, [0x61, 0x62])) == [0x61, 0x62, 0x7A]
  {
    var window: seq<bv8> := [0x78, 0x79, 0x7A] + seq(StringSize - 3, _ => 0);
    var r := StringWrittenAsIs(window, [0x61, 0x62]);
    assert r == [0x61, 0x62, 0x7A] + seq(StringSize - 3, _ => 0);
    assert r[3] == 0;
    assert CString(r) == r[..|CString(r)|];
    assert |CString(r)| == 3;
  }

  /** String writing with a terminator after the copied bytes, as a C string store is meant to be. */
  function StringWritten(window: seq<bv8>, value: seq<bv8>): (r: seq<bv8>)
    requires |window| == StringSize
    ensures |r| == StringSize
    ensures r[..StringCopyLength(value)] == value[..StringCopyLength(value)]
    ensures r[StringCopyLength(value)] == 0
    ensures r[StringCopyLength(value) + 1..] == window[StringCopyLength(value) + 1..]
  {
    var n := StringCopyLength(value);
    value[..n] + [0] + window[n + 1..]
  }

  /** A window whose first `n` bytes are non-zero and whose byte `n` is 0 holds the C string of those `n` bytes. */
  lemma {:induction false} CStringTerminated(s: seq<bv8>, n: nat)
    requires n < |s| && s[n] == 0
    requires forall i :: 0 <= i < n ==> s[i] != 0
    ensures CString(s) == s[..n]
  {
    if n > 0 {
      CStringTerminated(s[1..], n - 1);
      assert s[..n] == [s[0]] + s[1..][..n - 1];
    }
  }

  /** With the terminator, a string without 0 bytes that fits reads back as written. */
  lemma StringWrittenRoundTrip(window: seq<bv8>, value: seq<bv8>)
    requires |window| == StringSize
    requires |value| < StringSize
    requires forall i :: 0 <= i < |value| ==> value[i] != 0
    ensures CString(StringWritten(window, value)) == value
  {
    var r := StringWritten(window, value);
    assert r[..|value|] == value;
    CStringTerminated(r, |value|);
  }

  /**
   * Without the terminator a string reads back exactly when the old window
   * already had a 0 right after the copied bytes; any other byte there
   * lengthens the string that is read.
   */
  lemma StringWrittenAsIsReadsBack(window: seq<bv8>, value: seq<bv8>)
    requires |window| == StringSize
    requires |value| < StringSize
    requires forall i :: 0 <= i < |value| ==> value[i] != 0
    ensures CString(StringWrittenAsIs(window, value)) == value <==> window[|value|] == 0
  {
    var r := StringWrittenAsIs(window, value);
    assert r[..|value|] == value;
    assert r[|value|] == window[|value|];
    if window[|value|] == 0 {
      CStringTerminated(r, |value|);
    }
  }
}
