/**
 * A minimal big-endian byte stream: an immutable buffer and a read position.
 * It stands for the bStream memory and file streams the source reads from.
 * Reads past the end of the buffer are outside this model, so each read
 * requires the bytes it consumes to exist.
 */
module BStream {
  import opened Bits

  class Stream {
    const buffer: seq<bv8>
    var position: nat

    constructor (bytes: seq<bv8>, start: nat)
      ensures buffer == bytes && position == start
    {
      buffer := bytes;
      position := start;
    }

    /** The current read position (`tell`). */
    function Tell(): nat
      reads this
    {
      position
    }

    /** Moves the read position to an absolute offset (`seek`). */
    method Seek(p: nat)
      modifies this`position
      ensures position == p
    {
      position := p;
    }

    /** Reads one big-endian 32-bit word (`readUInt32`, `readInt32`, `readFloat`). */
    method ReadWord() returns (w: bv32)
      requires position + 4 <= |buffer|
      modifies this`position
      ensures w == WordAt(buffer, old(position))
      ensures position == old(position) + 4
    {
      w := WordAt(buffer, position);
      position := position + 4;
    }

    /** Reads one big-endian 16-bit value (`readUInt16`). */
    method ReadU16() returns (v: u16)
      requires position + 2 <= |buffer|
      modifies this`position
      ensures v == buffer[old(position)] as int * 256 + buffer[old(position) + 1] as int
      ensures position == old(position) + 2
    {
      v := buffer[position] as int * 256 + buffer[position + 1] as int;
      position := position + 2;
    }

    /** Reads one byte (`readUInt8`). */
    method ReadU8() returns (b: bv8)
      requires position + 1 <= |buffer|
      modifies this`position
      ensures b == buffer[old(position)]
      ensures position == old(position) + 1
    {
      b := buffer[position];
      position := position + 1;
    }

    /** Reads `n` raw bytes (`readString(n)`). */
    method ReadBytes(n: nat) returns (s: seq<bv8>)
      requires position + n <= |buffer|
      modifies this`position
      ensures s == buffer[old(position)..old(position) + n]
      ensures position == old(position) + n
    {
      s := buffer[position..position + n];
      position := position + n;
    }
  }
}
