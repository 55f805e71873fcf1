/**
 * The byte cursor (`DataView`): a fixed buffer and a current offset.
 * Every access takes an optional explicit offset (`None` stands for the
 * omitted argument, meaning "the current offset") and leaves the cursor
 * just past the bytes it touched. Writes change the buffer in place.
 */
module Cursor {
  import opened Wrappers
  import opened Bytes

  class DataView {
    var buffer: array<Byte>
    var currentOffset: int

    constructor (buffer: array<Byte>)
      ensures this.buffer == buffer && currentOffset == 0
    {
      this.buffer := buffer;
      currentOffset := 0;
    }

    /** Where an access starts: the explicit offset, else the current one. */
    function Start(offset: Option<int>): int
      reads this
    {
      if offset.Some? then offset.value else currentOffset
    }

    /** `width` bytes from the start of the access lie inside the buffer. */
    predicate Fits(offset: Option<int>, width: nat)
      reads this
    {
      0 <= Start(offset) && Start(offset) + width <= buffer.Length
    }

    method Seek(offset: int)
      modifies this
      ensures buffer == old(buffer)
      ensures currentOffset == offset
    {
      currentOffset := offset;
    }

    method Tell() returns (offset: int)
      ensures offset == currentOffset
    {
      offset := currentOffset;
    }

    /** Moves the cursor `n` bytes on without touching them: `seek(tell() + n)`. */
    method Skip(n: int)
      modifies this
      ensures buffer == old(buffer)
      ensures currentOffset == old(currentOffset) + n
    {
      var here := Tell();
      Seek(here + n);
    }

    /** The unsigned big-endian read shared by the fixed-width readers. */
    method ReadUnsigned(offset: Option<int>, width: nat) returns (value: nat)
      requires Fits(offset, width)
      modifies this
      ensures buffer == old(buffer)
      ensures value == BigEndian(buffer[old(Start(offset))..old(Start(offset)) + width])
      ensures value < Pow256(width)
      ensures currentOffset == old(Start(offset)) + width
    {
      var o := Start(offset);
      value := BigEndian(buffer[o..o + width]);
      Seek(o + width);
    }

    method ReadUInt8(offset: Option<int>) returns (value: int)
      requires Fits(offset, 1)
      modifies this
      ensures buffer == old(buffer)
      ensures value == buffer[old(Start(offset))]
      ensures currentOffset == old(Start(offset)) + 1
    {
      var o := Start(offset);
      value := ReadUnsigned(offset, 1);
      assert buffer[o..o + 1] == [buffer[o]];
    }

    method ReadInt8(offset: Option<int>) returns (value: int)
      requires Fits(offset, 1)
      modifies this
      ensures buffer == old(buffer)
      ensures value == ToSigned(buffer[old(Start(offset))], 1)
      ensures -128 <= value < 128
      ensures currentOffset == old(Start(offset)) + 1
    {
      var u := ReadUInt8(offset);
      value := ToSigned(u, 1);
    }

    method ReadUInt16(offset: Option<int>) returns (value: int)
      requires Fits(offset, 2)
      modifies this
      ensures buffer == old(buffer)
      ensures value == UInt16At(buffer[..], old(Start(offset)))
      ensures currentOffset == old(Start(offset)) + 2
    {
      var o := Start(offset);
      value := ReadUnsigned(offset, 2);
      BigEndianTwo(buffer[o..o + 2]);
    }

    method ReadInt16(offset: Option<int>) returns (value: int)
      requires Fits(offset, 2)
      modifies this
      ensures buffer == old(buffer)
      ensures value == ToSigned(BigEndian(buffer[old(Start(offset))..old(Start(offset)) + 2]), 2)
      ensures -32768 <= value < 32768
      ensures currentOffset == old(Start(offset)) + 2
    {
      var u := ReadUnsigned(offset, 2);
      value := ToSigned(u, 2);
    }

    method ReadUInt32(offset: Option<int>) returns (value: int)
      requires Fits(offset, 4)
      modifies this
      ensures buffer == old(buffer)
      ensures value == UInt32At(buffer[..], old(Start(offset)))
      ensures currentOffset == old(Start(offset)) + 4
    {
      var o := Start(offset);
      value := ReadUnsigned(offset, 4);
      BigEndianFour(buffer[o..o + 4]);
    }

    method ReadInt32(offset: Option<int>) returns (value: int)
      requires Fits(offset, 4)
      modifies this
      ensures buffer == old(buffer)
      ensures value == ToSigned(BigEndian(buffer[old(Start(offset))..old(Start(offset)) + 4]), 4)
      ensures -2147483648 <= value < 2147483648
      ensures currentOffset == old(Start(offset)) + 4
    {
      var u := ReadUnsigned(offset, 4);
      value := ToSigned(u, 4);
    }

    /**
     * Reads `length` bytes as text. Like Node's `toString(start, end)` the
     * range is clipped to the buffer, so a short buffer yields short text,
     * but the cursor still moves to `offset + length`.
     */
    method ReadString(length: int, offset: Option<int>) returns (value: string)
      modifies this
      ensures buffer == old(buffer)
      ensures value == Chars(Clipped(buffer[..], old(Start(offset)), old(Start(offset)) + length))
      ensures currentOffset == old(Start(offset)) + length
    {
      var o := Start(offset);
      value := Chars(Clipped(buffer[..], o, o + length));
      Seek(o + length);
    }

    /** Overwrites `width` bytes with `value` big-endian, the shared part of the writers. */
    method WriteUnsigned(value: nat, offset: Option<int>, width: nat)
      requires Fits(offset, width) && value < Pow256(width)
      modifies this, buffer
      ensures buffer == old(buffer)
      ensures buffer[..] == Splice(old(buffer[..]), old(Start(offset)), ToBigEndian(value, width))
      ensures currentOffset == old(Start(offset)) + width
    {
      var o := Start(offset);
      WriteBytes(ToBigEndian(value, width), o);
      Seek(o + width);
    }

    /** Copies `bytes` into the buffer from `o` on. */
    method WriteBytes(bytes: seq<Byte>, o: nat)
      requires o + |bytes| <= buffer.Length
      modifies buffer
      ensures buffer[..] == Splice(old(buffer[..]), o, bytes)
    {
      forall i | 0 <= i < |bytes| {
        buffer[o + i] := bytes[i];
      }
      assert buffer[..] == Splice(old(buffer[..]), o, bytes);
    }

    method WriteUInt8(value: int, offset: Option<int>)
      requires Fits(offset, 1) && 0 <= value < 256
      modifies this, buffer
      ensures buffer == old(buffer)
      ensures buffer[..] == old(buffer[..])[old(Start(offset)) := value]
      ensures currentOffset == old(Start(offset)) + 1
    {
      WriteUnsigned(value, offset, 1);
      assert buffer[..] == old(buffer[..])[old(Start(offset)) := value];
    }

    method WriteUInt16(value: int, offset: Option<int>)
      requires Fits(offset, 2) && 0 <= value < 65536
      modifies this, buffer
      ensures buffer == old(buffer)
      ensures buffer[..] == Splice(old(buffer[..]), old(Start(offset)), ToBigEndian(value, 2))
      ensures currentOffset == old(Start(offset)) + 2
    {
      WriteUnsigned(value, offset, 2);
    }

    method WriteUInt32(value: int, offset: Option<int>)
      requires Fits(offset, 4) && 0 <= value < 4294967296
      modifies this, buffer
      ensures buffer == old(buffer)
      ensures buffer[..] == Splice(old(buffer[..]), old(Start(offset)), ToBigEndian(value, 4))
      ensures currentOffset == old(Start(offset)) + 4
    {
      WriteUnsigned(value, offset, 4);
    }

    method WriteInt8(value: int, offset: Option<int>)
      requires Fits(offset, 1) && -128 <= value < 128
      modifies this, buffer
      ensures buffer == old(buffer)
      ensures buffer[..] == Splice(old(buffer[..]), old(Start(offset)), ToBigEndian(FromSigned(value, 1), 1))
      ensures currentOffset == old(Start(offset)) + 1
    {
      WriteUnsigned(FromSigned(value, 1), offset, 1);
    }

    method WriteInt16(value: int, offset: Option<int>)
      requires Fits(offset, 2) && -32768 <= value < 32768
      modifies this, buffer
      ensures buffer == old(buffer)
      ensures buffer[..] == Splice(old(buffer[..]), old(Start(offset)), ToBigEndian(FromSigned(value, 2), 2))
      ensures currentOffset == old(Start(offset)) + 2
    {
      WriteUnsigned(FromSigned(value, 2), offset, 2);
    }

    method WriteInt32(value: int, offset: Option<int>)
      requires Fits(offset, 4) && -2147483648 <= value < 2147483648
      modifies this, buffer
      ensures buffer == old(buffer)
      ensures buffer[..] == Splice(old(buffer[..]), old(Start(offset)), ToBigEndian(FromSigned(value, 4), 4))
      ensures currentOffset == old(Start(offset)) + 4
    {
      WriteUnsigned(FromSigned(value, 4), offset, 4);
    }

    /**
     * Writes ASCII text byte for byte and moves the cursor on by its length
     * (Node's `write` counts bytes, the cursor counts characters: for ASCII
     * the two agree).
     */
    method WriteString(str: string, offset: Option<int>)
      requires Fits(offset, |str|) && IsAscii(str)
      modifies this, buffer
      ensures buffer == old(buffer)
      ensures buffer[..] == Splice(old(buffer[..]), old(Start(offset)), AsciiBytes(str))
      ensures currentOffset == old(Start(offset)) + |str|
    {
      var o := Start(offset);
      WriteBytes(AsciiBytes(str), o);
      Seek(o + |str|);
    }
  }

  /** The part of `s` between `start` and `end`, both clipped to `0..|s|`. */
  function Clipped(s: seq<Byte>, start: int, end: int): (r: seq<Byte>)
    ensures 0 <= start && end <= |s| && start <= end ==> r == s[start..end]
    ensures |r| <= |s|
  {
    var lo := if start < 0 then 0 else if start > |s| then |s| else start;
    var hi := if end < 0 then 0 else if end > |s| then |s| else end;
    if hi <= lo then [] else s[lo..hi]
  }

  /**
   * A fixed-width write followed by a read of the same width at the same
   * offset gives back the value written.
   */
  lemma WriteThenRead(s: seq<Byte>, o: nat, value: nat, width: nat)
    requires o + width <= |s| && value < Pow256(width)
    ensures BigEndian(Splice(s, o, ToBigEndian(value, width))[o..o + width]) == value
  {
    BigEndianOfToBigEndian(value, width);
  }

  /** A signed write followed by a signed read of the same width gives back the value written. */
  lemma WriteSignedThenRead(s: seq<Byte>, o: nat, value: int, width: nat)
    requires o + width <= |s| && 1 <= width && -(Pow256(width) / 2) <= value < Pow256(width) / 2
    ensures ToSigned(BigEndian(Splice(s, o, ToBigEndian(FromSigned(value, width), width))[o..o + width]), width) == value
  {
    WriteThenRead(s, o, FromSigned(value, width), width);
  }

  /** ASCII text written at `o` reads back as the same text from `o`. */
  lemma WriteStringThenRead(s: seq<Byte>, o: nat, str: string)
    requires o + |str| <= |s| && IsAscii(str)
    ensures Chars(Clipped(Splice(s, o, AsciiBytes(str)), o, o + |str|)) == str
  {
  }
}
