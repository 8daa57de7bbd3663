/** The byte buffer the decoders read from: a sequence of readable bytes with a
    reader index that every `read…` call advances and every `get…` call leaves
    alone. The functions state each typed big-endian read on a byte sequence
    and a start index; the class is the mutable buffer whose methods perform
    them. A read that would pass the end of the data fails (the buffer throws
    an index-out-of-bounds error) and then moves nothing. */
module Buffers {
  import opened Common

  /** The byte at `index`, without moving anything (`getUnsignedByte`). */
  function ByteAt(d: seq<byte>, index: nat): (r: Option<byte>)
    ensures r.Some? <==> index < |d|
  {
    if index < |d| then Some(d[index]) else None
  }

  /** `readUnsignedByte` */
  function ReadU8(d: seq<byte>, p: nat): (r: Option<Step<byte>>)
    ensures r.Some? <==> p + 1 <= |d|
    ensures r.Some? ==> r.value.next == p + 1
  {
    if p + 1 <= |d| then Some(Step(d[p], p + 1)) else None
  }

  /** Two's-complement value of one byte. */
  function Signed8(b: byte): (v: int)
    ensures -128 <= v < 128
    ensures v % 256 == b as int
  {
    if b < 0x80 then b as int else b as int - 256
  }

  /** `readByte`: one byte read as a signed value. */
  function ReadI8(d: seq<byte>, p: nat): (r: Option<Step<int>>)
    ensures r.Some? <==> p + 1 <= |d|
    ensures r.Some? ==> r.value.next == p + 1
  {
    if p + 1 <= |d| then Some(Step(Signed8(d[p]), p + 1)) else None
  }

  /** Two bytes, most significant first. */
  function BE16(hi: byte, lo: byte): bv16 {
    (hi as bv16 << 8) | lo as bv16
  }

  /** Three bytes, most significant first. */
  function BE24(b0: byte, b1: byte, b2: byte): bv24 {
    (b0 as bv24 << 16) | (b1 as bv24 << 8) | b2 as bv24
  }

  /** Four bytes, most significant first. */
  function BE32(b0: byte, b1: byte, b2: byte, b3: byte): bv32 {
    (b0 as bv32 << 24) | (b1 as bv32 << 16) | (b2 as bv32 << 8) | b3 as bv32
  }

  /** `readUnsignedShort`: two bytes, most significant first. */
  function ReadU16(d: seq<byte>, p: nat): (r: Option<Step<bv16>>)
    ensures r.Some? <==> p + 2 <= |d|
    ensures r.Some? ==> r.value.next == p + 2
  {
    if p + 2 <= |d| then Some(Step(BE16(d[p], d[p + 1]), p + 2)) else None
  }

  /** `readUnsignedMedium`: three bytes, most significant first. */
  function ReadU24(d: seq<byte>, p: nat): (r: Option<Step<bv24>>)
    ensures r.Some? <==> p + 3 <= |d|
    ensures r.Some? ==> r.value.next == p + 3
  {
    if p + 3 <= |d|
    then Some(Step(BE24(d[p], d[p + 1], d[p + 2]), p + 3))
    else None
  }

  /** `readInt` and `readUnsignedInt`: four bytes, most significant first,
      kept as their 32-bit pattern. */
  function ReadU32(d: seq<byte>, p: nat): (r: Option<Step<bv32>>)
    ensures r.Some? <==> p + 4 <= |d|
    ensures r.Some? ==> r.value.next == p + 4
  {
    if p + 4 <= |d|
    then Some(Step(BE32(d[p], d[p + 1], d[p + 2], d[p + 3]), p + 4))
    else None
  }

  /** `skipBytes(n)`: the reader index moves by `n`, which may be negative;
      an index past the end of the data (or before its start) is an error. */
  function Skip(d: seq<byte>, p: nat, n: int): (r: Option<nat>)
    ensures r.Some? <==> 0 <= p + n <= |d|
    ensures r.Some? ==> r.value == p + n
  {
    if 0 <= p + n <= |d| then Some(p + n) else None
  }

  /** `indexOf(from, writerIndex, b)`: the first index at or after `from`
      holding `b`, or nothing when no such byte is buffered. */
  function IndexOf(d: seq<byte>, from: nat, b: byte): (r: Option<nat>)
    decreases |d| - from
    ensures r.Some? ==> from <= r.value < |d| && d[r.value] == b
    ensures r.Some? ==> forall i :: from <= i < r.value ==> d[i] != b
    ensures r.None? ==> forall i :: from <= i < |d| ==> d[i] != b
  {
    if from >= |d| then None
    else if d[from] == b then Some(from)
    else IndexOf(d, from + 1, b)
  }

  /** A Netty channel buffer: `data` holds the bytes up to the writer index,
      `readerIndex` is where the next read starts. */
  class ChannelBuffer {
    var data: seq<byte>
    var readerIndex: nat

    ghost predicate Valid()
      reads this
    {
      readerIndex <= |data|
    }

    constructor (content: seq<byte>)
      ensures Valid()
      ensures data == content && readerIndex == 0
    {
      data := content;
      readerIndex := 0;
    }

    /** `readableBytes()` */
    function ReadableBytes(): (n: nat)
      reads this
      requires Valid()
      ensures readerIndex + n == |data|
    {
      |data| - readerIndex
    }

    /** `readable()`: at least one byte is left to read. */
    function Readable(): (b: bool)
      reads this
      requires Valid()
      ensures b <==> readerIndex < |data|
    {
      ReadableBytes() > 0
    }

    /** `getUnsignedByte(index)` */
    function GetUnsignedByte(index: nat): Option<byte>
      reads this
    {
      ByteAt(data, index)
    }

    method ReadUnsignedByte() returns (r: Option<byte>)
      requires Valid()
      modifies this`readerIndex
      ensures Valid()
      ensures r == ValueOf(ReadU8(data, old(readerIndex)))
      ensures readerIndex == NextOf(ReadU8(data, old(readerIndex)), old(readerIndex))
    {
      if readerIndex + 1 > |data| {
        return None;
      }
      r := Some(data[readerIndex]);
      readerIndex := readerIndex + 1;
    }

    method ReadByte() returns (r: Option<int>)
      requires Valid()
      modifies this`readerIndex
      ensures Valid()
      ensures r == ValueOf(ReadI8(data, old(readerIndex)))
      ensures readerIndex == NextOf(ReadI8(data, old(readerIndex)), old(readerIndex))
    {
      if readerIndex + 1 > |data| {
        return None;
      }
      r := Some(Signed8(data[readerIndex]));
      readerIndex := readerIndex + 1;
    }

    method ReadUnsignedShort() returns (r: Option<bv16>)
      requires Valid()
      modifies this`readerIndex
      ensures Valid()
      ensures r == ValueOf(ReadU16(data, old(readerIndex)))
      ensures readerIndex == NextOf(ReadU16(data, old(readerIndex)), old(readerIndex))
    {
      if readerIndex + 2 > |data| {
        return None;
      }
      var i := readerIndex;
      r := Some(BE16(data[i], data[i + 1]));
      readerIndex := i + 2;
    }

    method ReadUnsignedMedium() returns (r: Option<bv24>)
      requires Valid()
      modifies this`readerIndex
      ensures Valid()
      ensures r == ValueOf(ReadU24(data, old(readerIndex)))
      ensures readerIndex == NextOf(ReadU24(data, old(readerIndex)), old(readerIndex))
    {
      if readerIndex + 3 > |data| {
        return None;
      }
      var i := readerIndex;
      r := Some(BE24(data[i], data[i + 1], data[i + 2]));
      readerIndex := i + 3;
    }

    /** `readInt`, and `readUnsignedInt` too: the two differ only in how Java
        widens the same 32 bits. */
    method ReadInt() returns (r: Option<bv32>)
      requires Valid()
      modifies this`readerIndex
      ensures Valid()
      ensures r == ValueOf(ReadU32(data, old(readerIndex)))
      ensures readerIndex == NextOf(ReadU32(data, old(readerIndex)), old(readerIndex))
    {
      if readerIndex + 4 > |data| {
        return None;
      }
      var i := readerIndex;
      r := Some(BE32(data[i], data[i + 1], data[i + 2], data[i + 3]));
      readerIndex := i + 4;
    }

    /** `skipBytes(n)`; on success returns the new reader index. */
    method SkipBytes(n: int) returns (r: Option<nat>)
      requires Valid()
      modifies this`readerIndex
      ensures Valid()
      ensures r == Skip(data, old(readerIndex), n)
      ensures readerIndex == if r.Some? then r.value else old(readerIndex)
    {
      if readerIndex + n < 0 || readerIndex + n > |data| {
        return None;
      }
      readerIndex := readerIndex + n;
      r := Some(readerIndex);
    }

    /** `readBytes(n)`: the next `n` bytes, removed from the readable part. */
    method ReadBytes(n: nat) returns (r: Option<seq<byte>>)
      requires Valid()
      modifies this`readerIndex
      ensures Valid()
      ensures old(readerIndex) + n <= |data| ==>
                r == Some(data[old(readerIndex)..old(readerIndex) + n]) && readerIndex == old(readerIndex) + n
      ensures old(readerIndex) + n > |data| ==> r.None? && readerIndex == old(readerIndex)
    {
      if readerIndex + n > |data| {
        return None;
      }
      r := Some(data[readerIndex..readerIndex + n]);
      readerIndex := readerIndex + n;
    }
  }
}
