/** The AutoFon stream framer: the first byte of a message names its type,
    and each type has a fixed total length. The framer hands out a frame once
    all of its bytes are buffered and otherwise consumes nothing. */
module AutoFon {
  import opened Common
  import opened Buffers

  const MsgLogin: byte := 0x10
  const MsgLocation: byte := 0x11
  const MsgHistory: byte := 0x12

  /** Fewer readable bytes than this never yield a frame. */
  const MinimumLength: nat := 12

  /** Total frame length for a type byte; 0 marks a type that cannot be decoded. */
  function FrameLength(kind: byte): (n: nat)
    ensures n == 0 <==> kind !in {MsgLogin, MsgLocation, MsgHistory}
    ensures n != 0 ==> n >= MinimumLength
  {
    if kind == MsgLogin then 12
    else if kind == MsgLocation then 78
    else if kind == MsgHistory then 257
    else 0
  }

  /** What one call of the framer gives: a frame or nothing, and the bytes
      still readable afterwards. */
  datatype Framing = Framing(frame: Option<seq<byte>>, rest: seq<byte>)

  /** One call of the framer on the readable bytes. */
  function DecodeFrame(readable: seq<byte>): Framing
  {
    if |readable| < MinimumLength then Framing(None, readable)
    else
      var length := FrameLength(readable[0]);
      if length != 0 && |readable| >= length
      then Framing(Some(readable[..length]), readable[length..])
      else Framing(None, readable)
  }

  /** A complete frame: a known type byte followed by exactly the rest of its
      length. */
  predicate WellFormed(f: seq<byte>) {
    |f| > 0 && FrameLength(f[0]) == |f|
  }

  /** A frame comes out exactly when the type is known and its whole length is
      buffered; it is then the first `length` bytes and the remainder stays
      readable. Otherwise nothing is consumed. */
  lemma DecodeFrameSpec(readable: seq<byte>)
    ensures var r := DecodeFrame(readable);
      && (r.frame.Some? <==> |readable| > 0 && FrameLength(readable[0]) != 0
                             && |readable| >= FrameLength(readable[0]))
      && (r.frame.Some? ==> WellFormed(r.frame.value) && readable == r.frame.value + r.rest)
      && (r.frame.None? ==> r.rest == readable)
  {
    var r := DecodeFrame(readable);
    if r.frame.Some? {
      var length := FrameLength(readable[0]);
      assert readable == readable[..length] + readable[length..];
    }
  }

  /** An unknown type byte never yields a frame and never moves the buffer,
      however many bytes are buffered. */
  lemma UnknownTypeStalls(readable: seq<byte>)
    requires |readable| > 0 && readable[0] !in {MsgLogin, MsgLocation, MsgHistory}
    ensures DecodeFrame(readable) == Framing(None, readable)
  {
  }

  /** A call that gives nothing leaves the buffer as it was, so calling again
      on the same bytes gives the same answer. */
  lemma WaitingIsIdempotent(readable: seq<byte>)
    requires DecodeFrame(readable).frame.None?
    ensures DecodeFrame(DecodeFrame(readable).rest) == DecodeFrame(readable)
  {
  }

  /** More bytes arriving after a complete frame change neither the frame nor
      what follows it, apart from appending the new bytes. */
  lemma DecodeFrameExtends(readable: seq<byte>, more: seq<byte>)
    requires DecodeFrame(readable).frame.Some?
    ensures DecodeFrame(readable + more)
         == Framing(DecodeFrame(readable).frame, DecodeFrame(readable).rest + more)
  {
    var length := FrameLength(readable[0]);
    assert (readable + more)[..length] == readable[..length];
    assert (readable + more)[length..] == readable[length..] + more;
  }

  /** A frame split across two deliveries: the first part alone gives nothing
      and consumes nothing; once the second part (and possibly the start of
      the next message) arrives, the same whole frame comes out. */
  lemma SplitFrameReassembles(f: seq<byte>, cut: nat, next: seq<byte>)
    requires WellFormed(f) && cut < |f|
    ensures DecodeFrame(f[..cut]) == Framing(None, f[..cut])
    ensures DecodeFrame(f[..cut] + f[cut..] + next) == Framing(Some(f), next)
  {
    assert f[..cut] + f[cut..] + next == f + next;
    assert (f + next)[..|f|] == f;
    assert (f + next)[|f|..] == next;
  }

  /** A complete frame at the front of the buffer comes out whole, whatever
      follows it. */
  lemma FrameAtFront(f: seq<byte>, after: seq<byte>)
    requires WellFormed(f)
    ensures DecodeFrame(f + after) == Framing(Some(f), after)
  {
    assert (f + after)[..|f|] == f;
    assert (f + after)[|f|..] == after;
  }

  /** The frames handed out by repeated calls until one gives nothing, which
      is how the transport drives the framer each time bytes arrive. */
  function Drain(readable: seq<byte>): seq<seq<byte>>
    decreases |readable|
  {
    var r := DecodeFrame(readable);
    if r.frame.Some? then [r.frame.value] + Drain(r.rest) else []
  }

  function Concat(frames: seq<seq<byte>>): seq<byte> {
    if frames == [] then [] else frames[0] + Concat(frames[1..])
  }

  /** Back-to-back complete frames come out one by one, unchanged and in
      order, and an incomplete tail waits in the buffer. */
  lemma {:induction false} DrainRecoversFrames(frames: seq<seq<byte>>, tail: seq<byte>)
    requires forall i :: 0 <= i < |frames| ==> WellFormed(frames[i])
    ensures Drain(Concat(frames) + tail) == frames + Drain(tail)
  {
    if frames == [] {
      assert Concat(frames) + tail == tail;
    } else {
      var f, rest := frames[0], frames[1..];
      assert frames == [f] + rest;
      var after := Concat(rest) + tail;
      assert Concat(frames) + tail == f + after by {
        assert Concat(frames) == f + Concat(rest);
      }
      DrainRecoversFrames(rest, tail);
      DrainFrameAtFront(f, after);
      assert [f] + (rest + Drain(tail)) == frames + Drain(tail);
    }
  }

  /** Draining past a complete frame at the front. */
  lemma DrainFrameAtFront(f: seq<byte>, after: seq<byte>)
    requires WellFormed(f)
    ensures Drain(f + after) == [f] + Drain(after)
  {
    FrameAtFront(f, after);
  }

  /** `AutoFonFrameDecoder.decode`: on success the frame's bytes are removed
      from the buffer; otherwise the reader index does not move. */
  method Decode(buf: ChannelBuffer) returns (frame: Option<seq<byte>>)
    requires buf.Valid()
    modifies buf`readerIndex
    ensures buf.Valid()
    ensures frame == DecodeFrame(old(buf.data[buf.readerIndex..])).frame
    ensures buf.data[buf.readerIndex..] == DecodeFrame(old(buf.data[buf.readerIndex..])).rest
  {
    if buf.ReadableBytes() < MinimumLength {
      return None;
    }
    ghost var readable := buf.data[buf.readerIndex..];
    var kind := buf.GetUnsignedByte(buf.readerIndex);
    var length := FrameLength(kind.value);
    if length != 0 && buf.ReadableBytes() >= length {
      frame := buf.ReadBytes(length);
      assert readable[..length] == frame.value;
      assert readable[length..] == buf.data[buf.readerIndex..];
      return;
    }
    return None;
  }
}
