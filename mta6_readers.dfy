/** The two stateful scalar readers of the MTA6 binary layout.

    A delta float is a self-describing 32-bit pattern: the top two bits of
    its first byte give the mode. Mode 0 sends the whole word; modes 1, 2
    and 3 send one, two or three bytes that replace only the low 8, 16 or 24
    bits of the previous value, so a reader has to remember that value.

    A GPS time is a delta float holding the time of week, followed on the
    first read (while the remembered week is still 0) by a 16-bit GPS week
    number. */
module Mta6Readers {
  import opened Common
  import opened Buffers
  import opened Positions

  /** The mode carried by the top two bits of a value's first byte. */
  function ModeOf(lead: byte): byte {
    lead >> 6
  }

  /** Bytes taken by a value whose first byte is `lead`: 4, 1, 2 or 3 for
      mode 0, 1, 2 or 3. */
  function Width(lead: byte): (n: nat)
    ensures 1 <= n <= 4
    ensures n == 4 <==> ModeOf(lead) == 0
  {
    var m := ModeOf(lead);
    if m == 0 then 4 else if m == 1 then 1 else if m == 2 then 2 else 3
  }

  /** Mode 0: the whole word, shifted left by two (the top two bits fall
      out of the 32-bit pattern). */
  function Whole(word: bv32): (r: bv32)
    ensures r & 3 == 0
    ensures r >> 2 == word & 0x3fff_ffff
  {
    word << 2
  }

  /** Mode 1: six payload bits replace bits 2..7 of the previous pattern. */
  function Splice8(previous: bv32, b: byte): (r: bv32)
    ensures r & 0xffff_ff00 == previous & 0xffff_ff00
    ensures r & 0xff == (b as bv32 & 0x3f) << 2
  {
    var low := (b as bv32 & 0x3f) << 2;
    assert low < 0x100;
    (previous & 0xffff_ff00) + low
  }

  /** Mode 2: fourteen payload bits replace bits 2..15. */
  function Splice16(previous: bv32, w: bv16): (r: bv32)
    ensures r & 0xffff_0000 == previous & 0xffff_0000
    ensures r & 0xffff == (w as bv32 & 0x3fff) << 2
  {
    var low := (w as bv32 & 0x3fff) << 2;
    assert low < 0x1_0000;
    (previous & 0xffff_0000) + low
  }

  /** Mode 3: twenty-two payload bits replace bits 2..23. */
  function Splice24(previous: bv32, w: bv24): (r: bv32)
    ensures r & 0xff00_0000 == previous & 0xff00_0000
    ensures r & 0xff_ffff == (w as bv32 & 0x3f_ffff) << 2
  {
    var low := (w as bv32 & 0x3f_ffff) << 2;
    assert low < 0x100_0000;
    (previous & 0xff00_0000) + low
  }

  /** One delta-float read starting at `p`, given the previous pattern; its
      value is the new remembered pattern. The mode byte is peeked first and
      then read again as part of the value. */
  function FloatStep(previous: bv32, d: seq<byte>, p: nat): Option<Step<bv32>>
  {
    var lead :- ByteAt(d, p);
    var mode := ModeOf(lead);
    if mode == 0 then
      var w :- ReadU32(d, p);
      Some(Step(Whole(w.value), w.next))
    else if mode == 1 then
      var b :- ReadU8(d, p);
      Some(Step(Splice8(previous, b.value), b.next))
    else if mode == 2 then
      var w :- ReadU16(d, p);
      Some(Step(Splice16(previous, w.value), w.next))
    else
      var w :- ReadU24(d, p);
      Some(Step(Splice24(previous, w.value), w.next))
  }

  /** The low two bits of every pattern a mode produces are 0. */
  lemma LowBitsClear(previous: bv32, b: byte, w16: bv16, w24: bv24)
    ensures Splice8(previous, b) & 3 == 0
    ensures Splice16(previous, w16) & 3 == 0
    ensures Splice24(previous, w24) & 3 == 0
  {
    var r8 := Splice8(previous, b);
    assert r8 & 3 == (r8 & 0xff) & 3;
    var r16 := Splice16(previous, w16);
    assert r16 & 3 == (r16 & 0xffff) & 3;
    var r24 := Splice24(previous, w24);
    assert r24 & 3 == (r24 & 0xff_ffff) & 3;
  }

  /** What a delta-float read consumes: the mode is always one of 0 to 3
      (so the source's warning branch is never taken), it decides the width
      (4, 1, 2, 3 bytes), the read succeeds exactly when that many bytes are
      buffered, and the reader index then stands right after them. */
  lemma FloatStepWidth(previous: bv32, d: seq<byte>, p: nat)
    ensures p < |d| ==> ModeOf(d[p]) <= 3
    ensures var r := FloatStep(previous, d, p);
      && (r.Some? <==> p < |d| && p + Width(d[p]) <= |d|)
      && (r.Some? ==> r.value.next == p + Width(d[p]))
  {
  }

  /** The low two bits of every pattern a delta-float read produces are 0. */
  lemma FloatStepLowBits(previous: bv32, d: seq<byte>, p: nat)
    requires FloatStep(previous, d, p).Some?
    ensures FloatStep(previous, d, p).value.value & 3 == 0
  {
    var lead := d[p];
    if ModeOf(lead) == 1 {
      LowBitsClear(previous, lead, 0, 0);
    } else if ModeOf(lead) == 2 {
      LowBitsClear(previous, 0, BE16(d[p], d[p + 1]), 0);
    } else if ModeOf(lead) == 3 {
      LowBitsClear(previous, 0, 0, BE24(d[p], d[p + 1], d[p + 2]));
    }
  }

  /** A mode-0 value replaces the whole pattern: the previous one does not
      matter. */
  lemma FloatStepWholeWord(previous: bv32, other: bv32, d: seq<byte>, p: nat)
    requires p < |d| && ModeOf(d[p]) == 0
    ensures FloatStep(other, d, p) == FloatStep(previous, d, p)
  {
  }

  /** Mode 1 keeps the high 24 bits of the previous pattern. */
  lemma FloatStepKeeps24(previous: bv32, d: seq<byte>, p: nat)
    requires FloatStep(previous, d, p).Some? && ModeOf(d[p]) == 1
    ensures FloatStep(previous, d, p).value.value & 0xffff_ff00 == previous & 0xffff_ff00
  {
    assert FloatStep(previous, d, p).value.value == Splice8(previous, d[p]);
  }

  /** Mode 2 keeps the high 16 bits of the previous pattern. */
  lemma FloatStepKeeps16(previous: bv32, d: seq<byte>, p: nat)
    requires FloatStep(previous, d, p).Some? && ModeOf(d[p]) == 2
    ensures FloatStep(previous, d, p).value.value & 0xffff_0000 == previous & 0xffff_0000
  {
    assert FloatStep(previous, d, p).value.value == Splice16(previous, BE16(d[p], d[p + 1]));
  }

  /** Mode 3 keeps the high 8 bits of the previous pattern. */
  lemma FloatStepKeeps8(previous: bv32, d: seq<byte>, p: nat)
    requires FloatStep(previous, d, p).Some? && ModeOf(d[p]) == 3
    ensures FloatStep(previous, d, p).value.value & 0xff00_0000 == previous & 0xff00_0000
  {
    assert FloatStep(previous, d, p).value.value == Splice24(previous, BE24(d[p], d[p + 1], d[p + 2]));
  }

  /** The shortest encoding of the pattern `v` against the pattern the
      receiver remembers; only patterns with the low two bits clear can be
      sent. */
  function EncodeFloat(previous: bv32, v: bv32): (e: seq<byte>)
    requires v & 3 == 0
  {
    var payload := v >> 2;
    if v & 0xffff_ff00 == previous & 0xffff_ff00 then
      [0x40 | (payload & 0x3f) as byte]
    else if v & 0xffff_0000 == previous & 0xffff_0000 then
      [0x80 | ((payload >> 8) & 0x3f) as byte, (payload & 0xff) as byte]
    else if v & 0xff00_0000 == previous & 0xff00_0000 then
      [0xc0 | ((payload >> 16) & 0x3f) as byte, ((payload >> 8) & 0xff) as byte,
       (payload & 0xff) as byte]
    else
      [(payload >> 24) as byte, ((payload >> 16) & 0xff) as byte,
       ((payload >> 8) & 0xff) as byte, (payload & 0xff) as byte]
  }

  lemma Decode8(previous: bv32, v: bv32)
    requires v & 3 == 0 && v & 0xffff_ff00 == previous & 0xffff_ff00
    ensures ModeOf(0x40 | ((v >> 2) & 0x3f) as byte) == 1
    ensures Splice8(previous, 0x40 | ((v >> 2) & 0x3f) as byte) == v
  {
  }

  lemma Decode16(previous: bv32, v: bv32)
    requires v & 3 == 0 && v & 0xffff_0000 == previous & 0xffff_0000
    ensures ModeOf(0x80 | (((v >> 2) >> 8) & 0x3f) as byte) == 2
    ensures Splice16(previous, BE16(0x80 | (((v >> 2) >> 8) & 0x3f) as byte, ((v >> 2) & 0xff) as byte)) == v
  {
  }

  lemma Decode24(previous: bv32, v: bv32)
    requires v & 3 == 0 && v & 0xff00_0000 == previous & 0xff00_0000
    ensures ModeOf(0xc0 | (((v >> 2) >> 16) & 0x3f) as byte) == 3
    ensures Splice24(previous, BE24(0xc0 | (((v >> 2) >> 16) & 0x3f) as byte,
                                    (((v >> 2) >> 8) & 0xff) as byte, ((v >> 2) & 0xff) as byte)) == v
  {
  }

  lemma Decode32(v: bv32)
    requires v & 3 == 0
    ensures ModeOf(((v >> 2) >> 24) as byte) == 0
    ensures Whole(BE32(((v >> 2) >> 24) as byte, (((v >> 2) >> 16) & 0xff) as byte,
                       (((v >> 2) >> 8) & 0xff) as byte, ((v >> 2) & 0xff) as byte)) == v
  {
  }

  /** Delta-float round trip: a value encoded against the reader's previous
      pattern is read back exactly, whichever mode the encoder picked, and
      the read ends right after the encoding, whatever surrounds it. */
  lemma FloatRoundTrip(previous: bv32, v: bv32, before: seq<byte>, after: seq<byte>)
    requires v & 3 == 0
    ensures FloatStep(previous, before + EncodeFloat(previous, v) + after, |before|)
         == Some(Step(v, |before| + |EncodeFloat(previous, v)|))
  {
    var e := EncodeFloat(previous, v);
    var d := before + e + after;
    var p := |before|;
    assert d[p..p + |e|] == e;
    assert forall i :: 0 <= i < |e| ==> d[p + i] == e[i];
    if v & 0xffff_ff00 == previous & 0xffff_ff00 {
      Decode8(previous, v);
    } else if v & 0xffff_0000 == previous & 0xffff_0000 {
      Decode16(previous, v);
    } else if v & 0xff00_0000 == previous & 0xff00_0000 {
      Decode24(previous, v);
    } else {
      Decode32(v);
    }
  }

  /** Patterns a delta float can carry. */
  predicate Sendable(vs: seq<bv32>) {
    forall i :: 0 <= i < |vs| ==> vs[i] & 3 == 0
  }

  /** A run of patterns, each encoded against the one before it. */
  function EncodeFloats(previous: bv32, vs: seq<bv32>): seq<byte>
    requires Sendable(vs)
    decreases |vs|
  {
    if |vs| == 0 then []
    else EncodeFloat(previous, vs[0]) + EncodeFloats(vs[0], vs[1..])
  }

  /** `n` successive reads by one reader starting from `previous`. */
  function ReadFloats(previous: bv32, d: seq<byte>, p: nat, n: nat): Option<Step<seq<bv32>>>
    decreases n
  {
    if n == 0 then Some(Step([], p))
    else
      var f :- FloatStep(previous, d, p);
      var more :- ReadFloats(f.value, d, f.next, n - 1);
      Some(Step([f.value] + more.value, more.next))
  }

  /** A reader that is kept across values (as the latitude, longitude and
      time readers are kept across the records of one packet) reads back
      the whole run that a sender delta-encoded against it. */
  lemma {:induction false} FloatsRoundTrip(previous: bv32, vs: seq<bv32>, before: seq<byte>, after: seq<byte>)
    requires Sendable(vs)
    ensures ReadFloats(previous, before + EncodeFloats(previous, vs) + after, |before|, |vs|)
         == Some(Step(vs, |before| + |EncodeFloats(previous, vs)|))
    decreases |vs|
  {
    if |vs| > 0 {
      var e := EncodeFloat(previous, vs[0]);
      var tail := EncodeFloats(vs[0], vs[1..]);
      var d := before + EncodeFloats(previous, vs) + after;
      assert d == before + e + (tail + after);
      FloatRoundTrip(previous, vs[0], before, tail + after);
      var first := FloatStep(previous, d, |before|);
      assert first == Some(Step(vs[0], |before| + |e|));
      assert d == (before + e) + tail + after;
      FloatsRoundTrip(vs[0], vs[1..], before + e, after);
      var more := ReadFloats(vs[0], d, |before| + |e|, |vs| - 1);
      assert more == Some(Step(vs[1..], |before| + |e| + |tail|));
      assert ReadFloats(previous, d, |before|, |vs|) == Some(Step([vs[0]] + vs[1..], more.value.next));
      assert [vs[0]] + vs[1..] == vs;
    }
  }

  /** `FloatReader`: remembers the last pattern it read. */
  class FloatReader {
    var previousFloat: bv32

    constructor ()
      ensures previousFloat == 0
    {
      previousFloat := 0;
    }

    /** `readFloat`: on success the remembered pattern is the value read;
        when the buffer runs short the error leaves the pattern as it was. */
    method ReadFloat(buf: ChannelBuffer) returns (r: Option<bv32>)
      requires buf.Valid()
      modifies this, buf`readerIndex
      ensures buf.Valid()
      ensures r == ValueOf(FloatStep(old(previousFloat), buf.data, old(buf.readerIndex)))
      ensures buf.readerIndex == NextOf(FloatStep(old(previousFloat), buf.data, old(buf.readerIndex)),
                                        old(buf.readerIndex))
      ensures previousFloat == if r.Some? then r.value else old(previousFloat)
    {
      var lead :- buf.GetUnsignedByte(buf.readerIndex);
      var mode := ModeOf(lead);
      if mode == 0 {
        var word :- buf.ReadInt();
        previousFloat := Whole(word);
      } else if mode == 1 {
        var b := buf.ReadUnsignedByte();
        previousFloat := Splice8(previousFloat, b.value);
      } else if mode == 2 {
        var w :- buf.ReadUnsignedShort();
        previousFloat := Splice16(previousFloat, w);
      } else {
        var w :- buf.ReadUnsignedMedium();
        previousFloat := Splice24(previousFloat, w);
      }
      return Some(previousFloat);
    }
  }

  /** What a time reader remembers: the float pattern of its last time of
      week, and the GPS week (0 until one has been read). */
  datatype TimeState = TimeState(floatBits: bv32, week: nat)

  /** One GPS-time read: a delta float, then the 16-bit week if none is
      remembered yet. */
  function TimeStep(s: TimeState, d: seq<byte>, p: nat): Option<Step<TimeState>>
  {
    var f :- FloatStep(s.floatBits, d, p);
    if s.week == 0 then
      var w :- ReadU16(d, f.next);
      Some(Step(TimeState(f.value, w.value as nat), w.next))
    else
      Some(Step(TimeState(f.value, s.week), f.next))
  }

  /** The week field is read exactly when no week is remembered (the
      remembered week is 0): a remembered week is kept as it is, and a week
      that is read is remembered afterwards, even one that is 0. */
  lemma TimeStepWeek(s: TimeState, d: seq<byte>, p: nat)
    requires FloatStep(s.floatBits, d, p).Some?
    ensures var f := FloatStep(s.floatBits, d, p).value;
      && (s.week != 0 ==> TimeStep(s, d, p) == Some(Step(TimeState(f.value, s.week), f.next)))
      && (s.week == 0 ==> (TimeStep(s, d, p).Some? <==> f.next + 2 <= |d|))
      && (s.week == 0 && f.next + 2 <= |d| ==>
            TimeStep(s, d, p) == Some(Step(TimeState(f.value, BE16(d[f.next], d[f.next + 1]) as nat),
                                           f.next + 2)))
  {
  }

  /** `TimeReader`, which extends `FloatReader`: the float part is the
      `floatReader` it owns, and it adds the remembered week. */
  class TimeReader {
    const floatReader: FloatReader
    var weekNumber: nat

    constructor ()
      ensures fresh(floatReader)
      ensures floatReader.previousFloat == 0 && weekNumber == 0
    {
      floatReader := new FloatReader();
      weekNumber := 0;
    }

    function State(): TimeState
      reads this, floatReader
    {
      TimeState(floatReader.previousFloat, weekNumber)
    }

    /** `readTime`: the week and the float pattern of the time of week. */
    method ReadTime(buf: ChannelBuffer) returns (r: Option<Time>)
      requires buf.Valid()
      modifies this, floatReader, buf`readerIndex
      ensures buf.Valid()
      ensures var s := TimeStep(old(State()), buf.data, old(buf.readerIndex));
        && (s.Some? ==> r == Some(GpsWeek(s.value.value.week, s.value.value.floatBits))
                        && State() == s.value.value && buf.readerIndex == s.value.next)
        && (s.None? ==> r.None? && weekNumber == old(weekNumber))
      ensures var f := FloatStep(old(floatReader.previousFloat), buf.data, old(buf.readerIndex));
        && floatReader.previousFloat == (if f.Some? then f.value.value else old(floatReader.previousFloat))
        && (TimeStep(old(State()), buf.data, old(buf.readerIndex)).None? ==>
              buf.readerIndex == NextOf(f, old(buf.readerIndex)))
    {
      ghost var s0 := State();
      ghost var p0 := buf.readerIndex;
      var weekTime :- floatReader.ReadFloat(buf);
      ghost var p1 := buf.readerIndex;
      assert FloatStep(s0.floatBits, buf.data, p0) == Some(Step(weekTime, p1));
      if weekNumber == 0 {
        var w := buf.ReadUnsignedShort();
        if w.None? {
          assert TimeStep(s0, buf.data, p0).None?;
          return None;
        }
        weekNumber := w.value as nat;
        assert TimeStep(s0, buf.data, p0) == Some(Step(TimeState(weekTime, weekNumber), p1 + 2));
      } else {
        assert TimeStep(s0, buf.data, p0) == Some(Step(TimeState(weekTime, weekNumber), p1));
      }
      return Some(GpsWeek(weekNumber, weekTime));
    }
  }
}
