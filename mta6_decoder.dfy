/** The MTA6 HTTP request decoder: the body of a request is
    `id=<unique id>&bin=` followed by a five-byte packet header, padding up to
    the header's data offset, and the packet's records. A known device gets an
    HTTP `100 Continue` and an acknowledgement echoing the packet id and
    count before the records are parsed; only the position packet ids are
    parsed. */
module Mta6Decoder {
  import opened Common
  import opened Buffers
  import opened Positions
  import opened Mta6Layout
  import opened Mta6Parser

  /** "id=" in ASCII. */
  const IdPrefix: seq<byte> := [0x69, 0x64, 0x3d]
  /** "&bin=" in ASCII. */
  const BinPrefix: seq<byte> := [0x26, 0x62, 0x69, 0x6e, 0x3d]
  /** "#ACK#" in ASCII. */
  const AckPrefix: seq<byte> := [0x23, 0x41, 0x43, 0x4b, 0x23]
  const Ampersand: byte := 0x26

  /** The five header bytes after "&bin=": packet id, data offset, packet
      count, a reserved byte and the time zone. */
  const HeaderLength: nat := 5

  /** The packet ids that carry positions. */
  predicate IsPositionPacket(packetId: byte) {
    packetId == 0x31 || packetId == 0x32 || packetId == 0x36
  }

  /** What the decoder writes back on the channel. */
  datatype Response = Continue | Ok(content: seq<byte>)

  /** What `decode` gives back: an exception (a read past the end of the
      body), nothing, the single position of a simple packet or the list of a
      full one. */
  datatype Outcome = Failed | NoMessage | One(position: Position) | Many(positions: seq<Position>)

  datatype Reply = Reply(outcome: Outcome, writes: seq<Response>)

  /** The header as far as `decode` walks it: an unknown device, or a known
      one with the packet id and count and where the records start. */
  datatype Header = Unknown | Known(deviceId: int, packetId: byte, packetCount: byte, body: nat)

  /** `sendResponse`'s content: "#ACK#", then the packet id, the packet count
      and a zero byte. */
  function AckBody(packetId: byte, packetCount: byte): (r: seq<byte>)
    ensures |r| == |AckPrefix| + 3
    ensures r[..|AckPrefix|] == AckPrefix && r[|AckPrefix| + 2] == 0
  {
    AckPrefix + [packetId, packetCount, 0]
  }

  /** The reading a receiver makes of an acknowledgement. */
  function ParseAck(body: seq<byte>): Option<(byte, byte)> {
    if |body| == |AckPrefix| + 3 && body[..|AckPrefix|] == AckPrefix && body[|AckPrefix| + 2] == 0
    then Some((body[|AckPrefix|], body[|AckPrefix| + 1]))
    else None
  }

  /** The acknowledgement carries exactly the packet id and count, and
      nothing else parses as one. */
  lemma AckRoundTrip(packetId: byte, packetCount: byte, body: seq<byte>)
    ensures ParseAck(AckBody(packetId, packetCount)) == Some((packetId, packetCount))
    ensures ParseAck(body).Some? ==> body == AckBody(ParseAck(body).value.0, ParseAck(body).value.1)
  {
    if ParseAck(body).Some? {
      assert body == body[..|AckPrefix|] + body[|AckPrefix|..];
    }
  }

  /** The five header bytes at `p` and the skip past the padding that
      follows them: the packet id, the packet count and where the records
      start. The skip is `offset - 5` bytes and may move backwards. */
  function PacketHeader(d: seq<byte>, p: nat): (r: Option<(byte, byte, nat)>)
    ensures r.Some? ==> r.value.2 <= |d|
  {
    var packetId :- ReadU8(d, p);
    var offset :- ReadU8(d, packetId.next);
    var packetCount :- ReadU8(d, offset.next);
    var body :- PacketTail(d, packetCount.next, offset.value);
    Some((packetId.value, packetCount.value, body))
  }

  /** The reserved and time zone bytes, then the skip to the records. */
  function PacketTail(d: seq<byte>, p: nat, offset: byte): (r: Option<nat>)
    ensures r.Some? ==> r.value <= |d|
  {
    var reserved :- ReadU8(d, p);
    var timezone :- ReadU8(d, reserved.next);
    Skip(d, timezone.next, offset as int - HeaderLength)
  }

  /** The header walk of `decode` from reader index `p`; `None` is an
      exception. The unique id runs from after "id=" to the first '&'; a
      missing '&' makes the id's length negative, which throws. */
  function HeaderWalk(devices: map<seq<byte>, int>, d: seq<byte>, p: nat): (r: Option<Header>)
    ensures r.Some? && r.value.Known? ==> r.value.body <= |d|
  {
    var start :- Skip(d, p, |IdPrefix|);
    var index :- IndexOf(d, start, Ampersand);
    var uniqueId := d[start..index];
    if uniqueId !in devices then Some(Unknown)
    else
      var afterBin :- Skip(d, index, |BinPrefix|);
      var header :- PacketHeader(d, afterBin);
      Some(Known(devices[uniqueId], header.0, header.1, header.2))
  }

  /** `decode` on a request body. */
  function DecodeRequest(simple: bool, protocol: string, channel: bool, devices: map<seq<byte>, int>,
                         d: seq<byte>, p: nat): Reply
  {
    match HeaderWalk(devices, d, p)
    case None => Reply(Failed, [])
    case Some(Unknown) => Reply(NoMessage, [])
    case Some(Known(deviceId, packetId, packetCount, body)) =>
      var writes := if channel then [Continue, Ok(AckBody(packetId, packetCount))] else [];
      if !IsPositionPacket(packetId) then Reply(NoMessage, writes)
      else if simple then
        match RecordA1(deviceId, protocol, d, body)
        case None => Reply(Failed, writes)
        case Some(position) => Reply(One(position), writes)
      else Reply(Many(FormatA(deviceId, protocol, FreshReaders, d, body)), writes)
  }

  // ------------------------------------------------------------ properties

  /** An unknown device gets no response at all, and nothing is decoded. */
  lemma UnknownDeviceSilent(simple: bool, protocol: string, channel: bool, devices: map<seq<byte>, int>,
                            d: seq<byte>, p: nat)
    requires HeaderWalk(devices, d, p) == Some(Unknown)
    ensures DecodeRequest(simple, protocol, channel, devices, d, p) == Reply(NoMessage, [])
  {
  }

  /** Whatever the records hold, even when they fail to parse, a known device
      on a channel is sent `100 Continue` and then the acknowledgement of
      exactly its packet id and count, and nothing else; without a channel
      nothing is written. */
  lemma AckPrecedesParsing(simple: bool, protocol: string, channel: bool, devices: map<seq<byte>, int>,
                           d: seq<byte>, p: nat)
    requires HeaderWalk(devices, d, p).Some? && HeaderWalk(devices, d, p).value.Known?
    ensures var h := HeaderWalk(devices, d, p).value;
      var writes := DecodeRequest(simple, protocol, channel, devices, d, p).writes;
      && (channel ==> |writes| == 2 && writes[0] == Continue && writes[1].Ok?
                      && ParseAck(writes[1].content) == Some((h.packetId, h.packetCount)))
      && (!channel ==> writes == [])
  {
    var h := HeaderWalk(devices, d, p).value;
    AckRoundTrip(h.packetId, h.packetCount, []);
  }

  /** Only position packets are parsed; every other packet id gives nothing. */
  lemma PacketFilter(simple: bool, protocol: string, channel: bool, devices: map<seq<byte>, int>,
                     d: seq<byte>, p: nat)
    requires HeaderWalk(devices, d, p).Some? && HeaderWalk(devices, d, p).value.Known?
    ensures var outcome := DecodeRequest(simple, protocol, channel, devices, d, p).outcome;
      && (!IsPositionPacket(HeaderWalk(devices, d, p).value.packetId) <==> outcome == NoMessage)
      && (IsPositionPacket(HeaderWalk(devices, d, p).value.packetId) && !simple ==> outcome.Many?)
      && (IsPositionPacket(HeaderWalk(devices, d, p).value.packetId) && simple ==> outcome.One? || outcome.Failed?)
  {
  }

  /** A request body as a device builds it. */
  function Request(uniqueId: seq<byte>, packetId: byte, offset: byte, packetCount: byte,
                   reserved: byte, timezone: byte, padding: seq<byte>, records: seq<byte>): seq<byte>
  {
    IdPrefix + uniqueId + BinPrefix + [packetId, offset, packetCount, reserved, timezone] + padding + records
  }

  /** The first '&' after "id=" ends the unique id when the id holds none. */
  lemma FirstAmpersand(d: seq<byte>, uniqueId: seq<byte>)
    requires |d| > |IdPrefix| + |uniqueId| && d[|IdPrefix| + |uniqueId|] == Ampersand
    requires forall i :: 0 <= i < |uniqueId| ==> d[|IdPrefix| + i] == uniqueId[i] != Ampersand
    ensures IndexOf(d, |IdPrefix|, Ampersand) == Some(|IdPrefix| + |uniqueId|)
  {
    var k := |IdPrefix| + |uniqueId|;
    forall i | |IdPrefix| <= i < k
      ensures d[i] != Ampersand
    {
      assert d[|IdPrefix| + (i - |IdPrefix|)] == uniqueId[i - |IdPrefix|];
    }
    assert d[k] == Ampersand;
  }

  /** The header walk recovers what the device put in a request: the device
      bound to its unique id, the packet id and count, and the start of the
      records right after the padding. */
  lemma HeaderRoundTrip(devices: map<seq<byte>, int>, uniqueId: seq<byte>, packetId: byte,
                                           offset: byte, packetCount: byte, reserved: byte, timezone: byte,
                                           padding: seq<byte>, records: seq<byte>)
    requires uniqueId in devices && Ampersand !in uniqueId
    requires offset as int >= HeaderLength && |padding| == offset as int - HeaderLength
    ensures var d := Request(uniqueId, packetId, offset, packetCount, reserved, timezone, padding, records);
      HeaderWalk(devices, d, 0)
      == Some(Known(devices[uniqueId], packetId, packetCount, |d| - |records|))
  {
    var d := Request(uniqueId, packetId, offset, packetCount, reserved, timezone, padding, records);
    var afterBin := |IdPrefix| + |uniqueId| + |BinPrefix|;
    RequestLayout(uniqueId, packetId, offset, packetCount, reserved, timezone, padding, records);
    PacketHeaderAt(d, afterBin, packetId, offset, packetCount, reserved, timezone, |padding|);
    HeaderWalkKnown(devices, d, uniqueId, (packetId, packetCount, |d| - |records|));
  }

  /** Where the parts of a built request sit. */
  lemma RequestLayout(uniqueId: seq<byte>, packetId: byte, offset: byte, packetCount: byte,
                      reserved: byte, timezone: byte, padding: seq<byte>, records: seq<byte>)
    requires Ampersand !in uniqueId
    ensures var d := Request(uniqueId, packetId, offset, packetCount, reserved, timezone, padding, records);
      var index := |IdPrefix| + |uniqueId|;
      var afterBin := index + |BinPrefix|;
      && IndexOf(d, |IdPrefix|, Ampersand) == Some(index)
      && d[|IdPrefix|..index] == uniqueId
      && afterBin + HeaderLength + |padding| + |records| == |d|
      && d[afterBin] == packetId && d[afterBin + 1] == offset && d[afterBin + 2] == packetCount
  {
    var d := Request(uniqueId, packetId, offset, packetCount, reserved, timezone, padding, records);
    var front := IdPrefix + uniqueId;
    var tail := BinPrefix + [packetId, offset, packetCount, reserved, timezone] + padding + records;
    assert d == front + tail;
    var index := |front|;
    forall i | 0 <= i < |uniqueId|
      ensures d[|IdPrefix| + i] == uniqueId[i] != Ampersand
    {
      assert d[|IdPrefix| + i] == front[|IdPrefix| + i];
      assert uniqueId[i] in uniqueId;
    }
    assert d[index] == tail[0] == Ampersand;
    FirstAmpersand(d, uniqueId);
    assert d[|IdPrefix|..index] == uniqueId;
    var afterBin := index + |BinPrefix|;
    assert d[afterBin] == tail[5] == packetId;
    assert d[afterBin + 1] == tail[6] == offset;
    assert d[afterBin + 2] == tail[7] == packetCount;
  }

  /** The header walk over a request whose unique id and packet header have
      been located. */
  lemma HeaderWalkKnown(devices: map<seq<byte>, int>, d: seq<byte>, uniqueId: seq<byte>, header: (byte, byte, nat))
    requires uniqueId in devices
    requires IndexOf(d, |IdPrefix|, Ampersand) == Some(|IdPrefix| + |uniqueId|)
    requires d[|IdPrefix|..|IdPrefix| + |uniqueId|] == uniqueId
    requires PacketHeader(d, |IdPrefix| + |uniqueId| + |BinPrefix|) == Some(header)
    ensures HeaderWalk(devices, d, 0) == Some(Known(devices[uniqueId], header.0, header.1, header.2))
  {
    assert Skip(d, 0, |IdPrefix|) == Some(|IdPrefix|);
  }

  /** Five header bytes at `p` whose offset covers the padding that follows. */
  lemma PacketHeaderAt(d: seq<byte>, p: nat, packetId: byte, offset: byte, packetCount: byte,
                       reserved: byte, timezone: byte, padding: nat)
    requires p + HeaderLength + padding <= |d| && padding == offset as int - HeaderLength
    requires d[p] == packetId && d[p + 1] == offset && d[p + 2] == packetCount
    ensures PacketHeader(d, p) == Some((packetId, packetCount, p + HeaderLength + padding))
  {
    PacketTailAt(d, p + 3, offset, padding);
    PacketHeaderFront(d, p);
  }

  /** Three bytes in place, the header is theirs and the tail's. */
  lemma PacketHeaderFront(d: seq<byte>, p: nat)
    requires p + 3 <= |d| && PacketTail(d, p + 3, d[p + 1]).Some?
    ensures PacketHeader(d, p) == Some((d[p], d[p + 2], PacketTail(d, p + 3, d[p + 1]).value))
  {
    assert ReadU8(d, p) == Some(Step(d[p], p + 1));
    assert ReadU8(d, p + 1) == Some(Step(d[p + 1], p + 2));
    assert ReadU8(d, p + 2) == Some(Step(d[p + 2], p + 3));
  }

  /** The reserved and time zone bytes of a header in place, then a padding
      that fits, take the walk to the end of the padding. */
  lemma PacketTailAt(d: seq<byte>, p: nat, offset: byte, padding: nat)
    requires p + 2 + padding <= |d| && padding == offset as int - HeaderLength
    ensures PacketTail(d, p, offset) == Some(p + 2 + padding)
  {
    assert ReadU8(d, p) == Some(Step(d[p], p + 1));
    assert ReadU8(d, p + 1) == Some(Step(d[p + 1], p + 2));
  }

  /** A full (not simple) decoder on a channel answers a well-formed position
      request with the acknowledgement of its packet and the format A records
      that follow the padding. */
  lemma DecodeRoundTrip(protocol: string, devices: map<seq<byte>, int>, uniqueId: seq<byte>, packetId: byte,
                        offset: byte, packetCount: byte, reserved: byte, timezone: byte,
                        padding: seq<byte>, records: seq<byte>)
    requires uniqueId in devices && Ampersand !in uniqueId
    requires offset as int >= HeaderLength && |padding| == offset as int - HeaderLength
    requires IsPositionPacket(packetId)
    ensures var d := Request(uniqueId, packetId, offset, packetCount, reserved, timezone, padding, records);
      DecodeRequest(false, protocol, true, devices, d, 0)
      == Reply(Many(FormatA(devices[uniqueId], protocol, FreshReaders, d, |d| - |records|)),
               [Continue, Ok(AckPrefix + [packetId, packetCount, 0])])
  {
    HeaderRoundTrip(devices, uniqueId, packetId, offset, packetCount, reserved, timezone, padding, records);
  }

  // ----------------------------------------------------------- the decoder

  /** The decoder of one connection; `simple` selects format A1. */
  class Mta6ProtocolDecoder {
    const simple: bool
    const protocol: string

    constructor (protocol: string, simple: bool)
      ensures this.protocol == protocol && this.simple == simple
    {
      this.protocol := protocol;
      this.simple := simple;
    }

    /** The header walk on the request's buffer; for a known device the
        reader index is left at the records. */
    method ReadHeader(buf: ChannelBuffer, devices: map<seq<byte>, int>) returns (r: Option<Header>)
      requires buf.Valid()
      modifies buf`readerIndex
      ensures buf.Valid()
      ensures r == HeaderWalk(devices, buf.data, old(buf.readerIndex))
      ensures r.Some? && r.value.Known? ==> buf.readerIndex == r.value.body
    {
      var start :- buf.SkipBytes(|IdPrefix|);
      var index :- IndexOf(buf.data, buf.readerIndex, Ampersand);
      var uniqueId := buf.data[buf.readerIndex..index];
      if uniqueId !in devices {
        return Some(Unknown);
      }
      var afterId :- buf.SkipBytes(|uniqueId|);
      var afterBin :- buf.SkipBytes(|BinPrefix|);
      var header :- ReadPacketHeader(buf);
      return Some(Known(devices[uniqueId], header.0, header.1, header.2));
    }

    /** The five header bytes and the skip past the padding. */
    method ReadPacketHeader(buf: ChannelBuffer) returns (r: Option<(byte, byte, nat)>)
      requires buf.Valid()
      modifies buf`readerIndex
      ensures buf.Valid()
      ensures r == PacketHeader(buf.data, old(buf.readerIndex))
      ensures r.Some? ==> buf.readerIndex == r.value.2
    {
      var packetId :- buf.ReadUnsignedByte();
      var offset :- buf.ReadUnsignedByte();
      var packetCount :- buf.ReadUnsignedByte();
      var body :- ReadPacketTail(buf, offset);
      return Some((packetId, packetCount, body));
    }

    /** The reserved and time zone bytes, read and dropped, and the skip
        past the padding. */
    method ReadPacketTail(buf: ChannelBuffer, offset: byte) returns (r: Option<nat>)
      requires buf.Valid()
      modifies buf`readerIndex
      ensures buf.Valid()
      ensures r == PacketTail(buf.data, old(buf.readerIndex), offset)
      ensures r.Some? ==> buf.readerIndex == r.value
    {
      var reserved :- buf.ReadUnsignedByte();
      var timezone :- buf.ReadUnsignedByte();
      r := buf.SkipBytes(offset as int - HeaderLength);
    }

    /** `decode`: the header walk, the responses, then the records. */
    method Decode(buf: ChannelBuffer, channel: bool, devices: map<seq<byte>, int>) returns (reply: Reply)
      requires buf.Valid()
      modifies buf`readerIndex
      ensures buf.Valid()
      ensures reply == DecodeRequest(simple, protocol, channel, devices, buf.data, old(buf.readerIndex))
    {
      var header := ReadHeader(buf, devices);
      match header
      case None => return Reply(Failed, []);
      case Some(Unknown) => return Reply(NoMessage, []);
      case Some(Known(deviceId, packetId, packetCount, body)) =>
        var writes := [];
        if channel {
          writes := [Continue, Ok(AckBody(packetId, packetCount))];
        }
        if !IsPositionPacket(packetId) {
          return Reply(NoMessage, writes);
        }
        if simple {
          var position := ParseFormatA1(buf, deviceId, protocol);
          if position.None? {
            return Reply(Failed, writes);
          }
          return Reply(One(position.value), writes);
        }
        var positions := ParseFormatA(buf, deviceId, protocol);
        return Reply(Many(positions), writes);
    }
  }
}
