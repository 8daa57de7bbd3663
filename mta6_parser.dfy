/** The MTA6 record parsers as they run: cursor reads on the request body,
    reader objects whose state carries over from record to record, a loop
    that skips the event chain and a loop that collects format A records
    until the body is exhausted or a read runs past its end. Each method is
    proved to compute what the matching function of `Mta6Layout` states. */
module Mta6Parser {
  import opened Common
  import opened Buffers
  import opened Positions
  import opened Mta6Readers
  import opened Mta6Layout

  /** The event-skip loop: reads the tag, then either skips 8 bytes or reads
      on while bit 7 of the last byte read is set. */
  method SkipEvents(buf: ChannelBuffer) returns (ok: bool)
    requires buf.Valid()
    modifies buf`readerIndex
    ensures buf.Valid()
    ensures ok <==> EventsEnd(buf.data, old(buf.readerIndex)).Some?
    ensures ok ==> buf.readerIndex == EventsEnd(buf.data, old(buf.readerIndex)).value
  {
    ghost var p0 := buf.readerIndex;
    var first := buf.ReadUnsignedByte();
    if first.None? {
      return false;
    }
    var event := first.value;
    if Bit(event, 7) {
      if Bit(event, 6) {
        var skipped := buf.SkipBytes(8);
        return skipped.Some?;
      } else {
        while Bit(event, 7)
          invariant buf.Valid() && p0 < buf.readerIndex
          invariant ChainEnd(buf.data, p0 + 1)
                 == if Bit(event, 7) then ChainEnd(buf.data, buf.readerIndex) else Some(buf.readerIndex)
          decreases |buf.data| - buf.readerIndex
        {
          var next := buf.ReadUnsignedByte();
          if next.None? {
            return false;
          }
          event := next.value;
        }
      }
    }
    return true;
  }

  // ------------------------------------------------------ format A groups

  method ReadStatusA(buf: ChannelBuffer, pos: Position) returns (r: Option<Position>)
    requires buf.Valid()
    modifies buf`readerIndex
    ensures buf.Valid()
    ensures r == ValueOf(StatusA(pos, buf.data, old(buf.readerIndex)))
    ensures r.Some? ==> buf.readerIndex == StatusA(pos, buf.data, old(buf.readerIndex)).value.next
  {
    var status :- buf.ReadUnsignedByte();
    return Some(pos);
  }

  method ReadAltitudeA(buf: ChannelBuffer, pos: Position) returns (r: Option<Position>)
    requires buf.Valid()
    modifies buf`readerIndex
    ensures buf.Valid()
    ensures r == ValueOf(AltitudeA(pos, buf.data, old(buf.readerIndex)))
    ensures r.Some? ==> buf.readerIndex == AltitudeA(pos, buf.data, old(buf.readerIndex)).value.next
  {
    var altitude :- buf.ReadUnsignedShort();
    return Some(pos.(altitude := Some(Int(altitude as int))));
  }

  method ReadMotionA(buf: ChannelBuffer, pos: Position) returns (r: Option<Position>)
    requires buf.Valid()
    modifies buf`readerIndex
    ensures buf.Valid()
    ensures r == ValueOf(MotionA(pos, buf.data, old(buf.readerIndex)))
    ensures r.Some? ==> buf.readerIndex == MotionA(pos, buf.data, old(buf.readerIndex)).value.next
  {
    var speed :- buf.ReadUnsignedShort();
    var course :- buf.ReadUnsignedByte();
    return Some(pos.(speed := Some(Int((speed & 0x3ff) as int)), course := Some(Int(course as int))));
  }

  method ReadOdometerA(buf: ChannelBuffer, pos: Position) returns (r: Option<Position>)
    requires buf.Valid()
    modifies buf`readerIndex
    ensures buf.Valid()
    ensures r == ValueOf(OdometerA(pos, buf.data, old(buf.readerIndex)))
    ensures r.Some? ==> buf.readerIndex == OdometerA(pos, buf.data, old(buf.readerIndex)).value.next
  {
    var odometer :- buf.ReadUnsignedShort();
    return Some(Set(pos, Odometer, Int(odometer as int)));
  }

  method ReadFuelA(buf: ChannelBuffer, pos: Position) returns (r: Option<Position>)
    requires buf.Valid()
    modifies buf`readerIndex
    ensures buf.Valid()
    ensures r == ValueOf(FuelA(pos, buf.data, old(buf.readerIndex)))
    ensures r.Some? ==> buf.readerIndex == FuelA(pos, buf.data, old(buf.readerIndex)).value.next
  {
    var first :- buf.ReadInt();
    var second :- buf.ReadInt();
    var hours1 :- buf.ReadUnsignedShort();
    var hours2 :- buf.ReadUnsignedShort();
    return Some(FuelFields(pos, first, second, hours1, hours2));
  }

  method ReadAnalogA(buf: ChannelBuffer, pos: Position) returns (r: Option<Position>)
    requires buf.Valid()
    modifies buf`readerIndex
    ensures buf.Valid()
    ensures r == ValueOf(AnalogA(pos, buf.data, old(buf.readerIndex)))
    ensures r.Some? ==> buf.readerIndex == AnalogA(pos, buf.data, old(buf.readerIndex)).value.next
  {
    var adc1 :- buf.ReadUnsignedShort();
    var adc2 :- buf.ReadUnsignedShort();
    var adc3 :- buf.ReadUnsignedShort();
    var adc4 :- buf.ReadUnsignedShort();
    return Some(AnalogFields(pos, adc1, adc2, adc3, adc4));
  }

  method ReadSensors(buf: ChannelBuffer, pos: Position) returns (r: Option<Position>)
    requires buf.Valid()
    modifies buf`readerIndex
    ensures buf.Valid()
    ensures r == ValueOf(Sensors(pos, buf.data, old(buf.readerIndex)))
    ensures r.Some? ==> buf.readerIndex == Sensors(pos, buf.data, old(buf.readerIndex)).value.next
  {
    var temperature :- buf.ReadByte();
    var control :- buf.GetUnsignedByte(buf.readerIndex);
    var input :- buf.ReadUnsignedShort();
    var previousInput :- buf.ReadUnsignedShort();
    return Some(Set(Set(pos, Temperature(1), Int(temperature)), Input, Int((input & 0xfff) as int)));
  }

  method ReadPowerA(buf: ChannelBuffer, pos: Position) returns (r: Option<Position>)
    requires buf.Valid()
    modifies buf`readerIndex
    ensures buf.Valid()
    ensures r == ValueOf(PowerA(pos, buf.data, old(buf.readerIndex)))
    ensures r.Some? ==> buf.readerIndex == PowerA(pos, buf.data, old(buf.readerIndex)).value.next
  {
    var battery :- buf.GetUnsignedByte(buf.readerIndex);
    var power :- buf.ReadUnsignedShort();
    var controllerTemperature :- buf.ReadByte();
    var gsm :- buf.GetUnsignedByte(buf.readerIndex);
    var count := buf.ReadUnsignedByte();
    return Some(PowerFields(pos, battery, power, gsm, count.value));
  }

  /** The group of flag bit `bit`. */
  method ReadGroupA(bit: nat, buf: ChannelBuffer, pos: Position) returns (r: Option<Position>)
    requires bit < 8 && buf.Valid()
    modifies buf`readerIndex
    ensures buf.Valid()
    ensures r == ValueOf(GroupA(bit, pos, buf.data, old(buf.readerIndex)))
    ensures r.Some? ==> buf.readerIndex == GroupA(bit, pos, buf.data, old(buf.readerIndex)).value.next
  {
    match bit
    case 0 => r := ReadStatusA(buf, pos);
    case 1 => r := ReadAltitudeA(buf, pos);
    case 2 => r := ReadMotionA(buf, pos);
    case 3 => r := ReadOdometerA(buf, pos);
    case 4 => r := ReadFuelA(buf, pos);
    case 5 => r := ReadAnalogA(buf, pos);
    case 6 => r := ReadSensors(buf, pos);
    case 7 => r := ReadPowerA(buf, pos);
  }

  /** The flag-gated groups of a format A record, in flag-bit order: bits
      0 to 3 here, then bits 4 to 7. */
  method ReadGroupsA(buf: ChannelBuffer, flags: byte, pos: Position) returns (r: Option<Position>)
    requires buf.Valid()
    modifies buf`readerIndex
    ensures buf.Valid()
    ensures r == ValueOf(GroupsA(flags, 0, pos, buf.data, old(buf.readerIndex)))
    ensures r.Some? ==> buf.readerIndex == GroupsA(flags, 0, pos, buf.data, old(buf.readerIndex)).value.next
  {
    ghost var d := buf.data;
    ghost var goal := GroupsA(flags, 0, pos, d, buf.readerIndex);
    var current := pos;
    GroupsAStep(flags, 0, current, d, buf.readerIndex);
    if Bit(flags, 0) {
      current :- ReadGroupA(0, buf, current);
    }
    assert goal == GroupsA(flags, 1, current, d, buf.readerIndex);
    GroupsAStep(flags, 1, current, d, buf.readerIndex);
    if Bit(flags, 1) {
      current :- ReadGroupA(1, buf, current);
    }
    assert goal == GroupsA(flags, 2, current, d, buf.readerIndex);
    GroupsAStep(flags, 2, current, d, buf.readerIndex);
    if Bit(flags, 2) {
      current :- ReadGroupA(2, buf, current);
    }
    assert goal == GroupsA(flags, 3, current, d, buf.readerIndex);
    GroupsAStep(flags, 3, current, d, buf.readerIndex);
    if Bit(flags, 3) {
      current :- ReadGroupA(3, buf, current);
    }
    assert goal == GroupsA(flags, 4, current, d, buf.readerIndex);
    r := ReadLaterGroupsA(buf, flags, current);
  }

  /** The groups of flag bits 4 to 7. */
  method ReadLaterGroupsA(buf: ChannelBuffer, flags: byte, pos: Position) returns (r: Option<Position>)
    requires buf.Valid()
    modifies buf`readerIndex
    ensures buf.Valid()
    ensures r == ValueOf(GroupsA(flags, 4, pos, buf.data, old(buf.readerIndex)))
    ensures r.Some? ==> buf.readerIndex == GroupsA(flags, 4, pos, buf.data, old(buf.readerIndex)).value.next
  {
    ghost var d := buf.data;
    ghost var goal := GroupsA(flags, 4, pos, d, buf.readerIndex);
    var current := pos;
    GroupsAStep(flags, 4, current, d, buf.readerIndex);
    if Bit(flags, 4) {
      current :- ReadGroupA(4, buf, current);
    }
    assert goal == GroupsA(flags, 5, current, d, buf.readerIndex);
    GroupsAStep(flags, 5, current, d, buf.readerIndex);
    if Bit(flags, 5) {
      current :- ReadGroupA(5, buf, current);
    }
    assert goal == GroupsA(flags, 6, current, d, buf.readerIndex);
    GroupsAStep(flags, 6, current, d, buf.readerIndex);
    if Bit(flags, 6) {
      current :- ReadGroupA(6, buf, current);
    }
    assert goal == GroupsA(flags, 7, current, d, buf.readerIndex);
    GroupsAStep(flags, 7, current, d, buf.readerIndex);
    if Bit(flags, 7) {
      current :- ReadGroupA(7, buf, current);
    }
    assert goal == GroupsA(flags, 8, current, d, buf.readerIndex);
    return Some(current);
  }

  // ----------------------------------------------------- format A records

  /** The head shared by both formats: the flags byte, the event chain, the
      two coordinates and the time, each read with the given readers, which
      keep their state for the next record. */
  method ParseHeadA(buf: ChannelBuffer, latitudeReader: FloatReader, longitudeReader: FloatReader,
                    timeReader: TimeReader, deviceId: int, protocol: string)
    returns (r: Option<(byte, Position)>)
    requires buf.Valid()
    requires latitudeReader != longitudeReader
    requires timeReader.floatReader != latitudeReader && timeReader.floatReader != longitudeReader
    modifies buf`readerIndex, latitudeReader, longitudeReader, timeReader, timeReader.floatReader
    ensures buf.Valid()
    ensures var s := HeadA(deviceId, protocol,
                           old(Readers(latitudeReader.previousFloat, longitudeReader.previousFloat, timeReader.State())),
                           buf.data, old(buf.readerIndex));
      && r == (if s.Some? then Some((s.value.value.0, s.value.value.1.position)) else None)
      && (s.Some? ==> buf.readerIndex == s.value.next
                      && Readers(latitudeReader.previousFloat, longitudeReader.previousFloat, timeReader.State())
                         == s.value.value.1.readers)
  {
    ghost var d := buf.data;
    ghost var p := buf.readerIndex;
    ghost var readers := Readers(latitudeReader.previousFloat, longitudeReader.previousFloat, timeReader.State());
    var flags :- buf.ReadUnsignedByte();
    var skipped := SkipEvents(buf);
    if !skipped {
      return None;
    }
    ghost var events := buf.readerIndex;
    var latitude :- latitudeReader.ReadFloat(buf);
    var longitude :- longitudeReader.ReadFloat(buf);
    var time :- timeReader.ReadTime(buf);
    var position := NewPosition(deviceId, protocol, time, Radians(latitude), Radians(longitude));
    ghost var after := Readers(latitudeReader.previousFloat, longitudeReader.previousFloat, timeReader.State());
    assert FixA(readers, d, events) == Some(Step(after, buf.readerIndex));
    assert HeadA(deviceId, protocol, readers, d, p)
        == Some(Step((flags, Record(position, after)), buf.readerIndex));
    return Some((flags, position));
  }

  /** One format A record: the head, then the groups its flags select. */
  method ParseRecordA(buf: ChannelBuffer, latitudeReader: FloatReader, longitudeReader: FloatReader,
                      timeReader: TimeReader, deviceId: int, protocol: string)
    returns (r: Option<Position>)
    requires buf.Valid()
    requires latitudeReader != longitudeReader
    requires timeReader.floatReader != latitudeReader && timeReader.floatReader != longitudeReader
    modifies buf`readerIndex, latitudeReader, longitudeReader, timeReader, timeReader.floatReader
    ensures buf.Valid()
    ensures var s := RecordA(deviceId, protocol,
                             old(Readers(latitudeReader.previousFloat, longitudeReader.previousFloat, timeReader.State())),
                             buf.data, old(buf.readerIndex));
      && r == (if s.Some? then Some(s.value.value.position) else None)
      && (s.Some? ==> buf.readerIndex == s.value.next
                      && Readers(latitudeReader.previousFloat, longitudeReader.previousFloat, timeReader.State())
                         == s.value.value.readers)
  {
    var head :- ParseHeadA(buf, latitudeReader, longitudeReader, timeReader, deviceId, protocol);
    r := ReadGroupsA(buf, head.0, head.1);
  }

  /** `parseFormatA`: records until the body is exhausted; a record that runs
      past the end stops the loop and only the records completed before it
      are returned. The readers are created once per packet. */
  method ParseFormatA(buf: ChannelBuffer, deviceId: int, protocol: string) returns (positions: seq<Position>)
    requires buf.Valid()
    modifies buf`readerIndex
    ensures buf.Valid()
    ensures positions == FormatA(deviceId, protocol, FreshReaders, buf.data, old(buf.readerIndex))
  {
    var latitudeReader := new FloatReader();
    var longitudeReader := new FloatReader();
    var timeReader := new TimeReader();
    positions := [];
    while buf.Readable()
      invariant buf.Valid()
      invariant positions + FormatA(deviceId, protocol,
                                    Readers(latitudeReader.previousFloat, longitudeReader.previousFloat, timeReader.State()),
                                    buf.data, buf.readerIndex)
             == FormatA(deviceId, protocol, FreshReaders, buf.data, old(buf.readerIndex))
      decreases |buf.data| - buf.readerIndex
    {
      ghost var readers := Readers(latitudeReader.previousFloat, longitudeReader.previousFloat, timeReader.State());
      ghost var p := buf.readerIndex;
      var position := ParseRecordA(buf, latitudeReader, longitudeReader, timeReader, deviceId, protocol);
      if position.None? {
        assert FormatA(deviceId, protocol, readers, buf.data, p) == [];
        break;
      }
      RecordAProgress(deviceId, protocol, readers, buf.data, p);
      positions := positions + [position.value];
    }
  }

  // ------------------------------------------------------ format A1 groups

  method ReadMotionA1(buf: ChannelBuffer, pos: Position) returns (r: Option<Position>)
    requires buf.Valid()
    modifies buf`readerIndex
    ensures buf.Valid()
    ensures r == ValueOf(MotionA1(pos, buf.data, old(buf.readerIndex)))
    ensures r.Some? ==> buf.readerIndex == MotionA1(pos, buf.data, old(buf.readerIndex)).value.next
  {
    var altitude :- buf.ReadUnsignedShort();
    var speed :- buf.ReadUnsignedByte();
    var course :- buf.ReadByte();
    var odometerReader := new FloatReader();
    var odometer :- odometerReader.ReadFloat(buf);
    return Some(Set(pos.(altitude := Some(Int(altitude as int)), speed := Some(Int(speed as int)),
                         course := Some(Int(course))), Odometer, FloatBits(odometer)));
  }

  method ReadEngineA1(buf: ChannelBuffer, pos: Position) returns (r: Option<Position>)
    requires buf.Valid()
    modifies buf`readerIndex
    ensures buf.Valid()
    ensures r == ValueOf(EngineA1(pos, buf.data, old(buf.readerIndex)))
    ensures r.Some? ==> buf.readerIndex == EngineA1(pos, buf.data, old(buf.readerIndex)).value.next
  {
    var consumptionReader := new FloatReader();
    var consumption :- consumptionReader.ReadFloat(buf);
    var hoursReader := new FloatReader();
    var hours :- hoursReader.ReadFloat(buf);
    var tank :- buf.ReadUnsignedByte();
    return Some(Set(Set(pos, Named("hours"), FloatBits(hours)), Named("tank"), Ratio(2 * tank as int, 5)));
  }

  method ReadCanA1(buf: ChannelBuffer, pos: Position) returns (r: Option<Position>)
    requires buf.Valid()
    modifies buf`readerIndex
    ensures buf.Valid()
    ensures r == ValueOf(CanA1(pos, buf.data, old(buf.readerIndex)))
    ensures r.Some? ==> buf.readerIndex == CanA1(pos, buf.data, old(buf.readerIndex)).value.next
  {
    var engine :- buf.ReadUnsignedShort();
    var pedals :- buf.ReadUnsignedByte();
    var temperature :- buf.ReadUnsignedByte();
    var service :- buf.ReadUnsignedShort();
    return Some(CanFieldsA1(pos, engine, pedals, temperature));
  }

  method ReadAnalogA1(buf: ChannelBuffer, pos: Position) returns (r: Option<Position>)
    requires buf.Valid()
    modifies buf`readerIndex
    ensures buf.Valid()
    ensures r == ValueOf(AnalogA1(pos, buf.data, old(buf.readerIndex)))
    ensures r.Some? ==> buf.readerIndex == AnalogA1(pos, buf.data, old(buf.readerIndex)).value.next
  {
    var fuel :- buf.ReadUnsignedShort();
    var adc2 :- buf.ReadUnsignedShort();
    var adc3 :- buf.ReadUnsignedShort();
    var adc4 :- buf.ReadUnsignedShort();
    return Some(AnalogFieldsA1(pos, fuel, adc2, adc3, adc4));
  }

  method ReadPowerA1(buf: ChannelBuffer, pos: Position) returns (r: Option<Position>)
    requires buf.Valid()
    modifies buf`readerIndex
    ensures buf.Valid()
    ensures r == ValueOf(PowerA1(pos, buf.data, old(buf.readerIndex)))
    ensures r.Some? ==> buf.readerIndex == PowerA1(pos, buf.data, old(buf.readerIndex)).value.next
  {
    var battery :- buf.GetUnsignedByte(buf.readerIndex);
    var power :- buf.ReadUnsignedShort();
    var controllerTemperature :- buf.ReadByte();
    var gsm :- buf.GetUnsignedByte(buf.readerIndex);
    var count := buf.ReadUnsignedByte();
    return Some(PowerFieldsA1(pos, battery, power, gsm, count.value));
  }

  /** The format A1 group of flag bit `bit`. */
  method ReadGroupA1(bit: nat, buf: ChannelBuffer, pos: Position) returns (r: Option<Position>)
    requires bit < 8 && buf.Valid()
    modifies buf`readerIndex
    ensures buf.Valid()
    ensures r == ValueOf(GroupA1(bit, pos, buf.data, old(buf.readerIndex)))
    ensures r.Some? ==> buf.readerIndex == GroupA1(bit, pos, buf.data, old(buf.readerIndex)).value.next
  {
    match bit
    case 0 => r := ReadMotionA1(buf, pos);
    case 1 => r := ReadEngineA1(buf, pos);
    case 2 => r := ReadCanA1(buf, pos);
    case 3 => r := ReadAnalogA1(buf, pos);
    case 4 => r := ReadSensors(buf, pos);
    case 5 => r := ReadPowerA1(buf, pos);
    case _ => r := Some(pos);
  }

  /** The flag-gated groups of a format A1 record (bits 0 to 5). */
  method ReadGroupsA1(buf: ChannelBuffer, flags: byte, pos: Position) returns (r: Option<Position>)
    requires buf.Valid()
    modifies buf`readerIndex
    ensures buf.Valid()
    ensures r == ValueOf(GroupsA1(flags, 0, pos, buf.data, old(buf.readerIndex)))
    ensures r.Some? ==> buf.readerIndex == GroupsA1(flags, 0, pos, buf.data, old(buf.readerIndex)).value.next
  {
    ghost var d := buf.data;
    ghost var goal := GroupsA1(flags, 0, pos, d, buf.readerIndex);
    var current := pos;
    GroupsA1Step(flags, 0, current, d, buf.readerIndex);
    if Bit(flags, 0) {
      current :- ReadGroupA1(0, buf, current);
    }
    assert goal == GroupsA1(flags, 1, current, d, buf.readerIndex);
    GroupsA1Step(flags, 1, current, d, buf.readerIndex);
    if Bit(flags, 1) {
      current :- ReadGroupA1(1, buf, current);
    }
    assert goal == GroupsA1(flags, 2, current, d, buf.readerIndex);
    GroupsA1Step(flags, 2, current, d, buf.readerIndex);
    if Bit(flags, 2) {
      current :- ReadGroupA1(2, buf, current);
    }
    assert goal == GroupsA1(flags, 3, current, d, buf.readerIndex);
    r := ReadLaterGroupsA1(buf, flags, current);
  }

  method ReadLaterGroupsA1(buf: ChannelBuffer, flags: byte, pos: Position) returns (r: Option<Position>)
    requires buf.Valid()
    modifies buf`readerIndex
    ensures buf.Valid()
    ensures r == ValueOf(GroupsA1(flags, 3, pos, buf.data, old(buf.readerIndex)))
    ensures r.Some? ==> buf.readerIndex == GroupsA1(flags, 3, pos, buf.data, old(buf.readerIndex)).value.next
  {
    ghost var d := buf.data;
    ghost var goal := GroupsA1(flags, 3, pos, d, buf.readerIndex);
    var current := pos;
    GroupsA1Step(flags, 3, current, d, buf.readerIndex);
    if Bit(flags, 3) {
      current :- ReadGroupA1(3, buf, current);
    }
    assert goal == GroupsA1(flags, 4, current, d, buf.readerIndex);
    GroupsA1Step(flags, 4, current, d, buf.readerIndex);
    if Bit(flags, 4) {
      current :- ReadGroupA1(4, buf, current);
    }
    assert goal == GroupsA1(flags, 5, current, d, buf.readerIndex);
    GroupsA1Step(flags, 5, current, d, buf.readerIndex);
    if Bit(flags, 5) {
      current :- ReadGroupA1(5, buf, current);
    }
    assert goal == GroupsA1(flags, 6, current, d, buf.readerIndex);
    GroupsA1Step(flags, 6, current, d, buf.readerIndex);
    GroupsA1Step(flags, 7, current, d, buf.readerIndex);
    return Some(current);
  }

  /** `parseFormatA1`: the single record of a simple packet, each float read
      by a reader of its own, and the status byte always present; a read
      past the end fails the whole packet. */
  method ParseFormatA1(buf: ChannelBuffer, deviceId: int, protocol: string) returns (r: Option<Position>)
    requires buf.Valid()
    modifies buf`readerIndex
    ensures buf.Valid()
    ensures r == RecordA1(deviceId, protocol, buf.data, old(buf.readerIndex))
  {
    var latitudeReader := new FloatReader();
    var longitudeReader := new FloatReader();
    var timeReader := new TimeReader();
    var head :- ParseHeadA(buf, latitudeReader, longitudeReader, timeReader, deviceId, protocol);
    var status :- buf.ReadUnsignedByte();
    r := ReadGroupsA1(buf, head.0, head.1);
  }
}
