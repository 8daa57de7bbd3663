/** The MTA6 record layout as functions of the body bytes and a start index.

    A record is a flags byte, an event tag (with its chain or skipped
    payload), the latitude and longitude delta floats, the GPS time, and
    then one fixed group of fields for every flag bit that is set. Format A
    packs records back to back and keeps the three readers from record to
    record; format A1 ("simple") holds one record, reads every float with a
    fresh reader and always carries a status byte before its groups.

    Every function here fails (gives `None`) exactly where the buffer would
    throw because a read runs past the end of the body. */
module Mta6Layout {
  import opened Common
  import opened Buffers
  import opened Positions
  import opened Mta6Readers
  import Strings

  // ---------------------------------------------------------------- events

  /** The end of a chained event tag: bytes are read up to and including
      the first one whose bit 7 is clear. */
  function ChainEnd(d: seq<byte>, p: nat): (r: Option<nat>)
    decreases |d| - p
    ensures r.Some? ==> p < r.value <= |d|
  {
    if p >= |d| then None
    else if Bit(d[p], 7) then ChainEnd(d, p + 1)
    else Some(p + 1)
  }

  /** Where the reader index stands once the event tag at `p` is skipped:
      a tag with bit 7 clear is a single byte; one with bits 7 and 6 set is
      followed by exactly 8 payload bytes; one with only bit 7 set starts a
      chain. */
  function EventsEnd(d: seq<byte>, p: nat): (r: Option<nat>)
    ensures r.Some? ==> p < r.value <= |d|
  {
    var e :- ReadU8(d, p);
    if !Bit(e.value, 7) then Some(e.next)
    else if Bit(e.value, 6) then Skip(d, e.next, 8)
    else ChainEnd(d, e.next)
  }

  /** A chain ends at `q` exactly when every byte before `q - 1` has bit 7
      set and the byte at `q - 1` has it clear; it runs out exactly when
      every remaining byte has bit 7 set. */
  lemma {:induction false} ChainEndMeaning(d: seq<byte>, p: nat, q: nat)
    ensures ChainEnd(d, p) == Some(q) <==>
              p < q <= |d| && !Bit(d[q - 1], 7) && forall i :: p <= i < q - 1 ==> Bit(d[i], 7)
    ensures ChainEnd(d, p).None? <==> forall i :: p <= i < |d| ==> Bit(d[i], 7)
    decreases |d| - p
  {
    if p < |d| {
      ChainEndMeaning(d, p + 1, q);
      if Bit(d[p], 7) {
        if !(forall i :: p + 1 <= i < |d| ==> Bit(d[i], 7)) {
          var i :| p + 1 <= i < |d| && !Bit(d[i], 7);
          assert !(forall j :: p <= j < |d| ==> Bit(d[j], 7)) by { assert !Bit(d[i], 7); }
        }
        if p < q <= |d| && !Bit(d[q - 1], 7) && forall i :: p <= i < q - 1 ==> Bit(d[i], 7) {
          assert q != p + 1;
        }
      } else {
        if q > p + 1 && q <= |d| && forall i :: p <= i < q - 1 ==> Bit(d[i], 7) {
          assert false;
        }
      }
    }
  }

  /** The three shapes of the event tag: bit 7 clear consumes only the tag,
      bits 7 and 6 consume the tag and 8 more bytes (and fail if fewer are
      there), bit 7 alone consumes the chain. */
  lemma EventsEndCases(d: seq<byte>, p: nat)
    requires p < |d|
    ensures !Bit(d[p], 7) ==> EventsEnd(d, p) == Some(p + 1)
    ensures Bit(d[p], 7) && Bit(d[p], 6) ==>
              EventsEnd(d, p) == (if p + 9 <= |d| then Some(p + 9) else None)
    ensures Bit(d[p], 7) && !Bit(d[p], 6) ==> EventsEnd(d, p) == ChainEnd(d, p + 1)
  {
  }

  // --------------------------------------------------------- reader state

  /** The state of the three readers of one format A packet. */
  datatype Readers = Readers(latitude: bv32, longitude: bv32, time: TimeState)

  /** Readers as `parseFormatA` creates them. */
  const FreshReaders := Readers(0, 0, TimeState(0, 0))

  // ---------------------------------------------------- format A groups

  /** Bit 0: the status byte, read and dropped. */
  function StatusA(pos: Position, d: seq<byte>, p: nat): Option<Step<Position>> {
    var status :- ReadU8(d, p);
    Some(Step(pos, status.next))
  }

  /** Bit 1: altitude. */
  function AltitudeA(pos: Position, d: seq<byte>, p: nat): Option<Step<Position>> {
    var altitude :- ReadU16(d, p);
    Some(Step(pos.(altitude := Some(Int(altitude.value as int))), altitude.next))
  }

  /** Bit 2: speed (low 10 bits) and course. */
  function MotionA(pos: Position, d: seq<byte>, p: nat): Option<Step<Position>> {
    var speed :- ReadU16(d, p);
    var course :- ReadU8(d, speed.next);
    Some(Step(pos.(speed := Some(Int((speed.value & 0x3ff) as int)),
                   course := Some(Int(course.value as int))), course.next))
  }

  /** Bit 3: odometer. */
  function OdometerA(pos: Position, d: seq<byte>, p: nat): Option<Step<Position>> {
    var odometer :- ReadU16(d, p);
    Some(Step(Set(pos, Odometer, Int(odometer.value as int)), odometer.next))
  }

  /** Bit 4: the two fuel counters written as "a|b", and two hour meters. */
  function FuelA(pos: Position, d: seq<byte>, p: nat): Option<Step<Position>> {
    var first :- ReadU32(d, p);
    var second :- ReadU32(d, first.next);
    var hours1 :- ReadU16(d, second.next);
    var hours2 :- ReadU16(d, hours1.next);
    Some(Step(FuelFields(pos, first.value, second.value, hours1.value, hours2.value), hours2.next))
  }

  function FuelFields(pos: Position, first: bv32, second: bv32, hours1: bv16, hours2: bv16): Position {
    var fuel := Strings.NatText(first as nat, 10) + "|" + Strings.NatText(second as nat, 10);
    Set(Set(Set(pos, Fuel, Text(fuel)), Named("hours1"), Int(hours1 as int)), Named("hours2"), Int(hours2 as int))
  }

  /** Bit 5: four analog inputs, low 10 bits each. */
  function AnalogA(pos: Position, d: seq<byte>, p: nat): Option<Step<Position>> {
    var adc1 :- ReadU16(d, p);
    var adc2 :- ReadU16(d, adc1.next);
    var adc3 :- ReadU16(d, adc2.next);
    var adc4 :- ReadU16(d, adc3.next);
    Some(Step(AnalogFields(pos, adc1.value, adc2.value, adc3.value, adc4.value), adc4.next))
  }

  function AnalogFields(pos: Position, adc1: bv16, adc2: bv16, adc3: bv16, adc4: bv16): Position {
    Set(Set(Set(Set(pos, Adc(1), Int((adc1 & 0x3ff) as int)), Adc(2), Int((adc2 & 0x3ff) as int)),
            Adc(3), Int((adc3 & 0x3ff) as int)), Adc(4), Int((adc4 & 0x3ff) as int))
  }

  /** Bit 6 of format A, bit 4 of format A1: a signed temperature, a peek at
      the control byte, the digital inputs (low 12 bits), and the previous
      input state, read and dropped. */
  function Sensors(pos: Position, d: seq<byte>, p: nat): Option<Step<Position>> {
    var temperature :- ReadI8(d, p);
    var control :- ByteAt(d, temperature.next);
    var input :- ReadU16(d, temperature.next);
    var previousInput :- ReadU16(d, input.next);
    Some(Step(Set(Set(pos, Temperature(1), Int(temperature.value)), Input, Int((input.value & 0xfff) as int)),
              previousInput.next))
  }

  /** Bit 7: battery from a peek at the next byte, external power (low 10
      bits of the same two bytes), the controller temperature (dropped),
      and one byte holding the GSM level (bits 4..6, peeked) and the
      satellite count (low 4 bits); the fix is valid with 3 or more
      satellites. */
  function PowerA(pos: Position, d: seq<byte>, p: nat): Option<Step<Position>> {
    var battery :- ByteAt(d, p);
    var power :- ReadU16(d, p);
    var controllerTemperature :- ReadI8(d, power.next);
    var gsm :- ByteAt(d, controllerTemperature.next);
    var count :- ReadU8(d, controllerTemperature.next);
    Some(Step(PowerFields(pos, battery, power.value, gsm, count.value), count.next))
  }

  /** The fields set by the format A power group from its first byte, its
      first two bytes, and (peeked, then read) its last byte. */
  function PowerFields(pos: Position, battery: byte, power: bv16, gsm: byte, count: byte): Position {
    var satellites := (count & 0x0f) as int;
    var withPower := Set(Set(pos, Battery, Int((battery >> 2) as int)), Power, Int((power & 0x3ff) as int));
    var withGsm := Set(withPower, Gsm, Int(((gsm >> 4) & 0x07) as int));
    Set(withGsm.(valid := satellites >= 3), Satellites, Int(satellites))
  }

  /** The group gated by flag bit `bit` of a format A record. */
  function GroupA(bit: nat, pos: Position, d: seq<byte>, p: nat): Option<Step<Position>>
    requires bit < 8
  {
    match bit
    case 0 => StatusA(pos, d, p)
    case 1 => AltitudeA(pos, d, p)
    case 2 => MotionA(pos, d, p)
    case 3 => OdometerA(pos, d, p)
    case 4 => FuelA(pos, d, p)
    case 5 => AnalogA(pos, d, p)
    case 6 => Sensors(pos, d, p)
    case 7 => PowerA(pos, d, p)
  }

  /** Bytes taken by the format A group of flag bit `bit`. */
  function SizeA(bit: nat): nat
    requires bit < 8
  {
    [1, 2, 3, 2, 12, 8, 5, 4][bit]
  }

  /** Every format A group takes a fixed number of bytes: it succeeds exactly
      when they are all there (its peeks look only at bytes it then reads),
      and it ends right after them. */
  lemma GroupAWidth(bit: nat, pos: Position, d: seq<byte>, p: nat)
    requires bit < 8
    ensures GroupA(bit, pos, d, p).Some? <==> p + SizeA(bit) <= |d|
    ensures GroupA(bit, pos, d, p).Some? ==> GroupA(bit, pos, d, p).value.next == p + SizeA(bit)
  {
  }

  /** The groups of flag bits `from` to 7, in order. */
  function GroupsA(flags: byte, from: nat, pos: Position, d: seq<byte>, p: nat): Option<Step<Position>>
    requires from <= 8
    decreases 8 - from
  {
    if from == 8 then Some(Step(pos, p))
    else if Bit(flags, from) then
      var g :- GroupA(from, pos, d, p);
      GroupsA(flags, from + 1, g.value, d, g.next)
    else GroupsA(flags, from + 1, pos, d, p)
  }

  /** One step of `GroupsA`: a clear bit reads nothing, a set bit reads its
      group, and a group that runs past the end fails the whole record. */
  lemma GroupsAStep(flags: byte, k: nat, pos: Position, d: seq<byte>, p: nat)
    requires k < 8
    ensures !Bit(flags, k) ==> GroupsA(flags, k, pos, d, p) == GroupsA(flags, k + 1, pos, d, p)
    ensures Bit(flags, k) && GroupA(k, pos, d, p).None? ==> GroupsA(flags, k, pos, d, p).None?
    ensures Bit(flags, k) && GroupA(k, pos, d, p).Some? ==>
              GroupsA(flags, k, pos, d, p)
              == GroupsA(flags, k + 1, GroupA(k, pos, d, p).value.value, d, GroupA(k, pos, d, p).value.next)
  {
  }

  /** Bytes taken by the groups of flag bits `from` to 7 that are set. */
  function FlagBytesA(flags: byte, from: nat): nat
    requires from <= 8
    decreases 8 - from
  {
    if from == 8 then 0
    else (if Bit(flags, from) then SizeA(from) else 0) + FlagBytesA(flags, from + 1)
  }

  /** The flag groups of a record take the sum of the sizes of the set bits:
      they succeed exactly when that many bytes are there, and end right
      after them. */
  lemma {:induction false} GroupsAWidth(flags: byte, from: nat, pos: Position, d: seq<byte>, p: nat)
    requires from <= 8 && p <= |d|
    ensures GroupsA(flags, from, pos, d, p).Some? <==> p + FlagBytesA(flags, from) <= |d|
    ensures GroupsA(flags, from, pos, d, p).Some? ==>
              GroupsA(flags, from, pos, d, p).value.next == p + FlagBytesA(flags, from)
    decreases 8 - from
  {
    if from < 8 {
      if Bit(flags, from) {
        assert FlagBytesA(flags, from) == SizeA(from) + FlagBytesA(flags, from + 1);
        GroupAWidth(from, pos, d, p);
        var g := GroupA(from, pos, d, p);
        if g.Some? {
          assert GroupsA(flags, from, pos, d, p) == GroupsA(flags, from + 1, g.value.value, d, g.value.next);
          GroupsAWidth(flags, from + 1, g.value.value, d, g.value.next);
        } else {
          assert GroupsA(flags, from, pos, d, p).None?;
        }
      } else {
        assert FlagBytesA(flags, from) == FlagBytesA(flags, from + 1);
        assert GroupsA(flags, from, pos, d, p) == GroupsA(flags, from + 1, pos, d, p);
        GroupsAWidth(flags, from + 1, pos, d, p);
      }
    }
  }

  /** A record whose flags are all clear carries no group at all, in
      either format. */
  lemma {:induction false} NoFlagsNoGroups(from: nat, pos: Position, d: seq<byte>, p: nat)
    requires from <= 8
    ensures GroupsA(0, from, pos, d, p) == Some(Step(pos, p))
    ensures GroupsA1(0, from, pos, d, p) == Some(Step(pos, p))
    decreases 8 - from
  {
    if from < 8 {
      assert !Bit(0, from);
      NoFlagsNoGroups(from + 1, pos, d, p);
    }
  }

  // ------------------------------------------------------ format A records

  /** What one record yields: its position and the readers' new state. */
  datatype Record = Record(position: Position, readers: Readers)

  /** The latitude, longitude and time of a record at `p`, read with the
      readers' state; the value is the readers' new state. */
  function FixA(readers: Readers, d: seq<byte>, p: nat): Option<Step<Readers>> {
    var latitude :- FloatStep(readers.latitude, d, p);
    var longitude :- FloatStep(readers.longitude, d, latitude.next);
    var time :- TimeStep(readers.time, d, longitude.next);
    Some(Step(Readers(latitude.value, longitude.value, time.value), time.next))
  }

  /** The fixed head of a record: flags, event tag, latitude, longitude and
      time, giving the flags, a position carrying the coordinates and time,
      and the readers' new state. */
  function HeadA(deviceId: int, protocol: string, readers: Readers, d: seq<byte>, p: nat)
    : (r: Option<Step<(byte, Record)>>)
  {
    var flags :- ReadU8(d, p);
    var events :- EventsEnd(d, flags.next);
    var fix :- FixA(readers, d, events);
    var pos := NewPosition(deviceId, protocol, GpsWeek(fix.value.time.week, fix.value.time.floatBits),
                           Radians(fix.value.latitude), Radians(fix.value.longitude));
    Some(Step((flags.value, Record(pos, fix.value)), fix.next))
  }

  /** One format A record at `p`. */
  function RecordA(deviceId: int, protocol: string, readers: Readers, d: seq<byte>, p: nat)
    : Option<Step<Record>>
  {
    var head :- HeadA(deviceId, protocol, readers, d, p);
    var (flags, record) := head.value;
    var groups :- GroupsA(flags, 0, record.position, d, head.next);
    Some(Step(Record(groups.value, record.readers), groups.next))
  }

  /** The coordinates and time take at least one byte each. */
  lemma FixAProgress(readers: Readers, d: seq<byte>, p: nat)
    ensures FixA(readers, d, p).Some? ==> p + 3 <= FixA(readers, d, p).value.next <= |d|
  {
    var latitude := FloatStep(readers.latitude, d, p);
    FloatStepWidth(readers.latitude, d, p);
    if latitude.Some? {
      var longitude := FloatStep(readers.longitude, d, latitude.value.next);
      FloatStepWidth(readers.longitude, d, latitude.value.next);
      if longitude.Some? {
        FloatStepWidth(readers.time.floatBits, d, longitude.value.next);
        if FloatStep(readers.time.floatBits, d, longitude.value.next).Some? {
          TimeStepWeek(readers.time, d, longitude.value.next);
        }
      }
    }
  }

  /** The head of a record takes at least five bytes: flags, event tag, and
      at least one byte for each of latitude, longitude and time. */
  lemma HeadAProgress(deviceId: int, protocol: string, readers: Readers, d: seq<byte>, p: nat)
    ensures HeadA(deviceId, protocol, readers, d, p).Some? ==>
              p + 5 <= HeadA(deviceId, protocol, readers, d, p).value.next <= |d|
  {
    var head := HeadA(deviceId, protocol, readers, d, p);
    if head.Some? {
      var events := EventsEnd(d, p + 1).value;
      FixAProgress(readers, d, events);
    }
  }

  /** A record takes at least five bytes and ends within the body. */
  lemma RecordAProgress(deviceId: int, protocol: string, readers: Readers, d: seq<byte>, p: nat)
    ensures RecordA(deviceId, protocol, readers, d, p).Some? ==>
              p + 5 <= RecordA(deviceId, protocol, readers, d, p).value.next <= |d|
  {
    var head := HeadA(deviceId, protocol, readers, d, p);
    if head.Some? {
      HeadAProgress(deviceId, protocol, readers, d, p);
      var (flags, record) := head.value.value;
      GroupsAWidth(flags, 0, record.position, d, head.value.next);
    }
  }

  /** `parseFormatA`: records until the body is exhausted; a record that
      runs past the end stops the loop, and only the records completed
      before it are kept. */
  function FormatA(deviceId: int, protocol: string, readers: Readers, d: seq<byte>, p: nat): seq<Position>
    decreases |d| - p
  {
    if p >= |d| then []
    else
      match RecordA(deviceId, protocol, readers, d, p)
      case None => []
      case Some(s) =>
        RecordAProgress(deviceId, protocol, readers, d, p);
        [s.value.position] + FormatA(deviceId, protocol, s.value.readers, d, s.next)
  }

  // ------------------------------------------------------- one GPS week

  /** No flag group touches a position's time. */
  lemma {:induction false} GroupsAKeepTime(flags: byte, from: nat, pos: Position, d: seq<byte>, p: nat)
    requires from <= 8
    ensures GroupsA(flags, from, pos, d, p).Some? ==> GroupsA(flags, from, pos, d, p).value.value.time == pos.time
    decreases 8 - from
  {
    if from < 8 {
      GroupsAStep(flags, from, pos, d, p);
      if !Bit(flags, from) {
        GroupsAKeepTime(flags, from + 1, pos, d, p);
      } else if GroupA(from, pos, d, p).Some? {
        var g := GroupA(from, pos, d, p).value;
        GroupsAKeepTime(flags, from + 1, g.value, d, g.next);
        GroupAKeepsTime(from, pos, d, p);
      }
    }
  }

  /** No format A group touches the time. */
  lemma GroupAKeepsTime(bit: nat, pos: Position, d: seq<byte>, p: nat)
    requires bit < 8
    ensures GroupA(bit, pos, d, p).Some? ==> GroupA(bit, pos, d, p).value.value.time == pos.time
  {
    match bit
    case 0 =>
    case 1 =>
    case 2 =>
    case 3 =>
    case 4 =>
    case 5 =>
    case 6 =>
    case 7 =>
  }

  /** Once the time reader knows a week, reading a fix keeps it. */
  lemma FixAKeepsWeek(readers: Readers, d: seq<byte>, p: nat)
    requires readers.time.week != 0 && FixA(readers, d, p).Some?
    ensures FixA(readers, d, p).value.value.time.week == readers.time.week
  {
    var latitude := FloatStep(readers.latitude, d, p).value;
    var longitude := FloatStep(readers.longitude, d, latitude.next).value;
    TimeStepWeek(readers.time, d, longitude.next);
  }

  /** The time of a record's position is the week and time of week that the
      time reader holds after the record, and a week already known is kept. */
  lemma RecordATime(deviceId: int, protocol: string, readers: Readers, d: seq<byte>, p: nat)
    requires RecordA(deviceId, protocol, readers, d, p).Some?
    ensures var s := RecordA(deviceId, protocol, readers, d, p).value;
      && s.value.position.time == GpsWeek(s.value.readers.time.week, s.value.readers.time.floatBits)
      && (readers.time.week != 0 ==> s.value.readers.time.week == readers.time.week)
  {
    var head := HeadA(deviceId, protocol, readers, d, p).value;
    GroupsAKeepTime(head.value.0, 0, head.value.1.position, d, head.next);
    if readers.time.week != 0 {
      FixAKeepsWeek(readers, d, EventsEnd(d, p + 1).value);
    }
  }

  /** The first position of a format A body, and the readers and index the
      rest of the body starts from. */
  lemma FormatAFirst(deviceId: int, protocol: string, readers: Readers, d: seq<byte>, p: nat)
    returns (position: Position, after: Readers, next: nat)
    requires |FormatA(deviceId, protocol, readers, d, p)| > 0
    ensures p < next
    ensures FormatA(deviceId, protocol, readers, d, p)
         == [position] + FormatA(deviceId, protocol, after, d, next)
    ensures position.time == GpsWeek(after.time.week, after.time.floatBits)
    ensures readers.time.week != 0 ==> after.time.week == readers.time.week
  {
    var s := RecordA(deviceId, protocol, readers, d, p).value;
    FormatAStep(deviceId, protocol, readers, d, p);
    RecordATime(deviceId, protocol, readers, d, p);
    RecordAProgress(deviceId, protocol, readers, d, p);
    position, after, next := s.value.position, s.value.readers, s.next;
  }

  /** Every position carries a GPS time of week `week`. */
  predicate InWeek(positions: seq<Position>, week: nat) {
    forall i :: 0 <= i < |positions| ==> positions[i].time.GpsWeek? && positions[i].time.week == week
  }

  lemma InWeekCons(position: Position, rest: seq<Position>, week: nat)
    requires position.time.GpsWeek? && position.time.week == week && InWeek(rest, week)
    ensures InWeek([position] + rest, week)
  {
    forall i | 1 <= i < |rest| + 1 ensures ([position] + rest)[i] == rest[i - 1] {
    }
  }

  /** Readers that already know a week put every position of the body in
      that week: the week is read once and never again. */
  lemma {:induction false} FormatAOneWeek(deviceId: int, protocol: string, readers: Readers, d: seq<byte>, p: nat)
    requires readers.time.week != 0
    ensures InWeek(FormatA(deviceId, protocol, readers, d, p), readers.time.week)
    decreases |d| - p
  {
    if |FormatA(deviceId, protocol, readers, d, p)| > 0 {
      var position, after, next := FormatAFirst(deviceId, protocol, readers, d, p);
      FormatAOneWeek(deviceId, protocol, after, d, next);
      InWeekCons(position, FormatA(deviceId, protocol, after, d, next), readers.time.week);
    }
  }

  /** From the first position with a nonzero week on, a body stays in that
      week; in particular a fresh packet whose first record sends a nonzero
      week reports every position in it. */
  lemma FormatAWeekOfFirst(deviceId: int, protocol: string, readers: Readers, d: seq<byte>, p: nat)
    ensures var positions := FormatA(deviceId, protocol, readers, d, p);
      |positions| > 0 ==>
        && positions[0].time.GpsWeek?
        && (positions[0].time.week != 0 ==> InWeek(positions, positions[0].time.week))
  {
    if |FormatA(deviceId, protocol, readers, d, p)| > 0 {
      var position, after, next := FormatAFirst(deviceId, protocol, readers, d, p);
      if after.time.week != 0 {
        FormatAOneWeek(deviceId, protocol, after, d, next);
        InWeekCons(position, FormatA(deviceId, protocol, after, d, next), after.time.week);
      }
    }
  }

  // ----------------------------------------------------- format A1 groups

  /** Bit 0: altitude, speed, a signed course and the odometer as a delta
      float read by a fresh reader. */
  function MotionA1(pos: Position, d: seq<byte>, p: nat): Option<Step<Position>> {
    var altitude :- ReadU16(d, p);
    var speed :- ReadU8(d, altitude.next);
    var course :- ReadI8(d, speed.next);
    var odometer :- FloatStep(0, d, course.next);
    Some(Step(Set(pos.(altitude := Some(Int(altitude.value as int)), speed := Some(Int(speed.value as int)),
                       course := Some(Int(course.value))), Odometer, FloatBits(odometer.value)),
              odometer.next))
  }

  /** Bit 1: fuel consumption (a float, dropped), engine hours (a float) and
      the tank level at 0.4 per unit; every float with a fresh reader. */
  function EngineA1(pos: Position, d: seq<byte>, p: nat): Option<Step<Position>> {
    var consumption :- FloatStep(0, d, p);
    var hours :- FloatStep(0, d, consumption.next);
    var tank :- ReadU8(d, hours.next);
    Some(Step(Set(Set(pos, Named("hours"), FloatBits(hours.value)), Named("tank"), Ratio(2 * tank.value as int, 5)),
              tank.next))
  }

  /** Bit 2: engine speed at 0.125 per unit, pedals, coolant temperature
      offset by 40, and the service odometer (dropped). */
  function CanA1(pos: Position, d: seq<byte>, p: nat): Option<Step<Position>> {
    var engine :- ReadU16(d, p);
    var pedals :- ReadU8(d, engine.next);
    var temperature :- ReadU8(d, pedals.next);
    var service :- ReadU16(d, temperature.next);
    Some(Step(CanFieldsA1(pos, engine.value, pedals.value, temperature.value), service.next))
  }

  function CanFieldsA1(pos: Position, engine: bv16, pedals: byte, temperature: byte): Position {
    Set(Set(Set(pos, Named("engine"), Ratio(engine as int, 8)), Named("pedals"), Int(pedals as int)),
        Temperature(1), Int(temperature as int - 40))
  }

  /** Bit 3: fuel level and analog inputs 2 to 4, unmasked. */
  function AnalogA1(pos: Position, d: seq<byte>, p: nat): Option<Step<Position>> {
    var fuel :- ReadU16(d, p);
    var adc2 :- ReadU16(d, fuel.next);
    var adc3 :- ReadU16(d, adc2.next);
    var adc4 :- ReadU16(d, adc3.next);
    Some(Step(AnalogFieldsA1(pos, fuel.value, adc2.value, adc3.value, adc4.value), adc4.next))
  }

  function AnalogFieldsA1(pos: Position, fuel: bv16, adc2: bv16, adc3: bv16, adc4: bv16): Position {
    Set(Set(Set(Set(pos, Fuel, Int(fuel as int)), Adc(2), Int(adc2 as int)), Adc(3), Int(adc3 as int)),
        Adc(4), Int(adc4 as int))
  }

  /** Bit 5: as format A's bit 7, but the GSM level is the top three bits
      of the last byte and the satellite count its low five bits. */
  function PowerA1(pos: Position, d: seq<byte>, p: nat): Option<Step<Position>> {
    var battery :- ByteAt(d, p);
    var power :- ReadU16(d, p);
    var controllerTemperature :- ReadI8(d, power.next);
    var gsm :- ByteAt(d, controllerTemperature.next);
    var count :- ReadU8(d, controllerTemperature.next);
    Some(Step(PowerFieldsA1(pos, battery, power.value, gsm, count.value), count.next))
  }

  function PowerFieldsA1(pos: Position, battery: byte, power: bv16, gsm: byte, count: byte): Position {
    var satellites := (count & 0x1f) as int;
    var withPower := Set(Set(pos, Battery, Int((battery >> 2) as int)), Power, Int((power & 0x3ff) as int));
    var withGsm := Set(withPower, Gsm, Int((gsm >> 5) as int));
    Set(withGsm.(valid := satellites >= 3), Satellites, Int(satellites))
  }

  /** The group gated by flag bit `bit` of a format A1 record; bits 6 and 7
      carry nothing. */
  function GroupA1(bit: nat, pos: Position, d: seq<byte>, p: nat): Option<Step<Position>>
    requires bit < 8
  {
    match bit
    case 0 => MotionA1(pos, d, p)
    case 1 => EngineA1(pos, d, p)
    case 2 => CanA1(pos, d, p)
    case 3 => AnalogA1(pos, d, p)
    case 4 => Sensors(pos, d, p)
    case 5 => PowerA1(pos, d, p)
    case _ => Some(Step(pos, p))
  }

  /** The groups of flag bits `from` to 7 of a format A1 record, in order. */
  function GroupsA1(flags: byte, from: nat, pos: Position, d: seq<byte>, p: nat): Option<Step<Position>>
    requires from <= 8
    decreases 8 - from
  {
    if from == 8 then Some(Step(pos, p))
    else if Bit(flags, from) then
      var g :- GroupA1(from, pos, d, p);
      GroupsA1(flags, from + 1, g.value, d, g.next)
    else GroupsA1(flags, from + 1, pos, d, p)
  }

  /** One step of `GroupsA1`, as `GroupsAStep` for format A. */
  lemma GroupsA1Step(flags: byte, k: nat, pos: Position, d: seq<byte>, p: nat)
    requires k < 8
    ensures !Bit(flags, k) ==> GroupsA1(flags, k, pos, d, p) == GroupsA1(flags, k + 1, pos, d, p)
    ensures Bit(flags, k) && GroupA1(k, pos, d, p).None? ==> GroupsA1(flags, k, pos, d, p).None?
    ensures Bit(flags, k) && GroupA1(k, pos, d, p).Some? ==>
              GroupsA1(flags, k, pos, d, p)
              == GroupsA1(flags, k + 1, GroupA1(k, pos, d, p).value.value, d, GroupA1(k, pos, d, p).value.next)
  {
  }

  /** The head of a format A1 record: as in format A but with fresh
      readers, followed by the status byte that A1 always carries. */
  function HeadA1(deviceId: int, protocol: string, d: seq<byte>, p: nat): Option<Step<(byte, Position)>> {
    var head :- HeadA(deviceId, protocol, FreshReaders, d, p);
    var (flags, record) := head.value;
    var status :- ReadU8(d, head.next);
    Some(Step((flags, record.position), status.next))
  }

  /** `parseFormatA1`: the single record of a simple packet; running past the
      end of the body is an error, not a shorter result. */
  function RecordA1(deviceId: int, protocol: string, d: seq<byte>, p: nat): Option<Position> {
    var head :- HeadA1(deviceId, protocol, d, p);
    var (flags, pos) := head.value;
    var groups :- GroupsA1(flags, 0, pos, d, head.next);
    Some(groups.value)
  }

  // ------------------------------------------------------------ properties

  /** Format A power group: the satellite count is the low four bits of the
      group's last byte, the GSM level bits 4..6 of that same byte, the
      battery the top six bits of its first byte; the fix is valid exactly
      when 3 or more satellites are in view. */
  lemma PowerASatellites(pos: Position, d: seq<byte>, p: nat)
    requires p + 4 <= |d|
    ensures PowerA(pos, d, p).Some?
    ensures var q := PowerA(pos, d, p).value.value;
      var satellites := (d[p + 3] & 0x0f) as int;
      && q.attributes[Satellites] == Int(satellites) && satellites < 16
      && (q.valid <==> satellites >= 3)
      && q.attributes[Gsm] == Int(((d[p + 3] >> 4) & 0x07) as int)
      && q.attributes[Battery] == Int((d[p] >> 2) as int)
  {
  }

  /** Format A1 power group: as in format A, but the satellite count is the
      low five bits and the GSM level the top three bits of the last byte. */
  lemma PowerA1Satellites(pos: Position, d: seq<byte>, p: nat)
    requires p + 4 <= |d|
    ensures PowerA1(pos, d, p).Some?
    ensures var q := PowerA1(pos, d, p).value.value;
      var satellites := (d[p + 3] & 0x1f) as int;
      && q.attributes[Satellites] == Int(satellites) && satellites < 32
      && (q.valid <==> satellites >= 3)
      && q.attributes[Gsm] == Int((d[p + 3] >> 5) as int)
  {
  }

  // ------------------------------------------------------ format A1 fix

  /** Two positions of the same device and protocol with the same fix:
      time, latitude and longitude. */
  predicate SameFix(a: Position, b: Position) {
    && a.deviceId == b.deviceId && a.protocol == b.protocol
    && a.time == b.time && a.latitude == b.latitude && a.longitude == b.longitude
  }

  /** No format A1 group touches the identity or the fix. */
  lemma GroupA1KeepsFix(bit: nat, pos: Position, d: seq<byte>, p: nat)
    requires bit < 8
    ensures GroupA1(bit, pos, d, p).Some? ==> SameFix(GroupA1(bit, pos, d, p).value.value, pos)
  {
    match bit
    case 0 =>
    case 1 =>
    case 2 =>
    case 3 =>
    case 4 =>
    case 5 =>
    case _ =>
  }

  /** Nor do the format A1 groups together. */
  lemma {:induction false} GroupsA1KeepFix(flags: byte, from: nat, pos: Position, d: seq<byte>, p: nat)
    requires from <= 8
    ensures GroupsA1(flags, from, pos, d, p).Some? ==> SameFix(GroupsA1(flags, from, pos, d, p).value.value, pos)
    decreases 8 - from
  {
    if from < 8 {
      GroupsA1Step(flags, from, pos, d, p);
      if !Bit(flags, from) {
        GroupsA1KeepFix(flags, from + 1, pos, d, p);
      } else if GroupA1(from, pos, d, p).Some? {
        var g := GroupA1(from, pos, d, p).value;
        GroupsA1KeepFix(flags, from + 1, g.value, d, g.next);
        GroupA1KeepsFix(from, pos, d, p);
      }
    }
  }

  /** The position of a simple packet carries the device, the protocol and
      the fix of a format A head read with fresh readers: its time is the
      week and time of week read from this one record. */
  lemma RecordA1Fix(deviceId: int, protocol: string, d: seq<byte>, p: nat)
    requires RecordA1(deviceId, protocol, d, p).Some?
    ensures HeadA(deviceId, protocol, FreshReaders, d, p).Some?
    ensures var head := HeadA(deviceId, protocol, FreshReaders, d, p).value;
      && SameFix(RecordA1(deviceId, protocol, d, p).value, head.value.1.position)
      && head.value.1.position.deviceId == deviceId && head.value.1.position.protocol == protocol
      && head.value.1.position.time
         == GpsWeek(head.value.1.readers.time.week, head.value.1.readers.time.floatBits)
  {
    var head := HeadA1(deviceId, protocol, d, p).value;
    GroupsA1KeepFix(head.value.0, 0, head.value.1, d, head.next);
  }

  /** A record without flags reads the same position in both formats; the
      format A1 one also needs its status byte. */
  lemma RecordA1Unflagged(deviceId: int, protocol: string, d: seq<byte>, p: nat)
    requires p < |d| && d[p] == 0
    ensures var a := RecordA(deviceId, protocol, FreshReaders, d, p);
      RecordA1(deviceId, protocol, d, p)
      == (if a.Some? && a.value.next < |d| then Some(a.value.value.position) else None)
  {
    var h := HeadA(deviceId, protocol, FreshReaders, d, p);
    if h.Some? {
      assert h.value.value.0 == 0;
      NoFlagsNoGroups(0, h.value.value.1.position, d, h.value.next);
      if h.value.next < |d| {
        NoFlagsNoGroups(0, h.value.value.1.position, d, h.value.next + 1);
      }
    }
  }

  /** Bytes after a complete group change nothing about it. */
  lemma GroupAExtends(bit: nat, pos: Position, d: seq<byte>, p: nat, more: seq<byte>)
    requires bit < 8 && GroupA(bit, pos, d, p).Some?
    ensures GroupA(bit, pos, d + more, p) == GroupA(bit, pos, d, p)
  {
    GroupAWidth(bit, pos, d, p);
    match bit
    case 0 => StatusAExtends(pos, d, p, more);
    case 1 => AltitudeAExtends(pos, d, p, more);
    case 2 => MotionAExtends(pos, d, p, more);
    case 3 => OdometerAExtends(pos, d, p, more);
    case 4 => FuelAExtends(pos, d, p, more);
    case 5 => AnalogAExtends(pos, d, p, more);
    case 6 => SensorsExtends(pos, d, p, more);
    case 7 => PowerAExtends(pos, d, p, more);
  }

  lemma StatusAExtends(pos: Position, d: seq<byte>, p: nat, more: seq<byte>)
    requires p + 1 <= |d|
    ensures StatusA(pos, d + more, p) == StatusA(pos, d, p)
  {
    assert forall i :: p <= i < p + 1 ==> (d + more)[i] == d[i];
  }

  lemma AltitudeAExtends(pos: Position, d: seq<byte>, p: nat, more: seq<byte>)
    requires p + 2 <= |d|
    ensures AltitudeA(pos, d + more, p) == AltitudeA(pos, d, p)
  {
    assert forall i :: p <= i < p + 2 ==> (d + more)[i] == d[i];
  }

  lemma MotionAExtends(pos: Position, d: seq<byte>, p: nat, more: seq<byte>)
    requires p + 3 <= |d|
    ensures MotionA(pos, d + more, p) == MotionA(pos, d, p)
  {
    assert forall i :: p <= i < p + 3 ==> (d + more)[i] == d[i];
  }

  lemma OdometerAExtends(pos: Position, d: seq<byte>, p: nat, more: seq<byte>)
    requires p + 2 <= |d|
    ensures OdometerA(pos, d + more, p) == OdometerA(pos, d, p)
  {
    assert forall i :: p <= i < p + 2 ==> (d + more)[i] == d[i];
  }

  lemma FuelAExtends(pos: Position, d: seq<byte>, p: nat, more: seq<byte>)
    requires p + 12 <= |d|
    ensures FuelA(pos, d + more, p) == FuelA(pos, d, p)
  {
    var e := d + more;
    assert forall i :: p <= i < p + 12 ==> e[i] == d[i];
    assert ReadU32(e, p) == ReadU32(d, p) && ReadU32(e, p + 4) == ReadU32(d, p + 4);
    assert ReadU16(e, p + 8) == ReadU16(d, p + 8) && ReadU16(e, p + 10) == ReadU16(d, p + 10);
  }

  lemma AnalogAExtends(pos: Position, d: seq<byte>, p: nat, more: seq<byte>)
    requires p + 8 <= |d|
    ensures AnalogA(pos, d + more, p) == AnalogA(pos, d, p)
  {
    var e := d + more;
    assert forall i :: p <= i < p + 8 ==> e[i] == d[i];
    assert ReadU16(e, p) == ReadU16(d, p) && ReadU16(e, p + 2) == ReadU16(d, p + 2);
    assert ReadU16(e, p + 4) == ReadU16(d, p + 4) && ReadU16(e, p + 6) == ReadU16(d, p + 6);
  }

  lemma SensorsExtends(pos: Position, d: seq<byte>, p: nat, more: seq<byte>)
    requires p + 5 <= |d|
    ensures Sensors(pos, d + more, p) == Sensors(pos, d, p)
  {
    var e := d + more;
    assert e[p] == d[p] && e[p + 1] == d[p + 1] && e[p + 2] == d[p + 2];
    SensorsAt(pos, d, p);
    SensorsAt(pos, e, p);
  }

  /** The sensors group in full: five bytes, of which the first three are
      kept. */
  lemma SensorsAt(pos: Position, d: seq<byte>, p: nat)
    requires p + 5 <= |d|
    ensures Sensors(pos, d, p)
      == Some(Step(Set(Set(pos, Temperature(1), Int(Signed8(d[p]))), Input,
                       Int((BE16(d[p + 1], d[p + 2]) & 0xfff) as int)), p + 5))
  {
    assert ReadI8(d, p) == Some(Step(Signed8(d[p]), p + 1));
    assert ReadU16(d, p + 1) == Some(Step(BE16(d[p + 1], d[p + 2]), p + 3));
  }

  lemma PowerAExtends(pos: Position, d: seq<byte>, p: nat, more: seq<byte>)
    requires p + 4 <= |d|
    ensures PowerA(pos, d + more, p) == PowerA(pos, d, p)
  {
    var e := d + more;
    assert e[p] == d[p] && e[p + 1] == d[p + 1] && e[p + 2] == d[p + 2] && e[p + 3] == d[p + 3];
    assert ByteAt(e, p) == ByteAt(d, p) && ReadU16(e, p) == ReadU16(d, p);
    assert ReadI8(e, p + 2) == ReadI8(d, p + 2);
    assert ByteAt(e, p + 3) == ByteAt(d, p + 3) && ReadU8(e, p + 3) == ReadU8(d, p + 3);
  }

  lemma {:induction false} GroupsAExtends(flags: byte, from: nat, pos: Position, d: seq<byte>, p: nat, more: seq<byte>)
    requires from <= 8 && GroupsA(flags, from, pos, d, p).Some?
    ensures GroupsA(flags, from, pos, d + more, p) == GroupsA(flags, from, pos, d, p)
    decreases 8 - from
  {
    if from < 8 {
      if Bit(flags, from) {
        var g := GroupA(from, pos, d, p).value;
        GroupAExtends(from, pos, d, p, more);
        GroupsAExtends(flags, from + 1, g.value, d, g.next, more);
      } else {
        GroupsAExtends(flags, from + 1, pos, d, p, more);
      }
    }
  }

  lemma {:induction false} ChainEndExtends(d: seq<byte>, p: nat, more: seq<byte>)
    requires ChainEnd(d, p).Some?
    ensures ChainEnd(d + more, p) == ChainEnd(d, p)
    decreases |d| - p
  {
    assert (d + more)[p] == d[p];
    if Bit(d[p], 7) {
      ChainEndExtends(d, p + 1, more);
    }
  }

  lemma FloatStepExtends(previous: bv32, d: seq<byte>, p: nat, more: seq<byte>)
    requires FloatStep(previous, d, p).Some?
    ensures FloatStep(previous, d + more, p) == FloatStep(previous, d, p)
  {
    FloatStepWidth(previous, d, p);
    var e := d + more;
    assert e[p] == d[p];
    var w := Width(d[p]);
    assert forall i :: p <= i < p + w ==> e[i] == d[i];
    if ModeOf(d[p]) == 0 {
      assert ReadU32(e, p) == ReadU32(d, p);
    } else if ModeOf(d[p]) == 2 {
      assert ReadU16(e, p) == ReadU16(d, p);
    } else if ModeOf(d[p]) == 3 {
      assert ReadU24(e, p) == ReadU24(d, p);
    }
  }

  lemma TimeStepExtends(s: TimeState, d: seq<byte>, p: nat, more: seq<byte>)
    requires TimeStep(s, d, p).Some?
    ensures TimeStep(s, d + more, p) == TimeStep(s, d, p)
  {
    FloatStepExtends(s.floatBits, d, p, more);
    var f := FloatStep(s.floatBits, d, p).value;
    if s.week == 0 {
      assert (d + more)[f.next] == d[f.next] && (d + more)[f.next + 1] == d[f.next + 1];
    }
  }

  lemma EventsEndExtends(d: seq<byte>, p: nat, more: seq<byte>)
    requires EventsEnd(d, p).Some?
    ensures EventsEnd(d + more, p) == EventsEnd(d, p)
  {
    assert (d + more)[p] == d[p];
    if Bit(d[p], 7) && !Bit(d[p], 6) {
      ChainEndExtends(d, p + 1, more);
    }
  }

  lemma FixAExtends(readers: Readers, d: seq<byte>, p: nat, more: seq<byte>)
    requires FixA(readers, d, p).Some?
    ensures FixA(readers, d + more, p) == FixA(readers, d, p)
  {
    FloatStepExtends(readers.latitude, d, p, more);
    var latitude := FloatStep(readers.latitude, d, p).value;
    FloatStepExtends(readers.longitude, d, latitude.next, more);
    var longitude := FloatStep(readers.longitude, d, latitude.next).value;
    TimeStepExtends(readers.time, d, longitude.next, more);
  }

  lemma HeadAExtends(deviceId: int, protocol: string, readers: Readers, d: seq<byte>, p: nat, more: seq<byte>)
    requires HeadA(deviceId, protocol, readers, d, p).Some?
    ensures HeadA(deviceId, protocol, readers, d + more, p) == HeadA(deviceId, protocol, readers, d, p)
  {
    assert (d + more)[p] == d[p];
    EventsEndExtends(d, p + 1, more);
    FixAExtends(readers, d, EventsEnd(d, p + 1).value, more);
  }

  /** Bytes arriving after a complete record change nothing about it. */
  lemma RecordAExtends(deviceId: int, protocol: string, readers: Readers, d: seq<byte>, p: nat, more: seq<byte>)
    requires RecordA(deviceId, protocol, readers, d, p).Some?
    ensures RecordA(deviceId, protocol, readers, d + more, p) == RecordA(deviceId, protocol, readers, d, p)
  {
    HeadAExtends(deviceId, protocol, readers, d, p, more);
    var head := HeadA(deviceId, protocol, readers, d, p).value;
    var (flags, record) := head.value;
    GroupsAExtends(flags, 0, record.position, d, head.next, more);
  }

  /** More bytes never lose positions: the positions decoded from a prefix
      of the body are a prefix of those decoded from the whole body. */
  lemma {:induction false} FormatAPrefix(deviceId: int, protocol: string, readers: Readers,
                                          d: seq<byte>, p: nat, more: seq<byte>)
    ensures var short := FormatA(deviceId, protocol, readers, d, p);
      short <= FormatA(deviceId, protocol, readers, d + more, p)
    decreases |d| - p
  {
    if p < |d| {
      var r := RecordA(deviceId, protocol, readers, d, p);
      if r.Some? {
        RecordAExtends(deviceId, protocol, readers, d, p, more);
        RecordAProgress(deviceId, protocol, readers, d, p);
        FormatAPrefix(deviceId, protocol, r.value.value.readers, d, r.value.next, more);
      }
    }
  }

  // ------------------------------------------------- cutting the body short

  lemma {:induction false} ChainEndRestricts(d: seq<byte>, p: nat, more: seq<byte>)
    requires ChainEnd(d + more, p).Some? && ChainEnd(d + more, p).value <= |d|
    ensures ChainEnd(d, p) == ChainEnd(d + more, p)
    decreases |d| - p
  {
    assert (d + more)[p] == d[p];
    if Bit(d[p], 7) {
      ChainEndRestricts(d, p + 1, more);
    }
  }

  lemma EventsEndRestricts(d: seq<byte>, p: nat, more: seq<byte>)
    requires EventsEnd(d + more, p).Some? && EventsEnd(d + more, p).value <= |d|
    ensures EventsEnd(d, p) == EventsEnd(d + more, p)
  {
    assert (d + more)[p] == d[p];
    if Bit(d[p], 7) && !Bit(d[p], 6) {
      ChainEndRestricts(d, p + 1, more);
    }
  }

  lemma FloatStepRestricts(previous: bv32, d: seq<byte>, p: nat, more: seq<byte>)
    requires FloatStep(previous, d + more, p).Some? && FloatStep(previous, d + more, p).value.next <= |d|
    ensures FloatStep(previous, d, p) == FloatStep(previous, d + more, p)
  {
    FloatStepWidth(previous, d + more, p);
    assert (d + more)[p] == d[p];
    FloatStepWidth(previous, d, p);
    FloatStepExtends(previous, d, p, more);
  }

  lemma TimeStepRestricts(s: TimeState, d: seq<byte>, p: nat, more: seq<byte>)
    requires TimeStep(s, d + more, p).Some? && TimeStep(s, d + more, p).value.next <= |d|
    ensures TimeStep(s, d, p) == TimeStep(s, d + more, p)
  {
    TimeStepWeek(s, d + more, p);
    FloatStepRestricts(s.floatBits, d, p, more);
    TimeStepWeek(s, d, p);
    TimeStepExtends(s, d, p, more);
  }

  lemma FixARestricts(readers: Readers, d: seq<byte>, p: nat, more: seq<byte>)
    requires FixA(readers, d + more, p).Some? && FixA(readers, d + more, p).value.next <= |d|
    ensures FixA(readers, d, p) == FixA(readers, d + more, p)
  {
    var e := d + more;
    var latitude := FloatStep(readers.latitude, e, p).value;
    var longitude := FloatStep(readers.longitude, e, latitude.next).value;
    var time := TimeStep(readers.time, e, longitude.next).value;
    FixASteps(readers, e, p, latitude, longitude, time);
    FloatStepWidth(readers.longitude, e, latitude.next);
    FloatStepWidth(readers.latitude, e, p);
    FloatStepRestricts(readers.latitude, d, p, more);
    FloatStepRestricts(readers.longitude, d, latitude.next, more);
    TimeStepRestricts(readers.time, d, longitude.next, more);
    FixASteps(readers, d, p, latitude, longitude, time);
  }

  /** A fix is its three reads in turn. */
  lemma FixASteps(readers: Readers, d: seq<byte>, p: nat, latitude: Step<bv32>, longitude: Step<bv32>,
                  time: Step<TimeState>)
    requires FloatStep(readers.latitude, d, p) == Some(latitude)
    requires FloatStep(readers.longitude, d, latitude.next) == Some(longitude)
    requires TimeStep(readers.time, d, longitude.next) == Some(time)
    ensures FixA(readers, d, p) == Some(Step(Readers(latitude.value, longitude.value, time.value), time.next))
  {
  }

  /** A head that ends within the prefix `d` reads the same from `d`. */
  lemma HeadARestricts(deviceId: int, protocol: string, readers: Readers, d: seq<byte>, p: nat, more: seq<byte>)
    requires HeadA(deviceId, protocol, readers, d + more, p).Some?
    requires HeadA(deviceId, protocol, readers, d + more, p).value.next <= |d|
    ensures HeadA(deviceId, protocol, readers, d, p) == HeadA(deviceId, protocol, readers, d + more, p)
  {
    var e := d + more;
    var events := EventsEnd(e, p + 1).value;
    FixAProgress(readers, e, events);
    assert e[p] == d[p];
    EventsEndRestricts(d, p + 1, more);
    FixARestricts(readers, d, events, more);
  }

  /** A record of the longer body that ends within the prefix `d` reads the
      same from `d` alone. */
  lemma RecordARestricts(deviceId: int, protocol: string, readers: Readers, d: seq<byte>, p: nat, more: seq<byte>)
    requires RecordA(deviceId, protocol, readers, d + more, p).Some?
    requires RecordA(deviceId, protocol, readers, d + more, p).value.next <= |d|
    ensures RecordA(deviceId, protocol, readers, d, p) == RecordA(deviceId, protocol, readers, d + more, p)
  {
    var e := d + more;
    var head := HeadA(deviceId, protocol, readers, e, p).value;
    var (flags, record) := head.value;
    HeadAProgress(deviceId, protocol, readers, e, p);
    GroupsAWidth(flags, 0, record.position, e, head.next);
    HeadARestricts(deviceId, protocol, readers, d, p, more);
    GroupsAWidth(flags, 0, record.position, d, head.next);
    GroupsAExtends(flags, 0, record.position, d, head.next, more);
  }

  /** The record a cut falls in yields nothing from the prefix. */
  lemma RecordACut(deviceId: int, protocol: string, readers: Readers, d: seq<byte>, p: nat, more: seq<byte>)
    requires RecordA(deviceId, protocol, readers, d + more, p).Some?
    requires RecordA(deviceId, protocol, readers, d + more, p).value.next > |d|
    ensures RecordA(deviceId, protocol, readers, d, p).None?
  {
    if RecordA(deviceId, protocol, readers, d, p).Some? {
      RecordAExtends(deviceId, protocol, readers, d, p, more);
      RecordAProgress(deviceId, protocol, readers, d, p);
      assert false;
    }
  }

  /** Where each record that `FormatA` reads ends, in order. */
  function RecordEndsA(deviceId: int, protocol: string, readers: Readers, d: seq<byte>, p: nat): (r: seq<nat>)
    ensures |r| == |FormatA(deviceId, protocol, readers, d, p)|
    ensures forall i :: 0 <= i < |r| ==> p < r[i] <= |d|
    decreases |d| - p
  {
    if p >= |d| then []
    else
      match RecordA(deviceId, protocol, readers, d, p)
      case None => []
      case Some(s) =>
        RecordAProgress(deviceId, protocol, readers, d, p);
        [s.next] + RecordEndsA(deviceId, protocol, s.value.readers, d, s.next)
  }

  /** The first record end, and the ends after it. */
  lemma RecordEndsNext(deviceId: int, protocol: string, readers: Readers, d: seq<byte>, p: nat)
    returns (after: Readers, next: nat)
    requires |RecordEndsA(deviceId, protocol, readers, d, p)| > 0
    ensures p < next
    ensures RecordEndsA(deviceId, protocol, readers, d, p)
         == [next] + RecordEndsA(deviceId, protocol, after, d, next)
  {
    var s := RecordA(deviceId, protocol, readers, d, p).value;
    RecordEndsStep(deviceId, protocol, readers, d, p);
    RecordAProgress(deviceId, protocol, readers, d, p);
    after, next := s.value.readers, s.next;
  }

  /** Strictly increasing. */
  predicate Increasing(s: seq<nat>) {
    forall i, j :: 0 <= i < j < |s| ==> s[i] < s[j]
  }

  lemma IncreasingCons(first: nat, rest: seq<nat>)
    requires Increasing(rest)
    requires forall i :: 0 <= i < |rest| ==> first < rest[i]
    ensures Increasing([first] + rest)
  {
    var s := [first] + rest;
    forall i, j | 0 <= i < j < |s| ensures s[i] < s[j] {
      assert s[j] == rest[j - 1];
      if i > 0 {
        assert s[i] == rest[i - 1];
      }
    }
  }

  /** Records end strictly one after another, so the number of records
      that end within a prefix is unique. */
  lemma {:induction false} RecordEndsIncrease(deviceId: int, protocol: string, readers: Readers, d: seq<byte>, p: nat)
    ensures Increasing(RecordEndsA(deviceId, protocol, readers, d, p))
    decreases |d| - p
  {
    if |RecordEndsA(deviceId, protocol, readers, d, p)| > 0 {
      var after, next := RecordEndsNext(deviceId, protocol, readers, d, p);
      RecordEndsIncrease(deviceId, protocol, after, d, next);
      IncreasingCons(next, RecordEndsA(deviceId, protocol, after, d, next));
    }
  }

  /** One record of `FormatA`. */
  lemma FormatAStep(deviceId: int, protocol: string, readers: Readers, d: seq<byte>, p: nat)
    requires p < |d| && RecordA(deviceId, protocol, readers, d, p).Some?
    ensures var s := RecordA(deviceId, protocol, readers, d, p).value;
      FormatA(deviceId, protocol, readers, d, p)
      == [s.value.position] + FormatA(deviceId, protocol, s.value.readers, d, s.next)
  {
  }

  /** One record of `RecordEndsA`. */
  lemma RecordEndsStep(deviceId: int, protocol: string, readers: Readers, d: seq<byte>, p: nat)
    requires p < |d| && RecordA(deviceId, protocol, readers, d, p).Some?
    ensures var s := RecordA(deviceId, protocol, readers, d, p).value;
      RecordEndsA(deviceId, protocol, readers, d, p)
      == [s.next] + RecordEndsA(deviceId, protocol, s.value.readers, d, s.next)
  {
  }

  /** Where the whole body has no record at `p` that ends within `d`, the
      prefix `d` has none at all. */
  lemma CutStops(deviceId: int, protocol: string, readers: Readers, d: seq<byte>, p: nat, more: seq<byte>)
    requires p < |d|
    requires var ends := RecordEndsA(deviceId, protocol, readers, d + more, p);
      |ends| == 0 || ends[0] > |d|
    ensures FormatA(deviceId, protocol, readers, d, p) == []
  {
    var r := RecordA(deviceId, protocol, readers, d + more, p);
    if r.None? {
      if RecordA(deviceId, protocol, readers, d, p).Some? {
        RecordAExtends(deviceId, protocol, readers, d, p, more);
        assert false;
      }
    } else {
      RecordEndsStep(deviceId, protocol, readers, d + more, p);
      RecordACut(deviceId, protocol, readers, d, p, more);
    }
  }

  /** Where the whole body's record at `p` ends within `d`, both bodies read
      the same position from it and go on from its end with the same
      readers. */
  lemma CutContinues(deviceId: int, protocol: string, readers: Readers, d: seq<byte>, p: nat, more: seq<byte>)
    returns (position: Position, after: Readers, next: nat)
    requires p < |d|
    requires var ends := RecordEndsA(deviceId, protocol, readers, d + more, p);
      |ends| > 0 && ends[0] <= |d|
    ensures p < next <= |d|
    ensures FormatA(deviceId, protocol, readers, d, p) == [position] + FormatA(deviceId, protocol, after, d, next)
    ensures FormatA(deviceId, protocol, readers, d + more, p)
         == [position] + FormatA(deviceId, protocol, after, d + more, next)
    ensures RecordEndsA(deviceId, protocol, readers, d + more, p)
         == [next] + RecordEndsA(deviceId, protocol, after, d + more, next)
  {
    var s := RecordA(deviceId, protocol, readers, d + more, p).value;
    RecordEndsStep(deviceId, protocol, readers, d + more, p);
    FormatAStep(deviceId, protocol, readers, d + more, p);
    RecordARestricts(deviceId, protocol, readers, d, p, more);
    RecordAProgress(deviceId, protocol, readers, d, p);
    FormatAStep(deviceId, protocol, readers, d, p);
    position, after, next := s.value.position, s.value.readers, s.next;
  }

  /** The records after the first, cut at the same bound. */
  lemma EndsShift(ends: seq<nat>, next: nat, rest: seq<nat>, k: nat, bound: nat)
    requires ends == [next] + rest && 0 < k <= |ends|
    requires forall i :: 0 <= i < k ==> ends[i] <= bound
    requires k < |ends| ==> ends[k] > bound
    ensures forall i :: 0 <= i < k - 1 ==> rest[i] <= bound
    ensures k - 1 < |rest| ==> rest[k - 1] > bound
  {
    forall i | 0 <= i < k - 1 ensures rest[i] <= bound {
      assert rest[i] == ends[i + 1];
    }
  }

  lemma TakeAfterFirst<T>(x: T, s: seq<T>, k: nat)
    requires 0 < k <= |s| + 1
    ensures ([x] + s)[..k] == [x] + s[..k - 1]
  {
  }

  /** Cutting the body short: the positions decoded from the prefix `d` are
      exactly the first `k` positions of the whole body, where `k` counts the
      records of the whole body that end within `d`. Every record completed
      before the cut is kept, unchanged and in order; the record the cut falls
      in, and everything after it, yields nothing. So cutting inside the k-th
      of n records leaves k - 1 positions. */
  lemma {:induction false} FormatACut(deviceId: int, protocol: string, readers: Readers,
                                       d: seq<byte>, p: nat, more: seq<byte>, k: nat)
    requires k <= |RecordEndsA(deviceId, protocol, readers, d + more, p)|
    requires forall i :: 0 <= i < k ==> RecordEndsA(deviceId, protocol, readers, d + more, p)[i] <= |d|
    requires k < |RecordEndsA(deviceId, protocol, readers, d + more, p)| ==>
               RecordEndsA(deviceId, protocol, readers, d + more, p)[k] > |d|
    ensures FormatA(deviceId, protocol, readers, d, p)
         == FormatA(deviceId, protocol, readers, d + more, p)[..k]
    decreases |d| - p
  {
    var ends := RecordEndsA(deviceId, protocol, readers, d + more, p);
    if p >= |d| {
      assert |ends| > 0 ==> ends[0] > p;
    } else if |ends| == 0 || ends[0] > |d| {
      CutStops(deviceId, protocol, readers, d, p, more);
    } else {
      var position, after, next := CutContinues(deviceId, protocol, readers, d, p, more);
      EndsShift(ends, next, RecordEndsA(deviceId, protocol, after, d + more, next), k, |d|);
      FormatACut(deviceId, protocol, after, d, next, more, k - 1);
      TakeAfterFirst(position, FormatA(deviceId, protocol, after, d + more, next), k);
    }
  }

  /** How many of the leading record ends lie within `bound`. */
  function EndsWithin(ends: seq<nat>, bound: nat): (k: nat)
    ensures k <= |ends|
    ensures forall i :: 0 <= i < k ==> ends[i] <= bound
    ensures k < |ends| ==> ends[k] > bound
  {
    if |ends| == 0 || ends[0] > bound then 0 else 1 + EndsWithin(ends[1..], bound)
  }

  /** Receiving only the first `|d|` bytes of a body: the positions decoded
      are the positions of the whole body's records that end within those
      bytes, and no others. */
  lemma FormatAKeepsCompleted(deviceId: int, protocol: string, readers: Readers,
                              d: seq<byte>, p: nat, more: seq<byte>)
    ensures var k := EndsWithin(RecordEndsA(deviceId, protocol, readers, d + more, p), |d|);
      FormatA(deviceId, protocol, readers, d, p) == FormatA(deviceId, protocol, readers, d + more, p)[..k]
  {
    var k := EndsWithin(RecordEndsA(deviceId, protocol, readers, d + more, p), |d|);
    FormatACut(deviceId, protocol, readers, d, p, more, k);
  }

  /** The shortest format A record: no flags, a one-byte event tag, and
      one-byte (mode 1) latitude, longitude and time, for readers that
      already know the week. */
  const MinimalRecord: seq<byte> := [0x00, 0x00, 0x40, 0x40, 0x40]

  function Repeat(block: seq<byte>, n: nat): (r: seq<byte>)
    ensures |r| == n * |block|
  {
    if n == 0 then [] else block + Repeat(block, n - 1)
  }

  /** Fewer than five bytes never make a record. */
  lemma ShortTailYieldsNothing(deviceId: int, protocol: string, readers: Readers, d: seq<byte>, p: nat)
    requires |d| < p + 5
    ensures FormatA(deviceId, protocol, readers, d, p) == []
  {
    RecordAProgress(deviceId, protocol, readers, d, p);
  }

  lemma MinimalRecordStep(deviceId: int, protocol: string, readers: Readers, d: seq<byte>, p: nat)
    requires readers.time.week != 0
    requires p + 5 <= |d| && d[p..p + 5] == MinimalRecord
    ensures var r := RecordA(deviceId, protocol, readers, d, p);
      r.Some? && r.value.next == p + 5 && r.value.value.readers == MinimalAfter(readers)
  {
    assert d[p] == 0 && d[p + 1] == 0 && d[p + 2] == 0x40 && d[p + 3] == 0x40 && d[p + 4] == 0x40;
    assert EventsEnd(d, p + 1) == Some(p + 2);
    FloatStepWidth(readers.latitude, d, p + 2);
    FloatStepWidth(readers.longitude, d, p + 3);
    FloatStepWidth(readers.time.floatBits, d, p + 4);
    var head := HeadA(deviceId, protocol, readers, d, p).value;
    assert head.next == p + 5 && head.value.0 == 0;
    NoFlagsNoGroups(0, head.value.1.position, d, p + 5);
  }

  /** The first block of a repetition, and the rest. */
  lemma RepeatSplit(d: seq<byte>, p: nat, n: nat, tail: seq<byte>)
    requires n > 0 && p <= |d| && d[p..] == Repeat(MinimalRecord, n) + tail
    ensures p + 5 <= |d| && d[p..p + 5] == MinimalRecord
    ensures d[p + 5..] == Repeat(MinimalRecord, n - 1) + tail
  {
    assert d[p..p + 5] == d[p..][..5];
    assert d[p + 5..] == d[p..][5..];
  }

  /** The readers' state after a shortest record: each reader takes the
      one-byte delta 0x40 (mode 1, payload 0), and a known week is kept. */
  function MinimalAfter(readers: Readers): (r: Readers)
    ensures r.time.week == readers.time.week
  {
    Readers(Splice8(readers.latitude, 0x40), Splice8(readers.longitude, 0x40),
            TimeState(Splice8(readers.time.floatBits, 0x40), readers.time.week))
  }

  /** A shortest record yields one position and leaves the readers in
      `MinimalAfter`. */
  lemma MinimalRecordFormat(deviceId: int, protocol: string, readers: Readers, d: seq<byte>, p: nat)
    requires readers.time.week != 0
    requires p + 5 <= |d| && d[p..p + 5] == MinimalRecord
    ensures |FormatA(deviceId, protocol, readers, d, p)|
            == 1 + |FormatA(deviceId, protocol, MinimalAfter(readers), d, p + 5)|
  {
    MinimalRecordStep(deviceId, protocol, readers, d, p);
    FormatAStep(deviceId, protocol, readers, d, p);
  }

  /** A body of `n` shortest records followed by fewer than five bytes
      yields exactly `n` positions: every complete record, and nothing for
      the incomplete one. */
  lemma {:induction false} MinimalRecordsCount(deviceId: int, protocol: string, readers: Readers,
                                               d: seq<byte>, p: nat, n: nat, tail: seq<byte>)
    requires readers.time.week != 0
    requires p <= |d| && d[p..] == Repeat(MinimalRecord, n) + tail && |tail| < 5
    ensures |FormatA(deviceId, protocol, readers, d, p)| == n
    decreases n
  {
    if n == 0 {
      ShortTailYieldsNothing(deviceId, protocol, readers, d, p);
    } else {
      RepeatSplit(d, p, n, tail);
      MinimalRecordsCount(deviceId, protocol, MinimalAfter(readers), d, p + 5, n - 1, tail);
      MinimalRecordFormat(deviceId, protocol, readers, d, p);
    }
  }

  /** A fresh packet: the first record also carries the GPS week (here a
      non-zero one); then `n` more shortest records and an incomplete tail
      yield `n + 1` positions. */
  lemma FreshPacketCount(deviceId: int, protocol: string, n: nat, tail: seq<byte>)
    requires |tail| < 5
    ensures var first: seq<byte> := [0x00, 0x00, 0x40, 0x40, 0x40, 0x00, 0x01];
      |FormatA(deviceId, protocol, FreshReaders, first + Repeat(MinimalRecord, n) + tail, 0)| == n + 1
  {
    var first: seq<byte> := [0x00, 0x00, 0x40, 0x40, 0x40, 0x00, 0x01];
    var d := first + Repeat(MinimalRecord, n) + tail;
    assert d[..7] == first;
    assert EventsEnd(d, 1) == Some(2);
    FloatStepWidth(0, d, 2);
    FloatStepWidth(0, d, 3);
    FloatStepWidth(0, d, 4);
    var head := HeadA(deviceId, protocol, FreshReaders, d, 0).value;
    assert head.next == 7 && head.value.0 == 0 && head.value.1.readers.time.week == 1;
    NoFlagsNoGroups(0, head.value.1.position, d, 7);
    var r := RecordA(deviceId, protocol, FreshReaders, d, 0).value;
    assert r.next == 7;
    assert d[7..] == Repeat(MinimalRecord, n) + tail;
    MinimalRecordsCount(deviceId, protocol, r.value.readers, d, 7, n, tail);
  }
}
