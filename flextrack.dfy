/** The Flextrack sentence decoder. A sentence is a comma-separated line
    whose second field names its kind: a LOGON sentence binds the connection
    to a device, a UNITSTAT sentence reports a position for the bound device.
    A recognised sentence is acknowledged by echoing its leading index. */
module Flextrack {
  import opened Common
  import opened Positions
  import opened Strings

  const Comma: char := ','

  /** What decoding a sentence does besides its result: a text written back
      on the channel, or an attempt to bind a device by key (with whether an
      unknown key is logged). */
  datatype Effect = Write(text: string) | Identify(key: string, logWarning: bool)

  /** The result of one sentence, its effects in order, and the device the
      connection is bound to afterwards. */
  datatype Outcome = Outcome(position: Option<Position>, effects: seq<Effect>, device: Option<int>)

  /** The acknowledgement text: the index, ",ACK" and a carriage return. */
  function AckText(index: string): string {
    index + ",ACK\r"
  }

  /** `sendAcknowledgement`: a write of the acknowledgement, or nothing when
      there is no channel. */
  function Acknowledgement(channel: bool, index: string): (r: seq<Effect>)
    ensures channel <==> |r| == 1
    ensures !channel <==> r == []
    ensures channel ==> r == [Write(index + ",ACK\r")]
    ensures forall e :: e in r ==> e.Write? && |index| < |e.text| && e.text[..|index|] == index
  {
    if channel then [Write(AckText(index))] else []
  }

  /** The acknowledgement of an index splits back into the index and "ACK\r". */
  lemma AckEchoesIndex(index: string)
    requires SignedDigits(index, 10)
    ensures Split(AckText(index), Comma) == [index, "ACK\r"]
  {
    assert Comma !in index by {
      if Digits(index, 10) {
        assert forall i :: 0 <= i < |index| ==> index[i] != Comma;
      } else {
        assert forall i :: 1 <= i < |index| ==> index[1..][i - 1] == index[i] != Comma;
      }
    }
    assert Comma !in "ACK\r";
    JoinSplit([index, "ACK\r"], Comma);
    assert Join([index, "ACK\r"], Comma) == AckText(index);
  }

  /** `(-?d+),LOGON,(d+),(d+)`: index, node id, ICCID. */
  predicate LogonMatches(f: seq<string>) {
    |f| == 4 && SignedDigits(f[0], 10) && f[1] == "LOGON" && Digits(f[2], 10) && Digits(f[3], 10)
  }

  /** `([NS])(d+).(d+.d+)` and its east-west twin: a hemisphere letter, whole
      degrees, a dot, and decimal minutes. */
  predicate CoordinateMatches(s: string, hemispheres: set<char>) {
    && |s| >= 1 && s[0] in hemispheres
    && (forall i :: 1 <= i < |s| ==> IsDigit(s[i]) || s[i] == '.')
    && var parts := Split(s[1..], '.');
       |parts| == 3 && Digits(parts[0], 10) && Digits(parts[1], 10) && Digits(parts[2], 10)
  }

  /** The UNITSTAT pattern, field by field: index, kind, date `dddddddd`,
      time `dddddd`, node id, latitude, longitude, speed, course, satellites,
      battery, GSM, status (hex), MCC and MNC run together (`ddddd`),
      altitude, HDOP, cell (hex), fix time, LAC (hex), odometer. */
  predicate UnitstatMatches(f: seq<string>) {
    && |f| == 20
    && HeadFieldsMatch(f[0], f[1], f[2], f[3], f[4], f[5], f[6])
    && ReadingFieldsMatch(f[7], f[8], f[9], f[10], f[11], f[12], f[13])
    && TailFieldsMatch(f[14], f[15], f[16], f[17], f[18], f[19])
  }

  predicate HeadFieldsMatch(index: string, kind: string, date: string, time: string, nodeId: string,
                            latitude: string, longitude: string) {
    && SignedDigits(index, 10) && kind == "UNITSTAT"
    && Digits(date, 10) && |date| == 8
    && Digits(time, 10) && |time| == 6
    && Digits(nodeId, 10)
    && CoordinateMatches(latitude, {'N', 'S'}) && CoordinateMatches(longitude, {'E', 'W'})
  }

  predicate ReadingFieldsMatch(speed: string, course: string, satellites: string, battery: string,
                               gsm: string, status: string, network: string) {
    && Digits(speed, 10) && Digits(course, 10) && Digits(satellites, 10) && Digits(battery, 10)
    && SignedDigits(gsm, 10)
    && Digits(status, 16)
    && Digits(network, 10) && |network| == 5
  }

  predicate TailFieldsMatch(altitude: string, hdop: string, cell: string, fixTime: string, lac: string,
                            odometer: string) {
    && SignedDigits(altitude, 10)
    && Digits(hdop, 10) && Digits(cell, 16) && Digits(fixTime, 10) && Digits(lac, 16)
    && Digits(odometer, 10)
  }

  /** The decimal value of `s[lo..hi]`. */
  function Number(s: string, lo: nat, hi: nat): nat
    requires Digits(s, 10) && lo <= hi <= |s|
  {
    assert forall i :: 0 <= i < hi - lo ==> s[lo..hi][i] == s[lo + i];
    ParseNat(s[lo..hi], 10)
  }

  /** `nextCoordinate(HEM_DEG_MIN)` on a matching field. */
  function CoordinateOf(s: string): Coordinate
    requires CoordinateMatches(s, {'N', 'S', 'E', 'W'})
  {
    var parts := Split(s[1..], '.');
    HemisphereDegreesMinutes(s[0], ParseNat(parts[0], 10), parts[1] + "." + parts[2])
  }

  /** The position a matching UNITSTAT sentence reports for `deviceId`. */
  function UnitstatPosition(f: seq<string>, deviceId: int, protocol: string): (r: Position)
    requires UnitstatMatches(f)
  {
    var time := Calendar(Number(f[2], 0, 4), Number(f[2], 4, 6), Number(f[2], 6, 8),
                         Number(f[3], 0, 2), Number(f[3], 2, 4), Number(f[3], 4, 6));
    var position := NewPosition(deviceId, protocol, time, CoordinateOf(f[5]), CoordinateOf(f[6]));
    position.(
      valid := true,
      speed := Some(KnotsFromKph(ParseNat(f[7], 10))),
      course := Some(Int(ParseNat(f[8], 10))),
      altitude := Some(Int(ParseInt(f[14], 10))),
      attributes := UnitstatAttributes(f))
  }

  /** The attributes a matching UNITSTAT sentence reports. */
  function UnitstatAttributes(f: seq<string>): map<Key, Value>
    requires UnitstatMatches(f)
  {
    map[
      Satellites := Int(ParseNat(f[9], 10)),
      Battery := Int(ParseNat(f[10], 10)),
      Gsm := Int(ParseInt(f[11], 10)),
      Status := Int(ParseNat(f[12], 16)),
      Mcc := Int(Number(f[13], 0, 3)),
      Mnc := Int(Number(f[13], 3, 5)),
      Hdop := Ratio(ParseNat(f[15], 10), 10),
      CellId := Int(ParseNat(f[16], 16)),
      Lac := Int(ParseNat(f[18], 16)),
      Odometer := Int(ParseNat(f[19], 10))]
  }

  /** `decode` on one sentence. `devices` maps the unique ids the platform
      knows to their device ids, and `bound` is the device the connection is
      bound to before the sentence. `clearsOnMiss` says whether a failed
      identification unbinds the connection (the identity lookup lives in
      the decoders' common base, outside this model) or leaves the binding
      as it was. */
  function Decode(sentence: string, channel: bool, devices: map<string, int>, bound: Option<int>,
                  clearsOnMiss: bool, protocol: string): (r: Outcome)
    ensures r.device != bound ==> Contains(sentence, "LOGON")
    ensures r.position.Some? ==>
              && !Contains(sentence, "LOGON") && bound.Some? && r.device == bound
              && r.position.value.deviceId == bound.value && r.position.value.protocol == protocol
  {
    var f := Split(sentence, Comma);
    if Contains(sentence, "LOGON") then
      if !LogonMatches(f) then Outcome(None, [], bound)
      else
        var ack := Acknowledgement(channel, f[0]);
        var nodeId := f[2];
        var iccid := f[3];
        if iccid in devices then Outcome(None, ack + [Identify(iccid, false)], Some(devices[iccid]))
        else
          var attempts := ack + [Identify(iccid, false), Identify(nodeId, true)];
          if nodeId in devices then Outcome(None, attempts, Some(devices[nodeId]))
          else Outcome(None, attempts, if clearsOnMiss then None else bound)
    else if Contains(sentence, "UNITSTAT") && bound.Some? then
      if !UnitstatMatches(f) then Outcome(None, [], bound)
      else Outcome(Some(UnitstatPosition(f, bound.value, protocol)), Acknowledgement(channel, f[0]), bound)
    else Outcome(None, [], bound)
  }

  // ------------------------------------------------------------ properties

  /** A sentence mentioning LOGON anywhere is a LOGON sentence, even when it
      also mentions UNITSTAT: it never reports a position, and when it fails
      the LOGON pattern nothing is written and the binding stays. */
  lemma LogonTakesPrecedence(sentence: string, channel: bool, devices: map<string, int>, bound: Option<int>,
                             clearsOnMiss: bool, protocol: string)
    requires Contains(sentence, "LOGON")
    ensures var r := Decode(sentence, channel, devices, bound, clearsOnMiss, protocol);
      && r.position.None?
      && (!LogonMatches(Split(sentence, Comma)) ==> r.effects == [] && r.device == bound)
  {
  }

  /** A matching LOGON is acknowledged before any identity attempt and
      whether or not the identity resolves; the ICCID is tried first without
      a warning, the node id only when the ICCID is unknown. The connection
      ends up bound to the first key that resolves; when neither does, it
      is unbound or stays as it was, as `clearsOnMiss` says. */
  lemma LogonIdentity(sentence: string, channel: bool, devices: map<string, int>, bound: Option<int>,
                      clearsOnMiss: bool, protocol: string)
    requires Contains(sentence, "LOGON") && LogonMatches(Split(sentence, Comma))
    ensures var f := Split(sentence, Comma);
      var r := Decode(sentence, channel, devices, bound, clearsOnMiss, protocol);
      var n := if channel then 1 else 0;
      && r.effects[..n] == Acknowledgement(channel, f[0])
      && (forall i :: n <= i < |r.effects| ==> r.effects[i].Identify?)
      && r.effects[n] == Identify(f[3], false)
      && (|r.effects| == n + 2 <==> f[3] !in devices)
      && (f[3] !in devices ==> r.effects[n + 1] == Identify(f[2], true))
      && r.device == (if f[3] in devices then Some(devices[f[3]])
                      else if f[2] in devices then Some(devices[f[2]])
                      else if clearsOnMiss then None
                      else bound)
  {
  }

  /** A UNITSTAT sentence is decoded only for a bound connection, and one
      that fails its pattern is neither acknowledged nor reported. */
  lemma UnitstatNeedsBinding(sentence: string, channel: bool, devices: map<string, int>, bound: Option<int>,
                             clearsOnMiss: bool, protocol: string)
    requires !Contains(sentence, "LOGON")
    requires bound.None? || !UnitstatMatches(Split(sentence, Comma))
    ensures Decode(sentence, channel, devices, bound, clearsOnMiss, protocol) == Outcome(None, [], bound)
  {
  }

  /** A matching UNITSTAT sentence on a bound connection gives exactly one
      acknowledgement echoing its index and one valid position for the bound
      device; the binding does not change. */
  lemma UnitstatReports(sentence: string, channel: bool, devices: map<string, int>, bound: Option<int>,
                        clearsOnMiss: bool, protocol: string)
    requires !Contains(sentence, "LOGON") && Contains(sentence, "UNITSTAT")
    requires bound.Some? && UnitstatMatches(Split(sentence, Comma))
    ensures var r := Decode(sentence, channel, devices, bound, clearsOnMiss, protocol);
      var index := Split(sentence, Comma)[0];
      && r.position.Some? && r.position.value.valid
      && r.position.value.deviceId == bound.value && r.position.value.protocol == protocol
      && r.device == bound
      && (channel ==> r.effects == [Write(index + ",ACK\r")])
      && (!channel ==> r.effects == [])
  {
  }

  /** No UNITSTAT field holds a comma. */
  lemma UnitstatFieldsCommaFree(f: seq<string>)
    requires UnitstatMatches(f)
    ensures forall i :: 0 <= i < |f| ==> Comma !in f[i]
  {
    forall i | 0 <= i < |f|
      ensures Comma !in f[i]
    {
      if i == 0 || i == 11 || i == 14 {
        SignedDigitsExclude(f[i], Comma);
      } else if i == 5 || i == 6 {
        assert forall k :: 1 <= k < |f[i]| ==> f[i][k] != Comma;
      } else if i != 1 {
        assert forall k :: 0 <= k < |f[i]| ==> f[i][k] != Comma;
      }
    }
  }

  /** A sign-and-digits field holds no character other than '-' and digits. */
  lemma SignedDigitsExclude(s: string, c: char)
    requires SignedDigits(s, 10) && c != '-' && !IsHexDigit(c)
    ensures c !in s
  {
    if !Digits(s, 10) {
      assert forall i :: 1 <= i < |s| ==> s[1..][i - 1] == s[i] != c;
    }
  }

  /** No UNITSTAT field holds the letter 'L', so a UNITSTAT sentence never
      mentions LOGON. */
  lemma UnitstatNeverLogon(f: seq<string>)
    requires UnitstatMatches(f)
    ensures !Contains(Join(f, Comma), "LOGON")
  {
    forall i | 0 <= i < |f|
      ensures 'L' !in f[i]
    {
      if i == 0 || i == 11 || i == 14 {
        SignedDigitsExclude(f[i], 'L');
      } else if i == 5 || i == 6 {
        assert forall k :: 1 <= k < |f[i]| ==> f[i][k] != 'L';
      } else if i != 1 {
        assert forall k :: 0 <= k < |f[i]| ==> f[i][k] != 'L';
      }
    }
    var s := Join(f, Comma);
    JoinExcludes(f, Comma, 'L');
    forall k
      ensures !OccursAt(s, "LOGON", k)
    {
      if 0 <= k <= |s| - 5 {
        assert s[k..k + 5][0] == s[k];
      }
    }
    ContainsAt(s, "LOGON");
  }

  /** The kind field of a joined sentence sits right after the first comma. */
  lemma KindAt(f: seq<string>, kind: string)
    requires |f| >= 3 && f[1] == kind
    ensures Contains(Join(f, Comma), kind)
  {
    var s := Join(f, Comma);
    assert s == f[0] + [Comma] + (f[1] + [Comma] + Join(f[2..], Comma)) by {
      assert s == f[0] + [Comma] + Join(f[1..], Comma);
      assert f[1..][1..] == f[2..];
      assert Join(f[1..], Comma) == f[1] + [Comma] + Join(f[2..], Comma);
    }
    var k := |f[0]| + 1;
    assert s[k..k + |kind|] == kind;
    ContainsAt(s, kind);
    assert OccursAt(s, kind, k);
  }

  /** A LOGON sentence as a device writes it is acknowledged with its index,
      and its ICCID and node id are tried in that order. */
  lemma LogonRoundTrip(index: string, nodeId: string, iccid: string, channel: bool,
                       devices: map<string, int>, bound: Option<int>, clearsOnMiss: bool,
                       protocol: string)
    requires SignedDigits(index, 10) && Digits(nodeId, 10) && Digits(iccid, 10)
    requires iccid !in devices
    ensures var r := Decode(Join([index, "LOGON", nodeId, iccid], Comma), channel, devices, bound,
                            clearsOnMiss, protocol);
      r.effects == Acknowledgement(channel, index) + [Identify(iccid, false), Identify(nodeId, true)]
  {
    var f := [index, "LOGON", nodeId, iccid];
    forall i | 0 <= i < |f|
      ensures Comma !in f[i]
    {
      if i == 0 {
        SignedDigitsExclude(index, Comma);
      } else if i != 1 {
        assert forall k :: 0 <= k < |f[i]| ==> f[i][k] != Comma;
      }
    }
    JoinSplit(f, Comma);
    KindAt(f, "LOGON");
  }

  /** The readings of a UNITSTAT sentence: the date and time of day, the
      motion, and the values reported as attributes. */
  datatype Readings = Readings(year: nat, month: nat, day: nat, hour: nat, minute: nat, second: nat,
                               speed: nat, course: nat, satellites: nat, battery: nat, gsm: int,
                               status: nat, mcc: nat, mnc: nat, altitude: int, hdop: nat, cell: nat,
                               lac: nat, odometer: nat)

  /** The readings fit the fixed-width groups of the pattern: four digits
      for the year, three for the MCC, two for the MNC and for every other
      part of the date and time. */
  predicate Fits(r: Readings) {
    && r.year < 10000 && r.month < 100 && r.day < 100
    && r.hour < 100 && r.minute < 100 && r.second < 100
    && r.mcc < 1000 && r.mnc < 100
  }

  /** UNITSTAT fields with the readings written in: the date, time and
      network groups zero-padded to their widths, the GSM level and the
      altitude with their sign, the status, cell and LAC in hexadecimal and
      the rest in decimal. */
  function WithReadings(f: seq<string>, r: Readings): (g: seq<string>)
    requires |f| == 20
    ensures |g| == 20
  {
    [f[0], f[1], DateText(r), TimeText(r), f[4], f[5], f[6],
     NatText(r.speed, 10), NatText(r.course, 10), NatText(r.satellites, 10), NatText(r.battery, 10),
     IntText(r.gsm), NatText(r.status, 16), NetworkText(r),
     IntText(r.altitude), NatText(r.hdop, 10), NatText(r.cell, 16), f[17], NatText(r.lac, 16),
     NatText(r.odometer, 10)]
  }

  /** The date as `(dddd)(dd)(dd)`: year, month and day. */
  function DateText(r: Readings): (s: string)
    ensures Digits(s, 10) && |s| == 8
  {
    PaddedText(r.year, 4) + PaddedText(r.month, 2) + PaddedText(r.day, 2)
  }

  /** The time of day as `(dd)(dd)(dd)`: hours, minutes and seconds. */
  function TimeText(r: Readings): (s: string)
    ensures Digits(s, 10) && |s| == 6
  {
    PaddedText(r.hour, 2) + PaddedText(r.minute, 2) + PaddedText(r.second, 2)
  }

  /** The MCC and MNC run together as `(ddd)(dd)`. */
  function NetworkText(r: Readings): (s: string)
    ensures Digits(s, 10) && |s| == 5
  {
    PaddedText(r.mcc, 3) + PaddedText(r.mnc, 2)
  }

  /** The readings of a UNITSTAT sentence come back from its text: whatever
      the other fields, writing readings that fit into matching fields gives
      matching fields that report exactly those readings (and
      `UnitstatSentence` decodes them). */
  lemma UnitstatRoundTrip(f: seq<string>, r: Readings, deviceId: int, protocol: string)
    requires UnitstatMatches(f) && Fits(r)
    ensures UnitstatMatches(WithReadings(f, r))
    ensures var p := UnitstatPosition(WithReadings(f, r), deviceId, protocol);
      && p.time == Calendar(r.year, r.month, r.day, r.hour, r.minute, r.second)
      && p.speed == Some(KnotsFromKph(r.speed))
      && p.course == Some(Int(r.course))
      && p.altitude == Some(Int(r.altitude))
      && p.attributes[Satellites] == Int(r.satellites)
      && p.attributes[Battery] == Int(r.battery)
      && p.attributes[Gsm] == Int(r.gsm)
      && p.attributes[Status] == Int(r.status)
      && p.attributes[Mcc] == Int(r.mcc)
      && p.attributes[Mnc] == Int(r.mnc)
      && p.attributes[Hdop] == Ratio(r.hdop, 10)
      && p.attributes[CellId] == Int(r.cell)
      && p.attributes[Lac] == Int(r.lac)
      && p.attributes[Odometer] == Int(r.odometer)
  {
    var g := WithReadings(f, r);
    ReadingsMatch(f, r);
    ParseNatText(r.speed, 10);
    ParseNatText(r.course, 10);
    ParseIntText(r.altitude);
    DateDigits(r);
    TimeDigits(r);
    NetworkRoundTrip(g, r);
    AttributesRoundTrip(g, r);
  }

  /** The MCC and MNC come back from their `(ddd)(dd)` groups. */
  lemma NetworkDigits(r: Readings)
    requires r.mcc < 1000 && r.mnc < 100
    ensures Number(NetworkText(r), 0, 3) == r.mcc && Number(NetworkText(r), 3, 5) == r.mnc
  {
    var s := NetworkText(r);
    var mcc, mnc := PaddedText(r.mcc, 3), PaddedText(r.mnc, 2);
    assert s[0..3] == mcc && s[3..5] == mnc;
    assert Pow10(2) == 100 && Pow10(3) == 1000;
    PaddedAt(s, 0, r.mcc, 3);
    PaddedAt(s, 3, r.mnc, 2);
  }

  /** The year, month and day come back from their `(dddd)(dd)(dd)` groups. */
  lemma DateDigits(r: Readings)
    requires Fits(r)
    ensures var date := DateText(r);
      Number(date, 0, 4) == r.year && Number(date, 4, 6) == r.month && Number(date, 6, 8) == r.day
  {
    var date := DateText(r);
    ThreeSlices(PaddedText(r.year, 4), PaddedText(r.month, 2), PaddedText(r.day, 2));
    assert Pow10(2) == 100 && Pow10(4) == 10000;
    PaddedAt(date, 0, r.year, 4);
    PaddedAt(date, 4, r.month, 2);
    PaddedAt(date, 6, r.day, 2);
  }

  /** The hour, minute and second come back from their `(dd)(dd)(dd)` groups. */
  lemma TimeDigits(r: Readings)
    requires Fits(r)
    ensures var time := TimeText(r);
      Number(time, 0, 2) == r.hour && Number(time, 2, 4) == r.minute && Number(time, 4, 6) == r.second
  {
    var time := TimeText(r);
    ThreeSlices(PaddedText(r.hour, 2), PaddedText(r.minute, 2), PaddedText(r.second, 2));
    assert Pow10(2) == 100;
    PaddedAt(time, 0, r.hour, 2);
    PaddedAt(time, 2, r.minute, 2);
    PaddedAt(time, 4, r.second, 2);
  }

  /** Each of three strings written one after the other is a slice of the
      result. */
  lemma ThreeSlices(x: string, y: string, z: string)
    ensures var s := x + y + z;
      s[0..|x|] == x && s[|x|..|x| + |y|] == y && s[|x| + |y|..|s|] == z
  {
    var s := x + y + z;
    assert s[..|x| + |y|] == x + y;
  }

  /** A group of `width` digits inside a decimal field reads back as the
      number zero-padded into it. */
  lemma PaddedAt(s: string, lo: nat, n: nat, width: nat)
    requires Digits(s, 10) && lo + width <= |s| && n < Pow10(width)
    requires s[lo..lo + width] == PaddedText(n, width)
    ensures Number(s, lo, lo + width) == n
  {
    ParsePaddedText(n, width);
  }

  /** The signed and packed part of `UnitstatRoundTrip`: the GSM level keeps
      its sign, and the MCC and MNC come back from their `(ddd)(dd)`
      groups. */
  lemma NetworkRoundTrip(g: seq<string>, r: Readings)
    requires UnitstatMatches(g) && r.mcc < 1000 && r.mnc < 100
    requires g[11] == IntText(r.gsm) && g[13] == NetworkText(r)
    ensures var a := UnitstatAttributes(g);
      a[Gsm] == Int(r.gsm) && a[Mcc] == Int(r.mcc) && a[Mnc] == Int(r.mnc)
  {
    UnitstatAttributesAt(g);
    ParseIntText(r.gsm);
    NetworkDigits(r);
  }

  /** The unsigned part of `UnitstatRoundTrip`: satellites, battery, HDOP
      and odometer in decimal, status, cell and LAC in hexadecimal. */
  lemma AttributesRoundTrip(g: seq<string>, r: Readings)
    requires UnitstatMatches(g)
    requires g[9] == NatText(r.satellites, 10) && g[10] == NatText(r.battery, 10)
    requires g[12] == NatText(r.status, 16) && g[15] == NatText(r.hdop, 10)
    requires g[16] == NatText(r.cell, 16) && g[18] == NatText(r.lac, 16)
    requires g[19] == NatText(r.odometer, 10)
    ensures var a := UnitstatAttributes(g);
      && a[Satellites] == Int(r.satellites)
      && a[Battery] == Int(r.battery)
      && a[Status] == Int(r.status)
      && a[Hdop] == Ratio(r.hdop, 10)
      && a[CellId] == Int(r.cell)
      && a[Lac] == Int(r.lac)
      && a[Odometer] == Int(r.odometer)
  {
    UnitstatAttributesAt(g);
    ParseNatText(r.satellites, 10);
    ParseNatText(r.battery, 10);
    ParseNatText(r.status, 16);
    ParseNatText(r.hdop, 10);
    ParseNatText(r.cell, 16);
    ParseNatText(r.lac, 16);
    ParseNatText(r.odometer, 10);
  }

  /** Where each attribute of a UNITSTAT sentence comes from. */
  lemma UnitstatAttributesAt(f: seq<string>)
    requires UnitstatMatches(f)
    ensures var a := UnitstatAttributes(f);
      && a[Satellites] == Int(ParseNat(f[9], 10))
      && a[Battery] == Int(ParseNat(f[10], 10))
      && a[Gsm] == Int(ParseInt(f[11], 10))
      && a[Status] == Int(ParseNat(f[12], 16))
      && a[Mcc] == Int(Number(f[13], 0, 3))
      && a[Mnc] == Int(Number(f[13], 3, 5))
      && a[Hdop] == Ratio(ParseNat(f[15], 10), 10)
      && a[CellId] == Int(ParseNat(f[16], 16))
      && a[Lac] == Int(ParseNat(f[18], 16))
      && a[Odometer] == Int(ParseNat(f[19], 10))
  {
  }

  /** Readings written into matching UNITSTAT fields still match. */
  lemma ReadingsMatch(f: seq<string>, r: Readings)
    requires UnitstatMatches(f)
    ensures UnitstatMatches(WithReadings(f, r))
  {
    HeadWritten(f[0], f[1], f[2], f[3], f[4], f[5], f[6], r);
    ReadingsWritten(r);
    TailWritten(f[17], r);
    FieldGroupsMatch(f[0], f[1], DateText(r), TimeText(r), f[4], f[5], f[6],
                     NatText(r.speed, 10), NatText(r.course, 10), NatText(r.satellites, 10),
                     NatText(r.battery, 10), IntText(r.gsm), NatText(r.status, 16), NetworkText(r),
                     IntText(r.altitude), NatText(r.hdop, 10), NatText(r.cell, 16), f[17],
                     NatText(r.lac, 16), NatText(r.odometer, 10));
  }

  /** Twenty fields match when each of the three groups does. */
  lemma FieldGroupsMatch(index: string, kind: string, date: string, time: string, nodeId: string,
                         latitude: string, longitude: string, speed: string, course: string,
                         satellites: string, battery: string, gsm: string, status: string,
                         network: string, altitude: string, hdop: string, cell: string,
                         fixTime: string, lac: string, odometer: string)
    requires HeadFieldsMatch(index, kind, date, time, nodeId, latitude, longitude)
    requires ReadingFieldsMatch(speed, course, satellites, battery, gsm, status, network)
    requires TailFieldsMatch(altitude, hdop, cell, fixTime, lac, odometer)
    ensures UnitstatMatches([index, kind, date, time, nodeId, latitude, longitude, speed, course,
                             satellites, battery, gsm, status, network, altitude, hdop, cell,
                             fixTime, lac, odometer])
  {
  }

  /** Writing the date and time into a matching head keeps it matching. */
  lemma HeadWritten(index: string, kind: string, date: string, time: string, nodeId: string,
                    latitude: string, longitude: string, r: Readings)
    requires HeadFieldsMatch(index, kind, date, time, nodeId, latitude, longitude)
    ensures HeadFieldsMatch(index, kind, DateText(r), TimeText(r), nodeId, latitude, longitude)
  {
  }

  /** The readings written in their forms match the readings group. */
  lemma ReadingsWritten(r: Readings)
    ensures ReadingFieldsMatch(NatText(r.speed, 10), NatText(r.course, 10), NatText(r.satellites, 10),
                               NatText(r.battery, 10), IntText(r.gsm), NatText(r.status, 16), NetworkText(r))
  {
  }

  /** The readings written in their forms, around any fix time, match the
      tail group. */
  lemma TailWritten(fixTime: string, r: Readings)
    requires Digits(fixTime, 10)
    ensures TailFieldsMatch(IntText(r.altitude), NatText(r.hdop, 10), NatText(r.cell, 16), fixTime,
                            NatText(r.lac, 16), NatText(r.odometer, 10))
  {
  }

  /** Matching UNITSTAT fields written out with commas are decoded, on a
      bound connection, as the position those fields give. */
  lemma UnitstatSentence(f: seq<string>, channel: bool, devices: map<string, int>, deviceId: int,
                         clearsOnMiss: bool, protocol: string)
    requires UnitstatMatches(f)
    ensures Decode(Join(f, Comma), channel, devices, Some(deviceId), clearsOnMiss, protocol)
         == Outcome(Some(UnitstatPosition(f, deviceId, protocol)), Acknowledgement(channel, f[0]), Some(deviceId))
  {
    UnitstatFieldsCommaFree(f);
    JoinSplit(f, Comma);
    UnitstatNeverLogon(f);
    KindAt(f, "UNITSTAT");
  }
}
