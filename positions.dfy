/** The canonical location report that every decoder produces. */
module Positions {
  import opened Common

  /** When the fix was taken. */
  datatype Time =
    /** GPS week and the 32-bit pattern of the float holding the seconds of
        the week. */
    | GpsWeek(week: nat, weekTimeBits: bv32)
    /** A calendar date and time of day, as the device sent them. */
    | Calendar(year: int, month: int, day: int, hour: int, minute: int, second: int)

  /** One coordinate. */
  datatype Coordinate =
    /** The 32-bit pattern of a float angle in radians; the decoder converts
        it to degrees. */
    | Radians(bits: bv32)
    /** A hemisphere letter, whole degrees and the minutes as decimal text;
        the decoder converts it to signed degrees. */
    | HemisphereDegreesMinutes(hemisphere: char, degrees: nat, minutes: string)

  /** The value of an attribute or of a numeric position field. */
  datatype Value =
    | Int(i: int)
    /** The 32-bit pattern of a float read by the delta-float reader. */
    | FloatBits(bits: bv32)
    | Text(s: string)
    /** The exact value num / den of a scaled reading (the source computes it
        as a double). */
    | Ratio(num: int, den: nat)
    /** A speed sent in km/h that the source converts to knots. */
    | KnotsFromKph(kph: int)

  /** Attribute keys: the platform's named keys, numbered input channels, and
      the ad-hoc names that the decoders spell out. */
  datatype Key =
    | Named(name: string)
    | Odometer | Fuel | Input | Battery | Power | Gsm | Satellites
    | Status | Mcc | Mnc | Hdop | CellId | Lac
    | Adc(channel: nat)
    | Temperature(sensor: nat)

  datatype Position = Position(
    deviceId: int,
    protocol: string,
    time: Time,
    latitude: Coordinate,
    longitude: Coordinate,
    valid: bool,
    altitude: Option<Value>,
    speed: Option<Value>,
    course: Option<Value>,
    attributes: map<Key, Value>)

  /** A new position: identity and mandatory fields set, not valid, no
      optional field and no attribute. */
  function NewPosition(deviceId: int, protocol: string, time: Time,
                       latitude: Coordinate, longitude: Coordinate): Position
  {
    Position(deviceId, protocol, time, latitude, longitude, false, None, None, None, map[])
  }

  /** `position.set(key, value)`: a later value for the same key replaces the
      earlier one. */
  function Set(p: Position, key: Key, v: Value): (r: Position)
    ensures r.attributes.Keys == p.attributes.Keys + {key} && r.attributes[key] == v
    ensures forall k :: k in p.attributes && k != key ==> r.attributes[k] == p.attributes[k]
    ensures r.(attributes := p.attributes) == p
  {
    p.(attributes := p.attributes[key := v])
  }
}
