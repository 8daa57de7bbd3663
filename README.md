# GPS tracker decoders: AutoFon framing, MTA6 binary records, Flextrack sentences

This project models three decoders from the ingestion layer of a GPS-tracking
platform and proves properties of them in Dafny.

- **AutoFon frame decoder.** A stream framer. The first byte of a message
  names its type, and each of the three known types has a fixed total length
  (12, 78 or 257 bytes). A frame is handed out only when all of its bytes are
  buffered, and then the reader index moves past it. Otherwise nothing is
  consumed: a short buffer waits, and so does a buffer whose type byte is
  unknown.
- **MTA6 HTTP decoder.** An HTTP request body has this layout:
  - `id=<unique id>&bin=`;
  - a five-byte packet header: packet id, data offset, packet count, a
    reserved byte and the time zone;
  - padding up to the data offset;
  - the records.

  For a known device on a channel, the decoder first writes `100 Continue`.
  It then writes an acknowledgement `#ACK#`, followed by the packet id, the
  packet count and a zero byte. Without a channel nothing is written. Only packet ids 0x31, 0x32 and 0x36 are parsed. Each record has:
  - a flags byte;
  - an event chain to skip;
  - two delta-compressed coordinates (the `FloatReader`);
  - a delta-compressed time of week, plus a GPS week number that is read
    once (the `TimeReader`);
  - the groups selected by the flags.

  A full packet holds as many format A records as fit. The readers' state
  carries from one record to the next. A record cut short ends the list, and
  the records before it are kept. A "simple" packet holds one format A1
  record, which uses fresh readers and a different group layout. If that
  record is cut short, the whole packet fails.
- **Flextrack sentence decoder.** This decoder reads comma-separated
  sentences:
  - A `LOGON` sentence binds the connection to a device. The ICCID is tried
    first and the node id second. The sentence is acknowledged with
    `<index>,ACK\r` before the identity is tried.
  - A `UNITSTAT` sentence is decoded only for a bound connection. It gives
    one position and is acknowledged the same way.
  - A sentence that fails its pattern is neither acknowledged nor decoded.

## Modules

- `Common`: bytes as `bv8`, the `Option` failure type used with `:-`, and
  `Step`, a value with the index after it.
- `Buffers`: the typed big-endian reads as functions over a byte sequence and
  a start index. `ChannelBuffer` is the mutable buffer with a reader index,
  and its methods perform those reads.
- `Positions`: the position report. Float-valued fields are kept as their
  32-bit pattern or as an exact ratio.
- `Strings`: digits in radix 10 and 16, number formatting and parsing, comma
  splitting, and substring search.
- `AutoFon`: the framer. It has a specification function, `DecodeFrame`, and
  the method over the buffer, `Decode`.
- `Mta6Readers`: one delta-float step, `FloatStep`, and one time step,
  `TimeStep`. It also holds the `FloatReader` and `TimeReader` classes, whose
  fields are updated in place, and an encoder used as the round-trip partner.
- `Mta6Layout`: the record layout as functions:
  - the event chain, `EventsEnd`;
  - the groups of both formats;
  - `RecordA`, `FormatA` and `RecordA1`.
- `Mta6Parser`: the imperative parser. The event-skip loop, the group reads,
  the record loop and the A1 record are methods, each proved against the
  matching `Mta6Layout` function.
- `Mta6Decoder`: the header walk, the response, and `decode`. They appear as
  the function `DecodeRequest` and as the class method
  `Mta6ProtocolDecoder.Decode`.
- `Flextrack`: the decision function `Decode`. It gives the position, the
  effects in order (writes and identity attempts) and the binding afterwards.

External collaborators are parameters:
- Device identity is a map from unique id to device id.
- The presence of a channel is a boolean.
- The protocol name is a string.

## Model

All source paths are under `src/org/traccar/protocol/`.

| member | source | states |
|---|---|---|
| AutoFon.FrameLength | src/org/traccar/protocol/AutoFonFrameDecoder.java:40-54 | Unknown type bytes get length 0. The three known types get a length of at least the 12-byte minimum. |
| AutoFon.DecodeFrame | src/org/traccar/protocol/AutoFonFrameDecoder.java:30-62 | One call of the framer on the readable bytes: the frame, if any, and the bytes left readable. What it gives is stated by `DecodeFrameSpec`. |
| AutoFon.DecodeFrameSpec | src/org/traccar/protocol/AutoFonFrameDecoder.java:35-61 | A frame comes out exactly when the buffer is non-empty, the type is known and the whole length is buffered. The frame is then a well-formed frame and frame + remainder is the input. Otherwise nothing is consumed. |
| AutoFon.UnknownTypeStalls | src/org/traccar/protocol/AutoFonFrameDecoder.java:51-61 | An unknown type byte never yields a frame or consumes anything, however many bytes are buffered. |
| AutoFon.WaitingIsIdempotent | src/org/traccar/protocol/AutoFonFrameDecoder.java:35-38 | A call that yields nothing can be repeated with the same answer. |
| AutoFon.DecodeFrameExtends | src/org/traccar/protocol/AutoFonFrameDecoder.java:56-59 | Bytes arriving after a complete frame change neither the frame nor what follows it, apart from being appended. |
| AutoFon.SplitFrameReassembles | src/org/traccar/protocol/AutoFonFrameDecoder.java:35-61 | A frame split across deliveries gives nothing for its first part. Once the rest arrives, the whole frame comes out. |
| AutoFon.FrameAtFront | src/org/traccar/protocol/AutoFonFrameDecoder.java:56-59 | A complete frame at the front comes out whole, whatever follows it. |
| AutoFon.DrainRecoversFrames | src/org/traccar/protocol/AutoFonFrameDecoder.java:30-62 | Repeated calls on back-to-back frames give the frames in order, unchanged, and leave the incomplete tail buffered. |
| AutoFon.Decode | src/org/traccar/protocol/AutoFonFrameDecoder.java:30-62 | The method over the buffer returns the frame `DecodeFrame` gives. The readable bytes afterwards are its remainder. |
| Buffers.IndexOf | src/org/traccar/protocol/Mta6ProtocolDecoder.java:284 | Finds the first occurrence at or after the start index, or reports that there is none. |
| Positions.Set | src/org/traccar/protocol/Mta6ProtocolDecoder.java:157-163 | Setting an attribute adds or replaces that key only. Every other key and every other field is kept. |
| Mta6Readers.Width | src/org/traccar/protocol/Mta6ProtocolDecoder.java:73-85 | The two top bits of the lead byte select a width of 1 to 4 bytes. The width is 4 exactly for mode 0. |
| Mta6Readers.Whole | src/org/traccar/protocol/Mta6ProtocolDecoder.java:75 | `readInt() << 2` wraps at 32 bits: the low two bits are clear and the rest is the word's low 30 bits. |
| Mta6Readers.Splice8 | src/org/traccar/protocol/Mta6ProtocolDecoder.java:78 | The previous value's high 24 bits are kept. The low byte is the byte's low 6 bits shifted left by 2. |
| Mta6Readers.Splice16 | src/org/traccar/protocol/Mta6ProtocolDecoder.java:81 | The previous value's high 16 bits are kept. The low half is the short's low 14 bits shifted left by 2. |
| Mta6Readers.Splice24 | src/org/traccar/protocol/Mta6ProtocolDecoder.java:84 | The previous value's high 8 bits are kept. The low 24 bits are the medium's low 22 bits shifted left by 2. |
| Mta6Readers.FloatStep | src/org/traccar/protocol/Mta6ProtocolDecoder.java:72-91 | One `readFloat` on a byte sequence: the new remembered pattern and the index after it, or failure when the bytes run out. Its width, low bits and kept bits are stated by the `FloatStep…` lemmas. |
| Mta6Readers.FloatStepWidth | src/org/traccar/protocol/Mta6ProtocolDecoder.java:72-89 | The mode is always 0 to 3, so the warning branch cannot be reached. A float read succeeds exactly when the lead byte and its whole width are available, and it advances by that width. |
| Mta6Readers.FloatStepLowBits | src/org/traccar/protocol/Mta6ProtocolDecoder.java:74-85 | Every value read has its low two bits clear. |
| Mta6Readers.FloatStepWholeWord | src/org/traccar/protocol/Mta6ProtocolDecoder.java:74-76 | A mode-0 read does not depend on the previous value. |
| Mta6Readers.FloatStepKeeps24 | src/org/traccar/protocol/Mta6ProtocolDecoder.java:77-79 | A mode-1 read keeps the previous value's high 24 bits. |
| Mta6Readers.FloatStepKeeps16 | src/org/traccar/protocol/Mta6ProtocolDecoder.java:80-82 | A mode-2 read keeps the previous value's high 16 bits. |
| Mta6Readers.FloatStepKeeps8 | src/org/traccar/protocol/Mta6ProtocolDecoder.java:83-85 | A mode-3 read keeps the previous value's high 8 bits. |
| Mta6Readers.FloatRoundTrip | src/org/traccar/protocol/Mta6ProtocolDecoder.java:72-91 | Any value with its low two bits clear, encoded relative to the previous value in the shortest mode, reads back as itself, whatever surrounds it. |
| Mta6Readers.FloatsRoundTrip | src/org/traccar/protocol/Mta6ProtocolDecoder.java:72-91 | A run of such values through one reader, each delta-encoded against the one before, reads back in order. |
| Mta6Readers.FloatReader.constructor | src/org/traccar/protocol/Mta6ProtocolDecoder.java:68-70 | A new reader starts from 0. |
| Mta6Readers.FloatReader.ReadFloat | src/org/traccar/protocol/Mta6ProtocolDecoder.java:72-91 | The method performs `FloatStep` on the buffer. It updates `previousFloat` to the value read, and on failure it leaves both the reader and the buffer unchanged. |
| Mta6Readers.TimeStep | src/org/traccar/protocol/Mta6ProtocolDecoder.java:99-104 | One `readTime` up to the date arithmetic: the float, then the week while none is known. When the week is read is stated by `TimeStepWeek`. |
| Mta6Readers.TimeStepWeek | src/org/traccar/protocol/Mta6ProtocolDecoder.java:99-104 | The week number is read, as the unsigned short after the float, only while it is still 0. Afterwards it is kept. |
| Mta6Readers.TimeReader.constructor | src/org/traccar/protocol/Mta6ProtocolDecoder.java:95-97 | A new time reader starts with week 0 and float 0. |
| Mta6Readers.TimeReader.ReadTime | src/org/traccar/protocol/Mta6ProtocolDecoder.java:99-109 | The method performs `TimeStep`. It returns the week and the time-of-week float and updates both readers' state. A failed week read leaves the week unchanged. |
| Mta6Layout.ChainEndMeaning | src/org/traccar/protocol/Mta6ProtocolDecoder.java:133-135 | The event chain ends right after the first byte with bit 7 clear, and every byte before that one has bit 7 set. This is stated both ways. |
| Mta6Layout.EventsEndCases | src/org/traccar/protocol/Mta6ProtocolDecoder.java:128-137 | An event byte with bit 7 clear stands alone. With bits 7 and 6 set, 8 more bytes are skipped. With bit 7 set and bit 6 clear, the chain follows. |
| Mta6Layout.EventsEnd | src/org/traccar/protocol/Mta6ProtocolDecoder.java:128-137 | The event skip ends after at least one byte and within the body. Its cases are stated by `EventsEndCases` and `ChainEndMeaning`. |
| Mta6Layout.GroupAWidth | src/org/traccar/protocol/Mta6ProtocolDecoder.java:143-190 | Format A group k consumes exactly 1, 2, 3, 2, 12, 8, 5 or 4 bytes, and succeeds exactly when they are available. |
| Mta6Layout.GroupsAWidth | src/org/traccar/protocol/Mta6ProtocolDecoder.java:143-190 | The groups consume the sum of the sizes of the set flag bits. |
| Mta6Layout.NoFlagsNoGroups | src/org/traccar/protocol/Mta6ProtocolDecoder.java:143-269 | A zero flags byte reads nothing and changes nothing, in format A and in format A1. |
| Mta6Layout.PowerASatellites | src/org/traccar/protocol/Mta6ProtocolDecoder.java:180-190 | Format A satellites are the low 4 bits of the last byte, and the fix is valid exactly when there are at least 3. GSM is bits 4 to 6 of that byte, and battery is the top 6 bits of the first byte. |
| Mta6Layout.PowerA1Satellites | src/org/traccar/protocol/Mta6ProtocolDecoder.java:259-269 | Format A1 satellites are the low 5 bits, and the fix is valid exactly when there are at least 3. GSM is the top 3 bits. |
| Mta6Layout.RecordA | src/org/traccar/protocol/Mta6ProtocolDecoder.java:122-191 | One format A record: the head read with the carried readers, then the groups the flags select. Its width, extension and cut properties are stated by `RecordAProgress`, `RecordAExtends`, `RecordARestricts` and `RecordACut`. |
| Mta6Layout.FormatA | src/org/traccar/protocol/Mta6ProtocolDecoder.java:113-198 | The record loop of `parseFormatA`: records while bytes remain, the readers carried from one record to the next, stopping at the first record cut short. Its properties are stated by the `FormatA…` lemmas. |
| Mta6Layout.RecordA1 | src/org/traccar/protocol/Mta6ProtocolDecoder.java:200-274 | The single format A1 record: the head with fresh readers, the status byte and the A1 groups; any short read fails it. `ParseFormatA1` is proved against it. What it keeps of the head is stated by `RecordA1Fix`, and how it relates to format A by `RecordA1Unflagged`. |
| Mta6Layout.GroupA1KeepsFix | src/org/traccar/protocol/Mta6ProtocolDecoder.java:225-269 | No format A1 group changes the device, the protocol, the time or the coordinates. Bits 6 and 7 read nothing. |
| Mta6Layout.GroupsA1KeepFix | src/org/traccar/protocol/Mta6ProtocolDecoder.java:225-269 | The format A1 groups together leave the device, the protocol, the time and the coordinates as the head set them. |
| Mta6Layout.RecordA1Fix | src/org/traccar/protocol/Mta6ProtocolDecoder.java:200-274 | A simple packet's position has the device id and protocol it was decoded for. Its coordinates and time come from one head read with fresh readers, and the time is the week and time of week read from this record alone. |
| Mta6Layout.RecordA1Unflagged | src/org/traccar/protocol/Mta6ProtocolDecoder.java:200-274 | A record without flags gives the same position in format A1 as in format A from fresh readers, provided the status byte that only A1 reads is there. Without that byte, A1 fails. |
| Mta6Layout.RecordAProgress | src/org/traccar/protocol/Mta6ProtocolDecoder.java:121-191 | Every record consumes at least 5 bytes, so the record loop ends. |
| Mta6Layout.GroupAExtends | src/org/traccar/protocol/Mta6ProtocolDecoder.java:143-190 | A group that succeeds reads the same when more bytes follow. |
| Mta6Layout.RecordAExtends | src/org/traccar/protocol/Mta6ProtocolDecoder.java:121-191 | A record that succeeds reads the same when more bytes follow. |
| Mta6Layout.RecordARestricts | src/org/traccar/protocol/Mta6ProtocolDecoder.java:121-191 | A record of the longer body that ends within the shorter one reads the same from the shorter one. |
| Mta6Layout.RecordACut | src/org/traccar/protocol/Mta6ProtocolDecoder.java:121-195 | A record of the longer body that ends past the shorter one fails on the shorter one. |
| Mta6Layout.RecordEndsA | src/org/traccar/protocol/Mta6ProtocolDecoder.java:121-192 | There is one record end per position, each after the start and within the body. |
| Mta6Layout.RecordEndsIncrease | src/org/traccar/protocol/Mta6ProtocolDecoder.java:121-192 | Record ends increase strictly, so the records that end within a prefix are a leading run. |
| Mta6Layout.EndsWithin | src/org/traccar/protocol/Mta6ProtocolDecoder.java:121-195 | Counts the leading record ends within a bound: all before the count are within it, and the next one, if any, is past it. |
| Mta6Layout.FormatACut | src/org/traccar/protocol/Mta6ProtocolDecoder.java:113-198 | If the first k records of the longer body end within the shorter one and the next one does not, the shorter body gives exactly the first k positions of the longer one. |
| Mta6Layout.FormatAKeepsCompleted | src/org/traccar/protocol/Mta6ProtocolDecoder.java:113-198 | A body cut short gives exactly the positions of the records that were completed before the cut, unchanged and in order. |
| Mta6Layout.FormatAPrefix | src/org/traccar/protocol/Mta6ProtocolDecoder.java:113-198 | More bytes never lose positions: the positions of a body are a prefix of the positions of any extension of it. Which prefix is stated by `FormatAKeepsCompleted`. |
| Mta6Layout.ShortTailYieldsNothing | src/org/traccar/protocol/Mta6ProtocolDecoder.java:193-197 | A tail shorter than a record yields no position, and it is not an error. |
| Mta6Layout.MinimalRecordsCount | src/org/traccar/protocol/Mta6ProtocolDecoder.java:121-192 | n minimal records followed by a short tail give exactly n positions. |
| Mta6Layout.FreshPacketCount | src/org/traccar/protocol/Mta6ProtocolDecoder.java:116-192 | From fresh readers, a first record that carries the week number, n minimal records and a short tail give n + 1 positions. |
| Mta6Layout.GroupsAKeepTime | src/org/traccar/protocol/Mta6ProtocolDecoder.java:143-190 | No flag group changes a position's time. |
| Mta6Layout.GroupAKeepsTime | src/org/traccar/protocol/Mta6ProtocolDecoder.java:143-190 | Each format A group, whichever bit gates it, leaves the position's time as it was. |
| Mta6Layout.SensorsAt | src/org/traccar/protocol/Mta6ProtocolDecoder.java:173-177 | The sensors group takes five bytes. Temperature 1 is the signed first byte and the input is the low 12 bits of the next two. The last two bytes are dropped. |
| Mta6Layout.FixAKeepsWeek | src/org/traccar/protocol/Mta6ProtocolDecoder.java:99-104 | Once the time reader knows a week, reading a fix keeps it. |
| Mta6Layout.RecordATime | src/org/traccar/protocol/Mta6ProtocolDecoder.java:99-104 | A record's time is the week and time of week the time reader holds after it, and a week already known is kept. |
| Mta6Layout.FormatAFirst | src/org/traccar/protocol/Mta6ProtocolDecoder.java:121-192 | A non-empty body splits into its first position and the positions from where that record ends, with the readers it leaves. |
| Mta6Layout.FormatAOneWeek | src/org/traccar/protocol/Mta6ProtocolDecoder.java:99-104 | Readers that know a week put every position of the body in that week: the week is not read again. |
| Mta6Layout.FormatAWeekOfFirst | src/org/traccar/protocol/Mta6ProtocolDecoder.java:113-141 | Every position carries a GPS time, and once the first one carries a nonzero week, every later one carries the same week. |
| Mta6Parser.SkipEvents | src/org/traccar/protocol/Mta6ProtocolDecoder.java:128-137 | The loop succeeds exactly when `EventsEnd` does, and then leaves the reader index at its end. |
| Mta6Parser.ReadStatusA | src/org/traccar/protocol/Mta6ProtocolDecoder.java:143-145 | Reads the status byte and ignores it, as `StatusA`. |
| Mta6Parser.ReadAltitudeA | src/org/traccar/protocol/Mta6ProtocolDecoder.java:147-149 | Sets the altitude from an unsigned short, as `AltitudeA`. |
| Mta6Parser.ReadMotionA | src/org/traccar/protocol/Mta6ProtocolDecoder.java:151-154 | Sets the speed from the short's low 10 bits and the course from a byte, as `MotionA`. |
| Mta6Parser.ReadOdometerA | src/org/traccar/protocol/Mta6ProtocolDecoder.java:156-158 | Sets the odometer, as `OdometerA`. |
| Mta6Parser.ReadFuelA | src/org/traccar/protocol/Mta6ProtocolDecoder.java:160-164 | Sets the fuel to two unsigned ints as "a\|b" and sets hours1 and hours2, as `FuelA`. |
| Mta6Parser.ReadAnalogA | src/org/traccar/protocol/Mta6ProtocolDecoder.java:166-171 | Sets ADC 1 to 4, each from the low 10 bits, as `AnalogA`. |
| Mta6Parser.ReadSensors | src/org/traccar/protocol/Mta6ProtocolDecoder.java:173-178 | Sets temperature 1 from a signed byte and the input from the low 12 bits, after a peek, then drops a short, as `Sensors`. |
| Mta6Parser.ReadPowerA | src/org/traccar/protocol/Mta6ProtocolDecoder.java:180-190 | Reads the power group with its two peeks, as `PowerA`. |
| Mta6Parser.ReadGroupA | src/org/traccar/protocol/Mta6ProtocolDecoder.java:143-190 | Dispatches by flag bit to the matching group, as `GroupA`. |
| Mta6Parser.ReadGroupsA | src/org/traccar/protocol/Mta6ProtocolDecoder.java:143-190 | Reads the groups of the set flag bits, in bit order, as `GroupsA`. |
| Mta6Parser.ReadLaterGroupsA | src/org/traccar/protocol/Mta6ProtocolDecoder.java:160-190 | Reads the groups of flag bits 4 to 7, as `GroupsA` from bit 4. |
| Mta6Parser.ParseHeadA | src/org/traccar/protocol/Mta6ProtocolDecoder.java:126-141 | Reads the flags, skips the events, and reads both coordinates and the time with the given readers, as `HeadA`. The readers end in `HeadA`'s new state. |
| Mta6Parser.ParseRecordA | src/org/traccar/protocol/Mta6ProtocolDecoder.java:121-191 | Reads one record, as `RecordA`. On success the readers and the reader index are left as `RecordA` gives them. |
| Mta6Parser.ParseFormatA | src/org/traccar/protocol/Mta6ProtocolDecoder.java:113-198 | The record loop returns exactly the positions `FormatA` gives from fresh readers. A record cut short ends it, and the earlier positions are kept. |
| Mta6Parser.ReadMotionA1 | src/org/traccar/protocol/Mta6ProtocolDecoder.java:225-230 | Sets the altitude, the speed, the signed course and the odometer (a float from a fresh reader), as `MotionA1`. |
| Mta6Parser.ReadEngineA1 | src/org/traccar/protocol/Mta6ProtocolDecoder.java:232-236 | Drops a float, then sets hours (a float) and tank (2/5 of a byte), as `EngineA1`. |
| Mta6Parser.ReadCanA1 | src/org/traccar/protocol/Mta6ProtocolDecoder.java:238-243 | Sets engine (a short / 8), pedals and temperature (a byte − 40), then drops a short, as `CanA1`. |
| Mta6Parser.ReadAnalogA1 | src/org/traccar/protocol/Mta6ProtocolDecoder.java:245-250 | Sets the fuel and ADC 2 to 4, unmasked, as `AnalogA1`. |
| Mta6Parser.ReadPowerA1 | src/org/traccar/protocol/Mta6ProtocolDecoder.java:259-269 | Reads the A1 power group, as `PowerA1`. |
| Mta6Parser.ReadGroupA1 | src/org/traccar/protocol/Mta6ProtocolDecoder.java:225-269 | Dispatches by flag bit. Bits 6 and 7 read nothing. As `GroupA1`. |
| Mta6Parser.ReadGroupsA1 | src/org/traccar/protocol/Mta6ProtocolDecoder.java:225-269 | Reads the groups of the set flag bits, as `GroupsA1`. |
| Mta6Parser.ReadLaterGroupsA1 | src/org/traccar/protocol/Mta6ProtocolDecoder.java:245-269 | Reads the groups of flag bits 3 to 7, as `GroupsA1` from bit 3. |
| Mta6Parser.ParseFormatA1 | src/org/traccar/protocol/Mta6ProtocolDecoder.java:200-274 | Returns exactly `RecordA1`: the head with fresh readers, the status byte and the groups. A read past the end fails the whole packet. |
| Mta6Decoder.AckBody | src/org/traccar/protocol/Mta6ProtocolDecoder.java:54-66 | The acknowledgement is 8 bytes: "#ACK#", the packet id, the packet count and a zero byte. |
| Mta6Decoder.AckRoundTrip | src/org/traccar/protocol/Mta6ProtocolDecoder.java:58-64 | The acknowledgement parses back to exactly its packet id and count, and nothing else parses as an acknowledgement. |
| Mta6Decoder.HeaderWalk | src/org/traccar/protocol/Mta6ProtocolDecoder.java:283-297 | The walk over `id=`, the unique id up to `&`, `&bin=` and the packet header: failure, an unknown device, or the device, packet id and count and a start of records within the body. |
| Mta6Decoder.DecodeRequest | src/org/traccar/protocol/Mta6ProtocolDecoder.java:277-313 | `decode` as a function of the request bytes: the outcome and the writes in order. Its properties are stated by the lemmas below. |
| Mta6Decoder.HeaderRoundTrip | src/org/traccar/protocol/Mta6ProtocolDecoder.java:283-297 | A request built from a unique id without '&', a packet header and padding matching the offset walks to the device, the packet id and count, and the start of the records. |
| Mta6Decoder.PacketHeaderAt | src/org/traccar/protocol/Mta6ProtocolDecoder.java:292-297 | The five header bytes give the packet id and count, and the records start offset − 5 bytes after them. |
| Mta6Decoder.PacketHeaderFront | src/org/traccar/protocol/Mta6ProtocolDecoder.java:292-297 | With three bytes in place and a tail that succeeds, the header's packet id and count are the first and third bytes, and the records start where the tail ends. |
| Mta6Decoder.PacketTailAt | src/org/traccar/protocol/Mta6ProtocolDecoder.java:295-297 | After the reserved and time zone bytes, a padding of offset − 5 bytes that fits ends the header. |
| Mta6Decoder.UnknownDeviceSilent | src/org/traccar/protocol/Mta6ProtocolDecoder.java:283-288 | An unknown device gets nothing written and nothing decoded. |
| Mta6Decoder.AckPrecedesParsing | src/org/traccar/protocol/Mta6ProtocolDecoder.java:299-302 | A known device on a channel gets `100 Continue` and the acknowledgement of its packet id and count, whatever the records hold. Without a channel nothing is written. |
| Mta6Decoder.PacketFilter | src/org/traccar/protocol/Mta6ProtocolDecoder.java:304-312 | A packet is parsed exactly when its id is 0x31, 0x32 or 0x36: into a list, or into one position when simple. |
| Mta6Decoder.DecodeRoundTrip | src/org/traccar/protocol/Mta6ProtocolDecoder.java:277-313 | A full decoder on a channel answers a well-formed position request with the acknowledgement and the format A positions of the records. |
| Mta6Decoder.Mta6ProtocolDecoder.constructor | src/org/traccar/protocol/Mta6ProtocolDecoder.java:40-45 | The decoder keeps the protocol and the `simple` switch. |
| Mta6Decoder.Mta6ProtocolDecoder.ReadHeader | src/org/traccar/protocol/Mta6ProtocolDecoder.java:283-297 | Walks the header on the buffer, as `HeaderWalk`. For a known device it leaves the reader index at the records. |
| Mta6Decoder.Mta6ProtocolDecoder.ReadPacketHeader | src/org/traccar/protocol/Mta6ProtocolDecoder.java:292-297 | Reads the five header bytes and skips the padding, as `PacketHeader`. |
| Mta6Decoder.Mta6ProtocolDecoder.ReadPacketTail | src/org/traccar/protocol/Mta6ProtocolDecoder.java:295-297 | Reads and drops the reserved and time zone bytes, then skips the padding, as `PacketTail`. On success the reader index is at the records. |
| Mta6Decoder.Mta6ProtocolDecoder.Decode | src/org/traccar/protocol/Mta6ProtocolDecoder.java:277-313 | `decode` on the buffer gives exactly `DecodeRequest`: the outcome and the writes in order. |
| Strings.ParseNatText | src/org/traccar/protocol/FlextrackProtocolDecoder.java:118-130 | A number written in radix 10 or 16 parses back to itself. |
| Strings.ParseIntText | src/org/traccar/protocol/FlextrackProtocolDecoder.java:120-125 | A signed number written as `-?d+` parses back to itself, sign included. |
| Strings.PaddedText | src/org/traccar/protocol/FlextrackProtocolDecoder.java:45-57 | A number zero-padded to a fixed width is exactly that many decimal digits. |
| Strings.ParsePaddedText | src/org/traccar/protocol/FlextrackProtocolDecoder.java:45-57 | A number below ten to the width, zero-padded to that width, parses back to itself. |
| Strings.ContainsAt | src/org/traccar/protocol/FlextrackProtocolDecoder.java:78 | `contains` holds exactly when the text occurs at some index. |
| Flextrack.Acknowledgement | src/org/traccar/protocol/FlextrackProtocolDecoder.java:66-70 | With a channel, exactly one write of `<index>,ACK\r`. Without one, nothing. |
| Flextrack.AckEchoesIndex | src/org/traccar/protocol/FlextrackProtocolDecoder.java:66-70 | The acknowledgement splits back into the index and "ACK\r". |
| Flextrack.UnitstatPosition | src/org/traccar/protocol/FlextrackProtocolDecoder.java:101-130 | The position a matching UNITSTAT sentence gives, field by field. What it reads back is stated by `UnitstatRoundTrip`. |
| Flextrack.Decode | src/org/traccar/protocol/FlextrackProtocolDecoder.java:72-136 | The binding changes only on a LOGON sentence. A position comes only from a non-LOGON sentence on a bound connection, for the bound device, and leaves the binding as it was. |
| Flextrack.LogonTakesPrecedence | src/org/traccar/protocol/FlextrackProtocolDecoder.java:78-94 | A sentence containing LOGON never gives a position, even if it also contains UNITSTAT. If it fails the LOGON pattern, it writes nothing and keeps the binding. |
| Flextrack.LogonIdentity | src/org/traccar/protocol/FlextrackProtocolDecoder.java:85-92 | The acknowledgement comes before every identity attempt. The ICCID is tried first, without a warning. The node id is tried only when the ICCID is unknown. The binding afterwards is the first key that resolves. When neither resolves, the connection is unbound or keeps its old binding, as the identity lookup does. |
| Flextrack.UnitstatNeedsBinding | src/org/traccar/protocol/FlextrackProtocolDecoder.java:94-99 | An unbound connection, or a sentence that fails the UNITSTAT pattern, gets no position and no write. |
| Flextrack.UnitstatReports | src/org/traccar/protocol/FlextrackProtocolDecoder.java:94-132 | A matching UNITSTAT on a bound connection gives one valid position for the bound device and exactly one acknowledgement echoing the index. |
| Flextrack.UnitstatFieldsCommaFree | src/org/traccar/protocol/FlextrackProtocolDecoder.java:42-64 | No field of the UNITSTAT pattern can hold a comma, so the fields are the comma-separated parts. |
| Flextrack.UnitstatNeverLogon | src/org/traccar/protocol/FlextrackProtocolDecoder.java:42-64 | A sentence matching the UNITSTAT pattern never contains LOGON. |
| Flextrack.LogonRoundTrip | src/org/traccar/protocol/FlextrackProtocolDecoder.java:35-40 | A LOGON sentence written out from its index, node id and ICCID is acknowledged with that index. The ICCID and then the node id are tried. |
| Flextrack.ReadingsMatch | src/org/traccar/protocol/FlextrackProtocolDecoder.java:43-63 | Readings written into matching fields still match the pattern: unsigned numbers in their radix, GSM and altitude with an optional minus sign, and the date, time and MCC/MNC groups zero-padded to their widths. |
| Flextrack.UnitstatRoundTrip | src/org/traccar/protocol/FlextrackProtocolDecoder.java:101-130 | Readings that fit their groups, written into matching fields, come back whole. The time is the calendar instant of the year, month, day, hour, minute and second written. The speed is converted from km/h to knots, and the course and signed altitude are kept. Every attribute is kept: satellites, battery, GSM, status, MCC, MNC, HDOP, cell, LAC and odometer. |
| Flextrack.AttributesRoundTrip | src/org/traccar/protocol/FlextrackProtocolDecoder.java:118-130 | The satellites, battery, HDOP and odometer are read in decimal, and the status, cell and LAC in hexadecimal. Each reading written in its radix comes back as the same attribute value. |
| Flextrack.NetworkRoundTrip | src/org/traccar/protocol/FlextrackProtocolDecoder.java:120-123 | The GSM level is read as a signed decimal, and the MCC and MNC from the `(ddd)(dd)` groups of one field. A signed GSM level and an MCC below 1000 and an MNC below 100, zero-padded, come back as the same attributes. |
| Flextrack.DateDigits | src/org/traccar/protocol/FlextrackProtocolDecoder.java:107-108 | A year below 10000, a month and a day below 100, zero-padded as `(dddd)(dd)(dd)`, read back as the three numbers. |
| Flextrack.TimeDigits | src/org/traccar/protocol/FlextrackProtocolDecoder.java:107-109 | An hour, a minute and a second below 100, zero-padded as `(dd)(dd)(dd)`, read back as the three numbers. |
| Flextrack.NetworkDigits | src/org/traccar/protocol/FlextrackProtocolDecoder.java:122-123 | An MCC below 1000 and an MNC below 100, zero-padded as `(ddd)(dd)`, read back as the two numbers. |
| Flextrack.UnitstatSentence | src/org/traccar/protocol/FlextrackProtocolDecoder.java:94-132 | Matching fields joined with commas decode, on a bound connection, to the position those fields give, and are acknowledged. |

## Left out

- Floating point is left out. The coordinates and the time of week are kept
  as the 32-bit pattern of the float (`Float.intBitsToFloat`). Neither the
  radians-to-degrees scaling nor the seconds-to-milliseconds truncation of the
  time of week is modelled. Decimal scale factors are exact ratios:
  - tank × 0.4;
  - engine × 0.125;
  - HDOP × 0.1.

  The km/h-to-knots conversion is recorded, not computed.
- Mta6Readers.TimeReader.ReadTime: returns the GPS week and the float
  pattern, not a calendar date, because the date arithmetic
  (`DateBuilder`) is not part of this model. The instant is the GPS epoch,
  1980-01-06, plus that many weeks and the time of week.
- Logging is left out: the warning for an impossible float mode and the
  warning on a truncated format A packet.
- HTTP objects: the `100 Continue` and `200 OK` responses appear only as the
  `Response` values written, in order.
- Device identity is a map from unique id to device id. Identification
  succeeds exactly for keys in the map. The identity lookup belongs to the
  decoders' common base class, which is not part of this model, so whether a
  failed lookup unbinds the connection is the parameter `clearsOnMiss` of
  `Flextrack.Decode`. The identity manager is not part of this model.
- Mta6Decoder.HeaderWalk: the unique id is taken as bytes. The source decodes
  it with the platform charset and then skips as many bytes as the decoded
  string has characters. The two agree only for single-byte charsets.
- Mta6Parser.ParseFormatA: does not state the reader index after a record
  that was cut short, because the packet's buffer is discarded after
  decoding.
- Mta6Parser.ParseRecordA: does not state the readers' state or the reader
  index after a failed record, for the same reason.
- Flextrack.Decode: a numeric field beyond the 32-bit range would make Java's
  integer parse throw. The model parses unbounded integers. The `Parser`
  helper is not part of this model.
- Flextrack.Decode: the pattern match is modelled as a whole-sentence match,
  field by field, over the comma-separated parts. No field of either pattern
  can contain a comma. The regular-expression engine and the `Parser` helper
  are not part of this model.
- Flextrack.CoordinateOf: keeps the hemisphere, the whole degrees and the
  minutes text. The conversion to signed decimal degrees is left out.
- The date and time fields of UNITSTAT are kept as the numbers sent. The
  conversion to an instant (`DateBuilder`) is left out.
