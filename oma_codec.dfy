/** The OMA container of `OMAGenerator` (oma_generator.py): a scan record
    serialised little-endian as

      "OMAF" | u32 version = 1 | u32 radius count | u32 timestamp length |
      timestamp (UTF-8) | u32 device length | device (UTF-8) |
      u32 width | u32 height | u32 centre x | u32 centre y |
      f64 area | f64 perimeter | radius count x u16 radius

    with no padding, and the parser that walks the same layout back. */
module OmaCodec {
  import opened Bytes
  import opened Wrappers
  import Utf8

  // ------------------------------------------------------------ data model

  /** An IEEE 754 binary64 value, kept as its eight little-endian bytes
      (what `struct.pack('<d', v)` writes and `struct.unpack('<d', ...)` reads). */
  type F64 = b: seq<Byte> | |b| == 8 witness [0, 0, 0, 0, 0, 0, 0, 0]

  /** The bit pattern of 0.0, which a missing area or perimeter is packed as. */
  const ZeroF64: F64 := [0, 0, 0, 0, 0, 0, 0, 0]

  /** The `measurements` dictionary: each key may be missing. */
  datatype Measurements = Measurements(
    width: Option<int>,
    height: Option<int>,
    area: Option<F64>,
    perimeter: Option<F64>,
    center: Option<(int, int)>)

  /** An empty `measurements` dictionary, which is also what a missing one reads as. */
  const NoMeasurements := Measurements(None, None, None, None, None)

  /** The scan dictionary the encoder reads. A missing `radii` key reads as
      the empty list and is represented by `[]`. */
  datatype ScanData = ScanData(
    timestamp: Option<string>,
    measurements: Measurements,
    radii: seq<int>)

  /** The dictionary `_parse_oma_content` returns: every key present. */
  datatype OmaRecord = OmaRecord(
    version: int,
    timestamp: string,
    deviceInfo: string,
    measurements: Measurements,
    radii: seq<int>)

  /** The value `struct.pack` raised `struct.error` for. */
  datatype Field = RadiusCount | TimestampLength | Width | Height | CenterX | CenterY | Radius

  datatype EncodeError = OutOfRange(field: Field)

  /** Why `_parse_oma_content` raises: `struct.error` on a slice of the
      wrong length, ValueError on a bad magic, UnicodeDecodeError on text
      that is not UTF-8. */
  datatype DecodeError = Truncated | InvalidFormat | InvalidUtf8

  // ------------------------------------------------------------- constants

  /** `b'OMAF'`. */
  const Magic: seq<Byte> := [0x4F, 0x4D, 0x41, 0x46]
  const Version: int := 1
  const DeviceInfo: string := "Huvitz Excelon Frame Scanner"

  /** Byte length of the four u32 and two f64 measurement fields. */
  const FrameDataSize: int := 32

  /** `DeviceInfo.encode('utf-8')`, spelled out byte by byte (the string is
      ASCII); DeviceBytesAreUtf8 proves it is the encoding. */
  const DeviceBytes: seq<Byte> := [
    0x48, 0x75, 0x76, 0x69, 0x74, 0x7A, 0x20, 0x45, 0x78, 0x63, 0x65, 0x6C, 0x6F, 0x6E,
    0x20, 0x46, 0x72, 0x61, 0x6D, 0x65, 0x20, 0x53, 0x63, 0x61, 0x6E, 0x6E, 0x65, 0x72]

  lemma DeviceBytesAreUtf8()
    ensures Utf8.Encode(DeviceInfo) == DeviceBytes
    ensures Utf8.Decode(DeviceBytes).Some? && Utf8.Decode(DeviceBytes).value == DeviceInfo
  {
    Utf8.AsciiEncoding(DeviceInfo, DeviceBytes);
    Utf8.DecodeEncode(DeviceInfo);
  }

  // -------------------------------------------------------------- encoding

  /** `scan_data.get('timestamp', datetime.now().isoformat())`, with the
      clock reading passed in as `now`. */
  function TimestampOf(sd: ScanData, now: string): string {
    sd.timestamp.GetOr(now)
  }

  function CenterOf(m: Measurements): (int, int) {
    m.center.GetOr((0, 0))
  }

  /** `_create_header`: magic, version, radius count, then the timestamp and
      the device string, each after its u32 byte length. */
  function CreateHeader(sd: ScanData, now: string): (r: Result<seq<Byte>, EncodeError>)
    ensures r.Success? <==> IsU32(|sd.radii|) && IsU32(|Utf8.Encode(TimestampOf(sd, now))|)
    ensures r.Success? ==> |r.value| == 48 + |Utf8.Encode(TimestampOf(sd, now))|
    ensures r.Failure? ==> r.error.field in {RadiusCount, TimestampLength}
  {
    if !IsU32(|sd.radii|) then Failure(OutOfRange(RadiusCount))
    else
      var ts := Utf8.Encode(TimestampOf(sd, now));
      if !IsU32(|ts|) then Failure(OutOfRange(TimestampLength))
      else
        Success(Magic + PackU32(Version) + PackU32(|sd.radii|) + PackU32(|ts|) + ts
                + PackU32(|DeviceBytes|) + DeviceBytes)
  }

  /** `_create_frame_data`: `'<4I'` of width, height and centre, then `'<2d'`
      of area and perimeter, a missing key counting as 0 and a missing
      centre as (0, 0). */
  function CreateFrameData(m: Measurements): (r: Result<seq<Byte>, EncodeError>)
    ensures r.Success? <==> IsU32(m.width.GetOr(0)) && IsU32(m.height.GetOr(0))
                            && IsU32(CenterOf(m).0) && IsU32(CenterOf(m).1)
    ensures r.Success? ==> |r.value| == FrameDataSize
  {
    var width := m.width.GetOr(0);
    var height := m.height.GetOr(0);
    var (cx, cy) := CenterOf(m);
    if !IsU32(width) then Failure(OutOfRange(Width))
    else if !IsU32(height) then Failure(OutOfRange(Height))
    else if !IsU32(cx) then Failure(OutOfRange(CenterX))
    else if !IsU32(cy) then Failure(OutOfRange(CenterY))
    else
      Success(PackU32(width) + PackU32(height) + PackU32(cx) + PackU32(cy)
              + m.area.GetOr(ZeroF64) + m.perimeter.GetOr(ZeroF64))
  }

  /** `_create_radius_data`: nothing for an empty list, otherwise one `'<H'`
      per radius. */
  function CreateRadiusData(sd: ScanData): (r: Result<seq<Byte>, EncodeError>)
    ensures r.Success? <==> AllU16(sd.radii)
    ensures r.Success? ==> r.value == PackU16s(sd.radii)
  {
    if sd.radii == [] then Success([])
    else if !AllU16(sd.radii) then Failure(OutOfRange(Radius))
    else Success(PackU16s(sd.radii))
  }

  /** `_build_oma_content`: header, frame data and radius data back to back;
      the first `struct.error` raised is the result. */
  function BuildOmaContent(sd: ScanData, now: string): (r: Result<seq<Byte>, EncodeError>)
    ensures r.Success? <==> Encodable(sd, now)
    ensures r.Success? ==> |r.value| == 80 + |Utf8.Encode(TimestampOf(sd, now))| + 2 * |sd.radii|
  {
    var header :- CreateHeader(sd, now);
    var frame :- CreateFrameData(sd.measurements);
    var radii :- CreateRadiusData(sd);
    Success(header + frame + radii)
  }

  /** The ranges `struct.pack` accepts, one per packed value. */
  predicate Encodable(sd: ScanData, now: string) {
    var m := sd.measurements;
    IsU32(|sd.radii|) && IsU32(|Utf8.Encode(TimestampOf(sd, now))|)
    && IsU32(m.width.GetOr(0)) && IsU32(m.height.GetOr(0))
    && IsU32(CenterOf(m).0) && IsU32(CenterOf(m).1)
    && AllU16(sd.radii)
  }

  // -------------------------------------------------------------- decoding

  /** A value read from the buffer and the offset just after it: the running
      `offset` of `_parse_oma_content`. */
  datatype Parsed<+T> = Parsed(value: T, next: nat)

  /** `c[at:at+n]` handed to a `struct.unpack` format `n` bytes long, which
      raises unless the slice has exactly `n` bytes. */
  function ReadBytes(c: seq<Byte>, at: nat, n: nat): (r: Result<Parsed<seq<Byte>>, DecodeError>)
    ensures r.Success? <==> at + n <= |c| || n == 0
    ensures r.Success? ==> |r.value.value| == n && r.value.next == at + n
    ensures at + n <= |c| ==> r == Success(Parsed(c[at..at + n], at + n))
  {
    var s := PySlice(c, at, at + n);
    if |s| == n then Success(Parsed(s, at + n)) else Failure(Truncated)
  }

  /** `struct.unpack('<I', c[at:at+4])[0]`. */
  function ReadU32(c: seq<Byte>, at: nat): (r: Result<Parsed<nat>, DecodeError>)
    ensures r.Success? <==> at + 4 <= |c|
    ensures r.Success? ==> r.value.next == at + 4 && IsU32(r.value.value)
                           && r.value.value == UnpackU32(c[at..at + 4])
  {
    var b :- ReadBytes(c, at, 4);
    Success(Parsed(UnpackU32(b.value), b.next))
  }

  /** A u32 byte length, then `c[offset:offset+length].decode('utf-8')`. The
      slice is cut short at the end of the buffer without complaint, and the
      offset moves past the declared length whatever the slice held. */
  function ReadText(c: seq<Byte>, at: nat): (r: Result<Parsed<string>, DecodeError>)
    ensures r.Success? <==> at + 4 <= |c|
                            && Utf8.Decode(PySlice(c, at + 4, at + 4 + UnpackU32(c[at..at + 4]))).Some?
    ensures r.Failure? ==> r.error == (if at + 4 <= |c| then InvalidUtf8 else Truncated)
    ensures r.Success? ==> at + 4 <= |c| && r.value.next == at + 4 + UnpackU32(c[at..at + 4])
    ensures r.Success? ==> Utf8.Decode(PySlice(c, at + 4, r.value.next)) == Some(r.value.value)
  {
    var len :- ReadU32(c, at);
    var end := len.next + len.value;
    match Utf8.Decode(PySlice(c, len.next, end))
    case None => Failure(InvalidUtf8)
    case Some(s) => Success(Parsed(s, end))
  }

  /** The measurement block: `'<4I'` width, height, centre x, centre y, then
      `'<2d'` area and perimeter, sixteen bytes each. */
  function ReadMeasurements(c: seq<Byte>, at: nat): (r: Result<Parsed<Measurements>, DecodeError>)
    ensures r.Success? <==> at + FrameDataSize <= |c|
    ensures r.Success? ==> r.value.next == at + FrameDataSize
  {
    var ints :- ReadBytes(c, at, 16);
    var floats :- ReadBytes(c, ints.next, 16);
    Success(Parsed(FrameFields(ints.value, floats.value), floats.next))
  }

  /** The measurements read from the `'<4I'` block and the `'<2d'` block:
      every key present, and packing the fields again gives back both blocks. */
  function FrameFields(ints: seq<Byte>, floats: seq<Byte>): (r: Measurements)
    requires |ints| == 16 && |floats| == 16
    ensures r.width.Some? && r.height.Some? && r.area.Some? && r.perimeter.Some? && r.center.Some?
    ensures IsU32(r.width.value) && IsU32(r.height.value)
            && IsU32(r.center.value.0) && IsU32(r.center.value.1)
    ensures PackU32(r.width.value) + PackU32(r.height.value)
            + PackU32(r.center.value.0) + PackU32(r.center.value.1) == ints
    ensures r.area.value + r.perimeter.value == floats
  {
    PackUnpackU32(ints[0..4]);
    PackUnpackU32(ints[4..8]);
    PackUnpackU32(ints[8..12]);
    PackUnpackU32(ints[12..16]);
    assert ints == ints[0..4] + ints[4..8] + ints[8..12] + ints[12..16];
    assert floats == floats[0..8] + floats[8..16];
    Measurements(
      width := Some(UnpackU32(ints[0..4])),
      height := Some(UnpackU32(ints[4..8])),
      area := Some(floats[0..8]),
      perimeter := Some(floats[8..16]),
      center := Some((UnpackU32(ints[8..12]), UnpackU32(ints[12..16]))))
  }

  /** `list(struct.unpack(f'<{n}H', c[at:at+n*2]))`. */
  function ReadRadii(c: seq<Byte>, at: nat, n: nat): (r: Result<Parsed<seq<int>>, DecodeError>)
    ensures r.Success? <==> at + 2 * n <= |c| || n == 0
    ensures r.Success? ==> |r.value.value| == n && AllU16(r.value.value) && r.value.next == at + 2 * n
  {
    var b :- ReadBytes(c, at, 2 * n);
    Success(Parsed(UnpackU16s(b.value), b.next))
  }

  /** `_parse_oma_content`: each field read at the offset the previous one
      left, the radius count read third and used only for the last section.
      The first read that raises ends the parse. */
  function Decode(c: seq<Byte>): (r: Result<OmaRecord, DecodeError>)
    ensures r.Success? ==> 4 <= |c| && c[..4] == Magic
  {
    var magic :- ReadBytes(c, 0, 4);
    if magic.value != Magic then Failure(InvalidFormat)
    else
      var version :- ReadU32(c, magic.next);
      var numRadii :- ReadU32(c, version.next);
      var timestamp :- ReadText(c, numRadii.next);
      var device :- ReadText(c, timestamp.next);
      var measurements :- ReadMeasurements(c, device.next);
      var radii :- ReadRadii(c, measurements.next, numRadii.value);
      Success(OmaRecord(version.value, timestamp.value, device.value, measurements.value, radii.value))
  }
}
