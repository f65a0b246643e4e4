/** What the OMA codec promises: where each field sits in an encoding, when
    encoding succeeds, that parsing gives the record back, and how the
    parser rejects a buffer that is not a whole encoding. */
module OmaProperties {
  import opened Bytes
  import opened Wrappers
  import Utf8
  import opened OmaCodec

  // ------------------------------------------------------------- positions

  /** `c` holds `x` starting at byte `at`. */
  predicate At(c: seq<Byte>, at: nat, x: seq<Byte>) {
    at + |x| <= |c| && c[at..at + |x|] == x
  }

  lemma AtSplit(c: seq<Byte>, at: nat, x: seq<Byte>, y: seq<Byte>)
    requires At(c, at, x + y)
    ensures At(c, at, x) && At(c, at + |x|, y)
  {
    assert c[at..at + |x|] == (x + y)[..|x|];
    assert c[at + |x|..at + |x| + |y|] == (x + y)[|x|..];
  }

  /** A part found inside a part of `c` is in `c`, at the sum of the offsets. */
  lemma AtWithin(c: seq<Byte>, at: nat, f: seq<Byte>, k: nat, x: seq<Byte>)
    requires At(c, at, f) && At(f, k, x)
    ensures At(c, at + k, x)
  {
    forall i | 0 <= i < |x|
      ensures c[at + k + i] == x[i]
    {
      assert f[k + i] == x[i] && c[at..at + |f|][k + i] == f[k + i];
    }
    assert c[at + k..at + k + |x|] == x;
  }

  // --------------------------------------------------------------- encoding

  /** A measurements dictionary with no keys packs as 32 zero bytes. */
  lemma MissingMeasurementsAreZero()
    ensures CreateFrameData(NoMeasurements) == Success(seq(FrameDataSize, _ => 0))
  {
    var z := PackU32(0);
    assert z == [0, 0, 0, 0];
    var v := CreateFrameData(NoMeasurements).value;
    assert v == z + z + z + z + ZeroF64 + ZeroF64;
    assert |v| == FrameDataSize;
    forall i | 0 <= i < FrameDataSize
      ensures v[i] == 0
    {
    }
    assert v == seq(FrameDataSize, _ => 0);
  }

  /** The bytes of a successful encoding, field by field, with nothing
      between or after the fields. */
  lemma EncodingLayout(sd: ScanData, now: string)
    requires BuildOmaContent(sd, now).Success?
    ensures AllU16(sd.radii) && CreateFrameData(sd.measurements).Success?
    ensures var e := BuildOmaContent(sd, now).value;
            var ts := Utf8.Encode(TimestampOf(sd, now));
            var dev := DeviceBytes;
            && IsU32(|sd.radii|) && IsU32(|ts|) && |dev| == 28
            && At(e, 0, Magic)
            && At(e, 4, PackU32(Version))
            && At(e, 8, PackU32(|sd.radii|))
            && At(e, 12, PackU32(|ts|))
            && At(e, 16, ts)
            && At(e, 16 + |ts|, PackU32(|dev|))
            && At(e, 20 + |ts|, dev)
            && At(e, 48 + |ts|, CreateFrameData(sd.measurements).value)
            && At(e, 80 + |ts|, PackU16s(sd.radii))
            && |e| == 80 + |ts| + 2 * |sd.radii|
  {
    var ts := Utf8.Encode(TimestampOf(sd, now));
    var header := CreateHeader(sd, now).value;
    var frame := CreateFrameData(sd.measurements).value;
    var radii := CreateRadiusData(sd).value;
    HeaderLayout(sd, now, frame + radii);
    assert header + frame + radii == header + (frame + radii);
    var e := header + (frame + radii);
    AtConcat(header, frame + radii);
    AtSplit(e, |header|, frame, radii);
    assert |header| + |frame| == 80 + |ts|;
    assert At(e, 80 + |ts|, radii);
  }

  /** In an encoding, the frame block's six fields at 48 to 72 bytes past
      the timestamp. */
  lemma FrameFieldsLayout(sd: ScanData, now: string)
    requires BuildOmaContent(sd, now).Success?
    ensures var e := BuildOmaContent(sd, now).value;
            var m := sd.measurements;
            var ts := Utf8.Encode(TimestampOf(sd, now));
            && At(e, 48 + |ts|, PackU32(m.width.GetOr(0)))
            && At(e, 52 + |ts|, PackU32(m.height.GetOr(0)))
            && At(e, 56 + |ts|, PackU32(CenterOf(m).0))
            && At(e, 60 + |ts|, PackU32(CenterOf(m).1))
            && At(e, 64 + |ts|, m.area.GetOr(ZeroF64))
            && At(e, 72 + |ts|, m.perimeter.GetOr(ZeroF64))
  {
    var e := BuildOmaContent(sd, now).value;
    var m := sd.measurements;
    var ts := Utf8.Encode(TimestampOf(sd, now));
    var f := CreateFrameData(m).value;
    EncodingLayout(sd, now);
    FrameLayout(m);
    AtWithin(e, 48 + |ts|, f, 0, PackU32(m.width.GetOr(0)));
    AtWithin(e, 48 + |ts|, f, 4, PackU32(m.height.GetOr(0)));
    AtWithin(e, 48 + |ts|, f, 8, PackU32(CenterOf(m).0));
    AtWithin(e, 48 + |ts|, f, 12, PackU32(CenterOf(m).1));
    AtWithin(e, 48 + |ts|, f, 16, m.area.GetOr(ZeroF64));
    AtWithin(e, 48 + |ts|, f, 24, m.perimeter.GetOr(ZeroF64));
  }

  lemma AtConcat(a: seq<Byte>, b: seq<Byte>)
    ensures At(a + b, 0, a) && At(a + b, |a|, b)
  {
    assert (a + b)[..|a|] == a;
    assert (a + b)[|a|..|a| + |b|] == b;
  }

  /** The six fields of the frame block at their offsets within it, each
      missing key written as 0 and a missing centre as (0, 0). */
  lemma FrameLayout(m: Measurements)
    requires CreateFrameData(m).Success?
    ensures var f := CreateFrameData(m).value;
            && At(f, 0, PackU32(m.width.GetOr(0)))
            && At(f, 4, PackU32(m.height.GetOr(0)))
            && At(f, 8, PackU32(CenterOf(m).0))
            && At(f, 12, PackU32(CenterOf(m).1))
            && At(f, 16, m.area.GetOr(ZeroF64))
            && At(f, 24, m.perimeter.GetOr(ZeroF64))
  {
    var w, h := PackU32(m.width.GetOr(0)), PackU32(m.height.GetOr(0));
    var x, y := PackU32(CenterOf(m).0), PackU32(CenterOf(m).1);
    var a, p := m.area.GetOr(ZeroF64), m.perimeter.GetOr(ZeroF64);
    var f := CreateFrameData(m).value;
    assert f == w + h + x + y + a + p;
    assert f[0..4] == w && f[4..8] == h && f[8..12] == x && f[12..16] == y;
    assert f[16..24] == a && f[24..32] == p;
  }

  /** The header, whatever follows it: magic, version, radius count,
      timestamp length and bytes, device length and bytes. */
  lemma HeaderLayout(sd: ScanData, now: string, rest: seq<Byte>)
    requires CreateHeader(sd, now).Success?
    ensures var h := CreateHeader(sd, now).value;
            var ts := Utf8.Encode(TimestampOf(sd, now));
            var dev := DeviceBytes;
            && IsU32(|sd.radii|) && IsU32(|ts|) && |dev| == 28
            && At(h + rest, 0, Magic)
            && At(h + rest, 4, PackU32(Version))
            && At(h + rest, 8, PackU32(|sd.radii|))
            && At(h + rest, 12, PackU32(|ts|))
            && At(h + rest, 16, ts)
            && At(h + rest, 16 + |ts|, PackU32(|dev|))
            && At(h + rest, 20 + |ts|, dev)
            && |h| == 48 + |ts|
  {
    var ts := Utf8.Encode(TimestampOf(sd, now));
    var dev := DeviceBytes;
    var h := CreateHeader(sd, now).value;
    var h1 := Magic + PackU32(Version);
    var h2 := h1 + PackU32(|sd.radii|);
    var h3 := h2 + PackU32(|ts|);
    var h4 := h3 + ts;
    var h5 := h4 + PackU32(|dev|);
    assert h == h5 + dev;
    var c := h + rest;
    AtConcat(h, rest);
    AtSplit(c, 0, h5, dev);
    AtSplit(c, 0, h4, PackU32(|dev|));
    AtSplit(c, 0, h3, ts);
    AtSplit(c, 0, h2, PackU32(|ts|));
    AtSplit(c, 0, h1, PackU32(|sd.radii|));
    AtSplit(c, 0, Magic, PackU32(Version));
  }

  // ---------------------------------------------------------------- readers

  lemma ReadBytesOf(c: seq<Byte>, at: nat, x: seq<Byte>)
    requires At(c, at, x)
    ensures ReadBytes(c, at, |x|) == Success(Parsed(x, at + |x|))
  {
  }

  lemma ReadU32Of(c: seq<Byte>, at: nat, v: int)
    requires IsU32(v) && At(c, at, PackU32(v))
    ensures ReadU32(c, at).Success?
    ensures ReadU32(c, at).value.value == v && ReadU32(c, at).value.next == at + 4
  {
    assert c[at..at + 4] == PackU32(v);
  }

  /** A length-prefixed text reads back as the text it encodes. */
  lemma ReadTextOf(c: seq<Byte>, at: nat, s: string)
    requires IsU32(|Utf8.Encode(s)|)
    requires At(c, at, PackU32(|Utf8.Encode(s)|)) && At(c, at + 4, Utf8.Encode(s))
    ensures ReadText(c, at).Success?
    ensures ReadText(c, at).value.value == s
    ensures ReadText(c, at).value.next == at + 4 + |Utf8.Encode(s)|
  {
    Utf8.DecodeEncode(s);
    ReadTextOfBytes(c, at, Utf8.Encode(s));
  }

  lemma ReadTextOfBytes(c: seq<Byte>, at: nat, b: seq<Byte>)
    requires IsU32(|b|) && At(c, at, PackU32(|b|)) && At(c, at + 4, b)
    requires Utf8.Decode(b).Some?
    ensures ReadText(c, at).Success?
    ensures ReadText(c, at).value.value == Utf8.Decode(b).value
    ensures ReadText(c, at).value.next == at + 4 + |b|
  {
    ReadU32Of(c, at, |b|);
    assert PySlice(c, at + 4, at + 4 + |b|) == b;
    ReadTextOfSlice(c, at, b);
  }

  lemma ReadTextOfSlice(c: seq<Byte>, at: nat, b: seq<Byte>)
    requires ReadU32(c, at).Success? && ReadU32(c, at).value.value == |b|
    requires PySlice(c, at + 4, at + 4 + |b|) == b && Utf8.Decode(b).Some?
    ensures ReadText(c, at).Success?
    ensures ReadText(c, at).value.value == Utf8.Decode(b).value
    ensures ReadText(c, at).value.next == at + 4 + |b|
  {
    var len := ReadU32(c, at).value;
    assert PySlice(c, len.next, len.next + len.value) == b;
  }

  /** A text the parser accepted, and whose declared length fits the buffer,
      is stored as its UTF-8 encoding after its length. */
  lemma ReadTextBytes(c: seq<Byte>, at: nat)
    requires ReadText(c, at).Success? && ReadText(c, at).value.next <= |c|
    ensures var p := ReadText(c, at).value;
            var e := Utf8.Encode(p.value);
            && IsU32(|e|) && At(c, at, PackU32(|e|)) && At(c, at + 4, e)
            && p.next == at + 4 + |e|
  {
    var p := ReadText(c, at).value;
    PackUnpackU32(c[at..at + 4]);
    var slice := PySlice(c, at + 4, p.next);
    assert slice == c[at + 4..p.next];
    Utf8.EncodeDecode(slice);
  }

  /** The measurements the parser reads back for `m`: every key present, a
      missing number as 0 and a missing centre as (0, 0). */
  function Completed(m: Measurements): (r: Measurements)
    ensures r.width.Some? && r.height.Some? && r.area.Some? && r.perimeter.Some? && r.center.Some?
    ensures m.width.Some? ==> r.width == m.width
    ensures m.height.Some? ==> r.height == m.height
    ensures m.center.Some? ==> r.center == m.center
    ensures m.area.Some? ==> r.area == m.area
    ensures m.perimeter.Some? ==> r.perimeter == m.perimeter
    ensures m.width.None? ==> r.width == Some(0)
    ensures m.height.None? ==> r.height == Some(0)
    ensures m.center.None? ==> r.center == Some((0, 0))
    ensures m.area.None? ==> r.area == Some(ZeroF64)
    ensures m.perimeter.None? ==> r.perimeter == Some(ZeroF64)
  {
    Measurements(
      width := Some(m.width.GetOr(0)),
      height := Some(m.height.GetOr(0)),
      area := Some(m.area.GetOr(ZeroF64)),
      perimeter := Some(m.perimeter.GetOr(ZeroF64)),
      center := Some(CenterOf(m)))
  }

  lemma ReadMeasurementsOf(c: seq<Byte>, at: nat, m: Measurements)
    requires CreateFrameData(m).Success? && At(c, at, CreateFrameData(m).value)
    ensures ReadMeasurements(c, at).Success?
    ensures ReadMeasurements(c, at).value.value == Completed(m)
    ensures ReadMeasurements(c, at).value.next == at + FrameDataSize
  {
    var w, h, cx, cy := m.width.GetOr(0), m.height.GetOr(0), CenterOf(m).0, CenterOf(m).1;
    var ints := PackU32(w) + PackU32(h) + PackU32(cx) + PackU32(cy);
    var floats := m.area.GetOr(ZeroF64) + m.perimeter.GetOr(ZeroF64);
    assert CreateFrameData(m).value == ints + floats;
    AtSplit(c, at, ints, floats);
    ReadBytesOf(c, at, ints);
    ReadBytesOf(c, at + 16, floats);
    assert ints[0..4] == PackU32(w) && ints[4..8] == PackU32(h);
    assert ints[8..12] == PackU32(cx) && ints[12..16] == PackU32(cy);
    assert floats[0..8] == m.area.GetOr(ZeroF64) && floats[8..16] == m.perimeter.GetOr(ZeroF64);
  }

  lemma ReadRadiiOf(c: seq<Byte>, at: nat, xs: seq<int>)
    requires AllU16(xs) && At(c, at, PackU16s(xs))
    ensures var r := ReadRadii(c, at, |xs|);
            r.Success? && r.value.value == xs && r.value.next == at + 2 * |xs|
  {
    var b := PackU16s(xs);
    ReadBytesOf(c, at, b);
    UnpackPackU16s(xs);
  }

  // ------------------------------------------------------------- round trip

  /** The dictionary `_parse_oma_content` gives back for an encoding of
      `sd`: version 1, the timestamp written, the device string, the
      measurements with missing keys as zeros, and the radii. */
  function Reread(sd: ScanData, now: string): OmaRecord {
    OmaRecord(Version, TimestampOf(sd, now), DeviceInfo, Completed(sd.measurements), sd.radii)
  }

  /** Parsing an encoding, whatever bytes follow it, gives the record back. */
  lemma RoundTrip(sd: ScanData, now: string, extra: seq<Byte>)
    requires BuildOmaContent(sd, now).Success?
    ensures Decode(BuildOmaContent(sd, now).value + extra).Success?
    ensures Decode(BuildOmaContent(sd, now).value + extra).value == Reread(sd, now)
  {
    var e := BuildOmaContent(sd, now).value;
    DecodeEncoding(sd, now);
    DecodeIgnoresTrailing(e, extra);
  }

  lemma DecodeEncoding(sd: ScanData, now: string)
    requires BuildOmaContent(sd, now).Success?
    ensures Decode(BuildOmaContent(sd, now).value).Success?
    ensures Decode(BuildOmaContent(sd, now).value).value == Reread(sd, now)
  {
    var e := BuildOmaContent(sd, now).value;
    var ts := Utf8.Encode(TimestampOf(sd, now));
    EncodingLayout(sd, now);
    HeaderReads(e, TimestampOf(sd, now), |sd.radii|);
    BodyReads(e, 16 + |ts|, sd.measurements, sd.radii);
    DecodeOfReads(e, Reread(sd, now), 16 + |ts|, 48 + |ts|, 80 + |ts|);
  }

  /** The fixed header fields and the timestamp read back from where the
      encoder put them. */
  lemma HeaderReads(c: seq<Byte>, timestamp: string, n: nat)
    requires var ts := Utf8.Encode(timestamp);
             && IsU32(n) && IsU32(|ts|)
             && At(c, 0, Magic)
             && At(c, 4, PackU32(Version))
             && At(c, 8, PackU32(n))
             && At(c, 12, PackU32(|ts|))
             && At(c, 16, ts)
    ensures ReadBytes(c, 0, 4).Success? && ReadBytes(c, 0, 4).value.value == Magic
    ensures ReadU32(c, 4).Success? && ReadU32(c, 4).value.value == Version
    ensures ReadU32(c, 8).Success? && ReadU32(c, 8).value.value == n
    ensures ReadText(c, 12).Success? && ReadText(c, 12).value.value == timestamp
    ensures ReadText(c, 12).value.next == 16 + |Utf8.Encode(timestamp)|
  {
    ReadBytesOf(c, 0, Magic);
    ReadU32Of(c, 4, Version);
    ReadU32Of(c, 8, n);
    ReadTextOf(c, 12, timestamp);
  }

  /** The device string, the measurement block and the radii read back from
      where the encoder put them, the device length starting at `at`. */
  lemma BodyReads(c: seq<Byte>, at: nat, m: Measurements, radii: seq<int>)
    requires AllU16(radii) && CreateFrameData(m).Success?
    requires At(c, at, PackU32(|DeviceBytes|)) && At(c, at + 4, DeviceBytes)
    requires At(c, at + 32, CreateFrameData(m).value)
    requires At(c, at + 64, PackU16s(radii))
    ensures ReadText(c, at).Success? && ReadText(c, at).value.value == DeviceInfo
    ensures ReadText(c, at).value.next == at + 32
    ensures ReadMeasurements(c, at + 32).Success?
    ensures ReadMeasurements(c, at + 32).value.value == Completed(m)
    ensures ReadMeasurements(c, at + 32).value.next == at + 64
    ensures ReadRadii(c, at + 64, |radii|).Success?
    ensures ReadRadii(c, at + 64, |radii|).value.value == radii
  {
    DeviceBytesAreUtf8();
    ReadTextOfBytes(c, at, DeviceBytes);
    ReadMeasurementsOf(c, at + 32, m);
    ReadRadiiOf(c, at + 64, radii);
  }

  /** Each read of `_parse_oma_content` succeeds on `c` and returns the
      corresponding part of `rec`, the device string starting at `deviceAt`,
      the measurement block at `frameAt` and the radii at `radiiAt`. */
  predicate ReadsAs(c: seq<Byte>, rec: OmaRecord, deviceAt: nat, frameAt: nat, radiiAt: nat) {
    && ReadBytes(c, 0, 4).Success? && ReadBytes(c, 0, 4).value.value == Magic
    && ReadU32(c, 4).Success? && ReadU32(c, 4).value.value == rec.version
    && ReadU32(c, 8).Success? && ReadU32(c, 8).value.value == |rec.radii|
    && ReadText(c, 12).Success? && ReadText(c, 12).value.value == rec.timestamp
    && ReadText(c, 12).value.next == deviceAt
    && ReadText(c, deviceAt).Success? && ReadText(c, deviceAt).value.value == rec.deviceInfo
    && ReadText(c, deviceAt).value.next == frameAt
    && ReadMeasurements(c, frameAt).Success? && ReadMeasurements(c, frameAt).value.value == rec.measurements
    && ReadMeasurements(c, frameAt).value.next == radiiAt
    && ReadRadii(c, radiiAt, |rec.radii|).Success?
    && ReadRadii(c, radiiAt, |rec.radii|).value.value == rec.radii
  }

  /** Decode returns `rec` when every read returns its part of `rec`. */
  lemma DecodeOfReads(c: seq<Byte>, rec: OmaRecord, deviceAt: nat, frameAt: nat, radiiAt: nat)
    requires ReadsAs(c, rec, deviceAt, frameAt, radiiAt)
    ensures Decode(c).Success? && Decode(c).value == rec
  {
  }

  /** ... and only then: a successful parse made each read return its part. */
  lemma ReadsOfDecode(c: seq<Byte>) returns (deviceAt: nat, frameAt: nat, radiiAt: nat)
    requires Decode(c).Success?
    ensures ReadsAs(c, Decode(c).value, deviceAt, frameAt, radiiAt)
  {
    deviceAt := ReadText(c, 12).value.next;
    frameAt := ReadText(c, deviceAt).value.next;
    radiiAt := ReadMeasurements(c, frameAt).value.next;
  }

  // ------------------------------------------------------- declared lengths

  /** The bytes `_parse_oma_content` reads to produce `rec`: four u32 header
      fields, the timestamp, the device length and string, the measurement
      block and two bytes per radius. */
  function EncodedSize(rec: OmaRecord): nat {
    16 + |Utf8.Encode(rec.timestamp)| + 4 + |Utf8.Encode(rec.deviceInfo)| + FrameDataSize + 2 * |rec.radii|
  }

  /** An encoding is exactly as long as the record it parses back to needs. */
  lemma EncodedLength(sd: ScanData, now: string)
    requires BuildOmaContent(sd, now).Success?
    ensures |BuildOmaContent(sd, now).value| == EncodedSize(Reread(sd, now))
  {
    EncodingLayout(sd, now);
    DeviceBytesAreUtf8();
  }

  /** A successful parse read every byte the header declared: the buffer is at
      least as long as the encoding of the record it returned. */
  lemma DecodeFitsBuffer(c: seq<Byte>)
    requires Decode(c).Success?
    ensures EncodedSize(Decode(c).value) <= |c|
  {
    var deviceAt, frameAt, radiiAt := ReadsOfDecode(c);
    ReadTextBytes(c, 12);
    ReadTextBytes(c, deviceAt);
  }

  // ------------------------------------------------------- trailing bytes

  lemma ReadBytesWithTrailing(c: seq<Byte>, extra: seq<Byte>, at: nat, n: nat)
    requires at + n <= |c| || n == 0
    ensures ReadBytes(c + extra, at, n).Success?
    ensures ReadBytes(c + extra, at, n).value.value == ReadBytes(c, at, n).value.value
  {
    if n > 0 {
      assert (c + extra)[at..at + n] == c[at..at + n];
    }
  }

  lemma ReadU32WithTrailing(c: seq<Byte>, extra: seq<Byte>, at: nat)
    requires at + 4 <= |c|
    ensures ReadU32(c + extra, at).Success?
    ensures ReadU32(c + extra, at).value.value == ReadU32(c, at).value.value
  {
    ReadBytesWithTrailing(c, extra, at, 4);
  }

  lemma ReadTextWithTrailing(c: seq<Byte>, extra: seq<Byte>, at: nat)
    requires ReadText(c, at).Success? && ReadText(c, at).value.next <= |c|
    ensures ReadText(c + extra, at).Success?
    ensures ReadText(c + extra, at).value.value == ReadText(c, at).value.value
    ensures ReadText(c + extra, at).value.next == ReadText(c, at).value.next
  {
    var len := ReadU32(c, at).value;
    ReadU32WithTrailing(c, extra, at);
    PySliceOfPrefix(c, extra, len.next, len.next + len.value);
  }

  lemma ReadMeasurementsWithTrailing(c: seq<Byte>, extra: seq<Byte>, at: nat)
    requires at + FrameDataSize <= |c|
    ensures ReadMeasurements(c + extra, at).Success?
    ensures ReadMeasurements(c + extra, at).value.value == ReadMeasurements(c, at).value.value
  {
    ReadBytesWithTrailing(c, extra, at, 16);
    ReadBytesWithTrailing(c, extra, at + 16, 16);
  }

  lemma ReadRadiiWithTrailing(c: seq<Byte>, extra: seq<Byte>, at: nat, n: nat)
    requires at + 2 * n <= |c| || n == 0
    ensures ReadRadii(c + extra, at, n).Success?
    ensures ReadRadii(c + extra, at, n).value.value == ReadRadii(c, at, n).value.value
  {
    ReadBytesWithTrailing(c, extra, at, 2 * n);
  }

  /** Bytes after a complete encoding are never looked at. */
  lemma DecodeIgnoresTrailing(c: seq<Byte>, extra: seq<Byte>)
    requires Decode(c).Success?
    ensures Decode(c + extra).Success? && Decode(c + extra).value == Decode(c).value
  {
    var rec := Decode(c).value;
    var deviceAt, frameAt, radiiAt := ReadsOfDecode(c);
    ReadBytesWithTrailing(c, extra, 0, 4);
    ReadU32WithTrailing(c, extra, 4);
    ReadU32WithTrailing(c, extra, 8);
    ReadTextWithTrailing(c, extra, 12);
    ReadTextWithTrailing(c, extra, deviceAt);
    ReadMeasurementsWithTrailing(c, extra, frameAt);
    ReadRadiiWithTrailing(c, extra, radiiAt, |rec.radii|);
    DecodeOfReads(c + extra, rec, deviceAt, frameAt, radiiAt);
  }

  /** No proper prefix of an encoding parses: a buffer shorter than the
      declared lengths never yields a record. */
  lemma DecodeRejectsPrefix(sd: ScanData, now: string, k: nat)
    requires BuildOmaContent(sd, now).Success?
    requires k < |BuildOmaContent(sd, now).value|
    ensures Decode(BuildOmaContent(sd, now).value[..k]).Failure?
  {
    var e := BuildOmaContent(sd, now).value;
    RoundTrip(sd, now, []);
    assert e + [] == e;
    EncodedLength(sd, now);
    DecodeRejectsPrefixOfWhole(e, k);
  }

  /** A buffer that parses using all of its bytes has no proper prefix that
      parses. */
  lemma DecodeRejectsPrefixOfWhole(c: seq<Byte>, k: nat)
    requires Decode(c).Success? && EncodedSize(Decode(c).value) == |c|
    requires k < |c|
    ensures Decode(c[..k]).Failure?
  {
    if Decode(c[..k]).Success? {
      DecodeOfPrefix(c, k);
      DecodeFitsBuffer(c[..k]);
    }
  }

  /** A prefix that parses parses to what the whole buffer parses to. */
  lemma DecodeOfPrefix(c: seq<Byte>, k: nat)
    requires k <= |c| && Decode(c[..k]).Success?
    ensures Decode(c).Success? && Decode(c).value == Decode(c[..k]).value
  {
    SplitAt(c, k);
    DecodeIgnoresTrailing(c[..k], c[k..]);
  }

  // ---------------------------------------------------------------- errors

  /** A buffer that does not start with `OMAF` is rejected as not an OMA file. */
  lemma DecodeRejectsBadMagic(c: seq<Byte>)
    requires |c| >= 4 && c[..4] != Magic
    ensures Decode(c) == Failure(InvalidFormat)
  {
    assert ReadBytes(c, 0, 4).value.value == c[..4];
  }

  /** A buffer that ends inside the sixteen bytes of fixed header fails with
      a `struct.error`, unless its first four bytes already are not `OMAF`. */
  lemma DecodeRejectsShortHeader(c: seq<Byte>)
    requires |c| < 16 && (|c| >= 4 ==> c[..4] == Magic)
    ensures Decode(c) == Failure(Truncated)
  {
    if |c| >= 4 {
      assert ReadBytes(c, 0, 4).value.value == c[..4];
    }
  }

  /** A timestamp whose bytes are not UTF-8 fails with a decode error before
      anything after it is looked at. */
  lemma DecodeRejectsBadTimestamp(c: seq<Byte>)
    requires |c| >= 16 && c[..4] == Magic
    requires Utf8.Decode(PySlice(c, 16, 16 + UnpackU32(c[12..16]))).None?
    ensures Decode(c) == Failure(InvalidUtf8)
  {
    assert ReadBytes(c, 0, 4).value.value == c[..4];
    assert ReadBytes(c, 12, 4).value.value == c[12..16];
  }

  /** The version and the radius count come from the u32 fields at bytes 4
      and 8. */
  lemma DecodedHeaderFields(c: seq<Byte>)
    requires Decode(c).Success?
    ensures Decode(c).value.version == UnpackU32(c[4..8])
    ensures |Decode(c).value.radii| == UnpackU32(c[8..12])
  {
    assert ReadBytes(c, 4, 4).value.value == c[4..8];
    assert ReadBytes(c, 8, 4).value.value == c[8..12];
  }
}
