/** The sample record `create_sample_oma` writes (oma_generator.py): a
    1552 x 51 frame centred at (776, 25) with area 79152 and perimeter 3206,
    and a profile of 1000 radii, stamped with the time of writing. The
    profile is a parameter: any 1000 radii that fit a u16. */
module OmaSample {
  import opened Bytes
  import opened Wrappers
  import Utf8
  import opened OmaCodec
  import opened OmaProperties

  /** `struct.pack('<d', 79152)`. */
  const SampleArea: F64 := [0x00, 0x00, 0x00, 0x00, 0x00, 0x53, 0xF3, 0x40]

  /** `struct.pack('<d', 3206)`. */
  const SamplePerimeter: F64 := [0x00, 0x00, 0x00, 0x00, 0x00, 0x0C, 0xA9, 0x40]

  const SampleMeasurements: Measurements := Measurements(
    width := Some(1552),
    height := Some(51),
    area := Some(SampleArea),
    perimeter := Some(SamplePerimeter),
    center := Some((776, 25)))

  /** The sample's profile: 1000 radii, each a valid `'<H'` field. */
  predicate SampleProfile(radii: seq<int>) {
    |radii| == 1000 && AllU16(radii)
  }

  /** The scan dictionary, its timestamp being the clock reading `now`. */
  function SampleData(now: string, radii: seq<int>): ScanData {
    ScanData(Some(now), SampleMeasurements, radii)
  }

  /** The sample encodes whenever its timestamp's length fits a u32, into
      80 bytes of header and measurements, the timestamp and 2000 bytes of
      radii, the header declaring 1000 radii. */
  lemma SampleEncodes(now: string, radii: seq<int>)
    requires SampleProfile(radii) && IsU32(|Utf8.Encode(now)|)
    ensures BuildOmaContent(SampleData(now, radii), now).Success?
    ensures var e := BuildOmaContent(SampleData(now, radii), now).value;
            |e| == 2080 + |Utf8.Encode(now)| && e[8..12] == [0xE8, 0x03, 0x00, 0x00]
  {
    var sd := SampleData(now, radii);
    assert Encodable(sd, now);
    EncodingLayout(sd, now);
    var e := BuildOmaContent(sd, now).value;
    assert e[8..12] == PackU32(1000);
    ThousandAsU32();
  }

  /** The radius count the sample declares, as the four bytes written. Kept
      apart from SampleEncodes so the division behind PackU32 is evaluated
      without the layout facts in scope. */
  lemma ThousandAsU32()
    ensures PackU32(1000) == [0xE8, 0x03, 0x00, 0x00]
  {
  }

  /** Reading the sample file back gives every field as written. */
  lemma SampleRoundTrip(now: string, radii: seq<int>)
    requires SampleProfile(radii) && IsU32(|Utf8.Encode(now)|)
    ensures BuildOmaContent(SampleData(now, radii), now).Success?
    ensures var r := Decode(BuildOmaContent(SampleData(now, radii), now).value);
            && r.Success?
            && r.value.version == 1
            && r.value.timestamp == now
            && r.value.deviceInfo == "Huvitz Excelon Frame Scanner"
            && r.value.measurements == SampleMeasurements
            && r.value.radii == radii
  {
    SampleEncodes(now, radii);
    RoundTrip(SampleData(now, radii), now, []);
    assert BuildOmaContent(SampleData(now, radii), now).value + [] == BuildOmaContent(SampleData(now, radii), now).value;
  }

  /** Cut to its first ten bytes, the sample is rejected as truncated. */
  lemma SampleTenBytesTruncated(now: string, radii: seq<int>)
    requires SampleProfile(radii) && IsU32(|Utf8.Encode(now)|)
    ensures BuildOmaContent(SampleData(now, radii), now).Success?
    ensures Decode(BuildOmaContent(SampleData(now, radii), now).value[..10]) == Failure(Truncated)
  {
    var sd := SampleData(now, radii);
    SampleEncodes(now, radii);
    EncodingLayout(sd, now);
    var e := BuildOmaContent(sd, now).value;
    assert e[..10][..4] == e[..4];
    DecodeRejectsShortHeader(e[..10]);
  }
}
