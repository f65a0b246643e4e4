/** The hand-over in main.py: the record `extract_scan_data` returns is given
    unchanged to `create_oma_file`, whose builders read its `timestamp`,
    `measurements` and `radii` keys. */
module ScanExport {
  import opened Bytes
  import opened Wrappers
  import Utf8
  import OmaCodec
  import OmaProperties
  import opened FrameProcessing

  /** The scan dictionary as the OMA builders see it; `toF64` is
      `struct.pack('<d', ...)` of the float area and perimeter. */
  function ToOmaScanData(rec: ScanRecord, toF64: real -> OmaCodec.F64): OmaCodec.ScanData {
    var m := match rec.measurements
      case Empty => OmaCodec.NoMeasurements
      case Measured(w, h, area, center, perimeter) =>
        OmaCodec.Measurements(Some(w), Some(h), Some(toF64(area)), Some(toF64(perimeter)), center);
    OmaCodec.ScanData(Some(rec.timestamp), m, rec.radii)
  }

  /** The integer measurement fields `'<4I'` can hold. */
  predicate FitsFrameBlock(m: Measurements) {
    m.Measured? ==>
      && IsU32(m.width) && IsU32(m.height)
      && (m.center.Some? ==> IsU32(m.center.value.0) && IsU32(m.center.value.1))
  }

  /** Every profile the processor reports is a valid u16 array, so writing
      a scan fails only on an integer measurement out of u32 range or an
      over-long timestamp, never on its radii. */
  lemma ExportSucceedsIff(rec: ScanRecord, toF64: real -> OmaCodec.F64)
    requires IsReportedProfile(rec.radii)
    ensures OmaCodec.BuildOmaContent(ToOmaScanData(rec, toF64), rec.timestamp).Success?
            <==> FitsFrameBlock(rec.measurements) && IsU32(|Utf8.Encode(rec.timestamp)|)
  {
    var sd := ToOmaScanData(rec, toF64);
    assert AllU16(rec.radii);
  }

  /** A written scan reads back with its timestamp, size, centre and profile. */
  lemma ExportRoundTrip(rec: ScanRecord, toF64: real -> OmaCodec.F64)
    requires OmaCodec.BuildOmaContent(ToOmaScanData(rec, toF64), rec.timestamp).Success?
    requires rec.measurements.Measured?
    ensures var r := OmaCodec.Decode(OmaCodec.BuildOmaContent(ToOmaScanData(rec, toF64), rec.timestamp).value);
            && r.Success?
            && r.value.timestamp == rec.timestamp
            && r.value.measurements.width == Some(rec.measurements.width)
            && r.value.measurements.height == Some(rec.measurements.height)
            && r.value.measurements.area == Some(toF64(rec.measurements.area))
            && r.value.measurements.perimeter == Some(toF64(rec.measurements.perimeter))
            && r.value.measurements.center == Some(rec.measurements.center.GetOr((0, 0)))
            && r.value.radii == rec.radii
  {
    var sd := ToOmaScanData(rec, toF64);
    var e := OmaCodec.BuildOmaContent(sd, rec.timestamp).value;
    OmaProperties.RoundTrip(sd, rec.timestamp, []);
    assert e + [] == e;
  }
}
