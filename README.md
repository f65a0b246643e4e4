# Huvitz Excelon frame scan: OMA codec and frame processor

This project models the two pieces of the frame-scan capture system that
carry its logic.

The first is the OMA writer and reader of `OMAGenerator`, in
`oma_generator.py`. An OMA file holds these fields back to back, with no
padding:

- the magic `"OMAF"`;
- a little-endian u32 version (always 1);
- a u32 radius count;
- a length-prefixed UTF-8 timestamp;
- the length-prefixed device string `"Huvitz Excelon Frame Scanner"`;
- a 32-byte measurement block: four u32 (width, height, centre x, centre y), then two f64 (area, perimeter);
- one u16 per radius.

The second is the decision logic of `FrameProcessor`, in `frame_processor.py`:

- which contours of a frame count as a frame outline;
- which contour is measured;
- when the processor's stored contours and frame are replaced;
- the shape of the 1000-entry radius profile it reports.

The files:

- `wrappers.dfy`: `Option` and `Result`.
- `bytes.dfy`: `struct`'s `'<H'` and `'<I'` fields, and Python's forgiving slices.
- `utf8.dfy`: strict UTF-8, as `str.encode` and `bytes.decode` implement it.
- `oma_codec.dfy`: the data model, `TimestampOf` (the timestamp default of `_create_header`, whose use `CreateHeader` states), the builders `_create_header`, `_create_frame_data`, `_create_radius_data` and `_build_oma_content`, and `_parse_oma_content`. The parser is a cursor parser: each read returns its value and the offset after it.
- `oma_properties.dfy`: layout, success conditions, round trip, trailing bytes, prefixes and the error cases of the codec.
- `oma_sample.dfy`: the record `create_sample_oma` writes, as a test vector.
- `frame_processing.dfy`: the `FrameProcessor` class and the specification functions its methods are proved against. `IsFrameCandidate` is the area and vertex test of `_detect_frame_contours`; `AcceptedMembers` states it as the filter's condition.
- `scan_export.dfy`: the hand-over in `main.py` of an extracted scan to the OMA writer. `ToOmaScanData` is the dictionary as the writer reads it; `ExportSucceedsIff` and `ExportRoundTrip` state what happens to it.

OpenCV and `math.sin`/`math.cos` are not modelled. They enter as values of
the datatypes `OpenCv` and `Trig`, so every property holds whatever they
return, with one exception: `CurveRange` assumes that `sin` and `cos` return
values in [-1, 1]. The clock reading `datetime.now().isoformat()` enters as a parameter
`now`.

Points of the source's behaviour that the model keeps as written:

- Radii and centroids are truncated toward zero by `int()`, not rounded.
- The parser does not check declared lengths before slicing. A short timestamp or device slice is accepted as cut. The parse then fails at the UTF-8 decode of the cut bytes or at the next `struct.unpack`, and never returns a record; see `DecodeFitsBuffer` and `DecodeRejectsPrefix`.
- A parse returns every measurement key. Keys missing when the file was written come back as 0, and a missing centre as (0, 0). The device string is always the fixed one. So the round trip gives back `Reread`, not the written dictionary itself.
- A timestamp that is not UTF-8 raises a third kind of error, `InvalidUtf8`, beside `InvalidFormat` (bad magic) and `Truncated` (a `struct.error`).

## Model

| member | source | states |
|---|---|---|
| Bytes.PackU32 | oma_generator.py:58-59 | `'<I'` packs a u32 into 4 bytes that unpack to the same value |
| Bytes.UnpackU32 | oma_generator.py:129-133 | unpacking 4 bytes gives a value in u32 range |
| Bytes.PackUnpackU32 | oma_generator.py:129-133 | every 4-byte string is the packing of the u32 it unpacks to |
| Bytes.UnpackU16 | oma_generator.py:154 | unpacking 2 bytes gives a value in u16 range |
| Bytes.PackU16 | oma_generator.py:102 | `'<H'` packs a u16 into 2 bytes that unpack to the same value |
| Bytes.PackUnpackU16 | oma_generator.py:154 | every 2-byte string is the packing of the u16 it unpacks to |
| Bytes.PackU16s | oma_generator.py:102 | `'<{n}H'` of n radii is 2n bytes long |
| Bytes.UnpackU16s | oma_generator.py:154 | unpacking 2n bytes gives n values, all in u16 range |
| Bytes.PackU16sAt | oma_generator.py:102 | radius i sits at bytes 2i and 2i+1 of the packed array |
| Bytes.UnpackPackU16s | oma_generator.py:154 | unpacking packed radii gives the radii back |
| Bytes.PackUnpackU16s | oma_generator.py:154 | every even-length byte string is the packing of what it unpacks to |
| Bytes.PySlice | oma_generator.py:138 | Python's `c[lo:hi]` is `hi - lo` long exactly when it ends inside the buffer (or is empty), and is cut short otherwise |
| Bytes.PySliceOfPrefix | oma_generator.py:144 | a slice inside a buffer is unchanged by bytes appended after it |
| Utf8.Encode | oma_generator.py:63 | the encoding is at least one byte per character; `DecodeEncode` states that it decodes back |
| Utf8.Decode | oma_generator.py:138 | an accepted text has at most one character per byte; `EncodeDecode` states that only canonical encodings are accepted |
| Utf8.EncodeChar | oma_generator.py:63 | one character takes 1 to 4 bytes, 1 exactly for ASCII |
| Utf8.DecodeFirst | oma_generator.py:138 | an accepted leading sequence is 1 to 4 bytes long and inside the buffer |
| Utf8.DecodeEncode | oma_generator.py:63 | decoding `s.encode('utf-8')` succeeds and gives `s` |
| Utf8.EncodeDecode | oma_generator.py:138 | strict decoding accepts only the canonical encoding of the text it returns |
| Utf8.AsciiEncoding | oma_generator.py:69 | an ASCII text encodes to its character codes |
| Utf8.EncodeAscii | oma_generator.py:69 | an ASCII text encodes to one byte per character |
| OmaCodec.DeviceBytesAreUtf8 | oma_generator.py:68-71 | the device string is the given 28 bytes, and they decode back to it |
| OmaCodec.CreateHeader | oma_generator.py:54-73 | the header is built exactly when the radius count and the timestamp's byte length fit a u32, is then 48 + timestamp bytes long, and otherwise fails on one of those two fields; `HeaderLayout` places each field |
| OmaCodec.CreateFrameData | oma_generator.py:75-92 | the frame block is built exactly when width, height and the centre (defaults 0 and (0, 0)) fit a u32, and is then 32 bytes long; `MissingMeasurementsAreZero` gives the all-defaults block |
| OmaCodec.CreateRadiusData | oma_generator.py:94-104 | the radius section is built exactly when every radius fits a u16, and is then the `'<H'` packing of the radii, empty for an empty list |
| OmaCodec.BuildOmaContent | oma_generator.py:38-52 | the content is built exactly when every packed value is in range, and is then 80 + timestamp bytes + 2 per radius long; `EncodingLayout` places each part and `RoundTrip` reads it back |
| OmaCodec.ReadBytes | oma_generator.py:123 | a fixed-size unpack succeeds exactly when its slice is whole, and then returns those bytes and the offset after them |
| OmaCodec.ReadU32 | oma_generator.py:129-130 | a u32 read succeeds exactly when 4 bytes remain, returns the unpacked value and advances by 4 |
| OmaCodec.ReadText | oma_generator.py:136-139 | a text read succeeds exactly when its 4-byte length is there and the slice the length selects, whole or cut short, decodes as UTF-8; it then returns that decoding and moves past the declared length; it fails as truncated without the length bytes and as a decode error otherwise |
| OmaCodec.ReadMeasurements | oma_generator.py:148-151 | the measurement block is read exactly when 32 bytes remain, advancing by 32 |
| OmaCodec.FrameFields | oma_generator.py:148-150 | every measurement key is present, the four integers are u32, and packing the fields again gives back the two 16-byte blocks read |
| OmaCodec.ReadRadii | oma_generator.py:154 | n radii are read exactly when 2n bytes remain, giving n u16 values and advancing by 2n |
| OmaCodec.Decode | oma_generator.py:123-127 | a successful parse saw `OMAF` in the first 4 bytes |
| OmaProperties.MissingMeasurementsAreZero | oma_generator.py:77-90 | an empty measurement dictionary packs as 32 zero bytes |
| OmaProperties.FrameLayout | oma_generator.py:75-92 | width, height, centre x and centre y as u32 at 0, 4, 8 and 12 of the frame block, area and perimeter at 16 and 24, a missing key as 0 and a missing centre as (0, 0) |
| OmaProperties.HeaderLayout | oma_generator.py:54-73 | magic at 0, version 1 at 4, radius count at 8, timestamp length at 12, timestamp at 16, then the device length and the 28 device bytes; the header is 48 + timestamp bytes long |
| OmaProperties.EncodingLayout | oma_generator.py:38-104 | in every successful encoding each field sits at its fixed offset, the frame block at 48 + timestamp bytes, the radii at 80 + timestamp bytes, and the total length is 80 + timestamp bytes + 2 per radius |
| OmaProperties.FrameFieldsLayout | oma_generator.py:38-92 | in every successful encoding those six fields sit at 48, 52, 56, 60, 64 and 72 bytes past the timestamp |
| OmaProperties.ReadBytesOf | oma_generator.py:123 | a read over bytes known to hold `x` returns `x` |
| OmaProperties.ReadU32Of | oma_generator.py:129-133 | a u32 read over a packed value returns that value |
| OmaProperties.ReadTextOf | oma_generator.py:136-139 | a length-prefixed encoded text reads back as the text, ending after its bytes |
| OmaProperties.ReadTextOfBytes | oma_generator.py:142-145 | length-prefixed UTF-8 bytes read back as their decoding |
| OmaProperties.ReadTextOfSlice | oma_generator.py:138-139 | a text read returns the decoding of the slice its length selects |
| OmaProperties.ReadTextBytes | oma_generator.py:136-139 | a text read that stays inside the buffer found the text's own encoding after its length |
| OmaProperties.Completed | oma_generator.py:80-85 | the parsed measurements have every key, equal to the written one where it was present, 0 for a missing number and (0, 0) for a missing centre |
| OmaProperties.ReadMeasurementsOf | oma_generator.py:148-151 | a packed measurement block reads back as the completed measurements |
| OmaProperties.ReadRadiiOf | oma_generator.py:154 | packed radii read back as the same list |
| OmaProperties.HeaderReads | oma_generator.py:123-139 | magic, version, radius count and timestamp read back from where the header put them |
| OmaProperties.BodyReads | oma_generator.py:142-154 | device string, measurement block and radii read back from where the encoder put them |
| OmaProperties.DecodeEncoding | oma_generator.py:118-168 | parsing an encoding gives version 1, the timestamp, the device string, the completed measurements and the radii |
| OmaProperties.RoundTrip | oma_generator.py:118-168 | the same, whatever bytes follow the encoding |
| OmaProperties.DecodeOfReads | oma_generator.py:118-168 | the parse returns a record when each of its reads returns that record's part |
| OmaProperties.ReadsOfDecode | oma_generator.py:118-168 | a successful parse is made of successful reads, each returning its part of the record |
| OmaProperties.EncodedLength | oma_generator.py:50 | an encoding is exactly as long as the fields of the record it parses to |
| OmaProperties.DecodeFitsBuffer | oma_generator.py:136-154 | a successful parse had every declared byte available |
| OmaProperties.ReadBytesWithTrailing | oma_generator.py:123 | appended bytes do not change a whole fixed-size read |
| OmaProperties.ReadU32WithTrailing | oma_generator.py:129-133 | appended bytes do not change a u32 read |
| OmaProperties.ReadTextWithTrailing | oma_generator.py:136-139 | appended bytes do not change a text read that stayed inside the buffer |
| OmaProperties.ReadMeasurementsWithTrailing | oma_generator.py:148-151 | appended bytes do not change the measurement read |
| OmaProperties.ReadRadiiWithTrailing | oma_generator.py:154 | appended bytes do not change the radius read |
| OmaProperties.DecodeIgnoresTrailing | oma_generator.py:154 | bytes after the radius section are never looked at |
| OmaProperties.DecodeOfPrefix | oma_generator.py:118-168 | a prefix that parses parses to the same record as the whole buffer |
| OmaProperties.DecodeRejectsPrefixOfWhole | oma_generator.py:136-154 | a buffer parsed using all its bytes has no proper prefix that parses |
| OmaProperties.DecodeRejectsPrefix | oma_generator.py:136-154 | no proper prefix of an encoding parses: a buffer shorter than the declared lengths never yields a record |
| OmaProperties.DecodeRejectsBadMagic | oma_generator.py:123-127 | a buffer not starting with `OMAF` fails as an invalid format |
| OmaProperties.DecodeRejectsShortHeader | oma_generator.py:123-133 | a buffer ending within the 16 fixed header bytes fails as truncated, unless its magic is already wrong |
| OmaProperties.DecodeRejectsBadTimestamp | oma_generator.py:136-138 | timestamp bytes that are not UTF-8 fail as a decode error |
| OmaProperties.DecodedHeaderFields | oma_generator.py:129-133 | the parsed version and radius count are the u32 values at bytes 4 and 8 |
| OmaSample.SampleEncodes | oma_generator.py:248-261 | the sample encodes into 2080 + timestamp bytes, its header declaring 1000 radii |
| OmaSample.SampleRoundTrip | oma_generator.py:248-261 | the sample reads back with version 1, its timestamp, the device string, width 1552, height 51, centre (776, 25), area and perimeter bits, and its radii |
| OmaSample.SampleTenBytesTruncated | oma_generator.py:123-133 | the sample's first ten bytes fail to parse as truncated |
| FrameProcessing.Accepted | frame_processor.py:67-79 | the filter keeps at most the contours it was given, and each one kept has area above 1000 and a 4 to 8 vertex polygon fit |
| FrameProcessing.AcceptedMembers | frame_processor.py:67-79 | a contour is kept exactly when it was found and has area above 1000 and a 4 to 8 vertex polygon fit |
| FrameProcessing.AcceptedAppend | frame_processor.py:67-79 | filtering commutes with concatenation, so kept contours keep their relative order |
| FrameProcessing.AcceptedAll | frame_processor.py:67-79 | when every contour passes, all are kept |
| FrameProcessing.MainContourIndex | frame_processor.py:114 | `max(..., key=contourArea)` picks a contour of largest area with every earlier contour strictly smaller |
| FrameProcessing.Truncate | frame_processor.py:125-126 | `int()` rounds toward zero |
| FrameProcessing.Clamp | frame_processor.py:153 | the clamped radius lies in [1500, 2700]: it is unchanged when already inside, 1500 when below and 2700 when above |
| FrameProcessing.MeasurementsOf | frame_processor.py:106-132 | the measurements of a contour list: empty exactly for no contours; otherwise the area is that of the largest contour, no contour is larger, and a centre is present exactly when that contour's m00 is not 0 |
| FrameProcessing.CurveRange | frame_processor.py:144-153 | with sin and cos in [-1, 1], the curve lies in [1400, 1700], so every profile entry lies in [1500, 1700] and the upper clamp never applies |
| FrameProcessing.ProfileRadius | frame_processor.py:143-154 | every profile entry is an integer in [1500, 2700] |
| FrameProcessing.FrameProcessor.constructor | frame_processor.py:15-18 | a new processor has no frame and no contours |
| FrameProcessing.FrameProcessor.ProcessFrame | frame_processor.py:20-39 | returns true exactly when there is a frame with a kept contour; only then are the contours and the frame replaced, otherwise nothing changes |
| FrameProcessing.FrameProcessor.DetectFrameContours | frame_processor.py:59-79 | the found contours that pass the filter, in order |
| FrameProcessing.FrameProcessor.ExtractMeasurements | frame_processor.py:106-132 | equals `MeasurementsOf` of the stored contours: empty exactly without contours; otherwise box, area and perimeter of the first largest contour, with a centre exactly when m00 is not 0, truncated toward zero |
| FrameProcessing.FrameProcessor.GenerateRadiiData | frame_processor.py:134-156 | empty without a centre, otherwise 1000 entries, each the clamped, truncated curve at its angle, all in [1500, 2700] |
| FrameProcessing.FrameProcessor.ExtractScanData | frame_processor.py:81-104 | nothing, and no state change, without a frame or a kept contour; otherwise the record of the newly stored contours, its measurements `MeasurementsOf` those contours, and a profile of 1000 entries exactly when the largest contour's m00 is not 0 |
| ScanExport.ExportSucceedsIff | main.py:79-94 | a reported profile never makes writing fail; writing a scan fails only on a measurement out of u32 range or an over-long timestamp |
| ScanExport.ExportRoundTrip | main.py:79-94 | a written scan reads back with its timestamp, width, height, area and perimeter bits, centre (or (0, 0)) and radii |

## Left out

- OmaSample.SampleEncodes: takes the sample's 1000 radii as a parameter, any 1000 values that fit a u16, instead of the literal list at oma_generator.py:194-245. A 1000-element literal puts every proof that mentions it over the verifier's resource budget. The listed values all lie in [1536, 2668].
- OmaSample.SampleRoundTrip: the same parameter in place of the literal radius list.
- OmaSample.SampleTenBytesTruncated: the same parameter in place of the literal radius list.
- OmaCodec.Decode: its own contract states only the magic check. The full characterisation of the parse is in `ReadsOfDecode` and `DecodeOfReads`, and the round trip in `RoundTrip`.
- The parser is modelled as a pure cursor parser. Each read returns the value and the next offset, instead of a loop body that updates an `offset` variable. The offsets are the same.
- Floating point: area and perimeter are kept as the eight bytes `struct.pack('<d')` writes. The conversion from the processor's numbers to those bytes is the parameter `toF64` in `ScanExport`. The sample's two values are written out as their bytes.
- FrameProcessing.Curve: computes the radius curve on exact reals, with `sin`, `cos` and `pi` given as parameters. Float rounding in the curve and in the centroid division is not modelled.
- OpenCV: `cvtColor`, `GaussianBlur`, `adaptiveThreshold`, `morphologyEx`, `findContours`, `contourArea`, `arcLength`, `approxPolyDP`, `moments` and `boundingRect` are foreign calls, given as the function-valued fields of `OpenCv`. `_preprocess_frame` is their composition, `Preprocess`.
- FrameProcessing.Preprocess: has no contract of its own. It is the composition of four OpenCV calls, which are parameters, so nothing holds of it beyond its definition; `ProcessFrame` states its result through `Detected`.
- `timestamp.encode('utf-8')` raises `UnicodeEncodeError` on a lone surrogate. A Dafny `char` cannot hold one, so that error is not modelled; the timestamps passed in are `isoformat()` strings, which are ASCII.
- FrameProcessing.FrameProcessor.ExtractScanData: its contract assumes no other call on the same processor runs between `process_frame` and `_extract_measurements`. In `main.py` the capture thread calls `process_frame` (main.py:68) on the processor whose `extract_scan_data` the interface calls (main.py:79). A capture in between would replace `scan_contours`, and then the record's measurements need not come from the contours of the frame passed in. Threads are not modelled.
- `_get_timestamp` and `datetime.now()`: clock reads, given as the parameter `now`.
- The unused argument `frame` of `_extract_measurements` and the never-read field `frame_measurements` are not modelled.
- `visualize_scan` and `plot_radii_data`: drawing and plotting.
- `create_oma_file`, `read_oma_file` and `export_to_json`: file I/O, JSON output, and the wrappers that turn exceptions into `None`.
- The unused `oma_header` dictionary of `OMAGenerator`.
- The `contours` and `frame_shape` keys: they are carried in `ScanRecord` but ignored by the OMA writer, as in the source.
- gui.py, main.py (beyond the hand-over modelled in `ScanExport`) and camera_test.py: user interface, camera I/O and threads.
