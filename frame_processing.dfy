/** The decision logic of `FrameProcessor` (frame_processor.py): which
    contours count as a frame, which one is measured, when the processor's
    state is replaced, and the shape of the radius profile it reports.
    OpenCV and the trigonometric functions are not modelled; they are passed
    in as function values, so every property here holds whatever they
    return, except `CurveRange`, which assumes `sin` and `cos` return
    values in [-1, 1]. */
module FrameProcessing {
  import opened Wrappers

  // ------------------------------------------------------------ data model

  type Point = (int, int)

  /** An OpenCV contour: its points in order. */
  type Contour = seq<Point>

  /** A captured frame: its shape (rows, columns, channels) and pixel data. */
  datatype Image = Image(rows: nat, cols: nat, channels: nat, pixels: seq<int>)

  /** `cv2.boundingRect`. */
  datatype Rect = Rect(x: int, y: int, w: int, h: int)

  /** The three raw moments of `cv2.moments` that the processor uses. */
  datatype Moments = Moments(m00: real, m10: real, m01: real)

  /** The OpenCV calls the processor makes, with the arguments it passes
      fixed: BGR to grey, a 5x5 Gaussian blur, an 11-pixel Gaussian adaptive
      threshold, closing then opening with a 3x3 kernel, external contours
      with simple chains, closed arc lengths and closed polygon fits. */
  datatype OpenCv = OpenCv(
    toGray: Image -> Image,
    gaussianBlur: Image -> Image,
    adaptiveThreshold: Image -> Image,
    morphClose: Image -> Image,
    morphOpen: Image -> Image,
    findContours: Image -> seq<Contour>,
    contourArea: Contour -> real,
    arcLength: Contour -> real,
    approxPolyDP: (Contour, real) -> Contour,
    boundingRect: Contour -> Rect,
    moments: Contour -> Moments)

  /** `math.sin`, `math.cos` and `math.pi`. */
  datatype Trig = Trig(sin: real -> real, cos: real -> real, pi: real)

  /** The measurement dictionary: empty, or every key but `center`, which
      is present only when the contour has a non-zero area moment. */
  datatype Measurements =
    | Empty
    | Measured(width: int, height: int, area: real, center: Option<(int, int)>, perimeter: real)

  /** The dictionary `extract_scan_data` returns. */
  datatype ScanRecord = ScanRecord(
    timestamp: string,
    measurements: Measurements,
    radii: seq<int>,
    contours: seq<Contour>,
    frameShape: (nat, nat, nat))

  // ------------------------------------------------------- contour filter

  /** `_preprocess_frame`: blur, threshold, close, open. */
  function Preprocess(cv: OpenCv, gray: Image): Image {
    cv.morphOpen(cv.morphClose(cv.adaptiveThreshold(cv.gaussianBlur(gray))))
  }

  /** Area above 1000 and a polygon fit, at 2% of the perimeter, of 4 to 8
      vertices. */
  predicate IsFrameCandidate(cv: OpenCv, c: Contour) {
    cv.contourArea(c) > 1000.0
    && 4 <= |cv.approxPolyDP(c, 0.02 * cv.arcLength(c))| <= 8
  }

  /** The candidates among `xs`, in their order in `xs`. */
  function Accepted(cv: OpenCv, xs: seq<Contour>): (r: seq<Contour>)
    ensures |r| <= |xs|
    ensures forall k :: 0 <= k < |r| ==> IsFrameCandidate(cv, r[k])
  {
    if xs == [] then []
    else
      var last := xs[|xs| - 1];
      Accepted(cv, xs[..|xs| - 1]) + (if IsFrameCandidate(cv, last) then [last] else [])
  }

  /** The contours `process_frame` keeps for a frame. */
  function Detected(cv: OpenCv, frame: Image): seq<Contour> {
    Accepted(cv, cv.findContours(Preprocess(cv, cv.toGray(frame))))
  }

  /** A contour is kept exactly when it is one of the input and a candidate. */
  lemma {:induction false} AcceptedMembers(cv: OpenCv, xs: seq<Contour>, c: Contour)
    ensures c in Accepted(cv, xs) <==> c in xs && IsFrameCandidate(cv, c)
  {
    if xs != [] {
      var init := xs[..|xs| - 1];
      AcceptedMembers(cv, init, c);
      assert xs == init + [xs[|xs| - 1]];
    }
  }

  /** Filtering a concatenation filters each part and keeps them in order:
      accepted contours keep their relative order. */
  lemma {:induction false} AcceptedAppend(cv: OpenCv, xs: seq<Contour>, ys: seq<Contour>)
    ensures Accepted(cv, xs + ys) == Accepted(cv, xs) + Accepted(cv, ys)
    decreases |ys|
  {
    if ys == [] {
      assert xs + ys == xs;
    } else {
      var init := ys[..|ys| - 1];
      var last := ys[|ys| - 1];
      AcceptedAppend(cv, xs, init);
      assert (xs + ys)[..|xs + ys| - 1] == xs + init;
      assert (xs + ys)[|xs + ys| - 1] == last;
    }
  }

  /** When every contour is a candidate nothing is dropped. */
  lemma {:induction false} AcceptedAll(cv: OpenCv, xs: seq<Contour>)
    requires forall i :: 0 <= i < |xs| ==> IsFrameCandidate(cv, xs[i])
    ensures Accepted(cv, xs) == xs
  {
    if xs != [] {
      var init := xs[..|xs| - 1];
      AcceptedAll(cv, init);
      assert init + [xs[|xs| - 1]] == xs;
    }
  }

  // ---------------------------------------------------------- measurement

  /** Python's `max(xs, key=area)`: the index of the first contour of
      largest area. */
  function MainContourIndex(cv: OpenCv, xs: seq<Contour>): (i: nat)
    requires xs != []
    ensures i < |xs|
    ensures forall k :: 0 <= k < |xs| ==> cv.contourArea(xs[k]) <= cv.contourArea(xs[i])
    ensures forall k :: 0 <= k < i ==> cv.contourArea(xs[k]) < cv.contourArea(xs[i])
  {
    if |xs| == 1 then 0
    else
      var best := MainContourIndex(cv, xs[..|xs| - 1]);
      if cv.contourArea(xs[|xs| - 1]) > cv.contourArea(xs[best]) then |xs| - 1 else best
  }

  /** Python's `int(x)` on a float: the integer part, rounding toward zero. */
  function Truncate(x: real): (r: int)
    ensures 0.0 <= x ==> r as real <= x < r as real + 1.0
    ensures x < 0.0 ==> r as real - 1.0 < x <= r as real
  {
    if x >= 0.0 then x.Floor else -((-x).Floor)
  }

  /** What `_extract_measurements` computes from stored contours `xs`:
      nothing for none, otherwise the bounding box, area and perimeter of
      the first largest contour, and its centroid truncated toward zero
      when its area moment is not zero. */
  function MeasurementsOf(cv: OpenCv, xs: seq<Contour>): (m: Measurements)
    ensures m.Empty? <==> xs == []
    ensures m.Measured? ==>
      var main := xs[MainContourIndex(cv, xs)];
      && m.area == cv.contourArea(main)
      && forall k :: 0 <= k < |xs| ==> cv.contourArea(xs[k]) <= m.area
    ensures HasCenter(m) <==> xs != [] && cv.moments(xs[MainContourIndex(cv, xs)]).m00 != 0.0
  {
    if xs == [] then Empty
    else
      var main := xs[MainContourIndex(cv, xs)];
      var mo := cv.moments(main);
      Measured(
        cv.boundingRect(main).w,
        cv.boundingRect(main).h,
        cv.contourArea(main),
        if mo.m00 != 0.0 then Some((Truncate(mo.m10 / mo.m00), Truncate(mo.m01 / mo.m00))) else None,
        cv.arcLength(main))
  }

  // --------------------------------------------------------- radius curve

  const ProfileLength: nat := 1000
  const MinRadius: int := 1500
  const MaxRadius: int := 2700

  /** `base_radius + variation` for sample `i`: 1550 plus a two-lobed sine
      and a three-lobed cosine of the angle `i / 1000` of a turn. */
  function Curve(trig: Trig, i: nat): real {
    1550.0 + (100.0 * trig.sin(Angle(i, trig.pi) * 2.0) + 50.0 * trig.cos(Angle(i, trig.pi) * 3.0))
  }

  /** `(i / 1000) * 2 * pi`: sample `i` of 1000 evenly spaced angles. */
  function Angle(i: nat, pi: real): real {
    (i as real / 1000.0) * 2.0 * pi
  }

  /** With `sin` and `cos` in [-1, 1] the curve stays within 150 of 1550,
      so only the lower clamp bound can ever take effect. */
  lemma CurveRange(trig: Trig, i: nat)
    requires -1.0 <= trig.sin(Angle(i, trig.pi) * 2.0) <= 1.0
    requires -1.0 <= trig.cos(Angle(i, trig.pi) * 3.0) <= 1.0
    ensures 1400.0 <= Curve(trig, i) <= 1700.0
    ensures MinRadius <= ProfileRadius(trig, i) <= 1700
  {
    assert Clamp(Curve(trig, i)) <= 1700.0;
  }

  /** `max(1500, min(2700, r))`, Python's `min` and `max` keeping their
      first argument on a tie. */
  function Clamp(r: real): (c: real)
    ensures MinRadius as real <= c <= MaxRadius as real
    ensures MinRadius as real <= r <= MaxRadius as real ==> c == r
    ensures r < MinRadius as real ==> c == MinRadius as real
    ensures r > MaxRadius as real ==> c == MaxRadius as real
  {
    var upper := if r < MaxRadius as real then r else MaxRadius as real;
    if upper > MinRadius as real then upper else MinRadius as real
  }

  /** Entry `i` of the profile: the clamped curve truncated to an integer,
      which stays within the clamp's bounds. */
  function ProfileRadius(trig: Trig, i: nat): (r: int)
    ensures MinRadius <= r <= MaxRadius
  {
    Truncate(Clamp(Curve(trig, i)))
  }

  /** Whether `_generate_radii_data` finds a `center` key to work from. */
  predicate HasCenter(m: Measurements) {
    m.Measured? && m.center.Some?
  }

  /** A radius list the processor can report: empty or 1000 entries, each in
      the clamp's range. */
  predicate IsReportedProfile(radii: seq<int>) {
    (|radii| == 0 || |radii| == ProfileLength)
    && forall i :: 0 <= i < |radii| ==> MinRadius <= radii[i] <= MaxRadius
  }

  // ------------------------------------------------------------ processor

  class FrameProcessor {
    const cv: OpenCv
    const trig: Trig
    var lastProcessedFrame: Option<Image>
    var scanContours: seq<Contour>

    constructor (cv: OpenCv, trig: Trig)
      ensures this.cv == cv && this.trig == trig
      ensures lastProcessedFrame == None && scanContours == []
    {
      this.cv := cv;
      this.trig := trig;
      lastProcessedFrame := None;
      scanContours := [];
    }

    /** `process_frame`: the processor's contours and frame are replaced
        only when the frame yields at least one candidate. */
    method ProcessFrame(frame: Option<Image>) returns (found: bool)
      modifies this
      ensures found <==> frame.Some? && Detected(cv, frame.value) != []
      ensures found ==> scanContours == Detected(cv, frame.value) && lastProcessedFrame == frame
      ensures !found ==> scanContours == old(scanContours) && lastProcessedFrame == old(lastProcessedFrame)
    {
      if frame.None? {
        return false;
      }
      var gray := cv.toGray(frame.value);
      var processed := Preprocess(cv, gray);
      var contours := DetectFrameContours(processed);
      if contours != [] {
        scanContours := contours;
        lastProcessedFrame := frame;
        return true;
      }
      return false;
    }

    /** `_detect_frame_contours`: the found contours that pass the area and
        vertex-count tests, in the order found. */
    method DetectFrameContours(processed: Image) returns (valid: seq<Contour>)
      ensures valid == Accepted(cv, cv.findContours(processed))
    {
      var contours := cv.findContours(processed);
      valid := [];
      var i := 0;
      while i < |contours|
        invariant 0 <= i <= |contours|
        invariant valid == Accepted(cv, contours[..i])
      {
        var contour := contours[i];
        var area := cv.contourArea(contour);
        if area > 1000.0 {
          var epsilon := 0.02 * cv.arcLength(contour);
          var approx := cv.approxPolyDP(contour, epsilon);
          if |approx| >= 4 && |approx| <= 8 {
            valid := valid + [contour];
          }
        }
        assert contours[..i + 1][..i] == contours[..i];
        i := i + 1;
      }
      assert contours[..i] == contours;
    }

    /** `_extract_measurements`: nothing without stored contours, otherwise
        the bounding box, area and perimeter of the first largest contour,
        and its centroid truncated toward zero when its area moment is not
        zero. */
    method ExtractMeasurements() returns (m: Measurements)
      ensures m == MeasurementsOf(cv, scanContours)
      ensures m.Empty? <==> scanContours == []
      ensures m.Measured? ==>
        var main := scanContours[MainContourIndex(cv, scanContours)];
        var mo := cv.moments(main);
        && m.width == cv.boundingRect(main).w
        && m.height == cv.boundingRect(main).h
        && m.area == cv.contourArea(main)
        && m.perimeter == cv.arcLength(main)
        && (m.center.Some? <==> mo.m00 != 0.0)
        && (m.center.Some? ==> m.center.value == (Truncate(mo.m10 / mo.m00), Truncate(mo.m01 / mo.m00)))
    {
      if scanContours == [] {
        return Empty;
      }
      var main := scanContours[MainContourIndex(cv, scanContours)];
      var rect := cv.boundingRect(main);
      var area := cv.contourArea(main);
      var mo := cv.moments(main);
      var center := None;
      if mo.m00 != 0.0 {
        var cx := Truncate(mo.m10 / mo.m00);
        var cy := Truncate(mo.m01 / mo.m00);
        center := Some((cx, cy));
      }
      var perimeter := cv.arcLength(main);
      m := Measured(rect.w, rect.h, area, center, perimeter);
    }

    /** `_generate_radii_data`: no profile without a centre, otherwise 1000
        entries, each the curve at its angle clamped to [1500, 2700] and
        truncated. */
    method GenerateRadiiData(m: Measurements) returns (radii: seq<int>)
      ensures !HasCenter(m) ==> radii == []
      ensures HasCenter(m) ==> |radii| == ProfileLength
      ensures forall i :: 0 <= i < |radii| ==> radii[i] == ProfileRadius(trig, i)
      ensures forall i :: 0 <= i < |radii| ==> MinRadius <= radii[i] <= MaxRadius
    {
      if !HasCenter(m) {
        return [];
      }
      radii := [];
      var i := 0;
      while i < ProfileLength
        invariant 0 <= i <= ProfileLength && |radii| == i
        invariant forall j :: 0 <= j < i ==> radii[j] == ProfileRadius(trig, j)
      {
        var angle := (i as real / 1000.0) * 2.0 * trig.pi;
        var baseRadius := 1550.0;
        var variation := 100.0 * trig.sin(angle * 2.0) + 50.0 * trig.cos(angle * 3.0);
        var radius := baseRadius + variation;
        assert angle == Angle(i, trig.pi);
        assert radius == Curve(trig, i);
        radius := Clamp(radius);
        radii := radii + [Truncate(radius)];
        i := i + 1;
      }
    }

    /** `extract_scan_data`: no record when there is no frame or it yields no
        candidate (the stored state is then untouched); otherwise the record
        of the newly stored contours, stamped with the clock reading `now`. */
    method ExtractScanData(frame: Option<Image>, now: string) returns (r: Option<ScanRecord>)
      modifies this
      ensures r.Some? <==> frame.Some? && Detected(cv, frame.value) != []
      ensures r.None? ==> scanContours == old(scanContours) && lastProcessedFrame == old(lastProcessedFrame)
      ensures r.Some? ==>
        && scanContours == Detected(cv, frame.value) && lastProcessedFrame == frame
        && r.value.contours == scanContours
        && r.value.timestamp == now
        && r.value.frameShape == (frame.value.rows, frame.value.cols, frame.value.channels)
        && r.value.measurements == MeasurementsOf(cv, scanContours)
        && r.value.measurements.Measured?
        && (|r.value.radii| == ProfileLength <==> cv.moments(scanContours[MainContourIndex(cv, scanContours)]).m00 != 0.0)
        && (|r.value.radii| == ProfileLength <==> HasCenter(r.value.measurements))
        && (r.value.radii == [] <==> !HasCenter(r.value.measurements))
        && (forall i :: 0 <= i < |r.value.radii| ==> r.value.radii[i] == ProfileRadius(trig, i))
        && IsReportedProfile(r.value.radii)
    {
      if frame.None? {
        return None;
      }
      var found := ProcessFrame(frame);
      if !found {
        return None;
      }
      var measurements := ExtractMeasurements();
      var radii := GenerateRadiiData(measurements);
      var f := frame.value;
      r := Some(ScanRecord(now, measurements, radii, scanContours, (f.rows, f.cols, f.channels)));
    }
  }
}
