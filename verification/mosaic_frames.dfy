/** The frame-level helpers of the face-mosaic server (api/main.py): reading
    the rotation out of the probed metadata, the turn `rotate_frame` applies,
    the ffmpeg filter chosen for each rotation, padding and clamping of a
    detected face box, the mosaic's block size and failure modes, the
    previous-frame fallback of `process_frame`, and the frame loop of
    `process_video`. Probing, decoding, detection and encoding are external:
    their results are the inputs here. */
module MosaicFrames {
  import opened Common

  /** Python's `int(x)` on a float: truncation toward zero. */
  function TruncToInt(v: real): (t: int)
    ensures v >= 0.0 ==> t as real <= v < t as real + 1.0
    ensures v < 0.0 ==> t as real - 1.0 < v <= t as real
  {
    if v >= 0.0 then v.Floor else -((-v).Floor)
  }

  // ---- rotation metadata ----

  /** A rotation value found in the metadata, after `float()`: a finite
      number, or something `float()`/`int()` reject (text, infinities, NaN). */
  datatype RawRotation = Numeric(value: real) | Malformed

  /** The first video stream as probed: its `rotate` tag, if any, and for each
      side-data entry the `rotation` it carries, if any. */
  datatype ProbeStream = ProbeStream(rotateTag: Option<RawRotation>, sideData: seq<Option<RawRotation>>)

  /** The probe's outcome: failed (non-zero exit, unreadable output), or the
      parsed `streams` list, which may be absent. */
  datatype Probe = ProbeFailed | ProbeOutput(streams: Option<seq<ProbeStream>>)

  /** The tag's value, `"0"` when the stream has no `rotate` tag. */
  function TagValue(s: ProbeStream): RawRotation {
    match s.rotateTag
    case None => Numeric(0.0)
    case Some(v) => v
  }

  /** The loop over the side data: every entry with a rotation replaces the current value. */
  function ScanRotation(current: RawRotation, sideData: seq<Option<RawRotation>>): RawRotation
    decreases |sideData|
  {
    if sideData == [] then current
    else ScanRotation(if sideData[0].Some? then sideData[0].value else current, sideData[1..])
  }

  /** Entry `i` is the last side-data entry that carries a rotation. */
  predicate IsLastEntry(sideData: seq<Option<RawRotation>>, i: int) {
    0 <= i < |sideData| && sideData[i].Some? && forall j :: i < j < |sideData| ==> sideData[j].None?
  }

  /** The last side-data rotation wins; without one the starting value stays. */
  lemma {:induction false} LastSideDataWins(current: RawRotation, sideData: seq<Option<RawRotation>>)
    ensures forall i :: IsLastEntry(sideData, i) ==> ScanRotation(current, sideData) == sideData[i].value
    ensures (forall i :: 0 <= i < |sideData| ==> sideData[i].None?) ==> ScanRotation(current, sideData) == current
    decreases |sideData|
  {
    if sideData != [] {
      var rest := sideData[1..];
      var next := if sideData[0].Some? then sideData[0].value else current;
      LastSideDataWins(next, rest);
      forall i | IsLastEntry(sideData, i) ensures ScanRotation(current, sideData) == sideData[i].value {
        if i > 0 {
          assert IsLastEntry(rest, i - 1) by {
            forall j | i - 1 < j < |rest| ensures rest[j].None? {
              assert rest[j] == sideData[j + 1];
            }
          }
        } else {
          forall j | 0 <= j < |rest| ensures rest[j].None? {
            assert rest[j] == sideData[j + 1];
          }
        }
      }
      if forall i :: 0 <= i < |sideData| ==> sideData[i].None? {
        forall j | 0 <= j < |rest| ensures rest[j].None? {
          assert rest[j] == sideData[j + 1];
        }
      }
    }
  }

  /** `int(float(rotation)) % 360`, or 0 when the conversion raises. Python's
      `%` with a positive divisor never yields a negative value. */
  function NormalizeRotation(raw: RawRotation): (r: int)
    ensures 0 <= r < 360
    ensures raw.Malformed? ==> r == 0
    ensures raw.Numeric? ==> (TruncToInt(raw.value) - r) % 360 == 0
  {
    match raw
    case Malformed => 0
    case Numeric(v) => TruncToInt(v) % 360
  }

  lemma NormalizeRotationExamples()
    ensures NormalizeRotation(Numeric(-90.0)) == 270
    ensures NormalizeRotation(Numeric(-90.5)) == 270
    ensures NormalizeRotation(Numeric(90.0)) == 90
    ensures NormalizeRotation(Numeric(450.0)) == 90
    ensures NormalizeRotation(Numeric(-360.0)) == 0
  {
  }

  /** `get_video_rotation`: the first stream's last side-data rotation, else its
      `rotate` tag, else 0, normalised into 0..359; any failure gives 0. */
  function GetVideoRotation(probe: Probe): (r: int)
    ensures 0 <= r < 360
    ensures probe.ProbeFailed? ==> r == 0
    ensures probe.ProbeOutput? && probe.streams == Some([]) ==> r == 0
    ensures probe.ProbeOutput? && probe.streams.None? ==> r == 0
    ensures probe.ProbeOutput? && probe.streams.Some? && |probe.streams.value| > 0 ==>
              var s := probe.streams.value[0];
              && (forall i :: IsLastEntry(s.sideData, i) ==> r == NormalizeRotation(s.sideData[i].value))
              && ((forall i :: 0 <= i < |s.sideData| ==> s.sideData[i].None?) ==> r == NormalizeRotation(TagValue(s)))
  {
    match probe
    case ProbeFailed => 0
    case ProbeOutput(streams) =>
      if streams.None? then NormalizeRotation(Numeric(0.0))  // a missing list reads as one empty stream
      else if streams.value == [] then 0                     // indexing an empty list raises
      else
        var s := streams.value[0];
        LastSideDataWins(TagValue(s), s.sideData);
        NormalizeRotation(ScanRotation(TagValue(s), s.sideData))
  }

  // ---- turning frames ----

  /** The turn `rotate_frame` gives a frame. */
  datatype Turn = NoTurn | Clockwise | CounterClockwise | HalfTurn

  /** Clockwise quarter turns a turn amounts to. */
  function QuarterTurns(t: Turn): nat {
    match t
    case NoTurn => 0
    case Clockwise => 1
    case HalfTurn => 2
    case CounterClockwise => 3
  }

  /** `rotate_frame`: dispatches on the exact angle; any angle it does not list
      leaves the frame as it is. */
  function RotateFrame(rotation: int): (t: Turn)
    ensures t != NoTurn ==> rotation % 90 == 0 && -270 <= rotation <= 270 && rotation != 0
  {
    if rotation == 0 then NoTurn
    else if rotation == 90 || rotation == -270 then Clockwise
    else if rotation == -90 || rotation == 270 then CounterClockwise
    else if rotation == 180 || rotation == -180 then HalfTurn
    else NoTurn
  }

  /** For every multiple of 90 degrees from -360 to 360, `rotate_frame` turns
      the frame clockwise by that angle; other angles are not turned. */
  lemma RotateFrameTurnsByAngle(rotation: int)
    ensures rotation % 90 == 0 && -360 <= rotation <= 360 ==> QuarterTurns(RotateFrame(rotation)) == (rotation / 90) % 4
    ensures rotation % 90 != 0 || rotation < -360 || rotation > 360 ==> RotateFrame(rotation) == NoTurn
  {
  }

  /** One step of the ffmpeg `-vf` chain: a transpose (`transpose=1` turns
      clockwise, `transpose=2` counter-clockwise) or padding to even sides. */
  datatype FilterStep = Transpose(clockwise: bool) | PadToEven

  function StepText(s: FilterStep): string {
    match s
    case Transpose(clockwise) => if clockwise then "transpose=1" else "transpose=2"
    case PadToEven => "pad=ceil(iw/2)*2:ceil(ih/2)*2"
  }

  /** The chain as ffmpeg reads it: the steps joined by commas. */
  function ChainText(c: seq<FilterStep>): string
    decreases |c|
  {
    if c == [] then ""
    else if |c| == 1 then StepText(c[0])
    else StepText(c[0]) + "," + ChainText(c[1..])
  }

  function StepQuarterTurns(s: FilterStep): nat {
    match s
    case Transpose(clockwise) => if clockwise then 1 else 3
    case PadToEven => 0
  }

  /** Clockwise quarter turns a chain applies, modulo a full turn. */
  function ChainQuarterTurns(c: seq<FilterStep>): nat
    decreases |c|
  {
    if c == [] then 0 else (StepQuarterTurns(c[0]) + ChainQuarterTurns(c[1..])) % 4
  }

  /** The filter `process_video` picks for the normalised rotation: it turns
      the video counter-clockwise by that angle (undoing a clockwise rotation),
      and any other value only pads the picture to even sides. */
  function VideoFilter(rotation: int): (c: seq<FilterStep>)
    ensures rotation in {0, 90, 180, 270} ==> (ChainQuarterTurns(c) + rotation / 90) % 4 == 0
    ensures rotation !in {90, 180, 270} ==> c == [PadToEven]
  {
    if rotation == 90 then [Transpose(false)]
    else if rotation == 180 then [Transpose(false), Transpose(false)]
    else if rotation == 270 then [Transpose(true)]
    else [PadToEven]
  }

  lemma VideoFilterTexts()
    ensures ChainText(VideoFilter(90)) == "transpose=2"
    ensures ChainText(VideoFilter(180)) == "transpose=2,transpose=2"
    ensures ChainText(VideoFilter(270)) == "transpose=1"
    ensures ChainText(VideoFilter(0)) == "pad=ceil(iw/2)*2:ceil(ih/2)*2"
  {
  }

  /** For a quarter-turn rotation the chosen filter turns the opposite way to
      `rotate_frame`; for a half turn both agree. */
  lemma FilterOpposesRotateFrame(rotation: int)
    ensures rotation == 90 || rotation == 270 ==>
              && (ChainQuarterTurns(VideoFilter(rotation)) + QuarterTurns(RotateFrame(rotation))) % 4 == 0
              && ChainQuarterTurns(VideoFilter(rotation)) != QuarterTurns(RotateFrame(rotation))
    ensures rotation == 180 ==> ChainQuarterTurns(VideoFilter(rotation)) == QuarterTurns(RotateFrame(rotation)) == 2
  {
  }

  // ---- face boxes ----

  /** A detector bounding box: origin and size in pixels. */
  datatype Detection = Detection(x: int, y: int, width: int, height: int)

  /** A padded box as corners `(x1, y1, x2, y2)`. */
  datatype Corners = Corners(x1: int, y1: int, x2: int, y2: int)

  /** The padding loop body of `process_frame`: grow the box by
      `int(size * padding)` on each side, then clamp it into the frame. */
  function PadBox(d: Detection, padding: real, frameW: int, frameH: int): (c: Corners)
    ensures c.x1 >= 0 && c.y1 >= 0 && c.x2 <= frameW && c.y2 <= frameH
    ensures padding >= 0.0 && d.width >= 0 ==> c.x1 <= Max(0, d.x) && Min(frameW, d.x + d.width) <= c.x2
    ensures padding >= 0.0 && d.height >= 0 ==> c.y1 <= Max(0, d.y) && Min(frameH, d.y + d.height) <= c.y2
  {
    var padX := TruncToInt(d.width as real * padding);
    var padY := TruncToInt(d.height as real * padding);
    Corners(Max(0, d.x - padX), Max(0, d.y - padY), Min(frameW, d.x + d.width + padX), Min(frameH, d.y + d.height + padY))
  }

  /** The padded boxes of a frame's detections, in detection order. */
  function PadAll(ds: seq<Detection>, padding: real, frameW: int, frameH: int): (r: seq<Corners>)
    ensures |r| == |ds|
    ensures forall i :: 0 <= i < |ds| ==> r[i] == PadBox(ds[i], padding, frameW, frameH)
  {
    seq(|ds|, i requires 0 <= i < |ds| => PadBox(ds[i], padding, frameW, frameH))
  }

  // ---- the mosaic ----

  /** `max(1, int(n * ratio))`: the side of the shrunken region. */
  function BlockSize(n: int, ratio: real): (b: int)
    ensures b >= 1
    ensures n >= 1 && 0.0 < ratio <= 1.0 ==> b <= n
    ensures n >= 0 && ratio >= 0.0 ==> (b - 1) as real <= n as real * ratio
  {
    var v := n as real * ratio;
    assert n >= 1 && 0.0 < ratio <= 1.0 ==> v <= n as real by {
      if n >= 1 && 0.0 < ratio <= 1.0 {
        ScaleDown(n as real, ratio);
      }
    }
    Max(1, TruncToInt(v))
  }

  lemma ScaleDown(x: real, ratio: real)
    requires x >= 0.0 && ratio <= 1.0
    ensures x * ratio <= x
  {
    assert x * (1.0 - ratio) >= 0.0;
  }

  /** A slice bound as Python reads it: a negative bound counts from the end. */
  function SliceBound(i: int, n: nat): (k: nat)
    ensures k <= n
    ensures 0 <= i <= n ==> k == i
  {
    if i < 0 then Max(i + n, 0) else Min(i, n)
  }

  /** The length of `a[start:stop]` for a dimension of length `n`. */
  function SliceLength(start: int, stop: int, n: nat): (len: nat)
    ensures len <= n
    ensures 0 <= start <= stop <= n ==> len == stop - start
    ensures 0 <= stop <= start ==> len == 0
  {
    Max(SliceBound(stop, n) - SliceBound(start, n), 0)
  }

  /** What `apply_mosaic` does to a frame of `frameW`×`frameH` pixels. */
  datatype MosaicOutcome =
    | Unchanged                                        // the selected region is empty
    | Pixelated(box: Corners, blockW: int, blockH: int) // the region shrunk to blockW×blockH and scaled back
    | ResizeError                                      // scaling back to a non-positive size raises
    | ShapeMismatch                                    // the scaled block does not fit the selected region

  /** `apply_mosaic` as written: the region is `image[y:y+h, x:x+w]` with
      Python's slice rules, so a negative start counts from the far edge; an
      empty region is left alone; otherwise the region is shrunk and scaled
      back to `w`×`h`, which fails for a non-positive size, and the result is
      written back into the same slice, which fails unless that slice is
      exactly `h` rows by `w` columns. */
  function ApplyMosaic(frameW: nat, frameH: nat, x: int, y: int, w: int, h: int, ratio: real): (o: MosaicOutcome)
    ensures o == Unchanged <==> SliceLength(y, y + h, frameH) == 0 || SliceLength(x, x + w, frameW) == 0
    ensures o == ResizeError <==> o != Unchanged && (w <= 0 || h <= 0)
    ensures o.Pixelated? <==> 0 < w && 0 < h && SliceLength(y, y + h, frameH) == h && SliceLength(x, x + w, frameW) == w
    ensures o.Pixelated? ==>
              var left := SliceBound(x, frameW);
              var top := SliceBound(y, frameH);
              && o.box == Corners(left, top, left + w, top + h)
              && left + w <= frameW && top + h <= frameH
              && o.blockW == BlockSize(w, ratio) && o.blockH == BlockSize(h, ratio)
    ensures 0 <= x && 0 <= y && 0 < w && 0 < h && x + w <= frameW && y + h <= frameH ==>
              o.Pixelated? && o.box == Corners(x, y, x + w, y + h)
  {
    var rows := SliceLength(y, y + h, frameH);
    var cols := SliceLength(x, x + w, frameW);
    if rows == 0 || cols == 0 then Unchanged
    else if w <= 0 || h <= 0 then ResizeError
    else if rows != h || cols != w then ShapeMismatch
    else
      var left := SliceBound(x, frameW);
      var top := SliceBound(y, frameH);
      Pixelated(Corners(left, top, left + w, top + h), BlockSize(w, ratio), BlockSize(h, ratio))
  }

  /** A box wholly left of the frame selects columns counted from the right
      edge, which are pixelated when that slice has the full width; a box
      straddling the left edge selects nothing; a box running past the right
      edge selects too few columns for the scaled block. */
  lemma WrappedRegionIsPixelated()
    ensures ApplyMosaic(100, 100, -10, 0, 5, 5, 0.05) == Pixelated(Corners(90, 0, 95, 5), 1, 1)
    ensures ApplyMosaic(100, 100, -3, 0, 5, 5, 0.05) == Unchanged
    ensures ApplyMosaic(100, 100, 96, 0, 10, 5, 0.05) == ShapeMismatch
  {
    assert TruncToInt(5 as real * 0.05) == 0;
  }

  /** Whether the mosaic step raises instead of returning a frame. */
  predicate Raises(o: MosaicOutcome) {
    o.ResizeError? || o.ShapeMismatch?
  }

  /** `apply_mosaic` on a padded box, as `process_frame` calls it. */
  function MosaicBox(frameW: nat, frameH: nat, c: Corners, ratio: real): MosaicOutcome {
    ApplyMosaic(frameW, frameH, c.x1, c.y1, c.x2 - c.x1, c.y2 - c.y1, ratio)
  }

  /** A detection wholly above the frame is padded into a box whose bottom is
      negative; Python then reads that bottom from the end of the frame, the
      region is not empty, and scaling back to a negative height raises. */
  lemma OffFrameFaceRaises()
    ensures var c := PadBox(Detection(10, -100, 20, 20), 0.4, 640, 480);
            c == Corners(2, 0, 38, -72) && MosaicBox(640, 480, c, 0.05) == ResizeError
    ensures var r := ProcessFrame([Detection(10, -100, 20, 20)], 0.4, 640, 480, None);
            FrameMosaics(640, 480, r, 0.05) == [ResizeError]
            && FrameMosaicsChecked(640, 480, r, 0.05) == [Unchanged]
  {
    var c := PadBox(Detection(10, -100, 20, 20), 0.4, 640, 480);
    assert TruncToInt(20 as real * 0.4) == 8;
    var r := ProcessFrame([Detection(10, -100, 20, 20)], 0.4, 640, 480, None);
    assert r.faces == [c];
  }

  /** The mosaic step with the guard the empty-region check stands for: a box
      with no width or height is skipped. */
  function MosaicBoxChecked(frameW: nat, frameH: nat, c: Corners, ratio: real): (o: MosaicOutcome)
    ensures c.x2 <= c.x1 || c.y2 <= c.y1 ==> o == Unchanged
    ensures c.x1 < c.x2 && c.y1 < c.y2 ==> o == MosaicBox(frameW, frameH, c, ratio)
  {
    if c.x2 <= c.x1 || c.y2 <= c.y1 then Unchanged else MosaicBox(frameW, frameH, c, ratio)
  }

  /** With the guard, every padded box is either skipped or pixelated exactly
      in place, whatever the detector reports. */
  lemma CheckedMosaicNeverFails(d: Detection, padding: real, frameW: nat, frameH: nat, ratio: real)
    ensures var c := PadBox(d, padding, frameW, frameH);
            var o := MosaicBoxChecked(frameW, frameH, c, ratio);
            (o == Unchanged || o.Pixelated?)
            && (o.Pixelated? <==> c.x1 < c.x2 && c.y1 < c.y2)
            && (o.Pixelated? ==> o.box == c)
  {
  }

  /** Without the guard the same holds as long as the padded box does not end
      above or left of the frame. */
  lemma MosaicSafeForBoxesReachingTheFrame(d: Detection, padding: real, frameW: nat, frameH: nat, ratio: real)
    requires var c := PadBox(d, padding, frameW, frameH); c.x2 >= 0 && c.y2 >= 0
    ensures var c := PadBox(d, padding, frameW, frameH);
            var o := MosaicBox(frameW, frameH, c, ratio);
            (o == Unchanged || o.Pixelated?) && (o.Pixelated? <==> c.x1 < c.x2 && c.y1 < c.y2)
  {
  }

  // ---- frames ----

  /** What `process_frame` reports: how many faces it detected and the boxes
      it mosaicked, which it also hands back for the next frame. */
  datatype FrameResult = FrameResult(count: nat, faces: seq<Corners>)

  /** `process_frame`: this frame's padded detections; with none, the boxes of
      a non-empty previous list are mosaicked again and handed back, with a
      count of 0. */
  function ProcessFrame(ds: seq<Detection>, padding: real, frameW: int, frameH: int,
                        previous: Option<seq<Corners>>): (r: FrameResult)
    ensures r.count == |ds|
    ensures |ds| > 0 ==> r.faces == PadAll(ds, padding, frameW, frameH)
    ensures |ds| == 0 && previous.Some? && previous.value != [] ==> r.faces == previous.value
    ensures |ds| == 0 && (previous.None? || previous.value == []) ==> r.faces == []
  {
    var current := PadAll(ds, padding, frameW, frameH);
    if previous.Some? && previous.value != [] && |ds| == 0 then FrameResult(0, previous.value)
    else FrameResult(|ds|, current)
  }

  /** A box that starts inside the frame and ends no further than its far edges,
      as every padded box does. */
  predicate Clamped(c: Corners, frameW: int, frameH: int) {
    0 <= c.x1 && 0 <= c.y1 && c.x2 <= frameW && c.y2 <= frameH
  }

  /** The mosaic outcome of every box a frame result asks for, as the frame
      step applies them, without a guard: a box inside the frame that is not
      inverted is skipped exactly when it has no area and otherwise pixelated
      in place. */
  function FrameMosaics(frameW: nat, frameH: nat, r: FrameResult, ratio: real): (os: seq<MosaicOutcome>)
    ensures |os| == |r.faces|
    ensures forall i :: 0 <= i < |os| ==> os[i] == MosaicBox(frameW, frameH, r.faces[i], ratio)
    ensures forall i :: 0 <= i < |os| && Clamped(r.faces[i], frameW, frameH)
                        && r.faces[i].x1 <= r.faces[i].x2 && r.faces[i].y1 <= r.faces[i].y2 ==>
              var c := r.faces[i];
              && (os[i] == Unchanged <==> c.x2 == c.x1 || c.y2 == c.y1)
              && (os[i] != Unchanged ==> os[i].Pixelated? && os[i].box == c)
  {
    seq(|r.faces|, i requires 0 <= i < |r.faces| => MosaicBox(frameW, frameH, r.faces[i], ratio))
  }

  /** The frame step with the guard: every box inside the frame is skipped
      exactly when it has no area, inverted ones included, and is otherwise
      pixelated in place. */
  function FrameMosaicsChecked(frameW: nat, frameH: nat, r: FrameResult, ratio: real): (os: seq<MosaicOutcome>)
    ensures |os| == |r.faces|
    ensures forall i :: 0 <= i < |os| ==> os[i] == MosaicBoxChecked(frameW, frameH, r.faces[i], ratio)
    ensures forall i :: 0 <= i < |os| && Clamped(r.faces[i], frameW, frameH) ==>
              var c := r.faces[i];
              && (os[i] == Unchanged <==> c.x2 <= c.x1 || c.y2 <= c.y1)
              && (os[i] != Unchanged ==> os[i].Pixelated? && os[i].box == c)
  {
    seq(|r.faces|, i requires 0 <= i < |r.faces| => MosaicBoxChecked(frameW, frameH, r.faces[i], ratio))
  }

  /** The frame step raises exactly when the mosaic of one of the frame's own
      padded detections raises; with no detections and nothing remembered it
      applies nothing. */
  lemma {:induction false} FrameRaisesOnSomeDetection(ds: seq<Detection>, padding: real, frameW: nat, frameH: nat, ratio: real)
    ensures var os := FrameMosaics(frameW, frameH, ProcessFrame(ds, padding, frameW, frameH, None), ratio);
            (exists i :: 0 <= i < |os| && Raises(os[i]))
            <==> exists i :: 0 <= i < |ds| && Raises(MosaicBox(frameW, frameH, PadBox(ds[i], padding, frameW, frameH), ratio))
  {
    var r := ProcessFrame(ds, padding, frameW, frameH, None);
    var os := FrameMosaics(frameW, frameH, r, ratio);
    assert |r.faces| == |ds|;
    forall i | 0 <= i < |ds|
      ensures os[i] == MosaicBox(frameW, frameH, PadBox(ds[i], padding, frameW, frameH), ratio)
    {
      assert r.faces[i] == PadBox(ds[i], padding, frameW, frameH);
    }
  }

  /** The last frame before frame `i` in which faces were detected. */
  function LastDetected(frames: seq<seq<Detection>>, i: nat): (k: Option<nat>)
    requires i <= |frames|
    ensures k.Some? ==> k.value < i && |frames[k.value]| > 0 && forall j :: k.value < j < i ==> |frames[j]| == 0
    ensures k.None? ==> forall j :: 0 <= j < i ==> |frames[j]| == 0
  {
    if i == 0 then None
    else if |frames[i - 1]| > 0 then Some(i - 1)
    else LastDetected(frames, i - 1)
  }

  /** The boxes the loop remembers before frame `i`: those of the last frame with detections. */
  function Remembered(frames: seq<seq<Detection>>, i: nat, padding: real, frameW: int, frameH: int): Option<seq<Corners>>
    requires i <= |frames|
  {
    match LastDetected(frames, i)
    case None => None
    case Some(k) => Some(PadAll(frames[k], padding, frameW, frameH))
  }

  /** The boxes the loop mosaics in frame `i`. */
  function FrameFaces(frames: seq<seq<Detection>>, i: nat, padding: real, frameW: int, frameH: int): seq<Corners>
    requires i < |frames|
  {
    ProcessFrame(frames[i], padding, frameW, frameH, Remembered(frames, i, padding, frameW, frameH)).faces
  }

  /** A frame with detections mosaics its own boxes; one without mosaics those
      of the last frame that had detections, or nothing before the first. */
  lemma FrameFacesMeaning(frames: seq<seq<Detection>>, i: nat, padding: real, frameW: int, frameH: int)
    requires i < |frames|
    ensures |frames[i]| > 0 ==> FrameFaces(frames, i, padding, frameW, frameH) == PadAll(frames[i], padding, frameW, frameH)
    ensures |frames[i]| == 0 && LastDetected(frames, i).Some? ==>
              FrameFaces(frames, i, padding, frameW, frameH)
              == PadAll(frames[LastDetected(frames, i).value], padding, frameW, frameH)
    ensures LastDetected(frames, i + 1).None? ==> FrameFaces(frames, i, padding, frameW, frameH) == []
  {
    var k := LastDetected(frames, i);
    if k.Some? {
      assert |PadAll(frames[k.value], padding, frameW, frameH)| > 0;
    }
  }

  /** The mosaic step of frame `k` raises: one of the boxes the frame mosaics
      makes `apply_mosaic` raise. */
  predicate FrameRaisesAt(frames: seq<seq<Detection>>, k: nat, padding: real, ratio: real, frameW: nat, frameH: nat)
    requires k < |frames|
  {
    exists i :: 0 <= i < |FrameFaces(frames, k, padding, frameW, frameH)|
                && Raises(MosaicBox(frameW, frameH, FrameFaces(frames, k, padding, frameW, frameH)[i], ratio))
  }

  /** One of a frame's mosaic outcomes is an exception. */
  predicate AnyRaises(os: seq<MosaicOutcome>) {
    exists i :: 0 <= i < |os| && Raises(os[i])
  }

  /** The frame step on the boxes frame `k` mosaics raises exactly when frame `k` raises. */
  lemma FrameStepRaises(frames: seq<seq<Detection>>, k: nat, padding: real, ratio: real, frameW: nat, frameH: nat, r: FrameResult)
    requires k < |frames| && r.faces == FrameFaces(frames, k, padding, frameW, frameH)
    ensures AnyRaises(FrameMosaics(frameW, frameH, r, ratio)) <==> FrameRaisesAt(frames, k, padding, ratio, frameW, frameH)
  {
  }

  /** Some padded detection makes the mosaic step raise. */
  predicate DetectionsRaise(ds: seq<Detection>, padding: real, ratio: real, frameW: nat, frameH: nat) {
    exists i :: 0 <= i < |ds| && Raises(MosaicBox(frameW, frameH, PadBox(ds[i], padding, frameW, frameH), ratio))
  }

  /** A frame with detections raises exactly when one of its padded detections
      does. A frame without detections applies again the boxes of the last frame
      that had some, on a frame of the same size, so it raises exactly when that
      frame did; before the first detection it applies nothing. */
  lemma {:induction false} FrameRaisesMeaning(frames: seq<seq<Detection>>, k: nat, padding: real, ratio: real, frameW: nat, frameH: nat)
    requires k < |frames|
    ensures |frames[k]| > 0 ==>
              (FrameRaisesAt(frames, k, padding, ratio, frameW, frameH) <==> DetectionsRaise(frames[k], padding, ratio, frameW, frameH))
    ensures |frames[k]| == 0 && LastDetected(frames, k).Some? ==>
              (FrameRaisesAt(frames, k, padding, ratio, frameW, frameH)
               <==> FrameRaisesAt(frames, LastDetected(frames, k).value, padding, ratio, frameW, frameH))
    ensures |frames[k]| == 0 && LastDetected(frames, k).None? ==> !FrameRaisesAt(frames, k, padding, ratio, frameW, frameH)
  {
    FrameFacesMeaning(frames, k, padding, frameW, frameH);
    var last := LastDetected(frames, k);
    if |frames[k]| == 0 {
      assert LastDetected(frames, k + 1) == last;
      if last.Some? {
        FrameFacesMeaning(frames, last.value, padding, frameW, frameH);
      }
    }
  }

  /** The first frame whose mosaic step raises is one with detections, and some
      frame raises exactly when some frame's own detections do. */
  lemma {:induction false} VideoRaisesOnSomeDetection(frames: seq<seq<Detection>>, padding: real, ratio: real, frameW: nat, frameH: nat)
    ensures forall k :: 0 <= k < |frames| && FrameRaisesAt(frames, k, padding, ratio, frameW, frameH)
                        && (forall j :: 0 <= j < k ==> !FrameRaisesAt(frames, j, padding, ratio, frameW, frameH)) ==>
              |frames[k]| > 0
    ensures (exists k :: 0 <= k < |frames| && FrameRaisesAt(frames, k, padding, ratio, frameW, frameH))
            <==> exists k :: 0 <= k < |frames| && |frames[k]| > 0 && DetectionsRaise(frames[k], padding, ratio, frameW, frameH)
  {
    forall k | 0 <= k < |frames|
      ensures |frames[k]| > 0 ==>
                (FrameRaisesAt(frames, k, padding, ratio, frameW, frameH) <==> DetectionsRaise(frames[k], padding, ratio, frameW, frameH))
      ensures FrameRaisesAt(frames, k, padding, ratio, frameW, frameH) && |frames[k]| == 0 ==>
                exists j :: 0 <= j < k && |frames[j]| > 0 && FrameRaisesAt(frames, j, padding, ratio, frameW, frameH)
    {
      FrameRaisesMeaning(frames, k, padding, ratio, frameW, frameH);
      if FrameRaisesAt(frames, k, padding, ratio, frameW, frameH) && |frames[k]| == 0 {
        var j := LastDetected(frames, k).value;
        assert 0 <= j < k && |frames[j]| > 0 && FrameRaisesAt(frames, j, padding, ratio, frameW, frameH);
      }
    }
  }

  /** The off-frame face of the finding below, in any frame of a 640×480 video,
      makes the video's mosaic step raise. */
  lemma OffFrameFaceRaisesVideo(frames: seq<seq<Detection>>, k: nat)
    requires k < |frames| && frames[k] == [Detection(10, -100, 20, 20)]
    ensures exists j :: 0 <= j < |frames| && |frames[j]| > 0 && DetectionsRaise(frames[j], 0.4, 0.05, 640, 480)
  {
    OffFrameFaceRaises();
    assert Raises(MosaicBox(640, 480, PadBox(frames[k][0], 0.4, 640, 480), 0.05));
    assert DetectionsRaise(frames[k], 0.4, 0.05, 640, 480);
  }

  /** The statistics `process_video` returns. */
  datatype VideoStats = VideoStats(processedFrames: nat, rotationFixed: int, status: string)

  const SuccessStatus: string := "Success with FFmpeg transpose"

  /** How `process_video` ends: with its statistics and the ffmpeg filter it
      applies, or by the exception the mosaic step raised in a frame. */
  datatype VideoRun =
    | Completed(stats: VideoStats, filter: seq<FilterStep>)
    | FrameRaised(frame: nat)

  /** The per-frame boxes of `faces` are those the loop mosaics: a frame's own
      padded detections, else those of the last frame with detections, else none. */
  lemma {:induction false} FacesMeaning(frames: seq<seq<Detection>>, faces: seq<seq<Corners>>, padding: real, frameW: int, frameH: int)
    requires |faces| <= |frames|
    requires forall i :: 0 <= i < |faces| ==> faces[i] == FrameFaces(frames, i, padding, frameW, frameH)
    ensures forall i :: 0 <= i < |faces| && |frames[i]| > 0 ==> faces[i] == PadAll(frames[i], padding, frameW, frameH)
    ensures forall i :: 0 <= i < |faces| && |frames[i]| == 0 && LastDetected(frames, i).Some? ==>
              faces[i] == PadAll(frames[LastDetected(frames, i).value], padding, frameW, frameH)
    ensures forall i :: 0 <= i < |faces| && LastDetected(frames, i + 1).None? ==> faces[i] == []
  {
    forall i | 0 <= i < |faces|
      ensures |frames[i]| > 0 ==> faces[i] == PadAll(frames[i], padding, frameW, frameH)
      ensures |frames[i]| == 0 && LastDetected(frames, i).Some? ==>
                faces[i] == PadAll(frames[LastDetected(frames, i).value], padding, frameW, frameH)
      ensures LastDetected(frames, i + 1).None? ==> faces[i] == []
    {
      FrameFacesMeaning(frames, i, padding, frameW, frameH);
    }
  }

  /** `process_video`, given the probe result and each frame's detections:
      every frame is processed in its raw orientation; a frame with detections
      mosaics its own padded boxes, a frame without mosaics those of the last
      frame that had detections (or nothing); then the whole video is turned by
      the filter chosen for its rotation. Nothing catches an exception of the
      mosaic step, so the first frame whose step raises ends the run, and that
      is always a frame with detections. `faces` holds the boxes of the frames
      completed. */
  method ProcessVideo(probe: Probe, frames: seq<seq<Detection>>, padding: real, ratio: real, frameW: nat, frameH: nat)
    returns (run: VideoRun, faces: seq<seq<Corners>>)
    ensures run.FrameRaised? <==>
              exists k :: 0 <= k < |frames| && |frames[k]| > 0 && DetectionsRaise(frames[k], padding, ratio, frameW, frameH)
    ensures run.FrameRaised? ==>
              && run.frame < |frames| && |faces| == run.frame
              && |frames[run.frame]| > 0 && DetectionsRaise(frames[run.frame], padding, ratio, frameW, frameH)
              && forall k :: 0 <= k < run.frame ==> !FrameRaisesAt(frames, k, padding, ratio, frameW, frameH)
    ensures run.Completed? ==>
              && run.stats.processedFrames == |frames| && run.stats.status == SuccessStatus
              && run.stats.rotationFixed == GetVideoRotation(probe) && 0 <= run.stats.rotationFixed < 360
              && run.filter == VideoFilter(run.stats.rotationFixed)
              && |faces| == |frames|
              && forall k :: 0 <= k < |frames| ==> !FrameRaisesAt(frames, k, padding, ratio, frameW, frameH)
    ensures forall i :: 0 <= i < |faces| && |frames[i]| > 0 ==> faces[i] == PadAll(frames[i], padding, frameW, frameH)
    ensures forall i :: 0 <= i < |faces| && |frames[i]| == 0 && LastDetected(frames, i).Some? ==>
              faces[i] == PadAll(frames[LastDetected(frames, i).value], padding, frameW, frameH)
    ensures forall i :: 0 <= i < |faces| && LastDetected(frames, i + 1).None? ==> faces[i] == []
  {
    var rotation := GetVideoRotation(probe);
    var previous: Option<seq<Corners>> := None;
    var processed := 0;
    faces := [];
    while processed < |frames|
      invariant 0 <= processed <= |frames|
      invariant |faces| == processed
      invariant previous == Remembered(frames, processed, padding, frameW, frameH)
      invariant forall i :: 0 <= i < processed ==> faces[i] == FrameFaces(frames, i, padding, frameW, frameH)
      invariant forall k :: 0 <= k < processed ==> !FrameRaisesAt(frames, k, padding, ratio, frameW, frameH)
    {
      var result := ProcessFrame(frames[processed], padding, frameW, frameH, previous);
      FrameStepRaises(frames, processed, padding, ratio, frameW, frameH, result);
      if AnyRaises(FrameMosaics(frameW, frameH, result, ratio)) {
        VideoRaisesOnSomeDetection(frames, padding, ratio, frameW, frameH);
        FrameRaisesMeaning(frames, processed, padding, ratio, frameW, frameH);
        FacesMeaning(frames, faces, padding, frameW, frameH);
        run := FrameRaised(processed);
        return;
      }
      assert LastDetected(frames, processed + 1)
             == if |frames[processed]| > 0 then Some(processed) else LastDetected(frames, processed);
      if result.count > 0 {
        previous := Some(result.faces);
      }
      faces := faces + [result.faces];
      processed := processed + 1;
    }
    VideoRaisesOnSomeDetection(frames, padding, ratio, frameW, frameH);
    FacesMeaning(frames, faces, padding, frameW, frameH);
    run := Completed(VideoStats(processed, rotation, SuccessStatus), VideoFilter(rotation));
  }
}
