/** The clip editor overlay (src/components/video/VideoEditor.tsx): a small
    state machine over the trim range, playback, volume, zoom, blur regions
    and the single active tool, whose save hands a plain descriptor back to
    the posting page. The `<video>` element is modelled by the fields the
    handlers read and write. */
module VideoEditor {
  import opened Common

  /** A selected file, as the browser describes it. */
  datatype File = File(name: string, mimeType: string, size: int)

  /** The toolbar's tools; the active tool is an `Option<EditMode>`, so at most one is active. */
  datatype EditMode = Blur | Cut | Volume | Crop

  /** A rectangle to blur, in percent of the preview's width and height. */
  datatype BlurRegion = BlurRegion(id: string, x: int, y: int, width: int, height: int)

  /** The `<video>` element: playback position, paused flag, volume in 0..1 and
      the duration it reports once its metadata is loaded. */
  datatype Media = Media(position: real, paused: bool, volume: real, duration: real)

  datatype Editor = Editor(
    file: File,
    media: Option<Media>,          // the element, once it is mounted
    isPlaying: bool,
    currentTime: real,
    duration: real,
    activeMode: Option<EditMode>,
    startTime: real,
    endTime: real,
    volume: int,                   // percent
    blurRegions: seq<BlurRegion>,
    cropScale: real)

  /** What the editor hands back on save. */
  datatype EditedVideoData = EditedVideoData(
    file: File,
    startTime: real,
    endTime: real,
    volume: int,
    blurRegions: seq<BlurRegion>,
    cropScale: real)

  /** The longest clip the editor keeps, in seconds. */
  const MaxClipSeconds: real := 60.0

  function MinReal(a: real, b: real): real { if a <= b then a else b }

  /** The editor as it opens on a file. */
  function Open(file: File, media: Option<Media>): (e: Editor)
    ensures e.startTime == 0.0 && e.endTime == MaxClipSeconds && e.duration == MaxClipSeconds
    ensures !e.isPlaying && e.activeMode.None? && e.blurRegions == []
    ensures e.volume == 100 && e.cropScale == 1.0
  {
    Editor(file, media, false, 0.0, MaxClipSeconds, None, 0.0, MaxClipSeconds, 100, [], 1.0)
  }

  /** The value a range input reports for a requested position: raised to its
      minimum, and lowered to its maximum unless the maximum lies below the
      minimum (the browser's value sanitisation; step snapping is not modelled). */
  function RangeInputValue(requested: real, lo: real, hi: real): (v: real)
    ensures lo <= v
    ensures lo <= hi ==> v <= hi
    ensures lo <= requested <= hi ==> v == requested
  {
    if requested < lo then lo
    else if requested > hi && hi >= lo then hi
    else requested
  }

  /** `handleLoadedMetadata`: records the element's duration and caps the end
      of the trim range at 60 seconds; the start is left alone. */
  function LoadedMetadata(e: Editor): (r: Editor)
    ensures e.media.None? ==> r == e
    ensures e.media.Some? ==> r.duration == e.media.value.duration
    ensures e.media.Some? ==> r.endTime <= MaxClipSeconds && r.endTime <= e.media.value.duration
    ensures e.media.Some? ==> r.endTime == MaxClipSeconds || r.endTime == e.media.value.duration
    ensures r.(duration := e.duration, endTime := e.endTime) == e
  {
    if e.media.None? then e
    else
      var dur := e.media.value.duration;
      e.(duration := dur, endTime := MinReal(dur, MaxClipSeconds))
  }

  /** `handleTimeUpdate`: mirrors the element's position into `currentTime`;
      at or past the end of the trim range it pauses the element, rewinds it to
      the start of the range and clears the playing flag, while `currentTime`
      keeps the reported position. Before the end only `currentTime` changes. */
  function TimeUpdate(e: Editor): (r: Editor)
    ensures e.media.None? ==> r == e
    ensures e.media.Some? ==> r.currentTime == e.media.value.position
    ensures e.media.Some? && e.media.value.position >= e.endTime ==>
              && r.media == Some(e.media.value.(paused := true, position := e.startTime))
              && !r.isPlaying
              && r.(currentTime := e.currentTime, media := e.media, isPlaying := e.isPlaying) == e
    ensures e.media.Some? && e.media.value.position < e.endTime ==>
              r == e.(currentTime := e.media.value.position)
  {
    if e.media.None? then e
    else
      var m := e.media.value;
      var e1 := e.(currentTime := m.position);
      if m.position >= e.endTime then
        e1.(media := Some(m.(paused := true, position := e.startTime)), isPlaying := false)
      else e1
  }

  /** `onEnded`: the element stopped by itself. */
  function Ended(e: Editor): (r: Editor)
    ensures !r.isPlaying && r.(isPlaying := e.isPlaying) == e
  {
    e.(isPlaying := false)
  }

  /** `togglePlay`: always flips the playing flag. Pausing leaves the position
      where it is; starting first rewinds a position outside
      `[startTime, endTime)` to `startTime`. */
  function TogglePlay(e: Editor): (r: Editor)
    ensures e.media.None? ==> r == e
    ensures e.media.Some? ==> r.isPlaying == !e.isPlaying && r.media.Some?
    ensures e.media.Some? && e.isPlaying ==> r.media == Some(e.media.value.(paused := true))
    ensures e.media.Some? && !e.isPlaying ==> !r.media.value.paused
    ensures e.media.Some? && !e.isPlaying && e.startTime <= e.media.value.position < e.endTime ==>
              r.media.value.position == e.media.value.position
    ensures e.media.Some? && !e.isPlaying && !(e.startTime <= e.media.value.position < e.endTime) ==>
              r.media.value.position == e.startTime
    ensures r.(media := e.media, isPlaying := e.isPlaying) == e
  {
    if e.media.None? then e
    else
      var m := e.media.value;
      if e.isPlaying then
        e.(media := Some(m.(paused := true)), isPlaying := false)
      else
        var pos := if m.position < e.startTime || m.position >= e.endTime then e.startTime else m.position;
        e.(media := Some(m.(position := pos, paused := false)), isPlaying := true)
  }

  /** Starting playback on a non-empty trim range always starts inside it. */
  lemma PlaybackStartsInsideRange(e: Editor)
    requires e.media.Some? && !e.isPlaying && e.startTime < e.endTime
    ensures var m := TogglePlay(e).media.value;
            e.startTime <= m.position < e.endTime && !m.paused
  {
  }

  /** `handleSeek`: moves the element and `currentTime` to the slider's value,
      which is not confined to the trim range. */
  function Seek(e: Editor, time: real): (r: Editor)
    ensures e.media.None? ==> r == e
    ensures e.media.Some? ==> r.currentTime == time && r.media == Some(e.media.value.(position := time))
    ensures e.media.Some? ==> r.(currentTime := e.currentTime, media := e.media) == e
  {
    if e.media.None? then e
    else e.(media := Some(e.media.value.(position := time)), currentTime := time)
  }

  /** A seek past the end of the trim range is undone by the next time update:
      the element is paused and rewound to the start of the range, and the
      update the rewind causes brings `currentTime` back to the start too. */
  lemma SeekPastEndLoopsBack(e: Editor, time: real)
    requires e.media.Some? && time >= e.endTime && e.startTime < e.endTime
    ensures var r := TimeUpdate(TimeUpdate(Seek(e, time)));
            && !r.isPlaying && r.media.value.paused
            && r.media.value.position == e.startTime && r.currentTime == e.startTime
  {
  }

  /** The trim-range invariant the two cut sliders keep: the range starts at
      or after 0, lasts at least a second and ends within the clip and the cap. */
  predicate TrimValid(e: Editor) {
    0.0 <= e.startTime && e.endTime - e.startTime >= 1.0 && e.endTime <= MinReal(e.duration, MaxClipSeconds)
  }

  /** The start slider spans `0 .. endTime - 1`. */
  function SetStartTime(e: Editor, requested: real): (r: Editor)
    ensures 0.0 <= r.startTime
    ensures e.endTime >= 1.0 ==> r.startTime <= e.endTime - 1.0
    ensures 0.0 <= requested <= e.endTime - 1.0 ==> r.startTime == requested
    ensures r.(startTime := e.startTime) == e
  {
    e.(startTime := RangeInputValue(requested, 0.0, e.endTime - 1.0))
  }

  /** The end slider spans `startTime + 1 .. min(duration, 60)`. */
  function SetEndTime(e: Editor, requested: real): (r: Editor)
    ensures r.endTime >= e.startTime + 1.0
    ensures e.startTime + 1.0 <= MinReal(e.duration, MaxClipSeconds) ==>
              r.endTime <= MinReal(e.duration, MaxClipSeconds)
    ensures e.startTime + 1.0 <= requested <= MinReal(e.duration, MaxClipSeconds) ==> r.endTime == requested
    ensures r.(endTime := e.endTime) == e
  {
    e.(endTime := RangeInputValue(requested, e.startTime + 1.0, MinReal(e.duration, MaxClipSeconds)))
  }

  /** Any movement of either cut slider keeps the trim-range invariant. */
  lemma TrimSlidersKeepInvariant(e: Editor, requested: real)
    requires TrimValid(e)
    ensures TrimValid(SetStartTime(e, requested))
    ensures TrimValid(SetEndTime(e, requested))
  {
  }

  /** Loading the metadata of a clip of at least one second establishes the invariant. */
  lemma OpenedClipIsTrimValid(file: File, m: Media)
    requires m.duration >= 1.0
    ensures TrimValid(LoadedMetadata(Open(file, Some(m))))
  {
  }

  /** A 90-second clip is cut to 0..60, and asking the start slider for 61
      seconds gives 59. */
  lemma LongClipScenario(file: File, m: Media)
    requires m.duration == 90.0
    ensures var e := LoadedMetadata(Open(file, Some(m)));
            e.startTime == 0.0 && e.endTime == 60.0 && SetStartTime(e, 61.0).startTime == 59.0
  {
  }

  /** A time update at 5.1 s with the range 2..5 stops playback at 2 s. */
  lemma LoopAtBoundaryScenario(e: Editor)
    requires e.media.Some? && e.media.value.position == 5.1 && e.startTime == 2.0 && e.endTime == 5.0
    ensures var r := TimeUpdate(e);
            !r.isPlaying && r.media.value.paused && r.media.value.position == 2.0
  {
  }

  /** The volume slider's integer value, within 0..100. */
  function VolumeSliderValue(requested: int): (v: int)
    ensures 0 <= v <= 100
    ensures 0 <= requested <= 100 ==> v == requested
  {
    if requested < 0 then 0 else if requested > 100 then 100 else requested
  }

  /** `handleVolumeChange`: the volume stays within 0..100 percent and the
      element plays at that fraction of full volume. */
  function VolumeChange(e: Editor, requested: int): (r: Editor)
    ensures 0 <= r.volume <= 100
    ensures 0 <= requested <= 100 ==> r.volume == requested
    ensures e.media.Some? ==> r.media == Some(e.media.value.(volume := r.volume as real / 100.0))
    ensures e.media.Some? ==> 0.0 <= r.media.value.volume <= 1.0
    ensures e.media.None? ==> r.media.None?
    ensures r.(volume := e.volume, media := e.media) == e
  {
    var vol := VolumeSliderValue(requested);
    var e1 := e.(volume := vol);
    if e.media.Some? then e1.(media := Some(e.media.value.(volume := vol as real / 100.0))) else e1
  }

  /** The zoom slider spans 0.5 .. 1.5. */
  function CropScaleChange(e: Editor, requested: real): (r: Editor)
    ensures 0.5 <= r.cropScale <= 1.5
    ensures 0.5 <= requested <= 1.5 ==> r.cropScale == requested
    ensures r.(cropScale := e.cropScale) == e
  {
    e.(cropScale := RangeInputValue(requested, 0.5, 1.5))
  }

  /** Pressing a toolbar button: the active tool's button deactivates it, any
      other button makes its tool the active one. */
  function PressTool(mode: Option<EditMode>, pressed: EditMode): (r: Option<EditMode>)
    ensures mode == Some(pressed) ==> r.None?
    ensures mode != Some(pressed) ==> r == Some(pressed)
  {
    if mode == Some(pressed) then None else Some(pressed)
  }

  function ToggleMode(e: Editor, pressed: EditMode): (r: Editor)
    ensures r.activeMode == PressTool(e.activeMode, pressed)
    ensures r.(activeMode := e.activeMode) == e
  {
    e.(activeMode := PressTool(e.activeMode, pressed))
  }

  /** Pressing the same button twice restores the previous tool exactly when
      no tool or that very tool was active; after another tool it leaves none. */
  lemma PressTwice(mode: Option<EditMode>, pressed: EditMode)
    ensures PressTool(PressTool(mode, pressed), pressed) == mode <==> mode.None? || mode == Some(pressed)
    ensures mode.Some? && mode != Some(pressed) ==> PressTool(PressTool(mode, pressed), pressed).None?
  {
  }

  /** The region every press of "+ 追加" creates. */
  function NewRegion(id: string): (b: BlurRegion)
    ensures InsideFrame(b)
  {
    BlurRegion(id, 30, 20, 40, 40)
  }

  /** A region lies within the preview, 0..100 percent on both axes. */
  predicate InsideFrame(b: BlurRegion) {
    0 <= b.x && 0 <= b.y && 0 <= b.width && 0 <= b.height && b.x + b.width <= 100 && b.y + b.height <= 100
  }

  /** `addBlurRegion`: appends exactly one region, at 30,20 sized 40×40 percent,
      keeping the earlier regions as they were. The id is the click's timestamp. */
  function AddBlurRegion(e: Editor, id: string): (r: Editor)
    ensures |r.blurRegions| == |e.blurRegions| + 1
    ensures r.blurRegions[..|e.blurRegions|] == e.blurRegions
    ensures r.blurRegions[|e.blurRegions|] == BlurRegion(id, 30, 20, 40, 40)
    ensures InsideFrame(r.blurRegions[|e.blurRegions|])
    ensures r.(blurRegions := e.blurRegions) == e
  {
    e.(blurRegions := e.blurRegions + [NewRegion(id)])
  }

  /** `removeBlurRegion`: drops every region with that id and keeps the others
      in their order. */
  function RemoveBlurRegion(e: Editor, id: string): (r: Editor)
    ensures forall b :: b in r.blurRegions <==> b in e.blurRegions && b.id != id
    ensures forall b :: multiset(r.blurRegions)[b] == if b.id != id then multiset(e.blurRegions)[b] else 0
    ensures IsSubsequence(r.blurRegions, e.blurRegions)
    ensures r.(blurRegions := e.blurRegions) == e
  {
    e.(blurRegions := Filter(e.blurRegions, (b: BlurRegion) => b.id != id))
  }

  /** Removing the same id twice is the same as removing it once. */
  lemma RemoveIsIdempotent(e: Editor, id: string)
    ensures RemoveBlurRegion(RemoveBlurRegion(e, id), id) == RemoveBlurRegion(e, id)
  {
    var once := RemoveBlurRegion(e, id).blurRegions;
    FilterAll(once, (b: BlurRegion) => b.id != id);
  }

  /** A click on a region removes it only while the blur tool is active. */
  function ClickRegion(e: Editor, id: string): (r: Editor)
    ensures e.activeMode == Some(Blur) ==> r == RemoveBlurRegion(e, id)
    ensures e.activeMode != Some(Blur) ==> r == e
  {
    if e.activeMode == Some(Blur) then RemoveBlurRegion(e, id) else e
  }

  /** `handleSave`: the descriptor carries exactly the editor's file, trim
      range, volume, regions and zoom. */
  function Save(e: Editor): (d: EditedVideoData)
    ensures d.file == e.file
    ensures d.startTime == e.startTime && d.endTime == e.endTime
    ensures d.volume == e.volume && d.blurRegions == e.blurRegions && d.cropScale == e.cropScale
  {
    EditedVideoData(e.file, e.startTime, e.endTime, e.volume, e.blurRegions, e.cropScale)
  }
}
