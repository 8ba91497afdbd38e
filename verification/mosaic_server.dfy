/** The endpoints of the face-mosaic server (api/main.py): upload checks,
    how a file id names the stored files and the download URLs, and the set of
    output files the endpoints create, serve and delete. The media pipeline's
    outcome is a parameter. */
module MosaicServer {
  import opened Common
  import MosaicFrames

  // ---- file names ----

  /** The path with trailing slashes removed. */
  function StripTrailingSlashes(path: string): (r: string)
    ensures IsPrefix(r, path)
    ensures r == [] || r[|r| - 1] != '/'
    ensures forall i :: |r| <= i < |path| ==> path[i] == '/'
    decreases |path|
  {
    if path != [] && path[|path| - 1] == '/' then StripTrailingSlashes(path[..|path| - 1]) else path
  }

  /** The text after the last `c`, or all of `s` when it has none. */
  function AfterLast(s: string, c: char): (r: string)
    ensures c !in r
    ensures |r| <= |s| && r == s[|s| - |r|..]
    ensures |r| < |s| ==> s[|s| - |r| - 1] == c
    decreases |s|
  {
    if s == [] then []
    else if s[|s| - 1] == c then []
    else
      var init := s[..|s| - 1];
      var r := AfterLast(init, c) + [s[|s| - 1]];
      assert s == init + [s[|s| - 1]];
      assert r == s[|s| - |r|..];
      r
  }

  /** The final component of a path, as `Path(...).name` gives it. */
  function BaseName(path: string): (r: string)
    ensures '/' !in r
  {
    AfterLast(StripTrailingSlashes(path), '/')
  }

  /** The position of the last `c` in `s`, as `rfind` finds it. */
  function LastIndex(s: string, c: char): (k: Option<nat>)
    ensures k.Some? ==> k.value < |s| && s[k.value] == c && c !in s[k.value + 1..]
    ensures k.None? ==> c !in s
    decreases |s|
  {
    if s == [] then None
    else if s[|s| - 1] == c then Some(|s| - 1)
    else
      var k := LastIndex(s[..|s| - 1], c);
      assert s == s[..|s| - 1] + [s[|s| - 1]];
      k
  }

  /** `Path(filename).suffix`: from the final component's last dot on, unless
      that dot starts or ends the name. */
  function Suffix(path: string): (r: string)
    ensures r != "" ==> |r| >= 2 && r[0] == '.' && '.' !in r[1..] && '/' !in r
    ensures r != "" ==> var name := BaseName(path); |r| < |name| && r == name[|name| - |r|..]
  {
    var name := BaseName(path);
    var k := LastIndex(name, '.');
    if k.Some? && 0 < k.value < |name| - 1 then
      var r := name[k.value..];
      assert r[1..] == name[k.value + 1..];
      assert name[|name| - |r|..] == r;
      r
    else ""
  }

  /** The last dot of `stem + ext` is the one that starts `ext`. */
  lemma {:induction false} LastDotStartsExtension(stem: string, ext: string)
    requires |ext| >= 1 && ext[0] == '.' && '.' !in ext[1..]
    ensures LastIndex(stem + ext, '.') == Some(|stem|)
    decreases |ext|
  {
    var s := stem + ext;
    if |ext| > 1 {
      assert s[|s| - 1] == ext[|ext| - 1];
      assert ext[|ext| - 1] in ext[1..];
      var shorter := ext[..|ext| - 1];
      assert shorter[1..] == ext[1..|ext| - 1];
      assert '.' !in shorter[1..];
      assert s[..|s| - 1] == stem + shorter;
      LastDotStartsExtension(stem, shorter);
    }
  }

  /** A plain file name's extension is its suffix. */
  lemma SuffixOfPlainName(stem: string, ext: string)
    requires stem != "" && '/' !in stem
    requires |ext| >= 2 && ext[0] == '.' && '.' !in ext[1..] && '/' !in ext
    ensures Suffix(stem + ext) == ext
  {
    var path := stem + ext;
    assert path[|path| - 1] == ext[|ext| - 1];
    assert StripTrailingSlashes(path) == path;
    assert '/' !in path;
    AfterLastWithout(path, '/');
    LastDotStartsExtension(stem, ext);
    assert path[|stem|..] == ext;
  }

  lemma {:induction false} AfterLastWithout(s: string, c: char)
    requires c !in s
    ensures AfterLast(s, c) == s
    decreases |s|
  {
    if s != [] {
      assert c !in s[..|s| - 1];
      AfterLastWithout(s[..|s| - 1], c);
    }
  }

  /** A name that is only an extension, or that ends in its dot, has no suffix. */
  lemma SuffixExamples()
    ensures Suffix(".mp4") == ""
    ensures Suffix("clip.") == ""
  {
    AfterLastWithout(".mp4", '/');
    assert StripTrailingSlashes(".mp4") == ".mp4";
    LastDotStartsExtension("", ".mp4");
    assert "" + ".mp4" == ".mp4";
    AfterLastWithout("clip.", '/');
    assert StripTrailingSlashes("clip.") == "clip.";
    LastDotStartsExtension("clip", ".");
    assert "clip" + "." == "clip.";
  }

  // ---- upload checks ----

  datatype UploadKind = VideoUpload | ImageUpload

  function Extensions(kind: UploadKind): (r: seq<string>)
    ensures forall i :: 0 <= i < |r| ==> r[i] != ""
  {
    match kind
    case VideoUpload => [".mp4", ".mov", ".webm", ".avi"]
    case ImageUpload => [".jpg", ".jpeg", ".png", ".webp"]
  }

  /** Why a request fails. */
  datatype Problem =
    | QueryOutOfRange              // rejected by the framework before the handler runs
    | FilenameMissing
    | UnsupportedFormat(kind: UploadKind)
    | ProcessingFailed             // any exception while processing a video
    | DetectorUnavailable          // the face model file is missing
    | ImageUnreadable
    | NotFound
    | Unhandled                    // an exception the handler does not catch

  function Status(p: Problem): int {
    match p
    case QueryOutOfRange => 422
    case FilenameMissing => 400
    case UnsupportedFormat(_) => 400
    case ProcessingFailed => 500
    case DetectorUnavailable => 500
    case ImageUnreadable => 400
    case NotFound => 404
    case Unhandled => 500
  }

  /** The fixed `detail` text of a failure, where the handler gives one. */
  function Detail(p: Problem): Option<string> {
    match p
    case FilenameMissing => Some("ファイル名が必要です")
    case UnsupportedFormat(VideoUpload) => Some("サポートされていない動画形式です")
    case UnsupportedFormat(ImageUpload) => Some("サポートされていない画像形式です")
    case ImageUnreadable => Some("画像を読み込めません")
    case NotFound => Some("ファイルが見つかりません")
    case _ => None
  }

  /** The query bounds the framework enforces before the handler runs. */
  predicate QueryInRange(ratio: real, padding: real) {
    0.01 <= ratio <= 0.2 && 0.0 <= padding <= 1.0
  }

  /** Whether the upload gets past the checks, and with which lower-cased extension. */
  datatype Verdict = Refused(problem: Problem) | Allowed(ext: string)

  /** The checks of both upload endpoints, in their order: out-of-range query
      values (422), then a missing or empty file name, then an unsupported
      lower-cased suffix (both 400). */
  function CheckUpload(kind: UploadKind, filename: Option<string>, ratio: real, padding: real): (v: Verdict)
    ensures !QueryInRange(ratio, padding) ==> v == Refused(QueryOutOfRange)
    ensures QueryInRange(ratio, padding) && (filename.None? || filename.value == "") ==> v == Refused(FilenameMissing)
    ensures v.Allowed? <==> QueryInRange(ratio, padding) && filename.Some? && filename.value != ""
                            && Lower(Suffix(filename.value)) in Extensions(kind)
    ensures v.Allowed? ==> v.ext == Lower(Suffix(filename.value)) && v.ext != ""
    ensures v.Refused? && QueryInRange(ratio, padding) && filename.Some? && filename.value != "" ==>
              v.problem == UnsupportedFormat(kind)
  {
    if !QueryInRange(ratio, padding) then Refused(QueryOutOfRange)
    else if filename.None? || filename.value == "" then Refused(FilenameMissing)
    else
      var ext := Lower(Suffix(filename.value));
      if ext in Extensions(kind) then Allowed(ext) else Refused(UnsupportedFormat(kind))
  }

  /** The extension is compared lower-cased: an upper-case `.MP4` is
      accepted, and reported as `.mp4`. */
  lemma UpperCaseExtensionAccepted(stem: string)
    requires stem != "" && '/' !in stem
    ensures CheckUpload(VideoUpload, Some(stem + ".MP4"), 0.05, 0.3) == Allowed(".mp4")
  {
    SuffixOfPlainName(stem, ".MP4");
    LowerOfMp4();
    CheckOfLoweredSuffix(VideoUpload, stem + ".MP4", ".MP4", ".mp4");
  }

  lemma LowerOfMp4()
    ensures Lower(".MP4") == ".mp4"
  {
    var low := Lower(".MP4");
    assert low[0] == '.' && low[1] == 'm' && low[2] == 'p' && low[3] == '4';
  }

  lemma LowerOfPng()
    ensures Lower(".png") == ".png"
  {
    var low := Lower(".png");
    assert low[0] == '.' && low[1] == 'p' && low[2] == 'n' && low[3] == 'g';
  }

  lemma PngIsNoVideoExtension()
    ensures ".png" !in Extensions(VideoUpload) && ".png" in Extensions(ImageUpload)
  {
    var exts := Extensions(VideoUpload);
    assert exts[0][1] == 'm' && exts[1][1] == 'm' && exts[2][1] == 'w' && exts[3][1] == 'a';
  }

  lemma CheckOfLoweredSuffix(kind: UploadKind, name: string, suffix: string, ext: string)
    requires name != "" && Suffix(name) == suffix && Lower(suffix) == ext
    ensures ext in Extensions(kind) ==> CheckUpload(kind, Some(name), 0.05, 0.3) == Allowed(ext)
    ensures ext !in Extensions(kind) ==> CheckUpload(kind, Some(name), 0.05, 0.3) == Refused(UnsupportedFormat(kind))
  {
  }

  /** A hidden file named like a supported extension has no suffix, so it is
      refused as unsupported. */
  lemma BareExtensionRefused(kind: UploadKind, i: nat)
    requires i < |Extensions(kind)|
    ensures CheckUpload(kind, Some(Extensions(kind)[i]), 0.05, 0.3) == Refused(UnsupportedFormat(kind))
  {
    var ext := Extensions(kind)[i];
    ExtensionShape(kind, i);
    DotNameHasNoSuffix(ext);
    assert Lower("") == "";
    CheckOfLoweredSuffix(kind, ext, "", "");
  }

  /** Every supported extension is a dot followed by letters and digits. */
  lemma ExtensionShape(kind: UploadKind, i: nat)
    requires i < |Extensions(kind)|
    ensures var ext := Extensions(kind)[i];
            |ext| >= 2 && ext[0] == '.' && '.' !in ext[1..] && '/' !in ext
  {
  }

  /** A name whose only dot is its first character has no suffix. */
  lemma DotNameHasNoSuffix(name: string)
    requires |name| >= 1 && name[0] == '.' && '.' !in name[1..] && '/' !in name
    ensures Suffix(name) == ""
  {
    AfterLastWithout(name, '/');
    assert name[|name| - 1] != '/';
    assert StripTrailingSlashes(name) == name;
    LastDotStartsExtension("", name);
    assert "" + name == name;
  }

  /** A PNG is accepted by the image endpoint only, and only with in-range
      query values. */
  lemma ImageIsNotVideo(stem: string)
    requires stem != "" && '/' !in stem
    ensures CheckUpload(VideoUpload, Some(stem + ".png"), 0.05, 0.3) == Refused(UnsupportedFormat(VideoUpload))
    ensures CheckUpload(ImageUpload, Some(stem + ".png"), 0.05, 0.3) == Allowed(".png")
    ensures CheckUpload(ImageUpload, Some(stem + ".png"), 0.3, 0.3) == Refused(QueryOutOfRange)
  {
    SuffixOfPlainName(stem, ".png");
    LowerOfPng();
    PngIsNoVideoExtension();
    CheckOfLoweredSuffix(VideoUpload, stem + ".png", ".png", ".png");
    CheckOfLoweredSuffix(ImageUpload, stem + ".png", ".png", ".png");
  }

  // ---- names and routes ----

  /** A file id as the server makes them (a UUID): non-empty, without a slash
      or an underscore. */
  predicate ValidId(id: string) {
    id != "" && '/' !in id && '_' !in id
  }

  /** The files the endpoints keep in the output directory. */
  datatype StoredFile = Upload(id: string, ext: string) | VideoOutput(id: string) | ImageOutput(id: string)

  /** The part of a stored file's name after its id. */
  function NameTail(f: StoredFile): (t: string)
    ensures |t| >= 6 && t[0] == '_'
  {
    match f
    case Upload(_, ext) => "_input" + ext
    case VideoOutput(_) => "_output.mp4"
    case ImageOutput(_) => "_output.png"
  }

  /** The file's name in the output directory. */
  function FileName(f: StoredFile): string {
    f.id + NameTail(f)
  }

  /** The position of the first `c` in `s`, or `|s|`. */
  function FirstIndex(s: string, c: char): (k: nat)
    ensures k <= |s| && c !in s[..k]
    ensures k < |s| ==> s[k] == c
  {
    if s == [] || s[0] == c then 0
    else
      var k := 1 + FirstIndex(s[1..], c);
      assert s[..k] == [s[0]] + s[1..][..k - 1];
      k
  }

  /** Names of files with valid ids determine the files: no two stored files
      ever share a name. */
  lemma FileNamesDistinct(f: StoredFile, g: StoredFile)
    requires ValidId(f.id) && ValidId(g.id)
    ensures FileName(f) == FileName(g) ==> f == g
  {
    var nf := FileName(f);
    var ng := FileName(g);
    FirstIndexAfterId(f);
    FirstIndexAfterId(g);
    if nf == ng {
      assert |f.id| == |g.id|;
      assert f.id == nf[..|f.id|] && g.id == ng[..|g.id|];
      assert NameTail(f) == nf[|f.id|..] && NameTail(g) == ng[|g.id|..];
      TailsDistinct(f, g);
    }
  }

  lemma FirstIndexAfterId(f: StoredFile)
    requires ValidId(f.id)
    ensures FirstIndex(FileName(f), '_') == |f.id|
  {
    FirstIndexOfJoin(f.id, NameTail(f));
  }

  /** The first underscore of `id + tail` is the one that starts `tail`. */
  lemma {:induction false} FirstIndexOfJoin(id: string, tail: string)
    requires '_' !in id && tail != [] && tail[0] == '_'
    ensures FirstIndex(id + tail, '_') == |id|
  {
    if id != [] {
      assert (id + tail)[0] == id[0];
      assert (id + tail)[1..] == id[1..] + tail;
      FirstIndexOfJoin(id[1..], tail);
    }
  }

  lemma TailsDistinct(f: StoredFile, g: StoredFile)
    requires f.id == g.id
    ensures NameTail(f) == NameTail(g) ==> f == g
  {
    var tf := NameTail(f);
    var tg := NameTail(g);
    if f.Upload? && g.Upload? && tf == tg {
      assert f.ext == tf[6..] && g.ext == tg[6..];
    }
    if f.Upload? {
      assert tf[1] == 'i';
    } else {
      assert tf[1] == 'o';
      assert |tf| == 11;
    }
    if g.Upload? {
      assert tg[1] == 'i';
    } else {
      assert tg[1] == 'o';
      assert |tg| == 11;
    }
    if f.VideoOutput? {
      assert tf[8] == 'm';
    }
    if f.ImageOutput? {
      assert tf[8] == 'p';
    }
    if g.VideoOutput? {
      assert tg[8] == 'm';
    }
    if g.ImageOutput? {
      assert tg[8] == 'p';
    }
  }

  const VideoDownloadPrefix: string := "/api/mosaic/download/"
  const ImageDownloadPrefix: string := "/api/mosaic/download/image/"

  function DownloadUrl(id: string): string { VideoDownloadPrefix + id }
  function ImageDownloadUrl(id: string): string { ImageDownloadPrefix + id }

  /** The id a single-segment route `prefix{file_id}` captures from a URL. */
  function RouteId(prefix: string, url: string): (id: Option<string>)
    ensures id.Some? ==> id.value != "" && '/' !in id.value && url == prefix + id.value
  {
    var rest := url[Min(|prefix|, |url|)..];
    if IsPrefix(prefix, url) && rest != "" && '/' !in rest then
      assert url == prefix + rest;
      Some(rest)
    else None
  }

  /** A download URL leads back to its id, and an image URL is never taken for
      a video download, since a path segment cannot hold a slash. */
  lemma RoutesResolve(id: string)
    requires ValidId(id)
    ensures RouteId(VideoDownloadPrefix, DownloadUrl(id)) == Some(id)
    ensures RouteId(ImageDownloadPrefix, ImageDownloadUrl(id)) == Some(id)
    ensures RouteId(VideoDownloadPrefix, ImageDownloadUrl(id)).None?
  {
    var u := DownloadUrl(id);
    assert u[|VideoDownloadPrefix|..] == id;
    var v := ImageDownloadUrl(id);
    assert v[|ImageDownloadPrefix|..] == id;
    assert IsPrefix(VideoDownloadPrefix, v);
    var rest := v[|VideoDownloadPrefix|..];
    assert rest[5] == '/';
  }

  // ---- the output directory and the endpoints ----

  /** What the processing pipeline did with an accepted video. */
  datatype Pipeline =
    | Crashed                          // an exception inside processing
    | Encoded                          // ffmpeg wrote the output
    | EncoderFailed(tempWritten: bool) // ffmpeg failed; the raw temp file, if any, becomes the output

  datatype Reply =
    | Failure(problem: Problem)
    | VideoDone(fileId: string, downloadUrl: string)
    | ImageDone(fileId: string, downloadUrl: string, facesDetected: nat)
    | Served(file: StoredFile, mediaType: string, downloadName: string)
    | Deleted

  /** The files in the output directory after a call, and the reply. */
  datatype Exchange = Exchange(files: set<StoredFile>, reply: Reply)

  /** The pipeline part of `process_video_endpoint` for an accepted upload
      with extension `ext`: the upload is stored, processed and removed again;
      whatever output was written stays and the reply carries the id and its
      download URL, except on an exception, where the output is removed too
      and the reply is 500. Nothing else in the directory changes. */
  function ProcessAccepted(files: set<StoredFile>, ext: string, id: string, pipeline: Pipeline): (r: Exchange)
    ensures Upload(id, ext) !in r.files
    ensures VideoOutput(id) in r.files <==> pipeline.Encoded? || pipeline == EncoderFailed(true)
                                            || (pipeline.EncoderFailed? && VideoOutput(id) in files)
    ensures forall f :: f != Upload(id, ext) && f != VideoOutput(id) ==> (f in r.files <==> f in files)
    ensures pipeline.Crashed? ==> r.reply == Failure(ProcessingFailed)
    ensures !pipeline.Crashed? ==> r.reply == VideoDone(id, DownloadUrl(id))
  {
    var input := Upload(id, ext);
    var output := VideoOutput(id);
    var stored := files + {input};
    match pipeline
    case Crashed => Exchange(stored - {input} - {output}, Failure(ProcessingFailed))
    case Encoded => Exchange(stored + {output} - {input}, VideoDone(id, DownloadUrl(id)))
    case EncoderFailed(tempWritten) =>
      var after := if tempWritten then stored + {output} else stored;
      Exchange(after - {input}, VideoDone(id, DownloadUrl(id)))
  }

  /** `process_video_endpoint` with a fresh id: a refused upload leaves the
      directory alone and answers with the check's failure; an accepted one
      goes through the pipeline under its lower-cased extension. */
  function ProcessVideoEndpoint(files: set<StoredFile>, filename: Option<string>, ratio: real, padding: real,
                                id: string, pipeline: Pipeline): (r: Exchange)
    ensures var v := CheckUpload(VideoUpload, filename, ratio, padding);
            v.Refused? ==> r == Exchange(files, Failure(v.problem))
    ensures var v := CheckUpload(VideoUpload, filename, ratio, padding);
            v.Allowed? ==> r == ProcessAccepted(files, v.ext, id, pipeline)
  {
    var v := CheckUpload(VideoUpload, filename, ratio, padding);
    if v.Refused? then Exchange(files, Failure(v.problem))
    else ProcessAccepted(files, v.ext, id, pipeline)
  }

  /** `download_processed_video`: the id's output file, or 404. */
  function DownloadVideo(files: set<StoredFile>, id: string): (r: Reply)
    ensures VideoOutput(id) in files ==> r == Served(VideoOutput(id), "video/mp4", "mosaic_" + id + ".mp4")
    ensures VideoOutput(id) !in files ==> r == Failure(NotFound)
  {
    if VideoOutput(id) in files then Served(VideoOutput(id), "video/mp4", "mosaic_" + id + ".mp4")
    else Failure(NotFound)
  }

  /** `cleanup_file`: deletes the id's video output if present and always succeeds. */
  function Cleanup(files: set<StoredFile>, id: string): (r: Exchange)
    ensures VideoOutput(id) !in r.files && r.reply == Deleted
    ensures forall f :: f != VideoOutput(id) ==> (f in r.files <==> f in files)
  {
    Exchange(files - {VideoOutput(id)}, Deleted)
  }

  /** Processing, the download URL it returns, the download and the cleanup
      all refer to the same output file: after an encoded upload the URL
      serves it, after cleanup the same URL gives 404, and a second cleanup
      changes nothing. */
  lemma OutputLifecycle(files: set<StoredFile>, ext: string, id: string)
    requires ValidId(id)
    ensures var done := ProcessAccepted(files, ext, id, Encoded);
            var routed := RouteId(VideoDownloadPrefix, done.reply.downloadUrl);
            && routed == Some(id)
            && DownloadVideo(done.files, routed.value) == Served(VideoOutput(id), "video/mp4", "mosaic_" + id + ".mp4")
            && DownloadVideo(Cleanup(done.files, id).files, id) == Failure(NotFound)
            && Cleanup(Cleanup(done.files, id).files, id) == Cleanup(done.files, id)
  {
    RoutesResolve(id);
    var once := Cleanup(ProcessAccepted(files, ext, id, Encoded).files, id);
    assert once.files - {VideoOutput(id)} == once.files;
  }

  /** When the encoder fails before any raw output was written, the endpoint
      still answers with a download URL, and that URL gives 404. */
  lemma SuccessWithoutOutput(files: set<StoredFile>, filename: Option<string>, ratio: real, padding: real, id: string)
    requires CheckUpload(VideoUpload, filename, ratio, padding).Allowed?
    requires VideoOutput(id) !in files
    ensures var done := ProcessVideoEndpoint(files, filename, ratio, padding, id, EncoderFailed(false));
            done.reply.VideoDone? && DownloadVideo(done.files, id) == Failure(NotFound)
  {
  }

  /** A decoded image: its size and the faces the detector finds in it. */
  datatype DecodedImage = DecodedImage(width: nat, height: nat, detections: seq<MosaicFrames.Detection>)

  /** `process_image_endpoint` with a fresh id: after the checks the detector
      must be available (500) and the image decodable (400); the frame step
      runs with no previous boxes, outside any handler, so a mosaic that raises
      ends the request with a 500 before anything is written; otherwise the
      image is stored as PNG and the reply counts the faces detected in it. */
  function ProcessImageEndpoint(files: set<StoredFile>, filename: Option<string>, ratio: real, padding: real,
                                detectorReady: bool, decoded: Option<DecodedImage>,
                                id: string): (r: Exchange)
    ensures var v := CheckUpload(ImageUpload, filename, ratio, padding);
            v.Refused? ==> r == Exchange(files, Failure(v.problem))
    ensures var v := CheckUpload(ImageUpload, filename, ratio, padding);
            v.Allowed? && !detectorReady ==> r == Exchange(files, Failure(DetectorUnavailable))
    ensures var v := CheckUpload(ImageUpload, filename, ratio, padding);
            v.Allowed? && detectorReady && decoded.None? ==> r == Exchange(files, Failure(ImageUnreadable))
    ensures var v := CheckUpload(ImageUpload, filename, ratio, padding);
            v.Allowed? && detectorReady && decoded.Some? && MosaicRaisesOn(decoded.value, padding, ratio) ==>
              r == Exchange(files, Failure(Unhandled))
    ensures var v := CheckUpload(ImageUpload, filename, ratio, padding);
            v.Allowed? && detectorReady && decoded.Some? && !MosaicRaisesOn(decoded.value, padding, ratio) ==>
              r == Exchange(files + {ImageOutput(id)}, ImageDone(id, ImageDownloadUrl(id), |decoded.value.detections|))
  {
    match CheckUpload(ImageUpload, filename, ratio, padding)
    case Refused(problem) => Exchange(files, Failure(problem))
    case Allowed(_) =>
      if !detectorReady then Exchange(files, Failure(DetectorUnavailable))
      else if decoded.None? then Exchange(files, Failure(ImageUnreadable))
      else
        var image := decoded.value;
        var frame := MosaicFrames.ProcessFrame(image.detections, padding, image.width, image.height, None);
        var outcomes := MosaicFrames.FrameMosaics(image.width, image.height, frame, ratio);
        MosaicFrames.FrameRaisesOnSomeDetection(image.detections, padding, image.width, image.height, ratio);
        if exists i :: 0 <= i < |outcomes| && MosaicFrames.Raises(outcomes[i]) then Exchange(files, Failure(Unhandled))
        else Exchange(files + {ImageOutput(id)}, ImageDone(id, ImageDownloadUrl(id), frame.count))
  }

  /** Some padded face box of the image makes the mosaic step raise. */
  predicate MosaicRaisesOn(image: DecodedImage, padding: real, ratio: real) {
    exists i :: 0 <= i < |image.detections|
      && MosaicFrames.Raises(MosaicFrames.MosaicBox(image.width, image.height,
           MosaicFrames.PadBox(image.detections[i], padding, image.width, image.height), ratio))
  }

  /** The detection of the frame step's counterexample, in a 640×480 image. */
  function OffFrameImage(): DecodedImage {
    DecodedImage(640, 480, [MosaicFrames.Detection(10, -100, 20, 20)])
  }

  lemma OffFrameImageRaises()
    ensures MosaicRaisesOn(OffFrameImage(), 0.4, 0.05)
  {
    var image := OffFrameImage();
    MosaicFrames.OffFrameFaceRaises();
    assert MosaicFrames.Raises(MosaicFrames.MosaicBox(640, 480, MosaicFrames.PadBox(image.detections[0], 0.4, 640, 480), 0.05));
  }

  /** The face the frame step cannot mosaic makes the image endpoint answer 500
      and store nothing. */
  lemma OffFrameFaceFailsImageRequest(files: set<StoredFile>, filename: Option<string>, id: string)
    requires CheckUpload(ImageUpload, filename, 0.05, 0.4).Allowed?
    ensures var done := ProcessImageEndpoint(files, filename, 0.05, 0.4, true, Some(OffFrameImage()), id);
            done == Exchange(files, Failure(Unhandled))
  {
    var image := OffFrameImage();
    OffFrameImageRaises();
    var done := ProcessImageEndpoint(files, filename, 0.05, 0.4, true, Some(image), id);
    assert MosaicRaisesOn(image, 0.4, 0.05);
  }

  /** `download_processed_image`: the id's PNG output, or 404. */
  function DownloadImage(files: set<StoredFile>, id: string): (r: Reply)
    ensures ImageOutput(id) in files ==> r == Served(ImageOutput(id), "image/png", "mosaic_" + id + ".png")
    ensures ImageOutput(id) !in files ==> r == Failure(NotFound)
  {
    if ImageOutput(id) in files then Served(ImageOutput(id), "image/png", "mosaic_" + id + ".png")
    else Failure(NotFound)
  }

  /** A processed image is served from its URL, and the video cleanup never
      deletes an image output. */
  lemma ImageLifecycle(files: set<StoredFile>, filename: Option<string>, ratio: real, padding: real,
                       decoded: DecodedImage, id: string)
    requires ValidId(id)
    requires CheckUpload(ImageUpload, filename, ratio, padding).Allowed?
    requires !MosaicRaisesOn(decoded, padding, ratio)
    ensures var done := ProcessImageEndpoint(files, filename, ratio, padding, true, Some(decoded), id);
            && RouteId(ImageDownloadPrefix, done.reply.downloadUrl) == Some(id)
            && DownloadImage(done.files, id).Served?
            && DownloadImage(Cleanup(done.files, id).files, id).Served?
  {
    RoutesResolve(id);
  }
}
