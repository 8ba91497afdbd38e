# zen-ken in Dafny

A Dafny model of the logic in zen-ken, a kendama trick catalogue and posting app. It covers:

- the client-side video editor: trim range, playback loop, seek, volume, zoom, blur regions and tool modes;
- the posting page around the editor: file acceptance, the editor overlay and its preview URL, the difficulty label and the form schema with its per-field error map;
- the pure parts of the face-mosaic server: rotation metadata, frame turning and the ffmpeg filter, padded face boxes, the mosaic step, the frame-to-frame reuse of boxes, upload checks, stored file names and download routes;
- the trick catalogue queries, the type declarations they rely on, and the search page's lookup tables and gating;
- the mock credential check and the session callbacks, the sign-up password check, and the success page's countdown.

Every operation is a pure function on immutable values, except the video loop, which is a method. The trick dataset, the media pipeline's results (rotation metadata, face detections, encoder outcome) and the browser's answers (selected file, element position, URL check) are parameters.

The modules follow the source files:

| module | file | source |
|---|---|---|
| `Common` | common.dfy | JavaScript and Python primitives: `includes`, `toLowerCase`, `trim`, `\|\|`, array indexing, `filter`, `slice` |
| `Types` | types.dfy | src/types/index.ts |
| `Tricks` | tricks.dfy | src/lib/tricks.ts |
| `SearchPage` | search_page.dfy | src/app/search/page.tsx |
| `Auth` | auth.dfy | src/lib/auth.ts |
| `Signup` | signup.dfy | src/app/auth/signup/page.tsx |
| `PostSuccess` | post_success.dfy | src/app/post/success/page.tsx |
| `VideoEditor` | video_editor.dfy | src/components/video/VideoEditor.tsx |
| `PostNew` | post_new.dfy | src/app/post/new/page.tsx |
| `MosaicFrames` | mosaic_frames.dfy | api/main.py, rotation and frame processing |
| `MosaicServer` | mosaic_server.dfy | api/main.py, the endpoints |

Facts about the code that the model follows:

- `process_video` returns `processed_frames`, `rotation_fixed` and a status text. Only the commented-out earlier version (api/main.py:341-349) also returned `total_faces_detected`.
- The editor has no crop rectangle with handles, no drag gestures, no draggable playhead and no client for the mosaic server. It has a zoom slider (`cropScale`) and fixed-size blur regions in percent.
- The ffmpeg filter follows the code (`transpose=2` for 90, `transpose=1` for 270), not the comment above it, which says the opposite.

## Model

| member | source | states |
|---|---|---|
| Common.Includes | src/lib/tricks.ts:23-26 | `includes` holds exactly when the query occurs at some position, so the empty query occurs everywhere |
| Common.Trim | src/app/search/page.tsx:44 | the trimmed text is a slice of the input with only white space cut off either side; it is empty exactly for blank input, and otherwise starts and ends with non-white-space |
| Common.Utf16Length | src/app/auth/signup/page.tsx:27 | the JavaScript length is the number of characters plus the number of characters outside the Basic Multilingual Plane, which take two code units each |
| Common.OrElse | src/app/post/success/page.tsx:10 | `x \|\| fallback` on an optional string gives `x` when present and non-empty, else the fallback |
| Common.LowerIdempotent | src/lib/tricks.ts:20 | lower-casing twice is lower-casing once |
| Common.Filter | src/lib/tricks.ts:16 | `filter` keeps exactly the elements satisfying the predicate, each as often as it occurs, as a subsequence |
| Common.SliceTo | src/app/search/page.tsx:50 | `slice(0, end)` is a prefix of length `min(end, n)`, and a negative end counts back from the length |
| Types.AllCategories | src/types/index.ts:1-9 | the category type has exactly eight distinct values, each at its own position |
| Types.CategoryNameRoundTrip | src/types/index.ts:1-9 | reading a category's literal gives back the category, so no two categories share a literal |
| Types.ParseCategory | src/types/index.ts:1-9 | parsing succeeds exactly on the eight literals and returns the category written that way |
| Types.ParseVideoType | src/types/index.ts:13 | a video type is exactly one of the four literals |
| Types.ParseProvider | src/types/index.ts:52 | a provider is exactly "google" or "email" |
| Types.Categories | src/types/index.ts:56-66 | the tab list starts with "all" and then lists every category exactly once |
| Types.DifficultyColors | src/types/index.ts:68-73 | colour styles exist for exactly 初級, 中級, 上級 and 達人 |
| Tricks.GetAllTricks | src/lib/tricks.ts:4-6 | the whole dataset, unchanged |
| Tricks.GetTrickBySlug | src/lib/tricks.ts:8-10 | nothing exactly when no trick has the slug; otherwise a trick of the dataset with that slug |
| Tricks.SlugIndex | src/lib/tricks.ts:9 | `find` stops at the first trick with the slug: no earlier trick has it |
| Tricks.GetTricksByCategory | src/lib/tricks.ts:12-17 | "all" gives the dataset; a category gives exactly its tricks, with multiplicity, in dataset order |
| Tricks.SearchTricks | src/lib/tricks.ts:19-28 | a trick is kept exactly when a name, the category or a tag contains the lower-cased query; order and multiplicity are kept; the empty query keeps everything |
| Tricks.SearchIgnoresQueryCase | src/lib/tricks.ts:20 | searching for a query and for its lower-cased form gives the same result |
| Tricks.RelatedCandidates | src/lib/tricks.ts:31-36 | the candidates are exactly the dataset tricks with another id and the same category or difficulty, in dataset order |
| Tricks.GetRelatedTricks | src/lib/tricks.ts:30-38 | never the trick itself; every result shares category or difficulty; the first `min(limit, n)` candidates |
| SearchPage.TablesKeyedByCategories | src/app/search/page.tsx:10-37 | both lookup tables are keyed by exactly the eight category literals |
| SearchPage.LookUp | src/app/search/page.tsx:21 | `table[key] \|\| fallback`: a non-empty own value, else an inherited member when the key names one, else the fallback |
| SearchPage.CategoriesAreNotInherited | src/app/search/page.tsx:10-37 | no category literal is the name of an inherited property |
| SearchPage.CategoryIcon | src/app/search/page.tsx:10-22 | a category literal gets its own icon, never the fallback; a name inherited from `Object.prototype` finds that member; anything else gets 🎯 |
| SearchPage.CategoryBadge | src/app/search/page.tsx:25-37 | a category literal gets its non-empty badge; a name inherited from `Object.prototype` finds that member; anything else gets "" |
| SearchPage.EveryCategoryIsDecorated | src/app/search/page.tsx:10-37 | every category of the type, which is what the page passes, gets a text icon other than the fallback and a non-empty badge text |
| SearchPage.SearchResults | src/app/search/page.tsx:43-48 | a blank query gives no results; otherwise the catalogue search on the untrimmed query |
| SearchPage.PageView | src/app/search/page.tsx:104-116 | browsing exactly for a blank query, with at most the first 4 and the first 10 tricks; "not found" exactly when a non-blank query has no results |
| Auth.Authorize | src/lib/auth.ts:12-38 | the test account gets user "1"; otherwise a non-empty e-mail with the password "demo" gets user "demo", named by the text before "@"; everything else is refused |
| Auth.BeforeFirst | src/lib/auth.ts:32 | `split("@")[0]` is a prefix without "@" that ends at the first "@" or at the end |
| Auth.TestEmailWithDemoPassword | src/lib/auth.ts:15-35 | the test e-mail with the demo password is the demo user named "test" |
| Auth.EmptyEmailIsRefused | src/lib/auth.ts:28 | missing credentials, a missing e-mail or an empty e-mail are refused whatever the password |
| Auth.JwtCallback | src/lib/auth.ts:48-53 | the token gets the user's id when a user is present; otherwise it is unchanged |
| Auth.SessionCallback | src/lib/auth.ts:54-59 | the token's id is copied onto the session user only when there is one; nothing else changes |
| Auth.SignedInIdReachesSession | src/lib/auth.ts:48-59 | after sign-in, every later session carries the signed-in user's id |
| Signup.HandleSubmit | src/app/auth/signup/page.tsx:18-40 | a mismatch is reported first, then a short password; the error is empty exactly for a valid pair, which sets loading and redirects to sign-in; a refused pair leaves loading alone |
| Signup.PreviousErrorIsCleared | src/app/auth/signup/page.tsx:20 | the resulting state does not depend on the previous error |
| Signup.MismatchReportedFirst | src/app/auth/signup/page.tsx:22-30 | a short mismatched pair reports the mismatch |
| Signup.AstralPasswordIsLongEnough | src/app/auth/signup/page.tsx:27 | three emoji count as six code units and pass the length check |
| PostSuccess.TrickName | src/app/post/success/page.tsx:10 | the name parameter when present and non-empty, else 新しい技 |
| PostSuccess.Tick | src/app/post/success/page.tsx:15-21 | a tick above 1 counts down; at 1 or below it yields 0, stops the interval and redirects once |
| PostSuccess.RunFrom | src/app/post/success/page.tsx:13-23 | from a running count `c`, tick `c` reaches 0 with one redirect, and later ticks change nothing |
| PostSuccess.CountdownSendsHomeOnce | src/app/post/success/page.tsx:11-23 | from 5, ticks count 5, 4, 3, 2, 1, and the fifth reaches 0 with exactly one redirect |
| PostSuccess.CountNeverNegative | src/app/post/success/page.tsx:15-21 | no number of ticks makes the count negative |
| VideoEditor.Open | src/components/video/VideoEditor.tsx:32-42 | the editor opens not playing, with range 0..60, no tool, no regions, volume 100 and zoom 1 |
| VideoEditor.RangeInputValue | src/components/video/VideoEditor.tsx:305-324 | a range input's value is never below its minimum, and never above its maximum when the maximum is not below the minimum |
| VideoEditor.LoadedMetadata | src/components/video/VideoEditor.tsx:53-59 | records the duration and sets the end to `min(duration, 60)`; nothing else changes |
| VideoEditor.TimeUpdate | src/components/video/VideoEditor.tsx:62-73 | mirrors the position; at or past the end it pauses, moves the element back to the start and clears the playing flag, keeping the reported time |
| VideoEditor.Ended | src/components/video/VideoEditor.tsx:179 | only the playing flag is cleared |
| VideoEditor.TogglePlay | src/components/video/VideoEditor.tsx:76-88 | flips the playing flag; starting from outside the range first moves to the start; pausing keeps the position |
| VideoEditor.PlaybackStartsInsideRange | src/components/video/VideoEditor.tsx:76-88 | with a non-empty range, playback always starts inside it |
| VideoEditor.Seek | src/components/video/VideoEditor.tsx:91-97 | element position and reported time both become the requested time, unclamped; nothing else changes |
| VideoEditor.SeekPastEndLoopsBack | src/components/video/VideoEditor.tsx:62-97 | a seek past the end is undone by the next time update: the element is paused at the start |
| VideoEditor.SetStartTime | src/components/video/VideoEditor.tsx:305-310 | the start stays within `0 .. endTime - 1`, a request in that range is taken as is, and nothing else changes |
| VideoEditor.SetEndTime | src/components/video/VideoEditor.tsx:318-323 | the end is at least `startTime + 1`, and within `min(duration, 60)` when that bound allows; a request in that range is taken as is; nothing else changes |
| VideoEditor.TrimSlidersKeepInvariant | src/components/video/VideoEditor.tsx:305-324 | any movement of either cut slider keeps a range of at least one second within the clip |
| VideoEditor.OpenedClipIsTrimValid | src/components/video/VideoEditor.tsx:53-59 | loading a clip of at least one second establishes that invariant |
| VideoEditor.LongClipScenario | src/components/video/VideoEditor.tsx:305-324 | a 90-second clip is cut to 0..60, and the start slider cannot pass 59 |
| VideoEditor.LoopAtBoundaryScenario | src/components/video/VideoEditor.tsx:62-73 | a time update at 5.1 s with range 2..5 pauses the element at 2 s |
| VideoEditor.VolumeSliderValue | src/components/video/VideoEditor.tsx:372-377 | the volume slider gives an integer in 0..100 |
| VideoEditor.VolumeChange | src/components/video/VideoEditor.tsx:117-123 | volume stays in 0..100 and an in-range request is taken as is; the element gets `volume / 100`; nothing else changes |
| VideoEditor.CropScaleChange | src/components/video/VideoEditor.tsx:395-401 | the zoom stays within 0.5..1.5, a request in that range is taken as is, and nothing else changes |
| VideoEditor.PressTool | src/components/video/VideoEditor.tsx:426 | the active tool's button deactivates it; any other button activates its own tool |
| VideoEditor.ToggleMode | src/components/video/VideoEditor.tsx:440 | a toolbar press changes only the active tool |
| VideoEditor.PressTwice | src/components/video/VideoEditor.tsx:426-463 | pressing the same button twice restores the previous tool exactly when no tool or that tool was active; otherwise it leaves none |
| VideoEditor.AddBlurRegion | src/components/video/VideoEditor.tsx:100-109 | appends exactly one region at 30,20 sized 40×40, inside the frame, keeping the earlier ones |
| VideoEditor.RemoveBlurRegion | src/components/video/VideoEditor.tsx:112-114 | drops exactly the regions with that id, keeping the others with their multiplicity and in order |
| VideoEditor.RemoveIsIdempotent | src/components/video/VideoEditor.tsx:112-114 | removing an id twice is removing it once |
| VideoEditor.ClickRegion | src/components/video/VideoEditor.tsx:219-224 | a click on a region removes it only while the blur tool is active |
| VideoEditor.Save | src/components/video/VideoEditor.tsx:126-135 | the descriptor carries exactly the editor's file, range, volume, regions and zoom |
| PostNew.SelectFile | src/app/post/new/page.tsx:55-73 | no file: nothing; not `video/`: alert without change; over 100 MiB: alert without change; else the editor opens on it; the page changes only for an acceptable file |
| PostNew.SizeLimitIsInclusive | src/app/post/new/page.tsx:59-68 | exactly 100 MiB is accepted, one byte more is refused, and the type is checked before the size |
| PostNew.EditorClose | src/app/post/new/page.tsx:81-87 | hides the editor and clears the file, keeping the saved data and the preview URL |
| PostNew.EditorSave | src/app/post/new/page.tsx:90-97 | stores the data, hides the editor, shows the preview under a fresh URL and revokes nothing |
| PostNew.SecondSaveLeaksFirstUrl | src/app/post/new/page.tsx:90-97 | saving twice creates two URLs, and the first is never revoked |
| PostNew.RemoveVideo | src/app/post/new/page.tsx:100-110 | clears file, data and preview URL, revoking the URL only when there was one |
| PostNew.ReEdit | src/app/post/new/page.tsx:309-312 | with a preview shown, reopens the editor on the saved file; otherwise nothing |
| PostNew.ReEditReopensSavedFile | src/app/post/new/page.tsx:55-97 | select, edit, save and re-edit reopen the editor on the file first selected |
| PostNew.DifficultyLabel | src/app/post/new/page.tsx:261 | levels 1..4 get their own label; any other value, including 5, gets 中級 |
| PostNew.TopLevelShowsFallback | src/app/post/new/page.tsx:261 | level 5, which the schema allows, is labelled like level 2 |
| PostNew.DifficultyIssues | src/app/post/new/page.tsx:14 | below 1 and above 5 are each reported, on the difficulty field, and at most one of them |
| PostNew.SchemaIssues | src/app/post/new/page.tsx:10-16 | each issue is reported exactly when its field fails, and no issue exactly when the schema accepts |
| PostNew.SchemaReportsInFieldOrder | src/app/post/new/page.tsx:10-16 | issues come in field order, at most one per field |
| PostNew.CollectLookup | src/app/post/new/page.tsx:128-132 | the error map has a field exactly when some issue is about it, and holds the message of the last such issue |
| PostNew.ErrorsKeepLastIssue | src/app/post/new/page.tsx:128-132 | a later issue for the same field overwrites an earlier one |
| PostNew.Submit | src/app/post/new/page.tsx:112-137 | accepted exactly when the schema accepts, going on with the Japanese name; otherwise a non-empty error map from the issues |
| PostNew.SuccessPageShowsPostedName | src/app/post/new/page.tsx:125 | after an accepted submit the success page shows the entered Japanese name, never its default |
| PostNew.EmptyFormErrors | src/app/post/new/page.tsx:38-44 | the initial form reports exactly the two names and the category, with their messages |
| PostNew.ButtonsSatisfySchema | src/app/post/new/page.tsx:235-276 | every category button and difficulty button gives values the schema accepts, each with its own label |
| MosaicFrames.TruncToInt | api/main.py:69 | `int()` truncates toward zero: within one below or above the value, on its side of zero |
| MosaicFrames.LastSideDataWins | api/main.py:63-67 | the last side-data entry with a rotation wins over earlier ones and over the tag |
| MosaicFrames.NormalizeRotation | api/main.py:69-71 | the result is in 0..359 and congruent modulo 360 to the truncated value; a value `float()` rejects gives 0 |
| MosaicFrames.NormalizeRotationExamples | api/main.py:69-71 | -90 gives 270, -90.5 gives 270, 450 gives 90 and -360 gives 0 |
| MosaicFrames.GetVideoRotation | api/main.py:58-75 | 0..359; 0 on probe failure or an empty stream list; else the last side-data rotation, or the tag, normalised |
| MosaicFrames.RotateFrame | api/main.py:92-102 | only the listed non-zero multiples of 90 from -270 to 270 turn the frame |
| MosaicFrames.RotateFrameTurnsByAngle | api/main.py:92-102 | every multiple of 90 in -360..360 turns the frame clockwise by that angle; other angles do not turn it |
| MosaicFrames.VideoFilter | api/main.py:404-414 | for 0, 90, 180 and 270 the filter undoes a clockwise rotation by that angle; anything else only pads to even sides |
| MosaicFrames.VideoFilterTexts | api/main.py:404-414 | the filter texts are transpose=2, transpose=2,transpose=2, transpose=1 and the padding default |
| MosaicFrames.FilterOpposesRotateFrame | api/main.py:404-414 | for 90 and 270 the filter turns opposite to `rotate_frame`; for 180 both make a half turn |
| MosaicFrames.PadBox | api/main.py:196-202 | the padded box is clamped: x1, y1 ≥ 0, x2 ≤ width, y2 ≤ height; for non-negative padding it covers the detection clipped to the frame |
| MosaicFrames.PadAll | api/main.py:186-205 | one padded box per detection, in detection order |
| MosaicFrames.BlockSize | api/main.py:144-145 | the block side is at least 1, at most the side for a ratio in (0, 1], and at most one above `side * ratio` |
| MosaicFrames.SliceBound | api/main.py:138 | a slice bound lies within the dimension and is taken as given when it is in range |
| MosaicFrames.SliceLength | api/main.py:138 | the slice length is the difference for in-range bounds and 0 for reversed ones |
| MosaicFrames.ApplyMosaic | api/main.py:137-152 | unchanged exactly for an empty slice; raises for a non-positive size; pixelated exactly when the slice, with negative bounds counted from the far edge, is `h` by `w`, and then at that slice; any other region cannot be written back |
| MosaicFrames.WrappedRegionIsPixelated | api/main.py:138-151 | a box wholly left of the frame pixelates columns counted from the right edge; one straddling the left edge selects nothing; one running past the right edge fails to write back |
| MosaicFrames.OffFrameFaceRaises | api/main.py:196-208 | a detection wholly above the frame gives a box with a negative bottom; the mosaic step raises on it, and the frame step with it, while the guarded frame step skips it |
| MosaicFrames.MosaicBoxChecked | api/main.py:138-141 | a box with no width or height is skipped; any other is mosaicked as before |
| MosaicFrames.CheckedMosaicNeverFails | api/main.py:196-208 | with the guard every padded box is skipped or pixelated exactly in place |
| MosaicFrames.MosaicSafeForBoxesReachingTheFrame | api/main.py:196-208 | without the guard the same holds for boxes that do not end above or left of the frame |
| MosaicFrames.ProcessFrame | api/main.py:186-217 | the count is the number of detections; with detections the boxes are their padded boxes; without, a non-empty previous list is reused, else nothing |
| MosaicFrames.FrameMosaics | api/main.py:207-215 | each box goes through the unguarded mosaic step; a box inside the frame that is not inverted is skipped exactly when it has no area, and is otherwise pixelated in place |
| MosaicFrames.FrameMosaicsChecked | api/main.py:140-141 | with the guard, every box inside the frame, inverted ones included, is skipped exactly when it has no area, and is otherwise pixelated in place |
| MosaicFrames.FrameRaisesOnSomeDetection | api/main.py:186-215 | with nothing remembered, the frame step raises exactly when the mosaic of one of the frame's own padded detections raises |
| MosaicFrames.LastDetected | api/main.py:389-390 | the last earlier frame with detections: every frame after it has none |
| MosaicFrames.FrameFacesMeaning | api/main.py:386-390 | a frame mosaics its own boxes, or else those of the last frame with detections, or nothing before the first |
| MosaicFrames.FrameRaisesMeaning | api/main.py:381-390 | a frame with detections raises exactly when one of its padded detections does; a frame without raises exactly when the last frame with detections did, and never before the first |
| MosaicFrames.VideoRaisesOnSomeDetection | api/main.py:381-390 | the first frame whose mosaic step raises has detections, and some frame raises exactly when some frame's own detections do |
| MosaicFrames.OffFrameFaceRaisesVideo | api/main.py:196-208 | a video with the off-frame face below in any frame makes the mosaic step raise |
| MosaicFrames.ProcessVideo | api/main.py:351-446 | the run ends by an exception exactly when some frame's own padded detections make the mosaic step raise, at the first such frame, with the earlier frames' boxes as above; otherwise every frame completes, the rotation is the probe's, the filter the one for it, and the status the fixed success text |
| MosaicServer.StripTrailingSlashes | api/main.py:482 | trailing slashes are removed and nothing else |
| MosaicServer.AfterLast | api/main.py:482 | the text after the last separator is a suffix without separator |
| MosaicServer.LastIndex | api/main.py:482 | `rfind` finds the last occurrence, or reports none |
| MosaicServer.Suffix | api/main.py:482 | a suffix is a dot followed by at least one character and no further dot, and ends the file name |
| MosaicServer.SuffixOfPlainName | api/main.py:482 | a plain name with one extension has that extension as its suffix |
| MosaicServer.SuffixExamples | api/main.py:482 | ".mp4" and "clip." have no suffix |
| MosaicServer.CheckUpload | api/main.py:468-484 | query out of range: 422; missing or empty name: 400; allowed exactly when the lower-cased suffix is supported, reporting it; else 400 |
| MosaicServer.UpperCaseExtensionAccepted | api/main.py:482-483 | an upper-case `.MP4` is accepted as `.mp4` |
| MosaicServer.BareExtensionRefused | api/main.py:482-484 | a file named just like a supported extension is refused |
| MosaicServer.ImageIsNotVideo | api/main.py:558-563 | a PNG is refused as a video, accepted as an image, and refused with a ratio out of range |
| MosaicServer.FileNamesDistinct | api/main.py:488-489 | for valid ids, two stored files with the same name are the same file |
| MosaicServer.RouteId | api/main.py:522 | a route captures a non-empty id without slash, and the URL is the prefix plus that id |
| MosaicServer.RoutesResolve | api/main.py:511 | each download URL routes back to its id, and an image URL is never taken for a video download |
| MosaicServer.ProcessAccepted | api/main.py:491-519 | the upload is gone afterwards; the output exists exactly when encoded, when the encoder failed after writing the raw file, or when the encoder failed and the output was already there; nothing else changes; 500 on a crash, else the download URL |
| MosaicServer.ProcessVideoEndpoint | api/main.py:465-519 | a refused upload changes nothing and answers the check's failure; an accepted one goes through the pipeline under its extension |
| MosaicServer.DownloadVideo | api/main.py:522-534 | the id's output is served as video/mp4 named `mosaic_<id>.mp4` when present, else 404 |
| MosaicServer.Cleanup | api/main.py:537-542 | the id's video output is gone, nothing else changes, and the call always succeeds |
| MosaicServer.OutputLifecycle | api/main.py:508-542 | the returned URL serves the output; after cleanup it gives 404; a second cleanup changes nothing |
| MosaicServer.SuccessWithoutOutput | api/main.py:437-440 | when the encoder fails and no raw file was written, the success reply's URL gives 404 |
| MosaicServer.ProcessImageEndpoint | api/main.py:545-594 | checks; then 500 without the detector and 400 for an undecodable image; a face whose mosaic raises ends the request with a 500 and no file; else a stored PNG and the face count |
| MosaicServer.OffFrameImageRaises | api/main.py:576-578 | a 640×480 image with a face wholly above it makes the frame step raise |
| MosaicServer.OffFrameFaceFailsImageRequest | api/main.py:576-578 | an allowed upload of that image is answered with the uncaught-exception failure, and no file is stored |
| MosaicServer.DownloadImage | api/main.py:597-609 | the id's PNG is served as image/png named `mosaic_<id>.png` when present, else 404 |
| MosaicServer.ImageLifecycle | api/main.py:589-609 | a processed image whose faces all mosaic is served from its URL, and the video cleanup never deletes it |

## Left out

- Media work is not modelled: ffprobe, ffmpeg, OpenCV capture, resize and encode, and MediaPipe detection. Rotation metadata, detections and the encoder's outcome are inputs, and a mosaic is reported as an outcome rather than as pixels.
- JSON parsing of the probe output and `float()` on metadata text are not modelled. A rotation value arrives as a real number or as a value `float()`/`int()` reject.
- MosaicFrames.TruncToInt: computes on exact reals, not on double-precision floats.
- MosaicFrames.ProcessVideo: returns the boxes per frame and the filter instead of writing frames. The debug prints and the temporary `_temp.mp4` file are not modelled. The 400 for a video OpenCV cannot open (api/main.py:364-365) is not modelled here; at the endpoint it is caught and surfaces only as `MosaicServer.Crashed`, as is the exception of the mosaic step.
- MosaicServer.ProcessAccepted: any exception is one `Crashed` outcome, with the 500 detail text (`str(e)`) left out. That includes a video OpenCV cannot open and a missing face model: their own 400 and 500 are raised inside the `try` and become a 500. A temporary file left behind by a crash is not modelled. Whether the pipeline crashes is an input; a face whose mosaic raises, as in the finding below, is one cause.
- MosaicServer.CheckUpload: the framework's 422 body and its check that the query values are numbers are not modelled.
- MosaicServer.ProcessImageEndpoint: the pixels of the stored PNG and the framework's plain-text body for an uncaught exception are not modelled.
- MosaicServer.Suffix: follows the path-name rules up to Python 3.13. The path normalisation of "." and ".." components is not modelled.
- The health and root endpoints, CORS and the server start-up are left out. They hold no logic.
- File ids are parameters rather than generated UUIDs. MosaicServer.FileNamesDistinct assumes ids without "/" or "_", as UUIDs are.
- Common.Lower: maps the ASCII letters only. Other case mappings of `toLowerCase` and `lower()` are not modelled.
- VideoEditor.RangeInputValue: clamps to the bounds but does not snap to the slider's step.
- VideoEditor.LoadedMetadata: takes the duration as a finite real. Browsers report NaN before metadata and Infinity for some recorded WebM files; `Math.min(Infinity, 60)` still gives 60, but neither value is modelled.
- The editor's own object URL for the preview `<video>`, `formatTime`, the CSS percentages and the `play()` promise are left out.
- Blur-region ids come from `Date.now()` in the source; here they are a parameter.
- PostNew.SchemaIssues: takes zod's URL check as the parameter `urlOk`. It uses zod 3's default messages for the difficulty bounds.
- Object URLs are modelled as serial numbers issued by the page. Creation and revocation are emitted effects.
- The page reads `editedVideoData.mosaicEnabled` (src/app/post/new/page.tsx:333), but the saved data has no such field, so that badge never shows. The field is not modelled.
- The category buttons offer 摺足系 and 静止系, which are not values of the category type. The form keeps the category as text, as the page does.
- The simulated network delays, `router.push`, `encodeURIComponent` and the loading spinner are left out. A redirect is the route it names.
- NextAuth's token and session machinery is left out. The token's other claims are an opaque map that the callbacks keep.
- The trick dataset (`data/tricks.json`) is a parameter.
- The success page's interval timing is left out. The countdown is modelled as a sequence of ticks.
- Pure UI components and the remaining pages hold no logic and are not part of this model.

## Findings

| source | as written | input that shows it | evidently intended | confidence | as-written member | corrected member |
|---|---|---|---|---|---|---|
| api/main.py:196-208 | The padded box is clamped at the frame's far edges only. A detection wholly above (or left of) the frame therefore gets a box with a negative bottom (or right) edge. `apply_mosaic` slices with it, NumPy counts the negative bound from the end, the region is not empty, and scaling back to a negative height raises. | Detection at x 10, y -100, size 20×20, padding 0.4, frame 640×480: corners (2, 0, 38, -72), and the mosaic step raises | a box with no area is skipped | low: detectors rarely report boxes wholly outside the frame; not executed | MosaicFrames.OffFrameFaceRaises | MosaicFrames.CheckedMosaicNeverFails |

The frame step and the image endpoint model the code as written, so the face above answers 500 there (`MosaicServer.OffFrameFaceFailsImageRequest`) and ends a video run (`MosaicFrames.OffFrameFaceRaisesVideo`). `MosaicFrames.MosaicBoxChecked` and `MosaicFrames.FrameMosaicsChecked` are the guarded versions. `MosaicFrames.CheckedMosaicNeverFails` proves that the guarded step never raises.
