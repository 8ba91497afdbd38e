/** The new-trick posting page (src/app/post/new/page.tsx): which files it
    accepts, the overlay/preview state machine around the clip editor, the
    difficulty label, and the form schema with its per-field error map.
    Object URLs, alerts and the file input's reset are emitted as effects. */
module PostNew {
  import opened Common
  import VideoEditor
  import PostSuccess

  type File = VideoEditor.File
  type EditedVideoData = VideoEditor.EditedVideoData

  /** An object URL; the page is the only one that creates them, so a counter
      stands for the browser's unique URL strings. */
  datatype ObjectUrl = ObjectUrl(serial: nat)

  /** What a handler asks of the browser besides changing the page state. */
  datatype Effect =
    | Alert(message: string)
    | CreateObjectUrl(url: ObjectUrl, file: File)
    | RevokeObjectUrl(url: ObjectUrl)
    | ClearFileInput

  datatype Page = Page(
    videoFile: Option<File>,
    showEditor: bool,
    edited: Option<EditedVideoData>,
    previewUrl: Option<ObjectUrl>,
    nextUrl: nat)                   // the serial the next created URL gets

  datatype Step = Step(page: Page, effects: seq<Effect>)

  const InitialPage: Page := Page(None, false, None, None, 0)

  const MaxUploadBytes: int := 100 * 1024 * 1024
  const VideoMimePrefix: string := "video/"
  const NotVideoMessage: string := "動画ファイルを選択してください"
  const TooLargeMessage: string := "ファイルサイズは100MB以下にしてください"

  /** The file would pass both checks of the file-input handler. */
  predicate Acceptable(f: File) {
    IsPrefix(VideoMimePrefix, f.mimeType) && f.size <= MaxUploadBytes
  }

  /** `handleFileSelect`: no file does nothing; a non-video type is refused
      first, then a file over 100 MiB; a refused file only raises an alert. An
      accepted file becomes the file being edited and opens the editor. */
  function SelectFile(p: Page, file: Option<File>): (r: Step)
    ensures file.None? ==> r == Step(p, [])
    ensures file.Some? && !IsPrefix(VideoMimePrefix, file.value.mimeType) ==>
              r == Step(p, [Alert(NotVideoMessage)])
    ensures file.Some? && IsPrefix(VideoMimePrefix, file.value.mimeType) && file.value.size > MaxUploadBytes ==>
              r == Step(p, [Alert(TooLargeMessage)])
    ensures file.Some? && Acceptable(file.value) ==>
              r == Step(p.(videoFile := file, showEditor := true), [])
    ensures r.page != p ==> file.Some? && Acceptable(file.value)
  {
    if file.None? then Step(p, [])
    else
      var f := file.value;
      if !IsPrefix(VideoMimePrefix, f.mimeType) then Step(p, [Alert(NotVideoMessage)])
      else if f.size > MaxUploadBytes then Step(p, [Alert(TooLargeMessage)])
      else Step(p.(videoFile := file, showEditor := true), [])
  }

  /** A file of exactly 100 MiB is accepted, one byte more is not, and a
      non-video file is refused for its type whatever its size. */
  lemma SizeLimitIsInclusive(p: Page, name: string, mime: string)
    requires IsPrefix(VideoMimePrefix, mime)
    ensures EditorOverlayOpen(SelectFile(p, Some(VideoEditor.File(name, mime, MaxUploadBytes))).page)
    ensures SelectFile(p, Some(VideoEditor.File(name, mime, MaxUploadBytes + 1))).effects == [Alert(TooLargeMessage)]
    ensures SelectFile(p, Some(VideoEditor.File(name, "image/png", MaxUploadBytes + 1))).effects == [Alert(NotVideoMessage)]
  {
    assert !IsPrefix(VideoMimePrefix, "image/png") by {
      assert "image/png"[0] != VideoMimePrefix[0];
    }
  }

  /** The editor overlay is rendered iff it is flagged open and there is a file. */
  predicate EditorOverlayOpen(p: Page) {
    p.showEditor && p.videoFile.Some?
  }

  /** The preview with its re-edit and remove buttons is rendered iff there is
      edited data and a preview URL. */
  predicate PreviewShown(p: Page) {
    p.edited.Some? && p.previewUrl.Some?
  }

  /** Every URL the page holds was created earlier, so it is older than the counter. */
  predicate UrlsIssued(p: Page) {
    p.previewUrl.Some? ==> p.previewUrl.value.serial < p.nextUrl
  }

  /** `handleEditorClose`: hides the editor, forgets the file and clears the
      file input; the saved edit and its preview stay. */
  function EditorClose(p: Page): (r: Step)
    ensures !EditorOverlayOpen(r.page)
    ensures r.page.videoFile.None? && !r.page.showEditor
    ensures r.page.edited == p.edited && r.page.previewUrl == p.previewUrl && r.page.nextUrl == p.nextUrl
    ensures r.effects == [ClearFileInput]
  {
    Step(p.(showEditor := false, videoFile := None), [ClearFileInput])
  }

  /** `handleEditorSave`: keeps the descriptor, hides the editor and creates a
      fresh URL for the edited file, which becomes the preview. A preview URL
      that was already there is replaced without being revoked. */
  function EditorSave(p: Page, d: EditedVideoData): (r: Step)
    requires UrlsIssued(p)
    ensures UrlsIssued(r.page)
    ensures r.page.edited == Some(d) && !r.page.showEditor && PreviewShown(r.page)
    ensures r.page.videoFile == p.videoFile
    ensures r.page.previewUrl.Some? && r.page.previewUrl != p.previewUrl
    ensures r.effects == [CreateObjectUrl(r.page.previewUrl.value, d.file)]
    ensures forall u :: RevokeObjectUrl(u) !in r.effects
  {
    var url := ObjectUrl(p.nextUrl);
    Step(p.(edited := Some(d), showEditor := false, previewUrl := Some(url), nextUrl := p.nextUrl + 1),
         [CreateObjectUrl(url, d.file)])
  }

  /** `handleRemoveVideo`: forgets the file, the edit and the preview; the
      preview's URL is revoked when there was one, and the file input is cleared. */
  function RemoveVideo(p: Page): (r: Step)
    ensures r.page.videoFile.None? && r.page.edited.None? && r.page.previewUrl.None?
    ensures !PreviewShown(r.page) && !EditorOverlayOpen(r.page)
    ensures r.page.showEditor == p.showEditor && r.page.nextUrl == p.nextUrl
    ensures p.previewUrl.Some? ==> r.effects == [RevokeObjectUrl(p.previewUrl.value), ClearFileInput]
    ensures p.previewUrl.None? ==> r.effects == [ClearFileInput]
  {
    var revoke := if p.previewUrl.Some? then [RevokeObjectUrl(p.previewUrl.value)] else [];
    Step(p.(videoFile := None, edited := None, previewUrl := None), revoke + [ClearFileInput])
  }

  /** The re-edit button, present only with the preview: reopens the editor on
      the edited file. */
  function ReEdit(p: Page): (r: Page)
    ensures PreviewShown(p) ==> r == p.(videoFile := Some(p.edited.value.file), showEditor := true)
    ensures PreviewShown(p) ==> EditorOverlayOpen(r)
    ensures !PreviewShown(p) ==> r == p
  {
    if PreviewShown(p) then p.(videoFile := Some(p.edited.value.file), showEditor := true) else p
  }

  /** Opening a file, saving whatever the editor made of it, and pressing
      re-edit reopens the editor on that same file, with its preview kept. */
  lemma ReEditReopensSavedFile(p: Page, f: File, media: Option<VideoEditor.Media>, e: VideoEditor.Editor)
    requires UrlsIssued(p) && Acceptable(f)
    requires e.file == VideoEditor.Open(f, media).file
    ensures var selected := SelectFile(p, Some(f)).page;
            var saved := EditorSave(selected, VideoEditor.Save(e)).page;
            var again := ReEdit(saved);
            EditorOverlayOpen(selected) && !EditorOverlayOpen(saved) && PreviewShown(saved)
            && EditorOverlayOpen(again) && again.videoFile == Some(f) && again.previewUrl == saved.previewUrl
  {
  }

  /** Saving twice creates two URLs and revokes neither, so the first one stays
      allocated once a later remove revokes only the second. */
  lemma SecondSaveLeaksFirstUrl(p: Page, d1: EditedVideoData, d2: EditedVideoData)
    requires UrlsIssued(p)
    ensures var s1 := EditorSave(p, d1);
            var s2 := EditorSave(s1.page, d2);
            var s3 := RemoveVideo(s2.page);
            var first := s1.page.previewUrl.value;
            && CreateObjectUrl(first, d1.file) in s1.effects
            && RevokeObjectUrl(first) !in s2.effects + s3.effects
  {
  }

  // ---- the difficulty picker ----

  function DifficultyLabels(): (r: seq<string>)
    ensures |r| == 4
    ensures forall i :: 0 <= i < |r| ==> r[i] != ""
  {
    ["初級", "中級", "上級", "達人"]
  }

  const FallbackDifficultyLabel: string := "中級"

  /** The badge next to the picker: the label of level `d`, or "中級" when the
      table has no entry for it. */
  function DifficultyLabel(d: int): (r: string)
    ensures 1 <= d <= 4 ==> r == DifficultyLabels()[d - 1]
    ensures !(1 <= d <= 4) ==> r == FallbackDifficultyLabel
  {
    OrElse(At(DifficultyLabels(), d - 1), FallbackDifficultyLabel)
  }

  /** The fifth level, which the schema accepts, shows the same badge as level 2. */
  lemma TopLevelShowsFallback()
    ensures DifficultyLabel(5) == FallbackDifficultyLabel == DifficultyLabel(2)
  {
  }

  // ---- the form and its schema ----

  datatype Form = Form(nameJa: string, nameEn: string, category: string, difficulty: int, videoUrl: string)

  const InitialForm: Form := Form("", "", "", 2, "")

  /** The values of the category buttons. */
  function CategoryOptions(): (r: seq<string>)
    ensures |r| == 8
    ensures forall i :: 0 <= i < |r| ==> r[i] != ""
  {
    ["回転系", "摺足系", "静止系", "灯台系", "大皿系", "小皿系", "とめけん系", "糸技系"]
  }

  /** The levels the difficulty buttons offer. */
  function DifficultyButtons(): (r: seq<int>)
    ensures forall i :: 0 <= i < |r| ==> 1 <= r[i] <= 4
  {
    [1, 2, 3, 4]
  }

  /** The schema's fields, in the order it declares them. */
  datatype Field = NameJa | NameEn | CategoryField | Difficulty | VideoUrl

  /** The issues the schema can report, one per failing check. */
  datatype Issue = NameJaEmpty | NameEnEmpty | CategoryEmpty | DifficultyTooSmall | DifficultyTooBig | BadVideoUrl

  /** The first path segment of an issue. */
  function FieldOf(i: Issue): Field {
    match i
    case NameJaEmpty => NameJa
    case NameEnEmpty => NameEn
    case CategoryEmpty => CategoryField
    case DifficultyTooSmall => Difficulty
    case DifficultyTooBig => Difficulty
    case BadVideoUrl => VideoUrl
  }

  /** The message of an issue: the schema's own text, or the validator's
      default for the number bounds. */
  function MessageOf(i: Issue): string {
    match i
    case NameJaEmpty => "技名（日本語）を入力してください"
    case NameEnEmpty => "技名（英語）を入力してください"
    case CategoryEmpty => "カテゴリーを選択してください"
    case DifficultyTooSmall => "Number must be greater than or equal to 1"
    case DifficultyTooBig => "Number must be less than or equal to 5"
    case BadVideoUrl => "有効なURLを入力してください"
  }

  /** A one-issue list when `bad` holds. */
  function IssueIf(bad: bool, issue: Issue): (r: seq<Issue>)
    ensures bad ==> r == [issue]
    ensures !bad ==> r == []
  {
    if bad then [issue] else []
  }

  /** Both bounds of the difficulty are checked, and an integer fails at most one. */
  function DifficultyIssues(d: int): (r: seq<Issue>)
    ensures DifficultyTooSmall in r <==> d < 1
    ensures DifficultyTooBig in r <==> d > 5
    ensures forall x :: x in r ==> FieldOf(x) == Difficulty
    ensures |r| <= 1
  {
    IssueIf(d < 1, DifficultyTooSmall) + IssueIf(d > 5, DifficultyTooBig)
  }

  /** Issues appear in strictly increasing field order, so at most one per field. */
  predicate FieldOrdered(r: seq<Issue>) {
    forall i, j :: 0 <= i < j < |r| ==> FieldRank(FieldOf(r[i])) < FieldRank(FieldOf(r[j]))
  }

  lemma AppendKeepsOrder(a: seq<Issue>, b: seq<Issue>, k: nat)
    requires FieldOrdered(a) && |b| <= 1
    requires forall x :: x in a ==> FieldRank(FieldOf(x)) < k
    requires forall y :: y in b ==> FieldRank(FieldOf(y)) == k
    ensures FieldOrdered(a + b)
    ensures forall x :: x in a + b ==> FieldRank(FieldOf(x)) <= k
  {
    var ab := a + b;
    forall i, j | 0 <= i < j < |ab| ensures FieldRank(FieldOf(ab[i])) < FieldRank(FieldOf(ab[j])) {
      if j >= |a| {
        assert ab[i] in a;
        assert ab[j] in b;
      }
    }
  }

  /** The issues `newTrickSchema` reports, field by field in declaration order.
      A string fails its minimum length of one only when empty; the difficulty
      fails at most one of its two bounds; the video URL passes when empty and
      otherwise needs `urlOk`, the verdict of the schema's URL check on it. */
  function SchemaIssues(form: Form, urlOk: bool): (r: seq<Issue>)
    ensures NameJaEmpty in r <==> form.nameJa == ""
    ensures NameEnEmpty in r <==> form.nameEn == ""
    ensures CategoryEmpty in r <==> form.category == ""
    ensures DifficultyTooSmall in r <==> form.difficulty < 1
    ensures DifficultyTooBig in r <==> form.difficulty > 5
    ensures BadVideoUrl in r <==> form.videoUrl != "" && !urlOk
    ensures r == [] <==> SchemaAccepts(form, urlOk)
  {
    IssueIf(form.nameJa == "", NameJaEmpty)
    + IssueIf(form.nameEn == "", NameEnEmpty)
    + IssueIf(form.category == "", CategoryEmpty)
    + DifficultyIssues(form.difficulty)
    + IssueIf(form.videoUrl != "" && !urlOk, BadVideoUrl)
  }

  /** The schema reports its issues in field order, at most one per field. */
  lemma SchemaReportsInFieldOrder(form: Form, urlOk: bool)
    ensures FieldOrdered(SchemaIssues(form, urlOk))
  {
    PiecesInOrder(IssueIf(form.nameJa == "", NameJaEmpty), IssueIf(form.nameEn == "", NameEnEmpty),
                  IssueIf(form.category == "", CategoryEmpty), DifficultyIssues(form.difficulty),
                  IssueIf(form.videoUrl != "" && !urlOk, BadVideoUrl));
  }

  /** Five per-field pieces of at most one issue each, joined in rank order. */
  lemma PiecesInOrder(a: seq<Issue>, b: seq<Issue>, c: seq<Issue>, d: seq<Issue>, e: seq<Issue>)
    requires |a| <= 1 && |b| <= 1 && |c| <= 1 && |d| <= 1 && |e| <= 1
    requires forall x :: x in a ==> FieldOf(x) == NameJa
    requires forall x :: x in b ==> FieldOf(x) == NameEn
    requires forall x :: x in c ==> FieldOf(x) == CategoryField
    requires forall x :: x in d ==> FieldOf(x) == Difficulty
    requires forall x :: x in e ==> FieldOf(x) == VideoUrl
    ensures FieldOrdered(a + b + c + d + e)
  {
    AppendKeepsOrder([], a, 0);
    assert [] + a == a;
    AppendKeepsOrder(a, b, 1);
    AppendKeepsOrder(a + b, c, 2);
    AppendKeepsOrder(a + b + c, d, 3);
    AppendKeepsOrder(a + b + c + d, e, 4);
  }

  /** A field's position in the schema. */
  function FieldRank(f: Field): nat {
    match f
    case NameJa => 0
    case NameEn => 1
    case CategoryField => 2
    case Difficulty => 3
    case VideoUrl => 4
  }

  /** The schema's acceptance condition, stated field by field. */
  predicate SchemaAccepts(form: Form, urlOk: bool) {
    && form.nameJa != "" && form.nameEn != "" && form.category != ""
    && 1 <= form.difficulty <= 5
    && (form.videoUrl == "" || urlOk)
  }

  /** Writes each issue's message under its field, in order. */
  function Collect(acc: map<Field, string>, issues: seq<Issue>): map<Field, string>
    decreases |issues|
  {
    if issues == [] then acc
    else Collect(acc[FieldOf(issues[0]) := MessageOf(issues[0])], issues[1..])
  }

  /** The per-field error map the submit handler builds from the issue list. */
  function FieldErrors(issues: seq<Issue>): map<Field, string> {
    Collect(map[], issues)
  }

  /** Issue `i` is the last one about field `f`. */
  predicate IsLastIssueFor(issues: seq<Issue>, i: int, f: Field) {
    0 <= i < |issues| && FieldOf(issues[i]) == f && forall j :: i < j < |issues| ==> FieldOf(issues[j]) != f
  }

  lemma {:induction false} CollectLookup(acc: map<Field, string>, issues: seq<Issue>, f: Field)
    ensures f in Collect(acc, issues) <==> f in acc || exists i :: 0 <= i < |issues| && FieldOf(issues[i]) == f
    ensures forall i :: IsLastIssueFor(issues, i, f) ==> f in Collect(acc, issues) && Collect(acc, issues)[f] == MessageOf(issues[i])
    ensures f in acc && (forall i :: 0 <= i < |issues| ==> FieldOf(issues[i]) != f) ==> Collect(acc, issues)[f] == acc[f]
    decreases |issues|
  {
    if issues != [] {
      var head := issues[0];
      var rest := issues[1..];
      var acc' := acc[FieldOf(head) := MessageOf(head)];
      CollectLookup(acc', rest, f);
      assert forall i :: 0 < i < |issues| ==> issues[i] == rest[i - 1];
      if exists i :: 0 <= i < |issues| && FieldOf(issues[i]) == f {
        var i :| 0 <= i < |issues| && FieldOf(issues[i]) == f;
        if i > 0 {
          assert FieldOf(rest[i - 1]) == f;
        }
      }
      forall i | IsLastIssueFor(issues, i, f)
        ensures f in Collect(acc, issues) && Collect(acc, issues)[f] == MessageOf(issues[i])
      {
        if i > 0 {
          assert IsLastIssueFor(rest, i - 1, f);
        } else {
          assert forall j :: 0 <= j < |rest| ==> FieldOf(rest[j]) != f by {
            forall j | 0 <= j < |rest| ensures FieldOf(rest[j]) != f {
              assert issues[j + 1] == rest[j];
            }
          }
        }
      }
    }
  }

  /** A field has an error exactly when some issue is about it, and the message
      shown is the last such issue's: later issues overwrite earlier ones. */
  lemma ErrorsKeepLastIssue(issues: seq<Issue>, f: Field)
    ensures f in FieldErrors(issues) <==> exists i :: 0 <= i < |issues| && FieldOf(issues[i]) == f
    ensures forall i :: IsLastIssueFor(issues, i, f) ==> f in FieldErrors(issues) && FieldErrors(issues)[f] == MessageOf(issues[i])
  {
    CollectLookup(map[], issues, f);
  }

  /** Where a successful submit goes: the success page with the Japanese name
      as its `name` parameter (the query string's encoding and decoding are the
      browser's and cancel out). */
  datatype SubmitOutcome =
    | Rejected(errors: map<Field, string>)
    | Accepted(successName: string)

  /** `handleSubmit`: the errors are cleared, then the schema decides; a
      rejected form shows one message per failing field and is not submitting,
      an accepted one is submitting and heads for the success page. */
  function Submit(form: Form, urlOk: bool): (r: SubmitOutcome)
    ensures r.Accepted? <==> SchemaAccepts(form, urlOk)
    ensures r.Accepted? ==> r.successName == form.nameJa && r.successName != ""
    ensures r.Rejected? ==> r.errors == FieldErrors(SchemaIssues(form, urlOk)) && |r.errors| > 0
  {
    var issues := SchemaIssues(form, urlOk);
    if issues == [] then Accepted(form.nameJa)
    else
      ErrorsKeepLastIssue(issues, FieldOf(issues[0]));
      Rejected(FieldErrors(issues))
  }

  /** Whether the page is waiting for the simulated request. */
  function Submitting(r: SubmitOutcome): bool {
    r.Accepted?
  }

  /** After a successful post the success page names the trick that was
      entered, never its default name. */
  lemma SuccessPageShowsPostedName(form: Form, urlOk: bool)
    requires Submit(form, urlOk).Accepted?
    ensures PostSuccess.TrickName(Some(Submit(form, urlOk).successName)) == form.nameJa
    ensures Submitting(Submit(form, urlOk))
  {
  }

  /** An empty form reports the three missing texts and nothing about the
      difficulty, which starts at 2, or the video URL, which starts empty. */
  lemma EmptyFormErrors(urlOk: bool)
    ensures var e := Submit(InitialForm, urlOk);
            e.Rejected? && e.errors.Keys == {NameJa, NameEn, CategoryField}
            && e.errors[NameJa] == MessageOf(NameJaEmpty) && e.errors[CategoryField] == MessageOf(CategoryEmpty)
  {
    var issues := SchemaIssues(InitialForm, urlOk);
    EmptyFormIssues(urlOk);
    ErrorsKeepLastIssue(issues, NameJa);
    ErrorsKeepLastIssue(issues, NameEn);
    ErrorsKeepLastIssue(issues, CategoryField);
    ErrorsKeepLastIssue(issues, Difficulty);
    ErrorsKeepLastIssue(issues, VideoUrl);
    assert IsLastIssueFor(issues, 0, NameJa);
    assert IsLastIssueFor(issues, 1, NameEn);
    assert IsLastIssueFor(issues, 2, CategoryField);
    var keys := FieldErrors(issues).Keys;
    assert NameJa in keys && NameEn in keys && CategoryField in keys;
    assert forall f :: f in keys ==> f == NameJa || f == NameEn || f == CategoryField;
  }

  lemma EmptyFormIssues(urlOk: bool)
    ensures SchemaIssues(InitialForm, urlOk) == [NameJaEmpty, NameEnEmpty, CategoryEmpty]
  {
    assert InitialForm.nameJa == "" && InitialForm.videoUrl == "";
    assert DifficultyIssues(2) == [];
  }

  /** Any category button and any difficulty button produce values the schema accepts. */
  lemma ButtonsSatisfySchema(form: Form, i: int, j: int, urlOk: bool)
    requires 0 <= i < |CategoryOptions()| && 0 <= j < |DifficultyButtons()|
    requires form.nameJa != "" && form.nameEn != "" && form.videoUrl == ""
    ensures Submit(form.(category := CategoryOptions()[i], difficulty := DifficultyButtons()[j]), urlOk).Accepted?
    ensures DifficultyLabel(DifficultyButtons()[j]) == DifficultyLabels()[DifficultyButtons()[j] - 1]
  {
  }
}
