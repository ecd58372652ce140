/**
  The client-side upload hook: the state it exposes to the form, the file
  checks made on selection, the one-request-per-second throttle, and the
  progress steps of an upload. The clock reading and the outcome of the two
  network requests (asking for a signed URL, then storing the file) are
  parameters; each operation returns the hook value it leaves behind.
*/
module FileUploadHook {
  import opened Wrappers
  import UploadUrlRoute

  datatype File = File(name: string, fileType: string, size: int)

  datatype UploadError =
    | TypeNotAllowed(fileType: string)
    | TooLarge(maxSize: int)
    | Throttled(waitSeconds: int)
    | Failed(message: string)

  /** What the hook exposes to the form. */
  datatype State = State(
    file: Option<File>,
    uploading: bool,
    progress: int,
    fileKey: Option<string>,
    error: Option<UploadError>)

  const Initial := State(None, false, 0, None, None)

  /** The state together with the time of the last upload that got past the throttle. */
  datatype Hook = Hook(state: State, lastRequestTime: int)

  const Start := Hook(Initial, 0)

  datatype Options = Options(allowedTypes: seq<string>, maxSize: int)

  const DefaultOptions := Options([
    "application/pdf",
    "application/msword",
    "application/vnd.openxmlformats-officedocument.wordprocessingml.document",
    "image/jpeg",
    "image/png",
    "image/webp"
  ], 10 * 1024 * 1024)

  /** Minimum spacing between two uploads, in milliseconds. */
  const ThrottleMs := 1000

  const PresignFailedMessage := "Pre-signed URL 생성 실패"
  const StoreFailedMessage := "파일 업로드 실패 (상세는 콘솔 응답 바디 참고)"
  const GenericFailureMessage := "파일 업로드 중 오류가 발생했습니다."

  /** How the two requests of an upload turned out. */
  datatype Network =
    | PresignRefused(errorField: Option<string>)  // non-2xx answer or a body that is not JSON
    | PresignThrew(message: string)               // the request itself failed
    | StoreRefused                                // the object store answered non-2xx
    | StoreThrew(message: string)
    | Stored(fileKey: string)                     // both requests succeeded

  /** The callbacks the hook fires. */
  datatype Notice = UploadComplete(fileKey: string) | UploadErrorNotice(error: UploadError)

  /** `selectFile` */
  function SelectFile(h: Hook, opts: Options, file: Option<File>): (r: (Hook, Option<Notice>))
    ensures r.0.lastRequestTime == h.lastRequestTime
    ensures file.None? ==> r.0.state == Initial && r.1.None?
    ensures file.Some? && file.value.fileType !in opts.allowedTypes ==>
      && r.0.state == h.state.(file := None, error := Some(TypeNotAllowed(file.value.fileType)))
      && r.1 == Some(UploadErrorNotice(TypeNotAllowed(file.value.fileType)))
    ensures file.Some? && file.value.fileType in opts.allowedTypes && file.value.size > opts.maxSize ==>
      && r.0.state == h.state.(file := None, error := Some(TooLarge(opts.maxSize)))
      && r.1 == Some(UploadErrorNotice(TooLarge(opts.maxSize)))
    ensures r.0.state.file.Some? <==>
      file.Some? && file.value.fileType in opts.allowedTypes && file.value.size <= opts.maxSize
    ensures r.0.state.file.Some? ==>
      && r.0.state == h.state.(file := file, error := None, fileKey := None)
      && r.1.None?
  {
    match file
    case None => (Hook(Initial, h.lastRequestTime), None)
    case Some(f) =>
      if f.fileType !in opts.allowedTypes then
        var e := TypeNotAllowed(f.fileType);
        (h.(state := h.state.(error := Some(e), file := None)), Some(UploadErrorNotice(e)))
      else if f.size > opts.maxSize then
        var e := TooLarge(opts.maxSize);
        (h.(state := h.state.(error := Some(e), file := None)), Some(UploadErrorNotice(e)))
      else
        (h.(state := h.state.(file := file, error := None, fileKey := None)), None)
  }

  /** `reset`: back to the initial state; the throttle clock is kept. */
  function Reset(h: Hook): (r: Hook)
    ensures r.state == Initial && r.lastRequestTime == h.lastRequestTime
  {
    h.(state := Initial)
  }

  /** `Math.ceil((1000 - elapsed) / 1000)` for an elapsed time under one second. */
  function WaitSeconds(elapsed: int): (w: int)
    requires elapsed < ThrottleMs
    ensures w >= 1
    ensures (w - 1) * 1000 < ThrottleMs - elapsed <= w * 1000
  {
    (ThrottleMs - elapsed + 999) / 1000
  }

  /** The message the hook shows when an upload fails. */
  function FailureMessage(net: Network): (m: string)
    requires !net.Stored?
    ensures m != ""
  {
    match net
    case PresignRefused(field) =>
      if HasText(field) then field.value else PresignFailedMessage
    case PresignThrew(msg) => if msg != "" then msg else GenericFailureMessage
    case StoreRefused => StoreFailedMessage
    case StoreThrew(msg) => if msg != "" then msg else GenericFailureMessage
  }

  /** The states an upload passes through, the hook it ends in, and the callback it fires. */
  datatype Upload = Upload(trace: seq<State>, hook: Hook, notice: Option<Notice>)

  /** The upload proper, once the throttle has let it through. */
  function Transfer(st: State, net: Network): (r: seq<State>)
    ensures |r| >= 3
    ensures r[0] == st.(uploading := true, progress := 0, error := None)
    ensures r[1] == r[0].(progress := 10)
    ensures net.Stored? ==>
      && |r| == 4 && r[2] == r[1].(progress := 30)
      && r[3] == r[2].(progress := 100, uploading := false, fileKey := Some(net.fileKey))
    ensures !net.Stored? ==>
      r[|r| - 1] == r[|r| - 2].(uploading := false, progress := 0, error := Some(Failed(FailureMessage(net))))
    ensures (net.PresignRefused? || net.PresignThrew?) <==> |r| == 3
  {
    var s1 := st.(uploading := true, progress := 0, error := None);
    var s2 := s1.(progress := 10);
    match net
    case PresignRefused(_) => [s1, s2, s2.(uploading := false, progress := 0, error := Some(Failed(FailureMessage(net))))]
    case PresignThrew(_) => [s1, s2, s2.(uploading := false, progress := 0, error := Some(Failed(FailureMessage(net))))]
    case StoreRefused =>
      var s3 := s2.(progress := 30);
      [s1, s2, s3, s3.(uploading := false, progress := 0, error := Some(Failed(FailureMessage(net))))]
    case StoreThrew(_) =>
      var s3 := s2.(progress := 30);
      [s1, s2, s3, s3.(uploading := false, progress := 0, error := Some(Failed(FailureMessage(net))))]
    case Stored(key) =>
      var s3 := s2.(progress := 30);
      [s1, s2, s3, s3.(progress := 100, uploading := false, fileKey := Some(key))]
  }

  /** `uploadFile`: `file` is the optional argument, else the selected file is sent. */
  function UploadFile(h: Hook, file: Option<File>, now: int, net: Network): (r: Upload)
    // nothing to send: nothing changes
    ensures file.None? && h.state.file.None? ==> r == Upload([], h, None)
    // throttled: only the error changes, and the throttle clock is not moved
    ensures (file.Some? || h.state.file.Some?) && now - h.lastRequestTime < ThrottleMs ==>
      && r.hook.lastRequestTime == h.lastRequestTime
      && r.hook.state == h.state.(error := Some(Throttled(WaitSeconds(now - h.lastRequestTime))))
      && r.trace == [r.hook.state]
      && r.notice == Some(UploadErrorNotice(Throttled(WaitSeconds(now - h.lastRequestTime))))
    // let through: the throttle clock moves to now, the upload runs, and its outcome is reported
    ensures (file.Some? || h.state.file.Some?) && now - h.lastRequestTime >= ThrottleMs ==>
      && r.hook.lastRequestTime == now
      && r.trace == Transfer(h.state, net)
      && r.hook.state == r.trace[|r.trace| - 1]
      && r.notice == Some(if net.Stored? then UploadComplete(net.fileKey)
                          else UploadErrorNotice(Failed(FailureMessage(net))))
    ensures r.hook.state.file == h.state.file
  {
    if file.None? && h.state.file.None? then Upload([], h, None)
    else if now - h.lastRequestTime < ThrottleMs then
      var e := Throttled(WaitSeconds(now - h.lastRequestTime));
      var st := h.state.(error := Some(e));
      Upload([st], h.(state := st), Some(UploadErrorNotice(e)))
    else
      var trace := Transfer(h.state, net);
      var last := trace[|trace| - 1];
      var notice := if net.Stored? then UploadComplete(net.fileKey) else UploadErrorNotice(last.error.value);
      Upload(trace, Hook(last, now), Some(notice))
  }

  // ---------------------------------------------------------------------------
  // Properties

  /** `selectFile(null)` and `reset()` leave the same state. */
  lemma DeselectIsReset(h: Hook, opts: Options)
    ensures SelectFile(h, opts, None).0 == Reset(h)
  {
  }

  /** Between operations the hook is idle and its progress is 0 or 100. */
  predicate AtRest(st: State) {
    !st.uploading && (st.progress == 0 || st.progress == 100)
  }

  lemma OperationsKeepRest(h: Hook, opts: Options, file: Option<File>, now: int, net: Network)
    requires AtRest(h.state)
    ensures AtRest(SelectFile(h, opts, file).0.state)
    ensures AtRest(Reset(h).state)
    ensures AtRest(UploadFile(h, file, now, net).hook.state)
  {
  }

  /**
    A successful upload reports 0, 10, 30 and 100 percent in that order and
    ends idle with the returned key; the fired callback carries the same key.
  */
  lemma SuccessfulUpload(h: Hook, file: Option<File>, now: int, key: string)
    requires file.Some? || h.state.file.Some?
    requires now - h.lastRequestTime >= ThrottleMs
    ensures var r := UploadFile(h, file, now, Stored(key));
      && |r.trace| == 4
      && r.trace[0].progress == 0 && r.trace[1].progress == 10
      && r.trace[2].progress == 30 && r.trace[3].progress == 100
      && (forall i :: 0 <= i < 3 ==> r.trace[i].uploading)
      && !r.hook.state.uploading && r.hook.state.fileKey == Some(key) && r.hook.state.error.None?
      && r.notice == Some(UploadComplete(key))
  {
  }

  /**
    A failed upload ends idle at 0 percent with an error, and keeps the key of
    any earlier upload.
  */
  lemma FailedUpload(h: Hook, file: Option<File>, now: int, net: Network)
    requires file.Some? || h.state.file.Some?
    requires now - h.lastRequestTime >= ThrottleMs
    requires !net.Stored?
    ensures var r := UploadFile(h, file, now, net);
      && !r.hook.state.uploading && r.hook.state.progress == 0
      && r.hook.state.error == Some(Failed(FailureMessage(net)))
      && r.hook.state.fileKey == h.state.fileKey
      && r.notice == Some(UploadErrorNotice(Failed(FailureMessage(net))))
  {
    var trace := Transfer(h.state, net);
    assert trace[|trace| - 1].fileKey == h.state.fileKey;
  }

  /**
    Two uploads let through by the throttle are at least a second apart: right
    after one starts, any other attempt within the second is refused.
  */
  lemma ThrottleSpacing(h: Hook, f1: Option<File>, t1: int, net1: Network, f2: Option<File>, t2: int, net2: Network)
    requires f1.Some? || h.state.file.Some?
    requires t1 - h.lastRequestTime >= ThrottleMs
    requires f2.Some?
    requires t1 <= t2 < t1 + ThrottleMs
    ensures var after := UploadFile(h, f1, t1, net1).hook;
      UploadFile(after, f2, t2, net2).hook.state.error.value.Throttled?
  {
  }

  /**
    A file the hook accepts with its default options passes the upload
    endpoint's type and size checks, unless its name is empty or its size is
    zero, which the endpoint reports as missing.
  */
  lemma DefaultsMatchEndpoint(h: Hook, f: File, stamp: UploadUrlRoute.KeyStamp)
    requires SelectFile(h, DefaultOptions, Some(f)).0.state.file.Some?
    ensures var req := UploadUrlRoute.UploadRequest(Some(f.name), Some(f.fileType), Some(f.size as real));
      && (f.name != "" && f.size != 0 ==> UploadUrlRoute.Decide(Some(req), stamp, true).Issued?)
      && (f.size == 0 ==> UploadUrlRoute.Decide(Some(req), stamp, true) == UploadUrlRoute.MissingFields)
  {
    assert DefaultOptions.allowedTypes == UploadUrlRoute.AllowedFileTypes;
  }
}
