/**
  `POST /api/upload-url`: the checks the upload endpoint makes before it asks
  the object store for a pre-signed upload URL, and the shape of the object
  key it generates. The random UUID, the current date and the timestamp are
  parameters, as is whether signing succeeds.
*/
module UploadUrlRoute {
  import opened Wrappers
  import opened Text
  import RateLimiter
  import ClientIp
  import FileUrlRoute

  /** Résumé and portfolio formats accepted for upload. */
  const AllowedFileTypes: seq<string> := [
    "application/pdf",
    "application/msword",
    "application/vnd.openxmlformats-officedocument.wordprocessingml.document",
    "image/jpeg",
    "image/png",
    "image/webp"
  ]

  /** 10 MiB */
  const MaxFileSize: real := 10485760.0

  const Policy := RateLimiter.Config(1, 1000)

  /** The JSON body's three fields; an absent field is `None`. */
  datatype UploadRequest = UploadRequest(fileName: Option<string>, fileType: Option<string>, fileSize: Option<real>)

  /** The parts of a key that come from the clock and the random generator. */
  datatype KeyStamp = KeyStamp(date: string, uuid: string, timestamp: nat)

  datatype UploadResponse =
    | TooManyRequests(retryAfter: int)
    | MissingFields
    | TypeNotAllowed
    | TooLarge
    | ServerError
    | Issued(fileKey: string)

  function Status(r: UploadResponse): int {
    match r
    case TooManyRequests(_) => 429
    case MissingFields => 400
    case TypeNotAllowed => 400
    case TooLarge => 400
    case ServerError => 500
    case Issued(_) => 200
  }

  /** `isAllowedFileType` */
  predicate IsAllowedFileType(contentType: string) {
    contentType in AllowedFileTypes
  }

  /** JavaScript truthiness of the size field. */
  predicate HasSize(v: Option<real>) {
    v.Some? && v.value != 0.0
  }

  /** `fileName.split('.').pop().toLowerCase()`: the last dot-separated piece, lower-cased. */
  function Extension(fileName: string): (ext: string)
    ensures '.' !in ext
    ensures |ext| <= |fileName|
  {
    var pieces := Split(fileName, '.');
    var last := pieces[|pieces| - 1];
    SplitPiecesFree(fileName, '.');
    SplitPieceLength(fileName, '.');
    ToLowerAbsent(last, '.');
    ToLower(last)
  }

  /** `generateSafeFileName`: `applications/<date>/<uuid>_<timestamp>.<ext>` */
  function SafeFileName(fileName: string, stamp: KeyStamp): string {
    KeyStem(stamp) + "." + Extension(fileName)
  }

  /** Everything of the key before the extension's dot. */
  function KeyStem(stamp: KeyStamp): string {
    FileUrlRoute.KeyPrefix + stamp.date + "/" + stamp.uuid + "_" + NatToString(stamp.timestamp)
  }

  /** A dot with no dot on either side cannot start a "..". */
  lemma SingleDotJoin(a: string, b: string)
    requires '.' !in a && '.' !in b
    ensures NoDoubleDot(a + "." + b)
  {
    var s := a + "." + b;
    forall i | 0 <= i < |s| - 1
      ensures !(s[i] == '.' && s[i + 1] == '.')
    {
      if i < |a| {
        assert s[i] == a[i];
      } else {
        assert s[i + 1] == b[i - |a|];
      }
    }
  }

  /**
    Every generated key passes the download endpoint's path checks, provided
    the date and the UUID contain no dot (an ISO date and a UUID never do).
  */
  lemma GeneratedKeyDownloadable(fileName: string, stamp: KeyStamp)
    requires '.' !in stamp.date && '.' !in stamp.uuid
    ensures FileUrlRoute.PathAllowed(SafeFileName(fileName, stamp))
    ensures SafeFileName(fileName, stamp) != ""
  {
    StemDotFree(stamp);
    var key := SafeFileName(fileName, stamp);
    SingleDotJoin(KeyStem(stamp), Extension(fileName));
    NoDoubleDotExcludes(key, "../");
    NoDoubleDotExcludes(key, "..\\");
    KeyHasPrefix(fileName, stamp);
  }

  lemma KeyHasPrefix(fileName: string, stamp: KeyStamp)
    ensures StartsWith(SafeFileName(fileName, stamp), FileUrlRoute.KeyPrefix)
  {
    var p := FileUrlRoute.KeyPrefix;
    var s0 := p + stamp.date;
    PrefixOfConcat(p, stamp.date);
    var s1 := s0 + "/";
    PrefixExtends(s0, "/", p);
    var s2 := s1 + stamp.uuid;
    PrefixExtends(s1, stamp.uuid, p);
    var s3 := s2 + "_";
    PrefixExtends(s2, "_", p);
    var s4 := s3 + NatToString(stamp.timestamp);
    PrefixExtends(s3, NatToString(stamp.timestamp), p);
    assert s4 == KeyStem(stamp);
    var s5 := s4 + ".";
    PrefixExtends(s4, ".", p);
    PrefixExtends(s5, Extension(fileName), p);
  }

  lemma StemDotFree(stamp: KeyStamp)
    requires '.' !in stamp.date && '.' !in stamp.uuid
    ensures '.' !in KeyStem(stamp)
  {
    var digits := NatToString(stamp.timestamp);
    assert '.' !in digits by {
      assert forall k :: 0 <= k < |digits| ==> IsDigit(digits[k]);
    }
    DotFreeConcat(FileUrlRoute.KeyPrefix, stamp.date);
    DotFreeConcat(FileUrlRoute.KeyPrefix + stamp.date, "/");
    DotFreeConcat(FileUrlRoute.KeyPrefix + stamp.date + "/", stamp.uuid);
    DotFreeConcat(FileUrlRoute.KeyPrefix + stamp.date + "/" + stamp.uuid, "_");
    DotFreeConcat(FileUrlRoute.KeyPrefix + stamp.date + "/" + stamp.uuid + "_", digits);
  }

  lemma DotFreeConcat(a: string, b: string)
    requires '.' !in a && '.' !in b
    ensures '.' !in a + b
  {
    assert forall k :: 0 <= k < |a + b| ==> (a + b)[k] != '.' by {
      forall k | 0 <= k < |a + b| ensures (a + b)[k] != '.' {
        if k < |a| { assert (a + b)[k] == a[k]; } else { assert (a + b)[k] == b[k - |a|]; }
      }
    }
  }

  /** The decision for a request that got past the rate limiter. */
  function Decide(body: Option<UploadRequest>, stamp: KeyStamp, signerReady: bool): (r: UploadResponse)
    ensures body.None? ==> r == ServerError
    ensures r == MissingFields <==>
      body.Some? && !(HasText(body.value.fileName) && HasText(body.value.fileType) && HasSize(body.value.fileSize))
    ensures r == TypeNotAllowed <==>
      && body.Some? && HasText(body.value.fileName) && HasText(body.value.fileType) && HasSize(body.value.fileSize)
      && !IsAllowedFileType(body.value.fileType.value)
    ensures r == TooLarge <==>
      && body.Some? && HasText(body.value.fileName) && HasText(body.value.fileType) && HasSize(body.value.fileSize)
      && IsAllowedFileType(body.value.fileType.value)
      && body.value.fileSize.value > MaxFileSize
    ensures r.Issued? <==>
      && body.Some? && HasText(body.value.fileName) && HasText(body.value.fileType) && HasSize(body.value.fileSize)
      && IsAllowedFileType(body.value.fileType.value)
      && body.value.fileSize.value <= MaxFileSize
      && signerReady
    ensures r.Issued? ==> r.fileKey == SafeFileName(body.value.fileName.value, stamp)
    ensures !r.TooManyRequests?
  {
    if body.None? then ServerError
    else
      var b := body.value;
      if !HasText(b.fileName) || !HasText(b.fileType) || !HasSize(b.fileSize) then MissingFields
      else if !IsAllowedFileType(b.fileType.value) then TypeNotAllowed
      else if b.fileSize.value > MaxFileSize then TooLarge
      else if !signerReady then ServerError
      else Issued(SafeFileName(b.fileName.value, stamp))
  }

  /**
    `POST`: the rate limiter runs before the body is looked at. The body is
    `None` when it is not JSON.
  */
  function Post(store: RateLimiter.Store, headers: ClientIp.Headers, now: int,
                body: Option<UploadRequest>, stamp: KeyStamp, signerReady: bool)
    : (r: (UploadResponse, RateLimiter.Store))
    ensures var c := RateLimiter.Check(store, ClientIp.GetClientIp(headers), Policy, now);
      && r.1 == c.store
      && (c.verdict.Rejected? ==> r.0 == TooManyRequests(c.verdict.retryAfter))
      && (c.verdict == RateLimiter.Allowed ==> r.0 == Decide(body, stamp, signerReady))
  {
    var c := RateLimiter.Check(store, ClientIp.GetClientIp(headers), Policy, now);
    if c.verdict.Rejected? then (TooManyRequests(c.verdict.retryAfter), c.store)
    else (Decide(body, stamp, signerReady), c.store)
  }

  /** A key this endpoint issues is one the download endpoint will sign. */
  lemma IssuedKeySignable(body: Option<UploadRequest>, stamp: KeyStamp)
    requires '.' !in stamp.date && '.' !in stamp.uuid
    requires Decide(body, stamp, true).Issued?
    ensures FileUrlRoute.Decide(Some(Decide(body, stamp, true).fileKey), true).SignedUrl?
  {
    GeneratedKeyDownloadable(body.value.fileName.value, stamp);
  }

  /** The size limit is inclusive; a zero size counts as missing. */
  lemma SizeBoundaries(name: string, stamp: KeyStamp)
    ensures Decide(Some(UploadRequest(Some(name + "x"), Some("application/pdf"), Some(MaxFileSize))), stamp, true).Issued?
    ensures Decide(Some(UploadRequest(Some(name + "x"), Some("application/pdf"), Some(MaxFileSize + 1.0))), stamp, true) == TooLarge
    ensures Decide(Some(UploadRequest(Some(name + "x"), Some("application/pdf"), Some(0.0))), stamp, true) == MissingFields
  {
  }

  /** A disallowed type is reported even when the size is also too large. */
  lemma TypeCheckedBeforeSize(name: string, size: real, stamp: KeyStamp)
    requires name != "" && size > MaxFileSize
    ensures Decide(Some(UploadRequest(Some(name), Some("text/html"), Some(size))), stamp, true) == TypeNotAllowed
  {
  }
}
