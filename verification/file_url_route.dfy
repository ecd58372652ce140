/**
  `GET /api/file-url?key=…`: the checks the download endpoint makes before it
  asks the object store for a pre-signed download URL. Signing itself is an
  outside service; whether it succeeds is the parameter `signerReady`.
*/
module FileUrlRoute {
  import opened Wrappers
  import opened Text
  import RateLimiter
  import ClientIp

  const KeyPrefix := "applications/"

  /** Rate-limit policy of the endpoint: one request per second per client. */
  const Policy := RateLimiter.Config(1, 1000)

  datatype FileUrlResponse =
    | TooManyRequests(retryAfter: int)
    | MissingKey
    | InvalidPath
    | ServerError
    | SignedUrl(key: string)

  function Status(r: FileUrlResponse): int {
    match r
    case TooManyRequests(_) => 429
    case MissingKey => 400
    case InvalidPath => 400
    case ServerError => 500
    case SignedUrl(_) => 200
  }

  /** The path checks: under the applications folder, no parent-directory step. */
  predicate PathAllowed(key: string) {
    StartsWith(key, KeyPrefix) && !Contains(key, "../") && !Contains(key, "..\\")
  }

  /** The decision for a request that got past the rate limiter. */
  function Decide(key: Option<string>, signerReady: bool): (r: FileUrlResponse)
    ensures r == MissingKey <==> key == None || key == Some("")
    ensures r == InvalidPath <==> HasText(key) && !PathAllowed(key.value)
    ensures r.SignedUrl? <==> HasText(key) && PathAllowed(key.value) && signerReady
    ensures r.SignedUrl? ==> r.key == key.value
    ensures !r.TooManyRequests?
  {
    if !HasText(key) then MissingKey
    else if !StartsWith(key.value, KeyPrefix) then InvalidPath
    else if Contains(key.value, "../") || Contains(key.value, "..\\") then InvalidPath
    else if !signerReady then ServerError
    else SignedUrl(key.value)
  }

  /** `GET`: rate limit first, then the key checks. */
  function Get(store: RateLimiter.Store, headers: ClientIp.Headers, now: int,
               key: Option<string>, signerReady: bool): (r: (FileUrlResponse, RateLimiter.Store))
    ensures var c := RateLimiter.Check(store, ClientIp.GetClientIp(headers), Policy, now);
      && r.1 == c.store
      && (c.verdict.Rejected? ==> r.0 == TooManyRequests(c.verdict.retryAfter))
      && (c.verdict == RateLimiter.Allowed ==> r.0 == Decide(key, signerReady))
    ensures r.0.SignedUrl? ==> key == Some(r.0.key) && r.0.key != "" && PathAllowed(r.0.key)
  {
    var c := RateLimiter.Check(store, ClientIp.GetClientIp(headers), Policy, now);
    if c.verdict.Rejected? then (TooManyRequests(c.verdict.retryAfter), c.store)
    else (Decide(key, signerReady), c.store)
  }

  /** A throttled request is answered with 429 whatever key it names. */
  lemma ThrottledIgnoresKey(store: RateLimiter.Store, headers: ClientIp.Headers, now: int,
                            k1: Option<string>, k2: Option<string>, ready: bool)
    requires RateLimiter.Check(store, ClientIp.GetClientIp(headers), Policy, now).verdict.Rejected?
    ensures Get(store, headers, now, k1, ready) == Get(store, headers, now, k2, ready)
    ensures Status(Get(store, headers, now, k1, ready).0) == 429
  {
  }
}
