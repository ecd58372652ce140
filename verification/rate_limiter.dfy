/**
  The in-memory fixed-window rate limiter that guards the public upload and
  download endpoints. The process-wide store becomes an explicit map from
  client identifier to record, and the clock reading `now` (milliseconds) is a
  parameter of every operation.
*/
module RateLimiter {

  /** How many requests one identifier may make per window of `windowMs` ms. */
  datatype Config = Config(maxRequests: int, windowMs: int)

  /** The policy used when a caller passes none: one request per second. */
  const DefaultConfig := Config(1, 1000)

  /** Requests admitted so far in the current window, and the window's end. */
  datatype RateRecord = RateRecord(count: int, resetTime: int)

  type Store = map<string, RateRecord>

  datatype Verdict = Allowed | Rejected(retryAfter: int)

  datatype Checked = Checked(verdict: Verdict, store: Store)

  /**
    The properties every object inherits from `Object.prototype`. The store is
    a plain object literal, so for these identifiers `store[identifier]` is a
    truthy built-in rather than a record: `now > resetTime` and
    `count >= maxRequests` both compare with `undefined` and are false, the
    increment lands on the built-in, and the store's own entries never change.
  */
  const InheritedNames: set<string> := {
    "__proto__", "constructor", "hasOwnProperty", "isPrototypeOf",
    "propertyIsEnumerable", "toLocaleString", "toString", "valueOf",
    "__defineGetter__", "__defineSetter__", "__lookupGetter__", "__lookupSetter__"
  }

  /** `Math.ceil(ms / 1000)`: whole seconds covering `ms` milliseconds. */
  function CeilSeconds(ms: int): (s: int)
    ensures (s - 1) * 1000 < ms <= s * 1000
  {
    -((-ms) / 1000)
  }

  /**
    A window has elapsed only once `now` is strictly past its end: at
    `now == resetTime` the old window still counts.
  */
  predicate Expired(rec: RateRecord, now: int) {
    now > rec.resetTime
  }

  /** `checkRateLimit` */
  function Check(store: Store, id: string, cfg: Config, now: int): (r: Checked)
    // an inherited name: always admitted, and no record is kept
    ensures id in InheritedNames ==> r == Checked(Allowed, store)
    // no record, or an elapsed window: admitted, and a fresh window starts now
    ensures id !in InheritedNames && (id !in store || Expired(store[id], now)) ==>
      r.verdict == Allowed && id in r.store && r.store[id] == RateRecord(1, now + cfg.windowMs)
    // a full window that is still open: rejected, the store is left alone
    ensures id !in InheritedNames && id in store && !Expired(store[id], now) && store[id].count >= cfg.maxRequests ==>
      && r.verdict.Rejected?
      && (r.verdict.retryAfter - 1) * 1000 < store[id].resetTime - now <= r.verdict.retryAfter * 1000
      && r.store == store
    // room left in an open window: admitted, the count goes up by one
    ensures id !in InheritedNames && id in store && !Expired(store[id], now) && store[id].count < cfg.maxRequests ==>
      && r.verdict == Allowed && id in r.store
      && r.store[id] == RateRecord(store[id].count + 1, store[id].resetTime)
    // the records of every other identifier are untouched
    ensures id !in InheritedNames ==> r.store.Keys == store.Keys + {id}
    ensures forall other :: other in store && other != id ==> r.store[other] == store[other]
  {
    if id in InheritedNames then Checked(Allowed, store)
    else if id !in store || Expired(store[id], now) then
      Checked(Allowed, store[id := RateRecord(1, now + cfg.windowMs)])
    else if store[id].count >= cfg.maxRequests then
      Checked(Rejected(CeilSeconds(store[id].resetTime - now)), store)
    else
      Checked(Allowed, store[id := store[id].(count := store[id].count + 1)])
  }

  /** `resetRateLimit`: forget one identifier. */
  function Reset(store: Store, id: string): (r: Store)
    ensures r.Keys == store.Keys - {id}
    ensures forall other :: other in r ==> r[other] == store[other]
  {
    store - {id}
  }

  /** `cleanupExpiredRecords`: drop every record whose window ended before `now`. */
  function Cleanup(store: Store, now: int): (r: Store)
    ensures forall k :: k in r <==> k in store && !(store[k].resetTime < now)
    ensures forall k :: k in r ==> r[k] == store[k]
  {
    map k | k in store && !(store[k].resetTime < now) :: store[k]
  }

  // ---------------------------------------------------------------------------
  // Invariant

  /** Every stored record has admitted between one and `maxRequests` requests. */
  ghost predicate Valid(store: Store, cfg: Config) {
    forall k :: k in store ==> 1 <= store[k].count <= cfg.maxRequests
  }

  lemma CheckPreservesValid(store: Store, id: string, cfg: Config, now: int)
    requires cfg.maxRequests >= 1
    requires Valid(store, cfg)
    ensures Valid(Check(store, id, cfg, now).store, cfg)
  {
  }

  lemma ResetAndCleanupPreserveValid(store: Store, id: string, cfg: Config, now: int)
    requires Valid(store, cfg)
    ensures Valid(Reset(store, id), cfg)
    ensures Valid(Cleanup(store, now), cfg)
  {
  }

  // ---------------------------------------------------------------------------
  // Sequences of requests from one identifier

  datatype Run = Run(admitted: nat, store: Store)

  /** Feed the requests made at `times`, in order, for one identifier. */
  function Replay(store: Store, id: string, cfg: Config, times: seq<int>): Run
    decreases |times|
  {
    if |times| == 0 then Run(0, store)
    else
      var c := Check(store, id, cfg, times[0]);
      var rest := Replay(c.store, id, cfg, times[1..]);
      Run(rest.admitted + (if c.verdict == Allowed then 1 else 0), rest.store)
  }

  function Min(a: int, b: int): int {
    if a <= b then a else b
  }

  /**
    Inside one open window an identifier with `count` admissions gets exactly
    the remaining `maxRequests - count` requests admitted and no more; the
    window's end never moves.
  */
  lemma {:induction false} OpenWindowAdmits(store: Store, id: string, cfg: Config, times: seq<int>)
    requires id !in InheritedNames
    requires id in store && 1 <= store[id].count <= cfg.maxRequests
    requires forall k :: 0 <= k < |times| ==> times[k] <= store[id].resetTime
    ensures var run := Replay(store, id, cfg, times);
      && run.admitted == Min(|times|, cfg.maxRequests - store[id].count)
      && id in run.store
      && run.store[id] == RateRecord(store[id].count + run.admitted, store[id].resetTime)
    decreases |times|
  {
    if |times| > 0 {
      var c := Check(store, id, cfg, times[0]);
      OpenWindowAdmits(c.store, id, cfg, times[1..]);
    }
  }

  /**
    Starting with no live window, a burst of requests that all fall inside the
    window opened by the first one gets exactly `min(n, maxRequests)` of them
    admitted: the limit is reached and never exceeded.
  */
  lemma WindowAdmitsExactly(store: Store, id: string, cfg: Config, times: seq<int>)
    requires id !in InheritedNames
    requires cfg.maxRequests >= 1
    requires |times| >= 1
    requires id !in store || Expired(store[id], times[0])
    requires forall k :: 0 <= k < |times| ==> times[k] <= times[0] + cfg.windowMs
    ensures Replay(store, id, cfg, times).admitted == Min(|times|, cfg.maxRequests)
  {
    var c := Check(store, id, cfg, times[0]);
    OpenWindowAdmits(c.store, id, cfg, times[1..]);
  }

  /**
    An identifier that names an inherited property is never limited: every one
    of its requests is admitted and the store does not change.
  */
  lemma {:induction false} InheritedNameNeverLimited(store: Store, id: string, cfg: Config, times: seq<int>)
    requires id in InheritedNames
    ensures Replay(store, id, cfg, times) == Run(|times|, store)
    decreases |times|
  {
    if |times| > 0 {
      InheritedNameNeverLimited(store, id, cfg, times[1..]);
    }
  }

  /** With the default policy a client naming itself `__proto__` gets every request through. */
  lemma ProtoBypassesLimit(store: Store, now: int)
    ensures Check(store, "__proto__", DefaultConfig, now) == Checked(Allowed, store)
    ensures Replay(store, "__proto__", DefaultConfig, [now, now, now]).admitted == 3
  {
    InheritedNameNeverLimited(store, "__proto__", DefaultConfig, [now, now, now]);
  }

  /** Two rejections less than a second apart report retry delays at most one apart. */
  lemma RetryAfterSteady(store: Store, id: string, cfg: Config, t1: int, t2: int)
    requires t1 <= t2 < t1 + 1000
    requires Check(store, id, cfg, t1).verdict.Rejected?
    requires Check(store, id, cfg, t2).verdict.Rejected?
    ensures var r1 := Check(store, id, cfg, t1).verdict.retryAfter;
      var r2 := Check(store, id, cfg, t2).verdict.retryAfter;
      r1 - 1 <= r2 <= r1
  {
  }

  /** After a reset the identifier's next request is admitted whatever the policy. */
  lemma ResetReadmits(store: Store, id: string, cfg: Config, now: int)
    ensures Check(Reset(store, id), id, cfg, now).verdict == Allowed
  {
  }

  /**
    The sweep is invisible to later requests: checking after a sweep at an
    earlier time gives the same verdict as checking without it, and sweeping
    and checking commute.
  */
  lemma CleanupInvisible(store: Store, id: string, cfg: Config, swept: int, now: int)
    requires swept <= now
    requires cfg.windowMs >= 0
    ensures Check(Cleanup(store, swept), id, cfg, now).verdict == Check(store, id, cfg, now).verdict
    ensures Check(Cleanup(store, swept), id, cfg, now).store
         == Cleanup(Check(store, id, cfg, now).store, swept)
  {
    var lhs := Check(Cleanup(store, swept), id, cfg, now).store;
    var rhs := Cleanup(Check(store, id, cfg, now).store, swept);
    assert lhs.Keys == rhs.Keys;
  }

  /**
    One request per second from a single address: admitted at 0 ms, rejected
    at 200 ms with one second to wait, rejected with a zero wait at exactly
    1000 ms (the window end is inclusive), admitted again at 1050 ms.
  */
  lemma OnePerSecondScenario()
    ensures var c0 := Check(map[], "1.2.3.4", DefaultConfig, 0);
      var c1 := Check(c0.store, "1.2.3.4", DefaultConfig, 200);
      var c2 := Check(c1.store, "1.2.3.4", DefaultConfig, 1000);
      var c3 := Check(c2.store, "1.2.3.4", DefaultConfig, 1050);
      && c0.verdict == Allowed
      && c1.verdict == Rejected(1)
      && c2.verdict == Rejected(0)
      && c3.verdict == Allowed
  {
  }
}
