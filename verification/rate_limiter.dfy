/** The Redis-backed pieces of src/middleware/rateLimiter.js: the store
    object handed to the library limiters (`incr`, `resetKey`) and
    `customRateLimit`. */
module RateLimiter {
  import opened Wrappers
  import opened Errors
  import opened Schema
  import Cache

  /** Redis accepts only whole seconds in `EXPIRE`: a window that is not a
      multiple of a second makes that call fail. */
  function StoreFault(windowMs: int, fault: Cache.IncrFault): (f: Cache.IncrFault)
    ensures windowMs % 1000 == 0 ==> f == fault
    ensures f == Cache.NoFault <==> fault == Cache.NoFault && windowMs % 1000 == 0
  {
    if fault == Cache.NoFault && windowMs % 1000 != 0 then Cache.ExpireFails else fault
  }

  /** `redisStore.incr(key)`: `increment(key, windowMs / 1000)`, answering
      the count as `totalHits`. */
  function StoreIncr(ks: Cache.Keyspace, key: string, windowMs: int, now: Timestamp, fault: Cache.IncrFault): (r: (Cache.Keyspace, int))
    ensures Cache.OnlyChanged(ks, r.0, key)
    ensures fault == Cache.IncrFails ==> r == (ks, 0)
    // A fresh key in whole seconds opens a window ending `windowMs` later.
    ensures fault == Cache.NoFault && windowMs > 0 && windowMs % 1000 == 0 && Cache.Lookup(ks, key, now) == None ==>
      r.1 == 1 && key in r.0.entries && r.0.entries[key] == Cache.Entry(Cache.Counter(1), Some(now + windowMs))
    // A fresh key with a fractional window is counted but never expires.
    ensures fault == Cache.NoFault && windowMs % 1000 != 0 && Cache.Lookup(ks, key, now) == None ==>
      r.1 == 0 && key in r.0.entries && r.0.entries[key] == Cache.Entry(Cache.Counter(1), None)
  {
    Cache.Increment(ks, key, windowMs / 1000, now, StoreFault(windowMs, fault))
  }

  /** `redisStore.resetKey(key)`: delete the counter, ignoring failure. */
  function ResetKey(ks: Cache.Keyspace, key: string, fails: bool): (r: Cache.Keyspace)
    ensures Cache.OnlyChanged(ks, r, key)
    ensures fails ==> r == ks
    ensures !fails ==> forall t :: Cache.Lookup(r, key, t) == None
  {
    Cache.Delete(ks, key, fails).0
  }

  /** The options `customRateLimit` reads. */
  datatype Options = Options(max: int, windowMs: int)

  /** `X-RateLimit-Limit`, `X-RateLimit-Remaining`, `X-RateLimit-Reset`. */
  datatype Headers = Headers(limit: int, remaining: int, reset: Timestamp)

  /** A 429 with `retryAfter` seconds, or `next()` with or without the
      rate-limit headers. */
  datatype Decision = Rejected(retryAfter: int) | Allowed(headers: Option<Headers>)

  /** `Math.ceil(ms / 1000)`. */
  function CeilSeconds(ms: int): (s: int)
    ensures (s - 1) * 1000 < ms <= s * 1000
  {
    -((-ms) / 1000)
  }

  /** What the middleware does once it knows the count. */
  function Decide(opts: Options, count: int, now: Timestamp): (d: Decision)
    ensures d.Rejected? <==> count > opts.max
    ensures d.Rejected? ==> d.retryAfter * 1000 >= opts.windowMs && (d.retryAfter - 1) * 1000 < opts.windowMs
    ensures d.Allowed? ==>
      d.headers.Some? && d.headers.value.limit == opts.max && d.headers.value.reset == now + opts.windowMs &&
      0 <= d.headers.value.remaining &&
      (count >= 0 ==> d.headers.value.remaining <= opts.max)
    // An admitted request is told exactly how many remain: the clamp at 0
    // is never reached.
    ensures d.Allowed? ==> d.headers.value.remaining == opts.max - count
  {
    if count > opts.max then Rejected(CeilSeconds(opts.windowMs))
    else Allowed(Some(Headers(opts.max, if opts.max - count > 0 then opts.max - count else 0, now + opts.windowMs)))
  }

  /** The key the middleware counts under: the key generator's answer, or
      the client address. */
  function Identifier(keyGen: Option<Result<string, Error>>, ip: string): Result<string, Error> {
    if keyGen.Some? then keyGen.value else Success(ip)
  }

  /** One request through `customRateLimit(opts)`. A key generator that
      throws lets the request through without headers; a counter the cache
      cannot bump reads as 0, so an outage lets requests through. */
  function CustomRateLimit(ks: Cache.Keyspace, opts: Options, keyGen: Option<Result<string, Error>>, ip: string,
                           now: Timestamp, fault: Cache.IncrFault): (r: (Cache.Keyspace, Decision))
    ensures Identifier(keyGen, ip).Failure? ==> r == (ks, Allowed(None))
    ensures Identifier(keyGen, ip).Success? ==>
      var key := Cache.RateLimitKey(Identifier(keyGen, ip).value, "custom");
      && Cache.OnlyChanged(ks, r.0, key)
      && (r.1.Allowed? ==> r.1.headers.Some?)
      && r.0 == StoreIncr(ks, key, opts.windowMs, now, fault).0
      && r.1 == Decide(opts, StoreIncr(ks, key, opts.windowMs, now, fault).1, now)
    ensures Identifier(keyGen, ip).Success? && fault == Cache.IncrFails && opts.max >= 0 ==>
      r == (ks, Allowed(Some(Headers(opts.max, opts.max, now + opts.windowMs))))
  {
    match Identifier(keyGen, ip)
    case Failure(_) => (ks, Allowed(None))
    case Success(id) =>
      var counted := StoreIncr(ks, Cache.RateLimitKey(id, "custom"), opts.windowMs, now, fault);
      (counted.0, Decide(opts, counted.1, now))
  }

  /** Requests from one client at each instant of `times`, no faults. */
  function LimitRun(ks: Cache.Keyspace, opts: Options, id: string, times: seq<Timestamp>): (r: (Cache.Keyspace, seq<Decision>))
    ensures |r.1| == |times|
  {
    if times == [] then (ks, [])
    else
      var prior := LimitRun(ks, opts, id, times[..|times| - 1]);
      var step := CustomRateLimit(prior.0, opts, Some(Success(id)), "", times[|times| - 1], Cache.NoFault);
      (step.0, prior.1 + [step.1])
  }

  /** A run of requests is a run of increments on the client's key, each
      answered by `Decide`. */
  lemma {:induction false} LimitRunCounts(ks: Cache.Keyspace, opts: Options, id: string, times: seq<Timestamp>)
    requires opts.windowMs % 1000 == 0
    ensures var counts := Cache.IncrementRun(ks, Cache.RateLimitKey(id, "custom"), opts.windowMs / 1000, times);
      && LimitRun(ks, opts, id, times).0 == counts.0
      && forall i :: 0 <= i < |times| ==> LimitRun(ks, opts, id, times).1[i] == Decide(opts, counts.1[i], times[i])
  {
    if times != [] {
      var n := |times| - 1;
      LimitRunCounts(ks, opts, id, times[..n]);
      assert forall i :: 0 <= i < n ==> times[..n][i] == times[i];
    }
  }

  /** Fixed window: from a fresh key, with a window of whole seconds, the
      n-th request inside the window is rejected exactly when n exceeds
      `max`, and an admitted one is told `max - n` requests remain and
      when its own window would reset. */
  lemma WindowAdmitsMax(ks: Cache.Keyspace, opts: Options, id: string, times: seq<Timestamp>)
    requires times != [] && opts.windowMs > 0 && opts.windowMs % 1000 == 0
    requires Cache.Lookup(ks, Cache.RateLimitKey(id, "custom"), times[0]) == None
    requires forall i :: 0 <= i < |times| ==> times[0] <= times[i] <= times[0] + opts.windowMs
    ensures forall i :: 0 <= i < |times| ==>
      (LimitRun(ks, opts, id, times).1[i].Rejected? <==> i + 1 > opts.max)
    ensures forall i :: 0 <= i < |times| && i + 1 <= opts.max ==>
      LimitRun(ks, opts, id, times).1[i] == Allowed(Some(Headers(opts.max, opts.max - (i + 1), times[i] + opts.windowMs)))
  {
    var key := Cache.RateLimitKey(id, "custom");
    LimitRunCounts(ks, opts, id, times);
    Cache.FixedWindow(ks, key, opts.windowMs / 1000, times);
  }

  /** A counter opened at `now` still counts a request at its deadline
      `now + windowMs`, as Redis keeps a key until the clock is past its
      expiry; one millisecond later the key is gone and counting restarts. */
  lemma WindowClosesAfterDeadline(ks: Cache.Keyspace, key: string, windowMs: int, now: Timestamp)
    requires windowMs > 0 && windowMs % 1000 == 0 && Cache.Lookup(ks, key, now) == None
    ensures var started := StoreIncr(ks, key, windowMs, now, Cache.NoFault).0;
      && StoreIncr(started, key, windowMs, now + windowMs, Cache.NoFault).1 == 2
      && StoreIncr(started, key, windowMs, now + windowMs + 1, Cache.NoFault).1 == 1
  {
  }

  /** With a window that is not a whole number of seconds the first
      request's `EXPIRE` fails: that request reads a count of 0 and the
      counter it leaves never expires, so the window never resets. */
  lemma FractionalWindowNeverResets(ks: Cache.Keyspace, opts: Options, id: string, now: Timestamp)
    requires opts.windowMs % 1000 != 0 && opts.max >= 0
    requires Cache.Lookup(ks, Cache.RateLimitKey(id, "custom"), now) == None
    ensures var r := CustomRateLimit(ks, opts, Some(Success(id)), "", now, Cache.NoFault);
      && r.1 == Allowed(Some(Headers(opts.max, opts.max, now + opts.windowMs)))
      && forall t :: Cache.Lookup(r.0, Cache.RateLimitKey(id, "custom"), t) == Some(Cache.Counter(1))
  {
  }
}
