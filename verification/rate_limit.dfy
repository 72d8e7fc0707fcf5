/** The fixed-window request counter used by `src/middleware.ts` (lines 12-28)
    and by `createRateLimiter` in `src/lib/security.ts` (lines 60-79): per key a
    count and the instant its window closes. The clock is a parameter. */
module RateLimit {
  import opened Common

  /** `{ count, resetTime }`. */
  datatype Window = Window(count: nat, resetTime: int)

  type Store = map<string, Window>

  /** The window of `key` has closed (or was never opened) at time `now`; the
      comparison is strict, so at `now == resetTime` the window is still open. */
  predicate Expired(store: Store, key: string, now: int)
  {
    key !in store || now > store[key].resetTime
  }

  /** One request under `key` at time `now`: the new store and whether the
      request is rejected. A rejected request does not count. */
  function Hit(store: Store, key: string, now: int, limit: int, windowMs: int): (r: (Store, bool))
    ensures r.1 <==> !Expired(store, key, now) && store[key].count >= limit
    ensures r.1 ==> r.0 == store
    ensures !r.1 ==> key in r.0 && r.0 == store[key := r.0[key]]
    ensures !r.1 && Expired(store, key, now) ==> r.0[key] == Window(1, now + windowMs)
    ensures !r.1 && !Expired(store, key, now) ==>
              r.0[key].count == store[key].count + 1 && r.0[key].resetTime == store[key].resetTime
  {
    if Expired(store, key, now) then (store[key := Window(1, now + windowMs)], false)
    else if store[key].count >= limit then (store, true)
    else (store[key := store[key].(count := store[key].count + 1)], false)
  }

  /** Requests under one key at the given instants: the store after all of them and
      how many were let through. */
  function HitAll(store: Store, key: string, times: seq<int>, limit: int, windowMs: int): (Store, nat)
    decreases |times|
  {
    if times == [] then (store, 0)
    else
      var r := Hit(store, key, times[0], limit, windowMs);
      var rest := HitAll(r.0, key, times[1..], limit, windowMs);
      (rest.0, rest.1 + if r.1 then 0 else 1)
  }

  function Min(a: int, b: int): int { if a <= b then a else b }

  function Max(a: int, b: int): int { if a <= b then b else a }

  /** Inside an open window at count `c`, the next requests are let through until the
      count reaches the limit and rejected afterwards. */
  lemma {:induction false} HitAllOpenWindow(store: Store, key: string, times: seq<int>, limit: int, windowMs: int)
    requires key in store
    requires forall k :: 0 <= k < |times| ==> times[k] <= store[key].resetTime
    ensures var r := HitAll(store, key, times, limit, windowMs);
            && r.1 == Min(|times|, Max(limit - store[key].count, 0))
            && key in r.0 && r.0[key].resetTime == store[key].resetTime
            && r.0[key].count == store[key].count + r.1
    decreases |times|
  {
    if times != [] {
      var r := Hit(store, key, times[0], limit, windowMs);
      assert r.0[key].resetTime == store[key].resetTime;
      HitAllOpenWindow(r.0, key, times[1..], limit, windowMs);
    }
  }

  /** Within one window of `windowMs` starting at the first request, exactly the first
      `max(limit, 1)` requests pass: the window opener always passes, even with a limit of 0. */
  lemma WindowAdmitsAtMostLimit(store: Store, key: string, times: seq<int>, limit: int, windowMs: int)
    requires times != [] && Expired(store, key, times[0])
    requires forall k :: 0 <= k < |times| ==> times[k] <= times[0] + windowMs
    ensures HitAll(store, key, times, limit, windowMs).1 == Min(|times|, Max(limit, 1))
  {
    var r := Hit(store, key, times[0], limit, windowMs);
    forall k | 0 <= k < |times[1..]|
      ensures times[1..][k] <= r.0[key].resetTime
    {
      assert times[1..][k] == times[k + 1];
    }
    HitAllOpenWindow(r.0, key, times[1..], limit, windowMs);
  }

  /** The window boundary is exclusive: a key at its limit is still rejected at
      `resetTime` and starts afresh one millisecond later. */
  lemma StrictReset(store: Store, key: string, limit: int, windowMs: int)
    requires key in store && store[key].count >= limit
    ensures Hit(store, key, store[key].resetTime, limit, windowMs).1
    ensures var r := Hit(store, key, store[key].resetTime + 1, limit, windowMs);
            !r.1 && r.0[key] == Window(1, store[key].resetTime + 1 + windowMs)
  {
  }

  /** `createRateLimiter(maxAttempts, windowMs)`: a closure over its own private store. */
  datatype Limiter = Limiter(maxAttempts: int, windowMs: int, attempts: Store)

  function NewLimiter(maxAttempts: int, windowMs: int): (l: Limiter)
    ensures l.attempts == map[]
  {
    Limiter(maxAttempts, windowMs, map[])
  }

  /** One call of the returned `isRateLimited(key)`. */
  function IsRateLimited(l: Limiter, key: string, now: int): (r: (Limiter, bool))
    ensures r.0.maxAttempts == l.maxAttempts && r.0.windowMs == l.windowMs
    ensures r.1 <==> !Expired(l.attempts, key, now) && l.attempts[key].count >= l.maxAttempts
    ensures r.1 ==> r.0 == l
  {
    var h := Hit(l.attempts, key, now, l.maxAttempts, l.windowMs);
    (l.(attempts := h.0), h.1)
  }

  /** A fresh limiter lets the first call for any key through and opens its window. */
  lemma FreshLimiterAdmits(maxAttempts: int, windowMs: int, key: string, now: int)
    ensures var r := IsRateLimited(NewLimiter(maxAttempts, windowMs), key, now);
            !r.1 && r.0.attempts == map[key := Window(1, now + windowMs)]
  {
  }
}
