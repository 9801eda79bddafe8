/**
 * The two rate limiting algorithms as transitions on the cached state,
 * and whole histories of requests against one cache key.
 */
module RateLimit {
  import opened Wrappers

  datatype RawQuota = Quota(max: nat, duration: nat)

  /** `max_requests` and `duration_in_seconds`; neither limiter means anything when one of them is zero. */
  type Quota = q: RawQuota | q.max >= 1 && q.duration >= 1 witness Quota(1, 1)

  datatype Algorithm = SimpleRate | LeakyBucket

  /**
   * The contents of a cached rate limit: `history[0]` and `time`.
   * SimpleRate keeps the number of requests and the end of the window, LeakyBucket
   * keeps the scaled level and the moment it was measured.
   */
  datatype Snapshot = Snapshot(amount: int, time: int)

  /** What a denied caller is told: the numbers behind X-RateLimit-Remaining and Retry-After. */
  datatype TooManyRequests = TooManyRequests(remaining: int, reset: int)

  function Max(a: int, b: int): int { if a < b then b else a }

  /**
   * The product k * m, as m additions. Levels and debts are written with it so that the verifier only
   * multiplies out where a proof asks for it, with TimesIsProduct.
   */
  function Times(k: int, m: nat): int {
    if m == 0 then 0 else k + Times(k, m - 1)
  }

  lemma {:induction false} TimesIsProduct(k: int, m: nat)
    ensures Times(k, m) == k * m
  {
    if m > 0 {
      TimesIsProduct(k, m - 1);
    }
  }

  /** The size of a bucket in scaled units. */
  function Capacity(q: Quota): int { Times(q.duration, q.max) }

  /** What leaks out of a bucket in the given time. */
  function Leak(q: Quota, seconds: int): int { Times(seconds, q.max) }

  function CeilDiv(dividend: nat, divisor: nat): nat
    requires divisor >= 1
  {
    (dividend + divisor - 1) / divisor
  }

  /** The state as the current request sees it: an expired window is replaced, a bucket has leaked. */
  function Current(alg: Algorithm, q: Quota, cached: Option<Snapshot>, now: int): Snapshot {
    match alg
    case SimpleRate =>
      if cached.None? || cached.value.time <= now then Snapshot(0, now + q.duration) else cached.value
    case LeakyBucket =>
      if cached.None? then Snapshot(0, now)
      else Snapshot(Max(0, cached.value.amount - Leak(q, now - cached.value.time)), now)
  }

  predicate Full(alg: Algorithm, q: Quota, current: Snapshot) {
    match alg
    case SimpleRate => current.amount >= q.max
    case LeakyBucket => current.amount + q.duration > Capacity(q)
  }

  /** One request: the state to store when it is admitted, None when it is denied. */
  function Attempt(alg: Algorithm, q: Quota, cached: Option<Snapshot>, now: int): Option<Snapshot> {
    var current := Current(alg, q, cached, now);
    if Full(alg, q, current) then None
    else Some(current.(amount := current.amount + if alg.SimpleRate? then 1 else q.duration))
  }

  /** The headers of a denial. */
  function Report(alg: Algorithm, q: Quota, current: Snapshot, now: int): TooManyRequests {
    match alg
    case SimpleRate => TooManyRequests(q.max - current.amount, current.time - now)
    case LeakyBucket =>
      TooManyRequests((Capacity(q) - current.amount) / q.duration, CeilDiv(q.duration, q.max))
  }

  // ---- Histories: the clock readings of successive requests for one cache key ----

  ghost predicate Monotone(ts: seq<int>) {
    forall i, j :: 0 <= i < j < |ts| ==> ts[i] <= ts[j]
  }

  /** A history without its last request is still ordered, and nothing in it is later than that request. */
  lemma MonotoneFront(ts: seq<int>, now: int)
    requires Monotone(ts + [now])
    ensures Monotone(ts)
    ensures forall t :: t in ts ==> t <= now
  {
    var all := ts + [now];
    forall i, j | 0 <= i < j < |ts|
      ensures ts[i] <= ts[j]
    {
      assert all[i] <= all[j];
    }
    forall t | t in ts
      ensures t <= now
    {
      var i :| 0 <= i < |ts| && ts[i] == t;
      assert all[i] <= all[|ts|];
    }
  }

  lemma MonotoneAppend(ts: seq<int>, now: int)
    requires Monotone(ts) && forall t :: t in ts ==> t <= now
    ensures Monotone(ts + [now])
  {
    var all := ts + [now];
    forall i, j | 0 <= i < j < |all|
      ensures all[i] <= all[j]
    {
      assert all[i] == ts[i] && ts[i] in ts;
      if j < |ts| {
        assert ts[i] <= ts[j];
      }
    }
  }

  /** A later request may follow, with or without the one at `t`. */
  lemma MonotoneLater(ts: seq<int>, t: int, now: int)
    requires Monotone(ts + [t]) && t <= now
    ensures Monotone(ts + [now]) && Monotone(ts + [t] + [now])
  {
    MonotoneFront(ts, t);
    MonotoneAppend(ts, now);
    assert forall x :: x in ts + [t] ==> x in ts || x == t;
    MonotoneAppend(ts + [t], now);
  }

  /** The state after a history; a denied request stores nothing. */
  function Replay(alg: Algorithm, q: Quota, ts: seq<int>): Option<Snapshot> {
    if ts == [] then None
    else
      var before := Replay(alg, q, ts[..|ts| - 1]);
      var after := Attempt(alg, q, before, ts[|ts| - 1]);
      if after.Some? then after else before
  }

  /** The clock readings of the admitted requests of a history. */
  function Admits(alg: Algorithm, q: Quota, ts: seq<int>): seq<int> {
    if ts == [] then []
    else
      var n := |ts| - 1;
      Admits(alg, q, ts[..n]) + if Attempt(alg, q, Replay(alg, q, ts[..n]), ts[n]).Some? then [ts[n]] else []
  }

  /** What the last request of a history did. */
  lemma LastRequest(alg: Algorithm, q: Quota, ts: seq<int>, t: int)
    ensures var before := Replay(alg, q, ts);
      var after := Attempt(alg, q, before, t);
      && Replay(alg, q, ts + [t]) == (if after.Some? then after else before)
      && Admits(alg, q, ts + [t]) == (if after.Some? then Admits(alg, q, ts) + [t] else Admits(alg, q, ts))
  {
    assert (ts + [t])[..|ts|] == ts;
  }

  /** How many of the given moments lie in the closed interval from a to b. */
  function CountIn(ts: seq<int>, a: int, b: int): nat {
    if ts == [] then 0
    else CountIn(ts[..|ts| - 1], a, b) + if a <= ts[|ts| - 1] <= b then 1 else 0
  }

  lemma {:induction false} AdmitsMonotone(alg: Algorithm, q: Quota, ts: seq<int>)
    requires Monotone(ts)
    ensures Monotone(Admits(alg, q, ts))
    ensures forall i :: 0 <= i < |Admits(alg, q, ts)| ==> Admits(alg, q, ts)[i] in ts
  {
    if ts != [] {
      var n := |ts| - 1;
      var front, t := ts[..n], ts[n];
      AdmitsMonotone(alg, q, front);
      assert front + [t] == ts;
      LastRequest(alg, q, front, t);
      var earlier := Admits(alg, q, front);
      forall i | 0 <= i < |earlier|
        ensures earlier[i] <= t && earlier[i] in ts
      {
        assert earlier[i] in front;
      }
    }
  }

  /** In an ordered list, the moments inside an interval are consecutive entries. */
  lemma {:induction false} CountInIsRun(ts: seq<int>, a: int, b: int) returns (i: nat, j: nat)
    requires Monotone(ts) && CountIn(ts, a, b) >= 1
    ensures i <= j < |ts| && j - i + 1 == CountIn(ts, a, b)
    ensures a <= ts[i] && ts[j] <= b
    ensures ts[|ts| - 1] <= b ==> j == |ts| - 1
  {
    var n := |ts| - 1;
    var front := ts[..n];
    if CountIn(front, a, b) == 0 {
      i, j := n, n;
    } else {
      i, j := CountInIsRun(front, a, b);
      if a <= ts[n] <= b {
        j := n;
      }
    }
  }
}
