/**
 * The backends agree: on every history with an ordered clock, the Python algorithms over Django's
 * cache and the scripts over Redis give every request the same answer, and that answer is the one
 * of a store that never forgets. When and whether expired entries go away makes no difference.
 */
module BackendLaws {
  import opened Wrappers
  import opened RateLimit
  import opened ThrottleBackends
  import LeakyBucketLaws
  import RetryAfterLaws

  /** A request as both backends see it; expired entries may linger in each of them independently. */
  datatype Request = Request(at: Reading, redisLingers: bool)

  function Times(h: seq<Request>): seq<int> {
    if h == [] then [] else Times(h[..|h| - 1]) + [h[|h| - 1].at.accessAt]
  }

  /** The answer of a store that never forgets. */
  function PlainOutcome(alg: Algorithm, q: Quota, cached: Option<Snapshot>, now: int): Outcome {
    match Attempt(alg, q, cached, now)
    case Some(after) => Admitted(after.amount)
    case None => Denied(RetryAfterLaws.ReportAt(alg, q, cached, now))
  }

  function PlainRun(alg: Algorithm, q: Quota, ts: seq<int>): seq<Outcome> {
    if ts == [] then []
    else
      var n := |ts| - 1;
      PlainRun(alg, q, ts[..n]) + [PlainOutcome(alg, q, Replay(alg, q, ts[..n]), ts[n])]
  }

  function DjangoRun(alg: Algorithm, q: Quota, h: seq<Request>): (Option<Timed>, seq<Outcome>) {
    if h == [] then (None, [])
    else
      var (entry, outcomes) := DjangoRun(alg, q, h[..|h| - 1]);
      var (after, outcome) := DjangoStep(alg, q, entry, h[|h| - 1].at);
      (after, outcomes + [outcome])
  }

  function RedisRun(alg: Algorithm, q: Quota, h: seq<Request>): (RedisKeys, seq<Outcome>) {
    if h == [] then (RedisKeys(None, None), [])
    else
      var last := h[|h| - 1];
      var (keys, outcomes) := RedisRun(alg, q, h[..|h| - 1]);
      var (after, outcome) := RedisStep(alg, q, keys, last.at.accessAt, last.redisLingers);
      (after, outcomes + [outcome])
  }

  // ---- Forgetting a spent value changes nothing ----

  /** From `t` on, the value means the same as no value: its window is over, or it has leaked away. */
  predicate Spent(alg: Algorithm, q: Quota, value: Snapshot, t: int) {
    match alg
    case SimpleRate => value.time <= t
    case LeakyBucket => value.amount <= Leak(q, t - value.time)
  }

  lemma {:induction false} SpentMeansNothing(alg: Algorithm, q: Quota, value: Snapshot, t: int, now: int)
    requires Spent(alg, q, value, t) && t <= now
    ensures Current(alg, q, Some(value), now) == Current(alg, q, None, now)
  {
    LeakyBucketLaws.LeaksMore(q, t - value.time, now - value.time);
  }

  /** The entry holds the state of the never-forgetting store, at least until it is spent. */
  predicate Holds(alg: Algorithm, q: Quota, entry: Option<Timed>, cached: Option<Snapshot>) {
    match entry
    case None => cached.None?
    case Some(timed) => cached == Some(timed.value) && Spent(alg, q, timed.value, timed.expires)
  }

  lemma {:induction false} VisibleEnough(
    alg: Algorithm, q: Quota, entry: Option<Timed>, cached: Option<Snapshot>, readAt: int, lingers: bool, now: int)
    requires Holds(alg, q, entry, cached) && readAt <= now
    ensures Current(alg, q, Visible(entry, readAt, lingers), now) == Current(alg, q, cached, now)
  {
    if entry.Some? && entry.value.expires <= readAt {
      SpentMeansNothing(alg, q, entry.value.value, entry.value.expires, now);
    }
  }

  /** What every stored state satisfies at the next request. */
  predicate Sane(alg: Algorithm, q: Quota, cached: Option<Snapshot>, now: int) {
    cached.Some? ==>
      match alg
      case SimpleRate => 1 <= cached.value.amount <= q.max && cached.value.time - q.duration <= now
      case LeakyBucket => 0 <= cached.value.amount <= Capacity(q) && cached.value.time <= now
  }

  lemma ReplaySane(alg: Algorithm, q: Quota, ts: seq<int>, now: int)
    requires Monotone(ts + [now])
    ensures Sane(alg, q, Replay(alg, q, ts), now)
  {
    hide Replay;
    match alg
    case SimpleRate => RetryAfterLaws.StoredCount(q, ts, now);
    case LeakyBucket => RetryAfterLaws.LevelFits(q, ts, now);
  }

  /** A time to live of one duration or more outlasts what it protects. */
  lemma {:induction false} WrittenIsSpent(alg: Algorithm, q: Quota, cached: Option<Snapshot>, now: int, expires: int)
    requires Sane(alg, q, cached, now) && now + q.duration <= expires
    ensures var after := Attempt(alg, q, cached, now); after.Some? ==> Spent(alg, q, after.value, expires)
  {
    var after := Attempt(alg, q, cached, now);
    if after.Some? && alg.LeakyBucket? {
      LeakyBucketLaws.LeaksMore(q, q.duration, expires - now);
    }
  }

  lemma {:induction false} DjangoAgrees(
    alg: Algorithm, q: Quota, entry: Option<Timed>, cached: Option<Snapshot>, at: Reading)
    requires Holds(alg, q, entry, cached) && Sane(alg, q, cached, at.accessAt)
    ensures var (after, outcome) := DjangoStep(alg, q, entry, at);
      var written := Attempt(alg, q, cached, at.accessAt);
      && outcome == PlainOutcome(alg, q, cached, at.accessAt)
      && Holds(alg, q, after, if written.Some? then written else cached)
  {
    VisibleEnough(alg, q, entry, cached, at.readAt, at.lingers, at.accessAt);
    WrittenIsSpent(alg, q, cached, at.accessAt, at.writtenAt + q.duration);
    hide Spent, Current, Full, Sane, Report;
  }

  /** Redis counts in a key whose time to live is the window itself. */
  predicate RedisHolds(alg: Algorithm, q: Quota, keys: RedisKeys, cached: Option<Snapshot>) {
    match alg
    case SimpleRate =>
      keys.counter == (if cached.None? then None else Some(Counter(cached.value.amount, Some(cached.value.time))))
    case LeakyBucket => Holds(LeakyBucket, q, keys.bucket, cached)
  }

  lemma CounterAgrees(q: Quota, keys: RedisKeys, cached: Option<Snapshot>, now: int)
    requires RedisHolds(SimpleRate, q, keys, cached) && Sane(SimpleRate, q, cached, now)
    ensures var (after, outcome) := RedisStep(SimpleRate, q, keys, now, false);
      var written := Attempt(SimpleRate, q, cached, now);
      && outcome == PlainOutcome(SimpleRate, q, cached, now)
      && RedisHolds(SimpleRate, q, after, if written.Some? then written else cached)
  {}

  lemma BucketAgrees(q: Quota, keys: RedisKeys, cached: Option<Snapshot>, now: int, lingers: bool)
    requires RedisHolds(LeakyBucket, q, keys, cached) && Sane(LeakyBucket, q, cached, now)
    ensures var (after, outcome) := RedisStep(LeakyBucket, q, keys, now, lingers);
      var written := Attempt(LeakyBucket, q, cached, now);
      && outcome == PlainOutcome(LeakyBucket, q, cached, now)
      && RedisHolds(LeakyBucket, q, after, if written.Some? then written else cached)
  {
    VisibleEnough(LeakyBucket, q, keys.bucket, cached, now, lingers, now);
    WrittenIsSpent(LeakyBucket, q, cached, now, now + 2 * q.duration);
    var raw := Visible(keys.bucket, now, lingers);
    assert raw.Some? ==> raw == cached && raw.value.time <= now;
    hide Spent;
  }

  /** Every request gets the same answer from either backend as from a store that never forgets. */
  lemma {:induction false} BackendsAgree(alg: Algorithm, q: Quota, h: seq<Request>)
    requires Monotone(Times(h))
    ensures DjangoRun(alg, q, h).1 == PlainRun(alg, q, Times(h)) == RedisRun(alg, q, h).1
    ensures Holds(alg, q, DjangoRun(alg, q, h).0, Replay(alg, q, Times(h)))
    ensures RedisHolds(alg, q, RedisRun(alg, q, h).0, Replay(alg, q, Times(h)))
  {
    if h != [] {
      var front, last := h[..|h| - 1], h[|h| - 1];
      var ts, now := Times(front), last.at.accessAt;
      assert Times(h) == Times(h[..|h| - 1]) + [h[|h| - 1].at.accessAt];
      MonotoneFront(ts, now);
      BackendsAgree(alg, q, front);
      ReplaySane(alg, q, ts, now);
      LastRequest(alg, q, ts, now);
      assert (ts + [now])[..|ts|] == ts;
      hide Attempt, Current, Sane, Holds, RedisHolds, Full, Report, Replay, DjangoStep, RedisStep, PlainOutcome;
      DjangoAgrees(alg, q, DjangoRun(alg, q, front).0, Replay(alg, q, ts), last.at);
      RedisAgrees(alg, q, RedisRun(alg, q, front).0, Replay(alg, q, ts), now, last.redisLingers);
    }
  }

  lemma {:induction false} RedisAgrees(
    alg: Algorithm, q: Quota, keys: RedisKeys, cached: Option<Snapshot>, now: int, lingers: bool)
    requires RedisHolds(alg, q, keys, cached) && Sane(alg, q, cached, now)
    ensures var (after, outcome) := RedisStep(alg, q, keys, now, lingers);
      var written := Attempt(alg, q, cached, now);
      && outcome == PlainOutcome(alg, q, cached, now)
      && RedisHolds(alg, q, after, if written.Some? then written else cached)
  {
    match alg
    case SimpleRate => CounterAgrees(q, keys, cached, now);
    case LeakyBucket => BucketAgrees(q, keys, cached, now, lingers);
  }
}
