/**
 * The two stores of rate limiting state: Django's cache, read and written by the Python
 * algorithms, and Redis, changed by one atomic script per algorithm.
 */
module ThrottleBackends {
  import opened Wrappers
  import opened RateLimit
  import opened ThrottleAlgorithms

  /** What one request got from the limiter: the number it was counted as, or a denial. */
  datatype Outcome = Admitted(amount: int) | Denied(headers: TooManyRequests)

  /** A stored value that is certain to be readable before `expires`, and may be gone from then on. */
  datatype Timed = Timed(value: Snapshot, expires: int)

  /** What a read at `now` returns; `lingers` says whether a value past its time is still there. */
  function Visible(entry: Option<Timed>, now: int, lingers: bool): Option<Snapshot> {
    if entry.None? || (entry.value.expires <= now && !lingers) then None else Some(entry.value.value)
  }

  // ---- Django's cache ----

  /** The clock readings of one request: for reading the cache, inside the algorithm, and for writing the result. */
  datatype RawReading = Reading(readAt: int, accessAt: int, writtenAt: int, lingers: bool)
  type Reading = r: RawReading | r.readAt <= r.accessAt <= r.writtenAt witness Reading(0, 0, 0, false)

  /** One request on one cache key; nothing is written on a denial. */
  function DjangoStep(alg: Algorithm, q: Quota, entry: Option<Timed>, at: Reading): (r: (Option<Timed>, Outcome)) {
    var seen := Visible(entry, at.readAt, at.lingers);
    match Attempt(alg, q, seen, at.accessAt)
    case Some(after) => (Some(Timed(after, at.writtenAt + q.duration)), Admitted(after.amount))
    case None => (entry, Denied(Report(alg, q, Current(alg, q, seen, at.accessAt), at.accessAt)))
  }

  class DjangoCache {
    var entries: map<string, Timed>

    constructor ()
      ensures entries == map[]
    {
      entries := map[];
    }

    /** Reads are deserialised, so the caller gets an object of its own. */
    method Get(key: string, now: int, lingers: bool) returns (cacheObject: CachedRateLimit?)
      ensures cacheObject != null ==> fresh(cacheObject) && cacheObject.Valid()
      ensures Seen(cacheObject) == Visible(Lookup(entries, key), now, lingers)
    {
      cacheObject := null;
      if key in entries && (now < entries[key].expires || lingers) {
        cacheObject := new CachedRateLimit([entries[key].value.amount], entries[key].value.time);
      }
    }

    method Set(key: string, cacheObject: CachedRateLimit, now: int, timeout: int)
      requires cacheObject.Valid()
      modifies this
      ensures entries == old(entries)[key := Timed(cacheObject.Value(), now + timeout)]
    {
      entries := entries[key := Timed(cacheObject.Value(), now + timeout)];
    }

    /** SyncDjangoCache.incr: read, compute, overwrite. A denial escapes before the write. */
    method Incr(key: string, alg: Algorithm, q: Quota, at: Reading) returns (r: Result<int, TooManyRequests>)
      modifies this
      ensures var step := DjangoStep(alg, q, Lookup(old(entries), key), at);
        && Lookup(entries, key) == step.0
        && (match step.1 case Admitted(n) => r == Success(n) case Denied(h) => r == Failure(h))
      ensures forall k :: k != key ==> Lookup(entries, k) == Lookup(old(entries), k)
      ensures r.Success? ==> key in entries && entries[key].expires == at.writtenAt + q.duration
      ensures r.Failure? ==> entries == old(entries)
    {
      var cacheObject := Get(key, at.readAt, at.lingers);
      var access := Access(alg, q, cacheObject, at.accessAt);
      match access
      case Failure(headers) => r := Failure(headers);
      case Success(updated) =>
        Set(key, updated, at.writtenAt, q.duration);
        r := Success(updated.history[0]);
    }
  }

  // ---- Redis ----

  /** A counter key; Redis drops it at the very second `expires`. */
  datatype Counter = Counter(count: int, expires: Option<int>)

  /** The keys of one throttle: the counter of SIMPLE_RATE, the hash of LEAKY_BUCKET. */
  datatype RedisKeys = RedisKeys(counter: Option<Counter>, bucket: Option<Timed>)

  predicate Expired(c: Counter, now: int) { c.expires.Some? && c.expires.value <= now }

  function Alive(c: Option<Counter>, now: int): Option<Counter> {
    if c.Some? && Expired(c.value, now) then None else c
  }

  /** The reply of a script: allowed or not, a number, and a second number that is a time for SIMPLE_RATE only. */
  datatype Reply = Reply(allowed: bool, amount: int, extra: int)

  function CounterStep(q: Quota, c: Option<Counter>, now: int): (Option<Counter>, Reply) {
    match Alive(c, now)
    case None => (Some(Counter(1, Some(now + q.duration))), Reply(true, 1, now + q.duration))
    case Some(live) =>
      var stamped := if live.count == 0 then Some(now + q.duration) else live.expires;
      var expireAt := if stamped.Some? then stamped.value else now - 1;
      if live.count + 1 > q.max then (Some(Counter(live.count, stamped)), Reply(false, q.max, expireAt))
      else (Some(Counter(live.count + 1, stamped)), Reply(true, live.count + 1, expireAt))
  }

  function BucketStep(q: Quota, b: Option<Timed>, now: int, lingers: bool): (Option<Timed>, Reply) {
    var raw := Visible(b, now, lingers);
    var level := if raw.None? then 0 else Max(0, raw.value.amount - Leak(q, Max(0, now - raw.value.time)));
    if level + q.duration > Capacity(q) then (b, Reply(false, level, Capacity(q)))
    else (Some(Timed(Snapshot(level + q.duration, now), now + 2 * q.duration)),
          Reply(true, level + q.duration, Capacity(q)))
  }

  /** How the backend turns a reply into a verdict; a denial goes through the algorithm's report_usage. */
  function Verdict(alg: Algorithm, q: Quota, reply: Reply, now: int): Outcome {
    if reply.allowed then Admitted(reply.amount)
    else
      var cached := Snapshot(reply.amount, reply.extra);
      Denied(match alg
             case SimpleRate => Report(SimpleRate, q, Current(SimpleRate, q, Some(cached), now), now)
             case LeakyBucket => Report(LeakyBucket, q, cached, now))
  }

  function RedisStep(alg: Algorithm, q: Quota, keys: RedisKeys, now: int, lingers: bool): (RedisKeys, Outcome) {
    match alg
    case SimpleRate =>
      var (counter, reply) := CounterStep(q, keys.counter, now);
      (keys.(counter := counter), Verdict(alg, q, reply, now))
    case LeakyBucket =>
      var (bucket, reply) := BucketStep(q, keys.bucket, now, lingers);
      (keys.(bucket := bucket), Verdict(alg, q, reply, now))
  }

  class RedisStore {
    var counters: map<string, Counter>
    var buckets: map<string, Timed>

    function Keys(key: string): RedisKeys
      reads this
    {
      RedisKeys(Lookup(counters, key), Lookup(buckets, key))
    }

    /** INCR: a missing or expired counter starts at 1 without a time to live. */
    method IncrCommand(key: string, now: int) returns (current: int)
      modifies this`counters
      ensures var live := Alive(Lookup(old(counters), key), now);
        var counter := if live.Some? then Counter(live.value.count + 1, live.value.expires) else Counter(1, None);
        counters == old(counters)[key := counter] && current == counter.count
    {
      if key in counters && !Expired(counters[key], now) {
        current := counters[key].count + 1;
        counters := counters[key := Counter(current, counters[key].expires)];
      } else {
        current := 1;
        counters := counters[key := Counter(1, None)];
      }
    }

    /** DECR keeps the time to live. */
    method DecrCommand(key: string)
      requires key in counters
      modifies this`counters
      ensures counters == old(counters)[key := Counter(old(counters)[key].count - 1, old(counters)[key].expires)]
    {
      counters := counters[key := Counter(counters[key].count - 1, counters[key].expires)];
    }

    /** The SIMPLE_RATE script for a write request. */
    method SimpleRateScript(key: string, q: Quota, now: int) returns (reply: Reply)
      modifies this`counters
      ensures var (counter, expected) := CounterStep(q, Lookup(old(counters), key), now);
        Lookup(counters, key) == counter && reply == expected
      ensures forall k :: k != key ==> Lookup(counters, k) == Lookup(old(counters), k)
    {
      var current := IncrCommand(key, now);
      if current == 1 {
        counters := counters[key := Counter(current, Some(now + q.duration))];
      }
      var expires := counters[key].expires;
      var ttl := if expires.Some? then expires.value - now else -1;
      var expireAt := now + ttl;
      if current > q.max {
        DecrCommand(key);
        reply := Reply(false, q.max, expireAt);
      } else {
        reply := Reply(true, current, expireAt);
      }
    }

    /** The LEAKY_BUCKET script for a write request. */
    method LeakyBucketScript(key: string, q: Quota, now: int, lingers: bool) returns (reply: Reply)
      modifies this`buckets
      ensures var (bucket, expected) := BucketStep(q, Lookup(old(buckets), key), now, lingers);
        Lookup(buckets, key) == bucket && reply == expected
      ensures reply.allowed ==> key in buckets && buckets[key].expires == now + 2 * q.duration
      ensures !reply.allowed ==> buckets == old(buckets)
      ensures forall k :: k != key ==> Lookup(buckets, k) == Lookup(old(buckets), k)
    {
      var capacity := q.max * q.duration;
      var level, lastTime := 0, now;
      if key in buckets && (now < buckets[key].expires || lingers) {
        level, lastTime := buckets[key].value.amount, buckets[key].value.time;
      }
      var elapsed := Max(0, now - lastTime);
      TimesIsProduct(elapsed, q.max);
      TimesIsProduct(q.duration, q.max);
      level := Max(0, level - elapsed * q.max);
      var nextLevel := level + q.duration;
      if nextLevel > capacity {
        reply := Reply(false, level, capacity);
      } else {
        level := nextLevel;
        buckets := buckets[key := Timed(Snapshot(level, now), now + q.duration * 2)];
        reply := Reply(true, level, capacity);
      }
    }

    /** SyncRedis.incr: run the script, raise when it says no. */
    method Incr(key: string, alg: Algorithm, q: Quota, now: int, lingers: bool)
      returns (r: Result<int, TooManyRequests>)
      modifies this
      ensures var step := RedisStep(alg, q, old(Keys(key)), now, lingers);
        && Keys(key) == step.0
        && (match step.1 case Admitted(n) => r == Success(n) case Denied(h) => r == Failure(h))
      ensures forall k :: k != key ==> Keys(k) == old(Keys(k))
    {
      var reply;
      match alg {
        case SimpleRate => reply := SimpleRateScript(key, q, now);
        case LeakyBucket => reply := LeakyBucketScript(key, q, now, lingers);
      }
      var verdict := Verdict(alg, q, reply, now);
      match verdict
      case Admitted(amount) => r := Success(amount);
      case Denied(headers) => r := Failure(headers);
    }
  }
}
