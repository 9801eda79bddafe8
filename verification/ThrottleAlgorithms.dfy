/** The algorithm classes, working on a cached object that they may update in place. */
module ThrottleAlgorithms {
  import opened Wrappers
  import opened RateLimit

  /** The mutable record kept per cache key: `history` holds a single number. */
  class CachedRateLimit {
    var history: seq<int>
    var time: int

    constructor (history: seq<int>, time: int)
      ensures this.history == history && this.time == time
    {
      this.history, this.time := history, time;
    }

    predicate Valid()
      reads this
    {
      |history| == 1
    }

    function Value(): Snapshot
      reads this
      requires Valid()
    {
      Snapshot(history[0], time)
    }
  }

  /** The snapshot behind a possibly missing cached object. */
  function Seen(cacheObject: CachedRateLimit?): Option<Snapshot>
    requires cacheObject != null ==> cacheObject.Valid()
    reads cacheObject
  {
    if cacheObject == null then None else Some(cacheObject.Value())
  }

  /**
   * SimpleRate.access: counts the request in place, in the object it was given while the window
   * lasts and in a fresh one otherwise; a denial leaves the given object alone.
   */
  method AccessSimpleRate(q: Quota, cacheObject: CachedRateLimit?, now: int)
    returns (r: Result<CachedRateLimit, TooManyRequests>)
    requires cacheObject != null ==> cacheObject.Valid()
    modifies cacheObject
    ensures r.Success? ==> r.value.Valid()
    ensures r.Success? ==> fresh(r.value) || (r.value == cacheObject && r.value.time == old(r.value.time) > now)
    ensures match Attempt(SimpleRate, q, old(Seen(cacheObject)), now)
      case Some(after) => r.Success? && r.value.Value() == after
      case None =>
        && r == Failure(Report(SimpleRate, q, Current(SimpleRate, q, old(Seen(cacheObject)), now), now))
        && unchanged(cacheObject)
  {
    var current := cacheObject;
    if current == null || current.time <= now {
      current := new CachedRateLimit([0], now + q.duration);
    }
    if current.history[0] >= q.max {
      r := Failure(TooManyRequests(q.max - current.history[0], current.time - now));
    } else {
      current.history := current.history[0 := current.history[0] + 1];
      r := Success(current);
    }
  }

  /** LeakyBucket.access: leaks, checks and fills a fresh object; the given one is only read. */
  method AccessLeakyBucket(q: Quota, cacheObject: CachedRateLimit?, now: int)
    returns (r: Result<CachedRateLimit, TooManyRequests>)
    requires cacheObject != null ==> cacheObject.Valid()
    ensures r.Success? ==> fresh(r.value) && r.value.Valid()
    ensures match Attempt(LeakyBucket, q, Seen(cacheObject), now)
      case Some(after) => r.Success? && r.value.Value() == after
      case None => r == Failure(Report(LeakyBucket, q, Current(LeakyBucket, q, Seen(cacheObject), now), now))
  {
    var current := cacheObject;
    if current == null {
      current := new CachedRateLimit([0], now);
    }
    var elapsed := now - current.time;
    TimesIsProduct(elapsed, q.max);
    TimesIsProduct(q.duration, q.max);
    var level := Max(0, current.history[0] - elapsed * q.max);
    current := new CachedRateLimit([level], now);
    if current.history[0] + q.duration > q.max * q.duration {
      var remaining := (q.max * q.duration - current.history[0]) / q.duration;
      r := Failure(TooManyRequests(remaining, CeilDiv(q.duration, q.max)));
    } else {
      current.history := current.history[0 := current.history[0] + q.duration];
      r := Success(current);
    }
  }

  method Access(alg: Algorithm, q: Quota, cacheObject: CachedRateLimit?, now: int)
    returns (r: Result<CachedRateLimit, TooManyRequests>)
    requires cacheObject != null ==> cacheObject.Valid()
    modifies cacheObject
    ensures r.Success? ==> r.value.Valid()
    ensures match Attempt(alg, q, old(Seen(cacheObject)), now)
      case Some(after) => r.Success? && r.value.Value() == after
      case None => r == Failure(Report(alg, q, Current(alg, q, old(Seen(cacheObject)), now), now))
  {
    match alg
    case SimpleRate => r := AccessSimpleRate(q, cacheObject, now);
    case LeakyBucket => r := AccessLeakyBucket(q, cacheObject, now);
  }
}
