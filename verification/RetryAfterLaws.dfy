/** What a denied caller can rely on: the X-RateLimit-Remaining and Retry-After numbers. */
module RetryAfterLaws {
  import opened Wrappers
  import opened RateLimit
  import SimpleRateLaws
  import LeakyBucketLaws

  function ReportAt(alg: Algorithm, q: Quota, cached: Option<Snapshot>, now: int): TooManyRequests {
    Report(alg, q, Current(alg, q, cached, now), now)
  }

  // ---- SimpleRate ----

  /** A stored count never passes the limit, and its window began in the past. */
  lemma {:induction false} StoredCount(q: Quota, ts: seq<int>, now: int)
    requires Monotone(ts + [now])
    ensures var cached := Replay(SimpleRate, q, ts);
      cached.Some? ==> 1 <= cached.value.amount <= q.max && cached.value.time - q.duration <= now
  {
    SimpleRateLaws.WindowsKept(q, ts, now);
  }

  /**
   * After a denial at `now`, exactly the attempts before `now + reset` are denied, and nothing
   * remains until then.
   */
  lemma {:induction false} WindowRetry(q: Quota, ts: seq<int>, now: int, later: int)
    requires Monotone(ts + [now]) && now <= later
    requires Attempt(SimpleRate, q, Replay(SimpleRate, q, ts), now).None?
    ensures var report := ReportAt(SimpleRate, q, Replay(SimpleRate, q, ts), now);
      && report.remaining == 0
      && report.reset >= 1
      && (Attempt(SimpleRate, q, Replay(SimpleRate, q, ts), later).Some? <==> later >= now + report.reset)
  {
    hide Replay;
    StoredCount(q, ts, now);
  }

  /** However often the caller retries too early, the promise made at the denial stays the same. */
  lemma {:induction false} WindowRetryKept(q: Quota, ts: seq<int>, now: int, retries: seq<int>)
    requires Monotone(ts + [now] + retries)
    requires Attempt(SimpleRate, q, Replay(SimpleRate, q, ts), now).None?
    requires var report := ReportAt(SimpleRate, q, Replay(SimpleRate, q, ts), now);
      forall i :: 0 <= i < |retries| ==> retries[i] < now + report.reset
    ensures Admits(SimpleRate, q, ts + [now] + retries) == Admits(SimpleRate, q, ts)
    ensures Replay(SimpleRate, q, ts + [now] + retries) == Replay(SimpleRate, q, ts)
  {
    var all := ts + [now] + retries;
    assert Monotone(ts + [now]) by {
      assert forall i :: 0 <= i <= |ts| ==> (ts + [now])[i] == all[i];
    }
    LastRequest(SimpleRate, q, ts, now);
    if retries == [] {
      assert all == ts + [now];
    } else {
      var n := |retries| - 1;
      var fewer := ts + [now] + retries[..n];
      assert all == fewer + [retries[n]];
      assert all[|ts|] == now && all[|all| - 1] == retries[n];
      MonotoneFront(fewer, retries[n]);
      WindowRetryKept(q, ts, now, retries[..n]);
      LastRequest(SimpleRate, q, fewer, retries[n]);
      WindowRetry(q, ts, now, retries[n]);
    }
  }

  // ---- LeakyBucket ----

  lemma {:induction false} CeilDivExact(dividend: nat, divisor: nat)
    requires divisor >= 1
    ensures (CeilDiv(dividend, divisor) - 1) * divisor < dividend <= CeilDiv(dividend, divisor) * divisor
  {
    var c := (dividend + divisor - 1) / divisor;
    assert c * divisor <= dividend + divisor - 1 < (c + 1) * divisor;
  }

  /** After waiting `wait` seconds without an admit, the request fits if and only if enough has leaked. */
  lemma {:induction false} WaitExact(q: Quota, cached: Option<Snapshot>, now: int, wait: nat)
    requires cached.Some? ==> cached.value.time <= now
    ensures Attempt(LeakyBucket, q, cached, now + wait).Some?
      <==> Current(LeakyBucket, q, cached, now).amount + q.duration <= Capacity(q) + Leak(q, wait)
  {
    LeakyBucketLaws.CurrentLeaks(q, cached, now, now + wait);
    LeakyBucketLaws.OneFits(q);
    LeakyBucketLaws.LeakNonNegative(q, now, now + wait);
  }

  /** No history overfills the bucket. */
  lemma {:induction false} LevelFits(q: Quota, ts: seq<int>, now: int)
    requires Monotone(ts + [now])
    ensures var cached := Replay(LeakyBucket, q, ts);
      && 0 <= Current(LeakyBucket, q, cached, now).amount <= Capacity(q)
      && (cached.Some? ==> cached.value.time <= now && 0 <= cached.value.amount <= Capacity(q))
  {
    hide Replay;
    LeakyBucketLaws.StoredLevel(q, ts);
    LeakyBucketLaws.OneFits(q);
    MonotoneFront(ts, now);
    var cached := Replay(LeakyBucket, q, ts);
    if cached.Some? {
      LeakyBucketLaws.LeakNonNegative(q, cached.value.time, now);
    }
  }

  /** A request that comes back after `wait` seconds, with no admit in between, is admitted. */
  predicate Suffices(q: Quota, cached: Option<Snapshot>, now: int, wait: nat) {
    Attempt(LeakyBucket, q, cached, now + wait).Some?
  }

  /** What the bucket lacks for one more request. */
  function Lack(q: Quota, cached: Option<Snapshot>, now: int): int {
    Current(LeakyBucket, q, cached, now).amount + q.duration - Capacity(q)
  }

  /** After a denial, the sufficient waits are exactly those in which the lack leaks out, rounded up to seconds. */
  lemma {:induction false} LeastWait(q: Quota, ts: seq<int>, now: int, wait: nat)
    requires Monotone(ts + [now])
    requires Attempt(LeakyBucket, q, Replay(LeakyBucket, q, ts), now).None?
    ensures var cached := Replay(LeakyBucket, q, ts);
      && 1 <= Lack(q, cached, now) <= q.duration
      && (Suffices(q, cached, now, wait) <==> wait >= CeilDiv(Lack(q, cached, now), q.max))
      && 1 <= CeilDiv(Lack(q, cached, now), q.max) <= ReportAt(LeakyBucket, q, cached, now).reset
  {
    assert Leak(q, wait) == wait * q.max by {
      TimesIsProduct(wait, q.max);
    }
    hide *;
    var cached := Replay(LeakyBucket, q, ts);
    LevelFits(q, ts, now);
    LackByDenial(q, cached, now);
    BucketReport(q, cached, now);
    WaitExact(q, cached, now, wait);
    SufficesUnfolds(q, cached, now, wait);
    var lack := Lack(q, cached, now);
    CeilDivExact(lack, q.max);
    assert CeilDiv(lack, q.max) >= 1 by {
      CeilDivExact(lack, q.max);
    }
    CeilDivLeast(lack, q.max, wait);
    CeilDivExact(q.duration, q.max);
    CeilDivLeast(lack, q.max, CeilDiv(q.duration, q.max));
  }

  lemma LackByDenial(q: Quota, cached: Option<Snapshot>, now: int)
    requires Current(LeakyBucket, q, cached, now).amount <= Capacity(q)
    requires Attempt(LeakyBucket, q, cached, now).None?
    ensures 1 <= Lack(q, cached, now) <= q.duration
    ensures Lack(q, cached, now) == Current(LeakyBucket, q, cached, now).amount + q.duration - Capacity(q)
  {}

  lemma SufficesUnfolds(q: Quota, cached: Option<Snapshot>, now: int, wait: nat)
    ensures Suffices(q, cached, now, wait) <==> Attempt(LeakyBucket, q, cached, now + wait).Some?
  {}

  lemma {:induction false} CeilDivLeast(dividend: nat, divisor: nat, n: nat)
    requires divisor >= 1
    ensures n >= CeilDiv(dividend, divisor) <==> dividend <= n * divisor
  {
    CeilDivExact(dividend, divisor);
    var c := CeilDiv(dividend, divisor);
    if n >= c {
      LeakyBucketLaws.Scale(divisor, c, n);
    } else {
      LeakyBucketLaws.Scale(divisor, n, c - 1);
    }
  }

  /**
   * A denial reports nothing remaining. Its Retry-After always suffices; from a full bucket it is the
   * shortest sufficient wait, and otherwise a second less suffices if that makes enough room.
   */
  lemma {:induction false} BucketRetry(q: Quota, ts: seq<int>, now: int, wait: nat)
    requires Monotone(ts + [now])
    requires Attempt(LeakyBucket, q, Replay(LeakyBucket, q, ts), now).None?
    ensures var cached := Replay(LeakyBucket, q, ts);
      var report := ReportAt(LeakyBucket, q, cached, now);
      var level := Current(LeakyBucket, q, cached, now).amount;
      && report.remaining == 0
      && report.reset >= 1
      && (wait >= report.reset ==> Attempt(LeakyBucket, q, cached, now + wait).Some?)
      && (level == Capacity(q) ==> (Attempt(LeakyBucket, q, cached, now + wait).Some? <==> wait >= report.reset))
      && (Attempt(LeakyBucket, q, cached, now + (report.reset - 1)).None?
          <==> level + q.duration > Capacity(q) + Leak(q, report.reset - 1))
  {
    hide *;
    var cached := Replay(LeakyBucket, q, ts);
    var level := Current(LeakyBucket, q, cached, now).amount;
    LevelFits(q, ts, now);
    LackByDenial(q, cached, now);
    BucketReport(q, cached, now);
    assert (Capacity(q) - level) / q.duration == 0;
    LeastWait(q, ts, now, wait);
    SufficesUnfolds(q, cached, now, wait);
    WaitExact(q, cached, now, CeilDiv(q.duration, q.max) - 1);
  }

  /**
   * No wait shorter than the Retry-After suffices, if and only if what the bucket lacks takes as many
   * seconds to leak as a whole request.
   */
  lemma {:induction false} RetryLeast(q: Quota, ts: seq<int>, now: int)
    requires Monotone(ts + [now])
    requires Attempt(LeakyBucket, q, Replay(LeakyBucket, q, ts), now).None?
    ensures var cached := Replay(LeakyBucket, q, ts);
      var reset := ReportAt(LeakyBucket, q, cached, now).reset;
      (forall shorter: nat :: shorter < reset ==> !Suffices(q, cached, now, shorter))
      <==> CeilDiv(Lack(q, cached, now), q.max) == reset
  {
    hide *;
    var cached := Replay(LeakyBucket, q, ts);
    LeastWait(q, ts, now, 0);
    var needed := CeilDiv(Lack(q, cached, now), q.max);
    LeastWait(q, ts, now, needed);
    forall shorter: nat | shorter < needed
      ensures !Suffices(q, cached, now, shorter)
    {
      LeastWait(q, ts, now, shorter);
    }
    assert needed < ReportAt(LeakyBucket, q, cached, now).reset ==> Suffices(q, cached, now, needed);
  }

  lemma BucketReport(q: Quota, cached: Option<Snapshot>, now: int)
    ensures ReportAt(LeakyBucket, q, cached, now)
      == TooManyRequests((Capacity(q) - Current(LeakyBucket, q, cached, now).amount) / q.duration,
                         CeilDiv(q.duration, q.max))
  {}

  /** It can be far too long: one request in ten seconds, admitted at 0 and denied at 5, is sent away for ten more. */
  lemma {:induction false} RetryTooLong()
    ensures var q := Quota(1, 10);
      var cached := Replay(LeakyBucket, q, [0]);
      && Attempt(LeakyBucket, q, cached, 5).None?
      && ReportAt(LeakyBucket, q, cached, 5).reset == 10
      && Suffices(q, cached, 5, 5)
  {
    var q: Quota := Quota(1, 10);
    assert [0][..0] == [];
    TimesIsProduct(10, 1);
    TimesIsProduct(5, 1);
    TimesIsProduct(0, 1);
    assert Current(LeakyBucket, q, None, 0) == Snapshot(0, 0);
    assert Replay(LeakyBucket, q, []) == None;
    assert Replay(LeakyBucket, q, [0]) == Some(Snapshot(10, 0));
  }
}
