/** What LeakyBucket guarantees over every history with a clock that does not run backwards. */
module LeakyBucketLaws {
  import opened Wrappers
  import opened RateLimit

  /** What a run of admits still owes at `now`, in scaled units, when the leak never ran dry meanwhile. */
  function Debt(q: Quota, admits: seq<int>, now: int): int
    requires admits != []
  {
    Times(|admits|, q.duration) - Leak(q, now - admits[0])
  }

  /** The largest debt among all suffixes of the admits, and zero. */
  function PeakDebt(q: Quota, admits: seq<int>, now: int): int {
    if admits == [] then 0 else Max(Debt(q, admits, now), PeakDebt(q, admits[1..], now))
  }

  /** The peak is attained, so it is the maximum and not only a bound. */
  lemma {:induction false} PeakDebtIsMaximum(q: Quota, admits: seq<int>, now: int)
    ensures PeakDebt(q, admits, now) >= 0
    ensures forall i :: 0 <= i < |admits| ==> Debt(q, admits[i..], now) <= PeakDebt(q, admits, now)
    ensures PeakDebt(q, admits, now) == 0
      || exists i :: 0 <= i < |admits| && PeakDebt(q, admits, now) == Debt(q, admits[i..], now)
  {
    if admits != [] {
      var rest := admits[1..];
      PeakDebtIsMaximum(q, rest, now);
      assert admits[0..] == admits;
      assert forall i :: 1 <= i < |admits| ==> admits[i..] == rest[i - 1..];
      if PeakDebt(q, admits, now) != 0 && PeakDebt(q, admits, now) == PeakDebt(q, rest, now) {
        var i :| 0 <= i < |rest| && PeakDebt(q, rest, now) == Debt(q, rest[i..], now);
        assert admits[i + 1..] == rest[i..];
      }
    }
  }

  lemma DebtLeaks(q: Quota, admits: seq<int>, t: int, now: int)
    requires admits != []
    ensures Debt(q, admits, now) == Debt(q, admits, t) - Leak(q, now - t)
  {
    LeaksAdd(q, t - admits[0], now - t);
  }

  lemma LeaksAdd(q: Quota, a: int, b: int)
    ensures Leak(q, a + b) == Leak(q, a) + Leak(q, b)
  {
    TimesIsProduct(a + b, q.max);
    TimesIsProduct(a, q.max);
    TimesIsProduct(b, q.max);
  }

  /** Time takes the same amount off every debt. */
  lemma {:induction false} PeakDebtLeaks(q: Quota, admits: seq<int>, t: int, now: int)
    requires t <= now
    ensures PeakDebt(q, admits, now) == Max(0, PeakDebt(q, admits, t) - Leak(q, now - t))
  {
    hide Debt, Max;
    LeakNonNegative(q, t, now);
    if admits == [] {
      MaxLeaks(0, 0, Leak(q, now - t));
    } else {
      PeakDebtLeaks(q, admits[1..], t, now);
      DebtLeaks(q, admits, t, now);
      MaxLeaks(Debt(q, admits, t), PeakDebt(q, admits[1..], t), Leak(q, now - t));
    }
  }

  lemma LeakNonNegative(q: Quota, t: int, now: int)
    requires t <= now
    ensures Leak(q, now - t) >= 0
  {
    TimesIsProduct(now - t, q.max);
  }

  lemma MaxLeaks(debt: int, peak: int, leak: int)
    requires leak >= 0
    ensures Max(debt - leak, Max(0, peak - leak)) == Max(0, Max(debt, peak) - leak)
    ensures Max(0, 0 - leak) == 0
  {}

  /** The debt of all admits grows by one unit of duration with each admit, and the newest owes just that. */
  lemma DebtFills(q: Quota, admits: seq<int>, t: int)
    ensures admits != [] ==> Debt(q, admits + [t], t) == Debt(q, admits, t) + q.duration
    ensures admits == [] ==> Debt(q, admits + [t], t) == q.duration
  {
    TimesIsProduct(0, q.max);
    TimesIsProduct(|admits| + 1, q.duration);
    TimesIsProduct(|admits|, q.duration);
  }

  /** An admit adds one unit of duration to the peak. */
  lemma {:induction false} PeakDebtFills(q: Quota, admits: seq<int>, t: int)
    ensures PeakDebt(q, admits + [t], t) == PeakDebt(q, admits, t) + q.duration
  {
    hide Debt;
    DebtFills(q, admits, t);
    if admits == [] {
      assert (admits + [t])[1..] == [];
    } else {
      PeakDebtFills(q, admits[1..], t);
      assert (admits + [t])[1..] == admits[1..] + [t];
    }
  }

  /** Looking at the stored state later shows the level seen now, leaked. */
  lemma CurrentLeaks(q: Quota, cached: Option<Snapshot>, t: int, now: int)
    requires t <= now && (cached.Some? ==> cached.value.time <= t)
    ensures Current(LeakyBucket, q, cached, now).amount
      == Max(0, Current(LeakyBucket, q, cached, t).amount - Leak(q, now - t))
  {
    LeakNonNegative(q, t, now);
    if cached.Some? {
      LeaksAdd(q, t - cached.value.time, now - t);
    }
  }

  lemma CurrentAtOnce(q: Quota, level: int, now: int)
    ensures Current(LeakyBucket, q, Some(Snapshot(level, now)), now).amount == Max(0, level)
  {
    TimesIsProduct(0, q.max);
  }

  /** The stored level always fits into the bucket and was measured during the history. */
  lemma {:induction false} StoredLevel(q: Quota, ts: seq<int>)
    ensures var cached := Replay(LeakyBucket, q, ts);
      cached.Some? ==> 0 <= cached.value.amount <= Capacity(q) && cached.value.time in ts
  {
    if ts != [] {
      StoredLevel(q, ts[..|ts| - 1]);
    }
  }

  /** One request at `t` keeps the level equal to the peak debt, at every later moment. */
  lemma LevelStep(q: Quota, cached: Option<Snapshot>, admits: seq<int>, t: int, now: int)
    requires cached.Some? ==> cached.value.time <= t
    requires Current(LeakyBucket, q, cached, t).amount == PeakDebt(q, admits, t)
    requires t <= now
    ensures var after := Attempt(LeakyBucket, q, cached, t);
      if after.Some? then
        Current(LeakyBucket, q, after, now).amount == PeakDebt(q, admits + [t], now)
      else
        Current(LeakyBucket, q, cached, now).amount == PeakDebt(q, admits, now)
  {
    var after := Attempt(LeakyBucket, q, cached, t);
    if after.Some? {
      PeakDebtFills(q, admits, t);
      CurrentAtOnce(q, PeakDebt(q, admits, t) + q.duration, t);
      PeakDebtIsMaximum(q, admits, t);
      PeakDebtLeaks(q, admits + [t], t, now);
      CurrentLeaks(q, after, t, now);
    } else {
      PeakDebtLeaks(q, admits, t, now);
      CurrentLeaks(q, cached, t, now);
    }
  }

  lemma LevelAppend(q: Quota, ts: seq<int>, t: int, now: int)
    requires t <= now
    requires var cached := Replay(LeakyBucket, q, ts); cached.Some? ==> cached.value.time <= t
    requires Current(LeakyBucket, q, Replay(LeakyBucket, q, ts), t).amount
      == PeakDebt(q, Admits(LeakyBucket, q, ts), t)
    ensures Current(LeakyBucket, q, Replay(LeakyBucket, q, ts + [t]), now).amount
      == PeakDebt(q, Admits(LeakyBucket, q, ts + [t]), now)
  {
    hide *;
    LastRequest(LeakyBucket, q, ts, t);
    LevelStep(q, Replay(LeakyBucket, q, ts), Admits(LeakyBucket, q, ts), t, now);
  }

  /**
   * The level has a closed form: what a request finds in the bucket is the largest debt
   * among all suffixes of the earlier admits.
   */
  lemma {:induction false} LevelExact(q: Quota, ts: seq<int>, now: int)
    requires Monotone(ts + [now])
    ensures Current(LeakyBucket, q, Replay(LeakyBucket, q, ts), now).amount
      == PeakDebt(q, Admits(LeakyBucket, q, ts), now)
  {
    if ts != [] {
      var front, t := ts[..|ts| - 1], ts[|ts| - 1];
      assert front + [t] == ts && t in ts;
      MonotoneFront(ts, now);
      MonotoneFront(front, t);
      LevelExact(q, front, t);
      StoredLevel(q, front);
      LevelAppend(q, front, t, now);
    }
  }

  /** Every suffix of the admits, with one more request, fits into the burst plus the leak since it began. */
  ghost predicate EverySuffixFits(q: Quota, admits: seq<int>, now: int) {
    forall i :: 0 <= i < |admits| ==>
      (|admits| - i + 1) * q.duration <= q.max * (q.duration + now - admits[i])
  }

  /** The inequality of the whole list, which is also that of each suffix taken by itself. */
  lemma DebtLeavesRoom(q: Quota, admits: seq<int>, now: int)
    requires admits != []
    ensures (|admits| + 1) * q.duration <= q.max * (q.duration + now - admits[0])
      <==> Debt(q, admits, now) + q.duration <= Capacity(q)
  {
    TimesIsProduct(|admits|, q.duration);
    TimesIsProduct(now - admits[0], q.max);
    TimesIsProduct(q.duration, q.max);
  }

  lemma OneFits(q: Quota)
    ensures q.duration <= Capacity(q)
  {
    TimesIsProduct(q.duration, q.max);
    Scale(q.duration, 1, q.max);
  }

  lemma {:induction false} PeakDebtLeavesRoom(q: Quota, admits: seq<int>, now: int)
    ensures PeakDebt(q, admits, now) + q.duration <= Capacity(q) <==> EverySuffixFits(q, admits, now)
  {
    OneFits(q);
    if admits != [] {
      PeakDebtLeavesRoom(q, admits[1..], now);
      DebtLeavesRoom(q, admits, now);
      hide Debt, Capacity;
      SuffixesOfRest(q, admits, now);
    }
  }

  lemma SuffixesOfRest(q: Quota, admits: seq<int>, now: int)
    requires admits != []
    ensures EverySuffixFits(q, admits, now) <==>
      && (|admits| + 1) * q.duration <= q.max * (q.duration + now - admits[0])
      && EverySuffixFits(q, admits[1..], now)
  {
    var rest := admits[1..];
    if EverySuffixFits(q, admits, now) {
      forall i | 0 <= i < |rest|
        ensures (|rest| - i + 1) * q.duration <= q.max * (q.duration + now - rest[i])
      {
        assert rest[i] == admits[i + 1];
      }
    }
    if EverySuffixFits(q, rest, now) && (|admits| + 1) * q.duration <= q.max * (q.duration + now - admits[0]) {
      forall i | 0 <= i < |admits|
        ensures (|admits| - i + 1) * q.duration <= q.max * (q.duration + now - admits[i])
      {
        if i > 0 {
          assert rest[i - 1] == admits[i];
        }
      }
    }
  }

  /**
   * A request is admitted exactly when every suffix of the earlier admits, together with the
   * new request, fits into the burst plus what leaked since the suffix began.
   */
  lemma {:induction false} AdmitExact(q: Quota, ts: seq<int>, now: int)
    requires Monotone(ts + [now])
    ensures Attempt(LeakyBucket, q, Replay(LeakyBucket, q, ts), now).Some?
      <==> EverySuffixFits(q, Admits(LeakyBucket, q, ts), now)
  {
    LevelExact(q, ts, now);
    PeakDebtLeavesRoom(q, Admits(LeakyBucket, q, ts), now);
  }

  lemma SuffixSpread(q: Quota, earlier: seq<int>, t: int, i: nat)
    requires EverySuffixFits(q, earlier, t) && i <= |earlier|
    ensures (|earlier| - i + 1) * q.duration <= q.max * (q.duration + t - (earlier + [t])[i])
  {
    Scale(q.duration, 1, q.max);
  }

  /** Any run of consecutive admits fits into the burst plus what leaks while it lasts. */
  lemma {:induction false} AdmitsSpread(q: Quota, ts: seq<int>, i: nat, j: nat)
    requires Monotone(ts)
    requires i <= j < |Admits(LeakyBucket, q, ts)|
    ensures var admits := Admits(LeakyBucket, q, ts);
      (j - i + 1) * q.duration <= q.max * (q.duration + admits[j] - admits[i])
  {
    var n := |ts| - 1;
    var front := ts[..n];
    assert front + [ts[n]] == ts;
    var earlier := Admits(LeakyBucket, q, front);
    LastRequest(LeakyBucket, q, front, ts[n]);
    if j < |earlier| {
      AdmitsSpread(q, front, i, j);
    } else {
      AdmitExact(q, front, ts[n]);
      SuffixSpread(q, earlier, ts[n], i);
    }
  }

  /** Over time: n admits inside any closed interval [a, b] satisfy n*d <= m*(d + b - a). */
  lemma {:induction false} IntervalBound(q: Quota, ts: seq<int>, a: int, b: int)
    requires Monotone(ts) && a <= b
    ensures CountIn(Admits(LeakyBucket, q, ts), a, b) * q.duration <= q.max * (q.duration + b - a)
  {
    var admits := Admits(LeakyBucket, q, ts);
    AdmitsMonotone(LeakyBucket, q, ts);
    if CountIn(admits, a, b) >= 1 {
      var i, j := CountInIsRun(admits, a, b);
      AdmitsSpread(q, ts, i, j);
      Scale(q.max, q.duration + admits[j] - admits[i], q.duration + b - a);
    } else {
      Scale(q.max, 0, q.duration + b - a);
    }
  }

  lemma LeaksMore(q: Quota, a: int, b: int)
    requires a <= b
    ensures Leak(q, a) <= Leak(q, b)
  {
    LeaksAdd(q, a, b - a);
    LeakNonNegative(q, a, b);
  }

  lemma Scale(m: nat, x: int, y: int)
    requires x <= y
    ensures m * x <= m * y
  {}
}
