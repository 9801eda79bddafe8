/** What SimpleRate guarantees over every history with a clock that does not run backwards. */
module SimpleRateLaws {
  import opened Wrappers
  import opened RateLimit

  // ---- Which window a request falls into, without looking at the limiter's state ----

  /**
   * The index of the request that opened the window in which the last request falls: a request
   * opens a new window when the one before it has lasted its full duration.
   */
  function Opener(q: Quota, ts: seq<int>): nat
    requires ts != []
    ensures Opener(q, ts) < |ts|
  {
    var n := |ts| - 1;
    if n == 0 then 0
    else
      var opener := Opener(q, ts[..n]);
      if ts[opener] + q.duration <= ts[n] then n else opener
  }

  /** How many requests, admitted or not, the window of the last request has seen, the last one included. */
  function Rank(q: Quota, ts: seq<int>): nat
    requires ts != []
  {
    |ts| - Opener(q, ts)
  }

  /** The state in closed form: the end of the current window and its number of requests, cut off at the limit. */
  lemma {:induction false} WindowState(q: Quota, ts: seq<int>)
    requires ts != []
    ensures Replay(SimpleRate, q, ts)
      == Some(Snapshot(if Rank(q, ts) < q.max then Rank(q, ts) else q.max, ts[Opener(q, ts)] + q.duration))
  {
    var n := |ts| - 1;
    if n > 0 {
      WindowState(q, ts[..n]);
    }
  }

  /** A request is admitted exactly when it is among the first `max_requests` requests of its window. */
  lemma {:induction false} AdmitExact(q: Quota, ts: seq<int>, now: int)
    ensures Attempt(SimpleRate, q, Replay(SimpleRate, q, ts), now).Some? <==> Rank(q, ts + [now]) <= q.max
  {
    assert (ts + [now])[..|ts|] == ts;
    if ts != [] {
      WindowState(q, ts);
    }
  }

  // ---- Windows of the admitted requests ----

  /** The start of the window into which each admitted request was counted. */
  function Starts(q: Quota, ts: seq<int>): seq<int> {
    if ts == [] then []
    else
      var n := |ts| - 1;
      var after := Attempt(SimpleRate, q, Replay(SimpleRate, q, ts[..n]), ts[n]);
      Starts(q, ts[..n]) + if after.Some? then [after.value.time - q.duration] else []
  }

  /**
   * `starts` are windows of at least one duration each, every admit lies in its window, a window
   * holds at most `max_requests` admits, and the last `count` admits are those of the window `open`.
   */
  ghost predicate Windows(q: Quota, starts: seq<int>, admits: seq<int>, count: nat, open: int) {
    && |starts| == |admits|
    && count <= q.max && count <= |starts|
    && (forall i :: 0 <= i < |starts| ==> starts[i] <= admits[i] < starts[i] + q.duration)
    && (forall i :: |starts| - count <= i < |starts| ==> starts[i] == open)
    && (forall i :: 0 <= i < |starts| - count ==> starts[i] + q.duration <= open)
    && (forall i, j :: 0 <= i < j < |starts| ==> starts[i] == starts[j] || starts[i] + q.duration <= starts[j])
    && (forall i, j :: 0 <= i && i + q.max <= j < |starts| ==> starts[i] + q.duration <= starts[j])
  }

  lemma WindowsGrow(q: Quota, starts: seq<int>, admits: seq<int>, count: nat, open: int, now: int)
    requires Windows(q, starts, admits, count, open)
    requires count < q.max && open <= now < open + q.duration
    ensures Windows(q, starts + [open], admits + [now], count + 1, open)
  {
    var more := starts + [open];
    forall i, j | 0 <= i && i + q.max <= j < |more|
      ensures more[i] + q.duration <= more[j]
    {
      if j == |starts| {
        assert i < |starts| - count;
      }
    }
  }

  lemma WindowsOpen(q: Quota, starts: seq<int>, admits: seq<int>, count: nat, open: int, now: int)
    requires Windows(q, starts, admits, count, open) && count >= 1
    requires open + q.duration <= now
    ensures Windows(q, starts + [now], admits + [now], 1, now)
  {}

  lemma WindowsFirst(q: Quota, now: int)
    ensures Windows(q, [now], [now], 1, now)
  {}

  /** The stored state describes the last window of the admits. */
  ghost predicate Kept(q: Quota, cached: Option<Snapshot>, starts: seq<int>, admits: seq<int>) {
    match cached
    case None => starts == [] && admits == []
    case Some(state) => state.amount >= 1 && Windows(q, starts, admits, state.amount, state.time - q.duration)
  }

  lemma AttemptCounts(q: Quota, cached: Option<Snapshot>, now: int)
    ensures Attempt(SimpleRate, q, cached, now)
      == if cached.None? || cached.value.time <= now then Some(Snapshot(1, now + q.duration))
         else if cached.value.amount < q.max then Some(cached.value.(amount := cached.value.amount + 1))
         else None
  {}

  lemma KeptByRequest(q: Quota, cached: Option<Snapshot>, starts: seq<int>, admits: seq<int>, now: int)
    requires Kept(q, cached, starts, admits)
    requires cached.Some? ==> cached.value.time - q.duration <= now
    ensures var after := Attempt(SimpleRate, q, cached, now);
      after.Some? ==>
      && after.value.time - q.duration <= now
      && Kept(q, after, starts + [after.value.time - q.duration], admits + [now])
  {
    hide Attempt, Current, Full, Windows;
    AttemptCounts(q, cached, now);
    if cached.None? {
      WindowsFirst(q, now);
      assert starts + [now] == [now] == admits + [now];
    } else {
      var open := cached.value.time - q.duration;
      if cached.value.time <= now {
        WindowsOpen(q, starts, admits, cached.value.amount, open, now);
      } else if cached.value.amount < q.max {
        WindowsGrow(q, starts, admits, cached.value.amount, open, now);
      }
    }
  }

  lemma LastStart(q: Quota, ts: seq<int>, t: int)
    ensures var after := Attempt(SimpleRate, q, Replay(SimpleRate, q, ts), t);
      Starts(q, ts + [t])
      == if after.Some? then Starts(q, ts) + [after.value.time - q.duration] else Starts(q, ts)
  {
    hide Attempt, Replay;
    assert (ts + [t])[..|ts|] == ts;
  }

  lemma {:induction false} WindowsKept(q: Quota, ts: seq<int>, now: int)
    requires Monotone(ts + [now])
    ensures Kept(q, Replay(SimpleRate, q, ts), Starts(q, ts), Admits(SimpleRate, q, ts))
    ensures var cached := Replay(SimpleRate, q, ts); cached.Some? ==> cached.value.time - q.duration <= now
  {
    if ts != [] {
      var front, t := ts[..|ts| - 1], ts[|ts| - 1];
      assert front + [t] == ts && t in ts;
      MonotoneFront(ts, now);
      WindowsKept(q, front, t);
      WindowsAppend(q, front, t);
    }
  }

  lemma WindowsAppend(q: Quota, ts: seq<int>, t: int)
    requires Kept(q, Replay(SimpleRate, q, ts), Starts(q, ts), Admits(SimpleRate, q, ts))
    requires var cached := Replay(SimpleRate, q, ts); cached.Some? ==> cached.value.time - q.duration <= t
    ensures Kept(q, Replay(SimpleRate, q, ts + [t]), Starts(q, ts + [t]), Admits(SimpleRate, q, ts + [t]))
    ensures var cached := Replay(SimpleRate, q, ts + [t]); cached.Some? ==> cached.value.time - q.duration <= t
  {
    hide *;
    LastRequest(SimpleRate, q, ts, t);
    LastStart(q, ts, t);
    KeptByRequest(q, Replay(SimpleRate, q, ts), Starts(q, ts), Admits(SimpleRate, q, ts), t);
  }

  lemma OneMore(k: nat, m: nat)
    requires k > 0
    ensures k * m == (k - 1) * m + m && (k - 1) * m >= 0
  {}

  /** Entries that are k full windows apart belong to windows that start k durations apart. */
  lemma {:induction false} StartsSpread(q: Quota, starts: seq<int>, i: nat, k: nat, far: int)
    requires forall i, j :: 0 <= i < j < |starts| ==> starts[i] == starts[j] || starts[i] + q.duration <= starts[j]
    requires forall i, j :: 0 <= i < j < |starts| && starts[i] == starts[j] ==> j - i < q.max
    requires far == i + k * q.max && i <= far < |starts|
    ensures starts[i] + k * q.duration <= starts[far]
  {
    if k > 0 {
      var near := far - q.max;
      OneMore(k, q.max);
      OneMore(k, q.duration);
      StartsSpread(q, starts, i, k - 1, near);
      assert starts[near] + q.duration <= starts[far];
    }
  }

  /** The windows themselves: at most `max_requests` admits each, and their starts at least one duration apart. */
  lemma {:induction false} WindowLaws(q: Quota, ts: seq<int>)
    requires Monotone(ts)
    ensures WindowsApart(q, Starts(q, ts), Admits(SimpleRate, q, ts))
  {
    if ts != [] {
      var front, t := ts[..|ts| - 1], ts[|ts| - 1];
      assert front + [t] == ts;
      WindowsKept(q, front, t);
      WindowsAppend(q, front, t);
    }
  }

  ghost predicate WindowsApart(q: Quota, starts: seq<int>, admits: seq<int>) {
    && |starts| == |admits|
    && (forall i :: 0 <= i < |starts| ==> starts[i] <= admits[i] < starts[i] + q.duration)
    && (forall i, j :: 0 <= i < j < |starts| ==> starts[i] == starts[j] || starts[i] + q.duration <= starts[j])
    && (forall i, j :: 0 <= i < j < |starts| && starts[i] == starts[j] ==> j - i < q.max)
  }

  /**
   * The worst that the window boundaries allow: admits that are (k+1)*max places apart are more
   * than k durations apart.
   */
  lemma {:induction false} AdmitsSpread(q: Quota, starts: seq<int>, admits: seq<int>, i: nat, j: nat, k: nat)
    requires WindowsApart(q, starts, admits) && i + (k + 1) * q.max <= j < |admits|
    ensures admits[j] - admits[i] > k * q.duration
  {
    var far := i + (k + 1) * q.max;
    OneMore(k + 1, q.max);
    OneMore(k + 1, q.duration);
    StartsSpread(q, starts, i, k + 1, far);
    assert starts[far] <= starts[j];
  }

  /** Any closed interval of k durations contains at most (k+1)*max admits. */
  lemma {:induction false} IntervalBound(q: Quota, ts: seq<int>, a: int, k: nat)
    requires Monotone(ts)
    ensures CountIn(Admits(SimpleRate, q, ts), a, a + k * q.duration) <= (k + 1) * q.max
  {
    hide *;
    var admits := Admits(SimpleRate, q, ts);
    AdmitsMonotone(SimpleRate, q, ts);
    WindowLaws(q, ts);
    if CountIn(admits, a, a + k * q.duration) > (k + 1) * q.max {
      assert (k + 1) * q.max >= 0;
      var i, j := CountInIsRun(admits, a, a + k * q.duration);
      AdmitsSpread(q, Starts(q, ts), admits, i, j, k);
    }
  }
}
