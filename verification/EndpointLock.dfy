/**
 * Threads that throttle on endpoints. Every endpoint has a lock of its own. A request takes the lock
 * of its endpoint, reads the cache, runs the algorithm, writes the cache and releases the lock; a
 * denial raises inside the lock and releases it on the way out. The cache belongs to all endpoints,
 * and the steps of different threads interleave freely.
 */
module EndpointLock {
  import opened Wrappers
  import opened RateLimit
  import opened ThrottleBackends
  import opened DecisionLog
  import BackendLaws
  import LeakyBucketLaws

  type ThreadId = nat
  type EndpointId = nat

  /** One request at one lock. */
  datatype Turn = Turn(thread: ThreadId, endpoint: EndpointId, slot: Slot)

  /** How far a thread is with its current request. */
  datatype Progress =
    | Outside
    | Locked(turn: Turn)
    | HasRead(turn: Turn, seen: Option<Snapshot>)
    | HasComputed(turn: Turn, now: int, result: Snapshot)
    | Leaving(turn: Turn, decision: Decision)

  /**
   * The `decided` log tells what was decided, in the order in which it took effect, and `served` for
   * whom; `acquired` and `released` tell who took and who gave back a lock.
   */
  datatype World = World(
    clock: int,
    holders: map<EndpointId, ThreadId>,
    threads: map<ThreadId, Progress>,
    cache: map<Slot, Timed>,
    decided: seq<Decision>,
    served: seq<Turn>,
    acquired: seq<Turn>,
    released: seq<Turn>)

  datatype Step =
    | Tick(clock: int)
    | Acquire(turn: Turn)
    | Get(thread: ThreadId, lingers: bool)
    | Access(thread: ThreadId)
    | Write(thread: ThreadId)
    | Release(thread: ThreadId)

  /** Which endpoints throttle by which keys. */
  type Uses = (EndpointId, Slot) -> bool

  function ProgressOf(w: World, thread: ThreadId): Progress {
    if thread in w.threads then w.threads[thread] else Outside
  }

  /** A lock is only handed out when it is free; all other steps follow the thread's own order. */
  predicate Enabled(uses: Uses, w: World, step: Step) {
    match step
    case Tick(clock) => w.clock <= clock
    case Acquire(turn) =>
      ProgressOf(w, turn.thread).Outside? && turn.endpoint !in w.holders && uses(turn.endpoint, turn.slot)
    case Get(thread, _) => ProgressOf(w, thread).Locked?
    case Access(thread) => ProgressOf(w, thread).HasRead?
    case Write(thread) => ProgressOf(w, thread).HasComputed?
    case Release(thread) => ProgressOf(w, thread).Leaving?
  }

  function Apply(uses: Uses, w: World, step: Step): World
    requires Enabled(uses, w, step)
  {
    match step
    case Tick(clock) => w.(clock := clock)
    case Acquire(turn) =>
      w.(holders := w.holders[turn.endpoint := turn.thread],
         threads := w.threads[turn.thread := Locked(turn)],
         acquired := w.acquired + [turn])
    case Get(thread, lingers) =>
      var turn := ProgressOf(w, thread).turn;
      w.(threads := w.threads[thread := HasRead(turn, Visible(Lookup(w.cache, turn.slot), w.clock, lingers))])
    case Access(thread) =>
      var HasRead(turn, seen) := ProgressOf(w, thread);
      (match Attempt(turn.slot.alg, turn.slot.quota, seen, w.clock)
       case Some(result) => w.(threads := w.threads[thread := HasComputed(turn, w.clock, result)])
       case None => Decided(w, turn, Decision(turn.slot, w.clock, false)))
    case Write(thread) =>
      var HasComputed(turn, now, result) := ProgressOf(w, thread);
      Decided(w, turn, Decision(turn.slot, now, true)).(
        cache := w.cache[turn.slot := Timed(result, w.clock + turn.slot.quota.duration)])
    case Release(thread) =>
      var turn := ProgressOf(w, thread).turn;
      w.(holders := w.holders - {turn.endpoint},
         threads := w.threads[thread := Outside],
         released := w.released + [turn])
  }

  function Decided(w: World, turn: Turn, d: Decision): World {
    w.(threads := w.threads[turn.thread := Leaving(turn, d)],
       decided := w.decided + [d],
       served := w.served + [turn])
  }

  function Idle(start: int): World {
    World(start, map[], map[], map[], [], [], [], [])
  }

  /** A run from idle endpoints with an empty cache. */
  ghost predicate Reaches(uses: Uses, start: int, steps: seq<Step>, w: World) {
    if steps == [] then w == Idle(start)
    else
      var n := |steps| - 1;
      exists before :: Reaches(uses, start, steps[..n], before) && Enabled(uses, before, steps[n])
        && w == Apply(uses, before, steps[n])
  }

  // ---- What the locks keep by themselves ----

  /** The turns at one lock. */
  function At(turns: seq<Turn>, endpoint: EndpointId): seq<Turn> {
    if turns == [] then []
    else
      var last := turns[|turns| - 1];
      At(turns[..|turns| - 1], endpoint) + if last.endpoint == endpoint then [last] else []
  }

  lemma AtAppend(turns: seq<Turn>, turn: Turn, endpoint: EndpointId)
    ensures At(turns + [turn], endpoint)
      == if turn.endpoint == endpoint then At(turns, endpoint) + [turn] else At(turns, endpoint)
  {
    assert (turns + [turn])[..|turns|] == turns;
  }

  /** Who is inside, at this lock. */
  function Inside(w: World, endpoint: EndpointId): Progress {
    if endpoint in w.holders then ProgressOf(w, w.holders[endpoint]) else Outside
  }

  ghost predicate Excluded(uses: Uses, w: World) {
    && (forall thread: ThreadId :: var p := ProgressOf(w, thread);
          p.Outside? || (p.turn.thread == thread && p.turn.endpoint in w.holders
                         && w.holders[p.turn.endpoint] == thread && uses(p.turn.endpoint, p.turn.slot)))
    && (forall endpoint <- w.holders :: !Inside(w, endpoint).Outside? && Inside(w, endpoint).turn.endpoint == endpoint)
  }

  /** Turns are served in the order in which the lock was taken, and given back in that order. */
  ghost predicate InOrder(w: World) {
    && |w.served| == |w.decided|
    && (forall i :: 0 <= i < |w.served| ==> w.served[i].slot == w.decided[i].slot)
    && (forall endpoint: EndpointId :: TurnsAt(w, endpoint))
  }

  predicate TurnsAt(w: World, endpoint: EndpointId) {
    var p := Inside(w, endpoint);
    && At(w.acquired, endpoint) == At(w.served, endpoint) + (if p.Outside? || p.Leaving? then [] else [p.turn])
    && At(w.served, endpoint) == At(w.released, endpoint) + (if p.Leaving? then [p.turn] else [])
  }

  lemma {:induction false} StepExcludes(uses: Uses, w: World, step: Step)
    requires Excluded(uses, w) && Enabled(uses, w, step)
    ensures Excluded(uses, Apply(uses, w, step))
  {
    hide Attempt, Visible;
    var after := Apply(uses, w, step);
    match step
    case Tick(_) =>
      assert forall thread: ThreadId :: ProgressOf(after, thread) == ProgressOf(w, thread);
    case Acquire(turn) =>
      assert forall thread: ThreadId :: thread != turn.thread ==> ProgressOf(after, thread) == ProgressOf(w, thread);
      assert forall endpoint <- w.holders :: Inside(after, endpoint) == Inside(w, endpoint);
      assert Inside(after, turn.endpoint) == Locked(turn);
    case Release(thread) =>
      assert forall other: ThreadId :: other != thread ==> ProgressOf(after, other) == ProgressOf(w, other);
      assert forall endpoint <- after.holders :: Inside(after, endpoint) == Inside(w, endpoint);
    case _ =>
      TurnIsMine(uses, w, step.thread);
      hide Excluded;
      assert forall other: ThreadId :: other != step.thread ==> ProgressOf(after, other) == ProgressOf(w, other);
      assert Excluded(uses, after);
  }

  /** A step changes who is inside at the lock of its turn, and at no other. */
  ghost predicate InsideChanges(w: World, step: Step, world: World, endpoint: EndpointId) {
    var p, after := Inside(w, endpoint), Inside(world, endpoint);
    match step
    case Tick(_) => after == p
    case Acquire(turn) => if turn.endpoint == endpoint then p.Outside? && after == Locked(turn) else after == p
    case _ =>
      var mine, next := ProgressOf(w, step.thread), ProgressOf(world, step.thread);
      !mine.Outside? &&
      if mine.turn.endpoint != endpoint then after == p
      else p == mine && (if step.Release? then after.Outside? else after == next)
  }

  lemma StepInside(uses: Uses, w: World, step: Step, endpoint: EndpointId)
    requires Excluded(uses, w) && Enabled(uses, w, step)
    ensures InsideChanges(w, step, Apply(uses, w, step), endpoint)
  {
    hide Attempt, Visible;
  }

  lemma TurnsKept(uses: Uses, w: World, step: Step, endpoint: EndpointId)
    requires Excluded(uses, w) && Enabled(uses, w, step) && TurnsAt(w, endpoint)
    ensures TurnsAt(Apply(uses, w, step), endpoint)
  {
    hide Attempt, Visible, Inside, At;
    StepInside(uses, w, step, endpoint);
    hide Excluded;
    match step
    case Tick(_) =>
    case Acquire(turn) => AtAppend(w.acquired, turn, endpoint);
    case Get(thread, _) =>
    case Access(thread) => AtAppend(w.served, ProgressOf(w, thread).turn, endpoint);
    case Write(thread) => AtAppend(w.served, ProgressOf(w, thread).turn, endpoint);
    case Release(thread) => AtAppend(w.released, ProgressOf(w, thread).turn, endpoint);
  }

  lemma {:induction false} StepOrders(uses: Uses, w: World, step: Step)
    requires Excluded(uses, w) && InOrder(w) && Enabled(uses, w, step)
    ensures InOrder(Apply(uses, w, step))
  {
    hide Attempt, Visible, Excluded, TurnsAt, Inside;
    forall endpoint: EndpointId
      ensures TurnsAt(Apply(uses, w, step), endpoint)
    {
      assert TurnsAt(w, endpoint);
      TurnsKept(uses, w, step, endpoint);
    }
  }

  // ---- What the locks protect ----

  /** No key is used by two endpoints. */
  ghost predicate Disjoint(uses: Uses) {
    forall a, b, slot | uses(a, slot) && uses(b, slot) :: a == b
  }

  ghost predicate Ordered(decided: seq<Decision>, now: int) {
    forall slot :: Monotone(TimesOf(decided, slot) + [now])
  }

  /** What a thread knows inside a lock agrees with the sequential state of its key. */
  ghost predicate Knows(clock: int, decided: seq<Decision>, p: Progress) {
    match p
    case HasRead(turn, seen) =>
      forall now :: clock <= now ==>
        Current(turn.slot.alg, turn.slot.quota, seen, now)
        == Current(turn.slot.alg, turn.slot.quota, StateOf(decided, turn.slot), now)
    case HasComputed(turn, now, result) =>
      && now <= clock
      && Monotone(TimesOf(decided, turn.slot) + [now])
      && Attempt(turn.slot.alg, turn.slot.quota, StateOf(decided, turn.slot), now) == Some(result)
    case _ => true
  }

  ghost predicate AllKnow(w: World) {
    forall thread: ThreadId :: Knows(w.clock, w.decided, ProgressOf(w, thread))
  }

  ghost predicate CacheAgrees(cache: map<Slot, Timed>, decided: seq<Decision>) {
    forall slot: Slot ::
      BackendLaws.Holds(slot.alg, slot.quota, Lookup(cache, slot), StateOf(decided, slot))
  }

  /** The decisions are those of a sequential run, and the cache holds what that run stored. */
  ghost predicate Linearized(w: World) {
    Sequential(w.decided) && CacheAgrees(w.cache, w.decided)
  }

  ghost predicate Inv(uses: Uses, w: World) {
    && Excluded(uses, w)
    && Linearized(w)
    && Ordered(w.decided, w.clock)
    && AllKnow(w)
  }

  /** A decision about one key does not touch what is known about the others. */
  lemma StillKnows(clock: int, decided: seq<Decision>, p: Progress, d: Decision)
    requires Knows(clock, decided, p) && (p.Outside? || p.turn.slot != d.slot)
    ensures Knows(clock, decided + [d], p)
  {
    hide Current, Attempt, StateOf, TimesOf, Monotone;
    if !p.Outside? {
      TimesAppend(decided, d, p.turn.slot);
      StateAfter(decided, d, p.turn.slot);
    }
  }

  /** Two threads inside two locks have different keys. */
  lemma KeysApart(uses: Uses, w: World, a: ThreadId, b: ThreadId)
    requires Disjoint(uses) && Excluded(uses, w) && a != b
    requires !ProgressOf(w, a).Outside? && !ProgressOf(w, b).Outside?
    ensures ProgressOf(w, a).turn.slot != ProgressOf(w, b).turn.slot
  {}

  lemma TurnIsMine(uses: Uses, w: World, thread: ThreadId)
    requires Excluded(uses, w) && !ProgressOf(w, thread).Outside?
    ensures ProgressOf(w, thread).turn.thread == thread
  {}

  /** So a thread may decide while others are inside other locks. */
  lemma DecideKeeps(uses: Uses, w: World, thread: ThreadId, d: Decision, after: World)
    requires Disjoint(uses) && Excluded(uses, w) && AllKnow(w)
    requires !ProgressOf(w, thread).Outside? && ProgressOf(w, thread).turn.slot == d.slot
    requires after.clock == w.clock && after.decided == w.decided + [d] && ProgressOf(after, thread).Leaving?
    requires forall other: ThreadId :: other != thread ==> ProgressOf(after, other) == ProgressOf(w, other)
    ensures AllKnow(after)
  {
    hide Excluded, Disjoint, Knows;
    forall other: ThreadId
      ensures Knows(after.clock, after.decided, ProgressOf(after, other))
    {
      if other == thread {
        NothingToKnow(after.clock, after.decided, ProgressOf(after, other));
      } else {
        if !ProgressOf(w, other).Outside? {
          KeysApart(uses, w, thread, other);
        }
        StillKnows(w.clock, w.decided, ProgressOf(w, other), d);
      }
    }
  }

  lemma NothingToKnow(clock: int, decided: seq<Decision>, p: Progress)
    requires p.Leaving? || p.Outside? || p.Locked?
    ensures Knows(clock, decided, p)
  {}

  lemma OrderedAt(decided: seq<Decision>, now: int, slot: Slot)
    requires Ordered(decided, now)
    ensures Monotone(TimesOf(decided, slot) + [now])
  {}

  lemma OrderedAppend(decided: seq<Decision>, d: Decision, now: int)
    requires Ordered(decided, now) && Monotone(TimesOf(decided, d.slot) + [d.now]) && d.now <= now
    ensures Ordered(decided + [d], now)
  {
    hide Monotone, TimesOf;
    forall slot
      ensures Monotone(TimesOf(decided + [d], slot) + [now])
    {
      TimesAppend(decided, d, slot);
      if slot == d.slot {
        MonotoneLater(TimesOf(decided, slot), d.now, now);
      }
    }
  }

  lemma {:induction false} GetKeeps(uses: Uses, w: World, thread: ThreadId, lingers: bool)
    requires Inv(uses, w) && Enabled(uses, w, Get(thread, lingers))
    ensures Inv(uses, Apply(uses, w, Get(thread, lingers)))
  {
    hide Current, StateOf, Sequential, BackendLaws.Holds, Excluded, Ordered, Attempt, Monotone, TimesOf;
    StepExcludes(uses, w, Get(thread, lingers));
    var slot := ProgressOf(w, thread).turn.slot;
    var entry := Lookup(w.cache, slot);
    var seen := Visible(entry, w.clock, lingers);
    assert BackendLaws.Holds(slot.alg, slot.quota, entry, StateOf(w.decided, slot));
    forall now | w.clock <= now
      ensures Current(slot.alg, slot.quota, seen, now) == Current(slot.alg, slot.quota, StateOf(w.decided, slot), now)
    {
      BackendLaws.VisibleEnough(slot.alg, slot.quota, entry, StateOf(w.decided, slot), w.clock, lingers, now);
    }
    hide Visible;
    var after := Apply(uses, w, Get(thread, lingers));
    assert forall other: ThreadId :: other != thread ==> ProgressOf(after, other) == ProgressOf(w, other);
  }

  /** Attempts look at the cached state only through what is current. */
  lemma AttemptByCurrent(alg: Algorithm, q: Quota, a: Option<Snapshot>, b: Option<Snapshot>, now: int)
    requires Current(alg, q, a, now) == Current(alg, q, b, now)
    ensures Attempt(alg, q, a, now) == Attempt(alg, q, b, now)
  {
    hide Current, Full;
  }

  lemma {:induction false} AccessKeeps(uses: Uses, w: World, thread: ThreadId)
    requires Disjoint(uses) && Inv(uses, w) && Enabled(uses, w, Access(thread))
    ensures Inv(uses, Apply(uses, w, Access(thread)))
  {
    hide Current, StateOf, Sequential, BackendLaws.Holds, Attempt, Excluded, Ordered, Monotone, TimesOf, Disjoint;
    StepExcludes(uses, w, Access(thread));
    TurnIsMine(uses, w, thread);
    var p := ProgressOf(w, thread);
    var slot := p.turn.slot;
    assert Knows(w.clock, w.decided, p);
    AttemptByCurrent(slot.alg, slot.quota, p.seen, StateOf(w.decided, slot), w.clock);
    OrderedAt(w.decided, w.clock, slot);
    var after := Apply(uses, w, Access(thread));
    assert forall other: ThreadId :: other != thread ==> ProgressOf(after, other) == ProgressOf(w, other);
    if Attempt(slot.alg, slot.quota, p.seen, w.clock).None? {
      var d := Decision(slot, w.clock, false);
      SequentialAppend(w.decided, d);
      OrderedAppend(w.decided, d, w.clock);
      assert CacheAgrees(w.cache, w.decided + [d]) by {
        hide Attempt, StateOf, BackendLaws.Holds;
        forall slot: Slot
          ensures StateOf(w.decided + [d], slot) == StateOf(w.decided, slot)
        {
          StateAfter(w.decided, d, slot);
        }
      }
      hide CacheAgrees, Knows;
      DecideKeeps(uses, w, thread, d, after);
    }
  }

  lemma {:induction false} WriteKeeps(uses: Uses, w: World, thread: ThreadId)
    requires Disjoint(uses) && Inv(uses, w) && Enabled(uses, w, Write(thread))
    ensures Inv(uses, Apply(uses, w, Write(thread)))
  {
    hide Current, StateOf, Sequential, BackendLaws.Holds, Attempt, Excluded, Ordered, Monotone, TimesOf, Disjoint;
    StepExcludes(uses, w, Write(thread));
    TurnIsMine(uses, w, thread);
    var p := ProgressOf(w, thread);
    assert Knows(w.clock, w.decided, p);
    var d := Decision(p.turn.slot, p.now, true);
    var after := Apply(uses, w, Write(thread));
    assert forall other: ThreadId :: other != thread ==> ProgressOf(after, other) == ProgressOf(w, other);
    SequentialAppend(w.decided, d);
    OrderedAppend(w.decided, d, w.clock);
    WriteKeepsCache(w.cache, w.decided, d, p.result, w.clock + d.slot.quota.duration);
    hide CacheAgrees, Knows;
    DecideKeeps(uses, w, thread, d, after);
  }

  lemma WriteKeepsCache(cache: map<Slot, Timed>, decided: seq<Decision>, d: Decision, result: Snapshot, expires: int)
    requires CacheAgrees(cache, decided)
    requires Monotone(TimesOf(decided, d.slot) + [d.now]) && d.now + d.slot.quota.duration <= expires
    requires Attempt(d.slot.alg, d.slot.quota, StateOf(decided, d.slot), d.now) == Some(result)
    ensures CacheAgrees(cache[d.slot := Timed(result, expires)], decided + [d])
  {
    hide Current, Attempt, BackendLaws.Sane, TimesOf, Replay, BackendLaws.Holds, Monotone;
    WrittenHolds(decided, d, result, expires);
    hide StateOf;
    forall slot: Slot
      ensures BackendLaws.Holds(slot.alg, slot.quota,
        Lookup(cache[d.slot := Timed(result, expires)], slot), StateOf(decided + [d], slot))
    {
      assert BackendLaws.Holds(slot.alg, slot.quota, Lookup(cache, slot), StateOf(decided, slot));
      StateAfter(decided, d, slot);
    }
  }

  lemma WrittenHolds(decided: seq<Decision>, d: Decision, result: Snapshot, expires: int)
    requires Monotone(TimesOf(decided, d.slot) + [d.now]) && d.now + d.slot.quota.duration <= expires
    requires Attempt(d.slot.alg, d.slot.quota, StateOf(decided, d.slot), d.now) == Some(result)
    ensures BackendLaws.Holds(d.slot.alg, d.slot.quota, Some(Timed(result, expires)), StateOf(decided + [d], d.slot))
  {
    hide Current, Attempt, BackendLaws.Sane, TimesOf, Replay;
    BackendLaws.ReplaySane(d.slot.alg, d.slot.quota, TimesOf(decided, d.slot), d.now);
    BackendLaws.WrittenIsSpent(d.slot.alg, d.slot.quota, StateOf(decided, d.slot), d.now, expires);
    StateAfter(decided, d, d.slot);
  }

  lemma {:induction false} StepKeeps(uses: Uses, w: World, step: Step)
    requires Disjoint(uses) && Inv(uses, w) && Enabled(uses, w, step)
    ensures Inv(uses, Apply(uses, w, step))
  {
    match step
    case Get(thread, lingers) => GetKeeps(uses, w, thread, lingers);
    case Access(thread) => AccessKeeps(uses, w, thread);
    case Write(thread) => WriteKeeps(uses, w, thread);
    case _ =>
      hide Current, StateOf, Sequential, BackendLaws.Holds, Attempt, Excluded, Ordered, Monotone, TimesOf, Disjoint;
      StepExcludes(uses, w, step);
      var after := Apply(uses, w, step);
      assert Ordered(w.decided, after.clock) by {
        hide Monotone, TimesOf;
        forall slot
          ensures Monotone(TimesOf(w.decided, slot) + [after.clock])
        {
          MonotoneLater(TimesOf(w.decided, slot), w.clock, after.clock);
        }
      }
      assert forall thread: ThreadId ::
        ProgressOf(after, thread) == ProgressOf(w, thread)
        || ProgressOf(after, thread).Locked? || ProgressOf(after, thread).Outside?;
  }

  // ---- Results ----

  lemma IdleKeeps(uses: Uses, start: int)
    ensures Inv(uses, Idle(start)) && InOrder(Idle(start))
  {
    var empty: seq<Decision> := [];
    assert forall slot :: TimesOf(empty, slot) == [];
  }

  /** The locks do their work whatever the keys: at every lock, turns are served in the order in which it was taken. */
  lemma {:induction false} RunOrders(uses: Uses, start: int, steps: seq<Step>, w: World)
    requires Reaches(uses, start, steps, w)
    ensures Excluded(uses, w) && InOrder(w)
  {
    hide Excluded, InOrder;
    if steps == [] {
      IdleKeeps(uses, start);
      InvExcludes(uses, w);
    } else {
      var n := |steps| - 1;
      var before :| Reaches(uses, start, steps[..n], before) && Enabled(uses, before, steps[n])
        && w == Apply(uses, before, steps[n]);
      RunOrders(uses, start, steps[..n], before);
      StepExcludes(uses, before, steps[n]);
      StepOrders(uses, before, steps[n]);
    }
  }

  lemma InvExcludes(uses: Uses, w: World)
    requires Inv(uses, w)
    ensures Excluded(uses, w) && Linearized(w) && Ordered(w.decided, w.clock)
  {}

  lemma {:induction false} RunKeeps(uses: Uses, start: int, steps: seq<Step>, w: World)
    requires Disjoint(uses) && Reaches(uses, start, steps, w)
    ensures Inv(uses, w)
  {
    hide Inv, Disjoint;
    if steps == [] {
      IdleKeeps(uses, start);
    } else {
      var n := |steps| - 1;
      var before :| Reaches(uses, start, steps[..n], before) && Enabled(uses, before, steps[n])
        && w == Apply(uses, before, steps[n]);
      RunKeeps(uses, start, steps[..n], before);
      StepKeeps(uses, before, steps[n]);
    }
  }

  /**
   * Mutual exclusion and lock order, whatever the keys: two threads are never inside one lock, and a
   * free lock has decided for exactly the threads and keys that took it, in that order.
   */
  lemma {:induction false} LocksServe(uses: Uses, start: int, steps: seq<Step>, w: World)
    requires Reaches(uses, start, steps, w)
    ensures |w.served| == |w.decided| && forall i :: 0 <= i < |w.served| ==> w.served[i].slot == w.decided[i].slot
    ensures forall endpoint: EndpointId :: endpoint !in w.holders ==>
      At(w.acquired, endpoint) == At(w.served, endpoint) == At(w.released, endpoint)
    ensures forall a: ThreadId, b: ThreadId | !ProgressOf(w, a).Outside? && !ProgressOf(w, b).Outside? ::
      ProgressOf(w, a).turn.endpoint == ProgressOf(w, b).turn.endpoint ==> a == b
  {
    RunOrders(uses, start, steps, w);
    hide Reaches;
    forall endpoint: EndpointId | endpoint !in w.holders
      ensures At(w.acquired, endpoint) == At(w.served, endpoint) == At(w.released, endpoint)
    {
      assert TurnsAt(w, endpoint);
    }
  }

  /**
   * If no two endpoints share a key, then in every interleaving these decisions are the ones of a
   * sequential run, and the cache holds what that run would have stored: no admit is lost.
   */
  lemma {:induction false} Linearizable(uses: Uses, start: int, steps: seq<Step>, w: World)
    requires Disjoint(uses) && Reaches(uses, start, steps, w)
    ensures Linearized(w)
    ensures forall slot :: Monotone(TimesOf(w.decided, slot))
  {
    hide Sequential, CacheAgrees, Monotone, TimesOf;
    RunKeeps(uses, start, steps, w);
    forall slot
      ensures Monotone(TimesOf(w.decided, slot))
    {
      MonotoneFront(TimesOf(w.decided, slot), w.clock);
    }
  }

  /** Concurrency cannot break the limits: the bounds of the algorithms hold for what the threads were allowed. */
  lemma {:induction false} LimitsHold(
    uses: Uses, start: int, steps: seq<Step>, w: World, slot: Slot, a: int, b: int, k: nat)
    requires Disjoint(uses) && Reaches(uses, start, steps, w) && a <= b
    ensures slot.alg.LeakyBucket? ==>
      CountIn(Allowed(w.decided, slot), a, b) * slot.quota.duration <= slot.quota.max * (slot.quota.duration + b - a)
    ensures slot.alg.SimpleRate? ==>
      CountIn(Allowed(w.decided, slot), a, a + k * slot.quota.duration) <= (k + 1) * slot.quota.max
  {
    hide *;
    Linearizable(uses, start, steps, w);
    LinearizedSequential(w);
    KeyLimits(w.decided, slot, a, b, k);
  }

  lemma LinearizedSequential(w: World)
    requires Linearized(w)
    ensures Sequential(w.decided)
  {}

  // ---- Two endpoints with one key ----

  lemma StepReaches(uses: Uses, start: int, steps: seq<Step>, w: World, step: Step)
    requires Reaches(uses, start, steps, w) && Enabled(uses, w, step)
    ensures Reaches(uses, start, steps + [step], Apply(uses, w, step))
  {
    assert (steps + [step])[..|steps|] == steps;
  }

  lemma FirstAdmitted(alg: Algorithm, q: Quota)
    ensures var first := Attempt(alg, q, None, 0);
      && first.Some?
      && Attempt(alg, q, first, 0) != first
  {
    LeakyBucketLaws.OneFits(q);
    TimesIsProduct(0, q.max);
  }

  /** The second of two equal admits is either not sequential, or not in the cache. */
  lemma TwiceIsLost(slot: Slot, cache: map<Slot, Timed>)
    requires slot in cache && Some(cache[slot].value) == Attempt(slot.alg, slot.quota, None, 0)
    ensures var d := Decision(slot, 0, true);
      !(Sequential([d, d]) && CacheAgrees(cache, [d, d]))
  {
    hide Attempt, TimesOf, Replay;
    var d := Decision(slot, 0, true);
    var first := Attempt(slot.alg, slot.quota, None, 0);
    FirstAdmitted(slot.alg, slot.quota);
    NoState(slot);
    StateAfter([], d, slot);
    assert [] + [d] == [d] && [d] + [d] == [d, d] && [d, d][..1] == [d];
    StateAfter([d], d, slot);
    assert StateOf([d], slot) == first;
    if CacheAgrees(cache, [d, d]) {
      assert BackendLaws.Holds(slot.alg, slot.quota, Lookup(cache, slot), StateOf([d, d], slot));
      assert Attempt(slot.alg, slot.quota, StateOf([d], slot), 0).None?;
    }
  }

  lemma NoState(slot: Slot)
    ensures StateOf([], slot) == None
  {}

  /** Two threads at two locks read the same state. */
  lemma BothRead(uses: Uses, a: EndpointId, b: EndpointId, slot: Slot) returns (steps: seq<Step>, w: World)
    requires a != b && uses(a, slot) && uses(b, slot)
    ensures Reaches(uses, 0, steps, w)
    ensures var turns := [Turn(0, a, slot), Turn(1, b, slot)];
      w == Idle(0).(holders := map[a := 0, b := 1],
                    threads := map[0 := HasRead(turns[0], None), 1 := HasRead(turns[1], None)],
                    acquired := turns)
  {
    hide Reaches;
    steps, w := Start(uses);
    steps, w := Go(uses, steps, w, Acquire(Turn(0, a, slot)));
    steps, w := Go(uses, steps, w, Acquire(Turn(1, b, slot)));
    steps, w := Go(uses, steps, w, Get(0, false));
    steps, w := Go(uses, steps, w, Get(1, false));
  }

  /** Then both write, and the second admit is lost. */
  lemma {:induction false} LostAdmit(uses: Uses, a: EndpointId, b: EndpointId, slot: Slot)
    returns (steps: seq<Step>, w: World)
    requires a != b && uses(a, slot) && uses(b, slot)
    ensures Reaches(uses, 0, steps, w) && w.holders == map[] && !Linearized(w)
    ensures w.decided == [Decision(slot, 0, true), Decision(slot, 0, true)]
    ensures slot in w.cache && Some(w.cache[slot].value) == Attempt(slot.alg, slot.quota, None, 0)
  {
    hide Attempt, Linearized, Reaches;
    FirstAdmitted(slot.alg, slot.quota);
    steps, w := BothRead(uses, a, b, slot);
    steps, w := Go(uses, steps, w, Access(0));
    steps, w := Go(uses, steps, w, Access(1));
    steps, w := Go(uses, steps, w, Write(0));
    steps, w := Go(uses, steps, w, Write(1));
    steps, w := Go(uses, steps, w, Release(0));
    steps, w := Go(uses, steps, w, Release(1));
    TwiceIsLost(slot, w.cache);
    LinearizedParts(w);
  }

  lemma Start(uses: Uses) returns (steps: seq<Step>, w: World)
    ensures Reaches(uses, 0, steps, w) && w == Idle(0)
  {
    steps, w := [], Idle(0);
  }

  lemma Go(uses: Uses, steps: seq<Step>, w: World, step: Step) returns (more: seq<Step>, after: World)
    requires Reaches(uses, 0, steps, w) && Enabled(uses, w, step)
    ensures Reaches(uses, 0, more, after) && after == Apply(uses, w, step)
  {
    StepReaches(uses, 0, steps, w, step);
    more, after := steps + [step], Apply(uses, w, step);
  }

  lemma LinearizedParts(w: World)
    ensures Linearized(w) <==> Sequential(w.decided) && CacheAgrees(w.cache, w.decided)
  {}

  /** One lock per endpoint is enough if and only if no two endpoints share a key. */
  lemma {:induction false} LocksSuffice(uses: Uses)
    ensures Disjoint(uses) <==> forall start, steps, w :: Reaches(uses, start, steps, w) ==> Linearized(w)
  {
    hide Linearized, Reaches;
    if Disjoint(uses) {
      forall start, steps, w | Reaches(uses, start, steps, w)
        ensures Linearized(w)
      {
        Linearizable(uses, start, steps, w);
      }
    } else {
      var a, b, slot :| uses(a, slot) && uses(b, slot) && a != b;
      var steps, w := LostAdmit(uses, a, b, slot);
    }
  }
}
