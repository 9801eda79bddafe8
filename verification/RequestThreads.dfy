/**
 * Whole requests on many threads. Every request goes through the checks of its endpoint in order: it
 * charges one throttle after the other, each under the lock of the endpoint, and may be stopped by a
 * denial, by negotiation or by authentication. The steps of different requests interleave freely.
 */
module RequestThreads {
  import opened Wrappers
  import opened RateLimit
  import opened DecisionLog
  import opened EndpointLock
  import LeakyBucketLaws
  import ThrottleChain

  /** A throttle with the key that it resolves to, or a check that passes or stops the request by itself. */
  datatype Check = Charge(slot: Slot) | Barrier(passes: bool)

  datatype Status = Running | Passed | Stopped

  /** `next` is the check that the request is at, or the one that stopped it. */
  datatype Request = Request(thread: ThreadId, endpoint: EndpointId, checks: seq<Check>, next: nat, status: Status)

  /** `owners` tells for every decision of the locks which request it was taken for. */
  datatype State = State(
    world: World,
    requests: seq<Request>,
    current: map<ThreadId, nat>,
    owners: seq<nat>)

  datatype Move =
    | Begin(thread: ThreadId, endpoint: EndpointId, checks: seq<Check>)
    | Lock(step: Step)
    | Pass(thread: ThreadId)
    | Finish(thread: ThreadId)

  // ---- The checks of `_run_checks` ----

  /** The throttles that apply to the request. */
  function Charges(slots: seq<Option<Slot>>): seq<Check> {
    if slots == [] then []
    else (if slots[0].None? then [] else [Charge(slots[0].value)]) + Charges(slots[1..])
  }

  function ChecksOf(r: ThrottleChain.Request): seq<Check> {
    Charges(r.before)
    + [Barrier(r.acceptable), Barrier(r.auth.None? || ThrottleChain.FirstUser(r.auth.value).Some?)]
    + Charges(r.after)
  }

  // ---- Steps ----

  /** The thread is going through the checks of a request. */
  predicate Serving(s: State, thread: ThreadId) {
    thread in s.current && s.current[thread] < |s.requests|
  }

  /** The check that the thread's request is at; None behind the last one. */
  function AtCheck(s: State, thread: ThreadId): Option<Check>
    requires Serving(s, thread)
  {
    var r := s.requests[s.current[thread]];
    if r.next < |r.checks| then Some(r.checks[r.next]) else None
  }

  function ThreadOf(step: Step): Option<ThreadId> {
    match step
    case Tick(_) => None
    case Acquire(turn) => Some(turn.thread)
    case _ => Some(step.thread)
  }

  predicate CanMove(uses: Uses, s: State, m: Move) {
    match m
    case Begin(thread, endpoint, checks) =>
      thread !in s.current && forall c | c in checks && c.Charge? :: uses(endpoint, c.slot)
    case Lock(step) =>
      && Enabled(uses, s.world, step)
      && (ThreadOf(step).Some? ==> Serving(s, ThreadOf(step).value))
      && (step.Acquire? ==>
            && AtCheck(s, step.turn.thread) == Some(Charge(step.turn.slot))
            && step.turn.endpoint == s.requests[s.current[step.turn.thread]].endpoint)
    case Pass(thread) => Serving(s, thread) && AtCheck(s, thread).Some? && AtCheck(s, thread).value.Barrier?
    case Finish(thread) => Serving(s, thread) && AtCheck(s, thread).None?
  }

  /** The thread's request leaves its check behind, or ends there. */
  function Advance(s: State, thread: ThreadId, passes: bool): State
    requires Serving(s, thread)
  {
    var id := s.current[thread];
    var r := s.requests[id];
    if passes then s.(requests := s.requests[id := r.(next := r.next + 1)])
    else s.(requests := s.requests[id := r.(status := Stopped)], current := s.current - {thread})
  }

  function Moved(uses: Uses, s: State, m: Move): State
    requires CanMove(uses, s, m)
  {
    match m
    case Begin(thread, endpoint, checks) =>
      s.(requests := s.requests + [Request(thread, endpoint, checks, 0, Running)],
         current := s.current[thread := |s.requests|])
    case Lock(step) =>
      var world := Apply(uses, s.world, step);
      if step.Release? then
        Advance(s, step.thread, ProgressOf(s.world, step.thread).decision.allowed).(world := world)
      else if |world.decided| > |s.world.decided| && ThreadOf(step).Some? then
        s.(world := world, owners := s.owners + [s.current[ThreadOf(step).value]])
      else s.(world := world)
    case Pass(thread) => Advance(s, thread, AtCheck(s, thread).value.passes)
    case Finish(thread) =>
      var id := s.current[thread];
      s.(requests := s.requests[id := s.requests[id].(status := Passed)], current := s.current - {thread})
  }

  ghost predicate Run(uses: Uses, start: int, moves: seq<Move>, s: State) {
    if moves == [] then s == State(Idle(start), [], map[], [])
    else
      var n := |moves| - 1;
      exists before :: Run(uses, start, moves[..n], before) && CanMove(uses, before, moves[n])
        && s == Moved(uses, before, moves[n])
  }

  /** Seen from the locks, it is one of their interleavings. */
  lemma {:induction false} RunReaches(uses: Uses, start: int, moves: seq<Move>, s: State) returns (steps: seq<Step>)
    requires Run(uses, start, moves, s)
    ensures Reaches(uses, start, steps, s.world)
  {
    hide Reaches, Apply, Enabled;
    if moves == [] {
      steps := NoSteps(uses, start);
    } else {
      var n := |moves| - 1;
      var before :| Run(uses, start, moves[..n], before) && CanMove(uses, before, moves[n])
        && s == Moved(uses, before, moves[n]);
      steps := RunReaches(uses, start, moves[..n], before);
      if moves[n].Lock? {
        StepReaches(uses, start, steps, before.world, moves[n].step);
        steps := steps + [moves[n].step];
      }
    }
  }

  lemma NoSteps(uses: Uses, start: int) returns (steps: seq<Step>)
    ensures Reaches(uses, start, steps, Idle(start))
  {
    steps := [];
  }

  // ---- What the locks decided for a request ----

  type Outcome = (Slot, bool)

  function Outcomes(decided: seq<Decision>, owners: seq<nat>, id: nat): seq<Outcome>
    requires |decided| == |owners|
  {
    if decided == [] then []
    else
      var n := |decided| - 1;
      Outcomes(decided[..n], owners[..n], id) + if owners[n] == id then [(decided[n].slot, decided[n].allowed)] else []
  }

  lemma OutcomesAppend(decided: seq<Decision>, owners: seq<nat>, d: Decision, owner: nat, id: nat)
    requires |decided| == |owners|
    ensures Outcomes(decided + [d], owners + [owner], id)
      == Outcomes(decided, owners, id) + if owner == id then [(d.slot, d.allowed)] else []
  {
    assert (decided + [d])[..|decided|] == decided && (owners + [owner])[..|owners|] == owners;
  }

  lemma {:induction false} NoOutcomes(decided: seq<Decision>, owners: seq<nat>, id: nat)
    requires |decided| == |owners| && forall i :: 0 <= i < |owners| ==> owners[i] != id
    ensures Outcomes(decided, owners, id) == []
  {
    if decided != [] {
      NoOutcomes(decided[..|decided| - 1], owners[..|owners| - 1], id);
    }
  }

  /** One admit for each throttle among the checks, in order. */
  function Admitting(checks: seq<Check>): seq<Outcome> {
    if checks == [] then []
    else
      var last := checks[|checks| - 1];
      Admitting(checks[..|checks| - 1]) + if last.Charge? then [(last.slot, true)] else []
  }

  lemma AdmittingNext(checks: seq<Check>, next: nat)
    requires next < |checks|
    ensures Admitting(checks[..next + 1])
      == Admitting(checks[..next]) + if checks[next].Charge? then [(checks[next].slot, true)] else []
  {
    assert checks[..next + 1][..next] == checks[..next];
  }

  /** What the check does, at which the request is or has ended. */
  function Pending(r: Request, p: Progress): seq<Outcome> {
    match r.status
    case Passed => []
    case Stopped =>
      if r.next < |r.checks| && r.checks[r.next].Charge? then [(r.checks[r.next].slot, false)] else []
    case Running => if p.Leaving? then [(p.turn.slot, p.decision.allowed)] else []
  }

  ghost predicate Proper(r: Request) {
    && r.next <= |r.checks|
    && (r.status.Passed? ==> r.next == |r.checks|)
    && (r.status.Stopped? ==> r.next < |r.checks| && (r.checks[r.next].Barrier? ==> !r.checks[r.next].passes))
    && (forall k :: 0 <= k < r.next && r.checks[k].Barrier? ==> r.checks[k].passes)
  }

  /** A thread inside a lock is there for the check that its request is at. */
  ghost predicate Fits(s: State, thread: ThreadId) {
    var p := ProgressOf(s.world, thread);
    !p.Outside? ==>
      && p.turn.thread == thread && Serving(s, thread)
      && AtCheck(s, thread) == Some(Charge(p.turn.slot))
      && (p.Leaving? ==> p.decision.slot == p.turn.slot)
  }

  ghost predicate Shape(s: State) {
    && |s.owners| == |s.world.decided|
    && (forall i :: 0 <= i < |s.owners| ==> s.owners[i] < |s.requests|)
    && (forall thread <- s.current :: Serving(s, thread)
          && s.requests[s.current[thread]].thread == thread && s.requests[s.current[thread]].status.Running?)
    && (forall id :: 0 <= id < |s.requests| && s.requests[id].status.Running? ==>
          s.requests[id].thread in s.current && s.current[s.requests[id].thread] == id)
    && (forall id :: 0 <= id < |s.requests| ==> Proper(s.requests[id]))
    && (forall thread: ThreadId :: Fits(s, thread))
  }

  ghost predicate Told(s: State, id: nat)
    requires id < |s.requests| && |s.owners| == |s.world.decided|
  {
    var r := s.requests[id];
    r.next <= |r.checks| &&
    Outcomes(s.world.decided, s.owners, id)
    == Admitting(r.checks[..r.next]) + Pending(r, ProgressOf(s.world, r.thread))
  }

  ghost predicate Inv(s: State) {
    Shape(s) && forall id :: 0 <= id < |s.requests| ==> Told(s, id)
  }

  // ---- Every step keeps it ----

  /** What one step of the locks does to the threads and to the log. */
  ghost predicate Changes(w: World, step: Step, after: World) {
    && (forall other: ThreadId :: Some(other) != ThreadOf(step) ==> ProgressOf(after, other) == ProgressOf(w, other))
    && (after.decided == w.decided
        || (ThreadOf(step).Some? && !step.Acquire? && !step.Release?
            && ProgressOf(after, step.thread).Leaving? && !ProgressOf(w, step.thread).Outside?
            && after.decided == w.decided + [ProgressOf(after, step.thread).decision]
            && ProgressOf(after, step.thread).decision.slot == ProgressOf(w, step.thread).turn.slot))
    && (ThreadOf(step).Some? && !step.Acquire? && !step.Release? ==>
          && !ProgressOf(w, step.thread).Leaving? && !ProgressOf(w, step.thread).Outside?
          && !ProgressOf(after, step.thread).Outside?
          && ProgressOf(after, step.thread).turn == ProgressOf(w, step.thread).turn
          && (ProgressOf(after, step.thread).Leaving? <==> after.decided != w.decided))
    && (step.Release? ==> ProgressOf(after, step.thread).Outside?)
    && (step.Acquire? ==> ProgressOf(after, step.turn.thread) == Locked(step.turn))
  }

  lemma StepChanges(uses: Uses, w: World, step: Step)
    requires Enabled(uses, w, step)
    requires ThreadOf(step).Some? && !step.Acquire? ==> ProgressOf(w, step.thread).turn.thread == step.thread
    ensures Changes(w, step, Apply(uses, w, step))
  {
    hide Attempt;
  }

  lemma BeginKeeps(uses: Uses, s: State, thread: ThreadId, endpoint: EndpointId, checks: seq<Check>)
    requires Inv(s) && CanMove(uses, s, Begin(thread, endpoint, checks))
    ensures Inv(Moved(uses, s, Begin(thread, endpoint, checks)))
  {
    hide Outcomes, Admitting, Pending;
    var after := Moved(uses, s, Begin(thread, endpoint, checks));
    var newest := |s.requests|;
    assert Fits(s, thread);
    forall other: ThreadId
      ensures Fits(after, other)
    {
      assert Fits(s, other);
    }
    assert Shape(after);
    NoOutcomes(s.world.decided, s.owners, newest);
    assert checks[..0] == [];
    NothingYet(after.requests[newest], ProgressOf(s.world, thread));
    forall id | 0 <= id < |after.requests|
      ensures Told(after, id)
    {
      if id < newest {
        assert Told(s, id);
      }
    }
  }

  lemma NothingYet(r: Request, p: Progress)
    requires r.status.Running? && p.Outside?
    ensures Admitting([]) + Pending(r, p) == []
  {}

  /** A check that is no throttle: the thread is in no lock. */
  lemma BarrierOutside(s: State, thread: ThreadId)
    requires Shape(s) && Serving(s, thread) && (AtCheck(s, thread).None? || AtCheck(s, thread).value.Barrier?)
    ensures ProgressOf(s.world, thread).Outside?
  {
    assert Fits(s, thread);
  }

  /** What a check comes to, by itself or by the decision inside the lock. */
  predicate ComesTo(c: Check, p: Progress, passes: bool) {
    match c
    case Barrier(ok) => p.Outside? && passes == ok
    case Charge(slot) => p.Leaving? && p.turn.slot == slot && passes == p.decision.allowed
  }

  /** The thread is in no lock any more, and nobody else moved. */
  ghost predicate Left(before: World, after: World, thread: ThreadId) {
    && after.decided == before.decided
    && ProgressOf(after, thread).Outside?
    && (forall other: ThreadId :: other != thread ==> ProgressOf(after, other) == ProgressOf(before, other))
  }

  lemma AdvanceShape(s: State, thread: ThreadId, passes: bool, world: World)
    requires Shape(s) && Serving(s, thread) && AtCheck(s, thread).Some? && Left(s.world, world, thread)
    requires ComesTo(AtCheck(s, thread).value, ProgressOf(s.world, thread), passes)
    ensures Shape(Advance(s, thread, passes).(world := world))
  {
    var after := Advance(s, thread, passes).(world := world);
    var id := s.current[thread];
    assert forall k :: 0 <= k < |s.requests| && k != id ==> after.requests[k] == s.requests[k];
    assert Proper(s.requests[id]);
    forall other: ThreadId
      ensures Fits(after, other)
    {
      assert Fits(s, other);
      OwnRequest(s, thread, other);
    }
  }

  lemma AdvanceTold(s: State, thread: ThreadId, passes: bool, world: World, id: nat)
    requires Shape(s) && Serving(s, thread) && AtCheck(s, thread).Some? && Left(s.world, world, thread)
    requires ComesTo(AtCheck(s, thread).value, ProgressOf(s.world, thread), passes)
    requires id < |s.requests| && Told(s, id)
    ensures Told(Advance(s, thread, passes).(world := world), id)
  {
    hide Outcomes, Admitting;
    var r := s.requests[id];
    if id == s.current[thread] {
      AdmittingNext(r.checks, r.next);
    }
  }

  lemma AdvanceKeeps(s: State, thread: ThreadId, passes: bool, world: World)
    requires Inv(s) && Serving(s, thread) && AtCheck(s, thread).Some? && Left(s.world, world, thread)
    requires ComesTo(AtCheck(s, thread).value, ProgressOf(s.world, thread), passes)
    ensures Inv(Advance(s, thread, passes).(world := world))
  {
    hide Left, ComesTo, Told;
    AdvanceShape(s, thread, passes, world);
    forall id | 0 <= id < |s.requests|
      ensures Told(Advance(s, thread, passes).(world := world), id)
    {
      AdvanceTold(s, thread, passes, world, id);
    }
  }

  lemma PassKeeps(uses: Uses, s: State, thread: ThreadId)
    requires Inv(s) && CanMove(uses, s, Pass(thread))
    ensures Inv(Moved(uses, s, Pass(thread)))
  {
    hide Told;
    BarrierOutside(s, thread);
    hide Inv, Shape, Advance;
    var passes := AtCheck(s, thread).value.passes;
    AdvanceKeeps(s, thread, passes, s.world);
    assert Advance(s, thread, passes).(world := s.world) == Advance(s, thread, passes);
  }

  lemma OwnRequest(s: State, a: ThreadId, b: ThreadId)
    requires Shape(s) && Serving(s, a)
    ensures Serving(s, b) && a != b ==> s.current[a] != s.current[b]
  {
    if Serving(s, b) {
      assert s.requests[s.current[b]].thread == b && s.requests[s.current[a]].thread == a;
    }
  }

  lemma FinishKeeps(uses: Uses, s: State, thread: ThreadId)
    requires Inv(s) && CanMove(uses, s, Finish(thread))
    ensures Inv(Moved(uses, s, Finish(thread)))
  {
    var id := s.current[thread];
    BarrierOutside(s, thread);
    assert Told(s, id);
    hide Outcomes, Admitting;
    var after := Moved(uses, s, Finish(thread));
    forall other: ThreadId
      ensures Fits(after, other)
    {
      assert Fits(s, other);
      OwnRequest(s, thread, other);
    }
    assert Shape(after);
    forall other | 0 <= other < |after.requests|
      ensures Told(after, other)
    {
      assert Told(s, other);
    }
  }

  lemma TurnFits(s: State, step: Step)
    requires Shape(s) && ThreadOf(step).Some? && !step.Acquire? && !ProgressOf(s.world, step.thread).Outside?
    ensures ProgressOf(s.world, step.thread).turn.thread == step.thread
  {
    assert Fits(s, step.thread);
  }

  lemma EnabledInside(uses: Uses, w: World, step: Step)
    requires Enabled(uses, w, step) && ThreadOf(step).Some? && !step.Acquire?
    ensures !ProgressOf(w, step.thread).Outside?
    ensures step.Release? ==> ProgressOf(w, step.thread).Leaving?
  {}

  /** A step without a decision. */
  lemma QuietKeeps(uses: Uses, s: State, step: Step)
    requires Inv(s) && CanMove(uses, s, Lock(step)) && !step.Release?
    requires Apply(uses, s.world, step).decided == s.world.decided
    ensures Inv(Moved(uses, s, Lock(step)))
  {
    var after := Moved(uses, s, Lock(step));
    if ThreadOf(step).Some? && !step.Acquire? {
      EnabledInside(uses, s.world, step);
      TurnFits(s, step);
    }
    StepChanges(uses, s.world, step);
    var world := Apply(uses, s.world, step);
    assert after == s.(world := world);
    if step.Acquire? {
      assert ProgressOf(s.world, step.turn.thread).Outside?;
    }
    hide Apply, Enabled, Outcomes, Admitting;
    forall thread: ThreadId
      ensures Fits(after, thread)
    {
      assert Fits(s, thread);
    }
    assert Shape(after);
    forall id | 0 <= id < |after.requests|
      ensures Told(after, id)
    {
      assert Told(s, id);
      assert Told(after, id);
    }
  }

  /** A decision is one of the thread's own request, and of no other. */
  lemma DecisionKeeps(uses: Uses, s: State, step: Step)
    requires Inv(s) && CanMove(uses, s, Lock(step)) && !step.Release?
    requires Apply(uses, s.world, step).decided != s.world.decided
    ensures Inv(Moved(uses, s, Lock(step)))
  {
    var after := Moved(uses, s, Lock(step));
    if ThreadOf(step).Some? && !step.Acquire? {
      EnabledInside(uses, s.world, step);
      TurnFits(s, step);
    }
    StepChanges(uses, s.world, step);
    var thread := step.thread;
    var world := Apply(uses, s.world, step);
    var d := ProgressOf(world, thread).decision;
    var owner := s.current[thread];
    hide Apply, Enabled, Told, Outcomes, Admitting;
    assert world.decided == s.world.decided + [d];
    assert after == s.(world := world, owners := s.owners + [owner]);
    forall other: ThreadId
      ensures Fits(after, other)
    {
      assert Fits(s, other);
    }
    assert Shape(after);
    forall id | 0 <= id < |after.requests|
      ensures Told(after, id)
    {
      DecisionTold(s, thread, d, world, id);
    }
  }

  lemma DecisionTold(s: State, thread: ThreadId, d: Decision, world: World, id: nat)
    requires Shape(s) && Serving(s, thread) && id < |s.requests| && Told(s, id)
    requires !ProgressOf(s.world, thread).Leaving? && world.decided == s.world.decided + [d]
    requires ProgressOf(world, thread).Leaving? && ProgressOf(world, thread).decision == d
    requires ProgressOf(world, thread).turn.slot == d.slot
    requires forall other: ThreadId :: other != thread ==> ProgressOf(world, other) == ProgressOf(s.world, other)
    ensures Told(s.(world := world, owners := s.owners + [s.current[thread]]), id)
  {
    hide Outcomes, Admitting;
    OutcomesAppend(s.world.decided, s.owners, d, s.current[thread], id);
    assert [] + [(d.slot, d.allowed)] == [(d.slot, d.allowed)];
  }

  /** A release moves the thread's request on, or ends it where it was denied. */
  lemma ReleaseKeeps(uses: Uses, s: State, step: Step)
    requires Inv(s) && CanMove(uses, s, Lock(step)) && step.Release?
    ensures Inv(Moved(uses, s, Lock(step)))
  {
    hide Told;
    EnabledInside(uses, s.world, step);
    TurnFits(s, step);
    StepChanges(uses, s.world, step);
    assert Apply(uses, s.world, step).decided == s.world.decided;
    assert Fits(s, step.thread);
    hide Inv, Shape, Advance, Apply, Enabled;
    AdvanceKeeps(s, step.thread, ProgressOf(s.world, step.thread).decision.allowed, Apply(uses, s.world, step));
  }

  lemma {:induction false} MoveKeeps(uses: Uses, s: State, m: Move)
    requires Inv(s) && CanMove(uses, s, m)
    ensures Inv(Moved(uses, s, m))
  {
    hide Inv, CanMove, Moved;
    match m
    case Begin(thread, endpoint, checks) => BeginKeeps(uses, s, thread, endpoint, checks);
    case Pass(thread) => PassKeeps(uses, s, thread);
    case Finish(thread) => FinishKeeps(uses, s, thread);
    case Lock(step) =>
      LockEnabled(uses, s, step);
      if step.Release? {
        ReleaseKeeps(uses, s, step);
      } else if Apply(uses, s.world, step).decided == s.world.decided {
        QuietKeeps(uses, s, step);
      } else {
        DecisionKeeps(uses, s, step);
      }
  }

  lemma LockEnabled(uses: Uses, s: State, step: Step)
    requires CanMove(uses, s, Lock(step))
    ensures Enabled(uses, s.world, step)
  {}

  // ---- Results ----

  lemma {:induction false} RunKeeps(uses: Uses, start: int, moves: seq<Move>, s: State)
    requires Run(uses, start, moves, s)
    ensures Inv(s)
  {
    if moves == [] {
      assert forall thread: ThreadId :: ProgressOf(s.world, thread).Outside?;
    } else {
      hide Inv, CanMove, Moved;
      var n := |moves| - 1;
      var before :| Run(uses, start, moves[..n], before) && CanMove(uses, before, moves[n])
        && s == Moved(uses, before, moves[n]);
      RunKeeps(uses, start, moves[..n], before);
      MoveKeeps(uses, before, moves[n]);
    }
  }

  /**
   * Conservation under every interleaving. What the locks decided for a request that passed is exactly
   * one admit for each of its throttles, in its own order, and none of its checks failed. For a request
   * that was stopped it is one admit for each throttle in front, and a denial if a throttle stopped it;
   * the throttles behind were never asked.
   */
  lemma {:induction false} RequestsConserve(uses: Uses, start: int, moves: seq<Move>, s: State, id: nat)
    requires Run(uses, start, moves, s) && id < |s.requests|
    ensures |s.owners| == |s.world.decided| && Proper(s.requests[id])
    ensures s.requests[id].status.Passed? ==>
      Outcomes(s.world.decided, s.owners, id) == Admitting(s.requests[id].checks)
    ensures s.requests[id].status.Stopped? ==>
      var r := s.requests[id];
      Outcomes(s.world.decided, s.owners, id)
      == Admitting(r.checks[..r.next]) + if r.checks[r.next].Charge? then [(r.checks[r.next].slot, false)] else []
  {
    RunKeeps(uses, start, moves, s);
    hide Run, Outcomes, Admitting;
    var r := s.requests[id];
    assert Told(s, id);
    assert r.checks[..|r.checks|] == r.checks;
    assert Admitting(r.checks) + [] == Admitting(r.checks);
  }

  /** The moments at which requests that passed were counted on a key. */
  function PassedTimes(s: State, slot: Slot, decided: seq<Decision>, owners: seq<nat>): seq<int>
    requires |decided| == |owners| && forall i :: 0 <= i < |owners| ==> owners[i] < |s.requests|
  {
    if decided == [] then []
    else
      var n := |decided| - 1;
      PassedTimes(s, slot, decided[..n], owners[..n])
      + if decided[n].slot == slot && decided[n].allowed && s.requests[owners[n]].status.Passed? then [decided[n].now]
        else []
  }

  lemma {:induction false} PassedAreAllowed(
    s: State, slot: Slot, decided: seq<Decision>, owners: seq<nat>, a: int, b: int)
    requires |decided| == |owners| && forall i :: 0 <= i < |owners| ==> owners[i] < |s.requests|
    ensures CountIn(PassedTimes(s, slot, decided, owners), a, b) <= CountIn(Allowed(decided, slot), a, b)
  {
    if decided != [] {
      var n := |decided| - 1;
      PassedAreAllowed(s, slot, decided[..n], owners[..n], a, b);
      CountInMore(PassedTimes(s, slot, decided[..n], owners[..n]), decided[n].now, a, b);
      CountInMore(Allowed(decided[..n], slot), decided[n].now, a, b);
      hide CountIn;
    }
  }

  lemma CountInMore(ts: seq<int>, t: int, a: int, b: int)
    ensures CountIn(ts + [t], a, b) == CountIn(ts, a, b) + if a <= t <= b then 1 else 0
    ensures ts + [] == ts
  {
    assert (ts + [t])[..|ts|] == ts;
  }

  lemma OwnersKnown(s: State)
    requires Inv(s)
    ensures |s.owners| == |s.world.decided| && forall i :: 0 <= i < |s.owners| ==> s.owners[i] < |s.requests|
  {}

  /** If no two endpoints share a key, the requests that passed obey the bound of every key, in every interleaving. */
  lemma {:induction false} PassedWithinLimits(
    uses: Uses, start: int, moves: seq<Move>, s: State, slot: Slot, a: int, b: int, k: nat)
    requires Disjoint(uses) && Run(uses, start, moves, s) && a <= b
    ensures |s.owners| == |s.world.decided| && forall i :: 0 <= i < |s.owners| ==> s.owners[i] < |s.requests|
    ensures var passed := PassedTimes(s, slot, s.world.decided, s.owners);
      && (slot.alg.LeakyBucket? ==>
            CountIn(passed, a, b) * slot.quota.duration <= slot.quota.max * (slot.quota.duration + b - a))
      && (slot.alg.SimpleRate? ==>
            CountIn(passed, a, a + k * slot.quota.duration) <= (k + 1) * slot.quota.max)
  {
    hide *;
    OwnersKnown(s) by {
      RunKeeps(uses, start, moves, s);
    }
    var steps := RunReaches(uses, start, moves, s);
    EndpointLock.LimitsHold(uses, start, steps, s.world, slot, a, b, k);
    var passed, allowed := PassedTimes(s, slot, s.world.decided, s.owners), Allowed(s.world.decided, slot);
    PassedAreAllowed(s, slot, s.world.decided, s.owners, a, b);
    PassedAreAllowed(s, slot, s.world.decided, s.owners, a, a + k * slot.quota.duration);
    LeakyBucketLaws.Scale(slot.quota.duration, CountIn(passed, a, b), CountIn(allowed, a, b));
  }

  // ---- The checks of an endpoint ----

  /** One admit for each throttle that applies. */
  function Applicable(slots: seq<Option<Slot>>): seq<Outcome> {
    if slots == [] then []
    else (if slots[0].None? then [] else [(slots[0].value, true)]) + Applicable(slots[1..])
  }

  lemma {:induction false} AdmittingAppend(a: seq<Check>, b: seq<Check>)
    ensures Admitting(a + b) == Admitting(a) + Admitting(b)
  {
    if b == [] {
      assert a + b == a;
    } else {
      var n := |b| - 1;
      assert (a + b)[..|a + b| - 1] == a + b[..n];
      AdmittingAppend(a, b[..n]);
    }
  }

  lemma AdmittingOne(c: Check)
    ensures Admitting([c]) == if c.Charge? then [(c.slot, true)] else []
  {
    assert [c][..0] == [];
  }

  lemma {:induction false} AdmittingCharges(slots: seq<Option<Slot>>)
    ensures Admitting(Charges(slots)) == Applicable(slots)
  {
    if slots != [] {
      AdmittingCharges(slots[1..]);
      if slots[0].Some? {
        AdmittingOne(Charge(slots[0].value));
        AdmittingAppend([Charge(slots[0].value)], Charges(slots[1..]));
      } else {
        assert [] + Charges(slots[1..]) == Charges(slots[1..]);
      }
    }
  }

  /**
   * A request that passes all checks of `_run_checks` is acceptable and authenticated, and was charged
   * once by each throttle that applies, first those before authentication, then those after it.
   */
  lemma {:induction false} PassedRequest(
    uses: Uses, start: int, moves: seq<Move>, s: State, id: nat, r: ThrottleChain.Request)
    requires Run(uses, start, moves, s) && id < |s.requests|
    requires s.requests[id].status.Passed? && s.requests[id].checks == ChecksOf(r)
    ensures |s.owners| == |s.world.decided|
    ensures r.acceptable && (r.auth.Some? ==> ThrottleChain.FirstUser(r.auth.value).Some?)
    ensures Outcomes(s.world.decided, s.owners, id) == Applicable(r.before) + Applicable(r.after)
  {
    hide Run, Outcomes, Admitting, Charges, Applicable, ThrottleChain.FirstUser;
    RequestsConserve(uses, start, moves, s, id);
    var barriers := [Barrier(r.acceptable), Barrier(r.auth.None? || ThrottleChain.FirstUser(r.auth.value).Some?)];
    var checks, n := ChecksOf(r), |Charges(r.before)|;
    assert checks[n] == barriers[0] && checks[n + 1] == barriers[1];
    AdmittingOne(barriers[0]);
    AdmittingOne(barriers[1]);
    assert barriers == [barriers[0]] + [barriers[1]];
    AdmittingAppend([barriers[0]], [barriers[1]]);
    AdmittingAppend(Charges(r.before), barriers);
    AdmittingAppend(Charges(r.before) + barriers, Charges(r.after));
    AdmittingCharges(r.before);
    AdmittingCharges(r.after);
    assert Applicable(r.before) + ([] + []) == Applicable(r.before);
  }

  // ---- Progress ----

  ghost predicate Configured(uses: Uses, s: State) {
    forall id, c | 0 <= id < |s.requests| && c in s.requests[id].checks && c.Charge? ::
      uses(s.requests[id].endpoint, c.slot)
  }

  lemma {:induction false} RunConfigured(uses: Uses, start: int, moves: seq<Move>, s: State)
    requires Run(uses, start, moves, s)
    ensures Configured(uses, s)
  {
    if moves != [] {
      hide CanMove, Moved, Configured;
      var n := |moves| - 1;
      var before :| Run(uses, start, moves[..n], before) && CanMove(uses, before, moves[n])
        && s == Moved(uses, before, moves[n]);
      RunConfigured(uses, start, moves[..n], before);
      MoveConfigured(uses, before, moves[n]);
    }
  }

  lemma MoveConfigured(uses: Uses, s: State, m: Move)
    requires Configured(uses, s) && CanMove(uses, s, m)
    ensures Configured(uses, Moved(uses, s, m))
  {
    hide Apply, Enabled;
    var after := Moved(uses, s, m);
    forall id, c | 0 <= id < |after.requests| && c in after.requests[id].checks && c.Charge?
      ensures uses(after.requests[id].endpoint, c.slot)
    {
      if id < |s.requests| {
        assert after.requests[id].checks == s.requests[id].checks;
      }
    }
  }

  /** A thread inside a lock can go on. */
  lemma InsideGoesOn(uses: Uses, s: State, thread: ThreadId) returns (m: Move)
    requires Inv(s) && !ProgressOf(s.world, thread).Outside?
    ensures CanMove(uses, s, m) && m.Lock? && !m.step.Tick?
  {
    assert Fits(s, thread);
    match ProgressOf(s.world, thread)
    case Locked(_) => m := Lock(Get(thread, false));
    case HasRead(_, _) => m := Lock(Access(thread));
    case HasComputed(_, _, _) => m := Lock(Write(thread));
    case Leaving(_, _) => m := Lock(Release(thread));
  }

  /** No interleaving gets stuck: while a request is running, some request can go on, without waiting for the clock. */
  lemma {:induction false} NeverStuck(uses: Uses, start: int, moves: seq<Move>, s: State, id: nat) returns (m: Move)
    requires Run(uses, start, moves, s) && id < |s.requests| && s.requests[id].status.Running?
    ensures CanMove(uses, s, m) && !m.Begin? && (m.Lock? ==> !m.step.Tick?)
  {
    RunKeeps(uses, start, moves, s);
    RunConfigured(uses, start, moves, s);
    var steps := RunReaches(uses, start, moves, s);
    RunOrders(uses, start, steps, s.world);
    hide Run, Reaches;
    var r := s.requests[id];
    var thread := r.thread;
    assert Serving(s, thread);
    if !ProgressOf(s.world, thread).Outside? {
      m := InsideGoesOn(uses, s, thread);
    } else if AtCheck(s, thread).None? {
      m := Finish(thread);
    } else if AtCheck(s, thread).value.Barrier? {
      m := Pass(thread);
    } else if r.endpoint in s.world.holders {
      assert !Inside(s.world, r.endpoint).Outside?;
      m := InsideGoesOn(uses, s, s.world.holders[r.endpoint]);
    } else {
      m := Lock(Acquire(Turn(thread, r.endpoint, r.checks[r.next].slot)));
    }
  }
}
