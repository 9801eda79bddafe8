/**
 * The producer behind a streaming response with keep-alive pings. One task waits for the next event
 * of the source, a timer races against it; the producer wakes up when either is done, in whatever
 * order the event loop lets them finish.
 */
module PingProducer {
  import opened Wrappers

  /** What a call of `_next_event` comes to: an event (possibly made from an error), the end, or an error. */
  datatype Completion<E> = Event(event: E) | Closed | Failed(error: int)

  datatype Chunk<E> = Payload(event: E) | Ping

  datatype Ending = Finished | Raised(error: int) | Aborted

  /** A task for one pull from the source; its result exists once it is finished. */
  datatype Task = Task(pull: nat, finished: bool)

  datatype Phase = Looping | Waiting | Yielding | Ended(ending: Ending)

  datatype State<E> = State(
    phase: Phase,
    eventTask: Option<Task>,
    pingTask: Option<bool>,
    pulls: nat,
    timers: nat,
    output: seq<Chunk<E>>,
    closed: bool)

  function Initial<E>(): State<E> {
    State(Looping, None, None, 0, 0, [], false)
  }

  /** Everything that can happen next: the producer's own steps, the two tasks finishing, the consumer leaving. */
  datatype Action = Arm | EventFinishes | TimerFires | Wake | Resume | Abort

  predicate Enabled<E>(s: State<E>, a: Action) {
    match a
    case Arm => s.phase.Looping?
    case EventFinishes => s.eventTask.Some? && !s.eventTask.value.finished
    case TimerFires => s.pingTask == Some(false)
    case Wake => s.phase.Waiting? && ((s.eventTask.Some? && s.eventTask.value.finished) || s.pingTask == Some(true))
    case Resume => s.phase.Yielding?
    case Abort => s.phase.Waiting? || s.phase.Yielding?
  }

  function Step<E>(source: nat -> Completion<E>, s: State<E>, a: Action): State<E>
    requires Enabled(s, a)
  {
    match a
    case Arm =>
      s.(phase := Waiting,
         eventTask := if s.eventTask.None? then Some(Task(s.pulls, false)) else s.eventTask,
         pulls := if s.eventTask.None? then s.pulls + 1 else s.pulls,
         pingTask := Some(false),
         timers := s.timers + 1)
    case EventFinishes => s.(eventTask := Some(s.eventTask.value.(finished := true)))
    case TimerFires => s.(pingTask := Some(true))
    case Wake =>
      var quiet := s.(pingTask := None, timers := if s.timers == 0 then 0 else s.timers - 1);
      if s.eventTask.None? || !s.eventTask.value.finished then
        quiet.(phase := Yielding, output := s.output + [Ping])
      else
        (match source(s.eventTask.value.pull)
         case Event(e) => quiet.(phase := Yielding, eventTask := None, output := s.output + [Payload(e)])
         case Closed => quiet.(phase := Ended(Finished), eventTask := None, closed := true)
         case Failed(x) => quiet.(phase := Ended(Raised(x)), eventTask := None, closed := true))
    case Resume => s.(phase := Looping)
    case Abort => s.(phase := Ended(Aborted), closed := true)
  }

  /** The producer as written: a loop around three variables, cut at the points where it suspends. */
  class Producer<E(!new)> {
    const source: nat -> Completion<E>
    var phase: Phase
    var eventTask: Option<Task>
    var pingTask: Option<bool>
    var pulls: nat
    var timers: nat
    var output: seq<Chunk<E>>
    var closed: bool

    constructor (source: nat -> Completion<E>)
      ensures this.source == source && Now() == Initial()
    {
      this.source := source;
      phase, eventTask, pingTask, pulls, timers, output, closed := Looping, None, None, 0, 0, [], false;
    }

    function Now(): State<E>
      reads this
    {
      State(phase, eventTask, pingTask, pulls, timers, output, closed)
    }

    /** From the top of the loop to `asyncio.wait`. */
    method ArmTasks()
      requires Enabled(Now(), Arm)
      modifies this
      ensures Now() == Step(source, old(Now()), Arm)
    {
      if eventTask.None? {
        eventTask, pulls := Some(Task(pulls, false)), pulls + 1;
      }
      pingTask, timers := Some(false), timers + 1;
      phase := Waiting;
    }

    /** `task.result()`: only a finished task may be asked. */
    function ResultOf(task: Task): Completion<E>
      requires task.finished
    {
      source(task.pull)
    }

    /** From the return of `asyncio.wait` to the `yield`, or out of the loop. */
    method WakeUp()
      requires Enabled(Now(), Wake) && timers >= 1
      modifies this
      ensures Now() == Step(source, old(Now()), Wake)
    {
      var eventDone := eventTask.Some? && eventTask.value.finished;
      var pingDone := pingTask == Some(true);
      pingTask, timers := None, timers - 1;
      if pingDone && !eventDone {
        output := output + [Ping];
        phase := Yielding;
      } else {
        var result := ResultOf(eventTask.value);
        eventTask := None;
        match result {
          case Event(e) =>
            output := output + [Payload(e)];
            phase := Yielding;
          case Closed =>
            Close();
            phase := Ended(Finished);
          case Failed(x) =>
            Close();
            phase := Ended(Raised(x));
        }
      }
    }

    method ResumeLoop()
      requires Enabled(Now(), Resume)
      modifies this
      ensures Now() == Step(source, old(Now()), Resume)
    {
      phase := Looping;
    }

    /** The consumer closes or cancels the generator while it is suspended. */
    method AbortLoop()
      requires Enabled(Now(), Abort)
      modifies this
      ensures Now() == Step(source, old(Now()), Abort)
    {
      Close();
      phase := Ended(Aborted);
    }

    /** Drops the references that the response holds. */
    method Close()
      modifies this`closed
      ensures closed
    {
      closed := true;
    }
  }

  // ---- The producer without pings ----

  /** What it has sent, and how it ended, after at most n pulls from the source. */
  function NoPing<E>(source: nat -> Completion<E>, n: nat): (seq<E>, Option<Ending>) {
    if n == 0 then ([], None)
    else
      var (sent, ending) := NoPing(source, n - 1);
      if ending.Some? then (sent, ending)
      else
        match source(n - 1)
        case Event(e) => (sent + [e], None)
        case Closed => (sent, Some(Finished))
        case Failed(x) => (sent, Some(Raised(x)))
  }

  /** `_produce_events_no_ping`, for a consumer that asks n times. */
  method ProduceNoPing<E>(source: nat -> Completion<E>, n: nat) returns (sent: seq<E>, ending: Option<Ending>)
    ensures (sent, ending) == NoPing(source, n)
  {
    sent, ending := [], None;
    var i := 0;
    while i < n
      invariant 0 <= i <= n && ending.None?
      invariant (sent, ending) == NoPing(source, i)
    {
      match source(i) {
        case Event(e) => sent := sent + [e];
        case Closed =>
          Settled(source, i + 1, n);
          return sent, Some(Finished);
        case Failed(x) =>
          Settled(source, i + 1, n);
          return sent, Some(Raised(x));
      }
      i := i + 1;
    }
  }

  /** Once ended, further pulls change nothing; until then, they only add at the end. */
  lemma {:induction false} Settled<E>(source: nat -> Completion<E>, k: nat, n: nat)
    requires k <= n
    ensures NoPing(source, k).0 <= NoPing(source, n).0
    ensures NoPing(source, k).1.Some? ==> NoPing(source, n) == NoPing(source, k)
  {
    if k < n {
      Settled(source, k, n - 1);
    }
  }

  // ---- Every interleaving ----

  function Erase<E>(output: seq<Chunk<E>>): seq<E> {
    if output == [] then []
    else
      var last := output[|output| - 1];
      Erase(output[..|output| - 1]) + if last.Payload? then [last.event] else []
  }

  lemma EraseAppend<E>(output: seq<Chunk<E>>, c: Chunk<E>)
    ensures Erase(output + [c]) == Erase(output) + if c.Payload? then [c.event] else []
  {
    assert (output + [c])[..|output|] == output;
  }

  ghost predicate Reaches<E(!new)>(source: nat -> Completion<E>, actions: seq<Action>, s: State<E>) {
    if actions == [] then s == Initial()
    else
      var n := |actions| - 1;
      exists before :: Reaches(source, actions[..n], before) && Enabled(before, actions[n])
        && s == Step(source, before, actions[n])
  }

  /** The pulls whose result the producer has used. */
  function Used<E>(s: State<E>): int {
    s.pulls - if s.eventTask.Some? then 1 else 0
  }

  ghost predicate Inv<E>(source: nat -> Completion<E>, s: State<E>) {
    && Used(s) >= 0
    && Erase(s.output) == NoPing(source, Used(s)).0
    && NoPing(source, Used(s)).1
       == (if s.phase.Ended? && s.phase.ending != Aborted then Some(s.phase.ending) else None)
    && (s.eventTask.Some? ==> s.eventTask.value.pull == Used(s))
    && (s.phase.Waiting? ==> s.eventTask.Some? && s.pingTask.Some? && s.timers == 1)
    && (s.phase.Looping? || s.phase.Yielding? ==> s.pingTask.None? && s.timers == 0)
    && (s.phase.Ended? && s.phase.ending != Aborted ==> s.eventTask.None? && s.pingTask.None? && s.timers == 0)
    && s.timers <= 1
    && (s.closed <==> s.phase.Ended?)
  }

  lemma {:induction false} StepKeeps<E>(source: nat -> Completion<E>, s: State<E>, a: Action)
    requires Inv(source, s) && Enabled(s, a)
    ensures Inv(source, Step(source, s, a))
  {
    if a.Wake? {
      EraseAppend(s.output, Ping);
      if s.eventTask.value.finished {
        match source(Used(s)) {
          case Event(e) => EraseAppend(s.output, Payload(e));
          case _ =>
        }
      }
    }
  }

  lemma {:induction false} RunKeeps<E(!new)>(source: nat -> Completion<E>, actions: seq<Action>, s: State<E>)
    requires Reaches(source, actions, s)
    ensures Inv(source, s)
  {
    if actions != [] {
      var n := |actions| - 1;
      var before :| Reaches(source, actions[..n], before) && Enabled(before, actions[n])
        && s == Step(source, before, actions[n]);
      RunKeeps(source, actions[..n], before);
      StepKeeps(source, before, actions[n]);
    }
  }

  /**
   * Pings are pure additions. In every interleaving the output without its pings is a prefix of what
   * the producer without pings sends; a run that was not aborted and has ended sent all of it and
   * ended the same way.
   */
  lemma {:induction false} PingErasure<E(!new)>(source: nat -> Completion<E>, actions: seq<Action>, s: State<E>, n: nat)
    requires Reaches(source, actions, s) && s.pulls <= n
    ensures Erase(s.output) <= NoPing(source, n).0
    ensures s.phase.Ended? && s.phase.ending != Aborted ==>
      NoPing(source, n) == (Erase(s.output), Some(s.phase.ending))
  {
    RunKeeps(source, actions, s);
    Settled(source, Used(s), n);
  }

  /**
   * Resources: at most one pull of the source is unused at any time, and it is the latest one;
   * at most one timer runs, and none while the producer is suspended at a yield or has ended by
   * itself; the response is closed exactly when the producer has ended.
   */
  lemma {:induction false} OneAtATime<E(!new)>(source: nat -> Completion<E>, actions: seq<Action>, s: State<E>)
    requires Reaches(source, actions, s)
    ensures Used(s) <= s.pulls <= Used(s) + 1
    ensures s.eventTask.Some? ==> s.eventTask.value.pull == s.pulls - 1
    ensures s.timers <= 1
    ensures s.phase.Yielding? || (s.phase.Ended? && s.phase.ending != Aborted) ==> s.timers == 0
    ensures s.closed <==> s.phase.Ended?
    ensures Enabled(s, Wake) ==> s.timers >= 1
  {
    RunKeeps(source, actions, s);
  }

  /**
   * A finished event is never held back by a ping: it is the one that the plain producer sends next, or
   * the run ends as that producer does. A ping never uses up the pending event.
   */
  lemma {:induction false} EventsFirst<E(!new)>(source: nat -> Completion<E>, actions: seq<Action>, s: State<E>)
    requires Reaches(source, actions, s) && Enabled(s, Wake)
    ensures s.eventTask.Some?
    ensures var after := Step(source, s, Wake);
      if s.eventTask.value.finished then
        && Used(after) == Used(s) + 1 && after.eventTask.None?
        && Erase(after.output) == NoPing(source, Used(s) + 1).0
        && NoPing(source, Used(s) + 1).1 == (if after.phase.Ended? then Some(after.phase.ending) else None)
      else Used(after) == Used(s) && after.eventTask == s.eventTask && after.output == s.output + [Ping]
  {
    RunKeeps(source, actions, s);
    StepKeeps(source, s, Wake);
    hide Erase, NoPing;
  }

  /**
   * The race goes on from wherever it is. While the producer waits, the event may finish and is sent or
   * ends the run; the timer may fire and a ping is sent; at either suspension the consumer may leave.
   */
  lemma {:induction false} RaceGoesOn<E(!new)>(source: nat -> Completion<E>, actions: seq<Action>, s: State<E>)
    requires Reaches(source, actions, s)
    ensures s.phase.Looping? ==> Enabled(s, Arm)
    ensures s.phase.Yielding? ==> Enabled(s, Resume) && Enabled(s, Abort)
    ensures s.phase.Waiting? ==> Enabled(s, Abort) && s.eventTask.Some? && s.pingTask.Some?
    ensures s.phase.Waiting? && s.eventTask.value.finished ==> Enabled(s, Wake)
    ensures s.phase.Waiting? && !s.eventTask.value.finished ==>
      && Enabled(s, EventFinishes)
      && var done := Step(source, s, EventFinishes);
         Enabled(done, Wake) && Used(Step(source, done, Wake)) == Used(s) + 1
    ensures s.phase.Waiting? && !s.eventTask.value.finished && !s.pingTask.value ==>
      && Enabled(s, TimerFires)
      && var fired := Step(source, s, TimerFires);
         Enabled(fired, Wake) && Step(source, fired, Wake).output == s.output + [Ping]
  {
    RunKeeps(source, actions, s);
    hide Erase, NoPing;
  }

  lemma StepReaches<E(!new)>(source: nat -> Completion<E>, actions: seq<Action>, s: State<E>, a: Action)
    requires Reaches(source, actions, s) && Enabled(s, a)
    ensures Reaches(source, actions + [a], Step(source, s, a))
  {
    assert (actions + [a])[..|actions|] == actions;
  }

  /** One round of the loop without a ping. */
  lemma OneRound<E(!new)>(source: nat -> Completion<E>, actions: seq<Action>, s: State<E>)
    returns (more: seq<Action>, after: State<E>)
    requires Reaches(source, actions, s) && s.phase.Looping? && s.eventTask.None? && Used(s) >= 0
    ensures Reaches(source, more, after)
    ensures Erase(after.output) == NoPing(source, Used(s) + 1).0
    ensures NoPing(source, Used(s) + 1).1 == if after.phase.Ended? then Some(after.phase.ending) else None
    ensures !after.phase.Ended? ==> after.phase.Looping? && Used(after) == Used(s) + 1 && after.eventTask.None?
  {
    hide Reaches, NoPing, Erase;
    var armed := Step(source, s, Arm);
    StepReaches(source, actions, s, Arm);
    var finished := Step(source, armed, EventFinishes);
    StepReaches(source, actions + [Arm], armed, EventFinishes);
    more := actions + [Arm] + [EventFinishes];
    EventsFirst(source, more, finished);
    after := Step(source, finished, Wake);
    StepReaches(source, more, finished, Wake);
    more := more + [Wake];
    if !after.phase.Ended? {
      StepReaches(source, more, after, Resume);
      more, after := more + [Resume], Step(source, after, Resume);
    }
  }

  /** Whatever the plain producer sends, some run with pings sends as well, and it ends when that one does. */
  lemma {:induction false} Delivers<E(!new)>(source: nat -> Completion<E>, n: nat)
    returns (actions: seq<Action>, s: State<E>)
    ensures Reaches(source, actions, s)
    ensures Erase(s.output) == NoPing(source, n).0
    ensures NoPing(source, n).1 == if s.phase.Ended? then Some(s.phase.ending) else None
    ensures !s.phase.Ended? ==> s.phase.Looping? && Used(s) == n && s.eventTask.None?
  {
    if n == 0 {
      actions, s := [], Initial();
    } else {
      actions, s := Delivers(source, n - 1);
      if s.phase.Ended? {
        Settled(source, n - 1, n);
      } else {
        hide Reaches, Erase, NoPing;
        actions, s := OneRound(source, actions, s);
      }
    }
  }

  /** Every pull was sent as one event, is still pending, or ended the run. */
  predicate Accounted<E>(s: State<E>) {
    s.pulls
    == |Erase(s.output)| + (if s.eventTask.Some? then 1 else 0)
     + (if s.phase.Ended? && s.phase.ending != Aborted then 1 else 0)
  }

  lemma StepAccounts<E>(source: nat -> Completion<E>, s: State<E>, a: Action)
    requires Inv(source, s) && Enabled(s, a) && Accounted(s)
    ensures Accounted(Step(source, s, a))
  {
    hide Erase, NoPing;
    if a.Wake? {
      EraseAppend(s.output, Ping);
      if s.eventTask.value.finished && source(s.eventTask.value.pull).Event? {
        EraseAppend(s.output, Payload(source(s.eventTask.value.pull).event));
      }
    }
  }

  /** No pull is wasted or repeated, however many pings are sent in between. */
  lemma {:induction false} PullsAccounted<E(!new)>(source: nat -> Completion<E>, actions: seq<Action>, s: State<E>)
    requires Reaches(source, actions, s)
    ensures Accounted(s)
  {
    if actions != [] {
      var n := |actions| - 1;
      var before :| Reaches(source, actions[..n], before) && Enabled(before, actions[n])
        && s == Step(source, before, actions[n]);
      hide Inv, Accounted, Enabled, Step;
      RunKeeps(source, actions[..n], before);
      PullsAccounted(source, actions[..n], before);
      StepAccounts(source, before, actions[n]);
    }
  }
}
