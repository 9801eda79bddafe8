/**
 * The checks that an endpoint runs for a request: the throttles before authentication, content
 * negotiation, authentication, and the throttles after it, each stopping the request by raising.
 */
module ThrottleChain {
  import opened Wrappers
  import opened RateLimit
  import opened DecisionLog
  import LeakyBucketLaws
  import opened RetryAfterLaws

  // ---- Charging a list of throttles ----

  /**
   * The decisions taken while charging the throttles in order, and the index of the one that
   * rejects. A throttle whose cache key is None for this request does not apply.
   */
  function Charge(decided: seq<Decision>, slots: seq<Option<Slot>>, clock: seq<int>): (seq<Decision>, Option<nat>)
    requires |slots| == |clock|
    decreases slots
  {
    if slots == [] then (decided, None)
    else if slots[0].None? then Later(Charge(decided, slots[1..], clock[1..]))
    else
      var slot := slots[0].value;
      var allowed := Attempt(slot.alg, slot.quota, StateOf(decided, slot), clock[0]).Some?;
      var more := decided + [Decision(slot, clock[0], allowed)];
      if allowed then Later(Charge(more, slots[1..], clock[1..])) else (more, Some(0))
  }

  function Later(r: (seq<Decision>, Option<nat>)): (seq<Decision>, Option<nat>) {
    (r.0, if r.1.Some? then Some(r.1.value + 1) else None)
  }

  predicate Distinct(slots: seq<Option<Slot>>) {
    forall i, j :: 0 <= i < j < |slots| && slots[i].Some? ==> slots[i] != slots[j]
  }

  /** How often a key was charged for the request, and when: once if its throttle was reached and let it pass. */
  function ChargesOf(slots: seq<Option<Slot>>, clock: seq<int>, slot: Slot, rejected: Option<nat>): seq<int>
    requires |slots| == |clock|
  {
    if slots == [] || rejected == Some(0) then []
    else
      var rest := ChargesOf(slots[1..], clock[1..], slot, if rejected.Some? then Some(rejected.value - 1) else None);
      (if slots[0] == Some(slot) then [clock[0]] else []) + rest
  }

  /**
   * Conservation, for any list of throttles: every key receives exactly the admits of the throttles
   * in front of the rejecting one, in order.
   */
  lemma {:induction false} ChargeConserves(
    decided: seq<Decision>, slots: seq<Option<Slot>>, clock: seq<int>, slot: Slot)
    requires |slots| == |clock|
    ensures var (after, rejected) := Charge(decided, slots, clock);
      && (rejected.Some? ==> rejected.value < |slots| && slots[rejected.value].Some?)
      && Allowed(after, slot) == Allowed(decided, slot) + ChargesOf(slots, clock, slot, rejected)
      && decided <= after
    decreases slots
  {
    hide Attempt, StateOf, Allowed;
    if slots != [] {
      if slots[0].None? {
        ChargeConserves(decided, slots[1..], clock[1..], slot);
      } else {
        var first := slots[0].value;
        var allowed := Attempt(first.alg, first.quota, StateOf(decided, first), clock[0]).Some?;
        var d := Decision(first, clock[0], allowed);
        AllowedAppend(decided, d, slot);
        if allowed {
          ChargeConserves(decided + [d], slots[1..], clock[1..], slot);
        }
      }
    }
  }

  lemma AllowedAppend(decided: seq<Decision>, d: Decision, slot: Slot)
    ensures Allowed(decided + [d], slot)
      == Allowed(decided, slot) + if d.slot == slot && d.allowed then [d.now] else []
  {
    assert (decided + [d])[..|decided|] == decided;
  }

  /**
   * With distinct keys, a key is charged exactly once if its throttle lies in front of the rejecting
   * one, and never otherwise.
   */
  lemma {:induction false} ChargedOnce(slots: seq<Option<Slot>>, clock: seq<int>, rejected: Option<nat>, k: nat)
    requires |slots| == |clock| && Distinct(slots) && k < |slots| && slots[k].Some?
    ensures ChargesOf(slots, clock, slots[k].value, rejected)
      == if rejected.None? || k < rejected.value then [clock[k]] else []
  {
    var rest := if rejected.Some? && rejected.value > 0 then Some(rejected.value - 1) else None;
    if rejected != Some(0) {
      if k == 0 {
        NotCharged(slots[1..], clock[1..], slots[0].value, rest);
      } else {
        ChargedOnce(slots[1..], clock[1..], rest, k - 1);
      }
    }
  }

  lemma {:induction false} NotCharged(slots: seq<Option<Slot>>, clock: seq<int>, slot: Slot, rejected: Option<nat>)
    requires |slots| == |clock| && Some(slot) !in slots
    ensures ChargesOf(slots, clock, slot, rejected) == []
  {
    if slots != [] && rejected != Some(0) {
      NotCharged(slots[1..], clock[1..], slot, if rejected.Some? then Some(rejected.value - 1) else None);
    }
  }

  /** A key that is not charged keeps its state, even if it is the one that denies. */
  lemma {:induction false} UnchargedUnchanged(
    decided: seq<Decision>, slots: seq<Option<Slot>>, clock: seq<int>, slot: Slot)
    requires |slots| == |clock|
    requires ChargesOf(slots, clock, slot, Charge(decided, slots, clock).1) == []
    ensures StateOf(Charge(decided, slots, clock).0, slot) == StateOf(decided, slot)
    decreases slots
  {
    hide Attempt, StateOf;
    if slots != [] {
      if slots[0].None? {
        UnchargedUnchanged(decided, slots[1..], clock[1..], slot);
      } else {
        var first := slots[0].value;
        var d := Decision(first, clock[0],
          Attempt(first.alg, first.quota, StateOf(decided, first), clock[0]).Some?);
        StateAfter(decided, d, slot);
        if d.allowed {
          UnchargedUnchanged(decided + [d], slots[1..], clock[1..], slot);
        }
      }
    }
  }

  /** Charging keeps the log a log of sequential decisions. */
  lemma {:induction false} ChargeSequential(decided: seq<Decision>, slots: seq<Option<Slot>>, clock: seq<int>, now: int)
    requires |slots| == |clock| && Sequential(decided)
    requires NotAfter(decided, if clock == [] then now else clock[0]) && Monotone(clock + [now])
    ensures var after := Charge(decided, slots, clock).0;
      Sequential(after) && NotAfter(after, now)
    decreases slots
  {
    hide Attempt, StateOf, Sequential;
    if slots != [] {
      var t := clock[0];
      var later := clock[1..] + [now];
      assert clock + [now] == [t] + later;
      assert forall i, j :: 0 <= i < j < |later| ==>
        later[i] == (clock + [now])[i + 1] && later[j] == (clock + [now])[j + 1];
      assert t == (clock + [now])[0] <= later[0] <= now by {
        assert later[0] == (clock + [now])[1];
        assert now == (clock + [now])[|clock|];
      }
      if slots[0].None? {
        ChargeSequential(decided, slots[1..], clock[1..], now);
      } else {
        var slot := slots[0].value;
        var d := Decision(slot, t, Attempt(slot.alg, slot.quota, StateOf(decided, slot), t).Some?);
        SequentialAppend(decided, d);
        assert NotAfter(decided + [d], t);
        if d.allowed {
          ChargeSequential(decided + [d], slots[1..], clock[1..], now);
        }
      }
    }
  }

  /** The entries of a log when all throttles that apply let the request pass. */
  function Admitted(slots: seq<Option<Slot>>, clock: seq<int>): seq<Decision>
    requires |slots| == |clock|
  {
    if slots == [] then []
    else
      (if slots[0].None? then [] else [Decision(slots[0].value, clock[0], true)]) + Admitted(slots[1..], clock[1..])
  }

  /** The entries when the throttle at the index denies: nothing behind it is asked. */
  function AdmittedUntil(slots: seq<Option<Slot>>, clock: seq<int>, k: nat): seq<Decision>
    requires |slots| == |clock| && k < |slots| && slots[k].Some?
  {
    Admitted(slots[..k], clock[..k]) + [Decision(slots[k].value, clock[k], false)]
  }

  /** What charging adds to the log, entry by entry; whether an entry is an admit is for the limiter of its key. */
  lemma {:induction false} ChargeExact(decided: seq<Decision>, slots: seq<Option<Slot>>, clock: seq<int>)
    requires |slots| == |clock|
    ensures var (after, rejected) := Charge(decided, slots, clock);
      if rejected.None? then after == decided + Admitted(slots, clock)
      else
        && rejected.value < |slots| && slots[rejected.value].Some?
        && after == decided + AdmittedUntil(slots, clock, rejected.value)
    decreases slots
  {
    hide Attempt, StateOf;
    if slots != [] {
      var rest, later := slots[1..], clock[1..];
      if slots[0].None? {
        ChargeExact(decided, rest, later);
        UntilLater(slots, clock, Charge(decided, rest, later).1);
      } else {
        var slot := slots[0].value;
        var allowed := Attempt(slot.alg, slot.quota, StateOf(decided, slot), clock[0]).Some?;
        if allowed {
          var more := decided + [Decision(slot, clock[0], true)];
          ChargeExact(more, rest, later);
          UntilLater(slots, clock, Charge(more, rest, later).1);
        } else {
          assert Admitted(slots[..0], clock[..0]) == [];
        }
      }
    }
  }

  lemma UntilLater(slots: seq<Option<Slot>>, clock: seq<int>, k: Option<nat>)
    requires |slots| == |clock| && slots != []
    requires k.Some? ==> k.value < |slots[1..]| && slots[1..][k.value].Some?
    ensures var first := if slots[0].None? then [] else [Decision(slots[0].value, clock[0], true)];
      && Admitted(slots, clock) == first + Admitted(slots[1..], clock[1..])
      && (k.Some? ==>
            AdmittedUntil(slots, clock, k.value + 1) == first + AdmittedUntil(slots[1..], clock[1..], k.value))
  {
    if k.Some? {
      assert slots[..k.value + 1][1..] == slots[1..][..k.value];
      assert clock[..k.value + 1][1..] == clock[1..][..k.value];
    }
  }

  // ---- All checks of a request ----

  /**
   * One request: the keys that its throttles resolve to, the clock reading of each of them, whether
   * negotiation succeeds, and what each authentication class returns (None overall: no authentication).
   */
  datatype Request = Request(
    before: seq<Option<Slot>>, beforeClock: seq<int>,
    acceptable: bool,
    auth: Option<seq<Option<nat>>>,
    after: seq<Option<Slot>>, afterClock: seq<int>)

  predicate WellFormed(r: Request) {
    |r.before| == |r.beforeClock| && |r.after| == |r.afterClock|
  }

  datatype Verdict =
    | Passed
    | ThrottledBefore(index: nat)
    | NotAcceptable
    | NotAuthenticated
    | ThrottledAfter(index: nat)

  /** The first authentication class that recognises the caller wins. */
  function FirstUser(auths: seq<Option<nat>>): Option<nat> {
    if auths == [] then None else if auths[0].Some? then auths[0] else FirstUser(auths[1..])
  }

  function Check(decided: seq<Decision>, r: Request): (seq<Decision>, Verdict)
    requires WellFormed(r)
  {
    var (first, rejected) := Charge(decided, r.before, r.beforeClock);
    if rejected.Some? then (first, ThrottledBefore(rejected.value))
    else if !r.acceptable then (first, NotAcceptable)
    else if r.auth.Some? && FirstUser(r.auth.value).None? then (first, NotAuthenticated)
    else
      var (second, rejectedAfter) := Charge(first, r.after, r.afterClock);
      (second, if rejectedAfter.Some? then ThrottledAfter(rejectedAfter.value) else Passed)
  }

  /** Some authentication class recognises the caller, or none is configured. */
  ghost predicate Recognised(r: Request) {
    r.auth.Some? ==> exists i :: 0 <= i < |r.auth.value| && r.auth.value[i].Some?
  }

  /** The first class that recognises the caller says who it is. */
  ghost predicate IsFirstUser(auths: seq<Option<nat>>, user: Option<nat>) {
    match user
    case Some(_) => exists i :: 0 <= i < |auths| && auths[i] == user && forall j :: 0 <= j < i ==> auths[j].None?
    case None => forall i :: 0 <= i < |auths| ==> auths[i].None?
  }

  lemma {:induction false} FirstUserExact(auths: seq<Option<nat>>)
    ensures IsFirstUser(auths, FirstUser(auths))
  {
    if auths != [] && auths[0].None? {
      FirstUserExact(auths[1..]);
      var user := FirstUser(auths[1..]);
      if user.Some? {
        var i :| 0 <= i < |auths| - 1 && auths[1..][i] == user && forall j :: 0 <= j < i ==> auths[1..][j].None?;
        assert auths[i + 1] == user && forall j :: 1 <= j < i + 1 ==> auths[j] == auths[1..][j - 1];
      } else {
        assert forall j :: 1 <= j < |auths| ==> auths[j] == auths[1..][j - 1];
      }
    }
  }

  /**
   * What each verdict says about the request and about the log. A request gets behind negotiation only
   * if it is acceptable, and behind authentication only if its caller is recognised; no throttle is
   * asked out of turn.
   */
  ghost predicate Justified(before: seq<Decision>, after: seq<Decision>, r: Request, verdict: Verdict)
    requires WellFormed(r)
  {
    match verdict
    case ThrottledBefore(k) =>
      k < |r.before| && r.before[k].Some? && after == before + AdmittedUntil(r.before, r.beforeClock, k)
    case NotAcceptable => !r.acceptable && after == before + Admitted(r.before, r.beforeClock)
    case NotAuthenticated =>
      r.acceptable && !Recognised(r) && after == before + Admitted(r.before, r.beforeClock)
    case ThrottledAfter(k) =>
      && r.acceptable && Recognised(r)
      && k < |r.after| && r.after[k].Some?
      && after == before + Admitted(r.before, r.beforeClock) + AdmittedUntil(r.after, r.afterClock, k)
    case Passed =>
      && r.acceptable && Recognised(r)
      && after == before + Admitted(r.before, r.beforeClock) + Admitted(r.after, r.afterClock)
  }

  lemma {:induction false} VerdictJustified(decided: seq<Decision>, r: Request)
    requires WellFormed(r)
    ensures Justified(decided, Check(decided, r).0, r, Check(decided, r).1)
    ensures Check(decided, r).1.NotAcceptable? <==> Charge(decided, r.before, r.beforeClock).1.None? && !r.acceptable
  {
    hide Charge, FirstUser, Admitted, AdmittedUntil;
    ChargeExact(decided, r.before, r.beforeClock);
    ChargeExact(Charge(decided, r.before, r.beforeClock).0, r.after, r.afterClock);
    assert Recognised(r) <==> r.auth.None? || FirstUser(r.auth.value).Some? by {
      if r.auth.Some? {
        FirstUserExact(r.auth.value);
      }
    }
    var first := Charge(decided, r.before, r.beforeClock);
    var second := Charge(first.0, r.after, r.afterClock);
    assert Check(decided, r).1.ThrottledAfter? ==> Justified(decided, Check(decided, r).0, r, Check(decided, r).1);
  }

  /** The throttle that raised, and what its error carries. */
  datatype Rejection = Rejection(index: nat, headers: TooManyRequests)

  function IndexOf(rejected: Option<Rejection>): Option<nat> {
    if rejected.Some? then Some(rejected.value.index) else None
  }

  predicate Explains(decided: seq<Decision>, slots: seq<Option<Slot>>, clock: seq<int>, rejection: Rejection) {
    && rejection.index < |slots| && rejection.index < |clock| && slots[rejection.index].Some?
    && var slot := slots[rejection.index].value;
       rejection.headers == ReportAt(slot.alg, slot.quota, StateOf(decided, slot), clock[rejection.index])
  }

  class HttpRequest {
    /** `__dmr_auth__`. */
    var user: Option<nat>

    constructor ()
      ensures user.None?
    {
      user := None;
    }
  }

  /** The endpoint's throttles as one object: what their caches hold, with the history that led there. */
  class Endpoint {
    var cache: map<Slot, Snapshot>
    ghost var decided: seq<Decision>

    ghost predicate Valid()
      reads this
    {
      && Sequential(decided)
      && forall slot: Slot :: Lookup(cache, slot) == StateOf(decided, slot)
    }

    constructor ()
      ensures Valid() && decided == []
    {
      cache, decided := map[], [];
    }

    /** One throttle: charges its key or raises. */
    method Throttle(slot: Slot, now: int) returns (denial: Option<TooManyRequests>)
      requires Valid()
      modifies this
      ensures Valid()
      ensures denial.None? <==> Attempt(slot.alg, slot.quota, StateOf(old(decided), slot), now).Some?
      ensures denial.Some? ==> denial.value == ReportAt(slot.alg, slot.quota, StateOf(old(decided), slot), now)
      ensures denial.Some? ==> cache == old(cache)
      ensures decided == old(decided) + [Decision(slot, now, denial.None?)]
    {
      hide Attempt, StateOf, Sequential, ReportAt;
      var result := Attempt(slot.alg, slot.quota, Lookup(cache, slot), now);
      var allowed := result.Some?;
      denial := if allowed then None else Some(ReportAt(slot.alg, slot.quota, Lookup(cache, slot), now));
      ghost var before := decided;
      ghost var d := Decision(slot, now, allowed);
      SequentialAppend(before, d);
      forall other: Slot
        ensures StateOf(before + [d], other)
          == if other == slot && allowed then result else Lookup(cache, other)
      {
        StateAfter(before, d, other);
      }
      if allowed {
        cache := cache[slot := result.value];
      }
      decided := before + [d];
    }

    /**
     * The loop over `throttling_before_auth` or `throttling_after_auth`; leaves early with the index that
     * raised and the headers of the denial, which describe the state that the denial left.
     */
    method RunThrottles(slots: seq<Option<Slot>>, clock: seq<int>) returns (rejected: Option<Rejection>)
      requires Valid() && |slots| == |clock|
      modifies this
      ensures Valid()
      ensures (decided, IndexOf(rejected)) == Charge(old(decided), slots, clock)
      ensures rejected.Some? ==> Explains(decided, slots, clock, rejected.value)
    {
      hide Attempt, StateOf, Sequential, ReportAt;
      var i := 0;
      while i < |slots|
        invariant 0 <= i <= |slots| && Valid()
        invariant var (all, last) := Charge(decided, slots[i..], clock[i..]);
          Charge(old(decided), slots, clock) == (all, if last.Some? then Some(last.value + i) else None)
      {
        if slots[i].Some? {
          ghost var before := decided;
          var denial := Throttle(slots[i].value, clock[i]);
          if denial.Some? {
            StateAfter(before, Decision(slots[i].value, clock[i], false), slots[i].value);
            return Some(Rejection(i, denial.value));
          }
        }
        i := i + 1;
      }
      return None;
    }

    /** `_run_auth`: tries the classes in order and puts the first user on the request. */
    method RunAuth(request: HttpRequest, auths: seq<Option<nat>>) returns (user: Option<nat>)
      modifies request
      ensures user == FirstUser(auths) && IsFirstUser(auths, user)
      ensures request.user == if user.Some? then user else old(request.user)
    {
      FirstUserExact(auths);
      user := None;
      var i := 0;
      while i < |auths|
        invariant 0 <= i <= |auths|
        invariant user.None? && request.user == old(request.user)
        invariant FirstUser(auths) == FirstUser(auths[i..])
      {
        if auths[i].Some? {
          request.user := auths[i];
          return auths[i];
        }
        i := i + 1;
      }
    }

    /** `_run_checks`. */
    method RunChecks(request: HttpRequest, r: Request)
      returns (verdict: Verdict, headers: Option<TooManyRequests>)
      requires Valid() && WellFormed(r)
      modifies this, request
      ensures Valid()
      ensures (decided, verdict) == Check(old(decided), r)
      ensures Justified(old(decided), decided, r, verdict)
      ensures headers.Some? <==> verdict.ThrottledBefore? || verdict.ThrottledAfter?
      ensures verdict.ThrottledBefore? ==>
        Explains(decided, r.before, r.beforeClock, Rejection(verdict.index, headers.value))
      ensures verdict.ThrottledAfter? ==>
        Explains(decided, r.after, r.afterClock, Rejection(verdict.index, headers.value))
      ensures request.user
        == if (verdict.Passed? || verdict.ThrottledAfter?) && r.auth.Some? then FirstUser(r.auth.value)
           else old(request.user)
      ensures (verdict.Passed? || verdict.ThrottledAfter?) && r.auth.Some? ==>
        request.user.Some? && IsFirstUser(r.auth.value, request.user)
    {
      VerdictJustified(decided, r);
      if r.auth.Some? {
        FirstUserExact(r.auth.value);
      }
      hide Charge, Sequential, StateOf, FirstUser, Explains, Admitted, AdmittedUntil;
      headers := None;
      var rejected := RunThrottles(r.before, r.beforeClock);
      if rejected.Some? {
        return ThrottledBefore(rejected.value.index), Some(rejected.value.headers);
      }
      if !r.acceptable {
        return NotAcceptable, None;
      }
      if r.auth.Some? {
        var user := RunAuth(request, r.auth.value);
        if user.None? {
          return NotAuthenticated, None;
        }
      }
      var rejectedAfter := RunThrottles(r.after, r.afterClock);
      if rejectedAfter.Some? {
        return ThrottledAfter(rejectedAfter.value.index), Some(rejectedAfter.value.headers);
      }
      verdict := Passed;
    }
  }

  /** Which of the charges of a request happen, by verdict. */
  function ChargesByVerdict(r: Request, slot: Slot, verdict: Verdict): seq<int>
    requires WellFormed(r)
  {
    match verdict
    case ThrottledBefore(k) => ChargesOf(r.before, r.beforeClock, slot, Some(k))
    case NotAcceptable => ChargesOf(r.before, r.beforeClock, slot, None)
    case NotAuthenticated => ChargesOf(r.before, r.beforeClock, slot, None)
    case ThrottledAfter(k) =>
      ChargesOf(r.before, r.beforeClock, slot, None) + ChargesOf(r.after, r.afterClock, slot, Some(k))
    case Passed =>
      ChargesOf(r.before, r.beforeClock, slot, None) + ChargesOf(r.after, r.afterClock, slot, None)
  }

  /**
   * Each key ends up with exactly the admits that the verdict accounts for, and with its old state if
   * there are none. In particular a request
   * that fails negotiation or authentication charges no throttle of the second round.
   */
  lemma {:induction false} CheckConserves(decided: seq<Decision>, r: Request, slot: Slot)
    requires WellFormed(r)
    ensures var (after, verdict) := Check(decided, r);
      && Allowed(after, slot) == Allowed(decided, slot) + ChargesByVerdict(r, slot, verdict)
      && (ChargesByVerdict(r, slot, verdict) == [] ==> StateOf(after, slot) == StateOf(decided, slot))
    ensures Check(decided, r).1.NotAuthenticated? <==>
      && Charge(decided, r.before, r.beforeClock).1.None? && r.acceptable
      && r.auth.Some? && forall i :: 0 <= i < |r.auth.value| ==> r.auth.value[i].None?
  {
    hide Charge, ChargesOf, Allowed, StateOf;
    if ChargesByVerdict(r, slot, Check(decided, r).1) == [] {
      assert StateOf(Check(decided, r).0, slot) == StateOf(decided, slot) by {
        hide Charge, ChargesOf, StateOf, FirstUser;
        UnchargedUnchanged(decided, r.before, r.beforeClock, slot);
        var verdict := Check(decided, r).1;
        if verdict.ThrottledAfter? || verdict.Passed? {
          UnchargedUnchanged(Charge(decided, r.before, r.beforeClock).0, r.after, r.afterClock, slot);
        }
      }
    }
    ChargeConserves(decided, r.before, r.beforeClock, slot);
    var first := Charge(decided, r.before, r.beforeClock).0;
    ChargeConserves(first, r.after, r.afterClock, slot);
    var earlier := ChargesOf(r.before, r.beforeClock, slot, None);
    var later := ChargesOf(r.after, r.afterClock, slot, Charge(first, r.after, r.afterClock).1);
    assert Allowed(decided, slot) + earlier + later == Allowed(decided, slot) + (earlier + later);
    if r.auth.Some? {
      NobodyRecognised(r.auth.value);
    }
  }

  lemma {:induction false} NobodyRecognised(auths: seq<Option<nat>>)
    ensures FirstUser(auths).None? <==> forall i :: 0 <= i < |auths| ==> auths[i].None?
  {
    if auths != [] {
      NobodyRecognised(auths[1..]);
      assert forall i :: 1 <= i < |auths| ==> auths[i] == auths[1..][i - 1];
    }
  }

  /**
   * A denied key, and every key that only later throttles use, is left as it was: neither the
   * rejecting throttle nor the ones behind it are charged.
   */
  lemma {:induction false} RejectionLeavesRest(
    decided: seq<Decision>, slots: seq<Option<Slot>>, clock: seq<int>, k: nat)
    requires |slots| == |clock| && Distinct(slots) && k < |slots| && slots[k].Some?
    requires Charge(decided, slots, clock).1.Some?
    ensures var (after, rejected) := Charge(decided, slots, clock);
      Allowed(after, slots[k].value)
      == Allowed(decided, slots[k].value) + if k < rejected.value then [clock[k]] else []
    ensures var (after, rejected) := Charge(decided, slots, clock);
      rejected.value <= k ==> StateOf(after, slots[k].value) == StateOf(decided, slots[k].value)
  {
    hide Charge, Allowed, StateOf;
    if Charge(decided, slots, clock).1.value <= k {
      ChargedOnce(slots, clock, Charge(decided, slots, clock).1, k);
      UnchargedUnchanged(decided, slots, clock, slots[k].value);
    }
    ChargeConserves(decided, slots, clock, slots[k].value);
    ChargedOnce(slots, clock, Charge(decided, slots, clock).1, k);
  }

  /** How many throttles of the request, counted over both rounds, let it pass. */
  function Reached(r: Request, verdict: Verdict): nat {
    match verdict
    case ThrottledBefore(k) => k
    case NotAcceptable => |r.before|
    case NotAuthenticated => |r.before|
    case ThrottledAfter(k) => |r.before| + k
    case Passed => |r.before| + |r.after|
  }

  /**
   * The whole request, with distinct keys over both rounds: every applicable throttle that let the
   * request pass was charged exactly once, at its own clock reading, and the others, the rejecting one
   * and all behind it in either round, are as they were.
   */
  lemma {:induction false} RequestConserves(decided: seq<Decision>, r: Request, i: nat)
    requires WellFormed(r) && Distinct(r.before + r.after)
    requires i < |r.before + r.after| && (r.before + r.after)[i].Some?
    ensures var (after, verdict) := Check(decided, r);
      var slot := (r.before + r.after)[i].value;
      if i < Reached(r, verdict) then
        Allowed(after, slot) == Allowed(decided, slot) + [(r.beforeClock + r.afterClock)[i]]
      else
        Allowed(after, slot) == Allowed(decided, slot) && StateOf(after, slot) == StateOf(decided, slot)
  {
    hide Charge, ChargesOf, Allowed, StateOf, ChargesByVerdict;
    var verdict := Check(decided, r).1;
    var slot := (r.before + r.after)[i].value;
    CheckConserves(decided, r, slot);
    ChargeConserves(decided, r.before, r.beforeClock, slot);
    ChargedByVerdict(r, verdict, i);
    assert Allowed(decided, slot) + [] == Allowed(decided, slot);
  }

  lemma ChargedByVerdict(r: Request, verdict: Verdict, i: nat)
    requires WellFormed(r) && Distinct(r.before + r.after)
    requires i < |r.before + r.after| && (r.before + r.after)[i].Some?
    requires verdict.ThrottledBefore? ==> verdict.index < |r.before|
    ensures ChargesByVerdict(r, (r.before + r.after)[i].value, verdict)
      == if i < Reached(r, verdict) then [(r.beforeClock + r.afterClock)[i]] else []
  {
    hide ChargesOf;
    var all := r.before + r.after;
    var slot := all[i].value;
    var n := |r.before|;
    assert Distinct(r.before) && Distinct(r.after) by {
      assert forall i :: 0 <= i < |r.before| ==> r.before[i] == (r.before + r.after)[i];
      assert forall i :: 0 <= i < |r.after| ==> r.after[i] == (r.before + r.after)[|r.before| + i];
    }
    var rejected := if verdict.ThrottledBefore? then Some(verdict.index) else None;
    var rejectedAfter := if verdict.ThrottledAfter? then Some(verdict.index) else None;
    if i < n {
      ChargedOnce(r.before, r.beforeClock, rejected, i);
      assert forall j :: 0 <= j < |r.after| ==> r.after[j] == all[n + j];
      NotCharged(r.after, r.afterClock, slot, rejectedAfter);
    } else {
      assert forall j :: 0 <= j < n ==> r.before[j] == all[j];
      NotCharged(r.before, r.beforeClock, slot, rejected);
      ChargedOnce(r.after, r.afterClock, rejectedAfter, i - n);
    }
  }

  // ---- Runs of requests ----

  function CheckAll(requests: seq<Request>): seq<Decision>
    requires forall i :: 0 <= i < |requests| ==> WellFormed(requests[i])
  {
    if requests == [] then [] else Check(CheckAll(requests[..|requests| - 1]), requests[|requests| - 1]).0
  }

  /** The moments at which requests that passed all checks were counted on the slot. */
  function PassedTimes(requests: seq<Request>, slot: Slot): seq<int>
    requires forall i :: 0 <= i < |requests| ==> WellFormed(requests[i])
  {
    if requests == [] then []
    else
      var front, last := requests[..|requests| - 1], requests[|requests| - 1];
      PassedTimes(front, slot)
      + if Check(CheckAll(front), last).1.Passed? then ChargesByVerdict(last, slot, Passed) else []
  }

  /** All clock readings of a run, in order. */
  function Clocks(requests: seq<Request>): seq<int> {
    if requests == [] then []
    else
      var last := requests[|requests| - 1];
      Clocks(requests[..|requests| - 1]) + last.beforeClock + last.afterClock
  }

  function FirstOr(clock: seq<int>, now: int): int {
    if clock == [] then now else clock[0]
  }

  lemma MonotoneParts(a: seq<int>, b: seq<int>, now: int)
    requires Monotone(a + b + [now])
    ensures Monotone(a + [FirstOr(b, now)]) && Monotone(b + [now]) && FirstOr(b, now) <= now
  {
    var all := a + b + [now];
    assert forall i :: 0 <= i < |a| ==> a[i] == all[i];
    assert forall i :: 0 <= i <= |b| ==> (b + [now])[i] == all[|a| + i];
    var next := a + [FirstOr(b, now)];
    assert forall i :: 0 <= i <= |a| ==> next[i] == all[i];
    assert all[|a|] <= all[|all| - 1];
  }

  /** The log stays a log of sequential decisions through all checks of one request. */
  lemma {:induction false} CheckSequential(decided: seq<Decision>, r: Request, now: int)
    requires WellFormed(r) && Sequential(decided)
    requires Monotone(r.beforeClock + r.afterClock + [now])
    requires NotAfter(decided, FirstOr(r.beforeClock + r.afterClock, now))
    ensures Sequential(Check(decided, r).0) && NotAfter(Check(decided, r).0, now)
  {
    hide Charge, Sequential, Monotone;
    var switch := FirstOr(r.afterClock, now);
    MonotoneParts(r.beforeClock, r.afterClock, now);
    ChargeSequential(decided, r.before, r.beforeClock, switch);
    ChargeSequential(Charge(decided, r.before, r.beforeClock).0, r.after, r.afterClock, now);
  }

  lemma {:induction false} RunSequential(requests: seq<Request>, now: int)
    requires forall i :: 0 <= i < |requests| ==> WellFormed(requests[i])
    requires Monotone(Clocks(requests) + [now])
    ensures Sequential(CheckAll(requests)) && NotAfter(CheckAll(requests), now)
  {
    assert Sequential([]) && NotAfter([], now);
    hide Check, Sequential, Monotone;
    if requests == [] {
    } else {
      var front, last := requests[..|requests| - 1], requests[|requests| - 1];
      var clock := last.beforeClock + last.afterClock;
      assert Clocks(requests) + [now] == Clocks(front) + clock + [now];
      MonotoneParts(Clocks(front), clock, now);
      RunSequential(front, FirstOr(clock, now));
      CheckSequential(CheckAll(front), last, now);
    }
  }

  lemma {:induction false} CountInAppend(a: seq<int>, b: seq<int>, lo: int, hi: int)
    ensures CountIn(a + b, lo, hi) == CountIn(a, lo, hi) + CountIn(b, lo, hi)
  {
    if b == [] {
      assert a + b == a;
    } else {
      var n := |b| - 1;
      assert (a + b)[..|a + b| - 1] == a + b[..n];
      CountInAppend(a, b[..n], lo, hi);
    }
  }

  lemma {:induction false} PassedAreAllowed(requests: seq<Request>, slot: Slot, lo: int, hi: int)
    requires forall i :: 0 <= i < |requests| ==> WellFormed(requests[i])
    ensures CountIn(PassedTimes(requests, slot), lo, hi) <= CountIn(Allowed(CheckAll(requests), slot), lo, hi)
  {
    hide Check, Allowed, ChargesByVerdict, CountIn;
    if requests == [] {
      NothingAllowed(slot, lo, hi);
    } else {
      var front, last := requests[..|requests| - 1], requests[|requests| - 1];
      PassedAreAllowed(front, slot, lo, hi);
      var decided := CheckAll(front);
      CheckConserves(decided, last, slot);
      var charges := ChargesByVerdict(last, slot, Check(decided, last).1);
      CountInAppend(Allowed(decided, slot), charges, lo, hi);
      CountInAppend(PassedTimes(front, slot), if Check(decided, last).1.Passed? then charges else [], lo, hi);
      NothingAllowed(slot, lo, hi);
    }
  }

  lemma NothingAllowed(slot: Slot, lo: int, hi: int)
    ensures CountIn(Allowed([], slot), lo, hi) == CountIn([], lo, hi) == 0
  {}

  /**
   * Every throttle keeps its promise whatever else is configured on the endpoint: the requests that
   * pass all checks obey its bound, however the others charge, reject or authenticate.
   */
  lemma {:induction false} PassedWithinLimits(requests: seq<Request>, slot: Slot, now: int, a: int, b: int, k: nat)
    requires forall i :: 0 <= i < |requests| ==> WellFormed(requests[i])
    requires Monotone(Clocks(requests) + [now]) && a <= b
    ensures slot.alg.LeakyBucket? ==>
      CountIn(PassedTimes(requests, slot), a, b) * slot.quota.duration
      <= slot.quota.max * (slot.quota.duration + b - a)
    ensures slot.alg.SimpleRate? ==>
      CountIn(PassedTimes(requests, slot), a, a + k * slot.quota.duration) <= (k + 1) * slot.quota.max
  {
    hide *;
    var decided := CheckAll(requests);
    RunSequential(requests, now);
    LimitsHold(decided, slot, now, a, b, k);
    PassedAreAllowed(requests, slot, a, b);
    PassedAreAllowed(requests, slot, a, a + k * slot.quota.duration);
    LeakyBucketLaws.Scale(slot.quota.duration,
      CountIn(PassedTimes(requests, slot), a, b), CountIn(Allowed(decided, slot), a, b));
  }
}
