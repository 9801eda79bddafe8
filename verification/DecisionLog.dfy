/** Sequences of rate limiting decisions about many cache keys, in the order in which they took effect. */
module DecisionLog {
  import opened Wrappers
  import opened RateLimit
  import LeakyBucketLaws
  import SimpleRateLaws

  /** A full cache key, with the parts that `full_cache_key` writes into it and a tag for all the others. */
  datatype Slot = Slot(alg: Algorithm, quota: Quota, tag: string)

  /** A decision that took effect. */
  datatype Decision = Decision(slot: Slot, now: int, allowed: bool)

  /** The clock readings of the decisions about one slot. */
  function TimesOf(decided: seq<Decision>, slot: Slot): seq<int> {
    if decided == [] then []
    else
      var last := decided[|decided| - 1];
      TimesOf(decided[..|decided| - 1], slot) + if last.slot == slot then [last.now] else []
  }

  /** Every decision is the one that the algorithm alone would have taken. */
  ghost predicate Sequential(decided: seq<Decision>) {
    decided == [] ||
    var n := |decided| - 1;
    var last := decided[n];
    var state := Replay(last.slot.alg, last.slot.quota, TimesOf(decided[..n], last.slot));
    Sequential(decided[..n])
    && (last.allowed <==> Attempt(last.slot.alg, last.slot.quota, state, last.now).Some?)
  }

  function StateOf(decided: seq<Decision>, slot: Slot): Option<Snapshot> {
    Replay(slot.alg, slot.quota, TimesOf(decided, slot))
  }

  ghost predicate NotAfter(decided: seq<Decision>, now: int) {
    && (forall i, j :: 0 <= i < j < |decided| ==> decided[i].now <= decided[j].now)
    && (forall i :: 0 <= i < |decided| ==> decided[i].now <= now)
  }

  lemma {:induction false} TimesOrdered(decided: seq<Decision>, slot: Slot, now: int)
    requires NotAfter(decided, now)
    ensures Monotone(TimesOf(decided, slot) + [now])
  {
    if decided != [] {
      var n := |decided| - 1;
      TimesOrdered(decided[..n], slot, decided[n].now);
      MonotoneLater(TimesOf(decided[..n], slot), decided[n].now, now);
      assert TimesOf(decided[..n], slot) + [] == TimesOf(decided[..n], slot);
    }
  }

  lemma TimesAppend(decided: seq<Decision>, d: Decision, slot: Slot)
    ensures TimesOf(decided + [d], slot)
      == if d.slot == slot then TimesOf(decided, slot) + [d.now] else TimesOf(decided, slot)
  {
    assert (decided + [d])[..|decided|] == decided;
  }

  /** How a new decision changes the sequential states. */
  lemma {:induction false} StateAfter(decided: seq<Decision>, d: Decision, slot: Slot)
    ensures slot != d.slot ==> StateOf(decided + [d], slot) == StateOf(decided, slot)
    ensures slot == d.slot ==>
      var written := Attempt(slot.alg, slot.quota, StateOf(decided, slot), d.now);
      StateOf(decided + [d], slot) == if written.Some? then written else StateOf(decided, slot)
  {
    hide Attempt;
    TimesAppend(decided, d, slot);
    LastRequest(slot.alg, slot.quota, TimesOf(decided, slot), d.now);
  }

  lemma {:induction false} SequentialAppend(decided: seq<Decision>, d: Decision)
    requires Sequential(decided)
    requires d.allowed <==> Attempt(d.slot.alg, d.slot.quota, StateOf(decided, d.slot), d.now).Some?
    ensures Sequential(decided + [d])
  {
    hide Attempt, Replay, TimesOf;
    assert (decided + [d])[..|decided|] == decided;
  }

  /** The clock readings of the requests admitted on one slot. */
  function Allowed(decided: seq<Decision>, slot: Slot): seq<int> {
    if decided == [] then []
    else
      var last := decided[|decided| - 1];
      Allowed(decided[..|decided| - 1], slot) + if last.slot == slot && last.allowed then [last.now] else []
  }

  lemma {:induction false} AllowedAreAdmits(decided: seq<Decision>, slot: Slot)
    requires Sequential(decided)
    ensures Allowed(decided, slot) == Admits(slot.alg, slot.quota, TimesOf(decided, slot))
  {
    assert Admits(slot.alg, slot.quota, []) == [];
    hide Attempt, Replay, Admits;
    if decided == [] {
    } else {
      var front, last := decided[..|decided| - 1], decided[|decided| - 1];
      AllowedAreAdmits(front, slot);
      LastRequest(slot.alg, slot.quota, TimesOf(front, slot), last.now);
      assert Allowed(front, slot) + [] == Allowed(front, slot);
      assert TimesOf(front, slot) + [] == TimesOf(front, slot);
    }
  }

  /** The bounds of the algorithms hold for every cache key of such a log, whatever happens to the other keys. */
  lemma {:induction false} KeyLimits(decided: seq<Decision>, slot: Slot, a: int, b: int, k: nat)
    requires Sequential(decided) && Monotone(TimesOf(decided, slot)) && a <= b
    ensures slot.alg.LeakyBucket? ==>
      CountIn(Allowed(decided, slot), a, b) * slot.quota.duration <= slot.quota.max * (slot.quota.duration + b - a)
    ensures slot.alg.SimpleRate? ==>
      CountIn(Allowed(decided, slot), a, a + k * slot.quota.duration) <= (k + 1) * slot.quota.max
  {
    hide *;
    AllowedAreAdmits(decided, slot);
    if slot.alg.LeakyBucket? {
      LeakyBucketLaws.IntervalBound(slot.quota, TimesOf(decided, slot), a, b);
    } else {
      SimpleRateLaws.IntervalBound(slot.quota, TimesOf(decided, slot), a, k);
    }
  }

  lemma {:induction false} LimitsHold(decided: seq<Decision>, slot: Slot, now: int, a: int, b: int, k: nat)
    requires Sequential(decided) && NotAfter(decided, now) && a <= b
    ensures slot.alg.LeakyBucket? ==>
      CountIn(Allowed(decided, slot), a, b) * slot.quota.duration <= slot.quota.max * (slot.quota.duration + b - a)
    ensures slot.alg.SimpleRate? ==>
      CountIn(Allowed(decided, slot), a, a + k * slot.quota.duration) <= (k + 1) * slot.quota.max
  {
    hide *;
    TimesOrdered(decided, slot, now);
    MonotoneFront(TimesOf(decided, slot), now);
    KeyLimits(decided, slot, a, b, k);
  }
}
