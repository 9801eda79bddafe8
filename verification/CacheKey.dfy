/** The string under which a throttle keeps its state, and exactly which throttles share one. */
module CacheKey {
  import opened Wrappers
  import opened Strings

  /** The name of a method or a class. */
  type Name = s: string | s != "" && ':' !in s witness "a"

  /** An endpoint, by its own name. The operation id is whatever the user chose, and None by default. */
  datatype Endpoint = Endpoint(name: string, operationId: Option<string>, verb: Name)

  /** What a key tells about a throttle: its classes and its limit. */
  datatype Throttle = Throttle(backend: Name, algorithm: Name, keyName: Name, maxRequests: nat, duration: nat)

  /** The operation id as it is printed; a missing one is printed like any other value. */
  function IdText(e: Endpoint): string {
    if e.operationId.None? then "None" else e.operationId.value
  }

  function Names(e: Endpoint, t: Throttle): seq<Name> {
    [e.verb, t.backend, t.algorithm, t.keyName]
  }

  function Limits(t: Throttle): string {
    "::" + Decimal(t.maxRequests) + "::" + Decimal(t.duration)
  }

  /** The front of a key, up to its last name. */
  function Front(id: string, names: seq<Name>): string {
    if names == [] then id else Front(id, names[..|names| - 1]) + "::" + names[|names| - 1]
  }

  /** `full_cache_key`; without a key for the caller the throttle does not apply. */
  function FullCacheKey(e: Endpoint, t: Throttle, caller: Option<string>): Option<string> {
    if caller.None? then None
    else Some(Front(IdText(e), Names(e, t)) + "::" + caller.value + Limits(t))
  }

  // ---- Reading a key from the back ----

  lemma {:induction false} BackReads(restA: string, restB: string, a: string, b: string)
    requires ':' !in a && ':' !in b && restA + "::" + a == restB + "::" + b
    ensures a == b && restA == restB
  {
    var whole, other := restA + "::" + a, restB + "::" + b;
    assert whole == (restA + ":") + [':'] + a && other == (restB + ":") + [':'] + b;
    AfterLastReads(restA + ":", ':', a);
    AfterLastReads(restB + ":", ':', b);
    assert whole[..|restA|] == restA && other[..|restB|] == restB;
  }

  lemma {:induction false} FrontReads(a: string, names: seq<Name>, b: string, names': seq<Name>)
    requires |names| == |names'| && Front(a, names) == Front(b, names')
    ensures a == b && names == names'
  {
    if names != [] {
      var n := |names| - 1;
      BackReads(Front(a, names[..n]), Front(b, names'[..n]), names[n], names'[n]);
      FrontReads(a, names[..n], b, names'[..n]);
      assert names == names[..n] + [names[n]] && names' == names'[..n] + [names'[n]];
    }
  }

  lemma {:induction false} LimitsRead(rest: string, t: Throttle, rest': string, t': Throttle)
    requires rest + Limits(t) == rest' + Limits(t')
    ensures rest == rest' && t.maxRequests == t'.maxRequests && t.duration == t'.duration
  {
    hide Decimal;
    var max, max' := Decimal(t.maxRequests), Decimal(t'.maxRequests);
    var duration, duration' := Decimal(t.duration), Decimal(t'.duration);
    assert rest + Limits(t) == (rest + "::" + max) + "::" + duration;
    assert rest' + Limits(t') == (rest' + "::" + max') + "::" + duration';
    BackReads(rest + "::" + max, rest' + "::" + max', duration, duration');
    BackReads(rest, rest', max, max');
    DecimalReads(t.maxRequests);
    DecimalReads(t'.maxRequests);
    DecimalReads(t.duration);
    DecimalReads(t'.duration);
  }

  /**
   * For one caller, keys are equal exactly when the printed operation ids, the methods and the
   * throttles are. Nothing is asked of the ids or of the caller's key.
   */
  lemma {:induction false} SameCallerSameKey(e: Endpoint, t: Throttle, e': Endpoint, t': Throttle, caller: string)
    ensures FullCacheKey(e, t, Some(caller)) == FullCacheKey(e', t', Some(caller))
      <==> IdText(e) == IdText(e') && e.verb == e'.verb && t == t'
  {
    if FullCacheKey(e, t, Some(caller)) == FullCacheKey(e', t', Some(caller)) {
      hide Front, Limits, IdText;
      var front, front' := Front(IdText(e), Names(e, t)), Front(IdText(e'), Names(e', t'));
      LimitsRead(front + "::" + caller, t, front' + "::" + caller, t');
      assert front == (front + "::" + caller)[..|front|] && front' == (front' + "::" + caller)[..|front'|];
      FrontReads(IdText(e), Names(e, t), IdText(e'), Names(e', t'));
      NamesTell(e, t, e', t');
    }
  }

  lemma NamesTell(e: Endpoint, t: Throttle, e': Endpoint, t': Throttle)
    requires Names(e, t) == Names(e', t')
    ensures e.verb == e'.verb && t.backend == t'.backend && t.algorithm == t'.algorithm && t.keyName == t'.keyName
  {
    assert Names(e, t)[0] == Names(e', t')[0] && Names(e, t)[1] == Names(e', t')[1];
    assert Names(e, t)[2] == Names(e', t')[2] && Names(e, t)[3] == Names(e', t')[3];
  }

  // ---- Which endpoints have a key of their own ----

  /** No two of the endpoints share a key under the same throttle and for the same caller. */
  ghost predicate KeysTellEndpoints(endpoints: set<Endpoint>) {
    forall e, e', t, caller | e in endpoints && e' in endpoints ::
      FullCacheKey(e, t, Some(caller)) == FullCacheKey(e', t, Some(caller)) ==> e == e'
  }

  /** The key is unique to the endpoint if and only if no two endpoints print the same id for the same method. */
  lemma {:induction false} KeyTellsEndpoint(endpoints: set<Endpoint>)
    ensures KeysTellEndpoints(endpoints)
      <==> forall e, e' :: e in endpoints && e' in endpoints && IdText(e) == IdText(e') && e.verb == e'.verb ==> e == e'
  {
    hide FullCacheKey, IdText;
    if KeysTellEndpoints(endpoints) {
      forall e, e' | e in endpoints && e' in endpoints && IdText(e) == IdText(e') && e.verb == e'.verb
        ensures e == e'
      {
        var t := Throttle("SyncDjangoCache", "SimpleRate", "RemoteAddr", 1, 1);
        SameCallerSameKey(e, t, e', t, "");
      }
    } else {
      var e, e', t, caller :| e in endpoints && e' in endpoints
        && FullCacheKey(e, t, Some(caller)) == FullCacheKey(e', t, Some(caller)) && e != e';
      SameCallerSameKey(e, t, e', t, caller);
    }
  }

  /** By default it is not: two endpoints without an operation id share the state of a throttle. */
  lemma {:induction false} DefaultIdsCollide(t: Throttle, caller: string)
    ensures var users := Endpoint("UserController.get", None, "get");
      var posts := Endpoint("PostController.get", None, "get");
      && users != posts
      && FullCacheKey(users, t, Some(caller)) == FullCacheKey(posts, t, Some(caller))
      && !KeysTellEndpoints({users, posts})
  {
    var users, posts := Endpoint("UserController.get", None, "get"), Endpoint("PostController.get", None, "get");
    SameCallerSameKey(users, t, posts, t, caller);
    assert users.name[0] != posts.name[0];
  }

  /** A missing id is the same as the id "None". */
  lemma {:induction false} MissingIdIsNone(name: string, other: string, verb: Name, t: Throttle, caller: string)
    ensures FullCacheKey(Endpoint(name, None, verb), t, Some(caller))
      == FullCacheKey(Endpoint(other, Some("None"), verb), t, Some(caller))
  {
    hide FullCacheKey;
    SameCallerSameKey(Endpoint(name, None, verb), t, Endpoint(other, Some("None"), verb), t, caller);
  }

  // ---- Different callers ----

  /** The names of a key and what stands behind them. */
  function Joined(names: seq<Name>, rest: string): string {
    if names == [] then "::" + rest else "::" + names[0] + Joined(names[1..], rest)
  }

  lemma {:induction false} FrontJoins(id: string, names: seq<Name>, rest: string)
    ensures Front(id, names) + "::" + rest == id + Joined(names, rest)
  {
    if names != [] {
      var n := |names| - 1;
      FrontJoins(id, names[..n], names[n] + "::" + rest);
      JoinedMore(names[..n], names[n], rest);
      assert names[..n] + [names[n]] == names;
      assert Front(id, names) + "::" + rest == Front(id, names[..n]) + "::" + (names[n] + "::" + rest);
    }
  }

  lemma {:induction false} JoinedMore(names: seq<Name>, last: Name, rest: string)
    ensures Joined(names + [last], rest) == Joined(names, last + "::" + rest)
  {
    if names == [] {
      assert ([] + [last])[1..] == [];
      assert Joined([last], rest) == "::" + last + Joined([], rest) == "::" + (last + "::" + rest);
    } else {
      assert (names + [last])[1..] == names[1..] + [last];
      JoinedMore(names[1..], last, rest);
    }
  }

  /** The text can stand in front of the names of one key and be read as the first `count` names of another. */
  predicate ReadsAsNames(text: string, count: nat) {
    if text == "" then true
    else if count == 0 then text == ":" || "::" <= text
    else
      && "::" <= text
      && var name := Before(text[2..], ':');
         name != "" && ReadsAsNames(text[2 + |name|..], count - 1)
  }

  /** One printed id goes on where the other one ends, with what could be the names behind it. */
  predicate Continues(id: string, longer: string) {
    |id| < |longer| && id <= longer && ReadsAsNames(longer[|id|..], 4)
  }

  lemma {:induction false} BeforeGoesOn(text: string, rest: string)
    requires rest != "" && rest[0] == ':'
    ensures Before(text + rest, ':') == Before(text, ':')
  {
    if text == "" {
      assert text + rest == rest;
    } else {
      assert (text + rest)[1..] == text[1..] + rest;
      BeforeGoesOn(text[1..], rest);
    }
  }

  /** A text up to its first colon, when a colon follows. */
  lemma FirstName(text: string, rest: string, name: Name, rest': string)
    requires rest != "" && rest[0] == ':' && rest' != "" && rest'[0] == ':'
    requires text + rest == name + rest'
    ensures Before(text, ':') == name && |name| <= |text| && text[|name|..] + rest == rest'
  {
    hide Before;
    BeforeGoesOn(text, rest);
    BeforeGoesOn(name, rest');
    BeforeAll(name, ':');
    var whole := text + rest;
    assert whole[|name|..] == rest' && whole[|name|..] == text[|name|..] + rest;
  }

  lemma JoinedStarts(names: seq<Name>, rest: string)
    ensures "::" <= Joined(names, rest)
  {}

  lemma {:induction false} ReadTwice(text: string, names: seq<Name>, rest: string, names': seq<Name>, rest': string)
    requires text + Joined(names, rest) == Joined(names', rest')
    ensures ReadsAsNames(text, |names'|)
    decreases |names'|
  {
    hide Before;
    JoinedStarts(names, rest);
    if text != "" {
      if names' == [] {
        var whole := text + Joined(names, rest);
        assert whole[0] == ':' && whole[1] == ':';
        assert |text| == 1 ==> text == ":";
      } else {
        JoinedStarts(names'[1..], rest');
        hide Joined, ReadsAsNames;
        SecondReading(text, Joined(names, rest), names'[0], Joined(names'[1..], rest')) by {
          assert Joined(names', rest') == "::" + names'[0] + Joined(names'[1..], rest');
        }
        ReadTwice(text[2 + |names'[0]|..], names, rest, names'[1..], rest');
        ReadsUnfolds(text, |names'|);
      }
    }
  }

  lemma ReadsUnfolds(text: string, count: nat)
    requires text != "" && count > 0 && "::" <= text
    ensures var name := Before(text[2..], ':');
      ReadsAsNames(text, count) <==> name != "" && ReadsAsNames(text[2 + |name|..], count - 1)
  {}

  lemma SecondReading(text: string, rest: string, name: Name, behind: string)
    requires text != "" && "::" <= rest && "::" <= behind
    requires text + rest == "::" + name + behind
    ensures "::" <= text && Before(text[2..], ':') == name && 2 + |name| <= |text|
    ensures text[2 + |name|..] + rest == behind
  {
    var whole := text + rest;
    assert whole[0] == ':' && whole[1] == ':';
    assert whole[2] == name[0] && name[0] in name;
    assert whole[|text|] == ':' && whole[|text| + 1] == ':';
    assert |text| >= 2;
    assert whole[2..] == text[2..] + rest && whole[2..] == name + behind;
    FirstName(text[2..], rest, name, behind);
    assert text[2 + |name|..] == text[2..][|name|..];
  }

  lemma {:induction false} JoinedReads(names: seq<Name>, rest: string, names': seq<Name>, rest': string)
    requires |names| == |names'| && Joined(names, rest) == Joined(names', rest')
    ensures names == names' && rest == rest'
  {
    var whole, other := Joined(names, rest), Joined(names', rest');
    if names == [] {
      assert whole[2..] == rest && other[2..] == rest';
    } else {
      var behind, behind' := Joined(names[1..], rest), Joined(names'[1..], rest');
      JoinedStarts(names[1..], rest);
      JoinedStarts(names'[1..], rest');
      assert whole[2..] == names[0] + behind && other[2..] == names'[0] + behind';
      FirstName(names[0], behind, names'[0], behind');
      BeforeAll(names[0], ':');
      assert names[0][|names[0]|..] + behind == behind;
      JoinedReads(names[1..], rest, names'[1..], rest');
      assert names == [names[0]] + names[1..] && names' == [names'[0]] + names'[1..];
    }
  }

  lemma BeforeAll(s: string, sep: char)
    requires sep !in s
    ensures Before(s, sep) == s
  {
    Partition(s, sep);
  }

  /** If two keys are equal, whoever calls, then everything in them is equal or one id continues the other. */
  lemma {:induction false} EqualKeys(
    e: Endpoint, t: Throttle, caller: string, e': Endpoint, t': Throttle, caller': string)
    requires FullCacheKey(e, t, Some(caller)) == FullCacheKey(e', t', Some(caller'))
    requires |IdText(e)| <= |IdText(e')|
    ensures Continues(IdText(e), IdText(e'))
      || (IdText(e) == IdText(e') && e.verb == e'.verb && t == t' && caller == caller')
  {
    hide Limits, Front, Joined, ReadsAsNames, IdText, Names;
    var id, id', names, names' := IdText(e), IdText(e'), Names(e, t), Names(e', t');
    LimitsRead(Front(id, names) + "::" + caller, t, Front(id', names') + "::" + caller', t');
    FrontJoins(id, names, caller);
    FrontJoins(id', names', caller');
    var whole := id + Joined(names, caller);
    assert whole == id' + Joined(names', caller');
    assert id == whole[..|id|] == id'[..|id|];
    FourNames(e, t);
    FourNames(e', t');
    if |id| < |id'| {
      var more := id'[|id|..];
      assert id' == id + more;
      assert whole[|id|..] == Joined(names, caller) && whole[|id|..] == more + Joined(names', caller');
      ReadTwice(more, names', caller', names, caller);
    } else {
      assert whole[|id|..] == Joined(names, caller) && whole[|id|..] == Joined(names', caller');
      JoinedReads(names, caller, names', caller');
      NamesTell(e, t, e', t');
    }
  }

  lemma FourNames(e: Endpoint, t: Throttle)
    ensures |Names(e, t)| == 4
  {}

  /** Some endpoint with the first printed id and some endpoint with the second one share a key for some callers. */
  ghost predicate Collide(id: string, id': string) {
    exists e, t, caller, e', t', caller' :: SharedBy(id, e, t, caller, id', e', t', caller')
  }

  predicate SharedBy(id: string, e: Endpoint, t: Throttle, caller: string,
                     id': string, e': Endpoint, t': Throttle, caller': string)
  {
    && IdText(e) == id && IdText(e') == id'
    && FullCacheKey(e, t, Some(caller)) == FullCacheKey(e', t', Some(caller'))
  }

  /** Names and a caller whose key reads the same behind the shorter id. */
  lemma {:induction false} Reread(text: string, names: seq<Name>, rest: string, count: nat)
    returns (names': seq<Name>, rest': string)
    requires ReadsAsNames(text, count) && count <= |names|
    ensures |names'| == count && text + Joined(names, rest) == Joined(names', rest')
  {
    JoinedStarts(names, rest);
    var whole := text + Joined(names, rest);
    if count == 0 {
      names', rest' := [], whole[2..];
      assert whole == "::" + whole[2..];
    } else if text == "" {
      var more;
      more, rest' := Reread("", names[1..], rest, count - 1);
      names' := [names[0]] + more;
      assert names'[1..] == more;
      assert "" + Joined(names[1..], rest) == Joined(names[1..], rest);
    } else {
      var name := Before(text[2..], ':');
      BeforeIsFree(text[2..], ':');
      var more;
      more, rest' := Reread(text[2 + |name|..], names, rest, count - 1);
      names' := [name] + more;
      assert names'[1..] == more;
      assert text == "::" + name + text[2 + |name|..];
    }
  }

  lemma {:induction false} ContinuedCollide(id: string, longer: string)
    requires Continues(id, longer)
    ensures Collide(id, longer) && Collide(longer, id)
  {
    hide ReadsAsNames, Front, Joined, Limits, Names;
    var e' := Endpoint("LongController.get", Some(longer), "get");
    var t' := Throttle("SyncDjangoCache", "SimpleRate", "RemoteAddr", 1, 1);
    FourNames(e', t');
    var more := longer[|id|..];
    var names, caller := Reread(more, Names(e', t'), "", 4);
    var e := Endpoint("ShortController.get", Some(id), names[0]);
    var t := Throttle(names[1], names[2], names[3], 1, 1);
    NamesBack(e, t, names);
    FrontJoins(id, names, caller);
    FrontJoins(longer, Names(e', t'), "");
    assert longer + Joined(Names(e', t'), "") == id + (more + Joined(Names(e', t'), ""));
    LimitsOnly(t, t');
    assert SharedBy(id, e, t, caller, longer, e', t', "");
    assert SharedBy(longer, e', t', "", id, e, t, caller);
  }

  lemma NamesBack(e: Endpoint, t: Throttle, names: seq<Name>)
    requires |names| == 4 && [e.verb, t.backend, t.algorithm, t.keyName] == [names[0], names[1], names[2], names[3]]
    ensures Names(e, t) == names
  {}

  lemma LimitsOnly(t: Throttle, t': Throttle)
    requires t.maxRequests == t'.maxRequests && t.duration == t'.duration
    ensures Limits(t) == Limits(t')
  {}

  /** The exact condition on two ids: they can collide for different callers if and only if one continues the other. */
  lemma {:induction false} IdsCollide(id: string, id': string)
    requires id != id'
    ensures Collide(id, id') <==> Continues(id, id') || Continues(id', id)
  {
    hide Continues, FullCacheKey, IdText;
    if Collide(id, id') {
      var e, t, caller, e', t', caller' :| SharedBy(id, e, t, caller, id', e', t', caller');
      if |id| <= |id'| {
        EqualKeys(e, t, caller, e', t', caller');
      } else {
        EqualKeys(e', t', caller', e, t, caller);
      }
    }
    if Continues(id, id') {
      ContinuedCollide(id, id');
    }
    if Continues(id', id) {
      ContinuedCollide(id', id);
    }
  }

  predicate Separates(s: string) { exists i :: 0 <= i < |s| - 1 && s[i] == ':' && s[i + 1] == ':' }

  /**
   * So it is enough that no printed id contains the separator: then keys are equal exactly when
   * everything in them is, whatever the callers' own keys contain. Single colons do no harm.
   */
  lemma {:induction false} KeyUnique(
    e: Endpoint, t: Throttle, caller: string, e': Endpoint, t': Throttle, caller': string)
    requires !Separates(IdText(e)) && !Separates(IdText(e'))
    ensures FullCacheKey(e, t, Some(caller)) == FullCacheKey(e', t', Some(caller'))
      <==> IdText(e) == IdText(e') && e.verb == e'.verb && t == t' && caller == caller'
  {
    if FullCacheKey(e, t, Some(caller)) == FullCacheKey(e', t', Some(caller')) {
      hide FullCacheKey, Separates, IdText;
      hide Continues;
      NotContinued(IdText(e), IdText(e'));
      NotContinued(IdText(e'), IdText(e));
      if |IdText(e)| <= |IdText(e')| {
        EqualKeys(e, t, caller, e', t', caller');
      } else {
        EqualKeys(e', t', caller', e, t, caller);
      }
    } else {
      hide FullCacheKey, IdText;
      SameCallerSameKey(e, t, e', t', caller);
    }
  }

  lemma {:induction false} NotContinued(id: string, longer: string)
    requires !Separates(longer)
    ensures !Continues(id, longer)
  {
    if Continues(id, longer) {
      assert Separates(longer) by {
        var more := longer[|id|..];
        assert longer[|id|] == more[0] && longer[|id| + 1] == more[1];
      }
    }
  }

  function Middle(verb: Name, t: Throttle): string {
    "::" + verb + "::" + t.backend + "::" + t.algorithm + "::" + t.keyName
  }

  /**
   * With separators inside an id it is not enough that the classes are real: under every throttle, an
   * id that spells the middle of a key collides with a shorter id for the same method.
   */
  lemma {:induction false} SeparatorsCollide(id: string, verb: Name, t: Throttle, first: string, second: string)
    ensures var middle := Middle(verb, t);
      var e := Endpoint("UserController", Some(id), verb);
      var e' := Endpoint("PostController", Some(id + middle + "::" + first), verb);
      && IdText(e) != IdText(e')
      && FullCacheKey(e, t, Some(first + middle + "::" + second)) == FullCacheKey(e', t, Some(second))
  {
    hide Limits;
    var middle, limits := Middle(verb, t), Limits(t);
    var e := Endpoint("UserController", Some(id), verb);
    var e' := Endpoint("PostController", Some(id + middle + "::" + first), verb);
    FrontInFull(IdText(e), e, t);
    FrontInFull(IdText(e'), e', t);
    hide Middle, Front;
    assert id + middle + "::" + (first + middle + "::" + second) + limits
      == id + middle + "::" + first + middle + "::" + second + limits;
    assert |IdText(e)| < |IdText(e')|;
  }

  lemma FrontMore(id: string, names: seq<Name>, last: Name)
    ensures Front(id, names + [last]) == Front(id, names) + "::" + last
  {
    assert (names + [last])[..|names|] == names;
  }

  lemma FrontInFull(id: string, e: Endpoint, t: Throttle)
    ensures Front(id, Names(e, t)) == id + Middle(e.verb, t)
  {
    assert Front(id, []) == id;
    hide Front;
    FrontMore(id, [], e.verb);
    FrontMore(id, [e.verb], t.backend);
    FrontMore(id, [e.verb, t.backend], t.algorithm);
    FrontMore(id, [e.verb, t.backend, t.algorithm], t.keyName);
    assert [] + [e.verb] == [e.verb];
    assert [e.verb] + [t.backend] == [e.verb, t.backend];
    assert [e.verb, t.backend] + [t.algorithm] == [e.verb, t.backend, t.algorithm];
    assert [e.verb, t.backend, t.algorithm] + [t.keyName] == Names(e, t);
    hide Names;
    var one: string := "::" + e.verb;
    var two := one + "::" + t.backend;
    var three := two + "::" + t.algorithm;
    assert id + "::" + e.verb == id + one;
    assert id + one + "::" + t.backend == id + two;
    assert id + two + "::" + t.algorithm == id + three;
    assert id + three + "::" + t.keyName == id + Middle(e.verb, t);
  }

}
