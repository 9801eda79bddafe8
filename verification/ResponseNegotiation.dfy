/** Choosing the renderer of a response, and a second one for errors when the response is a stream. */
module ResponseNegotiation {
  import opened Wrappers
  import opened Strings
  import opened AcceptHeader
  import StableSort

  datatype Renderer = Renderer(name: string, streaming: bool)

  /** A dict from content type to renderer, in insertion order. */
  type Renderers = seq<(string, Renderer)>

  function Keys(renderers: Renderers): (keys: seq<string>)
    ensures |keys| == |renderers|
    ensures forall i :: 0 <= i < |keys| ==> keys[i] == renderers[i].0
  {
    if renderers == [] then [] else [renderers[0].0] + Keys(renderers[1..])
  }

  function Find(renderers: Renderers, key: string): Option<Renderer> {
    if renderers == [] then None
    else if renderers[0].0 == key then Some(renderers[0].1)
    else Find(renderers[1..], key)
  }

  lemma {:induction false} FindsKeys(renderers: Renderers, key: string)
    ensures Find(renderers, key).Some? <==> key in Keys(renderers)
    ensures Find(renderers, key).Some? ==> (key, Find(renderers, key).value) in renderers
  {
    if renderers != [] {
      FindsKeys(renderers[1..], key);
    }
  }

  function NonStreaming(renderers: Renderers): Renderers {
    if renderers == [] then []
    else (if renderers[0].1.streaming then [] else [renderers[0]]) + NonStreaming(renderers[1..])
  }

  lemma {:induction false} NonStreamingMembers(renderers: Renderers)
    ensures forall e :: e in NonStreaming(renderers) <==> e in renderers && !e.1.streaming
  {
    if renderers != [] {
      NonStreamingMembers(renderers[1..]);
      assert forall e :: e in renderers <==> e == renderers[0] || e in renderers[1..];
    }
  }

  datatype NegotiationError = NotAcceptable | KeyError(key: string)

  /** `negotiate_renderer`. */
  function NegotiateRenderer(rd: Reader, accept: Option<string>, renderers: Renderers, default: Renderer)
    : Result<Renderer, NegotiationError>
  {
    if accept.None? then Success(default)
    else
      match AcceptedTypeOf(rd, accept.value, Keys(renderers))
      case None => Failure(NotAcceptable)
      case Some(key) =>
        match Find(renderers, key)
        case None => Failure(KeyError(key))
        case Some(renderer) => Success(renderer)
  }

  /**
   * What may be returned or raised, without looking at how: the default exactly when there is no header;
   * with a header the renderer under the very key that is answered, which the header accepts; a refusal
   * only if the header accepts no key.
   */
  ghost predicate RightRenderer(rd: Reader, accept: Option<string>, renderers: Renderers, default: Renderer,
                                r: Result<Renderer, NegotiationError>)
  {
    if accept.None? then r == Success(default)
    else
      match r
      case Success(renderer) => exists i ::
        && 0 <= i < |renderers|
        && AcceptedTypeOf(rd, accept.value, Keys(renderers)) == Some(renderers[i].0)
        && HeaderAccepts(rd, accept.value, renderers[i].0)
        && renderers[i].1 == renderer
        && forall j :: 0 <= j < i ==> renderers[j].0 != renderers[i].0
      case Failure(NotAcceptable) =>
        forall i :: 0 <= i < |renderers| ==> !HeaderAccepts(rd, accept.value, renderers[i].0)
      case Failure(KeyError(key)) =>
        && AcceptedTypeOf(rd, accept.value, Keys(renderers)) == Some(key)
        && forall i :: 0 <= i < |renderers| ==> renderers[i].0 != key
  }

  lemma {:induction false} FindsFirst(renderers: Renderers, key: string) returns (i: nat)
    requires key in Keys(renderers)
    ensures i < |renderers| && renderers[i].0 == key && Find(renderers, key) == Some(renderers[i].1)
    ensures forall j :: 0 <= j < i ==> renderers[j].0 != key
  {
    if renderers[0].0 == key {
      i := 0;
    } else {
      var rest := FindsFirst(renderers[1..], key);
      i := rest + 1;
    }
  }

  lemma {:induction false} NegotiationExact(
    rd: Reader, accept: Option<string>, renderers: Renderers, default: Renderer)
    ensures RightRenderer(rd, accept, renderers, default, NegotiateRenderer(rd, accept, renderers, default))
  {
    if accept.Some? {
      hide AcceptedTypeOf, HeaderAccepts;
      var keys := Keys(renderers);
      var answer := AcceptedTypeOf(rd, accept.value, keys);
      if answer.None? {
        MatchersAgree(rd, accept.value, keys);
      } else {
        FindsKeys(renderers, answer.value);
        if answer.value in keys {
          var i := FindsFirst(renderers, answer.value);
          AnswerIsAccepted(rd, accept.value, keys);
        }
      }
    }
  }

  /** Leaving out the streaming renderers keeps the order of the others. */
  lemma {:induction false} NonStreamingInOrder(a: Renderers, b: Renderers)
    ensures NonStreaming(a + b) == NonStreaming(a) + NonStreaming(b)
    ensures |a| == 1 ==> NonStreaming(a) == if a[0].1.streaming then [] else a
  {
    if a == [] {
      assert a + b == b;
    } else {
      assert (a + b)[1..] == a[1..] + b;
      NonStreamingInOrder(a[1..], b);
    }
  }

  /** So their default is the first of them. */
  lemma {:induction false} FirstNonStreaming(renderers: Renderers) returns (i: nat)
    requires NonStreaming(renderers) != []
    ensures i < |renderers| && NonStreaming(renderers)[0] == renderers[i] && !renderers[i].1.streaming
    ensures forall j :: 0 <= j < i ==> renderers[j].1.streaming
  {
    if !renderers[0].1.streaming {
      i := 0;
    } else {
      var rest := FirstNonStreaming(renderers[1..]);
      i := rest + 1;
    }
  }

  class HttpRequest {
    const accept: Option<string>
    var renderer: Option<Renderer>
    var nonStreamingRenderer: Option<Renderer>

    constructor (accept: Option<string>)
      ensures this.accept == accept && renderer.None? && nonStreamingRenderer.None?
    {
      this.accept := accept;
      renderer, nonStreamingRenderer := None, None;
    }
  }

  /** `request_renderer`: errors of a streaming response go through the non-streaming renderer. */
  function RequestRenderer(request: HttpRequest, useNonStreaming: bool): Option<Renderer>
    reads request
  {
    if useNonStreaming && request.nonStreamingRenderer.Some? then request.nonStreamingRenderer else request.renderer
  }

  /** Errors get the second renderer if there is one; all else, and errors without one, get the first. */
  lemma RendererFor(request: HttpRequest)
    ensures RequestRenderer(request, false) == request.renderer
    ensures request.nonStreamingRenderer.None? ==> RequestRenderer(request, true) == request.renderer
    ensures request.nonStreamingRenderer.Some? ==> RequestRenderer(request, true) == request.nonStreamingRenderer
  {}

  datatype MetadataError = NoNonStreamingRenderer | NoRenderer

  class ResponseNegotiator {
    const rd: Reader
    const streaming: bool
    const renderers: Renderers
    const nonStreaming: Renderers

    ghost predicate Valid() {
      && nonStreaming == NonStreaming(renderers)
      && renderers != [] && nonStreaming != []
    }

    constructor (rd: Reader, renderers: Renderers, streaming: bool)
      requires renderers != [] && NonStreaming(renderers) != []
      ensures Valid()
      ensures this.rd == rd && this.renderers == renderers && this.streaming == streaming
    {
      this.rd, this.renderers, this.streaming := rd, renderers, streaming;
      this.nonStreaming := NonStreaming(renderers);
    }

    /**
     * Construction with its checks. Without any renderer that does not stream, a streaming endpoint
     * is rejected with a message and any other one fails while looking for the default.
     */
    static method Create(rd: Reader, renderers: Renderers, streaming: bool)
      returns (r: Result<ResponseNegotiator, MetadataError>)
      ensures r.Success? <==> exists e :: e in renderers && !e.1.streaming
      ensures r.Success? ==> fresh(r.value) && r.value.Valid()
      ensures r.Success? ==> r.value.rd == rd && r.value.renderers == renderers && r.value.streaming == streaming
      ensures r.Failure? ==> (r.error.NoNonStreamingRenderer? <==> streaming)
    {
      NonStreamingMembers(renderers);
      var plain := NonStreaming(renderers);
      if plain == [] {
        return Failure(if streaming then NoNonStreamingRenderer else NoRenderer);
      }
      assert plain[0] in plain;
      var negotiator := new ResponseNegotiator(rd, renderers, streaming);
      r := Success(negotiator);
    }

    /**
     * `__call__`: sets the request's renderers, or raises. A KeyError of the second lookup escapes after
     * the first renderer has been set.
     */
    method Negotiate(request: HttpRequest) returns (r: Result<Renderer, NegotiationError>)
      requires Valid()
      modifies request
      ensures var first := NegotiateRenderer(rd, request.accept, renderers, renderers[0].1);
        var second := NegotiateRenderer(rd, request.accept, nonStreaming, nonStreaming[0].1);
        && r == (if first.Success? && streaming && second.Failure? && second.error.KeyError? then second else first)
        && request.renderer == (if first.Success? then Some(first.value) else old(request.renderer))
        && request.nonStreamingRenderer
           == if first.Failure? || !streaming then old(request.nonStreamingRenderer)
              else match second
                case Success(renderer) => Some(renderer)
                case Failure(NotAcceptable) => Some(nonStreaming[0].1)
                case Failure(KeyError(_)) => old(request.nonStreamingRenderer)
      ensures r.Success? ==>
        && RightRenderer(rd, request.accept, renderers, renderers[0].1, r)
        && request.renderer == Some(r.value)
      ensures r.Success? && streaming ==>
        && request.nonStreamingRenderer.Some?
        && var plain, default := request.nonStreamingRenderer.value, nonStreaming[0].1;
           || RightRenderer(rd, request.accept, nonStreaming, default, Success(plain))
           || (plain == default && RightRenderer(rd, request.accept, nonStreaming, default, Failure(NotAcceptable)))
      ensures WellConfigured(rd, renderers) ==>
        r == NegotiateRenderer(rd, request.accept, renderers, renderers[0].1)
      ensures r.Success? && streaming && WellConfigured(rd, renderers) ==>
        exists e :: e in renderers && !e.1.streaming && RequestRenderer(request, true) == Some(e.1)
    {
      hide NegotiateRenderer, WellConfigured, RightRenderer;
      NegotiationExact(rd, request.accept, renderers, renderers[0].1);
      NegotiationExact(rd, request.accept, nonStreaming, nonStreaming[0].1);
      r := NegotiateRenderer(rd, request.accept, renderers, renderers[0].1);
      if r.Failure? {
        return;
      }
      request.renderer := Some(r.value);
      if streaming {
        if WellConfigured(rd, renderers) {
          ErrorsCanBeRendered(rd, request.accept, renderers);
        }
        var second := NegotiateRenderer(rd, request.accept, nonStreaming, nonStreaming[0].1);
        match second
        case Success(renderer) => request.nonStreamingRenderer := Some(renderer);
        case Failure(NotAcceptable) => request.nonStreamingRenderer := Some(nonStreaming[0].1);
        case Failure(KeyError(_)) => return second;
      }
    }
  }

  // ---- When the chosen string is a key ----

  /** The content type as negotiation spells it: trimmed and in lower case, with its parameters untouched. */
  function Spelled(key: string): string {
    var fullType := Lower(StripRight(StripLeft(Before(key, ';'))));
    Before(fullType, '/') + "/" + After(fullType, '/') + (if ';' in key then ";" + After(key, ';') else "")
  }

  predicate WildcardFree(rd: Reader, key: string) {
    Parse(rd, key).main != "*" && Parse(rd, key).sub != "*"
  }

  /**
   * For types without wildcards the answer is always the spelling of one of them. So the lookup can
   * only fail on a type that is configured in another spelling than its own.
   */
  lemma {:induction false} AnswerIsSpelling(rd: Reader, accept: string, keys: seq<string>)
    requires forall k :: k in keys ==> WildcardFree(rd, k)
    requires AcceptedTypeOf(rd, accept, keys).Some?
    ensures exists k :: k in keys && k != "" && AcceptedTypeOf(rd, accept, keys).value == Spelled(k)
  {
    hide AcceptedTypeOf, Match, Before, After, Lower, StripLeft, StripRight, Ranges;
    var range, k := AnswerPair(rd, accept, keys);
    assert keys[k] in keys;
  }

  /** Content types as one writes them: lower case, no blanks around, a slash between type and subtype. */
  predicate Canonical(key: string) {
    var typ := Before(key, ';');
    && Lower(typ) == typ
    && StripRight(StripLeft(typ)) == typ
    && '/' in typ
  }

  /** Exactly the canonical types are spelled as they are configured. */
  lemma {:induction false} SpelledAsConfigured(key: string)
    ensures Spelled(key) == key <==> Canonical(key)
  {
    hide Before, After, Lower, StripLeft, StripRight;
    var typ := Before(key, ';');
    var fullType := Lower(StripRight(StripLeft(typ)));
    var tail := if ';' in key then ";" + After(key, ';') else "";
    Partition(key, ';');
    Partition(fullType, '/');
    StripLeftKeeps(typ);
    StripRightKeeps(StripLeft(typ));
    LowerKeeps(StripRight(StripLeft(typ)));
    assert key == typ + tail;
    if '/' in typ {
      assert Before(fullType, '/') + "/" + After(fullType, '/') == fullType;
      assert Spelled(key) == fullType + tail;
      SameFront(fullType, typ, tail);
    } else {
      var spelled := Before(fullType, '/') + "/" + After(fullType, '/');
      assert spelled[|Before(fullType, '/')|] == '/';
      SameFront(spelled, typ, tail);
    }
  }

  lemma SameFront(a: string, b: string, tail: string)
    ensures a + tail == b + tail <==> a == b
  {
    if a + tail == b + tail {
      assert (a + tail)[..|a|] == a && (b + tail)[..|b|] == b;
    }
  }

  // ---- Results ----

  predicate WellConfigured(rd: Reader, renderers: Renderers) {
    forall e :: e in renderers ==> WildcardFree(rd, e.0) && Canonical(e.0)
  }

  /**
   * With canonical types the lookup is total: negotiation returns the renderer of the answered type, or
   * the default without a header, and fails if and only if the header accepts none of the types.
   */
  lemma {:induction false} NegotiationTotal(rd: Reader, accept: Option<string>, renderers: Renderers, default: Renderer)
    requires WellConfigured(rd, renderers)
    ensures var r := NegotiateRenderer(rd, accept, renderers, default);
      && (r.Failure? <==> accept.Some? && forall e :: e in renderers ==> !HeaderAccepts(rd, accept.value, e.0))
      && (r.Failure? ==> r.error == NotAcceptable)
      && (accept.None? ==> r == Success(default))
      && (accept.Some? && r.Success? ==> exists e ::
            && e in renderers && e.1 == r.value
            && AcceptedTypeOf(rd, accept.value, Keys(renderers)) == Some(e.0) && HeaderAccepts(rd, accept.value, e.0))
  {
    hide AcceptedTypeOf, HeaderAccepts, Canonical, WildcardFree, Spelled, Find;
    if accept.Some? {
      var keys := Keys(renderers);
      MatchersAgree(rd, accept.value, keys);
      forall k | k in keys
        ensures WildcardFree(rd, k) && Canonical(k)
      {
        var i :| 0 <= i < |keys| && keys[i] == k;
        assert renderers[i] in renderers;
      }
      forall e | e in renderers
        ensures e.0 in keys
      {
        var i :| 0 <= i < |renderers| && renderers[i] == e;
        assert keys[i] == e.0;
      }
      if AcceptedTypeOf(rd, accept.value, keys).Some? {
        AnswerIsSpelling(rd, accept.value, keys);
        var k :| k in keys && k != "" && AcceptedTypeOf(rd, accept.value, keys).value == Spelled(k);
        SpelledAsConfigured(k);
        FindsKeys(renderers, k);
        AnswerIsAccepted(rd, accept.value, keys);
      }
      forall k | 0 <= k < |keys|
        ensures exists e :: e in renderers && e.0 == keys[k]
      {
        assert renderers[k] in renderers;
      }
    }
  }

  /**
   * The condition is exact: an endpoint with a single type serves a client that asks for this very
   * type if and only if the type is canonical; otherwise looking up the answer raises KeyError.
   */
  lemma {:induction false} SingleTypeServed(rd: Reader, key: string, renderer: Renderer)
    requires key != "" && ',' !in key && WildcardFree(rd, key)
    ensures NegotiateRenderer(rd, Some(key), [(key, renderer)], renderer)
      == if Canonical(key) then Success(renderer) else Failure(KeyError(Spelled(key)))
  {
    hide AcceptedTypeOf, Canonical, Match, Ranges, Spelled;
    var renderers := [(key, renderer)];
    var keys := Keys(renderers);
    assert keys == [key];
    SingleRange(rd, key);
    MatchesItself(Parse(rd, key));
    assert HeaderAccepts(rd, key, keys[0]) by {
      assert Ranges(rd, key)[0] == Parse(rd, key);
    }
    MatchersAgree(rd, key, keys);
    AnswerIsSpelling(rd, key, keys);
    SpelledAsConfigured(key);
    FindsKeys(renderers, Spelled(key));
    assert Find(renderers, key) == Some(renderer);
  }

  lemma {:induction false} LowerHasNoUpper(s: string)
    ensures forall c | c in Lower(s) :: !('A' <= c <= 'Z')
    ensures '*' !in s ==> '*' !in Lower(s)
  {
    if s != "" {
      LowerHasNoUpper(s[1..]);
      assert [s[0]] + s[1..] == s;
    }
  }

  lemma {:induction false} StripOnlyRemoves(s: string, c: char)
    requires c !in s
    ensures c !in StripLeft(s) && c !in StripRight(s)
  {
    if s != "" {
      assert [s[0]] + s[1..] == s && s[..|s| - 1] + [s[|s| - 1]] == s;
      StripOnlyRemoves(s[1..], c);
      StripOnlyRemoves(s[..|s| - 1], c);
    }
  }

  lemma NoWildcards(rd: Reader, key: string)
    requires '*' !in key && ';' !in key
    ensures WildcardFree(rd, key)
  {
    Partition(key, ';');
    StripOnlyRemoves(key, '*');
    StripOnlyRemoves(StripLeft(key), '*');
    LowerHasNoUpper(StripRight(StripLeft(key)));
    var fullType := Lower(StripRight(StripLeft(key)));
    Partition(fullType, '/');
    hide StripLeft, StripRight, Lower, Before, After;
    assert Parse(rd, key).main == Before(fullType, '/') && Parse(rd, key).sub == After(fullType, '/');
    assert '*' !in Before(fullType, '/') && '*' !in After(fullType, '/');
    assert '*' in "*" by { assert "*"[0] == '*'; }
  }

  /** The failing inputs: a type with an upper-case letter, asked for just as it is configured. */
  lemma {:induction false} UpperCaseRaises(rd: Reader, key: string, letter: char, renderer: Renderer)
    requires ',' !in key && ';' !in key && '*' !in key
    requires letter in key && 'A' <= letter <= 'Z'
    ensures NegotiateRenderer(rd, Some(key), [(key, renderer)], renderer) == Failure(KeyError(Spelled(key)))
  {
    NoWildcards(rd, key);
    Partition(key, ';');
    LowerHasNoUpper(key);
    assert !Canonical(key);
    hide NegotiateRenderer, Canonical;
    SingleTypeServed(rd, key, renderer);
  }

  lemma MatchesItself(m: MediaType)
    ensures Match(m, m)
  {}

  // ---- The lookup over whole configurations ----

  /** What negotiation is asked to choose from: without wildcards, and writable into a header as it is. */
  predicate Askable(rd: Reader, keys: seq<string>) {
    forall k | k in keys && k != "" :: WildcardFree(rd, k) && ',' !in k
  }

  /** No type in front of it matches a request for this one. */
  predicate Leads(rd: Reader, given: seq<string>, j: nat)
    requires j < |given|
  {
    forall i :: 0 <= i < j ==> !Match(Parse(rd, given[i]), Parse(rd, given[j]))
  }

  lemma MatchTransitive(a: MediaType, b: MediaType, range: MediaType)
    requires Match(a, b) && Match(b, range)
    requires b.main != "*" && b.sub != "*" && a.main != "*" && a.sub != "*"
    ensures Match(a, range)
  {}

  /** Every answer is the spelling of a leading type. */
  lemma {:induction false} AnswerLeads(rd: Reader, accept: string, keys: seq<string>) returns (j: nat)
    requires Askable(rd, keys) && AcceptedTypeOf(rd, accept, keys).Some?
    ensures j < |NonEmpty(keys)| && Leads(rd, NonEmpty(keys), j)
    ensures AcceptedTypeOf(rd, accept, keys) == Some(Spelled(NonEmpty(keys)[j]))
  {
    hide Match, Parse, AsString, StableSort.IsBest, Ranges, AcceptedTypeOf, NonEmpty, Spelled, WildcardFree;
    AcceptedTypeIsBest(rd, accept, keys);
    var given, ranges, provided := NonEmpty(keys), Ranges(rd, accept), Provided(rd, keys);
    var answer := AcceptedTypeOf(rd, accept, keys).value;
    ParsedInOrder(rd, given);
    var i: nat, j': nat :| IsBestPair(ranges, provided, i, j') && answer == AsString(provided[j'], ranges[i]);
    j := j';
    assert given[j] in given;
    SpelledByString(rd, given[j], ranges[i]);
    forall k | 0 <= k < j
      ensures !Match(Parse(rd, given[k]), Parse(rd, given[j]))
    {
      assert given[k] in given && !Match(provided[k], ranges[i]);
      if Match(Parse(rd, given[k]), Parse(rd, given[j])) {
        WildcardFreeParts(rd, given[k]);
        WildcardFreeParts(rd, given[j]);
        MatchTransitive(Parse(rd, given[k]), Parse(rd, given[j]), ranges[i]);
      }
    }
  }

  lemma WildcardFreeParts(rd: Reader, key: string)
    requires WildcardFree(rd, key)
    ensures Parse(rd, key).main != "*" && Parse(rd, key).sub != "*"
  {}

  lemma SpelledByString(rd: Reader, key: string, range: MediaType)
    requires WildcardFree(rd, key)
    ensures AsString(Parse(rd, key), range) == Spelled(key)
  {
    hide Before, After, Lower, StripLeft, StripRight;
  }

  /** A leading type answers the request for itself. */
  lemma {:induction false} LeaderAnswers(rd: Reader, keys: seq<string>, j: nat)
    requires Askable(rd, keys) && j < |NonEmpty(keys)| && Leads(rd, NonEmpty(keys), j)
    ensures AcceptedTypeOf(rd, NonEmpty(keys)[j], keys) == Some(Spelled(NonEmpty(keys)[j]))
  {
    hide Match, Parse, AsString, AcceptedTypeOf, NonEmpty, Spelled, WildcardFree, Ranges;
    var given, provided := NonEmpty(keys), Provided(rd, keys);
    var accept := given[j];
    assert accept in given;
    SingleRange(rd, accept);
    ParsedInOrder(rd, given);
    MatchesItself(Parse(rd, accept));
    AcceptedTypeIsBest(rd, accept, keys);
    var ranges := Ranges(rd, accept);
    assert Match(provided[j], ranges[0]);
    var answer := AcceptedTypeOf(rd, accept, keys);
    var i: nat, j': nat :| IsBestPair(ranges, provided, i, j') && answer.value == AsString(provided[j'], ranges[i]);
    assert j' == j;
    SpelledByString(rd, accept, ranges[i]);
  }

  predicate LookupFails(rd: Reader, accept: string, renderers: Renderers, default: Renderer) {
    var r := NegotiateRenderer(rd, Some(accept), renderers, default);
    r.Failure? && r.error.KeyError?
  }

  /**
   * The exact condition for any number of types without wildcards and commas: no header whatsoever
   * makes the lookup raise KeyError, if and only if the spelling of each leading type is a key.
   */
  lemma {:induction false} LookupExact(rd: Reader, renderers: Renderers, default: Renderer)
    requires Askable(rd, Keys(renderers))
    ensures (forall accept :: !LookupFails(rd, accept, renderers, default))
      <==> var given := NonEmpty(Keys(renderers));
        forall j | 0 <= j < |given| && Leads(rd, given, j) :: Spelled(given[j]) in Keys(renderers)
  {
    hide AcceptedTypeOf, Spelled, NonEmpty, Leads, Askable, Find;
    var keys := Keys(renderers);
    var given := NonEmpty(keys);
    if forall j | 0 <= j < |given| && Leads(rd, given, j) :: Spelled(given[j]) in keys {
      forall accept
        ensures !LookupFails(rd, accept, renderers, default)
      {
        if AcceptedTypeOf(rd, accept, keys).Some? {
          var j := AnswerLeads(rd, accept, keys);
          FindsKeys(renderers, Spelled(given[j]));
        }
      }
    } else {
      var j :| 0 <= j < |given| && Leads(rd, given, j) && Spelled(given[j]) !in keys;
      LeaderAnswers(rd, keys, j);
      FindsKeys(renderers, Spelled(given[j]));
      assert LookupFails(rd, given[j], renderers, default);
    }
  }

  /**
   * Not to fail is not to be right: when another type is configured under the spelling of the first,
   * a request for the first type is served by the renderer of the other one.
   */
  lemma {:induction false} OtherRendererServes(rd: Reader, key: string, first: Renderer, other: Renderer)
    requires key != "" && ',' !in key && WildcardFree(rd, key) && !Canonical(key)
    ensures NegotiateRenderer(rd, Some(key), [(key, first), (Spelled(key), other)], first) == Success(other)
  {
    hide AcceptedTypeOf, Canonical, Match, Ranges, Spelled, StableSort.IsBest, Parse, AsString, WildcardFree;
    var renderers := [(key, first), (Spelled(key), other)];
    assert renderers[1..] == [(Spelled(key), other)];
    var keys := Keys(renderers);
    assert keys == [key, Spelled(key)];
    SpelledAsConfigured(key);
    SingleRange(rd, key);
    MatchesItself(Parse(rd, key));
    AcceptedTypeIsBest(rd, key, keys);
    var ranges, provided := Ranges(rd, key), Provided(rd, keys);
    FirstProvided(rd, keys);
    assert Match(provided[0], ranges[0]);
    var answer := AcceptedTypeOf(rd, key, keys);
    var i: nat, j: nat :| IsBestPair(ranges, provided, i, j) && answer.value == AsString(provided[j], ranges[i]);
    assert j == 0;
    SpelledByString(rd, key, ranges[i]);
    assert answer == Some(Spelled(key));
    assert Find(renderers[1..], Spelled(key)) == Some(other);
    assert Find(renderers, Spelled(key)) == Some(other);
  }

  /**
   * Errors of a stream can always be rendered: whenever the main negotiation of a streaming endpoint
   * succeeds, the second one finds a configured renderer that does not stream or falls back to one.
   */
  lemma {:induction false} ErrorsCanBeRendered(rd: Reader, accept: Option<string>, renderers: Renderers)
    requires WellConfigured(rd, renderers) && NonStreaming(renderers) != []
    ensures var plain := NonStreaming(renderers);
      var second := NegotiateRenderer(rd, accept, plain, plain[0].1);
      && (second.Failure? ==> second.error == NotAcceptable)
      && exists e :: e in renderers && !e.1.streaming
           && e.1 == if second.Success? then second.value else plain[0].1
  {
    hide NegotiateRenderer, Canonical, WildcardFree;
    NonStreamingMembers(renderers);
    var plain := NonStreaming(renderers);
    NegotiationTotal(rd, accept, plain, plain[0].1);
    assert plain[0] in plain;
  }
}
