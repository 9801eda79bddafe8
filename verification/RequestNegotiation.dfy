/** Choosing the parser of a request body by its content type: a dictionary first, a scan by precedence otherwise. */
module RequestNegotiation {
  import opened Wrappers
  import opened StableSort

  /** Django's `MediaType`, as `media_compat` uses it. */
  datatype Media = Media(main: string, sub: string, params: map<string, string>)

  type Thousandths = n: nat | n <= 1000

  /**
   * How a content type is read, how `q` becomes a quality (1000 where it is not a number between 0
   * and 1), and how parameters are written back behind the first "; ".
   */
  datatype Reader = Reader(
    parse: string -> Media,
    quality: string -> Thousandths,
    show: map<string, string> -> string)

  /** `media_range_params`: everything but the quality. */
  function RangeParams(m: Media): map<string, string> { m.params - {"q"} }

  /** `media_quality`. */
  function Quality(rd: Reader, m: Media): nat {
    if "q" in m.params then rd.quality(m.params["q"]) else 1000
  }

  /** `media_specificity`. */
  function Specificity(m: Media): int {
    if m.main == "*" then 0 else if m.sub == "*" then 1 else if RangeParams(m) == map[] then 2 else 3
  }

  /** `str(media)`. */
  function Text(rd: Reader, m: Media): string {
    m.main + (if m.sub == "" then "" else "/" + m.sub) + (if m.params == map[] then "" else "; " + rd.show(m.params))
  }

  /** `media_match`. */
  predicate MediaMatch(rd: Reader, media: Media, contentType: string) {
    contentType != "" &&
    var other := rd.parse(contentType);
    && media.main != "" && other.main != "" && media.sub != "" && other.sub != ""
    && (media.main == other.main || media.main == "*" || other.main == "*")
    && (media.sub == other.sub || media.sub == "*" || other.sub == "*")
    && var mine, theirs := RangeParams(media), RangeParams(other);
       if (mine != map[]) == (theirs != map[]) then mine == theirs else mine != map[] || theirs == map[]
  }

  function PriorityOf(rd: Reader): Media -> Priority {
    m => (Specificity(m), Quality(rd, m))
  }

  function MatchesType(rd: Reader, contentType: string): Media -> bool {
    m => MediaMatch(rd, m, contentType)
  }

  /** The media types of non-zero quality, in the order in which they are configured. */
  function Usable(rd: Reader, types: seq<string>): seq<Media> {
    if types == [] then []
    else
      (if Quality(rd, rd.parse(types[0])) != 0 then [rd.parse(types[0])] else []) + Usable(rd, types[1..])
  }

  lemma {:induction false} UsableMembers(rd: Reader, types: seq<string>)
    ensures forall m :: m in Usable(rd, types) ==> exists t :: t in types && m == rd.parse(t) && Quality(rd, m) != 0
    ensures forall t :: t in types && Quality(rd, rd.parse(t)) != 0 ==> rd.parse(t) in Usable(rd, types)
  {
    if types != [] {
      UsableMembers(rd, types[1..]);
    }
  }

  /** `media_by_precedence`. */
  function MediaByPrecedence(rd: Reader, types: seq<string>): seq<Media> {
    SortDescending(Usable(rd, types), PriorityOf(rd))
  }

  datatype ParseError = UnsupportedType | KeyError

  /** What the scan alone decides: the configured type under which the parser is looked up. */
  function ScanOf(rd: Reader, types: seq<string>, contentType: string): Result<string, ParseError> {
    var hit := First(MediaByPrecedence(rd, types), MatchesType(rd, contentType));
    if hit.None? then Failure(UnsupportedType)
    else if Text(rd, hit.value) in types then Success(Text(rd, hit.value))
    else Failure(KeyError)
  }

  /** The whole decision; requests without any content type get the default parser. */
  function DecisionOf(rd: Reader, types: seq<string>, contentType: Option<string>): Result<string, ParseError>
    requires types != []
  {
    if contentType.None? then Success(types[0])
    else if contentType.value in types && '*' !in contentType.value then Success(contentType.value)
    else ScanOf(rd, types, contentType.value)
  }

  class HttpRequest {
    const contentType: Option<string>
    var parser: Option<string>

    constructor (contentType: Option<string>)
      ensures this.contentType == contentType && parser.None?
    {
      this.contentType, this.parser := contentType, None;
    }
  }

  /** Parsers are named by the content type under which they are configured. */
  class RequestNegotiator {
    const rd: Reader
    const types: seq<string>
    const exact: set<string>
    const byPrecedence: seq<Media>

    ghost predicate Valid() {
      && types != []
      && exact == (set t | t in types && '*' !in t)
      && byPrecedence == MediaByPrecedence(rd, types)
    }

    constructor (rd: Reader, types: seq<string>)
      requires types != []
      ensures Valid() && this.rd == rd && this.types == types
    {
      this.rd, this.types := rd, types;
      this.exact := set t | t in types && '*' !in t;
      this.byPrecedence := MediaByPrecedence(rd, types);
    }

    method Decide(contentType: Option<string>) returns (r: Result<string, ParseError>)
      requires Valid()
      ensures r == DecisionOf(rd, types, contentType)
      ensures contentType.None? ==> r == Success(types[0])
      ensures contentType.Some? && contentType.value in types && '*' !in contentType.value ==>
        r == Success(contentType.value)
    {
      if contentType.None? {
        return Success(types[0]);
      }
      if contentType.value in exact {
        return Success(contentType.value);
      }
      var i := 0;
      while i < |byPrecedence|
        invariant 0 <= i <= |byPrecedence|
        invariant First(byPrecedence, MatchesType(rd, contentType.value))
          == First(byPrecedence[i..], MatchesType(rd, contentType.value))
      {
        if MediaMatch(rd, byPrecedence[i], contentType.value) {
          var key := Text(rd, byPrecedence[i]);
          return if key in types then Success(key) else Failure(KeyError);
        }
        i := i + 1;
      }
      return Failure(UnsupportedType);
    }

    /** `__call__`: decides once per request and remembers the parser. */
    method Negotiate(request: HttpRequest) returns (r: Result<string, ParseError>)
      requires Valid()
      modifies request
      ensures old(request.parser).Some? ==> r == Success(old(request.parser).value)
      ensures old(request.parser).None? ==> r == DecisionOf(rd, types, request.contentType)
      ensures request.parser == if r.Success? then Some(r.value) else None
    {
      if request.parser.Some? {
        return Success(request.parser.value);
      }
      r := Decide(request.contentType);
      if r.Success? {
        request.parser := Some(r.value);
      }
    }
  }

  // ---- Precedence ----

  /** Parameters before plain types, plain types before all subtypes of a type, these before everything. */
  ghost predicate MoreSpecific(a: Media, b: Media) {
    || (a.main != "*" && b.main == "*")
    || (a.main != "*" && b.main != "*" && a.sub != "*" && b.sub == "*")
    || ("*" !in {a.main, a.sub, b.main, b.sub}
        && (exists key :: key in a.params && key != "q") && (forall key :: key in b.params ==> key == "q"))
  }

  /** What is more specific comes first, and the higher quality second; no `q` is the full quality. */
  ghost predicate Precedes(rd: Reader, a: Media, b: Media) {
    || MoreSpecific(a, b)
    || (!MoreSpecific(b, a)
        && (if "q" in a.params then rd.quality(a.params["q"]) else 1000)
         > (if "q" in b.params then rd.quality(b.params["q"]) else 1000))
  }

  lemma {:induction false} OrderExact(rd: Reader, a: Media, b: Media)
    ensures Below(PriorityOf(rd)(b), PriorityOf(rd)(a)) <==> Precedes(rd, a, b)
  {
    ParamsKnown(a);
    ParamsKnown(b);
  }

  lemma ParamsKnown(m: Media)
    ensures RangeParams(m) == map[] <==> forall key :: key in m.params ==> key == "q"
  {
    if RangeParams(m) == map[] {
      forall key | key in m.params
        ensures key == "q"
      {
        assert key != "q" ==> key in RangeParams(m);
      }
    }
  }

  /**
   * The names meet, where a wildcard on either side meets anything; parameters meet the same ones, and a
   * type with parameters serves requests without any.
   */
  ghost predicate Fits(rd: Reader, m: Media, contentType: string) {
    contentType != "" &&
    var other := rd.parse(contentType);
    && "" !in {m.main, m.sub, other.main, other.sub}
    && (m.main == other.main || "*" in {m.main, other.main})
    && (m.sub == other.sub || "*" in {m.sub, other.sub})
    && ((forall key :: key in other.params ==> key == "q")
        || (forall key | key != "q" :: Lookup(m.params, key) == Lookup(other.params, key)))
  }

  lemma {:induction false} MatchExact(rd: Reader, m: Media, contentType: string)
    ensures MediaMatch(rd, m, contentType) <==> Fits(rd, m, contentType)
  {
    var other := rd.parse(contentType);
    ParamsKnown(other);
    ParamsKnown(m);
    SameParams(m, other);
  }

  lemma SameParams(a: Media, b: Media)
    ensures RangeParams(a) == RangeParams(b)
      <==> forall key | key != "q" :: Lookup(a.params, key) == Lookup(b.params, key)
  {
    if forall key | key != "q" :: Lookup(a.params, key) == Lookup(b.params, key) {
      forall key
        ensures key in RangeParams(a) <==> key in RangeParams(b)
        ensures key in RangeParams(a) ==> RangeParams(a)[key] == RangeParams(b)[key]
      {
        if key != "q" {
          assert Lookup(a.params, key) == Lookup(b.params, key);
        }
      }
    } else {
      var key :| key != "q" && Lookup(a.params, key) != Lookup(b.params, key);
      assert key in RangeParams(a) <==> key in a.params;
      assert key in RangeParams(b) <==> key in b.params;
    }
  }

  /**
   * The scan answers with a matching type of greatest specificity, then quality, the first one
   * configured among equals, and rejects the request only if no usable type matches.
   */
  lemma {:induction false} ScanIsBest(rd: Reader, types: seq<string>, contentType: string)
    ensures var usable := Usable(rd, types);
      var best := BestIndex(usable, MatchesType(rd, contentType), PriorityOf(rd));
      && (best.None? ==> forall m :: m in usable ==> !MediaMatch(rd, m, contentType))
      && (best.None? <==> ScanOf(rd, types, contentType) == Failure(UnsupportedType))
      && (best.Some? ==>
            && IsBest(usable, MatchesType(rd, contentType), PriorityOf(rd), best.value)
            && First(MediaByPrecedence(rd, types), MatchesType(rd, contentType)) == Some(usable[best.value]))
  {
    hide MediaMatch, Quality, Specificity, Text;
    var usable, p, key := Usable(rd, types), MatchesType(rd, contentType), PriorityOf(rd);
    FirstOfSorted(usable, p, key);
    BestIndexIsBest(usable, p, key);
    if BestIndex(usable, p, key).None? {
      forall m | m in usable
        ensures !MediaMatch(rd, m, contentType)
      {
        var i :| 0 <= i < |usable| && usable[i] == m;
        assert !p(usable[i]);
      }
    }
  }

  // ---- The lookup of the scanned type ----

  /** The text of a media type: its names, the subtype only if there is one, and its parameters behind "; ". */
  lemma {:induction false} TextParts(rd: Reader, main: string, sub: string, params: map<string, string>)
    ensures Text(rd, Media(main, "", map[])) == main
    ensures sub != "" ==> Text(rd, Media(main, sub, map[])) == main + "/" + sub
    ensures params != map[] ==>
      Text(rd, Media(main, sub, params)) == Text(rd, Media(main, sub, map[])) + "; " + rd.show(params)
  {}

  /** The key under which the parser is looked up is spelled like the configured type. */
  predicate SpelledAsConfigured(rd: Reader, t: string) { Text(rd, rd.parse(t)) == t }

  /**
   * With types that are spelled as configured the lookup never fails: the scan rejects exactly the
   * requests that no usable type matches, and otherwise returns a configured type that matches, of
   * greatest specificity, then quality, the first one configured among equals.
   */
  lemma {:induction false} ScanServes(rd: Reader, types: seq<string>, contentType: string)
    requires forall u :: u in types ==> SpelledAsConfigured(rd, u)
    ensures match ScanOf(rd, types, contentType)
      case Success(t) =>
        && t in types
        && exists i :: 0 <= i < |Usable(rd, types)| && Usable(rd, types)[i] == rd.parse(t)
             && IsBest(Usable(rd, types), MatchesType(rd, contentType), PriorityOf(rd), i)
      case Failure(error) =>
        && error == UnsupportedType
        && forall m :: m in Usable(rd, types) ==> !MediaMatch(rd, m, contentType)
  {
    hide MediaMatch, Text, Usable, MediaByPrecedence, First, BestIndex, IsBest;
    ScanIsBest(rd, types, contentType);
    UsableMembers(rd, types);
    var usable := Usable(rd, types);
    var best := BestIndex(usable, MatchesType(rd, contentType), PriorityOf(rd));
    if best.Some? {
      var m := usable[best.value];
      assert m in usable;
      var u :| u in types && m == rd.parse(u);
      assert SpelledAsConfigured(rd, u);
    }
  }

  /**
   * The condition is exact: an endpoint with one parser serves a request that its type matches if and
   * only if the type is spelled as configured; otherwise the lookup raises KeyError.
   */
  lemma {:induction false} SingleParserServes(rd: Reader, t: string, contentType: string)
    requires Quality(rd, rd.parse(t)) != 0 && MediaMatch(rd, rd.parse(t), contentType)
    ensures ScanOf(rd, [t], contentType)
      == if SpelledAsConfigured(rd, t) then Success(t) else Failure(KeyError)
  {
    hide MediaMatch, Text;
    var m := rd.parse(t);
    assert Usable(rd, [t]) == [m];
    SortOne(m, PriorityOf(rd));
    assert First([m], MatchesType(rd, contentType)) == Some(m);
  }

  // ---- The lookup over whole configurations ----

  predicate SameNames(a: Media, b: Media) { a.main == b.main && a.sub == b.sub }

  /** Ranks before in its class: the same names and parameters, and a higher quality or an earlier place. */
  predicate Outranks(rd: Reader, usable: seq<Media>, j: nat, i: nat)
    requires i < |usable| && j < |usable|
  {
    && SameNames(usable[j], usable[i]) && RangeParams(usable[j]) == RangeParams(usable[i])
    && (Quality(rd, usable[j]) > Quality(rd, usable[i]) || (Quality(rd, usable[j]) == Quality(rd, usable[i]) && j < i))
  }

  /** Carries parameters, where the other one does not. */
  predicate Specializes(usable: seq<Media>, j: nat, i: nat)
    requires i < |usable| && j < |usable|
  {
    SameNames(usable[j], usable[i]) && RangeParams(usable[i]) == map[] && RangeParams(usable[j]) != map[]
  }

  /** The scan can end here: the type has names, and no form of it ranks before it. */
  ghost predicate Leads(rd: Reader, usable: seq<Media>, i: nat)
    requires i < |usable|
  {
    && usable[i].main != "" && usable[i].sub != ""
    && (forall j :: 0 <= j < |usable| ==> !Outranks(rd, usable, j, i))
    && (forall j :: 0 <= j < |usable| ==> !Specializes(usable, j, i))
  }

  ghost predicate WildcardFree(usable: seq<Media>) {
    forall i :: 0 <= i < |usable| ==> usable[i].main != "*" && usable[i].sub != "*"
  }

  /** Where the scan ends for any content type. */
  lemma BestLeads(rd: Reader, usable: seq<Media>, contentType: string, i: nat)
    requires WildcardFree(usable)
    requires IsBest(usable, MatchesType(rd, contentType), PriorityOf(rd), i)
    ensures Leads(rd, usable, i)
  {
    var p, key := MatchesType(rd, contentType), PriorityOf(rd);
    assert p(usable[i]);
    forall j | 0 <= j < |usable|
      ensures !Outranks(rd, usable, j, i)
    {
      if SameNames(usable[j], usable[i]) && RangeParams(usable[j]) == RangeParams(usable[i]) {
        assert p(usable[j]) && !Below(key(usable[i]), key(usable[j]));
      }
    }
    forall j | 0 <= j < |usable|
      ensures !Specializes(usable, j, i)
    {
      if SameNames(usable[j], usable[i]) && RangeParams(usable[i]) == map[] {
        assert p(usable[j]) && !Below(key(usable[i]), key(usable[j]));
      }
    }
  }

  /** A leading type is where the scan ends for the type itself. */
  lemma LeaderIsBest(rd: Reader, usable: seq<Media>, t: string, i: nat)
    requires WildcardFree(usable) && i < |usable| && Leads(rd, usable, i)
    requires t != "" && rd.parse(t) == usable[i]
    ensures IsBest(usable, MatchesType(rd, t), PriorityOf(rd), i)
  {
    var p, key := MatchesType(rd, t), PriorityOf(rd);
    forall j | 0 <= j < |usable| && p(usable[j])
      ensures !Below(key(usable[i]), key(usable[j])) && (j < i ==> key(usable[j]) != key(usable[i]))
    {
      assert SameNames(usable[j], usable[i]);
      assert !Outranks(rd, usable, j, i) && !Specializes(usable, j, i);
      assert RangeParams(usable[j]) == RangeParams(usable[i]);
    }
  }

  /**
   * The exact condition for any number of types without wildcards: no content type whatsoever makes
   * the lookup raise KeyError, if and only if the text of each leading type is a configured type.
   */
  lemma {:induction false} LookupExact(rd: Reader, types: seq<string>)
    requires rd.parse("").main == "" && WildcardFree(Usable(rd, types))
    ensures (forall contentType :: ScanOf(rd, types, contentType) != Failure(KeyError))
      <==> var usable := Usable(rd, types);
        forall i | 0 <= i < |usable| && Leads(rd, usable, i) :: Text(rd, usable[i]) in types
  {
    hide MediaMatch, Text, Usable, MediaByPrecedence, First, BestIndex, IsBest, Leads;
    var usable := Usable(rd, types);
    if forall i | 0 <= i < |usable| && Leads(rd, usable, i) :: Text(rd, usable[i]) in types {
      forall contentType
        ensures ScanOf(rd, types, contentType) != Failure(KeyError)
      {
        ScanIsBest(rd, types, contentType);
        var best := BestIndex(usable, MatchesType(rd, contentType), PriorityOf(rd));
        if best.Some? {
          BestLeads(rd, usable, contentType, best.value);
        }
      }
    } else {
      var i :| 0 <= i < |usable| && Leads(rd, usable, i) && Text(rd, usable[i]) !in types;
      UsableMembers(rd, types);
      assert usable[i] in usable;
      var t :| t in types && usable[i] == rd.parse(t);
      LeaderNamed(rd, usable, i);
      LeaderIsBest(rd, usable, t, i);
      ScanIsBest(rd, types, t);
      BestIndexIsBest(usable, MatchesType(rd, t), PriorityOf(rd));
      assert MatchesType(rd, t)(usable[i]) by { BestMatches(rd, usable, t, i); }
      BestIsUnique(usable, MatchesType(rd, t), PriorityOf(rd), i,
                   BestIndex(usable, MatchesType(rd, t), PriorityOf(rd)).value);
      assert ScanOf(rd, types, t) == Failure(KeyError);
    }
  }

  lemma LeaderNamed(rd: Reader, usable: seq<Media>, i: nat)
    requires i < |usable| && Leads(rd, usable, i)
    ensures usable[i].main != ""
  {}

  lemma BestMatches(rd: Reader, usable: seq<Media>, t: string, i: nat)
    requires IsBest(usable, MatchesType(rd, t), PriorityOf(rd), i)
    ensures MatchesType(rd, t)(usable[i])
  {}

  // ---- The fast path ----

  /** A configured type that names a type and a subtype and is spelled as configured. */
  predicate Readable(rd: Reader, t: string) {
    SpelledAsConfigured(rd, t) && rd.parse(t).main != "" && rd.parse(t).sub != ""
  }

  /**
   * Another usable type with the same type and subtype ranks before a plain one: it carries
   * parameters, or it carries only a full quality and stands in front.
   */
  ghost predicate Shadowed(rd: Reader, types: seq<string>, t: string) {
    var usable, own := Usable(rd, types), rd.parse(t);
    exists i :: 0 <= i < |usable|
      && usable[i].main == own.main && usable[i].sub == own.sub && usable[i].params != map[]
      && (RangeParams(usable[i]) != map[] || (Quality(rd, usable[i]) == 1000 && own !in usable[..i]))
  }

  lemma NoStars(rd: Reader, t: string, m: Media)
    requires Text(rd, m) == t && '*' !in t && m.main != "" && m.sub != ""
    ensures m.main != "*" && m.sub != "*"
  {
    assert t[0] == m.main[0] && t[0] in t;
    assert t[|m.main| + 1] == m.sub[0] && m.sub[0] in t;
  }

  /** Which types match a plain type: itself, wildcards over it, and parameterized forms of it. */
  lemma PlainMatch(rd: Reader, t: string, m: Media)
    requires t != "" && rd.parse(t).params == map[]
    requires rd.parse(t).main !in {"", "*"} && rd.parse(t).sub !in {"", "*"}
    ensures MediaMatch(rd, m, t) <==>
      (m.main == rd.parse(t).main || m.main == "*") && (m.sub == rd.parse(t).sub || m.sub == "*")
    ensures MediaMatch(rd, rd.parse(t), t)
    ensures Quality(rd, rd.parse(t)) == 1000 && Specificity(rd.parse(t)) == 2
  {
    assert RangeParams(rd.parse(t)) == map[];
  }

  /** Two media types of the same names that are written alike carry the same parameters, or both do. */
  lemma SameText(rd: Reader, a: Media, b: Media)
    requires a.main == b.main && a.sub == b.sub && Text(rd, a) == Text(rd, b) && a.params == map[]
    ensures b.params == map[]
  {
    assert |Text(rd, b)| == |Text(rd, a)|;
  }

  /**
   * For a plain type that is spelled as configured, the scan reaches its own parser, like the
   * dictionary does, if and only if no other form of the type shadows it. The other types may be
   * configured in any spelling.
   */
  lemma {:induction false} FastPathReadable(rd: Reader, types: seq<string>, t: string)
    requires t in types && '*' !in t && rd.parse(t).params == map[] && Readable(rd, t)
    ensures ScanOf(rd, types, t) == Success(t) <==> !Shadowed(rd, types, t)
  {
    hide MediaMatch, Text, Usable, MediaByPrecedence, First, BestIndex;
    var own, usable := rd.parse(t), Usable(rd, types);
    var p, key := MatchesType(rd, t), PriorityOf(rd);
    NoStars(rd, t, own);
    NotEmpty(rd, t);
    PlainMatch(rd, t, own);
    UsableMembers(rd, types);
    ScanIsBest(rd, types, t);
    var j :| 0 <= j < |usable| && usable[j] == own;
    assert p(usable[j]);
    var best := BestIndex(usable, p, key).value;
    var m := usable[best];
    assert p(m) && !Below(key(m), key(own));
    PlainMatch(rd, t, m);
    assert m.main == own.main && m.sub == own.sub;
    if Text(rd, m) == t {
      SameText(rd, own, m);
      assert m == own;
    }
    ShadowedByBest(rd, types, t, best);
  }

  lemma NotEmpty(rd: Reader, t: string)
    requires Readable(rd, t)
    ensures t != ""
  {}

  /** The best match of a plain type is the type itself if and only if nothing shadows it. */
  lemma ShadowedByBest(rd: Reader, types: seq<string>, t: string, best: nat)
    requires t != "" && rd.parse(t).params == map[] && rd.parse(t) in Usable(rd, types)
    requires rd.parse(t).main !in {"", "*"} && rd.parse(t).sub !in {"", "*"}
    requires best < |Usable(rd, types)| && IsBest(Usable(rd, types), MatchesType(rd, t), PriorityOf(rd), best)
    ensures Usable(rd, types)[best] == rd.parse(t) <==> !Shadowed(rd, types, t)
  {
    hide MediaMatch, Usable;
    var own, usable := rd.parse(t), Usable(rd, types);
    var p, key := MatchesType(rd, t), PriorityOf(rd);
    var m := usable[best];
    PlainMatch(rd, t, own);
    PlainMatch(rd, t, m);
    var j :| 0 <= j < |usable| && usable[j] == own;
    assert p(usable[j]) && p(m);
    assert !Below(key(m), key(usable[j]));
    assert m.main == own.main && m.sub == own.sub;
    if m != own {
      assert m.params != map[];
      if RangeParams(m) == map[] {
        assert key(m) == key(own);
        assert forall k :: 0 <= k < best && p(usable[k]) ==> usable[..best][k] != own;
      }
    } else {
      forall i | 0 <= i < |usable|
          && usable[i].main == own.main && usable[i].sub == own.sub && usable[i].params != map[]
        ensures RangeParams(usable[i]) == map[] && (Quality(rd, usable[i]) == 1000 ==> own in usable[..i])
      {
        PlainMatch(rd, t, usable[i]);
        assert p(usable[i]) && !Below(key(m), key(usable[i]));
        if Quality(rd, usable[i]) == 1000 {
          assert key(usable[i]) == key(m) && best < i;
          assert usable[..i][best] == own;
        }
      }
    }
  }

  /** Reading neither invents wildcards nor loses, after writing, that there are parameters. */
  ghost predicate Faithful(rd: Reader) {
    && (forall t :: '*' !in t ==> rd.parse(t).main != "*" && rd.parse(t).sub != "*")
    && (forall t :: rd.parse(t).params != map[] ==> rd.parse(Text(rd, rd.parse(t))).params != map[])
  }

  /** The exact condition for any plain type in any configuration. */
  lemma {:induction false} FastPathExact(rd: Reader, types: seq<string>, t: string)
    requires Faithful(rd) && t in types && '*' !in t && rd.parse(t).params == map[]
    ensures ScanOf(rd, types, t) == Success(t) <==> Readable(rd, t) && !Shadowed(rd, types, t)
  {
    hide Shadowed, Usable, MediaByPrecedence, First, BestIndex;
    if Readable(rd, t) {
      FastPathReadable(rd, types, t);
    } else {
      assert ScanOf(rd, types, t) != Success(t) by {
        if ScanOf(rd, types, t) == Success(t) {
          FoundIsReadable(rd, types, t);
        }
      }
    }
  }

  lemma FoundIsReadable(rd: Reader, types: seq<string>, t: string)
    requires Faithful(rd) && '*' !in t && rd.parse(t).params == map[]
    requires ScanOf(rd, types, t) == Success(t)
    ensures Readable(rd, t)
  {
    hide Usable, MediaByPrecedence, First, BestIndex;
    var usable := Usable(rd, types);
    ScanIsBest(rd, types, t);
    var m := usable[BestIndex(usable, MatchesType(rd, t), PriorityOf(rd)).value];
    assert MatchesType(rd, t)(m) && Text(rd, m) == t;
    NoStars(rd, t, m);
    UsableMembers(rd, types);
    assert m in usable;
    var u :| u in types && m == rd.parse(u);
    assert rd.parse(Text(rd, rd.parse(u))).params == map[];
    assert m.params == map[];
  }

  // ---- Whole configurations ----

  /** A readable type without a quality. */
  predicate Canonical(rd: Reader, t: string) {
    Readable(rd, t) && "q" !in rd.parse(t).params
  }

  /** A type with parameters is always found by the scan. */
  lemma ParameterizedFound(rd: Reader, types: seq<string>, t: string)
    requires forall u :: u in types ==> Canonical(rd, u)
    requires t in types && '*' !in t && rd.parse(t).params != map[]
    ensures ScanOf(rd, types, t) == Success(t)
  {
    hide Text, Usable, MediaByPrecedence, First, BestIndex;
    var own, usable := rd.parse(t), Usable(rd, types);
    var p, key := MatchesType(rd, t), PriorityOf(rd);
    assert Canonical(rd, t);
    NoStars(rd, t, own);
    NotEmpty(rd, t);
    UsableMembers(rd, types);
    ScanIsBest(rd, types, t);
    assert RangeParams(own) == own.params;
    var j :| 0 <= j < |usable| && usable[j] == own;
    assert p(usable[j]);
    var m := usable[BestIndex(usable, p, key).value];
    assert p(m) && !Below(key(m), key(own));
    var u :| u in types && m == rd.parse(u);
    assert Canonical(rd, u);
    assert RangeParams(m) == m.params;
  }

  /**
   * With canonical types the dictionary is only a shortcut, for every request, if and only if none of
   * its plain types is shadowed.
   */
  lemma {:induction false} FastPathIsShortcut(rd: Reader, types: seq<string>)
    requires types != [] && forall u :: u in types ==> Canonical(rd, u)
    ensures (forall contentType ::
               DecisionOf(rd, types, Some(contentType)) == ScanOf(rd, types, contentType))
      <==> forall t :: t in types && '*' !in t && rd.parse(t).params == map[] ==> !Shadowed(rd, types, t)
  {
    hide ScanOf, Shadowed, Text;
    forall t | t in types && '*' !in t
      ensures DecisionOf(rd, types, Some(t)) == ScanOf(rd, types, t)
        <==> rd.parse(t).params != map[] || !Shadowed(rd, types, t)
    {
      assert Canonical(rd, t);
      if rd.parse(t).params != map[] {
        ParameterizedFound(rd, types, t);
      } else {
        FastPathReadable(rd, types, t);
      }
    }
  }

  /** In particular it is one when no configured type carries parameters. */
  lemma {:induction false} FastPathRefinesScan(rd: Reader, types: seq<string>, contentType: string)
    requires types != []
    requires forall u :: u in types ==> Canonical(rd, u) && rd.parse(u).params == map[]
    ensures DecisionOf(rd, types, Some(contentType)) == ScanOf(rd, types, contentType)
  {
    hide ScanOf, Shadowed;
    FastPathIsShortcut(rd, types);
    forall t | t in types && '*' !in t
      ensures !Shadowed(rd, types, t)
    {
      NothingShadows(rd, types, t);
    }
  }

  lemma NothingShadows(rd: Reader, types: seq<string>, t: string)
    requires forall u :: u in types ==> rd.parse(u).params == map[]
    ensures !Shadowed(rd, types, t)
  {
    hide Usable;
    UsableMembers(rd, types);
    var usable := Usable(rd, types);
    forall i | 0 <= i < |usable|
      ensures usable[i].params == map[]
    {
      assert usable[i] in usable;
    }
  }

  // ---- Inputs for which the dictionary and the scan, or the scan and its lookup, disagree ----

  const PLAIN := "application/json"
  const VERSIONED := "application/json; version=1"
  const UNSPACED := "application/json;charset=utf-8"

  /** How Django reads and writes these three types. */
  const SAMPLE: Reader := Reader(
    text => Media("application", "json",
                  if text == VERSIONED then map["version" := "1"]
                  else if text == UNSPACED then map["charset" := "utf-8"]
                  else map[]),
    _ => 1000,
    params => if params == map["version" := "1"] then "version=1"
              else if params == map["charset" := "utf-8"] then "charset=utf-8"
              else "")

  lemma SampleTexts()
    ensures SAMPLE.parse(PLAIN) == Media("application", "json", map[])
    ensures SAMPLE.parse(VERSIONED) == Media("application", "json", map["version" := "1"])
    ensures SAMPLE.parse(UNSPACED) == Media("application", "json", map["charset" := "utf-8"])
    ensures Text(SAMPLE, SAMPLE.parse(PLAIN)) == PLAIN
    ensures Text(SAMPLE, SAMPLE.parse(VERSIONED)) == VERSIONED
    ensures Text(SAMPLE, SAMPLE.parse(UNSPACED)) != UNSPACED
  {
    assert PLAIN[15] == 'n' && |PLAIN| == 16 && |VERSIONED| == 27 && |UNSPACED| == 30;
    var versioned, charset := map["version" := "1"], map["charset" := "utf-8"];
    assert versioned["version"] == "1" && charset["charset"] == "utf-8";
    assert "version" !in charset;
    assert "application" + "/" + "json" == PLAIN;
    assert PLAIN + ("; " + "version=1") == VERSIONED;
    assert |PLAIN + ("; " + "charset=utf-8")| == 31;
  }

  /** Beside a parameterized form of a type, the dictionary answers the one parser and the scan the other. */
  lemma {:induction false} ShadowedByForm(rd: Reader, plain: string, form: string)
    requires Canonical(rd, plain) && Canonical(rd, form) && '*' !in plain
    requires SameNames(rd.parse(plain), rd.parse(form))
    requires rd.parse(plain).params == map[] && rd.parse(form).params != map[]
    ensures DecisionOf(rd, [plain, form], Some(plain)) == Success(plain)
    ensures ScanOf(rd, [plain, form], plain) == Success(form)
  {
    var types := [plain, form];
    assert types[0] == plain && types[1] == form;
    assert Usable(rd, [plain, form]) == [rd.parse(plain), rd.parse(form)] by {
      assert [plain, form][1..] == [form] && [form][1..] == [];
      assert Usable(rd, [form]) == [rd.parse(form)];
      assert Usable(rd, [plain, form]) == [rd.parse(plain)] + [rd.parse(form)];
    }
    NoStars(rd, plain, rd.parse(plain));
    NotEmpty(rd, plain);
    PlainMatch(rd, plain, rd.parse(plain));
    hide Text, ScanOf, Usable, MediaMatch, IsBest;
    var usable := Usable(rd, types);
    assert usable[0] == rd.parse(plain) && usable[1] == rd.parse(form);
    assert RangeParams(usable[1]) == usable[1].params;
    FastPathReadable(rd, types, plain);
    ScanServes(rd, types, plain);
  }

  lemma {:induction false} ShadowedBySample()
    ensures Canonical(SAMPLE, PLAIN) && Canonical(SAMPLE, VERSIONED)
    ensures DecisionOf(SAMPLE, [PLAIN, VERSIONED], Some(PLAIN)) == Success(PLAIN)
    ensures ScanOf(SAMPLE, [PLAIN, VERSIONED], PLAIN) == Success(VERSIONED)
  {
    SampleTexts();
    hide Text, ScanOf, DecisionOf;
    ShadowedByForm(SAMPLE, PLAIN, VERSIONED);
  }

  /** A type that is configured without the blank matches a request and then raises KeyError. */
  lemma {:induction false} UnspacedRaises()
    ensures ScanOf(SAMPLE, [UNSPACED], PLAIN) == Failure(KeyError)
  {
    SampleTexts();
    assert RangeParams(SAMPLE.parse(UNSPACED)) == map["charset" := "utf-8"];
    hide Text;
    SingleParserServes(SAMPLE, UNSPACED, PLAIN);
  }
}
