/** Matching an Accept header against the media types that can be provided. */
module AcceptHeader {
  import opened Wrappers
  import opened StableSort
  import opened Strings

  // ---- Media types ----

  /**
   * How the parameter list of a media type is read: the regular expressions behind it, and
   * `int(100 * float(q))`, or 100 where that is not a number.
   */
  datatype Reader = Reader(params: string -> map<string, string>, quality: string -> int)

  /** `_MediaTypeHeader`. */
  datatype MediaType = MediaType(
    main: string,
    sub: string,
    params: map<string, string>,
    paramsText: string,
    quality: int)

  function Parse(rd: Reader, text: string): MediaType {
    var paramsText := if ';' in text then ";" + After(text, ';') else "";
    var params := if ';' in text then rd.params(paramsText) else map[];
    var fullType := Lower(StripRight(StripLeft(Before(text, ';'))));
    MediaType(Before(fullType, '/'), After(fullType, '/'), params, paramsText,
              if "q" in params then rd.quality(params["q"]) else 100)
  }

  /** `self.match(other)`: the parameters of the provided type have to be asked for, `*` matches anything. */
  predicate Match(provided: MediaType, accepted: MediaType) {
    && (forall key | key in provided.params && key != "q" ::
          Lookup(accepted.params, key) == Some(provided.params[key]))
    && (provided.sub == "*" || accepted.sub == "*" || provided.sub == accepted.sub)
    && (provided.main == "*" || accepted.main == "*" || provided.main == accepted.main)
  }

  function AsString(provided: MediaType, accepted: MediaType): string {
    (if provided.main == "*" then accepted.main else provided.main)
    + "/"
    + (if provided.sub == "*" then accepted.sub else provided.sub)
    + provided.paramsText
  }

  function PriorityOf(media: MediaType): Priority {
    var specificity :=
      if media.main == "*" then 0
      else if media.sub == "*" then 1
      else if media.params.Keys <= {"q"} then 2
      else 3;
    (media.quality, specificity)
  }

  function ParseAll(rd: Reader, texts: seq<string>): seq<MediaType> {
    if texts == [] then [] else [Parse(rd, texts[0])] + ParseAll(rd, texts[1..])
  }

  lemma {:induction false} ParsedInOrder(rd: Reader, texts: seq<string>)
    ensures |ParseAll(rd, texts)| == |texts|
    ensures forall i :: 0 <= i < |texts| ==> ParseAll(rd, texts)[i] == Parse(rd, texts[i])
  {
    hide Parse;
    if texts != [] {
      ParsedInOrder(rd, texts[1..]);
    }
  }

  /** The ranges of an Accept header in the order in which they are written. */
  function Ranges(rd: Reader, accept: string): seq<MediaType> {
    ParseAll(rd, NonEmpty(Split(accept, ',')))
  }

  function Provided(rd: Reader, types: seq<string>): seq<MediaType> {
    ParseAll(rd, NonEmpty(types))
  }

  // ---- accepted_type ----

  predicate Accepts(accepted: MediaType, provided: seq<MediaType>) {
    exists j :: 0 <= j < |provided| && Match(provided[j], accepted)
  }

  function AcceptsFrom(provided: seq<MediaType>): MediaType -> bool {
    accepted => Accepts(accepted, provided)
  }

  function MatchesWith(accepted: MediaType): MediaType -> bool {
    provided => Match(provided, accepted)
  }

  /** Nested scan: the first range that any type matches, with the first type that matches it. */
  function Scan(ranges: seq<MediaType>, provided: seq<MediaType>): Option<string> {
    var range := First(ranges, AcceptsFrom(provided));
    if range.None? then None
    else
      var hit := First(provided, MatchesWith(range.value));
      if hit.None? then None else Some(AsString(hit.value, range.value))
  }

  function AcceptedTypeOf(rd: Reader, accept: string, types: seq<string>): Option<string> {
    Scan(SortDescending(Ranges(rd, accept), PriorityOf), Provided(rd, types))
  }

  method ScanProvided(accepted: MediaType, provided: seq<MediaType>) returns (r: Option<string>)
    ensures r == Scan([accepted], provided)
  {
    hide Match, AsString;
    var j := 0;
    while j < |provided|
      invariant 0 <= j <= |provided|
      invariant forall k :: 0 <= k < j ==> !Match(provided[k], accepted)
      invariant First(provided, MatchesWith(accepted)) == First(provided[j..], MatchesWith(accepted))
    {
      if Match(provided[j], accepted) {
        assert Accepts(accepted, provided);
        return Some(AsString(provided[j], accepted));
      }
      j := j + 1;
    }
    assert First(provided, MatchesWith(accepted)).None?;
    OnlyRange(accepted, provided);
    return None;
  }

  lemma OnlyRange(range: MediaType, provided: seq<MediaType>)
    ensures First([range], AcceptsFrom(provided)) == if Accepts(range, provided) then Some(range) else None
  {}

  lemma ScanStep(ranges: seq<MediaType>, provided: seq<MediaType>)
    requires ranges != []
    ensures Scan(ranges, provided)
      == if Accepts(ranges[0], provided) then Scan([ranges[0]], provided) else Scan(ranges[1..], provided)
    ensures Scan([ranges[0]], provided).Some? <==> Accepts(ranges[0], provided)
  {
    hide Match, AsString;
    FirstFinds(provided, MatchesWith(ranges[0]));
    OnlyRange(ranges[0], provided);
    var hit := First(provided, MatchesWith(ranges[0]));
    if hit.Some? {
      var j :| 0 <= j < |provided| && provided[j] == hit.value;
      assert Accepts(ranges[0], provided);
    } else {
      assert forall j :: 0 <= j < |provided| ==> !MatchesWith(ranges[0])(provided[j]);
    }
  }

  /** `accepted_type`. */
  method AcceptedType(rd: Reader, accept: string, types: seq<string>) returns (r: Option<string>)
    ensures r == AcceptedTypeOf(rd, accept, types)
    ensures RightAnswer(Ranges(rd, accept), Provided(rd, types), r)
  {
    AcceptedTypeIsBest(rd, accept, types);
    hide RightAnswer;
    if accept == "" {
      assert AcceptedTypeOf(rd, "", types).None? by {
        NoRanges(rd);
      }
      return None;
    }
    var provided := Provided(rd, types);
    if provided == [] {
      assert Scan(SortDescending(Ranges(rd, accept), PriorityOf), []).None?;
      return None;
    }
    if ',' in accept {
      var ranges := SortDescending(Ranges(rd, accept), PriorityOf);
      var i := 0;
      while i < |ranges|
        invariant 0 <= i <= |ranges|
        invariant Scan(ranges, provided) == Scan(ranges[i..], provided)
      {
        ScanStep(ranges[i..], provided);
        var found := ScanProvided(ranges[i], provided);
        if found.Some? {
          return found;
        }
        i := i + 1;
      }
      return None;
    } else {
      SingleRange(rd, accept);
      r := ScanProvided(Parse(rd, accept), provided);
    }
  }

  lemma NoRanges(rd: Reader)
    ensures Ranges(rd, "") == []
  {
    assert NonEmpty(Split("", ',')) == [];
  }

  lemma SingleRange(rd: Reader, accept: string)
    requires accept != "" && ',' !in accept
    ensures Ranges(rd, accept) == [Parse(rd, accept)]
    ensures SortDescending(Ranges(rd, accept), PriorityOf) == [Parse(rd, accept)]
  {
    assert NonEmpty([accept]) == [accept];
    ParsedInOrder(rd, [accept]);
    assert Ranges(rd, accept) == [Parse(rd, accept)];
  }

  lemma OnlyProvided(rd: Reader, text: string)
    requires text != ""
    ensures Provided(rd, [text]) == [Parse(rd, text)]
  {
    assert NonEmpty([text]) == [text];
    ParsedInOrder(rd, [text]);
    assert |Provided(rd, [text])| == 1;
  }

  lemma FirstProvided(rd: Reader, types: seq<string>)
    requires types != [] && types[0] != ""
    ensures |Provided(rd, types)| >= 1 && Provided(rd, types)[0] == Parse(rd, types[0])
  {
    hide Parse;
    ParsedInOrder(rd, NonEmpty(types));
    assert NonEmpty(types) == [types[0]] + NonEmpty(types[1..]);
  }

  predicate PlainPart(s: string) { Plain(s) && ',' !in s && ';' !in s && '/' !in s }

  predicate PlainName(s: string) { PlainPart(s) && s != "*" }

  lemma ParsePlain(rd: Reader, main: string, sub: string, text: string)
    requires PlainPart(main) && PlainPart(sub) && text == main + "/" + sub
    ensures Parse(rd, text) == MediaType(main, sub, map[], "", 100)
  {
    Partition(text, ';');
    PlainStays(text);
    BeforeReads(main, '/', sub);
    AfterReads(main, '/', sub);
  }

  lemma {:induction false} TwoRanges(rd: Reader, first: string, second: string)
    requires first != "" && second != "" && ',' !in first && ',' !in second
    ensures Ranges(rd, first + "," + second) == [Parse(rd, first), Parse(rd, second)]
  {
    hide Parse;
    SplitInTwo(first, ',', second);
    assert first + "," + second == first + [','] + second;
    var texts := [first, second];
    assert texts[1..] == [second] && texts[1..][1..] == [];
    assert NonEmpty([second]) == [second];
    assert NonEmpty(texts) == [first] + NonEmpty([second]) == texts;
    ParsedInOrder(rd, texts);
  }

  /** What the best answer is: a range, by its place in the header, and a type, by its place in the configuration. */
  ghost predicate IsBestPair(ranges: seq<MediaType>, provided: seq<MediaType>, i: nat, j: nat) {
    && i < |ranges| && j < |provided|
    && IsBest(ranges, AcceptsFrom(provided), PriorityOf, i)
    && Match(provided[j], ranges[i])
    && forall k :: 0 <= k < j ==> !Match(provided[k], ranges[i])
  }

  /** The answer of the nested scan, or its absence, justified by the unsorted lists. */
  ghost predicate BestAnswer(ranges: seq<MediaType>, provided: seq<MediaType>, answer: Option<string>) {
    match answer
    case None => forall i, j :: 0 <= i < |ranges| && 0 <= j < |provided| ==> !Match(provided[j], ranges[i])
    case Some(text) => exists i: nat, j: nat ::
      IsBestPair(ranges, provided, i, j) && text == AsString(provided[j], ranges[i])
  }

  lemma {:induction false} ScanIsBest(ranges: seq<MediaType>, provided: seq<MediaType>)
    ensures BestAnswer(ranges, provided, Scan(SortDescending(ranges, PriorityOf), provided))
  {
    hide Match, SortDescending, PriorityOf, IsBest, BestIndex, First, AsString;
    var p := AcceptsFrom(provided);
    FirstOfSorted(ranges, p, PriorityOf);
    BestIndexIsBest(ranges, p, PriorityOf);
    var best := BestIndex(ranges, p, PriorityOf);
    if best.Some? {
      var i := best.value;
      assert p(ranges[i]) by {
        assert p(ranges[i]);
      }
      var j := FirstMatch(provided, ranges[i]);
      assert IsBestPair(ranges, provided, i, j);
    } else {
      forall i, j | 0 <= i < |ranges| && 0 <= j < |provided|
        ensures !Match(provided[j], ranges[i])
      {
        assert !p(ranges[i]);
      }
    }
  }

  /** The answer by the best range. */
  lemma {:induction false} ScanByBest(ranges: seq<MediaType>, provided: seq<MediaType>)
    ensures var best := BestIndex(ranges, AcceptsFrom(provided), PriorityOf);
      Scan(SortDescending(ranges, PriorityOf), provided)
      == if best.None? then None
         else var hit := First(provided, MatchesWith(ranges[best.value]));
           if hit.None? then None else Some(AsString(hit.value, ranges[best.value]))
  {
    hide Match, AsString, SortDescending, BestIndex, First;
    FirstOfSorted(ranges, AcceptsFrom(provided), PriorityOf);
  }

  // ---- The order and the matching, on the fields of a media type ----

  /** The range repeats every parameter of the type, the quality apart. */
  predicate Carries(range: MediaType, provided: MediaType) {
    forall item | item in provided.params.Items && item.0 != "q" :: item in range.params.Items
  }

  /** The names meet, where a wildcard on either side meets anything, and the parameters are asked for. */
  predicate Fits(provided: MediaType, range: MediaType) {
    && (range.main == provided.main || "*" in {range.main, provided.main})
    && (range.sub == provided.sub || "*" in {range.sub, provided.sub})
    && Carries(range, provided)
  }

  lemma {:induction false} MatchExact(provided: MediaType, range: MediaType)
    ensures Match(provided, range) <==> Fits(provided, range)
  {
    if Match(provided, range) {
      forall item | item in provided.params.Items && item.0 != "q"
        ensures item in range.params.Items
      {
        assert Lookup(range.params, item.0) == Some(provided.params[item.0]);
      }
    }
    if Fits(provided, range) {
      forall key | key in provided.params && key != "q"
        ensures Lookup(range.params, key) == Some(provided.params[key])
      {
        assert (key, provided.params[key]) in provided.params.Items;
      }
    }
  }

  /** Parameters before plain types, plain types before all subtypes of a type, these before everything. */
  ghost predicate MoreSpecific(a: MediaType, b: MediaType) {
    || (a.main != "*" && b.main == "*")
    || (a.main != "*" && b.main != "*" && a.sub != "*" && b.sub == "*")
    || ("*" !in {a.main, a.sub, b.main, b.sub}
        && (exists key :: key in a.params && key != "q") && (forall key :: key in b.params ==> key == "q"))
  }

  /** The higher quality counts first, what is more specific second. */
  ghost predicate Preferred(a: MediaType, b: MediaType) {
    a.quality > b.quality || (a.quality == b.quality && MoreSpecific(a, b))
  }

  lemma {:induction false} OrderExact(a: MediaType, b: MediaType)
    ensures Below(PriorityOf(b), PriorityOf(a)) <==> Preferred(a, b)
  {
    assert forall m: MediaType :: m.params.Keys <= {"q"} <==> forall key :: key in m.params ==> key == "q";
  }

  /** The pair that decides: no range that fits any type is preferred, and none of the same rank comes first. */
  ghost predicate Decides(ranges: seq<MediaType>, provided: seq<MediaType>, i: nat, j: nat) {
    && i < |ranges| && j < |provided| && Fits(provided[j], ranges[i])
    && (forall i', j' :: 0 <= i' < |ranges| && 0 <= j' < |provided| && Fits(provided[j'], ranges[i']) ==>
          !Preferred(ranges[i'], ranges[i]) && (i' < i ==> Preferred(ranges[i], ranges[i'])))
    && (forall j' :: 0 <= j' < j ==> !Fits(provided[j'], ranges[i]))
  }

  ghost predicate RightAnswer(ranges: seq<MediaType>, provided: seq<MediaType>, answer: Option<string>) {
    match answer
    case None => forall i, j :: 0 <= i < |ranges| && 0 <= j < |provided| ==> !Fits(provided[j], ranges[i])
    case Some(text) => exists i: nat, j: nat ::
      Decides(ranges, provided, i, j) && text == AsString(provided[j], ranges[i])
  }

  lemma BestDecides(ranges: seq<MediaType>, provided: seq<MediaType>, i: nat, j: nat)
    requires IsBestPair(ranges, provided, i, j)
    ensures Decides(ranges, provided, i, j)
  {
    hide Match, Fits, Preferred, PriorityOf;
    MatchExact(provided[j], ranges[i]);
    var p := AcceptsFrom(provided);
    forall i', j' | 0 <= i' < |ranges| && 0 <= j' < |provided| && Fits(provided[j'], ranges[i'])
      ensures !Preferred(ranges[i'], ranges[i]) && (i' < i ==> Preferred(ranges[i], ranges[i']))
    {
      MatchExact(provided[j'], ranges[i']);
      assert p(ranges[i']);
      OrderExact(ranges[i'], ranges[i]);
      OrderExact(ranges[i], ranges[i']);
    }
    forall j' | 0 <= j' < j
      ensures !Fits(provided[j'], ranges[i])
    {
      MatchExact(provided[j'], ranges[i]);
    }
  }

  /**
   * Optimality: the answer comes from the first range in header order among those of maximal
   * quality and specificity that any type fits, and the first type in configuration order that
   * fits this range; there is no answer only if nothing fits. At most one pair qualifies.
   */
  lemma {:induction false} AcceptedTypeIsBest(rd: Reader, accept: string, types: seq<string>)
    ensures BestAnswer(Ranges(rd, accept), Provided(rd, types), AcceptedTypeOf(rd, accept, types))
    ensures RightAnswer(Ranges(rd, accept), Provided(rd, types), AcceptedTypeOf(rd, accept, types))
  {
    assert BestAnswer(Ranges(rd, accept), Provided(rd, types), AcceptedTypeOf(rd, accept, types)) by {
      ScanIsBest(Ranges(rd, accept), Provided(rd, types));
    }
    hide AcceptedTypeOf, Match, Fits, IsBest, Decides, AsString, Ranges, Provided;
    var ranges, provided, answer := Ranges(rd, accept), Provided(rd, types), AcceptedTypeOf(rd, accept, types);
    if answer.Some? {
      var i: nat, j: nat :| IsBestPair(ranges, provided, i, j) && answer.value == AsString(provided[j], ranges[i]);
      BestDecides(ranges, provided, i, j);
    } else {
      forall i, j | 0 <= i < |ranges| && 0 <= j < |provided|
        ensures !Fits(provided[j], ranges[i])
      {
        MatchExact(provided[j], ranges[i]);
      }
    }
  }

  lemma {:induction false} FirstMatch(provided: seq<MediaType>, range: MediaType) returns (j: nat)
    requires Accepts(range, provided)
    ensures j < |provided| && Match(provided[j], range) && First(provided, MatchesWith(range)) == Some(provided[j])
    ensures forall k :: 0 <= k < j ==> !Match(provided[k], range)
  {
    if Match(provided[0], range) {
      j := 0;
    } else {
      var k :| 0 <= k < |provided| && Match(provided[k], range);
      assert provided[1..][k - 1] == provided[k];
      var rest := FirstMatch(provided[1..], range);
      j := rest + 1;
    }
  }

  lemma {:induction false} BestPairIsUnique(
    ranges: seq<MediaType>, provided: seq<MediaType>, i: nat, j: nat, i': nat, j': nat)
    requires IsBestPair(ranges, provided, i, j) && IsBestPair(ranges, provided, i', j')
    ensures i == i' && j == j'
  {
    BestIsUnique(ranges, AcceptsFrom(provided), PriorityOf, i, i');
  }

  /** The pair behind an answer. */
  lemma {:induction false} AnswerPair(rd: Reader, accept: string, types: seq<string>) returns (range: MediaType, k: nat)
    requires AcceptedTypeOf(rd, accept, types).Some?
    ensures range in Ranges(rd, accept)
    ensures k < |types| && types[k] != "" && Match(Parse(rd, types[k]), range)
    ensures AcceptedTypeOf(rd, accept, types) == Some(AsString(Parse(rd, types[k]), range))
  {
    hide Match, Ranges, AcceptedTypeOf, IsBestPair, AsString, Parse;
    AcceptedTypeIsBest(rd, accept, types);
    var ranges, provided, given := Ranges(rd, accept), Provided(rd, types), NonEmpty(types);
    var answer := AcceptedTypeOf(rd, accept, types).value;
    ParsedInOrder(rd, given);
    var i, j := PairOf(ranges, provided, answer);
    range := ranges[i];
    assert given[j] in types;
    k :| 0 <= k < |types| && types[k] == given[j];
  }

  lemma PairOf(ranges: seq<MediaType>, provided: seq<MediaType>, answer: string) returns (i: nat, j: nat)
    requires BestAnswer(ranges, provided, Some(answer))
    ensures i < |ranges| && j < |provided| && Match(provided[j], ranges[i])
    ensures answer == AsString(provided[j], ranges[i])
  {
    hide Match, AsString, IsBest;
    i, j :| IsBestPair(ranges, provided, i, j) && answer == AsString(provided[j], ranges[i]);
  }

  /** A part lies within a range when the range is that part or the wildcard. */
  predicate Within(part: string, range: string) {
    range == "*" || part == range
  }

  /**
   * The answer is the common narrowing of the two types: it lies within both, and it still holds a
   * wildcard only where both of them do.
   */
  lemma {:induction false} AnswerIsMeet(provided: MediaType, accepted: MediaType) returns (main: string, sub: string)
    requires Match(provided, accepted)
    ensures AsString(provided, accepted) == main + "/" + sub + provided.paramsText
    ensures Within(main, provided.main) && Within(main, accepted.main)
    ensures Within(sub, provided.sub) && Within(sub, accepted.sub)
    ensures main == "*" ==> provided.main == "*" == accepted.main
    ensures sub == "*" ==> provided.sub == "*" == accepted.sub
  {
    main := if provided.main == "*" then accepted.main else provided.main;
    sub := if provided.sub == "*" then accepted.sub else provided.sub;
  }

  // ---- accepted_header ----

  ghost predicate HeaderAccepts(rd: Reader, accept: string, mediaType: string) {
    mediaType != "" && exists i :: 0 <= i < |Ranges(rd, accept)| && Match(Parse(rd, mediaType), Ranges(rd, accept)[i])
  }

  lemma {:induction false} AcceptsExactly(rd: Reader, accept: string, mediaType: string)
    ensures HeaderAccepts(rd, accept, mediaType)
      <==> mediaType != "" && exists range :: range in Ranges(rd, accept) && Fits(Parse(rd, mediaType), range)
  {
    hide Match, Parse, Ranges, Fits;
    forall range: MediaType
      ensures Match(Parse(rd, mediaType), range) <==> Fits(Parse(rd, mediaType), range)
    {
      MatchExact(Parse(rd, mediaType), range);
    }
    var ranges := Ranges(rd, accept);
    if range :| range in ranges && Fits(Parse(rd, mediaType), range) {
      var i :| 0 <= i < |ranges| && ranges[i] == range;
    }
    if i :| 0 <= i < |ranges| && Match(Parse(rd, mediaType), ranges[i]) {
      assert ranges[i] in ranges;
    }
  }

  /** `accepted_header`: the short cut that only says yes or no. */
  method AcceptedHeader(rd: Reader, accept: string, mediaType: string) returns (yes: bool)
    ensures yes <==> HeaderAccepts(rd, accept, mediaType)
    ensures yes <==> mediaType != "" && exists range :: range in Ranges(rd, accept) && Fits(Parse(rd, mediaType), range)
  {
    hide Match, Parse, Ranges, Fits;
    AcceptsExactly(rd, accept, mediaType);
    if accept == "" || mediaType == "" {
      NoRanges(rd);
      return false;
    }
    var provided := Parse(rd, mediaType);
    if ',' in accept {
      var parts := Split(accept, ',');
      var i := 0;
      while i < |parts|
        invariant 0 <= i <= |parts|
        invariant forall k :: 0 <= k < i && parts[k] != "" ==> !Match(provided, Parse(rd, parts[k]))
      {
        if parts[i] != "" && Match(provided, Parse(rd, parts[i])) {
          PartIsRange(rd, accept, parts[i]);
          return true;
        }
        i := i + 1;
      }
      forall k | 0 <= k < |Ranges(rd, accept)|
        ensures !Match(provided, Ranges(rd, accept)[k])
      {
        RangeIsPart(rd, accept, k);
      }
      return false;
    } else {
      SingleRange(rd, accept);
      return Match(provided, Parse(rd, accept));
    }
  }

  lemma PartIsRange(rd: Reader, accept: string, part: string)
    requires part != "" && part in Split(accept, ',')
    ensures exists i :: 0 <= i < |Ranges(rd, accept)| && Ranges(rd, accept)[i] == Parse(rd, part)
  {
    var given := NonEmpty(Split(accept, ','));
    assert part in given;
    var i :| 0 <= i < |given| && given[i] == part;
    ParsedInOrder(rd, given);
    assert Ranges(rd, accept)[i] == Parse(rd, part);
  }

  lemma RangeIsPart(rd: Reader, accept: string, i: nat)
    requires i < |Ranges(rd, accept)|
    ensures exists k ::
      && 0 <= k < |Split(accept, ',')| && Split(accept, ',')[k] != ""
      && Ranges(rd, accept)[i] == Parse(rd, Split(accept, ',')[k])
  {
    var given := NonEmpty(Split(accept, ','));
    ParsedInOrder(rd, given);
    assert given[i] in Split(accept, ',') && given[i] != "";
  }

  /** The two matchers agree on every header and every list of types. */
  lemma {:induction false} MatchersAgree(rd: Reader, accept: string, types: seq<string>)
    ensures AcceptedTypeOf(rd, accept, types).Some?
      <==> exists k :: 0 <= k < |types| && HeaderAccepts(rd, accept, types[k])
  {
    hide Match, Ranges, AcceptedTypeOf, IsBestPair, Parse;
    if AcceptedTypeOf(rd, accept, types).Some? {
      var range, k := AnswerPair(rd, accept, types);
      assert HeaderAccepts(rd, accept, types[k]);
    } else {
      AcceptedTypeIsBest(rd, accept, types);
      var provided, given := Provided(rd, types), NonEmpty(types);
      ParsedInOrder(rd, given);
      forall k | 0 <= k < |types|
        ensures !HeaderAccepts(rd, accept, types[k])
      {
        if types[k] != "" {
          assert types[k] in given;
          var j :| 0 <= j < |given| && given[j] == types[k];
          assert provided[j] == Parse(rd, types[k]);
        }
      }
    }
  }

  // ---- The answer is itself accepted ----

  /** How a text is read whose names are written plainly. */
  lemma ParseOf(rd: Reader, names: string, paramsText: string)
    requires Trimmed(names) && (paramsText == "" || paramsText[0] == ';')
    ensures var m := Parse(rd, names + paramsText);
      var params := if paramsText == "" then map[] else rd.params(paramsText);
      && m.main == Before(names, '/') && m.sub == After(names, '/')
      && m.paramsText == paramsText && m.params == params
      && m.quality == (if "q" in params then rd.quality(params["q"]) else 100)
  {
    TrimmedStays(names);
    var text := names + paramsText;
    if paramsText == "" {
      assert text == names;
    } else {
      var tail := paramsText[1..];
      assert text == names + [';'] + tail && paramsText == ";" + tail;
      BeforeReads(names, ';', tail);
      AfterReads(names, ';', tail);
      assert text[|names|] == ';';
    }
  }

  /** What was read has names that were written somewhere, and parameters that were read from a text. */
  lemma ParsedParts(rd: Reader, text: string) returns (names: string)
    ensures Trimmed(names)
    ensures var m := Parse(rd, text);
      var params := if m.paramsText == "" then map[] else rd.params(m.paramsText);
      && m.main == Before(names, '/') && m.sub == After(names, '/')
      && (m.paramsText == "" || m.paramsText[0] == ';') && m.params == params
      && m.quality == (if "q" in params then rd.quality(params["q"]) else 100)
  {
    names := Lower(StripRight(StripLeft(Before(text, ';'))));
    ReadIsTrimmed(text);
    hide Before, After, StripLeft, StripRight, Lower;
  }

  /** The answer reads as the narrowed names with the parameters of the type. */
  lemma {:induction false} AnswerReads(rd: Reader, provided: string, range: string)
    ensures var p, r := Parse(rd, provided), Parse(rd, range);
      var answer := Parse(rd, AsString(p, r));
      && answer.main == (if p.main == "*" then r.main else p.main)
      && answer.sub == (if p.sub == "*" then r.sub else p.sub)
      && answer.params == p.params && answer.paramsText == p.paramsText && answer.quality == p.quality
  {
    hide Parse;
    var p, r := Parse(rd, provided), Parse(rd, range);
    var a := ParsedParts(rd, provided);
    var b := ParsedParts(rd, range);
    var main := if p.main == "*" then r.main else p.main;
    var sub := if p.sub == "*" then r.sub else p.sub;
    NamesJoin(main, sub, a, b);
    ParseOf(rd, main + "/" + sub, p.paramsText);
  }

  /** Whatever `accepted_type` answers, `accepted_header` accepts. */
  lemma {:induction false} AnswerIsAccepted(rd: Reader, accept: string, types: seq<string>)
    requires AcceptedTypeOf(rd, accept, types).Some?
    ensures HeaderAccepts(rd, accept, AcceptedTypeOf(rd, accept, types).value)
  {
    hide AcceptedTypeOf, Parse, Match, AsString, Ranges;
    var range, k := AnswerPair(rd, accept, types);
    var given := NonEmpty(Split(accept, ','));
    ParsedInOrder(rd, given);
    assert Ranges(rd, accept) == ParseAll(rd, given) by { RangesAreParsed(rd, accept); }
    var i :| 0 <= i < |Ranges(rd, accept)| && Ranges(rd, accept)[i] == range;
    AnswerReads(rd, types[k], given[i]);
    var answer := AcceptedTypeOf(rd, accept, types).value;
    NarrowedMatches(Parse(rd, types[k]), range, Parse(rd, answer));
    TextNotEmpty(Parse(rd, types[k]), range);
    assert Match(Parse(rd, answer), Ranges(rd, accept)[i]);
  }

  lemma RangesAreParsed(rd: Reader, accept: string)
    ensures Ranges(rd, accept) == ParseAll(rd, NonEmpty(Split(accept, ',')))
  {}

  lemma TextNotEmpty(p: MediaType, r: MediaType)
    ensures AsString(p, r) != ""
  {}

  lemma NarrowedMatches(p: MediaType, r: MediaType, answer: MediaType)
    requires Match(p, r) && answer.params == p.params
    requires answer.main == (if p.main == "*" then r.main else p.main)
    requires answer.sub == (if p.sub == "*" then r.sub else p.sub)
    ensures Match(answer, r)
  {}

  // ---- A consequence for headers ----

  /**
   * All subtypes of a type go before everything, on whichever side of it they stand: if some of them is
   * provided without parameters, the answer is of that type, whatever is configured in front.
   */
  lemma {:induction false} SubtypesGoFirst(rd: Reader, main: string, accept: string, types: seq<string>, k: nat)
    requires PlainName(main)
    requires accept == main + "/*" + "," + "*/*" || accept == "*/*" + "," + main + "/*"
    requires k < |types| && types[k] != "" && Parse(rd, types[k]).main == main && Parse(rd, types[k]).params == map[]
    ensures AcceptedTypeOf(rd, accept, types).Some? && main + "/" <= AcceptedTypeOf(rd, accept, types).value
  {
    hide Parse, AcceptedTypeOf, Ranges, Decides, Fits;
    var narrow, all := MediaType(main, "*", map[], "", 100), MediaType("*", "*", map[], "", 100);
    var ranges, provided, given := Ranges(rd, accept), Provided(rd, types), NonEmpty(types);
    assert main + "/*" == main + "/" + "*" && "*/*" + "," + main + "/*" == "*/*" + "," + (main + "/*");
    ParsePlain(rd, main, "*", main + "/*");
    ParsePlain(rd, "*", "*", "*/*");
    if accept == main + "/*" + "," + "*/*" {
      TwoRanges(rd, main + "/*", "*/*");
    } else {
      TwoRanges(rd, "*/*", main + "/*");
    }
    assert ranges == [narrow, all] || ranges == [all, narrow];
    AcceptedTypeIsBest(rd, accept, types);
    ParsedInOrder(rd, given);
    assert types[k] in given;
    var j :| 0 <= j < |given| && given[j] == types[k];
    NarrowDecides(ranges, provided, narrow, all, j, AcceptedTypeOf(rd, accept, types));
  }

  lemma NarrowDecides(ranges: seq<MediaType>, provided: seq<MediaType>, narrow: MediaType, all: MediaType, j: nat,
                      answer: Option<string>)
    requires ranges == [narrow, all] || ranges == [all, narrow]
    requires narrow.main != "*" && narrow.sub == "*" && all.main == "*" && narrow.quality == all.quality
    requires j < |provided| && provided[j].main == narrow.main && provided[j].params == map[]
    requires RightAnswer(ranges, provided, answer)
    ensures answer.Some? && narrow.main + "/" <= answer.value
  {
    var n := if ranges[0] == narrow then 0 else 1;
    assert Fits(provided[j], ranges[n]);
    assert Preferred(narrow, all);
    var i: nat, k: nat :| Decides(ranges, provided, i, k) && answer.value == AsString(provided[k], ranges[i]);
    assert ranges[i] == narrow;
  }
}
