/**
 * What becomes of refusals in an Accept header. By section 12.4.2 of RFC 9110 a quality of zero means
 * "not acceptable", and by section 12.5.1 the most specific range decides about a type. The code
 * drops nothing: a range of quality zero only sorts last.
 *
 * The quality here is the code's own, in hundredths and cut off, so it is zero for everything from
 * `q=0` up to `q=0.009`, and negative for a negative number.
 */
module Refusals {
  import opened Wrappers
  import opened StableSort
  import opened Strings
  import opened AcceptHeader

  // ---- Refusing types ----

  /** Some range refuses the type, and every range that asks for it is less specific. */
  ghost predicate Refused(provided: MediaType, ranges: seq<MediaType>) {
    exists i :: 0 <= i < |ranges| && ranges[i].quality <= 0 && Match(provided, ranges[i])
      && forall j :: 0 <= j < |ranges| && ranges[j].quality > 0 && Match(provided, ranges[j]) ==>
           MoreSpecific(ranges[i], ranges[j])
  }

  /** The provided types that the header does not refuse, in order. */
  ghost function NotRefused(provided: seq<MediaType>, ranges: seq<MediaType>): seq<MediaType> {
    if provided == [] then []
    else (if Refused(provided[0], ranges) then [] else [provided[0]]) + NotRefused(provided[1..], ranges)
  }

  /** The type that the nested scan chooses. */
  function Chosen(sorted: seq<MediaType>, provided: seq<MediaType>): Option<MediaType> {
    var range := First(sorted, AcceptsFrom(provided));
    if range.None? then None else First(provided, MatchesWith(range.value))
  }

  lemma {:induction false} NotRefusedMembers(provided: seq<MediaType>, ranges: seq<MediaType>)
    ensures forall p :: p in NotRefused(provided, ranges) <==> p in provided && !Refused(p, ranges)
  {
    if provided != [] {
      NotRefusedMembers(provided[1..], ranges);
      hide Refused;
      assert forall p :: p in provided <==> p == provided[0] || p in provided[1..];
    }
  }

  /** The first hit stays the first hit among fewer candidates, if it is one of them. */
  lemma {:induction false} FirstOfFewer<T>(xs: seq<T>, p: T -> bool, q: T -> bool)
    requires forall x | x in xs :: q(x) ==> p(x)
    requires First(xs, p).Some? ==> q(First(xs, p).value)
    ensures First(xs, q) == First(xs, p)
  {
    if xs != [] && !p(xs[0]) {
      assert xs[0] in xs && forall x | x in xs[1..] :: x in xs;
      FirstOfFewer(xs[1..], p, q);
    }
  }

  lemma {:induction false} FirstNotRefused(provided: seq<MediaType>, ranges: seq<MediaType>, p: MediaType -> bool)
    requires First(provided, p).Some? && !Refused(First(provided, p).value, ranges)
    ensures First(NotRefused(provided, ranges), p) == First(provided, p)
  {
    hide Refused;
    if p(provided[0]) {
      assert NotRefused(provided, ranges)[0] == provided[0];
    } else {
      FirstNotRefused(provided[1..], ranges, p);
      if Refused(provided[0], ranges) {
        assert NotRefused(provided, ranges) == NotRefused(provided[1..], ranges);
      } else {
        assert NotRefused(provided, ranges)[1..] == NotRefused(provided[1..], ranges);
      }
    }
  }

  lemma AcceptsSome(range: MediaType, provided: seq<MediaType>, p: MediaType)
    requires p in provided && Match(p, range)
    ensures Accepts(range, provided)
  {
    hide Match;
    var j :| 0 <= j < |provided| && provided[j] == p;
  }

  lemma AcceptsMore(range: MediaType, fewer: seq<MediaType>, provided: seq<MediaType>)
    requires Accepts(range, fewer) && forall p :: p in fewer ==> p in provided
    ensures Accepts(range, provided)
  {
    hide Match;
    var j :| 0 <= j < |fewer| && Match(fewer[j], range);
    AcceptsSome(range, provided, fewer[j]);
  }

  /**
   * Offering only the types that are not refused would choose the same type if and only if nothing is
   * chosen or the chosen type is not refused. Otherwise the client gets what it refuses.
   */
  lemma {:induction false} RefusalExact(ranges: seq<MediaType>, sorted: seq<MediaType>, provided: seq<MediaType>)
    ensures var chosen := Chosen(sorted, provided);
      Chosen(sorted, NotRefused(provided, ranges)) == chosen
      <==> chosen.None? || !Refused(chosen.value, ranges)
  {
    hide Match, Refused, NotRefused, First, Accepts;
    var fewer := NotRefused(provided, ranges);
    var p, q := AcceptsFrom(provided), AcceptsFrom(fewer);
    NotRefusedMembers(provided, ranges);
    FirstFinds(sorted, p);
    FirstFinds(sorted, q);
    forall range | Accepts(range, fewer)
      ensures Accepts(range, provided)
    {
      AcceptsMore(range, fewer, provided);
    }
    var range := First(sorted, p);
    if range.None? {
      FirstOfFewer(sorted, p, q);
    } else {
      FirstFinds(provided, MatchesWith(range.value));
      var chosen := Chosen(sorted, provided);
      assert Accepts(range.value, provided);
      var j := FirstMatch(provided, range.value);
      if Refused(chosen.value, ranges) {
        if First(sorted, q).Some? {
          FirstFinds(fewer, MatchesWith(First(sorted, q).value));
        }
      } else {
        AcceptsSome(range.value, fewer, chosen.value);
        FirstOfFewer(sorted, p, q);
        FirstNotRefused(provided, ranges, MatchesWith(range.value));
      }
    }
  }

  /** The type behind an answer, and the answer behind a type. */
  lemma {:induction false} ChosenIsAnswered(rd: Reader, accept: string, types: seq<string>)
    ensures var sorted := SortDescending(Ranges(rd, accept), PriorityOf);
      var chosen := Chosen(sorted, Provided(rd, types));
      AcceptedTypeOf(rd, accept, types)
      == if chosen.None? then None
         else Some(AsString(chosen.value, First(sorted, AcceptsFrom(Provided(rd, types))).value))
  {
    hide Match, AsString, SortDescending, First, Ranges, Provided;
  }

  /** For every header and every list of types. */
  lemma {:induction false} RefusalHonoured(rd: Reader, accept: string, types: seq<string>)
    ensures var ranges, provided := Ranges(rd, accept), Provided(rd, types);
      var sorted := SortDescending(ranges, PriorityOf);
      var chosen := Chosen(sorted, provided);
      Chosen(sorted, NotRefused(provided, ranges)) == chosen
      <==> AcceptedTypeOf(rd, accept, types).None? || !Refused(chosen.value, ranges)
  {
    hide Match, AsString, SortDescending, First, Ranges, Provided, Chosen, NotRefused, Refused;
    var ranges := Ranges(rd, accept);
    RefusalExact(ranges, SortDescending(ranges, PriorityOf), Provided(rd, types));
    ChosenIsAnswered(rd, accept, types);
  }

  // ---- Leaving out the ranges ----

  /** The ranges that ask for something. */
  function Wanted(ranges: seq<MediaType>): seq<MediaType> {
    if ranges == [] then []
    else (if ranges[0].quality > 0 then [ranges[0]] else []) + Wanted(ranges[1..])
  }

  /** Without the others, the best range stays the best if it is wanted, and there is none if it is not. */
  lemma {:induction false} WantedBest(ranges: seq<MediaType>, p: MediaType -> bool)
    ensures var best, wanted := BestIndex(ranges, p, PriorityOf), BestIndex(Wanted(ranges), p, PriorityOf);
      if best.Some? && ranges[best.value].quality > 0 then
        wanted.Some? && Wanted(ranges)[wanted.value] == ranges[best.value]
      else wanted.None?
  {
    if ranges != [] {
      WantedBest(ranges[1..], p);
      if ranges[0].quality > 0 {
        assert Wanted(ranges)[1..] == Wanted(ranges[1..]);
      } else {
        assert Wanted(ranges) == Wanted(ranges[1..]);
      }
    }
  }

  ghost predicate AnyWanted(ranges: seq<MediaType>, provided: seq<MediaType>) {
    exists i :: 0 <= i < |ranges| && ranges[i].quality > 0 && Accepts(ranges[i], provided)
  }

  /**
   * Leaving out the ranges of quality zero would not change the answer if and only if nothing matches
   * or some range of positive quality does.
   */
  lemma {:induction false} ZeroQualityExact(ranges: seq<MediaType>, provided: seq<MediaType>)
    ensures var answer := Scan(SortDescending(ranges, PriorityOf), provided);
      Scan(SortDescending(Wanted(ranges), PriorityOf), provided) == answer
      <==> answer.None? || AnyWanted(ranges, provided)
    ensures Scan(SortDescending(ranges, PriorityOf), provided).None?
      <==> forall i :: 0 <= i < |ranges| ==> !Accepts(ranges[i], provided)
  {
    hide Match, AsString, SortDescending, BestIndex, First, Accepts, Wanted;
    var p := AcceptsFrom(provided);
    ScanByBest(ranges, provided);
    ScanByBest(Wanted(ranges), provided);
    WantedBest(ranges, p);
    BestIndexIsBest(ranges, p, PriorityOf);
    var best := BestIndex(ranges, p, PriorityOf);
    assert forall range :: p(range) == Accepts(range, provided);
    if best.Some? {
      assert Accepts(ranges[best.value], provided);
      var j := FirstMatch(provided, ranges[best.value]);
      if i :| 0 <= i < |ranges| && ranges[i].quality > 0 && Accepts(ranges[i], provided) {
        assert p(ranges[i]) && !Below(PriorityOf(ranges[best.value]), PriorityOf(ranges[i]));
      }
    }
  }

  /** The same for headers and configured types. */
  lemma {:induction false} ZeroQualityRefused(rd: Reader, accept: string, types: seq<string>)
    ensures var ranges, provided := Ranges(rd, accept), Provided(rd, types);
      Scan(SortDescending(Wanted(ranges), PriorityOf), provided) == AcceptedTypeOf(rd, accept, types)
      <==> AcceptedTypeOf(rd, accept, types).None? || AnyWanted(ranges, provided)
  {
    hide AnyWanted, SortDescending, Scan, Wanted, Ranges, Provided;
    ZeroQualityExact(Ranges(rd, accept), Provided(rd, types));
  }

  // ---- Failing inputs ----

  lemma ParseRefusal(rd: Reader, main: string, sub: string, text: string)
    requires PlainName(main) && PlainName(sub) && text == main + "/" + sub + ";q=0"
    requires rd.params(";q=0") == map["q" := "0"] && rd.quality("0") == 0
    ensures Parse(rd, text) == MediaType(main, sub, map["q" := "0"], ";q=0", 0)
  {
    var full := main + "/" + sub;
    assert text == full + [';'] + "q=0";
    BeforeReads(full, ';', "q=0");
    AfterReads(full, ';', "q=0");
    PlainStays(full);
    BeforeReads(main, '/', sub);
    AfterReads(main, '/', sub);
    assert ";" + "q=0" == ";q=0";
    assert Before(text, ';') == full && text[|full|] == ';';
    hide Before, After, StripLeft, StripRight, Lower;
    assert Before(full, '/') == main && After(full, '/') == sub;
  }

  /** The failing input: a header that only refuses a type is answered with that very type. */
  lemma {:induction false} RefusedIsAnswered(rd: Reader, main: string, sub: string)
    requires PlainName(main) && PlainName(sub)
    requires rd.params(";q=0") == map["q" := "0"] && rd.quality("0") == 0
    ensures var text := main + "/" + sub;
      && AcceptedTypeOf(rd, text + ";q=0", [text]) == Some(text)
      && !AnyWanted(Ranges(rd, text + ";q=0"), Provided(rd, [text]))
  {
    hide Parse, SortDescending, Ranges;
    var text := main + "/" + sub;
    ParsePlain(rd, main, sub, text);
    ParseRefusal(rd, main, sub, text + ";q=0");
    SingleRange(rd, text + ";q=0");
    var range, provided := Parse(rd, text + ";q=0"), Parse(rd, text);
    assert Match(provided, range);
    assert AsString(provided, range) == text;
    OnlyProvided(rd, text);
    OnlyRange(range, [provided]);
    assert [provided][0] == provided && Accepts(range, [provided]);
    assert MatchesWith(range)(provided);
    assert First([provided], MatchesWith(range)) == Some(provided);
    assert Scan([range], [provided]) == Some(text);
  }

  /**
   * A range of positive quality that matches as well does not help: a type that is refused beside
   * "everything" is still the answer if it is configured first, whatever else is configured.
   */
  lemma {:induction false} RefusedBesideWildcard(rd: Reader, main: string, sub: string, others: seq<string>)
    requires PlainName(main) && PlainName(sub)
    requires rd.params(";q=0") == map["q" := "0"] && rd.quality("0") == 0
    ensures var text := main + "/" + sub;
      var accept := text + ";q=0" + "," + "*/*";
      && AcceptedTypeOf(rd, accept, [text] + others) == Some(text)
      && AnyWanted(Ranges(rd, accept), Provided(rd, [text] + others))
      && Refused(Parse(rd, text), Ranges(rd, accept))
  {
    hide Parse, SortDescending, Ranges;
    var text := main + "/" + sub;
    var accept := text + ";q=0" + "," + "*/*";
    ParsePlain(rd, main, sub, text);
    ParseRefusal(rd, main, sub, text + ";q=0");
    ParsePlain(rd, "*", "*", "*/*");
    TwoRanges(rd, text + ";q=0", "*/*");
    var plain, refusal, all := Parse(rd, text), Parse(rd, text + ";q=0"), Parse(rd, "*/*");
    FirstProvided(rd, [text] + others);
    var provided := Provided(rd, [text] + others);
    WildcardWins(refusal, all, plain, provided);
    assert [refusal, all][0] == refusal && [refusal, all][1] == all;
  }

  lemma WildcardWins(refusal: MediaType, all: MediaType, plain: MediaType, provided: seq<MediaType>)
    requires provided != [] && provided[0] == plain && plain.params == map[] && plain.paramsText == ""
    requires plain.main != "*" && plain.sub != "*" && Match(plain, refusal) && Match(plain, all)
    requires refusal.quality < all.quality
    ensures Accepts(refusal, provided) && Accepts(all, provided)
    ensures Scan(SortDescending([refusal, all], PriorityOf), provided) == Some(plain.main + "/" + plain.sub)
  {
    hide Match, SortDescending;
    var ranges, p := [refusal, all], AcceptsFrom(provided);
    assert p(refusal) && p(all);
    assert ranges[1..] == [all] && ranges[1..][1..] == [];
    assert BestIndex([all], p, PriorityOf) == Some(0);
    assert BestIndex(ranges, p, PriorityOf) == Some(1);
    assert MatchesWith(all)(provided[0]);
    ScanByBest(ranges, provided);
    assert AsString(plain, all) == plain.main + "/" + plain.sub + "" == plain.main + "/" + plain.sub;
  }
}
