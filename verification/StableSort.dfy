/** Sorting by a pair of numbers, largest first, keeping the order of equals: `list.sort(key=..., reverse=True)`. */
module StableSort {
  import opened Wrappers

  type Priority = (int, int)

  predicate Below(a: Priority, b: Priority) {
    a.0 < b.0 || (a.0 == b.0 && a.1 < b.1)
  }

  function Insert<T>(x: T, sorted: seq<T>, key: T -> Priority): seq<T> {
    if sorted == [] || !Below(key(x), key(sorted[0])) then [x] + sorted
    else [sorted[0]] + Insert(x, sorted[1..], key)
  }

  function SortDescending<T>(xs: seq<T>, key: T -> Priority): seq<T> {
    if xs == [] then [] else Insert(xs[0], SortDescending(xs[1..], key), key)
  }

  predicate Descending<T>(xs: seq<T>, key: T -> Priority) {
    |xs| < 2 || (!Below(key(xs[0]), key(xs[1])) && Descending(xs[1..], key))
  }

  /** The first element with a property. */
  function First<T>(xs: seq<T>, p: T -> bool): Option<T> {
    if xs == [] then None else if p(xs[0]) then Some(xs[0]) else First(xs[1..], p)
  }

  lemma {:induction false} FirstFinds<T>(xs: seq<T>, p: T -> bool)
    ensures First(xs, p).None? <==> forall i :: 0 <= i < |xs| ==> !p(xs[i])
    ensures First(xs, p).Some? ==> First(xs, p).value in xs && p(First(xs, p).value)
  {
    if xs != [] {
      FirstFinds(xs[1..], p);
      assert forall i :: 1 <= i < |xs| ==> xs[i] == xs[1..][i - 1];
    }
  }

  lemma SortOne<T>(x: T, key: T -> Priority)
    ensures SortDescending([x], key) == [x]
  {
    assert [x][1..] == [];
    assert SortDescending([x][1..], key) == [];
  }

  lemma {:induction false} InsertSorts<T>(x: T, sorted: seq<T>, key: T -> Priority)
    requires Descending(sorted, key)
    ensures Descending(Insert(x, sorted, key), key)
  {
    if sorted == [] || !Below(key(x), key(sorted[0])) {
      assert ([x] + sorted)[1..] == sorted;
    } else {
      InsertSorts(x, sorted[1..], key);
      assert Insert(x, sorted, key)[1..] == Insert(x, sorted[1..], key);
    }
  }

  lemma {:induction false} InsertPermutes<T>(x: T, sorted: seq<T>, key: T -> Priority)
    ensures multiset(Insert(x, sorted, key)) == multiset{x} + multiset(sorted)
  {
    if sorted != [] && Below(key(x), key(sorted[0])) {
      InsertPermutes(x, sorted[1..], key);
      assert sorted == [sorted[0]] + sorted[1..];
    }
  }

  lemma {:induction false} SortSorts<T>(xs: seq<T>, key: T -> Priority)
    ensures Descending(SortDescending(xs, key), key)
  {
    if xs != [] {
      SortSorts(xs[1..], key);
      InsertSorts(xs[0], SortDescending(xs[1..], key), key);
    }
  }

  /** Sorting rearranges: no element is lost, added or duplicated. */
  lemma {:induction false} SortPermutes<T>(xs: seq<T>, key: T -> Priority)
    ensures multiset(SortDescending(xs, key)) == multiset(xs)
  {
    if xs != [] {
      SortPermutes(xs[1..], key);
      InsertPermutes(xs[0], SortDescending(xs[1..], key), key);
      assert xs == [xs[0]] + xs[1..];
    }
  }

  lemma {:induction false} HeadIsTop<T>(sorted: seq<T>, key: T -> Priority, i: nat)
    requires Descending(sorted, key) && i < |sorted|
    ensures !Below(key(sorted[0]), key(sorted[i]))
  {
    if i > 0 {
      HeadIsTop(sorted[1..], key, i - 1);
    }
  }

  /**
   * The earliest index of highest priority among the elements with a property: nothing with the
   * property has a higher priority, and nothing before it has the same one.
   */
  ghost predicate IsBest<T>(xs: seq<T>, p: T -> bool, key: T -> Priority, i: nat) {
    && i < |xs| && p(xs[i])
    && (forall j :: 0 <= j < |xs| && p(xs[j]) ==> !Below(key(xs[i]), key(xs[j])))
    && (forall j :: 0 <= j < i && p(xs[j]) ==> key(xs[j]) != key(xs[i]))
  }

  lemma BestIsUnique<T>(xs: seq<T>, p: T -> bool, key: T -> Priority, i: nat, j: nat)
    requires IsBest(xs, p, key, i) && IsBest(xs, p, key, j)
    ensures i == j
  {}

  lemma {:induction false} FirstAfterInsert<T>(x: T, sorted: seq<T>, p: T -> bool, key: T -> Priority)
    requires Descending(sorted, key)
    ensures First(Insert(x, sorted, key), p)
      == var old' := First(sorted, p);
         if p(x) && (old'.None? || !Below(key(x), key(old'.value))) then Some(x) else old'
  {
    if sorted == [] || !Below(key(x), key(sorted[0])) {
      assert ([x] + sorted)[1..] == sorted;
      var hit := First(sorted, p);
      FirstFinds(sorted, p);
      if hit.Some? {
        var i :| 0 <= i < |sorted| && sorted[i] == hit.value;
        HeadIsTop(sorted, key, i);
      }
    } else {
      FirstAfterInsert(x, sorted[1..], p, key);
      assert Insert(x, sorted, key)[1..] == Insert(x, sorted[1..], key);
      if First(sorted[1..], p).Some? {
        assert First(sorted, p).Some?;
      }
    }
  }

  /** The index that scanning in priority order would find. */
  function BestIndex<T>(xs: seq<T>, p: T -> bool, key: T -> Priority): (best: Option<nat>)
    ensures best.Some? ==> best.value < |xs|
  {
    if xs == [] then None
    else
      var later := BestIndex(xs[1..], p, key);
      if p(xs[0]) && (later.None? || !Below(key(xs[0]), key(xs[1..][later.value]))) then Some(0)
      else if later.Some? then Some(later.value + 1)
      else None
  }

  lemma {:induction false} BestIndexIsBest<T>(xs: seq<T>, p: T -> bool, key: T -> Priority)
    ensures BestIndex(xs, p, key).None? <==> forall i :: 0 <= i < |xs| ==> !p(xs[i])
    ensures BestIndex(xs, p, key).Some? ==> IsBest(xs, p, key, BestIndex(xs, p, key).value)
  {
    if xs != [] {
      BestIndexIsBest(xs[1..], p, key);
      assert forall i :: 1 <= i < |xs| ==> xs[i] == xs[1..][i - 1];
    }
  }

  /** Scanning the sorted list for the first hit finds the best element of the original list. */
  lemma {:induction false} FirstOfSorted<T>(xs: seq<T>, p: T -> bool, key: T -> Priority)
    ensures First(SortDescending(xs, key), p)
      == var best := BestIndex(xs, p, key); if best.None? then None else Some(xs[best.value])
  {
    if xs != [] {
      FirstOfSorted(xs[1..], p, key);
      SortSorts(xs[1..], key);
      FirstAfterInsert(xs[0], SortDescending(xs[1..], key), p, key);
    }
  }
}
