/** A stable sort, as `sort_by` and `sort_by_key` do it. */
module Sorting {

  function Insert<T>(x: T, s: seq<T>, le: (T, T) -> bool): (r: seq<T>) {
    if s == [] || le(x, s[0]) then [x] + s else [s[0]] + Insert(x, s[1..], le)
  }

  /** Equal elements keep their order: an element goes in front of the later ones it is equal to. */
  function Sort<T>(s: seq<T>, le: (T, T) -> bool): (r: seq<T>) {
    if s == [] then [] else Insert(s[0], Sort(s[1..], le), le)
  }

  ghost predicate IsSorted<T>(s: seq<T>, le: (T, T) -> bool) {
    forall i, j :: 0 <= i < j < |s| ==> le(s[i], s[j])
  }

  ghost predicate IsTotalPreorder<T(!new)>(le: (T, T) -> bool) {
    && (forall x, y :: le(x, y) || le(y, x))
    && (forall x, y, z :: le(x, y) && le(y, z) ==> le(x, z))
  }

  lemma {:induction false} InsertHasSameElements<T(!new)>(x: T, s: seq<T>, le: (T, T) -> bool)
    ensures multiset(Insert(x, s, le)) == multiset{x} + multiset(s)
    ensures forall y :: y in Insert(x, s, le) <==> y == x || y in s
  {
    if s != [] && !le(x, s[0]) {
      InsertHasSameElements(x, s[1..], le);
      assert s == [s[0]] + s[1..];
    }
  }

  lemma {:induction false} InsertExactly<T(!new)>(x: T, s: seq<T>, le: (T, T) -> bool)
    ensures multiset(Insert(x, s, le)) == multiset{x} + multiset(s)
    ensures IsTotalPreorder(le) && IsSorted(s, le) ==> IsSorted(Insert(x, s, le), le)
  {
    InsertHasSameElements(x, s, le);
    if s != [] && !le(x, s[0]) && IsTotalPreorder(le) && IsSorted(s, le) {
      InsertExactly(x, s[1..], le);
      InsertHasSameElements(x, s[1..], le);
      var rest := Insert(x, s[1..], le);
      forall j | 0 <= j < |rest|
        ensures le(s[0], rest[j])
      {
        assert rest[j] in rest;
      }
    }
  }

  lemma {:induction false} SortExactly<T(!new)>(s: seq<T>, le: (T, T) -> bool)
    ensures multiset(Sort(s, le)) == multiset(s)
    ensures IsTotalPreorder(le) ==> IsSorted(Sort(s, le), le)
  {
    if s != [] {
      SortExactly(s[1..], le);
      InsertExactly(s[0], Sort(s[1..], le), le);
      assert s == [s[0]] + s[1..];
    }
  }

  lemma SortHasSameElements<T(!new)>(s: seq<T>, le: (T, T) -> bool)
    ensures |Sort(s, le)| == |s|
    ensures forall x :: x in Sort(s, le) <==> x in s
  {
    SortExactly(s, le);
    forall x
      ensures x in Sort(s, le) <==> x in s
    {
      assert x in multiset(s) <==> x in s;
      assert x in multiset(Sort(s, le)) <==> x in Sort(s, le);
    }
    assert |multiset(s)| == |s| && |multiset(Sort(s, le))| == |Sort(s, le)|;
  }

  /** Sorting what is sorted changes nothing. */
  lemma {:induction false} SortOfSorted<T(!new)>(s: seq<T>, le: (T, T) -> bool)
    requires IsSorted(s, le)
    ensures Sort(s, le) == s
  {
    if s != [] {
      SortOfSorted(s[1..], le);
      assert s == [s[0]] + s[1..];
    }
  }

  ghost predicate NoRepeats<T>(s: seq<T>) {
    forall i, j :: 0 <= i < j < |s| ==> s[i] != s[j]
  }

  /** What holds between any two elements of a list, whichever comes first, holds after sorting. */
  lemma {:induction false} PairwiseAfterSort<T(!new)>(s: seq<T>, le: (T, T) -> bool, apart: (T, T) -> bool)
    requires forall x, y :: apart(x, y) ==> apart(y, x)
    requires forall i, j :: 0 <= i < j < |s| ==> apart(s[i], s[j])
    ensures forall i, j :: 0 <= i < j < |Sort(s, le)| ==> apart(Sort(s, le)[i], Sort(s, le)[j])
  {
    if s != [] {
      PairwiseAfterSort(s[1..], le, apart);
      SortHasSameElements(s[1..], le);
      PairwiseAfterInsert(s[0], Sort(s[1..], le), le, apart);
    }
  }

  lemma {:induction false} PairwiseAfterInsert<T(!new)>(x: T, s: seq<T>, le: (T, T) -> bool, apart: (T, T) -> bool)
    requires forall x, y :: apart(x, y) ==> apart(y, x)
    requires forall y :: y in s ==> apart(x, y)
    requires forall i, j :: 0 <= i < j < |s| ==> apart(s[i], s[j])
    ensures forall i, j :: 0 <= i < j < |Insert(x, s, le)| ==> apart(Insert(x, s, le)[i], Insert(x, s, le)[j])
  {
    if s != [] && !le(x, s[0]) {
      PairwiseAfterInsert(x, s[1..], le, apart);
      var rest := Insert(x, s[1..], le);
      InsertHasSameElements(x, s[1..], le);
      forall j | 0 <= j < |rest|
        ensures apart(s[0], rest[j])
      {
        assert rest[j] in rest;
      }
    }
  }
}
