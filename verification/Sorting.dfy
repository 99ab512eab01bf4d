/** Array.prototype.sort and lodash `orderBy`: stable sorts, as insertion after everything that goes before. */
module Sorting {
  import opened Seqs

  /** Any two elements can be compared, and comparing is transitive. */
  ghost predicate IsOrder<T(!new)>(before: (T, T) -> bool) {
    && (forall x, y :: before(x, y) || before(y, x))
    && (forall x, y, z :: before(x, y) && before(y, z) ==> before(x, z))
  }

  predicate Sorted<T>(s: seq<T>, before: (T, T) -> bool) {
    forall i, j :: 0 <= i < j < |s| ==> before(s[i], s[j])
  }

  function Insert<T>(s: seq<T>, x: T, before: (T, T) -> bool): (r: seq<T>)
    ensures |r| == |s| + 1
  {
    if s == [] || before(s[|s| - 1], x) then s + [x] else Insert(s[..|s| - 1], x, before) + [s[|s| - 1]]
  }

  function Sort<T>(s: seq<T>, before: (T, T) -> bool): (r: seq<T>)
    ensures |r| == |s|
  {
    if s == [] then [] else Insert(Sort(s[..|s| - 1], before), s[|s| - 1], before)
  }

  lemma {:induction false} InsertIsPermutation<T>(s: seq<T>, x: T, before: (T, T) -> bool)
    ensures multiset(Insert(s, x, before)) == multiset(s) + multiset{x}
  {
    if s != [] && !before(s[|s| - 1], x) {
      InsertIsPermutation(s[..|s| - 1], x, before);
      assert s == s[..|s| - 1] + [s[|s| - 1]];
    }
  }

  lemma {:induction false} SortIsPermutation<T>(s: seq<T>, before: (T, T) -> bool)
    ensures multiset(Sort(s, before)) == multiset(s)
  {
    if s != [] {
      SortIsPermutation(s[..|s| - 1], before);
      InsertIsPermutation(Sort(s[..|s| - 1], before), s[|s| - 1], before);
      assert s == s[..|s| - 1] + [s[|s| - 1]];
    }
  }

  lemma SortMembers<T>(s: seq<T>, before: (T, T) -> bool)
    ensures forall x :: x in Sort(s, before) <==> x in s
  {
    SortIsPermutation(s, before);
    forall x
      ensures x in Sort(s, before) <==> x in s
    {
      assert x in multiset(Sort(s, before)) <==> x in multiset(s);
    }
  }

  lemma InsertAtEnd<T(!new)>(s: seq<T>, x: T, before: (T, T) -> bool)
    requires IsOrder(before) && Sorted(s, before) && (s == [] || before(s[|s| - 1], x))
    ensures Sorted(s + [x], before)
  {
    forall i | 0 <= i < |s|
      ensures before(s[i], x)
    {
      if i < |s| - 1 { assert before(s[i], s[|s| - 1]); }
    }
  }

  lemma {:induction false} InsertIsSorted<T(!new)>(s: seq<T>, x: T, before: (T, T) -> bool)
    requires IsOrder(before) && Sorted(s, before)
    ensures Sorted(Insert(s, x, before), before)
  {
    if s == [] || before(s[|s| - 1], x) {
      InsertAtEnd(s, x, before);
    } else {
      var front, last := Insert(s[..|s| - 1], x, before), s[|s| - 1];
      InsertIsSorted(s[..|s| - 1], x, before);
      InsertIsPermutation(s[..|s| - 1], x, before);
      forall i | 0 <= i < |front|
        ensures before(front[i], last)
      {
        assert front[i] in multiset(front);
      }
    }
  }

  lemma {:induction false} SortIsSorted<T(!new)>(s: seq<T>, before: (T, T) -> bool)
    requires IsOrder(before)
    ensures Sorted(Sort(s, before), before)
  {
    if s != [] {
      SortIsSorted(s[..|s| - 1], before);
      InsertIsSorted(Sort(s[..|s| - 1], before), s[|s| - 1], before);
    }
  }

  /** Sorting a sorted list changes nothing. */
  lemma {:induction false} SortKeepsSorted<T>(s: seq<T>, before: (T, T) -> bool)
    requires Sorted(s, before)
    ensures Sort(s, before) == s
  {
    if s != [] {
      var front, last := s[..|s| - 1], s[|s| - 1];
      SortKeepsSorted(front, before);
      assert front == [] || before(s[|s| - 2], s[|s| - 1]);
      assert Insert(front, last, before) == front + [last];
      assert s == front + [last];
    }
  }

  // ---------------------------------------------------------------- sorting and filtering

  lemma KeptBefore<T(!new)>(s: seq<T>, x: T, before: (T, T) -> bool, p: T -> bool)
    requires IsOrder(before) && Sorted(s, before) && (s == [] || before(s[|s| - 1], x))
    ensures Insert(Filter(s, p), x, before) == Filter(s, p) + [x]
  {
    var kept := Filter(s, p);
    FilterMembers(s, p);
    InsertAtEnd(s, x, before);
    if kept != [] {
      var last := kept[|kept| - 1];
      assert last in s;
      var i :| 0 <= i < |s| && s[i] == last;
      assert before((s + [x])[i], (s + [x])[|s|]);
    }
  }

  lemma InsertBefore<T>(s: seq<T>, x: T, last: T, before: (T, T) -> bool)
    requires !before(last, x)
    ensures Insert(s + [last], x, before) == Insert(s, x, before) + [last]
  {
    assert (s + [last])[..|s|] == s;
  }

  function FilteredInsert<T>(kept: seq<T>, x: T, before: (T, T) -> bool, p: T -> bool): seq<T> {
    if p(x) then Insert(kept, x, before) else kept
  }

  lemma FilteredInsertBefore<T>(kept: seq<T>, x: T, last: T, before: (T, T) -> bool, p: T -> bool)
    requires !before(last, x)
    ensures FilteredInsert(kept + Keep(last, p), x, before, p) == FilteredInsert(kept, x, before, p) + Keep(last, p)
  {
    if p(last) {
      InsertBefore(kept, x, last, before);
    } else {
      assert kept + [] == kept;
      assert FilteredInsert(kept, x, before, p) + [] == FilteredInsert(kept, x, before, p);
    }
  }

  lemma {:induction false} FilterInsert<T(!new)>(s: seq<T>, x: T, before: (T, T) -> bool, p: T -> bool)
    requires IsOrder(before) && Sorted(s, before)
    ensures Filter(Insert(s, x, before), p) == FilteredInsert(Filter(s, p), x, before, p)
  {
    if s == [] || before(s[|s| - 1], x) {
      FilterSnoc(s, x, p);
      KeptBefore(s, x, before, p);
      assert Filter(s, p) + [] == Filter(s, p);
    } else {
      var front, last := s[..|s| - 1], s[|s| - 1];
      FilterInsert(front, x, before, p);
      FilterSnoc(Insert(front, x, before), last, p);
      FilterSnoc(front, last, p);
      assert s == front + [last];
      FilteredInsertBefore(Filter(front, p), x, last, before, p);
    }
  }

  lemma SortKept<T>(kept: seq<T>, x: T, before: (T, T) -> bool, p: T -> bool)
    ensures Sort(kept + Keep(x, p), before) == FilteredInsert(Sort(kept, before), x, before, p)
  {
    if p(x) {
      assert (kept + [x])[..|kept|] == kept;
    } else {
      assert kept + [] == kept;
    }
  }

  /** Filtering and then sorting is sorting and then filtering. */
  lemma {:induction false} SortFiltered<T(!new)>(s: seq<T>, before: (T, T) -> bool, p: T -> bool)
    requires IsOrder(before)
    ensures Sort(Filter(s, p), before) == Filter(Sort(s, before), p)
  {
    if s != [] {
      var front, last := s[..|s| - 1], s[|s| - 1];
      assert Filter(s, p) == Filter(front, p) + Keep(last, p) by {
        FilterSnoc(front, last, p);
        assert s == front + [last];
      }
      SortKept(Filter(front, p), last, before, p);
      SortFiltered(front, before, p);
      SortIsSorted(front, before);
      FilterInsert(Sort(front, before), last, before, p);
    }
  }
}
