/** Facts about sequences used by several modules. */
module Seqs {

  function Keep<T>(x: T, p: T -> bool): seq<T> {
    if p(x) then [x] else []
  }

  /** s.filter(p) */
  function Filter<T>(s: seq<T>, p: T -> bool): seq<T> {
    if s == [] then [] else Keep(s[0], p) + Filter(s[1..], p)
  }

  lemma {:induction false} FilterMembers<T(!new)>(s: seq<T>, p: T -> bool)
    ensures forall x :: x in Filter(s, p) <==> x in s && p(x)
  {
    if s != [] {
      FilterMembers(s[1..], p);
      assert s == [s[0]] + s[1..];
    }
  }

  lemma {:induction false} FilterShortens<T>(s: seq<T>, p: T -> bool)
    ensures |Filter(s, p)| <= |s|
  {
    if s != [] { FilterShortens(s[1..], p); }
  }

  lemma FilterCons<T>(x: T, s: seq<T>, p: T -> bool)
    ensures Filter([x] + s, p) == Keep(x, p) + Filter(s, p)
  {
    assert ([x] + s)[1..] == s;
  }

  lemma {:induction false} FilterSnoc<T>(s: seq<T>, x: T, p: T -> bool)
    ensures Filter(s + [x], p) == Filter(s, p) + Keep(x, p)
  {
    if s == [] {
      FilterCons(x, [], p);
      assert [x] + [] == s + [x];
    } else {
      var first, rest := s[0], s[1..];
      FilterSnoc(rest, x, p);
      calc {
        Filter(s + [x], p);
        { assert s + [x] == [first] + (rest + [x]); }
        Filter([first] + (rest + [x]), p);
        { FilterCons(first, rest + [x], p); }
        Keep(first, p) + (Filter(rest, p) + Keep(x, p));
        (Keep(first, p) + Filter(rest, p)) + Keep(x, p);
        Filter(s, p) + Keep(x, p);
      }
    }
  }

  function RemoveAt<T>(s: seq<T>, i: nat): (r: seq<T>)
    requires i < |s|
    ensures |r| == |s| - 1
  {
    s[..i] + s[i + 1..]
  }

  lemma RemoveAtMultiset<T>(s: seq<T>, i: nat)
    requires i < |s|
    ensures multiset(RemoveAt(s, i)) == multiset(s) - multiset{s[i]}
    ensures multiset(s) == multiset(RemoveAt(s, i)) + multiset{s[i]}
  {
    assert s == s[..i] + [s[i]] + s[i + 1..];
    assert multiset(s) == multiset(s[..i]) + multiset{s[i]} + multiset(s[i + 1..]);
  }

  lemma InMultiset<T>(s: seq<T>, x: T) returns (j: nat)
    requires x in multiset(s)
    ensures j < |s| && s[j] == x
  {
    assert x in s;
    j :| 0 <= j < |s| && s[j] == x;
  }

  lemma LastMultiset<T>(s: seq<T>)
    requires s != []
    ensures multiset(s[..|s| - 1]) == multiset(s) - multiset{s[|s| - 1]}
    ensures s[|s| - 1] in multiset(s)
  {
    assert s == s[..|s| - 1] + [s[|s| - 1]];
  }

  /** A permutation of a nonempty list still holds its last element, and the rest is a permutation too. */
  lemma PermutationStep<T>(xs: seq<T>, ys: seq<T>) returns (j: nat)
    requires xs != [] && multiset(xs) == multiset(ys)
    ensures j < |ys| && ys[j] == xs[|xs| - 1]
    ensures multiset(xs[..|xs| - 1]) == multiset(RemoveAt(ys, j))
  {
    LastMultiset(xs);
    j := InMultiset(ys, xs[|xs| - 1]);
    RemoveAtMultiset(ys, j);
  }

  /** What holds a nonempty list holds its last element, and the rest holds the rest. */
  lemma PartStep<T>(part: seq<T>, all: seq<T>) returns (j: nat)
    requires part != [] && multiset(part) <= multiset(all)
    ensures j < |all| && all[j] == part[|part| - 1]
    ensures multiset(part[..|part| - 1]) <= multiset(RemoveAt(all, j))
  {
    LastMultiset(part);
    j := InMultiset(all, part[|part| - 1]);
    RemoveAtMultiset(all, j);
  }

  lemma PartLength<T>(part: seq<T>, all: seq<T>)
    requires multiset(part) <= multiset(all)
    ensures |part| <= |all|
  {
    var rest := multiset(all) - multiset(part);
    assert multiset(all) == multiset(part) + rest;
    assert |multiset(part)| == |part| && |multiset(all)| == |all|;
  }

  predicate Distinct<T(==)>(s: seq<T>) {
    forall i, j :: 0 <= i < j < |s| ==> s[i] != s[j]
  }

  /** No two elements have the same key. */
  ghost predicate DistinctBy<T, K>(s: seq<T>, key: T -> K) {
    forall i, j :: 0 <= i < j < |s| ==> key(s[i]) != key(s[j])
  }

  lemma InsertDistinct<T, K>(ys: seq<T>, k: nat, key: T -> K)
    requires k < |ys| && DistinctBy(RemoveAt(ys, k), key)
    requires forall i :: 0 <= i < |RemoveAt(ys, k)| ==> key(RemoveAt(ys, k)[i]) != key(ys[k])
    ensures DistinctBy(ys, key)
  {
    var rest := RemoveAt(ys, k);
    forall i, j | 0 <= i < j < |ys|
      ensures key(ys[i]) != key(ys[j])
    {
      if i < k { assert rest[i] == ys[i]; }
      if i > k { assert rest[i - 1] == ys[i]; }
      if j < k { assert rest[j] == ys[j]; }
      if j > k { assert rest[j - 1] == ys[j]; }
    }
  }

  /** Distinct keys stay distinct in any order. */
  lemma {:induction false} PermutedDistinct<T, K>(xs: seq<T>, ys: seq<T>, key: T -> K)
    requires multiset(xs) == multiset(ys) && DistinctBy(xs, key)
    ensures DistinctBy(ys, key)
    decreases |xs|
  {
    if xs == [] {
      assert |multiset(ys)| == 0;
    } else {
      var n := |xs| - 1;
      var k := PermutationStep(xs, ys);
      var rest := RemoveAt(ys, k);
      PermutedDistinct(xs[..n], rest, key);
      forall i | 0 <= i < |rest|
        ensures key(rest[i]) != key(xs[n])
      {
        assert rest[i] in multiset(xs[..n]);
      }
      InsertDistinct(ys, k, key);
    }
  }
}
