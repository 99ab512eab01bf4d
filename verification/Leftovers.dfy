/**
  The second stage of change computation: tokens of the selected inputs that the transaction did not
  ask for are handed back in the change bundles.
 */
module Leftovers {
  import opened RequestedChange
  import opened Seqs
  import opened Sorting
  import opened Values
  import opened Wrappers

  function Sum(q: seq<int>): int {
    if q == [] then 0 else Sum(q[..|q| - 1]) + q[|q| - 1]
  }

  predicate Positive(q: seq<int>) {
    forall i :: 0 <= i < |q| ==> q[i] > 0
  }

  lemma SumAppend(q: seq<int>, x: int)
    ensures Sum(q + [x]) == Sum(q) + x
  {
  }

  lemma {:induction false} SumConcat(p: seq<int>, q: seq<int>)
    ensures Sum(p + q) == Sum(p) + Sum(q)
  {
    if q == [] {
      assert p + q == p;
    } else {
      var front := q[..|q| - 1];
      assert p + q == (p + front) + [q[|q| - 1]];
      SumConcat(p, front);
      SumAppend(p + front, q[|q| - 1]);
    }
  }

  lemma {:induction false} SumPermutation(p: seq<int>, q: seq<int>)
    requires multiset(p) == multiset(q)
    ensures Sum(p) == Sum(q)
    decreases |p|
  {
    if p == [] {
      assert |multiset(q)| == 0;
    } else {
      var j := PermutationStep(p, q);
      SumPermutation(p[..|p| - 1], RemoveAt(q, j));
      assert q == (q[..j] + [q[j]]) + q[j + 1..];
      SumConcat(q[..j] + [q[j]], q[j + 1..]);
      SumAppend(q[..j], q[j]);
      SumConcat(q[..j], q[j + 1..]);
    }
  }

  // ---------------------------------------------------------------- collecting

  function LeftOf(m: map<AssetId, seq<int>>, a: AssetId): seq<int> {
    if a in m then m[a] else []
  }

  /** Each asset with leftovers has a nonempty list of nonzero quantities. */
  predicate ValidLeftovers(m: map<AssetId, seq<int>>, txAssets: seq<AssetId>) {
    forall a :: a in m ==> a !in txAssets && m[a] != [] && 0 !in m[a]
  }

  /** What the values have of an asset, in their order, without the zeros. */
  function Quantities(vs: seq<Value>, a: AssetId): seq<int> {
    if vs == [] then []
    else
      var last := Amount(vs[|vs| - 1], Asset(a));
      Quantities(vs[..|vs| - 1], a) + if last == 0 then [] else [last]
  }

  ghost predicate Collected(m: map<AssetId, seq<int>>, vs: seq<Value>, txAssets: seq<AssetId>) {
    && ValidLeftovers(m, txAssets)
    && forall a :: a !in txAssets ==>
         && LeftOf(m, a) == Quantities(vs, a)
         && Sum(LeftOf(m, a)) == Total(vs, Asset(a))
         && (NonNegative(vs, Asset(a)) ==> Positive(LeftOf(m, a)))
  }

  /** The quantities of one bundle, each behind those already collected for its asset. */
  method CollectEntries(m: map<AssetId, seq<int>>, entries: TokenMap, txAssets: seq<AssetId>)
    returns (r: map<AssetId, seq<int>>)
    requires ValidLeftovers(m, txAssets)
    ensures ValidLeftovers(r, txAssets)
    ensures forall a :: a !in entries ==> LeftOf(r, a) == LeftOf(m, a)
    ensures forall a :: a in entries && a !in txAssets ==>
      LeftOf(r, a) == if entries[a] == 0 then LeftOf(m, a) else LeftOf(m, a) + [entries[a]]
  {
    r := m;
    var todo := set a | a in entries && a !in txAssets;
    while todo != {}
      invariant todo <= entries.Keys && forall a :: a in todo ==> a !in txAssets
      invariant ValidLeftovers(r, txAssets)
      invariant forall a :: a in todo || a !in entries ==> LeftOf(r, a) == LeftOf(m, a)
      invariant forall a :: a in entries && a !in todo && a !in txAssets ==>
        LeftOf(r, a) == if entries[a] == 0 then LeftOf(m, a) else LeftOf(m, a) + [entries[a]]
    {
      var a :| a in todo;
      if entries[a] != 0 {
        r := r[a := LeftOf(r, a) + [entries[a]]];
      }
      todo := todo - {a};
    }
  }

  lemma QuantitiesSnoc(vs: seq<Value>, v: Value, a: AssetId)
    ensures var q := Amount(v, Asset(a));
      Quantities(vs + [v], a) == Quantities(vs, a) + if q == 0 then [] else [q]
  {
    assert (vs + [v])[..|vs|] == vs;
  }

  lemma CollectedOne(q: seq<int>, q': seq<int>, vs: seq<Value>, v: Value, a: AssetId)
    requires q == Quantities(vs, a)
    requires Sum(q) == Total(vs, Asset(a)) && (NonNegative(vs, Asset(a)) ==> Positive(q))
    requires q' == if Amount(v, Asset(a)) == 0 then q else q + [Amount(v, Asset(a))]
    ensures q' == Quantities(vs + [v], a)
    ensures Sum(q') == Total(vs + [v], Asset(a))
    ensures NonNegative(vs + [v], Asset(a)) ==> Positive(q')
  {
    QuantitiesSnoc(vs, v, a);
    TotalAppend(vs, v, Asset(a));
    SumAppend(q, Amount(v, Asset(a)));
    if NonNegative(vs + [v], Asset(a)) {
      forall i | 0 <= i < |vs| ensures Amount(vs[i], Asset(a)) >= 0 { assert (vs + [v])[i] == vs[i]; }
      assert (vs + [v])[|vs|] == v;
    }
  }

  /** The inner loop of getLeftoverAssets: the leftovers of one selected UTxO. */
  method CollectFrom(m: map<AssetId, seq<int>>, vs: seq<Value>, v: Value, txAssets: seq<AssetId>)
    returns (r: map<AssetId, seq<int>>)
    requires Collected(m, vs, txAssets)
    ensures Collected(r, vs + [v], txAssets)
  {
    r := CollectEntries(m, Entries(v), txAssets);
    forall a | a !in txAssets
      ensures LeftOf(r, a) == Quantities(vs + [v], a)
      ensures Sum(LeftOf(r, a)) == Total(vs + [v], Asset(a))
      ensures NonNegative(vs + [v], Asset(a)) ==> Positive(LeftOf(r, a))
    {
      CollectedOne(LeftOf(m, a), LeftOf(r, a), vs, v, a);
    }
  }

  /** getLeftoverAssets: the quantities of every asset the transaction did not ask for. */
  method GetLeftoverAssets(utxo: seq<Utxo>, txAssets: seq<AssetId>) returns (m: map<AssetId, seq<int>>)
    ensures Collected(m, ToValues(utxo), txAssets)
  {
    m := map[];
    var vs := ToValues(utxo);
    for n := 0 to |vs|
      invariant Collected(m, vs[..n], txAssets)
    {
      assert vs[..n + 1] == vs[..n] + [vs[n]];
      m := CollectFrom(m, vs[..n], vs[n], txAssets);
    }
    assert vs[..|vs|] == vs;
  }

  // ---------------------------------------------------------------- redistributing

  /** The last quantity popped and added to the one before it. */
  function MergeLast(q: seq<int>): seq<int>
    requires |q| >= 2
  {
    q[..|q| - 2] + [q[|q| - 2] + q[|q| - 1]]
  }

  lemma LastTwoSum(front: seq<int>, x: int, y: int)
    ensures Sum(front + [x] + [y]) == Sum(front + [x + y])
  {
    SumAppend(front, x);
    SumAppend(front + [x], y);
    SumAppend(front, x + y);
  }

  lemma TailSum(s: seq<int>, k: nat)
    requires k < |s|
    ensures Sum(s[k..]) == s[k] + Sum(s[k + 1..])
  {
    SumConcat([s[k]], s[k + 1..]);
    assert s[k..] == [s[k]] + s[k + 1..];
    SumAppend([], s[k]);
    assert [] + [s[k]] == [s[k]];
  }

  /** What has been coalesced so far: all but the last are as they were, the last is the sum of the rest. */
  ghost predicate Coalescing(sorted: seq<int>, q: seq<int>) {
    0 < |q| <= |sorted| && q[..|q| - 1] == sorted[..|q| - 1] && q[|q| - 1] == Sum(sorted[|q| - 1..])
  }

  lemma CoalesceStep(sorted: seq<int>, q: seq<int>)
    requires Coalescing(sorted, q) && |q| >= 2
    ensures Coalescing(sorted, MergeLast(q))
  {
    var k := |q| - 2;
    TailSum(sorted, k);
    assert q[k] == q[..|q| - 1][k] == sorted[k];
    assert MergeLast(q)[..k] == q[..|q| - 1][..k] == sorted[..|q| - 1][..k] == sorted[..k];
  }

  lemma CoalesceStart(sorted: seq<int>)
    requires sorted != []
    ensures Coalescing(sorted, sorted)
  {
    TailSum(sorted, |sorted| - 1);
  }

  /** With more quantities than bundles, the smallest ones are coalesced; otherwise nothing changes. */
  method CoalesceSmallest(sorted: seq<int>, n: nat) returns (q: seq<int>)
    requires n > 0
    ensures |sorted| <= n ==> q == sorted
    ensures |sorted| > n ==> |q| == n && q[..n - 1] == sorted[..n - 1] && q[n - 1] == Sum(sorted[n - 1..])
    ensures Sum(q) == Sum(sorted)
    ensures Positive(sorted) ==> Positive(q)
  {
    q := sorted;
    if |sorted| <= n { return; }
    CoalesceStart(sorted);
    while |q| > n
      invariant |q| >= n && Coalescing(sorted, q)
      invariant Sum(q) == Sum(sorted)
      invariant Positive(sorted) ==> Positive(q)
    {
      CoalesceStep(sorted, q);
      ghost var before := q;
      var smallest := q[|q| - 1];
      var popped := q[..|q| - 1];
      q := popped[..|popped| - 1] + [popped[|popped| - 1] + smallest];
      assert q == MergeLast(before);
      assert before == before[..|q| - 1] + [before[|q| - 1]] + [smallest];
      LastTwoSum(before[..|q| - 1], before[|q| - 1], smallest);
    }
  }

  function WithEntry(v: Value, a: AssetId, q: int): Value {
    Value(v.coins, Some(Entries(v)[a := q]))
  }

  /** Writes one quantity of `a` into each of the first bundles. */
  method PlaceQuantities(bundles: seq<Value>, a: AssetId, q: seq<int>) returns (r: seq<Value>)
    requires |q| <= |bundles|
    ensures |r| == |bundles|
    ensures forall i :: 0 <= i < |r| ==> r[i] == if i < |q| then WithEntry(bundles[i], a, q[i]) else bundles[i]
  {
    r := bundles;
    for n := 0 to |q|
      invariant |r| == |bundles|
      invariant forall i :: 0 <= i < |r| ==> r[i] == if i < n then WithEntry(bundles[i], a, q[i]) else bundles[i]
    {
      r := r[n := WithEntry(r[n], a, q[n])];
    }
  }

  lemma {:induction false} PlacedTotal(bundles: seq<Value>, r: seq<Value>, a: AssetId, q: seq<int>, t: Token)
    requires |q| <= |bundles| == |r|
    requires forall i :: 0 <= i < |bundles| ==> a !in Entries(bundles[i])
    requires forall i :: 0 <= i < |r| ==> r[i] == if i < |q| then WithEntry(bundles[i], a, q[i]) else bundles[i]
    ensures Total(r, t) == if t == Asset(a) then Sum(q) else Total(bundles, t)
  {
    if r == [] {
    } else {
      var n := |r| - 1;
      var q' := if |q| == |r| then q[..n] else q;
      PlacedTotal(bundles[..n], r[..n], a, q', t);
      assert Amount(r[n], t) == if t == Asset(a) then (if |q| == |r| then q[n] else 0) else Amount(bundles[n], t);
    }
  }

  /** Nothing that was in a bundle has been taken out of it or overwritten. */
  predicate KeepsBundles(before: seq<Value>, after: seq<Value>) {
    && |before| <= |after|
    && forall i :: 0 <= i < |before| ==>
         && after[i].coins == before[i].coins
         && forall a :: a in Entries(before[i]) ==>
              a in Entries(after[i]) && Entries(after[i])[a] == Entries(before[i])[a]
  }

  predicate Larger(x: int, y: int) {
    x >= y
  }

  /** The quantities from the largest to the smallest. */
  function LargestFirst(quantities: seq<int>): seq<int> {
    Sort(quantities, Larger)
  }

  lemma PositivePermutation(p: seq<int>, q: seq<int>)
    requires multiset(p) == multiset(q) && Positive(p)
    ensures Positive(q)
  {
    forall i | 0 <= i < |q|
      ensures q[i] > 0
    {
      assert q[i] in multiset(p);
    }
  }

  lemma LargestFirstSorts(quantities: seq<int>)
    ensures Sorted(LargestFirst(quantities), Larger) && multiset(LargestFirst(quantities)) == multiset(quantities)
    ensures forall i, j :: 0 <= i < j < |quantities| ==> LargestFirst(quantities)[i] >= LargestFirst(quantities)[j]
    ensures Sum(LargestFirst(quantities)) == Sum(quantities)
    ensures Positive(quantities) ==> Positive(LargestFirst(quantities))
  {
    SortIsSorted(quantities, Larger);
    SortIsPermutation(quantities, Larger);
    SumPermutation(LargestFirst(quantities), quantities);
    if Positive(quantities) { PositivePermutation(quantities, LargestFirst(quantities)); }
  }

  /** Largest first; beyond `n` quantities, the `n - 1` largest and the sum of the others. */
  ghost predicate IsFit(quantities: seq<int>, n: nat, q: seq<int>) {
    if |quantities| <= n then q == LargestFirst(quantities)
    else
      && 0 < |q| == n && q[..n - 1] == LargestFirst(quantities)[..n - 1]
      && q[n - 1] == Sum(LargestFirst(quantities)[n - 1..])
  }

  /** The sorting and coalescing of one asset's quantities. */
  method FitQuantities(quantities: seq<int>, n: nat) returns (q: seq<int>)
    requires n > 0
    ensures IsFit(quantities, n, q)
    ensures Sorted(LargestFirst(quantities), Larger) && multiset(LargestFirst(quantities)) == multiset(quantities)
    ensures Sum(q) == Sum(quantities)
    ensures Positive(quantities) ==> Positive(q)
  {
    LargestFirstSorts(quantities);
    q := CoalesceSmallest(LargestFirst(quantities), n);
  }

  /** The first bundles have the quantities of `a`, one each, and the others have none of it. */
  predicate PlacedAs(bundles: seq<Value>, a: AssetId, q: seq<int>) {
    && |q| <= |bundles|
    && forall i :: 0 <= i < |bundles| ==>
         if i < |q| then a in Entries(bundles[i]) && Entries(bundles[i])[a] == q[i] else a !in Entries(bundles[i])
  }

  /** The quantities are in the first bundles, largest first and as many as there are bundles. */
  ghost predicate IsPlaced(bundles: seq<Value>, a: AssetId, quantities: seq<int>) {
    exists q :: IsFit(quantities, |bundles|, q) && PlacedAs(bundles, a, q)
  }

  lemma NonePlaced(bundles: seq<Value>, a: AssetId)
    requires forall i :: 0 <= i < |bundles| ==> a !in Entries(bundles[i])
    ensures IsPlaced(bundles, a, [])
  {
    assert LargestFirst([]) == [];
    assert IsFit([], |bundles|, []) && PlacedAs(bundles, a, []);
  }

  /** Placing another asset changes nothing about this one. */
  lemma StaysPlaced(before: seq<Value>, after: seq<Value>, a: AssetId, quantities: seq<int>, b: AssetId)
    requires IsPlaced(before, a, quantities) && a != b && |after| == |before| && KeepsBundles(before, after)
    requires forall i, c :: 0 <= i < |after| && c in Entries(after[i]) ==> c == b || c in Entries(before[i])
    ensures IsPlaced(after, a, quantities)
  {
    var q :| IsFit(quantities, |before|, q) && PlacedAs(before, a, q);
    assert PlacedAs(after, a, q);
  }

  /** The bundles with all quantities of one asset placed in them. */
  ghost predicate AssetPlaced(bundles: seq<Value>, a: AssetId, quantities: seq<int>, r: seq<Value>) {
    && |r| == (if bundles == [] then 1 else |bundles|)
    && KeepsBundles(bundles, r)
    && (forall t :: Total(r, t) == if t == Asset(a) then Sum(quantities) else Total(bundles, t))
    && (forall t :: t != Asset(a) && NonNegative(bundles, t) ==> NonNegative(r, t))
    && (Positive(quantities) ==> NonNegative(r, Asset(a)))
    && IsPlaced(r, a, quantities)
    && (forall i, b :: 0 <= i < |r| && b in Entries(r[i]) ==> b == a || (i < |bundles| && b in Entries(bundles[i])))
  }

  /** `r` is the bundles, or one new bundle when there is none, with the quantities written into the first ones. */
  ghost predicate IsWritten(bundles: seq<Value>, r: seq<Value>, a: AssetId, q: seq<int>) {
    var base := if bundles == [] then [Value(0, None)] else bundles;
    && (forall i :: 0 <= i < |bundles| ==> a !in Entries(bundles[i]))
    && |q| <= |base| == |r|
    && forall i :: 0 <= i < |r| ==> r[i] == if i < |q| then WithEntry(base[i], a, q[i]) else base[i]
  }

  lemma WrittenKeeps(bundles: seq<Value>, r: seq<Value>, a: AssetId, q: seq<int>)
    requires IsWritten(bundles, r, a, q)
    ensures KeepsBundles(bundles, r) && PlacedAs(r, a, q)
    ensures forall i, b :: 0 <= i < |r| && b in Entries(r[i]) ==> b == a || (i < |bundles| && b in Entries(bundles[i]))
  {
  }

  lemma WrittenSigns(bundles: seq<Value>, r: seq<Value>, a: AssetId, q: seq<int>)
    requires IsWritten(bundles, r, a, q)
    ensures forall t :: t != Asset(a) && NonNegative(bundles, t) ==> NonNegative(r, t)
    ensures Positive(q) ==> NonNegative(r, Asset(a))
  {
  }

  lemma WrittenTotal(bundles: seq<Value>, r: seq<Value>, a: AssetId, q: seq<int>, t: Token)
    requires IsWritten(bundles, r, a, q)
    ensures Total(r, t) == if t == Asset(a) then Sum(q) else Total(bundles, t)
  {
    var base := if bundles == [] then [Value(0, None)] else bundles;
    if bundles == [] { TotalZero(base, t); }
    PlacedTotal(base, r, a, q, t);
  }

  lemma WrittenIsPlaced(bundles: seq<Value>, r: seq<Value>, a: AssetId, quantities: seq<int>, q: seq<int>)
    requires IsWritten(bundles, r, a, q) && IsFit(quantities, |r|, q)
    requires Sum(q) == Sum(quantities) && (Positive(quantities) ==> Positive(q))
    ensures AssetPlaced(bundles, a, quantities, r)
  {
    forall t ensures Total(r, t) == if t == Asset(a) then Sum(quantities) else Total(bundles, t) {
      WrittenTotal(bundles, r, a, q, t);
    }
    WrittenKeeps(bundles, r, a, q);
    WrittenSigns(bundles, r, a, q);
  }

  /** One asset's turn in redistributeLeftoverAssets. */
  method DistributeAsset(bundles: seq<Value>, a: AssetId, quantities: seq<int>) returns (r: seq<Value>)
    requires quantities != []
    requires forall i :: 0 <= i < |bundles| ==> a !in Entries(bundles[i])
    ensures AssetPlaced(bundles, a, quantities, r)
  {
    var base := if bundles == [] then [Value(0, None)] else bundles;
    var q := FitQuantities(quantities, |base|);
    r := PlaceQuantities(base, a, q);
    WrittenIsPlaced(bundles, r, a, quantities, q);
  }

  lemma KeepsBundlesTransitive(x: seq<Value>, y: seq<Value>, z: seq<Value>)
    requires KeepsBundles(x, y) && KeepsBundles(y, z)
    ensures KeepsBundles(x, z)
  {
  }

  /** The tokens that leftovers do not touch. */
  predicate Untouched(t: Token, txAssets: seq<AssetId>) {
    t.Lovelace? || t.id in txAssets
  }

  /** The outer loop of redistributeLeftoverAssets. */
  method DistributeAll(leftovers: map<AssetId, seq<int>>, bundles: seq<Value>, txAssets: seq<AssetId>)
    returns (r: seq<Value>)
    requires KeysWithin(bundles, set a | a in txAssets) && ValidLeftovers(leftovers, txAssets)
    ensures KeepsBundles(bundles, r)
    ensures |r| == |bundles| || (bundles == [] && |r| == 1)
    ensures forall t :: Untouched(t, txAssets) ==> Total(r, t) == Total(bundles, t)
    ensures forall t :: Untouched(t, txAssets) && NonNegative(bundles, t) ==> NonNegative(r, t)
    ensures forall a :: a !in txAssets ==> Total(r, Asset(a)) == Sum(LeftOf(leftovers, a))
    ensures forall a :: a !in txAssets && Positive(LeftOf(leftovers, a)) ==> NonNegative(r, Asset(a))
    ensures forall a :: a !in txAssets ==> IsPlaced(r, a, LeftOf(leftovers, a))
  {
    r := bundles;
    var todo := leftovers.Keys;
    ghost var ids := set a | a in txAssets;
    while todo != {}
      invariant todo <= leftovers.Keys
      invariant KeepsBundles(bundles, r)
      invariant |r| == |bundles| || (bundles == [] && |r| == 1)
      invariant KeysWithin(r, ids + (leftovers.Keys - todo))
      invariant forall t :: Untouched(t, txAssets) ==> Total(r, t) == Total(bundles, t)
      invariant forall t :: Untouched(t, txAssets) && NonNegative(bundles, t) ==> NonNegative(r, t)
      invariant forall a :: a in leftovers && a !in todo ==> Total(r, Asset(a)) == Sum(leftovers[a])
      invariant forall a :: a in leftovers && a !in todo && Positive(leftovers[a]) ==> NonNegative(r, Asset(a))
      invariant forall a :: a in leftovers && a !in todo ==> r != [] && IsPlaced(r, a, leftovers[a])
    {
      var a :| a in todo;
      assert a in leftovers && a !in ids;
      ghost var before := r;
      r := DistributeAsset(r, a, leftovers[a]);
      KeepsBundlesTransitive(bundles, before, r);
      forall b | b in leftovers && b !in todo ensures r != [] && IsPlaced(r, b, leftovers[b]) {
        StaysPlaced(before, r, b, leftovers[b], a);
      }
      todo := todo - {a};
    }
    forall a | a !in txAssets
      ensures Total(r, Asset(a)) == Sum(LeftOf(leftovers, a))
      ensures Positive(LeftOf(leftovers, a)) ==> NonNegative(r, Asset(a))
      ensures IsPlaced(r, a, LeftOf(leftovers, a))
    {
      if a !in leftovers {
        assert a !in ids;
        assert forall i :: 0 <= i < |r| ==> a !in Entries(r[i]);
        TotalZero(r, Asset(a));
        NonePlaced(r, a);
      }
    }
  }

  /**
    redistributeLeftoverAssets: adds to the change exactly what was selected of every asset the
    transaction did not ask for, leaves every other total alone, and overwrites nothing.
   */
  method RedistributeLeftoverAssets(utxo: seq<Utxo>, bundles: seq<Value>, txAssets: seq<AssetId>)
    returns (r: seq<Value>)
    requires KeysWithin(bundles, set a | a in txAssets)
    ensures KeepsBundles(bundles, r)
    ensures |r| == |bundles| || (bundles == [] && |r| == 1)
    ensures forall t :: Untouched(t, txAssets) ==> Total(r, t) == Total(bundles, t)
    ensures forall t :: Untouched(t, txAssets) && NonNegative(bundles, t) ==> NonNegative(r, t)
    ensures forall t :: !Untouched(t, txAssets) ==> Total(r, t) == Total(ToValues(utxo), t)
    ensures forall t :: !Untouched(t, txAssets) && NonNegative(ToValues(utxo), t) ==> NonNegative(r, t)
    ensures forall a :: a !in txAssets ==> IsPlaced(r, a, Quantities(ToValues(utxo), a))
  {
    var leftovers := GetLeftoverAssets(utxo, txAssets);
    r := DistributeAll(leftovers, bundles, txAssets);
    forall t: Token | !Untouched(t, txAssets)
      ensures Total(r, t) == Total(ToValues(utxo), t)
      ensures NonNegative(ToValues(utxo), t) ==> NonNegative(r, t)
    {
      assert t == Asset(t.id);
    }
  }
}
