/**
  The third stage of change computation: bundles are merged, smallest first, until every one of them
  carries the minimum coin quantity of an output.
 */
module MinCoin {
  import opened Seqs
  import opened Sorting
  import opened Values
  import opened Wrappers

  predicate Satisfies(v: Value, minCoin: Value -> int) {
    v.coins >= minCoin(v)
  }

  predicate MoreCoins(v: Value, w: Value) {
    v.coins >= w.coins
  }

  // ---------------------------------------------------------------- entries that are not positive

  function Stripped(v: Value): (r: Value)
    ensures forall t :: Amount(v, t) >= 0 ==> Amount(r, t) == Amount(v, t)
    ensures forall t :: Amount(v, t) >= 0 ==> Amount(r, t) >= 0
  {
    match v.assets
    case None => v
    case Some(m) => Value(v.coins, Some(map a | a in m && m[a] > 0 :: m[a]))
  }

  function StripAll(vs: seq<Value>): (r: seq<Value>)
    ensures |r| == |vs|
    ensures forall i :: 0 <= i < |vs| ==> r[i] == Stripped(vs[i])
  {
    seq(|vs|, i requires 0 <= i < |vs| => Stripped(vs[i]))
  }

  lemma {:induction false} StripConserves(vs: seq<Value>, t: Token)
    requires NonNegative(vs, t)
    ensures Total(StripAll(vs), t) == Total(vs, t) && NonNegative(StripAll(vs), t)
  {
    if vs != [] {
      var n := |vs| - 1;
      assert StripAll(vs)[..n] == StripAll(vs[..n]);
      assert forall i :: 0 <= i < n ==> vs[..n][i] == vs[i];
      StripConserves(vs[..n], t);
    }
  }

  // ---------------------------------------------------------------- what merging keeps

  function KeySet(vs: seq<Value>): set<AssetId> {
    set v, a | v in vs && a in Entries(v) :: a
  }

  lemma KeySetIsKeys(vs: seq<Value>)
    ensures KeySet(vs) == Keys(AssetsOf(vs))
  {
    var ms := AssetsOf(vs);
    forall a | a in KeySet(vs) ensures a in Keys(ms) {
      var v :| v in vs && a in Entries(v);
      var i :| 0 <= i < |vs| && vs[i] == v;
      assert ms[i].Some? && a in ms[i].value;
    }
    forall a | a in Keys(ms) ensures a in KeySet(vs) {
      var i :| 0 <= i < |ms| && ms[i].Some? && a in ms[i].value;
      assert vs[i] in vs && a in Entries(vs[i]);
    }
  }

  /** `ys` holds what `xs` holds: the same total of every token, and the same assets. */
  ghost predicate SameHoldings(xs: seq<Value>, ys: seq<Value>) {
    KeySet(xs) == KeySet(ys) && forall t :: Total(xs, t) == Total(ys, t)
  }

  lemma CoalescedDetermined(xs: seq<Value>, ys: seq<Value>)
    requires SameHoldings(xs, ys)
    ensures Coalesced(xs) == Coalesced(ys)
  {
    KeySetIsKeys(xs);
    KeySetIsKeys(ys);
    var mx, my := Summed(AssetsOf(xs)), Summed(AssetsOf(ys));
    forall a | a in mx ensures a in my && mx[a] == my[a] {
      SumAtIsTotal(xs, a);
      SumAtIsTotal(ys, a);
    }
    assert mx == my;
  }

  lemma PermutationHoldings(xs: seq<Value>, ys: seq<Value>)
    requires multiset(xs) == multiset(ys)
    ensures SameHoldings(xs, ys)
    ensures forall t :: NonNegative(xs, t) ==> NonNegative(ys, t)
    ensures PositiveEntries(xs) ==> PositiveEntries(ys)
  {
    forall v ensures v in xs <==> v in ys {
      assert v in multiset(xs) <==> v in multiset(ys);
    }
    forall t ensures Total(xs, t) == Total(ys, t) { TotalPermutation(xs, ys, t); }
    forall i | 0 <= i < |ys| ensures exists j :: 0 <= j < |xs| && xs[j] == ys[i] { assert ys[i] in xs; }
  }

  lemma CoalescedPair(x: Value, y: Value)
    ensures Entries(Coalesced([x, y])).Keys == Entries(x).Keys + Entries(y).Keys
    ensures forall t :: Amount(Coalesced([x, y]), t) == Amount(x, t) + Amount(y, t)
  {
    var vs := [x, y];
    KeySetIsKeys(vs);
    assert KeySet(vs) == Entries(x).Keys + Entries(y).Keys by {
      assert x in vs && y in vs;
      assert forall v :: v in vs ==> v == x || v == y;
    }
    forall t ensures Amount(Coalesced(vs), t) == Amount(x, t) + Amount(y, t) {
      CoalescedConserves(vs, t);
      TotalAppend([x], y, t);
      TotalAppend([], x, t);
      assert [] + [x] == [x] && [x] + [y] == vs;
    }
  }

  lemma MergedMembers(vs: seq<Value>, i: nat, rest: seq<Value>, merged: Value)
    requires |vs| >= 2 && i < |vs| && rest == RemoveAt(vs, i)
    ensures forall v :: v in vs ==> v == vs[i] || v == rest[|rest| - 1] || v in rest[..|rest| - 1] + [merged]
    ensures forall v :: v in rest[..|rest| - 1] + [merged] ==> v == merged || v in vs
    ensures rest[|rest| - 1] in vs
  {
    var n := |rest| - 1;
    assert rest == rest[..n] + [rest[n]];
    assert vs == vs[..i] + [vs[i]] + vs[i + 1..];
    assert forall v :: v in rest ==> v in vs;
    forall v | v in vs ensures v == vs[i] || v == rest[n] || v in rest[..n] + [merged] {
      assert v == vs[i] || v in rest;
    }
    assert rest[n] in rest;
  }

  /** Replacing the values at `i` and at the end of the rest by their sum keeps the holdings. */
  lemma MergedHoldings(vs: seq<Value>, i: nat, rest: seq<Value>, merged: Value)
    requires |vs| >= 2 && i < |vs|
    requires rest == RemoveAt(vs, i)
    requires merged == Coalesced([vs[i], rest[|rest| - 1]])
    ensures SameHoldings(vs, rest[..|rest| - 1] + [merged])
    ensures forall t :: NonNegative(vs, t) ==> NonNegative(rest[..|rest| - 1] + [merged], t)
    ensures PositiveEntries(vs) ==> PositiveEntries(rest[..|rest| - 1] + [merged])
  {
    var n := |rest| - 1;
    var out := rest[..n] + [merged];
    CoalescedPair(vs[i], rest[n]);
    forall t ensures Total(vs, t) == Total(out, t) {
      TotalRemove(vs, i, t);
      TotalAppend(rest[..n], merged, t);
    }
    MergedMembers(vs, i, rest, merged);
    forall a | a in KeySet(vs) ensures a in KeySet(out) {
      var v :| v in vs && a in Entries(v);
      assert merged in out;
    }
    forall a | a in KeySet(out) ensures a in KeySet(vs) {
      var v :| v in out && a in Entries(v);
      assert vs[i] in vs && rest[n] in vs;
    }
    forall j | 0 <= j < |out| ensures out[j] == merged || out[j] in vs { assert out[j] in out; }
    if PositiveEntries(vs) {
      assert vs[i] in vs && rest[n] in vs;
      forall a | a in Entries(merged) ensures Entries(merged)[a] > 0 {
        assert Amount(merged, Asset(a)) == Amount(vs[i], Asset(a)) + Amount(rest[n], Asset(a));
      }
    }
  }

  // ---------------------------------------------------------------- groups

  ghost predicate HoldsTotal(v: Value, group: seq<Value>) {
    forall t :: Amount(v, t) == Total(group, t)
  }

  /** All values of some groups. */
  ghost function Members(groups: seq<seq<Value>>): multiset<Value> {
    if groups == [] then multiset{} else Members(groups[..|groups| - 1]) + multiset(groups[|groups| - 1])
  }

  /** Part of the group is a value short of its minimum. */
  ghost predicate HasShortPart(group: seq<Value>, x: Value, g: seq<Value>, h: seq<Value>, minCoin: Value -> int) {
    && g != [] && h != [] && multiset(group) == multiset(g) + multiset(h)
    && HoldsTotal(x, g) && !Satisfies(x, minCoin)
  }

  /** Several values are in one group only because some of them together were short of the minimum. */
  ghost predicate IsForced(group: seq<Value>, minCoin: Value -> int) {
    |group| >= 2 ==> exists x, g, h :: HasShortPart(group, x, g, h, minCoin)
  }

  ghost predicate IsGroupOf(group: seq<Value>, v: Value, minCoin: Value -> int) {
    group != [] && HoldsTotal(v, group) && IsForced(group, minCoin)
  }

  /** The values in `start` fall into nonempty groups, and each merged value is the total of its group. */
  ghost predicate AreGroups(groups: seq<seq<Value>>, start: multiset<Value>, merged: seq<Value>,
                            minCoin: Value -> int)
  {
    && |groups| == |merged| && Members(groups) == start
    && forall k :: 0 <= k < |groups| ==> IsGroupOf(groups[k], merged[k], minCoin)
  }

  /** The merged values are the totals of groups of the starting ones. */
  ghost predicate IsGrouped(start: seq<Value>, merged: seq<Value>, minCoin: Value -> int) {
    exists groups :: AreGroups(groups, multiset(start), merged, minCoin)
  }

  lemma MembersAppend(groups: seq<seq<Value>>, g: seq<Value>)
    ensures Members(groups + [g]) == Members(groups) + multiset(g)
  {
    assert (groups + [g])[..|groups|] == groups;
  }

  lemma {:induction false} MembersRemove(groups: seq<seq<Value>>, i: nat)
    requires i < |groups|
    ensures Members(groups) == Members(RemoveAt(groups, i)) + multiset(groups[i])
  {
    var n := |groups| - 1;
    if i == n {
      assert RemoveAt(groups, i) == groups[..n];
    } else {
      var front := groups[..n];
      assert front[i] == groups[i];
      assert RemoveAt(groups, i) == RemoveAt(front, i) + [groups[n]];
      MembersRemove(front, i);
      MembersAppend(RemoveAt(front, i), groups[n]);
    }
  }

  lemma AppendGroup(groups: seq<seq<Value>>, start: multiset<Value>, merged: seq<Value>, minCoin: Value -> int,
                    g: seq<Value>, v: Value)
    requires AreGroups(groups, start, merged, minCoin) && IsGroupOf(g, v, minCoin)
    ensures AreGroups(groups + [g], start + multiset(g), merged + [v], minCoin)
  {
    MembersAppend(groups, g);
  }

  lemma TakenAway(rest: multiset<Value>, part: multiset<Value>, all: multiset<Value>)
    requires all == rest + part
    ensures rest == all - part && all == (all - part) + part
  {
  }

  lemma RemoveGroup(groups: seq<seq<Value>>, start: multiset<Value>, merged: seq<Value>, minCoin: Value -> int, i: nat)
    requires AreGroups(groups, start, merged, minCoin) && i < |groups|
    ensures AreGroups(RemoveAt(groups, i), start - multiset(groups[i]), RemoveAt(merged, i), minCoin)
    ensures start == (start - multiset(groups[i])) + multiset(groups[i])
  {
    var rest, others := RemoveAt(groups, i), RemoveAt(merged, i);
    MembersRemove(groups, i);
    TakenAway(Members(rest), multiset(groups[i]), start);
    forall k | 0 <= k < |rest| ensures IsGroupOf(rest[k], others[k], minCoin) {
      var j := if k < i then k else k + 1;
      assert rest[k] == groups[j] && others[k] == merged[j];
    }
  }

  lemma {:induction false} EachItsOwnGroup(values: seq<Value>, minCoin: Value -> int)
    returns (groups: seq<seq<Value>>)
    ensures AreGroups(groups, multiset(values), values, minCoin)
  {
    groups := [];
    if values != [] {
      var n := |values| - 1;
      groups := EachItsOwnGroup(values[..n], minCoin);
      assert HoldsTotal(values[n], [values[n]]);
      AppendGroup(groups, multiset(values[..n]), values[..n], minCoin, [values[n]], values[n]);
      groups := groups + [[values[n]]];
      assert values == values[..n] + [values[n]];
    }
  }

  /** The order of the merged values does not matter. */
  lemma {:induction false} PermuteGroups(groups: seq<seq<Value>>, start: multiset<Value>, merged: seq<Value>,
                                         minCoin: Value -> int, other: seq<Value>)
    returns (r: seq<seq<Value>>)
    requires AreGroups(groups, start, merged, minCoin) && multiset(merged) == multiset(other)
    ensures AreGroups(r, start, other, minCoin)
    decreases |other|
  {
    if other == [] {
      assert |multiset(merged)| == 0;
      r := groups;
    } else {
      var n := |other| - 1;
      var j := PermutationStep(other, merged);
      RemoveGroup(groups, start, merged, minCoin, j);
      r := PermuteGroups(RemoveAt(groups, j), start - multiset(groups[j]), RemoveAt(merged, j), minCoin, other[..n]);
      AppendGroup(r, start - multiset(groups[j]), other[..n], minCoin, groups[j], other[n]);
      r := r + [groups[j]];
      assert other == other[..n] + [other[n]];
    }
  }

  lemma TotalOfBoth(x: Value, g: seq<Value>, y: Value, h: seq<Value>, sum: Value)
    requires HoldsTotal(x, g) && HoldsTotal(y, h) && forall t :: Amount(sum, t) == Amount(x, t) + Amount(y, t)
    ensures HoldsTotal(sum, g + h)
  {
    forall t ensures Amount(sum, t) == Total(g + h, t) { TotalConcat(g, h, t); }
  }

  lemma LastRemoved<T>(s: seq<T>)
    requires s != []
    ensures RemoveAt(s, |s| - 1) == s[..|s| - 1]
  {
  }

  /** Merging a value that is short with another merges their groups. */
  lemma MergeGroups(groups: seq<seq<Value>>, start: multiset<Value>, values: seq<Value>, minCoin: Value -> int, i: nat,
                    rest: seq<Value>, merged: Value)
    returns (r: seq<seq<Value>>)
    requires AreGroups(groups, start, values, minCoin) && |values| >= 2 && i < |values| && rest == RemoveAt(values, i)
    requires merged == Coalesced([values[i], rest[|rest| - 1]]) && !Satisfies(values[i], minCoin)
    ensures AreGroups(r, start, rest[..|rest| - 1] + [merged], minCoin)
  {
    var n := |rest| - 1;
    var others := RemoveAt(groups, i);
    var g, h := groups[i], others[n];
    var less := start - multiset(g);
    RemoveGroup(groups, start, values, minCoin, i);
    RemoveGroup(others, less, rest, minCoin, n);
    LastRemoved(rest);
    LastRemoved(others);
    CoalescedPair(values[i], rest[n]);
    TotalOfBoth(values[i], g, rest[n], h, merged);
    assert HasShortPart(g + h, values[i], g, h, minCoin);
    AppendGroup(others[..n], less - multiset(h), rest[..n], minCoin, g + h, merged);
    r := others[..n] + [g + h];
    assert less - multiset(h) + multiset(g + h) == start;
  }

  // ---------------------------------------------------------------- the stage

  lemma MergedPair(values: seq<Value>, index: nat, rest: seq<Value>, merged: Value)
    requires |values| == 2 && index < 2 && rest == RemoveAt(values, index)
    requires merged == Coalesced([values[index], rest[0]])
    ensures Sort(rest[..0] + [merged], MoreCoins) == [Coalesced(values)]
  {
    var pair := [values[index], rest[0]];
    assert values == [values[0], values[1]];
    assert multiset(pair) == multiset(values);
    PermutationHoldings(pair, values);
    CoalescedDetermined(pair, values);
    assert rest[..0] + [merged] == [merged] && [merged][..0] == [];
    assert Sort([merged], MoreCoins) == Insert([], merged, MoreCoins) == [] + [merged];
  }

  lemma GroupedPermutation(start: seq<Value>, merged: seq<Value>, minCoin: Value -> int, other: seq<Value>)
    requires IsGrouped(start, merged, minCoin) && multiset(merged) == multiset(other)
    ensures IsGrouped(start, other, minCoin)
  {
    var groups :| AreGroups(groups, multiset(start), merged, minCoin);
    var more := PermuteGroups(groups, multiset(start), merged, minCoin, other);
  }

  lemma GroupedMerge(start: seq<Value>, values: seq<Value>, minCoin: Value -> int, i: nat, rest: seq<Value>,
                     merged: Value)
    requires IsGrouped(start, values, minCoin) && |values| >= 2 && i < |values| && rest == RemoveAt(values, i)
    requires merged == Coalesced([values[i], rest[|rest| - 1]]) && !Satisfies(values[i], minCoin)
    ensures IsGrouped(start, rest[..|rest| - 1] + [merged], minCoin)
  {
    var groups :| AreGroups(groups, multiset(start), values, minCoin);
    var more := MergeGroups(groups, multiset(start), values, minCoin, i, rest, merged);
  }

  /** No other value than `i` has fewer coins than `j`. */
  predicate IsSmallestOther(values: seq<Value>, i: nat, j: nat)
    requires i < |values|
  {
    j < |values| && j != i && forall k :: 0 <= k < |values| && k != i ==> values[j].coins <= values[k].coins
  }

  /** Value `i` and one with the fewest coins among the others are replaced by their sum. */
  ghost predicate MergesSmallest(values: seq<Value>, i: nat, r: seq<Value>)
    requires i < |values|
  {
    exists j: nat :: IsSmallestOther(values, i, j)
      && multiset(r) + multiset{values[i]} + multiset{values[j]}
         == multiset(values) + multiset{Coalesced([values[i], values[j]])}
  }

  lemma Replaced(front: multiset<Value>, rest: multiset<Value>, all: multiset<Value>, x: Value, y: Value, sum: Value)
    requires all == rest + multiset{x} && y in rest && front == rest - multiset{y}
    ensures (front + multiset{sum}) + multiset{x} + multiset{y} == all + multiset{sum}
  {
  }

  lemma LastIsSmallest(values: seq<Value>, i: nat, rest: seq<Value>) returns (j: nat)
    requires |values| >= 2 && i < |values| && rest == RemoveAt(values, i) && Sorted(values, MoreCoins)
    ensures IsSmallestOther(values, i, j) && values[j] == rest[|rest| - 1]
  {
    var n := |values| - 1;
    j := if i == n then n - 1 else n;
    forall k | 0 <= k < |values| && k != i ensures values[j].coins <= values[k].coins {
      if k < j { assert MoreCoins(values[k], values[j]); }
    }
  }

  lemma MergedIsSmallest(values: seq<Value>, i: nat, rest: seq<Value>, merged: Value, r: seq<Value>)
    requires |values| >= 2 && i < |values| && rest == RemoveAt(values, i) && Sorted(values, MoreCoins)
    requires merged == Coalesced([values[i], rest[|rest| - 1]])
    requires multiset(r) == multiset(rest[..|rest| - 1] + [merged])
    ensures MergesSmallest(values, i, r)
  {
    var front, y := rest[..|rest| - 1], rest[|rest| - 1];
    var j := LastIsSmallest(values, i, rest);
    RemoveAtMultiset(values, i);
    LastMultiset(rest);
    Replaced(multiset(front), multiset(rest), multiset(values), values[i], y, merged);
    assert multiset(front + [merged]) == multiset(front) + multiset{merged};
  }

  /** mergeWithSmallestBundle */
  method MergeWithSmallestBundle(values: seq<Value>, index: nat) returns (r: seq<Value>)
    requires index < |values|
    ensures |values| == 1 ==> r == values
    ensures |values| >= 2 ==> |r| == |values| - 1
    ensures |values| == 2 ==> r == [Coalesced(values)]
    ensures |values| >= 2 ==> Sorted(r, MoreCoins)
    ensures SameHoldings(values, r)
    ensures forall t :: NonNegative(values, t) ==> NonNegative(r, t)
    ensures PositiveEntries(values) ==> PositiveEntries(r)
    ensures |values| >= 2 && Sorted(values, MoreCoins) ==> MergesSmallest(values, index, r)
    ensures forall start, minCoin :: IsGrouped(start, values, minCoin) && !Satisfies(values[index], minCoin) ==>
      IsGrouped(start, r, minCoin)
  {
    var toBeMerged := values[index];
    var rest := RemoveAt(values, index);
    if |rest| == 0 {
      assert values == [toBeMerged];
      return [toBeMerged];
    }
    var last := rest[|rest| - 1];
    var merged := CoalesceValueQuantities([toBeMerged, last]);
    var result := rest[..|rest| - 1] + [merged];
    MergedHoldings(values, index, rest, merged);
    r := Sort(result, MoreCoins);
    SortIsSorted(result, MoreCoins);
    SortIsPermutation(result, MoreCoins);
    PermutationHoldings(result, r);
    if Sorted(values, MoreCoins) { MergedIsSmallest(values, index, rest, merged, r); }
    forall start, minCoin | IsGrouped(start, values, minCoin) && !Satisfies(values[index], minCoin)
      ensures IsGrouped(start, r, minCoin)
    {
      GroupedMerge(start, values, minCoin, index, rest, merged);
      GroupedPermutation(start, result, minCoin, r);
    }
    if |values| == 2 { MergedPair(values, index, rest, merged); }
  }

  predicate HoldsSomething(v: Value) {
    v.coins > 0 || |Entries(v)| > 0
  }

  function DropEmpty(vs: seq<Value>): seq<Value> {
    Filter(vs, HoldsSomething)
  }

  lemma EmptyHoldsNothing(v: Value, t: Token)
    requires !HoldsSomething(v) && Amount(v, t) >= 0
    ensures Amount(v, t) == 0
  {
    assert Entries(v) == map[];
  }

  lemma DropEmptyKeeps(vs: seq<Value>)
    ensures forall v :: v in DropEmpty(vs) <==> v in vs && HoldsSomething(v)
    ensures |DropEmpty(vs)| <= |vs|
    ensures PositiveEntries(vs) ==> PositiveEntries(DropEmpty(vs))
    ensures forall t :: NonNegative(vs, t) ==> NonNegative(DropEmpty(vs), t)
  {
    FilterMembers(vs, HoldsSomething);
    FilterShortens(vs, HoldsSomething);
    var kept := DropEmpty(vs);
    forall i | 0 <= i < |kept| ensures exists j :: 0 <= j < |vs| && vs[j] == kept[i] {
      assert kept[i] in vs;
    }
  }

  lemma DropEmptySnoc(vs: seq<Value>)
    requires vs != []
    ensures var n := |vs| - 1;
      DropEmpty(vs) == if HoldsSomething(vs[n]) then DropEmpty(vs[..n]) + [vs[n]] else DropEmpty(vs[..n])
  {
    var n := |vs| - 1;
    FilterSnoc(vs[..n], vs[n], HoldsSomething);
    assert vs == vs[..n] + [vs[n]];
    assert DropEmpty(vs[..n]) + [] == DropEmpty(vs[..n]);
  }

  lemma {:induction false} DropEmptyConserves(vs: seq<Value>, t: Token)
    requires NonNegative(vs, t)
    ensures Total(DropEmpty(vs), t) == Total(vs, t)
  {
    if vs != [] {
      var n := |vs| - 1;
      DropEmptyConserves(vs[..n], t);
      DropEmptySnoc(vs);
      if HoldsSomething(vs[n]) {
        TotalAppend(DropEmpty(vs[..n]), vs[n], t);
      } else {
        EmptyHoldsNothing(vs[n], t);
      }
    }
  }

  /** The value holds exactly what `bundles` hold of every token they hold no negative amount of. */
  ghost predicate HoldsAll(v: Value, bundles: seq<Value>) {
    PositiveEntries([v]) && forall t :: NonNegative(bundles, t) ==> Amount(v, t) == Total(bundles, t)
  }

  /** The one bundle that holds everything in `bundles`. */
  function Everything(bundles: seq<Value>): Value
    requires bundles != []
  {
    if |bundles| == 1 then Stripped(bundles[0]) else Coalesced(StripAll(bundles))
  }

  lemma SingleHoldsAll(single: seq<Value>, bundles: seq<Value>)
    requires |single| == 1 && PositiveEntries(single)
    requires forall t :: NonNegative(bundles, t) ==> Total(single, t) == Total(bundles, t)
    ensures HoldsAll(single[0], bundles)
  {
    assert single == [single[0]];
    forall t | NonNegative(bundles, t) ensures Amount(single[0], t) == Total(bundles, t) {
      assert single == [] + [single[0]];
      TotalAppend([], single[0], t);
    }
  }

  /** The scan of one pass: the last bundle that falls short of its minimum, if any. */
  method LastUnsatisfied(sorted: seq<Value>, minCoin: Value -> int) returns (k: int)
    ensures -1 <= k < |sorted|
    ensures k >= 0 ==> !Satisfies(sorted[k], minCoin)
    ensures forall i :: k < i < |sorted| ==> Satisfies(sorted[i], minCoin)
  {
    k := |sorted| - 1;
    while k >= 0 && Satisfies(sorted[k], minCoin)
      invariant -1 <= k < |sorted|
      invariant forall i :: k < i < |sorted| ==> Satisfies(sorted[i], minCoin)
    {
      k := k - 1;
    }
  }

  /** One step of merging: the last value that is short of its minimum is merged with the smallest other one. */
  ghost predicate IsShortStep(values: seq<Value>, r: seq<Value>, minCoin: Value -> int) {
    exists i :: 0 <= i < |values|
      && !Satisfies(values[i], minCoin) && (forall j :: i < j < |values| ==> Satisfies(values[j], minCoin))
      && MergesSmallest(values, i, r)
  }

  /** A run of merging steps from the sorted values, sorted all the way. */
  ghost predicate IsMergeRun(run: seq<seq<Value>>, start: seq<Value>, end: seq<Value>, minCoin: Value -> int) {
    && run != [] && run[0] == Sort(start, MoreCoins) && run[|run| - 1] == end
    && (forall k :: 0 <= k < |run| ==> Sorted(run[k], MoreCoins))
    && (forall k :: 0 < k < |run| ==> IsShortStep(run[k - 1], run[k], minCoin))
  }

  /** Where nothing is short of its minimum nothing is merged. */
  lemma NothingShort(run: seq<seq<Value>>, start: seq<Value>, end: seq<Value>, minCoin: Value -> int)
    requires IsMergeRun(run, start, end, minCoin)
    ensures (forall v :: v in start ==> Satisfies(v, minCoin)) ==> end == Sort(start, MoreCoins)
  {
    if |run| > 1 {
      var first := run[0];
      assert IsShortStep(run[0], run[1], minCoin);
      var i :| 0 <= i < |first| && !Satisfies(first[i], minCoin);
      SortMembers(start, MoreCoins);
      assert first[i] in start;
    }
  }

  /** Mid-loop: what merging has kept so far. */
  ghost predicate Merging(start: seq<Value>, run: seq<seq<Value>>, sorted: seq<Value>, minCoin: Value -> int) {
    && 1 <= |sorted| <= |start|
    && SameHoldings(start, sorted) && PositiveEntries(sorted)
    && (forall t :: NonNegative(start, t) ==> NonNegative(sorted, t))
    && IsGrouped(start, sorted, minCoin)
    && IsMergeRun(run, start, sorted, minCoin)
    && (|sorted| == 1 ==> sorted[0] == if |start| == 1 then start[0] else Coalesced(start))
  }

  lemma StartMerging(start: seq<Value>, sorted: seq<Value>, minCoin: Value -> int)
    requires start != [] && PositiveEntries(start) && sorted == Sort(start, MoreCoins)
    ensures Merging(start, [sorted], sorted, minCoin)
  {
    SortIsPermutation(start, MoreCoins);
    SortIsSorted(start, MoreCoins);
    PermutationHoldings(start, sorted);
    var groups := EachItsOwnGroup(start, minCoin);
    GroupedPermutation(start, start, minCoin, sorted);
    if |start| == 1 { assert sorted[0] in multiset(start); }
  }

  lemma RunSnoc(run: seq<seq<Value>>, start: seq<Value>, end: seq<Value>, minCoin: Value -> int, next: seq<Value>)
    requires IsMergeRun(run, start, end, minCoin) && Sorted(next, MoreCoins) && IsShortStep(end, next, minCoin)
    ensures IsMergeRun(run + [next], start, next, minCoin)
  {
  }

  /** One step of the loop. */
  method MergeShort(ghost start: seq<Value>, ghost run: seq<seq<Value>>, sorted: seq<Value>, minCoin: Value -> int,
                    i: nat)
    returns (next: seq<Value>)
    requires Merging(start, run, sorted, minCoin) && 1 < |sorted| && i < |sorted| && !Satisfies(sorted[i], minCoin)
    requires forall j :: i < j < |sorted| ==> Satisfies(sorted[j], minCoin)
    ensures |next| == |sorted| - 1 && Merging(start, run + [next], next, minCoin)
  {
    next := MergeWithSmallestBundle(sorted, i);
    CoalescedDetermined(start, sorted);
    assert Sorted(sorted, MoreCoins) by { assert sorted == run[|run| - 1]; }
    assert IsShortStep(sorted, next, minCoin);
    RunSnoc(run, start, sorted, minCoin, next);
  }

  /** The merging loop: stops with every bundle satisfied, or with one bundle that holds everything. */
  method MergeUntilSatisfied(start: seq<Value>, minCoin: Value -> int) returns (sorted: seq<Value>)
    requires start != [] && PositiveEntries(start)
    ensures exists run :: Merging(start, run, sorted, minCoin)
    ensures |sorted| > 1 ==> forall i :: 0 <= i < |sorted| ==> Satisfies(sorted[i], minCoin)
    ensures (forall v :: v in start ==> Satisfies(v, minCoin)) ==> sorted == Sort(start, MoreCoins)
  {
    sorted := Sort(start, MoreCoins);
    StartMerging(start, sorted, minCoin);
    ghost var run := [sorted];
    var allSatisfied := false;
    while |sorted| > 1 && !allSatisfied
      invariant Merging(start, run, sorted, minCoin)
      invariant allSatisfied ==> forall i :: 0 <= i < |sorted| ==> Satisfies(sorted[i], minCoin)
      decreases |sorted|, !allSatisfied
    {
      var i := LastUnsatisfied(sorted, minCoin);
      allSatisfied := i == -1;
      if i >= 0 {
        sorted := MergeShort(start, run, sorted, minCoin, i);
        run := run + [sorted];
      }
    }
    NothingShort(run, start, sorted, minCoin);
  }

  /** Each merged bundle holds the total of a group of stripped ones, and only empty ones are dropped. */
  ghost predicate IsMerge(bundles: seq<Value>, merged: seq<Value>, minCoin: Value -> int) {
    exists all :: IsGrouped(StripAll(bundles), all, minCoin) && merged == DropEmpty(all)
  }

  /**
    coalesceChangeBundlesForMinCoinRequirement: returned bundles hold what came in and each carries
    its minimum; nothing is returned only when even the bundle holding everything falls short.
   */
  method CoalesceForMinCoin(bundles: seq<Value>, minCoin: Value -> int) returns (r: Option<seq<Value>>)
    ensures r.None? ==> bundles != [] && !Satisfies(Everything(bundles), minCoin)
    ensures r.None? ==> HoldsAll(Everything(bundles), bundles)
    ensures r.Some? ==> forall v :: v in r.value ==> Satisfies(v, minCoin) && (v.coins > 0 || Entries(v) != map[])
    ensures r.Some? ==> PositiveEntries(r.value) && |r.value| <= |bundles|
    ensures r.Some? ==> forall t :: NonNegative(bundles, t) ==>
      NonNegative(r.value, t) && Total(r.value, t) == Total(bundles, t)
    ensures r.Some? ==> IsMerge(bundles, r.value, minCoin)
    ensures (forall v :: v in bundles ==> Satisfies(Stripped(v), minCoin)) ==>
      r == Some(DropEmpty(Sort(StripAll(bundles), MoreCoins)))
  {
    if |bundles| == 0 {
      ghost var groups := EachItsOwnGroup(bundles, minCoin);
      assert StripAll(bundles) == DropEmpty(bundles) == Sort(bundles, MoreCoins) == bundles;
      return Some(bundles);
    }
    var sorted := MergeUntilSatisfied(StripAll(bundles), minCoin);
    ghost var run :| Merging(StripAll(bundles), run, sorted, minCoin);
    forall t | NonNegative(bundles, t) ensures NonNegative(sorted, t) && Total(sorted, t) == Total(bundles, t) {
      StripConserves(bundles, t);
    }
    if !Satisfies(sorted[0], minCoin) {
      SingleHoldsAll(sorted, bundles);
      return None;
    }
    r := Some(DropEmpty(sorted));
    DropEmptyKeeps(sorted);
    forall t | NonNegative(bundles, t) ensures Total(r.value, t) == Total(bundles, t) {
      DropEmptyConserves(sorted, t);
    }
  }
}
