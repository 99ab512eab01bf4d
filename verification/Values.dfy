/**
  Lovelace and native-asset quantities: the `Value`s held by transaction outputs, and their sums.

  A `Token` names either Lovelace or one native asset, so that every conservation law is stated once
  for both.  JavaScript maps iterate in insertion order; here a token map is a Dafny `map`, and each
  loop over its entries visits them in an arbitrary order.
 */
module Values {
  import opened Seqs
  import opened TxIns
  import opened Wrappers

  datatype AssetId = AssetId(hex: string)
  type TokenMap = map<AssetId, int>
  datatype Value = Value(coins: int, assets: Option<TokenMap>)
  datatype Token = Lovelace | Asset(id: AssetId)

  datatype Utxo = Utxo(txIn: TxIn, value: Value)

  function Entries(v: Value): TokenMap {
    match v.assets
    case None => map[]
    case Some(m) => m
  }

  function Quantity(m: TokenMap, a: AssetId): int {
    if a in m then m[a] else 0
  }

  /** How much of `t` one value holds; an absent asset counts as zero. */
  function Amount(v: Value, t: Token): int {
    match t
    case Lovelace => v.coins
    case Asset(a) => Quantity(Entries(v), a)
  }

  /** How much of `t` a list of values holds together. */
  function Total(vs: seq<Value>, t: Token): int {
    if vs == [] then 0 else Total(vs[..|vs| - 1], t) + Amount(vs[|vs| - 1], t)
  }

  function ToValues(utxo: seq<Utxo>): (vs: seq<Value>)
    ensures |vs| == |utxo|
    ensures forall i :: 0 <= i < |utxo| ==> vs[i] == utxo[i].value
  {
    seq(|utxo|, i requires 0 <= i < |utxo| => utxo[i].value)
  }

  predicate NonNegative(vs: seq<Value>, t: Token) {
    forall i :: 0 <= i < |vs| ==> Amount(vs[i], t) >= 0
  }

  predicate PositiveEntries(vs: seq<Value>) {
    forall i, a :: 0 <= i < |vs| && a in Entries(vs[i]) ==> Entries(vs[i])[a] > 0
  }

  lemma TotalAppend(vs: seq<Value>, v: Value, t: Token)
    ensures Total(vs + [v], t) == Total(vs, t) + Amount(v, t)
  {
    assert (vs + [v])[..|vs|] == vs;
  }

  lemma SingleTotal(vs: seq<Value>, t: Token)
    requires |vs| == 1
    ensures Total(vs, t) == Amount(vs[0], t)
  {
    TotalAppend([], vs[0], t);
    assert [] + [vs[0]] == vs;
  }

  lemma {:induction false} TotalConcat(xs: seq<Value>, ys: seq<Value>, t: Token)
    ensures Total(xs + ys, t) == Total(xs, t) + Total(ys, t)
  {
    if ys == [] {
      assert xs + ys == xs;
    } else {
      var front := ys[..|ys| - 1];
      assert xs + ys == (xs + front) + [ys[|ys| - 1]];
      TotalConcat(xs, front, t);
      TotalAppend(xs + front, ys[|ys| - 1], t);
    }
  }

  /** Taking one value out of a list takes out exactly its amount. */
  lemma TotalRemove(vs: seq<Value>, i: nat, t: Token)
    requires i < |vs|
    ensures Total(vs, t) == Total(RemoveAt(vs, i), t) + Amount(vs[i], t)
  {
    assert vs == (vs[..i] + [vs[i]]) + vs[i + 1..];
    TotalConcat(vs[..i] + [vs[i]], vs[i + 1..], t);
    TotalAppend(vs[..i], vs[i], t);
    TotalConcat(vs[..i], vs[i + 1..], t);
  }

  lemma TotalUpdate(vs: seq<Value>, i: nat, v: Value, t: Token)
    requires i < |vs|
    ensures Total(vs[i := v], t) == Total(vs, t) - Amount(vs[i], t) + Amount(v, t)
  {
    TotalRemove(vs, i, t);
    TotalRemove(vs[i := v], i, t);
    assert vs[i := v][..i] == vs[..i];
    assert vs[i := v][i + 1..] == vs[i + 1..];
  }

  /** A sum does not depend on the order of its summands. */
  lemma {:induction false} TotalPermutation(xs: seq<Value>, ys: seq<Value>, t: Token)
    requires multiset(xs) == multiset(ys)
    ensures Total(xs, t) == Total(ys, t)
    decreases |xs|
  {
    if xs == [] {
      assert |multiset(ys)| == 0;
    } else {
      var j := PermutationStep(xs, ys);
      TotalPermutation(xs[..|xs| - 1], RemoveAt(ys, j), t);
      TotalRemove(ys, j, t);
    }
  }

  lemma {:induction false} TotalNonNegative(vs: seq<Value>, t: Token)
    requires NonNegative(vs, t)
    ensures Total(vs, t) >= 0
    ensures forall i :: 0 <= i < |vs| ==> Amount(vs[i], t) <= Total(vs, t)
  {
    if vs != [] {
      var front := vs[..|vs| - 1];
      assert NonNegative(front, t) by {
        forall i | 0 <= i < |front| ensures Amount(front[i], t) >= 0 { assert front[i] == vs[i]; }
      }
      TotalNonNegative(front, t);
      forall i | 0 <= i < |vs| ensures Amount(vs[i], t) <= Total(vs, t) {
        if i < |front| { assert front[i] == vs[i]; }
      }
    }
  }

  lemma {:induction false} TotalZero(vs: seq<Value>, t: Token)
    requires forall i :: 0 <= i < |vs| ==> Amount(vs[i], t) == 0
    ensures Total(vs, t) == 0
  {
    if vs != [] { TotalZero(vs[..|vs| - 1], t); }
  }

  // ---------------------------------------------------------------- coalescing

  function Keys(totals: seq<Option<TokenMap>>): set<AssetId> {
    set i, a | 0 <= i < |totals| && totals[i].Some? && a in totals[i].value :: a
  }

  function SumAt(totals: seq<Option<TokenMap>>, a: AssetId): int {
    if totals == [] then 0
    else
      var last := totals[|totals| - 1];
      SumAt(totals[..|totals| - 1], a) + if last.Some? then Quantity(last.value, a) else 0
  }

  /** The map with every key of `totals` and the sum of its quantities. */
  function Summed(totals: seq<Option<TokenMap>>): (m: TokenMap)
    ensures m.Keys == Keys(totals)
  {
    map a | a in Keys(totals) :: SumAt(totals, a)
  }

  lemma SummedSnoc(totals: seq<Option<TokenMap>>, n: nat)
    requires n < |totals|
    ensures Keys(totals[..n + 1]) == Keys(totals[..n]) + (if totals[n].Some? then totals[n].value.Keys else {})
    ensures forall a :: SumAt(totals[..n + 1], a)
                     == SumAt(totals[..n], a) + if totals[n].Some? then Quantity(totals[n].value, a) else 0
  {
    var more, less := totals[..n + 1], totals[..n];
    assert more[..|more| - 1] == less && more[|more| - 1] == totals[n];
    assert forall i :: 0 <= i < n ==> less[i] == more[i];
    forall a | a in Keys(more) ensures a in Keys(less) || (totals[n].Some? && a in totals[n].value) {
      var i :| 0 <= i < |more| && more[i].Some? && a in more[i].value;
      if i < n { assert less[i].Some? && a in less[i].value; }
    }
  }

  lemma {:induction false} SumAtAbsent(totals: seq<Option<TokenMap>>, a: AssetId)
    requires a !in Keys(totals)
    ensures SumAt(totals, a) == 0
  {
    if totals != [] {
      var n := |totals| - 1;
      assert totals[..n + 1] == totals;
      SummedSnoc(totals, n);
      SumAtAbsent(totals[..n], a);
    }
  }

  /** The entries of `m` on top of those of `before`. */
  function Plus(before: TokenMap, m: TokenMap): TokenMap {
    map a | a in before.Keys + m.Keys :: Quantity(before, a) + Quantity(m, a)
  }

  /** The inner loop of coalesceTokenMaps. */
  method AddEntries(before: TokenMap, m: TokenMap) returns (result: TokenMap)
    ensures result == Plus(before, m)
  {
    result := before;
    var todo := m.Keys;
    while todo != {}
      invariant todo <= m.Keys
      invariant result.Keys == before.Keys + (m.Keys - todo)
      invariant forall a :: a in result ==>
        result[a] == Quantity(before, a) + if a in todo then 0 else Quantity(m, a)
    {
      var a :| a in todo;
      result := result[a := Quantity(result, a) + m[a]];
      todo := todo - {a};
    }
  }

  lemma SummedQuantity(totals: seq<Option<TokenMap>>)
    ensures forall a :: SumAt(totals, a) == Quantity(Summed(totals), a)
  {
    forall a
      ensures SumAt(totals, a) == Quantity(Summed(totals), a)
    {
      if a !in Keys(totals) { SumAtAbsent(totals, a); }
    }
  }

  lemma PlusIsSummed(totals: seq<Option<TokenMap>>, n: nat)
    requires n < |totals|
    ensures Summed(totals[..n + 1]) ==
      if totals[n].Some? then Plus(Summed(totals[..n]), totals[n].value) else Summed(totals[..n])
  {
    SummedSnoc(totals, n);
    SummedQuantity(totals[..n]);
  }

  /** coalesceTokenMaps: adds the maps entry by entry; nothing at all gives no map. */
  method CoalesceTokenMaps(totals: seq<Option<TokenMap>>) returns (r: Option<TokenMap>)
    ensures r == if Keys(totals) == {} then None else Some(Summed(totals))
  {
    var result: TokenMap := map[];
    for n := 0 to |totals|
      invariant result == Summed(totals[..n])
    {
      PlusIsSummed(totals, n);
      if totals[n].Some? { result := AddEntries(result, totals[n].value); }
    }
    assert totals[..|totals|] == totals;
    assert result == map[] <==> result.Keys == {};
    if |result| == 0 { return None; }
    return Some(result);
  }

  function AssetsOf(vs: seq<Value>): (r: seq<Option<TokenMap>>)
    ensures |r| == |vs|
    ensures forall i :: 0 <= i < |vs| ==> r[i] == vs[i].assets
  {
    seq(|vs|, i requires 0 <= i < |vs| => vs[i].assets)
  }

  /** The single value holding everything in `vs`. */
  function Coalesced(vs: seq<Value>): Value {
    var ms := AssetsOf(vs);
    Value(Total(vs, Lovelace), if Keys(ms) == {} then None else Some(Summed(ms)))
  }

  lemma {:induction false} SumAtIsTotal(vs: seq<Value>, a: AssetId)
    ensures SumAt(AssetsOf(vs), a) == Total(vs, Asset(a))
  {
    if vs != [] {
      var n := |vs| - 1;
      assert AssetsOf(vs)[..n] == AssetsOf(vs[..n]);
      SumAtIsTotal(vs[..n], a);
    }
  }

  /** Coalescing neither creates nor loses any quantity of any token. */
  lemma CoalescedConserves(vs: seq<Value>, t: Token)
    ensures Amount(Coalesced(vs), t) == Total(vs, t)
  {
    if t.Asset? {
      SumAtIsTotal(vs, t.id);
      if t.id !in Keys(AssetsOf(vs)) { SumAtAbsent(AssetsOf(vs), t.id); }
    }
  }

  /** coalesceValueQuantities */
  method CoalesceValueQuantities(vs: seq<Value>) returns (r: Value)
    ensures r == Coalesced(vs)
  {
    var assets := CoalesceTokenMaps(AssetsOf(vs));
    var coins := 0;
    for n := 0 to |vs|
      invariant coins == Total(vs[..n], Lovelace)
    {
      assert vs[..n + 1] == vs[..n] + [vs[n]];
      TotalAppend(vs[..n], vs[n], Lovelace);
      coins := coins + vs[n].coins;
    }
    assert vs[..|vs|] == vs;
    r := Value(coins, assets);
  }
}
