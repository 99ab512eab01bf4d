/**
  The first stage of change computation: the excess of every requested token is divided over one
  bundle per output, by truncating division, and whatever the division lost is added back.
 */
module RequestedChange {
  import opened Numbers
  import opened Seqs
  import opened Values
  import opened Wrappers

  /** Coin and token amounts a transaction gains or spends outside its inputs and outputs. */
  datatype Implicit = Implicit(input: nat, deposit: nat, tokensInput: TokenMap, tokensSpend: TokenMap)

  datatype AssetTotal = AssetTotal(selected: int, requested: int)

  datatype Failure = UtxoFullyDepleted | UtxoBalanceInsufficient | DivisionByZero

  // ---------------------------------------------------------------- mint and burn

  /** mintToImplicitTokens: minted tokens are an input, burned tokens are spent. */
  function MintToImplicitTokens(mint: TokenMap): (r: (TokenMap, TokenMap))
    ensures forall a :: Quantity(r.0, a) - Quantity(r.1, a) == Quantity(mint, a)
    ensures forall a :: Quantity(r.0, a) >= 0 && Quantity(r.1, a) >= 0
    ensures r.0.Keys !! r.1.Keys && r.0.Keys + r.1.Keys <= mint.Keys
  {
    (map a | a in mint && mint[a] > 0 :: mint[a], map a | a in mint && mint[a] < 0 :: -mint[a])
  }

  method AppendNew(ids: seq<AssetId>, more: set<AssetId>) returns (r: seq<AssetId>)
    requires Distinct(ids)
    ensures Distinct(r)
    ensures forall a :: a in r <==> a in ids || a in more
  {
    r := ids;
    var todo := more;
    while todo != {}
      invariant todo <= more && Distinct(r)
      invariant forall a :: a in r <==> a in ids || a in more - todo
    {
      var a :| a in todo;
      if a !in r { r := r + [a]; }
      todo := todo - {a};
    }
  }

  /** preProcessArgs: the assets of a transaction are those of its outputs and of its mint, each once. */
  method UniqueTxAssetIds(outputs: seq<Value>, mint: TokenMap) returns (ids: seq<AssetId>)
    ensures Distinct(ids)
    ensures forall a :: a in ids <==> a in mint || exists i :: 0 <= i < |outputs| && a in Entries(outputs[i])
  {
    ids := [];
    for i := 0 to |outputs|
      invariant Distinct(ids)
      invariant forall a :: a in ids <==> exists k :: 0 <= k < i && a in Entries(outputs[k])
    {
      ids := AppendNew(ids, Entries(outputs[i]).Keys);
    }
    ids := AppendNew(ids, mint.Keys);
  }

  // ---------------------------------------------------------------- the balance

  function Gained(imp: Implicit, t: Token): int {
    match t
    case Lovelace => imp.input
    case Asset(a) => Quantity(imp.tokensInput, a)
  }

  function Spent(imp: Implicit, fee: nat, t: Token): int {
    match t
    case Lovelace => fee + imp.deposit
    case Asset(a) => Quantity(imp.tokensSpend, a)
  }

  function Selected(utxo: seq<Utxo>, imp: Implicit, t: Token): int {
    Total(ToValues(utxo), t) + Gained(imp, t)
  }

  function Requested(outputs: seq<Value>, imp: Implicit, fee: nat, t: Token): int {
    Total(outputs, t) + Spent(imp, fee, t)
  }

  /** What must come back as change for the transaction to balance in `t`. */
  function Excess(utxo: seq<Utxo>, outputs: seq<Value>, imp: Implicit, fee: nat, t: Token): int {
    Selected(utxo, imp, t) - Requested(outputs, imp, fee, t)
  }

  /** The selection covers what is requested of `t`, and no amount requested is negative. */
  predicate Covered(utxo: seq<Utxo>, outputs: seq<Value>, imp: Implicit, fee: nat, t: Token) {
    && Excess(utxo, outputs, imp, fee, t) >= 0
    && NonNegative(outputs, t)
    && Spent(imp, fee, t) >= 0
  }

  // ---------------------------------------------------------------- shares

  function Abs(x: int): nat { if x < 0 then -x else x }

  /** BigInt division: toward zero. */
  function TruncDiv(x: int, y: int): int
    requires y != 0
  {
    var q := Abs(x) / Abs(y);
    if (x < 0) == (y < 0) then q else -q
  }

  lemma TruncDivFloor(x: int, y: int)
    requires x >= 0 && y > 0
    ensures 0 <= TruncDiv(x, y) && y * TruncDiv(x, y) <= x
  {
    var q := x / y;
    assert x == q * y + x % y;
    assert TruncDiv(x, y) == q;
    assert y * q == q * y;
  }

  /** Every bundle of `ys` is the truncated share of the matching entry of `xs`. */
  predicate SharesOf(xs: seq<Value>, ys: seq<Value>, t: Token, change: int, whole: int)
    requires whole != 0
  {
    |xs| == |ys| && forall i :: 0 <= i < |xs| ==> Amount(ys[i], t) == TruncDiv(change * Amount(xs[i], t), whole)
  }

  lemma MulNonNegative(x: int, y: int)
    requires x >= 0 && y >= 0
    ensures x * y >= 0
  {
  }

  lemma AddShare(whole: int, y1: int, y2: int, change: int, x1: int, x2: int)
    requires whole * y1 <= change * x1 && whole * y2 <= change * x2
    ensures whole * (y1 + y2) <= change * (x1 + x2)
  {
  }

  lemma ShareFits(whole: int, y: int, change: int, x: int)
    requires whole > 0 && change >= 0 && x <= whole && whole * y <= change * x
    ensures y <= change
  {
  }

  lemma ShareStep(whole: int, ys: int, y: int, change: int, xs: int, x: int)
    requires whole > 0 && change >= 0 && x >= 0 && y == TruncDiv(change * x, whole)
    requires whole * ys <= change * xs
    ensures y >= 0 && whole * (ys + y) <= change * (xs + x)
  {
    MulNonNegative(change, x);
    TruncDivFloor(change * x, whole);
    AddShare(whole, ys, y, change, xs, x);
  }

  lemma {:induction false} SharesBound(xs: seq<Value>, ys: seq<Value>, t: Token, change: int, whole: int)
    requires whole > 0 && change >= 0 && NonNegative(xs, t) && SharesOf(xs, ys, t, change, whole)
    ensures NonNegative(ys, t)
    ensures whole * Total(ys, t) <= change * Total(xs, t)
  {
    if xs != [] {
      var n := |xs| - 1;
      SharesBound(xs[..n], ys[..n], t, change, whole);
      ShareStep(whole, Total(ys[..n], t), Amount(ys[n], t), change, Total(xs[..n], t), Amount(xs[n], t));
      forall i | 0 <= i < n
        ensures Amount(ys[i], t) >= 0
      {
        assert Amount(ys[..n][i], t) >= 0;
      }
    }
  }

  /** Floor-division shares never hand out more than there is. */
  lemma SharesNeverOverAllocate(xs: seq<Value>, ys: seq<Value>, t: Token, change: int, whole: int)
    requires whole > 0 && change >= 0 && NonNegative(xs, t) && SharesOf(xs, ys, t, change, whole)
    requires Total(xs, t) <= whole
    ensures NonNegative(ys, t)
    ensures 0 <= Total(ys, t) <= change
  {
    SharesBound(xs, ys, t, change, whole);
    TotalNonNegative(ys, t);
    ShareFits(whole, Total(ys, t), change, Total(xs, t));
  }

  // ---------------------------------------------------------------- bundles

  function CoinShare(v: Value, requested: int, change: int): int {
    if requested > 0 then TruncDiv(change * v.coins, requested) else 0
  }

  function AssetShare(q: int, total: AssetTotal): int
    requires total.selected != 0
  {
    TruncDiv((total.selected - total.requested) * q, total.selected)
  }

  /** A share bundle has a coin share, and an asset share for exactly the assets of its output. */
  predicate IsShareBundle(v: Value, b: Value, requested: int, change: int, totals: map<AssetId, AssetTotal>) {
    && b.coins == CoinShare(v, requested, change)
    && b.assets.Some? == v.assets.Some?
    && Entries(b).Keys == Entries(v).Keys
    && forall a :: a in Entries(v) ==>
         && a in totals && totals[a].selected != 0
         && Entries(b)[a] == AssetShare(Entries(v)[a], totals[a])
  }

  ghost predicate AreShareBundles(outputs: seq<Value>, bundles: seq<Value>, requested: int, change: int,
                                  totals: map<AssetId, AssetTotal>)
  {
    && |bundles| == |outputs|
    && forall i :: 0 <= i < |outputs| ==> IsShareBundle(outputs[i], bundles[i], requested, change, totals)
  }

  predicate KeysWithin(vs: seq<Value>, ids: set<AssetId>) {
    forall i, a :: 0 <= i < |vs| && a in Entries(vs[i]) ==> a in ids
  }

  /** The shares of one output's assets, also added to what has been bundled so far. */
  method ShareAssets(amounts: TokenMap, totals: map<AssetId, AssetTotal>, bundled: TokenMap)
    returns (r: Result<(TokenMap, TokenMap), Failure>)
    requires amounts.Keys <= totals.Keys
    ensures r.Err? ==> r.error == DivisionByZero && exists a :: a in amounts && totals[a].selected == 0
    ensures r.Ok? ==>
      var (assets, bundled') := r.value;
      && assets.Keys == amounts.Keys
      && (forall a :: a in assets ==> totals[a].selected != 0 && assets[a] == AssetShare(amounts[a], totals[a]))
      && forall a :: Quantity(bundled', a) == Quantity(bundled, a) + Quantity(assets, a)
  {
    var assets: TokenMap := map[];
    var bundled' := bundled;
    var todo := amounts.Keys;
    while todo != {}
      invariant todo <= amounts.Keys && assets.Keys == amounts.Keys - todo
      invariant forall a :: a in assets ==>
        totals[a].selected != 0 && assets[a] == AssetShare(amounts[a], totals[a])
      invariant forall a :: Quantity(bundled', a) == Quantity(bundled, a) + Quantity(assets, a)
    {
      var a :| a in todo;
      if totals[a].selected == 0 { return Err(DivisionByZero); }
      var share := AssetShare(amounts[a], totals[a]);
      bundled' := bundled'[a := Quantity(bundled', a) + share];
      assets := assets[a := share];
      todo := todo - {a};
    }
    r := Ok((assets, bundled'));
  }

  /** The bundle of one output. */
  method ShareOutput(output: Value, requested: int, change: int, totals: map<AssetId, AssetTotal>, bundled: TokenMap)
    returns (r: Result<(Value, TokenMap), Failure>)
    requires Entries(output).Keys <= totals.Keys
    ensures r.Err? ==> r.error == DivisionByZero && exists a :: a in Entries(output) && totals[a].selected == 0
    ensures r.Ok? ==>
      && IsShareBundle(output, r.value.0, requested, change, totals)
      && forall a :: Quantity(r.value.1, a) == Quantity(bundled, a) + Amount(r.value.0, Asset(a))
  {
    var coins := CoinShare(output, requested, change);
    if output.assets.None? { return Ok((Value(coins, None), bundled)); }
    var shares := ShareAssets(output.assets.value, totals, bundled);
    if shares.Err? { return Err(shares.error); }
    r := Ok((Value(coins, Some(shares.value.0)), shares.value.1));
  }

  /** The running totals are those of the bundles. */
  ghost predicate Tracks(bundles: seq<Value>, assetsBundled: TokenMap, coinBundled: int) {
    coinBundled == Total(bundles, Lovelace) && forall a :: Quantity(assetsBundled, a) == Total(bundles, Asset(a))
  }

  lemma TracksAppend(bundles: seq<Value>, assets: TokenMap, coins: int, b: Value, assets': TokenMap)
    requires Tracks(bundles, assets, coins)
    requires forall a :: Quantity(assets', a) == Quantity(assets, a) + Amount(b, Asset(a))
    ensures Tracks(bundles + [b], assets', coins + b.coins)
  {
    forall t
      ensures Total(bundles + [b], t) == Total(bundles, t) + Amount(b, t)
    {
      TotalAppend(bundles, b, t);
    }
  }

  /** createBundlePerOutput, with the RangeError of a division by a zero total as a failure. */
  method CreateBundlePerOutput(outputs: seq<Value>, requested: int, change: int, totals: map<AssetId, AssetTotal>)
    returns (r: Result<(seq<Value>, TokenMap, int), Failure>)
    requires KeysWithin(outputs, totals.Keys)
    ensures r.Err? ==> r.error == DivisionByZero
    ensures r.Err? <==> exists i, a :: 0 <= i < |outputs| && a in Entries(outputs[i]) && totals[a].selected == 0
    ensures r.Ok? ==>
      && AreShareBundles(outputs, r.value.0, requested, change, totals)
      && Tracks(r.value.0, r.value.1, r.value.2)
  {
    var bundles: seq<Value> := [];
    var coinBundled := 0;
    var assetsBundled: TokenMap := map[];
    for i := 0 to |outputs|
      invariant |bundles| == i
      invariant forall k :: 0 <= k < i ==> IsShareBundle(outputs[k], bundles[k], requested, change, totals)
      invariant Tracks(bundles, assetsBundled, coinBundled)
    {
      var share := ShareOutput(outputs[i], requested, change, totals, assetsBundled);
      if share.Err? { return Err(share.error); }
      var bundle := share.value.0;
      TracksAppend(bundles, assetsBundled, coinBundled, bundle, share.value.1);
      bundles, assetsBundled, coinBundled := bundles + [bundle], share.value.1, coinBundled + bundle.coins;
    }
    r := Ok((bundles, assetsBundled, coinBundled));
  }

  lemma CoinSharesFit(outputs: seq<Value>, bundles: seq<Value>, requested: int, change: int,
                      totals: map<AssetId, AssetTotal>)
    requires AreShareBundles(outputs, bundles, requested, change, totals)
    requires change >= 0 && NonNegative(outputs, Lovelace) && Total(outputs, Lovelace) <= requested
    ensures NonNegative(bundles, Lovelace) && 0 <= Total(bundles, Lovelace) <= change
  {
    if requested > 0 {
      assert SharesOf(outputs, bundles, Lovelace, change, requested);
      SharesNeverOverAllocate(outputs, bundles, Lovelace, change, requested);
    } else {
      TotalZero(bundles, Lovelace);
    }
  }

  lemma ShareAmount(v: Value, b: Value, requested: int, change: int, totals: map<AssetId, AssetTotal>, a: AssetId)
    requires IsShareBundle(v, b, requested, change, totals)
    requires a in totals
    ensures totals[a].selected == 0 ==> Amount(b, Asset(a)) == 0
    ensures var total := totals[a];
      total.selected != 0 ==>
        Amount(b, Asset(a)) == TruncDiv((total.selected - total.requested) * Amount(v, Asset(a)), total.selected)
  {
  }

  lemma AssetShares(outputs: seq<Value>, bundles: seq<Value>, requested: int, change: int,
                    totals: map<AssetId, AssetTotal>, a: AssetId)
    requires AreShareBundles(outputs, bundles, requested, change, totals) && a in totals
    ensures totals[a].selected != 0 ==>
      SharesOf(outputs, bundles, Asset(a), totals[a].selected - totals[a].requested, totals[a].selected)
    ensures totals[a].selected == 0 ==> NonNegative(bundles, Asset(a)) && Total(bundles, Asset(a)) == 0
  {
    var t, total := Asset(a), totals[a];
    forall i | 0 <= i < |outputs|
      ensures total.selected == 0 ==> Amount(bundles[i], t) == 0
      ensures total.selected != 0 ==>
        Amount(bundles[i], t) == TruncDiv((total.selected - total.requested) * Amount(outputs[i], t), total.selected)
    {
      ShareAmount(outputs[i], bundles[i], requested, change, totals, a);
    }
    if total.selected == 0 { TotalZero(bundles, t); }
  }

  lemma AssetSharesFit(outputs: seq<Value>, bundles: seq<Value>, requested: int, change: int,
                       totals: map<AssetId, AssetTotal>, a: AssetId)
    requires AreShareBundles(outputs, bundles, requested, change, totals) && a in totals
    requires NonNegative(outputs, Asset(a)) && Total(outputs, Asset(a)) <= totals[a].requested <= totals[a].selected
    ensures NonNegative(bundles, Asset(a))
    ensures 0 <= Total(bundles, Asset(a)) <= totals[a].selected - totals[a].requested
  {
    var total := totals[a];
    TotalNonNegative(outputs, Asset(a));
    AssetShares(outputs, bundles, requested, change, totals, a);
    if total.selected > 0 {
      SharesNeverOverAllocate(outputs, bundles, Asset(a), total.selected - total.requested, total.selected);
    }
  }

  // ---------------------------------------------------------------- residues

  function MapSize(v: Value): nat { |Entries(v)| }

  /** minBy over the size of the token maps: the first smallest. */
  method SmallestBundle(bundles: seq<Value>) returns (k: nat)
    requires bundles != []
    ensures k < |bundles|
    ensures forall i :: 0 <= i < |bundles| ==> MapSize(bundles[k]) <= MapSize(bundles[i])
    ensures forall i :: 0 <= i < k ==> MapSize(bundles[k]) < MapSize(bundles[i])
  {
    k := 0;
    for n := 1 to |bundles|
      invariant k < n
      invariant forall i :: 0 <= i < n ==> MapSize(bundles[k]) <= MapSize(bundles[i])
      invariant forall i :: 0 <= i < k ==> MapSize(bundles[k]) < MapSize(bundles[i])
    {
      if MapSize(bundles[n]) < MapSize(bundles[k]) { k := n; }
    }
  }

  /** No coins change, and no entry is lost or lowered. */
  predicate Raises(before: seq<Value>, after: seq<Value>) {
    && |before| <= |after|
    && forall i :: 0 <= i < |before| ==>
         && after[i].coins == before[i].coins
         && forall a :: a in Entries(before[i]) ==>
              a in Entries(after[i]) && Entries(after[i])[a] >= Entries(before[i])[a]
  }

  lemma RaisesTransitive(x: seq<Value>, y: seq<Value>, z: seq<Value>)
    requires Raises(x, y) && Raises(y, z)
    ensures Raises(x, z)
  {
  }

  method FindHolder(bundles: seq<Value>, a: AssetId) returns (k: nat)
    ensures k <= |bundles|
    ensures forall i :: 0 <= i < k ==> a !in Entries(bundles[i])
    ensures k < |bundles| ==> a in Entries(bundles[k])
  {
    k := 0;
    while k < |bundles| && a !in Entries(bundles[k])
      invariant k <= |bundles|
      invariant forall i :: 0 <= i < k ==> a !in Entries(bundles[i])
    {
      k := k + 1;
    }
  }

  predicate IsFirstHolder(bundles: seq<Value>, a: AssetId, k: nat) {
    k < |bundles| && a in Entries(bundles[k]) && forall i :: 0 <= i < k ==> a !in Entries(bundles[i])
  }

  predicate IsFirstSmallest(bundles: seq<Value>, k: nat) {
    && k < |bundles|
    && (forall i :: 0 <= i < |bundles| ==> MapSize(bundles[k]) <= MapSize(bundles[i]))
    && (forall i :: 0 <= i < k ==> MapSize(bundles[k]) < MapSize(bundles[i]))
  }

  /** Who gets what division lost of `a`: the first bundle that has some, or else the first smallest one. */
  predicate IsReceiver(bundles: seq<Value>, a: AssetId, k: nat) {
    || IsFirstHolder(bundles, a, k)
    || (IsFirstSmallest(bundles, k) && forall i :: 0 <= i < |bundles| ==> a !in Entries(bundles[i]))
  }

  function WithMore(v: Value, a: AssetId, lost: int): Value {
    Value(v.coins, Some(Entries(v)[a := Quantity(Entries(v), a) + lost]))
  }

  /** Only the receiver has more, or a new bundle has it when there is none. */
  ghost predicate IsRaised(bundles: seq<Value>, r: seq<Value>, a: AssetId, lost: int) {
    if bundles == [] then r == [Value(0, Some(map[a := lost]))]
    else exists k: nat ::
      IsReceiver(bundles, a, k) && k < |bundles| && r == bundles[k := WithMore(bundles[k], a, lost)]
  }

  /**
    Adds what division lost of `a` to the first bundle holding `a`, or else to a smallest bundle,
    creating the bundle and its token map when they are missing.
   */
  method AddAssetLost(bundles: seq<Value>, a: AssetId, lost: int) returns (r: seq<Value>)
    requires lost > 0
    ensures |r| == if bundles == [] then 1 else |bundles|
    ensures forall t :: Total(r, t) == Total(bundles, t) + if t == Asset(a) then lost else 0
    ensures forall t :: NonNegative(bundles, t) ==> NonNegative(r, t)
    ensures forall ids :: KeysWithin(bundles, ids) && a in ids ==> KeysWithin(r, ids)
    ensures Raises(bundles, r)
    ensures IsRaised(bundles, r, a, lost)
  {
    if bundles == [] {
      r := [Value(0, Some(map[a := lost]))];
      forall t ensures Total(r, t) == if t == Asset(a) then lost else 0 {
        TotalAppend([], r[0], t);
        assert [] + [r[0]] == r;
      }
      return;
    }
    var k := FindHolder(bundles, a);
    if k == |bundles| {
      k := SmallestBundle(bundles);
    }
    var entries := Entries(bundles[k]);
    var bundle := Value(bundles[k].coins, Some(entries[a := Quantity(entries, a) + lost]));
    r := bundles[k := bundle];
    assert IsReceiver(bundles, a, k) && bundle == WithMore(bundles[k], a, lost);
    forall t ensures Total(r, t) == Total(bundles, t) + if t == Asset(a) then lost else 0 {
      TotalUpdate(bundles, k, bundle, t);
    }
  }

  /** Coins that division lost go to the first bundle, or to a new one when there is no output. */
  function WithCoinLost(bundles: seq<Value>, lost: int): seq<Value> {
    if lost <= 0 then bundles
    else if bundles == [] then [Value(lost, None)]
    else bundles[0 := bundles[0].(coins := bundles[0].coins + lost)]
  }

  lemma CoinLostAdded(bundles: seq<Value>, lost: int, t: Token)
    ensures Total(WithCoinLost(bundles, lost), t) == Total(bundles, t) + if t == Lovelace && lost > 0 then lost else 0
  {
    var r := WithCoinLost(bundles, lost);
    if lost > 0 && bundles == [] {
      TotalAppend([], r[0], t);
      assert [] + [r[0]] == r;
    } else if lost > 0 {
      TotalUpdate(bundles, 0, r[0], t);
    }
  }

  /** Only the first bundle changes, and only its coins; every other total stays. */
  method AddCoinLost(bundles: seq<Value>, lost: int) returns (r: seq<Value>)
    ensures lost <= 0 ==> r == bundles
    ensures lost > 0 && bundles == [] ==> r == [Value(lost, None)]
    ensures lost > 0 && bundles != [] ==>
      && |r| == |bundles| && r[0] == Value(bundles[0].coins + lost, bundles[0].assets)
      && forall i :: 1 <= i < |r| ==> r[i] == bundles[i]
    ensures forall t :: Total(r, t) == Total(bundles, t) + if t == Lovelace && lost > 0 then lost else 0
    ensures forall t :: NonNegative(bundles, t) ==> NonNegative(r, t)
    ensures forall ids :: KeysWithin(bundles, ids) ==> KeysWithin(r, ids)
  {
    r := WithCoinLost(bundles, lost);
    forall t
      ensures Total(r, t) == Total(bundles, t) + if t == Lovelace && lost > 0 then lost else 0
    {
      CoinLostAdded(bundles, lost, t);
    }
  }

  /** Only the first holder of an asset has more of it than before. */
  predicate RaisesFirst(before: seq<Value>, after: seq<Value>) {
    && |before| <= |after|
    && forall i, a :: 0 <= i < |before| && a in Entries(before[i]) && !IsFirstHolder(before, a, i) ==>
         a in Entries(after[i]) && Entries(after[i])[a] == Entries(before[i])[a]
  }

  /** The bundles have the same entry of `a`, if any. */
  predicate SameEntry(x: seq<Value>, y: seq<Value>, a: AssetId) {
    |x| <= |y| && forall i :: 0 <= i < |x| ==>
      && (a in Entries(x[i]) <==> a in Entries(y[i]))
      && (a in Entries(x[i]) ==> Entries(x[i])[a] == Entries(y[i])[a])
  }

  lemma RaisedAt(shares: seq<Value>, before: seq<Value>, after: seq<Value>, a: AssetId, lost: int, k: nat)
    requires RaisesFirst(shares, before) && SameEntry(shares, before, a) && |shares| == |before|
    requires IsReceiver(before, a, k) && k < |before| && after == before[k := WithMore(before[k], a, lost)]
    ensures RaisesFirst(shares, after)
  {
    forall i, b | 0 <= i < |shares| && b in Entries(shares[i]) && !IsFirstHolder(shares, b, i)
      ensures b in Entries(after[i]) && Entries(after[i])[b] == Entries(shares[i])[b]
    {
      assert b in Entries(before[i]) && Entries(before[i])[b] == Entries(shares[i])[b];
      assert i == k ==> b != a;
    }
  }

  lemma OthersUnchanged(shares: seq<Value>, before: seq<Value>, after: seq<Value>, a: AssetId, lost: int, b: AssetId)
    requires IsRaised(before, after, a, lost) && b != a && SameEntry(shares, before, b)
    ensures SameEntry(shares, after, b)
  {
  }

  /** Mid-loop: the assets still to do are as they were. */
  ghost predicate Raising(shares: seq<Value>, r: seq<Value>, todo: seq<AssetId>) {
    && Raises(shares, r) && RaisesFirst(shares, r)
    && forall k :: 0 <= k < |todo| ==> SameEntry(shares, r, todo[k])
  }

  lemma RaisingStep(shares: seq<Value>, before: seq<Value>, after: seq<Value>, txAssets: seq<AssetId>, n: nat,
                    lost: int)
    requires Distinct(txAssets) && n < |txAssets| && Raising(shares, before, txAssets[n..])
    requires |before| == |shares| || (shares == [] && |before| == 1)
    requires Raises(before, after) && IsRaised(before, after, txAssets[n], lost)
    ensures Raising(shares, after, txAssets[n + 1..])
  {
    var a := txAssets[n];
    RaisesTransitive(shares, before, after);
    assert a == txAssets[n..][0];
    if shares != [] {
      var k: nat :| IsReceiver(before, a, k) && k < |before| && after == before[k := WithMore(before[k], a, lost)];
      RaisedAt(shares, before, after, a, lost, k);
    }
    var rest := txAssets[n + 1..];
    forall k | 0 <= k < |rest| ensures SameEntry(shares, after, rest[k]) {
      assert rest[k] == txAssets[n..][k + 1];
      OthersUnchanged(shares, before, after, a, lost, rest[k]);
    }
  }

  lemma NotRaised(shares: seq<Value>, r: seq<Value>, txAssets: seq<AssetId>, n: nat)
    requires n < |txAssets| && Raising(shares, r, txAssets[n..])
    ensures Raising(shares, r, txAssets[n + 1..])
  {
    var rest := txAssets[n + 1..];
    forall k | 0 <= k < |rest| ensures SameEntry(shares, r, rest[k]) {
      assert rest[k] == txAssets[n..][k + 1];
    }
  }

  /** One turn of the loop over the transaction's assets. */
  method RaiseAsset(ghost shares: seq<Value>, bundles: seq<Value>, txAssets: seq<AssetId>, n: nat, lost: int)
    returns (r: seq<Value>)
    requires lost > 0 && Distinct(txAssets) && n < |txAssets| && Raising(shares, bundles, txAssets[n..])
    requires |bundles| == |shares| || (shares == [] && |bundles| == 1)
    ensures |r| == if bundles == [] then 1 else |bundles|
    ensures forall t :: Total(r, t) == Total(bundles, t) + if t == Asset(txAssets[n]) then lost else 0
    ensures forall t :: NonNegative(bundles, t) ==> NonNegative(r, t)
    ensures forall ids :: KeysWithin(bundles, ids) && txAssets[n] in ids ==> KeysWithin(r, ids)
    ensures Raising(shares, r, txAssets[n + 1..])
  {
    r := AddAssetLost(bundles, txAssets[n], lost);
    RaisingStep(shares, bundles, r, txAssets, n, lost);
  }

  /** Raises every transaction asset that the shares fell short of to its excess. */
  method AddAssetResidues(shares: seq<Value>, txAssets: seq<AssetId>, totals: map<AssetId, AssetTotal>,
                          bundled: TokenMap)
    returns (r: seq<Value>)
    requires Distinct(txAssets) && forall a :: a in txAssets ==> a in totals
    requires forall a :: Quantity(bundled, a) == Total(shares, Asset(a))
    requires KeysWithin(shares, set a | a in txAssets)
    ensures |r| == |shares| || (shares == [] && |r| == 1)
    ensures Total(r, Lovelace) == Total(shares, Lovelace)
    ensures forall a :: a in txAssets ==>
      Total(r, Asset(a)) == Max(Total(shares, Asset(a)), totals[a].selected - totals[a].requested)
    ensures forall t :: NonNegative(shares, t) ==> NonNegative(r, t)
    ensures KeysWithin(r, set a | a in txAssets)
    ensures Raises(shares, r) && RaisesFirst(shares, r)
  {
    r := shares;
    for n := 0 to |txAssets|
      invariant Raising(shares, r, txAssets[n..])
      invariant KeysWithin(r, set a | a in txAssets)
      invariant |r| == |shares| || (shares == [] && |r| == 1)
      invariant Total(r, Lovelace) == Total(shares, Lovelace)
      invariant forall t :: NonNegative(shares, t) ==> NonNegative(r, t)
      invariant forall k :: n <= k < |txAssets| ==> Total(r, Asset(txAssets[k])) == Total(shares, Asset(txAssets[k]))
      invariant forall k :: 0 <= k < n ==>
        var a := txAssets[k];
        Total(r, Asset(a)) == Max(Total(shares, Asset(a)), totals[a].selected - totals[a].requested)
    {
      var a := txAssets[n];
      var lost := totals[a].selected - totals[a].requested - Quantity(bundled, a);
      if lost > 0 {
        r := RaiseAsset(shares, r, txAssets, n, lost);
      } else {
        NotRaised(shares, r, txAssets, n);
      }
    }
  }

  function TotalOf(utxo: seq<Utxo>, outputs: seq<Value>, imp: Implicit, a: AssetId): AssetTotal {
    AssetTotal(Selected(utxo, imp, Asset(a)), Requested(outputs, imp, 0, Asset(a)))
  }

  /** assetTotals of computeRequestedAssetChangeBundles */
  function AssetTotals(utxo: seq<Utxo>, outputs: seq<Value>, txAssets: seq<AssetId>, imp: Implicit)
    : map<AssetId, AssetTotal>
  {
    map a | a in txAssets :: TotalOf(utxo, outputs, imp, a)
  }

  /** A bundle has at least the coin share of an output and its share of every asset of it. */
  predicate KeepsShare(utxo: seq<Utxo>, outputs: seq<Value>, imp: Implicit, fee: nat, output: Value, b: Value) {
    && b.coins >= CoinShare(output, Requested(outputs, imp, fee, Lovelace), Excess(utxo, outputs, imp, fee, Lovelace))
    && forall a :: a in Entries(output) ==>
         && a in Entries(b) && TotalOf(utxo, outputs, imp, a).selected != 0
         && Entries(b)[a] >= AssetShare(Entries(output)[a], TotalOf(utxo, outputs, imp, a))
  }

  /** Each bundle keeps the share of its output; only the first one may have more coins, and of an asset its first. */
  predicate KeepsShares(utxo: seq<Utxo>, outputs: seq<Value>, imp: Implicit, fee: nat, bundles: seq<Value>) {
    && |outputs| <= |bundles| <= Max(1, |outputs|)
    && (forall i :: 0 <= i < |outputs| ==> KeepsShare(utxo, outputs, imp, fee, outputs[i], bundles[i]))
    && (forall i :: 1 <= i < |outputs| ==>
          bundles[i].coins
          == CoinShare(outputs[i], Requested(outputs, imp, fee, Lovelace), Excess(utxo, outputs, imp, fee, Lovelace)))
    && (forall i, a :: 0 <= i < |outputs| && a in Entries(outputs[i]) && !IsFirstHolder(outputs, a, i) ==>
          && a in Entries(bundles[i]) && TotalOf(utxo, outputs, imp, a).selected != 0
          && Entries(bundles[i])[a] == AssetShare(Entries(outputs[i])[a], TotalOf(utxo, outputs, imp, a)))
  }

  /** Adding what division lost keeps the shares. */
  lemma ResiduesKeepShares(utxo: seq<Utxo>, outputs: seq<Value>, txAssets: seq<AssetId>, imp: Implicit, fee: nat,
                           shares: seq<Value>, withCoins: seq<Value>, r: seq<Value>)
    requires KeysWithin(outputs, set a | a in txAssets)
    requires AreShareBundles(outputs, shares, Requested(outputs, imp, fee, Lovelace),
                             Excess(utxo, outputs, imp, fee, Lovelace), AssetTotals(utxo, outputs, txAssets, imp))
    requires |shares| <= |withCoins| && forall i :: 0 <= i < |shares| ==>
      && withCoins[i].assets == shares[i].assets && withCoins[i].coins >= shares[i].coins
      && (i > 0 ==> withCoins[i].coins == shares[i].coins)
    requires Raises(withCoins, r) && RaisesFirst(withCoins, r)
    requires |r| <= Max(1, |outputs|) && |withCoins| <= Max(1, |shares|)
    ensures KeepsShares(utxo, outputs, imp, fee, r)
  {
    forall i | 0 <= i < |outputs|
      ensures KeepsShare(utxo, outputs, imp, fee, outputs[i], r[i])
      ensures i > 0 ==> r[i].coins == shares[i].coins
    {
      assert Entries(withCoins[i]) == Entries(shares[i]);
    }
    forall i, a | 0 <= i < |outputs| && a in Entries(outputs[i]) && !IsFirstHolder(outputs, a, i)
      ensures a in Entries(r[i]) && Entries(r[i])[a] == Entries(shares[i])[a]
    {
      var j :| 0 <= j < i && a in Entries(outputs[j]);
      assert a in Entries(withCoins[j]);
    }
  }

  /** What the requested-asset bundles hold of a token that the selection covers. */
  predicate HoldsExcess(utxo: seq<Utxo>, outputs: seq<Value>, imp: Implicit, fee: nat, t: Token, bundles: seq<Value>) {
    NonNegative(bundles, t) && Total(bundles, t) == Excess(utxo, outputs, imp, fee, t)
  }

  /** Of everything that is covered the shares hold at most the excess. */
  lemma SharesFit(utxo: seq<Utxo>, outputs: seq<Value>, txAssets: seq<AssetId>, imp: Implicit, fee: nat,
                  bundles: seq<Value>)
    requires Distinct(txAssets) && KeysWithin(outputs, set a | a in txAssets)
    requires var requested := Requested(outputs, imp, fee, Lovelace);
      AreShareBundles(outputs, bundles, requested, Selected(utxo, imp, Lovelace) - requested,
                      AssetTotals(utxo, outputs, txAssets, imp))
    ensures KeysWithin(bundles, set a | a in txAssets)
    ensures Covered(utxo, outputs, imp, fee, Lovelace) ==>
      NonNegative(bundles, Lovelace) && Total(bundles, Lovelace) <= Excess(utxo, outputs, imp, fee, Lovelace)
    ensures forall a :: a in txAssets && Covered(utxo, outputs, imp, fee, Asset(a)) ==>
      NonNegative(bundles, Asset(a)) && Total(bundles, Asset(a)) <= Excess(utxo, outputs, imp, fee, Asset(a))
  {
    var totals := AssetTotals(utxo, outputs, txAssets, imp);
    var requested := Requested(outputs, imp, fee, Lovelace);
    var change := Selected(utxo, imp, Lovelace) - requested;
    forall i, a | 0 <= i < |bundles| && a in Entries(bundles[i])
      ensures a in txAssets
    {
      assert IsShareBundle(outputs[i], bundles[i], requested, change, totals);
    }
    if Covered(utxo, outputs, imp, fee, Lovelace) {
      CoinSharesFit(outputs, bundles, requested, change, totals);
    }
    forall a | a in txAssets && Covered(utxo, outputs, imp, fee, Asset(a))
      ensures NonNegative(bundles, Asset(a)) && Total(bundles, Asset(a)) <= Excess(utxo, outputs, imp, fee, Asset(a))
    {
      AssetSharesFit(outputs, bundles, requested, change, totals, a);
    }
  }

  /** An output asks for an asset of which nothing is selected or minted. */
  predicate NothingOf(utxo: seq<Utxo>, outputs: seq<Value>, imp: Implicit) {
    exists i, a :: 0 <= i < |outputs| && a in Entries(outputs[i]) && Selected(utxo, imp, Asset(a)) == 0
  }

  /** What was lost is made up for: the bundles hold the excess of what is covered. */
  lemma ResiduesHoldExcess(utxo: seq<Utxo>, outputs: seq<Value>, txAssets: seq<AssetId>, imp: Implicit, fee: nat,
                           shares: seq<Value>, withCoins: seq<Value>, r: seq<Value>)
    requires Covered(utxo, outputs, imp, fee, Lovelace) ==>
      NonNegative(shares, Lovelace) && Total(shares, Lovelace) <= Excess(utxo, outputs, imp, fee, Lovelace)
    requires forall a :: a in txAssets && Covered(utxo, outputs, imp, fee, Asset(a)) ==>
      NonNegative(shares, Asset(a)) && Total(shares, Asset(a)) <= Excess(utxo, outputs, imp, fee, Asset(a))
    requires forall t :: NonNegative(shares, t) ==> NonNegative(withCoins, t)
    requires forall t :: NonNegative(withCoins, t) ==> NonNegative(r, t)
    requires Total(withCoins, Lovelace) == Max(Total(shares, Lovelace), Excess(utxo, outputs, imp, fee, Lovelace))
    requires forall a :: Total(withCoins, Asset(a)) == Total(shares, Asset(a))
    requires Total(r, Lovelace) == Total(withCoins, Lovelace)
    requires forall a :: a in txAssets ==>
      Total(r, Asset(a)) == Max(Total(withCoins, Asset(a)), Excess(utxo, outputs, imp, fee, Asset(a)))
    ensures Covered(utxo, outputs, imp, fee, Lovelace) ==> HoldsExcess(utxo, outputs, imp, fee, Lovelace, r)
    ensures forall a :: a in txAssets && Covered(utxo, outputs, imp, fee, Asset(a)) ==>
      HoldsExcess(utxo, outputs, imp, fee, Asset(a), r)
  {
  }

  /** Adds what division lost of the coins and of each transaction asset to the shares. */
  method AddResidues(utxo: seq<Utxo>, outputs: seq<Value>, txAssets: seq<AssetId>, imp: Implicit, fee: nat,
                     shares: seq<Value>, assetsBundled: TokenMap, coinBundled: int)
    returns (r: seq<Value>)
    requires Distinct(txAssets) && KeysWithin(outputs, set a | a in txAssets)
    requires AreShareBundles(outputs, shares, Requested(outputs, imp, fee, Lovelace),
                             Excess(utxo, outputs, imp, fee, Lovelace), AssetTotals(utxo, outputs, txAssets, imp))
    requires Tracks(shares, assetsBundled, coinBundled)
    ensures KeysWithin(r, set a | a in txAssets)
    ensures |r| == |outputs| || (outputs == [] && |r| == 1)
    ensures KeepsShares(utxo, outputs, imp, fee, r)
    ensures Covered(utxo, outputs, imp, fee, Lovelace) ==> HoldsExcess(utxo, outputs, imp, fee, Lovelace, r)
    ensures forall a :: a in txAssets && Covered(utxo, outputs, imp, fee, Asset(a)) ==>
      HoldsExcess(utxo, outputs, imp, fee, Asset(a), r)
  {
    SharesFit(utxo, outputs, txAssets, imp, fee, shares);
    var lost := Excess(utxo, outputs, imp, fee, Lovelace) - coinBundled;
    var withCoins := AddCoinLost(shares, lost);
    r := AddAssetResidues(withCoins, txAssets, AssetTotals(utxo, outputs, txAssets, imp), assetsBundled);
    ResiduesKeepShares(utxo, outputs, txAssets, imp, fee, shares, withCoins, r);
    ResiduesHoldExcess(utxo, outputs, txAssets, imp, fee, shares, withCoins, r);
  }

  /**
    computeRequestedAssetChangeBundles: the bundles hold exactly the excess of Lovelace and of every
    transaction asset that the selection covers, and no other asset.
   */
  method ComputeRequestedAssetChangeBundles(utxo: seq<Utxo>, outputs: seq<Value>, txAssets: seq<AssetId>,
                                            imp: Implicit, fee: nat)
    returns (r: Result<seq<Value>, Failure>)
    requires Distinct(txAssets) && KeysWithin(outputs, set a | a in txAssets)
    ensures r.Err? ==> r.error == DivisionByZero
    ensures r.Err? <==> NothingOf(utxo, outputs, imp)
    ensures r.Ok? ==> KeysWithin(r.value, set a | a in txAssets)
    ensures r.Ok? ==> |r.value| == |outputs| || (outputs == [] && |r.value| == 1)
    ensures r.Ok? ==> KeepsShares(utxo, outputs, imp, fee, r.value)
    ensures r.Ok? && Covered(utxo, outputs, imp, fee, Lovelace) ==>
      HoldsExcess(utxo, outputs, imp, fee, Lovelace, r.value)
    ensures r.Ok? ==> forall a :: a in txAssets && Covered(utxo, outputs, imp, fee, Asset(a)) ==>
      HoldsExcess(utxo, outputs, imp, fee, Asset(a), r.value)
  {
    var totals := AssetTotals(utxo, outputs, txAssets, imp);
    var requested := Requested(outputs, imp, fee, Lovelace);
    var change := Selected(utxo, imp, Lovelace) - requested;
    var shares := CreateBundlePerOutput(outputs, requested, change, totals);
    if shares.Err? {
      ghost var i, a :| 0 <= i < |outputs| && a in Entries(outputs[i]) && totals[a].selected == 0;
      assert Selected(utxo, imp, Asset(a)) == 0;
      return Err(shares.error);
    }
    var (bundles, assetsBundled, coinBundled) := shares.value;
    var all := AddResidues(utxo, outputs, txAssets, imp, fee, bundles, assetsBundled, coinBundled);
    r := Ok(all);
  }
}
