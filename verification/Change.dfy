/**
  computeChangeAndAdjustForFee: change for a selection of UTxO, drawing further UTxO until the fee
  and the minimum coin quantities are covered.  Whatever it returns balances in every token.
 */
module Change {
  import opened BundleSize
  import opened Leftovers
  import opened MinCoin
  import opened Numbers
  import opened RequestedChange
  import opened Seqs
  import opened Values
  import opened Wrappers

  datatype UtxoSelection = UtxoSelection(selected: seq<Utxo>, remaining: seq<Utxo>)

  datatype Outcome = Outcome(change: seq<Value>, fee: nat, inputs: seq<Utxo>, remaining: seq<Utxo>)

  /** The callbacks of a selection: minimum coin of an output, size limit, fee estimate. */
  datatype Constraints = Constraints(
    minCoin: Value -> int,
    exceeds: TokenMap -> bool,
    estimate: (seq<Utxo>, seq<Value>) -> nat)

  /** What preProcessArgs establishes: every asset of the outputs and of the mint is listed, once. */
  predicate ValidArgs(outputs: seq<Value>, txAssets: seq<AssetId>, imp: Implicit) {
    && Distinct(txAssets)
    && KeysWithin(outputs, set a | a in txAssets)
    && (forall a :: a in imp.tokensInput ==> a in txAssets)
    && (forall a :: a in imp.tokensSpend ==> a in txAssets)
  }

  /** The selection covers `t`, and no UTxO or output holds a negative amount of it. */
  predicate Backed(utxo: seq<Utxo>, outputs: seq<Value>, imp: Implicit, fee: nat, t: Token) {
    Covered(utxo, outputs, imp, fee, t) && NonNegative(ToValues(utxo), t)
  }

  /** The ledger's balance equation for one token. */
  predicate Balances(utxo: seq<Utxo>, outputs: seq<Value>, imp: Implicit, fee: nat, change: seq<Value>, t: Token) {
    Total(ToValues(utxo), t) + Gained(imp, t) == Total(outputs, t) + Spent(imp, fee, t) + Total(change, t)
  }

  /** A change bundle the stages may produce. */
  predicate IsChangeBundle(v: Value, c: Constraints) {
    || (Satisfies(v, c.minCoin) && WithinLimit(v, c.exceeds) && (v.coins > 0 || Entries(v) != map[]))
    || IsPiece(v, c.minCoin, c.exceeds)
  }

  /** An asset that is neither in the outputs nor in the mint comes back in full. */
  lemma LeftoverExcess(utxo: seq<Utxo>, outputs: seq<Value>, txAssets: seq<AssetId>, imp: Implicit, fee: nat, t: Token)
    requires ValidArgs(outputs, txAssets, imp) && !Untouched(t, txAssets)
    ensures Excess(utxo, outputs, imp, fee, t) == Total(ToValues(utxo), t)
  {
    var ids := set a | a in txAssets;
    forall i | 0 <= i < |outputs| ensures Amount(outputs[i], t) == 0 {
      assert KeysWithin(outputs, ids) && t.id !in ids;
    }
    TotalZero(outputs, t);
  }

  /** The bundles balance in every token that is backed, and hold only positive quantities of assets. */
  ghost predicate BalancesBacked(utxo: seq<Utxo>, outputs: seq<Value>, imp: Implicit, fee: nat, bundles: seq<Value>) {
    && PositiveEntries(bundles)
    && forall t :: Backed(utxo, outputs, imp, fee, t) ==> Balances(utxo, outputs, imp, fee, bundles, t)
  }

  /** The one value that has exactly the excess of every token that is backed, and an entry only for what it has. */
  ghost predicate IsExcess(utxo: seq<Utxo>, outputs: seq<Value>, imp: Implicit, fee: nat, v: Value) {
    && PositiveEntries([v])
    && forall t :: Backed(utxo, outputs, imp, fee, t) ==> Amount(v, t) == Excess(utxo, outputs, imp, fee, t)
  }

  /** The excess of a selection that covers everything is one value, but for an empty token map. */
  lemma ExcessUnique(utxo: seq<Utxo>, outputs: seq<Value>, imp: Implicit, fee: nat, v: Value, w: Value)
    requires forall t :: Backed(utxo, outputs, imp, fee, t)
    requires IsExcess(utxo, outputs, imp, fee, v) && IsExcess(utxo, outputs, imp, fee, w)
    ensures v.coins == w.coins && Entries(v) == Entries(w)
  {
    assert Amount(v, Lovelace) == Amount(w, Lovelace);
    forall a ensures Quantity(Entries(v), a) == Quantity(Entries(w), a) {
      assert Backed(utxo, outputs, imp, fee, Asset(a));
      assert Amount(v, Asset(a)) == Amount(w, Asset(a));
    }
    forall a ensures a in Entries(v) <==> a in Entries(w) {
      assert a in Entries([v][0]) ==> Entries([v][0])[a] > 0;
      assert a in Entries([w][0]) ==> Entries([w][0])[a] > 0;
      assert Quantity(Entries(v), a) == Quantity(Entries(w), a);
    }
    forall a | a in Entries(v) ensures Entries(v)[a] == Entries(w)[a] {
      assert Quantity(Entries(v), a) == Quantity(Entries(w), a);
    }
  }

  /** Bundles before merging: they hold the excess, and each has at least the share of its output. */
  ghost predicate IsDraft(utxo: seq<Utxo>, outputs: seq<Value>, imp: Implicit, fee: nat, drafts: seq<Value>) {
    && KeepsShares(utxo, outputs, imp, fee, drafts)
    && forall t :: Backed(utxo, outputs, imp, fee, t) ==>
         NonNegative(drafts, t) && Total(drafts, t) == Excess(utxo, outputs, imp, fee, t)
  }

  /** Bundles that merging may leave: totals of groups of drafts, nothing negative, each with its minimum. */
  ghost predicate IsMerged(utxo: seq<Utxo>, outputs: seq<Value>, imp: Implicit, fee: nat, c: Constraints,
                           bundles: seq<Value>)
  {
    && (exists drafts :: IsDraft(utxo, outputs, imp, fee, drafts) && IsMerge(drafts, bundles, c.minCoin))
    && |bundles| <= Max(1, |outputs|)
    && BalancesBacked(utxo, outputs, imp, fee, bundles)
    && (forall t :: Backed(utxo, outputs, imp, fee, t) ==> NonNegative(bundles, t))
    && (forall v :: v in bundles ==> Satisfies(v, c.minCoin))
  }

  /** Bundles that splitting may leave: merged ones, and pieces of those that are too large. */
  ghost predicate IsSplit(utxo: seq<Utxo>, outputs: seq<Value>, imp: Implicit, fee: nat, c: Constraints,
                          bundles: seq<Value>)
  {
    && (exists merged ::
          IsMerged(utxo, outputs, imp, fee, c, merged) && IsSplitOf(merged, bundles, c.minCoin, c.exceeds))
    && BalancesBacked(utxo, outputs, imp, fee, bundles)
    && forall v :: v in bundles ==> IsChangeBundle(v, c)
  }

  // Why there may be no change for a selection at a fee:

  /** all of the excess in one value falls short of the minimum coin quantity, */
  ghost predicate BelowMinimum(utxo: seq<Utxo>, outputs: seq<Value>, imp: Implicit, fee: nat, c: Constraints) {
    exists v :: IsExcess(utxo, outputs, imp, fee, v) && !Satisfies(v, c.minCoin)
  }

  /** a merged bundle is too large, and its coins do not suffice for the minima of its pieces, */
  ghost predicate CannotSplit(utxo: seq<Utxo>, outputs: seq<Value>, imp: Implicit, fee: nat, c: Constraints) {
    exists bundles, v, pieces :: IsMerged(utxo, outputs, imp, fee, c, bundles)
      && v in bundles && CutFails(v, pieces, c.minCoin, c.exceeds)
  }

  /** or a token is too large on its own. */
  ghost predicate TokenTooLarge(utxo: seq<Utxo>, outputs: seq<Value>, imp: Implicit, fee: nat, c: Constraints) {
    exists bundles: seq<Value>, v: Value :: IsSplit(utxo, outputs, imp, fee, c, bundles) && v in bundles
      && v.assets.Some? && |v.assets.value| <= 1 && c.exceeds(v.assets.value)
  }

  lemma LeftoversKeepShares(utxo: seq<Utxo>, outputs: seq<Value>, imp: Implicit, fee: nat, before: seq<Value>,
                            after: seq<Value>)
    requires KeepsShares(utxo, outputs, imp, fee, before) && KeepsBundles(before, after)
    requires |after| <= Max(1, |outputs|)
    ensures KeepsShares(utxo, outputs, imp, fee, after)
  {
  }

  /** The bundles before merging and splitting. */
  method BundlesWithLeftovers(utxo: seq<Utxo>, outputs: seq<Value>, txAssets: seq<AssetId>, imp: Implicit, fee: nat)
    returns (r: Result<seq<Value>, Failure>)
    requires ValidArgs(outputs, txAssets, imp)
    ensures r.Err? <==> NothingOf(utxo, outputs, imp)
    ensures r.Err? ==> r.error == DivisionByZero
    ensures r.Ok? ==> IsDraft(utxo, outputs, imp, fee, r.value)
    ensures r.Ok? ==> forall a :: a !in txAssets ==> IsPlaced(r.value, a, Quantities(ToValues(utxo), a))
  {
    var requested := ComputeRequestedAssetChangeBundles(utxo, outputs, txAssets, imp, fee);
    if requested.Err? { return Err(requested.error); }
    var bundles := RedistributeLeftoverAssets(utxo, requested.value, txAssets);
    LeftoversKeepShares(utxo, outputs, imp, fee, requested.value, bundles);
    forall t | Backed(utxo, outputs, imp, fee, t)
      ensures NonNegative(bundles, t) && Total(bundles, t) == Excess(utxo, outputs, imp, fee, t)
    {
      if Untouched(t, txAssets) {
        assert HoldsExcess(utxo, outputs, imp, fee, t, requested.value) by {
          if t.Asset? { assert t == Asset(t.id); }
        }
      } else {
        LeftoverExcess(utxo, outputs, txAssets, imp, fee, t);
      }
    }
    r := Ok(bundles);
  }

  lemma EverythingIsExcess(utxo: seq<Utxo>, outputs: seq<Value>, imp: Implicit, fee: nat, drafts: seq<Value>, v: Value)
    requires IsDraft(utxo, outputs, imp, fee, drafts) && HoldsAll(v, drafts)
    ensures IsExcess(utxo, outputs, imp, fee, v)
  {
  }

  lemma CoalescedIsMerged(utxo: seq<Utxo>, outputs: seq<Value>, imp: Implicit, fee: nat, c: Constraints,
                          drafts: seq<Value>, merged: seq<Value>)
    requires IsDraft(utxo, outputs, imp, fee, drafts) && IsMerge(drafts, merged, c.minCoin)
    requires PositiveEntries(merged) && |merged| <= |drafts|
    requires forall t :: NonNegative(drafts, t) ==> NonNegative(merged, t) && Total(merged, t) == Total(drafts, t)
    requires forall v :: v in merged ==> Satisfies(v, c.minCoin)
    ensures IsMerged(utxo, outputs, imp, fee, c, merged)
  {
  }

  lemma CutIsSplit(utxo: seq<Utxo>, outputs: seq<Value>, imp: Implicit, fee: nat, c: Constraints, merged: seq<Value>,
                   split: seq<Value>)
    requires IsMerged(utxo, outputs, imp, fee, c, merged) && IsSplitOf(merged, split, c.minCoin, c.exceeds)
    requires forall v :: v in merged ==> v.coins > 0 || Entries(v) != map[]
    requires forall t :: Total(split, t) == Total(merged, t)
    requires PositiveEntries(merged) ==> PositiveEntries(split)
    requires forall v :: v in split ==>
      (v in merged && WithinLimit(v, c.exceeds)) || IsPiece(v, c.minCoin, c.exceeds)
    ensures IsSplit(utxo, outputs, imp, fee, c, split)
  {
  }

  /**
    computeChangeBundles: shares, leftovers, min-coin merging and size splitting in one.
    `Ok(None)` is the `false` the caller answers with another UTxO.
   */
  method ComputeChangeBundles(utxo: seq<Utxo>, outputs: seq<Value>, txAssets: seq<AssetId>, imp: Implicit,
                              fee: nat, c: Constraints)
    returns (r: Result<Option<seq<Value>>, Failure>)
    requires ValidArgs(outputs, txAssets, imp)
    ensures r == Err(DivisionByZero) <==> NothingOf(utxo, outputs, imp)
    ensures r.Err? && r.error != DivisionByZero ==>
      r.error == UtxoFullyDepleted && CannotSplit(utxo, outputs, imp, fee, c)
    ensures r == Ok(None) ==> BelowMinimum(utxo, outputs, imp, fee, c)
    ensures r.Ok? && r.value.Some? ==> IsSplit(utxo, outputs, imp, fee, c, r.value.value)
  {
    var bundles := BundlesWithLeftovers(utxo, outputs, txAssets, imp, fee);
    if bundles.Err? { return Err(bundles.error); }
    var merged := CoalesceForMinCoin(bundles.value, c.minCoin);
    if merged.None? {
      EverythingIsExcess(utxo, outputs, imp, fee, bundles.value, Everything(bundles.value));
      return Ok(None);
    }
    CoalescedIsMerged(utxo, outputs, imp, fee, c, bundles.value, merged.value);
    var split := SplitChange(merged.value, c.minCoin, c.exceeds);
    if split.Err? { return Err(split.error); }
    CutIsSplit(utxo, outputs, imp, fee, c, merged.value, split.value);
    r := Ok(Some(split.value));
  }

  /** validateChangeBundles */
  method ValidateChangeBundles(bundles: seq<Value>, exceeds: TokenMap -> bool) returns (r: Result<seq<Value>, Failure>)
    ensures r.Ok? <==> forall i :: 0 <= i < |bundles| && bundles[i].assets.Some? ==> !exceeds(bundles[i].assets.value)
    ensures r.Ok? ==> r.value == bundles
    ensures r.Err? ==> r.error == UtxoFullyDepleted
  {
    for n := 0 to |bundles|
      invariant forall i :: 0 <= i < n && bundles[i].assets.Some? ==> !exceeds(bundles[i].assets.value)
    {
      if bundles[n].assets.Some? && exceeds(bundles[n].assets.value) { return Err(UtxoFullyDepleted); }
    }
    r := Ok(bundles);
  }

  // ---------------------------------------------------------------- drawing another UTxO

  /** The contract of PickAdditionalUtxo: exactly one entry moves from remaining to selected. */
  ghost predicate MovesOne(s: UtxoSelection, s': UtxoSelection) {
    exists u :: u in s.remaining
      && multiset(s'.selected) == multiset(s.selected) + multiset{u}
      && multiset(s'.remaining) == multiset(s.remaining) - multiset{u}
  }

  ghost predicate IsPick(pick: UtxoSelection -> UtxoSelection) {
    forall s: UtxoSelection :: s.remaining != [] ==> MovesOne(s, pick(s))
  }

  function AllUtxo(s: UtxoSelection): multiset<Utxo> {
    multiset(s.selected) + multiset(s.remaining)
  }

  lemma MoveKeepsUtxo(s: UtxoSelection, s': UtxoSelection)
    requires MovesOne(s, s')
    ensures AllUtxo(s') == AllUtxo(s)
    ensures |s'.remaining| == |s.remaining| - 1
    ensures multiset(s.selected) <= multiset(s'.selected)
  {
    var u :| u in s.remaining
      && multiset(s'.selected) == multiset(s.selected) + multiset{u}
      && multiset(s'.remaining) == multiset(s.remaining) - multiset{u};
    assert u in multiset(s.remaining);
    assert |multiset(s'.remaining)| == |s'.remaining| && |multiset(s.remaining)| == |s.remaining|;
  }

  lemma UtxoTotalRemove(utxo: seq<Utxo>, j: nat, t: Token)
    requires j < |utxo|
    ensures Total(ToValues(utxo), t) == Total(ToValues(RemoveAt(utxo, j)), t) + Amount(utxo[j].value, t)
  {
    TotalRemove(ToValues(utxo), j, t);
    assert RemoveAt(ToValues(utxo), j) == ToValues(RemoveAt(utxo, j));
  }

  lemma {:induction false} UtxoTotalPermutation(xs: seq<Utxo>, ys: seq<Utxo>, t: Token)
    requires multiset(xs) == multiset(ys)
    ensures Total(ToValues(xs), t) == Total(ToValues(ys), t)
    decreases |xs|
  {
    if xs == [] {
      assert |multiset(ys)| == 0;
    } else {
      var j := PermutationStep(xs, ys);
      UtxoTotalPermutation(xs[..|xs| - 1], RemoveAt(ys, j), t);
      assert ToValues(xs)[..|xs| - 1] == ToValues(xs[..|xs| - 1]);
      UtxoTotalRemove(ys, j, t);
    }
  }

  /** No UTxO of the wallet holds a negative amount of `t`. */
  predicate WalletNonNegative(s: UtxoSelection, t: Token) {
    forall u :: u in AllUtxo(s) ==> Amount(u.value, t) >= 0
  }

  lemma WalletValues(s: UtxoSelection, t: Token)
    requires WalletNonNegative(s, t)
    ensures NonNegative(ToValues(s.selected), t)
  {
  }

  lemma OneMoreTotal(selected: seq<Utxo>, more: seq<Utxo>, u: Utxo, t: Token)
    requires multiset(more) == multiset(selected) + multiset{u}
    ensures Total(ToValues(more), t) == Total(ToValues(selected), t) + Amount(u.value, t)
  {
    UtxoTotalPermutation(more, selected + [u], t);
    assert ToValues(selected + [u]) == ToValues(selected) + [u.value];
    TotalAppend(ToValues(selected), u.value, t);
  }

  /** Drawing one more UTxO never uncovers a token. */
  lemma MoveKeepsCover(s: UtxoSelection, s': UtxoSelection, outputs: seq<Value>, imp: Implicit, fee: nat, t: Token)
    requires MovesOne(s, s') && WalletNonNegative(s, t) && Covered(s.selected, outputs, imp, fee, t)
    ensures Covered(s'.selected, outputs, imp, fee, t)
  {
    var u :| u in s.remaining && multiset(s'.selected) == multiset(s.selected) + multiset{u};
    assert u in AllUtxo(s);
    OneMoreTotal(s.selected, s'.selected, u, t);
  }

  // ---------------------------------------------------------------- the whole computation

  /** No bundle is too large. */
  predicate WithinSize(bundles: seq<Value>, c: Constraints) {
    forall i :: 0 <= i < |bundles| && bundles[i].assets.Some? ==> !c.exceeds(bundles[i].assets.value)
  }

  /** Acceptable change for a selection at a fee: it balances, and each bundle has its minimum and its size. */
  ghost predicate IsChange(utxo: seq<Utxo>, outputs: seq<Value>, imp: Implicit, fee: nat, c: Constraints,
                           change: seq<Value>)
  {
    IsSplit(utxo, outputs, imp, fee, c, change) && WithinSize(change, c)
  }

  /** The fee is the estimate for the selection with acceptable change at no fee. */
  ghost predicate IsFee(utxo: seq<Utxo>, outputs: seq<Value>, imp: Implicit, c: Constraints, fee: nat) {
    exists draft :: IsChange(utxo, outputs, imp, 0, c, draft) && fee == c.estimate(utxo, draft)
  }

  /** Everything the result of a change computation promises, for a selection that started as `s`. */
  ghost predicate IsSound(s: UtxoSelection, outputs: seq<Value>, imp: Implicit, c: Constraints, o: Outcome) {
    // no UTxO is lost, duplicated or invented
    && multiset(o.inputs) + multiset(o.remaining) == AllUtxo(s)
    && multiset(s.selected) <= multiset(o.inputs)
    // Lovelace balances, whatever the starting selection covered
    && (NonNegative(outputs, Lovelace) && WalletNonNegative(s, Lovelace) ==>
          Balances(o.inputs, outputs, imp, o.fee, o.change, Lovelace))
    // and so does every asset that the starting selection covered
    && (forall a :: WalletNonNegative(s, Asset(a)) && Covered(s.selected, outputs, imp, 0, Asset(a)) ==>
          Balances(o.inputs, outputs, imp, o.fee, o.change, Asset(a)))
    && WithinSize(o.change, c) && PositiveEntries(o.change)
    && (forall v :: v in o.change ==> IsChangeBundle(v, c))
    && IsFee(o.inputs, outputs, imp, c, o.fee)
  }

  /** Even all the UTxO of the wallet do not cover outputs, deposit and their own fee. */
  ghost predicate Hopeless(s: UtxoSelection, outputs: seq<Value>, imp: Implicit, c: Constraints) {
    exists all, fee :: multiset(all) == AllUtxo(s) && IsFee(all, outputs, imp, c, fee)
      && Excess(all, outputs, imp, fee, Lovelace) < 0
  }

  /** No fee, or the estimated fee when the selection covers it. */
  ghost predicate IsTriedFee(utxo: seq<Utxo>, outputs: seq<Value>, imp: Implicit, c: Constraints, fee: nat) {
    fee == 0 || (IsFee(utxo, outputs, imp, c, fee) && Excess(utxo, outputs, imp, fee, Lovelace) >= 0)
  }

  /** A selection that the wallet comes to from `s`, and a fee that is tried with it. */
  ghost predicate IsTried(s: UtxoSelection, outputs: seq<Value>, imp: Implicit, c: Constraints,
                          utxo: seq<Utxo>, fee: nat)
  {
    multiset(s.selected) <= multiset(utxo) <= AllUtxo(s) && IsTriedFee(utxo, outputs, imp, c, fee)
  }

  ghost predicate NoChange(all: multiset<Utxo>, outputs: seq<Value>, imp: Implicit, c: Constraints,
                           utxo: seq<Utxo>, fee: nat)
  {
    || (multiset(utxo) == all && BelowMinimum(utxo, outputs, imp, fee, c))
    || CannotSplit(utxo, outputs, imp, fee, c)
    || TokenTooLarge(utxo, outputs, imp, fee, c)
  }

  /**
    There is no change for some selection at some fee: not even the whole wallet reaches the minimum coin
    quantity, or the tokens of a selection cannot be cut to size.
   */
  ghost predicate Depleted(s: UtxoSelection, outputs: seq<Value>, imp: Implicit, c: Constraints) {
    exists utxo, fee :: IsTried(s, outputs, imp, c, utxo, fee) && NoChange(AllUtxo(s), outputs, imp, c, utxo, fee)
  }

  /** Some selection has nothing of an asset that an output asks for. */
  ghost predicate Missing(s: UtxoSelection, outputs: seq<Value>, imp: Implicit) {
    exists utxo :: multiset(s.selected) <= multiset(utxo) <= AllUtxo(s) && NothingOf(utxo, outputs, imp)
  }

  /** What each failure says about the wallet. */
  ghost predicate Explains(s: UtxoSelection, outputs: seq<Value>, imp: Implicit, c: Constraints, error: Failure) {
    match error
    case UtxoBalanceInsufficient => Hopeless(s, outputs, imp, c)
    case UtxoFullyDepleted => Depleted(s, outputs, imp, c)
    case DivisionByZero => Missing(s, outputs, imp)
  }

  /** Why another UTxO is drawn: there is no change with the minimum, or the fee is not covered. */
  ghost predicate NeedsMore(utxo: seq<Utxo>, outputs: seq<Value>, imp: Implicit, c: Constraints) {
    || BelowMinimum(utxo, outputs, imp, 0, c)
    || exists fee ::
         && IsFee(utxo, outputs, imp, c, fee)
         && (Excess(utxo, outputs, imp, fee, Lovelace) < 0 || BelowMinimum(utxo, outputs, imp, fee, c))
  }

  /** The selection after `n` more UTxO. */
  function Drawn(pick: UtxoSelection -> UtxoSelection, s: UtxoSelection, n: nat): UtxoSelection
    decreases n
  {
    if n == 0 then s else Drawn(pick, pick(s), n - 1)
  }

  /** `end` is reached from `s` by drawing, and every selection on the way needed more. */
  ghost predicate IsDrawn(s: UtxoSelection, outputs: seq<Value>, imp: Implicit, c: Constraints,
                          pick: UtxoSelection -> UtxoSelection, n: nat, end: UtxoSelection)
  {
    && Drawn(pick, s, n) == end
    && forall k: nat :: k < n ==> NeedsMore(Drawn(pick, s, k).selected, outputs, imp, c)
  }

  /** UTxO are drawn only while more is needed. */
  ghost predicate DrawsNeeded(s: UtxoSelection, outputs: seq<Value>, imp: Implicit, c: Constraints,
                              pick: UtxoSelection -> UtxoSelection, o: Outcome)
  {
    exists n :: IsDrawn(s, outputs, imp, c, pick, n, UtxoSelection(o.inputs, o.remaining))
  }

  lemma DrawnAfterMove(s: UtxoSelection, outputs: seq<Value>, imp: Implicit, c: Constraints,
                       pick: UtxoSelection -> UtxoSelection, o: Outcome)
    requires NeedsMore(s.selected, outputs, imp, c) && DrawsNeeded(pick(s), outputs, imp, c, pick, o)
    ensures DrawsNeeded(s, outputs, imp, c, pick, o)
  {
    var end := UtxoSelection(o.inputs, o.remaining);
    var n: nat :| IsDrawn(pick(s), outputs, imp, c, pick, n, end);
    forall k: nat | k < n + 1 ensures NeedsMore(Drawn(pick, s, k).selected, outputs, imp, c) {
      if k > 0 { assert Drawn(pick, s, k) == Drawn(pick, pick(s), k - 1); }
    }
    assert IsDrawn(s, outputs, imp, c, pick, n + 1, end);
  }

  lemma SoundAfterMove(s: UtxoSelection, s': UtxoSelection, outputs: seq<Value>, imp: Implicit, c: Constraints,
                       o: Outcome)
    requires MovesOne(s, s') && IsSound(s', outputs, imp, c, o)
    ensures IsSound(s, outputs, imp, c, o)
  {
    MoveKeepsUtxo(s, s');
    forall a | WalletNonNegative(s, Asset(a)) && Covered(s.selected, outputs, imp, 0, Asset(a))
      ensures Balances(o.inputs, outputs, imp, o.fee, o.change, Asset(a))
    {
      MoveKeepsCover(s, s', outputs, imp, 0, Asset(a));
    }
  }

  lemma ExplainsAfterMove(s: UtxoSelection, s': UtxoSelection, outputs: seq<Value>, imp: Implicit, c: Constraints,
                          e: Failure)
    requires AllUtxo(s) == AllUtxo(s') && multiset(s.selected) <= multiset(s'.selected)
    requires Explains(s', outputs, imp, c, e)
    ensures Explains(s, outputs, imp, c, e)
  {
    match e
    case UtxoBalanceInsufficient =>
    case UtxoFullyDepleted =>
      var utxo, fee :| IsTried(s', outputs, imp, c, utxo, fee) && NoChange(AllUtxo(s'), outputs, imp, c, utxo, fee);
      assert IsTried(s, outputs, imp, c, utxo, fee);
    case DivisionByZero =>
      var utxo :| multiset(s'.selected) <= multiset(utxo) <= AllUtxo(s') && NothingOf(utxo, outputs, imp);
      assert multiset(s.selected) <= multiset(utxo);
  }

  /** A failure of the stages at the selection `s` itself. */
  lemma FailsHere(s: UtxoSelection, outputs: seq<Value>, imp: Implicit, c: Constraints, fee: nat, e: Failure)
    requires IsTriedFee(s.selected, outputs, imp, c, fee)
    requires
      || (e == DivisionByZero && NothingOf(s.selected, outputs, imp))
      || (e == UtxoFullyDepleted && NoChange(AllUtxo(s), outputs, imp, c, s.selected, fee))
    ensures Explains(s, outputs, imp, c, e)
  {
    assert multiset(s.selected) <= AllUtxo(s);
    assert IsTried(s, outputs, imp, c, s.selected, fee);
  }

  /** A bundle that passed the stages and still exceeds the limit is a single token. */
  lemma OversizedIsSingle(utxo: seq<Utxo>, outputs: seq<Value>, imp: Implicit, fee: nat, c: Constraints,
                          bundles: seq<Value>)
    requires IsSplit(utxo, outputs, imp, fee, c, bundles) && !WithinSize(bundles, c)
    ensures TokenTooLarge(utxo, outputs, imp, fee, c)
  {
    var i :| 0 <= i < |bundles| && bundles[i].assets.Some? && c.exceeds(bundles[i].assets.value);
    var v := bundles[i];
    assert v in bundles && IsChangeBundle(v, c);
    assert |v.assets.value| <= 1;
  }

  /** The stages and the final validation, for one fee. */
  method ChangeAtFee(s: UtxoSelection, outputs: seq<Value>, txAssets: seq<AssetId>, imp: Implicit, fee: nat,
                     c: Constraints)
    returns (r: Result<Option<seq<Value>>, Failure>)
    requires ValidArgs(outputs, txAssets, imp) && IsTriedFee(s.selected, outputs, imp, c, fee)
    ensures r.Err? ==> Explains(s, outputs, imp, c, r.error)
    ensures r == Ok(None) ==> BelowMinimum(s.selected, outputs, imp, fee, c)
    ensures r.Ok? && r.value.Some? ==> IsChange(s.selected, outputs, imp, fee, c, r.value.value)
  {
    r := ComputeChangeBundles(s.selected, outputs, txAssets, imp, fee, c);
    if r.Err? {
      FailsHere(s, outputs, imp, c, fee, r.error);
    } else if r.value.Some? {
      var valid := ValidateChangeBundles(r.value.value, c.exceeds);
      if valid.Err? {
        OversizedIsSingle(s.selected, outputs, imp, fee, c, r.value.value);
        FailsHere(s, outputs, imp, c, fee, valid.error);
        return Err(valid.error);
      }
    }
  }

  lemma DirectlySound(s: UtxoSelection, outputs: seq<Value>, imp: Implicit, c: Constraints, o: Outcome)
    requires o.inputs == s.selected && o.remaining == s.remaining && IsFee(s.selected, outputs, imp, c, o.fee)
    requires Requested(outputs, imp, o.fee, Lovelace) <= Selected(s.selected, imp, Lovelace)
    requires IsChange(s.selected, outputs, imp, o.fee, c, o.change)
    ensures IsSound(s, outputs, imp, c, o)
  {
    if NonNegative(outputs, Lovelace) && WalletNonNegative(s, Lovelace) {
      WalletValues(s, Lovelace);
      assert Backed(s.selected, outputs, imp, o.fee, Lovelace);
    }
    forall a | WalletNonNegative(s, Asset(a)) && Covered(s.selected, outputs, imp, 0, Asset(a))
      ensures Balances(o.inputs, outputs, imp, o.fee, o.change, Asset(a))
    {
      WalletValues(s, Asset(a));
      assert Backed(s.selected, outputs, imp, o.fee, Asset(a));
    }
  }

  /** recomputeChangeAndAdjustForFeeWithExtraUtxo, after there was no change at `fee` or the fee was not covered. */
  method RecomputeWithExtraUtxo(s: UtxoSelection, outputs: seq<Value>, txAssets: seq<AssetId>, imp: Implicit,
                                c: Constraints, pick: UtxoSelection -> UtxoSelection, ghost fee: nat)
    returns (r: Result<Outcome, Failure>)
    requires ValidArgs(outputs, txAssets, imp) && IsPick(pick)
    requires NeedsMore(s.selected, outputs, imp, c)
    requires s.remaining == [] ==>
      IsTriedFee(s.selected, outputs, imp, c, fee) && BelowMinimum(s.selected, outputs, imp, fee, c)
    ensures r.Ok? ==> IsSound(s, outputs, imp, c, r.value)
    ensures r.Ok? ==> DrawsNeeded(s, outputs, imp, c, pick, r.value)
    ensures r.Err? ==> Explains(s, outputs, imp, c, r.error)
    decreases |s.remaining|, 0
  {
    if |s.remaining| == 0 {
      assert multiset(s.selected) == AllUtxo(s);
      FailsHere(s, outputs, imp, c, fee, UtxoFullyDepleted);
      return Err(UtxoFullyDepleted);
    }
    var s' := pick(s);
    MoveKeepsUtxo(s, s');
    r := ComputeChangeAndAdjustForFee(s', outputs, txAssets, imp, c, pick);
    if r.Ok? {
      SoundAfterMove(s, s', outputs, imp, c, r.value);
      DrawnAfterMove(s, outputs, imp, c, pick, r.value);
    } else {
      ExplainsAfterMove(s, s', outputs, imp, c, r.error);
    }
  }

  /**
    computeChangeAndAdjustForFee.  Terminates because every retry moves one UTxO out of `remaining`.
    Each failure names something the wallet cannot do.
   */
  method ComputeChangeAndAdjustForFee(s: UtxoSelection, outputs: seq<Value>, txAssets: seq<AssetId>, imp: Implicit,
                                      c: Constraints, pick: UtxoSelection -> UtxoSelection)
    returns (r: Result<Outcome, Failure>)
    requires ValidArgs(outputs, txAssets, imp) && IsPick(pick)
    ensures r.Ok? ==> IsSound(s, outputs, imp, c, r.value)
    ensures r.Ok? ==> DrawsNeeded(s, outputs, imp, c, pick, r.value)
    ensures r.Err? ==> Explains(s, outputs, imp, c, r.error)
    decreases |s.remaining|, 1
  {
    var draft := ChangeAtFee(s, outputs, txAssets, imp, 0, c);
    if draft.Err? { return Err(draft.error); }
    if draft.value.None? {
      r := RecomputeWithExtraUtxo(s, outputs, txAssets, imp, c, pick, 0);
      return;
    }
    var fee := c.estimate(s.selected, draft.value.value);
    assert IsFee(s.selected, outputs, imp, c, fee);
    if Requested(outputs, imp, fee, Lovelace) > Selected(s.selected, imp, Lovelace) {
      if |s.remaining| == 0 {
        assert multiset(s.selected) == AllUtxo(s);
        return Err(UtxoBalanceInsufficient);
      }
      r := RecomputeWithExtraUtxo(s, outputs, txAssets, imp, c, pick, fee);
      return;
    }
    var final := ChangeAtFee(s, outputs, txAssets, imp, fee, c);
    if final.Err? { return Err(final.error); }
    if final.value.None? {
      r := RecomputeWithExtraUtxo(s, outputs, txAssets, imp, c, pick, fee);
      return;
    }
    var o := Outcome(final.value.value, fee, s.selected, s.remaining);
    DirectlySound(s, outputs, imp, c, o);
    assert IsDrawn(s, outputs, imp, c, pick, 0, UtxoSelection(o.inputs, o.remaining));
    r := Ok(o);
  }

  // ---------------------------------------------------------------- what a split needs

  /** Some output's coin share is at most `coins`. */
  predicate HasShare(utxo: seq<Utxo>, outputs: seq<Value>, imp: Implicit, fee: nat, coins: int) {
    var requested, change := Requested(outputs, imp, fee, Lovelace), Excess(utxo, outputs, imp, fee, Lovelace);
    exists i :: 0 <= i < |outputs| && CoinShare(outputs[i], requested, change) <= coins
  }

  lemma GroupHasShare(utxo: seq<Utxo>, outputs: seq<Value>, imp: Implicit, fee: nat, drafts: seq<Value>, v: Value,
                      group: seq<Value>)
    requires IsDraft(utxo, outputs, imp, fee, drafts) && outputs != [] && Backed(utxo, outputs, imp, fee, Lovelace)
    requires group != [] && multiset(group) <= multiset(StripAll(drafts)) && HoldsTotal(v, group)
    ensures HasShare(utxo, outputs, imp, fee, v.coins)
  {
    forall k | 0 <= k < |group|
      ensures exists i :: 0 <= i < |drafts| && group[k] == Stripped(drafts[i])
    {
      assert group[k] in multiset(group);
      var i := InMultiset(StripAll(drafts), group[k]);
    }
    assert NonNegative(group, Lovelace) by {
      forall k | 0 <= k < |group| ensures Amount(group[k], Lovelace) >= 0 {
        var i :| 0 <= i < |drafts| && group[k] == Stripped(drafts[i]);
        assert Amount(drafts[i], Lovelace) >= 0;
      }
    }
    TotalNonNegative(group, Lovelace);
    assert v.coins == Amount(v, Lovelace) >= Amount(group[0], Lovelace);
    var i :| 0 <= i < |drafts| && group[0] == Stripped(drafts[i]);
    assert KeepsShare(utxo, outputs, imp, fee, outputs[i], drafts[i]);
  }

  lemma {:induction false} GroupWithin(groups: seq<seq<Value>>, k: nat)
    requires k < |groups|
    ensures multiset(groups[k]) <= Members(groups)
  {
    if k < |groups| - 1 { GroupWithin(groups[..|groups| - 1], k); }
  }

  /** Merging leaves every bundle at least the coin share of an output. */
  lemma MergedHasShare(utxo: seq<Utxo>, outputs: seq<Value>, imp: Implicit, fee: nat, c: Constraints,
                       bundles: seq<Value>, v: Value)
    requires IsMerged(utxo, outputs, imp, fee, c, bundles) && v in bundles && outputs != []
    requires Backed(utxo, outputs, imp, fee, Lovelace)
    ensures HasShare(utxo, outputs, imp, fee, v.coins)
  {
    var drafts :| IsDraft(utxo, outputs, imp, fee, drafts) && IsMerge(drafts, bundles, c.minCoin);
    var all :| IsGrouped(StripAll(drafts), all, c.minCoin) && bundles == DropEmpty(all);
    DropEmptyKeeps(all);
    var groups :| AreGroups(groups, multiset(StripAll(drafts)), all, c.minCoin);
    var k :| 0 <= k < |all| && all[k] == v;
    GroupWithin(groups, k);
    GroupHasShare(utxo, outputs, imp, fee, drafts, v, groups[k]);
  }

  /** A way to cut a token map into pieces, each within the limit or a single token, and none too small. */
  ghost predicate IsAcceptableCut(m: TokenMap, pieces: seq<TokenMap>, c: Constraints) {
    IsPartition(m, pieces) && AreFull(pieces, c.exceeds) && forall p :: p in pieces ==> FitsOrSingle(p, c.exceeds)
  }

  /** Quantities that the wallet and the mint have. */
  predicate WithinMeans(m: TokenMap, all: seq<Utxo>, imp: Implicit) {
    forall a :: a in m ==> 0 < m[a] <= Selected(all, imp, Asset(a))
  }

  lemma RestNonNegative(utxo: seq<Utxo>, j: nat, t: Token)
    requires j < |utxo| && NonNegative(ToValues(utxo), t)
    ensures NonNegative(ToValues(RemoveAt(utxo, j)), t)
  {
    forall i | 0 <= i < |RemoveAt(utxo, j)| ensures Amount(RemoveAt(utxo, j)[i].value, t) >= 0 {
      var k := if i < j then i else i + 1;
      assert RemoveAt(utxo, j)[i] == utxo[k] && Amount(ToValues(utxo)[k], t) >= 0;
    }
  }

  lemma {:induction false} PartTotal(part: seq<Utxo>, all: seq<Utxo>, t: Token)
    requires multiset(part) <= multiset(all) && NonNegative(ToValues(all), t)
    ensures Total(ToValues(part), t) <= Total(ToValues(all), t)
    decreases |part|
  {
    if part == [] {
      TotalNonNegative(ToValues(all), t);
    } else {
      var j := PartStep(part, all);
      RestNonNegative(all, j, t);
      PartTotal(part[..|part| - 1], RemoveAt(all, j), t);
      assert ToValues(part)[..|part| - 1] == ToValues(part[..|part| - 1]);
      UtxoTotalRemove(all, j, t);
    }
  }

  /** What a bundle of balancing change holds is within the means of the wallet. */
  lemma BundleWithinMeans(utxo: seq<Utxo>, all: seq<Utxo>, outputs: seq<Value>, imp: Implicit, fee: nat,
                          bundles: seq<Value>, v: Value)
    requires multiset(utxo) <= multiset(all) && forall t :: NonNegative(ToValues(all), t)
    requires forall t :: Backed(utxo, outputs, imp, fee, t)
    requires BalancesBacked(utxo, outputs, imp, fee, bundles) && v in bundles
    ensures WithinMeans(Entries(v), all, imp)
  {
    var i :| 0 <= i < |bundles| && bundles[i] == v;
    forall a | a in Entries(v) ensures 0 < Entries(v)[a] <= Selected(all, imp, Asset(a)) {
      var t := Asset(a);
      assert Backed(utxo, outputs, imp, fee, t) && NonNegative(ToValues(all), t);
      PartTotal(utxo, all, t);
      assert NonNegative(bundles, t);
      TotalNonNegative(bundles, t);
      TotalNonNegative(outputs, t);
      assert Entries(v)[a] == Amount(bundles[i], t) <= Total(bundles, t);
    }
  }

  /** `need` reaches for the minima of every acceptable cut of the tokens at hand. */
  ghost predicate CutsNeed(utxo: seq<Utxo>, imp: Implicit, c: Constraints, need: int) {
    forall m, pieces :: WithinMeans(m, utxo, imp) && IsAcceptableCut(m, pieces, c) ==>
      Total(MinimumValues(pieces, c.minCoin), Lovelace) <= need
  }

  lemma MergedCanSplit(utxo: seq<Utxo>, outputs: seq<Value>, imp: Implicit, fee: nat, c: Constraints, need: int,
                       bundles: seq<Value>, v: Value, pieces: seq<TokenMap>)
    requires outputs != [] && forall t :: Backed(utxo, outputs, imp, fee, t)
    requires CutsNeed(utxo, imp, c, need) && forall coins :: HasShare(utxo, outputs, imp, fee, coins) ==> coins >= need
    requires IsMerged(utxo, outputs, imp, fee, c, bundles) && v in bundles
    ensures !CutFails(v, pieces, c.minCoin, c.exceeds)
  {
    MergedHasShare(utxo, outputs, imp, fee, c, bundles, v);
    forall t ensures NonNegative(ToValues(utxo), t) { assert Backed(utxo, outputs, imp, fee, t); }
    BundleWithinMeans(utxo, utxo, outputs, imp, fee, bundles, v);
    assert IsAcceptableCut(Entries(v), pieces, c) ==> Total(MinimumValues(pieces, c.minCoin), Lovelace) <= need;
  }

  /** Coin shares that reach for the minima of every acceptable cut can always be split. */
  lemma SharesSplit(utxo: seq<Utxo>, outputs: seq<Value>, imp: Implicit, fee: nat, c: Constraints, need: int)
    requires outputs != [] && forall t :: Backed(utxo, outputs, imp, fee, t)
    requires CutsNeed(utxo, imp, c, need) && forall coins :: HasShare(utxo, outputs, imp, fee, coins) ==> coins >= need
    ensures !CannotSplit(utxo, outputs, imp, fee, c)
  {
    forall bundles: seq<Value>, v: Value, pieces: seq<TokenMap>
      | IsMerged(utxo, outputs, imp, fee, c, bundles) && v in bundles
      ensures !CutFails(v, pieces, c.minCoin, c.exceeds)
    {
      MergedCanSplit(utxo, outputs, imp, fee, c, need, bundles, v, pieces);
    }
  }

  // ---------------------------------------------------------------- wallets that cannot fail

  /** The selection covers every token, and no UTxO of the wallet is negative. */
  ghost predicate CoversAll(s: UtxoSelection, outputs: seq<Value>, imp: Implicit) {
    forall t :: WalletNonNegative(s, t) && Covered(s.selected, outputs, imp, 0, t)
  }

  /** The selection covers every token when there is no fee. */
  ghost predicate BacksAll(utxo: seq<Utxo>, outputs: seq<Value>, imp: Implicit) {
    forall t :: Backed(utxo, outputs, imp, 0, t)
  }

  /** A value that wallet and mint could make up. */
  predicate IsWithin(v: Value, all: seq<Utxo>, imp: Implicit) {
    WithinMeans(Entries(v), all, imp) && 0 <= v.coins <= Selected(all, imp, Lovelace)
  }

  /**
    `least` reaches the minimum coin quantity of anything the wallet could make up, and `most` the fee of every
    covering part of the wallet with acceptable change; the wallet has both on top of what is requested, and
    nothing it could make up is too large.
   */
  ghost predicate Enough(all: seq<Utxo>, outputs: seq<Value>, imp: Implicit, c: Constraints, least: nat, most: nat) {
    && (forall v :: IsWithin(v, all, imp) ==> c.minCoin(v) <= least)
    && (forall utxo: seq<Utxo>, fee: nat ::
          (multiset(utxo) <= multiset(all) && BacksAll(utxo, outputs, imp) && IsFee(utxo, outputs, imp, c, fee)) ==>
            fee <= most)
    && (forall m :: WithinMeans(m, all, imp) ==> !c.exceeds(m))
    && Excess(all, outputs, imp, most, Lovelace) >= least
  }

  /** A selection between the starting one and the whole wallet has amounts in between. */
  lemma TriedTotal(s: UtxoSelection, all: seq<Utxo>, utxo: seq<Utxo>, t: Token)
    requires multiset(s.selected) <= multiset(utxo) <= multiset(all) == AllUtxo(s) && WalletNonNegative(s, t)
    ensures NonNegative(ToValues(utxo), t)
    ensures Total(ToValues(s.selected), t) <= Total(ToValues(utxo), t) <= Total(ToValues(all), t)
  {
    forall u | u in utxo ensures Amount(u.value, t) >= 0 {
      assert u in multiset(utxo) && u in AllUtxo(s);
    }
    forall u | u in all ensures Amount(u.value, t) >= 0 {
      assert u in multiset(all);
    }
    PartTotal(s.selected, utxo, t);
    PartTotal(utxo, all, t);
  }

  /** Every selection that is tried covers every token at its fee. */
  lemma TriedBacked(s: UtxoSelection, outputs: seq<Value>, imp: Implicit, c: Constraints, utxo: seq<Utxo>, fee: nat,
                    t: Token)
    requires CoversAll(s, outputs, imp) && IsTried(s, outputs, imp, c, utxo, fee)
    ensures Backed(utxo, outputs, imp, fee, t)
  {
    assert WalletNonNegative(s, t) && Covered(s.selected, outputs, imp, 0, t);
    assert multiset(s.selected + s.remaining) == AllUtxo(s);
    TriedTotal(s, s.selected + s.remaining, utxo, t);
  }

  /** The excess is something the wallet could make up. */
  lemma ExcessIsWithin(utxo: seq<Utxo>, all: seq<Utxo>, outputs: seq<Value>, imp: Implicit, fee: nat, v: Value)
    requires multiset(utxo) <= multiset(all) && forall t :: NonNegative(ToValues(all), t)
    requires forall t :: Backed(utxo, outputs, imp, fee, t)
    requires IsExcess(utxo, outputs, imp, fee, v)
    ensures IsWithin(v, all, imp) && v.coins == Excess(utxo, outputs, imp, fee, Lovelace)
  {
    assert BalancesBacked(utxo, outputs, imp, fee, [v]) by {
      forall t ensures Total([v], t) == Excess(utxo, outputs, imp, fee, t) {
        assert Backed(utxo, outputs, imp, fee, t);
        assert [] + [v] == [v];
        TotalAppend([], v, t);
      }
    }
    assert v in [v];
    BundleWithinMeans(utxo, all, outputs, imp, fee, [v], v);
    assert Backed(utxo, outputs, imp, fee, Lovelace) && NonNegative(ToValues(all), Lovelace);
    assert v.coins == Amount(v, Lovelace);
    PartTotal(utxo, all, Lovelace);
    TotalNonNegative(outputs, Lovelace);
  }

  /** A wallet that a selection covers everything from has nothing negative, and neither has any tried selection. */
  lemma TriedFacts(s: UtxoSelection, all: seq<Utxo>, outputs: seq<Value>, imp: Implicit, c: Constraints,
                   utxo: seq<Utxo>, fee: nat)
    requires CoversAll(s, outputs, imp) && IsTried(s, outputs, imp, c, utxo, fee) && multiset(all) == AllUtxo(s)
    ensures forall t :: NonNegative(ToValues(all), t)
    ensures forall t :: Backed(utxo, outputs, imp, fee, t)
    ensures BacksAll(utxo, outputs, imp)
  {
    forall t ensures NonNegative(ToValues(all), t) && Backed(utxo, outputs, imp, fee, t)
      ensures Backed(utxo, outputs, imp, 0, t)
    {
      assert WalletNonNegative(s, t);
      forall u | u in all ensures Amount(u.value, t) >= 0 { assert u in multiset(all); }
      TriedBacked(s, outputs, imp, c, utxo, fee, t);
      TriedBacked(s, outputs, imp, c, utxo, 0, t);
    }
  }

  lemma EnoughReachesMinimum(s: UtxoSelection, all: seq<Utxo>, outputs: seq<Value>, imp: Implicit, c: Constraints,
                             least: nat, most: nat, utxo: seq<Utxo>, fee: nat)
    requires CoversAll(s, outputs, imp) && Enough(all, outputs, imp, c, least, most)
    requires IsTried(s, outputs, imp, c, utxo, fee) && multiset(utxo) == multiset(all) == AllUtxo(s)
    ensures !BelowMinimum(utxo, outputs, imp, fee, c)
  {
    TriedFacts(s, all, outputs, imp, c, utxo, fee);
    UtxoTotalPermutation(utxo, all, Lovelace);
    assert fee <= most;
    forall v | IsExcess(utxo, outputs, imp, fee, v) ensures Satisfies(v, c.minCoin) {
      ExcessIsWithin(utxo, all, outputs, imp, fee, v);
      assert c.minCoin(v) <= least;
    }
  }

  /** Where nothing the wallet could make up is too large, nothing has to be split. */
  lemma NothingTooLarge(utxo: seq<Utxo>, all: seq<Utxo>, outputs: seq<Value>, imp: Implicit, c: Constraints, fee: nat)
    requires multiset(utxo) <= multiset(all) && forall t :: NonNegative(ToValues(all), t)
    requires forall t :: Backed(utxo, outputs, imp, fee, t)
    requires forall m :: WithinMeans(m, all, imp) ==> !c.exceeds(m)
    ensures !CannotSplit(utxo, outputs, imp, fee, c) && !TokenTooLarge(utxo, outputs, imp, fee, c)
  {
    forall bundles: seq<Value>, v: Value | BalancesBacked(utxo, outputs, imp, fee, bundles) && v in bundles
      ensures !c.exceeds(Entries(v))
    {
      BundleWithinMeans(utxo, all, outputs, imp, fee, bundles, v);
    }
  }

  lemma EnoughNotDepleted(s: UtxoSelection, all: seq<Utxo>, outputs: seq<Value>, imp: Implicit, c: Constraints,
                          least: nat, most: nat)
    requires CoversAll(s, outputs, imp) && multiset(all) == AllUtxo(s) && Enough(all, outputs, imp, c, least, most)
    ensures !Depleted(s, outputs, imp, c)
  {
    forall utxo: seq<Utxo>, fee: nat | IsTried(s, outputs, imp, c, utxo, fee)
      ensures !NoChange(AllUtxo(s), outputs, imp, c, utxo, fee)
    {
      if multiset(utxo) == multiset(all) {
        EnoughReachesMinimum(s, all, outputs, imp, c, least, most, utxo, fee);
      }
      TriedFacts(s, all, outputs, imp, c, utxo, fee);
      NothingTooLarge(utxo, all, outputs, imp, c, fee);
    }
  }

  /** Positive outputs that are covered ask for nothing that is not there. */
  lemma CoveredNotMissing(s: UtxoSelection, outputs: seq<Value>, imp: Implicit)
    requires CoversAll(s, outputs, imp) && PositiveEntries(outputs)
    ensures !Missing(s, outputs, imp)
  {
    var all := s.selected + s.remaining;
    forall utxo: seq<Utxo>, i: int, a: AssetId
      | multiset(s.selected) <= multiset(utxo) <= AllUtxo(s) && 0 <= i < |outputs| && a in Entries(outputs[i])
      ensures Selected(utxo, imp, Asset(a)) > 0
    {
      var t := Asset(a);
      assert WalletNonNegative(s, t) && Covered(s.selected, outputs, imp, 0, t);
      TriedTotal(s, all, utxo, t);
      TotalNonNegative(outputs, t);
      assert Amount(outputs[i], t) > 0;
    }
  }

  /** An output with a zero quantity of an asset that is not there divides by zero, though everything is covered. */
  lemma ZeroRequestDivides(a: AssetId, u: Utxo, n: nat, s: UtxoSelection, outputs: seq<Value>, imp: Implicit)
    requires u.value == Value(n, None) && s == UtxoSelection([u], []) && imp == Implicit(0, 0, map[], map[])
    requires outputs == [Value(n, Some(map[a := 0]))]
    ensures CoversAll(s, outputs, imp) && NothingOf(s.selected, outputs, imp)
  {
    forall t ensures WalletNonNegative(s, t) && Covered(s.selected, outputs, imp, 0, t) {
      assert AllUtxo(s) == multiset{u};
      SingleTotal(ToValues(s.selected), t);
      SingleTotal(outputs, t);
    }
    SingleTotal(ToValues(s.selected), Asset(a));
    assert a in Entries(outputs[0]);
  }

  /** With enough for the minimum and the fee, no failure of the change computation can be explained. */
  lemma EnoughNeverFails(s: UtxoSelection, all: seq<Utxo>, outputs: seq<Value>, imp: Implicit, c: Constraints,
                         least: nat, most: nat, error: Failure)
    requires CoversAll(s, outputs, imp) && PositiveEntries(outputs)
    requires multiset(all) == AllUtxo(s) && Enough(all, outputs, imp, c, least, most)
    ensures !Explains(s, outputs, imp, c, error)
  {
    match error
    case UtxoBalanceInsufficient =>
      forall utxo: seq<Utxo>, fee: nat | multiset(utxo) == AllUtxo(s) && IsFee(utxo, outputs, imp, c, fee)
        ensures Excess(utxo, outputs, imp, fee, Lovelace) >= 0
      {
        UtxoTotalPermutation(utxo, all, Lovelace);
        assert IsTried(s, outputs, imp, c, utxo, 0);
        TriedFacts(s, all, outputs, imp, c, utxo, 0);
        assert fee <= most;
      }
    case UtxoFullyDepleted => EnoughNotDepleted(s, all, outputs, imp, c, least, most);
    case DivisionByZero => CoveredNotMissing(s, outputs, imp);
  }

  // ---------------------------------------------------------------- fees that grow with the transaction

  /** With nothing too large there is at most one change bundle per output, and each is within the means. */
  lemma ChangeIsSmall(utxo: seq<Utxo>, all: seq<Utxo>, outputs: seq<Value>, imp: Implicit, c: Constraints,
                      change: seq<Value>)
    requires multiset(utxo) <= multiset(all) && forall t :: NonNegative(ToValues(all), t)
    requires BacksAll(utxo, outputs, imp) && forall m :: WithinMeans(m, all, imp) ==> !c.exceeds(m)
    requires IsSplit(utxo, outputs, imp, 0, c, change)
    ensures |change| <= Max(1, |outputs|) && forall v :: v in change ==> WithinMeans(Entries(v), all, imp)
  {
    var merged :| IsMerged(utxo, outputs, imp, 0, c, merged) && IsSplitOf(merged, change, c.minCoin, c.exceeds);
    var cuts :| AreCuts(cuts, merged, change, c.minCoin, c.exceeds);
    forall v | v in merged ensures WithinMeans(Entries(v), all, imp) {
      BundleWithinMeans(utxo, all, outputs, imp, 0, merged, v);
    }
    forall i | 0 <= i < |merged| ensures WithinLimit(merged[i], c.exceeds) {
      assert merged[i] in merged;
    }
    NothingToSplit(cuts, merged, change, c.minCoin, c.exceeds);
  }

  lemma LinearBound(base: nat, perInput: nat, inputs: nat, moreInputs: nat, perBundle: nat, bundles: nat,
                    moreBundles: nat)
    requires inputs <= moreInputs && bundles <= moreBundles
    ensures base + perInput * inputs + perBundle * bundles <= base + perInput * moreInputs + perBundle * moreBundles
  {
  }

  /** A bound on the fee that grows with the inputs and the change bundles, for change within the means. */
  ghost predicate FeeGrowsBy(all: seq<Utxo>, imp: Implicit, c: Constraints, base: nat, perInput: nat, perBundle: nat) {
    forall utxo, change :: (forall v :: v in change ==> WithinMeans(Entries(v), all, imp)) ==>
      c.estimate(utxo, change) <= base + perInput * |utxo| + perBundle * |change|
  }

  /**
    For a fee that grows with the transaction a wallet has enough when it can pay the fee for spending all of
    itself with one change bundle per output, and a minimum coin quantity.
   */
  lemma GrowingFeeEnough(all: seq<Utxo>, outputs: seq<Value>, imp: Implicit, c: Constraints, least: nat, base: nat,
                         perInput: nat, perBundle: nat, most: nat)
    requires forall t :: NonNegative(ToValues(all), t)
    requires forall v :: IsWithin(v, all, imp) ==> c.minCoin(v) <= least
    requires forall m :: WithinMeans(m, all, imp) ==> !c.exceeds(m)
    requires FeeGrowsBy(all, imp, c, base, perInput, perBundle)
    requires most == base + perInput * |all| + perBundle * Max(1, |outputs|)
    requires Excess(all, outputs, imp, most, Lovelace) >= least
    ensures Enough(all, outputs, imp, c, least, most)
  {
    forall utxo: seq<Utxo>, fee: nat
      | multiset(utxo) <= multiset(all) && BacksAll(utxo, outputs, imp) && IsFee(utxo, outputs, imp, c, fee)
      ensures fee <= most
    {
      var change :| IsChange(utxo, outputs, imp, 0, c, change) && fee == c.estimate(utxo, change);
      ChangeIsSmall(utxo, all, outputs, imp, c, change);
      PartLength(utxo, all);
      LinearBound(base, perInput, |utxo|, |all|, perBundle, |change|, Max(1, |outputs|));
    }
  }
}
