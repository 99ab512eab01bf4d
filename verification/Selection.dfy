/**
  roundRobinRandomImprove: the selection that feeds the change computation.  Random choices are
  arbitrary choices here, so every statement holds for every outcome of `random`.
 */
module Selection {
  import opened Change
  import opened RequestedChange
  import opened Seqs
  import opened Sorting
  import opened Values
  import opened Wrappers

  datatype SelectFailure = Insufficient | ChangeFailed(reason: Failure) | MaximumInputCountExceeded

  // ---------------------------------------------------------------- arguments

  /** What a mint and the coins outside inputs and outputs add and take. */
  function ImplicitOf(input: nat, deposit: nat, mint: TokenMap): (imp: Implicit)
    ensures forall a :: Gained(imp, Asset(a)) - Spent(imp, 0, Asset(a)) == Quantity(mint, a)
    ensures forall a :: Gained(imp, Asset(a)) >= 0 && Spent(imp, 0, Asset(a)) >= 0
  {
    var (tokensInput, tokensSpend) := MintToImplicitTokens(mint);
    Implicit(input, deposit, tokensInput, tokensSpend)
  }

  /** The assets of a transaction are those of its outputs and of its mint. */
  ghost predicate ListsAssets(txAssets: seq<AssetId>, outputs: seq<Value>, mint: TokenMap) {
    forall a :: a in txAssets <==> a in mint || exists i :: 0 <= i < |outputs| && a in Entries(outputs[i])
  }

  /** preProcessArgs: lists the transaction's assets and splits its mint into gained and spent tokens. */
  method PreProcessArgs(outputs: seq<Value>, input: nat, deposit: nat, mint: TokenMap)
    returns (txAssets: seq<AssetId>, imp: Implicit)
    ensures ValidArgs(outputs, txAssets, imp)
    ensures imp == ImplicitOf(input, deposit, mint) && ListsAssets(txAssets, outputs, mint)
    ensures forall a :: Gained(imp, Asset(a)) - Spent(imp, 0, Asset(a)) == Quantity(mint, a)
    ensures forall a :: Gained(imp, Asset(a)) >= 0 && Spent(imp, 0, Asset(a)) >= 0
    ensures forall t: Token :: t.Lovelace? || t.id in txAssets || Requested(outputs, imp, 0, t) == 0
  {
    txAssets := UniqueTxAssetIds(outputs, mint);
    imp := ImplicitOf(input, deposit, mint);
    ghost var ids := set a | a in txAssets;
    assert KeysWithin(outputs, ids) by {
      forall i, a | 0 <= i < |outputs| && a in Entries(outputs[i]) ensures a in ids { assert a in txAssets; }
    }
    forall t: Token ensures t.Lovelace? || t.id in txAssets || Requested(outputs, imp, 0, t) == 0 {
      if t.Asset? && t.id !in txAssets {
        assert !Leftovers.Untouched(t, txAssets);
        LeftoverExcess([], outputs, txAssets, imp, 0, t);
      }
    }
  }

  /** assertIsBalanceSufficient */
  method IsBalanceSufficient(txAssets: seq<AssetId>, required: seq<Utxo>, available: seq<Utxo>, outputs: seq<Value>,
                             imp: Implicit)
    returns (ok: bool)
    ensures ok <==>
      && |required| + |available| > 0
      && (forall a :: a in txAssets ==> Excess(available + required, outputs, imp, 0, Asset(a)) >= 0)
      && Excess(available + required, outputs, imp, 0, Lovelace) >= 0
  {
    if |required| + |available| == 0 { return false; }
    for n := 0 to |txAssets|
      invariant forall k :: 0 <= k < n ==> Excess(available + required, outputs, imp, 0, Asset(txAssets[k])) >= 0
    {
      if Excess(available + required, outputs, imp, 0, Asset(txAssets[n])) < 0 { return false; }
    }
    ok := Excess(available + required, outputs, imp, 0, Lovelace) >= 0;
  }

  /** The wallet is not empty and can pay for the outputs, the deposit and what is burned. */
  ghost predicate Affordable(required: seq<Utxo>, available: seq<Utxo>, outputs: seq<Value>, input: nat, deposit: nat,
                             mint: TokenMap)
  {
    var wallet := ToValues(available + required);
    && |required| + |available| > 0
    && Total(wallet, Lovelace) + input >= Total(outputs, Lovelace) + deposit
    && forall a :: Total(wallet, Asset(a)) + Quantity(mint, a) >= Total(outputs, Asset(a))
  }

  /** Assets that the transaction does not list are affordable in any case. */
  lemma SufficientIffAffordable(required: seq<Utxo>, available: seq<Utxo>, outputs: seq<Value>, txAssets: seq<AssetId>,
                                input: nat, deposit: nat, mint: TokenMap)
    requires forall t :: WalletNonNegative(UtxoSelection(required, available), t)
    requires var imp := ImplicitOf(input, deposit, mint);
      forall t: Token :: t.Lovelace? || t.id in txAssets || Requested(outputs, imp, 0, t) == 0
    ensures var imp := ImplicitOf(input, deposit, mint);
      Affordable(required, available, outputs, input, deposit, mint) <==>
        && |required| + |available| > 0
        && (forall a :: a in txAssets ==> Excess(available + required, outputs, imp, 0, Asset(a)) >= 0)
        && Excess(available + required, outputs, imp, 0, Lovelace) >= 0
  {
    var imp := ImplicitOf(input, deposit, mint);
    var wallet := ToValues(available + required);
    forall a
      ensures Excess(available + required, outputs, imp, 0, Asset(a))
           == Total(wallet, Asset(a)) + Quantity(mint, a) - Total(outputs, Asset(a))
      ensures a !in txAssets ==> Excess(available + required, outputs, imp, 0, Asset(a)) >= 0
    {
      if a !in txAssets {
        var t := Asset(a);
        assert Requested(outputs, imp, 0, t) == 0;
        assert WalletNonNegative(UtxoSelection(required, available), t);
        assert NonNegative(wallet, t) by {
          forall u | u in available + required ensures Amount(u.value, t) >= 0 {
            assert u in AllUtxo(UtxoSelection(required, available));
          }
        }
        TotalNonNegative(wallet, t);
      }
    }
  }

  // ---------------------------------------------------------------- picking

  /** Moves the entry at `i` of the remaining UTxO to the selected ones. */
  function Move(s: UtxoSelection, i: nat): UtxoSelection
    requires i < |s.remaining|
  {
    UtxoSelection(s.selected + [s.remaining[i]], RemoveAt(s.remaining, i))
  }

  lemma MoveMovesOne(s: UtxoSelection, i: nat)
    requires i < |s.remaining|
    ensures MovesOne(s, Move(s, i))
  {
    RemoveAtMultiset(s.remaining, i);
    var u := s.remaining[i];
    assert u in s.remaining && multiset(Move(s, i).selected) == multiset(s.selected) + multiset{u};
  }

  predicate MoreCoins(u: Utxo, v: Utxo) {
    u.value.coins >= v.value.coins
  }

  /** pickAdditionalLargestUtxo of the large-first strategy: most coins first. */
  function PickLargest(s: UtxoSelection): UtxoSelection {
    if s.remaining == [] then s else Move(s.(remaining := Sort(s.remaining, MoreCoins)), 0)
  }

  lemma LargestMovesOne(s: UtxoSelection)
    requires s.remaining != []
    ensures MovesOne(s, PickLargest(s))
    ensures forall u :: u in s.remaining ==> u.value.coins <= PickLargest(s).selected[|s.selected|].value.coins
  {
    var sorted := Sort(s.remaining, MoreCoins);
    SortIsPermutation(s.remaining, MoreCoins);
    SortIsSorted(s.remaining, MoreCoins);
    SortMembers(s.remaining, MoreCoins);
    MoveMovesOne(s.(remaining := sorted), 0);
    forall u | u in s.remaining
      ensures MoreCoins(sorted[0], u)
    {
      var j :| 0 <= j < |sorted| && sorted[j] == u;
    }
  }

  /** The large-first callback moves exactly one UTxO, and none that remains has more coins. */
  lemma PickLargestIsPick()
    ensures IsPick(PickLargest)
    ensures forall s: UtxoSelection, u :: s.remaining != [] && u in s.remaining ==>
      u.value.coins <= PickLargest(s).selected[|s.selected|].value.coins
  {
    forall s: UtxoSelection | s.remaining != []
      ensures MovesOne(s, PickLargest(s))
      ensures forall u :: u in s.remaining ==> u.value.coins <= PickLargest(s).selected[|s.selected|].value.coins
    {
      LargestMovesOne(s);
    }
  }

  predicate CoinOnly(u: Utxo) { u.value.assets.None? }

  function IndexWhere(utxo: seq<Utxo>, u: Utxo): (i: nat)
    requires u in utxo
    ensures i < |utxo| && utxo[i] == u
  {
    if utxo[0] == u then 0 else 1 + IndexWhere(utxo[1..], u)
  }

  /**
    createPickAdditionalRandomUtxo, for any `choose` standing for `Math.floor(random() * length)`:
    a UTxO without tokens when there is one.
   */
  function PickRandom(choose: seq<Utxo> -> nat, s: UtxoSelection): UtxoSelection
    requires forall p :: p != [] ==> choose(p) < |p|
  {
    if s.remaining == [] then s
    else
      var coinOnly := Filter(s.remaining, CoinOnly);
      FilterMembers(s.remaining, CoinOnly);
      var pickFrom := if |coinOnly| > 0 then coinOnly else s.remaining;
      var picked := pickFrom[choose(pickFrom)];
      assert picked in pickFrom;
      Move(s, IndexWhere(s.remaining, picked))
  }

  lemma PickRandomMovesOne(choose: seq<Utxo> -> nat, s: UtxoSelection)
    requires forall p :: p != [] ==> choose(p) < |p|
    requires s.remaining != []
    ensures MovesOne(s, PickRandom(choose, s))
    ensures (exists u :: u in s.remaining && u.value.assets.None?) ==>
      PickRandom(choose, s).selected[|s.selected|].value.assets.None?
  {
    var coinOnly := Filter(s.remaining, CoinOnly);
    FilterMembers(s.remaining, CoinOnly);
    var pickFrom := if |coinOnly| > 0 then coinOnly else s.remaining;
    var picked := pickFrom[choose(pickFrom)];
    assert picked in pickFrom;
    MoveMovesOne(s, IndexWhere(s.remaining, picked));
    if u :| u in s.remaining && CoinOnly(u) {
      assert u in coinOnly;
    }
  }

  // ---------------------------------------------------------------- round robin

  function Tokens(txAssets: seq<AssetId>): (r: seq<Token>)
    ensures |r| == |txAssets| + 1 && r[|txAssets|] == Lovelace
    ensures forall i :: 0 <= i < |txAssets| ==> r[i] == Asset(txAssets[i])
  {
    seq(|txAssets|, i requires 0 <= i < |txAssets| => Asset(txAssets[i])) + [Lovelace]
  }

  lemma TokenListed(t: Token, txAssets: seq<AssetId>)
    requires t.Lovelace? || t.id in txAssets
    ensures t in Tokens(txAssets)
  {
    if t.Asset? {
      var i :| 0 <= i < |txAssets| && txAssets[i] == t.id;
      assert Tokens(txAssets)[i] in Tokens(txAssets);
    } else {
      assert Tokens(txAssets)[|txAssets|] in Tokens(txAssets);
    }
  }

  /** filterUtxo: every UTxO for Lovelace, those with a nonzero quantity for an asset. */
  predicate Provides(u: Utxo, t: Token) {
    t.Lovelace? || Amount(u.value, t) != 0
  }

  /** improvesSelection: below the target anything helps, above it only what comes closer to twice the target. */
  predicate Improves(selected: seq<Utxo>, u: Utxo, outputs: seq<Value>, imp: Implicit, t: Token) {
    var target := Requested(outputs, imp, 0, t);
    var quantity := Selected(selected, imp, t);
    || quantity < target
    // the quantity of [input] alone includes the implicit input once more, as the code has it
    || Abs(2 * target - (quantity + Selected([u], imp, t))) < Abs(2 * target - quantity)
  }

  /**
    What counts as an improvement: below the target everything, and from the target on what adds something but
    does not overshoot twice the target by more than it was missed before; so never beyond three times the target.
   */
  lemma ImprovesIff(selected: seq<Utxo>, u: Utxo, outputs: seq<Value>, imp: Implicit, t: Token)
    requires Amount(u.value, t) + Gained(imp, t) >= 0
    ensures var target, quantity := Requested(outputs, imp, 0, t), Selected(selected, imp, t);
      var more := Amount(u.value, t) + Gained(imp, t);
      && (Improves(selected, u, outputs, imp, t) <==>
            (quantity < target || 0 < more < 2 * (2 * target - quantity)))
      && (Improves(selected, u, outputs, imp, t) && target <= quantity ==> quantity + more < 3 * target)
  {
    SingleTotal(ToValues([u]), t);
  }

  /** With more selected, what was no improvement is none. */
  lemma ImprovesLess(selected: seq<Utxo>, more: seq<Utxo>, u: Utxo, outputs: seq<Value>, imp: Implicit, t: Token)
    requires Amount(u.value, t) + Gained(imp, t) >= 0 && !Improves(selected, u, outputs, imp, t)
    requires Selected(selected, imp, t) <= Selected(more, imp, t)
    ensures !Improves(more, u, outputs, imp, t)
  {
    ImprovesIff(selected, u, outputs, imp, t);
    ImprovesIff(more, u, outputs, imp, t);
  }

  /** The UTxO has some of a token of the transaction and improved the selection when it came. */
  ghost predicate IsWanted(selected: seq<Utxo>, u: Utxo, outputs: seq<Value>, txAssets: seq<AssetId>, imp: Implicit) {
    exists t ::
      t in Tokens(txAssets) && (t.Lovelace? || Amount(u.value, t) != 0) && Improves(selected, u, outputs, imp, t)
  }

  /** Nothing that remains has the token, or a UTxO of the wallet that has some is no improvement. */
  ghost predicate IsSettled(s: UtxoSelection, outputs: seq<Value>, imp: Implicit, t: Token) {
    || (forall u :: u in s.remaining ==> t.Asset? && Amount(u.value, t) == 0)
    || exists u ::
         u in AllUtxo(s) && (t.Lovelace? || Amount(u.value, t) != 0) && !Improves(s.selected, u, outputs, imp, t)
  }

  /** Every UTxO behind the first `n` was wanted when it was selected. */
  ghost predicate AllWanted(s: UtxoSelection, n: nat, outputs: seq<Value>, txAssets: seq<AssetId>, imp: Implicit) {
    forall k :: n <= k < |s.selected| ==> IsWanted(s.selected[..k], s.selected[k], outputs, txAssets, imp)
  }

  lemma WantedMove(s: UtxoSelection, n: nat, outputs: seq<Value>, txAssets: seq<AssetId>, imp: Implicit, i: nat)
    requires AllWanted(s, n, outputs, txAssets, imp) && i < |s.remaining|
    requires IsWanted(s.selected, s.remaining[i], outputs, txAssets, imp)
    ensures AllWanted(Move(s, i), n, outputs, txAssets, imp)
  {
    var more := Move(s, i).selected;
    forall k | n <= k < |more| ensures IsWanted(more[..k], more[k], outputs, txAssets, imp) {
      assert more[..k] == s.selected[..k];
      if k == |s.selected| { assert s.selected[..k] == s.selected; }
    }
  }

  lemma MoveKeepsExcess(s: UtxoSelection, i: nat, outputs: seq<Value>, imp: Implicit, t: Token)
    requires i < |s.remaining| && WalletNonNegative(s, t)
    ensures Excess(Move(s, i).selected, outputs, imp, 0, t) >= Excess(s.selected, outputs, imp, 0, t)
  {
    var u := s.remaining[i];
    assert u in AllUtxo(s);
    assert ToValues(s.selected + [u]) == ToValues(s.selected) + [u.value];
    TotalAppend(ToValues(s.selected), u.value, t);
  }

  lemma SettledMove(s: UtxoSelection, outputs: seq<Value>, imp: Implicit, t: Token, i: nat)
    requires i < |s.remaining| && WalletNonNegative(s, t) && Gained(imp, t) >= 0 && IsSettled(s, outputs, imp, t)
    ensures IsSettled(Move(s, i), outputs, imp, t)
  {
    MoveMovesOne(s, i);
    MoveKeepsUtxo(s, Move(s, i));
    MoveKeepsExcess(s, i, outputs, imp, t);
    if u :| u in AllUtxo(s) && Provides(u, t) && !Improves(s.selected, u, outputs, imp, t) {
      ImprovesLess(s.selected, Move(s, i).selected, u, outputs, imp, t);
    }
  }

  /** Once no remaining UTxO provides `t`, the selected ones hold all of it. */
  lemma ExhaustedCovers(s: UtxoSelection, all: seq<Utxo>, outputs: seq<Value>, imp: Implicit, t: Token)
    requires multiset(all) == AllUtxo(s)
    requires forall u :: u in s.remaining ==> !Provides(u, t)
    ensures Excess(s.selected, outputs, imp, 0, t) == Excess(all, outputs, imp, 0, t)
  {
    UtxoTotalPermutation(all, s.selected + s.remaining, t);
    assert ToValues(s.selected + s.remaining) == ToValues(s.selected) + ToValues(s.remaining);
    TotalConcat(ToValues(s.selected), ToValues(s.remaining), t);
    forall i | 0 <= i < |s.remaining| ensures Amount(ToValues(s.remaining)[i], t) == 0 {
      assert s.remaining[i] in s.remaining;
    }
    TotalZero(ToValues(s.remaining), t);
  }

  /** assertIsBalanceSufficient has passed on a wallet without negative quantities. */
  ghost predicate Sufficient(w: UtxoSelection, outputs: seq<Value>, txAssets: seq<AssetId>, imp: Implicit) {
    && |w.selected| + |w.remaining| > 0
    && forall t :: t in Tokens(txAssets) ==>
         && WalletNonNegative(w, t) && Gained(imp, t) >= 0
         && Excess(w.remaining + w.selected, outputs, imp, 0, t) >= 0
  }

  /** Mid-loop: the wallet is intact, and every token no longer considered is covered. */
  ghost predicate Selecting(w: UtxoSelection, s: UtxoSelection, tokens: seq<Token>, outputs: seq<Value>,
                            txAssets: seq<AssetId>, imp: Implicit)
  {
    && AllUtxo(s) == AllUtxo(w) && w.selected <= s.selected
    && (forall t :: t in tokens ==> t in Tokens(txAssets))
    && (forall t :: t in Tokens(txAssets) ==>
          t in tokens || (Excess(s.selected, outputs, imp, 0, t) >= 0 && IsSettled(s, outputs, imp, t)))
  }

  lemma SelectMore(w: UtxoSelection, s: UtxoSelection, tokens: seq<Token>, outputs: seq<Value>,
                   txAssets: seq<AssetId>, imp: Implicit, k: nat)
    requires Sufficient(w, outputs, txAssets, imp) && Selecting(w, s, tokens, outputs, txAssets, imp)
    requires k < |s.remaining|
    ensures Selecting(w, Move(s, k), tokens, outputs, txAssets, imp)
  {
    MoveMovesOne(s, k);
    MoveKeepsUtxo(s, Move(s, k));
    forall t | t in Tokens(txAssets)
      ensures Excess(Move(s, k).selected, outputs, imp, 0, t) >= Excess(s.selected, outputs, imp, 0, t)
      ensures IsSettled(s, outputs, imp, t) ==> IsSettled(Move(s, k), outputs, imp, t)
    {
      assert WalletNonNegative(w, t);
      MoveKeepsExcess(s, k, outputs, imp, t);
      if IsSettled(s, outputs, imp, t) { SettledMove(s, outputs, imp, t, k); }
    }
  }

  lemma DropToken(w: UtxoSelection, s: UtxoSelection, tokens: seq<Token>, outputs: seq<Value>,
                  txAssets: seq<AssetId>, imp: Implicit, i: nat)
    requires Selecting(w, s, tokens, outputs, txAssets, imp)
    requires i < |tokens| && Excess(s.selected, outputs, imp, 0, tokens[i]) >= 0
    requires IsSettled(s, outputs, imp, tokens[i])
    ensures Selecting(w, s, RemoveAt(tokens, i), outputs, txAssets, imp)
  {
  }

  lemma ImprovementIsWanted(selected: seq<Utxo>, u: Utxo, outputs: seq<Value>, txAssets: seq<AssetId>, imp: Implicit,
                            t: Token)
    requires t in Tokens(txAssets) && Provides(u, t) && Improves(selected, u, outputs, imp, t)
    ensures IsWanted(selected, u, outputs, txAssets, imp)
  {
  }

  lemma NoImprovementSettles(s: UtxoSelection, u: Utxo, outputs: seq<Value>, imp: Implicit, t: Token)
    requires u in s.remaining && Provides(u, t) && !Improves(s.selected, u, outputs, imp, t)
    ensures IsSettled(s, outputs, imp, t) && Excess(s.selected, outputs, imp, 0, t) >= 0
  {
    assert u in AllUtxo(s);
  }

  lemma ExhaustedSettles(s: UtxoSelection, outputs: seq<Value>, imp: Implicit, t: Token)
    requires forall u :: u in s.remaining ==> !Provides(u, t)
    ensures IsSettled(s, outputs, imp, t)
  {
  }

  /** A remaining UTxO that has the token, chosen at random. */
  method PickCandidate(s: UtxoSelection, t: Token) returns (r: Option<Utxo>)
    ensures r.Some? ==> r.value in s.remaining && Provides(r.value, t)
    ensures r.None? ==> forall u :: u in s.remaining ==> !Provides(u, t)
  {
    var useful := (u: Utxo) => Provides(u, t);
    var candidates := Filter(s.remaining, useful);
    FilterMembers(s.remaining, useful);
    if |candidates| > 0 {
      assert candidates[0] in candidates;
      var u :| u in candidates;
      return Some(u);
    }
    forall u | u in s.remaining ensures !Provides(u, t) { assert u !in candidates; }
    r := None;
  }

  /** One token's turn: select one more UTxO for it, or stop considering it because it is covered. */
  method Turn(ghost w: UtxoSelection, s: UtxoSelection, tokens: seq<Token>, i: nat, outputs: seq<Value>,
              ghost txAssets: seq<AssetId>, imp: Implicit)
    returns (s': UtxoSelection, tokens': seq<Token>)
    requires Sufficient(w, outputs, txAssets, imp) && Selecting(w, s, tokens, outputs, txAssets, imp)
    requires i < |tokens| && AllWanted(s, |w.selected|, outputs, txAssets, imp)
    ensures Selecting(w, s', tokens', outputs, txAssets, imp) && AllWanted(s', |w.selected|, outputs, txAssets, imp)
    ensures |s'.remaining| + |tokens'| == |s.remaining| + |tokens| - 1
  {
    var t := tokens[i];
    var candidate := PickCandidate(s, t);
    if candidate.Some? && Improves(s.selected, candidate.value, outputs, imp, t) {
      var k := IndexWhere(s.remaining, candidate.value);
      ImprovementIsWanted(s.selected, candidate.value, outputs, txAssets, imp, t);
      SelectMore(w, s, tokens, outputs, txAssets, imp, k);
      WantedMove(s, |w.selected|, outputs, txAssets, imp, k);
      return Move(s, k), tokens;
    }
    if candidate.Some? {
      NoImprovementSettles(s, candidate.value, outputs, imp, t);
    } else {
      ExhaustedSettles(s, outputs, imp, t);
      ExhaustedCovers(s, w.remaining + w.selected, outputs, imp, t);
    }
    DropToken(w, s, tokens, outputs, txAssets, imp, i);
    return s, RemoveAt(tokens, i);
  }

  /**
    How far the round robin goes: every token is settled, and each UTxO it has added was an improvement for a
    token when it came, unless nothing else was selected.
   */
  ghost predicate IsRoundRobin(required: seq<Utxo>, s: UtxoSelection, outputs: seq<Value>, txAssets: seq<AssetId>,
                               imp: Implicit)
  {
    && (AllWanted(s, |required|, outputs, txAssets, imp) || (required == [] && |s.selected| == 1))
    && forall t :: t in Tokens(txAssets) ==> IsSettled(s, outputs, imp, t)
  }

  /**
    roundRobinSelection.  Removing an entry while iterating skips the next one, as a JavaScript array
    iterator does.  Given a sufficient balance, the result covers every token of the transaction.
   */
  method RoundRobinSelection(required: seq<Utxo>, available: seq<Utxo>, outputs: seq<Value>, txAssets: seq<AssetId>,
                             imp: Implicit)
    returns (s: UtxoSelection)
    requires Sufficient(UtxoSelection(required, available), outputs, txAssets, imp)
    ensures AllUtxo(s) == multiset(required) + multiset(available)
    ensures |s.selected| > 0 && required <= s.selected
    ensures forall t :: t in Tokens(txAssets) ==> Excess(s.selected, outputs, imp, 0, t) >= 0
    ensures IsRoundRobin(required, s, outputs, txAssets, imp)
  {
    ghost var w := UtxoSelection(required, available);
    s := UtxoSelection(required, available);
    var tokens := Tokens(txAssets);
    while |tokens| > 0
      invariant Selecting(w, s, tokens, outputs, txAssets, imp) && AllWanted(s, |required|, outputs, txAssets, imp)
      decreases |s.remaining| + |tokens|
    {
      var i := 0;
      ghost var work := |s.remaining| + |tokens|;
      while i < |tokens|
        invariant Selecting(w, s, tokens, outputs, txAssets, imp) && AllWanted(s, |required|, outputs, txAssets, imp)
        invariant |s.remaining| + |tokens| == work - i && (i == 0 ==> |tokens| > 0)
        decreases |s.remaining| + |tokens|
      {
        s, tokens := Turn(w, s, tokens, i, outputs, txAssets, imp);
        i := i + 1;
      }
    }
    if |s.selected| == 0 {
      assert |AllUtxo(s)| == |s.selected| + |s.remaining|;
      assert |AllUtxo(w)| == |required| + |available|;
      SelectMore(w, s, tokens, outputs, txAssets, imp, 0);
      s := Move(s, 0);
    }
  }

  // ---------------------------------------------------------------- select

  /** The ledger's rule for a whole transaction: Lovelace and every asset balance. */
  ghost predicate BalancesAll(o: Outcome, outputs: seq<Value>, input: nat, deposit: nat, mint: TokenMap) {
    && Total(ToValues(o.inputs), Lovelace) + input
         == Total(outputs, Lovelace) + o.fee + deposit + Total(o.change, Lovelace)
    && forall a :: Total(ToValues(o.inputs), Asset(a)) + Quantity(mint, a)
         == Total(outputs, Asset(a)) + Total(o.change, Asset(a))
  }

  /** A sound outcome of a selection that covers everything balances in every token. */
  lemma SoundBalances(s: UtxoSelection, outputs: seq<Value>, input: nat, deposit: nat, mint: TokenMap, c: Constraints,
                      o: Outcome)
    requires var imp := ImplicitOf(input, deposit, mint);
      IsSound(s, outputs, imp, c, o) && CoversAll(s, outputs, imp)
    ensures BalancesAll(o, outputs, input, deposit, mint)
  {
    var imp := ImplicitOf(input, deposit, mint);
    assert WalletNonNegative(s, Lovelace) && Covered(s.selected, outputs, imp, 0, Lovelace);
    assert Balances(o.inputs, outputs, imp, o.fee, o.change, Lovelace);
    forall a ensures Total(ToValues(o.inputs), Asset(a)) + Quantity(mint, a)
                  == Total(outputs, Asset(a)) + Total(o.change, Asset(a))
    {
      assert WalletNonNegative(s, Asset(a)) && Covered(s.selected, outputs, imp, 0, Asset(a));
      assert Balances(o.inputs, outputs, imp, o.fee, o.change, Asset(a));
    }
  }

  lemma RepeatedCount(s: seq<Utxo>, i: nat, j: nat)
    requires i < j < |s| && s[i] == s[j]
    ensures multiset(s)[s[i]] >= 2
  {
    assert s == s[..j] + [s[j]] + s[j + 1..];
    assert s[..j][i] == s[i];
    assert s[i] in multiset(s[..j]);
  }

  lemma {:induction false} DistinctCount(s: seq<Utxo>, u: Utxo)
    requires Distinct(s)
    ensures multiset(s)[u] <= 1
  {
    if s != [] {
      var n := |s| - 1;
      assert s == s[..n] + [s[n]];
      DistinctCount(s[..n], u);
      if u == s[n] {
        assert u !in s[..n];
        assert u !in multiset(s[..n]);
      }
    }
  }

  lemma DistinctParts(all: seq<Utxo>, part: seq<Utxo>, rest: seq<Utxo>)
    requires Distinct(all) && multiset(part) + multiset(rest) == multiset(all)
    ensures Distinct(part)
  {
    forall i, j | 0 <= i < j < |part| ensures part[i] != part[j] {
      if part[i] == part[j] {
        RepeatedCount(part, i, j);
        assert multiset(all)[part[i]] >= 2;
        DistinctCount(all, part[i]);
      }
    }
  }

  /** What a selection promises that is returned for a wallet, outputs and mint. */
  ghost predicate IsSelection(required: seq<Utxo>, available: seq<Utxo>, outputs: seq<Value>, input: nat, deposit: nat,
                              mint: TokenMap, c: Constraints, o: Outcome)
  {
    && multiset(o.inputs) + multiset(o.remaining) == multiset(required) + multiset(available)
    && multiset(required) <= multiset(o.inputs)
    && (Distinct(required + available) ==> Distinct(o.inputs))
    && BalancesAll(o, outputs, input, deposit, mint)
    && WithinSize(o.change, c) && PositiveEntries(o.change) && forall v :: v in o.change ==> IsChangeBundle(v, c)
  }

  /** A selection of the wallet with all that is required, covering every token. */
  ghost predicate IsStart(required: seq<Utxo>, available: seq<Utxo>, outputs: seq<Value>, imp: Implicit,
                          s: UtxoSelection)
  {
    && AllUtxo(s) == multiset(required) + multiset(available)
    && multiset(required) <= multiset(s.selected)
    && CoversAll(s, outputs, imp)
  }

  lemma SelectionSound(required: seq<Utxo>, available: seq<Utxo>, s: UtxoSelection, outputs: seq<Value>,
                       input: nat, deposit: nat, mint: TokenMap, c: Constraints, o: Outcome)
    requires IsStart(required, available, outputs, ImplicitOf(input, deposit, mint), s)
    requires IsSound(s, outputs, ImplicitOf(input, deposit, mint), c, o)
    ensures IsSelection(required, available, outputs, input, deposit, mint, c, o)
  {
    SoundBalances(s, outputs, input, deposit, mint, c, o);
    if Distinct(required + available) {
      DistinctParts(required + available, o.inputs, o.remaining);
    }
  }

  /** The balance assertion has passed. */
  lemma SufficientWallet(required: seq<Utxo>, available: seq<Utxo>, outputs: seq<Value>, txAssets: seq<AssetId>,
                         imp: Implicit)
    requires forall t :: WalletNonNegative(UtxoSelection(required, available), t) && NonNegative(outputs, t)
    requires |required| + |available| > 0 && Excess(available + required, outputs, imp, 0, Lovelace) >= 0
    requires forall a :: a in txAssets ==> Excess(available + required, outputs, imp, 0, Asset(a)) >= 0
    requires forall a :: Gained(imp, Asset(a)) >= 0
    ensures Sufficient(UtxoSelection(required, available), outputs, txAssets, imp)
  {
    forall t | t in Tokens(txAssets)
      ensures Excess(available + required, outputs, imp, 0, t) >= 0 && Gained(imp, t) >= 0
    {
      if t.Asset? { assert t.id in txAssets && Gained(imp, Asset(t.id)) >= 0; }
    }
  }

  ghost predicate IsRandomPick(pick: UtxoSelection -> UtxoSelection, choose: seq<Utxo> -> nat)
    requires forall p :: p != [] ==> choose(p) < |p|
  {
    forall s: UtxoSelection :: pick(s) == PickRandom(choose, s)
  }

  lemma PickRandomIsPick(choose: seq<Utxo> -> nat, pick: UtxoSelection -> UtxoSelection)
    requires forall p :: p != [] ==> choose(p) < |p|
    requires IsRandomPick(pick, choose)
    ensures IsPick(pick)
  {
    forall s: UtxoSelection | s.remaining != []
      ensures MovesOne(s, pick(s))
    {
      PickRandomMovesOne(choose, s);
    }
  }

  /** The round robin ends with a selection that covers every token, requested or not. */
  lemma SelectedIsStart(required: seq<Utxo>, available: seq<Utxo>, s: UtxoSelection, outputs: seq<Value>,
                        txAssets: seq<AssetId>, imp: Implicit)
    requires AllUtxo(s) == multiset(required) + multiset(available) && required <= s.selected
    requires forall t :: WalletNonNegative(UtxoSelection(required, available), t) && NonNegative(outputs, t)
    requires forall t :: t in Tokens(txAssets) ==> Excess(s.selected, outputs, imp, 0, t) >= 0
    requires forall t: Token :: t.Lovelace? || t.id in txAssets || Requested(outputs, imp, 0, t) == 0
    requires forall a :: Gained(imp, Asset(a)) >= 0 && Spent(imp, 0, Asset(a)) >= 0
    ensures IsStart(required, available, outputs, imp, s)
  {
    assert s.selected == required + s.selected[|required|..];
    forall t ensures WalletNonNegative(s, t) && Covered(s.selected, outputs, imp, 0, t) {
      assert WalletNonNegative(UtxoSelection(required, available), t);
      assert WalletNonNegative(s, t);
      assert NonNegative(outputs, t);
      if t.Asset? && t.id !in txAssets {
        WalletValues(s, t);
        TotalNonNegative(ToValues(s.selected), t);
        assert Gained(imp, Asset(t.id)) >= 0;
      } else {
        TokenListed(t, txAssets);
      }
      assert t.Asset? ==> Spent(imp, 0, Asset(t.id)) >= 0;
    }
  }

  /**
    Nothing is selected without need: the inputs are those of a round robin, and of what the random pick then
    draws, as long as the change lacks its minimum or the fee is not covered.
   */
  ghost predicate IsFrugal(required: seq<Utxo>, available: seq<Utxo>, outputs: seq<Value>, imp: Implicit,
                           mint: TokenMap, c: Constraints, choose: seq<Utxo> -> nat, o: Outcome)
    requires forall p :: p != [] ==> choose(p) < |p|
  {
    exists txAssets: seq<AssetId>, s: UtxoSelection, pick: UtxoSelection -> UtxoSelection ::
      && ListsAssets(txAssets, outputs, mint) && IsStart(required, available, outputs, imp, s)
      && IsRoundRobin(required, s, outputs, txAssets, imp)
      && IsRandomPick(pick, choose)
      && DrawsNeeded(s, outputs, imp, c, pick, o)
  }

  // ---------------------------------------------------------------- failures

  /** Some selection that covers everything explains the failure. */
  ghost predicate ExplainsChange(required: seq<Utxo>, available: seq<Utxo>, outputs: seq<Value>, imp: Implicit,
                                 c: Constraints, reason: Failure)
  {
    exists s :: IsStart(required, available, outputs, imp, s) && Explains(s, outputs, imp, c, reason)
  }

  /** What each failure of a selection says about the wallet. */
  ghost predicate ExplainsSelect(required: seq<Utxo>, available: seq<Utxo>, outputs: seq<Value>, input: nat,
                                 deposit: nat, mint: TokenMap, c: Constraints,
                                 limit: (seq<Utxo>, seq<Value>, nat) -> nat, error: SelectFailure)
  {
    match error
    case Insufficient => !Affordable(required, available, outputs, input, deposit, mint)
    case ChangeFailed(reason) =>
      ExplainsChange(required, available, outputs, ImplicitOf(input, deposit, mint), c, reason)
    case MaximumInputCountExceeded =>
      exists o :: IsSelection(required, available, outputs, input, deposit, mint, c, o)
        && |o.inputs| > limit(o.inputs, o.change, o.fee)
  }

  /** Positive outputs do not divide by zero, and with enough nothing fails. */
  lemma ExplainedOnly(required: seq<Utxo>, available: seq<Utxo>, outputs: seq<Value>, imp: Implicit, c: Constraints,
                      reason: Failure)
    requires ExplainsChange(required, available, outputs, imp, c, reason) && PositiveEntries(outputs)
    ensures reason != DivisionByZero
    ensures forall least, most :: !Enough(required + available, outputs, imp, c, least, most)
  {
    var s :| IsStart(required, available, outputs, imp, s) && Explains(s, outputs, imp, c, reason);
    CoveredNotMissing(s, outputs, imp);
    forall least: nat, most: nat ensures !Enough(required + available, outputs, imp, c, least, most) {
      if Enough(required + available, outputs, imp, c, least, most) {
        EnoughNeverFails(s, required + available, outputs, imp, c, least, most, reason);
      }
    }
  }

  lemma DrawnIsFrugal(required: seq<Utxo>, available: seq<Utxo>, outputs: seq<Value>, txAssets: seq<AssetId>,
                      imp: Implicit, mint: TokenMap, c: Constraints, choose: seq<Utxo> -> nat,
                      pick: UtxoSelection -> UtxoSelection, s: UtxoSelection, o: Outcome)
    requires forall p :: p != [] ==> choose(p) < |p|
    requires ListsAssets(txAssets, outputs, mint) && IsStart(required, available, outputs, imp, s)
    requires IsRoundRobin(required, s, outputs, txAssets, imp)
    requires IsRandomPick(pick, choose) && DrawsNeeded(s, outputs, imp, c, pick, o)
    ensures IsFrugal(required, available, outputs, imp, mint, c, choose, o)
  {
  }

  function RandomPick(choose: seq<Utxo> -> nat): (pick: UtxoSelection -> UtxoSelection)
    requires forall p :: p != [] ==> choose(p) < |p|
    ensures IsRandomPick(pick, choose)
  {
    (s: UtxoSelection) => PickRandom(choose, s)
  }

  /** The part of select behind the balance assertion. */
  method SelectAffordable(required: seq<Utxo>, available: seq<Utxo>, outputs: seq<Value>, txAssets: seq<AssetId>,
                          imp: Implicit, ghost mint: TokenMap, c: Constraints, choose: seq<Utxo> -> nat)
    returns (r: Result<Outcome, Failure>)
    requires forall p :: p != [] ==> choose(p) < |p|
    requires forall t :: WalletNonNegative(UtxoSelection(required, available), t) && NonNegative(outputs, t)
    requires ValidArgs(outputs, txAssets, imp) && ListsAssets(txAssets, outputs, mint)
    requires imp == ImplicitOf(imp.input, imp.deposit, mint)
    requires forall t: Token :: t.Lovelace? || t.id in txAssets || Requested(outputs, imp, 0, t) == 0
    requires Sufficient(UtxoSelection(required, available), outputs, txAssets, imp)
    ensures r.Ok? ==> IsSelection(required, available, outputs, imp.input, imp.deposit, mint, c, r.value)
    ensures r.Ok? ==> IsFrugal(required, available, outputs, imp, mint, c, choose, r.value)
    ensures r.Err? ==> ExplainsChange(required, available, outputs, imp, c, r.error)
  {
    var s := RoundRobinSelection(required, available, outputs, txAssets, imp);
    SelectedIsStart(required, available, s, outputs, txAssets, imp);
    var pick := RandomPick(choose);
    PickRandomIsPick(choose, pick);
    r := ComputeChangeAndAdjustForFee(s, outputs, txAssets, imp, c, pick);
    if r.Ok? {
      SelectionSound(required, available, s, outputs, imp.input, imp.deposit, mint, c, r.value);
      DrawnIsFrugal(required, available, outputs, txAssets, imp, mint, c, choose, pick, s, r.value);
    }
  }

  /**
    roundRobinRandomImprove.select: for a wallet and outputs without negative quantities, a returned
    selection keeps the required UTxO, splits the wallet in two, and balances in every token.  The wallet
    is refused up front exactly when it is empty or cannot pay for a token; other failures are explained,
    and a wallet that has enough on top for the minimum and the fee can only have too many inputs.
   */
  method Select(required: seq<Utxo>, available: seq<Utxo>, outputs: seq<Value>, input: nat, deposit: nat,
                mint: TokenMap, c: Constraints, choose: seq<Utxo> -> nat, limit: (seq<Utxo>, seq<Value>, nat) -> nat)
    returns (r: Result<Outcome, SelectFailure>)
    requires forall p :: p != [] ==> choose(p) < |p|
    requires forall t :: WalletNonNegative(UtxoSelection(required, available), t) && NonNegative(outputs, t)
    ensures r.Ok? ==> IsSelection(required, available, outputs, input, deposit, mint, c, r.value)
    ensures r.Ok? ==> IsFrugal(required, available, outputs, ImplicitOf(input, deposit, mint), mint, c, choose, r.value)
    ensures r.Ok? ==> |r.value.inputs| <= limit(r.value.inputs, r.value.change, r.value.fee)
    ensures r == Err(Insufficient) <==> !Affordable(required, available, outputs, input, deposit, mint)
    ensures r.Err? ==> ExplainsSelect(required, available, outputs, input, deposit, mint, c, limit, r.error)
    ensures PositiveEntries(outputs) ==> r != Err(ChangeFailed(DivisionByZero))
    ensures var imp := ImplicitOf(input, deposit, mint);
      forall least, most ::
        PositiveEntries(outputs) && Enough(required + available, outputs, imp, c, least, most) && r.Err? ==>
          r.error == Insufficient || r.error == MaximumInputCountExceeded
  {
    var txAssets, imp := PreProcessArgs(outputs, input, deposit, mint);
    var sufficient := IsBalanceSufficient(txAssets, required, available, outputs, imp);
    SufficientIffAffordable(required, available, outputs, txAssets, input, deposit, mint);
    if !sufficient { return Err(Insufficient); }
    SufficientWallet(required, available, outputs, txAssets, imp);
    var o := SelectAffordable(required, available, outputs, txAssets, imp, mint, c, choose);
    if o.Err? {
      if PositiveEntries(outputs) { ExplainedOnly(required, available, outputs, imp, c, o.error); }
      return Err(ChangeFailed(o.error));
    }
    if |o.value.inputs| > limit(o.value.inputs, o.value.change, o.value.fee) { return Err(MaximumInputCountExceeded); }
    r := Ok(o.value);
  }
}
