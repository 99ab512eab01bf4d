/**
  The last stage of change computation: bundles whose token map is too large for one output are
  split into pieces, and the coins of the bundle are shared out so that each piece has its minimum.
 */
module BundleSize {
  import opened RequestedChange
  import opened Values
  import opened Wrappers

  predicate FitsOrSingle(m: TokenMap, exceeds: TokenMap -> bool) {
    !exceeds(m) || |m| == 1
  }

  predicate PartOf(part: TokenMap, whole: TokenMap) {
    forall a :: a in part ==> a in whole && part[a] == whole[a]
  }

  /**
    The pieces cut the map into disjoint nonempty parts, entry for entry: the last piece is part of
    the map, and the other pieces cut what it leaves.
   */
  ghost predicate IsPartition(whole: TokenMap, pieces: seq<TokenMap>) {
    if pieces == [] then whole == map[]
    else
      var last := pieces[|pieces| - 1];
      last != map[] && PartOf(last, whole) && IsPartition(whole - last.Keys, pieces[..|pieces| - 1])
  }

  /** Some asset of the next piece would have been too much. */
  ghost predicate NoRoom(piece: TokenMap, next: TokenMap, exceeds: TokenMap -> bool) {
    exists a :: a in next && exceeds(piece[a := next[a]])
  }

  /** No piece is smaller than it has to be: each ends where an asset of the next one no longer fits. */
  ghost predicate AreFull(pieces: seq<TokenMap>, exceeds: TokenMap -> bool) {
    forall k :: 0 < k < |pieces| ==> NoRoom(pieces[k - 1], pieces[k], exceeds)
  }

  lemma {:induction false} PartitionParts(whole: TokenMap, pieces: seq<TokenMap>)
    requires IsPartition(whole, pieces)
    ensures forall m :: m in pieces ==> PartOf(m, whole)
  {
    if pieces != [] {
      var n := |pieces| - 1;
      PartitionParts(whole - pieces[n].Keys, pieces[..n]);
      assert pieces == pieces[..n] + [pieces[n]];
    }
  }

  lemma PartitionSnoc(whole: TokenMap, pieces: seq<TokenMap>, more: TokenMap)
    requires IsPartition(whole, pieces) && more != map[] && more.Keys !! whole.Keys
    ensures IsPartition(whole + more, pieces + [more])
  {
    assert (whole + more) - more.Keys == whole;
    assert (pieces + [more])[..|pieces|] == pieces;
  }

  /** Mid-loop: `pieces` partition the entries of `closed`, and `current` is the piece being grown. */
  ghost predicate Cutting(assets: TokenMap, todo: set<AssetId>, closed: TokenMap, pieces: seq<TokenMap>,
                          current: TokenMap, exceeds: TokenMap -> bool)
  {
    && IsPartition(closed, pieces)
    && closed.Keys !! current.Keys && closed + current == assets - todo
    && (forall m :: m in pieces ==> FitsOrSingle(m, exceeds))
    && (current == map[] ==> todo == assets.Keys)
    && (current != map[] ==> FitsOrSingle(current, exceeds))
    && AreFull(pieces, exceeds)
    && (pieces != [] ==> NoRoom(pieces[|pieces| - 1], current, exceeds))
  }

  lemma MoveEntry(assets: TokenMap, todo: set<AssetId>, closed: TokenMap, current: TokenMap, a: AssetId)
    requires closed.Keys !! current.Keys && closed + current == assets - todo
    requires a in todo && a in assets
    ensures a !in closed && a !in current
    ensures closed + current[a := assets[a]] == assets - (todo - {a})
    ensures (closed + current) + map[a := assets[a]] == assets - (todo - {a})
  {
    assert a !in closed + current;
  }

  lemma GrownSize(m: TokenMap, a: AssetId, q: int)
    ensures m == map[] ==> |m[a := q]| == 1
    ensures m[a := q] != map[] && |m[a := q]| >= 1 && |map[a := q]| == 1
  {
    assert a in m[a := q].Keys;
    assert map[a := q].Keys == {a};
    if m == map[] { assert m[a := q] == map[a := q]; }
  }

  lemma Grow(assets: TokenMap, todo: set<AssetId>, closed: TokenMap, pieces: seq<TokenMap>,
             current: TokenMap, exceeds: TokenMap -> bool, a: AssetId)
    requires Cutting(assets, todo, closed, pieces, current, exceeds) && a in todo && a in assets
    requires !exceeds(current[a := assets[a]]) || |current[a := assets[a]]| <= 1
    ensures Cutting(assets, todo - {a}, closed, pieces, current[a := assets[a]], exceeds)
  {
    MoveEntry(assets, todo, closed, current, a);
    GrownSize(current, a, assets[a]);
    if pieces != [] {
      var b :| b in current && exceeds(pieces[|pieces| - 1][b := current[b]]);
      assert b in current[a := assets[a]] && current[a := assets[a]][b] == current[b];
    }
  }

  lemma Cut(assets: TokenMap, todo: set<AssetId>, closed: TokenMap, pieces: seq<TokenMap>,
            current: TokenMap, exceeds: TokenMap -> bool, a: AssetId)
    requires Cutting(assets, todo, closed, pieces, current, exceeds) && a in todo && a in assets
    requires |current[a := assets[a]]| > 1 && exceeds(current[a := assets[a]])
    ensures Cutting(assets, todo - {a}, closed + current, pieces + [current], map[a := assets[a]], exceeds)
  {
    MoveEntry(assets, todo, closed, current, a);
    GrownSize(current, a, assets[a]);
    var m := map[a := assets[a]];
    assert IsPartition(closed + current, pieces + [current]) by { PartitionSnoc(closed, pieces, current); }
    assert (closed + current).Keys !! m.Keys;
    assert NoRoom(current, m, exceeds) by { assert a in m && m[a] == assets[a]; }
    forall p | p in pieces + [current] ensures FitsOrSingle(p, exceeds) {
      assert p in pieces || p == current;
    }
  }

  lemma Finish(assets: TokenMap, closed: TokenMap, pieces: seq<TokenMap>, current: TokenMap, exceeds: TokenMap -> bool)
    requires Cutting(assets, {}, closed, pieces, current, exceeds) && assets != map[]
    ensures IsPartition(assets, pieces + [current]) && AreFull(pieces + [current], exceeds)
    ensures forall m :: m in pieces + [current] ==> FitsOrSingle(m, exceeds)
  {
    assert assets.Keys != {};
    PartitionSnoc(closed, pieces, current);
    assert closed + current == assets;
  }

  /** The entry loop of splitChangeIfTokenBundlesSizeExceedsLimit. */
  method PartitionAssets(assets: TokenMap, exceeds: TokenMap -> bool) returns (pieces: seq<TokenMap>)
    requires assets != map[]
    ensures pieces != [] && IsPartition(assets, pieces) && AreFull(pieces, exceeds)
    ensures forall m :: m in pieces ==> FitsOrSingle(m, exceeds)
  {
    pieces := [];
    var current: TokenMap := map[];
    var todo := assets.Keys;
    ghost var closed: TokenMap := map[];
    while todo != {}
      invariant todo <= assets.Keys
      invariant Cutting(assets, todo, closed, pieces, current, exceeds)
    {
      var a :| a in todo;
      var grown := current[a := assets[a]];
      if exceeds(grown) && |grown| > 1 {
        Cut(assets, todo, closed, pieces, current, exceeds, a);
        closed := closed + current;
        pieces := pieces + [current];
        current := map[a := assets[a]];
      } else {
        Grow(assets, todo, closed, pieces, current, exceeds, a);
        current := grown;
      }
      todo := todo - {a};
    }
    Finish(assets, closed, pieces, current, exceeds);
    pieces := pieces + [current];
  }

  function Bundles(pieces: seq<TokenMap>): (r: seq<Value>)
    ensures |r| == |pieces| && forall i :: 0 <= i < |r| ==> r[i] == Value(0, Some(pieces[i]))
  {
    seq(|pieces|, i requires 0 <= i < |pieces| => Value(0, Some(pieces[i])))
  }

  /** A partition holds each asset once, so it holds as much of it as the whole. */
  lemma {:induction false} PartitionTotal(whole: TokenMap, pieces: seq<TokenMap>, vs: seq<Value>, a: AssetId)
    requires IsPartition(whole, pieces)
    requires |vs| == |pieces| && forall i :: 0 <= i < |vs| ==> vs[i].assets == Some(pieces[i])
    ensures Total(vs, Asset(a)) == Quantity(whole, a)
  {
    if pieces != [] {
      var n := |pieces| - 1;
      PartitionTotal(whole - pieces[n].Keys, pieces[..n], vs[..n], a);
    }
  }

  /** The pieces, each with the minimum coin quantity of its tokens. */
  function MinimumValues(pieces: seq<TokenMap>, minCoin: Value -> int): (r: seq<Value>)
    ensures |r| == |pieces|
    ensures forall i :: 0 <= i < |r| ==> r[i] == Value(minCoin(Value(0, Some(pieces[i]))), Some(pieces[i]))
  {
    seq(|pieces|, i requires 0 <= i < |pieces| => Value(minCoin(Value(0, Some(pieces[i]))), Some(pieces[i])))
  }

  /**
    Each piece gets the minimum computed for its tokens and the first one what is left over; fails exactly
    when the coins do not reach for all the minima.
   */
  method ShareCoins(pieces: seq<TokenMap>, coins: int, minCoin: Value -> int)
    returns (r: Result<seq<Value>, Failure>)
    requires pieces != []
    ensures r.Err? <==> coins < Total(MinimumValues(pieces, minCoin), Lovelace)
    ensures r.Err? ==> r.error == UtxoFullyDepleted
    ensures r.Ok? ==>
      && |r.value| == |pieces|
      && (forall i :: 0 <= i < |pieces| ==> r.value[i].assets == Some(pieces[i]))
      && (forall i :: 0 <= i < |pieces| ==> r.value[i].coins >= minCoin(Value(0, Some(pieces[i]))))
      && (forall i :: 1 <= i < |pieces| ==> r.value[i].coins == minCoin(Value(0, Some(pieces[i]))))
      && Total(r.value, Lovelace) == coins
  {
    var values := Bundles(pieces);
    var totalMinCoin := 0;
    for n := 0 to |pieces|
      invariant |values| == |pieces|
      invariant forall i :: n <= i < |pieces| ==> values[i] == Value(0, Some(pieces[i]))
      invariant values[..n] == MinimumValues(pieces, minCoin)[..n]
      invariant totalMinCoin == Total(values[..n], Lovelace)
    {
      var least := minCoin(values[n]);
      ghost var before := values;
      values := values[n := Value(least, Some(pieces[n]))];
      totalMinCoin := totalMinCoin + least;
      assert values[..n + 1] == before[..n] + [values[n]];
      TotalAppend(before[..n], values[n], Lovelace);
    }
    assert values == values[..|values|] == MinimumValues(pieces, minCoin);
    if coins < totalMinCoin { return Err(UtxoFullyDepleted); }
    var first := values[0].(coins := values[0].coins + (coins - totalMinCoin));
    TotalUpdate(values, 0, first, Lovelace);
    r := Ok(values[0 := first]);
  }

  /** A piece of a split bundle: within the limit or a single token, with its minimum coin quantity. */
  predicate IsPiece(v: Value, minCoin: Value -> int, exceeds: TokenMap -> bool) {
    && v.assets.Some?
    && FitsOrSingle(v.assets.value, exceeds)
    && v.coins >= minCoin(Value(0, v.assets))
  }

  predicate WithinLimit(v: Value, exceeds: TokenMap -> bool) {
    v.assets.None? || v.assets.value == map[] || !exceeds(v.assets.value)
  }

  function TokenMaps(vs: seq<Value>): (r: seq<TokenMap>)
    ensures |r| == |vs| && forall i :: 0 <= i < |r| ==> r[i] == Entries(vs[i])
  {
    seq(|vs|, i requires 0 <= i < |vs| => Entries(vs[i]))
  }

  /**
    What becomes of one bundle: itself when it is within the limit, otherwise pieces that partition its tokens
    and share its coins, all but the first with just the minimum computed for them.
   */
  ghost predicate IsCut(v: Value, pieces: seq<Value>, minCoin: Value -> int, exceeds: TokenMap -> bool) {
    if v.assets.None? || v.assets.value == map[] || !exceeds(v.assets.value) then pieces == [v]
    else
      && IsPartition(Entries(v), TokenMaps(pieces)) && AreFull(TokenMaps(pieces), exceeds)
      && Total(pieces, Lovelace) == v.coins
      && (forall i :: 0 <= i < |pieces| ==> IsPiece(pieces[i], minCoin, exceeds))
      && (forall i :: 1 <= i < |pieces| ==> pieces[i].coins == minCoin(Value(0, pieces[i].assets)))
  }

  function Flatten(cuts: seq<seq<Value>>): seq<Value> {
    if cuts == [] then [] else Flatten(cuts[..|cuts| - 1]) + cuts[|cuts| - 1]
  }

  /** The cuts of all bundles, one after the other. */
  ghost predicate AreCuts(cuts: seq<seq<Value>>, bundles: seq<Value>, split: seq<Value>, minCoin: Value -> int,
                          exceeds: TokenMap -> bool)
  {
    && |cuts| == |bundles| && split == Flatten(cuts)
    && forall k :: 0 <= k < |cuts| ==> IsCut(bundles[k], cuts[k], minCoin, exceeds)
  }

  ghost predicate IsSplitOf(bundles: seq<Value>, split: seq<Value>, minCoin: Value -> int, exceeds: TokenMap -> bool) {
    exists cuts :: AreCuts(cuts, bundles, split, minCoin, exceeds)
  }

  lemma AppendCut(cuts: seq<seq<Value>>, bundles: seq<Value>, split: seq<Value>, minCoin: Value -> int,
                  exceeds: TokenMap -> bool, v: Value, pieces: seq<Value>)
    requires AreCuts(cuts, bundles, split, minCoin, exceeds) && IsCut(v, pieces, minCoin, exceeds)
    ensures AreCuts(cuts + [pieces], bundles + [v], split + pieces, minCoin, exceeds)
  {
    assert (cuts + [pieces])[..|cuts|] == cuts;
  }

  /** Bundles within the limit are left as they are. */
  lemma {:induction false} NothingToSplit(cuts: seq<seq<Value>>, bundles: seq<Value>, split: seq<Value>,
                                          minCoin: Value -> int, exceeds: TokenMap -> bool)
    requires AreCuts(cuts, bundles, split, minCoin, exceeds)
    requires forall i :: 0 <= i < |bundles| ==> WithinLimit(bundles[i], exceeds)
    ensures split == bundles
  {
    if cuts != [] {
      var n := |cuts| - 1;
      NothingToSplit(cuts[..n], bundles[..n], Flatten(cuts[..n]), minCoin, exceeds);
      assert bundles == bundles[..n] + [bundles[n]];
    }
  }

  /** A cut of a bundle that is too large into acceptable pieces, for whose minima its coins do not suffice. */
  ghost predicate CutFails(v: Value, pieces: seq<TokenMap>, minCoin: Value -> int, exceeds: TokenMap -> bool) {
    && v.assets.Some? && v.assets.value != map[] && exceeds(v.assets.value)
    && pieces != [] && IsPartition(Entries(v), pieces) && AreFull(pieces, exceeds)
    && (forall m :: m in pieces ==> FitsOrSingle(m, exceeds))
    && v.coins < Total(MinimumValues(pieces, minCoin), Lovelace)
  }

  /** A bundle and its pieces hold the same of every token. */
  lemma CutTotal(v: Value, pieces: seq<Value>, minCoin: Value -> int, exceeds: TokenMap -> bool, t: Token)
    requires IsCut(v, pieces, minCoin, exceeds)
    ensures Total(pieces, t) == Amount(v, t)
  {
    if WithinLimit(v, exceeds) {
      TotalAppend([], v, t);
      assert [] + [v] == [v];
    } else if t.Asset? {
      PartitionTotal(Entries(v), TokenMaps(pieces), pieces, t.id);
    }
  }

  lemma CutParts(v: Value, pieces: seq<Value>, minCoin: Value -> int, exceeds: TokenMap -> bool)
    requires IsCut(v, pieces, minCoin, exceeds)
    ensures forall p :: p in pieces ==> PartOf(Entries(p), Entries(v))
  {
    if !WithinLimit(v, exceeds) {
      PartitionParts(Entries(v), TokenMaps(pieces));
      forall p | p in pieces ensures PartOf(Entries(p), Entries(v)) {
        var i :| 0 <= i < |pieces| && pieces[i] == p;
        assert TokenMaps(pieces)[i] in TokenMaps(pieces);
      }
    }
  }

  /** Splitting conserves every token. */
  lemma {:induction false} SplitTotal(cuts: seq<seq<Value>>, bundles: seq<Value>, split: seq<Value>,
                                      minCoin: Value -> int, exceeds: TokenMap -> bool, t: Token)
    requires AreCuts(cuts, bundles, split, minCoin, exceeds)
    ensures Total(split, t) == Total(bundles, t)
  {
    if cuts != [] {
      var n := |cuts| - 1;
      SplitTotal(cuts[..n], bundles[..n], Flatten(cuts[..n]), minCoin, exceeds, t);
      TotalConcat(Flatten(cuts[..n]), cuts[n], t);
      CutTotal(bundles[n], cuts[n], minCoin, exceeds, t);
    }
  }

  /** Where a bundle of the split change comes from. */
  lemma {:induction false} SplitMember(cuts: seq<seq<Value>>, bundles: seq<Value>, split: seq<Value>,
                                       minCoin: Value -> int, exceeds: TokenMap -> bool, p: Value)
    returns (v: Value)
    requires AreCuts(cuts, bundles, split, minCoin, exceeds) && p in split
    ensures v in bundles && PartOf(Entries(p), Entries(v))
    ensures (p == v && WithinLimit(v, exceeds)) || IsPiece(p, minCoin, exceeds)
  {
    var n := |cuts| - 1;
    if p in cuts[n] {
      v := bundles[n];
      CutParts(v, cuts[n], minCoin, exceeds);
    } else {
      v := SplitMember(cuts[..n], bundles[..n], Flatten(cuts[..n]), minCoin, exceeds, p);
    }
  }

  lemma SplitKeeps(cuts: seq<seq<Value>>, bundles: seq<Value>, split: seq<Value>, minCoin: Value -> int,
                   exceeds: TokenMap -> bool)
    requires AreCuts(cuts, bundles, split, minCoin, exceeds)
    ensures forall t :: Total(split, t) == Total(bundles, t)
    ensures PositiveEntries(bundles) ==> PositiveEntries(split)
    ensures forall v :: v in split ==> (v in bundles && WithinLimit(v, exceeds)) || IsPiece(v, minCoin, exceeds)
  {
    forall t ensures Total(split, t) == Total(bundles, t) {
      SplitTotal(cuts, bundles, split, minCoin, exceeds, t);
    }
    forall p | p in split
      ensures (p in bundles && WithinLimit(p, exceeds)) || IsPiece(p, minCoin, exceeds)
      ensures PositiveEntries(bundles) ==> forall a :: a in Entries(p) ==> Entries(p)[a] > 0
    {
      var v := SplitMember(cuts, bundles, split, minCoin, exceeds, p);
    }
  }

  lemma SharedIsCut(v: Value, pieces: seq<TokenMap>, shared: seq<Value>, minCoin: Value -> int,
                    exceeds: TokenMap -> bool)
    requires !WithinLimit(v, exceeds) && IsPartition(Entries(v), pieces) && AreFull(pieces, exceeds)
    requires |shared| == |pieces| && forall m :: m in pieces ==> FitsOrSingle(m, exceeds)
    requires forall i :: 0 <= i < |pieces| ==>
      shared[i].assets == Some(pieces[i]) && shared[i].coins >= minCoin(Value(0, Some(pieces[i])))
    requires forall i :: 1 <= i < |pieces| ==> shared[i].coins == minCoin(Value(0, Some(pieces[i])))
    requires Total(shared, Lovelace) == v.coins
    ensures IsCut(v, shared, minCoin, exceeds)
  {
    assert TokenMaps(shared) == pieces;
    forall i | 0 <= i < |shared| ensures IsPiece(shared[i], minCoin, exceeds) { assert pieces[i] in pieces; }
  }

  /** One bundle's turn: kept when it is within the limit, otherwise cut into pieces. */
  method SplitBundle(bundle: Value, minCoin: Value -> int, exceeds: TokenMap -> bool)
    returns (r: Result<seq<Value>, Failure>)
    ensures r.Err? ==> r.error == UtxoFullyDepleted && exists pieces :: CutFails(bundle, pieces, minCoin, exceeds)
    ensures r.Ok? ==> IsCut(bundle, r.value, minCoin, exceeds)
    ensures r.Ok? ==> forall t :: Total(r.value, t) == Amount(bundle, t)
  {
    if WithinLimit(bundle, exceeds) {
      r := Ok([bundle]);
    } else {
      var pieces := PartitionAssets(bundle.assets.value, exceeds);
      r := ShareCoins(pieces, bundle.coins, minCoin);
      if r.Err? {
        assert CutFails(bundle, pieces, minCoin, exceeds);
        return;
      }
      SharedIsCut(bundle, pieces, r.value, minCoin, exceeds);
    }
    forall t ensures Total(r.value, t) == Amount(bundle, t) {
      CutTotal(bundle, r.value, minCoin, exceeds, t);
    }
  }

  /** splitChangeIfTokenBundlesSizeExceedsLimit: conserves every token and cuts only what is too large. */
  method SplitChange(bundles: seq<Value>, minCoin: Value -> int, exceeds: TokenMap -> bool)
    returns (r: Result<seq<Value>, Failure>)
    ensures r.Err? ==> r.error == UtxoFullyDepleted
    ensures r.Err? ==> exists v, pieces :: v in bundles && CutFails(v, pieces, minCoin, exceeds)
    ensures r.Ok? ==> IsSplitOf(bundles, r.value, minCoin, exceeds)
    ensures r.Ok? ==> forall t :: Total(r.value, t) == Total(bundles, t)
    ensures r.Ok? && PositiveEntries(bundles) ==> PositiveEntries(r.value)
    ensures r.Ok? ==> forall v :: v in r.value ==>
      (v in bundles && WithinLimit(v, exceeds)) || IsPiece(v, minCoin, exceeds)
  {
    var result: seq<Value> := [];
    ghost var cuts: seq<seq<Value>> := [];
    for n := 0 to |bundles|
      invariant AreCuts(cuts, bundles[..n], result, minCoin, exceeds)
    {
      var pieces := SplitBundle(bundles[n], minCoin, exceeds);
      if pieces.Err? {
        assert bundles[n] in bundles;
        return Err(pieces.error);
      }
      AppendCut(cuts, bundles[..n], result, minCoin, exceeds, bundles[n], pieces.value);
      assert bundles[..n + 1] == bundles[..n] + [bundles[n]];
      cuts := cuts + [pieces.value];
      result := result + pieces.value;
    }
    assert bundles[..|bundles|] == bundles;
    SplitKeeps(cuts, bundles, result, minCoin, exceeds);
    r := Ok(result);
  }
}
