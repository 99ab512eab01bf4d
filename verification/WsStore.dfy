/**
  The transaction store of the WebSocket client: how messages change it, and the UTxO it computes
  with nested loops, compared with a fold of the ledger rule over the sorted history.
 */
module WsStore {
  import opened Seqs
  import opened Sorting
  import opened TxIns
  import opened Wrappers

  type TxId = string
  type Address = string

  /** A hydrated input carries the address of the output it spends. */
  datatype Input = Input(ref: TxIn, address: Address)
  datatype Output = Output(address: Address, content: string)

  /** Of a transaction that failed phase 2, `returnIndex` is the output index of the collateral return. */
  datatype Tx = Tx(id: TxId, blockNo: nat, index: nat, inputs: seq<Input>, outputs: seq<Output>,
                   phase2Valid: bool, collaterals: seq<Input>, collateralReturn: Option<Output>, returnIndex: nat)

  // ---------------------------------------------------------------- the ledger rule

  /** What a transaction is taken to do: what its body lists, or what the ledger rule makes of it. */
  datatype Reading = Body | Rule

  function Refs(inputs: seq<Input>): set<TxIn> {
    set i | 0 <= i < |inputs| :: inputs[i].ref
  }

  function OutputsOf(t: Tx): map<TxIn, Output> {
    map i | 0 <= i < |t.outputs| :: TxIn(t.id, i) := t.outputs[i]
  }

  /** By the rule, a transaction that failed phase 2 spends its collaterals and creates its collateral return. */
  function Spent(t: Tx, v: Reading): set<TxIn> {
    if v.Body? || t.phase2Valid then Refs(t.inputs) else Refs(t.collaterals)
  }

  function Created(t: Tx, v: Reading): (m: map<TxIn, Output>)
    ensures forall r :: r in m ==> r.txId == t.id
  {
    if v.Body? || t.phase2Valid then OutputsOf(t)
    else if t.collateralReturn.Some? then map[TxIn(t.id, t.returnIndex) := t.collateralReturn.value]
    else map[]
  }

  /** The outputs left by a history: each transaction removes what it spends and adds what it creates. */
  function Fold(h: seq<Tx>, v: Reading): map<TxIn, Output> {
    if h == [] then map[]
    else
      var t := h[|h| - 1];
      (Fold(h[..|h| - 1], v) - Spent(t, v)) + Created(t, v)
  }

  /** The UTxO set after a history. */
  function Ledger(h: seq<Tx>): map<TxIn, Output> {
    Fold(h, Rule)
  }

  function At(l: map<TxIn, Output>, addresses: seq<Address>): map<TxIn, Output> {
    map r | r in l && l[r].address in addresses :: l[r]
  }

  ghost predicate DistinctIds(h: seq<Tx>) {
    forall i, j :: 0 <= i < j < |h| ==> h[i].id != h[j].id
  }

  ghost predicate HydratedFrom(t: Tx, inputs: seq<Input>) {
    forall k :: 0 <= k < |inputs| && inputs[k].ref in Created(t, Rule) ==>
      inputs[k].address == Created(t, Rule)[inputs[k].ref].address
  }

  /** Inputs and collaterals carry the address of the output they name. */
  ghost predicate Hydrated(h: seq<Tx>) {
    forall p, q :: 0 <= p < q < |h| ==> HydratedFrom(h[p], h[q].inputs) && HydratedFrom(h[p], h[q].collaterals)
  }

  // ---------------------------------------------------------------- relevance

  predicate AnyInputAt(inputs: seq<Input>, addresses: seq<Address>) {
    exists i :: 0 <= i < |inputs| && inputs[i].address in addresses
  }

  predicate AnyOutputAt(outputs: seq<Output>, addresses: seq<Address>) {
    exists i :: 0 <= i < |outputs| && outputs[i].address in addresses
  }

  /** isTxRelevant */
  predicate IsTxRelevant(t: Tx, addresses: seq<Address>) {
    if t.phase2Valid then AnyInputAt(t.inputs, addresses) || AnyOutputAt(t.outputs, addresses)
    else
      || AnyInputAt(t.collaterals, addresses)
      || (t.collateralReturn.Some? && t.collateralReturn.value.address in addresses)
  }

  /** A transaction is relevant exactly when, by the rule, it spends or creates something at the addresses. */
  lemma RelevantIff(t: Tx, addresses: seq<Address>)
    ensures IsTxRelevant(t, addresses) <==>
      || (exists r :: r in Created(t, Rule) && Created(t, Rule)[r].address in addresses)
      || (exists i: Input :: i in (if t.phase2Valid then t.inputs else t.collaterals) && i.address in addresses)
  {
    var inputs := if t.phase2Valid then t.inputs else t.collaterals;
    if AnyInputAt(inputs, addresses) {
      var k :| 0 <= k < |inputs| && inputs[k].address in addresses;
      assert inputs[k] in inputs;
    }
    if t.phase2Valid && AnyOutputAt(t.outputs, addresses) {
      var k :| 0 <= k < |t.outputs| && t.outputs[k].address in addresses;
      assert TxIn(t.id, k) in Created(t, Rule);
    }
    if !t.phase2Valid && t.collateralReturn.Some? {
      assert TxIn(t.id, t.returnIndex) in Created(t, Rule);
    }
  }

  function Relevant(h: seq<Tx>, addresses: seq<Address>): seq<Tx> {
    Filter(h, (t: Tx) => IsTxRelevant(t, addresses))
  }

  lemma RelevantSnoc(h: seq<Tx>, t: Tx, addresses: seq<Address>)
    ensures Relevant(h + [t], addresses) == Relevant(h, addresses) + if IsTxRelevant(t, addresses) then [t] else []
  {
    FilterSnoc(h, t, (t: Tx) => IsTxRelevant(t, addresses));
  }

  lemma RelevantMembers(h: seq<Tx>, addresses: seq<Address>)
    ensures forall t :: t in Relevant(h, addresses) <==> t in h && IsTxRelevant(t, addresses)
  {
    FilterMembers(h, (t: Tx) => IsTxRelevant(t, addresses));
  }

  // ---------------------------------------------------------------- what a fold holds

  lemma FoldSnoc(h: seq<Tx>, t: Tx, v: Reading)
    ensures Fold(h + [t], v) == (Fold(h, v) - Spent(t, v)) + Created(t, v)
  {
    assert (h + [t])[..|h|] == h;
  }

  ghost predicate Creates(h: seq<Tx>, v: Reading, p: nat, r: TxIn) {
    p < |h| && r in Created(h[p], v)
  }

  ghost predicate SpentAfter(h: seq<Tx>, v: Reading, p: nat, r: TxIn) {
    exists q :: p < q < |h| && r in Spent(h[q], v)
  }

  lemma {:induction false} FoldOrigin(h: seq<Tx>, v: Reading, r: TxIn) returns (p: nat)
    requires r in Fold(h, v)
    ensures Creates(h, v, p, r) && Fold(h, v)[r] == Created(h[p], v)[r]
  {
    var n := |h| - 1;
    if r in Created(h[n], v) {
      p := n;
    } else {
      p := FoldOrigin(h[..n], v, r);
    }
  }

  lemma SpentAfterSnoc(h: seq<Tx>, v: Reading, p: nat, r: TxIn)
    requires p < |h| - 1
    ensures SpentAfter(h, v, p, r) <==> SpentAfter(h[..|h| - 1], v, p, r) || r in Spent(h[|h| - 1], v)
  {
    var n := |h| - 1;
    if q :| p < q < |h[..n]| && r in Spent(h[..n][q], v) {
      assert r in Spent(h[q], v);
    }
    if q :| p < q < |h| && r in Spent(h[q], v) {
      assert q < n ==> r in Spent(h[..n][q], v);
    }
  }

  lemma FoldStep(h: seq<Tx>, v: Reading, r: TxIn)
    requires h != [] && r.txId != h[|h| - 1].id
    ensures r in Fold(h, v) <==> r in Fold(h[..|h| - 1], v) && r !in Spent(h[|h| - 1], v)
    ensures r in Fold(h, v) ==> Fold(h, v)[r] == Fold(h[..|h| - 1], v)[r]
  {
  }

  lemma SameId(h: seq<Tx>, p: nat, q: nat)
    requires DistinctIds(h) && p < |h| && q < |h| && h[p].id == h[q].id
    ensures p == q
  {
  }

  lemma FoldLast(h: seq<Tx>, v: Reading, r: TxIn)
    requires h != [] && r in Created(h[|h| - 1], v)
    ensures r in Fold(h, v) && Fold(h, v)[r] == Created(h[|h| - 1], v)[r]
  {
  }

  lemma CreatedEarlier(h: seq<Tx>, v: Reading, p: nat, r: TxIn)
    requires DistinctIds(h) && Creates(h, v, p, r) && p < |h| - 1
    ensures DistinctIds(h[..|h| - 1]) && Creates(h[..|h| - 1], v, p, r) && h[..|h| - 1][p] == h[p]
    ensures r.txId != h[|h| - 1].id
  {
  }

  /** A reference is held exactly when some transaction created it and none spent it afterwards. */
  lemma {:induction false} FoldHolds(h: seq<Tx>, v: Reading, p: nat, r: TxIn)
    requires DistinctIds(h) && Creates(h, v, p, r)
    ensures r in Fold(h, v) <==> !SpentAfter(h, v, p, r)
    ensures r in Fold(h, v) ==> Fold(h, v)[r] == Created(h[p], v)[r]
    decreases |h|
  {
    if p < |h| - 1 {
      CreatedEarlier(h, v, p, r);
      FoldHolds(h[..|h| - 1], v, p, r);
      SpentAfterSnoc(h, v, p, r);
      FoldStep(h, v, r);
    } else {
      FoldLast(h, v, r);
    }
  }

  // ---------------------------------------------------------------- irrelevant transactions

  /** What an irrelevant transaction spends and creates is not at the addresses. */
  lemma IrrelevantSpends(h: seq<Tx>, addresses: seq<Address>, r: TxIn)
    requires h != [] && Hydrated(h) && DistinctIds(h) && !IsTxRelevant(h[|h| - 1], addresses)
    requires r in At(Ledger(h[..|h| - 1]), addresses)
    ensures r !in Spent(h[|h| - 1], Rule) && r.txId != h[|h| - 1].id
  {
    var n := |h| - 1;
    var t := h[n];
    var p := FoldOrigin(h[..n], Rule, r);
    assert h[..n][p] == h[p] && HydratedFrom(h[p], t.inputs) && HydratedFrom(h[p], t.collaterals);
    var inputs := if t.phase2Valid then t.inputs else t.collaterals;
    assert !AnyInputAt(inputs, addresses);
    assert forall k :: 0 <= k < |inputs| && inputs[k].ref == r ==> inputs[k].address in addresses;
  }

  lemma IrrelevantCreates(t: Tx, addresses: seq<Address>)
    requires !IsTxRelevant(t, addresses)
    ensures At(Created(t, Rule), addresses) == map[]
  {
  }

  lemma StepAt(before: map<TxIn, Output>, t: Tx, v: Reading, addresses: seq<Address>)
    ensures At((before - Spent(t, v)) + Created(t, v), addresses)
         == (At(before, addresses) - Spent(t, v) - Created(t, v).Keys) + At(Created(t, v), addresses)
  {
  }

  lemma NothingLost(l: map<TxIn, Output>, x: set<TxIn>, y: set<TxIn>)
    requires forall r :: r in l ==> r !in x && r !in y
    ensures (l - x - y) + map[] == l
  {
  }

  /** A transaction that is not relevant to the addresses does not change what they hold. */
  lemma IrrelevantStep(h: seq<Tx>, addresses: seq<Address>)
    requires h != [] && Hydrated(h) && DistinctIds(h) && !IsTxRelevant(h[|h| - 1], addresses)
    ensures At(Ledger(h), addresses) == At(Ledger(h[..|h| - 1]), addresses)
  {
    var n := |h| - 1;
    var before := At(Ledger(h[..n]), addresses);
    StepAt(Ledger(h[..n]), h[n], Rule, addresses);
    forall r | r in before
      ensures r !in Spent(h[n], Rule) && r !in Created(h[n], Rule).Keys
    {
      IrrelevantSpends(h, addresses, r);
    }
    IrrelevantCreates(h[n], addresses);
    NothingLost(before, Spent(h[n], Rule), Created(h[n], Rule).Keys);
  }

  lemma HistoryPrefix(h: seq<Tx>)
    requires h != [] && Hydrated(h) && DistinctIds(h)
    ensures Hydrated(h[..|h| - 1]) && DistinctIds(h[..|h| - 1])
  {
    var f := h[..|h| - 1];
    forall p, q | 0 <= p < q < |f|
      ensures HydratedFrom(f[p], f[q].inputs) && HydratedFrom(f[p], f[q].collaterals)
    {
      assert f[p] == h[p] && f[q] == h[q];
    }
  }

  /** Dropping irrelevant transactions, failed ones included, leaves the holdings of the addresses as they were. */
  lemma {:induction false} RelevantSuffice(h: seq<Tx>, addresses: seq<Address>)
    requires Hydrated(h) && DistinctIds(h)
    ensures At(Ledger(Relevant(h, addresses)), addresses) == At(Ledger(h), addresses)
  {
    if h != [] {
      var front, t := h[..|h| - 1], h[|h| - 1];
      var kept := Relevant(front, addresses);
      assert h == front + [t];
      RelevantSnoc(front, t, addresses);
      HistoryPrefix(h);
      RelevantSuffice(front, addresses);
      if IsTxRelevant(t, addresses) {
        FoldSnoc(kept, t, Rule);
        StepAt(Ledger(front), t, Rule, addresses);
        StepAt(Ledger(kept), t, Rule, addresses);
      } else {
        IrrelevantStep(h, addresses);
        assert kept + [] == kept;
      }
    }
  }

  // ---------------------------------------------------------------- the nested loops

  /** An entry of the result: a reference and the output it names. */
  datatype Entry = Entry(ref: TxIn, output: Output)

  /** Output `k` of h[p] is at one of the addresses, and nothing after h[p] spends it. */
  ghost predicate IsHeld(h: seq<Tx>, addresses: seq<Address>, p: nat, k: nat)
    requires p < |h| && k < |h[p].outputs|
  {
    h[p].outputs[k].address in addresses && !SpentAfter(h, Body, p, TxIn(h[p].id, k))
  }

  /** The entries of the first `o` outputs of h[p]. */
  ghost function EntriesOf(h: seq<Tx>, addresses: seq<Address>, p: nat, o: nat): seq<Entry>
    requires p < |h| && o <= |h[p].outputs|
  {
    if o == 0 then []
    else
      var k := o - 1;
      var r := TxIn(h[p].id, k);
      EntriesOf(h, addresses, p, k)
        + if IsHeld(h, addresses, p, k) then [Entry(r, h[p].outputs[k])] else []
  }

  /** The entries of the first `p` transactions. */
  ghost function UnspentUpTo(h: seq<Tx>, addresses: seq<Address>, p: nat): seq<Entry>
    requires p <= |h|
  {
    if p == 0 then [] else UnspentUpTo(h, addresses, p - 1) + EntriesOf(h, addresses, p - 1, |h[p - 1].outputs|)
  }

  ghost function Unspent(h: seq<Tx>, addresses: seq<Address>): seq<Entry> {
    UnspentUpTo(h, addresses, |h|)
  }

  /** The two inner loops, with their `unspent` flag. */
  method IsUnspent(h: seq<Tx>, p: nat, r: TxIn) returns (unspent: bool)
    requires p < |h|
    ensures unspent == !SpentAfter(h, Body, p, r)
  {
    unspent := true;
    var q := p + 1;
    while q < |h| && unspent
      invariant p < q <= |h|
      invariant unspent ==> forall q' :: p < q' < q ==> r !in Refs(h[q'].inputs)
      invariant !unspent ==> SpentAfter(h, Body, p, r)
      decreases |h| - q
    {
      var k := 0;
      while k < |h[q].inputs| && unspent
        invariant k <= |h[q].inputs|
        invariant unspent ==> forall k' :: 0 <= k' < k ==> h[q].inputs[k'].ref != r
        invariant !unspent ==> r in Refs(h[q].inputs)
        decreases |h[q].inputs| - k
      {
        if h[q].inputs[k].ref == r { unspent := false; }
        k := k + 1;
      }
      q := q + 1;
    }
  }

  /** The two outer loops of utxoByAddresses. */
  method CollectUnspent(h: seq<Tx>, addresses: seq<Address>) returns (result: seq<Entry>)
    ensures result == Unspent(h, addresses)
  {
    result := [];
    for p := 0 to |h|
      invariant result == UnspentUpTo(h, addresses, p)
    {
      ghost var before := result;
      for o := 0 to |h[p].outputs|
        invariant result == before + EntriesOf(h, addresses, p, o)
      {
        var output := h[p].outputs[o];
        if output.address in addresses {
          var r := TxIn(h[p].id, o);
          var unspent := IsUnspent(h, p, r);
          if unspent { result := result + [Entry(r, output)]; }
        }
      }
    }
  }

  // ---------------------------------------------------------------- loops against the fold

  lemma {:induction false} EntriesMember(h: seq<Tx>, addresses: seq<Address>, p: nat, o: nat, e: Entry)
    requires p < |h| && o <= |h[p].outputs|
    ensures e in EntriesOf(h, addresses, p, o) <==>
      && e.ref.txId == h[p].id && e.ref.index < o && e.output == h[p].outputs[e.ref.index]
      && IsHeld(h, addresses, p, e.ref.index)
    decreases o
  {
    if o > 0 {
      var k := o - 1;
      EntriesMember(h, addresses, p, k, e);
      var here := Entry(TxIn(h[p].id, k), h[p].outputs[k]);
      assert e in EntriesOf(h, addresses, p, o) <==>
        e in EntriesOf(h, addresses, p, k) || (e == here && IsHeld(h, addresses, p, k));
    }
  }

  /** The bodies leave the entry unspent. */
  ghost predicate IsLeft(h: seq<Tx>, addresses: seq<Address>, e: Entry) {
    e.ref in At(Fold(h, Body), addresses) && e.output == Fold(h, Body)[e.ref]
  }

  /** The first `n` transactions of the history created the entry, and their bodies leave it unspent. */
  ghost predicate HeldFrom(h: seq<Tx>, addresses: seq<Address>, n: nat, e: Entry) {
    (exists p: nat :: p < n && Creates(h, Body, p, e.ref)) && IsLeft(h, addresses, e)
  }

  /** An output that a body lists is an entry exactly when the bodies leave it unspent. */
  lemma HeldHere(h: seq<Tx>, addresses: seq<Address>, p: nat, e: Entry)
    requires DistinctIds(h) && Creates(h, Body, p, e.ref)
    ensures e.ref.index < |h[p].outputs| && e.ref.txId == h[p].id
    ensures (e.output == h[p].outputs[e.ref.index] && IsHeld(h, addresses, p, e.ref.index))
       <==> (e.ref in At(Fold(h, Body), addresses) && e.output == Fold(h, Body)[e.ref])
  {
    FoldHolds(h, Body, p, e.ref);
  }

  lemma HeldFromMore(h: seq<Tx>, addresses: seq<Address>, n: nat, e: Entry)
    ensures HeldFrom(h, addresses, n + 1, e) <==>
      || HeldFrom(h, addresses, n, e)
      || (Creates(h, Body, n, e.ref) && IsLeft(h, addresses, e))
  {
    if HeldFrom(h, addresses, n + 1, e) {
      var p: nat :| p < n + 1 && Creates(h, Body, p, e.ref);
      assert p == n || HeldFrom(h, addresses, n, e);
    }
  }

  /** The entries of a transaction are the outputs its body lists and the bodies leave unspent. */
  lemma EntriesHeld(h: seq<Tx>, addresses: seq<Address>, p: nat, e: Entry)
    requires p < |h| && DistinctIds(h)
    ensures e in EntriesOf(h, addresses, p, |h[p].outputs|) <==>
      Creates(h, Body, p, e.ref) && IsLeft(h, addresses, e)
  {
    EntriesMember(h, addresses, p, |h[p].outputs|, e);
    assert Creates(h, Body, p, e.ref) <==> e.ref.txId == h[p].id && e.ref.index < |h[p].outputs|;
    if Creates(h, Body, p, e.ref) { HeldHere(h, addresses, p, e); }
  }

  lemma {:induction false} UnspentMember(h: seq<Tx>, addresses: seq<Address>, n: nat, e: Entry)
    requires n <= |h| && DistinctIds(h)
    ensures e in UnspentUpTo(h, addresses, n) <==> HeldFrom(h, addresses, n, e)
  {
    if n > 0 {
      var before, here := UnspentUpTo(h, addresses, n - 1), EntriesOf(h, addresses, n - 1, |h[n - 1].outputs|);
      assert UnspentUpTo(h, addresses, n) == before + here;
      UnspentMember(h, addresses, n - 1, e);
      EntriesHeld(h, addresses, n - 1, e);
      HeldFromMore(h, addresses, n - 1, e);
    }
  }

  /** No reference appears twice in the result. */
  ghost predicate UniqueRefs(es: seq<Entry>) {
    forall i, j :: 0 <= i < j < |es| ==> es[i].ref != es[j].ref
  }

  lemma UniqueConcat(xs: seq<Entry>, ys: seq<Entry>)
    requires UniqueRefs(xs) && UniqueRefs(ys)
    requires forall x, y :: x in xs && y in ys ==> x.ref != y.ref
    ensures UniqueRefs(xs + ys)
  {
  }

  lemma {:induction false} EntriesUnique(h: seq<Tx>, addresses: seq<Address>, p: nat, o: nat)
    requires p < |h| && o <= |h[p].outputs|
    ensures UniqueRefs(EntriesOf(h, addresses, p, o))
    decreases o
  {
    if o > 0 {
      EntriesUnique(h, addresses, p, o - 1);
      forall e ensures e in EntriesOf(h, addresses, p, o - 1) ==> e.ref.index < o - 1 {
        EntriesMember(h, addresses, p, o - 1, e);
      }
      var r := TxIn(h[p].id, o - 1);
      UniqueConcat(EntriesOf(h, addresses, p, o - 1), [Entry(r, h[p].outputs[o - 1])]);
      assert EntriesOf(h, addresses, p, o - 1) + [] == EntriesOf(h, addresses, p, o - 1);
    }
  }

  lemma {:induction false} UnspentUnique(h: seq<Tx>, addresses: seq<Address>, n: nat)
    requires n <= |h| && DistinctIds(h)
    ensures UniqueRefs(UnspentUpTo(h, addresses, n))
  {
    if n > 0 {
      UnspentUnique(h, addresses, n - 1);
      EntriesUnique(h, addresses, n - 1, |h[n - 1].outputs|);
      var xs, ys := UnspentUpTo(h, addresses, n - 1), EntriesOf(h, addresses, n - 1, |h[n - 1].outputs|);
      forall x, y | x in xs && y in ys ensures x.ref != y.ref {
        UnspentMember(h, addresses, n - 1, x);
        EntriesMember(h, addresses, n - 1, |h[n - 1].outputs|, y);
        var p: nat :| p < n - 1 && Creates(h, Body, p, x.ref);
        assert h[p].id != h[n - 1].id;
      }
      UniqueConcat(xs, ys);
    }
  }

  /** The entries are exactly the map, each reference once. */
  ghost predicate Lists(es: seq<Entry>, l: map<TxIn, Output>) {
    UniqueRefs(es) && forall e :: e in es <==> e.ref in l && l[e.ref] == e.output
  }

  /** On any list of distinct transactions the loops compute what the fold over their bodies leaves at the addresses. */
  lemma LoopsComputeFold(h: seq<Tx>, addresses: seq<Address>)
    requires DistinctIds(h)
    ensures Lists(Unspent(h, addresses), At(Fold(h, Body), addresses))
  {
    UnspentUnique(h, addresses, |h|);
    var l := At(Fold(h, Body), addresses);
    forall e ensures e in Unspent(h, addresses) <==> e.ref in l && l[e.ref] == e.output {
      UnspentMember(h, addresses, |h|, e);
      if e.ref in l {
        var p := FoldOrigin(h, Body, e.ref);
        assert Creates(h, Body, p, e.ref);
      }
    }
  }

  lemma ListsDetermines(es: seq<Entry>, l: map<TxIn, Output>, m: map<TxIn, Output>)
    requires Lists(es, l)
    ensures Lists(es, m) <==> l == m
  {
    if Lists(es, m) {
      forall r
        ensures r in l <==> r in m
        ensures r in l && r in m ==> l[r] == m[r]
      {
        if r in l { assert Entry(r, l[r]) in es; }
        if r in m { assert Entry(r, m[r]) in es; }
      }
    }
  }

  // ---------------------------------------------------------------- failed transactions

  /** The collateral return comes after the outputs. */
  predicate ReturnsApart(h: seq<Tx>) {
    forall i :: 0 <= i < |h| && !h[i].phase2Valid ==> h[i].returnIndex >= |h[i].outputs|
  }

  function Names(t: Tx): set<TxIn> {
    Refs(t.inputs) + Refs(t.collaterals)
  }

  function Ids(txs: seq<Tx>): set<TxId> {
    set i | 0 <= i < |txs| :: txs[i].id
  }

  /** What a transaction names of earlier ones is unspent, as the ledger demands of each, failed ones too. */
  ghost predicate NamesUnspent(before: seq<Tx>, t: Tx) {
    forall r :: r in Names(t) && r.txId in Ids(before) ==> r in Ledger(before)
  }

  ghost predicate Spendable(h: seq<Tx>) {
    forall q :: 0 <= q < |h| ==> NamesUnspent(h[..q], h[q])
  }

  /** An output at the addresses that an earlier transaction, h[p], has by the rule. */
  ghost predicate CreatedAt(h: seq<Tx>, addresses: seq<Address>, p: nat, r: TxIn) {
    Creates(h, Rule, p, r) && Created(h[p], Rule)[r].address in addresses
  }

  predicate ReturnAt(t: Tx, addresses: seq<Address>) {
    t.collateralReturn.Some? && t.collateralReturn.value.address in addresses
  }

  /** Some body after h[p], up to that of h[q], lists the reference as an input. */
  ghost predicate ListedBetween(h: seq<Tx>, p: nat, q: nat, r: TxIn) {
    exists k :: p < k <= q && k < |h| && r in Refs(h[k].inputs)
  }

  /**
    Reading only the body of the failed h[q] does no harm: it lists no output at the addresses, its return to
    them has been spent, no output of theirs that it lists as an input is left, and every one that it spends
    as a collateral is listed as an input.
   */
  ghost predicate HarmlessAt(h: seq<Tx>, addresses: seq<Address>, q: nat)
    requires q < |h|
  {
    && !AnyOutputAt(h[q].outputs, addresses)
    && (ReturnAt(h[q], addresses) ==> TxIn(h[q].id, h[q].returnIndex) !in Ledger(h))
    && (forall p: nat, r :: p < q && CreatedAt(h, addresses, p, r) && r in Refs(h[q].inputs) ==> r !in Ledger(h))
    && (forall p: nat, r ::
          p < q && CreatedAt(h, addresses, p, r) && h[p].phase2Valid && r in Refs(h[q].collaterals) ==>
            ListedBetween(h, p, q, r))
  }

  ghost predicate Harmless(h: seq<Tx>, addresses: seq<Address>) {
    forall q: nat :: q < |h| && !h[q].phase2Valid ==> HarmlessAt(h, addresses, q)
  }

  /** One of the addresses holds the output. */
  ghost predicate HeldAt(h: seq<Tx>, v: Reading, addresses: seq<Address>, r: TxIn) {
    r in Fold(h, v) && Fold(h, v)[r].address in addresses
  }

  /** Bodies and rule leave the addresses the same. */
  ghost predicate Agrees(h: seq<Tx>, addresses: seq<Address>) {
    At(Fold(h, Body), addresses) == At(Ledger(h), addresses)
  }

  lemma AgreeHeld(h: seq<Tx>, addresses: seq<Address>, r: TxIn)
    requires Agrees(h, addresses)
    ensures HeldAt(h, Body, addresses, r) <==> HeldAt(h, Rule, addresses, r)
  {
    assert r in At(Fold(h, Body), addresses) <==> HeldAt(h, Body, addresses, r);
    assert r in At(Ledger(h), addresses) <==> HeldAt(h, Rule, addresses, r);
  }

  /** Only the transaction with its id can have created a reference. */
  lemma OneCreator(h: seq<Tx>, v: Reading, q: nat, r: TxIn)
    requires DistinctIds(h) && q < |h| && r.txId == h[q].id && r in Fold(h, v)
    ensures r in Created(h[q], v)
  {
    var p := FoldOrigin(h, v, r);
    SameId(h, p, q);
  }

  /** The ledger never holds what only the body of a failed transaction lists as an output. */
  lemma PhantomOutput(h: seq<Tx>, q: nat, r: TxIn)
    requires DistinctIds(h) && q < |h| && !h[q].phase2Valid
    requires r.txId == h[q].id && r.index < |h[q].outputs| <= h[q].returnIndex
    ensures r !in Ledger(h)
  {
    if r in Ledger(h) { OneCreator(h, Rule, q, r); }
  }

  /** Nothing can name such an output, so the bodies list it. */
  lemma PhantomUnspent(h: seq<Tx>, q: nat, r: TxIn)
    requires DistinctIds(h) && Spendable(h) && q < |h| && !h[q].phase2Valid
    requires r.txId == h[q].id && r.index < |h[q].outputs| <= h[q].returnIndex
    ensures !SpentAfter(h, Body, q, r)
  {
    forall n | q < n < |h|
      ensures r !in Spent(h[n], Body)
    {
      assert NamesUnspent(h[..n], h[n]) && h[..n][q] == h[q];
      PhantomOutput(h[..n], q, r);
    }
  }

  lemma NoPhantom(h: seq<Tx>, addresses: seq<Address>, q: nat, k: nat)
    requires DistinctIds(h) && ReturnsApart(h) && Spendable(h) && Agrees(h, addresses)
    requires q < |h| && !h[q].phase2Valid && k < |h[q].outputs|
    ensures h[q].outputs[k].address !in addresses
  {
    var r := TxIn(h[q].id, k);
    PhantomOutput(h, q, r);
    PhantomUnspent(h, q, r);
    FoldHolds(h, Body, q, r);
    AgreeHeld(h, addresses, r);
  }

  lemma ReturnGone(h: seq<Tx>, addresses: seq<Address>, q: nat)
    requires DistinctIds(h) && ReturnsApart(h) && Agrees(h, addresses)
    requires q < |h| && !h[q].phase2Valid && ReturnAt(h[q], addresses)
    ensures TxIn(h[q].id, h[q].returnIndex) !in Ledger(h)
  {
    var r := TxIn(h[q].id, h[q].returnIndex);
    FoldHolds(h, Rule, q, r);
    AgreeHeld(h, addresses, r);
    if r in Fold(h, Body) { OneCreator(h, Body, q, r); }
  }

  lemma InputGone(h: seq<Tx>, addresses: seq<Address>, p: nat, q: nat, r: TxIn)
    requires DistinctIds(h) && Agrees(h, addresses) && p < q < |h|
    requires CreatedAt(h, addresses, p, r) && r in Refs(h[q].inputs)
    ensures r !in Ledger(h)
  {
    FoldHolds(h, Rule, p, r);
    AgreeHeld(h, addresses, r);
    if r in Fold(h, Body) {
      OneCreator(h, Body, p, r);
      FoldHolds(h, Body, p, r);
      assert r in Spent(h[q], Body);
    }
  }

  /** After a collateral was spent nothing can name it, so an input that lists it comes no later. */
  lemma ListedInTime(h: seq<Tx>, p: nat, q: nat, r: TxIn)
    requires DistinctIds(h) && Spendable(h) && p < q < |h| && !h[q].phase2Valid
    requires Creates(h, Rule, p, r) && r in Refs(h[q].collaterals) && SpentAfter(h, Body, p, r)
    ensures ListedBetween(h, p, q, r)
  {
    var n :| p < n < |h| && r in Spent(h[n], Body);
    if q < n {
      assert h[..n][p] == h[p] && h[..n][q] == h[q];
      assert SpentAfter(h[..n], Rule, p, r) by { assert r in Spent(h[..n][q], Rule); }
      FoldHolds(h[..n], Rule, p, r);
    }
  }

  lemma CollateralListed(h: seq<Tx>, addresses: seq<Address>, p: nat, q: nat, r: TxIn)
    requires DistinctIds(h) && Spendable(h) && Agrees(h, addresses)
    requires p < q < |h| && h[p].phase2Valid && !h[q].phase2Valid
    requires CreatedAt(h, addresses, p, r) && r in Refs(h[q].collaterals)
    ensures ListedBetween(h, p, q, r)
  {
    assert r in Spent(h[q], Rule);
    FoldHolds(h, Rule, p, r);
    FoldHolds(h, Body, p, r);
    AgreeHeld(h, addresses, r);
    ListedInTime(h, p, q, r);
  }

  lemma AgreeOnlyIfHarmless(h: seq<Tx>, addresses: seq<Address>, q: nat)
    requires DistinctIds(h) && ReturnsApart(h) && Spendable(h) && Agrees(h, addresses)
    requires q < |h| && !h[q].phase2Valid
    ensures HarmlessAt(h, addresses, q)
  {
    forall k | 0 <= k < |h[q].outputs|
      ensures h[q].outputs[k].address !in addresses
    {
      NoPhantom(h, addresses, q, k);
    }
    if ReturnAt(h[q], addresses) { ReturnGone(h, addresses, q); }
    forall p: nat, r | p < q && CreatedAt(h, addresses, p, r) && r in Refs(h[q].inputs)
      ensures r !in Ledger(h)
    {
      InputGone(h, addresses, p, q, r);
    }
    forall p: nat, r | p < q && CreatedAt(h, addresses, p, r) && h[p].phase2Valid && r in Refs(h[q].collaterals)
      ensures ListedBetween(h, p, q, r)
    {
      CollateralListed(h, addresses, p, q, r);
    }
  }

  /** What is held at the addresses, by either reading, was created by a valid transaction. */
  lemma ValidCreator(h: seq<Tx>, v: Reading, addresses: seq<Address>, r: TxIn) returns (p: nat)
    requires DistinctIds(h) && Harmless(h, addresses) && HeldAt(h, v, addresses, r)
    ensures p < |h| && h[p].phase2Valid && r in OutputsOf(h[p]) && Fold(h, v)[r] == OutputsOf(h[p])[r]
  {
    p := FoldOrigin(h, v, r);
  }

  /** Between harmless failures, an output of the addresses is spent by the bodies exactly when it is by the rule. */
  lemma SpentAlike(h: seq<Tx>, addresses: seq<Address>, p: nat, r: TxIn)
    requires DistinctIds(h) && Harmless(h, addresses) && p < |h| && h[p].phase2Valid
    requires r in OutputsOf(h[p]) && OutputsOf(h[p])[r].address in addresses
    ensures SpentAfter(h, Body, p, r) <==> SpentAfter(h, Rule, p, r)
  {
    assert CreatedAt(h, addresses, p, r);
    if q :| p < q < |h| && r in Spent(h[q], Rule) {
      if h[q].phase2Valid {
        assert r in Spent(h[q], Body);
      } else {
        assert HarmlessAt(h, addresses, q);
        var k :| p < k <= q && r in Refs(h[k].inputs);
        assert r in Spent(h[k], Body);
      }
    }
    if q :| p < q < |h| && r in Spent(h[q], Body) {
      if h[q].phase2Valid {
        assert r in Spent(h[q], Rule);
      } else {
        assert HarmlessAt(h, addresses, q);
        FoldHolds(h, Rule, p, r);
      }
    }
  }

  lemma HeldAlike(h: seq<Tx>, addresses: seq<Address>, v: Reading, w: Reading, r: TxIn)
    requires DistinctIds(h) && Harmless(h, addresses) && HeldAt(h, v, addresses, r)
    ensures HeldAt(h, w, addresses, r) && Fold(h, w)[r] == Fold(h, v)[r]
  {
    var p := ValidCreator(h, v, addresses, r);
    SpentAlike(h, addresses, p, r);
    FoldHolds(h, v, p, r);
    FoldHolds(h, w, p, r);
  }

  lemma AgreeIfHarmless(h: seq<Tx>, addresses: seq<Address>)
    requires DistinctIds(h) && Harmless(h, addresses)
    ensures Agrees(h, addresses)
  {
    var body, rule := At(Fold(h, Body), addresses), At(Ledger(h), addresses);
    forall r
      ensures r in body <==> r in rule
      ensures r in body ==> body[r] == rule[r]
    {
      if r in body { HeldAlike(h, addresses, Body, Rule, r); }
      if r in rule { HeldAlike(h, addresses, Rule, Body, r); }
    }
  }

  /** Bodies and rule leave the addresses the same exactly when every failure is harmless to them. */
  lemma AgreeIffHarmless(h: seq<Tx>, addresses: seq<Address>)
    requires DistinctIds(h) && ReturnsApart(h) && Spendable(h)
    ensures Agrees(h, addresses) <==> Harmless(h, addresses)
  {
    if Harmless(h, addresses) { AgreeIfHarmless(h, addresses); }
    if Agrees(h, addresses) {
      forall q: nat | q < |h| && !h[q].phase2Valid
        ensures HarmlessAt(h, addresses, q)
      {
        AgreeOnlyIfHarmless(h, addresses, q);
      }
    }
  }

  /** A failed transaction as the server sends it: what it spends is under collaterals, the rest is empty. */
  predicate ServerShaped(t: Tx) {
    t.inputs == [] && t.outputs == []
  }

  /** It spends nothing of the addresses that a valid transaction gave them, and its return to them has been spent. */
  ghost predicate TakesNothing(h: seq<Tx>, addresses: seq<Address>, q: nat)
    requires q < |h|
  {
    && (ReturnAt(h[q], addresses) ==> TxIn(h[q].id, h[q].returnIndex) !in Ledger(h))
    && (forall p: nat, r :: p < q && CreatedAt(h, addresses, p, r) && h[p].phase2Valid ==> r !in Refs(h[q].collaterals))
  }

  /** What a transaction names was not spent before it. */
  lemma NamedUnspent(h: seq<Tx>, p: nat, q: nat, k: nat, r: TxIn)
    requires DistinctIds(h) && Spendable(h) && p < k < q < |h| && Creates(h, Rule, p, r) && r in Names(h[q])
    ensures r !in Spent(h[k], Rule)
  {
    var before := h[..q];
    assert before[p] == h[p] && before[k] == h[k];
    assert r.txId in Ids(before) by { assert before[p].id == r.txId; }
    assert NamesUnspent(before, h[q]);
    FoldHolds(before, Rule, p, r);
  }

  /** No body of a valid transaction lists what a later collateral spends, and no server-shaped one lists anything. */
  lemma NeverListed(h: seq<Tx>, p: nat, q: nat, r: TxIn)
    requires DistinctIds(h) && Spendable(h) && p < q < |h| && Creates(h, Rule, p, r) && r in Refs(h[q].collaterals)
    requires forall k :: 0 <= k < |h| && !h[k].phase2Valid ==> ServerShaped(h[k])
    requires !h[q].phase2Valid
    ensures !ListedBetween(h, p, q, r)
  {
    forall k | p < k <= q
      ensures r !in Refs(h[k].inputs)
    {
      if h[k].phase2Valid { NamedUnspent(h, p, q, k, r); }
    }
  }

  /** Of what this server sends, a failure is harmless exactly when it takes nothing of the addresses. */
  lemma ServerShapedHarmless(h: seq<Tx>, addresses: seq<Address>, q: nat)
    requires DistinctIds(h) && Spendable(h) && q < |h| && !h[q].phase2Valid
    requires forall k :: 0 <= k < |h| && !h[k].phase2Valid ==> ServerShaped(h[k])
    ensures HarmlessAt(h, addresses, q) <==> TakesNothing(h, addresses, q)
  {
    forall p: nat, r | p < q && CreatedAt(h, addresses, p, r) && h[p].phase2Valid && r in Refs(h[q].collaterals)
      ensures !ListedBetween(h, p, q, r)
    {
      NeverListed(h, p, q, r);
    }
  }

  // ---------------------------------------------------------------- sorting the history

  /** The comparator of the sort: block number, then index in the block. */
  predicate Before(a: Tx, b: Tx) {
    a.blockNo < b.blockNo || (a.blockNo == b.blockNo && a.index <= b.index)
  }

  /** Earlier blocks come first, and of one block the lower indexes. */
  ghost predicate Chronological(h: seq<Tx>) {
    forall i, j :: 0 <= i < j < |h| ==>
      h[i].blockNo < h[j].blockNo || (h[i].blockNo == h[j].blockNo && h[i].index <= h[j].index)
  }

  function SortTxs(txs: seq<Tx>): seq<Tx> {
    Sort(txs, Before)
  }

  lemma SortTxsSorted(txs: seq<Tx>)
    ensures Chronological(SortTxs(txs)) && multiset(SortTxs(txs)) == multiset(txs)
  {
    SortIsSorted(txs, Before);
    SortIsPermutation(txs, Before);
    var h := SortTxs(txs);
    forall i, j | 0 <= i < j < |h|
      ensures h[i].blockNo < h[j].blockNo || (h[i].blockNo == h[j].blockNo && h[i].index <= h[j].index)
    {
      assert Before(h[i], h[j]);
    }
  }

  /** Filtering and then sorting, as the code does, is sorting and then filtering. */
  lemma SortRelevant(txs: seq<Tx>, addresses: seq<Address>)
    ensures SortTxs(Relevant(txs, addresses)) == Relevant(SortTxs(txs), addresses)
  {
    SortFiltered(txs, Before, (t: Tx) => IsTxRelevant(t, addresses));
  }

  // ---------------------------------------------------------------- the relevant part of a history

  /** A history as the chain has it: hydrated, and every transaction names only what was unspent. */
  ghost predicate IsPlausible(h: seq<Tx>) {
    Hydrated(h) && ReturnsApart(h) && Spendable(h)
  }

  lemma {:induction false} RelevantDistinct(h: seq<Tx>, addresses: seq<Address>)
    requires DistinctIds(h)
    ensures DistinctIds(Relevant(h, addresses))
  {
    if h != [] {
      var front, t := h[..|h| - 1], h[|h| - 1];
      RelevantDistinct(front, addresses);
      RelevantMembers(front, addresses);
      assert h == front + [t];
      RelevantSnoc(front, t, addresses);
      var kept := Relevant(front, addresses);
      forall i | 0 <= i < |kept|
        ensures kept[i].id != t.id
      {
        assert kept[i] in front;
      }
      assert kept + [] == kept;
    }
  }

  /** A transaction whose id is among those of the relevant ones is relevant. */
  lemma RelevantIfNamed(h: seq<Tx>, addresses: seq<Address>, p: nat, r: TxIn)
    requires DistinctIds(h) && p < |h| && h[p].id == r.txId && r.txId in Ids(Relevant(h, addresses))
    ensures IsTxRelevant(h[p], addresses)
  {
    var kept := Relevant(h, addresses);
    RelevantMembers(h, addresses);
    var i :| 0 <= i < |kept| && kept[i].id == r.txId;
    assert kept[i] in h;
    var q :| 0 <= q < |h| && h[q] == kept[i];
    SameId(h, p, q);
  }

  lemma KeptId(front: seq<Tx>, t: Tx, addresses: seq<Address>, r: TxIn)
    requires DistinctIds(front + [t]) && r.txId in Ids(Relevant(front + [t], addresses))
    requires r in Ledger(front + [t]) && r !in Created(t, Rule)
    ensures r in Ledger(front) && r !in Spent(t, Rule) && r.txId in Ids(Relevant(front, addresses))
  {
    FoldSnoc(front, t, Rule);
    var p := FoldOrigin(front, Rule, r);
    RelevantSnoc(front, t, addresses);
    assert (front + [t])[p] == front[p] && (front + [t])[|front|] == t;
    var all, kept := Relevant(front + [t], addresses), Relevant(front, addresses);
    var i :| 0 <= i < |all| && all[i].id == r.txId;
    assert i < |kept|;
    assert kept[i].id == r.txId;
  }

  lemma HeldAfter(front: seq<Tx>, t: Tx, addresses: seq<Address>, r: TxIn)
    requires if r in Created(t, Rule) then IsTxRelevant(t, addresses)
             else r !in Spent(t, Rule) && r in Ledger(Relevant(front, addresses))
    ensures r in Ledger(Relevant(front + [t], addresses))
  {
    var kept := Relevant(front, addresses);
    RelevantSnoc(front, t, addresses);
    FoldSnoc(kept, t, Rule);
    assert kept + [] == kept;
  }

  /** What the ledger holds of a relevant transaction, the ledger of the relevant ones holds too. */
  lemma {:induction false} RelevantHolds(h: seq<Tx>, addresses: seq<Address>, r: TxIn)
    requires DistinctIds(h) && r in Ledger(h) && r.txId in Ids(Relevant(h, addresses))
    ensures r in Ledger(Relevant(h, addresses))
  {
    if h != [] {
      var front, t := h[..|h| - 1], h[|h| - 1];
      assert h == front + [t];
      if r in Created(t, Rule) {
        RelevantIfNamed(h, addresses, |h| - 1, r);
      } else {
        KeptId(front, t, addresses, r);
        RelevantHolds(front, addresses, r);
      }
      HeldAfter(front, t, addresses, r);
    }
  }

  lemma SpendablePrefix(h: seq<Tx>)
    requires h != [] && Spendable(h)
    ensures Spendable(h[..|h| - 1])
  {
    var f := h[..|h| - 1];
    forall q | 0 <= q < |f|
      ensures NamesUnspent(f[..q], f[q])
    {
      assert f[..q] == h[..q] && f[q] == h[q];
    }
  }

  lemma SpendableSnoc(h: seq<Tx>, t: Tx)
    requires Spendable(h) && NamesUnspent(h, t)
    ensures Spendable(h + [t])
  {
    var more := h + [t];
    forall q | 0 <= q < |more|
      ensures NamesUnspent(more[..q], more[q])
    {
      if q < |h| {
        assert more[..q] == h[..q] && more[q] == h[q];
      } else {
        assert more[..q] == h;
      }
    }
  }

  lemma KeptIsEarlier(h: seq<Tx>, addresses: seq<Address>, r: TxIn)
    requires r.txId in Ids(Relevant(h, addresses))
    ensures r.txId in Ids(h)
  {
    var kept := Relevant(h, addresses);
    RelevantMembers(h, addresses);
    var i :| 0 <= i < |kept| && kept[i].id == r.txId;
    assert kept[i] in h;
    var q :| 0 <= q < |h| && h[q] == kept[i];
    assert h[q].id == r.txId;
  }

  lemma {:induction false} RelevantSpendable(h: seq<Tx>, addresses: seq<Address>)
    requires DistinctIds(h) && Spendable(h)
    ensures Spendable(Relevant(h, addresses))
  {
    if h != [] {
      var front, t := h[..|h| - 1], h[|h| - 1];
      var kept := Relevant(front, addresses);
      assert h == front + [t];
      SpendablePrefix(h);
      RelevantSpendable(front, addresses);
      RelevantSnoc(front, t, addresses);
      assert kept + [] == kept;
      forall r | r in Names(t) && r.txId in Ids(kept)
        ensures r in Ledger(kept)
      {
        KeptIsEarlier(front, addresses, r);
        assert NamesUnspent(h[..|h| - 1], t);
        RelevantHolds(front, addresses, r);
      }
      SpendableSnoc(kept, t);
    }
  }

  lemma RelevantReturns(h: seq<Tx>, addresses: seq<Address>)
    requires ReturnsApart(h)
    ensures ReturnsApart(Relevant(h, addresses))
  {
    RelevantMembers(h, addresses);
    var kept := Relevant(h, addresses);
    forall i | 0 <= i < |kept| && !kept[i].phase2Valid
      ensures kept[i].returnIndex >= |kept[i].outputs|
    {
      assert kept[i] in h;
    }
  }

  lemma {:induction false} ValidAgree(h: seq<Tx>)
    requires forall i :: 0 <= i < |h| ==> h[i].phase2Valid
    ensures Fold(h, Body) == Ledger(h)
  {
    if h != [] { ValidAgree(h[..|h| - 1]); }
  }

  /** What the loops list of the relevant part of a history, compared with the ledger of all of it. */
  lemma RelevantListed(history: seq<Tx>, addresses: seq<Address>, es: seq<Entry>)
    requires DistinctIds(history) && es == Unspent(Relevant(history, addresses), addresses) && Hydrated(history)
    ensures (forall t :: t in Relevant(history, addresses) ==> t.phase2Valid) ==>
      Lists(es, At(Ledger(history), addresses))
    ensures IsPlausible(history) ==>
      (Lists(es, At(Ledger(history), addresses)) <==> Harmless(Relevant(history, addresses), addresses))
  {
    var kept := Relevant(history, addresses);
    RelevantDistinct(history, addresses);
    LoopsComputeFold(kept, addresses);
    ListsDetermines(es, At(Fold(kept, Body), addresses), At(Ledger(history), addresses));
    RelevantSuffice(history, addresses);
    if forall t :: t in kept ==> t.phase2Valid { ValidAgree(kept); }
    if IsPlausible(history) {
      RelevantSpendable(history, addresses);
      RelevantReturns(history, addresses);
      AgreeIffHarmless(kept, addresses);
    }
  }

  // ---------------------------------------------------------------- messages

  /** The store: full transactions, and partial ones known only for their UTxO. */
  datatype Txs = Txs(transactions: map<TxId, Tx>, utxos: map<TxId, Tx>)

  /** The parts of a message that touch the store. */
  datatype Message = Message(transactions: seq<Tx>, utxos: seq<Tx>, tip: Option<nat>)

  /** Each transaction is filed under its own id, in only one of the two maps. */
  ghost predicate ValidTxs(s: Txs) {
    && (forall k :: k in s.transactions ==> s.transactions[k].id == k)
    && (forall k :: k in s.utxos ==> s.utxos[k].id == k)
    && s.transactions.Keys !! s.utxos.Keys
  }

  function AddTransactions(s: Txs, txs: seq<Tx>): Txs {
    if txs == [] then s
    else
      var t := txs[|txs| - 1];
      var s' := AddTransactions(s, txs[..|txs| - 1]);
      Txs(s'.transactions[t.id := t], s'.utxos - {t.id})
  }

  function AddUtxos(s: Txs, txs: seq<Tx>): Txs {
    if txs == [] then s
    else
      var t := txs[|txs| - 1];
      var s' := AddUtxos(s, txs[..|txs| - 1]);
      if t.id in s'.transactions then s' else s'.(utxos := s'.utxos[t.id := t])
  }

  /** removeRolledBackTxs */
  function RemoveRolledBack(m: map<TxId, Tx>, blockNo: nat): map<TxId, Tx> {
    map k | k in m && m[k].blockNo <= blockNo :: m[k]
  }

  /** What one message does to the store. */
  function Receive(s: Txs, msg: Message): Txs {
    var s' := AddUtxos(AddTransactions(s, msg.transactions), msg.utxos);
    match msg.tip
    case None => s'
    case Some(tip) => Txs(RemoveRolledBack(s'.transactions, tip), RemoveRolledBack(s'.utxos, tip))
  }

  function ReceiveAll(s: Txs, msgs: seq<Message>): Txs {
    if msgs == [] then s else Receive(ReceiveAll(s, msgs[..|msgs| - 1]), msgs[|msgs| - 1])
  }

  lemma IdsSnoc(txs: seq<Tx>)
    requires txs != []
    ensures Ids(txs) == Ids(txs[..|txs| - 1]) + {txs[|txs| - 1].id}
  {
  }

  lemma {:induction false} AddTransactionsValid(s: Txs, txs: seq<Tx>)
    requires ValidTxs(s)
    ensures ValidTxs(AddTransactions(s, txs))
    ensures AddTransactions(s, txs).transactions.Keys == s.transactions.Keys + Ids(txs)
  {
    if txs != [] {
      AddTransactionsValid(s, txs[..|txs| - 1]);
      IdsSnoc(txs);
    }
  }

  lemma {:induction false} AddUtxosValid(s: Txs, txs: seq<Tx>)
    requires ValidTxs(s)
    ensures ValidTxs(AddUtxos(s, txs)) && AddUtxos(s, txs).transactions == s.transactions
  {
    if txs != [] { AddUtxosValid(s, txs[..|txs| - 1]); }
  }

  /** A message keeps the two maps disjoint and keyed by id, and leaves nothing above a new tip. */
  lemma ReceiveValid(s: Txs, msg: Message)
    requires ValidTxs(s)
    ensures ValidTxs(Receive(s, msg))
    ensures var after := Receive(s, msg);
      msg.tip.Some? ==>
        && (forall k :: k in after.transactions ==> after.transactions[k].blockNo <= msg.tip.value)
        && (forall k :: k in after.utxos ==> after.utxos[k].blockNo <= msg.tip.value)
    ensures msg.tip.None? ==> Receive(s, msg).transactions.Keys == s.transactions.Keys + Ids(msg.transactions)
  {
    AddTransactionsValid(s, msg.transactions);
    AddUtxosValid(AddTransactions(s, msg.transactions), msg.utxos);
  }

  /** `t` is at position `i`, and nothing behind it has its id. */
  ghost predicate IsLastAt(txs: seq<Tx>, i: nat, t: Tx) {
    i < |txs| && txs[i] == t && forall j :: i < j < |txs| ==> txs[j].id != t.id
  }

  /** Of several transactions with one id, the one that comes last. */
  ghost predicate IsLastOf(txs: seq<Tx>, t: Tx) {
    exists i :: IsLastAt(txs, i, t)
  }

  predicate StoredAs(m: map<TxId, Tx>, t: Tx) {
    t.id in m && m[t.id] == t
  }

  lemma LastAtMore(front: seq<Tx>, last: Tx, i: nat, t: Tx)
    requires i < |front|
    ensures IsLastAt(front + [last], i, t) <==> IsLastAt(front, i, t) && last.id != t.id
  {
    var all := front + [last];
    assert all[|front|] == last && forall j :: 0 <= j < |front| ==> all[j] == front[j];
  }

  lemma LastOfSnoc(front: seq<Tx>, last: Tx, t: Tx)
    ensures IsLastOf(front + [last], t) <==> t == last || (t.id != last.id && IsLastOf(front, t))
  {
    if i: nat :| IsLastAt(front + [last], i, t) {
      if i < |front| { LastAtMore(front, last, i, t); }
    }
    if i: nat :| IsLastAt(front, i, t) { LastAtMore(front, last, i, t); }
    if t == last { assert IsLastAt(front + [last], |front|, t); }
  }

  /** A listed transaction is stored under its id, the last one of an id; no other transaction changes. */
  lemma {:induction false} TransactionsStored(s: Txs, txs: seq<Tx>, t: Tx)
    requires ValidTxs(s)
    ensures StoredAs(AddTransactions(s, txs).transactions, t) <==>
      IsLastOf(txs, t) || (t.id !in Ids(txs) && StoredAs(s.transactions, t))
    ensures StoredAs(AddTransactions(s, txs).utxos, t) <==> t.id !in Ids(txs) && StoredAs(s.utxos, t)
  {
    if txs != [] {
      TransactionsStored(s, txs[..|txs| - 1], t);
      AddTransactionsValid(s, txs[..|txs| - 1]);
      IdsSnoc(txs);
      LastOfSnoc(txs[..|txs| - 1], txs[|txs| - 1], t);
      assert txs == txs[..|txs| - 1] + [txs[|txs| - 1]];
    }
  }

  /** A partial transaction is stored unless a full one with its id is. */
  lemma {:induction false} UtxosStored(s: Txs, txs: seq<Tx>, t: Tx)
    requires ValidTxs(s)
    ensures StoredAs(AddUtxos(s, txs).utxos, t) <==>
      t.id !in s.transactions && (IsLastOf(txs, t) || (t.id !in Ids(txs) && StoredAs(s.utxos, t)))
  {
    if txs != [] {
      UtxosStored(s, txs[..|txs| - 1], t);
      AddUtxosValid(s, txs[..|txs| - 1]);
      IdsSnoc(txs);
      LastOfSnoc(txs[..|txs| - 1], txs[|txs| - 1], t);
      assert txs == txs[..|txs| - 1] + [txs[|txs| - 1]];
    }
  }

  /** A new tip rolls back what is above it. */
  predicate TipAllows(tip: Option<nat>, t: Tx) {
    tip.Some? ==> t.blockNo <= tip.value
  }

  /**
    What is stored after a message: of the full transactions, those it lists and the ones stored before; of the
    partial ones, those it lists and the ones stored before, unless there is a full one; of both, only what a
    new tip allows.
   */
  lemma ReceiveStores(s: Txs, msg: Message, t: Tx)
    requires ValidTxs(s)
    ensures StoredAs(Receive(s, msg).transactions, t) <==>
      && TipAllows(msg.tip, t)
      && (IsLastOf(msg.transactions, t) || (t.id !in Ids(msg.transactions) && StoredAs(s.transactions, t)))
    ensures StoredAs(Receive(s, msg).utxos, t) <==>
      && TipAllows(msg.tip, t)
      && t.id !in s.transactions && t.id !in Ids(msg.transactions)
      && (IsLastOf(msg.utxos, t) || (t.id !in Ids(msg.utxos) && StoredAs(s.utxos, t)))
  {
    var s1 := AddTransactions(s, msg.transactions);
    AddTransactionsValid(s, msg.transactions);
    AddUtxosValid(s1, msg.utxos);
    TransactionsStored(s, msg.transactions, t);
    UtxosStored(s1, msg.utxos, t);
  }

  /** Message `m` is the last to list the id of `t`, with `t`, and no tip from then on is below it. */
  ghost predicate IsDelivered(msgs: seq<Message>, m: nat, t: Tx) {
    && m < |msgs| && IsLastOf(msgs[m].transactions, t)
    && (forall k :: m < k < |msgs| ==> t.id !in Ids(msgs[k].transactions))
    && (forall k :: m <= k < |msgs| ==> TipAllows(msgs[k].tip, t))
  }

  lemma DeliveredSnoc(msgs: seq<Message>, t: Tx)
    requires msgs != []
    ensures var n := |msgs| - 1;
      (exists m :: IsDelivered(msgs, m, t)) <==>
        && TipAllows(msgs[n].tip, t)
        && (IsLastOf(msgs[n].transactions, t)
            || (t.id !in Ids(msgs[n].transactions) && exists m :: IsDelivered(msgs[..n], m, t)))
  {
    var n := |msgs| - 1;
    var front := msgs[..n];
    assert forall k :: 0 <= k < n ==> front[k] == msgs[k];
    if m: nat :| IsDelivered(msgs, m, t) {
      if m < n { assert IsDelivered(front, m, t); }
    }
    if TipAllows(msgs[n].tip, t) && IsLastOf(msgs[n].transactions, t) {
      assert IsDelivered(msgs, n, t);
    }
    if m: nat :| TipAllows(msgs[n].tip, t) && t.id !in Ids(msgs[n].transactions) && IsDelivered(front, m, t) {
      forall k | m < k < |msgs| ensures t.id !in Ids(msgs[k].transactions) && TipAllows(msgs[k].tip, t) {
        if k < n { assert front[k] == msgs[k]; }
      }
      assert IsDelivered(msgs, m, t);
    }
  }

  /** Whatever messages have arrived, no id is stored twice. */
  lemma {:induction false} EveryRunValid(msgs: seq<Message>)
    ensures ValidTxs(ReceiveAll(Txs(map[], map[]), msgs))
  {
    if msgs != [] {
      EveryRunValid(msgs[..|msgs| - 1]);
      ReceiveValid(ReceiveAll(Txs(map[], map[]), msgs[..|msgs| - 1]), msgs[|msgs| - 1]);
    }
  }

  /** After any run a transaction is stored exactly when it was delivered last for its id and not rolled back since. */
  lemma {:induction false} StoredIffDelivered(msgs: seq<Message>, t: Tx)
    ensures StoredAs(ReceiveAll(Txs(map[], map[]), msgs).transactions, t) <==> exists m :: IsDelivered(msgs, m, t)
  {
    if msgs != [] {
      var n := |msgs| - 1;
      StoredIffDelivered(msgs[..n], t);
      EveryRunValid(msgs[..n]);
      ReceiveStores(ReceiveAll(Txs(map[], map[]), msgs[..n]), msgs[n], t);
      DeliveredSnoc(msgs, t);
    }
  }

  // ---------------------------------------------------------------- the client

  datatype Status = Syncing | Synced
  datatype Failure = NotLoaded(address: Address) | StillLoading(address: Address)

  /** The values of a map, in some order. */
  method ValuesOf(m: map<TxId, Tx>) returns (r: seq<Tx>)
    requires forall k :: k in m ==> m[k].id == k
    ensures DistinctIds(r)
    ensures forall t :: t in r <==> t.id in m && m[t.id] == t
  {
    r := [];
    var todo := m.Keys;
    while todo != {}
      invariant todo <= m.Keys && DistinctIds(r)
      invariant forall t :: t in r <==> t.id in m && m[t.id] == t && t.id !in todo
    {
      var k :| k in todo;
      forall i | 0 <= i < |r| ensures r[i].id != k { assert r[i] in r; }
      r := r + [m[k]];
      todo := todo - {k};
    }
  }

  lemma PermutedIds(xs: seq<Tx>, ys: seq<Tx>)
    requires multiset(xs) == multiset(ys) && DistinctIds(xs)
    ensures DistinctIds(ys)
  {
    var id := (t: Tx) => t.id;
    PermutedDistinct(xs, ys, id);
    forall i, j | 0 <= i < j < |ys|
      ensures ys[i].id != ys[j].id
    {
      assert id(ys[i]) != id(ys[j]);
    }
  }

  /** The whole stored history in chronological order. */
  ghost predicate IsHistory(s: Txs, h: seq<Tx>) {
    && Chronological(h) && DistinctIds(h)
    && forall t :: t in h <==>
         || (t.id in s.transactions && s.transactions[t.id] == t)
         || (t.id in s.utxos && s.utxos[t.id] == t)
  }

  method History(s: Txs) returns (txs: seq<Tx>)
    requires ValidTxs(s)
    ensures IsHistory(s, SortTxs(txs))
  {
    var utxos := ValuesOf(s.utxos);
    var transactions := ValuesOf(s.transactions);
    txs := utxos + transactions;
    assert DistinctIds(txs) by {
      forall i, j | 0 <= i < j < |txs| ensures txs[i].id != txs[j].id {
        if i < |utxos| <= j { assert txs[i] in utxos && txs[j] in transactions; }
      }
    }
    SortTxsSorted(txs);
    PermutedIds(txs, SortTxs(txs));
    forall t ensures t in SortTxs(txs) <==> t in txs { assert t in multiset(SortTxs(txs)) <==> t in multiset(txs); }
  }

  /** The store part of CardanoWsClient. */
  class WsClient {
    var store: Txs
    var addresses: map<Address, Status>

    constructor ()
      ensures store == Txs(map[], map[]) && addresses == map[] && ValidTxs(store)
    {
      store, addresses := Txs(map[], map[]), map[];
    }

    /** The store updates of onmessage. */
    method OnMessage(msg: Message)
      requires ValidTxs(store)
      modifies this`store
      ensures store == Receive(old(store), msg) && ValidTxs(store)
    {
      ghost var before := store;
      for i := 0 to |msg.transactions|
        invariant store == AddTransactions(before, msg.transactions[..i])
      {
        var t := msg.transactions[i];
        store := Txs(store.transactions[t.id := t], store.utxos - {t.id});
        assert msg.transactions[..i + 1][..i] == msg.transactions[..i];
      }
      assert msg.transactions[..|msg.transactions|] == msg.transactions;
      ghost var middle := store;
      for i := 0 to |msg.utxos|
        invariant store == AddUtxos(middle, msg.utxos[..i])
      {
        var t := msg.utxos[i];
        if t.id !in store.transactions { store := store.(utxos := store.utxos[t.id := t]); }
        assert msg.utxos[..i + 1][..i] == msg.utxos[..i];
      }
      assert msg.utxos[..|msg.utxos|] == msg.utxos;
      if msg.tip.Some? {
        store := Txs(RemoveRolledBack(store.transactions, msg.tip.value), RemoveRolledBack(store.utxos, msg.tip.value));
      }
      ReceiveValid(before, msg);
    }

    /**
      utxoByAddresses: for loaded addresses and a history with hydrated inputs, the result lists exactly the
      ledger's UTxO at the addresses, each once, when no relevant transaction failed; and if some did, exactly
      when that is harmless.
     */
    method UtxoByAddresses(wanted: seq<Address>) returns (r: Result<seq<Entry>, Failure>, ghost history: seq<Tx>)
      requires ValidTxs(store)
      ensures r.Ok? <==> forall a :: a in wanted ==> a in addresses && addresses[a] == Synced
      ensures r.Err? ==> r.error.address in wanted && (r.error.NotLoaded? <==> r.error.address !in addresses)
      // the first address that is not loaded
      ensures r.Err? ==> exists i :: 0 <= i < |wanted| && wanted[i] == r.error.address
                                && (wanted[i] in addresses ==> addresses[wanted[i]] == Syncing)
                                && forall k :: 0 <= k < i ==> wanted[k] in addresses && addresses[wanted[k]] == Synced
      ensures IsHistory(store, history)
      ensures r.Ok? && Hydrated(history) && (forall t :: t in Relevant(history, wanted) ==> t.phase2Valid) ==>
        Lists(r.value, At(Ledger(history), wanted))
      ensures r.Ok? && IsPlausible(history) ==>
        (Lists(r.value, At(Ledger(history), wanted)) <==> Harmless(Relevant(history, wanted), wanted))
    {
      var txs := History(store);
      history := SortTxs(txs);
      for i := 0 to |wanted|
        invariant forall k :: 0 <= k < i ==> wanted[k] in addresses && addresses[wanted[k]] == Synced
      {
        if wanted[i] !in addresses { return Err(NotLoaded(wanted[i])), history; }
        if addresses[wanted[i]] == Syncing { return Err(StillLoading(wanted[i])), history; }
      }
      var result := CollectUnspent(SortTxs(Relevant(txs, wanted)), wanted);
      SortRelevant(txs, wanted);
      if Hydrated(history) { RelevantListed(history, wanted, result); }
      r := Ok(result);
    }
  }

  // ---------------------------------------------------------------- a failure that does harm

  /** An address is given an output ... */
  function Funding(a: Address): Tx {
    Tx("funding", 1, 0, [Input(TxIn("genesis", 0), "")], [Output(a, "")], true, [], None, 0)
  }

  /** ... and loses it as the collateral of a transaction that fails. */
  function Failing(a: Address): Tx {
    Tx("failing", 2, 0, [], [], false, [Input(TxIn("funding", 0), a)], None, 1)
  }

  lemma FundedLedger(a: Address)
    ensures Ledger([Funding(a)]) == map[TxIn("funding", 0) := Output(a, "")]
  {
    FoldSnoc([], Funding(a), Rule);
    assert [] + [Funding(a)] == [Funding(a)];
  }

  lemma FailingNames(a: Address)
    ensures Refs(Failing(a).collaterals) == {TxIn("funding", 0)} && Names(Failing(a)) == {TxIn("funding", 0)}
  {
    var inputs := Failing(a).collaterals;
    assert inputs[0].ref == TxIn("funding", 0);
  }

  lemma ExampleIsPlausible(a: Address)
    ensures IsPlausible([Funding(a), Failing(a)]) && DistinctIds([Funding(a), Failing(a)])
  {
    var h := [Funding(a), Failing(a)];
    FundedLedger(a);
    FailingNames(a);
    assert h[..0] == [] && h[..1] == [Funding(a)];
    assert NamesUnspent([], Funding(a)) by { assert Ids([]) == {}; }
    assert NamesUnspent([Funding(a)], Failing(a));
  }

  lemma ExampleRelevant(a: Address)
    ensures var h := [Funding(a), Failing(a)]; Chronological(h) && Relevant(h, [a]) == h
  {
    assert AnyOutputAt(Funding(a).outputs, [a]) by { assert Funding(a).outputs[0].address in [a]; }
    assert AnyInputAt(Failing(a).collaterals, [a]) by { assert Failing(a).collaterals[0].address in [a]; }
    RelevantSnoc([], Funding(a), [a]);
    RelevantSnoc([Funding(a)], Failing(a), [a]);
    assert [] + [Funding(a)] == [Funding(a)] && [Funding(a)] + [Failing(a)] == [Funding(a), Failing(a)];
  }

  /** The bodies leave the output where it was. */
  lemma ExampleHeld(a: Address)
    ensures At(Fold([Funding(a), Failing(a)], Body), [a]) == map[TxIn("funding", 0) := Output(a, "")]
  {
    FoldSnoc([], Funding(a), Body);
    FoldSnoc([Funding(a)], Failing(a), Body);
    assert [] + [Funding(a)] == [Funding(a)] && [Funding(a)] + [Failing(a)] == [Funding(a), Failing(a)];
  }

  /** The loops still list what the ledger has taken: this history is plausible, and the result is wrong. */
  lemma FailedTransactionListed(a: Address)
    ensures var h := [Funding(a), Failing(a)];
            IsPlausible(h) && DistinctIds(h) && Chronological(h) && Relevant(h, [a]) == h
    ensures var h := [Funding(a), Failing(a)];
            Unspent(h, [a]) != [] && At(Ledger(h), [a]) == map[] && !Lists(Unspent(h, [a]), At(Ledger(h), [a]))
  {
    var h := [Funding(a), Failing(a)];
    var r := TxIn("funding", 0);
    ExampleIsPlausible(a);
    ExampleRelevant(a);
    FundedLedger(a);
    FailingNames(a);
    FoldSnoc([Funding(a)], Failing(a), Rule);
    assert [Funding(a)] + [Failing(a)] == h;
    assert Ledger(h) == map[];
    LoopsComputeFold(h, [a]);
    ExampleHeld(a);
    assert Entry(r, Output(a, "")) in Unspent(h, [a]);
  }
}
