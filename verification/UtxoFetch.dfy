/**
  Fetching the UTxO of a wallet: one query per address, or one query per credential of a small cover
  of the addresses.  The ledger behind the queries is any list of outputs with distinct ids.
 */
module UtxoFetch {
  import opened Credentials
  import opened Seqs
  import opened Sorting
  import opened TxIns
  import opened Wrappers

  datatype LedgerUtxo = LedgerUtxo(ref: TxIn, address: Address)

  /** No two entries share an output reference. */
  ghost predicate UniqueRefs(us: seq<LedgerUtxo>) {
    forall i, j :: 0 <= i < j < |us| ==> us[i].ref != us[j].ref
  }

  // ---------------------------------------------------------------- queries

  /** extractPaymentCredential */
  function PaymentOf(a: Address): Option<string> {
    match a
    case Base(p, _, _) => Some(p)
    case Enterprise(p, _) => Some(p)
    case Pointer(p, _, _) => Some(p)
    case _ => None
  }

  predicate HasCredential(a: Address, c: Credential) {
    match c
    case Payment(p) => PaymentOf(a) == Some(p)
    case Reward(s, n) => a.Base? && a.stake == s && a.network == n
  }

  function AtAddress(ledger: seq<LedgerUtxo>, a: Address): seq<LedgerUtxo> {
    Filter(ledger, (u: LedgerUtxo) => u.address == a)
  }

  function WithCredential(ledger: seq<LedgerUtxo>, c: Credential): seq<LedgerUtxo> {
    Filter(ledger, (u: LedgerUtxo) => HasCredential(u.address, c))
  }

  lemma QueryMembers(ledger: seq<LedgerUtxo>, a: Address, c: Credential)
    ensures forall u :: u in AtAddress(ledger, a) <==> u in ledger && u.address == a
    ensures forall u :: u in WithCredential(ledger, c) <==> u in ledger && HasCredential(u.address, c)
  {
    FilterMembers(ledger, (u: LedgerUtxo) => u.address == a);
    FilterMembers(ledger, (u: LedgerUtxo) => HasCredential(u.address, c));
  }

  // ---------------------------------------------------------------- the credential filter

  /** createPaymentCredentialFilter: the set of payment credentials the caller controls. */
  method ControlledCredentials(addresses: seq<Address>) returns (controlled: set<string>)
    ensures forall p :: p in controlled <==> exists a :: a in addresses && PaymentOf(a) == Some(p)
  {
    controlled := {};
    for i := 0 to |addresses|
      invariant forall p :: p in controlled <==> exists k :: 0 <= k < i && PaymentOf(addresses[k]) == Some(p)
    {
      var credential := PaymentOf(addresses[i]);
      if credential.Some? { controlled := controlled + {credential.value}; }
    }
    forall p ensures p in controlled <==> exists a :: a in addresses && PaymentOf(a) == Some(p) {
      if p in controlled {
        var k :| 0 <= k < |addresses| && PaymentOf(addresses[k]) == Some(p);
        assert addresses[k] in addresses;
      }
      if a :| a in addresses && PaymentOf(a) == Some(p) {
        var k :| 0 <= k < |addresses| && addresses[k] == a;
      }
    }
  }

  predicate Passes(a: Address, exact: set<Address>, controlled: set<string>) {
    a in exact || (PaymentOf(a).Some? && PaymentOf(a).value in controlled)
  }

  /** The address belongs to the wallet, or pays to a credential of one of its addresses. */
  ghost predicate Controlled(a: Address, addresses: seq<Address>) {
    a in addresses || (PaymentOf(a).Some? && exists b :: b in addresses && PaymentOf(b) == PaymentOf(a))
  }

  // ---------------------------------------------------------------- merging

  function Refs(us: seq<LedgerUtxo>): set<TxIn> {
    set i | 0 <= i < |us| :: us[i].ref
  }

  lemma RefsAppend(us: seq<LedgerUtxo>, u: LedgerUtxo)
    ensures Refs(us + [u]) == Refs(us) + {u.ref}
    ensures UniqueRefs(us) && u.ref !in Refs(us) ==> UniqueRefs(us + [u])
  {
    var more := us + [u];
    assert more[|us|].ref == u.ref && forall i :: 0 <= i < |us| ==> more[i].ref == us[i].ref;
    forall x | x in Refs(us) ensures x in Refs(more) {
      var i :| 0 <= i < |us| && us[i].ref == x;
      assert more[i].ref == x;
    }
  }

  /** No entry before `u` has its reference. */
  ghost predicate IsFirst(all: seq<LedgerUtxo>, u: LedgerUtxo) {
    exists k :: 0 <= k < |all| && all[k] == u && u.ref !in Refs(all[..k])
  }

  /** uniqBy: the first entry with each reference. */
  method FirstByRef(all: seq<LedgerUtxo>) returns (unique: seq<LedgerUtxo>)
    ensures UniqueRefs(unique) && Refs(unique) == Refs(all)
    ensures forall u :: u in unique ==> IsFirst(all, u)
  {
    unique := [];
    var seen: set<TxIn> := {};
    for n := 0 to |all|
      invariant seen == Refs(unique) == Refs(all[..n]) && UniqueRefs(unique)
      invariant forall u :: u in unique ==> IsFirst(all, u)
    {
      assert all[..n + 1] == all[..n] + [all[n]];
      RefsAppend(all[..n], all[n]);
      if all[n].ref !in seen {
        RefsAppend(unique, all[n]);
        unique := unique + [all[n]];
        seen := seen + {all[n].ref};
      }
    }
    assert all[..|all|] == all;
  }

  /** A comparison of transaction ids, as localeCompare is one: negative, zero or positive. */
  ghost predicate IsComparison(compare: (string, string) -> int) {
    && (forall x, y :: compare(x, y) < 0 <==> compare(y, x) > 0)
    && (forall x, y, z :: compare(x, y) <= 0 && compare(y, z) <= 0 ==> compare(x, z) <= 0)
  }

  /** sortUtxoByTxIn: by transaction id, then by index. */
  predicate InOrder(u: LedgerUtxo, v: LedgerUtxo, compare: (string, string) -> int) {
    var c := compare(u.ref.txId, v.ref.txId);
    c < 0 || (c == 0 && u.ref.index <= v.ref.index)
  }

  function ByTxIn(us: seq<LedgerUtxo>, compare: (string, string) -> int): seq<LedgerUtxo> {
    Sort(us, (u: LedgerUtxo, v: LedgerUtxo) => InOrder(u, v, compare))
  }

  lemma OrderTransitive(u: LedgerUtxo, v: LedgerUtxo, w: LedgerUtxo, compare: (string, string) -> int)
    requires IsComparison(compare) && InOrder(u, v, compare) && InOrder(v, w, compare)
    ensures InOrder(u, w, compare)
  {
    var x, y, z := u.ref.txId, v.ref.txId, w.ref.txId;
    assert compare(x, z) <= 0;
    if compare(x, z) == 0 {
      assert compare(z, x) == 0;
      assert compare(z, y) <= 0 && compare(y, x) <= 0;
    }
  }

  lemma ByTxInSorts(us: seq<LedgerUtxo>, compare: (string, string) -> int)
    requires IsComparison(compare)
    ensures multiset(ByTxIn(us, compare)) == multiset(us)
    ensures forall i, j :: 0 <= i < j < |ByTxIn(us, compare)| ==>
      InOrder(ByTxIn(us, compare)[i], ByTxIn(us, compare)[j], compare)
  {
    var order := (u: LedgerUtxo, v: LedgerUtxo) => InOrder(u, v, compare);
    forall u, v, w | order(u, v) && order(v, w)
      ensures order(u, w)
    {
      OrderTransitive(u, v, w, compare);
    }
    assert IsOrder(order);
    SortIsPermutation(us, order);
    SortIsSorted(us, order);
    assert ByTxIn(us, compare) == Sort(us, order);
  }

  lemma PermutedRefs(xs: seq<LedgerUtxo>, ys: seq<LedgerUtxo>)
    requires multiset(xs) == multiset(ys) && UniqueRefs(xs)
    ensures UniqueRefs(ys)
  {
    var ref := (u: LedgerUtxo) => u.ref;
    PermutedDistinct(xs, ys, ref);
    forall i, j | 0 <= i < j < |ys|
      ensures ys[i].ref != ys[j].ref
    {
      assert ref(ys[i]) != ref(ys[j]);
    }
  }

  lemma SortedCopy(unique: seq<LedgerUtxo>, r: seq<LedgerUtxo>, all: seq<LedgerUtxo>)
    requires multiset(r) == multiset(unique) && UniqueRefs(unique)
    requires forall u :: u in unique ==> IsFirst(all, u)
    requires Refs(unique) == Refs(all)
    ensures UniqueRefs(r)
    ensures forall u :: u in r ==> u in all && IsFirst(all, u)
    ensures forall u :: u in all ==> exists v :: v in r && v.ref == u.ref
  {
    forall u ensures u in r <==> u in unique { assert u in multiset(r) <==> u in multiset(unique); }
    forall u | u in all ensures exists v :: v in r && v.ref == u.ref {
      var k :| 0 <= k < |all| && all[k] == u;
      assert all[k].ref in Refs(unique);
      var i :| 0 <= i < |unique| && unique[i].ref == all[k].ref;
      assert unique[i] in unique;
    }
    PermutedRefs(unique, r);
  }

  /** mergeAndDeduplicateUtxos: first occurrences by reference, in the order of the references. */
  method MergeAndDeduplicate(all: seq<LedgerUtxo>, compare: (string, string) -> int) returns (r: seq<LedgerUtxo>)
    requires IsComparison(compare)
    ensures UniqueRefs(r)
    ensures forall u :: u in r ==> u in all && IsFirst(all, u)
    ensures forall u :: u in all ==> exists v :: v in r && v.ref == u.ref
    ensures forall i, j :: 0 <= i < j < |r| ==> InOrder(r[i], r[j], compare)
    ensures forall i, j :: 0 <= i < j < |r| && compare(r[i].ref.txId, r[j].ref.txId) >= 0 ==>
      compare(r[i].ref.txId, r[j].ref.txId) == 0 && r[i].ref.index <= r[j].ref.index
  {
    var unique := FirstByRef(all);
    r := ByTxIn(unique, compare);
    ByTxInSorts(unique, compare);
    SortedCopy(unique, r, all);
  }

  // ---------------------------------------------------------------- the two fetches

  /** fetchUtxosForAddresses: one query per address, results in order. */
  method FetchByAddresses(ledger: seq<LedgerUtxo>, addresses: seq<Address>) returns (r: seq<LedgerUtxo>)
    ensures forall u :: u in r <==> u in ledger && u.address in addresses
  {
    r := [];
    for i := 0 to |addresses|
      invariant forall u :: u in r <==> u in ledger && u.address in addresses[..i]
    {
      assert addresses[..i + 1] == addresses[..i] + [addresses[i]];
      QueryMembers(ledger, addresses[i], Payment(""));
      r := r + AtAddress(ledger, addresses[i]);
    }
    assert addresses[..|addresses|] == addresses;
  }

  /** A payment query finds the UTxO; a reward-account query finds it if it passes the filter. */
  predicate FoundBy(u: LedgerUtxo, c: Credential, exact: set<Address>, controlled: set<string>) {
    HasCredential(u.address, c) && (c.Reward? ==> Passes(u.address, exact, controlled))
  }

  ghost predicate FoundByAny(u: LedgerUtxo, cs: set<Credential>, exact: set<Address>, controlled: set<string>) {
    exists c :: c in cs && FoundBy(u, c, exact, controlled)
  }

  /** One query; the results of a reward-account query are filtered. */
  method FetchByCredential(ledger: seq<LedgerUtxo>, c: Credential, exact: set<Address>, controlled: set<string>)
    returns (found: seq<LedgerUtxo>)
    ensures forall u :: u in found <==> u in ledger && FoundBy(u, c, exact, controlled)
  {
    found := WithCredential(ledger, c);
    QueryMembers(ledger, Other(""), c);
    if c.Reward? {
      var passes := (u: LedgerUtxo) => Passes(u.address, exact, controlled);
      FilterMembers(found, passes);
      found := Filter(found, passes);
    }
  }

  lemma FoundByMore(u: LedgerUtxo, done: set<Credential>, c: Credential, exact: set<Address>, controlled: set<string>)
    ensures FoundByAny(u, done + {c}, exact, controlled)
       <==> FoundByAny(u, done, exact, controlled) || FoundBy(u, c, exact, controlled)
  {
    if FoundByAny(u, done, exact, controlled) {
      var d :| d in done && FoundBy(u, d, exact, controlled);
      assert d in done + {c};
    }
    assert c in done + {c};
  }

  /** fetchAllByPaymentCredentials and fetchAllByRewardAccounts. */
  method FetchAllByCredentials(ledger: seq<LedgerUtxo>, credentials: CredentialMap, exact: set<Address>,
                               controlled: set<string>)
    returns (r: seq<LedgerUtxo>)
    ensures forall u :: u in r <==> u in ledger && FoundByAny(u, credentials.Keys, exact, controlled)
  {
    r := [];
    var todo := credentials.Keys;
    while todo != {}
      invariant todo <= credentials.Keys
      invariant forall u :: u in r <==> u in ledger && FoundByAny(u, credentials.Keys - todo, exact, controlled)
    {
      var c :| c in todo;
      ghost var done := credentials.Keys - todo;
      var found := FetchByCredential(ledger, c, exact, controlled);
      r := r + found;
      forall u
        ensures FoundByAny(u, done + {c}, exact, controlled)
           <==> FoundByAny(u, done, exact, controlled) || FoundBy(u, c, exact, controlled)
      {
        FoundByMore(u, done, c, exact, controlled);
      }
      todo := todo - {c};
      assert done + {c} == credentials.Keys - todo;
    }
  }

  /** The address is of a kind that the grouping knows: not a string it drops. */
  predicate Fetchable(a: Address) { !a.Other? }

  /** Every grouped address is reached by the chosen credentials, so its UTxO are found by one of them. */
  lemma CoverFinds(g: AddressGroups, addresses: seq<Address>, chosen: CredentialMap, a: Address)
    requires IsGrouping(g, set x | x in addresses) && IsCover(g.credentials, chosen.Keys)
    requires a in addresses && (a.Base? || a.Enterprise?)
    ensures exists c :: c in chosen && HasCredential(a, c)
  {
    var payment := Payment(a.payment);
    assert payment in GroupsOf(a);
    assert a in Listed(g.credentials, payment);
    assert payment in g.credentials.Keys && a in g.credentials[payment];
    assert a in Reach(g.credentials, g.credentials.Keys);
    var c :| c in chosen.Keys && c in g.credentials && a in g.credentials[c];
    assert a in Listed(g.credentials, c);
    assert c in GroupsOf(a);
  }

  lemma CredentialControlled(g: AddressGroups, addresses: seq<Address>, c: Credential, a: Address,
                             exact: set<Address>, controlled: set<string>)
    requires IsGrouping(g, set x | x in addresses) && c in g.credentials && HasCredential(a, c)
    requires exact == set x | x in addresses
    requires forall p :: p in controlled <==> exists b :: b in addresses && PaymentOf(b) == Some(p)
    requires c.Reward? ==> Passes(a, exact, controlled)
    ensures Controlled(a, addresses) && Fetchable(a)
  {
    if c.Payment? {
      var b := g.credentials[c][0];
      assert b in Listed(g.credentials, c);
      assert c in GroupsOf(b) && b in addresses;
      assert PaymentOf(b) == PaymentOf(a);
    }
  }

  /** Every UTxO of a fetchable address of the wallet, and nothing that the wallet does not control. */
  ghost predicate IsFetch(ledger: seq<LedgerUtxo>, addresses: seq<Address>, r: seq<LedgerUtxo>) {
    && (forall u :: u in ledger && u.address in addresses && Fetchable(u.address) ==> u in r)
    && (forall u :: u in r ==> u in ledger && Controlled(u.address, addresses) && Fetchable(u.address))
  }

  /** Everything that the per-address fetch returns. */
  ghost predicate IsComplete(ledger: seq<LedgerUtxo>, addresses: seq<Address>, r: seq<LedgerUtxo>) {
    forall u :: u in ledger && u.address in addresses ==> u in r
  }

  /** In a ledger a reference names one UTxO, so deduplicating by reference loses nothing. */
  lemma SameRefSameUtxo(ledger: seq<LedgerUtxo>, all: seq<LedgerUtxo>, r: seq<LedgerUtxo>)
    requires UniqueRefs(ledger) && (forall u :: u in all ==> u in ledger) && (forall u :: u in r ==> u in all)
    requires forall u :: u in all ==> exists v :: v in r && v.ref == u.ref
    ensures forall u :: u in all ==> u in r
  {
  }

  /** What the queries return is what an acceptable fetch returns. */
  lemma QueriesFetch(ledger: seq<LedgerUtxo>, addresses: seq<Address>, g: AddressGroups, chosen: CredentialMap,
                     exact: set<Address>, controlled: set<string>, found: seq<LedgerUtxo>)
    requires IsGrouping(g, set x | x in addresses) && IsCover(g.credentials, chosen.Keys)
    requires forall c :: c in chosen ==> c in g.credentials
    requires exact == set x | x in addresses
    requires forall p :: p in controlled <==> exists b :: b in addresses && PaymentOf(b) == Some(p)
    requires forall u :: u in found <==>
      u in ledger && (FoundByAny(u, chosen.Keys, exact, controlled) || u.address in g.byron + g.pointer)
    ensures IsFetch(ledger, addresses, found)
  {
    forall u | u in ledger && u.address in addresses && Fetchable(u.address)
      ensures u in found
    {
      if u.address.Base? || u.address.Enterprise? {
        CoverFinds(g, addresses, chosen, u.address);
        var c :| c in chosen && HasCredential(u.address, c);
        assert FoundBy(u, c, exact, controlled);
      }
    }
    forall u | u in found
      ensures Controlled(u.address, addresses) && Fetchable(u.address)
    {
      if FoundByAny(u, chosen.Keys, exact, controlled) {
        var c :| c in chosen.Keys && FoundBy(u, c, exact, controlled);
        CredentialControlled(g, addresses, c, u.address, exact, controlled);
      }
    }
  }

  /** The credentials an address is grouped under are those a query can find it by. */
  lemma GroupedByAll(a: Address, c: Credential)
    requires a.Base? || a.Enterprise?
    ensures c in GroupsOf(a) <==> HasCredential(a, c)
  {
  }

  /** Some chosen credential finds the UTxO, and the wallet controls it if that is a reward account. */
  ghost predicate IsFoundBy(u: LedgerUtxo, addresses: seq<Address>, chosen: CredentialMap) {
    exists c :: c in chosen && HasCredential(u.address, c) && (c.Reward? ==> Controlled(u.address, addresses))
  }

  /** The result of querying by a small cover of the credentials, and by address for what has none. */
  ghost predicate IsQueried(ledger: seq<LedgerUtxo>, addresses: seq<Address>, g: AddressGroups, chosen: CredentialMap,
                            r: seq<LedgerUtxo>)
  {
    && IsGrouping(g, set a | a in addresses)
    && IsCover(g.credentials, chosen.Keys) && WithinHarmonic(g.credentials, |chosen|)
    && forall u :: u in r <==>
         u in ledger && (u.address in g.byron + g.pointer || IsFoundBy(u, addresses, chosen))
  }

  lemma FoundIsQueried(u: LedgerUtxo, addresses: seq<Address>, chosen: CredentialMap, exact: set<Address>,
                       controlled: set<string>)
    requires exact == set x | x in addresses
    requires forall p :: p in controlled <==> exists b :: b in addresses && PaymentOf(b) == Some(p)
    ensures FoundByAny(u, chosen.Keys, exact, controlled) <==> IsFoundBy(u, addresses, chosen)
  {
    assert Passes(u.address, exact, controlled) <==> Controlled(u.address, addresses);
    if FoundByAny(u, chosen.Keys, exact, controlled) {
      var c :| c in chosen.Keys && FoundBy(u, c, exact, controlled);
      assert c in chosen && HasCredential(u.address, c);
    }
    if c :| c in chosen && HasCredential(u.address, c) && (c.Reward? ==> Controlled(u.address, addresses)) {
      assert c in chosen.Keys && FoundBy(u, c, exact, controlled);
    }
  }

  /** The fetch is complete, whatever the ledger, exactly when every input address is fetchable. */
  lemma CompleteIffFetchable(addresses: seq<Address>)
    ensures (forall ledger, r ::
               UniqueRefs(ledger) && IsFetch(ledger, addresses, r) ==> IsComplete(ledger, addresses, r))
       <==> (forall a :: a in addresses ==> Fetchable(a))
  {
    if a :| a in addresses && !Fetchable(a) {
      var u := LedgerUtxo(TxIn("", 0), a);
      assert UniqueRefs([u]) && IsFetch([u], addresses, []);
      assert u in [u] && !IsComplete([u], addresses, []);
    }
  }

  /**
    fetchUtxosByCredentials: returns every UTxO of a fetchable address of the wallet, nothing that the
    wallet does not control, and no output twice.
   */
  method FetchByCredentials(ledger: seq<LedgerUtxo>, addresses: seq<Address>, compare: (string, string) -> int)
    returns (r: seq<LedgerUtxo>)
    requires UniqueRefs(ledger) && IsComparison(compare)
    ensures IsFetch(ledger, addresses, r)
    ensures exists g, chosen :: IsQueried(ledger, addresses, g, chosen, r)
    ensures (forall a :: a in addresses ==> Fetchable(a)) ==> IsComplete(ledger, addresses, r)
    ensures UniqueRefs(r)
    ensures forall i, j :: 0 <= i < j < |r| ==> InOrder(r[i], r[j], compare)
  {
    var g := ExtractCredentials(addresses);
    var minimized := MinimizeCredentialSet(g.credentials);
    var controlled := ControlledCredentials(addresses);
    var exact := set a | a in addresses;
    var byCredential := FetchAllByCredentials(ledger, minimized, exact, controlled);
    var skipped := FetchByAddresses(ledger, g.byron + g.pointer);
    var found := byCredential + skipped;
    QueriesFetch(ledger, addresses, g, minimized, exact, controlled, found);
    r := MergeAndDeduplicate(found, compare);
    SameRefSameUtxo(ledger, found, r);
    assert IsQueried(ledger, addresses, g, minimized, r) by {
      forall u ensures FoundByAny(u, minimized.Keys, exact, controlled) <==> IsFoundBy(u, addresses, minimized) {
        FoundIsQueried(u, addresses, minimized, exact, controlled);
      }
    }
  }
}
