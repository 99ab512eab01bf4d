/**
  Grouping wallet addresses by the credentials they share, and the greedy choice of a small set of
  credentials that still reaches every address.
 */
module Credentials {
  import opened Seqs

  /** A parsed address.  `Other` stands for strings that do not parse and for reward addresses. */
  datatype Address =
    | Byron(raw: string)
    | Base(payment: string, stake: string, network: nat)
    | Enterprise(payment: string, network: nat)
    | Pointer(payment: string, pointer: string, network: nat)
    | Other(raw: string)

  /** A payment credential, or a reward account: a stake credential with its network. */
  datatype Credential = Payment(hash: string) | Reward(stake: string, network: nat)

  /** The two maps of CredentialMaps as one, from each credential to its addresses. */
  type CredentialMap = map<Credential, seq<Address>>

  datatype AddressGroups = AddressGroups(credentials: CredentialMap, byron: seq<Address>, pointer: seq<Address>)

  /** The credentials an address is grouped under. */
  function GroupsOf(a: Address): set<Credential> {
    match a
    case Base(p, s, n) => {Payment(p), Reward(s, n)}
    case Enterprise(p, _) => {Payment(p)}
    case _ => {}
  }

  // ---------------------------------------------------------------- grouping

  function Listed(m: CredentialMap, c: Credential): seq<Address> {
    if c in m then m[c] else []
  }

  /** addToCredentialMap */
  function AddTo(m: CredentialMap, c: Credential, a: Address): CredentialMap {
    m[c := Listed(m, c) + [a]]
  }

  /** The groups of the addresses in `seen`: each address once, under exactly its credentials. */
  ghost predicate IsGrouping(g: AddressGroups, seen: set<Address>) {
    && (forall c, a :: a in Listed(g.credentials, c) <==> a in seen && c in GroupsOf(a))
    && (forall c :: c in g.credentials ==> g.credentials[c] != [] && Distinct(g.credentials[c]))
    && (forall a :: a in g.byron <==> a in seen && a.Byron?)
    && (forall a :: a in g.pointer <==> a in seen && a.Pointer?)
    && Distinct(g.byron) && Distinct(g.pointer)
  }

  lemma AddToListed(m: CredentialMap, c: Credential, a: Address)
    requires a !in Listed(m, c) && forall k :: k in m ==> m[k] != [] && Distinct(m[k])
    ensures forall k :: k in AddTo(m, c, a) ==> AddTo(m, c, a)[k] != [] && Distinct(AddTo(m, c, a)[k])
    ensures forall k, b :: b in Listed(AddTo(m, c, a), k) <==> b in Listed(m, k) || (k == c && b == a)
  {
  }

  lemma Regrouped(g: AddressGroups, seen: set<Address>, a: Address, m: CredentialMap)
    requires IsGrouping(g, seen) && !a.Byron? && !a.Pointer?
    requires forall c :: c in m ==> m[c] != [] && Distinct(m[c])
    requires forall c, b :: b in Listed(m, c) <==> b in Listed(g.credentials, c) || (c in GroupsOf(a) && b == a)
    ensures IsGrouping(g.(credentials := m), seen + {a})
  {
  }

  /** One address's turn in extractCredentials. */
  method GroupOne(g: AddressGroups, ghost seen: set<Address>, a: Address) returns (r: AddressGroups)
    requires IsGrouping(g, seen) && a !in seen
    ensures IsGrouping(r, seen + {a})
  {
    r := g;
    match a {
      case Byron(_) =>
        r := g.(byron := g.byron + [a]);
        assert forall b :: b in r.byron <==> b in g.byron || b == a;
      case Pointer(_, _, _) =>
        r := g.(pointer := g.pointer + [a]);
        assert forall b :: b in r.pointer <==> b in g.pointer || b == a;
      case Base(p, s, n) =>
        var m := AddTo(g.credentials, Payment(p), a);
        AddToListed(g.credentials, Payment(p), a);
        AddToListed(m, Reward(s, n), a);
        r := g.(credentials := AddTo(m, Reward(s, n), a));
        Regrouped(g, seen, a, r.credentials);
      case Enterprise(p, _) =>
        AddToListed(g.credentials, Payment(p), a);
        r := g.(credentials := AddTo(g.credentials, Payment(p), a));
        Regrouped(g, seen, a, r.credentials);
      case Other(_) =>
    }
  }

  /** extractCredentials: groups every distinct address under exactly the credentials it has. */
  method ExtractCredentials(addresses: seq<Address>) returns (g: AddressGroups)
    ensures IsGrouping(g, set a | a in addresses)
  {
    g := AddressGroups(map[], [], []);
    var seen: set<Address> := {};
    for i := 0 to |addresses|
      invariant seen == set a | a in addresses[..i]
      invariant IsGrouping(g, seen)
    {
      var address := addresses[i];
      assert addresses[..i + 1] == addresses[..i] + [address];
      if address !in seen {
        g := GroupOne(g, seen, address);
        seen := seen + {address};
      }
    }
    assert addresses[..|addresses|] == addresses;
  }

  // ---------------------------------------------------------------- greedy cover

  class CredentialInfo {
    const credential: Credential
    const addresses: seq<Address>
    var uncoveredCount: nat

    constructor (credential: Credential, addresses: seq<Address>)
      ensures this.credential == credential && this.addresses == addresses
      ensures uncoveredCount == |addresses|
    {
      this.credential, this.addresses, uncoveredCount := credential, addresses, |addresses|;
    }
  }

  function CountUncovered(addresses: seq<Address>, covered: set<Address>): nat {
    if addresses == [] then 0
    else CountUncovered(addresses[1..], covered) + if addresses[0] in covered then 0 else 1
  }

  function ToSet(addresses: seq<Address>): set<Address> {
    set a | a in addresses
  }

  lemma {:induction false} CountZero(addresses: seq<Address>, covered: set<Address>)
    ensures CountUncovered(addresses, covered) == 0 <==> ToSet(addresses) <= covered
  {
    if addresses != [] {
      CountZero(addresses[1..], covered);
      assert ToSet(addresses) == {addresses[0]} + ToSet(addresses[1..]);
    }
  }

  /** Without repetitions, counting list entries counts addresses. */
  lemma {:induction false} CountDistinct(addresses: seq<Address>, covered: set<Address>)
    requires Distinct(addresses)
    ensures CountUncovered(addresses, covered) == |ToSet(addresses) - covered|
  {
    if addresses != [] {
      var a, rest := addresses[0], addresses[1..];
      CountDistinct(rest, covered);
      assert a !in rest;
      if a in covered {
        assert ToSet(addresses) - covered == ToSet(rest) - covered;
      } else {
        assert ToSet(addresses) - covered == (ToSet(rest) - covered) + {a};
      }
    } else {
      assert ToSet(addresses) - covered == {};
    }
  }

  ghost function CredentialsOf(infos: seq<CredentialInfo>): set<Credential> {
    set i | 0 <= i < |infos| :: infos[i].credential
  }

  lemma CredentialsOfAppend(infos: seq<CredentialInfo>, info: CredentialInfo)
    ensures CredentialsOf(infos + [info]) == CredentialsOf(infos) + {info.credential}
  {
    var more := infos + [info];
    forall c | c in CredentialsOf(infos) + {info.credential} ensures c in CredentialsOf(more) {
      if c in CredentialsOf(infos) {
        var i :| 0 <= i < |infos| && infos[i].credential == c;
        assert more[i].credential == c;
      } else {
        assert more[|infos|].credential == c;
      }
    }
  }

  /** The list mirrors the map: it has the addresses of exactly the credentials that have any. */
  ghost predicate Mirrors(infos: seq<CredentialInfo>, m: CredentialMap) {
    && (forall i :: 0 <= i < |infos| ==> infos[i].credential in m && infos[i].addresses == m[infos[i].credential])
    && CredentialsOf(infos) == set c | c in m && m[c] != []
  }

  /** No credential has two entries. */
  ghost predicate OncePerCredential(infos: seq<CredentialInfo>) {
    forall i, j :: 0 <= i < j < |infos| ==> infos[i].credential != infos[j].credential
  }

  /** One of the two loops of buildCredentialList. */
  method AppendInfos(infos: seq<CredentialInfo>, m: CredentialMap, keys: set<Credential>)
    returns (r: seq<CredentialInfo>)
    requires keys <= m.Keys && OncePerCredential(infos) && CredentialsOf(infos) !! keys
    ensures infos <= r && OncePerCredential(r)
    ensures forall i :: |infos| <= i < |r| ==> r[i].credential in keys
    ensures forall i :: |infos| <= i < |r| ==>
      && fresh(r[i]) && r[i].credential in m
      && r[i].addresses == m[r[i].credential] && r[i].uncoveredCount == |r[i].addresses|
    ensures CredentialsOf(r) == CredentialsOf(infos) + set c | c in keys && m[c] != []
  {
    r := infos;
    var todo := keys;
    while todo != {}
      invariant todo <= keys && infos <= r && OncePerCredential(r)
      invariant forall i :: |infos| <= i < |r| ==> r[i].credential in keys - todo
      invariant forall i :: |infos| <= i < |r| ==>
        && fresh(r[i]) && r[i].credential in m
        && r[i].addresses == m[r[i].credential] && r[i].uncoveredCount == |r[i].addresses|
      invariant CredentialsOf(r) == CredentialsOf(infos) + set c | c in keys - todo && m[c] != []
    {
      var c :| c in todo;
      if |m[c]| > 0 {
        var info := new CredentialInfo(c, m[c]);
        forall i | 0 <= i < |r| ensures r[i].credential != c {
          if i < |infos| { assert infos[i].credential in CredentialsOf(infos); }
        }
        CredentialsOfAppend(r, info);
        r := r + [info];
      }
      todo := todo - {c};
    }
  }

  /** buildCredentialList: payment credentials first, then reward accounts. */
  method BuildCredentialList(m: CredentialMap) returns (infos: seq<CredentialInfo>)
    ensures Mirrors(infos, m) && OncePerCredential(infos)
    ensures forall i, j :: 0 <= i < j < |infos| && infos[j].credential.Payment? ==> infos[i].credential.Payment?
    ensures forall i :: 0 <= i < |infos| ==> fresh(infos[i]) && infos[i].uncoveredCount == |infos[i].addresses|
  {
    var payments := AppendInfos([], m, set c | c in m && c.Payment?);
    infos := AppendInfos(payments, m, set c | c in m && c.Reward?);
    assert forall i :: 0 <= i < |payments| ==> infos[i] == payments[i];
  }

  /** updateUncoveredCounts */
  method UpdateUncoveredCounts(infos: seq<CredentialInfo>, covered: set<Address>)
    modifies infos
    ensures forall i :: 0 <= i < |infos| ==> infos[i].uncoveredCount == CountUncovered(infos[i].addresses, covered)
  {
    for n := 0 to |infos|
      invariant forall i :: 0 <= i < n ==> infos[i].uncoveredCount == CountUncovered(infos[i].addresses, covered)
    {
      infos[n].uncoveredCount := CountUncovered(infos[n].addresses, covered);
    }
  }

  /** findBestCredential: a largest count, and a payment credential whenever one ties for it. */
  method FindBestCredential(infos: seq<CredentialInfo>) returns (best: int)
    ensures -1 <= best < |infos|
    ensures best == -1 <==> forall i :: 0 <= i < |infos| ==> infos[i].uncoveredCount == 0
    ensures best >= 0 ==>
      && infos[best].uncoveredCount > 0
      && (forall i :: 0 <= i < |infos| ==> infos[i].uncoveredCount <= infos[best].uncoveredCount)
      && (infos[best].credential.Reward? ==> forall i :: 0 <= i < |infos| && infos[i].credential.Payment? ==>
            infos[i].uncoveredCount < infos[best].uncoveredCount)
  {
    best := -1;
    for n := 0 to |infos|
      invariant -1 <= best < n
      invariant best == -1 ==> forall i :: 0 <= i < n ==> infos[i].uncoveredCount == 0
      invariant best >= 0 ==> infos[best].uncoveredCount > 0
      invariant best >= 0 ==> forall i :: 0 <= i < n ==> infos[i].uncoveredCount <= infos[best].uncoveredCount
      invariant best >= 0 && infos[best].credential.Reward? ==>
        forall i :: 0 <= i < n && infos[i].credential.Payment? ==>
          infos[i].uncoveredCount < infos[best].uncoveredCount
    {
      if infos[n].uncoveredCount != 0 {
        if best == -1
          || infos[n].uncoveredCount > infos[best].uncoveredCount
          || (infos[n].uncoveredCount == infos[best].uncoveredCount
              && infos[n].credential.Payment? && infos[best].credential.Reward?)
        {
          best := n;
        }
      }
    }
  }

  // ---------------------------------------------------------------- the approximation bound

  /** The addresses that the chosen credentials reach. */
  function Reach(m: CredentialMap, chosen: set<Credential>): set<Address> {
    set c, a | c in chosen && c in m && a in m[c] :: a
  }

  function Universe(m: CredentialMap): set<Address> {
    Reach(m, m.Keys)
  }

  ghost predicate IsCover(m: CredentialMap, chosen: set<Credential>) {
    chosen <= m.Keys && Reach(m, chosen) == Universe(m)
  }

  lemma ReachOne(m: CredentialMap, chosen: set<Credential>, c: Credential)
    requires c in m
    ensures Reach(m, chosen + {c}) == Reach(m, chosen) + ToSet(m[c])
    ensures ToSet(m[c]) <= Universe(m)
  {
  }

  /** The harmonic number 1 + 1/2 + ... + 1/n. */
  function Harmonic(n: nat): real {
    if n == 0 then 0.0 else Harmonic(n - 1) + 1.0 / n as real
  }

  /** n * b */
  function Times(n: nat, b: nat): nat {
    if n == 0 then 0 else Times(n - 1, b) + b
  }

  /** n * x */
  function Scale(n: nat, x: real): real {
    if n == 0 then 0.0 else Scale(n - 1, x) + x
  }

  lemma Distribute(a: real, b: real, x: real)
    ensures (a + b) * x == a * x + b * x
  {
  }

  lemma {:induction false} ScaleIsProduct(n: nat, x: real)
    ensures Scale(n, x) == n as real * x
  {
    if n > 0 {
      ScaleIsProduct(n - 1, x);
      Distribute((n - 1) as real, 1.0, x);
    }
  }

  lemma {:induction false} ScaleMonotone(n: nat, x: real, y: real)
    requires x <= y
    ensures Scale(n, x) <= Scale(n, y)
  {
    if n > 0 { ScaleMonotone(n - 1, x, y); }
  }

  lemma {:induction false} ScaleAdds(n: nat, x: real, y: real)
    ensures Scale(n, x + y) == Scale(n, x) + Scale(n, y)
  {
    if n > 0 { ScaleAdds(n - 1, x, y); }
  }

  /** b / u */
  function Share(b: nat, u: nat): real
    requires u > 0
  {
    Scale(b, 1.0 / u as real)
  }

  lemma ReciprocalMonotone(a: nat, b: nat)
    requires 0 < a <= b
    ensures 1.0 / b as real <= 1.0 / a as real
  {
  }

  /** Going from u - b to u adds b terms, each at least 1/u. */
  lemma {:induction false} HarmonicGap(u: nat, b: nat)
    requires 0 < u && b <= u
    ensures Harmonic(u) - Harmonic(u - b) >= Share(b, u)
    decreases b
  {
    if b > 0 {
      HarmonicGap(u, b - 1);
      ReciprocalMonotone(u - b + 1, u);
    }
  }

  lemma SplitSize(uncovered: set<Address>, one: set<Address>)
    ensures |uncovered| == |one * uncovered| + |uncovered - one|
  {
  }

  lemma SubsetSize<T>(x: set<T>, y: set<T>)
    requires x <= y
    ensures |x| <= |y|
  {
    assert y == x + (y - x);
  }

  lemma RestReached(m: CredentialMap, fewer: set<Credential>, c: Credential, uncovered: set<Address>, b: nat)
    requires fewer <= m.Keys && c in m && uncovered <= Reach(m, fewer + {c})
    requires forall d :: d in fewer ==> |ToSet(m[d]) * uncovered| <= b
    ensures uncovered - ToSet(m[c]) <= Reach(m, fewer)
    ensures forall d :: d in fewer ==> |ToSet(m[d]) * (uncovered - ToSet(m[c]))| <= b
  {
    ReachOne(m, fewer, c);
    forall d | d in fewer ensures |ToSet(m[d]) * (uncovered - ToSet(m[c]))| <= b {
      SubsetSize(ToSet(m[d]) * (uncovered - ToSet(m[c])), ToSet(m[d]) * uncovered);
    }
  }

  lemma OneMore(fewer: nat, chosen: nat, rest: nat, uncovered: nat, b: nat)
    requires chosen == fewer + 1 && rest <= Times(fewer, b) && uncovered <= b + rest
    ensures uncovered <= Times(chosen, b)
  {
  }

  lemma {:induction false} UnionBound(m: CredentialMap, chosen: set<Credential>, uncovered: set<Address>, b: nat)
    requires chosen <= m.Keys && uncovered <= Reach(m, chosen)
    requires forall c :: c in chosen ==> |ToSet(m[c]) * uncovered| <= b
    ensures |uncovered| <= Times(|chosen|, b)
    decreases chosen
  {
    if chosen == {} {
      assert uncovered == {};
    } else {
      var c :| c in chosen;
      var fewer, rest := chosen - {c}, uncovered - ToSet(m[c]);
      assert fewer + {c} == chosen;
      RestReached(m, fewer, c, uncovered, b);
      UnionBound(m, fewer, rest, b);
      SplitSize(uncovered, ToSet(m[c]));
      OneMore(|fewer|, |chosen|, |rest|, |uncovered|, b);
    }
  }

  /** Some credential of any cover reaches at least 1/k of what is uncovered, so a best one does. */
  lemma BestCoversShare(m: CredentialMap, chosen: set<Credential>, covered: set<Address>, b: nat)
    requires IsCover(m, chosen)
    requires forall c :: c in m ==> |ToSet(m[c]) - covered| <= b
    ensures |Universe(m) - covered| <= Times(|chosen|, b)
  {
    var uncovered := Universe(m) - covered;
    forall c | c in chosen ensures |ToSet(m[c]) * uncovered| <= b {
      assert ToSet(m[c]) * uncovered == ToSet(m[c]) - covered;
    }
    UnionBound(m, chosen, uncovered, b);
  }

  lemma {:induction false} ScaleSum(m: nat, n: nat, x: real)
    ensures Scale(m + n, x) == Scale(m, x) + Scale(n, x)
  {
    if n > 0 { ScaleSum(m, n - 1, x); }
  }

  lemma {:induction false} ScaleTimes(k: nat, b: nat, x: real)
    ensures Scale(k, Scale(b, x)) == Scale(Times(k, b), x)
  {
    if k > 0 {
      ScaleTimes(k - 1, b, x);
      ScaleSum(Times(k - 1, b), b, x);
    }
  }

  lemma {:induction false} ScaleLonger(m: nat, n: nat, x: real)
    requires m <= n && x >= 0.0
    ensures Scale(m, x) <= Scale(n, x)
  {
    if m < n { ScaleLonger(m, n - 1, x); }
  }

  lemma WholeShare(u: nat)
    requires u > 0
    ensures Share(u, u) == 1.0
  {
    ScaleIsProduct(u, 1.0 / u as real);
  }

  /** When u is at most k * b, then k shares of b out of u make up a whole. */
  lemma SharesCover(k: nat, u: nat, b: nat)
    requires 0 < u <= Times(k, b)
    ensures Scale(k, Share(b, u)) >= 1.0
  {
    ScaleTimes(k, b, 1.0 / u as real);
    ScaleLonger(u, Times(k, b), 1.0 / u as real);
    WholeShare(u);
  }

  lemma StepCost(k: nat, u: nat, b: nat)
    requires 0 < u <= Times(k, b) && b <= u
    ensures Scale(k, Harmonic(u - b)) + 1.0 <= Scale(k, Harmonic(u))
  {
    SharesCover(k, u, b);
    HarmonicGap(u, b);
    ScaleMonotone(k, Harmonic(u - b) + Share(b, u), Harmonic(u));
    ScaleAdds(k, Harmonic(u - b), Share(b, u));
  }

  lemma StepSizes(m: CredentialMap, covered: set<Address>, best: Credential)
    requires best in m
    ensures |ToSet(m[best]) - covered| <= |Universe(m) - covered|
    ensures |Universe(m) - (covered + ToSet(m[best]))| == |Universe(m) - covered| - |ToSet(m[best]) - covered|
  {
    ReachOne(m, {}, best);
    var gained, left := ToSet(m[best]) - covered, Universe(m) - (covered + ToSet(m[best]));
    assert Universe(m) - covered == left + gained;
  }

  /** One greedy step pays for itself: it lowers k times the harmonic number of the uncovered by at least one. */
  lemma GreedyStep(m: CredentialMap, chosen: set<Credential>, covered: set<Address>, best: Credential)
    requires IsCover(m, chosen) && best in m
    requires forall c :: c in m ==> |ToSet(m[c]) - covered| <= |ToSet(m[best]) - covered|
    requires Universe(m) - covered != {}
    ensures Scale(|chosen|, Harmonic(|Universe(m) - (covered + ToSet(m[best]))|)) + 1.0
         <= Scale(|chosen|, Harmonic(|Universe(m) - covered|))
  {
    var u, b, left := |Universe(m) - covered|, |ToSet(m[best]) - covered|, |Universe(m) - (covered + ToSet(m[best]))|;
    assert b <= u && left == u - b by { StepSizes(m, covered, best); }
    assert u <= Times(|chosen|, b) by { BestCoversShare(m, chosen, covered, b); }
    StepCost(|chosen|, u, b);
  }

  ghost predicate DistinctLists(m: CredentialMap) {
    forall c :: c in m ==> Distinct(m[c])
  }

  /** k times the harmonic number of what is uncovered bounds the steps still to come. */
  ghost predicate WithinBudget(m: CredentialMap, covered: set<Address>, steps: nat) {
    forall chosen {:trigger IsCover(m, chosen)} :: IsCover(m, chosen) ==>
      steps as real + Scale(|chosen|, Harmonic(|Universe(m) - covered|)) <= Scale(|chosen|, Harmonic(|Universe(m)|))
  }

  ghost predicate HarmonicBound(steps: nat, k: nat, n: nat) {
    steps as real <= k as real * Harmonic(n)
  }

  /** At most k * H(n) credentials, for n addresses and any cover of k credentials. */
  ghost predicate WithinHarmonic(m: CredentialMap, steps: nat) {
    forall chosen {:trigger IsCover(m, chosen)} :: IsCover(m, chosen) ==> HarmonicBound(steps, |chosen|, |Universe(m)|)
  }

  lemma BudgetStep(m: CredentialMap, covered: set<Address>, steps: nat, best: Credential)
    requires WithinBudget(m, covered, steps) && best in m && Universe(m) - covered != {}
    requires forall c :: c in m ==> |ToSet(m[c]) - covered| <= |ToSet(m[best]) - covered|
    ensures WithinBudget(m, covered + ToSet(m[best]), steps + 1)
  {
    forall chosen | IsCover(m, chosen)
      ensures (steps + 1) as real + Scale(|chosen|, Harmonic(|Universe(m) - (covered + ToSet(m[best]))|))
           <= Scale(|chosen|, Harmonic(|Universe(m)|))
    {
      GreedyStep(m, chosen, covered, best);
      assert (steps + 1) as real == steps as real + 1.0;
    }
  }

  /** The best entry of an up-to-date list is a best credential of the map. */
  lemma BestOfMap(infos: seq<CredentialInfo>, m: CredentialMap, covered: set<Address>, best: nat)
    requires Mirrors(infos, m) && DistinctLists(m) && best < |infos|
    requires forall i :: 0 <= i < |infos| ==>
      CountUncovered(infos[i].addresses, covered) <= CountUncovered(infos[best].addresses, covered)
    ensures forall c :: c in m ==> |ToSet(m[c]) - covered| <= |ToSet(infos[best].addresses) - covered|
  {
    CountDistinct(infos[best].addresses, covered);
    forall c | c in m ensures |ToSet(m[c]) - covered| <= |ToSet(infos[best].addresses) - covered| {
      if m[c] == [] {
        assert ToSet(m[c]) - covered == {};
      } else {
        assert c in CredentialsOf(infos);
        var i :| 0 <= i < |infos| && infos[i].credential == c;
        CountDistinct(m[c], covered);
      }
    }
  }

  lemma AllCovered(infos: seq<CredentialInfo>, m: CredentialMap, covered: set<Address>)
    requires Mirrors(infos, m)
    requires forall i :: 0 <= i < |infos| ==> ToSet(infos[i].addresses) <= covered
    ensures Universe(m) <= covered
  {
    forall a | a in Universe(m) ensures a in covered {
      var c :| c in m && a in m[c];
      assert c in CredentialsOf(infos);
      var i :| 0 <= i < |infos| && infos[i].credential == c;
      assert a in ToSet(infos[i].addresses);
    }
  }

  lemma {:induction false} ScaleNonNegative(k: nat, x: real)
    requires x >= 0.0
    ensures Scale(k, x) >= 0.0
  {
    if k > 0 { ScaleNonNegative(k - 1, x); }
  }

  lemma ReciprocalPositive(n: nat)
    requires n > 0
    ensures 1.0 / n as real > 0.0
  {
  }

  lemma {:induction false} HarmonicNonNegative(n: nat)
    ensures Harmonic(n) >= 0.0
  {
    if n > 0 {
      HarmonicNonNegative(n - 1);
      ReciprocalPositive(n);
    }
  }

  lemma SpentSteps(steps: real, k: nat, left: real, all: real)
    requires left >= 0.0 && steps + Scale(k, left) <= Scale(k, all)
    ensures steps <= k as real * all
  {
    ScaleNonNegative(k, left);
    ScaleIsProduct(k, all);
  }

  /** Everything covered: the steps taken are within k * H(n). */
  lemma BudgetSpent(m: CredentialMap, covered: set<Address>, steps: nat)
    requires WithinBudget(m, covered, steps)
    ensures WithinHarmonic(m, steps)
  {
    var left, n := |Universe(m) - covered|, |Universe(m)|;
    HarmonicNonNegative(left);
    forall chosen | IsCover(m, chosen)
      ensures HarmonicBound(steps, |chosen|, n)
    {
      SpentSteps(steps as real, |chosen|, Harmonic(left), Harmonic(n));
    }
  }

  /** A credential that still reaches something new has not been chosen before. */
  lemma ChooseNew(m: CredentialMap, r: CredentialMap, covered: set<Address>, c: Credential)
    requires c in m && covered == Reach(m, r.Keys) && !(ToSet(m[c]) <= covered)
    ensures c !in r && r[c := m[c]].Keys == r.Keys + {c}
    ensures Reach(m, r.Keys + {c}) == covered + ToSet(m[c])
    ensures ToSet(m[c]) <= Universe(m) && Universe(m) - covered != {}
  {
    ReachOne(m, r.Keys, c);
    assert c in r ==> r.Keys + {c} == r.Keys;
    var a :| a in ToSet(m[c]) && a !in covered;
    assert a in Universe(m) - covered;
  }

  /** What has been chosen so far is part of the map, reaches what is covered, and is within the budget. */
  ghost predicate Choosing(m: CredentialMap, r: CredentialMap, covered: set<Address>) {
    && (forall c :: c in r ==> c in m && r[c] == m[c])
    && covered == Reach(m, r.Keys)
    && (DistinctLists(m) ==> WithinBudget(m, covered, |r|))
  }

  lemma ChoosingStart(m: CredentialMap)
    ensures Choosing(m, map[], {})
  {
    assert Universe(m) - {} == Universe(m);
  }

  lemma ChoosingEnd(m: CredentialMap, r: CredentialMap, covered: set<Address>)
    requires Choosing(m, r, covered) && Universe(m) <= covered
    ensures IsCover(m, r.Keys) && (DistinctLists(m) ==> WithinHarmonic(m, |r|))
  {
    if DistinctLists(m) { BudgetSpent(m, covered, |r|); }
  }

  /** No entry of the list reaches more new addresses than the best one, which reaches some. */
  ghost predicate IsBest(infos: seq<CredentialInfo>, covered: set<Address>, best: nat) {
    && best < |infos| && CountUncovered(infos[best].addresses, covered) > 0
    && forall i :: 0 <= i < |infos| ==>
         CountUncovered(infos[i].addresses, covered) <= CountUncovered(infos[best].addresses, covered)
  }

  lemma BudgetAfter(infos: seq<CredentialInfo>, m: CredentialMap, covered: set<Address>, steps: nat, best: nat)
    requires Mirrors(infos, m) && IsBest(infos, covered, best) && infos[best].credential in m
    requires DistinctLists(m) && WithinBudget(m, covered, steps) && Universe(m) - covered != {}
    ensures WithinBudget(m, covered + ToSet(m[infos[best].credential]), steps + 1)
  {
    BestOfMap(infos, m, covered, best);
    BudgetStep(m, covered, steps, infos[best].credential);
  }

  lemma ChosenExtends(m: CredentialMap, r: CredentialMap, covered: set<Address>, c: Credential)
    requires c in m && covered == Reach(m, r.Keys) && !(ToSet(m[c]) <= covered)
    ensures |r[c := m[c]]| == |r| + 1 && covered + ToSet(m[c]) == Reach(m, r[c := m[c]].Keys)
    ensures Universe(m) - (covered + ToSet(m[c])) < Universe(m) - covered
    ensures Universe(m) - covered != {}
  {
    ChooseNew(m, r, covered, c);
  }

  lemma EntryOf(infos: seq<CredentialInfo>, m: CredentialMap, i: nat)
    requires Mirrors(infos, m) && i < |infos|
    ensures infos[i].credential in m && m[infos[i].credential] == infos[i].addresses
  {
    assert infos[i].credential in CredentialsOf(infos);
  }

  /** Choosing the best entry extends the cover by something new, within the budget. */
  lemma GreedyChoice(infos: seq<CredentialInfo>, m: CredentialMap, r: CredentialMap, covered: set<Address>, best: nat)
    requires Mirrors(infos, m) && Choosing(m, r, covered) && IsBest(infos, covered, best)
    ensures var c, gained := infos[best].credential, ToSet(infos[best].addresses);
      && Choosing(m, r[c := infos[best].addresses], covered + gained)
      && Universe(m) - (covered + gained) < Universe(m) - covered
  {
    var c := infos[best].credential;
    EntryOf(infos, m, best);
    CountZero(infos[best].addresses, covered);
    ChosenExtends(m, r, covered, c);
    if DistinctLists(m) { BudgetAfter(infos, m, covered, |r|, best); }
  }

  /** Counts afresh and takes the best entry, if any still reaches something new. */
  method CountAndFind(infos: seq<CredentialInfo>, covered: set<Address>) returns (best: int)
    modifies infos
    ensures -1 <= best < |infos|
    ensures best == -1 <==> forall i :: 0 <= i < |infos| ==> ToSet(infos[i].addresses) <= covered
    ensures best >= 0 ==> IsBest(infos, covered, best)
    ensures forall i :: 0 <= i < |infos| ==> (infos[i].uncoveredCount == 0 <==> ToSet(infos[i].addresses) <= covered)
  {
    UpdateUncoveredCounts(infos, covered);
    forall i | 0 <= i < |infos|
      ensures infos[i].uncoveredCount == 0 <==> ToSet(infos[i].addresses) <= covered
    {
      CountZero(infos[i].addresses, covered);
    }
    best := FindBestCredential(infos);
  }

  /** Every entry of the list has an address, so nothing is covered at first. */
  lemma NothingCounted(infos: seq<CredentialInfo>, m: CredentialMap)
    requires Mirrors(infos, m)
    ensures forall i :: 0 <= i < |infos| ==> |infos[i].addresses| > 0 && !(ToSet(infos[i].addresses) <= {})
  {
    forall i | 0 <= i < |infos|
      ensures |infos[i].addresses| > 0 && !(ToSet(infos[i].addresses) <= {})
    {
      assert infos[i].credential in CredentialsOf(infos);
      assert infos[i].addresses[0] in ToSet(infos[i].addresses);
    }
  }

  /**
    minimizeCredentialSet: the result is part of the input and reaches every address; without repeated
    addresses it has at most k * H(n) credentials, for n addresses and any cover of k credentials.
   */
  method MinimizeCredentialSet(m: CredentialMap) returns (r: CredentialMap)
    ensures forall c :: c in r ==> c in m && r[c] == m[c]
    ensures IsCover(m, r.Keys)
    ensures DistinctLists(m) ==> WithinHarmonic(m, |r|)
  {
    var covered: set<Address> := {};
    r := map[];
    var infos := BuildCredentialList(m);
    NothingCounted(infos, m);
    ChoosingStart(m);
    // what the counts were computed against: nothing before the first update
    ghost var counted: set<Address> := {};
    while exists i :: 0 <= i < |infos| && infos[i].uncoveredCount > 0
      invariant Mirrors(infos, m) && forall i :: 0 <= i < |infos| ==> fresh(infos[i])
      invariant Choosing(m, r, covered) && counted <= covered
      invariant forall i :: 0 <= i < |infos| ==>
        (infos[i].uncoveredCount == 0 <==> ToSet(infos[i].addresses) <= counted)
      decreases Universe(m) - covered
    {
      var best := CountAndFind(infos, covered);
      counted := covered;
      if best == -1 { break; }
      GreedyChoice(infos, m, r, covered, best);
      r := r[infos[best].credential := infos[best].addresses];
      covered := covered + ToSet(infos[best].addresses);
    }
    AllCovered(infos, m, counted);
    ChoosingEnd(m, r, covered);
  }
}
