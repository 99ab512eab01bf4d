/**
  Compound certificates: db-sync stores a compound certificate as base records that share its index;
  four merging passes put the records together again.
 */
module Certificates {
  import opened Wrappers

  type Credential = string

  datatype Registration = Registration(deposit: int, credential: Credential)
  datatype Delegation = Delegation(pool: string, credential: Credential)
  datatype Vote = Vote(dRep: string, credential: Credential)
  datatype RegDel = RegDel(deposit: int, pool: string, credential: Credential)
  datatype VoteRegDel = VoteRegDel(dRep: string, deposit: int, pool: string, credential: Credential)
  datatype VoteDel = VoteDel(dRep: string, pool: string, credential: Credential)
  datatype VoteReg = VoteReg(dRep: string, deposit: int, credential: Credential)

  datatype Certificate =
    | StakeRegistration(reg: Registration)
    | StakeDelegation(del: Delegation)
    | VoteDelegation(vote: Vote)
    | StakeRegistrationDelegation(regDel: RegDel)
    | StakeVoteDelegation(voteDel: VoteDel)
    | VoteRegistrationDelegation(voteReg: VoteReg)
    | StakeVoteRegistrationDelegation(voteRegDel: VoteRegDel)

  /** A certificate with its position in the transaction. */
  datatype Indexed<C> = At(index: nat, cert: C)

  // ---------------------------------------------------------------- lists as tables

  function Table<C>(certs: seq<Indexed<C>>): map<nat, C> {
    if certs == [] then map[]
    else Table(certs[..|certs| - 1])[certs[|certs| - 1].index := certs[|certs| - 1].cert]
  }

  function Indexes<C>(certs: seq<Indexed<C>>): set<nat> {
    Table(certs).Keys
  }

  predicate DistinctIndexes<C>(certs: seq<Indexed<C>>) {
    certs == [] ||
    (DistinctIndexes(certs[..|certs| - 1]) && certs[|certs| - 1].index !in Indexes(certs[..|certs| - 1]))
  }

  lemma TableSnoc<C>(front: seq<Indexed<C>>, last: Indexed<C>)
    ensures Table(front + [last]) == Table(front)[last.index := last.cert]
    ensures DistinctIndexes(front + [last]) <==> DistinctIndexes(front) && last.index !in Indexes(front)
  {
  }

  // ---------------------------------------------------------------- one pass

  /** certs.findIndex(c => c[0] === index), |certs| for -1 */
  function FindIndex<C>(certs: seq<Indexed<C>>, index: nat): (r: nat)
    ensures r <= |certs|
    ensures forall k :: 0 <= k < r ==> certs[k].index != index
    ensures r < |certs| ==> certs[r].index == index
    ensures r < |certs| <==> index in Indexes(certs)
  {
    if certs == [] then 0
    else
      var r := FindIndex(certs[..|certs| - 1], index);
      if r < |certs| - 1 || certs[|certs| - 1].index == index then r else |certs|
  }

  /** The first list without the certificates that have a partner. */
  function Unmatched<C, D>(certs1: seq<Indexed<C>>, certs2: seq<Indexed<D>>): seq<Indexed<C>> {
    if certs1 == [] then []
    else
      var last := certs1[|certs1| - 1];
      Unmatched(certs1[..|certs1| - 1], certs2) + (if last.index in Indexes(certs2) then [] else [last])
  }

  /** The merged certificates, in the order of the first list. */
  function Matched<C, D, E>(certs1: seq<Indexed<C>>, certs2: seq<Indexed<D>>, merge: (C, D) -> E): seq<Indexed<E>> {
    if certs1 == [] then []
    else
      var last := certs1[|certs1| - 1];
      var j := FindIndex(certs2, last.index);
      Matched(certs1[..|certs1| - 1], certs2, merge)
      + (if j < |certs2| then [At(last.index, merge(last.cert, certs2[j].cert))] else [])
  }

  /** The second list without the first occurrence of each index that the first list has. */
  function Unclaimed<C, D>(certs1: seq<Indexed<C>>, certs2: seq<Indexed<D>>): seq<Indexed<D>> {
    if certs2 == [] then []
    else
      var front, last := certs2[..|certs2| - 1], certs2[|certs2| - 1];
      Unclaimed(certs1, front)
      + (if last.index in Indexes(certs1) && last.index !in Indexes(front) then [] else [last])
  }

  /** foundIndexes2 holds the positions at which the certificates so far found a partner. */
  ghost predicate IsFound<C, D>(certs1: seq<Indexed<C>>, certs2: seq<Indexed<D>>, found: seq<nat>) {
    forall j: nat :: j in found <==>
      && j < |certs2| && certs2[j].index in Indexes(certs1)
      && FindIndex(certs2, certs2[j].index) == j
  }

  lemma ClaimedIffFound<C, D>(certs1: seq<Indexed<C>>, certs2: seq<Indexed<D>>, found: seq<nat>, j: nat)
    requires IsFound(certs1, certs2, found) && j < |certs2|
    ensures j in found <==> certs2[j].index in Indexes(certs1) && certs2[j].index !in Indexes(certs2[..j])
  {
    var i := certs2[j].index;
    var r, s := FindIndex(certs2, i), FindIndex(certs2[..j], i);
    assert r < j ==> certs2[..j][r].index == i;
    assert s < j ==> certs2[s].index == i;
  }

  /** certs2.filter((_, c2index) => !foundIndexes2.includes(c2index)) */
  method WithoutFound<C, D>(ghost certs1: seq<Indexed<C>>, certs2: seq<Indexed<D>>, found: seq<nat>)
    returns (result2: seq<Indexed<D>>)
    requires IsFound(certs1, certs2, found)
    ensures result2 == Unclaimed(certs1, certs2)
  {
    result2 := [];
    for j := 0 to |certs2|
      invariant result2 == Unclaimed(certs1, certs2[..j])
    {
      assert certs2[..j + 1][..j] == certs2[..j];
      ClaimedIffFound(certs1, certs2, found, j);
      if j !in found { result2 := result2 + [certs2[j]]; }
    }
    assert certs2[..|certs2|] == certs2;
  }

  lemma FoundStep<C, D>(certs1: seq<Indexed<C>>, c1: Indexed<C>, certs2: seq<Indexed<D>>, found: seq<nat>)
    requires IsFound(certs1, certs2, found)
    ensures var j := FindIndex(certs2, c1.index);
            IsFound(certs1 + [c1], certs2, if j < |certs2| then found + [j] else found)
  {
    TableSnoc(certs1, c1);
  }

  function Merged<C, D, E>(t1: map<nat, C>, t2: map<nat, D>, merge: (C, D) -> E): map<nat, E> {
    map i | i in t1 && i in t2 :: merge(t1[i], t2[i])
  }

  /** Shared indexes move, merged, to the third list; everything else stays where it was. */
  ghost predicate IsCompound<C, D, E>(certs1: seq<Indexed<C>>, certs2: seq<Indexed<D>>, merge: (C, D) -> E,
                                      result1: seq<Indexed<C>>, result2: seq<Indexed<D>>, result: seq<Indexed<E>>)
  {
    && Table(result1) == Table(certs1) - Table(certs2).Keys
    && Table(result2) == Table(certs2) - Table(certs1).Keys
    && Table(result) == Merged(Table(certs1), Table(certs2), merge)
    && DistinctIndexes(result1) && DistinctIndexes(result2) && DistinctIndexes(result)
  }

  /** One more entry, then without some keys. */
  lemma LessSnoc<C>(t: map<nat, C>, i: nat, c: C, keys: set<nat>)
    requires i !in t
    ensures t[i := c] - keys == if i in keys then t - keys else (t - keys)[i := c]
  {
  }

  lemma {:induction false} UnmatchedTable<C, D>(certs1: seq<Indexed<C>>, certs2: seq<Indexed<D>>)
    requires DistinctIndexes(certs1)
    ensures Table(Unmatched(certs1, certs2)) == Table(certs1) - Table(certs2).Keys
    ensures DistinctIndexes(Unmatched(certs1, certs2))
  {
    if certs1 != [] {
      var front, last := certs1[..|certs1| - 1], certs1[|certs1| - 1];
      UnmatchedTable(front, certs2);
      LessSnoc(Table(front), last.index, last.cert, Table(certs2).Keys);
      var early := Unmatched(front, certs2);
      if last.index in Indexes(certs2) {
        assert Unmatched(certs1, certs2) == early + [] == early;
      } else {
        assert Unmatched(certs1, certs2) == early + [last];
        TableSnoc(early, last);
      }
    }
  }

  lemma {:induction false} UnclaimedTable<C, D>(certs1: seq<Indexed<C>>, certs2: seq<Indexed<D>>)
    requires DistinctIndexes(certs2)
    ensures Table(Unclaimed(certs1, certs2)) == Table(certs2) - Table(certs1).Keys
    ensures DistinctIndexes(Unclaimed(certs1, certs2))
  {
    if certs2 != [] {
      var front, last := certs2[..|certs2| - 1], certs2[|certs2| - 1];
      UnclaimedTable(certs1, front);
      LessSnoc(Table(front), last.index, last.cert, Table(certs1).Keys);
      var early := Unclaimed(certs1, front);
      if last.index in Indexes(certs1) {
        assert Unclaimed(certs1, certs2) == early + [] == early;
      } else {
        assert Unclaimed(certs1, certs2) == early + [last];
        TableSnoc(early, last);
      }
    }
  }

  lemma MergedSnoc<C, D, E>(t1: map<nat, C>, i: nat, c: C, t2: map<nat, D>, merge: (C, D) -> E)
    requires i !in t1
    ensures Merged(t1[i := c], t2, merge)
         == if i in t2 then Merged(t1, t2, merge)[i := merge(c, t2[i])] else Merged(t1, t2, merge)
  {
  }

  lemma {:induction false} TableAt<C>(certs: seq<Indexed<C>>, j: nat)
    requires DistinctIndexes(certs) && j < |certs|
    ensures certs[j].index in Table(certs) && Table(certs)[certs[j].index] == certs[j].cert
  {
    if j < |certs| - 1 { TableAt(certs[..|certs| - 1], j); }
  }

  lemma {:induction false} MatchedTable<C, D, E>(certs1: seq<Indexed<C>>, certs2: seq<Indexed<D>>, merge: (C, D) -> E)
    requires DistinctIndexes(certs1) && DistinctIndexes(certs2)
    ensures Table(Matched(certs1, certs2, merge)) == Merged(Table(certs1), Table(certs2), merge)
    ensures DistinctIndexes(Matched(certs1, certs2, merge))
  {
    if certs1 != [] {
      var front, last := certs1[..|certs1| - 1], certs1[|certs1| - 1];
      MatchedTable(front, certs2, merge);
      MergedSnoc(Table(front), last.index, last.cert, Table(certs2), merge);
      var early, j := Matched(front, certs2, merge), FindIndex(certs2, last.index);
      if j < |certs2| {
        TableAt(certs2, j);
        TableSnoc(early, At(last.index, merge(last.cert, certs2[j].cert)));
      } else {
        assert early + [] == early;
      }
    }
  }

  lemma CompoundTables<C, D, E>(certs1: seq<Indexed<C>>, certs2: seq<Indexed<D>>, merge: (C, D) -> E)
    requires DistinctIndexes(certs1) && DistinctIndexes(certs2)
    ensures IsCompound(certs1, certs2, merge,
                       Unmatched(certs1, certs2), Unclaimed(certs1, certs2), Matched(certs1, certs2, merge))
  {
    UnmatchedTable(certs1, certs2);
    UnclaimedTable(certs1, certs2);
    MatchedTable(certs1, certs2, merge);
  }

  /** compound, whatever the two lists hold */
  method Compound<C, D, E>(certs1: seq<Indexed<C>>, certs2: seq<Indexed<D>>, merge: (C, D) -> E)
    returns (result1: seq<Indexed<C>>, result2: seq<Indexed<D>>, result: seq<Indexed<E>>)
    ensures result1 == Unmatched(certs1, certs2)
    ensures result2 == Unclaimed(certs1, certs2)
    ensures result == Matched(certs1, certs2, merge)
    ensures DistinctIndexes(certs1) && DistinctIndexes(certs2) ==>
      IsCompound(certs1, certs2, merge, result1, result2, result)
  {
    result1, result := [], [];
    var found: seq<nat> := [];
    for k := 0 to |certs1|
      invariant result1 == Unmatched(certs1[..k], certs2)
      invariant result == Matched(certs1[..k], certs2, merge)
      invariant IsFound(certs1[..k], certs2, found)
    {
      var c1 := certs1[k];
      var j := FindIndex(certs2, c1.index);
      assert certs1[..k + 1][..k] == certs1[..k];
      FoundStep(certs1[..k], c1, certs2, found);
      assert certs1[..k + 1] == certs1[..k] + [c1];
      if j == |certs2| {
        result1 := result1 + [c1];
      } else {
        found := found + [j];
        result := result + [At(c1.index, merge(c1.cert, certs2[j].cert))];
      }
    }
    assert certs1[..|certs1|] == certs1;
    result2 := WithoutFound(certs1, certs2, found);
    if DistinctIndexes(certs1) && DistinctIndexes(certs2) {
      CompoundTables(certs1, certs2, merge);
    }
  }

  // ---------------------------------------------------------------- the four passes

  const MergeRegDel: (Delegation, Registration) -> RegDel :=
    (d: Delegation, r: Registration) => RegDel(r.deposit, d.pool, r.credential)

  const MergeVoteRegDel: (Vote, RegDel) -> VoteRegDel :=
    (v: Vote, rd: RegDel) => VoteRegDel(v.dRep, rd.deposit, rd.pool, v.credential)

  const MergeVoteDel: (Delegation, Vote) -> VoteDel :=
    (d: Delegation, v: Vote) => VoteDel(v.dRep, d.pool, v.credential)

  const MergeVoteReg: (Registration, Vote) -> VoteReg :=
    (r: Registration, v: Vote) => VoteReg(v.dRep, r.deposit, v.credential)

  function Get<C>(t: map<nat, C>, i: nat): Option<C> {
    if i in t then Some(t[i]) else None
  }

  /** The certificate that was stored as the given base records. */
  function Whole(r: Option<Registration>, d: Option<Delegation>, v: Option<Vote>): (c: Option<Certificate>)
    ensures c.Some? <==> r.Some? || d.Some? || v.Some?
  {
    match (r, d, v)
    case (None, None, None) => None
    case (Some(r), None, None) => Some(StakeRegistration(r))
    case (None, Some(d), None) => Some(StakeDelegation(d))
    case (None, None, Some(v)) => Some(VoteDelegation(v))
    case (Some(r), Some(d), None) => Some(StakeRegistrationDelegation(RegDel(r.deposit, d.pool, r.credential)))
    case (None, Some(d), Some(v)) => Some(StakeVoteDelegation(VoteDel(v.dRep, d.pool, v.credential)))
    case (Some(r), None, Some(v)) => Some(VoteRegistrationDelegation(VoteReg(v.dRep, r.deposit, v.credential)))
    case (Some(r), Some(d), Some(v)) =>
      Some(StakeVoteRegistrationDelegation(VoteRegDel(v.dRep, r.deposit, d.pool, v.credential)))
  }

  /** The seven lists that the passes leave. */
  datatype Passes = Passes(
    reg: map<nat, Registration>, del: map<nat, Delegation>, vote: map<nat, Vote>, regDel: map<nat, RegDel>,
    voteDel: map<nat, VoteDel>, voteReg: map<nat, VoteReg>, voteRegDel: map<nat, VoteRegDel>)

  function RunPasses(reg: map<nat, Registration>, del: map<nat, Delegation>, vote: map<nat, Vote>): Passes {
    var del1, reg1, regDel1 := del - reg.Keys, reg - del.Keys, Merged(del, reg, MergeRegDel);
    var vote2, regDel2, voteRegDel := vote - regDel1.Keys, regDel1 - vote.Keys, Merged(vote, regDel1, MergeVoteRegDel);
    var del3, vote3, voteDel := del1 - vote2.Keys, vote2 - del1.Keys, Merged(del1, vote2, MergeVoteDel);
    var reg4, vote4, voteReg := reg1 - vote3.Keys, vote3 - reg1.Keys, Merged(reg1, vote3, MergeVoteReg);
    Passes(reg4, del3, vote4, regDel2, voteDel, voteReg, voteRegDel)
  }

  /** What each of the seven lists has at index i. */
  function Cell(p: Passes, i: nat): seq<Certificate> {
    (if i in p.reg then [StakeRegistration(p.reg[i])] else [])
    + (if i in p.del then [StakeDelegation(p.del[i])] else [])
    + (if i in p.vote then [VoteDelegation(p.vote[i])] else [])
    + (if i in p.regDel then [StakeRegistrationDelegation(p.regDel[i])] else [])
    + (if i in p.voteDel then [StakeVoteDelegation(p.voteDel[i])] else [])
    + (if i in p.voteReg then [VoteRegistrationDelegation(p.voteReg[i])] else [])
    + (if i in p.voteRegDel then [StakeVoteRegistrationDelegation(p.voteRegDel[i])] else [])
  }

  /** Exactly one of the seven lists has an index that any record has, and it has the whole certificate. */
  lemma PassesGiveWhole(reg: map<nat, Registration>, del: map<nat, Delegation>, vote: map<nat, Vote>, i: nat)
    ensures Cell(RunPasses(reg, del, vote), i)
         == match Whole(Get(reg, i), Get(del, i), Get(vote, i)) case None => [] case Some(c) => [c]
  {
    var p := RunPasses(reg, del, vote);
    var r, d, v := i in reg, i in del, i in vote;
    assert i in p.reg <==> r && !d && !v;
    assert i in p.del <==> d && !r && !v;
    assert i in p.vote <==> v && !r && !d;
    assert i in p.regDel <==> r && d && !v;
    assert i in p.voteDel <==> d && v && !r;
    assert i in p.voteReg <==> r && v && !d;
    assert i in p.voteRegDel <==> r && d && v;
  }

  // ---------------------------------------------------------------- writing the cells

  const AsRegistration: Registration -> Certificate := (c: Registration) => StakeRegistration(c)
  const AsDelegation: Delegation -> Certificate := (c: Delegation) => StakeDelegation(c)
  const AsVote: Vote -> Certificate := (c: Vote) => VoteDelegation(c)
  const AsRegDel: RegDel -> Certificate := (c: RegDel) => StakeRegistrationDelegation(c)
  const AsVoteDel: VoteDel -> Certificate := (c: VoteDel) => StakeVoteDelegation(c)
  const AsVoteReg: VoteReg -> Certificate := (c: VoteReg) => VoteRegistrationDelegation(c)
  const AsVoteRegDel: VoteRegDel -> Certificate := (c: VoteRegDel) => StakeVoteRegistrationDelegation(c)

  function Wrapped<C>(t: map<nat, C>, wrap: C -> Certificate): map<nat, Certificate> {
    map i | i in t :: wrap(t[i])
  }

  /** How often each cell is written. */
  ghost function Writes<C>(certs: seq<Indexed<C>>): multiset<nat> {
    if certs == [] then multiset{} else Writes(certs[..|certs| - 1]) + multiset{certs[|certs| - 1].index}
  }

  lemma {:induction false} WritesOnce<C>(certs: seq<Indexed<C>>, i: nat)
    requires DistinctIndexes(certs)
    ensures Writes(certs)[i] == if i in Table(certs) then 1 else 0
  {
    if certs != [] { WritesOnce(certs[..|certs| - 1], i); }
  }

  lemma WrappedSnoc<C>(cells: map<nat, Certificate>, t: map<nat, C>, c: Indexed<C>, wrap: C -> Certificate)
    ensures cells + Wrapped(t[c.index := c.cert], wrap) == (cells + Wrapped(t, wrap))[c.index := wrap(c.cert)]
  {
  }

  /** for (const cert of certs) result[cert[0]] = cert[1] */
  method Store<C>(cells: map<nat, Certificate>, ghost writes: multiset<nat>, certs: seq<Indexed<C>>,
                  wrap: C -> Certificate)
    returns (cells': map<nat, Certificate>, ghost writes': multiset<nat>)
    ensures cells' == cells + Wrapped(Table(certs), wrap)
    ensures writes' == writes + Writes(certs)
  {
    cells', writes' := cells, writes;
    for k := 0 to |certs|
      invariant cells' == cells + Wrapped(Table(certs[..k]), wrap)
      invariant writes' == writes + Writes(certs[..k])
    {
      WrappedSnoc(cells, Table(certs[..k]), certs[k], wrap);
      cells' := cells'[certs[k].index := wrap(certs[k].cert)];
      writes' := writes' + multiset{certs[k].index};
      assert certs[..k + 1][..k] == certs[..k];
    }
    assert certs[..|certs|] == certs;
  }

  function Cells(p: Passes): map<nat, Certificate> {
    map[] + Wrapped(p.reg, AsRegistration)
    + Wrapped(p.del, AsDelegation)
    + Wrapped(p.vote, AsVote)
    + Wrapped(p.regDel, AsRegDel)
    + Wrapped(p.voteDel, AsVoteDel)
    + Wrapped(p.voteReg, AsVoteReg)
    + Wrapped(p.voteRegDel, AsVoteRegDel)
  }

  lemma CellsAt(p: Passes, i: nat)
    ensures Get(Cells(p), i) == if Cell(p, i) == [] then None else Some(Cell(p, i)[|Cell(p, i)| - 1])
  {
  }

  datatype Lists = Lists(
    reg: seq<Indexed<Registration>>, del: seq<Indexed<Delegation>>, vote: seq<Indexed<Vote>>,
    regDel: seq<Indexed<RegDel>>, voteDel: seq<Indexed<VoteDel>>, voteReg: seq<Indexed<VoteReg>>,
    voteRegDel: seq<Indexed<VoteRegDel>>)

  function Tables(l: Lists): Passes {
    Passes(Table(l.reg), Table(l.del), Table(l.vote), Table(l.regDel), Table(l.voteDel), Table(l.voteReg),
           Table(l.voteRegDel))
  }

  predicate AllDistinct(l: Lists) {
    && DistinctIndexes(l.reg)
    && DistinctIndexes(l.del)
    && DistinctIndexes(l.vote)
    && DistinctIndexes(l.regDel)
    && DistinctIndexes(l.voteDel)
    && DistinctIndexes(l.voteReg)
    && DistinctIndexes(l.voteRegDel)
  }

  ghost function AllWrites(l: Lists): multiset<nat> {
    multiset{} + Writes(l.reg)
    + Writes(l.del)
    + Writes(l.vote)
    + Writes(l.regDel)
    + Writes(l.voteDel)
    + Writes(l.voteReg)
    + Writes(l.voteRegDel)
  }

  function One(b: bool): nat {
    if b then 1 else 0
  }

  lemma CellSize(p: Passes, i: nat)
    ensures |Cell(p, i)| == One(i in p.reg) + One(i in p.del) + One(i in p.vote) + One(i in p.regDel)
                            + One(i in p.voteDel) + One(i in p.voteReg) + One(i in p.voteRegDel)
  {
  }

  lemma WritesSum(l: Lists, i: nat)
    ensures AllWrites(l)[i] == Writes(l.reg)[i] + Writes(l.del)[i] + Writes(l.vote)[i] + Writes(l.regDel)[i]
                               + Writes(l.voteDel)[i] + Writes(l.voteReg)[i] + Writes(l.voteRegDel)[i]
  {
  }

  /** A cell is written once for each list that has its index. */
  lemma WritesAt(l: Lists, i: nat)
    requires AllDistinct(l)
    ensures AllWrites(l)[i] == |Cell(Tables(l), i)|
  {
    WritesOnce(l.reg, i);
    WritesOnce(l.del, i);
    WritesOnce(l.vote, i);
    WritesOnce(l.regDel, i);
    WritesOnce(l.voteDel, i);
    WritesOnce(l.voteReg, i);
    WritesOnce(l.voteRegDel, i);
    WritesSum(l, i);
    CellSize(Tables(l), i);
  }

  method FourPasses(reg: seq<Indexed<Registration>>, del: seq<Indexed<Delegation>>, vote: seq<Indexed<Vote>>)
    returns (l: Lists)
    ensures DistinctIndexes(reg) && DistinctIndexes(del) && DistinctIndexes(vote) ==>
              AllDistinct(l) && Tables(l) == RunPasses(Table(reg), Table(del), Table(vote))
  {
    var del1, reg1, regDel1 := Compound(del, reg, MergeRegDel);
    var vote2, regDel2, voteRegDel := Compound(vote, regDel1, MergeVoteRegDel);
    var del3, vote3, voteDel := Compound(del1, vote2, MergeVoteDel);
    var reg4, vote4, voteReg := Compound(reg1, vote3, MergeVoteReg);
    l := Lists(reg4, del3, vote4, regDel2, voteDel, voteReg, voteRegDel);
  }

  method WriteCells(l: Lists) returns (cells: map<nat, Certificate>, ghost writes: multiset<nat>)
    ensures cells == Cells(Tables(l)) && writes == AllWrites(l)
  {
    cells, writes := Store(map[], multiset{}, l.reg, AsRegistration);
    cells, writes := Store(cells, writes, l.del, AsDelegation);
    cells, writes := Store(cells, writes, l.vote, AsVote);
    cells, writes := Store(cells, writes, l.regDel, AsRegDel);
    cells, writes := Store(cells, writes, l.voteDel, AsVoteDel);
    cells, writes := Store(cells, writes, l.voteReg, AsVoteReg);
    cells, writes := Store(cells, writes, l.voteRegDel, AsVoteRegDel);
  }

  /** Every index with a record, and the certificate its records stand for. */
  function WholeCertificates(reg: map<nat, Registration>, del: map<nat, Delegation>, vote: map<nat, Vote>)
    : map<nat, Certificate>
  {
    map i | i in reg.Keys + del.Keys + vote.Keys :: Whole(Get(reg, i), Get(del, i), Get(vote, i)).value
  }

  lemma WholeAt(reg: map<nat, Registration>, del: map<nat, Delegation>, vote: map<nat, Vote>, i: nat)
    ensures Get(WholeCertificates(reg, del, vote), i) == Whole(Get(reg, i), Get(del, i), Get(vote, i))
  {
  }

  lemma SameTable<C>(a: map<nat, C>, b: map<nat, C>)
    requires forall i: nat :: Get(a, i) == Get(b, i)
    ensures a == b
  {
    forall i: nat
      ensures i in a <==> i in b
      ensures i in a ==> a[i] == b[i]
    {
      assert Get(a, i) == Get(b, i);
    }
  }

  lemma SameCells(cells: map<nat, Certificate>, reg: map<nat, Registration>, del: map<nat, Delegation>,
                  vote: map<nat, Vote>)
    requires forall i: nat :: Get(cells, i) == Whole(Get(reg, i), Get(del, i), Get(vote, i))
    ensures cells == WholeCertificates(reg, del, vote)
  {
    forall i: nat
      ensures Get(cells, i) == Get(WholeCertificates(reg, del, vote), i)
    {
      WholeAt(reg, del, vote, i);
    }
    SameTable(cells, WholeCertificates(reg, del, vote));
  }

  /**
    mapCertificates up to the last compound certificate. When no base list has an index twice, every
    index that any list has is written exactly once, with the certificate its records stand for.
   */
  method MapCertificates(reg: seq<Indexed<Registration>>, del: seq<Indexed<Delegation>>, vote: seq<Indexed<Vote>>)
    returns (cells: map<nat, Certificate>, ghost writes: multiset<nat>)
    ensures DistinctIndexes(reg) && DistinctIndexes(del) && DistinctIndexes(vote) ==>
              cells == WholeCertificates(Table(reg), Table(del), Table(vote))
    ensures DistinctIndexes(reg) && DistinctIndexes(del) && DistinctIndexes(vote) ==>
              forall i: nat :: writes[i] == if i in cells then 1 else 0
  {
    var l := FourPasses(reg, del, vote);
    cells, writes := WriteCells(l);
    if DistinctIndexes(reg) && DistinctIndexes(del) && DistinctIndexes(vote) {
      forall i: nat
        ensures Get(cells, i) == Whole(Get(Table(reg), i), Get(Table(del), i), Get(Table(vote), i))
        ensures writes[i] == if i in cells then 1 else 0
      {
        PassesGiveWhole(Table(reg), Table(del), Table(vote), i);
        CellsAt(Tables(l), i);
        WritesAt(l, i);
      }
      SameCells(cells, Table(reg), Table(del), Table(vote));
    }
  }

  // ---------------------------------------------------------------- splitting back

  function Deposit(c: Certificate): Option<int> {
    match c
    case StakeRegistration(r) => Some(r.deposit)
    case StakeRegistrationDelegation(r) => Some(r.deposit)
    case VoteRegistrationDelegation(r) => Some(r.deposit)
    case StakeVoteRegistrationDelegation(r) => Some(r.deposit)
    case _ => None
  }

  function Pool(c: Certificate): Option<string> {
    match c
    case StakeDelegation(d) => Some(d.pool)
    case StakeRegistrationDelegation(d) => Some(d.pool)
    case StakeVoteDelegation(d) => Some(d.pool)
    case StakeVoteRegistrationDelegation(d) => Some(d.pool)
    case _ => None
  }

  function DRep(c: Certificate): Option<string> {
    match c
    case VoteDelegation(v) => Some(v.dRep)
    case StakeVoteDelegation(v) => Some(v.dRep)
    case VoteRegistrationDelegation(v) => Some(v.dRep)
    case StakeVoteRegistrationDelegation(v) => Some(v.dRep)
    case _ => None
  }

  function CredentialOf(c: Certificate): Credential {
    match c
    case StakeRegistration(r) => r.credential
    case StakeDelegation(d) => d.credential
    case VoteDelegation(v) => v.credential
    case StakeRegistrationDelegation(r) => r.credential
    case StakeVoteDelegation(v) => v.credential
    case VoteRegistrationDelegation(v) => v.credential
    case StakeVoteRegistrationDelegation(v) => v.credential
  }

  /** The registration record in a certificate. */
  function RegOf(c: Certificate): Option<Registration> {
    if Deposit(c).Some? then Some(Registration(Deposit(c).value, CredentialOf(c))) else None
  }

  function DelOf(c: Certificate): Option<Delegation> {
    if Pool(c).Some? then Some(Delegation(Pool(c).value, CredentialOf(c))) else None
  }

  function VoteOf(c: Certificate): Option<Vote> {
    if DRep(c).Some? then Some(Vote(DRep(c).value, CredentialOf(c))) else None
  }

  /** The records of one kind, read off the certificates. */
  function Split<C>(cells: map<nat, Certificate>, part: Certificate -> Option<C>): map<nat, C> {
    map i | i in cells && part(cells[i]).Some? :: part(cells[i]).value
  }

  /** Records under one index name one credential. */
  predicate Agree(r: Option<Registration>, d: Option<Delegation>, v: Option<Vote>) {
    && (r.Some? && d.Some? ==> r.value.credential == d.value.credential)
    && (r.Some? && v.Some? ==> r.value.credential == v.value.credential)
    && (d.Some? && v.Some? ==> d.value.credential == v.value.credential)
  }

  predicate CredentialsAgree(reg: map<nat, Registration>, del: map<nat, Delegation>, vote: map<nat, Vote>) {
    forall i :: i in reg.Keys + del.Keys + vote.Keys ==> Agree(Get(reg, i), Get(del, i), Get(vote, i))
  }

  lemma WholeParts(r: Option<Registration>, d: Option<Delegation>, v: Option<Vote>)
    requires Whole(r, d, v).Some?
    ensures var c := Whole(r, d, v).value;
            && Deposit(c) == (if r.Some? then Some(r.value.deposit) else None)
            && Pool(c) == (if d.Some? then Some(d.value.pool) else None)
            && DRep(c) == (if v.Some? then Some(v.value.dRep) else None)
            && ((RegOf(c) == r && DelOf(c) == d && VoteOf(c) == v) <==> Agree(r, d, v))
  {
  }

  /** Which credential a certificate keeps: that of the vote, or else of the registration, or else of the delegation. */
  lemma CredentialKept(r: Option<Registration>, d: Option<Delegation>, v: Option<Vote>)
    requires Whole(r, d, v).Some?
    ensures CredentialOf(Whole(r, d, v).value) ==
      if v.Some? then v.value.credential else if r.Some? then r.value.credential else d.value.credential
  {
  }

  function Deposits(reg: map<nat, Registration>): map<nat, int> {
    map i | i in reg :: reg[i].deposit
  }

  function Pools(del: map<nat, Delegation>): map<nat, string> {
    map i | i in del :: del[i].pool
  }

  function DReps(vote: map<nat, Vote>): map<nat, string> {
    map i | i in vote :: vote[i].dRep
  }

  lemma PartsAt(reg: map<nat, Registration>, del: map<nat, Delegation>, vote: map<nat, Vote>, i: nat)
    ensures var cells := WholeCertificates(reg, del, vote);
            && Get(Split(cells, Deposit), i) == Get(Deposits(reg), i)
            && Get(Split(cells, Pool), i) == Get(Pools(del), i)
            && Get(Split(cells, DRep), i) == Get(DReps(vote), i)
  {
    WholeAt(reg, del, vote, i);
    if i in WholeCertificates(reg, del, vote) { WholeParts(Get(reg, i), Get(del, i), Get(vote, i)); }
  }

  /** Every deposit, pool and dRep can be read off the certificates again, at its index and nowhere else. */
  lemma PartsRecovered(reg: map<nat, Registration>, del: map<nat, Delegation>, vote: map<nat, Vote>)
    ensures Split(WholeCertificates(reg, del, vote), Deposit) == Deposits(reg)
    ensures Split(WholeCertificates(reg, del, vote), Pool) == Pools(del)
    ensures Split(WholeCertificates(reg, del, vote), DRep) == DReps(vote)
  {
    var cells := WholeCertificates(reg, del, vote);
    var deposits, pools, dReps := Split(cells, Deposit), Split(cells, Pool), Split(cells, DRep);
    forall i: nat
      ensures Get(deposits, i) == Get(Deposits(reg), i)
      ensures Get(pools, i) == Get(Pools(del), i)
      ensures Get(dReps, i) == Get(DReps(vote), i)
    {
      PartsAt(reg, del, vote, i);
    }
    SameTable(deposits, Deposits(reg));
    SameTable(pools, Pools(del));
    SameTable(dReps, DReps(vote));
  }

  lemma SplitAt(reg: map<nat, Registration>, del: map<nat, Delegation>, vote: map<nat, Vote>, i: nat)
    ensures var cells := WholeCertificates(reg, del, vote);
            (Get(Split(cells, RegOf), i) == Get(reg, i) && Get(Split(cells, DelOf), i) == Get(del, i)
             && Get(Split(cells, VoteOf), i) == Get(vote, i))
            <==> Agree(Get(reg, i), Get(del, i), Get(vote, i))
  {
    WholeAt(reg, del, vote, i);
    if i in WholeCertificates(reg, del, vote) { WholeParts(Get(reg, i), Get(del, i), Get(vote, i)); }
  }

  /** All records come back exactly when those under one index name the same credential. */
  lemma SplitBack(reg: map<nat, Registration>, del: map<nat, Delegation>, vote: map<nat, Vote>)
    ensures var cells := WholeCertificates(reg, del, vote);
            (Split(cells, RegOf) == reg && Split(cells, DelOf) == del && Split(cells, VoteOf) == vote)
            <==> CredentialsAgree(reg, del, vote)
  {
    var cells := WholeCertificates(reg, del, vote);
    var r, d, v := Split(cells, RegOf), Split(cells, DelOf), Split(cells, VoteOf);
    forall i: nat
      ensures (Get(r, i) == Get(reg, i) && Get(d, i) == Get(del, i) && Get(v, i) == Get(vote, i))
              <==> Agree(Get(reg, i), Get(del, i), Get(vote, i))
    {
      SplitAt(reg, del, vote, i);
    }
    if CredentialsAgree(reg, del, vote) {
      SameTable(r, reg);
      SameTable(d, del);
      SameTable(v, vote);
    }
  }
}
