/**
  Slots and epochs across eras of different epoch lengths: the calculator that goes from a slot to
  its epoch, the one that goes from an epoch to its slots, and why they are inverse.
 */
module SlotCalc {
  import opened Seqs
  import opened Sorting
  import opened Wrappers

  datatype Era = Era(start: nat, epochLength: nat)

  // ---------------------------------------------------------------- division

  /** How often n goes into x. */
  function Quot(x: nat, n: nat): nat
    requires n > 0
  {
    if x < n then 0 else 1 + Quot(x - n, n)
  }

  /** What is left over. */
  function Rem(x: nat, n: nat): (r: nat)
    requires n > 0
    ensures r < n && r <= x
  {
    if x < n then x else Rem(x - n, n)
  }

  lemma {:induction false} QuotRem(x: nat, n: nat)
    requires n > 0
    ensures x == Quot(x, n) * n + Rem(x, n)
  {
    if x >= n {
      QuotRem(x - n, n);
      assert (1 + Quot(x - n, n)) * n == n + Quot(x - n, n) * n;
    }
  }

  lemma AtLeast(k: nat, n: nat)
    requires k >= 1
    ensures k * n >= n
  {
  }

  lemma QuotIsDivision(x: nat, n: nat)
    requires n > 0
    ensures Quot(x, n) == x / n && Rem(x, n) == x % n
  {
    var q, r, d, m := Quot(x, n), Rem(x, n), x / n, x % n;
    QuotRem(x, n);
    assert x == d * n + m;
    assert (d - q) * n == d * n - q * n;
    if d > q { AtLeast(d - q, n); }
    if d < q {
      assert (q - d) * n == q * n - d * n;
      AtLeast(q - d, n);
    }
  }

  /** From one multiple of n to the next the quotient stays, and there it grows by one. */
  lemma {:induction false} MultipleSteps(a: nat, n: nat, k: nat)
    requires n > 0 && Rem(a, n) == 0 && k < n
    ensures Quot(a + k, n) == Quot(a, n)
    ensures Quot(a + n, n) == Quot(a, n) + 1 && Rem(a + n, n) == 0
  {
    if a >= n { MultipleSteps(a - n, n, k); }
  }

  lemma {:induction false} MultiplesApart(a: nat, b: nat, n: nat)
    requires n > 0 && Rem(a, n) == 0 && Rem(b, n) == 0 && a < b
    ensures a + n <= b
  {
    if a >= n { MultiplesApart(a - n, b - n, n); }
  }

  lemma {:induction false} RoundDown(x: nat, n: nat)
    requires n > 0
    ensures var a := x - Rem(x, n); Rem(a, n) == 0 && Quot(a, n) == Quot(x, n)
  {
    if x >= n { RoundDown(x - n, n); }
  }

  lemma {:induction false} QuotMonotone(x: nat, y: nat, n: nat)
    requires n > 0 && x <= y
    ensures Quot(x, n) <= Quot(y, n)
  {
    if x >= n { QuotMonotone(x - n, y - n, n); }
  }

  // ---------------------------------------------------------------- eras

  ghost predicate Ascending(eras: seq<Era>) {
    forall i, j :: 0 <= i < j < |eras| ==> eras[i].start <= eras[j].start
  }

  /** Ascending eras with positive epoch lengths whose boundaries fall between epochs; skipped eras share a start. */
  ghost predicate WellFormed(eras: seq<Era>) {
    && eras != []
    && (forall i :: 0 <= i < |eras| ==> eras[i].epochLength > 0)
    && Ascending(eras)
    && (forall i, j :: 0 <= i < |eras| && j == i + 1 < |eras| ==>
          Rem(eras[j].start - eras[i].start, eras[i].epochLength) == 0)
  }

  /** Era `i` is the one in force at `slot`. */
  ghost predicate InEra(eras: seq<Era>, i: nat, slot: nat) {
    i < |eras| && eras[i].start <= slot && (i + 1 < |eras| ==> slot < eras[i + 1].start)
  }

  /** Epochs completed before era `i`. */
  ghost function BaseEpoch(eras: seq<Era>, i: nat): nat
    requires WellFormed(eras) && i < |eras|
  {
    if i == 0 then 0
    else BaseEpoch(eras, i - 1) + Quot(eras[i].start - eras[i - 1].start, eras[i - 1].epochLength)
  }

  ghost function EpochAt(eras: seq<Era>, i: nat, slot: nat): nat
    requires WellFormed(eras) && i < |eras| && eras[i].start <= slot
  {
    BaseEpoch(eras, i) + Quot(slot - eras[i].start, eras[i].epochLength)
  }

  /** `first` is the first slot of epoch `e`, in era `i`. */
  ghost predicate IsEpoch(eras: seq<Era>, e: nat, i: nat, first: nat)
    requires WellFormed(eras)
  {
    InEra(eras, i, first) && Rem(first - eras[i].start, eras[i].epochLength) == 0 && EpochAt(eras, i, first) == e
  }

  /** Every slot from the first era on has an era, and only one. */
  lemma EraUnique(eras: seq<Era>, i: nat, j: nat, slot: nat)
    requires WellFormed(eras) && InEra(eras, i, slot) && InEra(eras, j, slot)
    ensures i == j
  {
  }

  // ---------------------------------------------------------------- one epoch after another

  /** An epoch ends before its era does, and the next slot starts the next epoch. */
  lemma NextEpoch(eras: seq<Era>, e: nat, i: nat, first: nat)
    requires WellFormed(eras) && IsEpoch(eras, e, i, first)
    ensures i + 1 < |eras| ==> first + eras[i].epochLength <= eras[i + 1].start
    ensures i + 1 == |eras| || first + eras[i].epochLength < eras[i + 1].start ==>
      IsEpoch(eras, e + 1, i, first + eras[i].epochLength)
    ensures i + 1 < |eras| && first + eras[i].epochLength == eras[i + 1].start ==> BaseEpoch(eras, i + 1) == e + 1
  {
    var n, a := eras[i].epochLength, first - eras[i].start;
    MultipleSteps(a, n, 0);
    if i + 1 < |eras| {
      MultiplesApart(a, eras[i + 1].start - eras[i].start, n);
    }
  }

  lemma {:induction false} SkipEras(eras: seq<Era>, i: nat, j: nat)
    requires WellFormed(eras) && i <= j < |eras| && eras[i].start == eras[j].start
    ensures BaseEpoch(eras, j) == BaseEpoch(eras, i)
  {
    if i < j {
      SkipEras(eras, i, j - 1);
    }
  }

  /** Crossing into later eras at their common start keeps the epoch number. */
  lemma EnterEra(eras: seq<Era>, e: nat, before: nat, i: nat, first: nat)
    requires WellFormed(eras) && before <= i && InEra(eras, i, first)
    requires before + 1 < |eras| ==> first <= eras[before + 1].start
    requires before + 1 == |eras| || first < eras[before + 1].start ==> IsEpoch(eras, e, before, first)
    requires before + 1 < |eras| && first == eras[before + 1].start ==> BaseEpoch(eras, before + 1) == e
    ensures IsEpoch(eras, e, i, first)
  {
    if before + 1 == |eras| || first < eras[before + 1].start {
      EraUnique(eras, before, i, first);
    } else {
      if i == before { assert false; }
      SkipEras(eras, before + 1, i);
    }
  }

  /** The era that a walk through `eras` is in at `slot`, when it was in `from` before. */
  function NextEra(eras: seq<Era>, slot: nat, from: nat): (i: nat)
    requires from < |eras|
    ensures from <= i < |eras|
    decreases |eras| - from
  {
    if from + 1 < |eras| && slot >= eras[from + 1].start then NextEra(eras, slot, from + 1) else from
  }

  lemma {:induction false} NextEraInEra(eras: seq<Era>, slot: nat, from: nat)
    requires WellFormed(eras) && from < |eras| && eras[from].start <= slot
    ensures InEra(eras, NextEra(eras, slot, from), slot)
    decreases |eras| - from
  {
    if from + 1 < |eras| && slot >= eras[from + 1].start { NextEraInEra(eras, slot, from + 1); }
  }

  /** A first slot of an epoch, and the era it is in. */
  datatype Place = Place(slot: nat, era: nat)

  function Ahead(eras: seq<Era>, p: Place): (q: Place)
    requires p.era < |eras|
    ensures q.era < |eras|
  {
    var next := p.slot + eras[p.era].epochLength;
    Place(next, NextEra(eras, next, p.era))
  }

  /** Where a walk from the first slot stands after `n` epochs, each as long as the era it starts in says. */
  function Walk(eras: seq<Era>, n: nat): (p: Place)
    requires eras != []
    ensures p.era < |eras|
  {
    if n == 0 then Place(eras[0].start, NextEra(eras, eras[0].start, 0)) else Ahead(eras, Walk(eras, n - 1))
  }

  lemma WalkStart(eras: seq<Era>)
    requires WellFormed(eras)
    ensures IsEpoch(eras, 0, NextEra(eras, eras[0].start, 0), eras[0].start)
  {
    NextEraInEra(eras, eras[0].start, 0);
    SkipEras(eras, 0, NextEra(eras, eras[0].start, 0));
  }

  lemma WalkStep(eras: seq<Era>, e: nat, p: Place)
    requires WellFormed(eras) && IsEpoch(eras, e, p.era, p.slot)
    ensures IsEpoch(eras, e + 1, Ahead(eras, p).era, Ahead(eras, p).slot)
  {
    var q := Ahead(eras, p);
    NextEpoch(eras, e, p.era, p.slot);
    NextEraInEra(eras, q.slot, p.era);
    EnterEra(eras, e + 1, p.era, q.era, q.slot);
  }

  /** Across well-formed eras, `n` epochs later is the first slot of epoch `n`. */
  lemma {:induction false} WalkIsEpoch(eras: seq<Era>, n: nat)
    requires WellFormed(eras)
    ensures IsEpoch(eras, n, Walk(eras, n).era, Walk(eras, n).slot)
  {
    if n == 0 {
      WalkStart(eras);
    } else {
      WalkIsEpoch(eras, n - 1);
      WalkStep(eras, n - 1, Walk(eras, n - 1));
      assert Walk(eras, n) == Ahead(eras, Walk(eras, n - 1));
    }
  }

  /** findNextEraSummary */
  method FindNextEra(eras: seq<Era>, slot: nat, from: nat) returns (i: nat)
    requires from < |eras|
    ensures i == NextEra(eras, slot, from)
  {
    i := from;
    while i + 1 < |eras| && slot >= eras[i + 1].start
      invariant from <= i < |eras| && NextEra(eras, slot, i) == NextEra(eras, slot, from)
    {
      i := i + 1;
    }
  }

  datatype EpochSlotsResult = EpochSlotsResult(era: Era, first: nat, last: int)

  /**
    epochSlotsCalcImplementation: walks epoch by epoch from the first era, whatever the eras are, and throws
    when there is none; across well-formed eras it arrives at the first slot of the epoch.
   */
  method EpochSlots(epochNo: nat, eras: seq<Era>) returns (r: Option<EpochSlotsResult>)
    ensures r.None? <==> eras == []
    ensures r.Some? ==>
      var p := Walk(eras, epochNo);
      r.value == EpochSlotsResult(eras[p.era], p.slot, p.slot + eras[p.era].epochLength - 1)
    ensures WellFormed(eras) ==> IsEpoch(eras, epochNo, Walk(eras, epochNo).era, r.value.first)
  {
    if eras == [] { return None; }
    var atEpoch := 0;
    var atSlot: nat := eras[0].start;
    var i := FindNextEra(eras, atSlot, 0);
    while atEpoch != epochNo
      invariant atEpoch <= epochNo && Place(atSlot, i) == Walk(eras, atEpoch)
      decreases epochNo - atEpoch
    {
      atSlot := atSlot + eras[i].epochLength;
      atEpoch := atEpoch + 1;
      i := FindNextEra(eras, atSlot, i);
    }
    if WellFormed(eras) { WalkIsEpoch(eras, epochNo); }
    r := Some(EpochSlotsResult(eras[i], atSlot, atSlot + eras[i].epochLength - 1));
  }

  // ---------------------------------------------------------------- from slot to epoch

  /** groupBy start and keep the last of each group: drops eras that a later one replaces at the same slot. */
  function WithoutSkipped(eras: seq<Era>): seq<Era> {
    if eras == [] then []
    else if exists j :: 1 <= j < |eras| && eras[j].start == eras[0].start then WithoutSkipped(eras[1..])
    else [eras[0]] + WithoutSkipped(eras[1..])
  }

  function Started(eras: seq<Era>, slot: nat): seq<Era> {
    Filter(eras, (e: Era) => e.start <= slot)
  }

  predicate StartsBefore(d: Era, e: Era) {
    d.start <= e.start
  }

  /** orderBy start, ascending */
  function Ordered(eras: seq<Era>): seq<Era> {
    Sort(eras, StartsBefore)
  }

  /** The eras that createSlotEpochCalcImpl sums over. */
  function RelevantEras(eras: seq<Era>, slot: nat): seq<Era> {
    Ordered(Started(Ordered(WithoutSkipped(eras)), slot))
  }

  /** A nonempty ascending list of eras, the first of which has started. */
  ghost predicate Walkable(eras: seq<Era>, slot: nat) {
    && eras != [] && eras[0].start <= slot
    && (forall i :: 0 <= i < |eras| ==> eras[i].epochLength > 0)
    && Ascending(eras)
  }

  /** Epochs from the start of the first era of a list up to `slot`. */
  ghost function EpochSum(eras: seq<Era>, slot: nat): nat
    requires Walkable(eras, slot)
  {
    if |eras| == 1 || slot < eras[1].start then Quot(slot - eras[0].start, eras[0].epochLength)
    else Quot(eras[1].start - eras[0].start, eras[0].epochLength) + EpochSum(eras[1..], slot)
  }

  ghost function EraAt(eras: seq<Era>, slot: nat): Era
    requires Walkable(eras, slot)
  {
    if |eras| == 1 || slot < eras[1].start then eras[0] else EraAt(eras[1..], slot)
  }

  ghost predicate StrictlyAscending(eras: seq<Era>) {
    forall i, j :: 0 <= i < j < |eras| ==> eras[i].start < eras[j].start
  }

  /** In an ascending list a skipped era is one whose successor has the same start. */
  lemma SkippedIsNext(eras: seq<Era>)
    requires eras != [] && Ascending(eras)
    ensures (exists j :: 1 <= j < |eras| && eras[j].start == eras[0].start) <==>
      (|eras| > 1 && eras[1].start == eras[0].start)
  {
  }

  lemma SumCons(e: Era, rest: seq<Era>, slot: nat)
    requires rest != [] && Walkable(rest, slot) && e.start <= rest[0].start && e.epochLength > 0
    ensures Walkable([e] + rest, slot)
    ensures EpochSum([e] + rest, slot) == Quot(rest[0].start - e.start, e.epochLength) + EpochSum(rest, slot)
    ensures EraAt([e] + rest, slot) == EraAt(rest, slot)
  {
  }

  lemma SumTail(s: seq<Era>, rest: seq<Era>, slot: nat)
    requires |s| > 1 && Walkable(s, slot) && s[1].start <= slot && rest == s[1..]
    ensures Walkable(rest, slot) && EraAt(s, slot) == EraAt(rest, slot)
    ensures EpochSum(s, slot) == Quot(s[1].start - s[0].start, s[0].epochLength) + EpochSum(rest, slot)
  {
  }

  /** An era later than the slot ends the walk. */
  lemma SumStops(eras: seq<Era>, slot: nat)
    requires Walkable(eras, slot) && (|eras| == 1 || slot < eras[1].start)
    ensures Walkable(eras[..1], slot)
    ensures EpochSum(eras, slot) == EpochSum(eras[..1], slot) && EraAt(eras, slot) == EraAt(eras[..1], slot) == eras[0]
  {
  }

  lemma {:induction false} WithoutSkippedShape(eras: seq<Era>)
    requires Ascending(eras)
    ensures StrictlyAscending(WithoutSkipped(eras))
    ensures eras != [] ==> WithoutSkipped(eras) != [] && WithoutSkipped(eras)[0].start == eras[0].start
  {
    if eras != [] {
      SkippedIsNext(eras);
      WithoutSkippedShape(eras[1..]);
      var w := WithoutSkipped(eras[1..]);
      if |eras| > 1 && eras[1].start > eras[0].start {
        var all := [eras[0]] + w;
        assert forall j :: 0 < j < |all| ==> all[j] == w[j - 1] && all[j].start >= w[0].start;
      }
    }
  }

  lemma AscendingWalkable(w: seq<Era>, slot: nat)
    requires StrictlyAscending(w) && w != [] && w[0].start <= slot && forall e :: e in w ==> e.epochLength > 0
    ensures Walkable(w, slot)
  {
  }

  function Starts(eras: seq<Era>): set<nat> {
    set i | 0 <= i < |eras| :: eras[i].start
  }

  lemma StartsCons(eras: seq<Era>)
    requires eras != []
    ensures Starts(eras) == {eras[0].start} + Starts(eras[1..])
  {
  }

  lemma {:induction false} WithoutSkippedMembers(eras: seq<Era>)
    ensures forall e :: e in WithoutSkipped(eras) ==> e in eras
    ensures Starts(WithoutSkipped(eras)) == Starts(eras)
  {
    if eras != [] {
      WithoutSkippedMembers(eras[1..]);
      StartsCons(eras);
      if j :| 1 <= j < |eras| && eras[j].start == eras[0].start {
        assert eras[1..][j - 1].start == eras[0].start;
      } else {
        StartsCons([eras[0]] + WithoutSkipped(eras[1..]));
      }
    }
  }

  lemma WithoutSkippedWalkable(eras: seq<Era>, slot: nat)
    requires Walkable(eras, slot)
    ensures StrictlyAscending(WithoutSkipped(eras)) && Walkable(WithoutSkipped(eras), slot)
  {
    WithoutSkippedShape(eras);
    WithoutSkippedMembers(eras);
    forall e | e in WithoutSkipped(eras)
      ensures e.epochLength > 0
    {
      assert e in eras;
    }
    AscendingWalkable(WithoutSkipped(eras), slot);
  }

  /** The first era ends the walk: nothing after it matters. */
  lemma SkippedAfterStop(eras: seq<Era>, slot: nat)
    requires Walkable(eras, slot) && (|eras| == 1 || slot < eras[1].start)
    requires Walkable(WithoutSkipped(eras), slot)
    ensures EpochSum(WithoutSkipped(eras), slot) == EpochSum(eras, slot)
    ensures EraAt(WithoutSkipped(eras), slot) == EraAt(eras, slot)
  {
    SkippedIsNext(eras);
    var w := WithoutSkipped(eras);
    assert w == [eras[0]] + WithoutSkipped(eras[1..]);
    if |eras| == 1 {
      assert WithoutSkipped(eras[1..]) == [];
    } else {
      WithoutSkippedShape(eras[1..]);
      assert w[1] == WithoutSkipped(eras[1..])[0];
    }
    SumStops(eras, slot);
    SumStops(w, slot);
    assert eras[..1] == w[..1];
  }

  /** The walk goes past the first era, which is skipped or kept. */
  lemma SkippedOrKept(eras: seq<Era>, rest: seq<Era>, slot: nat)
    requires |eras| > 1 && rest == eras[1..] && Walkable(rest, slot) && Walkable(WithoutSkipped(rest), slot)
    requires Ascending(eras) && eras[0].epochLength > 0
    ensures Walkable(WithoutSkipped(eras), slot)
    ensures EraAt(WithoutSkipped(eras), slot) == EraAt(WithoutSkipped(rest), slot)
    ensures EpochSum(WithoutSkipped(eras), slot)
         == Quot(eras[1].start - eras[0].start, eras[0].epochLength) + EpochSum(WithoutSkipped(rest), slot)
  {
    SkippedIsNext(eras);
    if eras[1].start > eras[0].start {
      assert WithoutSkipped(eras) == [eras[0]] + WithoutSkipped(rest);
      WithoutSkippedShape(rest);
      SumCons(eras[0], WithoutSkipped(rest), slot);
    } else {
      assert WithoutSkipped(eras) == WithoutSkipped(rest);
      assert Quot(0, eras[0].epochLength) == 0;
    }
  }

  /** Dropping skipped eras changes neither the sum nor the era in force, and leaves starts distinct. */
  lemma {:induction false} WithoutSkippedSum(eras: seq<Era>, slot: nat)
    requires Walkable(eras, slot)
    ensures StrictlyAscending(WithoutSkipped(eras)) && Walkable(WithoutSkipped(eras), slot)
    ensures EpochSum(WithoutSkipped(eras), slot) == EpochSum(eras, slot)
    ensures EraAt(WithoutSkipped(eras), slot) == EraAt(eras, slot)
  {
    WithoutSkippedWalkable(eras, slot);
    if |eras| == 1 || slot < eras[1].start {
      SkippedAfterStop(eras, slot);
    } else {
      var rest := eras[1..];
      SumTail(eras, rest, slot);
      WithoutSkippedSum(rest, slot);
      SkippedOrKept(eras, rest, slot);
    }
  }

  lemma StartedCons(w: seq<Era>, slot: nat)
    requires w != []
    ensures Started(w, slot) == (if w[0].start <= slot then [w[0]] else []) + Started(w[1..], slot)
  {
  }

  lemma {:induction false} NoneStarted(w: seq<Era>, slot: nat)
    requires StrictlyAscending(w) && (w != [] ==> slot < w[0].start)
    ensures Started(w, slot) == []
  {
    if w != [] {
      NoneStarted(w[1..], slot);
      StartedCons(w, slot);
    }
  }

  lemma StartedMembers(eras: seq<Era>, slot: nat)
    ensures forall e :: e in Started(eras, slot) <==> e in eras && e.start <= slot
  {
    FilterMembers(eras, (e: Era) => e.start <= slot);
  }

  lemma {:induction false} StartedShape(w: seq<Era>, slot: nat)
    requires StrictlyAscending(w) && w != [] && w[0].start <= slot
    ensures Started(w, slot) != [] && Started(w, slot)[0] == w[0] && StrictlyAscending(Started(w, slot))
  {
    var rest := w[1..];
    var s := Started(rest, slot);
    StartedCons(w, slot);
    if |w| == 1 || slot < w[1].start {
      NoneStarted(rest, slot);
    } else {
      StartedShape(rest, slot);
      StartedMembers(rest, slot);
      forall j | 0 <= j < |s| ensures w[0].start < s[j].start { assert s[j] in s; assert s[j] in rest; }
    }
  }

  lemma SameTail(w: seq<Era>, all: seq<Era>, rest: seq<Era>, s: seq<Era>, slot: nat)
    requires |w| > 1 && Walkable(w, slot) && w[1].start <= slot && rest == w[1..] && Walkable(rest, slot)
    requires Walkable(all, slot) && s != [] && all == [w[0]] + s && s[0] == w[1] && Walkable(s, slot)
    requires EpochSum(s, slot) == EpochSum(rest, slot) && EraAt(s, slot) == EraAt(rest, slot)
    ensures EpochSum(all, slot) == EpochSum(w, slot) && EraAt(all, slot) == EraAt(w, slot)
  {
    assert w == [w[0]] + rest;
    SumCons(w[0], rest, slot);
    SumCons(w[0], s, slot);
  }

  /** The eras of an ascending list that have started are the ones up to the walk's end. */
  lemma {:induction false} StartedSum(w: seq<Era>, slot: nat)
    requires Walkable(w, slot) && StrictlyAscending(w)
    ensures StrictlyAscending(Started(w, slot)) && Walkable(Started(w, slot), slot)
    ensures EpochSum(Started(w, slot), slot) == EpochSum(w, slot) && EraAt(Started(w, slot), slot) == EraAt(w, slot)
  {
    StartedShape(w, slot);
    StartedMembers(w, slot);
    AscendingWalkable(Started(w, slot), slot);
    var rest := w[1..];
    var all, s := Started(w, slot), Started(rest, slot);
    StartedCons(w, slot);
    if |w| == 1 || slot < w[1].start {
      NoneStarted(rest, slot);
      SumStops(w, slot);
      assert all == w[..1];
    } else {
      StartedShape(rest, slot);
      StartedSum(rest, slot);
      SameTail(w, all, rest, s, slot);
    }
  }

  lemma OrderedAscending(w: seq<Era>)
    requires StrictlyAscending(w)
    ensures Ordered(w) == w
  {
    SortKeepsSorted(w, StartsBefore);
  }

  lemma OrderedMembers(eras: seq<Era>)
    ensures forall e :: e in Ordered(eras) <==> e in eras
  {
    SortMembers(eras, StartsBefore);
  }

  /** Every start that has been reached is the start of a relevant era. */
  lemma StartIsRelevant(eras: seq<Era>, slot: nat, e: Era) returns (k: nat)
    requires e in eras && e.start <= slot
    ensures k < |RelevantEras(eras, slot)| && RelevantEras(eras, slot)[k].start == e.start
  {
    var without := WithoutSkipped(eras);
    WithoutSkippedMembers(eras);
    assert e.start in Starts(eras);
    var j :| 0 <= j < |without| && without[j].start == e.start;
    OrderedMembers(without);
    StartedMembers(Ordered(without), slot);
    OrderedMembers(Started(Ordered(without), slot));
    assert without[j] in RelevantEras(eras, slot);
    k :| 0 <= k < |RelevantEras(eras, slot)| && RelevantEras(eras, slot)[k] == without[j];
  }

  /** The relevant eras are eras that have started, and there are some as soon as one has. */
  lemma RelevantMembers(eras: seq<Era>, slot: nat)
    ensures forall e :: e in RelevantEras(eras, slot) ==> e in eras && e.start <= slot
    ensures RelevantEras(eras, slot) == [] <==> forall i :: 0 <= i < |eras| ==> slot < eras[i].start
  {
    WithoutSkippedMembers(eras);
    OrderedMembers(WithoutSkipped(eras));
    StartedMembers(Ordered(WithoutSkipped(eras)), slot);
    OrderedMembers(Started(Ordered(WithoutSkipped(eras)), slot));
    if i :| 0 <= i < |eras| && eras[i].start <= slot {
      var k := StartIsRelevant(eras, slot, eras[i]);
    } else if RelevantEras(eras, slot) != [] {
      assert RelevantEras(eras, slot)[0] in RelevantEras(eras, slot);
    }
  }

  /** On ascending eras the pipeline leaves a list with the same sum and the same last era. */
  lemma RelevantSum(eras: seq<Era>, slot: nat)
    requires Walkable(eras, slot)
    ensures var s := RelevantEras(eras, slot);
      && StrictlyAscending(s) && Walkable(s, slot)
      && EpochSum(s, slot) == EpochSum(eras, slot) && EraAt(s, slot) == EraAt(eras, slot)
  {
    var w := WithoutSkipped(eras);
    WithoutSkippedSum(eras, slot);
    OrderedAscending(w);
    StartedSum(w, slot);
    OrderedAscending(Started(w, slot));
  }

  // Eras in any order

  /** The eras that start at one slot, in the order they come. */
  function StartingAt(eras: seq<Era>, start: nat): seq<Era> {
    Filter(eras, (e: Era) => e.start == start)
  }

  lemma StartingAtMembers(eras: seq<Era>, start: nat)
    ensures forall e :: e in StartingAt(eras, start) <==> e in eras && e.start == start
  {
    FilterMembers(eras, (e: Era) => e.start == start);
  }

  predicate IsLast(g: seq<Era>, e: Era) {
    g != [] && g[|g| - 1] == e
  }

  lemma StartingAtCons(eras: seq<Era>, start: nat)
    requires eras != []
    ensures StartingAt(eras, start) == (if eras[0].start == start then [eras[0]] else []) + StartingAt(eras[1..], start)
  {
  }

  /** What is kept is the last era of each start. */
  lemma {:induction false} LastIsKept(eras: seq<Era>, e: Era)
    ensures e in WithoutSkipped(eras) <==> IsLast(StartingAt(eras, e.start), e)
  {
    if eras != [] {
      var rest := eras[1..];
      var g := StartingAt(rest, e.start);
      LastIsKept(rest, e);
      StartingAtCons(eras, e.start);
      StartingAtMembers(rest, e.start);
      if j :| 1 <= j < |eras| && eras[j].start == eras[0].start {
        assert rest[j - 1] in rest;
      }
    }
  }

  /** A stable sort keeps the eras of one start in their order. */
  lemma OrderedStartingAt(eras: seq<Era>, start: nat)
    ensures StartingAt(Ordered(eras), start) == StartingAt(eras, start)
  {
    var p := (e: Era) => e.start == start;
    SortFiltered(eras, StartsBefore, p);
    StartingAtMembers(eras, start);
    var g := StartingAt(eras, start);
    forall i | 0 <= i < |g| ensures g[i].start == start { assert g[i] in g; }
    SortKeepsSorted(g, StartsBefore);
  }

  lemma {:induction false} WithoutSkippedDistinct(eras: seq<Era>)
    ensures DistinctBy(WithoutSkipped(eras), (e: Era) => e.start)
  {
    if eras != [] {
      var rest := eras[1..];
      var w := WithoutSkipped(rest);
      WithoutSkippedDistinct(rest);
      WithoutSkippedMembers(rest);
      if forall j :: 1 <= j < |eras| ==> eras[j].start != eras[0].start {
        forall i | 0 <= i < |w| ensures w[i].start != eras[0].start {
          assert w[i] in rest;
          var k :| 0 <= k < |rest| && rest[k] == w[i];
          assert eras[k + 1] == w[i];
        }
      }
    }
  }

  lemma OrderedKeptAscending(eras: seq<Era>)
    ensures StrictlyAscending(Ordered(WithoutSkipped(eras)))
  {
    var w := WithoutSkipped(eras);
    WithoutSkippedDistinct(eras);
    SortIsPermutation(w, StartsBefore);
    SortIsSorted(w, StartsBefore);
    PermutedDistinct(w, Ordered(w), (e: Era) => e.start);
    forall i, j | 0 <= i < j < |Ordered(w)| ensures Ordered(w)[i].start < Ordered(w)[j].start {
      assert StartsBefore(Ordered(w)[i], Ordered(w)[j]);
    }
  }

  lemma FirstMember(eras: seq<Era>)
    ensures eras == [] || eras[0] in eras
  {
  }

  lemma AscendingLast(x: seq<Era>, lastX: Era, y: seq<Era>, lastY: Era)
    requires StrictlyAscending(x + [lastX]) && StrictlyAscending(y + [lastY])
    requires forall e :: e in x + [lastX] <==> e in y + [lastY]
    ensures lastX == lastY && forall e :: e in x <==> e in y
  {
    var xs, ys := x + [lastX], y + [lastY];
    assert xs[|x|] == lastX && ys[|y|] == lastY;
    forall i | 0 <= i < |x| ensures x[i].start < lastX.start { assert xs[i] == x[i]; }
    forall i | 0 <= i < |y| ensures y[i].start < lastY.start { assert ys[i] == y[i]; }
    assert lastX in xs && lastY in ys;
    assert lastX == lastY;
    forall e ensures e in x <==> e in y {
      assert e in xs <==> e in ys;
    }
  }

  /** Ascending eras are determined by which they are. */
  lemma {:induction false} AscendingEqual(x: seq<Era>, y: seq<Era>)
    requires StrictlyAscending(x) && StrictlyAscending(y) && forall e :: e in x <==> e in y
    ensures x == y
    decreases |x|
  {
    if x != [] && y != [] {
      var frontX, lastX, frontY, lastY := x[..|x| - 1], x[|x| - 1], y[..|y| - 1], y[|y| - 1];
      assert x == frontX + [lastX] && y == frontY + [lastY];
      AscendingLast(frontX, lastX, frontY, lastY);
      AscendingEqual(frontX, frontY);
    }
    FirstMember(x);
    FirstMember(y);
  }

  /** Sorting the eras first changes nothing about which are relevant. */
  lemma OrderedRelevant(eras: seq<Era>, slot: nat)
    ensures RelevantEras(Ordered(eras), slot) == RelevantEras(eras, slot)
  {
    var kept, other := Ordered(WithoutSkipped(eras)), WithoutSkipped(Ordered(eras));
    OrderedKeptAscending(eras);
    SortIsSorted(eras, StartsBefore);
    WithoutSkippedShape(Ordered(eras));
    OrderedMembers(WithoutSkipped(eras));
    forall e ensures e in kept <==> e in other {
      LastIsKept(eras, e);
      LastIsKept(Ordered(eras), e);
      OrderedStartingAt(eras, e.start);
    }
    AscendingEqual(kept, other);
    OrderedAscending(kept);
  }

  /** Once an era has started, the eras sorted by start can be walked. */
  lemma OrderedWalkable(eras: seq<Era>, slot: nat)
    requires forall i :: 0 <= i < |eras| ==> eras[i].epochLength > 0
    requires exists i :: 0 <= i < |eras| && eras[i].start <= slot
    ensures Walkable(Ordered(eras), slot)
  {
    SortIsSorted(eras, StartsBefore);
    OrderedMembers(eras);
    var s := Ordered(eras);
    forall i | 0 <= i < |s| ensures s[i].epochLength > 0 { assert s[i] in eras; }
    var i :| 0 <= i < |eras| && eras[i].start <= slot;
    assert eras[i] in s;
    var k :| 0 <= k < |s| && s[k] == eras[i];
    assert k == 0 || StartsBefore(s[0], s[k]);
  }

  /** Math.floor((end - start) / epochLength) */
  function EpochsBetween(e: Era, end: int): (n: int)
    requires e.epochLength > 0
    ensures e.start <= end ==> n == Quot(end - e.start, e.epochLength)
  {
    if e.start <= end then (QuotIsDivision(end - e.start, e.epochLength); (end - e.start) / e.epochLength)
    else (end - e.start) / e.epochLength
  }

  /** `nextEraSummary?.start.slot || slotNo` */
  function EndOf(relevant: seq<Era>, i: nat, slot: nat): nat {
    if i + 1 < |relevant| && relevant[i + 1].start != 0 then relevant[i + 1].start else slot
  }

  /** What the loop has added when it has come to era `i`. */
  function SumUpTo(relevant: seq<Era>, i: nat, slot: nat): int
    requires i <= |relevant| && forall k :: 0 <= k < |relevant| ==> relevant[k].epochLength > 0
  {
    if i == 0 then 0 else SumUpTo(relevant, i - 1, slot) + EpochsBetween(relevant[i - 1], EndOf(relevant, i - 1, slot))
  }

  /** The loop of createSlotEpochCalcImpl. */
  method SumEpochs(relevant: seq<Era>, slot: nat) returns (current: Era, epochNo: int)
    requires relevant != [] && forall i :: 0 <= i < |relevant| ==> relevant[i].epochLength > 0
    ensures current == relevant[|relevant| - 1] && epochNo == SumUpTo(relevant, |relevant|, slot)
  {
    epochNo := 0;
    current := relevant[0];
    for i := 0 to |relevant|
      invariant epochNo == SumUpTo(relevant, i, slot) && (i > 0 ==> current == relevant[i - 1])
    {
      current := relevant[i];
      epochNo := epochNo + EpochsBetween(current, EndOf(relevant, i, slot));
    }
  }

  ghost predicate AllStarted(relevant: seq<Era>, slot: nat) {
    && StrictlyAscending(relevant)
    && forall k :: 0 <= k < |relevant| ==> relevant[k].start <= slot && relevant[k].epochLength > 0
  }

  lemma SumUpToNext(relevant: seq<Era>, i: nat, slot: nat)
    requires AllStarted(relevant, slot) && i < |relevant|
    ensures Walkable(relevant[i..], slot)
    ensures i + 1 < |relevant| ==> relevant[i].start < relevant[i + 1].start
    ensures SumUpTo(relevant, i + 1, slot) == SumUpTo(relevant, i, slot)
         + if i + 1 < |relevant| then Quot(relevant[i + 1].start - relevant[i].start, relevant[i].epochLength)
           else Quot(slot - relevant[i].start, relevant[i].epochLength)
  {
  }

  /** Of ascending eras that have all started, the loop adds what remains after era `i`. */
  lemma {:induction false} SumIsEpochSum(relevant: seq<Era>, i: nat, slot: nat)
    requires AllStarted(relevant, slot) && i < |relevant|
    ensures Walkable(relevant[i..], slot) && EraAt(relevant[i..], slot) == relevant[|relevant| - 1]
    ensures SumUpTo(relevant, |relevant|, slot) == SumUpTo(relevant, i, slot) + EpochSum(relevant[i..], slot)
    decreases |relevant| - i
  {
    SumUpToNext(relevant, i, slot);
    if i + 1 < |relevant| {
      SumIsEpochSum(relevant, i + 1, slot);
      assert relevant[i..][1..] == relevant[i + 1..];
      SumTail(relevant[i..], relevant[i + 1..], slot);
    }
  }

  /** Among the eras that have started, none starts later. */
  ghost predicate IsLatest(eras: seq<Era>, e: Era, slot: nat) {
    e in eras && e.start <= slot && forall d :: d in eras && d.start <= slot ==> d.start <= e.start
  }

  /** The last relevant era is a latest one, in whatever order the eras come. */
  lemma LastIsLatest(eras: seq<Era>, slot: nat)
    requires RelevantEras(eras, slot) != []
    ensures IsLatest(eras, RelevantEras(eras, slot)[|RelevantEras(eras, slot)| - 1], slot)
  {
    var relevant := RelevantEras(eras, slot);
    var last := relevant[|relevant| - 1];
    RelevantMembers(eras, slot);
    assert last in relevant;
    SortIsSorted(Started(Ordered(WithoutSkipped(eras)), slot), StartsBefore);
    forall d | d in eras && d.start <= slot
      ensures d.start <= last.start
    {
      var k := StartIsRelevant(eras, slot, d);
      assert k == |relevant| - 1 || StartsBefore(relevant[k], last);
    }
  }

  /**
    createSlotEpochCalcImpl: the epochs of the eras sorted by start, in whatever order they come, up to a latest
    one that has started; fails exactly when none has.
   */
  method SlotEpoch(eras: seq<Era>, slot: nat) returns (r: Option<(Era, int)>)
    requires forall i :: 0 <= i < |eras| ==> eras[i].epochLength > 0
    ensures r.None? <==> forall i :: 0 <= i < |eras| ==> slot < eras[i].start
    ensures r.Some? ==> IsLatest(eras, r.value.0, slot)
    ensures r.Some? ==>
      && Walkable(Ordered(eras), slot)
      && r.value == (EraAt(Ordered(eras), slot), EpochSum(Ordered(eras), slot))
    ensures Walkable(eras, slot) ==> r == Some((EraAt(eras, slot), EpochSum(eras, slot)))
  {
    var relevant := RelevantEras(eras, slot);
    RelevantMembers(eras, slot);
    if |relevant| == 0 { return None; }
    forall i | 0 <= i < |relevant| ensures relevant[i].epochLength > 0 && relevant[i].start <= slot {
      assert relevant[i] in relevant;
    }
    var current, epochNo := SumEpochs(relevant, slot);
    LastIsLatest(eras, slot);
    OrderedWalkable(eras, slot);
    OrderedRelevant(eras, slot);
    RelevantSum(Ordered(eras), slot);
    SumIsEpochSum(relevant, 0, slot);
    assert relevant[0..] == relevant;
    if Walkable(eras, slot) { RelevantSum(eras, slot); }
    r := Some((current, epochNo));
  }

  // ---------------------------------------------------------------- the two agree

  lemma SuffixWalkable(eras: seq<Era>, j: nat, i: nat, slot: nat)
    requires WellFormed(eras) && InEra(eras, i, slot) && j <= i
    ensures Walkable(eras[j..], slot)
  {
  }

  lemma LastSum(eras: seq<Era>, i: nat, slot: nat)
    requires WellFormed(eras) && InEra(eras, i, slot) && Walkable(eras[i..], slot)
    ensures EpochSum(eras[i..], slot) == Quot(slot - eras[i].start, eras[i].epochLength)
    ensures EraAt(eras[i..], slot) == eras[i]
  {
  }

  lemma {:induction false} SuffixSum(eras: seq<Era>, j: nat, i: nat, slot: nat)
    requires WellFormed(eras) && InEra(eras, i, slot) && j <= i
    ensures Walkable(eras[j..], slot)
    ensures BaseEpoch(eras, j) + EpochSum(eras[j..], slot) == EpochAt(eras, i, slot)
    ensures EraAt(eras[j..], slot) == eras[i]
    decreases i - j
  {
    SuffixWalkable(eras, j, i, slot);
    if j == i {
      LastSum(eras, i, slot);
    } else {
      SuffixSum(eras, j + 1, i, slot);
      assert eras[j + 1].start <= eras[i].start;
      SumTail(eras[j..], eras[j + 1..], slot) by { assert eras[j..][1..] == eras[j + 1..]; }
    }
  }

  /** The sum over the eras is the epoch counted from the era in force. */
  lemma SumIsEpoch(eras: seq<Era>, i: nat, slot: nat)
    requires WellFormed(eras) && InEra(eras, i, slot)
    ensures Walkable(eras, slot) && EpochSum(eras, slot) == EpochAt(eras, i, slot) && EraAt(eras, slot) == eras[i]
  {
    SuffixSum(eras, 0, i, slot);
    assert eras[0..] == eras;
  }

  lemma FindEra(eras: seq<Era>, slot: nat) returns (i: nat)
    requires WellFormed(eras) && eras[0].start <= slot
    ensures InEra(eras, i, slot)
  {
    i := 0;
    while i + 1 < |eras| && eras[i + 1].start <= slot
      invariant i < |eras| && eras[i].start <= slot
    {
      i := i + 1;
    }
  }

  /** From slot to epoch and back: the slot lies in the range of its epoch, which starts where it rounds down to. */
  lemma SlotInItsEpoch(eras: seq<Era>, slot: nat) returns (i: nat, first: nat)
    requires WellFormed(eras) && eras[0].start <= slot
    ensures Walkable(eras, slot) && IsEpoch(eras, EpochSum(eras, slot), i, first)
    ensures InEra(eras, i, slot) && EraAt(eras, slot) == eras[i]
    ensures first == eras[i].start + Quot(slot - eras[i].start, eras[i].epochLength) * eras[i].epochLength
    ensures first <= slot < first + eras[i].epochLength
  {
    i := FindEra(eras, slot);
    SumIsEpoch(eras, i, slot);
    var x, n := slot - eras[i].start, eras[i].epochLength;
    RoundDown(x, n);
    QuotRem(x, n);
    first := slot - Rem(x, n);
  }

  lemma WithinEra(eras: seq<Era>, e: nat, i: nat, first: nat, slot: nat)
    requires WellFormed(eras) && IsEpoch(eras, e, i, first) && first <= slot < first + eras[i].epochLength
    ensures InEra(eras, i, slot) && EpochAt(eras, i, slot) == e
  {
    NextEpoch(eras, e, i, first);
    MultipleSteps(first - eras[i].start, eras[i].epochLength, slot - first);
  }

  /** From epoch to slots and back: every slot of the range, both ends included, maps to the epoch. */
  lemma EpochMapsBack(eras: seq<Era>, e: nat, i: nat, first: nat, slot: nat)
    requires WellFormed(eras) && IsEpoch(eras, e, i, first) && first <= slot < first + eras[i].epochLength
    ensures Walkable(eras, slot) && EpochSum(eras, slot) == e && EraAt(eras, slot) == eras[i]
  {
    WithinEra(eras, e, i, first, slot);
    SumIsEpoch(eras, i, slot);
  }

  lemma {:induction false} BaseMonotone(eras: seq<Era>, i: nat, j: nat)
    requires WellFormed(eras) && i <= j < |eras|
    ensures BaseEpoch(eras, i) <= BaseEpoch(eras, j)
  {
    if i < j { BaseMonotone(eras, i, j - 1); }
  }

  lemma LaterEra(eras: seq<Era>, e: nat, i: nat, first: nat, j: nat)
    requires WellFormed(eras) && IsEpoch(eras, e, i, first) && i < j < |eras|
    ensures e + 1 <= BaseEpoch(eras, j)
  {
    NextEpoch(eras, e, i, first);
    MultipleSteps(first - eras[i].start, eras[i].epochLength, 0);
    QuotMonotone(first - eras[i].start + eras[i].epochLength, eras[i + 1].start - eras[i].start, eras[i].epochLength);
    BaseMonotone(eras, i + 1, j);
  }

  /** Later epochs start later. */
  lemma EpochsAscend(eras: seq<Era>, e: nat, i: nat, first: nat, e': nat, i': nat, first': nat)
    requires WellFormed(eras) && IsEpoch(eras, e, i, first) && IsEpoch(eras, e', i', first') && first < first'
    ensures e < e'
  {
    if i < i' {
      LaterEra(eras, e, i, first, i');
    } else if i' < i {
    } else {
      var n, a, b := eras[i].epochLength, first - eras[i].start, first' - eras[i].start;
      MultiplesApart(a, b, n);
      MultipleSteps(a, n, 0);
      QuotMonotone(a + n, b, n);
    }
  }

  /** An epoch has one first slot: the two calculators cannot disagree about it. */
  lemma EpochUnique(eras: seq<Era>, e: nat, i: nat, first: nat, i': nat, first': nat)
    requires WellFormed(eras) && IsEpoch(eras, e, i, first) && IsEpoch(eras, e, i', first')
    ensures first == first' && i == i'
  {
    if first < first' { EpochsAscend(eras, e, i, first, e, i', first'); }
    if first' < first { EpochsAscend(eras, e, i', first', e, i, first); }
    EraUnique(eras, i, i', first);
  }

  /** Consecutive epochs tile the slots: each starts one past the last slot of the one before. */
  lemma EpochsTile(eras: seq<Era>, e: nat, i: nat, first: nat, i': nat, first': nat)
    requires WellFormed(eras) && IsEpoch(eras, e, i, first) && IsEpoch(eras, e + 1, i', first')
    ensures first' == first + eras[i].epochLength
  {
    var next := first + eras[i].epochLength;
    NextEpoch(eras, e, i, first);
    var j := FindEra(eras, next);
    EnterEra(eras, e + 1, i, j, next);
    EpochUnique(eras, e + 1, i', first', j, next);
  }

  /** A slot maps to an epoch exactly when it lies in the range of that epoch. */
  lemma SlotsOfEpoch(eras: seq<Era>, e: nat, i: nat, first: nat, slot: nat)
    requires WellFormed(eras) && IsEpoch(eras, e, i, first) && eras[0].start <= slot
    ensures Walkable(eras, slot) && (EpochSum(eras, slot) == e <==> first <= slot < first + eras[i].epochLength)
  {
    var j, f := SlotInItsEpoch(eras, slot);
    if EpochSum(eras, slot) == e { EpochUnique(eras, e, i, first, j, f); }
    if first <= slot < first + eras[i].epochLength { EpochMapsBack(eras, e, i, first, slot); }
  }

  datatype EpochInfo = EpochInfo(epochNo: int, first: int, last: int)

  /** The epoch, and the first and last slot of its range. */
  ghost predicate IsEpochInfo(eras: seq<Era>, info: EpochInfo, i: nat)
    requires WellFormed(eras)
  {
    && 0 <= info.epochNo && 0 <= info.first && IsEpoch(eras, info.epochNo, i, info.first)
    && info.last == info.first + eras[i].epochLength - 1
  }

  /** The epoch-long range around `slot`, counted from the start of an era. */
  ghost predicate IsRange(e: Era, slot: nat, info: EpochInfo) {
    && e.epochLength > 0 && e.start <= slot
    && info.first <= slot <= info.last
    && info.first == slot - Rem(slot - e.start, e.epochLength) && info.last == info.first + e.epochLength - 1
  }

  lemma InfoIsEpoch(eras: seq<Era>, slot: nat, info: EpochInfo) returns (i: nat)
    requires WellFormed(eras) && Walkable(eras, slot) && info.epochNo == EpochSum(eras, slot)
    requires IsRange(EraAt(eras, slot), slot, info)
    ensures IsEpochInfo(eras, info, i)
  {
    var first;
    i, first := SlotInItsEpoch(eras, slot);
    QuotRem(slot - eras[i].start, eras[i].epochLength);
    assert info.first == first;
  }

  lemma StartedWalkable(eras: seq<Era>, slot: nat, e: Era)
    requires WellFormed(eras) && e in eras && e.start <= slot
    ensures Walkable(eras, slot)
  {
    var i :| 0 <= i < |eras| && eras[i] == e;
    assert i == 0 || eras[0].start <= eras[i].start;
  }

  /** start + Math.floor((slot - start) / epochLength) * epochLength */
  method FirstOfRange(slot: nat, start: nat, epochLength: nat) returns (first: nat)
    requires start <= slot && epochLength > 0
    ensures first == slot - Rem(slot - start, epochLength) && first <= slot < first + epochLength
  {
    var x := slot - start;
    QuotIsDivision(x, epochLength);
    QuotRem(x, epochLength);
    first := start + x / epochLength * epochLength;
  }

  /**
    createSlotEpochInfoCalc: the range of `slot`, counted in epochs from the start of a latest era that has
    started; across well-formed eras it is the range EpochSlots gives for the epoch.
   */
  method SlotEpochInfo(eras: seq<Era>, slot: nat) returns (r: Option<EpochInfo>, ghost era: Era, ghost idx: nat)
    requires forall i :: 0 <= i < |eras| ==> eras[i].epochLength > 0
    ensures r.None? <==> forall i :: 0 <= i < |eras| ==> slot < eras[i].start
    ensures r.Some? ==> IsLatest(eras, era, slot) && IsRange(era, slot, r.value)
    ensures r.Some? ==>
      && Walkable(Ordered(eras), slot) && era == EraAt(Ordered(eras), slot)
      && r.value.epochNo == EpochSum(Ordered(eras), slot)
    ensures r.Some? && WellFormed(eras) ==> IsEpochInfo(eras, r.value, idx)
  {
    era, idx := Era(0, 0), 0;
    var found := SlotEpoch(eras, slot);
    if found.None? { return None, era, idx; }
    var (current, epochNo) := found.value;
    era := current;
    var first := FirstOfRange(slot, current.start, current.epochLength);
    r := Some(EpochInfo(epochNo, first, first + current.epochLength - 1));
    if WellFormed(eras) {
      StartedWalkable(eras, slot, current);
      idx := InfoIsEpoch(eras, slot, r.value);
    }
  }
}
