/**
  TypeormStabilityWindowBuffer: block data is kept for the blocks a node may still roll back.  The
  database is a chain of projected blocks and a table of block data keyed by height, whose rows
  disappear together with their block.
 */
module StabilityWindow {
  import opened Numbers
  import opened Wrappers

  datatype Block = Block(height: nat, hash: string)

  /** Projected blocks, block data, and the highest tip any event has announced. */
  datatype Db = Db(chain: seq<Block>, data: map<nat, Block>, maxTip: nat)

  /** Chain-sync events, each with the tip of the node. */
  datatype Event = RollForward(block: Block, tip: nat) | RollBackward(tip: nat)

  /** willStoreBlockData: only blocks in the stability window are stored. */
  predicate WillStore(height: nat, tip: nat, k: nat) {
    height >= tip - k
  }

  /** Compaction happens at multiples of compactEvery; zero makes the remainder NaN and never compacts. */
  predicate Compacts(height: nat, compactEvery: nat) {
    compactEvery > 0 && height % compactEvery == 0
  }

  /** delete where blockHeight < tail */
  function DeleteBelow(data: map<nat, Block>, tail: int): map<nat, Block> {
    map h | h in data && h >= tail :: data[h]
  }

  function Apply(db: Db, k: nat, compactEvery: nat, e: Event): Db {
    match e
    case RollForward(b, tip) =>
      var stored := if WillStore(b.height, tip, k) then db.data[b.height := b] else db.data;
      var kept := if WillStore(b.height, tip, k) && Compacts(b.height, compactEvery)
                  then DeleteBelow(stored, b.height - k) else stored;
      Db(db.chain + [b], kept, Max(db.maxTip, tip))
    case RollBackward(tip) =>
      if db.chain == [] then db.(maxTip := Max(db.maxTip, tip))
      else
        // deleting the block cascades to its data
        var last := db.chain[|db.chain| - 1];
        Db(db.chain[..|db.chain| - 1], db.data - {last.height}, Max(db.maxTip, tip))
  }

  predicate CanUndo(height: nat, maxTip: nat, k: nat) {
    height > maxTip - k
  }

  /**
    A node: blocks arrive in order of height and are not above the tip; it never undoes a block more
    than k below the highest tip it has announced.
   */
  predicate Enabled(db: Db, k: nat, e: Event) {
    match e
    case RollForward(b, tip) =>
      b.height <= tip && (db.chain != [] ==> b.height == db.chain[|db.chain| - 1].height + 1)
    case RollBackward(tip) =>
      db.chain != [] && CanUndo(db.chain[|db.chain| - 1].height, Max(db.maxTip, tip), k)
  }

  // ---------------------------------------------------------------- the buffer

  class StabilityWindowBuffer {
    const compactEvery: nat
    const securityParameter: nat
    var chain: seq<Block>
    var data: map<nat, Block>

    constructor (compactEvery: nat, securityParameter: nat)
      ensures this.compactEvery == compactEvery && this.securityParameter == securityParameter
      ensures chain == [] && data == map[]
    {
      this.compactEvery, this.securityParameter := compactEvery, securityParameter;
      chain, data := [], map[];
    }

    /** #deleteOldBlockData */
    method DeleteOldBlockData(height: nat)
      modifies this`data
      ensures data ==
        if Compacts(height, compactEvery) then DeleteBelow(old(data), height - securityParameter) else old(data)
    {
      if compactEvery == 0 || height % compactEvery != 0 { return; }
      var tail := height - securityParameter;
      data := map h | h in data && h >= tail :: data[h];
    }

    /** storeBlock followed by storeBlockData, for one event; inserting a height twice would be a key violation. */
    method Project(e: Event, ghost maxTip: nat)
      requires e.RollForward? ==> e.block.height !in data
      modifies this
      ensures Db(chain, data, Max(maxTip, e.tip))
           == Apply(Db(old(chain), old(data), maxTip), securityParameter, compactEvery, e)
    {
      match e
      case RollForward(b, tip) =>
        chain := chain + [b];
        if b.height >= tip - securityParameter {
          data := data[b.height := b];
          DeleteOldBlockData(b.height);
        }
      case RollBackward(_) =>
        if |chain| > 0 {
          data := data - {chain[|chain| - 1].height};
          chain := chain[..|chain| - 1];
        }
    }

    /** getBlock: block data stored under this hash, if there is any. */
    method GetBlock(hash: string) returns (r: Option<Block>)
      ensures r.Some? ==> r.value.hash == hash && exists h :: h in data && data[h] == r.value
      ensures r.None? <==> forall h :: h in data ==> data[h].hash != hash
    {
      var todo := data.Keys;
      while todo != {}
        invariant todo <= data.Keys
        invariant forall h :: h in data && h !in todo ==> data[h].hash != hash
      {
        var h :| h in todo;
        if data[h].hash == hash { return Some(data[h]); }
        todo := todo - {h};
      }
      r := None;
    }
  }

  // ---------------------------------------------------------------- every run

  function Run(k: nat, compactEvery: nat, events: seq<Event>): Db {
    if events == [] then Db([], map[], 0)
    else Apply(Run(k, compactEvery, events[..|events| - 1]), k, compactEvery, events[|events| - 1])
  }

  ghost predicate ValidRun(k: nat, compactEvery: nat, events: seq<Event>) {
    events != [] ==>
      && ValidRun(k, compactEvery, events[..|events| - 1])
      && Enabled(Run(k, compactEvery, events[..|events| - 1]), k, events[|events| - 1])
  }

  /** Heights are consecutive. */
  ghost predicate IsChain(chain: seq<Block>) {
    forall i :: 0 <= i < |chain| ==> chain[i].height == chain[0].height + i
  }

  /** `b` is the block of the chain at its height. */
  ghost predicate OnChain(chain: seq<Block>, b: Block) {
    chain != [] && chain[0].height <= b.height < chain[0].height + |chain| && chain[b.height - chain[0].height] == b
  }

  predicate IsStored(data: map<nat, Block>, b: Block) {
    b.height in data && data[b.height] == b
  }

  /** Stored data belongs to the current chain. */
  ghost predicate DataOnChain(chain: seq<Block>, data: map<nat, Block>) {
    forall h :: h in data ==> data[h].height == h && OnChain(chain, data[h])
  }

  /** Every block of the chain from `low` on is stored. */
  ghost predicate StoredFrom(chain: seq<Block>, data: map<nat, Block>, low: int) {
    forall i :: 0 <= i < |chain| && chain[i].height >= low ==> IsStored(data, chain[i])
  }

  ghost predicate Inv(db: Db, k: nat) {
    && IsChain(db.chain)
    // no projected block is above the highest tip
    && (db.chain != [] ==> db.chain[|db.chain| - 1].height <= db.maxTip)
    && DataOnChain(db.chain, db.data)
    && StoredFrom(db.chain, db.data, db.maxTip - k)
  }

  /** The next block goes on top, above everything stored. */
  lemma ChainGrows(chain: seq<Block>, data: map<nat, Block>, b: Block)
    requires IsChain(chain) && DataOnChain(chain, data)
    requires chain != [] ==> b.height == chain[|chain| - 1].height + 1
    ensures IsChain(chain + [b]) && OnChain(chain + [b], b)
    ensures DataOnChain(chain + [b], data) && forall h :: h in data ==> h < b.height
  {
    var more := chain + [b];
    assert chain != [] ==> chain[|chain| - 1].height == chain[0].height + (|chain| - 1);
    forall h | h in data
      ensures h < b.height && OnChain(more, data[h])
    {
      assert OnChain(chain, data[h]);
    }
  }

  /** Nothing stored from `low` on is lost or replaced, except at the height of the new block. */
  ghost predicate KeepsFrom(data: map<nat, Block>, data': map<nat, Block>, b: Block, low: int) {
    forall h :: h in data && h >= low && h != b.height ==> h in data' && data'[h] == data[h]
  }

  /** Storing the new block and dropping old data keeps what the window needs. */
  lemma WindowKept(chain: seq<Block>, data: map<nat, Block>, data': map<nat, Block>, b: Block, low: int, low': int)
    requires StoredFrom(chain, data, low) && low <= low' && KeepsFrom(data, data', b, low')
    requires forall i :: 0 <= i < |chain| ==> chain[i].height < b.height
    requires b.height >= low' ==> IsStored(data', b)
    ensures StoredFrom(chain + [b], data', low')
  {
    var more := chain + [b];
    forall i | 0 <= i < |more| && more[i].height >= low'
      ensures IsStored(data', more[i])
    {
      if i < |chain| { assert IsStored(data, chain[i]); }
    }
  }

  /** What a roll-forward does to the stored data: it may store the block and drop what is below the window. */
  lemma ForwardData(db: Db, k: nat, compactEvery: nat, b: Block, tip: nat)
    requires b.height <= tip
    ensures var after := Apply(db, k, compactEvery, RollForward(b, tip));
      && KeepsFrom(db.data, after.data, b, after.maxTip - k)
      && (b.height >= after.maxTip - k ==> IsStored(after.data, b))
      && forall h :: h in after.data ==>
           (h == b.height && after.data[h] == b) || (h in db.data && after.data[h] == db.data[h])
  {
  }

  lemma ForwardKeepsInv(db: Db, k: nat, compactEvery: nat, b: Block, tip: nat)
    requires Inv(db, k) && Enabled(db, k, RollForward(b, tip))
    ensures Inv(Apply(db, k, compactEvery, RollForward(b, tip)), k)
    ensures b.height !in db.data
  {
    var after := Apply(db, k, compactEvery, RollForward(b, tip));
    ChainGrows(db.chain, db.data, b);
    assert forall i :: 0 <= i < |db.chain| ==> db.chain[i].height < b.height;
    ForwardData(db, k, compactEvery, b, tip);
    WindowKept(db.chain, db.data, after.data, b, db.maxTip - k, after.maxTip - k);
  }

  lemma BackwardKeepsInv(db: Db, k: nat, compactEvery: nat, tip: nat)
    requires Inv(db, k) && Enabled(db, k, RollBackward(tip))
    ensures Inv(Apply(db, k, compactEvery, RollBackward(tip)), k)
  {
    var after := Apply(db, k, compactEvery, RollBackward(tip));
    var n := |db.chain| - 1;
    assert db.chain[n].height == db.chain[0].height + n;
    forall h | h in after.data
      ensures OnChain(after.chain, after.data[h])
    {
      assert OnChain(db.chain, db.data[h]);
    }
    forall i | 0 <= i < n && after.chain[i].height >= after.maxTip - k
      ensures IsStored(after.data, after.chain[i])
    {
      assert IsStored(db.data, db.chain[i]);
    }
  }

  lemma {:induction false} EveryRunKeepsInv(k: nat, compactEvery: nat, events: seq<Event>)
    requires ValidRun(k, compactEvery, events)
    ensures Inv(Run(k, compactEvery, events), k)
  {
    if events != [] {
      var n := |events| - 1;
      EveryRunKeepsInv(k, compactEvery, events[..n]);
      var db := Run(k, compactEvery, events[..n]);
      match events[n]
      case RollForward(b, tip) => ForwardKeepsInv(db, k, compactEvery, b, tip);
      case RollBackward(tip) => BackwardKeepsInv(db, k, compactEvery, tip);
    }
  }

  /** After every run, each projected block that can still be undone has its own data in the buffer. */
  lemma UndoableBlocksStored(k: nat, compactEvery: nat, events: seq<Event>, i: nat)
    requires ValidRun(k, compactEvery, events)
    requires var db := Run(k, compactEvery, events); i < |db.chain| && CanUndo(db.chain[i].height, db.maxTip, k)
    ensures var db := Run(k, compactEvery, events);
      IsStored(db.data, db.chain[i])
  {
    EveryRunKeepsInv(k, compactEvery, events);
  }

  /** Hence the node can roll back: whatever block it undoes next, its data is there to be emitted. */
  lemma RollbackFindsBlock(k: nat, compactEvery: nat, events: seq<Event>, tip: nat)
    requires ValidRun(k, compactEvery, events)
    requires Enabled(Run(k, compactEvery, events), k, RollBackward(tip))
    ensures var db := Run(k, compactEvery, events); IsStored(db.data, db.chain[|db.chain| - 1])
  {
    var db := Run(k, compactEvery, events);
    UndoableBlocksStored(k, compactEvery, events, |db.chain| - 1);
  }

  /** The insert of a stored block never violates the primary key. */
  lemma InsertIsFresh(k: nat, compactEvery: nat, events: seq<Event>, b: Block, tip: nat)
    requires ValidRun(k, compactEvery, events)
    requires Enabled(Run(k, compactEvery, events), k, RollForward(b, tip))
    ensures b.height !in Run(k, compactEvery, events).data
  {
    EveryRunKeepsInv(k, compactEvery, events);
    ForwardKeepsInv(Run(k, compactEvery, events), k, compactEvery, b, tip);
  }

  /** The event takes the data at height `h` away: it undoes the block, or compacts and is more than k above. */
  predicate Removes(db: Db, k: nat, compactEvery: nat, e: Event, h: nat) {
    match e
    case RollForward(b, tip) =>
      tip <= b.height + k && compactEvery > 0 && b.height % compactEvery == 0 && h + k < b.height
    case RollBackward(_) => db.chain != [] && db.chain[|db.chain| - 1].height == h
  }

  /** Event `m` projected `b` when it was at most k below the tip, and no event since has taken it away. */
  ghost predicate IsKept(k: nat, compactEvery: nat, events: seq<Event>, m: nat, b: Block) {
    && m < |events| && events[m].RollForward? && events[m].block == b && events[m].tip <= b.height + k
    && forall j :: m < j < |events| ==>
         !Removes(Run(k, compactEvery, events[..j]), k, compactEvery, events[j], b.height)
  }

  ghost predicate WasKept(k: nat, compactEvery: nat, events: seq<Event>, b: Block) {
    exists m :: IsKept(k, compactEvery, events, m, b)
  }

  /** What one event does to the data of a block. */
  lemma StoredStep(db: Db, k: nat, compactEvery: nat, e: Event, b: Block)
    requires Inv(db, k) && Enabled(db, k, e)
    ensures IsStored(Apply(db, k, compactEvery, e).data, b) <==>
      || (e.RollForward? && e.block == b && e.tip <= b.height + k)
      || (IsStored(db.data, b) && !Removes(db, k, compactEvery, e, b.height))
  {
    if e.RollForward? { ForwardKeepsInv(db, k, compactEvery, e.block, e.tip); }
  }

  lemma KeptLonger(k: nat, compactEvery: nat, front: seq<Event>, e: Event, m: nat, b: Block)
    requires m < |front|
    ensures IsKept(k, compactEvery, front + [e], m, b) <==>
      IsKept(k, compactEvery, front, m, b) && !Removes(Run(k, compactEvery, front), k, compactEvery, e, b.height)
  {
    var events := front + [e];
    forall j | 0 <= j < |front| ensures events[j] == front[j] && events[..j] == front[..j] {
    }
    assert events[..|front|] == front && events[|front|] == e;
    if IsKept(k, compactEvery, events, m, b) {
      forall j | m < j < |front|
        ensures !Removes(Run(k, compactEvery, front[..j]), k, compactEvery, front[j], b.height)
      {
        assert !Removes(Run(k, compactEvery, events[..j]), k, compactEvery, events[j], b.height);
      }
    }
  }

  lemma KeptSnoc(k: nat, compactEvery: nat, front: seq<Event>, e: Event, b: Block)
    ensures WasKept(k, compactEvery, front + [e], b) <==>
      || (e.RollForward? && e.block == b && e.tip <= b.height + k)
      || (WasKept(k, compactEvery, front, b) && !Removes(Run(k, compactEvery, front), k, compactEvery, e, b.height))
  {
    if m: nat :| IsKept(k, compactEvery, front + [e], m, b) {
      if m < |front| { KeptLonger(k, compactEvery, front, e, m, b); }
    }
    if e.RollForward? && e.block == b && e.tip <= b.height + k {
      assert IsKept(k, compactEvery, front + [e], |front|, b);
    }
    if m: nat :| IsKept(k, compactEvery, front, m, b) {
      KeptLonger(k, compactEvery, front, e, m, b);
    }
  }

  /** After every run exactly the data is stored that was in the window when its block came and not removed since. */
  lemma {:induction false} StoredIffKept(k: nat, compactEvery: nat, events: seq<Event>, b: Block)
    requires ValidRun(k, compactEvery, events)
    ensures IsStored(Run(k, compactEvery, events).data, b) <==> WasKept(k, compactEvery, events, b)
  {
    if events != [] {
      var front, e := events[..|events| - 1], events[|events| - 1];
      var db := Run(k, compactEvery, front);
      StoredIffKept(k, compactEvery, front, b);
      EveryRunKeepsInv(k, compactEvery, front);
      StoredStep(db, k, compactEvery, e, b);
      KeptSnoc(k, compactEvery, front, e, b);
      assert events == front + [e];
    }
  }

  lemma {:induction false} IntervalSize(s: set<nat>, low: int, n: nat)
    requires forall h :: h in s ==> low <= h < low + n
    ensures |s| <= n
    decreases n
  {
    if n == 0 {
      assert s == {};
    } else {
      var top := low + n - 1;
      if top >= 0 {
        IntervalSize(s - {top}, low, n - 1);
        assert |s| <= |s - {top}| + 1;
      } else {
        IntervalSize(s, low, n - 1);
      }
    }
  }

  /** Right after a block at a compaction height is stored, at most k + 1 blocks are kept. */
  lemma CompactedSize(k: nat, compactEvery: nat, events: seq<Event>, b: Block, tip: nat)
    requires ValidRun(k, compactEvery, events + [RollForward(b, tip)])
    requires WillStore(b.height, tip, k) && Compacts(b.height, compactEvery)
    ensures |Run(k, compactEvery, events + [RollForward(b, tip)]).data| <= k + 1
  {
    var all := events + [RollForward(b, tip)];
    assert all[..|events|] == events;
    var db := Run(k, compactEvery, all);
    EveryRunKeepsInv(k, compactEvery, all);
    assert db.chain[|db.chain| - 1] == b;
    forall h | h in db.data.Keys ensures b.height - k <= h < b.height - k + (k + 1) {
      assert OnChain(db.chain, db.data[h]);
      assert db.chain[|db.chain| - 1].height == db.chain[0].height + (|db.chain| - 1);
    }
    IntervalSize(db.data.Keys, b.height - k, k + 1);
  }
}
