/** The chain database as a state machine: applying blocks, rolling back to a
    stored point, and reopening. */
module Chain {
  import opened Prelude
  import opened ChainTypes
  import opened DuneLaws
  import opened Drc20
  import opened Inscriptions
  import opened Utxos
  import opened BlockApply
  import opened BlockLaws
  import opened Conservation
  import opened DuneBooks
  import opened PartialChains

  /** Entries of the write-ahead log that downstream consumers follow. */
  datatype Log =
    | ApplyLog(height: nat, block: Block, entry: Entry)
    | UndoLog(height: nat, block: Block)
    | MarkLog(height: nat, block: Block)

  datatype Db = Db(
    tables: Tables, blocks: map<nat, Block>, entries: map<nat, Entry>,
    last: Option<Hash>, next: nat, log: map<nat, Log>)

  // ----- the log -----

  function Logged(db: Db, mutable: bool, l: Log): Db {
    if mutable then db.(log := db.log[db.next := l], next := db.next + 1) else db
  }

  /** Deletes entries in order, from position `k`, up to the first one at or above
      the height. */
  function Prune(log: map<nat, Log>, k: nat, end: nat, before: nat): map<nat, Log>
    decreases end - k
  {
    if end <= k then log
    else if k !in log then Prune(log, k + 1, end, before)
    else if before <= log[k].height then log
    else Prune(log - {k}, k + 1, end, before)
  }

  function Pruned(log: map<nat, Log>, end: nat, height: nat, keep: Option<nat>): map<nat, Log> {
    if keep.Some? && keep.value <= height then Prune(log, 0, end, height - keep.value) else log
  }

  // ----- operations -----

  datatype Error =
    | PreviousHashMismatch
    | NoCoinbase
    | MissingTxo
    | InvalidRollbackPoint
    | MissingResolver
    | ResolverHashMismatch
    | UndoFailed

  function Forward(cfg: Config, keep: Option<nat>, db: Db, height: nat, block: Block, mutable: bool): Result<Db, Error>
    requires HaveInputs(block.txs)
  {
    if db.last.Some? && block.prev != db.last.value then Err(PreviousHashMismatch)
    else if block.txs == [] then Err(NoCoinbase)
    else
      match Apply(cfg, height, block, db.tables)
      case None => Err(MissingTxo)
      case Some((t, entry)) =>
        var log := if mutable then db.log[db.next := ApplyLog(height, block, entry)] else db.log;
        Ok(Db(t, db.blocks[height := block], db.entries[height := entry], Some(block.hash), db.next + 1,
              if mutable then Pruned(log, db.next + 1, height, keep) else log))
  }

  function UndoAt(db: Db, height: nat, mutable: bool): Result<Db, Error>
    requires height in db.blocks && db.blocks[height].txs != []
  {
    var block := db.blocks[height];
    if height !in db.entries then Err(MissingResolver)
    else if db.entries[height].hash != block.hash then Err(ResolverHashMismatch)
    else
      match Undo(height, block, db.entries[height], db.tables)
      case None => Err(UndoFailed)
      case Some(t) =>
        Ok(Logged(db, mutable, UndoLog(height, block))
           .(tables := t, blocks := db.blocks - {height}, entries := db.entries - {height}))
  }

  predicate Stored(db: Db) {
    forall h <- db.blocks :: db.blocks[h].txs != []
  }

  /** Undoes the stored blocks at heights `to + 1 .. top`, most recent first. */
  function UndoDown(db: Db, top: nat, to: nat, mutable: bool): Result<Db, Error>
    requires Stored(db)
    decreases top
  {
    if top <= to then Ok(db)
    else if top !in db.blocks then UndoDown(db, top - 1, to, mutable)
    else
      match UndoAt(db, top, mutable)
      case Err(e) => Err(e)
      case Ok(d) => UndoDown(d, top - 1, to, mutable)
  }

  /** `top` is the highest stored height. */
  ghost predicate IsHighest(blocks: map<nat, Block>, top: nat) {
    (forall h <- blocks :: h <= top) && (blocks == map[] || top in blocks) && (blocks == map[] ==> top == 0)
  }

  lemma {:induction false} HighestExists(blocks: map<nat, Block>) returns (top: nat)
    ensures IsHighest(blocks, top)
    decreases |blocks|
  {
    top := 0;
    if blocks != map[] {
      var k :| k in blocks;
      var rest := blocks - {k};
      var r := HighestExists(rest);
      top := if rest == map[] || r < k then k else r;
      forall h | h in blocks ensures h <= top {
        assert h == k || h in rest;
      }
    }
  }

  ghost function Highest(blocks: map<nat, Block>): (top: nat)
    ensures IsHighest(blocks, top)
  {
    assert exists t: nat :: IsHighest(blocks, t) by {
      var t := HighestExists(blocks);
    }
    var t: nat :| IsHighest(blocks, t);
    t
  }

  lemma HighestUnique(blocks: map<nat, Block>, a: nat, b: nat)
    requires IsHighest(blocks, a) && IsHighest(blocks, b)
    ensures a == b
  {
  }

  /** The scan of the stored blocks runs from the rollback point to the end. */
  ghost function Back(db: Db, height: nat, hash: Hash, mutable: bool): Result<Db, Error>
    requires Stored(db)
  {
    if height !in db.blocks || db.blocks[height].hash != hash then Err(InvalidRollbackPoint)
    else
      match UndoDown(db, Highest(db.blocks), height, mutable)
      case Err(e) => Err(e)
      case Ok(d) => Ok(Logged(d, mutable, MarkLog(height, db.blocks[height])).(last := Some(hash)))
  }

  /** Opening the database again forgets the log and reads the last hash from the
      stored blocks. */
  ghost function Reopened(db: Db): Db {
    db.(log := map[], next := 1,
        last := if db.blocks == map[] then None else Some(db.blocks[Highest(db.blocks)].hash))
  }

  // ----- runs -----

  datatype Op =
    | RollForward(height: nat, block: Block, mutable: bool)
    | RollBack(height: nat, hash: Hash, mutable: bool)
    | Reopen

  predicate OpInputs(op: Op) {
    op.RollForward? ==> HaveInputs(op.block.txs)
  }

  lemma {:induction false} UndoDownStored(db: Db, top: nat, to: nat, mutable: bool)
    requires Stored(db)
    ensures UndoDown(db, top, to, mutable).Ok? ==> Stored(UndoDown(db, top, to, mutable).value)
    decreases top
  {
    hide Undo;
    if to < top && top !in db.blocks {
      UndoDownStored(db, top - 1, to, mutable);
    } else if to < top && UndoAt(db, top, mutable).Ok? {
      UndoDownStored(UndoAt(db, top, mutable).value, top - 1, to, mutable);
    }
  }

  /** A refused operation commits nothing. Every stored block has a coinbase, whatever
      happens. */
  ghost function Do(cfg: Config, keep: Option<nat>, db: Db, op: Op): (d: Db)
    requires Stored(db) && OpInputs(op)
    ensures Stored(d)
  {
    hide Apply, UndoDown, Pruned, Highest;
    match op
    case RollForward(height, block, mutable) =>
      var r := Forward(cfg, keep, db, height, block, mutable);
      if r.Ok? then r.value else db
    case RollBack(height, hash, mutable) =>
      UndoDownStored(db, Highest(db.blocks), height, mutable);
      var r := Back(db, height, hash, mutable);
      if r.Ok? then r.value else db
    case Reopen => Reopened(db)
  }

  /** A stored block and the tables it was applied to. */
  datatype Frame = Frame(block: Block, before: Tables)

  /** The surviving blocks: an accepted block is pushed, an accepted rollback keeps
      those up to its height. */
  ghost function Survive(cfg: Config, keep: Option<nat>, h: nat, fs: seq<Frame>, db: Db, op: Op): seq<Frame>
    requires Stored(db) && OpInputs(op)
  {
    match op
    case RollForward(height, block, mutable) =>
      if Forward(cfg, keep, db, height, block, mutable).Ok? then fs + [Frame(block, db.tables)] else fs
    case RollBack(height, hash, mutable) =>
      if Back(db, height, hash, mutable).Ok? && h <= height < h + |fs| then fs[..height - h + 1] else fs
    case Reopen => fs
  }

  /** Blocks come at the next height. */
  ghost predicate InOrder(h: nat, fs: seq<Frame>, op: Op) {
    OpInputs(op) && (op.RollForward? ==> op.height == h + |fs|)
  }

  ghost predicate OrderedRun(cfg: Config, keep: Option<nat>, h: nat, fs: seq<Frame>, db: Db, ops: seq<Op>)
    requires Stored(db)
    decreases |ops|
  {
    ops == []
    || (&& InOrder(h, fs, ops[0])
        && OrderedRun(cfg, keep, h, Survive(cfg, keep, h, fs, db, ops[0]), Do(cfg, keep, db, ops[0]), ops[1..]))
  }

  /** The database after a run, and the surviving blocks. */
  ghost function Run(cfg: Config, keep: Option<nat>, h: nat, fs: seq<Frame>, db: Db, ops: seq<Op>): (Db, seq<Frame>)
    requires Stored(db) && OrderedRun(cfg, keep, h, fs, db, ops)
    decreases |ops|
  {
    if ops == [] then (db, fs)
    else Run(cfg, keep, h, Survive(cfg, keep, h, fs, db, ops[0]), Do(cfg, keep, db, ops[0]), ops[1..])
  }

  function Blocks(fs: seq<Frame>): (r: seq<Block>)
    ensures |r| == |fs|
    ensures forall i :: 0 <= i < |fs| ==> r[i] == fs[i].block
  {
    seq(|fs|, i requires 0 <= i < |fs| => fs[i].block)
  }

  lemma BlocksCut(fs: seq<Frame>, n: nat)
    requires n <= |fs|
    ensures Blocks(fs[..n]) == Blocks(fs)[..n]
  {
  }

  lemma BlocksPush(fs: seq<Frame>, f: Frame)
    ensures Blocks(fs + [f]) == Blocks(fs) + [f.block]
  {
  }

  // ----- replaying a chain -----

  datatype Replayed = Replayed(tables: Tables, entries: seq<Entry>)

  /** The tables after the blocks `cs`, the first of them at height `h`, and the
      entries stored for them. */
  function Replay(cfg: Config, h: nat, t: Tables, cs: seq<Block>): Option<Replayed>
    requires HaveAll(cs)
    decreases |cs|
  {
    if cs == [] then Some(Replayed(t, []))
    else
      var n := |cs| - 1;
      match Replay(cfg, h, t, cs[..n])
      case None => None
      case Some(r) =>
        match Apply(cfg, h + n, cs[n], r.tables)
        case None => None
        case Some((t2, entry)) => Some(Replayed(t2, r.entries + [entry]))
  }

  predicate HaveAll(cs: seq<Block>) {
    forall b <- cs :: b.txs != [] && HaveInputs(b.txs)
  }

  // ----- what a block may assume and what it keeps -----

  /** What consensus guarantees of the next block: one coinbase in front, other
      transactions with real and distinct inputs, and transaction ids that no live
      output and no stored partial uses. */
  ghost predicate NextBlock(t: Tables, txs: seq<Tx>) {
    && txs != [] && HaveInputs(txs)
    && Refs(txs[0]) == [NULL_REF] && NULL_REF !in AllRefs(txs[1..])
    && NoDup(AllRefs(txs[1..]))
    && NoDup(Txids(txs)) && NULL_REF.txid !in Txids(txs)
    && NewTxids(t, txs)
  }

  /** What every state between blocks satisfies, `h` being the next height: dune
      tables consistent, within caps and etched below `h`, no stored zero, no token
      before its first height, partial chains closed, no null output. */
  ghost predicate Sane(cfg: Config, h: nat, t: Tables) {
    && DuneInv(t.dunes) && NoStoredZero(t.drc)
    && NoDunesYet(cfg, h, t.utxos)
    && Closed(t.partials)
    && NULL_REF !in t.utxos
    && (forall id <- t.dunes.terms :: id.block < h)
  }

  lemma SaneNext(cfg: Config, h: nat, t: Tables, txs: seq<Tx>)
    requires Sane(cfg, h, t) && NextBlock(t, txs)
    ensures WellFormed(t, h, txs)
  {
    hide DuneInv, Closed, NoDunesYet;
  }

  /** A block as consensus admits it that the database can apply. */
  ghost predicate SoundBlock(cfg: Config, h: nat, b: Block, t: Tables) {
    NextBlock(t, b.txs) && h < U64 && Apply(cfg, h, b, t).Some?
  }

  /** Any block keeps the state sane. */
  lemma {:induction false} BlockSane(cfg: Config, h: nat, b: Block, t: Tables)
    requires Sane(cfg, h, t) && SoundBlock(cfg, h, b, t)
    ensures Sane(cfg, h + 1, Apply(cfg, h, b, t).value.0)
  {
    hide DuneInv, NoDunesYet, BlockTally, Closed, BlockReversible, Undo, NewTxids, Balanced, BlockFits;
    SaneNext(cfg, h, t, b.txs);
    UndoBlockIff(cfg, h, b, t);
    BlockBalances(cfg, h, b, t, 0);
    BlockKeepsClosed(cfg, h, b, t);
    BlockEtches(cfg, h, b, t);
    NoNullAfter(cfg, h, b, t);
  }

  lemma {:induction false} NoNullAfter(cfg: Config, h: nat, b: Block, t: Tables)
    requires WellFormed(t, h, b.txs) && Apply(cfg, h, b, t).Some?
    ensures NULL_REF !in Apply(cfg, h, b, t).value.0.utxos
  {
    hide Staged, SpendAll;
    SpendAllAdds(t.utxos, b.txs, Staged(cfg, h, b.txs, t).value.resolver);
  }

  /** Undoing a block restores its state exactly if it is reversible, and everything
      but possibly the dune tables if not. */
  lemma {:induction false} BlockUndone(cfg: Config, h: nat, b: Block, t: Tables, a: Tables)
    requires Sane(cfg, h, t) && SoundBlock(cfg, h, b, t) && Shadows(a, Apply(cfg, h, b, t).value.0)
    ensures var (t', entry) := Apply(cfg, h, b, t).value;
      && entry.hash == b.hash
      && (Undo(h, b, entry, a).Some? ==> Shadows(Undo(h, b, entry, a).value, t))
      && (Undo(h, b, entry, t') == Some(t) <==> BlockReversible(cfg, h, b.txs, t))
  {
    SaneNext(cfg, h, t, b.txs);
    EntryHash(cfg, h, b, t);
    hide DuneInv, NoDunesYet, Closed, BlockReversible, Apply, Undo, NewTxids, Shadows;
    UndoBlockIff(cfg, h, b, t);
    UndoBlockOff(cfg, h, b, t, a);
  }

  lemma EntryHash(cfg: Config, h: nat, b: Block, t: Tables)
    requires b.txs != [] && HaveInputs(b.txs)
    requires Apply(cfg, h, b, t).Some?
    ensures Apply(cfg, h, b, t).value.1.hash == b.hash
  {
    hide Staged;
  }

  /** A state off a sane one is sane. */
  lemma ShadowSane(cfg: Config, h: nat, a: Tables, t: Tables)
    requires Shadows(a, t) && Sane(cfg, h, t)
    ensures Sane(cfg, h, a)
  {
    OffKeepsInv(a.dunes, t.dunes);
    hide DuneInv;
  }

  lemma ShadowSelf(cfg: Config, h: nat, t: Tables)
    requires Sane(cfg, h, t)
    ensures Shadows(t, t)
  {
  }

  lemma ShadowTrans(a: Tables, b: Tables, c: Tables)
    requires Shadows(a, b) && Shadows(b, c)
    ensures Shadows(a, c)
  {
    OffTrans(a.dunes, b.dunes, c.dunes);
  }
}
