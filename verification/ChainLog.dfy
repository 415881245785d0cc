/** The write-ahead log: finding a consumer's position and catching up from it. */
module ChainLog {
  import opened Prelude
  import opened ChainTypes
  import opened Inscriptions
  import opened BlockApply
  import opened Chain
  import opened ChainRuns

  // ----- what a consumer does with the log -----

  /** The chain, starting at height `h`, ends at this point. */
  predicate EndsAt(h: nat, c: seq<Block>, height: nat, block: Block) {
    c != [] && height == h + |c| - 1 && c[|c| - 1] == block
  }

  /** An Apply pushes a block, an Undo pops the tip, a Mark confirms the tip. */
  function Follow(l: Log, h: nat, c: seq<Block>): Option<seq<Block>> {
    match l
    case ApplyLog(height, block, _) => if height == h + |c| then Some(c + [block]) else None
    case UndoLog(height, block) => if EndsAt(h, c, height, block) then Some(c[..|c| - 1]) else None
    case MarkLog(height, block) => if EndsAt(h, c, height, block) then Some(c) else None
  }

  /** Follows the entries at positions `k .. end`. */
  function FollowFrom(log: map<nat, Log>, k: nat, end: nat, h: nat, c: seq<Block>): Option<seq<Block>>
    decreases end - k
  {
    if end <= k then Some(c)
    else if k !in log then None
    else
      match Follow(log[k], h, c)
      case None => None
      case Some(d) => FollowFrom(log, k + 1, end, h, d)
  }

  // ----- what the log explains -----

  ghost predicate GapFree(log: map<nat, Log>, next: nat) {
    forall k, j | k in log && k <= j < next :: j in log
  }

  /** `snaps[k]` is the server's chain right after entry `k`. */
  ghost predicate Explains(
    h: nat, cs: seq<Block>, log: map<nat, Log>, next: nat, snaps: map<nat, seq<Block>>, seen: set<Block>) {
    && (forall k <- log :: k < next && k in snaps && Linked(snaps[k]) && (forall b <- snaps[k] :: b in seen))
    && GapFree(log, next)
    && (forall k <- log :: k + 1 == next ==> snaps[k] == cs)
    && (forall k <- log :: k + 1 in log ==> Follow(log[k + 1], h, snaps[k]) == Some(snaps[k + 1]))
    && (forall k <- log :: !log[k].UndoLog? ==> EndsAt(h, snaps[k], log[k].height, log[k].block))
  }

  /** Each block names the one before it. */
  ghost predicate Linked(c: seq<Block>) {
    forall i :: 0 < i < |c| ==> c[i].prev == c[i - 1].hash
  }

  ghost predicate Explained(h: nat, cs: seq<Block>, log: map<nat, Log>, next: nat, seen: set<Block>) {
    && Linked(cs) && (forall b <- cs :: b in seen)
    && exists snaps :: Explains(h, cs, log, next, snaps, seen)
  }

  /** Hashes tell the blocks apart. */
  ghost predicate NoCollisions(blocks: set<Block>) {
    forall a, b | a in blocks && b in blocks :: a.hash == b.hash ==> a == b
  }

  /** A chain is determined by its length and the hash of its tip. */
  lemma {:induction false} SameTip(a: seq<Block>, b: seq<Block>, blocks: set<Block>)
    requires Linked(a) && Linked(b) && |a| == |b| && NoCollisions(blocks)
    requires (forall x <- a :: x in blocks) && (forall x <- b :: x in blocks)
    requires a != [] ==> a[|a| - 1].hash == b[|b| - 1].hash
    ensures a == b
    decreases |a|
  {
    if a != [] {
      var n := |a| - 1;
      assert a[n] in blocks && b[n] in blocks;
      if n > 0 {
        assert a[n].prev == a[n - 1].hash && b[n].prev == b[n - 1].hash;
      }
      SameTip(a[..n], b[..n], blocks);
      assert a == a[..n] + [a[n]] && b == b[..n] + [b[n]];
    }
  }

  // ----- the steps -----

  lemma {:induction false} FollowsToEnd(
    h: nat, cs: seq<Block>, log: map<nat, Log>, next: nat, snaps: map<nat, seq<Block>>, seen: set<Block>, k: nat)
    requires Explains(h, cs, log, next, snaps, seen) && k in log
    ensures FollowFrom(log, k + 1, next, h, snaps[k]) == Some(cs)
    decreases next - k
  {
    if k + 1 < next {
      FollowsToEnd(h, cs, log, next, snaps, seen, k + 1);
    }
  }

  /** Appending an entry that follows from the current chain. */
  lemma LogStep(
    h: nat, cs: seq<Block>, log: map<nat, Log>, next: nat, seen: set<Block>, l: Log, after: seq<Block>,
    seen': set<Block>)
    requires Explained(h, cs, log, next, seen) && seen <= seen'
    requires Follow(l, h, cs) == Some(after)
    requires Linked(after) && forall b <- after :: b in seen'
    ensures Explained(h, after, log[next := l], next + 1, seen')
  {
    var snaps :| Explains(h, cs, log, next, snaps, seen);
    var log', snaps' := log[next := l], snaps[next := after];
    assert Explains(h, after, log', next + 1, snaps', seen');
  }

  lemma EmptyExplained(h: nat, cs: seq<Block>, next: nat, seen: set<Block>)
    requires Linked(cs) && forall b <- cs :: b in seen
    ensures Explained(h, cs, map[], next, seen)
  {
    assert Explains(h, cs, map[], next, map[], seen);
  }

  /** Dropping a prefix of the log. */
  lemma DropExplained(h: nat, cs: seq<Block>, log: map<nat, Log>, log': map<nat, Log>, next: nat, seen: set<Block>)
    requires Explained(h, cs, log, next, seen)
    requires (forall k <- log' :: k in log && log'[k] == log[k]) && GapFree(log', next)
    ensures Explained(h, cs, log', next, seen)
  {
    var snaps :| Explains(h, cs, log, next, snaps, seen);
    assert Explains(h, cs, log', next, snaps, seen);
  }

  // ----- pruning -----

  /** Pruning drops a prefix, and never an entry at or above the height. */
  lemma {:induction false} PruneDrops(log: map<nat, Log>, k: nat, end: nat, before: nat)
    requires GapFree(log, end) && forall j <- log :: k <= j
    ensures var p := Prune(log, k, end, before);
      && (forall j <- p :: j in log && p[j] == log[j])
      && GapFree(p, end)
      && (forall j <- log :: before <= log[j].height ==> j in p)
    decreases end - k
  {
    if k < end {
      if k !in log {
        PruneDrops(log, k + 1, end, before);
      } else if log[k].height < before {
        PruneDrops(log - {k}, k + 1, end, before);
      }
    }
  }

  // ----- the log under the operations -----

  ghost predicate LogOk(h: nat, cs: seq<Block>, db: Db, seen: set<Block>) {
    && Column(db.blocks, h, cs)
    && (cs != [] ==> db.last == Some(cs[|cs| - 1].hash))
    && Explained(h, cs, db.log, db.next, seen)
  }

  lemma {:induction false} ForwardLog(
    cfg: Config, keep: Option<nat>, h: nat, cs: seq<Block>, db: Db, block: Block, mutable: bool, seen: set<Block>)
    requires HaveInputs(block.txs) && LogOk(h, cs, db, seen) && (mutable || db.log == map[])
    requires Forward(cfg, keep, db, h + |cs|, block, mutable).Ok?
    ensures var d := Forward(cfg, keep, db, h + |cs|, block, mutable).value;
      && LogOk(h, cs + [block], d, seen + {block})
      && (mutable ==> db.next in d.log && d.next == db.next + 1 && d.log[db.next].block == block)
  {
    hide Apply, Explained, Column, Pruned;
    var entry := Apply(cfg, h + |cs|, block, db.tables).value.1;
    ColumnPush(db.blocks, h, cs, block);
    LinkedPush(cs, block, h, db, seen);
    if mutable {
      var l := ApplyLog(h + |cs|, block, entry);
      LogStep(h, cs, db.log, db.next, seen, l, cs + [block], seen + {block});
      PrunedExplained(h, cs + [block], db.log[db.next := l], db.next + 1, seen + {block}, h + |cs|, keep);
    } else {
      EmptyExplained(h, cs + [block], db.next + 1, seen + {block});
    }
  }

  lemma LinkedPush(cs: seq<Block>, block: Block, h: nat, db: Db, seen: set<Block>)
    requires Explained(h, cs, db.log, db.next, seen)
    requires cs != [] ==> block.prev == cs[|cs| - 1].hash
    ensures Linked(cs + [block]) && forall b <- cs + [block] :: b in seen + {block}
  {
  }

  lemma PrunedExplained(
    h: nat, cs: seq<Block>, log: map<nat, Log>, next: nat, seen: set<Block>, height: nat, keep: Option<nat>)
    requires Explained(h, cs, log, next, seen)
    ensures Explained(h, cs, Pruned(log, next, height, keep), next, seen)
    ensures forall k <- log :: height <= log[k].height ==>
      k in Pruned(log, next, height, keep) && Pruned(log, next, height, keep)[k] == log[k]
  {
    if keep.Some? && keep.value <= height {
      PruneDrops(log, 0, next, height - keep.value);
      DropExplained(h, cs, log, Pruned(log, next, height, keep), next, seen);
    }
  }

  lemma LinkedPrefix(cs: seq<Block>, n: nat, seen: set<Block>)
    requires Linked(cs) && n <= |cs| && forall b <- cs :: b in seen
    ensures Linked(cs[..n]) && forall b <- cs[..n] :: b in seen
  {
  }

  lemma {:induction false} UndoAtLog(h: nat, cs: seq<Block>, db: Db, mutable: bool, seen: set<Block>)
    requires cs != [] && Stored(db) && (mutable || db.log == map[])
    requires Column(db.blocks, h, cs) && Explained(h, cs, db.log, db.next, seen)
    requires h + |cs| - 1 in db.blocks && UndoAt(db, h + |cs| - 1, mutable).Ok?
    ensures var d := UndoAt(db, h + |cs| - 1, mutable).value;
      && Stored(d) && (mutable || d.log == map[])
      && Column(d.blocks, h, cs[..|cs| - 1]) && Explained(h, cs[..|cs| - 1], d.log, d.next, seen)
  {
    hide Undo, Column;
    var n := |cs| - 1;
    ColumnPop(db.blocks, h, cs);
    LinkedPrefix(cs, n, seen);
    hide Explained;
    if mutable {
      LogStep(h, cs, db.log, db.next, seen, UndoLog(h + n, cs[n]), cs[..n], seen);
    } else {
      EmptyExplained(h, cs[..n], db.next, seen);
    }
  }

  lemma {:induction false} UndoDownLog(
    h: nat, cs: seq<Block>, db: Db, top: nat, to: nat, mutable: bool, seen: set<Block>)
    requires Stored(db) && (mutable || db.log == map[])
    requires Column(db.blocks, h, cs) && Explained(h, cs, db.log, db.next, seen)
    requires h <= to < h + |cs| <= top + 1 && UndoDown(db, top, to, mutable).Ok?
    ensures var d := UndoDown(db, top, to, mutable).value;
      && (mutable || d.log == map[])
      && Column(d.blocks, h, cs[..to - h + 1]) && Explained(h, cs[..to - h + 1], d.log, d.next, seen)
    decreases top
  {
    hide UndoAt, Explained;
    if top <= to {
      assert cs[..to - h + 1] == cs;
    } else if top < h + |cs| {
      UndoAtLog(h, cs, db, mutable, seen);
      hide Column, Stored;
      UndoDownLog(h, cs[..|cs| - 1], UndoAt(db, top, mutable).value, top - 1, to, mutable, seen);
      assert cs[..|cs| - 1][..to - h + 1] == cs[..to - h + 1];
    } else {
      assert top !in db.blocks;
      hide Column, Stored;
      UndoDownLog(h, cs, db, top - 1, to, mutable, seen);
    }
  }

  lemma {:induction false} BackLog(
    h: nat, cs: seq<Block>, db: Db, height: nat, hash: Hash, mutable: bool, seen: set<Block>)
    requires Stored(db) && LogOk(h, cs, db, seen) && (mutable || db.log == map[])
    requires Back(db, height, hash, mutable).Ok?
    ensures h <= height < h + |cs|
    ensures var d := Back(db, height, hash, mutable).value;
      LogOk(h, cs[..height - h + 1], d, seen) && (mutable || d.log == map[])
  {
    hide UndoDown, Explained, Column, Highest;
    ColumnAt(db.blocks, h, cs, height);
    ColumnHighest(db.blocks, h, cs);
    UndoDownLog(h, cs, db, Highest(db.blocks), height, mutable, seen);
    var d := UndoDown(db, Highest(db.blocks), height, mutable).value;
    var c := cs[..height - h + 1];
    if mutable {
      ExplainedLinked(h, c, d, seen);
      LogStep(h, c, d.log, d.next, seen, MarkLog(height, cs[height - h]), c, seen);
    }
  }

  lemma ExplainedLinked(h: nat, cs: seq<Block>, db: Db, seen: set<Block>)
    requires Explained(h, cs, db.log, db.next, seen)
    ensures Linked(cs) && forall b <- cs :: b in seen
  {
  }

  // ----- runs -----

  /** The roll stage's flag: once on it stays on until the process restarts. */
  predicate FlagOk(on: bool, op: Op) {
    op.Reopen? || (on ==> op.mutable)
  }

  function FlagAfter(on: bool, op: Op): bool {
    !op.Reopen? && op.mutable
  }

  function SeenAfter(seen: set<Block>, op: Op): set<Block> {
    if op.RollForward? then seen + {op.block} else seen
  }

  ghost predicate FlagsOk(on: bool, ops: seq<Op>)
    decreases |ops|
  {
    ops == [] || (FlagOk(on, ops[0]) && FlagsOk(FlagAfter(on, ops[0]), ops[1..]))
  }

  function FlagIn(on: bool, ops: seq<Op>): bool
    decreases |ops|
  {
    if ops == [] then on else FlagIn(FlagAfter(on, ops[0]), ops[1..])
  }

  function SeenIn(seen: set<Block>, ops: seq<Op>): set<Block>
    decreases |ops|
  {
    if ops == [] then seen else SeenIn(SeenAfter(seen, ops[0]), ops[1..])
  }

  /** The stored log explains the chain, and is empty while the flag is off. */
  ghost predicate LogInv(h: nat, cs: seq<Block>, db: Db, on: bool, seen: set<Block>) {
    LogOk(h, cs, db, seen) && (on || db.log == map[])
  }

  lemma {:induction false} StepLog(
    cfg: Config, keep: Option<nat>, h: nat, fs: seq<Frame>, db: Db, op: Op, on: bool, seen: set<Block>)
    requires Stored(db) && InOrder(h, fs, op) && LogInv(h, Blocks(fs), db, on, seen) && FlagOk(on, op)
    ensures LogInv(h, Blocks(Survive(cfg, keep, h, fs, db, op)), Do(cfg, keep, db, op), FlagAfter(on, op),
                   SeenAfter(seen, op))
  {
    hide Forward, Back, Stored, LogOk, Reopened, Blocks;
    match op {
      case RollForward(height, block, mutable) =>
        if Forward(cfg, keep, db, height, block, mutable).Ok? {
          ForwardLog(cfg, keep, h, Blocks(fs), db, block, mutable, seen);
          ForwardQuiet(cfg, keep, db, height, block, mutable);
          BlocksPush(fs, Frame(block, db.tables));
        } else {
          SeenGrows(h, Blocks(fs), db, seen, seen + {block});
        }
      case RollBack(height, hash, mutable) =>
        if Back(db, height, hash, mutable).Ok? {
          BackLog(h, Blocks(fs), db, height, hash, mutable, seen);
          BlocksCut(fs, height - h + 1);
        }
      case Reopen =>
        ReopenLog(h, Blocks(fs), db, seen);
    }
  }

  lemma ReopenLog(h: nat, cs: seq<Block>, db: Db, seen: set<Block>)
    requires LogOk(h, cs, db, seen)
    ensures LogOk(h, cs, Reopened(db), seen) && Reopened(db).log == map[]
  {
    hide Column, Highest;
    ColumnHighest(db.blocks, h, cs);
    if cs != [] {
      ColumnAt(db.blocks, h, cs, h + |cs| - 1);
    }
    ExplainedLinked(h, cs, db, seen);
    EmptyExplained(h, cs, 1, seen);
  }

  lemma ForwardQuiet(cfg: Config, keep: Option<nat>, db: Db, height: nat, block: Block, mutable: bool)
    requires HaveInputs(block.txs) && Forward(cfg, keep, db, height, block, mutable).Ok?
    ensures !mutable ==> Forward(cfg, keep, db, height, block, mutable).value.log == db.log
  {
    hide Apply;
  }

  lemma SeenGrows(h: nat, cs: seq<Block>, db: Db, seen: set<Block>, more: set<Block>)
    requires LogOk(h, cs, db, seen) && seen <= more
    ensures LogOk(h, cs, db, more)
  {
    var snaps :| Explains(h, cs, db.log, db.next, snaps, seen);
    assert Explains(h, cs, db.log, db.next, snaps, more);
  }

  /** In every state of every run in which blocks come at the next height, the
      retained log explains the chain. */
  lemma {:induction false} RunLog(
    cfg: Config, keep: Option<nat>, h: nat, fs: seq<Frame>, db: Db, ops: seq<Op>, on: bool, seen: set<Block>)
    requires Stored(db) && OrderedRun(cfg, keep, h, fs, db, ops)
    requires LogInv(h, Blocks(fs), db, on, seen) && FlagsOk(on, ops)
    ensures var (d, survivors) := Run(cfg, keep, h, fs, db, ops);
      LogInv(h, Blocks(survivors), d, FlagIn(on, ops), SeenIn(seen, ops))
    decreases |ops|
  {
    hide Stored, Survive, Do, LogInv, Blocks;
    if ops != [] {
      StepLog(cfg, keep, h, fs, db, ops[0], on, seen);
      RunLog(cfg, keep, h, Survive(cfg, keep, h, fs, db, ops[0]), Do(cfg, keep, db, ops[0]), ops[1..],
             FlagAfter(on, ops[0]), SeenAfter(seen, ops[0]));
    }
  }

  // ----- finding a position -----

  predicate IsPoint(l: Log, height: nat, hash: Hash) {
    !l.UndoLog? && l.height == height && l.block.hash == hash
  }

  /** Scans from position `k`; gives up at the first other entry at or above the
      height. */
  function FindSeq(log: map<nat, Log>, k: nat, end: nat, height: nat, hash: Hash): Option<nat>
    decreases end - k
  {
    if end <= k then None
    else if k !in log then FindSeq(log, k + 1, end, height, hash)
    else if IsPoint(log[k], height, hash) then Some(k)
    else if height <= log[k].height then None
    else FindSeq(log, k + 1, end, height, hash)
  }

  /** A position is found exactly when the first entry at or above the height is an
      Apply or Mark of the point. */
  lemma {:induction false} FindIff(log: map<nat, Log>, k: nat, end: nat, height: nat, hash: Hash, i: nat)
    ensures FindSeq(log, k, end, height, hash) == Some(i)
       <==> k <= i < end && i in log && IsPoint(log[i], height, hash)
            && (forall j | k <= j < i && j in log :: log[j].height < height)
    decreases end - k
  {
    if k < end {
      FindIff(log, k + 1, end, height, hash, i);
    }
  }

  /** A consumer whose chain ends at a point that is found, and who follows the log
      from there, ends up with the server's chain; nothing is missing. */
  lemma {:induction false} CatchUp(
    h: nat, cs: seq<Block>, db: Db, on: bool, seen: set<Block>, height: nat, hash: Hash, i: nat, c: seq<Block>)
    requires LogInv(h, cs, db, on, seen)
    requires FindSeq(db.log, 0, db.next, height, hash) == Some(i)
    requires Linked(c) && c != [] && |c| == height - h + 1 && c[|c| - 1].hash == hash
    requires NoCollisions(seen + set b | b in c)
    ensures forall j :: i <= j < db.next ==> j in db.log
    ensures FollowFrom(db.log, i + 1, db.next, h, c) == Some(cs)
  {
    hide FollowFrom;
    FindIff(db.log, 0, db.next, height, hash, i);
    var snaps :| Explains(h, cs, db.log, db.next, snaps, seen);
    SameTip(c, snaps[i], seen + set b | b in c);
    FollowsToEnd(h, cs, db.log, db.next, snaps, seen, i);
  }
}
