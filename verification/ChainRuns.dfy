/** Runs of the chain database. Whatever blocks were applied, refused and rolled
    back, the tables stay consistent and the books balance; and if the blocks rolled
    back were reversible, the tables are those of replaying the surviving blocks. */
module ChainRuns {
  import opened Prelude
  import opened ChainTypes
  import opened Inscriptions
  import opened BlockApply
  import opened BlockLaws
  import opened Chain

  // ----- the database holds a chain -----

  /** The table holds `s[i]` at height `h + i` and nothing else. */
  ghost predicate Column<T>(m: map<nat, T>, h: nat, s: seq<T>) {
    && (forall k :: k in m <==> h <= k < h + |s|)
    && (forall k <- m :: h <= k < h + |s| && m[k] == s[k - h])
  }

  lemma ColumnPush<T>(m: map<nat, T>, h: nat, s: seq<T>, x: T)
    requires Column(m, h, s)
    ensures Column(m[h + |s| := x], h, s + [x])
  {
  }

  lemma ColumnPop<T>(m: map<nat, T>, h: nat, s: seq<T>)
    requires Column(m, h, s) && s != []
    ensures Column(m - {h + |s| - 1}, h, s[..|s| - 1])
    ensures h + |s| - 1 in m && m[h + |s| - 1] == s[|s| - 1]
  {
  }

  lemma ColumnAt<T>(m: map<nat, T>, h: nat, s: seq<T>, k: nat)
    requires Column(m, h, s)
    ensures k in m <==> h <= k < h + |s|
    ensures k in m ==> m[k] == s[k - h]
  {
  }

  lemma ColumnHighest(m: map<nat, Block>, h: nat, s: seq<Block>)
    requires Column(m, h, s)
    ensures s != [] ==> Highest(m) == h + |s| - 1
    ensures s == [] ==> m == map[]
  {
    if s == [] {
      assert forall k :: k !in m;
    } else {
      assert h + |s| - 1 in m;
      HighestUnique(m, Highest(m), h + |s| - 1);
    }
  }

  const NO_ENTRY := Entry(0, map[], map[], Counters(0, 0, 0), [])

  /** What a block left in the tables and in its stored entry. */
  ghost function Left(cfg: Config, h: nat, f: Frame): (Tables, Entry) {
    if f.block.txs != [] && HaveInputs(f.block.txs) && Apply(cfg, h, f.block, f.before).Some?
    then Apply(cfg, h, f.block, f.before).value else (f.before, NO_ENTRY)
  }

  lemma LeftIs(cfg: Config, h: nat, f: Frame)
    requires SoundBlock(cfg, h, f.block, f.before)
    ensures f.block.txs != [] && HaveInputs(f.block.txs)
    ensures Apply(cfg, h, f.block, f.before) == Some(Left(cfg, h, f))
  {
    hide Apply;
  }

  /** The same state, or one that is at most off. */
  ghost predicate Near(a: Tables, b: Tables, exact: bool) {
    if exact then a == b else Shadows(a, b)
  }

  /** The state `t` was reached from `base` through these blocks, each applied to a
      state near the one the block below it had left. */
  ghost predicate Stack(cfg: Config, h: nat, base: Tables, fs: seq<Frame>, t: Tables, exact: bool)
    decreases |fs|
  {
    && Sane(cfg, h + |fs|, t)
    && if fs == [] then Near(t, base, exact)
       else
         var n := |fs| - 1;
         && SoundBlock(cfg, h + n, fs[n].block, fs[n].before)
         && Near(t, Left(cfg, h + n, fs[n]).0, exact)
         && Stack(cfg, h, base, fs[..n], fs[n].before, exact)
  }

  /** The entries stored for the blocks. */
  ghost function Entries(cfg: Config, h: nat, fs: seq<Frame>): (r: seq<Entry>)
    ensures |r| == |fs|
  {
    seq(|fs|, i requires 0 <= i < |fs| => Left(cfg, h + i, fs[i]).1)
  }

  ghost predicate Holds(cfg: Config, h: nat, base: Tables, fs: seq<Frame>, db: Db, exact: bool) {
    && Stack(cfg, h, base, fs, db.tables, exact)
    && Column(db.blocks, h, Blocks(fs))
    && Column(db.entries, h, Entries(cfg, h, fs))
  }

  ghost predicate Tracks(cfg: Config, h: nat, base: Tables, fs: seq<Frame>, db: Db, exact: bool) {
    && Holds(cfg, h, base, fs, db, exact)
    && (fs != [] ==> db.last == Some(fs[|fs| - 1].block.hash))
  }

  lemma HoldsAt(cfg: Config, h: nat, base: Tables, fs: seq<Frame>, db: Db, exact: bool, k: nat)
    requires Holds(cfg, h, base, fs, db, exact)
    ensures k in db.blocks <==> h <= k < h + |fs|
    ensures k in db.blocks ==> db.blocks[k] == fs[k - h].block
  {
    hide Stack, Entries;
    ColumnAt(db.blocks, h, Blocks(fs), k);
  }

  // ----- applying -----

  lemma {:induction false} StackPush(
    cfg: Config, h: nat, base: Tables, fs: seq<Frame>, t: Tables, exact: bool, b: Block)
    requires Stack(cfg, h, base, fs, t, exact) && SoundBlock(cfg, h + |fs|, b, t)
    ensures Stack(cfg, h, base, fs + [Frame(b, t)], Left(cfg, h + |fs|, Frame(b, t)).0, exact)
  {
    hide Apply, NextBlock, Shadows, Left;
    var all := fs + [Frame(b, t)];
    assert all[..|fs|] == fs;
    StackSane(cfg, h, base, fs, t, exact);
    LeftIs(cfg, h + |fs|, Frame(b, t));
    BlockSane(cfg, h + |fs|, b, t);
    ShadowSelf(cfg, h + |fs| + 1, Left(cfg, h + |fs|, Frame(b, t)).0);
    hide Sane;
  }

  lemma EntriesPush(cfg: Config, h: nat, fs: seq<Frame>, f: Frame)
    ensures Entries(cfg, h, fs + [f]) == Entries(cfg, h, fs) + [Left(cfg, h + |fs|, f).1]
  {
    hide Left;
  }

  lemma EntriesCut(cfg: Config, h: nat, fs: seq<Frame>, n: nat)
    requires n <= |fs|
    ensures Entries(cfg, h, fs[..n]) == Entries(cfg, h, fs)[..n]
  {
    hide Left;
  }

  lemma ForwardIs(cfg: Config, keep: Option<nat>, db: Db, height: nat, block: Block, mutable: bool)
    requires HaveInputs(block.txs) && Forward(cfg, keep, db, height, block, mutable).Ok?
    ensures var d := Forward(cfg, keep, db, height, block, mutable).value;
      && block.txs != [] && Apply(cfg, height, block, db.tables) == Some(Left(cfg, height, Frame(block, db.tables)))
      && d.tables == Left(cfg, height, Frame(block, db.tables)).0
      && d.blocks == db.blocks[height := block]
      && d.entries == db.entries[height := Left(cfg, height, Frame(block, db.tables)).1]
      && d.last == Some(block.hash)
      && (db.last.Some? ==> block.prev == db.last.value)
  {
    hide Apply, Pruned;
  }

  lemma {:induction false} ForwardHolds(
    cfg: Config, keep: Option<nat>, h: nat, base: Tables, fs: seq<Frame>, db: Db, block: Block, mutable: bool,
    exact: bool)
    requires Tracks(cfg, h, base, fs, db, exact) && SoundBlock(cfg, h + |fs|, block, db.tables)
    requires Forward(cfg, keep, db, h + |fs|, block, mutable).Ok?
    ensures Tracks(cfg, h, base, fs + [Frame(block, db.tables)], Forward(cfg, keep, db, h + |fs|, block, mutable).value,
                   exact)
  {
    hide Apply, Forward, Column, Stack, Entries, Left;
    var f := Frame(block, db.tables);
    ForwardIs(cfg, keep, db, h + |fs|, block, mutable);
    StackPush(cfg, h, base, fs, db.tables, exact, block);
    hide SoundBlock;
    BlocksPush(fs, f);
    EntriesPush(cfg, h, fs, f);
    hide Blocks;
    ColumnPush(db.blocks, h, Blocks(fs), block);
    ColumnPush(db.entries, h, Entries(cfg, h, fs), Left(cfg, h + |fs|, f).1);
  }

  // ----- rolling back -----

  /** A state near the top of a stack is on top of it too. */
  lemma {:induction false} StackNear(
    cfg: Config, h: nat, base: Tables, fs: seq<Frame>, t: Tables, a: Tables, exact: bool)
    requires Stack(cfg, h, base, fs, t, exact) && Near(a, t, exact)
    ensures Stack(cfg, h, base, fs, a, exact)
  {
    hide SoundBlock, Sane, Shadows, Left;
    if !exact {
      ShadowSane(cfg, h + |fs|, a, t);
      ShadowTrans(a, t, if fs == [] then base else Left(cfg, h + |fs| - 1, fs[|fs| - 1]).0);
    }
  }

  /** The block can be undone, if it can be undone at all, to a state on the stack
      below it; if it is reversible and nothing was off, it can. */
  ghost predicate Pops(
    cfg: Config, h: nat, base: Tables, fs: seq<Frame>, n: nat, b: Block, entry: Entry, t: Tables, exact: bool) {
    && b.txs != [] && entry.hash == b.hash
    && (exact ==> Undo(h + n, b, entry, t).Some?)
    && (Undo(h + n, b, entry, t).Some? ==> Stack(cfg, h, base, fs, Undo(h + n, b, entry, t).value, exact))
  }

  /** The top block of a stack, undone. */
  lemma {:induction false} StackPop(cfg: Config, h: nat, base: Tables, fs: seq<Frame>, t: Tables, exact: bool)
    requires Stack(cfg, h, base, fs, t, exact) && fs != []
    requires exact ==> ReversibleAbove(cfg, h, fs, |fs| - 2)
    ensures var n := |fs| - 1; Pops(cfg, h, base, fs[..n], n, fs[n].block, Left(cfg, h + n, fs[n]).1, t, exact)
  {
    hide Apply, Undo, Sane, NextBlock, BlockReversible, Shadows, Left;
    var n := |fs| - 1;
    var f := fs[n];
    StackSane(cfg, h, base, fs[..n], f.before, exact);
    LeftIs(cfg, h + n, f);
    if exact {
      BlockSane(cfg, h + n, f.block, f.before);
      ShadowSelf(cfg, h + n + 1, Left(cfg, h + n, f).0);
    }
    BlockUndone(cfg, h + n, f.block, f.before, t);
    var u := Undo(h + n, f.block, Left(cfg, h + n, f).1, t);
    if u.Some? {
      StackNear(cfg, h, base, fs[..n], f.before, u.value, exact);
    }
  }

  lemma StackSane(cfg: Config, h: nat, base: Tables, fs: seq<Frame>, t: Tables, exact: bool)
    requires Stack(cfg, h, base, fs, t, exact)
    ensures Sane(cfg, h + |fs|, t)
  {
  }

  /** Undoing the stored block at the top leaves the database below it, if it can be
      undone at all. */
  ghost predicate UndoneTo(
    cfg: Config, h: nat, base: Tables, fs: seq<Frame>, db: Db, top: nat, mutable: bool, exact: bool) {
    && top in db.blocks && db.blocks[top].txs != []
    && (exact ==> UndoAt(db, top, mutable).Ok?)
    && (UndoAt(db, top, mutable).Ok? ==> Holds(cfg, h, base, fs, UndoAt(db, top, mutable).value, exact))
  }

  lemma {:induction false} UndoTop(
    cfg: Config, h: nat, base: Tables, fs: seq<Frame>, db: Db, mutable: bool, exact: bool)
    requires Holds(cfg, h, base, fs, db, exact) && fs != []
    requires exact ==> ReversibleAbove(cfg, h, fs, |fs| - 2)
    ensures UndoneTo(cfg, h, base, fs[..|fs| - 1], db, h + |fs| - 1, mutable, exact)
  {
    hide Undo, Column, Stack, Left, ReversibleAbove, Blocks;
    StackPop(cfg, h, base, fs, db.tables, exact);
    BlocksCut(fs, |fs| - 1);
    EntriesCut(cfg, h, fs, |fs| - 1);
    ColumnPop(db.blocks, h, Blocks(fs));
    ColumnPop(db.entries, h, Entries(cfg, h, fs));
  }

  /** The blocks above position `p` are reversible where they were applied. */
  ghost predicate ReversibleAbove(cfg: Config, h: nat, fs: seq<Frame>, p: int) {
    forall i: nat :: p < i < |fs| ==>
      && fs[i].block.txs != [] && HaveInputs(fs[i].block.txs)
      && BlockReversible(cfg, h + i, fs[i].block.txs, fs[i].before)
  }

  lemma {:induction false} UndoDownHolds(
    cfg: Config, h: nat, base: Tables, fs: seq<Frame>, db: Db, top: nat, to: nat, mutable: bool, exact: bool)
    requires Holds(cfg, h, base, fs, db, exact) && Stored(db)
    requires h <= to < h + |fs| <= top + 1
    requires exact ==> ReversibleAbove(cfg, h, fs, to - h)
    ensures var r := UndoDown(db, top, to, mutable);
      && (exact ==> r.Ok?)
      && (r.Ok? ==> Holds(cfg, h, base, fs[..to - h + 1], r.value, exact))
    decreases top
  {
    hide Holds, UndoAt, Stored, BlockReversible;
    if top <= to {
      assert fs[..to - h + 1] == fs;
    } else if top < h + |fs| {
      UndoTop(cfg, h, base, fs, db, mutable, exact);
      if UndoAt(db, top, mutable).Ok? {
        var d := UndoAt(db, top, mutable).value;
        UndoAtStored(db, top, mutable);
        UndoDownHolds(cfg, h, base, fs[..|fs| - 1], d, top - 1, to, mutable, exact);
        assert fs[..|fs| - 1][..to - h + 1] == fs[..to - h + 1];
      }
    } else {
      HoldsAt(cfg, h, base, fs, db, exact, top);
      UndoDownHolds(cfg, h, base, fs, db, top - 1, to, mutable, exact);
    }
  }

  lemma UndoAtStored(db: Db, top: nat, mutable: bool)
    requires Stored(db) && top in db.blocks && UndoAt(db, top, mutable).Ok?
    ensures Stored(UndoAt(db, top, mutable).value)
  {
    hide Undo;
  }

  /** The points that a rollback accepts. */
  predicate OnChain(h: nat, fs: seq<Frame>, height: nat, hash: Hash) {
    h <= height < h + |fs| && fs[height - h].block.hash == hash
  }

  /** A rollback is accepted only for a point of the chain and then leaves the chain
      up to that point; if the blocks above are reversible, it is accepted for every
      such point. */
  lemma {:induction false} BackTracks(
    cfg: Config, h: nat, base: Tables, fs: seq<Frame>, db: Db, height: nat, hash: Hash, mutable: bool, exact: bool)
    requires Tracks(cfg, h, base, fs, db, exact) && Stored(db)
    requires exact && OnChain(h, fs, height, hash) ==> ReversibleAbove(cfg, h, fs, height - h)
    ensures var r := Back(db, height, hash, mutable);
      && (r.Ok? ==> OnChain(h, fs, height, hash))
      && (exact && OnChain(h, fs, height, hash) ==> r.Ok?)
      && (r.Ok? ==> Tracks(cfg, h, base, fs[..height - h + 1], r.value, exact))
  {
    hide UndoDown, Holds, Stored, ReversibleAbove, Highest;
    HoldsAt(cfg, h, base, fs, db, exact, height);
    if OnChain(h, fs, height, hash) {
      HoldsHighest(cfg, h, base, fs, db, exact);
      UndoDownHolds(cfg, h, base, fs, db, Highest(db.blocks), height, mutable, exact);
      if Back(db, height, hash, mutable).Ok? {
        SameData(cfg, h, base, fs[..height - h + 1], UndoDown(db, Highest(db.blocks), height, mutable).value,
                 Back(db, height, hash, mutable).value, exact);
      }
    }
  }

  lemma HoldsHighest(cfg: Config, h: nat, base: Tables, fs: seq<Frame>, db: Db, exact: bool)
    requires Holds(cfg, h, base, fs, db, exact)
    ensures fs != [] ==> Highest(db.blocks) == h + |fs| - 1
    ensures fs == [] ==> db.blocks == map[]
  {
    hide Stack, Column, Highest;
    ColumnHighest(db.blocks, h, Blocks(fs));
  }

  lemma SameData(cfg: Config, h: nat, base: Tables, fs: seq<Frame>, d: Db, e: Db, exact: bool)
    requires Holds(cfg, h, base, fs, d, exact)
    requires e.tables == d.tables && e.blocks == d.blocks && e.entries == d.entries
    ensures Holds(cfg, h, base, fs, e, exact)
  {
    hide Stack, Column, Entries;
  }

  // ----- runs -----

  /** The block, if it is accepted, is one that consensus admits here; and, for an
      exact account, a rollback only meets reversible blocks. */
  ghost predicate Proper(cfg: Config, keep: Option<nat>, h: nat, fs: seq<Frame>, db: Db, op: Op, exact: bool) {
    && InOrder(h, fs, op)
    && (op.RollForward? && Forward(cfg, keep, db, op.height, op.block, op.mutable).Ok? ==>
          NextBlock(db.tables, op.block.txs) && op.height < U64)
    && (exact && op.RollBack? && OnChain(h, fs, op.height, op.hash) ==> ReversibleAbove(cfg, h, fs, op.height - h))
  }

  lemma {:induction false} StepTracks(
    cfg: Config, keep: Option<nat>, h: nat, base: Tables, fs: seq<Frame>, db: Db, op: Op, exact: bool)
    requires Tracks(cfg, h, base, fs, db, exact) && Stored(db) && Proper(cfg, keep, h, fs, db, op, exact)
    ensures Tracks(cfg, h, base, Survive(cfg, keep, h, fs, db, op), Do(cfg, keep, db, op), exact)
  {
    hide Holds, Stored, NextBlock, ReversibleAbove, Back, Reopened, Forward, Left, Apply;
    match op {
      case RollForward(height, block, mutable) =>
        if Forward(cfg, keep, db, height, block, mutable).Ok? {
          ForwardIs(cfg, keep, db, height, block, mutable);
          ForwardHolds(cfg, keep, h, base, fs, db, block, mutable, exact);
        }
      case RollBack(height, hash, mutable) =>
        BackTracks(cfg, h, base, fs, db, height, hash, mutable, exact);
      case Reopen =>
        ReopenTracks(cfg, h, base, fs, db, exact);
    }
  }

  lemma ReopenTracks(cfg: Config, h: nat, base: Tables, fs: seq<Frame>, db: Db, exact: bool)
    requires Tracks(cfg, h, base, fs, db, exact)
    ensures Tracks(cfg, h, base, fs, Reopened(db), exact)
  {
    hide Holds, Highest;
    HoldsHighest(cfg, h, base, fs, db, exact);
    SameData(cfg, h, base, fs, db, Reopened(db), exact);
    if fs != [] {
      HoldsAt(cfg, h, base, fs, db, exact, h + |fs| - 1);
    }
  }

  ghost predicate ProperRun(cfg: Config, keep: Option<nat>, h: nat, fs: seq<Frame>, db: Db, ops: seq<Op>, exact: bool)
    requires Stored(db) && OrderedRun(cfg, keep, h, fs, db, ops)
    decreases |ops|
  {
    ops == []
    || (&& Proper(cfg, keep, h, fs, db, ops[0], exact)
        && ProperRun(cfg, keep, h, Survive(cfg, keep, h, fs, db, ops[0]), Do(cfg, keep, db, ops[0]), ops[1..], exact))
  }

  /** The chain is tracked over any run of blocks that consensus admits: loosely
      whatever is rolled back, exactly if what is rolled back is reversible. */
  lemma {:induction false} RunTracks(
    cfg: Config, keep: Option<nat>, h: nat, base: Tables, fs: seq<Frame>, db: Db, ops: seq<Op>, exact: bool)
    requires Tracks(cfg, h, base, fs, db, exact) && Stored(db) && OrderedRun(cfg, keep, h, fs, db, ops)
    requires ProperRun(cfg, keep, h, fs, db, ops, exact)
    ensures var (d, survivors) := Run(cfg, keep, h, fs, db, ops); Tracks(cfg, h, base, survivors, d, exact)
    decreases |ops|
  {
    hide Tracks, Stored, Proper, Survive, Do;
    if ops != [] {
      StepTracks(cfg, keep, h, base, fs, db, ops[0], exact);
      RunTracks(cfg, keep, h, base, Survive(cfg, keep, h, fs, db, ops[0]), Do(cfg, keep, db, ops[0]), ops[1..], exact);
    }
  }

  // ----- replay -----

  lemma {:induction false} StackReplays(cfg: Config, h: nat, base: Tables, fs: seq<Frame>, t: Tables)
    requires Stack(cfg, h, base, fs, t, true)
    ensures HaveAll(Blocks(fs))
    ensures Replay(cfg, h, base, Blocks(fs)) == Some(Replayed(t, Entries(cfg, h, fs)))
    decreases |fs|
  {
    hide Apply, Sane, NextBlock, Left;
    if fs != [] {
      var n := |fs| - 1;
      StackReplays(cfg, h, base, fs[..n], fs[n].before);
      LeftIs(cfg, h + n, fs[n]);
      BlocksCut(fs, n);
      EntriesCut(cfg, h, fs, n);
      AllButLast(fs);
      var all := Entries(cfg, h, fs);
      assert all == all[..n] + [all[n]];
    }
  }

  lemma AllButLast(fs: seq<Frame>)
    requires fs != [] && HaveAll(Blocks(fs[..|fs| - 1])) && HaveAll([fs[|fs| - 1].block])
    ensures HaveAll(Blocks(fs))
  {
    assert fs[|fs| - 1].block in [fs[|fs| - 1].block];
    forall i | 0 <= i < |fs| ensures Blocks(fs)[i].txs != [] && HaveInputs(Blocks(fs)[i].txs) {
      if i < |fs| - 1 {
        assert Blocks(fs[..|fs| - 1])[i] in Blocks(fs[..|fs| - 1]);
      }
    }
  }

  /** After any run in which only reversible blocks were rolled back, every table is
      as if only the surviving blocks had ever been applied. */
  lemma {:induction false} RunReplays(
    cfg: Config, keep: Option<nat>, h: nat, base: Tables, fs: seq<Frame>, db: Db, ops: seq<Op>)
    requires Tracks(cfg, h, base, fs, db, true) && Stored(db) && OrderedRun(cfg, keep, h, fs, db, ops)
    requires ProperRun(cfg, keep, h, fs, db, ops, true)
    ensures var (d, survivors) := Run(cfg, keep, h, fs, db, ops);
      && HaveAll(Blocks(survivors))
      && Replay(cfg, h, base, Blocks(survivors)).Some?
      && Replay(cfg, h, base, Blocks(survivors)).value.tables == d.tables
  {
    hide Run, ProperRun, OrderedRun, Stack, Entries, Replay, HaveAll;
    RunTracks(cfg, keep, h, base, fs, db, ops, true);
    var r := Run(cfg, keep, h, fs, db, ops);
    StackReplays(cfg, h, base, r.1, r.0.tables);
  }
}
