/** The books of dunes, tickers and inscriptions over whole runs of the chain
    database. */
module ChainBooks {
  import opened Prelude
  import opened ChainTypes
  import opened DuneLedger
  import opened DuneLaws
  import opened Drc20
  import opened Inscriptions
  import opened BlockApply
  import opened Conservation
  import opened DuneBooks
  import opened PartialChains
  import opened Chain
  import opened ChainRuns
  import opened LiveInscriptions
  import U = Utxos

  // ----- dunes -----

  ghost function FrameTally(cfg: Config, h: nat, f: Frame, n: nat): Tally {
    if f.block.txs != [] && HaveInputs(f.block.txs)
    then BlockTally(cfg, h, f.block.txs, f.before, n) else Tally(0, 0, 0)
  }

  ghost predicate FrameFits(cfg: Config, h: nat, f: Frame, n: nat) {
    f.block.txs != [] && HaveInputs(f.block.txs) ==> BlockFits(cfg, h, f.block.txs, f.before, n)
  }

  /** What the stored blocks claimed, issued and burned of a dune. */
  ghost function StackTally(cfg: Config, h: nat, fs: seq<Frame>, n: nat): Tally
    decreases |fs|
  {
    if fs == [] then Tally(0, 0, 0)
    else var k := |fs| - 1; Plus(StackTally(cfg, h, fs[..k], n), FrameTally(cfg, h + k, fs[k], n))
  }

  /** No sum of the dune reached 2^128 in any of their transactions. */
  ghost predicate StackFits(cfg: Config, h: nat, fs: seq<Frame>, n: nat)
    decreases |fs|
  {
    fs == [] || var k := |fs| - 1; StackFits(cfg, h, fs[..k], n) && FrameFits(cfg, h + k, fs[k], n)
  }

  lemma {:induction false} FrameBalances(cfg: Config, h: nat, f: Frame, n: nat)
    requires Sane(cfg, h, f.before) && SoundBlock(cfg, h, f.block, f.before)
    ensures var k := FrameTally(cfg, h, f, n);
      var before := Outstanding(f.before.utxos, n);
      && Balanced(before, Outstanding(Left(cfg, h, f).0.utxos, n), k, FrameFits(cfg, h, f, n))
      && (before + k.minted + k.issued < U128 ==> FrameFits(cfg, h, f, n))
      && WithinLimit(f.before.dunes, Left(cfg, h, f).0.dunes, n, k.minted)
  {
    LeftIs(cfg, h, f);
    SaneNext(cfg, h, f.before, f.block.txs);
    hide Apply, Left, BlockTally, BlockFits, WithinLimit, Outstanding, DuneInv, NextBlock;
    BlockBalances(cfg, h, f.block, f.before, n);
    BlockWithinLimit(cfg, h, f.block, f.before, n);
  }

  /** For every chain of stored blocks, however it came about: a dune is never
      created out of nothing, and its books balance exactly if every transaction
      fits, as they do while issued and claimed stay below 2^128. */
  lemma {:induction false} StackBalances(
    cfg: Config, h: nat, base: Tables, fs: seq<Frame>, t: Tables, exact: bool, n: nat)
    requires Stack(cfg, h, base, fs, t, exact)
    ensures var k := StackTally(cfg, h, fs, n);
      && Balanced(Outstanding(base.utxos, n), Outstanding(t.utxos, n), k, StackFits(cfg, h, fs, n))
      && (Outstanding(base.utxos, n) + k.minted + k.issued < U128 ==> StackFits(cfg, h, fs, n))
    decreases |fs|
  {
    hide Sane, SoundBlock, Outstanding, FrameTally, FrameFits, Left, Off;
    if fs != [] {
      var m := |fs| - 1;
      StackSane(cfg, h, base, fs[..m], fs[m].before, exact);
      StackBalances(cfg, h, base, fs[..m], fs[m].before, exact, n);
      FrameBalances(cfg, h + m, fs[m], n);
      hide Stack;
      BalancedThen(Outstanding(base.utxos, n), Outstanding(fs[m].before.utxos, n),
                   Outstanding(Left(cfg, h + m, fs[m]).0.utxos, n),
                   StackTally(cfg, h, fs[..m], n), FrameTally(cfg, h + m, fs[m], n),
                   StackFits(cfg, h, fs[..m], n), FrameFits(cfg, h + m, fs[m], n));
    }
  }

  /** Over blocks applied one on top of the other, claims stay within one limit per
      mint. */
  lemma {:induction false} StackWithinLimit(cfg: Config, h: nat, base: Tables, fs: seq<Frame>, t: Tables, n: nat)
    requires Stack(cfg, h, base, fs, t, true)
    ensures WithinLimit(base.dunes, t.dunes, n, StackTally(cfg, h, fs, n).minted)
    decreases |fs|
  {
    hide Sane, SoundBlock, FrameTally, Left, WithinLimit;
    if fs == [] {
      WithinLimitStart(t.dunes, n);
    } else {
      var m := |fs| - 1;
      StackSane(cfg, h, base, fs[..m], fs[m].before, true);
      StackWithinLimit(cfg, h, base, fs[..m], fs[m].before, n);
      FrameBalances(cfg, h + m, fs[m], n);
      hide Stack;
      WithinLimitTrans(base.dunes, fs[m].before.dunes, t.dunes, n, StackTally(cfg, h, fs[..m], n).minted,
                       FrameTally(cfg, h + m, fs[m], n).minted);
    }
  }

  // ----- tickers and inscriptions -----

  /** The books held in the state that each stored block left. */
  ghost predicate FramesBooks(cfg: Config, h: nat, fs: seq<Frame>) {
    forall i: nat :: i < |fs| ==> Books(cfg, h + i + 1, Left(cfg, h + i, fs[i]).0)
  }

  lemma SameBooks(cfg: Config, h: nat, t: Tables, a: Tables)
    requires Books(cfg, h, t) && a.utxos == t.utxos && a.drc == t.drc
    ensures Books(cfg, h, a)
  {
    hide Unique, Quiet, AllBacked;
  }

  /** Then they hold now: a rollback restores outputs and ledger exactly, whatever
      happens to the dune tables. */
  lemma TopBooks(cfg: Config, h: nat, base: Tables, fs: seq<Frame>, t: Tables, exact: bool)
    requires Stack(cfg, h, base, fs, t, exact) && Books(cfg, h, base) && FramesBooks(cfg, h, fs)
    ensures Books(cfg, h + |fs|, t)
  {
    hide Books, Left, Sane, SoundBlock, Off;
    var n := |fs| - 1;
    SameBooks(cfg, h + |fs|, if fs == [] then base else Left(cfg, h + n, fs[n]).0, t);
  }

  /** An accepted block reveals no live id. */
  ghost predicate RevealsNew(cfg: Config, keep: Option<nat>, db: Db, op: Op) {
    op.RollForward? && HaveInputs(op.block.txs) && Forward(cfg, keep, db, op.height, op.block, op.mutable).Ok? ==>
      op.block.txs != [] && BlockNewIds(cfg, op.height, op.block.txs, db.tables)
  }

  lemma {:induction false} FrameBooks(cfg: Config, h: nat, f: Frame)
    requires Sane(cfg, h, f.before) && SoundBlock(cfg, h, f.block, f.before) && Books(cfg, h, f.before)
    requires BlockNewIds(cfg, h, f.block.txs, f.before)
    ensures Books(cfg, h + 1, Left(cfg, h, f).0)
  {
    LeftIs(cfg, h, f);
    SaneNext(cfg, h, f.before, f.block.txs);
    hide Apply, Left, Sane, Books, BlockNewIds, NextBlock;
    BlockKeepsBooks(cfg, h, f.block, f.before);
  }

  lemma {:induction false} StepBooks(
    cfg: Config, keep: Option<nat>, h: nat, base: Tables, fs: seq<Frame>, db: Db, op: Op, exact: bool)
    requires Tracks(cfg, h, base, fs, db, exact) && Stored(db) && Proper(cfg, keep, h, fs, db, op, exact)
    requires Books(cfg, h, base) && FramesBooks(cfg, h, fs) && RevealsNew(cfg, keep, db, op)
    ensures FramesBooks(cfg, h, Survive(cfg, keep, h, fs, db, op))
  {
    hide Books, Left, Sane, Stored, Back, Holds, BlockNewIds, NextBlock, FramesBooks, ReversibleAbove, Forward, Apply;
    if op.RollForward? && Forward(cfg, keep, db, op.height, op.block, op.mutable).Ok? {
      ForwardIs(cfg, keep, db, op.height, op.block, op.mutable);
      HoldsBooks(cfg, h, base, fs, db, exact);
      var f := Frame(op.block, db.tables);
      FrameBooks(cfg, op.height, f);
      FramesPush(cfg, h, fs, f);
    } else if op.RollBack? && h <= op.height < h + |fs| {
      FramesCut(cfg, h, fs, op.height - h + 1);
    }
  }

  lemma HoldsBooks(cfg: Config, h: nat, base: Tables, fs: seq<Frame>, db: Db, exact: bool)
    requires Holds(cfg, h, base, fs, db, exact) && Books(cfg, h, base) && FramesBooks(cfg, h, fs)
    ensures Sane(cfg, h + |fs|, db.tables) && Books(cfg, h + |fs|, db.tables)
  {
    hide Stack, Column, Entries, Books, Sane, FramesBooks;
    StackSane(cfg, h, base, fs, db.tables, exact);
    TopBooks(cfg, h, base, fs, db.tables, exact);
  }

  lemma FramesPush(cfg: Config, h: nat, fs: seq<Frame>, f: Frame)
    requires FramesBooks(cfg, h, fs) && Books(cfg, h + |fs| + 1, Left(cfg, h + |fs|, f).0)
    ensures FramesBooks(cfg, h, fs + [f])
  {
    hide Books, Left;
  }

  lemma FramesCut(cfg: Config, h: nat, fs: seq<Frame>, n: nat)
    requires FramesBooks(cfg, h, fs) && n <= |fs|
    ensures FramesBooks(cfg, h, fs[..n])
  {
    hide Books, Left;
  }

  ghost predicate NewIdsRun(cfg: Config, keep: Option<nat>, h: nat, fs: seq<Frame>, db: Db, ops: seq<Op>)
    requires Stored(db) && OrderedRun(cfg, keep, h, fs, db, ops)
    decreases |ops|
  {
    ops == []
    || (&& RevealsNew(cfg, keep, db, ops[0])
        && NewIdsRun(cfg, keep, h, Survive(cfg, keep, h, fs, db, ops[0]), Do(cfg, keep, db, ops[0]), ops[1..]))
  }

  lemma {:induction false} RunBooks(
    cfg: Config, keep: Option<nat>, h: nat, base: Tables, fs: seq<Frame>, db: Db, ops: seq<Op>, exact: bool)
    requires Tracks(cfg, h, base, fs, db, exact) && Stored(db) && OrderedRun(cfg, keep, h, fs, db, ops)
    requires ProperRun(cfg, keep, h, fs, db, ops, exact) && NewIdsRun(cfg, keep, h, fs, db, ops)
    requires Books(cfg, h, base) && FramesBooks(cfg, h, fs)
    ensures FramesBooks(cfg, h, Run(cfg, keep, h, fs, db, ops).1)
    decreases |ops|
  {
    hide Tracks, Stored, Proper, Survive, Do, FramesBooks, Books, RevealsNew;
    if ops != [] {
      StepTracks(cfg, keep, h, base, fs, db, ops[0], exact);
      StepBooks(cfg, keep, h, base, fs, db, ops[0], exact);
      RunBooks(cfg, keep, h, base, Survive(cfg, keep, h, fs, db, ops[0]), Do(cfg, keep, db, ops[0]), ops[1..], exact);
    }
  }

  // ----- from an empty database -----

  const EMPTY := Tables(map[], DuneTables(map[], map[], map[], 0), Partials(map[], map[]),
                        Ledger(map[], map[], map[]), Counters(0, 0, 0))

  lemma EmptySane(cfg: Config, h: nat)
    ensures Sane(cfg, h, EMPTY) && Books(cfg, h, EMPTY)
  {
    forall t ensures Backed(EMPTY.drc, t, Locked(EMPTY.utxos, t)) {
      assert Of(EMPTY.drc.balances, t) == map[];
      assert U.Weights(EMPTY.utxos, LockW(t)) == map[];
    }
  }

  lemma EmptyHoldsNone(n: nat)
    ensures Outstanding(EMPTY.utxos, n) == 0
  {
    assert U.Weights(EMPTY.utxos, DuneW(n)) == map[];
  }

  /** A run from an empty database. */
  ghost predicate FromEmpty(cfg: Config, keep: Option<nat>, h: nat, db: Db, ops: seq<Op>, exact: bool) {
    && Tracks(cfg, h, EMPTY, [], db, exact) && Stored(db)
    && OrderedRun(cfg, keep, h, [], db, ops) && ProperRun(cfg, keep, h, [], db, ops, exact)
  }

  /** Every state of every run, irreversible rollbacks included: the tables are
      consistent (names and ids mutually inverse, reserved names never shared, mint
      counts within caps), and the live amount of a dune plus what the surviving
      blocks burned is at most what they issued and claimed, and exactly that if and
      only if all their transactions fit; they do while that stays below 2^128. */
  lemma {:induction false} ReachableTables(
    cfg: Config, keep: Option<nat>, h: nat, db: Db, ops: seq<Op>, exact: bool, n: nat)
    requires FromEmpty(cfg, keep, h, db, ops, exact)
    ensures var (d, fs) := Run(cfg, keep, h, [], db, ops);
      var k := StackTally(cfg, h, fs, n);
      && Sane(cfg, h + |fs|, d.tables)
      && Balanced(0, Outstanding(d.tables.utxos, n), k, StackFits(cfg, h, fs, n))
      && (k.minted + k.issued < U128 ==> StackFits(cfg, h, fs, n))
  {
    hide Run, ProperRun, OrderedRun, Tracks, StackTally, StackFits, Balanced, Outstanding, Sane;
    RunTracks(cfg, keep, h, EMPTY, [], db, ops, exact);
    var r := Run(cfg, keep, h, [], db, ops);
    StateTables(cfg, h, r.1, r.0, exact, n);
  }

  lemma {:induction false} StateTables(cfg: Config, h: nat, fs: seq<Frame>, d: Db, exact: bool, n: nat)
    requires Tracks(cfg, h, EMPTY, fs, d, exact)
    ensures var k := StackTally(cfg, h, fs, n);
      && Sane(cfg, h + |fs|, d.tables)
      && Balanced(0, Outstanding(d.tables.utxos, n), k, StackFits(cfg, h, fs, n))
      && (k.minted + k.issued < U128 ==> StackFits(cfg, h, fs, n))
  {
    hide Stack, Column, Entries, StackTally, StackFits, Balanced, Outstanding, Sane;
    StackSane(cfg, h, EMPTY, fs, d.tables, exact);
    EmptyHoldsNone(n);
    StackBalances(cfg, h, EMPTY, fs, d.tables, exact, n);
  }

  /** Every state of every run whose blocks reveal no live id: each ticker's supply is
      balances plus locked transfers and within its maximum, and every live
      inscription is in one place. */
  lemma {:induction false} ReachableTickers(
    cfg: Config, keep: Option<nat>, h: nat, db: Db, ops: seq<Op>, exact: bool, ticker: Ticker)
    requires FromEmpty(cfg, keep, h, db, ops, exact) && NewIdsRun(cfg, keep, h, [], db, ops)
    ensures var t := Run(cfg, keep, h, [], db, ops).0.tables;
      && Available(t.drc, ticker) + Locked(t.utxos, ticker) == Supply(t.drc, ticker)
      && (if ticker in t.drc.terms then Supply(t.drc, ticker) <= t.drc.terms[ticker].max
          else Supply(t.drc, ticker) == 0)
      && Unique(t.utxos)
  {
    hide Run, ProperRun, OrderedRun, NewIdsRun, Stack, Column;
    hide Entries, Unique, Available, Locked, Supply, Quiet, FramesBooks;
    EmptySane(cfg, h);
    NoFrames(cfg, h);
    RunTracks(cfg, keep, h, EMPTY, [], db, ops, exact);
    RunBooks(cfg, keep, h, EMPTY, [], db, ops, exact);
    var r := Run(cfg, keep, h, [], db, ops);
    TopBooks(cfg, h, EMPTY, r.1, r.0.tables, exact);
    assert Backed(r.0.tables.drc, ticker, Locked(r.0.tables.utxos, ticker));
  }

  lemma NoFrames(cfg: Config, h: nat)
    ensures FramesBooks(cfg, h, [])
  {
  }

  /** Every state of every run that rolls back reversible blocks only: what was
      claimed of a dune is at most its limit times its mint count, which is at most
      its cap. */
  lemma {:induction false} ReachableClaims(cfg: Config, keep: Option<nat>, h: nat, db: Db, ops: seq<Op>, key: DuneId)
    requires FromEmpty(cfg, keep, h, db, ops, true)
    ensures var (d, fs) := Run(cfg, keep, h, [], db, ops);
      var dunes := d.tables.dunes;
      key in dunes.terms ==>
        && StackTally(cfg, h, fs, Pack(key)).minted <= Get(dunes.mints, key) * Limit(dunes.terms[key])
        && Get(dunes.mints, key) <= Cap(dunes.terms[key])
  {
    hide Run, ProperRun, OrderedRun, Stack, Column, Entries, StackTally, WithinLimit, DuneInv, NoDunesYet, Closed;
    RunTracks(cfg, keep, h, EMPTY, [], db, ops, true);
    var r := Run(cfg, keep, h, [], db, ops);
    StackSane(cfg, h, EMPTY, r.1, r.0.tables, true);
    StackWithinLimit(cfg, h, EMPTY, r.1, r.0.tables, Pack(key));
    ClaimsFrom(r.0.tables.dunes, key, StackTally(cfg, h, r.1, Pack(key)).minted);
  }

  lemma ClaimsFrom(d: DuneTables, key: DuneId, minted: nat)
    requires DuneInv(d) && WithinLimit(EMPTY.dunes, d, Pack(key), minted)
    ensures key in d.terms ==>
      minted <= Get(d.mints, key) * Limit(d.terms[key]) && Get(d.mints, key) <= Cap(d.terms[key])
  {
    if key in d.terms {
      PackIff(Pack(key), key);
    }
  }
}
