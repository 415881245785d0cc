/** The chain database object: its loops over blocks, transactions, outputs and
    log entries, proved against the state machine. A table write of a counter at
    zero is a deletion, as every reader takes an absent counter for zero. */
module ChainDatabase {
  import opened Prelude
  import opened ChainTypes
  import opened DuneLedger
  import opened Drc20
  import opened Inscriptions
  import opened Utxos
  import opened BlockApply
  import opened Indexers
  import opened Chain
  import opened ChainLog

  // ----- processing a block -----

  /** Indexes one transaction after the coinbase into the stage. */
  method ProcessTx(cfg: Config, height: nat, index: nat, tx: Tx, st: Stage) returns (r: Option<Stage>)
    requires tx.inputs != []
    ensures r == TxStep(cfg, height, index, tx, st)
  {
    hide IndexDunes, IndexInscriptions;
    var refs := Refs(tx);
    for i := 0 to |refs|
      invariant forall k :: 0 <= k < i ==> refs[k] in st.resolver
    {
      if refs[i] !in st.resolver {
        return None;
      }
    }
    var bodies := Fetch(st.resolver, refs);
    var dunes, outputs, recorded := st.dunes, seq(|tx.outputs|, _ => map[]), [];
    if cfg.firstDuneHeight <= height {
      var name;
      dunes, outputs, name, recorded := IndexRunes(st.dunes, tx, index, height, cfg.minimumName(height), bodies);
    }
    var i := InscResult(st.insc, seq(|tx.outputs|, _ => []), map[], [], None, []);
    if cfg.firstInscriptionHeight <= height {
      i := IndexTransaction(cfg, height, tx, refs, bodies, st.insc);
    }
    var outs := Bodies(height, tx.outputs, outputs, i.outputs, i.transfers);
    var resolver := InsertOutputs(st.resolver, tx, outs);
    r := Some(Stage(dunes, i.state, resolver, st.mints[index := recorded], st.messages + i.messages));
  }

  method InsertOutputs(u: Table, tx: Tx, bodies: seq<TxoBody>) returns (r: Table)
    requires |bodies| == |tx.outputs|
    ensures r == AddAll(u, OutRefs(tx.txid, |tx.outputs|), bodies)
  {
    ghost var refs := OutRefs(tx.txid, |tx.outputs|);
    r := u;
    for v := 0 to |tx.outputs|
      invariant AddAll(r, refs[v..], bodies[v..]) == AddAll(u, refs, bodies)
    {
      assert refs[v..][1..] == refs[v + 1..] && bodies[v..][1..] == bodies[v + 1..];
      r := r[TxoRef(tx.txid, v) := bodies[v]];
    }
  }

  method DeleteRefs(u: Table, refs: seq<TxoRef>) returns (r: Table)
    ensures r == RemoveAll(u, refs)
  {
    r := u;
    for i := 0 to |refs|
      invariant RemoveAll(r, refs[i..]) == RemoveAll(u, refs)
    {
      assert refs[i..][1..] == refs[i + 1..];
      r := r - {refs[i]};
    }
  }

  /** Resolves inputs and indexes every transaction, the coinbase's dunes first and
      its inscriptions last. */
  method ResolveAndProcess(cfg: Config, height: nat, txs: seq<Tx>, t: Tables) returns (r: Option<Stage>)
    requires txs != [] && HaveInputs(txs)
    ensures r == Staged(cfg, height, txs, t)
  {
    hide DunePart, InscPart, TxStep;
    var st := FirstStage(cfg, height, txs, t);
    for i := 1 to |txs|
      invariant Steps(cfg, height, i, txs[i..], st) == Steps(cfg, height, 1, txs[1..], FirstStage(cfg, height, txs, t))
    {
      assert txs[i..][1..] == txs[i + 1..];
      var next := ProcessTx(cfg, height, i, txs[i], st);
      if next.None? {
        return None;
      }
      st := next.value;
    }
    r := Some(LastStage(cfg, height, txs, t, st));
  }

  /** Inserts produced and deletes consumed outputs, transaction by transaction. */
  method UpdateOutputs(u: Table, txs: seq<Tx>, res: Table) returns (r: Table)
    ensures r == SpendAll(u, txs, res)
  {
    r := u;
    for i := 0 to |txs|
      invariant SpendAll(r, txs[i..], res) == SpendAll(u, txs, res)
    {
      assert txs[i..][1..] == txs[i + 1..];
      var outs := OutRefs(txs[i].txid, |txs[i].outputs|);
      var added := InsertOutputs(r, txs[i], Fetch(res, outs));
      r := DeleteRefs(added, Refs(txs[i]));
    }
  }

  // ----- undoing a block -----

  method UndoLedger(l: Ledger, ms: seq<Message>) returns (r: Ledger)
    ensures r == UndoMessages(l, ms)
  {
    r := l;
    var i := |ms|;
    assert ms[..i] == ms;
    while i > 0
      invariant 0 <= i <= |ms|
      invariant UndoMessages(r, ms[..i]) == UndoMessages(l, ms)
    {
      i := i - 1;
      assert ms[..i + 1][..i] == ms[..i];
      r := UndoMessage(r, ms[i]);
    }
  }

  /** Decrements the mint count of each recorded claim; None is a panic. */
  method UndoMints(mints: map<DuneId, nat>, claims: seq<nat>, recorded: seq<nat>) returns (m: Option<map<DuneId, nat>>)
    ensures m == UndoClaims(mints, claims, 0, recorded)
  {
    var cur := mints;
    for i := 0 to |claims|
      invariant UndoClaims(cur, claims, i, recorded) == UndoClaims(mints, claims, 0, recorded)
    {
      var key := Unpack(claims[i]);
      if key.Some? && Slot(i) in recorded {
        if Get(cur, key.value) == 0 {
          return None;
        }
        cur := Put(cur, key.value, Get(cur, key.value) - 1);
      }
    }
    m := Some(cur);
  }

  method UndoTxDunes(d: DuneTables, tx: Tx, index: nat, height: nat, recorded: seq<nat>) returns (r: Option<DuneTables>)
    ensures r == UndoDunes(d, tx, index, height, recorded)
  {
    if tx.dunestone.None? {
      return Some(d);
    }
    var stone := tx.dunestone.value;
    var cur := d;
    var id := DuneId(height, index);
    if stone.etching.Some? && id in cur.terms {
      var name := cur.terms[id].name;
      cur := cur.(idByName := cur.idByName - {name}, terms := cur.terms - {id});
      if stone.etching.value.dune.None? {
        if cur.reserved == 0 {
          return None;
        }
        cur := cur.(reserved := cur.reserved - 1);
      }
    }
    var m := UndoMints(cur.mints, Claims(stone.edicts), recorded);
    r := if m.Some? then Some(cur.(mints := m.value)) else None;
  }

  method UndoInputs(u: Table, refs: seq<TxoRef>, res: Table) returns (r: Option<(Table, Table)>)
    ensures r == PutBack(u, refs, res)
  {
    var cur, rem := u, res;
    for i := 0 to |refs|
      invariant PutBack(cur, refs[i..], rem) == PutBack(u, refs, res)
    {
      assert refs[i..][1..] == refs[i + 1..];
      if refs[i] !in rem {
        return None;
      }
      cur, rem := cur[refs[i] := rem[refs[i]]], rem - {refs[i]};
    }
    r := Some((cur, rem));
  }

  lemma {:induction false} UndoListSplit(
    d: DuneTables, height: nat, index: nat, a: seq<Tx>, tx: Tx, mints: map<nat, seq<nat>>)
    ensures UndoDuneList(d, height, index, a + [tx], mints)
      == match UndoDunes(d, tx, index + |a|, height, RecordedAt(mints, index + |a|))
         case None => None
         case Some(d1) => UndoDuneList(d1, height, index, a, mints)
    decreases |a|
  {
    if a == [] {
      assert a + [tx] == [tx] && [tx][1..] == [];
    } else {
      assert (a + [tx])[1..] == a[1..] + [tx];
      UndoListSplit(d, height, index + 1, a[1..], tx, mints);
    }
  }

  /** What undoing the transactions `..i` of a block still has to do. */
  ghost function UndoRest(u: Table, txs: seq<Tx>, i: nat, rem: Table): Option<Table>
    requires i <= |txs| && txs != []
  {
    if i == 0 then Some(u)
    else
      match UnspendAll(u, txs[1..i], rem)
      case None => None
      case Some(s) =>
        match Unspend(s.0, txs[0], 0, s.1)
        case None => None
        case Some(r) => Some(r.0)
  }

  lemma UndoRestStep(u: Table, txs: seq<Tx>, i: nat, rem: Table)
    requires i < |txs|
    ensures UndoRest(u, txs, i + 1, rem)
      == match Unspend(u, txs[i], i, rem)
         case None => None
         case Some(s) => UndoRest(s.0, txs, i, s.1)
  {
    hide Unspend;
    if i > 0 {
      assert txs[1..i + 1][..i - 1] == txs[1..i];
      assert txs[1..i + 1][i - 1] == txs[i];
    }
  }

  lemma UndoRestAll(u: Table, txs: seq<Tx>, rem: Table)
    requires txs != []
    ensures UndoRest(u, txs, |txs|, rem) == UndoUtxos(u, txs, rem) && UndoRest(u, txs, 0, rem) == Some(u)
  {
    assert txs[1..|txs|] == txs[1..];
  }

  /** Undoes the transactions of a block, last first: partial inscriptions, dunes,
      consumed inputs and produced outputs of each. */
  method UndoTransactions(t: Tables, txs: seq<Tx>, height: nat, entry: Entry)
    returns (r: Option<(Table, DuneTables, Partials)>)
    requires txs != []
    ensures var d := UndoDuneList(t.dunes, height, 0, txs, entry.mints);
      var u := UndoUtxos(t.utxos, txs, entry.resolver);
      r == if d.Some? && u.Some? then Some((u.value, d.value, ForgetPartials(t.partials, txs))) else None
  {
    hide UndoDunes, Unspend, UndoUtxos, UndoRest, ForgetPartials, UndoDuneList, RecordedAt;
    var u, rem, d, p := t.utxos, entry.resolver, t.dunes, t.partials;
    var i := |txs|;
    assert txs[..i] == txs;
    ghost var all := UndoDuneList(t.dunes, height, 0, txs, entry.mints);
    ghost var outs := UndoUtxos(t.utxos, txs, entry.resolver);
    UndoRestAll(u, txs, rem);
    while i > 0
      invariant 0 <= i <= |txs|
      invariant UndoDuneList(d, height, 0, txs[..i], entry.mints) == all
      invariant UndoRest(u, txs, i, rem) == outs
      invariant ForgetPartials(p, txs[..i]) == ForgetPartials(t.partials, txs)
    {
      i := i - 1;
      var tx := txs[i];
      assert txs[..i + 1] == txs[..i] + [tx];
      ForgetStep(p, txs[..i], tx);
      UndoListSplit(d, height, 0, txs[..i], tx, entry.mints);
      UndoRestStep(u, txs, i, rem);
      p := Partials(p.chains - {tx.txid}, p.txs - {tx.txid});
      var d1 := UndoTxDunes(d, tx, i, height, RecordedAt(entry.mints, i));
      if d1.None? {
        return None;
      }
      var s := UndoTxOutputs(u, tx, i, rem);
      if s.None? {
        return None;
      }
      d, u, rem := d1.value, s.value.0, s.value.1;
    }
    ForgetNone(p, txs[..0]);
    UndoRestAll(u, txs, rem);
    UndoListNone(d, height, txs[..0], entry.mints);
    r := Some((u, d, p));
  }

  lemma ForgetStep(p: Partials, txs: seq<Tx>, tx: Tx)
    ensures ForgetPartials(Partials(p.chains - {tx.txid}, p.txs - {tx.txid}), txs) == ForgetPartials(p, txs + [tx])
  {
    var ids := set i | 0 <= i < |txs| :: txs[i].txid;
    var more := set i | 0 <= i < |txs + [tx]| :: (txs + [tx])[i].txid;
    forall x ensures x in more <==> x in ids || x == tx.txid {
      if x in ids {
        var i :| 0 <= i < |txs| && txs[i].txid == x;
        assert (txs + [tx])[i].txid == x;
      }
      assert (txs + [tx])[|txs|].txid == tx.txid;
    }
  }

  lemma UndoListNone(d: DuneTables, height: nat, txs: seq<Tx>, mints: map<nat, seq<nat>>)
    requires txs == []
    ensures UndoDuneList(d, height, 0, txs, mints) == Some(d)
  {
  }

  lemma ForgetNone(p: Partials, txs: seq<Tx>)
    requires txs == []
    ensures ForgetPartials(p, txs) == p
  {
    assert (set i | 0 <= i < |txs| :: txs[i].txid) == {};
  }

  method UndoTxOutputs(u: Table, tx: Tx, index: nat, rem: Table) returns (r: Option<(Table, Table)>)
    ensures r == Unspend(u, tx, index, rem)
  {
    var back := Some((u, rem));
    if index != 0 {
      back := UndoInputs(u, Refs(tx), rem);
      if back.None? {
        return None;
      }
    }
    var outs := DeleteRefs(back.value.0, OutRefs(tx.txid, |tx.outputs|));
    r := Some((outs, back.value.1));
  }

  // ----- the log -----

  method PruneLog(log: map<nat, Log>, end: nat, before: nat) returns (r: map<nat, Log>)
    ensures r == Prune(log, 0, end, before)
  {
    r := log;
    for k := 0 to end
      invariant Prune(r, k, end, before) == Prune(log, 0, end, before)
    {
      if k in r {
        if before <= r[k].height {
          return;
        }
        r := r - {k};
      }
    }
  }

  method FindPosition(log: map<nat, Log>, end: nat, height: nat, hash: Hash) returns (i: Option<nat>)
    ensures i == FindSeq(log, 0, end, height, hash)
  {
    for k := 0 to end
      invariant FindSeq(log, k, end, height, hash) == FindSeq(log, 0, end, height, hash)
    {
      if k in log {
        if IsPoint(log[k], height, hash) {
          return Some(k);
        }
        if height <= log[k].height {
          return None;
        }
      }
    }
    i := None;
  }

  /** `out` is the log right after position `from`, without a gap. */
  ghost predicate RightAfter(log: map<nat, Log>, from: nat, out: seq<Log>) {
    forall k :: from < k <= from + |out| ==> k in log && out[k - from - 1] == log[k]
  }

  /** One pass of the log stream: skips the first retained entry at or after
      `from`, then yields entries as long as positions are consecutive. It never
      yields past a gap, and yields everything when there is none. */
  method ReadLog(log: map<nat, Log>, from: nat, end: nat) returns (out: seq<Log>, ok: bool)
    requires from <= end
    ensures RightAfter(log, from, out)
    ensures (forall j :: from <= j < end ==> j in log) && from < end ==> ok && |out| == end - from - 1
  {
    out, ok := [], true;
    var skipped := false;
    for k := from to end
      invariant RightAfter(log, from, out)
      invariant (forall j :: from <= j < end ==> j in log) ==>
        (skipped <==> from < k) && |out| == (if skipped then k - from - 1 else 0)
      invariant ok
    {
      if k in log {
        if !skipped {
          skipped := true;
        } else if k != from + |out| + 1 {
          ok := false;
          return;
        } else {
          out := out + [log[k]];
        }
      }
    }
  }

  // ----- the object -----

  /** The highest stored height, if there is one. */
  method LastHeight(blocks: map<nat, Block>) returns (top: Option<nat>)
    ensures top.None? <==> blocks == map[]
    ensures top.Some? ==> top.value in blocks && top.value == Highest(blocks)
  {
    var rest, best := blocks.Keys, None;
    while rest != {}
      invariant rest <= blocks.Keys
      invariant best.None? ==> rest == blocks.Keys
      invariant best.Some? ==> best.value in blocks && forall h <- blocks :: h in rest || h <= best.value
      decreases |rest|
    {
      var h :| h in rest;
      if best.None? || best.value < h {
        best := Some(h);
      }
      rest := rest - {h};
    }
    top := best;
    if top.Some? {
      HighestUnique(blocks, Highest(blocks), top.value);
    }
  }

  class ChainDb {
    const cfg: Config
    const keep: Option<nat>
    var tables: Tables
    var blocks: map<nat, Block>
    var entries: map<nat, Entry>
    var last: Option<Hash>
    var nextSeq: nat
    var log: map<nat, Log>

    ghost function View(): Db
      reads this
    {
      Db(tables, blocks, entries, last, nextSeq, log)
    }

    /** Opens a database on what the disk holds. */
    constructor (cfg: Config, keep: Option<nat>, stored: Db)
      ensures this.cfg == cfg && this.keep == keep
      ensures View() == Reopened(stored)
    {
      this.cfg, this.keep := cfg, keep;
      this.tables, this.blocks, this.entries := stored.tables, stored.blocks, stored.entries;
      var top := LastHeight(stored.blocks);
      this.last := if top.Some? then Some(stored.blocks[top.value].hash) else None;
      this.nextSeq, this.log := 1, map[];
    }

    /** Applies a block, or changes nothing. */
    method ApplyBlock(height: nat, block: Block, mutable: bool) returns (r: Result<(), Error>)
      requires HaveInputs(block.txs)
      modifies this
      ensures var f := Forward(cfg, keep, old(View()), height, block, mutable);
        && (f.Ok? ==> r.Ok? && View() == f.value)
        && (f.Err? ==> r == Err(f.error) && View() == old(View()))
    {
      hide Staged, SpendAll;
      if last.Some? && block.prev != last.value {
        return Err(PreviousHashMismatch);
      }
      if block.txs == [] {
        return Err(NoCoinbase);
      }
      var st := ResolveAndProcess(cfg, height, block.txs, tables);
      if st.None? {
        return Err(MissingTxo);
      }
      var s := st.value;
      var utxos := UpdateOutputs(tables.utxos, block.txs, s.resolver);
      var entry := Entry(block.hash, InputsOnly(s.resolver, block.txs), s.mints, tables.counters, s.messages);
      var wal := log;
      if mutable {
        wal := log[nextSeq := ApplyLog(height, block, entry)];
        if keep.Some? && keep.value <= height {
          wal := PruneLog(wal, nextSeq + 1, height - keep.value);
        }
      }
      tables := Tables(utxos, s.dunes, s.insc.partials, s.insc.drc, s.insc.counters);
      blocks, entries, log := blocks[height := block], entries[height := entry], wal;
      nextSeq, last := nextSeq + 1, Some(block.hash);
      r := Ok(());
    }

    /** Rolls back to a stored point, or changes nothing. */
    method Rollback(height: nat, hash: Hash, mutable: bool) returns (r: Result<(), Error>)
      requires Stored(View())
      modifies this
      ensures var f := Back(old(View()), height, hash, mutable);
        && (f.Ok? ==> r.Ok? && View() == f.value)
        && (f.Err? ==> r == Err(f.error) && View() == old(View()))
    {
      if height !in blocks || blocks[height].hash != hash {
        return Err(InvalidRollbackPoint);
      }
      var point := blocks[height];
      var cur := Db(tables, blocks, entries, last, nextSeq, log);
      var top := LastHeight(blocks);
      var k := top.value;
      while k > height
        invariant 0 <= k
        invariant Stored(cur)
        invariant UndoDown(cur, k, height, mutable) == UndoDown(old(View()), Highest(old(blocks)), height, mutable)
        invariant View() == old(View())
      {
        hide Undo, UndoAt;
        if k in cur.blocks {
          var next := UndoBlock(cur, k, mutable);
          if next.Err? {
            return Err(next.error);
          }
          cur := next.value;
        }
        k := k - 1;
      }
      if mutable {
        cur := cur.(log := cur.log[cur.next := MarkLog(height, point)], next := cur.next + 1);
      }
      tables, blocks, entries, log, nextSeq := cur.tables, cur.blocks, cur.entries, cur.log, cur.next;
      last := Some(hash);
      r := Ok(());
    }

    /** The log position from which a consumer at this point can catch up. */
    method FindWalSeq(height: nat, hash: Hash) returns (i: Option<nat>)
      ensures i == FindSeq(log, 0, nextSeq, height, hash)
    {
      i := FindPosition(log, nextSeq, height, hash);
    }
  }

  /** Undoes the stored block at a height, in the staged copy of the tables. */
  method UndoBlock(db: Db, height: nat, mutable: bool) returns (r: Result<Db, Error>)
    requires height in db.blocks && Stored(db)
    ensures r == UndoAt(db, height, mutable)
    ensures r.Ok? ==> Stored(r.value)
  {
    hide UndoDuneList, UndoUtxos, ForgetPartials, UndoMessages;
    var block := db.blocks[height];
    if height !in db.entries {
      return Err(MissingResolver);
    }
    var entry := db.entries[height];
    if entry.hash != block.hash {
      return Err(ResolverHashMismatch);
    }
    var drc := UndoLedger(db.tables.drc, entry.messages);
    var s := UndoTransactions(db.tables, block.txs, height, entry);
    if s.None? {
      return Err(UndoFailed);
    }
    var t := Tables(s.value.0, s.value.1, s.value.2, drc, entry.counters);
    r := Ok(Logged(db, mutable, UndoLog(height, block))
            .(tables := t, blocks := db.blocks - {height}, entries := db.entries - {height}));
  }
}
