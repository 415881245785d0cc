/** Undoing a block is the exact inverse of applying it. */
module BlockLaws {
  import opened Prelude
  import opened ChainTypes
  import opened DuneLedger
  import opened DuneLaws
  import opened Placement
  import opened Drc20
  import opened Inscriptions
  import opened InscriptionLaws
  import opened Utxos
  import opened BlockApply

  // ----- valid blocks -----

  /** What the laws of a block ask of it: one coinbase in front, other transactions
      with real and distinct inputs, transaction ids that no live output and no
      stored partial uses; and, as every run keeps it, no null output and no dune
      etched at this height. */
  ghost predicate WellFormed(t: Tables, height: nat, txs: seq<Tx>) {
    && txs != [] && HaveInputs(txs)
    && Refs(txs[0]) == [NULL_REF]
    && NULL_REF !in AllRefs(txs[1..]) && NULL_REF !in t.utxos
    && NoDup(AllRefs(txs[1..]))
    && NoDup(Txids(txs)) && NULL_REF.txid !in Txids(txs)
    && NewTxids(t, txs)
    && (forall id <- t.dunes.terms :: id.block != height)
  }

  ghost predicate NewTxids(t: Tables, txs: seq<Tx>) {
    && (forall r <- t.utxos :: r.txid !in Txids(txs))
    && (forall id <- t.partials.chains :: id !in Txids(txs))
    && (forall id <- t.partials.txs :: id !in Txids(txs))
  }

  // ----- the resolver follows the live outputs -----

  /** Every resolved output not yet spent by the block is live with that body. */
  ghost predicate Follows(v: Table, res: Table, spent: set<TxoRef>) {
    forall r <- res :: r !in spent ==> r in v && v[r] == res[r]
  }

  ghost predicate NoneOf(v: Table, txids: seq<Txid>) {
    forall r <- v :: r.txid !in txids
  }

  ghost predicate Extends(big: Table, small: Table) {
    forall r <- small :: r in big && big[r] == small[r]
  }

  lemma StageExtends(cfg: Config, height: nat, index: nat, tx: Tx, st: Stage)
    requires tx.inputs != [] && Resolves(st, tx) && (forall r <- st.resolver :: r.txid != tx.txid)
    ensures var s := TxStep(cfg, height, index, tx, st).value;
      && Grown(st.resolver, s.resolver, tx)
      && (forall v :: 0 <= v < |tx.outputs| ==>
            s.resolver[TxoRef(tx.txid, v)] == OutBodies(cfg, height, index, tx, st)[v])
  {
    var outs := OutRefs(tx.txid, |tx.outputs|);
    AddAllIs(st.resolver, outs, OutBodies(cfg, height, index, tx, st));
    OutRefsIff(tx);
    forall v | 0 <= v < |tx.outputs| ensures outs[v] == TxoRef(tx.txid, v) {
    }
  }

  /** The situation before the transactions `txs` of a block are processed. */
  ghost predicate Ready(v: Table, known: Table, txs: seq<Tx>, spent: set<TxoRef>) {
    && HaveInputs(txs)
    && Follows(v, known, spent)
    && NoneOf(v, Txids(txs)) && NoneOf(known, Txids(txs))
    && NoDup(AllRefs(txs)) && NoDup(Txids(txs))
    && (forall r <- AllRefs(txs) :: r !in spent)
  }

  lemma TxidsHead(txs: seq<Tx>)
    requires txs != []
    ensures Txids(txs) == [txs[0].txid] + Txids(txs[1..])
    ensures NoDup(Txids(txs)) ==> NoDup(Txids(txs[1..])) && txs[0].txid !in Txids(txs[1..])
  {
    assert Txids(txs) == [txs[0].txid] + Txids(txs[1..]);
    NoDupConcat([txs[0].txid], Txids(txs[1..]));
    assert txs[0].txid in [txs[0].txid];
  }

  /** `next` is `known` with the outputs of `tx` added. */
  ghost predicate Grown(known: Table, next: Table, tx: Tx) {
    && Extends(next, known)
    && (forall r <- next :: r in known || Creates(tx, r))
    && (forall r | Creates(tx, r) :: r in next)
  }

  lemma ReadyNext(v: Table, known: Table, next: Table, txs: seq<Tx>, spent: set<TxoRef>, res: Table)
    requires txs != [] && Ready(v, known, txs, spent)
    requires forall r <- Refs(txs[0]) :: r in known
    requires Grown(known, next, txs[0]) && Extends(res, next)
    ensures StepOk(v, txs[0], res)
    ensures Ready(Spend(v, txs[0], res), next, txs[1..], spent + (set r | r in Refs(txs[0])))
  {
    var tx := txs[0];
    TxidsHead(txs);
    NoDupConcat(Refs(tx), AllRefs(txs[1..]));
    SpendIs(v, tx, res);
    assert StepOk(v, tx, res) by {
      forall r | r in Refs(tx) ensures r in v && r in res && res[r] == v[r] && !Creates(tx, r) {
        assert r in AllRefs(txs);
      }
    }
  }

  /** Processing the transactions spends exactly live outputs, as resolved. */
  lemma {:induction false} StepsSpend(
    cfg: Config, height: nat, index: nat, txs: seq<Tx>, st: Stage, v: Table, spent: set<TxoRef>)
    requires Ready(v, st.resolver, txs, spent)
    requires Steps(cfg, height, index, txs, st).Some?
    ensures Spends(v, txs, Steps(cfg, height, index, txs, st).value.resolver)
    decreases |txs|
  {
    if txs != [] {
      var s := TxStep(cfg, height, index, txs[0], st).value;
      var res := Steps(cfg, height, index + 1, txs[1..], s).value.resolver;
      TxidsHead(txs);
      StageExtends(cfg, height, index, txs[0], st);
      StepsExtend(cfg, height, index + 1, txs[1..], s);
      ReadyNext(v, st.resolver, s.resolver, txs, spent, res);
      StepsSpend(cfg, height, index + 1, txs[1..], s, Spend(v, txs[0], res), spent + set r | r in Refs(txs[0]));
    }
  }

  /** The resolver only grows, by outputs of these transactions, and ends up with
      all their inputs. */
  lemma {:induction false} StepsExtend(cfg: Config, height: nat, index: nat, txs: seq<Tx>, st: Stage)
    requires HaveInputs(txs) && NoneOf(st.resolver, Txids(txs)) && NoDup(Txids(txs))
    ensures Steps(cfg, height, index, txs, st).Some? ==>
      var res := Steps(cfg, height, index, txs, st).value.resolver;
      && Extends(res, st.resolver)
      && (forall r <- AllRefs(txs) :: r in res)
      && (forall r <- res :: r in st.resolver || r.txid in Txids(txs))
    decreases |txs|
  {
    if txs != [] && Resolves(st, txs[0]) {
      TxidsHead(txs);
      var s := TxStep(cfg, height, index, txs[0], st).value;
      StageExtends(cfg, height, index, txs[0], st);
      StepsExtend(cfg, height, index + 1, txs[1..], s);
    }
  }

  // ----- the output table of a whole block -----

  lemma SpendSame(v: Table, tx: Tx, small: Table, big: Table)
    requires Extends(big, small) && forall r | Creates(tx, r) :: r in small
    ensures Spend(v, tx, big) == Spend(v, tx, small)
  {
    SpendIs(v, tx, small);
    SpendIs(v, tx, big);
  }

  lemma {:induction false} SpendsExtend(v: Table, txs: seq<Tx>, small: Table, big: Table)
    requires Extends(big, small) && Spends(v, txs, small)
    ensures Spends(v, txs, big) && SpendAll(v, txs, big) == SpendAll(v, txs, small)
    decreases |txs|
  {
    if txs != [] {
      SpendSame(v, txs[0], small, big);
      SpendsExtend(Spend(v, txs[0], small), txs[1..], small, big);
    }
  }

  /** The coinbase outputs, as the resolver ends up holding them. */
  ghost function CoinbaseOuts(cb: Tx, res: Table): Table {
    map r | r in res && Creates(cb, r) :: res[r]
  }

  /** What the staged work of a well-formed block guarantees about outputs. */
  ghost predicate BlockSpends(u: Table, txs: seq<Tx>, res: Table)
    requires txs != []
  {
    && Spends(u, txs[1..], res)
    && (forall r | Creates(txs[0], r) :: r in res && r !in u)
    && (forall r <- AllRefs(txs[1..]) :: r in res && r.txid != txs[0].txid)
    && SpendAll(u, txs, res) == SpendAll(u, txs[1..], res) + CoinbaseOuts(txs[0], res)
    && Spends(u + CoinbaseOuts(txs[0], res), txs[1..], res)
    && SpendAll(u, txs, res) == SpendAll(u + CoinbaseOuts(txs[0], res), txs[1..], res)
  }

  lemma FirstReady(cfg: Config, height: nat, txs: seq<Tx>, t: Tables)
    requires WellFormed(t, height, txs)
    ensures Ready(t.utxos, External(t.utxos, txs), txs[1..], {})
    ensures forall r <- External(t.utxos, txs) :: r.txid !in Txids(txs)
  {
    TxidsHead(txs);
  }

  lemma SpendCoinbase(u: Table, cb: Tx, res: Table)
    requires Refs(cb) == [NULL_REF] && NULL_REF !in u && NULL_REF.txid != cb.txid
    requires forall r | Creates(cb, r) :: r in res && r !in u
    ensures Spend(u, cb, res) == u + CoinbaseOuts(cb, res)
  {
    SpendIs(u, cb, res);
  }

  lemma {:induction false} StagedSpends(cfg: Config, height: nat, txs: seq<Tx>, t: Tables)
    requires WellFormed(t, height, txs) && Staged(cfg, height, txs, t).Some?
    ensures BlockSpends(t.utxos, txs, Staged(cfg, height, txs, t).value.resolver)
  {
    var first := FirstStage(cfg, height, txs, t);
    var st := Steps(cfg, height, 1, txs[1..], first).value;
    var res := LastStage(cfg, height, txs, t, st).resolver;
    TxidsHead(txs);
    FirstReady(cfg, height, txs, t);
    StepsExtend(cfg, height, 1, txs[1..], first);
    StepsSpend(cfg, height, 1, txs[1..], first, t.utxos, {});
    LastGrows(cfg, height, txs, t, st);
    TableOfBlock(t.utxos, txs, st.resolver, res);
  }

  lemma LastGrows(cfg: Config, height: nat, txs: seq<Tx>, t: Tables, st: Stage)
    requires txs != [] && HaveInputs(txs) && NoneOf(st.resolver, [txs[0].txid])
    ensures Grown(st.resolver, LastStage(cfg, height, txs, t, st).resolver, txs[0])
  {
    var cb := txs[0];
    var outs := OutRefs(cb.txid, |cb.outputs|);
    var i := InscPart(cfg, height, cb, [], [], st.insc);
    AddAllIs(st.resolver, outs,
             Bodies(height, cb.outputs, CoinbaseDunes(cfg, height, txs, t).outputs, i.outputs, i.transfers));
    OutRefsIff(cb);
    forall r | r in st.resolver ensures r !in outs {
      assert cb.txid in [txs[0].txid];
    }
  }

  lemma {:induction false} TableOfBlock(u: Table, txs: seq<Tx>, known: Table, res: Table)
    requires txs != [] && Refs(txs[0]) == [NULL_REF] && NULL_REF !in u && NULL_REF.txid != txs[0].txid
    requires Spends(u, txs[1..], known) && Grown(known, res, txs[0])
    requires NoneOf(u, Txids(txs)) && NoDup(Txids(txs))
    requires forall r <- AllRefs(txs[1..]) :: r in known
    requires NoneOf(known, [txs[0].txid])
    ensures BlockSpends(u, txs, res)
  {
    var extra := CoinbaseOuts(txs[0], res);
    TxidsHead(txs);
    SpendsExtend(u, txs[1..], known, res);
    CoinbaseFirst(u, txs, res);
    RestLeaveCoinbase(txs[0], txs[1..], known, extra);
    SpendAllFrame(u, extra, txs[1..], res);
  }

  lemma {:induction false} CoinbaseFirst(u: Table, txs: seq<Tx>, res: Table)
    requires txs != [] && Refs(txs[0]) == [NULL_REF] && NULL_REF !in u && NULL_REF.txid != txs[0].txid
    requires NoneOf(u, Txids(txs)) && forall r | Creates(txs[0], r) :: r in res
    ensures SpendAll(u, txs, res) == SpendAll(u + CoinbaseOuts(txs[0], res), txs[1..], res)
    ensures forall r | Creates(txs[0], r) :: r !in u
  {
    assert Txids(txs)[0] == txs[0].txid;
    SpendCoinbase(u, txs[0], res);
  }

  lemma RestLeaveCoinbase(cb: Tx, rest: seq<Tx>, known: Table, extra: Table)
    requires forall r <- extra :: Creates(cb, r)
    requires cb.txid !in Txids(rest) && NoneOf(known, [cb.txid])
    requires forall r <- AllRefs(rest) :: r in known
    ensures forall tx <- rest :: Utxos.Untouched(extra, tx)
    ensures forall r <- AllRefs(rest) :: r.txid != cb.txid
  {
    assert cb.txid in [cb.txid];
    forall tx | tx in rest ensures Utxos.Untouched(extra, tx) {
      AllRefsHas(rest, tx);
      var i :| 0 <= i < |rest| && rest[i] == tx;
      assert Txids(rest)[i] == tx.txid;
    }
  }

  lemma {:induction false} AllRefsHas(txs: seq<Tx>, tx: Tx)
    requires tx in txs
    ensures forall r <- Refs(tx) :: r in AllRefs(txs)
    decreases |txs|
  {
    if tx != txs[0] {
      AllRefsHas(txs[1..], tx);
    }
  }

  /** The output table comes back exactly. */
  lemma UtxosRestored(u: Table, txs: seq<Tx>, res: Table)
    requires txs != [] && BlockSpends(u, txs, res) && NoDup(AllRefs(txs[1..]))
    ensures UndoUtxos(SpendAll(u, txs, res), txs, InputsOnly(res, txs)) == Some(u)
  {
    var extra := CoinbaseOuts(txs[0], res);
    UnspendAllRestores(u + extra, txs[1..], res, InputsOnly(res, txs));
    UnspendCoinbase(u, txs[0], res, UnspendAll(SpendAll(u, txs, res), txs[1..], InputsOnly(res, txs)).value.1);
  }

  lemma UnspendCoinbase(u: Table, cb: Tx, res: Table, rem: Table)
    requires forall r | Creates(cb, r) :: r in res && r !in u
    ensures Unspend(u + CoinbaseOuts(cb, res), cb, 0, rem) == Some((u, rem))
  {
    var outs := OutRefs(cb.txid, |cb.outputs|);
    var v := u + CoinbaseOuts(cb, res);
    RemoveAllIs(v, outs);
    OutRefsIff(cb);
    assert Without(v, outs) == u;
  }

  lemma OutRefsIff(tx: Tx)
    ensures forall r :: r in OutRefs(tx.txid, |tx.outputs|) <==> Creates(tx, r)
  {
    var outs := OutRefs(tx.txid, |tx.outputs|);
    forall r ensures r in outs <==> Creates(tx, r) {
      if Creates(tx, r) {
        assert outs[r.vout] == r;
      }
    }
  }

  // ----- dunes of a whole block -----

  /** Each transaction is reversible against the tables it found. */
  ghost predicate AllReversible(cfg: Config, height: nat, index: nat, txs: seq<Tx>, st: Stage)
    requires HaveInputs(txs)
    decreases |txs|
  {
    txs == []
    || (&& (cfg.firstDuneHeight <= height ==> Reversible(st.dunes, txs[0], index, height))
        && (Resolves(st, txs[0]) ==>
              AllReversible(cfg, height, index + 1, txs[1..], TxStep(cfg, height, index, txs[0], st).value)))
  }

  ghost predicate NoneEtchedFrom(d: DuneTables, height: nat, index: nat) {
    forall id <- d.terms :: id.block == height ==> id.tx < index
  }

  lemma DunePartKeeps(cfg: Config, height: nat, index: nat, tx: Tx, d: DuneTables, bodies: seq<TxoBody>)
    requires DuneInv(d) && NoneEtchedFrom(d, height, index) && height < U64
    ensures var r := DunePart(cfg, height, index, tx, d, bodies);
      DuneInv(r.tables) && NoneEtchedFrom(r.tables, height, index + 1)
  {
    if cfg.firstDuneHeight <= height {
      var un := Unallocated(map[], bodies);
      IndexKeepsInv(d, tx, index, height, cfg.minimumName(height), un);
      IndexEtchesHere(d, tx, index, height, cfg.minimumName(height), un);
    }
  }

  lemma DunePartUndoneIff(cfg: Config, height: nat, index: nat, tx: Tx, d: DuneTables, bodies: seq<TxoBody>)
    requires DuneInv(d) && NoneEtchedFrom(d, height, index)
    ensures var r := DunePart(cfg, height, index, tx, d, bodies);
      UndoDunes(r.tables, tx, index, height, r.recorded) == Some(d)
      <==> (cfg.firstDuneHeight <= height ==> Reversible(d, tx, index, height))
  {
    if height < cfg.firstDuneHeight {
      UndoNothing(d, tx, index, height);
    } else {
      UndoIff(d, tx, index, height, cfg.minimumName(height), Unallocated(map[], bodies));
    }
  }

  lemma DunePartOff(cfg: Config, height: nat, index: nat, tx: Tx, t: DuneTables, bodies: seq<TxoBody>, d: DuneTables)
    requires DuneInv(t) && NoneEtchedFrom(t, height, index)
    requires Off(d, DunePart(cfg, height, index, tx, t, bodies).tables)
    ensures var r := DunePart(cfg, height, index, tx, t, bodies);
      ExactOnly(UndoDunes(d, tx, index, height, r.recorded), t, d, r.tables)
  {
    if height < cfg.firstDuneHeight {
      UndoNothing(d, tx, index, height);
    } else {
      if tx.dunestone.Some? && tx.dunestone.value.etching.Some? {
        EtchFresh(t, tx.dunestone.value.etching.value, cfg.minimumName(height));
      }
      UndoOff(t, tx, index, height, cfg.minimumName(height), Unallocated(map[], bodies), d);
    }
  }

  lemma UndoNothing(d: DuneTables, tx: Tx, index: nat, height: nat)
    requires DuneId(height, index) !in d.terms
    ensures UndoDunes(d, tx, index, height, []) == Some(d)
  {
    if tx.dunestone.Some? {
      NoClaimsUndone(d.mints, Claims(tx.dunestone.value.edicts), 0);
    }
  }

  lemma {:induction false} IndexEtchesHere(d: DuneTables, tx: Tx, index: nat, height: nat, minimum: nat, un: Balances)
    ensures forall id <- IndexDunes(d, tx, index, height, minimum, un).tables.terms ::
      id in d.terms || id == DuneId(height, index)
  {
    if tx.dunestone.Some? {
      EtchesOnly(d, tx.dunestone.value, index, height, minimum,
                 StartPools(d, tx, tx.dunestone.value, index, height, minimum, un),
                 EndPools(d, tx, tx.dunestone.value, index, height, minimum, un));
    }
  }

  lemma EtchesOnly(d: DuneTables, stone: Dunestone, index: nat, height: nat, minimum: nat, start: Pools, end: Pools)
    ensures forall id <- TablesAfter(d, stone, index, height, minimum, start, end).terms ::
      id in d.terms || id == DuneId(height, index)
  {
  }

  /** Undoing the dune effects of the transactions, last first, never overshoots,
      and gives back the tables they started from exactly if every one of them
      was reversible. */
  lemma {:induction false} StepsDunesUndoneIff(cfg: Config, height: nat, index: nat, txs: seq<Tx>, st: Stage)
    requires HaveInputs(txs) && DuneInv(st.dunes) && NoneEtchedFrom(st.dunes, height, index) && height < U64
    requires Steps(cfg, height, index, txs, st).Some?
    ensures var s := Steps(cfg, height, index, txs, st).value;
      var u := UndoDuneList(s.dunes, height, index, txs, s.mints);
      && DuneInv(s.dunes)
      && (u.Some? ==> Off(u.value, st.dunes))
      && (u == Some(st.dunes) <==> AllReversible(cfg, height, index, txs, st))
    decreases |txs|
  {
    if txs != [] {
      var s1 := TxStep(cfg, height, index, txs[0], st).value;
      var bodies := Fetch(st.resolver, Refs(txs[0]));
      DunePartKeeps(cfg, height, index, txs[0], st.dunes, bodies);
      StepsDunesUndoneIff(cfg, height, index + 1, txs[1..], s1);
      HeadIff(cfg, height, index, txs, st.dunes, bodies, s1);
    }
  }

  /** The step of the induction: a transaction processed from `d` in front of
      transactions processed from the stage `s1` it left. */
  lemma {:induction false} HeadIff(
    cfg: Config, height: nat, index: nat, txs: seq<Tx>, d: DuneTables, bodies: seq<TxoBody>, s1: Stage)
    requires txs != [] && HaveInputs(txs) && NoneEtchedFrom(d, height, index) && DuneInv(d)
    requires var r := DunePart(cfg, height, index, txs[0], d, bodies);
      s1.dunes == r.tables && RecordedAt(s1.mints, index) == r.recorded
    requires Steps(cfg, height, index + 1, txs[1..], s1).Some?
    requires var s := Steps(cfg, height, index + 1, txs[1..], s1).value;
      var u := UndoDuneList(s.dunes, height, index + 1, txs[1..], s.mints);
      && (u.Some? ==> Off(u.value, s1.dunes))
      && (u == Some(s1.dunes) <==> AllReversible(cfg, height, index + 1, txs[1..], s1))
    ensures var s := Steps(cfg, height, index + 1, txs[1..], s1).value;
      var u := UndoDuneList(s.dunes, height, index, txs, s.mints);
      && (u.Some? ==> Off(u.value, d))
      && (u == Some(d)
          <==> (cfg.firstDuneHeight <= height ==> Reversible(d, txs[0], index, height))
               && AllReversible(cfg, height, index + 1, txs[1..], s1))
  {
    var s := Steps(cfg, height, index + 1, txs[1..], s1).value;
    StepsRecord(cfg, height, index + 1, txs[1..], s1, index);
    DunePartUndoneIff(cfg, height, index, txs[0], d, bodies);
    var u := UndoDuneList(s.dunes, height, index + 1, txs[1..], s.mints);
    if u.Some? {
      DunePartOff(cfg, height, index, txs[0], d, bodies, u.value);
    }
    UndoListHead(s.dunes, d, DunePart(cfg, height, index, txs[0], d, bodies), height, index, txs, s.mints,
                 cfg.firstDuneHeight <= height ==> Reversible(d, txs[0], index, height),
                 AllReversible(cfg, height, index + 1, txs[1..], s1));
  }

  /** One more transaction at the front of the list. */
  lemma UndoListHead(d: DuneTables, t: DuneTables, r: DuneResult, height: nat, index: nat, txs: seq<Tx>,
                     mints: map<nat, seq<nat>>, headOk: bool, tailOk: bool)
    requires txs != [] && RecordedAt(mints, index) == r.recorded
    requires UndoDunes(r.tables, txs[0], index, height, r.recorded) == Some(t) <==> headOk
    requires var u := UndoDuneList(d, height, index + 1, txs[1..], mints);
      && (u == Some(r.tables) <==> tailOk)
      && (u.Some? ==> ExactOnly(UndoDunes(u.value, txs[0], index, height, r.recorded), t, u.value, r.tables))
    ensures var u := UndoDuneList(d, height, index, txs, mints);
      (u.Some? ==> Off(u.value, t)) && (u == Some(t) <==> headOk && tailOk)
  {
  }

  lemma TxStepRecord(cfg: Config, height: nat, index: nat, tx: Tx, st: Stage, j: nat)
    requires tx.inputs != [] && Resolves(st, tx) && j < index
    ensures RecordedAt(TxStep(cfg, height, index, tx, st).value.mints, j) == RecordedAt(st.mints, j)
  {
  }

  /** Later transactions leave the records of earlier ones alone. */
  lemma {:induction false} StepsRecord(cfg: Config, height: nat, index: nat, txs: seq<Tx>, st: Stage, j: nat)
    requires HaveInputs(txs) && Steps(cfg, height, index, txs, st).Some? && j < index
    ensures RecordedAt(Steps(cfg, height, index, txs, st).value.mints, j) == RecordedAt(st.mints, j)
    decreases |txs|
  {
    hide DunePart, InscPart, OutBodies;
    if txs != [] {
      TxStepRecord(cfg, height, index, txs[0], st, j);
      StepsRecord(cfg, height, index + 1, txs[1..], TxStep(cfg, height, index, txs[0], st).value, j);
    }
  }

  // ----- messages and partials of a whole block -----

  lemma InscPartUndone(cfg: Config, height: nat, tx: Tx, refs: seq<TxoRef>, bodies: seq<TxoBody>, st: InscState)
    requires |refs| == |bodies| && tx.inputs != [] && NoStoredZero(st.drc)
    ensures var r := InscPart(cfg, height, tx, refs, bodies, st);
      NoStoredZero(r.state.drc) && UndoMessages(r.state.drc, r.messages) == st.drc
  {
    if cfg.firstInscriptionHeight <= height {
      TransactionUndone(cfg, height, tx, refs, bodies, st);
    }
  }

  lemma {:induction false} StepsMessagesUndone(cfg: Config, height: nat, index: nat, txs: seq<Tx>, st: Stage)
    returns (ms: seq<Message>)
    requires HaveInputs(txs) && NoStoredZero(st.insc.drc) && Steps(cfg, height, index, txs, st).Some?
    ensures var s := Steps(cfg, height, index, txs, st).value;
      NoStoredZero(s.insc.drc) && s.messages == st.messages + ms && UndoMessages(s.insc.drc, ms) == st.insc.drc
    decreases |txs|
  {
    if txs == [] {
      ms := [];
      assert st.messages + [] == st.messages;
    } else {
      var s1 := TxStep(cfg, height, index, txs[0], st).value;
      var refs := Refs(txs[0]);
      var i := InscPart(cfg, height, txs[0], refs, Fetch(st.resolver, refs), st.insc);
      InscPartUndone(cfg, height, txs[0], refs, Fetch(st.resolver, refs), st.insc);
      var later := StepsMessagesUndone(cfg, height, index + 1, txs[1..], s1);
      ms := i.messages + later;
      ConcatAssoc(st.messages, i.messages, later);
      var s := Steps(cfg, height, index + 1, txs[1..], s1).value;
      UndoMessagesConcat(s.insc.drc, i.messages, later);
    }
  }

  /** The partials differ at most at these transaction ids. */
  ghost predicate SameBut(p: Partials, q: Partials, ids: seq<Txid>) {
    && (forall k :: k !in ids ==> (k in p.chains <==> k in q.chains) && (k in p.chains ==> p.chains[k] == q.chains[k]))
    && (forall k :: k !in ids ==> (k in p.txs <==> k in q.txs) && (k in p.txs ==> p.txs[k] == q.txs[k]))
  }

  lemma InscPartPartials(cfg: Config, height: nat, tx: Tx, refs: seq<TxoRef>, bodies: seq<TxoBody>, st: InscState)
    requires |refs| == |bodies| && tx.inputs != []
    ensures SameBut(st.partials, InscPart(cfg, height, tx, refs, bodies, st).state.partials, [tx.txid])
  {
    if cfg.firstInscriptionHeight <= height {
      RevealPartials(st.partials, tx, Arrivals(cfg, height, tx, refs, bodies).floats);
    }
  }

  lemma RevealPartials(p: Partials, tx: Tx, floats: seq<Flotsam>)
    requires tx.inputs != []
    ensures SameBut(p, Reveal(p, tx, floats).partials, [tx.txid])
  {
    assert tx.txid in [tx.txid];
  }

  lemma {:induction false} StepsPartials(cfg: Config, height: nat, index: nat, txs: seq<Tx>, st: Stage)
    requires HaveInputs(txs) && Steps(cfg, height, index, txs, st).Some?
    ensures SameBut(st.insc.partials, Steps(cfg, height, index, txs, st).value.insc.partials, Txids(txs))
    decreases |txs|
  {
    if txs != [] {
      var s1 := TxStep(cfg, height, index, txs[0], st).value;
      var refs := Refs(txs[0]);
      InscPartPartials(cfg, height, txs[0], refs, Fetch(st.resolver, refs), st.insc);
      StepsPartials(cfg, height, index + 1, txs[1..], s1);
      TxidsHead(txs);
      SameButTrans(st.insc.partials, s1.insc.partials, Steps(cfg, height, index, txs, st).value.insc.partials,
                   [txs[0].txid], Txids(txs[1..]));
    }
  }

  lemma SameButTrans(p: Partials, q: Partials, r: Partials, a: seq<Txid>, b: seq<Txid>)
    requires SameBut(p, q, a) && SameBut(q, r, b)
    ensures SameBut(p, r, a + b)
  {
  }

  // ----- the whole block -----

  /** The blocks that a rollback takes back exactly: no unnamed etching past
      transaction 65535, every accepted claim with a positive limit and an edict
      that names an existing output, and no other claim in its slot. */
  ghost predicate BlockReversible(cfg: Config, height: nat, txs: seq<Tx>, t: Tables)
    requires txs != [] && HaveInputs(txs)
  {
    && (cfg.firstDuneHeight <= height ==> Reversible(t.dunes, txs[0], 0, height))
    && AllReversible(cfg, height, 1, txs[1..], FirstStage(cfg, height, txs, t))
  }

  lemma {:induction false} FromHeadIff(
    cfg: Config, height: nat, index: nat, txs: seq<Tx>, d: DuneTables, bodies: seq<TxoBody>, s1: Stage)
    requires txs != [] && HaveInputs(txs) && NoneEtchedFrom(d, height, index) && DuneInv(d) && height < U64
    requires var r := DunePart(cfg, height, index, txs[0], d, bodies);
      s1.dunes == r.tables && RecordedAt(s1.mints, index) == r.recorded
    requires Steps(cfg, height, index + 1, txs[1..], s1).Some?
    ensures var s := Steps(cfg, height, index + 1, txs[1..], s1).value;
      && DuneInv(s.dunes)
      && (UndoDuneList(s.dunes, height, index, txs, s.mints) == Some(d)
          <==> (cfg.firstDuneHeight <= height ==> Reversible(d, txs[0], index, height))
               && AllReversible(cfg, height, index + 1, txs[1..], s1))
  {
    DunePartKeeps(cfg, height, index, txs[0], d, bodies);
    StepsDunesUndoneIff(cfg, height, index + 1, txs[1..], s1);
    HeadIff(cfg, height, index, txs, d, bodies, s1);
  }

  lemma {:induction false} DunesRestoredIff(cfg: Config, height: nat, txs: seq<Tx>, t: Tables)
    requires txs != [] && HaveInputs(txs) && NoneEtchedFrom(t.dunes, height, 0) && DuneInv(t.dunes) && height < U64
    requires Steps(cfg, height, 1, txs[1..], FirstStage(cfg, height, txs, t)).Some?
    ensures var s := Steps(cfg, height, 1, txs[1..], FirstStage(cfg, height, txs, t)).value;
      && DuneInv(s.dunes)
      && (UndoDuneList(s.dunes, height, 0, txs, s.mints) == Some(t.dunes) <==> BlockReversible(cfg, height, txs, t))
  {
    hide DunePart, InscPart, Steps, External, Reversible, UndoDuneList;
    FromHeadIff(cfg, height, 0, txs, t.dunes, [], FirstStage(cfg, height, txs, t));
  }

  lemma {:induction false} MessagesRestored(cfg: Config, height: nat, txs: seq<Tx>, t: Tables)
    requires txs != [] && HaveInputs(txs) && NoStoredZero(t.drc) && Staged(cfg, height, txs, t).Some?
    ensures var st := Staged(cfg, height, txs, t).value;
      NoStoredZero(st.insc.drc) && UndoMessages(st.insc.drc, st.messages) == t.drc
  {
    var first := FirstStage(cfg, height, txs, t);
    var s := Steps(cfg, height, 1, txs[1..], first).value;
    var ms := StepsMessagesUndone(cfg, height, 1, txs[1..], first);
    InscPartUndone(cfg, height, txs[0], [], [], s.insc);
    var i := InscPart(cfg, height, txs[0], [], [], s.insc);
    assert s.messages == ms;
    UndoMessagesConcat(i.state.drc, ms, i.messages);
  }

  lemma {:induction false} PartialsRestored(cfg: Config, height: nat, txs: seq<Tx>, t: Tables)
    requires txs != [] && HaveInputs(txs) && NewTxids(t, txs) && Staged(cfg, height, txs, t).Some?
    ensures ForgetPartials(Staged(cfg, height, txs, t).value.insc.partials, txs) == t.partials
  {
    var first := FirstStage(cfg, height, txs, t);
    var s := Steps(cfg, height, 1, txs[1..], first).value;
    var last := LastStage(cfg, height, txs, t, s);
    StepsPartials(cfg, height, 1, txs[1..], first);
    InscPartPartials(cfg, height, txs[0], [], [], s.insc);
    SameButTrans(t.partials, s.insc.partials, last.insc.partials, Txids(txs[1..]), [txs[0].txid]);
    TxidsHead(txs);
    SameButMembers(t.partials, last.insc.partials, Txids(txs[1..]) + [txs[0].txid], Txids(txs));
    ForgetIsBack(t.partials, last.insc.partials, txs);
  }

  lemma ForgetIsBack(p: Partials, q: Partials, txs: seq<Tx>)
    requires SameBut(p, q, Txids(txs))
    requires forall id <- p.chains :: id !in Txids(txs)
    requires forall id <- p.txs :: id !in Txids(txs)
    ensures ForgetPartials(q, txs) == p
  {
    var ids := set i | 0 <= i < |txs| :: txs[i].txid;
    forall k ensures k in ids <==> k in Txids(txs) {
      if k in Txids(txs) {
        var i :| 0 <= i < |txs| && Txids(txs)[i] == k;
      }
    }
    assert q.chains - ids == p.chains;
    assert q.txs - ids == p.txs;
  }

  lemma SameButMembers(p: Partials, q: Partials, a: seq<Txid>, b: seq<Txid>)
    requires SameBut(p, q, a) && forall k <- a :: k in b
    ensures SameBut(p, q, b)
  {
  }

  /** A block is undone exactly, table by table, if and only if it is reversible. */
  lemma {:induction false} UndoBlockIff(cfg: Config, height: nat, block: Block, t: Tables)
    requires WellFormed(t, height, block.txs) && DuneInv(t.dunes) && NoStoredZero(t.drc) && height < U64
    requires Apply(cfg, height, block, t).Some?
    ensures var (t', entry) := Apply(cfg, height, block, t).value;
      && DuneInv(t'.dunes) && NoStoredZero(t'.drc)
      && (Undo(height, block, entry, t') == Some(t) <==> BlockReversible(cfg, height, block.txs, t))
  {
    var txs := block.txs;
    StagedSpends(cfg, height, txs, t);
    UtxosRestored(t.utxos, txs, Staged(cfg, height, txs, t).value.resolver);
    DunesRestoredIff(cfg, height, txs, t);
    MessagesRestored(cfg, height, txs, t);
    PartialsRestored(cfg, height, txs, t);
  }

  // ----- undoing from tables that are off -----

  /** Equal to `b` except that the dune tables may be off: some mint counts too low
      or the reserved counter too high. */
  ghost predicate Shadows(a: Tables, b: Tables) {
    && a.utxos == b.utxos && a.partials == b.partials && a.drc == b.drc && a.counters == b.counters
    && Off(a.dunes, b.dunes)
  }

  lemma {:induction false} StepsDunesOff(cfg: Config, height: nat, index: nat, txs: seq<Tx>, st: Stage, d: DuneTables)
    requires HaveInputs(txs) && DuneInv(st.dunes) && NoneEtchedFrom(st.dunes, height, index) && height < U64
    requires Steps(cfg, height, index, txs, st).Some? && Off(d, Steps(cfg, height, index, txs, st).value.dunes)
    ensures var u := UndoDuneList(d, height, index, txs, Steps(cfg, height, index, txs, st).value.mints);
      u.Some? ==> Off(u.value, st.dunes)
    decreases |txs|
  {
    hide DunePart, InscPart, Off, DuneInv, UndoDunes;
    if txs != [] {
      var s1 := TxStep(cfg, height, index, txs[0], st).value;
      var bodies := Fetch(st.resolver, Refs(txs[0]));
      DunePartKeeps(cfg, height, index, txs[0], st.dunes, bodies);
      StepsDunesOff(cfg, height, index + 1, txs[1..], s1, d);
      HeadOff(cfg, height, index, txs, st.dunes, bodies, s1, d);
    }
  }

  lemma {:induction false} HeadOff(
    cfg: Config, height: nat, index: nat, txs: seq<Tx>, t: DuneTables, bodies: seq<TxoBody>, s1: Stage, d: DuneTables)
    requires txs != [] && HaveInputs(txs) && NoneEtchedFrom(t, height, index) && DuneInv(t)
    requires var r := DunePart(cfg, height, index, txs[0], t, bodies);
      s1.dunes == r.tables && RecordedAt(s1.mints, index) == r.recorded
    requires Steps(cfg, height, index + 1, txs[1..], s1).Some?
    requires var u := UndoDuneList(d, height, index + 1, txs[1..],
                                   Steps(cfg, height, index + 1, txs[1..], s1).value.mints);
      u.Some? ==> Off(u.value, s1.dunes)
    ensures var u := UndoDuneList(d, height, index, txs, Steps(cfg, height, index + 1, txs[1..], s1).value.mints);
      u.Some? ==> Off(u.value, t)
  {
    hide DunePart, Off, DuneInv, UndoDunes, Steps;
    var s := Steps(cfg, height, index + 1, txs[1..], s1).value;
    StepsRecord(cfg, height, index + 1, txs[1..], s1, index);
    var u := UndoDuneList(d, height, index + 1, txs[1..], s.mints);
    if u.Some? {
      DunePartOff(cfg, height, index, txs[0], t, bodies, u.value);
    }
  }

  lemma {:induction false} BlockDunesOff(
    cfg: Config, height: nat, index: nat, txs: seq<Tx>, t: DuneTables, bodies: seq<TxoBody>, s1: Stage, d: DuneTables)
    requires txs != [] && HaveInputs(txs) && NoneEtchedFrom(t, height, index) && DuneInv(t) && height < U64
    requires var r := DunePart(cfg, height, index, txs[0], t, bodies);
      s1.dunes == r.tables && RecordedAt(s1.mints, index) == r.recorded
    requires Steps(cfg, height, index + 1, txs[1..], s1).Some?
    requires Off(d, Steps(cfg, height, index + 1, txs[1..], s1).value.dunes)
    ensures var u := UndoDuneList(d, height, index, txs, Steps(cfg, height, index + 1, txs[1..], s1).value.mints);
      u.Some? ==> Off(u.value, t)
  {
    hide DunePart, Off, DuneInv, UndoDunes, Steps, UndoDuneList;
    DunePartKeeps(cfg, height, index, txs[0], t, bodies);
    StepsDunesOff(cfg, height, index + 1, txs[1..], s1, d);
    HeadOff(cfg, height, index, txs, t, bodies, s1, d);
  }

  lemma {:induction false} DunesOff(cfg: Config, height: nat, txs: seq<Tx>, t: Tables, d: DuneTables)
    requires txs != [] && HaveInputs(txs) && NoneEtchedFrom(t.dunes, height, 0) && DuneInv(t.dunes) && height < U64
    requires Steps(cfg, height, 1, txs[1..], FirstStage(cfg, height, txs, t)).Some?
    requires Off(d, Steps(cfg, height, 1, txs[1..], FirstStage(cfg, height, txs, t)).value.dunes)
    ensures var u := UndoDuneList(d, height, 0, txs,
                                  Steps(cfg, height, 1, txs[1..], FirstStage(cfg, height, txs, t)).value.mints);
      u.Some? ==> Off(u.value, t.dunes)
  {
    hide DunePart, InscPart, Steps, External, UndoDuneList, Off;
    BlockDunesOff(cfg, height, 0, txs, t.dunes, [], FirstStage(cfg, height, txs, t), d);
  }

  /** Undoing any block, from tables that are exact or off, restores everything but
      possibly the dune tables, and leaves those at most off. */
  lemma {:induction false} UndoBlockOff(cfg: Config, height: nat, block: Block, t: Tables, a: Tables)
    requires WellFormed(t, height, block.txs) && DuneInv(t.dunes) && NoStoredZero(t.drc) && height < U64
    requires Apply(cfg, height, block, t).Some? && Shadows(a, Apply(cfg, height, block, t).value.0)
    ensures var u := Undo(height, block, Apply(cfg, height, block, t).value.1, a);
      u.Some? ==> Shadows(u.value, t)
  {
    var txs := block.txs;
    StagedSpends(cfg, height, txs, t);
    UtxosRestored(t.utxos, txs, Staged(cfg, height, txs, t).value.resolver);
    MessagesRestored(cfg, height, txs, t);
    PartialsRestored(cfg, height, txs, t);
    LastKeepsDunes(cfg, height, txs, t);
    DunesOff(cfg, height, txs, t, a.dunes);
    hide DunePart, InscPart, Steps, External, Off, FirstStage, DuneInv;
    hide UndoDuneList, UndoUtxos, ForgetPartials, UndoMessages, LastStage, SpendAll, InputsOnly;
  }

  lemma LastKeepsDunes(cfg: Config, height: nat, txs: seq<Tx>, t: Tables)
    requires txs != [] && HaveInputs(txs) && Staged(cfg, height, txs, t).Some?
    ensures var st := Staged(cfg, height, txs, t).value;
      var s := Steps(cfg, height, 1, txs[1..], FirstStage(cfg, height, txs, t));
      s.Some? && st.dunes == s.value.dunes && st.mints == s.value.mints
  {
    hide DunePart, InscPart, Steps, FirstStage;
  }

  lemma OffTrans(a: DuneTables, b: DuneTables, c: DuneTables)
    requires Off(a, b) && Off(b, c)
    ensures Off(a, c)
  {
    forall key ensures Get(a.mints, key) <= Get(c.mints, key) {
      assert Get(a.mints, key) <= Get(b.mints, key);
    }
  }

  /** Tables that are off are still consistent. */
  lemma OffKeepsInv(d: DuneTables, t: DuneTables)
    requires Off(d, t) && DuneInv(t)
    ensures DuneInv(d)
  {
    forall id | id in d.mints ensures id in t.terms && d.mints[id] <= Cap(t.terms[id]) {
      assert Get(d.mints, id) <= Get(t.mints, id);
    }
  }

  // ----- where a block etches -----

  ghost predicate EtchesAt(d: DuneTables, e: DuneTables, height: nat) {
    forall id <- e.terms :: id in d.terms || id.block == height
  }

  lemma PartEtches(cfg: Config, height: nat, index: nat, tx: Tx, d: DuneTables, bodies: seq<TxoBody>)
    ensures EtchesAt(d, DunePart(cfg, height, index, tx, d, bodies).tables, height)
  {
    if cfg.firstDuneHeight <= height {
      IndexEtchesHere(d, tx, index, height, cfg.minimumName(height), Unallocated(map[], bodies));
    }
  }

  lemma {:induction false} StepsEtch(cfg: Config, height: nat, index: nat, txs: seq<Tx>, st: Stage)
    requires HaveInputs(txs) && Steps(cfg, height, index, txs, st).Some?
    ensures EtchesAt(st.dunes, Steps(cfg, height, index, txs, st).value.dunes, height)
    decreases |txs|
  {
    hide DunePart, InscPart, OutBodies;
    if txs != [] {
      var s := TxStep(cfg, height, index, txs[0], st).value;
      PartEtches(cfg, height, index, txs[0], st.dunes, Fetch(st.resolver, Refs(txs[0])));
      StepsEtch(cfg, height, index + 1, txs[1..], s);
    }
  }

  /** A block etches at its own height only. */
  lemma {:induction false} BlockEtches(cfg: Config, height: nat, block: Block, t: Tables)
    requires block.txs != [] && HaveInputs(block.txs) && Apply(cfg, height, block, t).Some?
    ensures EtchesAt(t.dunes, Apply(cfg, height, block, t).value.0.dunes, height)
  {
    hide DunePart, InscPart, Steps, External, SpendAll, InputsOnly;
    var first := FirstStage(cfg, height, block.txs, t);
    PartEtches(cfg, height, 0, block.txs[0], t.dunes, []);
    StepsEtch(cfg, height, 1, block.txs[1..], first);
  }
}
