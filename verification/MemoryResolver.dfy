/** Resolving inputs through the in-memory output map. Rollbacks never touch the
    map and failed blocks leave it changed, yet it never changes a result. */
module MemoryResolver {
  import opened Prelude
  import opened ChainTypes
  import opened Inscriptions
  import opened Utxos
  import opened BlockApply
  import opened BlockLaws
  import opened Chain
  import opened ChainRuns
  import opened Conservation

  type Memory = Table

  // ----- processing a block with the map -----

  predicate IsExternal(txs: seq<Tx>, r: TxoRef)
    requires txs != []
  {
    r in AllRefs(txs[1..]) && r.txid !in Txids(txs)
  }

  /** The map is asked first, then the database. */
  function ExternalMem(u: Table, mem: Memory, txs: seq<Tx>): Table
    requires txs != []
  {
    map r | r in AllRefs(txs[1..]) && r.txid !in Txids(txs) && (r in mem || r in u) :: if r in mem then mem[r] else u[r]
  }

  /** What is found in the map is taken out of it. */
  function Fetched(mem: Memory, txs: seq<Tx>): Memory
    requires txs != []
  {
    map r | r in mem && !(r in AllRefs(txs[1..]) && r.txid !in Txids(txs)) :: mem[r]
  }

  function MemTx(mem: Memory, tx: Tx, outs: seq<TxoBody>): Memory
    requires |outs| == |tx.outputs|
  {
    AddAll(RemoveAll(mem, Refs(tx)), OutRefs(tx.txid, |tx.outputs|), outs)
  }

  function FirstMissing(res: Table, refs: seq<TxoRef>): (k: nat)
    ensures k <= |refs|
  {
    if refs == [] || refs[0] !in res then 0 else 1 + FirstMissing(res, refs[1..])
  }

  /** The map when an input is missing: the indexers notice it before any removal,
      the plain loop only after removing the inputs in front of it. */
  function MemMissing(cfg: Config, height: nat, mem: Memory, tx: Tx, res: Table): Memory {
    if height < cfg.firstDuneHeight && height < cfg.firstInscriptionHeight
    then RemoveAll(mem, Refs(tx)[..FirstMissing(res, Refs(tx))]) else mem
  }

  /** Processes at most `limit` transactions; a smaller limit is a failure of the
      underlying store part of the way through. */
  function StepsMem(
    cfg: Config, height: nat, index: nat, txs: seq<Tx>, st: Stage, mem: Memory, limit: nat): (Option<Stage>, Memory)
    requires HaveInputs(txs)
    decreases |txs|
  {
    if txs == [] then (Some(st), mem)
    else if limit == 0 then (None, mem)
    else
      match TxStep(cfg, height, index, txs[0], st)
      case None => (None, MemMissing(cfg, height, mem, txs[0], st.resolver))
      case Some(s) =>
        StepsMem(cfg, height, index + 1, txs[1..], s, MemTx(mem, txs[0], OutBodies(cfg, height, index, txs[0], st)),
                 limit - 1)
  }

  function FirstStageMem(cfg: Config, height: nat, txs: seq<Tx>, t: Tables, mem: Memory): Stage
    requires txs != []
  {
    FirstStage(cfg, height, txs, t).(resolver := ExternalMem(t.utxos, mem, txs))
  }

  function CoinbaseBodies(res: Table, cb: Tx): (r: seq<TxoBody>)
    ensures |r| == |cb.outputs|
  {
    Fetch(res, OutRefs(cb.txid, |cb.outputs|))
  }

  function ApplyMem(
    cfg: Config, height: nat, block: Block, t: Tables, mem: Memory, limit: nat): (Option<(Tables, Entry)>, Memory)
    requires block.txs != [] && HaveInputs(block.txs)
  {
    var txs := block.txs;
    var (s, m) := StepsMem(cfg, height, 1, txs[1..], FirstStageMem(cfg, height, txs, t, mem), Fetched(mem, txs), limit);
    if s.None? then (None, m)
    else
      var st := LastStage(cfg, height, txs, t, s.value);
      var m' := AddAll(m, OutRefs(txs[0].txid, |txs[0].outputs|), CoinbaseBodies(st.resolver, txs[0]));
      if limit <= |txs| then (None, m')
      else
        (Some((Tables(SpendAll(t.utxos, txs, st.resolver), st.dunes, st.insc.partials, st.insc.drc, st.insc.counters),
               Entry(block.hash, InputsOnly(st.resolver, txs), st.mints, t.counters, st.messages))), m')
  }

  // ----- the invariant -----

  /** What the map knows agrees with every live output and with every output that
      a rollback could bring back. */
  ghost predicate Agrees(u: Table, entries: map<nat, Entry>, mem: Memory) {
    && (forall r <- mem :: r in u ==> mem[r] == u[r])
    && (forall h, r | h in entries && r in entries[h].resolver && r in mem :: mem[r] == entries[h].resolver[r])
  }

  /** The block's transactions are new to the chain, not only to the live outputs. */
  ghost predicate NewToChain(entries: map<nat, Entry>, txs: seq<Tx>) {
    forall h, r | h in entries && r in entries[h].resolver :: r.txid !in Txids(txs)
  }

  ghost predicate InputsLive(u: Table, txs: seq<Tx>)
    requires txs != []
  {
    forall r | IsExternal(txs, r) :: r in u
  }

  /** The map and the database resolve alike exactly if nothing stale is asked for. */
  lemma ResolveIff(u: Table, mem: Memory, txs: seq<Tx>)
    requires txs != []
    ensures ExternalMem(u, mem, txs) == External(u, txs)
       <==> forall r | IsExternal(txs, r) && r in mem :: r in u && u[r] == mem[r]
  {
    var a, b := ExternalMem(u, mem, txs), External(u, txs);
    if a == b {
      forall r | IsExternal(txs, r) && r in mem ensures r in u && u[r] == mem[r] {
        assert r in a;
        assert r in b;
      }
    } else if forall r | IsExternal(txs, r) && r in mem :: r in u && u[r] == mem[r] {
      assert forall r :: r in a <==> r in b;
      assert forall r <- a :: a[r] == b[r];
    }
  }

  lemma {:induction false} StepsMemSame(
    cfg: Config, height: nat, index: nat, txs: seq<Tx>, st: Stage, mem: Memory, limit: nat)
    requires HaveInputs(txs) && |txs| <= limit
    ensures StepsMem(cfg, height, index, txs, st, mem, limit).0 == Steps(cfg, height, index, txs, st)
    decreases |txs|
  {
    hide TxStep, OutBodies, MemTx, MemMissing;
    if txs != [] && TxStep(cfg, height, index, txs[0], st).Some? {
      StepsMemSame(cfg, height, index + 1, txs[1..], TxStep(cfg, height, index, txs[0], st).value,
                   MemTx(mem, txs[0], OutBodies(cfg, height, index, txs[0], st)), limit - 1);
    }
  }

  /** With the map enabled a block has the same outcome as without it. */
  lemma {:induction false} ApplyMemSame(
    cfg: Config, height: nat, block: Block, t: Tables, entries: map<nat, Entry>, mem: Memory, limit: nat)
    requires block.txs != [] && HaveInputs(block.txs) && |block.txs| < limit
    requires Agrees(t.utxos, entries, mem) && InputsLive(t.utxos, block.txs)
    ensures ApplyMem(cfg, height, block, t, mem, limit).0 == Apply(cfg, height, block, t)
  {
    hide Steps, StepsMem, LastStage, External, ExternalMem, Fetched, AddAll, SpendAll, InputsOnly, DunePart;
    var txs := block.txs;
    ResolveIff(t.utxos, mem, txs);
    assert FirstStageMem(cfg, height, txs, t, mem) == FirstStage(cfg, height, txs, t);
    StepsMemSame(cfg, height, 1, txs[1..], FirstStage(cfg, height, txs, t), Fetched(mem, txs), limit);
  }

  // ----- what happens to the map -----

  /** Nothing but outputs of these transactions is added. */
  ghost predicate OnlyAdds(mem: Memory, next: Memory, txs: seq<Tx>) {
    forall r <- next :: (r in mem && next[r] == mem[r]) || r.txid in Txids(txs)
  }

  ghost predicate CreatedBy(txs: seq<Tx>, r: TxoRef) {
    exists tx <- txs :: Creates(tx, r)
  }

  lemma CreatedHead(txs: seq<Tx>, r: TxoRef)
    requires txs != []
    ensures CreatedBy(txs, r) <==> Creates(txs[0], r) || CreatedBy(txs[1..], r)
    ensures CreatedBy(txs, r) ==> r.txid in Txids(txs)
  {
    assert txs == [txs[0]] + txs[1..];
    if tx :| tx in txs && Creates(tx, r) {
      var i :| 0 <= i < |txs| && txs[i] == tx;
      assert Txids(txs)[i] == r.txid;
    }
  }

  /** Spent outputs are gone; what is added is what the resolver holds. */
  ghost predicate Refreshed(mem: Memory, next: Memory, txs: seq<Tx>, refs: seq<TxoRef>, res: Table) {
    forall r <- next ::
      || (r in mem && next[r] == mem[r] && r !in refs && !CreatedBy(txs, r))
      || (r.txid in Txids(txs) && r in res && next[r] == res[r])
  }

  lemma MemTxIs(mem: Memory, tx: Tx, outs: seq<TxoBody>)
    requires |outs| == |tx.outputs|
    ensures forall r <- MemTx(mem, tx, outs) ::
      (r in mem && MemTx(mem, tx, outs)[r] == mem[r] && r !in Refs(tx) && !Creates(tx, r))
      || (Creates(tx, r) && MemTx(mem, tx, outs)[r] == outs[r.vout])
  {
    var refs := OutRefs(tx.txid, |tx.outputs|);
    var less := RemoveAll(mem, Refs(tx));
    RemoveAllIs(mem, Refs(tx));
    AddAllIs(less, refs, outs);
    OutRefsIff(tx);
    forall r | Creates(tx, r) ensures refs[r.vout] == r {
    }
  }

  lemma MissingAdds(cfg: Config, height: nat, mem: Memory, tx: Tx, res: Table)
    ensures OnlyAdds(mem, MemMissing(cfg, height, mem, tx, res), [tx])
  {
    RemoveAllIs(mem, Refs(tx)[..FirstMissing(res, Refs(tx))]);
  }

  lemma MemTxAdds(mem: Memory, tx: Tx, outs: seq<TxoBody>)
    requires |outs| == |tx.outputs|
    ensures OnlyAdds(mem, MemTx(mem, tx, outs), [tx])
  {
    hide MemTx;
    MemTxIs(mem, tx, outs);
    assert Txids([tx])[0] == tx.txid;
  }

  lemma OnlyAddsTrans(a: Memory, b: Memory, c: Memory, txs: seq<Tx>)
    requires txs != [] && OnlyAdds(a, b, [txs[0]]) && OnlyAdds(b, c, txs[1..])
    ensures OnlyAdds(a, c, txs)
  {
    TxidsHead(txs);
  }

  lemma OnlyAddsRefl(a: Memory, txs: seq<Tx>)
    ensures OnlyAdds(a, a, txs)
  {
  }

  lemma {:induction false} StepsMemAdds(
    cfg: Config, height: nat, index: nat, txs: seq<Tx>, st: Stage, mem: Memory, limit: nat)
    requires HaveInputs(txs)
    ensures OnlyAdds(mem, StepsMem(cfg, height, index, txs, st, mem, limit).1, txs)
    decreases |txs|
  {
    hide TxStep, OutBodies, MemTx, MemMissing, OnlyAdds;
    var end := StepsMem(cfg, height, index, txs, st, mem, limit).1;
    if txs == [] || limit == 0 {
      OnlyAddsRefl(mem, txs);
    } else if TxStep(cfg, height, index, txs[0], st).None? {
      MissingAdds(cfg, height, mem, txs[0], st.resolver);
      OnlyAddsRefl(end, txs[1..]);
      OnlyAddsTrans(mem, end, end, txs);
    } else {
      var m := MemTx(mem, txs[0], OutBodies(cfg, height, index, txs[0], st));
      MemTxAdds(mem, txs[0], OutBodies(cfg, height, index, txs[0], st));
      StepsMemAdds(cfg, height, index + 1, txs[1..], TxStep(cfg, height, index, txs[0], st).value, m, limit - 1);
      OnlyAddsTrans(mem, m, end, txs);
    }
  }

  lemma {:induction false} StepsMemRefreshes(
    cfg: Config, height: nat, index: nat, txs: seq<Tx>, st: Stage, mem: Memory, limit: nat)
    requires HaveInputs(txs) && NoneOf(st.resolver, Txids(txs)) && NoDup(Txids(txs))
    requires StepsMem(cfg, height, index, txs, st, mem, limit).0.Some?
    requires Steps(cfg, height, index, txs, st) == StepsMem(cfg, height, index, txs, st, mem, limit).0
    ensures var res := Steps(cfg, height, index, txs, st).value.resolver;
      Refreshed(mem, StepsMem(cfg, height, index, txs, st, mem, limit).1, txs, AllRefs(txs), res)
    decreases |txs|
  {
    hide TxStep, OutBodies, MemTx, MemMissing, Resolves;
    if txs != [] {
      var tx := txs[0];
      var s := TxStep(cfg, height, index, tx, st).value;
      var outs := OutBodies(cfg, height, index, tx, st);
      var m := MemTx(mem, tx, outs);
      StepResolves(cfg, height, index, tx, st);
      StepLeaves(cfg, height, index, txs, st);
      StepsExtend(cfg, height, index + 1, txs[1..], s);
      FetchStep(cfg, height, index, tx, st, s.resolver);
      StepsMemRefreshes(cfg, height, index + 1, txs[1..], s, m, limit - 1);
      hide Steps, StepsMem;
      CreatedAre(tx, s.resolver, outs);
      MemTxIs(mem, tx, outs);
      StepGrows(cfg, height, index, tx, st);
      RefreshedHead(mem, m, StepsMem(cfg, height, index, txs, st, mem, limit).1, txs, s.resolver,
                    Steps(cfg, height, index, txs, st).value.resolver, outs);
    }
  }

  lemma StepResolves(cfg: Config, height: nat, index: nat, tx: Tx, st: Stage)
    requires tx.inputs != []
    ensures TxStep(cfg, height, index, tx, st).Some? ==> Resolves(st, tx)
  {
  }

  lemma StepGrows(cfg: Config, height: nat, index: nat, tx: Tx, st: Stage)
    requires tx.inputs != [] && Resolves(st, tx) && NoneOf(st.resolver, [tx.txid])
    ensures forall r | Creates(tx, r) :: r in TxStep(cfg, height, index, tx, st).value.resolver
  {
    hide OutBodies, DunePart, InscPart;
    forall r | r in st.resolver ensures r.txid != tx.txid {
      assert tx.txid in [tx.txid];
    }
    StageExtends(cfg, height, index, tx, st);
  }

  lemma CreatedAre(tx: Tx, res: Table, outs: seq<TxoBody>)
    requires Fetch(res, OutRefs(tx.txid, |tx.outputs|)) == outs
    ensures forall r | Creates(tx, r) :: outs[r.vout] == Lookup(res, r)
  {
    var refs := OutRefs(tx.txid, |tx.outputs|);
    forall r | Creates(tx, r) ensures outs[r.vout] == Lookup(res, r) {
      assert refs[r.vout] == r;
    }
  }

  lemma RefreshedHead(mem: Memory, m: Memory, next: Memory, txs: seq<Tx>, known: Table, res: Table, outs: seq<TxoBody>)
    requires txs != [] && |outs| == |txs[0].outputs|
    requires forall r <- m ::
               (r in mem && m[r] == mem[r] && r !in Refs(txs[0]) && !Creates(txs[0], r))
               || (Creates(txs[0], r) && m[r] == outs[r.vout])
    requires forall r | Creates(txs[0], r) :: r in known && outs[r.vout] == Lookup(known, r)
    requires Extends(res, known)
    requires Refreshed(m, next, txs[1..], AllRefs(txs[1..]), res)
    ensures Refreshed(mem, next, txs, AllRefs(txs), res)
  {
    TxidsHead(txs);
    forall r ensures CreatedBy(txs, r) <==> Creates(txs[0], r) || CreatedBy(txs[1..], r) {
      CreatedHead(txs, r);
    }
    hide CreatedBy;
  }

  // ----- a whole block -----

  lemma {:induction false} ApplyMemAdds(cfg: Config, height: nat, block: Block, t: Tables, mem: Memory, limit: nat)
    requires block.txs != [] && HaveInputs(block.txs)
    ensures OnlyAdds(mem, ApplyMem(cfg, height, block, t, mem, limit).1, block.txs)
  {
    hide StepsMem, LastStage, SpendAll, InputsOnly, FirstStage;
    var txs := block.txs;
    var first := FirstStageMem(cfg, height, txs, t, mem);
    var (s, m) := StepsMem(cfg, height, 1, txs[1..], first, Fetched(mem, txs), limit);
    StepsMemAdds(cfg, height, 1, txs[1..], first, Fetched(mem, txs), limit);
    TxidsHead(txs);
    if s.Some? {
      var res := LastStage(cfg, height, txs, t, s.value).resolver;
      CoinbaseInserted(m, txs[0], CoinbaseBodies(res, txs[0]));
    }
  }

  lemma CoinbaseInserted(m: Memory, cb: Tx, outs: seq<TxoBody>)
    requires |outs| == |cb.outputs|
    ensures var next := AddAll(m, OutRefs(cb.txid, |cb.outputs|), outs);
      forall r <- next :: (r in m && next[r] == m[r] && !Creates(cb, r)) || (Creates(cb, r) && next[r] == outs[r.vout])
  {
    var refs := OutRefs(cb.txid, |cb.outputs|);
    AddAllIs(m, refs, outs);
    OutRefsIff(cb);
    forall r | Creates(cb, r) ensures refs[r.vout] == r {
    }
  }

  lemma {:induction false} ApplyMemRefreshes(
    cfg: Config, height: nat, block: Block, t: Tables, entries: map<nat, Entry>, mem: Memory, limit: nat)
    requires WellFormed(t, height, block.txs) && |block.txs| < limit
    requires Agrees(t.utxos, entries, mem) && InputsLive(t.utxos, block.txs)
    requires Apply(cfg, height, block, t).Some?
    ensures Refreshed(mem, ApplyMem(cfg, height, block, t, mem, limit).1, block.txs, AllRefs(block.txs[1..]),
                      Staged(cfg, height, block.txs, t).value.resolver)
  {
    hide StepsMem, Steps, LastStage, SpendAll, InputsOnly, External, ExternalMem, DunePart, Agrees;
    var txs := block.txs;
    var first := FirstStage(cfg, height, txs, t);
    ApplyMemSame(cfg, height, block, t, entries, mem, limit);
    AgreeResolve(t.utxos, entries, mem, txs);
    assert FirstStageMem(cfg, height, txs, t, mem) == first;
    FirstReady(cfg, height, txs, t);
    TxidsHead(txs);
    StepsMemSame(cfg, height, 1, txs[1..], first, Fetched(mem, txs), limit);
    StepsMemRefreshes(cfg, height, 1, txs[1..], first, Fetched(mem, txs), limit);
    var st := Steps(cfg, height, 1, txs[1..], first).value;
    StepsExtend(cfg, height, 1, txs[1..], first);
    LastGrows(cfg, height, txs, t, st);
    var res := LastStage(cfg, height, txs, t, st).resolver;
    CreatedAre(txs[0], res, CoinbaseBodies(res, txs[0]));
    var m := StepsMem(cfg, height, 1, txs[1..], first, Fetched(mem, txs), limit).1;
    CoinbaseInserted(m, txs[0], CoinbaseBodies(res, txs[0]));
    BlockRefreshed(mem, m, AddAll(m, OutRefs(txs[0].txid, |txs[0].outputs|), CoinbaseBodies(res, txs[0])), txs,
                   st.resolver, res);
  }

  lemma AgreeResolve(u: Table, entries: map<nat, Entry>, mem: Memory, txs: seq<Tx>)
    requires txs != [] && Agrees(u, entries, mem) && InputsLive(u, txs)
    ensures ExternalMem(u, mem, txs) == External(u, txs)
  {
    ResolveIff(u, mem, txs);
  }

  lemma BlockRefreshed(mem: Memory, m: Memory, next: Memory, txs: seq<Tx>, known: Table, res: Table)
    requires txs != [] && Extends(res, known)
    requires Refreshed(Fetched(mem, txs), m, txs[1..], AllRefs(txs[1..]), known)
    requires forall r | Creates(txs[0], r) :: r in res
    requires forall r <- next ::
               (r in m && next[r] == m[r] && !Creates(txs[0], r))
               || (Creates(txs[0], r) && next[r] == Lookup(res, r))
    ensures Refreshed(mem, next, txs, AllRefs(txs[1..]), res)
  {
    TxidsHead(txs);
    forall r ensures CreatedBy(txs, r) <==> Creates(txs[0], r) || CreatedBy(txs[1..], r) {
      CreatedHead(txs, r);
    }
    hide CreatedBy;
  }

  // ----- the map stays in agreement -----

  /** A failed or interrupted block leaves the map in agreement. */
  lemma {:induction false} FailureAgrees(t: Tables, entries: map<nat, Entry>, mem: Memory, next: Memory, txs: seq<Tx>)
    requires Agrees(t.utxos, entries, mem) && NewTxids(t, txs) && NewToChain(entries, txs)
    requires OnlyAdds(mem, next, txs)
    ensures Agrees(t.utxos, entries, next)
  {
  }

  /** So does an applied block. */
  lemma {:induction false} SuccessAgrees(
    u: Table, entries: map<nat, Entry>, mem: Memory, next: Memory, txs: seq<Tx>, res: Table, height: nat, entry: Entry)
    requires txs != [] && Agrees(u, entries, mem) && NoneOf(u, Txids(txs)) && NewToChain(entries, txs)
    requires Refreshed(mem, next, txs, AllRefs(txs[1..]), res)
    requires entry.resolver == InputsOnly(res, txs)
    ensures Agrees(SpendAll(u, txs, res), entries[height := entry], next)
  {
    SpendAllBodies(u, txs, res);
    var after := SpendAll(u, txs, res);
    forall r | r in next && r in after ensures next[r] == after[r] {
      if r in u && after[r] == u[r] {
        assert r.txid !in Txids(txs);
      }
    }
    hide SpendAll, CreatedBy;
    var es := entries[height := entry];
    forall h, r | h in es && r in es[h].resolver && r in next ensures next[r] == es[h].resolver[r] {
      if h != height {
        assert h in entries;
      }
    }
  }

  /** Where the bodies of the table after a block come from. */
  lemma {:induction false} SpendAllBodies(u: Table, txs: seq<Tx>, res: Table)
    ensures forall r <- SpendAll(u, txs, res) ::
      (r in u && SpendAll(u, txs, res)[r] == u[r]) || (CreatedBy(txs, r) && SpendAll(u, txs, res)[r] == Lookup(res, r))
    decreases |txs|
  {
    if txs != [] {
      SpendIs(u, txs[0], res);
      SpendAllBodies(Spend(u, txs[0], res), txs[1..], res);
      forall r ensures CreatedBy(txs, r) <==> Creates(txs[0], r) || CreatedBy(txs[1..], r) {
        CreatedHead(txs, r);
      }
    }
  }

  /** Rolling a block back brings back only outputs the map agrees on. */
  lemma {:induction false} RollbackAgrees(
    u: Table, entries: map<nat, Entry>, mem: Memory, txs: seq<Tx>, res: Table, height: nat)
    requires txs != [] && BlockSpends(u, txs, res) && height in entries
      && entries[height].resolver == InputsOnly(res, txs)
    requires Agrees(SpendAll(u, txs, res), entries, mem)
    ensures Agrees(u, entries - {height}, mem)
  {
    SpentWasResolved(u, txs[1..], res);
    var after := SpendAll(u, txs, res);
    forall r | r in mem && r in u ensures mem[r] == u[r] {
      if r in SpendAll(u, txs[1..], res) {
        assert r in after && after[r] == u[r];
      } else {
        assert r in entries[height].resolver;
      }
    }
  }

  lemma {:induction false} SpentWasResolved(u: Table, txs: seq<Tx>, res: Table)
    requires Spends(u, txs, res)
    ensures var after := SpendAll(u, txs, res);
      forall r <- u :: if r in after then after[r] == u[r] else r in AllRefs(txs) && r in res && res[r] == u[r]
    decreases |txs|
  {
    if txs != [] {
      var mid := Spend(u, txs[0], res);
      SpendIs(u, txs[0], res);
      SpentWasResolved(mid, txs[1..], res);
      SpendAllBodies(mid, txs[1..], res);
      forall r | r in u ensures if r in mid then mid[r] == u[r] else r in Refs(txs[0]) && r in res && res[r] == u[r] {
        assert r in mid <==> r !in Refs(txs[0]);
      }
    }
  }

  // ----- runs -----

  datatype MemOp =
    | Plain(op: Op)
    /** the store fails after this many transactions */
    | Interrupted(height: nat, block: Block, count: nat)

  function ForwardMem(
    cfg: Config, keep: Option<nat>, db: Db, mem: Memory, height: nat, block: Block, mutable: bool, limit: nat)
    : (Result<Db, Error>, Memory)
    requires HaveInputs(block.txs)
  {
    if db.last.Some? && block.prev != db.last.value then (Err(PreviousHashMismatch), mem)
    else if block.txs == [] then (Err(Error.NoCoinbase), mem)
    else
      var (r, m) := ApplyMem(cfg, height, block, db.tables, mem, limit);
      match r
      case None => (Err(MissingTxo), m)
      case Some((t, entry)) =>
        var log := if mutable then db.log[db.next := ApplyLog(height, block, entry)] else db.log;
        (Ok(Db(t, db.blocks[height := block], db.entries[height := entry], Some(block.hash), db.next + 1,
               if mutable then Pruned(log, db.next + 1, height, keep) else log)), m)
  }

  predicate MemInputs(op: MemOp) {
    match op
    case Plain(op) => OpInputs(op)
    case Interrupted(_, block, _) => HaveInputs(block.txs)
  }

  /** One operation with the map; reopening starts with an empty one. */
  ghost function DoMem(cfg: Config, keep: Option<nat>, db: Db, mem: Memory, op: MemOp): (Db, Memory)
    requires Stored(db) && MemInputs(op)
  {
    match op
    case Interrupted(height, block, count) =>
      (db, ForwardMem(cfg, keep, db, mem, height, block, false, Min(count, |block.txs|)).1)
    case Plain(RollForward(height, block, mutable)) =>
      var (r, m) := ForwardMem(cfg, keep, db, mem, height, block, mutable, |block.txs| + 1);
      (if r.Ok? then r.value else db, m)
    case Plain(RollBack(height, hash, mutable)) => (Do(cfg, keep, db, op.op), mem)
    case Plain(Reopen) => (Do(cfg, keep, db, op.op), map[])
  }

  /** The block being tried: one that consensus admits, spending live outputs, with
      transactions that are new to the chain. */
  ghost predicate Candidate(db: Db, block: Block) {
    && NextBlock(db.tables, block.txs)
    && InputsLive(db.tables.utxos, block.txs)
    && NewToChain(db.entries, block.txs)
  }

  /** The block gets as far as resolving its inputs; before that a refusal leaves the
      map alone. */
  predicate Reaches(db: Db, block: Block) {
    block.txs != [] && (db.last.Some? ==> block.prev == db.last.value)
  }

  ghost predicate Tried(db: Db, block: Block) {
    HaveInputs(block.txs) && (Reaches(db, block) ==> Candidate(db, block))
  }

  ghost predicate ProperMem(cfg: Config, keep: Option<nat>, h: nat, fs: seq<Frame>, db: Db, op: MemOp) {
    && MemInputs(op)
    && match op
       case Interrupted(_, block, _) => Tried(db, block)
       case Plain(o) => InOrder(h, fs, o) && (o.RollForward? ==> Tried(db, o.block) && o.height < U64)
  }

  lemma {:induction false} ForwardMemSame(
    cfg: Config, keep: Option<nat>, db: Db, mem: Memory, height: nat, block: Block, mutable: bool)
    requires Tried(db, block) && Agrees(db.tables.utxos, db.entries, mem)
    ensures ForwardMem(cfg, keep, db, mem, height, block, mutable, |block.txs| + 1).0
         == Forward(cfg, keep, db, height, block, mutable)
  {
    hide Apply, ApplyMem, Agrees, InputsLive, NewToChain, Pruned;
    if Reaches(db, block) {
      ApplyMemSame(cfg, height, block, db.tables, db.entries, mem, |block.txs| + 1);
    }
  }

  lemma {:induction false} ForwardMemFails(
    cfg: Config, keep: Option<nat>, db: Db, mem: Memory, height: nat, block: Block, mutable: bool, limit: nat)
    requires Tried(db, block) && Agrees(db.tables.utxos, db.entries, mem)
    ensures Agrees(db.tables.utxos, db.entries, ForwardMem(cfg, keep, db, mem, height, block, mutable, limit).1)
  {
    hide ApplyMem, Agrees, InputsLive, NewToChain, Pruned, OnlyAdds, NewTxids;
    if Reaches(db, block) {
      ApplyMemAdds(cfg, height, block, db.tables, mem, limit);
      FailureAgrees(db.tables, db.entries, mem, ApplyMem(cfg, height, block, db.tables, mem, limit).1, block.txs);
    }
  }

  lemma {:induction false} ForwardMemAgrees(
    cfg: Config, keep: Option<nat>, db: Db, mem: Memory, height: nat, block: Block, mutable: bool)
    requires Candidate(db, block) && WellFormed(db.tables, height, block.txs)
      && Agrees(db.tables.utxos, db.entries, mem)
    requires Forward(cfg, keep, db, height, block, mutable).Ok?
    ensures var d := Forward(cfg, keep, db, height, block, mutable).value;
      Agrees(d.tables.utxos, d.entries, ForwardMem(cfg, keep, db, mem, height, block, mutable, |block.txs| + 1).1)
  {
    hide ApplyMem, Staged, Agrees, InputsLive, NewToChain, Pruned, Refreshed, SpendAll, NextBlock;
    var n := |block.txs| + 1;
    ApplyMemRefreshes(cfg, height, block, db.tables, db.entries, mem, n);
    var res := Staged(cfg, height, block.txs, db.tables).value.resolver;
    var entry := Apply(cfg, height, block, db.tables).value.1;
    SuccessAgrees(db.tables.utxos, db.entries, mem, ApplyMem(cfg, height, block, db.tables, mem, n).1, block.txs, res,
                  height, entry);
  }

  // ----- rollbacks -----

  /** What a stored block spent, as its entry holds it. */
  lemma {:induction false} FrameSpends(cfg: Config, h: nat, f: Frame) returns (res: Table)
    requires Sane(cfg, h, f.before) && SoundBlock(cfg, h, f.block, f.before)
    ensures f.block.txs != [] && BlockSpends(f.before.utxos, f.block.txs, res)
    ensures Left(cfg, h, f).0.utxos == SpendAll(f.before.utxos, f.block.txs, res)
    ensures Left(cfg, h, f).1.resolver == InputsOnly(res, f.block.txs)
  {
    SaneNext(cfg, h, f.before, f.block.txs);
    LeftIs(cfg, h, f);
    hide Staged, SpendAll, BlockSpends, Left, InputsOnly, NextBlock, Sane;
    res := Staged(cfg, h, f.block.txs, f.before).value.resolver;
    StagedSpends(cfg, h, f.block.txs, f.before);
  }

  lemma {:induction false} UndoTopAgrees(
    cfg: Config, h: nat, base: Tables, fs: seq<Frame>, db: Db, mutable: bool, mem: Memory)
    requires Holds(cfg, h, base, fs, db, false) && fs != []
    requires h + |fs| - 1 in db.blocks && db.blocks[h + |fs| - 1].txs != []
    requires Agrees(db.tables.utxos, db.entries, mem) && UndoAt(db, h + |fs| - 1, mutable).Ok?
    ensures var d := UndoAt(db, h + |fs| - 1, mutable).value; Agrees(d.tables.utxos, d.entries, mem)
  {
    hide Undo, UndoAt, Agrees, BlockSpends, SpendAll, InputsOnly, Left, SoundBlock, Sane, Shadows, Holds;
    var n := |fs| - 1;
    var f := fs[n];
    HoldsTop(cfg, h, base, fs, db);
    ShadowUtxos(db.tables, Left(cfg, h + n, f).0);
    var res := FrameSpends(cfg, h + n, f);
    UndoAtIs(db, h + n, mutable);
    RollbackAgrees(f.before.utxos, db.entries, mem, f.block.txs, res, h + n);
    BelowUtxos(cfg, h, base, fs, db, mutable);
  }

  lemma UndoAtIs(db: Db, height: nat, mutable: bool)
    requires height in db.blocks && db.blocks[height].txs != [] && UndoAt(db, height, mutable).Ok?
    ensures var d := UndoAt(db, height, mutable).value;
      && height in db.entries && d.entries == db.entries - {height}
      && Undo(height, db.blocks[height], db.entries[height], db.tables) == Some(d.tables)
  {
    hide Undo;
  }

  lemma {:induction false} FrameUndone(cfg: Config, h: nat, f: Frame, t: Tables)
    requires Sane(cfg, h, f.before) && SoundBlock(cfg, h, f.block, f.before) && Shadows(t, Left(cfg, h, f).0)
    ensures f.block.txs != []
    ensures var u := Undo(h, f.block, Left(cfg, h, f).1, t); u.Some? ==> u.value.utxos == f.before.utxos
  {
    hide Undo, Left, Sane, Shadows, Apply;
    LeftIs(cfg, h, f);
    BlockUndone(cfg, h, f.block, f.before, t);
    var u := Undo(h, f.block, Left(cfg, h, f).1, t);
    if u.Some? {
      ShadowUtxos(u.value, f.before);
    }
  }

  /** The block and the entry stored at the top. */
  lemma HoldsTop(cfg: Config, h: nat, base: Tables, fs: seq<Frame>, db: Db)
    requires Holds(cfg, h, base, fs, db, false) && fs != []
    ensures var n := |fs| - 1;
      && h + n in db.blocks && db.blocks[h + n] == fs[n].block
      && h + n in db.entries && db.entries[h + n] == Left(cfg, h + n, fs[n]).1
      && Sane(cfg, h + n, fs[n].before) && SoundBlock(cfg, h + n, fs[n].block, fs[n].before)
      && Shadows(db.tables, Left(cfg, h + n, fs[n]).0)
  {
    hide Stack, Left, Column, Sane, SoundBlock, Shadows;
    TopFrame(cfg, h, base, fs, db.tables);
    ColumnPop(db.entries, h, Entries(cfg, h, fs));
    ColumnPop(db.blocks, h, Blocks(fs));
  }

  /** The outputs after undoing the top block are those it was applied to. */
  lemma {:induction false} BelowUtxos(cfg: Config, h: nat, base: Tables, fs: seq<Frame>, db: Db, mutable: bool)
    requires Holds(cfg, h, base, fs, db, false) && fs != []
    requires h + |fs| - 1 in db.blocks && db.blocks[h + |fs| - 1].txs != [] && UndoAt(db, h + |fs| - 1, mutable).Ok?
    ensures UndoAt(db, h + |fs| - 1, mutable).value.tables.utxos == fs[|fs| - 1].before.utxos
  {
    hide Undo, UndoAt, Left, SoundBlock, Sane, Shadows, Holds;
    var n := |fs| - 1;
    HoldsTop(cfg, h, base, fs, db);
    UndoAtIs(db, h + n, mutable);
    FrameUndone(cfg, h + n, fs[n], db.tables);
  }

  lemma ShadowUtxos(a: Tables, b: Tables)
    ensures Shadows(a, b) ==> a.utxos == b.utxos
  {
  }

  lemma TopFrame(cfg: Config, h: nat, base: Tables, fs: seq<Frame>, t: Tables)
    requires Stack(cfg, h, base, fs, t, false) && fs != []
    ensures var n := |fs| - 1;
      && Sane(cfg, h + n, fs[n].before) && SoundBlock(cfg, h + n, fs[n].block, fs[n].before)
      && Shadows(t, Left(cfg, h + n, fs[n]).0)
  {
    hide Sane, SoundBlock, Left, Shadows;
    StackSane(cfg, h, base, fs[..|fs| - 1], fs[|fs| - 1].before, false);
  }

  lemma {:induction false} UndoDownAgrees(
    cfg: Config, h: nat, base: Tables, fs: seq<Frame>, db: Db, top: nat, to: nat, mutable: bool, mem: Memory)
    requires Holds(cfg, h, base, fs, db, false) && Stored(db)
    requires h <= to < h + |fs| <= top + 1 && Agrees(db.tables.utxos, db.entries, mem)
    ensures var r := UndoDown(db, top, to, mutable);
      r.Ok? ==> Agrees(r.value.tables.utxos, r.value.entries, mem)
    decreases top
  {
    hide Holds, UndoAt, Stored, Agrees;
    if to < top && top < h + |fs| {
      UndoTop(cfg, h, base, fs, db, mutable, false);
      if UndoAt(db, top, mutable).Ok? {
        UndoTopAgrees(cfg, h, base, fs, db, mutable, mem);
        UndoAtStored(db, top, mutable);
        UndoDownAgrees(cfg, h, base, fs[..|fs| - 1], UndoAt(db, top, mutable).value, top - 1, to, mutable, mem);
      }
    } else if to < top {
      HoldsAt(cfg, h, base, fs, db, false, top);
      UndoDownAgrees(cfg, h, base, fs, db, top - 1, to, mutable, mem);
    }
  }

  lemma {:induction false} BackAgrees(
    cfg: Config, h: nat, base: Tables, fs: seq<Frame>, db: Db, height: nat, hash: Hash, mutable: bool, mem: Memory)
    requires Holds(cfg, h, base, fs, db, false) && Stored(db) && Agrees(db.tables.utxos, db.entries, mem)
    ensures var r := Back(db, height, hash, mutable);
      r.Ok? ==> Agrees(r.value.tables.utxos, r.value.entries, mem)
  {
    hide Holds, Stored, Agrees, UndoDown, Highest;
    HoldsAt(cfg, h, base, fs, db, false, height);
    HoldsHighest(cfg, h, base, fs, db, false);
    if height in db.blocks {
      UndoDownAgrees(cfg, h, base, fs, db, Highest(db.blocks), height, mutable, mem);
    }
  }

  // ----- whole runs -----

  ghost function PlainDo(cfg: Config, keep: Option<nat>, db: Db, op: MemOp): (d: Db)
    requires Stored(db) && MemInputs(op)
    ensures Stored(d)
  {
    if op.Plain? then Do(cfg, keep, db, op.op) else db
  }

  ghost function PlainSurvive(cfg: Config, keep: Option<nat>, h: nat, fs: seq<Frame>, db: Db, op: MemOp): seq<Frame>
    requires Stored(db) && MemInputs(op)
  {
    if op.Plain? then Survive(cfg, keep, h, fs, db, op.op) else fs
  }

  lemma {:induction false} StepMem(
    cfg: Config, keep: Option<nat>, h: nat, base: Tables, fs: seq<Frame>, db: Db, mem: Memory, op: MemOp)
    requires Tracks(cfg, h, base, fs, db, false) && Stored(db) && ProperMem(cfg, keep, h, fs, db, op)
    requires Agrees(db.tables.utxos, db.entries, mem)
    ensures var (d, m) := DoMem(cfg, keep, db, mem, op);
      d == PlainDo(cfg, keep, db, op) && Agrees(d.tables.utxos, d.entries, m)
  {
    hide Holds, Stored, Agrees, Forward, ForwardMem, Back, Candidate, Highest;
    match op {
      case Interrupted(height, block, count) =>
        ForwardMemFails(cfg, keep, db, mem, height, block, false, Min(count, |block.txs|));
      case Plain(RollForward(height, block, mutable)) =>
        ForwardMemSame(cfg, keep, db, mem, height, block, mutable);
        if Forward(cfg, keep, db, height, block, mutable).Ok? {
          ForwardReaches(cfg, keep, db, height, block, mutable);
          CandidateFormed(cfg, h, base, fs, db, block);
          ForwardMemAgrees(cfg, keep, db, mem, height, block, mutable);
        } else {
          ForwardMemFails(cfg, keep, db, mem, height, block, mutable, |block.txs| + 1);
        }
      case Plain(RollBack(height, hash, mutable)) =>
        BackAgrees(cfg, h, base, fs, db, height, hash, mutable, mem);
      case Plain(Reopen) =>
        EmptyAgrees(Reopened(db));
    }
  }

  lemma ForwardReaches(cfg: Config, keep: Option<nat>, db: Db, height: nat, block: Block, mutable: bool)
    requires HaveInputs(block.txs) && Forward(cfg, keep, db, height, block, mutable).Ok?
    ensures Reaches(db, block)
  {
    hide Apply, Pruned;
  }

  lemma CandidateFormed(cfg: Config, h: nat, base: Tables, fs: seq<Frame>, db: Db, block: Block)
    requires Holds(cfg, h, base, fs, db, false) && Candidate(db, block)
    ensures WellFormed(db.tables, h + |fs|, block.txs)
  {
    hide Stack, Column, Sane, NextBlock, WellFormed, Entries;
    StackSane(cfg, h, base, fs, db.tables, false);
    SaneNext(cfg, h + |fs|, db.tables, block.txs);
  }

  lemma EmptyAgrees(db: Db)
    ensures Agrees(db.tables.utxos, db.entries, map[])
  {
  }

  lemma {:induction false} StepPlain(
    cfg: Config, keep: Option<nat>, h: nat, base: Tables, fs: seq<Frame>, db: Db, op: MemOp)
    requires Tracks(cfg, h, base, fs, db, false) && Stored(db) && ProperMem(cfg, keep, h, fs, db, op)
    ensures Tracks(cfg, h, base, PlainSurvive(cfg, keep, h, fs, db, op), PlainDo(cfg, keep, db, op), false)
  {
    hide Tracks, Stored, Do, Survive, Forward, InputsLive, NewToChain, NextBlock;
    if op.Plain? {
      if op.op.RollForward? && Forward(cfg, keep, db, op.op.height, op.op.block, op.op.mutable).Ok? {
        ForwardReaches(cfg, keep, db, op.op.height, op.op.block, op.op.mutable);
      }
      StepTracks(cfg, keep, h, base, fs, db, op.op, false);
    }
  }

  ghost predicate ProperMemRun(cfg: Config, keep: Option<nat>, h: nat, fs: seq<Frame>, db: Db, ops: seq<MemOp>)
    requires Stored(db)
    decreases |ops|
  {
    ops == []
    || (&& ProperMem(cfg, keep, h, fs, db, ops[0])
        && ProperMemRun(cfg, keep, h, PlainSurvive(cfg, keep, h, fs, db, ops[0]), PlainDo(cfg, keep, db, ops[0]),
                        ops[1..]))
  }

  /** The run without the map. */
  ghost function RunPlain(cfg: Config, keep: Option<nat>, h: nat, fs: seq<Frame>, db: Db, ops: seq<MemOp>): Db
    requires Stored(db) && ProperMemRun(cfg, keep, h, fs, db, ops)
    decreases |ops|
  {
    if ops == [] then db
    else RunPlain(cfg, keep, h, PlainSurvive(cfg, keep, h, fs, db, ops[0]), PlainDo(cfg, keep, db, ops[0]), ops[1..])
  }

  /** The run with it; None if it came to a state from which it cannot go on. */
  ghost function RunMem(
    cfg: Config, keep: Option<nat>, h: nat, fs: seq<Frame>, db: Db, mem: Memory, ops: seq<MemOp>): Option<Db>
    decreases |ops|
  {
    if ops == [] then Some(db)
    else if !Stored(db) || !MemInputs(ops[0]) then None
    else
      var (d, m) := DoMem(cfg, keep, db, mem, ops[0]);
      RunMem(cfg, keep, h, PlainSurvive(cfg, keep, h, fs, db, ops[0]), d, m, ops[1..])
  }

  /** Over any run of applied, refused and interrupted blocks, rollbacks of whatever
      blocks, and reopenings, the database with the map enabled is the database
      without it. */
  lemma {:induction false} MemoryChangesNothing(
    cfg: Config, keep: Option<nat>, h: nat, base: Tables, fs: seq<Frame>, db: Db, mem: Memory, ops: seq<MemOp>)
    requires Tracks(cfg, h, base, fs, db, false) && Stored(db) && ProperMemRun(cfg, keep, h, fs, db, ops)
    requires Agrees(db.tables.utxos, db.entries, mem)
    ensures RunMem(cfg, keep, h, fs, db, mem, ops) == Some(RunPlain(cfg, keep, h, fs, db, ops))
    decreases |ops|
  {
    hide Tracks, Stored, PlainSurvive, PlainDo, DoMem, Agrees;
    if ops != [] {
      StepMem(cfg, keep, h, base, fs, db, mem, ops[0]);
      StepPlain(cfg, keep, h, base, fs, db, ops[0]);
      var (d, m) := DoMem(cfg, keep, db, mem, ops[0]);
      MemoryChangesNothing(cfg, keep, h, base, PlainSurvive(cfg, keep, h, fs, db, ops[0]), d, m, ops[1..]);
    }
  }
}
