/** What a block keeps: every live inscription in one place, and every DRC-20
    ticker backed by balances plus amounts locked in live transfers. */
module Conservation {
  import opened Prelude
  import opened ChainTypes
  import opened Placement
  import opened Drc20
  import opened Inscriptions
  import opened InscriptionLaws
  import opened Utxos
  import opened BlockApply
  import opened BlockLaws
  import opened LiveInscriptions

  ghost function LockW(t: Ticker): TxoBody -> int {
    (b: TxoBody) => LockedIn(b, t)
  }

  /** Amount of a ticker locked in transfers on live outputs. */
  ghost function Locked(u: Table, t: Ticker): int {
    Weigh(u, LockW(t))
  }

  lemma {:induction false} LockedInAllIsSum(bodies: seq<TxoBody>, t: Ticker)
    ensures LockedInAll(bodies, t) == SumBy(bodies, LockW(t))
  {
    if bodies != [] {
      LockedInAllIsSum(bodies[1..], t);
    }
  }

  /** Before inscriptions are indexed no output holds one. */
  ghost predicate Quiet(cfg: Config, height: nat, u: Table) {
    height < cfg.firstInscriptionHeight ==> forall r <- u :: u[r].inscriptions == []
  }

  ghost predicate AllBacked(l: Ledger, u: Table) {
    forall t :: Backed(l, t, Locked(u, t))
  }

  /** Conservation while the transactions of a block are processed. */
  ghost predicate Sound(cfg: Config, height: nat, u: Table, st: InscState) {
    && Unique(u) && Apart(u, st.carried)
    && Quiet(cfg, height, u)
    && AllBacked(st.drc, u)
  }

  /** The table `next` is `u` less the spent outputs plus these bodies. */
  ghost predicate Moves(u: Table, next: Table, tx: Tx, refs: seq<TxoRef>, outs: seq<TxoBody>) {
    && |outs| == |tx.outputs|
    && (forall r <- next :: if Creates(tx, r) then next[r] == outs[r.vout] else r in u && next[r] == u[r] && r !in refs)
  }

  ghost predicate Bring(u: Table, refs: seq<TxoRef>, bodies: seq<TxoBody>) {
    && NoDup(refs) && |refs| == |bodies|
    && (forall i :: 0 <= i < |refs| ==> refs[i] in u && bodies[i] == u[refs[i]])
  }

  /** At this height the transaction does not complete a live inscription again. */
  ghost predicate NewHere(
    cfg: Config, height: nat, tx: Tx, refs: seq<TxoRef>, bodies: seq<TxoBody>, st: InscState, u: Table)
    requires |refs| == |bodies| && tx.inputs != []
  {
    cfg.firstInscriptionHeight <= height ==> !Revives(u, st.carried, st.partials, tx, bodies)
  }

  // ----- one transaction -----

  lemma {:induction false} IndexKeepsUnique(
    cfg: Config, height: nat, tx: Tx, refs: seq<TxoRef>, bodies: seq<TxoBody>, st: InscState, u: Table, next: Table,
    dunes: seq<Balances>)
    requires tx.inputs != [] && Bring(u, refs, bodies) && (IsCoinbase(tx) ==> bodies == [])
    requires Unique(u) && Apart(u, st.carried) && |dunes| == |tx.outputs|
    requires !Revives(u, st.carried, st.partials, tx, bodies)
    requires var r := IndexInscriptions(cfg, height, tx, refs, bodies, st);
      Moves(u, next, tx, refs, Bodies(height, tx.outputs, dunes, r.outputs, r.transfers))
    ensures NoDup(FloatIds(Floats(cfg, height, tx, refs, bodies, st)))
    ensures Unique(next) && Apart(next, IndexInscriptions(cfg, height, tx, refs, bodies, st).state.carried)
  {
    hide IndexInscriptions, Floats, Placing0, Reveal, Arrivals, Revives;
    IndexPlaces(cfg, height, tx, refs, bodies, st);
    FloatsDistinct(cfg, height, tx, refs, bodies, st, u);
    var r := IndexInscriptions(cfg, height, tx, refs, bodies, st);
    var p := Placing0(cfg, height, tx, refs, bodies, st);
    var ids := FloatIds(Floats(cfg, height, tx, refs, bodies, st));
    PlacingScatters(cfg, height, tx, refs, bodies, st);
    NextHolds(u, next, tx, refs, height, dunes, p, r.transfers, ids);
    MoveKeepsUnique(u, next, tx, p, ids, if IsCoinbase(tx) then [] else st.carried);
  }

  lemma PlacingScatters(cfg: Config, height: nat, tx: Tx, refs: seq<TxoRef>, bodies: seq<TxoBody>, st: InscState)
    requires |refs| == |bodies| && tx.inputs != []
    requires NoDup(FloatIds(Floats(cfg, height, tx, refs, bodies, st)))
    ensures Scattered(Placing0(cfg, height, tx, refs, bodies, st), FloatIds(Floats(cfg, height, tx, refs, bodies, st)))
  {
    hide Floats, Scattered, Place, SortByOffset;
    PlaceScatters(Floats(cfg, height, tx, refs, bodies, st), tx.outputs);
  }

  lemma NextHolds(u: Table, next: Table, tx: Tx, refs: seq<TxoRef>, height: nat, dunes: seq<Balances>, p: Placing,
                  transfers: map<InscriptionId, Transfer>, ids: seq<InscriptionId>)
    requires |dunes| == |tx.outputs| == |p.perOutput|
    requires Moves(u, next, tx, refs, Bodies(height, tx.outputs, dunes, Locals(p.perOutput, tx.outputs), transfers))
    requires forall r, id :: Has(u, r, id) && r !in refs ==> id !in ids
    ensures forall r <- next :: if Creates(tx, r) then Ids(next[r].inscriptions) == FloatIds(p.perOutput[r.vout])
                                else r in u && next[r] == u[r]
    ensures forall r, id :: !Creates(tx, r) && Has(next, r, id) ==> id !in ids
  {
    forall r | r in next && Creates(tx, r) ensures Ids(next[r].inscriptions) == FloatIds(p.perOutput[r.vout]) {
      OutputIds(height, tx, dunes, p, transfers, r.vout);
    }
    forall r, id | !Creates(tx, r) && Has(next, r, id) ensures id !in ids {
      assert Has(u, r, id);
    }
  }

  lemma {:induction false} EmptyLocks(bodies: seq<TxoBody>, t: Ticker)
    requires forall b <- bodies :: b.inscriptions == []
    ensures LockedInAll(bodies, t) == 0
  {
    if bodies != [] {
      EmptyLocks(bodies[1..], t);
    }
  }

  /** A transaction releases what its inputs had locked and locks what its outputs
      hold. */
  lemma {:induction false} PartBacked(
    cfg: Config, height: nat, tx: Tx, refs: seq<TxoRef>, bodies: seq<TxoBody>, st: InscState,
    dunes: seq<Balances>, t: Ticker, locked: int)
    requires |refs| == |bodies| && tx.inputs != [] && |dunes| == |tx.outputs| && (IsCoinbase(tx) ==> bodies == [])
    requires height < cfg.firstInscriptionHeight ==> forall b <- bodies :: b.inscriptions == []
    requires cfg.firstInscriptionHeight <= height ==> NoDup(FloatIds(Floats(cfg, height, tx, refs, bodies, st)))
    requires Backed(st.drc, t, locked) && LockedInAll(bodies, t) <= locked
    ensures var r := InscPart(cfg, height, tx, refs, bodies, st);
      Backed(r.state.drc, t,
             locked - LockedInAll(bodies, t)
             + LockedInAll(Bodies(height, tx.outputs, dunes, r.outputs, r.transfers), t))
  {
    hide IndexInscriptions, Floats;
    if height < cfg.firstInscriptionHeight {
      var r := InscPart(cfg, height, tx, refs, bodies, st);
      EmptyLocks(bodies, t);
      EmptyLocks(Bodies(height, tx.outputs, dunes, r.outputs, r.transfers), t);
    } else {
      TransactionBacked(cfg, height, tx, refs, bodies, st, dunes, t, locked);
    }
  }

  /** Sums over the table move by what is spent and created. */
  ghost predicate Shifts(u: Table, next: Table, bodies: seq<TxoBody>, outs: seq<TxoBody>) {
    forall t :: Locked(next, t) == Locked(u, t) - LockedInAll(bodies, t) + LockedInAll(outs, t)
             && LockedInAll(bodies, t) <= Locked(u, t)
  }

  lemma {:induction false} PartAllBacked(
    cfg: Config, height: nat, tx: Tx, refs: seq<TxoRef>, bodies: seq<TxoBody>, st: InscState,
    dunes: seq<Balances>, u: Table, next: Table)
    requires |refs| == |bodies| && tx.inputs != [] && |dunes| == |tx.outputs| && (IsCoinbase(tx) ==> bodies == [])
    requires height < cfg.firstInscriptionHeight ==> forall b <- bodies :: b.inscriptions == []
    requires cfg.firstInscriptionHeight <= height ==> NoDup(FloatIds(Floats(cfg, height, tx, refs, bodies, st)))
    requires AllBacked(st.drc, u)
    requires var r := InscPart(cfg, height, tx, refs, bodies, st);
      Shifts(u, next, bodies, Bodies(height, tx.outputs, dunes, r.outputs, r.transfers))
    ensures AllBacked(InscPart(cfg, height, tx, refs, bodies, st).state.drc, next)
  {
    hide InscPart, Floats, Backed;
    forall t ensures Backed(InscPart(cfg, height, tx, refs, bodies, st).state.drc, t, Locked(next, t)) {
      PartBacked(cfg, height, tx, refs, bodies, st, dunes, t, Locked(u, t));
    }
  }

  lemma {:induction false} QuietUnique(
    u: Table, next: Table, tx: Tx, refs: seq<TxoRef>, outs: seq<TxoBody>, carried: seq<Flotsam>)
    requires Unique(u) && Apart(u, carried) && Moves(u, next, tx, refs, outs)
    requires forall b <- outs :: b.inscriptions == []
    ensures Unique(next) && Apart(next, carried)
  {
    forall r | r in next && Creates(tx, r) ensures next[r].inscriptions == [] {
      assert outs[r.vout] in outs;
    }
    forall r, id | Has(next, r, id) ensures Has(u, r, id) {
    }
  }

  /** Everything conserved by indexing the inscriptions of one transaction. */
  lemma {:induction false} PartSound(
    cfg: Config, height: nat, tx: Tx, refs: seq<TxoRef>, bodies: seq<TxoBody>, st: InscState,
    dunes: seq<Balances>, u: Table, next: Table)
    requires tx.inputs != [] && Bring(u, refs, bodies) && (IsCoinbase(tx) ==> bodies == [])
    requires |dunes| == |tx.outputs| && Sound(cfg, height, u, st)
    requires NewHere(cfg, height, tx, refs, bodies, st, u)
    requires var r := InscPart(cfg, height, tx, refs, bodies, st);
      var outs := Bodies(height, tx.outputs, dunes, r.outputs, r.transfers);
      Moves(u, next, tx, refs, outs) && Shifts(u, next, bodies, outs)
    ensures Sound(cfg, height, next, InscPart(cfg, height, tx, refs, bodies, st).state)
  {
    hide IndexInscriptions, Floats, AllBacked, Unique, Apart, Shifts, Revives;
    var r := InscPart(cfg, height, tx, refs, bodies, st);
    var outs := Bodies(height, tx.outputs, dunes, r.outputs, r.transfers);
    if height < cfg.firstInscriptionHeight {
      QuietUnique(u, next, tx, refs, outs, st.carried);
    } else {
      IndexKeepsUnique(cfg, height, tx, refs, bodies, st, u, next, dunes);
    }
    PartAllBacked(cfg, height, tx, refs, bodies, st, dunes, u, next);
  }

  // ----- through the output table -----

  lemma {:induction false} SpendShifts(u: Table, tx: Tx, res: Table)
    requires StepOk(u, tx, res)
    ensures Shifts(u, Spend(u, tx, res), Fetch(res, Refs(tx)), Fetch(res, OutRefs(tx.txid, |tx.outputs|)))
  {
    var ins, outs := Fetch(res, Refs(tx)), Fetch(res, OutRefs(tx.txid, |tx.outputs|));
    forall t
      ensures Locked(Spend(u, tx, res), t) == Locked(u, t) - LockedInAll(ins, t) + LockedInAll(outs, t)
      ensures LockedInAll(ins, t) <= Locked(u, t)
    {
      SpendWeigh(u, tx, res, LockW(t));
      LockedInAllIsSum(ins, t);
      LockedInAllIsSum(outs, t);
      RemoveAllWeigh(u, Refs(tx), ins, LockW(t));
      LockedNonNegative(RemoveAll(u, Refs(tx)), t);
    }
  }

  lemma LockedNonNegative(u: Table, t: Ticker)
    ensures 0 <= Locked(u, t)
  {
    forall r | r in u ensures 0 <= Weights(u, LockW(t))[r] {
      LockedInNonNegative(u[r], t);
    }
    SumNonNegative(Weights(u, LockW(t)));
  }

  lemma SpendMoves(u: Table, tx: Tx, res: Table)
    requires StepOk(u, tx, res)
    ensures Moves(u, Spend(u, tx, res), tx, Refs(tx), Fetch(res, OutRefs(tx.txid, |tx.outputs|)))
    ensures Bring(u, Refs(tx), Fetch(res, Refs(tx)))
  {
    SpendIs(u, tx, res);
  }

  lemma FetchStep(cfg: Config, height: nat, index: nat, tx: Tx, st: Stage, res: Table)
    requires tx.inputs != [] && Resolves(st, tx) && NoneOf(st.resolver, [tx.txid])
    requires Extends(res, TxStep(cfg, height, index, tx, st).value.resolver)
    ensures Fetch(res, Refs(tx)) == Fetch(st.resolver, Refs(tx))
    ensures Fetch(res, OutRefs(tx.txid, |tx.outputs|)) == OutBodies(cfg, height, index, tx, st)
  {
    hide OutBodies, DunePart, InscPart;
    forall r | r in st.resolver ensures r.txid != tx.txid {
      assert tx.txid in [tx.txid];
    }
    StageExtends(cfg, height, index, tx, st);
    hide TxStep;
    var outs := OutRefs(tx.txid, |tx.outputs|);
    forall v | 0 <= v < |outs| ensures Fetch(res, outs)[v] == OutBodies(cfg, height, index, tx, st)[v] {
      assert Creates(tx, outs[v]);
    }
  }

  lemma {:induction false} StepSound(cfg: Config, height: nat, index: nat, tx: Tx, st: Stage, u: Table, res: Table)
    requires tx.inputs != [] && Resolves(st, tx) && NoneOf(st.resolver, [tx.txid]) && !IsCoinbase(tx)
    requires Extends(res, TxStep(cfg, height, index, tx, st).value.resolver)
    requires StepOk(u, tx, res) && Sound(cfg, height, u, st.insc)
    requires NewHere(cfg, height, tx, Refs(tx), Fetch(st.resolver, Refs(tx)), st.insc, u)
    ensures Sound(cfg, height, Spend(u, tx, res), TxStep(cfg, height, index, tx, st).value.insc)
  {
    hide Sound, NewHere, Spend, DunePart, InscPart, Moves, Bring, Shifts;
    var refs := Refs(tx);
    var bodies := Fetch(st.resolver, refs);
    FetchStep(cfg, height, index, tx, st, res);
    SpendShifts(u, tx, res);
    SpendMoves(u, tx, res);
    PartSound(cfg, height, tx, refs, bodies, st.insc, DunePart(cfg, height, index, tx, st.dunes, bodies).outputs,
              u, Spend(u, tx, res));
  }

  /** No transaction reveals an id that is live when it does. */
  ghost predicate NewIds(cfg: Config, height: nat, index: nat, txs: seq<Tx>, st: Stage, u: Table, res: Table)
    requires HaveInputs(txs)
    decreases |txs|
  {
    txs == []
    || (&& NewHere(cfg, height, txs[0], Refs(txs[0]), Fetch(st.resolver, Refs(txs[0])), st.insc, u)
        && (Resolves(st, txs[0]) ==>
              NewIds(cfg, height, index + 1, txs[1..], TxStep(cfg, height, index, txs[0], st).value,
                     Spend(u, txs[0], res), res)))
  }

  ghost predicate NoCoinbase(txs: seq<Tx>) {
    forall tx <- txs :: !IsCoinbase(tx)
  }

  lemma {:induction false} StepsSound(
    cfg: Config, height: nat, index: nat, txs: seq<Tx>, st: Stage, u: Table, res: Table)
    requires HaveInputs(txs) && NoCoinbase(txs) && NoneOf(st.resolver, Txids(txs)) && NoDup(Txids(txs))
    requires Steps(cfg, height, index, txs, st).Some?
    requires Extends(res, Steps(cfg, height, index, txs, st).value.resolver)
    requires Spends(u, txs, res) && Sound(cfg, height, u, st.insc)
    requires NewIds(cfg, height, index, txs, st, u, res)
    ensures Sound(cfg, height, SpendAll(u, txs, res), Steps(cfg, height, index, txs, st).value.insc)
    decreases |txs|
  {
    hide Sound, NewHere, Spend, DunePart, InscPart, StepOk;
    if txs != [] {
      var s := TxStep(cfg, height, index, txs[0], st).value;
      StepLeaves(cfg, height, index, txs, st);
      hide TxStep;
      StepsExtend(cfg, height, index + 1, txs[1..], s);
      StepSound(cfg, height, index, txs[0], st, u, res);
      StepsSound(cfg, height, index + 1, txs[1..], s, Spend(u, txs[0], res), res);
    }
  }

  /** The resolver grows by outputs of the transaction only. */
  lemma StepLeaves(cfg: Config, height: nat, index: nat, txs: seq<Tx>, st: Stage)
    requires txs != [] && HaveInputs(txs) && NoneOf(st.resolver, Txids(txs)) && NoDup(Txids(txs))
    requires Resolves(st, txs[0])
    ensures NoneOf(st.resolver, [txs[0].txid])
    ensures NoneOf(TxStep(cfg, height, index, txs[0], st).value.resolver, Txids(txs[1..])) && NoDup(Txids(txs[1..]))
  {
    hide OutBodies, DunePart, InscPart;
    TxidsHead(txs);
    StageExtends(cfg, height, index, txs[0], st);
  }

  // ----- the block -----

  lemma {:induction false} CoinbaseShifts(u: Table, cb: Tx, res: Table)
    requires forall r | Creates(cb, r) :: r in res && r !in u
    ensures var outs := Fetch(res, OutRefs(cb.txid, |cb.outputs|));
      var next := u + CoinbaseOuts(cb, res);
      Shifts(u, next, [], outs) && Moves(u, next, cb, [], outs)
  {
    var refs := OutRefs(cb.txid, |cb.outputs|);
    OutRefsIff(cb);
    AddedAre(cb, res, refs, Fetch(res, refs));
    CoinbaseAdds(u, cb, res);
    AddShifts(u, refs, Fetch(res, refs));
  }

  lemma CoinbaseAdds(u: Table, cb: Tx, res: Table)
    requires forall r | Creates(cb, r) :: r in res && r !in u
    ensures var refs := OutRefs(cb.txid, |cb.outputs|);
      AddAll(u, refs, Fetch(res, refs)) == u + CoinbaseOuts(cb, res)
  {
    var refs := OutRefs(cb.txid, |cb.outputs|);
    OutRefsIff(cb);
    AddAllIs(u, refs, Fetch(res, refs));
    AddedAre(cb, res, refs, Fetch(res, refs));
  }

  lemma {:induction false} AddShifts(u: Table, refs: seq<TxoRef>, outs: seq<TxoBody>)
    requires |refs| == |outs| && NoDup(refs) && forall r <- refs :: r !in u
    ensures Shifts(u, AddAll(u, refs, outs), [], outs)
  {
    forall t
      ensures Locked(AddAll(u, refs, outs), t) == Locked(u, t) - LockedInAll([], t) + LockedInAll(outs, t)
      ensures LockedInAll([], t) <= Locked(u, t)
    {
      AddAllWeigh(u, refs, outs, LockW(t));
      LockedInAllIsSum(outs, t);
      LockedNonNegative(u, t);
    }
  }

  lemma AddedAre(cb: Tx, res: Table, refs: seq<TxoRef>, outs: seq<TxoBody>)
    requires refs == OutRefs(cb.txid, |cb.outputs|) && outs == Fetch(res, refs)
    requires forall r | Creates(cb, r) :: r in res
    ensures forall r | Creates(cb, r) :: refs[r.vout] == r && outs[r.vout] == res[r]
  {
  }

  /** No transaction of the block, the coinbase last, reveals a live id. */
  ghost predicate BlockNewIds(cfg: Config, height: nat, txs: seq<Tx>, t: Tables)
    requires txs != [] && HaveInputs(txs)
  {
    match Steps(cfg, height, 1, txs[1..], FirstStage(cfg, height, txs, t))
    case None => true
    case Some(st) =>
      && NewIds(cfg, height, 1, txs[1..], FirstStage(cfg, height, txs, t), t.utxos, st.resolver)
      && NewHere(cfg, height, txs[0], [], [], st.insc, SpendAll(t.utxos, txs[1..], st.resolver))
  }

  /** Between blocks: every live inscription in one place, every ticker backed. */
  ghost predicate Books(cfg: Config, height: nat, t: Tables) {
    Unique(t.utxos) && Quiet(cfg, height, t.utxos) && AllBacked(t.drc, t.utxos)
  }

  lemma {:induction false} LastSound(cfg: Config, height: nat, txs: seq<Tx>, t: Tables, st: Stage, u: Table)
    requires txs != [] && HaveInputs(txs) && IsCoinbase(txs[0]) && NoneOf(st.resolver, [txs[0].txid])
    requires Sound(cfg, height, u, st.insc) && NewHere(cfg, height, txs[0], [], [], st.insc, u)
    requires forall r | Creates(txs[0], r) :: r !in u
    ensures var last := LastStage(cfg, height, txs, t, st);
      Sound(cfg, height, u + CoinbaseOuts(txs[0], last.resolver), last.insc)
  {
    hide Sound, NewHere, DunePart, InscPart, Moves, Shifts;
    var cb := txs[0];
    var last := LastStage(cfg, height, txs, t, st);
    LastGrows(cfg, height, txs, t, st);
    LastFetch(cfg, height, txs, t, st);
    CoinbaseShifts(u, cb, last.resolver);
    var i := InscPart(cfg, height, cb, [], [], st.insc);
    PartSound(cfg, height, cb, [], [], st.insc, CoinbaseDunes(cfg, height, txs, t).outputs,
              u, u + CoinbaseOuts(cb, last.resolver));
  }

  lemma {:induction false} LastFetch(cfg: Config, height: nat, txs: seq<Tx>, t: Tables, st: Stage)
    requires txs != [] && HaveInputs(txs)
    ensures var cb := txs[0];
      var i := InscPart(cfg, height, cb, [], [], st.insc);
      Fetch(LastStage(cfg, height, txs, t, st).resolver, OutRefs(cb.txid, |cb.outputs|))
      == Bodies(height, cb.outputs, CoinbaseDunes(cfg, height, txs, t).outputs, i.outputs, i.transfers)
  {
    hide DunePart, InscPart;
    var cb := txs[0];
    var i := InscPart(cfg, height, cb, [], [], st.insc);
    AddAllIs(st.resolver, OutRefs(cb.txid, |cb.outputs|),
             Bodies(height, cb.outputs, CoinbaseDunes(cfg, height, txs, t).outputs, i.outputs, i.transfers));
  }

  lemma RestNoCoinbase(t: Tables, height: nat, txs: seq<Tx>)
    requires WellFormed(t, height, txs)
    ensures NoCoinbase(txs[1..]) && IsCoinbase(txs[0])
  {
    forall tx | tx in txs[1..] ensures !IsCoinbase(tx) {
      AllRefsHas(txs[1..], tx);
      assert tx.inputs[0].prev == Refs(tx)[0];
    }
    assert Refs(txs[0])[0] == txs[0].inputs[0].prev;
  }

  /** All but the coinbase's inscriptions. */
  lemma {:induction false} RestSound(cfg: Config, height: nat, txs: seq<Tx>, t: Tables)
    requires WellFormed(t, height, txs) && Books(cfg, height, t) && BlockNewIds(cfg, height, txs, t)
    requires Steps(cfg, height, 1, txs[1..], FirstStage(cfg, height, txs, t)).Some?
    ensures var st := Steps(cfg, height, 1, txs[1..], FirstStage(cfg, height, txs, t)).value;
      && Spends(t.utxos, txs[1..], st.resolver)
      && NoneOf(st.resolver, [txs[0].txid])
      && Sound(cfg, height, SpendAll(t.utxos, txs[1..], st.resolver), st.insc)
  {
    hide DunePart, InscPart, Steps, NewHere, NewIds, Spends, External;
    var first := FirstStage(cfg, height, txs, t);
    var st := Steps(cfg, height, 1, txs[1..], first).value;
    TxidsHead(txs);
    RestNoCoinbase(t, height, txs);
    FirstReady(cfg, height, txs, t);
    StepsSpend(cfg, height, 1, txs[1..], first, t.utxos, {});
    StepsExtend(cfg, height, 1, txs[1..], first);
    StepsSound(cfg, height, 1, txs[1..], first, t.utxos, st.resolver);
  }

  /** A block that reveals no live id keeps every live inscription in one place and
      every ticker backed; no balance or supply wraps on the way. */
  lemma {:induction false} BlockKeepsBooks(cfg: Config, height: nat, block: Block, t: Tables)
    requires WellFormed(t, height, block.txs) && Books(cfg, height, t) && BlockNewIds(cfg, height, block.txs, t)
    requires Apply(cfg, height, block, t).Some?
    ensures Books(cfg, height, Apply(cfg, height, block, t).value.0)
    ensures Books(cfg, height + 1, Apply(cfg, height, block, t).value.0)
  {
    hide DunePart, InscPart, NewHere, NewIds, Unique, AllBacked, Apart, LastStage, FirstStage;
    var txs := block.txs;
    var st := Steps(cfg, height, 1, txs[1..], FirstStage(cfg, height, txs, t)).value;
    var last := LastStage(cfg, height, txs, t, st);
    RestNoCoinbase(t, height, txs);
    RestSound(cfg, height, txs, t);
    LastGrows(cfg, height, txs, t, st);
    StagedSpends(cfg, height, txs, t);
    SpendsExtend(t.utxos, txs[1..], st.resolver, last.resolver);
    CoinbaseStaysOut(t, height, txs, st.resolver);
    LastSound(cfg, height, txs, t, st, SpendAll(t.utxos, txs[1..], st.resolver));
  }

  lemma {:induction false} CoinbaseStaysOut(t: Tables, height: nat, txs: seq<Tx>, res: Table)
    requires WellFormed(t, height, txs)
    ensures forall r | Creates(txs[0], r) :: r !in SpendAll(t.utxos, txs[1..], res)
  {
    TxidsHead(txs);
    assert txs[0].txid in Txids(txs);
    SpendAllAdds(t.utxos, txs[1..], res);
  }

  lemma {:induction false} SpendAllAdds(u: Table, txs: seq<Tx>, res: Table)
    ensures forall r <- SpendAll(u, txs, res) :: r in u || r.txid in Txids(txs)
    decreases |txs|
  {
    if txs != [] {
      TxidsHead(txs);
      SpendIs(u, txs[0], res);
      SpendAllAdds(Spend(u, txs[0], res), txs[1..], res);
    }
  }
}
