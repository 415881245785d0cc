/** Applying one block to the tables, and undoing it from the stored resolver
    entry. Tables are read with stored zeros forgotten and absent counters at
    their default; `ChainDb` relates this reading to the stored tables. */
module BlockApply {
  import opened Prelude
  import opened ChainTypes
  import opened DuneLedger
  import opened Drc20
  import opened Inscriptions
  import opened Utxos

  datatype Tables = Tables(
    utxos: Table, dunes: DuneTables, partials: Partials, drc: Ledger, counters: Counters)

  /** What a block leaves in ResolverByHeightKV for its own undo. */
  datatype Entry = Entry(
    hash: Hash, resolver: Table, mints: map<nat, seq<nat>>, counters: Counters, messages: seq<Message>)

  /** Work in progress while the transactions of a block are processed. */
  datatype Stage = Stage(
    dunes: DuneTables, insc: InscState, resolver: Table, mints: map<nat, seq<nat>>, messages: seq<Message>)

  // ----- one transaction -----

  function AddDunes(acc: Balances, d: Balances): Balances {
    map id | id in acc.Keys + d.Keys :: AddU128(Get(acc, id), Get(d, id))
  }

  /** Dunes held by the inputs, by id. */
  function Unallocated(acc: Balances, bodies: seq<TxoBody>): Balances
    decreases |bodies|
  {
    if bodies == [] then acc else Unallocated(AddDunes(acc, bodies[0].dunes), bodies[1..])
  }

  function DunePart(cfg: Config, height: nat, index: nat, tx: Tx, t: DuneTables, bodies: seq<TxoBody>): (r: DuneResult)
    ensures |r.outputs| == |tx.outputs|
  {
    if height < cfg.firstDuneHeight then DuneLedger.Untouched(t, tx)
    else IndexDunes(t, tx, index, height, cfg.minimumName(height), Unallocated(map[], bodies))
  }

  function InscPart(
    cfg: Config, height: nat, tx: Tx, refs: seq<TxoRef>, bodies: seq<TxoBody>, st: InscState): (r: InscResult)
    requires |refs| == |bodies| && tx.inputs != []
    ensures |r.outputs| == |tx.outputs|
  {
    if height < cfg.firstInscriptionHeight
    then InscResult(st, seq(|tx.outputs|, _ => []), map[], [], None, [])
    else IndexInscriptions(cfg, height, tx, refs, bodies, st)
  }

  predicate Resolves(st: Stage, tx: Tx) {
    forall r <- Refs(tx) :: r in st.resolver
  }

  function OutBodies(cfg: Config, height: nat, index: nat, tx: Tx, st: Stage): (r: seq<TxoBody>)
    requires tx.inputs != []
    ensures |r| == |tx.outputs|
  {
    var refs := Refs(tx);
    var bodies := Fetch(st.resolver, refs);
    var i := InscPart(cfg, height, tx, refs, bodies, st.insc);
    Bodies(height, tx.outputs, DunePart(cfg, height, index, tx, st.dunes, bodies).outputs, i.outputs, i.transfers)
  }

  /** One transaction after the coinbase; None when an input cannot be resolved. */
  function TxStep(cfg: Config, height: nat, index: nat, tx: Tx, st: Stage): Option<Stage>
    requires tx.inputs != []
  {
    if !Resolves(st, tx) then None
    else
      var refs := Refs(tx);
      var bodies := Fetch(st.resolver, refs);
      var d := DunePart(cfg, height, index, tx, st.dunes, bodies);
      var i := InscPart(cfg, height, tx, refs, bodies, st.insc);
      Some(Stage(d.tables, i.state,
                 AddAll(st.resolver, OutRefs(tx.txid, |tx.outputs|), OutBodies(cfg, height, index, tx, st)),
                 st.mints[index := d.recorded], st.messages + i.messages))
  }

  predicate HaveInputs(txs: seq<Tx>) {
    forall tx <- txs :: tx.inputs != []
  }

  function Steps(cfg: Config, height: nat, index: nat, txs: seq<Tx>, st: Stage): Option<Stage>
    requires HaveInputs(txs)
    decreases |txs|
  {
    if txs == [] then Some(st)
    else
      match TxStep(cfg, height, index, txs[0], st)
      case None => None
      case Some(s) => Steps(cfg, height, index + 1, txs[1..], s)
  }

  // ----- a block -----

  function Txids(txs: seq<Tx>): (r: seq<Txid>)
    ensures |r| == |txs|
    ensures forall i :: 0 <= i < |r| ==> r[i] == txs[i].txid
  {
    seq(|txs|, i requires 0 <= i < |txs| => txs[i].txid)
  }

  /** Inputs that earlier blocks produced, read from the output table. */
  function External(u: Table, txs: seq<Tx>): Table
    requires txs != []
  {
    map r | r in AllRefs(txs[1..]) && r.txid !in Txids(txs) && r in u :: u[r]
  }

  /** The coinbase's dunes are indexed before anything else. */
  function CoinbaseDunes(cfg: Config, height: nat, txs: seq<Tx>, t: Tables): (r: DuneResult)
    requires txs != []
    ensures |r.outputs| == |txs[0].outputs|
  {
    DunePart(cfg, height, 0, txs[0], t.dunes, [])
  }

  function FirstStage(cfg: Config, height: nat, txs: seq<Tx>, t: Tables): Stage
    requires txs != []
  {
    var d := CoinbaseDunes(cfg, height, txs, t);
    Stage(d.tables, InscState(t.partials, t.drc, t.counters, [], cfg.subsidy(height)),
          External(t.utxos, txs), map[0 := d.recorded], [])
  }

  /** The coinbase's inscriptions are indexed after everything else. */
  function LastStage(cfg: Config, height: nat, txs: seq<Tx>, t: Tables, st: Stage): Stage
    requires txs != [] && HaveInputs(txs)
  {
    var cb := txs[0];
    var i := InscPart(cfg, height, cb, [], [], st.insc);
    var outs := Bodies(height, cb.outputs, CoinbaseDunes(cfg, height, txs, t).outputs, i.outputs, i.transfers);
    st.(insc := i.state, resolver := AddAll(st.resolver, OutRefs(cb.txid, |cb.outputs|), outs),
        messages := st.messages + i.messages)
  }

  /** All staged work of a block, or None for a missing output. */
  function Staged(cfg: Config, height: nat, txs: seq<Tx>, t: Tables): Option<Stage>
    requires txs != [] && HaveInputs(txs)
  {
    match Steps(cfg, height, 1, txs[1..], FirstStage(cfg, height, txs, t))
    case None => None
    case Some(st) => Some(LastStage(cfg, height, txs, t, st))
  }

  function InputsOnly(res: Table, txs: seq<Tx>): Table
    requires txs != []
  {
    map r | r in res && r in AllRefs(txs[1..]) :: res[r]
  }

  /** The tables a block leaves and the entry for undoing it. */
  function Apply(cfg: Config, height: nat, block: Block, t: Tables): Option<(Tables, Entry)>
    requires block.txs != [] && HaveInputs(block.txs)
  {
    match Staged(cfg, height, block.txs, t)
    case None => None
    case Some(st) =>
      Some((Tables(SpendAll(t.utxos, block.txs, st.resolver), st.dunes, st.insc.partials, st.insc.drc,
                   st.insc.counters),
            Entry(block.hash, InputsOnly(st.resolver, block.txs), st.mints, t.counters, st.messages)))
  }

  // ----- undo -----

  function RecordedAt(mints: map<nat, seq<nat>>, index: nat): seq<nat> {
    if index in mints then mints[index] else []
  }

  /** Undoes the dune effects of the transactions at `index ..`, last first. */
  function UndoDuneList(
    d: DuneTables, height: nat, index: nat, txs: seq<Tx>, mints: map<nat, seq<nat>>): Option<DuneTables>
    decreases |txs|
  {
    if txs == [] then Some(d)
    else
      match UndoDuneList(d, height, index + 1, txs[1..], mints)
      case None => None
      case Some(d1) => UndoDunes(d1, txs[0], index, height, RecordedAt(mints, index))
  }

  function ForgetPartials(p: Partials, txs: seq<Tx>): Partials {
    var ids := set i | 0 <= i < |txs| :: txs[i].txid;
    Partials(p.chains - ids, p.txs - ids)
  }

  /** The output table: transactions `1 ..` last first, then the coinbase. */
  function UndoUtxos(u: Table, txs: seq<Tx>, resolver: Table): Option<Table>
    requires txs != []
  {
    match UnspendAll(u, txs[1..], resolver)
    case None => None
    case Some(s) =>
      match Unspend(s.0, txs[0], 0, s.1)
      case None => None
      case Some(r) => Some(r.0)
  }

  function Undo(height: nat, block: Block, entry: Entry, t: Tables): Option<Tables>
    requires block.txs != []
  {
    match UndoDuneList(t.dunes, height, 0, block.txs, entry.mints)
    case None => None
    case Some(d) =>
      match UndoUtxos(t.utxos, block.txs, entry.resolver)
      case None => None
      case Some(u) =>
        Some(Tables(u, d, ForgetPartials(t.partials, block.txs), UndoMessages(t.drc, entry.messages), entry.counters))
  }
}
