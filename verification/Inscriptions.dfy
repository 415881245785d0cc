/** What one transaction does to inscriptions and DRC-20: `index_inscriptions`. */
module Inscriptions {
  import opened Prelude
  import opened ChainTypes
  import opened Placement
  import opened Drc20
  import InscriptionParser

  type Bytes = InscriptionParser.Bytes

  /** Parts of the program that live in libraries or configuration: the decoding
      of a drc-20 message from content type and body, the subsidy schedule, and
      activation heights. */
  datatype Config = Config(
    message: (Bytes, Bytes) -> Option<RawMessage>,
    subsidy: nat -> nat,
    minimumName: nat -> nat,
    firstDuneHeight: nat,
    firstInscriptionHeight: nat)

  // ----- inputs -----

  /** A transfer inscription arriving through an input. */
  datatype Unused = Unused(ticker: Ticker, amount: u128, sender: Script, source: TxoRef)

  datatype Incoming = Incoming(floats: seq<Flotsam>, unused: map<InscriptionId, Unused>, total: nat)

  function Enter(inc: Incoming, source: TxoRef, body: TxoBody, p: Placed): Incoming {
    Incoming(inc.floats + [Flotsam(p.id, inc.total + p.offset, false)],
             if p.id in body.transfers
             then inc.unused[p.id := Unused(body.transfers[p.id].ticker, body.transfers[p.id].amount,
                                            body.txout.script, source)]
             else inc.unused,
             inc.total)
  }

  function EnterAll(inc: Incoming, source: TxoRef, body: TxoBody, ps: seq<Placed>): Incoming
    decreases |ps|
  {
    if ps == [] then inc else EnterAll(Enter(inc, source, body, ps[0]), source, body, ps[1..])
  }

  function EnterInput(inc: Incoming, source: TxoRef, body: TxoBody): Incoming {
    var i := EnterAll(inc, source, body, body.inscriptions);
    i.(total := i.total + body.txout.value)
  }

  function EnterInputs(inc: Incoming, refs: seq<TxoRef>, bodies: seq<TxoBody>): Incoming
    requires |refs| == |bodies|
    decreases |refs|
  {
    if refs == [] then inc else EnterInputs(EnterInput(inc, refs[0], bodies[0]), refs[1..], bodies[1..])
  }

  // ----- revealing -----

  /** Chains of partial inscriptions, by the id of their last transaction, and
      the transactions they consist of. */
  datatype Partials = Partials(chains: map<Txid, seq<Txid>>, txs: map<Txid, Tx>)

  datatype Discovery = Discovery(id: InscriptionId, contentType: Bytes, body: Bytes)

  datatype Revealed = Revealed(partials: Partials, found: Option<Discovery>)

  function StoredScript(partials: Partials, txid: Txid): Bytes {
    if txid in partials.txs && partials.txs[txid].inputs != [] then partials.txs[txid].inputs[0].scriptSig else []
  }

  function StoredScripts(partials: Partials, txids: seq<Txid>): (r: seq<Bytes>)
    ensures |r| == |txids|
  {
    seq(|txids|, i requires 0 <= i < |txids| => StoredScript(partials, txids[i]))
  }

  function StoredChain(partials: Partials, tx: Tx): seq<Txid>
    requires tx.inputs != []
  {
    var prev := tx.inputs[0].prev.txid;
    if prev in partials.chains then partials.chains[prev] else []
  }

  /** Only a transaction with no incoming inscription at sat zero can carry a new
      one; it continues the chain that its first input spends. */
  function Reveal(partials: Partials, tx: Tx, floats: seq<Flotsam>): Revealed
    requires tx.inputs != []
  {
    if exists f <- floats :: f.offset == 0 then Revealed(partials, None)
    else
      var chain := StoredChain(partials, tx);
      match InscriptionParser.Parse(StoredScripts(partials, chain) + [tx.inputs[0].scriptSig])
      case NoInscription => Revealed(partials, None)
      case Partial =>
        Revealed(Partials(partials.chains[tx.txid := chain + [tx.txid]], partials.txs[tx.txid := tx]), None)
      case Complete(ct, body) =>
        Revealed(partials, Some(Discovery(InscriptionId((chain + [tx.txid])[0], 0), ct, body)))
  }

  // ----- releases -----

  /** An unused transfer that reached its receiver, or went back to its sender. */
  datatype Release = Release(ticker: Ticker, amount: u128, source: TxoRef, receiver: Script)

  function LostReleases(fs: seq<Flotsam>, unused: map<InscriptionId, Unused>): seq<Release> {
    if fs == [] then []
    else
      (if fs[0].id in unused
       then var u := unused[fs[0].id]; [Release(u.ticker, u.amount, u.source, u.sender)] else [])
      + LostReleases(fs[1..], unused)
  }

  function OutReleases(fs: seq<Flotsam>, receiver: Script, unused: map<InscriptionId, Unused>): seq<Release> {
    if fs == [] then []
    else
      (if fs[0].id in unused
       then var u := unused[fs[0].id]; [Release(u.ticker, u.amount, u.source, receiver)] else [])
      + OutReleases(fs[1..], receiver, unused)
  }

  function PlacedReleases(
    perOutput: seq<seq<Flotsam>>, outs: seq<TxOut>, unused: map<InscriptionId, Unused>): seq<Release>
    requires |perOutput| == |outs|
    decreases |outs|
  {
    if outs == [] then []
    else OutReleases(perOutput[0], outs[0].script, unused) + PlacedReleases(perOutput[1..], outs[1..], unused)
  }

  function ApplyReleases(l: Ledger, rs: seq<Release>): Ledger
    decreases |rs|
  {
    if rs == [] then l
    else ApplyReleases(Credit(l, Holder(rs[0].receiver, rs[0].ticker), rs[0].amount), rs[1..])
  }

  function ReleaseMessages(rs: seq<Release>): (ms: seq<Message>)
    ensures |ms| == |rs|
  {
    seq(|rs|, i requires 0 <= i < |rs| =>
      Transferred(rs[i].ticker, rs[i].amount, rs[i].source, rs[i].receiver))
  }

  /** Which script each placed inscription now belongs to. */
  function Scripts(fs: seq<Flotsam>, script: Script, m: map<InscriptionId, Script>): map<InscriptionId, Script>
    decreases |fs|
  {
    if fs == [] then m else Scripts(fs[1..], script, m[fs[0].id := script])
  }

  function Receivers(perOutput: seq<seq<Flotsam>>, outs: seq<TxOut>, m: map<InscriptionId, Script>)
    : map<InscriptionId, Script>
    requires |perOutput| == |outs|
    decreases |outs|
  {
    if outs == [] then m else Receivers(perOutput[1..], outs[1..], Scripts(perOutput[0], outs[0].script, m))
  }

  // ----- one transaction -----

  /** `lostSats` wraps around at 64 bits. */
  datatype Counters = Counters(blessed: nat, sequence: nat, lostSats: nat)

  datatype InscState = InscState(
    partials: Partials, drc: Ledger, counters: Counters,
    /** inscriptions of earlier transactions on their way to the coinbase */
    carried: seq<Flotsam>,
    reward: nat)

  datatype InscResult = InscResult(
    state: InscState, outputs: seq<seq<Placed>>, transfers: map<InscriptionId, Transfer>,
    messages: seq<Message>, found: Option<Discovery>, lost: seq<Flotsam>)

  function CountNew(fs: seq<Flotsam>): nat {
    if fs == [] then 0 else (if fs[0].isNew then 1 else 0) + CountNew(fs[1..])
  }

  function IsCoinbase(tx: Tx): bool {
    tx.inputs != [] && tx.inputs[0].prev == NULL_REF
  }

  function Arrivals(cfg: Config, height: nat, tx: Tx, refs: seq<TxoRef>, bodies: seq<TxoBody>): Incoming
    requires |refs| == |bodies|
  {
    if IsCoinbase(tx) then Incoming([], map[], cfg.subsidy(height))
    else EnterInputs(Incoming([], map[], 0), refs, bodies)
  }

  function Floating(tx: Tx, arrivals: seq<Flotsam>, found: Option<Discovery>, carried: seq<Flotsam>): seq<Flotsam> {
    arrivals
    + (if found.Some? then [Flotsam(found.value.id, 0, true)] else [])
    + (if IsCoinbase(tx) then carried else [])
  }

  /** Leftovers go to the coinbase at their distance past the outputs. */
  function Carry(fs: seq<Flotsam>, reward: nat, total: nat): (r: seq<Flotsam>)
    ensures |r| == |fs|
    ensures forall i :: 0 <= i < |fs| ==> r[i].id == fs[i].id
    ensures forall i :: 0 <= i < |fs| && total <= fs[i].offset ==> r[i].offset == reward + fs[i].offset - total
  {
    seq(|fs|, i requires 0 <= i < |fs| =>
      fs[i].(offset := if total <= reward + fs[i].offset then reward + fs[i].offset - total else 0))
  }

  function Releases(tx: Tx, p: Placing, unused: map<InscriptionId, Unused>): seq<Release>
    requires |p.perOutput| == |tx.outputs|
  {
    (if IsCoinbase(tx) then [] else LostReleases(p.rest, unused)) + PlacedReleases(p.perOutput, tx.outputs, unused)
  }

  /** The DRC-20 message of a new inscription, processed after the releases. */
  function Announce(cfg: Config, tx: Tx, p: Placing, found: Option<Discovery>, l: Ledger): Outcome
    requires |p.perOutput| == |tx.outputs|
  {
    if found.None? then Rejected(l)
    else
      match cfg.message(found.value.contentType, found.value.body)
      case None => Rejected(l)
      case Some(raw) =>
        var receivers := Receivers(p.perOutput, tx.outputs, map[]);
        var id := found.value.id;
        Process(l, raw, id, if id in receivers then Some(receivers[id]) else None)
  }

  function NextCounters(tx: Tx, c: Counters, p: Placing, reward: nat): Counters {
    var n := CountNew(Flatten(p.perOutput)) + if IsCoinbase(tx) then CountNew(p.rest) else 0;
    Counters(c.blessed + n, c.sequence + n,
             if IsCoinbase(tx) then (c.lostSats + reward - Total(tx.outputs)) % U64 else c.lostSats)
  }

  function IndexInscriptions(cfg: Config, height: nat, tx: Tx, refs: seq<TxoRef>, bodies: seq<TxoBody>, st: InscState)
    : (r: InscResult)
    requires |refs| == |bodies| && tx.inputs != []
    ensures |r.outputs| == |tx.outputs|
  {
    var inc := Arrivals(cfg, height, tx, refs, bodies);
    var rev := Reveal(st.partials, tx, inc.floats);
    var p := Place(SortByOffset(Floating(tx, inc.floats, rev.found, st.carried)), tx.outputs, 0);
    var rs := Releases(tx, p, inc.unused);
    var o := Announce(cfg, tx, p, rev.found, ApplyReleases(st.drc, rs));
    var out := Total(tx.outputs);
    InscResult(
      InscState(rev.partials, o.ledger, NextCounters(tx, st.counters, p, st.reward),
                if IsCoinbase(tx) then [] else st.carried + Carry(p.rest, st.reward, out),
                if IsCoinbase(tx) || inc.total < out then st.reward else st.reward + inc.total - out),
      Locals(p.perOutput, tx.outputs),
      if o.locked.Some? && rev.found.Some? then map[rev.found.value.id := o.locked.value] else map[],
      ReleaseMessages(rs) + if o.valid.Some? then [o.valid.value] else [],
      rev.found,
      if IsCoinbase(tx) then p.rest else [])
  }

  /** The output body that a transaction stores; only transfers of inscriptions
      in this output are kept with it. */
  function Body(height: nat, out: TxOut, dunes: Balances, placed: seq<Placed>,
                transfers: map<InscriptionId, Transfer>): TxoBody
  {
    TxoBody(height, out, dunes, placed, map id | id in transfers && id in Ids(placed) :: transfers[id])
  }

  function Bodies(height: nat, outs: seq<TxOut>, dunes: seq<Balances>, placed: seq<seq<Placed>>,
                  transfers: map<InscriptionId, Transfer>): (r: seq<TxoBody>)
    requires |outs| == |dunes| == |placed|
    ensures |r| == |outs|
    ensures forall v :: 0 <= v < |outs| ==> r[v] == Body(height, outs[v], dunes[v], placed[v], transfers)
  {
    seq(|outs|, v requires 0 <= v < |outs| => Body(height, outs[v], dunes[v], placed[v], transfers))
  }
}
