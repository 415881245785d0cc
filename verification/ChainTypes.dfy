/** Values the compressor's chain database works on. Transaction ids, block
    hashes and script hashes are abstract numbers; a decoded Dunestone is part of
    its transaction. */
module ChainTypes {
  import opened Prelude

  type Txid = nat
  type Hash = nat
  type Script = nat
  type Ticker = seq<byte>

  datatype TxoRef = TxoRef(txid: Txid, vout: nat)

  /** The previous output of a coinbase input. */
  const NULL_REF := TxoRef(0, 0xFFFF_FFFF)

  datatype InscriptionId = InscriptionId(txid: Txid, index: nat)

  datatype TxOut = TxOut(value: nat, script: Script, opReturn: bool)

  datatype TxIn = TxIn(prev: TxoRef, scriptSig: seq<byte>)

  datatype Edict = Edict(id: nat, amount: u128, output: nat)

  datatype MintTerms = MintTerms(
    limit: Option<u128>, cap: Option<u128>,
    heightStart: Option<nat>, heightEnd: Option<nat>,
    offsetStart: Option<nat>, offsetEnd: Option<nat>)

  datatype Etching = Etching(dune: Option<nat>, terms: Option<MintTerms>)

  datatype Dunestone = Dunestone(
    edicts: seq<Edict>, etching: Option<Etching>, pointer: Option<nat>, cenotaph: bool)

  datatype Tx = Tx(
    txid: Txid, inputs: seq<TxIn>, outputs: seq<TxOut>, dunestone: Option<Dunestone>)

  datatype Block = Block(hash: Hash, prev: Hash, txs: seq<Tx>)

  /** An inscription inside an output, at a sat offset. */
  datatype Placed = Placed(offset: nat, id: InscriptionId)

  /** A DRC-20 amount locked in a transfer inscription. */
  datatype Transfer = Transfer(ticker: Ticker, amount: u128)

  /** Amounts of dunes by packed id. */
  type Balances = map<nat, u128>

  /** Dune balances are keyed by the packed id (height times 65536 plus index). */
  datatype TxoBody = TxoBody(
    height: nat, txout: TxOut, dunes: Balances,
    inscriptions: seq<Placed>, transfers: map<InscriptionId, Transfer>)

  datatype DuneId = DuneId(block: nat, tx: nat)

  function Ids(inscriptions: seq<Placed>): (ids: seq<InscriptionId>)
    ensures |ids| == |inscriptions|
    ensures forall i :: 0 <= i < |ids| ==> ids[i] == inscriptions[i].id
  {
    seq(|inscriptions|, i requires 0 <= i < |inscriptions| => inscriptions[i].id)
  }
}
