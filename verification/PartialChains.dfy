/** Partially revealed inscriptions: what is stored suffices to reparse them. */
module PartialChains {
  import opened ChainTypes
  import opened Placement
  import opened Inscriptions
  import opened Utxos
  import opened BlockApply
  import InscriptionParser

  /** Every stored chain ends at its key, and each of its transactions is stored
      under its own id. */
  ghost predicate Closed(p: Partials) {
    && (forall k <- p.chains :: p.chains[k] != [] && p.chains[k][|p.chains[k]| - 1] == k)
    && (forall k <- p.chains :: forall x <- p.chains[k] :: x in p.txs)
    && (forall x <- p.txs :: p.txs[x].txid == x && p.txs[x].inputs != [])
  }

  lemma RevealKeepsClosed(p: Partials, tx: Tx, floats: seq<Flotsam>)
    requires Closed(p) && tx.inputs != []
    ensures Closed(Reveal(p, tx, floats).partials)
  {
    hide InscriptionParser.Parse;
    var chain := StoredChain(p, tx);
    var q := Partials(p.chains[tx.txid := chain + [tx.txid]], p.txs[tx.txid := tx]);
    forall k, x | k in q.chains && x in q.chains[k] ensures x in q.txs {
    }
  }

  /** The scripts of the transactions of a chain, in order. */
  ghost predicate AreScripts(p: Partials, chain: seq<Txid>, scripts: seq<Bytes>) {
    && |scripts| == |chain|
    && (forall i :: 0 <= i < |chain| ==>
          chain[i] in p.txs && p.txs[chain[i]].txid == chain[i] && p.txs[chain[i]].inputs != []
          && scripts[i] == p.txs[chain[i]].inputs[0].scriptSig)
  }

  /** A transaction is judged by the first scripts of the whole chain it continues:
      resuming the parse of the stored ones with its own. A completed inscription
      has the id of the chain's first transaction. */
  lemma RevealResumes(p: Partials, tx: Tx, floats: seq<Flotsam>)
    requires Closed(p) && tx.inputs != [] && forall f <- floats :: f.offset != 0
    ensures var chain := StoredChain(p, tx);
      var stored := StoredScripts(p, chain);
      var r := Reveal(p, tx, floats);
      && AreScripts(p, chain, stored)
      && (r.found.Some? <==> InscriptionParser.Parse(stored + [tx.inputs[0].scriptSig]).Complete?)
      && (r.found.Some? ==> r.found.value.id == InscriptionId(if chain == [] then tx.txid else chain[0], 0))
      && (InscriptionParser.Parse(stored + [tx.inputs[0].scriptSig]).Partial? ==>
            tx.txid in r.partials.chains && r.partials.chains[tx.txid] == chain + [tx.txid])
  {
    hide InscriptionParser.Parse;
  }

  lemma PartClosed(cfg: Config, height: nat, tx: Tx, refs: seq<TxoRef>, bodies: seq<TxoBody>, st: InscState)
    requires |refs| == |bodies| && tx.inputs != [] && Closed(st.partials)
    ensures Closed(InscPart(cfg, height, tx, refs, bodies, st).state.partials)
  {
    hide Closed, Reveal, Arrivals, Place, SortByOffset, Releases, Announce, NextCounters;
    if cfg.firstInscriptionHeight <= height {
      RevealKeepsClosed(st.partials, tx, Arrivals(cfg, height, tx, refs, bodies).floats);
    }
  }

  lemma {:induction false} StepsClosed(cfg: Config, height: nat, index: nat, txs: seq<Tx>, st: Stage)
    requires HaveInputs(txs) && Closed(st.insc.partials) && Steps(cfg, height, index, txs, st).Some?
    ensures Closed(Steps(cfg, height, index, txs, st).value.insc.partials)
    decreases |txs|
  {
    hide Closed, DunePart, InscPart, OutBodies;
    if txs != [] {
      PartClosed(cfg, height, txs[0], Refs(txs[0]), Fetch(st.resolver, Refs(txs[0])), st.insc);
      StepsClosed(cfg, height, index + 1, txs[1..], TxStep(cfg, height, index, txs[0], st).value);
    }
  }

  /** A block keeps the stored chains closed. */
  lemma {:induction false} BlockKeepsClosed(cfg: Config, height: nat, block: Block, t: Tables)
    requires block.txs != [] && HaveInputs(block.txs) && Closed(t.partials) && Apply(cfg, height, block, t).Some?
    ensures Closed(Apply(cfg, height, block, t).value.0.partials)
  {
    hide Closed, DunePart, InscPart, Steps, External, SpendAll, InputsOnly;
    var txs := block.txs;
    var first := FirstStage(cfg, height, txs, t);
    StepsClosed(cfg, height, 1, txs[1..], first);
    PartClosed(cfg, height, txs[0], [], [], Steps(cfg, height, 1, txs[1..], first).value.insc);
  }
}
