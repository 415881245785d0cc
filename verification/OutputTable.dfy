/** The table of unspent outputs across a block: which outputs it holds afterwards, what
    is stored with them, what is kept for the undo, and when the block is refused. */
module OutputTable {
  import opened Prelude
  import opened ChainTypes
  import opened Inscriptions
  import opened Utxos
  import opened BlockApply
  import opened BlockLaws

  ghost predicate CreatedIn(txs: seq<Tx>, r: TxoRef) {
    exists i :: 0 <= i < |txs| && Creates(txs[i], r)
  }

  lemma CreatedFirst(txs: seq<Tx>, r: TxoRef)
    requires txs != []
    ensures CreatedIn(txs, r) <==> Creates(txs[0], r) || CreatedIn(txs[1..], r)
  {
    if CreatedIn(txs[1..], r) {
      var i :| 0 <= i < |txs[1..]| && Creates(txs[1..][i], r);
      assert Creates(txs[i + 1], r);
    }
    if CreatedIn(txs, r) && !Creates(txs[0], r) {
      var i :| 0 <= i < |txs| && Creates(txs[i], r);
      assert Creates(txs[1..][i - 1], r);
    }
  }

  lemma CreatedTxid(txs: seq<Tx>, r: TxoRef)
    requires CreatedIn(txs, r)
    ensures r.txid in Txids(txs)
  {
    var i :| 0 <= i < |txs| && Creates(txs[i], r);
    assert Txids(txs)[i] == r.txid;
  }

  // ----- which outputs are left -----

  lemma {:induction false} SpendAllHolds(u: Table, txs: seq<Tx>, res: Table, r: TxoRef)
    requires Spends(u, txs, res) && NoneOf(u, Txids(txs)) && NoDup(Txids(txs))
    ensures var s := SpendAll(u, txs, res);
      && (r in s <==> (r in u || CreatedIn(txs, r)) && r !in AllRefs(txs))
      && (r in s ==> s[r] == if CreatedIn(txs, r) then Lookup(res, r) else u[r])
    decreases |txs|
  {
    if txs != [] {
      var next := Spend(u, txs[0], res);
      SpendIs(u, txs[0], res);
      TxidsHead(txs);
      CreatedFirst(txs, r);
      SpendAllHolds(next, txs[1..], res, r);
      if CreatedIn(txs[1..], r) {
        CreatedTxid(txs[1..], r);
      }
    }
  }

  // ----- what is stored with them -----

  /** An output as stored: the height and the output itself, and only transfers whose
      inscription lies in it. */
  ghost predicate StoredAs(body: TxoBody, height: nat, out: TxOut) {
    && body.height == height && body.txout == out
    && forall id <- body.transfers :: id in Ids(body.inscriptions)
  }

  ghost predicate AllStored(res: Table, height: nat, tx: Tx) {
    forall v :: 0 <= v < |tx.outputs| ==>
      TxoRef(tx.txid, v) in res && StoredAs(res[TxoRef(tx.txid, v)], height, tx.outputs[v])
  }

  lemma StoredStays(small: Table, big: Table, height: nat, tx: Tx)
    requires Extends(big, small) && AllStored(small, height, tx)
    ensures AllStored(big, height, tx)
  {
  }

  lemma TxStores(cfg: Config, height: nat, index: nat, tx: Tx, st: Stage)
    requires tx.inputs != [] && Resolves(st, tx) && forall r <- st.resolver :: r.txid != tx.txid
    ensures AllStored(TxStep(cfg, height, index, tx, st).value.resolver, height, tx)
  {
    StageExtends(cfg, height, index, tx, st);
    hide TxStep, DunePart, InscPart;
    forall v | 0 <= v < |tx.outputs| ensures Creates(tx, TxoRef(tx.txid, v)) {
    }
  }

  lemma {:induction false} StepsStore(cfg: Config, height: nat, index: nat, txs: seq<Tx>, st: Stage, i: nat)
    requires HaveInputs(txs) && NoneOf(st.resolver, Txids(txs)) && NoDup(Txids(txs)) && i < |txs|
    requires Steps(cfg, height, index, txs, st).Some?
    ensures AllStored(Steps(cfg, height, index, txs, st).value.resolver, height, txs[i])
    decreases |txs|
  {
    hide DunePart, InscPart, OutBodies, AllStored;
    TxidsHead(txs);
    var s := TxStep(cfg, height, index, txs[0], st).value;
    StageExtends(cfg, height, index, txs[0], st);
    if i == 0 {
      TxStores(cfg, height, index, txs[0], st);
      StepsExtend(cfg, height, index + 1, txs[1..], s);
      StoredStays(s.resolver, Steps(cfg, height, index, txs, st).value.resolver, height, txs[0]);
    } else {
      StepsStore(cfg, height, index + 1, txs[1..], s, i - 1);
    }
  }

  lemma LastStores(cfg: Config, height: nat, txs: seq<Tx>, t: Tables, st: Stage)
    requires txs != [] && HaveInputs(txs) && NoneOf(st.resolver, [txs[0].txid])
    ensures AllStored(LastStage(cfg, height, txs, t, st).resolver, height, txs[0])
  {
    hide InscPart, DunePart;
    var cb := txs[0];
    var outs := OutRefs(cb.txid, |cb.outputs|);
    var i := InscPart(cfg, height, cb, [], [], st.insc);
    AddAllIs(st.resolver, outs,
             Bodies(height, cb.outputs, CoinbaseDunes(cfg, height, txs, t).outputs, i.outputs, i.transfers));
    forall v | 0 <= v < |cb.outputs|
      ensures var res := LastStage(cfg, height, txs, t, st).resolver;
        TxoRef(cb.txid, v) in res && StoredAs(res[TxoRef(cb.txid, v)], height, cb.outputs[v])
    {
      assert outs[v] == TxoRef(cb.txid, v);
    }
  }

  /** Everything a block creates is resolved and stored as such. */
  lemma {:induction false} BlockStores(cfg: Config, height: nat, txs: seq<Tx>, t: Tables, i: nat)
    requires WellFormed(t, height, txs) && Staged(cfg, height, txs, t).Some? && i < |txs|
    ensures AllStored(Staged(cfg, height, txs, t).value.resolver, height, txs[i])
  {
    hide DunePart, InscPart, Steps, External, LastStage, AllStored;
    var first := FirstStage(cfg, height, txs, t);
    var st := Steps(cfg, height, 1, txs[1..], first).value;
    TxidsHead(txs);
    FirstReady(cfg, height, txs, t);
    StepsExtend(cfg, height, 1, txs[1..], first);
    LastStores(cfg, height, txs, t, st);
    LastGrows(cfg, height, txs, t, st);
    if i > 0 {
      StepsStore(cfg, height, 1, txs[1..], first, i - 1);
      StoredStays(st.resolver, LastStage(cfg, height, txs, t, st).resolver, height, txs[i]);
    }
  }

  /** After a block an output is unspent exactly if it was, or the block created it, and
      no transaction of the block spends it. Older ones are stored as before, new ones
      with the height of the block. */
  lemma {:induction false} BlockHolds(cfg: Config, height: nat, block: Block, t: Tables, r: TxoRef)
    requires WellFormed(t, height, block.txs) && Apply(cfg, height, block, t).Some?
    ensures var txs, u := block.txs, Apply(cfg, height, block, t).value.0.utxos;
      && (r in u <==> (r in t.utxos || CreatedIn(txs, r)) && r !in AllRefs(txs[1..]))
      && (r in u && r in t.utxos ==> u[r] == t.utxos[r])
      && (forall i :: 0 <= i < |txs| && Creates(txs[i], r) && r in u ==> StoredAs(u[r], height, txs[i].outputs[r.vout]))
  {
    hide Staged, InputsOnly;
    var txs := block.txs;
    var res := Staged(cfg, height, txs, t).value.resolver;
    StagedSpends(cfg, height, txs, t);
    TxidsHead(txs);
    CreatedFirst(txs, r);
    if CreatedIn(txs, r) {
      CreatedTxid(txs, r);
    }
    SpendAllHolds(t.utxos, txs[1..], res, r);
    forall i | 0 <= i < |txs| && Creates(txs[i], r)
      ensures r in res && StoredAs(res[r], height, txs[i].outputs[r.vout])
    {
      BlockStores(cfg, height, txs, t, i);
      assert r == TxoRef(txs[i].txid, r.vout);
    }
    hide StoredAs;
    if Creates(txs[0], r) {
      AvoidsCoinbase(txs, r);
    } else if CreatedIn(txs[1..], r) {
      var i :| 0 <= i < |txs[1..]| && Creates(txs[1..][i], r);
      assert Creates(txs[i + 1], r);
    }
  }

  lemma AvoidsCoinbase(txs: seq<Tx>, r: TxoRef)
    requires txs != [] && Creates(txs[0], r) && NoDup(Txids(txs))
    ensures !CreatedIn(txs[1..], r)
  {
    TxidsHead(txs);
    if CreatedIn(txs[1..], r) {
      CreatedTxid(txs[1..], r);
    }
  }

  /** What is kept for undoing the block: its inputs, each stored as it was. */
  lemma {:induction false} EntryHolds(cfg: Config, height: nat, block: Block, t: Tables, r: TxoRef)
    requires WellFormed(t, height, block.txs) && Apply(cfg, height, block, t).Some?
    ensures var e := Apply(cfg, height, block, t).value.1;
      && (r in e.resolver <==> r in AllRefs(block.txs[1..]))
      && (r in e.resolver && r in t.utxos ==> e.resolver[r] == t.utxos[r])
      && e.hash == block.hash && e.counters == t.counters
  {
    hide Staged, SpendAll;
    var txs := block.txs;
    StagedSpends(cfg, height, txs, t);
    if r in AllRefs(txs[1..]) && r in t.utxos {
      SpendsKnow(t.utxos, txs[1..], Staged(cfg, height, txs, t).value.resolver, r);
    }
  }

  lemma {:induction false} SpendsKnow(u: Table, txs: seq<Tx>, res: Table, r: TxoRef)
    requires Spends(u, txs, res) && r in AllRefs(txs) && r in u
    ensures r in res && res[r] == u[r]
    decreases |txs|
  {
    if r !in Refs(txs[0]) {
      SpendIs(u, txs[0], res);
      SpendsKnow(Spend(u, txs[0], res), txs[1..], res, r);
    }
  }

  // ----- when a block is refused -----

  /** Every input is known or created by an earlier transaction of the list. */
  ghost predicate Resolvable(known: Table, txs: seq<Tx>) {
    forall i, r :: 0 <= i < |txs| && r in Refs(txs[i]) ==> r in known || CreatedIn(txs[..i], r)
  }

  lemma ResolvableFirst(known: Table, next: Table, txs: seq<Tx>)
    requires txs != [] && Grown(known, next, txs[0])
    ensures Resolvable(known, txs) <==> (forall r <- Refs(txs[0]) :: r in known) && Resolvable(next, txs[1..])
  {
    forall i, r | 0 < i < |txs| && r in Refs(txs[i])
      ensures r in known || CreatedIn(txs[..i], r) <==> r in next || CreatedIn(txs[1..][..i - 1], r)
    {
      CreatedFirst(txs[..i], r);
      assert txs[..i][1..] == txs[1..][..i - 1];
    }
    if Resolvable(known, txs) {
      forall i, r | 0 <= i < |txs[1..]| && r in Refs(txs[1..][i])
        ensures r in next || CreatedIn(txs[1..][..i], r)
      {
        assert txs[1..][i] == txs[i + 1];
      }
      forall r | r in Refs(txs[0]) ensures r in known {
        assert txs[..0] == [];
      }
    }
    if (forall r <- Refs(txs[0]) :: r in known) && Resolvable(next, txs[1..]) {
      forall i, r | 0 <= i < |txs| && r in Refs(txs[i]) ensures r in known || CreatedIn(txs[..i], r) {
        if i > 0 {
          assert txs[1..][i - 1] == txs[i];
        }
      }
    }
  }

  lemma {:induction false} StepsIff(cfg: Config, height: nat, index: nat, txs: seq<Tx>, st: Stage)
    requires HaveInputs(txs) && NoneOf(st.resolver, Txids(txs)) && NoDup(Txids(txs))
    ensures Steps(cfg, height, index, txs, st).Some? <==> Resolvable(st.resolver, txs)
    decreases |txs|
  {
    if txs != [] {
      TxidsHead(txs);
      if Resolves(st, txs[0]) {
        var s := TxStep(cfg, height, index, txs[0], st).value;
        StageExtends(cfg, height, index, txs[0], st);
        hide TxStep;
        ResolvableFirst(st.resolver, s.resolver, txs);
        StepsIff(cfg, height, index + 1, txs[1..], s);
      } else {
        var r :| r in Refs(txs[0]) && r !in st.resolver;
        assert txs[..0] == [] && !CreatedIn(txs[..0], r);
      }
    }
  }

  /** A block applies exactly if each input after the coinbase is an unspent output or
      one that an earlier transaction of the block, not the coinbase, creates. */
  lemma {:induction false} AppliesIff(cfg: Config, height: nat, block: Block, t: Tables)
    requires WellFormed(t, height, block.txs)
    ensures Apply(cfg, height, block, t).Some? <==> Resolvable(t.utxos, block.txs[1..])
  {
    hide DunePart, InscPart, Steps, LastStage, SpendAll, InputsOnly;
    var txs := block.txs;
    var first := FirstStage(cfg, height, txs, t);
    TxidsHead(txs);
    FirstReady(cfg, height, txs, t);
    StepsIff(cfg, height, 1, txs[1..], first);
    forall i, r | 0 <= i < |txs[1..]| && r in Refs(txs[1..][i]) ensures r in first.resolver <==> r in t.utxos {
      AllRefsHas(txs[1..], txs[1..][i]);
    }
  }
}
