/** The unspent-output table: how a block updates it, how a rollback takes the
    update back, and how sums over it move. */
module Utxos {
  import opened Prelude
  import opened ChainTypes

  type Table = map<TxoRef, TxoBody>

  function Refs(tx: Tx): (r: seq<TxoRef>)
    ensures |r| == |tx.inputs|
    ensures forall i :: 0 <= i < |r| ==> r[i] == tx.inputs[i].prev
  {
    seq(|tx.inputs|, i requires 0 <= i < |tx.inputs| => tx.inputs[i].prev)
  }

  predicate Creates(tx: Tx, r: TxoRef) {
    r.txid == tx.txid && r.vout < |tx.outputs|
  }

  const NO_BODY := TxoBody(0, TxOut(0, 0, false), map[], [], map[])

  function Lookup(res: Table, r: TxoRef): TxoBody {
    if r in res then res[r] else NO_BODY
  }

  function Fetch(res: Table, refs: seq<TxoRef>): (r: seq<TxoBody>)
    ensures |r| == |refs|
    ensures forall i :: 0 <= i < |r| ==> r[i] == Lookup(res, refs[i])
  {
    seq(|refs|, i requires 0 <= i < |refs| => Lookup(res, refs[i]))
  }

  function OutRefs(txid: Txid, n: nat): (r: seq<TxoRef>)
    ensures |r| == n
    ensures forall i :: 0 <= i < n ==> r[i] == TxoRef(txid, i)
  {
    seq(n, i requires 0 <= i < n => TxoRef(txid, i))
  }

  // ----- one transaction -----

  function AddAll(u: Table, refs: seq<TxoRef>, bodies: seq<TxoBody>): Table
    requires |refs| == |bodies|
    decreases |refs|
  {
    if refs == [] then u else AddAll(u[refs[0] := bodies[0]], refs[1..], bodies[1..])
  }

  function RemoveAll(u: Table, refs: seq<TxoRef>): Table
    decreases |refs|
  {
    if refs == [] then u else RemoveAll(u - {refs[0]}, refs[1..])
  }

  /** Inserts the outputs, then deletes the inputs. */
  function Spend(u: Table, tx: Tx, res: Table): Table {
    var outs := OutRefs(tx.txid, |tx.outputs|);
    RemoveAll(AddAll(u, outs, Fetch(res, outs)), Refs(tx))
  }

  function SpendAll(u: Table, txs: seq<Tx>, res: Table): Table
    decreases |txs|
  {
    if txs == [] then u else SpendAll(Spend(u, txs[0], res), txs[1..], res)
  }

  function Without(u: Table, refs: seq<TxoRef>): Table {
    map r | r in u && r !in refs :: u[r]
  }

  lemma {:induction false} RemoveAllIs(u: Table, refs: seq<TxoRef>)
    ensures RemoveAll(u, refs) == Without(u, refs)
    decreases |refs|
  {
    if refs != [] {
      RemoveAllIs(u - {refs[0]}, refs[1..]);
      assert refs == [refs[0]] + refs[1..];
    }
  }

  lemma {:induction false} AddAllIs(u: Table, refs: seq<TxoRef>, bodies: seq<TxoBody>)
    requires |refs| == |bodies| && NoDup(refs)
    ensures var a := AddAll(u, refs, bodies);
      && a.Keys == u.Keys + (set r | r in refs)
      && (forall i :: 0 <= i < |refs| ==> a[refs[i]] == bodies[i])
      && (forall r :: r in u && r !in refs ==> a[r] == u[r])
    decreases |refs|
  {
    if refs != [] {
      assert refs == [refs[0]] + refs[1..];
      NoDupConcat([refs[0]], refs[1..]);
      assert refs[0] in [refs[0]];
      AddAllIs(u[refs[0] := bodies[0]], refs[1..], bodies[1..]);
    }
  }

  /** The table after one transaction, read key by key. */
  lemma SpendIs(u: Table, tx: Tx, res: Table)
    ensures var s := Spend(u, tx, res);
      && (forall r :: r in s <==> (r in u || Creates(tx, r)) && r !in Refs(tx))
      && (forall r :: r in s && Creates(tx, r) ==> s[r] == Lookup(res, r))
      && (forall r :: r in s && !Creates(tx, r) ==> s[r] == u[r])
  {
    var outs := OutRefs(tx.txid, |tx.outputs|);
    assert NoDup(outs);
    AddAllIs(u, outs, Fetch(res, outs));
    RemoveAllIs(AddAll(u, outs, Fetch(res, outs)), Refs(tx));
    forall r ensures r in outs <==> Creates(tx, r) {
      if Creates(tx, r) {
        assert outs[r.vout] == r;
      }
    }
    forall r | Creates(tx, r) ensures AddAll(u, outs, Fetch(res, outs))[r] == Lookup(res, r) {
      assert outs[r.vout] == r;
    }
  }

  // ----- a block -----

  /** Spending `tx` from `u` is consistent with the resolver: inputs are distinct,
      live and resolved to their bodies, outputs are new and resolved. */
  ghost predicate StepOk(u: Table, tx: Tx, res: Table) {
    && NoDup(Refs(tx))
    && (forall r <- Refs(tx) :: r in u && r in res && res[r] == u[r] && !Creates(tx, r))
    && (forall r | Creates(tx, r) :: r !in u && r in res)
  }

  ghost predicate Spends(u: Table, txs: seq<Tx>, res: Table)
    decreases |txs|
  {
    txs == [] || (StepOk(u, txs[0], res) && Spends(Spend(u, txs[0], res), txs[1..], res))
  }

  function AllRefs(txs: seq<Tx>): seq<TxoRef> {
    if txs == [] then [] else Refs(txs[0]) + AllRefs(txs[1..])
  }

  lemma {:induction false} SpendsConcat(u: Table, a: seq<Tx>, b: seq<Tx>, res: Table)
    ensures SpendAll(u, a + b, res) == SpendAll(SpendAll(u, a, res), b, res)
    ensures Spends(u, a + b, res) <==> Spends(u, a, res) && Spends(SpendAll(u, a, res), b, res)
    decreases |a|
  {
    if a == [] {
      assert a + b == b;
    } else {
      assert (a + b)[1..] == a[1..] + b;
      SpendsConcat(Spend(u, a[0], res), a[1..], b, res);
    }
  }

  /** Peeling off the last transaction. */
  lemma SpendsLast(u: Table, init: seq<Tx>, last: Tx, res: Table)
    ensures SpendAll(u, init + [last], res) == Spend(SpendAll(u, init, res), last, res)
    ensures Spends(u, init + [last], res) <==> Spends(u, init, res) && StepOk(SpendAll(u, init, res), last, res)
  {
    SpendsConcat(u, init, [last], res);
    assert [last][1..] == [];
  }

  lemma AllRefsLast(init: seq<Tx>, last: Tx)
    ensures AllRefs(init + [last]) == AllRefs(init) + Refs(last)
  {
    AllRefsConcat(init, [last]);
    assert [last][1..] == [];
  }

  lemma {:induction false} AllRefsConcat(a: seq<Tx>, b: seq<Tx>)
    ensures AllRefs(a + b) == AllRefs(a) + AllRefs(b)
    decreases |a|
  {
    if a == [] {
      assert a + b == b;
    } else {
      assert (a + b)[1..] == a[1..] + b;
      AllRefsConcat(a[1..], b);
      ConcatAssoc(Refs(a[0]), AllRefs(a[1..]), AllRefs(b));
    }
  }

  // ----- undo -----

  /** Puts back the inputs, taking each out of the resolver; None when one is
      missing there. */
  function PutBack(u: Table, refs: seq<TxoRef>, res: Table): Option<(Table, Table)>
    decreases |refs|
  {
    if refs == [] then Some((u, res))
    else if refs[0] !in res then None
    else PutBack(u[refs[0] := res[refs[0]]], refs[1..], res - {refs[0]})
  }

  /** Undoes the transaction at position `index` of its block; the coinbase has
      no inputs to put back. */
  function Unspend(u: Table, tx: Tx, index: nat, res: Table): Option<(Table, Table)> {
    var back := if index == 0 then Some((u, res)) else PutBack(u, Refs(tx), res);
    if back.None? then None
    else Some((RemoveAll(back.value.0, OutRefs(tx.txid, |tx.outputs|)), back.value.1))
  }

  lemma {:induction false} PutBackIs(u: Table, refs: seq<TxoRef>, res: Table)
    requires NoDup(refs) && forall r <- refs :: r in res
    ensures var b := PutBack(u, refs, res);
      && b.Some?
      && (forall r :: r in b.value.0 <==> r in u || r in refs)
      && (forall r :: r in b.value.0 ==> b.value.0[r] == if r in refs then res[r] else u[r])
      && b.value.1 == Without(res, refs)
    decreases |refs|
  {
    if refs != [] {
      assert refs == [refs[0]] + refs[1..];
      NoDupConcat([refs[0]], refs[1..]);
      assert refs[0] in [refs[0]];
      PutBackIs(u[refs[0] := res[refs[0]]], refs[1..], res - {refs[0]});
    }
  }

  /** The two tables agree on these references. */
  ghost predicate AgreeOn(rem: Table, res: Table, refs: seq<TxoRef>) {
    forall r <- refs :: r in rem && r in res && rem[r] == res[r]
  }

  lemma UnspendOne(u: Table, tx: Tx, index: nat, res: Table, rem: Table)
    requires index != 0 && StepOk(u, tx, res) && AgreeOn(rem, res, Refs(tx))
    ensures Unspend(Spend(u, tx, res), tx, index, rem)
         == Some((u, Without(rem, Refs(tx))))
  {
    var s := Spend(u, tx, res);
    SpendIs(u, tx, res);
    PutBackIs(s, Refs(tx), rem);
    var b := PutBack(s, Refs(tx), rem).value.0;
    var outs := OutRefs(tx.txid, |tx.outputs|);
    RemoveAllIs(b, outs);
    forall r ensures r in outs <==> Creates(tx, r) {
      if Creates(tx, r) {
        assert outs[r.vout] == r;
      }
    }
    assert RemoveAll(b, outs) == u;
  }

  /** Undoes the transactions at positions `1 .. |txs|` of a block, last first. */
  function UnspendAll(u: Table, txs: seq<Tx>, rem: Table): Option<(Table, Table)>
    decreases |txs|
  {
    if txs == [] then Some((u, rem))
    else
      var n := |txs| - 1;
      var s := Unspend(u, txs[n], n + 1, rem);
      if s.None? then None else UnspendAll(s.value.0, txs[..n], s.value.1)
  }

  /** Undoing the spends of a block restores the table exactly. */
  lemma {:induction false} UnspendAllRestores(u: Table, txs: seq<Tx>, res: Table, rem: Table)
    requires Spends(u, txs, res) && NoDup(AllRefs(txs)) && AgreeOn(rem, res, AllRefs(txs))
    ensures var r := UnspendAll(SpendAll(u, txs, res), txs, rem); r.Some? && r.value.0 == u
    decreases |txs|
  {
    if txs != [] {
      var n := |txs| - 1;
      var init, last := txs[..n], txs[n];
      assert txs == init + [last];
      SpendsLast(u, init, last, res);
      AllRefsLast(init, last);
      NoDupConcat(AllRefs(init), Refs(last));
      UnspendOne(SpendAll(u, init, res), last, n + 1, res, rem);
      UnspendAllRestores(u, init, res, Without(rem, Refs(last)));
    }
  }

  // ----- outputs nobody in the block touches -----

  ghost predicate Untouched(extra: Table, tx: Tx) {
    forall r <- extra :: r !in Refs(tx) && !Creates(tx, r)
  }

  lemma SpendFrame(u: Table, extra: Table, tx: Tx, res: Table)
    requires Untouched(extra, tx)
    ensures Spend(u + extra, tx, res) == Spend(u, tx, res) + extra
    ensures StepOk(u, tx, res) ==> StepOk(u + extra, tx, res)
  {
    SpendIs(u, tx, res);
    SpendIs(u + extra, tx, res);
  }

  lemma {:induction false} SpendAllFrame(u: Table, extra: Table, txs: seq<Tx>, res: Table)
    requires forall tx <- txs :: Untouched(extra, tx)
    ensures SpendAll(u + extra, txs, res) == SpendAll(u, txs, res) + extra
    ensures Spends(u, txs, res) ==> Spends(u + extra, txs, res)
    decreases |txs|
  {
    if txs != [] {
      SpendFrame(u, extra, txs[0], res);
      SpendAllFrame(Spend(u, txs[0], res), extra, txs[1..], res);
    }
  }

  // ----- sums over the table -----

  ghost function Weights(u: Table, w: TxoBody -> int): map<TxoRef, int> {
    map r | r in u :: w(u[r])
  }

  ghost function Weigh(u: Table, w: TxoBody -> int): int {
    Sum(Weights(u, w))
  }

  lemma {:induction false} AddAllWeigh(u: Table, refs: seq<TxoRef>, bodies: seq<TxoBody>, w: TxoBody -> int)
    requires |refs| == |bodies| && NoDup(refs) && forall r <- refs :: r !in u
    ensures Weigh(AddAll(u, refs, bodies), w) == Weigh(u, w) + SumBy(bodies, w)
    decreases |refs|
  {
    if refs != [] {
      NoDupConcat([refs[0]], refs[1..]);
      assert refs == [refs[0]] + refs[1..];
      assert refs[0] in [refs[0]];
      var u1 := u[refs[0] := bodies[0]];
      assert Weights(u1, w) == Weights(u, w)[refs[0] := w(bodies[0])];
      SumSet(Weights(u, w), refs[0], w(bodies[0]));
      AddAllWeigh(u1, refs[1..], bodies[1..], w);
    }
  }

  lemma {:induction false} RemoveAllWeigh(u: Table, refs: seq<TxoRef>, bodies: seq<TxoBody>, w: TxoBody -> int)
    requires NoDup(refs) && |bodies| == |refs|
    requires forall i :: 0 <= i < |refs| ==> refs[i] in u && bodies[i] == u[refs[i]]
    ensures Weigh(RemoveAll(u, refs), w) == Weigh(u, w) - SumBy(bodies, w)
    decreases |refs|
  {
    if refs != [] {
      var u1 := u - {refs[0]};
      assert Weights(u1, w) == Weights(u, w) - {refs[0]};
      SumRemove(Weights(u, w), refs[0]);
      forall i | 0 <= i < |refs[1..]| ensures refs[1..][i] in u1 && bodies[1..][i] == u1[refs[1..][i]] {
        assert refs[1..][i] == refs[i + 1];
      }
      RemoveAllWeigh(u1, refs[1..], bodies[1..], w);
    }
  }

  /** A sum over the table changes by what a transaction creates less what it
      spends. */
  lemma SpendWeigh(u: Table, tx: Tx, res: Table, w: TxoBody -> int)
    requires StepOk(u, tx, res)
    ensures Weigh(Spend(u, tx, res), w)
         == Weigh(u, w) - SumBy(Fetch(res, Refs(tx)), w)
            + SumBy(Fetch(res, OutRefs(tx.txid, |tx.outputs|)), w)
  {
    var outs := OutRefs(tx.txid, |tx.outputs|);
    var bodies := Fetch(res, outs);
    var added := AddAll(u, outs, bodies);
    forall r | r in outs ensures Creates(tx, r) {
    }
    AddAllWeigh(u, outs, bodies, w);
    AddAllIs(u, outs, bodies);
    RemoveAllWeigh(added, Refs(tx), Fetch(res, Refs(tx)), w);
  }
}
