/** The counters of the inscription index: every completed inscription is counted once,
    when it leaves its block, and lost sats are what the coinbase leaves unclaimed. */
module BlockCounts {
  import opened Prelude
  import opened ChainTypes
  import opened Placement
  import opened Inscriptions
  import opened InscriptionLaws
  import opened LiveInscriptions
  import opened Utxos
  import opened BlockApply

  function IsNew(f: Flotsam): int {
    if f.isNew then 1 else 0
  }

  /** New inscriptions among those on their way. */
  ghost function NewIn(fs: seq<Flotsam>): int {
    SumBy(fs, IsNew)
  }

  lemma {:induction false} CountIs(fs: seq<Flotsam>)
    ensures CountNew(fs) == NewIn(fs)
  {
    if fs != [] {
      CountIs(fs[1..]);
    }
  }

  lemma {:induction false} NoneNew(fs: seq<Flotsam>)
    requires forall f <- fs :: !f.isNew
    ensures NewIn(fs) == 0
  {
    if fs != [] {
      NoneNew(fs[1..]);
    }
  }

  lemma {:induction false} NewInSame(a: seq<Flotsam>, b: seq<Flotsam>)
    requires |a| == |b| && forall i :: 0 <= i < |a| ==> a[i].isNew == b[i].isNew
    ensures NewIn(a) == NewIn(b)
  {
    if a != [] {
      NewInSame(a[1..], b[1..]);
    }
  }

  lemma {:induction false} ArrivedNotNew(total: nat, bodies: seq<TxoBody>)
    ensures forall f <- Arrived(total, bodies) :: !f.isNew
    decreases |bodies|
  {
    if bodies != [] {
      ArrivedNotNew(total + bodies[0].txout.value, bodies[1..]);
    }
  }

  /** Sats of the inputs. */
  function Worth(bodies: seq<TxoBody>): nat {
    if bodies == [] then 0 else bodies[0].txout.value + Worth(bodies[1..])
  }

  /** What the inputs bring beyond the outputs. */
  function Fee(tx: Tx, bodies: seq<TxoBody>): nat {
    if Worth(bodies) < Total(tx.outputs) then 0 else Worth(bodies) - Total(tx.outputs)
  }

  lemma {:induction false} EnterWorth(inc: Incoming, refs: seq<TxoRef>, bodies: seq<TxoBody>)
    requires |refs| == |bodies|
    ensures EnterInputs(inc, refs, bodies).total == inc.total + Worth(bodies)
    decreases |refs|
  {
    if refs != [] {
      EnterAllArrives(inc, refs[0], bodies[0], bodies[0].inscriptions);
      EnterWorth(EnterInput(inc, refs[0], bodies[0]), refs[1..], bodies[1..]);
    }
  }

  // ----- one transaction -----

  /** What a transaction does to the counters, the reward and what is on its way. */
  ghost predicate Counts(tx: Tx, bodies: seq<TxoBody>, a: InscState, b: InscState)
    requires tx.inputs != []
  {
    && b.counters.blessed + NewIn(b.carried)
       == a.counters.blessed + NewIn(a.carried) + (if Completes(a.partials, tx, bodies) then 1 else 0)
    && b.counters.sequence - a.counters.sequence == b.counters.blessed - a.counters.blessed
    && (if IsCoinbase(tx)
        then b.carried == [] && b.counters.lostSats == (a.counters.lostSats + a.reward - Total(tx.outputs)) % U64
        else b.reward == a.reward + Fee(tx, bodies) && b.counters.lostSats == a.counters.lostSats)
  }

  lemma {:induction false} FloatsNew(
    cfg: Config, height: nat, tx: Tx, refs: seq<TxoRef>, bodies: seq<TxoBody>, st: InscState)
    requires |refs| == |bodies| && tx.inputs != [] && (IsCoinbase(tx) ==> bodies == [])
    ensures NewIn(Floats(cfg, height, tx, refs, bodies, st))
         == (if Completes(st.partials, tx, bodies) then 1 else 0) + if IsCoinbase(tx) then NewIn(st.carried) else 0
  {
    var arrivals := Arrivals(cfg, height, tx, refs, bodies).floats;
    FoundIff(cfg, height, tx, refs, bodies, st);
    if IsCoinbase(tx) {
      assert arrivals == [];
    } else {
      InputsArrive(Incoming([], map[], 0), refs, bodies);
      ArrivedNotNew(0, bodies);
      assert arrivals == Arrived(0, bodies);
    }
    hide Completes, Arrivals, Reveal;
    NoneNew(arrivals);
    var found := Reveal(st.partials, tx, arrivals).found;
    FloatingNew(tx, arrivals, found, st.carried);
  }

  lemma FloatingNew(tx: Tx, arrivals: seq<Flotsam>, found: Option<Discovery>, carried: seq<Flotsam>)
    ensures NewIn(Floating(tx, arrivals, found, carried))
         == NewIn(arrivals) + (if found.Some? then 1 else 0) + if IsCoinbase(tx) then NewIn(carried) else 0
  {
    var own := if found.Some? then [Flotsam(found.value.id, 0, true)] else [];
    var late := if IsCoinbase(tx) then carried else [];
    SumByConcat(arrivals + own, late, IsNew);
    SumByConcat(arrivals, own, IsNew);
    assert own != [] ==> own[1..] == [];
  }

  /** Sorting and placing neither lose nor add a new inscription. */
  lemma {:induction false} PlacedNew(floats: seq<Flotsam>, outs: seq<TxOut>)
    ensures var p := Place(SortByOffset(floats), outs, 0);
      CountNew(Flatten(p.perOutput)) + NewIn(p.rest) == NewIn(floats) && CountNew(p.rest) == NewIn(p.rest)
  {
    var s := SortByOffset(floats);
    SortLaw(floats);
    PlaceKeepsAll(s, outs, 0);
    hide SortByOffset, Place, NewIn, CountNew, Flatten;
    var p := Place(s, outs, 0);
    CountIs(Flatten(p.perOutput));
    CountIs(p.rest);
    NewInSplits(floats, s, Flatten(p.perOutput), p.rest);
  }

  lemma NewInSplits(floats: seq<Flotsam>, s: seq<Flotsam>, a: seq<Flotsam>, b: seq<Flotsam>)
    requires multiset(s) == multiset(floats) && a + b == s
    ensures NewIn(a) + NewIn(b) == NewIn(floats)
  {
    SumByPermutation(s, floats, IsNew);
    SumByConcat(a, b, IsNew);
  }

  lemma StateIs(cfg: Config, height: nat, tx: Tx, refs: seq<TxoRef>, bodies: seq<TxoBody>, st: InscState)
    requires |refs| == |bodies| && tx.inputs != []
    ensures var b := IndexInscriptions(cfg, height, tx, refs, bodies, st).state;
      var p := Placing0(cfg, height, tx, refs, bodies, st);
      var total := Arrivals(cfg, height, tx, refs, bodies).total;
      && b.counters == NextCounters(tx, st.counters, p, st.reward)
      && b.carried == (if IsCoinbase(tx) then [] else st.carried + Carry(p.rest, st.reward, Total(tx.outputs)))
      && b.reward == (if IsCoinbase(tx) || total < Total(tx.outputs) then st.reward
                      else st.reward + total - Total(tx.outputs))
  {
    hide Reveal, Releases, Announce, NextCounters, SortByOffset, Arrivals, Place, Locals, Floating, Carry;
  }

  /** A completed inscription is counted once, when it is placed or lost; until then it
      is on its way to the coinbase. Fees add up to the reward, and what the coinbase
      does not pay out of it is lost. */
  lemma {:induction false} TransactionCounts(
    cfg: Config, height: nat, tx: Tx, refs: seq<TxoRef>, bodies: seq<TxoBody>, st: InscState)
    requires |refs| == |bodies| && tx.inputs != [] && (IsCoinbase(tx) ==> bodies == [])
    ensures Counts(tx, bodies, st, IndexInscriptions(cfg, height, tx, refs, bodies, st).state)
  {
    hide IndexInscriptions, Completes, CountNew, Flatten, Floats, Place, SortByOffset, Placing0, Arrivals, NewIn, Fee;
    var p := Placing0(cfg, height, tx, refs, bodies, st);
    StateIs(cfg, height, tx, refs, bodies, st);
    FloatsNew(cfg, height, tx, refs, bodies, st);
    PlacingNew(cfg, height, tx, refs, bodies, st);
    NoneNew([]);
    if !IsCoinbase(tx) {
      ArrivalsWorth(cfg, height, tx, refs, bodies);
      CarriedNew(st.carried, p.rest, st.reward, Total(tx.outputs));
    }
  }

  lemma PlacingNew(cfg: Config, height: nat, tx: Tx, refs: seq<TxoRef>, bodies: seq<TxoBody>, st: InscState)
    requires |refs| == |bodies| && tx.inputs != []
    ensures var p := Placing0(cfg, height, tx, refs, bodies, st);
      && CountNew(Flatten(p.perOutput)) + NewIn(p.rest) == NewIn(Floats(cfg, height, tx, refs, bodies, st))
      && CountNew(p.rest) == NewIn(p.rest)
  {
    hide CountNew, Flatten, Floats, Place, SortByOffset, NewIn;
    PlacedNew(Floats(cfg, height, tx, refs, bodies, st), tx.outputs);
  }

  lemma ArrivalsWorth(cfg: Config, height: nat, tx: Tx, refs: seq<TxoRef>, bodies: seq<TxoBody>)
    requires |refs| == |bodies| && !IsCoinbase(tx)
    ensures var total := Arrivals(cfg, height, tx, refs, bodies).total;
      if total < Total(tx.outputs) then Fee(tx, bodies) == 0 else Fee(tx, bodies) == total - Total(tx.outputs)
  {
    EnterWorth(Incoming([], map[], 0), refs, bodies);
  }

  lemma CarriedNew(carried: seq<Flotsam>, rest: seq<Flotsam>, reward: nat, total: nat)
    ensures NewIn(carried + Carry(rest, reward, total)) == NewIn(carried) + NewIn(rest)
  {
    SumByConcat(carried, Carry(rest, reward, total), IsNew);
    NewInSame(Carry(rest, reward, total), rest);
  }

  // ----- a block -----

  /** Fees of the transactions of the list. */
  function Fees(cfg: Config, height: nat, index: nat, txs: seq<Tx>, st: Stage): nat
    requires HaveInputs(txs)
    decreases |txs|
  {
    if txs == [] || TxStep(cfg, height, index, txs[0], st).None? then 0
    else
      Fee(txs[0], Fetch(st.resolver, Refs(txs[0])))
      + Fees(cfg, height, index + 1, txs[1..], TxStep(cfg, height, index, txs[0], st).value)
  }

  /** How many of them complete an inscription. */
  function Completed(cfg: Config, height: nat, index: nat, txs: seq<Tx>, st: Stage): nat
    requires HaveInputs(txs)
    decreases |txs|
  {
    if txs == [] || TxStep(cfg, height, index, txs[0], st).None? then 0
    else
      (if Completes(st.insc.partials, txs[0], Fetch(st.resolver, Refs(txs[0]))) then 1 else 0)
      + Completed(cfg, height, index + 1, txs[1..], TxStep(cfg, height, index, txs[0], st).value)
  }

  lemma {:induction false} StepsCount(cfg: Config, height: nat, index: nat, txs: seq<Tx>, st: Stage)
    requires HaveInputs(txs) && Steps(cfg, height, index, txs, st).Some?
    requires cfg.firstInscriptionHeight <= height && forall tx <- txs :: !IsCoinbase(tx)
    ensures var a, b := st.insc, Steps(cfg, height, index, txs, st).value.insc;
      && b.counters.blessed + NewIn(b.carried)
         == a.counters.blessed + NewIn(a.carried) + Completed(cfg, height, index, txs, st)
      && b.counters.sequence - a.counters.sequence == b.counters.blessed - a.counters.blessed
      && b.reward == a.reward + Fees(cfg, height, index, txs, st)
      && b.counters.lostSats == a.counters.lostSats
    decreases |txs|
  {
    hide DunePart, IndexInscriptions, OutBodies, NewIn, Completes, Fee;
    if txs != [] {
      assert txs[0] in txs;
      var s := TxStep(cfg, height, index, txs[0], st).value;
      TransactionCounts(cfg, height, txs[0], Refs(txs[0]), Fetch(st.resolver, Refs(txs[0])), st.insc);
      StepsCount(cfg, height, index + 1, txs[1..], s);
    }
  }

  /** A block counts one inscription for every transaction that completes one, and loses
      the sats of subsidy and fees that its coinbase does not pay out. */
  lemma {:induction false} BlockCounts(cfg: Config, height: nat, block: Block, t: Tables)
    requires block.txs != [] && HaveInputs(block.txs) && Apply(cfg, height, block, t).Some?
    requires cfg.firstInscriptionHeight <= height
    requires IsCoinbase(block.txs[0]) && forall tx <- block.txs[1..] :: !IsCoinbase(tx)
    ensures var txs, first := block.txs, FirstStage(cfg, height, block.txs, t);
      var a, b := t.counters, Apply(cfg, height, block, t).value.0.counters;
      var last := Steps(cfg, height, 1, txs[1..], first);
      && last.Some?
      && b.blessed == a.blessed + Completed(cfg, height, 1, txs[1..], first)
                      + (if Completes(last.value.insc.partials, txs[0], []) then 1 else 0)
      && b.sequence - a.sequence == b.blessed - a.blessed
      && b.lostSats == (a.lostSats + cfg.subsidy(height) + Fees(cfg, height, 1, txs[1..], first)
                        - Total(txs[0].outputs)) % U64
  {
    hide DunePart, IndexInscriptions, Steps, External, SpendAll, InputsOnly, Completed, Fees, Completes;
    var txs, first := block.txs, FirstStage(cfg, height, block.txs, t);
    StepsCount(cfg, height, 1, txs[1..], first);
    TransactionCounts(cfg, height, txs[0], [], [], Steps(cfg, height, 1, txs[1..], first).value.insc);
  }

  /** Before its first height the index counts nothing. */
  lemma {:induction false} StepsQuiet(cfg: Config, height: nat, index: nat, txs: seq<Tx>, st: Stage)
    requires HaveInputs(txs) && Steps(cfg, height, index, txs, st).Some?
    requires height < cfg.firstInscriptionHeight
    ensures Steps(cfg, height, index, txs, st).value.insc == st.insc
    decreases |txs|
  {
    hide DunePart, OutBodies;
    if txs != [] {
      StepsQuiet(cfg, height, index + 1, txs[1..], TxStep(cfg, height, index, txs[0], st).value);
    }
  }

  /** Then a block leaves inscriptions, tickers and counters as they were. */
  lemma {:induction false} BlockQuiet(cfg: Config, height: nat, block: Block, t: Tables)
    requires block.txs != [] && HaveInputs(block.txs) && Apply(cfg, height, block, t).Some?
    requires height < cfg.firstInscriptionHeight
    ensures var t' := Apply(cfg, height, block, t).value.0;
      t'.counters == t.counters && t'.drc == t.drc && t'.partials == t.partials
  {
    hide DunePart, Steps, External, SpendAll, InputsOnly;
    StepsQuiet(cfg, height, 1, block.txs[1..], FirstStage(cfg, height, block.txs, t));
  }
}
