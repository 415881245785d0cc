/** The books of one dune over a block: what outputs hold, what was issued,
    claimed and burned, and how claims relate to the mint count. */
module DuneBooks {
  import opened Prelude
  import opened ChainTypes
  import opened DuneLedger
  import opened DuneLaws
  import opened DuneSums
  import opened Inscriptions
  import opened Utxos
  import opened BlockApply
  import opened BlockLaws
  import opened Conservation

  function DuneW(n: nat): TxoBody -> int {
    (b: TxoBody) => Get(b.dunes, n)
  }

  /** Amount of dune `n` on live outputs. */
  ghost function Outstanding(u: Table, n: nat): int {
    Weigh(u, DuneW(n))
  }

  /** Amounts of one dune that transactions claimed, issued by etching, burned. */
  datatype Tally = Tally(minted: nat, issued: nat, burned: nat)

  function Plus(a: Tally, b: Tally): Tally {
    Tally(a.minted + b.minted, a.issued + b.issued, a.burned + b.burned)
  }

  function TallyOf(r: DuneResult, height: nat, index: nat, n: nat): Tally {
    Tally(Get(r.minted, n), if n == NewId(height, index) then r.issued else 0, Get(r.burned, n))
  }

  function TxTally(cfg: Config, height: nat, index: nat, tx: Tx, d: DuneTables, bodies: seq<TxoBody>, n: nat): Tally {
    TallyOf(DunePart(cfg, height, index, tx, d, bodies), height, index, n)
  }

  function StepsTally(cfg: Config, height: nat, index: nat, txs: seq<Tx>, st: Stage, n: nat): Tally
    requires HaveInputs(txs)
    decreases |txs|
  {
    if txs == [] || !Resolves(st, txs[0]) then Tally(0, 0, 0)
    else
      Plus(TxTally(cfg, height, index, txs[0], st.dunes, Fetch(st.resolver, Refs(txs[0])), n),
           StepsTally(cfg, height, index + 1, txs[1..], TxStep(cfg, height, index, txs[0], st).value, n))
  }

  function BlockTally(cfg: Config, height: nat, txs: seq<Tx>, t: Tables, n: nat): Tally
    requires txs != [] && HaveInputs(txs)
  {
    Plus(TxTally(cfg, height, 0, txs[0], t.dunes, [], n),
         StepsTally(cfg, height, 1, txs[1..], FirstStage(cfg, height, txs, t), n))
  }

  // ----- one transaction -----

  /** Before dunes are indexed no output holds one. */
  ghost predicate NoDunesYet(cfg: Config, height: nat, u: Table) {
    height < cfg.firstDuneHeight ==> forall r <- u :: u[r].dunes == map[]
  }

  lemma {:induction false} UnallocatedIs(acc: Balances, bodies: seq<TxoBody>, n: nat, had: nat)
    requires Get(acc, n) == Wrap(had)
    ensures 0 <= SumBy(bodies, DuneW(n))
    ensures Get(Unallocated(acc, bodies), n) == Wrap(had + SumBy(bodies, DuneW(n)))
    decreases |bodies|
  {
    SumByNonNegative(bodies, DuneW(n));
    if bodies != [] {
      SumByNonNegative(bodies[1..], DuneW(n));
      WrapAdd(had, Get(bodies[0].dunes, n));
      UnallocatedIs(AddDunes(acc, bodies[0].dunes), bodies[1..], n, had + Get(bodies[0].dunes, n));
    }
  }

  lemma {:induction false} HeldIs(outs: seq<TxoBody>, dunes: seq<Balances>, n: nat)
    requires |outs| == |dunes| && forall v :: 0 <= v < |outs| ==> outs[v].dunes == dunes[v]
    ensures SumBy(outs, DuneW(n)) == Held(dunes, n)
    decreases |outs|
  {
    if outs != [] {
      var m := |outs| - 1;
      HeldIs(outs[..m], dunes[..m], n);
      SumByConcat(outs[..m], [outs[m]], DuneW(n));
      assert outs == outs[..m] + [outs[m]];
      assert SumBy([outs[m]], DuneW(n)) == Get(outs[m].dunes, n) + SumBy([outs[m]][1..], DuneW(n));
      assert [outs[m]][1..] == [];
    }
  }

  lemma {:induction false} NoneHeld(bodies: seq<TxoBody>, n: nat)
    requires forall b <- bodies :: b.dunes == map[]
    ensures SumBy(bodies, DuneW(n)) == 0
  {
    if bodies != [] {
      NoneHeld(bodies[1..], n);
    }
  }

  /** Neither the inputs together nor any one output reach 2^128 of the dune. */
  ghost predicate TxFits(cfg: Config, height: nat, index: nat, tx: Tx, d: DuneTables, bodies: seq<TxoBody>, n: nat) {
    cfg.firstDuneHeight <= height ==>
      && SumBy(bodies, DuneW(n)) < U128
      && OutputsFit(d, tx, index, height, cfg.minimumName(height), Unallocated(map[], bodies), n)
  }

  /** Amounts before and after: nothing is created, and nothing is lost exactly if
      it `fits`. */
  ghost predicate Balanced(before: int, after: int, k: Tally, fits: bool) {
    && after + k.burned <= before + k.minted + k.issued
    && (after + k.burned == before + k.minted + k.issued <==> fits)
  }

  lemma BalancedThen(a: int, b: int, c: int, k: Tally, l: Tally, first: bool, second: bool)
    requires Balanced(a, b, k, first) && Balanced(b, c, l, second)
    ensures Balanced(a, c, Plus(k, l), first && second)
  {
  }

  lemma {:induction false} PartBalances(
    cfg: Config, height: nat, index: nat, tx: Tx, d: DuneTables, bodies: seq<TxoBody>, n: nat)
    requires height < cfg.firstDuneHeight ==> forall b <- bodies :: b.dunes == map[]
    ensures Balanced(SumBy(bodies, DuneW(n)), Held(DunePart(cfg, height, index, tx, d, bodies).outputs, n),
                     TxTally(cfg, height, index, tx, d, bodies, n), TxFits(cfg, height, index, tx, d, bodies, n))
  {
    hide IndexDunes, OutputsFit;
    if height < cfg.firstDuneHeight {
      NoneHeld(bodies, n);
      HeldEmpty(DunePart(cfg, height, index, tx, d, bodies).outputs, n);
    } else {
      UnallocatedIs(map[], bodies, n, 0);
      WrapAtMost(SumBy(bodies, DuneW(n)));
      TransactionConservesIff(d, tx, index, height, cfg.minimumName(height), Unallocated(map[], bodies), n);
    }
  }

  /** It fits in particular when inputs, minted and issued together stay below 2^128. */
  lemma {:induction false} SmallPartFits(
    cfg: Config, height: nat, index: nat, tx: Tx, d: DuneTables, bodies: seq<TxoBody>, n: nat)
    requires var k := TxTally(cfg, height, index, tx, d, bodies, n);
      SumBy(bodies, DuneW(n)) + k.minted + k.issued < U128
    ensures TxFits(cfg, height, index, tx, d, bodies, n)
  {
    hide IndexDunes, OutputsFit;
    if cfg.firstDuneHeight <= height {
      UnallocatedIs(map[], bodies, n, 0);
      WrapAtMost(SumBy(bodies, DuneW(n)));
      SmallFits(d, tx, index, height, cfg.minimumName(height), Unallocated(map[], bodies), n);
    }
  }

  // ----- claims against mint counts -----

  /** From `d` to `e`: terms are kept, mint counts grow, and `minted` of dune `n`
      is at most one limit per new mint. */
  ghost predicate WithinLimit(d: DuneTables, e: DuneTables, n: nat, minted: nat) {
    && (forall id <- d.terms :: id in e.terms && e.terms[id] == d.terms[id])
    && (forall id :: Get(d.mints, id) <= Get(e.mints, id))
    && (minted > 0 ==> Unpack(n).Some? && Unpack(n).value in e.terms)
    && (Unpack(n).Some? && Unpack(n).value in e.terms ==>
          var key := Unpack(n).value;
          minted <= (Get(e.mints, key) - Get(d.mints, key)) * Limit(e.terms[key]))
  }

  lemma WithinLimitTrans(d: DuneTables, e: DuneTables, f: DuneTables, n: nat, a: nat, b: nat)
    requires WithinLimit(d, e, n, a) && WithinLimit(e, f, n, b)
    ensures WithinLimit(d, f, n, a + b)
  {
    if Unpack(n).Some? && Unpack(n).value in f.terms {
      var key := Unpack(n).value;
      var l := Limit(f.terms[key]);
      var x, y := Get(e.mints, key) - Get(d.mints, key), Get(f.mints, key) - Get(e.mints, key);
      assert (x + y) * l == x * l + y * l;
      assert 0 <= x * l;
    }
  }

  lemma {:induction false} TermsKept(d: DuneTables, tx: Tx, index: nat, height: nat, minimum: nat, un: Balances)
    requires DuneId(height, index) !in d.terms
    ensures var e := IndexDunes(d, tx, index, height, minimum, un).tables;
      forall id <- d.terms :: id in e.terms && e.terms[id] == d.terms[id]
  {
    if tx.dunestone.Some? {
      StoneTermsKept(d, tx.dunestone.value, index, height, minimum,
                     StartPools(d, tx, tx.dunestone.value, index, height, minimum, un),
                     EndPools(d, tx, tx.dunestone.value, index, height, minimum, un));
    }
  }

  lemma StoneTermsKept(d: DuneTables, stone: Dunestone, index: nat, height: nat, minimum: nat, start: Pools, end: Pools)
    requires DuneId(height, index) !in d.terms
    ensures var e := TablesAfter(d, stone, index, height, minimum, start, end);
      forall id <- d.terms :: id in e.terms && e.terms[id] == d.terms[id]
  {
  }

  lemma {:induction false} PartWithinLimit(
    cfg: Config, height: nat, index: nat, tx: Tx, d: DuneTables, bodies: seq<TxoBody>, n: nat)
    requires NoZeros(d.mints) && DuneId(height, index) !in d.terms
    ensures WithinLimit(d, DunePart(cfg, height, index, tx, d, bodies).tables, n,
                        TxTally(cfg, height, index, tx, d, bodies, n).minted)
  {
    hide IndexDunes;
    if cfg.firstDuneHeight <= height {
      var minimum := cfg.minimumName(height);
      var un := Unallocated(map[], bodies);
      TermsKept(d, tx, index, height, minimum, un);
      MintWithinLimit(d, tx, index, height, minimum, un, n);
      OneMint(d, IndexDunes(d, tx, index, height, minimum, un).tables, n,
              Get(IndexDunes(d, tx, index, height, minimum, un).minted, n));
    } else {
      assert Get(map[], n) == 0;
    }
  }

  lemma OneMint(d: DuneTables, e: DuneTables, n: nat, minted: nat)
    requires forall id <- d.terms :: id in e.terms && e.terms[id] == d.terms[id]
    requires forall id :: Get(d.mints, id) <= Get(e.mints, id)
    requires minted > 0 ==>
      && Unpack(n).Some?
      && var key := Unpack(n).value;
      && key in d.terms && minted <= Limit(d.terms[key]) && Get(e.mints, key) == Get(d.mints, key) + 1
    ensures WithinLimit(d, e, n, minted)
  {
    hide Limit, Unpack;
    if Unpack(n).Some? && Unpack(n).value in e.terms {
      var key := Unpack(n).value;
      TimesLimit(Get(e.mints, key) - Get(d.mints, key), Limit(e.terms[key]));
    }
  }

  lemma TimesLimit(mints: nat, limit: nat)
    ensures 0 <= mints * limit && (mints == 1 ==> mints * limit == limit)
  {
  }

  lemma {:induction false} StepsWithinLimit(cfg: Config, height: nat, index: nat, txs: seq<Tx>, st: Stage, n: nat)
    requires HaveInputs(txs) && Steps(cfg, height, index, txs, st).Some?
    requires DuneInv(st.dunes) && NoneEtchedFrom(st.dunes, height, index) && height < U64
    ensures WithinLimit(st.dunes, Steps(cfg, height, index, txs, st).value.dunes, n,
                        StepsTally(cfg, height, index, txs, st, n).minted)
    decreases |txs|
  {
    hide DunePart, InscPart, TxTally, DuneInv, WithinLimit, OutBodies;
    if txs == [] {
      WithinLimitStart(st.dunes, n);
    } else {
      var s := TxStep(cfg, height, index, txs[0], st).value;
      var bodies := Fetch(st.resolver, Refs(txs[0]));
      DunePartKeeps(cfg, height, index, txs[0], st.dunes, bodies);
      InvNoZeros(st.dunes);
      PartWithinLimit(cfg, height, index, txs[0], st.dunes, bodies, n);
      StepsWithinLimit(cfg, height, index + 1, txs[1..], s, n);
      WithinLimitTrans(st.dunes, s.dunes, Steps(cfg, height, index, txs, st).value.dunes, n,
                       TxTally(cfg, height, index, txs[0], st.dunes, bodies, n).minted,
                       StepsTally(cfg, height, index + 1, txs[1..], s, n).minted);
    }
  }

  lemma WithinLimitStart(d: DuneTables, n: nat)
    ensures WithinLimit(d, d, n, 0)
  {
  }

  lemma InvNoZeros(d: DuneTables)
    requires DuneInv(d)
    ensures NoZeros(d.mints)
  {
  }

  // ----- through the output table -----

  lemma {:induction false} StepOutstanding(
    cfg: Config, height: nat, index: nat, tx: Tx, st: Stage, u: Table, res: Table, n: nat)
    requires tx.inputs != [] && Resolves(st, tx) && NoneOf(st.resolver, [tx.txid])
    requires Extends(res, TxStep(cfg, height, index, tx, st).value.resolver)
    requires StepOk(u, tx, res) && NoDunesYet(cfg, height, u)
    ensures var bodies := Fetch(st.resolver, Refs(tx));
      && Balanced(Outstanding(u, n), Outstanding(Spend(u, tx, res), n),
                  TxTally(cfg, height, index, tx, st.dunes, bodies, n),
                  TxFits(cfg, height, index, tx, st.dunes, bodies, n))
      && SumBy(bodies, DuneW(n)) <= Outstanding(u, n)
    ensures NoDunesYet(cfg, height, Spend(u, tx, res))
  {
    hide Spend, InscPart, TxTally, TxStep, TxFits;
    var bodies := Fetch(st.resolver, Refs(tx));
    var outs := OutBodies(cfg, height, index, tx, st);
    FetchStep(cfg, height, index, tx, st, res);
    SpendMoves(u, tx, res);
    SpendWeigh(u, tx, res, DuneW(n));
    RemoveAllWeigh(u, Refs(tx), bodies, DuneW(n));
    OutstandingNonNegative(RemoveAll(u, Refs(tx)), n);
    PartBalances(cfg, height, index, tx, st.dunes, bodies, n);
    HeldIs(outs, DunePart(cfg, height, index, tx, st.dunes, bodies).outputs, n);
  }

  lemma OutstandingNonNegative(u: Table, n: nat)
    ensures 0 <= Outstanding(u, n)
  {
    SumNonNegative(Weights(u, DuneW(n)));
  }

  /** Every transaction of the list fits. */
  ghost predicate StepsFit(cfg: Config, height: nat, index: nat, txs: seq<Tx>, st: Stage, n: nat)
    requires HaveInputs(txs)
    decreases |txs|
  {
    txs == [] || !Resolves(st, txs[0])
    || (&& TxFits(cfg, height, index, txs[0], st.dunes, Fetch(st.resolver, Refs(txs[0])), n)
        && StepsFit(cfg, height, index + 1, txs[1..], TxStep(cfg, height, index, txs[0], st).value, n))
  }

  lemma {:induction false} StepsOutstanding(
    cfg: Config, height: nat, index: nat, txs: seq<Tx>, st: Stage, u: Table, res: Table, n: nat)
    requires HaveInputs(txs) && NoneOf(st.resolver, Txids(txs)) && NoDup(Txids(txs))
    requires Steps(cfg, height, index, txs, st).Some?
    requires Extends(res, Steps(cfg, height, index, txs, st).value.resolver)
    requires Spends(u, txs, res) && NoDunesYet(cfg, height, u)
    ensures var k := StepsTally(cfg, height, index, txs, st, n);
      && Balanced(Outstanding(u, n), Outstanding(SpendAll(u, txs, res), n), k, StepsFit(cfg, height, index, txs, st, n))
      && (Outstanding(u, n) + k.minted + k.issued < U128 ==> StepsFit(cfg, height, index, txs, st, n))
    ensures NoDunesYet(cfg, height, SpendAll(u, txs, res))
    decreases |txs|
  {
    hide Spend, DunePart, InscPart, StepOk, TxTally, NoDunesYet, TxFits;
    if txs != [] {
      var s := TxStep(cfg, height, index, txs[0], st).value;
      var bodies := Fetch(st.resolver, Refs(txs[0]));
      StepLeaves(cfg, height, index, txs, st);
      hide TxStep;
      StepsExtend(cfg, height, index + 1, txs[1..], s);
      StepOutstanding(cfg, height, index, txs[0], st, u, res, n);
      StepsOutstanding(cfg, height, index + 1, txs[1..], s, Spend(u, txs[0], res), res, n);
      BalancedThen(Outstanding(u, n), Outstanding(Spend(u, txs[0], res), n), Outstanding(SpendAll(u, txs, res), n),
                   TxTally(cfg, height, index, txs[0], st.dunes, bodies, n),
                   StepsTally(cfg, height, index + 1, txs[1..], s, n),
                   TxFits(cfg, height, index, txs[0], st.dunes, bodies, n),
                   StepsFit(cfg, height, index + 1, txs[1..], s, n));
      if Outstanding(u, n) + StepsTally(cfg, height, index, txs, st, n).minted
         + StepsTally(cfg, height, index, txs, st, n).issued < U128 {
        SmallPartFits(cfg, height, index, txs[0], st.dunes, bodies, n);
      }
    }
  }

  lemma {:induction false} CoinbaseWeigh(u: Table, cb: Tx, res: Table, w: TxoBody -> int)
    requires forall r | Creates(cb, r) :: r in res && r !in u
    ensures Weigh(u + CoinbaseOuts(cb, res), w)
         == Weigh(u, w) + SumBy(Fetch(res, OutRefs(cb.txid, |cb.outputs|)), w)
  {
    var refs := OutRefs(cb.txid, |cb.outputs|);
    OutRefsIff(cb);
    CoinbaseAdds(u, cb, res);
    AddAllWeigh(u, refs, Fetch(res, refs), w);
  }

  lemma {:induction false} LastOutstanding(
    cfg: Config, height: nat, txs: seq<Tx>, t: Tables, st: Stage, u: Table, n: nat)
    requires txs != [] && HaveInputs(txs) && NoneOf(st.resolver, [txs[0].txid])
    requires forall r | Creates(txs[0], r) :: r !in u
    requires NoDunesYet(cfg, height, u)
    ensures var next := u + CoinbaseOuts(txs[0], LastStage(cfg, height, txs, t, st).resolver);
      && NoDunesYet(cfg, height, next)
      && Balanced(Outstanding(u, n), Outstanding(next, n), TxTally(cfg, height, 0, txs[0], t.dunes, [], n),
                  TxFits(cfg, height, 0, txs[0], t.dunes, [], n))
  {
    hide InscPart, TxTally, LastStage, DunePart, TxFits, NoDunesYet, Balanced, CoinbaseOuts;
    LastQuiet(cfg, height, txs, t, st, u);
    LastBalances(cfg, height, txs, t, st, u, n);
  }

  lemma {:induction false} LastQuiet(cfg: Config, height: nat, txs: seq<Tx>, t: Tables, st: Stage, u: Table)
    requires txs != [] && HaveInputs(txs) && NoneOf(st.resolver, [txs[0].txid])
    requires forall r | Creates(txs[0], r) :: r !in u
    requires NoDunesYet(cfg, height, u)
    ensures NoDunesYet(cfg, height, u + CoinbaseOuts(txs[0], LastStage(cfg, height, txs, t, st).resolver))
  {
    var cb := txs[0];
    var res := LastStage(cfg, height, txs, t, st).resolver;
    LastGrows(cfg, height, txs, t, st);
    var outs := CoinbaseBodies(cfg, height, txs, t, st);
    hide InscPart, LastStage, DunePart;
    CoinbaseShifts(u, cb, res);
    CoinbaseQuiet(cfg, height, txs, t, u, u + CoinbaseOuts(cb, res), outs);
  }

  lemma {:induction false} LastBalances(cfg: Config, height: nat, txs: seq<Tx>, t: Tables, st: Stage, u: Table, n: nat)
    requires txs != [] && HaveInputs(txs) && NoneOf(st.resolver, [txs[0].txid])
    requires forall r | Creates(txs[0], r) :: r !in u
    ensures var next := u + CoinbaseOuts(txs[0], LastStage(cfg, height, txs, t, st).resolver);
      Balanced(Outstanding(u, n), Outstanding(next, n), TxTally(cfg, height, 0, txs[0], t.dunes, [], n),
               TxFits(cfg, height, 0, txs[0], t.dunes, [], n))
  {
    var cb := txs[0];
    var res := LastStage(cfg, height, txs, t, st).resolver;
    var dunes := CoinbaseDunes(cfg, height, txs, t).outputs;
    LastGrows(cfg, height, txs, t, st);
    var outs := CoinbaseBodies(cfg, height, txs, t, st);
    hide InscPart, TxTally, LastStage, DunePart, TxFits, NoneOf;
    CoinbaseWeigh(u, cb, res, DuneW(n));
    PartBalances(cfg, height, 0, cb, t.dunes, [], n);
    HeldIs(outs, dunes, n);
  }

  /** The coinbase outputs as the resolver holds them, with their dunes. */
  lemma CoinbaseBodies(cfg: Config, height: nat, txs: seq<Tx>, t: Tables, st: Stage) returns (outs: seq<TxoBody>)
    requires txs != [] && HaveInputs(txs)
    ensures outs == Fetch(LastStage(cfg, height, txs, t, st).resolver, OutRefs(txs[0].txid, |txs[0].outputs|))
    ensures |outs| == |txs[0].outputs|
    ensures forall v :: 0 <= v < |outs| ==> outs[v].dunes == CoinbaseDunes(cfg, height, txs, t).outputs[v]
  {
    hide InscPart, DunePart;
    var cb := txs[0];
    var i := InscPart(cfg, height, cb, [], [], st.insc);
    LastFetch(cfg, height, txs, t, st);
    outs := Bodies(height, cb.outputs, CoinbaseDunes(cfg, height, txs, t).outputs, i.outputs, i.transfers);
  }

  lemma CoinbaseQuiet(cfg: Config, height: nat, txs: seq<Tx>, t: Tables, u: Table, next: Table, outs: seq<TxoBody>)
    requires txs != [] && NoDunesYet(cfg, height, u) && Moves(u, next, txs[0], [], outs)
    requires forall v :: 0 <= v < |outs| ==> outs[v].dunes == CoinbaseDunes(cfg, height, txs, t).outputs[v]
    ensures NoDunesYet(cfg, height, next)
  {
  }

  // ----- the block -----

  /** Every transaction of the block fits. */
  ghost predicate BlockFits(cfg: Config, height: nat, txs: seq<Tx>, t: Tables, n: nat)
    requires txs != [] && HaveInputs(txs)
  {
    && TxFits(cfg, height, 0, txs[0], t.dunes, [], n)
    && StepsFit(cfg, height, 1, txs[1..], FirstStage(cfg, height, txs, t), n)
  }

  /** A block never creates a dune, and balances its books exactly if every
      transaction fits: then live amounts plus burned is what was live before plus
      claimed plus issued. All fit when that stays below 2^128. */
  lemma {:induction false} BlockBalances(cfg: Config, height: nat, block: Block, t: Tables, n: nat)
    requires WellFormed(t, height, block.txs) && NoDunesYet(cfg, height, t.utxos)
    requires Apply(cfg, height, block, t).Some?
    ensures var t' := Apply(cfg, height, block, t).value.0;
      var k := BlockTally(cfg, height, block.txs, t, n);
      && Balanced(Outstanding(t.utxos, n), Outstanding(t'.utxos, n), k, BlockFits(cfg, height, block.txs, t, n))
      && (Outstanding(t.utxos, n) + k.minted + k.issued < U128 ==> BlockFits(cfg, height, block.txs, t, n))
      && NoDunesYet(cfg, height + 1, t'.utxos)
  {
    hide DunePart, InscPart, LastStage, FirstStage, StepsTally, TxTally, Spends, External, TxFits, StepsFit;
    var txs := block.txs;
    var first := FirstStage(cfg, height, txs, t);
    var st := Steps(cfg, height, 1, txs[1..], first).value;
    var last := LastStage(cfg, height, txs, t, st);
    RestOutstanding(cfg, height, txs, t, n);
    LastGrows(cfg, height, txs, t, st);
    StagedSpends(cfg, height, txs, t);
    SpendsExtend(t.utxos, txs[1..], st.resolver, last.resolver);
    CoinbaseStaysOut(t, height, txs, st.resolver);
    LastOutstanding(cfg, height, txs, t, st, SpendAll(t.utxos, txs[1..], st.resolver), n);
    CoinbaseSmall(cfg, height, txs, t, n);
  }

  /** The coinbase has no inputs to add up. */
  lemma CoinbaseSmall(cfg: Config, height: nat, txs: seq<Tx>, t: Tables, n: nat)
    requires txs != []
    ensures var k := TxTally(cfg, height, 0, txs[0], t.dunes, [], n);
      k.minted + k.issued < U128 ==> TxFits(cfg, height, 0, txs[0], t.dunes, [], n)
    ensures 0 <= Outstanding(t.utxos, n)
  {
    hide DunePart, TxTally, TxFits;
    OutstandingNonNegative(t.utxos, n);
    var k := TxTally(cfg, height, 0, txs[0], t.dunes, [], n);
    if k.minted + k.issued < U128 {
      SmallPartFits(cfg, height, 0, txs[0], t.dunes, [], n);
    }
  }

  lemma {:induction false} RestOutstanding(cfg: Config, height: nat, txs: seq<Tx>, t: Tables, n: nat)
    requires WellFormed(t, height, txs) && NoDunesYet(cfg, height, t.utxos)
    requires Steps(cfg, height, 1, txs[1..], FirstStage(cfg, height, txs, t)).Some?
    ensures var first := FirstStage(cfg, height, txs, t);
      var st := Steps(cfg, height, 1, txs[1..], first).value;
      var k := StepsTally(cfg, height, 1, txs[1..], first, n);
      var next := SpendAll(t.utxos, txs[1..], st.resolver);
      && Spends(t.utxos, txs[1..], st.resolver) && NoneOf(st.resolver, [txs[0].txid])
      && NoDunesYet(cfg, height, next)
      && Balanced(Outstanding(t.utxos, n), Outstanding(next, n), k, StepsFit(cfg, height, 1, txs[1..], first, n))
      && (Outstanding(t.utxos, n) + k.minted + k.issued < U128 ==> StepsFit(cfg, height, 1, txs[1..], first, n))
  {
    hide DunePart, InscPart, Steps, Spends, External, StepsTally, StepsFit;
    var first := FirstStage(cfg, height, txs, t);
    var st := Steps(cfg, height, 1, txs[1..], first).value;
    TxidsHead(txs);
    FirstReady(cfg, height, txs, t);
    StepsSpend(cfg, height, 1, txs[1..], first, t.utxos, {});
    StepsExtend(cfg, height, 1, txs[1..], first);
    StepsOutstanding(cfg, height, 1, txs[1..], first, t.utxos, st.resolver, n);
  }

  lemma {:induction false} BlockWithinLimit(cfg: Config, height: nat, block: Block, t: Tables, n: nat)
    requires WellFormed(t, height, block.txs) && DuneInv(t.dunes) && height < U64
    requires Apply(cfg, height, block, t).Some?
    ensures WithinLimit(t.dunes, Apply(cfg, height, block, t).value.0.dunes, n,
                        BlockTally(cfg, height, block.txs, t, n).minted)
  {
    hide DunePart, InscPart, TxTally, DuneInv, WithinLimit, StepsTally;
    var txs := block.txs;
    var first := FirstStage(cfg, height, txs, t);
    DunePartKeeps(cfg, height, 0, txs[0], t.dunes, []);
    InvNoZeros(t.dunes);
    PartWithinLimit(cfg, height, 0, txs[0], t.dunes, [], n);
    StepsWithinLimit(cfg, height, 1, txs[1..], first, n);
    WithinLimitTrans(t.dunes, first.dunes, Steps(cfg, height, 1, txs[1..], first).value.dunes, n,
                     TxTally(cfg, height, 0, txs[0], t.dunes, [], n).minted,
                     StepsTally(cfg, height, 1, txs[1..], first, n).minted);
  }
}
