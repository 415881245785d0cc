/** Whatever blocks come and go, every dune has the terms that its own etching asked for,
    is minted only within the window of that etching, and never beyond its cap. */
module ChainTerms {
  import opened Prelude
  import opened ChainTypes
  import opened DuneLedger
  import opened DuneLaws
  import opened MintLaws
  import opened Inscriptions
  import opened Utxos
  import opened BlockApply
  import opened BlockLaws
  import opened DuneBooks
  import opened PartialChains
  import opened Chain
  import opened ChainRuns
  import opened ChainBooks

  // ----- where terms come from -----

  /** A name as asked for, long enough and not reserved, or else a reserved one. */
  ghost predicate Named(stone: Dunestone, minimum: nat, name: nat) {
    && stone.etching.Some?
    && match stone.etching.value.dune
       case Some(asked) => name == asked && minimum <= asked < 6402364363415443603228541259936211926
       case None => 6402364363415443603228541259936211926 <= name
  }

  /** Of these transactions, the first at position `index`, the one that the id names
      asked for the terms, at a height that indexes dunes. */
  ghost predicate AskedFrom(cfg: Config, index: nat, txs: seq<Tx>, key: DuneId, terms: DuneTerms) {
    && index <= key.tx < index + |txs| && key.tx < 0x1_0000 && cfg.firstDuneHeight <= key.block
    && var stone := txs[key.tx - index].dunestone;
    stone.Some? && Sets(stone.value, key.block, terms) && Named(stone.value, cfg.minimumName(key.block), terms.name)
  }

  /** From `d` to `e` terms are kept, or were asked for by these transactions. */
  ghost predicate TermsFrom(cfg: Config, d: DuneTables, e: DuneTables, height: nat, index: nat, txs: seq<Tx>) {
    forall key <- e.terms ::
      || (key in d.terms && e.terms[key] == d.terms[key])
      || (key.block == height && AskedFrom(cfg, index, txs, key, e.terms[key]))
  }

  lemma PartTerms(cfg: Config, height: nat, index: nat, tx: Tx, d: DuneTables, bodies: seq<TxoBody>)
    ensures TermsFrom(cfg, d, DunePart(cfg, height, index, tx, d, bodies).tables, height, index, [tx])
  {
    hide IndexDunes, Sets;
    if cfg.firstDuneHeight <= height {
      var un := Unallocated(map[], bodies);
      EtchIff(d, tx, index, height, cfg.minimumName(height), un);
      var name := IndexDunes(d, tx, index, height, cfg.minimumName(height), un).etched;
      assert name.Some? ==> Etches(d, tx, cfg.minimumName(height), name.value);
    }
  }

  lemma TermsThen(
    cfg: Config, d: DuneTables, e: DuneTables, f: DuneTables, height: nat, index: nat, txs: seq<Tx>)
    requires txs != []
    requires TermsFrom(cfg, d, e, height, index, [txs[0]]) && TermsFrom(cfg, e, f, height, index + 1, txs[1..])
    ensures TermsFrom(cfg, d, f, height, index, txs)
  {
    hide Sets;
  }

  lemma {:induction false} StepsTerms(cfg: Config, height: nat, index: nat, txs: seq<Tx>, st: Stage)
    requires HaveInputs(txs) && Steps(cfg, height, index, txs, st).Some?
    ensures TermsFrom(cfg, st.dunes, Steps(cfg, height, index, txs, st).value.dunes, height, index, txs)
    decreases |txs|
  {
    hide DunePart, InscPart, OutBodies, AskedFrom;
    if txs != [] {
      var s := TxStep(cfg, height, index, txs[0], st).value;
      PartTerms(cfg, height, index, txs[0], st.dunes, Fetch(st.resolver, Refs(txs[0])));
      StepsTerms(cfg, height, index + 1, txs[1..], s);
      TermsThen(cfg, st.dunes, s.dunes, Steps(cfg, height, index, txs, st).value.dunes, height, index, txs);
    }
  }

  lemma {:induction false} BlockTerms(cfg: Config, height: nat, block: Block, t: Tables)
    requires block.txs != [] && HaveInputs(block.txs) && Apply(cfg, height, block, t).Some?
    ensures TermsFrom(cfg, t.dunes, Apply(cfg, height, block, t).value.0.dunes, height, 0, block.txs)
  {
    hide DunePart, InscPart, Steps, External, SpendAll, InputsOnly, TermsFrom;
    var first := FirstStage(cfg, height, block.txs, t);
    PartTerms(cfg, height, 0, block.txs[0], t.dunes, []);
    StepsTerms(cfg, height, 1, block.txs[1..], first);
    TermsThen(cfg, t.dunes, first.dunes, Steps(cfg, height, 1, block.txs[1..], first).value.dunes, height, 0,
              block.txs);
  }

  // ----- which etchings of a block are registered -----

  /** The dune tables when the transaction at position `i` of the list comes. */
  ghost function DunesBefore(cfg: Config, height: nat, index: nat, txs: seq<Tx>, st: Stage, i: nat): DuneTables
    requires HaveInputs(txs) && i < |txs|
    decreases |txs|
  {
    if i == 0 || TxStep(cfg, height, index, txs[0], st).None? then st.dunes
    else DunesBefore(cfg, height, index + 1, txs[1..], TxStep(cfg, height, index, txs[0], st).value, i - 1)
  }

  /** The dune is in the tables exactly if the transaction, met with the tables `d`, is
      indexed, fits a 16-bit index and gets some name; and that name is the dune's. */
  ghost predicate RegisteredIff(cfg: Config, d: DuneTables, e: DuneTables, tx: Tx, id: DuneId) {
    && (id in e.terms <==>
          && cfg.firstDuneHeight <= id.block && id.tx < 0x1_0000
          && exists name: nat :: Etches(d, tx, cfg.minimumName(id.block), name))
    && (id in e.terms ==> Etches(d, tx, cfg.minimumName(id.block), e.terms[id].name))
  }

  lemma PartRegisters(cfg: Config, height: nat, index: nat, tx: Tx, d: DuneTables, bodies: seq<TxoBody>)
    requires DuneId(height, index) !in d.terms
    ensures RegisteredIff(cfg, d, DunePart(cfg, height, index, tx, d, bodies).tables, tx, DuneId(height, index))
  {
    hide IndexDunes, Sets, Etches;
    if cfg.firstDuneHeight <= height {
      var un := Unallocated(map[], bodies);
      EtchIff(d, tx, index, height, cfg.minimumName(height), un);
      var r := IndexDunes(d, tx, index, height, cfg.minimumName(height), un);
      assert r.etched.Some? ==> Etches(d, tx, cfg.minimumName(height), r.etched.value);
      assert r.etched.None? ==> forall name: nat :: !Etches(d, tx, cfg.minimumName(height), name);
    }
  }

  /** The rest of the block does not touch it. */
  lemma RegisteredStays(
    cfg: Config, d: DuneTables, e: DuneTables, f: DuneTables, tx: Tx, txs: seq<Tx>, id: DuneId)
    requires RegisteredIff(cfg, d, e, tx, id) && TermsFrom(cfg, e, f, id.block, id.tx + 1, txs)
    requires forall k <- e.terms :: k in f.terms && f.terms[k] == e.terms[k]
    ensures RegisteredIff(cfg, d, f, tx, id)
  {
    hide Sets, Etches, Named;
  }

  lemma {:induction false} StepsRegister(cfg: Config, height: nat, index: nat, txs: seq<Tx>, st: Stage, i: nat)
    requires HaveInputs(txs) && Steps(cfg, height, index, txs, st).Some? && i < |txs|
    requires DuneInv(st.dunes) && NoneEtchedFrom(st.dunes, height, index) && height < U64
    ensures RegisteredIff(cfg, DunesBefore(cfg, height, index, txs, st, i),
                          Steps(cfg, height, index, txs, st).value.dunes, txs[i], DuneId(height, index + i))
    decreases |txs|
  {
    hide DunePart, InscPart, OutBodies, DuneInv, TermsFrom, RegisteredIff;
    var s := TxStep(cfg, height, index, txs[0], st).value;
    var bodies := Fetch(st.resolver, Refs(txs[0]));
    DunePartKeeps(cfg, height, index, txs[0], st.dunes, bodies);
    if i == 0 {
      PartRegisters(cfg, height, index, txs[0], st.dunes, bodies);
      StepsTerms(cfg, height, index + 1, txs[1..], s);
      StepsWithinLimit(cfg, height, index + 1, txs[1..], s, 0);
      RegisteredStays(cfg, st.dunes, s.dunes, Steps(cfg, height, index, txs, st).value.dunes, txs[0], txs[1..],
                      DuneId(height, index));
    } else {
      StepsRegister(cfg, height, index + 1, txs[1..], s, i - 1);
    }
  }

  /** The dune tables when transaction `i` of a block comes. */
  ghost function BlockDunesBefore(cfg: Config, height: nat, txs: seq<Tx>, t: Tables, i: nat): DuneTables
    requires HaveInputs(txs) && i < |txs|
  {
    if i == 0 then t.dunes else DunesBefore(cfg, height, 1, txs[1..], FirstStage(cfg, height, txs, t), i - 1)
  }

  /** Which transactions of a block leave a dune, and under which name. */
  lemma {:induction false} BlockRegisters(cfg: Config, height: nat, block: Block, t: Tables, i: nat)
    requires WellFormed(t, height, block.txs) && DuneInv(t.dunes) && height < U64 && i < |block.txs|
    requires Apply(cfg, height, block, t).Some?
    ensures RegisteredIff(cfg, BlockDunesBefore(cfg, height, block.txs, t, i),
                          Apply(cfg, height, block, t).value.0.dunes, block.txs[i], DuneId(height, i))
  {
    hide DunePart, InscPart, Steps, External, SpendAll, InputsOnly, DuneInv, TermsFrom, RegisteredIff, StepsTally;
    var txs := block.txs;
    var first := FirstStage(cfg, height, txs, t);
    DunePartKeeps(cfg, height, 0, txs[0], t.dunes, []);
    if i == 0 {
      PartRegisters(cfg, height, 0, txs[0], t.dunes, []);
      StepsTerms(cfg, height, 1, txs[1..], first);
      StepsWithinLimit(cfg, height, 1, txs[1..], first, 0);
      RegisteredStays(cfg, t.dunes, first.dunes, Steps(cfg, height, 1, txs[1..], first).value.dunes, txs[0], txs[1..],
                      DuneId(height, 0));
    } else {
      StepsRegister(cfg, height, 1, txs[1..], first, i - 1);
    }
  }

  // ----- when a block mints -----

  /** If anything of dune `n` was minted, the tables know it, with a positive limit and
      bounds that do not speak against the height. */
  ghost predicate MintsOpen(d: DuneTables, height: nat, n: nat, minted: nat) {
    minted > 0 ==>
      && Unpack(n).Some? && Unpack(n).value in d.terms
      && var terms := d.terms[Unpack(n).value];
      && NotBefore(height, terms.start) && NotPast(height, terms.end)
      && terms.amount.Some? && terms.amount.value > 0
  }

  lemma {:induction false} PartOpen(
    cfg: Config, height: nat, index: nat, tx: Tx, d: DuneTables, bodies: seq<TxoBody>, n: nat)
    requires NoZeros(d.mints)
    ensures MintsOpen(d, height, n, TxTally(cfg, height, index, tx, d, bodies, n).minted)
  {
    hide IndexDunes;
    if cfg.firstDuneHeight <= height {
      var un := Unallocated(map[], bodies);
      MintWithinLimit(d, tx, index, height, cfg.minimumName(height), un, n);
      if Get(IndexDunes(d, tx, index, height, cfg.minimumName(height), un).minted, n) > 0 {
        PackIff(n, Unpack(n).value);
        MintsIff(d, tx, index, height, cfg.minimumName(height), un, Unpack(n).value);
      }
    } else {
      assert Get(map[], n) == 0;
    }
  }

  lemma OpenAfter(d: DuneTables, e: DuneTables, f: DuneTables, height: nat, n: nat, a: nat, b: nat,
                  before: nat, after: nat)
    requires MintsOpen(d, height, n, a) && MintsOpen(f, height, n, b)
    requires WithinLimit(d, e, n, before) && WithinLimit(e, f, n, after)
    ensures MintsOpen(f, height, n, a + b)
  {
  }

  lemma {:induction false} StepsOpen(cfg: Config, height: nat, index: nat, txs: seq<Tx>, st: Stage, n: nat)
    requires HaveInputs(txs) && Steps(cfg, height, index, txs, st).Some?
    requires DuneInv(st.dunes) && NoneEtchedFrom(st.dunes, height, index) && height < U64
    ensures MintsOpen(Steps(cfg, height, index, txs, st).value.dunes, height, n,
                      StepsTally(cfg, height, index, txs, st, n).minted)
    decreases |txs|
  {
    hide DunePart, InscPart, TxTally, DuneInv, WithinLimit, OutBodies, MintsOpen;
    if txs == [] {
      NothingOpen(st.dunes, height, n);
    } else {
      var s := TxStep(cfg, height, index, txs[0], st).value;
      var bodies := Fetch(st.resolver, Refs(txs[0]));
      DunePartKeeps(cfg, height, index, txs[0], st.dunes, bodies);
      InvNoZeros(st.dunes);
      PartOpen(cfg, height, index, txs[0], st.dunes, bodies, n);
      PartWithinLimit(cfg, height, index, txs[0], st.dunes, bodies, n);
      StepsOpen(cfg, height, index + 1, txs[1..], s, n);
      StepsWithinLimit(cfg, height, index + 1, txs[1..], s, n);
      OpenAfter(st.dunes, s.dunes, Steps(cfg, height, index, txs, st).value.dunes, height, n,
                TxTally(cfg, height, index, txs[0], st.dunes, bodies, n).minted,
                StepsTally(cfg, height, index + 1, txs[1..], s, n).minted,
                TxTally(cfg, height, index, txs[0], st.dunes, bodies, n).minted,
                StepsTally(cfg, height, index + 1, txs[1..], s, n).minted);
    }
  }

  lemma NothingOpen(d: DuneTables, height: nat, n: nat)
    ensures MintsOpen(d, height, n, 0)
  {
  }

  lemma {:induction false} BlockOpen(cfg: Config, height: nat, block: Block, t: Tables, n: nat)
    requires WellFormed(t, height, block.txs) && DuneInv(t.dunes) && height < U64
    requires Apply(cfg, height, block, t).Some?
    ensures MintsOpen(Apply(cfg, height, block, t).value.0.dunes, height, n,
                      BlockTally(cfg, height, block.txs, t, n).minted)
  {
    hide DunePart, InscPart, TxTally, DuneInv, WithinLimit, StepsTally, MintsOpen;
    var txs := block.txs;
    var first := FirstStage(cfg, height, txs, t);
    DunePartKeeps(cfg, height, 0, txs[0], t.dunes, []);
    InvNoZeros(t.dunes);
    PartOpen(cfg, height, 0, txs[0], t.dunes, [], n);
    PartWithinLimit(cfg, height, 0, txs[0], t.dunes, [], n);
    StepsOpen(cfg, height, 1, txs[1..], first, n);
    StepsWithinLimit(cfg, height, 1, txs[1..], first, n);
    OpenAfter(t.dunes, first.dunes, Steps(cfg, height, 1, txs[1..], first).value.dunes, height, n,
              TxTally(cfg, height, 0, txs[0], t.dunes, [], n).minted,
              StepsTally(cfg, height, 1, txs[1..], first, n).minted,
              TxTally(cfg, height, 0, txs[0], t.dunes, [], n).minted,
              StepsTally(cfg, height, 1, txs[1..], first, n).minted);
  }

  // ----- over a chain -----

  /** The dune was etched, with these terms, by the stored transaction that its id names. */
  ghost predicate EtchedIn(cfg: Config, h: nat, fs: seq<Frame>, key: DuneId, terms: DuneTerms) {
    h <= key.block < h + |fs| && AskedFrom(cfg, 0, fs[key.block - h].block.txs, key, terms)
  }

  lemma {:induction false} StackTerms(
    cfg: Config, h: nat, base: Tables, fs: seq<Frame>, t: Tables, exact: bool, key: DuneId)
    requires Stack(cfg, h, base, fs, t, exact) && key in t.dunes.terms
    ensures (key in base.dunes.terms && t.dunes.terms[key] == base.dunes.terms[key])
         || EtchedIn(cfg, h, fs, key, t.dunes.terms[key])
    decreases |fs|
  {
    hide Sane, Apply, NextBlock, AskedFrom;
    if fs != [] {
      var n := |fs| - 1;
      LeftIs(cfg, h + n, fs[n]);
      BlockTerms(cfg, h + n, fs[n].block, fs[n].before);
      hide Left;
      if key in fs[n].before.dunes.terms {
        StackTerms(cfg, h, base, fs[..n], fs[n].before, exact, key);
      }
    }
  }

  lemma {:induction false} StackAt(
    cfg: Config, h: nat, base: Tables, fs: seq<Frame>, t: Tables, exact: bool, i: nat)
    requires Stack(cfg, h, base, fs, t, exact) && i < |fs|
    ensures Stack(cfg, h, base, fs[..i], fs[i].before, exact)
    ensures Sane(cfg, h + i, fs[i].before) && SoundBlock(cfg, h + i, fs[i].block, fs[i].before)
    decreases |fs|
  {
    hide Sane, SoundBlock, Left, Shadows;
    var n := |fs| - 1;
    StackSane(cfg, h, base, fs[..n], fs[n].before, exact);
    if i < n {
      StackAt(cfg, h, base, fs[..n], fs[n].before, exact, i);
      assert fs[..n][..i] == fs[..i];
    }
  }

  /** The etching that the id names. */
  ghost predicate HasEtching(h: nat, fs: seq<Frame>, key: DuneId) {
    && h <= key.block < h + |fs|
    && var txs := fs[key.block - h].block.txs;
    key.tx < |txs| && txs[key.tx].dunestone.Some? && txs[key.tx].dunestone.value.etching.Some?
  }

  ghost function EtchingStone(h: nat, fs: seq<Frame>, key: DuneId): Dunestone
    requires HasEtching(h, fs, key)
  {
    fs[key.block - h].block.txs[key.tx].dunestone.value
  }

  /** A height at which the etching lets its dune be minted. */
  ghost predicate LetsMint(stone: Dunestone, height: nat, h: nat) {
    && !stone.cenotaph && stone.etching.Some? && stone.etching.value.terms.Some?
    && var m := stone.etching.value.terms.value;
    m.limit.Some? && m.limit.value > 0 && Within(m, height, h)
  }

  lemma {:induction false} FrameMints(
    cfg: Config, h: nat, fs: seq<Frame>, t: Tables, exact: bool, i: nat, key: DuneId)
    requires Stack(cfg, h, EMPTY, fs, t, exact) && i < |fs| && Packable(key)
    requires FrameTally(cfg, h + i, fs[i], Pack(key)).minted > 0
    ensures HasEtching(h, fs, key) && key.block <= h + i && LetsMint(EtchingStone(h, fs, key), key.block, h + i)
  {
    hide Stack, Apply, Left, NextBlock, DuneInv, NoDunesYet, Closed, BlockTally;
    StackAt(cfg, h, EMPTY, fs, t, exact, i);
    var f := fs[i];
    LeftIs(cfg, h + i, f);
    SaneNext(cfg, h + i, f.before, f.block.txs);
    PackIff(Pack(key), key);
    BlockOpen(cfg, h + i, f.block, f.before, Pack(key));
    StackPush(cfg, h, EMPTY, fs[..i], f.before, exact, f.block);
    assert fs[..i] + [Frame(f.block, f.before)] == fs[..i + 1];
    StackTerms(cfg, h, EMPTY, fs[..i + 1], Left(cfg, h + i, f).0, exact, key);
    OpenEtching(cfg, h, fs[..i + 1], key, Left(cfg, h + i, f).0.dunes.terms[key], h + i);
  }

  lemma OpenEtching(cfg: Config, h: nat, fs: seq<Frame>, key: DuneId, terms: DuneTerms, height: nat)
    requires EtchedIn(cfg, h, fs, key, terms) && NotBefore(height, terms.start) && NotPast(height, terms.end)
    requires terms.amount.Some? && terms.amount.value > 0
    ensures HasEtching(h, fs, key) && LetsMint(EtchingStone(h, fs, key), key.block, height)
  {
    hide Within;
  }

  /** In every state of every run, irreversible rollbacks included: every dune that the
      tables know was etched by the transaction that its id names, and has the terms
      that this etching asked for. */
  lemma {:induction false} ReachableTerms(
    cfg: Config, keep: Option<nat>, h: nat, db: Db, ops: seq<Op>, exact: bool, key: DuneId)
    requires FromEmpty(cfg, keep, h, db, ops, exact)
    ensures var (d, fs) := Run(cfg, keep, h, [], db, ops);
      key in d.tables.dunes.terms ==> EtchedIn(cfg, h, fs, key, d.tables.dunes.terms[key])
  {
    hide Run, ProperRun, OrderedRun, Stack, Column, Entries, EtchedIn;
    RunTracks(cfg, keep, h, EMPTY, [], db, ops, exact);
    var r := Run(cfg, keep, h, [], db, ops);
    if key in r.0.tables.dunes.terms {
      StackTerms(cfg, h, EMPTY, r.1, r.0.tables, exact, key);
    }
  }

  /** And no surviving block minted a dune but at a height that the dune's own etching
      lets it be minted at. */
  lemma {:induction false} ReachableWindows(
    cfg: Config, keep: Option<nat>, h: nat, db: Db, ops: seq<Op>, exact: bool, i: nat, key: DuneId)
    requires FromEmpty(cfg, keep, h, db, ops, exact) && Packable(key)
    ensures var fs := Run(cfg, keep, h, [], db, ops).1;
      i < |fs| && FrameTally(cfg, h + i, fs[i], Pack(key)).minted > 0 ==>
        HasEtching(h, fs, key) && key.block <= h + i && LetsMint(EtchingStone(h, fs, key), key.block, h + i)
  {
    hide Run, ProperRun, OrderedRun, Stack, Column, Entries, FrameTally, HasEtching, LetsMint, EtchingStone;
    RunTracks(cfg, keep, h, EMPTY, [], db, ops, exact);
    var r := Run(cfg, keep, h, [], db, ops);
    if i < |r.1| && FrameTally(cfg, h + i, r.1[i], Pack(key)).minted > 0 {
      FrameMints(cfg, h, r.1, r.0.tables, exact, i, key);
    }
  }

  /** The most that an etching lets be claimed in all. */
  ghost function Most(stone: Dunestone): nat {
    if stone.cenotaph || stone.etching.None? || stone.etching.value.terms.None?
       || stone.etching.value.terms.value.limit.None?
    then 0
    else
      var m := stone.etching.value.terms.value;
      m.limit.value * if m.cap.Some? then m.cap.value else 0xFFFF_FFFF_FFFF_FFFF_FFFF_FFFF_FFFF_FFFF
  }

  /** After any run in which only reversible blocks were rolled back, what the surviving
      blocks claimed of a dune is at most the limit times the cap that its own etching
      asked for; of what none of them etched they claimed nothing. */
  lemma {:induction false} ReachableMints(cfg: Config, keep: Option<nat>, h: nat, db: Db, ops: seq<Op>, key: DuneId)
    requires FromEmpty(cfg, keep, h, db, ops, true) && Packable(key)
    ensures var fs := Run(cfg, keep, h, [], db, ops).1;
      StackTally(cfg, h, fs, Pack(key)).minted <= if HasEtching(h, fs, key) then Most(EtchingStone(h, fs, key)) else 0
  {
    hide Run, ProperRun, OrderedRun, Stack, Column, Entries, StackTally, DuneInv, NoDunesYet, Closed;
    hide HasEtching, EtchingStone, Most;
    RunTracks(cfg, keep, h, EMPTY, [], db, ops, true);
    var r := Run(cfg, keep, h, [], db, ops);
    StackSane(cfg, h, EMPTY, r.1, r.0.tables, true);
    StackWithinLimit(cfg, h, EMPTY, r.1, r.0.tables, Pack(key));
    PackIff(Pack(key), key);
    if key in r.0.tables.dunes.terms {
      StackTerms(cfg, h, EMPTY, r.1, r.0.tables, true, key);
      ClaimsWithin(cfg, r.0.tables.dunes, h, r.1, key, StackTally(cfg, h, r.1, Pack(key)).minted);
    }
  }

  lemma ClaimsWithin(cfg: Config, d: DuneTables, h: nat, fs: seq<Frame>, key: DuneId, minted: nat)
    requires DuneInv(d) && WithinLimit(EMPTY.dunes, d, Pack(key), minted)
    requires Packable(key) && key in d.terms && EtchedIn(cfg, h, fs, key, d.terms[key])
    ensures HasEtching(h, fs, key) && minted <= Most(EtchingStone(h, fs, key))
  {
    PackIff(Pack(key), key);
    var mints: nat, cap: nat, limit: nat := Get(d.mints, key), Cap(d.terms[key]), Limit(d.terms[key]);
    assert minted <= mints * limit && mints <= cap;
    TimesMost(mints, cap, limit);
    assert Most(EtchingStone(h, fs, key)) == limit * cap || limit == 0;
  }

  lemma TimesMost(mints: nat, cap: nat, limit: nat)
    requires mints <= cap
    ensures mints * limit <= limit * cap && (limit == 0 ==> mints * limit == 0)
  {
  }
}
