/** What an inscription revealed twice does to the DRC-20 books: when two outputs hold
    transfers of the same id, a transaction that spends both releases the later one
    for each. */
module DuplicateTransfers {
  import opened Prelude
  import opened ChainTypes
  import opened Placement
  import opened Drc20
  import opened Inscriptions
  import opened InscriptionLaws
  import opened LiveInscriptions

  // ----- what is released -----

  function TransferIn(body: TxoBody, ids: seq<InscriptionId>, id: InscriptionId): Option<Transfer> {
    if id in ids && id in body.transfers then Some(body.transfers[id]) else None
  }

  /** The transfer of an id in the last input that brings one. */
  function LastTransfer(bodies: seq<TxoBody>, id: InscriptionId): Option<Transfer> {
    if bodies == [] then None
    else
      var later := LastTransfer(bodies[1..], id);
      if later.Some? then later else TransferIn(bodies[0], Ids(bodies[0].inscriptions), id)
  }

  function LastFn(bodies: seq<TxoBody>, t: Ticker): InscriptionId -> int {
    (id: InscriptionId) => Locks(LastTransfer(bodies, id), t)
  }

  /** The amount that these inscriptions release, each that of the last input. */
  ghost function Released(bodies: seq<TxoBody>, ids: seq<InscriptionId>, t: Ticker): int {
    SumBy(ids, LastFn(bodies, t))
  }

  /** The ids that float through a transaction: those of its inputs, and the one it
      completes. */
  function Passing(p: Partials, tx: Tx, bodies: seq<TxoBody>): seq<InscriptionId>
    requires tx.inputs != []
  {
    BodyIds(bodies) + if Completes(p, tx, bodies) then [NextId(p, tx)] else []
  }

  function UnusedAt(unused: map<InscriptionId, Unused>, id: InscriptionId): Option<Transfer> {
    if id in unused then Some(Transfer(unused[id].ticker, unused[id].amount)) else None
  }

  function Or(a: Option<Transfer>, b: Option<Transfer>): Option<Transfer> {
    if a.Some? then a else b
  }

  lemma {:induction false} EnterAllUnused(
    inc: Incoming, source: TxoRef, body: TxoBody, ps: seq<Placed>, id: InscriptionId)
    ensures UnusedAt(EnterAll(inc, source, body, ps).unused, id)
         == Or(TransferIn(body, Ids(ps), id), UnusedAt(inc.unused, id))
    decreases |ps|
  {
    if ps != [] {
      EnterAllUnused(Enter(inc, source, body, ps[0]), source, body, ps[1..], id);
      assert Ids(ps) == [ps[0].id] + Ids(ps[1..]);
    }
  }

  lemma {:induction false} InputsUnused(inc: Incoming, refs: seq<TxoRef>, bodies: seq<TxoBody>, id: InscriptionId)
    requires |refs| == |bodies|
    ensures UnusedAt(EnterInputs(inc, refs, bodies).unused, id)
      == Or(LastTransfer(bodies, id), UnusedAt(inc.unused, id))
    decreases |refs|
  {
    if refs != [] {
      EnterAllUnused(inc, refs[0], bodies[0], bodies[0].inscriptions, id);
      InputsUnused(EnterInput(inc, refs[0], bodies[0]), refs[1..], bodies[1..], id);
    }
  }

  lemma {:induction false} OwedByIds(
    fs: seq<Flotsam>, unused: map<InscriptionId, Unused>, bodies: seq<TxoBody>, t: Ticker)
    requires forall id :: UnusedAt(unused, id) == LastTransfer(bodies, id)
    ensures SumBy(fs, OwedFn(unused, t)) == SumBy(FloatIds(fs), LastFn(bodies, t))
  {
    if fs != [] {
      OwedByIds(fs[1..], unused, bodies, t);
      assert FloatIds(fs) == [fs[0].id] + FloatIds(fs[1..]);
      assert UnusedAt(unused, fs[0].id) == LastTransfer(bodies, fs[0].id);
    }
  }

  lemma {:induction false} NoTransfersOwed(ids: seq<InscriptionId>, t: Ticker)
    ensures Released([], ids, t) == 0
  {
    if ids != [] {
      NoTransfersOwed(ids[1..], t);
    }
  }

  /** The floating inscriptions owe the last transfer of each. */
  lemma {:induction false} FloatsOweLast(
    cfg: Config, height: nat, tx: Tx, refs: seq<TxoRef>, bodies: seq<TxoBody>, st: InscState, t: Ticker)
    requires |refs| == |bodies| && tx.inputs != [] && (IsCoinbase(tx) ==> bodies == [])
    ensures SumBy(Floats(cfg, height, tx, refs, bodies, st), OwedFn(Arrivals(cfg, height, tx, refs, bodies).unused, t))
         == Released(bodies, Passing(st.partials, tx, bodies), t)
    ensures IsCoinbase(tx) ==> Arrivals(cfg, height, tx, refs, bodies).unused == map[]
  {
    var floats := Floats(cfg, height, tx, refs, bodies, st);
    if IsCoinbase(tx) {
      OwedNothing(floats, map[], t);
      NoTransfersOwed(Passing(st.partials, tx, bodies), t);
    } else {
      FloatingIds(cfg, height, tx, refs, bodies, st);
      FoundIff(cfg, height, tx, refs, bodies, st);
      InputsLeave(refs, bodies);
      hide Reveal, Completes, NextId, Floats;
      assert FloatIds(floats) == Passing(st.partials, tx, bodies);
      OwedByIds(floats, Arrivals(cfg, height, tx, refs, bodies).unused, bodies, t);
    }
  }

  lemma InputsLeave(refs: seq<TxoRef>, bodies: seq<TxoBody>)
    requires |refs| == |bodies|
    ensures forall id ::
      UnusedAt(EnterInputs(Incoming([], map[], 0), refs, bodies).unused, id) == LastTransfer(bodies, id)
  {
    forall id
      ensures UnusedAt(EnterInputs(Incoming([], map[], 0), refs, bodies).unused, id) == LastTransfer(bodies, id)
    {
      InputsUnused(Incoming([], map[], 0), refs, bodies, id);
    }
  }

  // ----- what it does to the books -----

  function Wrapped(l: Ledger, h: Holder, amount: u128, t: Ticker): nat {
    if h.ticker == t && U128 <= Balance(l, h) + amount then 1 else 0
  }

  /** How many of the credits of a ticker wrap. */
  function Wraps(l: Ledger, rs: seq<Release>, t: Ticker): nat
    decreases |rs|
  {
    if rs == [] then 0
    else
      var h := Holder(rs[0].receiver, rs[0].ticker);
      Wrapped(l, h, rs[0].amount, t) + Wraps(Credit(l, h, rs[0].amount), rs[1..], t)
  }

  function MintWraps(l: Ledger, o: Outcome, t: Ticker): nat {
    if o.valid.Some? && o.valid.value.Mint?
    then Wrapped(l, Holder(o.valid.value.receiver, o.valid.value.ticker), o.valid.value.amount, t) else 0
  }

  lemma CreditIs(l: Ledger, h: Holder, amount: u128, t: Ticker)
    ensures Available(Credit(l, h, amount), t)
         == Available(l, t) + (if h.ticker == t then amount else 0) - U128 * Wrapped(l, h, amount, t)
  {
    SetBalanceAvailable(l, h, AddU128(Balance(l, h), amount), t);
  }

  lemma {:induction false} ReleasesAdd(l: Ledger, rs: seq<Release>, t: Ticker)
    ensures Available(ApplyReleases(l, rs), t) == Available(l, t) + SumBy(rs, RelFn(t)) - U128 * Wraps(l, rs, t)
    ensures ApplyReleases(l, rs).supply == l.supply && ApplyReleases(l, rs).terms == l.terms
    decreases |rs|
  {
    hide Available;
    if rs != [] {
      var h := Holder(rs[0].receiver, rs[0].ticker);
      CreditIs(l, h, rs[0].amount, t);
      ReleasesAdd(Credit(l, h, rs[0].amount), rs[1..], t);
    }
  }

  lemma {:induction false} SmallNoWraps(l: Ledger, rs: seq<Release>, t: Ticker)
    requires Available(l, t) + SumBy(rs, RelFn(t)) < U128
    ensures Wraps(l, rs, t) == 0
    decreases |rs|
  {
    hide Available;
    if rs != [] {
      var h := Holder(rs[0].receiver, rs[0].ticker);
      SumByNonNegative(rs[1..], RelFn(t));
      BalanceWithinAvailable(l, h);
      CreditIs(l, h, rs[0].amount, t);
      SmallNoWraps(Credit(l, h, rs[0].amount), rs[1..], t);
    }
  }

  /** The part of `Backed` that speaks of supply alone. */
  ghost predicate Capped(l: Ledger, t: Ticker) {
    && (t in l.terms ==> Supply(l, t) <= l.terms[t].max)
    && (t !in l.terms ==> Supply(l, t) == 0)
  }

  lemma MintMoves(l: Ledger, raw: RawMessage, terms: Terms, amount: u128, receiver: Option<Script>, t: Ticker)
    requires Capped(l, t) && raw.ticker in l.terms && terms == l.terms[raw.ticker]
    ensures var o := ProcessMint(l, raw, terms, amount, receiver);
      && Capped(o.ledger, t) && o.locked.None?
      && Available(o.ledger, t) - Supply(o.ledger, t) == Available(l, t) - Supply(l, t) - U128 * MintWraps(l, o, t)
  {
    var tick := raw.ticker;
    var supply := Supply(l, tick);
    if receiver.Some? && supply != terms.max {
      var h := Holder(receiver.value, tick);
      var minted := Min(amount, SubU128(terms.max, supply));
      var l1 := SetSupply(l, tick, AddU128(supply, minted));
      assert Available(l1, t) == Available(l, t);
      CreditIs(l1, h, minted, t);
    }
  }

  /** A message changes the difference of balances and supply by what it locks, and by
      a wrap of what it mints. */
  lemma ProcessMoves(l: Ledger, raw: RawMessage, id: InscriptionId, receiver: Option<Script>, t: Ticker)
    requires Capped(l, t)
    ensures var o := Process(l, raw, id, receiver);
      && Capped(o.ledger, t)
      && Available(o.ledger, t) - Supply(o.ledger, t)
         == Available(l, t) - Supply(l, t) - Locks(o.locked, t) - U128 * MintWraps(l, o, t)
  {
    var tick := raw.ticker;
    if DeployOf(raw, id).None? && tick in l.terms {
      if MintOf(raw, l.terms[tick]).Some? {
        MintMoves(l, raw, l.terms[tick], MintOf(raw, l.terms[tick]).value, receiver, t);
      } else if TransferOf(raw, l.terms[tick]).Some? && receiver.Some? {
        var h := Holder(receiver.value, tick);
        SetBalanceAvailable(l, h, SubU128(Balance(l, h), TransferOf(raw, l.terms[tick]).value), t);
      }
    }
  }

  // ----- one transaction -----

  /** What came of the transaction's message, after its releases. */
  ghost function Announced(
    cfg: Config, height: nat, tx: Tx, refs: seq<TxoRef>, bodies: seq<TxoBody>, st: InscState): Outcome
    requires |refs| == |bodies| && tx.inputs != []
  {
    var inc, p := Arrivals(cfg, height, tx, refs, bodies), Placing0(cfg, height, tx, refs, bodies, st);
    Announce(cfg, tx, p, Reveal(st.partials, tx, inc.floats).found, Settled(cfg, height, tx, refs, bodies, st))
  }

  ghost function Due(
    cfg: Config, height: nat, tx: Tx, refs: seq<TxoRef>, bodies: seq<TxoBody>, st: InscState): seq<Release>
    requires |refs| == |bodies| && tx.inputs != []
  {
    Releases(tx, Placing0(cfg, height, tx, refs, bodies, st), Arrivals(cfg, height, tx, refs, bodies).unused)
  }

  ghost function Settled(
    cfg: Config, height: nat, tx: Tx, refs: seq<TxoRef>, bodies: seq<TxoBody>, st: InscState): Ledger
    requires |refs| == |bodies| && tx.inputs != []
  {
    ApplyReleases(st.drc, Due(cfg, height, tx, refs, bodies, st))
  }

  /** How often the outputs hold the id of the completed inscription. */
  ghost function Copies(
    cfg: Config, height: nat, tx: Tx, refs: seq<TxoRef>, bodies: seq<TxoBody>, st: InscState): int
    requires |refs| == |bodies| && tx.inputs != []
  {
    SumBy(Flatten(Placing0(cfg, height, tx, refs, bodies, st).perOutput), IsId(NextId(st.partials, tx)))
  }

  ghost function AllWraps(
    cfg: Config, height: nat, tx: Tx, refs: seq<TxoRef>, bodies: seq<TxoBody>, st: InscState, t: Ticker): nat
    requires |refs| == |bodies| && tx.inputs != []
  {
    Wraps(st.drc, Due(cfg, height, tx, refs, bodies, st), t)
    + MintWraps(Settled(cfg, height, tx, refs, bodies, st), Announced(cfg, height, tx, refs, bodies, st), t)
  }

  lemma {:induction false} CountLock(fs: seq<Flotsam>, id: InscriptionId, tr: Transfer, t: Ticker)
    ensures SumBy(fs, TransFn(map[id := tr], t)) == Locks(Some(tr), t) * SumBy(fs, IsId(id))
  {
    if fs != [] {
      CountLock(fs[1..], id, tr, t);
      var l, x, y := Locks(Some(tr), t), IsId(id)(fs[0]), SumBy(fs[1..], IsId(id));
      assert l * (x + y) == l * x + l * y;
    }
  }

  lemma IndexIs(cfg: Config, height: nat, tx: Tx, refs: seq<TxoRef>, bodies: seq<TxoBody>, st: InscState)
    requires |refs| == |bodies| && tx.inputs != []
    ensures var r := IndexInscriptions(cfg, height, tx, refs, bodies, st);
      var o := Announced(cfg, height, tx, refs, bodies, st);
      && r.state.drc == o.ledger
      && r.outputs == Locals(Placing0(cfg, height, tx, refs, bodies, st).perOutput, tx.outputs)
      && r.found == Reveal(st.partials, tx, Arrivals(cfg, height, tx, refs, bodies).floats).found
      && r.transfers == (if o.locked.Some? && r.found.Some? then map[r.found.value.id := o.locked.value] else map[])
      && (o.locked.Some? ==> r.found.Some?)
  {
    hide Reveal, Releases, Process, NextCounters, SortByOffset, Arrivals, Place, Locals, Floating;
  }

  /** The outputs lock the new transfer once for every copy of its id. */
  lemma {:induction false} OutputsLockCopies(
    cfg: Config, height: nat, tx: Tx, refs: seq<TxoRef>, bodies: seq<TxoBody>, st: InscState, dunes: seq<Balances>,
    t: Ticker)
    requires |refs| == |bodies| && tx.inputs != [] && |dunes| == |tx.outputs| && (IsCoinbase(tx) ==> bodies == [])
    ensures var r := IndexInscriptions(cfg, height, tx, refs, bodies, st);
      LockedInAll(Bodies(height, tx.outputs, dunes, r.outputs, r.transfers), t)
      == Locks(Announced(cfg, height, tx, refs, bodies, st).locked, t) * Copies(cfg, height, tx, refs, bodies, st)
  {
    hide IndexInscriptions, Announced, Placing0, Reveal, Completes, NextId, LockedIn, Arrivals;
    var r, o := IndexInscriptions(cfg, height, tx, refs, bodies, st), Announced(cfg, height, tx, refs, bodies, st);
    var p := Placing0(cfg, height, tx, refs, bodies, st);
    IndexIs(cfg, height, tx, refs, bodies, st);
    FoundIff(cfg, height, tx, refs, bodies, st);
    var outs := Bodies(height, tx.outputs, dunes, r.outputs, r.transfers);
    forall v | 0 <= v < |outs| ensures LockedIn(outs[v], t) == SumBy(p.perOutput[v], TransFn(r.transfers, t)) {
      BodyLocks(height, tx.outputs[v], dunes[v], p.perOutput[v], Start(tx.outputs, v), r.transfers, t);
    }
    FlattenLocks(outs, p.perOutput, TransFn(r.transfers, t), t);
    if o.locked.Some? {
      CountLock(Flatten(p.perOutput), r.found.value.id, o.locked.value, t);
    } else {
      NoLock(Flatten(p.perOutput), t);
    }
  }

  lemma AnnounceMoves(cfg: Config, tx: Tx, p: Placing, found: Option<Discovery>, l: Ledger, t: Ticker)
    requires |p.perOutput| == |tx.outputs| && Capped(l, t)
    ensures var o := Announce(cfg, tx, p, found, l);
      && Capped(o.ledger, t)
      && Available(o.ledger, t) - Supply(o.ledger, t)
         == Available(l, t) - Supply(l, t) - Locks(o.locked, t) - U128 * MintWraps(l, o, t)
  {
    hide Process, Available, Receivers;
    if found.Some? {
      var raw := cfg.message(found.value.contentType, found.value.body);
      var receivers := Receivers(p.perOutput, tx.outputs, map[]);
      var id := found.value.id;
      if raw.Some? {
        ProcessMoves(l, raw.value, id, if id in receivers then Some(receivers[id]) else None, t);
      }
    }
  }

  /** How a transaction moves the difference of balances and supply. */
  lemma {:induction false} TransactionMoves(
    cfg: Config, height: nat, tx: Tx, refs: seq<TxoRef>, bodies: seq<TxoBody>, st: InscState, t: Ticker)
    requires |refs| == |bodies| && tx.inputs != [] && (IsCoinbase(tx) ==> bodies == []) && Capped(st.drc, t)
    ensures var l := IndexInscriptions(cfg, height, tx, refs, bodies, st).state.drc;
      && Capped(l, t)
      && Available(l, t) - Supply(l, t)
         == Available(st.drc, t) - Supply(st.drc, t) + Released(bodies, Passing(st.partials, tx, bodies), t)
            - Locks(Announced(cfg, height, tx, refs, bodies, st).locked, t)
            - U128 * AllWraps(cfg, height, tx, refs, bodies, st, t)
  {
    hide IndexInscriptions, Available, Reveal, Floats, Arrivals, Releases, Place, SortByOffset, Announce, Released;
    hide Passing, MintWraps, Wraps, Locks;
    var p := Placing0(cfg, height, tx, refs, bodies, st);
    var inc, l := Arrivals(cfg, height, tx, refs, bodies), Settled(cfg, height, tx, refs, bodies, st);
    FloatsOweLast(cfg, height, tx, refs, bodies, st, t);
    ReleasesOwe(tx, Floats(cfg, height, tx, refs, bodies, st), p, inc.unused, t);
    ReleasesAdd(st.drc, Due(cfg, height, tx, refs, bodies, st), t);
    AnnounceMoves(cfg, tx, p, Reveal(st.partials, tx, inc.floats).found, l, t);
    IndexIs(cfg, height, tx, refs, bodies, st);
  }

  /** A transaction keeps a ticker backed if and only if the transfers it brings equal
      what is released, the last transfer of each passing id once for every time it
      passes, plus one new transfer for every further copy of its id, less 2^128 for
      every balance that wraps. */
  lemma {:induction false} BackedIff(
    cfg: Config, height: nat, tx: Tx, refs: seq<TxoRef>, bodies: seq<TxoBody>, st: InscState,
    dunes: seq<Balances>, t: Ticker, locked: int)
    requires |refs| == |bodies| && tx.inputs != [] && (IsCoinbase(tx) ==> bodies == []) && |dunes| == |tx.outputs|
    requires Backed(st.drc, t, locked) && LockedInAll(bodies, t) <= locked
    ensures var r := IndexInscriptions(cfg, height, tx, refs, bodies, st);
      var again := Copies(cfg, height, tx, refs, bodies, st) - 1;
      Backed(r.state.drc, t,
             locked - LockedInAll(bodies, t)
             + LockedInAll(Bodies(height, tx.outputs, dunes, r.outputs, r.transfers), t))
      <==> LockedInAll(bodies, t)
           == Released(bodies, Passing(st.partials, tx, bodies), t)
              + Locks(Announced(cfg, height, tx, refs, bodies, st).locked, t) * again
              - U128 * AllWraps(cfg, height, tx, refs, bodies, st, t)
  {
    hide IndexInscriptions, Available, Released, Passing, Announced;
    hide AllWraps, LockedInAll, Bodies, Copies, Backed, Locks;
    BackedCapped(st.drc, t, locked);
    TransactionMoves(cfg, height, tx, refs, bodies, st, t);
    OutputsLockCopies(cfg, height, tx, refs, bodies, st, dunes, t);
    CopiesNonNegative(cfg, height, tx, refs, bodies, st);
    BooksIff(st.drc, IndexInscriptions(cfg, height, tx, refs, bodies, st).state.drc, t, locked, LockedInAll(bodies, t),
             Released(bodies, Passing(st.partials, tx, bodies), t),
             Announced(cfg, height, tx, refs, bodies, st).locked, Copies(cfg, height, tx, refs, bodies, st),
             AllWraps(cfg, height, tx, refs, bodies, st, t));
  }

  lemma BackedCapped(l: Ledger, t: Ticker, locked: int)
    requires Backed(l, t, locked)
    ensures Capped(l, t)
  {
    hide Available;
  }

  lemma BooksIff(
    l: Ledger, after: Ledger, t: Ticker, locked: int, brought: int, released: int, made: Option<Transfer>, copies: int,
    wraps: int)
    requires Backed(l, t, locked) && brought <= locked && Capped(after, t) && 0 <= copies
    requires Available(after, t) - Supply(after, t)
          == Available(l, t) - Supply(l, t) + released - Locks(made, t) - U128 * wraps
    ensures Backed(after, t, locked - brought + Locks(made, t) * copies)
       <==> brought == released + Locks(made, t) * (copies - 1) - U128 * wraps
  {
    hide Available, Supply;
    var lock := Locks(made, t);
    assert lock * (copies - 1) == lock * copies - lock;
    assert 0 <= lock && 0 <= lock * copies;
  }

  lemma CopiesNonNegative(cfg: Config, height: nat, tx: Tx, refs: seq<TxoRef>, bodies: seq<TxoBody>, st: InscState)
    requires |refs| == |bodies| && tx.inputs != []
    ensures 0 <= Copies(cfg, height, tx, refs, bodies, st)
  {
    hide Placing0, NextId;
    SumByNonNegative(Flatten(Placing0(cfg, height, tx, refs, bodies, st).perOutput), IsId(NextId(st.partials, tx)));
  }

  /** In particular, if no inscription is completed and the balances have room, the
      transfers brought must be what the last of each id adds up to. */
  lemma {:induction false} ReleaseIff(
    cfg: Config, height: nat, tx: Tx, refs: seq<TxoRef>, bodies: seq<TxoBody>, st: InscState,
    dunes: seq<Balances>, t: Ticker, locked: int)
    requires |refs| == |bodies| && tx.inputs != [] && !IsCoinbase(tx) && |dunes| == |tx.outputs|
    requires !Completes(st.partials, tx, bodies)
    requires Backed(st.drc, t, locked) && LockedInAll(bodies, t) <= locked
    requires Available(st.drc, t) + Released(bodies, BodyIds(bodies), t) < U128
    ensures var r := IndexInscriptions(cfg, height, tx, refs, bodies, st);
      Backed(r.state.drc, t,
             locked - LockedInAll(bodies, t)
             + LockedInAll(Bodies(height, tx.outputs, dunes, r.outputs, r.transfers), t))
      <==> LockedInAll(bodies, t) == Released(bodies, BodyIds(bodies), t)
  {
    BackedIff(cfg, height, tx, refs, bodies, st, dunes, t, locked);
    NothingNew(cfg, height, tx, refs, bodies, st, t);
    hide IndexInscriptions, Backed, Released, Passing, Announced;
    hide AllWraps, LockedInAll, Bodies, Copies, Available, Completes;
    assert Locks(None, t) * (Copies(cfg, height, tx, refs, bodies, st) - 1) == 0;
  }

  lemma {:induction false} NothingNew(
    cfg: Config, height: nat, tx: Tx, refs: seq<TxoRef>, bodies: seq<TxoBody>, st: InscState, t: Ticker)
    requires |refs| == |bodies| && tx.inputs != [] && !IsCoinbase(tx) && !Completes(st.partials, tx, bodies)
    requires Available(st.drc, t) + Released(bodies, BodyIds(bodies), t) < U128
    ensures Passing(st.partials, tx, bodies) == BodyIds(bodies)
    ensures Announced(cfg, height, tx, refs, bodies, st).locked.None?
      && AllWraps(cfg, height, tx, refs, bodies, st, t) == 0
  {
    FoundIff(cfg, height, tx, refs, bodies, st);
    hide Reveal, Completes, Floats, Arrivals, Releases, Place, SortByOffset, Available, Released;
    assert BodyIds(bodies) + [] == BodyIds(bodies);
    FloatsOweLast(cfg, height, tx, refs, bodies, st, t);
    var p := Placing0(cfg, height, tx, refs, bodies, st);
    ReleasesOwe(tx, Floats(cfg, height, tx, refs, bodies, st), p, Arrivals(cfg, height, tx, refs, bodies).unused, t);
    SmallNoWraps(st.drc, Due(cfg, height, tx, refs, bodies, st), t);
  }
}
