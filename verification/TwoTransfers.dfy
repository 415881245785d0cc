/** A run in which the DRC-20 books break: a chain of two pieces is completed twice,
    each time as a transfer, and both transfers are spent together. */
module TwoTransfers {
  import opened Prelude
  import opened ChainTypes
  import opened Placement
  import opened Decimal
  import opened Drc20
  import opened Inscriptions
  import opened InscriptionLaws
  import opened LiveInscriptions
  import opened DuplicateTransfers
  import opened KnownLimits

  const TICK: Ticker := [100, 111, 103, 101]
  const OWNER := Holder(0, TICK)
  const ID := InscriptionId(1, 0)

  /** One holder of `held` units, out of the six that exist. */
  function Held(held: u128): Ledger {
    Ledger(map[TICK := Terms(100, 100, 0, InscriptionId(8, 0))], map[TICK := 6],
           if held == 0 then map[] else map[OWNER := held])
  }

  function Sends(text: string): RawMessage {
    RawMessage("transfer", 4, TICK, None, None, None, Some(text))
  }

  /** The two contents are transfers of one unit and of five. */
  ghost predicate Decodes(cfg: Config) {
    && cfg.message([116], [97, 98]) == Some(Sends("1"))
    && cfg.message([116], [97, 99]) == Some(Sends("5"))
  }

  function Locking(height: nat, amount: u128): TxoBody {
    TxoBody(height, TxOut(10, 0, false), map[], [Placed(0, ID)], map[ID := Transfer(TICK, amount)])
  }

  // ----- each completion locks its amount -----

  lemma OneDigit(c: char)
    requires IsDigit(c)
    ensures ParseDecimal([c], 0) == Some(Digit(c))
  {
    var m := [c];
    assert Dot(m, 0) == 1;
    assert m[..1] == m && m[..0] == "";
    assert Digits(m[..0]) == 0;
    assert Digits(m) == Digit(c);
  }

  lemma TransferLocks(held: u128, c: char)
    requires IsDigit(c) && 0 < Digit(c) <= held
    ensures var o := Process(Held(held), Sends([c]), ID, Some(0));
      o.ledger == Held(held - Digit(c)) && o.locked == Some(Transfer(TICK, Digit(c)))
  {
    OneDigit(c);
    hide ParseDecimal;
    assert "transfer" != "deploy" && "transfer" != "mint";
  }

  lemma NothingDue(tx: Tx)
    requires |tx.outputs| == 1 && !IsCoinbase(tx)
    ensures Releases(tx, Placing([[Flotsam(ID, 0, true)]], []), map[]) == []
  {
    var f := Flotsam(ID, 0, true);
    assert [f][1..] == [] && [[f]][1..] == [] && tx.outputs[1..] == [];
    assert OutReleases([f], tx.outputs[0].script, map[]) == [];
    assert PlacedReleases([[f]], tx.outputs, map[]) == [];
  }

  lemma ReceiverIs(outs: seq<TxOut>)
    requires outs == [TxOut(10, 0, false)]
    ensures var m := Receivers([[Flotsam(ID, 0, true)]], outs, map[]); ID in m && m[ID] == 0
  {
    var f := Flotsam(ID, 0, true);
    assert [f][1..] == [] && [[f]][1..] == [] && outs[1..] == [];
    assert Scripts([f], 0, map[]) == map[ID := 0];
  }

  /** Completing the chain with the piece `x`, which decodes to a transfer. */
  lemma {:induction false} FinishLocks(
    cfg: Config, height: nat, st: InscState, txid: Txid, vout: nat, x: byte, held: u128, c: char)
    requires st.partials == BEGUN_PARTIALS && st.drc == Held(held) && IsDigit(c) && 0 < Digit(c) <= held
    requires cfg.message([116], [97, x]) == Some(Sends([c]))
    ensures var tx := Finish(txid, vout, x);
      var r := IndexInscriptions(cfg, height, tx, [TxoRef(1, vout)], [PLAIN_BODY], st);
      && r.state.partials == st.partials && r.state.drc == Held(held - Digit(c))
      && Bodies(height, tx.outputs, [map[]], r.outputs, r.transfers) == [Locking(height, Digit(c))]
  {
    hide IndexInscriptions, Placing0, Reveal, Arrivals, Process, Releases, Receivers, Completes, NextId, Announced;
    var tx, refs, bodies := Finish(txid, vout, x), [TxoRef(1, vout)], [PLAIN_BODY];
    FinishReveals(cfg, height, st, txid, vout, x);
    FinishFinds(cfg, height, st, txid, vout, x);
    IndexIs(cfg, height, tx, refs, bodies, st);
    FinishAnnounces(cfg, height, st, txid, vout, x, held, c);
    OneBody(height, Digit(c), [[Placed(0, ID)]]);
  }

  lemma OneBody(height: nat, amount: u128, placed: seq<seq<Placed>>)
    requires placed == [[Placed(0, ID)]]
    ensures Bodies(height, [TxOut(10, 0, false)], [map[]], placed, map[ID := Transfer(TICK, amount)])
         == [Locking(height, amount)]
  {
    assert Ids(placed[0])[0] == ID;
    var m := map[ID := Transfer(TICK, amount)];
    assert (map id | id in m && id in Ids(placed[0]) :: m[id]) == m;
  }

  lemma {:induction false} FinishAnnounces(
    cfg: Config, height: nat, st: InscState, txid: Txid, vout: nat, x: byte, held: u128, c: char)
    requires st.partials == BEGUN_PARTIALS && st.drc == Held(held) && IsDigit(c) && 0 < Digit(c) <= held
    requires cfg.message([116], [97, x]) == Some(Sends([c]))
    ensures var o := Announced(cfg, height, Finish(txid, vout, x), [TxoRef(1, vout)], [PLAIN_BODY], st);
      o.ledger == Held(held - Digit(c)) && o.locked == Some(Transfer(TICK, Digit(c)))
  {
    hide IndexInscriptions, Placing0, Reveal, Arrivals, Process, Releases, Receivers, Completes, NextId;
    var tx, refs, bodies := Finish(txid, vout, x), [TxoRef(1, vout)], [PLAIN_BODY];
    FinishReveals(cfg, height, st, txid, vout, x);
    FinishFinds(cfg, height, st, txid, vout, x);
    NothingDue(tx);
    ReceiverIs(tx.outputs);
    TransferLocks(held, c);
    assert Due(cfg, height, tx, refs, bodies, st) == [];
    assert Settled(cfg, height, tx, refs, bodies, st) == st.drc;
  }

  lemma FinishFinds(cfg: Config, height: nat, st: InscState, txid: Txid, vout: nat, x: byte)
    requires st.partials == BEGUN_PARTIALS
    ensures var tx := Finish(txid, vout, x);
      var inc := Arrivals(cfg, height, tx, [TxoRef(1, vout)], [PLAIN_BODY]);
      && inc.unused == map[] && inc.floats == []
      && Reveal(st.partials, tx, inc.floats).found == Some(Discovery(ID, [116], [97, x]))
  {
    var tx, start := Finish(txid, vout, x), Incoming([], map[], 0);
    PiecesParse(x);
    hide InscriptionParser.Parse;
    assert StoredChain(st.partials, tx) == [1] && ([1] + [txid])[0] == 1;
    assert StoredScripts(st.partials, [1]) + [LastPiece(x)] == [FIRST_PIECE, LastPiece(x)];
    assert EnterAll(start, TxoRef(1, vout), PLAIN_BODY, []) == start;
    var next := EnterInput(start, TxoRef(1, vout), PLAIN_BODY);
    assert [TxoRef(1, vout)][1..] == [] && [PLAIN_BODY][1..] == [];
    assert EnterInputs(next, [], []) == next;
  }

  // ----- both are spent -----

  const SPEND_BOTH := Tx(4, [TxIn(TxoRef(2, 0), []), TxIn(TxoRef(3, 0), [])], [TxOut(20, 0, false)], None)

  lemma BothAmounts(height: nat)
    ensures var bodies := [Locking(height, 1), Locking(height, 5)];
      LockedInAll(bodies, TICK) == 6 && Released(bodies, BodyIds(bodies), TICK) == 10
  {
    var a, b := Locking(height, 1), Locking(height, 5);
    var bodies := [a, b];
    assert bodies[1..] == [b] && [b][1..] == [];
    OneLock(height, 1);
    OneLock(height, 5);
    assert LockedInAll([b], TICK) == 5;
    assert Ids(a.inscriptions) == [ID] && Ids(b.inscriptions) == [ID];
    assert BodyIds([b]) == [ID] + BodyIds([]) == [ID];
    assert BodyIds(bodies) == [ID] + BodyIds([b]) == [ID, ID];
    assert LastTransfer([b], ID) == Some(Transfer(TICK, 5));
    var f := LastFn(bodies, TICK);
    assert f(ID) == 5;
    assert [ID, ID][1..] == [ID] && [ID][1..] == [];
    assert SumBy([ID], f) == 5;
  }

  lemma OneLock(height: nat, amount: u128)
    ensures LockedIn(Locking(height, amount), TICK) == amount
  {
    var p, body := Placed(0, ID), Locking(height, amount);
    assert body.inscriptions == [p] && [p][1..] == [];
    assert LockFn(body.transfers, TICK)(p) == amount;
    assert SumBy([p], LockFn(body.transfers, TICK)) == amount;
  }

  lemma AllLocked()
    ensures Backed(Held(6), TICK, 0) && Backed(Held(0), TICK, 6) && Available(Held(0), TICK) == 0
  {
    assert Of(Held(0).balances, TICK) == map[];
    var m := Of(Held(6).balances, TICK);
    assert m == map[OWNER := 6] && m - {OWNER} == map[];
    SumRemove(m, OWNER);
  }

  lemma BothArrive(p: Partials, height: nat)
    ensures !Completes(p, SPEND_BOTH, [Locking(height, 1), Locking(height, 5)])
  {
    assert Arrived(0, [Locking(height, 1), Locking(height, 5)])[0].offset == 0;
  }

  lemma SpendBoth(cfg: Config, height: nat, st: InscState)
    requires st.drc == Held(0)
    ensures var bodies := [Locking(height, 1), Locking(height, 5)];
      var r := IndexInscriptions(cfg, height, SPEND_BOTH, [TxoRef(2, 0), TxoRef(3, 0)], bodies, st);
      !Backed(r.state.drc, TICK, LockedInAll(Bodies(height, SPEND_BOTH.outputs, [map[]], r.outputs, r.transfers), TICK))
  {
    hide IndexInscriptions, LockedInAll, Released, Bodies, Completes, Backed, Available;
    var bodies := [Locking(height, 1), Locking(height, 5)];
    BothAmounts(height);
    AllLocked();
    BothArrive(st.partials, height);
    ReleaseIff(cfg, height, SPEND_BOTH, [TxoRef(2, 0), TxoRef(3, 0)], bodies, st, [map[]], TICK, 6);
  }

  /** From six units held, backed by balances alone: the chain is completed as a
      transfer of one and again as a transfer of five, and the transaction that spends
      both outputs leaves a ticker that is not backed. */
  lemma {:induction false} SpendBothBreaks(cfg: Config, height: nat, st: InscState)
    requires st.partials == BEGUN_PARTIALS && st.drc == Held(6) && Decodes(cfg)
    ensures Backed(st.drc, TICK, 0)
    ensures var r := IndexInscriptions(cfg, height, Finish(2, 0, 98), [TxoRef(1, 0)], [PLAIN_BODY], st);
      var q := IndexInscriptions(cfg, height, Finish(3, 1, 99), [TxoRef(1, 1)], [PLAIN_BODY], r.state);
      var bodies := Bodies(height, [TxOut(10, 0, false)], [map[]], r.outputs, r.transfers)
                    + Bodies(height, [TxOut(10, 0, false)], [map[]], q.outputs, q.transfers);
      var e := IndexInscriptions(cfg, height, SPEND_BOTH, [TxoRef(2, 0), TxoRef(3, 0)], bodies, q.state);
      && Backed(q.state.drc, TICK, LockedInAll(bodies, TICK))
      && !Backed(e.state.drc, TICK,
                 LockedInAll(Bodies(height, SPEND_BOTH.outputs, [map[]], e.outputs, e.transfers), TICK))
  {
    hide IndexInscriptions, LockedInAll, Bodies, Backed, Available;
    AllLocked();
    FinishLocks(cfg, height, st, 2, 0, 98, 6, '1');
    var r := IndexInscriptions(cfg, height, Finish(2, 0, 98), [TxoRef(1, 0)], [PLAIN_BODY], st);
    FinishLocks(cfg, height, r.state, 3, 1, 99, 5, '5');
    var q := IndexInscriptions(cfg, height, Finish(3, 1, 99), [TxoRef(1, 1)], [PLAIN_BODY], r.state);
    assert [Locking(height, 1)] + [Locking(height, 5)] == [Locking(height, 1), Locking(height, 5)];
    BothAmounts(height);
    SpendBoth(cfg, height, q.state);
  }
}
