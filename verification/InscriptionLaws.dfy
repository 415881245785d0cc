/** What `index_inscriptions` keeps: exact undo of its DRC-20 effects, and the
    accounting of amounts locked in transfer inscriptions. */
module InscriptionLaws {
  import opened Prelude
  import opened ChainTypes
  import opened Placement
  import opened Drc20
  import opened Inscriptions

  // ----- undo -----

  lemma {:induction false} ReleasesUndone(l: Ledger, rs: seq<Release>)
    requires NoStoredZero(l)
    ensures NoStoredZero(ApplyReleases(l, rs))
    ensures UndoMessages(ApplyReleases(l, rs), ReleaseMessages(rs)) == l
    decreases |rs|
  {
    if rs != [] {
      var r := rs[0];
      var h := Holder(r.receiver, r.ticker);
      var m := Transferred(r.ticker, r.amount, r.source, r.receiver);
      DebitCredit(l, h, r.amount);
      ReleasesUndone(Credit(l, h, r.amount), rs[1..]);
      assert ReleaseMessages(rs) == [m] + ReleaseMessages(rs[1..]);
      UndoMessagesConcat(ApplyReleases(l, rs), [m], ReleaseMessages(rs[1..]));
      UndoOne(Credit(l, h, r.amount), m);
    }
  }

  lemma AnnounceUndone(cfg: Config, tx: Tx, p: Placing, found: Option<Discovery>, l: Ledger)
    requires |p.perOutput| == |tx.outputs| && NoStoredZero(l)
    ensures var o := Announce(cfg, tx, p, found, l);
      NoStoredZero(o.ledger) && UndoMessages(o.ledger, if o.valid.Some? then [o.valid.value] else []) == l
  {
    if found.Some? {
      var raw := cfg.message(found.value.contentType, found.value.body);
      if raw.Some? {
        var receivers := Receivers(p.perOutput, tx.outputs, map[]);
        var id := found.value.id;
        ProcessUndone(l, raw.value, id, if id in receivers then Some(receivers[id]) else None);
      }
    }
  }

  /** Undoing the messages of a transaction gives back the ledger it started from. */
  lemma TransactionUndone(cfg: Config, height: nat, tx: Tx, refs: seq<TxoRef>, bodies: seq<TxoBody>, st: InscState)
    requires |refs| == |bodies| && tx.inputs != [] && NoStoredZero(st.drc)
    ensures var r := IndexInscriptions(cfg, height, tx, refs, bodies, st);
      NoStoredZero(r.state.drc) && UndoMessages(r.state.drc, r.messages) == st.drc
  {
    var inc := Arrivals(cfg, height, tx, refs, bodies);
    var rev := Reveal(st.partials, tx, inc.floats);
    var p := Place(SortByOffset(Floating(tx, inc.floats, rev.found, st.carried)), tx.outputs, 0);
    var rs := Releases(tx, p, inc.unused);
    var l := ApplyReleases(st.drc, rs);
    var o := Announce(cfg, tx, p, rev.found, l);
    ReleasesUndone(st.drc, rs);
    AnnounceUndone(cfg, tx, p, rev.found, l);
    UndoMessagesConcat(o.ledger, ReleaseMessages(rs), if o.valid.Some? then [o.valid.value] else []);
  }

  // ----- sums of locked amounts -----

  function Owed(unused: map<InscriptionId, Unused>, id: InscriptionId, t: Ticker): nat {
    if id in unused && unused[id].ticker == t then unused[id].amount else 0
  }

  function OwedFn(unused: map<InscriptionId, Unused>, t: Ticker): Flotsam -> int {
    (f: Flotsam) => Owed(unused, f.id, t)
  }

  function RelFn(t: Ticker): Release -> int {
    (r: Release) => if r.ticker == t then r.amount else 0
  }

  function LockedAmount(transfers: map<InscriptionId, Transfer>, id: InscriptionId, t: Ticker): nat {
    if id in transfers && transfers[id].ticker == t then transfers[id].amount else 0
  }

  function LockFn(transfers: map<InscriptionId, Transfer>, t: Ticker): Placed -> int {
    (p: Placed) => LockedAmount(transfers, p.id, t)
  }

  /** Amount of a ticker locked in the unused transfers of an output. */
  ghost function LockedIn(body: TxoBody, t: Ticker): int {
    SumBy(body.inscriptions, LockFn(body.transfers, t))
  }

  lemma LockedInNonNegative(body: TxoBody, t: Ticker)
    ensures 0 <= LockedIn(body, t)
  {
    SumByNonNegative(body.inscriptions, LockFn(body.transfers, t));
  }

  ghost function LockedInAll(bodies: seq<TxoBody>, t: Ticker): int {
    if bodies == [] then 0 else LockedIn(bodies[0], t) + LockedInAll(bodies[1..], t)
  }

  function FloatIds(fs: seq<Flotsam>): (r: seq<InscriptionId>)
    ensures |r| == |fs|
    ensures forall i :: 0 <= i < |fs| ==> r[i] == fs[i].id
  {
    seq(|fs|, i requires 0 <= i < |fs| => fs[i].id)
  }

  function BodyIds(bodies: seq<TxoBody>): seq<InscriptionId> {
    if bodies == [] then [] else Ids(bodies[0].inscriptions) + BodyIds(bodies[1..])
  }

  // ----- arrivals -----

  lemma {:induction false} OwedUnaffected(
    fs: seq<Flotsam>, unused: map<InscriptionId, Unused>, id: InscriptionId, u: Unused, t: Ticker)
    requires id !in FloatIds(fs)
    ensures SumBy(fs, OwedFn(unused[id := u], t)) == SumBy(fs, OwedFn(unused, t))
  {
    forall f | f in fs ensures OwedFn(unused[id := u], t)(f) == OwedFn(unused, t)(f) {
      var i :| 0 <= i < |fs| && fs[i] == f;
      assert FloatIds(fs)[i] == f.id;
    }
    SumByAgree(fs, OwedFn(unused[id := u], t), OwedFn(unused, t));
  }

  /** The unused transfers only speak of inscriptions that arrived. */
  ghost predicate Known(inc: Incoming) {
    forall id <- inc.unused :: id in FloatIds(inc.floats)
  }

  lemma EnterOwes(inc: Incoming, source: TxoRef, body: TxoBody, p: Placed, t: Ticker)
    requires Known(inc) && p.id !in FloatIds(inc.floats)
    ensures var r := Enter(inc, source, body, p);
      && Known(r)
      && FloatIds(r.floats) == FloatIds(inc.floats) + [p.id]
      && SumBy(r.floats, OwedFn(r.unused, t))
         == SumBy(inc.floats, OwedFn(inc.unused, t)) + LockFn(body.transfers, t)(p)
  {
    var r := Enter(inc, source, body, p);
    var f := Flotsam(p.id, inc.total + p.offset, false);
    assert r.floats == inc.floats + [f];
    assert FloatIds(r.floats) == FloatIds(inc.floats) + [p.id];
    SumByConcat(inc.floats, [f], OwedFn(r.unused, t));
    assert [f][1..] == [];
    if p.id in body.transfers {
      OwedUnaffected(inc.floats, inc.unused, p.id, r.unused[p.id], t);
    }
  }

  lemma {:induction false} EnterAllOwes(inc: Incoming, source: TxoRef, body: TxoBody, ps: seq<Placed>, t: Ticker)
    requires Known(inc) && NoDup(FloatIds(inc.floats) + Ids(ps))
    ensures var r := EnterAll(inc, source, body, ps);
      && Known(r)
      && FloatIds(r.floats) == FloatIds(inc.floats) + Ids(ps)
      && SumBy(r.floats, OwedFn(r.unused, t))
         == SumBy(inc.floats, OwedFn(inc.unused, t)) + SumBy(ps, LockFn(body.transfers, t))
    decreases |ps|
  {
    if ps == [] {
      assert Ids(ps) == [];
      assert FloatIds(inc.floats) + [] == FloatIds(inc.floats);
    } else {
      var p := ps[0];
      assert Ids(ps)[1..] == Ids(ps[1..]);
      NoDupHead(FloatIds(inc.floats), Ids(ps));
      EnterOwes(inc, source, body, p, t);
      EnterAllOwes(Enter(inc, source, body, p), source, body, ps[1..], t);
    }
  }

  lemma {:induction false} EnterInputsOwe(inc: Incoming, refs: seq<TxoRef>, bodies: seq<TxoBody>, t: Ticker)
    requires |refs| == |bodies|
    requires Known(inc) && NoDup(FloatIds(inc.floats) + BodyIds(bodies))
    ensures var r := EnterInputs(inc, refs, bodies);
      && Known(r)
      && FloatIds(r.floats) == FloatIds(inc.floats) + BodyIds(bodies)
      && SumBy(r.floats, OwedFn(r.unused, t))
         == SumBy(inc.floats, OwedFn(inc.unused, t)) + LockedInAll(bodies, t)
    decreases |refs|
  {
    if refs == [] {
      assert BodyIds(bodies) == [];
      assert FloatIds(inc.floats) + [] == FloatIds(inc.floats);
    } else {
      var b := bodies[0];
      assert FloatIds(inc.floats) + BodyIds(bodies)
        == (FloatIds(inc.floats) + Ids(b.inscriptions)) + BodyIds(bodies[1..]);
      NoDupConcat(FloatIds(inc.floats) + Ids(b.inscriptions), BodyIds(bodies[1..]));
      EnterAllOwes(inc, refs[0], b, b.inscriptions, t);
      var next := EnterInput(inc, refs[0], b);
      EnterInputsOwe(next, refs[1..], bodies[1..], t);
    }
  }

  // ----- releases -----

  lemma {:induction false} LostOwes(fs: seq<Flotsam>, unused: map<InscriptionId, Unused>, t: Ticker)
    ensures SumBy(LostReleases(fs, unused), RelFn(t)) == SumBy(fs, OwedFn(unused, t))
  {
    if fs != [] {
      LostOwes(fs[1..], unused, t);
      if fs[0].id in unused {
        assert LostReleases(fs, unused)[1..] == LostReleases(fs[1..], unused);
      } else {
        assert LostReleases(fs, unused) == LostReleases(fs[1..], unused);
      }
    }
  }

  lemma {:induction false} OutOwes(fs: seq<Flotsam>, receiver: Script, unused: map<InscriptionId, Unused>, t: Ticker)
    ensures SumBy(OutReleases(fs, receiver, unused), RelFn(t)) == SumBy(fs, OwedFn(unused, t))
  {
    if fs != [] {
      OutOwes(fs[1..], receiver, unused, t);
      if fs[0].id in unused {
        assert OutReleases(fs, receiver, unused)[1..] == OutReleases(fs[1..], receiver, unused);
      } else {
        assert OutReleases(fs, receiver, unused) == OutReleases(fs[1..], receiver, unused);
      }
    }
  }

  lemma {:induction false} PlacedOwes(
    perOutput: seq<seq<Flotsam>>, outs: seq<TxOut>, unused: map<InscriptionId, Unused>, t: Ticker)
    requires |perOutput| == |outs|
    ensures SumBy(PlacedReleases(perOutput, outs, unused), RelFn(t)) == SumBy(Flatten(perOutput), OwedFn(unused, t))
    decreases |outs|
  {
    if outs != [] {
      PlacedOwes(perOutput[1..], outs[1..], unused, t);
      OutOwes(perOutput[0], outs[0].script, unused, t);
      SumByConcat(OutReleases(perOutput[0], outs[0].script, unused),
                  PlacedReleases(perOutput[1..], outs[1..], unused), RelFn(t));
      SumByConcat(perOutput[0], Flatten(perOutput[1..]), OwedFn(unused, t));
    }
  }

  /** Crediting the releases moves locked amounts back to balances, without wrap. */
  lemma {:induction false} ReleasesBacked(l: Ledger, rs: seq<Release>, t: Ticker, locked: int)
    requires Backed(l, t, locked) && SumBy(rs, RelFn(t)) <= locked
    ensures Backed(ApplyReleases(l, rs), t, locked - SumBy(rs, RelFn(t)))
    decreases |rs|
  {
    if rs != [] {
      var r := rs[0];
      var h := Holder(r.receiver, r.ticker);
      SumByNonNegative(rs[1..], RelFn(t));
      if r.ticker == t {
        CreditAvailable(l, h, r.amount, t);
      } else {
        SetBalanceAvailable(l, h, AddU128(Balance(l, h), r.amount), t);
      }
      ReleasesBacked(Credit(l, h, r.amount), rs[1..], t, locked - RelFn(t)(r));
    }
  }

  // ----- what the outputs lock -----

  function TransFn(transfers: map<InscriptionId, Transfer>, t: Ticker): Flotsam -> int {
    (f: Flotsam) => LockedAmount(transfers, f.id, t)
  }

  lemma {:induction false} LocalLocks(fs: seq<Flotsam>, start: nat, transfers: map<InscriptionId, Transfer>, t: Ticker)
    ensures SumBy(Local(fs, start), LockFn(transfers, t)) == SumBy(fs, TransFn(transfers, t))
  {
    if fs != [] {
      assert Local(fs, start)[1..] == Local(fs[1..], start);
      LocalLocks(fs[1..], start, transfers, t);
    }
  }

  lemma BodyLocks(height: nat, out: TxOut, dunes: Balances, fs: seq<Flotsam>, start: nat,
                  transfers: map<InscriptionId, Transfer>, t: Ticker)
    ensures LockedIn(Body(height, out, dunes, Local(fs, start), transfers), t) == SumBy(fs, TransFn(transfers, t))
  {
    var placed := Local(fs, start);
    var body := Body(height, out, dunes, placed, transfers);
    forall p | p in placed ensures LockFn(body.transfers, t)(p) == LockFn(transfers, t)(p) {
      var i :| 0 <= i < |placed| && placed[i] == p;
      assert Ids(placed)[i] == p.id;
    }
    SumByAgree(placed, LockFn(body.transfers, t), LockFn(transfers, t));
    LocalLocks(fs, start, transfers, t);
  }

  lemma {:induction false} FlattenLocks(
    bodies: seq<TxoBody>, perOutput: seq<seq<Flotsam>>, f: Flotsam -> int, t: Ticker)
    requires |bodies| == |perOutput|
    requires forall v :: 0 <= v < |bodies| ==> LockedIn(bodies[v], t) == SumBy(perOutput[v], f)
    ensures LockedInAll(bodies, t) == SumBy(Flatten(perOutput), f)
  {
    if bodies != [] {
      FlattenLocks(bodies[1..], perOutput[1..], f, t);
      SumByConcat(perOutput[0], Flatten(perOutput[1..]), f);
    }
  }

  /** One locked transfer counts once if its inscription is placed once. */
  lemma {:induction false} SingleLock(fs: seq<Flotsam>, id: InscriptionId, tr: Transfer, t: Ticker)
    requires NoDup(FloatIds(fs))
    ensures SumBy(fs, TransFn(map[id := tr], t)) == if id in FloatIds(fs) then Locks(Some(tr), t) else 0
  {
    if fs != [] {
      assert FloatIds(fs) == [fs[0].id] + FloatIds(fs[1..]);
      NoDupConcat([fs[0].id], FloatIds(fs[1..]));
      assert fs[0].id in [fs[0].id];
      SingleLock(fs[1..], id, tr, t);
    }
  }

  lemma {:induction false} NoLock(fs: seq<Flotsam>, t: Ticker)
    ensures SumBy(fs, TransFn(map[], t)) == 0
  {
    if fs != [] {
      NoLock(fs[1..], t);
    }
  }

  // ----- who receives a new inscription -----

  lemma {:induction false} ScriptsIff(
    fs: seq<Flotsam>, script: Script, m: map<InscriptionId, Script>, id: InscriptionId)
    ensures id in Scripts(fs, script, m) <==> id in m || id in FloatIds(fs)
    decreases |fs|
  {
    if fs != [] {
      ScriptsIff(fs[1..], script, m[fs[0].id := script], id);
      assert FloatIds(fs) == [fs[0].id] + FloatIds(fs[1..]);
    }
  }

  lemma {:induction false} ReceiversIff(
    perOutput: seq<seq<Flotsam>>, outs: seq<TxOut>, m: map<InscriptionId, Script>, id: InscriptionId)
    requires |perOutput| == |outs|
    ensures id in Receivers(perOutput, outs, m) <==> id in m || id in FloatIds(Flatten(perOutput))
    decreases |outs|
  {
    if outs != [] {
      ReceiversIff(perOutput[1..], outs[1..], Scripts(perOutput[0], outs[0].script, m), id);
      ScriptsIff(perOutput[0], outs[0].script, m, id);
      assert FloatIds(Flatten(perOutput)) == FloatIds(perOutput[0]) + FloatIds(Flatten(perOutput[1..]));
    } else {
      assert FloatIds(Flatten(perOutput)) == [];
    }
  }

  // ----- one transaction -----

  lemma {:induction false} AnnounceBacked(
    cfg: Config, tx: Tx, p: Placing, found: Option<Discovery>, l: Ledger, t: Ticker, locked: int)
    requires |p.perOutput| == |tx.outputs| && Backed(l, t, locked)
    ensures var o := Announce(cfg, tx, p, found, l);
      && Backed(o.ledger, t, locked + Locks(o.locked, t))
      && (o.locked.Some? ==> found.Some? && found.value.id in FloatIds(Flatten(p.perOutput)))
  {
    if found.Some? {
      var raw := cfg.message(found.value.contentType, found.value.body);
      if raw.Some? {
        var receivers := Receivers(p.perOutput, tx.outputs, map[]);
        var id := found.value.id;
        ReceiversIff(p.perOutput, tx.outputs, map[], id);
        ProcessBacked(l, raw.value, id, if id in receivers then Some(receivers[id]) else None, t, locked);
      }
    }
  }

  lemma NoDupPart(p: Placing, floats: seq<Flotsam>, s: seq<Flotsam>)
    requires NoDup(FloatIds(floats)) && multiset(s) == multiset(floats) && Flatten(p.perOutput) + p.rest == s
    ensures NoDup(FloatIds(Flatten(p.perOutput))) && NoDup(FloatIds(p.rest))
    ensures forall id <- FloatIds(p.rest) :: id !in FloatIds(Flatten(p.perOutput))
  {
    IdsPermute(floats, s);
    assert FloatIds(s) == FloatIds(Flatten(p.perOutput)) + FloatIds(p.rest);
    NoDupPermutation(FloatIds(floats), FloatIds(s));
    NoDupConcat(FloatIds(Flatten(p.perOutput)), FloatIds(p.rest));
  }

  function IsId(id: InscriptionId): Flotsam -> int {
    (f: Flotsam) => if f.id == id then 1 else 0
  }

  lemma {:induction false} CountId(s: seq<Flotsam>, id: InscriptionId)
    ensures multiset(FloatIds(s))[id] == SumBy(s, IsId(id))
  {
    if s != [] {
      CountId(s[1..], id);
      assert FloatIds(s) == [s[0].id] + FloatIds(s[1..]);
    }
  }

  lemma IdsPermute(a: seq<Flotsam>, b: seq<Flotsam>)
    requires multiset(a) == multiset(b)
    ensures multiset(FloatIds(a)) == multiset(FloatIds(b))
  {
    forall id ensures multiset(FloatIds(a))[id] == multiset(FloatIds(b))[id] {
      CountId(a, id);
      CountId(b, id);
      SumByPermutation(a, b, IsId(id));
    }
  }

  ghost function Floats(
    cfg: Config, height: nat, tx: Tx, refs: seq<TxoRef>, bodies: seq<TxoBody>, st: InscState): seq<Flotsam>
    requires |refs| == |bodies| && tx.inputs != []
  {
    var inc := Arrivals(cfg, height, tx, refs, bodies);
    Floating(tx, inc.floats, Reveal(st.partials, tx, inc.floats).found, st.carried)
  }

  /** A transaction keeps a ticker backed: what its inputs had locked is released,
      what its outputs lock is newly locked, and nothing wraps. */
  lemma {:induction false} TransactionBacked(
    cfg: Config, height: nat, tx: Tx, refs: seq<TxoRef>, bodies: seq<TxoBody>, st: InscState,
    dunes: seq<Balances>, t: Ticker, locked: int)
    requires |refs| == |bodies| && tx.inputs != [] && |dunes| == |tx.outputs|
    requires IsCoinbase(tx) ==> bodies == []
    requires NoDup(FloatIds(Floats(cfg, height, tx, refs, bodies, st)))
    requires Backed(st.drc, t, locked) && LockedInAll(bodies, t) <= locked
    ensures var r := IndexInscriptions(cfg, height, tx, refs, bodies, st);
      Backed(r.state.drc, t,
             locked - LockedInAll(bodies, t)
             + LockedInAll(Bodies(height, tx.outputs, dunes, r.outputs, r.transfers), t))
  {
    var inc := Arrivals(cfg, height, tx, refs, bodies);
    var rev := Reveal(st.partials, tx, inc.floats);
    var floats := Floats(cfg, height, tx, refs, bodies, st);
    var p := Place(SortByOffset(floats), tx.outputs, 0);
    var rs := Releases(tx, p, inc.unused);
    ArrivalsOwe(cfg, height, tx, refs, bodies, st, t);
    ReleasesOwe(tx, floats, p, inc.unused, t);
    ReleasesBacked(st.drc, rs, t, locked);
    var l := ApplyReleases(st.drc, rs);
    var o := Announce(cfg, tx, p, rev.found, l);
    AnnounceBacked(cfg, tx, p, rev.found, l, t, locked - LockedInAll(bodies, t));
    OutputsLock(cfg, height, tx, refs, bodies, st, dunes, t, floats, p, o);
  }

  /** The floating inscriptions owe exactly what the inputs had locked. */
  lemma {:induction false} ArrivalsOwe(
    cfg: Config, height: nat, tx: Tx, refs: seq<TxoRef>, bodies: seq<TxoBody>, st: InscState, t: Ticker)
    requires |refs| == |bodies| && tx.inputs != []
    requires IsCoinbase(tx) ==> bodies == []
    requires NoDup(FloatIds(Floats(cfg, height, tx, refs, bodies, st)))
    ensures SumBy(Floats(cfg, height, tx, refs, bodies, st), OwedFn(Arrivals(cfg, height, tx, refs, bodies).unused, t))
         == LockedInAll(bodies, t)
    ensures IsCoinbase(tx) ==> Arrivals(cfg, height, tx, refs, bodies).unused == map[]
  {
    var inc := Arrivals(cfg, height, tx, refs, bodies);
    var extra := Floating(tx, [], Reveal(st.partials, tx, inc.floats).found, st.carried);
    var floats := Floats(cfg, height, tx, refs, bodies, st);
    assert floats == inc.floats + extra;
    assert FloatIds(floats) == FloatIds(inc.floats) + FloatIds(extra);
    NoDupConcat(FloatIds(inc.floats), FloatIds(extra));
    SumByConcat(inc.floats, extra, OwedFn(inc.unused, t));
    if !IsCoinbase(tx) {
      ArrivedIds(Incoming([], map[], 0), refs, bodies);
      assert FloatIds([]) + BodyIds(bodies) == BodyIds(bodies);
      EnterInputsOwe(Incoming([], map[], 0), refs, bodies, t);
    }
    OwedNothing(extra, inc.unused, t);
  }

  lemma {:induction false} OwedNothing(fs: seq<Flotsam>, unused: map<InscriptionId, Unused>, t: Ticker)
    requires forall f <- fs :: f.id !in unused
    ensures SumBy(fs, OwedFn(unused, t)) == 0
  {
    if fs != [] {
      OwedNothing(fs[1..], unused, t);
    }
  }

  lemma {:induction false} ReleasesOwe(
    tx: Tx, floats: seq<Flotsam>, p: Placing, unused: map<InscriptionId, Unused>, t: Ticker)
    requires p == Place(SortByOffset(floats), tx.outputs, 0)
    requires IsCoinbase(tx) ==> unused == map[]
    ensures SumBy(Releases(tx, p, unused), RelFn(t)) == SumBy(floats, OwedFn(unused, t))
  {
    var s := SortByOffset(floats);
    SortLaw(floats);
    PlaceKeepsAll(s, tx.outputs, 0);
    SumByPermutation(floats, s, OwedFn(unused, t));
    SumByConcat(Flatten(p.perOutput), p.rest, OwedFn(unused, t));
    PlacedOwes(p.perOutput, tx.outputs, unused, t);
    if IsCoinbase(tx) {
      OwedNothing(p.rest, unused, t);
      SumByConcat([], PlacedReleases(p.perOutput, tx.outputs, unused), RelFn(t));
    } else {
      LostOwes(p.rest, unused, t);
      SumByConcat(LostReleases(p.rest, unused), PlacedReleases(p.perOutput, tx.outputs, unused), RelFn(t));
    }
  }

  lemma {:induction false} OutputsLock(
    cfg: Config, height: nat, tx: Tx, refs: seq<TxoRef>, bodies: seq<TxoBody>, st: InscState,
    dunes: seq<Balances>, t: Ticker, floats: seq<Flotsam>, p: Placing, o: Outcome)
    requires |refs| == |bodies| && tx.inputs != [] && |dunes| == |tx.outputs|
    requires floats == Floats(cfg, height, tx, refs, bodies, st) && NoDup(FloatIds(floats))
    requires p == Place(SortByOffset(floats), tx.outputs, 0)
    requires var inc := Arrivals(cfg, height, tx, refs, bodies);
      o == Announce(cfg, tx, p, Reveal(st.partials, tx, inc.floats).found,
                    ApplyReleases(st.drc, Releases(tx, p, inc.unused)))
    requires o.locked.Some? ==>
      var found := Reveal(st.partials, tx, Arrivals(cfg, height, tx, refs, bodies).floats).found;
      found.Some? && found.value.id in FloatIds(Flatten(p.perOutput))
    ensures var r := IndexInscriptions(cfg, height, tx, refs, bodies, st);
      LockedInAll(Bodies(height, tx.outputs, dunes, r.outputs, r.transfers), t) == Locks(o.locked, t)
  {
    var r := IndexInscriptions(cfg, height, tx, refs, bodies, st);
    assert r.outputs == Locals(p.perOutput, tx.outputs);
    var outs := Bodies(height, tx.outputs, dunes, r.outputs, r.transfers);
    forall v | 0 <= v < |outs| ensures LockedIn(outs[v], t) == SumBy(p.perOutput[v], TransFn(r.transfers, t)) {
      BodyLocks(height, tx.outputs[v], dunes[v], p.perOutput[v], Start(tx.outputs, v), r.transfers, t);
    }
    FlattenLocks(outs, p.perOutput, TransFn(r.transfers, t), t);
    SortLaw(floats);
    PlaceKeepsAll(SortByOffset(floats), tx.outputs, 0);
    NoDupPart(p, floats, SortByOffset(floats));
    if o.locked.Some? {
      SingleLock(Flatten(p.perOutput), r.found.value.id, o.locked.value, t);
    } else {
      NoLock(Flatten(p.perOutput), t);
    }
  }

  lemma {:induction false} ArrivedIds(inc: Incoming, refs: seq<TxoRef>, bodies: seq<TxoBody>)
    requires |refs| == |bodies|
    ensures FloatIds(EnterInputs(inc, refs, bodies).floats) == FloatIds(inc.floats) + BodyIds(bodies)
    decreases |refs|
  {
    if refs == [] {
      assert BodyIds(bodies) == [];
    } else {
      var b := bodies[0];
      ArrivedBodyIds(inc, refs[0], b, b.inscriptions);
      ArrivedIds(EnterInput(inc, refs[0], b), refs[1..], bodies[1..]);
      ConcatAssoc(FloatIds(inc.floats), Ids(b.inscriptions), BodyIds(bodies[1..]));
    }
  }

  lemma {:induction false} ArrivedBodyIds(inc: Incoming, source: TxoRef, body: TxoBody, ps: seq<Placed>)
    ensures FloatIds(EnterAll(inc, source, body, ps).floats) == FloatIds(inc.floats) + Ids(ps)
    decreases |ps|
  {
    if ps == [] {
      assert Ids(ps) == [];
    } else {
      ArrivedBodyIds(Enter(inc, source, body, ps[0]), source, body, ps[1..]);
      var next := Enter(inc, source, body, ps[0]);
      assert FloatIds(next.floats) == FloatIds(inc.floats) + [ps[0].id];
      assert Ids(ps) == [ps[0].id] + Ids(ps[1..]);
      ConcatAssoc(FloatIds(inc.floats), [ps[0].id], Ids(ps[1..]));
    }
  }
}
