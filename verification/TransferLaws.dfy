/** Where used transfers go and who gets a new inscription: what a transaction does to
    the DRC-20 tables, from its inputs and outputs alone. */
module TransferLaws {
  import opened Prelude
  import opened ChainTypes
  import opened Placement
  import opened Drc20
  import opened Inscriptions
  import opened InscriptionLaws
  import opened LiveInscriptions
  import opened DuplicateTransfers
  import InscriptionParser

  // ----- the output that holds a sat -----

  /** Script of the output that holds a sat; None past the last one. */
  function ScriptAt(outs: seq<TxOut>, sat: nat): Option<Script> {
    if outs == [] then None
    else if sat < outs[0].value then Some(outs[0].script)
    else ScriptAt(outs[1..], sat - outs[0].value)
  }

  lemma {:induction false} ScriptInside(outs: seq<TxOut>, v: nat, sat: nat)
    requires v < |outs| && Start(outs, v) <= sat < Start(outs, v) + outs[v].value
    ensures ScriptAt(outs, sat) == Some(outs[v].script)
    decreases v
  {
    if v > 0 {
      ScriptInside(outs[1..], v - 1, sat - outs[0].value);
    }
  }

  lemma {:induction false} ScriptOutside(outs: seq<TxOut>, sat: nat)
    ensures ScriptAt(outs, sat).None? <==> Total(outs) <= sat
    decreases |outs|
  {
    if outs != [] && outs[0].value <= sat {
      ScriptOutside(outs[1..], sat - outs[0].value);
    }
  }

  // ----- what is sent -----

  /** A transfer goes to the script of the output that its inscription's sat lands in,
      and back to the script it came from if the sat is spent as fee. */
  function Destination(outs: seq<TxOut>, sat: nat, sender: Script): Script {
    if ScriptAt(outs, sat).Some? then ScriptAt(outs, sat).value else sender
  }

  /** The transfers among the inscriptions of one input, which begins at sat `total`. */
  function SentFrom(outs: seq<TxOut>, total: nat, source: TxoRef, body: TxoBody, ps: seq<Placed>): seq<Message> {
    if ps == [] then []
    else
      (if ps[0].id in body.transfers
       then [Transferred(body.transfers[ps[0].id].ticker, body.transfers[ps[0].id].amount, source,
                         Destination(outs, total + ps[0].offset, body.txout.script))]
       else [])
      + SentFrom(outs, total, source, body, ps[1..])
  }

  function Sent(outs: seq<TxOut>, total: nat, refs: seq<TxoRef>, bodies: seq<TxoBody>): seq<Message>
    requires |refs| == |bodies|
    decreases |bodies|
  {
    if bodies == [] then []
    else
      SentFrom(outs, total, refs[0], bodies[0], bodies[0].inscriptions)
      + Sent(outs, total + bodies[0].txout.value, refs[1..], bodies[1..])
  }

  function PayOne(l: Ledger, m: Message): Ledger {
    if m.Transferred? then Credit(l, Holder(m.receiver, m.ticker), m.amount) else l
  }

  /** The ledger with these transfers credited to their receivers. */
  function Paid(l: Ledger, ms: seq<Message>): Ledger
    decreases |ms|
  {
    if ms == [] then l
    else
      Paid(PayOne(l, ms[0]), ms[1..])
  }

  function To(h: Holder): Message -> int {
    (m: Message) => if m.Transferred? && m.receiver == h.script && m.ticker == h.ticker then m.amount else 0
  }

  lemma PayOneIs(l: Ledger, m: Message, h: Holder)
    requires NoStoredZero(l)
    ensures 0 <= To(h)(m) && Balance(PayOne(l, m), h) == (Balance(l, h) + To(h)(m)) % U128
    ensures NoStoredZero(PayOne(l, m)) && PayOne(l, m).terms == l.terms && PayOne(l, m).supply == l.supply
  {
    if m.Transferred? {
      DebitCredit(l, Holder(m.receiver, m.ticker), m.amount);
    }
  }

  lemma {:induction false} PaidIs(l: Ledger, ms: seq<Message>, h: Holder)
    requires NoStoredZero(l)
    ensures 0 <= SumBy(ms, To(h)) && Balance(Paid(l, ms), h) == (Balance(l, h) + SumBy(ms, To(h))) % U128
    ensures NoStoredZero(Paid(l, ms)) && Paid(l, ms).terms == l.terms && Paid(l, ms).supply == l.supply
    decreases |ms|
  {
    hide PayOne, Balance, NoStoredZero;
    if ms == [] {
      SmallBalance(l, h);
    } else {
      PayOneIs(l, ms[0], h);
      PaidIs(PayOne(l, ms[0]), ms[1..], h);
      ModAdd(Balance(l, h), To(h)(ms[0]), SumBy(ms[1..], To(h)));
    }
  }

  lemma SmallBalance(l: Ledger, h: Holder)
    ensures Balance(l, h) % U128 == Balance(l, h)
  {
  }

  lemma ModAdd(a: nat, b: nat, c: nat)
    ensures ((a + b) % U128 + c) % U128 == (a + b + c) % U128
  {
    var q := (a + b) / U128;
    assert a + b == q * U128 + (a + b) % U128;
    ModShift((a + b) % U128 + c, q);
  }

  lemma ModShift(x: nat, q: nat)
    ensures (x + q * U128) % U128 == x % U128
  {
    if q > 0 {
      ModShift(x, q - 1);
      assert x + q * U128 == (x + (q - 1) * U128) + U128;
    }
  }

  /** The order of the credits is of no account. */
  lemma {:induction false} PaidOnce(l: Ledger, a: seq<Message>, b: seq<Message>)
    requires NoStoredZero(l) && multiset(a) == multiset(b)
    ensures Paid(l, a) == Paid(l, b)
  {
    hide Paid, Balance, NoStoredZero;
    var x, y := Paid(l, a), Paid(l, b);
    PaidIs(l, a, Holder(0, []));
    PaidIs(l, b, Holder(0, []));
    forall h ensures Balance(x, h) == Balance(y, h) {
      PaidIs(l, a, h);
      PaidIs(l, b, h);
      SumByPermutation(a, b, To(h));
    }
    SameBalances(x, y);
  }

  lemma SameBalances(x: Ledger, y: Ledger)
    requires NoStoredZero(x) && NoStoredZero(y) && forall h :: Balance(x, h) == Balance(y, h)
    ensures x.balances == y.balances
  {
    forall h ensures h in x.balances <==> h in y.balances {
      assert Balance(x, h) == Balance(y, h);
    }
    forall h | h in x.balances ensures x.balances[h] == y.balances[h] {
      assert Balance(x, h) == Balance(y, h);
    }
  }

  // ----- from floating inscriptions to messages -----

  function OfFloat(outs: seq<TxOut>, unused: map<InscriptionId, Unused>, f: Flotsam): seq<Message> {
    if f.id in unused then
      var u := unused[f.id];
      [Transferred(u.ticker, u.amount, u.source, Destination(outs, f.offset, u.sender))]
    else []
  }

  function OfFloats(outs: seq<TxOut>, unused: map<InscriptionId, Unused>, fs: seq<Flotsam>): seq<Message> {
    if fs == [] then [] else OfFloat(outs, unused, fs[0]) + OfFloats(outs, unused, fs[1..])
  }

  lemma {:induction false} OfFloatsConcat(
    outs: seq<TxOut>, unused: map<InscriptionId, Unused>, a: seq<Flotsam>, b: seq<Flotsam>)
    ensures OfFloats(outs, unused, a + b) == OfFloats(outs, unused, a) + OfFloats(outs, unused, b)
    decreases |a|
  {
    hide OfFloat;
    if a == [] {
      assert a + b == b;
    } else {
      assert (a + b)[0] == a[0] && (a + b)[1..] == a[1..] + b;
      OfFloatsConcat(outs, unused, a[1..], b);
      ConcatAssoc(OfFloat(outs, unused, a[0]), OfFloats(outs, unused, a[1..]), OfFloats(outs, unused, b));
    }
  }

  function Makes(outs: seq<TxOut>, unused: map<InscriptionId, Unused>, m: Message): Flotsam -> int {
    (f: Flotsam) => if OfFloat(outs, unused, f) == [m] then 1 else 0
  }

  lemma {:induction false} CountMessages(
    outs: seq<TxOut>, unused: map<InscriptionId, Unused>, fs: seq<Flotsam>, m: Message)
    ensures multiset(OfFloats(outs, unused, fs))[m] == SumBy(fs, Makes(outs, unused, m))
  {
    hide Destination;
    if fs != [] {
      CountMessages(outs, unused, fs[1..], m);
    }
  }

  lemma {:induction false} OfFloatsPermute(
    outs: seq<TxOut>, unused: map<InscriptionId, Unused>, a: seq<Flotsam>, b: seq<Flotsam>)
    requires multiset(a) == multiset(b)
    ensures multiset(OfFloats(outs, unused, a)) == multiset(OfFloats(outs, unused, b))
  {
    forall m ensures multiset(OfFloats(outs, unused, a))[m] == multiset(OfFloats(outs, unused, b))[m] {
      CountMessages(outs, unused, a, m);
      CountMessages(outs, unused, b, m);
      SumByPermutation(a, b, Makes(outs, unused, m));
    }
  }

  lemma {:induction false} OfNothing(outs: seq<TxOut>, unused: map<InscriptionId, Unused>, fs: seq<Flotsam>)
    requires forall f <- fs :: f.id !in unused
    ensures OfFloats(outs, unused, fs) == []
  {
    if fs != [] {
      OfNothing(outs, unused, fs[1..]);
    }
  }

  lemma MessagesConcat(a: seq<Release>, b: seq<Release>)
    ensures ReleaseMessages(a + b) == ReleaseMessages(a) + ReleaseMessages(b)
  {
  }

  lemma {:induction false} LostAre(outs: seq<TxOut>, unused: map<InscriptionId, Unused>, fs: seq<Flotsam>)
    requires forall f <- fs :: Total(outs) <= f.offset
    ensures ReleaseMessages(LostReleases(fs, unused)) == OfFloats(outs, unused, fs)
  {
    if fs != [] {
      ScriptOutside(outs, fs[0].offset);
      LostAre(outs, unused, fs[1..]);
      hide ScriptAt;
      var head := if fs[0].id in unused
                  then var u := unused[fs[0].id]; [Release(u.ticker, u.amount, u.source, u.sender)] else [];
      assert LostReleases(fs, unused) == head + LostReleases(fs[1..], unused);
      MessagesConcat(head, LostReleases(fs[1..], unused));
      assert ReleaseMessages(head) == OfFloat(outs, unused, fs[0]);
    }
  }

  lemma {:induction false} PlacedHereAre(
    outs: seq<TxOut>, unused: map<InscriptionId, Unused>, fs: seq<Flotsam>, script: Script)
    requires forall f <- fs :: ScriptAt(outs, f.offset) == Some(script)
    ensures ReleaseMessages(OutReleases(fs, script, unused)) == OfFloats(outs, unused, fs)
  {
    hide ScriptAt;
    if fs != [] {
      PlacedHereAre(outs, unused, fs[1..], script);
      var head := if fs[0].id in unused
                  then var u := unused[fs[0].id]; [Release(u.ticker, u.amount, u.source, script)] else [];
      assert OutReleases(fs, script, unused) == head + OutReleases(fs[1..], script, unused);
      MessagesConcat(head, OutReleases(fs[1..], script, unused));
      assert fs[0] in fs;
      assert ReleaseMessages(head) == OfFloat(outs, unused, fs[0]);
    }
  }

  /** Every inscription of these outputs lies in the output whose script is given. */
  ghost predicate LieIn(all: seq<TxOut>, perOutput: seq<seq<Flotsam>>, outs: seq<TxOut>) {
    && |perOutput| == |outs|
    && (forall v, f :: 0 <= v < |outs| && f in perOutput[v] ==> ScriptAt(all, f.offset) == Some(outs[v].script))
  }

  lemma {:induction false} PlacedAre(
    all: seq<TxOut>, unused: map<InscriptionId, Unused>, perOutput: seq<seq<Flotsam>>, outs: seq<TxOut>)
    requires LieIn(all, perOutput, outs)
    ensures ReleaseMessages(PlacedReleases(perOutput, outs, unused)) == OfFloats(all, unused, Flatten(perOutput))
    decreases |outs|
  {
    hide ScriptAt, OutReleases;
    if outs != [] {
      PlacedHereAre(all, unused, perOutput[0], outs[0].script);
      PlacedAre(all, unused, perOutput[1..], outs[1..]);
      MessagesConcat(OutReleases(perOutput[0], outs[0].script, unused),
                     PlacedReleases(perOutput[1..], outs[1..], unused));
      OfFloatsConcat(all, unused, perOutput[0], Flatten(perOutput[1..]));
    }
  }

  lemma {:induction false} PlaceLies(floats: seq<Flotsam>, outs: seq<TxOut>)
    ensures LieIn(outs, Place(SortByOffset(floats), outs, 0).perOutput, outs)
  {
    var s := SortByOffset(floats);
    SortLaw(floats);
    hide Place, SortByOffset;
    forall v, f | 0 <= v < |outs| && f in Place(s, outs, 0).perOutput[v]
      ensures ScriptAt(outs, f.offset) == Some(outs[v].script)
    {
      PlaceInside(s, outs, 0, v);
      ScriptInside(outs, v, f.offset);
    }
  }

  /** The messages of the releases are those of the floating inscriptions. */
  lemma {:induction false} ReleasesAre(tx: Tx, floats: seq<Flotsam>, unused: map<InscriptionId, Unused>)
    requires IsCoinbase(tx) ==> unused == map[]
    ensures var p := Place(SortByOffset(floats), tx.outputs, 0);
      multiset(ReleaseMessages(Releases(tx, p, unused))) == multiset(OfFloats(tx.outputs, unused, floats))
  {
    var s, outs := SortByOffset(floats), tx.outputs;
    var p := Place(s, outs, 0);
    SortLaw(floats);
    PlaceKeepsAll(s, outs, 0);
    PlaceLies(floats, outs);
    RestOutside(s, outs, 0);
    hide Place, SortByOffset, OfFloats;
    PlacedAre(outs, unused, p.perOutput, outs);
    OfFloatsPermute(outs, unused, floats, s);
    OfFloatsConcat(outs, unused, Flatten(p.perOutput), p.rest);
    if IsCoinbase(tx) {
      OfNothing(outs, unused, p.rest);
      assert [] + PlacedReleases(p.perOutput, outs, unused) == PlacedReleases(p.perOutput, outs, unused);
    } else {
      LostAre(outs, unused, p.rest);
      MessagesConcat(LostReleases(p.rest, unused), PlacedReleases(p.perOutput, outs, unused));
    }
  }

  // ----- from inputs to floating inscriptions -----

  function Here(body: TxoBody, source: TxoRef, id: InscriptionId): Unused
    requires id in body.transfers
  {
    Unused(body.transfers[id].ticker, body.transfers[id].amount, body.txout.script, source)
  }

  /** What is known of an id is what this body says of it. */
  ghost predicate Says(unused: map<InscriptionId, Unused>, body: TxoBody, source: TxoRef, id: InscriptionId) {
    if id in body.transfers then id in unused && unused[id] == Here(body, source, id) else id !in unused
  }

  ghost predicate SameAt(a: map<InscriptionId, Unused>, b: map<InscriptionId, Unused>, id: InscriptionId) {
    (id in a <==> id in b) && (id in a ==> a[id] == b[id])
  }

  lemma {:induction false} EnterAllAt(
    inc: Incoming, source: TxoRef, body: TxoBody, ps: seq<Placed>, id: InscriptionId)
    ensures var r := EnterAll(inc, source, body, ps).unused;
      if id in Ids(ps) && id in body.transfers then id in r && r[id] == Here(body, source, id)
      else SameAt(r, inc.unused, id)
    decreases |ps|
  {
    if ps != [] {
      EnterAllAt(Enter(inc, source, body, ps[0]), source, body, ps[1..], id);
      assert Ids(ps) == [ps[0].id] + Ids(ps[1..]);
    }
  }

  lemma {:induction false} InputsKeep(inc: Incoming, refs: seq<TxoRef>, bodies: seq<TxoBody>, id: InscriptionId)
    requires |refs| == |bodies| && id !in BodyIds(bodies)
    ensures SameAt(EnterInputs(inc, refs, bodies).unused, inc.unused, id)
    decreases |refs|
  {
    if refs != [] {
      EnterAllAt(inc, refs[0], bodies[0], bodies[0].inscriptions, id);
      InputsKeep(EnterInput(inc, refs[0], bodies[0]), refs[1..], bodies[1..], id);
    }
  }

  /** With distinct ids, each is known as its own input says. */
  lemma {:induction false} InputsSay(inc: Incoming, refs: seq<TxoRef>, bodies: seq<TxoBody>)
    requires |refs| == |bodies| && NoDup(BodyIds(bodies)) && forall id <- BodyIds(bodies) :: id !in inc.unused
    ensures forall i, id :: 0 <= i < |bodies| && id in Ids(bodies[i].inscriptions) ==>
      Says(EnterInputs(inc, refs, bodies).unused, bodies[i], refs[i], id)
    decreases |refs|
  {
    if refs != [] {
      var body, rest := bodies[0], bodies[1..];
      var next := EnterInput(inc, refs[0], body);
      NoDupConcat(Ids(body.inscriptions), BodyIds(rest));
      forall id | id in BodyIds(rest) ensures id !in next.unused {
        EnterAllAt(inc, refs[0], body, body.inscriptions, id);
      }
      InputsSay(next, refs[1..], rest);
      var all := EnterInputs(inc, refs, bodies).unused;
      assert all == EnterInputs(next, refs[1..], rest).unused;
      forall i, id | 0 <= i < |bodies| && id in Ids(bodies[i].inscriptions) ensures Says(all, bodies[i], refs[i], id) {
        if i == 0 {
          EnterAllAt(inc, refs[0], body, body.inscriptions, id);
          InputsKeep(next, refs[1..], rest, id);
        } else {
          assert bodies[i] == rest[i - 1] && refs[i] == refs[1..][i - 1];
        }
      }
    }
  }

  lemma {:induction false} ShiftedAre(
    outs: seq<TxOut>, unused: map<InscriptionId, Unused>, total: nat, source: TxoRef, body: TxoBody, ps: seq<Placed>)
    requires forall id <- Ids(ps) :: Says(unused, body, source, id)
    ensures OfFloats(outs, unused, Shifted(total, ps)) == SentFrom(outs, total, source, body, ps)
  {
    hide Destination;
    if ps != [] {
      assert Ids(ps) == [ps[0].id] + Ids(ps[1..]);
      ShiftedAre(outs, unused, total, source, body, ps[1..]);
      var f := Flotsam(ps[0].id, total + ps[0].offset, false);
      assert Shifted(total, ps)[0] == f && Shifted(total, ps)[1..] == Shifted(total, ps[1..]);
      assert ps[0].id in Ids(ps);
      assert Says(unused, body, source, f.id);
    }
  }

  lemma {:induction false} ArrivedAre(
    outs: seq<TxOut>, unused: map<InscriptionId, Unused>, total: nat, refs: seq<TxoRef>, bodies: seq<TxoBody>)
    requires |refs| == |bodies|
    requires forall i, id :: 0 <= i < |bodies| && id in Ids(bodies[i].inscriptions) ==>
               Says(unused, bodies[i], refs[i], id)
    ensures OfFloats(outs, unused, Arrived(total, bodies)) == Sent(outs, total, refs, bodies)
    decreases |bodies|
  {
    hide Says;
    if bodies != [] {
      ShiftedAre(outs, unused, total, refs[0], bodies[0], bodies[0].inscriptions);
      forall i, id | 0 <= i < |bodies[1..]| && id in Ids(bodies[1..][i].inscriptions)
        ensures Says(unused, bodies[1..][i], refs[1..][i], id)
      {
        assert bodies[1..][i] == bodies[i + 1] && refs[1..][i] == refs[i + 1];
      }
      ArrivedAre(outs, unused, total + bodies[0].txout.value, refs[1..], bodies[1..]);
      OfFloatsConcat(outs, unused, Shifted(total, bodies[0].inscriptions),
                     Arrived(total + bodies[0].txout.value, bodies[1..]));
    }
  }

  // ----- the transaction -----

  /** The ids that pass through the transaction, with those carried to a coinbase. */
  function AllPassing(p: Partials, tx: Tx, bodies: seq<TxoBody>, carried: seq<Flotsam>): seq<InscriptionId>
    requires tx.inputs != []
  {
    Passing(p, tx, bodies) + if IsCoinbase(tx) then FloatIds(carried) else []
  }

  /** With distinct ids the releases are exactly what the inputs send. */
  lemma {:induction false} DueIsSent(
    cfg: Config, height: nat, tx: Tx, refs: seq<TxoRef>, bodies: seq<TxoBody>, st: InscState)
    requires |refs| == |bodies| && tx.inputs != [] && (IsCoinbase(tx) ==> bodies == [])
    requires NoDup(AllPassing(st.partials, tx, bodies, st.carried))
    ensures multiset(ReleaseMessages(Due(cfg, height, tx, refs, bodies, st)))
         == multiset(Sent(tx.outputs, 0, refs, bodies))
  {
    var floats := Floats(cfg, height, tx, refs, bodies, st);
    var unused := Arrivals(cfg, height, tx, refs, bodies).unused;
    ReleasesAre(tx, floats, unused);
    if IsCoinbase(tx) {
      OfNothing(tx.outputs, unused, floats);
    } else {
      FloatsSay(cfg, height, tx, refs, bodies, st);
    }
  }

  lemma {:induction false} FloatsSay(
    cfg: Config, height: nat, tx: Tx, refs: seq<TxoRef>, bodies: seq<TxoBody>, st: InscState)
    requires |refs| == |bodies| && tx.inputs != [] && !IsCoinbase(tx)
    requires NoDup(AllPassing(st.partials, tx, bodies, st.carried))
    ensures OfFloats(tx.outputs, Arrivals(cfg, height, tx, refs, bodies).unused,
                     Floats(cfg, height, tx, refs, bodies, st))
         == Sent(tx.outputs, 0, refs, bodies)
  {
    var start := Incoming([], map[], 0);
    var outs, unused := tx.outputs, EnterInputs(start, refs, bodies).unused;
    var found := Reveal(st.partials, tx, Arrivals(cfg, height, tx, refs, bodies).floats).found;
    FoundIff(cfg, height, tx, refs, bodies, st);
    EnteringFloats(cfg, height, tx, refs, bodies, st);
    hide Reveal, Completes, NextId, Floats;
    var ids, more := BodyIds(bodies), if found.Some? then [found.value.id] else [];
    assert AllPassing(st.partials, tx, bodies, st.carried) == ids + more;
    NoDupConcat(ids, more);
    InputsSay(start, refs, bodies);
    var extra := if found.Some? then [Flotsam(found.value.id, 0, true)] else [];
    forall f | f in extra ensures f.id !in unused {
      assert more[0] in more;
      InputsKeep(start, refs, bodies, f.id);
    }
    OfNothing(outs, unused, extra);
    OfFloatsConcat(outs, unused, Arrived(0, bodies), extra);
    ArrivedAre(outs, unused, 0, refs, bodies);
  }

  lemma {:induction false} AppliedIsPaid(l: Ledger, rs: seq<Release>)
    ensures ApplyReleases(l, rs) == Paid(l, ReleaseMessages(rs))
    decreases |rs|
  {
    if rs != [] {
      assert ReleaseMessages(rs)[1..] == ReleaseMessages(rs[1..]);
      AppliedIsPaid(Credit(l, Holder(rs[0].receiver, rs[0].ticker), rs[0].amount), rs[1..]);
    }
  }

  /** The message of the inscription that the transaction completes, if it does. */
  function Own(cfg: Config, p: Partials, tx: Tx, bodies: seq<TxoBody>): Option<RawMessage>
    requires tx.inputs != []
  {
    if !Completes(p, tx, bodies) then None
    else
      var whole := InscriptionParser.Parse(StoredScripts(p, StoredChain(p, tx)) + [tx.inputs[0].scriptSig]);
      cfg.message(whole.contentType, whole.body)
  }

  lemma {:induction false} ScriptsAre(
    fs: seq<Flotsam>, script: Script, m: map<InscriptionId, Script>, id: InscriptionId, to: Script)
    requires (id in m ==> m[id] == to) && (id in FloatIds(fs) ==> script == to)
    ensures id in Scripts(fs, script, m) ==> Scripts(fs, script, m)[id] == to
    decreases |fs|
  {
    if fs != [] {
      assert FloatIds(fs) == [fs[0].id] + FloatIds(fs[1..]);
      ScriptsAre(fs[1..], script, m[fs[0].id := script], id, to);
    }
  }

  lemma {:induction false} ReceiversAre(
    perOutput: seq<seq<Flotsam>>, outs: seq<TxOut>, m: map<InscriptionId, Script>, id: InscriptionId, to: Script)
    requires |perOutput| == |outs| && (id in m ==> m[id] == to)
    requires forall v :: 0 <= v < |outs| && id in FloatIds(perOutput[v]) ==> outs[v].script == to
    ensures id in Receivers(perOutput, outs, m) ==> Receivers(perOutput, outs, m)[id] == to
    decreases |outs|
  {
    if outs != [] {
      ScriptsAre(perOutput[0], outs[0].script, m, id, to);
      ReceiversAre(perOutput[1..], outs[1..], Scripts(perOutput[0], outs[0].script, m), id, to);
    }
  }

  function ReceiverIn(receivers: map<InscriptionId, Script>, id: InscriptionId): Option<Script> {
    if id in receivers then Some(receivers[id]) else None
  }

  lemma {:induction false} InFlatten(perOutput: seq<seq<Flotsam>>, id: InscriptionId) returns (v: nat)
    requires id in FloatIds(Flatten(perOutput))
    ensures v < |perOutput| && id in FloatIds(perOutput[v])
    decreases |perOutput|
  {
    assert perOutput != [];
    assert FloatIds(Flatten(perOutput)) == FloatIds(perOutput[0]) + FloatIds(Flatten(perOutput[1..]));
    if id in FloatIds(perOutput[0]) {
      v := 0;
    } else {
      var w := InFlatten(perOutput[1..], id);
      v := w + 1;
    }
  }

  /** Whatever bears the id, placed or left over, floats at the first sat. */
  ghost predicate OnlyFirst(p: Placing, id: InscriptionId) {
    && (forall v, f :: 0 <= v < |p.perOutput| && f in p.perOutput[v] && f.id == id ==> f.offset == 0)
    && (forall f <- p.rest :: f.id == id ==> f.offset == 0)
  }

  lemma {:induction false} PlaceFirst(floats: seq<Flotsam>, outs: seq<TxOut>, id: InscriptionId)
    requires id in FloatIds(floats) && forall f <- floats :: f.id == id ==> f.offset == 0
    ensures var p := Place(SortByOffset(floats), outs, 0);
      OnlyFirst(p, id) && |p.perOutput| == |outs| && id in FloatIds(Flatten(p.perOutput)) + FloatIds(p.rest)
  {
    hide Place, SortByOffset, FloatIds, Flatten;
    var s := SortByOffset(floats);
    var p := Place(s, outs, 0);
    SortLaw(floats);
    PlaceKeepsAll(s, outs, 0);
    PlacedIn(floats, s, p.perOutput, p.rest);
    var f := FloatOf(floats, id);
    IdsOf(Flatten(p.perOutput));
    IdsOf(p.rest);
  }

  lemma IdsOf(fs: seq<Flotsam>)
    ensures forall f <- fs :: f.id in FloatIds(fs)
  {
    forall f | f in fs ensures f.id in FloatIds(fs) {
      var i :| 0 <= i < |fs| && fs[i] == f;
      assert FloatIds(fs)[i] == f.id;
    }
  }

  lemma {:induction false} PlacedIn(
    floats: seq<Flotsam>, s: seq<Flotsam>, perOutput: seq<seq<Flotsam>>, rest: seq<Flotsam>)
    requires multiset(s) == multiset(floats) && s == Flatten(perOutput) + rest
    ensures forall v, f :: 0 <= v < |perOutput| && f in perOutput[v] ==> f in floats
    ensures forall f <- rest :: f in floats
    ensures forall f <- floats :: f in Flatten(perOutput) || f in rest
  {
    hide Flatten;
    forall v, f | 0 <= v < |perOutput| && f in perOutput[v] ensures f in floats {
      FlattenMember(perOutput, v, f);
      assert f in multiset(floats);
    }
    forall f | f in rest ensures f in floats {
      assert f in multiset(floats);
    }
    forall f | f in floats ensures f in Flatten(perOutput) || f in rest {
      assert f in multiset(s);
    }
  }

  lemma FloatOf(fs: seq<Flotsam>, id: InscriptionId) returns (f: Flotsam)
    requires id in FloatIds(fs)
    ensures f in fs && f.id == id
  {
    var i :| 0 <= i < |fs| && FloatIds(fs)[i] == id;
    f := fs[i];
  }

  /** A new inscription goes to the output that holds the first sat. */
  lemma {:induction false} NewGoesFirst(floats: seq<Flotsam>, outs: seq<TxOut>, id: InscriptionId)
    requires id in FloatIds(floats) && forall f <- floats :: f.id == id ==> f.offset == 0
    ensures var p := Place(SortByOffset(floats), outs, 0);
      ReceiverIn(Receivers(p.perOutput, outs, map[]), id) == ScriptAt(outs, 0)
  {
    hide Place, SortByOffset, Receivers, ScriptAt, FloatIds, Flatten;
    var s := SortByOffset(floats);
    var p := Place(s, outs, 0);
    PlaceFirst(floats, outs, id);
    PlaceLies(floats, outs);
    ReceiversIff(p.perOutput, outs, map[], id);
    forall v | 0 <= v < |outs| && id in FloatIds(p.perOutput[v]) ensures Some(outs[v].script) == ScriptAt(outs, 0) {
      var f := FloatOf(p.perOutput[v], id);
    }
    if id in FloatIds(Flatten(p.perOutput)) {
      var v := InFlatten(p.perOutput, id);
      ReceiversAre(p.perOutput, outs, map[], id, outs[v].script);
    } else {
      var f := FloatOf(p.rest, id);
      SortLaw(floats);
      RestOutside(s, outs, 0);
      ScriptOutside(outs, 0);
    }
  }

  lemma {:induction false} FlattenMember(perOutput: seq<seq<Flotsam>>, v: nat, f: Flotsam)
    requires v < |perOutput| && f in perOutput[v]
    ensures f in Flatten(perOutput)
    decreases |perOutput|
  {
    if v > 0 {
      FlattenMember(perOutput[1..], v - 1, f);
    }
  }

  /** What a transaction of distinct ids does to the DRC-20 tables: every transfer it
      brings is credited to the script that its inscription goes to, or back to the
      one it came from; then the message of the completed inscription is processed for
      the script that holds the first sat. The messages recorded are exactly these. */
  lemma {:induction false} TransfersGo(
    cfg: Config, height: nat, tx: Tx, refs: seq<TxoRef>, bodies: seq<TxoBody>, st: InscState)
    requires |refs| == |bodies| && tx.inputs != [] && (IsCoinbase(tx) ==> bodies == []) && NoStoredZero(st.drc)
    requires NoDup(AllPassing(st.partials, tx, bodies, st.carried))
    ensures var r := IndexInscriptions(cfg, height, tx, refs, bodies, st);
      var sent := Sent(tx.outputs, 0, refs, bodies);
      var own, paid, id := Own(cfg, st.partials, tx, bodies), Paid(st.drc, sent), NextId(st.partials, tx);
      var o := if own.Some? then Process(paid, own.value, id, ScriptAt(tx.outputs, 0)) else Rejected(paid);
      && r.state.drc == o.ledger
      && multiset(r.messages) == multiset(sent) + (if o.valid.Some? then multiset{o.valid.value} else multiset{})
      && r.transfers == (if o.locked.Some? then map[id := o.locked.value] else map[])
  {
    var due := Due(cfg, height, tx, refs, bodies, st);
    DueIsSent(cfg, height, tx, refs, bodies, st);
    AppliedIsPaid(st.drc, due);
    PaidOnce(st.drc, ReleaseMessages(due), Sent(tx.outputs, 0, refs, bodies));
    OwnIs(cfg, height, tx, refs, bodies, st);
    IndexIs(cfg, height, tx, refs, bodies, st);
    MessagesAre(cfg, height, tx, refs, bodies, st);
  }

  lemma {:induction false} OwnIs(
    cfg: Config, height: nat, tx: Tx, refs: seq<TxoRef>, bodies: seq<TxoBody>, st: InscState)
    requires |refs| == |bodies| && tx.inputs != [] && (IsCoinbase(tx) ==> bodies == [])
    requires NoDup(AllPassing(st.partials, tx, bodies, st.carried))
    ensures var own, l := Own(cfg, st.partials, tx, bodies), Settled(cfg, height, tx, refs, bodies, st);
      Announced(cfg, height, tx, refs, bodies, st)
      == if own.Some? then Process(l, own.value, NextId(st.partials, tx), ScriptAt(tx.outputs, 0)) else Rejected(l)
    ensures var found := Reveal(st.partials, tx, Arrivals(cfg, height, tx, refs, bodies).floats).found;
      found.Some? ==> found.value.id == NextId(st.partials, tx)
  {
    FoundIff(cfg, height, tx, refs, bodies, st);
    FloatingIds(cfg, height, tx, refs, bodies, st);
    var found := Reveal(st.partials, tx, Arrivals(cfg, height, tx, refs, bodies).floats).found;
    FoundContents(cfg, height, tx, refs, bodies, st);
    if found.Some? {
      NewIsFirst(cfg, height, tx, refs, bodies, st);
      hide Reveal, Completes, Floats, Place, SortByOffset, Process, Receivers, ScriptAt, NextId, Settled, Arrivals;
      NewGoesFirst(Floats(cfg, height, tx, refs, bodies, st), tx.outputs, found.value.id);
    }
  }

  lemma FoundContents(cfg: Config, height: nat, tx: Tx, refs: seq<TxoRef>, bodies: seq<TxoBody>, st: InscState)
    requires |refs| == |bodies| && tx.inputs != [] && (IsCoinbase(tx) ==> bodies == [])
    ensures var found := Reveal(st.partials, tx, Arrivals(cfg, height, tx, refs, bodies).floats).found;
      Own(cfg, st.partials, tx, bodies)
      == if found.Some? then cfg.message(found.value.contentType, found.value.body) else None
  {
    FoundIff(cfg, height, tx, refs, bodies, st);
    hide InscriptionParser.Parse, Arrivals, Arrived;
  }

  /** Only the new inscription has its id, and it floats at the first sat. */
  lemma {:induction false} NewIsFirst(
    cfg: Config, height: nat, tx: Tx, refs: seq<TxoRef>, bodies: seq<TxoBody>, st: InscState)
    requires |refs| == |bodies| && tx.inputs != [] && (IsCoinbase(tx) ==> bodies == [])
    requires NoDup(AllPassing(st.partials, tx, bodies, st.carried)) && Completes(st.partials, tx, bodies)
    ensures var floats, id := Floats(cfg, height, tx, refs, bodies, st), NextId(st.partials, tx);
      id in FloatIds(floats) && forall f <- floats :: f.id == id ==> f.offset == 0
  {
    var floats, id := Floats(cfg, height, tx, refs, bodies, st), NextId(st.partials, tx);
    var inc := Arrivals(cfg, height, tx, refs, bodies);
    FoundIff(cfg, height, tx, refs, bodies, st);
    FloatingIds(cfg, height, tx, refs, bodies, st);
    hide Reveal, Completes, NextId, Arrivals;
    var before, after := BodyIds(bodies), if IsCoinbase(tx) then FloatIds(st.carried) else [];
    assert AllPassing(st.partials, tx, bodies, st.carried) == before + [id] + after;
    assert FloatIds(floats) == before + [id] + after;
    var k := |before|;
    assert FloatIds(floats)[k] == id;
    assert |inc.floats| + 1 + |after| == |floats|;
    assert |FloatIds(floats)| == |before| + 1 + |after|;
    assert floats[k] == Flotsam(id, 0, true);
    forall f | f in floats && f.id == id ensures f.offset == 0 {
      var j :| 0 <= j < |floats| && floats[j] == f;
      assert FloatIds(floats)[j] == FloatIds(floats)[k];
    }
  }

  lemma MessagesAre(cfg: Config, height: nat, tx: Tx, refs: seq<TxoRef>, bodies: seq<TxoBody>, st: InscState)
    requires |refs| == |bodies| && tx.inputs != []
    ensures var o := Announced(cfg, height, tx, refs, bodies, st);
      IndexInscriptions(cfg, height, tx, refs, bodies, st).messages
      == ReleaseMessages(Due(cfg, height, tx, refs, bodies, st)) + if o.valid.Some? then [o.valid.value] else []
  {
    hide Reveal, Releases, Process, NextCounters, SortByOffset, Arrivals, Place, Locals, Floating;
  }

  // ----- each holder -----

  lemma {:induction false} SentFromWithin(
    outs: seq<TxOut>, total: nat, source: TxoRef, body: TxoBody, ps: seq<Placed>, h: Holder)
    ensures SumBy(SentFrom(outs, total, source, body, ps), To(h)) <= SumBy(ps, LockFn(body.transfers, h.ticker))
  {
    hide Destination;
    if ps != [] {
      SentFromWithin(outs, total, source, body, ps[1..], h);
      var head := if ps[0].id in body.transfers
                  then [Transferred(body.transfers[ps[0].id].ticker, body.transfers[ps[0].id].amount, source,
                                    Destination(outs, total + ps[0].offset, body.txout.script))] else [];
      SumByConcat(head, SentFrom(outs, total, source, body, ps[1..]), To(h));
      assert head != [] ==> head[1..] == [];
    }
  }

  lemma {:induction false} SentWithin(
    outs: seq<TxOut>, total: nat, refs: seq<TxoRef>, bodies: seq<TxoBody>, h: Holder)
    requires |refs| == |bodies|
    ensures SumBy(Sent(outs, total, refs, bodies), To(h)) <= LockedInAll(bodies, h.ticker)
    decreases |bodies|
  {
    if bodies != [] {
      SentFromWithin(outs, total, refs[0], bodies[0], bodies[0].inscriptions, h);
      SentWithin(outs, total + bodies[0].txout.value, refs[1..], bodies[1..], h);
      SumByConcat(SentFrom(outs, total, refs[0], bodies[0], bodies[0].inscriptions),
                  Sent(outs, total + bodies[0].txout.value, refs[1..], bodies[1..]), To(h));
    }
  }

  /** Of a backed ticker each holder's balance grows by exactly what is sent to it. */
  lemma {:induction false} HolderGains(
    l: Ledger, outs: seq<TxOut>, refs: seq<TxoRef>, bodies: seq<TxoBody>, h: Holder, locked: int)
    requires |refs| == |bodies| && NoStoredZero(l)
    requires Backed(l, h.ticker, locked) && LockedInAll(bodies, h.ticker) <= locked
    ensures var sent := Sent(outs, 0, refs, bodies); Balance(Paid(l, sent), h) == Balance(l, h) + SumBy(sent, To(h))
  {
    var sent := Sent(outs, 0, refs, bodies);
    PaidIs(l, sent, h);
    SentWithin(outs, 0, refs, bodies, h);
    hide Paid, Sent, Available;
    BalanceWithinAvailable(l, h);
  }
}
