/** Known limits of the chain database. Each has a concrete input at which a law
    fails and the exact condition under which it does not: an inscription revealed
    twice, a claim recorded without minting, claims that share a recorded position,
    and 128-bit sums that wrap. */
module KnownLimits {
  import opened Prelude
  import opened ChainTypes
  import opened DuneLedger
  import opened DuneLaws
  import opened DuneSums
  import opened Placement
  import opened Inscriptions
  import opened InscriptionLaws
  import opened Utxos
  import opened BlockApply
  import opened LiveInscriptions
  import opened Conservation
  import opened DuneBooks
  import InscriptionParser

  // ----- an id revealed while it is live -----

  lemma {:induction false} DisjointFlatten(perOutput: seq<seq<Flotsam>>)
    requires forall v :: 0 <= v < |perOutput| ==> NoDup(FloatIds(perOutput[v]))
    requires forall v, w, id | 0 <= v < |perOutput| && 0 <= w < |perOutput| ::
               id in FloatIds(perOutput[v]) && id in FloatIds(perOutput[w]) ==> v == w
    ensures NoDup(FloatIds(Flatten(perOutput)))
    ensures forall id <- FloatIds(Flatten(perOutput)) ::
              exists v :: 0 <= v < |perOutput| && id in FloatIds(perOutput[v])
    decreases |perOutput|
  {
    if perOutput != [] {
      var rest := perOutput[1..];
      assert forall v :: 0 <= v < |rest| ==> rest[v] == perOutput[v + 1];
      DisjointFlatten(rest);
      var a, b := FloatIds(perOutput[0]), FloatIds(Flatten(rest));
      assert FloatIds(Flatten(perOutput)) == a + b;
      forall id | id in b ensures id !in a && exists v :: 0 <= v < |perOutput| && id in FloatIds(perOutput[v]) {
        var v :| 0 <= v < |rest| && id in FloatIds(rest[v]);
        assert id in FloatIds(perOutput[v + 1]);
      }
      NoDupConcat(a, b);
    }
  }

  /** The table `next` is exactly `u` less the spent outputs plus the new ones. */
  ghost predicate MovesAll(u: Table, next: Table, tx: Tx, refs: seq<TxoRef>, outs: seq<TxoBody>) {
    && Moves(u, next, tx, refs, outs)
    && (forall r | Creates(tx, r) :: r in next && r !in u)
    && (forall r <- u :: r !in refs ==> r in next)
  }

  /** If everything is in one place afterwards, what floated through the
      transaction was distinct and is nowhere else. */
  lemma {:induction false} FloatedOnce(
    u: Table, next: Table, tx: Tx, refs: seq<TxoRef>, outs: seq<TxoBody>, p: Placing, keep: seq<Flotsam>,
    carried: seq<Flotsam>)
    requires MovesAll(u, next, tx, refs, outs) && |p.perOutput| == |tx.outputs|
    requires forall v :: 0 <= v < |outs| ==> Ids(outs[v].inscriptions) == FloatIds(p.perOutput[v])
    requires FloatIds(carried) == FloatIds(keep) + FloatIds(p.rest)
    requires Unique(next) && Apart(next, carried)
    ensures NoDup(FloatIds(Flatten(p.perOutput)) + FloatIds(p.rest))
    ensures forall id <- FloatIds(Flatten(p.perOutput)) + FloatIds(p.rest) ::
      id !in FloatIds(keep) && forall r :: Has(u, r, id) ==> r in refs
  {
    HoldsEach(next, tx, refs, u, outs, p);
    DisjointFlatten(p.perOutput);
    NoDupConcat(FloatIds(keep), FloatIds(p.rest));
    var all := FloatIds(Flatten(p.perOutput));
    forall id | id in all ensures id !in FloatIds(carried) && forall r :: Has(u, r, id) ==> r in refs {
      var v :| 0 <= v < |p.perOutput| && id in FloatIds(p.perOutput[v]);
      var at := TxoRef(tx.txid, v);
      assert Has(next, at, id);
      forall r | Has(u, r, id) ensures r in refs {
        assert r in next && !Creates(tx, r) ==> Has(next, r, id);
      }
    }
    NoDupConcat(all, FloatIds(p.rest));
    forall id | id in FloatIds(p.rest) ensures forall r :: Has(u, r, id) ==> r in refs {
      forall r | Has(u, r, id) ensures r in refs {
        assert r in next && !Creates(tx, r) ==> Has(next, r, id);
      }
    }
  }

  lemma HoldsEach(next: Table, tx: Tx, refs: seq<TxoRef>, u: Table, outs: seq<TxoBody>, p: Placing)
    requires MovesAll(u, next, tx, refs, outs) && |p.perOutput| == |tx.outputs| && Unique(next)
    requires forall v :: 0 <= v < |outs| ==> Ids(outs[v].inscriptions) == FloatIds(p.perOutput[v])
    ensures forall v :: 0 <= v < |p.perOutput| ==>
      TxoRef(tx.txid, v) in next && Ids(next[TxoRef(tx.txid, v)].inscriptions) == FloatIds(p.perOutput[v])
    ensures forall v :: 0 <= v < |p.perOutput| ==> NoDup(FloatIds(p.perOutput[v]))
    ensures forall v, w, id | 0 <= v < |p.perOutput| && 0 <= w < |p.perOutput| ::
      id in FloatIds(p.perOutput[v]) && id in FloatIds(p.perOutput[w]) ==> v == w
  {
    forall v | 0 <= v < |p.perOutput|
      ensures TxoRef(tx.txid, v) in next && Ids(next[TxoRef(tx.txid, v)].inscriptions) == FloatIds(p.perOutput[v])
    {
      assert Creates(tx, TxoRef(tx.txid, v));
    }
    forall v, w, id | 0 <= v < |p.perOutput| && 0 <= w < |p.perOutput|
                      && id in FloatIds(p.perOutput[v]) && id in FloatIds(p.perOutput[w])
      ensures v == w
    {
      assert Has(next, TxoRef(tx.txid, v), id) && Has(next, TxoRef(tx.txid, w), id);
    }
  }

  /** A transaction keeps every live inscription in one place if and only if it
      does not complete one whose id is live: an inscription arrives on its first
      sat, or the stored scripts with its own are not complete, or the id of the
      chain's first transaction is not live. */
  lemma {:induction false} RevealIff(
    cfg: Config, height: nat, tx: Tx, refs: seq<TxoRef>, bodies: seq<TxoBody>, st: InscState, u: Table, next: Table,
    dunes: seq<Balances>)
    requires tx.inputs != [] && Bring(u, refs, bodies) && !IsCoinbase(tx)
    requires Unique(u) && Apart(u, st.carried) && |dunes| == |tx.outputs|
    requires var r := IndexInscriptions(cfg, height, tx, refs, bodies, st);
      MovesAll(u, next, tx, refs, Bodies(height, tx.outputs, dunes, r.outputs, r.transfers))
    ensures var r := IndexInscriptions(cfg, height, tx, refs, bodies, st);
      Unique(next) && Apart(next, r.state.carried) <==> !Revives(u, st.carried, st.partials, tx, bodies)
  {
    hide IndexInscriptions, Floats, Placing0, Reveal, Arrivals, Revives;
    var r := IndexInscriptions(cfg, height, tx, refs, bodies, st);
    if !Revives(u, st.carried, st.partials, tx, bodies) {
      IndexKeepsUnique(cfg, height, tx, refs, bodies, st, u, next, dunes);
    }
    if Unique(next) && Apart(next, r.state.carried) {
      OnceMeansNew(cfg, height, tx, refs, bodies, st, u, next, dunes);
    }
  }

  lemma {:induction false} OnceMeansNew(
    cfg: Config, height: nat, tx: Tx, refs: seq<TxoRef>, bodies: seq<TxoBody>, st: InscState, u: Table, next: Table,
    dunes: seq<Balances>)
    requires tx.inputs != [] && Bring(u, refs, bodies) && !IsCoinbase(tx) && |dunes| == |tx.outputs|
    requires var r := IndexInscriptions(cfg, height, tx, refs, bodies, st);
      && MovesAll(u, next, tx, refs, Bodies(height, tx.outputs, dunes, r.outputs, r.transfers))
      && Unique(next) && Apart(next, r.state.carried)
    ensures !Revives(u, st.carried, st.partials, tx, bodies)
  {
    FoundIff(cfg, height, tx, refs, bodies, st);
    hide Completes, NextId;
    hide IndexInscriptions, Floats, Placing0, Reveal, Arrivals, Unique, Apart, NoDup;
    var r := IndexInscriptions(cfg, height, tx, refs, bodies, st);
    var p := Placing0(cfg, height, tx, refs, bodies, st);
    var outs := Bodies(height, tx.outputs, dunes, r.outputs, r.transfers);
    IndexPlaces(cfg, height, tx, refs, bodies, st);
    forall v | 0 <= v < |outs| ensures Ids(outs[v].inscriptions) == FloatIds(p.perOutput[v]) {
      OutputIds(height, tx, dunes, p, r.transfers, v);
    }
    hide Bodies;
    FloatedOnce(u, next, tx, refs, outs, p, st.carried, r.state.carried);
    FloatsAreAll(cfg, height, tx, refs, bodies, st);
    FloatingIds(cfg, height, tx, refs, bodies, st);
    if r.found.Some? {
      NewAmongFloats(u, refs, bodies, r.found.value.id, FloatIds(Floats(cfg, height, tx, refs, bodies, st)),
                     FloatIds(Flatten(p.perOutput)) + FloatIds(p.rest), FloatIds(st.carried));
    }
  }

  /** What is placed or left over is what floated. */
  lemma FloatsAreAll(cfg: Config, height: nat, tx: Tx, refs: seq<TxoRef>, bodies: seq<TxoBody>, st: InscState)
    requires |refs| == |bodies| && tx.inputs != []
    ensures var p := Placing0(cfg, height, tx, refs, bodies, st);
      multiset(FloatIds(Flatten(p.perOutput)) + FloatIds(p.rest))
      == multiset(FloatIds(Floats(cfg, height, tx, refs, bodies, st)))
  {
    hide Floats;
    var floats := Floats(cfg, height, tx, refs, bodies, st);
    var p := Placing0(cfg, height, tx, refs, bodies, st);
    SortLaw(floats);
    PlaceKeepsAll(SortByOffset(floats), tx.outputs, 0);
    IdsPermute(SortByOffset(floats), floats);
    hide Place, SortByOffset;
    assert FloatIds(Flatten(p.perOutput) + p.rest) == FloatIds(Flatten(p.perOutput)) + FloatIds(p.rest);
  }

  lemma NewAmongFloats(u: Table, refs: seq<TxoRef>, bodies: seq<TxoBody>, id: InscriptionId,
                       floats: seq<InscriptionId>, all: seq<InscriptionId>, carried: seq<InscriptionId>)
    requires Bring(u, refs, bodies) && multiset(all) == multiset(floats) && NoDup(all)
    requires floats == BodyIds(bodies) + [id] + []
    requires forall x <- all :: x !in carried && forall r :: Has(u, r, x) ==> r in refs
    ensures id !in carried && forall r :: !Has(u, r, id)
  {
    NoDupPermutation(all, floats);
    assert floats == BodyIds(bodies) + [id];
    NoDupConcat(BodyIds(bodies), [id]);
    assert id in [id] && id in floats;
    assert id in multiset(floats);
    assert id in all;
    forall r ensures !Has(u, r, id) {
      if Has(u, r, id) {
        var i :| 0 <= i < |refs| && refs[i] == r;
        BodyHas(bodies, i, id);
      }
    }
  }

  lemma {:induction false} BodyHas(bodies: seq<TxoBody>, i: nat, id: InscriptionId)
    requires i < |bodies| && id in Ids(bodies[i].inscriptions)
    ensures id in BodyIds(bodies)
    decreases |bodies|
  {
    if i > 0 {
      BodyHas(bodies[1..], i - 1, id);
    }
  }

  // ----- the same chain completed twice -----

  /** Two pieces are announced and one is given, then the other. */
  const FIRST_PIECE: Bytes := [3, 111, 114, 100, 82, 1, 116, 81, 1, 97]

  function LastPiece(x: byte): Bytes {
    [0, 1, x]
  }

  /** Transaction 1 gives the first piece; it has two outputs. */
  const BEGUN := Tx(1, [TxIn(TxoRef(5, 0), FIRST_PIECE)], [TxOut(10, 0, false), TxOut(10, 0, false)], None)
  const BEGUN_PARTIALS := Partials(map[1 := [1]], map[1 := BEGUN])

  /** A transaction that spends one of them and gives the last piece. */
  function Finish(txid: Txid, vout: nat, x: byte): Tx {
    Tx(txid, [TxIn(TxoRef(1, vout), LastPiece(x))], [TxOut(10, 0, false)], None)
  }

  const PLAIN_BODY := TxoBody(1, TxOut(10, 0, false), map[], [], map[])

  lemma OnePush(script: Bytes, data: Bytes, rest: Bytes, pushes: seq<Bytes>)
    requires script != [] && pushes != []
    requires var p := InscriptionParser.FirstPush(script); p.Some? && p.value.0 == data && p.value.1 == rest
    requires data == pushes[0] && InscriptionParser.Pushes(rest) == Some(pushes[1..])
    ensures InscriptionParser.Pushes(script) == Some(pushes)
  {
    assert pushes == [data] + pushes[1..];
  }

  lemma TailPushes()
    ensures InscriptionParser.Pushes([1, 116, 81, 1, 97]) == Some([[116], [1], [97]])
  {
    hide InscriptionParser.Pushes;
    EmptyPushes();
    var p: seq<Bytes> := [[116], [1], [97]];
    assert p[2..][1..] == [] && p[1..][1..] == p[2..];
    OnePush([1, 97], [97], [], p[2..]);
    OnePush([81, 1, 97], [1], [1, 97], p[1..]);
    OnePush([1, 116, 81, 1, 97], [116], [81, 1, 97], p);
  }

  lemma FirstPushes()
    ensures InscriptionParser.Pushes(FIRST_PIECE) == Some([[111, 114, 100], [2], [116], [1], [97]])
  {
    hide InscriptionParser.Pushes;
    TailPushes();
    var p: seq<Bytes> := [[111, 114, 100], [2], [116], [1], [97]];
    assert p[2..] == [[116], [1], [97]] && p[1..][1..] == p[2..];
    OnePush([82, 1, 116, 81, 1, 97], [2], [1, 116, 81, 1, 97], p[1..]);
    OnePush(FIRST_PIECE, [111, 114, 100], [82, 1, 116, 81, 1, 97], p);
  }

  lemma LastPushes(x: byte)
    ensures InscriptionParser.Pushes(LastPiece(x)) == Some([[], [x]])
  {
    hide InscriptionParser.Pushes;
    EmptyPushes();
    var q: seq<Bytes> := [[], [x]];
    assert q[1..][1..] == [];
    OnePush([1, x], [x], [], q[1..]);
    OnePush(LastPiece(x), [], [1, x], q);
  }

  lemma EmptyPushes()
    ensures InscriptionParser.Pushes([]) == Some([])
  {
  }

  lemma FeedTwo(a: Bytes, b: Bytes)
    ensures InscriptionParser.Parse([a, b])
      == InscriptionParser.Verdict(InscriptionParser.Feed(InscriptionParser.Open(a), b))
  {
    InscriptionParser.ReparseIsResume([a], b);
    assert [a] + [b] == [a, b];
  }

  lemma PiecesParse(x: byte)
    ensures InscriptionParser.Parse([FIRST_PIECE]) == InscriptionParser.Partial
    ensures InscriptionParser.Parse([FIRST_PIECE, LastPiece(x)]) == InscriptionParser.Complete([116], [97, x])
  {
    FirstPushes();
    LastPushes(x);
    FeedTwo(FIRST_PIECE, LastPiece(x));
    hide InscriptionParser.Pushes;
    var p := [[111, 114, 100], [2], [116], [1], [97]];
    assert p[3..] == [[1], [97]] && [[1], [97]][2..] == [] && [[], [x]][2..] == [];
    assert InscriptionParser.LittleEndian([1]) == 1 && InscriptionParser.LittleEndian([2]) == 2;
    assert InscriptionParser.Run([[1], [97]], 2) == 1;
    assert InscriptionParser.Data([[1], [97]], 1) == [97];
    assert InscriptionParser.Open(FIRST_PIECE) == InscriptionParser.Going([116], 1, [97]);
    assert InscriptionParser.Run([[], [x]], 1) == 1;
    assert InscriptionParser.Data([[], [x]], 1) == [x];
    assert InscriptionParser.Feed(InscriptionParser.Going([116], 1, [97]), LastPiece(x))
        == InscriptionParser.Going([116], 0, [97, x]);
  }

  /** Giving the last piece completes the inscription, and leaves the chain stored. */
  lemma FinishReveals(cfg: Config, height: nat, st: InscState, txid: Txid, vout: nat, x: byte)
    requires st.partials == BEGUN_PARTIALS
    ensures var tx := Finish(txid, vout, x);
      var r := IndexInscriptions(cfg, height, tx, [TxoRef(1, vout)], [PLAIN_BODY], st);
      && Completes(st.partials, tx, [PLAIN_BODY]) && NextId(st.partials, tx) == InscriptionId(1, 0)
      && r.outputs == [[Placed(0, InscriptionId(1, 0))]] && r.state.partials == st.partials
      && Placing0(cfg, height, tx, [TxoRef(1, vout)], [PLAIN_BODY], st)
         == Placing([[Flotsam(InscriptionId(1, 0), 0, true)]], [])
  {
    var tx := Finish(txid, vout, x);
    FinishFloats(cfg, height, st, txid, vout, x);
    IndexPlaces(cfg, height, tx, [TxoRef(1, vout)], [PLAIN_BODY], st);
    var f := Flotsam(InscriptionId(1, 0), 0, true);
    assert SortByOffset([f]) == [f];
    hide IndexInscriptions, Reveal, Completes, Arrivals, Floats;
    assert Below([f], 10) == 1;
    assert [f][..1] == [f] && [f][1..] == [] && tx.outputs[1..] == [];
    assert Place([], [], 10) == Placing([], []);
    assert Place([f], tx.outputs, 0) == Placing([[f]], []);
    assert Local([f], 0) == [Placed(0, InscriptionId(1, 0))];
  }

  lemma FinishFloats(cfg: Config, height: nat, st: InscState, txid: Txid, vout: nat, x: byte)
    requires st.partials == BEGUN_PARTIALS
    ensures var tx := Finish(txid, vout, x);
      && Completes(st.partials, tx, [PLAIN_BODY]) && NextId(st.partials, tx) == InscriptionId(1, 0)
      && Floats(cfg, height, tx, [TxoRef(1, vout)], [PLAIN_BODY], st) == [Flotsam(InscriptionId(1, 0), 0, true)]
      && IndexInscriptions(cfg, height, tx, [TxoRef(1, vout)], [PLAIN_BODY], st).state.partials == st.partials
  {
    var tx := Finish(txid, vout, x);
    PiecesParse(x);
    hide InscriptionParser.Parse;
    assert StoredScripts(st.partials, [1]) + [LastPiece(x)] == [FIRST_PIECE, LastPiece(x)];
    assert Arrived(0, [PLAIN_BODY]) == [];
    InputsArrive(Incoming([], map[], 0), [TxoRef(1, vout)], [PLAIN_BODY]);
    hide Releases, Announce, NextCounters, Place, SortByOffset, EnterInputs;
  }

  lemma BegunIs()
    ensures Reveal(Partials(map[], map[]), BEGUN, []).partials == BEGUN_PARTIALS
  {
    PiecesParse(0);
    hide InscriptionParser.Parse;
    assert StoredScripts(Partials(map[], map[]), []) + [FIRST_PIECE] == [FIRST_PIECE];
    assert StoredChain(Partials(map[], map[]), BEGUN) == [] && [] + [BEGUN.txid] == [1];
  }

  /** The chain is begun once, and two transactions that spend different outputs of
      its transaction both complete it, with the same id and contents of their own. */
  lemma RevealedTwice(cfg: Config, height: nat, st: InscState)
    requires st.partials == BEGUN_PARTIALS
    ensures Reveal(Partials(map[], map[]), BEGUN, []).partials == BEGUN_PARTIALS
    ensures var r := IndexInscriptions(cfg, height, Finish(2, 0, 98), [TxoRef(1, 0)], [PLAIN_BODY], st);
      var q := IndexInscriptions(cfg, height, Finish(3, 1, 99), [TxoRef(1, 1)], [PLAIN_BODY], r.state);
      r.outputs == q.outputs == [[Placed(0, InscriptionId(1, 0))]]
  {
    hide InscriptionParser.Parse, IndexInscriptions, Reveal, Completes;
    BegunIs();
    FinishReveals(cfg, height, st, 2, 0, 98);
    var first := IndexInscriptions(cfg, height, Finish(2, 0, 98), [TxoRef(1, 0)], [PLAIN_BODY], st);
    FinishReveals(cfg, height, first.state, 3, 1, 99);
  }

  // ----- a claim recorded without minting -----

  /** One dune, etched in block 1 at index 1 with limit 5, minted once already. */
  const ONE_DUNE := DuneTables(
    map[7 := DuneId(1, 1)], map[DuneId(1, 1) := DuneTerms(7, Some(5), None, None, None)], map[DuneId(1, 1) := 1], 0)

  /** The claim of the dune, for the output numbered `output`. */
  function ClaimFor(output: nat): Dunestone {
    Dunestone([Edict(CLAIM_BIT + 65537, 0, output)], None, None, false)
  }

  /** A transaction whose only output carries the Dunestone; its edict names the
      number one past it, which is admitted and hands out nothing. */
  const UNPAID_CLAIM := Tx(9, [TxIn(TxoRef(5, 0), [])], [TxOut(0, 0, true)], Some(ClaimFor(1)))

  lemma OneDuneValid()
    ensures DuneInv(ONE_DUNE) && DuneId(2, 1) !in ONE_DUNE.terms
  {
  }

  /** The claim is recorded but mints nothing, so undoing the transaction does not
      give back the tables it found. */
  lemma UnpaidClaimNotUndone()
    ensures var r := IndexDunes(ONE_DUNE, UNPAID_CLAIM, 1, 2, 0, map[]);
      UndoDunes(r.tables, UNPAID_CLAIM, 1, 2, r.recorded) != Some(ONE_DUNE)
  {
    OneDuneValid();
    ClaimRecorded();
    hide IndexDunes, UndoDunes, ClaimsPay, OwnSlots;
    UndoIff(ONE_DUNE, UNPAID_CLAIM, 1, 2, 0, map[]);
  }

  lemma ClaimIs(output: nat)
    ensures Claim(CLAIM_BIT + 65537) == Some(65537) && Unpack(65537) == Some(DuneId(1, 1))
    ensures Claims(ClaimFor(output).edicts) == [65537] && Accepted(ONE_DUNE, 2, 65537) == Some(5)
  {
    PackIff(65537, DuneId(1, 1));
    assert ClaimFor(output).edicts[1..] == [];
  }

  lemma ClaimRecorded()
    ensures !ClaimsPay(ONE_DUNE, ClaimFor(1), 1, 2)
  {
    ClaimIs(1);
    assert 65537 in Claims(ClaimFor(1).edicts);
  }

  // ----- claims that share a slot -----

  /** Claims of the ids `c`, `c + 1`, and so on, all for the first output. */
  function ClaimRun(c: nat, n: nat): (r: seq<Edict>)
    ensures |r| == n
    decreases n
  {
    if n == 0 then [] else [Edict(CLAIM_BIT + c, 0, 0)] + ClaimRun(c + 1, n - 1)
  }

  lemma {:induction false} ClaimRunIs(c: nat, n: nat)
    requires c + n <= CLAIM_BIT
    ensures forall i :: 0 <= i < n ==> ClaimRun(c, n)[i] == Edict(CLAIM_BIT + (c + i), 0, 0)
    ensures |Claims(ClaimRun(c, n))| == n && forall i :: 0 <= i < n ==> Claims(ClaimRun(c, n))[i] == c + i
    decreases n
  {
    if n > 0 {
      ClaimRunIs(c + 1, n - 1);
      var rest := ClaimRun(c + 1, n - 1);
      assert ClaimRun(c, n)[1..] == rest;
      assert Claim(CLAIM_BIT + c) == Some(c);
      assert Claims(ClaimRun(c, n)) == [c] + Claims(rest);
    }
  }

  /** One dune, etched in block 2 at index 1, that anyone may mint. */
  const LATE_DUNE := DuneTables(
    map[7 := DuneId(2, 1)], map[DuneId(2, 1) := DuneTerms(7, Some(5), None, None, None)], map[], 0)

  /** Claims of every packed id from that of block 1, index 1, to that of block 2,
      index 1; there are 65537, and only the last is of an etched dune. */
  const CROWDED := Dunestone(ClaimRun(65537, 65537), None, None, false)

  const CROWDED_TX := Tx(9, [TxIn(TxoRef(5, 0), [])], [TxOut(10, 0, false), TxOut(0, 0, true)], Some(CROWDED))

  lemma CrowdedClaims()
    ensures |CROWDED.edicts| == |Claims(CROWDED.edicts)| == 65537
    ensures forall i :: 0 <= i < 65537 ==>
      Claims(CROWDED.edicts)[i] == 65537 + i && CROWDED.edicts[i] == Edict(CLAIM_BIT + (65537 + i), 0, 0)
  {
    ClaimRunIs(65537, 65537);
  }

  lemma CrowdedAccepts(c: nat)
    ensures Accepted(LATE_DUNE, 3, c) == if c == 131073 then Some(5) else None
    ensures Unpack(65537) == Some(DuneId(1, 1))
  {
    PackIff(c, DuneId(2, 1));
    PackIff(65537, DuneId(1, 1));
  }

  /** Every accepted claim is paid, but the first and the last share a slot. */
  lemma CrowdedSlots()
    ensures ClaimsPay(LATE_DUNE, CROWDED, 2, 3) && !OwnSlots(LATE_DUNE, Claims(CROWDED.edicts), 3)
  {
    CrowdedClaims();
    hide Claims, Accepted, Unpack, ClaimsPay, OwnSlots, Slot;
    RunPays(CROWDED);
    RunShares(Claims(CROWDED.edicts));
  }

  lemma RunPays(stone: Dunestone)
    requires |stone.edicts| == |Claims(stone.edicts)| == 65537
    requires forall i :: 0 <= i < 65537 ==> stone.edicts[i] == Edict(CLAIM_BIT + (65537 + i), 0, 0)
    ensures ClaimsPay(LATE_DUNE, stone, 2, 3)
  {
    hide Claims, Accepted, Unpack;
    forall c | c in Claims(stone.edicts) && Accepted(LATE_DUNE, 3, c).Some?
      ensures Accepted(LATE_DUNE, 3, c).value > 0 && Serves(stone.edicts, 2, c)
    {
      CrowdedAccepts(c);
      assert stone.edicts[65536].output < 2 && Claim(stone.edicts[65536].id) == Some(c);
    }
  }

  lemma RunShares(claims: seq<nat>)
    requires |claims| == 65537 && claims[0] == 65537 && claims[65536] == 131073
    ensures !OwnSlots(LATE_DUNE, claims, 3)
  {
    hide Accepted, Unpack;
    CrowdedAccepts(claims[0]);
    CrowdedAccepts(claims[65536]);
    assert Slot(65536) == Slot(0);
  }

  /** Undo takes the first claim, of a dune that nobody etched, for the recorded one
      and panics, although every accepted claim was paid. */
  lemma CrowdedNotUndone()
    ensures ClaimsPay(LATE_DUNE, CROWDED, |CROWDED_TX.outputs|, 3)
    ensures var r := IndexDunes(LATE_DUNE, CROWDED_TX, 1, 3, 0, map[]);
      UndoDunes(r.tables, CROWDED_TX, 1, 3, r.recorded) == None
  {
    CrowdedSlots();
    CrowdedMints();
    hide ClaimsPay, OwnSlots, Claims, UndoClaims, Recorded, EndPools, StartPools, TablesAfter;
  }

  /** The panic: the mint count of the first claim is zero. */
  lemma CrowdedMints()
    ensures var start := StartPools(LATE_DUNE, CROWDED_TX, CROWDED, 1, 3, 0, map[]);
      var end := EndPools(LATE_DUNE, CROWDED_TX, CROWDED, 1, 3, 0, map[]);
      var claims := Claims(CROWDED.edicts);
      UndoClaims(TablesAfter(LATE_DUNE, CROWDED, 1, 3, 0, start, end).mints, claims, 0,
                 Recorded(LATE_DUNE, 3, claims, 0)) == None
  {
    var claims := Claims(CROWDED.edicts);
    CrowdedClaims();
    ClaimsIncreasing(CROWDED.edicts);
    hide Claims, Accepted, Recorded, EndPools, UndoClaims, CountMints;
    CrowdedAccepts(65537);
    var start := StartPools(LATE_DUNE, CROWDED_TX, CROWDED, 1, 3, 0, map[]);
    var end := EndPools(LATE_DUNE, CROWDED_TX, CROWDED, 1, 3, 0, map[]);
    assert 65537 !in start.mintable;
    FirstPanics(claims, start.mintable, end.mintable);
  }

  lemma FirstPanics(claims: seq<nat>, limits: Balances, left: Balances)
    requires Increasing(claims) && |claims| == 65537 && claims[0] == 65537 && claims[65536] == 131073
    requires 65537 !in limits
    ensures UndoClaims(CountMints(LATE_DUNE.mints, limits, left, claims), claims, 0, Recorded(LATE_DUNE, 3, claims, 0))
         == None
  {
    hide Accepted, Unpack, Recorded, UndoClaims, CountMints;
    CrowdedAccepts(claims[65536]);
    PackIff(65537, DuneId(1, 1));
    assert Slot(65536) == Slot(0);
    assert AcceptedIn(LATE_DUNE, 3, claims, 0, Slot(0));
    RecordedIff(LATE_DUNE, 3, claims, 0, Slot(0));
    assert ClaimAt(claims, Recorded(LATE_DUNE, 3, claims, 0), 0, DuneId(1, 1));
    CountMintsLaw(LATE_DUNE.mints, limits, left, claims);
    UndoClaimsAt(CountMints(LATE_DUNE.mints, limits, left, claims), claims, 0, Recorded(LATE_DUNE, 3, claims, 0));
  }

  // ----- sums that wrap -----

  function Holding(amount: u128): TxoBody {
    TxoBody(1, TxOut(10, 0, false), map[65537 := amount], [], map[])
  }

  const JOIN := Tx(9, [TxIn(TxoRef(5, 0), []), TxIn(TxoRef(6, 0), [])], [TxOut(10, 0, false)], None)

  /** Two inputs hold 2^128 of a dune together; the output that gets it all is left
      with none. */
  lemma JoinWraps()
    ensures var un := Unallocated(map[], [Holding(MAX_U128), Holding(1)]);
      Get(IndexDunes(ONE_DUNE, JOIN, 1, 2, 0, un).outputs[0], 65537) == 0
  {
    var bodies := [Holding(MAX_U128), Holding(1)];
    UnallocatedIs(map[], bodies, 65537, 0);
    assert bodies[1..] == [Holding(1)] && [Holding(1)][1..] == [];
    assert SumBy([Holding(1)], DuneW(65537)) == 1;
    assert SumBy(bodies, DuneW(65537)) == U128;
    assert DefaultOutput(JOIN) == Some(0);
  }

  /** A transaction that holds 2^128 - 1 of a dune, mints 5 more for output `v` and
      leaves the rest to output 0. */
  function MintFor(v: nat): Tx {
    Tx(9, [TxIn(TxoRef(5, 0), [])], [TxOut(10, 0, false), TxOut(10, 0, false), TxOut(0, 0, true)], Some(ClaimFor(v)))
  }

  lemma MintPools(v: nat)
    requires v < 2
    ensures var end := EndPools(ONE_DUNE, MintFor(v), ClaimFor(v), 1, 2, 0, map[65537 := MAX_U128]);
      && end.unallocated == map[65537 := MAX_U128] && end.mintable == map[65537 := 0]
      && Get(end.given[v], 65537) == 5 && forall w :: 0 <= w < 3 && w != v ==> end.given[w] == map[]
  {
    MintStarts(v);
    var p := StartPools(ONE_DUNE, MintFor(v), ClaimFor(v), 1, 2, 0, map[65537 := MAX_U128]);
    hide StartPools;
    var e := Edict(CLAIM_BIT + 65537, 0, v);
    ClaimIs(v);
    hide Claim, Claims, Accepted;
    assert ClaimFor(v).edicts[1..] == [];
    assert EdictSteps(p, ClaimFor(v).edicts, NewId(2, 1)) == EdictStep(p, e, NewId(2, 1));
  }

  lemma MintStarts(v: nat)
    requires v < 2
    ensures StartPools(ONE_DUNE, MintFor(v), ClaimFor(v), 1, 2, 0, map[65537 := MAX_U128])
         == Pools(None, map[65537 := 5], map[65537 := MAX_U128], [map[], map[], map[]])
  {
    ClaimIs(v);
    hide Claims, Accepted;
  }

  lemma MintGives(v: nat)
    requires v < 2
    ensures var r := IndexDunes(ONE_DUNE, MintFor(v), 1, 2, 0, map[65537 := MAX_U128]);
      && Get(r.outputs[0], 65537) == (if v == 0 then 4 else MAX_U128)
      && Get(r.outputs[1], 65537) == (if v == 1 then 5 else 0)
      && Get(r.outputs[2], 65537) == 0
      && r.burned == map[] && Get(r.minted, 65537) == 5
  {
    MintPools(v);
    MintStarts(v);
    hide EndPools, StartPools;
    assert DefaultOutput(MintFor(v)) == Some(0);
  }

  lemma MintHeld(v: nat)
    requires v < 2
    ensures var un := map[65537 := MAX_U128];
      && Get(IndexDunes(ONE_DUNE, MintFor(v), 1, 2, 0, un).outputs[0], 65537) == (if v == 0 then 4 else MAX_U128)
      && Held(IndexDunes(ONE_DUNE, MintFor(v), 1, 2, 0, un).outputs, 65537) == (if v == 0 then 4 else U128 + 4)
      && (OutputsFit(ONE_DUNE, MintFor(v), 1, 2, 0, un, 65537) <==> v == 1)
  {
    MintGives(v);
    hide IndexDunes, OutputsFit, MintFor;
    var outs := IndexDunes(ONE_DUNE, MintFor(v), 1, 2, 0, map[65537 := MAX_U128]).outputs;
    TransactionConservesIff(ONE_DUNE, MintFor(v), 1, 2, 0, map[65537 := MAX_U128], 65537);
    HeldThree(outs, 65537);
  }

  lemma HeldThree(outs: seq<Balances>, id: nat)
    requires |outs| == 3
    ensures Held(outs, id) == Get(outs[0], id) + Get(outs[1], id) + Get(outs[2], id)
  {
    assert Held(outs[..1][..0], id) == 0;
    assert outs[..2][..1] == outs[..1];
    assert Held(outs[..1], id) == Get(outs[0], id);
  }

  /** In one output the sum wraps, and all but 4 are gone; in two outputs more than
      2^128 are conserved, so a bound on the total alone is not what decides. */
  lemma WhatWraps()
    ensures var un := map[65537 := MAX_U128];
      && Get(IndexDunes(ONE_DUNE, MintFor(0), 1, 2, 0, un).outputs[0], 65537) == 4
      && !OutputsFit(ONE_DUNE, MintFor(0), 1, 2, 0, un, 65537)
      && Held(IndexDunes(ONE_DUNE, MintFor(1), 1, 2, 0, un).outputs, 65537) == U128 + 4
      && OutputsFit(ONE_DUNE, MintFor(1), 1, 2, 0, un, 65537)
  {
    hide IndexDunes, OutputsFit;
    MintHeld(0);
    MintHeld(1);
  }
}
