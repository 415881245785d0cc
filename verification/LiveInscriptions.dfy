/** Every live inscription sits in exactly one place. */
module LiveInscriptions {
  import opened Prelude
  import opened ChainTypes
  import opened Placement
  import opened Inscriptions
  import opened InscriptionLaws
  import opened Utxos
  import InscriptionParser

  ghost predicate Has(u: Table, r: TxoRef, id: InscriptionId) {
    r in u && id in Ids(u[r].inscriptions)
  }

  /** No inscription appears twice among the outputs. */
  ghost predicate Unique(u: Table) {
    && (forall r <- u :: NoDup(Ids(u[r].inscriptions)))
    && (forall r, q, id :: Has(u, r, id) && Has(u, q, id) ==> r == q)
  }

  /** Those on their way to the coinbase are distinct and in no output. */
  ghost predicate Apart(u: Table, carried: seq<Flotsam>) {
    && NoDup(FloatIds(carried))
    && (forall r, id :: Has(u, r, id) ==> id !in FloatIds(carried))
  }

  ghost predicate Live(u: Table, carried: seq<Flotsam>, id: InscriptionId) {
    (exists r :: Has(u, r, id)) || id in FloatIds(carried)
  }

  // ----- what enters a transaction -----

  lemma {:induction false} InputIdsDistinct(u: Table, refs: seq<TxoRef>, bodies: seq<TxoBody>)
    requires Unique(u) && NoDup(refs) && |refs| == |bodies|
    requires forall i :: 0 <= i < |refs| ==> refs[i] in u && bodies[i] == u[refs[i]]
    ensures NoDup(BodyIds(bodies))
    ensures forall id <- BodyIds(bodies) :: exists r :: r in refs && Has(u, r, id)
    decreases |refs|
  {
    if refs != [] {
      assert forall i :: 0 <= i < |refs[1..]| ==> refs[1..][i] == refs[i + 1] && bodies[1..][i] == bodies[i + 1];
      InputIdsDistinct(u, refs[1..], bodies[1..]);
      var ids := Ids(bodies[0].inscriptions);
      forall id | id in ids ensures id !in BodyIds(bodies[1..]) && Has(u, refs[0], id) {
        if id in BodyIds(bodies[1..]) {
          var r :| r in refs[1..] && Has(u, r, id);
          assert Has(u, refs[0], id);
        }
      }
      NoDupConcat(ids, BodyIds(bodies[1..]));
      forall id | id in BodyIds(bodies) ensures exists r :: r in refs && Has(u, r, id) {
        if id in ids {
          assert refs[0] in refs;
        } else {
          var r :| r in refs[1..] && Has(u, r, id);
          assert r in refs;
        }
      }
    }
  }

  /** The ids floating through a transaction are those of its inputs, the newly
      revealed one, and for the coinbase those carried to it. */
  lemma FloatingIds(cfg: Config, height: nat, tx: Tx, refs: seq<TxoRef>, bodies: seq<TxoBody>, st: InscState)
    requires |refs| == |bodies| && tx.inputs != [] && (IsCoinbase(tx) ==> bodies == [])
    ensures var found := Reveal(st.partials, tx, Arrivals(cfg, height, tx, refs, bodies).floats).found;
      FloatIds(Floats(cfg, height, tx, refs, bodies, st))
      == BodyIds(bodies) + (if found.Some? then [found.value.id] else [])
        + (if IsCoinbase(tx) then FloatIds(st.carried) else [])
  {
    var inc := Arrivals(cfg, height, tx, refs, bodies);
    if !IsCoinbase(tx) {
      ArrivedIds(Incoming([], map[], 0), refs, bodies);
      assert FloatIds([]) + BodyIds(bodies) == BodyIds(bodies);
    }
    assert FloatIds(inc.floats) == BodyIds(bodies);
    hide Arrivals, Reveal;
    var found := Reveal(st.partials, tx, inc.floats).found;
    FloatingIdsOf(tx, inc.floats, found, st.carried);
  }

  lemma FloatingIdsOf(tx: Tx, arrivals: seq<Flotsam>, found: Option<Discovery>, carried: seq<Flotsam>)
    ensures FloatIds(Floating(tx, arrivals, found, carried))
         == FloatIds(arrivals) + (if found.Some? then [found.value.id] else [])
           + (if IsCoinbase(tx) then FloatIds(carried) else [])
  {
  }

  // ----- what a transaction reveals -----

  /** Sat offsets of the inputs' inscriptions: those of an input start where the
      values of the inputs before it end. */
  function Arrived(total: nat, bodies: seq<TxoBody>): seq<Flotsam>
    decreases |bodies|
  {
    if bodies == [] then []
    else Shifted(total, bodies[0].inscriptions) + Arrived(total + bodies[0].txout.value, bodies[1..])
  }

  function Shifted(total: nat, ps: seq<Placed>): (r: seq<Flotsam>)
    ensures |r| == |ps|
    ensures forall i :: 0 <= i < |ps| ==> r[i] == Flotsam(ps[i].id, total + ps[i].offset, false)
  {
    seq(|ps|, i requires 0 <= i < |ps| => Flotsam(ps[i].id, total + ps[i].offset, false))
  }

  lemma {:induction false} EnterAllArrives(inc: Incoming, source: TxoRef, body: TxoBody, ps: seq<Placed>)
    ensures EnterAll(inc, source, body, ps).floats == inc.floats + Shifted(inc.total, ps)
    ensures EnterAll(inc, source, body, ps).total == inc.total
    decreases |ps|
  {
    if ps != [] {
      var next := Enter(inc, source, body, ps[0]);
      EnterAllArrives(next, source, body, ps[1..]);
      assert Shifted(inc.total, ps)
        == [Flotsam(ps[0].id, inc.total + ps[0].offset, false)] + Shifted(inc.total, ps[1..]);
    }
  }

  lemma {:induction false} InputsArrive(inc: Incoming, refs: seq<TxoRef>, bodies: seq<TxoBody>)
    requires |refs| == |bodies|
    ensures EnterInputs(inc, refs, bodies).floats == inc.floats + Arrived(inc.total, bodies)
    decreases |refs|
  {
    if refs != [] {
      EnterAllArrives(inc, refs[0], bodies[0], bodies[0].inscriptions);
      InputsArrive(EnterInput(inc, refs[0], bodies[0]), refs[1..], bodies[1..]);
      ConcatAssoc(inc.floats, Shifted(inc.total, bodies[0].inscriptions),
                  Arrived(inc.total + bodies[0].txout.value, bodies[1..]));
    }
  }

  /** The id of the inscription that a transaction completes, if it does: that of
      the first transaction of the chain it continues. */
  function NextId(p: Partials, tx: Tx): InscriptionId
    requires tx.inputs != []
  {
    var chain := StoredChain(p, tx);
    InscriptionId(if chain == [] then tx.txid else chain[0], 0)
  }

  /** No inscription arrives on the first sat, and the stored scripts of the chain
      with the transaction's own are a complete inscription. */
  predicate Completes(p: Partials, tx: Tx, bodies: seq<TxoBody>)
    requires tx.inputs != []
  {
    && (forall f <- Arrived(0, bodies) :: f.offset != 0)
    && InscriptionParser.Parse(StoredScripts(p, StoredChain(p, tx)) + [tx.inputs[0].scriptSig]).Complete?
  }

  /** The transaction completes an inscription whose id is already live. */
  ghost predicate Revives(u: Table, carried: seq<Flotsam>, p: Partials, tx: Tx, bodies: seq<TxoBody>)
    requires tx.inputs != []
  {
    Completes(p, tx, bodies) && Live(u, carried, NextId(p, tx))
  }

  lemma {:induction false} FoundIff(
    cfg: Config, height: nat, tx: Tx, refs: seq<TxoRef>, bodies: seq<TxoBody>, st: InscState)
    requires |refs| == |bodies| && tx.inputs != [] && (IsCoinbase(tx) ==> bodies == [])
    ensures var found := Reveal(st.partials, tx, Arrivals(cfg, height, tx, refs, bodies).floats).found;
      && (found.Some? <==> Completes(st.partials, tx, bodies))
      && (found.Some? ==> found.value.id == NextId(st.partials, tx))
  {
    hide InscriptionParser.Parse;
    if !IsCoinbase(tx) {
      InputsArrive(Incoming([], map[], 0), refs, bodies);
      assert [] + Arrived(0, bodies) == Arrived(0, bodies);
    }
    assert Arrivals(cfg, height, tx, refs, bodies).floats == Arrived(0, bodies);
  }

  // ----- what leaves it -----

  lemma {:induction false} FlattenHas(perOutput: seq<seq<Flotsam>>, v: nat, id: InscriptionId)
    requires v < |perOutput| && id in FloatIds(perOutput[v])
    ensures id in FloatIds(Flatten(perOutput))
    decreases |perOutput|
  {
    assert FloatIds(Flatten(perOutput)) == FloatIds(perOutput[0]) + FloatIds(Flatten(perOutput[1..]));
    if v > 0 {
      FlattenHas(perOutput[1..], v - 1, id);
    }
  }

  lemma {:induction false} FlattenUnique(perOutput: seq<seq<Flotsam>>)
    requires NoDup(FloatIds(Flatten(perOutput)))
    ensures forall v :: 0 <= v < |perOutput| ==> NoDup(FloatIds(perOutput[v]))
    ensures forall v, w, id | 0 <= v < |perOutput| && 0 <= w < |perOutput| ::
              id in FloatIds(perOutput[v]) && id in FloatIds(perOutput[w]) ==> v == w
    decreases |perOutput|
  {
    if perOutput != [] {
      var rest := perOutput[1..];
      assert FloatIds(Flatten(perOutput)) == FloatIds(perOutput[0]) + FloatIds(Flatten(rest));
      NoDupConcat(FloatIds(perOutput[0]), FloatIds(Flatten(rest)));
      FlattenUnique(rest);
      forall w, id | 0 < w < |perOutput| && id in FloatIds(perOutput[w]) ensures id !in FloatIds(perOutput[0]) {
        FlattenHas(rest, w - 1, id);
      }
      assert forall w :: 0 < w < |perOutput| ==> perOutput[w] == rest[w - 1];
    }
  }

  /** Each output holds distinct inscriptions, no two share one, and the leftovers
      are in none; all of them were floating. */
  ghost predicate Scattered(p: Placing, ids: seq<InscriptionId>) {
    && (forall v :: 0 <= v < |p.perOutput| ==> NoDup(FloatIds(p.perOutput[v])))
    && (forall v, w, id | 0 <= v < |p.perOutput| && 0 <= w < |p.perOutput| ::
          id in FloatIds(p.perOutput[v]) && id in FloatIds(p.perOutput[w]) ==> v == w)
    && (forall v, id | 0 <= v < |p.perOutput| ::
          id in FloatIds(p.perOutput[v]) ==> id in ids && id !in FloatIds(p.rest))
    && NoDup(FloatIds(p.rest))
    && (forall id <- FloatIds(p.rest) :: id in ids)
  }

  lemma {:induction false} PlaceScatters(floats: seq<Flotsam>, outs: seq<TxOut>)
    requires NoDup(FloatIds(floats))
    ensures Scattered(Place(SortByOffset(floats), outs, 0), FloatIds(floats))
  {
    var s := SortByOffset(floats);
    SortLaw(floats);
    PlaceKeepsAll(s, outs, 0);
    SplitScatters(Place(s, outs, 0), floats, s);
  }

  lemma {:induction false} SplitScatters(p: Placing, floats: seq<Flotsam>, s: seq<Flotsam>)
    requires NoDup(FloatIds(floats)) && multiset(s) == multiset(floats) && Flatten(p.perOutput) + p.rest == s
    ensures Scattered(p, FloatIds(floats))
  {
    NoDupPart(p, floats, s);
    FlattenUnique(p.perOutput);
    IdsPermute(floats, s);
    MemberOfPermutation(FloatIds(s), FloatIds(floats));
    assert FloatIds(s) == FloatIds(Flatten(p.perOutput)) + FloatIds(p.rest);
    forall v, id | 0 <= v < |p.perOutput| && id in FloatIds(p.perOutput[v])
      ensures id in FloatIds(Flatten(p.perOutput))
    {
      FlattenHas(p.perOutput, v, id);
    }
  }

  /** Moving distinct inscriptions into fresh outputs keeps the table unique. */
  lemma {:induction false} MoveKeepsUnique(
    u: Table, next: Table, tx: Tx, p: Placing, ids: seq<InscriptionId>, keep: seq<Flotsam>)
    requires Unique(u) && |p.perOutput| == |tx.outputs| && Scattered(p, ids)
    requires forall r <- next :: if Creates(tx, r) then Ids(next[r].inscriptions) == FloatIds(p.perOutput[r.vout])
                                 else r in u && next[r] == u[r]
    requires forall r, id :: !Creates(tx, r) && Has(next, r, id) ==> id !in ids
    requires Apart(u, keep) && forall id <- FloatIds(keep) :: id !in ids
    ensures Unique(next)
    ensures NoDup(FloatIds(keep) + FloatIds(p.rest))
    ensures forall r, id :: Has(next, r, id) ==> id !in FloatIds(keep) && id !in FloatIds(p.rest)
  {
    NoDupConcat(FloatIds(keep), FloatIds(p.rest));
    forall r, q, id | Has(next, r, id) && Has(next, q, id) ensures r == q {
      if !Creates(tx, r) && !Creates(tx, q) {
        assert Has(u, r, id) && Has(u, q, id);
      }
    }
    forall r, id | Has(next, r, id) ensures id !in FloatIds(keep) && id !in FloatIds(p.rest) {
      if !Creates(tx, r) {
        assert Has(u, r, id);
      }
    }
  }

  lemma MemberOfPermutation<T>(a: seq<T>, b: seq<T>)
    requires multiset(a) == multiset(b)
    ensures forall x <- a :: x in b
  {
    forall x | x in a ensures x in b {
      assert x in multiset(a);
    }
  }

  // ----- one transaction -----

  ghost function Placing0(
    cfg: Config, height: nat, tx: Tx, refs: seq<TxoRef>, bodies: seq<TxoBody>, st: InscState): (p: Placing)
    requires |refs| == |bodies| && tx.inputs != []
    ensures |p.perOutput| == |tx.outputs|
  {
    Place(SortByOffset(Floats(cfg, height, tx, refs, bodies, st)), tx.outputs, 0)
  }

  /** Where the indexed inscriptions went. */
  lemma IndexPlaces(cfg: Config, height: nat, tx: Tx, refs: seq<TxoRef>, bodies: seq<TxoBody>, st: InscState)
    requires |refs| == |bodies| && tx.inputs != []
    ensures var r := IndexInscriptions(cfg, height, tx, refs, bodies, st);
      var p := Placing0(cfg, height, tx, refs, bodies, st);
      && r.outputs == Locals(p.perOutput, tx.outputs)
      && r.found == Reveal(st.partials, tx, Arrivals(cfg, height, tx, refs, bodies).floats).found
      && r.state.carried == (if IsCoinbase(tx) then [] else st.carried + Carry(p.rest, st.reward, Total(tx.outputs)))
      && FloatIds(r.state.carried) == (if IsCoinbase(tx) then [] else FloatIds(st.carried) + FloatIds(p.rest))
      && (IsCoinbase(tx) ==> r.lost == p.rest)
  {
    hide Reveal, Releases, Announce, NextCounters, SortByOffset, Arrivals, Place, Locals, Floating;
  }

  lemma {:induction false} FloatsDistinct(
    cfg: Config, height: nat, tx: Tx, refs: seq<TxoRef>, bodies: seq<TxoBody>, st: InscState, u: Table)
    requires |refs| == |bodies| && tx.inputs != [] && (IsCoinbase(tx) ==> bodies == [])
    requires Unique(u) && Apart(u, st.carried) && NoDup(refs)
    requires forall i :: 0 <= i < |refs| ==> refs[i] in u && bodies[i] == u[refs[i]]
    requires !Revives(u, st.carried, st.partials, tx, bodies)
    ensures var ids := FloatIds(Floats(cfg, height, tx, refs, bodies, st));
      && NoDup(ids)
      && (forall r, id :: Has(u, r, id) && r !in refs ==> id !in ids)
      && (!IsCoinbase(tx) ==> forall id <- FloatIds(st.carried) :: id !in ids)
  {
    InputIdsDistinct(u, refs, bodies);
    FloatingIds(cfg, height, tx, refs, bodies, st);
    FoundIff(cfg, height, tx, refs, bodies, st);
    hide Reveal, Arrivals, Floats, Completes, NextId;
    var found := Reveal(st.partials, tx, Arrivals(cfg, height, tx, refs, bodies).floats).found;
    DistinctParts(u, refs, BodyIds(bodies), found, st.carried, IsCoinbase(tx));
  }

  lemma DistinctParts(
    u: Table, refs: seq<TxoRef>, inputs: seq<InscriptionId>, found: Option<Discovery>, carried: seq<Flotsam>,
    coinbase: bool)
    requires Unique(u) && Apart(u, carried) && NoDup(inputs) && (found.Some? ==> !Live(u, carried, found.value.id))
    requires forall id <- inputs :: exists r :: r in refs && Has(u, r, id)
    ensures var ids := inputs + (if found.Some? then [found.value.id] else [])
      + (if coinbase then FloatIds(carried) else []);
      && NoDup(ids)
      && (forall r, id :: Has(u, r, id) && r !in refs ==> id !in ids)
      && (!coinbase ==> forall id <- FloatIds(carried) :: id !in ids)
  {
    var mid := if found.Some? then [found.value.id] else [];
    NoDupConcat(inputs, mid);
    NoDupConcat(inputs + mid, if coinbase then FloatIds(carried) else []);
  }

  lemma OutputIds(
    height: nat, tx: Tx, dunes: seq<Balances>, p: Placing, transfers: map<InscriptionId, Transfer>, v: nat)
    requires |dunes| == |tx.outputs| == |p.perOutput| && v < |tx.outputs|
    ensures Ids(Bodies(height, tx.outputs, dunes, Locals(p.perOutput, tx.outputs), transfers)[v].inscriptions)
         == FloatIds(p.perOutput[v])
  {
  }

  // ----- where a transaction's inscriptions come from and go to -----

  /** The inscriptions that enter a transaction and the one it reveals. */
  ghost function Entering(bodies: seq<TxoBody>, found: Option<Discovery>): seq<Flotsam> {
    Arrived(0, bodies) + if found.Some? then [Flotsam(found.value.id, 0, true)] else []
  }

  /** The leftovers follow those already on their way to the coinbase, each as far
      past the fees so far as it lies past the outputs. */
  ghost predicate Joins(now: seq<Flotsam>, before: seq<Flotsam>, rest: seq<Flotsam>, reward: nat, total: nat) {
    && |now| == |before| + |rest|
    && (forall i :: 0 <= i < |before| ==> now[i] == before[i])
    && (forall i :: 0 <= i < |rest| ==>
          && now[|before| + i].id == rest[i].id && now[|before| + i].isNew == rest[i].isNew
          && now[|before| + i].offset == reward + (rest[i].offset - total))
  }

  lemma CarryJoins(before: seq<Flotsam>, rest: seq<Flotsam>, reward: nat, total: nat)
    requires forall f <- rest :: total <= f.offset
    ensures Joins(before + Carry(rest, reward, total), before, rest, reward, total)
  {
    var now := before + Carry(rest, reward, total);
    forall i | 0 <= i < |rest| ensures now[|before| + i] == Carry(rest, reward, total)[i] && rest[i] in rest {
    }
  }

  /** Every inscription entering a transaction, or revealed by it, ends up exactly
      once: strictly inside one output at its own absolute sat, or on the way to
      the coinbase if its sat lies at or past the total output value. */
  lemma {:induction false} TransactionPlaces(
    cfg: Config, height: nat, tx: Tx, refs: seq<TxoRef>, bodies: seq<TxoBody>, st: InscState)
    requires |refs| == |bodies| && tx.inputs != [] && !IsCoinbase(tx)
    ensures var r := IndexInscriptions(cfg, height, tx, refs, bodies, st);
      var p := Placing0(cfg, height, tx, refs, bodies, st);
      && r.outputs == Locals(p.perOutput, tx.outputs)
      && Joins(r.state.carried, st.carried, p.rest, st.reward, Total(tx.outputs))
      && multiset(Entering(bodies, r.found)) == multiset(Flatten(p.perOutput)) + multiset(p.rest)
      && (forall v, i :: 0 <= v < |tx.outputs| && 0 <= i < |p.perOutput[v]| ==> Sits(p, tx.outputs, v, i))
      && (forall f <- p.rest :: Total(tx.outputs) <= f.offset)
  {
    IndexPlaces(cfg, height, tx, refs, bodies, st);
    EnteringFloats(cfg, height, tx, refs, bodies, st);
    hide IndexInscriptions, Floats, Entering, Sits, Joins, Carry;
    PlacementLaw(Floats(cfg, height, tx, refs, bodies, st), tx.outputs);
    CarryJoins(st.carried, Placing0(cfg, height, tx, refs, bodies, st).rest, st.reward, Total(tx.outputs));
  }

  lemma EnteringFloats(cfg: Config, height: nat, tx: Tx, refs: seq<TxoRef>, bodies: seq<TxoBody>, st: InscState)
    requires |refs| == |bodies| && tx.inputs != [] && !IsCoinbase(tx)
    ensures Entering(bodies, Reveal(st.partials, tx, Arrivals(cfg, height, tx, refs, bodies).floats).found)
         == Floats(cfg, height, tx, refs, bodies, st)
  {
    hide Reveal;
    InputsArrive(Incoming([], map[], 0), refs, bodies);
    assert [] + Arrived(0, bodies) == Arrived(0, bodies);
  }
}
