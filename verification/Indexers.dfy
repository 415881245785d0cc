/** The loops of `index_runes` and `index_inscriptions`, proved against the
    functions that the laws are about. */
module Indexers {
  import opened Prelude
  import opened ChainTypes
  import opened DuneLedger
  import opened Placement
  import opened Drc20
  import opened Inscriptions
  import opened BlockApply

  // ----- dunes -----

  /** Dunes held by the inputs. */
  method GatherDunes(bodies: seq<TxoBody>) returns (unallocated: Balances)
    ensures unallocated == Unallocated(map[], bodies)
  {
    unallocated := map[];
    for i := 0 to |bodies|
      invariant Unallocated(unallocated, bodies[i..]) == Unallocated(map[], bodies)
    {
      assert bodies[i..][1..] == bodies[i + 1..];
      unallocated := AddDunes(unallocated, bodies[i].dunes);
    }
  }

  /** Which claims are accepted, and what each may mint. */
  method AcceptClaims(t: DuneTables, height: nat, claims: seq<nat>)
    returns (mintable: Balances, recorded: seq<nat>)
    ensures mintable == Limits(t, height, claims)
    ensures recorded == Recorded(t, height, claims, 0)
  {
    mintable, recorded := map[], [];
    for i := 0 to |claims|
      invariant mintable == Limits(t, height, claims[..i])
      invariant recorded + Recorded(t, height, claims, i) == Recorded(t, height, claims, 0)
    {
      hide Accepted, Slot;
      var a := Accepted(t, height, claims[i]);
      var slots := if a.Some? then [Slot(i)] else [];
      LimitsPush(t, height, claims, i);
      ConcatAssoc(recorded, slots, Recorded(t, height, claims, i + 1));
      if a.Some? {
        mintable := mintable[claims[i] := a.value];
      }
      recorded := recorded + slots;
      hide Limits;
    }
    assert recorded + [] == recorded;
    assert claims[..|claims|] == claims;
  }

  lemma LimitsPush(t: DuneTables, height: nat, claims: seq<nat>, i: nat)
    requires i < |claims|
    ensures var a := Accepted(t, height, claims[i]);
      Limits(t, height, claims[..i + 1])
      == if a.Some? then Limits(t, height, claims[..i])[claims[i] := a.value] else Limits(t, height, claims[..i])
  {
    hide Accepted;
    assert claims[..i + 1] == claims[..i] + [claims[i]];
  }

  /** Hands out dunes edict by edict. */
  method AllocateEdicts(start: Pools, edicts: seq<Edict>, newId: nat) returns (p: Pools)
    ensures p == EdictSteps(start, edicts, newId)
  {
    p := start;
    for i := 0 to |edicts|
      invariant EdictSteps(p, edicts[i..], newId) == EdictSteps(start, edicts, newId)
    {
      assert edicts[i..][1..] == edicts[i + 1..];
      p := EdictStep(p, edicts[i], newId);
    }
  }

  /** One more mint for each claim that was given something. */
  method CountClaims(mints: map<DuneId, nat>, limits: Balances, left: Balances, claims: seq<nat>)
    returns (m: map<DuneId, nat>)
    ensures m == CountMints(mints, limits, left, claims)
  {
    m := mints;
    for i := 0 to |claims|
      invariant CountMints(m, limits, left, claims[i..]) == CountMints(mints, limits, left, claims)
    {
      assert claims[i..][1..] == claims[i + 1..];
      var c := claims[i];
      if c in limits && Get(left, c) < limits[c] && Unpack(c).Some? {
        var key := Unpack(c).value;
        m := Put(m, key, Get(m, key) + 1);
      }
    }
  }

  /** All of `index_runes`: the new tables, the dunes of each output, the etched
      name and the recorded claims. */
  method IndexRunes(t: DuneTables, tx: Tx, index: nat, height: nat, minimum: nat, bodies: seq<TxoBody>)
    returns (tables: DuneTables, outputs: seq<Balances>, etched: Option<nat>, recorded: seq<nat>)
    ensures var r := IndexDunes(t, tx, index, height, minimum, Unallocated(map[], bodies));
      tables == r.tables && outputs == r.outputs && etched == r.etched && recorded == r.recorded
  {
    var unallocated := GatherDunes(bodies);
    tables, outputs, etched, recorded := t, seq(|tx.outputs|, _ => map[]), None, [];
    if tx.dunestone.Some? {
      var stone := tx.dunestone.value;
      tables, outputs, etched, recorded, unallocated := RunStone(t, tx, stone, index, height, minimum, unallocated);
      if stone.cenotaph {
        return;
      }
    }
    var v := DefaultOutput(tx);
    if v.Some? {
      outputs := outputs[v.value := Pour(outputs[v.value], unallocated)];
    }
  }

  method RunStone(t: DuneTables, tx: Tx, stone: Dunestone, index: nat, height: nat, minimum: nat, held: Balances)
    returns (tables: DuneTables, outputs: seq<Balances>, etched: Option<nat>, recorded: seq<nat>, unallocated: Balances)
    ensures |outputs| == |tx.outputs|
    ensures var r := Deciphered(t, tx, stone, index, height, minimum, held);
      tables == r.tables && outputs == r.outputs && etched == r.etched && recorded == r.recorded
    ensures unallocated == EndPools(t, tx, stone, index, height, minimum, held).unallocated
  {
    var e := Etching0(t, stone, minimum);
    tables := AfterEtch(t, stone, minimum);
    etched := if e.Some? then Some(e.value.1) else None;
    recorded := [];
    var claims := Claims(stone.edicts);
    var mintable := map[];
    if !stone.cenotaph {
      mintable, recorded := AcceptClaims(tables, height, claims);
    }
    var start := Pools(if e.Some? && index < 0x1_0000 then Some(MAX_U128) else None, mintable, held,
                       seq(|tx.outputs|, _ => map[]));
    var end := start;
    if !stone.cenotaph {
      end := AllocateEdicts(start, stone.edicts, NewId(height, index));
      var m := CountClaims(tables.mints, mintable, end.mintable, claims);
      tables := tables.(mints := m);
    }
    if e.Some? && index < 0x1_0000 {
      tables := CreateEntry(tables, DuneId(height, index), EntryTerms(stone, e.value.1, height));
    }
    outputs, unallocated := end.given, end.unallocated;
  }

  // ----- inscriptions -----

  /** Inscriptions arriving through the inputs, at their absolute sats. */
  method GatherInscriptions(refs: seq<TxoRef>, bodies: seq<TxoBody>) returns (inc: Incoming)
    requires |refs| == |bodies|
    ensures inc == EnterInputs(Incoming([], map[], 0), refs, bodies)
  {
    inc := Incoming([], map[], 0);
    for i := 0 to |refs|
      invariant EnterInputs(inc, refs[i..], bodies[i..]) == EnterInputs(Incoming([], map[], 0), refs, bodies)
    {
      assert refs[i..][1..] == refs[i + 1..] && bodies[i..][1..] == bodies[i + 1..];
      ghost var before := inc;
      var ps := bodies[i].inscriptions;
      for k := 0 to |ps|
        invariant EnterAll(inc, refs[i], bodies[i], ps[k..]) == EnterAll(before, refs[i], bodies[i], ps)
      {
        assert ps[k..][1..] == ps[k + 1..];
        inc := Enter(inc, refs[i], bodies[i], ps[k]);
      }
      inc := inc.(total := inc.total + bodies[i].txout.value);
    }
  }

  /** Credits each released transfer and records its message. */
  method CreditReleases(l: Ledger, rs: seq<Release>) returns (ledger: Ledger, ms: seq<Message>)
    ensures ledger == ApplyReleases(l, rs) && ms == ReleaseMessages(rs)
  {
    ledger, ms := l, [];
    for i := 0 to |rs|
      invariant ApplyReleases(ledger, rs[i..]) == ApplyReleases(l, rs)
      invariant ms == ReleaseMessages(rs)[..i]
    {
      assert rs[i..][1..] == rs[i + 1..];
      var r := rs[i];
      ledger := Credit(ledger, Holder(r.receiver, r.ticker), r.amount);
      ms := ms + [Transferred(r.ticker, r.amount, r.source, r.receiver)];
    }
  }

  /** All of `index_inscriptions` for one transaction. */
  method IndexTransaction(cfg: Config, height: nat, tx: Tx, refs: seq<TxoRef>, bodies: seq<TxoBody>, st: InscState)
    returns (r: InscResult)
    requires |refs| == |bodies| && tx.inputs != []
    ensures r == IndexInscriptions(cfg, height, tx, refs, bodies, st)
  {
    hide Announce, Reveal, NextCounters, SortByOffset, Place, Locals, Releases;
    var inc := Incoming([], map[], cfg.subsidy(height));
    if !IsCoinbase(tx) {
      inc := GatherInscriptions(refs, bodies);
    }
    var rev := Reveal(st.partials, tx, inc.floats);
    var floats := SortByOffset(Floating(tx, inc.floats, rev.found, st.carried));
    var p := PlaceOutputs(floats, tx.outputs);
    var rs := Releases(tx, p, inc.unused);
    var ledger, messages := CreditReleases(st.drc, rs);
    var o := Announce(cfg, tx, p, rev.found, ledger);
    if o.valid.Some? {
      messages := messages + [o.valid.value];
    } else {
      assert messages + [] == messages;
    }
    var out := Total(tx.outputs);
    var counters := NextCounters(tx, st.counters, p, st.reward);
    var carried, reward := [], st.reward;
    if !IsCoinbase(tx) {
      carried := st.carried + Carry(p.rest, st.reward, out);
      if out <= inc.total {
        reward := st.reward + inc.total - out;
      }
    }
    r := InscResult(
      InscState(rev.partials, o.ledger, counters, carried, reward),
      Locals(p.perOutput, tx.outputs),
      if o.locked.Some? && rev.found.Some? then map[rev.found.value.id := o.locked.value] else map[],
      messages, rev.found, if IsCoinbase(tx) then p.rest else []);
  }
}
