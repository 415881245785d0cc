/** Conservation of dunes in one transaction. Balances are 128-bit and sums wrap, so
    a dune is conserved exactly when no sum reaches 2^128. */
module DuneSums {
  import opened Prelude
  import opened ChainTypes
  import opened DuneLedger
  import opened DuneLaws

  // ----- sums over outputs -----

  /** Total of a dune over a list of outputs. */
  function Held(outs: seq<Balances>, id: nat): nat {
    if outs == [] then 0 else Get(outs[|outs| - 1], id) + Held(outs[..|outs| - 1], id)
  }

  lemma {:induction false} HeldEmpty(outs: seq<Balances>, id: nat)
    requires forall i :: 0 <= i < |outs| ==> outs[i] == map[]
    ensures Held(outs, id) == 0
  {
    if outs != [] {
      HeldEmpty(outs[..|outs| - 1], id);
    }
  }

  function Wrap(n: nat): u128 {
    n % U128
  }

  lemma WrapAdd(n: nat, a: u128)
    ensures AddU128(Wrap(n), a) == Wrap(n + a)
  {
  }

  // ----- what each output is handed -----

  /** What a list of edicts hands output `v` of dune `id`, without wrapping. */
  function Share(p: Pools, edicts: seq<Edict>, newId: nat, v: nat, id: nat): nat
    decreases |edicts|
  {
    if edicts == [] then 0
    else HandedTo(p, edicts[0], newId, v, id) + Share(EdictStep(p, edicts[0], newId), edicts[1..], newId, v, id)
  }

  /** The shares of the first `n` outputs together. */
  function Shares(p: Pools, edicts: seq<Edict>, newId: nat, n: nat, id: nat): nat {
    if n == 0 then 0 else Share(p, edicts, newId, n - 1, id) + Shares(p, edicts, newId, n - 1, id)
  }

  lemma {:induction false} GivenIs(p: Pools, edicts: seq<Edict>, newId: nat, v: nat, id: nat, had: nat)
    requires v < |p.given| && Get(p.given[v], id) == Wrap(had)
    ensures Get(EdictSteps(p, edicts, newId).given[v], id) == Wrap(had + Share(p, edicts, newId, v, id))
    decreases |edicts|
  {
    if edicts != [] {
      EdictGives(p, edicts[0], newId, v, id);
      WrapAdd(had, HandedTo(p, edicts[0], newId, v, id));
      GivenIs(EdictStep(p, edicts[0], newId), edicts[1..], newId, v, id, had + HandedTo(p, edicts[0], newId, v, id));
    }
  }

  lemma {:induction false} SharesHead(p: Pools, edicts: seq<Edict>, newId: nat, n: nat, id: nat)
    requires edicts != [] && n <= |p.given|
    ensures Shares(p, edicts, newId, n, id)
         == (if edicts[0].output < n then HandedTo(p, edicts[0], newId, edicts[0].output, id) else 0)
            + Shares(EdictStep(p, edicts[0], newId), edicts[1..], newId, n, id)
    decreases n
  {
    hide EdictStep, Handed;
    if n > 0 {
      SharesHead(p, edicts, newId, n - 1, id);
    }
  }

  lemma {:induction false} SharesNone(p: Pools, newId: nat, n: nat, id: nat)
    ensures Shares(p, [], newId, n, id) == 0
  {
    if n > 0 {
      SharesNone(p, newId, n - 1, id);
    }
  }

  /** What the outputs are handed is what leaves the pools. */
  lemma {:induction false} SharesConserve(p: Pools, edicts: seq<Edict>, newId: nat, id: nat)
    ensures Pool(EdictSteps(p, edicts, newId), newId, id) + Shares(p, edicts, newId, |p.given|, id)
      == Pool(p, newId, id)
    decreases |edicts|
  {
    hide Handed;
    if edicts == [] {
      SharesNone(p, newId, |p.given|, id);
    } else {
      EdictConserves(p, edicts[0], newId, id);
      SharesHead(p, edicts, newId, |p.given|, id);
      hide EdictStep;
      SharesConserve(EdictStep(p, edicts[0], newId), edicts[1..], newId, id);
    }
  }

  // ----- the transaction -----

  function IsCenotaph(tx: Tx): bool {
    tx.dunestone.Some? && tx.dunestone.value.cenotaph
  }

  /** What the edicts hand output `v`. */
  function EdictShare(
    t: DuneTables, tx: Tx, index: nat, height: nat, minimum: nat, un: Balances, v: nat, id: nat): nat {
    if tx.dunestone.None? || IsCenotaph(tx) then 0
    else
      var stone := tx.dunestone.value;
      Share(StartPools(t, tx, stone, index, height, minimum, un), stone.edicts, NewId(height, index), v, id)
  }

  /** What is left for the default output. */
  function LeftOf(t: DuneTables, tx: Tx, index: nat, height: nat, minimum: nat, un: Balances, id: nat): nat {
    if tx.dunestone.None? then Get(un, id)
    else Get(EndPools(t, tx, tx.dunestone.value, index, height, minimum, un).unallocated, id)
  }

  /** All that output `v` is handed of dune `id`, without wrapping: the edicts for it
      and, if it is the default output, what they leave. */
  function OutShare(t: DuneTables, tx: Tx, index: nat, height: nat, minimum: nat, un: Balances, v: nat, id: nat): nat {
    EdictShare(t, tx, index, height, minimum, un, v, id)
    + if !IsCenotaph(tx) && DefaultOutput(tx) == Some(v) then LeftOf(t, tx, index, height, minimum, un, id) else 0
  }

  function OutShares(t: DuneTables, tx: Tx, index: nat, height: nat, minimum: nat, un: Balances, n: nat, id: nat): nat {
    if n == 0 then 0
    else
      OutShare(t, tx, index, height, minimum, un, n - 1, id) + OutShares(t, tx, index, height, minimum, un, n - 1, id)
  }

  lemma EdictLists(p: Pools, e: Edict, newId: nat, v: nat, id: nat)
    requires v < |p.given|
    ensures id in EdictStep(p, e, newId).given[v] <==> id in p.given[v] || HandedTo(p, e, newId, v, id) > 0
  {
  }

  lemma {:induction false} GivenLists(p: Pools, edicts: seq<Edict>, newId: nat, v: nat, id: nat)
    requires v < |p.given|
    ensures id in EdictSteps(p, edicts, newId).given[v]
       <==> id in p.given[v] || Share(p, edicts, newId, v, id) > 0
    decreases |edicts|
  {
    hide EdictStep, HandedTo;
    if edicts != [] {
      EdictLists(p, edicts[0], newId, v, id);
      GivenLists(EdictStep(p, edicts[0], newId), edicts[1..], newId, v, id);
    }
  }

  /** An output lists a dune exactly if it is handed some of it. */
  lemma OutputLists(t: DuneTables, tx: Tx, index: nat, height: nat, minimum: nat, un: Balances, v: nat, id: nat)
    requires v < |tx.outputs|
    ensures id in IndexDunes(t, tx, index, height, minimum, un).outputs[v]
       <==> OutShare(t, tx, index, height, minimum, un, v, id) > 0
  {
    hide TablesAfter, Recorded, MintedAmounts, Issued, DefaultOutput, EdictSteps, Limits, Claims, Share;
    if tx.dunestone.Some? && !IsCenotaph(tx) {
      var stone := tx.dunestone.value;
      GivenLists(StartPools(t, tx, stone, index, height, minimum, un), stone.edicts, NewId(height, index), v, id);
    }
  }

  lemma LeftoversAt(tx: Tx, r: DuneResult, left: Balances, v: nat, id: nat)
    requires |r.outputs| == |tx.outputs| && v < |tx.outputs|
    ensures Get(Leftovers(tx, r, left).outputs[v], id)
         == if !IsCenotaph(tx) && DefaultOutput(tx) == Some(v) then AddU128(Get(r.outputs[v], id), Get(left, id))
            else Get(r.outputs[v], id)
  {
    hide DefaultOutput;
    if !IsCenotaph(tx) {
      LeftoversGo(tx, r, left, v, id);
    }
  }

  /** Every output ends up with what it is handed, modulo 2^128. */
  lemma OutputIs(t: DuneTables, tx: Tx, index: nat, height: nat, minimum: nat, un: Balances, v: nat, id: nat)
    requires v < |tx.outputs|
    ensures Get(IndexDunes(t, tx, index, height, minimum, un).outputs[v], id)
         == Wrap(OutShare(t, tx, index, height, minimum, un, v, id))
  {
    hide Leftovers, DefaultOutput, Deciphered, EndPools, EdictShare, AddU128, Wrap, IsCenotaph;
    var before := if tx.dunestone.None? then Untouched(t, tx)
                  else Deciphered(t, tx, tx.dunestone.value, index, height, minimum, un);
    var left := if tx.dunestone.None? then un
                else EndPools(t, tx, tx.dunestone.value, index, height, minimum, un).unallocated;
    EdictOutputIs(t, tx, index, height, minimum, un, v, id);
    LeftoversAt(tx, before, left, v, id);
    WrapAdd(EdictShare(t, tx, index, height, minimum, un, v, id), Get(left, id));
  }

  lemma EdictOutputIs(t: DuneTables, tx: Tx, index: nat, height: nat, minimum: nat, un: Balances, v: nat, id: nat)
    requires v < |tx.outputs|
    ensures var before := if tx.dunestone.None? then Untouched(t, tx)
                          else Deciphered(t, tx, tx.dunestone.value, index, height, minimum, un);
      Get(before.outputs[v], id) == Wrap(EdictShare(t, tx, index, height, minimum, un, v, id))
  {
    hide EdictSteps, Share;
    if tx.dunestone.Some? && !IsCenotaph(tx) {
      var stone := tx.dunestone.value;
      GivenIs(StartPools(t, tx, stone, index, height, minimum, un), stone.edicts, NewId(height, index), v, id, 0);
    }
  }

  lemma {:induction false} OutSharesSplit(
    t: DuneTables, tx: Tx, index: nat, height: nat, minimum: nat, un: Balances, n: nat, id: nat)
    requires n <= |tx.outputs|
    ensures var d := DefaultOutput(tx);
      OutShares(t, tx, index, height, minimum, un, n, id)
      == EdictShares(t, tx, index, height, minimum, un, n, id)
         + if !IsCenotaph(tx) && d.Some? && d.value < n then LeftOf(t, tx, index, height, minimum, un, id) else 0
    decreases n
  {
    hide EdictShare, LeftOf, DefaultOutput;
    if n > 0 {
      OutSharesSplit(t, tx, index, height, minimum, un, n - 1, id);
    }
  }

  function EdictShares(
    t: DuneTables, tx: Tx, index: nat, height: nat, minimum: nat, un: Balances, n: nat, id: nat): nat {
    if n == 0 then 0
    else
      var last := EdictShare(t, tx, index, height, minimum, un, n - 1, id);
      last + EdictShares(t, tx, index, height, minimum, un, n - 1, id)
  }

  lemma {:induction false} EdictSharesAre(
    t: DuneTables, tx: Tx, index: nat, height: nat, minimum: nat, un: Balances, n: nat, id: nat)
    ensures EdictShares(t, tx, index, height, minimum, un, n, id)
         == if tx.dunestone.None? || IsCenotaph(tx) then 0
            else Shares(StartPools(t, tx, tx.dunestone.value, index, height, minimum, un), tx.dunestone.value.edicts,
                        NewId(height, index), n, id)
    decreases n
  {
    hide StartPools;
    if n > 0 {
      EdictSharesAre(t, tx, index, height, minimum, un, n - 1, id);
    }
  }

  /** Without wrapping nothing is lost: what the outputs are handed plus what is
      burned is what the inputs held plus minted plus issued. */
  lemma {:induction false} SharesBalance(
    t: DuneTables, tx: Tx, index: nat, height: nat, minimum: nat, un: Balances, id: nat)
    ensures var r := IndexDunes(t, tx, index, height, minimum, un);
      OutShares(t, tx, index, height, minimum, un, |tx.outputs|, id) + Get(r.burned, id)
      == Get(un, id) + Get(r.minted, id) + if id == NewId(height, index) then r.issued else 0
  {
    OutSharesSplit(t, tx, index, height, minimum, un, |tx.outputs|, id);
    EdictSharesAre(t, tx, index, height, minimum, un, |tx.outputs|, id);
    if tx.dunestone.Some? {
      StoneBalance(t, tx, index, height, minimum, un, id);
    }
  }

  lemma {:induction false} StoneBalance(
    t: DuneTables, tx: Tx, index: nat, height: nat, minimum: nat, un: Balances, id: nat)
    requires tx.dunestone.Some?
    ensures var stone := tx.dunestone.value;
      var r := Deciphered(t, tx, stone, index, height, minimum, un);
      var given := if stone.cenotaph then 0
                   else Shares(StartPools(t, tx, stone, index, height, minimum, un), stone.edicts, NewId(height, index),
                               |tx.outputs|, id);
      given + LeftOf(t, tx, index, height, minimum, un, id)
      == Get(un, id) + Get(r.minted, id) + if id == NewId(height, index) then r.issued else 0
  {
    var stone := tx.dunestone.value;
    var start := StartPools(t, tx, stone, index, height, minimum, un);
    SharesConserve(start, stone.edicts, NewId(height, index), id);
    EdictsShrink(start, stone.edicts, NewId(height, index), id);
    hide EdictSteps, Shares;
  }

  // ----- when nothing wraps -----

  /** No output is handed more of the dune than fits. */
  ghost predicate OutputsFit(t: DuneTables, tx: Tx, index: nat, height: nat, minimum: nat, un: Balances, id: nat) {
    forall v :: 0 <= v < |tx.outputs| ==> OutShare(t, tx, index, height, minimum, un, v, id) < U128
  }

  lemma {:induction false} HeldWrapped(
    t: DuneTables, tx: Tx, index: nat, height: nat, minimum: nat, un: Balances, n: nat, id: nat)
    requires n <= |tx.outputs|
    ensures var outs := IndexDunes(t, tx, index, height, minimum, un).outputs;
      && Held(outs[..n], id) <= OutShares(t, tx, index, height, minimum, un, n, id)
      && (Held(outs[..n], id) == OutShares(t, tx, index, height, minimum, un, n, id)
          <==> forall v :: 0 <= v < n ==> OutShare(t, tx, index, height, minimum, un, v, id) < U128)
    decreases n
  {
    var outs := IndexDunes(t, tx, index, height, minimum, un).outputs;
    hide IndexDunes, OutShare;
    if n > 0 {
      HeldWrapped(t, tx, index, height, minimum, un, n - 1, id);
      OutputIs(t, tx, index, height, minimum, un, n - 1, id);
      assert outs[..n][..n - 1] == outs[..n - 1];
      WrapAtMost(OutShare(t, tx, index, height, minimum, un, n - 1, id));
    }
  }

  lemma WrapAtMost(n: nat)
    ensures Wrap(n) <= n && (Wrap(n) == n <==> n < U128)
  {
  }

  /** A transaction never creates a dune, and conserves it exactly when no output is
      handed 2^128 or more of it. */
  lemma TransactionConservesIff(t: DuneTables, tx: Tx, index: nat, height: nat, minimum: nat, un: Balances, id: nat)
    ensures var r := IndexDunes(t, tx, index, height, minimum, un);
      var source := Get(un, id) + Get(r.minted, id) + if id == NewId(height, index) then r.issued else 0;
      && Held(r.outputs, id) + Get(r.burned, id) <= source
      && (Held(r.outputs, id) + Get(r.burned, id) == source <==> OutputsFit(t, tx, index, height, minimum, un, id))
  {
    SharesBalance(t, tx, index, height, minimum, un, id);
    HeldWrapped(t, tx, index, height, minimum, un, |tx.outputs|, id);
    hide IndexDunes, OutShare, OutShares;
    var r := IndexDunes(t, tx, index, height, minimum, un);
    assert r.outputs[..|tx.outputs|] == r.outputs;
  }

  lemma {:induction false} ShareWithin(
    t: DuneTables, tx: Tx, index: nat, height: nat, minimum: nat, un: Balances, n: nat, v: nat, id: nat)
    requires v < n
    ensures OutShare(t, tx, index, height, minimum, un, v, id) <= OutShares(t, tx, index, height, minimum, un, n, id)
    decreases n
  {
    hide OutShare;
    if v < n - 1 {
      ShareWithin(t, tx, index, height, minimum, un, n - 1, v, id);
    }
  }

  /** In particular when inputs, minted and issued together stay below 2^128. */
  lemma SmallFits(t: DuneTables, tx: Tx, index: nat, height: nat, minimum: nat, un: Balances, id: nat)
    requires var r := IndexDunes(t, tx, index, height, minimum, un);
      Get(un, id) + Get(r.minted, id) + (if id == NewId(height, index) then r.issued else 0) < U128
    ensures OutputsFit(t, tx, index, height, minimum, un, id)
  {
    SharesBalance(t, tx, index, height, minimum, un, id);
    hide IndexDunes, OutShare, OutShares;
    forall v | 0 <= v < |tx.outputs| ensures OutShare(t, tx, index, height, minimum, un, v, id) < U128 {
      ShareWithin(t, tx, index, height, minimum, un, |tx.outputs|, v, id);
    }
  }
}
