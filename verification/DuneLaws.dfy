/** What the dune rules keep: conservation in every transaction, mint caps,
    name and id tables that stay mutually inverse, and exact undo. */
module DuneLaws {
  import opened Prelude
  import opened ChainTypes
  import opened DuneLedger

  // ----- edicts -----

  /** The dune that an edict hands out. */
  function Target(e: Edict, newId: nat): nat {
    if e.id == 0 then newId else if Claim(e.id).Some? then Claim(e.id).value else e.id
  }

  /** How much it hands out if it names an output: all of the balance, or as much of
      the amount as there is. */
  function Handed(p: Pools, e: Edict): u128 {
    var balance :=
      if e.id == 0 then (if p.issuance.Some? then p.issuance.value else 0)
      else if Claim(e.id).Some? then Get(p.mintable, Claim(e.id).value)
      else Get(p.unallocated, e.id);
    if e.amount == 0 || balance <= e.amount then balance else e.amount
  }

  /** What an edict hands output `v` of dune `id`. */
  function HandedTo(p: Pools, e: Edict, newId: nat, v: nat, id: nat): u128 {
    if v == e.output && v < |p.given| && id == Target(e, newId) then Handed(p, e) else 0
  }

  /** Everything of a dune that a transaction can still hand out. */
  function Pool(p: Pools, newId: nat, id: nat): nat {
    Get(p.unallocated, id) + Get(p.mintable, id) + if p.issuance.Some? && id == newId then p.issuance.value else 0
  }

  /** An edict adds to its own output, and to no other, what it takes from the pools;
      the addition wraps at 128 bits. */
  lemma EdictGives(p: Pools, e: Edict, newId: nat, v: nat, id: nat)
    requires v < |p.given|
    ensures Get(EdictStep(p, e, newId).given[v], id) == AddU128(Get(p.given[v], id), HandedTo(p, e, newId, v, id))
  {
  }

  lemma EdictConserves(p: Pools, e: Edict, newId: nat, id: nat)
    ensures Pool(EdictStep(p, e, newId), newId, id) + HandedTo(p, e, newId, e.output, id) == Pool(p, newId, id)
    ensures EdictStep(p, e, newId).mintable.Keys == p.mintable.Keys
    ensures EdictStep(p, e, newId).unallocated.Keys == p.unallocated.Keys
    ensures EdictStep(p, e, newId).issuance.Some? == p.issuance.Some?
    ensures p.issuance.Some? ==> EdictStep(p, e, newId).issuance.value <= p.issuance.value
    ensures Get(EdictStep(p, e, newId).mintable, id) <= Get(p.mintable, id)
  {
  }

  lemma {:induction false} EdictsShrink(p: Pools, edicts: seq<Edict>, newId: nat, id: nat)
    ensures var r := EdictSteps(p, edicts, newId);
      && r.mintable.Keys == p.mintable.Keys
      && r.unallocated.Keys == p.unallocated.Keys
      && r.issuance.Some? == p.issuance.Some?
      && (p.issuance.Some? ==> r.issuance.value <= p.issuance.value)
      && Get(r.mintable, id) <= Get(p.mintable, id)
    decreases |edicts|
  {
    if edicts != [] {
      EdictConserves(p, edicts[0], newId, id);
      EdictsShrink(EdictStep(p, edicts[0], newId), edicts[1..], newId, id);
    }
  }

  // ----- claims and mint counts -----

  /** Some edict of claim `c` names one of the first `n` outputs. */
  ghost predicate Serves(edicts: seq<Edict>, n: nat, c: nat) {
    exists i :: 0 <= i < |edicts| && edicts[i].output < n && Claim(edicts[i].id) == Some(c)
  }

  lemma ServesFirst(edicts: seq<Edict>, n: nat, c: nat)
    requires edicts != []
    ensures Serves(edicts, n, c)
       <==> (edicts[0].output < n && Claim(edicts[0].id) == Some(c)) || Serves(edicts[1..], n, c)
  {
    if Serves(edicts[1..], n, c) {
      var i :| 0 <= i < |edicts[1..]| && edicts[1..][i].output < n && Claim(edicts[1..][i].id) == Some(c);
      assert edicts[i + 1] == edicts[1..][i];
    }
    if Serves(edicts, n, c) && !(edicts[0].output < n && Claim(edicts[0].id) == Some(c)) {
      var i :| 0 <= i < |edicts| && edicts[i].output < n && Claim(edicts[i].id) == Some(c);
      assert edicts[1..][i - 1] == edicts[i];
    }
  }

  /** A claim takes something exactly when its limit is positive and one of its
      edicts names an existing output. */
  lemma {:induction false} ClaimTakesIff(p: Pools, edicts: seq<Edict>, newId: nat, c: nat)
    requires c in p.mintable
    ensures Get(EdictSteps(p, edicts, newId).mintable, c) < p.mintable[c]
       <==> p.mintable[c] > 0 && Serves(edicts, |p.given|, c)
    decreases |edicts|
  {
    if edicts != [] {
      ServesFirst(edicts, |p.given|, c);
      var q := EdictStep(p, edicts[0], newId);
      EdictConserves(p, edicts[0], newId, c);
      EdictsShrink(q, edicts[1..], newId, c);
      ClaimTakesIff(q, edicts[1..], newId, c);
    }
  }

  /** The claim of `key` is among `claims` and was given something. */
  ghost predicate Paid(limits: Balances, left: Balances, claims: seq<nat>, key: DuneId) {
    var c := Pack(key);
    Packable(key) && c in claims && c in limits && Get(left, c) < limits[c]
  }

  lemma {:induction false} CountMintsAt(
    m: map<DuneId, nat>, limits: Balances, left: Balances, claims: seq<nat>, key: DuneId)
    requires Increasing(claims) && NoZeros(m)
    ensures NoZeros(CountMints(m, limits, left, claims))
    ensures Get(CountMints(m, limits, left, claims), key)
         == Get(m, key) + if Paid(limits, left, claims, key) then 1 else 0
    decreases |claims|
  {
    if claims != [] {
      var c := claims[0];
      assert claims == [c] + claims[1..];
      assert c !in claims[1..];
      if Unpack(c).Some? {
        PackIff(c, Unpack(c).value);
      }
      PackIff(c, key);
      var m1 := if c in limits && Get(left, c) < limits[c] && Unpack(c).Some?
                then Put(m, Unpack(c).value, Get(m, Unpack(c).value) + 1) else m;
      CountMintsAt(m1, limits, left, claims[1..], key);
    }
  }

  lemma {:induction false} CountMintsLaw(m: map<DuneId, nat>, limits: Balances, left: Balances, claims: seq<nat>)
    requires Increasing(claims) && NoZeros(m)
    ensures NoZeros(CountMints(m, limits, left, claims))
    ensures forall key :: Get(CountMints(m, limits, left, claims), key)
                       == Get(m, key) + if Paid(limits, left, claims, key) then 1 else 0
  {
    CountMintsAt(m, limits, left, claims, DuneId(0, 0));
    forall key ensures Get(CountMints(m, limits, left, claims), key)
                    == Get(m, key) + if Paid(limits, left, claims, key) then 1 else 0
    {
      CountMintsAt(m, limits, left, claims, key);
    }
  }

  /** Position `i` holds a claim that unpacks to `key`, and its slot is recorded. */
  ghost predicate ClaimAt(claims: seq<nat>, recorded: seq<nat>, i: nat, key: DuneId) {
    i < |claims| && Slot(i) in recorded && Unpack(claims[i]) == Some(key)
  }

  lemma ClaimAtUnique(claims: seq<nat>, recorded: seq<nat>, i: nat, j: nat, key: DuneId)
    requires Increasing(claims) && ClaimAt(claims, recorded, i, key) && ClaimAt(claims, recorded, j, key)
    ensures i == j
  {
    PackIff(claims[i], key);
    PackIff(claims[j], key);
  }

  lemma {:induction false} UndoClaimsAt(m: map<DuneId, nat>, claims: seq<nat>, from: nat, recorded: seq<nat>)
    requires Increasing(claims) && from <= |claims| && NoZeros(m)
    ensures UndoClaims(m, claims, from, recorded).Some?
       <==> forall i: nat, key :: from <= i && ClaimAt(claims, recorded, i, key) ==> Get(m, key) > 0
    ensures UndoClaims(m, claims, from, recorded).Some? ==>
      var r := UndoClaims(m, claims, from, recorded).value;
      && NoZeros(r)
      && (forall i: nat, key :: from <= i && ClaimAt(claims, recorded, i, key) ==> Get(r, key) == Get(m, key) - 1)
      && (forall key ::
            (forall i: nat :: from <= i ==> !ClaimAt(claims, recorded, i, key)) ==> Get(r, key) == Get(m, key))
    decreases |claims| - from
  {
    if from < |claims| {
      if Unpack(claims[from]).Some? && Slot(from) in recorded {
        var k := Unpack(claims[from]).value;
        assert ClaimAt(claims, recorded, from, k);
        forall i: nat | from <= i && ClaimAt(claims, recorded, i, k) ensures i == from {
          ClaimAtUnique(claims, recorded, i, from, k);
        }
        if Get(m, k) > 0 {
          var m1 := Put(m, k, Get(m, k) - 1);
          UndoClaimsAt(m1, claims, from + 1, recorded);
          forall i: nat, key | from + 1 <= i && ClaimAt(claims, recorded, i, key) ensures Get(m1, key) == Get(m, key) {
            if key == k {
              ClaimAtUnique(claims, recorded, i, from, k);
            }
          }
        }
      } else {
        assert forall key :: !ClaimAt(claims, recorded, from, key);
        UndoClaimsAt(m, claims, from + 1, recorded);
      }
    }
  }

  /** Every accepted claim has a positive limit and an edict naming an output. */
  ghost predicate ClaimsPay(t: DuneTables, stone: Dunestone, outputs: nat, height: nat) {
    forall c <- Claims(stone.edicts) ::
      Accepted(t, height, c).Some? ==> Accepted(t, height, c).value > 0 && Serves(stone.edicts, outputs, c)
  }

  /** A claim that shares its slot with an accepted one is accepted too, if it
      unpacks at all. Only with more than 65536 claims can this fail. */
  ghost predicate OwnSlots(t: DuneTables, claims: seq<nat>, height: nat) {
    forall i: nat, j: nat | i < |claims| && j < |claims| ::
      Slot(i) == Slot(j) && Accepted(t, height, claims[i]).Some? && Unpack(claims[j]).Some?
      ==> Accepted(t, height, claims[j]).Some?
  }

  /** Undo finds exactly the claims that minted. */
  ghost predicate Settles(t: DuneTables, stone: Dunestone, outputs: nat, height: nat) {
    ClaimsPay(t, stone, outputs, height) && OwnSlots(t, Claims(stone.edicts), height)
  }

  /** The transactions whose dune effects a rollback takes back exactly. */
  ghost predicate Reversible(t: DuneTables, tx: Tx, index: nat, height: nat) {
    tx.dunestone.Some? ==>
      var stone := tx.dunestone.value;
      && (stone.etching.Some? && stone.etching.value.dune.None? ==> index < 0x1_0000)
      && (!stone.cenotaph ==> Settles(t, stone, |tx.outputs|, height))
  }

  /** A claim whose slot is recorded was paid exactly when it was accepted, its limit
      is positive and it is served. */
  lemma {:induction false} RecordedPaidIff(
    t: DuneTables, stone: Dunestone, p: Pools, height: nat, newId: nat, i: nat, key: DuneId)
    requires p.mintable == Limits(t, height, Claims(stone.edicts))
    requires ClaimAt(Claims(stone.edicts), Recorded(t, height, Claims(stone.edicts), 0), i, key)
    ensures var c := Claims(stone.edicts)[i];
      var a := Accepted(t, height, c);
      Paid(p.mintable, EdictSteps(p, stone.edicts, newId).mintable, Claims(stone.edicts), key)
      <==> a.Some? && a.value > 0 && Serves(stone.edicts, |p.given|, c)
  {
    var claims := Claims(stone.edicts);
    PackIff(claims[i], key);
    if Accepted(t, height, claims[i]).Some? {
      ClaimTakesIff(p, stone.edicts, newId, claims[i]);
    }
  }

  lemma {:induction false} MintsRestoredIff(
    t: DuneTables, stone: Dunestone, p: Pools, height: nat, newId: nat)
    requires NoZeros(t.mints)
    requires p.mintable == Limits(t, height, Claims(stone.edicts))
    ensures var claims := Claims(stone.edicts);
      var end := EdictSteps(p, stone.edicts, newId);
      UndoClaims(CountMints(t.mints, p.mintable, end.mintable, claims), claims, 0, Recorded(t, height, claims, 0))
        == Some(t.mints)
      <==> Settles(t, stone, |p.given|, height)
  {
    if Settles(t, stone, |p.given|, height) {
      AllPaidRestored(t, stone, p, height, newId);
    } else {
      var i, key := Unsettled(t, stone, |p.given|, height);
      RecordedPaidIff(t, stone, p, height, newId, i, key);
      var claims := Claims(stone.edicts);
      var left := EdictSteps(p, stone.edicts, newId).mintable;
      ClaimsIncreasing(stone.edicts);
      CountMintsLaw(t.mints, p.mintable, left, claims);
      hide CountMints, Paid, Accepted, Recorded;
      UndoClaimsAt(CountMints(t.mints, p.mintable, left, claims), claims, 0, Recorded(t, height, claims, 0));
    }
  }

  /** A claim that undo finds although it did not mint. */
  lemma Unsettled(t: DuneTables, stone: Dunestone, outputs: nat, height: nat) returns (i: nat, key: DuneId)
    requires !Settles(t, stone, outputs, height)
    ensures var claims := Claims(stone.edicts);
      && ClaimAt(claims, Recorded(t, height, claims, 0), i, key)
      && var a := Accepted(t, height, claims[i]);
      !(a.Some? && a.value > 0 && Serves(stone.edicts, outputs, claims[i]))
  {
    var claims := Claims(stone.edicts);
    var j: nat;
    if !ClaimsPay(t, stone, outputs, height) {
      var c :| c in claims && Accepted(t, height, c).Some?
        && !(Accepted(t, height, c).value > 0 && Serves(stone.edicts, outputs, c));
      i :| i < |claims| && claims[i] == c;
      j := i;
    } else {
      j, i :| j < |claims| && i < |claims| && Slot(j) == Slot(i) && Accepted(t, height, claims[j]).Some?
        && Unpack(claims[i]).Some? && !Accepted(t, height, claims[i]).Some?;
    }
    key := Unpack(claims[i]).value;
    assert AcceptedIn(t, height, claims, 0, Slot(i));
    RecordedIff(t, height, claims, 0, Slot(i));
  }

  lemma {:induction false} AllPaidRestored(t: DuneTables, stone: Dunestone, p: Pools, height: nat, newId: nat)
    requires NoZeros(t.mints)
    requires p.mintable == Limits(t, height, Claims(stone.edicts)) && Settles(t, stone, |p.given|, height)
    ensures var claims := Claims(stone.edicts);
      UndoClaims(CountMints(t.mints, p.mintable, EdictSteps(p, stone.edicts, newId).mintable, claims), claims, 0,
                 Recorded(t, height, claims, 0)) == Some(t.mints)
  {
    var claims := Claims(stone.edicts);
    var left := EdictSteps(p, stone.edicts, newId).mintable;
    var recorded := Recorded(t, height, claims, 0);
    var counted := CountMints(t.mints, p.mintable, left, claims);
    ClaimsIncreasing(stone.edicts);
    CountMintsLaw(t.mints, p.mintable, left, claims);
    UndoClaimsAt(counted, claims, 0, recorded);
    forall i: nat, key | ClaimAt(claims, recorded, i, key) ensures Paid(p.mintable, left, claims, key) {
      RecordedPaidIff(t, stone, p, height, newId, i, key);
      SettledAt(t, stone, |p.given|, height, i, key);
    }
    forall key | Paid(p.mintable, left, claims, key) ensures exists i: nat :: ClaimAt(claims, recorded, i, key) {
      PaidWasRecorded(t, height, stone, p.mintable, left, key);
    }
    var undone := UndoClaims(counted, claims, 0, recorded).value;
    forall key ensures Get(undone, key) == Get(t.mints, key) {
      if i: nat :| ClaimAt(claims, recorded, i, key) {
        assert Get(undone, key) == Get(counted, key) - 1;
      }
    }
    TablesEqual(undone, t.mints);
  }

  lemma SettledAt(t: DuneTables, stone: Dunestone, outputs: nat, height: nat, i: nat, key: DuneId)
    requires Settles(t, stone, outputs, height)
    requires ClaimAt(Claims(stone.edicts), Recorded(t, height, Claims(stone.edicts), 0), i, key)
    ensures var a := Accepted(t, height, Claims(stone.edicts)[i]);
      a.Some? && a.value > 0 && Serves(stone.edicts, outputs, Claims(stone.edicts)[i])
  {
    var claims := Claims(stone.edicts);
    RecordedIff(t, height, claims, 0, Slot(i));
    var j: nat :| j < |claims| && Slot(j) == Slot(i) && Accepted(t, height, claims[j]).Some?;
    assert claims[i] in claims;
  }

  // ----- what etchings and edicts mean -----

  ghost predicate NotBefore(h: nat, bound: Option<nat>) {
    bound.Some? ==> bound.value <= h
  }

  ghost predicate NotPast(h: nat, bound: Option<nat>) {
    bound.Some? ==> h < bound.value
  }

  function Relative(height: nat, offset: Option<nat>): Option<nat> {
    if offset.Some? then Some(SaturatingAdd(height, offset.value)) else None
  }

  /** A dune etched with mint terms is open at height `h` exactly if none of its four
      bounds, absolute or relative to its own height, speaks against it. */
  lemma MintWindowIff(stone: Dunestone, name: nat, height: nat, h: nat)
    requires !stone.cenotaph && stone.etching.Some? && stone.etching.value.terms.Some?
    ensures var m := stone.etching.value.terms.value;
      var e := EntryTerms(stone, name, height);
      NotBefore(h, e.start) && NotPast(h, e.end)
      <==> NotBefore(h, m.heightStart) && NotBefore(h, Relative(height, m.offsetStart))
           && NotPast(h, m.heightEnd) && NotPast(h, Relative(height, m.offsetEnd))
  {
  }

  lemma {:induction false} FirstSpendableIs(outputs: seq<TxOut>, from: nat)
    requires from <= |outputs|
    ensures var r := FirstSpendable(outputs, from);
      && (r.None? <==> forall i :: from <= i < |outputs| ==> outputs[i].opReturn)
      && (r.Some? ==> from <= r.value < |outputs| && !outputs[r.value].opReturn
                      && forall i :: from <= i < r.value ==> outputs[i].opReturn)
    decreases |outputs| - from
  {
    if from < |outputs| && outputs[from].opReturn {
      FirstSpendableIs(outputs, from + 1);
    }
  }

  /** The pointer, if it names an output. */
  function Pointed(tx: Tx): Option<nat> {
    if tx.dunestone.Some? && tx.dunestone.value.pointer.Some? && tx.dunestone.value.pointer.value < |tx.outputs|
    then tx.dunestone.value.pointer else None
  }

  /** Leftovers of a transaction that is not a cenotaph go to the output its pointer
      names; if it names none, to the first output that is not OP_RETURN; and they
      are burned only if there is none either. */
  lemma LeftoversGo(tx: Tx, r: DuneResult, unallocated: Balances, v: nat, id: nat)
    requires |r.outputs| == |tx.outputs| && v < |tx.outputs|
    requires !(tx.dunestone.Some? && tx.dunestone.value.cenotaph)
    ensures var q := Leftovers(tx, r, unallocated);
      Get(q.outputs[v], id)
      == if DefaultOutput(tx) == Some(v) then AddU128(Get(r.outputs[v], id), Get(unallocated, id))
         else Get(r.outputs[v], id)
    ensures Pointed(tx).Some? ==> DefaultOutput(tx) == Pointed(tx)
    ensures Pointed(tx).None? ==>
      (DefaultOutput(tx) == Some(v) <==> !tx.outputs[v].opReturn && forall i :: 0 <= i < v ==> tx.outputs[i].opReturn)
    ensures Pointed(tx).None? ==>
      (DefaultOutput(tx).None? <==> forall i :: 0 <= i < |tx.outputs| ==> tx.outputs[i].opReturn)
  {
    FirstSpendableIs(tx.outputs, 0);
  }

  // ----- invariant of the dune tables -----

  /** Name and id tables are mutually inverse, reserved names lie below the
      counter, ids are packable and no mint count passes its cap. */
  ghost predicate DuneInv(t: DuneTables) {
    && NoZeros(t.mints)
    && (forall name <- t.idByName :: t.idByName[name] in t.terms && t.terms[t.idByName[name]].name == name)
    && (forall id <- t.terms :: t.terms[id].name in t.idByName && t.idByName[t.terms[id].name] == id)
    && (forall name <- t.idByName :: RESERVED <= name ==> name - RESERVED < t.reserved)
    && (forall id <- t.terms :: Packable(id))
    && (forall id <- t.mints :: id in t.terms && t.mints[id] <= Cap(t.terms[id]))
  }

  lemma EtchFresh(t: DuneTables, etching: Etching, minimum: nat)
    requires DuneInv(t)
    ensures Etched(t, etching, minimum).Some? ==> Etched(t, etching, minimum).value.1 !in t.idByName
  {
  }

  /** A transaction is undone exactly if and only if it is reversible. */
  lemma UndoIff(t: DuneTables, tx: Tx, index: nat, height: nat, minimum: nat, unallocated: Balances)
    requires DuneInv(t) && DuneId(height, index) !in t.terms
    ensures var r := IndexDunes(t, tx, index, height, minimum, unallocated);
      UndoDunes(r.tables, tx, index, height, r.recorded) == Some(t) <==> Reversible(t, tx, index, height)
  {
    hide StartPools, EndPools, TablesAfter, UndoClaims, Claims, Settles;
    if tx.dunestone.Some? {
      var stone := tx.dunestone.value;
      var start := StartPools(t, tx, stone, index, height, minimum, unallocated);
      var end := EndPools(t, tx, stone, index, height, minimum, unallocated);
      UndoEtchRestores(t, stone, index, height, minimum, start, end);
      UndoSplits(t, TablesAfter(t, stone, index, height, minimum, start, end), tx, index, height,
                 Deciphered(t, tx, stone, index, height, minimum, unallocated).recorded);
      StoneMintsRestoredIff(t, tx, stone, index, height, minimum, unallocated);
    }
  }

  /** Undo takes back the etching and the claims independently. */
  lemma UndoSplits(t: DuneTables, t3: DuneTables, tx: Tx, index: nat, height: nat, recorded: seq<nat>)
    requires tx.dunestone.Some?
    requires var stone := tx.dunestone.value;
      var u := if stone.etching.Some? then UndoEtch(t3, stone.etching.value, DuneId(height, index)) else Some(t3);
      u.Some? && u.value.mints == t3.mints && u.value.terms == t.terms && u.value.idByName == t.idByName
    ensures var stone := tx.dunestone.value;
      var u := if stone.etching.Some? then UndoEtch(t3, stone.etching.value, DuneId(height, index)) else Some(t3);
      UndoDunes(t3, tx, index, height, recorded) == Some(t)
      <==> u.value.reserved == t.reserved
           && UndoClaims(t3.mints, Claims(stone.edicts), 0, recorded) == Some(t.mints)
  {
  }

  lemma {:induction false} StoneMintsRestoredIff(
    t: DuneTables, tx: Tx, stone: Dunestone, index: nat, height: nat, minimum: nat,
                              unallocated: Balances)
    requires DuneInv(t)
    ensures var start := StartPools(t, tx, stone, index, height, minimum, unallocated);
      var end := EndPools(t, tx, stone, index, height, minimum, unallocated);
      UndoClaims(TablesAfter(t, stone, index, height, minimum, start, end).mints, Claims(stone.edicts), 0,
                 Deciphered(t, tx, stone, index, height, minimum, unallocated).recorded) == Some(t.mints)
      <==> (!stone.cenotaph ==> Settles(t, stone, |tx.outputs|, height))
  {
    if stone.cenotaph {
      NoClaimsUndone(t.mints, Claims(stone.edicts), 0);
    } else {
      var start := StartPools(t, tx, stone, index, height, minimum, unallocated);
      var t1 := AfterEtch(t, stone, minimum);
      SettlesSame(t, t1, stone, |tx.outputs|, height);
      MintsRestoredIff(t1, stone, start, height, NewId(height, index));
    }
  }

  lemma SettlesSame(t: DuneTables, t1: DuneTables, stone: Dunestone, outputs: nat, height: nat)
    requires t1.terms == t.terms && t1.mints == t.mints
    ensures Settles(t1, stone, outputs, height) == Settles(t, stone, outputs, height)
  {
    assert forall c :: Accepted(t1, height, c) == Accepted(t, height, c);
  }

  lemma NoClaimsUndone(m: map<DuneId, nat>, claims: seq<nat>, from: nat)
    requires from <= |claims|
    ensures UndoClaims(m, claims, from, []) == Some(m)
    decreases |claims| - from
  {
  }

  lemma UndoEtchRestores(t: DuneTables, stone: Dunestone, index: nat, height: nat, minimum: nat,
                         start: Pools, end: Pools)
    requires DuneInv(t) && DuneId(height, index) !in t.terms
    ensures var t3 := TablesAfter(t, stone, index, height, minimum, start, end);
      var u := if stone.etching.Some? then UndoEtch(t3, stone.etching.value, DuneId(height, index)) else Some(t3);
      && u.Some?
      && u.value.mints == t3.mints
      && u.value.terms == t.terms
      && u.value.idByName == t.idByName
      && (u.value.reserved == t.reserved
          <==> (stone.etching.Some? && stone.etching.value.dune.None? ==> index < 0x1_0000))
  {
    var e := Etching0(t, stone, minimum);
    var t1 := AfterEtch(t, stone, minimum);
    var t2 := t1.(mints := TablesAfter(t, stone, index, height, minimum, start, end).mints);
    AfterEtchKeepsInv(t, stone, minimum);
    if e.Some? && index < 0x1_0000 {
      UndoCreated(t2, DuneId(height, index), EntryTerms(stone, e.value.1, height), stone.etching.value);
    }
  }

  /** Creating an entry and undoing the etching that made it. */
  lemma UndoCreated(t: DuneTables, id: DuneId, terms: DuneTerms, etching: Etching)
    requires id !in t.terms && terms.name !in t.idByName
    requires etching.dune.None? ==> t.reserved > 0
    ensures UndoEtch(CreateEntry(t, id, terms), etching, id)
         == Some(if etching.dune.Some? then t else t.(reserved := t.reserved - 1))
  {
    assert t.idByName[terms.name := id] - {terms.name} == t.idByName;
    assert t.terms[id := terms] - {id} == t.terms;
  }

  /** What the accepted claims of a transaction do to the mint counts. */
  lemma {:induction false} MintsAfter(t: DuneTables, stone: Dunestone, index: nat, height: nat, minimum: nat,
                                      start: Pools, end: Pools)
    requires NoZeros(t.mints)
    requires stone.cenotaph ==> start.mintable == map[]
    ensures var t3 := TablesAfter(t, stone, index, height, minimum, start, end);
      && NoZeros(t3.mints)
      && (forall key :: Get(t3.mints, key)
            == Get(t.mints, key) + if Paid(start.mintable, end.mintable, Claims(stone.edicts), key) then 1 else 0)
  {
    ClaimsIncreasing(stone.edicts);
    CountMintsLaw(t.mints, start.mintable, end.mintable, Claims(stone.edicts));
  }

  lemma {:induction false} StartMintable(t: DuneTables, tx: Tx, stone: Dunestone, index: nat, height: nat, minimum: nat,
                                         unallocated: Balances)
    ensures var start := StartPools(t, tx, stone, index, height, minimum, unallocated);
      && (stone.cenotaph ==> start.mintable == map[])
      && (forall c <- start.mintable :: Accepted(t, height, c) == Some(start.mintable[c]) && c in Claims(stone.edicts))
  {
  }

  /** The tables stay consistent and within caps. */
  lemma IndexKeepsInv(t: DuneTables, tx: Tx, index: nat, height: nat, minimum: nat, unallocated: Balances)
    requires DuneInv(t) && DuneId(height, index) !in t.terms && height < U64
    ensures DuneInv(IndexDunes(t, tx, index, height, minimum, unallocated).tables)
  {
    if tx.dunestone.Some? {
      var stone := tx.dunestone.value;
      var start := StartPools(t, tx, stone, index, height, minimum, unallocated);
      var end := EndPools(t, tx, stone, index, height, minimum, unallocated);
      StartMintable(t, tx, stone, index, height, minimum, unallocated);
      MintsAfter(t, stone, index, height, minimum, start, end);
      TablesKeepInv(t, stone, index, height, minimum, start, end);
    }
  }

  lemma {:induction false} TablesKeepInv(t: DuneTables, stone: Dunestone, index: nat, height: nat, minimum: nat,
                      start: Pools, end: Pools)
    requires DuneInv(t) && DuneId(height, index) !in t.terms && height < U64
    requires var t3 := TablesAfter(t, stone, index, height, minimum, start, end);
      && NoZeros(t3.mints)
      && (forall key :: Get(t3.mints, key)
            == Get(t.mints, key) + if Paid(start.mintable, end.mintable, Claims(stone.edicts), key) then 1 else 0)
      && (forall c <- start.mintable :: Accepted(t, height, c).Some?)
    ensures DuneInv(TablesAfter(t, stone, index, height, minimum, start, end))
  {
    var t1 := AfterEtch(t, stone, minimum);
    AfterEtchKeepsInv(t, stone, minimum);
    var m := TablesAfter(t, stone, index, height, minimum, start, end).mints;
    CapsKept(t, height, Claims(stone.edicts), start.mintable, end.mintable, m);
    MintsKeepInv(t1, m);
    if Etching0(t, stone, minimum).Some? && index < 0x1_0000 {
      EntryKeepsInv(t1.(mints := m), DuneId(height, index),
                    EntryTerms(stone, Etching0(t, stone, minimum).value.1, height));
    }
  }

  lemma AfterEtchKeepsInv(t: DuneTables, stone: Dunestone, minimum: nat)
    requires DuneInv(t)
    ensures var t1 := AfterEtch(t, stone, minimum);
      DuneInv(t1) && t1.terms == t.terms && t1.idByName == t.idByName && t1.mints == t.mints
    ensures var e := Etching0(t, stone, minimum);
      e.Some? ==> (
        && e.value.1 !in t.idByName
        && (RESERVED <= e.value.1 ==> e.value.1 - RESERVED < AfterEtch(t, stone, minimum).reserved))
  {
  }

  lemma MintsKeepInv(t: DuneTables, m: map<DuneId, nat>)
    requires DuneInv(t) && NoZeros(m)
    requires forall key <- m :: key in t.terms && m[key] <= Cap(t.terms[key])
    ensures DuneInv(t.(mints := m))
  {
  }

  lemma {:induction false} CapsKept(t: DuneTables, height: nat, claims: seq<nat>, limits: Balances, left: Balances,
                 m: map<DuneId, nat>)
    requires DuneInv(t)
    requires forall key :: Get(m, key) == Get(t.mints, key) + if Paid(limits, left, claims, key) then 1 else 0
    requires forall c <- limits :: Accepted(t, height, c).Some?
    requires NoZeros(m)
    ensures forall key <- m :: key in t.terms && m[key] <= Cap(t.terms[key])
  {
    forall key | key in m ensures key in t.terms && m[key] <= Cap(t.terms[key]) {
      assert Get(m, key) == m[key];
      PackIff(Pack(key), key);
      if Paid(limits, left, claims, key) {
        assert Accepted(t, height, Pack(key)) == Mintable(t, key, height);
      }
    }
  }

  lemma EntryKeepsInv(t: DuneTables, id: DuneId, terms: DuneTerms)
    requires DuneInv(t) && id !in t.terms && Packable(id)
    requires terms.name !in t.idByName
    requires RESERVED <= terms.name ==> terms.name - RESERVED < t.reserved
    ensures DuneInv(CreateEntry(t, id, terms))
  {
  }

  /** One transaction mints at most one limit of a dune, counted as one mint. */
  lemma MintWithinLimit(t: DuneTables, tx: Tx, index: nat, height: nat, minimum: nat,
                        unallocated: Balances, c: nat)
    requires NoZeros(t.mints)
    ensures var r := IndexDunes(t, tx, index, height, minimum, unallocated);
      Get(r.minted, c) > 0 ==>
        && Unpack(c).Some?
        && var key := Unpack(c).value;
        && key in t.terms
        && Get(r.minted, c) <= Limit(t.terms[key])
        && Get(r.tables.mints, key) == Get(t.mints, key) + 1
    ensures var r := IndexDunes(t, tx, index, height, minimum, unallocated);
      forall key :: Get(t.mints, key) <= Get(r.tables.mints, key)
  {
    hide StartPools, EndPools, TablesAfter, MintedAmounts;
    if tx.dunestone.Some? {
      var stone := tx.dunestone.value;
      var start := StartPools(t, tx, stone, index, height, minimum, unallocated);
      var end := EndPools(t, tx, stone, index, height, minimum, unallocated);
      StartMintable(t, tx, stone, index, height, minimum, unallocated);
      MintsAfter(t, stone, index, height, minimum, start, end);
      MintedWasPaid(t, height, Claims(stone.edicts), start.mintable, end.mintable, c);
    }
  }

  lemma {:induction false} MintedWasPaid(
    t: DuneTables, height: nat, claims: seq<nat>, limits: Balances, left: Balances, c: nat)
    requires forall k <- limits :: Accepted(t, height, k) == Some(limits[k]) && k in claims
    ensures Get(MintedAmounts(limits, left), c) > 0 ==>
      && Unpack(c).Some?
      && var key := Unpack(c).value;
      && key in t.terms
      && Get(MintedAmounts(limits, left), c) <= Limit(t.terms[key])
      && Paid(limits, left, claims, key)
  {
    if c in limits {
      PackIff(c, Unpack(c).value);
    }
  }

  // ----- undo never overshoots -----

  /** `d` is `e` with some mints too few or the reserved counter too high. */
  ghost predicate Off(d: DuneTables, e: DuneTables) {
    && d.terms == e.terms && d.idByName == e.idByName
    && e.reserved <= d.reserved
    && NoZeros(d.mints)
    && (forall key :: Get(d.mints, key) <= Get(e.mints, key))
  }

  /** The undone tables are off `t`, and equal to it only if `d` was `after`. */
  ghost predicate ExactOnly(undone: Option<DuneTables>, t: DuneTables, d: DuneTables, after: DuneTables) {
    undone.Some? ==> Off(undone.value, t) && (undone.value == t ==> d == after)
  }

  /** Undoing claims from too-low counts stays too low, and is exact only from
      the exact counts. */
  lemma {:induction false} ClaimsUndoneOff(
    e: map<DuneId, nat>, counted: map<DuneId, nat>, m: map<DuneId, nat>,
    limits: Balances, left: Balances, claims: seq<nat>, recorded: seq<nat>)
    requires Increasing(claims) && NoZeros(m) && NoZeros(counted)
    requires forall key :: Get(counted, key) == Get(e, key) + if Paid(limits, left, claims, key) then 1 else 0
    requires forall key :: Paid(limits, left, claims, key) ==> exists i: nat :: ClaimAt(claims, recorded, i, key)
    requires forall key :: Get(m, key) <= Get(counted, key)
    ensures UndoClaims(m, claims, 0, recorded).Some? ==>
      var u := UndoClaims(m, claims, 0, recorded).value;
      && NoZeros(u)
      && (forall key :: Get(u, key) <= Get(e, key))
      && (u == e ==> m == counted)
  {
    UndoClaimsAt(m, claims, 0, recorded);
    var r := UndoClaims(m, claims, 0, recorded);
    if r.Some? {
      var u := r.value;
      forall key
        ensures Get(u, key) <= Get(e, key)
        ensures u == e ==> Get(m, key) == Get(counted, key)
      {
        if i: nat :| ClaimAt(claims, recorded, i, key) {
          assert Get(u, key) == Get(m, key) - 1;
        } else {
          assert Get(u, key) == Get(m, key);
        }
      }
      if u == e {
        TablesEqual(m, counted);
      }
    }
  }

  lemma {:induction false} PaidWasRecorded(
    t: DuneTables, height: nat, stone: Dunestone, limits: Balances, left: Balances, key: DuneId)
    requires forall c <- limits :: Accepted(t, height, c).Some?
    requires Paid(limits, left, Claims(stone.edicts), key)
    ensures exists i: nat :: ClaimAt(Claims(stone.edicts), Recorded(t, height, Claims(stone.edicts), 0), i, key)
  {
    var claims := Claims(stone.edicts);
    var i: nat :| i < |claims| && claims[i] == Pack(key);
    PackIff(claims[i], key);
    assert AcceptedIn(t, height, claims, 0, Slot(i));
    RecordedIff(t, height, claims, 0, Slot(i));
    assert ClaimAt(claims, Recorded(t, height, claims, 0), i, key);
  }

  /** An accepted etching does not take the name of a live dune. */
  ghost predicate GetsNewName(t: DuneTables, stone: Dunestone, minimum: nat) {
    Etching0(t, stone, minimum).Some? ==> Etching0(t, stone, minimum).value.1 !in t.idByName
  }

  lemma EtchUndoneOff(t: DuneTables, stone: Dunestone, index: nat, height: nat, minimum: nat,
                      start: Pools, end: Pools, d: DuneTables)
    requires GetsNewName(t, stone, minimum) && DuneId(height, index) !in t.terms
    requires Off(d, TablesAfter(t, stone, index, height, minimum, start, end))
    ensures var u := if stone.etching.Some? then UndoEtch(d, stone.etching.value, DuneId(height, index)) else Some(d);
      u.Some? ==>
        && u.value.mints == d.mints && u.value.terms == t.terms && u.value.idByName == t.idByName
        && t.reserved <= u.value.reserved
        && (u.value.reserved == t.reserved
            ==> d.reserved == TablesAfter(t, stone, index, height, minimum, start, end).reserved)
  {
    var e := Etching0(t, stone, minimum);
    if e.Some? && index < 0x1_0000 {
      var id := DuneId(height, index);
      var terms := EntryTerms(stone, e.value.1, height);
      assert t.idByName[terms.name := id] - {terms.name} == t.idByName;
      assert t.terms[id := terms] - {id} == t.terms;
    }
  }

  /** Undoing a transaction from tables that are off leaves them off, and is exact
      only from the exact tables. */
  lemma {:induction false} UndoOff(t: DuneTables, tx: Tx, index: nat, height: nat, minimum: nat,
                                   unallocated: Balances, d: DuneTables)
    requires NoZeros(t.mints) && DuneId(height, index) !in t.terms
    requires tx.dunestone.Some? ==> GetsNewName(t, tx.dunestone.value, minimum)
    requires Off(d, IndexDunes(t, tx, index, height, minimum, unallocated).tables)
    ensures var r := IndexDunes(t, tx, index, height, minimum, unallocated);
      ExactOnly(UndoDunes(d, tx, index, height, r.recorded), t, d, r.tables)
  {
    if tx.dunestone.Some? {
      var stone := tx.dunestone.value;
      var start := StartPools(t, tx, stone, index, height, minimum, unallocated);
      var end := EndPools(t, tx, stone, index, height, minimum, unallocated);
      EtchUndoneOff(t, stone, index, height, minimum, start, end, d);
      StoneClaimsOff(t, tx, stone, index, height, minimum, unallocated, d.mints);
      OffCombine(t, TablesAfter(t, stone, index, height, minimum, start, end), d, tx, index, height,
                 Deciphered(t, tx, stone, index, height, minimum, unallocated).recorded);
    }
  }

  lemma OffCombine(t: DuneTables, after: DuneTables, d: DuneTables, tx: Tx, index: nat, height: nat, recorded: seq<nat>)
    requires tx.dunestone.Some? && Off(d, after)
    requires var stone := tx.dunestone.value;
      var u := if stone.etching.Some? then UndoEtch(d, stone.etching.value, DuneId(height, index)) else Some(d);
      u.Some? ==>
        && u.value.mints == d.mints && u.value.terms == t.terms && u.value.idByName == t.idByName
        && t.reserved <= u.value.reserved
        && (u.value.reserved == t.reserved ==> d.reserved == after.reserved)
    requires var r := UndoClaims(d.mints, Claims(tx.dunestone.value.edicts), 0, recorded);
      r.Some? ==>
        && NoZeros(r.value)
        && (forall key :: Get(r.value, key) <= Get(t.mints, key))
        && (r.value == t.mints ==> d.mints == after.mints)
    ensures ExactOnly(UndoDunes(d, tx, index, height, recorded), t, d, after)
  {
  }

  lemma {:induction false} StoneClaimsOff(
    t: DuneTables, tx: Tx, stone: Dunestone, index: nat, height: nat, minimum: nat,
                                          unallocated: Balances, m: map<DuneId, nat>)
    requires NoZeros(t.mints) && NoZeros(m)
    requires var start := StartPools(t, tx, stone, index, height, minimum, unallocated);
      var end := EndPools(t, tx, stone, index, height, minimum, unallocated);
      forall key :: Get(m, key) <= Get(TablesAfter(t, stone, index, height, minimum, start, end).mints, key)
    ensures var start := StartPools(t, tx, stone, index, height, minimum, unallocated);
      var end := EndPools(t, tx, stone, index, height, minimum, unallocated);
      var recorded := Deciphered(t, tx, stone, index, height, minimum, unallocated).recorded;
      var r := UndoClaims(m, Claims(stone.edicts), 0, recorded);
      r.Some? ==>
        && NoZeros(r.value)
        && (forall key :: Get(r.value, key) <= Get(t.mints, key))
        && (r.value == t.mints ==> m == TablesAfter(t, stone, index, height, minimum, start, end).mints)
  {
    var start := StartPools(t, tx, stone, index, height, minimum, unallocated);
    var end := EndPools(t, tx, stone, index, height, minimum, unallocated);
    var counted := TablesAfter(t, stone, index, height, minimum, start, end).mints;
    var claims := Claims(stone.edicts);
    StartMintable(t, tx, stone, index, height, minimum, unallocated);
    MintsAfter(t, stone, index, height, minimum, start, end);
    ClaimsIncreasing(stone.edicts);
    if stone.cenotaph {
      NoClaimsUndone(m, claims, 0);
    } else {
      var t1 := AfterEtch(t, stone, minimum);
      forall key | Paid(start.mintable, end.mintable, claims, key)
        ensures exists i: nat :: ClaimAt(claims, Recorded(t1, height, claims, 0), i, key)
      {
        PaidWasRecorded(t1, height, stone, start.mintable, end.mintable, key);
      }
      ClaimsUndoneOff(t.mints, counted, m, start.mintable, end.mintable, claims, Recorded(t1, height, claims, 0));
    }
  }
}
