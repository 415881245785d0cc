/** Who etches and who mints, of a whole transaction: which etchings are accepted, what
    they set, which claims are open, and how much each of them mints. */
module MintLaws {
  import opened Prelude
  import opened ChainTypes
  import opened DuneLedger
  import opened DuneLaws

  // ----- etchings -----

  /** The transaction asks to etch, and this is the name it gets: the one it asks for,
      if that is long enough, not reserved and not taken, else the next reserved one. */
  ghost predicate Etches(t: DuneTables, tx: Tx, minimum: nat, name: nat) {
    && tx.dunestone.Some? && tx.dunestone.value.etching.Some?
    && match tx.dunestone.value.etching.value.dune
       case Some(asked) =>
         name == asked && asked !in t.idByName && minimum <= asked < 6402364363415443603228541259936211926
       case None => name == 6402364363415443603228541259936211926 + t.reserved
  }

  /** A bound relative to the height of the etching, at most the largest u64. */
  function Later(height: nat, offset: Option<nat>): Option<nat> {
    if offset.Some? then Some(Min(height + offset.value, 0xFFFF_FFFF_FFFF_FFFF)) else None
  }

  /** None of the four bounds of terms set at `height` speaks against height `h`. */
  ghost predicate Within(m: MintTerms, height: nat, h: nat) {
    && NotBefore(h, m.heightStart) && NotBefore(h, Later(height, m.offsetStart))
    && NotPast(h, m.heightEnd) && NotPast(h, Later(height, m.offsetEnd))
  }

  /** What an etching asks for is what it sets; a cenotaph sets nothing. */
  ghost predicate Sets(stone: Dunestone, height: nat, terms: DuneTerms) {
    && stone.etching.Some?
    && (if stone.cenotaph || stone.etching.value.terms.None?
        then terms.amount.None? && terms.cap.None? && terms.start.None? && terms.end.None?
        else
          var m := stone.etching.value.terms.value;
          && terms.amount == m.limit && terms.cap == m.cap
          && forall h :: NotBefore(h, terms.start) && NotPast(h, terms.end) <==> Within(m, height, h))
  }

  /** The tables after an etching of this name, or after none. */
  ghost predicate Registers(t: DuneTables, e: DuneTables, stone: Dunestone, id: DuneId, name: nat) {
    && e.idByName == t.idByName[name := id]
    && e.terms.Keys == t.terms.Keys + {id}
    && (forall k <- t.terms :: k != id ==> e.terms[k] == t.terms[k])
    && e.terms[id].name == name && Sets(stone, id.block, e.terms[id])
  }

  lemma EntrySets(stone: Dunestone, name: nat, height: nat)
    requires stone.etching.Some?
    ensures EntryTerms(stone, name, height).name == name && Sets(stone, height, EntryTerms(stone, name, height))
  {
    if !stone.cenotaph && stone.etching.value.terms.Some? {
      forall h
        ensures var m, e := stone.etching.value.terms.value, EntryTerms(stone, name, height);
          NotBefore(h, e.start) && NotPast(h, e.end) <==> Within(m, height, h)
      {
        MintWindowIff(stone, name, height, h);
      }
    }
  }

  lemma EtchedIff(t: DuneTables, tx: Tx, stone: Dunestone, minimum: nat)
    requires tx.dunestone == Some(stone)
    ensures var e := Etching0(t, stone, minimum);
      && (forall name: nat :: e.Some? && e.value.1 == name <==> Etches(t, tx, minimum, name))
      && AfterEtch(t, stone, minimum)
         == t.(reserved := t.reserved + if stone.etching.Some? && stone.etching.value.dune.None? then 1 else 0)
  {
  }

  lemma EtchedTables(t: DuneTables, stone: Dunestone, index: nat, height: nat, minimum: nat, start: Pools, end: Pools)
    ensures var e := Etching0(t, stone, minimum);
      var r := TablesAfter(t, stone, index, height, minimum, start, end);
      && (if e.Some? && index < 0x1_0000 then Registers(t, r, stone, DuneId(height, index), e.value.1)
          else r.idByName == t.idByName && r.terms == t.terms)
      && r.reserved == AfterEtch(t, stone, minimum).reserved
  {
    hide CountMints, Claims, EntryTerms, Sets;
    var e := Etching0(t, stone, minimum);
    if e.Some? {
      EntrySets(stone, e.value.1, height);
    }
  }

  /** Which etchings are accepted, under which name, and what becomes of the tables:
      an accepted one is registered if its index fits in 16 bits, and an unnamed one
      uses up a reserved name either way. */
  lemma EtchIff(t: DuneTables, tx: Tx, index: nat, height: nat, minimum: nat, unallocated: Balances)
    ensures var r := IndexDunes(t, tx, index, height, minimum, unallocated);
      && (forall name: nat :: r.etched == Some(name) <==> Etches(t, tx, minimum, name))
      && (if r.etched.Some? && index < 0x1_0000
          then tx.dunestone.Some? && Registers(t, r.tables, tx.dunestone.value, DuneId(height, index), r.etched.value)
          else r.tables.idByName == t.idByName && r.tables.terms == t.terms)
      && r.tables.reserved
         == t.reserved + if tx.dunestone.Some? && tx.dunestone.value.etching.Some?
                            && tx.dunestone.value.etching.value.dune.None? then 1 else 0
  {
    hide StartPools, EndPools, TablesAfter, Etching0, AfterEtch, Recorded, Registers, Etches;
    if tx.dunestone.Some? {
      var stone := tx.dunestone.value;
      EtchedIff(t, tx, stone, minimum);
      EtchedTables(t, stone, index, height, minimum,
                   StartPools(t, tx, stone, index, height, minimum, unallocated),
                   EndPools(t, tx, stone, index, height, minimum, unallocated));
    } else {
      NoStone(t, tx, minimum);
    }
  }

  lemma NoStone(t: DuneTables, tx: Tx, minimum: nat)
    requires tx.dunestone.None?
    ensures forall name: nat :: !Etches(t, tx, minimum, name)
  {
  }

  // ----- claims -----

  /** A dune is open at a height by the tables: it is known, the height is not before
      its start and before its end, and fewer than its cap were minted. */
  ghost predicate Open(t: DuneTables, key: DuneId, height: nat) {
    && key in t.terms
    && NotBefore(height, t.terms[key].start) && NotPast(height, t.terms[key].end)
    && Get(t.mints, key)
       < if t.terms[key].cap.Some? then t.terms[key].cap.value else 0xFFFF_FFFF_FFFF_FFFF_FFFF_FFFF_FFFF_FFFF
  }

  /** What one claim of the dune may mint at this height. */
  ghost function Allowed(t: DuneTables, tx: Tx, key: DuneId, height: nat): nat {
    if tx.dunestone.Some? && !tx.dunestone.value.cenotaph && Open(t, key, height) && t.terms[key].amount.Some?
    then t.terms[key].amount.value else 0
  }

  function Packed(key: DuneId): nat {
    key.block * 0x1_0000 + key.tx
  }

  /** An edict claims a dune by its packed id with bit 48 set; a dune whose own packed id
      has that bit set cannot be claimed. */
  predicate ClaimsDune(e: Edict, key: DuneId) {
    e.id == 0x1_0000_0000_0000 + Packed(key) && key.block / 0x1_0000_0000 % 2 == 0
  }

  /** The edicts that claim the dune for one of the first `outputs` outputs ask for
      this much, an amount of zero standing for all that is allowed. */
  function Asked(edicts: seq<Edict>, outputs: nat, key: DuneId, allowed: nat): nat {
    if edicts == [] then 0
    else
      (if ClaimsDune(edicts[0], key) && edicts[0].output < outputs
       then if edicts[0].amount == 0 then allowed else edicts[0].amount
       else 0)
      + Asked(edicts[1..], outputs, key, allowed)
  }

  lemma ClaimsDuneIff(e: Edict, key: DuneId)
    requires Packable(key)
    ensures ClaimsDune(e, key) <==> Claim(e.id) == Some(Packed(key))
  {
    var x := Packed(key);
    BitOfPacked(key);
    if e.id == CLAIM_BIT + x {
      assert e.id / CLAIM_BIT == 1 + x / CLAIM_BIT;
    }
  }

  lemma BitOfPacked(key: DuneId)
    requires Packable(key)
    ensures Packed(key) / CLAIM_BIT == key.block / 0x1_0000_0000
  {
    var q, r := key.block / 0x1_0000_0000, key.block % 0x1_0000_0000;
    assert Packed(key) == q * CLAIM_BIT + (r * 0x1_0000 + key.tx);
  }

  /** Taking edict by edict gives the lesser of what there is and what is asked. */
  lemma {:induction false} TakesAsked(p: Pools, edicts: seq<Edict>, newId: nat, key: DuneId, allowed: nat)
    requires Packable(key) && Packed(key) in p.mintable && p.mintable[Packed(key)] <= allowed
    ensures var left := EdictSteps(p, edicts, newId).mintable;
      && Packed(key) in left
      && left[Packed(key)] + Min(p.mintable[Packed(key)], Asked(edicts, |p.given|, key, allowed))
         == p.mintable[Packed(key)]
    decreases |edicts|
  {
    if edicts != [] {
      ClaimsDuneIff(edicts[0], key);
      var q := EdictStep(p, edicts[0], newId);
      EdictConserves(p, edicts[0], newId, Packed(key));
      TakesAsked(q, edicts[1..], newId, key, allowed);
    }
  }

  lemma {:induction false} NothingAsked(edicts: seq<Edict>, outputs: nat, key: DuneId, allowed: nat)
    requires Packable(key) && Packed(key) !in Claims(edicts)
    ensures Asked(edicts, outputs, key, allowed) == 0
  {
    if edicts != [] {
      ClaimsDuneIff(edicts[0], key);
      ClaimsIncreasing(edicts);
      ClaimsIncreasing(edicts[1..]);
      assert edicts[0] in edicts;
      NothingAsked(edicts[1..], outputs, key, allowed);
    }
  }

  /** An edict claims the dune for an output that exists. */
  ghost predicate Claimed(edicts: seq<Edict>, outputs: nat, key: DuneId) {
    exists i :: 0 <= i < |edicts| && ClaimsDune(edicts[i], key) && edicts[i].output < outputs
  }

  lemma {:induction false} AskedIff(edicts: seq<Edict>, outputs: nat, key: DuneId, allowed: nat)
    requires allowed > 0
    ensures Asked(edicts, outputs, key, allowed) > 0 <==> Claimed(edicts, outputs, key)
  {
    if edicts != [] {
      AskedIff(edicts[1..], outputs, key, allowed);
      if Claimed(edicts[1..], outputs, key) {
        var i :| 0 <= i < |edicts[1..]| && ClaimsDune(edicts[1..][i], key) && edicts[1..][i].output < outputs;
        assert edicts[i + 1] == edicts[1..][i];
      }
      if Claimed(edicts, outputs, key) && !(ClaimsDune(edicts[0], key) && edicts[0].output < outputs) {
        var i :| 0 <= i < |edicts| && ClaimsDune(edicts[i], key) && edicts[i].output < outputs;
        assert edicts[1..][i - 1] == edicts[i];
      }
    }
  }

  lemma LimitsAre(t: DuneTables, height: nat, claims: seq<nat>, key: DuneId)
    requires Packable(key)
    ensures var m, c := Limits(t, height, claims), Packed(key);
      && (c in m <==> c in claims && Open(t, key, height))
      && (c in m ==> m[c] == if t.terms[key].amount.Some? then t.terms[key].amount.value else 0)
  {
    PackIff(Packed(key), key);
  }

  /** A transaction mints of a dune the lesser of what is allowed and what its edicts
      ask, and counts one mint if that is anything. */
  lemma {:induction false} MintsAre(
    t: DuneTables, tx: Tx, index: nat, height: nat, minimum: nat, unallocated: Balances, key: DuneId)
    requires NoZeros(t.mints) && Packable(key)
    ensures var r := IndexDunes(t, tx, index, height, minimum, unallocated);
      var allowed := Allowed(t, tx, key, height);
      var asked := if tx.dunestone.Some? then Asked(tx.dunestone.value.edicts, |tx.outputs|, key, allowed) else 0;
      && Get(r.minted, Packed(key)) == Min(allowed, asked)
      && Get(r.tables.mints, key) == Get(t.mints, key) + if Min(allowed, asked) > 0 then 1 else 0
  {
    if tx.dunestone.Some? {
      StoneMintsAre(t, tx, tx.dunestone.value, index, height, minimum, unallocated, key);
      hide StartPools, EndPools, TablesAfter, Allowed, Asked, Recorded;
    }
  }

  lemma {:induction false} StoneMintsAre(
    t: DuneTables, tx: Tx, stone: Dunestone, index: nat, height: nat, minimum: nat, unallocated: Balances, key: DuneId)
    requires NoZeros(t.mints) && Packable(key) && tx.dunestone == Some(stone)
    ensures var start := StartPools(t, tx, stone, index, height, minimum, unallocated);
      var end := EndPools(t, tx, stone, index, height, minimum, unallocated);
      var allowed := Allowed(t, tx, key, height);
      var minted := Min(allowed, Asked(stone.edicts, |tx.outputs|, key, allowed));
      && Get(MintedAmounts(start.mintable, end.mintable), Packed(key)) == minted
      && Get(TablesAfter(t, stone, index, height, minimum, start, end).mints, key)
         == Get(t.mints, key) + if minted > 0 then 1 else 0
  {
    hide StartPools, EndPools, TablesAfter, Allowed, Asked, MintedAmounts, Paid;
    var start := StartPools(t, tx, stone, index, height, minimum, unallocated);
    var end := EndPools(t, tx, stone, index, height, minimum, unallocated);
    StartMintable(t, tx, stone, index, height, minimum, unallocated);
    MintsAfter(t, stone, index, height, minimum, start, end);
    EndMintable(t, tx, stone, index, height, minimum, unallocated, key);
    var allowed := Allowed(t, tx, key, height);
    PaidIff(start.mintable, end.mintable, Claims(stone.edicts), key,
            Min(allowed, Asked(stone.edicts, |tx.outputs|, key, allowed)));
  }

  lemma PaidIff(start: Balances, end: Balances, claims: seq<nat>, key: DuneId, minted: nat)
    requires Packable(key)
    requires Packed(key) in start ==> Get(end, Packed(key)) + minted == start[Packed(key)] && Packed(key) in claims
    requires Packed(key) !in start ==> minted == 0
    ensures Get(MintedAmounts(start, end), Packed(key)) == minted
    ensures Paid(start, end, claims, key) <==> minted > 0
  {
  }

  lemma {:induction false} EndMintable(
    t: DuneTables, tx: Tx, stone: Dunestone, index: nat, height: nat, minimum: nat, unallocated: Balances, key: DuneId)
    requires Packable(key) && tx.dunestone == Some(stone)
    ensures var start := StartPools(t, tx, stone, index, height, minimum, unallocated).mintable;
      var end := EndPools(t, tx, stone, index, height, minimum, unallocated).mintable;
      var allowed := Allowed(t, tx, key, height);
      var minted := Min(allowed, Asked(stone.edicts, |tx.outputs|, key, allowed));
      && (Packed(key) in start ==> Get(end, Packed(key)) + minted == start[Packed(key)])
      && (Packed(key) !in start ==> minted == 0)
      && (Packed(key) in start ==> Packed(key) in Claims(stone.edicts))
  {
    var p := StartPools(t, tx, stone, index, height, minimum, unallocated);
    var allowed := Allowed(t, tx, key, height);
    if !stone.cenotaph {
      var t1 := AfterEtch(t, stone, minimum);
      LimitsAre(t1, height, Claims(stone.edicts), key);
      if Packed(key) in p.mintable {
        TakesAsked(p, stone.edicts, NewId(height, index), key, allowed);
      } else if Packed(key) !in Claims(stone.edicts) {
        NothingAsked(stone.edicts, |tx.outputs|, key, allowed);
      }
    }
  }

  /** A claim mints something if and only if its dune is open at the height and has a
      positive limit, and some edict claims it for an output that exists. */
  lemma {:induction false} MintsIff(
    t: DuneTables, tx: Tx, index: nat, height: nat, minimum: nat, unallocated: Balances, key: DuneId)
    requires NoZeros(t.mints) && Packable(key)
    ensures var r := IndexDunes(t, tx, index, height, minimum, unallocated);
      Get(r.minted, Packed(key)) > 0
      <==> tx.dunestone.Some? && !tx.dunestone.value.cenotaph && Open(t, key, height)
           && (t.terms[key].amount.Some? && t.terms[key].amount.value > 0)
           && Claimed(tx.dunestone.value.edicts, |tx.outputs|, key)
  {
    MintsAre(t, tx, index, height, minimum, unallocated, key);
    var allowed := Allowed(t, tx, key, height);
    if allowed > 0 {
      AskedIff(tx.dunestone.value.edicts, |tx.outputs|, key, allowed);
    }
    hide IndexDunes, Open, Asked, Claimed;
  }

  // ----- new dunes -----

  /** What the edicts hand out of the dune that their own transaction etches, an amount
      of zero standing for all that there is. */
  function AskedNew(edicts: seq<Edict>, outputs: nat, all: nat): nat {
    if edicts == [] then 0
    else
      (if edicts[0].id == 0 && edicts[0].output < outputs
       then if edicts[0].amount == 0 then all else edicts[0].amount
       else 0)
      + AskedNew(edicts[1..], outputs, all)
  }

  lemma {:induction false} IssuesAsked(p: Pools, edicts: seq<Edict>, newId: nat, all: nat)
    requires p.issuance.Some? && p.issuance.value <= all
    ensures var left := EdictSteps(p, edicts, newId).issuance;
      left.Some? && left.value + Min(p.issuance.value, AskedNew(edicts, |p.given|, all)) == p.issuance.value
    decreases |edicts|
  {
    if edicts != [] {
      EdictConserves(p, edicts[0], newId, newId);
      IssuesAsked(EdictStep(p, edicts[0], newId), edicts[1..], newId, all);
    }
  }

  /** A transaction whose etching is registered issues what its edicts ask, up to the
      largest amount there is; any other issues nothing. */
  lemma {:induction false} IssuedIs(t: DuneTables, tx: Tx, index: nat, height: nat, minimum: nat, unallocated: Balances)
    ensures var r := IndexDunes(t, tx, index, height, minimum, unallocated);
      var all := 0xFFFF_FFFF_FFFF_FFFF_FFFF_FFFF_FFFF_FFFF;
      r.issued
      == if r.etched.Some? && index < 0x1_0000 && tx.dunestone.Some? && !tx.dunestone.value.cenotaph
         then Min(all, AskedNew(tx.dunestone.value.edicts, |tx.outputs|, all)) else 0
  {
    if tx.dunestone.Some? {
      var stone := tx.dunestone.value;
      var p := StartPools(t, tx, stone, index, height, minimum, unallocated);
      if p.issuance.Some? && !stone.cenotaph {
        IssuesAsked(p, stone.edicts, NewId(height, index), 0xFFFF_FFFF_FFFF_FFFF_FFFF_FFFF_FFFF_FFFF);
      }
      hide TablesAfter, Recorded, MintedAmounts, EdictSteps, Claims, Limits, AskedNew;
    }
  }

  // ----- cenotaphs -----

  /** A cenotaph hands out nothing: whatever its inputs held is burned, and it neither
      mints nor issues. */
  lemma {:induction false} CenotaphBurns(
    t: DuneTables, tx: Tx, index: nat, height: nat, minimum: nat, unallocated: Balances, v: nat, id: nat)
    requires tx.dunestone.Some? && tx.dunestone.value.cenotaph && v < |tx.outputs|
    ensures var r := IndexDunes(t, tx, index, height, minimum, unallocated);
      && Get(r.outputs[v], id) == 0 && Get(r.burned, id) == Get(unallocated, id)
      && Get(r.minted, id) == 0 && r.issued == 0 && r.recorded == [] && r.tables.mints == t.mints
  {
    EtchedIff(t, tx, tx.dunestone.value, minimum);
    hide Etched, EntryTerms, Recorded, Claims, Limits;
  }
}
