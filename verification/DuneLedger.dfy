/** The dune tables and what one transaction does to them: etchings, claims,
    edicts, and the undo of all three. */
module DuneLedger {
  import opened Prelude
  import opened ChainTypes

  const CLAIM_BIT: nat := 0x1_0000_0000_0000
  const RESERVED: nat := 6402364363415443603228541259936211926
  const MAX_U128: u128 := U128 - 1

  datatype DuneTerms = DuneTerms(
    name: nat, amount: Option<u128>, cap: Option<u128>, start: Option<nat>, end: Option<nat>)

  /** name to id, id to terms, id to mint count (zero is absent), reserved counter. */
  datatype DuneTables = DuneTables(
    idByName: map<nat, DuneId>, terms: map<DuneId, DuneTerms>, mints: map<DuneId, nat>, reserved: nat)

  function Claim(id: nat): Option<nat> {
    if id / CLAIM_BIT % 2 == 1 then Some(id - CLAIM_BIT) else None
  }

  function Pack(id: DuneId): nat {
    id.block * 0x1_0000 + id.tx
  }

  function Unpack(n: nat): Option<DuneId> {
    if n / 0x1_0000 < U64 then Some(DuneId(n / 0x1_0000, n % 0x1_0000)) else None
  }

  /** The ids that survive packing: u64 height and 16-bit index. */
  predicate Packable(id: DuneId) {
    id.tx < 0x1_0000 && id.block < U64
  }

  /** Packing and unpacking are mutually inverse on packable ids. */
  lemma PackIff(n: nat, id: DuneId)
    ensures Unpack(n) == Some(id) <==> Packable(id) && Pack(id) == n
  {
    if Packable(id) {
      ShiftBy16(id.block, id.tx);
    }
  }

  lemma ShiftBy16(b: nat, t: nat)
    requires t < 0x1_0000
    ensures (b * 0x1_0000 + t) / 0x1_0000 == b && (b * 0x1_0000 + t) % 0x1_0000 == t
  {
  }

  // ----- etching -----

  /** The name an etching gets, and the tables with the reserved counter moved. */
  function Etched(t: DuneTables, etching: Etching, minimum: nat): Option<(DuneTables, nat)> {
    match etching.dune
    case Some(name) =>
      if name < minimum || RESERVED <= name || name in t.idByName then None else Some((t, name))
    case None =>
      Some((t.(reserved := t.reserved + 1), RESERVED + t.reserved))
  }

  function SaturatingAdd(a: nat, b: nat): nat {
    Min(a + b, U64 - 1)
  }

  /** Combines a relative and an absolute bound; `latest` picks the larger. */
  function Bound(height: nat, offset: Option<nat>, absolute: Option<nat>, latest: bool): Option<nat> {
    match (offset, absolute)
    case (Some(o), Some(a)) =>
      var r := SaturatingAdd(height, o);
      Some(if (r <= a) == latest then a else r)
    case (Some(o), None) => Some(SaturatingAdd(height, o))
    case (None, _) => absolute
  }

  function EntryTerms(stone: Dunestone, name: nat, height: nat): DuneTerms {
    if !stone.cenotaph && stone.etching.Some? && stone.etching.value.terms.Some? then
      var m := stone.etching.value.terms.value;
      DuneTerms(name, m.limit, m.cap,
                Bound(height, m.offsetStart, m.heightStart, true),
                Bound(height, m.offsetEnd, m.heightEnd, false))
    else
      DuneTerms(name, None, None, None, None)
  }

  function CreateEntry(t: DuneTables, id: DuneId, terms: DuneTerms): DuneTables {
    t.(idByName := t.idByName[terms.name := id], terms := t.terms[id := terms])
  }

  // ----- claims -----

  function InsertSorted(s: seq<nat>, x: nat): seq<nat> {
    if s == [] || x < s[0] then [x] + s
    else if x == s[0] then s
    else [s[0]] + InsertSorted(s[1..], x)
  }

  ghost predicate Increasing(s: seq<nat>) {
    forall i, j :: 0 <= i < j < |s| ==> s[i] < s[j]
  }

  lemma InsertSortedIncreasing(s: seq<nat>, x: nat)
    requires Increasing(s)
    ensures Increasing(InsertSorted(s, x))
    ensures forall y :: y in InsertSorted(s, x) <==> y == x || y in s
  {
    if s != [] && s[0] < x {
      InsertSortedIncreasing(s[1..], x);
      var r := InsertSorted(s[1..], x);
      forall i, j | 0 <= i < j < |[s[0]] + r| ensures ([s[0]] + r)[i] < ([s[0]] + r)[j] {
        assert r[j - 1] in r;
      }
      assert s == [s[0]] + s[1..];
    }
  }

  /** The claimed ids of a list of edicts, sorted and without duplicates. */
  function Claims(edicts: seq<Edict>): seq<nat> {
    if edicts == [] then []
    else
      var rest := Claims(edicts[1..]);
      match Claim(edicts[0].id)
      case Some(c) => InsertSorted(rest, c)
      case None => rest
  }

  lemma ClaimsIncreasing(edicts: seq<Edict>)
    ensures Increasing(Claims(edicts))
    ensures forall c :: c in Claims(edicts) <==> exists e <- edicts :: Claim(e.id) == Some(c)
  {
    if edicts != [] {
      ClaimsIncreasing(edicts[1..]);
      assert edicts == [edicts[0]] + edicts[1..];
      if Claim(edicts[0].id).Some? {
        InsertSortedIncreasing(Claims(edicts[1..]), Claim(edicts[0].id).value);
      }
    }
  }

  /** What one claim of a dune may mint at this height, if it is mintable. */
  function Mintable(t: DuneTables, id: DuneId, height: nat): Option<u128> {
    if id !in t.terms then None
    else
      var terms := t.terms[id];
      if terms.start.Some? && height < terms.start.value then None
      else if terms.end.Some? && terms.end.value <= height then None
      else if Cap(terms) <= Get(t.mints, id) then None
      else Some(Limit(terms))
  }

  function Cap(terms: DuneTerms): u128 {
    if terms.cap.Some? then terms.cap.value else MAX_U128
  }

  function Limit(terms: DuneTerms): u128 {
    if terms.amount.Some? then terms.amount.value else 0
  }

  /** Whether the claim of packed id `c` is accepted against these tables. */
  function Accepted(t: DuneTables, height: nat, c: nat): Option<u128> {
    if Unpack(c).Some? then Mintable(t, Unpack(c).value, height) else None
  }

  /** A position among the claims of a transaction, as the program keeps it. */
  function Slot(i: nat): nat {
    i % 0x1_0000
  }

  /** Slots (of positions in the sorted claims) of the claims recorded as
      successful. */
  function Recorded(t: DuneTables, height: nat, claims: seq<nat>, from: nat): seq<nat>
    requires from <= |claims|
    decreases |claims| - from
  {
    if from == |claims| then []
    else (if Accepted(t, height, claims[from]).Some? then [Slot(from)] else [])
         + Recorded(t, height, claims, from + 1)
  }

  /** An accepted claim from position `from` on has this slot. */
  ghost predicate AcceptedIn(t: DuneTables, height: nat, claims: seq<nat>, from: nat, slot: nat) {
    exists i: nat :: from <= i < |claims| && Slot(i) == slot && Accepted(t, height, claims[i]).Some?
  }

  lemma {:induction false} RecordedIff(t: DuneTables, height: nat, claims: seq<nat>, from: nat, slot: nat)
    requires from <= |claims|
    ensures slot in Recorded(t, height, claims, from) <==> AcceptedIn(t, height, claims, from, slot)
    decreases |claims| - from
  {
    hide Slot, Accepted;
    if from < |claims| {
      RecordedIff(t, height, claims, from + 1, slot);
    }
  }

  function Limits(t: DuneTables, height: nat, claims: seq<nat>): Balances {
    map c | c in claims && Accepted(t, height, c).Some? :: Accepted(t, height, c).value
  }

  // ----- edicts -----

  /** What is left to hand out, and what each output has been given. */
  datatype Pools = Pools(
    issuance: Option<u128>, mintable: Balances, unallocated: Balances,
    given: seq<Balances>)

  function Take(amount: u128, balance: u128): u128 {
    if amount == 0 then balance else Min(amount, balance)
  }

  function Give(outs: seq<Balances>, output: nat, id: nat, amount: u128): (r: seq<Balances>)
    requires output < |outs|
    ensures |r| == |outs|
  {
    if amount == 0 then outs
    else
      var m: Balances := outs[output];
      outs[output := m[id := AddU128(Get(m, id), amount)]]
  }

  function EdictStep(p: Pools, e: Edict, newId: nat): (r: Pools)
    ensures |r.given| == |p.given|
  {
    if |p.given| <= e.output then p
    else if e.id == 0 then
      match p.issuance
      case None => p
      case Some(balance) =>
        var a := Take(e.amount, balance);
        p.(issuance := Some(balance - a), given := Give(p.given, e.output, newId, a))
    else if Claim(e.id).Some? then
      var c := Claim(e.id).value;
      if c !in p.mintable then p
      else
        var a := Take(e.amount, p.mintable[c]);
        p.(mintable := p.mintable[c := p.mintable[c] - a], given := Give(p.given, e.output, c, a))
    else if e.id !in p.unallocated then p
    else
      var a := Take(e.amount, p.unallocated[e.id]);
      p.(unallocated := p.unallocated[e.id := p.unallocated[e.id] - a],
         given := Give(p.given, e.output, e.id, a))
  }

  function EdictSteps(p: Pools, edicts: seq<Edict>, newId: nat): (r: Pools)
    ensures |r.given| == |p.given|
    decreases |edicts|
  {
    if edicts == [] then p else EdictSteps(EdictStep(p, edicts[0], newId), edicts[1..], newId)
  }

  // ----- leftovers -----

  function FirstSpendable(outputs: seq<TxOut>, from: nat): Option<nat>
    requires from <= |outputs|
    decreases |outputs| - from
  {
    if from == |outputs| then None
    else if !outputs[from].opReturn then Some(from)
    else FirstSpendable(outputs, from + 1)
  }

  lemma FirstSpendableInRange(outputs: seq<TxOut>, from: nat)
    requires from <= |outputs|
    ensures FirstSpendable(outputs, from).Some? ==> FirstSpendable(outputs, from).value < |outputs|
    decreases |outputs| - from
  {
  }

  /** Output that receives unallocated dunes: the pointer if it names an output,
      otherwise the first output that is not OP_RETURN. */
  function DefaultOutput(tx: Tx): (r: Option<nat>)
    ensures r.Some? ==> r.value < |tx.outputs|
  {
    FirstSpendableInRange(tx.outputs, 0);
    if tx.dunestone.Some? && tx.dunestone.value.pointer.Some?
       && tx.dunestone.value.pointer.value < |tx.outputs|
    then tx.dunestone.value.pointer
    else FirstSpendable(tx.outputs, 0)
  }

  /** Adds the positive balances of `from` to the balances of `to`. */
  function Pour(to: Balances, from: Balances): Balances {
    map id | id in to.Keys + Positive(from) :: AddU128(Get(to, id), Get(from, id))
  }

  function Positive(m: Balances): set<nat> {
    set id | id in m && m[id] > 0
  }

  // ----- one transaction -----

  /** `minted`, `issued` and `burned` are bookkeeping the program does not keep;
      the conservation law is stated with them. */
  datatype DuneResult = DuneResult(
    tables: DuneTables, outputs: seq<Balances>, etched: Option<nat>, recorded: seq<nat>,
    minted: Balances, issued: nat, burned: Balances)

  function NewId(height: nat, index: nat): nat {
    Pack(DuneId(height, index))
  }

  function Etching0(t: DuneTables, stone: Dunestone, minimum: nat): Option<(DuneTables, nat)> {
    if stone.etching.Some? then Etched(t, stone.etching.value, minimum) else None
  }

  /** Tables after the etching check, before any claim. */
  function AfterEtch(t: DuneTables, stone: Dunestone, minimum: nat): DuneTables {
    var e := Etching0(t, stone, minimum);
    if e.Some? then e.value.0 else t
  }

  function StartPools(t: DuneTables, tx: Tx, stone: Dunestone, index: nat, height: nat, minimum: nat,
                      unallocated: Balances): Pools
  {
    var e := Etching0(t, stone, minimum);
    Pools(if e.Some? && index < 0x1_0000 then Some(MAX_U128) else None,
          if stone.cenotaph then map[]
          else Limits(AfterEtch(t, stone, minimum), height, Claims(stone.edicts)),
          unallocated,
          seq(|tx.outputs|, _ => map[]))
  }

  /** Adds one mint for every accepted claim that was given something. */
  function CountMints(mints: map<DuneId, nat>, limits: Balances, left: Balances, claims: seq<nat>)
    : map<DuneId, nat>
    decreases |claims|
  {
    if claims == [] then mints
    else
      var c := claims[0];
      var m := if c in limits && Get(left, c) < limits[c] && Unpack(c).Some?
               then Put(mints, Unpack(c).value, Get(mints, Unpack(c).value) + 1) else mints;
      CountMints(m, limits, left, claims[1..])
  }

  function MintedAmounts(limits: Balances, left: Balances): Balances {
    map c | c in limits && Get(left, c) <= limits[c] :: limits[c] - Get(left, c)
  }

  function EndPools(t: DuneTables, tx: Tx, stone: Dunestone, index: nat, height: nat, minimum: nat,
                    unallocated: Balances): (r: Pools)
    ensures |r.given| == |tx.outputs|
  {
    var start := StartPools(t, tx, stone, index, height, minimum, unallocated);
    if stone.cenotaph then start else EdictSteps(start, stone.edicts, NewId(height, index))
  }

  /** Tables after the transaction's etching and claims have taken effect. */
  function TablesAfter(t: DuneTables, stone: Dunestone, index: nat, height: nat, minimum: nat,
                       start: Pools, end: Pools): DuneTables
  {
    var e := Etching0(t, stone, minimum);
    var t1 := AfterEtch(t, stone, minimum);
    var t2 := if stone.cenotaph then t1
              else t1.(mints := CountMints(t1.mints, start.mintable, end.mintable, Claims(stone.edicts)));
    if e.Some? && index < 0x1_0000
    then CreateEntry(t2, DuneId(height, index), EntryTerms(stone, e.value.1, height)) else t2
  }

  /** The outcome of a Dunestone before leftovers are handed out. */
  function Deciphered(t: DuneTables, tx: Tx, stone: Dunestone, index: nat, height: nat, minimum: nat,
                      unallocated: Balances): (r: DuneResult)
    ensures |r.outputs| == |tx.outputs|
  {
    var e := Etching0(t, stone, minimum);
    var start := StartPools(t, tx, stone, index, height, minimum, unallocated);
    var end := EndPools(t, tx, stone, index, height, minimum, unallocated);
    DuneResult(TablesAfter(t, stone, index, height, minimum, start, end),
               end.given,
               if e.Some? then Some(e.value.1) else None,
               if stone.cenotaph then [] else Recorded(AfterEtch(t, stone, minimum), height, Claims(stone.edicts), 0),
               MintedAmounts(start.mintable, end.mintable),
               Issued(start, end),
               map[])
  }

  function Issued(start: Pools, end: Pools): nat {
    if start.issuance.Some? && end.issuance.Some? && end.issuance.value <= start.issuance.value
    then start.issuance.value - end.issuance.value else 0
  }

  /** All of `index_runes` for one transaction, given the dunes of its inputs. */
  function IndexDunes(t: DuneTables, tx: Tx, index: nat, height: nat, minimum: nat,
                      unallocated: Balances): (r: DuneResult)
    ensures |r.outputs| == |tx.outputs|
  {
    match tx.dunestone
    case None => Leftovers(tx, Untouched(t, tx), unallocated)
    case Some(stone) =>
      Leftovers(tx, Deciphered(t, tx, stone, index, height, minimum, unallocated),
                EndPools(t, tx, stone, index, height, minimum, unallocated).unallocated)
  }

  function Untouched(t: DuneTables, tx: Tx): (r: DuneResult)
    ensures |r.outputs| == |tx.outputs|
  {
    DuneResult(t, seq(|tx.outputs|, _ => map[]), None, [], map[], 0, map[])
  }

  /** Hands what is still unallocated to the default output, or burns it. */
  function Leftovers(tx: Tx, r: DuneResult, unallocated: Balances): (q: DuneResult)
    requires |r.outputs| == |tx.outputs|
    ensures |q.outputs| == |tx.outputs|
  {
    if tx.dunestone.Some? && tx.dunestone.value.cenotaph then r.(burned := unallocated)
    else
      match DefaultOutput(tx)
      case Some(v) => r.(outputs := r.outputs[v := Pour(r.outputs[v], unallocated)])
      case None => r.(burned := Pour(map[], unallocated))
  }

  // ----- undo -----

  /** Decrements the mint count of each recorded claim; None is a panic. */
  function UndoClaims(mints: map<DuneId, nat>, claims: seq<nat>, from: nat, recorded: seq<nat>)
    : Option<map<DuneId, nat>>
    requires from <= |claims|
    decreases |claims| - from
  {
    if from == |claims| then Some(mints)
    else if Unpack(claims[from]).Some? && Slot(from) in recorded then
      var key := Unpack(claims[from]).value;
      if Get(mints, key) == 0 then None
      else UndoClaims(Put(mints, key, Get(mints, key) - 1), claims, from + 1, recorded)
    else UndoClaims(mints, claims, from + 1, recorded)
  }

  /** Removes the entry a transaction etched, if it etched one. */
  function UndoEtch(t: DuneTables, etching: Etching, id: DuneId): Option<DuneTables> {
    if id !in t.terms then Some(t)
    else
      var t1 := t.(idByName := t.idByName - {t.terms[id].name}, terms := t.terms - {id});
      if etching.dune.Some? then Some(t1)
      else if t.reserved == 0 then None
      else Some(t1.(reserved := t.reserved - 1))
  }

  /** The dune part of undoing one transaction of the block at `height`. */
  function UndoDunes(t: DuneTables, tx: Tx, index: nat, height: nat, recorded: seq<nat>): Option<DuneTables> {
    match tx.dunestone
    case None => Some(t)
    case Some(stone) =>
      var t1 := if stone.etching.Some? then UndoEtch(t, stone.etching.value, DuneId(height, index)) else Some(t);
      if t1.None? then None
      else
        var m := UndoClaims(t1.value.mints, Claims(stone.edicts), 0, recorded);
        if m.None? then None else Some(t1.value.(mints := m.value))
  }
}
