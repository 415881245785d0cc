/** The index of unspent outputs by script and the balance of each script, as the
    reducers derive them from blocks. */
module Reducers {
  import opened Prelude
  import opened Bytes
  import opened Actions
  import opened Batcher

  datatype OutPoint = OutPoint(txid: Bytes, vout: nat)

  /** An output with the height that produced it. */
  datatype Coin = Coin(script: Bytes, height: nat, value: u64)

  type Unspent = map<OutPoint, Coin>

  /** What a block does to the outputs of the chain, in order: the inputs of each
      transaction, then its outputs. The coin of a spent output is the one the
      block context resolves it to. */
  datatype Event = Spend(at: OutPoint, coin: Coin) | Create(at: OutPoint, coin: Coin)

  datatype BlockTx = BlockTx(txid: Bytes, coinbase: bool, inputs: seq<(OutPoint, Coin)>, outputs: seq<(Bytes, u64)>)

  function SpendsOf(inputs: seq<(OutPoint, Coin)>): (r: seq<Event>)
    ensures |r| == |inputs|
  {
    seq(|inputs|, i requires 0 <= i < |inputs| => Spend(inputs[i].0, inputs[i].1))
  }

  function CreatesOf(tx: BlockTx, height: nat): (r: seq<Event>)
    ensures |r| == |tx.outputs|
  {
    seq(|tx.outputs|, i requires 0 <= i < |tx.outputs| =>
      Create(OutPoint(tx.txid, i), Coin(tx.outputs[i].0, height, tx.outputs[i].1)))
  }

  function EventsOf(txs: seq<BlockTx>, height: nat): seq<Event> {
    if txs == [] then []
    else
      (if txs[0].coinbase then [] else SpendsOf(txs[0].inputs)) + CreatesOf(txs[0], height)
      + EventsOf(txs[1..], height)
  }

  // ----- the chain's own unspent outputs -----

  function Happen(u: Unspent, e: Event): Unspent {
    if e.Spend? then u - {e.at} else u[e.at := e.coin]
  }

  function HappenAll(u: Unspent, events: seq<Event>): Unspent
    decreases |events|
  {
    if events == [] then u else HappenAll(Happen(u, events[0]), events[1..])
  }

  /** Spends are of live outputs and resolved rightly; creations are of new ones. */
  ghost predicate Valid(u: Unspent, events: seq<Event>)
    decreases |events|
  {
    events == []
    || (&& (events[0].Spend? ==> events[0].at in u && u[events[0].at] == events[0].coin)
        && (events[0].Create? ==> events[0].at !in u)
        && Valid(Happen(u, events[0]), events[1..]))
  }

  // ----- keys -----

  const DATA: byte := 68
  const UTXOS: byte := 100
  const BALANCE: byte := 133

  ghost predicate Encodable(at: OutPoint, coin: Coin) {
    |at.txid| == 32 && at.vout < 0x1_0000_0000 && |coin.script| == 20 && coin.height < U64
  }

  function IndexPrefix(ns: Bytes): Bytes {
    ns + [DATA, UTXOS, BREAK]
  }

  function BalancePrefix(ns: Bytes): Bytes {
    ns + [DATA, BALANCE, BREAK]
  }

  function IndexKey(ns: Bytes, at: OutPoint, coin: Coin): Key {
    IndexPrefix(ns)
    + (coin.script + ([BREAK] + (Be(coin.height, 8) + ([BREAK] + (at.txid + ([BREAK] + Be(at.vout, 4)))))))
  }

  function BalanceKey(ns: Bytes, script: Bytes): Key {
    BalancePrefix(ns) + script
  }

  /** The keys of the index, and those of the balances. */
  predicate IsIndexKey(ns: Bytes, k: Key) {
    IndexPrefix(ns) <= k
  }

  predicate IsBalanceKey(ns: Bytes, k: Key) {
    BalancePrefix(ns) <= k
  }

  lemma KeysApart(ns: Bytes, k: Key)
    ensures !(IsIndexKey(ns, k) && IsBalanceKey(ns, k))
  {
    assert IndexPrefix(ns)[|ns| + 1] != BalancePrefix(ns)[|ns| + 1];
  }

  lemma SplitEqual(a: Bytes, b: Bytes, x: Bytes, y: Bytes)
    requires a + x == b + y && |a| == |b|
    ensures a == b && x == y
  {
    assert a == (a + x)[..|a|] && b == (b + y)[..|b|];
    assert x == (a + x)[|a|..] && y == (b + y)[|b|..];
  }

  /** Different outputs have different keys. */
  lemma IndexKeyInjective(ns: Bytes, a: OutPoint, ca: Coin, b: OutPoint, cb: Coin)
    requires Encodable(a, ca) && Encodable(b, cb) && IndexKey(ns, a, ca) == IndexKey(ns, b, cb)
    ensures a == b && ca.script == cb.script && ca.height == cb.height
  {
    hide Be, Pow256;
    var p := IndexPrefix(ns);
    var va, vb := [BREAK] + Be(a.vout, 4), [BREAK] + Be(b.vout, 4);
    var ta, tb := [BREAK] + (a.txid + va), [BREAK] + (b.txid + vb);
    var ha, hb := [BREAK] + (Be(ca.height, 8) + ta), [BREAK] + (Be(cb.height, 8) + tb);
    SplitEqual(p, p, ca.script + ha, cb.script + hb);
    SplitEqual(ca.script, cb.script, ha, hb);
    SplitEqual([BREAK], [BREAK], Be(ca.height, 8) + ta, Be(cb.height, 8) + tb);
    SplitEqual(Be(ca.height, 8), Be(cb.height, 8), ta, tb);
    SplitEqual([BREAK], [BREAK], a.txid + va, b.txid + vb);
    SplitEqual(a.txid, b.txid, va, vb);
    SplitEqual([BREAK], [BREAK], Be(a.vout, 4), Be(b.vout, 4));
    Pow8();
    Pow4();
    BeInjective(ca.height, cb.height, 8);
    BeInjective(a.vout, b.vout, 4);
  }

  lemma BalanceKeyInjective(ns: Bytes, a: Bytes, b: Bytes)
    requires BalanceKey(ns, a) == BalanceKey(ns, b)
    ensures a == b
  {
    SplitEqual(BalancePrefix(ns), BalancePrefix(ns), a, b);
  }

  // ----- the balance reducer -----

  function BalanceAction(ns: Bytes, e: Event): Action {
    if e.Spend? then DecrementU64(BalanceKey(ns, e.coin.script), e.coin.value)
    else IncrementU64(BalanceKey(ns, e.coin.script), e.coin.value)
  }

  function BalanceActions(ns: Bytes, events: seq<Event>): (r: seq<Action>)
    ensures |r| == |events|
    ensures forall i :: 0 <= i < |events| ==> r[i] == BalanceAction(ns, events[i])
  {
    seq(|events|, i requires 0 <= i < |events| => BalanceAction(ns, events[i]))
  }

  ghost function Values(u: Unspent, script: Bytes): map<OutPoint, int> {
    map o | o in u && u[o].script == script :: u[o].value
  }

  /** Sum of a script's unspent outputs. */
  ghost function Holdings(u: Unspent, script: Bytes): int {
    Sum(Values(u, script))
  }

  lemma HoldingsNonNegative(u: Unspent, script: Bytes)
    ensures 0 <= Holdings(u, script)
  {
    SumNonNegative(Values(u, script));
  }

  lemma HoldingsHappen(u: Unspent, e: Event, script: Bytes)
    requires e.Spend? ==> e.at in u && u[e.at] == e.coin
    requires e.Create? ==> e.at !in u
    ensures Holdings(Happen(u, e), script)
         == Holdings(u, script)
           + (if e.coin.script != script then 0 else if e.Spend? then 0 - e.coin.value else e.coin.value)
  {
    var m, m' := Values(u, script), Values(Happen(u, e), script);
    if e.coin.script != script {
      assert m' == m;
    } else if e.Spend? {
      assert m' == m - {e.at};
      SumRemove(m, e.at);
    } else {
      assert m' == m[e.at := e.coin.value];
      SumSet(m, e.at, e.coin.value);
    }
  }

  /** No script ever holds more than a u64: the coin supply fits. */
  ghost predicate Bounded(u: Unspent, events: seq<Event>)
    decreases |events|
  {
    && (forall script :: Holdings(u, script) < U64)
    && (events != [] ==> Bounded(Happen(u, events[0]), events[1..]))
  }

  /** Index keys hold bytes and balance keys counters, whatever other keys hold. */
  ghost predicate Families(ns: Bytes, fam: Key -> Family) {
    && (forall k | IsIndexKey(ns, k) :: fam(k) == Raw)
    && (forall k | IsBalanceKey(ns, k) :: fam(k) == Count64)
  }

  /** Stored balances read as the sums over the unspent outputs. */
  ghost predicate BalancesMatch(ns: Bytes, u: Unspent, s: Store) {
    && (forall k | IsBalanceKey(ns, k) :: WellStored(Count64, Lookup(s, k)))
    && (forall script :: Amount(Lookup(s, BalanceKey(ns, script))) == Holdings(u, script))
  }

  lemma BalanceFits(ns: Bytes, u: Unspent, s: Store, e: Event)
    requires BalancesMatch(ns, u, s)
    requires e.Spend? ==> e.at in u && u[e.at] == e.coin
    requires e.Create? ==> e.at !in u
    requires Holdings(Happen(u, e), e.coin.script) < U64
    ensures var a := BalanceAction(ns, e);
      && 0 <= Amount(Lookup(s, a.key)) + Delta(a) < CapOf(Count64)
      && WellStored(Count64, Lookup(s, a.key))
  {
    HoldingsHappen(u, e, e.coin.script);
    HoldingsNonNegative(Happen(u, e), e.coin.script);
    hide Holdings;
    assert IsBalanceKey(ns, BalanceAction(ns, e).key);
    Pow8();
  }

  lemma {:induction false} BalanceStep(ns: Bytes, u: Unspent, s: Store, e: Event)
    requires BalancesMatch(ns, u, s)
    requires e.Spend? ==> e.at in u && u[e.at] == e.coin
    requires e.Create? ==> e.at !in u
    requires forall script :: Holdings(Happen(u, e), script) < U64
    ensures var a := BalanceAction(ns, e);
      && 0 <= Amount(Lookup(s, a.key)) + Delta(a) < CapOf(Count64)
      && !PlainEffect(a, Lookup(s, a.key)).Panics?
      && BalancesMatch(ns, Happen(u, e), Perform(s, a.key, PlainEffect(a, Lookup(s, a.key))))
  {
    hide PlainEffect, Holdings, CapOf, Amount;
    var a := BalanceAction(ns, e);
    var k := a.key;
    BalanceFits(ns, u, s, e);
    CounterMeans(Count64, a, Lookup(s, k));
    var t := Perform(s, k, PlainEffect(a, Lookup(s, k)));
    assert Lookup(t, k) == After(a, Lookup(s, k));
    forall j | IsBalanceKey(ns, j) ensures WellStored(Count64, Lookup(t, j)) {
    }
    forall script ensures Amount(Lookup(t, BalanceKey(ns, script))) == Holdings(Happen(u, e), script) {
      HoldingsHappen(u, e, script);
      if script != e.coin.script && BalanceKey(ns, script) == k {
        BalanceKeyInjective(ns, script, e.coin.script);
      }
    }
  }

  lemma {:induction false} BalancesFollow(ns: Bytes, fam: Key -> Family, u: Unspent, s: Store, events: seq<Event>)
    requires Families(ns, fam) && BalancesMatch(ns, u, s) && Valid(u, events) && Bounded(u, events)
    ensures Fits(fam, s, BalanceActions(ns, events))
    ensures OneByOne(s, BalanceActions(ns, events)).Some?
    ensures BalancesMatch(ns, HappenAll(u, events), OneByOne(s, BalanceActions(ns, events)).value)
    decreases |events|
  {
    hide BalancesMatch, PlainEffect, CapOf, Holdings, Batch;
    if events != [] {
      var a := BalanceAction(ns, events[0]);
      var acts := BalanceActions(ns, events);
      assert acts[1..] == BalanceActions(ns, events[1..]);
      BoundedNext(u, events);
      BalanceStep(ns, u, s, events[0]);
      BatchOne(s, a);
      assert IsBalanceKey(ns, a.key);
      BalancesFollow(ns, fam, Happen(u, events[0]), Perform(s, a.key, PlainEffect(a, Lookup(s, a.key))), events[1..]);
    }
  }

  lemma BoundedNext(u: Unspent, events: seq<Event>)
    requires events != [] && Bounded(u, events)
    ensures forall script :: Holdings(Happen(u, events[0]), script) < U64
    ensures Bounded(Happen(u, events[0]), events[1..])
  {
    hide Holdings;
  }

  // ----- the index reducer -----

  function IndexAction(ns: Bytes, e: Event): Action {
    if e.Spend? then Delete(IndexKey(ns, e.at, e.coin)) else Set(IndexKey(ns, e.at, e.coin), Be(e.coin.value, 8))
  }

  /** Outputs both produced and consumed in the block are skipped. */
  function IndexActions(ns: Bytes, events: seq<Event>, chained: set<OutPoint>): seq<Action> {
    if events == [] then []
    else (if events[0].at in chained then [] else [IndexAction(ns, events[0])]) + IndexActions(ns, events[1..], chained)
  }

  function Outside(u: Unspent, chained: set<OutPoint>): Unspent {
    u - chained
  }

  /** The rows of the index are exactly the unspent outputs. */
  ghost predicate IndexMatches(ns: Bytes, u: Unspent, s: Store) {
    && (forall o <- u :: Encodable(o, u[o]))
    && (forall o <- u :: Lookup(s, IndexKey(ns, o, u[o])) == Some(Be(u[o].value, 8)))
    && (forall k <- s :: IsIndexKey(ns, k) ==> exists o :: o in u && IndexKey(ns, o, u[o]) == k)
  }

  lemma IndexSpend(ns: Bytes, u: Unspent, s: Store, e: Event)
    requires IndexMatches(ns, u, s) && e.Spend? && e.at in u && u[e.at] == e.coin
    ensures IndexMatches(ns, Happen(u, e), Written(s, IndexAction(ns, e)))
  {
    hide IndexKey, Be, Encodable;
    var u', s' := Happen(u, e), Written(s, IndexAction(ns, e));
    forall o | o in u' ensures Lookup(s', IndexKey(ns, o, u'[o])) == Some(Be(u'[o].value, 8)) {
      if IndexKey(ns, o, u[o]) == IndexKey(ns, e.at, e.coin) {
        IndexKeyInjective(ns, o, u[o], e.at, e.coin);
      }
    }
    forall k | k in s' && IsIndexKey(ns, k) ensures exists o :: o in u' && IndexKey(ns, o, u'[o]) == k {
      var o :| o in u && IndexKey(ns, o, u[o]) == k;
      assert o in u';
    }
  }

  lemma IndexCreate(ns: Bytes, u: Unspent, s: Store, e: Event)
    requires IndexMatches(ns, u, s) && e.Create? && e.at !in u && Encodable(e.at, e.coin)
    ensures IndexMatches(ns, Happen(u, e), Written(s, IndexAction(ns, e)))
  {
    hide IndexKey, Be, Encodable;
    var u', s' := Happen(u, e), Written(s, IndexAction(ns, e));
    forall o | o in u' ensures Lookup(s', IndexKey(ns, o, u'[o])) == Some(Be(u'[o].value, 8)) {
      if o != e.at && IndexKey(ns, o, u[o]) == IndexKey(ns, e.at, e.coin) {
        IndexKeyInjective(ns, o, u[o], e.at, e.coin);
      }
    }
    forall k | k in s' && IsIndexKey(ns, k) ensures exists o :: o in u' && IndexKey(ns, o, u'[o]) == k {
      if k == IndexKey(ns, e.at, e.coin) {
        assert e.at in u';
      } else {
        var o :| o in u && IndexKey(ns, o, u[o]) == k;
        assert o in u' && u'[o] == u[o];
      }
    }
  }

  lemma OutsideHappen(u: Unspent, e: Event, chained: set<OutPoint>)
    ensures Outside(Happen(u, e), chained)
         == if e.at in chained then Outside(u, chained) else Happen(Outside(u, chained), e)
  {
  }

  /** Leaving the chained outputs aside, the index follows the chain. */
  lemma {:induction false} IndexFollows(ns: Bytes, u: Unspent, s: Store, events: seq<Event>, chained: set<OutPoint>)
    requires IndexMatches(ns, Outside(u, chained), s) && Valid(u, events)
    requires forall e <- events :: Encodable(e.at, e.coin)
    ensures IndexMatches(ns, Outside(HappenAll(u, events), chained), WriteAll(s, IndexActions(ns, events, chained)))
    decreases |events|
  {
    hide IndexMatches, Encodable, IndexKey;
    if events != [] {
      var e := events[0];
      assert e in events;
      OutsideHappen(u, e, chained);
      if e.at in chained {
        assert IndexActions(ns, events, chained) == IndexActions(ns, events[1..], chained);
        IndexFollows(ns, Happen(u, e), s, events[1..], chained);
      } else {
        if e.Spend? {
          IndexSpend(ns, Outside(u, chained), s, e);
        } else {
          IndexCreate(ns, Outside(u, chained), s, e);
        }
        IndexFollows(ns, Happen(u, e), Written(s, IndexAction(ns, e)), events[1..], chained);
        assert IndexActions(ns, events, chained)[1..] == IndexActions(ns, events[1..], chained);
      }
    }
  }

  ghost predicate CreatedIn(events: seq<Event>, o: OutPoint) {
    exists e <- events :: e.Create? && e.at == o
  }

  ghost predicate SpentIn(events: seq<Event>, o: OutPoint) {
    exists e <- events :: e.Spend? && e.at == o
  }

  /** Each output is produced at most once, and none that is unspent already. */
  ghost predicate NewOutputs(u: Unspent, events: seq<Event>) {
    && (forall e <- events :: e.Create? ==> e.at !in u)
    && (forall i, j :: 0 <= i < j < |events| && events[i].Create? && events[j].Create? ==> events[i].at != events[j].at)
  }

  /** Outputs produced and consumed in the block. */
  ghost predicate AreChained(events: seq<Event>, chained: set<OutPoint>) {
    forall o :: o in chained <==> CreatedIn(events, o) && SpentIn(events, o)
  }

  /** Once spent, an output that is not produced again stays spent. */
  lemma {:induction false} StaysSpent(u: Unspent, events: seq<Event>, o: OutPoint)
    requires Valid(u, events) && NewOutputs(u, events)
    requires SpentIn(events, o) || (o !in u && !CreatedIn(events, o))
    ensures o !in HappenAll(u, events)
    decreases |events|
  {
    if events != [] {
      var e := events[0];
      HeadEvents(events, o);
      NewOutputsNext(u, events);
      if e.Spend? && e.at == o {
        SpentOnce(u, events, o);
      }
      StaysSpent(Happen(u, e), events[1..], o);
    }
  }

  lemma HeadEvents(events: seq<Event>, o: OutPoint)
    requires events != []
    ensures SpentIn(events, o) <==> (events[0].Spend? && events[0].at == o) || SpentIn(events[1..], o)
    ensures CreatedIn(events, o) <==> (events[0].Create? && events[0].at == o) || CreatedIn(events[1..], o)
  {
    assert events == [events[0]] + events[1..];
  }

  lemma NewOutputsNext(u: Unspent, events: seq<Event>)
    requires events != [] && NewOutputs(u, events)
    ensures NewOutputs(Happen(u, events[0]), events[1..])
  {
    forall e | e in events[1..] && e.Create? ensures e.at !in Happen(u, events[0]) {
      assert e in events;
      var j :| 0 <= j < |events[1..]| && events[1..][j] == e;
      assert events[j + 1] == e;
    }
  }

  /** An output that is live and about to be spent is not produced later. */
  lemma SpentOnce(u: Unspent, events: seq<Event>, o: OutPoint)
    requires events != [] && events[0].Spend? && events[0].at == o && Valid(u, events) && NewOutputs(u, events)
    ensures o !in Happen(u, events[0]) && !CreatedIn(events[1..], o)
  {
    forall e | e in events[1..] && e.Create? ensures e.at != o {
      assert e in events;
    }
  }

  /** The index of a block: skipping chained outputs changes nothing. */
  lemma {:induction false} BlockKeepsIndex(ns: Bytes, u: Unspent, s: Store, events: seq<Event>, chained: set<OutPoint>)
    requires IndexMatches(ns, u, s) && Valid(u, events) && NewOutputs(u, events) && AreChained(events, chained)
    requires forall e <- events :: Encodable(e.at, e.coin)
    ensures IndexMatches(ns, HappenAll(u, events), WriteAll(s, IndexActions(ns, events, chained)))
  {
    hide IndexMatches, Valid, Encodable;
    forall o | o in chained ensures o !in u && o !in HappenAll(u, events) {
      assert CreatedIn(events, o);
      StaysSpent(u, events, o);
    }
    assert Outside(u, chained) == u;
    assert Outside(HappenAll(u, events), chained) == HappenAll(u, events);
    IndexFollows(ns, u, s, events, chained);
  }

  // ----- several blocks in one batch -----

  function ChainedOf(events: seq<Event>): set<OutPoint> {
    set e | e in events && e.Create? && (exists d <- events :: d.Spend? && d.at == e.at) :: e.at
  }

  lemma ChainedOfIs(events: seq<Event>)
    ensures AreChained(events, ChainedOf(events))
  {
  }

  function Joined(blocks: seq<seq<Event>>): seq<Event> {
    if blocks == [] then [] else blocks[0] + Joined(blocks[1..])
  }

  function JoinedIndex(ns: Bytes, blocks: seq<seq<Event>>): seq<Action> {
    if blocks == [] then [] else IndexActions(ns, blocks[0], ChainedOf(blocks[0])) + JoinedIndex(ns, blocks[1..])
  }

  /** A run of valid blocks. */
  ghost predicate ValidChain(u: Unspent, blocks: seq<seq<Event>>)
    decreases |blocks|
  {
    blocks == []
    || (&& Valid(u, blocks[0]) && NewOutputs(u, blocks[0]) && (forall e <- blocks[0] :: Encodable(e.at, e.coin))
        && ValidChain(HappenAll(u, blocks[0]), blocks[1..]))
  }

  lemma {:induction false} HappenConcat(u: Unspent, a: seq<Event>, b: seq<Event>)
    ensures HappenAll(u, a + b) == HappenAll(HappenAll(u, a), b)
    ensures Valid(u, a) && Valid(HappenAll(u, a), b) ==> Valid(u, a + b)
    decreases |a|
  {
    if a == [] {
      assert a + b == b;
    } else {
      assert (a + b)[1..] == a[1..] + b;
      HappenConcat(Happen(u, a[0]), a[1..], b);
    }
  }

  lemma {:induction false} ChainKeepsIndex(ns: Bytes, u: Unspent, s: Store, blocks: seq<seq<Event>>)
    requires IndexMatches(ns, u, s) && ValidChain(u, blocks)
    ensures IndexMatches(ns, HappenAll(u, Joined(blocks)), WriteAll(s, JoinedIndex(ns, blocks)))
    ensures Valid(u, Joined(blocks))
    decreases |blocks|
  {
    hide IndexMatches, Encodable, Valid, HappenAll, WriteAll, AreChained, NewOutputs;
    if blocks == [] {
      EmptyEnds(u, s);
    } else {
      var events := blocks[0];
      var acts := IndexActions(ns, events, ChainedOf(events));
      ChainedOfIs(events);
      BlockKeepsIndex(ns, u, s, events, ChainedOf(events));
      ChainKeepsIndex(ns, HappenAll(u, events), WriteAll(s, acts), blocks[1..]);
      HappenConcat(u, events, Joined(blocks[1..]));
      WriteAllConcat(s, acts, JoinedIndex(ns, blocks[1..]));
    }
  }

  lemma EmptyEnds(u: Unspent, s: Store)
    ensures HappenAll(u, []) == u && WriteAll(s, []) == s && Valid(u, [])
  {
  }

  lemma {:induction false} IndexAbsolute(ns: Bytes, events: seq<Event>, chained: set<OutPoint>)
    ensures Absolute(IndexActions(ns, events, chained))
    ensures forall a <- IndexActions(ns, events, chained) :: IsIndexKey(ns, a.key)
  {
    if events != [] {
      IndexAbsolute(ns, events[1..], chained);
    }
  }

  lemma {:induction false} JoinedAbsolute(ns: Bytes, blocks: seq<seq<Event>>)
    ensures Absolute(JoinedIndex(ns, blocks))
    ensures forall a <- JoinedIndex(ns, blocks) :: IsIndexKey(ns, a.key)
  {
    if blocks != [] {
      IndexAbsolute(ns, blocks[0], ChainedOf(blocks[0]));
      JoinedAbsolute(ns, blocks[1..]);
    }
  }

  lemma {:induction false} AbsoluteFits(fam: Key -> Family, s: Store, actions: seq<Action>)
    requires Absolute(actions) && forall a <- actions :: fam(a.key) == Raw
    ensures Fits(fam, s, actions) && OneByOne(s, actions) == Some(WriteAll(s, actions))
    decreases |actions|
  {
    if actions != [] {
      var a := actions[0];
      assert a in actions;
      BatchOne(s, a);
      AbsoluteFits(fam, Written(s, a), actions[1..]);
    }
  }

  // ----- the reducers' loops -----

  /** Outputs of the block that one of its transactions consumes. */
  method ChainedTxos(txs: seq<BlockTx>, height: nat) returns (chained: set<OutPoint>)
    ensures chained == ChainedOf(EventsOf(txs, height))
  {
    var consumed: set<OutPoint>, produced: set<OutPoint> := {}, {};
    ghost var events := EventsOf(txs, height);
    ghost var done: seq<Event> := [];
    assert txs[0..] == txs && [] + events == events;
    for i := 0 to |txs|
      invariant events == done + EventsOf(txs[i..], height)
      invariant consumed == SpentSet(done) && produced == CreatedSet(done)
    {
      hide SpentSet, CreatedSet, SpendsOf, CreatesOf;
      var tx := txs[i];
      var part := (if tx.coinbase then [] else SpendsOf(tx.inputs)) + CreatesOf(tx, height);
      assert txs[i..][1..] == txs[i + 1..];
      SetsGrow(done, part);
      ConcatAssoc(done, part, EventsOf(txs[i + 1..], height));
      consumed := consumed + SpentSet(part);
      produced := produced + CreatedSet(part);
      done := done + part;
    }
    assert done + [] == done;
    assert done == events;
    chained := produced * consumed;
    InBoth(events);
  }

  lemma InBoth(events: seq<Event>)
    ensures CreatedSet(events) * SpentSet(events) == ChainedOf(events)
  {
  }

  function SpentSet(events: seq<Event>): set<OutPoint> {
    set e | e in events && e.Spend? :: e.at
  }

  function CreatedSet(events: seq<Event>): set<OutPoint> {
    set e | e in events && e.Create? :: e.at
  }

  lemma SetsGrow(done: seq<Event>, part: seq<Event>)
    ensures SpentSet(done + part) == SpentSet(done) + SpentSet(part)
    ensures CreatedSet(done + part) == CreatedSet(done) + CreatedSet(part)
  {
  }

  /** The actions of the index reducer for a block. */
  method ReduceUtxos(ns: Bytes, txs: seq<BlockTx>, height: nat) returns (actions: seq<Action>)
    ensures var events := EventsOf(txs, height);
      actions == IndexActions(ns, events, ChainedOf(events))
  {
    var chained := ChainedTxos(txs, height);
    ghost var events := EventsOf(txs, height);
    actions := [];
    for i := 0 to |txs|
      invariant actions + IndexActions(ns, EventsOf(txs[i..], height), chained) == IndexActions(ns, events, chained)
    {
      hide IndexAction;
      assert txs[i..][1..] == txs[i + 1..];
      var tx := txs[i];
      var spends := if tx.coinbase then [] else SpendsOf(tx.inputs);
      var creates := CreatesOf(tx, height);
      ghost var rest := EventsOf(txs[i + 1..], height);
      IndexConcat(ns, spends + creates, rest, chained);
      IndexConcat(ns, spends, creates, chained);
      var a := ReduceEvents(ns, spends, chained);
      var b := ReduceEvents(ns, creates, chained);
      ConcatAssoc(actions, a + b, IndexActions(ns, rest, chained));
      actions := actions + (a + b);
    }
    assert actions + [] == actions;
  }

  method ReduceEvents(ns: Bytes, events: seq<Event>, chained: set<OutPoint>) returns (actions: seq<Action>)
    ensures actions == IndexActions(ns, events, chained)
  {
    actions := [];
    assert events[0..] == events;
    for i := 0 to |events|
      invariant actions + IndexActions(ns, events[i..], chained) == IndexActions(ns, events, chained)
    {
      hide IndexAction;
      assert events[i..][1..] == events[i + 1..];
      var more := if events[i].at in chained then [] else [IndexAction(ns, events[i])];
      ConcatAssoc(actions, more, IndexActions(ns, events[i + 1..], chained));
      actions := actions + more;
    }
    assert actions + [] == actions;
  }

  lemma {:induction false} IndexConcat(ns: Bytes, a: seq<Event>, b: seq<Event>, chained: set<OutPoint>)
    ensures IndexActions(ns, a + b, chained) == IndexActions(ns, a, chained) + IndexActions(ns, b, chained)
    decreases |a|
  {
    hide IndexAction;
    if a == [] {
      assert a + b == b;
    } else {
      assert (a + b)[1..] == a[1..] + b;
      IndexConcat(ns, a[1..], b, chained);
    }
  }

  /** The actions of the balance reducer for a block; chained outputs count too. */
  method ReduceBalances(ns: Bytes, txs: seq<BlockTx>, height: nat) returns (actions: seq<Action>)
    ensures actions == BalanceActions(ns, EventsOf(txs, height))
  {
    actions := [];
    ghost var done: seq<Event> := [];
    assert txs[0..] == txs && [] + EventsOf(txs, height) == EventsOf(txs, height);
    for i := 0 to |txs|
      invariant done + EventsOf(txs[i..], height) == EventsOf(txs, height)
      invariant actions == BalanceActions(ns, done)
    {
      hide BalanceAction, SpendsOf, CreatesOf, BalanceActions;
      assert txs[i..][1..] == txs[i + 1..];
      var tx := txs[i];
      var part := (if tx.coinbase then [] else SpendsOf(tx.inputs)) + CreatesOf(tx, height);
      ConcatAssoc(done, part, EventsOf(txs[i + 1..], height));
      BalanceConcat(ns, done, part);
      var more := ReduceAmounts(ns, part);
      actions := actions + more;
      done := done + part;
    }
    assert done + [] == done;
  }

  method ReduceAmounts(ns: Bytes, events: seq<Event>) returns (actions: seq<Action>)
    ensures actions == BalanceActions(ns, events)
  {
    actions := [];
    for j := 0 to |events|
      invariant |actions| == j && forall i :: 0 <= i < j ==> actions[i] == BalanceAction(ns, events[i])
    {
      actions := actions + [BalanceAction(ns, events[j])];
    }
  }

  lemma BalanceConcat(ns: Bytes, a: seq<Event>, b: seq<Event>)
    ensures BalanceActions(ns, a + b) == BalanceActions(ns, a) + BalanceActions(ns, b)
  {
    hide BalanceAction;
  }
}
