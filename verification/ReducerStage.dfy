/** What the reducers stage emits, block by block, and what a batch of it does. */
module ReducerStage {
  import opened Prelude
  import opened Bytes
  import opened Actions
  import opened Batcher
  import opened WorkerRuns
  import opened Reducers
  import opened ReducerBatches

  // ----- the reducers stage -----

  /** What the stage emits for a block: the outputs of each configured reducer, then
      the cursor. */
  function BlockActions(ns: Bytes, events: seq<Event>, indexFirst: bool, value: Value): seq<Action> {
    var index, balances := IndexActions(ns, events, ChainedOf(events)), BalanceActions(ns, events);
    (if indexFirst then index + balances else balances + index) + CursorSets(ns, value)
  }

  function RunActions(ns: Bytes, blocks: seq<seq<Event>>, indexFirst: bool, values: seq<Value>): seq<Action>
    requires |values| == |blocks|
    decreases |blocks|
  {
    if blocks == [] then []
    else BlockActions(ns, blocks[0], indexFirst, values[0]) + RunActions(ns, blocks[1..], indexFirst, values[1..])
  }

  /** Reduces a block with the reducers in their configured order. */
  method ReduceBlock(ns: Bytes, txs: seq<BlockTx>, height: nat, indexFirst: bool, value: Value)
    returns (actions: seq<Action>)
    ensures actions == BlockActions(ns, EventsOf(txs, height), indexFirst, value)
  {
    if indexFirst {
      var index := ReduceUtxos(ns, txs, height);
      var balances := ReduceBalances(ns, txs, height);
      actions := index + balances;
    } else {
      var balances := ReduceBalances(ns, txs, height);
      var index := ReduceUtxos(ns, txs, height);
      actions := balances + index;
    }
    actions := actions + CursorSets(ns, value);
  }

  lemma {:induction false} PickConcat(a: seq<Action>, b: seq<Action>, sel: Key -> bool)
    ensures Pick(a + b, sel) == Pick(a, sel) + Pick(b, sel)
    decreases |a|
  {
    if a == [] {
      assert a + b == b;
    } else {
      PickConcat(a[1..], b, sel);
      assert (a + b)[0] == a[0] && (a + b)[1..] == a[1..] + b;
      ConcatAssoc(if sel(a[0].key) then [a[0]] else [], Pick(a[1..], sel), Pick(b, sel));
    }
  }

  lemma {:induction false} PickAll(a: seq<Action>, sel: Key -> bool)
    requires forall x <- a :: sel(x.key)
    ensures Pick(a, sel) == a && Pick(a, Not(sel)) == []
  {
    if a != [] {
      PickAll(a[1..], sel);
    }
  }

  lemma {:induction false} PickNone(a: seq<Action>, sel: Key -> bool)
    requires forall x <- a :: !sel(x.key)
    ensures Pick(a, sel) == [] && Pick(a, Not(sel)) == a
  {
    if a != [] {
      PickNone(a[1..], sel);
    }
  }

  ghost predicate AreCursors(ns: Bytes, cursors: seq<Action>) {
    forall c <- cursors :: c.Set? && !IsIndexKey(ns, c.key) && !IsBalanceKey(ns, c.key)
  }

  /** The three kinds of actions in a list. */
  ghost predicate Kinds(
    ns: Bytes, actions: seq<Action>, index: seq<Action>, balances: seq<Action>, others: seq<Action>) {
    && Pick(actions, OfIndex(ns)) == index
    && Pick(Pick(actions, Not(OfIndex(ns))), OfBalances(ns)) == balances
    && Others(ns, actions) == others
  }

  lemma KindsConcat(ns: Bytes, a: seq<Action>, i: seq<Action>, b: seq<Action>, o: seq<Action>,
                     a': seq<Action>, i': seq<Action>, b': seq<Action>, o': seq<Action>)
    requires Kinds(ns, a, i, b, o) && Kinds(ns, a', i', b', o')
    ensures Kinds(ns, a + a', i + i', b + b', o + o')
  {
    hide Pick;
    var rest := Not(OfIndex(ns));
    PickConcat(a, a', OfIndex(ns));
    PickConcat(a, a', rest);
    PickConcat(Pick(a, rest), Pick(a', rest), OfBalances(ns));
    PickConcat(Pick(a, rest), Pick(a', rest), Not(OfBalances(ns)));
  }

  lemma {:induction false} ReducerKinds(ns: Bytes, events: seq<Event>)
    ensures var index := IndexActions(ns, events, ChainedOf(events)); Kinds(ns, index, index, [], [])
    ensures Kinds(ns, BalanceActions(ns, events), [], BalanceActions(ns, events), [])
  {
    var index, balances := IndexActions(ns, events, ChainedOf(events)), BalanceActions(ns, events);
    IndexAbsolute(ns, events, ChainedOf(events));
    PickAll(index, OfIndex(ns));
    forall x | x in balances ensures IsBalanceKey(ns, x.key) && !IsIndexKey(ns, x.key) {
      var j :| 0 <= j < |events| && x == BalanceAction(ns, events[j]);
      assert IsBalanceKey(ns, x.key);
      KeysApart(ns, x.key);
    }
    PickNone(balances, OfIndex(ns));
    PickAll(balances, OfBalances(ns));
  }

  /** The cursors of a run of blocks. */
  function CursorList(ns: Bytes, values: seq<Value>): seq<Action> {
    if values == [] then [] else CursorSets(ns, values[0]) + CursorList(ns, values[1..])
  }

  lemma CursorKinds(ns: Bytes, value: Value)
    ensures AreCursors(ns, CursorSets(ns, value)) && Kinds(ns, CursorSets(ns, value), [], [], CursorSets(ns, value))
  {
    PickNone(CursorSets(ns, value), OfIndex(ns));
    PickNone(CursorSets(ns, value), OfBalances(ns));
  }

  lemma {:induction false} CursorListIs(ns: Bytes, values: seq<Value>)
    ensures AreCursors(ns, CursorList(ns, values))
  {
    if values != [] {
      CursorKinds(ns, values[0]);
      CursorListIs(ns, values[1..]);
    }
  }

  lemma {:induction false} BlockKinds(ns: Bytes, events: seq<Event>, indexFirst: bool, value: Value)
    ensures Kinds(ns, BlockActions(ns, events, indexFirst, value), IndexActions(ns, events, ChainedOf(events)),
                  BalanceActions(ns, events), CursorSets(ns, value))
  {
    hide Kinds, IsIndexKey, IsBalanceKey, CursorSets;
    var i, b := IndexActions(ns, events, ChainedOf(events)), BalanceActions(ns, events);
    ReducerKinds(ns, events);
    CursorKinds(ns, value);
    hide IndexActions, BalanceActions, ChainedOf;
    if indexFirst {
      KindsThree(ns, i, i, [], b, [], b, CursorSets(ns, value));
    } else {
      KindsThree(ns, b, [], b, i, i, [], CursorSets(ns, value));
    }
    Nil(i);
    Nil(b);
  }

  lemma KindsThree(ns: Bytes, a: seq<Action>, i: seq<Action>, b: seq<Action>,
                   a': seq<Action>, i': seq<Action>, b': seq<Action>, c: seq<Action>)
    requires Kinds(ns, a, i, b, []) && Kinds(ns, a', i', b', []) && Kinds(ns, c, [], [], c)
    ensures Kinds(ns, a + a' + c, i + i', b + b', c)
  {
    hide Kinds;
    KindsConcat(ns, a, i, b, [], a', i', b', []);
    Nil<Action>([]);
    KindsConcat(ns, a + a', i + i', b + b', [], c, [], [], c);
    Nil(i + i');
    Nil(b + b');
    Nil(c);
  }

  lemma Nil<T>(s: seq<T>)
    ensures s + [] == s && [] + s == s
  {
  }

  lemma {:induction false} RunKinds(ns: Bytes, blocks: seq<seq<Event>>, indexFirst: bool, values: seq<Value>)
    requires |values| == |blocks|
    ensures Kinds(ns, RunActions(ns, blocks, indexFirst, values), JoinedIndex(ns, blocks),
                  BalanceActions(ns, Joined(blocks)), CursorList(ns, values))
    decreases |blocks|
  {
    if blocks != [] {
      hide Kinds, BlockActions, IsIndexKey, IsBalanceKey, CursorSets;
      BlockKinds(ns, blocks[0], indexFirst, values[0]);
      RunKinds(ns, blocks[1..], indexFirst, values[1..]);
      BalanceConcat(ns, blocks[0], Joined(blocks[1..]));
      KindsConcat(ns, BlockActions(ns, blocks[0], indexFirst, values[0]),
                  IndexActions(ns, blocks[0], ChainedOf(blocks[0])), BalanceActions(ns, blocks[0]),
                  CursorSets(ns, values[0]),
                  RunActions(ns, blocks[1..], indexFirst, values[1..]), JoinedIndex(ns, blocks[1..]),
                  BalanceActions(ns, Joined(blocks[1..])), CursorList(ns, values[1..]));
    }
  }

  /** What keys hold when only these two reducers run. */
  function TwoFamilies(ns: Bytes): Key -> Family {
    (k: Key) => if IsBalanceKey(ns, k) then Count64 else Raw
  }

  lemma TwoFamiliesAre(ns: Bytes, u: Unspent, s: Store, cursors: seq<Action>)
    requires BalancesMatch(ns, u, s) && AreCursors(ns, cursors)
    ensures Families(ns, TwoFamilies(ns)) && AllStored(TwoFamilies(ns), s)
    ensures Fits(TwoFamilies(ns), s, cursors)
  {
    forall k ensures IsIndexKey(ns, k) ==> !IsBalanceKey(ns, k) {
      KeysApart(ns, k);
    }
    BalancesStored(ns, u, s);
    AbsoluteFits(TwoFamilies(ns), s, cursors);
  }

  /** The batch of what the stage emitted for a run of valid blocks, in either order
      of the reducers, with the cursors of each block and on either executor, leaves
      the index of the chain's unspent outputs and balances that are the sums of its
      rows. */
  lemma {:induction false} StageKeepsBoth(
    ns: Bytes, u: Unspent, s: Store, blocks: seq<seq<Event>>, indexFirst: bool, values: seq<Value>, merged: seq<Action>)
    requires Matches(ns, u, s) && ValidChain(u, blocks) && Bounded(u, Joined(blocks)) && |values| == |blocks|
    requires var b := MergeAll(map[], RunActions(ns, blocks, indexFirst, values));
      b.Some? ==> Enumerates(b.value, merged)
    ensures MergeAll(map[], RunActions(ns, blocks, indexFirst, values)).Some?
    ensures Batch(s, merged).Some? && KeptBy(ns, HappenAll(u, Joined(blocks)), Batch(s, merged).value)
    ensures BatchInverse(s, merged).Some?
      && KeptBy(ns, HappenAll(u, Joined(blocks)), BatchInverse(s, merged).value.store)
  {
    RunKinds(ns, blocks, indexFirst, values);
    CursorListIs(ns, values);
    hide Families, AllStored, ValidChain, Bounded, Fits, MergeAll, Enumerates, Batch, BatchInverse, KeptBy, HappenAll;
    hide RunActions, BalancesMatch, IndexMatches, AreCursors, Pick, CursorList;
    TwoFamiliesAre(ns, u, s, CursorList(ns, values));
    BatchKeepsBoth(ns, TwoFamilies(ns), u, s, blocks, RunActions(ns, blocks, indexFirst, values), merged);
  }

  /** The empty store is where it starts. */
  lemma EmptyMatches(ns: Bytes)
    ensures Matches(ns, map[], map[])
  {
    forall script ensures Holdings(map[], script) == 0 {
      assert Values(map[], script) == map[];
    }
  }
}
