/** The reducers together: what the index and the balances of one store say after a
    run of blocks whose actions, interleaved, are merged into one batch. */
module ReducerBatches {
  import opened Prelude
  import opened Bytes
  import opened Actions
  import opened Batcher
  import opened Reducers

  // ----- actions on different keys do not meet -----

  /** The actions on the keys of a class, in order. */
  function Pick(actions: seq<Action>, sel: Key -> bool): seq<Action>
    decreases |actions|
  {
    if actions == [] then []
    else (if sel(actions[0].key) then [actions[0]] else []) + Pick(actions[1..], sel)
  }

  function Not(sel: Key -> bool): Key -> bool {
    (k: Key) => !sel(k)
  }

  ghost predicate AgreeOn(sel: Key -> bool, s: Store, t: Store) {
    forall k | sel(k) :: Lookup(s, k) == Lookup(t, k)
  }

  /** The store after one action. */
  function Next(s: Store, a: Action): Store {
    var e := PlainEffect(a, Lookup(s, a.key));
    if e.Panics? then s else Perform(s, a.key, e)
  }

  /** The action is of its key's family and its counter stays in range. */
  ghost predicate FitsOne(fam: Key -> Family, s: Store, a: Action) {
    && InFamily(a, fam(a.key))
    && (!fam(a.key).Raw? ==> 0 <= Amount(Lookup(s, a.key)) + Delta(a) < CapOf(fam(a.key)))
  }

  /** A fitting action runs, and the rest of a list from where it leads. */
  lemma {:induction false} HeadRuns(fam: Key -> Family, s: Store, actions: seq<Action>)
    requires actions != [] && AllStored(fam, s) && FitsOne(fam, s, actions[0])
    ensures AllStored(fam, Next(s, actions[0]))
    ensures Fits(fam, s, actions) <==> Fits(fam, Next(s, actions[0]), actions[1..])
    ensures OneByOne(s, actions) == OneByOne(Next(s, actions[0]), actions[1..])
  {
    hide PlainEffect, CapOf, InFamily, Batch, Delta;
    assert Reflects(fam, s, map[], s);
    MergeStep(fam, s, map[], s, actions[0]);
    BatchOne(s, actions[0]);
  }

  lemma FitsHead(fam: Key -> Family, s: Store, actions: seq<Action>)
    requires actions != [] && Fits(fam, s, actions)
    ensures FitsOne(fam, s, actions[0])
  {
    hide PlainEffect, CapOf, InFamily, Delta;
  }

  lemma NextAgrees(sel: Key -> bool, s: Store, t: Store, a: Action)
    requires AgreeOn(sel, s, t)
    ensures if sel(a.key) then AgreeOn(sel, Next(s, a), Next(t, a)) else AgreeOn(sel, Next(s, a), t)
  {
    hide PlainEffect;
  }

  /** An action on a key of class `mine` is a step of the whole list and of that
      class, and no step of class `yours`. */
  lemma {:induction false} HeadSplits(
    fam: Key -> Family, mine: Key -> bool, yours: Key -> bool, s: Store, a: Store, b: Store, actions: seq<Action>)
    requires actions != [] && mine(actions[0].key) && !yours(actions[0].key)
    requires AllStored(fam, s) && AllStored(fam, a) && AgreeOn(mine, s, a) && AgreeOn(yours, s, b)
    requires Fits(fam, a, Pick(actions, mine))
    ensures var head, rest := actions[0], actions[1..];
      && AllStored(fam, Next(s, head)) && AllStored(fam, Next(a, head))
      && AgreeOn(mine, Next(s, head), Next(a, head)) && AgreeOn(yours, Next(s, head), b)
      && Pick(actions, yours) == Pick(rest, yours)
      && Fits(fam, Next(a, head), Pick(rest, mine))
      && OneByOne(a, Pick(actions, mine)) == OneByOne(Next(a, head), Pick(rest, mine))
      && (Fits(fam, s, actions) <==> Fits(fam, Next(s, head), rest))
      && OneByOne(s, actions) == OneByOne(Next(s, head), rest)
  {
    hide Fits, OneByOne, AllStored, Next;
    var part := Pick(actions, mine);
    assert part[0] == actions[0] && part[1..] == Pick(actions[1..], mine);
    FitsHead(fam, a, part);
    AgreeAt(mine, s, a, actions[0].key);
    assert FitsOne(fam, s, actions[0]);
    hide FitsOne, AgreeOn;
    HeadRuns(fam, a, part);
    HeadRuns(fam, s, actions);
    NextAgrees(mine, s, a, actions[0]);
    NextAgrees(yours, s, b, actions[0]);
  }

  /** A list runs if the actions of each class of keys do, and leads each class to
      where its own actions lead. */
  lemma {:induction false} SplitRuns(
    fam: Key -> Family, sel: Key -> bool, s: Store, a: Store, b: Store, actions: seq<Action>)
    requires AllStored(fam, s) && AllStored(fam, a) && AllStored(fam, b)
    requires AgreeOn(sel, s, a) && AgreeOn(Not(sel), s, b)
    requires Fits(fam, a, Pick(actions, sel)) && Fits(fam, b, Pick(actions, Not(sel)))
    ensures Fits(fam, s, actions)
    ensures var r, x, y := OneByOne(s, actions), OneByOne(a, Pick(actions, sel)), OneByOne(b, Pick(actions, Not(sel)));
      r.Some? && x.Some? && y.Some? && AgreeOn(sel, r.value, x.value) && AgreeOn(Not(sel), r.value, y.value)
    decreases |actions|
  {
    hide AllStored, AgreeOn, Next;
    if actions != [] {
      hide Fits, OneByOne, Pick;
      var head, rest := actions[0], actions[1..];
      if sel(head.key) {
        HeadSplits(fam, sel, Not(sel), s, a, b, actions);
        SplitRuns(fam, sel, Next(s, head), Next(a, head), b, rest);
      } else {
        HeadSplits(fam, Not(sel), sel, s, b, a, actions);
        SplitRuns(fam, sel, Next(s, head), a, Next(b, head), rest);
      }
    }
  }

  lemma AgreeAt(sel: Key -> bool, s: Store, t: Store, k: Key)
    requires AgreeOn(sel, s, t) && sel(k)
    ensures Lookup(s, k) == Lookup(t, k)
  {
  }

  // ----- both reducers on one store -----

  function OfIndex(ns: Bytes): Key -> bool {
    (k: Key) => IsIndexKey(ns, k)
  }

  function OfBalances(ns: Bytes): Key -> bool {
    (k: Key) => IsBalanceKey(ns, k)
  }

  /** The actions that are neither reducer's. */
  function Others(ns: Bytes, actions: seq<Action>): seq<Action> {
    Pick(Pick(actions, Not(OfIndex(ns))), Not(OfBalances(ns)))
  }

  /** The list holds the index reducer's actions for the blocks and the balance
      reducer's, each in order, interleaved in any way with each other and with
      actions on other keys. */
  ghost predicate Interleaves(ns: Bytes, blocks: seq<seq<Event>>, actions: seq<Action>) {
    && Pick(actions, OfIndex(ns)) == JoinedIndex(ns, blocks)
    && Pick(Pick(actions, Not(OfIndex(ns))), OfBalances(ns)) == BalanceActions(ns, Joined(blocks))
  }

  /** The store's index rows are the unspent outputs, and its balances their sums. */
  ghost predicate Matches(ns: Bytes, u: Unspent, s: Store) {
    IndexMatches(ns, u, s) && BalancesMatch(ns, u, s)
  }

  lemma IndexAgrees(ns: Bytes, u: Unspent, s: Store, t: Store)
    requires IndexMatches(ns, u, s) && AgreeOn(OfIndex(ns), t, s)
    ensures IndexMatches(ns, u, t)
  {
    forall o | o in u ensures Lookup(t, IndexKey(ns, o, u[o])) == Some(Be(u[o].value, 8)) {
      assert OfIndex(ns)(IndexKey(ns, o, u[o]));
    }
    hide Be, Encodable, IndexKey;
    forall k | k in t && IsIndexKey(ns, k) ensures k in s {
      assert OfIndex(ns)(k);
    }
  }

  lemma BalancesAgree(ns: Bytes, u: Unspent, s: Store, t: Store)
    requires BalancesMatch(ns, u, s)
    requires forall k | IsBalanceKey(ns, k) ::
               WellStored(Count64, Lookup(t, k)) && Amount(Lookup(t, k)) == Amount(Lookup(s, k))
    ensures BalancesMatch(ns, u, t)
  {
    hide Holdings;
    forall script ensures Amount(Lookup(t, BalanceKey(ns, script))) == Holdings(u, script) {
      assert IsBalanceKey(ns, BalanceKey(ns, script));
    }
  }

  /** One by one, the interleaved actions move both tables to the chain's state. */
  lemma {:induction false} ListKeepsBoth(
    ns: Bytes, fam: Key -> Family, u: Unspent, s: Store, blocks: seq<seq<Event>>, actions: seq<Action>)
    requires Families(ns, fam) && AllStored(fam, s) && Matches(ns, u, s)
    requires ValidChain(u, blocks) && Bounded(u, Joined(blocks))
    requires Interleaves(ns, blocks, actions) && Fits(fam, s, Others(ns, actions))
    ensures Fits(fam, s, actions) && OneByOne(s, actions).Some?
    ensures Matches(ns, HappenAll(u, Joined(blocks)), OneByOne(s, actions).value)
  {
    hide ValidChain, Bounded, IndexMatches, BalancesMatch, Fits, OneByOne;
    hide Pick, AllStored, AgreeOn, HappenAll, Absolute, WriteAll;
    var index, rest := JoinedIndex(ns, blocks), Pick(actions, Not(OfIndex(ns)));
    ChainKeepsIndex(ns, u, s, blocks);
    JoinedAbsolute(ns, blocks);
    AbsoluteFits(fam, s, index);
    BalancesFollow(ns, fam, u, s, Joined(blocks));
    AgreeSelf(OfIndex(ns), s);
    AgreeSelf(OfBalances(ns), s);
    SplitRuns(fam, OfBalances(ns), s, s, s, rest);
    SplitRuns(fam, OfIndex(ns), s, s, s, actions);
    var r, q := OneByOne(s, actions).value, OneByOne(s, rest).value;
    IndexAgrees(ns, HappenAll(u, Joined(blocks)), OneByOne(s, index).value, r);
    BalancesKept(ns, HappenAll(u, Joined(blocks)), OneByOne(s, BalanceActions(ns, Joined(blocks))).value, q, r);
  }

  lemma AgreeSelf(sel: Key -> bool, s: Store)
    ensures AgreeOn(sel, s, s) && AgreeOn(Not(sel), s, s)
  {
  }

  lemma BalancesKept(ns: Bytes, u: Unspent, s: Store, q: Store, r: Store)
    requires BalancesMatch(ns, u, s) && AgreeOn(OfBalances(ns), q, s) && AgreeOn(Not(OfIndex(ns)), r, q)
    ensures BalancesMatch(ns, u, r)
  {
    hide BalancesMatch, WellStored, Amount;
    forall k | IsBalanceKey(ns, k) ensures Lookup(r, k) == Lookup(s, k) {
      KeysApart(ns, k);
      AgreeAt(OfBalances(ns), q, s, k);
      AgreeAt(Not(OfIndex(ns)), r, q, k);
    }
    BalancesStored(ns, u, s);
    BalancesAgree(ns, u, s, r);
  }

  lemma BalancesStored(ns: Bytes, u: Unspent, s: Store)
    requires BalancesMatch(ns, u, s)
    ensures forall k | IsBalanceKey(ns, k) :: WellStored(Count64, Lookup(s, k))
  {
    hide Holdings;
  }

  lemma MergedKeeps(ns: Bytes, fam: Key -> Family, u: Unspent, t: Store, r: Store)
    requires Families(ns, fam) && AllStored(fam, t) && SameStore(fam, t, r) && Matches(ns, u, r)
    ensures Matches(ns, u, t)
  {
    hide IndexMatches, BalancesMatch;
    forall k | OfIndex(ns)(k) ensures Lookup(t, k) == Lookup(r, k) {
      assert IsIndexKey(ns, k);
      assert Same(fam(k), Lookup(t, k), Lookup(r, k));
    }
    IndexAgrees(ns, u, r, t);
    forall k | IsBalanceKey(ns, k)
      ensures WellStored(Count64, Lookup(t, k)) && Amount(Lookup(t, k)) == Amount(Lookup(r, k))
    {
      assert Same(fam(k), Lookup(t, k), Lookup(r, k)) && WellStored(fam(k), Lookup(t, k));
    }
    BalancesAgree(ns, u, r, t);
  }

  // ----- a balance is the sum of the rows of its script -----

  /** The index rows of a script, with the amounts they hold. */
  ghost function Rows(ns: Bytes, s: Store, script: Bytes): map<Key, int> {
    map k | k in s && IndexPrefix(ns) + script + [BREAK] <= k :: FromBe(s[k])
  }

  /** Sums agree along a one-to-one renaming of the keys. */
  lemma {:induction false} SumRenamed<K, L>(m: map<K, int>, n: map<L, int>, f: map<K, L>)
    requires f.Keys == m.Keys && f.Values == n.Keys
    requires forall a, b | a in f && b in f :: f[a] == f[b] ==> a == b
    requires forall a | a in m :: n[f[a]] == m[a]
    ensures Sum(m) == Sum(n)
    decreases |m|
  {
    if m == map[] {
      assert f.Values == {};
      assert n == map[];
    } else {
      var a :| a in m;
      var g := f - {a};
      forall l ensures l in g.Values <==> l in (n - {f[a]}).Keys {
        if l in n && l != f[a] {
          var b :| b in f && f[b] == l;
          assert b in g && g[b] == l;
        }
      }
      assert g.Values == (n - {f[a]}).Keys;
      SumRenamed(m - {a}, n - {f[a]}, g);
      SumRemove(m, a);
      SumRemove(n, f[a]);
    }
  }

  lemma RowKeyOf(ns: Bytes, at: OutPoint, coin: Coin, script: Bytes)
    requires Encodable(at, coin) && |script| == 20
    ensures IndexPrefix(ns) + script + [BREAK] <= IndexKey(ns, at, coin) <==> coin.script == script
  {
    hide Be;
    var p := IndexPrefix(ns);
    var tail := Be(coin.height, 8) + ([BREAK] + (at.txid + ([BREAK] + Be(at.vout, 4))));
    var key := IndexKey(ns, at, coin);
    assert key == p + coin.script + [BREAK] + tail;
    if p + script + [BREAK] <= key {
      assert script == key[|p|..|p| + 20] && coin.script == key[|p|..|p| + 20];
    }
  }

  lemma RowPrefix(ns: Bytes, script: Bytes, k: Key)
    ensures IndexPrefix(ns) + script + [BREAK] <= k ==> IsIndexKey(ns, k)
  {
    if IndexPrefix(ns) + script + [BREAK] <= k {
      assert IndexPrefix(ns) <= IndexPrefix(ns) + script + [BREAK];
    }
  }

  lemma {:induction false} RowsSum(ns: Bytes, u: Unspent, s: Store, script: Bytes)
    requires IndexMatches(ns, u, s) && |script| == 20
    ensures Sum(Rows(ns, s, script)) == Holdings(u, script)
  {
    hide Be, Encodable, IndexKey, FromBe;
    var values, rows := Values(u, script), Rows(ns, s, script);
    var f := map o | o in values :: IndexKey(ns, o, u[o]);
    forall o | o in values ensures f[o] in rows && rows[f[o]] == values[o] {
      RowKeyOf(ns, o, u[o], script);
      Pow8();
      BeRoundTrip(u[o].value, 8);
    }
    forall k | k in rows ensures k in f.Values {
      RowPrefix(ns, script, k);
      var o :| o in u && IndexKey(ns, o, u[o]) == k;
      RowKeyOf(ns, o, u[o], script);
      assert o in f && f[o] == k;
    }
    assert f.Values == rows.Keys;
    forall a, b | a in f && b in f && f[a] == f[b] ensures a == b {
      IndexKeyInjective(ns, a, u[a], b, u[b]);
    }
    SumRenamed(values, rows, f);
  }

  /** Each stored balance is the sum of the stored rows of its script. */
  ghost predicate BalancesAreSums(ns: Bytes, s: Store) {
    forall script: Bytes | |script| == 20 :: Amount(Lookup(s, BalanceKey(ns, script))) == Sum(Rows(ns, s, script))
  }

  lemma MatchesSums(ns: Bytes, u: Unspent, s: Store)
    requires Matches(ns, u, s)
    ensures BalancesAreSums(ns, s)
  {
    hide IndexMatches, Holdings;
    forall script: Bytes | |script| == 20
      ensures Amount(Lookup(s, BalanceKey(ns, script))) == Sum(Rows(ns, s, script))
    {
      RowsSum(ns, u, s, script);
    }
  }

  ghost predicate KeptBy(ns: Bytes, u: Unspent, s: Store) {
    Matches(ns, u, s) && BalancesAreSums(ns, s)
  }

  /** However the two reducers' actions for a run of valid blocks are interleaved
      with each other and with other actions, and in whatever order and on whichever
      executor the merged batch runs, the index is then exactly the chain's unspent outputs and each balance
      is the sum of the index rows of its script. */
  lemma {:induction false} BatchKeepsBoth(
    ns: Bytes, fam: Key -> Family, u: Unspent, s: Store, blocks: seq<seq<Event>>, actions: seq<Action>,
    merged: seq<Action>)
    requires Families(ns, fam) && AllStored(fam, s) && Matches(ns, u, s)
    requires ValidChain(u, blocks) && Bounded(u, Joined(blocks))
    requires Interleaves(ns, blocks, actions) && Fits(fam, s, Others(ns, actions))
    requires var b := MergeAll(map[], actions); b.Some? ==> Enumerates(b.value, merged)
    ensures MergeAll(map[], actions).Some? && Batch(s, merged).Some? && BatchInverse(s, merged).Some?
    ensures KeptBy(ns, HappenAll(u, Joined(blocks)), Batch(s, merged).value)
    ensures KeptBy(ns, HappenAll(u, Joined(blocks)), BatchInverse(s, merged).value.store)
  {
    hide Families, AllStored, ValidChain, Bounded, Interleaves, Fits, OneByOne, MergeAll, Enumerates, Batch;
    hide BatchInverse, SameStore, HappenAll, IndexMatches, BalancesMatch;
    ListKeepsBoth(ns, fam, u, s, blocks, actions);
    MergedMeansSame(fam, s, actions, merged);
    var next := HappenAll(u, Joined(blocks));
    MergedKeeps(ns, fam, next, Batch(s, merged).value, OneByOne(s, actions).value);
    MergedKeeps(ns, fam, next, BatchInverse(s, merged).value.store, OneByOne(s, actions).value);
    hide Matches, BalancesAreSums;
    MatchesSums(ns, next, Batch(s, merged).value);
    MatchesSums(ns, next, BatchInverse(s, merged).value.store);
  }
}
