/** Merging the actions on one key, and the batcher that does it for a run of
    blocks. */
module Batcher {
  import opened Prelude
  import opened Bytes
  import opened Actions

  // ----- merging two actions on one key -----

  /** A counter action with this net change: an increment if it is not negative. */
  function Net64(k: Key, up: u64, down: u64, increment: bool): Action {
    if increment then
      (if down <= up then IncrementU64(k, up - down) else DecrementU64(k, down - up))
    else
      (if up <= down then DecrementU64(k, down - up) else IncrementU64(k, up - down))
  }

  function Net128(k: Key, up: u128, down: u128, increment: bool, keep: bool): Action {
    var lower := if up <= down then down - up else 0;
    if if increment then down <= up else down < up then IncrementU128(k, up - down)
    else if keep then DecrementU128NoDelete(k, lower) else DecrementU128(k, lower)
  }

  /** None is a panic: the actions cannot be merged. */
  function Merge(a: Action, b: Action): Option<Action> {
    var k := b.key;
    match (a, b)
    case (IncrementU64(_, p), IncrementU64(_, n)) => Some(IncrementU64(k, (p + n) % U64))
    case (IncrementU64(_, p), DecrementU64(_, n)) => Some(Net64(k, p, n, true))
    case (DecrementU64(_, p), DecrementU64(_, n)) => Some(DecrementU64(k, (p + n) % U64))
    case (DecrementU64(_, p), IncrementU64(_, n)) => Some(Net64(k, n, p, false))
    case (IncrementU128(_, p), IncrementU128(_, n)) => Some(IncrementU128(k, AddU128(p, n)))
    case (IncrementU128(_, p), DecrementU128(_, n)) => Some(Net128(k, p, n, true, false))
    case (IncrementU128(_, p), DecrementU128NoDelete(_, n)) => Some(Net128(k, p, n, true, true))
    case (DecrementU128(_, p), DecrementU128(_, n)) => Some(DecrementU128(k, AddU128(p, n)))
    case (DecrementU128(_, p), IncrementU128(_, n)) => Some(Net128(k, n, p, false, false))
    case (DecrementU128NoDelete(_, p), DecrementU128NoDelete(_, n)) => Some(DecrementU128NoDelete(k, AddU128(p, n)))
    case (DecrementU128NoDelete(_, p), IncrementU128(_, n)) => Some(Net128(k, n, p, false, true))
    case (Set(_, _), Set(_, _)) => Some(b)
    case (Set(_, _), Delete(_)) => Some(b)
    case (Set(_, _), Insert(_, _)) => Some(a)
    case (Delete(_), Set(_, _)) => Some(b)
    case (Delete(_), Delete(_)) => Some(b)
    case (Delete(_), Insert(_, v)) => Some(Set(k, v))
    case (Insert(_, _), Set(_, _)) => Some(b)
    case (Insert(_, _), Delete(_)) => Some(b)
    case (Insert(_, _), Insert(_, _)) => Some(a)
    case _ => None
  }

  type Pending = map<Key, Action>

  function MergeInto(b: Pending, a: Action): Option<Pending> {
    if a.key in b then
      var m := Merge(b[a.key], a);
      if m.Some? then Some(b[a.key := m.value]) else None
    else Some(b[a.key := a])
  }

  function MergeAll(b: Pending, actions: seq<Action>): Option<Pending>
    decreases |actions|
  {
    if actions == [] then Some(b)
    else
      match MergeInto(b, actions[0])
      case None => None
      case Some(c) => MergeAll(c, actions[1..])
  }

  // ----- families -----

  /** What a key holds: bytes, or a counter and how it treats zero. */
  datatype Family = Raw | Count64 | Count128 | Count128Keep

  predicate InFamily(a: Action, f: Family) {
    match f
    case Raw => a.Set? || a.Delete? || a.Insert?
    case Count64 => a.IncrementU64? || a.DecrementU64?
    case Count128 => a.IncrementU128? || a.DecrementU128?
    case Count128Keep => a.IncrementU128? || a.DecrementU128NoDelete?
  }

  function Width(f: Family): nat {
    if f.Count64? then 8 else 16
  }

  function Delta(a: Action): int {
    match a
    case IncrementU64(_, d) => d
    case DecrementU64(_, d) => 0 - d
    case IncrementU128(_, d) => d
    case DecrementU128(_, d) => 0 - d
    case DecrementU128NoDelete(_, d) => 0 - d
    case _ => 0
  }

  /** Counters are stored at their full width. */
  predicate WellStored(f: Family, v: Option<Value>) {
    f.Raw? || v.None? || |v.value| == Width(f)
  }

  /** A counter's reading: absent is zero. */
  function Amount(v: Option<Value>): nat {
    if v.Some? then FromBe(v.value) else 0
  }

  function CapOf(f: Family): nat {
    Pow256(Width(f))
  }

  /** Equal up to a stored zero. */
  predicate Same(f: Family, a: Option<Value>, b: Option<Value>) {
    if f.Raw? then a == b else Amount(a) == Amount(b)
  }

  // ----- one action -----

  function After(a: Action, prev: Option<Value>): Option<Value>
    requires !PlainEffect(a, prev).Panics?
  {
    Outcome(PlainEffect(a, prev), prev)
  }

  lemma IncreaseMeans(prev: Option<Value>, d: nat, w: nat)
    requires (prev.Some? ==> |prev.value| == w) && Amount(prev) + d < Pow256(w)
    ensures var e := Increase(prev, d, w);
      !e.Panics? && e.Put? && |e.value| == w && FromBe(e.value) == Amount(prev) + d
  {
    BeRoundTrip(Amount(prev) + d, w);
    if prev.Some? {
      assert prev.value[..w] == prev.value;
      SmallMod(Amount(prev) + d, Pow256(w));
    }
  }

  lemma DecreaseMeans(prev: Option<Value>, d: nat, w: nat, keep: bool)
    requires (prev.Some? ==> |prev.value| == w) && d <= Amount(prev) < Pow256(w) && d > 0
    ensures var e := Decrease(prev, d, w, keep);
      && !e.Panics?
      && var after := Outcome(e, prev);
      (after.Some? ==> |after.value| == w) && Amount(after) == Amount(prev) - d
  {
    assert prev.value[..w] == prev.value;
    BeRoundTrip(Amount(prev) - d, w);
    BeRoundTrip(0, w);
  }

  lemma CounterMeans(f: Family, a: Action, prev: Option<Value>)
    requires !f.Raw? && InFamily(a, f) && WellStored(f, prev)
    requires 0 <= Amount(prev) + Delta(a) < CapOf(f)
    ensures !PlainEffect(a, prev).Panics?
    ensures WellStored(f, After(a, prev)) && Amount(After(a, prev)) == Amount(prev) + Delta(a)
  {
    hide Increase, Decrease, Pow256;
    AmountBound(f, prev);
    if Delta(a) > 0 {
      IncreaseMeans(prev, Delta(a), Width(f));
    } else if Delta(a) < 0 {
      DecreaseMeans(prev, 0 - Delta(a), Width(f), a.DecrementU128NoDelete?);
    }
  }

  lemma SmallMod(x: nat, m: nat)
    requires x < m
    ensures x % m == x
  {
  }

  lemma RawMeans(a: Action, prev: Option<Value>)
    requires InFamily(a, Raw)
    ensures !PlainEffect(a, prev).Panics?
  {
  }

  // ----- merging means running one after the other -----

  /** Net changes add up while they fit. */
  lemma MergeAdds(f: Family, a: Action, b: Action)
    requires !f.Raw? && InFamily(a, f) && InFamily(b, f) && a.key == b.key
    requires 0 - CapOf(f) < Delta(a) + Delta(b) < CapOf(f)
    ensures Merge(a, b).Some?
    ensures var m := Merge(a, b).value;
      InFamily(m, f) && m.key == a.key && Delta(m) == Delta(a) + Delta(b)
  {
    Pow8();
    Pow16();
    hide Pow256;
  }

  /** Overwrites and insertions compose exactly. */
  lemma MergeComposes(a: Action, b: Action, prev: Option<Value>)
    requires InFamily(a, Raw) && InFamily(b, Raw) && a.key == b.key
    ensures Merge(a, b).Some?
    ensures var m := Merge(a, b).value;
      InFamily(m, Raw) && m.key == a.key && After(m, prev) == After(b, After(a, prev))
  {
  }

  // ----- the list one by one -----

  /** Each action in a transaction of its own. */
  function OneByOne(s: Store, actions: seq<Action>): Option<Store>
    decreases |actions|
  {
    if actions == [] then Some(s)
    else
      match Batch(s, [actions[0]])
      case None => None
      case Some(t) => OneByOne(t, actions[1..])
  }

  lemma BatchOne(s: Store, a: Action)
    ensures PlainEffect(a, Lookup(s, a.key)).Panics? ==> Batch(s, [a]).None?
    ensures !PlainEffect(a, Lookup(s, a.key)).Panics? ==>
      Batch(s, [a]) == Some(Perform(s, a.key, PlainEffect(a, Lookup(s, a.key))))
  {
    var kv := Fetch(s, [a], false);
    FetchCurrent(s, [a], false);
    assert a in [a];
    var e := PlainEffect(a, Lookup(kv, a.key));
    EffectFetched(s, kv, a);
    if !e.Panics? {
      var t := Perform(s, a.key, e);
      assert [a][1..] == [];
      assert ExecuteAll(t, Used(kv, a), []) == Some(t);
    }
  }

  /** No family is mixed on a key, and no counter leaves its range on the way. */
  ghost predicate Fits(fam: Key -> Family, s: Store, actions: seq<Action>)
    decreases |actions|
  {
    actions == []
    || (var a := actions[0];
        var f := fam(a.key);
        && InFamily(a, f)
        && (!f.Raw? ==> 0 <= Amount(Lookup(s, a.key)) + Delta(a) < CapOf(f))
        && (!PlainEffect(a, Lookup(s, a.key)).Panics? ==>
              Fits(fam, Perform(s, a.key, PlainEffect(a, Lookup(s, a.key))), actions[1..])))
  }

  ghost predicate AllStored(fam: Key -> Family, s: Store) {
    forall k :: WellStored(fam(k), Lookup(s, k))
  }

  ghost predicate SameStore(fam: Key -> Family, s: Store, t: Store) {
    forall k :: Same(fam(k), Lookup(s, k), Lookup(t, k))
  }

  /** What the pending action of a key says about the key's current value `cur`,
      `prev` being its value when the batch began. */
  ghost predicate Stands(f: Family, pending: Option<Action>, k: Key, prev: Option<Value>, cur: Option<Value>) {
    match pending
    case None => cur == prev
    case Some(m) =>
      && m.key == k && InFamily(m, f)
      && if f.Raw? then cur == After(m, prev)
         else Amount(cur) == Amount(prev) + Delta(m)
  }

  function PendingAt(b: Pending, k: Key): Option<Action> {
    if k in b then Some(b[k]) else None
  }

  ghost predicate Reflects(fam: Key -> Family, s: Store, b: Pending, cur: Store) {
    forall k :: Stands(fam(k), PendingAt(b, k), k, Lookup(s, k), Lookup(cur, k))
  }

  lemma AmountBound(f: Family, v: Option<Value>)
    requires !f.Raw? && WellStored(f, v)
    ensures Amount(v) < CapOf(f)
  {
    if v.Some? {
      FromBeBound(v.value);
    }
  }

  /** One more action keeps the pending action of its key in step. */
  lemma StandsStep(f: Family, pending: Option<Action>, a: Action, prev: Option<Value>, cur: Option<Value>)
    requires Stands(f, pending, a.key, prev, cur) && WellStored(f, prev) && WellStored(f, cur) && InFamily(a, f)
    requires !f.Raw? ==> 0 <= Amount(cur) + Delta(a) < CapOf(f)
    ensures !PlainEffect(a, cur).Panics? && WellStored(f, After(a, cur))
    ensures pending.Some? ==> Merge(pending.value, a).Some?
    ensures Stands(f, if pending.Some? then Merge(pending.value, a) else Some(a), a.key, prev, After(a, cur))
  {
    hide CapOf, PlainEffect, Merge;
    if f.Raw? {
      RawMeans(a, cur);
      if pending.Some? {
        RawMeans(pending.value, prev);
        MergeComposes(pending.value, a, prev);
      }
    } else {
      CounterMeans(f, a, cur);
      if pending.Some? {
        AmountBound(f, prev);
        AmountBound(f, After(a, cur));
        MergeAdds(f, pending.value, a);
      }
    }
  }

  lemma {:induction false} MergeStep(fam: Key -> Family, s: Store, b: Pending, cur: Store, a: Action)
    requires Reflects(fam, s, b, cur) && AllStored(fam, s) && AllStored(fam, cur) && InFamily(a, fam(a.key))
    requires !fam(a.key).Raw? ==> 0 <= Amount(Lookup(cur, a.key)) + Delta(a) < CapOf(fam(a.key))
    ensures var e := PlainEffect(a, Lookup(cur, a.key));
      && !e.Panics? && MergeInto(b, a).Some?
      && AllStored(fam, Perform(cur, a.key, e))
      && Reflects(fam, s, MergeInto(b, a).value, Perform(cur, a.key, e))
  {
    hide PlainEffect, CapOf, Merge, InFamily;
    var k := a.key;
    StandsStep(fam(k), PendingAt(b, k), a, Lookup(s, k), Lookup(cur, k));
    var e := PlainEffect(a, Lookup(cur, k));
    var next := Perform(cur, k, e);
    assert Lookup(next, k) == After(a, Lookup(cur, k));
    var c := MergeInto(b, a).value;
    forall j
      ensures Stands(fam(j), PendingAt(c, j), j, Lookup(s, j), Lookup(next, j)) && WellStored(fam(j), Lookup(next, j))
    {
      if j != k {
        assert Lookup(next, j) == Lookup(cur, j) && PendingAt(c, j) == PendingAt(b, j);
      }
    }
  }

  lemma {:induction false} MergeFollows(fam: Key -> Family, s: Store, b: Pending, cur: Store, actions: seq<Action>)
    requires Reflects(fam, s, b, cur) && AllStored(fam, s) && AllStored(fam, cur) && Fits(fam, cur, actions)
    ensures MergeAll(b, actions).Some? && OneByOne(cur, actions).Some?
    ensures AllStored(fam, OneByOne(cur, actions).value)
    ensures Reflects(fam, s, MergeAll(b, actions).value, OneByOne(cur, actions).value)
    decreases |actions|
  {
    hide PlainEffect, CapOf, MergeInto, InFamily, Batch;
    if actions != [] {
      var a := actions[0];
      MergeStep(fam, s, b, cur, a);
      BatchOne(cur, a);
      MergeFollows(fam, s, MergeInto(b, a).value, Perform(cur, a.key, PlainEffect(a, Lookup(cur, a.key))),
                   actions[1..]);
    }
  }

  // ----- running the merged batch -----

  /** A list of the pending actions, in any order. */
  ghost predicate Enumerates(b: Pending, actions: seq<Action>) {
    && NoDup(Keys(actions))
    && (forall a <- actions :: a.key in b && b[a.key] == a)
    && (forall k <- b :: k in Keys(actions))
  }

  /** No action of a batch on distinct keys panics on this store. */
  lemma {:induction false} NonePanics(s: Store, kv: Store, actions: seq<Action>)
    requires NoDup(Keys(actions)) && Current(s, kv, actions, false)
    requires forall a <- actions :: !PlainEffect(a, Lookup(s, a.key)).Panics?
    ensures ExecuteAll(s, kv, actions).Some?
    decreases |actions|
  {
    hide PlainEffect;
    if actions != [] {
      var a := actions[0];
      StepCurrent(s, kv, actions);
      NonePanics(Perform(s, a.key, PlainEffect(a, Lookup(kv, a.key))), Used(kv, a), actions[1..]);
    }
  }

  /** None on the executor that derives inverses. */
  lemma {:induction false} NonePanicsInverse(s: Store, kv: Store, actions: seq<Action>)
    requires NoDup(Keys(actions)) && Current(s, kv, actions, true)
    requires forall a <- actions :: !InverseEffect(a, Lookup(s, a.key)).Panics?
    ensures ExecuteInverse(s, kv, actions).Some?
    decreases |actions|
  {
    hide InverseEffect, Inverse;
    if actions != [] {
      var a := actions[0];
      assert a in actions;
      StepFetched(s, kv, actions);
      KeysHead(actions);
      var e := InverseEffect(a, Lookup(kv, a.key));
      forall b | b in actions[1..] ensures Lookup(Perform(s, a.key, e), b.key) == Lookup(s, b.key) && b in actions {
        PerformElsewhere(s, a.key, e, b.key);
      }
      NonePanicsInverse(Perform(s, a.key, e), kv - {a.key}, actions[1..]);
    }
  }

  /** The two executors treat a zero delta differently, but to the same amount. */
  lemma ExecutorsAgree(f: Family, m: Action, prev: Option<Value>)
    requires InFamily(m, f) && WellStored(f, prev) && !PlainEffect(m, prev).Panics?
    ensures var e := InverseEffect(m, prev);
      && !e.Panics? && Same(f, Outcome(e, prev), After(m, prev))
      && (WellStored(f, After(m, prev)) ==> WellStored(f, Outcome(e, prev)))
  {
    hide Be, FromBe, Pow256;
    if !f.Raw? && ZeroDelta(m) {
      var w := Width(f);
      AmountBound(f, prev);
      BeRoundTrip(Amount(prev), w);
      BeRoundTrip(0, w);
      if prev.Some? {
        assert prev.value[..w] == prev.value;
        SmallMod(Amount(prev), Pow256(w));
      }
    }
  }

  function EffectOf(a: Action, prev: Option<Value>, plain: bool): Effect {
    if plain then PlainEffect(a, prev) else InverseEffect(a, prev)
  }

  /** What a key stands for is what running its pending action gives, on either
      executor. */
  lemma StandsRuns(f: Family, m: Action, k: Key, prev: Option<Value>, cur: Option<Value>, plain: bool)
    requires Stands(f, Some(m), k, prev, cur) && WellStored(f, prev) && WellStored(f, cur)
    ensures var e := EffectOf(m, prev, plain);
      !e.Panics? && Same(f, Outcome(e, prev), cur) && WellStored(f, Outcome(e, prev))
  {
    hide InverseEffect;
    if !f.Raw? {
      AmountBound(f, cur);
      CounterMeans(f, m, prev);
    }
    hide PlainEffect;
    ExecutorsAgree(f, m, prev);
  }

  /** Where the pending actions lead, whichever executor runs them. */
  lemma {:induction false} PendingLeads(
    fam: Key -> Family, s: Store, b: Pending, cur: Store, merged: seq<Action>, t: Store, plain: bool)
    requires Reflects(fam, s, b, cur) && AllStored(fam, s) && AllStored(fam, cur) && Enumerates(b, merged)
    requires Pointwise(s, t, merged, plain)
    ensures SameStore(fam, t, cur) && AllStored(fam, t)
  {
    hide PlainEffect, InverseEffect;
    forall k ensures Same(fam(k), Lookup(t, k), Lookup(cur, k)) && WellStored(fam(k), Lookup(t, k)) {
      if k in Keys(merged) {
        var i :| 0 <= i < |merged| && Keys(merged)[i] == k;
        var a := merged[i];
        assert a in merged && PendingAt(b, k) == Some(a);
        StandsRuns(fam(k), a, k, Lookup(s, k), Lookup(cur, k), plain);
      } else {
        assert PendingAt(b, k) == None;
        assert Stands(fam(k), None, k, Lookup(s, k), Lookup(cur, k));
      }
    }
  }

  lemma PendingRuns(fam: Key -> Family, s: Store, b: Pending, cur: Store, merged: seq<Action>, plain: bool)
    requires Reflects(fam, s, b, cur) && AllStored(fam, s) && AllStored(fam, cur) && Enumerates(b, merged)
    ensures forall a <- merged :: !EffectOf(a, Lookup(s, a.key), plain).Panics?
  {
    hide PlainEffect, InverseEffect;
    forall a | a in merged ensures !EffectOf(a, Lookup(s, a.key), plain).Panics? {
      assert PendingAt(b, a.key) == Some(a);
      StandsRuns(fam(a.key), a, a.key, Lookup(s, a.key), Lookup(cur, a.key), plain);
    }
  }

  lemma {:induction false} RunMerged(fam: Key -> Family, s: Store, b: Pending, cur: Store, merged: seq<Action>)
    requires Reflects(fam, s, b, cur) && AllStored(fam, s) && AllStored(fam, cur) && Enumerates(b, merged)
    ensures Batch(s, merged).Some? && SameStore(fam, Batch(s, merged).value, cur)
    ensures AllStored(fam, Batch(s, merged).value)
    ensures BatchInverse(s, merged).Some? && SameStore(fam, BatchInverse(s, merged).value.store, cur)
    ensures AllStored(fam, BatchInverse(s, merged).value.store)
  {
    hide PlainEffect, InverseEffect, ExecuteAll, ExecuteInverse, Reflects, AllStored, SameStore, Pointwise;
    PendingRuns(fam, s, b, cur, merged, true);
    PendingRuns(fam, s, b, cur, merged, false);
    FetchCurrent(s, merged, false);
    FetchCurrent(s, merged, true);
    NonePanics(s, Fetch(s, merged, false), merged);
    NonePanicsInverse(s, Fetch(s, merged, true), merged);
    ExecutePointwise(s, Fetch(s, merged, false), merged);
    InversePointwise(s, Fetch(s, merged, true), merged);
    PendingLeads(fam, s, b, cur, merged, Batch(s, merged).value, true);
    PendingLeads(fam, s, b, cur, merged, BatchInverse(s, merged).value.store, false);
  }

  /** Executing the merged actions in any order, on either executor, gives the store
      of executing the list one by one, up to stored zeros; merging never fails and
      no sum wraps. */
  lemma MergedMeansSame(fam: Key -> Family, s: Store, actions: seq<Action>, merged: seq<Action>)
    requires AllStored(fam, s) && Fits(fam, s, actions)
    requires MergeAll(map[], actions).Some? ==> Enumerates(MergeAll(map[], actions).value, merged)
    ensures MergeAll(map[], actions).Some?
    ensures OneByOne(s, actions).Some? && Batch(s, merged).Some? && BatchInverse(s, merged).Some?
    ensures SameStore(fam, Batch(s, merged).value, OneByOne(s, actions).value)
    ensures AllStored(fam, Batch(s, merged).value)
    ensures SameStore(fam, BatchInverse(s, merged).value.store, OneByOne(s, actions).value)
    ensures AllStored(fam, BatchInverse(s, merged).value.store)
  {
    hide Batch, BatchInverse, OneByOne, MergeAll, Fits, Enumerates, AllStored;
    assert Reflects(fam, s, map[], s);
    MergeFollows(fam, s, map[], s, actions);
    RunMerged(fam, s, MergeAll(map[], actions).value, OneByOne(s, actions).value, merged);
  }

  // ----- the batcher -----

  function Size(a: Action): nat {
    |a.key| +
    match a
    case Set(_, v) => |v|
    case Delete(_) => 0
    case Insert(_, v) => |v|
    case IncrementU64(_, _) => 8
    case DecrementU64(_, _) => 8
    case _ => 16
  }

  function Sizes(actions: seq<Action>): nat {
    if actions == [] then 0 else Size(actions[0]) + Sizes(actions[1..])
  }

  lemma {:induction false} SizesPrefix(actions: seq<Action>, i: nat)
    requires i < |actions|
    ensures Sizes(actions[..i + 1]) == Sizes(actions[..i]) + Size(actions[i])
    decreases |actions|
  {
    if i > 0 {
      SizesPrefix(actions[1..], i - 1);
      assert actions[..i + 1][1..] == actions[1..][..i] && actions[..i][1..] == actions[1..][..i - 1];
    } else {
      assert actions[..1][1..] == [] && actions[..0] == [];
    }
  }

  /** Every pending action is filed under its own key. */
  ghost predicate Filed(b: Pending) {
    forall k <- b :: b[k].key == k
  }

  lemma MergeKey(a: Action, b: Action)
    requires a.key == b.key && Merge(a, b).Some?
    ensures Merge(a, b).value.key == b.key
  {
  }

  lemma {:induction false} MergeAllFiled(b: Pending, actions: seq<Action>)
    requires Filed(b) && MergeAll(b, actions).Some?
    ensures Filed(MergeAll(b, actions).value)
    decreases |actions|
  {
    hide Merge;
    if actions != [] {
      if actions[0].key in b {
        MergeKey(b[actions[0].key], actions[0]);
      }
      MergeAllFiled(MergeInto(b, actions[0]).value, actions[1..]);
    }
  }

  // ----- the size of a batch -----

  ghost function SizesOf(b: Pending): map<Key, int> {
    map k | k in b :: Size(b[k])
  }

  /** Bytes of the keys and values that a batch will send. */
  ghost function Bulk(b: Pending): int {
    Sum(SizesOf(b))
  }

  lemma MergeSize(a: Action, b: Action)
    requires a.key == b.key && Merge(a, b).Some?
    ensures Size(Merge(a, b).value) <= Size(a) + Size(b)
  {
  }

  lemma StepBulk(b: Pending, a: Action)
    requires Filed(b) && MergeInto(b, a).Some?
    ensures Bulk(MergeInto(b, a).value) <= Bulk(b) + Size(a)
  {
    hide Merge, Size;
    var c := MergeInto(b, a).value;
    assert SizesOf(c) == SizesOf(b)[a.key := Size(c[a.key])];
    SumSet(SizesOf(b), a.key, Size(c[a.key]));
    if a.key in b {
      MergeSize(b[a.key], a);
    }
  }

  /** Merging never makes a batch larger than the sizes added up. */
  lemma {:induction false} MergedBulk(b: Pending, actions: seq<Action>)
    requires Filed(b) && MergeAll(b, actions).Some?
    ensures Bulk(MergeAll(b, actions).value) <= Bulk(b) + Sizes(actions)
    decreases |actions|
  {
    hide Merge, Size, Bulk;
    if actions != [] {
      StepBulk(b, actions[0]);
      if actions[0].key in b {
        MergeKey(b[actions[0].key], actions[0]);
      }
      MergedBulk(MergeInto(b, actions[0]).value, actions[1..]);
    }
  }

  class SyncBatcher {
    const maxLen: nat
    const maxBytes: nat
    var batch: Pending
    var currentLen: nat
    var estimatedBytes: nat

    ghost predicate Valid()
      reads this
    {
      Filed(batch) && Bulk(batch) <= estimatedBytes
    }

    constructor (maxLen: nat, maxBytes: nat)
      ensures Valid() && this.maxLen == maxLen && this.maxBytes == maxBytes
      ensures batch == map[] && currentLen == 0 && estimatedBytes == 0
    {
      this.maxLen, this.maxBytes := maxLen, maxBytes;
      batch, currentLen, estimatedBytes := map[], 0, 0;
    }

    /** Merges the actions of one block; false is the panic of a bad merge. */
    method PushActions(actions: seq<Action>) returns (ok: bool)
      requires Valid()
      modifies this
      ensures ok == MergeAll(old(batch), actions).Some?
      ensures ok ==>
        && Valid() && batch == MergeAll(old(batch), actions).value
        && currentLen == old(currentLen) + 1
        && estimatedBytes == old(estimatedBytes) + Sizes(actions)
    {
      hide Merge;
      for i := 0 to |actions|
        invariant MergeAll(batch, actions[i..]) == MergeAll(old(batch), actions)
        invariant estimatedBytes == old(estimatedBytes) + Sizes(actions[..i])
        invariant currentLen == old(currentLen)
      {
        var a := actions[i];
        assert actions[i..][1..] == actions[i + 1..];
        SizesPrefix(actions, i);
        estimatedBytes := estimatedBytes + Size(a);
        if a.key in batch {
          var m := Merge(batch[a.key], a);
          if m.None? {
            return false;
          }
          batch := batch[a.key := m.value];
        } else {
          batch := batch[a.key := a];
        }
      }
      assert actions[..|actions|] == actions;
      MergeAllFiled(old(batch), actions);
      MergedBulk(old(batch), actions);
      currentLen := currentLen + 1;
      ok := true;
    }

    method Wipe()
      modifies this
      ensures Valid() && batch == map[] && currentLen == 0 && estimatedBytes == 0
    {
      batch, currentLen, estimatedBytes := map[], 0, 0;
    }

    /** If the next block's actions may still be merged in, the batch with them will
        send at most half the limit. */
    method ShouldFlush(next: seq<Action>) returns (flush: bool)
      requires Valid()
      ensures var merged := MergeAll(batch, next);
        !flush && merged.Some? ==> currentLen < maxLen && 2 * Bulk(merged.value) <= maxBytes
      ensures flush <==> (estimatedBytes + Sizes(next)) * 2 > maxBytes || currentLen >= maxLen
    {
      if MergeAll(batch, next).Some? {
        MergedBulk(batch, next);
      }
      flush := (estimatedBytes + Sizes(next)) * 2 > maxBytes || currentLen >= maxLen;
    }

    /** The pending actions, in whatever order the map yields them. */
    method GetBatchActions() returns (actions: seq<Action>)
      requires Valid()
      ensures Enumerates(batch, actions)
    {
      actions := [];
      var left := batch.Keys;
      ghost var done: Pending := map[];
      EnumeratesNone();
      hide Enumerates, Keys, Bulk;
      while left != {}
        invariant Enumerates(done, actions)
        invariant left !! done.Keys && left + done.Keys == batch.Keys
        invariant forall k <- done :: done[k] == batch[k]
        decreases |left|
      {
        var k :| k in left;
        EnumeratesMore(done, actions, batch[k]);
        done := done[k := batch[k]];
        actions, left := actions + [batch[k]], left - {k};
      }
      assert done == batch;
    }
  }

  lemma EnumeratesNone()
    ensures Enumerates(map[], [])
  {
  }

  lemma EnumeratesMore(b: Pending, actions: seq<Action>, a: Action)
    requires Enumerates(b, actions) && a.key !in b
    ensures Enumerates(b[a.key := a], actions + [a])
  {
    var all := actions + [a];
    forall i, j | 0 <= i < j < |all| ensures Keys(all)[i] != Keys(all)[j] {
      if j < |actions| {
        assert Keys(actions)[i] != Keys(actions)[j];
      } else {
        assert actions[i] in actions;
      }
    }
    forall k | k in b[a.key := a] ensures k in Keys(all) {
      if k == a.key {
        assert Keys(all)[|actions|] == k;
      } else {
        var i :| 0 <= i < |actions| && Keys(actions)[i] == k;
        assert Keys(all)[i] == k;
      }
    }
  }
}
