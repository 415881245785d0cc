/** The index and the balances over everything a storage worker goes through: bulk
    batches from an empty store, then mutable blocks, rollbacks and restarts. */
module IndexRuns {
  import opened Prelude
  import opened Bytes
  import opened Actions
  import opened Batcher
  import opened Rollback
  import opened WorkerRuns
  import opened WorkerPersistence
  import opened Restarts
  import opened MirrorRuns
  import opened Reducers
  import opened ReducerBatches
  import opened ReducerStage

  // ----- what the stage emits can be stored -----

  lemma {:induction false} IndexWritable(ns: Bytes, events: seq<Event>, chained: set<OutPoint>)
    requires |ns| < 0x1_0000 && forall e <- events :: Encodable(e.at, e.coin)
    ensures AllWritable(IndexActions(ns, events, chained))
    decreases |events|
  {
    if events != [] {
      assert events[0] in events;
      IndexWritable(ns, events[1..], chained);
    }
  }

  lemma BalanceWritable(ns: Bytes, events: seq<Event>)
    requires |ns| < 0x1_0000 && forall e <- events :: Encodable(e.at, e.coin)
    ensures AllWritable(BalanceActions(ns, events))
  {
    forall a | a in BalanceActions(ns, events) ensures Writable(a) {
      var i :| 0 <= i < |events| && a == BalanceAction(ns, events[i]);
      assert events[i] in events;
    }
  }

  lemma BlockWritable(ns: Bytes, events: seq<Event>, indexFirst: bool, value: Value)
    requires |ns| < 0x1_0000 && value != [] && forall e <- events :: Encodable(e.at, e.coin)
    ensures AllWritable(BlockActions(ns, events, indexFirst, value))
  {
    IndexWritable(ns, events, ChainedOf(events));
    BalanceWritable(ns, events);
    hide IndexActions, BalanceActions, Encodable;
  }

  lemma {:induction false} RunWritable(
    ns: Bytes, u: Unspent, blocks: seq<seq<Event>>, indexFirst: bool, values: seq<Value>)
    requires |ns| < 0x1_0000 && |values| == |blocks| && [] !in values && ValidChain(u, blocks)
    ensures AllWritable(RunActions(ns, blocks, indexFirst, values))
    decreases |blocks|
  {
    hide Writable, BlockActions, Encodable, Valid, NewOutputs;
    if blocks != [] {
      assert values[0] in values;
      BlockWritable(ns, blocks[0], indexFirst, values[0]);
      RunWritable(ns, HappenAll(u, blocks[0]), blocks[1..], indexFirst, values[1..]);
    }
  }

  // ----- bulk batches -----

  /** A run of blocks, from the one at `first` on, merged into one batch, which goes
      out in one transaction, or in several that may be cut off and rerun. */
  datatype Bulk = Bulk(
    first: Point, blocks: seq<seq<Event>>, values: seq<Value>, order: seq<Action>, staggered: bool, cuts: seq<nat>)

  function BulkStore(ns: Bytes, s: Store, b: Bulk): Option<Store> {
    if b.staggered then FlushRetried(s, b.order, CursorKey(ns), b.cuts) else Batch(s, b.order)
  }

  ghost predicate ProperBulk(ns: Bytes, indexFirst: bool, u: Unspent, b: Bulk) {
    && b.blocks != [] && |b.values| == |b.blocks| && [] !in b.values
    && ValidChain(u, b.blocks) && Bounded(u, Joined(b.blocks))
    && var merged := MergeAll(map[], RunActions(ns, b.blocks, indexFirst, b.values));
    merged.Some? ==> Enumerates(merged.value, b.order)
  }

  lemma {:induction false} PlainFull(s: Store, kv: Store, order: seq<Action>)
    requires ExecuteAll(s, kv, order).Some? && NoDup(Keys(order)) && Current(s, kv, order, false)
    requires Full(s) && AllWritable(order)
    ensures Full(ExecuteAll(s, kv, order).value)
    decreases |order|
  {
    if order != [] {
      var a := order[0];
      assert a in order;
      StepCurrent(s, kv, order);
      PlainFull(Perform(s, a.key, PlainEffect(a, Lookup(kv, a.key))), Used(kv, a), order[1..]);
    }
  }

  lemma {:induction false} LastCursor(ns: Bytes, blocks: seq<seq<Event>>, indexFirst: bool, values: seq<Value>)
    requires blocks != [] && |values| == |blocks|
    ensures var acts := RunActions(ns, blocks, indexFirst, values);
      |acts| >= 2 && acts[|acts| - 2..] == CursorSets(ns, values[|values| - 1])
    decreases |blocks|
  {
    hide IndexActions, BalanceActions;
    var head := BlockActions(ns, blocks[0], indexFirst, values[0]);
    var rest := RunActions(ns, blocks[1..], indexFirst, values[1..]);
    if |blocks| == 1 {
      assert head + rest == head;
    } else {
      LastCursor(ns, blocks[1..], indexFirst, values[1..]);
      assert (head + rest)[|head + rest| - 2..] == rest[|rest| - 2..];
    }
  }

  /** The merged actions of a list that ends with a cursor set the cursor key, too. */
  lemma {:induction false} CursorInOrder(ns: Bytes, actions: seq<Action>, order: seq<Action>, value: Value)
    requires |actions| >= 2 && actions[|actions| - 2..] == CursorSets(ns, value) && CursorKey(ns) != InfoKey(ns)
    requires MergeAll(map[], actions).Some? && Enumerates(MergeAll(map[], actions).value, order)
    ensures exists a <- order :: a.Set? && a.key == CursorKey(ns)
  {
    var n := |actions| - 2;
    var k := CursorKey(ns);
    assert actions == actions[..n + 1] + [Set(InfoKey(ns), value)] by {
      assert actions[n..][1] == Set(InfoKey(ns), value);
    }
    assert actions[..n + 1][n] == actions[n..][0] == Set(k, value);
    MergeSplit(map[], actions[..n + 1], [Set(InfoKey(ns), value)]);
    LastSetPending(map[], actions[..n + 1], k, value);
    var b := MergeAll(map[], actions).value;
    OneMore(MergeAll(map[], actions[..n + 1]).value, Set(InfoKey(ns), value), k);
    var i :| 0 <= i < |order| && Keys(order)[i] == k;
    assert order[i] in order;
  }

  lemma OneMore(b: Pending, a: Action, k: Key)
    requires MergeAll(b, [a]).Some? && a.key != k && k in b
    ensures k in MergeAll(b, [a]).value && MergeAll(b, [a]).value[k] == b[k]
  {
    hide Merge;
    assert [a][1..] == [];
    assert MergeAll(MergeInto(b, a).value, []) == Some(MergeInto(b, a).value);
  }

  lemma {:induction false} MergeSplit(b: Pending, x: seq<Action>, y: seq<Action>)
    requires MergeAll(b, x + y).Some?
    ensures MergeAll(b, x).Some? && MergeAll(MergeAll(b, x).value, y) == MergeAll(b, x + y)
    decreases |x|
  {
    hide MergeInto;
    if x == [] {
      assert x + y == y;
    } else {
      assert (x + y)[1..] == x[1..] + y;
      MergeSplit(MergeInto(b, x[0]).value, x[1..], y);
    }
  }

  lemma CursorKeysDiffer(ns: Bytes)
    ensures CursorKey(ns) != InfoKey(ns)
  {
    assert |CursorKey(ns)| != |InfoKey(ns)|;
  }

  /** A bulk batch goes through, keeps index and balances, and stores no empty value. */
  lemma {:induction false} BulkKeeps(ns: Bytes, indexFirst: bool, u: Unspent, s: Store, b: Bulk)
    requires |ns| < 0x1_0000 && Matches(ns, u, s) && Full(s) && ProperBulk(ns, indexFirst, u, b)
    ensures BulkStore(ns, s, b).Some? && Full(BulkStore(ns, s, b).value)
    ensures KeptBy(ns, HappenAll(u, Joined(b.blocks)), BulkStore(ns, s, b).value)
  {
    hide Matches, Full, ValidChain, Bounded, Enumerates, Batch, BatchInverse, KeptBy, HappenAll, RunActions, MergeAll;
    hide FlushRetried, Writable;
    var actions := RunActions(ns, b.blocks, indexFirst, b.values);
    StageKeepsBoth(ns, u, s, b.blocks, indexFirst, b.values, b.order);
    RunWritable(ns, u, b.blocks, indexFirst, b.values);
    LastCursor(ns, b.blocks, indexFirst, b.values);
    CursorKeysDiffer(ns);
    var value := b.values[|b.values| - 1];
    assert actions[|actions| - 1] == actions[|actions| - 2..][1] == Set(InfoKey(ns), value);
    MergedOrder(actions, b.order, InfoKey(ns), value);
    CursorInOrder(ns, actions, b.order, value);
    BatchFull(s, b.order);
    FlushSame(s, b.order, CursorKey(ns), b.cuts);
  }

  lemma BatchFull(s: Store, order: seq<Action>)
    requires Batch(s, order).Some? && NoDup(Keys(order)) && Full(s) && AllWritable(order)
    ensures Full(Batch(s, order).value)
  {
    hide ExecuteAll, Full, Writable;
    FetchCurrent(s, order, false);
    PlainFull(s, Fetch(s, order, false), order);
  }

  lemma FlushSame(s: Store, order: seq<Action>, cursorKey: Key, cuts: seq<nat>)
    requires Batch(s, order).Some? && NoDup(Keys(order)) && exists a <- order :: a.Set? && a.key == cursorKey
    ensures FlushRetried(s, order, cursorKey, cuts) == Batch(s, order)
  {
    hide Batch, Flush, FlushRetried, Sort;
    FlushRuns(s, order, cursorKey);
    FlushRetrySame(s, s, order, cursorKey, cuts);
  }

  function BulkRun(ns: Bytes, s: Store, bs: seq<Bulk>): Option<Store>
    decreases |bs|
  {
    if bs == [] then Some(s)
    else
      match BulkStore(ns, s, bs[0])
      case None => None
      case Some(t) => BulkRun(ns, t, bs[1..])
  }

  function BulkUnspent(u: Unspent, bs: seq<Bulk>): Unspent
    decreases |bs|
  {
    if bs == [] then u else BulkUnspent(HappenAll(u, Joined(bs[0].blocks)), bs[1..])
  }

  ghost predicate ProperBulks(ns: Bytes, indexFirst: bool, u: Unspent, bs: seq<Bulk>)
    decreases |bs|
  {
    bs == []
    || (ProperBulk(ns, indexFirst, u, bs[0])
        && ProperBulks(ns, indexFirst, HappenAll(u, Joined(bs[0].blocks)), bs[1..]))
  }

  lemma {:induction false} BulksKeep(ns: Bytes, indexFirst: bool, u: Unspent, s: Store, bs: seq<Bulk>)
    requires |ns| < 0x1_0000 && KeptBy(ns, u, s) && Full(s) && ProperBulks(ns, indexFirst, u, bs)
    ensures BulkRun(ns, s, bs).Some? && Full(BulkRun(ns, s, bs).value)
    ensures KeptBy(ns, BulkUnspent(u, bs), BulkRun(ns, s, bs).value)
    decreases |bs|
  {
    hide Matches, BalancesAreSums, Full, ProperBulk, BulkStore, HappenAll;
    if bs != [] {
      BulkKeeps(ns, indexFirst, u, s, bs[0]);
      BulksKeep(ns, indexFirst, HappenAll(u, Joined(bs[0].blocks)), BulkStore(ns, s, bs[0]).value, bs[1..]);
    }
  }

  /** The last processed point when the mutable blocks begin. Sending a batch sets it
      to the block that comes next, the first of the following batch, and the last
      batch goes out with the first mutable block, without setting it. */
  function LastAfter(intersect: Option<Point>, bs: seq<Bulk>): Option<Point> {
    if |bs| < 2 then intersect else Some(bs[|bs| - 1].first)
  }

  // ----- mutable blocks -----

  datatype Step =
    | Apply(point: Point, events: seq<Event>, value: Value, order: seq<Action>)
    | Undo(point: Point, cuts: seq<nat>)
    | Reboot(last: Option<Point>)

  function DutyOf(ns: Bytes, indexFirst: bool, st: Step): Duty {
    match st
    case Apply(point, events, value, order) =>
      Work(RollForward(point, BlockActions(ns, events, indexFirst, value), order))
    case Undo(point, cuts) => Work(RollBack(point, cuts))
    case Reboot(last) => Restart(last)
  }

  function DutiesOf(ns: Bytes, indexFirst: bool, sts: seq<Step>): (r: seq<Duty>)
    ensures |r| == |sts|
    ensures forall i :: 0 <= i < |sts| ==> r[i] == DutyOf(ns, indexFirst, sts[i])
  {
    seq(|sts|, i requires 0 <= i < |sts| => DutyOf(ns, indexFirst, sts[i]))
  }

  /** The events of the surviving blocks, newest first. */
  function ChainAfter(w: Worker, chain: seq<seq<Event>>, st: Step): seq<seq<Event>> {
    match st
    case Apply(_, events, _, _) => [events] + chain
    case Undo(point, _) =>
      var p := Position(w.blocks, point);
      if p.Some? && p.value <= |chain| then chain[p.value..] else chain
    case Reboot(_) => chain
  }

  /** The unspent outputs after these blocks. */
  function UnspentAt(u: Unspent, chain: seq<seq<Event>>): Unspent {
    if chain == [] then u else HappenAll(UnspentAt(u, chain[1..]), chain[0])
  }

  /** A valid block on top of the chain, at the next height and with a new cursor. */
  ghost predicate ProperStep(
    p: Persistent, ns: Bytes, indexFirst: bool, hist: seq<Done>, u: Unspent, st: Step) {
    match st
    case Apply(point, events, value, order) =>
      && ValidChain(u, [events]) && Bounded(u, Joined([events]))
      && Possible(DutyOf(ns, indexFirst, st).unit) && GoodPoint(point) && NextHeight(p.w, hist, point)
      && |order| < U64 && value != [] && Lookup(p.w.store, InfoKey(ns)) != Some(value)
    case Undo(point, _) => point.height + 1 < U64
    case Reboot(_) => true
  }

  ghost predicate ProperSteps(
    p: Persistent, ns: Bytes, indexFirst: bool, hist: seq<Done>, u: Unspent, chain: seq<seq<Event>>, sts: seq<Step>)
    decreases |sts|
  {
    sts == []
    || (&& ProperStep(p, ns, indexFirst, hist, UnspentAt(u, chain), sts[0])
        && var d := DutyOf(ns, indexFirst, sts[0]);
        ProperSteps(DoBoth(p, ns, d), ns, indexFirst, Survivors(p, hist, d), u, ChainAfter(p.w, chain, sts[0]),
                    sts[1..]))
  }

  lemma OneBlock(ns: Bytes, u: Unspent, events: seq<Event>, indexFirst: bool, value: Value)
    ensures RunActions(ns, [events], indexFirst, [value]) == BlockActions(ns, events, indexFirst, value)
    ensures Joined([events]) == events
  {
    hide BlockActions;
    assert [events][1..] == [] && [value][1..] == [];
    assert RunActions(ns, [], indexFirst, []) == [];
    assert Joined([]) == [];
  }

  lemma ProperDutyOf(p: Persistent, ns: Bytes, indexFirst: bool, hist: seq<Done>, u: Unspent, st: Step)
    requires |ns| < 0x1_0000 && ProperStep(p, ns, indexFirst, hist, u, st)
    ensures ProperDuty(p, ns, hist, DutyOf(ns, indexFirst, st))
  {
    hide Possible, NextHeight, GoodPoint, Bounded, Encodable, Valid, NewOutputs, HappenAll;
    if st.Apply? {
      var actions := BlockActions(ns, st.events, indexFirst, st.value);
      assert [st.events][0] == st.events;
      BlockWritable(ns, st.events, indexFirst, st.value);
      OneBlock(ns, u, st.events, indexFirst, st.value);
      LastCursor(ns, [st.events], indexFirst, [st.value]);
      hide BlockActions, RunActions, Writable;
      assert actions[|actions| - 1] == actions[|actions| - 2..][1];
    }
  }

  // ----- every surviving block left a matching store -----

  ghost predicate Tells(ns: Bytes, u: Unspent, base: Store, hist: seq<Done>, chain: seq<seq<Event>>) {
    && |hist| == |chain|
    && (forall i :: 0 <= i <= |chain| ==> KeptBy(ns, UnspentAt(u, chain[i..]), StoreAt(base, hist[i..])))
  }

  lemma {:induction false} ApplyTells(
    ns: Bytes, indexFirst: bool, u: Unspent, base: Store, p: Persistent, hist: seq<Done>, chain: seq<seq<Event>>,
    st: Step)
    requires Tells(ns, u, base, hist, chain) && Aligned(base, p.w, hist) && st.Apply?
    requires ProperStep(p, ns, indexFirst, hist, UnspentAt(u, chain), st)
    ensures var d := DutyOf(ns, indexFirst, st); Tells(ns, u, base, Survivors(p, hist, d), ChainAfter(p.w, chain, st))
  {
    hide BlockActions, HappenAll, MergeAll, Committed, GoodPoint;
    hide NextHeight, Bounded, KeptBy, Forward, ValidChain, Possible;
    var now, actions := UnspentAt(u, chain), BlockActions(ns, st.events, indexFirst, st.value);
    assert chain[0..] == chain && hist[0..] == hist;
    AlignedStore(base, p.w, hist);
    hide Aligned;
    BlockCommits(ns, indexFirst, now, p.w, st);
    var done := Done(st.point, MergeAll(map[], actions).value);
    PushTells(ns, u, base, hist, chain, done, st.events);
  }

  /** A valid block commits, and leaves a matching store. */
  lemma {:induction false} BlockCommits(ns: Bytes, indexFirst: bool, u: Unspent, w: Worker, st: Step)
    requires st.Apply? && KeptBy(ns, u, w.store)
    requires ValidChain(u, [st.events]) && Bounded(u, Joined([st.events])) && Possible(DutyOf(ns, indexFirst, st).unit)
    ensures var b := MergeAll(map[], BlockActions(ns, st.events, indexFirst, st.value));
      && b.Some? && Forward(w, st.point, st.order).Some?
      && KeptBy(ns, HappenAll(u, st.events), Committed(w.store, b.value))
  {
    hide BlockActions, HappenAll, MergeAll, BatchInverse, Batch;
    hide Committed, Enumerates, Bounded, KeptBy, ValidChain, RunActions;
    var actions := BlockActions(ns, st.events, indexFirst, st.value);
    KeptMatches(ns, u, w.store);
    OneBlock(ns, u, st.events, indexFirst, st.value);
    StageKeepsBoth(ns, u, w.store, [st.events], indexFirst, [st.value], st.order);
    CommitIs(w.store, MergeAll(map[], actions).value, st.order);
  }

  lemma KeptMatches(ns: Bytes, u: Unspent, s: Store)
    requires KeptBy(ns, u, s)
    ensures Matches(ns, u, s)
  {
  }

  lemma PushTells(
    ns: Bytes, u: Unspent, base: Store, hist: seq<Done>, chain: seq<seq<Event>>, done: Done, events: seq<Event>)
    requires Tells(ns, u, base, hist, chain)
    requires KeptBy(ns, HappenAll(UnspentAt(u, chain), events), Committed(StoreAt(base, hist), done.pending))
    ensures Tells(ns, u, base, [done] + hist, [events] + chain)
  {
    hide KeptBy, HappenAll, Committed;
    var h, c := [done] + hist, [events] + chain;
    assert h[1..] == hist && c[1..] == chain && h[0..] == h && c[0..] == c;
    forall i | 0 < i <= |c| ensures KeptBy(ns, UnspentAt(u, c[i..]), StoreAt(base, h[i..])) {
      assert c[i..] == chain[i - 1..] && h[i..] == hist[i - 1..];
    }
  }

  lemma CutTells(ns: Bytes, u: Unspent, base: Store, hist: seq<Done>, chain: seq<seq<Event>>, k: nat)
    requires Tells(ns, u, base, hist, chain) && k <= |chain|
    ensures Tells(ns, u, base, hist[k..], chain[k..])
  {
    hide KeptBy;
    forall i | 0 <= i <= |chain[k..]| ensures KeptBy(ns, UnspentAt(u, chain[k..][i..]), StoreAt(base, hist[k..][i..])) {
      assert chain[k..][i..] == chain[k + i..] && hist[k..][i..] == hist[k + i..];
    }
  }

  lemma {:induction false} StepTells(
    ns: Bytes, indexFirst: bool, u: Unspent, base: Store, p: Persistent, hist: seq<Done>, chain: seq<seq<Event>>,
    st: Step)
    requires Tells(ns, u, base, hist, chain) && Aligned(base, p.w, hist)
    requires ProperStep(p, ns, indexFirst, hist, UnspentAt(u, chain), st)
    ensures var d := DutyOf(ns, indexFirst, st); Tells(ns, u, base, Survivors(p, hist, d), ChainAfter(p.w, chain, st))
  {
    match st {
      case Apply(_, _, _, _) =>
        ApplyTells(ns, indexFirst, u, base, p, hist, chain, st);
      case Undo(point, _) =>
        hide Aligned, ProperStep;
        var pos := Position(p.w.blocks, point);
        if pos.Some? && pos.value <= |chain| {
          CutTells(ns, u, base, hist, chain, pos.value);
        }
      case Reboot(_) =>
    }
  }

  /** The surviving chain after the steps. */
  ghost function StepsChain(
    p: Persistent, ns: Bytes, indexFirst: bool, chain: seq<seq<Event>>, sts: seq<Step>): seq<seq<Event>>
    decreases |sts|
  {
    if sts == [] then chain
    else StepsChain(DoBoth(p, ns, DutyOf(ns, indexFirst, sts[0])), ns, indexFirst, ChainAfter(p.w, chain, sts[0]),
                    sts[1..])
  }

  /** Over any run of valid blocks, rollbacks and restarts, the store's index is the
      unspent outputs of the surviving chain, each balance is the sum of its script's
      rows, and the metadata reads back as the blocks in memory. */
  lemma {:induction false} StepsKeep(
    ns: Bytes, indexFirst: bool, u: Unspent, base: Store, p: Persistent, l: seq<Entry>,
    hist: seq<Done>, chain: seq<seq<Event>>, sts: seq<Step>)
    requires |ns| < 0x1_0000 && InStep(base, p, ns, l, hist) && Tells(ns, u, base, hist, chain)
    requires ProperSteps(p, ns, indexFirst, hist, u, chain, sts)
    ensures var (q, survivors) := RunBoth(p, ns, hist, DutiesOf(ns, indexFirst, sts));
      && KeptBy(ns, UnspentAt(u, StepsChain(p, ns, indexFirst, chain, sts)), q.w.store)
      && ReadsBack(q, ns, survivors)
    decreases |sts|
  {
    var ds := DutiesOf(ns, indexFirst, sts);
    InStepIs(base, p, ns, l, hist);
    hide InStep, KeptBy, Aligned, Mirrors, Backs, Readable;
    hide DoBoth, Survivors, ProperStep, ReadsBack, ChainAfter, DutyOf;
    if sts == [] {
      assert hist[0..] == hist && chain[0..] == chain;
      AlignedStore(base, p.w, hist);
      NowReadsBack(p, ns, l, hist);
    } else {
      var d := DutyOf(ns, indexFirst, sts[0]);
      assert ds[1..] == DutiesOf(ns, indexFirst, sts[1..]);
      ProperDutyOf(p, ns, indexFirst, hist, UnspentAt(u, chain), sts[0]);
      StepTells(ns, indexFirst, u, base, p, hist, chain, sts[0]);
      var l' := StepInStep(base, p, ns, l, hist, d);
      hide Tells, UnspentAt;
      StepsKeep(ns, indexFirst, u, base, DoBoth(p, ns, d), l', Survivors(p, hist, d), ChainAfter(p.w, chain, sts[0]),
                sts[1..]);
    }
  }

  /** The worker when the bulk batches are out. */
  function Begun(s: Store, bs: seq<Bulk>, size: nat, intersect: Option<Point>): Persistent {
    Fresh(s, size, LastAfter(intersect, bs))
  }

  /** A worker's whole life: bulk batches into an empty store, however each was sent,
      then any run of mutable blocks, rollbacks and restarts. */
  lemma {:induction false} LifeKeeps(
    ns: Bytes, indexFirst: bool, bs: seq<Bulk>, size: nat, intersect: Option<Point>, sts: seq<Step>)
    requires |ns| < 0x1_0000 && size > 0 && ProperBulks(ns, indexFirst, map[], bs)
    requires var s := BulkRun(ns, map[], bs);
      s.Some? ==> ProperSteps(Begun(s.value, bs, size, intersect), ns, indexFirst, [], BulkUnspent(map[], bs), [], sts)
    ensures BulkRun(ns, map[], bs).Some?
    ensures var p := Begun(BulkRun(ns, map[], bs).value, bs, size, intersect);
      var (q, survivors) := RunBoth(p, ns, [], DutiesOf(ns, indexFirst, sts));
      && KeptBy(ns, UnspentAt(BulkUnspent(map[], bs), StepsChain(p, ns, indexFirst, [], sts)), q.w.store)
      && ReadsBack(q, ns, survivors)
  {
    hide KeptBy, Full, ProperBulks, ProperSteps, BulkRun, BulkUnspent, RunBoth, StepsChain, InStep, ReadsBack, Fresh;
    EmptyKept(ns);
    BulksKeep(ns, indexFirst, map[], map[], bs);
    var s, u := BulkRun(ns, map[], bs).value, BulkUnspent(map[], bs);
    FreshInStep(s, ns, size, LastAfter(intersect, bs));
    NothingTells(ns, u, s);
    StepsKeep(ns, indexFirst, u, s, Begun(s, bs, size, intersect), [], [], [], sts);
  }

  lemma NothingTells(ns: Bytes, u: Unspent, s: Store)
    requires KeptBy(ns, u, s)
    ensures Tells(ns, u, s, [], [])
  {
    hide KeptBy;
    var hist: seq<Done>, chain: seq<seq<Event>> := [], [];
    assert hist[0..] == hist && chain[0..] == chain;
  }

  lemma EmptyKept(ns: Bytes)
    ensures KeptBy(ns, map[], map[]) && Full(map[])
  {
    EmptyMatches(ns);
    MatchesSums(ns, map[], map[]);
  }

  // ----- the seeded point lags -----

  /** The index tells the unspent outputs apart. */
  lemma MatchesOnce(ns: Bytes, u: Unspent, v: Unspent, s: Store)
    requires IndexMatches(ns, u, s) && IndexMatches(ns, v, s)
    ensures u == v
  {
    hide IndexMatches;
    forall o | o in u ensures o in v && v[o] == u[o] {
      MatchesPart(ns, u, v, s, o);
    }
    forall o | o in v ensures o in u {
      MatchesPart(ns, v, u, s, o);
    }
  }

  lemma MatchesPart(ns: Bytes, u: Unspent, v: Unspent, s: Store, o: OutPoint)
    requires IndexMatches(ns, u, s) && IndexMatches(ns, v, s) && o in u
    ensures o in v && v[o] == u[o]
  {
    var k := IndexKey(ns, o, u[o]);
    assert IsIndexKey(ns, k);
    hide Be, IndexKey, Encodable, Pow256;
    var x :| x in v && IndexKey(ns, x, v[x]) == k;
    IndexKeyInjective(ns, x, v[x], o, u[o]);
    Pow8();
    BeInjective(u[o].value, v[o].value, 8);
  }

  /** The unspent outputs at the last processed point, and what the rest of the last
      batch does to them. */
  function AtLast(bs: seq<Bulk>): Unspent
    requires bs != [] && bs[|bs| - 1].blocks != []
  {
    var n := |bs| - 1;
    HappenAll(BulkUnspent(map[], bs[..n]), bs[n].blocks[0])
  }

  lemma {:induction false} BulkUnspentLast(u: Unspent, bs: seq<Bulk>)
    requires bs != []
    ensures var n := |bs| - 1; BulkUnspent(u, bs) == HappenAll(BulkUnspent(u, bs[..n]), Joined(bs[n].blocks))
    decreases |bs|
  {
    hide HappenAll, Joined;
    if |bs| > 1 {
      BulkUnspentLast(HappenAll(u, Joined(bs[0].blocks)), bs[1..]);
      assert bs[1..][..|bs| - 2] == bs[..|bs| - 1][1..];
    } else {
      assert bs[..0] == [] && bs[1..] == [];
    }
  }

  lemma {:induction false} LastSplits(bs: seq<Bulk>)
    requires bs != [] && bs[|bs| - 1].blocks != []
    ensures BulkUnspent(map[], bs) == HappenAll(AtLast(bs), Joined(bs[|bs| - 1].blocks[1..]))
  {
    var blocks := bs[|bs| - 1].blocks;
    BulkUnspentLast(map[], bs);
    hide BulkUnspent;
    HappenConcat(BulkUnspent(map[], bs[..|bs| - 1]), blocks[0], Joined(blocks[1..]));
  }

  lemma {:induction false} BulksNotEmpty(ns: Bytes, indexFirst: bool, u: Unspent, bs: seq<Bulk>)
    requires ProperBulks(ns, indexFirst, u, bs)
    ensures forall b <- bs :: b.blocks != []
    decreases |bs|
  {
    hide HappenAll, ValidChain, Bounded, MergeAll, Enumerates, RunActions;
    if bs != [] {
      BulksNotEmpty(ns, indexFirst, HappenAll(u, Joined(bs[0].blocks)), bs[1..]);
    }
  }

  /** Rolling everything mutable back reaches the point that the buffer was seeded
      with, the first block of the last batch, but leaves the store that the whole
      batch left: its index is that of the chain up to the point if and only if the
      rest of the batch changes no unspent output. */
  lemma {:induction false} SeedIndexIff(
    ns: Bytes, indexFirst: bool, bs: seq<Bulk>, size: nat, intersect: Option<Point>, sts: seq<Step>)
    requires |ns| < 0x1_0000 && size > 0 && |bs| >= 2 && ProperBulks(ns, indexFirst, map[], bs)
    requires var s := BulkRun(ns, map[], bs);
      s.Some? ==>
        var p := Begun(s.value, bs, size, intersect);
        && ProperSteps(p, ns, indexFirst, [], BulkUnspent(map[], bs), [], sts)
        && StepsChain(p, ns, indexFirst, [], sts) == []
    ensures BulkRun(ns, map[], bs).Some? && bs[|bs| - 1].blocks != []
    ensures var p := Begun(BulkRun(ns, map[], bs).value, bs, size, intersect);
      var (q, _) := RunBoth(p, ns, [], DutiesOf(ns, indexFirst, sts));
      && p.w.last == Some(bs[|bs| - 1].first)
      && (IndexMatches(ns, AtLast(bs), q.w.store)
          <==> HappenAll(AtLast(bs), Joined(bs[|bs| - 1].blocks[1..])) == AtLast(bs))
  {
    hide IndexMatches, Full, ProperBulks, ProperSteps, BulkRun, RunBoth, StepsChain, ReadsBack, BulkUnspent, AtLast;
    hide BalancesMatch, BalancesAreSums;
    BulksNotEmpty(ns, indexFirst, map[], bs);
    assert bs[|bs| - 1] in bs;
    LifeKeeps(ns, indexFirst, bs, size, intersect, sts);
    LastSplits(bs);
    var p := Begun(BulkRun(ns, map[], bs).value, bs, size, intersect);
    var (q, _) := RunBoth(p, ns, [], DutiesOf(ns, indexFirst, sts));
    var now := BulkUnspent(map[], bs);
    if IndexMatches(ns, AtLast(bs), q.w.store) {
      MatchesOnce(ns, AtLast(bs), now, q.w.store);
    }
  }

  /** So it is not if the batch goes on with a block that only creates an output. */
  lemma SeedLags(bs: seq<Bulk>, o: OutPoint, c: Coin)
    requires bs != [] && |bs[|bs| - 1].blocks| == 2 && bs[|bs| - 1].blocks[1] == [Create(o, c)] && o !in AtLast(bs)
    ensures HappenAll(AtLast(bs), Joined(bs[|bs| - 1].blocks[1..])) != AtLast(bs)
  {
    hide AtLast;
    var rest := bs[|bs| - 1].blocks[1..];
    assert rest == [[Create(o, c)]] && rest[1..] == [];
    assert Joined(rest) == [Create(o, c)];
    assert [Create(o, c)][1..] == [];
  }
}
