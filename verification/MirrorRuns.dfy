/** Runs of the worker with its persisted metadata. What the metadata needs of each
    block, an inverse for it and no empty value to restore, follows from the cursor
    that every block sets and from stored values not being empty. */
module MirrorRuns {
  import opened Prelude
  import opened Bytes
  import opened Actions
  import opened Batcher
  import opened Rollback
  import opened Metadata
  import opened PersistedBuffer
  import opened WorkerRuns
  import opened WorkerPersistence
  import opened Restarts

  // ----- values that can be stored -----

  /** No stored value is empty. */
  ghost predicate Full(s: Store) {
    forall k <- s :: s[k] != []
  }

  predicate Writable(a: Action) {
    |a.key| < 0x1_0000_0000 && (a.Set? || a.Insert? ==> a.value != [])
  }

  ghost predicate AllWritable(actions: seq<Action>) {
    forall a <- actions :: Writable(a)
  }

  /** An inverse that restores a value or its absence. */
  predicate Restores(a: Action) {
    |a.key| < 0x1_0000_0000 && (a.Delete? || (a.Set? && a.value != []))
  }

  ghost predicate AllRestore(actions: seq<Action>) {
    forall a <- actions :: Restores(a)
  }

  lemma EffectFull(a: Action, prev: Option<Value>)
    requires Writable(a)
    ensures var e := InverseEffect(a, prev); e.Put? ==> e.value != []
  {
  }

  lemma PerformFull(s: Store, a: Action)
    requires Full(s) && Writable(a) && !InverseEffect(a, Lookup(s, a.key)).Panics?
    ensures Full(Perform(s, a.key, InverseEffect(a, Lookup(s, a.key))))
    ensures var i := Inverse(a, Lookup(s, a.key)); i.Some? ==> Restores(i.value)
  {
    EffectFull(a, Lookup(s, a.key));
    hide InverseEffect;
  }

  /** The inverses of a block restore non-empty values, and its store is full. */
  lemma {:induction false} ExecuteFull(s: Store, kv: Store, order: seq<Action>)
    requires ExecuteInverse(s, kv, order).Some? && NoDup(Keys(order)) && Current(s, kv, order, true)
    requires Full(s) && AllWritable(order)
    ensures var u := ExecuteInverse(s, kv, order).value;
      Full(u.store) && AllRestore(u.inverses) && |u.inverses| <= |order|
    decreases |order|
  {
    hide InverseEffect, Inverse, Perform, Full, Writable, Restores, Keys;
    if order != [] {
      var a := order[0];
      assert a in order;
      StepFetched(s, kv, order);
      PerformFull(s, a);
      ExecuteFull(Perform(s, a.key, InverseEffect(a, Lookup(kv, a.key))), kv - {a.key}, order[1..]);
    }
  }

  /** A block that moves the cursor always has something to undo. */
  lemma CursorLeavesInverse(s: Store, order: seq<Action>, k: Key, v: Value)
    requires BatchInverse(s, order).Some? && NoDup(Keys(order))
    requires Set(k, v) in order && Lookup(s, k) != Some(v)
    ensures BatchInverse(s, order).value.inverses != []
  {
    FetchCurrent(s, order, true);
    CursorInverse(s, Fetch(s, order, true), order, k, v);
  }

  lemma {:induction false} CursorInverse(s: Store, kv: Store, order: seq<Action>, k: Key, v: Value)
    requires ExecuteInverse(s, kv, order).Some? && NoDup(Keys(order)) && Current(s, kv, order, true)
    requires Set(k, v) in order && Lookup(s, k) != Some(v)
    ensures ExecuteInverse(s, kv, order).value.inverses != []
    decreases |order|
  {
    var a := order[0];
    StepFetched(s, kv, order);
    if a != Set(k, v) {
      KeysHead(order);
      assert Set(k, v) in order[1..];
      var e := InverseEffect(a, Lookup(kv, a.key));
      PerformElsewhere(s, a.key, e, k);
      CursorInverse(Perform(s, a.key, e), kv - {a.key}, order[1..], k, v);
    }
  }

  // ----- what the batcher yields -----

  ghost predicate WritablePending(b: Pending) {
    forall k <- b :: b[k].key == k && Writable(b[k])
  }

  lemma MergeWritable(a: Action, b: Action)
    requires Writable(a) && Writable(b) && a.key == b.key && Merge(a, b).Some?
    ensures Writable(Merge(a, b).value) && Merge(a, b).value.key == b.key
  {
  }

  lemma {:induction false} MergeAllWritable(b: Pending, actions: seq<Action>)
    requires WritablePending(b) && AllWritable(actions) && MergeAll(b, actions).Some?
    ensures WritablePending(MergeAll(b, actions).value)
    decreases |actions|
  {
    hide Merge, Writable;
    if actions != [] {
      var a := actions[0];
      assert a in actions;
      if a.key in b {
        MergeWritable(b[a.key], a);
      }
      MergeAllWritable(MergeInto(b, a).value, actions[1..]);
    }
  }

  /** A final overwrite is what is pending on its key. */
  lemma {:induction false} LastSetPending(b: Pending, actions: seq<Action>, k: Key, v: Value)
    requires actions != [] && actions[|actions| - 1] == Set(k, v) && MergeAll(b, actions).Some?
    ensures k in MergeAll(b, actions).value && MergeAll(b, actions).value[k] == Set(k, v)
    decreases |actions|
  {
    if |actions| > 1 {
      LastSetPending(MergeInto(b, actions[0]).value, actions[1..], k, v);
    } else {
      assert actions[1..] == [];
    }
  }

  /** The merged actions of a block whose last one sets the cursor. */
  lemma MergedOrder(actions: seq<Action>, order: seq<Action>, k: Key, v: Value)
    requires MergeAll(map[], actions).Some? && Enumerates(MergeAll(map[], actions).value, order)
    requires AllWritable(actions) && actions != [] && actions[|actions| - 1] == Set(k, v)
    ensures NoDup(Keys(order)) && AllWritable(order) && Set(k, v) in order
  {
    hide Writable, MergeAll;
    MergeAllWritable(map[], actions);
    LastSetPending(map[], actions, k, v);
    var i :| 0 <= i < |order| && Keys(order)[i] == k;
    assert order[i] in order;
  }

  // ----- rollbacks -----

  lemma {:induction false} WriteAllFull(s: Store, actions: seq<Action>)
    requires Full(s) && AllRestore(actions)
    ensures Full(WriteAll(s, actions))
    decreases |actions|
  {
    if actions != [] {
      assert actions[0] in actions;
      WriteAllFull(Written(s, actions[0]), actions[1..]);
    }
  }

  lemma {:induction false} UndoAllFull(s: Store, entries: seq<Entry>)
    requires Full(s) && forall e <- entries :: AllRestore(e.inverses)
    ensures Full(UndoAll(s, entries))
    decreases |entries|
  {
    hide Restores, Full, WriteAll, Reverse;
    if entries != [] {
      var inverses := entries[0].inverses;
      assert entries[0] in entries;
      forall a | a in Reverse(inverses) ensures Restores(a) {
        var i :| 0 <= i < |inverses| && Reverse(inverses)[i] == a;
        assert a == inverses[|inverses| - 1 - i];
      }
      WriteAllFull(s, Reverse(inverses));
      UndoAllFull(WriteAll(s, Reverse(inverses)), entries[1..]);
    }
  }

  // ----- the invariant -----

  /** Stored values are not empty, and neither are those the buffer would restore. */
  ghost predicate Readable(w: Worker) {
    && Full(w.store)
    && (forall e <- w.blocks :: AllRestore(e.inverses))
  }

  lemma BackReadable(w: Worker, point: Point, cuts: seq<nat>)
    requires Readable(w) && Back(w, point, cuts).Some?
    ensures Readable(Back(w, point, cuts).value)
  {
    hide Full, AllRestore, Retried;
    var pos := Position(w.blocks, point).value;
    RetryIsSafe(w.store, w.blocks[..pos], cuts);
    UndoAllFull(w.store, w.blocks[..pos]);
  }

  lemma ForwardReadable(w: Worker, point: Point, order: seq<Action>)
    requires Readable(w) && Forward(w, point, order).Some? && AllWritable(order) && NoDup(Keys(order))
    ensures Readable(Forward(w, point, order).value)
    ensures var u := BatchInverse(w.store, order).value; AllRestore(u.inverses) && |u.inverses| <= |order|
  {
    hide Full, Restores, Writable, ExecuteInverse;
    FetchCurrent(w.store, order, true);
    ExecuteFull(w.store, Fetch(w.store, order, true), order);
  }

  // ----- runs -----

  /** What happens to a worker: units of work, and restarts between them. */
  datatype Duty = Work(unit: Unit) | Restart(last: Option<Point>)

  /** A worker that starts from what was persisted. */
  function Restarted(p: Persistent, l: seq<Entry>, last: Option<Point>): Persistent {
    p.(w := Worker(p.w.store, LoadBuffer(l, p.w.size), p.w.size, last))
  }

  /** A unit that panics commits nothing, and metadata that cannot be read stops a
      restart. */
  ghost function DoBoth(p: Persistent, ns: Bytes, d: Duty): Persistent {
    match d
    case Work(RollForward(point, actions, order)) =>
      var r := ForwardBoth(p, ns, point, order);
      if MergeAll(map[], actions).None? || r.None? then p else r.value
    case Work(RollBack(point, cuts)) =>
      var r := BackBoth(p, ns, point, cuts);
      if r.None? then p else r.value
    case Restart(last) =>
      var l := Fetched(p.meta, ns);
      if l.None? then p else Restarted(p, l.value, last)
  }

  /** The surviving blocks, newest first. */
  function Survivors(p: Persistent, hist: seq<Done>, d: Duty): seq<Done> {
    if d.Work? then Survive(p.w, hist, d.unit) else hist
  }

  ghost function RunBoth(p: Persistent, ns: Bytes, hist: seq<Done>, ds: seq<Duty>): (Persistent, seq<Done>)
    decreases |ds|
  {
    if ds == [] then (p, hist) else RunBoth(DoBoth(p, ns, ds[0]), ns, Survivors(p, hist, ds[0]), ds[1..])
  }

  /** What a block brings: actions with keys and values that can be stored, and last
      its cursor with a new value. */
  ghost predicate MovesCursor(s: Store, ns: Bytes, actions: seq<Action>) {
    && AllWritable(actions) && 2 <= |actions|
    && (var v := actions[|actions| - 1];
        && v.Set? && actions[|actions| - 2..] == CursorSets(ns, v.value) && Lookup(s, InfoKey(ns)) != Some(v.value))
  }

  /** Blocks come at the next height and move the cursor. */
  ghost predicate ProperDuty(p: Persistent, ns: Bytes, hist: seq<Done>, d: Duty) {
    match d
    case Work(RollForward(point, actions, order)) =>
      && Possible(d.unit) && GoodPoint(point) && NextHeight(p.w, hist, point)
      && MovesCursor(p.w.store, ns, actions) && |order| < U64
    case Work(RollBack(point, _)) => point.height + 1 < U64
    case Restart(_) => true
  }

  ghost predicate ProperDuties(p: Persistent, ns: Bytes, hist: seq<Done>, ds: seq<Duty>)
    decreases |ds|
  {
    ds == []
    || (ProperDuty(p, ns, hist, ds[0]) && ProperDuties(DoBoth(p, ns, ds[0]), ns, Survivors(p, hist, ds[0]), ds[1..]))
  }

  /** Memory undoes the surviving blocks, and metadata mirrors memory and undoes them
      too. */
  ghost predicate InStep(base: Store, p: Persistent, ns: Bytes, l: seq<Entry>, hist: seq<Done>) {
    && Aligned(base, p.w, hist) && Mirrors(p, ns, l, Own(p.w.blocks, hist)) && Backs(base, hist, Reverse(l))
    && Readable(p.w) && p.w.size > 0
  }

  /** A committed block can be persisted and read back. */
  lemma {:induction false} BlockStorable(
    p: Persistent, ns: Bytes, hist: seq<Done>, point: Point, actions: seq<Action>, order: seq<Action>)
    requires p.w.size > 0 && Readable(p.w) && ProperDuty(p, ns, hist, Work(RollForward(point, actions, order)))
    requires MergeAll(map[], actions).Some? && BatchInverse(p.w.store, order).Some?
    ensures NextPoint(p.w, Own(p.w.blocks, hist), Entry(point, BatchInverse(p.w.store, order).value.inverses))
    ensures Readable(Forward(p.w, point, order).value)
  {
    hide Readable, BatchInverse, Enumerates, Writable, Represents, RecordsOfAll;
    var last := actions[|actions| - 1];
    assert last == actions[|actions| - 2..][1];
    MergedOrder(actions, order, InfoKey(ns), last.value);
    hide MergeAll;
    ForwardReadable(p.w, point, order);
    CursorLeavesInverse(p.w.store, order, InfoKey(ns), last.value);
    SeedStorable(p.w);
  }

  lemma SeedStorable(w: Worker)
    ensures w.last.Some? && GoodPoint(w.last.value) ==> Storable(Entry(w.last.value, [Delete([])]))
  {
  }

  lemma {:induction false} CommitInStep(
    base: Store, p: Persistent, ns: Bytes, l: seq<Entry>, hist: seq<Done>, point: Point, actions: seq<Action>,
    order: seq<Action>)
    returns (l': seq<Entry>)
    requires InStep(base, p, ns, l, hist) && ProperDuty(p, ns, hist, Work(RollForward(point, actions, order)))
    requires MergeAll(map[], actions).Some? && ForwardBoth(p, ns, point, order).Some?
    ensures InStep(base, ForwardBoth(p, ns, point, order).value, ns, l',
                   [Done(point, MergeAll(map[], actions).value)] + hist)
  {
    hide MergeAll, BatchInverse, Enumerates, Aligned, Readable, CommitMeta, MovesCursor, Reverse, Mirrors, Backs;
    hide InStep, NextHeight, GoodPoint, Added, Seeded;
    InStepIs(base, p, ns, l, hist);
    var b := MergeAll(map[], actions).value;
    var e, done := Entry(point, BatchInverse(p.w.store, order).value.inverses), Done(point, b);
    BlockStorable(p, ns, hist, point, actions, order);
    var n', d;
    l', n', d := CommitMirrors(p, ns, l, Own(p.w.blocks, hist), point, order);
    ForwardAligned(base, p.w, hist, point, b, order);
    ForwardUndoes(p.w.store, b, order);
    AlignedStore(base, p.w, hist);
    LeavesSome(ForwardBoth(p, ns, point, order).value, ns, l', n');
    CommitBacks(base, p, ns, l, hist, e, done, l', d);
    MemoryBound(p, ns, l, Own(p.w.blocks, hist));
    KeptIsOwn(base, p.w, hist, e, done);
    InStepIs(base, ForwardBoth(p, ns, point, order).value, ns, l', [done] + hist);
  }

  lemma MemoryBound(p: Persistent, ns: Bytes, l: seq<Entry>, n: nat)
    requires Mirrors(p, ns, l, n)
    ensures |p.w.blocks| <= p.w.size
  {
  }

  lemma LeavesSome(p: Persistent, ns: Bytes, l: seq<Entry>, n: nat)
    requires Mirrors(p, ns, l, n)
    ensures n > 0 ==> l != []
  {
    hide Represents, RecordsOfAll, Rising;
  }

  lemma AlignedStore(base: Store, w: Worker, hist: seq<Done>)
    requires Aligned(base, w, hist)
    ensures w.store == StoreAt(base, hist)
  {
  }

  lemma {:induction false} CommitBacks(
    base: Store, p: Persistent, ns: Bytes, l: seq<Entry>, hist: seq<Done>, e: Entry, done: Done, l': seq<Entry>,
    d: nat)
    requires Aligned(base, p.w, hist) && Mirrors(p, ns, l, Own(p.w.blocks, hist)) && Backs(base, hist, Reverse(l))
    requires p.w.size > 0 && NextHeight(p.w, hist, e.point) && e.point == done.point
    requires WriteAll(Committed(StoreAt(base, hist), done.pending), Reverse(e.inverses)) == StoreAt(base, hist)
    requires var l1 := SeededList(p.w, l) + [e]; d < |l1| && l' == l1[d..]
    ensures Backs(base, [done] + hist, Reverse(l'))
  {
    hide Aligned, Backs, WriteAll, Committed, StoreAt, Added, Seeded, Represents, RecordsOfAll, NextHeight;
    var l1 := SeededList(p.w, l) + [e];
    var r := Reverse(l);
    ReversePush(SeededList(p.w, l), e);
    if p.w.last.Some? {
      ReversePush(l, Entry(p.w.last.value, [Delete([])]));
    }
    assert Reverse(l1) == [e] + SeededNewest(p.w, r);
    ReverseCut(l1, d);
    hide Newest, Rising;
    PushBacks(base, p.w, hist, r, e, done, |l1| - d);
  }

  lemma {:induction false} BackInStep(
    base: Store, p: Persistent, ns: Bytes, l: seq<Entry>, hist: seq<Done>, point: Point, cuts: seq<nat>)
    returns (l': seq<Entry>)
    requires InStep(base, p, ns, l, hist) && point.height + 1 < U64 && BackBoth(p, ns, point, cuts).Some?
    ensures var pos := Position(p.w.blocks, point).value;
      pos <= |hist| && InStep(base, BackBoth(p, ns, point, cuts).value, ns, l', hist[pos..])
  {
    hide Aligned, Readable, Trimmed, Retried, Reverse, Mirrors, Backs, CountBelow, Position, InStep;
    InStepIs(base, p, ns, l, hist);
    BackIs(p, ns, point, cuts);
    var pos := Position(p.w.blocks, point).value;
    BackAligned(base, p.w, hist, point, cuts);
    BackReadable(p.w, point, cuts);
    var n';
    l', n' := RollbackMirrors(p, ns, l, Own(p.w.blocks, hist), point, cuts);
    TrimBacks(base, p, ns, l, hist, pos);
    InStepIs(base, BackBoth(p, ns, point, cuts).value, ns, l', hist[pos..]);
  }

  lemma InStepIs(base: Store, p: Persistent, ns: Bytes, l: seq<Entry>, hist: seq<Done>)
    ensures InStep(base, p, ns, l, hist)
       <==> && Aligned(base, p.w, hist) && Mirrors(p, ns, l, Own(p.w.blocks, hist)) && Backs(base, hist, Reverse(l))
            && Readable(p.w) && p.w.size > 0
  {
    hide Aligned, Mirrors, Backs, Readable;
  }

  lemma BackIs(p: Persistent, ns: Bytes, point: Point, cuts: seq<nat>)
    requires BackBoth(p, ns, point, cuts).Some?
    ensures Back(p.w, point, cuts).Some? && Position(p.w.blocks, point).Some?
    ensures var q, pos := BackBoth(p, ns, point, cuts).value, Position(p.w.blocks, point).value;
      && q.w == Back(p.w, point, cuts).value && q.w.size == p.w.size && q.w.blocks == p.w.blocks[pos..]
      && pos < |p.w.blocks| && p.w.blocks[pos].point == point
  {
    hide Retried, Trimmed;
  }

  lemma {:induction false} TrimBacks(
    base: Store, p: Persistent, ns: Bytes, l: seq<Entry>, hist: seq<Done>, pos: nat)
    requires Aligned(base, p.w, hist) && Mirrors(p, ns, l, Own(p.w.blocks, hist)) && Backs(base, hist, Reverse(l))
    requires pos < |p.w.blocks| && pos <= |hist|
    ensures Backs(base, hist[pos..], Reverse(l[..CountBelow(l, p.w.blocks[pos].point.height + 1)]))
  {
    hide Aligned, Backs, Represents, RecordsOfAll, Newest;
    var c := CountBelow(l, p.w.blocks[pos].point.height + 1);
    CutAt(l, p.w.blocks[pos].point.height + 1);
    hide Rising;
    ReverseCut(l, c);
    CutBacks(base, p.w, hist, Reverse(l), pos, |l| - c);
  }

  lemma {:induction false} RestartInStep(
    base: Store, p: Persistent, ns: Bytes, l: seq<Entry>, hist: seq<Done>, last: Option<Point>)
    requires InStep(base, p, ns, l, hist)
    ensures Fetched(p.meta, ns) == Some(l)
    ensures var q := Restarted(p, l, last); InStep(base, q, ns, l, hist)
  {
    PersistedMatches(p, ns, l, Own(p.w.blocks, hist));
    LoadBufferIs(l, p.w.size);
    ReverseFalls(l);
    hide Aligned, Backs, Represents, RecordsOfAll, Newest, Fetched, LoadBuffer;
    LoadServes(base, p.w, hist, Reverse(l), last);
    LoadReadable(p.w, l);
  }

  lemma ReverseFalls(l: seq<Entry>)
    requires Rising(l)
    ensures Falling(Reverse(l))
  {
    hide Storable;
  }

  lemma LoadReadable(w: Worker, l: seq<Entry>)
    requires Readable(w) && Rising(l)
    ensures forall e <- Truncated(Reverse(l), w.size) :: AllRestore(e.inverses)
  {
    var r := Reverse(l);
    forall e | e in Truncated(r, w.size) ensures AllRestore(e.inverses) {
      var i :| 0 <= i < |l| && r[i] == e;
      assert l[|l| - 1 - i] in l;
    }
  }

  lemma {:induction false} StepInStep(
    base: Store, p: Persistent, ns: Bytes, l: seq<Entry>, hist: seq<Done>, d: Duty)
    returns (l': seq<Entry>)
    requires InStep(base, p, ns, l, hist) && ProperDuty(p, ns, hist, d)
    ensures InStep(base, DoBoth(p, ns, d), ns, l', Survivors(p, hist, d))
  {
    hide InStep, BatchInverse, CommitMeta, Trimmed, Seeded, GoodPoint, NextHeight, MovesCursor, Fetched, Restarted;
    l' := l;
    match d {
      case Work(RollForward(point, actions, order)) =>
        if MergeAll(map[], actions).Some? && ForwardBoth(p, ns, point, order).Some? {
          l' := CommitInStep(base, p, ns, l, hist, point, actions, order);
        }
      case Work(RollBack(point, cuts)) =>
        if BackBoth(p, ns, point, cuts).Some? {
          l' := BackInStep(base, p, ns, l, hist, point, cuts);
        }
      case Restart(last) =>
        RestartInStep(base, p, ns, l, hist, last);
    }
  }

  /** The metadata can be read, and what it loads starts with the committed blocks in
      memory. */
  ghost predicate ReadsBack(p: Persistent, ns: Bytes, hist: seq<Done>) {
    && Fetched(p.meta, ns).Some?
    && var loaded, n := LoadBuffer(Fetched(p.meta, ns).value, p.w.size), Own(p.w.blocks, hist);
    n <= |loaded| && loaded[..n] == p.w.blocks[..n]
  }

  lemma NowReadsBack(p: Persistent, ns: Bytes, l: seq<Entry>, hist: seq<Done>)
    requires Mirrors(p, ns, l, Own(p.w.blocks, hist))
    ensures ReadsBack(p, ns, hist)
  {
    hide Fetched, LoadBuffer, Represents, RecordsOfAll;
    PersistedMatches(p, ns, l, Own(p.w.blocks, hist));
  }

  /** Over any run of blocks, rollbacks and restarts the store is that of committing
      the surviving blocks only, and between any two of them the persisted metadata
      reads back as the blocks in memory. */
  lemma {:induction false} RunMirrors(
    base: Store, p: Persistent, ns: Bytes, l: seq<Entry>, hist: seq<Done>, ds: seq<Duty>)
    requires InStep(base, p, ns, l, hist) && ProperDuties(p, ns, hist, ds)
    ensures var (q, survivors) := RunBoth(p, ns, hist, ds);
      Aligned(base, q.w, survivors) && q.w.store == StoreAt(base, survivors) && ReadsBack(q, ns, survivors)
    decreases |ds|
  {
    if ds == [] {
      hide Fetched, LoadBuffer, Backs, Readable;
      NowReadsBack(p, ns, l, hist);
    } else {
      hide InStep, DoBoth, Survivors, ProperDuty, ReadsBack, Aligned;
      var l' := StepInStep(base, p, ns, l, hist, ds[0]);
      RunMirrors(base, DoBoth(p, ns, ds[0]), ns, l', Survivors(p, hist, ds[0]), ds[1..]);
    }
  }

  /** A worker without metadata, on a store without empty values. */
  function Fresh(s: Store, size: nat, last: Option<Point>): Persistent {
    Persistent(Worker(s, [], size, last), map[])
  }

  lemma FreshInStep(s: Store, ns: Bytes, size: nat, last: Option<Point>)
    requires Full(s) && size > 0
    ensures InStep(s, Fresh(s, size, last), ns, [], [])
  {
  }

  /** The same from a worker's very start. */
  lemma FreshRun(s: Store, ns: Bytes, size: nat, last: Option<Point>, ds: seq<Duty>)
    requires Full(s) && size > 0 && ProperDuties(Fresh(s, size, last), ns, [], ds)
    ensures var (q, survivors) := RunBoth(Fresh(s, size, last), ns, [], ds);
      q.w.store == StoreAt(s, survivors) && ReadsBack(q, ns, survivors)
  {
    hide InStep, RunBoth, ProperDuties, ReadsBack, Fresh;
    FreshInStep(s, ns, size, last);
    RunMirrors(s, Fresh(s, size, last), ns, [], [], ds);
  }
}
