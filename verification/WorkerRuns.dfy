/** Runs of the storage worker in mutable mode: whatever was rolled forward and
    back, the data store is the one the surviving blocks leave. */
module WorkerRuns {
  import opened Prelude
  import opened Bytes
  import opened Actions
  import opened Batcher
  import opened Rollback

  // ----- the cursor -----

  const CURSOR: byte := 67
  const INFO: byte := 73

  function CursorKey(ns: Bytes): Key {
    ns + [CURSOR]
  }

  function InfoKey(ns: Bytes): Key {
    [INFO, BREAK] + ns
  }

  /** The cursor of a block is written twice, the second time where readers of all
      instances find it. */
  function CursorSets(ns: Bytes, value: Value): seq<Action> {
    [Set(CursorKey(ns), value), Set(InfoKey(ns), value)]
  }

  // ----- the store a block leaves -----

  function ResultAt(s: Store, b: Pending, k: Key): Option<Value> {
    if k in b && !InverseEffect(b[k], Lookup(s, k)).Panics?
    then Outcome(InverseEffect(b[k], Lookup(s, k)), Lookup(s, k)) else Lookup(s, k)
  }

  /** Each merged action takes effect on its key. */
  function Committed(s: Store, b: Pending): Store {
    map k | k in s.Keys + b.Keys && ResultAt(s, b, k).Some? :: ResultAt(s, b, k).value
  }

  lemma {:induction false} CommitIs(s: Store, b: Pending, order: seq<Action>)
    requires Enumerates(b, order) && BatchInverse(s, order).Some?
    ensures BatchInverse(s, order).value.store == Committed(s, b)
  {
    hide InverseEffect, ExecuteInverse;
    var kv := Fetch(s, order, true);
    FetchCurrent(s, order, true);
    InversePointwise(s, kv, order);
    var t := BatchInverse(s, order).value.store;
    forall k ensures Lookup(t, k) == ResultAt(s, b, k) {
      if k in b {
        var i :| 0 <= i < |order| && Keys(order)[i] == k;
        assert order[i] in order;
      } else {
        forall i | 0 <= i < |order| ensures Keys(order)[i] != k {
          assert order[i] in order;
        }
      }
    }
    CommittedAt(s, b);
    SameLookups(t, Committed(s, b));
  }

  lemma CommittedAt(s: Store, b: Pending)
    ensures forall k :: Lookup(Committed(s, b), k) == ResultAt(s, b, k)
  {
    hide InverseEffect;
  }

  // ----- the state machine -----

  datatype Worker = Worker(store: Store, blocks: seq<Entry>, size: nat, last: Option<Point>)

  function Origin(): Point {
    Point(0, seq(32, _ => 0))
  }

  /** An empty buffer is seeded with the last processed point. */
  function Seeded(w: Worker): seq<Entry> {
    if w.blocks == [] then Added([], w.size, Entry(if w.last.Some? then w.last.value else Origin(), [])) else w.blocks
  }

  /** Commits a block; `order` is the order in which its merged actions came out
      of the batcher. None is a panic. */
  function Forward(w: Worker, point: Point, order: seq<Action>): Option<Worker> {
    match BatchInverse(w.store, order)
    case None => None
    case Some(u) =>
      Some(Worker(u.store, Added(Seeded(w), w.size, Entry(point, u.inverses)), w.size, Some(point)))
  }

  /** Undoes the blocks after the point, retrying after each cut. */
  function Back(w: Worker, point: Point, cuts: seq<nat>): Option<Worker> {
    match Position(w.blocks, point)
    case None => None
    case Some(p) =>
      Some(Worker(Retried(w.store, w.blocks[..p], cuts), w.blocks[p..], w.size, Some(point)))
  }

  /** A block that was committed: its point and its merged actions. */
  datatype Done = Done(point: Point, pending: Pending)

  /** The store after committing exactly these blocks, given newest first. */
  function StoreAt(base: Store, hist: seq<Done>): Store {
    if hist == [] then base else Committed(StoreAt(base, hist[1..]), hist[0].pending)
  }

  // ----- the invariant -----

  /** Entry `i` of the buffer undoes the `i`-th newest surviving block exactly. */
  ghost predicate UndoesAt(base: Store, hist: seq<Done>, blocks: seq<Entry>, i: nat)
    requires i < |hist| && i < |blocks|
  {
    && blocks[i].point == hist[i].point
    && WriteAll(StoreAt(base, hist[i..]), Reverse(blocks[i].inverses)) == StoreAt(base, hist[i + 1..])
  }

  ghost predicate Aligned(base: Store, w: Worker, hist: seq<Done>) {
    && w.store == StoreAt(base, hist)
    && |w.blocks| <= |hist| + 1
    && (w.blocks == [] ==> hist == [] || w.size == 0)
    && (forall i :: 0 <= i < |hist| && i < |w.blocks| ==> UndoesAt(base, hist, w.blocks, i))
  }

  lemma {:induction false} UndoReaches(base: Store, hist: seq<Done>, blocks: seq<Entry>, p: nat)
    requires p <= |hist| && p <= |blocks|
    requires forall i :: 0 <= i < p ==> UndoesAt(base, hist, blocks, i)
    ensures UndoAll(StoreAt(base, hist), blocks[..p]) == StoreAt(base, hist[p..])
    decreases p
  {
    if p > 0 {
      UndoReaches(base, hist, blocks, p - 1);
      assert blocks[..p] == blocks[..p - 1] + [blocks[p - 1]];
      UndoAllConcat(StoreAt(base, hist), blocks[..p - 1], [blocks[p - 1]]);
      assert UndoesAt(base, hist, blocks, p - 1);
      UndoAllOne(StoreAt(base, hist[p - 1..]), blocks[p - 1]);
    } else {
      assert hist[0..] == hist;
    }
  }

  lemma UndoAllOne(s: Store, e: Entry)
    ensures UndoAll(s, [e]) == WriteAll(s, Reverse(e.inverses))
  {
    var t := WriteAll(s, Reverse(e.inverses));
    assert [e][1..] == [];
    assert UndoAll(t, []) == t;
  }

  lemma {:induction false} ForwardUndoes(s: Store, b: Pending, order: seq<Action>)
    requires Enumerates(b, order) && BatchInverse(s, order).Some?
    ensures var u := BatchInverse(s, order).value;
      u.store == Committed(s, b) && WriteAll(u.store, Reverse(u.inverses)) == s
  {
    var u := BatchInverse(s, order).value;
    CommitIs(s, b, order);
    FetchCurrent(s, order, true);
    InversesUndo(s, Fetch(s, order, true), order);
  }

  lemma {:induction false} ForwardAligned(
    base: Store, w: Worker, hist: seq<Done>, point: Point, b: Pending, order: seq<Action>)
    requires Aligned(base, w, hist) && Enumerates(b, order) && Forward(w, point, order).Some?
    ensures Aligned(base, Forward(w, point, order).value, [Done(point, b)] + hist)
  {
    ForwardUndoes(w.store, b, order);
    var u := BatchInverse(w.store, order).value;
    hide Committed, BatchInverse, WriteAll, Enumerates, Reverse, UndoesAt;
    var d := Done(point, b);
    var next := Forward(w, point, order).value;
    NewestUndoes(base, hist, d, next.blocks, u);
    forall i | 0 < i < |[d] + hist| && i < |next.blocks| ensures UndoesAt(base, [d] + hist, next.blocks, i) {
      ShiftUndoes(base, hist, w.blocks, d, next.blocks, i);
    }
    assert ([d] + hist)[1..] == hist;
  }

  lemma NewestUndoes(base: Store, hist: seq<Done>, d: Done, blocks: seq<Entry>, u: Undoable)
    requires u.store == Committed(StoreAt(base, hist), d.pending)
    requires WriteAll(u.store, Reverse(u.inverses)) == StoreAt(base, hist)
    requires blocks != [] ==> blocks[0] == Entry(d.point, u.inverses)
    ensures blocks != [] ==> UndoesAt(base, [d] + hist, blocks, 0)
  {
    hide Committed, WriteAll, Reverse;
    var all := [d] + hist;
    assert all[1..] == hist && all[0..] == all;
  }

  lemma ShiftUndoes(base: Store, hist: seq<Done>, blocks: seq<Entry>, d: Done, next: seq<Entry>, i: nat)
    requires 0 < i <= |hist| && i <= |blocks| && i < |next| && next[i] == blocks[i - 1]
    requires UndoesAt(base, hist, blocks, i - 1)
    ensures UndoesAt(base, [d] + hist, next, i)
  {
    hide StoreAt, WriteAll, Reverse;
    var all := [d] + hist;
    assert all[i..] == hist[i - 1..] && all[i + 1..] == hist[i..];
  }

  lemma {:induction false} BackAligned(base: Store, w: Worker, hist: seq<Done>, point: Point, cuts: seq<nat>)
    requires Aligned(base, w, hist) && Back(w, point, cuts).Some?
    ensures var p := Position(w.blocks, point).value;
      p <= |hist| && Aligned(base, Back(w, point, cuts).value, hist[p..])
  {
    var p := Position(w.blocks, point).value;
    RetryIsSafe(w.store, w.blocks[..p], cuts);
    UndoReaches(base, hist, w.blocks, p);
    var next := Back(w, point, cuts).value;
    forall i | 0 <= i < |hist[p..]| && i < |next.blocks| ensures UndoesAt(base, hist[p..], next.blocks, i) {
      assert hist[p..][i..] == hist[p + i..] && hist[p..][i + 1..] == hist[p + i + 1..];
      assert UndoesAt(base, hist, w.blocks, p + i);
    }
  }

  // ----- runs -----

  datatype Unit =
    | RollForward(point: Point, actions: seq<Action>, order: seq<Action>)
    | RollBack(point: Point, cuts: seq<nat>)

  /** The order is one in which the batcher could have yielded the merged actions. */
  ghost predicate Possible(u: Unit) {
    u.RollForward? ==> MergeAll(map[], u.actions).Some? ==> Enumerates(MergeAll(map[], u.actions).value, u.order)
  }

  /** A unit that panics commits nothing. */
  function Do(w: Worker, u: Unit): Worker {
    match u
    case RollForward(point, actions, order) =>
      if MergeAll(map[], actions).None? then w
      else var r := Forward(w, point, order); if r.Some? then r.value else w
    case RollBack(point, cuts) =>
      var r := Back(w, point, cuts); if r.Some? then r.value else w
  }

  /** The surviving blocks, newest first. */
  function Survive(w: Worker, hist: seq<Done>, u: Unit): seq<Done> {
    match u
    case RollForward(point, actions, order) =>
      if MergeAll(map[], actions).None? || Forward(w, point, order).None? then hist
      else [Done(point, MergeAll(map[], actions).value)] + hist
    case RollBack(point, cuts) =>
      var p := Position(w.blocks, point);
      if p.Some? && p.value <= |hist| then hist[p.value..] else hist
  }

  function Run(w: Worker, hist: seq<Done>, units: seq<Unit>): (Worker, seq<Done>)
    decreases |units|
  {
    if units == [] then (w, hist) else Run(Do(w, units[0]), Survive(w, hist, units[0]), units[1..])
  }

  lemma {:induction false} StepAligned(base: Store, w: Worker, hist: seq<Done>, u: Unit)
    requires Aligned(base, w, hist) && Possible(u)
    ensures Aligned(base, Do(w, u), Survive(w, hist, u))
  {
    hide Aligned, Forward, Enumerates;
    match u {
      case RollForward(point, actions, order) =>
        if MergeAll(map[], actions).Some? && Forward(w, point, order).Some? {
          ForwardAligned(base, w, hist, point, MergeAll(map[], actions).value, order);
        }
      case RollBack(point, cuts) =>
        if Back(w, point, cuts).Some? {
          BackAligned(base, w, hist, point, cuts);
        }
    }
  }

  /** After any run of mutable blocks and rollbacks, interrupted and retried or
      not, the data store is byte for byte the one left by committing only the
      surviving blocks. */
  lemma {:induction false} RunKeepsStore(base: Store, w: Worker, hist: seq<Done>, units: seq<Unit>)
    requires Aligned(base, w, hist) && forall u <- units :: Possible(u)
    ensures var (end, survivors) := Run(w, hist, units);
      Aligned(base, end, survivors) && end.store == StoreAt(base, survivors)
    decreases |units|
  {
    hide Do, Survive, Possible;
    if units != [] {
      StepAligned(base, w, hist, units[0]);
      RunKeepsStore(base, Do(w, units[0]), Survive(w, hist, units[0]), units[1..]);
    }
  }

  /** A rollback to a surviving block that is still in the buffer leaves exactly
      the store that block left. */
  lemma RollbackReaches(base: Store, w: Worker, hist: seq<Done>, j: nat, cuts: seq<nat>)
    requires Aligned(base, w, hist) && j < |hist| && j < |w.blocks|
    requires forall i :: 0 <= i < j ==> hist[i].point != hist[j].point
    ensures Back(w, hist[j].point, cuts).Some?
    ensures Back(w, hist[j].point, cuts).value.store == StoreAt(base, hist[j..])
  {
    forall i | 0 <= i <= j ensures w.blocks[i].point == hist[i].point {
      assert UndoesAt(base, hist, w.blocks, i);
    }
    FirstIs(w.blocks, hist[j].point, j);
    BackAligned(base, w, hist, hist[j].point, cuts);
  }

  // ----- flushing a large batch in several transactions -----

  datatype Staggered = Staggered(deletes: seq<Action>, sets: seq<Action>, others: seq<Action>, cursor: Option<Action>)

  function FileUnder(g: Staggered, a: Action, cursorKey: Key): Staggered {
    if a.Delete? then g.(deletes := g.deletes + [a])
    else if a.Set? && a.key == cursorKey then g.(cursor := Some(a))
    else if a.Set? then g.(sets := g.sets + [a])
    else g.(others := g.others + [a])
  }

  /** Deletes, sets without the cursor, everything else; in order. */
  function Sort(actions: seq<Action>, cursorKey: Key): Staggered {
    if actions == [] then Staggered([], [], [], None)
    else FileUnder(Sort(actions[..|actions| - 1], cursorKey), actions[|actions| - 1], cursorKey)
  }

  /** Runs the deletes, the chunks of sets, and last everything else with the
      cursor. None is the panic of a batch without a cursor, or of an action. */
  function Flush(s: Store, actions: seq<Action>, cursorKey: Key): Option<Store> {
    var g := Sort(actions, cursorKey);
    if g.cursor.None? then None
    else Batch(WriteAll(WriteAll(s, g.deletes), g.sets), g.others + [g.cursor.value])
  }

  /** The store when the flush is cut off after some of the deletes' and sets'
      transactions: any prefix of those writes. */
  function FlushCut(s: Store, actions: seq<Action>, cursorKey: Key, count: nat): Store {
    var g := Sort(actions, cursorKey);
    WriteAll(s, Truncated(g.deletes + g.sets, count))
  }

  function FlushRetried(s: Store, actions: seq<Action>, cursorKey: Key, cuts: seq<nat>): Option<Store>
    decreases |cuts|
  {
    if cuts == [] then Flush(s, actions, cursorKey)
    else FlushRetried(FlushCut(s, actions, cursorKey, cuts[0]), actions, cursorKey, cuts[1..])
  }

  /** A staggered flush cut off anywhere before its last commit, any number of
      times, and rerun, leaves the store of an uninterrupted flush. */
  lemma {:induction false} FlushRetrySame(s: Store, t: Store, actions: seq<Action>, cursorKey: Key, cuts: seq<nat>)
    requires var g := Sort(actions, cursorKey); AgreeOutside(s, t, g.deletes + g.sets)
    ensures FlushRetried(t, actions, cursorKey, cuts) == Flush(s, actions, cursorKey)
    decreases |cuts|
  {
    var g := Sort(actions, cursorKey);
    var all := g.deletes + g.sets;
    if cuts == [] {
      WriteAllConcat(s, g.deletes, g.sets);
      WriteAllConcat(t, g.deletes, g.sets);
      WritesDecide(s, t, all);
    } else {
      var done := Truncated(all, cuts[0]);
      var rest := all[|done|..];
      assert all == done + rest;
      WriteAllOutside(t, done);
      AgreePrefix(t, WriteAll(t, done), done, rest);
      FlushRetrySame(s, WriteAll(t, done), actions, cursorKey, cuts[1..]);
    }
  }

  // ----- a staggered flush is a batch -----

  lemma PointwiseConcat(s: Store, mid: Store, t: Store, a: seq<Action>, b: seq<Action>)
    requires NoDup(Keys(a + b)) && Pointwise(s, mid, a, true) && Pointwise(mid, t, b, true)
    ensures Pointwise(s, t, a + b, true)
  {
    hide PlainEffect;
    assert Keys(a + b) == Keys(a) + Keys(b);
    NoDupConcat(Keys(a), Keys(b));
    forall x | x in a + b
      ensures !PlainEffect(x, Lookup(s, x.key)).Panics?
      ensures Lookup(t, x.key) == Outcome(PlainEffect(x, Lookup(s, x.key)), Lookup(s, x.key))
    {
      if x in a {
        KeyIn(a, x);
      } else {
        KeyIn(b, x);
      }
    }
  }

  lemma KeyIn(actions: seq<Action>, x: Action)
    requires x in actions
    ensures x.key in Keys(actions)
  {
    var i :| 0 <= i < |actions| && actions[i] == x;
    assert Keys(actions)[i] == x.key;
  }

  ghost function Sorted(g: Staggered): multiset<Action> {
    multiset(g.deletes) + multiset(g.sets) + multiset(g.others)
    + (if g.cursor.Some? then multiset{g.cursor.value} else multiset{})
  }

  ghost predicate Filed(g: Staggered, actions: seq<Action>, cursorKey: Key) {
    && Absolute(g.deletes) && Absolute(g.sets)
    && Sorted(g) == multiset(actions)
    && (g.cursor.Some? ==> g.cursor.value.key == cursorKey)
  }

  lemma FileStep(g: Staggered, init: seq<Action>, a: Action, cursorKey: Key)
    requires Filed(g, init, cursorKey) && (g.cursor.Some? ==> a.key != cursorKey)
    ensures Filed(FileUnder(g, a, cursorKey), init + [a], cursorKey)
  {
    assert multiset(init + [a]) == multiset(init) + multiset{a};
  }

  lemma {:induction false} SortKeeps(actions: seq<Action>, cursorKey: Key)
    requires NoDup(Keys(actions))
    ensures Filed(Sort(actions, cursorKey), actions, cursorKey)
    decreases |actions|
  {
    if actions != [] {
      var init, a := actions[..|actions| - 1], actions[|actions| - 1];
      assert actions == init + [a];
      assert Keys(actions) == Keys(init) + [a.key];
      NoDupConcat(Keys(init), [a.key]);
      SortKeeps(init, cursorKey);
      var g := Sort(init, cursorKey);
      if g.cursor.Some? {
        FiledCursor(g, init, cursorKey);
        assert a.key in [a.key];
      }
      FileStep(g, init, a, cursorKey);
    }
  }

  lemma FiledCursor(g: Staggered, actions: seq<Action>, cursorKey: Key)
    requires Filed(g, actions, cursorKey) && g.cursor.Some?
    ensures cursorKey in Keys(actions)
  {
    assert g.cursor.value in Sorted(g);
    assert g.cursor.value in multiset(actions);
    KeyIn(actions, g.cursor.value);
  }

  lemma FirstAndLast(g: Staggered, actions: seq<Action>, cursorKey: Key)
    requires NoDup(Keys(actions)) && Filed(g, actions, cursorKey) && g.cursor.Some?
    ensures var first, last := g.deletes + g.sets, g.others + [g.cursor.value];
      && multiset(first + last) == multiset(actions) && Absolute(first)
      && NoDup(Keys(first + last)) && NoDup(Keys(first)) && NoDup(Keys(last))
  {
    var first, last := g.deletes + g.sets, g.others + [g.cursor.value];
    assert multiset(first + last) == Sorted(g);
    KeysPermute(actions, first + last);
    assert Keys(first + last) == Keys(first) + Keys(last);
    NoDupConcat(Keys(first), Keys(last));
  }

  lemma {:induction false} KeyCount(a: seq<Action>, k: Key)
    ensures multiset(Keys(a))[k] == SumBy(a, HasKey(k))
  {
    if a != [] {
      KeyCount(a[1..], k);
      assert Keys(a) == [a[0].key] + Keys(a[1..]);
    }
  }

  function HasKey(k: Key): Action -> int {
    (a: Action) => if a.key == k then 1 else 0
  }

  lemma KeysPermute(a: seq<Action>, b: seq<Action>)
    requires multiset(a) == multiset(b) && NoDup(Keys(a))
    ensures NoDup(Keys(b))
  {
    forall k ensures multiset(Keys(a))[k] == multiset(Keys(b))[k] {
      KeyCount(a, k);
      KeyCount(b, k);
      SumByPermutation(a, b, HasKey(k));
    }
    assert multiset(Keys(a)) == multiset(Keys(b));
    NoDupPermutation(Keys(a), Keys(b));
  }

  /** Flushing in several transactions leaves the store of one transaction. */
  lemma {:induction false} FlushIsBatch(s: Store, actions: seq<Action>, cursorKey: Key, t: Store)
    requires NoDup(Keys(actions)) && Flush(s, actions, cursorKey) == Some(t)
    ensures Batch(s, actions) == Some(t)
  {
    var g := Sort(actions, cursorKey);
    var first, last := g.deletes + g.sets, g.others + [g.cursor.value];
    SortKeeps(actions, cursorKey);
    FirstAndLast(g, actions, cursorKey);
    WriteAllConcat(s, g.deletes, g.sets);
    hide Sort, Filed, NoDup, ExecuteAll, PlainEffect, Sorted;
    var mid := WriteAll(s, first);
    AbsoluteExecutes(s, Fetch(s, first, false), first);
    FetchCurrent(s, first, false);
    ExecutePointwise(s, Fetch(s, first, false), first);
    FetchCurrent(mid, last, false);
    ExecutePointwise(mid, Fetch(mid, last, false), last);
    hide Flush, WriteAll, Current, Pointwise;
    PointwiseConcat(s, mid, t, first, last);
    BatchLike(s, t, first + last, actions);
  }

  lemma {:induction false} BatchLike(s: Store, t: Store, a: seq<Action>, actions: seq<Action>)
    requires Pointwise(s, t, a, true) && multiset(a) == multiset(actions) && NoDup(Keys(actions))
    ensures Batch(s, actions) == Some(t)
  {
    hide PlainEffect;
    var kv := Fetch(s, actions, false);
    FetchCurrent(s, actions, false);
    forall x | x in actions ensures !PlainEffect(x, Lookup(s, x.key)).Panics? {
      assert x in multiset(actions);
      assert x in a;
    }
    NonePanics(s, kv, actions);
    ExecutePointwise(s, kv, actions);
    PointwiseUnique(s, t, Batch(s, actions).value, a, actions, true);
  }

  // ----- a staggered flush does not panic where a batch does not -----

  lemma {:induction false} SortFindsCursor(actions: seq<Action>, cursorKey: Key)
    requires exists a <- actions :: a.Set? && a.key == cursorKey
    ensures Sort(actions, cursorKey).cursor.Some?
    decreases |actions|
  {
    var init, last := actions[..|actions| - 1], actions[|actions| - 1];
    assert actions == init + [last];
    if !(last.Set? && last.key == cursorKey) {
      SortFindsCursor(init, cursorKey);
    }
  }

  lemma {:induction false} FlushRuns(s: Store, actions: seq<Action>, cursorKey: Key)
    requires NoDup(Keys(actions)) && Batch(s, actions).Some?
    requires exists a <- actions :: a.Set? && a.key == cursorKey
    ensures Flush(s, actions, cursorKey) == Batch(s, actions)
  {
    SortFindsCursor(actions, cursorKey);
    var g := Sort(actions, cursorKey);
    var first, last := g.deletes + g.sets, g.others + [g.cursor.value];
    SortKeeps(actions, cursorKey);
    FirstAndLast(g, actions, cursorKey);
    FetchCurrent(s, actions, false);
    ExecutePointwise(s, Fetch(s, actions, false), actions);
    WriteAllConcat(s, g.deletes, g.sets);
    var mid := WriteAll(s, first);
    hide Sort, Filed, ExecuteAll, PlainEffect, Sorted;
    forall a | a in last ensures !PlainEffect(a, Lookup(mid, a.key)).Panics? {
      LastAfterFirst(s, first, last, a);
      assert a in multiset(first + last);
      assert a in actions;
    }
    FetchCurrent(mid, last, false);
    NonePanics(mid, Fetch(mid, last, false), last);
    FlushIsBatch(s, actions, cursorKey, Flush(s, actions, cursorKey).value);
  }

  /** The writes of the first transactions leave the keys of the last alone. */
  lemma LastAfterFirst(s: Store, first: seq<Action>, last: seq<Action>, a: Action)
    requires NoDup(Keys(first + last)) && Absolute(first) && a in last
    ensures Lookup(WriteAll(s, first), a.key) == Lookup(s, a.key)
  {
    assert Keys(first + last) == Keys(first) + Keys(last);
    NoDupConcat(Keys(first), Keys(last));
    KeyIn(last, a);
    WriteAllElsewhere(s, first, a.key);
  }

  lemma {:induction false} WriteAllElsewhere(s: Store, actions: seq<Action>, k: Key)
    requires k !in Keys(actions)
    ensures Lookup(WriteAll(s, actions), k) == Lookup(s, k)
    decreases |actions|
  {
    if actions != [] {
      KeysHead(actions);
      assert k in [actions[0].key] <==> k == actions[0].key;
      WriteAllElsewhere(Written(s, actions[0]), actions[1..], k);
    }
  }
}
