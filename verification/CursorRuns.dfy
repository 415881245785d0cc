/** The cursor in the data store is the one of the newest surviving block, at both keys,
    whatever was rolled forward and back. */
module CursorRuns {
  import opened Prelude
  import opened Bytes
  import opened Actions
  import opened Batcher
  import opened Rollback
  import opened WorkerRuns
  import MirrorRuns
  import IndexRuns

  /** Both keys under which readers look for the cursor hold it. */
  ghost predicate Shows(ns: Bytes, s: Store, cursor: Value) {
    Lookup(s, ns + [67]) == Some(cursor) && Lookup(s, [73, 96] + ns) == Some(cursor)
  }

  ghost predicate Sets(ns: Bytes, b: Pending, cursor: Value) {
    && (ns + [67] in b && b[ns + [67]] == Set(ns + [67], cursor))
    && ([73, 96] + ns in b && b[[73, 96] + ns] == Set([73, 96] + ns, cursor))
  }

  /** A list that ends with the sets of a cursor merges into one that sets it. */
  lemma {:induction false} MergedSets(ns: Bytes, actions: seq<Action>, cursor: Value)
    requires MergeAll(map[], actions + CursorSets(ns, cursor)).Some?
    ensures Sets(ns, MergeAll(map[], actions + CursorSets(ns, cursor)).value, cursor)
  {
    hide MergeAll;
    var first, second := Set(CursorKey(ns), cursor), Set(InfoKey(ns), cursor);
    var most := actions + [first];
    assert actions + CursorSets(ns, cursor) == most + [second];
    IndexRuns.CursorKeysDiffer(ns);
    IndexRuns.MergeSplit(map[], most, [second]);
    MirrorRuns.LastSetPending(map[], most, CursorKey(ns), cursor);
    MirrorRuns.LastSetPending(map[], most + [second], InfoKey(ns), cursor);
    IndexRuns.OneMore(MergeAll(map[], most).value, second, CursorKey(ns));
  }

  /** The store that a block leaves shows the cursor that it sets. */
  lemma CommittedShows(ns: Bytes, s: Store, b: Pending, cursor: Value)
    requires Sets(ns, b, cursor)
    ensures Shows(ns, Committed(s, b), cursor)
  {
    CommittedAt(s, b);
  }

  // ----- runs -----

  /** A block with its cursor, or a rollback. */
  datatype Move =
    | Advance(point: Point, actions: seq<Action>, cursor: Value, order: seq<Action>)
    | Return(point: Point, cuts: seq<nat>)

  function UnitOf(ns: Bytes, m: Move): Unit {
    match m
    case Advance(point, actions, cursor, order) => RollForward(point, actions + CursorSets(ns, cursor), order)
    case Return(point, cuts) => RollBack(point, cuts)
  }

  function UnitsOf(ns: Bytes, ms: seq<Move>): (r: seq<Unit>)
    ensures |r| == |ms| && forall i :: 0 <= i < |ms| ==> r[i] == UnitOf(ns, ms[i])
  {
    seq(|ms|, i requires 0 <= i < |ms| => UnitOf(ns, ms[i]))
  }

  /** Cursors of the surviving blocks, newest first: a block that is committed adds its
      own, a rollback drops those of the blocks above its point. */
  function Cursors(ns: Bytes, w: Worker, cs: seq<Value>, m: Move): seq<Value> {
    match m
    case Advance(point, actions, cursor, order) =>
      if MergeAll(map[], actions + CursorSets(ns, cursor)).None? || BatchInverse(w.store, order).None? then cs
      else [cursor] + cs
    case Return(point, _) =>
      var p := Position(w.blocks, point);
      if p.Some? && p.value <= |cs| then cs[p.value..] else cs
  }

  function CursorsAfter(ns: Bytes, w: Worker, cs: seq<Value>, ms: seq<Move>): seq<Value>
    decreases |ms|
  {
    if ms == [] then cs else CursorsAfter(ns, Do(w, UnitOf(ns, ms[0])), Cursors(ns, w, cs, ms[0]), ms[1..])
  }

  ghost predicate AllSet(ns: Bytes, hist: seq<Done>, cs: seq<Value>) {
    |hist| == |cs| && forall i :: 0 <= i < |cs| ==> Sets(ns, hist[i].pending, cs[i])
  }

  lemma {:induction false} MoveSets(ns: Bytes, w: Worker, hist: seq<Done>, cs: seq<Value>, m: Move)
    requires AllSet(ns, hist, cs)
    ensures AllSet(ns, Survive(w, hist, UnitOf(ns, m)), Cursors(ns, w, cs, m))
  {
    hide Sets, MergeAll, BatchInverse, CursorSets;
    if m.Advance? && MergeAll(map[], m.actions + CursorSets(ns, m.cursor)).Some? {
      MergedSets(ns, m.actions, m.cursor);
    }
  }

  /** After any run of blocks, each setting its cursor last, and of rollbacks, interrupted
      and retried or not, the store shows the cursor of the newest surviving block. */
  lemma {:induction false} RunShows(
    ns: Bytes, base: Store, w: Worker, hist: seq<Done>, cs: seq<Value>, ms: seq<Move>)
    requires Aligned(base, w, hist) && AllSet(ns, hist, cs)
    requires forall u <- UnitsOf(ns, ms) :: Possible(u)
    ensures var (end, survivors) := Run(w, hist, UnitsOf(ns, ms));
      var left := CursorsAfter(ns, w, cs, ms);
      && |left| == |survivors|
      && (left != [] ==> Shows(ns, end.store, left[0]))
      && (left == [] ==> end.store == base)
  {
    hide Aligned, Possible, Sets, Shows;
    RunSets(ns, w, hist, cs, ms);
    RunKeepsStore(base, w, hist, UnitsOf(ns, ms));
    var survivors, left := Run(w, hist, UnitsOf(ns, ms)).1, CursorsAfter(ns, w, cs, ms);
    if left != [] {
      CommittedShows(ns, StoreAt(base, survivors[1..]), survivors[0].pending, left[0]);
    }
  }

  lemma {:induction false} RunSets(ns: Bytes, w: Worker, hist: seq<Done>, cs: seq<Value>, ms: seq<Move>)
    requires AllSet(ns, hist, cs)
    ensures AllSet(ns, Run(w, hist, UnitsOf(ns, ms)).1, CursorsAfter(ns, w, cs, ms))
    decreases |ms|
  {
    hide AllSet, Do, Survive, Cursors, UnitOf;
    if ms != [] {
      MoveSets(ns, w, hist, cs, ms[0]);
      assert UnitsOf(ns, ms)[1..] == UnitsOf(ns, ms[1..]);
      RunSets(ns, Do(w, UnitOf(ns, ms[0])), Survive(w, hist, UnitOf(ns, ms[0])), Cursors(ns, w, cs, ms[0]), ms[1..]);
    }
  }
}
