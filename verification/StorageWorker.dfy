/** The storage worker object and its loops, proved against the state machine. */
module StorageWorker {
  import opened Prelude
  import opened Bytes
  import opened OrderedKeys
  import opened Actions
  import opened Batcher
  import opened Rollback
  import opened Metadata
  import opened PersistedBuffer
  import opened WorkerRuns
  import opened WorkerPersistence

  // ----- transactions -----

  /** Runs a batch on values fetched up front, each used once. */
  method ApplyPlain(s: Store, fetched: Store, actions: seq<Action>) returns (r: Option<Store>)
    ensures r == ExecuteAll(s, fetched, actions)
  {
    var txn, kv := s, fetched;
    for i := 0 to |actions|
      invariant ExecuteAll(txn, kv, actions[i..]) == ExecuteAll(s, fetched, actions)
    {
      assert actions[i..][1..] == actions[i + 1..];
      var a := actions[i];
      var e := PlainEffect(a, Lookup(kv, a.key));
      if e.Panics? {
        return None;
      }
      txn, kv := Perform(txn, a.key, e), Used(kv, a);
    }
    r := Some(txn);
  }

  ghost function Prepend(inverses: seq<Action>, u: Option<Undoable>): Option<Undoable> {
    if u.None? then None else Some(Undoable(u.value.store, inverses + u.value.inverses))
  }

  lemma PrependAssoc(a: seq<Action>, b: seq<Action>, u: Option<Undoable>)
    ensures Prepend(a + b, u) == Prepend(a, Prepend(b, u))
  {
    if u.Some? {
      ConcatAssoc(a, b, u.value.inverses);
    }
  }

  lemma InverseHead(s: Store, kv: Store, actions: seq<Action>)
    requires actions != []
    ensures var a := actions[0];
      var e := InverseEffect(a, Lookup(kv, a.key));
      var i := Inverse(a, Lookup(kv, a.key));
      ExecuteInverse(s, kv, actions)
      == if e.Panics? then None
         else Prepend(if i.Some? then [i.value] else [],
                      ExecuteInverse(Perform(s, a.key, e), kv - {a.key}, actions[1..]))
  {
    var a := actions[0];
    var e := InverseEffect(a, Lookup(kv, a.key));
    if !e.Panics? {
      var u := ExecuteInverse(Perform(s, a.key, e), kv - {a.key}, actions[1..]);
      assert u.Some? ==> [] + u.value.inverses == u.value.inverses;
    }
  }

  /** Runs a batch and derives the inverse of every action that changed anything. */
  method ApplyWithInverse(s: Store, fetched: Store, actions: seq<Action>) returns (r: Option<Undoable>)
    ensures r == ExecuteInverse(s, fetched, actions)
  {
    hide InverseEffect, Inverse, Perform;
    var txn, kv, inverses := s, fetched, [];
    ghost var all := ExecuteInverse(s, fetched, actions);
    assert all.Some? ==> [] + all.value.inverses == all.value.inverses;
    for i := 0 to |actions|
      invariant Prepend(inverses, ExecuteInverse(txn, kv, actions[i..])) == all
    {
      assert actions[i..][1..] == actions[i + 1..];
      InverseHead(txn, kv, actions[i..]);
      var a := actions[i];
      var prev := Lookup(kv, a.key);
      var e := InverseEffect(a, prev);
      if e.Panics? {
        return None;
      }
      var inv := Inverse(a, prev);
      var more := if inv.Some? then [inv.value] else [];
      txn, kv := Perform(txn, a.key, e), kv - {a.key};
      PrependAssoc(inverses, more, ExecuteInverse(txn, kv, actions[i + 1..]));
      inverses := inverses + more;
    }
    assert inverses + [] == inverses;
    r := Some(Undoable(txn, inverses));
  }

  /** Flushes a large batch: deletes first, then sets, then everything else with the
      cursor, each in transactions of their own. */
  method ApplyStaggered(s: Store, actions: seq<Action>, cursorKey: Key) returns (r: Option<Store>)
    ensures r == Flush(s, actions, cursorKey)
  {
    var g := Staggered([], [], [], None);
    for i := 0 to |actions|
      invariant g == Sort(actions[..i], cursorKey)
    {
      assert actions[..i + 1][..i] == actions[..i];
      g := FileUnder(g, actions[i], cursorKey);
    }
    assert actions[..|actions|] == actions;
    var txn := WriteActions(s, g.deletes);
    txn := WriteActions(txn, g.sets);
    if g.cursor.None? {
      return None;
    }
    var others := g.others + [g.cursor.value];
    r := ApplyPlain(txn, Fetch(txn, others, false), others);
  }

  // ----- metadata -----

  method PutMetadata(meta: Meta, ns: Bytes, e: Entry) returns (r: Meta)
    ensures r == PutEntry(meta, ns, e)
  {
    r := meta;
    for i := 0 to |e.inverses|
      invariant PutFrom(r, ns, e, i) == PutFrom(meta, ns, e, 0)
    {
      r := r[FullKey(ns, KeyAt(e, i)) := ValueOf(e.inverses[i])];
    }
  }

  /** Deletes the keys of a range one by one. */
  method DeleteRange(meta: Meta, lo: Bytes, hi: Bytes) returns (r: Meta)
    ensures r == OutsideRange(meta, lo, hi)
  {
    hide Within;
    r := meta;
    var left := set k | k in meta && Within(k, lo, hi);
    while left != {}
      invariant forall k :: k in left ==> k in r && Within(k, lo, hi)
      invariant forall k :: k in r <==> k in meta && (Within(k, lo, hi) ==> k in left)
      invariant forall k <- r :: r[k] == meta[k]
      decreases |left|
    {
      var k :| k in left;
      r, left := r - {k}, left - {k};
    }
  }

  /** Regroups scanned records into blocks, oldest first. */
  method ReadBuffer(b: Meta, ns: Bytes, keys: seq<Bytes>) returns (r: Option<seq<Entry>>)
    requires forall x <- keys :: x in b
    ensures var st := LoadAll(START, b, ns, keys);
      r == if st.Some? then Some(Finish(st.value)) else None
  {
    hide DecodeKey;
    var st := START;
    for i := 0 to |keys|
      invariant LoadAll(st, b, ns, keys[i..]) == LoadAll(START, b, ns, keys)
    {
      assert keys[i..][1..] == keys[i + 1..];
      if |keys[i]| < |Head(ns)| {
        return None;
      }
      var k := DecodeKey(keys[i][|Head(ns)|..]);
      if k.None? {
        return None;
      }
      st := LoadStep(st, k.value, b[keys[i]]);
    }
    r := Some(Finish(st));
  }

  /** Persists the inverses of a block, and before the first one the point it builds
      on; then collects what fell out of the buffer. */
  method CommitMetadata(meta: Meta, ns: Bytes, first: bool, last: Option<Point>, size: nat, e: Entry, ghost w: Worker)
    returns (r: Meta)
    requires first == (w.blocks == []) && last == w.last && size == w.size
    ensures r == CommitMeta(meta, ns, w, e)
  {
    hide PutEntry, OutsideRange;
    r := meta;
    if first && last.Some? {
      r := PutMetadata(r, ns, Entry(last.value, [Delete([])]));
    }
    r := PutMetadata(r, ns, e);
    if size <= e.point.height {
      r := DeleteRange(r, Head(ns), HeightBound(ns, e.point.height - size));
    }
  }

  // ----- bulk batches -----

  const STAGGER_ABOVE: nat := 5000

  /** What sending a bulk batch does to the store: large ones go out staggered. */
  function Sent(s: Store, order: seq<Action>, cursorKey: Key): Option<Store> {
    if |order| > STAGGER_ABOVE then Flush(s, order, cursorKey) else Batch(s, order)
  }

  method SendBatch(s: Store, order: seq<Action>, cursorKey: Key) returns (r: Option<Store>)
    ensures r == Sent(s, order, cursorKey)
  {
    if |order| > STAGGER_ABOVE {
      r := ApplyStaggered(s, order, cursorKey);
    } else {
      r := ApplyPlain(s, Fetch(s, order, false), order);
    }
  }

  // ----- the worker -----

  class TikvWorker {
    const ns: Bytes
    const buffer: RollbackBuffer
    const batcher: SyncBatcher
    var store: Store
    var meta: Meta
    var last: Option<Point>

    ghost function View(): Persistent
      reads this, buffer
    {
      Persistent(Worker(store, buffer.blocks, buffer.size, last), meta)
    }

    constructor (
      ns: Bytes, buffer: RollbackBuffer, batcher: SyncBatcher, store: Store, meta: Meta, last: Option<Point>)
      ensures this.ns == ns && this.buffer == buffer && this.batcher == batcher
      ensures View() == Persistent(Worker(store, buffer.blocks, buffer.size, last), meta)
    {
      this.ns, this.buffer, this.batcher := ns, buffer, batcher;
      this.store, this.meta, this.last := store, meta, last;
    }

    /** Takes a block in bulk mode. If the pending batch is full it is sent first, and
        the last processed point becomes this block, which is then pending alone. */
    method RollForwardBulk(point: Point, actions: seq<Action>)
      returns (ok: bool, flushed: bool, ghost order: seq<Action>)
      requires batcher.Valid()
      modifies this, batcher
      ensures meta == old(meta)
      ensures flushed ==> Enumerates(old(batcher.batch), order)
      ensures var sent := if flushed then Sent(old(store), order, CursorKey(ns)) else Some(old(store));
        var merged := MergeAll(if flushed then map[] else old(batcher.batch), actions);
        && ok == (sent.Some? && merged.Some?)
        && (ok ==> batcher.Valid() && store == sent.value && batcher.batch == merged.value)
        && last == if flushed && sent.Some? then Some(point) else old(last)
      ensures ok && !flushed ==> batcher.currentLen <= batcher.maxLen && 2 * Bulk(batcher.batch) <= batcher.maxBytes
    {
      hide MergeAll, Enumerates, Sent, Bulk;
      ok, order := true, [];
      flushed := batcher.ShouldFlush(actions);
      if flushed {
        var batch := batcher.GetBatchActions();
        order := batch;
        var sent := SendBatch(store, batch, CursorKey(ns));
        if sent.None? {
          return false, flushed, order;
        }
        store, last := sent.value, Some(point);
        batcher.Wipe();
      }
      ok := batcher.PushActions(actions);
    }

    /** Commits a mutable block: sends what bulk mode left pending, merges the block's
        actions, applies them with inverses, persists the inverses and collects old
        ones. */
    method RollForward(point: Point, actions: seq<Action>)
      returns (ok: bool, ghost rest: seq<Action>, ghost order: seq<Action>)
      requires batcher.Valid()
      modifies this, buffer, batcher
      ensures var b := MergeAll(map[], actions);
        var sent := if old(batcher.batch) == map[] then Some(old(store)) else Flush(old(store), rest, CursorKey(ns));
        && (old(batcher.batch) != map[] ==> Enumerates(old(batcher.batch), rest))
        && (b.Some? ==> sent.Some? ==> Enumerates(b.value, order))
        && if sent.None? then !ok && View() == old(View())
           else
             var start := Persistent(old(View()).w.(store := sent.value), old(meta));
             var f := ForwardBoth(start, ns, point, order);
             && batcher.Valid() && batcher.batch == map[]
             && ok == (b.Some? && f.Some?)
             && View() == if ok then f.value else start
    {
      hide MergeAll, ExecuteInverse, Enumerates, CommitMeta, Bulk, Flush;
      order, rest := [], [];
      if batcher.batch != map[] {
        var pending := batcher.GetBatchActions();
        rest := pending;
        var sent := ApplyStaggered(store, pending, CursorKey(ns));
        if sent.None? {
          return false, rest, order;
        }
        store := sent.value;
        batcher.Wipe();
      }
      var merger := new SyncBatcher(1, 0);
      var merged := merger.PushActions(actions);
      if !merged {
        return false, rest, order;
      }
      var batch := merger.GetBatchActions();
      order := batch;
      var u := ApplyWithInverse(store, Fetch(store, batch, true), batch);
      if u.None? {
        return false, rest, order;
      }
      var first := buffer.blocks == [];
      var e := Entry(point, u.value.inverses);
      var written := CommitMetadata(meta, ns, first, last, buffer.size, e, View().w);
      store, meta := u.value.store, written;
      if first {
        buffer.AddBlock(if last.Some? then last.value else Origin(), []);
      }
      last := Some(point);
      buffer.AddBlock(point, u.value.inverses);
      ok := true;
    }

    /** Undoes the blocks after a point, newest first, then trims the metadata. */
    method RollBack(point: Point) returns (ok: bool)
      modifies this, buffer
      ensures var f := BackBoth(old(View()), ns, point, []);
        ok == f.Some? && View() == if ok then f.value else old(View())
    {
      hide WriteAll;
      var since := buffer.PointsSince(point);
      if since.None? {
        return false;
      }
      var blocks := since.value;
      var txn := store;
      for i := 0 to |blocks|
        invariant UndoAll(txn, blocks[i..]) == UndoAll(old(store), blocks)
        invariant View() == old(View())
      {
        assert blocks[i..][1..] == blocks[i + 1..];
        txn := WriteActions(txn, Reverse(blocks[i].inverses));
      }
      var trimmed := DeleteRange(meta, HeightBound(ns, point.height + 1), EndBound(ns));
      store, meta, last := txn, trimmed, Some(point);
      ok := buffer.RollbackToPoint(point);
    }
  }

  /** The sets and deletes of one rollback transaction. */
  method WriteActions(s: Store, actions: seq<Action>) returns (r: Store)
    ensures r == WriteAll(s, actions)
  {
    r := s;
    for i := 0 to |actions|
      invariant WriteAll(r, actions[i..]) == WriteAll(s, actions)
    {
      assert actions[i..][1..] == actions[i + 1..];
      r := Written(r, actions[i]);
    }
  }
}
