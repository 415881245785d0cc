/** What the persisted blocks are worth to a worker that starts from them: they undo
    the surviving blocks as the entries in memory do. */
module Restarts {
  import opened Prelude
  import opened Actions
  import opened Rollback
  import opened WorkerRuns
  import opened WorkerPersistence

  /** How many blocks of memory, newest first, were committed since the base; at most
      one more entry lies below them, the point that memory was seeded with. */
  function Own(blocks: seq<Entry>, hist: seq<Done>): nat {
    Min(|blocks|, |hist|)
  }

  ghost predicate Falling(r: seq<Entry>) {
    forall i, j :: 0 <= i < j < |r| ==> r[j].point.height < r[i].point.height
  }

  /** `r` lists the persisted blocks newest first, `hist` the surviving ones. Entry `i`
      undoes the `i`-th newest surviving block, and those are at consecutive heights;
      at most a seeded point, anywhere lower, lies below them. */
  ghost predicate Backs(base: Store, hist: seq<Done>, r: seq<Entry>) {
    && |r| <= |hist| + 1 && (r == [] ==> hist == [])
    && (forall i :: 0 <= i < |r| && i < |hist| ==>
          UndoesAt(base, hist, r, i) && r[i].point.height + i == r[0].point.height)
  }

  // ----- commits -----

  ghost predicate GoodPoint(point: Point) {
    0 < point.height < U64 && |point.hash| == 32
  }

  /** One above the newest block; above the point that memory is or will be seeded
      with, if there is no block. */
  ghost predicate NextHeight(w: Worker, hist: seq<Done>, point: Point) {
    if w.blocks == [] then w.last.Some? ==> GoodPoint(w.last.value) && w.last.value.height < point.height
    else if hist == [] then w.blocks[0].point.height < point.height
    else point.height == w.blocks[0].point.height + 1
  }

  lemma {:induction false} PushUndoes(
    base: Store, w: Worker, hist: seq<Done>, r: seq<Entry>, e: Entry, done: Done, k: nat)
    requires Aligned(base, w, hist) && w.size > 0
    requires Newest(w.blocks, r, Own(w.blocks, hist)) && Backs(base, hist, r) && NextHeight(w, hist, e.point)
    requires e.point == done.point
    requires WriteAll(Committed(StoreAt(base, hist), done.pending), Reverse(e.inverses)) == StoreAt(base, hist)
    requires k <= |[e] + SeededNewest(w, r)|
    ensures var r1 := ([e] + SeededNewest(w, r))[..k];
      forall i :: 0 <= i < |r1| && i < |hist| + 1 ==>
        UndoesAt(base, [done] + hist, r1, i) && r1[i].point.height + i == r1[0].point.height
  {
    hide WriteAll, Committed, Reverse, UndoesAt;
    var r1 := ([e] + SeededNewest(w, r))[..k];
    var n := Own(w.blocks, hist);
    NewestUndoes(base, hist, done, r1, Undoable(Committed(StoreAt(base, hist), done.pending), e.inverses));
    forall i | 0 < i < |r1| && i < |hist| + 1
      ensures UndoesAt(base, [done] + hist, r1, i) && r1[i].point.height + i == r1[0].point.height
    {
      assert w.blocks != [] && r1[i] == r[i - 1];
      assert w.blocks[..n][0] == r[..n][0];
      ShiftUndoes(base, hist, r, done, r1, i);
    }
  }

  /** A commit that persists its block and collects all but the newest `k`. */
  lemma {:induction false} PushBacks(
    base: Store, w: Worker, hist: seq<Done>, r: seq<Entry>, e: Entry, done: Done, k: nat)
    requires Aligned(base, w, hist) && w.size > 0
    requires Newest(w.blocks, r, Own(w.blocks, hist)) && Backs(base, hist, r) && NextHeight(w, hist, e.point)
    requires e.point == done.point
    requires WriteAll(Committed(StoreAt(base, hist), done.pending), Reverse(e.inverses)) == StoreAt(base, hist)
    requires 0 < k <= |[e] + SeededNewest(w, r)|
    ensures Backs(base, [done] + hist, ([e] + SeededNewest(w, r))[..k])
  {
    hide WriteAll, Committed, Reverse, UndoesAt;
    PushUndoes(base, w, hist, r, e, done, k);
  }

  /** The committed blocks in memory after a commit. */
  lemma KeptIsOwn(base: Store, w: Worker, hist: seq<Done>, e: Entry, done: Done)
    requires Aligned(base, w, hist) && w.size > 0 && |w.blocks| <= w.size
    ensures Kept(w, Own(w.blocks, hist)) == Own(Added(Seeded(w), w.size, e), [done] + hist)
  {
  }

  // ----- rollbacks -----

  /** A rollback to position `pos` of memory keeps the persisted blocks from `x` on. */
  lemma {:induction false} CutBacks(base: Store, w: Worker, hist: seq<Done>, r: seq<Entry>, pos: nat, x: nat)
    requires Aligned(base, w, hist) && Newest(w.blocks, r, Own(w.blocks, hist)) && Backs(base, hist, r)
    requires pos < |w.blocks| && pos <= |hist| && x <= |r|
    requires forall i :: 0 <= i < x ==> w.blocks[pos].point.height < r[i].point.height
    requires forall i :: x <= i < |r| ==> r[i].point.height <= w.blocks[pos].point.height
    ensures Backs(base, hist[pos..], r[x..])
  {
    hide UndoesAt;
    var n := Own(w.blocks, hist);
    forall i | 0 <= i < n ensures w.blocks[i] == r[i] {
      assert w.blocks[..n][i] == r[..n][i];
    }
    if pos < n {
      SameCut(w.blocks, r, n, pos, x);
      forall i | 0 <= i < |r[x..]| && i < |hist[pos..]|
        ensures UndoesAt(base, hist[pos..], r[x..], i) && r[x..][i].point.height + i == r[x..][0].point.height
      {
        UndoesCut(base, hist, r, pos, i);
        assert UndoesAt(base, hist, r, pos);
      }
    } else {
      assert pos == n && |hist| == n;
      assert forall i :: 0 <= i < n ==> w.blocks[n].point.height < r[i].point.height;
      assert x == |r| || r[x].point.height <= w.blocks[n].point.height;
    }
  }

  lemma UndoesCut(base: Store, hist: seq<Done>, r: seq<Entry>, pos: nat, i: nat)
    requires pos + i < |hist| && pos + i < |r| && UndoesAt(base, hist, r, pos + i)
    ensures UndoesAt(base, hist[pos..], r[pos..], i)
  {
    hide WriteAll, StoreAt, Reverse;
    assert hist[pos..][i..] == hist[pos + i..] && hist[pos..][i + 1..] == hist[pos + i + 1..];
  }

  // ----- restarts -----

  /** Memory loaded from the persisted blocks serves as well as what it replaces. */
  lemma {:induction false} LoadServes(base: Store, w: Worker, hist: seq<Done>, r: seq<Entry>, last: Option<Point>)
    requires Aligned(base, w, hist) && w.size > 0 && Falling(r) && Backs(base, hist, r)
    ensures var blocks := Truncated(r, w.size);
      && Aligned(base, Worker(w.store, blocks, w.size, last), hist)
      && Newest(blocks, r, Own(blocks, hist))
  {
    hide StoreAt, WriteAll, Reverse;
    var blocks := Truncated(r, w.size);
    forall i | 0 <= i < |hist| && i < |blocks| ensures UndoesAt(base, hist, blocks, i) {
      assert UndoesAt(base, hist, r, i);
    }
    forall i | 0 <= i < |hist| && i < |blocks| ensures blocks[i].point.height + i == blocks[0].point.height {
      assert UndoesAt(base, hist, r, i);
    }
  }
}
