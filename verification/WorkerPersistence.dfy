/** The worker with its persisted metadata: after every commit, garbage
    collection, rollback and trim, the metadata reads back as the buffer. */
module WorkerPersistence {
  import opened Prelude
  import opened Bytes
  import opened Actions
  import opened Rollback
  import opened Metadata
  import opened PersistedBuffer
  import opened WorkerRuns

  type Meta = map<Bytes, Value>

  // ----- writes to the metadata -----

  /** Writes the records of a block, from the `i`-th inverse on. */
  function PutFrom(meta: Meta, ns: Bytes, e: Entry, i: nat): Meta
    requires i <= |e.inverses|
    decreases |e.inverses| - i
  {
    if i == |e.inverses| then meta
    else PutFrom(meta[FullKey(ns, KeyAt(e, i)) := ValueOf(e.inverses[i])], ns, e, i + 1)
  }

  function PutEntry(meta: Meta, ns: Bytes, e: Entry): Meta {
    PutFrom(meta, ns, e, 0)
  }

  /** Drops blocks that are more than the buffer size below the new one. */
  function Collected(meta: Meta, ns: Bytes, height: nat, size: nat): Meta {
    if size <= height then OutsideRange(meta, Head(ns), HeightBound(ns, height - size)) else meta
  }

  function Trimmed(meta: Meta, ns: Bytes, height: nat): Meta {
    OutsideRange(meta, HeightBound(ns, height + 1), EndBound(ns))
  }

  function RecordsFrom(e: Entry, i: nat): Records {
    map j | i <= j < |e.inverses| :: KeyAt(e, j) := ValueOf(e.inverses[j])
  }

  lemma RecordsFromHead(e: Entry, i: nat)
    requires i < |e.inverses|
    ensures RecordsFrom(e, i) == RecordsFrom(e, i + 1)[KeyAt(e, i) := ValueOf(e.inverses[i])]
    ensures KeyAt(e, i) !in RecordsFrom(e, i + 1)
  {
  }

  lemma PutPlus(m: Records, r: Records, k: MetadataKey, v: Value)
    requires k !in r
    ensures m[k := v] + r == m + r[k := v]
  {
  }

  lemma RecordsFromEnds(e: Entry)
    ensures RecordsFrom(e, |e.inverses|) == map[] && RecordsFrom(e, 0) == RecordsOf(e)
  {
  }

  lemma {:induction false} PutFromRepresents(meta: Meta, ns: Bytes, m: Records, e: Entry, i: nat)
    requires Represents(meta, ns, m) && Storable(e) && i <= |e.inverses|
    ensures Represents(PutFrom(meta, ns, e, i), ns, m + RecordsFrom(e, i))
    decreases |e.inverses| - i
  {
    hide FullKey, Represents, RecordsFrom, Storable, Encodable;
    if i == |e.inverses| {
      RecordsFromEnds(e);
      AddNothing(m);
    } else {
      StorableAt(e, i);
      var k, v := KeyAt(e, i), ValueOf(e.inverses[i]);
      PutRepresents(meta, ns, m, k, v);
      PutFromRepresents(meta[FullKey(ns, k) := v], ns, m[k := v], e, i + 1);
      RecordsFromHead(e, i);
      PutPlus(m, RecordsFrom(e, i + 1), k, v);
    }
  }

  lemma PutEntryRepresents(meta: Meta, ns: Bytes, l: seq<Entry>, e: Entry)
    requires Represents(meta, ns, RecordsOfAll(l)) && Storable(e)
    ensures Represents(PutEntry(meta, ns, e), ns, RecordsOfAll(l + [e]))
  {
    hide Represents, RecordsFrom, RecordsOf, Storable, PutFrom;
    PutFromRepresents(meta, ns, RecordsOfAll(l), e, 0);
    RecordsFromEnds(e);
    assert (l + [e])[..|l|] == l;
  }

  /** Number of leading blocks below a height. */
  function CountBelow(l: seq<Entry>, height: nat): (n: nat)
    ensures n <= |l|
    ensures forall i :: 0 <= i < n ==> l[i].point.height < height
    ensures n < |l| ==> height <= l[n].point.height
  {
    if l == [] || height <= l[0].point.height then 0 else 1 + CountBelow(l[1..], height)
  }

  lemma CutAt(l: seq<Entry>, height: nat)
    requires Rising(l)
    ensures forall i :: CountBelow(l, height) <= i < |l| ==> height <= l[i].point.height
  {
    hide Storable;
    var n := CountBelow(l, height);
    forall i | n <= i < |l| ensures height <= l[i].point.height {
      assert l[n].point.height <= l[i].point.height;
    }
  }

  lemma RisingPart(l: seq<Entry>, i: nat, j: nat)
    requires Rising(l) && i <= j <= |l|
    ensures Rising(l[i..j])
  {
    forall e | e in l[i..j] ensures Storable(e) {
      assert e in l;
    }
  }

  lemma {:induction false} CollectedRepresents(meta: Meta, ns: Bytes, l: seq<Entry>, height: nat, size: nat)
    requires Rising(l) && Represents(meta, ns, RecordsOfAll(l)) && height < U64
    ensures var n := if size <= height then CountBelow(l, height - size) else 0;
      Rising(l[n..]) && Represents(Collected(meta, ns, height, size), ns, RecordsOfAll(l[n..]))
  {
    hide Represents, RecordsOfAll, OutsideRange, Rising, CountBelow;
    if size <= height {
      DropBelow(meta, ns, l, height - size);
    } else {
      assert l[0..] == l;
    }
  }

  lemma {:induction false} DropBelow(meta: Meta, ns: Bytes, l: seq<Entry>, height: nat)
    requires Rising(l) && Represents(meta, ns, RecordsOfAll(l)) && height < U64
    ensures var n := CountBelow(l, height);
      Rising(l[n..]) && Represents(OutsideRange(meta, Head(ns), HeightBound(ns, height)), ns, RecordsOfAll(l[n..]))
  {
    hide Represents, RecordsOfAll, OutsideRange, FromHeight;
    var n := CountBelow(l, height);
    RisingPart(l, n, |l|);
    CutAt(l, height);
    hide Rising;
    SuffixRecords(l, n, height);
    GcRepresents(meta, ns, RecordsOfAll(l), height);
  }

  lemma {:induction false} TrimmedRepresents(meta: Meta, ns: Bytes, l: seq<Entry>, height: nat)
    requires Rising(l) && Represents(meta, ns, RecordsOfAll(l)) && height + 1 < U64
    ensures var n := CountBelow(l, height + 1);
      Rising(l[..n]) && Represents(Trimmed(meta, ns, height), ns, RecordsOfAll(l[..n]))
  {
    hide Represents, RecordsOfAll, OutsideRange, UpToHeight;
    var n := CountBelow(l, height + 1);
    RisingPart(l, 0, n);
    CutAt(l, height + 1);
    hide Rising;
    PrefixRecords(l, n, height);
    TrimRepresents(meta, ns, RecordsOfAll(l), height);
  }

  // ----- the worker -----

  datatype Persistent = Persistent(w: Worker, meta: Meta)

  function CommitMeta(meta: Meta, ns: Bytes, w: Worker, e: Entry): Meta {
    var seeded := if w.blocks == [] && w.last.Some? then PutEntry(meta, ns, Entry(w.last.value, [Delete([])]))
                  else meta;
    Collected(PutEntry(seeded, ns, e), ns, e.point.height, w.size)
  }

  function ForwardBoth(p: Persistent, ns: Bytes, point: Point, order: seq<Action>): Option<Persistent> {
    match BatchInverse(p.w.store, order)
    case None => None
    case Some(u) =>
      Some(Persistent(Forward(p.w, point, order).value, CommitMeta(p.meta, ns, p.w, Entry(point, u.inverses))))
  }

  function BackBoth(p: Persistent, ns: Bytes, point: Point, cuts: seq<nat>): Option<Persistent> {
    match Back(p.w, point, cuts)
    case None => None
    case Some(w) => Some(Persistent(w, Trimmed(p.meta, ns, point.height)))
  }

  // ----- the invariant -----

  /** `r` lists the persisted blocks newest first. The newest `n` blocks in memory
      are the newest persisted ones, at consecutive heights; below them memory
      holds at most the seeded point. */
  ghost predicate Newest(blocks: seq<Entry>, r: seq<Entry>, n: nat) {
    && n <= |blocks| <= n + 1 && n <= |r|
    && blocks[..n] == r[..n]
    && (forall i :: 0 <= i < n ==> blocks[i].point.height + i == blocks[0].point.height)
    && (forall i :: 0 <= i < n && n < |blocks| ==> blocks[n].point.height < blocks[i].point.height)
    && (blocks != [] ==> forall e <- r :: e.point.height <= blocks[0].point.height)
    && (blocks == [] ==> r == [])
  }

  ghost predicate Mirrors(p: Persistent, ns: Bytes, l: seq<Entry>, n: nat) {
    && Rising(l) && Represents(p.meta, ns, RecordsOfAll(l))
    && Newest(p.w.blocks, Reverse(l), n) && |p.w.blocks| <= p.w.size
  }

  /** What a restarted worker loads into its buffer. */
  function LoadBuffer(l: seq<Entry>, size: nat): seq<Entry>
    decreases |l|
  {
    if l == [] then [] else Added(LoadBuffer(l[..|l| - 1], size), size, l[|l| - 1])
  }

  lemma {:induction false} LoadBufferIs(l: seq<Entry>, size: nat)
    ensures LoadBuffer(l, size) == Truncated(Reverse(l), size)
    decreases |l|
  {
    if l != [] {
      var n := |l| - 1;
      LoadBufferIs(l[..n], size);
      ReversePush(l[..n], l[n]);
      assert l == l[..n] + [l[n]];
    }
  }

  /** The persisted metadata decodes, and loading it gives as newest entries exactly
      the points and inverse actions of the committed blocks in memory. */
  lemma PersistedMatches(p: Persistent, ns: Bytes, l: seq<Entry>, n: nat)
    requires Mirrors(p, ns, l, n)
    ensures Fetched(p.meta, ns) == Some(l)
    ensures var loaded := LoadBuffer(l, p.w.size);
      n <= |loaded| && loaded[..n] == p.w.blocks[..n]
  {
    hide Fetched, Represents, RecordsOfAll, Rising;
    FetchedIs(p.meta, ns, l);
    LoadBufferIs(l, p.w.size);
  }

  // ----- commits -----

  /** The next block of the chain on top of what memory holds. */
  ghost predicate NextPoint(w: Worker, n: nat, e: Entry) {
    && Storable(e)
    && if w.blocks == [] then
         w.last.Some? ==> w.last.value.height < e.point.height && Storable(Entry(w.last.value, [Delete([])]))
       else if n == 0 then w.blocks[0].point.height < e.point.height
       else e.point.height == w.blocks[0].point.height + 1
  }

  lemma RisingPush(l: seq<Entry>, e: Entry)
    requires Rising(l) && Storable(e) && forall d <- l :: d.point.height < e.point.height
    ensures Rising(l + [e])
  {
    hide Storable;
    var all := l + [e];
    forall i, j | 0 <= i < j < |all| ensures all[i].point.height < all[j].point.height {
      if j == |l| {
        assert l[i] in l;
      }
    }
  }

  /** The persisted blocks before the new one is written. */
  function SeededList(w: Worker, l: seq<Entry>): seq<Entry> {
    if w.blocks == [] && w.last.Some? then l + [Entry(w.last.value, [Delete([])])] else l
  }

  lemma PersistedBelow(p: Persistent, ns: Bytes, l: seq<Entry>, n: nat)
    requires Mirrors(p, ns, l, n)
    ensures p.w.blocks == [] ==> l == []
    ensures p.w.blocks != [] ==> forall e <- l :: e.point.height <= p.w.blocks[0].point.height
  {
    hide Represents, RecordsOfAll, Rising;
    var r := Reverse(l);
    forall i | 0 <= i < |l| ensures l[i] in r {
      assert r[|l| - 1 - i] == l[i];
    }
  }

  lemma {:induction false} SeedWritten(p: Persistent, ns: Bytes, l: seq<Entry>, n: nat, e: Entry)
    requires Mirrors(p, ns, l, n) && NextPoint(p.w, n, e)
    ensures var l1 := SeededList(p.w, l) + [e];
      && Rising(l1)
      && Represents(PutEntry(if p.w.blocks == [] && p.w.last.Some?
                             then PutEntry(p.meta, ns, Entry(p.w.last.value, [Delete([])])) else p.meta, ns, e),
                    ns, RecordsOfAll(l1))
  {
    hide Represents, RecordsOfAll, PutEntry, Storable;
    var l0 := SeededList(p.w, l);
    var meta0 := p.meta;
    PersistedBelow(p, ns, l, n);
    if p.w.blocks == [] && p.w.last.Some? {
      var seed := Entry(p.w.last.value, [Delete([])]);
      PutEntryRepresents(p.meta, ns, l, seed);
      RisingPush(l, seed);
      meta0 := PutEntry(p.meta, ns, seed);
    }
    PutEntryRepresents(meta0, ns, l0, e);
    RisingPush(l0, e);
  }

  function Kept(w: Worker, n: nat): nat {
    if n + 1 < w.size then n + 1 else w.size
  }

  /** The persisted blocks, newest first, with the seed that a commit writes. */
  function SeededNewest(w: Worker, r: seq<Entry>): seq<Entry> {
    if w.blocks == [] && w.last.Some? then [Entry(w.last.value, [Delete([])])] + r else r
  }

  lemma PushMatches(w: Worker, r: seq<Entry>, n: nat, e: Entry)
    requires Newest(w.blocks, r, n) && |w.blocks| <= w.size && w.size > 0 && NextPoint(w, n, e)
    ensures var blocks := Added(Seeded(w), w.size, e);
      var r1 := [e] + SeededNewest(w, r);
      var m := Kept(w, n);
      && m <= |blocks| <= m + 1 && 0 < m <= |r1|
      && blocks[..m] == r1[..m]
      && (forall i :: 0 <= i < m ==> blocks[i].point.height + i == e.point.height)
  {
    hide Storable;
    var blocks := Added(Seeded(w), w.size, e);
    var r1 := [e] + SeededNewest(w, r);
    var m := Kept(w, n);
    forall i | 0 <= i < m ensures blocks[i] == r1[i] && blocks[i].point.height + i == e.point.height {
      if i > 0 {
        assert w.blocks[..n][i - 1] == r[..n][i - 1];
      }
    }
  }

  /** The seeded point stays below the committed blocks. */
  lemma SeedBelow(w: Worker, r: seq<Entry>, n: nat, e: Entry)
    requires Newest(w.blocks, r, n) && |w.blocks| <= w.size && w.size > 0 && NextPoint(w, n, e)
    ensures var blocks := Added(Seeded(w), w.size, e);
      var m := Kept(w, n);
      forall i :: 0 <= i < m && m < |blocks| ==> blocks[m].point.height < blocks[i].point.height
    ensures forall x <- [e] + SeededNewest(w, r) :: x.point.height <= e.point.height
  {
    hide NextPoint;
    NextAbove(w, n, e);
    var blocks := Added(Seeded(w), w.size, e);
    var m := Kept(w, n);
    forall i | 0 <= i < m && m < |blocks| ensures blocks[m].point.height < blocks[i].point.height {
      if i > 0 {
        assert w.blocks[m - 1].point.height < w.blocks[i - 1].point.height;
      }
    }
    forall x | x in [e] + SeededNewest(w, r) ensures x.point.height <= e.point.height {
      if x in r {
        assert x.point.height <= w.blocks[0].point.height;
      }
    }
  }

  /** Garbage collection keeps the first `k` persisted blocks, newest first. */
  lemma {:induction false} NewestPush(w: Worker, r: seq<Entry>, n: nat, e: Entry, k: nat)
    requires Newest(w.blocks, r, n) && |w.blocks| <= w.size && w.size > 0 && NextPoint(w, n, e)
    requires var r1 := [e] + SeededNewest(w, r);
      && k <= |r1|
      && forall i :: k <= i < |r1| ==> w.size <= e.point.height && r1[i].point.height < e.point.height - w.size
    ensures Newest(Added(Seeded(w), w.size, e), ([e] + SeededNewest(w, r))[..k], Kept(w, n))
  {
    PushMatches(w, r, n, e);
    SeedBelow(w, r, n, e);
    hide NextPoint, Seeded, SeededNewest, Added;
    var blocks := Added(Seeded(w), w.size, e);
    var r1 := [e] + SeededNewest(w, r);
    var m := Kept(w, n);
    assert blocks[..m][m - 1] == r1[..m][m - 1];
    assert m <= k;
    assert r1[..k][..m] == r1[..m];
    assert blocks[..m][0] == r1[..m][0];
  }

  lemma NextAbove(w: Worker, n: nat, e: Entry)
    requires NextPoint(w, n, e)
    ensures 0 < e.point.height
    ensures w.blocks != [] ==> w.blocks[0].point.height < e.point.height
    ensures w.blocks == [] && w.last.Some? ==> w.last.value.height < e.point.height
  {
  }

  /** A commit with its garbage collection keeps memory and metadata in step. */
  lemma {:induction false} CommitMirrors(
    p: Persistent, ns: Bytes, l: seq<Entry>, n: nat, point: Point, order: seq<Action>)
    returns (l': seq<Entry>, n': nat, d: nat)
    requires Mirrors(p, ns, l, n) && p.w.size > 0 && ForwardBoth(p, ns, point, order).Some?
    requires NextPoint(p.w, n, Entry(point, BatchInverse(p.w.store, order).value.inverses))
    ensures Mirrors(ForwardBoth(p, ns, point, order).value, ns, l', n')
    ensures n' == Kept(p.w, n)
    ensures var l1 := SeededList(p.w, l) + [Entry(point, BatchInverse(p.w.store, order).value.inverses)];
      d <= |l1| && l' == l1[d..]
  {
    hide Represents, RecordsOfAll, PutEntry, Storable, Collected, BatchInverse, Newest, Rising, NextPoint, SeededList;
    var e := Entry(point, BatchInverse(p.w.store, order).value.inverses);
    var l1 := SeededList(p.w, l) + [e];
    SeedWritten(p, ns, l, n, e);
    NextFits(p.w, n, e);
    var written := PutEntry(if p.w.blocks == [] && p.w.last.Some?
                            then PutEntry(p.meta, ns, Entry(p.w.last.value, [Delete([])])) else p.meta, ns, e);
    CollectedRepresents(written, ns, l1, point.height, p.w.size);
    d := if p.w.size <= point.height then CountBelow(l1, point.height - p.w.size) else 0;
    NewestAfter(p.w, l, n, e, d);
    l', n' := l1[d..], Kept(p.w, n);
    assert CommitMeta(p.meta, ns, p.w, e) == Collected(written, ns, point.height, p.w.size);
  }

  lemma NewestAfter(w: Worker, l: seq<Entry>, n: nat, e: Entry, d: nat)
    requires Newest(w.blocks, Reverse(l), n) && |w.blocks| <= w.size && w.size > 0 && NextPoint(w, n, e)
    requires var l1 := SeededList(w, l) + [e];
      d <= |l1| && forall i :: 0 <= i < d ==> w.size <= e.point.height && l1[i].point.height < e.point.height - w.size
    ensures Newest(Added(Seeded(w), w.size, e), Reverse((SeededList(w, l) + [e])[d..]), Kept(w, n))
  {
    hide Newest, NextPoint, Seeded, Added;
    var l1 := SeededList(w, l) + [e];
    var r1 := [e] + SeededNewest(w, Reverse(l));
    ReversePush(SeededList(w, l), e);
    ReversePush(l, Entry(if w.last.Some? then w.last.value else e.point, [Delete([])]));
    assert Reverse(l1) == r1;
    ReverseCut(l1, d);
    NewestPush(w, Reverse(l), n, e, |l1| - d);
  }

  lemma NextFits(w: Worker, n: nat, e: Entry)
    requires NextPoint(w, n, e)
    ensures e.point.height < U64
  {
  }

  // ----- rollbacks -----

  /** Trimming keeps the persisted blocks from position `x` on, newest first:
      those not above the block at `pos`. */
  lemma {:induction false} NewestPop(blocks: seq<Entry>, r: seq<Entry>, n: nat, pos: nat, x: nat)
    requires Newest(blocks, r, n) && pos < |blocks| && x <= |r|
    requires forall i :: 0 <= i < x ==> blocks[pos].point.height < r[i].point.height
    requires forall i :: x <= i < |r| ==> r[i].point.height <= blocks[pos].point.height
    ensures Newest(blocks[pos..], r[x..], if pos < n then n - pos else 0)
  {
    var m := if pos < n then n - pos else 0;
    forall i | 0 <= i < n ensures blocks[i] == r[i] {
      assert blocks[..n][i] == r[..n][i];
    }
    if pos < n {
      SameCut(blocks, r, n, pos, x);
      assert blocks[pos..][..m] == blocks[..n][pos..];
      assert r[x..][..m] == r[..n][pos..];
    }
    forall e | e in r[x..] ensures e.point.height <= blocks[pos].point.height {
    }
  }

  lemma SameCut(blocks: seq<Entry>, r: seq<Entry>, n: nat, pos: nat, x: nat)
    requires pos < n <= |r| && n <= |blocks| && x <= |r|
    requires forall i :: 0 <= i < n ==> blocks[i] == r[i]
    requires forall i :: 0 <= i < n ==> blocks[i].point.height + i == blocks[0].point.height
    requires forall i :: 0 <= i < x ==> blocks[pos].point.height < r[i].point.height
    requires forall i :: x <= i < |r| ==> r[i].point.height <= blocks[pos].point.height
    ensures x == pos
  {
    assert blocks[pos] == r[pos];
    forall i | 0 <= i < pos ensures blocks[pos].point.height < r[i].point.height {
      assert blocks[i] == r[i];
    }
    assert x < |r| ==> r[x].point.height <= blocks[pos].point.height;
  }

  /** A rollback with its trim keeps them in step. */
  lemma {:induction false} RollbackMirrors(
    p: Persistent, ns: Bytes, l: seq<Entry>, n: nat, point: Point, cuts: seq<nat>)
    returns (l': seq<Entry>, n': nat)
    requires Mirrors(p, ns, l, n) && BackBoth(p, ns, point, cuts).Some? && point.height + 1 < U64
    ensures Mirrors(BackBoth(p, ns, point, cuts).value, ns, l', n')
    ensures var pos := Position(p.w.blocks, point).value; n' == if pos < n then n - pos else 0
    ensures l' == l[..CountBelow(l, point.height + 1)]
  {
    hide Represents, RecordsOfAll, Trimmed, Newest, Retried, Rising, Reverse;
    var pos := Position(p.w.blocks, point).value;
    TrimmedRepresents(p.meta, ns, l, point.height);
    NewestTrimmed(p.w.blocks, l, n, pos);
    l', n' := l[..CountBelow(l, point.height + 1)], if pos < n then n - pos else 0;
  }

  lemma NewestTrimmed(blocks: seq<Entry>, l: seq<Entry>, n: nat, pos: nat)
    requires Newest(blocks, Reverse(l), n) && pos < |blocks| && Rising(l)
    ensures Newest(blocks[pos..], Reverse(l[..CountBelow(l, blocks[pos].point.height + 1)]),
                   if pos < n then n - pos else 0)
  {
    hide Newest;
    var c := CountBelow(l, blocks[pos].point.height + 1);
    CutAt(l, blocks[pos].point.height + 1);
    hide Rising;
    ReverseCut(l, c);
    NewestPop(blocks, Reverse(l), n, pos, |l| - c);
  }
}
