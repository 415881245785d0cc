/** The persisted rollback buffer: what a restarted worker reads back is what the
    running worker holds in memory. */
module PersistedBuffer {
  import opened Prelude
  import opened Bytes
  import opened OrderedKeys
  import opened Actions
  import opened Rollback
  import opened Metadata

  // ----- records of a list of blocks -----

  ghost predicate InEntry(e: Entry, k: MetadataKey) {
    k.index < |e.inverses| && k == KeyAt(e, k.index)
  }

  lemma RecordsOfIff(e: Entry, k: MetadataKey)
    ensures k in RecordsOf(e) <==> InEntry(e, k)
    ensures InEntry(e, k) ==> RecordsOf(e)[k] == ValueOf(e.inverses[k.index])
  {
    if InEntry(e, k) {
      assert KeyAt(e, k.index) in RecordsOf(e);
    }
  }

  lemma RisingInit(l: seq<Entry>)
    requires Rising(l) && l != []
    ensures Rising(l[..|l| - 1]) && Storable(l[|l| - 1])
    ensures forall e <- l[..|l| - 1] :: e.point.height < l[|l| - 1].point.height
  {
    assert l[|l| - 1] in l;
  }

  lemma {:induction false} RecordsIn(l: seq<Entry>, k: MetadataKey)
    requires k in RecordsOfAll(l)
    ensures exists e :: e in l && InEntry(e, k)
    decreases |l|
  {
    var n := |l| - 1;
    if k in RecordsOf(l[n]) {
      RecordsOfIff(l[n], k);
      assert l[n] in l;
    } else {
      RecordsIn(l[..n], k);
      var e :| e in l[..n] && InEntry(e, k);
      assert e in l;
    }
  }

  lemma CutConcat(a: Records, b: Records, height: nat)
    ensures UpToHeight(a + b, height) == UpToHeight(a, height) + UpToHeight(b, height)
    ensures FromHeight(a + b, height) == FromHeight(a, height) + FromHeight(b, height)
  {
  }

  lemma CutOne(e: Entry, height: nat)
    ensures UpToHeight(RecordsOf(e), height) == if e.point.height <= height then RecordsOf(e) else map[]
    ensures FromHeight(RecordsOf(e), height) == if height <= e.point.height then RecordsOf(e) else map[]
  {
    forall k | k in RecordsOf(e) ensures k.height == e.point.height {
    }
  }

  lemma AddNothing(m: Records)
    ensures m + map[] == m
  {
  }

  /** Cutting the records at a height cuts the list of blocks there. */
  lemma {:induction false} PrefixRecords(l: seq<Entry>, n: nat, height: nat)
    requires n <= |l|
    requires forall i :: 0 <= i < n ==> l[i].point.height <= height
    requires forall i :: n <= i < |l| ==> height < l[i].point.height
    ensures UpToHeight(RecordsOfAll(l), height) == RecordsOfAll(l[..n])
    decreases |l|
  {
    hide RecordsOf;
    if l == [] {
      assert l[..n] == [];
    } else {
      var m := |l| - 1;
      CutConcat(RecordsOfAll(l[..m]), RecordsOf(l[m]), height);
      CutOne(l[m], height);
      hide UpToHeight;
      if n < |l| {
        PrefixRecords(l[..m], n, height);
        AddNothing(UpToHeight(RecordsOfAll(l[..m]), height));
        assert l[..m][..n] == l[..n];
      } else {
        PrefixRecords(l[..m], m, height);
        assert l[..m][..m] == l[..m] && l[..n] == l;
      }
    }
  }

  lemma {:induction false} SuffixRecords(l: seq<Entry>, n: nat, height: nat)
    requires n <= |l|
    requires forall i :: 0 <= i < n ==> l[i].point.height < height
    requires forall i :: n <= i < |l| ==> height <= l[i].point.height
    ensures FromHeight(RecordsOfAll(l), height) == RecordsOfAll(l[n..])
    decreases |l|
  {
    hide RecordsOf;
    if l == [] {
      assert l[n..] == [];
    } else {
      var m := |l| - 1;
      CutConcat(RecordsOfAll(l[..m]), RecordsOf(l[m]), height);
      CutOne(l[m], height);
      hide FromHeight;
      if n < |l| {
        SuffixRecords(l[..m], n, height);
        assert l[n..][..|l[n..]| - 1] == l[..m][n..];
      } else {
        SuffixRecords(l[..m], m, height);
        AddNothing(FromHeight(RecordsOfAll(l[..m]), height));
        assert l[..m][m..] == [] && l[n..] == [];
      }
    }
  }

  // ----- the scan -----

  /** All keys, block by block, action by action. */
  function AllKeys(ns: Bytes, l: seq<Entry>): seq<Bytes> {
    if l == [] then [] else AllKeys(ns, l[..|l| - 1]) + RecordKeys(ns, l[|l| - 1])
  }

  lemma RecordKeysAscend(ns: Bytes, e: Entry)
    requires Storable(e)
    ensures Ascending(RecordKeys(ns, e))
  {
    hide FullKey, Less;
    var r := RecordKeys(ns, e);
    forall i, j | 0 <= i < j < |r| ensures Less(r[i], r[j]) {
      StorableAt(e, i);
      StorableAt(e, j);
      IndexOrder(ns, KeyAt(e, i), KeyAt(e, j));
    }
  }

  lemma {:induction false} AllKeysIn(ns: Bytes, l: seq<Entry>, x: Bytes)
    requires Rising(l)
    ensures x in AllKeys(ns, l) ==> exists k :: k in RecordsOfAll(l) && FullKey(ns, k) == x
    ensures (exists k :: k in RecordsOfAll(l) && FullKey(ns, k) == x) ==> x in AllKeys(ns, l)
    decreases |l|
  {
    hide FullKey;
    if l != [] {
      var m := |l| - 1;
      var e := l[m];
      RisingInit(l);
      AllKeysIn(ns, l[..m], x);
      if x in RecordKeys(ns, e) {
        var i :| 0 <= i < |e.inverses| && RecordKeys(ns, e)[i] == x;
        RecordsOfIff(e, KeyAt(e, i));
        assert KeyAt(e, i) in RecordsOfAll(l);
      } else if x in AllKeys(ns, l[..m]) {
        var k :| k in RecordsOfAll(l[..m]) && FullKey(ns, k) == x;
        assert k in RecordsOfAll(l);
      }
      if k :| k in RecordsOfAll(l) && FullKey(ns, k) == x {
        RecordsOfIff(e, k);
        if InEntry(e, k) {
          assert RecordKeys(ns, e)[k.index] == x;
        } else {
          assert k in RecordsOfAll(l[..m]);
        }
      }
    }
  }

  lemma {:induction false} AllKeysAscend(ns: Bytes, l: seq<Entry>)
    requires Rising(l)
    ensures Ascending(AllKeys(ns, l))
    decreases |l|
  {
    hide FullKey, Less;
    if l != [] {
      var m := |l| - 1;
      var e := l[m];
      RisingInit(l);
      AllKeysAscend(ns, l[..m]);
      RecordKeysAscend(ns, e);
      forall x, y | x in AllKeys(ns, l[..m]) && y in RecordKeys(ns, e) ensures Less(x, y) {
        AllKeysIn(ns, l[..m], x);
        var k :| k in RecordsOfAll(l[..m]) && FullKey(ns, k) == x;
        EarlierKey(ns, l[..m], k, e, y);
      }
      AscendingConcat(AllKeys(ns, l[..m]), RecordKeys(ns, e));
    }
  }

  lemma EarlierKey(ns: Bytes, l: seq<Entry>, k: MetadataKey, e: Entry, y: Bytes)
    requires Rising(l) && k in RecordsOfAll(l) && Storable(e) && (forall d <- l :: d.point.height < e.point.height)
    requires y in RecordKeys(ns, e)
    ensures Less(FullKey(ns, k), y)
  {
    hide FullKey, Less;
    RecordsIn(l, k);
    var d :| d in l && InEntry(d, k);
    StorableAt(d, k.index);
    var i :| 0 <= i < |e.inverses| && RecordKeys(ns, e)[i] == y;
    StorableAt(e, i);
    HeightOrder(ns, k, KeyAt(e, i));
  }

  /** Scanning the whole range yields the blocks in order. */
  lemma {:induction false} ScanIs(b: map<Bytes, Value>, ns: Bytes, l: seq<Entry>)
    requires Rising(l) && Represents(b, ns, RecordsOfAll(l))
    ensures ScanKeys(b, Head(ns), EndBound(ns)) == AllKeys(ns, l)
  {
    hide FullKey, Within, Less;
    var keys := KeysIn(b, Head(ns), EndBound(ns));
    AllKeysAscend(ns, l);
    forall x ensures x in AllKeys(ns, l) <==> x in keys {
      AllKeysIn(ns, l, x);
      if x in b {
        var k :| k in RecordsOfAll(l) && FullKey(ns, k) == x;
        InRange(ns, k);
      }
    }
    ListsUnique(ScanKeys(b, Head(ns), EndBound(ns)), AllKeys(ns, l), keys);
  }

  // ----- reading back -----

  datatype Loading = Loading(buf: seq<Entry>, point: Point, height: nat, actions: seq<Action>)

  const START := Loading([], Point(0, []), 0, [])

  /** Blocks read so far, with the one in progress; height 0 is nothing yet. */
  function Finish(st: Loading): seq<Entry> {
    if st.height != 0 then st.buf + [Entry(st.point, st.actions)] else st.buf
  }

  function LoadStep(st: Loading, k: MetadataKey, v: Value): Loading {
    var cur := if k.height != st.height then Loading(Finish(st), Point(k.height, k.hash), k.height, []) else st;
    cur.(actions := cur.actions + [ActionOf(k.key, v)])
  }

  /** Reads the keys in order; None when one does not decode. */
  function LoadAll(st: Loading, b: map<Bytes, Value>, ns: Bytes, keys: seq<Bytes>): Option<Loading>
    requires forall x <- keys :: x in b
    decreases |keys|
  {
    if keys == [] then Some(st)
    else if |keys[0]| < |Head(ns)| then None
    else
      match DecodeKey(keys[0][|Head(ns)|..])
      case None => None
      case Some(k) => LoadAll(LoadStep(st, k, b[keys[0]]), b, ns, keys[1..])
  }

  /** The persisted buffer, oldest block first. */
  ghost function Fetched(b: map<Bytes, Value>, ns: Bytes): Option<seq<Entry>> {
    match LoadAll(START, b, ns, ScanKeys(b, Head(ns), EndBound(ns)))
    case None => None
    case Some(st) => Some(Finish(st))
  }

  lemma {:induction false} LoadConcat(st: Loading, b: map<Bytes, Value>, ns: Bytes, x: seq<Bytes>, y: seq<Bytes>)
    requires (forall k <- x :: k in b) && (forall k <- y :: k in b)
    ensures forall k <- x + y :: k in b
    ensures LoadAll(st, b, ns, x + y)
         == match LoadAll(st, b, ns, x) case None => None case Some(mid) => LoadAll(mid, b, ns, y)
    decreases |x|
  {
    hide DecodeKey, LoadStep;
    if x == [] {
      assert x + y == y;
    } else {
      assert (x + y)[1..] == x[1..] + y;
      if |x[0]| >= |Head(ns)| && DecodeKey(x[0][|Head(ns)|..]).Some? {
        LoadConcat(LoadStep(st, DecodeKey(x[0][|Head(ns)|..]).value, b[x[0]]), b, ns, x[1..], y);
      }
    }
  }

  /** The stored values of a block's records. */
  ghost predicate Stores(b: map<Bytes, Value>, ns: Bytes, e: Entry) {
    forall i :: 0 <= i < |e.inverses| ==>
      FullKey(ns, KeyAt(e, i)) in b && b[FullKey(ns, KeyAt(e, i))] == ValueOf(e.inverses[i])
  }

  lemma DecodeFull(ns: Bytes, m: MetadataKey)
    requires Encodable(m)
    ensures |FullKey(ns, m)| >= |Head(ns)| && DecodeKey(FullKey(ns, m)[|Head(ns)|..]) == Some(m)
  {
    hide DecodeKey, EncodeKey;
    assert FullKey(ns, m)[|Head(ns)|..] == EncodeKey(m);
    KeyRoundTrip(m);
  }

  /** Reading the rest of a block that is in progress. */
  lemma {:induction false} LoadRest(buf: seq<Entry>, b: map<Bytes, Value>, ns: Bytes, e: Entry, i: nat)
    requires Storable(e) && Stores(b, ns, e) && i <= |e.inverses|
    ensures forall x <- RecordKeys(ns, e)[i..] :: x in b
    ensures LoadAll(Loading(buf, e.point, e.point.height, e.inverses[..i]), b, ns, RecordKeys(ns, e)[i..])
         == Some(Loading(buf, e.point, e.point.height, e.inverses))
    decreases |e.inverses| - i
  {
    hide DecodeKey, FullKey;
    var keys := RecordKeys(ns, e)[i..];
    forall x | x in keys ensures x in b {
      var j :| 0 <= j < |keys| && keys[j] == x;
      assert x == FullKey(ns, KeyAt(e, i + j));
    }
    if i == |e.inverses| {
      assert e.inverses[..i] == e.inverses;
    } else {
      assert keys[1..] == RecordKeys(ns, e)[i + 1..];
      assert e.inverses[..i + 1] == e.inverses[..i] + [e.inverses[i]];
      StorableAt(e, i);
      DecodeFull(ns, KeyAt(e, i));
      LoadRest(buf, b, ns, e, i + 1);
    }
  }

  lemma {:induction false} LoadEntry(st: Loading, b: map<Bytes, Value>, ns: Bytes, e: Entry)
    requires Storable(e) && Stores(b, ns, e) && st.height != e.point.height
    ensures forall x <- RecordKeys(ns, e) :: x in b
    ensures LoadAll(st, b, ns, RecordKeys(ns, e)) == Some(Loading(Finish(st), e.point, e.point.height, e.inverses))
  {
    hide DecodeKey, FullKey;
    var keys := RecordKeys(ns, e);
    LoadRest(Finish(st), b, ns, e, 0);
    assert keys[0..] == keys;
    LoadRest(Finish(st), b, ns, e, 1);
    StorableAt(e, 0);
    DecodeFull(ns, KeyAt(e, 0));
    assert e.inverses[..1] == [] + [e.inverses[0]];
  }

  /** Where reading stands after these blocks. */
  function LoadedAs(l: seq<Entry>): Loading {
    if l == [] then START
    else var n := |l| - 1; Loading(l[..n], l[n].point, l[n].point.height, l[n].inverses)
  }

  lemma {:induction false} LoadBlocks(b: map<Bytes, Value>, ns: Bytes, l: seq<Entry>)
    requires Rising(l) && forall e <- l :: Stores(b, ns, e)
    ensures forall x <- AllKeys(ns, l) :: x in b
    ensures LoadAll(START, b, ns, AllKeys(ns, l)) == Some(LoadedAs(l))
    decreases |l|
  {
    hide RecordKeys, LoadStep, DecodeKey, Stores;
    if l != [] {
      var n := |l| - 1;
      RisingInit(l);
      assert l[n] in l;
      LoadBlocks(b, ns, l[..n]);
      hide LoadAll;
      FinishLoaded(l[..n]);
      LoadEntry(LoadedAs(l[..n]), b, ns, l[n]);
      LoadConcat(START, b, ns, AllKeys(ns, l[..n]), RecordKeys(ns, l[n]));
    }
  }

  lemma FinishLoaded(l: seq<Entry>)
    requires Rising(l)
    ensures Finish(LoadedAs(l)) == l
    ensures LoadedAs(l).height == if l == [] then 0 else l[|l| - 1].point.height
  {
    if l != [] {
      var n := |l| - 1;
      assert l[n] in l;
      assert l == l[..n] + [Entry(l[n].point, l[n].inverses)];
    }
  }

  lemma {:induction false} RecordsStored(b: map<Bytes, Value>, ns: Bytes, l: seq<Entry>, j: nat)
    requires Rising(l) && j < |l| && Represents(b, ns, RecordsOfAll(l))
    ensures Stores(b, ns, l[j])
  {
    hide FullKey;
    forall i | 0 <= i < |l[j].inverses|
      ensures FullKey(ns, KeyAt(l[j], i)) in b && b[FullKey(ns, KeyAt(l[j], i))] == ValueOf(l[j].inverses[i])
    {
      RecordOf(l, j, i);
    }
  }

  lemma {:induction false} RecordOf(l: seq<Entry>, j: nat, i: nat)
    requires Rising(l) && j < |l| && i < |l[j].inverses|
    ensures KeyAt(l[j], i) in RecordsOfAll(l) && RecordsOfAll(l)[KeyAt(l[j], i)] == ValueOf(l[j].inverses[i])
    decreases |l|
  {
    var n := |l| - 1;
    RisingInit(l);
    RecordsOfIff(l[j], KeyAt(l[j], i));
    if j < n {
      RecordOf(l[..n], j, i);
      assert l[j] in l[..n];
      RecordsOfIff(l[n], KeyAt(l[j], i));
    }
  }

  /** The persisted records read back as the blocks that were written. */
  lemma {:induction false} FetchedIs(b: map<Bytes, Value>, ns: Bytes, l: seq<Entry>)
    requires Rising(l) && Represents(b, ns, RecordsOfAll(l))
    ensures Fetched(b, ns) == Some(l)
  {
    hide LoadAll, Represents, AllKeys, ScanKeys;
    ScanIs(b, ns, l);
    forall e | e in l ensures Stores(b, ns, e) {
      var j :| 0 <= j < |l| && l[j] == e;
      RecordsStored(b, ns, l, j);
    }
    LoadBlocks(b, ns, l);
    FinishLoaded(l);
  }
}
