/** Rollback metadata: how inverse actions are written under ordered keys, found
    again by range, and regrouped into a buffer. */
module Metadata {
  import opened Prelude
  import opened Bytes
  import opened OrderedKeys
  import opened Actions
  import opened Rollback

  const ROLLBACK: byte := 82

  datatype MetadataKey = MetadataKey(height: nat, hash: Bytes, index: nat, key: Key)

  predicate Encodable(m: MetadataKey) {
    m.height < U64 && |m.hash| == 32 && m.index < U64 && |m.key| < 0x1_0000_0000
  }

  /** Everything after the height. */
  function Tail(m: MetadataKey): Bytes {
    [BREAK] + m.hash + [BREAK] + Be(m.index, 8) + [BREAK] + Be(|m.key|, 4) + m.key
  }

  function EncodeKey(m: MetadataKey): Bytes {
    Be(m.height, 8) + Tail(m)
  }

  /** `ns` is the two bytes of dataplane and instance. */
  function Head(ns: Bytes): Bytes {
    ns + [ROLLBACK, BREAK]
  }

  function FullKey(ns: Bytes, m: MetadataKey): Bytes {
    Head(ns) + EncodeKey(m)
  }

  function DecodeKey(b: Bytes): Option<MetadataKey> {
    if |b| < 55 || b[8] != BREAK || b[41] != BREAK || b[50] != BREAK then None
    else
      var n := FromBe(b[51..55]);
      if |b| < 55 + n then None
      else Some(MetadataKey(FromBe(b[..8]), b[9..41], FromBe(b[42..50]), b[55..55 + n]))
  }

  lemma KeyRoundTrip(m: MetadataKey)
    requires Encodable(m)
    ensures DecodeKey(EncodeKey(m)) == Some(m)
  {
    hide Be, FromBe, Pow256;
    var b := EncodeKey(m);
    assert b[..8] == Be(m.height, 8);
    assert b[9..41] == m.hash;
    assert b[42..50] == Be(m.index, 8);
    assert b[51..55] == Be(|m.key|, 4);
    assert b[55..55 + |m.key|] == m.key;
    Pow8();
    Pow4();
    BeRoundTrip(m.height, 8);
    BeRoundTrip(m.index, 8);
    BeRoundTrip(|m.key|, 4);
  }

  // ----- order -----

  /** Keys of a lower height come first. */
  lemma HeightOrder(ns: Bytes, a: MetadataKey, b: MetadataKey)
    requires Encodable(a) && Encodable(b) && a.height < b.height
    ensures Less(FullKey(ns, a), FullKey(ns, b))
  {
    Pow8();
    BeOrder(a.height, b.height, 8);
    BeInjective(a.height, b.height, 8);
    LessFixed(Be(a.height, 8), Be(b.height, 8), Tail(a), Tail(b));
    LessPrefix(Head(ns), EncodeKey(a), EncodeKey(b));
  }

  lemma SplitKey(m: MetadataKey)
    ensures EncodeKey(m)
      == (Be(m.height, 8) + [BREAK] + m.hash + [BREAK]) + (Be(m.index, 8) + ([BREAK] + Be(|m.key|, 4) + m.key))
  {
    hide Be;
    var a, b, c, d := Be(m.height, 8), [BREAK] + m.hash + [BREAK], Be(m.index, 8), [BREAK] + Be(|m.key|, 4) + m.key;
    assert Tail(m) == b + (c + d);
    ConcatAssoc(a, b, c + d);
    assert a + b == Be(m.height, 8) + [BREAK] + m.hash + [BREAK];
  }

  /** Keys of one block follow the order of its actions. */
  lemma IndexOrder(ns: Bytes, a: MetadataKey, b: MetadataKey)
    requires Encodable(a) && Encodable(b) && a.height == b.height && a.hash == b.hash && a.index < b.index
    ensures Less(FullKey(ns, a), FullKey(ns, b))
  {
    hide Be, Pow256, Less;
    Pow8();
    BeOrder(a.index, b.index, 8);
    BeInjective(a.index, b.index, 8);
    var p := Be(a.height, 8) + [BREAK] + a.hash + [BREAK];
    var x, y := [BREAK] + Be(|a.key|, 4) + a.key, [BREAK] + Be(|b.key|, 4) + b.key;
    LessFixed(Be(a.index, 8), Be(b.index, 8), x, y);
    LessPrefix(p, Be(a.index, 8) + x, Be(b.index, 8) + y);
    SplitKey(a);
    SplitKey(b);
    LessPrefix(Head(ns), EncodeKey(a), EncodeKey(b));
  }

  /** The bound of a range of heights. */
  function HeightBound(ns: Bytes, height: nat): Bytes {
    Head(ns) + Be(height, 8)
  }

  function EndBound(ns: Bytes): Bytes {
    ns + [ROLLBACK, BREAK_1]
  }

  /** A key is below the bound exactly if its height is. */
  lemma BoundIff(ns: Bytes, m: MetadataKey, height: nat)
    requires Encodable(m) && height < U64
    ensures Less(FullKey(ns, m), HeightBound(ns, height)) <==> m.height < height
    ensures AtMost(HeightBound(ns, height), FullKey(ns, m)) <==> height <= m.height
  {
    hide Be, Pow256, Less;
    var a, b := Be(m.height, 8), Be(height, 8);
    Pow8();
    BeOrder(m.height, height, 8);
    BeInjective(m.height, height, 8);
    LessPrefix(Head(ns), EncodeKey(m), b);
    LessPrefix(Head(ns), b, EncodeKey(m));
    assert b + [] == b;
    if a != b {
      LessFixed(a, b, Tail(m), []);
      LessFixed(b, a, [], Tail(m));
      BeOrder(height, m.height, 8);
    } else {
      LessExtend(b, Tail(m));
      LessAsymmetric(b, EncodeKey(m));
    }
    assert |FullKey(ns, m)| > |HeightBound(ns, height)|;
  }

  lemma InRange(ns: Bytes, m: MetadataKey)
    ensures Within(FullKey(ns, m), Head(ns), EndBound(ns))
  {
    SomeBytes(m);
    hide EncodeKey;
    LessExtend(Head(ns), EncodeKey(m));
    var x, y := [ROLLBACK, BREAK] + EncodeKey(m), [ROLLBACK, BREAK_1];
    LessPrefix([ROLLBACK], [BREAK] + EncodeKey(m), [BREAK_1]);
    assert [ROLLBACK] + ([BREAK] + EncodeKey(m)) == x && [ROLLBACK] + [BREAK_1] == y;
    LessPrefix(ns, x, y);
    ConcatAssoc(ns, [ROLLBACK, BREAK], EncodeKey(m));
  }

  lemma SomeBytes(m: MetadataKey)
    ensures EncodeKey(m) != []
  {
  }

  // ----- the records of a block -----

  /** An empty value says that the key is to be deleted. */
  function ValueOf(a: Action): Value {
    if a.Set? then a.value else []
  }

  function ActionOf(k: Key, v: Value): Action {
    if v == [] then Delete(k) else Set(k, v)
  }

  function KeyAt(e: Entry, i: nat): MetadataKey
    requires i < |e.inverses|
  {
    MetadataKey(e.point.height, e.point.hash, i, e.inverses[i].key)
  }

  /** The keys written for a block, in the order of its inverses. */
  function RecordKeys(ns: Bytes, e: Entry): (r: seq<Bytes>)
    ensures |r| == |e.inverses|
    ensures forall i :: 0 <= i < |r| ==> r[i] == FullKey(ns, KeyAt(e, i))
  {
    seq(|e.inverses|, i requires 0 <= i < |e.inverses| => FullKey(ns, KeyAt(e, i)))
  }

  /** What can be stored and read back: absolute inverses, at least one, and no
      empty value to restore. */
  ghost predicate Storable(e: Entry) {
    && 0 < e.point.height < U64 && |e.point.hash| == 32
    && 0 < |e.inverses| < U64
    && (forall a <- e.inverses :: |a.key| < 0x1_0000_0000 && (a.Delete? || (a.Set? && a.value != [])))
  }

  lemma StorableAt(e: Entry, i: nat)
    requires Storable(e) && i < |e.inverses|
    ensures Encodable(KeyAt(e, i)) && ActionOf(e.inverses[i].key, ValueOf(e.inverses[i])) == e.inverses[i]
  {
    assert e.inverses[i] in e.inverses;
  }

  // ----- the store of records -----

  type Records = map<MetadataKey, Value>

  function RecordsOf(e: Entry): Records
  {
    map i | 0 <= i < |e.inverses| :: KeyAt(e, i) := ValueOf(e.inverses[i])
  }

  function RecordsOfAll(l: seq<Entry>): Records {
    if l == [] then map[] else RecordsOfAll(l[..|l| - 1]) + RecordsOf(l[|l| - 1])
  }

  /** Blocks in order of height, all storable. */
  ghost predicate Rising(l: seq<Entry>) {
    && (forall e <- l :: Storable(e))
    && (forall i, j :: 0 <= i < j < |l| ==> l[i].point.height < l[j].point.height)
  }

  /** The stored bytes are these records. */
  ghost predicate Represents(b: map<Bytes, Value>, ns: Bytes, m: Records) {
    && (forall k <- m :: Encodable(k) && FullKey(ns, k) in b && b[FullKey(ns, k)] == m[k])
    && (forall x <- b :: exists k :: k in m && FullKey(ns, k) == x)
  }

  lemma SameKey(ns: Bytes, a: MetadataKey, b: MetadataKey)
    requires Encodable(a) && Encodable(b) && FullKey(ns, a) == FullKey(ns, b)
    ensures a == b
  {
    hide EncodeKey, DecodeKey;
    assert EncodeKey(a) == FullKey(ns, a)[|Head(ns)|..];
    assert EncodeKey(b) == FullKey(ns, b)[|Head(ns)|..];
    KeyRoundTrip(a);
    KeyRoundTrip(b);
  }

  lemma PutRepresents(b: map<Bytes, Value>, ns: Bytes, m: Records, k: MetadataKey, v: Value)
    requires Represents(b, ns, m) && Encodable(k)
    ensures Represents(b[FullKey(ns, k) := v], ns, m[k := v])
  {
    hide FullKey;
    var b', m' := b[FullKey(ns, k) := v], m[k := v];
    forall j | j in m' ensures Encodable(j) && FullKey(ns, j) in b' && b'[FullKey(ns, j)] == m'[j] {
      if j != k && FullKey(ns, j) == FullKey(ns, k) {
        SameKey(ns, j, k);
      }
    }
    forall x | x in b' ensures exists j :: j in m' && FullKey(ns, j) == x {
      if x == FullKey(ns, k) {
        assert k in m';
      } else {
        var j :| j in m && FullKey(ns, j) == x;
        assert j in m';
      }
    }
  }

  /** The stored keys outside a byte range. */
  function OutsideRange(b: map<Bytes, Value>, lo: Bytes, hi: Bytes): map<Bytes, Value> {
    map x | x in b && !Within(x, lo, hi) :: b[x]
  }

  function FromHeight(m: Records, height: nat): Records {
    map k | k in m && height <= k.height :: m[k]
  }

  function UpToHeight(m: Records, height: nat): Records {
    map k | k in m && k.height <= height :: m[k]
  }

  lemma BelowIff(ns: Bytes, k: MetadataKey, height: nat)
    requires Encodable(k) && height < U64
    ensures Within(FullKey(ns, k), Head(ns), HeightBound(ns, height)) <==> k.height < height
  {
    hide FullKey, Less;
    BoundIff(ns, k, height);
    InRange(ns, k);
  }

  lemma AboveIff(ns: Bytes, k: MetadataKey, height: nat)
    requires Encodable(k) && height < U64
    ensures Within(FullKey(ns, k), HeightBound(ns, height), EndBound(ns)) <==> height <= k.height
  {
    hide FullKey, Less;
    BoundIff(ns, k, height);
    InRange(ns, k);
  }

  /** Deleting the range up to a height removes exactly the lower blocks. */
  lemma GcRepresents(b: map<Bytes, Value>, ns: Bytes, m: Records, height: nat)
    requires Represents(b, ns, m) && height < U64
    ensures Represents(OutsideRange(b, Head(ns), HeightBound(ns, height)), ns, FromHeight(m, height))
  {
    hide FullKey, Within, HeightBound;
    var b', m' := OutsideRange(b, Head(ns), HeightBound(ns, height)), FromHeight(m, height);
    forall k | k in m ensures k in m' <==> FullKey(ns, k) in b' {
      BelowIff(ns, k, height);
    }
    forall x | x in b' ensures exists k :: k in m' && FullKey(ns, k) == x {
      var k :| k in m && FullKey(ns, k) == x;
    }
  }

  /** Deleting the range above a height removes exactly the higher blocks. */
  lemma TrimRepresents(b: map<Bytes, Value>, ns: Bytes, m: Records, height: nat)
    requires Represents(b, ns, m) && height + 1 < U64
    ensures Represents(OutsideRange(b, HeightBound(ns, height + 1), EndBound(ns)), ns, UpToHeight(m, height))
  {
    hide FullKey, Within, HeightBound;
    var b', m' := OutsideRange(b, HeightBound(ns, height + 1), EndBound(ns)), UpToHeight(m, height);
    forall k | k in m ensures k in m' <==> FullKey(ns, k) in b' {
      AboveIff(ns, k, height + 1);
    }
    forall x | x in b' ensures exists k :: k in m' && FullKey(ns, k) == x {
      var k :| k in m && FullKey(ns, k) == x;
    }
  }
}
