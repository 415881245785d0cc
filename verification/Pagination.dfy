/** Reading a range of keys in batches, and page by page with a cursor. */
module Pagination {
  import opened Prelude
  import opened Bytes
  import opened OrderedKeys
  import opened Rollback
  import opened Actions

  datatype Row = Row(key: Bytes, value: Bytes)

  /** Rows of a store, in key order. */
  ghost predicate InKeyOrder(rows: seq<Row>) {
    forall i, j :: 0 <= i < j < |rows| ==> Less(rows[i].key, rows[j].key)
  }

  function Select(rows: seq<Row>, lo: Bytes, hi: Bytes): seq<Row> {
    if rows == [] then []
    else (if Within(rows[0].key, lo, hi) then [rows[0]] else []) + Select(rows[1..], lo, hi)
  }

  function Keep(rows: seq<Row>, f: Option<Row -> bool>): seq<Row> {
    if rows == [] then []
    else (if f.None? || f.value(rows[0]) then [rows[0]] else []) + Keep(rows[1..], f)
  }

  function Ordered(rows: seq<Row>, desc: bool): (r: seq<Row>)
    ensures |r| == |rows|
  {
    if desc then Reverse(rows) else rows
  }

  function Limit(rows: seq<Row>, count: Option<nat>): seq<Row> {
    if count.Some? then Truncated(rows, count.value) else rows
  }

  // ----- ranges -----

  /** The least key after `c` is `c` with a zero byte. */
  lemma {:induction false} SuccessorIff(c: Bytes, x: Bytes)
    ensures AtMost(c + [0], x) <==> Less(c, x)
  {
    if c == [] {
      assert c + [0] == [0];
      assert [0][1..] == [];
      assert Less(c, x) <==> x != [];
      if x != [] {
        assert x == [x[0]] + x[1..];
        assert Less([0][1..], x[1..]) <==> x[1..] != [];
      }
    } else {
      assert (c + [0])[1..] == c[1..] + [0];
      if x != [] && x[0] == c[0] {
        SuccessorIff(c[1..], x[1..]);
        assert c + [0] == [c[0]] + (c[1..] + [0]);
        assert x == [x[0]] + x[1..];
      }
    }
  }

  lemma {:induction false} SelectIn(rows: seq<Row>, lo: Bytes, hi: Bytes)
    requires InKeyOrder(rows)
    ensures InKeyOrder(Select(rows, lo, hi))
    ensures forall r :: r in Select(rows, lo, hi) <==> r in rows && Within(r.key, lo, hi)
    decreases |rows|
  {
    hide Within, Less;
    if rows != [] {
      SelectIn(rows[1..], lo, hi);
      assert rows == [rows[0]] + rows[1..];
      var rest := Select(rows[1..], lo, hi);
      forall i | 0 <= i < |rest| ensures Less(rows[0].key, rest[i].key) {
        assert rest[i] in rest;
        var j :| 0 <= j < |rows[1..]| && rows[1..][j] == rest[i];
        assert rows[j + 1] == rest[i];
      }
    }
  }

  lemma {:induction false} SelectSame(rows: seq<Row>, lo: Bytes, hi: Bytes, lo': Bytes, hi': Bytes)
    requires forall r <- rows :: Within(r.key, lo, hi) <==> Within(r.key, lo', hi')
    ensures Select(rows, lo, hi) == Select(rows, lo', hi')
    decreases |rows|
  {
    if rows != [] {
      SelectSame(rows[1..], lo, hi, lo', hi');
    }
  }

  lemma KeysAfter(rows: seq<Row>)
    requires InKeyOrder(rows) && rows != []
    ensures InKeyOrder(rows[1..])
    ensures forall r <- rows[1..] :: Less(rows[0].key, r.key)
  {
    hide Less;
    forall r | r in rows[1..] ensures Less(rows[0].key, r.key) {
      var j :| 0 <= j < |rows[1..]| && rows[1..][j] == r;
      assert rows[j + 1] == r;
    }
  }

  /** Continuing after the `k`-th row of a range. */
  lemma {:induction false} SelectAfter(rows: seq<Row>, lo: Bytes, hi: Bytes, k: nat)
    requires InKeyOrder(rows) && 0 < k <= |Select(rows, lo, hi)|
    ensures Select(rows, Select(rows, lo, hi)[k - 1].key + [0], hi) == Select(rows, lo, hi)[k..]
    decreases |rows|
  {
    hide Less, Within;
    var s := Select(rows, lo, hi);
    var r, rest := rows[0], rows[1..];
    KeysAfter(rows);
    if Within(r.key, lo, hi) && k == 1 {
      AfterFirst(rows, lo, hi);
    } else {
      NotAfter(rows, lo, hi, k);
      SelectAfter(rest, lo, hi, if Within(r.key, lo, hi) then k - 1 else k);
    }
  }

  lemma AfterFirst(rows: seq<Row>, lo: Bytes, hi: Bytes)
    requires InKeyOrder(rows) && rows != [] && Within(rows[0].key, lo, hi)
    ensures Select(rows, rows[0].key + [0], hi) == Select(rows[1..], lo, hi)
  {
    hide Less;
    var c := rows[0].key;
    KeysAfter(rows);
    LessIrreflexive(c);
    SuccessorIff(c, c);
    forall x | x in rows[1..] ensures Within(x.key, lo, hi) <==> Within(x.key, c + [0], hi) {
      SuccessorIff(c, x.key);
      AtMostLess(lo, c, x.key);
    }
    SelectSame(rows[1..], lo, hi, c + [0], hi);
  }

  lemma AtMostLess(a: Bytes, b: Bytes, c: Bytes)
    requires AtMost(a, b) && Less(b, c)
    ensures Less(a, c)
  {
    if a != b {
      LessTransitive(a, b, c);
    }
  }

  /** The first row is not after a later one of the range. */
  lemma NotAfter(rows: seq<Row>, lo: Bytes, hi: Bytes, k: nat)
    requires InKeyOrder(rows) && rows != [] && 0 < k <= |Select(rows, lo, hi)|
    requires !Within(rows[0].key, lo, hi) || k > 1
    ensures !Within(rows[0].key, Select(rows, lo, hi)[k - 1].key + [0], hi)
  {
    hide Less;
    var s := Select(rows, lo, hi);
    SelectIn(rows, lo, hi);
    SuccessorIff(s[k - 1].key, rows[0].key);
    assert s[k - 1] in s;
    if Within(rows[0].key, lo, hi) {
      assert Less(s[0].key, s[k - 1].key);
      LessAsymmetric(rows[0].key, s[k - 1].key);
    } else if Less(s[k - 1].key, rows[0].key) {
      AtMostLess(lo, s[k - 1].key, rows[0].key);
    }
  }

  /** Continuing before row `j` of a range. */
  lemma {:induction false} SelectBefore(rows: seq<Row>, lo: Bytes, hi: Bytes, j: nat)
    requires InKeyOrder(rows) && j < |Select(rows, lo, hi)|
    ensures Select(rows, lo, Select(rows, lo, hi)[j].key) == Select(rows, lo, hi)[..j]
    decreases |rows|
  {
    hide Less;
    var s := Select(rows, lo, hi);
    var c := s[j].key;
    var r, rest := rows[0], rows[1..];
    KeysAfter(rows);
    SelectIn(rows, lo, hi);
    assert s[j] in s;
    if Within(r.key, lo, hi) && j == 0 {
      NothingBefore(rows, lo);
    } else if Within(r.key, lo, hi) {
      SelectBefore(rest, lo, hi, j - 1);
      assert Less(s[0].key, s[j].key);
      assert s[..j] == [r] + Select(rest, lo, hi)[..j - 1];
    } else {
      SelectBefore(rest, lo, hi, j);
      if Within(r.key, lo, c) {
        LessTransitive(r.key, c, hi);
      }
    }
  }

  lemma NothingBefore(rows: seq<Row>, lo: Bytes)
    requires InKeyOrder(rows) && rows != []
    ensures Select(rows, lo, rows[0].key) == []
  {
    hide Less;
    KeysAfter(rows);
    LessIrreflexive(rows[0].key);
    forall r | r in rows ensures !Within(r.key, lo, rows[0].key) {
      if r in rows[1..] {
        LessAsymmetric(rows[0].key, r.key);
      }
    }
    SelectNone(rows, lo, rows[0].key);
  }

  lemma {:induction false} SelectNone(rows: seq<Row>, lo: Bytes, hi: Bytes)
    requires forall r <- rows :: !Within(r.key, lo, hi)
    ensures Select(rows, lo, hi) == []
  {
    if rows != [] {
      SelectNone(rows[1..], lo, hi);
    }
  }

  // ----- the scan loop -----

  const KV_SCAN_BATCH_SIZE: nat := 1000

  /** What the store returns for one scan: the first rows of the range in the
      given order. */
  function Scan(rows: seq<Row>, lo: Bytes, hi: Bytes, size: nat, desc: bool): (r: seq<Row>)
    ensures |r| <= size
  {
    Truncated(Ordered(Select(rows, lo, hi), desc), size)
  }

  /** The range left after a scan whose last key was `c`. */
  function NextLo(lo: Bytes, c: Bytes, desc: bool): Bytes {
    if desc then lo else c + [0]
  }

  function NextHi(hi: Bytes, c: Bytes, desc: bool): Bytes {
    if desc then c else hi
  }

  lemma ScanSplits(rows: seq<Row>, lo: Bytes, hi: Bytes, size: nat, desc: bool)
    requires InKeyOrder(rows) && Scan(rows, lo, hi, size, desc) != []
    ensures var got := Scan(rows, lo, hi, size, desc);
      var c := got[|got| - 1].key;
      Ordered(Select(rows, lo, hi), desc)
      == got + Ordered(Select(rows, NextLo(lo, c, desc), NextHi(hi, c, desc)), desc)
    ensures var got := Scan(rows, lo, hi, size, desc);
      |got| < size ==> Ordered(Select(rows, lo, hi), desc) == got
  {
    hide Select;
    var s := Select(rows, lo, hi);
    var all := Ordered(s, desc);
    var k := |Scan(rows, lo, hi, size, desc)|;
    if desc {
      SelectBefore(rows, lo, hi, |s| - k);
      ReverseCut(s, |s| - k);
    } else {
      SelectAfter(rows, lo, hi, k);
    }
    assert all == all[..k] + all[k..];
  }

  lemma {:induction false} KeepConcat(a: seq<Row>, b: seq<Row>, f: Option<Row -> bool>)
    ensures Keep(a + b, f) == Keep(a, f) + Keep(b, f)
    decreases |a|
  {
    if a == [] {
      assert a + b == b;
    } else {
      assert (a + b)[1..] == a[1..] + b;
      KeepConcat(a[1..], b, f);
      var head := if f.None? || f.value(a[0]) then [a[0]] else [];
      assert Keep(a, f) == head + Keep(a[1..], f);
      assert Keep(a + b, f) == head + Keep(a[1..] + b, f);
      hide Keep;
      ConcatAssoc(head, Keep(a[1..], f), Keep(b, f));
    }
  }

  /** Rows of the range that pass the filter, in order. */
  function Matching(rows: seq<Row>, lo: Bytes, hi: Bytes, desc: bool, filter: Option<Row -> bool>): seq<Row> {
    Keep(Ordered(Select(rows, lo, hi), desc), filter)
  }

  /** One scan: the matching rows it fetched and the range that is left. */
  method ScanOnce(rows: seq<Row>, lo: Bytes, hi: Bytes, size: nat, desc: bool, filter: Option<Row -> bool>)
    returns (more: seq<Row>, lo': Bytes, hi': Bytes, fetched: nat)
    requires InKeyOrder(rows)
    ensures Matching(rows, lo, hi, desc, filter) == more + Matching(rows, lo', hi', desc, filter)
    ensures fetched < size ==> Select(rows, lo', hi') == [] && Matching(rows, lo', hi', desc, filter) == []
    ensures fetched > 0 ==> |Select(rows, lo', hi')| < |Select(rows, lo, hi)|
    ensures fetched == 0 ==> more == []
  {
    hide Select;
    var got := Scan(rows, lo, hi, size, desc);
    fetched := |got|;
    if got == [] {
      more, lo', hi' := [], lo, hi;
    } else {
      var c := got[|got| - 1].key;
      ScanSplits(rows, lo, hi, size, desc);
      lo', hi' := NextLo(lo, c, desc), NextHi(hi, c, desc);
      more := Keep(got, filter);
      KeepConcat(got, Ordered(Select(rows, lo', hi'), desc), filter);
    }
  }

  /** The batched scan: reads until it has enough rows or the range is exhausted,
      halving the batch whenever the store answers that it is too large. It
      returns exactly the first `count` rows of the range that pass the filter. */
  method ExecuteWithFilter(
    rows: seq<Row>, range: (Bytes, Bytes), count: Option<nat>, desc: bool, filter: Option<Row -> bool>,
    tooLarge: (Bytes, Bytes, nat) -> bool)
    returns (kvs: seq<Row>)
    requires InKeyOrder(rows)
    requires forall lo, hi :: !tooLarge(lo, hi, 0) && !tooLarge(lo, hi, 1)
    ensures kvs == Limit(Matching(rows, range.0, range.1, desc, filter), count)
  {
    hide Matching;
    var size: nat := if filter.None? && count.Some? then count.value else KV_SCAN_BATCH_SIZE;
    var lo, hi := range.0, range.1;
    var fetched: nat;
    kvs := [];
    ghost var all := Matching(rows, lo, hi, desc, filter);
    assert all == [] + all;
    while true
      invariant all == kvs + Matching(rows, lo, hi, desc, filter)
      invariant size == 0 ==> count == Some(0)
      decreases |Select(rows, lo, hi)|, size
    {
      hide Select;
      if tooLarge(lo, hi, size) {
        size := if size / 2 < 1 then 1 else size / 2;
        continue;
      }
      var more;
      more, lo, hi, fetched := ScanOnce(rows, lo, hi, size, desc, filter);
      ConcatAssoc(kvs, more, Matching(rows, lo, hi, desc, filter));
      kvs := kvs + more;
      if fetched == 0 || (count.Some? && count.value <= |kvs|) || fetched < size {
        break;
      }
    }
    Enough(kvs, Matching(rows, lo, hi, desc, filter), count);
    if count.Some? {
      kvs := Truncated(kvs, count.value);
    }
  }

  /** Stopping early loses nothing. */
  lemma Enough(kvs: seq<Row>, rest: seq<Row>, count: Option<nat>)
    requires rest == [] || (count.Some? && count.value <= |kvs|)
    ensures Limit(kvs + rest, count) == Limit(kvs, count)
  {
    if rest == [] {
      assert kvs + rest == kvs;
    }
  }

  // ----- height ranges -----

  /** Bounds of the keys under a prefix (namespace, reducer and parameters) between
      two heights; the upper height is included by asking for the next one. */
  function LowerBound(prefix: Bytes, from: Option<u64>): Bytes {
    if from.Some? then prefix + [BREAK] + Be(from.value, 8) else prefix + [BREAK]
  }

  function UpperBound(prefix: Bytes, to: Option<u64>): Bytes {
    if to.Some? then prefix + [BREAK] + Be(Min(to.value + 1, U64 - 1), 8) else prefix + [BREAK_1]
  }

  function DataKey(prefix: Bytes, height: u64, rest: Bytes): Bytes {
    prefix + [BREAK] + (Be(height, 8) + rest)
  }

  lemma CompareHeight(p: Bytes, h: u64, rest: Bytes, x: u64)
    requires rest != []
    ensures Less(p + (Be(h, 8) + rest), p + Be(x, 8)) <==> h < x
    ensures AtMost(p + Be(x, 8), p + (Be(h, 8) + rest)) <==> x <= h
  {
    hide Be, Less, Pow256;
    var a, b := Be(h, 8), Be(x, 8);
    Pow8();
    BeOrder(h, x, 8);
    BeOrder(x, h, 8);
    BeInjective(h, x, 8);
    LessPrefix(p, a + rest, b);
    LessPrefix(p, b, a + rest);
    assert b + [] == b;
    if a != b {
      LessFixed(a, b, rest, []);
      LessFixed(b, a, [], rest);
    } else {
      LessExtend(b, rest);
      LessAsymmetric(b, b + rest);
    }
    assert |p + (a + rest)| > |p + b|;
  }

  lemma UnderPrefix(prefix: Bytes, x: Bytes)
    requires x != []
    ensures Within(prefix + [BREAK] + x, prefix + [BREAK], prefix + [BREAK_1])
  {
    LessExtend(prefix + [BREAK], x);
    ConcatAssoc(prefix, [BREAK], x);
    LessPrefix(prefix, [BREAK] + x, [BREAK_1]);
  }

  /** The height is between the bounds. An upper bound never admits the last height,
      for which there is no next one to ask for. */
  predicate InHeights(h: nat, from: Option<u64>, to: Option<u64>) {
    (from.Some? ==> from.value <= h) && (to.Some? ==> h <= to.value && h < U64 - 1)
  }

  /** A key is in the range exactly if its height is. */
  lemma HeightRangeIff(prefix: Bytes, h: u64, rest: Bytes, from: Option<u64>, to: Option<u64>)
    requires rest != []
    ensures Within(DataKey(prefix, h, rest), LowerBound(prefix, from), UpperBound(prefix, to))
      <==> InHeights(h, from, to)
  {
    hide Be, Less;
    var p := prefix + [BREAK];
    UnderPrefix(prefix, Be(h, 8) + rest);
    if from.Some? {
      CompareHeight(p, h, rest, from.value);
    }
    if to.Some? {
      CompareHeight(p, h, rest, Min(to.value + 1, U64 - 1));
    }
  }

  /** Whatever lies between two keys with a common prefix has that prefix. */
  lemma {:induction false} Between(p: Bytes, a: Bytes, b: Bytes, x: Bytes)
    requires AtMost(p + a, x) && Less(x, p + b)
    ensures |p| <= |x| && x[..|p|] == p
  {
    if p != [] {
      assert (p + a)[1..] == p[1..] + a && (p + b)[1..] == p[1..] + b;
      assert x != [];
      assert x[0] == p[0];
      Between(p[1..], a, b, x[1..]);
      assert x == [x[0]] + x[1..];
    }
  }

  /** The range holds no key of other parameters. */
  lemma RangeHasPrefix(prefix: Bytes, from: Option<u64>, to: Option<u64>, x: Bytes)
    requires Within(x, LowerBound(prefix, from), UpperBound(prefix, to))
    ensures prefix + [BREAK] <= x
  {
    hide Be, Less;
    var p := prefix + [BREAK];
    var a := if from.Some? then Be(from.value, 8) else [];
    assert LowerBound(prefix, from) == p + a;
    if to.Some? {
      Between(p, a, Be(Min(to.value + 1, U64 - 1), 8), x);
    } else {
      ConcatAssoc(prefix, [BREAK], a);
      BetweenBreaks(prefix, a, x);
    }
  }

  lemma BetweenBreaks(prefix: Bytes, a: Bytes, x: Bytes)
    requires AtMost(prefix + ([BREAK] + a), x) && Less(x, prefix + [BREAK_1])
    ensures prefix + [BREAK] <= x
  {
    hide Less;
    Between(prefix, [BREAK] + a, [BREAK_1], x);
    var y := x[|prefix|..];
    assert x == prefix + y;
    LessPrefix(prefix, [BREAK] + a, y);
    LessPrefix(prefix, y, [BREAK_1]);
    if prefix + ([BREAK] + a) == prefix + y {
      assert y == (prefix + ([BREAK] + a))[|prefix|..];
    }
    BreakFirst(a, y);
  }

  lemma BreakFirst(a: Bytes, y: Bytes)
    requires AtMost([BREAK] + a, y) && Less(y, [BREAK_1])
    ensures y != [] && y[0] == BREAK
  {
  }

  // ----- rows of a prefix between heights -----

  /** Keys under the prefix are data keys: a height and something after it. */
  ghost predicate WellKeyed(prefix: Bytes, rows: seq<Row>) {
    forall r <- rows :: prefix + [BREAK] <= r.key ==> |r.key| > |prefix| + 9
  }

  function HeightOf(prefix: Bytes, k: Bytes): nat
    requires |k| > |prefix| + 9
  {
    FromBe(k[|prefix| + 1..|prefix| + 9])
  }

  /** The rows with these parameters between two heights. */
  function HeightRows(rows: seq<Row>, prefix: Bytes, from: Option<u64>, to: Option<u64>): seq<Row>
    decreases |rows|
  {
    if rows == [] then []
    else
      (if prefix + [BREAK] <= rows[0].key && |rows[0].key| > |prefix| + 9
       && InHeights(HeightOf(prefix, rows[0].key), from, to)
       then [rows[0]] else [])
      + HeightRows(rows[1..], prefix, from, to)
  }

  lemma KeyInRangeIff(prefix: Bytes, k: Bytes, from: Option<u64>, to: Option<u64>)
    requires prefix + [BREAK] <= k ==> |k| > |prefix| + 9
    ensures Within(k, LowerBound(prefix, from), UpperBound(prefix, to))
       <==> prefix + [BREAK] <= k && InHeights(HeightOf(prefix, k), from, to)
  {
    hide Be, FromBe, Less, Within, InHeights, LowerBound, UpperBound;
    if prefix + [BREAK] <= k {
      var n := |prefix| + 1;
      var height, rest := k[n..n + 8], k[n + 8..];
      FromBeBound(height);
      Pow8();
      FromBeRoundTrip(height);
      assert k == DataKey(prefix, HeightOf(prefix, k), rest);
      HeightRangeIff(prefix, HeightOf(prefix, k), rest, from, to);
    } else if Within(k, LowerBound(prefix, from), UpperBound(prefix, to)) {
      RangeHasPrefix(prefix, from, to, k);
    }
  }

  /** The range of a request holds exactly the rows with its parameters between its
      heights. */
  lemma {:induction false} RangeIsHeights(rows: seq<Row>, prefix: Bytes, from: Option<u64>, to: Option<u64>)
    requires WellKeyed(prefix, rows)
    ensures Select(rows, LowerBound(prefix, from), UpperBound(prefix, to)) == HeightRows(rows, prefix, from, to)
    decreases |rows|
  {
    hide Within, InHeights, LowerBound, UpperBound, HeightOf;
    if rows != [] {
      assert rows[0] in rows;
      KeyInRangeIff(prefix, rows[0].key, from, to);
      RangeIsHeights(rows[1..], prefix, from, to);
    }
  }

  // ----- pages -----

  const MAX_PAGE_COUNT: nat := 100

  /** The range of a request: the cursor moves the bound that the order starts
      from. None is a malformed cursor. */
  function PageRange(lo: Bytes, hi: Bytes, cursor: Option<Bytes>, desc: bool): Option<(Bytes, Bytes)> {
    if cursor.None? then Some((lo, hi))
    else if !(AtMost(lo, cursor.value) && AtMost(cursor.value, hi)) then None
    else Some((NextLo(lo, cursor.value, desc), NextHi(hi, cursor.value, desc)))
  }

  /** Reads a request: page size within limits, bounds of the height range, moved by
      the cursor. None is a malformed request. */
  method ParseParams(
    prefix: Bytes, from: Option<u64>, to: Option<u64>, count: Option<nat>, cursor: Option<Bytes>, desc: bool)
    returns (r: Option<(nat, Bytes, Bytes)>)
    ensures var range := PageRange(LowerBound(prefix, from), UpperBound(prefix, to), cursor, desc);
      && (r.Some? <==> range.Some? && (count.Some? ==> 0 < count.value <= MAX_PAGE_COUNT))
      && (r.Some? ==> 0 < r.value.0 <= MAX_PAGE_COUNT && (r.value.1, r.value.2) == range.value)
      && (r.Some? && count.Some? ==> r.value.0 == count.value)
  {
    var n := if count.Some? then count.value else MAX_PAGE_COUNT;
    if n > MAX_PAGE_COUNT || n == 0 {
      return None;
    }
    var lo, hi := LowerBound(prefix, from), UpperBound(prefix, to);
    if cursor.Some? {
      var c := cursor.value;
      if !(AtMost(lo, c) && AtMost(c, hi)) {
        return None;
      }
      if desc {
        hi := c;
      } else {
        lo := c + [0];
      }
    }
    r := Some((n, lo, hi));
  }

  /** Rows fetched for a page: one more than it shows. */
  function PageRows(rows: seq<Row>, lo: Bytes, hi: Bytes, count: nat, desc: bool): seq<Row> {
    Truncated(Ordered(Select(rows, lo, hi), desc), count + 1)
  }

  /** The page handler: shows `count` rows and points at the last one if another
      row follows. */
  method ServePage(kvs: seq<Row>, count: nat) returns (data: seq<Row>, next: Option<Bytes>)
    requires 0 < count && |kvs| <= count + 1
    ensures data == Truncated(kvs, count)
    ensures next == if |kvs| == count + 1 then Some(kvs[count - 1].key) else None
  {
    data, next := [], None;
    var i, rest := 0, kvs;
    while rest != []
      invariant i == |data| <= count
      invariant if i < count then kvs == data + rest && next.None?
                else data == Truncated(kvs, count) && rest == []
                     && next == if |kvs| == count + 1 then Some(kvs[count - 1].key) else None
      decreases |rest|
    {
      var row := rest[0];
      rest := rest[1..];
      if i == count - 1 && rest != [] {
        rest := rest[1..];
        next := Some(row.key);
      }
      data := data + [row];
      i := i + 1;
    }
  }

  /** All rows a client collects by following cursors from here on; `lo` and `hi`
      are the bounds of the request, which every page repeats. */
  ghost function Collect(
    rows: seq<Row>, lo: Bytes, hi: Bytes, cursor: Option<Bytes>, count: nat, desc: bool, fuel: nat): Option<seq<Row>>
    requires 0 < count
    decreases fuel
  {
    match PageRange(lo, hi, cursor, desc)
    case None => None
    case Some(range) =>
      var page := PageRows(rows, range.0, range.1, count, desc);
      if |page| <= count then Some(page)
      else if fuel == 0 then None
      else
        match Collect(rows, lo, hi, Some(page[count - 1].key), count, desc, fuel - 1)
        case None => None
        case Some(more) => Some(page[..count] + more)
  }

  lemma PageSplits(rows: seq<Row>, lo: Bytes, hi: Bytes, count: nat, desc: bool)
    requires InKeyOrder(rows) && 0 < count && |PageRows(rows, lo, hi, count, desc)| == count + 1
    ensures var page := PageRows(rows, lo, hi, count, desc);
      var c := page[count - 1].key;
      && Ordered(Select(rows, lo, hi), desc)
         == page[..count] + Ordered(Select(rows, NextLo(lo, c, desc), NextHi(hi, c, desc)), desc)
      && Within(c, lo, hi)
  {
    hide Less, Within;
    var all := Ordered(Select(rows, lo, hi), desc);
    var page := PageRows(rows, lo, hi, count, desc);
    assert Scan(rows, lo, hi, count, desc) == page[..count];
    ScanSplits(rows, lo, hi, count, desc);
    SelectIn(rows, lo, hi);
    OrderedIn(Select(rows, lo, hi), desc, count - 1);
  }

  lemma OrderedIn(s: seq<Row>, desc: bool, i: nat)
    requires i < |s|
    ensures Ordered(s, desc)[i] in s
  {
  }

  /** The range left by the cursors followed so far. */
  ghost predicate Following(lo: Bytes, hi: Bytes, cursor: Option<Bytes>, desc: bool, l: Bytes, h: Bytes) {
    PageRange(lo, hi, cursor, desc) == Some((l, h)) && AtMost(lo, l) && AtMost(h, hi)
  }

  /** Following a cursor inside the range left continues right there. */
  lemma FollowOn(lo: Bytes, hi: Bytes, cursor: Option<Bytes>, desc: bool, l: Bytes, h: Bytes, c: Bytes)
    requires Following(lo, hi, cursor, desc, l, h) && Within(c, l, h)
    ensures Following(lo, hi, Some(c), desc, NextLo(l, c, desc), NextHi(h, c, desc))
  {
    hide Less;
    AtMostTrans(lo, l, c);
    LessAtMost(c, h, hi);
    LessExtend(c, [0]);
    AtMostLess(lo, c, c + [0]);
  }

  lemma AtMostTrans(a: Bytes, b: Bytes, c: Bytes)
    requires AtMost(a, b) && AtMost(b, c)
    ensures AtMost(a, c)
  {
    if a != b && b != c {
      LessTransitive(a, b, c);
    }
  }

  lemma LessAtMost(a: Bytes, b: Bytes, c: Bytes)
    requires Less(a, b) && AtMost(b, c)
    ensures Less(a, c)
  {
    if b != c {
      LessTransitive(a, b, c);
    }
  }

  lemma {:induction false} CollectRest(
    rows: seq<Row>, lo: Bytes, hi: Bytes, cursor: Option<Bytes>, count: nat, desc: bool, fuel: nat, l: Bytes, h: Bytes)
    requires InKeyOrder(rows) && 0 < count && Following(lo, hi, cursor, desc, l, h) && |Select(rows, l, h)| <= fuel
    ensures Collect(rows, lo, hi, cursor, count, desc, fuel) == Some(Ordered(Select(rows, l, h), desc))
    decreases fuel
  {
    hide Select, Within, Following;
    ForRange(lo, hi, cursor, desc, l, h);
    var page := PageRows(rows, l, h, count, desc);
    if |page| == count + 1 {
      var c := page[count - 1].key;
      PageSplits(rows, l, h, count, desc);
      FollowOn(lo, hi, cursor, desc, l, h, c);
      CollectRest(rows, lo, hi, Some(c), count, desc, fuel - 1, NextLo(l, c, desc), NextHi(h, c, desc));
    }
  }

  lemma ForRange(lo: Bytes, hi: Bytes, cursor: Option<Bytes>, desc: bool, l: Bytes, h: Bytes)
    requires Following(lo, hi, cursor, desc, l, h)
    ensures PageRange(lo, hi, cursor, desc) == Some((l, h))
  {
  }

  /** Following cursors to the end, in either order, returns every row of the range
      exactly once and in order, whatever the page size. */
  lemma PagesReturnAll(rows: seq<Row>, lo: Bytes, hi: Bytes, count: nat, desc: bool)
    requires InKeyOrder(rows) && 0 < count
    ensures Collect(rows, lo, hi, None, count, desc, |rows|) == Some(Ordered(Select(rows, lo, hi), desc))
  {
    SelectShorter(rows, lo, hi);
    CollectRest(rows, lo, hi, None, count, desc, |rows|, lo, hi);
  }

  lemma {:induction false} SelectShorter(rows: seq<Row>, lo: Bytes, hi: Bytes)
    ensures |Select(rows, lo, hi)| <= |rows|
  {
    if rows != [] {
      SelectShorter(rows[1..], lo, hi);
    }
  }

  // ----- a client and the handlers -----

  lemma {:induction false} KeepAll(rows: seq<Row>)
    ensures Keep(rows, None) == rows
  {
    if rows != [] {
      KeepAll(rows[1..]);
    }
  }

  /** One request: the handler parses it, scans one row more than the page shows, and
      answers. It is never refused when the cursor came from the page before. */
  method Request(
    rows: seq<Row>, prefix: Bytes, from: Option<u64>, to: Option<u64>, count: nat, cursor: Option<Bytes>, desc: bool,
    tooLarge: (Bytes, Bytes, nat) -> bool, ghost l: Bytes, ghost h: Bytes)
    returns (page: seq<Row>, next: Option<Bytes>)
    requires InKeyOrder(rows) && 0 < count <= MAX_PAGE_COUNT
    requires forall lo, hi :: !tooLarge(lo, hi, 0) && !tooLarge(lo, hi, 1)
    requires Following(LowerBound(prefix, from), UpperBound(prefix, to), cursor, desc, l, h)
    ensures next.None? ==> page == Ordered(Select(rows, l, h), desc)
    ensures next.Some? ==>
      && Following(LowerBound(prefix, from), UpperBound(prefix, to), next, desc, NextLo(l, next.value, desc),
                   NextHi(h, next.value, desc))
      && Ordered(Select(rows, l, h), desc)
         == page + Ordered(Select(rows, NextLo(l, next.value, desc), NextHi(h, next.value, desc)), desc)
      && page != []
  {
    hide Select, Within, Less, LowerBound, UpperBound;
    ForRange(LowerBound(prefix, from), UpperBound(prefix, to), cursor, desc, l, h);
    hide Following;
    var params := ParseParams(prefix, from, to, Some(count), cursor, desc);
    var kvs := ExecuteWithFilter(rows, (params.value.1, params.value.2), Some(count + 1), desc, None, tooLarge);
    KeepAll(Ordered(Select(rows, l, h), desc));
    assert kvs == PageRows(rows, l, h, count, desc);
    page, next := ServePage(kvs, count);
    if |kvs| == count + 1 {
      PageSplits(rows, l, h, count, desc);
      FollowOn(LowerBound(prefix, from), UpperBound(prefix, to), cursor, desc, l, h, next.value);
    }
  }

  /** A client that asks for pages until there is no next cursor collects exactly the
      rows with the given parameters between the given heights, each once and in
      order, whatever the page size and however the scans were split. */
  method FollowPages(
    rows: seq<Row>, prefix: Bytes, from: Option<u64>, to: Option<u64>, count: nat, desc: bool,
    tooLarge: (Bytes, Bytes, nat) -> bool)
    returns (all: seq<Row>)
    requires InKeyOrder(rows) && WellKeyed(prefix, rows) && 0 < count <= MAX_PAGE_COUNT
    requires forall lo, hi :: !tooLarge(lo, hi, 0) && !tooLarge(lo, hi, 1)
    ensures all == Ordered(HeightRows(rows, prefix, from, to), desc)
  {
    ghost var l, h := LowerBound(prefix, from), UpperBound(prefix, to);
    ghost var whole := Ordered(Select(rows, l, h), desc);
    RangeIsHeights(rows, prefix, from, to);
    var cursor: Option<Bytes> := None;
    all := [];
    assert whole == [] + whole;
    while true
      invariant Following(LowerBound(prefix, from), UpperBound(prefix, to), cursor, desc, l, h)
      invariant whole == all + Ordered(Select(rows, l, h), desc)
      decreases |Select(rows, l, h)|
    {
      hide Select, HeightRows, Following, LowerBound, UpperBound, NextLo, NextHi;
      var page, next := Request(rows, prefix, from, to, count, cursor, desc, tooLarge, l, h);
      if next.None? {
        all := all + page;
        break;
      }
      l, h := NextLo(l, next.value, desc), NextHi(h, next.value, desc);
      ConcatAssoc(all, page, Ordered(Select(rows, l, h), desc));
      all := all + page;
      cursor := next;
    }
  }
}
