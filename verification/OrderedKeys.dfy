/** A store's keys in order, and range scans over them. */
module OrderedKeys {
  import opened Bytes

  ghost predicate Ascending(s: seq<Bytes>) {
    forall i, j :: 0 <= i < j < |s| ==> Less(s[i], s[j])
  }

  ghost predicate Lists(s: seq<Bytes>, keys: set<Bytes>) {
    Ascending(s) && (forall k <- s :: k in keys) && (forall k <- keys :: k in s)
  }

  lemma AscendingConcat(a: seq<Bytes>, b: seq<Bytes>)
    requires Ascending(a) && Ascending(b)
    requires forall x, y :: x in a && y in b ==> Less(x, y)
    ensures Ascending(a + b)
  {
    var c := a + b;
    forall i, j | 0 <= i < j < |c| ensures Less(c[i], c[j]) {
      if i < |a| <= j {
        assert a[i] in a && b[j - |a|] in b;
      }
    }
  }

  /** The keys in order are determined by the set of keys. */
  lemma {:induction false} ListsUnique(a: seq<Bytes>, b: seq<Bytes>, keys: set<Bytes>)
    requires Lists(a, keys) && Lists(b, keys)
    ensures a == b
    decreases |a|
  {
    assert a != [] ==> a[0] in a && a[0] in b;
    assert b != [] ==> b[0] in b && b[0] in a;
    if a != [] && b != [] {
      SameFirst(a, b, keys);
      TailLists(a, keys);
      TailLists(b, keys);
      ListsUnique(a[1..], b[1..], keys - {a[0]});
      assert a == [a[0]] + a[1..] && b == [b[0]] + b[1..];
    }
  }

  lemma SameFirst(a: seq<Bytes>, b: seq<Bytes>, keys: set<Bytes>)
    requires Lists(a, keys) && Lists(b, keys) && a != [] && b != []
    ensures a[0] == b[0]
  {
    assert a[0] in a && b[0] in b;
    assert a[0] in b && b[0] in a;
    var i :| 0 <= i < |b| && b[i] == a[0];
    var j :| 0 <= j < |a| && a[j] == b[0];
    if i > 0 && j > 0 {
      LessAsymmetric(a[0], b[0]);
    }
  }

  lemma TailLists(a: seq<Bytes>, keys: set<Bytes>)
    requires Lists(a, keys) && a != []
    ensures Lists(a[1..], keys - {a[0]})
  {
    forall i | 0 < i < |a| ensures a[i] != a[0] {
      LessAsymmetric(a[0], a[i]);
    }
    forall k | k in keys - {a[0]} ensures k in a[1..] {
      var i :| 0 <= i < |a| && a[i] == k;
      assert a[1..][i - 1] == k;
    }
  }

  ghost predicate Least(k: Bytes, keys: set<Bytes>) {
    k in keys && forall j <- keys :: AtMost(k, j)
  }

  lemma {:induction false} LeastExists(keys: set<Bytes>) returns (k: Bytes)
    requires keys != {}
    ensures Least(k, keys)
    decreases |keys|
  {
    var x :| x in keys;
    var rest := keys - {x};
    if rest == {} {
      assert keys == {x};
      k := x;
    } else {
      var y := LeastExists(rest);
      k := LesserOf(x, y, rest);
      assert keys == rest + {x};
    }
  }

  lemma LesserOf(x: Bytes, y: Bytes, rest: set<Bytes>) returns (k: Bytes)
    requires Least(y, rest)
    ensures Least(k, rest + {x})
  {
    LessTotal(x, y);
    k := if Less(x, y) then x else y;
    forall j | j in rest && j != y && Less(x, y) ensures Less(x, j) {
      LessTransitive(x, y, j);
    }
  }

  /** The keys of a set in order. */
  ghost function InOrder(keys: set<Bytes>): (s: seq<Bytes>)
    ensures Lists(s, keys)
  {
    if keys == {} then []
    else
      assert exists k :: Least(k, keys) by {
        var k := LeastExists(keys);
      }
      var k :| Least(k, keys);
      var rest := InOrder(keys - {k});
      PutFirst(k, rest, keys);
      [k] + rest
  }

  lemma PutFirst(k: Bytes, rest: seq<Bytes>, keys: set<Bytes>)
    requires Least(k, keys) && Lists(rest, keys - {k})
    ensures Lists([k] + rest, keys)
  {
    forall x, y | x in [k] && y in rest ensures Less(x, y) {
      assert y in keys - {k};
    }
    AscendingConcat([k], rest);
    forall j | j in keys ensures j in [k] + rest {
      if j != k {
        assert j in keys - {k};
      }
    }
  }

  // ----- ranges -----

  predicate Within(k: Bytes, lo: Bytes, hi: Bytes) {
    AtMost(lo, k) && Less(k, hi)
  }

  ghost function KeysIn<V>(m: map<Bytes, V>, lo: Bytes, hi: Bytes): set<Bytes> {
    set k | k in m && Within(k, lo, hi)
  }

  /** All keys of a range, ascending. */
  ghost function ScanKeys<V>(m: map<Bytes, V>, lo: Bytes, hi: Bytes): (s: seq<Bytes>)
    ensures Lists(s, KeysIn(m, lo, hi))
  {
    InOrder(KeysIn(m, lo, hi))
  }
}
