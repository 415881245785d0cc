/** Shared vocabulary: results, machine integers, counter tables in which an
    absent key reads as zero, and finite sums. */
module Prelude {

  datatype Option<+T> = None | Some(value: T)

  datatype Result<+T, +E> = Ok(value: T) | Err(error: E)

  type byte = x: int | 0 <= x < 256

  const U64: int := 0x1_0000_0000_0000_0000
  const U128: int := 0x1_0000_0000_0000_0000_0000_0000_0000_0000

  type u64 = x: int | 0 <= x < U64
  type u128 = x: int | 0 <= x < U128

  /** Release-mode (wrapping) addition and subtraction on u128. */
  function AddU128(a: u128, b: u128): u128 {
    if a + b < U128 then a + b else a + b - U128
  }

  function SubU128(a: u128, b: u128): u128 {
    if b <= a then a - b else a - b + U128
  }

  function Min(a: int, b: int): int {
    if a <= b then a else b
  }

  // ----- counter tables -----

  function Get<K>(m: map<K, nat>, k: K): nat {
    if k in m then m[k] else 0
  }

  /** Writes `v` at `k` in a table that never stores a zero. */
  function Put<K>(m: map<K, nat>, k: K, v: nat): map<K, nat> {
    if v == 0 then m - {k} else m[k := v]
  }

  ghost predicate NoZeros<K>(m: map<K, nat>) {
    forall k <- m :: m[k] != 0
  }

  /** Two tables without zeros that read alike are the same table. */
  lemma TablesEqual<K(!new)>(m: map<K, nat>, n: map<K, nat>)
    requires NoZeros(m) && NoZeros(n)
    requires forall k :: Get(m, k) == Get(n, k)
    ensures m == n
  {
    forall k
      ensures k in m <==> k in n
      ensures k in m ==> m[k] == n[k]
    {
      assert Get(m, k) == Get(n, k);
    }
  }

  // ----- sums -----

  function SumSeq(s: seq<int>): int {
    if s == [] then 0 else s[0] + SumSeq(s[1..])
  }

  ghost function SumBy<T>(s: seq<T>, f: T -> int): int {
    if s == [] then 0 else f(s[0]) + SumBy(s[1..], f)
  }

  lemma {:induction false} SumByConcat<T>(a: seq<T>, b: seq<T>, f: T -> int)
    ensures SumBy(a + b, f) == SumBy(a, f) + SumBy(b, f)
  {
    if a == [] {
      assert a + b == b;
    } else {
      assert (a + b)[1..] == a[1..] + b;
      SumByConcat(a[1..], b, f);
    }
  }

  lemma {:induction false} SumByAgree<T>(s: seq<T>, f: T -> int, g: T -> int)
    requires forall x <- s :: f(x) == g(x)
    ensures SumBy(s, f) == SumBy(s, g)
  {
    if s != [] {
      SumByAgree(s[1..], f, g);
    }
  }

  lemma {:induction false} SumByNonNegative<T>(s: seq<T>, f: T -> int)
    requires forall x <- s :: 0 <= f(x)
    ensures 0 <= SumBy(s, f)
    ensures forall x <- s :: f(x) <= SumBy(s, f)
  {
    if s != [] {
      SumByNonNegative(s[1..], f);
    }
  }

  lemma SumByRemove<T>(b: seq<T>, i: nat, f: T -> int)
    requires i < |b|
    ensures SumBy(b, f) == f(b[i]) + SumBy(b[..i] + b[i + 1..], f)
  {
    assert b == b[..i] + b[i..];
    SumByConcat(b[..i], b[i..], f);
    SumByConcat(b[..i], b[i + 1..], f);
    assert b[i..][1..] == b[i + 1..];
  }

  lemma MultisetRemove<T>(b: seq<T>, i: nat)
    requires i < |b|
    ensures multiset(b[..i] + b[i + 1..]) == multiset(b) - multiset{b[i]}
  {
    assert b == b[..i] + ([b[i]] + b[i + 1..]);
  }

  /** A sum does not depend on the order of its terms. */
  lemma {:induction false} SumByPermutation<T>(a: seq<T>, b: seq<T>, f: T -> int)
    requires multiset(a) == multiset(b)
    ensures SumBy(a, f) == SumBy(b, f)
  {
    if a == [] {
      assert |multiset(b)| == 0;
    } else {
      assert a[0] in multiset(b);
      var i :| 0 <= i < |b| && b[i] == a[0];
      MultisetRemove(a, 0);
      MultisetRemove(b, i);
      assert a[..0] + a[0 + 1..] == a[1..];
      SumByRemove(b, i, f);
      SumByPermutation(a[1..], b[..i] + b[i + 1..], f);
    }
  }

  ghost function Sum<K>(m: map<K, int>): int {
    if m == map[] then 0 else
      var k :| k in m;
      m[k] + Sum(m - {k})
  }

  lemma {:induction false} SumRemove<K>(m: map<K, int>, k: K)
    requires k in m
    ensures Sum(m) == m[k] + Sum(m - {k})
    decreases |m|
  {
    var p :| p in m && Sum(m) == m[p] + Sum(m - {p});
    if p != k {
      SumRemove(m - {p}, k);
      SumRemove(m - {k}, p);
      assert m - {p} - {k} == m - {k} - {p};
    }
  }

  lemma SumSet<K>(m: map<K, int>, k: K, v: int)
    ensures Sum(m[k := v]) == Sum(m - {k}) + v
    ensures Sum(m[k := v]) == Sum(m) + v - (if k in m then m[k] else 0)
  {
    SumRemove(m[k := v], k);
    assert m[k := v] - {k} == m - {k};
    if k in m {
      SumRemove(m, k);
    } else {
      assert m - {k} == m;
    }
  }

  lemma {:induction false} SumNonNegative<K>(m: map<K, int>)
    requires forall k <- m :: 0 <= m[k]
    ensures 0 <= Sum(m)
    ensures forall k <- m :: m[k] <= Sum(m)
    decreases |m|
  {
    if m != map[] {
      forall k | k in m
        ensures 0 <= m[k] <= Sum(m)
      {
        SumRemove(m, k);
        SumNonNegative(m - {k});
      }
    }
  }

  // ----- distinct sequences -----

  predicate NoDup<T(==)>(s: seq<T>) {
    forall i, j :: 0 <= i < j < |s| ==> s[i] != s[j]
  }

  lemma NoDupConcat<T>(a: seq<T>, b: seq<T>)
    ensures NoDup(a + b) <==> NoDup(a) && NoDup(b) && forall x <- a :: x !in b
  {
    var c := a + b;
    if NoDup(c) {
      forall i, j | 0 <= i < j < |a| ensures a[i] != a[j] {
        assert c[i] == a[i] && c[j] == a[j];
      }
      forall i, j | 0 <= i < j < |b| ensures b[i] != b[j] {
        assert c[|a| + i] == b[i] && c[|a| + j] == b[j];
      }
      forall i, j | 0 <= i < |a| && 0 <= j < |b| ensures a[i] != b[j] {
        assert c[i] == a[i] && c[|a| + j] == b[j];
      }
    } else {
      var i, j :| 0 <= i < j < |c| && c[i] == c[j];
      if i < |a| <= j {
        assert a[i] in a && a[i] == b[j - |a|];
      }
    }
  }

  /** Moving the head of `s` to the end of `a`. */
  lemma NoDupHead<T>(a: seq<T>, s: seq<T>)
    requires s != [] && NoDup(a + s)
    ensures s[0] !in a
    ensures a + s == (a + [s[0]]) + s[1..]
  {
    assert a + s == (a + [s[0]]) + s[1..];
    NoDupConcat(a, s);
    assert s[0] in s;
  }

  lemma {:induction false} NoDupMultiset<T>(s: seq<T>)
    ensures NoDup(s) <==> forall x <- s :: multiset(s)[x] == 1
  {
    if s != [] {
      assert s == [s[0]] + s[1..];
      NoDupConcat([s[0]], s[1..]);
      NoDupMultiset(s[1..]);
      if forall x <- s :: multiset(s)[x] == 1 {
        assert s[0] in s;
        assert s[0] !in multiset(s[1..]);
        forall x | x in s[1..] ensures multiset(s[1..])[x] == 1 {
          assert x in s;
        }
      }
    }
  }

  lemma NoDupPermutation<T>(a: seq<T>, b: seq<T>)
    requires multiset(a) == multiset(b) && NoDup(a)
    ensures NoDup(b)
  {
    NoDupMultiset(a);
    NoDupMultiset(b);
    forall x | x in b ensures multiset(b)[x] == 1 {
      assert x in multiset(b);
    }
  }

  lemma ConcatAssoc<T>(a: seq<T>, b: seq<T>, c: seq<T>)
    ensures a + b + c == a + (b + c)
  {
  }

  lemma SplitAt<T>(s: seq<T>, k: nat)
    requires k <= |s|
    ensures s[..k] + s[k..] == s
  {
  }
}
