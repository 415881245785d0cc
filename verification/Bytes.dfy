/** Byte strings: big-endian integers and the order in which a key-value store
    keeps its keys. */
module Bytes {
  import opened Prelude

  type Bytes = seq<byte>

  /** Separates the parts of a key; the byte after it ends a range. */
  const BREAK: byte := 96
  const BREAK_1: byte := 97

  // ----- big-endian integers -----

  function Pow256(n: nat): (p: nat)
    ensures p > 0
  {
    if n == 0 then 1 else 256 * Pow256(n - 1)
  }

  function Be(x: nat, n: nat): (b: Bytes)
    ensures |b| == n
    decreases n
  {
    if n == 0 then [] else Be(x / 256, n - 1) + [x % 256]
  }

  function FromBe(b: Bytes): nat {
    if b == [] then 0 else FromBe(b[..|b| - 1]) * 256 + b[|b| - 1]
  }

  lemma {:induction false} FromBeBound(b: Bytes)
    ensures FromBe(b) < Pow256(|b|)
    decreases |b|
  {
    if b != [] {
      FromBeBound(b[..|b| - 1]);
    }
  }

  /** Encoding then decoding is the identity on integers that fit. */
  lemma {:induction false} BeRoundTrip(x: nat, n: nat)
    requires x < Pow256(n)
    ensures FromBe(Be(x, n)) == x
    decreases n
  {
    if n > 0 {
      BeRoundTrip(x / 256, n - 1);
      assert Be(x, n)[..n - 1] == Be(x / 256, n - 1);
    }
  }

  lemma LastDigit(x: nat, d: byte)
    ensures (x * 256 + d) / 256 == x && (x * 256 + d) % 256 == d
  {
  }

  /** Decoding then encoding is the identity on byte strings. */
  lemma {:induction false} FromBeRoundTrip(b: Bytes)
    ensures Be(FromBe(b), |b|) == b
    decreases |b|
  {
    if b != [] {
      var n := |b| - 1;
      FromBeRoundTrip(b[..n]);
      LastDigit(FromBe(b[..n]), b[n]);
      assert b == b[..n] + [b[n]];
    }
  }

  lemma Pow8()
    ensures Pow256(8) == U64
  {
    assert Pow256(4) == 0x1_0000_0000;
  }

  lemma Pow4()
    ensures Pow256(4) == 0x1_0000_0000
  {
  }

  lemma Pow16()
    ensures Pow256(16) == U128
  {
    Pow8();
    assert Pow256(12) == 0x1_0000_0000 * U64;
  }

  // ----- key order -----

  predicate Less(a: Bytes, b: Bytes) {
    b != [] && (a == [] || a[0] < b[0] || (a[0] == b[0] && Less(a[1..], b[1..])))
  }

  predicate AtMost(a: Bytes, b: Bytes) {
    a == b || Less(a, b)
  }

  lemma {:induction false} LessIrreflexive(a: Bytes)
    ensures !Less(a, a)
  {
    if a != [] {
      LessIrreflexive(a[1..]);
    }
  }

  lemma {:induction false} LessTransitive(a: Bytes, b: Bytes, c: Bytes)
    requires Less(a, b) && Less(b, c)
    ensures Less(a, c)
  {
    if a != [] && a[0] == b[0] == c[0] {
      LessTransitive(a[1..], b[1..], c[1..]);
    }
  }

  lemma {:induction false} LessTotal(a: Bytes, b: Bytes)
    ensures a == b || Less(a, b) || Less(b, a)
  {
    if a != [] && b != [] && a[0] == b[0] {
      LessTotal(a[1..], b[1..]);
      assert a == [a[0]] + a[1..] && b == [b[0]] + b[1..];
    }
  }

  lemma LessAsymmetric(a: Bytes, b: Bytes)
    requires Less(a, b)
    ensures !Less(b, a) && a != b
  {
    LessIrreflexive(a);
    if Less(b, a) {
      LessTransitive(a, b, a);
    }
  }

  /** A common prefix does not matter. */
  lemma {:induction false} LessPrefix(p: Bytes, a: Bytes, b: Bytes)
    ensures Less(p + a, p + b) <==> Less(a, b)
  {
    if p == [] {
      assert p + a == a && p + b == b;
    } else {
      LessPrefix(p[1..], a, b);
      assert (p + a)[1..] == p[1..] + a && (p + b)[1..] == p[1..] + b;
    }
  }

  /** Different prefixes of one length decide the order. */
  lemma {:induction false} LessFixed(a: Bytes, b: Bytes, x: Bytes, y: Bytes)
    requires |a| == |b| && a != b
    ensures Less(a + x, b + y) <==> Less(a, b)
    decreases |a|
  {
    assert (a + x)[1..] == a[1..] + x && (b + y)[1..] == b[1..] + y;
    if a[0] == b[0] {
      assert a == [a[0]] + a[1..] && b == [b[0]] + b[1..];
      LessFixed(a[1..], b[1..], x, y);
    }
  }

  /** A proper prefix comes first. */
  lemma {:induction false} LessExtend(a: Bytes, x: Bytes)
    requires x != []
    ensures Less(a, a + x)
  {
    if a != [] {
      LessExtend(a[1..], x);
      assert (a + x)[1..] == a[1..] + x;
    }
  }

  lemma BeInjective(x: nat, y: nat, n: nat)
    requires x < Pow256(n) && y < Pow256(n)
    ensures Be(x, n) == Be(y, n) <==> x == y
  {
    BeRoundTrip(x, n);
    BeRoundTrip(y, n);
  }

  /** Big-endian integers sort as numbers. */
  lemma {:induction false} BeOrder(x: nat, y: nat, n: nat)
    requires x < Pow256(n) && y < Pow256(n)
    ensures Less(Be(x, n), Be(y, n)) <==> x < y
    decreases n
  {
    if n > 0 {
      var a, b := Be(x / 256, n - 1), Be(y / 256, n - 1);
      BeOrder(x / 256, y / 256, n - 1);
      BeInjective(x / 256, y / 256, n - 1);
      if a == b {
        LessPrefix(a, [x % 256], [y % 256]);
      } else {
        LessFixed(a, b, [x % 256], [y % 256]);
      }
    }
  }
}
