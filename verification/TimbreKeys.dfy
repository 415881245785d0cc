/** Key-friendly encodings: integers of variable length that keep their order, and
    the range of all keys with a prefix. */
module TimbreKeys {
  import opened Prelude
  import opened Bytes

  // ----- variable-length integers -----

  /** Number of bytes without leading zeros. */
  function ByteLength(n: nat): nat {
    if n == 0 then 0 else 1 + ByteLength(n / 256)
  }

  function EncodeVar(n: nat): Bytes
    requires ByteLength(n) < 256
  {
    [ByteLength(n)] + Be(n, ByteLength(n))
  }

  /** The value and what follows it. */
  function DecodeVar(b: Bytes): Option<(nat, Bytes)> {
    if b == [] || b[0] > 16 || |b| < 1 + b[0] then None
    else Some((FromBe(b[1..1 + b[0]]), b[1 + b[0]..]))
  }

  lemma {:induction false} LengthFits(n: nat, k: nat)
    ensures n < Pow256(k) <==> ByteLength(n) <= k
    decreases k
  {
    if k > 0 && n > 0 {
      LengthFits(n / 256, k - 1);
    }
  }

  lemma LengthOfU128(n: u128)
    ensures ByteLength(n) <= 16
  {
    Pow16();
    LengthFits(n, 16);
  }

  /** Every 128-bit integer decodes to itself, whatever follows. */
  lemma VarRoundTrip(n: u128, rest: Bytes)
    ensures ByteLength(n) <= 16
    ensures DecodeVar(EncodeVar(n) + rest) == Some((n, rest))
  {
    hide Be, FromBe, ByteLength;
    LengthOfU128(n);
    var k := ByteLength(n);
    LengthFits(n, k);
    BeRoundTrip(n, k);
    var b := EncodeVar(n) + rest;
    assert b[1..1 + k] == Be(n, k) && b[1 + k..] == rest;
  }

  /** The encoding sorts as the numbers do. */
  lemma VarOrder(m: u128, n: u128)
    ensures ByteLength(m) <= 16 && ByteLength(n) <= 16
    ensures Less(EncodeVar(m), EncodeVar(n)) <==> m < n
  {
    hide Be, ByteLength, Pow256;
    LengthOfU128(m);
    LengthOfU128(n);
    var a, b := ByteLength(m), ByteLength(n);
    LengthFits(m, a);
    LengthFits(n, b);
    if a == b {
      BeOrder(m, n, a);
      LessPrefix([a], Be(m, a), Be(n, a));
    } else {
      LessFixed([a], [b], Be(m, a), Be(n, b));
      LengthFits(n, a);
      LengthFits(m, b);
      assert Less([a], [b]) <==> a < b;
    }
  }

  /** Searches the first byte that is not zero in the fixed-width encoding. */
  method EncodeVarUInt(n: u128) returns (v: Bytes)
    ensures ByteLength(n) <= 16 && v == EncodeVar(n)
  {
    hide Be;
    LengthOfU128(n);
    Pow16();
    var bytes := Be(n, 16);
    for i := 0 to 16
      invariant n < Pow256(16 - i)
    {
      SuffixIs(n, 16, i);
      if bytes[i] != 0 {
        LeadingByte(n, 16 - i);
        return [16 - i] + bytes[i..];
      }
      LeadingByte(n, 16 - i);
    }
    v := [0];
    assert n == 0;
    assert Be(n, 0) == [];
  }

  /** Dropping leading bytes that are zero leaves the shorter encoding. */
  lemma {:induction false} SuffixIs(n: nat, w: nat, i: nat)
    requires i <= w && n < Pow256(w - i)
    ensures Be(n, w)[i..] == Be(n, w - i)
    decreases w
  {
    if i < w {
      SuffixIs(n / 256, w - 1, i);
    }
  }

  /** The first byte is zero exactly if the number fits in one byte less. */
  lemma {:induction false} LeadingByte(n: nat, w: nat)
    requires 0 < w && n < Pow256(w)
    ensures Be(n, w)[0] == 0 <==> n < Pow256(w - 1)
    ensures Be(n, w)[0] != 0 ==> ByteLength(n) == w
    decreases w
  {
    LengthFits(n, w);
    LengthFits(n, w - 1);
    if w > 1 {
      LeadingByte(n / 256, w - 1);
      assert Be(n, w)[0] == Be(n / 256, w - 1)[0];
    } else {
      assert Be(n, 1) == Be(n / 256, 0) + [n % 256];
    }
  }

  // ----- keys with a prefix -----

  /** The first key past all keys with the prefix; None when there is none. */
  function PrefixEnd(p: Bytes): Option<Bytes> {
    if p == [] then None
    else
      var n := |p| - 1;
      if p[n] != 255 then Some(p[..n] + [p[n] + 1]) else PrefixEnd(p[..n])
  }

  lemma {:induction false} PrefixEndCons(a: byte, p: Bytes)
    ensures PrefixEnd([a] + p)
      == if PrefixEnd(p).Some? then Some([a] + PrefixEnd(p).value) else if a != 255 then Some([a + 1]) else None
    decreases |p|
  {
    var q := [a] + p;
    if p == [] {
      assert q[..0] == [] && PrefixEnd(q[..0]) == None;
      if a != 255 {
        assert q[..0] + [a + 1] == [a + 1];
      }
    } else {
      var n := |p| - 1;
      assert q[..n + 1] == [a] + p[..n];
      if p[n] == 255 {
        PrefixEndCons(a, p[..n]);
      } else {
        assert q[..n + 1] + [p[n] + 1] == [a] + (p[..n] + [p[n] + 1]);
      }
    }
  }

  predicate InPrefixRange(p: Bytes, x: Bytes) {
    AtMost(p, x) && (PrefixEnd(p).Some? ==> Less(x, PrefixEnd(p).value))
  }

  /** The range holds exactly the keys with the prefix. */
  lemma {:induction false} PrefixRangeIff(p: Bytes, x: Bytes)
    ensures InPrefixRange(p, x) <==> |p| <= |x| && x[..|p|] == p
    decreases |p|
  {
    if p != [] && x != [] {
      var a, b := p[0], x[0];
      assert p == [a] + p[1..] && x == [b] + x[1..];
      PrefixEndCons(a, p[1..]);
      PrefixRangeIff(p[1..], x[1..]);
      Heads(p, x);
      if PrefixEnd(p[1..]).Some? {
        var e := PrefixEnd(p).value;
        assert e[1..] == PrefixEnd(p[1..]).value;
      } else if a != 255 {
        assert [a + 1][1..] == [];
        assert !Less(x[1..], []);
        assert Less(x, [a + 1]) <==> b <= a;
      }
    }
  }

  lemma Heads(p: Bytes, x: Bytes)
    requires p != [] && x != []
    ensures AtMost(p, x) <==> p[0] < x[0] || (p[0] == x[0] && AtMost(p[1..], x[1..]))
    ensures (|p| <= |x| && x[..|p|] == p) <==> p[0] == x[0] && |p[1..]| <= |x[1..]| && x[1..][..|p[1..]|] == p[1..]
  {
    assert p == [p[0]] + p[1..] && x == [x[0]] + x[1..];
    if |p| <= |x| {
      assert x[..|p|] == [x[0]] + x[1..][..|p[1..]|];
    }
  }

  /** Works backwards over trailing 255s. */
  method PrefixKeyRange(prefix: Bytes) returns (start: Bytes, end: Option<Bytes>)
    ensures start == prefix && end == PrefixEnd(prefix)
  {
    start := prefix;
    var i := |prefix|;
    assert prefix[..i] == prefix;
    while i > 0
      invariant 0 <= i <= |prefix|
      invariant PrefixEnd(prefix[..i]) == PrefixEnd(prefix)
    {
      i := i - 1;
      assert prefix[..i + 1][..i] == prefix[..i];
      if prefix[i] != 255 {
        return start, Some(prefix[..i] + [prefix[i] + 1]);
      }
    }
    end := None;
  }
}
