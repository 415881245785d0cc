/** The variable-length integers of a Dunestone payload. */
module Varint {
  import opened Prelude

  /** Base-128 digits, each step taking one off; bytes that are followed by another
      carry the high bit. */
  function Digits(n: nat, more: bool): (r: seq<byte>)
    ensures r != []
  {
    var high := if more then 128 else 0;
    if n < 128 then [n + high] else Digits(n / 128 - 1, true) + [n % 128 + high]
  }

  function Encode(n: u128): seq<byte> {
    Digits(n, false)
  }

  function Saturate(n: nat): u128 {
    if n < U128 then n else U128 - 1
  }

  /** The value read and the number of bytes used; a buffer that ends early gives
      what was read so far. */
  function DecodeFrom(n: u128, buffer: seq<byte>): (u128, nat)
    decreases |buffer|
  {
    if buffer == [] then (n, 0)
    else
      var b := buffer[0];
      var m := Saturate(n * 128);
      if b < 128 then (Saturate(m + b), 1)
      else
        var r := DecodeFrom(Saturate(m + (b - 127)), buffer[1..]);
        (r.0, r.1 + 1)
  }

  function Decode(buffer: seq<byte>): (u128, nat) {
    DecodeFrom(0, buffer)
  }

  // ----- length -----

  function Pow128(k: nat): nat {
    if k == 0 then 1 else 128 * Pow128(k - 1)
  }

  lemma {:induction false} LengthBound(n: nat, more: bool, k: nat)
    requires 0 < k && n < Pow128(k)
    ensures |Digits(n, more)| <= k
    decreases k
  {
    if n >= 128 {
      LengthBound(n / 128 - 1, true, k - 1);
    }
  }

  /** Every u128 fits in 19 bytes. */
  lemma FitsIn19(n: u128)
    ensures |Encode(n)| <= 19
  {
    assert Pow128(5) == 0x8_0000_0000;
    assert Pow128(10) == 0x8_0000_0000 * Pow128(5);
    assert Pow128(15) == 0x8_0000_0000 * Pow128(10);
    assert Pow128(19) == 0x1000_0000 * Pow128(15);
    LengthBound(n, false, 19);
  }

  // ----- round trip -----

  /** Reading the leading digits of `n` brings the accumulator to `n + 1`. */
  lemma {:induction false} DecodeDigits(n: nat, tail: seq<byte>)
    requires n + 1 < U128
    ensures DecodeFrom(0, Digits(n, true) + tail) == var r := DecodeFrom(n + 1, tail); (r.0, r.1 + |Digits(n, true)|)
    decreases n
  {
    if n < 128 {
      assert (Digits(n, true) + tail)[1..] == tail;
    } else {
      var q, d := n / 128 - 1, n % 128 + 128;
      assert Digits(n, true) + tail == Digits(q, true) + ([d] + tail);
      DecodeDigits(q, [d] + tail);
      assert ([d] + tail)[1..] == tail;
    }
  }

  /** A varint decodes to itself, whatever follows, without saturating. */
  lemma {:induction false} RoundTrip(n: u128, tail: seq<byte>)
    ensures Decode(Encode(n) + tail) == (n, |Encode(n)|)
  {
    if n < 128 {
      assert (Encode(n) + tail)[0] == n;
    } else {
      var q, d := n / 128 - 1, n % 128;
      assert Encode(n) + tail == Digits(q, true) + ([d] + tail);
      DecodeDigits(q, [d] + tail);
    }
  }

  /** What a buffer stands for, whatever its length, read on from `n`. */
  function Exact(n: nat, buffer: seq<byte>): nat
    decreases |buffer|
  {
    if buffer == [] then n
    else if buffer[0] < 128 then 128 * n + buffer[0]
    else Exact(128 * n + buffer[0] - 127, buffer[1..])
  }

  /** Reading any buffer gives what it stands for, or the largest u128 if that is more. */
  lemma {:induction false} DecodeIs(n: nat, buffer: seq<byte>)
    ensures DecodeFrom(Min(n, 0xFFFF_FFFF_FFFF_FFFF_FFFF_FFFF_FFFF_FFFF), buffer).0
         == Min(Exact(n, buffer), 0xFFFF_FFFF_FFFF_FFFF_FFFF_FFFF_FFFF_FFFF)
    decreases |buffer|
  {
    if buffer != [] && buffer[0] >= 128 {
      DecodeIs(128 * n + buffer[0] - 127, buffer[1..]);
    }
  }

  // ----- lists -----

  function EncodeAll(ns: seq<u128>): seq<byte> {
    if ns == [] then [] else Encode(ns[0]) + EncodeAll(ns[1..])
  }

  lemma DecodeUses(n: u128, buffer: seq<byte>)
    ensures buffer != [] ==> 0 < DecodeFrom(n, buffer).1
    ensures DecodeFrom(n, buffer).1 <= |buffer|
    decreases |buffer|
  {
    if buffer != [] && buffer[0] >= 128 {
      DecodeUses(Saturate(Saturate(n * 128) + (buffer[0] - 127)), buffer[1..]);
    }
  }

  function Integers(payload: seq<byte>): seq<u128>
    decreases |payload|
  {
    if payload == [] then []
    else
      DecodeUses(0, payload);
      var (n, used) := Decode(payload);
      [n] + Integers(payload[used..])
  }

  /** A concatenation of varints decodes to the list it was made of. */
  lemma {:induction false} ListRoundTrip(ns: seq<u128>)
    ensures Integers(EncodeAll(ns)) == ns
  {
    if ns != [] {
      var rest := EncodeAll(ns[1..]);
      RoundTrip(ns[0], rest);
      assert (Encode(ns[0]) + rest)[|Encode(ns[0])|..] == rest;
      ListRoundTrip(ns[1..]);
    }
  }

  // ----- the loops -----

  /** Fills a 19-byte buffer from the end. */
  method EncodeToVec(value: u128) returns (v: seq<byte>)
    ensures v == Encode(value)
  {
    var out := new byte[19](_ => 0);
    var n: nat, i := value, 18;
    FitsIn19(value);
    assert out[19..] == [];
    assert Digits(n, false) + [] == Digits(n, false);
    while true
      invariant 0 <= i <= 18
      invariant |Digits(n, i < 18)| <= i + 1
      invariant Digits(n, i < 18) + out[i + 1..] == Encode(value)
      decreases i
    {
      var b := n % 128 + if i < 18 then 128 else 0;
      ghost var after := out[i + 1..];
      out[i] := b;
      assert out[i..] == [b] + after;
      if n < 128 {
        break;
      }
      ConcatAssoc(Digits(n / 128 - 1, true), [b], after);
      n, i := n / 128 - 1, i - 1;
    }
    v := out[i..];
  }

  method DecodeVarint(buffer: seq<byte>) returns (n: u128, i: nat)
    ensures (n, i) == Decode(buffer)
  {
    n, i := 0, 0;
    while true
      invariant i <= |buffer|
      invariant var r := DecodeFrom(n, buffer[i..]); (r.0, r.1 + i) == Decode(buffer)
      decreases |buffer| - i
    {
      if i == |buffer| {
        return;
      }
      var b := buffer[i];
      assert buffer[i..][1..] == buffer[i + 1..];
      n := Saturate(n * 128);
      if b < 128 {
        return Saturate(n + b), i + 1;
      }
      n, i := Saturate(n + (b - 127)), i + 1;
    }
  }

  method ReadIntegers(payload: seq<byte>) returns (integers: seq<u128>)
    ensures integers == Integers(payload)
  {
    integers := [];
    var i := 0;
    while i < |payload|
      invariant 0 <= i <= |payload|
      invariant integers + Integers(payload[i..]) == Integers(payload)
    {
      DecodeUses(0, payload[i..]);
      var n, used := DecodeVarint(payload[i..]);
      assert payload[i..][used..] == payload[i + used..];
      ConcatAssoc(integers, [n], Integers(payload[i + used..]));
      integers, i := integers + [n], i + used;
    }
    assert integers + [] == integers;
  }
}
