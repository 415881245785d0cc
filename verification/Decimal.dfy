/** Decimal amounts of DRC-20 messages, as fixed-point integers. */
module Decimal {
  import opened Prelude

  predicate IsDigit(c: char) {
    '0' <= c <= '9'
  }

  predicate AllDigits(s: string) {
    forall c <- s :: IsDigit(c)
  }

  function Digit(c: char): (d: nat)
    requires IsDigit(c)
    ensures d < 10
  {
    c as int - '0' as int
  }

  /** Value of a digit string, most significant digit first. */
  function Digits(s: string): nat
    requires AllDigits(s)
  {
    if s == "" then 0 else 10 * Digits(s[..|s| - 1]) + Digit(s[|s| - 1])
  }

  function Pow10(n: nat): (p: nat)
    ensures p > 0
  {
    if n == 0 then 1 else 10 * Pow10(n - 1)
  }

  lemma MulAssoc(a: int, b: int, c: int)
    ensures a * (b * c) == a * b * c
  {
  }

  lemma MulTen(a: int, p: int)
    ensures a * (10 * p) == 10 * (a * p)
  {
  }

  lemma MulDistributes(a: int, b: int, c: int)
    ensures (a + b) * c == a * c + b * c
  {
  }

  lemma MulMonotone(a: int, b: int, c: nat)
    requires a <= b
    ensures a * c <= b * c
  {
  }

  lemma {:induction false} DigitsBound(s: string)
    requires AllDigits(s)
    ensures Digits(s) < Pow10(|s|)
  {
    if s != "" {
      DigitsBound(s[..|s| - 1]);
    }
  }

  lemma {:induction false} DigitsConcat(a: string, b: string)
    requires AllDigits(a) && AllDigits(b)
    ensures AllDigits(a + b)
    ensures Digits(a + b) == Digits(a) * Pow10(|b|) + Digits(b)
  {
    if b == "" {
      assert a + b == a;
    } else {
      var b' := b[..|b| - 1];
      assert (a + b)[..|a + b| - 1] == a + b' && (a + b)[|a + b| - 1] == b[|b| - 1];
      DigitsConcat(a, b');
      MulTen(Digits(a), Pow10(|b'|));
      assert Digits(a + b) == 10 * Digits(a + b') + Digit(b[|b| - 1]);
      assert Digits(b) == 10 * Digits(b') + Digit(b[|b| - 1]);
    }
  }

  /** Position of the first dot, or the length if there is none. */
  function Dot(s: string, from: nat): (k: nat)
    requires from <= |s|
    ensures from <= k <= |s|
    ensures k < |s| ==> s[k] == '.'
    ensures forall i :: from <= i < k ==> s[i] != '.'
    decreases |s| - from
  {
    if from == |s| || s[from] == '.' then from else Dot(s, from + 1)
  }

  /** Appends zeros up to `width` digits. */
  method PadRight(s: string, width: nat) returns (r: string)
    requires AllDigits(s) && |s| <= width
    ensures |r| == width && AllDigits(r)
    ensures Digits(r) == Digits(s) * Pow10(width - |s|)
  {
    r := s;
    for n := 0 to width - |s|
      invariant |r| == |s| + n && AllDigits(r)
      invariant Digits(r) == Digits(s) * Pow10(n)
    {
      assert (r + ['0'])[..|r|] == r;
      MulTen(Digits(s), Pow10(n));
      r := r + ['0'];
    }
  }

  /** Decimal text with at most one dot, not at either end, at most `dec`
      fractional digits and an integer part that fits in u64. */
  predicate WellFormed(m: string, dec: nat) {
    var k := Dot(m, 0);
    && AllDigits(m[..k])
    && 0 < k
    && Digits(m[..k]) < U64
    && (k < |m| ==> 0 < |m| - k - 1 <= dec && AllDigits(m[k + 1..]))
  }

  /** The amount in units of ten to the minus `dec`. */
  function Scaled(m: string, dec: nat): nat
    requires WellFormed(m, dec)
  {
    var k := Dot(m, 0);
    Digits(m[..k]) * Pow10(dec)
    + if k < |m| then Digits(m[k + 1..]) * Pow10(dec - (|m| - k - 1)) else 0
  }

  function ParseDecimal(m: string, dec: nat): Option<nat> {
    if WellFormed(m, dec) then Some(Scaled(m, dec)) else None
  }

  /** The amount read without its dot, over ten to the number of fractional
      digits, is the scaled amount over ten to the `dec`. */
  lemma ScaledIsExact(m: string, dec: nat)
    requires WellFormed(m, dec)
    ensures var k := Dot(m, 0);
      var frac := if k < |m| then |m| - k - 1 else 0;
      var digits := m[..k] + if k < |m| then m[k + 1..] else "";
      AllDigits(digits) && Scaled(m, dec) == Digits(digits) * Pow10(dec - frac)
  {
    var k := Dot(m, 0);
    if k < |m| {
      var f := m[k + 1..];
      var rest := dec - |f|;
      DigitsConcat(m[..k], f);
      PowSum(|f|, rest);
      MulAssoc(Digits(m[..k]), Pow10(|f|), Pow10(rest));
      MulDistributes(Digits(m[..k]) * Pow10(|f|), Digits(f), Pow10(rest));
    } else {
      assert m[..k] + "" == m[..k];
    }
  }

  lemma {:induction false} PowSum(a: nat, b: nat)
    ensures Pow10(a + b) == Pow10(a) * Pow10(b)
  {
    if a != 0 {
      PowSum(a - 1, b);
      assert Pow10(a + b) == 10 * (Pow10(a - 1) * Pow10(b));
    }
  }

  lemma Pow10Of18()
    ensures Pow10(18) == 1_000_000_000_000_000_000
  {
    assert Pow10(6) == 1_000_000;
    PowSum(6, 6);
    PowSum(6, 12);
  }

  lemma {:induction false} PowMonotone(a: nat, b: nat)
    requires a <= b
    ensures Pow10(a) <= Pow10(b)
  {
    if a < b {
      PowMonotone(a, b - 1);
    }
  }

  /** With at most 18 decimals every parsed amount fits in u128. */
  lemma ScaledFits(m: string, dec: nat)
    requires WellFormed(m, dec) && dec <= 18
    ensures Scaled(m, dec) < U128
  {
    var k := Dot(m, 0);
    var whole := Digits(m[..k]);
    var unit := Pow10(dec);
    Pow10Of18();
    PowMonotone(dec, 18);
    if k < |m| {
      FractionBelowOne(m[k + 1..], dec);
    }
    MulMonotone(whole, U64 - 1, unit);
    MulDistributes(U64 - 1, 1, unit);
    MulMonotone(unit, Pow10(18), U64);
  }

  lemma FractionBelowOne(f: string, dec: nat)
    requires AllDigits(f) && |f| <= dec
    ensures Digits(f) * Pow10(dec - |f|) <= Pow10(dec)
  {
    DigitsBound(f);
    PowSum(|f|, dec - |f|);
    MulMonotone(Digits(f), Pow10(|f|), Pow10(dec - |f|));
  }

  method ParseDecimalText(m: string, dec: nat) returns (r: Option<nat>)
    ensures r == ParseDecimal(m, dec)
  {
    var k := Dot(m, 0);
    if exists c <- m :: !IsDigit(c) && c != '.' {
      var i :| 0 <= i < |m| && !IsDigit(m[i]) && m[i] != '.';
      assert i < k ==> m[..k][i] == m[i];
      assert i > k ==> m[k + 1..][i - k - 1] == m[i];
      return None;
    }
    if k == 0 || (m != "" && m[|m| - 1] == '.') {
      return None;
    }
    forall i | 0 <= i < k ensures IsDigit(m[..k][i]) {
      assert m[i] in m;
    }
    if k < |m| && Dot(m, k + 1) < |m| {
      var d := Dot(m, k + 1);
      assert m[k + 1..][d - k - 1] == '.';
      assert !IsDigit(m[k + 1..][d - k - 1]);
      return None;
    }
    if U64 <= Digits(m[..k]) {
      return None;
    }
    if k == |m| {
      return Some(Digits(m[..k]) * Pow10(dec));
    }
    var fraction := m[k + 1..];
    forall i | 0 <= i < |fraction| ensures IsDigit(fraction[i]) {
      assert m[k + 1 + i] in m;
    }
    if dec < |fraction| {
      return None;
    }
    var padded := PadRight(fraction, dec);
    DigitsConcat(m[..k], padded);
    return Some(Digits(m[..k] + padded));
  }
}
