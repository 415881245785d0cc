/** Dune names: bijective base 26 over capital letters, with optional spacers. */
module DuneNames {
  import opened Prelude

  // ----- plain names -----

  predicate IsLetter(c: char) {
    'A' <= c <= 'Z'
  }

  function Letter(d: nat): (c: char)
    requires d < 26
    ensures IsLetter(c) && Index(c) == d
  {
    'A' + d as char
  }

  function Index(c: char): (d: nat)
    requires IsLetter(c)
    ensures d < 26
  {
    (c - 'A') as int
  }

  /** The letters of `n`, counted from one. */
  function Letters(n: nat): string {
    if n == 0 then "" else Letters((n - 1) / 26) + [Letter((n - 1) % 26)]
  }

  const MAX_NAME := "BCGDENLQRQWDSLRUGSNLBTMFIJAV"

  function Print(n: u128): string {
    if n == U128 - 1 then MAX_NAME else Letters(n + 1)
  }

  /** The number that letters stand for, counted from one. */
  function Value(s: string): nat
    requires forall c <- s :: IsLetter(c)
  {
    if s == "" then 0 else Value(s[..|s| - 1]) * 26 + Index(s[|s| - 1]) + 1
  }

  /** One character of parsing: the step past a previous letter wraps, the rest is
      checked. */
  function ParseStep(x: u128, first: bool, c: char): Option<u128> {
    var y := (if first then x else (x + 1) % U128) * 26;
    if y >= U128 || !IsLetter(c) || y + Index(c) >= U128 then None else Some(y + Index(c))
  }

  function ParseFrom(x: u128, s: string, i: nat): Option<u128>
    requires i <= |s|
    decreases |s| - i
  {
    if i == |s| then Some(x)
    else
      match ParseStep(x, i == 0, s[i])
      case None => None
      case Some(y) => ParseFrom(y, s, i + 1)
  }

  function Parse(s: string): Option<u128> {
    ParseFrom(0, s, 0)
  }

  lemma {:induction false} LettersAreLetters(n: nat)
    ensures forall c <- Letters(n) :: IsLetter(c)
    decreases n
  {
    if n > 0 {
      LettersAreLetters((n - 1) / 26);
    }
  }

  lemma {:induction false} LettersValue(n: nat)
    ensures (forall c <- Letters(n) :: IsLetter(c)) && Value(Letters(n)) == n
    decreases n
  {
    LettersAreLetters(n);
    if n > 0 {
      LettersValue((n - 1) / 26);
      var s := Letters(n);
      assert s[..|s| - 1] == Letters((n - 1) / 26);
    }
  }

  /** Letters are determined by their value: the reverse direction. */
  lemma {:induction false} ValueLetters(s: string)
    requires forall c <- s :: IsLetter(c)
    ensures Letters(Value(s)) == s
    decreases |s|
  {
    if s != "" {
      var n := |s| - 1;
      ValueLetters(s[..n]);
      LastLetter(Value(s[..n]), Index(s[n]));
      LetterIndex(s[n]);
      assert s == s[..n] + [s[n]];
    }
  }

  lemma LastLetter(v: nat, d: nat)
    requires d < 26
    ensures (v * 26 + d) / 26 == v && (v * 26 + d) % 26 == d
  {
  }

  lemma LetterIndex(c: char)
    requires IsLetter(c)
    ensures Letter(Index(c)) == c
  {
  }

  /** A prefix stands for no more than the whole. */
  lemma {:induction false} ValuePrefix(s: string, i: nat)
    requires (forall c <- s :: IsLetter(c)) && i <= |s|
    ensures Value(s[..i]) <= Value(s)
    decreases |s|
  {
    if i < |s| {
      var n := |s| - 1;
      ValuePrefix(s[..n], i);
      assert s[..n][..i] == s[..i];
    } else {
      assert s[..i] == s;
    }
  }

  lemma StepIs(x: u128, first: bool, c: char, v: nat)
    requires IsLetter(c) && v == (if first then 0 else x + 1) && (first ==> x == 0) && v * 26 + Index(c) + 1 <= U128
    ensures ParseStep(x, first, c) == Some(v * 26 + Index(c))
  {
  }

  /** Parsing letters whose value fits yields that value, counted from zero. */
  lemma {:induction false} ParseLetters(s: string, i: nat, x: u128)
    requires (forall c <- s :: IsLetter(c)) && 0 < Value(s) <= U128 && i <= |s|
    requires x == if i == 0 then 0 else Value(s[..i]) - 1
    requires i > 0 ==> Value(s[..i]) > 0
    ensures ParseFrom(x, s, i) == Some(Value(s) - 1)
    decreases |s| - i
  {
    if i < |s| {
      ValuePrefix(s, i + 1);
      assert s[..i + 1][..i] == s[..i];
      assert s[i] in s;
      StepIs(x, i == 0, s[i], Value(s[..i]));
      ParseLetters(s, i + 1, Value(s[..i + 1]) - 1);
    } else {
      assert s[..i] == s;
    }
  }

  /** The same value, read from the left. */
  function FromLeft(v: nat, s: string): nat
    requires forall c <- s :: IsLetter(c)
    decreases |s|
  {
    if s == "" then v else FromLeft(v * 26 + Index(s[0]) + 1, s[1..])
  }

  lemma {:induction false} FromLeftConcat(v: nat, a: string, b: string)
    requires (forall c <- a :: IsLetter(c)) && (forall c <- b :: IsLetter(c))
    ensures FromLeft(v, a + b) == FromLeft(FromLeft(v, a), b)
    decreases |a|
  {
    if a == "" {
      assert a + b == b;
    } else {
      assert (a + b)[1..] == a[1..] + b;
      FromLeftConcat(v * 26 + Index(a[0]) + 1, a[1..], b);
    }
  }

  lemma {:induction false} ValueFromLeft(s: string)
    requires forall c <- s :: IsLetter(c)
    ensures Value(s) == FromLeft(0, s)
    decreases |s|
  {
    if s != "" {
      var n := |s| - 1;
      ValueFromLeft(s[..n]);
      FromLeftConcat(0, s[..n], [s[n]]);
      assert s == s[..n] + [s[n]];
      var v := FromLeft(0, s[..n]);
      assert FromLeft(v * 26 + Index(s[n]) + 1, "") == v * 26 + Index(s[n]) + 1;
    }
  }

  lemma MaxPart1()
    ensures (forall c <- "BCGDENL" :: IsLetter(c)) && FromLeft(0, "BCGDENL") == 656748572
  {
  }

  lemma MaxPart2()
    ensures (forall c <- "QRQWDSL" :: IsLetter(c)) && FromLeft(656748572, "QRQWDSL") == 5274879869136677682
  {
  }

  lemma MaxPart3()
    ensures (forall c <- "RUGSNLB" :: IsLetter(c))
      && FromLeft(5274879869136677682, "RUGSNLB") == 42366833810109516146933227450
  {
  }

  lemma MaxPart4()
    ensures (forall c <- "TMFIJAV" :: IsLetter(c))
      && FromLeft(42366833810109516146933227450, "TMFIJAV") == 340282366920938463463374607431768211456
  {
  }

  /** The name of the largest dune is what the general rule would give. */
  lemma MaxNameValue()
    ensures (forall c <- MAX_NAME :: IsLetter(c)) && Value(MAX_NAME) == U128
  {
    hide FromLeft, Value;
    var a, b, c, d := "BCGDENL", "QRQWDSL", "RUGSNLB", "TMFIJAV";
    MaxPart1();
    MaxPart2();
    MaxPart3();
    MaxPart4();
    assert MAX_NAME == a + (b + (c + d));
    FromLeftConcat(0, a, b + (c + d));
    FromLeftConcat(656748572, b, c + d);
    FromLeftConcat(5274879869136677682, c, d);
    ValueFromLeft(a + (b + (c + d)));
  }

  /** Every dune name prints and parses back to itself. */
  lemma NameRoundTrip(n: u128)
    ensures Parse(Print(n)) == Some(n)
  {
    if n == U128 - 1 {
      MaxNameValue();
    } else {
      LettersValue(n + 1);
    }
    ParseLetters(Print(n), 0, 0);
  }

  lemma PrintValue(n: u128)
    ensures Print(n) != "" && (forall c <- Print(n) :: IsLetter(c)) && Value(Print(n)) == n + 1
  {
    if n == U128 - 1 {
      MaxNameValue();
    } else {
      LettersValue(n + 1);
    }
  }

  ghost predicate IsName(s: string) {
    s != "" && (forall c <- s :: IsLetter(c)) && Value(s) <= U128
  }

  /** A text parses to a dune that prints as the same text exactly if it is a
      non-empty name within range; a longer one can wrap around. */
  lemma TextRoundTripIff(s: string)
    ensures (Parse(s).Some? && Print(Parse(s).value) == s) <==> IsName(s)
  {
    if Parse(s).Some? && Print(Parse(s).value) == s {
      PrintValue(Parse(s).value);
    }
    if IsName(s) {
      assert Value(s) > 0;
      ParseLetters(s, 0, 0);
      ValueLetters(s);
      if Value(s) == U128 {
        MaxNameValue();
        ValueLetters(MAX_NAME);
      }
    }
  }

  // ----- spacers -----

  const BULLET: char := '\U{2022}'

  function Pow2(i: nat): (p: nat)
    ensures p > 0
  {
    if i == 0 then 1 else 2 * Pow2(i - 1)
  }

  function Bit(n: nat, i: nat): bool {
    n / Pow2(i) % 2 == 1
  }

  /** The letters from position `i` on, a spacer after each letter but the last
      whose bit is set. */
  function SpacedFrom(name: string, spacers: nat, i: nat): string
    requires i <= |name|
    decreases |name| - i
  {
    if i == |name| then ""
    else [name[i]] + (if i < |name| - 1 && Bit(spacers, i) then [BULLET] else "") + SpacedFrom(name, spacers, i + 1)
  }

  function PrintSpaced(dune: u128, spacers: nat): string {
    SpacedFrom(Print(dune), spacers, 0)
  }

  datatype Reading = Reading(name: string, spacers: nat)

  /** The bit of a spacer after `len` letters; a 32-bit shift counts modulo 32. */
  function SpacerBit(len: nat): nat
    requires len > 0
  {
    (len - 1) % 32
  }

  /** One character: a letter, or a spacer after some letter, once. None is one of
      the errors. */
  function ReadChar(r: Reading, c: char): Option<Reading> {
    if IsLetter(c) then Some(r.(name := r.name + [c]))
    else if c == '.' || c == BULLET then
      if r.name == "" then None
      else if Bit(r.spacers, SpacerBit(|r.name|)) then None
      else Some(r.(spacers := r.spacers + Pow2(SpacerBit(|r.name|))))
    else None
  }

  function ReadAll(r: Reading, s: string): Option<Reading>
    decreases |s|
  {
    if s == "" then Some(r)
    else
      match ReadChar(r, s[0])
      case None => None
      case Some(q) => ReadAll(q, s[1..])
  }

  /** A spacer after the last letter is an error: the spacers must fit below it. */
  function ParseSpaced(s: string): Option<(u128, nat)> {
    match ReadAll(Reading("", 0), s)
    case None => None
    case Some(r) =>
      if r.name == "" || Pow2(|r.name| - 1) <= r.spacers then None
      else
        match Parse(r.name)
        case None => None
        case Some(n) => Some((n, r.spacers))
  }

  lemma {:induction false} ReadConcat(r: Reading, a: string, b: string)
    ensures ReadAll(r, a + b) == match ReadAll(r, a) case None => None case Some(q) => ReadAll(q, b)
    decreases |a|
  {
    if a == "" {
      assert a + b == b;
    } else {
      assert (a + b)[1..] == a[1..] + b;
      if ReadChar(r, a[0]).Some? {
        ReadConcat(ReadChar(r, a[0]).value, a[1..], b);
      }
    }
  }

  lemma LowBits(n: nat, i: nat)
    ensures n % Pow2(i + 1) == n % Pow2(i) + if Bit(n, i) then Pow2(i) else 0
    ensures !Bit(n % Pow2(i), i)
  {
    SplitBit(n, Pow2(i));
    BelowDivisor(n % Pow2(i), Pow2(i));
  }

  lemma BelowDivisor(r: nat, p: nat)
    requires r < p
    ensures r / p == 0
  {
  }

  lemma SplitBit(n: nat, p: nat)
    requires p > 0
    ensures n % (2 * p) == n % p + if n / p % 2 == 1 then p else 0
  {
    var q, r := n / p, n % p;
    assert n == q * p + r && r < p;
    var h := q / 2;
    HalfProduct(q, h, p);
    if q % 2 == 1 {
      Remainder(n, 2 * p, h, p + r);
    } else {
      Remainder(n, 2 * p, h, r);
    }
  }

  lemma HalfProduct(q: nat, h: nat, p: nat)
    requires h == q / 2
    ensures q * p == h * (2 * p) + (if q % 2 == 1 then p else 0)
  {
    assert q == 2 * h + q % 2;
    assert (2 * h) * p == h * (2 * p);
    if q % 2 == 1 {
      assert (2 * h + 1) * p == (2 * h) * p + p;
    }
  }

  lemma Remainder(x: nat, d: nat, q: nat, r: nat)
    requires d > 0 && x == q * d + r && r < d
    ensures x % d == r
  {
    var a, b := x / d, x % d;
    assert x == a * d + b && b < d;
    if a < q {
      Gap(a, q, d);
    } else if q < a {
      Gap(q, a, d);
    }
  }

  lemma Gap(a: nat, b: nat, d: nat)
    requires a < b
    ensures a * d + d <= b * d
  {
    var k := b - a - 1;
    assert b * d == a * d + d + k * d;
    assert k * d >= 0;
  }

  /** Reading back the rest of a spaced name collects its letters and the spacer
      bits below the last letter. */
  lemma {:induction false} ReadSpaced(name: string, spacers: nat, i: nat)
    requires (forall c <- name :: IsLetter(c)) && 0 < |name| <= 32 && i <= |name|
    ensures ReadAll(Reading(name[..i], spacers % Pow2(Min(i, |name| - 1))), SpacedFrom(name, spacers, i))
         == Some(Reading(name, spacers % Pow2(|name| - 1)))
    decreases |name| - i
  {
    hide Bit, Pow2, ReadAll;
    if i == |name| {
      assert name[..i] == name;
      ReadNothing(Reading(name, spacers % Pow2(|name| - 1)));
    } else {
      assert name[i] in name;
      var k := Min(i, |name| - 1);
      var low := spacers % Pow2(k);
      var marked := i < |name| - 1 && Bit(spacers, i);
      LowBits(spacers, i);
      ReadStep(Reading(name[..i], low), name[i], marked, SpacedFrom(name, spacers, i + 1));
      assert name[..i] + [name[i]] == name[..i + 1];
      ReadSpaced(name, spacers, i + 1);
    }
  }

  /** A letter and, if marked, the spacer after it. */
  lemma ReadStep(r: Reading, c: char, marked: bool, rest: string)
    requires IsLetter(c) && |r.name| < 32 && (marked ==> !Bit(r.spacers, |r.name|))
    ensures ReadAll(r, [c] + (if marked then [BULLET] else "") + rest)
         == ReadAll(Reading(r.name + [c], r.spacers + if marked then Pow2(|r.name|) else 0), rest)
  {
    hide Bit, Pow2, ReadAll;
    var mark := if marked then [BULLET] else "";
    ConcatAssoc([c], mark, rest);
    ReadOne(r, c, mark + rest);
    if marked {
      ReadOne(Reading(r.name + [c], r.spacers), BULLET, rest);
    } else {
      assert mark + rest == rest;
    }
  }

  lemma ReadNothing(r: Reading)
    ensures ReadAll(r, "") == Some(r)
  {
  }

  lemma ReadOne(r: Reading, c: char, s: string)
    ensures ReadAll(r, [c] + s) == match ReadChar(r, c) case None => None case Some(q) => ReadAll(q, s)
  {
    assert ([c] + s)[1..] == s;
  }

  lemma {:induction false} PowSplit(a: nat, b: nat)
    ensures Pow2(a + b) == Pow2(a) * Pow2(b)
    decreases a
  {
    if a > 0 {
      PowSplit(a - 1, b);
      assert 2 * (Pow2(a - 1) * Pow2(b)) == (2 * Pow2(a - 1)) * Pow2(b);
    }
  }

  lemma PowSmall()
    ensures Pow2(4) == 16
  {
  }

  lemma PowIs128()
    ensures Pow2(128) == U128
  {
    PowSmall();
    hide Pow2;
    PowSplit(4, 4);
    PowSplit(8, 8);
    PowSplit(16, 16);
    PowSplit(32, 32);
    PowSplit(64, 64);
  }

  lemma {:induction false} LettersShort(n: nat, k: nat)
    requires n < Pow2(4 * k)
    ensures |Letters(n)| <= k
    decreases k
  {
    if n > 0 {
      assert k > 0 by {
        PowZero();
      }
      PowSmall();
      PowSplit(4, 4 * (k - 1));
      LettersShort((n - 1) / 26, k - 1);
    }
  }

  /** No name is as long as the spacers are wide. */
  lemma PrintShort(dune: u128)
    ensures |Print(dune)| <= 32
  {
    if dune != U128 - 1 {
      PowIs128();
      LettersShort(dune + 1, 32);
    }
  }

  /** Parsed spacers fit their 32 bits. */
  lemma {:induction false} ReadFits(r: Reading, s: string)
    requires r.spacers < Pow2(32) && ReadAll(r, s).Some?
    ensures ReadAll(r, s).value.spacers < Pow2(32)
    decreases |s|
  {
    hide Bit, Pow2;
    if s != "" {
      var q := ReadChar(r, s[0]).value;
      if q.spacers != r.spacers {
        AddBit(r.spacers, SpacerBit(|r.name|));
      }
      ReadFits(q, s[1..]);
    }
  }

  lemma AddBit(n: nat, i: nat)
    requires n < Pow2(32) && i < 32 && !Bit(n, i)
    ensures n + Pow2(i) < Pow2(32)
  {
    LowBits(n, i);
    var d, m := Pow2(i + 1), Pow2(31 - i);
    PowSplit(i + 1, 31 - i);
    hide Pow2, Bit;
    FitsBelow(n, d, m, Pow2(i));
    assert Pow2(i + 1) == 2 * Pow2(i) by {
      PowStep(i);
    }
  }

  lemma PowStep(i: nat)
    ensures Pow2(i + 1) == 2 * Pow2(i)
  {
  }

  /** Room for less than the rest of a block of size `d`, of which there are `m`. */
  lemma FitsBelow(n: nat, d: nat, m: nat, x: nat)
    requires d > 0 && n < d * m
    ensures n % d + x < d ==> n + x < d * m
  {
    var q := n / d;
    assert n == q * d + n % d;
    if n % d + x < d {
      if q < m {
        Gap(q, m, d);
      } else if m < q {
        Gap(m, q, d);
      }
    }
  }

  /** A spaced name prints and parses back to itself exactly if its spacers lie
      below the last letter. */
  lemma SpacedRoundTripIff(dune: u128, spacers: nat)
    ensures ParseSpaced(PrintSpaced(dune, spacers)) == Some((dune, spacers % Pow2(|Print(dune)| - 1)))
    ensures ParseSpaced(PrintSpaced(dune, spacers)) == Some((dune, spacers)) <==> spacers < Pow2(|Print(dune)| - 1)
  {
    hide Pow2, Bit;
    var name := Print(dune);
    PrintValue(dune);
    NameRoundTrip(dune);
    PrintShort(dune);
    PowZero();
    ReadSpaced(name, spacers, 0);
    assert name[..0] == "";
    ModSmall(spacers, Pow2(|name| - 1));
  }

  lemma PowZero()
    ensures Pow2(0) == 1
  {
  }

  lemma ModSmall(x: nat, m: nat)
    requires m > 0
    ensures x % m < m && (x % m == x <==> x < m) && x % 1 == 0
  {
  }

  // ----- the loops -----

  method PrintName(dune: u128) returns (s: string)
    ensures s == Print(dune)
  {
    if dune == U128 - 1 {
      return MAX_NAME;
    }
    var n: nat := dune + 1;
    s := "";
    while n > 0
      invariant Letters(n) + s == Letters(dune + 1)
    {
      ConcatAssoc(Letters((n - 1) / 26), [Letter((n - 1) % 26)], s);
      s := [Letter((n - 1) % 26)] + s;
      n := (n - 1) / 26;
    }
  }

  method ParseName(s: string) returns (r: Option<u128>)
    ensures r == Parse(s)
  {
    var x: u128 := 0;
    for i := 0 to |s|
      invariant ParseFrom(x, s, i) == Parse(s)
    {
      if i > 0 {
        x := (x + 1) % U128;
      }
      if x * 26 >= U128 {
        return None;
      }
      if !IsLetter(s[i]) || x * 26 + Index(s[i]) >= U128 {
        return None;
      }
      x := x * 26 + Index(s[i]);
    }
    r := Some(x);
  }

  method ParseSpacedName(s: string) returns (r: Option<(u128, nat)>)
    ensures r == ParseSpaced(s)
  {
    hide Bit, Pow2;
    var name, spacers: nat := "", 0;
    for i := 0 to |s|
      invariant ReadAll(Reading(name, spacers), s[i..]) == ReadAll(Reading("", 0), s)
    {
      assert s[i..][1..] == s[i + 1..];
      if IsLetter(s[i]) {
        name := name + [s[i]];
      } else if s[i] == '.' || s[i] == BULLET {
        if name == "" || Bit(spacers, SpacerBit(|name|)) {
          return None;
        }
        spacers := spacers + Pow2(SpacerBit(|name|));
      } else {
        return None;
      }
    }
    if name == "" || Pow2(|name| - 1) <= spacers {
      return None;
    }
    var n := ParseName(name);
    r := if n.Some? then Some((n.value, spacers)) else None;
  }
}
