/** What each action leaves of its key, in numbers: counters wrap around going up and stop
    at zero going down. */
module ActionLaws {
  import opened Prelude
  import opened Bytes
  import opened Actions
  import opened Batcher

  /** The number in the first `width` bytes; an absent key reads as zero. */
  function Reading(v: Option<Value>, width: nat): nat {
    if v.Some? && width <= |v.value| then FromBe(v.value[..width]) else 0
  }

  ghost predicate Holds(after: Option<Value>, n: nat, width: nat) {
    after.Some? && |after.value| == width && FromBe(after.value) == n
  }

  /** A counter of this width after an increment by `d`. */
  ghost predicate Raised(prev: Option<Value>, after: Option<Value>, d: nat, width: nat) {
    if d == 0 then after == prev else Holds(after, (Reading(prev, width) + d) % Pow256(width), width)
  }

  /** After a decrement: nothing happens to an absent counter; one that would drop to zero
      or below is removed, or kept at zero. */
  ghost predicate Lowered(prev: Option<Value>, after: Option<Value>, d: nat, width: nat, keep: bool) {
    if d == 0 || prev.None? then after == prev
    else if d < Reading(prev, width) then Holds(after, Reading(prev, width) - d, width)
    else if keep then Holds(after, 0, width)
    else after.None?
  }

  ghost predicate Leaves(a: Action, prev: Option<Value>, after: Option<Value>) {
    match a
    case Set(_, v) => after == Some(v)
    case Delete(_) => after.None?
    case Insert(_, v) => after == if prev.Some? then prev else Some(v)
    case IncrementU64(_, d) => Raised(prev, after, d, 8)
    case DecrementU64(_, d) => Lowered(prev, after, d, 8, false)
    case IncrementU128(_, d) => Raised(prev, after, d, 16)
    case DecrementU128(_, d) => Lowered(prev, after, d, 16, false)
    case DecrementU128NoDelete(_, d) => Lowered(prev, after, d, 16, true)
  }

  /** A counter's width; None for the other actions and for a change by nothing. */
  function CounterWidth(a: Action): Option<nat> {
    match a
    case IncrementU64(_, d) => if d > 0 then Some(8) else None
    case DecrementU64(_, d) => if d > 0 then Some(8) else None
    case IncrementU128(_, d) => if d > 0 then Some(16) else None
    case DecrementU128(_, d) => if d > 0 then Some(16) else None
    case DecrementU128NoDelete(_, d) => if d > 0 then Some(16) else None
    case _ => None
  }

  lemma RaisedBy(prev: Option<Value>, d: nat, width: nat)
    requires prev.Some? ==> width <= |prev.value|
    requires d < Pow256(width)
    ensures var e := Increase(prev, d, width);
      !e.Panics? && Holds(Outcome(e, prev), (Reading(prev, width) + d) % Pow256(width), width)
  {
    if prev.Some? {
      BeRoundTrip((FromBe(prev.value[..width]) + d) % Pow256(width), width);
    } else {
      BeRoundTrip(d, width);
      SmallMod(d, Pow256(width));
    }
  }

  lemma LoweredBy(prev: Option<Value>, d: nat, width: nat, keep: bool)
    requires prev.Some? && width <= |prev.value| && d > 0
    ensures var e := Decrease(prev, d, width, keep);
      !e.Panics? && Lowered(prev, Outcome(e, prev), d, width, keep)
  {
    var n := FromBe(prev.value[..width]);
    FromBeBound(prev.value[..width]);
    BeRoundTrip(0, width);
    if d < n {
      BeRoundTrip(n - d, width);
    }
  }

  lemma PanicsIff(a: Action, prev: Option<Value>)
    ensures PlainEffect(a, prev).Panics?
       <==> CounterWidth(a).Some? && prev.Some? && |prev.value| < CounterWidth(a).value
  {
    hide Be, FromBe, Pow256;
  }

  /** An action panics exactly when it changes a counter of too few bytes, and otherwise
      leaves what it says. */
  lemma EffectsAre(a: Action, prev: Option<Value>)
    ensures PlainEffect(a, prev).Panics?
       <==> CounterWidth(a).Some? && prev.Some? && |prev.value| < CounterWidth(a).value
    ensures !PlainEffect(a, prev).Panics? ==> Leaves(a, prev, Outcome(PlainEffect(a, prev), prev))
  {
    hide Pow256, Holds, Reading, Increase, Decrease;
    Pow8();
    Pow16();
    PanicsIff(a, prev);
    if CounterWidth(a).Some? && !PlainEffect(a, prev).Panics? {
      match a {
        case IncrementU64(_, d) => RaisedBy(prev, d, 8);
        case IncrementU128(_, d) => RaisedBy(prev, d, 16);
        case DecrementU64(_, d) => Drops(prev, d, 8, false);
        case DecrementU128(_, d) => Drops(prev, d, 16, false);
        case DecrementU128NoDelete(_, d) => Drops(prev, d, 16, true);
      }
    }
  }

  lemma Drops(prev: Option<Value>, d: nat, width: nat, keep: bool)
    requires d > 0 && (prev.Some? ==> width <= |prev.value|)
    ensures var e := Decrease(prev, d, width, keep);
      !e.Panics? && Lowered(prev, Outcome(e, prev), d, width, keep)
  {
    if prev.Some? {
      LoweredBy(prev, d, width, keep);
    }
  }

  /** The action finds its key as it would leave it; a counter that is there always counts
      as changed. */
  ghost predicate Idle(a: Action, prev: Option<Value>) {
    match a
    case Set(_, v) => prev == Some(v)
    case Delete(_) => prev.None?
    case Insert(_, _) => prev.Some?
    case IncrementU64(_, _) => false
    case IncrementU128(_, _) => false
    case _ => prev.None?
  }

  /** An inverse is kept unless the action is idle, and puts back what was there. */
  lemma InverseIs(a: Action, prev: Option<Value>)
    ensures Inverse(a, prev)
         == if Idle(a, prev) then None
            else Some(if prev.Some? then Action.Set(a.key, prev.value) else Action.Delete(a.key))
  {
    hide Pow256, FromBe, Be;
  }

  /** The size that a batch counts for an action is that of its key and of what it writes. */
  lemma SizeIs(a: Action, prev: Option<Value>)
    requires PlainEffect(a, prev).Put?
    ensures Size(a) == |a.key| + |PlainEffect(a, prev).value|
  {
    hide Pow256, FromBe;
  }

  // ----- merging counters -----

  /** A counter that reads `x` below `cap`, after a change by `d`. */
  function Changed(x: int, d: int, cap: int): int {
    if x + d < 0 then 0 else Wrapped(x + d, cap)
  }

  function Wrapped(n: int, cap: int): int {
    if n < cap then n else n - cap
  }

  /** Of a counter below `cap` that reads `x`, these two changes in turn are the change
      that merging makes of them. Two increments always are. */
  ghost predicate Composes(x: int, d: int, e: int, cap: int) {
    if d < 0 && e < 0 then 0 - d - e < cap || x <= 0 - d - e - cap
    else if d < 0 then 0 - d <= x || e == 0
    else if e < 0 then x + d < cap || cap <= x + d + e || x + d + e <= 0
    else true
  }

  lemma AmountAfter(f: Family, a: Action, prev: Option<Value>)
    requires !f.Raw? && InFamily(a, f) && WellStored(f, prev)
    ensures !PlainEffect(a, prev).Panics? && WellStored(f, After(a, prev))
    ensures Amount(prev) < CapOf(f) && Amount(After(a, prev)) == Changed(Amount(prev), Delta(a), CapOf(f))
  {
    hide PlainEffect, Pow256, FromBe;
    EffectsAre(a, prev);
    AmountBound(f, prev);
    if prev.Some? {
      assert prev.value[..Width(f)] == prev.value;
    }
    Pow8();
    Pow16();
    if Delta(a) > 0 {
      WrapOnce(Amount(prev) + Delta(a), CapOf(f));
    }
  }

  /** The merged change: wrapped around if both go the same way and do not fit. */
  function Net(d: int, e: int, cap: int): int {
    if d < 0 && e < 0 then 0 - Wrapped(0 - d - e, cap) else Wrapped(d + e, cap)
  }

  lemma WrapOnce(n: int, cap: int)
    requires 0 <= n < 2 * cap
    ensures n % cap == Wrapped(n, cap)
  {
    if cap <= n {
      assert n == 1 * cap + (n - cap);
    }
  }

  lemma MergedUp(a: Action, b: Action, cap: int)
    requires (a.IncrementU64? && b.IncrementU64? && cap == U64) || (a.IncrementU128? && b.IncrementU128? && cap == U128)
    ensures Merge(a, b).Some? && Delta(Merge(a, b).value) == Wrapped(Delta(a) + Delta(b), cap)
  {
    WrapOnce(Delta(a) + Delta(b), cap);
  }

  lemma MergedDown(f: Family, a: Action, b: Action, cap: int)
    requires !f.Raw? && InFamily(a, f) && InFamily(b, f) && cap == if f.Count64? then U64 else U128
    requires !a.IncrementU64? && !a.IncrementU128? && !b.IncrementU64? && !b.IncrementU128?
    ensures Merge(a, b).Some? && Delta(Merge(a, b).value) == 0 - Wrapped(0 - Delta(a) - Delta(b), cap)
  {
    WrapOnce(0 - Delta(a) - Delta(b), cap);
  }

  predicate GoesUp(a: Action) {
    a.IncrementU64? || a.IncrementU128?
  }

  lemma MergedMixed(f: Family, a: Action, b: Action)
    requires !f.Raw? && InFamily(a, f) && InFamily(b, f) && GoesUp(a) != GoesUp(b)
    ensures Merge(a, b).Some? && Delta(Merge(a, b).value) == Delta(a) + Delta(b)
  {
  }

  lemma MergedFamily(f: Family, a: Action, b: Action)
    requires !f.Raw? && InFamily(a, f) && InFamily(b, f)
    ensures Merge(a, b).Some? && InFamily(Merge(a, b).value, f)
  {
  }

  lemma MergedDelta(f: Family, a: Action, b: Action)
    requires !f.Raw? && InFamily(a, f) && InFamily(b, f)
    ensures Merge(a, b).Some? && InFamily(Merge(a, b).value, f)
    ensures Delta(Merge(a, b).value) == Net(Delta(a), Delta(b), CapOf(f))
    ensures 0 - CapOf(f) < Delta(a) < CapOf(f) && 0 - CapOf(f) < Delta(b) < CapOf(f)
  {
    hide Pow256, Merge;
    Pow8();
    Pow16();
    MergedFamily(f, a, b);
    if GoesUp(a) != GoesUp(b) {
      MergedMixed(f, a, b);
    } else if GoesUp(a) {
      MergedUp(a, b, CapOf(f));
    } else {
      MergedDown(f, a, b, CapOf(f));
    }
  }

  lemma ComposesIff(x: int, d: int, e: int, cap: int)
    requires 0 <= x < cap && 0 - cap < d < cap && 0 - cap < e < cap
    ensures Changed(x, Net(d, e, cap), cap) == Changed(Changed(x, d, cap), e, cap) <==> Composes(x, d, e, cap)
  {
  }

  /** Merging two changes of a counter leaves the amount of making them in turn if and
      only if nothing is lost on the way: a decrement that goes below zero, an increment
      that wraps and is not undone, a sum of decrements that wraps. */
  lemma MergeSameIff(f: Family, a: Action, b: Action, prev: Option<Value>)
    requires !f.Raw? && InFamily(a, f) && InFamily(b, f) && a.key == b.key && WellStored(f, prev)
    ensures !PlainEffect(a, prev).Panics? && !PlainEffect(b, After(a, prev)).Panics?
    ensures Merge(a, b).Some? && !PlainEffect(Merge(a, b).value, prev).Panics?
    ensures Same(f, After(Merge(a, b).value, prev), After(b, After(a, prev)))
       <==> Composes(Amount(prev), Delta(a), Delta(b), CapOf(f))
  {
    hide PlainEffect, Merge, CapOf, After, Changed, Net, Delta;
    MergedDelta(f, a, b);
    AmountAfter(f, a, prev);
    AmountAfter(f, b, After(a, prev));
    AmountAfter(f, Merge(a, b).value, prev);
    ComposesIff(Amount(prev), Delta(a), Delta(b), CapOf(f));
  }
}
