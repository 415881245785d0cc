/** Choosing the garbage-collection safepoint of the shared store, and pruning the
    registry of commit timestamps by it. */
module GcSafepoint {
  import opened Prelude

  type Instance = nat

  datatype Timestamp = Timestamp(physical: int, logical: int)

  predicate AtMost(a: Timestamp, b: Timestamp) {
    a.physical < b.physical || (a.physical == b.physical && a.logical <= b.logical)
  }

  predicate Before(a: Timestamp, b: Timestamp) {
    AtMost(a, b) && a != b
  }

  datatype Entry = Entry(height: nat, mempool: bool, ts: Timestamp)

  type Registry = map<Instance, seq<Entry>>

  // ----- chain tips -----

  /** Order of entries: by height, then by timestamp. */
  predicate Precedes(a: Entry, b: Entry) {
    a.height < b.height || (a.height == b.height && AtMost(a.ts, b.ts))
  }

  /** The last confirmed entry in that order; None when there is none. */
  function Tip(entries: seq<Entry>): Option<Entry> {
    if entries == [] then None
    else
      var n := |entries| - 1;
      var t := Tip(entries[..n]);
      if entries[n].mempool || (t.Some? && !Precedes(t.value, entries[n])) then t else Some(entries[n])
  }

  lemma {:induction false} TipIs(entries: seq<Entry>)
    ensures Tip(entries).Some? ==> Tip(entries).value in entries && !Tip(entries).value.mempool
    ensures forall e <- entries :: !e.mempool ==> Tip(entries).Some? && Precedes(e, Tip(entries).value)
  {
    if entries != [] {
      var n := |entries| - 1;
      TipIs(entries[..n]);
      assert entries == entries[..n] + [entries[n]];
    }
  }

  /** The tip is the only confirmed entry that all others precede, up to equal
      height and timestamp. */
  lemma TipUnique(entries: seq<Entry>, e: Entry)
    requires e in entries && !e.mempool && forall d <- entries :: !d.mempool ==> Precedes(d, e)
    ensures Tip(entries).Some? && Tip(entries).value.height == e.height && Tip(entries).value.ts == e.ts
  {
    TipIs(entries);
  }

  // ----- the safepoint -----

  ghost predicate HasTips(reg: Registry) {
    reg != map[] && forall i <- reg :: Tip(reg[i]).Some?
  }

  function Earlier(a: Timestamp, b: Timestamp): Timestamp {
    if AtMost(a, b) then a else b
  }

  /** The candidate: the earliest chain tip, but not within the safe zone. */
  ghost predicate IsSafepoint(reg: Registry, clock: int, zone: nat, s: Timestamp)
    requires HasTips(reg)
  {
    && (forall i <- reg :: AtMost(s, Tip(reg[i]).value.ts))
    && AtMost(s, Timestamp(clock - zone, 0))
    && (s == Timestamp(clock - zone, 0) || exists i :: i in reg && s == Tip(reg[i]).value.ts)
  }

  /** The candidates are sorted and the first one taken. */
  method ChooseSafepoint(reg: Registry, clock: int, zone: nat) returns (s: Timestamp)
    requires HasTips(reg)
    ensures IsSafepoint(reg, clock, zone, s)
  {
    hide Tip;
    s := Timestamp(clock - zone, 0);
    var left := reg.Keys;
    while left != {}
      invariant left <= reg.Keys
      invariant AtMost(s, Timestamp(clock - zone, 0))
      invariant forall i <- reg :: i !in left ==> AtMost(s, Tip(reg[i]).value.ts)
      invariant s == Timestamp(clock - zone, 0) || exists i :: i in reg && s == Tip(reg[i]).value.ts
      decreases |left|
    {
      var i :| i in left;
      var t := ChainTip(reg[i]);
      s := Earlier(t.value.ts, s);
      left := left - {i};
    }
  }

  /** Drops mempool entries, sorts and pops the last. */
  method ChainTip(entries: seq<Entry>) returns (tip: Option<Entry>)
    ensures tip == Tip(entries)
  {
    tip := None;
    for n := 0 to |entries|
      invariant tip == Tip(entries[..n])
    {
      assert entries[..n + 1][..n] == entries[..n];
      if !entries[n].mempool && (tip.None? || Precedes(tip.value, entries[n])) {
        tip := Some(entries[n]);
      }
    }
    assert entries[..|entries|] == entries;
  }

  /** Entries at or after the safepoint's physical time. */
  function Recent(entries: seq<Entry>, s: Timestamp): seq<Entry> {
    if entries == [] then []
    else Recent(entries[..|entries| - 1], s)
         + if s.physical <= entries[|entries| - 1].ts.physical then [entries[|entries| - 1]] else []
  }

  function Prune(reg: Registry, s: Timestamp): Registry {
    map i | i in reg :: Recent(reg[i], s)
  }

  lemma {:induction false} RecentIn(entries: seq<Entry>, s: Timestamp)
    ensures forall e :: e in Recent(entries, s) <==> e in entries && s.physical <= e.ts.physical
  {
    if entries != [] {
      var n := |entries| - 1;
      RecentIn(entries[..n], s);
      assert entries == entries[..n] + [entries[n]];
    }
  }

  /** No two entries carry the same timestamp. */
  ghost predicate Distinct(entries: seq<Entry>) {
    forall d, e :: d in entries && e in entries && d.ts == e.ts ==> d == e
  }

  /** Pruning at a safepoint keeps the chain tip. */
  lemma TipKept(entries: seq<Entry>, s: Timestamp)
    requires Distinct(entries) && Tip(entries).Some? && AtMost(s, Tip(entries).value.ts)
    ensures Tip(Recent(entries, s)) == Tip(entries)
  {
    TipIs(entries);
    RecentIn(entries, s);
    TipUnique(Recent(entries, s), Tip(entries).value);
    TipIs(Recent(entries, s));
  }

  // ----- the protocol -----

  datatype System = System(reg: Registry, clock: int, latest: Timestamp, safepoint: Option<Timestamp>)

  /** Every recorded timestamp is unique and not after the latest one handed out;
      the last safepoint is within the safe zone and behind every chain tip. */
  ghost predicate Inv(y: System, zone: nat) {
    && (forall i <- y.reg :: Distinct(y.reg[i]) && forall e <- y.reg[i] :: AtMost(e.ts, y.latest))
    && (y.safepoint.Some? ==>
          && AtMost(y.safepoint.value, y.latest)
          && AtMost(y.safepoint.value, Timestamp(y.clock - zone, 0))
          && forall i <- y.reg :: Tip(y.reg[i]).Some? ==> AtMost(y.safepoint.value, Tip(y.reg[i]).value.ts))
  }

  datatype Step =
    /** a commit or a rollback records its point under a fresh timestamp */
    | Record(instance: Instance, entry: Entry)
    | Tick(clock: int)
    | Collect(chosen: Timestamp)

  function Apply(y: System, step: Step): System {
    match step
    case Record(i, e) =>
      y.(reg := y.reg[i := (if i in y.reg then y.reg[i] else []) + [e]], latest := e.ts)
    case Tick(c) => y.(clock := c)
    case Collect(s) => y.(reg := Prune(y.reg, s), safepoint := Some(s))
  }

  ghost predicate Allowed(y: System, zone: nat, step: Step) {
    match step
    case Record(i, e) => Before(y.latest, e.ts)
    case Tick(c) => y.clock <= c
    case Collect(s) => HasTips(y.reg) && IsSafepoint(y.reg, y.clock, zone, s)
  }

  /** A fresh timestamp never moves an instance's chain tip back in time. */
  lemma TipGrows(entries: seq<Entry>, e: Entry, latest: Timestamp)
    requires (forall d <- entries :: AtMost(d.ts, latest)) && Before(latest, e.ts)
    ensures var t := Tip(entries + [e]);
      && (Tip(entries).Some? ==> t.Some? && AtMost(Tip(entries).value.ts, t.value.ts))
      && (t.Some? ==> t == Tip(entries) || t == Some(e))
  {
    assert (entries + [e])[..|entries|] == entries;
    TipIs(entries);
  }

  lemma {:induction false} RecordKeeps(y: System, zone: nat, i: Instance, e: Entry)
    requires Inv(y, zone) && Before(y.latest, e.ts)
    ensures Inv(Apply(y, Record(i, e)), zone)
  {
    var prior := if i in y.reg then y.reg[i] else [];
    TipGrows(prior, e, y.latest);
    var z := Apply(y, Record(i, e));
    forall j | j in z.reg ensures Distinct(z.reg[j]) && forall d <- z.reg[j] :: AtMost(d.ts, z.latest) {
      if j == i {
        forall d | d in prior ensures d.ts != e.ts && AtMost(d.ts, e.ts) {
        }
      }
    }
  }

  lemma {:induction false} CollectKeeps(y: System, zone: nat, s: Timestamp)
    requires Inv(y, zone) && HasTips(y.reg) && IsSafepoint(y.reg, y.clock, zone, s)
    ensures Inv(Apply(y, Collect(s)), zone)
    ensures HasTips(Apply(y, Collect(s)).reg)
    ensures forall i <- y.reg :: Tip(Prune(y.reg, s)[i]) == Tip(y.reg[i])
  {
    hide Tip, Recent, AtMost;
    forall i | i in y.reg
      ensures Tip(Recent(y.reg[i], s)) == Tip(y.reg[i])
      ensures Distinct(Recent(y.reg[i], s)) && forall e <- Recent(y.reg[i], s) :: AtMost(e.ts, y.latest)
    {
      TipKept(y.reg[i], s);
      RecentIn(y.reg[i], s);
    }
    var i :| i in y.reg;
    SomeTip(y.reg[i]);
    AtMostTrans(s, Tip(y.reg[i]).value.ts, y.latest);
  }

  lemma AtMostTrans(a: Timestamp, b: Timestamp, c: Timestamp)
    requires AtMost(a, b) && AtMost(b, c)
    ensures AtMost(a, c)
  {
  }

  lemma SomeTip(entries: seq<Entry>)
    ensures Tip(entries).Some? ==> Tip(entries).value in entries
  {
    TipIs(entries);
  }

  lemma StepKeeps(y: System, zone: nat, step: Step)
    requires Inv(y, zone) && Allowed(y, zone, step)
    ensures Inv(Apply(y, step), zone)
  {
    hide Tip;
    match step {
      case Record(i, e) => RecordKeeps(y, zone, i, e);
      case Tick(c) =>
      case Collect(s) => CollectKeeps(y, zone, s);
    }
  }

  /** A new safepoint is never earlier than the last one. */
  lemma SafepointAdvances(y: System, zone: nat, s: Timestamp)
    requires Inv(y, zone) && HasTips(y.reg) && IsSafepoint(y.reg, y.clock, zone, s) && y.safepoint.Some?
    ensures AtMost(y.safepoint.value, s)
  {
  }

  // ----- runs -----

  ghost predicate AllowedRun(y: System, zone: nat, steps: seq<Step>)
    decreases |steps|
  {
    steps == [] || (Allowed(y, zone, steps[0]) && AllowedRun(Apply(y, steps[0]), zone, steps[1..]))
  }

  function Run(y: System, steps: seq<Step>): System
    decreases |steps|
  {
    if steps == [] then y else Run(Apply(y, steps[0]), steps[1..])
  }

  /** Over any interleaving of records, clock ticks and collections, the safepoint
      never moves back and never passes a chain tip or the safe zone. */
  lemma {:induction false} RunIsSafe(y: System, zone: nat, steps: seq<Step>)
    requires Inv(y, zone) && AllowedRun(y, zone, steps)
    ensures var z := Run(y, steps);
      && Inv(z, zone)
      && (y.safepoint.Some? ==> z.safepoint.Some? && AtMost(y.safepoint.value, z.safepoint.value))
      && (z.safepoint.Some? ==>
            && AtMost(z.safepoint.value, Timestamp(z.clock - zone, 0))
            && forall i <- z.reg :: Tip(z.reg[i]).Some? ==> AtMost(z.safepoint.value, Tip(z.reg[i]).value.ts))
    decreases |steps|
  {
    hide Tip, IsSafepoint, HasTips;
    if steps != [] {
      StepKeeps(y, zone, steps[0]);
      if steps[0].Collect? && y.safepoint.Some? {
        SafepointAdvances(y, zone, steps[0].chosen);
      }
      RunIsSafe(Apply(y, steps[0]), zone, steps[1..]);
    }
  }
}
