/** The in-memory rollback buffer, and undoing blocks from it: exact, and safe to
    repeat after an interruption. */
module Rollback {
  import opened Prelude
  import opened Bytes
  import opened Actions

  datatype Point = Point(height: nat, hash: Bytes)

  /** A processed block and the actions that undo it. */
  datatype Entry = Entry(point: Point, inverses: seq<Action>)

  // ----- the buffer -----

  function Truncated<T>(s: seq<T>, size: nat): (r: seq<T>)
    ensures |r| == if size < |s| then size else |s|
    ensures forall i :: 0 <= i < |r| ==> r[i] == s[i]
  {
    if size < |s| then s[..size] else s
  }

  /** Newest first; the oldest are dropped. */
  function Added(blocks: seq<Entry>, size: nat, e: Entry): seq<Entry> {
    Truncated([e] + blocks, size)
  }

  /** Position of the newest entry for the point. */
  function Position(blocks: seq<Entry>, p: Point): (r: Option<nat>)
    ensures r.Some? ==> r.value < |blocks| && blocks[r.value].point == p
    ensures r.Some? ==> forall i :: 0 <= i < r.value ==> blocks[i].point != p
    ensures r.None? ==> forall e <- blocks :: e.point != p
  {
    if blocks == [] then None
    else if blocks[0].point == p then Some(0)
    else
      match Position(blocks[1..], p)
      case None => None
      case Some(i) => Some(i + 1)
  }

  class RollbackBuffer {
    const size: nat
    var blocks: seq<Entry>

    constructor (size: nat)
      ensures this.size == size && blocks == []
    {
      this.size := size;
      blocks := [];
    }

    /** Pushes to the front and truncates. */
    method AddBlock(point: Point, inverses: seq<Action>)
      modifies this
      ensures blocks == Added(old(blocks), size, Entry(point, inverses))
    {
      blocks := [Entry(point, inverses)] + blocks;
      if size < |blocks| {
        blocks := blocks[..size];
      }
    }

    method Find(point: Point) returns (r: Option<nat>)
      ensures r == Position(blocks, point)
    {
      for i := 0 to |blocks|
        invariant forall j :: 0 <= j < i ==> blocks[j].point != point
      {
        if blocks[i].point == point {
          FirstIs(blocks, point, i);
          return Some(i);
        }
      }
      r := None;
    }

    /** The blocks after the point, most recent first; the buffer keeps them. */
    method PointsSince(point: Point) returns (r: Option<seq<Entry>>)
      ensures var p := Position(blocks, point);
        r == if p.Some? then Some(blocks[..p.value]) else None
    {
      var p := Find(point);
      r := if p.Some? then Some(blocks[..p.value]) else None;
    }

    /** Drops the blocks after the point; false when the point is not there. */
    method RollbackToPoint(point: Point) returns (ok: bool)
      modifies this
      ensures var p := Position(old(blocks), point);
        ok == p.Some? && blocks == if p.Some? then old(blocks)[p.value..] else old(blocks)
    {
      var p := Find(point);
      ok := p.Some?;
      if ok {
        blocks := blocks[p.value..];
      }
    }
  }

  lemma FirstIs(blocks: seq<Entry>, p: Point, i: nat)
    requires i < |blocks| && blocks[i].point == p && forall j :: 0 <= j < i ==> blocks[j].point != p
    ensures Position(blocks, p) == Some(i)
  {
    assert blocks[i] in blocks;
  }

  // ----- undoing several blocks -----

  /** One transaction per block, the newest block first. */
  function UndoAll(s: Store, entries: seq<Entry>): Store
    decreases |entries|
  {
    if entries == [] then s else UndoAll(WriteAll(s, Reverse(entries[0].inverses)), entries[1..])
  }

  /** All the writes of a rollback, in the order they happen. */
  function Writes(entries: seq<Entry>): seq<Action> {
    if entries == [] then [] else Reverse(entries[0].inverses) + Writes(entries[1..])
  }

  lemma {:induction false} UndoAllWrites(s: Store, entries: seq<Entry>)
    ensures UndoAll(s, entries) == WriteAll(s, Writes(entries))
    decreases |entries|
  {
    if entries != [] {
      WriteAllConcat(s, Reverse(entries[0].inverses), Writes(entries[1..]));
      UndoAllWrites(WriteAll(s, Reverse(entries[0].inverses)), entries[1..]);
    }
  }

  lemma {:induction false} UndoAllConcat(s: Store, a: seq<Entry>, b: seq<Entry>)
    ensures UndoAll(s, a + b) == UndoAll(UndoAll(s, a), b)
    decreases |a|
  {
    if a == [] {
      assert a + b == b;
    } else {
      assert (a + b)[1..] == a[1..] + b;
      UndoAllConcat(WriteAll(s, Reverse(a[0].inverses)), a[1..], b);
    }
  }

  // ----- repeating absolute writes -----

  /** The stores agree wherever these actions do not write. */
  ghost predicate AgreeOutside(s: Store, t: Store, actions: seq<Action>) {
    forall k :: k !in Keys(actions) ==> Lookup(s, k) == Lookup(t, k)
  }

  /** After absolute writes it does not matter what the written keys held. */
  lemma {:induction false} WritesDecide(s: Store, t: Store, actions: seq<Action>)
    requires AgreeOutside(s, t, actions)
    ensures WriteAll(s, actions) == WriteAll(t, actions)
    decreases |actions|
  {
    if actions == [] {
      SameLookups(s, t);
    } else {
      HeadAgrees(s, t, actions);
      hide Written, AgreeOutside;
      WritesDecide(Written(s, actions[0]), Written(t, actions[0]), actions[1..]);
    }
  }

  lemma WrittenAt(s: Store, a: Action, k: Key)
    ensures Lookup(Written(s, a), k)
         == if k != a.key then Lookup(s, k) else if a.Set? then Some(a.value) else None
  {
  }

  lemma NotKeyHead(actions: seq<Action>, k: Key)
    requires actions != []
    ensures k !in Keys(actions) <==> k != actions[0].key && k !in Keys(actions[1..])
  {
    KeysHead(actions);
  }

  lemma HeadAgrees(s: Store, t: Store, actions: seq<Action>)
    requires actions != [] && AgreeOutside(s, t, actions)
    ensures AgreeOutside(Written(s, actions[0]), Written(t, actions[0]), actions[1..])
  {
    hide Keys, Written, Lookup;
    var a := actions[0];
    forall k | k !in Keys(actions[1..]) ensures Lookup(Written(s, a), k) == Lookup(Written(t, a), k) {
      WrittenAt(s, a, k);
      WrittenAt(t, a, k);
      NotKeyHead(actions, k);
    }
  }

  lemma SameLookups(s: Store, t: Store)
    requires forall k :: Lookup(s, k) == Lookup(t, k)
    ensures s == t
  {
    forall k ensures (k in s <==> k in t) && (k in s ==> s[k] == t[k]) {
      assert Lookup(s, k) == Lookup(t, k);
    }
  }

  lemma {:induction false} WriteAllOutside(s: Store, actions: seq<Action>)
    ensures AgreeOutside(s, WriteAll(s, actions), actions)
    decreases |actions|
  {
    if actions != [] {
      KeysHead(actions);
      WriteAllOutside(Written(s, actions[0]), actions[1..]);
    }
  }

  lemma AgreePrefix(s: Store, t: Store, a: seq<Action>, b: seq<Action>)
    requires AgreeOutside(s, t, a)
    ensures AgreeOutside(s, t, a + b)
  {
    forall k | k !in Keys(a + b) ensures Lookup(s, k) == Lookup(t, k) {
      forall i | 0 <= i < |a| ensures Keys(a)[i] != k {
        assert Keys(a + b)[i] == Keys(a)[i];
      }
    }
  }

  lemma {:induction false} WritesConcat(a: seq<Entry>, b: seq<Entry>)
    ensures Writes(a + b) == Writes(a) + Writes(b)
  {
    if a == [] {
      assert a + b == b;
    } else {
      assert (a + b)[1..] == a[1..] + b;
      WritesConcat(a[1..], b);
      ConcatAssoc(Reverse(a[0].inverses), Writes(a[1..]), Writes(b));
    }
  }

  /** A rollback tried again and again, each try but the last cut off after some
      of its transactions. */
  function Retried(s: Store, entries: seq<Entry>, cuts: seq<nat>): Store
    decreases |cuts|
  {
    if cuts == [] then UndoAll(s, entries)
    else Retried(UndoAll(s, Truncated(entries, cuts[0])), entries, cuts[1..])
  }

  /** However often a rollback is cut off after some of its commits, rerunning it
      from the start reaches the store of an uninterrupted rollback. */
  lemma {:induction false} RetriedSame(s: Store, t: Store, entries: seq<Entry>, cuts: seq<nat>)
    requires AgreeOutside(s, t, Writes(entries))
    ensures Retried(t, entries, cuts) == UndoAll(s, entries)
    decreases |cuts|
  {
    if cuts == [] {
      UndoAllWrites(s, entries);
      UndoAllWrites(t, entries);
      WritesDecide(s, t, Writes(entries));
    } else {
      var done := Truncated(entries, cuts[0]);
      var rest := entries[|done|..];
      assert entries == done + rest;
      WritesConcat(done, rest);
      UndoAllWrites(t, done);
      WriteAllOutside(t, Writes(done));
      AgreePrefix(t, UndoAll(t, done), Writes(done), Writes(rest));
      RetriedSame(s, UndoAll(t, done), entries, cuts[1..]);
    }
  }

  lemma RetryIsSafe(s: Store, entries: seq<Entry>, cuts: seq<nat>)
    ensures Retried(s, entries, cuts) == UndoAll(s, entries)
  {
    RetriedSame(s, s, entries, cuts);
  }
}
