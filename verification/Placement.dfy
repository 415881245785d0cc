/** Moving inscriptions through a transaction by sat offset. */
module Placement {
  import opened Prelude
  import opened ChainTypes

  /** An inscription on its way from the inputs to the outputs. */
  datatype Flotsam = Flotsam(id: InscriptionId, offset: nat, isNew: bool)

  // ----- stable sort by offset -----

  function Insert(f: Flotsam, s: seq<Flotsam>): seq<Flotsam> {
    if s == [] || f.offset <= s[0].offset then [f] + s else [s[0]] + Insert(f, s[1..])
  }

  function SortByOffset(s: seq<Flotsam>): seq<Flotsam> {
    if s == [] then [] else Insert(s[0], SortByOffset(s[1..]))
  }

  ghost predicate Sorted(s: seq<Flotsam>) {
    forall i, j :: 0 <= i < j < |s| ==> s[i].offset <= s[j].offset
  }

  lemma {:induction false} InsertKeeps(f: Flotsam, s: seq<Flotsam>)
    ensures multiset(Insert(f, s)) == multiset{f} + multiset(s)
  {
    if s != [] && s[0].offset < f.offset {
      InsertKeeps(f, s[1..]);
      assert s == [s[0]] + s[1..];
    }
  }

  lemma {:induction false} InsertSorted(f: Flotsam, s: seq<Flotsam>)
    requires Sorted(s)
    ensures Sorted(Insert(f, s))
  {
    if s != [] && s[0].offset < f.offset {
      InsertSorted(f, s[1..]);
      var r := Insert(f, s[1..]);
      InsertKeeps(f, s[1..]);
      forall i | 0 <= i < |r| ensures s[0].offset <= r[i].offset {
        assert r[i] in multiset(r);
        assert r[i] == f || r[i] in s[1..];
      }
    }
  }

  lemma {:induction false} SortLaw(s: seq<Flotsam>)
    ensures Sorted(SortByOffset(s))
    ensures multiset(SortByOffset(s)) == multiset(s)
  {
    if s != [] {
      SortLaw(s[1..]);
      InsertSorted(s[0], SortByOffset(s[1..]));
      InsertKeeps(s[0], SortByOffset(s[1..]));
      assert s == [s[0]] + s[1..];
    }
  }

  // ----- placement -----

  /** Number of leading inscriptions before sat `end`. */
  function Below(s: seq<Flotsam>, end: nat): (k: nat)
    ensures k <= |s|
    ensures forall i :: 0 <= i < k ==> s[i].offset < end
    ensures k < |s| ==> end <= s[k].offset
  {
    if s == [] || end <= s[0].offset then 0 else 1 + Below(s[1..], end)
  }

  /** The inscriptions of each output, in order, and those past the last one. */
  datatype Placing = Placing(perOutput: seq<seq<Flotsam>>, rest: seq<Flotsam>)

  function Place(s: seq<Flotsam>, outs: seq<TxOut>, start: nat): (p: Placing)
    ensures |p.perOutput| == |outs|
    decreases |outs|
  {
    if outs == [] then Placing([], s)
    else
      var end := start + outs[0].value;
      var k := Below(s, end);
      var p := Place(s[k..], outs[1..], end);
      Placing([s[..k]] + p.perOutput, p.rest)
  }

  function Flatten<T>(ss: seq<seq<T>>): seq<T> {
    if ss == [] then [] else ss[0] + Flatten(ss[1..])
  }

  lemma FlattenCons<T>(s: seq<T>, ss: seq<seq<T>>)
    ensures Flatten([s] + ss) == s + Flatten(ss)
  {
    assert ([s] + ss)[1..] == ss;
  }

  /** First sat of output `v`. */
  function Start(outs: seq<TxOut>, v: nat): nat
    requires v <= |outs|
  {
    if v == 0 then 0 else outs[0].value + Start(outs[1..], v - 1)
  }

  function Total(outs: seq<TxOut>): nat {
    Start(outs, |outs|)
  }

  /** Nothing is lost, duplicated or reordered. */
  lemma {:induction false} PlaceKeepsAll(s: seq<Flotsam>, outs: seq<TxOut>, start: nat)
    ensures var p := Place(s, outs, start); Flatten(p.perOutput) + p.rest == s
    decreases |outs|
  {
    if outs != [] {
      var end := start + outs[0].value;
      var k := Below(s, end);
      PlaceKeepsAll(s[k..], outs[1..], end);
      var p := Place(s[k..], outs[1..], end);
      FlattenCons(s[..k], p.perOutput);
      ConcatAssoc(s[..k], Flatten(p.perOutput), p.rest);
      SplitAt(s, k);
    }
  }

  lemma SortedTail(s: seq<Flotsam>, end: nat)
    requires Sorted(s)
    ensures var k := Below(s, end); Sorted(s[k..]) && forall f <- s[k..] :: end <= f.offset
  {
    var k := Below(s, end);
    forall i | 0 <= i < |s[k..]| ensures end <= s[k..][i].offset {
      assert s[k].offset <= s[k + i].offset;
    }
  }

  /** Each inscription lands strictly inside the output that holds its sat. */
  lemma {:induction false} PlaceInside(s: seq<Flotsam>, outs: seq<TxOut>, start: nat, v: nat)
    requires Sorted(s) && v < |outs|
    requires forall f <- s :: start <= f.offset
    ensures forall f <- Place(s, outs, start).perOutput[v] ::
      start + Start(outs, v) <= f.offset < start + Start(outs, v) + outs[v].value
    decreases |outs|
  {
    var end := start + outs[0].value;
    if v > 0 {
      SortedTail(s, end);
      PlaceInside(s[Below(s, end)..], outs[1..], end, v - 1);
    }
  }

  /** Those left over lie at or past the end of the last output. */
  lemma {:induction false} RestOutside(s: seq<Flotsam>, outs: seq<TxOut>, start: nat)
    requires Sorted(s)
    requires forall f <- s :: start <= f.offset
    ensures forall f <- Place(s, outs, start).rest :: start + Total(outs) <= f.offset
    decreases |outs|
  {
    if outs != [] {
      var end := start + outs[0].value;
      SortedTail(s, end);
      RestOutside(s[Below(s, end)..], outs[1..], end);
    }
  }

  /** The inscriptions at one offset, in their order. */
  function At(s: seq<Flotsam>, offset: nat): seq<Flotsam> {
    if s == [] then [] else (if s[0].offset == offset then [s[0]] else []) + At(s[1..], offset)
  }

  lemma AtCons(f: Flotsam, s: seq<Flotsam>, offset: nat)
    ensures At([f] + s, offset) == if f.offset == offset then [f] + At(s, offset) else At(s, offset)
  {
    assert ([f] + s)[1..] == s;
  }

  lemma {:induction false} InsertStable(f: Flotsam, s: seq<Flotsam>, offset: nat)
    ensures At(Insert(f, s), offset) == At([f] + s, offset)
  {
    AtCons(f, s, offset);
    if s != [] && s[0].offset < f.offset {
      InsertStable(f, s[1..], offset);
      AtCons(f, s[1..], offset);
      AtCons(s[0], Insert(f, s[1..]), offset);
      AtCons(s[0], s[1..], offset);
      assert s == [s[0]] + s[1..];
      hide At;
    }
  }

  lemma {:induction false} SortStable(s: seq<Flotsam>, offset: nat)
    ensures At(SortByOffset(s), offset) == At(s, offset)
  {
    if s != [] {
      SortStable(s[1..], offset);
      InsertStable(s[0], SortByOffset(s[1..]), offset);
      AtCons(s[0], SortByOffset(s[1..]), offset);
    }
  }

  /** Read output by output, inscriptions come in order of their sats, and those on one
      sat in the order in which they arrived. */
  lemma {:induction false} PlacesInOrder(floats: seq<Flotsam>, outs: seq<TxOut>, offset: nat)
    ensures var p := Place(SortByOffset(floats), outs, 0);
      Sorted(Flatten(p.perOutput) + p.rest) && At(Flatten(p.perOutput) + p.rest, offset) == At(floats, offset)
  {
    SortLaw(floats);
    SortStable(floats, offset);
    PlaceKeepsAll(SortByOffset(floats), outs, 0);
  }

  /** Inscriptions of an output with their offsets inside it. */
  function Local(fs: seq<Flotsam>, start: nat): (r: seq<Placed>)
    ensures |r| == |fs|
    ensures forall i :: 0 <= i < |fs| ==> r[i].id == fs[i].id
    ensures forall i :: 0 <= i < |fs| && start <= fs[i].offset ==> r[i].offset == fs[i].offset - start
  {
    seq(|fs|, i requires 0 <= i < |fs| => Placed(if start <= fs[i].offset then fs[i].offset - start else 0, fs[i].id))
  }

  function Locals(perOutput: seq<seq<Flotsam>>, outs: seq<TxOut>): (r: seq<seq<Placed>>)
    requires |perOutput| == |outs|
    ensures |r| == |outs|
    ensures forall v :: 0 <= v < |outs| ==> r[v] == Local(perOutput[v], Start(outs, v))
  {
    seq(|outs|, v requires 0 <= v < |outs| => Local(perOutput[v], Start(outs, v)))
  }

  /** The inscription at position `i` of output `v` sits at its own absolute sat,
      strictly inside the output. */
  ghost predicate Sits(p: Placing, outs: seq<TxOut>, v: nat, i: nat)
    requires v < |outs| == |p.perOutput| && i < |p.perOutput[v]|
  {
    var at := Locals(p.perOutput, outs)[v][i];
    && at.id == p.perOutput[v][i].id
    && at.offset < outs[v].value
    && Start(outs, v) + at.offset == p.perOutput[v][i].offset
  }

  /** The sat-offset law of a transaction: sorting and placing the floating
      inscriptions keeps every one of them exactly once, either inside one output
      at its own absolute sat, or left over at or past the total output value. */
  lemma PlacementLaw(floats: seq<Flotsam>, outs: seq<TxOut>)
    ensures var p := Place(SortByOffset(floats), outs, 0);
      && multiset(floats) == multiset(Flatten(p.perOutput)) + multiset(p.rest)
      && (forall v, i :: 0 <= v < |outs| && 0 <= i < |p.perOutput[v]| ==> Sits(p, outs, v, i))
      && (forall f <- p.rest :: Total(outs) <= f.offset)
  {
    var s := SortByOffset(floats);
    var p := Place(s, outs, 0);
    SortLaw(floats);
    PlaceKeepsAll(s, outs, 0);
    RestOutside(s, outs, 0);
    assert multiset(s) == multiset(Flatten(p.perOutput) + p.rest);
    forall v, i | 0 <= v < |outs| && 0 <= i < |p.perOutput[v]| ensures Sits(p, outs, v, i) {
      PlaceInside(s, outs, 0, v);
      assert p.perOutput[v][i] in p.perOutput[v];
    }
  }

  // ----- the program's loops -----

  /** Takes inscriptions while they lie before sat `end`. */
  method TakeBelow(floats: seq<Flotsam>, end: nat) returns (here: seq<Flotsam>, rest: seq<Flotsam>)
    ensures here == floats[..Below(floats, end)] && rest == floats[Below(floats, end)..]
  {
    var k := 0;
    while k < |floats| && floats[k].offset < end
      invariant k <= |floats|
      invariant Below(floats, end) == k + Below(floats[k..], end)
    {
      assert floats[k..][1..] == floats[k + 1..];
      k := k + 1;
    }
    here, rest := floats[..k], floats[k..];
  }

  /** Walks the outputs, handing each the inscriptions inside it. */
  method PlaceOutputs(floats: seq<Flotsam>, outs: seq<TxOut>) returns (p: Placing)
    ensures p == Place(floats, outs, 0)
  {
    var outputValue: nat := 0;
    p := Placing([], floats);
    for vout := 0 to |outs|
      invariant |p.perOutput| == vout
      invariant Place(floats, outs, 0) == Then(p, Place(p.rest, outs[vout..], outputValue))
    {
      var end := outputValue + outs[vout].value;
      var here, rest := TakeBelow(p.rest, end);
      assert outs[vout..][1..] == outs[vout + 1..];
      ghost var later := Place(rest, outs[vout + 1..], end).perOutput;
      assert p.perOutput + ([here] + later) == (p.perOutput + [here]) + later;
      p := Placing(p.perOutput + [here], rest);
      outputValue := end;
    }
    assert p.perOutput + [] == p.perOutput;
  }

  ghost function Then(p: Placing, q: Placing): Placing {
    Placing(p.perOutput + q.perOutput, q.rest)
  }
}
