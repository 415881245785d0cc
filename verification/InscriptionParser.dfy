/** Parsing an inscription out of the signature scripts of a chain of
    transactions. The program reparses the whole chain each time a transaction
    arrives; `Feed` is the streaming parser it amounts to. */
module InscriptionParser {
  import opened Prelude

  type Bytes = seq<byte>

  const PROTOCOL_ID: Bytes := [111, 114, 100] // "ord"

  datatype Parsed = NoInscription | Partial | Complete(contentType: Bytes, body: Bytes)

  // ----- pushes of one script -----

  /** Opcode at the head of a non-empty script: header size and data length.
      The two- and four-byte lengths read the opcode byte itself as their low
      byte, as the program does on purpose. */
  function Header(script: Bytes): Option<(nat, nat)>
    requires script != []
  {
    var op: int := script[0];
    if 1 <= op <= 75 then Some((1, op))
    else if op == 76 then
      if |script| < 2 then None else Some((2, script[1]))
    else if op == 77 then
      if |script| < 3 then None else Some((3, script[1] * 0x100 + op))
    else if op == 78 then
      if |script| < 5 then None
      else Some((5, script[3] * 0x100_0000 + script[2] * 0x1_0000 + script[1] * 0x100 + op))
    else None
  }

  /** First push of a script and what follows it; None where parsing stops. */
  function FirstPush(script: Bytes): (r: Option<(Bytes, Bytes)>)
    requires script != []
    ensures r.Some? ==> |r.value.1| < |script|
  {
    var op: int := script[0];
    if op == 0 then Some(([], script[1..]))
    else if 81 <= op <= 96 then Some(([op - 80], script[1..]))
    else
      match Header(script)
      case None => None
      case Some(h) =>
        if |script| < h.0 + h.1 then None
        else Some((script[h.0..h.0 + h.1], script[h.0 + h.1..]))
  }

  function Pushes(script: Bytes): Option<seq<Bytes>>
    decreases |script|
  {
    if script == [] then Some([])
    else
      match FirstPush(script)
      case None => None
      case Some(p) =>
        match Pushes(p.1)
        case None => None
        case Some(rest) => Some([p.0] + rest)
  }

  method DecodePushDatas(script: Bytes) returns (r: Option<seq<Bytes>>)
    ensures r == Pushes(script)
  {
    var bytes := script;
    var pushes: seq<Bytes> := [];
    assert Pushes(bytes).Some? ==> pushes + Pushes(bytes).value == Pushes(bytes).value;
    while bytes != []
      invariant Pushes(script)
        == if Pushes(bytes).None? then None else Some(pushes + Pushes(bytes).value)
      decreases |bytes|
    {
      var p := FirstPush(bytes);
      if p.None? {
        return None;
      }
      var rest := Pushes(p.value.1);
      assert rest.Some? ==> pushes + ([p.value.0] + rest.value) == (pushes + [p.value.0]) + rest.value;
      pushes, bytes := pushes + [p.value.0], p.value.1;
    }
    assert pushes + [] == pushes;
    return Some(pushes);
  }

  /** Little-endian value of at most eight bytes. */
  function Number(data: Bytes): Option<nat> {
    if |data| > 8 then None else Some(LittleEndian(data))
  }

  function LittleEndian(data: Bytes): nat {
    if data == [] then 0 else data[0] + 0x100 * LittleEndian(data[1..])
  }

  function Power256(n: nat): nat {
    if n == 0 then 1 else 0x100 * Power256(n - 1)
  }

  lemma {:induction false} LittleEndianAppend(data: Bytes, b: byte)
    ensures LittleEndian(data + [b]) == LittleEndian(data) + b * Power256(|data|)
  {
    if data != [] {
      assert (data + [b])[1..] == data[1..] + [b];
      LittleEndianAppend(data[1..], b);
    }
  }

  method PushDataToNumber(data: Bytes) returns (r: Option<nat>)
    ensures r == Number(data)
  {
    if |data| == 0 {
      return Some(0);
    }
    if |data| > 8 {
      return None;
    }
    var n: nat, scale: nat := 0, 1;
    for i := 0 to |data|
      invariant n == LittleEndian(data[..i])
      invariant scale == Power256(i)
    {
      LittleEndianAppend(data[..i], data[i]);
      assert data[..i + 1] == data[..i] + [data[i]];
      n, scale := n + data[i] * scale, 0x100 * scale;
    }
    assert data[..|data|] == data;
    return Some(n);
  }

  // ----- chunks -----

  /** The pushes start with the next chunk when `left` pieces are missing. */
  predicate HasNext(pushes: seq<Bytes>, left: nat) {
    |pushes| >= 2 && left > 0 && Number(pushes[0]) == Some(left - 1)
  }

  /** How many consecutive chunks the pushes start with. */
  function Run(pushes: seq<Bytes>, left: nat): (k: nat)
    ensures k <= left && 2 * k <= |pushes|
    decreases left
  {
    if HasNext(pushes, left) then 1 + Run(pushes[2..], left - 1) else 0
  }

  /** The data of the first `k` chunks, concatenated. */
  function Data(pushes: seq<Bytes>, k: nat): Bytes
    requires 2 * k <= |pushes|
  {
    if k == 0 then [] else pushes[1] + Data(pushes[2..], k - 1)
  }

  /** State between two transactions of a chain. */
  datatype Progress = Failed | Going(contentType: Bytes, left: nat, body: Bytes)

  function Absorb(contentType: Bytes, left: nat, body: Bytes, pushes: seq<Bytes>): Progress {
    var k := Run(pushes, left);
    Going(contentType, left - k, body + Data(pushes, k))
  }

  /** The first script must open the inscription. */
  function Open(script: Bytes): Progress {
    match Pushes(script)
    case None => Failed
    case Some(p) =>
      if |p| < 3 || p[0] != PROTOCOL_ID then Failed
      else
        match Number(p[1])
        case None => Failed
        case Some(n) => if n == 0 then Failed else Absorb(p[2], n, [], p[3..])
  }

  /** Every later script must start with the next chunk. */
  function Feed(state: Progress, script: Bytes): Progress {
    match state
    case Failed => Failed
    case Going(ct, left, body) =>
      if left == 0 then state
      else
        match Pushes(script)
        case None => Failed
        case Some(p) => if HasNext(p, left) then Absorb(ct, left, body, p) else Failed
  }

  function FeedAll(state: Progress, scripts: seq<Bytes>): Progress
    decreases |scripts|
  {
    if scripts == [] then state else FeedAll(Feed(state, scripts[0]), scripts[1..])
  }

  function Verdict(state: Progress): Parsed {
    match state
    case Failed => NoInscription
    case Going(ct, left, body) => if left == 0 then Complete(ct, body) else Partial
  }

  /** One-pass reading of a whole chain. */
  function Parse(scripts: seq<Bytes>): Parsed
    requires scripts != []
  {
    Verdict(FeedAll(Open(scripts[0]), scripts[1..]))
  }

  lemma {:induction false} FeedAllConcat(state: Progress, a: seq<Bytes>, b: seq<Bytes>)
    ensures FeedAll(state, a + b) == FeedAll(FeedAll(state, a), b)
    decreases |a|
  {
    if a == [] {
      assert a + b == b;
    } else {
      assert (a + b)[1..] == a[1..] + b;
      FeedAllConcat(Feed(state, a[0]), a[1..], b);
    }
  }

  lemma {:induction false} SettledStays(state: Progress, scripts: seq<Bytes>)
    requires Verdict(state) != Partial
    ensures FeedAll(state, scripts) == state
    decreases |scripts|
  {
    if scripts != [] {
      SettledStays(state, scripts[1..]);
    }
  }

  /** A verdict other than Partial is final: no further script changes it. */
  lemma VerdictIsStable(scripts: seq<Bytes>, more: seq<Bytes>)
    requires scripts != [] && Parse(scripts) != Partial
    ensures Parse(scripts + more) == Parse(scripts)
  {
    var state := FeedAll(Open(scripts[0]), scripts[1..]);
    assert (scripts + more)[1..] == scripts[1..] + more;
    FeedAllConcat(Open(scripts[0]), scripts[1..], more);
    SettledStays(state, more);
  }

  /** Reparsing a stored chain with one more transaction is one step of the
      streaming parser from where the stored chain left off. */
  lemma ReparseIsResume(stored: seq<Bytes>, script: Bytes)
    requires stored != []
    ensures Parse(stored + [script]) == Verdict(Feed(FeedAll(Open(stored[0]), stored[1..]), script))
  {
    assert (stored + [script])[1..] == stored[1..] + [script];
    FeedAllConcat(Open(stored[0]), stored[1..], [script]);
  }

  // ----- what a complete inscription is -----

  function Concat(chunks: seq<Bytes>): Bytes {
    if chunks == [] then [] else chunks[0] + Concat(chunks[1..])
  }

  lemma {:induction false} ConcatAppend(a: seq<Bytes>, b: seq<Bytes>)
    ensures Concat(a + b) == Concat(a) + Concat(b)
  {
    if a == [] {
      assert a + b == b;
    } else {
      assert (a + b)[1..] == a[1..] + b;
      ConcatAppend(a[1..], b);
    }
  }

  /** The pushes start with these chunks, numbered downward from `left - 1`. */
  ghost predicate Carries(pushes: seq<Bytes>, left: nat, chunks: seq<Bytes>)
    ensures Carries(pushes, left, chunks) ==> 2 * |chunks| <= |pushes| && |chunks| <= left
    decreases |chunks|
  {
    chunks == []
    || (HasNext(pushes, left) && pushes[1] == chunks[0] && Carries(pushes[2..], left - 1, chunks[1..]))
  }

  /** The chunks are laid out over `pushes` and then over `scripts`: each script
      carries the next chunks and, unless it is the last one needed, does not go
      on with a further one; whatever follows is ignored. */
  ghost predicate Lays(pushes: seq<Bytes>, scripts: seq<Bytes>, left: nat, chunks: seq<Bytes>)
    decreases |scripts|
  {
    |chunks| == left
    && (exists k ::
          && 0 <= k <= left && Carries(pushes, left, chunks[..k])
          && (k == left
              || (&& !HasNext(pushes[2 * k..], left - k)
                  && GoesOn(scripts, left - k)
                  && Lays(Pushes(scripts[0]).value, scripts[1..], left - k, chunks[k..]))))
  }

  function ChunksOf(pushes: seq<Bytes>, k: nat): (c: seq<Bytes>)
    requires 2 * k <= |pushes|
    ensures |c| == k
  {
    if k == 0 then [] else [pushes[1]] + ChunksOf(pushes[2..], k - 1)
  }

  lemma {:induction false} RunCarries(pushes: seq<Bytes>, left: nat)
    ensures var k := Run(pushes, left);
      Carries(pushes, left, ChunksOf(pushes, k)) && Data(pushes, k) == Concat(ChunksOf(pushes, k))
    decreases left
  {
    if HasNext(pushes, left) {
      var k := Run(pushes, left);
      RunCarries(pushes[2..], left - 1);
      assert ChunksOf(pushes, k)[1..] == ChunksOf(pushes[2..], k - 1);
    }
  }

  lemma {:induction false} RunStops(pushes: seq<Bytes>, left: nat)
    ensures var k := Run(pushes, left); !HasNext(pushes[2 * k..], left - k)
    decreases left
  {
    if HasNext(pushes, left) {
      RunStops(pushes[2..], left - 1);
      var k := Run(pushes[2..], left - 1);
      assert pushes[2..][2 * k..] == pushes[2 * (k + 1)..];
    }
  }

  /** Greedy reading finds the only possible split. */
  lemma {:induction false} CarriesIsRun(pushes: seq<Bytes>, left: nat, chunks: seq<Bytes>)
    requires Carries(pushes, left, chunks)
    requires |chunks| == left || !HasNext(pushes[2 * |chunks|..], left - |chunks|)
    ensures Run(pushes, left) == |chunks|
    ensures ChunksOf(pushes, |chunks|) == chunks
    decreases left
  {
    if chunks != [] {
      assert pushes[2..][2 * |chunks[1..]|..] == pushes[2 * |chunks|..];
      CarriesIsRun(pushes[2..], left - 1, chunks[1..]);
    } else {
      assert pushes[0..] == pushes;
    }
  }

  /** The next script goes on with the chain. */
  ghost predicate GoesOn(scripts: seq<Bytes>, left: nat) {
    scripts != [] && Pushes(scripts[0]).Some? && HasNext(Pushes(scripts[0]).value, left)
  }

  /** The scripts lay out the missing chunks, and `out` is the body with them. */
  ghost predicate Fills(pushes: seq<Bytes>, scripts: seq<Bytes>, left: nat, body: Bytes, out: Bytes) {
    exists chunks :: Lays(pushes, scripts, left, chunks) && out == body + Concat(chunks)
  }

  /** From any point, the chain completes with a body exactly when its scripts lay
      out the missing chunks and the body is their concatenation. */
  lemma {:induction false} CompleteIff(
    ct: Bytes, left: nat, body: Bytes, pushes: seq<Bytes>, scripts: seq<Bytes>, out: Bytes)
    requires left > 0
    ensures Verdict(FeedAll(Absorb(ct, left, body, pushes), scripts)) == Complete(ct, out)
       <==> Fills(pushes, scripts, left, body, out)
    decreases |scripts|
  {
    hide Lays, Run, Data, Concat, HasNext, Fills;
    var k := Run(pushes, left);
    var state := Absorb(ct, left, body, pushes);
    if k == left {
      CompleteHere(ct, left, body, pushes, scripts, out);
    } else if GoesOn(scripts, left - k) {
      CompleteIff(ct, left - k, body + Data(pushes, k), Pushes(scripts[0]).value, scripts[1..], out);
      CompleteLater(left, body, pushes, scripts, out);
    } else {
      NotFilled(pushes, scripts, left, body, out);
      if scripts != [] {
        assert Feed(state, scripts[0]) == Failed;
        SettledStays(Failed, scripts[1..]);
      }
    }
  }

  lemma NotFilled(pushes: seq<Bytes>, scripts: seq<Bytes>, left: nat, body: Bytes, out: Bytes)
    requires Run(pushes, left) < left && !GoesOn(scripts, left - Run(pushes, left))
    ensures !Fills(pushes, scripts, left, body, out)
  {
    forall chunks ensures !Lays(pushes, scripts, left, chunks) {
      LaysIff(pushes, scripts, left, chunks);
    }
  }

  lemma CompleteHere(ct: Bytes, left: nat, body: Bytes, pushes: seq<Bytes>, scripts: seq<Bytes>, out: Bytes)
    requires left > 0 && Run(pushes, left) == left
    ensures Verdict(FeedAll(Absorb(ct, left, body, pushes), scripts)) == Complete(ct, out)
       <==> Fills(pushes, scripts, left, body, out)
  {
    var head := ChunksOf(pushes, left);
    SettledStays(Absorb(ct, left, body, pushes), scripts);
    RunCarries(pushes, left);
    assert head[..left] == head;
    LaysIff(pushes, scripts, left, head);
    forall chunks | Lays(pushes, scripts, left, chunks) ensures chunks == head {
      LaysIff(pushes, scripts, left, chunks);
      assert chunks[..left] == chunks;
    }
  }

  lemma LaysLength(pushes: seq<Bytes>, scripts: seq<Bytes>, left: nat, chunks: seq<Bytes>)
    requires Lays(pushes, scripts, left, chunks)
    ensures |chunks| == left
  {
  }

  lemma CompleteLater(left: nat, body: Bytes, pushes: seq<Bytes>, scripts: seq<Bytes>, out: Bytes)
    requires var k := Run(pushes, left); k < left && GoesOn(scripts, left - k)
    ensures var k := Run(pushes, left);
      Fills(Pushes(scripts[0]).value, scripts[1..], left - k, body + Data(pushes, k), out)
      <==> Fills(pushes, scripts, left, body, out)
  {
    hide Lays, Data, Concat, Run, HasNext;
    var k := Run(pushes, left);
    var q := Pushes(scripts[0]).value;
    if Fills(q, scripts[1..], left - k, body + Data(pushes, k), out) {
      var rest :| Lays(q, scripts[1..], left - k, rest) && out == body + Data(pushes, k) + Concat(rest);
      Prepend(left, body, pushes, scripts, rest);
    }
    if Fills(pushes, scripts, left, body, out) {
      var chunks :| Lays(pushes, scripts, left, chunks) && out == body + Concat(chunks);
      Behead(left, body, pushes, scripts, chunks);
      LaysLength(pushes, scripts, left, chunks);
      var rest := chunks[k..];
      assert Lays(q, scripts[1..], left - k, rest) && out == body + Data(pushes, k) + Concat(rest);
    }
  }

  lemma Prepend(left: nat, body: Bytes, pushes: seq<Bytes>, scripts: seq<Bytes>, rest: seq<Bytes>)
    requires var k := Run(pushes, left); k < left && GoesOn(scripts, left - k)
    requires Lays(Pushes(scripts[0]).value, scripts[1..], left - Run(pushes, left), rest)
    ensures var k := Run(pushes, left);
      var chunks := ChunksOf(pushes, k) + rest;
      Lays(pushes, scripts, left, chunks) && body + Concat(chunks) == body + Data(pushes, k) + Concat(rest)
  {
    hide Lays, Run, Data, Concat, HasNext, Carries;
    var k := Run(pushes, left);
    var head := ChunksOf(pushes, k);
    LaysLength(Pushes(scripts[0]).value, scripts[1..], left - k, rest);
    assert (head + rest)[..k] == head && (head + rest)[k..] == rest;
    LaysIff(pushes, scripts, left, head + rest);
    RunCarries(pushes, left);
    ConcatAppend(head, rest);
  }

  lemma Behead(left: nat, body: Bytes, pushes: seq<Bytes>, scripts: seq<Bytes>, chunks: seq<Bytes>)
    requires var k := Run(pushes, left); k < left && GoesOn(scripts, left - k)
    requires Lays(pushes, scripts, left, chunks)
    ensures var k := Run(pushes, left);
      && Lays(Pushes(scripts[0]).value, scripts[1..], left - k, chunks[k..])
      && body + Concat(chunks) == body + Data(pushes, k) + Concat(chunks[k..])
  {
    hide Lays, Run, Data, Concat, HasNext, Carries;
    var k := Run(pushes, left);
    LaysLength(pushes, scripts, left, chunks);
    LaysIff(pushes, scripts, left, chunks);
    RunCarries(pushes, left);
    assert chunks == chunks[..k] + chunks[k..];
    ConcatAppend(chunks[..k], chunks[k..]);
  }

  /** The split after the first script is the greedy one. */
  lemma LaysIff(pushes: seq<Bytes>, scripts: seq<Bytes>, left: nat, chunks: seq<Bytes>)
    ensures var k := Run(pushes, left);
      Lays(pushes, scripts, left, chunks) <==>
        |chunks| == left && chunks[..k] == ChunksOf(pushes, k)
        && (k == left
            || (GoesOn(scripts, left - k) && Lays(Pushes(scripts[0]).value, scripts[1..], left - k, chunks[k..])))
  {
    if Lays(pushes, scripts, left, chunks) {
      LaysIsGreedy(pushes, scripts, left, chunks);
    } else {
      RunCarries(pushes, left);
      RunStops(pushes, left);
    }
  }

  lemma {:induction false} LaysIsGreedy(pushes: seq<Bytes>, scripts: seq<Bytes>, left: nat, chunks: seq<Bytes>)
    requires Lays(pushes, scripts, left, chunks)
    ensures var k := Run(pushes, left);
      && chunks[..k] == ChunksOf(pushes, k)
      && (k == left
          || (GoesOn(scripts, left - k) && Lays(Pushes(scripts[0]).value, scripts[1..], left - k, chunks[k..])))
  {
    var k :|
      && 0 <= k <= left && Carries(pushes, left, chunks[..k])
      && (k == left
          || (&& !HasNext(pushes[2 * k..], left - k)
              && GoesOn(scripts, left - k)
              && Lays(Pushes(scripts[0]).value, scripts[1..], left - k, chunks[k..])));
    CarriesIsRun(pushes, left, chunks[..k]);
  }

  /** An inscription is complete exactly when the first script announces a
      positive number of pieces and a content type, and the chain carries that
      many chunks, numbered downward to zero and split over the scripts anywhere;
      its body is their concatenation. */
  lemma ParseCompleteIff(scripts: seq<Bytes>, ct: Bytes, out: Bytes)
    requires scripts != []
    ensures Parse(scripts) == Complete(ct, out) <==>
      exists p, chunks ::
        && Pushes(scripts[0]) == Some(p) && |p| >= 3 && p[0] == PROTOCOL_ID && p[2] == ct
        && chunks != [] && Number(p[1]) == Some(|chunks|)
        && Lays(p[3..], scripts[1..], |chunks|, chunks) && out == Concat(chunks)
  {
    var q := Pushes(scripts[0]);
    if Open(scripts[0]) == Failed {
      SettledStays(Failed, scripts[1..]);
    } else {
      var p := q.value;
      var n := Number(p[1]).value;
      CompleteIff(p[2], n, [], p[3..], scripts[1..], out);
      FeedAllKeepsType(Absorb(p[2], n, [], p[3..]), scripts[1..]);
      FillsFromNothing(p[3..], scripts[1..], n, out);
      hide Lays, FeedAll, Concat, Fills, Absorb, Number, Pushes;
      if chunks :| Lays(p[3..], scripts[1..], n, chunks) && out == Concat(chunks) {
        LaysLength(p[3..], scripts[1..], n, chunks);
        assert Number(p[1]) == Some(|chunks|);
      }
    }
  }

  lemma FillsFromNothing(pushes: seq<Bytes>, scripts: seq<Bytes>, left: nat, out: Bytes)
    ensures Fills(pushes, scripts, left, [], out)
       <==> exists chunks :: Lays(pushes, scripts, left, chunks) && out == Concat(chunks)
  {
    hide Lays, Concat;
    if Fills(pushes, scripts, left, [], out) {
      var chunks :| Lays(pushes, scripts, left, chunks) && out == [] + Concat(chunks);
      assert [] + Concat(chunks) == Concat(chunks);
    }
    if chunks :| Lays(pushes, scripts, left, chunks) && out == Concat(chunks) {
      assert [] + Concat(chunks) == Concat(chunks);
    }
  }

  lemma {:induction false} FeedAllKeepsType(state: Progress, scripts: seq<Bytes>)
    requires state.Going?
    ensures var s := FeedAll(state, scripts); s.Going? ==> s.contentType == state.contentType
    decreases |scripts|
  {
    if scripts != [] {
      var next := Feed(state, scripts[0]);
      if next.Going? {
        FeedAllKeepsType(next, scripts[1..]);
      } else {
        SettledStays(next, scripts[1..]);
      }
    }
  }

  // ----- the program's loops -----

  method ParseScripts(sigScripts: seq<Bytes>) returns (r: Parsed)
    requires sigScripts != []
    ensures r == Parse(sigScripts)
  {
    var first := DecodePushDatas(sigScripts[0]);
    var begun := Open(sigScripts[0]);
    if first.None? || |first.value| < 3 || first.value[0] != PROTOCOL_ID {
      SettledStays(begun, sigScripts[1..]);
      return NoInscription;
    }
    var number := PushDataToNumber(first.value[1]);
    if number.None? || number.value == 0 {
      SettledStays(begun, sigScripts[1..]);
      return NoInscription;
    }
    var npieces, contentType, body := number.value, first.value[2], [];
    var pushDatas, scripts := first.value[3..], sigScripts[1..];
    assert Parse(sigScripts) == Verdict(FeedAll(Absorb(contentType, npieces, body, pushDatas), scripts));
    while true
      invariant Parse(sigScripts) == Verdict(FeedAll(Absorb(contentType, npieces, body, pushDatas), scripts))
      invariant npieces > 0
      decreases |scripts|
    {
      npieces, body, pushDatas := ReadChunks(contentType, npieces, body, pushDatas);
      if npieces == 0 {
        SettledStays(Absorb(contentType, npieces, body, pushDatas), scripts);
        return Complete(contentType, body);
      }
      if scripts == [] {
        return Partial;
      }
      var next := DecodePushDatas(scripts[0]);
      if next.None? || !HasNext(next.value, npieces) {
        SettledStays(Failed, scripts[1..]);
        return NoInscription;
      }
      pushDatas, scripts := next.value, scripts[1..];
    }
  }

  /** The inner loop: takes chunks while they come in order. */
  method ReadChunks(contentType: Bytes, npieces: nat, body: Bytes, pushDatas: seq<Bytes>)
    returns (left: nat, read: Bytes, rest: seq<Bytes>)
    ensures Going(contentType, left, read) == Absorb(contentType, npieces, body, pushDatas)
    ensures !HasNext(rest, left)
    ensures Absorb(contentType, left, read, rest) == Going(contentType, left, read)
  {
    left, read, rest := npieces, body, pushDatas;
    while left != 0
      invariant Absorb(contentType, left, read, rest) == Absorb(contentType, npieces, body, pushDatas)
      decreases left
    {
      if |rest| < 2 {
        break;
      }
      var next := PushDataToNumber(rest[0]);
      if next != Some(left - 1) {
        break;
      }
      assert read + Data(rest, Run(rest, left)) == (read + rest[1]) + Data(rest[2..], Run(rest[2..], left - 1));
      read, rest, left := read + rest[1], rest[2..], left - 1;
    }
    assert read + [] == read;
  }
}
