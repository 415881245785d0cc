/** Every form in which a script can push data, and the lengths they hold. The parser
    reads exactly the scripts made of them. */
module PushForms {
  import opened Prelude
  import InscriptionParser

  type Bytes = InscriptionParser.Bytes

  /** A push as it is written: nothing, a number from 1 to 16, data with its length in
      the opcode, or data with a length of one, two or four bytes. The two longer
      forms take the opcode itself as the low byte of the length, and pass over the
      last byte of the header. */
  datatype Push =
    | Nothing
    | Small(n: byte)
    | Direct(data: Bytes)
    | OneByte(data: Bytes)
    | TwoBytes(b1: byte, passed: byte, data: Bytes)
    | FourBytes(b1: byte, b2: byte, b3: byte, passed: byte, data: Bytes)

  predicate WellSized(p: Push) {
    match p
    case Nothing => true
    case Small(n) => 1 <= n <= 16
    case Direct(data) => 1 <= |data| <= 75
    case OneByte(data) => |data| <= 255
    case TwoBytes(b1, _, data) => |data| == 256 * b1 + 77
    case FourBytes(b1, b2, b3, _, data) => |data| == 16777216 * b3 + 65536 * b2 + 256 * b1 + 78
  }

  function Written(p: Push): Bytes
    requires WellSized(p)
  {
    match p
    case Nothing => [0]
    case Small(n) => [n + 80]
    case Direct(data) => [|data|] + data
    case OneByte(data) => [76, |data|] + data
    case TwoBytes(b1, passed, data) => [77, b1, passed] + data
    case FourBytes(b1, b2, b3, passed, data) => [78, b1, b2, b3, passed] + data
  }

  function Pushed(p: Push): Bytes {
    match p
    case Nothing => []
    case Small(n) => [n]
    case _ => p.data
  }

  function WrittenAll(ps: seq<Push>): Bytes
    requires forall p <- ps :: WellSized(p)
  {
    if ps == [] then [] else Written(ps[0]) + WrittenAll(ps[1..])
  }

  function PushedAll(ps: seq<Push>): seq<Bytes> {
    if ps == [] then [] else [Pushed(ps[0])] + PushedAll(ps[1..])
  }

  lemma FirstReads(p: Push, rest: Bytes)
    requires WellSized(p)
    ensures var r := InscriptionParser.FirstPush(Written(p) + rest);
      r.Some? && r.value.0 == Pushed(p) && r.value.1 == rest
  {
  }

  lemma Parts(script: Bytes, head: Bytes, n: nat)
    requires |head| + n <= |script| && head == script[..|head|]
    ensures script == head + script[|head|..|head| + n] + script[|head| + n..]
  {
  }

  /** What a push with a length was written as. */
  lemma LongForm(script: Bytes) returns (p: Push)
    requires script != [] && InscriptionParser.Header(script).Some?
    requires InscriptionParser.Header(script).value.0 + InscriptionParser.Header(script).value.1 <= |script|
    ensures var (h, n) := InscriptionParser.Header(script).value;
      WellSized(p) && Pushed(p) == script[h..h + n] && Written(p) == script[..h] + Pushed(p)
  {
    var (h, n) := InscriptionParser.Header(script).value;
    var data := script[h..h + n];
    var op := script[0];
    if op <= 75 {
      p := Direct(data);
    } else if op == 76 {
      p := OneByte(data);
    } else if op == 77 {
      p := TwoBytes(script[1], script[2], data);
    } else {
      p := FourBytes(script[1], script[2], script[3], script[4], data);
    }
  }

  /** What the first push of a script was written as. */
  lemma FirstForm(script: Bytes) returns (p: Push)
    requires script != [] && InscriptionParser.FirstPush(script).Some?
    ensures var (data, rest) := InscriptionParser.FirstPush(script).value;
      WellSized(p) && Pushed(p) == data && script == Written(p) + rest
  {
    hide InscriptionParser.Header;
    var op := script[0];
    if op == 0 {
      p := Nothing;
    } else if 81 <= op <= 96 {
      p := Small(op - 80);
    } else {
      p := LongForm(script);
      hide WellSized, Pushed, Written;
      var (h, n) := InscriptionParser.Header(script).value;
      Parts(script, script[..h], n);
    }
  }

  /** Whatever is written in these forms reads back. */
  lemma {:induction false} WrittenReads(ps: seq<Push>)
    requires forall p <- ps :: WellSized(p)
    ensures InscriptionParser.Pushes(WrittenAll(ps)) == Some(PushedAll(ps))
  {
    hide WellSized, Written, InscriptionParser.FirstPush;
    if ps != [] {
      assert ps[0] in ps;
      FirstReads(ps[0], WrittenAll(ps[1..]));
      WrittenReads(ps[1..]);
      NotEmpty(ps[0]);
    }
  }

  lemma NotEmpty(p: Push)
    requires WellSized(p)
    ensures Written(p) != []
  {
  }

  /** The forms of a script that can be read. */
  lemma {:induction false} FormsOf(script: Bytes) returns (ps: seq<Push>)
    requires InscriptionParser.Pushes(script).Some?
    ensures (forall p <- ps :: WellSized(p)) && WrittenAll(ps) == script
    ensures PushedAll(ps) == InscriptionParser.Pushes(script).value
    decreases |script|
  {
    hide WellSized, Written, InscriptionParser.FirstPush;
    ps := [];
    if script != [] {
      var p := FirstForm(script);
      var more := FormsOf(InscriptionParser.FirstPush(script).value.1);
      ps := [p] + more;
      assert ps[1..] == more;
    }
  }

  ghost predicate Spells(ps: seq<Push>, script: Bytes, pushes: seq<Bytes>) {
    (forall p <- ps :: WellSized(p)) && WrittenAll(ps) == script && PushedAll(ps) == pushes
  }

  /** A script reads as these pushes if and only if it is written as them, in forms
      whose lengths hold; cut off headers or data and other opcodes never read. */
  lemma ReadsIff(script: Bytes, pushes: seq<Bytes>)
    ensures InscriptionParser.Pushes(script) == Some(pushes) <==> exists ps :: Spells(ps, script, pushes)
  {
    if InscriptionParser.Pushes(script) == Some(pushes) {
      var ps := FormsOf(script);
      assert Spells(ps, script, pushes);
    } else if ps :| Spells(ps, script, pushes) {
      WrittenReads(ps);
    }
  }
}
