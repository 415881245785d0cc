/** An inscription written over a chain of signature scripts, in any forms of pushes and
    split anywhere between chunks, is read back by the parser. */
module InscribedScripts {
  import opened Prelude
  import opened InscriptionParser
  import opened PushForms

  // ----- numbers -----

  function NumberBytes(n: nat): Bytes {
    if n == 0 then [] else [n % 256] + NumberBytes(n / 256)
  }

  lemma {:induction false} NumberFits(n: nat, k: nat)
    requires n < Power256(k)
    ensures |NumberBytes(n)| <= k && LittleEndian(NumberBytes(n)) == n
    decreases n
  {
    if n > 0 {
      assert k > 0;
      assert n / 256 < Power256(k - 1);
      NumberFits(n / 256, k - 1);
      assert NumberBytes(n)[1..] == NumberBytes(n / 256);
    }
  }

  lemma NumberReads(n: nat)
    requires n < U64
    ensures Number(NumberBytes(n)) == Some(n)
  {
    assert Power256(2) == 0x1_0000 && Power256(4) == 0x1_0000_0000 && Power256(6) == 0x1_0000_0000_0000;
    assert Power256(8) == U64;
    NumberFits(n, 8);
  }

  // ----- chunks -----

  /** Chunks counted down to `left - |chunks|`, each behind its number. */
  function Pieces(chunks: seq<Bytes>, left: nat): seq<Bytes>
    requires |chunks| <= left
  {
    if chunks == [] then [] else [NumberBytes(left - 1), chunks[0]] + Pieces(chunks[1..], left - 1)
  }

  lemma StartsNext(chunks: seq<Bytes>, left: nat)
    requires chunks != [] && |chunks| <= left <= U64
    ensures HasNext(Pieces(chunks, left), left)
  {
    NumberReads(left - 1);
  }

  lemma {:induction false} PiecesRun(chunks: seq<Bytes>, left: nat)
    requires |chunks| <= left <= U64
    ensures 2 * |chunks| <= |Pieces(chunks, left)| && Run(Pieces(chunks, left), left) == |chunks|
    ensures Data(Pieces(chunks, left), |chunks|) == Concat(chunks)
  {
    hide HasNext;
    if chunks != [] {
      StartsNext(chunks, left);
      PiecesRun(chunks[1..], left - 1);
      assert Pieces(chunks, left)[2..] == Pieces(chunks[1..], left - 1);
    }
  }

  lemma PiecesAbsorbed(ct: Bytes, left: nat, body: Bytes, chunks: seq<Bytes>)
    requires |chunks| <= left <= U64
    ensures Absorb(ct, left, body, Pieces(chunks, left)) == Going(ct, left - |chunks|, body + Concat(chunks))
  {
    PiecesRun(chunks, left);
  }

  function Flat(groups: seq<seq<Bytes>>): seq<Bytes> {
    if groups == [] then [] else groups[0] + Flat(groups[1..])
  }

  /** The script is written, in some forms, as these pushes. */
  ghost predicate Reads(script: Bytes, pushes: seq<Bytes>) {
    exists ps :: Spells(ps, script, pushes)
  }

  /** Each script carries the next group of chunks, and no group is empty. */
  ghost predicate Continue(scripts: seq<Bytes>, groups: seq<seq<Bytes>>, left: nat)
    decreases |scripts|
  {
    && |scripts| == |groups|
    && (scripts != [] ==>
          && groups[0] != [] && |groups[0]| <= left
          && Reads(scripts[0], Pieces(groups[0], left))
          && Continue(scripts[1..], groups[1..], left - |groups[0]|))
  }

  lemma OneFeeds(ct: Bytes, left: nat, body: Bytes, script: Bytes, chunks: seq<Bytes>)
    requires chunks != [] && |chunks| <= left <= U64 && Reads(script, Pieces(chunks, left))
    ensures Feed(Going(ct, left, body), script) == Going(ct, left - |chunks|, body + Concat(chunks))
  {
    hide Absorb, HasNext, Pieces, Concat, Spells;
    ReadsIff(script, Pieces(chunks, left));
    StartsNext(chunks, left);
    PiecesAbsorbed(ct, left, body, chunks);
  }

  lemma {:induction false} ScriptsFeed(
    ct: Bytes, left: nat, body: Bytes, scripts: seq<Bytes>, groups: seq<seq<Bytes>>)
    requires Continue(scripts, groups, left) && left <= U64
    ensures |Flat(groups)| <= left
    ensures FeedAll(Going(ct, left, body), scripts) == Going(ct, left - |Flat(groups)|, body + Concat(Flat(groups)))
    decreases |scripts|
  {
    hide Reads, Feed, Pieces;
    if scripts == [] {
      assert body + [] == body;
    } else {
      var g := groups[0];
      OneFeeds(ct, left, body, scripts[0], g);
      ScriptsFeed(ct, left - |g|, body + Concat(g), scripts[1..], groups[1..]);
      hide Concat, Continue;
      ConcatAppend(g, Flat(groups[1..]));
      ConcatAssoc(body, Concat(g), Concat(Flat(groups[1..])));
    }
  }

  lemma {:induction false} ContinueCut(scripts: seq<Bytes>, groups: seq<seq<Bytes>>, left: nat, k: nat)
    requires Continue(scripts, groups, left) && k <= |scripts|
    ensures Continue(scripts[..k], groups[..k], left) && |Flat(groups[..k])| <= left
    ensures k < |scripts| ==> |Flat(groups[..k])| < left
    decreases |scripts|
  {
    hide Reads;
    if k > 0 {
      ContinueCut(scripts[1..], groups[1..], left - |groups[0]|, k - 1);
      assert scripts[..k][1..] == scripts[1..][..k - 1] && groups[..k][1..] == groups[1..][..k - 1];
    }
  }

  /** The first script: the protocol, the number of chunks, the content type, and the
      first group of chunks, if any. */
  ghost predicate Opens(script: Bytes, ct: Bytes, n: nat, first: seq<Bytes>) {
    |first| <= n && Reads(script, [[111, 114, 100], NumberBytes(n), ct] + Pieces(first, n))
  }

  lemma OpensGoing(script: Bytes, ct: Bytes, n: nat, first: seq<Bytes>)
    requires Opens(script, ct, n, first) && 0 < n < U64
    ensures Open(script) == Going(ct, n - |first|, Concat(first))
  {
    hide Absorb, Number, NumberBytes, Pieces, Spells;
    var pushes := [[111, 114, 100], NumberBytes(n), ct] + Pieces(first, n);
    ReadsIff(script, pushes);
    NumberReads(n);
    assert pushes[3..] == Pieces(first, n);
    PiecesAbsorbed(ct, n, [], first);
    assert [] + Concat(first) == Concat(first);
  }

  lemma SameLength(scripts: seq<Bytes>, groups: seq<seq<Bytes>>, left: nat)
    requires Continue(scripts, groups, left)
    ensures |scripts| == |groups|
  {
  }

  /** The whole chain of scripts reads as the inscription, and every shorter one as a
      part of it. */
  lemma {:induction false} InscribedReads(
    script: Bytes, ct: Bytes, first: seq<Bytes>, scripts: seq<Bytes>, groups: seq<seq<Bytes>>, k: nat)
    requires var n := |first| + |Flat(groups)|;
      0 < n < U64 && Opens(script, ct, n, first) && Continue(scripts, groups, n - |first|)
    requires k <= |scripts|
    ensures Parse([script] + scripts[..k])
         == if k == |scripts| then Complete(ct, Concat(first + Flat(groups))) else Partial
  {
    hide Opens, Continue, Concat, Flat;
    var n := |first| + |Flat(groups)|;
    OpensGoing(script, ct, n, first);
    SameLength(scripts, groups, n - |first|);
    ContinueCut(scripts, groups, n - |first|, k);
    ScriptsFeed(ct, n - |first|, Concat(first), scripts[..k], groups[..k]);
    assert ([script] + scripts[..k])[1..] == scripts[..k];
    if k == |scripts| {
      assert groups[..k] == groups;
      ConcatAppend(first, Flat(groups));
    }
  }
}
