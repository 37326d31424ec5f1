/** The self-check, and what it checks. */
module SelfCheck {

  // bpe_self_check encodes every token's bytes with the heap encoder and expects that token alone.
  // It runs on whatever tables there are: a lookup whose hash belongs to another token finds nothing.

  import opened Vocabulary
  import opened Chain
  import opened FnvHash
  import opened Tables
  import opened LowestFirst
  import opened HeapMerging
  import opened HeapEncoder
  import opened SameRuns
  import opened Ties

  // ---- The tokens that lookups find -------------------------------------------------------

  ghost predicate Seen(v: Vocab, slots: seq<Slot<nat>>, hash: seq<byte> -> nat, n: nat, x: nat)
    requires |slots| > 0
  {
    x < |v.bytes| && 2 <= |v.bytes[x]| <= n && Lookup(v.bytes, slots, hash, v.bytes[x]) == Some(x)
  }

  /** Bytes that no text of n bytes contains, different for every x. */
  function Absent(n: nat, x: nat): (b: seq<byte>)
    ensures |b| == n + 2 + x
  {
    seq(n + 2 + x, _ => 0)
  }

  function SingleBytes(): (s: seq<seq<byte>>)
    ensures |s| == 256
  {
    seq(256, (b: nat) requires b < 256 => [b])
  }

  /** The vocabulary that the heap encoder works with on texts of up to n bytes: the tokens that lookups find, and the
      single bytes, which it never looks up. */
  ghost function View(v: Vocab, slots: seq<Slot<nat>>, hash: seq<byte> -> nat, n: nat): (w: Vocab)
    requires |slots| > 0
    ensures |w.bytes| == |v.bytes| + 256
  {
    Vocab(seq(|v.bytes|, (x: nat) requires x < |v.bytes| =>
                if Seen(v, slots, hash, n, x) then v.bytes[x] else Absent(n, x)) + SingleBytes(), [], [])
  }

  lemma ViewAt(v: Vocab, slots: seq<Slot<nat>>, hash: seq<byte> -> nat, n: nat, x: nat)
    requires |slots| > 0 && x < |v.bytes| + 256
    ensures View(v, slots, hash, n).bytes[x] ==
            if x >= |v.bytes| then [x - |v.bytes|]
            else if Seen(v, slots, hash, n, x) then v.bytes[x] else Absent(n, x)
  {
    hide Seen;
  }

  lemma ViewSolid(v: Vocab, slots: seq<Slot<nat>>, hash: seq<byte> -> nat, n: nat)
    requires |slots| > 0
    ensures Solid(View(v, slots, hash, n))
  {
    var w := View(v, slots, hash, n);
    forall x | 0 <= x < |w.bytes| ensures w.bytes[x] != [] {
      ViewAt(v, slots, hash, n, x);
    }
    forall x, y | 0 <= x < |w.bytes| && 0 <= y < |w.bytes| && w.bytes[x] == w.bytes[y] ensures x == y {
      ViewAt(v, slots, hash, n, x);
      ViewAt(v, slots, hash, n, y);
    }
  }

  lemma ViewLooksUp(v: Vocab, slots: seq<Slot<nat>>, hash: seq<byte> -> nat, n: nat, b: seq<byte>)
    requires |slots| > 0 && 2 <= |b| <= n
    ensures Lookup(v.bytes, slots, hash, b) == TokenFor(View(v, slots, hash, n), b)
  {
    var w := View(v, slots, hash, n);
    ViewSolid(v, slots, hash, n);
    forall x | 0 <= x < |w.bytes| ensures w.bytes[x] == b <==> Lookup(v.bytes, slots, hash, b) == Some(x) {
      ViewAt(v, slots, hash, n, x);
    }
  }

  lemma ViewShows(v: Vocab, slots: seq<Slot<nat>>, hash: seq<byte> -> nat, n: nat)
    requires Searchable(v.bytes, slots)
    ensures |slots| > 0 && Shows(View(v, slots, hash, n), v, slots, hash, n)
  {
    var w := View(v, slots, hash, n);
    ViewSolid(v, slots, hash, n);
    forall b: seq<byte> | 2 <= |b| <= n ensures Lookup(v.bytes, slots, hash, b) == TokenFor(w, b) {
      ViewLooksUp(v, slots, hash, n, b);
    }
    forall r | 0 <= r < |w.bytes| && 2 <= |w.bytes[r]| <= n ensures r < |v.bytes| && v.bytes[r] == w.bytes[r] {
      ViewAt(v, slots, hash, n, r);
    }
  }

  lemma ViewCovers(v: Vocab, slots: seq<Slot<nat>>, hash: seq<byte> -> nat, n: nat, t: seq<byte>)
    requires |slots| > 0
    ensures Covers(View(v, slots, hash, n), t)
  {
    var w := View(v, slots, hash, n);
    forall i | 0 <= i < |t| ensures IsByteToken(w, t[i]) {
      ViewAt(v, slots, hash, n, |v.bytes| + t[i]);
    }
  }

  // ---- The check -----------------------------------------------------------------------------

  /** The token's bytes are one segment, and looking them up finds the token. */
  ghost predicate ChecksItself(v: Vocab, slots: seq<Slot<nat>>, hash: seq<byte> -> nat, byPosition: bool, x: nat)
    requires |slots| > 0 && x < |v.bytes|
  {
    var t := v.bytes[x];
    var w := View(v, slots, hash, |t|);
    && Covers(w, t) && |HeapEncoding(w, byPosition, t)| == 1
    && Lookup(v.bytes, slots, hash, t) == Some(x)
  }

  ghost predicate SelfChecked(v: Vocab, slots: seq<Slot<nat>>, hash: seq<byte> -> nat, byPosition: bool) {
    |slots| > 0 && forall x: nat :: x < |v.bytes| ==> ChecksItself(v, slots, hash, byPosition, x)
  }

  /** One token's turn of bpe_self_check. */
  method CheckToken(v: Vocab, slots: seq<Slot<nat>>, hash: seq<byte> -> nat, byPosition: bool, id: nat)
      returns (ok: bool)
    requires Searchable(v.bytes, slots) && id < |v.bytes|
    ensures |slots| > 0 && (ok <==> ChecksItself(v, slots, hash, byPosition, id))
  {
    hide *;
    ViewShows(v, slots, hash, |v.bytes[id]|);
    ghost var w := View(v, slots, hash, |v.bytes[id]|);
    ViewCovers(v, slots, hash, |v.bytes[id]|, v.bytes[id]);
    var enc := EncodeWithTables(v, slots, hash, v.bytes[id], byPosition, w);
    CheckedBy(v, slots, hash, byPosition, id, enc);
    ok := enc.Length == 1 && enc[0] == id;
  }

  lemma CheckedBy(v: Vocab, slots: seq<Slot<nat>>, hash: seq<byte> -> nat, byPosition: bool, x: nat, enc: array<nat>)
    requires Searchable(v.bytes, slots) && x < |v.bytes| && |slots| > 0
    requires var t := v.bytes[x];
             var w := View(v, slots, hash, |t|);
             && Solid(w) && Covers(w, t)
             && Filled(enc, v, slots, hash, w, HeapEncoding(w, byPosition, t), |HeapEncoding(w, byPosition, t)|)
    ensures ChecksItself(v, slots, hash, byPosition, x) <==> enc.Length == 1 && enc[0] == x
  {
    var t := v.bytes[x];
    var w := View(v, slots, hash, |t|);
    hide View, Covers, Solid, HeapEncoding, Lookup;
    HeapJoinsLowest(w, byPosition, t);
    var s := HeapEncoding(w, byPosition, t);
    if |s| == 1 {
      DecodeOne(w, s[0]);
      assert s == [s[0]];
      LookupInRange(v, slots, hash, t);
    }
  }

  lemma LookupInRange(v: Vocab, slots: seq<Slot<nat>>, hash: seq<byte> -> nat, b: seq<byte>)
    requires Searchable(v.bytes, slots) && |slots| > 0
    ensures Lookup(v.bytes, slots, hash, b).Some? ==> Lookup(v.bytes, slots, hash, b).value < |v.bytes| <= UINT32_MAX
  {
  }

  /** bpe_self_check */
  method Check(bpe: BytePairEncoding, byPosition: bool) returns (ok: bool)
    requires Searchable(bpe.vocab.bytes, bpe.hashToToken)
    ensures ok <==> SelfChecked(bpe.vocab, bpe.hashToToken, bpe.bytesHash, byPosition)
  {
    HitInRange(bpe.vocab.bytes, bpe.hashToToken, 0);
    hide Searchable, ChecksItself, Hit;
    for id := 0 to |bpe.vocab.bytes|
      invariant forall x: nat :: x < id ==> ChecksItself(bpe.vocab, bpe.hashToToken, bpe.bytesHash, byPosition, x)
    {
      var good := CheckToken(bpe.vocab, bpe.hashToToken, bpe.bytesHash, byPosition, id);
      if !good {
        return false;
      }
    }
    return true;
  }

  // ---- What a passed check tells -------------------------------------------------------------

  /** A passed check proves that the hash tells the tokens apart, and that there is none without bytes. */
  lemma PassedTellsApart(v: Vocab, slots: seq<Slot<nat>>, hash: seq<byte> -> nat, byPosition: bool)
    requires SelfChecked(v, slots, hash, byPosition)
    ensures HashInjective(v.bytes, hash) && DistinctBytes(v)
    ensures forall x :: 0 <= x < |v.bytes| ==> v.bytes[x] != []
  {
    hide HeapEncoding, View, Covers, Hit;
    forall x: nat | x < |v.bytes| ensures Lookup(v.bytes, slots, hash, v.bytes[x]) == Some(x) && v.bytes[x] != [] {
      assert ChecksItself(v, slots, hash, byPosition, x);
      NothingIsNothing(View(v, slots, hash, |v.bytes[x]|), byPosition, v.bytes[x]);
    }
  }

  lemma NothingIsNothing(w: Vocab, byPosition: bool, t: seq<byte>)
    requires Covers(w, t)
    ensures t == [] ==> HeapEncoding(w, byPosition, t) == []
  {
  }

  // ---- On a trained table -------------------------------------------------------------------

  /** Every token is found by its bytes. */
  ghost predicate AllFound(v: Vocab, slots: seq<Slot<nat>>, hash: seq<byte> -> nat) {
    |slots| > 0 && forall x: nat :: x < |v.bytes| ==> Lookup(v.bytes, slots, hash, v.bytes[x]) == Some(x)
  }

  /** With a table filled from the tokens that is so exactly if the hash tells them apart. */
  lemma AllFoundIff(v: Vocab, slots: seq<Slot<nat>>, hash: seq<byte> -> nat)
    requires DistinctBytes(v) && |slots| > 0
    requires HashInjective(v.bytes, hash) ==> Represents(slots, SelfHash, HashesTo(v.bytes, hash, |v.bytes|))
    ensures AllFound(v, slots, hash) <==> HashInjective(v.bytes, hash)
  {
    hide Represents, Hit, HashesTo;
    if HashInjective(v.bytes, hash) {
      forall x: nat | x < |v.bytes| ensures Lookup(v.bytes, slots, hash, v.bytes[x]) == Some(x) {
        LookupExact(v, slots, hash, v.bytes[x]);
        TokenForIs(v, v.bytes[x], x);
      }
    }
  }

  lemma FoundSame(v: Vocab, slots: seq<Slot<nat>>, hash: seq<byte> -> nat, n: nat)
    requires Solid(v) && AllFound(v, slots, hash)
    ensures SameLookups(v, View(v, slots, hash, n), n)
  {
    var w := View(v, slots, hash, n);
    ViewSolid(v, slots, hash, n);
    forall b: seq<byte> | 2 <= |b| <= n ensures TokenFor(v, b) == TokenFor(w, b) {
      ViewLooksUp(v, slots, hash, n, b);
      FoundToken(v, slots, hash, b);
    }
  }

  lemma FoundToken(v: Vocab, slots: seq<Slot<nat>>, hash: seq<byte> -> nat, b: seq<byte>)
    requires Solid(v) && AllFound(v, slots, hash)
    ensures Lookup(v.bytes, slots, hash, b) == TokenFor(v, b)
  {
    if Lookup(v.bytes, slots, hash, b).Some? {
      TokenForIs(v, b, Lookup(v.bytes, slots, hash, b).value);
    }
  }

  lemma TrainedFacts(v: Vocab, x: nat)
    requires WellFormed(v) && x < |v.bytes|
    ensures Solid(v) && Covers(v, v.bytes[x])
  {
    ShapeSolid(v);
    TokenCovered(v, x);
  }

  /** What a token's turn decides when every token is found. */
  lemma ChecksItselfIff(v: Vocab, slots: seq<Slot<nat>>, hash: seq<byte> -> nat, byPosition: bool, x: nat)
    requires WellFormed(v) && AllFound(v, slots, hash) && x < |v.bytes|
    ensures Covers(v, v.bytes[x])
    ensures ChecksItself(v, slots, hash, byPosition, x) <==> HeapEncoding(v, byPosition, v.bytes[x]) == [x]
  {
    var t := v.bytes[x];
    var w := View(v, slots, hash, |t|);
    TrainedFacts(v, x);
    hide WellFormed, View, Covers, Solid, HeapEncoding, Lookup;
    FoundSame(v, slots, hash, |t|);
    ViewCovers(v, slots, hash, |t|, t);
    AlikeEncodings(v, w, byPosition, t);
    HeapJoinsLowest(v, byPosition, t);
    OneSegment(v, HeapEncoding(v, byPosition, t), x);
  }

  lemma OneSegment(v: Vocab, s: seq<nat>, x: nat)
    requires Solid(v) && Tokens(v, s) && x < |v.bytes| && Decode(v, s) == v.bytes[x]
    ensures |s| == 1 <==> s == [x]
  {
    if |s| == 1 {
      DecodeOne(v, s[0]);
      assert s == [s[0]];
    }
  }

  /** On a trained table: the check passes exactly if every token is found and encodes to itself. */
  lemma SelfCheckedIff(v: Vocab, slots: seq<Slot<nat>>, hash: seq<byte> -> nat, byPosition: bool)
    requires WellFormed(v)
    ensures forall x: nat :: x < |v.bytes| ==> Covers(v, v.bytes[x])
    ensures SelfChecked(v, slots, hash, byPosition) <==>
            && AllFound(v, slots, hash)
            && forall x: nat :: x < |v.bytes| ==> HeapEncoding(v, byPosition, v.bytes[x]) == [x]
  {
    hide WellFormed, HeapEncoding, Lookup, Covers, View;
    if SelfChecked(v, slots, hash, byPosition) {
      forall x: nat | x < |v.bytes| ensures Lookup(v.bytes, slots, hash, v.bytes[x]) == Some(x) {
        assert ChecksItself(v, slots, hash, byPosition, x);
      }
    }
    forall x: nat | x < |v.bytes|
      ensures Covers(v, v.bytes[x])
      ensures AllFound(v, slots, hash) ==>
                (ChecksItself(v, slots, hash, byPosition, x) <==> HeapEncoding(v, byPosition, v.bytes[x]) == [x])
    {
      TrainedFacts(v, x);
      if AllFound(v, slots, hash) { ChecksItselfIff(v, slots, hash, byPosition, x); }
    }
  }

  /** Ordered by position, or without tokens that hold three copies of a doubled token in a row, the check passes on a
      trained table exactly if every token is found. */
  lemma TrainedPassesIff(v: Vocab, slots: seq<Slot<nat>>, hash: seq<byte> -> nat, byPosition: bool)
    requires WellFormed(v)
    requires byPosition || forall x: nat :: x < |v.bytes| ==> !HasTriple(v, v.bytes[x])
    ensures SelfChecked(v, slots, hash, byPosition) <==> AllFound(v, slots, hash)
  {
    SelfCheckedIff(v, slots, hash, byPosition);
    hide WellFormed, HeapEncoding, AllFound, SelfChecked, Covers, HasTriple;
    forall x: nat | x < |v.bytes| ensures Covers(v, v.bytes[x]) && HeapEncoding(v, byPosition, v.bytes[x]) == [x] {
      TrainedFacts(v, x);
      HeapIsBpe(v, byPosition, v.bytes[x]);
      TokenEncodesToItself(v, x);
    }
  }

  /** The check reads the token bytes and the bytes map, and no rules. */
  lemma OnlyBytesMatter(v: Vocab, u: Vocab, slots: seq<Slot<nat>>, hash: seq<byte> -> nat, byPosition: bool)
    requires v.bytes == u.bytes
    ensures SelfChecked(v, slots, hash, byPosition) <==> SelfChecked(u, slots, hash, byPosition)
  {
    hide HeapEncoding, Lookup, Covers, View;
    forall x: nat | |slots| > 0 && x < |v.bytes|
      ensures ChecksItself(v, slots, hash, byPosition, x) <==> ChecksItself(u, slots, hash, byPosition, x)
    {
      SameView(v, u, slots, hash, |v.bytes[x]|);
    }
  }

  lemma SameView(v: Vocab, u: Vocab, slots: seq<Slot<nat>>, hash: seq<byte> -> nat, n: nat)
    requires v.bytes == u.bytes && |slots| > 0
    ensures View(v, slots, hash, n) == View(u, slots, hash, n)
  {
  }

  /** What the check is for: whatever rules were found again for the bytes of a trained table, and with a bytes map
      filled from them, it passes exactly if the hash tells the tokens apart. */
  lemma CheckDecidesHash(bpe: BytePairEncoding, t: Vocab, byPosition: bool)
    requires WellFormed(t) && bpe.vocab.bytes == t.bytes && |bpe.hashToToken| > 0
    requires HashInjective(t.bytes, bpe.bytesHash) ==>
               Represents(bpe.hashToToken, SelfHash, HashesTo(t.bytes, bpe.bytesHash, |t.bytes|))
    requires byPosition || forall x: nat :: x < |t.bytes| ==> !HasTriple(t, t.bytes[x])
    ensures SelfChecked(bpe.vocab, bpe.hashToToken, bpe.bytesHash, byPosition) <==>
            HashInjective(t.bytes, bpe.bytesHash)
  {
    hide HasTriple, Represents, HashesTo, SelfChecked, AllFound;
    OnlyBytesMatter(bpe.vocab, t, bpe.hashToToken, bpe.bytesHash, byPosition);
    TrainedPassesIff(t, bpe.hashToToken, bpe.bytesHash, byPosition);
    AllFoundIff(t, bpe.hashToToken, bpe.bytesHash);
  }

  // ---- In C's order ----------------------------------------------------------------------------

  /** Ordered by identifier alone the check rejects every trained table that has a byte, its double and its fivefold
      but not its triple, whatever the hash. */
  lemma FivefoldRejected(v: Vocab, slots: seq<Slot<nat>>, hash: seq<byte> -> nat, b: byte, x: nat, r: nat, y: nat)
    requires WellFormed(v) && Doubles(v, b, x, r) && y < |v.bytes| && v.bytes[y] == Copies(b, 5)
    ensures !SelfChecked(v, slots, hash, false)
  {
    SelfCheckedIff(v, slots, hash, false);
    hide WellFormed, HeapEncoding, SelfChecked, AllFound, Doubles, Covers;
    TieGoesWrong(v, b, x, r);
    assert [r, x, r] != [y];
  }

  /** The tokens a, aa, aaaa and aaaaa. */
  const FIVEFOLD := Vocab([[0], [0, 0], [0, 0, 0, 0], [0, 0, 0, 0, 0]], [0, 0, 1, 2], [0, 0, 1, 0])

  lemma FivefoldTrained()
    ensures WellFormed(FIVEFOLD) && Doubles(FIVEFOLD, 0, 0, 1) && FIVEFOLD.bytes[3] == Copies(0, 5)
  {
  }
}
