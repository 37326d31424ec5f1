/** The finished encoder tables. */
module Tables {
  import opened Vocabulary
  import opened FnvHash
  import opened PairCheck
  import opened AhoCorasick
  import opened Automata

  datatype BytePairEncoding = BytePairEncoding(
    vocab: Vocab,
    pairLookup: seq<Slot<Pair>>, pairHash: Pair -> nat,
    hashToToken: seq<Slot<nat>>, bytesHash: seq<byte> -> nat,
    nextPrefix: seq<Option<nat>>,
    longest: Automaton, overlapping: Automaton, overlappingRev: Automaton)

  /** Hash values of tokens stand for themselves in the bytes map. */
  function SelfHash(h: nat): nat { h }

  /** The bytes map's contents after n insertions. */
  ghost function HashesTo(words: seq<seq<byte>>, hash: seq<byte> -> nat, n: nat): map<nat, nat>
    requires n <= |words|
  {
    if n == 0 then map[] else HashesTo(words, hash, n - 1)[hash(words[n - 1]) := n - 1]
  }

  ghost predicate HashInjective(words: seq<seq<byte>>, hash: seq<byte> -> nat) {
    forall x, y :: 0 <= x < |words| && 0 <= y < |words| && hash(words[x]) == hash(words[y]) ==> x == y
  }

  lemma {:induction false} HashesToExact(words: seq<seq<byte>>, hash: seq<byte> -> nat, n: nat)
    requires n <= |words| && HashInjective(words, hash)
    ensures forall h :: h in HashesTo(words, hash, n) ==>
              HashesTo(words, hash, n)[h] < n && h == hash(words[HashesTo(words, hash, n)[h]])
    ensures forall x :: 0 <= x < n ==>
              hash(words[x]) in HashesTo(words, hash, n) && HashesTo(words, hash, n)[hash(words[x])] == x
  {
    if n > 0 {
      HashesToExact(words, hash, n - 1);
    }
  }

  /** y is the longest token that is a proper prefix of x, or there is none. */
  ghost predicate IsNextPrefix(v: Vocab, x: nat, r: Option<nat>)
    requires x < |v.bytes|
  {
    match r
    case None => forall y :: 0 <= y < |v.bytes| ==> !(v.bytes[y] < v.bytes[x])
    case Some(y) =>
      && y < |v.bytes| && v.bytes[y] < v.bytes[x]
      && forall z :: 0 <= z < |v.bytes| && v.bytes[z] < v.bytes[x] ==> |v.bytes[z]| <= |v.bytes[y]|
  }

  ghost predicate PrefixesOk(v: Vocab, nextPrefix: seq<Option<nat>>) {
    |nextPrefix| == |v.bytes| && forall x :: 0 <= x < |v.bytes| ==> IsNextPrefix(v, x, nextPrefix[x])
  }

  ghost predicate AutomataOk(bpe: BytePairEncoding) {
    var words := bpe.vocab.bytes;
    && Recognizes(bpe.longest, TokenDict(words, |words|, false))
    && Recognizes(bpe.overlapping, TokenDict(words, |words|, false))
    && Recognizes(bpe.overlappingRev, TokenDict(words, |words|, true))
  }

  ghost predicate MapsOk(bpe: BytePairEncoding) {
    var words := bpe.vocab.bytes;
    && Represents(bpe.pairLookup, bpe.pairHash, PairsTo(bpe.vocab, |words|))
    && Represents(bpe.hashToToken, SelfHash, HashesTo(words, bpe.bytesHash, |words|))
    && HashInjective(words, bpe.bytesHash)
  }

  /** The tables belong to one well-formed vocabulary. */
  ghost predicate Ready(bpe: BytePairEncoding) {
    && WellFormed(bpe.vocab)
    && MapsOk(bpe)
    && PrefixesOk(bpe.vocab, bpe.nextPrefix)
    && AutomataOk(bpe)
  }

  // ---- Lookups -----------------------------------------------------------------------

  /** bpe_is_valid_token_pair on the finished tables. */
  method CheckPair(bpe: BytePairEncoding, token1: nat, token2: nat) returns (ok: bool)
    requires Ready(bpe) && token1 < |bpe.vocab.bytes| && token2 < |bpe.vocab.bytes|
    ensures ok <==> ValidPair(bpe.vocab, token1, token2)
  {
    InstalledPairs(bpe.vocab, |bpe.vocab.bytes|);
    ok := IsValidTokenPair(bpe.vocab, bpe.pairLookup, bpe.pairHash, token1, token2,
                           PairsTo(bpe.vocab, |bpe.vocab.bytes|));
  }

  /** The token with exactly these bytes. */
  ghost predicate IsTokenFor(v: Vocab, b: seq<byte>, r: Option<nat>) {
    match r
    case None => forall x :: 0 <= x < |v.bytes| ==> v.bytes[x] != b
    case Some(x) => x < |v.bytes| && v.bytes[x] == b
  }

  /** A search in the bytes map ends, and meets only identifiers of tokens. */
  ghost predicate Searchable(words: seq<seq<byte>>, slots: seq<Slot<nat>>) {
    && |words| <= UINT32_MAX && HasEmpty(slots)
    && forall i :: 0 <= i < |slots| && Full(slots[i]) ==> slots[i].value < |words|
  }

  /** The token that the stored hash finds, if its bytes are the ones looked for. */
  ghost function Lookup(words: seq<seq<byte>>, slots: seq<Slot<nat>>, hash: seq<byte> -> nat, b: seq<byte>): Option<nat>
    requires |slots| > 0
  {
    var id := Hit(slots, SelfHash, hash(b));
    if id < |words| && words[id] == b then Some(id) else None
  }

  lemma HitInRange(words: seq<seq<byte>>, slots: seq<Slot<nat>>, h: nat)
    requires Searchable(words, slots)
    ensures |slots| > 0 && (Hit(slots, SelfHash, h) == UINT32_MAX || Hit(slots, SelfHash, h) < |words|)
  {
  }

  /** So it is when the map holds the tokens' hashes. */
  lemma MapSearchable(words: seq<seq<byte>>, slots: seq<Slot<nat>>, hash: seq<byte> -> nat)
    requires HashInjective(words, hash) && |words| <= UINT32_MAX
    requires Represents(slots, SelfHash, HashesTo(words, hash, |words|))
    ensures Searchable(words, slots)
  {
    HashesToExact(words, hash, |words|);
  }

  /** bpe_find_token_by_bytes: the stored hash finds a candidate, the bytes decide. */
  method FindTokenByBytes(v: Vocab, slots: seq<Slot<nat>>, hash: seq<byte> -> nat, b: seq<byte>)
      returns (r: Option<nat>)
    requires Searchable(v.bytes, slots)
    ensures |slots| > 0 && r == Lookup(v.bytes, slots, hash, b)
    ensures HashInjective(v.bytes, hash) && Represents(slots, SelfHash, HashesTo(v.bytes, hash, |v.bytes|)) ==>
              IsTokenFor(v, b, r)
  {
    hide Represents, Reachable, FullRun, Hit, HashesTo;
    HitInRange(v.bytes, slots, hash(b));
    if HashInjective(v.bytes, hash) { HashesToExact(v.bytes, hash, |v.bytes|); }
    var id := Get(slots, SelfHash, hash(b), HashesTo(v.bytes, hash, |v.bytes|));
    if id == UINT32_MAX {
      return None;
    }
    if v.bytes[id] != b {
      return None;
    }
    return Some(id);
  }

  /** tok is the longest token the text starts with. */
  ghost predicate IsLongestPrefix(v: Vocab, text: seq<byte>, tok: nat) {
    && tok < |v.bytes| && v.bytes[tok] <= text
    && forall y :: 0 <= y < |v.bytes| && v.bytes[y] <= text ==> |v.bytes[y]| <= |v.bytes[tok]|
  }

  /** bpe_next_match.  When the first byte is itself a token, the leftmost match starts at
      the text's start, so the search returns the longest token there. */
  method NextMatch(v: Vocab, longest: Automaton, text: seq<byte>) returns (r: Option<nat>)
    requires Shape(v) && DistinctBytes(v) && Recognizes(longest, TokenDict(v.bytes, |v.bytes|, false))
    requires text != [] ==> IsByteToken(v, text[0])
    ensures text == [] <==> r == None
    ensures r.Some? ==> IsLongestPrefix(v, text, r.value)
  {
    ghost var d := TokenDict(v.bytes, |v.bytes|, false);
    TokenDictExact(v.bytes, |v.bytes|, false);
    var best, links := LeftmostLongest(longest, d, text);
    hide Recognizes;
    if text != [] {
      FirstByteMatches(v, d, text);
      LeftmostIsPrefix(v, d, text, best);
    }
    match best
    case None => return None;
    case Some(f) => return Some(f.token);
  }

  lemma FirstByteMatches(v: Vocab, d: Dict, text: seq<byte>)
    requires DictExact(v.bytes, |v.bytes|, false, d) && text != [] && IsByteToken(v, text[0])
    ensures IsMatch(d, text, 0, 1)
  {
    var x :| 0 <= x < |v.bytes| && v.bytes[x] == [text[0]];
    assert Word(v.bytes, x, false) in d;
    assert text[0..1] == [text[0]];
  }

  lemma LeftmostIsPrefix(v: Vocab, d: Dict, text: seq<byte>, best: Option<Found>)
    requires DictExact(v.bytes, |v.bytes|, false, d) && text != [] && IsMatch(d, text, 0, 1)
    requires IsBest(d, text, |text|, Spot(best)) && FoundIn(d, text, best)
    ensures best.Some? && IsLongestPrefix(v, text, best.value.token)
  {
    var f := best.value;
    assert f.start == 0;
    var tok := f.token;
    assert text[0..f.end] == Word(v.bytes, tok, false);
    forall y | 0 <= y < |v.bytes| && v.bytes[y] <= text ensures |v.bytes[y]| <= |v.bytes[tok]| {
      assert Word(v.bytes, y, false) in d;
      assert text[0..|v.bytes[y]|] == v.bytes[y];
      if v.bytes[y] != [] {
        assert IsMatch(d, text, 0, |v.bytes[y]|);
      }
    }
  }

  // ---- Tokens at the end of a text -----------------------------------------------------

  /** The chain of matches at the end of a text is exactly the tokens it ends with. */
  lemma TokensEndingAt(v: Vocab, t: seq<byte>)
    requires Shape(v) && DistinctBytes(v)
    ensures forall m :: m in SuffixMatches(TokenDict(v.bytes, |v.bytes|, false), t) <==>
              m.token < |v.bytes| && m.length == |v.bytes[m.token]| && IsSuffix(v.bytes[m.token], t)
  {
    var d := TokenDict(v.bytes, |v.bytes|, false);
    TokenDictExact(v.bytes, |v.bytes|, false);
    SuffixMatchesExact(d, t);
    forall m ensures m in SuffixMatches(d, t) <==>
      m.token < |v.bytes| && m.length == |v.bytes[m.token]| && IsSuffix(v.bytes[m.token], t)
    {
      if m.token < |v.bytes| {
        assert ShapeAt(v, m.token);
        assert Word(v.bytes, m.token, false) == v.bytes[m.token];
      }
    }
  }

  // ---- All tokens at the start of a text --------------------------------------------------

  /** The tokens met by following next_prefix_match from x on. */
  ghost function PrefixWalk(v: Vocab, next: seq<Option<nat>>, x: nat): seq<nat>
    requires PrefixesOk(v, next) && x < |v.bytes|
    decreases |v.bytes[x]|
  {
    assert IsNextPrefix(v, x, next[x]);
    match next[x]
    case None => [x]
    case Some(y) => [x] + PrefixWalk(v, next, y)
  }

  ghost predicate Shortening(v: Vocab, s: seq<nat>) {
    forall i, j :: 0 <= i < j < |s| ==> s[j] < |v.bytes| && s[i] < |v.bytes| && |v.bytes[s[j]]| < |v.bytes[s[i]]|
  }

  /** y is x or a shorter token that the text starts with. */
  ghost predicate PrefixUpTo(v: Vocab, text: seq<byte>, x: nat, y: nat)
    requires x < |v.bytes|
  {
    y < |v.bytes| && v.bytes[y] <= text && |v.bytes[y]| <= |v.bytes[x]|
  }

  lemma {:induction false} WalkFrom(v: Vocab, next: seq<Option<nat>>, text: seq<byte>, x: nat)
    requires DistinctBytes(v) && PrefixesOk(v, next) && x < |v.bytes| && v.bytes[x] <= text
    ensures Shortening(v, PrefixWalk(v, next, x))
    ensures forall y: nat :: y in PrefixWalk(v, next, x) <==> PrefixUpTo(v, text, x, y)
    decreases |v.bytes[x]|
  {
    assert IsNextPrefix(v, x, next[x]);
    forall y: nat | PrefixUpTo(v, text, x, y) && y != x ensures v.bytes[y] < v.bytes[x] {
      ShorterPrefix(v, text, x, y);
    }
    match next[x]
    case None =>
    case Some(z) =>
      WalkFrom(v, next, text, z);
      WalkStep(v, PrefixWalk(v, next, z), text, x, z);
  }

  lemma ShorteningCons(v: Vocab, x: nat, rest: seq<nat>)
    requires x < |v.bytes| && Shortening(v, rest)
    requires forall j :: 0 <= j < |rest| ==> rest[j] < |v.bytes| && |v.bytes[rest[j]]| < |v.bytes[x]|
    ensures Shortening(v, [x] + rest)
  {
  }

  lemma WalkStep(v: Vocab, rest: seq<nat>, text: seq<byte>, x: nat, z: nat)
    requires x < |v.bytes| && z < |v.bytes| && v.bytes[x] <= text && v.bytes[z] < v.bytes[x] && Shortening(v, rest)
    requires forall y: nat :: PrefixUpTo(v, text, x, y) && y != x ==> |v.bytes[y]| <= |v.bytes[z]|
    requires forall y: nat :: y in rest <==> PrefixUpTo(v, text, z, y)
    ensures Shortening(v, [x] + rest)
    ensures forall y: nat :: y in [x] + rest <==> PrefixUpTo(v, text, x, y)
  {
    assert forall j :: 0 <= j < |rest| ==> rest[j] in rest;
    ShorteningCons(v, x, rest);
    forall y: nat ensures y in [x] + rest <==> PrefixUpTo(v, text, x, y) {
      assert y in [x] + rest <==> y == x || y in rest;
    }
  }

  lemma ShorterPrefix(v: Vocab, text: seq<byte>, x: nat, y: nat)
    requires DistinctBytes(v) && x < |v.bytes| && v.bytes[x] <= text && PrefixUpTo(v, text, x, y) && y != x
    ensures v.bytes[y] < v.bytes[x]
  {
  }

  /** Following next_prefix_match from the longest token at the start of a text lists exactly
      the tokens the text starts with, each shorter than the one before. */
  lemma WalkListsAllPrefixes(v: Vocab, next: seq<Option<nat>>, text: seq<byte>, tok: nat)
    requires DistinctBytes(v) && PrefixesOk(v, next) && IsLongestPrefix(v, text, tok)
    ensures Shortening(v, PrefixWalk(v, next, tok))
    ensures forall y: nat :: y in PrefixWalk(v, next, tok) <==> StartsWithToken(v, text, y)
  {
    WalkFrom(v, next, text, tok);
    hide PrefixesOk, DistinctBytes, PrefixWalk;
  }

  ghost predicate StartsWithToken(v: Vocab, text: seq<byte>, y: nat) {
    y < |v.bytes| && v.bytes[y] <= text
  }
}
