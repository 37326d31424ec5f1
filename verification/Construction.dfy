/** Building the encoder tables from a dictionary alone: the merge rules are found again. */
module Construction {
  import opened Vocabulary
  import opened FnvHash
  import opened PairCheck
  import opened AhoCorasick
  import opened Automata
  import opened Tables
  import opened Training

  /** What the dictionary must satisfy: distinct non-empty tokens, each byte of a token a
      token itself, and a hash that tells tokens apart. */
  ghost predicate GoodDictionary(words: seq<seq<byte>>, hash: seq<byte> -> nat) {
    && DistinctTokens(words) && |words| < UINT32_MAX
    && (forall i :: 0 <= i < |words| ==> FirstByteKnown(words, i))
    && HashInjective(words, hash)
  }

  ghost predicate FirstByteKnown(words: seq<seq<byte>>, i: nat)
    requires i < |words|
  {
    words[i] != [] && exists x :: 0 <= x < |words| && words[x] == [words[i][0]]
  }

  // ---- The construction invariant ---------------------------------------------------------

  /** r is primitive, or the concatenation of two smaller tokens that no earlier rule merges across. */
  ghost predicate SplitSound(v: Vocab, r: nat)
    requires Shape(v) && r < |v.bytes|
  {
    Primitive(v, r)
    || (v.bytes[r] == v.bytes[v.left[r]] + v.bytes[v.right[r]] && NoCrossBelow(v, v.left[r], v.right[r], r))
  }

  /** The rules below id have been looked for; the others are still primitive. */
  ghost predicate SoundTo(v: Vocab, id: nat) {
    && Shape(v) && DistinctBytes(v) && id <= |v.bytes|
    && (forall r :: 0 <= r < id ==> SplitSound(v, r))
    && (forall r :: id <= r < |v.bytes| ==> v.left[r] == r == v.right[r])
  }

  lemma SoundConcatenates(v: Vocab, id: nat)
    requires SoundTo(v, id)
    ensures Concatenates(v) && forall r: nat :: id <= r ==> Primitive(v, r)
  {
    forall r: nat | !Primitive(v, r) ensures r < |v.bytes| && v.bytes[r] == Concat(v, v.left[r], v.right[r]) {
      assert SplitSound(v, r);
    }
  }

  /** While only rules below id exist, a pair is valid exactly if none of them crosses it. */
  lemma ValidBelow(v: Vocab, id: nat, a: nat, b: nat)
    requires SoundTo(v, id)
    ensures ValidPair(v, a, b) <==> NoCrossBelow(v, a, b, id)
  {
  }

  lemma SoundNext(v: Vocab, id: nat, a: nat, b: nat)
    requires SoundTo(v, id) && id < |v.bytes| && a < id && b < id
    requires v.bytes[id] == v.bytes[a] + v.bytes[b] && ValidPair(v, a, b)
    ensures SoundTo(Install(v, id, a, b), id + 1)
  {
    var w := Install(v, id, a, b);
    ValidBelow(v, id, a, b);
    InstallKeepsShape(v, id, a, b);
    forall r | 0 <= r < id + 1 ensures SplitSound(w, r) {
      if r < id {
        assert SplitSound(v, r) && ShapeAt(v, r);
        if !Primitive(v, r) {
          AgreeCrosses(v, w, id, v.left[r], v.right[r], r);
        }
      } else {
        AgreeCrosses(v, w, id, a, b, id);
      }
    }
  }

  lemma SoundSkip(v: Vocab, id: nat)
    requires SoundTo(v, id) && id < |v.bytes|
    ensures SoundTo(v, id + 1)
  {
  }

  lemma {:induction false} PairsToAgree(v: Vocab, w: Vocab, m: nat, i: nat)
    requires Agree(v, w, m) && i <= m
    ensures PairsTo(v, i) == PairsTo(w, i)
  {
    if i > 0 {
      PairsToAgree(v, w, m, i - 1);
    }
  }

  // ---- Recovery of the trained merges -----------------------------------------------------

  /** A table that agrees with the trained one below id has those rules installed. */
  lemma AgreeInstalled(v: Vocab, t: Vocab, id: nat)
    requires TableFor(t, v.bytes) && SoundTo(v, id) && Agree(t, v, id)
    ensures InstalledTo(v, id)
  {
    forall r | 0 <= r < |v.bytes| && r < id ensures SplitOk(v, r) {
      assert SplitOk(t, r) && ShapeAt(t, r);
      if !Primitive(t, r) {
        AgreeCrosses(t, v, id, t.left[r], t.right[r], r);
      }
    }
  }

  /** The trained split of id is the only valid one there is. */
  lemma SplitUnique(v: Vocab, t: Vocab, id: nat, a: nat, b: nat)
    requires TableFor(t, v.bytes) && SoundTo(v, id) && Agree(t, v, id) && id < |v.bytes|
    requires a < id && b < id && v.bytes[id] == v.bytes[a] + v.bytes[b] && ValidPair(v, a, b)
    ensures a == t.left[id] && b == t.right[id]
  {
    AgreeInstalled(v, t, id);
    TrainedSplit(v, t, id);
    ValidBelow(v, id, a, b);
    PairIsLevelChain(v, id, a, b);
    PairIsLevelChain(v, id, t.left[id], t.right[id]);
    assert [a, b] == [t.left[id], t.right[id]];
  }

  /** The trained split of a multi-byte token is valid under the rules below it. */
  lemma TrainedSplit(v: Vocab, t: Vocab, id: nat)
    requires TableFor(t, v.bytes) && SoundTo(v, id) && Agree(t, v, id) && id < |v.bytes| && |v.bytes[id]| > 1
    ensures var a, b := t.left[id], t.right[id];
            a < id && b < id && v.bytes[id] == v.bytes[a] + v.bytes[b] && NoCrossBelow(v, a, b, id)
                && ValidPair(v, a, b)
  {
    assert SplitOk(t, id) && ShapeAt(t, id);
    AgreeCrosses(t, v, id, t.left[id], t.right[id], id);
    ValidBelow(v, id, t.left[id], t.right[id]);
  }

  // ---- Looking for the split ------------------------------------------------------------

  /** (a, b) is a valid way to split token id. */
  ghost predicate IsSplit(v: Vocab, id: nat, a: nat, b: nat) {
    && a < id < |v.bytes| && b < id && v.bytes[id] == v.bytes[a] + v.bytes[b] && ValidPair(v, a, b)
  }

  ghost predicate FoundSplit(v: Vocab, id: nat, r: Option<Pair>) {
    match r
    case None => forall a: nat, b: nat :: !IsSplit(v, id, a, b)
    case Some(p) => IsSplit(v, id, p.0, p.1)
  }

  lemma FoundIsTrained(v: Vocab, t: Vocab, id: nat, r: Option<Pair>)
    requires TableFor(t, v.bytes) && SoundTo(v, id) && Agree(t, v, id) && id < |v.bytes| && FoundSplit(v, id, r)
    ensures match r
            case None => t.left[id] == id == t.right[id]
            case Some(p) => t.left[id] == p.0 && t.right[id] == p.1
  {
    assert SplitOk(t, id) && ShapeAt(t, id) && ShapeAt(v, id);
    if r.Some? {
      SplitIsLong(v, id, r.value.0, r.value.1);
    }
    if |v.bytes[id]| > 1 {
      TrainedSplit(v, t, id);
      assert IsSplit(v, id, t.left[id], t.right[id]);
      SplitUnique(v, t, id, r.value.0, r.value.1);
    }
  }

  lemma SplitIsLong(v: Vocab, id: nat, a: nat, b: nat)
    requires Shape(v) && IsSplit(v, id, a, b)
    ensures |v.bytes[id]| > 1
  {
    assert ShapeAt(v, a) && ShapeAt(v, b);
  }

  /** Every split still possible starts with token1 or a shorter prefix. */
  ghost predicate Remaining(v: Vocab, id: nat, token1: Option<nat>) {
    && (token1.Some? ==> token1.value < |v.bytes| && id < |v.bytes| && v.bytes[token1.value] < v.bytes[id])
    && forall a: nat, b: nat :: IsSplit(v, id, a, b) ==> token1.Some? && |v.bytes[a]| <= |v.bytes[token1.value]|
  }

  lemma SplitPrefix(v: Vocab, id: nat, a: nat, b: nat)
    requires Shape(v) && IsSplit(v, id, a, b)
    ensures v.bytes[a] < v.bytes[id] && v.bytes[id][|v.bytes[a]|..] == v.bytes[b]
  {
    assert ShapeAt(v, b);
  }

  lemma RemainingStart(v: Vocab, id: nat, first: Option<nat>)
    requires Shape(v) && id < |v.bytes| && IsNextPrefix(v, id, first)
    ensures Remaining(v, id, first)
  {
    forall a: nat, b: nat | IsSplit(v, id, a, b) ensures first.Some? && |v.bytes[a]| <= |v.bytes[first.value]| {
      SplitPrefix(v, id, a, b);
    }
  }

  lemma RemainingNext(v: Vocab, id: nat, t1: nat, next: Option<nat>)
    requires Shape(v) && DistinctBytes(v) && Remaining(v, id, Some(t1)) && IsNextPrefix(v, t1, next)
    requires forall b: nat :: !IsSplit(v, id, t1, b)
    ensures Remaining(v, id, next)
    ensures next.Some? ==> |v.bytes[next.value]| < |v.bytes[t1]|
  {
  }

  /** The candidate token1 with the token found for the rest is not a split. */
  lemma NotASplit(v: Vocab, id: nat, t1: nat, token2: Option<nat>)
    requires Shape(v) && DistinctBytes(v) && id < |v.bytes| && t1 < |v.bytes| && v.bytes[t1] < v.bytes[id]
    requires IsTokenFor(v, v.bytes[id][|v.bytes[t1]|..], token2)
    requires token2.Some? && t1 < id && token2.value < id ==> !ValidPair(v, t1, token2.value)
    ensures forall b: nat :: !IsSplit(v, id, t1, b)
  {
  }

  lemma IsASplit(v: Vocab, id: nat, t1: nat, t2: nat)
    requires id < |v.bytes| && t1 < id && t2 < id && v.bytes[t1] < v.bytes[id]
    requires v.bytes[t2] == v.bytes[id][|v.bytes[t1]|..] && ValidPair(v, t1, t2)
    ensures IsSplit(v, id, t1, t2)
  {
  }

  /** The search loop of bpe_from_dictionary: a valid split is found exactly if there is one. */
  method FindSplit(v: Vocab, id: nat, nextPrefix: seq<Option<nat>>, hashSlots: seq<Slot<nat>>, hash: seq<byte> -> nat,
                   pairs: seq<Slot<Pair>>, pairHash: Pair -> nat) returns (r: Option<Pair>)
    requires SoundTo(v, id) && id < |v.bytes| && PrefixesOk(v, nextPrefix)
    requires HashInjective(v.bytes, hash) && Represents(hashSlots, SelfHash, HashesTo(v.bytes, hash, |v.bytes|))
    requires Represents(pairs, pairHash, PairsTo(v, id))
    ensures FoundSplit(v, id, r)
  {
    hide *;
    SoundFacts(v, id);
    PrefixAt(v, nextPrefix, id);
    MapSearchable(v.bytes, hashSlots, hash);
    var token1: Option<nat> := nextPrefix[id];
    RemainingStart(v, id, token1);
    while token1.Some?
      invariant Remaining(v, id, token1)
      invariant token1.Some? ==> token1.value < |v.bytes|
      decreases if token1.Some? then |v.bytes[token1.value]| + 1 else 0
    {
      var t1 := token1.value;
      RemainingFacts(v, id, t1);
      var rest := v.bytes[id][|v.bytes[t1]|..];
      var token2 := FindTokenByBytes(v, hashSlots, hash, rest);
      TokenForFacts(v, rest, token2);
      if token2.Some? && t1 < id && token2.value < id {
        var ok := IsValidTokenPair(v, pairs, pairHash, t1, token2.value, PairsTo(v, id));
        if ok {
          IsASplit(v, id, t1, token2.value);
          return Found(v, id, t1, token2.value);
        }
      }
      NotASplit(v, id, t1, token2);
      PrefixAt(v, nextPrefix, t1);
      RemainingNext(v, id, t1, nextPrefix[t1]);
      token1 := nextPrefix[t1];
    }
    NoneRemaining(v, id);
    return None;
  }

  function Found(v: Vocab, id: nat, a: nat, b: nat): (r: Option<Pair>)
    requires IsSplit(v, id, a, b)
    ensures FoundSplit(v, id, r)
  {
    Some((a, b))
  }

  lemma SoundFacts(v: Vocab, id: nat)
    requires SoundTo(v, id)
    ensures Shape(v) && DistinctBytes(v) && |v.bytes| <= UINT32_MAX && |v.left| == |v.right| == |v.bytes|
    ensures IsPairMap(v, PairsTo(v, id))
  {
    SoundConcatenates(v, id);
    AllPairs(v, id);
  }

  lemma PrefixAt(v: Vocab, nextPrefix: seq<Option<nat>>, x: nat)
    requires PrefixesOk(v, nextPrefix) && x < |v.bytes|
    ensures x < |nextPrefix| && IsNextPrefix(v, x, nextPrefix[x])
    ensures nextPrefix[x].Some? ==> nextPrefix[x].value < |v.bytes|
  {
  }

  lemma RemainingFacts(v: Vocab, id: nat, t1: nat)
    requires Remaining(v, id, Some(t1))
    ensures t1 < |v.bytes| && id < |v.bytes| && v.bytes[t1] < v.bytes[id]
  {
  }

  lemma TokenForFacts(v: Vocab, b: seq<byte>, r: Option<nat>)
    requires IsTokenFor(v, b, r)
    ensures r.Some? ==> r.value < |v.bytes| && v.bytes[r.value] == b
  {
  }

  lemma NoneRemaining(v: Vocab, id: nat)
    requires Remaining(v, id, None)
    ensures FoundSplit(v, id, None)
  {
  }

  // ---- The tables, one after the other -------------------------------------------------------

  /** The capacity of a new table: a power of two at least twice the hint. */
  method Capacity(hint: nat) returns (cap: nat)
    ensures cap >= 16 && cap % 2 == 0 && cap >= 2 * hint
  {
    cap := 16;
    while cap < hint * 2
      invariant cap >= 16 && cap % 2 == 0
    {
      cap := cap * 2;
    }
  }

  /** The loop filling hash_to_token. */
  method BuildBytesMap(words: seq<seq<byte>>, hash: seq<byte> -> nat) returns (slots: seq<Slot<nat>>)
    requires |words| < UINT32_MAX
    ensures Searchable(words, slots)
    ensures HashInjective(words, hash) ==> Represents(slots, SelfHash, HashesTo(words, hash, |words|))
  {
    hide *;
    var cap := Capacity(|words| * 2);
    var m := new ProbeTable<nat>(SelfHash, cap);
    NoHashes(words, hash);
    m.ValidRepresents();
    NoneYet(m.slots[..], |words|);
    for i := 0 to |words|
      invariant fresh(m) && fresh(m.slots) && m.Counted() && m.hash == SelfHash
      invariant m.slots.Length == cap && m.count == i && ValuesBelow(m.slots[..], |words|)
      invariant HashInjective(words, hash) ==> m.Valid() && m.contents == HashesTo(words, hash, i)
    {
      if HashInjective(words, hash) { HashesNext(words, hash, i); }
      ghost var was := m.slots[..];
      m.Put(hash(words[i]), i);
      StillBelow(was, m.slots[..], |words|, Slot(hash(words[i]), i));
    }
    slots := m.slots[..];
    if HashInjective(words, hash) { m.ValidRepresents(); }
    m.HasRoom();
    CanSearch(words, slots);
  }

  ghost predicate ValuesBelow(slots: seq<Slot<nat>>, n: nat) {
    forall i :: 0 <= i < |slots| && Full(slots[i]) ==> slots[i].value < n
  }

  lemma NoneYet(slots: seq<Slot<nat>>, n: nat)
    requires Represents(slots, SelfHash, map[])
    ensures ValuesBelow(slots, n)
  {
  }

  lemma StillBelow(was: seq<Slot<nat>>, now: seq<Slot<nat>>, n: nat, s: Slot<nat>)
    requires ValuesBelow(was, n) && s.value < n && exists idx: nat :: WroteAt(was, now, idx, s)
    ensures ValuesBelow(now, n)
  {
  }

  lemma CanSearch(words: seq<seq<byte>>, slots: seq<Slot<nat>>)
    requires |words| <= UINT32_MAX && HasEmpty(slots) && ValuesBelow(slots, |words|)
    ensures Searchable(words, slots)
  {
  }

  lemma NoHashes(words: seq<seq<byte>>, hash: seq<byte> -> nat)
    ensures HashesTo(words, hash, 0) == map[]
  {
  }

  lemma HashesNext(words: seq<seq<byte>>, hash: seq<byte> -> nat, i: nat)
    requires HashInjective(words, hash) && i < |words|
    ensures hash(words[i]) !in HashesTo(words, hash, i)
    ensures HashesTo(words, hash, i + 1) == HashesTo(words, hash, i)[hash(words[i]) := i]
  {
    HashesToExact(words, hash, i);
  }

  lemma BlankSound(v: Vocab, words: seq<seq<byte>>, hash: seq<byte> -> nat)
    requires GoodDictionary(words, hash) && Blank(v, words)
    ensures SoundTo(v, 0) && Shape(v) && DistinctBytes(v)
  {
  }

  /** The loop filling next_prefix_match. */
  method NextPrefixes(v: Vocab, longest: Automaton, ghost hash: seq<byte> -> nat) returns (nextPrefix: seq<Option<nat>>)
    requires GoodDictionary(v.bytes, hash) && Shape(v) && DistinctBytes(v)
    requires Recognizes(longest, TokenDict(v.bytes, |v.bytes|, false))
    ensures PrefixesOk(v, nextPrefix)
  {
    hide *;
    var next := new Option<nat>[|v.bytes|](_ => None);
    for i := 0 to |v.bytes|
      invariant forall x :: 0 <= x < i ==> IsNextPrefix(v, x, next[x])
    {
      FirstByte(v, hash, i);
      var word := v.bytes[i];
      var r := NextMatch(v, longest, word[..|word| - 1]);
      LongestIsNextPrefix(v, i, r);
      next[i] := r;
    }
    nextPrefix := next[..];
    MakePrefixes(v, nextPrefix);
  }

  lemma FirstByte(v: Vocab, hash: seq<byte> -> nat, i: nat)
    requires GoodDictionary(v.bytes, hash) && i < |v.bytes|
    ensures v.bytes[i] != [] && IsByteToken(v, v.bytes[i][0])
  {
    assert FirstByteKnown(v.bytes, i);
  }

  lemma LongestIsNextPrefix(v: Vocab, i: nat, r: Option<nat>)
    requires Shape(v) && i < |v.bytes| && v.bytes[i] != []
    requires var cut := v.bytes[i][..|v.bytes[i]| - 1];
             (cut == [] <==> r == None) && (r.Some? ==> IsLongestPrefix(v, cut, r.value))
    ensures IsNextPrefix(v, i, r)
  {
    var word := v.bytes[i];
    var cut := word[..|word| - 1];
    forall y | 0 <= y < |v.bytes| && v.bytes[y] < word ensures v.bytes[y] <= cut && v.bytes[y] != [] {
      assert ShapeAt(v, y);
      assert v.bytes[y] == word[..|v.bytes[y]|] == cut[..|v.bytes[y]|];
    }
    if r.Some? {
      assert v.bytes[r.value] == cut[..|v.bytes[r.value]|] == word[..|v.bytes[r.value]|];
    }
  }

  lemma MakePrefixes(v: Vocab, nextPrefix: seq<Option<nat>>)
    requires |nextPrefix| == |v.bytes| && forall x :: 0 <= x < |v.bytes| ==> IsNextPrefix(v, x, nextPrefix[x])
    ensures PrefixesOk(v, nextPrefix)
  {
  }

  /** Everything known after the splits below id have been looked for. */
  ghost predicate SplitsTo(v: Vocab, words: seq<seq<byte>>, id: nat) {
    && v.bytes == words && SoundTo(v, id)
    && forall t :: TableFor(t, words) ==> Agree(t, v, id)
  }

  lemma SplitsStart(v: Vocab, words: seq<seq<byte>>, hash: seq<byte> -> nat)
    requires GoodDictionary(words, hash) && Blank(v, words)
    ensures SplitsTo(v, words, 0) && PairsTo(v, 0) == map[]
  {
  }

  lemma SplitsFound(v: Vocab, words: seq<seq<byte>>, id: nat, a: nat, b: nat)
    requires SplitsTo(v, words, id) && id < |words| && FoundSplit(v, id, Some((a, b)))
    ensures id < |v.left| && id < |v.right| && a < id && b < id
    ensures SplitsTo(Install(v, id, a, b), words, id + 1)
    ensures (a, b) !in PairsTo(v, id)
    ensures PairsTo(Install(v, id, a, b), id + 1) == PairsTo(v, id)[(a, b) := id]
  {
    var w := Install(v, id, a, b);
    hide ValidPair, NoCrossBelow;
    SoundNext(v, id, a, b);
    forall t | TableFor(t, words) ensures Agree(t, w, id + 1) {
      FoundIsTrained(v, t, id, Some((a, b)));
    }
    NewPair(v, id, a, b);
    PairsToAgree(v, w, id, id);
  }

  lemma NewPair(v: Vocab, id: nat, a: nat, b: nat)
    requires SoundTo(v, id) && id < |v.bytes| && a < id && b < id && v.bytes[id] == v.bytes[a] + v.bytes[b]
    ensures (a, b) !in PairsTo(v, id)
  {
    SoundConcatenates(v, id);
    PairsToHoldsRules(v, id);
    forall p | p in PairsTo(v, id) ensures p != (a, b) {
      var r := PairsTo(v, id)[p];
      assert v.bytes[r] == Concat(v, p.0, p.1);
      assert v.bytes[r] != v.bytes[id];
    }
  }

  lemma SplitsSkip(v: Vocab, words: seq<seq<byte>>, id: nat)
    requires SplitsTo(v, words, id) && id < |words| && FoundSplit(v, id, None)
    ensures SplitsTo(v, words, id + 1) && PairsTo(v, id + 1) == PairsTo(v, id)
  {
    SoundSkip(v, id);
    forall t | TableFor(t, words) ensures Agree(t, v, id + 1) {
      FoundIsTrained(v, t, id, None);
    }
  }

  lemma SplitsEnd(v: Vocab, words: seq<seq<byte>>)
    requires SplitsTo(v, words, |words|)
    ensures forall t :: TableFor(t, words) ==> t == v
  {
  }

  lemma PrefixesOfBytes(v: Vocab, w: Vocab, nextPrefix: seq<Option<nat>>)
    requires PrefixesOk(v, nextPrefix) && v.bytes == w.bytes
    ensures PrefixesOk(w, nextPrefix)
  {
  }

  lemma SplitsFacts(v: Vocab, words: seq<seq<byte>>, id: nat)
    requires SplitsTo(v, words, id)
    ensures v.bytes == words && SoundTo(v, id) && |v.left| == |v.right| == |words|
  {
  }

  /** The loop rebuilding the split tables and the pair map. */
  method BuildSplits(v0: Vocab, nextPrefix: seq<Option<nat>>, hashSlots: seq<Slot<nat>>, hash: seq<byte> -> nat,
                     pairHash: Pair -> nat) returns (v: Vocab, pairs: seq<Slot<Pair>>)
    requires GoodDictionary(v0.bytes, hash) && Blank(v0, v0.bytes) && PrefixesOk(v0, nextPrefix)
    requires HashInjective(v0.bytes, hash) && |v0.bytes| < UINT32_MAX
    requires Represents(hashSlots, SelfHash, HashesTo(v0.bytes, hash, |v0.bytes|))
    ensures v.bytes == v0.bytes && SplitsTo(v, v0.bytes, |v0.bytes|)
    ensures Represents(pairs, pairHash, PairsTo(v, |v0.bytes|))
  {
    hide *;
    var words := v0.bytes;
    var cap := Capacity(|words| * 2);
    var table := new ProbeTable<Pair>(pairHash, cap);
    var left := new nat[|words|](i => i);
    var right := new nat[|words|](i => i);
    IsBlank(words, left[..], right[..]);
    SplitsStart(Vocab(words, left[..], right[..]), words, hash);
    for id := 0 to |words|
      invariant fresh(table) && fresh(table.slots) && table.Valid() && table.hash == pairHash
      invariant table.slots.Length >= 4 && table.slots.Length % 2 == 0 && table.count * 2 <= table.slots.Length
      invariant SplitsTo(Vocab(words, left[..], right[..]), words, id)
      invariant table.contents == PairsTo(Vocab(words, left[..], right[..]), id)
    {
      var split := Vocab(words, left[..], right[..]);
      SplitsFacts(split, words, id);
      PrefixesOfBytes(v0, split, nextPrefix);
      table.ValidRepresents();
      var r := FindSplit(split, id, nextPrefix, hashSlots, hash, table.slots[..], pairHash);
      match r
      case None =>
        SplitsSkip(split, words, id);
      case Some(p) =>
        SplitsFound(split, words, id, p.0, p.1);
        table.Insert(p, id);
        left[id] := p.0;
        right[id] := p.1;
        InstallIs(split, id, p.0, p.1);
        assert left[..] == split.left[id := p.0] && right[..] == split.right[id := p.1];
    }
    v := Vocab(words, left[..], right[..]);
    SplitsFacts(v, words, |words|);
    table.ValidRepresents();
    pairs := table.slots[..];
  }

  lemma InstallIs(v: Vocab, id: nat, a: nat, b: nat)
    requires id < |v.left| && id < |v.right|
    ensures Install(v, id, a, b) == Vocab(v.bytes, v.left[id := a], v.right[id := b])
  {
  }

  /** bpe_from_dictionary.  If some training run could have produced the dictionary, the
      rules found are exactly its merges and the encoder is ready. */
  method FromDictionary(words: seq<seq<byte>>, hash: seq<byte> -> nat, pairHash: Pair -> nat)
      returns (bpe: BytePairEncoding)
    requires GoodDictionary(words, hash)
    ensures bpe.vocab.bytes == words && SoundTo(bpe.vocab, |words|)
    ensures MapsOk(bpe) && PrefixesOk(bpe.vocab, bpe.nextPrefix) && AutomataOk(bpe)
    ensures forall t :: Trained(t, words) ==> bpe.vocab == t
    ensures Ready(bpe) <==> exists t :: Trained(t, words)
  {
    hide *;
    DictionaryFacts(words, hash);
    var self: seq<nat> := seq(|words|, i => i);
    var v0 := Vocab(words, self, self);
    IsBlank(words, self, self);
    BlankSound(v0, words, hash);
    var hashSlots := BuildBytesMap(words, hash);
    var longest := BuildForTokens(words, false);
    var overlapping := BuildForTokens(words, false);
    var overlappingRev := BuildForTokens(words, true);
    var nextPrefix := NextPrefixes(v0, longest, hash);
    var v, pairs := BuildSplits(v0, nextPrefix, hashSlots, hash, pairHash);
    bpe := BytePairEncoding(v, pairs, pairHash, hashSlots, hash, nextPrefix, longest, overlapping, overlappingRev);
    SplitsFacts(v, words, |words|);
    SplitsEnd(v, words);
    PrefixesOfBytes(v0, v, nextPrefix);
    Finished(bpe, words);
  }

  lemma DictionaryFacts(words: seq<seq<byte>>, hash: seq<byte> -> nat)
    requires GoodDictionary(words, hash)
    ensures |words| < UINT32_MAX && HashInjective(words, hash)
    ensures forall i :: 0 <= i < |words| ==> words[i] != []
    ensures forall t :: Trained(t, words) <==> TableFor(t, words)
  {
    forall t ensures Trained(t, words) <==> TableFor(t, words) {
      TrainedIffWellFormed(t, words);
    }
  }

  lemma IsBlank(words: seq<seq<byte>>, left: seq<nat>, right: seq<nat>)
    requires |left| == |words| == |right| && forall i :: 0 <= i < |words| ==> left[i] == i == right[i]
    ensures Blank(Vocab(words, left, right), words)
  {
  }

  lemma Finished(bpe: BytePairEncoding, words: seq<seq<byte>>)
    requires bpe.vocab.bytes == words && HashInjective(words, bpe.bytesHash) && PrefixesOk(bpe.vocab, bpe.nextPrefix)
    requires Represents(bpe.pairLookup, bpe.pairHash, PairsTo(bpe.vocab, |words|))
    requires Represents(bpe.hashToToken, SelfHash, HashesTo(words, bpe.bytesHash, |words|))
    requires Recognizes(bpe.longest, TokenDict(words, |words|, false))
    requires Recognizes(bpe.overlapping, TokenDict(words, |words|, false))
    requires Recognizes(bpe.overlappingRev, TokenDict(words, |words|, true))
    requires forall t :: TableFor(t, words) ==> t == bpe.vocab
    ensures MapsOk(bpe) && AutomataOk(bpe)
    ensures Ready(bpe) <==> exists t :: TableFor(t, words)
  {
    hide Represents, Recognizes, HashInjective, PrefixesOk, WellFormed;
    if WellFormed(bpe.vocab) {
      assert TableFor(bpe.vocab, words);
    }
  }
}
