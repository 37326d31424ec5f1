/** Shortest encodings, by a dynamic program over the tokens that end at each position. */
module Minimal {
  import opened Vocabulary
  import opened AhoCorasick
  import opened Automata
  import opened Tables
  import opened PrefixTable

  ghost predicate Spells(v: Vocab, s: seq<nat>, t: seq<byte>) {
    Tokens(v, s) && Decode(v, s) == t
  }

  /** c is the least number of tokens that spell t. */
  ghost predicate IsLeast(v: Vocab, t: seq<byte>, c: nat) {
    && (exists s :: Spells(v, s, t) && |s| == c)
    && (forall s :: Spells(v, s, t) ==> c <= |s|)
  }

  /** least[p] is the least number of tokens for the first p + 1 bytes. */
  ghost predicate Leasts(v: Vocab, text: seq<byte>, least: seq<nat>) {
    |least| <= |text| && forall p :: 0 <= p < |least| ==> IsLeast(v, text[..p + 1], least[p])
  }

  /** The least number of tokens before a candidate that starts at start. */
  function CountBefore(least: seq<nat>, start: nat): nat
    requires start <= |least|
  {
    if start == 0 then 0 else least[start - 1]
  }

  lemma LeastBefore(v: Vocab, t: seq<byte>, least: seq<nat>, start: nat)
    requires |least| == |t| - 1 && Leasts(v, t, least) && start < |t|
    ensures IsLeast(v, t[..start], CountBefore(least, start))
  {
  }

  lemma SpellsSnoc(v: Vocab, s: seq<nat>, t: seq<byte>, x: nat)
    requires x < |v.bytes| && Spells(v, s, t)
    ensures Spells(v, s + [x], t + v.bytes[x])
  {
    DecodeOne(v, x);
    DecodeConcat(v, s, [x]);
  }

  lemma SpellsUnsnoc(v: Vocab, s: seq<nat>, t: seq<byte>)
    requires WellFormed(v) && Spells(v, s, t) && t != []
    ensures s != [] && EndsWith(v, t, Match(Last<nat>(s), |v.bytes[Last<nat>(s)]|))
    ensures Spells(v, s[..|s| - 1], t[..|t| - |v.bytes[Last<nat>(s)]|])
  {
    DecodeSnoc(v, s);
    assert ShapeAt(v, Last<nat>(s));
  }

  /** The best of all last tokens gives the least count. */
  lemma LeastNext(v: Vocab, t: seq<byte>, least: seq<nat>, x: nat, c: nat)
    requires WellFormed(v) && t != [] && |least| == |t| - 1 && Leasts(v, t, least)
    requires x < |v.bytes| && EndsWith(v, t, Match(x, |v.bytes[x]|)) && |v.bytes[x]| <= |t|
    requires c == CountBefore(least, |t| - |v.bytes[x]|) + 1
    requires forall q: Match :: EndsWith(v, t, q) ==> 0 < q.length <= |t| && c <= CountBefore(least, |t| - q.length) + 1
    ensures IsLeast(v, t, c)
  {
    hide WellFormed, IsLeast, Leasts, EndsWith;
    EndFacts(v, t, x);
    LeastBefore(v, t, least, |t| - |v.bytes[x]|);
    var s' := LeastWitness(v, t[..|t| - |v.bytes[x]|], c - 1);
    SpellsSnoc(v, s', t[..|t| - |v.bytes[x]|], x);
    forall s | Spells(v, s, t) ensures c <= |s| {
      SpellsUnsnoc(v, s, t);
      var y := Last<nat>(s);
      EndFacts(v, t, y);
      LeastBefore(v, t, least, |t| - |v.bytes[y]|);
      LeastBound(v, t[..|t| - |v.bytes[y]|], CountBefore(least, |t| - |v.bytes[y]|), s[..|s| - 1]);
    }
    LeastBy(v, t, c, s' + [x]);
  }

  lemma EndFacts(v: Vocab, t: seq<byte>, x: nat)
    requires x < |v.bytes| && EndsWith(v, t, Match(x, |v.bytes[x]|))
    ensures 0 < |v.bytes[x]| <= |t| && t == t[..|t| - |v.bytes[x]|] + v.bytes[x]
  {
  }

  lemma LeastWitness(v: Vocab, t: seq<byte>, c: nat) returns (s: seq<nat>)
    requires IsLeast(v, t, c)
    ensures Spells(v, s, t) && |s| == c
  {
    s :| Spells(v, s, t) && |s| == c;
  }

  lemma LeastBound(v: Vocab, t: seq<byte>, c: nat, s: seq<nat>)
    requires IsLeast(v, t, c) && Spells(v, s, t)
    ensures c <= |s|
  {
  }

  lemma LeastBy(v: Vocab, t: seq<byte>, c: nat, s: seq<nat>)
    requires Spells(v, s, t) && |s| == c && forall s' :: Spells(v, s', t) ==> c <= |s'|
    ensures IsLeast(v, t, c)
  {
  }

  /** MinState: the last token of a shortest sequence, and its length. */
  datatype MinState = MinState(token: nat, count: nat)

  function Counts(states: seq<MinState>): (least: seq<nat>)
    ensures |least| == |states|
  {
    seq(|states|, i requires 0 <= i < |states| => states[i].count)
  }

  /** The inner loop of bpe_encode_minimal. */
  method BestLast(bpe: BytePairEncoding, it: MatchIter, ghost t: seq<byte>, states: seq<MinState>)
      returns (best: MinState)
    requires Ready(bpe) && t != [] && Covers(bpe.vocab, t) && |t| < UINT32_MAX
    requires |states| == |t| - 1 && Leasts(bpe.vocab, t, Counts(states))
    requires forall i :: 0 <= i < |states| ==> states[i].count <= i + 1
    requires it.Valid() && it.pendingEnd == |t|
    requires it.Pending() == SuffixMatches(TokenDict(bpe.vocab.bytes, |bpe.vocab.bytes|, false), t)
    modifies it`pendingOut
    ensures Achieved(bpe.vocab, t, Counts(states), best) && IsLeast(bpe.vocab, t, best.count) && best.count <= |t|
    ensures Longest(bpe.vocab, t, Counts(states), best)
  {
    hide *;
    ghost var v := bpe.vocab;
    ReadyVocab(bpe);
    AllEndings(v, t);
    MatchesFall(v, t);
    LastEnds(v, t);
    ghost var least := Counts(states);
    best := MinState(UINT32_MAX, UINT32_MAX);
    NothingCovered(v, it.Pending(), best);
    var found := true;
    while found
      invariant it.Valid() && it.pendingEnd == |t|
      invariant !found ==> it.Pending() == []
      invariant forall q :: q in it.Pending() ==> EndsWith(v, t, q)
      invariant forall q :: EndsWith(v, t, q) ==> q in it.Pending() || NotBetter(v, t, least, q, best)
      invariant best.count == UINT32_MAX || Achieved(v, t, least, best)
      invariant Falling(it.Pending()) && AllCovered(v, it.Pending(), best)
      decreases found, |it.Pending()|
    {
      ghost var pending := it.Pending();
      var token, start;
      found, token, start := it.NextMatch();
      if found {
        ghost var q := pending[0];
        assert pending == [q] + pending[1..];
        assert q in pending;
        CandidateCount(v, t, states, q, start);
        var prev_count := if start == 0 then 0 else states[start - 1].count;
        ghost var before := best;
        if prev_count == UINT32_MAX {
          NextCovered(v, pending, before, best);
          continue;
        }
        var new_count := prev_count + 1;
        if new_count < best.count {
          best := MinState(token, new_count);
        }
        NextCovered(v, pending, before, best);
        Improved(v, t, least, before, best, q);
      }
    }
    CountsBounded(states);
    SomeBest(v, t, least, best);
  }

  lemma NothingCovered(v: Vocab, p: seq<Match>, best: MinState)
    requires best.count == UINT32_MAX
    ensures AllCovered(v, p, best)
  {
  }

  lemma CountsBounded(states: seq<MinState>)
    requires forall i :: 0 <= i < |states| ==> states[i].count <= i + 1
    ensures forall i :: 0 <= i < |Counts(states)| ==> Counts(states)[i] <= i + 1
  {
  }

  /** best is at least as good as candidate q, and not shorter if as good. */
  ghost predicate NotBetter(v: Vocab, t: seq<byte>, least: seq<nat>, q: Match, best: MinState) {
    && q.length <= |t| && |t| - q.length <= |least| && best.count <= CountBefore(least, |t| - q.length) + 1 < UINT32_MAX
    && (best.count == CountBefore(least, |t| - q.length) + 1 ==> Covering(v, q, best))
  }

  ghost predicate Covering(v: Vocab, q: Match, best: MinState) {
    best.token < |v.bytes| && q.length <= |v.bytes[best.token]|
  }

  /** Of the tokens that lead to the least count best is the longest. */
  ghost predicate Longest(v: Vocab, t: seq<byte>, least: seq<nat>, best: MinState) {
    forall q: Match :: EndsWith(v, t, q) ==> NotBetter(v, t, least, q, best)
  }

  ghost predicate Falling(p: seq<Match>) {
    forall i, j :: 0 <= i < j < |p| ==> p[i].length > p[j].length
  }

  lemma MatchesFall(v: Vocab, t: seq<byte>)
    ensures Falling(SuffixMatches(TokenDict(v.bytes, |v.bytes|, false), t))
  {
    SuffixMatchesExact(TokenDict(v.bytes, |v.bytes|, false), t);
    hide SuffixMatches, TokenDict;
  }

  /** All candidates left are covered by best, if there is one. */
  ghost predicate AllCovered(v: Vocab, p: seq<Match>, best: MinState) {
    best.count == UINT32_MAX || forall q :: q in p ==> Covering(v, q, best)
  }

  lemma NextCovered(v: Vocab, p: seq<Match>, before: MinState, best: MinState)
    requires p != [] && Falling(p) && AllCovered(v, p, before) && (best == before || best.token == p[0].token)
    requires best == before || (p[0].token < |v.bytes| && p[0].length == |v.bytes[p[0].token]|)
    ensures Falling(p[1..]) && AllCovered(v, p[1..], best)
    ensures before.count == UINT32_MAX || Covering(v, p[0], before)
  {
    forall q | q in p[1..] ensures q in p && q.length < p[0].length {
      var j :| 0 <= j < |p[1..]| && p[1..][j] == q;
      assert p[j + 1] == q;
    }
  }

  /** best is reached by its token. */
  ghost predicate Achieved(v: Vocab, t: seq<byte>, least: seq<nat>, best: MinState) {
    && best.token < |v.bytes| && EndsWith(v, t, Match(best.token, |v.bytes[best.token]|))
    && |v.bytes[best.token]| <= |t| && |t| - |v.bytes[best.token]| <= |least|
    && best.count == CountBefore(least, |t| - |v.bytes[best.token]|) + 1 < UINT32_MAX
  }

  lemma CandidateCount(v: Vocab, t: seq<byte>, states: seq<MinState>, q: Match, start: nat)
    requires EndsWith(v, t, q) && start == |t| - q.length && |states| == |t| - 1 && |t| < UINT32_MAX
    requires forall i :: 0 <= i < |states| ==> states[i].count <= i + 1
    ensures start < |t| && start <= |states|
    ensures q.token < |v.bytes| && q.length == |v.bytes[q.token]|
    ensures (if start == 0 then 0 else states[start - 1].count) == CountBefore(Counts(states), start) <= start
  {
  }

  lemma Improved(v: Vocab, t: seq<byte>, least: seq<nat>, before: MinState, best: MinState, q: Match)
    requires EndsWith(v, t, q) && q.token < |v.bytes| && q.length == |v.bytes[q.token]| && |t| - q.length <= |least|
    requires q.length <= |t|
    requires before.count == UINT32_MAX || (Achieved(v, t, least, before) && Covering(v, q, before))
    requires var c := CountBefore(least, |t| - q.length) + 1;
             c < UINT32_MAX && best == if c < before.count then MinState(q.token, c) else before
    ensures NotBetter(v, t, least, q, best) && Achieved(v, t, least, best)
    ensures forall p :: NotBetter(v, t, least, p, before) ==> NotBetter(v, t, least, p, best)
  {
  }

  lemma SomeBest(v: Vocab, t: seq<byte>, least: seq<nat>, best: MinState)
    requires WellFormed(v) && Covers(v, t) && t != [] && |least| == |t| - 1 && Leasts(v, t, least)
    requires forall i :: 0 <= i < |least| ==> least[i] <= i + 1
    requires forall q: Match :: EndsWith(v, t, q) ==> NotBetter(v, t, least, q, best)
    requires best.count == UINT32_MAX || Achieved(v, t, least, best)
    ensures Achieved(v, t, least, best) && IsLeast(v, t, best.count) && best.count <= |t|
    ensures Longest(v, t, least, best)
  {
    hide WellFormed, Covers, Leasts, IsLeast;
    LastEnds(v, t);
    assert Achieved(v, t, least, best);
    LeastNext(v, t, least, best.token, best.count);
  }

  /** The table after reading the first |states| bytes. */
  ghost predicate Table(v: Vocab, text: seq<byte>, states: seq<MinState>) {
    && |states| <= |text| && Leasts(v, text, Counts(states))
    && (forall i :: 0 <= i < |states| ==> states[i].count <= i + 1)
    && forall i :: 0 <= i < |states| ==> Entry(v, text, states, i) && Furthest(v, text, states, i)
  }

  /** No longer last token leaves a prefix needing one token less. */
  ghost predicate Furthest(v: Vocab, text: seq<byte>, states: seq<MinState>, i: nat)
    requires i < |states| <= |text|
  {
    forall q: Match :: EndsWith(v, text[..i + 1], q) ==>
                         && q.length <= i + 1
                         && (CountBefore(Counts(states), i + 1 - q.length) + 1 == states[i].count ==>
                               Covering(v, q, states[i]))
  }

  /** Entry i names a last token that leaves a prefix needing one token less. */
  ghost predicate Entry(v: Vocab, text: seq<byte>, states: seq<MinState>, i: nat)
    requires i < |states| <= |text|
  {
    && states[i].token < |v.bytes|
    && 0 < |v.bytes[states[i].token]| <= i + 1
    && text[i + 1 - |v.bytes[states[i].token]|..i + 1] == v.bytes[states[i].token]
    && states[i].count == CountBefore(Counts(states), i + 1 - |v.bytes[states[i].token]|) + 1
  }

  lemma TableNext(v: Vocab, text: seq<byte>, states: seq<MinState>, best: MinState)
    requires Table(v, text, states) && |states| < |text|
    requires var t := text[..|states| + 1];
             && Achieved(v, t, Counts(states), best) && IsLeast(v, t, best.count) && best.count <= |t|
             && Longest(v, t, Counts(states), best)
    ensures Table(v, text, states + [best])
  {
    hide IsLeast, EndsWith, Covering;
    var states', t := states + [best], text[..|states| + 1];
    var least, least' := Counts(states), Counts(states');
    assert least' == least + [best.count];
    forall i | 0 <= i < |states'| ensures Entry(v, text, states', i) && Furthest(v, text, states', i) {
      if i < |states| {
        assert Entry(v, text, states, i) && Furthest(v, text, states, i);
        FurthestKept(v, text, states, best, i);
      } else {
        FurthestNew(v, text, states, best);
        EndFacts(v, t, best.token);
        assert t[|t| - |v.bytes[best.token]|..] == text[i + 1 - |v.bytes[best.token]|..i + 1];
      }
    }
  }

  lemma FurthestKept(v: Vocab, text: seq<byte>, states: seq<MinState>, best: MinState, i: nat)
    requires i < |states| < |text| && Furthest(v, text, states, i)
    ensures Furthest(v, text, states + [best], i)
  {
    hide EndsWith, Covering;
    assert Counts(states + [best]) == Counts(states) + [best.count];
  }

  lemma FurthestNew(v: Vocab, text: seq<byte>, states: seq<MinState>, best: MinState)
    requires |states| < |text| && Longest(v, text[..|states| + 1], Counts(states), best)
    ensures Furthest(v, text, states + [best], |states|)
  {
    hide Covering;
    assert Counts(states + [best]) == Counts(states) + [best.count];
  }

  lemma TableCut(v: Vocab, text: seq<byte>, states: seq<MinState>)
    requires Table(v, text, states) && |states| < |text|
    ensures Leasts(v, text[..|states| + 1], Counts(states))
    ensures forall i :: 0 <= i < |states| ==> states[i].count <= i + 1
  {
    hide IsLeast, Entry;
    var t := text[..|states| + 1];
    forall p | 0 <= p < |states| ensures IsLeast(v, t[..p + 1], Counts(states)[p]) {
      assert t[..p + 1] == text[..p + 1];
    }
  }

  lemma EmptyTable(v: Vocab, text: seq<byte>)
    ensures Table(v, text, [])
  {
  }

  // ---- Which of the shortest sequences it is --------------------------------------------------------

  /** Of the equally short sequences for what any number of the tokens spell, none ends in a longer token. */
  ghost predicate LongestEnds(v: Vocab, tokens: seq<nat>)
    requires Tokens(v, tokens)
  {
    forall n: nat, s: seq<nat> ::
      0 < n <= |tokens| && |s| == n && Spells(v, s, Decode(v, tokens[..n])) ==>
        |v.bytes[s[n - 1]]| <= |v.bytes[tokens[n - 1]]|
  }

  /** That leaves only one of them. */
  lemma {:induction false} OnlyOne(v: Vocab, a: seq<nat>, b: seq<nat>, n: nat)
    requires WellFormed(v) && Tokens(v, a) && Tokens(v, b) && LongestEnds(v, a) && LongestEnds(v, b)
    requires n <= |a| == |b| && Decode(v, a[..n]) == Decode(v, b[..n])
    ensures a[..n] == b[..n]
    decreases n
  {
    hide LongestEnds, WellFormed, Decode;
    if n > 0 {
      NoLonger(v, a, b, n);
      NoLonger(v, b, a, n);
      LastStep(v, a, n);
      LastStep(v, b, n);
      SameEnd(v, Decode(v, a[..n]), a[n - 1], b[n - 1]);
      OnlyOne(v, a, b, n - 1);
    }
  }

  lemma NoLonger(v: Vocab, a: seq<nat>, b: seq<nat>, n: nat)
    requires Tokens(v, a) && Tokens(v, b) && LongestEnds(v, a) && 0 < n <= |a| == |b|
    requires Decode(v, a[..n]) == Decode(v, b[..n])
    ensures |v.bytes[b[n - 1]]| <= |v.bytes[a[n - 1]]|
  {
    hide Decode;
    assert Spells(v, b[..n], Decode(v, a[..n]));
    assert b[..n][n - 1] == b[n - 1];
  }

  lemma LastStep(v: Vocab, a: seq<nat>, n: nat)
    requires Tokens(v, a) && 0 < n <= |a|
    ensures Decode(v, a[..n]) == Decode(v, a[..n - 1]) + v.bytes[a[n - 1]] && a[..n] == a[..n - 1] + [a[n - 1]]
  {
    DecodeSnoc(v, a[..n]);
    assert a[..n][..n - 1] == a[..n - 1];
  }

  lemma SameEnd(v: Vocab, t: seq<byte>, x: nat, y: nat)
    requires WellFormed(v) && x < |v.bytes| && y < |v.bytes| && |v.bytes[x]| == |v.bytes[y]| <= |t|
    requires t[|t| - |v.bytes[x]|..] == v.bytes[x] && t[|t| - |v.bytes[y]|..] == v.bytes[y]
    ensures x == y
  {
  }

  /** The tokens were read off the table, the last one first. */
  ghost predicate Walked(v: Vocab, table: seq<MinState>, later: seq<nat>, pos: nat)
    decreases |later|
  {
    if later == [] then pos == |table|
    else
      && later[0] < |v.bytes| && 0 < pos + |v.bytes[later[0]]| <= |table|
      && table[pos + |v.bytes[later[0]]| - 1].token == later[0]
      && Walked(v, table, later[1..], pos + |v.bytes[later[0]]|)
  }

  lemma WalkedOn(v: Vocab, table: seq<MinState>, later: seq<nat>, pos: nat, tok: nat)
    requires Walked(v, table, later, pos) && tok < |v.bytes| && 0 < |v.bytes[tok]| <= pos <= |table|
    requires table[pos - 1].token == tok
    ensures Walked(v, table, [tok] + later, pos - |v.bytes[tok]|)
  {
    assert ([tok] + later)[1..] == later;
  }

  /** The tokens before position pos, counted by the table. */
  function TableCount(table: seq<MinState>, pos: nat): nat
    requires pos <= |table|
  {
    if pos == 0 then 0 else table[pos - 1].count
  }

  lemma {:induction false} WalkedAt(v: Vocab, text: seq<byte>, table: seq<MinState>, later: seq<nat>, pos: nat, n: nat)
    requires Table(v, text, table) && |table| == |text| && Walked(v, table, later, pos) && 0 < n <= |later|
    requires Tokens(v, later) && pos <= |text|
    ensures var p := pos + |Decode(v, later[..n])|;
            0 < p <= |text| && table[p - 1].token == later[n - 1] && table[p - 1].count == TableCount(table, pos) + n
    decreases n
  {
    hide Leasts, Furthest;
    var tok := later[0];
    var p1 := pos + |v.bytes[tok]|;
    assert Entry(v, text, table, p1 - 1);
    assert later[..n] == [tok] + later[1..][..n - 1];
    DecodeOne(v, tok);
    DecodeConcat(v, [tok], later[1..][..n - 1]);
    if n > 1 {
      WalkedAt(v, text, table, later[1..], p1, n - 1);
    }
  }

  lemma EndIsLongest(v: Vocab, text: seq<byte>, table: seq<MinState>, p: nat, n: nat, s: seq<nat>)
    requires WellFormed(v) && Table(v, text, table) && |table| == |text| && 0 < p <= |text| && table[p - 1].count == n
    requires Spells(v, s, text[..p]) && |s| == n > 0 && table[p - 1].token < |v.bytes|
    ensures s[n - 1] < |v.bytes| && |v.bytes[s[n - 1]]| <= |v.bytes[table[p - 1].token]|
  {
    hide WellFormed, IsLeast, Entry, EndsWith;
    var t, z, least := text[..p], s[n - 1], Counts(table);
    SpellsUnsnoc(v, s, t);
    EndFacts(v, t, z);
    var k := p - |v.bytes[z]|;
    assert t[..k] == text[..k];
    PrefixLeast(v, text, table, k);
    PrefixLeast(v, text, table, p);
    LeastBound(v, text[..k], CountBefore(least, k), s[..n - 1]);
    var s' := LeastWitness(v, text[..k], CountBefore(least, k));
    SpellsSnoc(v, s', text[..k], z);
    LeastBound(v, t, CountBefore(least, p), s' + [z]);
    assert Furthest(v, text, table, p - 1);
    assert EndsWith(v, text[..p - 1 + 1], Match(z, |v.bytes[z]|));
  }

  lemma PrefixLeast(v: Vocab, text: seq<byte>, table: seq<MinState>, k: nat)
    requires Table(v, text, table) && |table| == |text| && k <= |text|
    ensures IsLeast(v, text[..k], CountBefore(Counts(table), k))
  {
    hide Entry, Furthest;
    if k == 0 {
      assert Spells(v, [], text[..0]);
    } else {
      assert text[..k - 1 + 1] == text[..k];
    }
  }

  lemma WalkIsLongest(v: Vocab, text: seq<byte>, table: seq<MinState>, tokens: seq<nat>)
    requires WellFormed(v) && Table(v, text, table) && |table| == |text|
    requires Spells(v, tokens, text) && Walked(v, table, tokens, 0)
    ensures LongestEnds(v, tokens)
  {
    hide WellFormed, Table, Walked;
    forall n: nat, s: seq<nat> | 0 < n <= |tokens| && |s| == n && Spells(v, s, Decode(v, tokens[..n]))
      ensures s[n - 1] < |v.bytes| && |v.bytes[s[n - 1]]| <= |v.bytes[tokens[n - 1]]|
    {
      WalkedAt(v, text, table, tokens, 0, n);
      DecodePrefix(v, tokens, n);
      EndIsLongest(v, text, table, |Decode(v, tokens[..n])|, n, s);
    }
  }

  lemma DecodePrefix(v: Vocab, s: seq<nat>, n: nat)
    requires Tokens(v, s) && n <= |s|
    ensures |Decode(v, s[..n])| <= |Decode(v, s)| && Decode(v, s[..n]) == Decode(v, s)[..|Decode(v, s[..n])|]
  {
    DecodeConcat(v, s[..n], s[n..]);
    assert s == s[..n] + s[n..];
  }

  /** bpe_encode_minimal: no token sequence for the text is shorter, and of the shortest ones it has, from the end on,
      the longest tokens. */
  method EncodeMinimal(bpe: BytePairEncoding, text: seq<byte>) returns (tokens: seq<nat>)
    requires Ready(bpe) && Covers(bpe.vocab, text) && |text| < UINT32_MAX
    ensures Tokens(bpe.vocab, tokens) && Decode(bpe.vocab, tokens) == text
    ensures forall s :: Tokens(bpe.vocab, s) && Decode(bpe.vocab, s) == text ==> |tokens| <= |s|
    ensures LongestEnds(bpe.vocab, tokens)
  {
    hide *;
    ReadyVocab(bpe);
    var table := FillTable(bpe, text);
    var count := if |text| > 0 then table[|text| - 1].count else 0;
    var result := new nat[count](_ => 0);
    var idx, pos: nat := count, |text|;
    ghost var v := bpe.vocab;
    StartOfWalk(v, text, table, count);
    assert result[idx..] == [];
    while pos > 0 && idx > 0
      invariant pos <= |text| && idx <= count && idx == (if pos == 0 then 0 else table[pos - 1].count)
      invariant Spells(v, result[idx..], text[pos..]) && Walked(v, table, result[idx..], pos)
      decreases pos
    {
      WalkStep(v, text, table, pos, result[idx..]);
      var tok := table[pos - 1].token;
      idx := idx - 1;
      ghost var later := result[idx + 1..];
      result[idx] := tok;
      assert result[idx..] == [tok] + later;
      WalkedOn(v, table, later, pos, tok);
      pos := pos - |bpe.vocab.bytes[tok]|;
    }
    EndOfWalk(v, text, table, pos, idx);
    tokens := result[..];
    assert result[0..] == tokens && text[0..] == text;
    LeastIsShortest(v, text, table, tokens);
    WalkIsLongest(v, text, table, tokens);
  }

  lemma StartOfWalk(v: Vocab, text: seq<byte>, table: seq<MinState>, count: nat)
    requires Table(v, text, table) && |table| == |text|
    ensures Spells(v, [], text[|text|..]) && Walked(v, table, [], |text|)
  {
  }

  lemma WalkStep(v: Vocab, text: seq<byte>, table: seq<MinState>, pos: nat, later: seq<nat>)
    requires Table(v, text, table) && |table| == |text| && 0 < pos <= |text| && Spells(v, later, text[pos..])
    ensures var tok := table[pos - 1].token;
            && tok < |v.bytes| && 0 < |v.bytes[tok]| <= pos <= |table|
            && Spells(v, [tok] + later, text[pos - |v.bytes[tok]|..])
            && var p := pos - |v.bytes[tok]|;
            && table[pos - 1].count - 1 == if p == 0 then 0 else table[p - 1].count
  {
    hide Leasts;
    assert Entry(v, text, table, pos - 1);
    var tok := table[pos - 1].token;
    DecodeOne(v, tok);
    DecodeConcat(v, [tok], later);
    assert text[pos - |v.bytes[tok]|..] == v.bytes[tok] + text[pos..];
  }

  lemma EndOfWalk(v: Vocab, text: seq<byte>, table: seq<MinState>, pos: nat, idx: nat)
    requires Table(v, text, table) && |table| == |text| && pos <= |text|
    requires idx == (if pos == 0 then 0 else table[pos - 1].count) && (pos == 0 || idx == 0)
    ensures pos == 0 && idx == 0
  {
    hide Leasts;
    forall i | 0 <= i < |text| ensures table[i].count > 0 {
      assert Entry(v, text, table, i);
    }
  }

  lemma LeastIsShortest(v: Vocab, text: seq<byte>, table: seq<MinState>, tokens: seq<nat>)
    requires Table(v, text, table) && |table| == |text| && Spells(v, tokens, text)
    requires |tokens| == if |text| > 0 then table[|text| - 1].count else 0
    ensures Tokens(v, tokens) && Decode(v, tokens) == text
    ensures forall s :: Tokens(v, s) && Decode(v, s) == text ==> |tokens| <= |s|
  {
    if |text| > 0 {
      assert text[..|text|] == text;
      assert Counts(table)[|text| - 1] == |tokens|;
      forall s | Tokens(v, s) && Decode(v, s) == text ensures |tokens| <= |s| {
        assert Spells(v, s, text);
      }
    }
  }

  /** The filling loop of bpe_encode_minimal. */
  method FillTable(bpe: BytePairEncoding, text: seq<byte>) returns (table: seq<MinState>)
    requires Ready(bpe) && Covers(bpe.vocab, text) && |text| < UINT32_MAX
    ensures |table| == |text| && Table(bpe.vocab, text, table)
  {
    hide *;
    var states := new MinState[|text|](_ => MinState(UINT32_MAX, UINT32_MAX));
    ForwardStart(bpe);
    assert text[..0] == [];
    EmptyTable(bpe.vocab, text);
    var state := 0;
    for pos := 0 to |text|
      invariant state == ForwardState(bpe, text[..pos])
      invariant Table(bpe.vocab, text, states[..pos])
    {
      assert text[..pos] + [text[pos]] == text[..pos + 1];
      CoversPrefix(bpe.vocab, text, pos + 1);
      TableCut(bpe.vocab, text, states[..pos]);
      var best;
      state, best := ReadByte(bpe, state, text[..pos], text[pos], states[..pos]);
      TableNext(bpe.vocab, text, states[..pos], best);
      states[pos] := best;
      assert states[..pos + 1] == states[..pos] + [best];
    }
    assert states[..|text|] == states[..];
    table := states[..];
  }

  method ReadByte(bpe: BytePairEncoding, state: int, ghost t: seq<byte>, c: byte, states: seq<MinState>)
      returns (state': int, best: MinState)
    requires Ready(bpe) && Covers(bpe.vocab, t + [c]) && |t| + 1 < UINT32_MAX && |states| == |t|
    requires Leasts(bpe.vocab, t + [c], Counts(states)) && forall i :: 0 <= i < |states| ==> states[i].count <= i + 1
    requires state == ForwardState(bpe, t)
    ensures state' == ForwardState(bpe, t + [c])
    ensures Achieved(bpe.vocab, t + [c], Counts(states), best) && IsLeast(bpe.vocab, t + [c], best.count)
    ensures best.count <= |t| + 1 && Longest(bpe.vocab, t + [c], Counts(states), best)
  {
    ghost var d := TokenDict(bpe.vocab.bytes, |bpe.vocab.bytes|, false);
    hide *;
    ForwardIs(bpe, t);
    ForwardIs(bpe, t + [c]);
    var it := new MatchIter(bpe.overlapping, state, |states|, d);
    ghost var links := it.Advance(c, |states| + 1, d, t);
    best := BestLast(bpe, it, t + [c], states);
    state' := it.state;
  }
}
