/** The encoder that grows at the front: the mirror image of the append encoder, with the
    automaton of the reversed tokens. */
module Prependable {
  import opened Vocabulary
  import opened Merging
  import opened Chain
  import opened AhoCorasick
  import opened Automata
  import opened Tables
  import opened PrefixTable

  // ---- The first token determines the encoding --------------------------------------------

  ghost function FirstToken(v: Vocab, t: seq<byte>): nat {
    if Bpe(v, t) == [] then 0 else Bpe(v, t)[0]
  }

  /** Taking the first token off an encoding leaves the encoding of the shorter text. */
  lemma FirstSplits(v: Vocab, t: seq<byte>)
    requires WellFormed(v) && Covers(v, t) && t != []
    ensures var x := FirstToken(v, t);
            && x < |v.bytes| && v.bytes[x] <= t
            && var q := t[|v.bytes[x]|..];
            && Covers(v, q) && Bpe(v, t) == [x] + Bpe(v, q)
            && (q == [] || ValidPair(v, x, FirstToken(v, q)))
  {
    hide WellFormed, Covers, ValidPair, Bpe;
    var s := Bpe(v, t);
    BpeIsChain(v, t);
    BpeNonempty(v, t);
    var x, s' := s[0], s[1..];
    assert s == [x] + s';
    DecodeOne(v, x);
    DecodeConcat(v, [x], s');
    ChainConcat(v, [x], s');
    ChainIsBpe(v, s');
    var q := t[|v.bytes[x]|..];
    assert q == Decode(v, s');
    assert t == v.bytes[x] + q;
    CoversSplit(v, v.bytes[x], q);
    if q != [] { BpeNonempty(v, q); }
  }

  /** A token that may stand before the encoding of the rest begins the encoding. */
  lemma FirstIs(v: Vocab, t: seq<byte>, x: nat)
    requires WellFormed(v) && Covers(v, t) && x < |v.bytes| && v.bytes[x] <= t
    requires var q := t[|v.bytes[x]|..]; q == [] || ValidPair(v, x, FirstToken(v, q))
    ensures var q := t[|v.bytes[x]|..]; Bpe(v, t) == [x] + Bpe(v, q) && FirstToken(v, t) == x
  {
    var q := t[|v.bytes[x]|..];
    assert t == v.bytes[x] + q;
    CoversSplit(v, v.bytes[x], q);
    BpeIsChain(v, q);
    if q == [] { BpeOfNothing(v); } else { BpeNonempty(v, q); }
    assert IsChain(v, [x]);
    ChainConcat(v, [x], Bpe(v, q));
    DecodeOne(v, x);
    DecodeConcat(v, [x], Bpe(v, q));
    ChainIsBpe(v, [x] + Bpe(v, q));
  }

  /** A token the text starts with is the first one exactly if it passes the test. */
  lemma CandidateFirst(v: Vocab, t: seq<byte>, x: nat)
    requires WellFormed(v) && Covers(v, t) && t != [] && x < |v.bytes| && v.bytes[x] <= t
    ensures var q := t[|v.bytes[x]|..];
            if q == [] then x == FirstToken(v, t)
            else FirstToken(v, q) < |v.bytes| && (ValidPair(v, x, FirstToken(v, q)) <==> x == FirstToken(v, t))
  {
    var q := t[|v.bytes[x]|..];
    assert t == v.bytes[x] + q;
    hide *;
    CoversSplit(v, v.bytes[x], q);
    FirstSplits(v, t);
    if q == [] {
      FirstIs(v, t, x);
    } else {
      FirstSplits(v, q);
      if ValidPair(v, x, FirstToken(v, q)) {
        FirstIs(v, t, x);
      }
    }
  }

  // ---- Reading backwards --------------------------------------------------------------------

  lemma {:induction false} ReverseConcat(s: seq<byte>, t: seq<byte>)
    ensures Reverse(s + t) == Reverse(t) + Reverse(s)
  {
    if s == [] {
      assert s + t == t;
    } else {
      ReverseConcat(s[1..], t);
      assert (s + t)[1..] == s[1..] + t;
    }
  }

  /** A word ends the reversed text exactly if, turned around, it starts the text. */
  lemma SuffixOfReverse(w: seq<byte>, t: seq<byte>)
    ensures IsSuffix(Reverse(w), Reverse(t)) <==> w <= t
  {
    if w <= t {
      assert t == w + t[|w|..];
      ReverseConcat(w, t[|w|..]);
    }
    if IsSuffix(Reverse(w), Reverse(t)) {
      var a := Reverse(t)[..|t| - |w|];
      assert Reverse(t) == a + Reverse(w);
      ReverseConcat(a, Reverse(w));
      ReverseTwice(t);
      ReverseTwice(w);
    }
  }

  /** m is one of the tokens t starts with, with its length. */
  ghost predicate StartsWith(v: Vocab, t: seq<byte>, m: Match) {
    m.token < |v.bytes| && 0 < m.length == |v.bytes[m.token]| && v.bytes[m.token] <= t
  }

  lemma AllBeginnings(v: Vocab, t: seq<byte>)
    requires WellFormed(v)
    ensures forall m :: m in SuffixMatches(TokenDict(v.bytes, |v.bytes|, true), Reverse(t)) <==> StartsWith(v, t, m)
  {
    var d := TokenDict(v.bytes, |v.bytes|, true);
    TokenDictExact(v.bytes, |v.bytes|, true);
    SuffixMatchesExact(d, Reverse(t));
    hide SuffixMatches, TokenDict;
    forall m: Match ensures m in SuffixMatches(d, Reverse(t)) <==> StartsWith(v, t, m) {
      if m.token < |v.bytes| {
        assert ShapeAt(v, m.token);
        SuffixOfReverse(v.bytes[m.token], t);
        assert Word(v.bytes, m.token, true) == Reverse(v.bytes[m.token]);
      }
    }
  }

  // ---- The encoder ----------------------------------------------------------------------------

  datatype PrepState = PrepState(acState: int, prevToken: nat, count: nat)

  /** The state of the backward automaton after reading t from its end to its start. */
  ghost function BackwardState(bpe: BytePairEncoding, t: seq<byte>): int
    requires Ready(bpe)
  {
    StateAfter(bpe.overlappingRev, TokenDict(bpe.vocab.bytes, |bpe.vocab.bytes|, true), Reverse(t))
  }

  ghost function StateFor(bpe: BytePairEncoding, t: seq<byte>): PrepState
    requires Ready(bpe)
  {
    PrepState(BackwardState(bpe, t), FirstToken(bpe.vocab, t), |Bpe(bpe.vocab, t)|)
  }

  /** The last n bytes. */
  function Tail(t: seq<byte>, n: nat): seq<byte>
    requires n <= |t|
  {
    t[|t| - n..]
  }

  /** states[i] describes the last i + 1 bytes. */
  ghost predicate StatesFor(bpe: BytePairEncoding, t: seq<byte>, states: seq<PrepState>)
    requires Ready(bpe)
  {
    |states| == |t| && forall i :: 0 <= i < |t| ==> states[i] == StateFor(bpe, Tail(t, i + 1))
  }

  /** The inner loop of prependable_encoder_push: of the tokens the text starts with, exactly
      one is the whole text or may stand before the encoding after it. */
  method ChooseFirst(bpe: BytePairEncoding, it: MatchIter, ghost t: seq<byte>, states: seq<PrepState>)
      returns (token: nat, start: nat)
    requires Ready(bpe) && t != [] && Covers(bpe.vocab, t)
    requires StatesFor(bpe, t[1..], states)
    requires it.Valid() && it.pendingEnd == |t|
    requires it.Pending() == SuffixMatches(TokenDict(bpe.vocab.bytes, |bpe.vocab.bytes|, true), Reverse(t))
    modifies it`pendingOut
    ensures token == FirstToken(bpe.vocab, t) < |bpe.vocab.bytes|
    ensures start + |bpe.vocab.bytes[token]| == |t| && start <= |states|
  {
    hide *;
    ghost var v := bpe.vocab;
    ReadyVocab(bpe);
    ghost var x := FirstToken(v, t);
    AllBeginnings(v, t);
    FirstStarts(v, t);
    ghost var m := Match(x, |v.bytes[x]|);
    var found := true;
    while found
      invariant it.Valid() && it.pendingEnd == |t|
      invariant found && m in it.Pending() && forall q :: q in it.Pending() ==> StartsWith(v, t, q)
      decreases |it.Pending()|
    {
      ghost var pending := it.Pending();
      found, token, start := it.NextMatch();
      ghost var q := pending[0];
      assert pending == [q] + pending[1..];
      assert q in pending;
      TestFirst(bpe, t, states, q, start);
      if start == 0 {
        return;
      }
      var next_tok := states[start - 1].prevToken;
      var ok := CheckPair(bpe, token, next_tok);
      if ok {
        return;
      }
    }
  }

  lemma FirstStarts(v: Vocab, t: seq<byte>)
    requires WellFormed(v) && Covers(v, t) && t != []
    ensures FirstToken(v, t) < |v.bytes| && StartsWith(v, t, Match(FirstToken(v, t), |v.bytes[FirstToken(v, t)]|))
  {
    FirstSplits(v, t);
    assert ShapeAt(v, FirstToken(v, t));
  }

  /** What the test of one candidate tells. */
  lemma TestFirst(bpe: BytePairEncoding, t: seq<byte>, states: seq<PrepState>, q: Match, start: nat)
    requires Ready(bpe) && Covers(bpe.vocab, t) && t != [] && StartsWith(bpe.vocab, t, q) && start == |t| - q.length
    requires StatesFor(bpe, t[1..], states)
    ensures q.token < |bpe.vocab.bytes| && start + |bpe.vocab.bytes[q.token]| == |t| && start <= |states|
    ensures start == 0 ==> q.token == FirstToken(bpe.vocab, t)
    ensures start > 0 ==>
              && states[start - 1].prevToken < |bpe.vocab.bytes|
              && (ValidPair(bpe.vocab, q.token, states[start - 1].prevToken) <==> q.token == FirstToken(bpe.vocab, t))
  {
    ReadyVocab(bpe);
    hide Ready, WellFormed, Covers, FirstToken, ValidPair, BackwardState, Bpe;
    CandidateFirst(bpe.vocab, t, q.token);
    if start > 0 {
      assert Tail(t[1..], start) == t[q.length..];
      assert states[start - 1] == StateFor(bpe, Tail(t[1..], start));
    }
  }

  class PrependableEncoder {
    const bpe: BytePairEncoding
    var states: seq<PrepState>
    ghost var text: seq<byte>

    ghost predicate Valid()
      reads this
    {
      Ready(bpe) && Covers(bpe.vocab, text) && StatesFor(bpe, text, states)
    }

    constructor (bpe: BytePairEncoding)
      requires Ready(bpe)
      ensures Valid() && text == [] && this.bpe == bpe
    {
      this.bpe := bpe;
      states := [];
      text := [];
    }

    /** prependable_encoder_push: the byte goes in front. */
    method Push(c: byte)
      requires Valid() && IsByteToken(bpe.vocab, c)
      modifies this
      ensures Valid() && text == [c] + old(text)
    {
      hide *;
      ValidFacts(this, c);
      var prev_state := if |states| > 0 then states[|states| - 1].acState else 0;
      ghost var d := TokenDict(bpe.vocab.bytes, |bpe.vocab.bytes|, true);
      var it := new MatchIter(bpe.overlappingRev, prev_state, |states|, d);
      ghost var links := it.Advance(c, |states| + 1, d, Reverse(text));
      ReverseCons(c, text);
      var token, start := ChooseFirst(bpe, it, [c] + text, states);
      CountBefore(bpe, text, c, states, token, start);
      var count := if start == 0 then 1 else states[start - 1].count + 1;
      StatesBefore(bpe, text, c, states, PrepState(it.state, token, count));
      states := states + [PrepState(it.state, token, count)];
      text := [c] + text;
      IsValid(this);
    }

    /** prependable_encoder_extend: the last byte given ends up in front. */
    method Extend(bytes: seq<byte>)
      requires Valid() && Covers(bpe.vocab, bytes)
      modifies this
      ensures Valid() && text == Reverse(bytes) + old(text)
    {
      hide *;
      ReversePrefix(bytes, 0);
      for i := 0 to |bytes|
        invariant Valid() && text == Reverse(bytes[..i]) + old(text)
      {
        ByteCovered(bpe.vocab, bytes, i);
        ReversePrefix(bytes, i);
        Push(bytes[i]);
        assert [bytes[i]] + (Reverse(bytes[..i]) + old(text)) == ([bytes[i]] + Reverse(bytes[..i])) + old(text);
      }
      assert bytes[..|bytes|] == bytes;
    }

    /** prependable_encoder_truncate: keeps the last len bytes. */
    method Truncate(len: nat)
      requires Valid()
      modifies this
      ensures Valid() && text == if len < |old(text)| then Tail(old(text), len) else old(text)
    {
      hide *;
      ValidParts(this);
      if len < |states| {
        StatesCut(bpe, text, states, len);
        states := states[..len];
        text := Tail(text, len);
        IsValid(this);
      }
    }

    /** prependable_encoder_token_count */
    method TokenCount() returns (c: nat)
      requires Valid()
      ensures c == |Bpe(bpe.vocab, text)|
    {
      if |states| == 0 {
        BpeOfNothing(bpe.vocab);
        return 0;
      }
      assert Tail(text, |text|) == text;
      return states[|states| - 1].count;
    }
  }

  lemma ByteCovered(v: Vocab, t: seq<byte>, i: nat)
    requires Covers(v, t) && i < |t|
    ensures IsByteToken(v, t[i])
  {
  }

  lemma ReversePrefix(t: seq<byte>, i: nat)
    requires i <= |t|
    ensures i == 0 ==> Reverse(t[..i]) == []
    ensures i < |t| ==> Reverse(t[..i + 1]) == [t[i]] + Reverse(t[..i])
  {
    if i < |t| {
      assert t[..i + 1] == t[..i] + [t[i]];
      ReverseConcat(t[..i], [t[i]]);
      assert Reverse([t[i]]) == [t[i]];
    }
  }

  lemma ReverseCons(c: byte, t: seq<byte>)
    ensures Reverse(t) + [c] == Reverse([c] + t) && ([c] + t)[1..] == t
  {
  }

  lemma ValidFacts(e: PrependableEncoder, c: byte)
    requires e.Valid() && IsByteToken(e.bpe.vocab, c)
    ensures Ready(e.bpe) && Covers(e.bpe.vocab, e.text) && Covers(e.bpe.vocab, [c] + e.text)
    ensures StatesFor(e.bpe, e.text, e.states)
    ensures |e.states| == |e.text|
    ensures var d := TokenDict(e.bpe.vocab.bytes, |e.bpe.vocab.bytes|, true);
            Recognizes(e.bpe.overlappingRev, d)
            && (if |e.states| > 0 then e.states[|e.states| - 1].acState else 0) ==
               StateAfter(e.bpe.overlappingRev, d, Reverse(e.text))
            && |Reverse(e.text)| == |e.text|
  {
    ValidParts(e);
    hide *;
    CoversCons(e.bpe.vocab, c, e.text);
    AutomatonState(e.bpe, e.text, e.states);
  }

  lemma CoversCons(v: Vocab, c: byte, t: seq<byte>)
    requires IsByteToken(v, c) && Covers(v, t)
    ensures Covers(v, [c] + t)
  {
  }

  lemma ValidParts(e: PrependableEncoder)
    requires e.Valid()
    ensures Ready(e.bpe) && Covers(e.bpe.vocab, e.text) && StatesFor(e.bpe, e.text, e.states) && |e.states| == |e.text|
  {
  }

  lemma AutomatonState(bpe: BytePairEncoding, t: seq<byte>, states: seq<PrepState>)
    requires Ready(bpe) && StatesFor(bpe, t, states)
    ensures var d := TokenDict(bpe.vocab.bytes, |bpe.vocab.bytes|, true);
            Recognizes(bpe.overlappingRev, d)
            && (if |states| > 0 then states[|states| - 1].acState else 0) ==
               StateAfter(bpe.overlappingRev, d, Reverse(t))
            && |Reverse(t)| == |t|
  {
  }

  lemma CountBefore(bpe: BytePairEncoding, t: seq<byte>, c: byte, states: seq<PrepState>, token: nat, start: nat)
    requires Ready(bpe) && Covers(bpe.vocab, [c] + t) && StatesFor(bpe, t, states)
    requires token == FirstToken(bpe.vocab, [c] + t) < |bpe.vocab.bytes| && start + |bpe.vocab.bytes[token]| == |t| + 1
    ensures start <= |states|
    ensures |Bpe(bpe.vocab, [c] + t)| == if start == 0 then 1 else states[start - 1].count + 1
  {
    var v := bpe.vocab;
    ReadyVocab(bpe);
    hide Ready, Covers, BackwardState, Bpe, FirstToken;
    FirstSplits(v, [c] + t);
    FirstStarts(v, [c] + t);
    assert ([c] + t)[|v.bytes[token]|..] == Tail(t, start);
    if start == 0 {
      BpeOfNothing(v);
    } else {
      assert states[start - 1] == StateFor(bpe, Tail(t, start));
    }
  }

  lemma StatesBefore(bpe: BytePairEncoding, t: seq<byte>, c: byte, states: seq<PrepState>, s: PrepState)
    requires Ready(bpe) && StatesFor(bpe, t, states)
    requires s.acState ==
             StateAfter(bpe.overlappingRev, TokenDict(bpe.vocab.bytes, |bpe.vocab.bytes|, true), Reverse([c] + t))
    requires s.prevToken == FirstToken(bpe.vocab, [c] + t) && s.count == |Bpe(bpe.vocab, [c] + t)|
    ensures StatesFor(bpe, [c] + t, states + [s])
  {
    hide Ready, TokenDict, StateAfter, Recognizes, FirstToken, Bpe;
    assert s == StateFor(bpe, [c] + t);
    hide *;
    StatesBeforeBy(bpe, t, c, states, s);
  }

  lemma StatesBeforeBy(bpe: BytePairEncoding, t: seq<byte>, c: byte, states: seq<PrepState>, s: PrepState)
    requires Ready(bpe) && StatesFor(bpe, t, states) && s == StateFor(bpe, [c] + t)
    ensures StatesFor(bpe, [c] + t, states + [s])
  {
    hide *;
    StatesLength(bpe, t, states);
    forall i | 0 <= i < |t| ensures (states + [s])[i] == StateFor(bpe, Tail([c] + t, i + 1)) {
      TailCons(c, t, i + 1);
      StateAt(bpe, t, states, i);
    }
    TailAll([c] + t);
    MakeStates(bpe, [c] + t, states + [s]);
  }

  lemma TailCons(c: byte, t: seq<byte>, n: nat)
    requires n <= |t|
    ensures Tail([c] + t, n) == Tail(t, n)
  {
  }

  lemma TailAll(t: seq<byte>)
    ensures Tail(t, |t|) == t
  {
  }

  lemma StatesLength(bpe: BytePairEncoding, t: seq<byte>, states: seq<PrepState>)
    requires Ready(bpe) && StatesFor(bpe, t, states)
    ensures |states| == |t|
  {
  }

  lemma StateAt(bpe: BytePairEncoding, t: seq<byte>, states: seq<PrepState>, i: nat)
    requires Ready(bpe) && StatesFor(bpe, t, states) && i < |t|
    ensures i < |states| && states[i] == StateFor(bpe, Tail(t, i + 1))
  {
  }

  lemma MakeStates(bpe: BytePairEncoding, t: seq<byte>, states: seq<PrepState>)
    requires Ready(bpe) && |states| == |t| && forall i :: 0 <= i < |t| ==> states[i] == StateFor(bpe, Tail(t, i + 1))
    ensures StatesFor(bpe, t, states)
  {
  }

  lemma StatesCut(bpe: BytePairEncoding, t: seq<byte>, states: seq<PrepState>, len: nat)
    requires Ready(bpe) && StatesFor(bpe, t, states) && len <= |t| && Covers(bpe.vocab, t)
    ensures len <= |states| && StatesFor(bpe, Tail(t, len), states[..len]) && Covers(bpe.vocab, Tail(t, len))
  {
    hide *;
    CoversTail(bpe.vocab, t, len);
    StatesLength(bpe, t, states);
    var u, cut := Tail(t, len), states[..len];
    TailLength(t, len);
    forall i | 0 <= i < len ensures cut[i] == StateFor(bpe, Tail(u, i + 1)) {
      TailOfTail(t, len, i + 1);
      StateAt(bpe, t, states, i);
    }
    MakeStates(bpe, u, cut);
  }

  lemma CoversTail(v: Vocab, t: seq<byte>, n: nat)
    requires Covers(v, t) && n <= |t|
    ensures Covers(v, Tail(t, n))
  {
  }

  lemma TailLength(t: seq<byte>, n: nat)
    requires n <= |t|
    ensures |Tail(t, n)| == n
  {
  }

  lemma TailOfTail(t: seq<byte>, n: nat, k: nat)
    requires k <= n <= |t|
    ensures |Tail(t, n)| == n && Tail(Tail(t, n), k) == Tail(t, k)
  {
  }

  lemma IsValid(e: PrependableEncoder)
    requires Ready(e.bpe) && Covers(e.bpe.vocab, e.text) && StatesFor(e.bpe, e.text, e.states)
    ensures e.Valid()
  {
  }
}
