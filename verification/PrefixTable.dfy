/** Encoding with one remembered token per prefix. */
module PrefixTable {
  import opened Vocabulary
  import opened Merging
  import opened Chain
  import opened AhoCorasick
  import opened Automata
  import opened Tables

  const SIZE_MAX := 0xFFFF_FFFF_FFFF_FFFF

  // ---- The last token determines the encoding ------------------------------------------

  /** The last token of the encoding of t. */
  ghost function LastToken(v: Vocab, t: seq<byte>): nat {
    if Bpe(v, t) == [] then 0 else Last(Bpe(v, t))
  }

  lemma BpeOfNothing(v: Vocab)
    ensures Bpe(v, []) == []
  {
  }

  lemma BpeNonempty(v: Vocab, t: seq<byte>)
    requires WellFormed(v) && Covers(v, t) && t != []
    ensures Bpe(v, t) != []
  {
    BpeIsChain(v, t);
  }

  lemma BpeEmptyIff(v: Vocab, t: seq<byte>)
    requires WellFormed(v) && Covers(v, t)
    ensures Bpe(v, t) == [] <==> t == []
  {
    if t == [] {
      BpeOfNothing(v);
    } else {
      BpeNonempty(v, t);
    }
  }

  lemma {:induction false} DecodeSnoc(v: Vocab, s: seq<nat>)
    requires Tokens(v, s) && s != []
    ensures Tokens(v, s[..|s| - 1]) && Decode(v, s) == Decode(v, s[..|s| - 1]) + v.bytes[Last(s)]
  {
    DecodeOne(v, Last(s));
    DecodeConcat(v, s[..|s| - 1], [Last(s)]);
    assert s == s[..|s| - 1] + [Last(s)];
  }

  /** Taking the last token off an encoding leaves the encoding of the shorter text. */
  lemma LastSplits(v: Vocab, t: seq<byte>)
    requires WellFormed(v) && Covers(v, t) && t != []
    ensures var x := LastToken(v, t);
            && x < |v.bytes| && IsSuffix(v.bytes[x], t)
            && var p := t[..|t| - |v.bytes[x]|];
            && Covers(v, p) && Bpe(v, t) == Bpe(v, p) + [x]
            && (p == [] || ValidPair(v, LastToken(v, p), x))
  {
    var s := Bpe(v, t);
    BpeIsChain(v, t);
    BpeNonempty(v, t);
    var s', x := s[..|s| - 1], Last(s);
    assert s == s' + [x];
    DecodeSnoc(v, s);
    ChainConcat(v, s', [x]);
    ChainIsBpe(v, s');
    var p := t[..|t| - |v.bytes[x]|];
    assert p == Decode(v, s');
    CoversSplit(v, p, v.bytes[x]);
    if p != [] { BpeNonempty(v, p); }
  }

  /** A token that may follow the encoding of the text before it ends the encoding. */
  lemma LastIs(v: Vocab, t: seq<byte>, x: nat)
    requires WellFormed(v) && Covers(v, t) && x < |v.bytes| && IsSuffix(v.bytes[x], t)
    requires var p := t[..|t| - |v.bytes[x]|]; p == [] || ValidPair(v, LastToken(v, p), x)
    ensures var p := t[..|t| - |v.bytes[x]|]; Bpe(v, t) == Bpe(v, p) + [x] && LastToken(v, t) == x
  {
    var p := t[..|t| - |v.bytes[x]|];
    assert t == p + v.bytes[x];
    CoversSplit(v, p, v.bytes[x]);
    BpeIsChain(v, p);
    if p == [] { BpeOfNothing(v); } else { BpeNonempty(v, p); }
    assert IsChain(v, [x]);
    ChainConcat(v, Bpe(v, p), [x]);
    DecodeOne(v, x);
    DecodeConcat(v, Bpe(v, p), [x]);
    ChainIsBpe(v, Bpe(v, p) + [x]);
  }

  lemma SuffixSize(v: Vocab, t: seq<byte>, x: nat)
    requires WellFormed(v) && x < |v.bytes| && IsSuffix(v.bytes[x], t)
    ensures 0 < |v.bytes[x]| <= |t|
  {
    assert ShapeAt(v, x);
  }

  lemma CoversPrefix(v: Vocab, t: seq<byte>, i: nat)
    requires Covers(v, t) && i <= |t|
    ensures Covers(v, t[..i])
  {
  }

  /** last[p] ends the encoding of the first p + 1 bytes. */
  ghost predicate PrefixLasts(v: Vocab, text: seq<byte>, last: seq<nat>) {
    |last| <= |text| && forall p :: 0 <= p < |last| ==> last[p] == LastToken(v, text[..p + 1])
  }

  // ---- Choosing the last token ------------------------------------------------------------

  lemma LastTokenBound(v: Vocab, text: seq<byte>, i: nat)
    requires WellFormed(v) && Covers(v, text) && 0 < i <= |text|
    ensures LastToken(v, text[..i]) < |v.bytes|
  {
    hide *;
    CoversPrefix(v, text, i);
    LastSplits(v, text[..i]);
  }

  lemma LastFits(v: Vocab, text: seq<byte>, x: nat)
    requires WellFormed(v) && Covers(v, text) && text != []
    requires x < |v.bytes| && IsSuffix(v.bytes[x], text) && x == LastToken(v, text)
    ensures var p := text[..|text| - |v.bytes[x]|]; p == [] || ValidPair(v, LastToken(v, p), x)
  {
    hide *;
    LastSplits(v, text);
  }

  /** A token the text ends with is the last one exactly if it passes the test. */
  lemma Candidate(v: Vocab, text: seq<byte>, x: nat)
    requires WellFormed(v) && Covers(v, text) && text != []
    requires x < |v.bytes| && IsSuffix(v.bytes[x], text)
    ensures var p := text[..|text| - |v.bytes[x]|];
            if p == [] then x == LastToken(v, text)
            else LastToken(v, p) < |v.bytes| && (ValidPair(v, LastToken(v, p), x) <==> x == LastToken(v, text))
  {
    var i := |text| - |v.bytes[x]|;
    hide *;
    if i > 0 {
      LastTokenBound(v, text, i);
    }
    if x == LastToken(v, text) {
      LastFits(v, text, x);
    } else if i == 0 || ValidPair(v, LastToken(v, text[..i]), x) {
      LastIs(v, text, x);
    }
  }

  /** m is one of the tokens the text ends with, with its length. */
  ghost predicate EndsWith(v: Vocab, text: seq<byte>, m: Match) {
    m.token < |v.bytes| && 0 < m.length == |v.bytes[m.token]| && IsSuffix(v.bytes[m.token], text)
  }

  lemma AllEndings(v: Vocab, text: seq<byte>)
    requires WellFormed(v)
    ensures forall m :: m in SuffixMatches(TokenDict(v.bytes, |v.bytes|, false), text) <==> EndsWith(v, text, m)
  {
    TokensEndingAt(v, text);
    hide SuffixMatches, TokenDict;
    forall m: Match | m.token < |v.bytes| ensures v.bytes[m.token] != [] {
      assert ShapeAt(v, m.token);
    }
  }

  lemma LastEnds(v: Vocab, text: seq<byte>)
    requires WellFormed(v) && Covers(v, text) && text != []
    ensures LastToken(v, text) < |v.bytes|
    ensures EndsWith(v, text, Match(LastToken(v, text), |v.bytes[LastToken(v, text)]|))
  {
    LastSplits(v, text);
    assert ShapeAt(v, LastToken(v, text));
  }

  /** The inner loop of bpe_encode_all_prefixes and appendable_encoder_push: of the tokens
      the text ends with, exactly one starts the text or may follow the encoding before it. */
  method ChooseLast(bpe: BytePairEncoding, it: MatchIter, ghost text: seq<byte>, last: seq<nat>)
      returns (found: bool, token: nat, start: nat)
    requires Ready(bpe) && text != [] && Covers(bpe.vocab, text)
    requires |last| == |text| - 1 && PrefixLasts(bpe.vocab, text, last)
    requires it.Valid() && it.pendingEnd == |text|
    requires it.Pending() == SuffixMatches(TokenDict(bpe.vocab.bytes, |bpe.vocab.bytes|, false), text)
    modifies it`pendingOut
    ensures found && token == LastToken(bpe.vocab, text)
    ensures token < |bpe.vocab.bytes| && start + |bpe.vocab.bytes[token]| == |text|
  {
    ghost var v := bpe.vocab;
    assert WellFormed(v);
    hide *;
    ghost var x := LastToken(v, text);
    AllEndings(v, text);
    LastEnds(v, text);
    ghost var m := Match(x, |v.bytes[x]|);
    found := true;
    while found
      invariant it.Valid() && it.pendingEnd == |text|
      invariant found ==> m in it.Pending() && forall q :: q in it.Pending() ==> EndsWith(v, text, q)
      invariant found
      decreases |it.Pending()|
    {
      ghost var pending := it.Pending();
      found, token, start := it.NextMatch();
      ghost var q := pending[0];
      assert pending == [q] + pending[1..];
      assert q in pending;
      Test(v, text, last, q, start);
      if start == 0 {
        return;
      }
      var prev := last[start - 1];
      var ok := CheckPair(bpe, prev, token);
      if ok {
        return;
      }
    }
  }

  /** What the test of one candidate tells. */
  lemma Test(v: Vocab, text: seq<byte>, last: seq<nat>, q: Match, start: nat)
    requires WellFormed(v) && Covers(v, text) && text != [] && EndsWith(v, text, q) && start == |text| - q.length
    requires |last| == |text| - 1 && PrefixLasts(v, text, last)
    ensures q.token < |v.bytes| && start + |v.bytes[q.token]| == |text| && q.length == |v.bytes[q.token]|
    ensures start == 0 ==> q.token == LastToken(v, text)
    ensures start > 0 ==>
              && start - 1 < |last| && last[start - 1] < |v.bytes|
              && (ValidPair(v, last[start - 1], q.token) <==> q.token == LastToken(v, text))
  {
    hide WellFormed, Covers, LastToken, ValidPair;
    Candidate(v, text, q.token);
  }

  // ---- The prefix table ---------------------------------------------------------------------

  lemma NoLasts(v: Vocab, text: seq<byte>)
    ensures PrefixLasts(v, text, [])
  {
  }

  lemma PrefixLastsNext(v: Vocab, text: seq<byte>, last: seq<nat>, token: nat)
    requires PrefixLasts(v, text, last) && |last| < |text| && token == LastToken(v, text[..|last| + 1])
    ensures PrefixLasts(v, text, last + [token])
  {
  }

  lemma PrefixLastsCut(v: Vocab, text: seq<byte>, last: seq<nat>, i: nat)
    requires PrefixLasts(v, text, last) && |last| <= i <= |text|
    ensures PrefixLasts(v, text[..i], last)
  {
    forall p | 0 <= p < |last| ensures last[p] == LastToken(v, text[..i][..p + 1]) {
      assert text[..i][..p + 1] == text[..p + 1];
    }
  }

  /** The state of the forward automaton after t. */
  ghost function ForwardState(bpe: BytePairEncoding, t: seq<byte>): int
    requires Ready(bpe)
  {
    StateAfter(bpe.overlapping, TokenDict(bpe.vocab.bytes, |bpe.vocab.bytes|, false), t)
  }

  /** How much of the end of t the forward automaton spells. */
  ghost function ForwardDepth(bpe: BytePairEncoding, t: seq<byte>): nat {
    |LongestSuffix(TokenDict(bpe.vocab.bytes, |bpe.vocab.bytes|, false), t)|
  }

  lemma ForwardIs(bpe: BytePairEncoding, t: seq<byte>)
    requires Ready(bpe)
    ensures var d := TokenDict(bpe.vocab.bytes, |bpe.vocab.bytes|, false);
            && Recognizes(bpe.overlapping, d) && ForwardState(bpe, t) == StateAfter(bpe.overlapping, d, t)
            && ForwardDepth(bpe, t) == |LongestSuffix(d, t)|
  {
  }

  lemma ForwardStart(bpe: BytePairEncoding)
    requires Ready(bpe)
    ensures ForwardState(bpe, []) == 0 && ForwardDepth(bpe, []) == 0
  {
  }

  /** One byte read: the automaton moves on and the last token of the longer text is found. */
  method NextLast(bpe: BytePairEncoding, state: int, ghost t: seq<byte>, c: byte, last: seq<nat>)
      returns (state': int, token: nat, start: nat, ghost links: nat)
    requires Ready(bpe) && Covers(bpe.vocab, t + [c]) && |last| == |t| && PrefixLasts(bpe.vocab, t, last)
    requires state == ForwardState(bpe, t)
    ensures state' == ForwardState(bpe, t + [c])
    ensures token == LastToken(bpe.vocab, t + [c]) < |bpe.vocab.bytes|
    ensures start + |bpe.vocab.bytes[token]| == |t| + 1
    ensures ForwardDepth(bpe, t + [c]) + links <= ForwardDepth(bpe, t) + 1
  {
    ghost var d := TokenDict(bpe.vocab.bytes, |bpe.vocab.bytes|, false);
    hide *;
    ForwardIs(bpe, t);
    ForwardIs(bpe, t + [c]);
    PrefixLastsMore(bpe.vocab, t, last, c);
    var it := new MatchIter(bpe.overlapping, state, |last|, d);
    links := it.Advance(c, |last| + 1, d, t);
    var found;
    found, token, start := ChooseLast(bpe, it, t + [c], last);
    state' := it.state;
  }

  lemma PrefixLastsMore(v: Vocab, t: seq<byte>, last: seq<nat>, c: byte)
    requires PrefixLasts(v, t, last)
    ensures PrefixLasts(v, t + [c], last)
  {
    assert (t + [c])[..|t|] == t;
    forall p | 0 <= p < |last| ensures last[p] == LastToken(v, (t + [c])[..p + 1]) {
      assert (t + [c])[..p + 1] == t[..p + 1];
    }
  }

  /** bpe_encode_all_prefixes */
  method EncodeAllPrefixes(bpe: BytePairEncoding, text: seq<byte>) returns (lastToken: array<nat>, ghost links: nat)
    requires Ready(bpe) && Covers(bpe.vocab, text)
    ensures fresh(lastToken) && lastToken.Length == |text|
    ensures PrefixLasts(bpe.vocab, text, lastToken[..])
    ensures links <= |text|
  {
    hide *;
    ForwardStart(bpe);
    assert text[..0] == [];
    lastToken := new nat[|text|](_ => 0);
    var state := 0;
    links := 0;
    NoLasts(bpe.vocab, text);
    for pos := 0 to |text|
      invariant state == ForwardState(bpe, text[..pos])
      invariant PrefixLasts(bpe.vocab, text, lastToken[..pos])
      invariant ForwardDepth(bpe, text[..pos]) + links <= pos
    {
      assert text[..pos] + [text[pos]] == text[..pos + 1];
      CoversPrefix(bpe.vocab, text, pos + 1);
      PrefixLastsCut(bpe.vocab, text, lastToken[..pos], pos);
      var token, start;
      ghost var more;
      state, token, start, more := NextLast(bpe, state, text[..pos], text[pos], lastToken[..pos]);
      links := links + more;
      PrefixLastsNext(bpe.vocab, text, lastToken[..pos], token);
      lastToken[pos] := token;
      assert lastToken[..pos + 1] == lastToken[..pos] + [token];
    }
    assert lastToken[..|text|] == lastToken[..];
  }

  lemma ReadyVocab(bpe: BytePairEncoding)
    requires Ready(bpe)
    ensures WellFormed(bpe.vocab) && Shape(bpe.vocab) && DistinctBytes(bpe.vocab)
  {
  }

  /** bpe_encode_via_table.  None stands for the reversal leaving its array, which the empty text makes it do. */
  method EncodeViaTable(bpe: BytePairEncoding, text: seq<byte>) returns (tokens: Option<seq<nat>>)
    requires Ready(bpe) && Covers(bpe.vocab, text) && |text| < SIZE_MAX
    ensures tokens == if text == [] then None else Some(Bpe(bpe.vocab, text))
  {
    hide *;
    ghost var v := bpe.vocab;
    ghost var s := Bpe(v, text);
    ReadyVocab(bpe);
    BpeLength(v, text);
    BpeEmptyIff(v, text);
    var lasts, links := EncodeAllPrefixes(bpe, text);
    var last := lasts[..];
    var result := new nat[|text| + 1](_ => 0);
    var count: nat := 0;
    var pos: nat := |text|;
    assert text[..|text|] == text && s[..|s|] == s;
    while pos > 0
      invariant pos <= |text| && count <= |s| && Bpe(v, text[..pos]) == s[..|s| - count]
      invariant forall k :: 0 <= k < count ==> result[k] == s[|s| - 1 - k]
    {
      WalkBack(v, text, last, pos, s, count);
      var tok := last[pos - 1];
      result[count] := tok;
      count := count + 1;
      pos := pos - |bpe.vocab.bytes[tok]|;
    }
    WalkedBack(v, text, s, count);
    assert s == [] <==> count == 0;
    var inside := ReverseInPlace(result, count);
    assert inside ==> result[..count] == s;
    tokens := if inside then Some(result[..count]) else None;
  }

  /**
    * The reversal loop of bpe_encode_via_table.  Its second index starts at count - 1 in size_t, which wraps around
    * when count is 0; the result says whether every index stayed inside the array.
    */
  method ReverseInPlace(a: array<nat>, count: nat) returns (inside: bool)
    requires count <= a.Length <= SIZE_MAX
    modifies a
    ensures inside <==> count > 0
    ensures inside ==> forall k :: 0 <= k < count ==> a[k] == old(a[count - 1 - k])
  {
    var i, j := 0, (count + SIZE_MAX) % (SIZE_MAX + 1);
    while i < j
      invariant if count == 0 then i == 0 && j == SIZE_MAX else i + j == count - 1 && 0 <= i <= j + 1
      invariant forall k :: 0 <= k < i || j < k < count ==> a[k] == old(a[count - 1 - k])
      invariant forall k :: i <= k <= j && k < count ==> a[k] == old(a[k])
    {
      if j >= a.Length {
        return false;
      }
      a[i], a[j] := a[j], a[i];
      i, j := i + 1, j - 1;
    }
    return true;
  }

  /** One step of the walk: the token remembered at pos, then the encoding before it. */
  lemma WalkBack(v: Vocab, text: seq<byte>, last: seq<nat>, pos: nat, s: seq<nat>, count: nat)
    requires WellFormed(v) && Covers(v, text) && 0 < pos <= |text| == |last| && PrefixLasts(v, text, last)
    requires count <= |s| && Bpe(v, text[..pos]) == s[..|s| - count]
    ensures count < |s| && last[pos - 1] == s[|s| - 1 - count]
    ensures last[pos - 1] < |v.bytes| && 0 < |v.bytes[last[pos - 1]]| <= pos
    ensures Bpe(v, text[..pos - |v.bytes[last[pos - 1]]|]) == s[..|s| - (count + 1)]
  {
    hide WellFormed, Covers;
    var t := text[..pos];
    CoversPrefix(v, text, pos);
    LastSplits(v, t);
    LastEnds(v, t);
    BpeNonempty(v, t);
    var x := LastToken(v, t);
    assert t[..|t| - |v.bytes[x]|] == text[..pos - |v.bytes[x]|];
  }

  lemma WalkedBack(v: Vocab, text: seq<byte>, s: seq<nat>, count: nat)
    requires count <= |s| && Bpe(v, text[..0]) == s[..|s| - count]
    ensures count == |s|
  {
  }

  lemma {:induction false} DecodeLength(v: Vocab, s: seq<nat>)
    requires Shape(v) && Tokens(v, s)
    ensures |s| <= |Decode(v, s)|
  {
    if s != [] {
      assert ShapeAt(v, s[0]);
      DecodeLength(v, s[1..]);
    }
  }

  lemma BpeLength(v: Vocab, t: seq<byte>)
    requires WellFormed(v) && Covers(v, t)
    ensures |Bpe(v, t)| <= |t|
  {
    BpeIsChain(v, t);
    DecodeLength(v, Bpe(v, t));
  }

  // ---- Decoding ------------------------------------------------------------------------------

  /** bpe_decode_tokens: rejects unknown identifiers, otherwise concatenates. */
  method DecodeTokens(bpe: BytePairEncoding, tokens: seq<nat>) returns (r: Option<seq<byte>>)
    ensures r == if Tokens(bpe.vocab, tokens) then Some(Decode(bpe.vocab, tokens)) else None
    ensures forall t :: WellFormed(bpe.vocab) && Covers(bpe.vocab, t) && tokens == Bpe(bpe.vocab, t) ==> r == Some(t)
  {
    hide WellFormed, Covers, Bpe;
    ghost var v := bpe.vocab;
    forall t | WellFormed(v) && Covers(v, t) && tokens == Bpe(v, t)
      ensures Tokens(v, tokens) && Decode(v, tokens) == t
    {
      BpeIsChain(v, t);
    }
    for i := 0 to |tokens|
      invariant forall k :: 0 <= k < i ==> tokens[k] < |v.bytes|
    {
      if tokens[i] >= |bpe.vocab.bytes| {
        return None;
      }
    }
    var buf: seq<byte> := [];
    for i := 0 to |tokens|
      invariant buf == Decode(v, tokens[..i])
    {
      assert tokens[..i + 1][..i] == tokens[..i];
      DecodeSnoc(v, tokens[..i + 1]);
      buf := buf + bpe.vocab.bytes[tokens[i]];
    }
    assert tokens[..|tokens|] == tokens;
    return Some(buf);
  }
}
