/** Encoding by backtracking. */
module Backtrack {

  // The encoder guesses the longest token, steps back from dead ends and remembers them.

  import opened Vocabulary
  import opened Merging
  import opened Chain
  import opened BitFields
  import opened Tables
  import opened PrefixTable
  import FailureLinks

  // ---- What the encoder's state means -------------------------------------------------

  /** The encoding of the whole text passes through position p. */
  ghost predicate Boundary(v: Vocab, text: seq<byte>, p: nat)
    requires p <= |text|
  {
    Bpe(v, text[..p]) <= Bpe(v, text)
  }

  /** Token y can be read at the end of the stack s. */
  ghost predicate Fits(v: Vocab, text: seq<byte>, s: seq<nat>, y: nat)
    requires Tokens(v, s)
  {
    && y < |v.bytes| && |Decode(v, s)| + |v.bytes[y]| <= |text|
    && text[|Decode(v, s)|..|Decode(v, s)| + |v.bytes[y]|] == v.bytes[y]
  }

  /** Token y cannot follow the stack s: the pair check refuses it, or it ends at a position
      already known to lead nowhere. */
  ghost predicate Rejected(v: Vocab, bits: seq<bool>, s: seq<nat>, y: nat)
    requires Tokens(v, s) && y < |v.bytes|
  {
    (s != [] && !ValidPair(v, Last(s), y))
    || (|Decode(v, s)| + |v.bytes[y]| < |bits| && !bits[|Decode(v, s)| + |v.bytes[y]|])
  }

  /** Every token longer than len that can be read after s has been refused. */
  ghost predicate LongerRejected(v: Vocab, text: seq<byte>, bits: seq<bool>, s: seq<nat>, len: nat)
    requires Tokens(v, s)
  {
    forall y: nat :: Fits(v, text, s, y) && len < |v.bytes[y]| ==> Rejected(v, bits, s, y)
  }

  ghost predicate AllRejected(v: Vocab, text: seq<byte>, bits: seq<bool>, s: seq<nat>)
    requires Tokens(v, s)
  {
    forall y: nat :: Fits(v, text, s, y) ==> Rejected(v, bits, s, y)
  }

  ghost predicate StackRejected(v: Vocab, text: seq<byte>, bits: seq<bool>, s: seq<nat>)
    requires Tokens(v, s)
  {
    forall i :: 0 <= i < |s| ==> Tokens(v, s[..i]) && LongerRejected(v, text, bits, s[..i], |v.bytes[s[i]]|)
  }

  /** A cleared bit marks a position the encoding does not pass through. */
  ghost predicate DeadBits(v: Vocab, text: seq<byte>, bits: seq<bool>) {
    |text| < |bits| && forall p :: 0 <= p <= |text| && !bits[p] ==> !Boundary(v, text, p)
  }

  /** s is the encoding of the first pos bytes. */
  ghost predicate Stack(v: Vocab, text: seq<byte>, s: seq<nat>, pos: nat) {
    IsChain(v, s) && pos <= |text| && Decode(v, s) == text[..pos]
  }

  /** next, if any, fits after the stack, and every longer token has been refused. */
  ghost predicate NextOk(v: Vocab, text: seq<byte>, bits: seq<bool>, s: seq<nat>, pos: nat, next: Option<nat>)
    requires Tokens(v, s)
  {
    match next
    case None => pos == |text| || (0 < |bits| && !bits[0])
    case Some(x) => Fits(v, text, s, x) && LongerRejected(v, text, bits, s, |v.bytes[x]|)
  }

  ghost predicate OnStack(v: Vocab, s: seq<nat>, p: nat)
    requires Tokens(v, s)
  {
    exists i :: 0 <= i <= |s| && Tokens(v, s[..i]) && |Decode(v, s[..i])| == p
  }

  /** Positions accepted so far: each is still on the stack or its bit is cleared. */
  ghost predicate SeenOk(v: Vocab, text: seq<byte>, bits: seq<bool>, s: seq<nat>, seen: set<nat>)
    requires Tokens(v, s)
  {
    forall p :: p in seen ==> 0 < p <= |text| && (p < |bits| && bits[p] ==> OnStack(v, s, p))
  }

  ghost predicate State(v: Vocab, text: seq<byte>, bits: seq<bool>, s: seq<nat>, pos: nat, next: Option<nat>,
                        seen: set<nat>)
  {
    && WellFormed(v) && Covers(v, text)
    && DeadBits(v, text, bits)
    && Stack(v, text, s, pos)
    && StackRejected(v, text, bits, s)
    && NextOk(v, text, bits, s, pos, next)
    && SeenOk(v, text, bits, s, seen)
  }

  // ---- Facts about boundaries --------------------------------------------------------

  /** The stack is the encoding of its text. */
  lemma StackIsBpe(v: Vocab, text: seq<byte>, s: seq<nat>, pos: nat)
    requires WellFormed(v) && Stack(v, text, s, pos)
    ensures Bpe(v, text[..pos]) == s
  {
    ChainIsBpe(v, s);
  }

  lemma StartIsBoundary(v: Vocab, text: seq<byte>)
    ensures Boundary(v, text, 0)
  {
  }

  /** Where the encoding passes through a position, its next token fits there, may follow
      the stack, and ends at another such position. */
  lemma NextBoundary(v: Vocab, text: seq<byte>, s: seq<nat>, pos: nat) returns (y: nat)
    requires WellFormed(v) && Covers(v, text) && Stack(v, text, s, pos) && pos < |text| && Boundary(v, text, pos)
    ensures Tokens(v, s) && Fits(v, text, s, y) && (s != [] ==> ValidPair(v, Last(s), y))
    ensures Boundary(v, text, pos + |v.bytes[y]|)
    ensures |s| < |Bpe(v, text)| && y == Bpe(v, text)[|s|]
  {
    hide WellFormed, Covers, Bpe, ValidPair;
    StackIsBpe(v, text, s, pos);
    BpeIsChain(v, text);
    var w := Bpe(v, text);
    assert w != s;
    y := w[|s|];
    var u := w[..|s| + 1];
    assert u == s + [y];
    assert w == u + w[|s| + 1..];
    ChainConcat(v, u, w[|s| + 1..]);
    ChainConcat(v, s, [y]);
    DecodeOne(v, y);
    DecodeConcat(v, s, [y]);
    DecodeConcat(v, u, w[|s| + 1..]);
    var q := pos + |v.bytes[y]|;
    assert text[..q] == Decode(v, u);
    ChainIsBpe(v, u);
    FitsHere(v, text, s, pos, y, w[|s| + 1..]);
  }

  lemma FitsHere(v: Vocab, text: seq<byte>, s: seq<nat>, pos: nat, y: nat, rest: seq<nat>)
    requires Tokens(v, s) && Tokens(v, rest) && y < |v.bytes| && pos <= |text| && Decode(v, s) == text[..pos]
    requires text == (Decode(v, s) + v.bytes[y]) + Decode(v, rest)
    ensures Fits(v, text, s, y)
  {
  }

  /** If every token that fits has been refused, the encoding does not pass through here. */
  lemma DeadEnd(v: Vocab, text: seq<byte>, bits: seq<bool>, s: seq<nat>, pos: nat)
    requires WellFormed(v) && Covers(v, text) && Stack(v, text, s, pos) && DeadBits(v, text, bits) && pos < |text|
    requires AllRejected(v, text, bits, s)
    ensures !Boundary(v, text, pos)
  {
    if Boundary(v, text, pos) {
      var y := NextBoundary(v, text, s, pos);
      hide WellFormed, Covers, Boundary, ValidPair, Bpe;
    }
  }

  // ---- The moves ------------------------------------------------------------------------

  lemma FitsPrefix(v: Vocab, text: seq<byte>, s: seq<nat>, pos: nat, y: nat)
    requires Tokens(v, s) && pos <= |text| && Decode(v, s) == text[..pos] && y < |v.bytes|
    ensures Fits(v, text, s, y) <==> v.bytes[y] <= text[pos..]
  {
  }

  /** A refused token gives way to the next shorter one. */
  lemma Shorter(v: Vocab, text: seq<byte>, bits: seq<bool>, s: seq<nat>, pos: nat, x: nat, r: Option<nat>)
    requires DistinctBytes(v) && Tokens(v, s) && pos <= |text| && Decode(v, s) == text[..pos]
    requires Fits(v, text, s, x) && LongerRejected(v, text, bits, s, |v.bytes[x]|) && Rejected(v, bits, s, x)
    requires IsNextPrefix(v, x, r)
    ensures r.Some? ==> Fits(v, text, s, r.value) && LongerRejected(v, text, bits, s, |v.bytes[r.value]|)
    ensures r.Some? ==> |v.bytes[r.value]| < |v.bytes[x]|
    ensures r.None? ==> AllRejected(v, text, bits, s)
  {
    FitsPrefix(v, text, s, pos, x);
    forall y: nat | Fits(v, text, s, y) && (r.Some? ==> |v.bytes[r.value]| < |v.bytes[y]|)
      ensures Rejected(v, bits, s, y)
    {
      FitsPrefix(v, text, s, pos, y);
      if |v.bytes[y]| <= |v.bytes[x]| {
        assert v.bytes[y] <= v.bytes[x];
        if |v.bytes[y]| == |v.bytes[x]| {
          assert v.bytes[y] == v.bytes[x];
        }
      }
    }
    if r.Some? {
      FitsPrefix(v, text, s, pos, r.value);
    }
  }

  /** A longest token leaves nothing longer to refuse. */
  lemma LongestNext(v: Vocab, text: seq<byte>, bits: seq<bool>, s: seq<nat>, pos: nat, next: Option<nat>)
    requires Tokens(v, s) && pos <= |text| && Decode(v, s) == text[..pos]
    requires text[pos..] == [] <==> next == None
    requires next.Some? ==> IsLongestPrefix(v, text[pos..], next.value)
    ensures NextOk(v, text, bits, s, pos, next)
  {
  }

  lemma StackPush(v: Vocab, text: seq<byte>, s: seq<nat>, pos: nat, x: nat)
    requires Stack(v, text, s, pos) && Fits(v, text, s, x) && (s != [] ==> ValidPair(v, Last(s), x))
    ensures Stack(v, text, s + [x], pos + |v.bytes[x]|)
    ensures Decode(v, s + [x]) == Decode(v, s) + v.bytes[x]
  {
    hide ValidPair;
    assert IsChain(v, [x]);
    ChainConcat(v, s, [x]);
    DecodeOne(v, x);
    DecodeConcat(v, s, [x]);
  }

  lemma StackRejectedPush(v: Vocab, text: seq<byte>, bits: seq<bool>, s: seq<nat>, x: nat)
    requires Tokens(v, s) && Tokens(v, s + [x]) && x < |v.bytes|
    requires StackRejected(v, text, bits, s) && LongerRejected(v, text, bits, s, |v.bytes[x]|)
    ensures StackRejected(v, text, bits, s + [x])
  {
    hide LongerRejected;
    var t := s + [x];
    forall i | 0 <= i < |t| ensures Tokens(v, t[..i]) && LongerRejected(v, text, bits, t[..i], |v.bytes[t[i]]|) {
      if i < |s| {
        assert t[..i] == s[..i];
      } else {
        assert t[..i] == s;
      }
    }
  }

  lemma OnStackPush(v: Vocab, s: seq<nat>, x: nat, p: nat)
    requires Tokens(v, s) && Tokens(v, s + [x])
    ensures OnStack(v, s, p) ==> OnStack(v, s + [x], p)
    ensures OnStack(v, s + [x], |Decode(v, s + [x])|)
    ensures OnStack(v, s + [x], p) ==> OnStack(v, s, p) || p == |Decode(v, s + [x])|
  {
    var t := s + [x];
    if OnStack(v, s, p) {
      var i :| 0 <= i <= |s| && Tokens(v, s[..i]) && |Decode(v, s[..i])| == p;
      assert t[..i] == s[..i];
    }
    assert t[..|t|] == t;
    if OnStack(v, t, p) {
      var i :| 0 <= i <= |t| && Tokens(v, t[..i]) && |Decode(v, t[..i])| == p;
      if i <= |s| {
        assert t[..i] == s[..i];
      }
    }
  }

  lemma {:induction false} OnStackBound(v: Vocab, s: seq<nat>, p: nat)
    requires Tokens(v, s) && OnStack(v, s, p)
    ensures p <= |Decode(v, s)|
  {
    var i :| 0 <= i <= |s| && Tokens(v, s[..i]) && |Decode(v, s[..i])| == p;
    assert s == s[..i] + s[i..];
    DecodeConcat(v, s[..i], s[i..]);
  }

  /** Accepting a token. */
  lemma Accept(v: Vocab, text: seq<byte>, bits: seq<bool>, s: seq<nat>, pos: nat, x: nat, next: Option<nat>,
               seen: set<nat>)
    requires State(v, text, bits, s, pos, Some(x), seen)
    requires (s != [] ==> ValidPair(v, Last(s), x)) && pos + |v.bytes[x]| < |bits| && bits[pos + |v.bytes[x]|]
    requires pos + |v.bytes[x]| <= |text|
    requires text[pos + |v.bytes[x]|..] == [] <==> next == None
    requires next.Some? ==> IsLongestPrefix(v, text[pos + |v.bytes[x]|..], next.value)
    ensures pos + |v.bytes[x]| !in seen
    ensures State(v, text, bits, s + [x], pos + |v.bytes[x]|, next, seen + {pos + |v.bytes[x]|})
  {
    hide WellFormed, Covers, DeadBits, LongerRejected, ValidPair, StackRejected, OnStack, SeenOk, IsLongestPrefix;
    var s', pos' := s + [x], pos + |v.bytes[x]|;
    TokenNonempty(v, x);
    StackPush(v, text, s, pos, x);
    StackRejectedPush(v, text, bits, s, x);
    LongestNext(v, text, bits, s', pos', next);
    SeenPush(v, text, bits, s, x, seen);
  }

  lemma TokenNonempty(v: Vocab, x: nat)
    requires WellFormed(v) && x < |v.bytes|
    ensures v.bytes[x] != []
  {
    assert ShapeAt(v, x);
  }

  lemma SeenPush(v: Vocab, text: seq<byte>, bits: seq<bool>, s: seq<nat>, x: nat, seen: set<nat>)
    requires Tokens(v, s) && x < |v.bytes| && v.bytes[x] != [] && Tokens(v, s + [x]) && SeenOk(v, text, bits, s, seen)
    requires Decode(v, s + [x]) == Decode(v, s) + v.bytes[x]
    requires var p := |Decode(v, s + [x])|; p <= |text| && p < |bits| && bits[p]
    ensures |Decode(v, s + [x])| !in seen
    ensures SeenOk(v, text, bits, s + [x], seen + {|Decode(v, s + [x])|})
  {
    var s', pos' := s + [x], |Decode(v, s + [x])|;
    hide OnStack;
    forall p | p in seen + {pos'} ensures 0 < p <= |text| && (p < |bits| && bits[p] ==> OnStack(v, s', p)) {
      OnStackPush(v, s, x, p);
    }
    if pos' in seen {
      OnStackBound(v, s, pos');
    }
  }

  /** Clearing a bit refuses more, never less. */
  lemma RejectedMore(v: Vocab, text: seq<byte>, bits: seq<bool>, s: seq<nat>, len: nat, p: nat)
    requires Tokens(v, s) && LongerRejected(v, text, bits, s, len) && p < |bits|
    ensures LongerRejected(v, text, bits[p := false], s, len)
  {
  }

  lemma DeadBitsClear(v: Vocab, text: seq<byte>, bits: seq<bool>, p: nat)
    requires DeadBits(v, text, bits) && p <= |text| && !Boundary(v, text, p)
    ensures DeadBits(v, text, bits[p := false])
  {
  }

  lemma StackPop(v: Vocab, text: seq<byte>, s: seq<nat>, pos: nat)
    requires Stack(v, text, s, pos) && s != []
    ensures Tokens(v, s[..|s| - 1]) && |v.bytes[Last(s)]| <= pos
    ensures Stack(v, text, s[..|s| - 1], pos - |v.bytes[Last(s)]|)
    ensures Fits(v, text, s[..|s| - 1], Last(s))
  {
    hide ValidPair;
    var s' := s[..|s| - 1];
    DecodeSnoc(v, s);
    assert s == s' + [Last(s)];
    ChainConcat(v, s', [Last(s)]);
  }

  lemma StackRejectedPop(v: Vocab, text: seq<byte>, bits: seq<bool>, s: seq<nat>, p: nat)
    requires Tokens(v, s) && StackRejected(v, text, bits, s) && s != [] && p < |bits|
    ensures Tokens(v, s[..|s| - 1]) && StackRejected(v, text, bits[p := false], s[..|s| - 1])
    ensures LongerRejected(v, text, bits[p := false], s[..|s| - 1], |v.bytes[Last(s)]|)
  {
    hide LongerRejected;
    var s' := s[..|s| - 1];
    forall i | 0 <= i < |s|
      ensures Tokens(v, s[..i]) && LongerRejected(v, text, bits[p := false], s[..i], |v.bytes[s[i]]|)
    {
      RejectedMore(v, text, bits, s[..i], |v.bytes[s[i]]|, p);
    }
    forall i | 0 <= i < |s'|
      ensures Tokens(v, s'[..i]) && LongerRejected(v, text, bits[p := false], s'[..i], |v.bytes[s'[i]]|)
    {
      assert s'[..i] == s[..i];
    }
  }

  /** Stepping back from a dead end. */
  lemma Pop(v: Vocab, text: seq<byte>, bits: seq<bool>, s: seq<nat>, pos: nat, next: Option<nat>, seen: set<nat>)
    requires State(v, text, bits, s, pos, next, seen) && s != [] && pos < |bits| && !Boundary(v, text, pos)
    ensures |v.bytes[Last(s)]| <= pos
    ensures State(v, text, bits[pos := false], s[..|s| - 1], pos - |v.bytes[Last(s)]|, Some(Last(s)), seen)
  {
    hide WellFormed, Covers, DeadBits, LongerRejected, ValidPair, Boundary, StackRejected;
    var s', bits' := s[..|s| - 1], bits[pos := false];
    DeadBitsClear(v, text, bits, pos);
    StackPop(v, text, s, pos);
    StackRejectedPop(v, text, bits, s, pos);
    assert s == s' + [Last(s)];
    forall p | p in seen ensures 0 < p <= |text| && (p < |bits'| && bits'[p] ==> OnStack(v, s', p)) {
      OnStackPush(v, s', Last(s), p);
    }
  }

  /** The stack is never exhausted: a dead end is never the start of the text. */
  lemma NeverExhausted(v: Vocab, text: seq<byte>, bits: seq<bool>, s: seq<nat>, pos: nat, next: Option<nat>,
                       seen: set<nat>)
    requires State(v, text, bits, s, pos, next, seen) && !Boundary(v, text, pos)
    ensures s != []
  {
  }

  // ---- Which positions are tried --------------------------------------------------------

  /** Where the encodings part, u goes on with the longer token. */
  ghost predicate PartsAt(v: Vocab, u: seq<nat>, s: seq<nat>, i: nat) {
    && i < |u| && i < |s| && u[..i] == s[..i] && u[i] < |v.bytes| && s[i] < |v.bytes|
    && |v.bytes[s[i]]| < |v.bytes[u[i]]|
  }

  /** The encoding of the first p bytes runs along the encoding of the text, or leaves it with a longer token. */
  ghost predicate Explored(v: Vocab, text: seq<byte>, p: nat)
    requires p <= |text|
  {
    var u, s := Bpe(v, text[..p]), Bpe(v, text);
    u <= s || exists i: nat :: PartsAt(v, u, s, i)
  }

  ghost function ExploredSet(v: Vocab, text: seq<byte>): set<nat> {
    set p: nat | 0 < p <= |text| && Explored(v, text, p)
  }

  /** Every position whose encoding passes through q was accepted. */
  ghost predicate DoneWith(v: Vocab, text: seq<byte>, seen: set<nat>, q: nat)
    requires q <= |text|
  {
    forall p: nat :: p <= |text| && Bpe(v, text[..q]) <= Bpe(v, text[..p]) ==> p in seen
  }

  ghost predicate AllDone(v: Vocab, text: seq<byte>, bits: seq<bool>, seen: set<nat>) {
    forall q: nat {:trigger DoneWith(v, text, seen, q)} ::
      q <= |text| && q < |bits| && !bits[q] ==> DoneWith(v, text, seen, q)
  }

  ghost predicate StackSeen(v: Vocab, s: seq<nat>, seen: set<nat>)
    requires Tokens(v, s)
  {
    forall i :: 0 < i <= |s| ==> Tokens(v, s[..i]) && |Decode(v, s[..i])| in seen
  }

  ghost predicate AllExplored(v: Vocab, text: seq<byte>, seen: set<nat>) {
    forall p :: p in seen ==> 0 < p <= |text| && Explored(v, text, p)
  }

  /** The accepted positions: the stack's, all that lie behind a dead end, and no others than the explored. */
  ghost predicate Search(v: Vocab, text: seq<byte>, bits: seq<bool>, s: seq<nat>, seen: set<nat>) {
    Tokens(v, s) && StackSeen(v, s, seen) && AllDone(v, text, bits, seen) && AllExplored(v, text, seen)
  }

  lemma SearchStart(v: Vocab, text: seq<byte>, bits: seq<bool>)
    requires forall i :: 0 <= i < |bits| ==> bits[i]
    ensures Search(v, text, bits, [], {})
  {
  }

  /** A part of a stack is a stack. */
  lemma StackPrefix(v: Vocab, text: seq<byte>, s: seq<nat>, pos: nat, i: nat)
    requires Stack(v, text, s, pos) && i <= |s|
    ensures Tokens(v, s[..i]) && |Decode(v, s[..i])| <= pos && Stack(v, text, s[..i], |Decode(v, s[..i])|)
  {
    hide ValidPair;
    assert s == s[..i] + s[i..];
    ChainConcat(v, s[..i], s[i..]);
    DecodeConcat(v, s[..i], s[i..]);
    assert text[..pos][..|Decode(v, s[..i])|] == text[..|Decode(v, s[..i])|];
  }

  /** The next token of a stack fits after the part before it. */
  lemma StackFits(v: Vocab, text: seq<byte>, s: seq<nat>, pos: nat, i: nat)
    requires Stack(v, text, s, pos) && i < |s|
    ensures s[i] < |v.bytes| && Tokens(v, s[..i]) && Fits(v, text, s[..i], s[i])
  {
    StackPrefix(v, text, s, pos, i + 1);
    assert s[..i + 1] == s[..i] + [s[i]];
    hide ValidPair;
    DecodeOne(v, s[i]);
    DecodeConcat(v, s[..i], [s[i]]);
    var p, q := |Decode(v, s[..i])|, |Decode(v, s[..i + 1])|;
    assert text[p..q] == text[..q][p..];
  }

  lemma StackBoundary(v: Vocab, text: seq<byte>, s: seq<nat>, pos: nat)
    requires WellFormed(v) && Stack(v, text, s, pos)
    ensures Boundary(v, text, pos) <==> s <= Bpe(v, text)
  {
    StackIsBpe(v, text, s, pos);
  }

  /** A state's stack never leaves the encoding of the text with a shorter token: the longer ones were refused. */
  lemma {:induction false} StackExplored(v: Vocab, text: seq<byte>, bits: seq<bool>, s: seq<nat>, pos: nat, i: nat)
    requires WellFormed(v) && Covers(v, text) && DeadBits(v, text, bits) && Stack(v, text, s, pos)
    requires Tokens(v, s) && StackRejected(v, text, bits, s)
    requires i <= |s| && i <= |Bpe(v, text)| && s[..i] == Bpe(v, text)[..i]
    ensures Explored(v, text, pos)
    decreases |s| - i
  {
    StackIsBpe(v, text, s, pos);
    if i == |s| {
      assert s[..i] == s;
    } else {
      StackPrefix(v, text, s, pos, i);
      StackFits(v, text, s, pos, i);
      var p := |Decode(v, s[..i])|;
      StackBoundary(v, text, s[..i], p);
      TokenNonempty(v, s[i]);
      var y := NextBoundary(v, text, s[..i], p);
      assert LongerRejected(v, text, bits, s[..i], |v.bytes[s[i]]|);
      hide *;
      if y == s[i] {
        AlsoNext(s, Bpe(v, text), i);
        StackExplored(v, text, bits, s, pos, i + 1);
      } else {
        NotLonger(v, text, bits, s[..i], p, s[i], y);
        LeavesHere(v, text, s, pos, i);
      }
    }
  }

  lemma AlsoNext(u: seq<nat>, s: seq<nat>, i: nat)
    requires i < |u| && i < |s| && u[..i] == s[..i] && u[i] == s[i]
    ensures u[..i + 1] == s[..i + 1]
  {
  }

  lemma LeavesHere(v: Vocab, text: seq<byte>, s: seq<nat>, pos: nat, i: nat)
    requires pos <= |text| && Bpe(v, text[..pos]) == s && PartsAt(v, s, Bpe(v, text), i)
    ensures Explored(v, text, pos)
  {
  }

  lemma NotLonger(v: Vocab, text: seq<byte>, bits: seq<bool>, s: seq<nat>, p: nat, x: nat, y: nat)
    requires DistinctBytes(v) && Stack(v, text, s, p) && x != y && Tokens(v, s) && Fits(v, text, s, x)
    requires Fits(v, text, s, y)
    requires LongerRejected(v, text, bits, s, |v.bytes[x]|) && DeadBits(v, text, bits)
    requires s != [] ==> ValidPair(v, Last(s), y)
    requires p + |v.bytes[y]| <= |text| && Boundary(v, text, p + |v.bytes[y]|)
    ensures |v.bytes[y]| < |v.bytes[x]|
  {
    hide ValidPair, Boundary;
    assert v.bytes[x] != v.bytes[y];
    assert |v.bytes[x]| < |v.bytes[y]| ==> Rejected(v, bits, s, y);
  }

  /** Behind a refused token that may follow the stack everything has been accepted before. */
  lemma BehindRefused(v: Vocab, text: seq<byte>, bits: seq<bool>, s: seq<nat>, pos: nat, seen: set<nat>, p: nat)
    requires WellFormed(v) && Covers(v, text) && |text| < |bits| && Stack(v, text, s, pos)
    requires AllDone(v, text, bits, seen)
    requires pos < p <= |text| && s <= Bpe(v, text[..p]) && Tokens(v, s)
    requires |s| < |Bpe(v, text[..p])| && Bpe(v, text[..p])[|s|] < |v.bytes| ==>
               Rejected(v, bits, s, Bpe(v, text[..p])[|s|])
    ensures p in seen
  {
    CoversPrefix(v, text, p);
    assert text[..p][..pos] == text[..pos];
    StackBoundary(v, text[..p], s, pos);
    var y := NextBoundary(v, text[..p], s, pos);
    var q := pos + |v.bytes[y]|;
    assert text[..p][..q] == text[..q];
    hide WellFormed, Covers, ValidPair, Bpe;
    assert DoneWith(v, text, seen, q);
  }

  /** What the next token of a longer encoding is: it fits after the stack. */
  lemma NextFits(v: Vocab, text: seq<byte>, s: seq<nat>, pos: nat, p: nat)
    requires WellFormed(v) && Covers(v, text) && Stack(v, text, s, pos) && pos < p <= |text| && s <= Bpe(v, text[..p])
    ensures Tokens(v, s) && |s| < |Bpe(v, text[..p])| && Fits(v, text, s, Bpe(v, text[..p])[|s|])
  {
    CoversPrefix(v, text, p);
    assert text[..p][..pos] == text[..pos];
    StackBoundary(v, text[..p], s, pos);
    var y := NextBoundary(v, text[..p], s, pos);
    hide WellFormed, Covers, ValidPair, Bpe, Boundary;
    var a, c := |Decode(v, s)|, |Decode(v, s)| + |v.bytes[y]|;
    assert text[a..c] == text[..p][a..c];
  }

  /** The encodings of two prefixes are never one a part of the other the wrong way round. */
  lemma LongerText(v: Vocab, text: seq<byte>, s: seq<nat>, pos: nat, p: nat)
    requires WellFormed(v) && Covers(v, text) && Stack(v, text, s, pos) && p <= |text| && s <= Bpe(v, text[..p])
    ensures pos <= p && (pos == p ==> s == Bpe(v, text[..p]))
  {
    CoversPrefix(v, text, p);
    BpeIsChain(v, text[..p]);
    var u := Bpe(v, text[..p]);
    assert u == s + u[|s|..];
    StackIsBpe(v, text, s, pos);
    hide WellFormed, Covers, ValidPair, Bpe;
    DecodeConcat(v, s, u[|s|..]);
  }

  /** Giving up a position: it and everything behind it has been accepted before. */
  lemma DeadEndDone(v: Vocab, text: seq<byte>, bits: seq<bool>, s: seq<nat>, pos: nat, seen: set<nat>)
    requires WellFormed(v) && Covers(v, text) && |text| < |bits| && Stack(v, text, s, pos) && s != []
    requires Search(v, text, bits, s, seen) && AllRejected(v, text, bits, s)
    ensures DoneWith(v, text, seen, pos)
  {
    StackIsBpe(v, text, s, pos);
    assert s[..|s|] == s;
    hide WellFormed, Covers, AllDone, AllExplored, AllRejected, Bpe, Stack;
    forall p: nat | p <= |text| && Bpe(v, text[..pos]) <= Bpe(v, text[..p]) ensures p in seen {
      LongerText(v, text, s, pos, p);
      if p == pos {
        StackAt(v, text, s, pos);
      } else {
        NextFits(v, text, s, pos, p);
        RefusedAt(v, text, bits, s, Bpe(v, text[..p])[|s|]);
        BehindRefused(v, text, bits, s, pos, seen, p);
      }
    }
  }

  lemma StackAt(v: Vocab, text: seq<byte>, s: seq<nat>, pos: nat)
    requires Stack(v, text, s, pos)
    ensures Tokens(v, s) && |Decode(v, s)| == pos
  {
  }

  lemma RefusedAt(v: Vocab, text: seq<byte>, bits: seq<bool>, s: seq<nat>, y: nat)
    requires Tokens(v, s) && AllRejected(v, text, bits, s) && Fits(v, text, s, y)
    ensures Rejected(v, bits, s, y)
  {
  }

  lemma SearchPop(v: Vocab, text: seq<byte>, bits: seq<bool>, s: seq<nat>, pos: nat, seen: set<nat>)
    requires Search(v, text, bits, s, seen) && s != [] && pos < |bits| && pos <= |text| && DoneWith(v, text, seen, pos)
    ensures Search(v, text, bits[pos := false], s[..|s| - 1], seen)
  {
    hide DoneWith, AllExplored, Decode;
    var s' := s[..|s| - 1];
    forall i | 0 < i <= |s'| ensures Tokens(v, s'[..i]) && |Decode(v, s'[..i])| in seen {
      assert s'[..i] == s[..i];
    }
  }

  lemma SearchPush(v: Vocab, text: seq<byte>, bits: seq<bool>, s: seq<nat>, x: nat, seen: set<nat>)
    requires Search(v, text, bits, s, seen) && Tokens(v, s + [x])
    requires var p := |Decode(v, s + [x])|; 0 < p <= |text| && Explored(v, text, p)
    ensures Search(v, text, bits, s + [x], seen + {|Decode(v, s + [x])|})
  {
    hide Explored, Decode;
    var t, more := s + [x], seen + {|Decode(v, s + [x])|};
    forall i | 0 < i <= |t| ensures Tokens(v, t[..i]) && |Decode(v, t[..i])| in more {
      if i <= |s| {
        assert t[..i] == s[..i];
      } else {
        assert t[..i] == t;
      }
    }
    forall q: nat | q <= |text| && q < |bits| && !bits[q] ensures DoneWith(v, text, more, q) {
      assert DoneWith(v, text, seen, q);
    }
  }

  lemma SearchAccept(v: Vocab, text: seq<byte>, bits: seq<bool>, s: seq<nat>, pos: nat, x: nat, next: Option<nat>,
                     seen: set<nat>)
    requires Search(v, text, bits, s, seen) && x < |v.bytes|
    requires State(v, text, bits, s, pos, Some(x), seen)
    requires State(v, text, bits, s + [x], pos + |v.bytes[x]|, next, seen + {pos + |v.bytes[x]|})
    ensures Search(v, text, bits, s + [x], seen + {pos + |v.bytes[x]|})
  {
    StateExplored(v, text, bits, s + [x], pos + |v.bytes[x]|, next, seen + {pos + |v.bytes[x]|});
    StateFacts(v, text, bits, s, pos, x, seen);
    hide *;
    SearchPush(v, text, bits, s, x, seen);
  }

  lemma StateExplored(v: Vocab, text: seq<byte>, bits: seq<bool>, s: seq<nat>, pos: nat, next: Option<nat>,
                      seen: set<nat>)
    requires State(v, text, bits, s, pos, next, seen)
    ensures Tokens(v, s) && pos == |Decode(v, s)| <= |text| && Explored(v, text, pos)
  {
    hide WellFormed, Covers, DeadBits, StackRejected, NextOk, SeenOk, Explored, ValidPair;
    StackExplored(v, text, bits, s, pos, 0);
  }

  lemma SearchBack(v: Vocab, text: seq<byte>, bits: seq<bool>, s: seq<nat>, pos: nat, x: nat, seen: set<nat>)
    requires State(v, text, bits, s, pos, Some(x), seen) && Search(v, text, bits, s, seen) && s != [] && pos < |bits|
    requires Tokens(v, s) && AllRejected(v, text, bits, s)
    ensures Search(v, text, bits[pos := false], s[..|s| - 1], seen)
  {
    StateParts(v, text, bits, s, pos, x, seen);
    StateFacts(v, text, bits, s, pos, x, seen);
    hide *;
    DeadEndDone(v, text, bits, s, pos, seen);
    SearchPop(v, text, bits, s, pos, seen);
  }

  // ---- The encoder ------------------------------------------------------------------------

  /** BtEnc.  The interval encoder's private copy is the same structure. */
  class BtEnc {
    const bpe: BytePairEncoding
    const text: seq<byte>
    const bitfield: BitField
    var tokens: seq<nat>
    var nextToken: Option<nat>
    var pos: nat
    /** Positions accepted so far, and calls of Step that did something. */
    ghost var seen: set<nat>
    ghost var steps: nat

    ghost predicate Valid()
      reads this, bitfield, bitfield.words
    {
      && Ready(bpe)
      && State(bpe.vocab, text, bitfield.Bits(), tokens, pos, nextToken, seen)
      && Search(bpe.vocab, text, bitfield.Bits(), tokens, seen)
      && steps == 2 * |seen| - |tokens|
    }

    /** btenc_new */
    constructor (bpe: BytePairEncoding, text: seq<byte>)
      requires Ready(bpe) && Covers(bpe.vocab, text)
      ensures Valid() && fresh(bitfield) && fresh(bitfield.words)
      ensures this.bpe == bpe && this.text == text && tokens == [] && seen == {} && steps == 0
      ensures nextToken == None <==> text == []
    {
      hide *;
      ReadyVocab(bpe);
      var next := FirstMatch(bpe, text);
      var bf := new BitField(|text| + 1);
      Start(bpe.vocab, text, bf.Bits(), next);
      SearchStart(bpe.vocab, text, bf.Bits());
      this.bpe := bpe;
      this.text := text;
      bitfield := bf;
      tokens := [];
      pos := 0;
      nextToken := next;
      seen := {};
      steps := 0;
      new;
      assert Valid() by { IsValid(this); }
    }

    /** btenc_step: accept the longest token that may follow, or step back. */
    method Step() returns (r: Option<nat>)
      requires Valid()
      modifies this, bitfield.words
      ensures Valid() && r == nextToken
      ensures steps == if old(nextToken).Some? then old(steps) + 1 else old(steps)
      ensures old(nextToken).None? ==> r.None?
      ensures old(seen) <= seen <= old(seen) + {pos}
    {
      hide *;
      if nextToken.None? {
        return None;
      }
      ValidParts(this);
      var accept, token := Select(nextToken.value);
      if accept {
        Push(token, pos + |bpe.vocab.bytes[token]|);
      } else {
        StepBack(token);
      }
      return nextToken;
    }

    /** The loop of btenc_step: try the token, then its ever shorter prefixes. */
    method Select(first: nat) returns (accept: bool, token: nat)
      requires Ready(bpe) && first < |bpe.vocab.bytes|
      requires State(bpe.vocab, text, bitfield.Bits(), tokens, pos, Some(first), seen)
      ensures token < |bpe.vocab.bytes| && State(bpe.vocab, text, bitfield.Bits(), tokens, pos, Some(token), seen)
      ensures Tokens(bpe.vocab, tokens) && pos <= |text| < |bitfield.Bits()|
      ensures accept ==>
                && (tokens != [] ==> ValidPair(bpe.vocab, Last<nat>(tokens), token))
                && pos + |bpe.vocab.bytes[token]| <= |text| && bitfield.Bits()[pos + |bpe.vocab.bytes[token]|]
      ensures !accept ==> AllRejected(bpe.vocab, text, bitfield.Bits(), tokens) && !Boundary(bpe.vocab, text, pos)
    {
      hide *;
      ghost var v, bits := bpe.vocab, bitfield.Bits();
      token := first;
      while true
        invariant token < |v.bytes| && State(v, text, bits, tokens, pos, Some(token), seen)
        decreases |v.bytes[token]|
      {
        StateFacts(v, text, bits, tokens, pos, token, seen);
        var end_pos := pos + |bpe.vocab.bytes[token]|;
        var pair_ok := true;
        if |tokens| > 0 {
          pair_ok := CheckPair(bpe, Last<nat>(tokens), token);
        }
        var free := bitfield.IsSet(end_pos);
        if free && pair_ok {
          return true, token;
        }
        ReadyPrefix(bpe, token);
        StateShorter(v, text, bits, tokens, pos, token, seen, bpe.nextPrefix[token]);
        if bpe.nextPrefix[token].None? {
          return false, token;
        }
        token := bpe.nextPrefix[token].value;
      }
    }

    /** The accepting branch of btenc_step. */
    method Push(token: nat, end_pos: nat)
      requires Ready(bpe) && State(bpe.vocab, text, bitfield.Bits(), tokens, pos, Some(token), seen)
      requires token < |bpe.vocab.bytes| && end_pos == pos + |bpe.vocab.bytes[token]|
      requires tokens != [] ==> ValidPair(bpe.vocab, Last<nat>(tokens), token)
      requires end_pos < |bitfield.Bits()| && bitfield.Bits()[end_pos] && end_pos <= |text|
      requires steps == 2 * |seen| - |tokens| && Search(bpe.vocab, text, bitfield.Bits(), tokens, seen)
      modifies this
      ensures Valid() && steps == old(steps) + 1 && seen == old(seen) + {pos}
    {
      hide *;
      ghost var v, bits := bpe.vocab, bitfield.Bits();
      StateCovers(v, text, bits, tokens, pos, token, seen);
      var next := FirstMatch(bpe, text[end_pos..]);
      Accept(v, text, bits, tokens, pos, token, next, seen);
      SearchAccept(v, text, bits, tokens, pos, token, next, seen);
      tokens := tokens + [token];
      pos := end_pos;
      nextToken := next;
      seen := seen + {end_pos};
      steps := steps + 1;
      IsValid(this);
    }

    /** The backtracking branch of btenc_step. */
    method StepBack(ghost token: nat)
      requires Ready(bpe) && State(bpe.vocab, text, bitfield.Bits(), tokens, pos, Some(token), seen)
      requires Tokens(bpe.vocab, tokens) && pos < |bitfield.Bits()| && pos <= |text| && !Boundary(bpe.vocab, text, pos)
      requires AllRejected(bpe.vocab, text, bitfield.Bits(), tokens)
      requires steps == 2 * |seen| - |tokens| && Search(bpe.vocab, text, bitfield.Bits(), tokens, seen)
      modifies this, bitfield.words
      ensures Valid() && steps == old(steps) + 1 && seen == old(seen)
    {
      hide *;
      ghost var v, bits := bpe.vocab, bitfield.Bits();
      bitfield.Clear(pos);
      steps := steps + 1;
      NeverExhausted(v, text, bits, tokens, pos, Some(token), seen);
      nextToken := None;
      if |tokens| > 0 {
        Pop(v, text, bits, tokens, pos, Some(token), seen);
        SearchBack(v, text, bits, tokens, pos, token, seen);
        LastInRange(v, tokens);
        var popped := Last<nat>(tokens);
        tokens := tokens[..|tokens| - 1];
        pos := pos - |bpe.vocab.bytes[popped]|;
        nextToken := Some(popped);
      }
      IsValid(this);
    }
  }

  lemma ValidParts(e: BtEnc)
    requires e.Valid() && e.nextToken.Some?
    ensures Ready(e.bpe) && State(e.bpe.vocab, e.text, e.bitfield.Bits(), e.tokens, e.pos, e.nextToken, e.seen)
    ensures Search(e.bpe.vocab, e.text, e.bitfield.Bits(), e.tokens, e.seen)
    ensures e.steps == 2 * |e.seen| - |e.tokens| && e.nextToken.value < |e.bpe.vocab.bytes|
  {
    hide Ready, Search;
    StateFacts(e.bpe.vocab, e.text, e.bitfield.Bits(), e.tokens, e.pos, e.nextToken.value, e.seen);
  }

  lemma LastInRange(v: Vocab, s: seq<nat>)
    requires Tokens(v, s)
    ensures s != [] ==> Last<nat>(s) == s[|s| - 1] < |v.bytes|
  {
  }

  lemma StateFacts(v: Vocab, text: seq<byte>, bits: seq<bool>, s: seq<nat>, pos: nat, x: nat, seen: set<nat>)
    requires State(v, text, bits, s, pos, Some(x), seen)
    ensures Tokens(v, s) && Fits(v, text, s, x) && x < |v.bytes| && pos == |Decode(v, s)|
    ensures v.bytes[x] != [] && pos + |v.bytes[x]| <= |text| < |bits|
    ensures s != [] ==> Last<nat>(s) == s[|s| - 1] < |v.bytes|
  {
    hide WellFormed, Covers, LongerRejected, StackRejected, SeenOk, ValidPair, DeadBits;
    assert |text| < |bits| by { DeadBitsLength(v, text, bits); }
    TokenNonempty(v, x);
  }

  lemma DeadBitsLength(v: Vocab, text: seq<byte>, bits: seq<bool>)
    requires DeadBits(v, text, bits)
    ensures |text| < |bits|
  {
  }

  lemma StateCovers(v: Vocab, text: seq<byte>, bits: seq<bool>, s: seq<nat>, pos: nat, x: nat, seen: set<nat>)
    requires State(v, text, bits, s, pos, Some(x), seen) && x < |v.bytes| && pos + |v.bytes[x]| <= |text|
    ensures Covers(v, text[pos + |v.bytes[x]|..])
  {
  }

  lemma ReadyPrefix(bpe: BytePairEncoding, x: nat)
    requires Ready(bpe) && x < |bpe.vocab.bytes|
    ensures x < |bpe.nextPrefix| && IsNextPrefix(bpe.vocab, x, bpe.nextPrefix[x])
  {
  }

  /** A refused candidate: either a shorter one takes its place, or this is a dead end. */
  lemma StateShorter(v: Vocab, text: seq<byte>, bits: seq<bool>, s: seq<nat>, pos: nat, x: nat, seen: set<nat>,
                     r: Option<nat>)
    requires State(v, text, bits, s, pos, Some(x), seen) && x < |v.bytes| && IsNextPrefix(v, x, r)
    requires (s != [] && !ValidPair(v, Last(s), x)) || (pos + |v.bytes[x]| < |bits| && !bits[pos + |v.bytes[x]|])
    ensures r.Some? ==>
              && State(v, text, bits, s, pos, r, seen) && r.value < |v.bytes|
              && |v.bytes[r.value]| < |v.bytes[x]|
    ensures r.None? ==> pos < |text| && Tokens(v, s) && AllRejected(v, text, bits, s) && !Boundary(v, text, pos)
  {
    StateFacts(v, text, bits, s, pos, x, seen);
    StateParts(v, text, bits, s, pos, x, seen);
    hide *;
    RejectedBy(v, bits, s, pos, x);
    Shorter(v, text, bits, s, pos, x, r);
    match r
    case Some(y) => StateWith(v, text, bits, s, pos, x, seen, y);
    case None => DeadEnd(v, text, bits, s, pos);
  }

  lemma RejectedBy(v: Vocab, bits: seq<bool>, s: seq<nat>, pos: nat, x: nat)
    requires Tokens(v, s) && pos == |Decode(v, s)| && x < |v.bytes|
    requires (s != [] && !ValidPair(v, Last(s), x)) || (pos + |v.bytes[x]| < |bits| && !bits[pos + |v.bytes[x]|])
    ensures Rejected(v, bits, s, x)
  {
  }

  lemma StateParts(v: Vocab, text: seq<byte>, bits: seq<bool>, s: seq<nat>, pos: nat, x: nat, seen: set<nat>)
    requires State(v, text, bits, s, pos, Some(x), seen)
    ensures WellFormed(v) && DistinctBytes(v) && Covers(v, text) && DeadBits(v, text, bits) && Stack(v, text, s, pos)
    ensures Tokens(v, s) && pos <= |text| && Decode(v, s) == text[..pos]
    ensures Fits(v, text, s, x) && x < |v.bytes| && LongerRejected(v, text, bits, s, |v.bytes[x]|)
  {
  }

  lemma StateWith(v: Vocab, text: seq<byte>, bits: seq<bool>, s: seq<nat>, pos: nat, x: nat, seen: set<nat>, y: nat)
    requires State(v, text, bits, s, pos, Some(x), seen) && Tokens(v, s)
    requires Fits(v, text, s, y) && y < |v.bytes| && LongerRejected(v, text, bits, s, |v.bytes[y]|)
    ensures State(v, text, bits, s, pos, Some(y), seen)
  {
  }

  lemma IsValid(e: BtEnc)
    requires Ready(e.bpe) && State(e.bpe.vocab, e.text, e.bitfield.Bits(), e.tokens, e.pos, e.nextToken, e.seen)
    requires Search(e.bpe.vocab, e.text, e.bitfield.Bits(), e.tokens, e.seen)
    requires e.steps == 2 * |e.seen| - |e.tokens|
    ensures e.Valid()
  {
  }

  /** bpe_next_match on a text whose bytes are all tokens. */
  method FirstMatch(bpe: BytePairEncoding, text: seq<byte>) returns (next: Option<nat>)
    requires Ready(bpe) && Covers(bpe.vocab, text)
    ensures text == [] <==> next == None
    ensures next.Some? ==> IsLongestPrefix(bpe.vocab, text, next.value)
  {
    ReadyVocab(bpe);
    next := NextMatch(bpe.vocab, bpe.longest, text);
  }

  lemma Start(v: Vocab, text: seq<byte>, bits: seq<bool>, next: Option<nat>)
    requires WellFormed(v) && Covers(v, text) && |text| < |bits| && forall i :: 0 <= i < |bits| ==> bits[i]
    requires text == [] <==> next == None
    requires next.Some? ==> IsLongestPrefix(v, text, next.value)
    ensures State(v, text, bits, [], 0, next, {})
  {
  }

  // ---- Whole runs -----------------------------------------------------------------------

  lemma AtEnd(v: Vocab, text: seq<byte>, bits: seq<bool>, s: seq<nat>, pos: nat, seen: set<nat>)
    requires State(v, text, bits, s, pos, None, seen)
    ensures s == Bpe(v, text)
  {
    hide WellFormed, Covers, StackRejected, SeenOk, Boundary, Bpe;
    StartIsBoundary(v, text);
    StackIsBpe(v, text, s, pos);
    assert text[..|text|] == text;
  }

  lemma EndOfText(v: Vocab, text: seq<byte>, bits: seq<bool>, s: seq<nat>, pos: nat, seen: set<nat>)
    requires State(v, text, bits, s, pos, None, seen)
    ensures Tokens(v, s) && pos == |text| && s == Bpe(v, text) && StackRejected(v, text, bits, s) && |text| < |bits|
    ensures WellFormed(v) && Covers(v, text) && Stack(v, text, s, pos)
  {
    hide WellFormed, Covers, StackRejected, SeenOk, Boundary, Bpe, ValidPair;
    StartIsBoundary(v, text);
    AtEnd(v, text, bits, s, pos, seen);
  }

  /** A finished run has accepted every explored position. */
  lemma AllAccepted(v: Vocab, text: seq<byte>, bits: seq<bool>, s: seq<nat>, pos: nat, seen: set<nat>, p: nat)
    requires State(v, text, bits, s, pos, None, seen) && Search(v, text, bits, s, seen)
    requires 0 < p <= |text| && Explored(v, text, p)
    ensures p in seen
  {
    EndOfText(v, text, bits, s, pos, seen);
    CoversPrefix(v, text, p);
    hide State, WellFormed, Covers, StackRejected, AllDone, Bpe;
    var u := Bpe(v, text[..p]);
    if u <= s {
      AlongText(v, text, s, seen, p);
    } else {
      var i: nat :| PartsAt(v, u, s, i);
      LeftEarlier(v, text, bits, s, pos, seen, p, i);
    }
  }

  lemma AlongText(v: Vocab, text: seq<byte>, s: seq<nat>, seen: set<nat>, p: nat)
    requires WellFormed(v) && Covers(v, text) && Tokens(v, s) && StackSeen(v, s, seen)
    requires 0 < p <= |text| && Bpe(v, text[..p]) <= s
    ensures p in seen
  {
    CoversPrefix(v, text, p);
    var u := Bpe(v, text[..p]);
    BpeIsChain(v, text[..p]);
    BpeNonempty(v, text[..p]);
    hide WellFormed, Covers, Bpe, ValidPair;
    assert s[..|u|] == u;
  }

  lemma LeftEarlier(v: Vocab, text: seq<byte>, bits: seq<bool>, s: seq<nat>, pos: nat, seen: set<nat>, p: nat, i: nat)
    requires WellFormed(v) && Covers(v, text) && |text| < |bits| && Stack(v, text, s, pos)
    requires Tokens(v, s) && StackRejected(v, text, bits, s) && AllDone(v, text, bits, seen)
    requires 0 < p <= |text| && PartsAt(v, Bpe(v, text[..p]), s, i)
    ensures p in seen
  {
    var u := Bpe(v, text[..p]);
    StackPrefix(v, text, s, pos, i);
    var q := |Decode(v, s[..i])|;
    assert s[..i] <= u && s[..i] != u;
    assert LongerRejected(v, text, bits, s[..i], |v.bytes[s[i]]|);
    hide WellFormed, Covers, AllDone, StackRejected, Rejected, Fits, Bpe, Stack;
    LongerText(v, text, s[..i], q, p);
    NextFits(v, text, s[..i], q, p);
    BehindRefused(v, text, bits, s[..i], q, seen, p);
  }

  lemma SeenBound(v: Vocab, text: seq<byte>, bits: seq<bool>, s: seq<nat>, pos: nat, next: Option<nat>, seen: set<nat>)
    requires State(v, text, bits, s, pos, next, seen)
    ensures |seen| <= |text|
  {
    hide WellFormed, Covers, DeadBits, StackRejected, OnStack, ValidPair, NextOk;
    FailureLinks.SubsetOfRange(seen, |text| + 1);
  }

  lemma ValidSteps(e: BtEnc)
    requires e.Valid()
    ensures e.steps <= 2 * |e.text| && e.steps == 2 * |e.seen| - |e.tokens|
    ensures e.nextToken == None ==> e.tokens == Bpe(e.bpe.vocab, e.text)
  {
    hide Ready, State, Bpe;
    SeenBound(e.bpe.vocab, e.text, e.bitfield.Bits(), e.tokens, e.pos, e.nextToken, e.seen);
    if e.nextToken == None {
      AtEnd(e.bpe.vocab, e.text, e.bitfield.Bits(), e.tokens, e.pos, e.seen);
    }
  }

  /** A finished run has accepted exactly the explored positions. */
  lemma SeenExact(e: BtEnc)
    requires e.Valid() && e.nextToken == None
    ensures e.seen == ExploredSet(e.bpe.vocab, e.text)
  {
    hide Ready, State, Explored;
    forall p | 0 < p <= |e.text| && Explored(e.bpe.vocab, e.text, p) ensures p in e.seen {
      AllAccepted(e.bpe.vocab, e.text, e.bitfield.Bits(), e.tokens, e.pos, e.seen, p);
    }
  }

  /** Stepping until nothing is left.  calls counts the calls of Step: each explored position is accepted once and,
      unless the encoding passes through it, given up once. */
  method Finish(e: BtEnc) returns (ghost calls: nat)
    requires e.Valid() && e.steps == 0 && (e.nextToken == None <==> e.text == [])
    modifies e, e.bitfield.words
    ensures e.tokens == Bpe(e.bpe.vocab, e.text)
    ensures e.seen == ExploredSet(e.bpe.vocab, e.text)
    ensures calls == if e.text == [] then 1 else 2 * |e.seen| - |e.tokens|
    ensures calls <= 2 * |e.text| + 1
  {
    hide *;
    ValidSteps(e);
    calls := 1;
    var r := e.Step();
    ValidSteps(e);
    while r.Some?
      invariant e.Valid() && r == e.nextToken && e.bitfield.words == old(e.bitfield.words)
      invariant e.steps <= 2 * |e.text| && e.steps == 2 * |e.seen| - |e.tokens|
      invariant if e.text == [] then r.None? && calls == 1 else calls == e.steps
      invariant r.None? ==> e.tokens == Bpe(e.bpe.vocab, e.text)
      decreases 2 * |e.text| - e.steps
    {
      r := e.Step();
      calls := calls + 1;
      ValidSteps(e);
    }
    SeenExact(e);
  }

  /** bpe_encode_via_backtracking */
  method EncodeViaBacktracking(bpe: BytePairEncoding, text: seq<byte>) returns (tokens: seq<nat>, ghost calls: nat)
    requires Ready(bpe) && Covers(bpe.vocab, text)
    ensures tokens == Bpe(bpe.vocab, text)
    ensures calls == if text == [] then 1 else 2 * |ExploredSet(bpe.vocab, text)| - |tokens|
    ensures calls <= 2 * |text| + 1
  {
    hide *;
    var e := new BtEnc(bpe, text);
    calls := Finish(e);
    tokens := e.tokens;
  }

  /** bpe_count */
  method Count(bpe: BytePairEncoding, text: seq<byte>) returns (c: nat)
    requires Ready(bpe) && Covers(bpe.vocab, text)
    ensures c == |Bpe(bpe.vocab, text)|
  {
    hide *;
    var e := new BtEnc(bpe, text);
    ghost var calls := Finish(e);
    c := |e.tokens|;
  }

  /** The search for the encoding of the text holds more than m tokens at some position before the end. */
  ghost predicate Crowded(v: Vocab, text: seq<byte>, m: nat) {
    exists p: nat :: p < |text| && Explored(v, text, p) && |Bpe(v, text[..p])| > m
  }

  /** A text over the limit gets no number, nor does one whose search holds too many tokens; the sum is a size_t. */
  ghost predicate NoNumber(v: Vocab, text: seq<byte>, limit: nat) {
    |Bpe(v, text)| > limit || Crowded(v, text, (limit + 10) % (SIZE_MAX + 1))
  }

  ghost predicate Uncrowded(v: Vocab, text: seq<byte>, seen: set<nat>, pos: nat, m: nat) {
    forall p :: p in seen && 0 <= p <= |text| && p != pos ==> |Bpe(v, text[..p])| <= m
  }

  lemma TooMany(e: BtEnc, m: nat)
    requires e.Valid() && e.nextToken.Some? && |e.tokens| > m
    ensures Crowded(e.bpe.vocab, e.text, m)
  {
    ValidParts(e);
    var v, bits := e.bpe.vocab, e.bitfield.Bits();
    StateFacts(v, e.text, bits, e.tokens, e.pos, e.nextToken.value, e.seen);
    StateExplored(v, e.text, bits, e.tokens, e.pos, e.nextToken, e.seen);
    StateParts(v, e.text, bits, e.tokens, e.pos, e.nextToken.value, e.seen);
    hide *;
    StackIsBpe(v, e.text, e.tokens, e.pos);
    IsCrowded(v, e.text, e.pos, m);
  }

  lemma IsCrowded(v: Vocab, text: seq<byte>, p: nat, m: nat)
    requires p < |text| && Explored(v, text, p) && |Bpe(v, text[..p])| > m
    ensures Crowded(v, text, m)
  {
  }

  /** After the check the position just reached counts as well. */
  lemma NotTooMany(e: BtEnc, m: nat)
    requires e.Valid() && e.nextToken.Some? && |e.tokens| <= m && Uncrowded(e.bpe.vocab, e.text, e.seen, e.pos, m)
    ensures forall p: nat :: Uncrowded(e.bpe.vocab, e.text, e.seen, p, m)
  {
    ValidParts(e);
    StateParts(e.bpe.vocab, e.text, e.bitfield.Bits(), e.tokens, e.pos, e.nextToken.value, e.seen);
    hide BtEnc.Valid, Bpe, Ready, WellFormed, Covers, State, Search, LongerRejected, Fits;
    StackIsBpe(e.bpe.vocab, e.text, e.tokens, e.pos);
  }

  lemma NeverTooMany(e: BtEnc, m: nat)
    requires e.Valid() && e.nextToken == None && Uncrowded(e.bpe.vocab, e.text, e.seen, e.pos, m)
    ensures !Crowded(e.bpe.vocab, e.text, m)
  {
    var v, text := e.bpe.vocab, e.text;
    EndOfText(v, text, e.bitfield.Bits(), e.tokens, e.pos, e.seen);
    forall p: nat | p < |text| && Explored(v, text, p) ensures |Bpe(v, text[..p])| <= m {
      if p == 0 {
        assert text[..0] == [];
        BpeOfNothing(v);
      } else {
        AllAccepted(v, text, e.bitfield.Bits(), e.tokens, e.pos, e.seen, p);
      }
    }
  }

  lemma UncrowdedMore(v: Vocab, text: seq<byte>, seen: set<nat>, more: set<nat>, pos: nat, m: nat)
    requires Uncrowded(v, text, seen, pos, m) && more <= seen + {pos}
    ensures Uncrowded(v, text, more, pos, m)
  {
  }

  /** bpe_count_till_limit: exact whenever there is a number, and when there is one. */
  method CountTillLimit(bpe: BytePairEncoding, text: seq<byte>, limit: nat) returns (c: Option<nat>)
    requires Ready(bpe) && Covers(bpe.vocab, text) && limit <= SIZE_MAX
    ensures c == if NoNumber(bpe.vocab, text, limit) then None else Some(|Bpe(bpe.vocab, text)|)
  {
    NumberIff(bpe.vocab, text, limit);
    hide *;
    var e := new BtEnc(bpe, text);
    var limit_buf := (limit + 10) % (SIZE_MAX + 1);
    UncrowdedStart(bpe.vocab, text, limit_buf);
    ValidSteps(e);
    ghost var seen := e.seen;
    var r := e.Step();
    UncrowdedMore(bpe.vocab, text, seen, e.seen, e.pos, limit_buf);
    ValidSteps(e);
    while r.Some?
      invariant e.Valid() && r == e.nextToken && fresh(e) && fresh(e.bitfield.words) && e.bpe == bpe && e.text == text
      invariant e.steps <= 2 * |e.text| + 1
      invariant r.None? ==> e.tokens == Bpe(e.bpe.vocab, e.text)
      invariant Uncrowded(bpe.vocab, text, e.seen, e.pos, limit_buf)
      decreases 2 * |e.text| + 1 - e.steps
    {
      if |e.tokens| > limit_buf {
        TooMany(e, limit_buf);
        return None;
      }
      NotTooMany(e, limit_buf);
      seen := e.seen;
      r := e.Step();
      UncrowdedMore(bpe.vocab, text, seen, e.seen, e.pos, limit_buf);
      ValidSteps(e);
    }
    NeverTooMany(e, limit_buf);
    return if |e.tokens| <= limit then Some(|e.tokens|) else None;
  }

  lemma NumberIff(v: Vocab, text: seq<byte>, limit: nat)
    ensures NoNumber(v, text, limit) <==> |Bpe(v, text)| > limit || Crowded(v, text, (limit + 10) % (SIZE_MAX + 1))
  {
  }

  lemma UncrowdedStart(v: Vocab, text: seq<byte>, m: nat)
    ensures forall p: nat :: Uncrowded(v, text, {}, p, m)
  {
  }
}
