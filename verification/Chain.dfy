/** The chain theorem. */
module Chain {

  // A token sequence is the byte-pair encoding of its bytes exactly when no merge rule reaches
  // across any border between neighbours.  Every fast encoder rests on it, because the condition
  // looks at two tokens at a time.

  import opened Vocabulary
  import opened Merging

  // ---- Taking tokens apart again --------------------------------------------

  /** x as it stands just before rule k runs. */
  function Expand(v: Vocab, x: nat, k: nat): seq<nat>
    decreases x
  {
    if x < k || Primitive(v, x) then [x]
    else Expand(v, v.left[x], k) + Expand(v, v.right[x], k)
  }

  function ExpandAll(v: Vocab, s: seq<nat>, k: nat): seq<nat> {
    if s == [] then []
    else ExpandAll(v, s[..|s| - 1], k) + Expand(v, Last(s), k)
  }

  /** No rule below m reaches across a border of s. */
  ghost predicate ChainBelow(v: Vocab, s: seq<nat>, m: nat) {
    forall i :: 0 <= i && i + 1 < |s| ==> NoCrossBelow(v, s[i], s[i + 1], m)
  }

  ghost predicate AllAtLevel(v: Vocab, s: seq<nat>, m: nat) {
    forall i :: 0 <= i < |s| ==> AtLevel(v, s[i], m)
  }

  lemma {:induction false} ExpandEdges(v: Vocab, x: nat, k: nat)
    ensures Expand(v, x, k) != []
    ensures Expand(v, x, k)[0] == LeftEdge(v, x, k)
    ensures Last(Expand(v, x, k)) == RightEdge(v, x, k)
    decreases x
  {
    if !(x < k || Primitive(v, x)) {
      ExpandEdges(v, v.left[x], k);
      ExpandEdges(v, v.right[x], k);
    }
  }

  lemma ExpandAllEdge(v: Vocab, s: seq<nat>, k: nat)
    requires s != []
    ensures ExpandAll(v, s, k) != []
    ensures Last(ExpandAll(v, s, k)) == RightEdge(v, Last(s), k)
  {
    ExpandEdges(v, Last(s), k);
  }

  // ---- A pass is local -------------------------------------------------------

  lemma PassFirst(v: Vocab, k: nat, s: seq<nat>)
    requires s != []
    ensures Pass(v, k, s) != []
    ensures Pass(v, k, s)[0] == s[0] || (Pass(v, k, s)[0] == k && |s| >= 2 && IsMerge(v, k, s[0], s[1]))
  {
  }

  lemma ConsConcat<T>(x: T, s: seq<T>, t: seq<T>)
    ensures ([x] + s) + t == [x] + (s + t)
    ensures s != [] ==> Last([x] + s) == Last(s)
  {
  }

  /** A pass splits at a border it does not merge across: when the left part, already
      passed, does not end in the left half of k in front of the right half. */
  lemma {:induction false} PassConcat(v: Vocab, k: nat, s: seq<nat>, t: seq<nat>)
    requires s != [] && t != []
    requires Pass(v, k, s) != [] && !IsMerge(v, k, Last(Pass(v, k, s)), t[0])
    ensures Pass(v, k, s + t) == Pass(v, k, s) + Pass(v, k, t)
    decreases |s|
  {
    if |s| == 1 {
      assert (s + t)[1..] == t;
    } else {
      var first, rest := if IsMerge(v, k, s[0], s[1]) then k else s[0],
                         if IsMerge(v, k, s[0], s[1]) then s[2..] else s[1..];
      PassSplitsFirst(v, k, s, t, first, rest);
      ConsConcat(first, Pass(v, k, rest), Pass(v, k, t));
      if rest == [] {
        assert rest + t == t;
      } else {
        PassFirst(v, k, rest);
        PassConcat(v, k, rest, t);
      }
    }
  }

  lemma PassSplitsFirst(v: Vocab, k: nat, s: seq<nat>, t: seq<nat>, first: nat, rest: seq<nat>)
    requires |s| >= 2
    requires if IsMerge(v, k, s[0], s[1]) then first == k && rest == s[2..] else first == s[0] && rest == s[1..]
    ensures Pass(v, k, s) == [first] + Pass(v, k, rest)
    ensures Pass(v, k, s + t) == [first] + Pass(v, k, rest + t)
  {
    assert (s + t)[1..] == s[1..] + t;
    assert (s + t)[2..] == s[2..] + t;
  }

  /** Rule k rebuilds a token from its pieces. */
  lemma {:induction false} ExpandStep(v: Vocab, m: nat, x: nat, k: nat)
    requires InstalledTo(v, m) && x < |v.bytes|
    ensures Pass(v, k, Expand(v, x, k)) == Expand(v, x, k + 1)
    decreases x
  {
    if x < k || Primitive(v, x) {
    } else {
      assert SplitOk(v, x);
      var a, b := v.left[x], v.right[x];
      if x == k {
        assert Expand(v, x, k) == [a, b];
        assert [a, b][2..] == [];
      } else {
        ExpandStep(v, m, a, k);
        ExpandStep(v, m, b, k);
        ExpandEdges(v, a, k + 1);
        ExpandEdges(v, a, k);
        ExpandEdges(v, b, k);
        assert !Crosses(v, a, b, k);
        PassConcat(v, k, Expand(v, a, k), Expand(v, b, k));
      }
    }
  }

  lemma {:induction false} ExpandAllStep(v: Vocab, m: nat, s: seq<nat>, k: nat)
    requires InstalledTo(v, m) && Tokens(v, s) && ChainBelow(v, s, k + 1)
    ensures Pass(v, k, ExpandAll(v, s, k)) == ExpandAll(v, s, k + 1)
  {
    if s == [] {
    } else {
      var s', x := s[..|s| - 1], Last(s);
      ExpandStep(v, m, x, k);
      if s' == [] {
        assert ExpandAll(v, s', k) == [];
        assert ExpandAll(v, s, k) == Expand(v, x, k);
        assert ExpandAll(v, s, k + 1) == Expand(v, x, k + 1);
      } else {
        ExpandAllStep(v, m, s', k);
        assert NoCrossBelow(v, s[|s| - 2], s[|s| - 2 + 1], k + 1);
        ExpandAllBorder(v, s', x, k);
        PassConcat(v, k, ExpandAll(v, s', k), Expand(v, x, k));
      }
    }
  }

  /** A border no rule k reaches across is one a pass of rule k does not merge across. */
  lemma ExpandAllBorder(v: Vocab, s: seq<nat>, x: nat, k: nat)
    requires s != [] && !Crosses(v, Last(s), x, k)
    requires Pass(v, k, ExpandAll(v, s, k)) == ExpandAll(v, s, k + 1)
    ensures ExpandAll(v, s, k) != [] && Expand(v, x, k) != []
    ensures Pass(v, k, ExpandAll(v, s, k)) != []
    ensures !IsMerge(v, k, Last(Pass(v, k, ExpandAll(v, s, k))), Expand(v, x, k)[0])
  {
    ExpandAllEdge(v, s, k + 1);
    ExpandAllEdge(v, s, k);
    ExpandEdges(v, x, k);
  }

  lemma {:induction false} ExpandToBytes(v: Vocab, m: nat, x: nat)
    requires InstalledTo(v, m) && AtLevel(v, x, m)
    ensures Expand(v, x, 0) == Singles(v, v.bytes[x])
  {
    assert x < m ==> SplitOk(v, x);
    if |v.bytes[x]| == 1 {
      assert IsByteToken(v, v.bytes[x][0]);
      assert v.bytes[x] == [v.bytes[x][0]];
      assert Singles(v, v.bytes[x]) == [x] + Singles(v, []);
    } else {
      ExpandToBytes(v, m, v.left[x]);
      ExpandToBytes(v, m, v.right[x]);
      SinglesConcat(v, v.bytes[v.left[x]], v.bytes[v.right[x]]);
    }
  }

  lemma {:induction false} ExpandAllToBytes(v: Vocab, m: nat, s: seq<nat>)
    requires InstalledTo(v, m) && Tokens(v, s) && AllAtLevel(v, s, m)
    ensures ExpandAll(v, s, 0) == Singles(v, Decode(v, s))
  {
    if s != [] {
      var s', x := s[..|s| - 1], Last(s);
      ExpandAllToBytes(v, m, s');
      ExpandToBytes(v, m, x);
      DecodeConcat(v, s', [x]);
      DecodeOne(v, x);
      assert s == s' + [x];
      SinglesConcat(v, Decode(v, s'), v.bytes[x]);
    }
  }

  lemma {:induction false} ExpandAllDone(v: Vocab, m: nat, s: seq<nat>)
    requires InstalledTo(v, m) && AllAtLevel(v, s, m)
    ensures ExpandAll(v, s, m) == s
  {
    if s != [] {
      var s', x := s[..|s| - 1], Last(s);
      ExpandAllDone(v, m, s');
      assert AtLevel(v, x, m);
      assert x < m ==> SplitOk(v, x);
      assert Expand(v, x, m) == [x];
    }
  }

  /** The first k passes over the bytes of a chain leave each token's pieces. */
  lemma {:induction false} PassesOfChain(v: Vocab, m: nat, s: seq<nat>, k: nat)
    requires InstalledTo(v, m) && Tokens(v, s) && AllAtLevel(v, s, m) && ChainBelow(v, s, k)
    ensures Passes(v, k, Singles(v, Decode(v, s))) == ExpandAll(v, s, k)
  {
    if k == 0 {
      ExpandAllToBytes(v, m, s);
    } else {
      PassesOfChain(v, m, s, k - 1);
      ExpandAllStep(v, m, s, k - 1);
    }
  }

  /** Uniqueness while only the rules below m are installed. */
  lemma ChainUniqueAtLevel(v: Vocab, m: nat, s: seq<nat>)
    requires InstalledTo(v, m) && Tokens(v, s) && AllAtLevel(v, s, m) && ChainBelow(v, s, m)
    ensures Passes(v, m, Singles(v, Decode(v, s))) == s
  {
    PassesOfChain(v, m, s, m);
    ExpandAllDone(v, m, s);
  }

  // ---- Every encoding is a chain ---------------------------------------------

  lemma CrossThroughLeft(v: Vocab, k: nat, b: nat, j: nat)
    requires !Primitive(v, k) && j < k
    ensures Crosses(v, k, b, j) <==> Crosses(v, v.right[k], b, j)
  {
  }

  lemma CrossThroughRight(v: Vocab, a: nat, k: nat, j: nat)
    requires !Primitive(v, k) && j <= k
    ensures Crosses(v, a, k, j) <==> Crosses(v, a, v.left[k], j)
  {
  }

  /** After rule k merged in front of a border, or behind it, or on neither side, the
      border is clean up to rule k. */
  lemma BorderAfterPass(v: Vocab, m: nat, k: nat, a: nat, b: nat, a': nat, b': nat)
    requires InstalledTo(v, m) && k < m <= |v.bytes| && AtLevel(v, a, k) && AtLevel(v, b, k)
    requires NoCrossBelow(v, a, b, k)
    requires (a' == a && !IsMerge(v, k, a, b)) || (a' == k && !Primitive(v, k) && a == v.right[k])
    requires b' == b || (b' == k && !Primitive(v, k) && b == v.left[k])
    ensures NoCrossBelow(v, a', b', k + 1)
  {
    assert SplitOk(v, k);
    assert a < m ==> SplitOk(v, a);
    assert b < m ==> SplitOk(v, b);
    forall j: nat | j < k + 1 ensures !Crosses(v, a', b', j) {
      if j < k {
        assert !Crosses(v, a, b, j);
        if a' != a { CrossThroughLeft(v, k, b', j); }
        if b' != b { CrossThroughRight(v, a, k, j); }
      } else if !Primitive(v, k) {
        assert RightEdge(v, a', k + 1) == a';
        assert LeftEdge(v, b, k) == b;
        if b' != b { CrossThroughRight(v, a', k, k); }
      }
    }
  }

  ghost predicate LevelChain(v: Vocab, s: seq<nat>, m: nat) {
    AllAtLevel(v, s, m) && ChainBelow(v, s, m)
  }

  lemma LevelChainTail(v: Vocab, s: seq<nat>, m: nat, i: nat)
    requires LevelChain(v, s, m) && i <= |s|
    ensures LevelChain(v, s[i..], m)
  {
  }

  lemma LevelChainCons(v: Vocab, x: nat, t: seq<nat>, m: nat)
    requires AtLevel(v, x, m) && LevelChain(v, t, m)
    requires t != [] ==> NoCrossBelow(v, x, t[0], m)
    ensures LevelChain(v, [x] + t, m)
  {
  }

  lemma {:induction false} PassKeepsChain(v: Vocab, m: nat, k: nat, s: seq<nat>)
    requires InstalledTo(v, m) && k < m <= |v.bytes| && LevelChain(v, s, k)
    ensures LevelChain(v, Pass(v, k, s), k + 1)
    decreases |s|
  {
    if |s| < 2 {
    } else if IsMerge(v, k, s[0], s[1]) {
      LevelChainTail(v, s, k, 2);
      PassKeepsChain(v, m, k, s[2..]);
      if s[2..] != [] {
        PassFirst(v, k, s[2..]);
        assert NoCrossBelow(v, s[1], s[1 + 1], k);
        BorderAfterPass(v, m, k, s[1], s[2], k, Pass(v, k, s[2..])[0]);
      }
      LevelChainCons(v, k, Pass(v, k, s[2..]), k + 1);
    } else {
      LevelChainTail(v, s, k, 1);
      PassKeepsChain(v, m, k, s[1..]);
      PassFirst(v, k, s[1..]);
      assert NoCrossBelow(v, s[0], s[0 + 1], k);
      BorderAfterPass(v, m, k, s[0], s[1], s[0], Pass(v, k, s[1..])[0]);
      LevelChainCons(v, s[0], Pass(v, k, s[1..]), k + 1);
    }
  }

  lemma {:induction false} PassKeepsBytes(v: Vocab, m: nat, k: nat, s: seq<nat>)
    requires InstalledTo(v, m) && k < m <= |v.bytes| && Tokens(v, s)
    ensures Tokens(v, Pass(v, k, s)) && Decode(v, Pass(v, k, s)) == Decode(v, s)
    decreases |s|
  {
    if |s| < 2 {
    } else if IsMerge(v, k, s[0], s[1]) {
      assert SplitOk(v, k);
      PassKeepsBytes(v, m, k, s[2..]);
      DecodeConcat(v, [k], Pass(v, k, s[2..]));
      DecodeOne(v, k);
      assert s[1..][1..] == s[2..];
    } else {
      PassKeepsBytes(v, m, k, s[1..]);
      DecodeConcat(v, [s[0]], Pass(v, k, s[1..]));
      DecodeOne(v, s[0]);
    }
  }

  lemma SinglesAreChain(v: Vocab, t: seq<byte>)
    requires Covers(v, t)
    ensures LevelChain(v, Singles(v, t), 0)
  {
  }

  /** Existence while only the rules below m are installed. */
  lemma {:induction false} PassesGiveChain(v: Vocab, m: nat, k: nat, t: seq<byte>)
    requires InstalledTo(v, m) && k <= m <= |v.bytes| && Covers(v, t)
    ensures LevelChain(v, Passes(v, k, Singles(v, t)), k)
    ensures Tokens(v, Passes(v, k, Singles(v, t))) && Decode(v, Passes(v, k, Singles(v, t))) == t
  {
    hide InstalledTo, Covers, LevelChain, Singles, Pass, Decode;
    if k == 0 {
      DecodeSingles(v, t);
      SinglesAreChain(v, t);
    } else {
      PassesGiveChain(v, m, k - 1, t);
      var s := Passes(v, k - 1, Singles(v, t));
      PassKeepsChain(v, m, k - 1, s);
      PassKeepsBytes(v, m, k - 1, s);
    }
  }

  // ---- The chain theorem -----------------------------------------------------

  ghost predicate IsChain(v: Vocab, s: seq<nat>) {
    && Tokens(v, s)
    && forall i :: 0 <= i && i + 1 < |s| ==> ValidPair(v, s[i], s[i + 1])
  }

  /** Every encoding is a chain for its text. */
  lemma BpeIsChain(v: Vocab, t: seq<byte>)
    requires WellFormed(v) && Covers(v, t)
    ensures IsChain(v, Bpe(v, t)) && Decode(v, Bpe(v, t)) == t
  {
    var n := |v.bytes|;
    NaiveIsPasses(v, Singles(v, t));
    PassesGiveChain(v, n, n, t);
    var s := Bpe(v, t);
    forall i | 0 <= i && i + 1 < |s| ensures ValidPair(v, s[i], s[i + 1]) {
      assert NoCrossBelow(v, s[i], s[i + 1], n);
    }
  }

  /** Every chain is the encoding of its bytes, so each text has exactly one. */
  lemma ChainIsBpe(v: Vocab, s: seq<nat>)
    requires WellFormed(v) && IsChain(v, s)
    ensures Bpe(v, Decode(v, s)) == s
  {
    var n := |v.bytes|;
    forall i | 0 <= i && i + 1 < |s| ensures NoCrossBelow(v, s[i], s[i + 1], n) {
      assert ValidPair(v, s[i], s[i + 1]);
    }
    ChainUniqueAtLevel(v, n, s);
    NaiveIsPasses(v, Singles(v, Decode(v, s)));
  }

  lemma {:induction false} TokenCovered(v: Vocab, x: nat)
    requires WellFormed(v) && x < |v.bytes|
    ensures Covers(v, v.bytes[x])
  {
    assert SplitOk(v, x);
    if |v.bytes[x]| == 1 {
      assert v.bytes[x] == [v.bytes[x][0]];
    } else {
      TokenCovered(v, v.left[x]);
      TokenCovered(v, v.right[x]);
      CoversSplit(v, v.bytes[v.left[x]], v.bytes[v.right[x]]);
    }
  }

  lemma {:induction false} DecodedCovered(v: Vocab, s: seq<nat>)
    requires WellFormed(v) && Tokens(v, s)
    ensures Covers(v, Decode(v, s))
  {
    if s != [] {
      TokenCovered(v, s[0]);
      DecodedCovered(v, s[1..]);
      CoversSplit(v, v.bytes[s[0]], Decode(v, s[1..]));
    }
  }

  lemma ChainTheorem(v: Vocab, s: seq<nat>)
    requires WellFormed(v) && Tokens(v, s)
    ensures IsChain(v, s) <==> Bpe(v, Decode(v, s)) == s
  {
    DecodedCovered(v, s);
    if IsChain(v, s) {
      ChainIsBpe(v, s);
    }
    BpeIsChain(v, Decode(v, s));
  }

  /** What the pair check decides: encoding the two tokens' bytes together keeps them apart. */
  lemma ValidPairMeaning(v: Vocab, a: nat, b: nat)
    requires WellFormed(v) && a < |v.bytes| && b < |v.bytes|
    ensures ValidPair(v, a, b) <==> Bpe(v, v.bytes[a] + v.bytes[b]) == [a, b]
  {
    DecodeOne(v, a);
    DecodeOne(v, b);
    DecodeConcat(v, [a], [b]);
    assert [a] + [b] == [a, b];
    ChainTheorem(v, [a, b]);
    assert ValidPair(v, a, b) <==> ValidPair(v, [a, b][0], [a, b][1]);
  }

  /** Every token encodes to itself. */
  lemma TokenEncodesToItself(v: Vocab, x: nat)
    requires WellFormed(v) && x < |v.bytes|
    ensures Bpe(v, v.bytes[x]) == [x]
  {
    DecodeOne(v, x);
    ChainTheorem(v, [x]);
  }

  // ---- Working with chains ----------------------------------------------------

  lemma ChainConcat(v: Vocab, s: seq<nat>, t: seq<nat>)
    ensures IsChain(v, s + t) <==>
            IsChain(v, s) && IsChain(v, t) && (s != [] && t != [] ==> ValidPair(v, Last(s), t[0]))
  {
    var w := s + t;
    if IsChain(v, w) {
      forall i | 0 <= i < |s| ensures s[i] < |v.bytes| { assert w[i] == s[i]; }
      forall i | 0 <= i < |t| ensures t[i] < |v.bytes| { assert w[|s| + i] == t[i]; }
      forall i | 0 <= i && i + 1 < |s| ensures ValidPair(v, s[i], s[i + 1]) {
        assert ValidPair(v, w[i], w[i + 1]);
      }
      forall i | 0 <= i && i + 1 < |t| ensures ValidPair(v, t[i], t[i + 1]) {
        assert ValidPair(v, w[|s| + i], w[|s| + i + 1]);
      }
      if s != [] && t != [] {
        assert ValidPair(v, w[|s| - 1], w[|s| - 1 + 1]);
      }
    }
    if IsChain(v, s) && IsChain(v, t) && (s != [] && t != [] ==> ValidPair(v, Last(s), t[0])) {
      forall i | 0 <= i && i + 1 < |w| ensures ValidPair(v, w[i], w[i + 1]) {
        if i + 1 < |s| {
          assert ValidPair(v, s[i], s[i + 1]);
        } else if i >= |s| {
          assert ValidPair(v, t[i - |s|], t[i - |s| + 1]);
        }
      }
    }
  }
}
