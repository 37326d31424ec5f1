/** Merging by bytes, lowest identifier first. */
module LowestFirst {

  // When does it give the encoding?

  import opened Vocabulary
  import opened Merging
  import opened Chain

  /** The segments at i and i + 1 together spell token r. */
  ghost predicate JoinsAt(v: Vocab, s: seq<nat>, i: nat, r: nat) {
    && i + 1 < |s| && s[i] < |v.bytes| && s[i + 1] < |v.bytes| && r < |v.bytes|
    && v.bytes[r] == v.bytes[s[i]] + v.bytes[s[i + 1]]
  }

  ghost predicate NoJoin(v: Vocab, s: seq<nat>) {
    forall i: nat, r: nat :: !JoinsAt(v, s, i, r)
  }

  /** No two neighbours spell a smaller token and, when leftmost is asked for, none further
      left spell the same. */
  ghost predicate LowestJoin(v: Vocab, leftmost: bool, s: seq<nat>, i: nat, r: nat) {
    && JoinsAt(v, s, i, r)
    && forall j: nat, q: nat :: JoinsAt(v, s, j, q) ==> r <= q && (leftmost && q == r ==> i <= j)
  }

  /** u comes from s by joins each of which is the lowest at its turn. */
  ghost predicate Reaches(v: Vocab, leftmost: bool, s: seq<nat>, u: seq<nat>)
    decreases |s|
  {
    s == u || exists i: nat, r: nat :: LowestJoin(v, leftmost, s, i, r) && Reaches(v, leftmost, Replace(s, i, r), u)
  }

  /** Before a rule that doubles a token runs, three copies of that token stand in a row. */
  ghost predicate HasTriple(v: Vocab, t: seq<byte>) {
    exists r: nat, p: nat :: TripleAt(v, t, r, p)
  }

  ghost predicate TripleAt(v: Vocab, t: seq<byte>, r: nat, p: nat) {
    && !Primitive(v, r) && v.left[r] == v.right[r]
    && ThreeAt(Passes(v, r, Singles(v, t)), p, v.left[r])
  }

  ghost predicate ThreeAt(s: seq<nat>, p: nat, x: nat) {
    p + 2 < |s| && s[p] == s[p + 1] == s[p + 2] == x
  }

  // ---- Joins by bytes are merges by rule ---------------------------------------------------

  lemma ExpandSplits(v: Vocab, x: nat, m: nat)
    requires !(x < m || Primitive(v, x))
    ensures Expand(v, x, m) == Expand(v, v.left[x], m) + Expand(v, v.right[x], m)
    ensures Expand(v, v.left[x], m) != [] && Expand(v, v.right[x], m) != []
  {
  }

  lemma ExpandSingle(v: Vocab, x: nat, m: nat, y: nat)
    requires Expand(v, x, m) == [y]
    ensures x == y
  {
    if !(x < m || Primitive(v, x)) {
      ExpandSplits(v, x, m);
    }
  }

  lemma SplitPair(l: seq<nat>, r: seq<nat>, a: nat, b: nat)
    requires l != [] && r != [] && l + r == [a, b]
    ensures l == [a] && r == [b]
  {
    assert |l + r| == 2;
    assert (l + r)[0] == a && (l + r)[1] == b;
  }

  lemma ExpandPair(v: Vocab, x: nat, m: nat, a: nat, b: nat)
    requires Expand(v, x, m) == [a, b]
    ensures IsMerge(v, x, a, b)
  {
    assert |Expand(v, x, m)| == 2;
    assert !(x < m || Primitive(v, x));
    ExpandSplits(v, x, m);
    SplitPair(Expand(v, v.left[x], m), Expand(v, v.right[x], m), a, b);
    ExpandSingle(v, v.left[x], m, a);
    ExpandSingle(v, v.right[x], m, b);
  }

  /** Two neighbours no rule below m reaches across, both older than m: if their bytes make
      a token, some rule merges exactly them. */
  lemma JoinIsMerge(v: Vocab, m: nat, a: nat, b: nat, r: nat)
    requires WellFormed(v) && m <= |v.bytes| && AtLevel(v, a, m) && AtLevel(v, b, m) && NoCrossBelow(v, a, b, m)
    requires r < |v.bytes| && v.bytes[r] == v.bytes[a] + v.bytes[b]
    ensures IsMerge(v, r, a, b)
  {
    var n := |v.bytes|;
    DecodeOne(v, a);
    DecodeOne(v, b);
    DecodeConcat(v, [a], [b]);
    assert [a] + [b] == [a, b];
    PassesOfChain(v, n, [a, b], m);
    PairExpands(v, a, b, m);
    DecodeOne(v, r);
    PassesOfChain(v, n, [r], m);
    OneExpands(v, r, m);
    ExpandPair(v, r, m, a, b);
  }

  lemma OneExpands(v: Vocab, r: nat, m: nat)
    ensures ExpandAll(v, [r], m) == Expand(v, r, m)
  {
  }

  lemma PairExpands(v: Vocab, a: nat, b: nat, m: nat)
    requires WellFormed(v) && AtLevel(v, a, m) && AtLevel(v, b, m)
    ensures ExpandAll(v, [a, b], m) == [a, b]
  {
    assert SplitOk(v, a) && SplitOk(v, b);
    assert [a, b][..1] == [a];
    OneExpands(v, a, m);
  }

  lemma MergeIsJoin(v: Vocab, s: seq<nat>, i: nat, r: nat)
    requires WellFormed(v) && MergesAt(v, s, i, r)
    ensures JoinsAt(v, s, i, r)
  {
    assert SplitOk(v, r);
  }

  // ---- Where lowest-first merging stands ----------------------------------------------------

  /** Rule k is at work: nothing newer than k is present, no older rule reaches across a
      border, and at a token made by k neither does k itself. */
  ghost predicate LevelOk(v: Vocab, s: seq<nat>, k: nat) {
    && AllAtLevel(v, s, k + 1)
    && ChainBelow(v, s, k)
    && forall i :: 0 <= i && i + 1 < |s| && (s[i] == k || s[i + 1] == k) ==> !Crosses(v, s[i], s[i + 1], k)
  }

  lemma LevelJoinIsMerge(v: Vocab, s: seq<nat>, k: nat, i: nat, r: nat)
    requires WellFormed(v) && LevelOk(v, s, k) && k < |v.bytes| && JoinsAt(v, s, i, r)
    ensures MergesAt(v, s, i, r)
  {
    var a, b := s[i], s[i + 1];
    assert AtLevel(v, a, k + 1) && AtLevel(v, b, k + 1);
    assert NoCrossBelow(v, s[i], s[i + 1], k);
    if a == k || b == k {
      JoinIsMerge(v, k + 1, a, b, r);
    } else {
      JoinIsMerge(v, k, a, b, r);
    }
  }

  /** With nothing to merge below k + 1, rule k is done. */
  lemma RaiseOne(v: Vocab, s: seq<nat>, k: nat)
    requires WellFormed(v) && LevelOk(v, s, k) && k < |v.bytes| && Settled(v, s, k + 1)
    ensures LevelOk(v, s, k + 1)
  {
    forall i | 0 <= i && i + 1 < |s| ensures NoCrossBelow(v, s[i], s[i + 1], k + 1) {
      assert NoCrossBelow(v, s[i], s[i + 1], k);
      OldBorder(v, s, k, i);
    }
    forall i | 0 <= i && i + 1 < |s| && (s[i] == k + 1 || s[i + 1] == k + 1)
      ensures !Crosses(v, s[i], s[i + 1], k + 1)
    {
      assert AtLevel(v, s[i], k + 1) && AtLevel(v, s[i + 1], k + 1);
      assert SplitOk(v, s[i]) && SplitOk(v, s[i + 1]);
    }
  }

  lemma OldBorder(v: Vocab, s: seq<nat>, k: nat, i: nat)
    requires WellFormed(v) && LevelOk(v, s, k) && k < |v.bytes| && Settled(v, s, k + 1) && i + 1 < |s|
    ensures !Crosses(v, s[i], s[i + 1], k)
  {
    var a, b := s[i], s[i + 1];
    assert AtLevel(v, a, k + 1) && AtLevel(v, b, k + 1);
    assert SplitOk(v, a) && SplitOk(v, b);
    if a != k && b != k {
      assert RightEdge(v, a, k + 1) == a && LeftEdge(v, b, k) == b;
      assert !MergesAt(v, s, i, k);
    }
  }

  lemma {:induction false} Raise(v: Vocab, s: seq<nat>, k: nat, m: nat)
    requires WellFormed(v) && LevelOk(v, s, k) && k <= m <= |v.bytes| && Settled(v, s, m)
    ensures LevelOk(v, s, m)
    decreases m - k
  {
    if k < m {
      RaiseOne(v, s, k);
      Raise(v, s, k + 1, m);
    }
  }

  /** A merge of k keeps the level, if the pair just to its left could not have been merged
      into k. */
  lemma LevelReplace(v: Vocab, s: seq<nat>, k: nat, i: nat)
    requires WellFormed(v) && LevelOk(v, s, k) && MergesAt(v, s, i, k)
    requires i > 0 ==> !MergesAt(v, s, i - 1, k)
    ensures LevelOk(v, Replace(s, i, k), k)
  {
    var s' := Replace(s, i, k);
    assert SplitOk(v, k);
    forall j | 0 <= j < |s'| ensures AtLevel(v, s'[j], k + 1) {
      if j < i {
        assert AtLevel(v, s[j], k + 1);
      } else if j > i {
        assert AtLevel(v, s[j + 1], k + 1);
      }
    }
    forall j | 0 <= j && j + 1 < |s'|
      ensures NoCrossBelow(v, s'[j], s'[j + 1], k)
      ensures s'[j] == k || s'[j + 1] == k ==> !Crosses(v, s'[j], s'[j + 1], k)
    {
      if j + 1 < i {
        assert NoCrossBelow(v, s[j], s[j + 1], k);
      } else if j + 1 == i {
        BorderBefore(v, s, k, i);
      } else if j == i {
        BorderAfter(v, s, k, i);
      } else {
        assert NoCrossBelow(v, s[j + 1], s[j + 1 + 1], k);
      }
    }
  }

  lemma BorderBefore(v: Vocab, s: seq<nat>, k: nat, i: nat)
    requires WellFormed(v) && LevelOk(v, s, k) && MergesAt(v, s, i, k) && i > 0
    requires !MergesAt(v, s, i - 1, k)
    ensures NoCrossBelow(v, s[i - 1], k, k) && !Crosses(v, s[i - 1], k, k)
  {
    var p := s[i - 1];
    assert NoCrossBelow(v, s[i - 1], s[i - 1 + 1], k);
    assert AtLevel(v, p, k + 1) && SplitOk(v, p);
    forall j: nat | j < k ensures !Crosses(v, p, k, j) {
      CrossThroughRight(v, p, k, j);
    }
    CrossThroughRight(v, p, k, k);
    assert RightEdge(v, p, k + 1) == p;
    assert LeftEdge(v, v.left[k], k) == v.left[k];
  }

  lemma BorderAfter(v: Vocab, s: seq<nat>, k: nat, i: nat)
    requires WellFormed(v) && LevelOk(v, s, k) && MergesAt(v, s, i, k) && i + 2 < |s|
    ensures NoCrossBelow(v, k, s[i + 2], k) && !Crosses(v, k, s[i + 2], k)
  {
    var c := s[i + 2];
    assert NoCrossBelow(v, s[i + 1], s[i + 1 + 1], k);
    forall j: nat | j < k ensures !Crosses(v, k, c, j) {
      CrossThroughLeft(v, k, c, j);
    }
  }

  lemma SinglesLevel(v: Vocab, t: seq<byte>)
    requires WellFormed(v) && Covers(v, t) && 0 < |v.bytes|
    ensures LevelOk(v, Singles(v, t), 0) && Settled(v, Singles(v, t), 0)
  {
  }

  // ---- The text stays the same -------------------------------------------------------------

  /** A join does not change the text. */
  lemma JoinDecode(v: Vocab, s: seq<nat>, i: nat, r: nat)
    requires Tokens(v, s) && JoinsAt(v, s, i, r)
    ensures Tokens(v, Replace(s, i, r)) && Decode(v, Replace(s, i, r)) == Decode(v, s)
  {
    var l, m, e := s[..i], [s[i], s[i + 1]], s[i + 2..];
    assert s == l + (m + e);
    assert Replace(s, i, r) == l + ([r] + e);
    PairDecode(v, s[i], s[i + 1]);
    DecodeOne(v, r);
    hide *;
    DecodeConcat(v, m, e);
    DecodeConcat(v, l, m + e);
    DecodeConcat(v, [r], e);
    DecodeConcat(v, l, [r] + e);
  }

  lemma PairDecode(v: Vocab, a: nat, b: nat)
    requires a < |v.bytes| && b < |v.bytes|
    ensures Tokens(v, [a, b]) && Decode(v, [a, b]) == v.bytes[a] + v.bytes[b]
  {
    DecodeOne(v, a);
    DecodeOne(v, b);
    DecodeConcat(v, [a], [b]);
    assert [a] + [b] == [a, b];
  }

  lemma TripleDecode(v: Vocab, s: seq<nat>, i: nat, x: nat)
    requires Tokens(v, s) && i + 2 < |s| && s[i] == s[i + 1] == s[i + 2] == x
    ensures |Decode(v, s[..i])| <= |Decode(v, s)|
    ensures v.bytes[x] + v.bytes[x] + v.bytes[x] <= Decode(v, s)[|Decode(v, s[..i])|..]
  {
    var w := v.bytes[x];
    var l, m, e := s[..i], [x, x] + [x], s[i + 3..];
    assert s == l + (m + e);
    PairDecode(v, x, x);
    DecodeOne(v, x);
    hide *;
    DecodeConcat(v, [x, x], [x]);
    DecodeConcat(v, m, e);
    DecodeConcat(v, l, m + e);
  }

  /** Two overlapping merges into k need three copies of its half in a row. */
  lemma OverlapIsTriple(v: Vocab, s: seq<nat>, i: nat, k: nat)
    requires WellFormed(v) && k < |v.bytes| && Tokens(v, s) && LevelOk(v, s, k)
    requires i > 0 && MergesAt(v, s, i - 1, k) && MergesAt(v, s, i, k)
    ensures HasTriple(v, Decode(v, s))
  {
    LevelPasses(v, s, k);
    var x := v.left[k];
    assert ShapeAt(v, k);
    ExpandThree(v, s, i - 1, x, k);
    var p := |ExpandAll(v, s[..i - 1], k)|;
    assert TripleAt(v, Decode(v, s), k, p);
  }

  /** At level k the segments, newer tokens split again, are what the passes of the rules below k give. */
  lemma LevelPasses(v: Vocab, s: seq<nat>, k: nat)
    requires WellFormed(v) && k < |v.bytes| && Tokens(v, s) && LevelOk(v, s, k)
    ensures Passes(v, k, Singles(v, Decode(v, s))) == ExpandAll(v, s, k)
  {
    PassesOfChain(v, |v.bytes|, s, k);
  }

  /** Three copies of a token below k stay next to each other. */
  lemma ExpandThree(v: Vocab, s: seq<nat>, i: nat, x: nat, k: nat)
    requires ThreeAt(s, i, x) && x < k
    ensures ThreeAt(ExpandAll(v, s, k), |ExpandAll(v, s[..i], k)|, x)
  {
    ExpandNext(v, s, i, k);
    ExpandNext(v, s, i + 1, k);
    ExpandNext(v, s, i + 2, k);
    assert Expand(v, x, k) == [x];
    ExpandPrefix(v, s, i + 3, k);
  }

  lemma ExpandNext(v: Vocab, s: seq<nat>, i: nat, k: nat)
    requires i < |s|
    ensures ExpandAll(v, s[..i + 1], k) == ExpandAll(v, s[..i], k) + Expand(v, s[i], k)
  {
    assert s[..i + 1][..i] == s[..i];
  }

  lemma {:induction false} ExpandPrefix(v: Vocab, s: seq<nat>, i: nat, k: nat)
    requires i <= |s|
    ensures ExpandAll(v, s[..i], k) <= ExpandAll(v, s, k)
    decreases |s| - i
  {
    if i == |s| {
      assert s[..i] == s;
    } else {
      ExpandNext(v, s, i, k);
      ExpandPrefix(v, s, i + 1, k);
    }
  }

  /** Three copies in a row are there in the text itself: without them no pass needs to be run. */
  lemma TripleInText(v: Vocab, t: seq<byte>, r: nat, p: nat)
    requires WellFormed(v) && Covers(v, t) && TripleAt(v, t, r, p)
    ensures r < |v.bytes| && v.left[r] < |v.bytes|
    ensures exists q: nat :: q <= |t| && var w := v.bytes[v.left[r]]; w + w + w <= t[q..]
  {
    var s := Passes(v, r, Singles(v, t));
    PassesGiveChain(v, |v.bytes|, r, t);
    TripleDecode(v, s, p, v.left[r]);
    DecodeSplit(v, s, p);
  }

  lemma DecodeSplit(v: Vocab, s: seq<nat>, i: nat)
    requires Tokens(v, s) && i <= |s|
    ensures Decode(v, s) == Decode(v, s[..i]) + Decode(v, s[i..])
  {
    DecodeConcat(v, s[..i], s[i..]);
    assert s == s[..i] + s[i..];
  }

  // ---- The result ------------------------------------------------------------------------------

  /** Lowest-first merging that stops only when nothing joins ends in a chain, provided ties
      go to the left or no three copies of a token stand in a row when a rule doubles it. */
  lemma {:induction false} ReachesChain(v: Vocab, leftmost: bool, t: seq<byte>, s: seq<nat>, u: seq<nat>, k: nat)
    requires WellFormed(v) && Tokens(v, s) && Decode(v, s) == t && (leftmost || !HasTriple(v, t))
    requires LevelOk(v, s, k) && Settled(v, s, k) && k < |v.bytes|
    requires Reaches(v, leftmost, s, u) && NoJoin(v, u)
    ensures IsChain(v, u)
    decreases |s|
  {
    if s == u {
      hide LevelOk, WellFormed, HasTriple, Reaches, Decode;
      NoJoinSettled(v, u);
      Raise(v, u, k, |v.bytes|);
      LevelIsChain(v, u);
    } else {
      var i: nat, r: nat :| LowestJoin(v, leftmost, s, i, r) && Reaches(v, leftmost, Replace(s, i, r), u);
      LowestStep(v, leftmost, t, s, k, i, r);
      ReachesChain(v, leftmost, t, Replace(s, i, r), u, r);
    }
  }

  lemma NoJoinSettled(v: Vocab, u: seq<nat>)
    requires WellFormed(v) && NoJoin(v, u)
    ensures Settled(v, u, |v.bytes|)
  {
    forall j: nat, q: nat ensures !MergesAt(v, u, j, q) {
      if MergesAt(v, u, j, q) { MergeIsJoin(v, u, j, q); }
    }
  }

  lemma LevelIsChain(v: Vocab, u: seq<nat>)
    requires LevelOk(v, u, |v.bytes|)
    ensures IsChain(v, u)
  {
  }

  lemma LowestStep(v: Vocab, leftmost: bool, t: seq<byte>, s: seq<nat>, k: nat, i: nat, r: nat)
    requires WellFormed(v) && Tokens(v, s) && Decode(v, s) == t && (leftmost || !HasTriple(v, t))
    requires LevelOk(v, s, k) && Settled(v, s, k) && k < |v.bytes|
    requires LowestJoin(v, leftmost, s, i, r)
    ensures r < |v.bytes| && i + 1 < |s| && LevelOk(v, Replace(s, i, r), r) && Settled(v, Replace(s, i, r), r)
    ensures Tokens(v, Replace(s, i, r)) && Decode(v, Replace(s, i, r)) == t
  {
    LowestMerge(v, leftmost, s, k, i, r);
    assert JoinsAt(v, s, i, r);
    hide LevelOk, WellFormed, HasTriple, LowestJoin, Decode, Tokens;
    JoinDecode(v, s, i, r);
    Raise(v, s, k, r);
    if i > 0 && MergesAt(v, s, i - 1, r) {
      OverlapIsTriple(v, s, i, r);
    }
    LevelReplace(v, s, r, i);
    ReplaceSettled(v, s, i, r);
  }

  /** The lowest join is the lowest merge. */
  lemma LowestMerge(v: Vocab, leftmost: bool, s: seq<nat>, k: nat, i: nat, r: nat)
    requires WellFormed(v) && LevelOk(v, s, k) && Settled(v, s, k) && k < |v.bytes|
    requires LowestJoin(v, leftmost, s, i, r)
    ensures MergesAt(v, s, i, r) && k <= r && Settled(v, s, r)
    ensures leftmost && i > 0 ==> !MergesAt(v, s, i - 1, r)
  {
    LevelJoinIsMerge(v, s, k, i, r);
    forall j: nat, q: nat | MergesAt(v, s, j, q) ensures r <= q && (leftmost && q == r ==> i <= j) {
      MergeIsJoin(v, s, j, q);
    }
  }

  /** Lowest-first merging of a text's bytes gives its encoding. */
  lemma LowestFirstIsBpe(v: Vocab, leftmost: bool, t: seq<byte>, u: seq<nat>)
    requires WellFormed(v) && Covers(v, t) && (leftmost || !HasTriple(v, t))
    requires Reaches(v, leftmost, Singles(v, t), u) && NoJoin(v, u)
    requires Tokens(v, u) && Decode(v, u) == t
    ensures u == Bpe(v, t)
  {
    if t == [] {
      assert u == [];
      BpeIsChain(v, t);
    } else {
      assert IsByteToken(v, t[0]);
      SinglesLevel(v, t);
      DecodeSingles(v, t);
      hide *;
      ReachesChain(v, leftmost, t, Singles(v, t), u, 0);
      ChainIsBpe(v, u);
    }
  }
}
