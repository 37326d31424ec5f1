/** What byte-pair encoding means. */
module Merging {

  // The naive procedure starts from single bytes and, as long as some adjacent pair can be
  // merged, merges the pair with the smallest resulting identifier, leftmost on ties.  Running
  // the rules once each in increasing order, left to right, gives the same result.

  import opened Vocabulary

  // ---- The naive procedure --------------------------------------------------

  predicate MergesAt(v: Vocab, s: seq<nat>, i: nat, r: nat) {
    i + 1 < |s| && IsMerge(v, r, s[i], s[i + 1])
  }

  /** Merging at i gives r, no adjacent pair gives less, and no pair further left gives r. */
  ghost predicate BestMerge(v: Vocab, s: seq<nat>, i: nat, r: nat) {
    && MergesAt(v, s, i, r)
    && (forall j: nat, q: nat :: MergesAt(v, s, j, q) ==> r <= q)
    && (forall j: nat :: MergesAt(v, s, j, r) ==> i <= j)
  }

  ghost predicate Mergeable(v: Vocab, s: seq<nat>) {
    exists i: nat, r: nat :: MergesAt(v, s, i, r)
  }

  function Replace(s: seq<nat>, i: nat, r: nat): seq<nat>
    requires i + 1 < |s|
  {
    s[..i] + [r] + s[i + 2..]
  }

  lemma BestMergeExists(v: Vocab, s: seq<nat>)
    requires Mergeable(v, s)
    ensures exists i: nat, r: nat :: BestMerge(v, s, i, r)
  {
    var i: nat, r: nat :| MergesAt(v, s, i, r);
    i, r := Improve(v, s, i, r);
  }

  lemma {:induction false} Improve(v: Vocab, s: seq<nat>, i0: nat, r0: nat) returns (i: nat, r: nat)
    requires MergesAt(v, s, i0, r0)
    ensures BestMerge(v, s, i, r)
    decreases r0, i0
  {
    if j: nat, q: nat :| MergesAt(v, s, j, q) && q < r0 {
      i, r := Improve(v, s, j, q);
    } else if j: nat :| MergesAt(v, s, j, r0) && j < i0 {
      i, r := Improve(v, s, j, r0);
    } else {
      i, r := i0, r0;
    }
  }

  /** The naive procedure run to exhaustion. */
  ghost function Naive(v: Vocab, s: seq<nat>): seq<nat>
    decreases |s|
  {
    if !Mergeable(v, s) then s
    else
      BestMergeExists(v, s);
      var i: nat, r: nat :| BestMerge(v, s, i, r);
      Naive(v, Replace(s, i, r))
  }

  /** Byte-pair encoding of a text. */
  ghost function Bpe(v: Vocab, t: seq<byte>): seq<nat> {
    Naive(v, Singles(v, t))
  }

  // ---- One rule at a time ---------------------------------------------------

  /** Rule k applied left to right. */
  function Pass(v: Vocab, k: nat, s: seq<nat>): seq<nat> {
    if |s| < 2 then s
    else if IsMerge(v, k, s[0], s[1]) then [k] + Pass(v, k, s[2..])
    else [s[0]] + Pass(v, k, s[1..])
  }

  /** Rules 0, 1, ..., m-1, one pass each. */
  ghost function Passes(v: Vocab, m: nat, s: seq<nat>): seq<nat> {
    if m == 0 then s else Pass(v, m - 1, Passes(v, m - 1, s))
  }

  /** No adjacent pair of s gives a token below m. */
  ghost predicate Settled(v: Vocab, s: seq<nat>, m: nat) {
    forall j: nat, q: nat :: MergesAt(v, s, j, q) ==> m <= q
  }

  ghost predicate NoMergeOf(v: Vocab, s: seq<nat>, k: nat) {
    forall j: nat :: !MergesAt(v, s, j, k)
  }

  lemma NaiveStep(v: Vocab, s: seq<nat>, i: nat, r: nat)
    requires BestMerge(v, s, i, r)
    ensures Naive(v, s) == Naive(v, Replace(s, i, r))
  {
  }

  /** Merges of s + t lie in s, in t, or on the border. */
  lemma MergesInConcat(v: Vocab, s: seq<nat>, t: seq<nat>, j: nat, q: nat)
    requires MergesAt(v, s + t, j, q)
    ensures MergesAt(v, s, j, q) || (|s| <= j && MergesAt(v, t, j - |s|, q))
         || (j + 1 == |s| && t != [] && IsMerge(v, q, s[|s| - 1], t[0]))
  {
  }

  /** Replacing a pair by k only creates merges of identifiers above k. */
  lemma ReplaceSettled(v: Vocab, s: seq<nat>, i: nat, k: nat)
    requires MergesAt(v, s, i, k) && Settled(v, s, k)
    ensures Settled(v, Replace(s, i, k), k)
  {
    var s' := Replace(s, i, k);
    forall j: nat, q: nat | MergesAt(v, s', j, q) ensures k <= q {
      if j + 1 < i {
        assert MergesAt(v, s, j, q);
      } else if j > i {
        assert MergesAt(v, s, j + 1, q);
      }
    }
  }

  lemma NoMergeOfExtended(v: Vocab, k: nat, u: seq<nat>, x: nat)
    requires NoMergeOf(v, u, k)
    requires u != [] ==> !IsMerge(v, k, u[|u| - 1], x)
    ensures NoMergeOf(v, u + [x], k)
  {
    forall j: nat ensures !MergesAt(v, u + [x], j, k) {
      if MergesAt(v, u + [x], j, k) {
        MergesInConcat(v, u, [x], j, k);
      }
    }
  }

  lemma PassUnfold(v: Vocab, k: nat, u: seq<nat>, w: seq<nat>)
    requires |w| >= 2
    ensures u + Pass(v, k, w) ==
            if IsMerge(v, k, w[0], w[1]) then (u + [k]) + Pass(v, k, w[2..])
            else (u + [w[0]]) + Pass(v, k, w[1..])
  {
  }

  /** Rule k is about to run over w: nothing below k can be merged, and neither inside u
      nor on the border to w can anything be merged into k. */
  ghost predicate MidPass(v: Vocab, k: nat, u: seq<nat>, w: seq<nat>) {
    && Settled(v, u + w, k)
    && NoMergeOf(v, u, k)
    && (u != [] && w != [] ==> !IsMerge(v, k, u[|u| - 1], w[0]))
  }

  lemma MidPassDone(v: Vocab, k: nat, u: seq<nat>, w: seq<nat>)
    requires MidPass(v, k, u, w) && |w| < 2
    ensures Settled(v, u + w, k + 1)
  {
    forall j: nat, q: nat | MergesAt(v, u + w, j, q) ensures k + 1 <= q {
      MergesInConcat(v, u, w, j, q);
    }
  }

  lemma MidPassSkip(v: Vocab, k: nat, u: seq<nat>, w: seq<nat>)
    requires MidPass(v, k, u, w) && |w| >= 2 && !IsMerge(v, k, w[0], w[1])
    ensures MidPass(v, k, u + [w[0]], w[1..])
    ensures (u + [w[0]]) + w[1..] == u + w
  {
    assert (u + [w[0]]) + w[1..] == u + w;
    NoMergeOfExtended(v, k, u, w[0]);
  }

  lemma MidPassMerge(v: Vocab, k: nat, u: seq<nat>, w: seq<nat>)
    requires MidPass(v, k, u, w) && |w| >= 2 && IsMerge(v, k, w[0], w[1])
    ensures BestMerge(v, u + w, |u|, k)
    ensures Replace(u + w, |u|, k) == (u + [k]) + w[2..]
  {
    assert MergesAt(v, u + w, |u|, k);
    forall j: nat | MergesAt(v, u + w, j, k) ensures |u| <= j {
      MergesInConcat(v, u, w, j, k);
    }
  }

  lemma MidPassMerged(v: Vocab, k: nat, u: seq<nat>, w: seq<nat>)
    requires MidPass(v, k, u, w) && |w| >= 2 && IsMerge(v, k, w[0], w[1])
    ensures MidPass(v, k, u + [k], w[2..])
  {
    assert MergesAt(v, u + w, |u|, k);
    ReplaceSettled(v, u + w, |u|, k);
    assert Replace(u + w, |u|, k) == (u + [k]) + w[2..];
    NoMergeOfExtended(v, k, u, k);
  }

  /** When rule k applies at the start of w, the naive procedure applies it too. */
  lemma NaiveMerges(v: Vocab, k: nat, u: seq<nat>, w: seq<nat>)
    requires MidPass(v, k, u, w) && |w| >= 2 && IsMerge(v, k, w[0], w[1])
    ensures Naive(v, u + w) == Naive(v, (u + [k]) + w[2..])
  {
    MidPassMerge(v, k, u, w);
    NaiveStep(v, u + w, |u|, k);
  }

  /** From the middle of a pass the naive procedure finishes the pass. */
  lemma {:induction false} NaiveRunsPass(v: Vocab, k: nat, u: seq<nat>, w: seq<nat>)
    requires MidPass(v, k, u, w)
    ensures Naive(v, u + w) == Naive(v, u + Pass(v, k, w))
    ensures Settled(v, u + Pass(v, k, w), k + 1)
    decreases |w|
  {
    if |w| < 2 {
      MidPassDone(v, k, u, w);
    } else if IsMerge(v, k, w[0], w[1]) {
      PassUnfold(v, k, u, w);
      NaiveMerges(v, k, u, w);
      MidPassMerged(v, k, u, w);
      NaiveRunsPass(v, k, u + [k], w[2..]);
    } else {
      PassUnfold(v, k, u, w);
      MidPassSkip(v, k, u, w);
      NaiveRunsPass(v, k, u + [w[0]], w[1..]);
    }
  }

  lemma NaiveRunsWholePass(v: Vocab, k: nat, w: seq<nat>)
    requires Settled(v, w, k)
    ensures Naive(v, w) == Naive(v, Pass(v, k, w)) && Settled(v, Pass(v, k, w), k + 1)
  {
    hide Naive, Pass, IsMerge;
    assert [] + w == w;
    assert [] + Pass(v, k, w) == Pass(v, k, w);
    NaiveRunsPass(v, k, [], w);
  }

  lemma {:induction false} NaiveAfterPasses(v: Vocab, m: nat, s: seq<nat>)
    ensures Naive(v, s) == Naive(v, Passes(v, m, s))
    ensures Settled(v, Passes(v, m, s), m)
  {
    hide Naive, Pass, IsMerge;
    if m > 0 {
      NaiveAfterPasses(v, m - 1, s);
      NaiveRunsWholePass(v, m - 1, Passes(v, m - 1, s));
    }
  }

  /** The naive procedure and the pass form agree on every sequence. */
  lemma NaiveIsPasses(v: Vocab, s: seq<nat>)
    requires |v.left| == |v.bytes|
    ensures Naive(v, s) == Passes(v, |v.bytes|, s)
  {
    NaiveAfterPasses(v, |v.bytes|, s);
    assert !Mergeable(v, Passes(v, |v.bytes|, s));
  }
}
