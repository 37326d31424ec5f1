/** How a vocabulary is trained, and which tables training can give. */
module Training {
  import opened Vocabulary
  import opened Merging
  import opened Chain

  // ---- Tables that agree on the first rules ---------------------------------------------

  ghost predicate Agree(v: Vocab, w: Vocab, m: nat) {
    && |v.left| == |w.left| && |v.right| == |w.right| && m <= |v.left| && m <= |v.right|
    && forall r :: 0 <= r < m ==> v.left[r] == w.left[r] && v.right[r] == w.right[r]
  }

  lemma {:induction false} AgreeEdges(v: Vocab, w: Vocab, m: nat, x: nat, k: nat)
    requires Agree(v, w, m) && x < m
    ensures RightEdge(v, x, k) == RightEdge(w, x, k) && LeftEdge(v, x, k) == LeftEdge(w, x, k)
    decreases x
  {
    if !(x < k || Primitive(v, x)) {
      AgreeEdges(v, w, m, v.left[x], k);
      AgreeEdges(v, w, m, v.right[x], k);
    }
  }

  lemma AgreeCrosses(v: Vocab, w: Vocab, m: nat, a: nat, b: nat, j: nat)
    requires Agree(v, w, m) && a < m && b < m && j <= m && NoCrossBelow(v, a, b, j)
    ensures NoCrossBelow(w, a, b, j)
  {
    forall k: nat | k < j ensures !Crosses(w, a, b, k) {
      assert !Crosses(v, a, b, k);
      AgreeEdges(v, w, m, a, k + 1);
      AgreeEdges(v, w, m, b, k);
    }
  }

  // ---- Training runs --------------------------------------------------------------------

  /** No rules yet: every token points to itself. */
  ghost predicate Blank(v: Vocab, words: seq<seq<byte>>) {
    && v.bytes == words && |v.left| == |words| == |v.right|
    && forall r :: 0 <= r < |words| ==> v.left[r] == r == v.right[r]
  }

  /** Installing the rule that makes id from a and b. */
  function Install(v: Vocab, id: nat, a: nat, b: nat): Vocab
    requires id < |v.left| && id < |v.right|
  {
    Vocab(v.bytes, v.left[id := a], v.right[id := b])
  }

  /** In text t, encoded with the rules below r, the tokens at i and i + 1 are joined into r. */
  ghost predicate LearnsFrom(u: Vocab, r: nat, t: seq<byte>, i: nat, v: Vocab) {
    var s := Passes(u, r, Singles(u, t));
    && Covers(u, t) && i + 1 < |s| && s[i] < r && s[i + 1] < r < |u.bytes| && s[i] < |u.bytes| && s[i + 1] < |u.bytes|
    && u.bytes[r] == u.bytes[s[i]] + u.bytes[s[i + 1]]
    && r < |u.left| && r < |u.right| && v == Install(u, r, s[i], s[i + 1])
  }

  /** One step of training: a single byte needs no rule, a longer token joins two neighbours of some text. */
  ghost predicate Learns(u: Vocab, r: nat, v: Vocab) {
    && r < |u.bytes|
    && if |u.bytes[r]| == 1 then v == u else exists t: seq<byte>, i: nat :: LearnsFrom(u, r, t, i, v)
  }

  /** A training run: the tables before the first token, after it, and so on to the last. */
  ghost predicate TrainingRun(run: seq<Vocab>, words: seq<seq<byte>>) {
    && |run| == |words| + 1 && Blank(run[0], words)
    && forall r :: 0 <= r < |words| ==> Learns(run[r], r, run[r + 1])
  }

  /** Some training run ends in table v for these words. */
  ghost predicate Trained(v: Vocab, words: seq<seq<byte>>) {
    exists run :: TrainingRun(run, words) && run[|words|] == v
  }

  ghost predicate TableFor(v: Vocab, words: seq<seq<byte>>) {
    WellFormed(v) && v.bytes == words
  }

  ghost predicate DistinctTokens(words: seq<seq<byte>>) {
    && |words| <= UINT32_MAX && (forall i :: 0 <= i < |words| ==> words[i] != [])
    && forall x, y :: 0 <= x < |words| && 0 <= y < |words| && words[x] == words[y] ==> x == y
  }

  // ---- What training keeps -----------------------------------------------------------------

  lemma BlankInstalled(v: Vocab, words: seq<seq<byte>>)
    requires DistinctTokens(words) && Blank(v, words)
    ensures InstalledTo(v, 0)
  {
  }

  lemma InstallKeepsShape(u: Vocab, r: nat, a: nat, b: nat)
    requires Shape(u) && DistinctBytes(u) && r < |u.bytes| && a < r && b < r
    ensures Shape(Install(u, r, a, b)) && DistinctBytes(Install(u, r, a, b)) && Agree(u, Install(u, r, a, b), r)
  {
    var v := Install(u, r, a, b);
    forall x | 0 <= x < |v.bytes| ensures ShapeAt(v, x) {
      assert ShapeAt(u, x);
    }
  }

  lemma AgreeSplit(u: Vocab, v: Vocab, m: nat, x: nat)
    requires Shape(u) && Shape(v) && u.bytes == v.bytes && Agree(u, v, m) && x < m && x < |u.bytes| && SplitOk(u, x)
    ensures SplitOk(v, x)
  {
    assert ShapeAt(u, x) && ShapeAt(v, x);
    if !Primitive(u, x) {
      AgreeCrosses(u, v, m, u.left[x], u.right[x], x);
    }
  }

  lemma InstalledNext(u: Vocab, r: nat, a: nat, b: nat)
    requires InstalledTo(u, r) && r < |u.bytes| && a < r && b < r
    requires u.bytes[r] == u.bytes[a] + u.bytes[b] && NoCrossBelow(u, a, b, r)
    ensures InstalledTo(Install(u, r, a, b), r + 1)
  {
    var v := Install(u, r, a, b);
    InstallKeepsShape(u, r, a, b);
    forall x | 0 <= x < |v.bytes| && x < r + 1 ensures SplitOk(v, x) {
      if x < r {
        assert SplitOk(u, x);
        AgreeSplit(u, v, r, x);
      } else {
        assert ShapeAt(u, a) && ShapeAt(u, b);
        AgreeCrosses(u, v, r, a, b, r);
      }
    }
    forall x | r + 1 <= x < |v.bytes| ensures Primitive(v, x) {
      assert Primitive(u, x);
    }
  }

  /** A step of training installs its rule with a clean border: neighbours are neighbours in a chain. */
  lemma LearnsInstalls(u: Vocab, r: nat, v: Vocab)
    requires InstalledTo(u, r) && Learns(u, r, v)
    ensures InstalledTo(v, r + 1) && v.bytes == u.bytes
  {
    if |u.bytes[r]| == 1 {
    } else {
      var t: seq<byte>, i: nat :| LearnsFrom(u, r, t, i, v);
      var s := Passes(u, r, Singles(u, t));
      PassesGiveChain(u, r, r, t);
      assert NoCrossBelow(u, s[i], s[i + 1], r);
      InstalledNext(u, r, s[i], s[i + 1]);
    }
  }

  /** Whatever texts a training run looks at, its rules stay installed. */
  lemma {:induction false} RunInstalls(run: seq<Vocab>, words: seq<seq<byte>>, m: nat)
    requires DistinctTokens(words) && m <= |words| && TrainingRun(run, words)
    ensures InstalledTo(run[m], m) && run[m].bytes == words
  {
    hide InstalledTo, Learns, DistinctTokens;
    if m == 0 {
      BlankInstalled(run[0], words);
    } else {
      RunInstalls(run, words, m - 1);
      assert Learns(run[m - 1], m - 1, run[m - 1 + 1]);
      LearnsInstalls(run[m - 1], m - 1, run[m]);
    }
  }

  // ---- Every table is learned ----------------------------------------------------------------

  lemma PairIsLevelChain(v: Vocab, m: nat, a: nat, b: nat)
    requires InstalledTo(v, m) && a < m <= |v.bytes| && b < m && NoCrossBelow(v, a, b, m)
    ensures Passes(v, m, Singles(v, v.bytes[a] + v.bytes[b])) == [a, b]
  {
    DecodeOne(v, a);
    DecodeOne(v, b);
    DecodeConcat(v, [a], [b]);
    assert [a] + [b] == [a, b];
    ChainUniqueAtLevel(v, m, [a, b]);
  }

  /** The rules of v below m, and no others. */
  ghost function Cut(v: Vocab, m: nat): Vocab
    requires |v.left| == |v.bytes| == |v.right|
  {
    Vocab(v.bytes, seq(|v.bytes|, i requires 0 <= i < |v.left| => if i < m then v.left[i] else i),
          seq(|v.bytes|, i requires 0 <= i < |v.right| => if i < m then v.right[i] else i))
  }

  lemma CutNext(v: Vocab, m: nat)
    requires WellFormed(v) && m < |v.bytes|
    ensures Agree(v, Cut(v, m), m)
    ensures |v.bytes[m]| == 1 ==> Cut(v, m + 1) == Cut(v, m)
    ensures |v.bytes[m]| > 1 ==>
              && v.left[m] < m && v.right[m] < m
              && Cut(v, m + 1) == Install(Cut(v, m), m, v.left[m], v.right[m])
  {
    assert SplitOk(v, m) && ShapeAt(v, m);
  }

  /** The token's own bytes are a text in which its halves stand side by side. */
  lemma LearnedFromItself(v: Vocab, m: nat)
    requires WellFormed(v) && m < |v.bytes| && InstalledTo(Cut(v, m), m) && |v.bytes[m]| > 1
    ensures LearnsFrom(Cut(v, m), m, v.bytes[m], 0, Cut(v, m + 1))
  {
    var u := Cut(v, m);
    assert SplitOk(v, m);
    CutNext(v, m);
    TokenCovered(v, m);
    CutCovers(v, m, v.bytes[m]);
    AgreeCrosses(v, u, m, v.left[m], v.right[m], m);
    PairIsLevelChain(u, m, v.left[m], v.right[m]);
  }

  lemma CutCovers(v: Vocab, m: nat, t: seq<byte>)
    requires |v.left| == |v.bytes| == |v.right| && Covers(v, t)
    ensures Covers(Cut(v, m), t)
  {
  }

  lemma CutInstalled(v: Vocab, m: nat)
    requires WellFormed(v) && m <= |v.bytes|
    ensures InstalledTo(Cut(v, m), m)
  {
    var u := Cut(v, m);
    forall r | 0 <= r < |u.bytes| ensures ShapeAt(u, r) {
      assert ShapeAt(v, r);
    }
    forall r | 0 <= r < |u.bytes| && r < m ensures SplitOk(u, r) {
      assert SplitOk(v, r);
      AgreeSplit(v, u, m, r);
    }
  }

  lemma CutLearns(v: Vocab, m: nat)
    requires WellFormed(v) && m < |v.bytes|
    ensures Learns(Cut(v, m), m, Cut(v, m + 1))
  {
    CutNext(v, m);
    CutInstalled(v, m);
    assert ShapeAt(v, m);
    hide WellFormed, InstalledTo, LearnsFrom;
    if |v.bytes[m]| != 1 {
      LearnedFromItself(v, m);
    }
  }

  lemma CutsAreRun(v: Vocab) returns (run: seq<Vocab>)
    requires WellFormed(v)
    ensures TrainingRun(run, v.bytes) && run[|v.bytes|] == v
  {
    var n := |v.bytes|;
    run := seq(n + 1, m requires 0 <= m <= n => Cut(v, m));
    assert Cut(v, n) == v;
    forall r | 0 <= r < n ensures Learns(run[r], r, run[r + 1]) {
      CutLearns(v, r);
    }
  }

  /** Training can end in exactly the well-formed tables. */
  lemma TrainedIffWellFormed(v: Vocab, words: seq<seq<byte>>)
    requires DistinctTokens(words)
    ensures Trained(v, words) <==> TableFor(v, words)
  {
    if Trained(v, words) {
      var run :| TrainingRun(run, words) && run[|words|] == v;
      RunInstalls(run, words, |words|);
    }
    if TableFor(v, words) {
      var run := CutsAreRun(v);
    }
  }
}
