/** Ties in the heap that orders by identifier alone: one byte repeated. */
module Ties {
  import opened Vocabulary
  import opened Merging
  import opened Chain
  import opened Heaps
  import opened HeapMerging

  /** x is the token of byte b and r the token of b b. */
  ghost predicate Pairs(v: Vocab, b: byte, x: nat, r: nat) {
    x < |v.bytes| && r < |v.bytes| && v.bytes[x] == [b] && v.bytes[r] == [b, b]
  }

  /** Three b are no token. */
  ghost predicate Doubles(v: Vocab, b: byte, x: nat, r: nat) {
    Pairs(v, b, x, r) && forall y :: 0 <= y < |v.bytes| ==> v.bytes[y] != [b, b, b]
  }

  lemma DoublesArePairs(v: Vocab, b: byte, x: nat, r: nat)
    requires Doubles(v, b, x, r)
    ensures Pairs(v, b, x, r)
  {
  }

  /** Nor are four. */
  ghost predicate NoQuadruple(v: Vocab, b: byte) {
    forall y :: 0 <= y < |v.bytes| ==> v.bytes[y] != [b, b, b, b]
  }

  function Copies<T>(a: T, n: nat): (s: seq<T>)
    ensures |s| == n
  {
    seq(n, _ => a)
  }

  /** One pair at the front, m single bytes, and pairs behind them. */
  function Segments(x: nat, r: nat, m: nat, j: nat): (s: seq<nat>)
    ensures |s| == 1 + m + j
  {
    [r] + Copies(x, m) + Copies(r, j)
  }

  /** The candidates at n places from the given one on. */
  function Candidates(r: nat, start: nat, n: nat): (h: seq<HeapItem>)
    ensures |h| == n
  {
    seq(n, (i: nat) => HeapItem(r, start + i))
  }

  /** The heap whose top is the candidate at k: the last candidate moves to the top each time. */
  function TopAt(r: nat, k: nat): seq<HeapItem> {
    if k == 0 then [] else [HeapItem(r, k)] + Candidates(r, 1, k - 1)
  }

  // ---- The tokens involved ------------------------------------------------------------------

  lemma Halves(v: Vocab, b: byte, x: nat, r: nat)
    requires WellFormed(v) && Pairs(v, b, x, r)
    ensures x < r && Primitive(v, x) && IsMerge(v, r, x, x)
  {
    assert SplitOk(v, x) && SplitOk(v, r) && ShapeAt(v, r);
    var l, h := v.left[r], v.right[r];
    assert ShapeAt(v, l) && ShapeAt(v, h);
    assert |v.bytes[l]| == 1 && |v.bytes[h]| == 1;
    assert v.bytes[r][0] == v.bytes[l][0] && v.bytes[r][1] == v.bytes[h][0];
    assert v.bytes[l] == [b] && v.bytes[h] == [b];
  }

  lemma Joined(v: Vocab, b: byte, x: nat, r: nat, y: nat, z: nat)
    requires Doubles(v, b, x, r) && (y == x || y == r) && (z == x || z == r)
    ensures var w := v.bytes[y] + v.bytes[z];
            if y == z == x then w == [b, b] else w == [b, b, b] || w == [b, b, b, b]
  {
  }

  lemma NoToken(v: Vocab, b: byte, x: nat, r: nat, y: nat, z: nat)
    requires Doubles(v, b, x, r) && (y == x || y == r) && (z == x || z == r) && !(y == z == x)
    requires y == z == r ==> NoQuadruple(v, b)
    ensures TokenFor(v, v.bytes[y] + v.bytes[z]) == None
  {
  }

  lemma OnlyMerge(v: Vocab, b: byte, x: nat, r: nat, k: nat, y: nat, z: nat)
    requires WellFormed(v) && Doubles(v, b, x, r) && (y == x || y == r) && (z == x || z == r) && IsMerge(v, k, y, z)
    requires y == z == r ==> NoQuadruple(v, b)
    ensures k == r && y == z == x
  {
    Joined(v, b, x, r, y, z);
    assert SplitOk(v, k);
  }

  /** Behind a pair anything goes. */
  lemma BehindPair(v: Vocab, b: byte, x: nat, r: nat, y: nat)
    requires WellFormed(v) && Doubles(v, b, x, r) && (y == x || (y == r && NoQuadruple(v, b)))
    ensures ValidPair(v, r, y)
  {
    Halves(v, b, x, r);
    forall k: nat ensures !Crosses(v, r, y, k) {
      PairEdges(v, b, x, r, y, k);
      if Crosses(v, r, y, k) {
        OnlyMerge(v, b, x, r, k, RightEdge(v, r, k + 1), LeftEdge(v, y, k));
      }
    }
  }

  /** A single byte in front of a pair should have been merged with it. */
  lemma BeforePair(v: Vocab, b: byte, x: nat, r: nat)
    requires WellFormed(v) && Pairs(v, b, x, r)
    ensures !ValidPair(v, x, r)
  {
    Halves(v, b, x, r);
    assert RightEdge(v, x, r + 1) == x && LeftEdge(v, r, r) == LeftEdge(v, x, r) == x;
    assert Crosses(v, x, r, r);
  }

  lemma PairEdges(v: Vocab, b: byte, x: nat, r: nat, y: nat, k: nat)
    requires WellFormed(v) && Doubles(v, b, x, r) && (y == x || y == r)
    ensures RightEdge(v, r, k + 1) == if k < r then x else r
    ensures LeftEdge(v, y, k) == if y == r && k > r then r else x
  {
    Halves(v, b, x, r);
    assert RightEdge(v, x, k + 1) == x && LeftEdge(v, x, k) == x;
  }

  // ---- The heap ----------------------------------------------------------------------------

  /** With equal identifiers the new last item stays last. */
  lemma PushedLast(r: nat, h: seq<HeapItem>, start: nat)
    requires forall y :: y in h ==> y.priority == r
    ensures Pushed(false, h, HeapItem(r, start)) == h + [HeapItem(r, start)]
  {
  }

  lemma TopPopped(r: nat, k: nat)
    requires k > 0
    ensures Popped(false, TopAt(r, k)) == TopAt(r, k - 1)
  {
  }

  /** The candidates of all pairs, in the order in which they are pushed. */
  lemma {:induction false} SeedsAre(v: Vocab, b: byte, x: nat, r: nat, n: nat, k: nat)
    requires WellFormed(v) && Pairs(v, b, x, r) && (k < n || k == 0)
    ensures Seeds(v, false, Copies(b, n), k) == Candidates(r, 0, k)
  {
    if k > 0 {
      SeedsAre(v, b, x, r, n, k - 1);
      assert Copies(b, n)[k - 1..k + 1] == [b, b];
      TokenForIs(v, [b, b], r);
      PushedLast(r, Candidates(r, 0, k - 1), k - 1);
      assert Candidates(r, 0, k) == Candidates(r, 0, k - 1) + [HeapItem(r, k - 1)];
    }
  }

  lemma FirstPopped(r: nat, n: nat)
    requires n > 1
    ensures Popped(false, Candidates(r, 0, n - 1)) == TopAt(r, n - 2)
  {
  }

  // ---- The run ---------------------------------------------------------------------------------

  lemma {:induction false} SegmentOffset(v: Vocab, b: byte, x: nat, r: nat, m: nat, j: nat, i: nat)
    requires Doubles(v, b, x, r) && i <= 1 + m + j
    ensures Tokens(v, Segments(x, r, m, j))
    ensures Offset(v, Segments(x, r, m, j), i) == if i == 0 then 0 else if i <= m + 1 then i + 1 else 2 * i - m
    decreases i
  {
    var s := Segments(x, r, m, j);
    OffsetEnds(v, s);
    if i > 0 {
      SegmentOffset(v, b, x, r, m, j, i - 1);
      OffsetStep(v, s, i - 1);
    }
  }

  /** The pair of the last two single bytes. */
  lemma LastTwoApply(v: Vocab, b: byte, x: nat, r: nat, m: nat, j: nat)
    requires WellFormed(v) && Doubles(v, b, x, r) && m >= 2
    ensures Tokens(v, Segments(x, r, m, j)) && Applies(v, Segments(x, r, m, j), HeapItem(r, m))
    ensures Place(v, Segments(x, r, m, j), HeapItem(r, m)) == m - 1
    ensures Replace(Segments(x, r, m, j), m - 1, r) == Segments(x, r, m - 2, j + 1)
  {
    var s := Segments(x, r, m, j);
    SegmentOffset(v, b, x, r, m, j, m - 1);
    ShapeSolid(v);
    SolidSized(v, s);
    PlaceUnique(v, s, HeapItem(r, m), m - 1);
  }

  /** One byte further right, or with only one byte left, nothing is there to merge. */
  lemma StaleAt(v: Vocab, b: byte, x: nat, r: nat, m: nat, j: nat, k: nat)
    requires Doubles(v, b, x, r) && (k == m + 1 || k == m == 1)
    ensures Tokens(v, Segments(x, r, m, j)) && !Applies(v, Segments(x, r, m, j), HeapItem(r, k))
  {
    var s := Segments(x, r, m, j);
    SegmentOffset(v, b, x, r, m, j, 0);
    forall i: nat ensures !AppliesAt(v, s, HeapItem(r, k), i) {
      if i + 1 < |s| {
        SegmentOffset(v, b, x, r, m, j, i);
      }
    }
  }

  lemma NothingNew(v: Vocab, b: byte, x: nat, r: nat, m: nat, j: nat, i: nat, h: seq<HeapItem>)
    requires Doubles(v, b, x, r) && i <= m + j && (i == 0 || i == m + 1)
    requires NoQuadruple(v, b) || (i == 0 && (m > 0 || j == 0)) || (i == m + 1 && m > 0 && j == 1)
    ensures Tokens(v, Segments(x, r, m, j)) && WithNew(v, false, Segments(x, r, m, j), i, h) == h
  {
    var s := Segments(x, r, m, j);
    SegmentOffset(v, b, x, r, m, j, 0);
    if i + 1 < |s| {
      NoToken(v, b, x, r, s[i], s[i + 1]);
    }
    if i > 0 {
      NoToken(v, b, x, r, s[i - 1], s[i]);
    }
  }

  /** No two pairs come to stand side by side, or if they do they make no token. */
  ghost predicate Calm(v: Vocab, b: byte, m: nat, j: nat) {
    NoQuadruple(v, b) || (m % 2 == 1 && m + 2 * j <= 3)
  }

  lemma MergeStep(v: Vocab, b: byte, x: nat, r: nat, m: nat, j: nat)
    requires WellFormed(v) && Doubles(v, b, x, r) && m >= 2 && Calm(v, b, m, j)
    ensures Calm(v, b, m - 2, j + 1)
    ensures Tokens(v, Segments(x, r, m, j)) && Tokens(v, Segments(x, r, m - 2, j + 1))
    ensures Run(v, false, Segments(x, r, m, j), TopAt(r, m)) ==
            Run(v, false, Segments(x, r, m - 2, j + 1), TopAt(r, m - 1))
  {
    hide WellFormed, WithNew, Applies, Popped, Segments;
    LastTwoApply(v, b, x, r, m, j);
    TopPopped(r, m);
    NothingNew(v, b, x, r, m - 2, j + 1, m - 1, TopAt(r, m - 1));
  }

  lemma StaleStep(v: Vocab, b: byte, x: nat, r: nat, m: nat, j: nat, k: nat)
    requires Doubles(v, b, x, r) && (k == m + 1 || k == m == 1)
    ensures Tokens(v, Segments(x, r, m, j))
    ensures Run(v, false, Segments(x, r, m, j), TopAt(r, k)) == Run(v, false, Segments(x, r, m, j), TopAt(r, k - 1))
  {
    hide WithNew, Applies, Popped, Segments;
    StaleAt(v, b, x, r, m, j, k);
    TopPopped(r, k);
  }

  lemma RunDone(v: Vocab, r: nat, s: seq<nat>)
    requires Tokens(v, s)
    ensures Run(v, false, s, TopAt(r, 0)) == s
  {
  }

  lemma SegmentTokens(v: Vocab, b: byte, x: nat, r: nat, m: nat, j: nat)
    requires Doubles(v, b, x, r)
    ensures Tokens(v, Segments(x, r, m, j))
  {
  }

  /** Pairs are taken from the right end, until at most one byte is left behind the first pair. */
  lemma {:induction false} RunFromRight(v: Vocab, b: byte, x: nat, r: nat, m: nat, j: nat, k: nat)
    requires WellFormed(v) && Doubles(v, b, x, r) && (k == m || k == m + 1) && Calm(v, b, m, j)
    ensures Tokens(v, Segments(x, r, m, j))
    ensures Run(v, false, Segments(x, r, m, j), TopAt(r, k)) == Segments(x, r, m % 2, j + m / 2)
    decreases k
  {
    hide *;
    SegmentTokens(v, b, x, r, m, j);
    if k == 0 {
      RunDone(v, r, Segments(x, r, m, j));
    } else if k == m >= 2 {
      MergeStep(v, b, x, r, m, j);
      RunFromRight(v, b, x, r, m - 2, j + 1, k - 1);
    } else {
      StaleStep(v, b, x, r, m, j, k);
      if k == m {
        RunDone(v, r, Segments(x, r, m, j));
      } else {
        RunFromRight(v, b, x, r, m, j, k - 1);
      }
    }
  }

  // ---- The first turn ---------------------------------------------------------------------------

  lemma CopiesCovered(v: Vocab, b: byte, x: nat, r: nat, n: nat)
    requires WellFormed(v) && Pairs(v, b, x, r)
    ensures Covers(v, Copies(b, n)) && Singles(v, Copies(b, n)) == Copies(x, n)
  {
    assert IsByteToken(v, b);
    DecodeSingles(v, Copies(b, n));
  }

  lemma FirstOffsets(v: Vocab, b: byte, x: nat, r: nat, n: nat)
    requires Doubles(v, b, x, r) && n > 1
    ensures Tokens(v, Copies(x, n)) && Offset(v, Copies(x, n), 0) == 0
    ensures AppliesAt(v, Copies(x, n), HeapItem(r, 0), 0)
    ensures Replace(Copies(x, n), 0, r) == Segments(x, r, n - 2, 0)
  {
  }

  lemma FirstStep(v: Vocab, b: byte, x: nat, r: nat, n: nat)
    requires WellFormed(v) && Doubles(v, b, x, r) && n > 1
    ensures Tokens(v, Copies(x, n)) && Tokens(v, Segments(x, r, n - 2, 0))
    ensures Run(v, false, Copies(x, n), Candidates(r, 0, n - 1)) ==
            Run(v, false, Segments(x, r, n - 2, 0), TopAt(r, n - 2))
  {
    FirstOffsets(v, b, x, r, n);
    ShapeSolid(v);
    SolidSized(v, Copies(x, n));
    hide WellFormed, WithNew, Applies, AppliesAt, Popped, Segments, Copies;
    PlaceUnique(v, Copies(x, n), HeapItem(r, 0), 0);
    FirstPopped(r, n);
    NothingNew(v, b, x, r, n - 2, 0, 0, TopAt(r, n - 2));
  }

  lemma HeapStart(v: Vocab, b: byte, x: nat, r: nat, n: nat)
    requires Covers(v, Copies(b, n)) && Singles(v, Copies(b, n)) == Copies(x, n) && Pairs(v, b, x, r) && n > 1
    ensures Tokens(v, Copies(x, n))
    ensures HeapEncoding(v, false, Copies(b, n)) == Run(v, false, Copies(x, n), Seeds(v, false, Copies(b, n), n - 1))
  {
  }

  /** What the heap encoder makes of n bytes: the odd byte stays behind the first pair. */
  lemma HeapOnCopies(v: Vocab, b: byte, x: nat, r: nat, n: nat)
    requires WellFormed(v) && Doubles(v, b, x, r) && n > 1 && Calm(v, b, n - 2, 0)
    ensures Covers(v, Copies(b, n))
    ensures HeapEncoding(v, false, Copies(b, n)) == Segments(x, r, n % 2, n / 2 - 1)
  {
    hide *;
    DoublesArePairs(v, b, x, r);
    CopiesCovered(v, b, x, r, n);
    HeapStart(v, b, x, r, n);
    SeedsAre(v, b, x, r, n, n - 1);
    FirstStep(v, b, x, r, n);
    RunFromRight(v, b, x, r, n - 2, 0, n - 2);
  }

  lemma HeapOnOne(v: Vocab, b: byte, x: nat, r: nat, n: nat)
    requires WellFormed(v) && Doubles(v, b, x, r) && n <= 1
    ensures Covers(v, Copies(b, n)) && IsChain(v, HeapEncoding(v, false, Copies(b, n)))
  {
  }

  lemma SegmentsChain(v: Vocab, b: byte, x: nat, r: nat, m: nat, j: nat)
    requires WellFormed(v) && Doubles(v, b, x, r) && NoQuadruple(v, b) && m <= 1
    ensures IsChain(v, Segments(x, r, m, j)) <==> m == 0 || j == 0
  {
    var s := Segments(x, r, m, j);
    BehindPair(v, b, x, r, x);
    BehindPair(v, b, x, r, r);
    BeforePair(v, b, x, r);
    hide WellFormed, ValidPair;
    if m == 1 && j > 0 {
      assert !ValidPair(v, s[1], s[1 + 1]);
    }
  }

  /** In C's order, n copies of a byte that is doubled once come out right exactly if n is even or at most 3. */
  lemma RepeatedByte(v: Vocab, b: byte, x: nat, r: nat, n: nat)
    requires WellFormed(v) && Doubles(v, b, x, r) && NoQuadruple(v, b)
    ensures Covers(v, Copies(b, n))
    ensures HeapEncoding(v, false, Copies(b, n)) == Bpe(v, Copies(b, n)) <==> n % 2 == 0 || n <= 3
  {
    CopiesCovered(v, b, x, r, n);
    HeapIsBpeIffChain(v, false, Copies(b, n));
    if n <= 1 {
      HeapOnOne(v, b, x, r, n);
    } else {
      HeapOnCopies(v, b, x, r, n);
      SegmentsChain(v, b, x, r, n % 2, n / 2 - 1);
    }
  }

  /** Five copies come out as a pair, a single byte and a pair, whether four are a token or not. */
  lemma TieGoesWrong(v: Vocab, b: byte, x: nat, r: nat)
    requires WellFormed(v) && Doubles(v, b, x, r)
    ensures Covers(v, Copies(b, 5)) && HeapEncoding(v, false, Copies(b, 5)) == [r, x, r] != Bpe(v, Copies(b, 5))
  {
    HeapOnCopies(v, b, x, r, 5);
    HeapIsBpeIffChain(v, false, Copies(b, 5));
    BeforePair(v, b, x, r);
    var s := Segments(x, r, 1, 1);
    assert s == [r, x, r];
    hide WellFormed, Covers, HeapEncoding, Bpe, ValidPair;
    assert !ValidPair(v, s[1], s[1 + 1]);
  }

  /** Such a vocabulary: a and aa. */
  const DOUBLE := Vocab([[0], [0, 0]], [0, 0], [0, 0])

  lemma DoubleWellFormed()
    ensures WellFormed(DOUBLE) && Doubles(DOUBLE, 0, 0, 1) && NoQuadruple(DOUBLE, 0)
  {
  }
}
