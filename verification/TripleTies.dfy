/** Ties where the triple of a byte is a token as well. */
module TripleTies {

  // Now the heap holds candidates for two tokens at once, and which of several equal ones comes up depends on where
  // in the heap they lie: on which child an item changes places with.

  import opened Vocabulary
  import opened Merging
  import opened Chain
  import opened LowestFirst
  import opened Heaps
  import opened HeapMerging
  import opened Ties

  /** x, r and y are the tokens of one, two and three b; more of them are no token. */
  ghost predicate Triples(v: Vocab, b: byte, x: nat, r: nat, y: nat) {
    && Pairs(v, b, x, r) && y < |v.bytes| && v.bytes[y] == [b, b, b]
    && forall z: nat, m: nat :: z < |v.bytes| && m >= 4 ==> v.bytes[z] != Copies(b, m)
  }

  // ---- The tokens ----------------------------------------------------------------------------

  /** The triple is the pair and one more byte. */
  lemma TripleHalves(v: Vocab, b: byte, x: nat, r: nat, y: nat)
    requires WellFormed(v) && Triples(v, b, x, r, y)
    ensures x < r < y && Primitive(v, x) && IsMerge(v, r, x, x) && IsMerge(v, y, r, x)
  {
    Halves(v, b, x, r);
    assert SplitOk(v, y) && ShapeAt(v, y);
    var l, h := v.left[y], v.right[y];
    assert ShapeAt(v, l) && ShapeAt(v, h);
    TripleParts(v.bytes[l], v.bytes[h], b);
    BorderOfPair(v, b, x, r);
    assert !(l == x && h == r);
  }

  lemma TripleParts(l: seq<byte>, h: seq<byte>, b: byte)
    requires l + h == [b, b, b] && l != [] && h != []
    ensures (l == [b] && h == [b, b]) || (l == [b, b] && h == [b])
  {
    assert |l| + |h| == 3;
    assert l == (l + h)[..|l|] && h == (l + h)[|l|..];
  }

  lemma BorderOfPair(v: Vocab, b: byte, x: nat, r: nat)
    requires WellFormed(v) && Pairs(v, b, x, r)
    ensures Crosses(v, x, r, r)
  {
    Halves(v, b, x, r);
    assert RightEdge(v, x, r + 1) == x && LeftEdge(v, r, r) == LeftEdge(v, x, r) == x;
  }

  lemma TripleEdges(v: Vocab, b: byte, x: nat, r: nat, y: nat, k: nat)
    requires WellFormed(v) && Triples(v, b, x, r, y)
    ensures RightEdge(v, x, k) == LeftEdge(v, x, k) == x
    ensures RightEdge(v, r, k) == LeftEdge(v, r, k) == if k <= r then x else r
    ensures RightEdge(v, y, k) == if k <= y then x else y
    ensures LeftEdge(v, y, k) == if k <= r then x else if k <= y then r else y
  {
    TripleHalves(v, b, x, r, y);
  }

  /** Nothing can follow a triple: its last byte should have been merged with the next one. */
  lemma BehindTriple(v: Vocab, b: byte, x: nat, r: nat, y: nat, z: nat)
    requires WellFormed(v) && Triples(v, b, x, r, y) && z in [x, r, y]
    ensures !ValidPair(v, y, z)
  {
    TripleHalves(v, b, x, r, y);
    TripleEdges(v, b, x, r, y, r);
    TripleEdges(v, b, x, r, y, r + 1);
    assert Crosses(v, y, z, r);
  }

  lemma MergeLengths(v: Vocab, k: nat, a: nat, c: nat)
    requires WellFormed(v) && IsMerge(v, k, a, c)
    ensures k < |v.bytes| && a < k && c < k && v.bytes[k] == v.bytes[a] + v.bytes[c]
  {
    assert SplitOk(v, k) && ShapeAt(v, k);
  }

  /** A pair or a triple can follow a pair. */
  lemma BehindPairOf(v: Vocab, b: byte, x: nat, r: nat, y: nat, z: nat)
    requires WellFormed(v) && Triples(v, b, x, r, y) && (z == r || z == y)
    ensures ValidPair(v, r, z)
  {
    TripleHalves(v, b, x, r, y);
    forall k: nat ensures !Crosses(v, r, z, k) {
      TripleEdges(v, b, x, r, y, k);
      TripleEdges(v, b, x, r, y, k + 1);
      if Crosses(v, r, z, k) {
        var a, c := RightEdge(v, r, k + 1), LeftEdge(v, z, k);
        MergeLengths(v, k, a, c);
        OnlyMerges(v, b, x, r, y, a, c, k);
      }
    }
  }

  lemma OnlyMerges(v: Vocab, b: byte, x: nat, r: nat, y: nat, a: nat, c: nat, k: nat)
    requires WellFormed(v) && Triples(v, b, x, r, y) && a in [x, r, y] && c in [x, r, y]
    requires k < |v.bytes| && v.bytes[k] == v.bytes[a] + v.bytes[c]
    ensures if a == c == x then k == r else ((a == x && c == r) || (a == r && c == x)) && k == y
  {
    var m := |v.bytes[a]| + |v.bytes[c]|;
    assert v.bytes[k] == Copies(b, m);
  }

  // ---- Segments by their widths ----------------------------------------------------------------

  /** The token of w bytes. */
  function Of(x: nat, r: nat, y: nat, w: nat): nat {
    if w == 1 then x else if w == 2 then r else y
  }

  ghost predicate Widths(w: seq<nat>) {
    forall i :: 0 <= i < |w| ==> 1 <= w[i] <= 3
  }

  function Toks(x: nat, r: nat, y: nat, w: seq<nat>): (s: seq<nat>)
    ensures |s| == |w|
  {
    seq(|w|, i requires 0 <= i < |w| => Of(x, r, y, w[i]))
  }

  /** The bytes before segment i. */
  function Sum(w: seq<nat>, i: nat): nat
    requires i <= |w|
  {
    if i == 0 then 0 else Sum(w, i - 1) + w[i - 1]
  }

  lemma OfBytes(v: Vocab, b: byte, x: nat, r: nat, y: nat, w: nat)
    requires Triples(v, b, x, r, y) && 1 <= w <= 3
    ensures Of(x, r, y, w) < |v.bytes| && v.bytes[Of(x, r, y, w)] == Copies(b, w)
  {
  }

  lemma ToksTokens(v: Vocab, b: byte, x: nat, r: nat, y: nat, w: seq<nat>)
    requires Triples(v, b, x, r, y) && Widths(w)
    ensures Tokens(v, Toks(x, r, y, w))
  {
  }

  lemma {:induction false} ToksOffset(v: Vocab, b: byte, x: nat, r: nat, y: nat, w: seq<nat>, i: nat)
    requires Triples(v, b, x, r, y) && Widths(w) && i <= |w|
    ensures Tokens(v, Toks(x, r, y, w)) && Offset(v, Toks(x, r, y, w), i) == Sum(w, i)
    decreases i
  {
    ToksTokens(v, b, x, r, y, w);
    var s := Toks(x, r, y, w);
    hide Triples, Offset;
    if i == 0 {
      OffsetEnds(v, s);
    } else {
      ToksOffset(v, b, x, r, y, w, i - 1);
      OffsetStep(v, s, i - 1);
      OfBytes(v, b, x, r, y, w[i - 1]);
    }
  }

  /** Whether a candidate applies is a matter of widths. */
  lemma ToksApply(v: Vocab, b: byte, x: nat, r: nat, y: nat, w: seq<nat>, k: nat, start: nat, i: nat)
    requires Triples(v, b, x, r, y) && Widths(w) && 1 <= k <= 3
    ensures Tokens(v, Toks(x, r, y, w)) && Of(x, r, y, k) < |v.bytes|
    ensures AppliesAt(v, Toks(x, r, y, w), HeapItem(Of(x, r, y, k), start), i) <==>
            i + 1 < |w| && Sum(w, i) == start && w[i] + w[i + 1] == k
  {
    ToksTokens(v, b, x, r, y, w);
    OfBytes(v, b, x, r, y, k);
    if i + 1 < |w| {
      ToksOffset(v, b, x, r, y, w, i);
      OfBytes(v, b, x, r, y, w[i]);
      OfBytes(v, b, x, r, y, w[i + 1]);
    }
    hide Triples, Offset;
  }

  /** Two segments join exactly if they have three bytes or less. */
  lemma ToksJoin(v: Vocab, b: byte, x: nat, r: nat, y: nat, w: seq<nat>, i: nat)
    requires Solid(v) && Triples(v, b, x, r, y) && Widths(w) && i + 1 < |w|
    ensures Tokens(v, Toks(x, r, y, w))
    ensures JoinOf(v, Toks(x, r, y, w), i) ==
            if w[i] + w[i + 1] <= 3 then Some(Of(x, r, y, w[i] + w[i + 1])) else None
  {
    ToksTokens(v, b, x, r, y, w);
    OfBytes(v, b, x, r, y, w[i]);
    OfBytes(v, b, x, r, y, w[i + 1]);
    var m := w[i] + w[i + 1];
    assert Copies(b, w[i]) + Copies(b, w[i + 1]) == Copies(b, m);
    if m <= 3 {
      OfBytes(v, b, x, r, y, m);
      TokenForIs(v, Copies(b, m), Of(x, r, y, m));
    }
  }

  // ---- Turns ------------------------------------------------------------------------------------

  function JoinWidths(w: seq<nat>, i: nat): (w': seq<nat>)
    requires i + 1 < |w|
    ensures |w'| == |w| - 1
  {
    w[..i] + [w[i] + w[i + 1]] + w[i + 2..]
  }

  /** The candidate for the triple of segments i and i + 1, if they are one. */
  function TripleItem(y: nat, w: seq<nat>, i: nat): seq<HeapItem>
    requires i + 1 < |w|
  {
    if w[i] + w[i + 1] == 3 then [HeapItem(y, Sum(w, i))] else []
  }

  /** The candidates that a new segment i gives, the one to the right first. */
  function NewItems(y: nat, w: seq<nat>, i: nat): seq<HeapItem>
    requires i < |w|
  {
    (if i + 1 < |w| then TripleItem(y, w, i) else []) + (if i > 0 then TripleItem(y, w, i - 1) else [])
  }

  /** No item comes after a triple's candidate. */
  ghost predicate UpTo(y: nat, h: seq<HeapItem>) {
    forall z :: z in h ==> z.priority <= y
  }

  lemma PushedToEnd(y: nat, h: seq<HeapItem>, start: nat)
    requires UpTo(y, h)
    ensures Pushed(false, h, HeapItem(y, start)) == h + [HeapItem(y, start)] && UpTo(y, h + [HeapItem(y, start)])
  {
  }

  lemma JoinToEnd(v: Vocab, b: byte, x: nat, r: nat, y: nat, w: seq<nat>, i: nat, h: seq<HeapItem>)
    requires Solid(v) && Triples(v, b, x, r, y) && Widths(w) && i + 1 < |w| && w[i] + w[i + 1] >= 3 && UpTo(y, h)
    ensures Tokens(v, Toks(x, r, y, w)) && UpTo(y, h + TripleItem(y, w, i))
    ensures var s := Toks(x, r, y, w);
            PushToken(false, h, JoinOf(v, s, i), Offset(v, s, i)) == h + TripleItem(y, w, i)
  {
    hide Solid, Triples, Widths, Pushed, JoinOf, Offset, Toks, Sum;
    ToksOffset(v, b, x, r, y, w, i);
    ToksJoin(v, b, x, r, y, w, i);
    PushedToEnd(y, h, Sum(w, i));
  }

  lemma NewAtEnd(v: Vocab, b: byte, x: nat, r: nat, y: nat, w: seq<nat>, i: nat, h: seq<HeapItem>)
    requires Solid(v) && Triples(v, b, x, r, y) && Widths(w) && i < |w| && w[i] >= 2 && UpTo(y, h)
    ensures Tokens(v, Toks(x, r, y, w)) && UpTo(y, h + NewItems(y, w, i))
    ensures WithNew(v, false, Toks(x, r, y, w), i, h) == h + NewItems(y, w, i)
  {
    hide Solid, Triples, Toks, Tokens, JoinOf, PushToken, TripleItem, UpTo, Offset;
    ToksTokens(v, b, x, r, y, w);
    var h1 := h;
    if i + 1 < |w| {
      JoinToEnd(v, b, x, r, y, w, i, h);
      h1 := h + TripleItem(y, w, i);
    }
    if i > 0 {
      JoinToEnd(v, b, x, r, y, w, i - 1, h1);
    }
    assert h1 + [] == h1;
    assert h1 + (if i > 0 then TripleItem(y, w, i - 1) else []) == h + NewItems(y, w, i);
  }

  lemma PoppedUpTo(y: nat, h: seq<HeapItem>)
    requires h != [] && UpTo(y, h)
    ensures UpTo(y, Popped(false, h))
  {
    if |h| > 1 {
      SiftDownKeeps(Rest(h), 0, y);
    }
  }

  lemma SiftDownKeeps(h: seq<HeapItem>, i: nat, y: nat)
    requires i < |h| && UpTo(y, h)
    ensures UpTo(y, SiftDown(false, h, i))
    decreases |h| - i
  {
    var s := Smallest(false, h, i);
    if s != i {
      SwapMultiset(h, i, s);
      SiftDownKeeps(Swap(h, i, s), s, y);
    }
  }

  lemma MergePlace(v: Vocab, b: byte, x: nat, r: nat, y: nat, w: seq<nat>, i: nat)
    requires Solid(v) && Triples(v, b, x, r, y) && Widths(w) && i + 1 < |w| && w[i] + w[i + 1] <= 3
    ensures var s, z := Toks(x, r, y, w), HeapItem(Of(x, r, y, w[i] + w[i + 1]), Sum(w, i));
            && Tokens(v, s) && z.priority < |v.bytes| && Applies(v, s, z) && Place(v, s, z) == i
            && Replace(s, i, z.priority) == Toks(x, r, y, JoinWidths(w, i))
    ensures Widths(JoinWidths(w, i))
  {
    var s, k := Toks(x, r, y, w), w[i] + w[i + 1];
    var z := HeapItem(Of(x, r, y, k), Sum(w, i));
    ToksApply(v, b, x, r, y, w, k, Sum(w, i), i);
    SolidSized(v, s);
    PlaceUnique(v, s, z, i);
    assert Replace(s, i, z.priority) == Toks(x, r, y, JoinWidths(w, i));
  }

  /** A turn that merges segments i and i + 1. */
  lemma MergeOf(v: Vocab, b: byte, x: nat, r: nat, y: nat, w: seq<nat>, i: nat, h: seq<HeapItem>)
    requires Solid(v) && Triples(v, b, x, r, y) && Widths(w) && i + 1 < |w| && w[i] + w[i + 1] <= 3
    requires h != [] && h[0] == HeapItem(Of(x, r, y, w[i] + w[i + 1]), Sum(w, i)) && UpTo(y, h)
    ensures Widths(JoinWidths(w, i)) && UpTo(y, Popped(false, h) + NewItems(y, JoinWidths(w, i), i))
    ensures Tokens(v, Toks(x, r, y, w)) && Tokens(v, Toks(x, r, y, JoinWidths(w, i)))
    ensures Run(v, false, Toks(x, r, y, w), h) ==
            Run(v, false, Toks(x, r, y, JoinWidths(w, i)), Popped(false, h) + NewItems(y, JoinWidths(w, i), i))
  {
    hide Solid, Triples, Popped, NewItems, WithNew, Applies, Toks, Sum, UpTo, Of, Tokens, Replace;
    MergePlace(v, b, x, r, y, w, i);
    PoppedUpTo(y, h);
    NewAtEnd(v, b, x, r, y, JoinWidths(w, i), i, Popped(false, h));
    ToksTokens(v, b, x, r, y, JoinWidths(w, i));
  }

  /** A turn on a candidate that no longer is two segments. */
  lemma StaleOf(v: Vocab, b: byte, x: nat, r: nat, y: nat, w: seq<nat>, k: nat, start: nat, h: seq<HeapItem>)
    requires Triples(v, b, x, r, y) && Widths(w) && 1 <= k <= 3
    requires h != [] && h[0] == HeapItem(Of(x, r, y, k), start) && UpTo(y, h)
    requires forall i: nat :: i + 1 < |w| && Sum(w, i) == start ==> w[i] + w[i + 1] != k
    ensures UpTo(y, Popped(false, h)) && Tokens(v, Toks(x, r, y, w))
    ensures Run(v, false, Toks(x, r, y, w), h) == Run(v, false, Toks(x, r, y, w), Popped(false, h))
  {
    hide Triples, Popped, AppliesAt, Toks, Sum, UpTo;
    ToksTokens(v, b, x, r, y, w);
    OfBytes(v, b, x, r, y, k);
    PoppedUpTo(y, h);
    forall i: nat ensures !AppliesAt(v, Toks(x, r, y, w), h[0], i) {
      ToksApply(v, b, x, r, y, w, k, start, i);
    }
  }

  // ---- The first turns ------------------------------------------------------------------------------

  /** A pair at the front. */
  function OnePair(n: nat): (w: seq<nat>)
    requires n >= 2
    ensures |w| == n - 1 && Widths(w)
  {
    [2] + Copies(1, n - 2)
  }

  /** A pair at the front and one at the end. */
  function TwoPairs(n: nat): (w: seq<nat>)
    requires n >= 4
    ensures |w| == n - 2 && Widths(w)
  {
    [2] + Copies(1, n - 4) + [2]
  }

  lemma {:induction false} SumBehindPair(w: seq<nat>, i: nat)
    requires i <= |w| && w != [] && w[0] == 2 && forall j :: 0 < j < i ==> w[j] == 1
    ensures Sum(w, i) == if i == 0 then 0 else i + 1
    decreases i
  {
    if i > 0 { SumBehindPair(w, i - 1); }
  }

  /** The heap after the first turn. */
  function AfterFirst(r: nat, y: nat, n: nat): seq<HeapItem>
    requires n >= 2
  {
    TopAt(r, n - 2) + if n > 2 then [HeapItem(y, 0)] else []
  }

  lemma TriplesArePairs(v: Vocab, b: byte, x: nat, r: nat, y: nat)
    requires WellFormed(v) && Triples(v, b, x, r, y)
    ensures Solid(v) && Pairs(v, b, x, r) && r < y
  {
    TripleHalves(v, b, x, r, y);
    ShapeSolid(v);
  }

  lemma FirstTurn(v: Vocab, b: byte, x: nat, r: nat, y: nat, n: nat)
    requires Solid(v) && Triples(v, b, x, r, y) && r < y && n >= 2
    ensures Tokens(v, Copies(x, n)) && Tokens(v, Toks(x, r, y, OnePair(n))) && UpTo(y, AfterFirst(r, y, n))
    ensures Run(v, false, Copies(x, n), Candidates(r, 0, n - 1)) ==
            Run(v, false, Toks(x, r, y, OnePair(n)), AfterFirst(r, y, n))
  {
    hide Solid, Triples, Run, Popped, JoinWidths;
    var w := Copies(1, n);
    MergeOf(v, b, x, r, y, w, 0, Candidates(r, 0, n - 1));
    assert Toks(x, r, y, w) == Copies(x, n);
    assert JoinWidths(w, 0) == OnePair(n) by { FirstJoined(n); }
    FirstPopped(r, n);
    assert NewItems(y, OnePair(n), 0) == if n > 2 then [HeapItem(y, 0)] else [];
  }

  lemma FirstJoined(n: nat)
    requires n >= 2
    ensures JoinWidths(Copies(1, n), 0) == OnePair(n)
  {
  }

  /** The heap after the second turn. */
  function AfterSecond(r: nat, y: nat, n: nat): seq<HeapItem>
    requires n >= 4
  {
    Popped(false, AfterFirst(r, y, n)) + if n > 4 then [HeapItem(y, n - 3)] else []
  }

  lemma SecondJoined(n: nat)
    requires n >= 4
    ensures JoinWidths(OnePair(n), n - 3) == TwoPairs(n)
  {
  }

  lemma SecondTurn(v: Vocab, b: byte, x: nat, r: nat, y: nat, n: nat)
    requires Solid(v) && Triples(v, b, x, r, y) && r < y && n >= 4 && UpTo(y, AfterFirst(r, y, n))
    ensures Tokens(v, Toks(x, r, y, OnePair(n))) && Tokens(v, Toks(x, r, y, TwoPairs(n)))
    ensures UpTo(y, AfterSecond(r, y, n))
    ensures Run(v, false, Toks(x, r, y, OnePair(n)), AfterFirst(r, y, n)) ==
            Run(v, false, Toks(x, r, y, TwoPairs(n)), AfterSecond(r, y, n))
  {
    hide Solid, Triples, Run, Popped, JoinWidths, Toks, UpTo, Sum, NewItems;
    var w, i := OnePair(n), n - 3;
    SumBehindPair(w, i);
    MergeOf(v, b, x, r, y, w, i, AfterFirst(r, y, n));
    SecondJoined(n);
    SecondItems(y, n);
  }

  lemma SecondItems(y: nat, n: nat)
    requires n >= 4
    ensures NewItems(y, TwoPairs(n), n - 3) == if n > 4 then [HeapItem(y, n - 3)] else []
  {
    SumBehindPair(TwoPairs(n), n - 4);
  }

  // ---- Up to six copies -----------------------------------------------------------------------------

  lemma PoppedOne(h: seq<HeapItem>)
    requires |h| == 1
    ensures Popped(false, h) == []
  {
  }

  lemma PoppedTwo(a: HeapItem, c: HeapItem)
    ensures Popped(false, [a, c]) == [c]
  {
  }

  /** The last item moves to the top and stays there. */
  lemma PoppedStays(h: seq<HeapItem>, rest: seq<HeapItem>)
    requires |h| > 1 && Rest(h) == rest && Smallest(false, rest, 0) == 0
    ensures Popped(false, h) == rest
  {
  }

  /** The last item moves to the top and sinks by one step. */
  lemma PoppedSinksOnce(h: seq<HeapItem>, rest: seq<HeapItem>, s: nat, down: seq<HeapItem>)
    requires |h| > 1 && Rest(h) == rest && Smallest(false, rest, 0) == s && 0 < s < |rest| && down == Swap(rest, 0, s)
    requires Smallest(false, down, s) == s
    ensures Popped(false, h) == down
  {
    assert SiftDown(false, down, s) == down;
    assert SiftDown(false, rest, 0) == SiftDown(false, down, s);
  }

  lemma HeapOfFour(r: nat, y: nat)
    requires r < y
    ensures AfterSecond(r, y, 4) == [HeapItem(r, 1), HeapItem(y, 0)]
  {
    var r1, r2, y0 := HeapItem(r, 1), HeapItem(r, 2), HeapItem(y, 0);
    assert AfterFirst(r, y, 4) == [r2, r1, y0];
    assert Rest([r2, r1, y0]) == [y0, r1];
    PoppedSinksOnce([r2, r1, y0], [y0, r1], 1, [r1, y0]);
  }

  lemma RunEnds(v: Vocab, s: seq<nat>)
    requires Tokens(v, s)
    ensures Run(v, false, s, []) == s
  {
  }

  /** The merges on four copies. */
  lemma FourCopies(v: Vocab, b: byte, x: nat, r: nat, y: nat)
    requires Solid(v) && Triples(v, b, x, r, y) && r < y && UpTo(y, AfterSecond(r, y, 4))
    ensures Tokens(v, Toks(x, r, y, TwoPairs(4)))
    ensures Run(v, false, Toks(x, r, y, TwoPairs(4)), AfterSecond(r, y, 4)) == Toks(x, r, y, [2, 2])
  {
    hide Solid, Triples, Run, Popped, AfterSecond, Toks, UpTo, Tokens;
    var w := TwoPairs(4);
    assert w == [2, 2] && Sum(w, 1) == 2;
    var r1, y0 := HeapItem(r, 1), HeapItem(y, 0);
    HeapOfFour(r, y);
    PoppedTwo(r1, y0);
    PoppedOne([y0]);
    StaleOf(v, b, x, r, y, w, 2, 1, [r1, y0]);
    StaleOf(v, b, x, r, y, w, 3, 0, [y0]);
    RunEnds(v, Toks(x, r, y, w));
  }

  lemma HeapOfFive(r: nat, y: nat)
    requires r < y
    ensures AfterSecond(r, y, 5) == [HeapItem(r, 1), HeapItem(y, 0), HeapItem(r, 2), HeapItem(y, 2)]
    ensures Popped(false, AfterSecond(r, y, 5)) == [HeapItem(r, 2), HeapItem(y, 0), HeapItem(y, 2)]
    ensures Popped(false, [HeapItem(r, 2), HeapItem(y, 0), HeapItem(y, 2)]) == [HeapItem(y, 2), HeapItem(y, 0)]
  {
    var r1, r2, r3, y0, y2 := HeapItem(r, 1), HeapItem(r, 2), HeapItem(r, 3), HeapItem(y, 0), HeapItem(y, 2);
    hide Popped, SiftDown;
    assert AfterFirst(r, y, 5) == [r3, r1, r2, y0];
    assert Rest([r3, r1, r2, y0]) == [y0, r1, r2];
    PoppedSinksOnce([r3, r1, r2, y0], [y0, r1, r2], 1, [r1, y0, r2]);
    assert Rest([r1, y0, r2, y2]) == [y2, y0, r2];
    PoppedSinksOnce([r1, y0, r2, y2], [y2, y0, r2], 2, [r2, y0, y2]);
    assert Rest([r2, y0, y2]) == [y2, y0];
    PoppedStays([r2, y0, y2], [y2, y0]);
  }

  /** The merges on five copies: the pair stays in front of the triple. */
  lemma FiveCopies(v: Vocab, b: byte, x: nat, r: nat, y: nat)
    requires Solid(v) && Triples(v, b, x, r, y) && r < y && UpTo(y, AfterSecond(r, y, 5))
    ensures Tokens(v, Toks(x, r, y, TwoPairs(5)))
    ensures Run(v, false, Toks(x, r, y, TwoPairs(5)), AfterSecond(r, y, 5)) == Toks(x, r, y, [2, 3])
  {
    hide Solid, Triples, Run, Popped, AfterSecond, Toks, UpTo, Tokens;
    var w := TwoPairs(5);
    assert w == [2, 1, 2] && Sum(w, 1) == 2 && Sum(w, 2) == 3;
    var y0, y2 := HeapItem(y, 0), HeapItem(y, 2);
    HeapOfFive(r, y);
    StaleOf(v, b, x, r, y, w, 2, 1, AfterSecond(r, y, 5));
    StaleOf(v, b, x, r, y, w, 2, 2, [HeapItem(r, 2), y0, y2]);
    PoppedTwo(y2, y0);
    MergeOf(v, b, x, r, y, w, 1, [y2, y0]);
    assert JoinWidths(w, 1) == [2, 3] && Sum([2, 3], 1) == 2 && NewItems(y, [2, 3], 1) == [];
    assert [y0] + [] == [y0];
    PoppedOne([y0]);
    StaleOf(v, b, x, r, y, [2, 3], 3, 0, [y0]);
    RunEnds(v, Toks(x, r, y, [2, 3]));
  }

  lemma HeapOfSix(r: nat, y: nat)
    requires r < y
    ensures AfterSecond(r, y, 6) == [HeapItem(r, 1), HeapItem(r, 3), HeapItem(r, 2), HeapItem(y, 0), HeapItem(y, 3)]
  {
    var r1, r2, r3, r4, y0 := HeapItem(r, 1), HeapItem(r, 2), HeapItem(r, 3), HeapItem(r, 4), HeapItem(y, 0);
    var h, rest, mid, down := [r4, r1, r2, r3, y0], [y0, r1, r2, r3], [r1, y0, r2, r3], [r1, r3, r2, y0];
    assert AfterFirst(r, y, 6) == h && Rest(h) == rest;
    assert SiftDown(false, down, 3) == down;
    assert Swap(mid, 1, 3) == down && SiftDown(false, mid, 1) == SiftDown(false, down, 3);
    assert Swap(rest, 0, 1) == mid && SiftDown(false, rest, 0) == SiftDown(false, mid, 1);
  }

  lemma HeapsOfSix(r: nat, y: nat)
    requires r < y
    ensures Popped(false, AfterSecond(r, y, 6)) == [HeapItem(r, 3), HeapItem(y, 3), HeapItem(r, 2), HeapItem(y, 0)]
    ensures Popped(false, [HeapItem(r, 3), HeapItem(y, 3), HeapItem(r, 2), HeapItem(y, 0)]) ==
            [HeapItem(r, 2), HeapItem(y, 3), HeapItem(y, 0)]
    ensures Popped(false, [HeapItem(r, 2), HeapItem(y, 3), HeapItem(y, 0)]) == [HeapItem(y, 0), HeapItem(y, 3)]
  {
    hide Popped, SiftDown, AfterSecond;
    HeapOfSix(r, y);
    var r1, r2, r3, y0, y3 := HeapItem(r, 1), HeapItem(r, 2), HeapItem(r, 3), HeapItem(y, 0), HeapItem(y, 3);
    assert Rest([r1, r3, r2, y0, y3]) == [y3, r3, r2, y0];
    PoppedSinksOnce([r1, r3, r2, y0, y3], [y3, r3, r2, y0], 1, [r3, y3, r2, y0]);
    assert Rest([r3, y3, r2, y0]) == [y0, y3, r2];
    PoppedSinksOnce([r3, y3, r2, y0], [y0, y3, r2], 2, [r2, y3, y0]);
    assert Rest([r2, y3, y0]) == [y0, y3];
    PoppedStays([r2, y3, y0], [y0, y3]);
  }

  /** The merges on six copies: three pairs. */
  lemma SixCopies(v: Vocab, b: byte, x: nat, r: nat, y: nat)
    requires Solid(v) && Triples(v, b, x, r, y) && r < y && UpTo(y, AfterSecond(r, y, 6))
    ensures Tokens(v, Toks(x, r, y, TwoPairs(6)))
    ensures Run(v, false, Toks(x, r, y, TwoPairs(6)), AfterSecond(r, y, 6)) == Toks(x, r, y, [2, 2, 2])
  {
    hide Solid, Triples, Run, Popped, AfterSecond, Toks, UpTo, Tokens;
    var w, u := TwoPairs(6), [2, 2, 2];
    assert w == [2, 1, 1, 2];
    FirstSums(w);
    var y0, y3 := HeapItem(y, 0), HeapItem(y, 3);
    HeapOfSix(r, y);
    HeapsOfSix(r, y);
    StaleOf(v, b, x, r, y, w, 2, 1, AfterSecond(r, y, 6));
    StaleOf(v, b, x, r, y, w, 2, 3, [HeapItem(r, 3), y3, HeapItem(r, 2), y0]);
    MergeOf(v, b, x, r, y, w, 1, [HeapItem(r, 2), y3, y0]);
    assert JoinWidths(w, 1) == u && NewItems(y, u, 1) == [];
    assert [y0, y3] + [] == [y0, y3];
    StaleTriples(v, b, x, r, y);
  }

  lemma StaleTriples(v: Vocab, b: byte, x: nat, r: nat, y: nat)
    requires Solid(v) && Triples(v, b, x, r, y) && r < y
    ensures Tokens(v, Toks(x, r, y, [2, 2, 2]))
    ensures Run(v, false, Toks(x, r, y, [2, 2, 2]), [HeapItem(y, 0), HeapItem(y, 3)]) == Toks(x, r, y, [2, 2, 2])
  {
    hide Solid, Triples, Run, Popped, Toks, Tokens;
    var u, y0, y3 := [2, 2, 2], HeapItem(y, 0), HeapItem(y, 3);
    FirstSums(u);
    PoppedTwo(y0, y3);
    PoppedOne([y3]);
    StaleOf(v, b, x, r, y, u, 3, 0, [y0, y3]);
    StaleOf(v, b, x, r, y, u, 3, 3, [y3]);
    RunEnds(v, Toks(x, r, y, u));
  }

  // ---- More than six copies -------------------------------------------------------------------------

  lemma {:induction false} SiftDownBelow(h: seq<HeapItem>, i: nat)
    requires i < |h|
    ensures forall q :: 0 <= q < i ==> SiftDown(false, h, i)[q] == h[q]
    decreases |h| - i
  {
    var s := Smallest(false, h, i);
    if s != i {
      SiftDownBelow(Swap(h, i, s), s);
    }
  }

  /** Of two equal children the left one rises to the top. */
  lemma LeftRises(h: seq<HeapItem>, rest: seq<HeapItem>)
    requires |h| > 3 && Rest(h) == rest && rest[1].priority == rest[2].priority < rest[0].priority
    ensures Popped(false, h)[0] == rest[1]
  {
    assert Smallest(false, rest, 0) == 1;
    assert SiftDown(false, rest, 0) == SiftDown(false, Swap(rest, 0, 1), 1);
    SiftDownBelow(Swap(rest, 0, 1), 1);
  }

  /** And of its children again the left one behind it. */
  lemma LeftRisesTwice(h: seq<HeapItem>, rest: seq<HeapItem>, r: nat)
    requires |h| > 4 && Rest(h) == rest && rest[0].priority > r
    requires forall i :: 1 <= i < |rest| ==> rest[i].priority == r
    ensures Popped(false, h)[0] == rest[1] && Popped(false, h)[1] == rest[3] && Popped(false, h)[2] == rest[2]
  {
    var once := Swap(rest, 0, 1);
    assert Smallest(false, rest, 0) == 1 && Smallest(false, once, 1) == 3;
    assert SiftDown(false, rest, 0) == SiftDown(false, once, 1) == SiftDown(false, Swap(once, 1, 3), 3);
    SiftDownBelow(Swap(once, 1, 3), 3);
  }

  lemma ThirdTop(r: nat, y: nat, n: nat)
    requires r < y && n >= 7
    ensures |AfterSecond(r, y, n)| == n - 1 && AfterSecond(r, y, n)[0] == HeapItem(r, 1)
    ensures Popped(false, AfterSecond(r, y, n))[0] == HeapItem(r, 3)
  {
    var h, g := AfterFirst(r, y, n), AfterSecond(r, y, n);
    hide Popped, SiftDown;
    LeftRisesTwice(h, Rest(h), r);
    LeftRises(g, Rest(g));
  }

  /** The widths after the merges at the front, at the end and behind the single byte. */
  function Stranded(n: nat): (w: seq<nat>)
    requires n >= 7
    ensures |w| == n - 3 && Widths(w)
  {
    [2, 1, 2] + Copies(1, n - 7) + [2]
  }

  lemma StrandedJoined(n: nat)
    requires n >= 7
    ensures JoinWidths(TwoPairs(n), 2) == Stranded(n)
  {
  }

  /** The heap after the third merge. */
  function AfterThird(r: nat, y: nat, n: nat): seq<HeapItem>
    requires n >= 7
  {
    Popped(false, Popped(false, AfterSecond(r, y, n))) + NewItems(y, Stranded(n), 2)
  }

  /** The third byte is left between two pairs. */
  lemma ThirdTurns(v: Vocab, b: byte, x: nat, r: nat, y: nat, n: nat)
    requires Solid(v) && Triples(v, b, x, r, y) && r < y && n >= 7 && UpTo(y, AfterSecond(r, y, n))
    ensures Tokens(v, Toks(x, r, y, TwoPairs(n))) && Tokens(v, Toks(x, r, y, Stranded(n)))
    ensures Run(v, false, Toks(x, r, y, TwoPairs(n)), AfterSecond(r, y, n)) ==
            Run(v, false, Toks(x, r, y, Stranded(n)), AfterThird(r, y, n))
  {
    hide Solid, Triples, Run, Popped, AfterSecond, Toks, UpTo, Tokens, JoinWidths;
    var w, g := TwoPairs(n), AfterSecond(r, y, n);
    ThirdTop(r, y, n);
    forall i: nat | i + 1 < |w| ensures Sum(w, i) != 1 { SumBehindPair(w, i); }
    StaleOf(v, b, x, r, y, w, 2, 1, g);
    SumBehindPair(w, 2);
    MergeOf(v, b, x, r, y, w, 2, Popped(false, g));
    StrandedJoined(n);
  }

  // ---- Borders only go ---------------------------------------------------------------------------------

  ghost predicate NoBorder(v: Vocab, s: seq<nat>, p: nat)
    requires Tokens(v, s)
  {
    forall i :: 0 <= i <= |s| ==> Offset(v, s, i) != p
  }

  lemma {:induction false} MergedOffset(v: Vocab, s: seq<nat>, i: nat, r: nat, j: nat)
    requires Tokens(v, s) && i + 1 < |s| && r < |v.bytes|
    requires |v.bytes[r]| == |v.bytes[s[i]]| + |v.bytes[s[i + 1]]| && j < |s|
    ensures Tokens(v, Replace(s, i, r))
    ensures Offset(v, Replace(s, i, r), j) == Offset(v, s, if j <= i then j else j + 1)
    decreases j
  {
    var s' := Replace(s, i, r);
    hide Offset, Decode;
    if j == 0 {
      OffsetEnds(v, s);
      OffsetEnds(v, s');
    } else {
      MergedOffset(v, s, i, r, j - 1);
      OffsetStep(v, s', j - 1);
      OffsetStep(v, s, if j - 1 <= i then j - 1 else j);
      if j == i + 1 { OffsetStep(v, s, i + 1); }
    }
  }

  lemma BorderGone(v: Vocab, s: seq<nat>, z: HeapItem, p: nat)
    requires Tokens(v, s) && z.priority < |v.bytes| && NoBorder(v, s, p)
    ensures NoBorder(v, NextSegments(v, s, z), p)
  {
    if Applies(v, s, z) {
      var i, s' := Place(v, s, z), NextSegments(v, s, z);
      forall j | 0 <= j <= |s'| ensures Offset(v, s', j) != p {
        MergedOffset(v, s, i, z.priority, j);
      }
    }
  }

  /** A place in the text that is no border now never is one again. */
  lemma {:induction false} StaysGone(v: Vocab, s: seq<nat>, h: seq<HeapItem>, p: nat)
    requires Tokens(v, s) && NoBorder(v, s, p)
    ensures Tokens(v, Run(v, false, s, h)) && NoBorder(v, Run(v, false, s, h), p)
    decreases |s|, |h|
  {
    hide NoBorder, NextHeap, Popped, Applies;
    if h != [] && h[0].priority < |v.bytes| {
      BorderGone(v, s, h[0], p);
      StaysGone(v, NextSegments(v, s, h[0]), NextHeap(v, false, s, h[0], Popped(false, h)), p);
    }
  }

  // ---- What the copies become -----------------------------------------------------------------------

  /** Every token of a text of copies is one of the three. */
  lemma CopyToken(v: Vocab, b: byte, x: nat, r: nat, y: nat, n: nat, s: seq<nat>, i: nat)
    requires Solid(v) && Triples(v, b, x, r, y) && Tokens(v, s) && Decode(v, s) == Copies(b, n) && i < |s|
    ensures 1 <= |v.bytes[s[i]]| <= 3 && s[i] == Of(x, r, y, |v.bytes[s[i]]|)
  {
    OffsetStep(v, s, i);
    var m := |v.bytes[s[i]]|;
    assert v.bytes[s[i]] == Copies(b, m);
    if m <= 3 { OfBytes(v, b, x, r, y, m); }
  }

  lemma CopyWidths(v: Vocab, b: byte, x: nat, r: nat, y: nat, n: nat, s: seq<nat>) returns (w: seq<nat>)
    requires Solid(v) && Triples(v, b, x, r, y) && Tokens(v, s) && Decode(v, s) == Copies(b, n)
    ensures Widths(w) && s == Toks(x, r, y, w) && Sum(w, |w|) == n
  {
    w := seq(|s|, i requires 0 <= i < |s| => |v.bytes[s[i]]|);
    forall i | 0 <= i < |s| ensures 1 <= w[i] <= 3 && s[i] == Of(x, r, y, w[i]) {
      CopyToken(v, b, x, r, y, n, s, i);
    }
    assert s == Toks(x, r, y, w);
    ToksOffset(v, b, x, r, y, w, |w|);
    OffsetEnds(v, s);
  }

  /** Segments i and i + 1 are no token together. */
  predicate Far(w: seq<nat>, i: nat)
    requires i + 1 < |w|
  {
    w[i] + w[i + 1] > 3
  }

  lemma SettledFar(v: Vocab, b: byte, x: nat, r: nat, y: nat, w: seq<nat>, i: nat)
    requires Solid(v) && Triples(v, b, x, r, y) && Widths(w) && NoJoin(v, Toks(x, r, y, w)) && i + 1 < |w|
    ensures Far(w, i)
  {
    ToksTokens(v, b, x, r, y, w);
    if w[i] + w[i + 1] <= 3 {
      ToksJoin(v, b, x, r, y, w, i);
      JoinOfIs(v, Toks(x, r, y, w), i, Of(x, r, y, w[i] + w[i + 1]));
    }
  }

  lemma FirstSums(w: seq<nat>)
    requires |w| >= 3
    ensures Sum(w, 0) == 0 && Sum(w, 1) == w[0] && Sum(w, 2) == w[0] + w[1] && Sum(w, 3) == w[0] + w[1] + w[2]
  {
    assert Sum(w, 1) == Sum(w, 0) + w[0];
    assert Sum(w, 2) == Sum(w, 1) + w[1];
  }

  lemma CopiesStart(v: Vocab, b: byte, x: nat, r: nat, y: nat, n: nat)
    requires WellFormed(v) && Triples(v, b, x, r, y) && n >= 2
    ensures Covers(v, Copies(b, n)) && Tokens(v, Toks(x, r, y, OnePair(n))) && UpTo(y, AfterFirst(r, y, n))
    ensures HeapEncoding(v, false, Copies(b, n)) ==
            Run(v, false, Toks(x, r, y, OnePair(n)), AfterFirst(r, y, n))
  {
    hide WellFormed, Triples, Covers, HeapEncoding, Run, Seeds, Toks, Tokens, UpTo, Singles;
    TriplesArePairs(v, b, x, r, y);
    CopiesCovered(v, b, x, r, n);
    HeapStart(v, b, x, r, n);
    SeedsAre(v, b, x, r, n, n - 1);
    FirstTurn(v, b, x, r, y, n);
  }

  lemma NoBorderAt(v: Vocab, s: seq<nat>, p: nat, i: nat)
    requires Tokens(v, s) && NoBorder(v, s, p) && i <= |s|
    ensures Offset(v, s, i) != p
  {
  }

  /** The widths that up to six copies come out with. */
  function FewWidths(n: nat): (w: seq<nat>)
    requires n <= 6
    ensures Widths(w)
  {
    if n == 0 then [] else if n <= 3 then [n] else if n == 4 then [2, 2] else if n == 5 then [2, 3] else [2, 2, 2]
  }

  lemma ThreeCopies(v: Vocab, b: byte, x: nat, r: nat, y: nat)
    requires Solid(v) && Triples(v, b, x, r, y) && r < y && UpTo(y, AfterFirst(r, y, 3))
    ensures Tokens(v, Toks(x, r, y, OnePair(3)))
    ensures Run(v, false, Toks(x, r, y, OnePair(3)), AfterFirst(r, y, 3)) == Toks(x, r, y, [3])
  {
    hide Solid, Triples, Run, Popped, Toks, UpTo, Tokens;
    var w := OnePair(3);
    assert w == [2, 1] && Sum(w, 1) == 2;
    var r1, y0 := HeapItem(r, 1), HeapItem(y, 0);
    assert AfterFirst(r, y, 3) == [r1, y0];
    StaleOf(v, b, x, r, y, w, 2, 1, [r1, y0]);
    PoppedTwo(r1, y0);
    PoppedOne([y0]);
    MergeOf(v, b, x, r, y, w, 0, [y0]);
    assert JoinWidths(w, 0) == [3] && NewItems(y, [3], 0) == [];
    assert [] + NewItems(y, [3], 0) == [];
    RunEnds(v, Toks(x, r, y, [3]));
  }

  lemma TwoCopies(v: Vocab, b: byte, x: nat, r: nat, y: nat)
    requires Triples(v, b, x, r, y)
    ensures Tokens(v, Toks(x, r, y, OnePair(2)))
    ensures Run(v, false, Toks(x, r, y, OnePair(2)), AfterFirst(r, y, 2)) == Toks(x, r, y, [2])
  {
    ToksTokens(v, b, x, r, y, OnePair(2));
    assert OnePair(2) == [2] && AfterFirst(r, y, 2) == [];
  }

  lemma AtMostOneCopy(v: Vocab, b: byte, x: nat, r: nat, y: nat, n: nat)
    requires WellFormed(v) && Triples(v, b, x, r, y) && n <= 1
    ensures Covers(v, Copies(b, n)) && HeapEncoding(v, false, Copies(b, n)) == Toks(x, r, y, FewWidths(n))
  {
    TriplesArePairs(v, b, x, r, y);
    CopiesCovered(v, b, x, r, n);
    assert Toks(x, r, y, FewWidths(n)) == Copies(x, n);
  }

  /** What up to six copies become. */
  lemma FewCopies(v: Vocab, b: byte, x: nat, r: nat, y: nat, n: nat)
    requires WellFormed(v) && Triples(v, b, x, r, y) && n <= 6
    ensures Covers(v, Copies(b, n)) && HeapEncoding(v, false, Copies(b, n)) == Toks(x, r, y, FewWidths(n))
  {
    hide WellFormed, Triples, Covers, HeapEncoding, Run, Toks, Tokens, UpTo, OnePair, TwoPairs, AfterFirst, AfterSecond;
    if n <= 1 {
      AtMostOneCopy(v, b, x, r, y, n);
    } else {
      CopiesStart(v, b, x, r, y, n);
      TriplesArePairs(v, b, x, r, y);
      if n == 2 {
        TwoCopies(v, b, x, r, y);
      } else if n == 3 {
        ThreeCopies(v, b, x, r, y);
      } else {
        SecondTurn(v, b, x, r, y, n);
        if n == 4 {
          FourCopies(v, b, x, r, y);
        } else if n == 5 {
          FiveCopies(v, b, x, r, y);
        } else {
          SixCopies(v, b, x, r, y);
        }
      }
    }
  }

  lemma FewChain(v: Vocab, b: byte, x: nat, r: nat, y: nat, n: nat)
    requires WellFormed(v) && Triples(v, b, x, r, y) && n <= 6
    ensures IsChain(v, Toks(x, r, y, FewWidths(n)))
  {
    BehindPairOf(v, b, x, r, y, r);
    BehindPairOf(v, b, x, r, y, y);
    hide WellFormed, ValidPair;
  }

  // ---- Such vocabularies ---------------------------------------------------------------------------

  /** The tokens a, aa and aaa. */
  const TRIPLE := Vocab([[0], [0, 0], [0, 0, 0]], [0, 0, 1], [0, 0, 0])

  lemma TripleWellFormed()
    ensures WellFormed(TRIPLE) && Triples(TRIPLE, 0, 0, 1, 2)
  {
    forall z: nat, m: nat | z < 3 && m >= 4 ensures TRIPLE.bytes[z] != Copies(0, m) {
    }
  }
}
