/** What many copies of a byte become, with its double and its triple as tokens. */
module TripleRuns {

  // Until no two single bytes are neighbours only pairs are made.  At odd places they are made first; at an even place
  // one is made only where the next bytes are a pair already, or the text ends.  So single bytes remain in two places
  // at most, and each of them joins a pair next to it.

  import opened Vocabulary
  import opened Merging
  import opened Chain
  import opened LowestFirst
  import opened Heaps
  import opened HeapMerging
  import opened Ties
  import opened TripleTies
  import opened LeftFirst

  // ---- Segments of one or two bytes --------------------------------------------------------------

  ghost predicate Small(w: seq<nat>) {
    forall i :: 0 <= i < |w| ==> w[i] == 1 || w[i] == 2
  }

  /** Two single bytes next to each other. */
  ghost predicate Free(w: seq<nat>, i: nat) {
    i + 1 < |w| && w[i] == 1 && w[i + 1] == 1
  }

  ghost predicate Quiet(w: seq<nat>) {
    forall i: nat :: !Free(w, i)
  }

  /** Every two single bytes next to each other have their candidate in the heap. */
  ghost predicate PairsPending(r: nat, w: seq<nat>, h: seq<HeapItem>) {
    forall i: nat :: Free(w, i) ==> Has(r, h, Sum(w, i))
  }

  /** Every other two neighbours have left a candidate for a triple there, current or not. */
  ghost predicate TraceAt(y: nat, w: seq<nat>, h: seq<HeapItem>, i: nat)
    requires i + 1 < |w|
  {
    Has(y, h, Sum(w, i)) || (w[i] == w[i + 1] == 2 && Has(y, h, Sum(w, i) + 1))
  }

  ghost predicate Traces(y: nat, w: seq<nat>, h: seq<HeapItem>) {
    forall i :: 0 <= i && i + 1 < |w| && w[i] + w[i + 1] > 2 ==> TraceAt(y, w, h, i)
  }

  /** Behind a pair at an even place, other than the first, lies a pair or the end of the text. */
  ghost predicate EvenRuns(w: seq<nat>) {
    forall i, k :: 0 < i && k == i + 1 < |w| && w[i] == 2 && Sum(w, i) % 2 == 0 ==> w[k] == 2
  }

  /** The third byte is single between two pairs, and the text ends in a pair. */
  predicate Bounded(w: seq<nat>) {
    |w| >= 4 && w[0] == 2 && w[1] == 1 && w[2] == 2 && w[|w| - 1] == 2
  }

  ghost predicate Merged(r: nat, y: nat, n: nat, w: seq<nat>, h: seq<HeapItem>) {
    && Small(w) && Sum(w, |w|) == n >= 7 && Bounded(w) && EvenRuns(w)
    && PairsPending(r, w, h) && Traces(y, w, h) && InOrder(r, y, h, n - 2)
  }

  // ---- Joining two of them ----------------------------------------------------------------------

  lemma {:induction false} JoinedSum(w: seq<nat>, i: nat, j: nat)
    requires i + 1 < |w| && j < |w|
    ensures Sum(JoinWidths(w, i), j) == Sum(w, if j <= i then j else j + 1)
    decreases j
  {
    if j > 0 { JoinedSum(w, i, j - 1); }
  }

  lemma JoinedAt(w: seq<nat>, i: nat, j: nat)
    requires i + 1 < |w| && j < |w| - 1
    ensures JoinWidths(w, i)[j] == if j < i then w[j] else if j == i then w[i] + w[i + 1] else w[j + 1]
  {
  }

  lemma JoinedBounded(w: seq<nat>, i: nat)
    requires Bounded(w) && Small(w) && Free(w, i)
    ensures i >= 3 && i + 2 < |w| && Bounded(JoinWidths(w, i)) && Small(JoinWidths(w, i))
    ensures Sum(JoinWidths(w, i), |w| - 1) == Sum(w, |w|)
  {
    hide JoinWidths, Sum;
    JoinedSum(w, i, |w| - 1);
    forall j | 0 <= j < |w| - 1 ensures JoinWidths(w, i)[j] == 1 || JoinWidths(w, i)[j] == 2 {
      JoinedAt(w, i, j);
    }
    JoinedAt(w, i, 0);
    JoinedAt(w, i, 1);
    JoinedAt(w, i, 2);
    JoinedAt(w, i, |w| - 2);
  }

  lemma {:induction false} SumOrder(w: seq<nat>, i: nat, j: nat)
    requires Small(w) && i < j <= |w|
    ensures Sum(w, i) + j - i <= Sum(w, j)
    decreases j
  {
    if i < j - 1 { SumOrder(w, i, j - 1); }
  }

  lemma SumSame(w: seq<nat>, i: nat, j: nat)
    requires Small(w) && i <= |w| && j <= |w|
    ensures Sum(w, i) == Sum(w, j) <==> i == j
  {
    if i < j { SumOrder(w, i, j); }
    if j < i { SumOrder(w, j, i); }
  }

  /** The candidates behind the new segment are those popped and the new ones. */
  lemma NewHas(r: nat, y: nat, w: seq<nat>, i: nat, h: seq<HeapItem>, x: nat, s: nat)
    requires i < |w|
    ensures Has(x, h, s) ==> Has(x, h + NewItems(y, w, i), s)
    ensures x != y ==> (Has(x, h + NewItems(y, w, i), s) <==> Has(x, h, s))
  {
  }

  lemma PendingKept(r: nat, y: nat, w: seq<nat>, i: nat, h: seq<HeapItem>)
    requires Small(w) && Free(w, i) && PairsPending(r, w, h) && r < y
    requires h != [] && IsHeap(false, h) && Once(r, h) && At(r, h, 0, Sum(w, i))
    ensures PairsPending(r, JoinWidths(w, i), Popped(false, h) + NewItems(y, JoinWidths(w, i), i))
  {
    hide IsHeap, Once, Popped, NewItems, Small;
    var w' := JoinWidths(w, i);
    forall k: nat | Free(w', k) ensures Has(r, Popped(false, h) + NewItems(y, w', i), Sum(w', k)) {
      JoinedAt(w, i, k);
      JoinedAt(w, i, k + 1);
      JoinedSum(w, i, k);
      var o: nat := if k < i then k else k + 1;
      assert Free(w, o) && o != i;
      SumSame(w, o, i);
      PopHas(r, y, h, Sum(w, o));
      NewHas(r, y, w', i, Popped(false, h), r, Sum(w', k));
    }
  }

  lemma TracesKept(r: nat, y: nat, w: seq<nat>, i: nat, h: seq<HeapItem>)
    requires Small(w) && Free(w, i) && Traces(y, w, h) && r < y
    requires h != [] && IsHeap(false, h) && h[0].priority == r
    ensures Traces(y, JoinWidths(w, i), Popped(false, h) + NewItems(y, JoinWidths(w, i), i))
  {
    hide IsHeap, Popped;
    var w', g := JoinWidths(w, i), Popped(false, h) + NewItems(y, JoinWidths(w, i), i);
    forall s: nat ensures Has(y, h, s) ==> Has(y, g, s) {
      PopHigher(r, y, h, HeapItem(y, s));
      NewHas(r, y, w', i, Popped(false, h), y, s);
    }
    hide NewItems, Has;
    forall k | 0 <= k && k + 1 < |w'| && w'[k] + w'[k + 1] > 2 ensures TraceAt(y, w', g, k) {
      TraceKept(r, y, w, i, h, k);
    }
  }

  lemma TraceKept(r: nat, y: nat, w: seq<nat>, i: nat, h: seq<HeapItem>, k: nat)
    requires Small(w) && Free(w, i) && Traces(y, w, h)
    requires k + 1 < |w| - 1 && JoinWidths(w, i)[k] + JoinWidths(w, i)[k + 1] > 2
    requires forall s: nat ::
               Has(y, h, s) ==> Has(y, Popped(false, h) + NewItems(y, JoinWidths(w, i), i), s)
    requires h != []
    ensures TraceAt(y, JoinWidths(w, i), Popped(false, h) + NewItems(y, JoinWidths(w, i), i), k)
  {
    hide Popped, Sum;
    var w', g := JoinWidths(w, i), Popped(false, h) + NewItems(y, JoinWidths(w, i), i);
    JoinedAt(w, i, k);
    JoinedAt(w, i, k + 1);
    JoinedSum(w, i, k);
    if k + 1 < i {
      assert TraceAt(y, w, h, k);
    } else if k + 1 == i {
      if w[k] == 1 {
        assert HeapItem(y, Sum(w', k)) in TripleItem(y, w', k);
      } else {
        assert TraceAt(y, w, h, k);
      }
    } else if k == i {
      if w[i + 2] == 1 {
        assert HeapItem(y, Sum(w', k)) in TripleItem(y, w', k);
      } else {
        assert TraceAt(y, w, h, i + 1);
        NextSum(w, i);
      }
    } else {
      assert TraceAt(y, w, h, k + 1);
    }
  }

  lemma NextSum(w: seq<nat>, i: nat)
    requires i < |w|
    ensures Sum(w, i + 1) == Sum(w, i) + w[i]
  {
  }

  /** A pair is made at an even place only in front of a pair. */
  lemma EvenRunsKept(r: nat, y: nat, n: nat, w: seq<nat>, i: nat, h: seq<HeapItem>)
    requires Merged(r, y, n, w, h) && Free(w, i) && At(r, h, 0, Sum(w, i))
    ensures EvenRuns(JoinWidths(w, i))
  {
    hide InOrder, Traces, Sum;
    var w' := JoinWidths(w, i);
    JoinedBounded(w, i);
    if Sum(w, i) % 2 == 0 { EvenPlace(r, y, n, w, i, h); }
    forall j, k | 0 < j && k == j + 1 < |w'| && w'[j] == 2 && Sum(w', j) % 2 == 0 ensures w'[k] == 2 {
      JoinedAt(w, i, j);
      JoinedAt(w, i, k);
      JoinedSum(w, i, j);
    }
  }

  lemma EvenPlace(r: nat, y: nat, n: nat, w: seq<nat>, i: nat, h: seq<HeapItem>)
    requires Merged(r, y, n, w, h) && Free(w, i) && At(r, h, 0, Sum(w, i)) && Sum(w, i) % 2 == 0
    ensures i + 2 < |w| && w[i + 2] == 2
  {
    hide InOrder, Traces, Sum;
    JoinedBounded(w, i);
    var s := Sum(w, i);
    NextSum(w, i);
    NextSum(w, i - 1);
    SumOrder(w, 0, i);
    assert w[i - 1] == 2 ==> Sum(w, i - 1) % 2 == 0;
    assert w[i - 1] == 1 && Free(w, i - 1);
    if w[i + 2] == 1 {
      assert Free(w, i + 1);
      EvenIsLate(r, y, h, n - 2, s);
      assert false;
    }
  }

  // ---- The size of the heap ---------------------------------------------------------------------

  /** The candidates that the first borders have left. */
  lemma {:induction false} BorderItems(r: nat, y: nat, w: seq<nat>, h: seq<HeapItem>, i: nat) returns (b: set<HeapItem>)
    requires Small(w) && PairsPending(r, w, h) && Traces(y, w, h) && i < |w|
    ensures |b| == i && forall x :: x in b ==> x in h && x.start < Sum(w, i)
    decreases i
  {
    if i == 0 {
      b := {};
    } else {
      var rest := BorderItems(r, y, w, h, i - 1);
      var x := BorderItem(r, y, w, h, i - 1);
      b := rest + {x};
    }
  }

  lemma BorderItem(r: nat, y: nat, w: seq<nat>, h: seq<HeapItem>, i: nat) returns (x: HeapItem)
    requires Small(w) && PairsPending(r, w, h) && Traces(y, w, h) && i + 1 < |w|
    ensures x in h && Sum(w, i) <= x.start < Sum(w, i + 1)
  {
    NextSum(w, i);
    if w[i] + w[i + 1] == 2 {
      assert Free(w, i);
      x := HeapItem(r, Sum(w, i));
    } else {
      assert TraceAt(y, w, h, i);
      x := if Has(y, h, Sum(w, i)) then HeapItem(y, Sum(w, i)) else HeapItem(y, Sum(w, i) + 1);
    }
  }

  lemma {:induction false} SetInSeq<T>(b: set<T>, h: seq<T>)
    requires forall x :: x in b ==> x in h
    ensures |b| <= |h|
    decreases |h|
  {
    if h != [] {
      SetInSeq(b - {h[0]}, h[1..]);
      assert b <= (b - {h[0]}) + {h[0]};
    } else {
      assert b == {};
    }
  }

  lemma {:induction false} SumBound(w: seq<nat>, i: nat, j: nat)
    requires Small(w) && Free(w, i) && j <= |w|
    ensures Sum(w, j) <= 2 * j - (if j > i + 1 then 2 else if j > i then 1 else 0)
    decreases j
  {
    if j > 0 { SumBound(w, i, j - 1); }
  }

  /** As long as two single bytes are neighbours, the end of the heap is a leaf of the first one. */
  lemma BigHeap(r: nat, y: nat, n: nat, w: seq<nat>, h: seq<HeapItem>, i: nat)
    requires Merged(r, y, n, w, h) && Free(w, i)
    ensures |h| > 1 && n - 2 <= 2 * (|h| - 1)
  {
    hide InOrder, EvenRuns;
    var b := BorderItems(r, y, w, h, |w| - 1);
    SetInSeq(b, h);
    SumBound(w, i, |w|);
  }

  lemma TopIsLower(r: nat, y: nat, n: nat, w: seq<nat>, h: seq<HeapItem>, i: nat)
    requires Merged(r, y, n, w, h) && Free(w, i)
    ensures h != [] && At(r, h, 0, h[0].start) && h[0].start <= n - 2
  {
    assert Has(r, h, Sum(w, i));
    var p := HasAt(r, h, Sum(w, i));
    TopIsLeast(false, h, p);
    assert At(r, h, 0, h[0].start);
  }

  // ---- Turns ------------------------------------------------------------------------------------------

  /** A turn that makes a pair. */
  lemma PairTurn(r: nat, y: nat, n: nat, w: seq<nat>, h: seq<HeapItem>, i: nat)
    requires Merged(r, y, n, w, h) && Free(w, i) && At(r, h, 0, Sum(w, i)) && NoWrap(r, h)
    ensures Merged(r, y, n, JoinWidths(w, i), Popped(false, h) + NewItems(y, JoinWidths(w, i), i))
  {
    hide InOrder, EvenRuns, PairsPending, Traces, Popped, NewItems, JoinWidths, Small, Sum;
    BigHeap(r, y, n, w, h, i);
    JoinedBounded(w, i);
    EvenRunsKept(r, y, n, w, i, h);
    InOrderParts(r, y, h, n - 2);
    PendingKept(r, y, w, i, h);
    TracesKept(r, y, w, i, h);
    PopKeeps(r, y, h, n - 2);
    PushNew(r, y, JoinWidths(w, i), i, Popped(false, h), n - 2);
    NewWidths(w, i);
  }

  lemma NewWidths(w: seq<nat>, i: nat)
    requires i + 1 < |w|
    ensures |JoinWidths(w, i)| == |w| - 1
  {
  }

  lemma InOrderParts(r: nat, y: nat, h: seq<HeapItem>, last: nat)
    requires InOrder(r, y, h, last)
    ensures IsHeap(false, h) && Once(r, h) && r < y && TwoKinds(r, y, h)
  {
  }

  lemma PushNew(r: nat, y: nat, w: seq<nat>, i: nat, h: seq<HeapItem>, last: nat)
    requires InOrder(r, y, h, last) && i < |w|
    ensures InOrder(r, y, h + NewItems(y, w, i), last)
  {
    hide InOrder;
    var a := if i + 1 < |w| then TripleItem(y, w, i) else [];
    var c := if i > 0 then TripleItem(y, w, i - 1) else [];
    assert h + [] == h && (h + a) + [] == h + a;
    if a != [] { PushKeeps(r, y, h, a[0], last); }
    if c != [] { PushKeeps(r, y, h + a, c[0], last); }
    assert h + NewItems(y, w, i) == (h + a) + c;
  }

  /** A turn that drops a candidate. */
  lemma DropTurn(r: nat, y: nat, n: nat, w: seq<nat>, h: seq<HeapItem>, i: nat)
    requires Merged(r, y, n, w, h) && Free(w, i) && h != [] && NoWrap(r, h)
    requires forall k: nat :: Free(w, k) ==> Sum(w, k) != h[0].start
    ensures Merged(r, y, n, w, Popped(false, h))
  {
    hide InOrder, EvenRuns, Popped, Sum, JoinWidths;
    BigHeap(r, y, n, w, h, i);
    TopIsLower(r, y, n, w, h, i);
    InOrderParts(r, y, h, n - 2);
    PopKeeps(r, y, h, n - 2);
    forall k: nat | Free(w, k) ensures Has(r, Popped(false, h), Sum(w, k)) {
      PopHas(r, y, h, Sum(w, k));
    }
    forall s: nat ensures Has(y, h, s) ==> Has(y, Popped(false, h), s) {
      PopHigher(r, y, h, HeapItem(y, s));
    }
    hide Has, IsHeap, Once;
    forall k | 0 <= k && k + 1 < |w| && w[k] + w[k + 1] > 2 ensures TraceAt(y, w, Popped(false, h), k) {
      assert TraceAt(y, w, h, k);
    }
  }

  // ---- Along the left edge of the heap -------------------------------------------------------------

  /** From segment e on there are single bytes, up to the pair at the end. */
  ghost predicate Row(w: seq<nat>, e: nat) {
    e < |w| && forall k :: e <= k < |w| - 1 ==> w[k] == 1
  }

  lemma {:induction false} RowSum(w: seq<nat>, e: nat, k: nat)
    requires Row(w, e) && e <= k < |w|
    ensures Sum(w, k) == Sum(w, e) + k - e
    decreases k
  {
    if e < k { RowSum(w, e, k - 1); }
  }

  lemma RowEnd(w: seq<nat>, n: nat)
    requires Bounded(w) && Sum(w, |w|) == n
    ensures Sum(w, |w| - 1) == n - 2
  {
  }

  /** The candidates at the left edge come up one after the other; the next is that of level j, and the last one made a
      pair up to segment e. */
  ghost predicate OnEdge(r: nat, y: nat, n: nat, w: seq<nat>, h: seq<HeapItem>, j: nat, e: nat) {
    && Merged(r, y, n, w, h) && j >= 3 && LeftUp(r, h, n - 3, j, 0) && LeftGoneTo(r, h, j) && !Has(r, h, n - 2)
    && h != [] && h[|h| - 1].priority == y && Row(w, e) && Sum(w, e) == Left(j - 1) + 2
  }

  ghost predicate LeftGoneTo(r: nat, h: seq<HeapItem>, j: nat) {
    forall i: nat :: i < j ==> !Has(r, h, Left(i))
  }

  lemma {:induction false} LeftMonotone(i: nat, j: nat)
    requires i <= j
    ensures Left(i) <= Left(j)
    decreases j
  {
    if i < j { LeftMonotone(i, j - 1); }
  }

  lemma EdgeDone(r: nat, y: nat, n: nat, h: seq<HeapItem>, j: nat)
    requires n >= 7 && InOrder(r, y, h, n - 2) && LeftGoneTo(r, h, j) && !Has(r, h, n - 2) && Left(j) > n - 3
    ensures LeftGone(r, h)
  {
    hide EvenWaits, RightStays, Once, TwoKinds, IsHeap;
    forall i: nat ensures !Has(r, h, Left(i)) {
      if i >= j && Has(r, h, Left(i)) {
        LeftMonotone(j, i);
        var p := HasAt(r, h, Left(i));
        assert Left(i) <= n - 2;
        assert false;
      }
    }
  }

  /** The segment at the start of level j. */
  function EdgePlace(j: nat, e: nat): nat
    requires j >= 3
  {
    e + Left(j - 1) - 1
  }

  lemma LeftThree(j: nat)
    requires j >= 3
    ensures Left(j - 1) >= 3 && Left(j) == 2 * Left(j - 1) + 1
  {
    LeftMonotone(2, j - 1);
    assert Left(0) == 0 && Left(1) == 1 && Left(2) == 3;
  }

  lemma EdgeFree(r: nat, y: nat, n: nat, w: seq<nat>, h: seq<HeapItem>, j: nat, e: nat)
    requires OnEdge(r, y, n, w, h, j, e) && Left(j) <= n - 4
    ensures EdgePlace(j, e) >= 1 && Free(w, EdgePlace(j, e)) && Sum(w, EdgePlace(j, e)) == Left(j)
    ensures w[EdgePlace(j, e) - 1] == 1 && At(r, h, 0, Left(j)) && e < EdgePlace(j, e)
  {
    hide InOrder, PairsPending, Traces, EvenRuns, Sum, Left, LeftGoneTo;
    var i := EdgePlace(j, e);
    LeftThree(j);
    RowEnd(w, n);
    RowSum(w, e, |w| - 1);
    RowSum(w, e, i);
    assert At(r, h, Left(0), Left(0 + j));
    LeftZero();
  }

  lemma LeftZero()
    ensures Left(0) == 0
  {
  }

  lemma HigherEndNoWrap(r: nat, y: nat, h: seq<HeapItem>)
    requires h != [] && h[|h| - 1].priority == y && r < y
    ensures NoWrap(r, h)
  {
  }

  lemma EdgePair(r: nat, y: nat, n: nat, w: seq<nat>, h: seq<HeapItem>, j: nat, e: nat)
    requires OnEdge(r, y, n, w, h, j, e) && Left(j) <= n - 4
    ensures var i := EdgePlace(j, e);
            && i + 1 < |w|
            && var w' := JoinWidths(w, i);
               OnEdge(r, y, n, w', Popped(false, h) + NewItems(y, w', i), j + 1, i + 1)
  {
    hide InOrder, PairsPending, Traces, EvenRuns, Sum, Left, Popped, NewItems, JoinWidths, EdgePlace, Row, Bounded,
         Small;
    var i := EdgePlace(j, e);
    EdgeFree(r, y, n, w, h, j, e);
    InOrderParts(r, y, h, n - 2);
    HigherEndNoWrap(r, y, h);
    PairTurn(r, y, n, w, h, i);
    BigHeap(r, y, n, w, h, i);
    LeftMovesUp(r, y, h, n - 3, j);
    EdgeGone(r, y, h, n, j);
    EdgeItems(y, w, i, Popped(false, h));
    EdgeRow(w, e, i);
    EdgeStill(r, y, n, h, JoinWidths(w, i), i, j);
  }

  lemma EdgeGone(r: nat, y: nat, h: seq<HeapItem>, n: nat, j: nat)
    requires n >= 7 && h != [] && IsHeap(false, h) && Once(r, h) && At(r, h, 0, Left(j))
    requires LeftGoneTo(r, h, j) && !Has(r, h, n - 2)
    ensures LeftGoneTo(r, Popped(false, h), j + 1) && !Has(r, Popped(false, h), n - 2)
  {
    hide IsHeap, Once, Popped, Left;
    PopHas(r, y, h, n - 2);
    forall i: nat | i < j + 1 ensures !Has(r, Popped(false, h), Left(i)) {
      PopHas(r, y, h, Left(i));
    }
  }

  lemma EdgeItems(y: nat, w: seq<nat>, i: nat, h: seq<HeapItem>)
    requires 0 < i && Free(w, i) && w[i - 1] == 1
    ensures |JoinWidths(w, i)| == |w| - 1
    ensures var g := h + NewItems(y, JoinWidths(w, i), i); g != [] && g[|g| - 1].priority == y
  {
    JoinedAt(w, i, i - 1);
    JoinedAt(w, i, i);
    hide JoinWidths, Sum;
  }

  lemma EdgeRow(w: seq<nat>, e: nat, i: nat)
    requires Row(w, e) && e < i && Free(w, i) && Bounded(w) && Small(w)
    ensures Row(JoinWidths(w, i), i + 1) && Sum(JoinWidths(w, i), i + 1) == Sum(w, i) + 2
  {
    JoinedBounded(w, i);
    JoinedSum(w, i, i + 1);
    NextSum(w, i);
    NextSum(w, i + 1);
    forall k | i + 1 <= k < |JoinWidths(w, i)| - 1 ensures JoinWidths(w, i)[k] == 1 {
      JoinedAt(w, i, k);
    }
  }

  lemma EdgeStill(r: nat, y: nat, n: nat, h: seq<HeapItem>, w: seq<nat>, i: nat, j: nat)
    requires n >= 7 && h != [] && i < |w| && r < y
    requires LeftUp(r, Popped(false, h), n - 3, j + 1, 0)
    requires LeftGoneTo(r, Popped(false, h), j + 1) && !Has(r, Popped(false, h), n - 2)
    ensures var g := Popped(false, h) + NewItems(y, w, i);
            LeftUp(r, g, n - 3, j + 1, 0) && LeftGoneTo(r, g, j + 1) && !Has(r, g, n - 2)
  {
    hide Popped, NewItems, Left;
    var p := Popped(false, h);
    forall s: nat ensures Has(r, p + NewItems(y, w, i), s) <==> Has(r, p, s) {
      NewHas(r, y, w, i, p, r, s);
    }
    forall k: nat | k >= 0 && Left(k + (j + 1)) <= n - 3
      ensures At(r, p + NewItems(y, w, i), Left(k), Left(k + (j + 1)))
    {
      assert At(r, p, Left(k), Left(k + (j + 1)));
    }
  }

  lemma GoneKept(r: nat, y: nat, h: seq<HeapItem>, w: seq<nat>, i: nat)
    requires LeftGone(r, h) && h != [] && IsHeap(false, h) && Once(r, h) && r < y && i < |w|
    ensures LeftGone(r, Popped(false, h)) && LeftGone(r, Popped(false, h) + NewItems(y, w, i))
  {
    hide IsHeap, Once, Popped, NewItems;
    forall j: nat ensures !Has(r, Popped(false, h), Left(j)) && !Has(r, Popped(false, h) + NewItems(y, w, i), Left(j)) {
      PopHas(r, y, h, Left(j));
      NewHas(r, y, w, i, Popped(false, h), r, Left(j));
    }
  }

  lemma SmallWidths(r: nat, y: nat, n: nat, w: seq<nat>, h: seq<HeapItem>)
    requires Merged(r, y, n, w, h)
    ensures Widths(w) && UpTo(y, h)
  {
    hide EvenRuns, PairsPending, Traces, Sum, Once, Placed, EvenWaits, RightStays, IsHeap;
    assert TwoKinds(r, y, h);
  }

  /** From there on pairs are made until no two single bytes are neighbours. */
  lemma {:induction false} UntilQuiet(v: Vocab, b: byte, x: nat, r: nat, y: nat, n: nat, w: seq<nat>, h: seq<HeapItem>)
      returns (w': seq<nat>, h': seq<HeapItem>)
    requires Solid(v) && Triples(v, b, x, r, y) && Merged(r, y, n, w, h) && LeftGone(r, h)
    ensures Small(w') && Sum(w', |w'|) == n && Bounded(w') && EvenRuns(w') && Quiet(w')
    ensures Tokens(v, Toks(x, r, y, w)) && Tokens(v, Toks(x, r, y, w'))
    ensures Run(v, false, Toks(x, r, y, w), h) == Run(v, false, Toks(x, r, y, w'), h')
    decreases |w|, |h|
  {
    hide Solid, Triples, EvenRuns, PairsPending, Traces, InOrder, Run, Toks, Tokens, Popped, NewItems, Sum, JoinWidths,
         Small, UpTo, Widths;
    SmallWidths(r, y, n, w, h);
    ToksTokens(v, b, x, r, y, w);
    if Quiet(w) {
      w', h' := w, h;
    } else {
      var i: nat :| Free(w, i);
      TopIsLower(r, y, n, w, h, i);
      InOrderParts(r, y, h, n - 2);
      GoneNoWrap(r, h);
      if k: nat :| Free(w, k) && Sum(w, k) == h[0].start {
        GoneKept(r, y, h, JoinWidths(w, k), k);
        PairTurn(r, y, n, w, h, k);
        NewWidths(w, k);
        MergeOf(v, b, x, r, y, w, k, h);
        w', h' := UntilQuiet(v, b, x, r, y, n, JoinWidths(w, k), Popped(false, h) + NewItems(y, JoinWidths(w, k), k));
      } else {
        GoneKept(r, y, h, w, 0);
        DropTurn(r, y, n, w, h, i);
        NotFree(w, h[0].start);
        StaleOf(v, b, x, r, y, w, 2, h[0].start, h);
        w', h' := UntilQuiet(v, b, x, r, y, n, w, Popped(false, h));
      }
    }
  }

  lemma NotFree(w: seq<nat>, start: nat)
    requires Widths(w) && forall k: nat :: Free(w, k) ==> Sum(w, k) != start
    ensures forall i: nat :: i + 1 < |w| && Sum(w, i) == start ==> w[i] + w[i + 1] != 2
  {
    hide Sum;
    forall i: nat | i + 1 < |w| && Sum(w, i) == start ensures w[i] + w[i + 1] != 2 {
      assert !Free(w, i);
    }
  }

  /** At n - 3 no pair can be made any more. */
  lemma EdgeStale(w: seq<nat>, n: nat)
    requires Small(w) && Bounded(w) && Sum(w, |w|) == n >= 7
    ensures forall k: nat :: Free(w, k) ==> Sum(w, k) != n - 3
  {
    hide Sum;
    RowEnd(w, n);
    forall k: nat | Free(w, k) ensures Sum(w, k) != n - 3 {
      NextSum(w, k);
      SumSame(w, k + 1, |w| - 1);
    }
  }

  /** The candidates at the left edge come up until none is left. */
  lemma {:induction false} AlongEdge(v: Vocab, b: byte, x: nat, r: nat, y: nat, n: nat, w: seq<nat>, h: seq<HeapItem>,
                                     j: nat, e: nat) returns (w': seq<nat>, h': seq<HeapItem>)
    requires Solid(v) && Triples(v, b, x, r, y) && OnEdge(r, y, n, w, h, j, e)
    ensures Merged(r, y, n, w', h') && (Quiet(w') || LeftGone(r, h'))
    ensures Tokens(v, Toks(x, r, y, w)) && Tokens(v, Toks(x, r, y, w'))
    ensures Run(v, false, Toks(x, r, y, w), h) == Run(v, false, Toks(x, r, y, w'), h')
    decreases |w|
  {
    hide Solid, Triples, EvenRuns, PairsPending, Traces, InOrder, Run, Toks, Tokens, Popped, NewItems, Sum, JoinWidths,
         Small, UpTo, Widths, Left, Row, EdgePlace, Quiet, LeftGone, LeftGoneTo, LeftUp, Bounded;
    SmallWidths(r, y, n, w, h);
    ToksTokens(v, b, x, r, y, w);
    w', h' := w, h;
    if Left(j) > n - 3 {
      EdgeDone(r, y, n, h, j);
    } else if Left(j) < n - 3 {
      var i := EdgePlace(j, e);
      EdgeFree(r, y, n, w, h, j, e);
      EdgePair(r, y, n, w, h, j, e);
      NewWidths(w, i);
      MergeOf(v, b, x, r, y, w, i, h);
      w', h' := AlongEdge(v, b, x, r, y, n, JoinWidths(w, i), Popped(false, h) + NewItems(y, JoinWidths(w, i), i),
                          j + 1, i + 1);
    } else if !Quiet(w) {
      LastOnEdge(r, y, n, w, h, j, e);
      NotFree(w, n - 3);
      StaleOf(v, b, x, r, y, w, 2, n - 3, h);
      h' := Popped(false, h);
    }
  }

  lemma LastOnEdge(r: nat, y: nat, n: nat, w: seq<nat>, h: seq<HeapItem>, j: nat, e: nat)
    requires OnEdge(r, y, n, w, h, j, e) && Left(j) == n - 3 && !Quiet(w)
    ensures At(r, h, 0, n - 3) && Merged(r, y, n, w, Popped(false, h)) && LeftGone(r, Popped(false, h))
    ensures forall k: nat :: Free(w, k) ==> Sum(w, k) != n - 3
  {
    hide EvenRuns, PairsPending, Traces, InOrder, Popped, Sum, Small, Left, Row, LeftGone, LeftGoneTo, Bounded;
    var i: nat :| Free(w, i);
    LeftZero();
    assert At(r, h, Left(0), Left(0 + j));
    EdgeStale(w, n);
    InOrderParts(r, y, h, n - 2);
    HigherEndNoWrap(r, y, h);
    DropTurn(r, y, n, w, h, i);
    EdgeGone(r, y, h, n, j);
    LeftGrows(j);
    EdgeDone(r, y, n, Popped(false, h), j + 1);
  }

  // ---- The beginning ------------------------------------------------------------------------------

  lemma StartInOrder(r: nat, y: nat, n: nat)
    requires r < y && n >= 2
    ensures InOrder(r, y, Candidates(r, 0, n - 1), n - 2)
  {
    var h := Candidates(r, 0, n - 1);
    forall p: nat, s: nat ensures At(r, h, p, s) <==> p == s < n - 1 {
    }
    forall s: nat ensures Has(r, h, s) <==> s < n - 1 {
      if s < n - 1 { assert At(r, h, s, s); }
    }
  }

  /** The lower items in the heap, apart from one, are those from a to c. */
  ghost predicate Holds(r: nat, h: seq<HeapItem>, a: nat, c: nat) {
    forall s: nat :: Has(r, h, s) <==> a <= s <= c
  }

  lemma HoldsStart(r: nat, n: nat)
    requires n >= 2
    ensures Holds(r, Candidates(r, 0, n - 1), 0, n - 2)
  {
    var h := Candidates(r, 0, n - 1);
    forall s: nat ensures Has(r, h, s) <==> s <= n - 2 {
      if s <= n - 2 { assert At(r, h, s, s); }
    }
  }

  lemma HoldsPopped(r: nat, y: nat, h: seq<HeapItem>, a: nat, c: nat, x: HeapItem)
    requires h != [] && IsHeap(false, h) && Once(r, h) && Holds(r, h, a, c) && x.priority == y && r < y
    ensures At(r, h, 0, a) ==> Holds(r, Popped(false, h), a + 1, c) && Holds(r, Popped(false, h) + [x], a + 1, c)
    ensures At(r, h, 0, c) && c > 0 ==>
              Holds(r, Popped(false, h), a, c - 1) && Holds(r, Popped(false, h) + [x], a, c - 1)
  {
    hide IsHeap, Once, Popped;
    forall s: nat
      ensures Has(r, Popped(false, h), s) <==> a <= s <= c && !At(r, h, 0, s)
      ensures Has(r, Popped(false, h) + [x], s) <==> Has(r, Popped(false, h), s)
    {
      PopHas(r, y, h, s);
      PushAt(r, Popped(false, h), x, 0, s);
    }
  }

  lemma LeftUpPushed(r: nat, h: seq<HeapItem>, x: HeapItem, last: nat, j: nat, c: nat)
    requires LeftUp(r, h, last, j, c) && x.priority != r
    ensures LeftUp(r, h + [x], last, j, c)
  {
    hide Left;
    forall i: nat | i >= c && Left(i + j) <= last ensures At(r, h + [x], Left(i), Left(i + j)) {
      assert At(r, h, Left(i), Left(i + j));
      PushAt(r, h, x, Left(i), Left(i + j));
    }
  }

  lemma FirstInOrder(r: nat, y: nat, n: nat)
    requires r < y && n >= 7
    ensures var h := AfterFirst(r, y, n);
            && InOrder(r, y, h, n - 2) && Holds(r, h, 1, n - 2) && LeftUp(r, h, n - 3, 0, 1) && |h| == n - 1
            && At(r, h, 0, n - 2) && h[n - 2] == HeapItem(y, 0)
  {
    var h, y0 := Candidates(r, 0, n - 1), HeapItem(y, 0);
    hide InOrder, Popped, IsHeap, Once, Holds, Left, LeftUp;
    StartInOrder(r, y, n);
    InOrderParts(r, y, h, n - 2);
    HoldsStart(r, n);
    FirstNoWrap(r, n);
    PopKeeps(r, y, h, n - 2);
    PushKeeps(r, y, Popped(false, h), y0, n - 2);
    HoldsPopped(r, y, h, 0, n - 2, y0);
    FirstPopped(r, n);
    assert AfterFirst(r, y, n) == Popped(false, h) + [y0];
    FirstLeftUp(r, y, n);
  }

  lemma FirstNoWrap(r: nat, n: nat)
    requires n >= 7
    ensures NoWrap(r, Candidates(r, 0, n - 1))
  {
  }

  lemma FirstLeftUp(r: nat, y: nat, n: nat)
    requires r < y && n >= 7
    ensures LeftUp(r, AfterFirst(r, y, n), n - 3, 0, 1)
  {
    var h := AfterFirst(r, y, n);
    forall i: nat | i >= 1 && Left(i + 0) <= n - 3 ensures At(r, h, Left(i), Left(i + 0)) {
      LeftMonotone(1, i);
    }
  }

  lemma SecondInOrder(r: nat, y: nat, n: nat)
    requires r < y && n >= 7
    ensures var h := AfterSecond(r, y, n);
            && InOrder(r, y, h, n - 2) && Holds(r, h, 1, n - 3) && LeftUp(r, h, n - 3, 1, 0) && |h| == n - 1
            && At(r, h, 0, 1) && h[n - 2] == HeapItem(y, n - 3) && Has(y, h, 0)
  {
    hide InOrder, Popped, IsHeap, Once, Holds, Left, LeftUp, AfterFirst;
    FirstInOrder(r, y, n);
    var h, x := AfterFirst(r, y, n), HeapItem(y, n - 3);
    InOrderParts(r, y, h, n - 2);
    HigherEndNoWrap(r, y, h);
    PopKeeps(r, y, h, n - 2);
    PushKeeps(r, y, Popped(false, h), x, n - 2);
    HoldsPopped(r, y, h, 1, n - 2, x);
    LeftMovesUp(r, y, h, n - 3, 0);
    LeftUpPushed(r, Popped(false, h), x, n - 3, 1, 0);
    PopHigher(r, y, h, HeapItem(y, 0));
    assert AfterSecond(r, y, n) == Popped(false, h) + [x];
    EdgeTop(r, AfterSecond(r, y, n), n - 3, 1);
  }

  lemma EdgeTop(r: nat, h: seq<HeapItem>, last: nat, j: nat)
    requires LeftUp(r, h, last, j, 0)
    ensures Left(j) <= last ==> At(r, h, 0, Left(j))
    ensures Left(1) == 1 && Left(2) == 3
  {
    assert Left(0) == 0 && Left(0 + j) == Left(j);
    assert Left(1) == 2 * Left(0) + 1;
    if Left(j) <= last { assert At(r, h, Left(0), Left(0 + j)); }
  }

  lemma ThirdInOrder(r: nat, y: nat, n: nat)
    requires r < y && n >= 7
    ensures var h := Popped(false, AfterSecond(r, y, n));
            && InOrder(r, y, h, n - 2) && Holds(r, h, 2, n - 3) && LeftUp(r, h, n - 3, 2, 0) && |h| == n - 2
            && At(r, h, 0, 3) && Has(y, h, 0) && Has(y, h, n - 3)
  {
    hide InOrder, Popped, IsHeap, Once, Holds, Left, LeftUp, AfterSecond;
    SecondInOrder(r, y, n);
    var h := AfterSecond(r, y, n);
    InOrderParts(r, y, h, n - 2);
    HigherEndNoWrap(r, y, h);
    PopKeeps(r, y, h, n - 2);
    HoldsPopped(r, y, h, 1, n - 3, HeapItem(y, 0));
    LeftUpFrom(r, h, n - 3, 1);
    LeftMovesUp(r, y, h, n - 3, 1);
    PopHigher(r, y, h, HeapItem(y, 0));
    PopHigher(r, y, h, HeapItem(y, n - 3));
    EdgeTop(r, Popped(false, h), n - 3, 2);
  }

  lemma ThirdItems(y: nat, n: nat)
    requires n >= 8
    ensures NewItems(y, Stranded(n), 2) == [HeapItem(y, 3), HeapItem(y, 2)]
  {
    FirstSums(Stranded(n));
  }

  /** Either the item at n - 3 has just jumped to the top, or the left edge has moved up. */
  ghost predicate ThirdState(r: nat, h: seq<HeapItem>, n: nat)
    requires n >= 7
  {
    LeftUp(r, h, n - 3, 3, 0) || (At(r, h, 0, n - 3) && LeftUp(r, h, n - 3, 2, 1))
  }

  lemma FourthPop(r: nat, y: nat, n: nat, h: seq<HeapItem>)
    requires n >= 8 && InOrder(r, y, h, n - 2) && Holds(r, h, 2, n - 3) && LeftUp(r, h, n - 3, 2, 0) && |h| == n - 2
    requires At(r, h, 0, 3)
    ensures InOrder(r, y, Popped(false, h), n - 2) && ThirdState(r, Popped(false, h), n)
    ensures forall s: nat :: Has(r, Popped(false, h), s) <==> 2 <= s <= n - 3 && s != 3
  {
    hide InOrder, Popped, IsHeap, Once, Left, LeftUp, Placed;
    InOrderParts(r, y, h, n - 2);
    assert NoWrap(r, h);
    PopKeeps(r, y, h, n - 2);
    forall s: nat ensures Has(r, Popped(false, h), s) <==> 2 <= s <= n - 3 && s != 3 {
      PopHas(r, y, h, s);
    }
    if h[n - 3].priority == r {
      JumpIs(r, y, h);
      PlacedPart(r, y, h, n - 2);
      JumpsFromOwn(r, h, n - 2);
      JumpAt(r, h, 0, n - 3);
      JumpLeftUp(r, h, n - 3, 2);
    } else {
      LeftUpFrom(r, h, n - 3, 2);
      LeftMovesUp(r, y, h, n - 3, 2);
    }
  }

  lemma PlacedPart(r: nat, y: nat, h: seq<HeapItem>, last: nat)
    requires InOrder(r, y, h, last)
    ensures Placed(r, h, last)
  {
  }

  lemma LeftUpFrom(r: nat, h: seq<HeapItem>, last: nat, j: nat)
    requires LeftUp(r, h, last, j, 0)
    ensures LeftUp(r, h, last, j, 1)
  {
  }

  lemma JumpLeftUp(r: nat, h: seq<HeapItem>, last: nat, j: nat)
    requires LeftUp(r, h, last, j, 0) && j > 0 && |h| == last + 1 > 1
    ensures LeftUp(r, Rest(h), last, j, 1)
  {
    hide Left;
    forall i: nat | i >= 1 && Left(i + j) <= last ensures At(r, Rest(h), Left(i), Left(i + j)) {
      assert At(r, h, Left(i), Left(i + j));
      LeftMonotone(i + 1, i + j);
      LeftGrows(i);
      LeftMonotone(1, i);
      LeftOne();
      JumpAt(r, h, Left(i), Left(i + j));
    }
  }

  lemma LeftOne()
    ensures Left(1) == 1
  {
    assert Left(0) == 0;
  }

  lemma StrandedAt(n: nat, k: nat)
    requires n >= 8 && k < n - 3
    ensures Stranded(n)[k] == if k == 0 || k == 2 || k == n - 4 then 2 else 1
    ensures Sum(Stranded(n), k) == if k == 0 then 0 else if k == 1 then 2 else if k == 2 then 3 else k + 2
    ensures Sum(Stranded(n), n - 3) == n && Row(Stranded(n), 3)
  {
    var w := Stranded(n);
    FirstSums(w);
    if k >= 3 { RowSum(w, 3, k); }
    RowSum(w, 3, n - 4);
    NextSum(w, n - 4);
  }

  lemma StrandedMerged(r: nat, y: nat, n: nat, h: seq<HeapItem>)
    requires n >= 8 && InOrder(r, y, h, n - 2)
    requires forall s: nat :: Has(r, h, s) <==> 2 <= s <= n - 3 && s != 3
    requires Has(y, h, 0) && Has(y, h, 2) && Has(y, h, 3) && Has(y, h, n - 3)
    ensures Merged(r, y, n, Stranded(n), h)
  {
    hide InOrder, Has, Stranded, Sum, Row;
    var w := Stranded(n);
    forall i | 0 <= i < |w| ensures w[i] == 1 || w[i] == 2 { StrandedAt(n, i); }
    StrandedAt(n, 0);
    StrandedAt(n, 1);
    StrandedAt(n, 2);
    StrandedAt(n, n - 4);
    forall i: nat | Free(w, i) ensures Has(r, h, Sum(w, i)) {
      StrandedAt(n, i);
      StrandedAt(n, i + 1);
    }
    forall i | 0 < i && i + 1 < |w| ensures w[i] == 1 || Sum(w, i) % 2 == 1 { StrandedAt(n, i); }
    forall i | 0 <= i && i + 1 < |w| && w[i] + w[i + 1] > 2 ensures TraceAt(y, w, h, i) {
      StrandedAt(n, i);
      StrandedAt(n, i + 1);
    }
  }

  lemma FourthInOrder(r: nat, y: nat, n: nat)
    requires r < y && n >= 8
    ensures var h := AfterThird(r, y, n);
            && Merged(r, y, n, Stranded(n), h) && ThirdState(r, h, n) && LeftGoneTo(r, h, 3) && !Has(r, h, n - 2)
            && |h| >= 4 && h[|h| - 1].priority == y && h[|h| - 2].priority == y
  {
    hide InOrder, Popped, IsHeap, Once, Left, LeftUp, AfterSecond, Merged, Stranded, NewItems;
    ThirdInOrder(r, y, n);
    var h := Popped(false, AfterSecond(r, y, n));
    var p, a, c := Popped(false, h), HeapItem(y, 3), HeapItem(y, 2);
    InOrderParts(r, y, h, n - 2);
    FourthPop(r, y, n, h);
    PopHigher(r, y, h, HeapItem(y, 0));
    PopHigher(r, y, h, HeapItem(y, n - 3));
    ThirdItems(y, n);
    PushKeeps(r, y, p, a, n - 2);
    PushKeeps(r, y, p + [a], c, n - 2);
    var g := (p + [a]) + [c];
    assert AfterThird(r, y, n) == g;
    forall q: nat, s: nat ensures At(r, g, q, s) <==> At(r, p, q, s) {
      PushAt(r, p, a, q, s);
      PushAt(r, p + [a], c, q, s);
    }
    forall s: nat ensures Has(r, g, s) <==> Has(r, p, s) {
      PushAt(r, p, a, 0, s);
      PushAt(r, p + [a], c, 0, s);
    }
    StrandedMerged(r, y, n, g);
    ThirdStateLike(r, p, g, n);
    EdgeTop3();
  }

  lemma EdgeTop3()
    ensures Left(0) == 0 && Left(1) == 1 && Left(2) == 3
  {
  }

  lemma ThirdStateLike(r: nat, p: seq<HeapItem>, g: seq<HeapItem>, n: nat)
    requires n >= 7 && ThirdState(r, p, n) && forall q: nat, s: nat :: At(r, g, q, s) <==> At(r, p, q, s)
    ensures ThirdState(r, g, n)
  {
    hide At, Left;
  }

  lemma StrandedFree(n: nat)
    requires n >= 9
    ensures Free(Stranded(n), 3)
  {
    StrandedAt(n, 3);
    StrandedAt(n, 4);
  }

  lemma ThirdDrop(r: nat, y: nat, n: nat, h: seq<HeapItem>)
    requires n >= 9 && Merged(r, y, n, Stranded(n), h) && At(r, h, 0, n - 3) && LeftUp(r, h, n - 3, 2, 1)
    requires LeftGoneTo(r, h, 3) && !Has(r, h, n - 2)
    requires |h| >= 4 && h[|h| - 1].priority == y && h[|h| - 2].priority == y
    ensures OnEdge(r, y, n, Stranded(n), Popped(false, h), 3, 3)
    ensures forall k: nat :: Free(Stranded(n), k) ==> Sum(Stranded(n), k) != n - 3
  {
    hide InOrder, Popped, IsHeap, Once, Left, LeftUp, Stranded, PairsPending, Traces, EvenRuns, Sum, Small, Bounded,
         Row;
    StrandedFree(n);
    EdgeStale(Stranded(n), n);
    InOrderParts(r, y, h, n - 2);
    HigherEndNoWrap(r, y, h);
    DropTurn(r, y, n, Stranded(n), h, 3);
    LeftMovesUp(r, y, h, n - 3, 2);
    EndStaysHigher(r, y, h);
    forall i: nat | i < 3 ensures !Has(r, Popped(false, h), Left(i)) { PopHas(r, y, h, Left(i)); }
    PopHas(r, y, h, n - 2);
    StrandedAt(n, 3);
    EdgeTop3();
  }

  /** From the third merge on the left edge is all that comes up, after one jump at most. */
  lemma ToEdge(v: Vocab, b: byte, x: nat, r: nat, y: nat, n: nat) returns (h: seq<HeapItem>)
    requires Solid(v) && Triples(v, b, x, r, y) && r < y && n >= 9
    ensures OnEdge(r, y, n, Stranded(n), h, 3, 3) && Tokens(v, Toks(x, r, y, Stranded(n)))
    ensures Run(v, false, Toks(x, r, y, Stranded(n)), AfterThird(r, y, n)) ==
            Run(v, false, Toks(x, r, y, Stranded(n)), h)
  {
    hide Solid, Triples, Run, Toks, Tokens, AfterThird, Stranded, Popped, Left, LeftUp, LeftGoneTo, Sum, Row, InOrder,
         PairsPending, Traces, EvenRuns, Small, Bounded, Widths, UpTo;
    FourthInOrder(r, y, n);
    h := AfterThird(r, y, n);
    SmallWidths(r, y, n, Stranded(n), h);
    ToksTokens(v, b, x, r, y, Stranded(n));
    if LeftUp(r, h, n - 3, 3, 0) {
      StrandedAt(n, 3);
      EdgeTop3();
    } else {
      ThirdDrop(r, y, n, h);
      NotFree(Stranded(n), n - 3);
      StaleOf(v, b, x, r, y, Stranded(n), 2, n - 3, h);
      h := Popped(false, h);
    }
  }

  /** What is left when no two single bytes are neighbours. */
  ghost predicate AllPaired(n: nat, w: seq<nat>) {
    Small(w) && Sum(w, |w|) == n && Bounded(w) && EvenRuns(w) && Quiet(w)
  }

  lemma ShortSettled(n: nat)
    requires n == 7 || n == 8
    ensures AllPaired(n, Stranded(n))
  {
    var w := Stranded(n);
    FirstSums(w);
    NextSum(w, 3);
    if n == 8 { NextSum(w, 4); }
  }

  /** Every text of more than six copies comes to such a state. */
  lemma CopiesSettle(v: Vocab, b: byte, x: nat, r: nat, y: nat, n: nat) returns (w: seq<nat>, h: seq<HeapItem>)
    requires WellFormed(v) && Triples(v, b, x, r, y) && n >= 7
    ensures Covers(v, Copies(b, n)) && AllPaired(n, w) && Tokens(v, Toks(x, r, y, w))
    ensures HeapEncoding(v, false, Copies(b, n)) == Run(v, false, Toks(x, r, y, w), h)
  {
    hide WellFormed, Solid, Triples, Covers, HeapEncoding, Run, Toks, Tokens, UpTo, AfterFirst, AfterSecond, AfterThird,
         OnePair, TwoPairs, Stranded, Sum, Small, Bounded, EvenRuns, Quiet, LeftGone, OnEdge, InOrder, PairsPending,
         Traces;
    CopiesStart(v, b, x, r, y, n);
    TriplesArePairs(v, b, x, r, y);
    SecondTurn(v, b, x, r, y, n);
    ThirdTurns(v, b, x, r, y, n);
    w, h := Stranded(n), AfterThird(r, y, n);
    if n <= 8 {
      ShortSettled(n);
    } else {
      h := ToEdge(v, b, x, r, y, n);
      w, h := AlongEdge(v, b, x, r, y, n, w, h, 3, 3);
      if !Quiet(w) {
        w, h := UntilQuiet(v, b, x, r, y, n, w, h);
      }
    }
  }

  // ---- What is left then -----------------------------------------------------------------------------

  function Twos(n: nat): (w: seq<nat>)
    ensures |w| == n
  {
    Copies(2, n)
  }

  /** Behind an even place other than the first there are pairs only. */
  lemma {:induction false} PairsFrom(w: seq<nat>, i: nat, k: nat)
    requires EvenRuns(w) && 0 < i <= k < |w| && w[i] == 2 && Sum(w, i) % 2 == 0
    ensures w[k] == 2 && Sum(w, k) % 2 == 0
    decreases k
  {
    if i < k {
      PairsFrom(w, i, k - 1);
      NextSum(w, k - 1);
    }
  }

  lemma {:induction false} OddPairs(w: seq<nat>, t: nat)
    requires Bounded(w) && 2 <= t <= |w| && forall k :: 2 <= k < t ==> w[k] == 2
    ensures Sum(w, t) == 2 * t - 1
    decreases t
  {
    FirstSums(w);
    if t > 2 { OddPairs(w, t - 1); }
  }

  lemma SecondSingle(n: nat, w: seq<nat>, t: nat)
    requires AllPaired(n, w) && 2 <= t < |w| && w[t] == 1 && Sum(w, t) == 2 * t - 1
    ensures t + 1 < |w| && n % 2 == 0 && forall k :: t < k < |w| ==> w[k] == 2
  {
    hide Sum;
    assert !Free(w, t);
    NextSum(w, t);
    forall k | t < k < |w| ensures w[k] == 2 { PairsFrom(w, t + 1, k); }
    PairsFrom(w, t + 1, |w| - 1);
    NextSum(w, |w| - 1);
  }

  /** The third byte is single, and at most one more is: the text is even then. */
  lemma PairedForm(n: nat, w: seq<nat>) returns (a: nat, c: nat)
    requires AllPaired(n, w)
    ensures a >= 1 && w == if n % 2 == 1 then [2, 1] + Twos(a) else [2, 1] + Twos(a) + [1] + Twos(c)
    ensures n % 2 == 0 ==> c >= 1
  {
    var t := 2;
    while t < |w| && w[t] == 2
      invariant 2 <= t <= |w| && forall k :: 2 <= k < t ==> w[k] == 2
    {
      t := t + 1;
    }
    hide Sum, EvenRuns, Quiet;
    OddPairs(w, t);
    a, c := t - 2, 0;
    if t < |w| {
      c := |w| - t - 1;
      SecondSingle(n, w, t);
      assert w == [2, 1] + Twos(a) + [1] + Twos(c);
    } else {
      assert w == [2, 1] + Twos(a);
    }
  }

  // ---- How the last merges group it ---------------------------------------------------------------------

  /** u comes from w by joining single bytes with a pair next to them. */
  ghost predicate Groups(u: seq<nat>, w: seq<nat>)
    decreases |u|
  {
    if u == [] then w == []
    else
      || (w != [] && u[0] == w[0] && Groups(u[1..], w[1..]))
      || (|w| > 1 && u[0] == w[0] + w[1] == 3 && Groups(u[1..], w[2..]))
  }

  /** Every border of u is one of w. */
  ghost predicate SubBorders(u: seq<nat>, w: seq<nat>) {
    forall j: nat :: j <= |u| ==> IsBorder(w, Sum(u, j))
  }

  ghost predicate IsBorder(w: seq<nat>, p: nat) {
    exists i: nat :: i <= |w| && Sum(w, i) == p
  }

  lemma {:induction false} BordersGroup(u: seq<nat>, w: seq<nat>, j: nat, i: nat)
    requires Widths(u) && Small(w) && Quiet(w) && SubBorders(u, w) && Sum(u, |u|) == Sum(w, |w|)
    requires j <= |u| && i <= |w| && Sum(u, j) == Sum(w, i)
    ensures Groups(u[j..], w[i..])
    decreases |u| - j
  {
    hide Sum, Quiet;
    if j == |u| {
      SumSame(w, i, |w|);
    } else {
      NextSum(u, j);
      assert IsBorder(w, Sum(u, j + 1));
      var k: nat :| k <= |w| && Sum(w, k) == Sum(u, j + 1);
      NextBorder(w, i, k);
      BordersGroup(u, w, j + 1, k);
      assert u[j..][1..] == u[j + 1..] && w[i..][k - i..] == w[k..];
    }
  }

  lemma NextBorder(w: seq<nat>, i: nat, k: nat)
    requires Small(w) && Quiet(w) && i <= |w| && k <= |w| && Sum(w, i) < Sum(w, k) <= Sum(w, i) + 3
    ensures k == i + 1 || (k == i + 2 && w[i] + w[i + 1] == 3)
    ensures Sum(w, k) - Sum(w, i) == if k == i + 1 then w[i] else w[i] + w[i + 1]
  {
    hide Sum;
    if k <= i {
      if k < i { SumOrder(w, k, i); }
      assert false;
    } else {
      NextSum(w, i);
      if k >= i + 2 {
        NextSum(w, i + 1);
        assert !Free(w, i);
        if k >= i + 3 {
          NextSum(w, i + 2);
          assert !Free(w, i + 1);
          if k > i + 3 { SumOrder(w, i + 3, k); }
          assert false;
        }
      }
    }
  }

  ghost predicate AllFar(u: seq<nat>) {
    forall i, k :: 0 <= i && k == i + 1 < |u| ==> u[i] + u[k] > 3
  }

  lemma FarRest(u: seq<nat>)
    requires AllFar(u) && u != []
    ensures AllFar(u[1..])
  {
    forall i, k | 0 <= i && k == i + 1 < |u[1..]| ensures u[1..][i] + u[1..][k] > 3 {
      assert u[i + 1] + u[k + 1] > 3;
    }
  }

  lemma {:induction false} PairsGroup(u: seq<nat>, n: nat)
    requires Groups(u, Twos(n))
    ensures u == Twos(n)
    decreases n
  {
    if n > 0 {
      assert Twos(n)[1..] == Twos(n - 1);
      PairsGroup(u[1..], n - 1);
    }
  }

  lemma SingleGroup(u: seq<nat>, n: nat)
    requires Groups(u, [1] + Twos(n)) && AllFar(u) && n >= 1
    ensures u == [3] + Twos(n - 1)
  {
    var w := [1] + Twos(n);
    assert w[1..] == Twos(n) && w[2..] == Twos(n - 1);
    if Groups(u[1..], Twos(n)) {
      TwoFirst(u[1..], n);
      assert u[0] + u[1] > 3;
    }
    PairsGroup(u[1..], n - 1);
  }

  lemma TwoFirst(u: seq<nat>, n: nat)
    requires Groups(u, Twos(n)) && n >= 1
    ensures u != [] && u[0] == 2
  {
  }

  /** One triple among pairs. */
  ghost predicate OneTriple(u: seq<nat>) {
    exists c: nat, d: nat :: u == Twos(c) + [3] + Twos(d)
  }

  lemma TripleBehind(u: seq<nat>)
    requires u != [] && u[0] == 2 && OneTriple(u[1..])
    ensures OneTriple(u)
  {
    var c: nat, d: nat :| u[1..] == Twos(c) + [3] + Twos(d);
    assert u == [2] + u[1..];
    assert [2] + Twos(c) == Twos(c + 1);
    assert u == Twos(c + 1) + [3] + Twos(d);
  }

  lemma TripleAhead(u: seq<nat>, d: nat)
    requires u == [3] + Twos(d)
    ensures OneTriple(u)
  {
    assert u == Twos(0) + [3] + Twos(d);
  }

  lemma {:induction false} MiddleGroup(u: seq<nat>, a: nat, c: nat)
    requires Groups(u, Twos(a) + [1] + Twos(c)) && AllFar(u) && c >= 1
    ensures OneTriple(u)
    decreases a
  {
    var w := Twos(a) + [1] + Twos(c);
    if a == 0 {
      assert w == [1] + Twos(c);
      SingleGroup(u, c);
      TripleAhead(u, c - 1);
    } else {
      FarRest(u);
      assert w[1..] == Twos(a - 1) + [1] + Twos(c);
      if u[0] == 2 {
        MiddleGroup(u[1..], a - 1, c);
        TripleBehind(u);
      } else {
        assert a == 1 && w[2..] == Twos(c);
        PairsGroup(u[1..], c);
        TripleAhead(u, c);
      }
    }
  }

  /** At the front the single byte joins the pair in front of it or the one behind it. */
  lemma FrontGroup(u: seq<nat>, rest: seq<nat>)
    requires Groups(u, [2, 1] + rest) && AllFar(u) && rest != [] && rest[0] == 2
    ensures (u != [] && u[0] == 3 && Groups(u[1..], rest) && AllFar(u[1..]))
         || (|u| > 1 && u[0] == 2 && u[1] == 3 && Groups(u[2..], rest[1..]) && AllFar(u[2..]))
  {
    var w := [2, 1] + rest;
    assert w[1..] == [1] + rest && w[2..] == rest && ([1] + rest)[1..] == rest && ([1] + rest)[2..] == rest[1..];
    FarRest(u);
    if u[0] == 2 {
      assert u[0] + u[1] > 3;
      FarRest(u[1..]);
      assert u[1..][1..] == u[2..];
    }
  }

  // ---- What the copies become -----------------------------------------------------------------------

  /** A triple in the first or, behind a pair, in the second place; then pairs, and for an even number of bytes one more
      triple among them. */
  ghost predicate TriplesAmongPairs(n: nat, u: seq<nat>) {
    exists k: nat :: FrontAt(u, k) && if n % 2 == 1 then u[k..] == Twos(|u| - k) else OneTriple(u[k..])
  }

  /** The first triple and what lies in front of it are k tokens. */
  predicate FrontAt(u: seq<nat>, k: nat) {
    (k == 1 <= |u| && u[0] == 3) || (k == 2 <= |u| && u[0] == 2 && u[1] == 3)
  }

  lemma GroupedForm(n: nat, u: seq<nat>, a: nat, c: nat)
    requires AllFar(u) && a >= 1 && (n % 2 == 0 ==> c >= 1)
    requires Groups(u, if n % 2 == 1 then [2, 1] + Twos(a) else [2, 1] + Twos(a) + [1] + Twos(c))
    ensures TriplesAmongPairs(n, u)
  {
    var rest := if n % 2 == 1 then Twos(a) else Twos(a) + [1] + Twos(c);
    assert (if n % 2 == 1 then [2, 1] + Twos(a) else [2, 1] + Twos(a) + [1] + Twos(c)) == [2, 1] + rest;
    FrontGroup(u, rest);
    if u[0] == 3 {
      if n % 2 == 1 { PairsGroup(u[1..], a); } else { MiddleGroup(u[1..], a, c); }
      assert FrontAt(u, 1);
    } else {
      assert rest[1..] == if n % 2 == 1 then Twos(a - 1) else Twos(a - 1) + [1] + Twos(c);
      if n % 2 == 1 { PairsGroup(u[2..], a - 1); } else { MiddleGroup(u[2..], a - 1, c); }
      assert FrontAt(u, 2);
    }
  }

  /** A place between two segments that was no border is none at the end of the run. */
  lemma EndBorder(v: Vocab, b: byte, x: nat, r: nat, y: nat, w: seq<nat>, h: seq<HeapItem>, u: seq<nat>, j: nat)
    requires Triples(v, b, x, r, y) && Widths(w) && Widths(u) && j <= |u|
    requires Tokens(v, Toks(x, r, y, w)) && Run(v, false, Toks(x, r, y, w), h) == Toks(x, r, y, u)
    ensures IsBorder(w, Sum(u, j))
  {
    hide Triples, Run, Toks, Tokens, Sum, Offset, Widths;
    var p := Sum(u, j);
    ToksOffset(v, b, x, r, y, u, j);
    if !IsBorder(w, p) {
      forall i | 0 <= i <= |w| ensures Offset(v, Toks(x, r, y, w), i) != p {
        ToksOffset(v, b, x, r, y, w, i);
        assert Sum(w, i) != p;
      }
      StaysGone(v, Toks(x, r, y, w), h, p);
      NoBorderAt(v, Toks(x, r, y, u), p, j);
      assert false;
    }
  }

  /** In C's order more than six copies become pairs and one triple, or two if their number is even; a triple comes
      first, or second behind a pair. */
  lemma ManyCopies(v: Vocab, b: byte, x: nat, r: nat, y: nat, n: nat)
    requires WellFormed(v) && Triples(v, b, x, r, y) && n >= 7
    ensures Covers(v, Copies(b, n))
    ensures exists u: seq<nat> ::
              && Widths(u) && Sum(u, |u|) == n && TriplesAmongPairs(n, u)
              && HeapEncoding(v, false, Copies(b, n)) == Toks(x, r, y, u)
  {
    hide WellFormed, Solid, Triples, Covers, HeapEncoding, Run, Toks, Tokens, NoJoin, Decode, Reaches, Singles, Sum,
         Widths, Small, Quiet, Bounded, EvenRuns, TriplesAmongPairs, Groups, IsBorder, Far;
    TriplesArePairs(v, b, x, r, y);
    var w, h := CopiesSettle(v, b, x, r, y, n);
    var t := Copies(b, n);
    HeapJoinsLowest(v, false, t);
    var u := CopyWidths(v, b, x, r, y, n, HeapEncoding(v, false, t));
    SmallAreWidths(w);
    forall j: nat | j <= |u| ensures IsBorder(w, Sum(u, j)) {
      EndBorder(v, b, x, r, y, w, h, u, j);
    }
    forall i | 0 <= i && i + 1 < |u| ensures Far(u, i) {
      SettledFar(v, b, x, r, y, u, i);
    }
    FarAll(u);
    SumZero(u, w);
    BordersGroup(u, w, 0, 0);
    assert u[0..] == u && w[0..] == w;
    var a, c := PairedForm(n, w);
    GroupedForm(n, u, a, c);
  }

  lemma SumZero(u: seq<nat>, w: seq<nat>)
    ensures Sum(u, 0) == Sum(w, 0)
  {
  }

  lemma SmallAreWidths(w: seq<nat>)
    requires Small(w)
    ensures Widths(w)
  {
  }

  lemma FarAll(u: seq<nat>)
    requires forall i :: 0 <= i && i + 1 < |u| ==> Far(u, i)
    ensures AllFar(u)
  {
    forall i, k | 0 <= i && k == i + 1 < |u| ensures u[i] + u[k] > 3 {
      assert Far(u, i);
    }
  }

  lemma ManyNoChain(v: Vocab, b: byte, x: nat, r: nat, y: nat, n: nat, u: seq<nat>)
    requires WellFormed(v) && Triples(v, b, x, r, y) && Widths(u) && Sum(u, |u|) == n >= 7 && TriplesAmongPairs(n, u)
    ensures !IsChain(v, Toks(x, r, y, u))
  {
    hide WellFormed, Triples, OneTriple, ValidPair, Sum, Toks, Widths;
    var k: nat :| FrontAt(u, k) && if n % 2 == 1 then u[k..] == Twos(|u| - k) else OneTriple(u[k..]);
    MoreBehind(n, u, k);
    TokensAt(x, r, y, u, k);
    BehindTriple(v, b, x, r, y, Toks(x, r, y, u)[k]);
    BadPair(v, Toks(x, r, y, u), k - 1);
  }

  lemma MoreBehind(n: nat, u: seq<nat>, k: nat)
    requires FrontAt(u, k) && Sum(u, |u|) == n >= 7
    ensures k < |u|
  {
    hide Sum;
    SumNothing(u);
    NextSum(u, 0);
    if k == 2 { NextSum(u, 1); }
  }

  lemma TokensAt(x: nat, r: nat, y: nat, u: seq<nat>, k: nat)
    requires FrontAt(u, k) && k < |u|
    ensures Toks(x, r, y, u)[k - 1] == y && Toks(x, r, y, u)[k] in [x, r, y]
  {
  }

  lemma BadPair(v: Vocab, s: seq<nat>, i: nat)
    requires i + 1 < |s| && !ValidPair(v, s[i], s[i + 1])
    ensures !IsChain(v, s)
  {
    hide ValidPair;
  }

  lemma SumNothing(u: seq<nat>)
    ensures Sum(u, 0) == 0
  {
  }

  /** In C's order n copies of a byte come out right exactly if they are at most six. */
  lemma CopiesWithTriple(v: Vocab, b: byte, x: nat, r: nat, y: nat, n: nat)
    requires WellFormed(v) && Triples(v, b, x, r, y)
    ensures Covers(v, Copies(b, n))
    ensures HeapEncoding(v, false, Copies(b, n)) == Bpe(v, Copies(b, n)) <==> n <= 6
  {
    hide WellFormed, Triples, Covers, HeapEncoding, Toks, IsChain, Bpe, TriplesAmongPairs, FewWidths, Sum;
    if n <= 6 {
      FewCopies(v, b, x, r, y, n);
      FewChain(v, b, x, r, y, n);
    } else {
      ManyCopies(v, b, x, r, y, n);
      var u: seq<nat> :|
        && Widths(u) && Sum(u, |u|) == n && TriplesAmongPairs(n, u)
        && HeapEncoding(v, false, Copies(b, n)) == Toks(x, r, y, u);
      ManyNoChain(v, b, x, r, y, n, u);
    }
    HeapIsBpeIffChain(v, false, Copies(b, n));
  }
}
