/** Where equal items lie in a heap that is popped again and again. */
module LeftFirst {

  // A heap with items of two priorities, the lower ones first all of one priority and each at the index it carries as
  // its start.  They leave from left to right: an item sinks past left children first, and only a lower item at the
  // very end of the heap can jump the queue.

  import opened Heaps

  function Parent(i: nat): nat
    requires i > 0
  {
    (i - 1) / 2
  }

  function Level(i: nat): nat {
    if i == 0 then 0 else Level(Parent(i)) + 1
  }

  /** a lies on the way from the top to c, or is c. */
  predicate Above(a: nat, c: nat)
    decreases c
  {
    a == c || (a < c && Above(a, Parent(c)))
  }

  lemma {:induction false} AboveTop(c: nat)
    ensures Above(0, c)
    decreases c
  {
    if c > 0 { AboveTop(Parent(c)); }
  }

  lemma {:induction false} AboveLess(a: nat, c: nat)
    requires Above(a, c) && a < c
    ensures 2 * a + 1 <= c
    decreases c
  {
    if a < Parent(c) { AboveLess(a, Parent(c)); }
  }

  lemma {:induction false} ParentAbove(a: nat, c: nat)
    requires a > 0 && Above(a, c)
    ensures Above(Parent(a), c) && Parent(a) < c
    decreases c
  {
    if a == c {
      assert Above(Parent(c), Parent(c));
    } else {
      ParentAbove(a, Parent(c));
    }
  }

  lemma ParentsAbove(a: nat, c: nat)
    requires 0 < a < c && Above(a, c)
    ensures Above(Parent(a), Parent(c)) && Parent(a) < Parent(c)
  {
    AboveLess(a, c);
    ParentAbove(a, Parent(c));
  }

  // ---- The invariant --------------------------------------------------------------------------

  /** The lower item for index s is in the heap. */
  predicate Has(r: nat, h: seq<HeapItem>, s: nat) {
    HeapItem(r, s) in h
  }

  predicate At(r: nat, h: seq<HeapItem>, p: nat, s: nat) {
    p < |h| && h[p] == HeapItem(r, s)
  }

  predicate Own(r: nat, h: seq<HeapItem>, s: nat) {
    At(r, h, s, s)
  }

  ghost predicate TwoKinds(r: nat, y: nat, h: seq<HeapItem>) {
    r < y && forall p :: 0 <= p < |h| ==> h[p].priority == r || h[p].priority == y
  }

  ghost predicate Once(r: nat, h: seq<HeapItem>) {
    forall p: nat, q: nat, s: nat :: At(r, h, p, s) && At(r, h, q, s) ==> p == q
  }

  /** Lower items lie at their own index or above it, and there are last + 1 of these at most. */
  ghost predicate Placed(r: nat, h: seq<HeapItem>, last: nat) {
    forall p: nat, s: nat :: At(r, h, p, s) ==> Above(p, s) && s <= last
  }

  /** The item of an even index stays there as long as both its neighbours are in the heap, or lies below the one of the
      index before. */
  ghost predicate EvenWaits(r: nat, h: seq<HeapItem>) {
    forall s: nat, p: nat ::
      s > 0 && s % 2 == 0 && At(r, h, p, s) && Has(r, h, s - 1) && Has(r, h, s + 1) ==>
        p == s || Below(r, h, p, s - 1)
  }

  ghost predicate Below(r: nat, h: seq<HeapItem>, p: nat, s: nat) {
    exists a: nat :: At(r, h, a, s) && a < p && Above(a, p)
  }

  /** On every level the items that are still in place lie to the right of those that left by rising. */
  ghost predicate RightStays(r: nat, h: seq<HeapItem>) {
    forall j: nat :: Own(r, h, j) && Level(j) == Level(j + 1) && Has(r, h, j + 1) ==>
                       Own(r, h, j + 1) || At(r, h, 0, j + 1)
  }

  ghost predicate InOrder(r: nat, y: nat, h: seq<HeapItem>, last: nat) {
    && TwoKinds(r, y, h) && IsHeap(false, h) && Once(r, h) && Placed(r, h, last)
    && EvenWaits(r, h) && RightStays(r, h)
  }

  /** The item that would jump is not the last of its level, with the first of the next level still in the heap. */
  ghost predicate NoWrap(r: nat, h: seq<HeapItem>) {
    h != [] && var s := |h| - 1;
    Own(r, h, s) && Level(s) != Level(s + 1) && Has(r, h, s + 1) ==> At(r, h, 0, s + 1)
  }

  lemma HasAt(r: nat, h: seq<HeapItem>, s: nat) returns (p: nat)
    requires Has(r, h, s)
    ensures At(r, h, p, s)
  {
    p :| p < |h| && h[p] == HeapItem(r, s);
  }

  // ---- A lower item at the end ------------------------------------------------------------------

  /** The last item of the heap takes the place of the first and stays. */
  lemma JumpIs(r: nat, y: nat, h: seq<HeapItem>)
    requires TwoKinds(r, y, h) && |h| > 1 && h[0].priority == r && h[|h| - 1].priority == r
    ensures Popped(false, h) == Rest(h)
  {
  }

  lemma JumpAt(r: nat, h: seq<HeapItem>, p: nat, s: nat)
    requires |h| > 1
    ensures At(r, Rest(h), p, s) <==>
            if p == 0 then At(r, h, |h| - 1, s) else p < |h| - 1 && At(r, h, p, s)
  {
  }

  lemma JumpHas(r: nat, h: seq<HeapItem>, s: nat)
    requires |h| > 1 && Has(r, Rest(h), s)
    ensures exists p: nat :: 0 < p && At(r, h, p, s)
  {
    var p := HasAt(r, Rest(h), s);
    JumpAt(r, h, p, s);
    assert At(r, h, if p == 0 then |h| - 1 else p, s);
  }

  /** It is at its own index, as nothing lies below it. */
  lemma JumpsFromOwn(r: nat, h: seq<HeapItem>, last: nat)
    requires Placed(r, h, last) && h != [] && h[|h| - 1].priority == r && last <= 2 * (|h| - 1)
    ensures Own(r, h, |h| - 1)
  {
    var p, s := |h| - 1, h[|h| - 1].start;
    assert At(r, h, p, s);
    if p < s { AboveLess(p, s); }
  }

  lemma JumpPlaced(r: nat, h: seq<HeapItem>, last: nat)
    requires Placed(r, h, last) && |h| > 1
    ensures Placed(r, Rest(h), last)
  {
    forall p: nat, s: nat | At(r, Rest(h), p, s) ensures Above(p, s) && s <= last {
      JumpAt(r, h, p, s);
      AboveTop(s);
    }
  }

  lemma JumpOnce(r: nat, h: seq<HeapItem>)
    requires Once(r, h) && |h| > 1
    ensures Once(r, Rest(h))
  {
    forall p: nat, q: nat, s: nat | At(r, Rest(h), p, s) && At(r, Rest(h), q, s) ensures p == q {
      JumpAt(r, h, p, s);
      JumpAt(r, h, q, s);
    }
  }

  lemma JumpEvenWaits(r: nat, h: seq<HeapItem>)
    requires Once(r, h) && EvenWaits(r, h) && RightStays(r, h) && NoWrap(r, h) && |h| > 1 && Own(r, h, |h| - 1)
    ensures EvenWaits(r, Rest(h))
  {
    var last := |h| - 1;
    assert !Own(r, h, last + 1);
    forall s: nat, p: nat
      | s > 0 && s % 2 == 0 && At(r, Rest(h), p, s) && Has(r, Rest(h), s - 1) && Has(r, Rest(h), s + 1)
      ensures p == s || Below(r, Rest(h), p, s - 1)
    {
      JumpAt(r, h, p, s);
      JumpHas(r, h, s - 1);
      JumpHas(r, h, s + 1);
      var a: nat :| 0 < a && At(r, h, a, s - 1);
      var c: nat :| 0 < c && At(r, h, c, s + 1);
      assert !At(r, h, 0, s + 1);
      assert Has(r, h, s - 1) && Has(r, h, s + 1);
      assert p == 0 ==> s == last;
      assert p != 0;
      if p != s {
        assert Below(r, h, p, s - 1);
        assert a < p && Above(a, p);
        JumpAt(r, h, a, s - 1);
      }
    }
  }

  lemma JumpRightStays(r: nat, h: seq<HeapItem>)
    requires Once(r, h) && RightStays(r, h) && |h| > 1
    ensures RightStays(r, Rest(h))
  {
    forall j: nat | Own(r, Rest(h), j) && Level(j) == Level(j + 1) && Has(r, Rest(h), j + 1)
      ensures Own(r, Rest(h), j + 1) || At(r, Rest(h), 0, j + 1)
    {
      assert Level(0) == 0 && Level(1) == 1;
      JumpAt(r, h, j, j);
      JumpHas(r, h, j + 1);
      var c: nat :| 0 < c && At(r, h, c, j + 1);
      assert !At(r, h, 0, j + 1) && Has(r, h, j + 1);
      JumpAt(r, h, j + 1, j + 1);
      JumpAt(r, h, 0, j + 1);
    }
  }

  // ---- A higher item at the end ------------------------------------------------------------------

  /** The way an item sinks: from the top through lower items, to the left child wherever that is one. */
  ghost predicate Way(r: nat, h: seq<HeapItem>, path: seq<nat>) {
    && path != [] && path[0] == 0
    && forall j, k :: 0 <= j && k == j + 1 < |path| ==>
         && IsChild(path[j], path[k]) && path[k] < |h| && h[path[k]].priority == r
         && (path[k] == 2 * path[j] + 2 ==> h[2 * path[j] + 1].priority != r)
  }

  /** It ends where no child is a lower item. */
  ghost predicate EndsAt(r: nat, h: seq<HeapItem>, p: nat) {
    forall c: nat :: IsChild(p, c) && c < |h| ==> h[c].priority != r
  }

  lemma KindsEnd(r: nat, y: nat, h: seq<HeapItem>, p: nat)
    requires TwoKinds(r, y, h) && |h| > 1 && h[|h| - 1].priority == y
    requires StopsDown(false, Rest(h), h[|h| - 1], p)
    ensures EndsAt(r, Rest(h), p)
  {
    forall c: nat | IsChild(p, c) && c < |Rest(h)| ensures Rest(h)[c].priority != r {
      assert NotAfter(false, h[|h| - 1], Rest(h)[c]);
    }
  }

  lemma WayIs(r: nat, y: nat, h: seq<HeapItem>) returns (path: seq<nat>)
    requires TwoKinds(r, y, h) && |h| > 1 && h[|h| - 1].priority == y
    ensures Way(r, Rest(h), path) && forall j :: 0 <= j < |path| ==> path[j] < |h| - 1
    ensures Shifted(Rest(h), h[|h| - 1], path, Popped(false, h))
    ensures EndsAt(r, Rest(h), path[|path| - 1])
  {
    path := SiftDownPath(false, Rest(h), 0);
    KindsEnd(r, y, h, path[|path| - 1]);
    hide TwoKinds, StopsDown, EndsAt, SiftDown;
    forall j, k | 0 <= j && k == j + 1 < |path|
      ensures IsChild(path[j], path[k]) && path[k] < |Rest(h)| && Rest(h)[path[k]].priority == r
      ensures path[k] == 2 * path[j] + 2 ==> Rest(h)[2 * path[j] + 1].priority != r
    {
      assert Leads(false, Rest(h), path[j], path[k]) && Before(false, Rest(h)[path[k]], h[|h| - 1]);
      assert IsChild(path[j], 2 * path[j] + 1);
    }
  }

  /** Nothing lower is left beside the way, on its left. */
  lemma {:induction false} LeftOfWay(r: nat, y: nat, h: seq<HeapItem>, path: seq<nat>, k: nat, d: nat)
    requires Way(r, h, path) && 0 < k < |path| && d < path[k] && Level(d) == Level(path[k])
    requires forall p :: 0 < p < |h| && h[p].priority == r ==> p < 3 || h[Parent(p)].priority == r
    ensures d < |h| ==> h[d].priority != r
    decreases k
  {
    var j := k - 1;
    assert IsChild(path[j], path[k]) && Parent(path[k]) == path[j];
    assert d > 0 && path[0] == 0;
    if Parent(d) < path[j] {
      LeftOfWay(r, y, h, path, j, Parent(d));
      LevelPositive(d, path[k]);
    }
  }

  lemma LevelPositive(d: nat, c: nat)
    requires d < c && Level(d) == Level(c) && Level(Parent(c)) > 0
    ensures d >= 3
  {
    assert Level(1) == 1 && Level(2) == 1 && Level(0) == 0;
  }

  lemma {:induction false} WayAbove(r: nat, h: seq<HeapItem>, path: seq<nat>, k: nat, a: nat)
    requires Way(r, h, path) && k < |path| && Above(a, path[k])
    ensures a in path
    decreases k
  {
    if a != path[k] {
      assert k > 0;
      assert IsChild(path[k - 1], path[k]);
      WayAbove(r, h, path, k - 1, a);
    }
  }

  /** Where the item at p comes to lie. */
  function Moved(path: seq<nat>, p: nat): nat
    requires p > 0
  {
    if p in path then Parent(p) else p
  }

  /** The heap after an item has sunk along the path. */
  ghost predicate Sunk(r: nat, y: nat, h: seq<HeapItem>, path: seq<nat>, h': seq<HeapItem>) {
    && r < y && |h| > 1 && h[|h| - 1].priority == y && Way(r, Rest(h), path)
    && (forall j :: 0 <= j < |path| ==> path[j] < |h| - 1) && Shifted(Rest(h), h[|h| - 1], path, h')
  }

  lemma SinkTo(r: nat, y: nat, h: seq<HeapItem>, path: seq<nat>, h': seq<HeapItem>, p: nat, s: nat)
    requires Sunk(r, y, h, path, h') && 0 < p && At(r, h, p, s)
    ensures At(r, h', Moved(path, p), s)
  {
    if p in path {
      var k :| 0 <= k < |path| && path[k] == p;
      assert k > 0 && IsChild(path[k - 1], path[k]);
      assert h'[path[k - 1]] == Rest(h)[path[k]];
    }
  }

  lemma SinkFrom(r: nat, y: nat, h: seq<HeapItem>, path: seq<nat>, h': seq<HeapItem>, p: nat, s: nat)
    requires Sunk(r, y, h, path, h') && At(r, h', p, s)
    ensures exists q: nat :: 0 < q && At(r, h, q, s) && p == Moved(path, q)
  {
    if p in path {
      var j :| 0 <= j < |path| && path[j] == p;
      assert j + 1 < |path|;
      assert IsChild(path[j], path[j + 1]) && h'[path[j]] == Rest(h)[path[j + 1]];
      assert At(r, h, path[j + 1], s) && Moved(path, path[j + 1]) == p;
    } else {
      assert path[0] == 0;
      assert At(r, h, p, s) && Moved(path, p) == p;
    }
  }

  lemma SinkHas(r: nat, y: nat, h: seq<HeapItem>, path: seq<nat>, h': seq<HeapItem>, s: nat) returns (q: nat)
    requires Sunk(r, y, h, path, h') && Has(r, h', s)
    ensures 0 < q && At(r, h, q, s) && Has(r, h, s)
  {
    var p := HasAt(r, h', s);
    SinkFrom(r, y, h, path, h', p, s);
    q :| 0 < q && At(r, h, q, s) && p == Moved(path, q);
  }

  lemma SinkOnce(r: nat, y: nat, h: seq<HeapItem>, path: seq<nat>, h': seq<HeapItem>)
    requires Sunk(r, y, h, path, h') && Once(r, h)
    ensures Once(r, h')
  {
    hide Sunk;
    forall p: nat, q: nat, s: nat | At(r, h', p, s) && At(r, h', q, s) ensures p == q {
      SinkFrom(r, y, h, path, h', p, s);
      SinkFrom(r, y, h, path, h', q, s);
    }
  }

  lemma SinkPlaced(r: nat, y: nat, h: seq<HeapItem>, path: seq<nat>, h': seq<HeapItem>, last: nat)
    requires Sunk(r, y, h, path, h') && Placed(r, h, last)
    ensures Placed(r, h', last)
  {
    hide Sunk;
    forall p: nat, s: nat | At(r, h', p, s) ensures Above(p, s) && s <= last {
      SinkFrom(r, y, h, path, h', p, s);
      var q: nat :| 0 < q && At(r, h, q, s) && p == Moved(path, q);
      ParentAbove(q, s);
    }
  }

  lemma SiblingLeft(r: nat, y: nat, h: seq<HeapItem>, path: seq<nat>, h': seq<HeapItem>, s: nat)
    requires Sunk(r, y, h, path, h') && s > 0 && s % 2 == 0 && s in path
    ensures s < |h| - 1 && h[s - 1].priority != r
  {
    var k :| 0 <= k < |path| && path[k] == s;
    assert k > 0 && IsChild(path[k - 1], path[k]);
  }

  lemma SinkEvenWaits(r: nat, y: nat, h: seq<HeapItem>, path: seq<nat>, h': seq<HeapItem>, last: nat)
    requires Sunk(r, y, h, path, h') && Once(r, h) && EvenWaits(r, h) && Placed(r, h, last)
    ensures EvenWaits(r, h')
  {
    hide Sunk, Once, Placed;
    forall s: nat, p: nat
      | s > 0 && s % 2 == 0 && At(r, h', p, s) && Has(r, h', s - 1) && Has(r, h', s + 1)
      ensures p == s || Below(r, h', p, s - 1)
    {
      SinkEvenOne(r, y, h, path, h', last, s, p);
    }
  }

  lemma SinkEvenOne(r: nat, y: nat, h: seq<HeapItem>, path: seq<nat>, h': seq<HeapItem>, last: nat, s: nat, p: nat)
    requires Sunk(r, y, h, path, h') && Once(r, h) && EvenWaits(r, h) && Placed(r, h, last)
    requires s > 0 && s % 2 == 0 && At(r, h', p, s) && Has(r, h', s - 1) && Has(r, h', s + 1)
    ensures p == s || Below(r, h', p, s - 1)
  {
    hide Sunk;
    SinkFrom(r, y, h, path, h', p, s);
    var q: nat :| 0 < q && At(r, h, q, s) && p == Moved(path, q);
    var a := SinkHas(r, y, h, path, h', s - 1);
    var c := SinkHas(r, y, h, path, h', s + 1);
    SinkTo(r, y, h, path, h', a, s - 1);
    if q == s {
      if s in path {
        SiblingLeft(r, y, h, path, h', s);
        assert a != s - 1 && Above(a, s - 1);
        assert Parent(s - 1) == Parent(s);
        assert Above(a, Parent(s));
        PathClosed(r, y, h, path, h', s, a);
        ParentAbove(a, Parent(s));
        assert Below(r, h', p, s - 1);
      }
    } else {
      assert Below(r, h, q, s - 1);
      assert a < q && Above(a, q);
      if q in path {
        PathClosed(r, y, h, path, h', q, a);
        ParentsAbove(a, q);
      } else {
        ParentAbove(a, q);
      }
      assert Below(r, h', p, s - 1);
    }
  }

  lemma PathClosed(r: nat, y: nat, h: seq<HeapItem>, path: seq<nat>, h': seq<HeapItem>, q: nat, a: nat)
    requires Sunk(r, y, h, path, h') && q in path && q > 0 && (Above(a, q) || Above(a, Parent(q)))
    ensures a in path
  {
    var k :| 0 <= k < |path| && path[k] == q;
    if !Above(a, q) {
      AboveParent(a, q);
    }
    WayAbove(r, Rest(h), path, k, a);
  }

  lemma AboveParent(a: nat, q: nat)
    requires q > 0 && Above(a, Parent(q))
    ensures Above(a, q)
  {
    AboveBelow(a, Parent(q));
  }

  lemma {:induction false} AboveBelow(a: nat, q: nat)
    requires Above(a, q)
    ensures a <= q
    decreases q
  {
    if a < q { AboveBelow(a, Parent(q)); }
  }

  lemma SinkRightStays(r: nat, y: nat, h: seq<HeapItem>, path: seq<nat>, h': seq<HeapItem>, last: nat)
    requires Sunk(r, y, h, path, h') && Once(r, h) && RightStays(r, h) && Placed(r, h, last) && IsHeap(false, h)
    requires TwoKinds(r, y, h)
    ensures RightStays(r, h')
  {
    hide Sunk, IsHeap, TwoKinds;
    forall j: nat | Own(r, h', j) && Level(j) == Level(j + 1) && Has(r, h', j + 1)
      ensures Own(r, h', j + 1) || At(r, h', 0, j + 1)
    {
      SinkFrom(r, y, h, path, h', j, j);
      var q: nat :| 0 < q && At(r, h, q, j) && j == Moved(path, q);
      AboveBelow(q, j);
      assert q == j;
      var c := SinkHas(r, y, h, path, h', j + 1);
      assert !At(r, h, 0, j + 1);
      assert Own(r, h, j + 1) && c == j + 1;
      NotOnWay(r, y, h, path, h', j);
      SinkTo(r, y, h, path, h', j + 1, j + 1);
    }
  }

  lemma NotOnWay(r: nat, y: nat, h: seq<HeapItem>, path: seq<nat>, h': seq<HeapItem>, j: nat)
    requires Sunk(r, y, h, path, h') && IsHeap(false, h) && TwoKinds(r, y, h)
    requires 0 < j && At(r, h, j, j) && Level(j) == Level(j + 1)
    ensures j + 1 !in path
  {
    if j + 1 in path {
      var k :| 0 <= k < |path| && path[k] == j + 1;
      forall p | 0 < p < |Rest(h)| && Rest(h)[p].priority == r ensures p < 3 || Rest(h)[Parent(p)].priority == r {
        assert OrderedAt(false, h, p);
      }
      assert k > 0;
      LeftOfWay(r, y, Rest(h), path, k, j);
    }
  }

  // ---- Popping and pushing -----------------------------------------------------------------------

  lemma KindsKept(r: nat, y: nat, h: seq<HeapItem>)
    requires TwoKinds(r, y, h) && h != [] && IsHeap(false, h)
    ensures TwoKinds(r, y, Popped(false, h))
  {
    PoppedHeap(false, h);
    var h' := Popped(false, h);
    hide IsHeap, Popped;
    forall p | 0 <= p < |h'| ensures h'[p].priority == r || h'[p].priority == y {
      assert h'[p] in multiset(h') + multiset{h[0]};
      assert h'[p] in multiset(h);
    }
  }

  /** Popping a lower item keeps the invariant, as long as only leaves lie at the end. */
  lemma PopKeeps(r: nat, y: nat, h: seq<HeapItem>, last: nat)
    requires InOrder(r, y, h, last) && NoWrap(r, h) && |h| > 1 && h[0].priority == r && last <= 2 * (|h| - 1)
    ensures InOrder(r, y, Popped(false, h), last)
  {
    hide EvenWaits, RightStays, Placed, Once, Popped, IsHeap, Rest;
    PoppedHeap(false, h);
    KindsKept(r, y, h);
    if h[|h| - 1].priority == r {
      JumpIs(r, y, h);
      JumpsFromOwn(r, h, last);
      JumpPlaced(r, h, last);
      JumpOnce(r, h);
      JumpEvenWaits(r, h);
      JumpRightStays(r, h);
    } else {
      var path := WayIs(r, y, h);
      var h' := Popped(false, h);
      assert Sunk(r, y, h, path, h');
      SinkPlaced(r, y, h, path, h', last);
      SinkOnce(r, y, h, path, h');
      SinkEvenWaits(r, y, h, path, h', last);
      SinkRightStays(r, y, h, path, h', last);
    }
  }

  /** A lower item leaves only as the first. */
  lemma PopHas(r: nat, y: nat, h: seq<HeapItem>, s: nat)
    requires h != [] && IsHeap(false, h) && Once(r, h)
    ensures Has(r, Popped(false, h), s) <==> Has(r, h, s) && !At(r, h, 0, s)
  {
    PoppedHeap(false, h);
    hide IsHeap, Popped;
    var x, h' := HeapItem(r, s), Popped(false, h);
    assert x in h' <==> x in multiset(h');
    assert x in h <==> x in multiset(h);
    if h[0] == x {
      OnceCount(r, h, s);
      assert multiset(h)[x] == multiset(h')[x] + 1;
    } else {
      assert multiset(h)[x] == multiset(h')[x];
    }
  }

  lemma OnceCount(r: nat, h: seq<HeapItem>, s: nat)
    requires Once(r, h) && h != [] && h[0] == HeapItem(r, s)
    ensures multiset(h)[HeapItem(r, s)] == 1
  {
    var x := HeapItem(r, s);
    assert h == [h[0]] + h[1..];
    if x in h[1..] {
      var p :| 0 <= p < |h[1..]| && h[1..][p] == x;
      assert At(r, h, p + 1, s) && At(r, h, 0, s);
    }
    assert x !in multiset(h[1..]);
  }

  /** Higher items stay. */
  lemma PopHigher(r: nat, y: nat, h: seq<HeapItem>, x: HeapItem)
    requires h != [] && IsHeap(false, h) && h[0].priority == r < y == x.priority
    ensures x in h <==> x in Popped(false, h)
  {
    PoppedHeap(false, h);
    hide IsHeap, Popped;
    var h' := Popped(false, h);
    assert x in h' <==> x in multiset(h');
    assert x in h <==> x in multiset(h);
    assert multiset(h)[x] == multiset(h')[x];
  }

  lemma PushAt(r: nat, h: seq<HeapItem>, x: HeapItem, p: nat, s: nat)
    requires x.priority != r
    ensures At(r, h + [x], p, s) <==> At(r, h, p, s)
    ensures Has(r, h + [x], s) <==> Has(r, h, s)
  {
  }

  /** Pushing a higher item changes nothing for the lower ones. */
  lemma PushKeeps(r: nat, y: nat, h: seq<HeapItem>, x: HeapItem, last: nat)
    requires InOrder(r, y, h, last) && x.priority == y
    ensures InOrder(r, y, h + [x], last)
  {
    var g := h + [x];
    forall p: nat, s: nat ensures At(r, g, p, s) <==> At(r, h, p, s) {
      PushAt(r, h, x, p, s);
    }
    forall s: nat ensures Has(r, g, s) <==> Has(r, h, s) {
      PushAt(r, h, x, 0, s);
    }
    PushHeap(r, y, h, x);
    PushEvenWaits(r, h, g);
    hide At, Has, IsHeap, EvenWaits;
  }

  lemma PushHeap(r: nat, y: nat, h: seq<HeapItem>, x: HeapItem)
    requires TwoKinds(r, y, h) && IsHeap(false, h) && x.priority == y
    ensures TwoKinds(r, y, h + [x]) && IsHeap(false, h + [x])
  {
    forall j | 0 < j < |h + [x]| ensures OrderedAt(false, h + [x], j) {
      if j < |h| { assert OrderedAt(false, h, j); }
    }
  }

  lemma PushEvenWaits(r: nat, h: seq<HeapItem>, g: seq<HeapItem>)
    requires EvenWaits(r, h)
    requires forall p: nat, s: nat :: At(r, g, p, s) <==> At(r, h, p, s)
    requires forall s: nat :: Has(r, g, s) <==> Has(r, h, s)
    ensures EvenWaits(r, g)
  {
    hide At, Has;
    forall s: nat, p: nat | s > 0 && s % 2 == 0 && At(r, g, p, s) && Has(r, g, s - 1) && Has(r, g, s + 1)
      ensures p == s || Below(r, g, p, s - 1)
    {
      if p != s {
        assert Below(r, h, p, s - 1);
        var a: nat :| At(r, h, a, s - 1) && a < p && Above(a, p);
        assert At(r, g, a, s - 1);
      }
    }
  }

  /** What the invariant is for: where an even item comes up, one of its neighbours has done so before. */
  lemma EvenIsLate(r: nat, y: nat, h: seq<HeapItem>, last: nat, s: nat)
    requires InOrder(r, y, h, last) && s > 0 && s % 2 == 0 && At(r, h, 0, s)
    ensures !Has(r, h, s - 1) || !Has(r, h, s + 1)
  {
  }

  // ---- The first item of a level ------------------------------------------------------------------

  /** The first index of level i. */
  function Left(i: nat): nat {
    if i == 0 then 0 else 2 * Left(i - 1) + 1
  }

  lemma OddSameLevel(s: nat)
    requires s % 2 == 1
    ensures Level(s) == Level(s + 1)
  {
  }

  lemma {:induction false} LevelBreak(s: nat) returns (j: nat)
    requires Level(s) != Level(s + 1)
    ensures s + 1 == Left(j)
  {
    if s == 0 {
      j := 1;
      assert Left(1) == 1;
    } else {
      if s % 2 == 1 { OddSameLevel(s); }
      assert Parent(s + 1) == Parent(s) + 1;
      var k := LevelBreak(Parent(s));
      j := k + 1;
    }
  }

  /** The items of these indices have left the heap. */
  ghost predicate LeftGone(r: nat, h: seq<HeapItem>) {
    forall j: nat :: !Has(r, h, Left(j))
  }

  lemma GoneNoWrap(r: nat, h: seq<HeapItem>)
    requires LeftGone(r, h) && h != []
    ensures NoWrap(r, h)
  {
    var s := |h| - 1;
    if Level(s) != Level(s + 1) {
      var j := LevelBreak(s);
      assert !Has(r, h, Left(j));
    }
  }

  /** The items of the first indices have moved up together: on the first place of level i, from level c on, lies that
      of level i + j. */
  ghost predicate LeftUp(r: nat, h: seq<HeapItem>, last: nat, j: nat, c: nat) {
    forall i: nat :: i >= c && Left(i + j) <= last ==> At(r, h, Left(i), Left(i + j))
  }

  lemma {:induction false} LeftOnWay(r: nat, y: nat, h: seq<HeapItem>, path: seq<nat>, last: nat, j: nat, i: nat)
    requires r < y && |h| > 1 && h[|h| - 1].priority == y
    requires Way(r, Rest(h), path) && forall k :: 0 <= k < |path| ==> path[k] < |h| - 1
    requires EndsAt(r, Rest(h), path[|path| - 1])
    requires LeftUp(r, h, last, j, 1) && (i > 0 ==> Left(i + j) <= last)
    ensures i < |path| && path[i] == Left(i)
    decreases i
  {
    if i > 0 {
      LeftGrows(i + j - 1);
      LeftOnWay(r, y, h, path, last, j, i - 1);
      assert At(r, h, Left(i), Left(i + j));
      NextOnWay(r, h, path, i, Left(i));
    }
  }

  lemma NextOnWay(r: nat, h: seq<HeapItem>, path: seq<nat>, i: nat, c: nat)
    requires |h| > 1 && Way(r, Rest(h), path) && EndsAt(r, Rest(h), path[|path| - 1])
    requires forall k :: 0 <= k < |path| ==> path[k] < |h| - 1
    requires 0 < i <= |path| && c == 2 * path[i - 1] + 1 && c < |h| - 1 && h[c].priority == r
    ensures i < |path| && path[i] == c
  {
    assert IsChild(path[i - 1], c) && Rest(h)[c] == h[c];
    if i < |path| { assert IsChild(path[i - 1], path[i]); }
  }

  lemma LeftGrows(i: nat)
    ensures Left(i) < Left(i + 1)
  {
  }

  /** A higher item that sinks lets all of them move up by one level. */
  lemma LeftMovesUp(r: nat, y: nat, h: seq<HeapItem>, last: nat, j: nat)
    requires TwoKinds(r, y, h) && |h| > 1 && h[|h| - 1].priority == y && LeftUp(r, h, last, j, 1)
    ensures LeftUp(r, Popped(false, h), last, j + 1, 0)
  {
    var path := WayIs(r, y, h);
    var h' := Popped(false, h);
    assert Sunk(r, y, h, path, h');
    hide Sunk, Way, Shifted, Popped, TwoKinds;
    forall i: nat | Left(i + (j + 1)) <= last ensures At(r, h', Left(i), Left(i + (j + 1))) {
      LeftOnWay(r, y, h, path, last, j, i + 1);
      assert At(r, h, Left(i + 1), Left(i + 1 + j));
      SinkTo(r, y, h, path, h', Left(i + 1), Left(i + 1 + j));
      assert Left(i + 1) in path && Parent(Left(i + 1)) == Left(i);
    }
  }

  /** With two higher items at the end one is there after the pop. */
  lemma EndStaysHigher(r: nat, y: nat, h: seq<HeapItem>)
    requires TwoKinds(r, y, h) && IsHeap(false, h) && |h| > 2
    requires h[|h| - 1].priority == y && h[|h| - 2].priority == y
    ensures |Popped(false, h)| == |h| - 1 && Popped(false, h)[|h| - 2].priority == y
  {
    var path := WayIs(r, y, h);
    var h', p := Popped(false, h), |h| - 2;
    assert Sunk(r, y, h, path, h');
    KindsKept(r, y, h);
    hide Sunk, Way, Shifted, Popped, IsHeap;
    if h'[p].priority == r {
      assert At(r, h', p, h'[p].start);
      SinkFrom(r, y, h, path, h', p, h'[p].start);
      assert false;
    }
  }
}
