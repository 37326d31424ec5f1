/** The binary min-heap of pending merges. */
module Heaps {

  datatype HeapItem = HeapItem(priority: nat, start: nat)

  /** The order of the heap: by priority alone, or by priority and then by position. */
  predicate Before(byPosition: bool, a: HeapItem, b: HeapItem) {
    a.priority < b.priority || (byPosition && a.priority == b.priority && a.start < b.start)
  }

  predicate NotAfter(byPosition: bool, a: HeapItem, b: HeapItem) {
    !Before(byPosition, b, a)
  }

  function Swap(h: seq<HeapItem>, i: nat, j: nat): (r: seq<HeapItem>)
    requires i < |h| && j < |h|
    ensures |r| == |h|
  {
    h[i := h[j]][j := h[i]]
  }

  /** The loop of heap_push on its new last item. */
  function SiftUp(byPosition: bool, h: seq<HeapItem>, i: nat): (r: seq<HeapItem>)
    requires i < |h|
    ensures |r| == |h|
    decreases i
  {
    if i == 0 || NotAfter(byPosition, h[(i - 1) / 2], h[i]) then h
    else SiftUp(byPosition, Swap(h, (i - 1) / 2, i), (i - 1) / 2)
  }

  function Pushed(byPosition: bool, h: seq<HeapItem>, x: HeapItem): seq<HeapItem> {
    SiftUp(byPosition, h + [x], |h|)
  }

  /** The index the loop of heap_pop moves to: a child that comes before i, or i itself. */
  function Smallest(byPosition: bool, h: seq<HeapItem>, i: nat): (s: nat)
    requires i < |h|
    ensures s < |h| && (s == i || s == 2 * i + 1 || s == 2 * i + 2)
  {
    var l, r := 2 * i + 1, 2 * i + 2;
    var s := if l < |h| && Before(byPosition, h[l], h[i]) then l else i;
    if r < |h| && Before(byPosition, h[r], h[s]) then r else s
  }

  /** The loop of heap_pop. */
  function SiftDown(byPosition: bool, h: seq<HeapItem>, i: nat): (r: seq<HeapItem>)
    requires i < |h|
    ensures |r| == |h|
    decreases |h| - i
  {
    var s := Smallest(byPosition, h, i);
    if s == i then h else SiftDown(byPosition, Swap(h, i, s), s)
  }

  /** What is left when the last item has taken the place of the first. */
  function Rest(h: seq<HeapItem>): (r: seq<HeapItem>)
    requires h != []
    ensures |r| == |h| - 1
  {
    h[0 := h[|h| - 1]][..|h| - 1]
  }

  /** The heap after its first item is taken off. */
  function Popped(byPosition: bool, h: seq<HeapItem>): (r: seq<HeapItem>)
    requires h != []
    ensures |r| == |h| - 1
  {
    var rest := Rest(h);
    if rest == [] then [] else SiftDown(byPosition, rest, 0)
  }

  // ---- The heap property ---------------------------------------------------------------

  ghost predicate OrderedAt(byPosition: bool, h: seq<HeapItem>, j: nat)
    requires 0 < j < |h|
  {
    NotAfter(byPosition, h[(j - 1) / 2], h[j])
  }

  ghost predicate IsHeap(byPosition: bool, h: seq<HeapItem>) {
    forall j :: 0 < j < |h| ==> OrderedAt(byPosition, h, j)
  }

  lemma {:induction false} TopIsLeast(byPosition: bool, h: seq<HeapItem>, i: nat)
    requires IsHeap(byPosition, h) && i < |h|
    ensures NotAfter(byPosition, h[0], h[i])
  {
    if i > 0 {
      assert OrderedAt(byPosition, h, i);
      TopIsLeast(byPosition, h, (i - 1) / 2);
    }
  }

  /** A heap except that item i may come before its parent. */
  ghost predicate UpHole(byPosition: bool, h: seq<HeapItem>, i: nat)
    requires i < |h|
  {
    && (forall j :: 0 < j < |h| && j != i ==> OrderedAt(byPosition, h, j))
    && (i > 0 ==> forall c :: 0 < c < |h| && (c - 1) / 2 == i ==> NotAfter(byPosition, h[(i - 1) / 2], h[c]))
  }

  /** A heap except that item i may come after its children. */
  ghost predicate DownHole(byPosition: bool, h: seq<HeapItem>, i: nat)
    requires i < |h|
  {
    && (forall j :: 0 < j < |h| && (j - 1) / 2 != i ==> OrderedAt(byPosition, h, j))
    && (i > 0 ==> forall c :: 0 < c < |h| && (c - 1) / 2 == i ==> NotAfter(byPosition, h[(i - 1) / 2], h[c]))
  }

  lemma UpHoleSwap(byPosition: bool, h: seq<HeapItem>, i: nat)
    requires 0 < i < |h| && UpHole(byPosition, h, i) && !OrderedAt(byPosition, h, i)
    ensures UpHole(byPosition, Swap(h, (i - 1) / 2, i), (i - 1) / 2)
  {
    var p := (i - 1) / 2;
    var h' := Swap(h, p, i);
    forall j | 0 < j < |h'| && j != p ensures OrderedAt(byPosition, h', j) {
      if j != i {
        assert OrderedAt(byPosition, h, j);
      }
    }
    if p > 0 {
      assert OrderedAt(byPosition, h, p);
      forall c | 0 < c < |h'| && (c - 1) / 2 == p ensures NotAfter(byPosition, h'[(p - 1) / 2], h'[c]) {
        if c != i {
          assert OrderedAt(byPosition, h, c);
        }
      }
    }
  }

  lemma DownHoleSwap(byPosition: bool, h: seq<HeapItem>, i: nat)
    requires i < |h| && DownHole(byPosition, h, i) && Smallest(byPosition, h, i) != i
    ensures DownHole(byPosition, Swap(h, i, Smallest(byPosition, h, i)), Smallest(byPosition, h, i))
  {
    var s := Smallest(byPosition, h, i);
    var h' := Swap(h, i, s);
    forall j | 0 < j < |h'| && (j - 1) / 2 != s ensures OrderedAt(byPosition, h', j) {
      if j != i && (j - 1) / 2 != i {
        assert OrderedAt(byPosition, h, j);
      }
    }
    forall c | 0 < c < |h'| && (c - 1) / 2 == s ensures NotAfter(byPosition, h'[(s - 1) / 2], h'[c]) {
      assert OrderedAt(byPosition, h, c);
    }
  }

  lemma SwapMultiset(h: seq<HeapItem>, i: nat, j: nat)
    requires i < |h| && j < |h|
    ensures multiset(Swap(h, i, j)) == multiset(h)
  {
  }

  lemma {:induction false} SiftUpHeap(byPosition: bool, h: seq<HeapItem>, i: nat)
    requires i < |h| && UpHole(byPosition, h, i)
    ensures IsHeap(byPosition, SiftUp(byPosition, h, i))
    ensures multiset(SiftUp(byPosition, h, i)) == multiset(h)
    decreases i
  {
    if i > 0 && !OrderedAt(byPosition, h, i) {
      UpHoleSwap(byPosition, h, i);
      SwapMultiset(h, (i - 1) / 2, i);
      SiftUpHeap(byPosition, Swap(h, (i - 1) / 2, i), (i - 1) / 2);
    }
  }

  lemma {:induction false} SiftDownHeap(byPosition: bool, h: seq<HeapItem>, i: nat)
    requires i < |h| && DownHole(byPosition, h, i)
    ensures IsHeap(byPosition, SiftDown(byPosition, h, i))
    ensures multiset(SiftDown(byPosition, h, i)) == multiset(h)
    decreases |h| - i
  {
    var s := Smallest(byPosition, h, i);
    if s == i {
      forall j | 0 < j < |h| ensures OrderedAt(byPosition, h, j) {
      }
    } else {
      DownHoleSwap(byPosition, h, i);
      SwapMultiset(h, i, s);
      SiftDownHeap(byPosition, Swap(h, i, s), s);
    }
  }

  lemma PushedHeap(byPosition: bool, h: seq<HeapItem>, x: HeapItem)
    requires IsHeap(byPosition, h)
    ensures IsHeap(byPosition, Pushed(byPosition, h, x))
    ensures multiset(Pushed(byPosition, h, x)) == multiset(h) + multiset{x}
  {
    forall j | 0 < j < |h| ensures OrderedAt(byPosition, h + [x], j) {
      assert OrderedAt(byPosition, h, j);
    }
    SiftUpHeap(byPosition, h + [x], |h|);
  }

  /** Taking the first item off leaves a heap of the others, none of which comes before it. */
  lemma PoppedHeap(byPosition: bool, h: seq<HeapItem>)
    requires h != [] && IsHeap(byPosition, h)
    ensures IsHeap(byPosition, Popped(byPosition, h))
    ensures multiset(Popped(byPosition, h)) + multiset{h[0]} == multiset(h)
    ensures forall x :: x in Popped(byPosition, h) ==> NotAfter(byPosition, h[0], x)
  {
    var rest := Rest(h);
    if rest != [] {
      forall j | 0 < j < |rest| && (j - 1) / 2 != 0 ensures OrderedAt(byPosition, rest, j) {
        assert OrderedAt(byPosition, h, j);
      }
      SiftDownHeap(byPosition, rest, 0);
    }
    assert multiset(rest) + multiset{h[0]} == multiset(h) by {
      RestMultiset(h);
    }
    forall x | x in Popped(byPosition, h) ensures NotAfter(byPosition, h[0], x) {
      assert x in multiset(Popped(byPosition, h));
      assert x in multiset(h);
      var i :| 0 <= i < |h| && h[i] == x;
      TopIsLeast(byPosition, h, i);
    }
  }

  lemma RestMultiset(h: seq<HeapItem>)
    requires h != []
    ensures multiset(Rest(h)) + multiset{h[0]} == multiset(h)
  {
    var n := |h| - 1;
    var rest := Rest(h);
    if n == 0 {
      assert h == [h[0]];
    } else {
      assert h == [h[0]] + h[1..n] + [h[n]];
      assert rest == [h[n]] + h[1..n];
    }
  }

  // ---- What moves where ---------------------------------------------------------------------

  predicate IsChild(i: nat, c: nat) {
    c == 2 * i + 1 || c == 2 * i + 2
  }

  /** The child an item at i changes places with: its sibling does not come before it, and if neither comes before the
      other it is the left one. */
  ghost predicate Leads(byPosition: bool, h: seq<HeapItem>, i: nat, c: nat) {
    && IsChild(i, c) && c < |h|
    && forall d: nat :: IsChild(i, d) && d < |h| ==>
                          NotAfter(byPosition, h[c], h[d]) && (NotAfter(byPosition, h[d], h[c]) ==> c <= d)
  }

  /** No child of i comes before x. */
  ghost predicate StopsDown(byPosition: bool, h: seq<HeapItem>, x: HeapItem, i: nat) {
    forall c: nat :: IsChild(i, c) && c < |h| ==> NotAfter(byPosition, x, h[c])
  }

  /** x does not come before the parent of i. */
  ghost predicate StopsUp(byPosition: bool, h: seq<HeapItem>, x: HeapItem, i: nat) {
    forall p: nat :: IsChild(p, i) && p < |h| ==> NotAfter(byPosition, h[p], x)
  }

  /** The path on which item x sinks: from child to leading child as long as that comes before x. */
  ghost predicate Sinks(byPosition: bool, h: seq<HeapItem>, x: HeapItem, path: seq<nat>) {
    && path != [] && (forall j :: 0 <= j < |path| ==> path[j] < |h|)
    && (forall j, k :: 0 <= j && k == j + 1 < |path| ==>
                         Leads(byPosition, h, path[j], path[k]) && Before(byPosition, h[path[k]], x))
    && StopsDown(byPosition, h, x, path[|path| - 1])
  }

  /** The path on which item x rises: from parent to parent as long as x comes before it. */
  ghost predicate Rises(byPosition: bool, h: seq<HeapItem>, x: HeapItem, path: seq<nat>) {
    && path != [] && (forall j :: 0 <= j < |path| ==> path[j] < |h|)
    && (forall j, k :: 0 <= j && k == j + 1 < |path| ==>
                         IsChild(path[k], path[j]) && Before(byPosition, x, h[path[k]]))
    && StopsUp(byPosition, h, x, path[|path| - 1])
  }

  /** Along the path every item takes the place before its own and x the last; no other item moves. */
  ghost predicate Shifted(h: seq<HeapItem>, x: HeapItem, path: seq<nat>, r: seq<HeapItem>)
    requires path != [] && forall j :: 0 <= j < |path| ==> path[j] < |h|
  {
    && |r| == |h| && r[path[|path| - 1]] == x
    && (forall j, k :: 0 <= j && k == j + 1 < |path| ==> r[path[j]] == h[path[k]])
    && forall q :: 0 <= q < |h| && q !in path ==> r[q] == h[q]
  }

  /** r is h after its first item was replaced by x and x has sunk. */
  ghost predicate SunkFrom(byPosition: bool, h: seq<HeapItem>, x: HeapItem, i: nat, r: seq<HeapItem>) {
    exists path: seq<nat> :: Sinks(byPosition, h, x, path) && path[0] == i && Shifted(h, x, path, r)
  }

  /** r is h after its item at i was replaced by x and x has risen. */
  ghost predicate RisenFrom(byPosition: bool, h: seq<HeapItem>, x: HeapItem, i: nat, r: seq<HeapItem>) {
    exists path: seq<nat> :: Rises(byPosition, h, x, path) && path[0] == i && Shifted(h, x, path, r)
  }

  lemma SmallestLeads(byPosition: bool, h: seq<HeapItem>, i: nat)
    requires i < |h|
    ensures var s := Smallest(byPosition, h, i);
            if s == i then StopsDown(byPosition, h, h[i], i)
            else Leads(byPosition, h, i, s) && Before(byPosition, h[s], h[i])
  {
  }

  lemma {:induction false} SiftDownPath(byPosition: bool, h: seq<HeapItem>, i: nat) returns (path: seq<nat>)
    requires i < |h|
    ensures Sinks(byPosition, h, h[i], path) && path[0] == i && Shifted(h, h[i], path, SiftDown(byPosition, h, i))
    ensures forall j :: 0 < j < |path| ==> i < path[j]
    decreases |h| - i
  {
    SmallestLeads(byPosition, h, i);
    var s := Smallest(byPosition, h, i);
    if s == i {
      path := [i];
    } else {
      var rest := SiftDownPath(byPosition, Swap(h, i, s), s);
      path := [i] + rest;
      SinksOn(byPosition, h, i, s, rest);
      ShiftsOn(h, i, s, rest, SiftDown(byPosition, Swap(h, i, s), s));
    }
  }

  lemma SinksOn(byPosition: bool, h: seq<HeapItem>, i: nat, s: nat, rest: seq<nat>)
    requires i < s < |h| && Leads(byPosition, h, i, s) && Before(byPosition, h[s], h[i])
    requires Sinks(byPosition, Swap(h, i, s), h[i], rest) && rest[0] == s && forall j :: 0 < j < |rest| ==> s < rest[j]
    ensures Sinks(byPosition, h, h[i], [i] + rest)
  {
    var path, h' := [i] + rest, Swap(h, i, s);
    forall j, k | 0 <= j && k == j + 1 < |path|
      ensures Leads(byPosition, h, path[j], path[k]) && Before(byPosition, h[path[k]], h[i])
    {
      if j > 0 {
        assert Leads(byPosition, h', rest[j - 1], rest[k - 1]);
        LeadsLike(byPosition, h, h', rest[j - 1], rest[k - 1]);
      }
    }
    var last := path[|path| - 1];
    assert last == rest[|rest| - 1] && StopsDown(byPosition, h', h[i], last);
  }

  lemma LeadsLike(byPosition: bool, h: seq<HeapItem>, h': seq<HeapItem>, i: nat, c: nat)
    requires |h| == |h'| && (forall q :: i < q < |h| ==> h[q] == h'[q]) && Leads(byPosition, h', i, c)
    ensures Leads(byPosition, h, i, c)
  {
  }

  lemma ShiftsOn(h: seq<HeapItem>, i: nat, s: nat, rest: seq<nat>, r: seq<HeapItem>)
    requires i < s < |h| && rest != [] && rest[0] == s && forall j :: 0 <= j < |rest| ==> rest[j] < |h|
    requires (forall j :: 0 < j < |rest| ==> s < rest[j]) && Shifted(Swap(h, i, s), h[i], rest, r)
    ensures Shifted(h, h[i], [i] + rest, r)
  {
    var path := [i] + rest;
    forall j, k | 0 <= j && k == j + 1 < |path| ensures r[path[j]] == h[path[k]] {
      if j > 0 { assert r[rest[j - 1]] == Swap(h, i, s)[rest[k - 1]]; }
    }
    forall q | 0 <= q < |h| && q !in path ensures r[q] == h[q] {
      assert q !in rest && path[0] == i && path[1] == s;
    }
  }

  lemma DownGoesOn(byPosition: bool, h: seq<HeapItem>, x: HeapItem, b: seq<nat>, n: nat, c: nat)
    requires Sinks(byPosition, h, x, b) && 0 < n <= |b|
    requires IsChild(b[n - 1], c) && c < |h| && Before(byPosition, h[c], x)
    ensures n < |b|
  {
    hide Leads, IsChild;
    assert n == |b| ==> StopsDown(byPosition, h, x, b[n - 1]);
  }

  /** There is only one way down. */
  lemma {:induction false} OnePathDown(byPosition: bool, h: seq<HeapItem>, x: HeapItem, a: seq<nat>, b: seq<nat>,
                                       n: nat)
    requires Sinks(byPosition, h, x, a) && Sinks(byPosition, h, x, b) && a[0] == b[0] && n < |a|
    ensures n < |b| && a[n] == b[n]
  {
    if n > 0 {
      OnePathDown(byPosition, h, x, a, b, n - 1);
      assert Leads(byPosition, h, a[n - 1], a[n]) && Before(byPosition, h[a[n]], x);
      DownGoesOn(byPosition, h, x, b, n, a[n]);
      assert Leads(byPosition, h, b[n - 1], b[n]);
    }
  }

  lemma OneShift(h: seq<HeapItem>, x: HeapItem, path: seq<nat>, r: seq<HeapItem>, r': seq<HeapItem>)
    requires path != [] && forall j :: 0 <= j < |path| ==> path[j] < |h|
    requires Shifted(h, x, path, r) && Shifted(h, x, path, r')
    ensures r == r'
  {
    forall q | 0 <= q < |h| ensures r[q] == r'[q] {
      if q in path {
        var j :| 0 <= j < |path| && path[j] == q;
        if j + 1 < |path| { assert r[path[j]] == h[path[j + 1]] == r'[path[j]]; }
      }
    }
  }

  lemma SiftDownSinks(byPosition: bool, h: seq<HeapItem>, i: nat, r: seq<HeapItem>)
    requires i < |h|
    ensures r == SiftDown(byPosition, h, i) <==> SunkFrom(byPosition, h, h[i], i, r)
  {
    var a := SiftDownPath(byPosition, h, i);
    if b: seq<nat> :| Sinks(byPosition, h, h[i], b) && b[0] == i && Shifted(h, h[i], b, r) {
      hide Leads, Before;
      forall n: nat | n < |a| ensures n < |b| && a[n] == b[n] { OnePathDown(byPosition, h, h[i], a, b, n); }
      forall n: nat | n < |b| ensures n < |a| && a[n] == b[n] { OnePathDown(byPosition, h, h[i], b, a, n); }
      assert a == b;
      OneShift(h, h[i], a, r, SiftDown(byPosition, h, i));
    }
  }

  lemma StaysUp(byPosition: bool, h: seq<HeapItem>, i: nat)
    requires i < |h| && (i == 0 || NotAfter(byPosition, h[(i - 1) / 2], h[i]))
    ensures Rises(byPosition, h, h[i], [i]) && Shifted(h, h[i], [i], h)
  {
  }

  lemma {:induction false} SiftUpPath(byPosition: bool, h: seq<HeapItem>, i: nat) returns (path: seq<nat>)
    requires i < |h|
    ensures Rises(byPosition, h, h[i], path) && path[0] == i && Shifted(h, h[i], path, SiftUp(byPosition, h, i))
    ensures forall j :: 0 < j < |path| ==> path[j] < i
    decreases i
  {
    hide IsChild, StopsUp;
    path := [i];
    if i == 0 || NotAfter(byPosition, h[(i - 1) / 2], h[i]) {
      StaysUp(byPosition, h, i);
    } else {
      var p := (i - 1) / 2;
      var rest := SiftUpPath(byPosition, Swap(h, p, i), p);
      path := [i] + rest;
      RisesOn(byPosition, h, i, p, rest);
      RiseShiftsOn(h, i, p, rest, SiftUp(byPosition, Swap(h, p, i), p));
    }
  }

  lemma RisesOn(byPosition: bool, h: seq<HeapItem>, i: nat, p: nat, rest: seq<nat>)
    requires i < |h| && IsChild(p, i) && Before(byPosition, h[i], h[p])
    requires Rises(byPosition, Swap(h, p, i), h[i], rest) && rest[0] == p && forall j :: 0 < j < |rest| ==> rest[j] < p
    ensures Rises(byPosition, h, h[i], [i] + rest)
  {
    var path, h' := [i] + rest, Swap(h, p, i);
    forall j, k | 0 <= j && k == j + 1 < |path|
      ensures IsChild(path[k], path[j]) && Before(byPosition, h[i], h[path[k]])
    {
      if j > 0 { assert IsChild(rest[k - 1], rest[j - 1]); }
    }
    var last := path[|path| - 1];
    assert last == rest[|rest| - 1] && StopsUp(byPosition, h', h[i], last);
  }

  lemma RiseShiftsOn(h: seq<HeapItem>, i: nat, p: nat, rest: seq<nat>, r: seq<HeapItem>)
    requires p < i < |h| && rest != [] && rest[0] == p && forall j :: 0 <= j < |rest| ==> rest[j] < |h|
    requires (forall j :: 0 < j < |rest| ==> rest[j] < p) && Shifted(Swap(h, p, i), h[i], rest, r)
    ensures Shifted(h, h[i], [i] + rest, r)
  {
    var path := [i] + rest;
    forall j, k | 0 <= j && k == j + 1 < |path| ensures r[path[j]] == h[path[k]] {
      if j > 0 { assert r[rest[j - 1]] == Swap(h, p, i)[rest[k - 1]]; }
    }
    forall q | 0 <= q < |h| && q !in path ensures r[q] == h[q] {
      assert q !in rest && path[0] == i && path[1] == p;
    }
  }

  lemma UpGoesOn(byPosition: bool, h: seq<HeapItem>, x: HeapItem, b: seq<nat>, n: nat, p: nat)
    requires Rises(byPosition, h, x, b) && 0 < n <= |b|
    requires IsChild(p, b[n - 1]) && p < |h| && Before(byPosition, x, h[p])
    ensures n < |b|
  {
    hide IsChild;
    assert n == |b| ==> StopsUp(byPosition, h, x, b[n - 1]);
  }

  /** There is only one way up. */
  lemma {:induction false} OnePathUp(byPosition: bool, h: seq<HeapItem>, x: HeapItem, a: seq<nat>, b: seq<nat>, n: nat)
    requires Rises(byPosition, h, x, a) && Rises(byPosition, h, x, b) && a[0] == b[0] && n < |a|
    ensures n < |b| && a[n] == b[n]
  {
    if n > 0 {
      OnePathUp(byPosition, h, x, a, b, n - 1);
      assert IsChild(a[n], a[n - 1]) && Before(byPosition, x, h[a[n]]);
      UpGoesOn(byPosition, h, x, b, n, a[n]);
      assert IsChild(b[n], b[n - 1]);
    }
  }

  lemma SiftUpRises(byPosition: bool, h: seq<HeapItem>, i: nat, r: seq<HeapItem>)
    requires i < |h|
    ensures r == SiftUp(byPosition, h, i) <==> RisenFrom(byPosition, h, h[i], i, r)
  {
    var a := SiftUpPath(byPosition, h, i);
    if b: seq<nat> :| Rises(byPosition, h, h[i], b) && b[0] == i && Shifted(h, h[i], b, r) {
      hide IsChild, Before;
      forall n: nat | n < |a| ensures n < |b| && a[n] == b[n] { OnePathUp(byPosition, h, h[i], a, b, n); }
      forall n: nat | n < |b| ensures n < |a| && a[n] == b[n] { OnePathUp(byPosition, h, h[i], b, a, n); }
      assert a == b;
      OneShift(h, h[i], a, r, SiftUp(byPosition, h, i));
    }
  }

  /** Pushing: the new item rises from the end past every ancestor it comes before, and nothing else moves. */
  lemma PushedRises(byPosition: bool, h: seq<HeapItem>, x: HeapItem, r: seq<HeapItem>)
    ensures r == Pushed(byPosition, h, x) <==> RisenFrom(byPosition, h + [x], x, |h|, r)
  {
    SiftUpRises(byPosition, h + [x], |h|, r);
  }

  /** Popping: the last item takes the place of the first and sinks past leading children, and nothing else moves. */
  lemma PoppedSinks(byPosition: bool, h: seq<HeapItem>, r: seq<HeapItem>)
    requires |h| > 1
    ensures r == Popped(byPosition, h) <==> SunkFrom(byPosition, Rest(h), h[|h| - 1], 0, r)
  {
    SiftDownSinks(byPosition, Rest(h), 0, r);
  }

  // ---- The code -----------------------------------------------------------------------------

  class MinHeap {
    const byPosition: bool
    var data: seq<HeapItem>

    constructor (byPosition: bool)
      ensures data == [] && this.byPosition == byPosition
    {
      this.byPosition := byPosition;
      data := [];
    }

    /** heap_push */
    method Push(pri: nat, start: nat)
      modifies this
      ensures data == Pushed(byPosition, old(data), HeapItem(pri, start))
      ensures RisenFrom(byPosition, old(data) + [HeapItem(pri, start)], HeapItem(pri, start), |old(data)|, data)
    {
      hide RisenFrom, IsHeap;
      var i: nat := |data|;
      data := data + [HeapItem(pri, start)];
      while i > 0
        invariant i < |data|
        invariant SiftUp(byPosition, data, i) == Pushed(byPosition, old(data), HeapItem(pri, start))
      {
        var parent := (i - 1) / 2;
        if NotAfter(byPosition, data[parent], data[i]) {
          break;
        }
        data := Swap(data, parent, i);
        i := parent;
      }
      PushedRises(byPosition, old(data), HeapItem(pri, start), data);
    }

    /** heap_pop */
    method Pop() returns (top: HeapItem)
      requires data != []
      modifies this
      ensures top == old(data)[0] && data == Popped(byPosition, old(data))
      ensures |old(data)| > 1 ==> SunkFrom(byPosition, Rest(old(data)), old(data)[|old(data)| - 1], 0, data)
    {
      hide SunkFrom, IsHeap;
      top := data[0];
      data := data[0 := data[|data| - 1]][..|data| - 1];
      var i: nat := 0;
      while true
        invariant data == [] ==> i == 0 && Popped(byPosition, old(data)) == []
        invariant data != [] ==> i < |data| && SiftDown(byPosition, data, i) == Popped(byPosition, old(data))
        decreases |data| - i
      {
        var l, r, smallest := 2 * i + 1, 2 * i + 2, i;
        if l < |data| && Before(byPosition, data[l], data[smallest]) {
          smallest := l;
        }
        if r < |data| && Before(byPosition, data[r], data[smallest]) {
          smallest := r;
        }
        if smallest == i {
          break;
        }
        data := Swap(data, i, smallest);
        i := smallest;
      }
      if |old(data)| > 1 {
        PoppedSinks(byPosition, old(data), data);
      }
    }
  }
}
