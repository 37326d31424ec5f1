/** Phase 2 of the automaton's construction: the trie packed into a double array. */
module DoubleArray {
  import opened Vocabulary
  import opened Trie
  import opened FailureLinks

  // ---- What a packing must satisfy -------------------------------------------------

  /** Every queued node has an occupied slot of its own, the root slot 0. */
  ghost predicate Slots(slot: seq<int>, check: seq<int>, q: seq<nat>) {
    && (forall m :: m in q ==> m < |slot| && 0 <= slot[m] < |check| && check[slot[m]] != -1)
    && (forall m, n :: m in q && n in q && slot[m] == slot[n] ==> m == n)
    && 0 in q && slot[0] == 0 && check[0] == 0
  }

  /** A node's window of 256 candidates lies within the arrays. */
  ghost predicate Windows(slot: seq<int>, base: seq<int>, q: seq<nat>) {
    forall m :: m in q ==> m < |slot| && 0 <= slot[m] < |base| && 0 <= base[slot[m]] && base[slot[m]] + 255 < |base|
  }

  /** Slot i was taken by a child of a node already packed. */
  ghost predicate Owned(nodes: seq<TrieNode>, slot: seq<int>, check: seq<int>, done: seq<nat>, i: nat)
    requires i < |check|
  {
    exists p, e :: p in done && p < |nodes| && p < |slot| && e in nodes[p].edges && e.child < |slot|
                   && slot[e.child] == i && check[i] == slot[p]
  }

  ghost predicate AllOwned(nodes: seq<TrieNode>, slot: seq<int>, check: seq<int>, done: seq<nat>) {
    forall i {:trigger Owned(nodes, slot, check, done, i)} :: 0 < i < |check| && check[i] != -1 ==>
          Owned(nodes, slot, check, done, i)
  }

  /** The edge from p to e.child is found by the double-array test. */
  ghost predicate Packed(slot: seq<int>, base: seq<int>, check: seq<int>, p: nat, e: TrieEdge) {
    && p < |slot| && 0 <= slot[p] < |base| && e.child < |slot| && 0 <= slot[e.child] < |check|
    && slot[e.child] == base[slot[p]] + e.byte && check[slot[e.child]] == slot[p] && 0 < base[slot[p]]
  }

  ghost predicate AllPacked(nodes: seq<TrieNode>, slot: seq<int>, base: seq<int>, check: seq<int>, done: seq<nat>) {
    forall p, e {:trigger Packed(slot, base, check, p, e)} :: p in done && p < |nodes| && e in nodes[p].edges ==>
          Packed(slot, base, check, p, e)
  }

  ghost predicate FreeIsZero(base: seq<int>, check: seq<int>) {
    |base| == |check| && forall i :: 0 <= i < |check| && check[i] == -1 ==> base[i] == 0
  }

  /** What holds between two turns of the packing loop, with q[..qh] packed. */
  ghost predicate PackState(nodes: seq<TrieNode>, slot: seq<int>, base: seq<int>, check: seq<int>, q: seq<nat>, qh: nat)
  {
    && qh <= |q| && |slot| == |nodes| && 512 <= |base|
    && Slots(slot, check, q)
    && Windows(slot, base, q)
    && AllOwned(nodes, slot, check, q[..qh])
    && AllPacked(nodes, slot, base, check, q[..qh])
    && FreeIsZero(base, check)
  }

  /** The packing queue: the root first, then the nodes as in the breadth-first walk. */
  ghost predicate PackQueue(nodes: seq<TrieNode>, paths: seq<seq<byte>>, q: seq<nat>, qh: nat)
    requires |nodes| == |paths|
  {
    && q != [] && q[0] == 0
    && if qh == 0 then q == [0] else Queue(nodes, paths, q[1..], qh - 1)
  }

  lemma PackQueueNext(nodes: seq<TrieNode>, paths: seq<seq<byte>>, q: seq<nat>, qh: nat)
    requires Tree(nodes, paths) && PackQueue(nodes, paths, q, qh) && qh < |q|
    ensures q[qh] < |nodes|
    ensures PackQueue(nodes, paths, q + Children(nodes[q[qh]].edges), qh + 1)
    ensures |q| + |nodes[q[qh]].edges| <= |nodes|
    ensures forall e :: e in nodes[q[qh]].edges ==> e.child !in q && 0 < e.child < |nodes|
  {
    hide Queue;
    if qh == 0 {
      QueueStart(nodes, paths);
      var cs := Children(nodes[0].edges);
      assert (q + cs)[1..] == cs;
      RoomInQueue(nodes, paths, cs, 0);
      ChildrenFacts(nodes, paths, 0);
    } else {
      var r := q[1..];
      assert r[qh - 1] == q[qh];
      QueueNext(nodes, paths, r, qh - 1);
      var cs := Children(nodes[q[qh]].edges);
      assert (q + cs)[1..] == r + cs;
      RoomInQueue(nodes, paths, r + cs, qh);
      ChildrenFacts(nodes, paths, q[qh]);
      forall e | e in nodes[q[qh]].edges ensures e.child !in q {
        var j :| 0 <= j < |nodes[q[qh]].edges| && nodes[q[qh]].edges[j] == e;
        NotYetQueued(nodes, paths, r, qh - 1, j);
        assert q == [0] + r;
        assert cs[j] == e.child;
      }
    }
  }

  lemma PackQueueAll(nodes: seq<TrieNode>, paths: seq<seq<byte>>, q: seq<nat>, m: nat)
    requires Tree(nodes, paths) && PackQueue(nodes, paths, q, |q|) && m < |nodes|
    ensures m in q
  {
    if m != 0 {
      QueueAll(nodes, paths, q[1..], m);
    }
  }

  // ---- Growing keeps the packing ----------------------------------------------------

  ghost predicate Grown(base0: seq<int>, check0: seq<int>, base: seq<int>, check: seq<int>) {
    && |base0| == |check0| <= |base| == |check|
    && (forall i :: 0 <= i < |base0| ==> base[i] == base0[i] && check[i] == check0[i])
    && (forall i :: |base0| <= i < |base| ==> base[i] == 0 && check[i] == -1)
  }

  lemma GrownTwice(base0: seq<int>, check0: seq<int>, base1: seq<int>, check1: seq<int>, base: seq<int>,
                   check: seq<int>)
    requires Grown(base0, check0, base1, check1) && Grown(base1, check1, base, check)
    ensures Grown(base0, check0, base, check)
  {
  }

  lemma PackGrown(nodes: seq<TrieNode>, slot: seq<int>, base0: seq<int>, check0: seq<int>, base: seq<int>,
                  check: seq<int>, q: seq<nat>, qh: nat)
    requires PackState(nodes, slot, base0, check0, q, qh) && Grown(base0, check0, base, check)
    ensures PackState(nodes, slot, base, check, q, qh)
  {
    forall i | 0 < i < |check| && check[i] != -1 ensures Owned(nodes, slot, check, q[..qh], i) {
      assert Owned(nodes, slot, check0, q[..qh], i);
    }
    forall p, e | p in q[..qh] && p < |nodes| && e in nodes[p].edges ensures Packed(slot, base, check, p, e) {
      assert Packed(slot, base0, check0, p, e);
    }
  }

  // ---- Placing the children of one node -----------------------------------------------

  /** The first j children stand at b plus their byte; nothing else moved. */
  ghost predicate Placed(edges: seq<TrieEdge>, j: nat, b: int, parent: int, slot0: seq<int>, check0: seq<int>,
                         slot: seq<int>, check: seq<int>)
    requires j <= |edges|
  {
    && |slot| == |slot0| && |check| == |check0|
    && (forall e :: e in edges[..j] ==>
          e.child < |slot| && 0 <= b + e.byte < |check| && slot[e.child] == b + e.byte && check[b + e.byte] == parent)
    && (forall m {:trigger SomeChild(edges[..j], m)} :: 0 <= m < |slot| && slot[m] != slot0[m] ==>
          SomeChild(edges[..j], m))
    && (forall i {:trigger SomeByte(edges[..j], b, i)} :: 0 <= i < |check| && check[i] != check0[i] ==>
          SomeByte(edges[..j], b, i))
  }

  ghost predicate SomeChild(edges: seq<TrieEdge>, m: int) {
    exists e :: e in edges && e.child == m
  }

  ghost predicate SomeByte(edges: seq<TrieEdge>, b: int, i: int) {
    exists e :: e in edges && b + e.byte == i
  }

  lemma PlacedNext(edges: seq<TrieEdge>, j: nat, b: int, parent: int, slot0: seq<int>, check0: seq<int>, slot: seq<int>,
                   check: seq<int>)
    requires j < |edges| && Sorted(edges) && Placed(edges, j, b, parent, slot0, check0, slot, check)
    requires edges[j].child < |slot| && 0 <= b + edges[j].byte < |check|
    requires forall i :: 0 <= i < j ==> edges[i].child != edges[j].child
    ensures Placed(edges, j + 1, b, parent, slot0, check0,
                   slot[edges[j].child := b + edges[j].byte], check[b + edges[j].byte := parent])
  {
    var slot', check' := slot[edges[j].child := b + edges[j].byte], check[b + edges[j].byte := parent];
    assert edges[..j + 1] == edges[..j] + [edges[j]];
    assert forall e :: e in edges[..j + 1] <==> e in edges[..j] || e == edges[j];
    forall m | 0 <= m < |slot| && slot'[m] != slot0[m] ensures SomeChild(edges[..j + 1], m) {
      if m == edges[j].child {
        assert edges[j] in edges[..j + 1];
      } else {
        assert SomeChild(edges[..j], m);
      }
    }
    forall i | 0 <= i < |check| && check'[i] != check0[i] ensures SomeByte(edges[..j + 1], b, i) {
      if i == b + edges[j].byte {
        assert edges[j] in edges[..j + 1];
      } else {
        assert SomeByte(edges[..j], b, i);
      }
    }
  }

  /** The children of a node, q[qh], have just been placed at b. */
  datatype Placing = Placing(nodes: seq<TrieNode>, slot0: seq<int>, base0: seq<int>, check0: seq<int>, q: seq<nat>,
                             qh: nat, b: int, slot: seq<int>, check: seq<int>)
  {
    ghost predicate Ok() {
      && PackState(nodes, slot0, base0, check0, q, qh) && qh < |q| && q[qh] < |nodes|
      && 0 < b && b + 255 < |base0|
      && (forall e :: e in Edges() ==> e.child !in q && 0 < e.child < |nodes| && check0[b + e.byte] == -1)
      && Sorted(Edges()) && Distinct(Children(Edges()))
      && Placed(Edges(), |Edges()|, b, slot0[q[qh]], slot0, check0, slot, check)
    }

    ghost function Edges(): seq<TrieEdge>
      requires qh < |q| && q[qh] < |nodes|
    {
      nodes[q[qh]].edges
    }

    ghost function Parent(): int
      requires qh < |q| && q[qh] < |slot0|
    {
      slot0[q[qh]]
    }

    ghost predicate Sizes() {
      && qh < |q| && q[qh] in q && q[qh] < |nodes| == |slot0| == |slot|
      && |check0| == |check| == |base0| && 0 <= Parent() < |base0| && 512 <= |base0|
    }

    ghost function Base(): seq<int>
      requires Sizes()
    {
      base0[Parent() := b]
    }
  }

  lemma PlacingSizes(s: Placing)
    requires s.Ok()
    ensures s.Sizes()
  {
  }

  lemma QueuedSlot(s: Placing, m: nat)
    requires s.Ok() && m in s.q
    ensures s.Sizes() && m < |s.slot0| && 0 <= s.slot0[m] < |s.check0| && s.check0[s.slot0[m]] != -1
  {
  }

  lemma PlacedKeeps(edges: seq<TrieEdge>, b: int, parent: int, slot0: seq<int>, check0: seq<int>, slot: seq<int>,
                    check: seq<int>, m: nat, i: nat)
    requires Placed(edges, |edges|, b, parent, slot0, check0, slot, check)
    requires m < |slot0| && i < |check0| && forall e :: e in edges ==> e.child != m && b + e.byte != i
    ensures |slot| == |slot0| && |check| == |check0| && slot[m] == slot0[m] && check[i] == check0[i]
  {
    assert edges[..|edges|] == edges;
    assert !SomeChild(edges, m) && !SomeByte(edges, b, i);
  }

  lemma OkEdges(s: Placing)
    requires s.Ok()
    ensures s.Sizes() && s.qh < |s.q| && s.q[s.qh] < |s.nodes| == |s.slot0| && |s.check0| == |s.check|
    ensures Placed(s.Edges(), |s.Edges()|, s.b, s.Parent(), s.slot0, s.check0, s.slot, s.check)
    ensures forall e :: e in s.Edges() ==>
              e.child !in s.q && 0 <= s.b + e.byte < |s.check0| && s.check0[s.b + e.byte] == -1
  {
  }

  /** Nodes queued before keep their slots, and those slots stay theirs. */
  lemma Unmoved(s: Placing, m: nat)
    requires s.Ok() && m in s.q
    ensures s.Sizes() && m < |s.slot| && s.slot[m] == s.slot0[m] && 0 <= s.slot[m] < |s.check|
    ensures s.check[s.slot[m]] == s.check0[s.slot[m]] != -1
  {
    hide *;
    QueuedSlot(s, m);
    OkEdges(s);
    PlacedKeeps(s.Edges(), s.b, s.Parent(), s.slot0, s.check0, s.slot, s.check, m, s.slot0[m]);
  }

  /** A child stands at b plus its byte, in a slot that was free. */
  lemma ChildAt(s: Placing, e: TrieEdge)
    requires s.Ok() && s.qh < |s.q| && s.q[s.qh] < |s.nodes| && e in s.Edges()
    ensures s.Sizes() && e.child !in s.q && e.child < |s.slot| && 0 < s.b + e.byte < |s.check|
    ensures s.slot[e.child] == s.b + e.byte && s.check[s.b + e.byte] == s.Parent() && s.check0[s.b + e.byte] == -1
    ensures 0 < s.b
  {
  }

  /** Only the children's slots changed. */
  lemma SlotChanged(s: Placing, i: nat) returns (e: TrieEdge)
    requires s.Ok() && i < |s.check| && i < |s.check0| && s.check[i] != s.check0[i]
    ensures s.Sizes() && e in s.Edges() && s.b + e.byte == i
  {
    PlacingSizes(s);
    hide AllOwned, AllPacked, Windows, FreeIsZero;
    var edges := s.Edges();
    assert edges[..|edges|] == edges;
    assert SomeByte(edges, s.b, i);
    e :| e in edges && s.b + e.byte == i;
  }

  lemma NewNode(s: Placing, m: nat) returns (e: TrieEdge)
    requires s.Ok() && s.qh < |s.q| && s.q[s.qh] < |s.nodes| && m in s.q + Children(s.Edges()) && m !in s.q
    ensures e in s.Edges() && e.child == m
  {
    hide PackState, Placed;
    var i :| 0 <= i < |s.Edges()| && Children(s.Edges())[i] == m;
    e := s.Edges()[i];
  }

  lemma SameByte(s: Placing, e: TrieEdge, f: TrieEdge)
    requires s.Ok() && s.qh < |s.q| && s.q[s.qh] < |s.nodes| && e in s.Edges() && f in s.Edges() && e.byte == f.byte
    ensures e == f
  {
  }

  lemma SlotsBefore(s: Placing)
    requires s.Ok()
    ensures Slots(s.slot0, s.check0, s.q) && Windows(s.slot0, s.base0, s.q) && FreeIsZero(s.base0, s.check0)
  {
  }

  /** A node queued before or just now: its slot was free exactly if it is new. */
  lemma SlotOf(s: Placing, m: nat)
    requires s.Ok() && s.Sizes() && m in s.q + Children(s.Edges())
    ensures m < |s.slot| && 0 <= s.slot[m] < |s.check| && s.check[s.slot[m]] != -1
    ensures m in s.q <==> s.check0[s.slot[m]] != -1
    ensures m in s.q ==> s.slot[m] == s.slot0[m]
  {
    hide s.Ok;
    if m in s.q {
      Unmoved(s, m);
    } else {
      var e := NewNode(s, m);
      ChildAt(s, e);
    }
  }

  lemma SlotsApart(s: Placing, m: nat, n: nat)
    requires s.Ok() && s.Sizes() && m in s.q + Children(s.Edges()) && n in s.q + Children(s.Edges())
    requires m < |s.slot| && n < |s.slot| && s.slot[m] == s.slot[n]
    ensures m == n
  {
    hide s.Ok;
    SlotOf(s, m);
    SlotOf(s, n);
    if m in s.q {
      SlotsBefore(s);
    } else {
      var e := NewNode(s, m);
      var f := NewNode(s, n);
      ChildAt(s, e);
      ChildAt(s, f);
      SameByte(s, e, f);
    }
  }

  lemma SlotsNext(s: Placing)
    requires s.Ok() && s.Sizes()
    ensures Slots(s.slot, s.check, s.q + Children(s.Edges()))
  {
    hide s.Ok;
    var q' := s.q + Children(s.Edges());
    SlotsBefore(s);
    forall m | m in q' ensures m < |s.slot| && 0 <= s.slot[m] < |s.check| && s.check[s.slot[m]] != -1 {
      SlotOf(s, m);
    }
    forall m, n | m in q' && n in q' && s.slot[m] == s.slot[n] ensures m == n {
      SlotsApart(s, m, n);
    }
    Unmoved(s, 0);
  }

  lemma WindowsNext(s: Placing)
    requires s.Ok() && s.Sizes()
    ensures Windows(s.slot, s.Base(), s.q + Children(s.Edges()))
  {
    hide s.Ok;
    var q', base := s.q + Children(s.Edges()), s.Base();
    SlotsBefore(s);
    PlacedInRange(s);
    forall m | m in q'
      ensures m < |s.slot| && 0 <= s.slot[m] < |base| && 0 <= base[s.slot[m]] && base[s.slot[m]] + 255 < |base|
    {
      SlotOf(s, m);
    }
  }

  lemma PlacedInRange(s: Placing)
    requires s.Ok()
    ensures 0 < s.b && s.b + 255 < |s.base0|
  {
  }

  lemma FreeNext(s: Placing)
    requires s.Ok() && s.Sizes()
    ensures FreeIsZero(s.Base(), s.check)
  {
    hide s.Ok;
    SlotsBefore(s);
    Unmoved(s, s.q[s.qh]);
    forall i | 0 <= i < |s.check| && s.check[i] == -1 ensures s.check0[i] == -1 {
      if s.check[i] != s.check0[i] {
        var e := SlotChanged(s, i);
        ChildAt(s, e);
      }
    }
  }

  /** Nodes already packed have all their children in the queue. */
  ghost predicate ChildrenQueued(nodes: seq<TrieNode>, q: seq<nat>, qh: nat)
    requires qh <= |q|
  {
    forall p, e :: p in q[..qh] && p < |nodes| && e in nodes[p].edges ==> e.child in q
  }

  lemma AllPackedBefore(s: Placing, p: nat, e: TrieEdge)
    requires s.Ok() && s.qh <= |s.q| && p in s.q[..s.qh] && p < |s.nodes| && e in s.nodes[p].edges
    ensures Packed(s.slot0, s.base0, s.check0, p, e)
  {
  }

  lemma PackedNext(s: Placing)
    requires s.Ok() && s.Sizes() && Distinct(s.q) && ChildrenQueued(s.nodes, s.q, s.qh)
    ensures AllPacked(s.nodes, s.slot, s.Base(), s.check, s.q[..s.qh + 1])
  {
    hide s.Ok;
    var nd := s.q[s.qh];
    SlotsBefore(s);
    assert s.q[..s.qh + 1] == s.q[..s.qh] + [nd];
    forall p, e | p in s.q[..s.qh + 1] && p < |s.nodes| && e in s.nodes[p].edges
      ensures Packed(s.slot, s.Base(), s.check, p, e)
    {
      Unmoved(s, p);
      if p in s.q[..s.qh] {
        AllPackedBefore(s, p, e);
        Unmoved(s, e.child);
      } else {
        ChildAt(s, e);
      }
    }
  }

  lemma OwnerBefore(s: Placing, i: nat) returns (p: nat, e: TrieEdge)
    requires s.Ok() && s.Sizes() && 0 < i < |s.check0| && s.check0[i] != -1
    ensures p in s.q[..s.qh] && p < |s.nodes| && p < |s.slot0| && e in s.nodes[p].edges && e.child < |s.slot0|
    ensures s.slot0[e.child] == i && s.check0[i] == s.slot0[p]
  {
    hide Slots, Windows, FreeIsZero, AllPacked, Placed, Distinct;
    assert Owned(s.nodes, s.slot0, s.check0, s.q[..s.qh], i);
    p, e :| p in s.q[..s.qh] && p < |s.nodes| && p < |s.slot0| && e in s.nodes[p].edges && e.child < |s.slot0|
            && s.slot0[e.child] == i && s.check0[i] == s.slot0[p];
  }

  lemma OwnedNext(s: Placing)
    requires s.Ok() && s.Sizes() && ChildrenQueued(s.nodes, s.q, s.qh)
    ensures AllOwned(s.nodes, s.slot, s.check, s.q[..s.qh + 1])
  {
    hide s.Ok;
    var nd := s.q[s.qh];
    Unmoved(s, nd);
    assert s.q[..s.qh + 1] == s.q[..s.qh] + [nd];
    forall i | 0 < i < |s.check| && s.check[i] != -1 ensures Owned(s.nodes, s.slot, s.check, s.q[..s.qh + 1], i) {
      if s.check[i] != s.check0[i] {
        var e := SlotChanged(s, i);
        ChildAt(s, e);
        assert nd in s.q[..s.qh + 1];
      } else {
        var p, e := OwnerBefore(s, i);
        Unmoved(s, p);
        Unmoved(s, e.child);
        assert p in s.q[..s.qh + 1];
      }
    }
  }

  lemma PackQueueChildren(nodes: seq<TrieNode>, paths: seq<seq<byte>>, q: seq<nat>, qh: nat)
    requires |nodes| == |paths| && PackQueue(nodes, paths, q, qh) && qh <= |q|
    ensures Distinct(q) && ChildrenQueued(nodes, q, qh)
  {
    if qh > 0 {
      hide Queue, Distinct, ChildrenQueued;
      assert q == [0] + q[1..];
      assert q[..qh] == [0] + q[1..][..qh - 1];
      QueueChildren(nodes, paths, q[1..], qh - 1);
      RootFirst(nodes, q, q[1..], qh);
    }
  }

  lemma QueueChildren(nodes: seq<TrieNode>, paths: seq<seq<byte>>, r: seq<nat>, n: nat)
    requires |nodes| == |paths| && Queue(nodes, paths, r, n)
    ensures n <= |r| && Distinct(r) && 0 !in r
    ensures forall p, e :: (p == 0 || p in r[..n]) && 0 <= p < |nodes| && e in nodes[p].edges ==> e.child in r
  {
  }

  lemma RootFirst(nodes: seq<TrieNode>, q: seq<nat>, r: seq<nat>, qh: nat)
    requires q == [0] + r && 0 < qh <= |q| && q[..qh] == [0] + r[..qh - 1] && Distinct(r) && 0 !in r
    requires forall p, e :: (p == 0 || p in r[..qh - 1]) && 0 <= p < |nodes| && e in nodes[p].edges ==> e.child in r
    ensures Distinct(q) && ChildrenQueued(nodes, q, qh)
  {
  }

  lemma PackNext(s: Placing, paths: seq<seq<byte>>)
    requires s.Ok() && s.Sizes() && |s.nodes| == |paths| && PackQueue(s.nodes, paths, s.q, s.qh)
    ensures PackState(s.nodes, s.slot, s.Base(), s.check, s.q + Children(s.Edges()), s.qh + 1)
  {
    SizesFacts(s);
    hide *;
    PackQueueChildren(s.nodes, paths, s.q, s.qh);
    SlotsNext(s);
    WindowsNext(s);
    PackedNext(s);
    OwnedNext(s);
    FreeNext(s);
    TakeLonger(s.q, Children(s.Edges()), s.qh + 1);
    MakePackState(s.nodes, s.slot, s.Base(), s.check, s.q + Children(s.Edges()), s.qh + 1);
  }

  lemma SizesFacts(s: Placing)
    requires s.Sizes()
    ensures s.qh + 1 <= |s.q| && |s.slot| == |s.nodes| && |s.Base()| >= 512 && s.q[s.qh] < |s.nodes|
  {
  }

  lemma TakeLonger(q: seq<nat>, r: seq<nat>, n: nat)
    requires n <= |q|
    ensures (q + r)[..n] == q[..n]
  {
  }

  lemma MakePackState(nodes: seq<TrieNode>, slot: seq<int>, base: seq<int>, check: seq<int>, q: seq<nat>, qh: nat)
    requires qh <= |q| && |slot| == |nodes| && 512 <= |base|
    requires Slots(slot, check, q) && Windows(slot, base, q) && FreeIsZero(base, check)
    requires AllOwned(nodes, slot, check, q[..qh]) && AllPacked(nodes, slot, base, check, q[..qh])
    ensures PackState(nodes, slot, base, check, q, qh)
  {
  }

  /** A leaf needs no window. */
  lemma PackLeaf(nodes: seq<TrieNode>, slot: seq<int>, base: seq<int>, check: seq<int>, q: seq<nat>, qh: nat)
    requires PackState(nodes, slot, base, check, q, qh) && qh < |q| && q[qh] < |nodes| && nodes[q[qh]].edges == []
    ensures PackState(nodes, slot, base, check, q, qh + 1)
  {
    hide Slots, Windows, FreeIsZero;
    assert q[..qh + 1] == q[..qh] + [q[qh]];
    forall i | 0 < i < |check| && check[i] != -1 ensures Owned(nodes, slot, check, q[..qh + 1], i) {
      assert Owned(nodes, slot, check, q[..qh], i);
    }
  }

  // ---- The packing loop ------------------------------------------------------------------

  /** The two arrays, and moving them to larger ones. */
  class Pool {
    var base: array<int>
    var check: array<int>

    ghost predicate Valid()
      reads this
    {
      base != check && base.Length == check.Length >= 512
    }

    lemma SameLength()
      requires Valid()
      ensures base.Length == check.Length
    {
    }

    constructor (nnodes: nat)
      ensures Valid() && fresh(base) && fresh(check)
      ensures forall i :: 0 <= i < base.Length ==> base[i] == 0
      ensures forall i :: 0 <= i < check.Length ==> check[i] == if i == 0 then 0 else -1
    {
      var cap := if nnodes * 2 < 512 then 512 else nnodes * 2;
      base := new int[cap](_ => 0);
      check := new int[cap](_ => -1);
      new;
      check[0] := 0;
    }

    /** da_grow: doubles the capacity until it covers needed; new entries are empty. */
    method Grow(needed: nat)
      requires Valid()
      modifies this
      ensures Valid() && needed <= base.Length
      ensures (base == old(base) && check == old(check)) || (fresh(base) && fresh(check))
      ensures Grown(old(base[..]), old(check[..]), base[..], check[..])
    {
      if needed <= base.Length {
        return;
      }
      var newCap := base.Length;
      while newCap < needed
        invariant base.Length <= newCap
      {
        newCap := newCap * 2;
      }
      var b, c := base, check;
      base := new int[newCap](i reads b => if 0 <= i < b.Length then b[i] else 0);
      check := new int[newCap](i reads c => if 0 <= i < c.Length then c[i] else -1);
    }
  }

  /** The search for a base whose slots are all free.  Beyond the end of the arrays as they
      were everything is free, so the search stops. */
  method FindBase(pool: Pool, edges: seq<TrieEdge>, nextBase: nat) returns (b: nat)
    requires pool.Valid() && 0 < nextBase
    modifies pool
    ensures pool.Valid() && 0 < b && b + 255 < pool.base.Length
    ensures (pool.base == old(pool.base) && pool.check == old(pool.check)) || (fresh(pool.base) && fresh(pool.check))
    ensures Grown(old(pool.base[..]), old(pool.check[..]), pool.base[..], pool.check[..])
    ensures forall e :: e in edges ==> pool.check[b + e.byte] == -1
  {
    b := nextBase;
    var ok := false;
    ghost var len0 := pool.base.Length;
    ghost var base0, check0 := pool.base[..], pool.check[..];
    while true
      invariant pool.Valid() && 0 < b
      invariant (pool.base == old(pool.base) && pool.check == old(pool.check))
                || (fresh(pool.base) && fresh(pool.check))
      invariant Grown(base0, check0, pool.base[..], pool.check[..])
      decreases len0 - b
    {
      hide Grown;
      label Turn:
      ghost var base1, check1 := pool.base[..], pool.check[..];
      pool.Grow(b + 256);
      GrownTwice(base0, check0, base1, check1, pool.base[..], pool.check[..]);
      ok := AllFree(pool.check, edges, b);
      if ok {
        return;
      }
      BeyondIsFree(base0, check0, pool.base[..], pool.check[..]);
      b := b + 1;
    }
  }

  lemma BeyondIsFree(base0: seq<int>, check0: seq<int>, base: seq<int>, check: seq<int>)
    requires Grown(base0, check0, base, check)
    ensures forall i :: |base0| <= i < |check| ==> check[i] == -1
  {
  }

  /** The inner loop of the base search. */
  method AllFree(check: array<int>, edges: seq<TrieEdge>, b: nat) returns (ok: bool)
    requires b + 255 < check.Length
    ensures ok <==> forall e :: e in edges ==> check[b + e.byte] == -1
  {
    for j := 0 to |edges|
      invariant forall i :: 0 <= i < j ==> check[b + edges[i].byte] == -1
    {
      if check[b + edges[j].byte] != -1 {
        return false;
      }
    }
    return true;
  }

  /** The loop that puts a node's children into their slots and on the queue. */
  method PlaceChildren(edges: seq<TrieEdge>, b: nat, parent: int, check: array<int>, slot: array<int>,
                       queue: array<nat>, qt0: nat) returns (qt: nat)
    requires check != slot && b + 255 < check.Length && Sorted(edges) && Distinct(Children(edges))
    requires forall e :: e in edges ==> e.child < slot.Length
    requires qt0 + |edges| <= queue.Length
    modifies check, slot, queue
    ensures qt <= queue.Length && queue[..qt] == old(queue[..qt0]) + Children(edges)
    ensures Placed(edges, |edges|, b, parent, old(slot[..]), old(check[..]), slot[..], check[..])
  {
    ghost var slot0, check0, q0 := slot[..], check[..], queue[..qt0];
    qt := qt0;
    PlacedNone(edges, b, parent, slot0, check0);
    NoneQueued(q0, edges);
    hide *;
    for j := 0 to |edges|
      invariant qt == qt0 + j && queue[..qt] == q0 + Children(edges)[..j]
      invariant Placed(edges, j, b, parent, slot0, check0, slot[..], check[..])
    {
      qt := PlaceChild(edges, j, b, parent, check, slot, queue, qt, q0, slot0, check0);
    }
    AllQueued(q0, edges);
  }

  lemma PlacedNone(edges: seq<TrieEdge>, b: nat, parent: int, slot: seq<int>, check: seq<int>)
    ensures Placed(edges, 0, b, parent, slot, check, slot, check)
  {
  }

  lemma NoneQueued(q: seq<nat>, edges: seq<TrieEdge>)
    ensures q + Children(edges)[..0] == q
  {
  }

  lemma AllQueued(q: seq<nat>, edges: seq<TrieEdge>)
    ensures q + Children(edges)[..|edges|] == q + Children(edges)
  {
  }

  /** One turn of that loop. */
  method PlaceChild(edges: seq<TrieEdge>, j: nat, b: nat, parent: int, check: array<int>, slot: array<int>,
                    queue: array<nat>, qt: nat, ghost q0: seq<nat>, ghost slot0: seq<int>, ghost check0: seq<int>)
      returns (qt': nat)
    requires check != slot && b + 255 < check.Length && Sorted(edges) && Distinct(Children(edges))
    requires j < |edges| && edges[j].child < slot.Length && qt < queue.Length
    requires queue[..qt] == q0 + Children(edges)[..j] && Placed(edges, j, b, parent, slot0, check0, slot[..], check[..])
    modifies check, slot, queue
    ensures qt' == qt + 1 && queue[..qt'] == q0 + Children(edges)[..j + 1]
    ensures Placed(edges, j + 1, b, parent, slot0, check0, slot[..], check[..])
  {
    hide *;
    var e := edges[j];
    DistinctChild(edges, j);
    PlacedNext(edges, j, b, parent, slot0, check0, slot[..], check[..]);
    AppendNext(q0, Children(edges), j);
    PlaceOne(check, slot, b + e.byte, parent, e.child);
    Enqueue(queue, qt, e.child);
    qt' := qt + 1;
  }

  /** The slots of these children at base b are free. */
  ghost predicate Free(check: seq<int>, b: int, edges: seq<TrieEdge>) {
    forall e :: e in edges ==> 0 <= b + e.byte < |check| && check[b + e.byte] == -1
  }

  lemma IsFree(check: seq<int>, b: int, edges: seq<TrieEdge>)
    requires 0 < b && b + 255 < |check| && forall e :: e in edges ==> check[b + e.byte] == -1
    ensures Free(check, b, edges)
  {
  }

  /** The children are nodes that were not queued before. */
  ghost predicate NewNodes(n: nat, q: seq<nat>, edges: seq<TrieEdge>) {
    forall e :: e in edges ==> e.child !in q && 0 < e.child < n
  }

  lemma DistinctChild(edges: seq<TrieEdge>, j: nat)
    requires Distinct(Children(edges)) && j < |edges|
    ensures Children(edges)[j] == edges[j].child
    ensures forall i :: 0 <= i < j ==> edges[i].child != edges[j].child
  {
    forall i | 0 <= i < j ensures edges[i].child != edges[j].child {
      assert Children(edges)[i] != Children(edges)[j];
    }
  }

  method PlaceOne(check: array<int>, slot: array<int>, s: nat, parent: int, child: nat)
    requires check != slot && s < check.Length && child < slot.Length
    modifies check, slot
    ensures check[..] == old(check[..])[s := parent] && slot[..] == old(slot[..])[child := s]
  {
    check[s] := parent;
    slot[child] := s;
  }

  lemma PackStart(nodes: seq<TrieNode>, slot: seq<int>, base: seq<int>, check: seq<int>)
    requires |slot| == |nodes| > 0 && slot[0] == 0 && 512 <= |base| == |check|
    requires forall i :: 0 <= i < |base| ==> base[i] == 0
    requires forall i :: 0 <= i < |check| ==> check[i] == if i == 0 then 0 else -1
    ensures PackState(nodes, slot, base, check, [0], 0)
  {
  }

  ghost predicate HasEdge(node: TrieNode, c: byte) {
    exists e :: e in node.edges && e.byte == c
  }

  /** In an empty trie the test for byte 0 at the root meets the root's own mark in slot 0. */
  ghost predicate OwnMark(nodes: seq<TrieNode>, base: seq<int>, m: nat, c: byte)
    requires |nodes| > 0 && |base| > 0
  {
    m == 0 && c == 0 && nodes[0].edges == [] && base[0] == 0
  }

  /** Every edge test of the packed array gives exactly the trie's edges and that one mark. */
  ghost predicate PackOk(nodes: seq<TrieNode>, slot: seq<int>, base: seq<int>, check: seq<int>) {
    && |slot| == |nodes| && |base| == |check| && 0 < |nodes| && 0 < |check| && slot[0] == 0 && check[0] == 0
    && (forall m :: 0 <= m < |nodes| ==> 0 <= slot[m] < |base| && 0 <= base[slot[m]] && base[slot[m]] + 255 < |base|)
    && (forall m, n :: 0 <= m < |nodes| && 0 <= n < |nodes| && slot[m] == slot[n] ==> m == n)
    && (forall m, e :: 0 <= m < |nodes| && e in nodes[m].edges ==> Packed(slot, base, check, m, e))
    && (forall m, c: byte :: 0 <= m < |nodes| ==>
          (check[base[slot[m]] + c] == slot[m] <==> HasEdge(nodes[m], c) || OwnMark(nodes, base, m, c)))
  }

  lemma PackEnd(nodes: seq<TrieNode>, paths: seq<seq<byte>>, slot: seq<int>, base: seq<int>, check: seq<int>,
                q: seq<nat>)
    requires Tree(nodes, paths) && PackQueue(nodes, paths, q, |q|) && PackState(nodes, slot, base, check, q, |q|)
    ensures PackOk(nodes, slot, base, check)
  {
    hide PackQueue, Tree;
    assert q[..|q|] == q;
    NodesQueued(nodes, paths, q);
    forall m, c: byte | 0 <= m < |nodes|
      ensures check[base[slot[m]] + c] == slot[m] <==> HasEdge(nodes[m], c) || OwnMark(nodes, base, m, c)
    {
      if check[base[slot[m]] + c] == slot[m] && !OwnMark(nodes, base, m, c) {
        TestedEdge(nodes, slot, base, check, q, m, c);
      }
      if HasEdge(nodes[m], c) {
        var e :| e in nodes[m].edges && e.byte == c;
        assert Packed(slot, base, check, m, e);
      }
    }
  }

  /** A successful test is an edge: only slot 0 is occupied without being some node's child. */
  lemma TestedEdge(nodes: seq<TrieNode>, slot: seq<int>, base: seq<int>, check: seq<int>, q: seq<nat>, m: nat, c: byte)
    requires PackState(nodes, slot, base, check, q, |q|) && m in q && m < |nodes|
    requires |nodes| > 0 && !OwnMark(nodes, base, m, c)
    requires base[slot[m]] + c < |check| && check[base[slot[m]] + c] == slot[m]
    ensures HasEdge(nodes[m], c)
  {
    assert q[..|q|] == q;
    var i := base[slot[m]] + c;
    if m == 0 && nodes[0].edges != [] {
      assert Packed(slot, base, check, m, nodes[0].edges[0]);
    }
    assert Owned(nodes, slot, check, q, i);
    var p, e :| p in q && p < |nodes| && p < |slot| && e in nodes[p].edges && e.child < |slot|
                && slot[e.child] == i && check[i] == slot[p];
    assert Packed(slot, base, check, p, e);
    assert p == m;
  }

  lemma NodesQueued(nodes: seq<TrieNode>, paths: seq<seq<byte>>, q: seq<nat>)
    requires Tree(nodes, paths) && PackQueue(nodes, paths, q, |q|)
    ensures 0 < |nodes| == |paths| && forall m :: 0 <= m < |nodes| ==> m in q
  {
    forall m | 0 <= m < |nodes| ensures m in q {
      PackQueueAll(nodes, paths, q, m);
    }
  }

  /** The packing loop before node q[qh]. */
  ghost predicate TurnReady(nodes: seq<TrieNode>, paths: seq<seq<byte>>, q: seq<nat>, qh: nat) {
    && qh < |q| && q[qh] < |nodes| == |paths| && Tree(nodes, paths)
    && Sorted(nodes[q[qh]].edges) && Distinct(Children(nodes[q[qh]].edges))
    && NewNodes(|nodes|, q, nodes[q[qh]].edges)
    && |q| + |nodes[q[qh]].edges| <= |nodes|
    && PackQueue(nodes, paths, q, qh) && PackQueue(nodes, paths, q + Children(nodes[q[qh]].edges), qh + 1)
  }

  lemma QueueReady(nodes: seq<TrieNode>, paths: seq<seq<byte>>, q: seq<nat>, qh: nat)
    requires Tree(nodes, paths) && |nodes| == |paths| && qh < |q| && PackQueue(nodes, paths, q, qh)
    ensures TurnReady(nodes, paths, q, qh)
  {
    PackQueueNext(nodes, paths, q, qh);
    ChildrenFacts(nodes, paths, q[qh]);
    NodeFacts(nodes, paths, q[qh]);
    hide PackQueue, Tree, Sorted, Distinct;
  }

  /** One turn of the packing loop. */
  method PackTurn(nodes: seq<TrieNode>, ghost paths: seq<seq<byte>>, pool: Pool, slot: array<int>, queue: array<nat>,
                  qh: nat, qt: nat, nextBase: nat) returns (qt': nat)
    requires Tree(nodes, paths) && |nodes| == |paths| == slot.Length == queue.Length && 0 < nextBase
    requires pool.Valid() && slot != pool.base && slot != pool.check
    requires qh < qt <= queue.Length && PackQueue(nodes, paths, queue[..qt], qh)
    requires PackState(nodes, slot[..], pool.base[..], pool.check[..], queue[..qt], qh)
    modifies pool, pool.base, pool.check, slot, queue
    ensures pool.Valid() && slot != pool.base && slot != pool.check
    ensures (pool.base == old(pool.base) && pool.check == old(pool.check)) || (fresh(pool.base) && fresh(pool.check))
    ensures qh < qt' <= queue.Length && PackQueue(nodes, paths, queue[..qt'], qh + 1)
    ensures PackState(nodes, slot[..], pool.base[..], pool.check[..], queue[..qt'], qh + 1)
  {
    ghost var q := queue[..qt];
    var nd := queue[qh];
    assert nd == q[qh];
    QueueReady(nodes, paths, q, qh);
    TurnFacts(nodes, paths, q, qh);
    var edges := nodes[nd].edges;
    hide *;
    if edges == [] {
      LeafQueue(q, edges);
      PackLeaf(nodes, slot[..], pool.base[..], pool.check[..], q, qh);
      return qt;
    }
    var b := RoomFor(nodes, pool, slot, edges, nextBase, q, qh);
    qt' := PackChildren(nodes, paths, pool, slot, queue, nd, b, qt, q, qh);
  }

  lemma TurnFacts(nodes: seq<TrieNode>, paths: seq<seq<byte>>, q: seq<nat>, qh: nat)
    requires TurnReady(nodes, paths, q, qh)
    ensures qh < |q| && q[qh] < |nodes| && PackQueue(nodes, paths, q + Children(nodes[q[qh]].edges), qh + 1)
  {
  }

  /** Finds a base with room for the children, growing the arrays if need be. */
  method RoomFor(nodes: seq<TrieNode>, pool: Pool, slot: array<int>, edges: seq<TrieEdge>, nextBase: nat,
                 ghost q: seq<nat>, ghost qh: nat) returns (b: nat)
    requires pool.Valid() && 0 < nextBase && slot != pool.base && slot != pool.check
    requires PackState(nodes, slot[..], pool.base[..], pool.check[..], q, qh)
    modifies pool
    ensures pool.Valid() && 0 < b && b + 255 < pool.base.Length && slot != pool.base && slot != pool.check
    ensures (pool.base == old(pool.base) && pool.check == old(pool.check)) || (fresh(pool.base) && fresh(pool.check))
    ensures Free(pool.check[..], b, edges)
    ensures PackState(nodes, slot[..], pool.base[..], pool.check[..], q, qh)
  {
    hide *;
    ghost var base0, check0, slot0 := pool.base[..], pool.check[..], slot[..];
    b := FindBase(pool, edges, nextBase);
    assert slot[..] == slot0;
    pool.SameLength();
    IsFree(pool.check[..], b, edges);
    PackGrown(nodes, slot0, base0, check0, pool.base[..], pool.check[..], q, qh);
  }

  /** Records the base of a node and places its children. */
  method PackChildren(nodes: seq<TrieNode>, ghost paths: seq<seq<byte>>, pool: Pool, slot: array<int>,
                      queue: array<nat>, nd: nat, b: nat, qt: nat, ghost q: seq<nat>, ghost qh: nat) returns (qt': nat)
    requires TurnReady(nodes, paths, q, qh) && nd == q[qh] && slot.Length == queue.Length == |nodes|
    requires pool.Valid() && slot != pool.base && slot != pool.check && qt <= queue.Length && queue[..qt] == q
    requires 0 < b && b + 255 < pool.base.Length && Free(pool.check[..], b, nodes[nd].edges)
    requires PackState(nodes, slot[..], pool.base[..], pool.check[..], q, qh)
    modifies pool.base, pool.check, slot, queue
    ensures qt <= qt' <= queue.Length && queue[..qt'] == q + Children(nodes[nd].edges)
    ensures PackState(nodes, slot[..], pool.base[..], pool.check[..], queue[..qt'], qh + 1)
  {
    ghost var slot1, base1, check1 := slot[..], pool.base[..], pool.check[..];
    var edges := nodes[nd].edges;
    ReadyEdges(nodes, paths, q, qh);
    ParentSlot(nodes, slot1, base1, check1, q, qh);
    hide *;
    var parent := slot[nd];
    pool.base[parent] := b;
    assert pool.base[..] == base1[parent := b];
    qt' := PlaceChildren(edges, b, parent, pool.check, slot, queue, qt);
    PackDone(nodes, paths, slot1, base1, check1, q, qh, b, slot[..], pool.check[..]);
  }

  lemma ReadyEdges(nodes: seq<TrieNode>, paths: seq<seq<byte>>, q: seq<nat>, qh: nat)
    requires TurnReady(nodes, paths, q, qh)
    ensures qh < |q| && q[qh] < |nodes|
    ensures var edges := nodes[q[qh]].edges;
            && Sorted(edges) && Distinct(Children(edges)) && |q| + |edges| <= |nodes|
            && NewNodes(|nodes|, q, edges) && forall e :: e in edges ==> e.child < |nodes|
    ensures Tree(nodes, paths) && |nodes| == |paths| && PackQueue(nodes, paths, q, qh)
  {
  }

  lemma PackDone(nodes: seq<TrieNode>, paths: seq<seq<byte>>, slot0: seq<int>, base0: seq<int>, check0: seq<int>,
                 q: seq<nat>, qh: nat, b: int, slot: seq<int>, check: seq<int>)
    requires TurnReady(nodes, paths, q, qh) && PackState(nodes, slot0, base0, check0, q, qh) && q[qh] < |slot0|
    requires 0 < b && b + 255 < |base0| == |check0| && Free(check0, b, nodes[q[qh]].edges)
    requires Placed(nodes[q[qh]].edges, |nodes[q[qh]].edges|, b, slot0[q[qh]], slot0, check0, slot, check)
    ensures 0 <= slot0[q[qh]] < |base0|
    ensures PackState(nodes, slot, base0[slot0[q[qh]] := b], check, q + Children(nodes[q[qh]].edges), qh + 1)
  {
    ghost var s := Placing(nodes, slot0, base0, check0, q, qh, b, slot, check);
    ParentSlot(nodes, slot0, base0, check0, q, qh);
    ReadyEdges(nodes, paths, q, qh);
    hide *;
    MakePlacing(s);
    PackNext(s, paths);
    BaseIs(s);
  }

  lemma LeafQueue(q: seq<nat>, edges: seq<TrieEdge>)
    requires edges == []
    ensures q + Children(edges) == q
  {
  }

  lemma ParentSlot(nodes: seq<TrieNode>, slot: seq<int>, base: seq<int>, check: seq<int>, q: seq<nat>, qh: nat)
    requires PackState(nodes, slot, base, check, q, qh) && qh < |q|
    ensures q[qh] < |slot| && 0 <= slot[q[qh]] < |base|
  {
  }

  lemma MakePlacing(s: Placing)
    requires PackState(s.nodes, s.slot0, s.base0, s.check0, s.q, s.qh) && s.qh < |s.q| && s.q[s.qh] < |s.nodes|
    requires 0 < s.b && s.b + 255 < |s.base0| == |s.check0| && s.q[s.qh] < |s.slot0|
    requires NewNodes(|s.nodes|, s.q, s.nodes[s.q[s.qh]].edges) && Free(s.check0, s.b, s.nodes[s.q[s.qh]].edges)
    requires Sorted(s.nodes[s.q[s.qh]].edges) && Distinct(Children(s.nodes[s.q[s.qh]].edges))
    requires Placed(s.nodes[s.q[s.qh]].edges, |s.nodes[s.q[s.qh]].edges|, s.b, s.slot0[s.q[s.qh]],
                    s.slot0, s.check0, s.slot, s.check)
    ensures s.Ok() && s.Sizes() && s.Edges() == s.nodes[s.q[s.qh]].edges
  {
    hide PackState, Placed, Sorted, Distinct;
    assert s.Ok();
    PlacingSizes(s);
  }

  lemma BaseIs(s: Placing)
    requires s.Sizes()
    ensures s.Base() == s.base0[s.slot0[s.q[s.qh]] := s.b]
  {
  }

  /** Skips the slots that are taken. */
  method FirstFree(check: array<int>, nextBase: nat) returns (b: nat)
    requires 0 < nextBase
    ensures nextBase <= b && (b < check.Length ==> check[b] == -1)
    ensures forall i :: nextBase <= i < b && i < check.Length ==> check[i] != -1
  {
    b := nextBase;
    while b < check.Length && check[b] != -1
      invariant nextBase <= b && forall i :: nextBase <= i < b && i < check.Length ==> check[i] != -1
    {
      b := b + 1;
    }
  }

  /** Phase 2 of build_automaton_from_trie. */
  method Pack(nodes: seq<TrieNode>, ghost paths: seq<seq<byte>>)
      returns (slots: seq<int>, base: seq<int>, check: seq<int>)
    requires Tree(nodes, paths) && 0 < |nodes| == |paths|
    ensures PackOk(nodes, slots, base, check)
  {
    var pool := new Pool(|nodes|);
    var slot := new int[|nodes|](i => if i == 0 then 0 else -1);
    var queue := new nat[|nodes|](_ => 0);
    var qh: nat, qt: nat := 0, 1;
    var nextBase := 1;
    PackStart(nodes, slot[..], pool.base[..], pool.check[..]);
    assert queue[..1] == [0];
    while qh < qt
      invariant qh <= qt <= queue.Length && pool.Valid() && 0 < nextBase
      invariant slot != pool.base && slot != pool.check && fresh(pool.base) && fresh(pool.check)
      invariant PackQueue(nodes, paths, queue[..qt], qh)
      invariant PackState(nodes, slot[..], pool.base[..], pool.check[..], queue[..qt], qh)
      decreases queue.Length - qh
    {
      hide *;
      qt := PackTurn(nodes, paths, pool, slot, queue, qh, qt, nextBase);
      qh := qh + 1;
      nextBase := FirstFree(pool.check, nextBase);
    }
    PackEnd(nodes, paths, slot[..], pool.base[..], pool.check[..], queue[..qt]);
    return slot[..], pool.base[..], pool.check[..];
  }
}
