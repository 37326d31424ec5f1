/** Phase 1 of the automaton's construction: a breadth-first walk over the trie that sets
    every node's failure link, depth and output chain. */
module FailureLinks {
  import opened Vocabulary
  import opened AhoCorasick
  import opened Trie

  // ---- What the walk computes for a node ----------------------------------------

  /** m's failure link is the longest proper suffix of its path that is itself a path. */
  ghost predicate Linked(paths: seq<seq<byte>>, d: Dict, fail: seq<nat>, depth: seq<nat>, m: nat)
    requires m < |paths| == |fail| == |depth|
  {
    && paths[m] != []
    && depth[m] == |paths[m]|
    && fail[m] < |paths| && paths[fail[m]] == LongestSuffix(d, paths[m][1..])
  }

  /** m's output chain lists the words its path ends with. */
  ghost predicate Emitted(paths: seq<seq<byte>>, d: Dict, output: seq<nat>, outputs: seq<AcOutput>, m: nat)
    requires m < |paths| == |output|
  {
    output[m] < |outputs| && Chain(outputs, output[m]) == SuffixMatches(d, paths[m])
  }

  // ---- The queue -----------------------------------------------------------------

  function Children(edges: seq<TrieEdge>): (q: seq<nat>)
    ensures |q| == |edges|
  {
    seq(|edges|, i requires 0 <= i < |edges| => edges[i].child)
  }

  ghost predicate Distinct(q: seq<nat>) {
    forall i, j :: 0 <= i < j < |q| ==> q[i] != q[j]
  }

  /** q[..qh] are the nodes already taken off the queue. */
  ghost predicate Queue(nodes: seq<TrieNode>, paths: seq<seq<byte>>, q: seq<nat>, qh: nat)
    requires |nodes| == |paths|
  {
    && qh <= |q| && Distinct(q)
    && (forall m :: m in q ==> 0 < m < |nodes|)
    && ByDepth(paths, q, qh)
    && (forall p, e :: 0 <= p < |nodes| && e in nodes[p].edges ==> (e.child in q <==> p == 0 || p in q[..qh]))
  }

  ghost predicate ByDepth(paths: seq<seq<byte>>, q: seq<nat>, qh: nat) {
    && qh <= |q| && (forall i :: 0 <= i < |q| ==> q[i] < |paths|)
    && (forall i, j :: 0 <= i < j < |q| ==> |paths[q[i]]| <= |paths[q[j]]|)
    && (qh < |q| ==> forall i :: 0 <= i < |q| ==> |paths[q[i]]| <= |paths[q[qh]]| + 1)
  }

  lemma ChildrenFacts(nodes: seq<TrieNode>, paths: seq<seq<byte>>, n: nat)
    requires Tree(nodes, paths) && n < |nodes|
    ensures var q := Children(nodes[n].edges);
            && Distinct(q)
            && (forall i :: 0 <= i < |q| ==> 0 < q[i] < |nodes| && |paths[q[i]]| == |paths[n]| + 1)
            && (forall e :: e in nodes[n].edges ==> e.child in q)
  {
    var edges := nodes[n].edges;
    var q := Children(edges);
    assert NodeOk(nodes, paths, n);
    forall i | 0 <= i < |q| ensures 0 < q[i] < |nodes| && paths[q[i]] == paths[n] + [edges[i].byte] {
      assert edges[i] in edges;
    }
    forall i, j | 0 <= i < j < |q| ensures q[i] != q[j] {
      assert Last(paths[q[i]]) == edges[i].byte && Last(paths[q[j]]) == edges[j].byte;
    }
    forall e | e in edges ensures e.child in q {
      var i :| 0 <= i < |edges| && edges[i] == e;
      assert q[i] == e.child;
    }
  }

  /** A child is reached from one node only. */
  lemma OneParent(nodes: seq<TrieNode>, paths: seq<seq<byte>>, n: nat, p: nat, e: TrieEdge, f: TrieEdge)
    requires Tree(nodes, paths) && n < |nodes| && p < |nodes|
    requires e in nodes[n].edges && f in nodes[p].edges && e.child == f.child
    ensures n == p
  {
    assert NodeOk(nodes, paths, n) && NodeOk(nodes, paths, p);
    assert paths[n] == (paths[n] + [e.byte])[..|paths[n]|];
    assert paths[p] == (paths[p] + [f.byte])[..|paths[p]|];
  }

  lemma ChildIn(nodes: seq<TrieNode>, paths: seq<seq<byte>>, n: nat, p: nat, e: TrieEdge)
    requires Tree(nodes, paths) && n < |nodes| && p < |nodes| && e in nodes[p].edges
    ensures e.child in Children(nodes[n].edges) <==> n == p
  {
    ChildrenFacts(nodes, paths, n);
    if e.child in Children(nodes[n].edges) {
      var i :| 0 <= i < |nodes[n].edges| && Children(nodes[n].edges)[i] == e.child;
      OneParent(nodes, paths, n, p, nodes[n].edges[i], e);
    }
  }

  lemma QueueStart(nodes: seq<TrieNode>, paths: seq<seq<byte>>)
    requires Tree(nodes, paths)
    ensures Queue(nodes, paths, Children(nodes[0].edges), 0)
  {
    var q := Children(nodes[0].edges);
    ChildrenFacts(nodes, paths, 0);
    forall p, e | 0 <= p < |nodes| && e in nodes[p].edges ensures e.child in q <==> p == 0 {
      ChildIn(nodes, paths, 0, p, e);
    }
  }

  lemma ByDepthNext(paths: seq<seq<byte>>, q: seq<nat>, qh: nat, cs: seq<nat>)
    requires ByDepth(paths, q, qh) && qh < |q|
    requires forall i :: 0 <= i < |cs| ==> cs[i] < |paths| && |paths[cs[i]]| == |paths[q[qh]]| + 1
    ensures ByDepth(paths, q + cs, qh + 1)
  {
  }

  lemma QueueNext(nodes: seq<TrieNode>, paths: seq<seq<byte>>, q: seq<nat>, qh: nat)
    requires Tree(nodes, paths) && Queue(nodes, paths, q, qh) && qh < |q|
    ensures q[qh] < |nodes| && Queue(nodes, paths, q + Children(nodes[q[qh]].edges), qh + 1)
  {
    hide ByDepth;
    assert q[qh] in q;
    var n := q[qh];
    var cs := Children(nodes[n].edges);
    var q' := q + cs;
    ChildrenFacts(nodes, paths, n);
    ByDepthNext(paths, q, qh, cs);
    assert q'[..qh + 1] == q[..qh] + [n];
    forall p, e | 0 <= p < |nodes| && e in nodes[p].edges ensures e.child in q' <==> p == 0 || p in q'[..qh + 1] {
      ChildIn(nodes, paths, n, p, e);
    }
    forall i, j | 0 <= i < j < |q'| ensures q'[i] != q'[j] {
      if i < |q| <= j {
        NotYetQueued(nodes, paths, q, qh, j - |q|);
      }
    }
  }

  lemma NotYetQueued(nodes: seq<TrieNode>, paths: seq<seq<byte>>, q: seq<nat>, qh: nat, j: nat)
    requires Tree(nodes, paths) && Queue(nodes, paths, q, qh) && qh < |q| && q[qh] < |nodes|
    requires j < |nodes[q[qh]].edges|
    ensures nodes[q[qh]].edges[j].child !in q
  {
    var e := nodes[q[qh]].edges[j];
    assert e in nodes[q[qh]].edges;
    assert q[qh] in q;
    assert q[qh] !in q[..qh];
  }

  /** Every node at most as deep as the next one is queued; the shallower ones are done. */
  lemma {:induction false} QueueCovers(nodes: seq<TrieNode>, paths: seq<seq<byte>>, q: seq<nat>, qh: nat, m: nat)
    requires Tree(nodes, paths) && Queue(nodes, paths, q, qh) && qh < |q|
    requires 0 < m < |nodes| && |paths[m]| <= |paths[q[qh]]|
    ensures m in q
    ensures |paths[m]| < |paths[q[qh]]| ==> m in q[..qh]
    decreases |paths[m]|
  {
    var p, c := Parent(nodes, paths, m);
    if p != 0 {
      QueueCovers(nodes, paths, q, qh, p);
    }
    assert TrieEdge(c, m).child in q;
    var i :| 0 <= i < |q| && q[i] == m;
    assert i < qh ==> m == q[..qh][i];
  }

  lemma {:induction false} QueueAll(nodes: seq<TrieNode>, paths: seq<seq<byte>>, q: seq<nat>, m: nat)
    requires Tree(nodes, paths) && Queue(nodes, paths, q, |q|) && 0 < m < |nodes|
    ensures m in q
    decreases |paths[m]|
  {
    var p, c := Parent(nodes, paths, m);
    if p != 0 {
      QueueAll(nodes, paths, q, p);
    }
    assert q[..|q|] == q;
    assert TrieEdge(c, m).child in q;
  }

  /** Distinct nodes fit in the queue array. */
  lemma QueueFits(q: seq<nat>, n: nat)
    requires Distinct(q) && 0 < n && forall m :: m in q ==> 0 < m < n
    ensures |q| < n
  {
    SetOfDistinct(q);
    SubsetOfRange(Elements(q), n);
  }

  ghost function Elements(q: seq<nat>): set<nat> {
    set m | m in q
  }

  lemma {:induction false} SetOfDistinct(q: seq<nat>)
    requires Distinct(q)
    ensures |Elements(q)| == |q|
  {
    if q != [] {
      var q', x := q[..|q| - 1], Last(q);
      SetOfDistinct(q');
      assert q == q' + [x];
      assert Elements(q) == Elements(q') + {x};
      assert x !in q';
    }
  }

  lemma {:induction false} SubsetOfRange(s: set<nat>, n: nat)
    requires n > 0 && forall m :: m in s ==> 0 < m < n
    ensures |s| < n
  {
    if n == 1 {
      assert s == {};
    } else {
      SubsetOfRange(s - {n - 1}, n - 1);
      assert s == (s - {n - 1}) + (s * {n - 1});
      assert s * {n - 1} == {} || s * {n - 1} == {n - 1};
    }
  }

  // ---- Output chains ---------------------------------------------------------------

  lemma {:induction false} ChainGrows(outputs: seq<AcOutput>, o: nat, x: AcOutput)
    requires ChainOk(outputs) && o < |outputs|
    ensures Chain(outputs + [x], o) == Chain(outputs, o)
  {
    if o > 0 {
      ChainGrows(outputs, outputs[o].next, x);
    }
  }

  /** The output entry of a node whose failure link's chain is complete. */
  method OutputEntry(token: Option<nat>, depth: nat, next: nat, outputs: seq<AcOutput>, ghost d: Dict,
                     ghost path: seq<byte>, ghost suffix: seq<byte>) returns (outputs': seq<AcOutput>, o: nat)
    requires ChainOk(outputs) && next < |outputs| && path != [] && depth == |path|
    requires token == if path in d then Some(d[path]) else None
    requires suffix == LongestSuffix(d, path[1..]) && Chain(outputs, next) == SuffixMatches(d, suffix)
    ensures ChainOk(outputs') && o < |outputs'|
    ensures Chain(outputs', o) == SuffixMatches(d, path)
    ensures outputs' == outputs || exists x :: outputs' == outputs + [x]
  {
    MatchesOfLongestSuffix(d, path[1..]);
    match token
    case Some(tok) =>
      o := |outputs|;
      var x := AcOutput(tok, depth, next);
      outputs' := outputs + [x];
      ChainGrows(outputs, next, x);
      assert Chain(outputs', o) == [Match(tok, depth)] + Chain(outputs', next);
    case None =>
      o := next;
      outputs' := outputs;
  }

  // ---- Failure links ----------------------------------------------------------------

  /** The failure chain of nd, followed to the link of its child ci on byte c. */
  method FailOf(nodes: seq<TrieNode>, ghost paths: seq<seq<byte>>, ghost d: Dict, fail: seq<nat>, ghost depth: seq<nat>,
                nd: nat, c: byte, ci: nat) returns (fs: nat)
    requires Spells(nodes, paths, d) && |nodes| == |fail| == |depth|
    requires 0 < nd < |nodes| && ci < |nodes| && paths[ci] == paths[nd] + [c]
    requires Linked(paths, d, fail, depth, nd)
    requires forall m :: 0 < m < |nodes| && |paths[m]| < |paths[nd]| ==> Linked(paths, d, fail, depth, m)
    ensures fs < |nodes| && paths[fs] == LongestSuffix(d, paths[ci][1..])
  {
    hide Spells, LongestSuffix, TrieWord;
    SpellsTree(nodes, paths, d);
    LongestSuffixIsSuffix(d, paths[nd][1..]);
    LongestSuffixStep(d, paths[nd][1..], c);
    assert paths[ci][1..] == paths[nd][1..] + [c];
    fs := fail[nd];
    while true
      invariant fs < |nodes| && |paths[fs]| < |paths[nd]|
      invariant LongestSuffix(d, paths[ci][1..]) == LongestSuffix(d, paths[fs] + [c])
      decreases |paths[fs]|
    {
      hide Tree;
      var child := FindChild(nodes, paths, fs, c);
      FailStep(nodes, paths, d, fs, c);
      if child >= 0 && child != ci {
        return child;
      }
      if fs == 0 {
        return 0;
      }
      assert Linked(paths, d, fail, depth, fs);
      fs := fail[fs];
    }
  }

  lemma SpellsTree(nodes: seq<TrieNode>, paths: seq<seq<byte>>, d: Dict)
    requires Spells(nodes, paths, d)
    ensures Tree(nodes, paths) && 0 < |nodes| == |paths| && TokensAt(nodes, paths, d)
  {
  }

  lemma FailStep(nodes: seq<TrieNode>, paths: seq<seq<byte>>, d: Dict, fs: nat, c: byte)
    requires Spells(nodes, paths, d) && fs < |nodes|
    ensures paths[fs] + [c] in paths ==> LongestSuffix(d, paths[fs] + [c]) == paths[fs] + [c]
    ensures paths[fs] + [c] !in paths && fs == 0 ==> LongestSuffix(d, paths[fs] + [c]) == paths[0]
    ensures paths[fs] + [c] !in paths && fs != 0 ==>
              && paths[fs] != []
              && LongestSuffix(d, paths[fs] + [c]) == LongestSuffix(d, LongestSuffix(d, paths[fs][1..]) + [c])
              && |LongestSuffix(d, paths[fs][1..])| < |paths[fs]|
  {
    SpellsTrieWords(nodes, paths, d, paths[fs] + [c]);
    if paths[fs] + [c] !in paths {
      if fs == 0 {
        ShortestSuffix(d, c);
      } else {
        assert paths[0] != paths[fs];
        FollowFail(d, paths[fs], c);
      }
    }
  }

  // ---- The walk -----------------------------------------------------------------------

  ghost predicate AllLinked(paths: seq<seq<byte>>, d: Dict, fail: seq<nat>, depth: seq<nat>, q: seq<nat>)
    requires |paths| == |fail| == |depth|
  {
    forall m :: m in q ==> m < |paths| && Linked(paths, d, fail, depth, m)
  }

  ghost predicate AllEmitted(paths: seq<seq<byte>>, d: Dict, output: seq<nat>, outputs: seq<AcOutput>, q: seq<nat>)
    requires |paths| == |output|
  {
    forall m :: m in q ==> m < |paths| && Emitted(paths, d, output, outputs, m)
  }

  /** Entries of nodes that are not children of n are as before. */
  ghost predicate SameElsewhere(was: seq<nat>, now: seq<nat>, cs: seq<nat>) {
    |was| == |now| && forall m :: 0 <= m < |was| && m !in cs ==> now[m] == was[m]
  }

  /** The loop over the root's children: they fail to the root, at depth 1. */
  method SeedRoot(nodes: seq<TrieNode>, ghost paths: seq<seq<byte>>, ghost d: Dict, fail: array<nat>, depth: array<nat>,
                  queue: array<nat>) returns (qt: nat)
    requires Spells(nodes, paths, d) && fail != depth && depth != queue && queue != fail
    requires fail.Length == depth.Length == queue.Length == |nodes|
    modifies fail, depth, queue
    ensures qt <= queue.Length && queue[..qt] == Children(nodes[0].edges)
    ensures AllLinked(paths, d, fail[..], depth[..], Children(nodes[0].edges))
    ensures SameElsewhere(old(fail[..]), fail[..], Children(nodes[0].edges))
    ensures SameElsewhere(old(depth[..]), depth[..], Children(nodes[0].edges))
  {
    hide *;
    RootChildren(nodes, paths, d);
    ghost var cs := Children(nodes[0].edges);
    var edges := nodes[0].edges;
    SeedStart(cs, fail[..], depth[..]);
    qt := 0;
    for j := 0 to |edges|
      invariant qt == j && queue[..qt] == cs[..j] && RootLinked(cs, j, fail[..], depth[..])
      invariant SameElsewhere(old(fail[..]), fail[..], cs) && SameElsewhere(old(depth[..]), depth[..], cs)
    {
      ghost var fail1, depth1 := fail[..], depth[..];
      SeedChild(edges, j, fail, depth, queue, cs);
      qt := qt + 1;
      SameTwice(old(fail[..]), fail1, fail[..], cs);
      SameTwice(old(depth[..]), depth1, depth[..], cs);
    }
    assert cs[..|edges|] == cs;
    RootDone(nodes, paths, d, fail[..], depth[..]);
  }

  lemma RootChildren(nodes: seq<TrieNode>, paths: seq<seq<byte>>, d: Dict)
    requires Spells(nodes, paths, d)
    ensures 0 < |nodes| == |paths| && |Children(nodes[0].edges)| == |nodes[0].edges| <= |nodes|
    ensures forall e :: e in nodes[0].edges ==> e.child < |nodes|
  {
    hide Spells, Queue, LongestSuffix;
    SpellsTree(nodes, paths, d);
    QueueStart(nodes, paths);
    RoomInQueue(nodes, paths, Children(nodes[0].edges), 0);
    ChildrenFacts(nodes, paths, 0);
  }

  lemma SameTwice(a: seq<nat>, b: seq<nat>, c: seq<nat>, cs: seq<nat>)
    requires SameElsewhere(a, b, cs) && SameElsewhere(b, c, cs)
    ensures SameElsewhere(a, c, cs)
  {
  }

  lemma SeedStart(cs: seq<nat>, fail: seq<nat>, depth: seq<nat>)
    ensures RootLinked(cs, 0, fail, depth) && SameElsewhere(fail, fail, cs) && SameElsewhere(depth, depth, cs)
  {
  }

  lemma RootDone(nodes: seq<TrieNode>, paths: seq<seq<byte>>, d: Dict, fail: seq<nat>, depth: seq<nat>)
    requires Spells(nodes, paths, d) && |fail| == |depth| == |nodes| && |nodes| > 0
    requires RootLinked(Children(nodes[0].edges), |nodes[0].edges|, fail, depth)
    ensures AllLinked(paths, d, fail, depth, Children(nodes[0].edges))
  {
    hide Spells, Queue, LongestSuffix;
    SpellsTree(nodes, paths, d);
    ChildrenFacts(nodes, paths, 0);
    LongestSuffixOfNothing(d);
  }

  /** The first j of these nodes fail to the root, at depth 1. */
  ghost predicate RootLinked(cs: seq<nat>, j: nat, fail: seq<nat>, depth: seq<nat>) {
    j <= |cs| && forall i :: 0 <= i < j ==> cs[i] < |fail| && cs[i] < |depth| && fail[cs[i]] == 0 && depth[cs[i]] == 1
  }

  /** One turn of that loop. */
  method SeedChild(edges: seq<TrieEdge>, j: nat, fail: array<nat>, depth: array<nat>, queue: array<nat>,
                   ghost cs: seq<nat>)
    requires j < |edges| && cs == Children(edges) && edges[j].child < fail.Length == depth.Length && j < queue.Length
    requires fail != depth && depth != queue && queue != fail
    requires queue[..j] == cs[..j] && RootLinked(cs, j, fail[..], depth[..])
    modifies fail, depth, queue
    ensures queue[..j + 1] == cs[..j + 1] && RootLinked(cs, j + 1, fail[..], depth[..])
    ensures SameElsewhere(old(fail[..]), fail[..], cs) && SameElsewhere(old(depth[..]), depth[..], cs)
  {
    var ci := edges[j].child;
    assert ci == cs[j];
    fail[ci] := 0;
    depth[ci] := 1;
    queue[j] := ci;
  }

  lemma LongestSuffixOfNothing(d: Dict)
    ensures LongestSuffix(d, []) == []
    ensures forall w: seq<byte> :: |w| == 1 ==> w[1..] == []
  {
  }

  lemma RoomInQueue(nodes: seq<TrieNode>, paths: seq<seq<byte>>, q: seq<nat>, qh: nat)
    requires Tree(nodes, paths) && Queue(nodes, paths, q, qh)
    ensures |q| < |nodes|
  {
    QueueFits(q, |nodes|);
  }

  /** queue[qt++] = x */
  method Enqueue(queue: array<nat>, qt: nat, x: nat)
    requires qt < queue.Length
    modifies queue
    ensures queue[..qt + 1] == old(queue[..qt]) + [x]
  {
    queue[qt] := x;
  }

  lemma AppendNext(q: seq<nat>, cs: seq<nat>, j: nat)
    requires j < |cs|
    ensures (q + cs[..j]) + [cs[j]] == q + cs[..j + 1]
  {
  }

  /** The first j children in cs are linked; everything else is as it was. */
  ghost predicate ChildrenLinked(paths: seq<seq<byte>>, d: Dict, fail0: seq<nat>, depth0: seq<nat>, fail: seq<nat>,
                                 depth: seq<nat>, cs: seq<nat>, j: nat)
    requires |paths| == |fail| == |depth| && j <= |cs|
  {
    && SameElsewhere(fail0, fail, cs) && SameElsewhere(depth0, depth, cs)
    && forall i :: 0 <= i < j ==> cs[i] < |paths| && Linked(paths, d, fail, depth, cs[i])
  }

  /** nd and every shallower node are linked. */
  ghost predicate ShallowLinked(paths: seq<seq<byte>>, d: Dict, fail: seq<nat>, depth: seq<nat>, nd: nat)
    requires nd < |paths| == |fail| == |depth|
  {
    && Linked(paths, d, fail, depth, nd)
    && forall m :: 0 < m < |paths| && |paths[m]| < |paths[nd]| ==> Linked(paths, d, fail, depth, m)
  }

  ghost predicate OneDeeper(paths: seq<seq<byte>>, cs: seq<nat>, nd: nat)
    requires nd < |paths|
  {
    Distinct(cs) && forall i :: 0 <= i < |cs| ==> cs[i] < |paths| && |paths[cs[i]]| == |paths[nd]| + 1
  }

  lemma ShallowStill(paths: seq<seq<byte>>, d: Dict, fail0: seq<nat>, depth0: seq<nat>, fail: seq<nat>, depth: seq<nat>,
                     cs: seq<nat>, nd: nat)
    requires nd < |paths| == |fail0| == |depth0| && ShallowLinked(paths, d, fail0, depth0, nd)
    requires SameElsewhere(fail0, fail, cs) && SameElsewhere(depth0, depth, cs) && OneDeeper(paths, cs, nd)
    ensures ShallowLinked(paths, d, fail, depth, nd)
  {
  }

  lemma ChildrenLinkedNext(paths: seq<seq<byte>>, d: Dict, fail0: seq<nat>, depth0: seq<nat>, fail: seq<nat>,
                           depth: seq<nat>, cs: seq<nat>, j: nat, nd: nat, fs: nat)
    requires |paths| == |fail| == |depth| && j < |cs| && nd < |paths| && OneDeeper(paths, cs, nd)
    requires ChildrenLinked(paths, d, fail0, depth0, fail, depth, cs, j)
    requires fs < |paths| && paths[fs] == LongestSuffix(d, paths[cs[j]][1..])
    ensures ChildrenLinked(paths, d, fail0, depth0, fail[cs[j] := fs], depth[cs[j] := |paths[nd]| + 1], cs, j + 1)
  {
  }

  /** One turn of the loop over the children: depth and failure link of child j. */
  method LinkChild(nodes: seq<TrieNode>, ghost paths: seq<seq<byte>>, ghost d: Dict, fail: array<nat>,
                   depth: array<nat>, ghost fail0: seq<nat>, ghost depth0: seq<nat>, ghost cs: seq<nat>, nd: nat,
                   j: nat)
    requires Spells(nodes, paths, d) && fail != depth && fail.Length == depth.Length == |nodes|
    requires 0 < nd < |nodes| && j < |nodes[nd].edges| && cs == Children(nodes[nd].edges)
    requires nd < |paths| == |fail0| == |depth0| && ShallowLinked(paths, d, fail0, depth0, nd)
    requires OneDeeper(paths, cs, nd)
    requires ChildrenLinked(paths, d, fail0, depth0, fail[..], depth[..], cs, j)
    modifies fail, depth
    ensures ChildrenLinked(paths, d, fail0, depth0, fail[..], depth[..], cs, j + 1)
  {
    hide Spells, LongestSuffix, Distinct;
    SpellsTree(nodes, paths, d);
    NodeFacts(nodes, paths, nd);
    hide Tree;
    var e := nodes[nd].edges[j];
    assert e in nodes[nd].edges;
    ShallowStill(paths, d, fail0, depth0, fail[..], depth[..], cs, nd);
    var fs := FailOf(nodes, paths, d, fail[..], depth[..], nd, e.byte, e.child);
    ChildrenLinkedNext(paths, d, fail0, depth0, fail[..], depth[..], cs, j, nd, fs);
    var below: nat := depth[nd] + 1;
    ghost var fail1, depth1 := fail[..], depth[..];
    assert depth[nd] == |paths[nd]|;
    hide ChildrenLinked, Linked, ShallowLinked, OneDeeper;
    depth[e.child] := below;
    fail[e.child] := fs;
    assert fail[..] == fail1[cs[j] := fs] && depth[..] == depth1[cs[j] := below];
  }

  /** The loop over the children of a node taken off the queue. */
  method EnqueueChildren(nodes: seq<TrieNode>, ghost paths: seq<seq<byte>>, ghost d: Dict,
                         fail: array<nat>, depth: array<nat>, queue: array<nat>, nd: nat, qt0: nat) returns (qt: nat)
    requires Spells(nodes, paths, d) && fail != depth && depth != queue && queue != fail
    requires fail.Length == depth.Length == queue.Length == |nodes| == |paths|
    requires 0 < nd < |nodes| && qt0 + |nodes[nd].edges| <= |nodes|
    requires ShallowLinked(paths, d, fail[..], depth[..], nd)
    modifies fail, depth, queue
    ensures qt <= queue.Length && queue[..qt] == old(queue[..qt0]) + Children(nodes[nd].edges)
    ensures ChildrenLinked(paths, d, old(fail[..]), old(depth[..]), fail[..], depth[..],
                           Children(nodes[nd].edges), |nodes[nd].edges|)
  {
    hide Spells, LongestSuffix, Queue, ShallowLinked;
    SpellsTree(nodes, paths, d);
    ghost var cs := Children(nodes[nd].edges);
    ghost var q0 := queue[..qt0];
    ghost var fail0, depth0 := fail[..], depth[..];
    ChildrenFacts(nodes, paths, nd);
    assert OneDeeper(paths, cs, nd);
    var edges := nodes[nd].edges;
    qt := qt0;
    assert ChildrenLinked(paths, d, fail0, depth0, fail[..], depth[..], cs, 0);
    hide *;
    assert q0 + cs[..0] == q0;
    for j := 0 to |edges|
      invariant qt == qt0 + j && queue[..qt] == q0 + cs[..j]
      invariant ChildrenLinked(paths, d, fail0, depth0, fail[..], depth[..], cs, j)
    {
      LinkChild(nodes, paths, d, fail, depth, fail0, depth0, cs, nd, j);
      assert edges[j].child == cs[j];
      Enqueue(queue, qt, edges[j].child);
      qt := qt + 1;
      AppendNext(q0, cs, j);
    }
    assert cs[..|edges|] == cs;
  }

  /** What holds between two turns of the walk, with q[..qh] taken off the queue. */
  ghost predicate WalkState(nodes: seq<TrieNode>, paths: seq<seq<byte>>, d: Dict, fail: seq<nat>, depth: seq<nat>,
                            output: seq<nat>, outputs: seq<AcOutput>, q: seq<nat>, qh: nat)
  {
    && 0 < |nodes| == |paths| == |fail| == |depth| == |output|
    && qh <= |q| && Queue(nodes, paths, q, qh)
    && AllLinked(paths, d, fail, depth, q)
    && AllEmitted(paths, d, output, outputs, q[..qh])
    && fail[0] == 0 && depth[0] == 0 && output[0] == 0
    && 0 < |outputs| && ChainOk(outputs)
  }

  lemma WalkStart(nodes: seq<TrieNode>, paths: seq<seq<byte>>, d: Dict, fail: seq<nat>, depth: seq<nat>,
                  output: seq<nat>, q: seq<nat>)
    requires Tree(nodes, paths) && |nodes| == |paths| == |fail| == |depth| == |output| && q == Children(nodes[0].edges)
    requires AllLinked(paths, d, fail, depth, q) && 0 < |fail| && fail[0] == 0 && depth[0] == 0 && output[0] == 0
    ensures WalkState(nodes, paths, d, fail, depth, output, [AcOutput(0, 0, 0)], q, 0)
  {
    QueueStart(nodes, paths);
  }

  /** The next node's failure link is a node whose output chain is complete, and all
      shallower nodes are linked. */
  lemma NextReady(nodes: seq<TrieNode>, paths: seq<seq<byte>>, d: Dict, fail: seq<nat>, depth: seq<nat>,
                  output: seq<nat>, outputs: seq<AcOutput>, q: seq<nat>, qh: nat)
    requires Spells(nodes, paths, d) && WalkState(nodes, paths, d, fail, depth, output, outputs, q, qh) && qh < |q|
    ensures 0 < q[qh] < |nodes| && ShallowLinked(paths, d, fail, depth, q[qh])
    ensures var next := output[fail[q[qh]]];
            next < |outputs| && Chain(outputs, next) == SuffixMatches(d, paths[fail[q[qh]]])
    ensures |q| + |nodes[q[qh]].edges| <= |nodes|
  {
    var nd := q[qh];
    assert nd in q;
    QueueNext(nodes, paths, q, qh);
    RoomInQueue(nodes, paths, q + Children(nodes[nd].edges), qh + 1);
    forall m | 0 < m < |paths| && |paths[m]| < |paths[nd]| ensures Linked(paths, d, fail, depth, m) {
      QueueCovers(nodes, paths, q, qh, m);
    }
    var f := fail[nd];
    LongestSuffixIsSuffix(d, paths[nd][1..]);
    if f != 0 {
      QueueCovers(nodes, paths, q, qh, f);
      assert Emitted(paths, d, output, outputs, f);
    }
  }

  lemma EmittedNext(paths: seq<seq<byte>>, d: Dict, output: seq<nat>, outputs: seq<AcOutput>, q: seq<nat>, qh: nat,
                    outputs': seq<AcOutput>, o: nat)
    requires |paths| == |output| && qh < |q| && q[qh] < |paths| && ChainOk(outputs)
    requires AllEmitted(paths, d, output, outputs, q[..qh])
    requires outputs' == outputs || exists x :: outputs' == outputs + [x]
    requires o < |outputs'| && Chain(outputs', o) == SuffixMatches(d, paths[q[qh]])
    ensures AllEmitted(paths, d, output[q[qh] := o], outputs', q[..qh + 1])
  {
    var output', taken := output[q[qh] := o], q[..qh + 1];
    assert taken == q[..qh] + [q[qh]];
    forall m | m in taken ensures m < |paths| && Emitted(paths, d, output', outputs', m) {
      if m != q[qh] {
        assert m in q[..qh];
        assert Emitted(paths, d, output, outputs, m);
        if outputs' != outputs {
          var x :| outputs' == outputs + [x];
          ChainGrows(outputs, output[m], x);
        }
      }
    }
  }

  lemma LinkedNext(nodes: seq<TrieNode>, paths: seq<seq<byte>>, d: Dict, fail: seq<nat>, depth: seq<nat>,
                   fail': seq<nat>, depth': seq<nat>, q: seq<nat>, nd: nat)
    requires Tree(nodes, paths) && nd < |nodes| == |paths| == |fail| == |depth| == |fail'| == |depth'|
    requires AllLinked(paths, d, fail, depth, q)
    requires ChildrenLinked(paths, d, fail, depth, fail', depth', Children(nodes[nd].edges), |nodes[nd].edges|)
    ensures AllLinked(paths, d, fail', depth', q + Children(nodes[nd].edges))
    ensures fail'[0] == fail[0] && depth'[0] == depth[0]
  {
  }

  /** Everything the walk leaves behind is right for every node. */
  ghost predicate LinksOk(nodes: seq<TrieNode>, paths: seq<seq<byte>>, d: Dict, fail: seq<nat>, depth: seq<nat>,
                          output: seq<nat>, outputs: seq<AcOutput>)
  {
    && 0 < |nodes| == |paths| == |fail| == |depth| == |output|
    && (forall m :: 0 < m < |nodes| ==> Linked(paths, d, fail, depth, m))
    && (forall m :: 0 <= m < |nodes| ==> Emitted(paths, d, output, outputs, m))
    && fail[0] == 0 && depth[0] == 0 && ChainOk(outputs)
  }

  lemma WalkEnd(nodes: seq<TrieNode>, paths: seq<seq<byte>>, d: Dict, fail: seq<nat>, depth: seq<nat>, output: seq<nat>,
                outputs: seq<AcOutput>, q: seq<nat>)
    requires Tree(nodes, paths) && WalkState(nodes, paths, d, fail, depth, output, outputs, q, |q|)
    ensures LinksOk(nodes, paths, d, fail, depth, output, outputs)
  {
    assert q[..|q|] == q;
    forall m | 0 < m < |nodes| ensures Linked(paths, d, fail, depth, m) && Emitted(paths, d, output, outputs, m) {
      QueueAll(nodes, paths, q, m);
    }
  }

  /** Phase 1 of build_automaton_from_trie. */
  method BuildLinks(nodes: seq<TrieNode>, ghost paths: seq<seq<byte>>, ghost d: Dict)
      returns (fails: seq<nat>, depths: seq<nat>, chains: seq<nat>, outputs: seq<AcOutput>)
    requires Spells(nodes, paths, d)
    ensures LinksOk(nodes, paths, d, fails, depths, chains, outputs)
  {
    SpellsTree(nodes, paths, d);
    hide *;
    var fail, depth, output := new nat[|nodes|](_ => 0), new nat[|nodes|](_ => 0), new nat[|nodes|](_ => 0);
    var queue := new nat[|nodes|](_ => 0);
    outputs := [AcOutput(0, 0, 0)];
    var qh: nat := 0;
    ghost var fail0, depth0 := fail[..], depth[..];
    var qt := SeedRoot(nodes, paths, d, fail, depth, queue);
    RootUntouched(nodes, paths, fail0, depth0, fail[..], depth[..]);
    WalkStart(nodes, paths, d, fail[..], depth[..], output[..], queue[..qt]);
    while qh < qt
      invariant qt <= queue.Length && qh <= qt
      invariant WalkState(nodes, paths, d, fail[..], depth[..], output[..], outputs, queue[..qt], qh)
      decreases queue.Length - qh
    {
      qt, outputs := WalkTurn(nodes, paths, d, fail, depth, output, outputs, queue, qh, qt);
      qh := qh + 1;
    }
    assert |queue[..qt]| == qh;
    WalkEnd(nodes, paths, d, fail[..], depth[..], output[..], outputs, queue[..qt]);
    return fail[..], depth[..], output[..], outputs;
  }

  lemma RootUntouched(nodes: seq<TrieNode>, paths: seq<seq<byte>>, fail: seq<nat>, depth: seq<nat>, fail': seq<nat>,
                      depth': seq<nat>)
    requires Tree(nodes, paths) && |nodes| == |fail| == |depth| && 0 < |nodes|
    requires SameElsewhere(fail, fail', Children(nodes[0].edges))
    requires SameElsewhere(depth, depth', Children(nodes[0].edges))
    ensures |fail'| == |fail| && |depth'| == |depth| && fail'[0] == fail[0] && depth'[0] == depth[0]
  {
    ChildrenFacts(nodes, paths, 0);
  }

  /** One turn of the breadth-first loop: take nd off the queue, give it its output chain
      and put its children on the queue with their failure links. */
  method WalkTurn(nodes: seq<TrieNode>, ghost paths: seq<seq<byte>>, ghost d: Dict, fail: array<nat>, depth: array<nat>,
                  output: array<nat>, outputs: seq<AcOutput>, queue: array<nat>, qh: nat, qt: nat)
      returns (qt': nat, outputs': seq<AcOutput>)
    requires Spells(nodes, paths, d) && fail != depth && depth != queue && queue != fail
    requires output != fail && output != depth && output != queue
    requires fail.Length == depth.Length == queue.Length == output.Length == |nodes|
    requires qh < qt <= queue.Length
    requires WalkState(nodes, paths, d, fail[..], depth[..], output[..], outputs, queue[..qt], qh)
    modifies fail, depth, output, queue
    ensures qh < qt' <= queue.Length
    ensures WalkState(nodes, paths, d, fail[..], depth[..], output[..], outputs', queue[..qt'], qh + 1)
  {
    ghost var q := queue[..qt];
    ghost var fail0, depth0, output0 := fail[..], depth[..], output[..];
    SpellsTree(nodes, paths, d);
    NextReady(nodes, paths, d, fail0, depth0, output0, outputs, q, qh);
    QueueNext(nodes, paths, q, qh);
    hide Spells, Tree, Queue, LongestSuffix, SuffixMatches, AllEmitted, AllLinked, ChainOk, ChildrenLinked;
    var nd := queue[qh];
    assert nd == q[qh];
    TokenFacts(nodes, paths, d, nd);
    assert Linked(paths, d, fail0, depth0, nd);
    var o;
    outputs', o := OutputEntry(nodes[nd].token, depth[nd], output[fail[nd]], outputs, d, paths[nd], paths[fail[nd]]);
    EmittedNext(paths, d, output0, outputs, q, qh, outputs', o);
    output[nd] := o;
    assert output[..] == output0[nd := o];
    qt' := EnqueueChildren(nodes, paths, d, fail, depth, queue, nd, qt);
    LinkedNext(nodes, paths, d, fail0, depth0, fail[..], depth[..], q, nd);
    assert queue[..qt'][..qh + 1] == q[..qh + 1];
  }
}
