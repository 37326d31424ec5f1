/** Preorder numbering of a tree. */
module TreeNumbering {

  // The nodes are 0, 1, ..., n-1 and parents are smaller: the tree of prefixes, each pointing
  // to the prefix before its last token.

  /** Every node but the root 0 has a smaller parent. */
  ghost predicate IsTree(par: seq<nat>) {
    par != [] && forall i :: 0 < i < |par| ==> par[i] < i
  }

  /** a is b or an ancestor of b. */
  ghost predicate Ancestor(par: seq<nat>, a: nat, b: nat)
    requires IsTree(par) && b < |par|
    decreases b
  {
    a == b || (b > 0 && Ancestor(par, a, par[b]))
  }

  /** The number of nodes below and including i. */
  ghost function Size(par: seq<nat>, i: nat): (r: nat)
    requires IsTree(par) && i < |par|
    ensures r > 0
    decreases |par| - i, |par| + 1
  {
    1 + ChildSum(par, i, |par|)
  }

  /** The sizes of i's children below m, added up. */
  ghost function ChildSum(par: seq<nat>, i: nat, m: nat): nat
    requires IsTree(par) && i < |par| && m <= |par|
    decreases |par| - i, m
  {
    if m <= i + 1 then 0
    else ChildSum(par, i, m - 1) + if par[m - 1] == i then Size(par, m - 1) else 0
  }

  /** Preorder number. */
  ghost function Id(par: seq<nat>, i: nat): nat
    requires IsTree(par) && i < |par|
    decreases i
  {
    if i == 0 then 0 else Id(par, par[i]) + 1 + ChildSum(par, par[i], i)
  }

  ghost function End(par: seq<nat>, i: nat): nat
    requires IsTree(par) && i < |par|
  {
    Id(par, i) + Size(par, i)
  }

  ghost function Depth(par: seq<nat>, i: nat): nat
    requires IsTree(par) && i < |par|
    decreases i
  {
    if i == 0 then 0 else Depth(par, par[i]) + 1
  }

  // ---- Intervals nest or are disjoint ------------------------------------------------

  lemma {:induction false} ChildSumMonotone(par: seq<nat>, i: nat, m: nat, m': nat)
    requires IsTree(par) && i < |par| && m <= m' <= |par|
    ensures ChildSum(par, i, m) <= ChildSum(par, i, m')
    decreases m'
  {
    if m < m' {
      ChildSumMonotone(par, i, m, m' - 1);
    }
  }

  lemma ChildInterval(par: seq<nat>, c: nat)
    requires IsTree(par) && 0 < c < |par|
    ensures Id(par, par[c]) < Id(par, c) && End(par, c) <= End(par, par[c])
    ensures End(par, c) == Id(par, par[c]) + 1 + ChildSum(par, par[c], c + 1)
  {
    ChildSumMonotone(par, par[c], c + 1, |par|);
  }

  lemma {:induction false} Nested(par: seq<nat>, a: nat, b: nat)
    requires IsTree(par) && b < |par| && Ancestor(par, a, b)
    ensures a <= b && Id(par, a) <= Id(par, b) && End(par, b) <= End(par, a)
    ensures a != b ==> Id(par, a) < Id(par, b)
    decreases b
  {
    if a != b {
      Nested(par, a, par[b]);
      ChildInterval(par, b);
    }
  }

  lemma Siblings(par: seq<nat>, c: nat, d: nat)
    requires IsTree(par) && 0 < c < d < |par| && par[c] == par[d]
    ensures End(par, c) <= Id(par, d)
  {
    ChildInterval(par, c);
    ChildSumMonotone(par, par[c], c + 1, d);
  }

  /** The child of a through which b hangs below it. */
  lemma {:induction false} ChildTowards(par: seq<nat>, a: nat, b: nat) returns (c: nat)
    requires IsTree(par) && b < |par| && Ancestor(par, a, b) && a != b
    ensures 0 < c <= b && par[c] == a && Ancestor(par, c, b)
    decreases b
  {
    if par[b] == a {
      c := b;
    } else {
      c := ChildTowards(par, a, par[b]);
      Nested(par, c, par[b]);
    }
  }

  lemma {:induction false} Laminar(par: seq<nat>, i: nat, j: nat)
    requires IsTree(par) && i < j < |par|
    ensures Ancestor(par, i, j) || End(par, i) <= Id(par, j) || End(par, j) <= Id(par, i)
    decreases j
  {
    var p := par[j];
    ChildInterval(par, j);
    if Ancestor(par, i, p) {
    } else if p < i && Ancestor(par, p, i) {
      var c := ChildTowards(par, p, i);
      Nested(par, c, i);
      Siblings(par, c, j);
    } else if p < i {
      Laminar(par, p, i);
    } else if i < p {
      Laminar(par, i, p);
    }
  }

  /** The interval test decides ancestry. */
  lemma AncestorTest(par: seq<nat>, a: nat, b: nat)
    requires IsTree(par) && a < |par| && b < |par|
    ensures Ancestor(par, a, b) <==> Id(par, a) <= Id(par, b) < End(par, a)
  {
    if Ancestor(par, a, b) {
      Nested(par, a, b);
    } else if a < b {
      Laminar(par, a, b);
    } else {
      Laminar(par, b, a);
      if Ancestor(par, b, a) {
        Nested(par, b, a);
      }
    }
  }

  lemma {:induction false} AncestorTransitive(par: seq<nat>, a: nat, b: nat, c: nat)
    requires IsTree(par) && c < |par| && b < |par| && Ancestor(par, a, b) && Ancestor(par, b, c)
    ensures Ancestor(par, a, c)
    decreases c
  {
    if b != c {
      AncestorTransitive(par, a, b, par[c]);
    }
  }

  lemma {:induction false} RootAncestor(par: seq<nat>, b: nat)
    requires IsTree(par) && b < |par|
    ensures Ancestor(par, 0, b)
    decreases b
  {
    if b > 0 {
      RootAncestor(par, par[b]);
    }
  }

  // ---- Sizes count descendants, so the numbers are a permutation -----------------------

  ghost function Descendants(par: seq<nat>, i: nat): set<nat>
    requires IsTree(par) && i < |par|
  {
    set j | 0 <= j < |par| && Ancestor(par, i, j)
  }

  /** i and its descendants through children below m. */
  ghost function DescendantsBelow(par: seq<nat>, i: nat, m: nat): set<nat>
    requires IsTree(par) && i < |par| && m <= |par|
  {
    set j | 0 <= j < |par| && (j == i || Through(par, i, j, m))
  }

  ghost predicate Through(par: seq<nat>, i: nat, j: nat, m: nat)
    requires IsTree(par) && j < |par| && m <= |par|
  {
    exists c :: 0 < c < m && par[c] == i && Ancestor(par, c, j)
  }

  lemma {:induction false} SizeCounts(par: seq<nat>, i: nat)
    requires IsTree(par) && i < |par|
    ensures Size(par, i) == |Descendants(par, i)|
    decreases |par| - i, |par| + 1
  {
    ChildSumCounts(par, i, |par|);
    forall j | 0 <= j < |par|
      ensures Ancestor(par, i, j) <==> j == i || Through(par, i, j, |par|)
    {
      if j != i && Ancestor(par, i, j) {
        var c := ChildTowards(par, i, j);
      } else if Through(par, i, j, |par|) {
        var c :| 0 < c < |par| && par[c] == i && Ancestor(par, c, j);
        AncestorTransitive(par, i, c, j);
      }
    }
    assert Descendants(par, i) == DescendantsBelow(par, i, |par|);
  }

  lemma {:induction false} ChildSumCounts(par: seq<nat>, i: nat, m: nat)
    requires IsTree(par) && i < |par| && m <= |par|
    ensures 1 + ChildSum(par, i, m) == |DescendantsBelow(par, i, m)|
    decreases |par| - i, m
  {
    if m <= i + 1 {
      forall j | 0 <= j < |par| ensures !Through(par, i, j, m) {
      }
      assert DescendantsBelow(par, i, m) == {i};
    } else {
      var c := m - 1;
      ChildSumCounts(par, i, c);
      BelowNext(par, i, c);
      if par[c] == i {
        SizeCounts(par, c);
        BelowDisjoint(par, i, c);
      }
    }
  }

  lemma BelowNext(par: seq<nat>, i: nat, c: nat)
    requires IsTree(par) && i < |par| && 0 < c < |par|
    ensures DescendantsBelow(par, i, c + 1) ==
            if par[c] == i then DescendantsBelow(par, i, c) + Descendants(par, c) else DescendantsBelow(par, i, c)
  {
  }

  lemma BelowDisjoint(par: seq<nat>, i: nat, c: nat)
    requires IsTree(par) && i < c < |par| && par[c] == i
    ensures DescendantsBelow(par, i, c) !! Descendants(par, c)
  {
    forall j | j in DescendantsBelow(par, i, c) && j in Descendants(par, c) ensures false {
      Nested(par, c, j);
      var b :| 0 < b < c && par[b] == i && Ancestor(par, b, j);
      Siblings(par, b, c);
      Nested(par, b, j);
    }
  }

  /** The numbers of n nodes are distinct and below n. */
  lemma IdsArePermutation(par: seq<nat>)
    requires IsTree(par)
    ensures forall i :: 0 <= i < |par| ==> Id(par, i) < |par|
    ensures forall i, j :: 0 <= i < j < |par| ==> Id(par, i) != Id(par, j)
  {
    SizeOfAll(par);
    forall i | 0 <= i < |par| ensures Id(par, i) < |par| {
      RootAncestor(par, i);
      Nested(par, 0, i);
    }
    forall i, j | 0 <= i < j < |par| ensures Id(par, i) != Id(par, j) {
      Laminar(par, i, j);
      if Ancestor(par, i, j) {
        Nested(par, i, j);
      }
    }
  }

  lemma SizeOfAll(par: seq<nat>)
    requires IsTree(par)
    ensures Size(par, 0) == |par|
  {
    SizeCounts(par, 0);
    forall j | 0 <= j < |par| ensures Ancestor(par, 0, j) {
      RootAncestor(par, j);
    }
    RangeSize(|par|);
    assert Descendants(par, 0) == Range(|par|);
  }

  ghost function Range(n: nat): set<nat> {
    if n == 0 then {} else Range(n - 1) + {n - 1}
  }

  lemma {:induction false} RangeSize(n: nat)
    ensures |Range(n)| == n
    ensures forall j: nat :: j in Range(n) <==> j < n
  {
    if n > 0 {
      RangeSize(n - 1);
    }
  }

  // ---- The loops of interval_encoding_new ------------------------------------------------

  lemma ChildSumStep(par: seq<nat>, c: nat)
    requires IsTree(par) && 0 < c < |par|
    ensures forall i :: 0 <= i < |par| ==>
              ChildSum(par, i, c + 1) == ChildSum(par, i, c) + if par[c] == i then Size(par, c) else 0
  {
  }

  /** The bottom-up loop. */
  method SubtreeSizes(par: seq<nat>) returns (size: seq<nat>)
    requires IsTree(par)
    ensures |size| == |par| && forall i :: 0 <= i < |par| ==> size[i] == Size(par, i)
  {
    var tree_size := new nat[|par|](_ => 1);
    var id: nat := |par| - 1;
    while id > 0
      invariant id < |par|
      invariant forall i :: 0 <= i < |par| ==> tree_size[i] == 1 + ChildSum(par, i, |par|) - ChildSum(par, i, id + 1)
    {
      ChildSumStep(par, id);
      var parent := par[id];
      tree_size[parent] := tree_size[parent] + tree_size[id];
      id := id - 1;
    }
    size := tree_size[..];
  }

  /** Nodes below id are numbered; their ends cover the children placed so far. */
  ghost predicate NumberedTo(par: seq<nat>, id: nat, ids: seq<nat>, ends: seq<nat>, depths: seq<nat>)
    requires IsTree(par)
  {
    && |ids| == |ends| == |depths| == |par| && id <= |par|
    && forall i :: 0 <= i < id ==>
         ids[i] == Id(par, i) && depths[i] == Depth(par, i) && ends[i] == Id(par, i) + 1 + ChildSum(par, i, id)
  }

  lemma NumberNext(par: seq<nat>, id: nat, ids: seq<nat>, ends: seq<nat>, depths: seq<nat>)
    requires IsTree(par) && 0 < id < |par| && NumberedTo(par, id, ids, ends, depths)
    ensures var p := par[id];
            NumberedTo(par, id + 1, ids[id := ends[p]], ends[id := ends[p] + 1][p := ends[p] + Size(par, id)],
                       depths[id := depths[p] + 1])
  {
  }

  lemma ParentBelow(par: seq<nat>, i: nat)
    requires IsTree(par) && 0 < i < |par|
    ensures par[i] < i
  {
  }

  /** The top-down loop: numbers, ends and depths. */
  method Number(par: seq<nat>, size: seq<nat>) returns (ids: seq<nat>, ends: seq<nat>, depths: seq<nat>)
    requires IsTree(par) && |size| == |par| && forall i :: 0 <= i < |par| ==> size[i] == Size(par, i)
    ensures |ids| == |ends| == |depths| == |par|
    ensures forall i :: 0 <= i < |par| ==> ids[i] == Id(par, i) && ends[i] == End(par, i) && depths[i] == Depth(par, i)
  {
    var tree_id, tree_end, tree_depth := new nat[|par|](_ => 0), new nat[|par|](_ => 0), new nat[|par|](_ => 0);
    tree_id[0], tree_end[0], tree_depth[0] := 0, 1, 0;
    for id := 1 to |par|
      invariant NumberedTo(par, id, tree_id[..], tree_end[..], tree_depth[..])
    {
      hide *;
      NumberOne(par, size[id], id, tree_id, tree_end, tree_depth);
    }
    return tree_id[..], tree_end[..], tree_depth[..];
  }

  /** One turn of the top-down loop. */
  method NumberOne(par: seq<nat>, size: nat, id: nat, tree_id: array<nat>, tree_end: array<nat>, tree_depth: array<nat>)
    requires IsTree(par) && 0 < id < |par| && size == Size(par, id)
    requires tree_id != tree_end && tree_end != tree_depth && tree_depth != tree_id
    requires tree_id.Length == tree_end.Length == tree_depth.Length == |par|
    requires NumberedTo(par, id, tree_id[..], tree_end[..], tree_depth[..])
    modifies tree_id, tree_end, tree_depth
    ensures NumberedTo(par, id + 1, tree_id[..], tree_end[..], tree_depth[..])
  {
    hide *;
    ParentBelow(par, id);
    var parent := par[id];
    ghost var ids0: seq<nat>, ends0: seq<nat>, depths0: seq<nat> := tree_id[..], tree_end[..], tree_depth[..];
    NumberNext(par, id, ids0, ends0, depths0);
    tree_id[id] := tree_end[parent];
    tree_depth[id] := tree_depth[parent] + 1;
    tree_end[id] := tree_end[parent] + 1;
    tree_end[parent] := tree_end[parent] + size;
    assert tree_id[..] == ids0[id := ends0[parent]];
    assert tree_depth[..] == depths0[id := depths0[parent] + 1];
    assert tree_end[..] == ends0[id := ends0[parent] + 1][parent := ends0[parent] + size];
  }
}
