/** The trie the automaton is built from: nodes in a growing table, each with its edges
    sorted by byte. */
module Trie {
  import opened Vocabulary
  import opened AhoCorasick

  datatype TrieEdge = TrieEdge(byte: byte, child: nat)
  datatype TrieNode = TrieNode(edges: seq<TrieEdge>, token: Option<nat>)

  // ---- A tree of nodes, each spelling a path --------------------------------------

  ghost predicate Sorted(edges: seq<TrieEdge>) {
    forall i, j :: 0 <= i < j < |edges| ==> edges[i].byte < edges[j].byte
  }

  ghost predicate NodeOk(nodes: seq<TrieNode>, paths: seq<seq<byte>>, n: nat)
    requires n < |nodes| <= |paths|
  {
    && Sorted(nodes[n].edges)
    && forall e :: e in nodes[n].edges ==> 0 < e.child < |nodes| && paths[e.child] == paths[n] + [e.byte]
  }

  ghost predicate HasParent(nodes: seq<TrieNode>, m: nat) {
    exists n, e :: 0 <= n < |nodes| && e in nodes[n].edges && e.child == m
  }

  ghost predicate Tree(nodes: seq<TrieNode>, paths: seq<seq<byte>>) {
    && 0 < |nodes| == |paths| && paths[0] == []
    && (forall i, j :: 0 <= i < j < |paths| ==> paths[i] != paths[j])
    && (forall n :: 0 <= n < |nodes| ==> NodeOk(nodes, paths, n))
    && (forall m :: 0 < m < |nodes| ==> HasParent(nodes, m))
  }

  /** The tokens stand at the ends of the words, and every path leads to a word. */
  ghost predicate Spells(nodes: seq<TrieNode>, paths: seq<seq<byte>>, d: Dict) {
    && Tree(nodes, paths)
    && TokensAt(nodes, paths, d)
    && (forall w :: w in paths ==> TrieWord(d, w))
  }

  ghost predicate TokensAt(nodes: seq<TrieNode>, paths: seq<seq<byte>>, d: Dict)
    requires |nodes| == |paths|
  {
    && (forall n :: 0 <= n < |nodes| ==> nodes[n].token == if paths[n] in d then Some(d[paths[n]]) else None)
    && (forall k :: k in d ==> k in paths)
  }

  /** The edge of n on byte c leads to the node that spells one more byte. */
  lemma EdgeComplete(nodes: seq<TrieNode>, paths: seq<seq<byte>>, n: nat, m: nat, c: byte)
    requires Tree(nodes, paths) && n < |nodes| && m < |nodes| && paths[m] == paths[n] + [c]
    ensures TrieEdge(c, m) in nodes[n].edges
  {
    assert m != 0 && HasParent(nodes, m);
    var p, e :| 0 <= p < |nodes| && e in nodes[p].edges && e.child == m;
    assert NodeOk(nodes, paths, p);
    assert paths[p] + [e.byte] == paths[n] + [c];
    assert paths[p] == (paths[p] + [e.byte])[..|paths[p]|];
    assert paths[n] == (paths[n] + [c])[..|paths[n]|];
    assert e.byte == Last(paths[m]) == c;
  }

  /** Every non-root node has a parent, one byte shorter. */
  lemma Parent(nodes: seq<TrieNode>, paths: seq<seq<byte>>, m: nat) returns (p: nat, c: byte)
    requires Tree(nodes, paths) && 0 < m < |nodes|
    ensures p < |nodes| && TrieEdge(c, m) in nodes[p].edges && paths[m] == paths[p] + [c]
  {
    assert HasParent(nodes, m);
    var p', e :| 0 <= p' < |nodes| && e in nodes[p'].edges && e.child == m;
    assert NodeOk(nodes, paths, p');
    p, c := p', e.byte;
  }

  lemma {:induction false} PathsClosed(nodes: seq<TrieNode>, paths: seq<seq<byte>>, m: nat, w: seq<byte>)
    requires Tree(nodes, paths) && m < |nodes| && w <= paths[m]
    ensures w in paths
    decreases |paths[m]|
  {
    if w != paths[m] {
      var p, c := Parent(nodes, paths, m);
      assert w <= paths[p];
      PathsClosed(nodes, paths, p, w);
    }
  }

  /** The nodes spell exactly the paths of the dictionary. */
  lemma SpellsTrieWords(nodes: seq<TrieNode>, paths: seq<seq<byte>>, d: Dict, w: seq<byte>)
    requires Spells(nodes, paths, d)
    ensures w in paths <==> TrieWord(d, w)
  {
    if TrieWord(d, w) && w != [] {
      var k :| k in d && w <= k;
      var m :| 0 <= m < |paths| && paths[m] == k;
      PathsClosed(nodes, paths, m, w);
    } else if w == [] {
      assert paths[0] in paths;
    }
  }

  // ---- Edges by binary search --------------------------------------------------------

  /** The binary search of tb_child and trie_find_child. */
  method FindEdge(edges: seq<TrieEdge>, c: byte) returns (found: bool, lo: nat)
    requires Sorted(edges)
    ensures lo <= |edges|
    ensures found ==> lo < |edges| && edges[lo].byte == c
    ensures !found ==>
              && (forall i :: 0 <= i < lo ==> edges[i].byte < c)
              && (forall i :: lo <= i < |edges| ==> c < edges[i].byte)
  {
    lo := 0;
    var hi: nat := |edges|;
    while lo < hi
      invariant 0 <= lo <= hi <= |edges|
      invariant forall i :: 0 <= i < lo ==> edges[i].byte < c
      invariant forall i :: hi <= i < |edges| ==> c < edges[i].byte
    {
      var mid := (lo + hi) / 2;
      if edges[mid].byte == c {
        return true, mid;
      }
      if edges[mid].byte < c {
        lo := mid + 1;
      } else {
        hi := mid;
      }
    }
    return false, lo;
  }

  /** trie_find_child */
  method FindChild(nodes: seq<TrieNode>, ghost paths: seq<seq<byte>>, n: nat, c: byte) returns (child: int)
    requires Tree(nodes, paths) && n < |nodes|
    ensures -1 <= child < |nodes|
    ensures child >= 0 ==> paths[child] == paths[n] + [c]
    ensures child < 0 ==> paths[n] + [c] !in paths
  {
    hide HasParent;
    assert NodeOk(nodes, paths, n);
    var edges := nodes[n].edges;
    var found, lo := FindEdge(edges, c);
    if found {
      assert edges[lo] in edges;
      return edges[lo].child;
    }
    if paths[n] + [c] in paths {
      var m :| 0 <= m < |paths| && paths[m] == paths[n] + [c];
      EdgeComplete(nodes, paths, n, m, c);
      assert false;
    }
    return -1;
  }

  // ---- Insertion ------------------------------------------------------------------------

  function WithEdge(nodes: seq<TrieNode>, n: nat, lo: nat, c: byte): seq<TrieNode>
    requires n < |nodes| && lo <= |nodes[n].edges|
  {
    var node := nodes[n];
    var edges := node.edges[..lo] + [TrieEdge(c, |nodes|)] + node.edges[lo..];
    nodes[n := node.(edges := edges)] + [TrieNode([], None)]
  }

  lemma WithEdgeNodes(nodes: seq<TrieNode>, paths: seq<seq<byte>>, n: nat, lo: nat, c: byte, i: nat)
    requires Tree(nodes, paths) && n < |nodes| && lo <= |nodes[n].edges| && i <= |nodes|
    requires forall j :: 0 <= j < lo ==> nodes[n].edges[j].byte < c
    requires forall j :: lo <= j < |nodes[n].edges| ==> c < nodes[n].edges[j].byte
    ensures NodeOk(WithEdge(nodes, n, lo, c), paths + [paths[n] + [c]], i)
  {
    var nodes', paths' := WithEdge(nodes, n, lo, c), paths + [paths[n] + [c]];
    if i < |nodes| {
      assert NodeOk(nodes, paths, i);
      assert NodeOk(nodes, paths, n);
      forall e | e in nodes'[i].edges ensures 0 < e.child < |nodes'| && paths'[e.child] == paths'[i] + [e.byte] {
        assert e in nodes[i].edges || (i == n && e == TrieEdge(c, |nodes|));
      }
    }
  }

  lemma WithEdgeParents(nodes: seq<TrieNode>, paths: seq<seq<byte>>, n: nat, lo: nat, c: byte, m: nat)
    requires Tree(nodes, paths) && n < |nodes| && lo <= |nodes[n].edges| && 0 < m <= |nodes|
    ensures HasParent(WithEdge(nodes, n, lo, c), m)
  {
    var nodes' := WithEdge(nodes, n, lo, c);
    if m == |nodes| {
      assert nodes'[n].edges[lo] == TrieEdge(c, m);
      assert TrieEdge(c, m) in nodes'[n].edges;
    } else {
      var p, b := Parent(nodes, paths, m);
      var j :| 0 <= j < |nodes[p].edges| && nodes[p].edges[j] == TrieEdge(b, m);
      assert nodes'[p].edges[if p == n && j >= lo then j + 1 else j] == TrieEdge(b, m);
      assert TrieEdge(b, m) in nodes'[p].edges;
    }
  }

  lemma WithEdgeTree(nodes: seq<TrieNode>, paths: seq<seq<byte>>, n: nat, lo: nat, c: byte)
    requires Tree(nodes, paths) && n < |nodes| && lo <= |nodes[n].edges|
    requires forall j :: 0 <= j < lo ==> nodes[n].edges[j].byte < c
    requires forall j :: lo <= j < |nodes[n].edges| ==> c < nodes[n].edges[j].byte
    ensures Tree(WithEdge(nodes, n, lo, c), paths + [paths[n] + [c]])
    ensures paths[n] + [c] !in paths
  {
    hide NodeOk, HasParent;
    var nodes', paths' := WithEdge(nodes, n, lo, c), paths + [paths[n] + [c]];
    NewPathIsNew(nodes, paths, n, lo, c);
    forall i | 0 <= i < |nodes'| ensures NodeOk(nodes', paths', i) {
      WithEdgeNodes(nodes, paths, n, lo, c, i);
    }
    forall m | 0 < m < |nodes'| ensures HasParent(nodes', m) {
      WithEdgeParents(nodes, paths, n, lo, c, m);
    }
  }

  lemma NewPathIsNew(nodes: seq<TrieNode>, paths: seq<seq<byte>>, n: nat, lo: nat, c: byte)
    requires Tree(nodes, paths) && n < |nodes| && lo <= |nodes[n].edges|
    requires forall j :: 0 <= j < lo ==> nodes[n].edges[j].byte < c
    requires forall j :: lo <= j < |nodes[n].edges| ==> c < nodes[n].edges[j].byte
    ensures paths[n] + [c] !in paths
  {
    forall m | 0 <= m < |paths| ensures paths[m] != paths[n] + [c] {
      if paths[m] == paths[n] + [c] {
        EdgeComplete(nodes, paths, n, m, c);
      }
    }
  }

  class TrieBuilder {
    var nodes: seq<TrieNode>
    ghost var paths: seq<seq<byte>>
    ghost var dict: Dict

    ghost predicate Valid()
      reads this
    {
      Spells(nodes, paths, dict)
    }

    constructor ()
      ensures Valid() && dict == map[]
    {
      nodes := [TrieNode([], None)];
      paths := [[]];
      dict := map[];
    }

    /** tb_child: the child of node on byte c, made if it is missing. */
    method Child(node: nat, c: byte) returns (child: nat)
      requires Tree(nodes, paths) && node < |nodes| && TokensAt(nodes, paths, dict)
      modifies this`nodes, this`paths
      ensures Tree(nodes, paths) && child < |nodes| && paths[child] == old(paths[node]) + [c]
      ensures TokensAt(nodes, paths, dict)
      ensures paths == old(paths) || paths == old(paths) + [old(paths[node]) + [c]]
    {
      hide Tree, TokensAt, HasParent;
      NodeFacts(nodes, paths, node);
      var found, lo := FindEdge(nodes[node].edges, c);
      if found {
        assert nodes[node].edges[lo] in nodes[node].edges;
        return nodes[node].edges[lo].child;
      }
      WithEdgeTree(nodes, paths, node, lo, c);
      WithEdgeTokens(nodes, paths, dict, node, lo, c);
      child := |nodes|;
      nodes := WithEdge(nodes, node, lo, c);
      paths := paths + [paths[node] + [c]];
    }

    /** tb_insert: the first word added keeps its token. */
    method Insert(bytes: seq<byte>, token: nat)
      requires Valid() && bytes != []
      modifies this
      ensures Valid()
      ensures dict == if bytes in old(dict) then old(dict) else old(dict)[bytes := token]
    {
      hide Tree, TokensAt, TrieWord;
      var node: nat := 0;
      RootFacts(nodes, paths);
      for i := 0 to |bytes|
        invariant node < |nodes| == |paths| && Tree(nodes, paths) && TokensAt(nodes, paths, dict)
        invariant paths[node] == bytes[..i] && dict == old(dict)
        invariant forall w :: w in paths ==> TrieWord(dict, w) || w <= bytes
      {
        ghost var before := paths;
        node := Child(node, bytes[i]);
        assert bytes[..i] + [bytes[i]] == bytes[..i + 1];
        RootFacts(nodes, paths);
      }
      assert bytes[..|bytes|] == bytes;
      TokenFacts(nodes, paths, dict, node);
      if nodes[node].token == None {
        InsertToken(nodes, paths, dict, node, token);
        nodes := nodes[node := nodes[node].(token := Some(token))];
        dict := dict[bytes := token];
      } else {
        InsertKnown(paths, dict, bytes);
      }
    }
  }

  lemma NodeFacts(nodes: seq<TrieNode>, paths: seq<seq<byte>>, n: nat)
    requires Tree(nodes, paths) && n < |nodes|
    ensures |nodes| == |paths| && NodeOk(nodes, paths, n)
  {
  }

  lemma RootFacts(nodes: seq<TrieNode>, paths: seq<seq<byte>>)
    requires Tree(nodes, paths)
    ensures 0 < |nodes| == |paths| && paths[0] == []
  {
  }

  lemma TokenFacts(nodes: seq<TrieNode>, paths: seq<seq<byte>>, d: Dict, n: nat)
    requires |nodes| == |paths| && TokensAt(nodes, paths, d) && n < |nodes|
    ensures nodes[n].token == if paths[n] in d then Some(d[paths[n]]) else None
  {
  }

  lemma WithEdgeTokens(nodes: seq<TrieNode>, paths: seq<seq<byte>>, d: Dict, n: nat, lo: nat, c: byte)
    requires |nodes| == |paths| && TokensAt(nodes, paths, d) && n < |nodes| && lo <= |nodes[n].edges|
    requires paths[n] + [c] !in paths
    ensures TokensAt(WithEdge(nodes, n, lo, c), paths + [paths[n] + [c]], d)
  {
  }

  lemma InsertToken(nodes: seq<TrieNode>, paths: seq<seq<byte>>, d: Dict, n: nat, token: nat)
    requires Tree(nodes, paths) && |nodes| == |paths| && TokensAt(nodes, paths, d) && n < |nodes| && paths[n] !in d
    requires forall w :: w in paths ==> TrieWord(d, w) || w <= paths[n]
    ensures Spells(nodes[n := nodes[n].(token := Some(token))], paths, d[paths[n] := token])
  {
    var nodes', d' := nodes[n := nodes[n].(token := Some(token))], d[paths[n] := token];
    assert Tree(nodes', paths) by { hide TokensAt, TrieWord; SameEdges(nodes, nodes', paths); }
    forall w | w in paths ensures TrieWord(d', w) {
      if w != [] && TrieWord(d, w) {
        var k :| k in d && w <= k;
        assert k in d';
      } else {
        assert paths[n] in d';
      }
    }
  }

  lemma SameEdges(nodes: seq<TrieNode>, nodes': seq<TrieNode>, paths: seq<seq<byte>>)
    requires Tree(nodes, paths) && |nodes'| == |nodes|
    requires forall i :: 0 <= i < |nodes| ==> nodes'[i].edges == nodes[i].edges
    ensures Tree(nodes', paths)
  {
    forall m | 0 < m < |nodes'| ensures HasParent(nodes', m) {
      assert HasParent(nodes, m);
    }
    forall n | 0 <= n < |nodes'| ensures NodeOk(nodes', paths, n) {
      assert NodeOk(nodes, paths, n);
    }
  }

  lemma InsertKnown(paths: seq<seq<byte>>, d: Dict, bytes: seq<byte>)
    requires bytes in d && forall w :: w in paths ==> TrieWord(d, w) || w <= bytes
    ensures forall w :: w in paths ==> TrieWord(d, w)
  {
  }
}
