/** Building the automaton. */
module Automata {
  import opened Vocabulary
  import opened AhoCorasick
  import opened Trie
  import opened FailureLinks
  import opened DoubleArray

  /** Node m's cell: its links, its token and its depth. */
  ghost predicate CellOk(nodes: seq<TrieNode>, slots: seq<int>, fails: seq<nat>, depths: seq<nat>, chains: seq<nat>,
                         cells: seq<AcCell>, m: nat)
  {
    && m < |nodes| == |slots| == |fails| == |depths| == |chains|
    && 0 <= slots[m] < |cells| && fails[m] < |nodes|
    && cells[slots[m]] == AcCell(slots[fails[m]], chains[m], nodes[m].token, depths[m])
  }

  /** Phase 3: one cell per slot; slots no node occupies keep the defaults. */
  method FillCells(nodes: seq<TrieNode>, slots: seq<int>, fails: seq<nat>, depths: seq<nat>, chains: seq<nat>,
                   size: nat) returns (cells: seq<AcCell>)
    requires |slots| == |nodes| == |fails| == |depths| == |chains|
    requires forall m :: 0 <= m < |nodes| ==> 0 <= slots[m] < size && fails[m] < |nodes|
    requires forall m, n :: 0 <= m < |nodes| && 0 <= n < |nodes| && slots[m] == slots[n] ==> m == n
    ensures |cells| == size
    ensures forall m :: 0 <= m < |nodes| ==> CellOk(nodes, slots, fails, depths, chains, cells, m)
  {
    var a := new AcCell[size](_ => AcCell(0, 0, None, 0));
    for i := 0 to |nodes|
      invariant forall m :: 0 <= m < i ==> a[slots[m]] == AcCell(slots[fails[m]], chains[m], nodes[m].token, depths[m])
    {
      a[slots[i]] := AcCell(slots[fails[i]], chains[i], nodes[i].token, depths[i]);
    }
    return a[..];
  }

  ghost function NodeOf(paths: seq<seq<byte>>, w: seq<byte>): (m: nat)
    requires w in paths
    ensures m < |paths| && paths[m] == w
  {
    var m :| 0 <= m < |paths| && paths[m] == w; m
  }

  /** The state of every path: the slot of the node that spells it. */
  ghost function StateMap(paths: seq<seq<byte>>, slots: seq<int>): (at: map<seq<byte>, int>)
    requires |paths| == |slots|
    requires forall i, j :: 0 <= i < j < |paths| ==> paths[i] != paths[j]
    ensures forall w :: w in at <==> w in paths
    ensures forall m :: 0 <= m < |paths| ==> paths[m] in at && at[paths[m]] == slots[m]
  {
    map w | w in paths :: slots[NodeOf(paths, w)]
  }

  lemma AssembledState(nodes: seq<TrieNode>, paths: seq<seq<byte>>, d: Dict, slots: seq<int>, fails: seq<nat>,
                       depths: seq<nat>, chains: seq<nat>, a: Automaton, at: map<seq<byte>, int>, m: nat)
    requires Spells(nodes, paths, d) && LinksOk(nodes, paths, d, fails, depths, chains, a.outputs)
    requires PackOk(nodes, slots, a.base, a.check) && |a.cells| == |a.base| && m < |nodes|
    requires CellOk(nodes, slots, fails, depths, chains, a.cells, m)
    requires forall w :: w in at <==> w in paths
    requires forall i :: 0 <= i < |paths| ==> paths[i] in at && at[paths[i]] == slots[i]
    ensures StateOk(a, d, at, paths[m])
  {
    hide Spells;
    SpellsTree(nodes, paths, d);
    var s, w := slots[m], paths[m];
    forall c: byte
      ensures 0 <= a.base[s] + c < |a.check|
      ensures Edge(a, s, c) <==> w + [c] in at
      ensures w + [c] in at ==> at[w + [c]] == a.base[s] + c
    {
      EdgeIsPath(nodes, paths, slots, a, m, c);
      if w + [c] in at {
        var i :| 0 <= i < |paths| && paths[i] == w + [c];
      }
    }
    assert Emitted(paths, d, chains, a.outputs, m);
    if w != [] {
      hide Tree;
      assert Linked(paths, d, fails, depths, m);
    } else {
      assert m == 0;
    }
  }

  /** The double-array test finds the edge on c exactly if one more byte is a path. */
  lemma EdgeIsPath(nodes: seq<TrieNode>, paths: seq<seq<byte>>, slots: seq<int>, a: Automaton, m: nat, c: byte)
    requires Tree(nodes, paths) && |nodes| == |paths| && m < |nodes| && PackOk(nodes, slots, a.base, a.check)
    ensures Edge(a, slots[m], c) <==> paths[m] + [c] in paths
    ensures forall i :: 0 <= i < |paths| && paths[i] == paths[m] + [c] ==> slots[i] == a.base[slots[m]] + c
  {
    NodeFacts(nodes, paths, m);
    forall i | 0 <= i < |paths| && paths[i] == paths[m] + [c]
      ensures slots[i] == a.base[slots[m]] + c && Edge(a, slots[m], c)
    {
      EdgeComplete(nodes, paths, m, i, c);
      assert Packed(slots, a.base, a.check, m, TrieEdge(c, i));
      assert i != 0;
    }
    if Edge(a, slots[m], c) {
      assert HasEdge(nodes[m], c);
    }
  }

  lemma Assembled(nodes: seq<TrieNode>, paths: seq<seq<byte>>, d: Dict, slots: seq<int>, fails: seq<nat>,
                  depths: seq<nat>, chains: seq<nat>, a: Automaton)
    requires Spells(nodes, paths, d) && LinksOk(nodes, paths, d, fails, depths, chains, a.outputs)
    requires PackOk(nodes, slots, a.base, a.check) && |a.cells| == |a.base|
    requires forall m :: 0 <= m < |nodes| ==> CellOk(nodes, slots, fails, depths, chains, a.cells, m)
    ensures Recognizes(a, d)
  {
    SpellsTree(nodes, paths, d);
    NodesDistinct(nodes, paths);
    RootFacts(nodes, paths);
    PackSizes(nodes, slots, a.base, a.check);
    LinksSizes(nodes, paths, d, fails, depths, chains, a.outputs);
    hide *;
    var at := StateMap(paths, slots);
    PathsMapped(nodes, paths, d, at);
    forall w | w in at ensures StateOk(a, d, at, w) {
      AssembledState(nodes, paths, d, slots, fails, depths, chains, a, at, NodeOf(paths, w));
    }
    AllStatesOk(a, d, at);
  }

  lemma PathsMapped(nodes: seq<TrieNode>, paths: seq<seq<byte>>, d: Dict, at: map<seq<byte>, int>)
    requires Spells(nodes, paths, d)
    requires forall w :: w in at <==> w in paths
    requires paths != [] && paths[0] in at && at[paths[0]] == 0
    ensures Paths(d, at)
  {
    SpellsTree(nodes, paths, d);
    RootFacts(nodes, paths);
    forall w ensures w in at <==> TrieWord(d, w) {
      SpellsTrieWords(nodes, paths, d, w);
    }
  }

  lemma AllStatesOk(a: Automaton, d: Dict, at: map<seq<byte>, int>)
    requires Paths(d, at) && 0 < |a.cells| == |a.base| == |a.check| && a.check[0] == 0 && ChainOk(a.outputs)
    requires forall w :: w in at ==> StateOk(a, d, at, w)
    ensures Recognizes(a, d)
  {
    hide StateOk, Paths, ChainOk;
    assert ValidAt(a, d, at);
  }

  lemma PackSizes(nodes: seq<TrieNode>, slots: seq<int>, base: seq<int>, check: seq<int>)
    requires PackOk(nodes, slots, base, check)
    ensures |slots| == |nodes| && 0 < |base| == |check| && check[0] == 0 && slots[0] == 0
  {
  }

  lemma LinksSizes(nodes: seq<TrieNode>, paths: seq<seq<byte>>, d: Dict, fails: seq<nat>, depths: seq<nat>,
                   chains: seq<nat>, outputs: seq<AcOutput>)
    requires LinksOk(nodes, paths, d, fails, depths, chains, outputs)
    ensures ChainOk(outputs)
  {
  }

  lemma NodesDistinct(nodes: seq<TrieNode>, paths: seq<seq<byte>>)
    requires Tree(nodes, paths)
    ensures forall i, j :: 0 <= i < j < |paths| ==> paths[i] != paths[j]
  {
  }

  /** build_automaton_from_trie */
  method Build(tb: TrieBuilder) returns (a: Automaton)
    requires tb.Valid()
    ensures Recognizes(a, tb.dict)
  {
    ghost var paths, d := tb.paths, tb.dict;
    SpellsTree(tb.nodes, paths, d);
    var fails, depths, chains, outputs := BuildLinks(tb.nodes, paths, d);
    var slots, base, check := Pack(tb.nodes, paths);
    LinksInRange(tb.nodes, paths, d, fails, depths, chains, outputs);
    var cells := FillCells(tb.nodes, slots, fails, depths, chains, |base|);
    a := Automaton(cells, outputs, base, check);
    Assembled(tb.nodes, paths, d, slots, fails, depths, chains, a);
  }

  lemma LinksInRange(nodes: seq<TrieNode>, paths: seq<seq<byte>>, d: Dict, fails: seq<nat>, depths: seq<nat>,
                     chains: seq<nat>, outputs: seq<AcOutput>)
    requires LinksOk(nodes, paths, d, fails, depths, chains, outputs)
    ensures |fails| == |depths| == |chains| == |nodes|
    ensures forall m :: 0 <= m < |nodes| ==> fails[m] < |nodes|
  {
    forall m | 0 <= m < |nodes| ensures fails[m] < |nodes| {
      if m > 0 { assert Linked(paths, d, fails, depths, m); }
    }
  }

  // ---- Dictionaries of a token table -------------------------------------------------

  function Word(words: seq<seq<byte>>, i: nat, reversed: bool): seq<byte>
    requires i < |words|
  {
    if reversed then Reverse(words[i]) else words[i]
  }

  /** The first n tokens with their identifiers; backwards when reversed. */
  ghost function TokenDict(words: seq<seq<byte>>, n: nat, reversed: bool): Dict
    requires n <= |words|
  {
    if n == 0 then map[]
    else
      var d, w := TokenDict(words, n - 1, reversed), Word(words, n - 1, reversed);
      if w in d then d else d[w := n - 1]
  }

  /** ac_builder_new, ac_builder_add for every token, ac_builder_build.  A reversed builder
      turns each word around before inserting it. */
  method BuildForTokens(words: seq<seq<byte>>, reversed: bool) returns (a: Automaton)
    requires forall i :: 0 <= i < |words| ==> words[i] != []
    ensures Recognizes(a, TokenDict(words, |words|, reversed))
  {
    var tb := new TrieBuilder();
    for i := 0 to |words|
      invariant fresh(tb) && tb.Valid() && tb.dict == TokenDict(words, i, reversed)
    {
      hide tb.Valid;
      if reversed {
        var rev := ReverseWord(words[i]);
        tb.Insert(rev, i);
      } else {
        tb.Insert(words[i], i);
      }
    }
    a := Build(tb);
  }

  /** The reversal loop of ac_builder_add. */
  method ReverseWord(w: seq<byte>) returns (rev: seq<byte>)
    ensures rev == Reverse(w)
  {
    var r := new byte[|w|](_ => 0);
    for i := 0 to |w|
      invariant forall k :: 0 <= k < i ==> r[k] == w[|w| - 1 - k]
    {
      r[i] := w[|w| - 1 - i];
    }
    rev := r[..];
    forall k | 0 <= k < |w| ensures rev[k] == Reverse(w)[k] {
      ReverseAt(w, k);
    }
  }

  lemma WordsDistinct(words: seq<seq<byte>>, reversed: bool, x: nat, y: nat)
    requires x < |words| && y < |words| && Word(words, x, reversed) == Word(words, y, reversed)
    ensures words[x] == words[y]
  {
    ReverseTwice(words[x]);
    ReverseTwice(words[y]);
  }

  /** d maps exactly the first n words to their positions. */
  ghost predicate DictExact(words: seq<seq<byte>>, n: nat, reversed: bool, d: Dict)
    requires n <= |words|
  {
    && (forall w :: w in d ==> d[w] < n && w == Word(words, d[w], reversed))
    && (forall x :: 0 <= x < n ==> Word(words, x, reversed) in d && d[Word(words, x, reversed)] == x)
  }

  ghost predicate DistinctWords(words: seq<seq<byte>>) {
    forall x, y :: 0 <= x < |words| && 0 <= y < |words| && words[x] == words[y] ==> x == y
  }

  lemma WordIsNew(words: seq<seq<byte>>, n: nat, reversed: bool, d: Dict)
    requires n < |words| && DistinctWords(words) && DictExact(words, n, reversed, d)
    ensures Word(words, n, reversed) !in d
  {
    var w := Word(words, n, reversed);
    if w in d {
      WordsDistinct(words, reversed, d[w], n);
    }
  }

  /** With distinct tokens the dictionary maps each token's bytes to its identifier. */
  lemma TokenDictExact(words: seq<seq<byte>>, n: nat, reversed: bool)
    requires n <= |words|
    requires forall x, y :: 0 <= x < |words| && 0 <= y < |words| && words[x] == words[y] ==> x == y
    ensures DictExact(words, n, reversed, TokenDict(words, n, reversed))
  {
    DistinctDictExact(words, n, reversed);
  }

  lemma {:induction false} DistinctDictExact(words: seq<seq<byte>>, n: nat, reversed: bool)
    requires n <= |words| && DistinctWords(words)
    ensures DictExact(words, n, reversed, TokenDict(words, n, reversed))
  {
    if n > 0 {
      DistinctDictExact(words, n - 1, reversed);
      var d := TokenDict(words, n - 1, reversed);
      WordIsNew(words, n - 1, reversed, d);
      DictExactNext(words, n - 1, reversed, d);
      hide DictExact, DistinctWords;
    }
  }

  lemma DictExactNext(words: seq<seq<byte>>, n: nat, reversed: bool, d: Dict)
    requires n < |words| && DictExact(words, n, reversed, d) && Word(words, n, reversed) !in d
    ensures DictExact(words, n + 1, reversed, d[Word(words, n, reversed) := n])
  {
  }
}
