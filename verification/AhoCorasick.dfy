/** The Aho-Corasick matcher. */
module AhoCorasick {

  // What the automaton's states and output chains mean, the transition, the match iterator and
  // the leftmost-longest search.

  import opened Vocabulary

  /** The words to find, each with its token. */
  type Dict = map<seq<byte>, nat>

  datatype AcCell = AcCell(fail: int, output: int, token: Option<nat>, depth: nat)
  datatype AcOutput = AcOutput(token: nat, startOffset: nat, next: int)

  /** base[s] + byte is the only candidate for the successor of s; check confirms it. */
  datatype Automaton = Automaton(cells: seq<AcCell>, outputs: seq<AcOutput>, base: seq<int>, check: seq<int>)

  // ---- What the automaton recognises ------------------------------------------

  /** A path of the trie: the empty word or a prefix of some word. */
  ghost predicate TrieWord(d: Dict, w: seq<byte>) {
    w == [] || exists k :: k in d && w <= k
  }

  /** The longest suffix of t that is a path of the trie. */
  ghost function LongestSuffix(d: Dict, t: seq<byte>): seq<byte> {
    if TrieWord(d, t) then t else LongestSuffix(d, t[1..])
  }

  datatype Match = Match(token: nat, length: nat)

  /** All words that t ends with, longest first. */
  ghost function SuffixMatches(d: Dict, t: seq<byte>): seq<Match> {
    if t == [] then []
    else (if t in d then [Match(d[t], |t|)] else []) + SuffixMatches(d, t[1..])
  }

  ghost predicate IsSuffix(w: seq<byte>, t: seq<byte>) {
    |w| <= |t| && t[|t| - |w|..] == w
  }

  lemma TrieWordPrefix(d: Dict, w: seq<byte>, c: byte)
    requires TrieWord(d, w + [c])
    ensures TrieWord(d, w)
  {
  }

  /** Reading one more byte only needs the longest suffix of what came before. */
  lemma {:induction false} LongestSuffixStep(d: Dict, t: seq<byte>, c: byte)
    ensures LongestSuffix(d, t + [c]) == LongestSuffix(d, LongestSuffix(d, t) + [c])
  {
    if !TrieWord(d, t) {
      if TrieWord(d, t + [c]) {
        TrieWordPrefix(d, t, c);
      }
      assert (t + [c])[1..] == t[1..] + [c];
      LongestSuffixStep(d, t[1..], c);
    }
  }

  lemma {:induction false} LongestSuffixIsSuffix(d: Dict, t: seq<byte>)
    ensures TrieWord(d, LongestSuffix(d, t)) && IsSuffix(LongestSuffix(d, t), t)
    ensures forall w :: TrieWord(d, w) && IsSuffix(w, t) ==> |w| <= |LongestSuffix(d, t)|
  {
    if !TrieWord(d, t) {
      LongestSuffixIsSuffix(d, t[1..]);
      forall w | TrieWord(d, w) && IsSuffix(w, t) ensures |w| <= |LongestSuffix(d, t)| {
        assert w != t;
        assert IsSuffix(w, t[1..]);
      }
    }
  }

  /** Every word the text ends with is also a suffix of the longest suffix in the trie. */
  lemma {:induction false} MatchesOfLongestSuffix(d: Dict, t: seq<byte>)
    ensures SuffixMatches(d, t) == SuffixMatches(d, LongestSuffix(d, t))
  {
    if !TrieWord(d, t) {
      assert t !in d;
      MatchesOfLongestSuffix(d, t[1..]);
    }
  }

  /** The list is exactly the set of matches, in strictly decreasing length. */
  lemma {:induction false} SuffixMatchesExact(d: Dict, t: seq<byte>)
    ensures forall i, j :: 0 <= i < j < |SuffixMatches(d, t)| ==>
              SuffixMatches(d, t)[i].length > SuffixMatches(d, t)[j].length
    ensures forall m :: m in SuffixMatches(d, t) <==>
              0 < m.length <= |t| && t[|t| - m.length..] in d && d[t[|t| - m.length..]] == m.token
  {
    if t != [] {
      SuffixMatchesExact(d, t[1..]);
      var rest := SuffixMatches(d, t[1..]);
      forall m ensures m in SuffixMatches(d, t) <==>
        0 < m.length <= |t| && t[|t| - m.length..] in d && d[t[|t| - m.length..]] == m.token
      {
        if m.length < |t| {
          assert t[1..][|t[1..]| - m.length..] == t[|t| - m.length..];
        } else {
          assert m !in rest;
          assert t[0..] == t;
        }
      }
      assert forall m :: m in rest ==> m.length < |t|;
      assert forall j :: 0 <= j < |rest| ==> rest[j] in rest;
    }
  }

  // ---- A correct automaton -----------------------------------------------------

  /** The output chain that starts at index o. */
  function Chain(outputs: seq<AcOutput>, o: int): seq<Match>
    decreases o
  {
    if 0 < o < |outputs| && outputs[o].next < o
    then [Match(outputs[o].token, outputs[o].startOffset)] + Chain(outputs, outputs[o].next)
    else []
  }

  ghost predicate ChainOk(outputs: seq<AcOutput>) {
    forall o :: 0 < o < |outputs| ==> 0 <= outputs[o].next < o
  }

  /** at has an entry for every path of the trie, the empty one at 0. */
  ghost predicate Paths(d: Dict, at: map<seq<byte>, int>) {
    (forall w :: w in at <==> TrieWord(d, w)) && at[[]] == 0
  }

  /** at gives the state of every path of the trie. */
  ghost predicate ValidAt(a: Automaton, d: Dict, at: map<seq<byte>, int>) {
    && Paths(d, at)
    && 0 < |a.cells| == |a.base| == |a.check| && a.check[0] == 0
    && ChainOk(a.outputs)
    && forall w {:trigger StateOk(a, d, at, w)} :: w in at ==> StateOk(a, d, at, w)
  }

  ghost predicate StateOk(a: Automaton, d: Dict, at: map<seq<byte>, int>, w: seq<byte>)
    requires w in at && |a.cells| == |a.base| == |a.check|
  {
    var s := at[w];
    && 0 <= s < |a.cells|
    && 0 <= a.base[s] && a.base[s] + 255 < |a.check|
    && (forall c: byte :: Edge(a, s, c) <==> w + [c] in at)
    && (forall c: byte :: w + [c] in at ==> at[w + [c]] == a.base[s] + c)
    && a.cells[s].depth == |w|
    && (w != [] ==> s != 0 && LongestSuffix(d, w[1..]) in at && a.cells[s].fail == at[LongestSuffix(d, w[1..])])
    && 0 <= a.cells[s].output < |a.outputs|
    && Chain(a.outputs, a.cells[s].output) == SuffixMatches(d, w)
  }

  /**
    * The double-array test: s has a successor on c.  Slot 0 carries the root's own mark; where the test meets it, at
    * the root, success and failure both lead to slot 0.
    */
  predicate Edge(a: Automaton, s: int, c: byte)
    requires 0 <= s < |a.base| && 0 <= a.base[s] + c < |a.check|
  {
    a.check[a.base[s] + c] == s && a.base[s] + c != 0
  }

  ghost predicate Recognizes(a: Automaton, d: Dict) {
    exists at :: ValidAt(a, d, at)
  }

  ghost function Places(a: Automaton, d: Dict): (at: map<seq<byte>, int>)
    requires Recognizes(a, d)
    ensures ValidAt(a, d, at)
  {
    var at :| ValidAt(a, d, at); at
  }

  /** The state reached after reading t from the root. */
  ghost function StateAfter(a: Automaton, d: Dict, t: seq<byte>): int
    requires Recognizes(a, d)
  {
    LongestSuffixIsSuffix(d, t);
    Places(a, d)[LongestSuffix(d, t)]
  }

  // ---- Transition ---------------------------------------------------------------

  /** ac_step.  links counts the failure links followed: each one shortens the spelled
      suffix, and the byte read lengthens it by at most one. */
  method AcStep(a: Automaton, ghost d: Dict, ghost t: seq<byte>, state: int, c: byte)
      returns (next: int, ghost links: nat)
    requires Recognizes(a, d) && state == StateAfter(a, d, t)
    ensures next == StateAfter(a, d, t + [c])
    ensures |LongestSuffix(d, t + [c])| + links <= |LongestSuffix(d, t)| + 1
  {
    hide ValidAt, StateOk, TrieWord, Edge, LongestSuffix;
    ghost var at := Places(a, d);
    ghost var w := LongestSuffix(d, t);
    LongestSuffixStep(d, t, c);
    StateAfterInPlaces(a, d, t);
    var s := state;
    links := 0;
    while true
      invariant w in at && s == at[w]
      invariant LongestSuffix(d, t + [c]) == LongestSuffix(d, w + [c])
      invariant |w| + links <= |LongestSuffix(d, t)|
      decreases |w|
    {
      StateFacts(a, d, at, w, c);
      var target := a.base[s] + c;
      if a.check[target] == s {
        return target, links;
      }
      if s == 0 {
        return 0, links;
      }
      s := a.cells[s].fail;
      w := LongestSuffix(d, w[1..]);
      links := links + 1;
    }
  }

  lemma StateAfterInPlaces(a: Automaton, d: Dict, t: seq<byte>)
    requires Recognizes(a, d)
    ensures LongestSuffix(d, t) in Places(a, d)
  {
  }

  /** What one turn of ac_step finds in the state that spells w. */
  lemma StateFacts(a: Automaton, d: Dict, at: map<seq<byte>, int>, w: seq<byte>, c: byte)
    requires ValidAt(a, d, at) && w in at
    ensures 0 <= at[w] < |a.cells| == |a.base| == |a.check| && 0 <= a.base[at[w]] + c < |a.check|
    ensures LongestSuffix(d, w + [c]) in at && |LongestSuffix(d, w + [c])| <= |w| + 1
    ensures var s, target := at[w], a.base[at[w]] + c;
            if a.check[target] == s then at[LongestSuffix(d, w + [c])] == target
            else if s == 0 then at[LongestSuffix(d, w + [c])] == 0
            else
              && w != []
              && var u := LongestSuffix(d, w[1..]);
              && u in at && a.cells[s].fail == at[u] && |u| < |w|
              && LongestSuffix(d, w + [c]) == LongestSuffix(d, u + [c])
  {
    assert StateOk(a, d, at, w);
    StateFactsAt(a, d, at, w, c);
  }

  lemma StateFactsAt(a: Automaton, d: Dict, at: map<seq<byte>, int>, w: seq<byte>, c: byte)
    requires Paths(d, at) && w in at
    requires 0 < |a.cells| == |a.base| == |a.check| && a.check[0] == 0 && StateOk(a, d, at, w)
    ensures LongestSuffix(d, w + [c]) in at && |LongestSuffix(d, w + [c])| <= |w| + 1
    ensures var s, target := at[w], a.base[at[w]] + c;
            if a.check[target] == s then at[LongestSuffix(d, w + [c])] == target
            else if s == 0 then at[LongestSuffix(d, w + [c])] == 0
            else
              && w != []
              && var u := LongestSuffix(d, w[1..]);
              && u in at && a.cells[s].fail == at[u] && |u| < |w|
              && LongestSuffix(d, w + [c]) == LongestSuffix(d, u + [c])
  {
    hide Chain, SuffixMatches, TrieWord;
    LongestSuffixIsSuffix(d, w + [c]);
    assert Edge(a, at[w], c) <==> TrieWord(d, w + [c]);
    if !Edge(a, at[w], c) {
      if w == [] {
        ShortestSuffix(d, c);
      } else {
        FollowFail(d, w, c);
      }
    }
  }

  /** A byte that starts no word leaves nothing spelled. */
  lemma ShortestSuffix(d: Dict, c: byte)
    requires !TrieWord(d, [] + [c])
    ensures LongestSuffix(d, [] + [c]) == []
  {
  }

  lemma FollowFail(d: Dict, w: seq<byte>, c: byte)
    requires w != [] && !TrieWord(d, w + [c])
    ensures LongestSuffix(d, w + [c]) == LongestSuffix(d, LongestSuffix(d, w[1..]) + [c])
    ensures |LongestSuffix(d, w[1..])| < |w|
  {
    assert (w + [c])[1..] == w[1..] + [c];
    LongestSuffixStep(d, w[1..], c);
    LongestSuffixIsSuffix(d, w[1..]);
  }

  // ---- Overlapping matches --------------------------------------------------------

  lemma OutputOfState(a: Automaton, d: Dict, t: seq<byte>)
    requires Recognizes(a, d)
    ensures var s := StateAfter(a, d, t);
            0 <= s < |a.cells| && 0 <= a.cells[s].output < |a.outputs|
            && Chain(a.outputs, a.cells[s].output) == SuffixMatches(d, t)
  {
    var at, w := Places(a, d), LongestSuffix(d, t);
    LongestSuffixIsSuffix(d, t);
    assert StateOk(a, d, at, w);
    MatchesOfLongestSuffix(d, t);
  }

  lemma ChainsOk(a: Automaton, d: Dict)
    requires Recognizes(a, d)
    ensures ChainOk(a.outputs)
  {
  }

  lemma SuffixMatchesFit(d: Dict, t: seq<byte>)
    ensures forall m :: m in SuffixMatches(d, t) ==> 0 < m.length <= |t|
  {
  }

  /** AcMatchIter: reads bytes and yields the words that end at the last one. */
  class MatchIter {
    const automaton: Automaton
    var state: int
    var pos: nat
    var pendingOut: int
    var pendingEnd: nat

    ghost predicate Valid()
      reads this
    {
      && ChainOk(automaton.outputs)
      && 0 <= pendingOut && (pendingOut == 0 || pendingOut < |automaton.outputs|)
      && forall m :: m in Pending() ==> m.length <= pendingEnd
    }

    /** The matches still to be yielded. */
    ghost function Pending(): seq<Match>
      reads this
    {
      Chain(automaton.outputs, pendingOut)
    }

    /** ac_iter_new, and the iterator set up in the middle of a text by the append and
        prepend encoders. */
    constructor (a: Automaton, state: int, pos: nat, ghost d: Dict)
      requires Recognizes(a, d)
      ensures Valid() && automaton == a && this.state == state && Pending() == []
    {
      ChainsOk(a, d);
      automaton := a;
      this.state := state;
      this.pos := pos;
      pendingOut := 0;
      pendingEnd := 0;
    }

    /** ac_iter_advance */
    method Advance(c: byte, endPos: nat, ghost d: Dict, ghost t: seq<byte>) returns (ghost links: nat)
      requires Recognizes(automaton, d) && state == StateAfter(automaton, d, t) && endPos == |t| + 1
      modifies this
      ensures Valid() && state == StateAfter(automaton, d, t + [c])
      ensures Pending() == SuffixMatches(d, t + [c]) && pendingEnd == endPos
      ensures |LongestSuffix(d, t + [c])| + links <= |LongestSuffix(d, t)| + 1
    {
      state, links := AcStep(automaton, d, t, state, c);
      OutputOfState(automaton, d, t + [c]);
      ChainsOk(automaton, d);
      SuffixMatchesFit(d, t + [c]);
      pos := endPos;
      pendingOut := automaton.cells[state].output;
      pendingEnd := endPos;
    }

    /** ac_iter_next_match */
    method NextMatch() returns (found: bool, token: nat, start: nat)
      requires Valid()
      modifies this`pendingOut
      ensures Valid() && found == (old(Pending()) != [])
      ensures found ==> token == old(Pending())[0].token && start == pendingEnd - old(Pending())[0].length
      ensures found ==> Pending() == old(Pending())[1..]
      ensures !found ==> Pending() == []
    {
      if pendingOut == 0 {
        return false, 0, 0;
      }
      var o := automaton.outputs[pendingOut];
      assert Pending() == [Match(o.token, o.startOffset)] + Chain(automaton.outputs, o.next);
      assert Match(o.token, o.startOffset) in Pending();
      token, start := o.token, pendingEnd - o.startOffset;
      found := true;
      pendingOut := o.next;
    }
  }

  // ---- Leftmost-longest search -------------------------------------------------------

  ghost predicate IsMatch(d: Dict, text: seq<byte>, start: nat, end: nat) {
    start < end <= |text| && text[start..end] in d
  }

  /** (start, end) is at least as far left, and as long when it starts at the same place. */
  predicate Beats(start: nat, end: nat, start': nat, end': nat) {
    start < start' || (start == start' && end >= end')
  }

  /** best is the leftmost-longest of the matches that end by i. */
  ghost predicate IsBest(d: Dict, text: seq<byte>, i: nat, best: Option<(nat, nat)>) {
    match best
    case None => forall start: nat, end: nat :: IsMatch(d, text, start, end) ==> i < end
    case Some((s, e)) =>
      && IsMatch(d, text, s, e) && e <= i
      && forall start: nat, end: nat :: IsMatch(d, text, start, end) && end <= i ==> Beats(s, e, start, end)
  }

  datatype Found = Found(token: nat, start: nat, end: nat)

  function Spot(f: Option<Found>): Option<(nat, nat)> {
    match f case None => None case Some(Found(_, s, e)) => Some((s, e))
  }

  ghost predicate FoundIn(d: Dict, text: seq<byte>, f: Option<Found>) {
    f.Some? ==> f.value.start < f.value.end <= |text| && text[f.value.start..f.value.end] in d
                && d[text[f.value.start..f.value.end]] == f.value.token
  }

  lemma BestStep(d: Dict, text: seq<byte>, i: nat, best: Option<Found>, best': Option<Found>)
    requires i < |text| && IsBest(d, text, i, Spot(best)) && FoundIn(d, text, best)
    requires best' == ConsiderAll(SuffixMatches(d, text[..i + 1]), i + 1, best)
    ensures IsBest(d, text, i + 1, Spot(best')) && FoundIn(d, text, best')
  {
    var l := SuffixMatches(d, text[..i + 1]);
    ListDescends(d, text, i + 1);
    ConsiderAllKeepsFirst(l, i + 1, best);
    hide SuffixMatches, ConsiderAll, IsBest;
    forall start: nat, end: nat | IsMatch(d, text, start, end) && end == i + 1
      ensures l != [] && end - start <= l[0].length
    {
      MatchListed(d, text, start, i + 1);
    }
    if l == [] {
      BestKept(d, text, i, best);
    } else {
      assert l[0] in l;
      MatchOfListed(d, text, i + 1, l[0]);
      BestImproved(d, text, i, best, l[0]);
    }
  }

  lemma ListDescends(d: Dict, text: seq<byte>, end: nat)
    requires end <= |text|
    ensures forall j, k :: 0 <= j < k < |SuffixMatches(d, text[..end])| ==>
              SuffixMatches(d, text[..end])[k].length < SuffixMatches(d, text[..end])[j].length <= end
    ensures forall j :: 0 <= j < |SuffixMatches(d, text[..end])| ==> SuffixMatches(d, text[..end])[j].length <= end
  {
    SuffixMatchesExact(d, text[..end]);
  }

  lemma BestKept(d: Dict, text: seq<byte>, i: nat, best: Option<Found>)
    requires i < |text| && IsBest(d, text, i, Spot(best))
    requires forall start: nat, end: nat :: IsMatch(d, text, start, end) ==> end != i + 1
    ensures IsBest(d, text, i + 1, Spot(best))
  {
  }

  /** The longest match that ends next is compared with the best so far. */
  lemma BestImproved(d: Dict, text: seq<byte>, i: nat, best: Option<Found>, m: Match)
    requires i < |text| && IsBest(d, text, i, Spot(best)) && FoundIn(d, text, best)
    requires m.length <= i + 1 && IsMatch(d, text, i + 1 - m.length, i + 1)
    requires d[text[i + 1 - m.length..i + 1]] == m.token
    requires forall start: nat, end: nat :: IsMatch(d, text, start, end) && end == i + 1 ==> end - start <= m.length
    ensures IsBest(d, text, i + 1, Spot(Consider(m, i + 1, best))) && FoundIn(d, text, Consider(m, i + 1, best))
  {
  }

  lemma MatchListed(d: Dict, text: seq<byte>, start: nat, end: nat)
    requires IsMatch(d, text, start, end)
    ensures var l := SuffixMatches(d, text[..end]); l != [] && end - start <= l[0].length
  {
    var t := text[..end];
    var l := SuffixMatches(d, t);
    SuffixMatchesExact(d, t);
    assert t[|t| - (end - start)..] == text[start..end];
    var m := Match(d[text[start..end]], end - start);
    assert m in l;
  }

  lemma MatchOfListed(d: Dict, text: seq<byte>, end: nat, m: Match)
    requires end <= |text| && m in SuffixMatches(d, text[..end])
    ensures m.length <= end && IsMatch(d, text, end - m.length, end) && d[text[end - m.length..end]] == m.token
  {
    SuffixMatchesExact(d, text[..end]);
    assert text[..end][end - m.length..] == text[end - m.length..end];
  }

  /** One comparison of ac_leftmost_longest. */
  function Consider(m: Match, end: nat, best: Option<Found>): Option<Found>
    requires m.length <= end
  {
    var start := end - m.length;
    if best.None? || start < best.value.start || (start == best.value.start && end > best.value.end)
    then Some(Found(m.token, start, end)) else best
  }

  function ConsiderAll(l: seq<Match>, end: nat, best: Option<Found>): Option<Found> {
    if l == [] || l[0].length > end then best
    else ConsiderAll(l[1..], end, Consider(l[0], end, best))
  }

  /** Only the first, longest match of a list can change the best one. */
  lemma {:induction false} ConsiderAllKeepsFirst(l: seq<Match>, end: nat, best: Option<Found>)
    requires forall i, j :: 0 <= i < j < |l| ==> l[i].length > l[j].length
    requires forall i :: 0 <= i < |l| ==> l[i].length <= end
    ensures ConsiderAll(l, end, best) == if l == [] then best else Consider(l[0], end, best)
  {
    if |l| >= 2 {
      ConsiderAllKeepsFirst(l[1..], end, Consider(l[0], end, best));
      assert l[1..][0] == l[1];
    }
  }

  /** Back in the root, no match that started earlier can still be going on. */
  lemma RootEndsSearch(a: Automaton, d: Dict, text: seq<byte>, i: nat, best: Option<Found>)
    requires Recognizes(a, d) && i <= |text| && StateAfter(a, d, text[..i]) == 0
    requires best.Some? && IsBest(d, text, i, Spot(best))
    ensures IsBest(d, text, |text|, Spot(best))
  {
    RootSpellsNothing(a, d, text[..i]);
    forall start: nat, end: nat | IsMatch(d, text, start, end) && i < end ensures i <= start {
      if start < i {
        NothingPending(d, text, i, start, end);
      }
    }
  }

  lemma RootSpellsNothing(a: Automaton, d: Dict, t: seq<byte>)
    requires Recognizes(a, d) && StateAfter(a, d, t) == 0
    ensures LongestSuffix(d, t) == []
  {
    var at, w := Places(a, d), LongestSuffix(d, t);
    LongestSuffixIsSuffix(d, t);
    assert StateOk(a, d, at, w);
  }

  lemma NothingPending(d: Dict, text: seq<byte>, i: nat, start: nat, end: nat)
    requires start < i < end && IsMatch(d, text, start, end)
    ensures LongestSuffix(d, text[..i]) != []
  {
    var w := text[start..i];
    assert w <= text[start..end];
    assert TrieWord(d, w);
    assert text[..i][i - |w|..] == w;
    LongestSuffixIsSuffix(d, text[..i]);
    assert IsSuffix(w, text[..i]);
  }

  /** ac_leftmost_longest, with its early exit in the root. */
  method LeftmostLongest(a: Automaton, ghost d: Dict, text: seq<byte>) returns (best: Option<Found>, ghost links: nat)
    requires Recognizes(a, d)
    ensures IsBest(d, text, |text|, Spot(best)) && FoundIn(d, text, best)
    ensures links <= |text|
  {
    hide Recognizes, StateAfter, IsBest, FoundIn, LongestSuffix, SuffixMatches;
    best := None;
    var state := 0;
    links := 0;
    StartOfSearch(a, d, text);
    var i := 0;
    while i < |text|
      invariant 0 <= i <= |text| && state == StateAfter(a, d, text[..i])
      invariant IsBest(d, text, i, Spot(best)) && FoundIn(d, text, best)
      invariant |LongestSuffix(d, text[..i])| + links <= i
    {
      ghost var before := best;
      ghost var l;
      assert text[..i] + [text[i]] == text[..i + 1];
      state, l := AcStep(a, d, text[..i], state, text[i]);
      links := links + l;
      best := ScanChain(a, d, text[..i + 1], state, best);
      BestStep(d, text, i, before, best);
      i := i + 1;
      if best.Some? && state == 0 {
        RootEndsSearch(a, d, text, i, best);
        return;
      }
    }
    assert text[..|text|] == text;
  }

  lemma StartOfSearch(a: Automaton, d: Dict, text: seq<byte>)
    requires Recognizes(a, d)
    ensures StateAfter(a, d, text[..0]) == 0 && LongestSuffix(d, text[..0]) == []
    ensures IsBest(d, text, 0, None) && FoundIn(d, text, None)
  {
  }

  /** The inner loop of ac_leftmost_longest. */
  method ScanChain(a: Automaton, ghost d: Dict, t: seq<byte>, state: int, best0: Option<Found>)
      returns (best: Option<Found>)
    requires Recognizes(a, d) && state == StateAfter(a, d, t)
    ensures best == ConsiderAll(SuffixMatches(d, t), |t|, best0)
  {
    hide Recognizes, StateAfter;
    OutputOfState(a, d, t);
    ChainsOk(a, d);
    SuffixMatchesFit(d, t);
    best := best0;
    var out := a.cells[state].output;
    while out != 0
      invariant 0 <= out < |a.outputs|
      invariant forall m :: m in Chain(a.outputs, out) ==> m.length <= |t|
      invariant ConsiderAll(Chain(a.outputs, out), |t|, best) == ConsiderAll(SuffixMatches(d, t), |t|, best0)
      decreases out
    {
      var o := a.outputs[out];
      var m := Match(o.token, o.startOffset);
      assert Chain(a.outputs, out) == [m] + Chain(a.outputs, o.next);
      assert m in Chain(a.outputs, out);
      best := Consider(m, |t|, best);
      out := o.next;
    }
  }
}
