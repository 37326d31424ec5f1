/** The order in which a merge pushes its two new candidates. */
module PushOrder {

  // Ordered by identifier alone it shows: of two equal candidates the one to the right was pushed first.

  import opened Vocabulary
  import opened Merging
  import opened Heaps
  import opened HeapMerging
  import opened TripleTies

  /** The tokens b, c, cc, bb and bbb. */
  const RIGHT_FIRST := Vocab([[0], [1], [1, 1], [0, 0], [0, 0, 0]], [0, 1, 1, 0, 3], [0, 1, 1, 0, 0])

  /** bbbbcc */
  const BETWEEN: seq<byte> := [0, 0, 0, 0, 1, 1]

  lemma RightFirstWellFormed()
    ensures WellFormed(RIGHT_FIRST)
  {
    RightFirstShape();
    hide NoCrossBelow;
    RightFirstRules();
  }

  lemma RightFirstShape()
    ensures Shape(RIGHT_FIRST) && DistinctBytes(RIGHT_FIRST)
  {
  }

  lemma RightFirstRules()
    ensures NoCrossBelow(RIGHT_FIRST, 1, 1, 2) && NoCrossBelow(RIGHT_FIRST, 0, 0, 3)
    ensures NoCrossBelow(RIGHT_FIRST, 3, 0, 4)
  {
  }

  lemma BetweenSolid()
    ensures Solid(RIGHT_FIRST)
  {
  }

  lemma BetweenSingles()
    ensures Covers(RIGHT_FIRST, BETWEEN) && Singles(RIGHT_FIRST, BETWEEN) == [0, 0, 0, 0, 1, 1]
  {
    var v := RIGHT_FIRST;
    BetweenSolid();
    ByteTokenIs(v, 0, 0);
    ByteTokenIs(v, 1, 1);
    hide Solid, IsByteToken;
    DecodeSingles(v, BETWEEN);
  }

  lemma ByteTokenIs(v: Vocab, b: byte, x: nat)
    requires Solid(v) && x < |v.bytes| && v.bytes[x] == [b]
    ensures IsByteToken(v, b) && ByteToken(v, b) == x
  {
  }

  lemma NoSuchToken(bytes: seq<byte>)
    requires bytes == [0, 1] || bytes == [0, 1, 1] || bytes == [0, 0, 0, 1, 1] || bytes == [0, 0, 0, 0]
    ensures TokenFor(RIGHT_FIRST, bytes) == None
  {
  }

  ghost predicate HasWidths(v: Vocab, s: seq<nat>, w: seq<nat>) {
    Tokens(v, s) && |w| == |s| && forall j :: 0 <= j < |s| ==> w[j] == |v.bytes[s[j]]|
  }

  lemma {:induction false} WidthOffset(v: Vocab, s: seq<nat>, w: seq<nat>, i: nat)
    requires HasWidths(v, s, w) && i <= |s|
    ensures Offset(v, s, i) == Sum(w, i)
    decreases i
  {
    if i == 0 {
      OffsetEnds(v, s);
    } else {
      WidthOffset(v, s, w, i - 1);
      OffsetStep(v, s, i - 1);
    }
  }

  lemma MergeAt(v: Vocab, s: seq<nat>, w: seq<nat>, i: nat, h: seq<HeapItem>)
    requires Solid(v) && HasWidths(v, s, w) && i + 1 < |s| && h != [] && h[0].priority < |v.bytes|
    requires h[0].start == Sum(w, i) && |v.bytes[h[0].priority]| == w[i] + w[i + 1]
    ensures var s' := Replace(s, i, h[0].priority);
            && Tokens(v, s')
            && Run(v, false, s, h) == Run(v, false, s', WithNew(v, false, s', i, Popped(false, h)))
  {
    hide Solid, Popped, WithNew, Sum, Offset;
    WidthOffset(v, s, w, i);
    SolidSized(v, s);
    PlaceUnique(v, s, h[0], i);
  }

  lemma StaleAt(v: Vocab, s: seq<nat>, w: seq<nat>, h: seq<HeapItem>)
    requires HasWidths(v, s, w) && h != [] && h[0].priority < |v.bytes|
    requires forall i: nat :: i + 1 < |s| && Sum(w, i) == h[0].start ==> w[i] + w[i + 1] != |v.bytes[h[0].priority]|
    ensures Run(v, false, s, h) == Run(v, false, s, Popped(false, h))
  {
    hide Popped, Sum, Offset;
    forall i: nat ensures !AppliesAt(v, s, h[0], i) {
      if i + 1 < |s| { WidthOffset(v, s, w, i); }
    }
  }

  lemma SeedsOne()
    ensures forall i: nat :: i < 3 ==> SeedAt(RIGHT_FIRST, BETWEEN, i) == Some(3)
    ensures SeedAt(RIGHT_FIRST, BETWEEN, 3) == None && SeedAt(RIGHT_FIRST, BETWEEN, 4) == Some(2)
  {
    BetweenSolid();
    TokenForIs(RIGHT_FIRST, [0, 0], 3);
    TokenForIs(RIGHT_FIRST, [1, 1], 2);
    NoSuchToken([0, 1]);
    hide Solid, TokenFor;
    var t := BETWEEN;
    assert t[0..2] == t[1..3] == t[2..4] == [0, 0] && t[3..5] == [0, 1] && t[4..6] == [1, 1];
  }

  lemma PushedBetween(a: HeapItem, c: HeapItem, d: HeapItem, e: HeapItem)
    requires a.priority == c.priority == d.priority > e.priority
    ensures Pushed(false, [a], c) == [a, c] && Pushed(false, [a, c], d) == [a, c, d]
    ensures Pushed(false, [a, c, d], e) == [e, a, d, c]
  {
    assert Swap([a, c, d, e], 1, 3) == [a, e, d, c] && Swap([a, e, d, c], 0, 1) == [e, a, d, c];
    assert SiftUp(false, [a, e, d, c], 1) == [e, a, d, c];
    assert SiftUp(false, [a, c, d, e], 3) == SiftUp(false, [a, e, d, c], 1);
  }

  lemma SeedsBetween()
    ensures Seeds(RIGHT_FIRST, false, BETWEEN, 5) == [HeapItem(2, 4), HeapItem(3, 0), HeapItem(3, 2), HeapItem(3, 1)]
  {
    hide SeedAt, Pushed;
    SeedsOne();
    var v, t := RIGHT_FIRST, BETWEEN;
    var a, c, d, e := HeapItem(3, 0), HeapItem(3, 1), HeapItem(3, 2), HeapItem(2, 4);
    PushedBetween(a, c, d, e);
    PushedFirst(a);
    assert Seeds(v, false, t, 1) == [a];
    assert Seeds(v, false, t, 2) == [a, c];
    assert Seeds(v, false, t, 3) == [a, c, d];
    assert Seeds(v, false, t, 4) == [a, c, d];
  }

  lemma PushedFirst(a: HeapItem)
    ensures Pushed(false, [], a) == [a]
  {
  }

  // ---- The run ------------------------------------------------------------------------------------

  lemma HeapsBetween()
    ensures Popped(false, [HeapItem(2, 4), HeapItem(3, 0), HeapItem(3, 2), HeapItem(3, 1)]) ==
            [HeapItem(3, 1), HeapItem(3, 0), HeapItem(3, 2)]
    ensures Popped(false, [HeapItem(3, 1), HeapItem(3, 0), HeapItem(3, 2)]) == [HeapItem(3, 2), HeapItem(3, 0)]
    ensures Popped(false, [HeapItem(3, 2), HeapItem(3, 0), HeapItem(4, 1), HeapItem(4, 0)]) ==
            [HeapItem(3, 0), HeapItem(4, 0), HeapItem(4, 1)]
    ensures Popped(false, [HeapItem(3, 0), HeapItem(4, 0), HeapItem(4, 1)]) == [HeapItem(4, 1), HeapItem(4, 0)]
    ensures Popped(false, [HeapItem(4, 1), HeapItem(4, 0)]) == [HeapItem(4, 0)]
    ensures Popped(false, [HeapItem(4, 0)]) == []
  {
    hide Popped, SiftDown;
    var a, c, d, e := HeapItem(3, 0), HeapItem(3, 1), HeapItem(3, 2), HeapItem(2, 4);
    var f, g := HeapItem(4, 1), HeapItem(4, 0);
    assert Rest([e, a, d, c]) == [c, a, d];
    PoppedStays([e, a, d, c], [c, a, d]);
    assert Rest([c, a, d]) == [d, a];
    PoppedStays([c, a, d], [d, a]);
    assert Rest([d, a, f, g]) == [g, a, f];
    PoppedSinksOnce([d, a, f, g], [g, a, f], 1, [a, g, f]);
    assert Rest([a, g, f]) == [f, g];
    PoppedStays([a, g, f], [f, g]);
    PoppedTwo(f, g);
    PoppedOne([g]);
  }

  lemma PushedBehind()
    ensures Pushed(false, [HeapItem(3, 2), HeapItem(3, 0)], HeapItem(4, 1)) ==
            [HeapItem(3, 2), HeapItem(3, 0), HeapItem(4, 1)]
    ensures Pushed(false, [HeapItem(3, 2), HeapItem(3, 0), HeapItem(4, 1)], HeapItem(4, 0)) ==
            [HeapItem(3, 2), HeapItem(3, 0), HeapItem(4, 1), HeapItem(4, 0)]
  {
  }

  lemma JoinIs(s: seq<nat>, i: nat, bytes: seq<byte>)
    requires Tokens(RIGHT_FIRST, s) && i + 1 < |s| && bytes == RIGHT_FIRST.bytes[s[i]] + RIGHT_FIRST.bytes[s[i + 1]]
    ensures bytes == [0, 0, 0] ==> JoinOf(RIGHT_FIRST, s, i) == Some(4)
    ensures bytes == [0, 1, 1] || bytes == [0, 0, 0, 1, 1] || bytes == [0, 0, 0, 0] ==>
              JoinOf(RIGHT_FIRST, s, i) == None
  {
    BetweenSolid();
    if bytes == [0, 0, 0] { TokenForIs(RIGHT_FIRST, bytes, 4); }
    if bytes == [0, 1, 1] || bytes == [0, 0, 0, 1, 1] || bytes == [0, 0, 0, 0] { NoSuchToken(bytes); }
  }

  lemma SecondMerge()
    ensures Tokens(RIGHT_FIRST, [0, 0, 0, 0, 2]) && Tokens(RIGHT_FIRST, [0, 3, 0, 2])
    ensures Run(RIGHT_FIRST, false, [0, 0, 0, 0, 2], [HeapItem(3, 1), HeapItem(3, 0), HeapItem(3, 2)]) ==
            Run(RIGHT_FIRST, false, [0, 3, 0, 2], [HeapItem(3, 2), HeapItem(3, 0), HeapItem(4, 1), HeapItem(4, 0)])
  {
    var v := RIGHT_FIRST;
    hide Solid, Run, Popped, JoinOf, Pushed, Offset;
    BetweenSolid();
    HeapsBetween();
    PushedBehind();
    var s, s2, w, w2 := [0, 0, 0, 0, 2], [0, 3, 0, 2], [1, 1, 1, 1, 2], [1, 2, 1, 2];
    assert HasWidths(v, s, w) && HasWidths(v, s2, w2);
    assert Sum(w, 1) == 1 && Sum(w2, 1) == 1;
    MergeAt(v, s, w, 1, [HeapItem(3, 1), HeapItem(3, 0), HeapItem(3, 2)]);
    assert Replace(s, 1, 3) == s2;
    JoinIs(s2, 1, [0, 0, 0]);
    JoinIs(s2, 0, [0, 0, 0]);
    WidthOffset(v, s2, w2, 1);
    WidthOffset(v, s2, w2, 0);
  }

  /** The pair of c first, then the middle pair of b. */
  lemma FirstMerges(h: seq<HeapItem>)
    requires h == [HeapItem(2, 4), HeapItem(3, 0), HeapItem(3, 2), HeapItem(3, 1)]
    ensures Tokens(RIGHT_FIRST, [0, 0, 0, 0, 1, 1]) && Tokens(RIGHT_FIRST, [0, 3, 0, 2])
    ensures Run(RIGHT_FIRST, false, [0, 0, 0, 0, 1, 1], h) ==
            Run(RIGHT_FIRST, false, [0, 3, 0, 2], [HeapItem(3, 2), HeapItem(3, 0), HeapItem(4, 1), HeapItem(4, 0)])
  {
    var v := RIGHT_FIRST;
    hide Solid, Run, Popped, JoinOf, Pushed, Offset;
    BetweenSolid();
    HeapsBetween();
    var s, s', w, w' := [0, 0, 0, 0, 1, 1], [0, 0, 0, 0, 2], [1, 1, 1, 1, 1, 1], [1, 1, 1, 1, 2];
    assert HasWidths(v, s, w) && HasWidths(v, s', w');
    FourSingles(w);
    MergeAt(v, s, w, 4, h);
    assert Replace(s, 4, 2) == s';
    JoinIs(s', 3, [0, 1, 1]);
    SecondMerge();
  }

  lemma FourSingles(w: seq<nat>)
    requires |w| > 4 && w[0] == w[1] == w[2] == w[3] == 1
    ensures Sum(w, 4) == 4
  {
    FirstSums(w);
  }

  lemma LastMerge(h: seq<HeapItem>)
    requires h == [HeapItem(3, 2), HeapItem(3, 0), HeapItem(4, 1), HeapItem(4, 0)]
    ensures Tokens(RIGHT_FIRST, [0, 3, 0, 2])
    ensures Run(RIGHT_FIRST, false, [0, 3, 0, 2], h) == [0, 4, 2]
  {
    var v := RIGHT_FIRST;
    hide Solid, Run, Popped, JoinOf, Pushed, Offset;
    BetweenSolid();
    HeapsBetween();
    var s, s', w, w' := [0, 3, 0, 2], [0, 4, 2], [1, 2, 1, 2], [1, 3, 2];
    assert HasWidths(v, s, w) && HasWidths(v, s', w');
    assert Sum(w, 1) == 1 && Sum(w, 2) == 3 && Sum(w', 1) == 1;
    StaleAt(v, s, w, h);
    StaleAt(v, s, w, [HeapItem(3, 0), HeapItem(4, 0), HeapItem(4, 1)]);
    MergeAt(v, s, w, 1, [HeapItem(4, 1), HeapItem(4, 0)]);
    assert Replace(s, 1, 4) == s';
    JoinIs(s', 1, [0, 0, 0, 1, 1]);
    JoinIs(s', 0, [0, 0, 0, 0]);
    StaleAt(v, s', w', [HeapItem(4, 0)]);
    RunEnds(v, s');
  }

  /** In C's order bbbbcc comes out as b, bbb and cc: the join of bb with the b behind it comes up before the one with
      the b in front. */
  lemma RightComesFirst()
    ensures Covers(RIGHT_FIRST, BETWEEN) && HeapEncoding(RIGHT_FIRST, false, BETWEEN) == [0, 4, 2]
  {
    hide Covers, Run, Seeds, Tokens;
    BetweenSingles();
    SeedsBetween();
    FirstMerges(Seeds(RIGHT_FIRST, false, BETWEEN, 5));
    LastMerge([HeapItem(3, 2), HeapItem(3, 0), HeapItem(4, 1), HeapItem(4, 0)]);
  }
}
