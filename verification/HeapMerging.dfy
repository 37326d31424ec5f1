/** Merging with a lazy heap. */
module HeapMerging {

  // The heap of candidate merges is never cleaned: a candidate whose text no longer is two
  // neighbouring segments is dropped when it comes up.

  import opened Vocabulary
  import opened Merging
  import opened Chain
  import opened LowestFirst
  import opened Heaps

  // ---- Borders ------------------------------------------------------------------------------

  /** Where segment i begins in the text. */
  ghost function Offset(v: Vocab, s: seq<nat>, i: nat): nat
    requires Tokens(v, s) && i <= |s|
  {
    |Decode(v, s[..i])|
  }

  ghost predicate Sized(v: Vocab, s: seq<nat>) {
    Tokens(v, s) && forall i :: 0 <= i < |s| ==> v.bytes[s[i]] != []
  }

  /** Tokens with bytes, all of them different: of a vocabulary the heap encoder looks at nothing else. */
  ghost predicate Solid(v: Vocab) {
    DistinctBytes(v) && forall r :: 0 <= r < |v.bytes| ==> v.bytes[r] != []
  }

  lemma ShapeSolid(v: Vocab)
    requires Shape(v) && DistinctBytes(v)
    ensures Solid(v)
  {
    forall r | 0 <= r < |v.bytes| ensures v.bytes[r] != [] {
      assert ShapeAt(v, r);
    }
  }

  lemma SolidSized(v: Vocab, s: seq<nat>)
    requires Solid(v) && Tokens(v, s)
    ensures Sized(v, s)
  {
  }

  lemma OffsetEnds(v: Vocab, s: seq<nat>)
    requires Tokens(v, s)
    ensures Offset(v, s, 0) == 0 && Offset(v, s, |s|) == |Decode(v, s)|
  {
    assert s[..|s|] == s;
  }

  lemma OffsetStep(v: Vocab, s: seq<nat>, i: nat)
    requires Tokens(v, s) && i < |s|
    ensures Offset(v, s, i + 1) == Offset(v, s, i) + |v.bytes[s[i]]|
    ensures Offset(v, s, i + 1) <= |Decode(v, s)|
    ensures Decode(v, s)[Offset(v, s, i)..Offset(v, s, i + 1)] == v.bytes[s[i]]
  {
    assert s[..i + 1] == s[..i] + [s[i]];
    DecodeOne(v, s[i]);
    DecodeConcat(v, s[..i], [s[i]]);
    DecodeSplit(v, s, i + 1);
  }

  lemma {:induction false} OffsetGrows(v: Vocab, s: seq<nat>, i: nat, j: nat)
    requires Sized(v, s) && i < j <= |s|
    ensures Offset(v, s, i) < Offset(v, s, j)
    decreases j
  {
    OffsetStep(v, s, j - 1);
    assert v.bytes[s[j - 1]] != [];
    if i < j - 1 {
      OffsetGrows(v, s, i, j - 1);
    }
  }

  lemma OffsetOrder(v: Vocab, s: seq<nat>, i: nat, j: nat)
    requires Sized(v, s) && i <= |s| && j <= |s|
    ensures Offset(v, s, i) < Offset(v, s, j) <==> i < j
    ensures Offset(v, s, i) == Offset(v, s, j) <==> i == j
  {
    if i < j { OffsetGrows(v, s, i, j); }
    if j < i { OffsetGrows(v, s, j, i); }
  }

  lemma OffsetBound(v: Vocab, s: seq<nat>, i: nat)
    requires Sized(v, s) && i <= |s|
    ensures Offset(v, s, i) <= |Decode(v, s)| && (Offset(v, s, i) < |Decode(v, s)| <==> i < |s|)
  {
    OffsetEnds(v, s);
    OffsetOrder(v, s, i, |s|);
  }

  /** Two neighbouring segments as a piece of the text. */
  lemma PairText(v: Vocab, s: seq<nat>, i: nat)
    requires Tokens(v, s) && i + 1 < |s|
    ensures Offset(v, s, i + 2) == Offset(v, s, i) + |v.bytes[s[i]]| + |v.bytes[s[i + 1]]|
    ensures Offset(v, s, i + 2) <= |Decode(v, s)|
    ensures Decode(v, s)[Offset(v, s, i)..Offset(v, s, i + 2)] == v.bytes[s[i]] + v.bytes[s[i + 1]]
  {
    OffsetStep(v, s, i);
    OffsetStep(v, s, i + 1);
    var t, a, b, c := Decode(v, s), Offset(v, s, i), Offset(v, s, i + 1), Offset(v, s, i + 2);
    assert t[a..c] == t[a..b] + t[b..c];
  }

  lemma ReplacePrefix(s: seq<nat>, i: nat, r: nat, j: nat)
    requires i < j < |s| && i + 1 < |s|
    ensures Replace(s, i, r)[..j] == Replace(s[..j + 1], i, r)
  {
  }

  lemma ReplaceOffset(v: Vocab, s: seq<nat>, i: nat, r: nat, j: nat)
    requires Tokens(v, s) && JoinsAt(v, s, i, r) && j <= |s| - 1
    ensures Tokens(v, Replace(s, i, r))
    ensures Offset(v, Replace(s, i, r), j) == Offset(v, s, if j <= i then j else j + 1)
  {
    var s' := Replace(s, i, r);
    JoinDecode(v, s, i, r);
    if j <= i {
      assert s'[..j] == s[..j];
    } else {
      var p := s[..j + 1];
      assert JoinsAt(v, p, i, r);
      ReplacePrefix(s, i, r, j);
      JoinDecode(v, p, i, r);
    }
  }

  // ---- One turn of the loop --------------------------------------------------------------------

  /** The token with exactly these bytes. */
  ghost function TokenFor(v: Vocab, b: seq<byte>): Option<nat> {
    if exists x :: 0 <= x < |v.bytes| && v.bytes[x] == b
    then var x :| 0 <= x < |v.bytes| && v.bytes[x] == b; Some(x)
    else None
  }

  lemma TokenForIs(v: Vocab, b: seq<byte>, x: nat)
    requires DistinctBytes(v) && x < |v.bytes| && v.bytes[x] == b
    ensures TokenFor(v, b) == Some(x)
  {
  }

  ghost function PushToken(byPosition: bool, h: seq<HeapItem>, x: Option<nat>, start: nat): seq<HeapItem> {
    match x
    case None => h
    case Some(r) => Pushed(byPosition, h, HeapItem(r, start))
  }

  /** The candidate is as long as the two segments at its start together. */
  ghost predicate AppliesAt(v: Vocab, s: seq<nat>, x: HeapItem, i: nat)
    requires Tokens(v, s) && x.priority < |v.bytes|
  {
    && i + 1 < |s| && Offset(v, s, i) == x.start
    && |v.bytes[x.priority]| == |v.bytes[s[i]]| + |v.bytes[s[i + 1]]|
  }

  ghost predicate Applies(v: Vocab, s: seq<nat>, x: HeapItem)
    requires Tokens(v, s) && x.priority < |v.bytes|
  {
    exists i: nat :: AppliesAt(v, s, x, i)
  }

  ghost function Place(v: Vocab, s: seq<nat>, x: HeapItem): (i: nat)
    requires Tokens(v, s) && x.priority < |v.bytes| && Applies(v, s, x)
    ensures AppliesAt(v, s, x, i)
  {
    var i: nat :| AppliesAt(v, s, x, i); i
  }

  lemma PlaceUnique(v: Vocab, s: seq<nat>, x: HeapItem, i: nat)
    requires Sized(v, s) && x.priority < |v.bytes| && AppliesAt(v, s, x, i)
    ensures Applies(v, s, x) && Place(v, s, x) == i
  {
    var j := Place(v, s, x);
    OffsetOrder(v, s, i, j);
  }

  /** What the segments at i and i + 1 would join to. */
  ghost function JoinOf(v: Vocab, s: seq<nat>, i: nat): Option<nat>
    requires Tokens(v, s) && i + 1 < |s|
  {
    TokenFor(v, v.bytes[s[i]] + v.bytes[s[i + 1]])
  }

  /** After the segments at i were merged: the heap with the merges to the right and to the
      left that this makes possible. */
  ghost function WithNew(v: Vocab, byPosition: bool, s: seq<nat>, i: nat, h: seq<HeapItem>): seq<HeapItem>
    requires Tokens(v, s) && i < |s|
  {
    var h1 := if i + 1 < |s| then PushToken(byPosition, h, JoinOf(v, s, i), Offset(v, s, i)) else h;
    if i > 0 then PushToken(byPosition, h1, JoinOf(v, s, i - 1), Offset(v, s, i - 1)) else h1
  }

  lemma ReplaceTokens(v: Vocab, s: seq<nat>, i: nat, r: nat)
    requires Tokens(v, s) && i + 1 < |s| && r < |v.bytes|
    ensures Tokens(v, Replace(s, i, r)) && |Replace(s, i, r)| == |s| - 1
  {
  }

  /** The segments after one turn on candidate x. */
  ghost function NextSegments(v: Vocab, s: seq<nat>, x: HeapItem): (s': seq<nat>)
    requires Tokens(v, s) && x.priority < |v.bytes|
    ensures Tokens(v, s') && |s'| == if Applies(v, s, x) then |s| - 1 else |s|
  {
    if Applies(v, s, x) then
      ReplaceTokens(v, s, Place(v, s, x), x.priority);
      Replace(s, Place(v, s, x), x.priority)
    else s
  }

  /** The heap after one turn on candidate x. */
  ghost function NextHeap(v: Vocab, byPosition: bool, s: seq<nat>, x: HeapItem, rest: seq<HeapItem>): (h: seq<HeapItem>)
    requires Tokens(v, s) && x.priority < |v.bytes|
    ensures !Applies(v, s, x) ==> h == rest
  {
    if Applies(v, s, x) then WithNew(v, byPosition, NextSegments(v, s, x), Place(v, s, x), rest) else rest
  }

  /** The loop of encode_into_bitfield run to its end.  A candidate that is no token cannot
      come up; the run would stop there. */
  ghost function Run(v: Vocab, byPosition: bool, s: seq<nat>, h: seq<HeapItem>): seq<nat>
    requires Tokens(v, s)
    decreases |s|, |h|
  {
    if h == [] || h[0].priority >= |v.bytes| then s
    else Run(v, byPosition, NextSegments(v, s, h[0]), NextHeap(v, byPosition, s, h[0], Popped(byPosition, h)))
  }

  /** The token made of the two bytes at i. */
  ghost function SeedAt(v: Vocab, t: seq<byte>, i: nat): Option<nat>
    requires i + 1 < |t|
  {
    TokenFor(v, t[i..i + 2])
  }

  /** The heap seeded with the first n pairs of bytes. */
  ghost function Seeds(v: Vocab, byPosition: bool, t: seq<byte>, n: nat): seq<HeapItem>
    requires n < |t| || n == 0
  {
    if n == 0 then []
    else PushToken(byPosition, Seeds(v, byPosition, t, n - 1), SeedAt(v, t, n - 1), n - 1)
  }

  ghost function PairCount(t: seq<byte>): (n: nat)
    ensures n < |t| || n == 0
  {
    if t == [] then 0 else |t| - 1
  }

  ghost function HeapEncoding(v: Vocab, byPosition: bool, t: seq<byte>): seq<nat>
    requires Covers(v, t)
  {
    DecodeSingles(v, t);
    Run(v, byPosition, Singles(v, t), Seeds(v, byPosition, t, PairCount(t)))
  }

  // ---- What every turn keeps --------------------------------------------------------------------

  /** The candidate's token is what the text holds at its start. */
  ghost predicate Spells(v: Vocab, t: seq<byte>, x: HeapItem) {
    x.priority < |v.bytes| && x.start <= |t| && 2 <= |v.bytes[x.priority]| && v.bytes[x.priority] <= t[x.start..]
  }

  ghost predicate AllSpell(v: Vocab, t: seq<byte>, h: seq<HeapItem>) {
    forall x :: x in h ==> Spells(v, t, x)
  }

  /** Every pair of neighbours that spells a token has its candidate in the heap. */
  ghost predicate Pending(v: Vocab, s: seq<nat>, h: seq<HeapItem>)
    requires Tokens(v, s)
  {
    forall i: nat, r: nat :: JoinsAt(v, s, i, r) ==> HeapItem(r, Offset(v, s, i)) in h
  }

  ghost predicate TurnOk(v: Vocab, byPosition: bool, t: seq<byte>, s: seq<nat>, h: seq<HeapItem>) {
    && Tokens(v, s) && Decode(v, s) == t
    && IsHeap(byPosition, h) && AllSpell(v, t, h) && Pending(v, s, h)
  }

  lemma SpellsText(v: Vocab, s: seq<nat>, x: HeapItem, i: nat)
    requires Tokens(v, s) && Spells(v, Decode(v, s), x) && AppliesAt(v, s, x, i)
    ensures JoinsAt(v, s, i, x.priority)
  {
    PairText(v, s, i);
    var t, a, c := Decode(v, s), Offset(v, s, i), Offset(v, s, i + 2);
    assert v.bytes[x.priority] == t[a..][..c - a];
    assert t[a..][..c - a] == t[a..c];
  }

  /** A candidate that two neighbours do spell applies. */
  lemma JoinApplies(v: Vocab, s: seq<nat>, i: nat, r: nat)
    requires Sized(v, s) && JoinsAt(v, s, i, r)
    ensures Applies(v, s, HeapItem(r, Offset(v, s, i))) && Place(v, s, HeapItem(r, Offset(v, s, i))) == i
  {
    PlaceUnique(v, s, HeapItem(r, Offset(v, s, i)), i);
  }

  lemma JoinSpells(v: Vocab, s: seq<nat>, i: nat, r: nat)
    requires Sized(v, s) && JoinsAt(v, s, i, r)
    ensures Spells(v, Decode(v, s), HeapItem(r, Offset(v, s, i)))
  {
    PairText(v, s, i);
    var t, a, c := Decode(v, s), Offset(v, s, i), Offset(v, s, i + 2);
    assert t[a..c] == t[a..][..c - a];
  }

  lemma JoinOfIs(v: Vocab, s: seq<nat>, i: nat, r: nat)
    requires Tokens(v, s) && i + 1 < |s| && DistinctBytes(v)
    ensures JoinsAt(v, s, i, r) <==> JoinOf(v, s, i) == Some(r)
  {
  }

  /** Only the top candidate can be the one taken off. */
  lemma OtherStays(byPosition: bool, h: seq<HeapItem>, x: HeapItem)
    requires h != [] && IsHeap(byPosition, h) && x in h && x != h[0]
    ensures x in Popped(byPosition, h)
  {
    PoppedHeap(byPosition, h);
    assert x in multiset(h);
    hide *;
    assert x in multiset(Popped(byPosition, h)) + multiset{h[0]};
    assert x in multiset(Popped(byPosition, h));
  }

  lemma PoppedSpells(v: Vocab, byPosition: bool, t: seq<byte>, h: seq<HeapItem>)
    requires h != [] && IsHeap(byPosition, h) && AllSpell(v, t, h)
    ensures IsHeap(byPosition, Popped(byPosition, h)) && AllSpell(v, t, Popped(byPosition, h))
  {
    PoppedHeap(byPosition, h);
    hide IsHeap, Popped, Spells;
    forall x | x in Popped(byPosition, h) ensures Spells(v, t, x) {
      assert x in multiset(Popped(byPosition, h)) + multiset{h[0]};
      assert x in multiset(h);
    }
  }

  /** The top candidate comes before every pending join. */
  lemma TopLowest(v: Vocab, byPosition: bool, t: seq<byte>, s: seq<nat>, h: seq<HeapItem>)
    requires TurnOk(v, byPosition, t, s, h) && Sized(v, s) && h != [] && h[0].priority < |v.bytes|
    requires Applies(v, s, h[0])
    ensures LowestJoin(v, byPosition, s, Place(v, s, h[0]), h[0].priority)
  {
    var i, r := Place(v, s, h[0]), h[0].priority;
    assert Spells(v, t, h[0]);
    SpellsText(v, s, h[0], i);
    forall j: nat, q: nat | JoinsAt(v, s, j, q) ensures r <= q && (byPosition && q == r ==> i <= j) {
      PendingAfter(v, byPosition, s, h, j, q);
      OffsetOrder(v, s, j, i);
    }
  }

  lemma PendingAfter(v: Vocab, byPosition: bool, s: seq<nat>, h: seq<HeapItem>, j: nat, q: nat)
    requires Tokens(v, s) && IsHeap(byPosition, h) && Pending(v, s, h) && h != [] && JoinsAt(v, s, j, q)
    ensures NotAfter(byPosition, h[0], HeapItem(q, Offset(v, s, j)))
  {
    assert HeapItem(q, Offset(v, s, j)) in h;
    var k :| 0 <= k < |h| && h[k] == HeapItem(q, Offset(v, s, j));
    TopIsLeast(byPosition, h, k);
  }

  // ---- A turn that changes nothing -----------------------------------------------------------

  lemma StaleTurn(v: Vocab, byPosition: bool, t: seq<byte>, s: seq<nat>, h: seq<HeapItem>)
    requires TurnOk(v, byPosition, t, s, h) && Sized(v, s) && h != [] && h[0].priority < |v.bytes|
    requires !Applies(v, s, h[0])
    ensures TurnOk(v, byPosition, t, s, Popped(byPosition, h))
  {
    PoppedSpells(v, byPosition, t, h);
    forall i: nat, r: nat | JoinsAt(v, s, i, r) ensures HeapItem(r, Offset(v, s, i)) in Popped(byPosition, h) {
      JoinApplies(v, s, i, r);
      OtherStays(byPosition, h, HeapItem(r, Offset(v, s, i)));
    }
  }

  // ---- A turn that merges ----------------------------------------------------------------------

  lemma PushTokenKeeps(v: Vocab, byPosition: bool, t: seq<byte>, h: seq<HeapItem>, x: Option<nat>, start: nat)
    requires IsHeap(byPosition, h) && AllSpell(v, t, h) && (x.Some? ==> Spells(v, t, HeapItem(x.value, start)))
    ensures var h' := PushToken(byPosition, h, x, start);
            && IsHeap(byPosition, h') && AllSpell(v, t, h')
            && (forall y :: y in h ==> y in h') && (x.Some? ==> HeapItem(x.value, start) in h')
  {
    if x.Some? {
      var y := HeapItem(x.value, start);
      PushedHeap(byPosition, h, y);
      hide IsHeap, Pushed, Spells;
      var h' := Pushed(byPosition, h, y);
      forall z ensures z in h' <==> z in h || z == y {
        assert z in multiset(h') <==> z in multiset(h) + multiset{y};
        assert z in h' <==> z in multiset(h');
        assert z in h <==> z in multiset(h);
      }
    }
  }

  lemma JoinOfSpells(v: Vocab, t: seq<byte>, s: seq<nat>, i: nat)
    requires Sized(v, s) && Decode(v, s) == t && i + 1 < |s|
    ensures JoinOf(v, s, i).Some? ==> Spells(v, t, HeapItem(JoinOf(v, s, i).value, Offset(v, s, i)))
  {
    if JoinOf(v, s, i).Some? {
      JoinSpells(v, s, i, JoinOf(v, s, i).value);
    }
  }

  lemma WithNewKeeps(v: Vocab, byPosition: bool, t: seq<byte>, s: seq<nat>, i: nat, h: seq<HeapItem>)
    requires Sized(v, s) && Decode(v, s) == t && i < |s| && DistinctBytes(v)
    requires IsHeap(byPosition, h) && AllSpell(v, t, h)
    ensures var h' := WithNew(v, byPosition, s, i, h);
            && IsHeap(byPosition, h') && AllSpell(v, t, h')
            && (forall y :: y in h ==> y in h')
            && (forall j: nat, r: nat :: (j == i || j + 1 == i) && JoinsAt(v, s, j, r) ==>
                  HeapItem(r, Offset(v, s, j)) in h')
  {
    var h1 := if i + 1 < |s| then PushToken(byPosition, h, JoinOf(v, s, i), Offset(v, s, i)) else h;
    if i + 1 < |s| {
      JoinOfSpells(v, t, s, i);
      PushTokenKeeps(v, byPosition, t, h, JoinOf(v, s, i), Offset(v, s, i));
    }
    if i > 0 {
      JoinOfSpells(v, t, s, i - 1);
      PushTokenKeeps(v, byPosition, t, h1, JoinOf(v, s, i - 1), Offset(v, s, i - 1));
    }
    hide IsHeap, AllSpell, PushToken, JoinOf, Offset;
    forall j: nat, r: nat | (j == i || j + 1 == i) && JoinsAt(v, s, j, r)
      ensures HeapItem(r, Offset(v, s, j)) in WithNew(v, byPosition, s, i, h)
    {
      JoinOfIs(v, s, j, r);
    }
  }

  /** A join of the new segments away from the merge was a join of the old ones. */
  lemma OldJoin(v: Vocab, s: seq<nat>, i: nat, r: nat, j: nat, q: nat)
    requires Sized(v, s) && JoinsAt(v, s, i, r) && j != i && j + 1 != i && JoinsAt(v, Replace(s, i, r), j, q)
    ensures Tokens(v, Replace(s, i, r))
    ensures var k := if j < i then j else j + 1;
            && JoinsAt(v, s, k, q) && Offset(v, Replace(s, i, r), j) == Offset(v, s, k)
                && Offset(v, s, k) != Offset(v, s, i)
  {
    ReplaceOffset(v, s, i, r, j);
    OffsetOrder(v, s, i, if j < i then j else j + 1);
  }

  lemma MergeTurn(v: Vocab, byPosition: bool, t: seq<byte>, s: seq<nat>, h: seq<HeapItem>)
    requires TurnOk(v, byPosition, t, s, h) && Sized(v, s) && DistinctBytes(v)
    requires h != [] && h[0].priority < |v.bytes| && Applies(v, s, h[0])
    ensures TurnOk(v, byPosition, t, NextSegments(v, s, h[0]), NextHeap(v, byPosition, s, h[0], Popped(byPosition, h)))
  {
    var x, i, rest := h[0], Place(v, s, h[0]), Popped(byPosition, h);
    var s' := Replace(s, i, x.priority);
    TopLowest(v, byPosition, t, s, h);
    assert JoinsAt(v, s, i, x.priority);
    JoinDecode(v, s, i, x.priority);
    PoppedSpells(v, byPosition, t, h);
    WithNewKeeps(v, byPosition, t, s', i, rest);
    var h' := WithNew(v, byPosition, s', i, rest);
    hide IsHeap, AllSpell, WithNew, Popped, Decode, JoinsAt, Offset, Place, LowestJoin;
    forall j: nat, q: nat | JoinsAt(v, s', j, q) ensures HeapItem(q, Offset(v, s', j)) in h' {
      if j != i && j + 1 != i {
        OldJoin(v, s, i, x.priority, j, q);
        OtherStays(byPosition, h, HeapItem(q, Offset(v, s', j)));
      }
    }
  }

  // ---- A whole run ------------------------------------------------------------------------------

  lemma PendingDone(v: Vocab, s: seq<nat>)
    requires Tokens(v, s) && Pending(v, s, [])
    ensures NoJoin(v, s)
  {
  }

  /** Every merge a run performs is the lowest possible join at its turn, leftmost if the
      heap orders by position, and the run ends when no neighbours join. */
  lemma {:induction false} RunReaches(v: Vocab, byPosition: bool, t: seq<byte>, s: seq<nat>, h: seq<HeapItem>)
    requires Solid(v) && TurnOk(v, byPosition, t, s, h)
    ensures Reaches(v, byPosition, s, Run(v, byPosition, s, h))
    ensures NoJoin(v, Run(v, byPosition, s, h))
    ensures Tokens(v, Run(v, byPosition, s, h)) && Decode(v, Run(v, byPosition, s, h)) == t
    decreases |s|, |h|
  {
    if h == [] {
      PendingDone(v, s);
    } else {
      assert Spells(v, t, h[0]);
      SolidSized(v, s);
      var rest := Popped(byPosition, h);
      var s', h' := NextSegments(v, s, h[0]), NextHeap(v, byPosition, s, h[0], rest);
      if Applies(v, s, h[0]) {
        TopLowest(v, byPosition, t, s, h);
        MergeTurn(v, byPosition, t, s, h);
        RunReaches(v, byPosition, t, s', h');
      } else {
        StaleTurn(v, byPosition, t, s, h);
        RunReaches(v, byPosition, t, s', h');
      }
    }
  }

  // ---- The encoder --------------------------------------------------------------------------------

  lemma {:induction false} SinglesOffset(v: Vocab, t: seq<byte>, i: nat)
    requires Covers(v, t) && i <= |t|
    ensures Tokens(v, Singles(v, t)) && Offset(v, Singles(v, t), i) == i
    decreases i
  {
    DecodeSingles(v, t);
    if i > 0 {
      SinglesOffset(v, t, i - 1);
      OffsetStep(v, Singles(v, t), i - 1);
    } else {
      OffsetEnds(v, Singles(v, t));
    }
  }

  /** The candidates of the first n pairs are in the heap. */
  ghost predicate Seeded(v: Vocab, t: seq<byte>, n: nat, h: seq<HeapItem>)
    requires n < |t| || n == 0
  {
    forall i: nat :: i < n && SeedAt(v, t, i).Some? ==> HeapItem(SeedAt(v, t, i).value, i) in h
  }

  lemma SeedSpells(v: Vocab, t: seq<byte>, i: nat)
    requires i + 1 < |t| && SeedAt(v, t, i).Some?
    ensures Spells(v, t, HeapItem(SeedAt(v, t, i).value, i))
  {
  }

  lemma {:induction false} SeedsOk(v: Vocab, byPosition: bool, t: seq<byte>, n: nat)
    requires n < |t| || n == 0
    ensures var h := Seeds(v, byPosition, t, n); IsHeap(byPosition, h) && AllSpell(v, t, h) && Seeded(v, t, n, h)
  {
    hide Spells, SeedAt, PushToken, OrderedAt;
    if n > 0 {
      SeedsOk(v, byPosition, t, n - 1);
      if SeedAt(v, t, n - 1).Some? { SeedSpells(v, t, n - 1); }
      PushTokenKeeps(v, byPosition, t, Seeds(v, byPosition, t, n - 1), SeedAt(v, t, n - 1), n - 1);
    }
  }

  lemma JoinIsSeed(v: Vocab, t: seq<byte>, i: nat, r: nat)
    requires DistinctBytes(v) && Covers(v, t) && JoinsAt(v, Singles(v, t), i, r)
    ensures i + 1 < |t| && SeedAt(v, t, i) == Some(r)
  {
    DecodeSingles(v, t);
    hide DistinctBytes, Covers, Tokens, Singles, Decode, SeedAt;
    SeedIs(v, t, i, r);
  }

  lemma SeedIs(v: Vocab, t: seq<byte>, i: nat, r: nat)
    requires DistinctBytes(v) && i + 1 < |t| && r < |v.bytes| && v.bytes[r] == [t[i]] + [t[i + 1]]
    ensures SeedAt(v, t, i) == Some(r)
  {
  }

  lemma SeededPending(v: Vocab, t: seq<byte>, h: seq<HeapItem>)
    requires DistinctBytes(v) && Covers(v, t) && Tokens(v, Singles(v, t)) && Seeded(v, t, PairCount(t), h)
    ensures Pending(v, Singles(v, t), h)
  {
    hide DistinctBytes, Covers, Tokens, Singles, Offset, SeedAt;
    forall i: nat, r: nat | JoinsAt(v, Singles(v, t), i, r) ensures HeapItem(r, Offset(v, Singles(v, t), i)) in h {
      JoinIsSeed(v, t, i, r);
      SinglesOffset(v, t, i);
    }
  }

  lemma StartOk(v: Vocab, byPosition: bool, t: seq<byte>)
    requires DistinctBytes(v) && Covers(v, t)
    ensures TurnOk(v, byPosition, t, Singles(v, t), Seeds(v, byPosition, t, PairCount(t)))
  {
    DecodeSingles(v, t);
    SeedsOk(v, byPosition, t, PairCount(t));
    SeededPending(v, t, Seeds(v, byPosition, t, PairCount(t)));
  }

  /** The heap encoder performs only lowest joins, leftmost among equals if it orders by
      position, and stops exactly when no two neighbours spell a token. */
  lemma HeapJoinsLowest(v: Vocab, byPosition: bool, t: seq<byte>)
    requires Solid(v) && Covers(v, t)
    ensures Tokens(v, Singles(v, t)) && Reaches(v, byPosition, Singles(v, t), HeapEncoding(v, byPosition, t))
    ensures NoJoin(v, HeapEncoding(v, byPosition, t))
    ensures Tokens(v, HeapEncoding(v, byPosition, t)) && Decode(v, HeapEncoding(v, byPosition, t)) == t
  {
    StartOk(v, byPosition, t);
    RunReaches(v, byPosition, t, Singles(v, t), Seeds(v, byPosition, t, PairCount(t)));
  }

  /** Ordered by identifier and position, the heap encoder computes the encoding.  Ordered by
      identifier alone it does unless three copies of a token stand in a row when a rule that
      doubles it is about to run. */
  lemma HeapIsBpe(v: Vocab, byPosition: bool, t: seq<byte>)
    requires WellFormed(v) && Covers(v, t) && (byPosition || !HasTriple(v, t))
    ensures HeapEncoding(v, byPosition, t) == Bpe(v, t)
  {
    ShapeSolid(v);
    HeapJoinsLowest(v, byPosition, t);
    LowestFirstIsBpe(v, byPosition, t, HeapEncoding(v, byPosition, t));
  }

  /** In either order: the result is the encoding exactly when its neighbours pass the pair
      check. */
  lemma HeapIsBpeIffChain(v: Vocab, byPosition: bool, t: seq<byte>)
    requires WellFormed(v) && Covers(v, t)
    ensures HeapEncoding(v, byPosition, t) == Bpe(v, t) <==> IsChain(v, HeapEncoding(v, byPosition, t))
  {
    ShapeSolid(v);
    HeapJoinsLowest(v, byPosition, t);
    hide *;
    if IsChain(v, HeapEncoding(v, byPosition, t)) {
      ChainIsBpe(v, HeapEncoding(v, byPosition, t));
    } else {
      BpeIsChain(v, t);
    }
  }
}
