/** The encoder that keeps segment borders in a bit field and candidate merges in a heap. */
module HeapEncoder {
  import opened Vocabulary
  import opened Merging
  import opened Chain
  import opened FnvHash
  import opened Tables
  import opened BitFields
  import opened LowestFirst
  import opened Heaps
  import opened HeapMerging

  // ---- Borders as bits ----------------------------------------------------------------------

  ghost predicate IsBorder(v: Vocab, s: seq<nat>, p: nat)
    requires Tokens(v, s)
  {
    exists i: nat :: BorderIs(v, s, i, p)
  }

  ghost predicate BorderIs(v: Vocab, s: seq<nat>, i: nat, p: nat)
    requires Tokens(v, s)
  {
    i <= |s| && Offset(v, s, i) == p
  }

  /** Up to the end of the text, exactly the borders of the segments are set. */
  ghost predicate BitsOk(v: Vocab, s: seq<nat>, bits: seq<bool>)
    requires Tokens(v, s)
  {
    && |Decode(v, s)| < |bits|
    && forall p: nat :: p <= |Decode(v, s)| ==> (bits[p] <==> IsBorder(v, s, p))
  }

  lemma BorderSet(v: Vocab, s: seq<nat>, bits: seq<bool>, i: nat)
    requires Sized(v, s) && BitsOk(v, s, bits) && i <= |s|
    ensures Offset(v, s, i) < |bits| && bits[Offset(v, s, i)]
  {
    OffsetBound(v, s, i);
    assert BorderIs(v, s, i, Offset(v, s, i));
  }

  /** p is the first set bit from the given one on. */
  ghost predicate FirstFrom(bits: seq<bool>, from: nat, p: nat) {
    from <= p < |bits| && bits[p] && forall k :: from <= k < p ==> !bits[k]
  }

  /** p is the last set bit up to the given one. */
  ghost predicate LastUpTo(bits: seq<bool>, upTo: nat, p: nat) {
    p <= upTo < |bits| && bits[p] && forall k :: p < k <= upTo ==> !bits[k]
  }

  lemma NextBorder(v: Vocab, s: seq<nat>, bits: seq<bool>, i: nat, p: nat)
    requires Sized(v, s) && BitsOk(v, s, bits) && i < |s| && FirstFrom(bits, Offset(v, s, i) + 1, p)
    ensures p == Offset(v, s, i + 1)
  {
    BorderSet(v, s, bits, i + 1);
    OffsetGrows(v, s, i, i + 1);
    OffsetBound(v, s, i + 1);
    assert IsBorder(v, s, p);
    var j: nat :| BorderIs(v, s, j, p);
    OffsetOrder(v, s, i, j);
    OffsetOrder(v, s, i + 1, j);
  }

  lemma PreviousBorder(v: Vocab, s: seq<nat>, bits: seq<bool>, i: nat, p: nat)
    requires Sized(v, s) && BitsOk(v, s, bits) && 0 < i <= |s| && 0 < Offset(v, s, i)
    requires LastUpTo(bits, Offset(v, s, i) - 1, p)
    ensures p == Offset(v, s, i - 1)
  {
    BorderSet(v, s, bits, i - 1);
    OffsetGrows(v, s, i - 1, i);
    OffsetBound(v, s, i);
    assert IsBorder(v, s, p);
    var j: nat :| BorderIs(v, s, j, p);
    OffsetOrder(v, s, i - 1, j);
    OffsetOrder(v, s, j, i);
  }

  /** A merge removes one border. */
  lemma BordersAfter(v: Vocab, s: seq<nat>, i: nat, r: nat, p: nat)
    requires Sized(v, s) && JoinsAt(v, s, i, r)
    ensures Tokens(v, Replace(s, i, r))
    ensures IsBorder(v, Replace(s, i, r), p) <==> IsBorder(v, s, p) && p != Offset(v, s, i + 1)
  {
    var s' := Replace(s, i, r);
    JoinDecode(v, s, i, r);
    if IsBorder(v, s', p) {
      var j: nat :| BorderIs(v, s', j, p);
      var k := if j <= i then j else j + 1;
      ReplaceOffset(v, s, i, r, j);
      assert BorderIs(v, s, k, p);
      OffsetOrder(v, s, k, i + 1);
    }
    if IsBorder(v, s, p) && p != Offset(v, s, i + 1) {
      var k: nat :| BorderIs(v, s, k, p);
      var j: nat := if k <= i then k else k - 1;
      ReplaceOffset(v, s, i, r, j);
      assert BorderIs(v, s', j, p);
    }
  }

  lemma ClearedOk(v: Vocab, s: seq<nat>, bits: seq<bool>, i: nat, r: nat)
    requires Sized(v, s) && JoinsAt(v, s, i, r) && BitsOk(v, s, bits)
    ensures Offset(v, s, i + 1) < |bits|
    ensures Tokens(v, Replace(s, i, r)) && BitsOk(v, Replace(s, i, r), bits[Offset(v, s, i + 1) := false])
  {
    var mid := Offset(v, s, i + 1);
    BorderSet(v, s, bits, i + 1);
    JoinDecode(v, s, i, r);
    hide IsBorder, Offset, Sized, JoinsAt;
    forall p: nat | p <= |Decode(v, s)|
      ensures bits[mid := false][p] <==> IsBorder(v, Replace(s, i, r), p)
    {
      BordersAfter(v, s, i, r, p);
    }
  }

  // ---- Lookups the loop makes ------------------------------------------------------------------

  /** For texts of up to n bytes the lookups in the tables of v find exactly the tokens of w. */
  ghost predicate Shows(w: Vocab, v: Vocab, slots: seq<Slot<nat>>, hash: seq<byte> -> nat, n: nat) {
    && Searchable(v.bytes, slots) && Solid(w)
    && (forall r :: 0 <= r < |w.bytes| && 2 <= |w.bytes[r]| <= n ==> r < |v.bytes| && v.bytes[r] == w.bytes[r])
    && forall b: seq<byte> :: 2 <= |b| <= n ==> Lookup(v.bytes, slots, hash, b) == TokenFor(w, b)
  }

  lemma ShowsFacts(w: Vocab, v: Vocab, slots: seq<Slot<nat>>, hash: seq<byte> -> nat, n: nat)
    requires Shows(w, v, slots, hash, n)
    ensures Searchable(v.bytes, slots) && |slots| > 0 && Solid(w) && DistinctBytes(w)
  {
  }

  method Find(v: Vocab, slots: seq<Slot<nat>>, hash: seq<byte> -> nat, b: seq<byte>, ghost w: Vocab, ghost n: nat)
      returns (r: Option<nat>)
    requires Shows(w, v, slots, hash, n) && 2 <= |b| <= n
    ensures r == TokenFor(w, b)
  {
    ShowsFacts(w, v, slots, hash, n);
    hide Searchable, Solid, Lookup, TokenFor;
    r := FindTokenByBytes(v, slots, hash, b);
  }

  method NextBit(bf: BitField, ghost v: Vocab, ghost s: seq<nat>, ghost i: nat, start: nat) returns (p: nat)
    requires Sized(v, s) && BitsOk(v, s, bf.Bits()) && i < |s| && start == Offset(v, s, i)
    ensures p == Offset(v, s, i + 1) > start
  {
    BorderSet(v, s, bf.Bits(), i + 1);
    OffsetGrows(v, s, i, i + 1);
    hide BitsOk, Sized, Offset, BitField.Bits;
    p := bf.Successor(start + 1);
    assert FirstFrom(bf.Bits(), start + 1, p);
    NextBorder(v, s, bf.Bits(), i, p);
  }

  method PreviousBit(bf: BitField, ghost v: Vocab, ghost s: seq<nat>, ghost i: nat, start: nat) returns (p: nat)
    requires Sized(v, s) && BitsOk(v, s, bf.Bits()) && 0 < i <= |s| && start == Offset(v, s, i)
    ensures p == Offset(v, s, i - 1) < start
  {
    BorderSet(v, s, bf.Bits(), i - 1);
    BorderSet(v, s, bf.Bits(), i);
    OffsetGrows(v, s, i - 1, i);
    hide BitsOk, Sized, Offset, BitField.Bits;
    p := bf.Predecessor(start - 1);
    assert LastUpTo(bf.Bits(), start - 1, p);
    PreviousBorder(v, s, bf.Bits(), i, p);
  }

  // ---- One turn -----------------------------------------------------------------------------------

  datatype Gap = Gap(mid: nat, end: nat)

  lemma StartInText(v: Vocab, s: seq<nat>, bits: seq<bool>, item: HeapItem)
    requires Tokens(v, s) && BitsOk(v, s, bits) && Spells(v, Decode(v, s), item)
    ensures item.start < |Decode(v, s)| < |bits| && (bits[item.start] <==> IsBorder(v, s, item.start))
    ensures item.priority < |v.bytes| && 2 <= |v.bytes[item.priority]| <= |Decode(v, s)|
  {
  }

  lemma NotBorder(v: Vocab, s: seq<nat>, item: HeapItem)
    requires Tokens(v, s) && item.priority < |v.bytes| && !IsBorder(v, s, item.start)
    ensures !Applies(v, s, item)
  {
    forall i: nat ensures !AppliesAt(v, s, item, i) {
      assert !BorderIs(v, s, i, item.start);
    }
  }

  lemma BorderIndex(v: Vocab, s: seq<nat>, p: nat) returns (i: nat)
    requires Sized(v, s) && IsBorder(v, s, p) && p < |Decode(v, s)|
    ensures i < |s| && Offset(v, s, i) == p
  {
    i :| BorderIs(v, s, i, p);
    OffsetBound(v, s, i);
  }

  /** A candidate whose start is the border i applies just if it applies there. */
  lemma OnlyThere(v: Vocab, s: seq<nat>, item: HeapItem, i: nat)
    requires Sized(v, s) && item.priority < |v.bytes| && i < |s| && Offset(v, s, i) == item.start
    ensures Applies(v, s, item) <==>
            i + 1 < |s| && |v.bytes[item.priority]| == |v.bytes[s[i]]| + |v.bytes[s[i + 1]]|
    ensures Applies(v, s, item) ==> Place(v, s, item) == i
  {
    if Applies(v, s, item) {
      OffsetOrder(v, s, i, Place(v, s, item));
    } else {
      assert !AppliesAt(v, s, item, i);
    }
  }

  /** The three tests a candidate must pass: its start is still a border, another segment
      follows, and the two are as long as its token. */
  method Locate(v: Vocab, text: seq<byte>, bf: BitField, item: HeapItem, ghost w: Vocab, ghost s: seq<nat>)
      returns (gap: Option<Gap>)
    requires Sized(w, s) && Decode(w, s) == text && BitsOk(w, s, bf.Bits()) && Spells(w, text, item)
    requires item.priority < |v.bytes| && v.bytes[item.priority] == w.bytes[item.priority]
    ensures Applies(w, s, item) <==> gap.Some?
    ensures gap.Some? ==> var i := Place(w, s, item);
                          gap.value.mid == Offset(w, s, i + 1) && gap.value.end == Offset(w, s, i + 2)
  {
    StartInText(w, s, bf.Bits(), item);
    hide *;
    var border := bf.IsSet(item.start);
    if !border {
      NotBorder(w, s, item);
      return None;
    }
    ghost var i := BorderIndex(w, s, item.start);
    OnlyThere(w, s, item, i);
    var mid := NextBit(bf, w, s, i, item.start);
    OffsetBound(w, s, i + 1);
    if mid >= |text| {
      return None;
    }
    var end := NextBit(bf, w, s, i + 1, mid);
    PairText(w, s, i);
    if |v.bytes[item.priority]| != end - item.start {
      return None;
    }
    return Some(Gap(mid, end));
  }

  /** Looks for a merge of the segments at i and i + 1. */
  method PushJoin(v: Vocab, slots: seq<Slot<nat>>, hash: seq<byte> -> nat, text: seq<byte>, heap: MinHeap,
                  start: nat, end: nat, ghost w: Vocab, ghost s: seq<nat>, ghost i: nat)
    requires Shows(w, v, slots, hash, |text|) && Sized(w, s) && Decode(w, s) == text && i + 1 < |s|
    requires start == Offset(w, s, i) && end == Offset(w, s, i + 2)
    modifies heap
    ensures heap.data == PushToken(heap.byPosition, old(heap.data), JoinOf(w, s, i), start)
  {
    PairText(w, s, i);
    hide Shows, Tokens, Decode, Offset, TokenFor, Pushed;
    var ext := Find(v, slots, hash, text[start..end], w, |text|);
    if ext.Some? {
      heap.Push(ext.value, start);
    }
  }

  /** Both extensions of the segment at i, which ends at the given place. */
  method Extend(v: Vocab, slots: seq<Slot<nat>>, hash: seq<byte> -> nat, text: seq<byte>, bf: BitField, heap: MinHeap,
                start: nat, end: nat, ghost w: Vocab, ghost s: seq<nat>, ghost i: nat)
    requires Shows(w, v, slots, hash, |text|) && Sized(w, s) && Decode(w, s) == text && BitsOk(w, s, bf.Bits())
    requires i < |s| && start == Offset(w, s, i) && end == Offset(w, s, i + 1)
    modifies heap
    ensures heap.data == WithNew(w, heap.byPosition, s, i, old(heap.data))
  {
    hide *;
    ghost var h0 := heap.data;
    SizedTokens(w, s);
    OffsetBound(w, s, i);
    OffsetBound(w, s, i + 1);
    OffsetOrder(w, s, 0, i);
    OffsetEnds(w, s);
    WithNewIs(w, heap.byPosition, s, i, h0);
    if end < |text| {
      var newEnd := NextBit(bf, w, s, i + 1, end);
      PushJoin(v, slots, hash, text, heap, start, newEnd, w, s, i);
    }
    if start > 0 {
      var newStart := PreviousBit(bf, w, s, i, start);
      PushJoin(v, slots, hash, text, heap, newStart, end, w, s, i - 1);
    }
  }

  lemma SizedTokens(v: Vocab, s: seq<nat>)
    requires Sized(v, s)
    ensures Tokens(v, s)
  {
  }

  lemma WithNewIs(v: Vocab, byPosition: bool, s: seq<nat>, i: nat, h: seq<HeapItem>)
    requires Tokens(v, s) && i < |s|
    ensures WithNew(v, byPosition, s, i, h) ==
            var h1 := if i + 1 < |s| then PushToken(byPosition, h, JoinOf(v, s, i), Offset(v, s, i)) else h;
            if i > 0 then PushToken(byPosition, h1, JoinOf(v, s, i - 1), Offset(v, s, i - 1)) else h1
  {
  }

  /** A turn on the segments and the heap together. */
  lemma TurnKeeps(v: Vocab, byPosition: bool, t: seq<byte>, s: seq<nat>, h: seq<HeapItem>)
    requires Solid(v) && TurnOk(v, byPosition, t, s, h) && h != []
    ensures h[0].priority < |v.bytes| && Spells(v, t, h[0]) && Sized(v, s) && Tokens(v, s) && Decode(v, s) == t
    ensures !Applies(v, s, h[0]) ==> NextSegments(v, s, h[0]) == s
    ensures TurnOk(v, byPosition, t, NextSegments(v, s, h[0]), NextHeap(v, byPosition, s, h[0], Popped(byPosition, h)))
    ensures Run(v, byPosition, s, h) ==
            Run(v, byPosition, NextSegments(v, s, h[0]), NextHeap(v, byPosition, s, h[0], Popped(byPosition, h)))
  {
    assert Spells(v, t, h[0]);
    SolidSized(v, s);
    hide TurnOk, Spells, Applies, NextSegments, NextHeap, Popped, Sized, Decode, DistinctBytes;
    if Applies(v, s, h[0]) {
      MergeTurn(v, byPosition, t, s, h);
    } else {
      StaleTurn(v, byPosition, t, s, h);
    }
  }

  /** What a candidate that applies does to the borders. */
  lemma Merged(v: Vocab, byPosition: bool, t: seq<byte>, s: seq<nat>, h: seq<HeapItem>, bits: seq<bool>)
    requires Solid(v) && TurnOk(v, byPosition, t, s, h) && h != []
    requires h[0].priority < |v.bytes| && Applies(v, s, h[0]) && BitsOk(v, s, bits)
    ensures var i, s' := Place(v, s, h[0]), NextSegments(v, s, h[0]);
            && i < |s'| && Sized(v, s') && Decode(v, s') == t
            && Offset(v, s, i) == Offset(v, s', i) == h[0].start && Offset(v, s, i + 2) == Offset(v, s', i + 1)
            && Offset(v, s, i + 1) < |bits| && BitsOk(v, s', bits[Offset(v, s, i + 1) := false])
    ensures NextHeap(v, byPosition, s, h[0], Popped(byPosition, h)) ==
            WithNew(v, byPosition, NextSegments(v, s, h[0]), Place(v, s, h[0]), Popped(byPosition, h))
  {
    var x := h[0];
    var i, s' := Place(v, s, x), NextSegments(v, s, x);
    SolidSized(v, s);
    assert Spells(v, t, x);
    SpellsText(v, s, x, i);
    JoinDecode(v, s, i, x.priority);
    SolidSized(v, s');
    hide Shape, DistinctBytes, TurnOk, Applies, Spells, Sized, BitsOk, Decode, WithNew, Popped;
    ReplaceOffset(v, s, i, x.priority, i);
    ReplaceOffset(v, s, i, x.priority, i + 1);
    ClearedOk(v, s, bits, i, x.priority);
  }

  /** Removes the border between two segments and looks for what the new one joins to. */
  method Merge(v: Vocab, slots: seq<Slot<nat>>, hash: seq<byte> -> nat, text: seq<byte>, bf: BitField, heap: MinHeap,
               start: nat, gap: Gap, ghost w: Vocab, ghost s: seq<nat>, ghost i: nat)
    requires Shows(w, v, slots, hash, |text|) && Sized(w, s) && Decode(w, s) == text
    requires gap.mid < |bf.Bits()| && BitsOk(w, s, bf.Bits()[gap.mid := false])
    requires i < |s| && start == Offset(w, s, i) && gap.end == Offset(w, s, i + 1)
    modifies heap, bf.words
    ensures heap.data == WithNew(w, heap.byPosition, s, i, old(heap.data))
    ensures bf.Bits() == old(bf.Bits())[gap.mid := false]
  {
    hide *;
    bf.Clear(gap.mid);
    Extend(v, slots, hash, text, bf, heap, start, gap.end, w, s, i);
  }

  /** Takes the top candidate off and tests it. */
  method PopAndLocate(v: Vocab, text: seq<byte>, bf: BitField, heap: MinHeap, ghost w: Vocab, ghost s: seq<nat>)
    returns (item: HeapItem, gap: Option<Gap>)
    requires heap.data != [] && Sized(w, s) && Decode(w, s) == text && BitsOk(w, s, bf.Bits())
    requires Spells(w, text, heap.data[0])
    requires var p := heap.data[0].priority; p < |w.bytes| && p < |v.bytes| && v.bytes[p] == w.bytes[p]
    modifies heap
    ensures item == old(heap.data)[0] && heap.data == Popped(heap.byPosition, old(heap.data))
    ensures Applies(w, s, item) <==> gap.Some?
    ensures gap.Some? ==> var i := Place(w, s, item);
                          gap.value.mid == Offset(w, s, i + 1) && gap.value.end == Offset(w, s, i + 2)
  {
    hide *;
    item := heap.Pop();
    gap := Locate(v, text, bf, item, w, s);
  }

  /** A candidate that spells a piece of the text is a token of v. */
  lemma SpelledShown(w: Vocab, v: Vocab, slots: seq<Slot<nat>>, hash: seq<byte> -> nat, t: seq<byte>, x: HeapItem)
    requires Shows(w, v, slots, hash, |t|) && Spells(w, t, x)
    ensures x.priority < |w.bytes| && x.priority < |v.bytes| && v.bytes[x.priority] == w.bytes[x.priority]
  {
  }

  /** The body of the loop of encode_into_bitfield. */
  method Turn(v: Vocab, slots: seq<Slot<nat>>, hash: seq<byte> -> nat, text: seq<byte>, bf: BitField, heap: MinHeap,
              count: nat, ghost w: Vocab, ghost s: seq<nat>) returns (count': nat, ghost s': seq<nat>)
    requires Shows(w, v, slots, hash, |text|) && TurnOk(w, heap.byPosition, text, s, heap.data) && heap.data != []
    requires BitsOk(w, s, bf.Bits()) && count == |s|
    modifies heap, bf.words
    ensures TurnOk(w, heap.byPosition, text, s', heap.data) && BitsOk(w, s', bf.Bits()) && count' == |s'|
    ensures Run(w, heap.byPosition, s', heap.data) == Run(w, heap.byPosition, s, old(heap.data))
    ensures |s'| < |s| || (|s'| == |s| && |heap.data| < |old(heap.data)|)
  {
    hide *;
    ghost var h0, bits, byPosition := heap.data, bf.Bits(), heap.byPosition;
    ghost var x := h0[0];
    ShowsFacts(w, v, slots, hash, |text|);
    TurnKeeps(w, byPosition, text, s, h0);
    SpelledShown(w, v, slots, hash, text, x);
    s' := NextSegments(w, s, x);
    var item, gap := PopAndLocate(v, text, bf, heap, w, s);
    assert bf.Bits() == bits;
    if gap.None? {
      return count, s';
    }
    Merged(w, byPosition, text, s, h0, bits);
    Merge(v, slots, hash, text, bf, heap, item.start, gap.value, w, s', Place(w, s, x));
    return count - 1, s';
  }

  // ---- The encoder ----------------------------------------------------------------------------------

  lemma SingleBorder(v: Vocab, t: seq<byte>, p: nat)
    requires Covers(v, t) && p <= |t|
    ensures Tokens(v, Singles(v, t)) && IsBorder(v, Singles(v, t), p)
  {
    SinglesOffset(v, t, p);
    assert BorderIs(v, Singles(v, t), p, p);
  }

  lemma AllSet(v: Vocab, t: seq<byte>, bits: seq<bool>)
    requires Covers(v, t) && |t| < |bits| && forall i :: 0 <= i < |bits| ==> bits[i]
    ensures Tokens(v, Singles(v, t)) && BitsOk(v, Singles(v, t), bits)
  {
    DecodeSingles(v, t);
    hide IsBorder, Singles;
    forall p: nat | p <= |t| ensures IsBorder(v, Singles(v, t), p) {
      SingleBorder(v, t, p);
    }
  }

  /** The first loop of encode_into_bitfield. */
  method Seed(v: Vocab, slots: seq<Slot<nat>>, hash: seq<byte> -> nat, text: seq<byte>, byPosition: bool,
              ghost w: Vocab) returns (heap: MinHeap)
    requires Shows(w, v, slots, hash, |text|)
    ensures fresh(heap) && heap.byPosition == byPosition && heap.data == Seeds(w, byPosition, text, PairCount(text))
  {
    hide Shows, TokenFor, Pushed, SeedAt, PushToken;
    heap := new MinHeap(byPosition);
    var i: nat := 0;
    SeedsNone(w, byPosition, text);
    while i + 1 < |text|
      invariant fresh(heap) && heap.byPosition == byPosition
      invariant i <= PairCount(text) && heap.data == Seeds(w, byPosition, text, i)
    {
      var tok := Find(v, slots, hash, text[i..i + 2], w, |text|);
      SeedsNext(w, byPosition, text, i, tok);
      if tok.Some? {
        heap.Push(tok.value, i);
      }
      i := i + 1;
    }
  }

  lemma SeedsNone(w: Vocab, byPosition: bool, t: seq<byte>)
    ensures Seeds(w, byPosition, t, 0) == []
  {
  }

  lemma SeedsNext(w: Vocab, byPosition: bool, t: seq<byte>, i: nat, tok: Option<nat>)
    requires i + 1 < |t| && tok == TokenFor(w, t[i..i + 2])
    ensures Seeds(w, byPosition, t, i + 1) ==
            match tok
            case None => Seeds(w, byPosition, t, i)
            case Some(r) => Pushed(byPosition, Seeds(w, byPosition, t, i), HeapItem(r, i))
  {
  }

  /** encode_into_bitfield */
  method EncodeIntoBitfield(v: Vocab, slots: seq<Slot<nat>>, hash: seq<byte> -> nat, text: seq<byte>, byPosition: bool,
                            ghost w: Vocab) returns (bf: BitField, count: nat, ghost s: seq<nat>)
    requires Shows(w, v, slots, hash, |text|) && Covers(w, text)
    ensures fresh(bf) && fresh(bf.words)
    ensures s == HeapEncoding(w, byPosition, text) && count == |s|
    ensures Tokens(w, s) && Decode(w, s) == text && BitsOk(w, s, bf.Bits())
  {
    ShowsFacts(w, v, slots, hash, |text|);
    bf := new BitField(|text| + 1);
    var heap := Seed(v, slots, hash, text, byPosition, w);
    count := |text|;
    s := Singles(w, text);
    StartOk(w, byPosition, text);
    AllSet(w, text, bf.Bits());
    ghost var words := bf.words;
    ghost var result := HeapEncoding(w, byPosition, text);
    hide *;
    while |heap.data| > 0
      invariant fresh(bf) && fresh(words) && fresh(heap) && bf.words == words && heap.byPosition == byPosition
      invariant TurnOk(w, byPosition, text, s, heap.data) && BitsOk(w, s, bf.Bits()) && count == |s|
      invariant Run(w, byPosition, s, heap.data) == result
      decreases |s|, |heap.data|
    {
      count, s := Turn(v, slots, hash, text, bf, heap, count, w, s);
    }
    RunDone(w, byPosition, text, s, heap.data);
  }

  lemma RunDone(v: Vocab, byPosition: bool, t: seq<byte>, s: seq<nat>, h: seq<HeapItem>)
    requires TurnOk(v, byPosition, t, s, h) && h == []
    ensures Tokens(v, s) && Decode(v, s) == t && Run(v, byPosition, s, h) == s
  {
  }

  // ---- Reading the tokens back ------------------------------------------------------------------------

  /** What a lookup of a segment writes: a token, or the sentinel. */
  ghost function Written(v: Vocab, slots: seq<Slot<nat>>, hash: seq<byte> -> nat, b: seq<byte>): nat
    requires |slots| > 0
  {
    match Lookup(v.bytes, slots, hash, b)
    case None => UINT32_MAX
    case Some(x) => x
  }

  /** The first n segments are looked up. */
  ghost predicate Filled(result: array<nat>, v: Vocab, slots: seq<Slot<nat>>, hash: seq<byte> -> nat,
                         w: Vocab, s: seq<nat>, n: nat)
    reads result
  {
    && n <= result.Length == |s| && Tokens(w, s) && |slots| > 0
    && forall k :: 0 <= k < n ==> result[k] == Written(v, slots, hash, w.bytes[s[k]])
  }

  lemma FilledNone(result: array<nat>, v: Vocab, slots: seq<Slot<nat>>, hash: seq<byte> -> nat, w: Vocab, s: seq<nat>)
    requires result.Length == |s| && Tokens(w, s) && |slots| > 0
    ensures Filled(result, v, slots, hash, w, s, 0)
  {
  }

  method Put(result: array<nat>, idx: nat, tok: nat, ghost v: Vocab, ghost slots: seq<Slot<nat>>,
             ghost hash: seq<byte> -> nat, ghost w: Vocab, ghost s: seq<nat>)
    requires Filled(result, v, slots, hash, w, s, idx) && idx < |s| && s[idx] < |w.bytes| && |slots| > 0
    requires tok == Written(v, slots, hash, w.bytes[s[idx]])
    modifies result
    ensures Filled(result, v, slots, hash, w, s, idx + 1)
  {
    hide Written;
    result[idx] := tok;
  }

  method ReadSegment(v: Vocab, slots: seq<Slot<nat>>, hash: seq<byte> -> nat, text: seq<byte>, start: nat, end: nat,
                     ghost w: Vocab, ghost s: seq<nat>, ghost i: nat) returns (tok: nat)
    requires Searchable(v.bytes, slots) && |slots| > 0 && Tokens(w, s) && Decode(w, s) == text && i < |s|
    requires start == Offset(w, s, i) && end == Offset(w, s, i + 1)
    ensures s[i] < |w.bytes| && tok == Written(v, slots, hash, w.bytes[s[i]])
  {
    OffsetStep(w, s, i);
    hide Searchable, Decode, Offset, Lookup;
    var r := FindTokenByBytes(v, slots, hash, text[start..end]);
    tok := if r.Some? then r.value else UINT32_MAX;
  }

  /** The segments looked up one after the other, into an array of their number. */
  method ReadBack(v: Vocab, slots: seq<Slot<nat>>, hash: seq<byte> -> nat, text: seq<byte>, bf: BitField, count: nat,
                  ghost w: Vocab, ghost s: seq<nat>) returns (result: array<nat>)
    requires Searchable(v.bytes, slots) && |slots| > 0 && Sized(w, s) && Decode(w, s) == text
    requires BitsOk(w, s, bf.Bits()) && count == |s|
    ensures fresh(result) && Filled(result, v, slots, hash, w, s, |s|)
  {
    result := new nat[count];
    var idx: nat, start: nat := 0, 0;
    OffsetEnds(w, s);
    ghost var bits := bf.Bits();
    FilledNone(result, v, slots, hash, w, s);
    hide *;
    while start < |text|
      invariant idx <= |s| && start == Offset(w, s, idx) && bf.Bits() == bits
      invariant Filled(result, v, slots, hash, w, s, idx)
      decreases |s| - idx
    {
      OffsetBound(w, s, idx);
      var end := NextBit(bf, w, s, idx, start);
      var tok := ReadSegment(v, slots, hash, text, start, end, w, s, idx);
      Put(result, idx, tok, v, slots, hash, w, s);
      start := end;
      idx := idx + 1;
    }
    OffsetBound(w, s, idx);
  }

  /** bpe_encode_via_bitfield, whatever the tables hold: the segments of the run over the tokens that lookups find,
      each of them looked up. */
  method EncodeWithTables(v: Vocab, slots: seq<Slot<nat>>, hash: seq<byte> -> nat, text: seq<byte>, byPosition: bool,
                          ghost w: Vocab) returns (result: array<nat>)
    requires Shows(w, v, slots, hash, |text|) && Covers(w, text)
    ensures fresh(result) && |slots| > 0
    ensures Filled(result, v, slots, hash, w, HeapEncoding(w, byPosition, text), |HeapEncoding(w, byPosition, text)|)
  {
    hide *;
    var bf, count;
    ghost var s: seq<nat>;
    bf, count, s := EncodeIntoBitfield(v, slots, hash, text, byPosition, w);
    ShowsFacts(w, v, slots, hash, |text|);
    SolidSized(w, s);
    result := ReadBack(v, slots, hash, text, bf, count, w, s);
  }

  // ---- On a finished encoder ---------------------------------------------------------------------------

  lemma ReadyShows(bpe: BytePairEncoding, n: nat)
    requires Ready(bpe)
    ensures WellFormed(bpe.vocab) && Shows(bpe.vocab, bpe.vocab, bpe.hashToToken, bpe.bytesHash, n)
  {
    TablesShow(bpe.vocab, bpe.hashToToken, bpe.bytesHash, n);
  }

  /** With a hash that tells the tokens apart every lookup finds what there is. */
  lemma TablesShow(v: Vocab, slots: seq<Slot<nat>>, hash: seq<byte> -> nat, n: nat)
    requires Shape(v) && DistinctBytes(v) && HashInjective(v.bytes, hash)
    requires Represents(slots, SelfHash, HashesTo(v.bytes, hash, |v.bytes|))
    ensures Shows(v, v, slots, hash, n)
  {
    MapSearchable(v.bytes, slots, hash);
    ShapeSolid(v);
    forall b: seq<byte> ensures Lookup(v.bytes, slots, hash, b) == TokenFor(v, b) {
      LookupExact(v, slots, hash, b);
    }
  }

  lemma LookupExact(v: Vocab, slots: seq<Slot<nat>>, hash: seq<byte> -> nat, b: seq<byte>)
    requires DistinctBytes(v) && HashInjective(v.bytes, hash) && |slots| > 0
    requires Represents(slots, SelfHash, HashesTo(v.bytes, hash, |v.bytes|))
    ensures Lookup(v.bytes, slots, hash, b) == TokenFor(v, b)
  {
    hide Represents, Hit, HashesTo;
    HitMap(slots, SelfHash, HashesTo(v.bytes, hash, |v.bytes|), hash(b));
    HashesToExact(v.bytes, hash, |v.bytes|);
  }

  lemma FilledExact(result: array<nat>, v: Vocab, slots: seq<Slot<nat>>, hash: seq<byte> -> nat, s: seq<nat>)
    requires Shape(v) && DistinctBytes(v) && HashInjective(v.bytes, hash)
    requires Represents(slots, SelfHash, HashesTo(v.bytes, hash, |v.bytes|))
    requires Filled(result, v, slots, hash, v, s, |s|)
    ensures result[..] == s
  {
    forall k | 0 <= k < |s| ensures result[k] == s[k] {
      LookupExact(v, slots, hash, v.bytes[s[k]]);
      TokenForIs(v, v.bytes[s[k]], s[k]);
    }
  }

  /** bpe_encode_via_bitfield */
  method EncodeViaBitfield(bpe: BytePairEncoding, text: seq<byte>, byPosition: bool) returns (result: array<nat>)
    requires Ready(bpe) && Covers(bpe.vocab, text)
    ensures result[..] == HeapEncoding(bpe.vocab, byPosition, text)
    ensures byPosition || !HasTriple(bpe.vocab, text) ==> result[..] == Bpe(bpe.vocab, text)
    ensures result[..] == Bpe(bpe.vocab, text) <==> IsChain(bpe.vocab, result[..])
  {
    hide *;
    var v, slots, hash := bpe.vocab, bpe.hashToToken, bpe.bytesHash;
    ReadyShows(bpe, |text|);
    HeapIsBpeIffChain(v, byPosition, text);
    if byPosition || !HasTriple(v, text) { HeapIsBpe(v, byPosition, text); }
    result := EncodeWithTables(v, slots, hash, text, byPosition, v);
    ReadyFilled(bpe, result, HeapEncoding(v, byPosition, text));
  }

  lemma ReadyFilled(bpe: BytePairEncoding, result: array<nat>, s: seq<nat>)
    requires Ready(bpe) && Filled(result, bpe.vocab, bpe.hashToToken, bpe.bytesHash, bpe.vocab, s, |s|)
    ensures result[..] == s
  {
    FilledExact(result, bpe.vocab, bpe.hashToToken, bpe.bytesHash, s);
  }
}
