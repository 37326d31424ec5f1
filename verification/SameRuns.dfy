/** Two vocabularies with the same lookups give the same runs of the heap encoder. */
module SameRuns {
  import opened Vocabulary
  import opened Merging
  import opened Heaps
  import opened HeapMerging

  /** Pieces of a text of n bytes, if longer than one byte, are looked up alike. */
  ghost predicate SameLookups(v: Vocab, w: Vocab, n: nat) {
    Solid(v) && Solid(w) && forall b: seq<byte> :: 2 <= |b| <= n ==> TokenFor(v, b) == TokenFor(w, b)
  }

  /** The same segments, each under its own identifier. */
  ghost predicate Alike(v: Vocab, w: Vocab, s: seq<nat>, u: seq<nat>) {
    && Tokens(v, s) && Tokens(w, u) && |s| == |u|
    && forall i :: 0 <= i < |s| ==> v.bytes[s[i]] == w.bytes[u[i]]
  }

  lemma {:induction false} AlikeOffset(v: Vocab, w: Vocab, s: seq<nat>, u: seq<nat>, i: nat)
    requires Alike(v, w, s, u) && i <= |s|
    ensures Offset(v, s, i) == Offset(w, u, i)
  {
    if i > 0 {
      AlikeOffset(v, w, s, u, i - 1);
      OffsetStep(v, s, i - 1);
      OffsetStep(w, u, i - 1);
    }
  }

  /** A candidate that spells a piece of the text is the same token in both. */
  lemma SameToken(v: Vocab, w: Vocab, t: seq<byte>, x: HeapItem)
    requires SameLookups(v, w, |t|) && Spells(v, t, x)
    ensures x.priority < |v.bytes| && x.priority < |w.bytes| && v.bytes[x.priority] == w.bytes[x.priority]
  {
    TokenForIs(v, v.bytes[x.priority], x.priority);
  }

  lemma AlikeApplies(v: Vocab, w: Vocab, s: seq<nat>, u: seq<nat>, x: HeapItem)
    requires Alike(v, w, s, u) && Sized(v, s) && Sized(w, u)
    requires x.priority < |v.bytes| && x.priority < |w.bytes| && v.bytes[x.priority] == w.bytes[x.priority]
    ensures Applies(v, s, x) <==> Applies(w, u, x)
    ensures Applies(v, s, x) ==> Place(v, s, x) == Place(w, u, x)
  {
    if Applies(v, s, x) {
      var i := Place(v, s, x);
      AlikeOffset(v, w, s, u, i);
      PlaceUnique(w, u, x, i);
    }
    if Applies(w, u, x) {
      var i := Place(w, u, x);
      AlikeOffset(v, w, s, u, i);
      PlaceUnique(v, s, x, i);
    }
  }

  lemma AlikeJoin(v: Vocab, w: Vocab, t: seq<byte>, s: seq<nat>, u: seq<nat>, i: nat)
    requires SameLookups(v, w, |t|) && Alike(v, w, s, u) && Decode(v, s) == t && i + 1 < |s|
    ensures JoinOf(v, s, i) == JoinOf(w, u, i)
  {
    PairText(v, s, i);
    assert |v.bytes[s[i]] + v.bytes[s[i + 1]]| <= |t|;
  }

  lemma AlikeNew(v: Vocab, w: Vocab, byPosition: bool, t: seq<byte>, s: seq<nat>, u: seq<nat>, i: nat, h: seq<HeapItem>)
    requires SameLookups(v, w, |t|) && Alike(v, w, s, u) && Decode(v, s) == t && i < |s|
    ensures WithNew(v, byPosition, s, i, h) == WithNew(w, byPosition, u, i, h)
  {
    hide SameLookups, JoinOf, Decode, PushToken;
    AlikeOffset(v, w, s, u, i);
    if i + 1 < |s| { AlikeJoin(v, w, t, s, u, i); }
    if i > 0 {
      AlikeOffset(v, w, s, u, i - 1);
      AlikeJoin(v, w, t, s, u, i - 1);
    }
  }

  lemma AlikeReplace(v: Vocab, w: Vocab, s: seq<nat>, u: seq<nat>, i: nat, r: nat)
    requires Alike(v, w, s, u) && i + 1 < |s| && r < |v.bytes| && r < |w.bytes| && v.bytes[r] == w.bytes[r]
    ensures Alike(v, w, Replace(s, i, r), Replace(u, i, r))
  {
  }

  /** One turn keeps the two runs in step. */
  lemma AlikeTurn(v: Vocab, w: Vocab, byPosition: bool, t: seq<byte>, s: seq<nat>, u: seq<nat>, h: seq<HeapItem>)
    requires SameLookups(v, w, |t|) && Alike(v, w, s, u) && h != []
    requires TurnOk(v, byPosition, t, s, h) && TurnOk(w, byPosition, t, u, h)
    ensures h[0].priority < |v.bytes| && h[0].priority < |w.bytes| && Tokens(v, s) && Tokens(w, u)
    ensures Alike(v, w, NextSegments(v, s, h[0]), NextSegments(w, u, h[0]))
    ensures var rest := Popped(byPosition, h);
            && NextHeap(v, byPosition, s, h[0], rest) == NextHeap(w, byPosition, u, h[0], rest)
            && TurnOk(v, byPosition, t, NextSegments(v, s, h[0]), NextHeap(v, byPosition, s, h[0], rest))
            && TurnOk(w, byPosition, t, NextSegments(w, u, h[0]), NextHeap(w, byPosition, u, h[0], rest))
  {
    var x, rest := h[0], Popped(byPosition, h);
    assert Spells(v, t, x);
    SameToken(v, w, t, x);
    SolidSized(v, s);
    SolidSized(w, u);
    hide TokenFor, Spells, IsHeap, Pending, AllSpell, Popped, Sized, WithNew, AppliesAt, Offset;
    AlikeApplies(v, w, s, u, x);
    if Applies(v, s, x) {
      MergeTurn(v, byPosition, t, s, h);
      MergeTurn(w, byPosition, t, u, h);
      AlikeReplace(v, w, s, u, Place(v, s, x), x.priority);
      AlikeNew(v, w, byPosition, t, NextSegments(v, s, x), NextSegments(w, u, x), Place(v, s, x), rest);
    } else {
      StaleTurn(v, byPosition, t, s, h);
      StaleTurn(w, byPosition, t, u, h);
    }
  }

  lemma {:induction false} AlikeRun(v: Vocab, w: Vocab, byPosition: bool, t: seq<byte>, s: seq<nat>, u: seq<nat>,
                                    h: seq<HeapItem>)
    requires SameLookups(v, w, |t|) && Alike(v, w, s, u)
    requires TurnOk(v, byPosition, t, s, h) && TurnOk(w, byPosition, t, u, h)
    ensures Alike(v, w, Run(v, byPosition, s, h), Run(w, byPosition, u, h))
    decreases |s|, |h|
  {
    hide SameLookups, TurnOk, Alike, NextSegments, NextHeap, Popped;
    if h != [] {
      AlikeTurn(v, w, byPosition, t, s, u, h);
      var x, rest := h[0], Popped(byPosition, h);
      AlikeRun(v, w, byPosition, t, NextSegments(v, s, x), NextSegments(w, u, x), NextHeap(v, byPosition, s, x, rest));
    }
  }

  // ---- The start -----------------------------------------------------------------------------

  lemma AlikeSingles(v: Vocab, w: Vocab, t: seq<byte>)
    requires Covers(v, t) && Covers(w, t)
    ensures Alike(v, w, Singles(v, t), Singles(w, t))
  {
    DecodeSingles(v, t);
    DecodeSingles(w, t);
  }

  lemma {:induction false} SameSeeds(v: Vocab, w: Vocab, byPosition: bool, t: seq<byte>, n: nat)
    requires SameLookups(v, w, |t|) && (n < |t| || n == 0)
    ensures Seeds(v, byPosition, t, n) == Seeds(w, byPosition, t, n)
  {
    hide TokenFor, PushToken;
    if n > 0 {
      SameSeeds(v, w, byPosition, t, n - 1);
    }
  }

  /** The encodings are the same segments. */
  lemma AlikeEncodings(v: Vocab, w: Vocab, byPosition: bool, t: seq<byte>)
    requires SameLookups(v, w, |t|) && Covers(v, t) && Covers(w, t)
    ensures Alike(v, w, HeapEncoding(v, byPosition, t), HeapEncoding(w, byPosition, t))
  {
    hide Run, Seeds, Singles, TurnOk, Alike, Covers, TokenFor;
    StartOk(v, byPosition, t);
    StartOk(w, byPosition, t);
    AlikeSingles(v, w, t);
    SameSeeds(v, w, byPosition, t, PairCount(t));
    AlikeRun(v, w, byPosition, t, Singles(v, t), Singles(w, t), Seeds(v, byPosition, t, PairCount(t)));
  }
}
