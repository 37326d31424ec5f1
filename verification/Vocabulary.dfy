/** Tokens and merge rules. */
module Vocabulary {

  // Every table is immutable once built, so it is a value.  A token that no rule produces is
  // primitive; its two split entries point back to itself.

  type byte = b: int | 0 <= b < 256

  /** Marks "no token" in the program; identifiers are strictly below it. */
  const UINT32_MAX: nat := 0xFFFF_FFFF

  datatype Vocab = Vocab(bytes: seq<seq<byte>>, left: seq<nat>, right: seq<nat>)

  datatype Option<+T> = None | Some(value: T)

  /** The tables are as long as the vocabulary, identifiers fit in 32 bits below the
      sentinel, tokens are non-empty, and each split entry is either a self-loop or a
      pair of smaller identifiers. */
  ghost predicate Shape(v: Vocab) {
    && |v.left| == |v.bytes| && |v.right| == |v.bytes| <= UINT32_MAX
    && forall r :: 0 <= r < |v.bytes| ==> ShapeAt(v, r)
  }

  ghost predicate ShapeAt(v: Vocab, r: nat)
    requires r < |v.bytes| == |v.left| == |v.right|
  {
    && v.bytes[r] != []
    && (v.left[r] == r == v.right[r] || (v.left[r] < r && v.right[r] < r))
  }

  ghost predicate DistinctBytes(v: Vocab) {
    forall x, y :: 0 <= x < |v.bytes| && 0 <= y < |v.bytes| && v.bytes[x] == v.bytes[y] ==> x == y
  }

  predicate Primitive(v: Vocab, x: nat) {
    x >= |v.left| || x >= |v.right| || v.left[x] >= x || v.right[x] >= x
  }

  /** Token r is made by merging a with b. */
  predicate IsMerge(v: Vocab, r: nat, a: nat, b: nat) {
    !Primitive(v, r) && v.left[r] == a && v.right[r] == b
  }

  function Last<T>(s: seq<T>): T
    requires s != []
  {
    s[|s| - 1]
  }

  function Reverse<T>(s: seq<T>): (r: seq<T>)
    ensures |r| == |s|
  {
    if s == [] then [] else Reverse(s[1..]) + [s[0]]
  }

  lemma {:induction false} ReverseAt<T>(s: seq<T>, k: nat)
    requires k < |s|
    ensures Reverse(s)[k] == s[|s| - 1 - k]
  {
    if k < |s| - 1 {
      ReverseAt(s[1..], k);
    }
  }

  lemma ReverseTwice<T>(s: seq<T>)
    ensures Reverse(Reverse(s)) == s
  {
    forall k | 0 <= k < |s| ensures Reverse(Reverse(s))[k] == s[k] {
      ReverseAt(Reverse(s), k);
      ReverseAt(s, |s| - 1 - k);
    }
  }

  // ---- Spines -------------------------------------------------------------

  /** The last piece of x once every token with identifier at least k is split again. */
  function RightEdge(v: Vocab, x: nat, k: nat): nat
    decreases x
  {
    if x < k || Primitive(v, x) then x else RightEdge(v, v.right[x], k)
  }

  /** The first piece of x once every token with identifier at least k is split again. */
  function LeftEdge(v: Vocab, x: nat, k: nat): nat
    decreases x
  {
    if x < k || Primitive(v, x) then x else LeftEdge(v, v.left[x], k)
  }

  /** Rule k would merge across the border between a and b: when rule k runs, left to
      right, a has already been rebuilt up to rule k and b has not. */
  predicate Crosses(v: Vocab, a: nat, b: nat, k: nat) {
    IsMerge(v, k, RightEdge(v, a, k + 1), LeftEdge(v, b, k))
  }

  ghost predicate NoCrossBelow(v: Vocab, a: nat, b: nat, m: nat) {
    forall k: nat :: k < m ==> !Crosses(v, a, b, k)
  }

  /** No rule ever merges across the border: the two tokens stay separate. */
  ghost predicate ValidPair(v: Vocab, a: nat, b: nat) {
    NoCrossBelow(v, a, b, |v.bytes|)
  }

  // ---- Well-formed vocabularies --------------------------------------------

  /** Token r is a single byte no rule produces, or the concatenation of two smaller
      tokens that no earlier rule merges across. */
  ghost predicate SplitOk(v: Vocab, r: nat)
    requires Shape(v) && r < |v.bytes|
  {
    if |v.bytes[r]| == 1 then Primitive(v, r)
    else
      && !Primitive(v, r)
      && v.bytes[r] == v.bytes[v.left[r]] + v.bytes[v.right[r]]
      && NoCrossBelow(v, v.left[r], v.right[r], r)
  }

  /** Rules below m are installed; every other token is still primitive. */
  ghost predicate InstalledTo(v: Vocab, m: nat) {
    && Shape(v) && DistinctBytes(v)
    && (forall r :: 0 <= r < |v.bytes| && r < m ==> SplitOk(v, r))
    && (forall r :: m <= r < |v.bytes| ==> Primitive(v, r))
  }

  ghost predicate WellFormed(v: Vocab) {
    InstalledTo(v, |v.bytes|)
  }

  /** x is available before rule m runs. */
  predicate AtLevel(v: Vocab, x: nat, m: nat) {
    x < |v.bytes| && (x < m || |v.bytes[x]| == 1)
  }

  // ---- Decoding -------------------------------------------------------------

  predicate Tokens(v: Vocab, s: seq<nat>) {
    forall i :: 0 <= i < |s| ==> s[i] < |v.bytes|
  }

  function Decode(v: Vocab, s: seq<nat>): seq<byte>
    requires Tokens(v, s)
  {
    if s == [] then [] else v.bytes[s[0]] + Decode(v, s[1..])
  }

  lemma {:induction false} DecodeConcat(v: Vocab, s: seq<nat>, t: seq<nat>)
    requires Tokens(v, s) && Tokens(v, t)
    ensures Tokens(v, s + t)
    ensures Decode(v, s + t) == Decode(v, s) + Decode(v, t)
  {
    if s == [] {
      assert s + t == t;
    } else {
      DecodeConcat(v, s[1..], t);
      assert (s + t)[1..] == s[1..] + t;
    }
  }

  lemma DecodeOne(v: Vocab, x: nat)
    requires x < |v.bytes|
    ensures Tokens(v, [x]) && Decode(v, [x]) == v.bytes[x]
  {
  }

  /** Every byte of the text is itself a token. */
  ghost predicate Covers(v: Vocab, t: seq<byte>) {
    forall i :: 0 <= i < |t| ==> IsByteToken(v, t[i])
  }

  ghost predicate IsByteToken(v: Vocab, b: byte) {
    exists x :: 0 <= x < |v.bytes| && v.bytes[x] == [b]
  }

  ghost function ByteToken(v: Vocab, b: byte): nat {
    if IsByteToken(v, b)
    then var x :| 0 <= x < |v.bytes| && v.bytes[x] == [b]; x
    else |v.bytes|
  }

  /** The text as single-byte tokens. */
  ghost function Singles(v: Vocab, t: seq<byte>): (s: seq<nat>)
    ensures |s| == |t|
  {
    if t == [] then [] else [ByteToken(v, t[0])] + Singles(v, t[1..])
  }

  lemma {:induction false} SinglesConcat(v: Vocab, t: seq<byte>, u: seq<byte>)
    ensures Singles(v, t + u) == Singles(v, t) + Singles(v, u)
  {
    if t == [] {
      assert t + u == u;
    } else {
      SinglesConcat(v, t[1..], u);
      assert (t + u)[1..] == t[1..] + u;
    }
  }

  lemma {:induction false} DecodeSingles(v: Vocab, t: seq<byte>)
    requires Covers(v, t)
    ensures Tokens(v, Singles(v, t)) && Decode(v, Singles(v, t)) == t
    ensures forall i :: 0 <= i < |t| ==> v.bytes[Singles(v, t)[i]] == [t[i]]
  {
    if t != [] {
      DecodeSingles(v, t[1..]);
      var x := ByteToken(v, t[0]);
      assert IsByteToken(v, t[0]);
      assert Singles(v, t) == [x] + Singles(v, t[1..]);
      assert Singles(v, t)[1..] == Singles(v, t[1..]);
    }
  }

  lemma CoversSplit(v: Vocab, t: seq<byte>, u: seq<byte>)
    ensures Covers(v, t + u) <==> Covers(v, t) && Covers(v, u)
  {
    if Covers(v, t + u) {
      assert forall i :: 0 <= i < |t| ==> t[i] == (t + u)[i];
      assert forall i :: 0 <= i < |u| ==> u[i] == (t + u)[|t| + i];
    }
  }
}
