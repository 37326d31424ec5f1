/** The token-pair check. */
module PairCheck {
  import opened Vocabulary
  import opened FnvHash

  type Pair = (nat, nat)

  /** The first m rules as a map from the two halves to the merged token. */
  ghost function PairsTo(v: Vocab, m: nat): map<Pair, nat> {
    if m == 0 then map[]
    else if Primitive(v, m - 1) then PairsTo(v, m - 1)
    else PairsTo(v, m - 1)[(v.left[m - 1], v.right[m - 1]) := m - 1]
  }

  /** m maps exactly the pairs some rule merges, to the token that rule makes. */
  ghost predicate IsPairMap(v: Vocab, m: map<Pair, nat>) {
    && (forall p :: p in m ==> IsMerge(v, m[p], p.0, p.1))
    && (forall r: nat :: !Primitive(v, r) ==> (v.left[r], v.right[r]) in m && m[(v.left[r], v.right[r])] == r)
  }

  /** A token some rule makes is the concatenation of its halves. */
  ghost predicate Concatenates(v: Vocab) {
    forall r: nat :: !Primitive(v, r) ==> r < |v.bytes| && v.bytes[r] == Concat(v, v.left[r], v.right[r])
  }

  function Concat(v: Vocab, a: nat, b: nat): seq<byte> {
    if a < |v.bytes| && b < |v.bytes| then v.bytes[a] + v.bytes[b] else []
  }

  lemma InstalledConcatenates(v: Vocab, m: nat)
    requires InstalledTo(v, m) && m <= |v.bytes|
    ensures Concatenates(v)
  {
    forall r: nat | !Primitive(v, r) ensures r < |v.bytes| && v.bytes[r] == Concat(v, v.left[r], v.right[r]) {
      assert SplitOk(v, r);
    }
  }

  /** Two rules with the same halves make tokens with the same bytes. */
  lemma MergeUnique(v: Vocab, r: nat, q: nat)
    requires DistinctBytes(v) && Concatenates(v)
    requires !Primitive(v, r) && !Primitive(v, q) && v.left[r] == v.left[q] && v.right[r] == v.right[q]
    ensures r == q
  {
  }

  /** m holds exactly the first i rules. */
  ghost predicate HoldsRules(v: Vocab, i: nat, m: map<Pair, nat>) {
    && (forall p :: p in m ==> m[p] < i && IsMerge(v, m[p], p.0, p.1))
    && (forall r: nat :: r < i && !Primitive(v, r) ==> (v.left[r], v.right[r]) in m && m[(v.left[r], v.right[r])] == r)
  }

  lemma {:induction false} PairsToHoldsRules(v: Vocab, i: nat)
    requires DistinctBytes(v) && Concatenates(v)
    ensures HoldsRules(v, i, PairsTo(v, i))
  {
    if i > 0 {
      PairsToHoldsRules(v, i - 1);
      var m := PairsTo(v, i - 1);
      if !Primitive(v, i - 1) {
        if (v.left[i - 1], v.right[i - 1]) in m {
          MergeUnique(v, m[(v.left[i - 1], v.right[i - 1])], i - 1);
        }
        HoldsNext(v, i - 1, m);
      }
    }
  }

  lemma HoldsNext(v: Vocab, i: nat, m: map<Pair, nat>)
    requires HoldsRules(v, i, m) && !Primitive(v, i) && (v.left[i], v.right[i]) !in m
    ensures HoldsRules(v, i + 1, m[(v.left[i], v.right[i]) := i])
  {
  }

  /** When every token from m on is primitive, the first m rules are all there are. */
  lemma AllPairs(v: Vocab, m: nat)
    requires DistinctBytes(v) && Concatenates(v) && forall r: nat :: m <= r ==> Primitive(v, r)
    ensures IsPairMap(v, PairsTo(v, m))
  {
    PairsToHoldsRules(v, m);
  }

  lemma InstalledPairs(v: Vocab, m: nat)
    requires InstalledTo(v, m) && m <= |v.bytes|
    ensures IsPairMap(v, PairsTo(v, m))
  {
    InstalledConcatenates(v, m);
    AllPairs(v, m);
  }

  /** Below limit the current pair crosses like the original one; from limit on nothing does. */
  ghost predicate SameBelow(v: Vocab, token1: nat, token2: nat, t1: nat, t2: nat, limit: nat) {
    && (forall k: nat :: k < limit ==> (Crosses(v, token1, token2, k) <==> Crosses(v, t1, t2, k)))
    && (forall k: nat :: limit <= k ==> !Crosses(v, token1, token2, k))
  }

  lemma SameBelowFirst(v: Vocab, token1: nat, token2: nat, t1: nat, t2: nat, limit: nat)
    requires SameBelow(v, token1, token2, t1, t2, limit)
    requires forall k: nat :: k < limit ==> !IsMerge(v, k, t1, t2)
    requires !Primitive(v, t1) && (Primitive(v, t2) || t2 < t1) && t1 <= limit
    ensures SameBelow(v, token1, token2, v.right[t1], t2, t1)
  {
  }

  lemma SameBelowSecond(v: Vocab, token1: nat, token2: nat, t1: nat, t2: nat, limit: nat)
    requires SameBelow(v, token1, token2, t1, t2, limit)
    requires forall k: nat :: k < limit ==> !IsMerge(v, k, t1, t2)
    requires !Primitive(v, t2) && (Primitive(v, t1) || t1 <= t2) && t2 + 1 <= limit
    ensures SameBelow(v, token1, token2, t1, v.left[t2], t2 + 1)
  {
  }

  lemma SameBelowDone(v: Vocab, token1: nat, token2: nat, t1: nat, t2: nat, limit: nat)
    requires SameBelow(v, token1, token2, t1, t2, limit)
    requires forall k: nat :: k < limit ==> !IsMerge(v, k, t1, t2)
    requires Primitive(v, t1) && Primitive(v, t2)
    ensures ValidPair(v, token1, token2)
  {
  }

  lemma SameBelowFound(v: Vocab, token1: nat, token2: nat, t1: nat, t2: nat, limit: nat, k: nat)
    requires SameBelow(v, token1, token2, t1, t2, limit)
    requires IsMerge(v, k, t1, t2) && k < limit && |v.left| == |v.bytes|
    ensures !ValidPair(v, token1, token2)
  {
    assert Crosses(v, t1, t2, k);
  }

  /** A token that can still be split is within the current limit. */
  ghost predicate BelowLimit(v: Vocab, t1: nat, t2: nat, limit: nat) {
    (Primitive(v, t1) || t1 <= limit) && (Primitive(v, t2) || t2 < limit)
  }

  /** bpe_is_valid_token_pair.  The loop undoes the larger of the two tokens, so the rule
      that made it bounds the rules that could still have merged across the border. */
  method IsValidTokenPair(v: Vocab, pairs: seq<Slot<Pair>>, hash: Pair -> nat, token1: nat, token2: nat,
                          ghost m: map<Pair, nat>) returns (ok: bool)
    requires Shape(v) && token1 < |v.bytes| && token2 < |v.bytes|
    requires Represents(pairs, hash, m) && IsPairMap(v, m)
    ensures ok <==> ValidPair(v, token1, token2)
  {
    hide Represents, HasEmpty, Hit;
    HasRoom(pairs, hash, m);
    var t1: nat, t2: nat, limit: nat := token1, token2, UINT32_MAX;
    while true
      invariant t1 < |v.bytes| && t2 < |v.bytes| && BelowLimit(v, t1, t2, limit)
      invariant SameBelow(v, token1, token2, t1, t2, limit)
      decreases t1 + t2
    {
      var combined := Get(pairs, hash, (t1, t2), m);
      if combined != UINT32_MAX && combined < limit {
        SameBelowFound(v, token1, token2, t1, t2, limit, combined);
        return false;
      }
      assert forall k: nat :: k < limit ==> !IsMerge(v, k, t1, t2);
      assert ShapeAt(v, t1) && ShapeAt(v, t2);
      if t1 > t2 {
        SpineStepFirst(v, token1, token2, t1, t2, limit);
        limit := t1;
        t1 := v.right[t1];
        if t1 == limit {
          limit := t2 + 1;
          t2 := v.left[t2];
          if t2 + 1 == limit {
            return true;
          }
        }
      } else {
        SpineStepSecond(v, token1, token2, t1, t2, limit);
        limit := t2 + 1;
        t2 := v.left[t2];
        if t2 + 1 == limit {
          limit := t1;
          t1 := v.right[t1];
          if t1 == limit {
            return true;
          }
        }
      }
    }
  }

  /** One turn of the loop when the left token is the larger one. */
  lemma SpineStepFirst(v: Vocab, token1: nat, token2: nat, t1: nat, t2: nat, limit: nat)
    requires Shape(v) && t2 < t1 < |v.bytes| && BelowLimit(v, t1, t2, limit)
    requires SameBelow(v, token1, token2, t1, t2, limit)
    requires forall k: nat :: k < limit ==> !IsMerge(v, k, t1, t2)
    ensures if v.right[t1] != t1 then SameBelow(v, token1, token2, v.right[t1], t2, t1)
            else if v.left[t2] != t2 then SameBelow(v, token1, token2, t1, v.left[t2], t2 + 1)
            else ValidPair(v, token1, token2)
  {
    assert ShapeAt(v, t1) && ShapeAt(v, t2);
    if v.right[t1] != t1 {
      SameBelowFirst(v, token1, token2, t1, t2, limit);
    } else if v.left[t2] != t2 {
      SameBelowSecond(v, token1, token2, t1, t2, limit);
    } else {
      SameBelowDone(v, token1, token2, t1, t2, limit);
    }
  }

  /** One turn of the loop when the right token is at least as large. */
  lemma SpineStepSecond(v: Vocab, token1: nat, token2: nat, t1: nat, t2: nat, limit: nat)
    requires Shape(v) && t1 <= t2 < |v.bytes| && BelowLimit(v, t1, t2, limit)
    requires SameBelow(v, token1, token2, t1, t2, limit)
    requires forall k: nat :: k < limit ==> !IsMerge(v, k, t1, t2)
    ensures if v.left[t2] != t2 then SameBelow(v, token1, token2, t1, v.left[t2], t2 + 1)
            else if v.right[t1] != t1 then SameBelow(v, token1, token2, v.right[t1], t2, t1)
            else ValidPair(v, token1, token2)
  {
    assert ShapeAt(v, t1) && ShapeAt(v, t2);
    if v.left[t2] != t2 {
      SameBelowSecond(v, token1, token2, t1, t2, limit);
    } else if v.right[t1] != t1 {
      SameBelowFirst(v, token1, token2, t1, t2, limit);
    } else {
      SameBelowDone(v, token1, token2, t1, t2, limit);
    }
  }
}
