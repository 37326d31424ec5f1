/** A short encoding behind a long detour: texts within the limit that get no number. */
module Detour {

  // With the tokens a, b, c, bc, bbc, bbbc, ... and, learned last, ab, the text a b..b c is just
  // two tokens, but the search first reads ab and then one b after the other.

  import opened Vocabulary
  import opened Merging
  import opened Chain
  import opened PrefixTable
  import opened Backtrack

  /** k bytes b and one c. */
  function Word(k: nat): (w: seq<byte>)
    ensures |w| == k + 1 && w[k] == 2 && (forall i :: 0 <= i < k ==> w[i] == 1)
  {
    if k == 0 then [2] else [1] + Word(k - 1)
  }

  /** Token 0 is a, token 1 is b, token 2 + k is Word(k), and token n + 3 is ab. */
  function Table(n: nat): Vocab {
    Vocab([[0], [1]] + seq(n + 1, (k: nat) => Word(k)) + [[0, 1]],
          [0, 1, 2] + seq(n, _ => 1) + [0],
          [0, 1, 2] + seq(n, (k: nat) => k + 2) + [1])
  }

  function Text(n: nat): seq<byte> {
    [0] + Word(n)
  }

  lemma TableSizes(n: nat)
    ensures |Table(n).bytes| == |Table(n).left| == |Table(n).right| == n + 4
    ensures Table(n).bytes[0] == [0] && Table(n).bytes[1] == [1] && Table(n).bytes[n + 3] == [0, 1]
    ensures Table(n).left[0] == 0 && Table(n).left[1] == 1 && Table(n).left[2] == 2
    ensures Table(n).right[0] == 0 && Table(n).right[1] == 1 && Table(n).right[2] == 2
    ensures Table(n).left[n + 3] == 0 && Table(n).right[n + 3] == 1
  {
  }

  lemma TableWords(n: nat, k: nat)
    requires k <= n
    ensures |Table(n).bytes| == |Table(n).left| == |Table(n).right| == n + 4
    ensures Table(n).bytes[k + 2] == Word(k)
    ensures k > 0 ==> Table(n).left[k + 2] == 1 && Table(n).right[k + 2] == k + 1
  {
  }

  /** The rules: b with a shorter word, and a with b. */
  lemma TableMerges(n: nat, r: nat, x: nat, y: nat)
    ensures IsMerge(Table(n), r, x, y) <==>
              (3 <= r <= n + 2 && x == 1 && y == r - 1) || (r == n + 3 && x == 0 && y == 1)
  {
  }

  /** The outer pieces of a token: a, b, c are not split, a word starts with b. */
  lemma TableEdges(n: nat, k: nat)
    ensures RightEdge(Table(n), 0, k) == LeftEdge(Table(n), 0, k) == 0
    ensures RightEdge(Table(n), 1, k) == LeftEdge(Table(n), 1, k) == 1
    ensures RightEdge(Table(n), n + 3, k) == if n + 3 < k then n + 3 else 1
  {
  }

  lemma WordEdge(n: nat, i: nat, k: nat)
    requires i <= n
    ensures LeftEdge(Table(n), i + 2, k) == if i + 2 < k || i == 0 then i + 2 else 1
  {
  }

  lemma TableSplit(n: nat, r: nat)
    requires Shape(Table(n)) && r < n + 4 == |Table(n).bytes|
    ensures SplitOk(Table(n), r)
  {
    TableSizes(n);
    var v := Table(n);
    if r == n + 3 {
      forall j: nat | j < r ensures !Crosses(v, 0, 1, j) {
        TableEdges(n, j);
        TableEdges(n, j + 1);
        TableMerges(n, j, 0, 1);
      }
    } else if r >= 2 {
      TableWords(n, r - 2);
      if r > 2 {
        TableWords(n, r - 3);
        var y: nat := r - 1;
        forall j: nat | j < r ensures !Crosses(v, 1, y, j) {
          TableEdges(n, j + 1);
          WordEdge(n, r - 3, j);
          TableMerges(n, j, 1, LeftEdge(v, y, j));
        }
      }
    }
  }

  lemma TableShape(n: nat)
    requires n + 4 <= UINT32_MAX
    ensures Shape(Table(n)) && DistinctBytes(Table(n))
  {
    TableSizes(n);
    var v := Table(n);
    forall r | 0 <= r < n + 4 ensures ShapeAt(v, r) {
      if 2 <= r <= n + 2 {
        TableWords(n, r - 2);
      }
    }
    forall x, y | 0 <= x < n + 4 && 0 <= y < n + 4 && v.bytes[x] == v.bytes[y] ensures x == y {
      TokenEnd(n, x);
      TokenEnd(n, y);
    }
  }

  /** A token is told by its length and its last byte. */
  lemma TokenEnd(n: nat, x: nat)
    requires x < n + 4
    ensures x < |Table(n).bytes| && var w := Table(n).bytes[x];
            && w != []
            && Last(w) == (if x == 0 then 0 else if x == 1 || x == n + 3 then 1 else 2)
            && |w| == if x < 2 then 1 else if x == n + 3 then 2 else x - 1
  {
  }

  lemma TableWellFormed(n: nat)
    requires n + 4 <= UINT32_MAX
    ensures WellFormed(Table(n))
  {
    TableShape(n);
    TableSizes(n);
    forall r | 0 <= r < n + 4 ensures SplitOk(Table(n), r) {
      TableSplit(n, r);
    }
  }

  // ---- The two encodings ---------------------------------------------------------------------

  lemma TwoTokens(n: nat)
    requires 0 < n && n + 4 <= UINT32_MAX
    ensures Bpe(Table(n), Text(n)) == [0, n + 2]
  {
    var v := Table(n);
    TableWellFormed(n);
    TableSizes(n);
    TableWords(n, n);
    var y: nat := n + 2;
    forall j: nat ensures !Crosses(v, 0, y, j) {
      TableEdges(n, j + 1);
      WordEdge(n, n, j);
      TableMerges(n, j, 0, LeftEdge(v, y, j));
    }
    DecodeOne(v, 0);
    DecodeOne(v, n + 2);
    DecodeConcat(v, [0], [n + 2]);
    assert [0] + [n + 2] == [0, n + 2];
    hide *;
    ChainPair(v, 0, n + 2);
    ChainIsBpe(v, [0, n + 2]);
    assert Text(n) == [0] + Word(n) by { TextIs(n); }
  }

  lemma TextIs(n: nat)
    ensures Text(n) == [0] + Word(n)
  {
  }

  lemma ChainPair(v: Vocab, x: nat, y: nat)
    requires Tokens(v, [x, y]) && forall j: nat :: !Crosses(v, x, y, j)
    ensures IsChain(v, [x, y])
  {
  }

  /** ab and then k times b. */
  function Detours(n: nat, k: nat): (s: seq<nat>)
    ensures |s| == k + 1
  {
    [n + 3] + seq(k, _ => 1)
  }

  lemma {:induction false} DetourDecode(n: nat, k: nat)
    ensures Tokens(Table(n), Detours(n, k))
    ensures Decode(Table(n), Detours(n, k)) == [0] + seq(k + 1, _ => 1)
  {
    TableSizes(n);
    if k == 0 {
      assert Detours(n, 0) == [n + 3];
      DecodeOne(Table(n), n + 3);
    } else {
      DetourDecode(n, k - 1);
      assert Detours(n, k) == Detours(n, k - 1) + [1];
      DecodeOne(Table(n), 1);
      DecodeConcat(Table(n), Detours(n, k - 1), [1]);
    }
  }

  lemma DetourChain(n: nat, k: nat)
    requires 0 < n
    ensures IsChain(Table(n), Detours(n, k))
  {
    var v, s := Table(n), Detours(n, k);
    DetourDecode(n, k);
    forall i | 0 <= i && i + 1 < |s| ensures ValidPair(v, s[i], s[i + 1]) {
      forall j: nat ensures !Crosses(v, s[i], 1, j) {
        TableEdges(n, j + 1);
        TableEdges(n, j);
        TableMerges(n, j, RightEdge(v, s[i], j + 1), 1);
      }
    }
  }

  /** Short of its end the text encodes to ab and one b after the other. */
  lemma PrefixTokens(n: nat, p: nat)
    requires 0 < n && n + 4 <= UINT32_MAX && p <= n + 1
    ensures |Text(n)| == n + 2 && |Bpe(Table(n), Text(n)[..p])| == if p <= 1 then p else p - 1
  {
    var v, t := Table(n), Text(n)[..p];
    TableWellFormed(n);
    TableSizes(n);
    if p == 0 {
      ChainIsBpe(v, []);
    } else if p == 1 {
      assert t == [0];
      DecodeOne(v, 0);
      ChainIsBpe(v, [0]);
    } else {
      assert t == [0] + seq(p - 1, _ => 1);
      DetourDecode(n, p - 2);
      DetourChain(n, p - 2);
      ChainIsBpe(v, Detours(n, p - 2));
    }
  }

  /** The text is two tokens, and on the way to them the search holds n, and no more. */
  lemma LongDetour(n: nat, m: nat)
    requires 0 < n && n + 4 <= UINT32_MAX
    ensures WellFormed(Table(n)) && Covers(Table(n), Text(n)) && |Bpe(Table(n), Text(n))| == 2
    ensures Crowded(Table(n), Text(n), m) <==> m < n
  {
    hide *;
    TableWellFormed(n);
    TextCovered(n);
    TwoTokens(n);
    if m < n { CrowdedThere(n, m); }
    if m >= n { CrowdedNowhere(n, m); }
  }

  lemma CrowdedThere(n: nat, m: nat)
    requires m < n && n + 4 <= UINT32_MAX
    ensures Crowded(Table(n), Text(n), m)
  {
    var v, u := Table(n), Detours(n, n - 1);
    TableWellFormed(n);
    TableSizes(n);
    TwoTokens(n);
    DetourDecode(n, n - 1);
    DetourChain(n, n - 1);
    ChainIsBpe(v, u);
    assert Text(n)[..n + 1] == [0] + seq(n, _ => 1);
    assert PartsAt(v, u, [0, n + 2], 0);
  }

  lemma CrowdedNowhere(n: nat, m: nat)
    requires 0 < n <= m && n + 4 <= UINT32_MAX
    ensures !Crowded(Table(n), Text(n), m)
  {
    hide Bpe, Explored, Table;
    forall p: nat | p < |Text(n)| ensures |Bpe(Table(n), Text(n)[..p])| <= m {
      PrefixTokens(n, p);
    }
  }

  lemma TextCovered(n: nat)
    ensures Covers(Table(n), Text(n))
  {
    TableSizes(n);
    TableWords(n, 0);
    assert IsByteToken(Table(n), 0) && IsByteToken(Table(n), 1) && IsByteToken(Table(n), 2);
  }

  /** Such a text gets its number exactly from the limit 2 on that n does not exceed by more than 10. */
  lemma NumberGivenIff(n: nat, limit: nat)
    requires 0 < n && n + 4 <= UINT32_MAX && limit <= UINT32_MAX
    ensures WellFormed(Table(n)) && Covers(Table(n), Text(n))
    ensures NoNumber(Table(n), Text(n), limit) <==> limit < 2 || limit + 10 < n
  {
    hide *;
    LongDetour(n, limit + 10);
    NumberIff(Table(n), Text(n), limit);
    NoWrap(limit);
  }

  /** For every limit from 2 on some text of two tokens gets no number. */
  lemma NumberWithheld(limit: nat)
    requires 2 <= limit <= UINT32_MAX - 15
    ensures var n := limit + 11;
            && WellFormed(Table(n)) && Covers(Table(n), Text(n))
            && |Bpe(Table(n), Text(n))| == 2 <= limit && NoNumber(Table(n), Text(n), limit)
  {
    hide *;
    LongDetour(limit + 11, limit + 10);
    NumberGivenIff(limit + 11, limit);
  }

  lemma NoWrap(limit: nat)
    requires limit <= UINT32_MAX
    ensures (limit + 10) % (SIZE_MAX + 1) == limit + 10
  {
  }

  /** Where limit + 10 wraps around, the largest limits withhold numbers as well. */
  lemma SumWraps(limit: nat)
    requires SIZE_MAX - 10 < limit <= SIZE_MAX
    ensures WellFormed(Table(11)) && Covers(Table(11), Text(11))
    ensures |Bpe(Table(11), Text(11))| == 2 <= limit && NoNumber(Table(11), Text(11), limit)
  {
    hide *;
    Wraps(limit);
    LongDetour(11, (limit + 10) % (SIZE_MAX + 1));
    NumberIff(Table(11), Text(11), limit);
  }

  lemma Wraps(limit: nat)
    requires SIZE_MAX - 10 < limit <= SIZE_MAX
    ensures 0 <= (limit + 10) % (SIZE_MAX + 1) < 10 && 2 <= limit && 15 <= UINT32_MAX
  {
  }
}
