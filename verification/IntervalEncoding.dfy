/** Counting the tokens of any part of a text. */
module IntervalEncodings {
  import opened Vocabulary
  import opened Merging
  import opened Chain
  import opened Tables
  import opened PrefixTable
  import opened TreeNumbering
  import Backtrack

  datatype IntervalEncoding = IntervalEncoding(bpe: BytePairEncoding, text: seq<byte>, lastToken: seq<nat>,
                                               treeId: seq<nat>, treeEnd: seq<nat>, treeDepth: seq<nat>)

  /** par[i] is the prefix that is left when the last token of prefix i is taken off. */
  ghost predicate PrefixTree(v: Vocab, text: seq<byte>, par: seq<nat>) {
    && |par| == |text| + 1 && IsTree(par)
    && forall i :: 0 < i < |par| ==> ParentOk(v, text, i, par[i])
  }

  ghost predicate ParentOk(v: Vocab, text: seq<byte>, i: nat, p: nat) {
    && p < i <= |text|
    && var x := LastToken(v, text[..i]);
    && x < |v.bytes| && p + |v.bytes[x]| == i
    && Bpe(v, text[..i]) == Bpe(v, text[..p]) + [x]
  }

  ghost predicate Valid(ie: IntervalEncoding, par: seq<nat>) {
    && Ready(ie.bpe) && Covers(ie.bpe.vocab, ie.text)
    && PrefixTree(ie.bpe.vocab, ie.text, par)
    && |ie.lastToken| == |ie.text| && PrefixLasts(ie.bpe.vocab, ie.text, ie.lastToken)
    && |ie.treeId| == |ie.treeEnd| == |ie.treeDepth| == |par|
    && forall i :: 0 <= i < |par| ==>
          ie.treeId[i] == Id(par, i) && ie.treeEnd[i] == End(par, i) && ie.treeDepth[i] == Depth(par, i)
  }

  lemma ParentOf(v: Vocab, text: seq<byte>, last: seq<nat>, i: nat)
    requires WellFormed(v) && Covers(v, text) && |last| == |text| && PrefixLasts(v, text, last) && 0 < i <= |text|
    ensures last[i - 1] < |v.bytes| && |v.bytes[last[i - 1]]| <= i
    ensures ParentOk(v, text, i, i - |v.bytes[last[i - 1]]|)
  {
    hide WellFormed, Covers;
    CoversPrefix(v, text, i);
    LastSplits(v, text[..i]);
    LastEnds(v, text[..i]);
    var x := LastToken(v, text[..i]);
    assert text[..i][..i - |v.bytes[x]|] == text[..i - |v.bytes[x]|];
  }

  lemma ParentBefore(v: Vocab, text: seq<byte>, i: nat, p: nat)
    requires ParentOk(v, text, i, p)
    ensures p < i
  {
  }

  /** The parent computed in both loops of interval_encoding_new. */
  method Parents(bpe: BytePairEncoding, text: seq<byte>, last: seq<nat>) returns (par: seq<nat>)
    requires Ready(bpe) && Covers(bpe.vocab, text) && |last| == |text| && PrefixLasts(bpe.vocab, text, last)
    ensures PrefixTree(bpe.vocab, text, par)
  {
    hide *;
    ReadyVocab(bpe);
    ghost var v := bpe.vocab;
    var parent := new nat[|text| + 1](_ => 0);
    for id := 1 to |text| + 1
      invariant forall i :: 0 < i < id ==> ParentOk(v, text, i, parent[i])
    {
      ParentOf(v, text, last, id);
      parent[id] := id - |bpe.vocab.bytes[last[id - 1]]|;
    }
    par := parent[..];
    forall i | 0 < i < |par| ensures par[i] < i {
      ParentBefore(v, text, i, par[i]);
    }
    MakePrefixTree(v, text, par);
  }

  lemma MakePrefixTree(v: Vocab, text: seq<byte>, par: seq<nat>)
    requires |par| == |text| + 1 && forall i :: 0 < i < |par| ==> par[i] < i
    requires forall i :: 0 < i < |par| ==> ParentOk(v, text, i, par[i])
    ensures PrefixTree(v, text, par)
  {
  }

  /** interval_encoding_new */
  method New(bpe: BytePairEncoding, text: seq<byte>) returns (ie: IntervalEncoding, ghost par: seq<nat>)
    requires Ready(bpe) && Covers(bpe.vocab, text)
    ensures ie.bpe == bpe && ie.text == text && Valid(ie, par)
  {
    hide Ready, Covers, PrefixLasts, Id, End, Depth;
    var lasts, links := EncodeAllPrefixes(bpe, text);
    var last := lasts[..];
    var parents := Parents(bpe, text, last);
    par := parents;
    var size := SubtreeSizes(parents);
    var ids, ends, depths := Number(parents, size);
    ie := IntervalEncoding(bpe, text, last, ids, ends, depths);
  }

  // ---- What the tree says about encodings -----------------------------------------------

  lemma {:induction false} DepthIsCount(v: Vocab, text: seq<byte>, par: seq<nat>, i: nat)
    requires PrefixTree(v, text, par) && i <= |text|
    ensures Depth(par, i) == |Bpe(v, text[..i])|
    decreases i
  {
    if i == 0 {
      assert text[..0] == [];
      BpeOfNothing(v);
    } else {
      assert ParentOk(v, text, i, par[i]);
      DepthIsCount(v, text, par, par[i]);
    }
  }

  /** An ancestor's encoding is a prefix of the encodings below it. */
  lemma {:induction false} AncestorIsPrefix(v: Vocab, text: seq<byte>, par: seq<nat>, a: nat, b: nat)
    requires PrefixTree(v, text, par) && b <= |text| && Ancestor(par, a, b)
    ensures a <= b && Bpe(v, text[..a]) <= Bpe(v, text[..b])
    decreases b
  {
    if a != b {
      assert ParentOk(v, text, b, par[b]);
      AncestorIsPrefix(v, text, par, a, par[b]);
      assert Bpe(v, text[..b]) == Bpe(v, text[..par[b]]) + [LastToken(v, text[..b])];
    }
  }

  /** Two encodings that agree on a token can be joined there: the encoding of the part up
      to mid, then what the encoding of the whole prefix has after mid. */
  lemma Join(v: Vocab, text: seq<byte>, start: nat, mid: nat, end: nat, s: seq<nat>)
    requires WellFormed(v) && Covers(v, text) && start <= mid <= end <= |text|
    requires IsChain(v, s) && s != [] && Decode(v, s) == text[start..mid]
    requires 0 < mid && Last<nat>(s) == LastToken(v, text[..mid])
    requires Bpe(v, text[..mid]) <= Bpe(v, text[..end])
    ensures |Bpe(v, text[start..end])| == |s| + |Bpe(v, text[..end])| - |Bpe(v, text[..mid])|
  {
    hide WellFormed, Covers, ValidPair, Bpe;
    var a, b := Bpe(v, text[..mid]), Bpe(v, text[..end]);
    CoversPrefix(v, text, mid);
    CoversPrefix(v, text, end);
    BpeIsChain(v, text[..mid]);
    BpeIsChain(v, text[..end]);
    BpeNonempty(v, text[..mid]);
    var rest := b[|a|..];
    assert b == a + rest;
    ChainConcat(v, a, rest);
    ChainConcat(v, s, rest);
    DecodeConcat(v, a, rest);
    DecodeConcat(v, s, rest);
    RestOf(text, start, mid, end, Decode(v, rest));
    ChainIsBpe(v, s + rest);
  }

  lemma RestOf(text: seq<byte>, start: nat, mid: nat, end: nat, rest: seq<byte>)
    requires start <= mid <= end <= |text| && text[..end] == text[..mid] + rest
    ensures text[start..end] == text[start..mid] + rest
  {
  }

  lemma CoversRange(v: Vocab, text: seq<byte>, start: nat, end: nat)
    requires Covers(v, text) && start <= end <= |text|
    ensures Covers(v, text[start..end])
  {
  }

  /** What the running encoder of text[start..end] knows. */
  lemma EncoderFacts(e: Backtrack.BtEnc)
    requires e.Valid() && e.nextToken.Some?
    ensures e.nextToken.value < |e.bpe.vocab.bytes|
    ensures 0 < |e.bpe.vocab.bytes[e.nextToken.value]| && e.pos + |e.bpe.vocab.bytes[e.nextToken.value]| <= |e.text|
    ensures IsChain(e.bpe.vocab, e.tokens) && Decode(e.bpe.vocab, e.tokens) == e.text[..e.pos]
  {
    hide Ready;
    Backtrack.ValidParts(e);
    Backtrack.StateFacts(e.bpe.vocab, e.text, e.bitfield.Bits(), e.tokens, e.pos, e.nextToken.value, e.seen);
    Backtrack.StateParts(e.bpe.vocab, e.text, e.bitfield.Bits(), e.tokens, e.pos, e.nextToken.value, e.seen);
  }

  /** The early exit: the encoder meets the precomputed encoding, and the rest is a
      difference of depths. */
  lemma EarlyExit(ie: IntervalEncoding, par: seq<nat>, start: nat, end: nat, mid: nat, s: seq<nat>)
    requires Valid(ie, par) && start <= mid <= end <= |ie.text| && 0 < mid
    requires IsChain(ie.bpe.vocab, s) && s != [] && Decode(ie.bpe.vocab, s) == ie.text[start..mid]
    requires |ie.treeId| == |ie.treeEnd| == |ie.treeDepth| == |ie.text| + 1 && |ie.lastToken| == |ie.text|
    requires ie.treeId[mid] <= ie.treeId[end] < ie.treeEnd[mid]
    requires ie.lastToken[mid - 1] == Last<nat>(s)
    ensures ie.treeDepth[mid] <= ie.treeDepth[end]
    ensures |s| + (ie.treeDepth[end] - ie.treeDepth[mid]) == |Bpe(ie.bpe.vocab, ie.text[start..end])|
  {
    var v := ie.bpe.vocab;
    hide Ready, Covers, Id, End, Depth, Bpe, IsChain;
    ReadyVocab(ie.bpe);
    AncestorTest(par, mid, end);
    AncestorIsPrefix(v, ie.text, par, mid, end);
    DepthIsCount(v, ie.text, par, mid);
    DepthIsCount(v, ie.text, par, end);
    Join(v, ie.text, start, mid, end, s);
  }

  lemma ValidSizes(ie: IntervalEncoding, par: seq<nat>)
    requires Valid(ie, par)
    ensures Ready(ie.bpe) && Covers(ie.bpe.vocab, ie.text)
    ensures |ie.treeId| == |ie.treeEnd| == |ie.treeDepth| == |ie.text| + 1 && |ie.lastToken| == |ie.text|
  {
  }

  lemma PartOf(text: seq<byte>, start: nat, end: nat, pos: nat)
    requires start <= end <= |text| && pos <= end - start
    ensures text[start..end][..pos] == text[start..start + pos]
  {
  }

  /** interval_encoding_count */
  method CountRange(ie: IntervalEncoding, ghost par: seq<nat>, start: nat, end: nat) returns (c: nat)
    requires Valid(ie, par) && start <= end <= |ie.text|
    ensures c == |Bpe(ie.bpe.vocab, ie.text[start..end])|
  {
    hide *;
    ValidSizes(ie, par);
    CoversRange(ie.bpe.vocab, ie.text, start, end);
    var leaf := ie.treeId[end];
    var e := new Backtrack.BtEnc(ie.bpe, ie.text[start..end]);
    Backtrack.ValidSteps(e);
    var r := e.Step();
    Backtrack.ValidSteps(e);
    while r.Some?
      invariant e.Valid() && r == e.nextToken && fresh(e) && fresh(e.bitfield.words)
      invariant e.bpe == ie.bpe && e.text == ie.text[start..end]
      invariant e.steps <= 2 * |e.text| + 1
      invariant r.None? ==> e.tokens == Bpe(e.bpe.vocab, e.text)
      decreases 2 * |e.text| + 1 - e.steps
    {
      EncoderFacts(e);
      if |e.tokens| > 0 {
        var prev_token := Last<nat>(e.tokens);
        var end_pos_abs := e.pos + start;
        if end_pos_abs > 0 && end_pos_abs <= |ie.text| {
          var next_tok := r.value;
          var nxt_abs_end := end_pos_abs + |ie.bpe.vocab.bytes[next_tok]|;
          if nxt_abs_end > |ie.text| {
            break;
          }
          if ie.treeId[end_pos_abs] <= leaf < ie.treeEnd[end_pos_abs]
             && ie.lastToken[end_pos_abs - 1] == prev_token
             && ie.lastToken[nxt_abs_end - 1] == next_tok
          {
            PartOf(ie.text, start, end, e.pos);
            EarlyExit(ie, par, start, end, end_pos_abs, e.tokens);
            return |e.tokens| + (ie.treeDepth[end] - ie.treeDepth[end_pos_abs]);
          }
        }
      }
      r := e.Step();
      Backtrack.ValidSteps(e);
    }
    c := |e.tokens|;
  }
}
