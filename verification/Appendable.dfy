/** Counting tokens while bytes are appended. */
module Appendable {
  import opened Vocabulary
  import opened Merging
  import opened Tables
  import opened PrefixTable

  datatype AppState = AppState(acState: int, lastToken: nat, count: nat)

  /** What a fresh encoder records after reading exactly t. */
  ghost function StateFor(bpe: BytePairEncoding, t: seq<byte>): AppState
    requires Ready(bpe)
  {
    AppState(ForwardState(bpe, t), LastToken(bpe.vocab, t), |Bpe(bpe.vocab, t)|)
  }

  ghost predicate StatesFor(bpe: BytePairEncoding, t: seq<byte>, states: seq<AppState>)
    requires Ready(bpe)
  {
    |states| == |t| && forall i :: 0 <= i < |t| ==> states[i] == StateFor(bpe, t[..i + 1])
  }

  class AppendableEncoder {
    const bpe: BytePairEncoding
    var states: seq<AppState>
    ghost var text: seq<byte>

    /** One state per byte, each the state of a fresh encoder on the bytes up to it. */
    ghost predicate Valid()
      reads this
    {
      Ready(bpe) && Covers(bpe.vocab, text) && StatesFor(bpe, text, states)
    }

    constructor (bpe: BytePairEncoding)
      requires Ready(bpe)
      ensures Valid() && text == [] && this.bpe == bpe
    {
      this.bpe := bpe;
      states := [];
      text := [];
    }

    /** appendable_encoder_push */
    method Push(c: byte)
      requires Valid() && IsByteToken(bpe.vocab, c)
      modifies this
      ensures Valid() && text == old(text) + [c]
    {
      hide *;
      ValidFacts(this, c);
      var prev_state := if |states| > 0 then states[|states| - 1].acState else 0;
      var last := LastTokens(states);
      var state, token, start;
      ghost var links;
      state, token, start, links := NextLast(bpe, prev_state, text, c, last);
      CountNext(bpe, text, c, states, token, start);
      var count := if start == 0 then 1 else states[start - 1].count + 1;
      StatesNext(bpe, text, c, states, AppState(state, token, count));
      states := states + [AppState(state, token, count)];
      text := text + [c];
      IsValid(this);
    }

    /** appendable_encoder_extend */
    method Extend(bytes: seq<byte>)
      requires Valid() && Covers(bpe.vocab, bytes)
      modifies this
      ensures Valid() && text == old(text) + bytes
    {
      hide *;
      assert text + bytes[..0] == text;
      for i := 0 to |bytes|
        invariant Valid() && text == old(text) + bytes[..i]
      {
        ByteCovered(bpe.vocab, bytes, i);
        Push(bytes[i]);
        assert (old(text) + bytes[..i]) + [bytes[i]] == old(text) + bytes[..i + 1];
      }
      assert bytes[..|bytes|] == bytes;
    }

    /** appendable_encoder_truncate */
    method Truncate(len: nat)
      requires Valid()
      modifies this
      ensures Valid() && text == if len < |old(text)| then old(text)[..len] else old(text)
    {
      hide *;
      ValidParts(this);
      if len < |states| {
        StatesCut(bpe, text, states, len);
        states := states[..len];
        text := text[..len];
        IsValid(this);
      }
    }

    /** appendable_encoder_token_count */
    method TokenCount() returns (c: nat)
      requires Valid()
      ensures c == |Bpe(bpe.vocab, text)|
    {
      if |states| == 0 {
        BpeOfNothing(bpe.vocab);
        return 0;
      }
      assert text[..|text|] == text;
      return states[|states| - 1].count;
    }
  }

  lemma ByteCovered(v: Vocab, t: seq<byte>, i: nat)
    requires Covers(v, t) && i < |t|
    ensures IsByteToken(v, t[i])
  {
  }

  lemma ValidParts(e: AppendableEncoder)
    requires e.Valid()
    ensures Ready(e.bpe) && Covers(e.bpe.vocab, e.text) && StatesFor(e.bpe, e.text, e.states) && |e.states| == |e.text|
  {
  }

  /** The last tokens recorded in the states, by position. */
  function LastTokens(states: seq<AppState>): (last: seq<nat>)
    ensures |last| == |states|
  {
    seq(|states|, i requires 0 <= i < |states| => states[i].lastToken)
  }

  lemma ValidFacts(e: AppendableEncoder, c: byte)
    requires e.Valid() && IsByteToken(e.bpe.vocab, c)
    ensures Ready(e.bpe) && Covers(e.bpe.vocab, e.text) && Covers(e.bpe.vocab, e.text + [c])
    ensures StatesFor(e.bpe, e.text, e.states)
    ensures |e.states| == |e.text| == |LastTokens(e.states)|
    ensures PrefixLasts(e.bpe.vocab, e.text, LastTokens(e.states))
    ensures (if |e.states| > 0 then e.states[|e.states| - 1].acState else 0) == ForwardState(e.bpe, e.text)
  {
    ForwardStart(e.bpe);
    assert e.text[..|e.text|] == e.text;
    hide Ready, ForwardState, LastToken, Bpe;
    forall p | 0 <= p < |e.states| ensures LastTokens(e.states)[p] == LastToken(e.bpe.vocab, e.text[..p + 1]) {
      assert e.states[p] == StateFor(e.bpe, e.text[..p + 1]);
    }
  }

  lemma SnocPrefix(t: seq<byte>, c: byte, i: nat)
    requires i <= |t|
    ensures (t + [c])[..i] == t[..i]
  {
  }

  lemma CountAt(bpe: BytePairEncoding, t: seq<byte>, states: seq<AppState>, i: nat)
    requires Ready(bpe) && StatesFor(bpe, t, states) && 0 < i <= |t|
    ensures |states| == |t| && states[i - 1].count == |Bpe(bpe.vocab, t[..i])|
  {
    hide Ready, Bpe;
    assert states[i - 1] == StateFor(bpe, t[..i]);
  }

  lemma NothingBefore(v: Vocab, t: seq<byte>)
    ensures t[..0] == [] && Bpe(v, t[..0]) == []
  {
  }

  lemma StatesSize(bpe: BytePairEncoding, t: seq<byte>, states: seq<AppState>)
    requires Ready(bpe) && StatesFor(bpe, t, states)
    ensures |states| == |t|
  {
  }

  /** The count of the longer text is one more than that of the text before its last token. */
  lemma CountNext(bpe: BytePairEncoding, t: seq<byte>, c: byte, states: seq<AppState>, token: nat, start: nat)
    requires Ready(bpe) && Covers(bpe.vocab, t + [c]) && StatesFor(bpe, t, states)
    requires token == LastToken(bpe.vocab, t + [c]) < |bpe.vocab.bytes| && start + |bpe.vocab.bytes[token]| == |t| + 1
    ensures start <= |states|
    ensures |Bpe(bpe.vocab, t + [c])| == if start == 0 then 1 else states[start - 1].count + 1
  {
    var v := bpe.vocab;
    ReadyVocab(bpe);
    hide *;
    StatesSize(bpe, t, states);
    LastSplits(v, t + [c]);
    SuffixSize(v, t + [c], token);
    SnocPrefix(t, c, start);
    if start == 0 {
      NothingBefore(v, t);
    } else {
      CountAt(bpe, t, states, start);
    }
  }

  lemma StatesNext(bpe: BytePairEncoding, t: seq<byte>, c: byte, states: seq<AppState>, s: AppState)
    requires Ready(bpe) && StatesFor(bpe, t, states)
    requires s.acState == ForwardState(bpe, t + [c]) && s.lastToken == LastToken(bpe.vocab, t + [c])
    requires s.count == |Bpe(bpe.vocab, t + [c])|
    ensures StatesFor(bpe, t + [c], states + [s])
  {
    hide Ready, ForwardState, LastToken, Bpe;
    var t', states' := t + [c], states + [s];
    forall i | 0 <= i < |t'| ensures states'[i] == StateFor(bpe, t'[..i + 1]) {
      if i < |t| {
        assert t'[..i + 1] == t[..i + 1];
      } else {
        assert t'[..i + 1] == t';
      }
    }
  }

  lemma StatesCut(bpe: BytePairEncoding, t: seq<byte>, states: seq<AppState>, len: nat)
    requires Ready(bpe) && StatesFor(bpe, t, states) && len <= |t| && Covers(bpe.vocab, t)
    ensures StatesFor(bpe, t[..len], states[..len]) && Covers(bpe.vocab, t[..len])
  {
    CoversPrefix(bpe.vocab, t, len);
    hide Ready, StateFor;
    forall i | 0 <= i < len ensures states[i] == StateFor(bpe, t[..len][..i + 1]) {
      assert t[..len][..i + 1] == t[..i + 1];
    }
  }

  lemma IsValid(e: AppendableEncoder)
    requires Ready(e.bpe) && Covers(e.bpe.vocab, e.text) && StatesFor(e.bpe, e.text, e.states)
    ensures e.Valid()
  {
  }
}
