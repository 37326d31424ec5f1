/** A bit array in 64-bit words, with the next and the previous set bit found a whole word at
    a time. */
module BitFields {

  /** A 64-bit word, least significant bit first. */
  type Word = w: seq<bool> | |w| == 64 witness seq(64, _ => true)

  const ALL_ONES: Word := seq(64, _ => true)

  function ShiftRight(w: Word, k: nat): Word
    requires k < 64
  {
    w[k..] + seq(k, _ => false)
  }

  function ShiftLeft(w: Word, k: nat): Word
    requires k < 64
  {
    seq(k, _ => false) + w[..64 - k]
  }

  predicate NonZero(w: Word) {
    exists i :: 0 <= i < 64 && w[i]
  }

  /** Count of trailing zero bits. */
  function TrailingZeros(w: Word, from: nat): (k: nat)
    requires exists i :: from <= i < 64 && w[i]
    ensures from <= k < 64 && w[k] && forall i :: from <= i < k ==> !w[i]
    decreases 64 - from
  {
    if w[from] then from else TrailingZeros(w, from + 1)
  }

  /** Count of leading zero bits. */
  function LeadingZeros(w: Word, from: nat): (k: nat)
    requires exists i :: 0 <= i < 64 - from && w[i]
    ensures from <= k < 64 && w[63 - k] && forall i :: 63 - k < i < 64 - from ==> !w[i]
    decreases 64 - from
  {
    if w[63 - from] then from else LeadingZeros(w, from + 1)
  }

  function Ctz(w: Word): (k: nat)
    requires NonZero(w)
    ensures k < 64 && w[k] && forall i :: 0 <= i < k ==> !w[i]
  {
    TrailingZeros(w, 0)
  }

  function Clz(w: Word): (k: nat)
    requires NonZero(w)
    ensures k < 64 && w[63 - k] && forall i :: 63 - k < i < 64 ==> !w[i]
  {
    LeadingZeros(w, 0)
  }

  /** Bit i of a run of words. */
  predicate Bit(words: seq<Word>, i: nat)
    requires i < 64 * |words|
  {
    words[i / 64][i % 64]
  }

  ghost predicate NoBits(words: seq<Word>, from: nat, to: nat)
    requires to <= 64 * |words|
  {
    forall i :: from <= i < to ==> !Bit(words, i)
  }

  lemma WordBits(words: seq<Word>, idx: nat)
    requires idx < |words|
    ensures forall i :: 64 * idx <= i < 64 * idx + 64 ==> Bit(words, i) == words[idx][i - 64 * idx]
  {
  }

  class BitField {
    var words: array<Word>

    /** The bits as a sequence. */
    ghost function Bits(): (s: seq<bool>)
      reads this, words
      ensures |s| == 64 * words.Length
    {
      seq(64 * words.Length, i requires 0 <= i < 64 * words.Length reads this, words => Bit(words[..], i))
    }

    /** bitfield_new: room for the given number of bits, all set. */
    constructor (bits: nat)
      ensures fresh(words) && bits <= 64 * words.Length < bits + 64
      ensures forall i :: 0 <= i < |Bits()| ==> Bits()[i]
    {
      words := new Word[(bits + 63) / 64](_ => ALL_ONES);
    }

    method IsSet(bit: nat) returns (b: bool)
      requires bit < 64 * words.Length
      ensures b == Bits()[bit]
    {
      b := words[bit / 64][bit % 64];
    }

    /** bitfield_clear */
    method Clear(bit: nat)
      requires bit < 64 * words.Length
      modifies words
      ensures Bits() == old(Bits())[bit := false]
    {
      words[bit / 64] := words[bit / 64][bit % 64 := false];
    }

    /** bitfield_reset: keeps the buffer if it is large enough. */
    method Reset(bits: nat)
      modifies this, words
      ensures words == old(words) || fresh(words)
      ensures bits <= 64 * words.Length && forall i :: 0 <= i < bits ==> Bits()[i]
    {
      var need := (bits + 63) / 64;
      if need > words.Length {
        words := new Word[need](_ => ALL_ONES);
      }
      for i := 0 to need
        modifies words
        invariant words == old(words) || fresh(words)
        invariant need <= words.Length
        invariant forall j :: 0 <= j < i ==> words[j] == ALL_ONES
      {
        words[i] := ALL_ONES;
      }
    }
  
    lemma BitsAre()
      ensures |Bits()| == 64 * |words[..]|
      ensures forall i :: 0 <= i < |Bits()| ==> Bits()[i] == Bit(words[..], i)
    {
    }

    /** bitfield_successor: needs a set bit at or after the given one, as the scan has no
        other end. */
    method Successor(bit: nat) returns (r: nat)
      requires exists i :: bit <= i < |Bits()| && Bits()[i]
      ensures bit <= r < |Bits()| && Bits()[r] && forall i :: bit <= i < r ==> !Bits()[i]
    {
      BitsAre();
      ghost var ws := words[..];
      ghost var last :| bit <= last < |Bits()| && Bits()[last];
      var word_idx, bit_idx := bit / 64, bit % 64;
      assert bit == 64 * word_idx + bit_idx && ws[word_idx] == words[word_idx];
      FirstWordRight(ws, word_idx, bit_idx);
      hide *;
      var word := ShiftRight(words[word_idx], bit_idx);
      if NonZero(word) {
        Scanned(ws, bit, bit + Ctz(word));
        return bit + Ctz(word);
      }
      r := NextWords(words, word_idx, ws, bit, last);
      Scanned(ws, bit, r);
    }

    /** bitfield_predecessor */
    method Predecessor(bit: nat) returns (r: nat)
      requires bit < |Bits()| && exists i :: 0 <= i <= bit && Bits()[i]
      ensures r <= bit && Bits()[r] && forall i :: r < i <= bit ==> !Bits()[i]
    {
      BitsAre();
      ghost var ws := words[..];
      ghost var first :| 0 <= first <= bit && Bits()[first];
      var word_idx, bit_idx := bit / 64, bit % 64;
      assert bit == 64 * word_idx + bit_idx && ws[word_idx] == words[word_idx];
      FirstWordLeft(ws, word_idx, bit_idx);
      hide *;
      var word := ShiftLeft(words[word_idx], 63 - bit_idx);
      if NonZero(word) {
        Scanned(ws, bit - Clz(word) + 1, bit + 1);
        return bit - Clz(word);
      }
      r := PreviousWords(words, word_idx, ws, bit, first);
      Scanned(ws, r + 1, bit + 1);
    }
  }

  /** The loop of bitfield_successor over whole words. */
  method NextWords(words: array<Word>, word_idx: nat, ghost ws: seq<Word>, ghost bit: nat, ghost last: nat)
      returns (r: nat)
    requires ws == words[..] && word_idx < words.Length && bit <= last < 64 * |ws| && Bit(ws, last)
    requires bit / 64 == word_idx
    requires NoBits(ws, bit, 64 * (word_idx + 1))
    ensures bit <= r < 64 * |ws| && Bit(ws, r) && NoBits(ws, bit, r)
  {
    hide *;
    var i := word_idx;
    while true
      invariant word_idx <= i < words.Length && NoBits(ws, bit, 64 * (i + 1))
      decreases words.Length - i
    {
      NotBelow(ws, bit, 64 * (i + 1), last);
      i := i + 1;
      var word := words[i];
      assert word == ws[i];
      WordScan(ws, i);
      if NonZero(word) {
        NoBitsJoin(ws, bit, 64 * i, 64 * i + Ctz(word));
        return i * 64 + Ctz(word);
      }
      NoBitsJoin(ws, bit, 64 * i, 64 * i + 64);
    }
  }

  /** The loop of bitfield_predecessor over whole words. */
  method PreviousWords(words: array<Word>, word_idx: nat, ghost ws: seq<Word>, ghost bit: nat, ghost first: nat)
      returns (r: nat)
    requires ws == words[..] && word_idx < words.Length && first <= bit < 64 * |ws| && Bit(ws, first)
    requires bit / 64 == word_idx
    requires NoBits(ws, 64 * word_idx, bit + 1)
    ensures r <= bit && Bit(ws, r) && NoBits(ws, r + 1, bit + 1)
  {
    hide *;
    var i: nat := word_idx;
    while true
      invariant i <= word_idx && NoBits(ws, 64 * i, bit + 1)
      decreases i
    {
      NotAbove(ws, 64 * i, bit + 1, first);
      i := i - 1;
      var word := words[i];
      assert word == ws[i];
      WordScan(ws, i);
      if NonZero(word) {
        NoBitsJoin(ws, 64 * i + 64 - Clz(word), 64 * i + 64, bit + 1);
        return i * 64 + 63 - Clz(word);
      }
      NoBitsJoin(ws, 64 * i, 64 * i + 64, bit + 1);
    }
  }

  lemma Scanned(words: seq<Word>, from: nat, to: nat)
    requires to <= 64 * |words| && NoBits(words, from, to)
    ensures forall i :: from <= i < to ==> !Bit(words, i)
  {
  }

  lemma NoBitsJoin(words: seq<Word>, from: nat, mid: nat, to: nat)
    requires from <= mid <= to <= 64 * |words| && NoBits(words, from, mid) && NoBits(words, mid, to)
    ensures NoBits(words, from, to)
  {
  }

  lemma NotBelow(words: seq<Word>, from: nat, to: nat, k: nat)
    requires to <= 64 * |words| && NoBits(words, from, to) && from <= k < 64 * |words| && Bit(words, k)
    ensures to <= k
  {
  }

  lemma NotAbove(words: seq<Word>, from: nat, to: nat, k: nat)
    requires to <= 64 * |words| && NoBits(words, from, to) && k < to && Bit(words, k)
    ensures k < from
  {
  }

  /** One whole word of the scan, in either direction. */
  lemma WordScan(words: seq<Word>, idx: nat)
    requires idx < |words|
    ensures if NonZero(words[idx]) then
              var z, y := 64 * idx + Ctz(words[idx]), 64 * idx + 63 - Clz(words[idx]);
              Bit(words, z) && NoBits(words, 64 * idx, z) && Bit(words, y) && NoBits(words, y + 1, 64 * idx + 64)
            else NoBits(words, 64 * idx, 64 * idx + 64)
  {
    WordBits(words, idx);
    AllZero(words[idx]);
    hide Bit, NonZero;
  }

  lemma FirstWordRight(words: seq<Word>, idx: nat, k: nat)
    requires idx < |words| && k < 64
    ensures if NonZero(ShiftRight(words[idx], k)) then
              var z := 64 * idx + k + Ctz(ShiftRight(words[idx], k));
              z < 64 * |words| && Bit(words, z) && NoBits(words, 64 * idx + k, z)
            else NoBits(words, 64 * idx + k, 64 * (idx + 1))
  {
    WordBits(words, idx);
    InWordRight(words[idx], k);
    hide Bit, NonZero, ShiftRight;
  }

  lemma FirstWordLeft(words: seq<Word>, idx: nat, k: nat)
    requires idx < |words| && k < 64
    ensures if NonZero(ShiftLeft(words[idx], 63 - k)) then
              var z := 64 * idx + k - Clz(ShiftLeft(words[idx], 63 - k));
              0 <= z && Bit(words, z) && NoBits(words, z + 1, 64 * idx + k + 1)
            else NoBits(words, 64 * idx, 64 * idx + k + 1)
  {
    WordBits(words, idx);
    InWordLeft(words[idx], k);
    hide Bit, NonZero, ShiftLeft;
  }

  lemma AllZero(w: Word)
    ensures !NonZero(w) ==> forall j :: 0 <= j < 64 ==> !w[j]
  {
  }

  /** The scan inside the word that holds bit k, towards higher bits. */
  lemma InWordRight(w: Word, k: nat)
    requires k < 64
    ensures if NonZero(ShiftRight(w, k))
            then var z := k + Ctz(ShiftRight(w, k)); z < 64 && w[z] && forall j :: k <= j < z ==> !w[j]
            else forall j :: k <= j < 64 ==> !w[j]
  {
    var s := ShiftRight(w, k);
    assert forall j :: k <= j < 64 ==> w[j] == s[j - k];
  }

  /** The scan inside the word that holds bit k, towards lower bits. */
  lemma InWordLeft(w: Word, k: nat)
    requires k < 64
    ensures if NonZero(ShiftLeft(w, 63 - k))
            then var z := k - Clz(ShiftLeft(w, 63 - k)); 0 <= z && w[z] && forall j :: z < j <= k ==> !w[j]
            else forall j :: 0 <= j <= k ==> !w[j]
  {
    var s := ShiftLeft(w, 63 - k);
    var found := NonZero(s);
    var z := if found then k - Clz(s) else -1;
    if found {
      assert s[63 - Clz(s)];
    }
    forall j | z < j <= k && 0 <= j ensures !w[j] {
      assert s[63 - k + j] == w[j];
    }
  }
}
