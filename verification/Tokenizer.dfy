/** Encoding piece by piece. */
module Tokenizer {

  // The tokenizer cuts a text into pieces and encodes each piece.

  import opened Vocabulary
  import opened Merging
  import opened Chain
  import opened Tables
  import Backtrack
  import opened PrefixTable
  import opened Utf8
  import opened Pretokenizer
  import opened PieceShapes

  // ---- The pieces ---------------------------------------------------------------------------------------

  /** The loop that gives the last character back. */
  function LastCharStart(t: seq<byte>, from: nat, last: nat): (p: nat)
    requires from <= last < |t|
    ensures from <= p <= last && (p == from || !Tail(t[p]))
    ensures forall k :: p < k <= last ==> Tail(t[k])
  {
    if last > from && Tail(t[last]) then LastCharStart(t, from, last - 1) else last
  }

  /** Where the piece that starts at offset ends. */
  function PieceEnd(k: Pattern, u: Ucd, t: seq<byte>, offset: nat): Option<nat> {
    match Pretok(k, u, t, offset)
    case None => None
    case Some(m) =>
      if m.lookahead && m.start < m.end <= |t| then Some(LastCharStart(t, m.start, m.end - 1)) else Some(m.end)
  }

  /** e is where the last character between i and f starts: all bytes behind it continue it. */
  ghost predicate LastCharAt(t: seq<byte>, i: nat, f: nat, e: nat) {
    i <= e < f <= |t| && (e == i || !Tail(t[e])) && forall j :: e < j < f ==> Tail(t[j])
  }

  /** The first alternative that fits takes the bytes from i to e; the one that looks ahead gives its last character
      back. */
  ghost predicate PieceAt(k: Pattern, u: Ucd, t: seq<byte>, i: nat, e: nat) {
    exists n: nat, f: nat :: FirstShape(k, u, t, i, n, f) && if n == 6 then LastCharAt(t, i, f, e) else e == f
  }

  lemma LastCharMeans(t: seq<byte>, i: nat, f: nat, e: nat)
    requires i < f <= |t|
    ensures LastCharAt(t, i, f, e) <==> e == LastCharStart(t, i, f - 1)
  {
  }

  lemma SamePiece(k: Pattern, u: Ucd, t: seq<byte>, i: nat, n: nat, f: nat)
    requires i < |t| && FirstShape(k, u, t, i, n, f)
    ensures Pretok(k, u, t, i) == Some(PretokMatch(i, f, PatternOf(n), n == 6)) && i <= f <= |t| && (n == 6 ==> i < f)
  {
    hide FirstShape, Pretok;
    var m := PretokMatch(i, f, PatternOf(n), n == 6);
    MatchMeans(k, u, t, i, m);
    MatchInText(k, u, t, i);
  }

  /** In any bytes, the piece at i ends at e exactly if it does so by the descriptions of the alternatives. */
  lemma PieceMeans(k: Pattern, u: Ucd, t: seq<byte>, i: nat, e: nat)
    requires i < |t|
    ensures PieceEnd(k, u, t, i) == Some(e) <==> PieceAt(k, u, t, i, e)
  {
    hide FirstShape, Pretok, LastCharAt;
    MatchInText(k, u, t, i);
    var m := Pretok(k, u, t, i).value;
    MatchMeans(k, u, t, i, m);
    if m.lookahead { LastCharMeans(t, i, m.end, e); }
    forall n: nat, f: nat | FirstShape(k, u, t, i, n, f) ensures f == m.end && (n == 6 <==> m.lookahead) {
      SamePiece(k, u, t, i, n, f);
    }
  }

  /** The piece is not empty and ends between two characters. */
  lemma PieceIsGood(k: Pattern, u: Ucd, t: seq<byte>, offset: nat)
    requires offset < |t| && CharsFrom(t, offset)
    ensures var e := PieceEnd(k, u, t, offset);
            e.Some? && offset < e.value <= |t| && CharsFrom(t, e.value)
  {
    hide Pretok, CharsFrom, CharAt;
    MatchIsGood(k, u, t, offset);
    var m := Pretok(k, u, t, offset).value;
    if m.lookahead {
      var second := AfterChar(t, offset);
      CharEnds(t, offset);
      BoundaryIff(t, second, second);
      var p := LastCharStart(t, offset, m.end - 1);
      assert second <= p;
      BoundaryIff(t, offset, p);
    }
  }

  /** The last character of a run of at least two whitespace characters in front of another
      character is given back to the next piece exactly if the pretokenizer is not cl100k or
      the run is not as long in bytes as that character. */
  lemma GivenBackIff(k: Pattern, u: Ucd, t: seq<byte>, i: nat, q: nat)
    requires PlainSpaces(u) && CharsFrom(t, i) && InnerRun(t, i, q)
    ensures var e := PieceEnd(k, u, t, i);
            && e.Some? && i < e.value <= q
            && (e.value == LastCharStart(t, i, q - 1) < q <==> k != Cl100k || q - i != CharAt(t, q).length)
            && (e.value == q <==> k == Cl100k && q - i == CharAt(t, q).length)
  {
    InnerRunMatch(k, u, t, i, q);
    InnerRunEnds(t, i, q);
    hide Pretok, PlainSpaces, InnerRun, IsWhitespace, CharAt;
    LastStartsLater(t, i, q);
  }

  lemma LastStartsLater(t: seq<byte>, i: nat, q: nat)
    requires CharsFrom(t, i) && i < |t| && AfterChar(t, i) < q <= |t|
    ensures i < LastCharStart(t, i, q - 1) < q
  {
  }

  /** Two spaces and an e with an acute accent. */
  const TWO_SPACES: seq<byte> := [0x20, 0x20, 0xC3, 0xA9]

  /** cl100k keeps both spaces in one piece where o200k gives the second one back. */
  lemma TwoSpacesKept(u: Ucd)
    requires PlainSpaces(u)
    ensures PieceEnd(Cl100k, u, TWO_SPACES, 0) == Some(2) && PieceEnd(O200k, u, TWO_SPACES, 0) == Some(1)
  {
    var t := TWO_SPACES;
    assert CharAt(t, 2) == CodePoint(0xE9, 2);
    assert CharsFrom(t, 4) && CharsFrom(t, 2) && CharsFrom(t, 1) && CharsFrom(t, 0);
    assert AllHave(t, 2, 2, IsWhitespace) && AllHave(t, 1, 2, IsWhitespace) && AllHave(t, 0, 2, IsWhitespace);
    assert AllHave(t, 2, 2, Blank()) && AllHave(t, 1, 2, Blank()) && AllHave(t, 0, 2, Blank());
    GivenBackIff(Cl100k, u, t, 0, 2);
    GivenBackIff(O200k, u, t, 0, 2);
  }

  // ---- Where the cutting stands still --------------------------------------------------------------------

  lemma PieceInText(k: Pattern, u: Ucd, t: seq<byte>, i: nat)
    requires i < |t|
    ensures PieceEnd(k, u, t, i).Some? && i <= PieceEnd(k, u, t, i).value <= |t|
  {
    hide Pretok;
    MatchInText(k, u, t, i);
  }

  lemma LastCharIsFirst(t: seq<byte>, from: nat, last: nat)
    requires from <= last < |t|
    ensures LastCharStart(t, from, last) == from <==> forall j :: from < j <= last ==> Tail(t[j])
  {
  }

  /** In any bytes, a piece is empty exactly at an overlong line break and at a whitespace character with nothing but
      stray 85 and A0 behind it, in front of another character. */
  lemma EmptyPieceIff(k: Pattern, u: Ucd, t: seq<byte>, i: nat)
    requires PlainSpaces(u) && i < |t|
    ensures PieceEnd(k, u, t, i) == Some(i) <==> OverlongBreak(t, i) || exists q: nat :: StrayRun(k, t, i, q)
  {
    hide Pretok, PlainSpaces, OverlongBreak, StrayRun;
    MatchInText(k, u, t, i);
    if PieceEnd(k, u, t, i) == Some(i) {
      var m := Pretok(k, u, t, i).value;
      if m.lookahead {
        LastCharIsFirst(t, i, m.end - 1);
        LookaheadStray(k, u, t, i);
      } else {
        OnlyBreaksEmpty(k, u, t, i);
      }
    }
    if OverlongBreak(t, i) {
      OverlongMatch(k, u, t, i);
    }
    if q: nat :| StrayRun(k, t, i, q) {
      StrayStands(k, u, t, i, q);
    }
  }

  /** The look-ahead match that is given back whole. */
  lemma LookaheadStray(k: Pattern, u: Ucd, t: seq<byte>, i: nat)
    requires i < |t| && Pretok(k, u, t, i).Some? && Pretok(k, u, t, i).value.lookahead
    requires i < Pretok(k, u, t, i).value.end <= |t|
    requires forall j :: i < j < Pretok(k, u, t, i).value.end ==> Tail(t[j])
    ensures StrayRun(k, t, i, Pretok(k, u, t, i).value.end)
  {
    var q := Pretok(k, u, t, i).value.end;
    LookaheadRun(k, u, t, i);
    StrayBytes(t, AfterChar(t, i), q);
  }

  lemma LookaheadRun(k: Pattern, u: Ucd, t: seq<byte>, i: nat)
    requires i < |t| && Pretok(k, u, t, i).Some? && Pretok(k, u, t, i).value.lookahead
    ensures var q := Pretok(k, u, t, i).value.end;
            && AfterChar(t, i) < q < |t| && AllHave(t, AfterChar(t, i), q, IsWhitespace) && Blank()(CodeAt(t, i))
            && !IsWhitespace(CodeAt(t, q)) && !GivesUp(k, t, i, q)
  {
    var q := RunEnd(t, i, IsWhitespace);
    RunMeans(t, i, q, IsWhitespace);
    hide CharAt, IsWhitespace, Words, Numbers, Punct;
    assert Pretok(k, u, t, i) == Some(PretokMatch(i, q, 1, true));
    assert AllHave(t, i, q, IsWhitespace);
  }

  lemma StrayStands(k: Pattern, u: Ucd, t: seq<byte>, i: nat, q: nat)
    requires PlainSpaces(u) && StrayRun(k, t, i, q)
    ensures PieceEnd(k, u, t, i) == Some(i)
  {
    StrayIsInner(k, t, i, q);
    InnerRunMatch(k, u, t, i, q);
    ContinuedBy(t, i);
    LastCharIsFirst(t, i, q - 1);
    hide Pretok, CharAt, IsWhitespace, PlainSpaces, InnerRun;
  }

  // ---- The pieces of a text ---------------------------------------------------------------------------------

  /** From offset on, piece after piece is not empty, to the end of the text. */
  ghost predicate Cuts(k: Pattern, u: Ucd, t: seq<byte>, offset: nat)
    requires offset <= |t|
    decreases |t| - offset
  {
    offset == |t|
    || (var e := PieceEnd(k, u, t, offset);
        e.Some? && offset < e.value <= |t| && Cuts(k, u, t, e.value))
  }

  /** The offset after n pieces. */
  function OffsetAfter(k: Pattern, u: Ucd, t: seq<byte>, offset: nat, n: nat): (p: nat)
    requires offset <= |t|
    ensures p <= |t|
    decreases n
  {
    if n == 0 || offset == |t| then offset
    else
      PieceInText(k, u, t, offset);
      OffsetAfter(k, u, t, PieceEnd(k, u, t, offset).value, n - 1)
  }

  /** After some number of pieces the offset is at the end. */
  ghost predicate Arrives(k: Pattern, u: Ucd, t: seq<byte>, offset: nat)
    requires offset <= |t|
  {
    exists n: nat :: OffsetAfter(k, u, t, offset, n) == |t|
  }

  /** The iteration over any bytes ends exactly if it meets no empty piece on its way. */
  lemma {:induction false} CutsIffEnds(k: Pattern, u: Ucd, t: seq<byte>, offset: nat)
    requires offset <= |t|
    ensures Cuts(k, u, t, offset) <==> Arrives(k, u, t, offset)
    decreases |t| - offset
  {
    hide PieceEnd;
    if offset == |t| {
      assert OffsetAfter(k, u, t, offset, 0) == |t|;
    } else {
      PieceInText(k, u, t, offset);
      var e := PieceEnd(k, u, t, offset).value;
      if e == offset {
        forall n: nat ensures OffsetAfter(k, u, t, offset, n) == offset {
          StandsStill(k, u, t, offset, n);
        }
      } else {
        CutsIffEnds(k, u, t, e);
        AfterNext(k, u, t, offset);
      }
    }
  }

  lemma {:induction false} StandsStill(k: Pattern, u: Ucd, t: seq<byte>, offset: nat, n: nat)
    requires offset < |t| && PieceEnd(k, u, t, offset) == Some(offset)
    ensures OffsetAfter(k, u, t, offset, n) == offset
    decreases n
  {
    if n > 0 { StandsStill(k, u, t, offset, n - 1); }
  }

  lemma AfterNext(k: Pattern, u: Ucd, t: seq<byte>, offset: nat)
    requires offset < |t| && PieceEnd(k, u, t, offset).Some? && PieceEnd(k, u, t, offset).value <= |t|
    ensures Arrives(k, u, t, offset) <==> Arrives(k, u, t, PieceEnd(k, u, t, offset).value)
  {
    hide PieceEnd;
    var e := PieceEnd(k, u, t, offset).value;
    if Arrives(k, u, t, offset) {
      var n: nat :| OffsetAfter(k, u, t, offset, n) == |t|;
      assert OffsetAfter(k, u, t, e, n - 1) == |t|;
    }
    if Arrives(k, u, t, e) {
      var n: nat :| OffsetAfter(k, u, t, e, n) == |t|;
      assert OffsetAfter(k, u, t, offset, n + 1) == |t|;
    }
  }

  ghost predicate StuckAt(k: Pattern, t: seq<byte>, p: nat) {
    p < |t| && (OverlongBreak(t, p) || exists q: nat :: StrayRun(k, t, p, q))
  }

  ghost predicate GetsStuck(k: Pattern, u: Ucd, t: seq<byte>, offset: nat)
    requires offset <= |t|
  {
    exists n: nat :: StuckAt(k, t, OffsetAfter(k, u, t, offset, n))
  }

  /** The iteration over any bytes never ends exactly if it comes to one of these places. */
  lemma {:induction false} NeverEndsIff(k: Pattern, u: Ucd, t: seq<byte>, offset: nat)
    requires PlainSpaces(u) && offset <= |t|
    ensures !Cuts(k, u, t, offset) <==> GetsStuck(k, u, t, offset)
    decreases |t| - offset
  {
    hide PieceEnd, PlainSpaces, StuckAt;
    assert StuckAt(k, t, OffsetAfter(k, u, t, offset, 0)) <==> StuckAt(k, t, offset);
    StuckIff(k, u, t, offset);
    if offset < |t| {
      PieceInText(k, u, t, offset);
      var e := PieceEnd(k, u, t, offset).value;
      if e > offset {
        NeverEndsIff(k, u, t, e);
        StuckLater(k, u, t, offset);
      }
    }
  }

  lemma StuckIff(k: Pattern, u: Ucd, t: seq<byte>, p: nat)
    requires PlainSpaces(u) && p <= |t|
    ensures StuckAt(k, t, p) <==> p < |t| && PieceEnd(k, u, t, p) == Some(p)
  {
    hide PieceEnd, PlainSpaces, OverlongBreak, StrayRun;
    if p < |t| { EmptyPieceIff(k, u, t, p); }
  }

  lemma StuckLater(k: Pattern, u: Ucd, t: seq<byte>, offset: nat)
    requires offset < |t| && PieceEnd(k, u, t, offset).Some? && PieceEnd(k, u, t, offset).value <= |t|
    requires !StuckAt(k, t, offset)
    ensures GetsStuck(k, u, t, offset) <==> GetsStuck(k, u, t, PieceEnd(k, u, t, offset).value)
  {
    hide PieceEnd, StuckAt;
    var e := PieceEnd(k, u, t, offset).value;
    if GetsStuck(k, u, t, offset) {
      var n: nat :| StuckAt(k, t, OffsetAfter(k, u, t, offset, n));
      assert StuckAt(k, t, OffsetAfter(k, u, t, e, n - 1));
    }
    if GetsStuck(k, u, t, e) {
      var n: nat :| StuckAt(k, t, OffsetAfter(k, u, t, e, n));
      assert StuckAt(k, t, OffsetAfter(k, u, t, offset, n + 1));
    }
  }

  /** A space, a stray 85 and an a. */
  const STRAY: seq<byte> := [0x20, 0x85, 0x61]

  /** Both pretokenizers stand still there. */
  lemma StrayNeverEnds(k: Pattern, u: Ucd)
    requires PlainSpaces(u)
    ensures PieceEnd(k, u, STRAY, 0) == Some(0) && !Cuts(k, u, STRAY, 0)
  {
    assert StrayRun(k, STRAY, 0, 2);
    EmptyPieceIff(k, u, STRAY, 0);
  }

  /** Well-formed text is always cut to its end. */
  lemma {:induction false} WellFormedCuts(k: Pattern, u: Ucd, t: seq<byte>, offset: nat)
    requires offset <= |t| && CharsFrom(t, offset)
    ensures Cuts(k, u, t, offset)
    decreases |t| - offset
  {
    hide PieceEnd, CharsFrom;
    if offset < |t| {
      PieceIsGood(k, u, t, offset);
      WellFormedCuts(k, u, t, PieceEnd(k, u, t, offset).value);
    }
  }

  /** The pieces of the text from offset on. */
  ghost function Pieces(k: Pattern, u: Ucd, t: seq<byte>, offset: nat): seq<seq<byte>>
    requires offset <= |t| && Cuts(k, u, t, offset)
    decreases |t| - offset
  {
    if offset == |t| then []
    else
      var e := PieceEnd(k, u, t, offset).value;
      [t[offset..e]] + Pieces(k, u, t, e)
  }

  function Joined(pieces: seq<seq<byte>>): seq<byte> {
    if pieces == [] then [] else pieces[0] + Joined(pieces[1..])
  }

  /** The pieces are not empty and together they are the whole text. */
  lemma {:induction false} PiecesCover(k: Pattern, u: Ucd, t: seq<byte>, offset: nat)
    requires offset <= |t| && Cuts(k, u, t, offset)
    ensures Joined(Pieces(k, u, t, offset)) == t[offset..]
    ensures forall j :: 0 <= j < |Pieces(k, u, t, offset)| ==> Pieces(k, u, t, offset)[j] != []
    decreases |t| - offset
  {
    hide PieceEnd;
    if offset < |t| {
      var e := PieceEnd(k, u, t, offset).value;
      PiecesCover(k, u, t, e);
      JoinedCons(t, offset, e, Pieces(k, u, t, e));
    }
  }

  /** In well-formed text every piece is well-formed by itself. */
  lemma {:induction false} PiecesWellFormed(k: Pattern, u: Ucd, t: seq<byte>, offset: nat)
    requires offset <= |t| && CharsFrom(t, offset)
    ensures Cuts(k, u, t, offset)
    ensures forall j :: 0 <= j < |Pieces(k, u, t, offset)| ==> CharsFrom(Pieces(k, u, t, offset)[j], 0)
    decreases |t| - offset
  {
    hide PieceEnd, CharsFrom;
    WellFormedCuts(k, u, t, offset);
    if offset < |t| {
      PieceIsGood(k, u, t, offset);
      var e := PieceEnd(k, u, t, offset).value;
      PiecesWellFormed(k, u, t, e);
      SliceWellFormed(t, offset, e, offset);
    }
  }

  lemma PiecesUnfold(k: Pattern, u: Ucd, t: seq<byte>, offset: nat)
    requires offset <= |t| && Cuts(k, u, t, offset)
    ensures if offset == |t| then Pieces(k, u, t, offset) == []
            else
              && var e := PieceEnd(k, u, t, offset);
              && e.Some? && offset < e.value <= |t| && Cuts(k, u, t, e.value)
              && Pieces(k, u, t, offset) == [t[offset..e.value]] + Pieces(k, u, t, e.value)
  {
    hide PieceEnd;
  }

  lemma JoinedCons(t: seq<byte>, from: nat, e: nat, rest: seq<seq<byte>>)
    requires from <= e <= |t| && Joined(rest) == t[e..]
    ensures Joined([t[from..e]] + rest) == t[from..]
  {
  }

  /** A piece between two boundaries is well-formed by itself. */
  lemma {:induction false} SliceWellFormed(t: seq<byte>, from: nat, to: nat, i: nat)
    requires from <= i <= to <= |t| && CharsFrom(t, i) && CharsFrom(t, to)
    ensures CharsFrom(t[from..to], i - from)
    decreases |t| - i
  {
    if i < to {
      CharBytes(t, i);
      var next := i + CharLength(t, i);
      if to < |t| { BoundaryIff(t, to, to); }
      assert next <= to;
      assert CharLength(t[from..to], i - from) == CharLength(t, i) by { SameLength(t, from, to, i); }
      SliceWellFormed(t, from, to, next);
    }
  }

  lemma SameLength(t: seq<byte>, from: nat, to: nat, i: nat)
    requires from <= i < to <= |t| && CharLength(t, i) > 0 && i + CharLength(t, i) <= to
    ensures CharLength(t[from..to], i - from) == CharLength(t, i)
  {
  }

  /** PretokIter: the pieces one after the other, none without a pretokenizer. */
  class PretokIter {
    const pattern: Option<Pattern>
    const ucd: Ucd
    const text: seq<byte>
    var offset: nat

    constructor (pattern: Option<Pattern>, ucd: Ucd, text: seq<byte>)
      ensures this.pattern == pattern && this.ucd == ucd && this.text == text && offset == 0
    {
      this.pattern := pattern;
      this.ucd := ucd;
      this.text := text;
      offset := 0;
    }

    /** pretok_iter_next */
    method Next() returns (r: Option<(nat, nat)>)
      modifies this
      ensures r == (if pattern.None? || old(offset) >= |text| then None
                    else match PieceEnd(pattern.value, ucd, text, old(offset))
                         case None => None
                         case Some(e) => Some((old(offset), e)))
      ensures r.Some? ==> PieceAt(pattern.value, ucd, text, old(offset), r.value.1)
      ensures offset == if r.Some? then r.value.1 else old(offset)
    {
      hide *;
      if pattern.None? || offset >= |text| { return None; }
      StartIsOffset(pattern.value, ucd, text, offset);
      var m := TryAll(pattern.value, ucd, text, offset);
      if m.None? { return None; }
      var pieceEnd := m.value.end;
      if m.value.lookahead && m.value.start < m.value.end <= |text| {
        pieceEnd := StripLast(text, m.value.start, m.value.end);
      }
      PieceMeans(pattern.value, ucd, text, offset, pieceEnd);
      offset := pieceEnd;
      r := Some((m.value.start, pieceEnd));
    }
  }

  lemma StartIsOffset(k: Pattern, u: Ucd, t: seq<byte>, i: nat)
    ensures var m := Pretok(k, u, t, i);
            && (m.Some? ==> m.value.start == i)
            && PieceEnd(k, u, t, i) ==
               if m.None? then None
               else if m.value.lookahead && m.value.start < m.value.end <= |t|
               then Some(LastCharStart(t, m.value.start, m.value.end - 1)) else Some(m.value.end)
  {
    hide Pattern0, WsLookahead, Ws;
  }

  /** Strips the last character of a match. */
  method StripLast(t: seq<byte>, start: nat, end: nat) returns (last: nat)
    requires start < end <= |t|
    ensures last == LastCharStart(t, start, end - 1)
  {
    last := end - 1;
    while last > start && Tail(t[last])
      invariant start <= last < |t| && LastCharStart(t, start, end - 1) == LastCharStart(t, start, last)
    {
      last := last - 1;
    }
  }

  // ---- Encoding the pieces --------------------------------------------------------------------------------

  ghost function EncodePieces(v: Vocab, pieces: seq<seq<byte>>): seq<nat> {
    if pieces == [] then [] else Bpe(v, pieces[0]) + EncodePieces(v, pieces[1..])
  }

  /** The encodings of the pieces decode to the pieces joined. */
  lemma {:induction false} PiecesDecode(v: Vocab, pieces: seq<seq<byte>>)
    requires WellFormed(v) && Covers(v, Joined(pieces))
    ensures Tokens(v, EncodePieces(v, pieces)) && Decode(v, EncodePieces(v, pieces)) == Joined(pieces)
  {
    if pieces != [] {
      CoversSplit(v, pieces[0], Joined(pieces[1..]));
      PiecesDecode(v, pieces[1..]);
      BpeIsChain(v, pieces[0]);
      DecodeConcat(v, Bpe(v, pieces[0]), EncodePieces(v, pieces[1..]));
    }
  }

  /** The tokenizer comes to an end: at once without a pretokenizer, otherwise if no piece is empty. */
  ghost predicate Ends(pre: Option<Pattern>, u: Ucd, t: seq<byte>) {
    pre.Some? ==> Cuts(pre.value, u, t, 0)
  }

  /** What is encoded on its own: the pieces, or the text as a whole. */
  ghost function Parts(pre: Option<Pattern>, u: Ucd, t: seq<byte>): seq<seq<byte>>
    requires Ends(pre, u, t)
  {
    match pre
    case None => [t]
    case Some(k) => Pieces(k, u, t, 0)
  }

  lemma PartsCover(pre: Option<Pattern>, u: Ucd, t: seq<byte>)
    requires Ends(pre, u, t)
    ensures Joined(Parts(pre, u, t)) == t
  {
    match pre
    case None => assert Joined([t]) == t + Joined([]);
    case Some(k) =>
      PiecesCover(k, u, t, 0);
      assert t[0..] == t;
  }

  ghost function Encoding(v: Vocab, pre: Option<Pattern>, u: Ucd, t: seq<byte>): seq<nat>
    requires Ends(pre, u, t)
  {
    EncodePieces(v, Parts(pre, u, t))
  }

  /** Decoding the tokenizer's output gives the text back. */
  lemma EncodingDecodes(v: Vocab, pre: Option<Pattern>, u: Ucd, t: seq<byte>)
    requires WellFormed(v) && Covers(v, t) && Ends(pre, u, t)
    ensures Tokens(v, Encoding(v, pre, u, t)) && Decode(v, Encoding(v, pre, u, t)) == t
  {
    PartsCover(pre, u, t);
    PiecesDecode(v, Parts(pre, u, t));
  }

  /** Without a pretokenizer the text is encoded as a whole. */
  lemma WholeText(v: Vocab, u: Ucd, t: seq<byte>)
    ensures Ends(None, u, t) && Encoding(v, None, u, t) == Bpe(v, t)
    ensures forall limit: nat :: NoNumber(v, Parts(None, u, t), limit) <==> Backtrack.NoNumber(v, t, limit)
  {
    assert [t][1..] == [];
    assert EncodePieces(v, [t]) == Bpe(v, t) + EncodePieces(v, []);
  }

  /** The iterator is well placed; r is the piece just cut off, left the pieces behind it. */
  ghost predicate Cutting(it: PretokIter, r: Option<(nat, nat)>, left: seq<seq<byte>>)
    reads it
  {
    && it.offset <= |it.text| && it.pattern.Some? && Cuts(it.pattern.value, it.ucd, it.text, it.offset)
    && left == Pieces(it.pattern.value, it.ucd, it.text, it.offset)
    && (r.Some? ==> r.value.0 < r.value.1 == it.offset)
  }

  /** The piece that r stands for. */
  ghost function Cut(text: seq<byte>, r: Option<(nat, nat)>): seq<byte> {
    if r.Some? && r.value.0 <= r.value.1 <= |text| then text[r.value.0..r.value.1] else []
  }

  ghost predicate IsCons(left0: seq<seq<byte>>, piece: seq<byte>, left: seq<seq<byte>>) {
    left0 == [piece] + left
  }

  /** Cuts off the next piece of those left. */
  method NextPiece(it: PretokIter, ghost r0: Option<(nat, nat)>, ghost left0: seq<seq<byte>>)
      returns (r: Option<(nat, nat)>, ghost left: seq<seq<byte>>)
    requires Cutting(it, r0, left0)
    modifies it
    ensures Cutting(it, r, left) && old(it.offset) <= it.offset <= |it.text|
    ensures r.None? ==> left0 == [] && it.offset == old(it.offset)
    ensures r.Some? ==>
              && IsCons(left0, Cut(it.text, r), left) && old(it.offset) < it.offset
              && r.value.0 < r.value.1 == it.offset
  {
    hide Pieces, Cuts, PieceEnd;
    PiecesUnfold(it.pattern.value, it.ucd, it.text, it.offset);
    r := it.Next();
    left := Pieces(it.pattern.value, it.ucd, it.text, it.offset);
  }

  method StartPieces(k: Pattern, u: Ucd, text: seq<byte>) returns (it: PretokIter)
    requires Cuts(k, u, text, 0)
    ensures fresh(it) && it.text == text && it.offset == 0 && Cutting(it, None, Pieces(k, u, text, 0))
  {
    it := new PretokIter(Some(k), u, text);
  }

  /** The encodings of the pieces left, one step unfolded. */
  lemma EncodeLeft(v: Vocab, left0: seq<seq<byte>>, piece: seq<byte>, left: seq<seq<byte>>)
    ensures left0 == [] ==> EncodePieces(v, left0) == []
    ensures IsCons(left0, piece, left) ==> EncodePieces(v, left0) == Bpe(v, piece) + EncodePieces(v, left)
  {
  }

  lemma EncodingIs(v: Vocab, k: Pattern, u: Ucd, t: seq<byte>)
    requires Ends(Some(k), u, t)
    ensures Cuts(k, u, t, 0) && Parts(Some(k), u, t) == Pieces(k, u, t, 0)
    ensures Encoding(v, Some(k), u, t) == EncodePieces(v, Pieces(k, u, t, 0))
  {
  }

  lemma Regroup(s: seq<nat>, a: seq<nat>, rest: seq<nat>)
    ensures (s + a) + rest == s + (a + rest)
  {
  }

  lemma CutCovered(v: Vocab, it: PretokIter, r: Option<(nat, nat)>, left: seq<seq<byte>>)
    requires Covers(v, it.text) && Cutting(it, r, left) && r.Some?
    ensures r.value.0 < r.value.1 <= |it.text|
    ensures Cut(it.text, r) == it.text[r.value.0..r.value.1] && Covers(v, Cut(it.text, r))
  {
  }

  /** tokenizer_encode */
  method Encode(bpe: BytePairEncoding, pre: Option<Pattern>, u: Ucd, text: seq<byte>) returns (result: seq<nat>)
    requires Ready(bpe) && Covers(bpe.vocab, text) && Ends(pre, u, text)
    ensures result == Encoding(bpe.vocab, pre, u, text)
    ensures Tokens(bpe.vocab, result) && Decode(bpe.vocab, result) == text
  {
    hide *;
    ReadyVocab(bpe);
    EncodingDecodes(bpe.vocab, pre, u, text);
    ghost var v, all := bpe.vocab, Encoding(bpe.vocab, pre, u, text);
    if pre.None? {
      ghost var calls;
      WholeText(v, u, text);
      result, calls := Backtrack.EncodeViaBacktracking(bpe, text);
      return;
    }
    var k := pre.value;
    EncodingIs(v, k, u, text);
    result := [];
    ghost var start, more := Pieces(k, u, text, 0), [];
    var it := StartPieces(k, u, text);
    var r;
    ghost var left;
    r, left := NextPiece(it, None, start);
    EncodeLeft(v, start, Cut(text, r), left);
    while r.Some?
      invariant fresh(it) && it.text == text && it.offset <= |text| && Cutting(it, r, left)
      invariant if r.None? then result == all else result + (Bpe(v, Cut(text, r)) + EncodePieces(v, left)) == all
      decreases |text| - it.offset, if r.Some? then 1 else 0
    {
      CutCovered(v, it, r, left);
      var piece, calls := Backtrack.EncodeViaBacktracking(bpe, text[r.value.0..r.value.1]);
      Regroup(result, piece, EncodePieces(v, left));
      result := result + piece;
      more := left;
      r, left := NextPiece(it, r, more);
      EncodeLeft(v, more, Cut(text, r), left);
    }
  }

  /** tokenizer_count */
  method Count(bpe: BytePairEncoding, pre: Option<Pattern>, u: Ucd, text: seq<byte>) returns (total: nat)
    requires Ready(bpe) && Covers(bpe.vocab, text) && Ends(pre, u, text)
    ensures total == |Encoding(bpe.vocab, pre, u, text)|
  {
    hide *;
    ghost var v, all := bpe.vocab, Encoding(bpe.vocab, pre, u, text);
    if pre.None? {
      WholeText(v, u, text);
      total := Backtrack.Count(bpe, text);
      return;
    }
    var k := pre.value;
    EncodingIs(v, k, u, text);
    total := 0;
    ghost var start, more := Pieces(k, u, text, 0), [];
    var it := StartPieces(k, u, text);
    var r;
    ghost var left;
    r, left := NextPiece(it, None, start);
    EncodeLeft(v, start, Cut(text, r), left);
    while r.Some?
      invariant fresh(it) && it.text == text && it.offset <= |text| && Cutting(it, r, left)
      invariant if r.None? then total == |all| else total + |Bpe(v, Cut(text, r))| + |EncodePieces(v, left)| == |all|
      decreases |text| - it.offset, if r.Some? then 1 else 0
    {
      CutCovered(v, it, r, left);
      var count := Backtrack.Count(bpe, text[r.value.0..r.value.1]);
      total := total + count;
      more := left;
      r, left := NextPiece(it, r, more);
      EncodeLeft(v, more, Cut(text, r), left);
    }
  }

  /** Some piece gets no number with what the pieces before it leave of the limit. */
  ghost predicate NoNumber(v: Vocab, pieces: seq<seq<byte>>, limit: nat) {
    && pieces != []
    && (Backtrack.NoNumber(v, pieces[0], limit) || NoNumber(v, pieces[1..], limit - |Bpe(v, pieces[0])|))
  }

  /** The search for the encoding of piece i holds too many tokens for what is left of the limit. */
  ghost predicate PieceCrowded(v: Vocab, pieces: seq<seq<byte>>, limit: nat, i: nat) {
    && i < |pieces| && |EncodePieces(v, pieces[..i])| <= limit
    && Backtrack.Crowded(v, pieces[i], (limit - |EncodePieces(v, pieces[..i])| + 10) % (SIZE_MAX + 1))
  }

  lemma LaterPiece(v: Vocab, pieces: seq<seq<byte>>, limit: nat, i: nat)
    requires pieces != [] && |Bpe(v, pieces[0])| <= limit
    ensures PieceCrowded(v, pieces, limit, i + 1) <==> PieceCrowded(v, pieces[1..], limit - |Bpe(v, pieces[0])|, i)
  {
    if i < |pieces| - 1 {
      assert pieces[..i + 1][1..] == pieces[1..][..i];
      assert EncodePieces(v, pieces[..i + 1]) == Bpe(v, pieces[0]) + EncodePieces(v, pieces[1..][..i]);
    }
  }

  lemma FirstPiece(v: Vocab, pieces: seq<seq<byte>>, limit: nat)
    requires pieces != []
    ensures PieceCrowded(v, pieces, limit, 0) <==> Backtrack.Crowded(v, pieces[0], (limit + 10) % (SIZE_MAX + 1))
    ensures |EncodePieces(v, pieces)| == |Bpe(v, pieces[0])| + |EncodePieces(v, pieces[1..])|
  {
  }

  ghost predicate SomeCrowded(v: Vocab, pieces: seq<seq<byte>>, limit: nat) {
    exists i: nat :: PieceCrowded(v, pieces, limit, i)
  }

  lemma CrowdedShift(v: Vocab, pieces: seq<seq<byte>>, limit: nat, rest: seq<seq<byte>>, left: nat)
    requires pieces != [] && |Bpe(v, pieces[0])| <= limit && rest == pieces[1..] && left == limit - |Bpe(v, pieces[0])|
    ensures SomeCrowded(v, pieces, limit) <==> PieceCrowded(v, pieces, limit, 0) || SomeCrowded(v, rest, left)
  {
    hide PieceCrowded, Bpe;
    if i: nat :| PieceCrowded(v, pieces, limit, i) {
      if i > 0 {
        LaterPiece(v, pieces, limit, i - 1);
      }
    }
    if i: nat :| PieceCrowded(v, rest, left, i) {
      LaterPiece(v, pieces, limit, i);
    }
  }

  /** A text within the limit gets no number exactly if the search for one of its pieces is crowded. */
  lemma {:induction false} NoNumberIff(v: Vocab, pieces: seq<seq<byte>>, limit: nat)
    ensures NoNumber(v, pieces, limit) <==> |EncodePieces(v, pieces)| > limit || SomeCrowded(v, pieces, limit)
  {
    if pieces != [] {
      FirstPiece(v, pieces, limit);
      Backtrack.NumberIff(v, pieces[0], limit);
      var n := |Bpe(v, pieces[0])|;
      if n <= limit {
        NoNumberIff(v, pieces[1..], limit - n);
        CrowdedShift(v, pieces, limit, pieces[1..], limit - n);
      }
      hide PieceCrowded, Backtrack.NoNumber, Backtrack.Crowded, EncodePieces, Bpe;
    }
  }

  /** A piece or the pieces behind it get no number. */
  ghost predicate NoneFrom(v: Vocab, piece: seq<byte>, rest: seq<seq<byte>>, limit: nat) {
    || Backtrack.NoNumber(v, piece, limit)
    || (|Bpe(v, piece)| <= limit && NoNumber(v, rest, limit - |Bpe(v, piece)|))
  }

  /** The pieces left, one step unfolded. */
  lemma NoneLeft(v: Vocab, left0: seq<seq<byte>>, piece: seq<byte>, left: seq<seq<byte>>, limit: nat)
    ensures left0 == [] ==> !NoNumber(v, left0, limit)
    ensures IsCons(left0, piece, left) ==> (NoNumber(v, left0, limit) <==> NoneFrom(v, piece, left, limit))
  {
  }

  /** One piece counted: with a number, what is left of the limit decides about the rest. */
  lemma AfterPiece(v: Vocab, piece: seq<byte>, rest: seq<seq<byte>>, limit: nat)
    ensures Backtrack.NoNumber(v, piece, limit) ==> NoneFrom(v, piece, rest, limit)
    ensures !Backtrack.NoNumber(v, piece, limit) ==>
              && |Bpe(v, piece)| <= limit
              && (NoneFrom(v, piece, rest, limit) <==> NoNumber(v, rest, limit - |Bpe(v, piece)|))
  {
  }

  /** The body of that loop: adds the number of the piece just cut off to the total, or gives up. */
  method AddPiece(bpe: BytePairEncoding, it: PretokIter, r: (nat, nat), ghost left: seq<seq<byte>>, total: nat,
                  limit: nat) returns (c: Option<nat>)
    requires Ready(bpe) && Covers(bpe.vocab, it.text) && Cutting(it, Some(r), left) && total <= limit <= SIZE_MAX
    ensures c.None? ==> NoneFrom(bpe.vocab, Cut(it.text, Some(r)), left, limit - total)
    ensures c.Some? ==>
              && c.value == total + |Bpe(bpe.vocab, Cut(it.text, Some(r)))| <= limit
              && (NoneFrom(bpe.vocab, Cut(it.text, Some(r)), left, limit - total) <==>
                    NoNumber(bpe.vocab, left, limit - c.value))
  {
    hide *;
    CutCovered(bpe.vocab, it, Some(r), left);
    var remaining := if total < limit then limit - total else 0;
    AfterPiece(bpe.vocab, Cut(it.text, Some(r)), left, remaining);
    var count := Backtrack.CountTillLimit(bpe, it.text[r.0..r.1], remaining);
    if count.None? || total + count.value > limit {
      return None;
    }
    return Some(total + count.value);
  }

  /** tokenizer_count_till_limit: exact whenever there is a number, and when there is one. */
  method CountTillLimit(bpe: BytePairEncoding, pre: Option<Pattern>, u: Ucd, text: seq<byte>, limit: nat)
      returns (c: Option<nat>)
    requires Ready(bpe) && Covers(bpe.vocab, text) && Ends(pre, u, text) && limit <= SIZE_MAX
    ensures c == if NoNumber(bpe.vocab, Parts(pre, u, text), limit) then None
                 else Some(|Encoding(bpe.vocab, pre, u, text)|)
  {
    hide *;
    ghost var v, all := bpe.vocab, Encoding(bpe.vocab, pre, u, text);
    if pre.None? {
      WholeText(v, u, text);
      c := Backtrack.CountTillLimit(bpe, text, limit);
      return;
    }
    var k := pre.value;
    EncodingIs(v, k, u, text);
    var total: nat := 0;
    ghost var start, more := Pieces(k, u, text, 0), [];
    ghost var none := NoNumber(v, start, limit);
    var it := StartPieces(k, u, text);
    var r;
    ghost var left;
    r, left := NextPiece(it, None, start);
    EncodeLeft(v, start, Cut(text, r), left);
    NoneLeft(v, start, Cut(text, r), left, limit);
    while r.Some?
      invariant fresh(it) && it.text == text && it.offset <= |text| && Cutting(it, r, left)
      invariant total <= limit && (r.None? ==> total == |all| && !none)
      invariant r.Some? ==> total + |Bpe(v, Cut(text, r))| + |EncodePieces(v, left)| == |all|
      invariant r.Some? ==> (none <==> NoneFrom(v, Cut(text, r), left, limit - total))
      decreases |text| - it.offset, if r.Some? then 1 else 0
    {
      var more_total := AddPiece(bpe, it, r.value, left, total, limit);
      if more_total.None? { return None; }
      total := more_total.value;
      more := left;
      r, left := NextPiece(it, r, more);
      EncodeLeft(v, more, Cut(text, r), left);
      NoneLeft(v, more, Cut(text, r), left, limit - total);
    }
    return Some(total);
  }
}
