/** What the alternatives of the two pretokenizers match, in any bytes. */
module PieceShapes {

  // Each alternative is described by the runs of characters it takes; the first description that fits gives the match.

  import opened Vocabulary
  import opened Utf8
  import opened Pretokenizer

  // ---- Classes of characters --------------------------------------------------------------------

  /** The code points that count as whitespace. */
  lemma WhitespaceIs(cp: nat)
    ensures IsNewline(cp) <==> cp == 0x0A || cp == 0x0D
    ensures IsWhitespace(cp) <==>
            || 0x09 <= cp <= 0x0D || cp == 0x20 || cp == 0x85 || cp == 0xA0 || cp == 0x1680 || cp == 0x180E
            || 0x2000 <= cp <= 0x200A || 0x2028 <= cp <= 0x2029 || cp == 0x202F || cp == 0x205F || cp == 0x3000
  {
  }

  /** The line breaks among the bytes. */
  lemma BreaksAre(b: byte)
    ensures IsBreak(b, false) <==> IsNewline(b)
    ensures IsBreak(b, true) <==> IsNewline(b) || b == 0x2F
  {
  }

  /** Of letters and marks, modifier and other letters and the marks lie in both word classes, capital and title-case
      letters in the upper one alone and small letters in the lower one alone; nothing else lies in either. */
  lemma WordClasses(u: Ucd, cp: nat)
    ensures u.IsUpperClass(cp) && u.IsLowerClass(cp) <==> u.chartype(cp) in {Lm, Lo, Mc, Me, Mn}
    ensures u.IsUpperClass(cp) && !u.IsLowerClass(cp) <==> u.chartype(cp) in {Lt, Lu}
    ensures u.IsLowerClass(cp) && !u.IsUpperClass(cp) <==> u.chartype(cp) == Ll
    ensures u.IsUpperClass(cp) || u.IsLowerClass(cp) <==> u.IsLetter(cp) || u.IsMark(cp)
    ensures u.IsNumber(cp) <==> u.chartype(cp) in {Nd, Nl, No}
  {
  }

  /** Every character is exactly one of letter, number, line break, other whitespace and symbol. */
  lemma OneClass(u: Ucd, cp: nat)
    requires PlainSpaces(u)
    ensures u.IsLetter(cp) || u.IsNumber(cp) || IsNewline(cp) || Blank()(cp) || Symbol(u)(cp)
    ensures Symbol(u)(cp) ==> !u.IsLetter(cp) && !u.IsNumber(cp) && !IsNewline(cp) && !Blank()(cp)
    ensures Blank()(cp) ==> !u.IsLetter(cp) && !u.IsNumber(cp) && !IsNewline(cp)
    ensures IsNewline(cp) ==> !u.IsLetter(cp) && !u.IsNumber(cp)
    ensures u.IsLetter(cp) ==> !u.IsNumber(cp)
    ensures IsWhitespace(cp) <==> IsNewline(cp) || Blank()(cp)
  {
  }

  // ---- Runs ----------------------------------------------------------------------------------

  /** n characters with property p lead from a to b. */
  ghost predicate Leads(t: seq<byte>, a: nat, b: nat, p: nat -> bool, n: nat)
    decreases n
  {
    if n == 0 then a == b else a < |t| && p(CodeAt(t, a)) && Leads(t, AfterChar(t, a), b, p, n - 1)
  }

  lemma {:induction false} LeadsInText(t: seq<byte>, a: nat, b: nat, p: nat -> bool, n: nat)
    requires a <= |t| && Leads(t, a, b, p, n)
    ensures a <= b <= |t| && (n > 0 ==> a < b)
    decreases n
  {
    if n > 0 { LeadsInText(t, AfterChar(t, a), b, p, n - 1); }
  }

  /** Up to n characters with property p from a to b, as many as there are. */
  ghost predicate ShortRun(t: seq<byte>, a: nat, b: nat, p: nat -> bool, n: nat) {
    exists m: nat :: m <= n && Leads(t, a, b, p, m) && (m == n || b == |t| || (b < |t| && !p(CodeAt(t, b))))
  }

  lemma {:induction false} ShortRunMeans(t: seq<byte>, a: nat, b: nat, p: nat -> bool, n: nat)
    requires a <= |t|
    ensures ShortRun(t, a, b, p, n) <==> b == ShortRunEnd(t, a, p, n)
    decreases n
  {
    if n > 0 && a < |t| && p(CodeAt(t, a)) {
      var next := AfterChar(t, a);
      ShortRunMeans(t, next, b, p, n - 1);
      if m: nat :| m <= n && Leads(t, a, b, p, m) && (m == n || b == |t| || (b < |t| && !p(CodeAt(t, b)))) {
        assert Leads(t, next, b, p, m - 1);
      }
      if m: nat :| m <= n - 1 && Leads(t, next, b, p, m) && (m == n - 1 || b == |t| || (b < |t| && !p(CodeAt(t, b)))) {
        assert Leads(t, a, b, p, m + 1);
      }
    } else {
      assert Leads(t, a, a, p, 0);
    }
  }

  /** All line breaks from a to b, as bytes; with slash these count as well. */
  ghost predicate BreakRun(t: seq<byte>, a: nat, b: nat, slash: bool) {
    && a <= b <= |t| && (forall j :: a <= j < b ==> IsBreak(t[j], slash))
    && (b == |t| || !IsBreak(t[b], slash))
  }

  lemma {:induction false} BreakRunMeans(t: seq<byte>, a: nat, b: nat, slash: bool)
    requires a <= |t|
    ensures BreakRun(t, a, b, slash) <==> b == BytesEnd(t, a, slash)
    decreases |t| - a
  {
    if a < |t| && IsBreak(t[a], slash) {
      BreakRunMeans(t, a + 1, b, slash);
    }
  }

  // ---- The alternatives ----------------------------------------------------------------------

  /** One to three number characters, as many as there are. */
  ghost predicate NumberShape(u: Ucd, t: seq<byte>, i: nat, e: nat) {
    i < e && ShortRun(t, i, e, u.IsNumber, 3)
  }

  ghost predicate LetterAt(u: Ucd, t: seq<byte>, i: nat) {
    i < |t| && u.IsLetter(CodeAt(t, i))
  }

  /** All letters from s to e, at least one; s lies behind the character at i if that may stand in front of a word and
      a letter follows it, and at i otherwise. */
  ghost predicate LetterShape(u: Ucd, t: seq<byte>, i: nat, e: nat) {
    var s := if MayLead(u, t, i) && LetterAt(u, t, AfterChar(t, i)) then AfterChar(t, i) else i;
    s < e && MaximalRun(t, s, e, u.IsLetter)
  }

  /** All symbols from s to q, at least one, then all line breaks; s lies behind a space in front of a symbol. */
  ghost predicate SymbolShape(u: Ucd, t: seq<byte>, i: nat, e: nat, slash: bool) {
    var s := if i + 1 < |t| && t[i] == 0x20 && Symbol(u)(CodeAt(t, i + 1)) then i + 1 else i;
    exists q: nat :: s < q && MaximalRun(t, s, q, Symbol(u)) && BreakRun(t, q, e, slash)
  }

  /** Whitespace without a line break up to q, where a line break is decoded, then all line breaks. */
  ghost predicate NewlineShape(t: seq<byte>, i: nat, e: nat) {
    exists q: nat ::
      && i <= q < |t| && AllHave(t, i, q, Blank()) && IsNewline(CodeAt(t, q))
      && BreakRun(t, q, e, false)
  }

  /** Whitespace up to the end of the text. */
  ghost predicate TrailingShape(t: seq<byte>, i: nat, e: nat) {
    i < e == |t| && AllHave(t, i, e, IsWhitespace)
  }

  /** All whitespace from i to e, at least two characters; cl100k wants its length to differ from that of the character
      behind it. */
  ghost predicate LookaheadShape(k: Pattern, t: seq<byte>, i: nat, e: nat) {
    && i < |t| && AfterChar(t, i) < e && MaximalRun(t, i, e, IsWhitespace)
    && (k == Cl100k && e < |t| ==> AfterChar(t, e) - e != e - i)
  }

  /** All whitespace from i to e, at least one character. */
  ghost predicate SpaceShape(t: seq<byte>, i: nat, e: nat) {
    i < e && MaximalRun(t, i, e, IsWhitespace)
  }

  ghost predicate ContractionShape(t: seq<byte>, i: nat, e: nat) {
    i < e <= |t| && IsContraction(t[i..e])
  }

  ghost predicate CamelShape(u: Ucd, t: seq<byte>, i: nat, e: nat) {
    exists s: nat, l: nat, q: nat :: WordShape(u, t, i, s, l, q, e) && l < q
  }

  ghost predicate CapsShape(u: Ucd, t: seq<byte>, i: nat, e: nat) {
    exists s: nat, l: nat, q: nat :: WordShape(u, t, i, s, l, q, e) && s < l
  }

  /** What the n-th alternative matches from i: the list at the head of either source file. */
  ghost predicate ShapeAt(k: Pattern, u: Ucd, t: seq<byte>, i: nat, n: nat, e: nat) {
    match n
    case 0 => if k == Cl100k then ContractionShape(t, i, e) else CamelShape(u, t, i, e)
    case 1 => if k == Cl100k then LetterShape(u, t, i, e) else CapsShape(u, t, i, e)
    case 2 => NumberShape(u, t, i, e)
    case 3 => SymbolShape(u, t, i, e, k == O200k)
    case 4 => NewlineShape(t, i, e)
    case 5 => TrailingShape(t, i, e)
    case 6 => LookaheadShape(k, t, i, e)
    case 7 => SpaceShape(t, i, e)
    case _ => false
  }

  /** The n-th alternative matches up to e, and none before it matches at all. */
  ghost predicate FirstShape(k: Pattern, u: Ucd, t: seq<byte>, i: nat, n: nat, e: nat) {
    ShapeAt(k, u, t, i, n, e) && forall m: nat, f: nat :: m < n ==> !ShapeAt(k, u, t, i, m, f)
  }

  // ---- Each alternative does what it says -------------------------------------------------------

  lemma NumbersMean(u: Ucd, t: seq<byte>, i: nat, e: nat)
    requires i <= |t|
    ensures Numbers(u, t, i) == Some(e) <==> NumberShape(u, t, i, e)
  {
    ShortRunMeans(t, i, e, u.IsNumber, 3);
    hide ShortRun, ShortRunEnd, Ucd.IsNumber;
  }

  lemma LettersMean(u: Ucd, t: seq<byte>, i: nat, e: nat)
    requires i <= |t|
    ensures Letters(u, t, i) == Some(e) <==> LetterShape(u, t, i, e)
  {
    hide MaximalRun, CharAt, Ucd.IsLetter, Ucd.IsNumber;
    RunMeans(t, LettersStart(u, t, i), e, u.IsLetter);
  }

  lemma PunctMeans(u: Ucd, t: seq<byte>, i: nat, e: nat, slash: bool)
    requires i <= |t|
    ensures Punct(u, t, i, slash) == Some(e) <==> SymbolShape(u, t, i, e, slash)
  {
    hide MaximalRun, BreakRun, CharAt, IsWhitespace, Ucd.IsLetter, Ucd.IsNumber;
    var s := PunctStart(u, t, i);
    assert s == if i + 1 < |t| && t[i] == 0x20 && Symbol(u)(CodeAt(t, i + 1)) then i + 1 else i;
    var q0 := RunEnd(t, s, Symbol(u));
    forall q: nat ensures MaximalRun(t, s, q, Symbol(u)) <==> q == q0 {
      RunMeans(t, s, q, Symbol(u));
    }
    BreakRunMeans(t, q0, e, slash);
  }

  lemma NewlinesMean(t: seq<byte>, i: nat, e: nat)
    requires i <= |t|
    ensures WsNewlines(t, i) == Some(e) <==> NewlineShape(t, i, e)
  {
    hide BreakRun, CharAt, IsWhitespace;
    var q0 := RunEnd(t, i, Blank());
    RunMeans(t, i, q0, Blank());
    BreakRunMeans(t, q0, e, false);
    forall q: nat | i <= q < |t| && AllHave(t, i, q, Blank()) && IsNewline(CodeAt(t, q)) ensures q == q0 {
      RunMeans(t, i, q, Blank());
    }
  }

  lemma SpacesMean(k: Pattern, t: seq<byte>, i: nat, e: nat)
    requires i <= |t|
    ensures TrailingWs(t, i) == Some(e) <==> TrailingShape(t, i, e)
    ensures WsLookahead(k, t, i) == Some(e) <==> LookaheadShape(k, t, i, e)
    ensures Ws(t, i) == Some(e) <==> SpaceShape(t, i, e)
  {
    hide CharAt, IsWhitespace;
    RunMeans(t, i, e, IsWhitespace);
  }

  lemma ContractionsMean(t: seq<byte>, i: nat, e: nat)
    requires i <= |t|
    ensures ContractionShape(t, i, e) <==> Contraction(t, i) > 0 && e == i + Contraction(t, i)
  {
    hide IsContraction, Contraction;
    if i < e <= |t| { ContractionMeans(t, i, e); }
  }

  // ---- The first that fits ----------------------------------------------------------------------

  /** The n-th alternative by itself. */
  function Alternative(k: Pattern, u: Ucd, t: seq<byte>, i: nat, n: nat): Option<nat>
    requires i <= |t|
  {
    match n
    case 0 => if k == O200k then Camel(u, t, i)
              else if Contraction(t, i) > 0 then Some(i + Contraction(t, i)) else None
    case 1 => if k == O200k then AllCaps(u, t, i) else Letters(u, t, i)
    case 2 => Numbers(u, t, i)
    case 3 => Punct(u, t, i, k == O200k)
    case 4 => WsNewlines(t, i)
    case 5 => TrailingWs(t, i)
    case 6 => WsLookahead(k, t, i)
    case 7 => Ws(t, i)
    case _ => None
  }

  lemma ShapeMeansMatch(k: Pattern, u: Ucd, t: seq<byte>, i: nat, n: nat, e: nat)
    requires i <= |t|
    ensures ShapeAt(k, u, t, i, n, e) <==> Alternative(k, u, t, i, n) == Some(e)
  {
    hide ContractionShape, CamelShape, CapsShape, LetterShape, NumberShape, SymbolShape, NewlineShape, TrailingShape,
         LookaheadShape, SpaceShape, Camel, AllCaps, Letters, Numbers, Punct, WsNewlines, TrailingWs, WsLookahead, Ws,
         Contraction;
    ContractionsMean(t, i, e);
    LettersMean(u, t, i, e);
    NumbersMean(u, t, i, e);
    PunctMeans(u, t, i, e, k == O200k);
    NewlinesMean(t, i, e);
    SpacesMean(k, t, i, e);
    WordsMean(u, t, i, e);
  }

  lemma WordsMean(u: Ucd, t: seq<byte>, i: nat, e: nat)
    requires i <= |t|
    ensures CamelShape(u, t, i, e) <==> Camel(u, t, i) == Some(e)
    ensures CapsShape(u, t, i, e) <==> AllCaps(u, t, i) == Some(e)
  {
    CamelMeans(u, t, i, e);
    AllCapsMeans(u, t, i, e);
    hide WordShape, Camel, AllCaps;
  }

  /** Nothing before the n-th alternative matches. */
  ghost predicate NoneBefore(k: Pattern, u: Ucd, t: seq<byte>, i: nat, n: nat)
    requires i <= |t|
  {
    forall m: nat :: m < n ==> Alternative(k, u, t, i, m).None?
  }

  lemma FirstMeans(k: Pattern, u: Ucd, t: seq<byte>, i: nat, n: nat, e: nat)
    requires i <= |t|
    ensures FirstShape(k, u, t, i, n, e) <==> Alternative(k, u, t, i, n) == Some(e) && NoneBefore(k, u, t, i, n)
  {
    hide ShapeAt, Alternative;
    ShapeMeansMatch(k, u, t, i, n, e);
    forall m: nat, f: nat | m < n
      ensures ShapeAt(k, u, t, i, m, f) <==> Alternative(k, u, t, i, m) == Some(f)
    {
      ShapeMeansMatch(k, u, t, i, m, f);
    }
    forall m: nat | m < n && Alternative(k, u, t, i, m).Some?
      ensures ShapeAt(k, u, t, i, m, Alternative(k, u, t, i, m).value)
    {
    }
  }

  /** The pattern the n-th alternative belongs to. */
  function PatternOf(n: nat): nat {
    if n <= 5 then 0 else n - 5
  }

  lemma TriedInOrder(k: Pattern, u: Ucd, t: seq<byte>, i: nat, m: PretokMatch)
    requires i < |t|
    ensures Pretok(k, u, t, i) == Some(m) <==>
            && m.start == i
            && exists n: nat ::
                 && Alternative(k, u, t, i, n) == Some(m.end) && NoneBefore(k, u, t, i, n)
                 && m.patternId == PatternOf(n) && (m.lookahead <==> n == 6)
  {
    hide Camel, AllCaps, Letters, Numbers, Punct, WsNewlines, TrailingWs, WsLookahead, Ws, Contraction;
    var n0 := FirstOf(k, u, t, i);
    forall n: nat | n != n0 ensures Alternative(k, u, t, i, n).None? || !NoneBefore(k, u, t, i, n) {
      if n > n0 { assert Alternative(k, u, t, i, n0).Some?; }
    }
  }

  lemma FirstOf(k: Pattern, u: Ucd, t: seq<byte>, i: nat) returns (n: nat)
    requires i < |t|
    ensures n <= 7 && Alternative(k, u, t, i, n).Some? && NoneBefore(k, u, t, i, n)
    ensures Pretok(k, u, t, i) ==
            Some(PretokMatch(i, Alternative(k, u, t, i, n).value, PatternOf(n), n == 6))
  {
    hide Camel, AllCaps, Letters, Numbers, Punct, WsNewlines, TrailingWs, WsLookahead, Ws, Contraction;
    AlwaysMatches(k, u, t, i);
    n := if Alternative(k, u, t, i, 0).Some? then 0
         else if Alternative(k, u, t, i, 1).Some? then 1
         else if Alternative(k, u, t, i, 2).Some? then 2
         else if Alternative(k, u, t, i, 3).Some? then 3
         else if Alternative(k, u, t, i, 4).Some? then 4
         else if Alternative(k, u, t, i, 5).Some? then 5
         else if Alternative(k, u, t, i, 6).Some? then 6 else 7;
  }

  /** In any bytes: the match at i is that of the first alternative whose description fits. */
  lemma MatchMeans(k: Pattern, u: Ucd, t: seq<byte>, i: nat, m: PretokMatch)
    requires i < |t|
    ensures Pretok(k, u, t, i) == Some(m) <==>
            && m.start == i
            && exists n: nat ::
                 && FirstShape(k, u, t, i, n, m.end)
                 && m.patternId == PatternOf(n) && (m.lookahead <==> n == 6)
  {
    hide FirstShape, Alternative, NoneBefore, Pretok;
    TriedInOrder(k, u, t, i, m);
    forall n: nat
      ensures FirstShape(k, u, t, i, n, m.end) <==>
              Alternative(k, u, t, i, n) == Some(m.end) && NoneBefore(k, u, t, i, n)
    {
      FirstMeans(k, u, t, i, n, m.end);
    }
  }

  // ---- Consequences ---------------------------------------------------------------------------

  /** cl100k cuts off a contraction wherever one starts. */
  lemma ContractionFirst(u: Ucd, t: seq<byte>, i: nat, e: nat)
    requires ContractionShape(t, i, e)
    ensures Pretok(Cl100k, u, t, i) == Some(PretokMatch(i, e, 0, false))
  {
    assert ShapeAt(Cl100k, u, t, i, 0, e);
    assert FirstShape(Cl100k, u, t, i, 0, e);
    MatchMeans(Cl100k, u, t, i, PretokMatch(i, e, 0, false));
  }

  /** Otherwise it takes a character that may stand in front of a word together with the letters behind it. */
  lemma PrefixTaken(u: Ucd, t: seq<byte>, i: nat)
    requires MayLead(u, t, i) && LetterAt(u, t, AfterChar(t, i))
    requires forall e: nat :: !ContractionShape(t, i, e)
    ensures var m := Pretok(Cl100k, u, t, i);
            m.Some? && m.value.end <= |t| && AfterChar(t, AfterChar(t, i)) <= m.value.end
  {
    hide CharAt, Contraction, Ucd.IsLetter, Ucd.IsNumber;
    var s := AfterChar(t, i);
    var e := RunEnd(t, s, u.IsLetter);
    RunMeans(t, s, e, u.IsLetter);
    assert ShapeAt(Cl100k, u, t, i, 1, e);
    assert FirstShape(Cl100k, u, t, i, 1, e);
    MatchMeans(Cl100k, u, t, i, PretokMatch(i, e, 0, false));
    assert e == RunEnd(t, AfterChar(t, s), u.IsLetter);
  }
}
