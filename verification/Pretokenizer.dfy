/** Cutting a text into pieces: the alternatives of the two hand-coded pretokenizers, and the
    iterator over the pieces. */
module Pretokenizer {
  import opened Vocabulary
  import opened Utf8

  /** The particular categories of the Unicode character database. */
  datatype Category =
    | Cc | Cf | Cn | Co | Cs
    | Ll | Lm | Lo | Lt | Lu
    | Mc | Me | Mn
    | Nd | Nl | No
    | Pc | Pd | Pe | Pf | Pi | Po | Ps
    | Sc | Sk | Sm | So
    | Zl | Zp | Zs

  /** The Unicode tables: any assignment of categories to code points. */
  datatype Ucd = Ucd(chartype: nat -> Category)
  {
    /** ucd_is_letter */
    predicate IsLetter(cp: nat) {
      var c := chartype(cp);
      c.Ll? || c.Lm? || c.Lo? || c.Lt? || c.Lu?
    }

    /** ucd_is_number */
    predicate IsNumber(cp: nat) {
      var c := chartype(cp);
      c.Nd? || c.Nl? || c.No?
    }

    predicate IsMark(cp: nat) {
      var c := chartype(cp);
      c.Mc? || c.Me? || c.Mn?
    }

    /** ucd_is_upper_class */
    predicate IsUpperClass(cp: nat) {
      var c := chartype(cp);
      c.Lu? || c.Lt? || c.Lm? || c.Lo? || IsMark(cp)
    }

    /** ucd_is_lower_class */
    predicate IsLowerClass(cp: nat) {
      var c := chartype(cp);
      c.Ll? || c.Lm? || c.Lo? || IsMark(cp)
    }
  }

  predicate IsNewline(cp: nat) {
    cp == 0x0D || cp == 0x0A
  }

  predicate IsWhitespace(cp: nat) {
    if cp <= 0x7F then cp == 0x20 || 0x09 <= cp <= 0x0D
    else
      || cp == 0x85 || cp == 0xA0 || cp == 0x1680 || 0x2000 <= cp <= 0x200A || cp == 0x180E || cp == 0x202F
      || cp == 0x205F || cp == 0x3000 || cp == 0x2028 || cp == 0x2029
  }

  datatype Pattern = Cl100k | O200k

  datatype PretokMatch = PretokMatch(start: nat, end: nat, patternId: nat, lookahead: bool)

  // ---- Runs of characters ----------------------------------------------------------------------------

  function CodeAt(t: seq<byte>, i: nat): nat
    requires i < |t|
  {
    CharAt(t, i).value
  }

  /** Where the run of characters with property p that starts at i ends. */
  function RunEnd(t: seq<byte>, i: nat, p: nat -> bool): (q: nat)
    requires i <= |t|
    ensures i <= q <= |t|
    ensures i < q <==> i < |t| && p(CodeAt(t, i))
    decreases |t| - i
  {
    if i < |t| && p(CodeAt(t, i)) then RunEnd(t, i + CharAt(t, i).length, p) else i
  }

  method SkipRun(t: seq<byte>, i: nat, p: nat -> bool) returns (q: nat)
    requires i <= |t|
    ensures q == RunEnd(t, i, p)
  {
    q := i;
    while q < |t|
      invariant i <= q <= |t| && RunEnd(t, i, p) == RunEnd(t, q, p)
    {
      var c := CharAt(t, q);
      if !p(c.value) { break; }
      q := q + c.length;
    }
  }

  /** Where the run of at most n characters with property p ends. */
  function ShortRunEnd(t: seq<byte>, i: nat, p: nat -> bool, n: nat): (q: nat)
    requires i <= |t|
    ensures i <= q <= |t|
    ensures i < q <==> n > 0 && i < |t| && p(CodeAt(t, i))
    decreases n
  {
    if n > 0 && i < |t| && p(CodeAt(t, i)) then ShortRunEnd(t, i + CharAt(t, i).length, p, n - 1) else i
  }

  /** Where the run of these bytes ends. */
  function BytesEnd(t: seq<byte>, i: nat, slash: bool): (q: nat)
    requires i <= |t|
    ensures i <= q <= |t|
    ensures i < q <==> i < |t| && IsBreak(t[i], slash)
    decreases |t| - i
  {
    if i < |t| && IsBreak(t[i], slash) then BytesEnd(t, i + 1, slash) else i
  }

  predicate IsBreak(b: byte, slash: bool) {
    b == 0x0D || b == 0x0A || (slash && b == 0x2F)
  }

  method SkipBytes(t: seq<byte>, i: nat, slash: bool) returns (q: nat)
    requires i <= |t|
    ensures q == BytesEnd(t, i, slash)
  {
    q := i;
    while q < |t| && IsBreak(t[q], slash)
      invariant i <= q <= |t| && BytesEnd(t, i, slash) == BytesEnd(t, q, slash)
    {
      q := q + 1;
    }
  }

  lemma {:induction false} RunBoundary(t: seq<byte>, i: nat, p: nat -> bool)
    requires i <= |t| && CharsFrom(t, i)
    ensures CharsFrom(t, RunEnd(t, i, p))
    decreases |t| - i
  {
    if i < |t| && p(CodeAt(t, i)) {
      CharEnds(t, i);
      RunBoundary(t, i + CharAt(t, i).length, p);
    }
  }

  lemma {:induction false} ShortRunBoundary(t: seq<byte>, i: nat, p: nat -> bool, n: nat)
    requires i <= |t| && CharsFrom(t, i)
    ensures CharsFrom(t, ShortRunEnd(t, i, p, n))
    decreases n
  {
    if n > 0 && i < |t| && p(CodeAt(t, i)) {
      CharEnds(t, i);
      ShortRunBoundary(t, i + CharAt(t, i).length, p, n - 1);
    }
  }

  lemma {:induction false} BytesBoundary(t: seq<byte>, i: nat, slash: bool)
    requires i <= |t| && CharsFrom(t, i)
    ensures CharsFrom(t, BytesEnd(t, i, slash))
    decreases |t| - i
  {
    if i < |t| && IsBreak(t[i], slash) {
      CharEnds(t, i);
      BytesBoundary(t, i + 1, slash);
    }
  }

  // ---- The alternatives -----------------------------------------------------------------------------

  /** The byte with its case bit set. */
  function Lower(b: byte): nat {
    if b / 0x20 % 2 == 1 then b else b + 0x20
  }

  /** An apostrophe, straight or curly. */
  function ApostropheLength(t: seq<byte>, i: nat): (a: nat)
    requires i <= |t|
    ensures i + a <= |t|
  {
    if i < |t| && t[i] == 0x27 then 1
    else if i + 2 < |t| && t[i] == 0xE2 && t[i + 1] == 0x80 && t[i + 2] == 0x99 then 3 else 0
  }

  /** The length of the contracted word at i, 0 if there is none. */
  function WordLength(t: seq<byte>, i: nat): (n: nat)
    requires i < |t|
    ensures i + n <= |t|
  {
    var c := Lower(t[i]);
    if c == 0x73 || c == 0x74 || c == 0x6D || c == 0x64 then 1
    else if i + 1 >= |t| then 0
    else
      var e := Lower(t[i + 1]);
      if (c == 0x72 || c == 0x76) && e == 0x65 then 2
      else if c == 0x6C && e == 0x6C then 2 else 0
  }

  /** try_contraction: the length of an apostrophe and s, t, m, d, re, ve or ll after it; 0 if
      there is none. */
  function Contraction(t: seq<byte>, i: nat): (n: nat)
    requires i <= |t|
    ensures i + n <= |t|
  {
    var a := ApostropheLength(t, i);
    if a == 0 || i + a >= |t| || WordLength(t, i + a) == 0 then 0 else a + WordLength(t, i + a)
  }

  function Ending(i: nat, q: nat): Option<nat> {
    if q == i then None else Some(q)
  }

  /** One character that is neither a line break nor a letter nor a number. */
  predicate IsPrefix(u: Ucd, cp: nat) {
    !IsNewline(cp) && !u.IsLetter(cp) && !u.IsNumber(cp)
  }

  function AfterChar(t: seq<byte>, i: nat): (q: nat)
    requires i < |t|
    ensures i < q <= |t|
  {
    i + CharAt(t, i).length
  }

  /** Where the letters of a word start: after a prefix character if a letter follows it. */
  function LettersStart(u: Ucd, t: seq<byte>, i: nat): (p: nat)
    requires i <= |t|
    ensures i <= p <= |t|
  {
    if i < |t| && IsPrefix(u, CodeAt(t, i)) && AfterChar(t, i) < |t| && u.IsLetter(CodeAt(t, AfterChar(t, i)))
    then AfterChar(t, i) else i
  }

  function Letters(u: Ucd, t: seq<byte>, i: nat): (r: Option<nat>)
    requires i <= |t|
  {
    var p := LettersStart(u, t, i);
    var q := RunEnd(t, p, u.IsLetter);
    Ending(p, q)
  }

  function Numbers(u: Ucd, t: seq<byte>, i: nat): (r: Option<nat>)
    requires i <= |t|
  {
    Ending(i, ShortRunEnd(t, i, u.IsNumber, 3))
  }

  function Symbol(u: Ucd): nat -> bool {
    (cp: nat) => !IsWhitespace(cp) && !u.IsLetter(cp) && !u.IsNumber(cp)
  }

  function PunctStart(u: Ucd, t: seq<byte>, i: nat): (p: nat)
    requires i <= |t|
    ensures i <= p <= |t|
  {
    if i + 1 < |t| && t[i] == 0x20 && Symbol(u)(CodeAt(t, i + 1)) then i + 1 else i
  }

  function Punct(u: Ucd, t: seq<byte>, i: nat, slash: bool): (r: Option<nat>)
    requires i <= |t|
  {
    var p := PunctStart(u, t, i);
    var q := RunEnd(t, p, Symbol(u));
    if q == p then None else Some(BytesEnd(t, q, slash))
  }

  function Blank(): nat -> bool {
    (cp: nat) => !IsNewline(cp) && IsWhitespace(cp)
  }

  /** Whitespace up to the first run of line breaks. */
  function WsNewlines(t: seq<byte>, i: nat): (r: Option<nat>)
    requires i <= |t|
  {
    var q := RunEnd(t, i, Blank());
    if q < |t| && IsNewline(CodeAt(t, q)) then Some(BytesEnd(t, q, false)) else None
  }

  function TrailingWs(t: seq<byte>, i: nat): (r: Option<nat>)
    requires i <= |t|
  {
    var q := RunEnd(t, i, IsWhitespace);
    if q < |t| then None else Ending(i, q)
  }

  /** cl100k compares the length of a run of whitespace with that of the character it decoded
      last, and gives up if they are equal.  After a run in the middle of a text that is the
      character behind the run. */
  predicate GivesUp(k: Pattern, t: seq<byte>, i: nat, q: nat)
    requires i <= q <= |t|
  {
    k == Cl100k && q < |t| && q - i == CharAt(t, q).length
  }

  /** At least two whitespace characters. */
  function WsLookahead(k: Pattern, t: seq<byte>, i: nat): (r: Option<nat>)
    requires i <= |t|
  {
    var q := RunEnd(t, i, IsWhitespace);
    if i < |t| && q > AfterChar(t, i) && !GivesUp(k, t, i, q) then Some(q) else None
  }

  function Ws(t: seq<byte>, i: nat): (r: Option<nat>)
    requires i <= |t|
  {
    Ending(i, RunEnd(t, i, IsWhitespace))
  }

  function WordStart(u: Ucd, t: seq<byte>, i: nat): (p: nat)
    requires i <= |t|
    ensures i <= p <= |t|
  {
    if i < |t| && IsPrefix(u, CodeAt(t, i)) then AfterChar(t, i) else i
  }

  /** Upper-class characters, then at least one lower-class one, then maybe a contraction. */
  function Camel(u: Ucd, t: seq<byte>, i: nat): (r: Option<nat>)
    requires i <= |t|
  {
    var l := RunEnd(t, WordStart(u, t, i), u.IsUpperClass);
    var q := RunEnd(t, l, u.IsLowerClass);
    if q == l then None else Some(q + Contraction(t, q))
  }

  /** At least one upper-class character, then lower-class ones, then maybe a contraction. */
  function AllCaps(u: Ucd, t: seq<byte>, i: nat): (r: Option<nat>)
    requires i <= |t|
  {
    var s := WordStart(u, t, i);
    var l := RunEnd(t, s, u.IsUpperClass);
    var q := RunEnd(t, l, u.IsLowerClass);
    if l == s then None else Some(q + Contraction(t, q))
  }

  // ---- The two pretokenizers ----------------------------------------------------------------------------

  /** The alternatives that only one of them has. */
  function Words(k: Pattern, u: Ucd, t: seq<byte>, i: nat): (r: Option<nat>)
    requires i <= |t|
  {
    match k
    case Cl100k => if Contraction(t, i) > 0 then Some(i + Contraction(t, i)) else Letters(u, t, i)
    case O200k => if Camel(u, t, i).Some? then Camel(u, t, i) else AllCaps(u, t, i)
  }

  /** The first alternative of pattern 0 that matches. */
  function Pattern0(k: Pattern, u: Ucd, t: seq<byte>, i: nat): (r: Option<nat>)
    requires i <= |t|
  {
    if Words(k, u, t, i).Some? then Words(k, u, t, i)
    else if Numbers(u, t, i).Some? then Numbers(u, t, i)
    else if Punct(u, t, i, k == O200k).Some? then Punct(u, t, i, k == O200k)
    else if WsNewlines(t, i).Some? then WsNewlines(t, i)
    else TrailingWs(t, i)
  }

  function Pretok(k: Pattern, u: Ucd, t: seq<byte>, i: nat): (r: Option<PretokMatch>) {
    if i >= |t| then None
    else if Pattern0(k, u, t, i).Some? then Some(PretokMatch(i, Pattern0(k, u, t, i).value, 0, false))
    else if WsLookahead(k, t, i).Some? then Some(PretokMatch(i, WsLookahead(k, t, i).value, 1, true))
    else if Ws(t, i).Some? then Some(PretokMatch(i, Ws(t, i).value, 2, false))
    else None
  }

  // ---- What the runs and the words are ---------------------------------------------------------------

  /** From a one gets to b character by character, and every one of these has property p. */
  ghost predicate AllHave(t: seq<byte>, a: nat, b: nat, p: nat -> bool)
    decreases |t| - a
  {
    a == b || (a < b && a < |t| && p(CodeAt(t, a)) && AllHave(t, AfterChar(t, a), b, p))
  }

  ghost predicate MaximalRun(t: seq<byte>, a: nat, b: nat, p: nat -> bool) {
    a <= b <= |t| && AllHave(t, a, b, p) && (b == |t| || !p(CodeAt(t, b)))
  }

  lemma {:induction false} RunMeans(t: seq<byte>, a: nat, b: nat, p: nat -> bool)
    requires a <= |t|
    ensures MaximalRun(t, a, b, p) <==> b == RunEnd(t, a, p)
    decreases |t| - a
  {
    if a < |t| && p(CodeAt(t, a)) {
      var next := AfterChar(t, a);
      RunMeans(t, next, b, p);
      assert a < b ==> AllHave(t, a, b, p) == AllHave(t, next, b, p);
      assert b < next ==> !AllHave(t, next, b, p);
    }
  }

  /** An ASCII letter in either case; l is its lower-case code. */
  predicate IsAscii(b: byte, l: nat) {
    b == l || b + 0x20 == l
  }

  /** s, t, m, d, re, ve or ll, in any mix of cases. */
  predicate IsContractedWord(w: seq<byte>) {
    || (|w| == 1 && (IsAscii(w[0], 0x73) || IsAscii(w[0], 0x74) || IsAscii(w[0], 0x6D) || IsAscii(w[0], 0x64)))
    || (|w| == 2 && (IsAscii(w[0], 0x72) || IsAscii(w[0], 0x76)) && IsAscii(w[1], 0x65))
    || (|w| == 2 && IsAscii(w[0], 0x6C) && IsAscii(w[1], 0x6C))
  }

  predicate FollowsApostrophe(s: seq<byte>, apostrophe: seq<byte>) {
    apostrophe <= s && IsContractedWord(s[|apostrophe|..])
  }

  /** A straight or a curly apostrophe and one of the contracted words. */
  predicate IsContraction(s: seq<byte>) {
    FollowsApostrophe(s, [0x27]) || FollowsApostrophe(s, [0xE2, 0x80, 0x99])
  }

  lemma WordMeans(t: seq<byte>, i: nat, w: seq<byte>)
    requires i < |t| && 0 < |w| && i + |w| <= |t| && w == t[i..i + |w|]
    ensures IsContractedWord(w) <==> |w| == WordLength(t, i)
  {
  }

  /** try_contraction finds the contraction that starts at i, if there is one. */
  lemma ContractionMeans(t: seq<byte>, i: nat, m: nat)
    requires i < m <= |t|
    ensures IsContraction(t[i..m]) <==> m == i + Contraction(t, i)
  {
    var s := t[i..m];
    var a := ApostropheLength(t, i);
    hide IsContractedWord, WordLength;
    if a > 0 && i + a < m {
      WordMeans(t, i + a, t[i + a..m]);
    }
    assert s[0] == t[i];
    if |s| >= 3 { assert s[1] == t[i + 1] && s[2] == t[i + 2]; }
    if |s| > 1 { assert s[1..] == t[i + 1..m]; }
    if |s| > 3 { assert s[3..] == t[i + 3..m]; }
    NoWord();
  }

  /** A contraction from q to e, or nothing because none starts at q. */
  ghost predicate MaybeContraction(t: seq<byte>, q: nat, e: nat) {
    if e == q then forall m :: q < m <= |t| ==> !IsContraction(t[q..m])
    else q < e <= |t| && IsContraction(t[q..e])
  }

  lemma MaybeContractionMeans(t: seq<byte>, q: nat, e: nat)
    requires q <= |t|
    ensures MaybeContraction(t, q, e) <==> e == q + Contraction(t, q)
  {
    hide IsContraction, Contraction;
    forall m | q < m <= |t| ensures IsContraction(t[q..m]) <==> m == q + Contraction(t, q) {
      ContractionMeans(t, q, m);
    }
    var c := q + Contraction(t, q);
    assert c > q ==> IsContraction(t[q..c]);
  }

  /** The character at i may stand in front of a word: it is no line break, letter or number. */
  ghost predicate MayLead(u: Ucd, t: seq<byte>, i: nat) {
    i < |t| && !IsNewline(CodeAt(t, i)) && !u.IsLetter(CodeAt(t, i)) && !u.IsNumber(CodeAt(t, i))
  }

  /** A word starts behind such a character, and at i if none stands there. */
  ghost predicate StartsWord(u: Ucd, t: seq<byte>, i: nat, s: nat) {
    s == if MayLead(u, t, i) then AfterChar(t, i) else i
  }

  /** From the start of the word at s all upper-class characters up to l, all lower-class ones from there to q, then a
      contraction or nothing. */
  ghost predicate WordShape(u: Ucd, t: seq<byte>, i: nat, s: nat, l: nat, q: nat, e: nat) {
    && StartsWord(u, t, i, s) && MaximalRun(t, s, l, u.IsUpperClass) && MaximalRun(t, l, q, u.IsLowerClass)
    && MaybeContraction(t, q, e)
  }

  lemma ShapeMeans(u: Ucd, t: seq<byte>, i: nat, s: nat, l: nat, q: nat, e: nat)
    requires i <= |t|
    ensures WordShape(u, t, i, s, l, q, e) <==>
            && s == WordStart(u, t, i) && l == RunEnd(t, s, u.IsUpperClass)
            && q == RunEnd(t, l, u.IsLowerClass) && e == q + Contraction(t, q)
  {
    hide MaximalRun, MaybeContraction, Contraction, IsNewline;
    assert StartsWord(u, t, i, s) <==> s == WordStart(u, t, i);
    if s <= |t| { RunMeans(t, s, l, u.IsUpperClass); }
    if l <= |t| { RunMeans(t, l, q, u.IsLowerClass); }
    if q <= |t| { MaybeContractionMeans(t, q, e); }
  }

  /** p0_camel matches up to e exactly if a word of that shape with at least one lower-class
      character ends there. */
  lemma CamelMeans(u: Ucd, t: seq<byte>, i: nat, e: nat)
    requires i <= |t|
    ensures Camel(u, t, i) == Some(e) <==> exists s: nat, l: nat, q: nat :: WordShape(u, t, i, s, l, q, e) && l < q
  {
    hide MaximalRun, MaybeContraction, Contraction, WordStart, WordShape;
    var s0 := WordStart(u, t, i);
    var l0 := RunEnd(t, s0, u.IsUpperClass);
    var q0 := RunEnd(t, l0, u.IsLowerClass);
    ShapeMeans(u, t, i, s0, l0, q0, e);
    forall s: nat, l: nat, q: nat | WordShape(u, t, i, s, l, q, e) ensures s == s0 && l == l0 && q == q0 {
      ShapeMeans(u, t, i, s, l, q, e);
    }
  }

  /** p0_allcaps matches up to e exactly if a word of that shape with at least one upper-class
      character ends there. */
  lemma AllCapsMeans(u: Ucd, t: seq<byte>, i: nat, e: nat)
    requires i <= |t|
    ensures AllCaps(u, t, i) == Some(e) <==> exists s: nat, l: nat, q: nat :: WordShape(u, t, i, s, l, q, e) && s < l
  {
    hide MaximalRun, MaybeContraction, Contraction, WordStart, WordShape;
    var s0 := WordStart(u, t, i);
    var l0 := RunEnd(t, s0, u.IsUpperClass);
    var q0 := RunEnd(t, l0, u.IsLowerClass);
    ShapeMeans(u, t, i, s0, l0, q0, e);
    forall s: nat, l: nat, q: nat | WordShape(u, t, i, s, l, q, e) ensures s == s0 && l == l0 && q == q0 {
      ShapeMeans(u, t, i, s, l, q, e);
    }
  }

  lemma NoWord()
    ensures !IsContractedWord([])
  {
  }

  // ---- The code ----------------------------------------------------------------------------------------

  /** p0_letters */
  method TryLetters(u: Ucd, t: seq<byte>, i: nat) returns (r: Option<nat>)
    requires i <= |t|
    ensures r == Letters(u, t, i)
  {
    var p := i;
    if i < |t| {
      var c := CharAt(t, i);
      if IsPrefix(u, c.value) && i + c.length < |t| {
        var c2 := CharAt(t, i + c.length);
        if u.IsLetter(c2.value) { p := i + c.length; }
      }
    }
    var q := SkipRun(t, p, u.IsLetter);
    r := if q == p then None else Some(q);
  }

  /** p0_numbers */
  method TryNumbers(u: Ucd, t: seq<byte>, i: nat) returns (r: Option<nat>)
    requires i <= |t|
    ensures r == Numbers(u, t, i)
  {
    var p, count := i, 0;
    while p < |t| && count < 3
      invariant i <= p <= |t| && 0 <= count <= 3 && (count == 0 <==> p == i)
      invariant ShortRunEnd(t, i, u.IsNumber, 3) == ShortRunEnd(t, p, u.IsNumber, 3 - count)
    {
      var c := CharAt(t, p);
      if !u.IsNumber(c.value) { break; }
      p := p + c.length;
      count := count + 1;
    }
    r := if count == 0 then None else Some(p);
  }

  /** p0_punct; slash is set for o200k. */
  method TryPunct(u: Ucd, t: seq<byte>, i: nat, slash: bool) returns (r: Option<nat>)
    requires i <= |t|
    ensures r == Punct(u, t, i, slash)
  {
    var p := i;
    if i < |t| && t[i] == 0x20 && i + 1 < |t| {
      var c2 := CharAt(t, i + 1);
      if !IsWhitespace(c2.value) && !u.IsLetter(c2.value) && !u.IsNumber(c2.value) { p := i + 1; }
    }
    var q := SkipRun(t, p, Symbol(u));
    if q == p { return None; }
    q := SkipBytes(t, q, slash);
    r := Some(q);
  }

  /** p0_ws_newlines */
  method TryWsNewlines(t: seq<byte>, i: nat) returns (r: Option<nat>)
    requires i <= |t|
    ensures r == WsNewlines(t, i)
  {
    var q := i;
    while q < |t|
      invariant i <= q <= |t| && RunEnd(t, i, Blank()) == RunEnd(t, q, Blank())
    {
      var c := CharAt(t, q);
      if IsNewline(c.value) { break; }
      if !IsWhitespace(c.value) { return None; }
      q := q + c.length;
    }
    if q >= |t| { return None; }
    q := SkipBytes(t, q, false);
    r := Some(q);
  }

  /** p0_trailing_ws */
  method TryTrailingWs(t: seq<byte>, i: nat) returns (r: Option<nat>)
    requires i <= |t|
    ensures r == TrailingWs(t, i)
  {
    var q := i;
    while q < |t|
      invariant i <= q <= |t| && RunEnd(t, i, IsWhitespace) == RunEnd(t, q, IsWhitespace)
    {
      var c := CharAt(t, q);
      if !IsWhitespace(c.value) { return None; }
      q := q + c.length;
    }
    r := if q == i then None else Some(q);
  }

  /** p1_ws_lookahead: width is the length of the character decoded last. */
  method TryWsLookahead(k: Pattern, t: seq<byte>, i: nat) returns (r: Option<nat>)
    requires i <= |t|
    ensures r == WsLookahead(k, t, i)
  {
    if i >= |t| { return None; }
    var c := CharAt(t, i);
    if !IsWhitespace(c.value) { return None; }
    var q, width := i + c.length, c.length;
    while q < |t|
      invariant i + c.length <= q <= |t| && RunEnd(t, i, IsWhitespace) == RunEnd(t, q, IsWhitespace)
      invariant 0 < width <= q - i && (width == q - i ==> q == i + c.length)
    {
      var d := CharAt(t, q);
      if !IsWhitespace(d.value) {
        width := d.length;
        break;
      }
      q, width := q + d.length, d.length;
    }
    if k == Cl100k && q - i <= width && q == i + width { return None; }
    if q <= i + c.length { return None; }
    r := Some(q);
  }

  /** p2_ws */
  method TryWs(t: seq<byte>, i: nat) returns (r: Option<nat>)
    requires i <= |t|
    ensures r == Ws(t, i)
  {
    if i >= |t| { return None; }
    var c := CharAt(t, i);
    if !IsWhitespace(c.value) { return None; }
    var q := SkipRun(t, i + c.length, IsWhitespace);
    r := Some(q);
  }

  /** The optional prefix character at the start of a word. */
  method SkipPrefix(u: Ucd, t: seq<byte>, i: nat) returns (p: nat)
    requires i <= |t|
    ensures p == WordStart(u, t, i)
  {
    p := i;
    if i < |t| {
      var c := CharAt(t, i);
      if IsPrefix(u, c.value) { p := i + c.length; }
    }
  }

  /** p0_camel */
  method TryCamel(u: Ucd, t: seq<byte>, i: nat) returns (r: Option<nat>)
    requires i <= |t|
    ensures r == Camel(u, t, i)
  {
    hide WordStart, Contraction, CharAt;
    var p := SkipPrefix(u, t, i);
    var l := SkipRun(t, p, u.IsUpperClass);
    var q := SkipRun(t, l, u.IsLowerClass);
    if q == l { return None; }
    r := Some(q + Contraction(t, q));
  }

  /** p0_allcaps */
  method TryAllCaps(u: Ucd, t: seq<byte>, i: nat) returns (r: Option<nat>)
    requires i <= |t|
    ensures r == AllCaps(u, t, i)
  {
    hide WordStart, Contraction, CharAt;
    var p := SkipPrefix(u, t, i);
    var l := SkipRun(t, p, u.IsUpperClass);
    if l == p { return None; }
    var q := SkipRun(t, l, u.IsLowerClass);
    r := Some(q + Contraction(t, q));
  }

  /** pretok_cl100k and pretok_o200k: the alternatives in order, the first that matches wins. */
  method TryAll(k: Pattern, u: Ucd, t: seq<byte>, offset: nat) returns (m: Option<PretokMatch>)
    ensures m == Pretok(k, u, t, offset)
  {
    if offset >= |t| { return None; }
    var r: Option<nat>;
    if k == Cl100k {
      var n := Contraction(t, offset);
      if n > 0 { return Some(PretokMatch(offset, offset + n, 0, false)); }
      r := TryLetters(u, t, offset);
      if r.Some? { return Some(PretokMatch(offset, r.value, 0, false)); }
    } else {
      r := TryCamel(u, t, offset);
      if r.Some? { return Some(PretokMatch(offset, r.value, 0, false)); }
      r := TryAllCaps(u, t, offset);
      if r.Some? { return Some(PretokMatch(offset, r.value, 0, false)); }
    }
    r := TryNumbers(u, t, offset);
    if r.Some? { return Some(PretokMatch(offset, r.value, 0, false)); }
    r := TryPunct(u, t, offset, k == O200k);
    if r.Some? { return Some(PretokMatch(offset, r.value, 0, false)); }
    r := TryWsNewlines(t, offset);
    if r.Some? { return Some(PretokMatch(offset, r.value, 0, false)); }
    r := TryTrailingWs(t, offset);
    if r.Some? { return Some(PretokMatch(offset, r.value, 0, false)); }
    r := TryWsLookahead(k, t, offset);
    if r.Some? { return Some(PretokMatch(offset, r.value, 1, true)); }
    r := TryWs(t, offset);
    if r.Some? { return Some(PretokMatch(offset, r.value, 2, false)); }
    return None;
  }

  // ---- Coverage and progress ------------------------------------------------------------------------------

  lemma ContractionBoundary(t: seq<byte>, i: nat)
    requires i <= |t| && CharsFrom(t, i)
    ensures CharsFrom(t, i + Contraction(t, i))
  {
    var n := Contraction(t, i);
    if n > 0 {
      CharEnds(t, i);
      var a := if t[i] == 0x27 then 1 else 3;
      CharEnds(t, i + a);
      if n > a + 1 { CharEnds(t, i + a + 1); }
    }
  }

  /** A match from i that makes progress and ends between two characters. */
  ghost predicate EndsWell(t: seq<byte>, i: nat, r: Option<nat>) {
    r.Some? ==> i < r.value <= |t| && CharsFrom(t, r.value)
  }

  lemma WordEndsWell(u: Ucd, t: seq<byte>, i: nat)
    requires i < |t| && CharsFrom(t, i)
    ensures EndsWell(t, i, Camel(u, t, i)) && EndsWell(t, i, AllCaps(u, t, i))
  {
    CharEnds(t, i);
    var s := WordStart(u, t, i);
    hide CharsFrom, CharAt, Contraction, IsPrefix, WordStart;
    RunBoundary(t, s, u.IsUpperClass);
    var l := RunEnd(t, s, u.IsUpperClass);
    RunBoundary(t, l, u.IsLowerClass);
    ContractionBoundary(t, RunEnd(t, l, u.IsLowerClass));
  }

  lemma WordsEndWell(k: Pattern, u: Ucd, t: seq<byte>, i: nat)
    requires i < |t| && CharsFrom(t, i)
    ensures EndsWell(t, i, Words(k, u, t, i))
  {
    if k == Cl100k {
      CharEnds(t, i);
      ContractionBoundary(t, i);
      hide CharsFrom, CharAt, Contraction, IsPrefix;
      RunBoundary(t, LettersStart(u, t, i), u.IsLetter);
    } else {
      WordEndsWell(u, t, i);
    }
  }

  lemma NewlineIsBreak(t: seq<byte>, q: nat)
    requires q < |t| && CharsFrom(t, q) && IsNewline(CodeAt(t, q))
    ensures IsBreak(t[q], false)
  {
  }

  lemma SpaceLength(t: seq<byte>, i: nat)
    requires i < |t|
    ensures t[i] == 0x20 ==> CharAt(t, i).length == 1
  {
  }

  lemma PunctEndsWell(u: Ucd, t: seq<byte>, i: nat, slash: bool)
    requires i < |t| && CharsFrom(t, i)
    ensures EndsWell(t, i, Punct(u, t, i, slash))
  {
    CharEnds(t, i);
    SpaceLength(t, i);
    hide CharsFrom, IsWhitespace, CharAt, Symbol;
    RunBoundary(t, PunctStart(u, t, i), Symbol(u));
    BytesBoundary(t, RunEnd(t, PunctStart(u, t, i), Symbol(u)), slash);
  }

  lemma NewlinesEndWell(t: seq<byte>, i: nat)
    requires i < |t| && CharsFrom(t, i)
    ensures EndsWell(t, i, WsNewlines(t, i))
  {
    hide CharsFrom, CharAt, Blank;
    var q := RunEnd(t, i, Blank());
    RunBoundary(t, i, Blank());
    BytesBoundary(t, q, false);
    if q < |t| && IsNewline(CodeAt(t, q)) { NewlineIsBreak(t, q); }
  }

  lemma RestEndsWell(u: Ucd, t: seq<byte>, i: nat, slash: bool)
    requires i < |t| && CharsFrom(t, i)
    ensures EndsWell(t, i, Numbers(u, t, i)) && EndsWell(t, i, Punct(u, t, i, slash))
    ensures EndsWell(t, i, WsNewlines(t, i)) && EndsWell(t, i, TrailingWs(t, i))
    ensures EndsWell(t, i, Ws(t, i)) && forall k :: EndsWell(t, i, WsLookahead(k, t, i))
  {
    PunctEndsWell(u, t, i, slash);
    NewlinesEndWell(t, i);
    hide CharsFrom, IsWhitespace, CharAt, Punct, WsNewlines;
    ShortRunBoundary(t, i, u.IsNumber, 3);
    RunBoundary(t, i, IsWhitespace);
  }

  /** Some alternative matches whatever the character is. */
  lemma AlwaysMatches(k: Pattern, u: Ucd, t: seq<byte>, i: nat)
    requires i < |t|
    ensures Pretok(k, u, t, i).Some?
  {
  }

  /** In well-formed text every step matches, makes progress and ends between two characters;
      a match whose last character is to be given back has at least two. */
  lemma MatchIsGood(k: Pattern, u: Ucd, t: seq<byte>, i: nat)
    requires i < |t| && CharsFrom(t, i)
    ensures var m := Pretok(k, u, t, i);
            && m.Some? && m.value.start == i < m.value.end <= |t| && CharsFrom(t, m.value.end)
            && (m.value.lookahead ==> AfterChar(t, i) < m.value.end)
  {
    AlwaysMatches(k, u, t, i);
    WordsEndWell(k, u, t, i);
    RestEndsWell(u, t, i, k == O200k);
    hide CharsFrom, Words, Numbers, Punct, WsNewlines, TrailingWs, Ws, CharAt;
  }

  // ---- Whitespace in front of another character -------------------------------------------------------

  /** No whitespace character counts as a letter, a mark or a number. */
  ghost predicate PlainSpaces(u: Ucd) {
    forall cp :: IsWhitespace(cp) ==> !u.IsLetter(cp) && !u.IsNumber(cp) && !u.IsMark(cp)
  }

  /** q ends a run of at least two whitespace characters from i on, none of them a line break,
      with another character behind it. */
  ghost predicate InnerRun(t: seq<byte>, i: nat, q: nat) {
    i < q < |t| && MaximalRun(t, i, q, IsWhitespace) && MaximalRun(t, i, q, Blank()) && AfterChar(t, i) < q
  }

  lemma InnerRunEnds(t: seq<byte>, i: nat, q: nat)
    requires InnerRun(t, i, q)
    ensures q == RunEnd(t, i, IsWhitespace) == RunEnd(t, i, Blank()) && !IsWhitespace(CodeAt(t, q))
    ensures IsWhitespace(CodeAt(t, i)) && !IsNewline(CodeAt(t, i))
    ensures AfterChar(t, i) < |t| && IsWhitespace(CodeAt(t, AfterChar(t, i)))
  {
    RunMeans(t, i, q, IsWhitespace);
    RunMeans(t, i, q, Blank());
    hide IsWhitespace;
    assert AllHave(t, AfterChar(t, i), q, IsWhitespace);
  }

  lemma SpaceIsNoApostrophe(t: seq<byte>, i: nat)
    requires i < |t| && IsWhitespace(CodeAt(t, i))
    ensures Contraction(t, i) == 0
  {
  }

  lemma NoWordsThere(k: Pattern, u: Ucd, t: seq<byte>, i: nat)
    requires PlainSpaces(u) && i < |t| && IsWhitespace(CodeAt(t, i))
    requires AfterChar(t, i) < |t| && IsWhitespace(CodeAt(t, AfterChar(t, i)))
    ensures Words(k, u, t, i) == None && Numbers(u, t, i) == None && Punct(u, t, i, k == O200k) == None
  {
    SpaceIsNoApostrophe(t, i);
    SpaceLength(t, i);
    hide IsWhitespace, CharAt, Contraction;
    assert !u.IsUpperClass(CodeAt(t, i)) && !u.IsLowerClass(CodeAt(t, i));
    var n := AfterChar(t, i);
    assert !u.IsUpperClass(CodeAt(t, n)) && !u.IsLowerClass(CodeAt(t, n));
  }

  /** Such a run is matched by the look-ahead pattern, unless cl100k gives up. */
  lemma InnerRunMatch(k: Pattern, u: Ucd, t: seq<byte>, i: nat, q: nat)
    requires PlainSpaces(u) && InnerRun(t, i, q)
    ensures Pretok(k, u, t, i) ==
            Some(if GivesUp(k, t, i, q) then PretokMatch(i, q, 2, false) else PretokMatch(i, q, 1, true))
  {
    InnerRunEnds(t, i, q);
    NoWordsThere(k, u, t, i);
    NewlineIsWhitespace(CodeAt(t, q));
    hide PlainSpaces, InnerRun, Words, Numbers, Punct, IsWhitespace, CharAt, IsNewline;
  }

  lemma NewlineIsWhitespace(cp: nat)
    ensures IsNewline(cp) ==> IsWhitespace(cp)
  {
  }

  // ---- Any bytes at all ---------------------------------------------------------------------------------

  /** Whatever the bytes are, some alternative matches within the text; a match whose last character is to be given
      back has at least two. */
  lemma MatchInText(k: Pattern, u: Ucd, t: seq<byte>, i: nat)
    requires i < |t|
    ensures var m := Pretok(k, u, t, i);
            && m.Some? && m.value.start == i <= m.value.end <= |t|
            && (m.value.lookahead ==> AfterChar(t, i) < m.value.end)
  {
    AlwaysMatches(k, u, t, i);
    hide IsWhitespace, CharAt, Contraction, WordStart, LettersStart;
  }

  /** A line break in an overlong form: it decodes to one, but is not the byte. */
  predicate OverlongBreak(t: seq<byte>, i: nat) {
    i < |t| && IsNewline(CodeAt(t, i)) && !IsBreak(t[i], false)
  }

  /** Behind the whitespace character at i only bytes 85 and A0, which continue no character and count as whitespace
      by themselves, up to q; then another character, and cl100k does not give up. */
  predicate StrayRun(k: Pattern, t: seq<byte>, i: nat, q: nat) {
    && i < |t| && Blank()(CodeAt(t, i)) && AfterChar(t, i) < q < |t|
    && (forall j :: AfterChar(t, i) <= j < q ==> t[j] == 0x85 || t[j] == 0xA0)
    && !IsWhitespace(CodeAt(t, q)) && !GivesUp(k, t, i, q)
  }

  lemma OverlongMatch(k: Pattern, u: Ucd, t: seq<byte>, i: nat)
    requires PlainSpaces(u) && OverlongBreak(t, i)
    ensures Pretok(k, u, t, i) == Some(PretokMatch(i, i, 0, false))
  {
    NewlineIsWhitespace(CodeAt(t, i));
    SpaceIsNoApostrophe(t, i);
    assert t[i] != 0x20;
    hide IsWhitespace, CharAt, Contraction;
  }

  /** Every alternative but the one for line breaks takes at least a character. */
  lemma OnlyBreaksEmpty(k: Pattern, u: Ucd, t: seq<byte>, i: nat)
    requires i < |t| && Pretok(k, u, t, i).Some? && Pretok(k, u, t, i).value.end == i
    ensures OverlongBreak(t, i)
  {
    hide IsWhitespace, CharAt, Contraction, WordStart, LettersStart;
  }

  /** Continuation bytes that are whitespace are 85 or A0. */
  lemma {:induction false} StrayBytes(t: seq<byte>, a: nat, q: nat)
    requires a <= q <= |t| && forall j :: a <= j < q ==> Tail(t[j])
    ensures AllHave(t, a, q, IsWhitespace) <==> forall j :: a <= j < q ==> t[j] == 0x85 || t[j] == 0xA0
    decreases q - a
  {
    if a < q {
      assert CharAt(t, a) == CodePoint(t[a], 1);
      StrayBytes(t, a + 1, q);
    }
  }

  lemma {:induction false} StrayBlank(t: seq<byte>, a: nat, q: nat)
    requires a <= q <= |t| && forall j :: a <= j < q ==> t[j] == 0x85 || t[j] == 0xA0
    ensures AllHave(t, a, q, Blank())
    decreases q - a
  {
    if a < q {
      assert CharAt(t, a) == CodePoint(t[a], 1);
      StrayBlank(t, a + 1, q);
    }
  }

  lemma StrayIsInner(k: Pattern, t: seq<byte>, i: nat, q: nat)
    requires StrayRun(k, t, i, q)
    ensures InnerRun(t, i, q)
  {
    StrayBytes(t, AfterChar(t, i), q);
    StrayBlank(t, AfterChar(t, i), q);
    hide CharAt, IsWhitespace;
  }

  lemma ContinuedBy(t: seq<byte>, i: nat)
    requires i < |t|
    ensures forall j :: i < j < AfterChar(t, i) ==> Tail(t[j])
  {
  }
}
