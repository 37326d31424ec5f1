/** UTF-8 and character boundaries. */
module Utf8 {
  import opened Vocabulary

  datatype CodePoint = CodePoint(value: nat, length: nat)

  /** A continuation byte: 10xxxxxx. */
  predicate Tail(b: byte) {
    0x80 <= b < 0xC0
  }

  /** The six bits a continuation byte carries. */
  function Six(b: byte): (n: nat)
    requires Tail(b)
    ensures n < 0x40
  {
    var n: int := b; n - 0x80
  }

  /** The bits a first byte carries below the given mark. */
  function Head(b: byte, mark: nat): (n: nat)
    requires mark <= b
  {
    var n: int := b; n - mark
  }

  predicate Tails(t: seq<byte>, i: nat, n: nat) {
    && i + n < |t|
    && (n >= 1 ==> Tail(t[i + 1])) && (n >= 2 ==> Tail(t[i + 2])) && (n >= 3 ==> Tail(t[i + 3]))
  }

  /** utf8_decode: a byte that starts no complete sequence counts as a character of its own. */
  function CharAt(t: seq<byte>, i: nat): (c: CodePoint)
    requires i < |t|
    ensures 1 <= c.length && i + c.length <= |t|
  {
    var b := t[i];
    if b < 0x80 then CodePoint(b, 1)
    else if 0xC0 <= b < 0xE0 && Tails(t, i, 1) then
      CodePoint(Head(b, 0xC0) * 0x40 + Six(t[i + 1]), 2)
    else if 0xE0 <= b < 0xF0 && Tails(t, i, 2) then
      CodePoint(Head(b, 0xE0) * 0x1000 + Six(t[i + 1]) * 0x40 + Six(t[i + 2]), 3)
    else if 0xF0 <= b < 0xF8 && Tails(t, i, 3) then
      CodePoint(Head(b, 0xF0) * 0x40000 + Six(t[i + 1]) * 0x1000 + Six(t[i + 2]) * 0x40 + Six(t[i + 3]), 4)
    else CodePoint(b, 1)
  }

  // ---- Any bytes --------------------------------------------------------------------------------

  /** What n bytes with the marks of a sequence of n can carry. */
  function Limit(n: nat): nat {
    if n == 2 then 0x800 else if n == 3 then 0x10000 else 0x200000
  }

  /** A number written in n bytes, whether or not fewer would do and whether or not it is a code point. */
  function Form(cp: nat, n: nat): (e: seq<byte>)
    requires 2 <= n <= 4 && cp < Limit(n)
    ensures |e| == n
  {
    if n == 2 then [0xC0 + cp / 0x40, 0x80 + cp % 0x40]
    else if n == 3 then [0xE0 + cp / 0x40 / 0x40, 0x80 + cp / 0x40 % 0x40, 0x80 + cp % 0x40]
    else [0xF0 + cp / 0x40 / 0x40 / 0x40, 0x80 + cp / 0x40 / 0x40 % 0x40, 0x80 + cp / 0x40 % 0x40, 0x80 + cp % 0x40]
  }

  /** The bytes at i write cp in n bytes. */
  predicate FormAt(t: seq<byte>, i: nat, cp: nat, n: nat) {
    2 <= n <= 4 && cp < Limit(n) && i + n <= |t| && t[i..i + n] == Form(cp, n)
  }

  lemma Digits(q: nat, r: nat)
    requires r < 0x40
    ensures (q * 0x40 + r) / 0x40 == q && (q * 0x40 + r) % 0x40 == r
  {
  }

  lemma FormDecodes(t: seq<byte>, i: nat, cp: nat, n: nat)
    requires i < |t| && FormAt(t, i, cp, n)
    ensures CharAt(t, i) == CodePoint(cp, n)
  {
    var e := t[i..i + n];
    assert e[0] == t[i] && e[1] == t[i + 1];
    if n >= 3 { assert e[2] == t[i + 2]; }
    if n >= 4 { assert e[3] == t[i + 3]; }
  }

  lemma DecodedShort(t: seq<byte>, i: nat)
    requires i < |t| && 1 < CharAt(t, i).length < 4
    ensures FormAt(t, i, CharAt(t, i).value, CharAt(t, i).length)
  {
    if CharAt(t, i).length == 2 {
      Digits(Head(t[i], 0xC0), Six(t[i + 1]));
    } else {
      Digits(Head(t[i], 0xE0) * 0x40 + Six(t[i + 1]), Six(t[i + 2]));
      Digits(Head(t[i], 0xE0), Six(t[i + 1]));
    }
  }

  lemma DecodedLong(t: seq<byte>, i: nat)
    requires i < |t| && CharAt(t, i).length == 4
    ensures FormAt(t, i, CharAt(t, i).value, 4)
  {
    var a := Head(t[i], 0xF0);
    var b := a * 0x40 + Six(t[i + 1]);
    Digits(a, Six(t[i + 1]));
    Digits(b, Six(t[i + 2]));
    Digits(b * 0x40 + Six(t[i + 2]), Six(t[i + 3]));
  }

  /** In any bytes: the decoder takes a sequence of two to four bytes exactly where one stands, and otherwise a single
      byte for itself. */
  lemma DecodeAny(t: seq<byte>, i: nat, c: CodePoint)
    requires i < |t|
    ensures CharAt(t, i) == c <==>
            FormAt(t, i, c.value, c.length) || (c == CodePoint(t[i], 1) && forall cp, n :: !FormAt(t, i, cp, n))
  {
    hide CharAt, FormAt;
    if FormAt(t, i, c.value, c.length) { FormDecodes(t, i, c.value, c.length); }
    DecodedLength(t, i);
    if CharAt(t, i).length == 4 {
      DecodedLong(t, i);
    } else if CharAt(t, i).length > 1 {
      DecodedShort(t, i);
    }
    forall cp: nat, n: nat | FormAt(t, i, cp, n) ensures CharAt(t, i) == CodePoint(cp, n) && n >= 2 {
      FormDecodes(t, i, cp, n);
      FormLong(t, i, cp, n);
    }
  }

  lemma FormLong(t: seq<byte>, i: nat, cp: nat, n: nat)
    requires FormAt(t, i, cp, n)
    ensures n >= 2
  {
  }

  lemma DecodedLength(t: seq<byte>, i: nat)
    requires i < |t|
    ensures CharAt(t, i).length <= 4 && (CharAt(t, i).length == 1 ==> CharAt(t, i) == CodePoint(t[i], 1))
  {
  }

  // ---- Well-formed UTF-8 (section 4 of RFC 3629) ------------------------------------------------

  /** The length of the well-formed character at i; 0 if there is none. */
  function CharLength(t: seq<byte>, i: nat): (n: nat)
    requires i < |t|
  {
    var b := t[i];
    if b < 0x80 then 1
    else if 0xC2 <= b < 0xE0 && Tails(t, i, 1) then 2
    else if 0xE0 <= b < 0xF0 && Tails(t, i, 2) && (b == 0xE0 ==> 0xA0 <= t[i + 1])
        && (b == 0xED ==> t[i + 1] < 0xA0) then 3
    else if 0xF0 <= b < 0xF5 && Tails(t, i, 3) && (b == 0xF0 ==> 0x90 <= t[i + 1])
        && (b == 0xF4 ==> t[i + 1] < 0x90) then 4
    else 0
  }

  /** From i on the text consists of well-formed characters. */
  ghost predicate CharsFrom(t: seq<byte>, i: nat)
    decreases |t| - i
  {
    i == |t| || (i < |t| && CharLength(t, i) > 0 && CharsFrom(t, i + CharLength(t, i)))
  }

  predicate IsScalar(cp: nat) {
    cp < 0xD800 || 0xE000 <= cp < 0x110000
  }

  /** Section 3 of RFC 3629. */
  function Encode(cp: nat): (e: seq<byte>)
    requires IsScalar(cp)
    ensures 1 <= |e| <= 4
  {
    if cp < 0x80 then [cp]
    else if cp < 0x800 then [0xC0 + cp / 0x40, 0x80 + cp % 0x40]
    else if cp < 0x10000 then [0xE0 + cp / 0x40 / 0x40, 0x80 + cp / 0x40 % 0x40, 0x80 + cp % 0x40]
    else [0xF0 + cp / 0x40 / 0x40 / 0x40, 0x80 + cp / 0x40 / 0x40 % 0x40, 0x80 + cp / 0x40 % 0x40, 0x80 + cp % 0x40]
  }

  /** Decoding undoes encoding, whatever follows. */
  lemma EncodeThenDecode(cp: nat, rest: seq<byte>)
    requires IsScalar(cp)
    ensures CharAt(Encode(cp) + rest, 0) == CodePoint(cp, |Encode(cp)|)
    ensures CharLength(Encode(cp) + rest, 0) == |Encode(cp)|
  {
    var t, e := Encode(cp) + rest, Encode(cp);
    assert t[0] == e[0];
    if |e| >= 2 { assert t[1] == e[1]; }
    if |e| >= 3 { assert t[2] == e[2]; }
    if |e| >= 4 { assert t[3] == e[3]; }
  }

  lemma ShortDecode(t: seq<byte>, i: nat)
    requires i < |t| && 0 < CharLength(t, i) < 4
    ensures CharAt(t, i).length == CharLength(t, i) && IsScalar(CharAt(t, i).value)
    ensures t[i..i + CharLength(t, i)] == Encode(CharAt(t, i).value)
  {
    if CharLength(t, i) > 1 {
      DecodedShort(t, i);
    }
  }

  lemma LongDecode(t: seq<byte>, i: nat)
    requires i < |t| && CharLength(t, i) == 4
    ensures CharAt(t, i).length == 4 && IsScalar(CharAt(t, i).value)
    ensures t[i..i + 4] == Encode(CharAt(t, i).value)
  {
  }

  /** On a well-formed character the decoder returns its length and a code point that encodes
      to its bytes. */
  lemma DecodeThenEncode(t: seq<byte>, i: nat)
    requires i < |t| && CharLength(t, i) > 0
    ensures CharAt(t, i).length == CharLength(t, i) && IsScalar(CharAt(t, i).value)
    ensures t[i..i + CharLength(t, i)] == Encode(CharAt(t, i).value)
  {
    if CharLength(t, i) < 4 {
      ShortDecode(t, i);
    } else {
      LongDecode(t, i);
    }
  }

  lemma CharBytes(t: seq<byte>, i: nat)
    requires i < |t| && CharLength(t, i) > 0
    ensures !Tail(t[i]) && i + CharLength(t, i) <= |t| && CharAt(t, i).length == CharLength(t, i)
    ensures forall k :: i < k < i + CharLength(t, i) ==> Tail(t[k])
  {
  }

  /** In well-formed text the characters start exactly at the bytes that continue none. */
  lemma {:induction false} BoundaryIff(t: seq<byte>, from: nat, i: nat)
    requires CharsFrom(t, from) && from <= i <= |t|
    ensures CharsFrom(t, i) <==> i == |t| || !Tail(t[i])
    decreases |t| - from
  {
    if from < i {
      CharBytes(t, from);
      var next := from + CharLength(t, from);
      if next <= i {
        BoundaryIff(t, next, i);
      } else {
        assert Tail(t[i]);
      }
    } else if i < |t| {
      CharBytes(t, i);
    }
  }

  lemma CharEnds(t: seq<byte>, i: nat)
    requires CharsFrom(t, i) && i < |t|
    ensures CharsFrom(t, i + CharAt(t, i).length)
  {
  }
}
