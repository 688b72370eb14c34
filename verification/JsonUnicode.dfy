/** Escapes for any Unicode text, and the room a decoded string needs.
    Source: lib/cJSON.c, section 3 of RFC 3629, section 2 of RFC 2781. */
module JsonUnicode {
  import opened Sequences
  import opened JsonText
  import opened JsonParser
  import opened JsonRoundTrip

  // ----- UTF-8 -----

  /** The code points that a string can hold: Unicode scalar values other than 0. */
  predicate IsScalar(cp: bv32) {
    0 < cp && cp <= 0x10FFFF && !IsHigh(cp) && !IsLow(cp)
  }

  function Code(c: char): bv32
    requires c as int < 0x100
  {
    c as int as bv32
  }

  /** A byte of the form 10xxxxxx. */
  predicate IsTail(b: bv32) {
    b & 0xC0 == 0x80
  }

  predicate Bytes(s: string, n: nat) {
    n <= |s| && forall k :: 0 <= k < n ==> s[k] as int < 0x100
  }

  function Lead(b: bv32): nat {
    if b & 0x80 == 0 then 1
    else if b & 0xE0 == 0xC0 then 2
    else if b & 0xF0 == 0xE0 then 3
    else if b & 0xF8 == 0xF0 then 4
    else 0
  }

  function Join2(b: bv32, t1: bv32): bv32 {
    ((b & 0x1F) << 6) | (t1 & 0x3F)
  }

  function Join3(b: bv32, t1: bv32, t2: bv32): bv32 {
    ((b & 0x0F) << 12) | ((t1 & 0x3F) << 6) | (t2 & 0x3F)
  }

  function JoinAll(b: bv32, t1: bv32, t2: bv32, t3: bv32): bv32 {
    ((b & 0x07) << 18) | ((t1 & 0x3F) << 12) | ((t2 & 0x3F) << 6) | (t3 & 0x3F)
  }

  /** The table of RFC 3629: the code point at the front of a text, and the number of its bytes; 0 bytes
      when the text does not start with an encoding. */
  function Decode(s: string): (r: (bv32, nat))
    ensures r.1 <= |s|
  {
    if !Bytes(s, 1) then (0, 0)
    else
      var b, n := Code(s[0]), Lead(Code(s[0]));
      if n == 1 then (b, 1)
      else if n == 2 && Bytes(s, 2) && IsTail(Code(s[1])) then (Join2(b, Code(s[1])), 2)
      else if n == 3 && Bytes(s, 3) && IsTail(Code(s[1])) && IsTail(Code(s[2])) then
        (Join3(b, Code(s[1]), Code(s[2])), 3)
      else if n == 4 && Bytes(s, 4) && IsTail(Code(s[1])) && IsTail(Code(s[2])) && IsTail(Code(s[3])) then
        (JoinAll(b, Code(s[1]), Code(s[2]), Code(s[3])), 4)
      else (0, 0)
  }

  /** How many bytes RFC 3629 gives a code point. */
  function Width(cp: bv32): nat {
    if cp < 0x80 then 1 else if cp < 0x800 then 2 else if cp < 0x10000 then 3 else 4
  }

  lemma SmallCode(y: bv32)
    requires y < 0x100
    ensures y as int < 0x100 && (y as int as char) as int as bv32 == y
  {
  }

  lemma CodeOfByte(x: bv32)
    ensures Byte(x) as int < 0x100 && Code(Byte(x)) == Low8(x)
  {
    SmallCode(Low8(x));
    hide Low8;
  }

  lemma TailBits(x: bv32)
    ensures IsTail(Low8(Low6(x)))
  {
  }

  lemma OneBits(cp: bv32)
    requires cp < 0x80
    ensures Lead(Low8(cp)) == 1 && Low8(cp) == cp
  {
  }

  lemma TwoBits(cp: bv32)
    requires 0x80 <= cp && cp < 0x800
    ensures Lead(Low8(Or(Shift6(cp), 0xC0))) == 2
    ensures Join2(Low8(Or(Shift6(cp), 0xC0)), Low8(Low6(cp))) == cp
  {
  }

  lemma ThreeBits(cp: bv32)
    requires 0x800 <= cp && cp < 0x10000
    ensures Lead(Low8(Or(Shift6(Shift6(cp)), 0xE0))) == 3
    ensures Join3(Low8(Or(Shift6(Shift6(cp)), 0xE0)), Low8(Low6(Shift6(cp))), Low8(Low6(cp))) == cp
  {
  }

  lemma FourBits(cp: bv32)
    requires 0x10000 <= cp && cp < 0x110000
    ensures Lead(Low8(Or(Shift6(Shift6(Shift6(cp))), 0xF0))) == 4
    ensures JoinAll(Low8(Or(Shift6(Shift6(Shift6(cp))), 0xF0)), Low8(Low6(Shift6(Shift6(cp)))),
                    Low8(Low6(Shift6(cp))), Low8(Low6(cp))) == cp
  {
  }

  /** Bytes with the bits of an encoding are decoded by the table. */
  lemma DecodeBytes(b: bv32, t1: bv32, t2: bv32, t3: bv32, rest: string)
    requires IsTail(Low8(t1)) && IsTail(Low8(t2)) && IsTail(Low8(t3))
    ensures Lead(Low8(b)) == 1 ==> Decode([Byte(b)] + rest) == (Low8(b), 1)
    ensures Lead(Low8(b)) == 2 ==> Decode([Byte(b), Byte(t1)] + rest) == (Join2(Low8(b), Low8(t1)), 2)
    ensures Lead(Low8(b)) == 3 ==>
      Decode([Byte(b), Byte(t1), Byte(t2)] + rest) == (Join3(Low8(b), Low8(t1), Low8(t2)), 3)
    ensures Lead(Low8(b)) == 4 ==>
      Decode([Byte(b), Byte(t1), Byte(t2), Byte(t3)] + rest) == (JoinAll(Low8(b), Low8(t1), Low8(t2), Low8(t3)), 4)
  {
    CodeOfByte(b);
    CodeOfByte(t1);
    CodeOfByte(t2);
    CodeOfByte(t3);
    hide Low8, Byte, Code, IsTail, Lead, Join2, Join3, JoinAll;
  }

  /** The bytes written for a code point are its UTF-8 encoding, of the shortest form, before any text. */
  lemma Utf8Decodes(cp: bv32, rest: string)
    requires cp < 0x110000
    ensures |Utf8(cp)| == Width(cp) && Decode(Utf8(cp) + rest) == (cp, Width(cp))
  {
    hide Low8, Low6, Or, Shift6, Byte, IsTail, Lead, Join2, Join3, JoinAll, Decode;
    var cp1 := Shift6(cp);
    var cp2 := Shift6(cp1);
    TailBits(cp);
    TailBits(cp1);
    TailBits(cp2);
    if cp < 0x80 {
      OneBits(cp);
      DecodeBytes(cp, Low6(cp), Low6(cp), Low6(cp), rest);
    } else if cp < 0x800 {
      TwoBits(cp);
      DecodeBytes(Or(cp1, 0xC0), Low6(cp), Low6(cp), Low6(cp), rest);
    } else if cp < 0x10000 {
      ThreeBits(cp);
      DecodeBytes(Or(cp2, 0xE0), Low6(cp1), Low6(cp), Low6(cp), rest);
    } else {
      FourBits(cp);
      DecodeBytes(Or(Shift6(cp2), 0xF0), Low6(cp2), Low6(cp1), Low6(cp), rest);
    }
  }

  function Utf8All(cps: seq<bv32>): string {
    if cps == [] then "" else Utf8(cps[0]) + Utf8All(cps[1..])
  }

  /** A text decoded by the table, up to its end or to the first byte that starts no encoding. */
  function DecodeAll(s: string): seq<bv32>
    decreases |s|
  {
    var (cp, n) := Decode(s);
    if n == 0 then [] else [cp] + DecodeAll(s[n..])
  }

  lemma SomeWidth(cp: bv32)
    ensures Width(cp) > 0
  {
  }

  /** Decoding the encoding of a sequence of code points gives the sequence back. */
  lemma {:induction false} Utf8AllDecodes(cps: seq<bv32>)
    requires forall i :: 0 <= i < |cps| ==> cps[i] < 0x110000
    ensures DecodeAll(Utf8All(cps)) == cps
  {
    hide Utf8, Decode, Width;
    if cps != [] {
      var first, rest := Utf8(cps[0]), Utf8All(cps[1..]);
      Utf8Decodes(cps[0], rest);
      Utf8AllDecodes(cps[1..]);
      SomeWidth(cps[0]);
      assert (first + rest)[|first|..] == rest;
    }
  }

  // ----- escapes -----

  function Nibble(x: bv32): (r: bv32)
    ensures r < 16
  {
    x & 0xF
  }

  function HexOf(u: bv32): string {
    DigitsOf(Nibble(u >> 12), Nibble(u >> 8), Nibble(u >> 4), Nibble(u))
  }

  function DigitsOf(a: bv32, b: bv32, c: bv32, d: bv32): string
    requires a < 16 && b < 16 && c < 16 && d < 16
  {
    FourDigits(a as int, b as int, c as int, d as int)
  }

  /** Hexadecimal digits in upper or lower case, digit by digit. */
  function Recase(digits: string, caps: seq<bool>): (s: string)
    ensures |s| == |digits|
  {
    seq(|digits|, i requires 0 <= i < |digits| =>
      if i < |caps| && caps[i] && 'a' <= digits[i] <= 'f' then digits[i] - 'a' + 'A' else digits[i])
  }

  function Hex(u: bv32, caps: seq<bool>): (s: string)
    ensures |s| == 4
  {
    Recase(HexOf(u), caps)
  }

  /** A code point and the digits that are to be in upper case. */
  datatype Spelling = Spelling(cp: bv32, first: seq<bool>, second: seq<bool>)

  function High(cp: bv32): bv32 {
    0xD800 | ((cp - 0x10000) >> 10)
  }

  function Low(cp: bv32): bv32 {
    0xDC00 | ((cp - 0x10000) & 0x3FF)
  }

  /** A code point as JSON escapes: one, or a surrogate pair above U+FFFF. */
  function UEscape(p: Spelling): string {
    if p.cp < 0x10000 then "\\u" + Hex(p.cp, p.first)
    else "\\u" + Hex(High(p.cp), p.first) + "\\u" + Hex(Low(p.cp), p.second)
  }

  function UEscapeAll(ps: seq<Spelling>): string {
    if ps == [] then "" else UEscape(ps[0]) + UEscapeAll(ps[1..])
  }

  function CodePoints(ps: seq<Spelling>): (cps: seq<bv32>)
    ensures |cps| == |ps| && forall i :: 0 <= i < |ps| ==> cps[i] == ps[i].cp
  {
    seq(|ps|, i requires 0 <= i < |ps| => ps[i].cp)
  }

  lemma Back(x: bv32)
    ensures x as int as bv32 == x
  {
  }

  lemma DigitsRead(a: bv32, b: bv32, c: bv32, d: bv32, rest: string)
    requires a < 16 && b < 16 && c < 16 && d < 16
    ensures Hex4(DigitsOf(a, b, c, d) + rest) == Join4(a, b, c, d)
    ensures Drop(DigitsOf(a, b, c, d) + rest, 4) == rest
  {
    Hex4OfDigits(a as int, b as int, c as int, d as int, rest);
    hide Hex4, Drop, FourDigits, Join4;
    Back(a);
    Back(b);
    Back(c);
    Back(d);
  }

  lemma NibblesJoin(u: bv32)
    requires u < 0x10000
    ensures Join4(Nibble(u >> 12), Nibble(u >> 8), Nibble(u >> 4), Nibble(u)) == u
  {
  }

  lemma CaseReads(c: char, cap: bool)
    ensures HexValue(if cap && 'a' <= c <= 'f' then c - 'a' + 'A' else c) == HexValue(c)
  {
  }

  lemma RecaseReads(digits: string, caps: seq<bool>, rest: string)
    requires |digits| == 4
    ensures Hex4(Recase(digits, caps) + rest) == Hex4(digits + rest)
    ensures Drop(Recase(digits, caps) + rest, 4) == rest
  {
    hide HexValue;
    forall i | 0 <= i < 4
      ensures HexValue(At(Recase(digits, caps) + rest, i)) == HexValue(At(digits + rest, i))
    {
      CaseReads(digits[i], i < |caps| && caps[i]);
    }
    hide Recase, Nibbles;
  }

  lemma Hex4Reads(u: bv32, caps: seq<bool>, rest: string)
    requires u < 0x10000
    ensures Hex4(Hex(u, caps) + rest) == u && Drop(Hex(u, caps) + rest, 4) == rest
  {
    NibblesJoin(u);
    hide Hex4, Drop, DigitsOf, Join4, Nibble, Recase;
    RecaseReads(HexOf(u), caps, rest);
    DigitsRead(Nibble(u >> 12), Nibble(u >> 8), Nibble(u >> 4), Nibble(u), rest);
  }

  lemma SurrogateBits(cp: bv32)
    requires 0x10000 <= cp && cp <= 0x10FFFF
    ensures var w1, w2 := 0xD800 | ((cp - 0x10000) >> 10), 0xDC00 | ((cp - 0x10000) & 0x3FF);
      IsHigh(w1) && IsLow(w2) && w1 < 0x10000 && w2 < 0x10000 && Pair(w1, w2) == cp
  {
  }

  predicate IsUnit(w: bv32) {
    w < 0x10000
  }

  lemma SurrogatesJoin(cp: bv32)
    requires 0x10000 <= cp && cp <= 0x10FFFF
    ensures IsHigh(High(cp)) && IsLow(Low(cp)) && IsUnit(High(cp)) && IsUnit(Low(cp))
    ensures Pair(High(cp), Low(cp)) == cp
  {
    SurrogateBits(cp);
    hide IsHigh, IsLow, Pair;
  }

  lemma EscapeText(p: Spelling, rest: string)
    ensures
      var t := UEscape(p) + rest;
      && |t| >= 2 && t[0] == BACKSLASH && t[1] == 'u'
      && t[1..][1..] ==
           if p.cp < 0x10000 then Hex(p.cp, p.first) + rest
           else Hex(High(p.cp), p.first) + ("\\u" + (Hex(Low(p.cp), p.second) + rest))
  {
    hide Hex, High, Low;
  }

  lemma EscapeRead(p: Spelling, rest: string)
    requires IsScalar(p.cp)
    ensures OneEscape((UEscape(p) + rest)[1..]) == (Utf8(p.cp), rest)
    ensures UEscape(p) + rest != "" && (UEscape(p) + rest)[0] == BACKSLASH
  {
    EscapeText(p, rest);
    hide UEscape, Hex, Utf8;
    if p.cp < 0x10000 {
      Hex4Reads(p.cp, p.first, rest);
    } else {
      PairRead(p, rest);
    }
  }

  lemma PairRead(p: Spelling, rest: string)
    requires 0x10000 <= p.cp && p.cp <= 0x10FFFF
    ensures UnicodeEscape(Hex(High(p.cp), p.first) + ("\\u" + (Hex(Low(p.cp), p.second) + rest))) == (Utf8(p.cp), rest)
  {
    SurrogatesJoin(p.cp);
    var low := Hex(Low(p.cp), p.second);
    var q := "\\u" + (low + rest);
    Hex4Reads(High(p.cp), p.first, q);
    Hex4Reads(Low(p.cp), p.second, rest);
    assert Drop(q, 2) == low + rest && Drop(q, 6) == rest;
    hide Hex4, Hex, Utf8, High, Low;
  }

  /** Any sequence of scalar values written as escapes, with digits of either case, is decoded to its UTF-8
      encoding. */
  lemma {:induction false} EscapesTranscode(ps: seq<Spelling>, rest: string)
    requires forall i :: 0 <= i < |ps| ==> IsScalar(ps[i].cp)
    ensures Unescape(UEscapeAll(ps) + ("\"" + rest)) == (Utf8All(CodePoints(ps)), rest)
    decreases |ps|
  {
    if ps == [] {
      NothingLeft("\"" + rest);
    } else {
      var tail := UEscapeAll(ps[1..]) + ("\"" + rest);
      Associative(UEscape(ps[0]), UEscapeAll(ps[1..]), "\"" + rest);
      EscapeRead(ps[0], tail);
      EscapesTranscode(ps[1..], rest);
      assert CodePoints(ps)[1..] == CodePoints(ps[1..]);
      hide OneEscape, UEscape, Utf8;
    }
  }

  // ----- the room for the result -----

  /** The first pass of `parse_string`: one for each character, an escape counting once. */
  function SkipLength(s: string): nat
    decreases |s|
  {
    if s == "" || s[0] == QUOTE then 0
    else 1 + SkipLength(if s[0] == BACKSLASH then Drop(s, 2) else s[1..])
  }

  predicate HexQuad(s: string) {
    |s| >= 4 && forall k :: 0 <= k < 4 ==> HexValue(s[k]) >= 0
  }

  /** Every `\u` up to the closing quote is followed by four hexadecimal digits. */
  predicate WellFormed(s: string) {
    if s == "" || s[0] == QUOTE then true
    else if s[0] != BACKSLASH then WellFormed(s[1..])
    else if At(s, 1) == 'u' then HexQuad(s[2..]) && WellFormed(s[6..])
    else |s| >= 2 && WellFormed(s[2..])
  }

  lemma SkipQuad(s: string)
    requires HexQuad(s)
    ensures SkipLength(s) == 4 + SkipLength(s[4..])
  {
    SkipPlain(s, 4);
  }

  lemma {:induction false} SkipPlain(s: string, n: nat)
    requires n <= |s| && forall k :: 0 <= k < n ==> s[k] != QUOTE && s[k] != BACKSLASH
    ensures SkipLength(s) == n + SkipLength(s[n..])
    decreases n
  {
    if n > 0 {
      SkipPlain(s[1..], n - 1);
      assert s[1..][n - 1..] == s[n..];
    }
  }

  /** An escape yields no more bytes than the first pass counted for the text it takes. */
  predicate Fits(s: string, escape: (string, string)) {
    |escape.1| < |s| && WellFormed(escape.1) && |escape.0| + SkipLength(escape.1) <= SkipLength(s)
  }

  lemma EscapeFits(s: string)
    requires s != "" && s[0] == BACKSLASH && WellFormed(s)
    ensures Fits(s, OneEscape(s[1..]))
  {
    assert SkipLength(s) == 1 + SkipLength(s[2..]);
    if s[1] == 'u' {
      assert HexQuad(s[2..]) && WellFormed(s[6..]);
      UnicodeEscapeFits(s);
    } else {
      assert WellFormed(s[2..]);
      hide WellFormed, SkipLength;
      assert s[1..][1..] == s[2..];
      PlainEscape(s[1..]);
      hide OneEscape;
    }
  }

  lemma UnicodeEscapeFits(s: string)
    requires |s| >= 6 && s[1] == 'u' && HexQuad(s[2..]) && WellFormed(s[6..])
    requires SkipLength(s) == 1 + SkipLength(s[2..])
    ensures Fits(s, OneEscape(s[1..]))
  {
    assert s[1..][1..] == s[2..] && s[2..][4..] == s[6..];
    EscapeIsUnicode(s[1..]);
    hide OneEscape, UnicodeEscape, WellFormed;
    SkipQuad(s[2..]);
    UnicodeFits(s[2..]);
    hide SkipLength, HexQuad;
  }

  lemma EscapeIsUnicode(s: string)
    requires s != "" && s[0] == 'u'
    ensures OneEscape(s) == UnicodeEscape(s[1..])
  {
  }

  lemma PlainEscape(s: string)
    requires s != "" && s[0] != 'u'
    ensures |OneEscape(s).0| == 1 && OneEscape(s).1 == s[1..]
  {
  }

  lemma UnicodeFits(s: string)
    requires |s| >= 4 && HexQuad(s) && WellFormed(s[4..])
    ensures var (bytes, next) := UnicodeEscape(s);
      WellFormed(next) && |bytes| + SkipLength(next) <= 5 + SkipLength(s[4..])
  {
    var q := s[4..];
    if IsHigh(Hex4(s)) && At(q, 0) == BACKSLASH && At(q, 1) == 'u' {
      SkipQuad(q[2..]);
      assert q[2..][4..] == q[6..];
      assert SkipLength(q) == 5 + SkipLength(q[6..]);
    } else if !IsHigh(Hex4(s)) {
      Hex4IsShort(s);
    }
  }

  lemma Hex4IsShort(s: string)
    ensures Hex4(s) < 0x10000
  {
    var a, b, c, d := HexValue(At(s, 0)), HexValue(At(s, 1)), HexValue(At(s, 2)), HexValue(At(s, 3));
    if a >= 0 && b >= 0 && c >= 0 && d >= 0 {
      SmallNibble(a);
      SmallNibble(b);
      SmallNibble(c);
      SmallNibble(d);
      SmallJoin(a as bv32, b as bv32, c as bv32, d as bv32);
      hide Join4;
    }
  }

  lemma SmallNibble(a: nat)
    requires a < 16
    ensures a as bv32 < 16
  {
  }

  lemma SmallJoin(a: bv32, b: bv32, c: bv32, d: bv32)
    requires a < 16 && b < 16 && c < 16 && d < 16
    ensures Join4(a, b, c, d) < 0x10000
  {
  }

  /** The decoded text fits the length from the first pass. */
  lemma {:induction false} DecodedFits(s: string)
    requires WellFormed(s)
    ensures |Unescape(s).0| <= SkipLength(s)
    decreases |s|
  {
    if s == "" || s[0] == QUOTE {
    } else if s[0] != BACKSLASH {
      DecodedFits(s[1..]);
    } else {
      EscapeFits(s);
      DecodedFits(OneEscape(s[1..]).1);
    }
  }
}
