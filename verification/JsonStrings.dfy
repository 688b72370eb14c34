/** When `parse_string` stays inside its text and its allocation: its first pass measures, its second decodes.
    Source: lib/cJSON.c. */
module JsonStrings {
  import opened Sequences
  import opened JsonText
  import opened JsonParser
  import opened JsonRoundTrip
  import opened JsonUnicode

  // ----- the second pass -----

  lemma UnescapeEscape(s: string)
    requires s != "" && s[0] == BACKSLASH
    ensures var (bytes, next) := OneEscape(s[1..]); Unescape(s) == (bytes + Unescape(next).0, Unescape(next).1)
  {
    hide OneEscape;
  }

  /** How far the second pass goes on for one escape, from its backslash; a `\u` skips four characters
      whatever they are, and a high surrogate before another `\u` six more. */
  function EscapeLength(s: string): (n: nat)
    ensures n > 0
  {
    if At(s, 1) != 'u' then 2
    else if IsHigh(Hex4(Drop(s, 2))) && At(s, 6) == BACKSLASH && At(s, 7) == 'u' then 12
    else 6
  }

  lemma EscapeTakes(s: string)
    requires s != "" && s[0] == BACKSLASH
    ensures OneEscape(s[1..]).1 == Drop(s, EscapeLength(s))
  {
    hide Hex4, Utf8, Pair;
    if At(s, 1) == 'u' {
      assert s[1..][0] == 'u' && s[1..][1..] == s[2..] == Drop(s, 2);
      assert Drop(s[2..], 4) == Drop(s, 6) && Drop(Drop(s, 6), 6) == Drop(s, 12);
      assert At(Drop(s, 6), 0) == At(s, 6) && At(Drop(s, 6), 1) == At(s, 7);
    } else {
      assert Drop(s[1..], 1) == Drop(s, 2);
    }
  }

  /** No escape is cut off by the end, up to the quote at which the second pass stops. */
  predicate Inside(s: string)
    decreases |s|
  {
    if s == "" || s[0] == QUOTE then true
    else if s[0] != BACKSLASH then Inside(s[1..])
    else EscapeLength(s) <= |s| && Inside(s[EscapeLength(s)..])
  }

  /** What the first pass goes through: no quote outside an escape, and no escape cut off. */
  predicate Body(b: string)
    decreases |b|
  {
    if b == "" then true
    else if b[0] == BACKSLASH then |b| >= 2 && Body(b[2..])
    else b[0] != QUOTE && Body(b[1..])
  }

  /** A text after a body: the closing quote and anything. */
  function Closing(rest: string): string {
    "\"" + rest
  }

  lemma {:induction false} BodyMeasured(b: string, rest: string)
    requires Body(b)
    ensures SkipLength(b + Closing(rest)) == SkipLength(b)
    decreases |b|
  {
    var s := b + Closing(rest);
    if b == "" {
      assert s[0] == QUOTE;
    } else if b[0] == BACKSLASH {
      assert Drop(s, 2) == b[2..] + Closing(rest) && Drop(b, 2) == b[2..];
      BodyMeasured(b[2..], rest);
    } else {
      assert s[1..] == b[1..] + Closing(rest);
      BodyMeasured(b[1..], rest);
    }
  }

  /** The closing quote cuts an escape off no differently than the end of the text. */
  lemma LengthStays(b: string, rest: string)
    requires b != ""
    ensures EscapeLength(b + Closing(rest)) == EscapeLength(b)
  {
    var s := b + Closing(rest);
    assert forall k: nat :: k < |b| ==> At(s, k) == At(b, k);
    assert At(s, |b|) == QUOTE && At(b, |b|) == NUL && At(b, |b| + 1) == NUL;
    if At(b, 1) == 'u' {
      assert forall k: nat :: At(Drop(b, 2), k) == At(b, k + 2);
      assert forall k: nat :: At(Drop(s, 2), k) == At(s, k + 2);
      hide Nibbles;
      if |b| < 6 {
        assert HexValue(At(s, |b|)) < 0 && HexValue(At(b, |b|)) < 0;
        assert Hex4(Drop(s, 2)) == 0 && Hex4(Drop(b, 2)) == 0;
      }
    }
  }

  // ----- what the first pass counts from any position -----

  /** The units of the first pass that start at a position or after it; one that the position cuts counts. */
  function Units(b: string, p: nat): nat
    requires Body(b) && p <= |b|
    decreases |b|
  {
    if p == 0 then SkipLength(b)
    else if b[0] != BACKSLASH then Units(b[1..], p - 1)
    else if p == 1 then 1 + SkipLength(b[2..])
    else Units(b[2..], p - 2)
  }

  lemma {:induction false} UnitsStep(b: string, p: nat)
    requires Body(b) && p < |b|
    ensures Units(b, p + 1) <= Units(b, p)
    ensures b[p] != BACKSLASH && b[p] != QUOTE ==> Units(b, p) == 1 + Units(b, p + 1)
    ensures b[p] == BACKSLASH && p + 2 <= |b| ==> 1 + Units(b, p + 2) <= Units(b, p)
    decreases |b|
  {
    if b[0] != BACKSLASH {
      if p > 0 {
        UnitsStep(b[1..], p - 1);
      }
    } else {
      assert Drop(b, 2) == b[2..];
      if p >= 2 {
        UnitsStep(b[2..], p - 2);
      } else if p == 1 && |b| > 2 {
        UnitsStep(b[2..], 0);
      }
    }
  }

  lemma {:induction false} UnitsFall(b: string, p: nat, q: nat)
    requires Body(b) && p <= q <= |b|
    ensures Units(b, q) <= Units(b, p)
    decreases q - p
  {
    if p < q {
      UnitsStep(b, p);
      UnitsFall(b, p + 1, q);
    }
  }

  lemma {:induction false} PlainUnits(b: string, p: nat, n: nat)
    requires Body(b) && p + n <= |b|
    requires forall k :: p <= k < p + n ==> b[k] != BACKSLASH && b[k] != QUOTE
    ensures Units(b, p) == n + Units(b, p + n)
    decreases n
  {
    if n > 0 {
      UnitsStep(b, p);
      PlainUnits(b, p + 1, n - 1);
    }
  }

  /** An escape yields one byte, or as a `\u` none or at most four, and then it has its four digits. */
  lemma EscapeYields(s: string)
    requires |s| >= 2 && s[0] == BACKSLASH
    ensures s[1] != 'u' ==> |OneEscape(s[1..]).0| == 1
    ensures s[1] == 'u' ==> OneEscape(s[1..]).0 == "" || (|OneEscape(s[1..]).0| <= 4 && HexQuad(s[2..]))
  {
    assert s[1..][0] == s[1] && s[1..][1..] == s[2..];
    if s[1] == 'u' {
      EscapeIsUnicode(s[1..]);
      hide OneEscape;
      QuadOrNothing(s[2..]);
      hide UnicodeEscape, HexQuad;
    } else {
      PlainEscape(s[1..]);
      hide OneEscape;
    }
  }

  lemma QuadOrNothing(s: string)
    ensures var bytes := UnicodeEscape(s).0; bytes == "" || (|bytes| <= 4 && HexQuad(s))
  {
    hide Nibbles, Pair, Shift6, Or, Low6, Byte;
  }

  lemma LengthIs(s: string)
    ensures At(s, 1) != 'u' ==> EscapeLength(s) == 2
    ensures At(s, 1) == 'u' ==> 6 <= EscapeLength(s) <= 12
  {
  }

  /** What the second pass takes for an escape inside the body. */
  lemma EscapeInside(b: string, rest: string)
    requires b != "" && b[0] == BACKSLASH && EscapeLength(b) <= |b|
    ensures var s, n := b + Closing(rest), EscapeLength(b);
      && |b| >= 2 && OneEscape(s[1..]).1 == b[n..] + Closing(rest)
      && (b[1] != 'u' ==> n == 2 && |OneEscape(s[1..]).0| == 1)
      && (b[1] == 'u' ==> n >= 6 && (OneEscape(s[1..]).0 == "" || (|OneEscape(s[1..]).0| <= 4 && HexQuad(b[2..]))))
  {
    var s, n := b + Closing(rest), EscapeLength(b);
    LengthIs(b);
    LengthStays(b, rest);
    EscapeTakes(s);
    EscapeYields(s);
    hide OneEscape, EscapeLength, Closing;
    assert Drop(s, n) == b[n..] + Closing(rest);
    if HexQuad(s[2..]) && n >= 6 {
      assert forall k :: 0 <= k < 4 ==> s[2..][k] == b[2..][k];
    }
  }

  /** What the first pass counts for what such an escape takes. */
  lemma UnitsTaken(b: string, p: nat, n: nat, bytes: nat)
    requires Body(b) && p + n <= |b| && n >= 2 && b[p] == BACKSLASH
    requires bytes == 0 || (n == 2 && bytes == 1) || (n >= 6 && bytes <= 4 && b[p + 1] == 'u' && HexQuad(b[p..][2..]))
    ensures bytes + Units(b, p + n) <= Units(b, p)
  {
    UnitsStep(b, p);
    if bytes == 0 {
      UnitsFall(b, p, p + n);
    } else if n >= 6 {
      assert forall k :: p + 2 <= k < p + 6 ==> b[k] == b[p..][2..][k - p - 2];
      PlainUnits(b, p + 1, 5);
      UnitsFall(b, p + 6, p + n);
    }
  }

  lemma UnescapePlain(s: string)
    requires s != "" && s[0] != BACKSLASH
    ensures s[0] == QUOTE ==> Unescape(s).0 == ""
    ensures s[0] != QUOTE ==> |Unescape(s).0| == 1 + |Unescape(s[1..]).0|
  {
  }

  lemma InsideTail(s: string)
    requires Inside(s) && s != "" && s[0] != QUOTE
    ensures s[0] != BACKSLASH ==> Inside(s[1..])
    ensures s[0] == BACKSLASH ==> EscapeLength(s) <= |s| && Inside(s[EscapeLength(s)..])
  {
  }

  /** The second pass from a position on yields no more than the first pass counts from there. */
  lemma {:induction false} SecondPassFits(b: string, p: nat, rest: string)
    requires Body(b) && p <= |b| && Inside(b[p..])
    ensures |Unescape(b[p..] + Closing(rest)).0| <= Units(b, p)
    decreases |b| - p
  {
    hide Inside, EscapeLength, Units, HexQuad, Body, OneEscape, Unescape;
    var s := b[p..] + Closing(rest);
    if p == |b| || b[p] == QUOTE {
      UnescapePlain(s);
    } else if b[p] != BACKSLASH {
      InsideTail(b[p..]);
      UnescapePlain(s);
      UnitsStep(b, p);
      assert s[1..] == b[p + 1..] + Closing(rest) && b[p..][1..] == b[p + 1..];
      SecondPassFits(b, p + 1, rest);
    } else {
      var n := EscapeLength(b[p..]);
      InsideTail(b[p..]);
      assert b[p..][n..] == b[p + n..];
      EscapeInside(b[p..], rest);
      UnescapeEscape(s);
      UnitsTaken(b, p, n, |OneEscape(s[1..]).0|);
      SecondPassFits(b, p + n, rest);
    }
  }

  // ----- past the closing quote -----

  function Xs(n: nat): (r: string)
    ensures |r| == n && forall k :: 0 <= k < n ==> r[k] == 'x'
  {
    seq(n, _ => 'x')
  }

  lemma {:induction false} PlainDecodes(s: string)
    requires forall k :: 0 <= k < |s| ==> s[k] == 'x'
    ensures Unescape(s).0 == s
    decreases |s|
  {
    if s != "" {
      PlainDecodes(s[1..]);
    }
  }

  lemma BehindQuote(b: string, n: nat, k: nat)
    requires |b| < k <= 12 <= n
    ensures |Unescape(Drop(b + Closing(Xs(n)), k)).0| >= n - 11
  {
    assert Drop(b + Closing(Xs(n)), k) == Xs(n)[k - |b| - 1..];
    PlainDecodes(Xs(n)[k - |b| - 1..]);
  }

  /** An escape that is cut off by the closing quote takes it along and goes on behind it. */
  lemma {:induction false} SecondPassRunsOver(b: string, n: nat)
    requires !Inside(b) && n >= 12
    ensures |Unescape(b + Closing(Xs(n))).0| >= n - 11
    decreases |b|
  {
    var s := b + Closing(Xs(n));
    if b[0] != BACKSLASH {
      assert s[1..] == b[1..] + Closing(Xs(n));
      SecondPassRunsOver(b[1..], n);
    } else {
      var k := EscapeLength(b);
      LengthStays(b, Xs(n));
      EscapeTakes(s);
      UnescapeEscape(s);
      hide OneEscape, EscapeLength, Unescape;
      if k <= |b| {
        assert Drop(s, k) == b[k..] + Closing(Xs(n));
        SecondPassRunsOver(b[k..], n);
      } else {
        LengthIs(b);
        BehindQuote(b, n, k);
      }
    }
  }

  /** The decoded text of a body fits its allocation whatever follows the closing quote, if and only if none of
      its escapes is cut off by that quote. */
  lemma DecodedFitsIff(b: string)
    requires Body(b)
    ensures Inside(b) <==>
      forall rest: string :: |Unescape(b + Closing(rest)).0| <= SkipLength(b + Closing(rest))
  {
    if Inside(b) {
      forall rest: string
        ensures |Unescape(b + Closing(rest)).0| <= SkipLength(b + Closing(rest))
      {
        assert b[0..] == b;
        SecondPassFits(b, 0, rest);
        BodyMeasured(b, rest);
      }
    } else {
      var n := SkipLength(b) + 12;
      SecondPassRunsOver(b, n);
      BodyMeasured(b, Xs(n));
    }
  }

  // ----- the two passes in place -----

  /** A buffer that holds a text and its terminator. */
  ghost predicate Text(buf: array<char>, s: string)
    reads buf
  {
    |s| < buf.Length && buf[..|s|] == s && buf[|s|] == NUL && NulFree(s)
  }

  /** Where the first pass steps over the terminator: a backslash comes last. */
  predicate Measured(s: string)
    decreases |s|
  {
    if s == "" || s[0] == QUOTE then true
    else if s[0] == BACKSLASH then |s| >= 2 && Measured(s[2..])
    else Measured(s[1..])
  }

  lemma Rest(s: string, ptr: nat)
    requires ptr < |s|
    ensures s[ptr..][0] == s[ptr] && s[ptr..][1..] == s[ptr + 1..]
    ensures ptr + 2 <= |s| ==> s[ptr..][2..] == s[ptr + 2..] == Drop(s[ptr..], 2)
    ensures forall k: nat :: ptr + k < |s| ==> At(s[ptr..], k) == s[ptr + k]
    ensures forall k: nat :: ptr + k >= |s| ==> At(s[ptr..], k) == NUL
  {
  }

  /** The first pass, which goes over the character behind a backslash whatever it is. */
  method FirstPass(text: array<char>, ghost s: string, from: nat) returns (overrun: bool, len: nat)
    requires Text(text, s) && from <= |s|
    ensures overrun <==> !Measured(s[from..])
    ensures !overrun ==> len == SkipLength(s[from..])
  {
    var ptr := from;
    len := 0;
    while text[ptr] != QUOTE && text[ptr] != NUL
      invariant ptr <= |s| && Measured(s[ptr..]) == Measured(s[from..])
      invariant len + SkipLength(s[ptr..]) == SkipLength(s[from..])
      decreases |s| - ptr
    {
      Rest(s, ptr);
      len := len + 1;
      if text[ptr] == BACKSLASH {
        if text[ptr + 1] == NUL {
          return true, len;
        }
        ptr := ptr + 2;
      } else {
        ptr := ptr + 1;
      }
    }
    overrun := false;
  }

  lemma Hex4Is(s: string)
    ensures var a, b, c, d := HexValue(At(s, 0)), HexValue(At(s, 1)), HexValue(At(s, 2)), HexValue(At(s, 3));
      Hex4(s) == if a < 0 || b < 0 || c < 0 || d < 0 then 0 else Nibbles(a, b, c, d)
  {
    hide Nibbles, HexValue;
  }

  /** `parse_hex4`: it stops at the first character that is no digit. */
  method ReadHex4(text: array<char>, ghost s: string, at: nat) returns (h: bv32)
    requires Text(text, s) && at <= |s|
    ensures h == Hex4(s[at..])
  {
    ghost var t := s[at..];
    Hex4Is(t);
    hide Hex4, Nibbles, HexValue;
    assert forall k: nat :: k < |t| ==> text[at + k] == t[k];
    var a := HexValue(text[at]);
    if a < 0 {
      return 0;
    }
    var b := HexValue(text[at + 1]);
    if b < 0 {
      return 0;
    }
    var c := HexValue(text[at + 2]);
    if c < 0 {
      return 0;
    }
    var d := HexValue(text[at + 3]);
    return if d < 0 then 0 else Nibbles(a, b, c, d);
  }

  /** The `switch` that writes a code point from its last byte to its first. */
  method WriteUtf8(out: array<char>, at: nat, code: bv32) returns (len: nat)
    requires at + |Utf8(code)| <= out.Length
    modifies out
    ensures len == |Utf8(code)| && forall k :: 0 <= k < len ==> out[at + k] == Utf8(code)[k]
    ensures forall k :: 0 <= k < at ==> out[k] == old(out[k])
  {
    OrNothing(code);
    hide Byte, Low6, Or, Shift6;
    len := if code < 0x80 then 1 else if code < 0x800 then 2 else if code < 0x10000 then 3 else 4;
    assert |Utf8(code)| == len;
    var uc, ptr2 := code, at + len;
    if len == 4 {
      out[ptr2 - 1], uc, ptr2 := Byte(Low6(uc)), Shift6(uc), ptr2 - 1;
    }
    if len >= 3 {
      out[ptr2 - 1], uc, ptr2 := Byte(Low6(uc)), Shift6(uc), ptr2 - 1;
    }
    if len >= 2 {
      out[ptr2 - 1], uc, ptr2 := Byte(Low6(uc)), Shift6(uc), ptr2 - 1;
    }
    out[ptr2 - 1] := Byte(Or(uc, FirstByteMark(len)));
  }

  /** `firstByteMark` */
  function FirstByteMark(len: nat): bv32
    requires 1 <= len <= 4
  {
    if len == 1 then 0 else if len == 2 then 0xC0 else if len == 3 then 0xE0 else 0xF0
  }

  lemma OrNothing(x: bv32)
    ensures Or(x, 0) == x
  {
  }

  /** The bytes of a `\u` escape and how far it goes, from its backslash. */
  lemma UnicodeIs(s: string)
    requires |s| >= 2 && s[0] == BACKSLASH && s[1] == 'u'
    ensures var uc, uc2 := Hex4(Drop(s, 2)), Hex4(Drop(s, 8));
      && (IsLow(uc) || uc == 0 ==> OneEscape(s[1..]).0 == "" && EscapeLength(s) == 6)
      && (uc != 0 && !IsLow(uc) && !IsHigh(uc) ==> OneEscape(s[1..]).0 == Utf8(uc) && EscapeLength(s) == 6)
      && (IsHigh(uc) && (At(s, 6) != BACKSLASH || At(s, 7) != 'u') ==>
            OneEscape(s[1..]).0 == "" && EscapeLength(s) == 6)
      && (IsHigh(uc) && At(s, 6) == BACKSLASH && At(s, 7) == 'u' ==>
            OneEscape(s[1..]).0 == (if IsLow(uc2) then Utf8(Pair(uc, uc2)) else "") && EscapeLength(s) == 12)
  {
    assert s[1..][0] == 'u' && s[1..][1..] == s[2..] == Drop(s, 2);
    assert Drop(s[2..], 4) == Drop(s, 6) && Drop(Drop(s, 6), 2) == Drop(s, 8);
    assert At(Drop(s, 6), 0) == At(s, 6) && At(Drop(s, 6), 1) == At(s, 7);
    EscapeIsUnicode(s[1..]);
    hide OneEscape, Hex4, Utf8, Pair, Drop, At;
  }

  /** Whether going on by n characters steps over the terminator; the C code does not look. */
  method StepsOver(text: array<char>, ghost s: string, at: nat, n: nat) returns (over: bool)
    requires Text(text, s) && at <= |s|
    ensures over <==> at + n > |s|
  {
    for i := 0 to n
      invariant at + i <= |s|
    {
      if text[at + i] == NUL {
        return true;
      }
    }
    return false;
  }

  /** `case 'u'` up to the writing: the code point, 0 when there is none to write, and where the escape ends. */
  method ReadCode(text: array<char>, ghost s: string, ptr: nat) returns (overrun: bool, code: bv32, next: nat)
    requires Text(text, s) && ptr + 1 < |s| && s[ptr] == BACKSLASH && s[ptr + 1] == 'u'
    ensures overrun <==> ptr + EscapeLength(s[ptr..]) > |s|
    ensures !overrun ==>
      && next == ptr + EscapeLength(s[ptr..])
      && OneEscape(s[ptr..][1..]).0 == if code == 0 then "" else Utf8(code)
  {
    Rest(s, ptr);
    UnicodeIs(s[ptr..]);
    hide Hex4, Utf8, Pair, OneEscape, EscapeLength, IsLow;
    next := ptr + 6;
    code := ReadHex4(text, s, ptr + 2);
    overrun := StepsOver(text, s, ptr + 2, 4);
    if overrun || code == 0 || IsLow(code) {
      return overrun, 0, next;
    }
    if IsHigh(code) {
      if text[next] != BACKSLASH || text[next + 1] != 'u' {
        return false, 0, next;
      }
      var low := ReadHex4(text, s, next + 2);
      overrun := StepsOver(text, s, next, 6);
      PairIsNotZero(code, low);
      return overrun, if IsLow(low) then Pair(code, low) else 0, next + 6;
    }
  }

  lemma PairIsNotZero(high: bv32, low: bv32)
    ensures Pair(high, low) != 0
  {
  }

  /** The byte of an escape other than `\u` */
  function EscapedChar(c: char): char {
    match c
    case 'b' => BACKSPACE
    case 'f' => FORMFEED
    case 'n' => '\n'
    case 'r' => '\r'
    case 't' => '\t'
    case _ => c
  }

  lemma PlainIs(s: string)
    requires |s| >= 2 && s[0] == BACKSLASH && s[1] != 'u'
    ensures OneEscape(s[1..]).0 == [EscapedChar(s[1])] && EscapeLength(s) == 2
  {
    assert s[1..][0] == s[1] && At(s[1..], 0) == s[1];
    hide UnicodeEscape, Hex4;
  }

  /** `case 'u'` from the writing on */
  method PutCode(out: array<char>, size: nat, code: bv32) returns (overrun: bool, end: nat)
    requires size <= out.Length
    modifies out
    ensures var bytes := if code == 0 then "" else Utf8(code);
      && (overrun <==> size + |bytes| > out.Length)
      && (!overrun ==> end == size + |bytes| && out[..end] == old(out[..size]) + bytes)
  {
    hide Utf8;
    if code == 0 {
      NothingLeft(out[..size]);
      return false, size;
    }
    if size + |Utf8(code)| > out.Length {
      return true, size;
    }
    var len := WriteUtf8(out, size, code);
    return false, size + len;
  }

  method PutChar(out: array<char>, size: nat, c: char) returns (overrun: bool, end: nat)
    requires size <= out.Length
    modifies out
    ensures overrun <==> size + 1 > out.Length
    ensures !overrun ==> end == size + 1 && out[..end] == old(out[..size]) + [c]
  {
    if size == out.Length {
      return true, size;
    }
    out[size] := c;
    return false, size + 1;
  }

  /** One turn of the second pass at a backslash: `ptr++`, the `switch`, `ptr++`. */
  method ReadEscape(text: array<char>, ghost s: string, ptr: nat, out: array<char>, size: nat)
    returns (overrun: bool, next: nat, end: nat)
    requires Text(text, s) && ptr < |s| && s[ptr] == BACKSLASH
    requires out != text && size <= out.Length
    modifies out
    ensures var bytes, n := OneEscape(s[ptr..][1..]).0, EscapeLength(s[ptr..]);
      && (overrun <==> ptr + n > |s| || size + |bytes| > out.Length)
      && (!overrun ==> next == ptr + n && end == size + |bytes| && out[..end] == old(out[..size]) + bytes)
  {
    Rest(s, ptr);
    next, end := ptr + 2, size;
    var c := text[ptr + 1];
    if c == NUL {
      LengthIs(s[ptr..]);
      return true, next, end;
    }
    hide OneEscape, EscapeLength, Utf8;
    if c == 'u' {
      var code;
      overrun, code, next := ReadCode(text, s, ptr);
      if !overrun {
        overrun, end := PutCode(out, size, code);
      }
    } else {
      PlainIs(s[ptr..]);
      overrun, end := PutChar(out, size, EscapedChar(c));
    }
  }

  /** The second pass: it decodes up to the quote, which it takes, and ends the result. */
  method SecondPass(text: array<char>, ghost s: string, from: nat, out: array<char>)
    returns (overrun: bool, next: nat)
    requires Text(text, s) && from <= |s| && out != text
    modifies out
    ensures var (t, rest) := Unescape(s[from..]);
      && (overrun <==> !Inside(s[from..]) || |t| >= out.Length)
      && (!overrun ==> next <= |s| && s[next..] == rest && out[..|t|] == t && out[|t|] == NUL)
  {
    hide Inside, Unescape, OneEscape, EscapeLength;
    ghost var all := Unescape(s[from..]);
    var ptr: nat, size: nat := from, 0;
    NothingLeft(all.0);
    while text[ptr] != QUOTE && text[ptr] != NUL
      invariant ptr <= |s| && size <= out.Length && Inside(s[ptr..]) == Inside(s[from..])
      invariant out[..size] + Unescape(s[ptr..]).0 == all.0 && Unescape(s[ptr..]).1 == all.1
      decreases |s| - ptr
    {
      ghost var was := out[..size];
      if text[ptr] != BACKSLASH {
        PlainTurn(s, ptr);
        overrun, size := PutChar(out, size, text[ptr]);
        if overrun {
          return true, ptr;
        }
        Associative(was, [s[ptr]], Unescape(s[ptr + 1..]).0);
        ptr := ptr + 1;
      } else {
        EscapeTurn(s, ptr);
        var end;
        overrun, next, end := ReadEscape(text, s, ptr, out, size);
        if overrun {
          return;
        }
        Associative(was, OneEscape(s[ptr..][1..]).0, Unescape(s[next..]).0);
        ptr, size := next, end;
      }
    }
    PassEnds(s, ptr);
    NothingLeft(out[..size]);
    if size == out.Length {
      return true, ptr;
    }
    out[size] := NUL;
    return false, if text[ptr] == QUOTE then ptr + 1 else ptr;
  }

  lemma PlainTurn(s: string, ptr: nat)
    requires ptr < |s| && s[ptr] != QUOTE && s[ptr] != BACKSLASH
    ensures Inside(s[ptr..]) == Inside(s[ptr + 1..])
    ensures Unescape(s[ptr..]) == ([s[ptr]] + Unescape(s[ptr + 1..]).0, Unescape(s[ptr + 1..]).1)
  {
    Rest(s, ptr);
  }

  lemma EscapeTurn(s: string, ptr: nat)
    requires ptr < |s| && s[ptr] == BACKSLASH
    ensures var (bytes, next) := OneEscape(s[ptr..][1..]);
      var n := EscapeLength(s[ptr..]);
      && Unescape(s[ptr..]) == (bytes + Unescape(next).0, Unescape(next).1)
      && (ptr + n > |s| ==> !Inside(s[ptr..]))
      && (ptr + n <= |s| ==> next == s[ptr + n..] && Inside(s[ptr..]) == Inside(s[ptr + n..]))
  {
    var t, n := s[ptr..], EscapeLength(s[ptr..]);
    UnescapeEscape(t);
    EscapeTakes(t);
    hide OneEscape, EscapeLength, Unescape;
    if ptr + n <= |s| {
      assert t[n..] == s[ptr + n..] == Drop(t, n);
    }
  }

  lemma PassEnds(s: string, ptr: nat)
    requires ptr <= |s| && (ptr < |s| ==> s[ptr] == QUOTE)
    ensures Inside(s[ptr..]) && Unescape(s[ptr..]) == ("", s[if ptr < |s| then ptr + 1 else ptr..])
  {
    if ptr < |s| {
      Rest(s, ptr);
    }
  }

  /** What becomes of a string: decoded, with the index behind it, refused, or read or written out of bounds. */
  datatype Outcome = Decoded(out: array<char>, next: nat) | NoString | Overrun

  /** Neither pass steps over the terminator, and the decoded text fits its allocation. */
  predicate InBounds(s: string) {
    Measured(s) && Inside(s) && |Unescape(s).0| <= SkipLength(s)
  }

  /** `parse_string` on the characters themselves. It leaves its text or its allocation exactly when it is not in
      bounds, and otherwise decodes what it should. */
  method ParseStringInPlace(text: array<char>, ghost s: string, from: nat) returns (r: Outcome)
    requires Text(text, s) && from <= |s|
    ensures r.NoString? <==> At(s[from..], 0) != QUOTE
    ensures At(s[from..], 0) == QUOTE ==> (r.Overrun? <==> !InBounds(s[from + 1..]))
    ensures r.Decoded? ==>
      var (t, rest) := Unescape(s[from + 1..]);
      && fresh(r.out) && |t| < r.out.Length && r.out[..|t|] == t && r.out[|t|] == NUL
      && r.next <= |s| && s[r.next..] == rest
  {
    if text[from] != QUOTE {
      return NoString;
    }
    hide Measured, Inside, Unescape, SkipLength;
    var overrun, len := FirstPass(text, s, from + 1);
    if overrun {
      return Overrun;
    }
    var out := new char[len + 1];
    var next;
    overrun, next := SecondPass(text, s, from + 1, out);
    return if overrun then Overrun else Decoded(out, next);
  }

  // ----- printed strings -----

  lemma {:induction false} PlainMeasured(a: string, t: string)
    requires forall k :: 0 <= k < |a| ==> a[k] != BACKSLASH && a[k] != QUOTE
    ensures Measured(a + t) == Measured(t) && SkipLength(a + t) == |a| + SkipLength(t)
    decreases |a|
  {
    if a == "" {
      NothingLeft(t);
    } else {
      assert (a + t)[1..] == a[1..] + t;
      PlainMeasured(a[1..], t);
    }
  }

  lemma EscapedMeasured(c: char, t: string)
    ensures Measured(Escape(c) + t) == Measured(t) && SkipLength(Escape(c) + t) > SkipLength(t)
  {
    var s := Escape(c) + t;
    EscapeShape(c);
    if |Escape(c)| == 1 {
      PlainMeasured(Escape(c), t);
    } else {
      var more := Escape(c)[2..];
      hide Escape;
      assert s[2..] == more + t && Drop(s, 2) == s[2..] && s[0] == BACKSLASH;
      PlainMeasured(more, t);
    }
  }

  lemma EscapedInside(c: char, t: string)
    requires c != NUL && t != ""
    ensures Inside(Escape(c) + t) == Inside(t)
  {
    var s := Escape(c) + t;
    EscapeShape(c);
    if |Escape(c)| == 1 {
      assert s[1..] == t;
    } else {
      OneEscapeUndone(c, t);
      EscapeTakes(s);
      hide Escape, EscapeLength, OneEscape;
      assert s[EscapeLength(s)..] == t;
    }
  }

  /** What `print_string_ptr` prints is read within bounds, whatever follows. */
  lemma {:induction false} PrintedInBounds(s: string, rest: string)
    requires NulFree(s)
    ensures InBounds(EscapeAll(s) + Closing(rest))
    decreases |s|
  {
    PrintedStays(s, rest);
    UnescapeUndoesEscape(s, rest);
  }

  lemma {:induction false} PrintedStays(s: string, rest: string)
    requires NulFree(s)
    ensures var t := EscapeAll(s) + Closing(rest); Measured(t) && Inside(t) && |s| <= SkipLength(t)
    decreases |s|
  {
    if s != "" {
      var t := EscapeAll(s[1..]) + Closing(rest);
      Associative(Escape(s[0]), EscapeAll(s[1..]), Closing(rest));
      PrintedStays(s[1..], rest);
      EscapedMeasured(s[0], t);
      EscapedInside(s[0], t);
      hide Escape, Measured, Inside, SkipLength;
    }
  }
}
