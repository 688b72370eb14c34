/** The cJSON parser: what each `parse_` function takes from the front of a text.
    Source: lib/cJSON.c, section 7 of RFC 8259, section 3 of RFC 3629. */
module JsonParser {
  import opened Chars
  import opened Decimals
  import opened JsonText

  /** A value and the text after it, or a null pointer. */
  datatype Parsed<T> = Got(value: T, rest: string) | Failed

  function At(s: string, i: nat): char {
    if i < |s| then s[i] else NUL
  }

  function Drop(s: string, n: nat): (r: string)
    ensures |r| <= |s|
  {
    if n <= |s| then s[n..] else ""
  }

  /** `skip` */
  function Skip(s: string): (r: string)
    ensures |r| <= |s|
  {
    if s != "" && NUL < s[0] <= ' ' then Skip(s[1..]) else s
  }

  // ----- numbers -----

  function DigitCount(s: string): (n: nat)
    ensures n <= |s|
    ensures forall k :: 0 <= k < n ==> '0' <= s[k] <= '9'
    ensures n < |s| ==> !IsDigit(s[n])
  {
    if s != "" && IsDigit(s[0]) then 1 + DigitCount(s[1..]) else 0
  }

  function Pow10(k: int): real
    decreases if k < 0 then -k else k
  {
    if k == 0 then 1.0 else if k > 0 then 10.0 * Pow10(k - 1) else Pow10(k + 1) / 10.0
  }

  /** The exponent that `parse_number` reads: its value, and the rest. */
  function Exponent(s: string): (r: (int, string))
    ensures |r.1| <= |s|
  {
    if At(s, 0) == 'e' || At(s, 0) == 'E' then
      var signed := At(s, 1) == '+' || At(s, 1) == '-';
      var t := Drop(s, if signed then 2 else 1);
      var d := DigitCount(t);
      var e: int := Value(0, t[..d]);
      (if At(s, 1) == '-' then -e else e, t[d..])
    else (0, s)
  }

  /** The digits before a dot: a leading zero is skipped, and a second one ends them. */
  function Whole(s: string): (r: (nat, string))
    ensures |r.1| <= |s|
    ensures IsDigit(At(s, 0)) ==> |r.1| < |s|
  {
    var t := if At(s, 0) == '0' then s[1..] else s;
    var d := if '1' <= At(t, 0) <= '9' then DigitCount(t) else 0;
    (Value(0, t[..d]), t[d..])
  }

  /** The digits after a dot, read on to the number before it: the number, how many, and the rest. */
  function Fraction(n: nat, s: string): (r: (nat, nat, string))
    ensures |r.2| <= |s|
  {
    var f := if At(s, 0) == '.' then DigitCount(s[1..]) else 0;
    if f == 0 then (n, 0, s) else (Value(n, s[1..][..f]), f, s[1..][f..])
  }

  /** `parse_number` */
  function ParseNumber(s: string): (r: (real, string))
    ensures |r.1| <= |s|
    ensures At(s, 0) == '-' || IsDigit(At(s, 0)) ==> |r.1| < |s|
  {
    var negative := At(s, 0) == '-';
    var (whole, s1) := Whole(if negative then s[1..] else s);
    var (n, f, s2) := Fraction(whole, s1);
    var (e, rest) := Exponent(s2);
    ((if negative then -1.0 else 1.0) * n as real * Pow10(e - f), rest)
  }

  // ----- strings -----

  function HexValue(c: char): int {
    if '0' <= c <= '9' then c as int - '0' as int
    else if 'A' <= c <= 'F' then 10 + c as int - 'A' as int
    else if 'a' <= c <= 'f' then 10 + c as int - 'a' as int
    else -1
  }

  /** `parse_hex4`: 0 when one of the four characters is not a hexadecimal digit. */
  function Hex4(s: string): bv32 {
    var a, b, c, d := HexValue(At(s, 0)), HexValue(At(s, 1)), HexValue(At(s, 2)), HexValue(At(s, 3));
    if a < 0 || b < 0 || c < 0 || d < 0 then 0 else Nibbles(a, b, c, d)
  }

  function Nibbles(a: nat, b: nat, c: nat, d: nat): bv32
    requires a < 16 && b < 16 && c < 16 && d < 16
  {
    Join4(a as bv32, b as bv32, c as bv32, d as bv32)
  }

  function Join4(a: bv32, b: bv32, c: bv32, d: bv32): bv32 {
    (((((a << 4) + b) << 4) + c) << 4) + d
  }

  /** Storing into a `char` keeps eight bits. */
  function Byte(x: bv32): char {
    Low8(x) as int as char
  }

  function Low8(x: bv32): (r: bv32)
    ensures r < 0x100
  {
    x & 0xFF
  }

  /** The bytes written for a code point: the `switch` falls through from the last byte to the first,
      shifting six bits away each time; the first byte gets the mark of its length. */
  function Utf8(uc: bv32): string {
    var uc1 := Shift6(uc);
    var uc2 := Shift6(uc1);
    var uc3 := Shift6(uc2);
    if uc < 0x80 then [Byte(uc)]
    else if uc < 0x800 then [Byte(Or(uc1, 0xC0)), Byte(Low6(uc))]
    else if uc < 0x10000 then [Byte(Or(uc2, 0xE0)), Byte(Low6(uc1)), Byte(Low6(uc))]
    else [Byte(Or(uc3, 0xF0)), Byte(Low6(uc2)), Byte(Low6(uc1)), Byte(Low6(uc))]
  }

  function Shift6(x: bv32): bv32 {
    x >> 6
  }

  function Or(x: bv32, mark: bv32): bv32 {
    x | mark
  }

  /** The low six bits under the mark of a byte that is not the first. */
  function Low6(x: bv32): bv32 {
    (x | 0x80) & 0xBF
  }

  predicate IsHigh(uc: bv32) {
    0xD800 <= uc && uc <= 0xDBFF
  }

  predicate IsLow(uc: bv32) {
    0xDC00 <= uc && uc <= 0xDFFF
  }

  /** The code point of a surrogate pair. */
  function Pair(high: bv32, low: bv32): bv32 {
    0x10000 + (((high & 0x3FF) << 10) | (low & 0x3FF))
  }

  /** A `\u` escape, from the character after the `u`: the bytes it yields and the text after it. */
  function UnicodeEscape(s: string): (r: (string, string))
    ensures |r.1| <= |s|
  {
    var uc, q := Hex4(s), Drop(s, 4);
    if IsLow(uc) || uc == 0 then ("", q)
    else if IsHigh(uc) then
      if At(q, 0) != BACKSLASH || At(q, 1) != 'u' then ("", q)
      else
        var uc2 := Hex4(Drop(q, 2));
        if !IsLow(uc2) then ("", Drop(q, 6)) else (Utf8(Pair(uc, uc2)), Drop(q, 6))
    else (Utf8(uc), q)
  }

  /** The main loop of `parse_string`: the decoded text up to the closing quote, and the rest. */
  function Unescape(s: string): (r: (string, string))
    ensures |r.1| <= |s|
    decreases |s|
  {
    if s == "" then ("", "")
    else if s[0] == QUOTE then ("", s[1..])
    else if s[0] != BACKSLASH then
      var (t, rest) := Unescape(s[1..]);
      ([s[0]] + t, rest)
    else
      var (bytes, next) := OneEscape(s[1..]);
      var (t, rest) := Unescape(next);
      (bytes + t, rest)
  }

  /** One escape, from the character after the backslash. */
  function OneEscape(s: string): (r: (string, string))
    ensures |r.1| <= |s|
  {
    match At(s, 0)
    case 'b' => ([BACKSPACE], s[1..])
    case 'f' => ([FORMFEED], s[1..])
    case 'n' => ("\n", s[1..])
    case 'r' => ("\r", s[1..])
    case 't' => ("\t", s[1..])
    case 'u' => UnicodeEscape(s[1..])
    case c => ([c], Drop(s, 1))
  }

  /** `parse_string` */
  function ParseString(s: string): (r: Parsed<string>)
    ensures r.Got? ==> |r.rest| < |s|
  {
    if At(s, 0) != QUOTE then Failed
    else
      var (t, rest) := Unescape(s[1..]);
      Got(t, rest)
  }

  // ----- values -----

  predicate Starts(s: string, word: string) {
    |word| <= |s| && s[..|word|] == word
  }

  /** `parse_value` */
  function ParseValue(s: string): (r: Parsed<Json>)
    ensures r.Got? ==> |r.rest| < |s|
    decreases |s|, 0
  {
    if Starts(s, "null") then Got(Null, s[4..])
    else if Starts(s, "false") then Got(False, s[5..])
    else if Starts(s, "true") then Got(True, s[4..])
    else if At(s, 0) == QUOTE then
      match ParseString(s)
      case Got(t, rest) => Got(Str(t), rest)
      case Failed => Failed
    else if At(s, 0) == '-' || IsDigit(At(s, 0)) then
      var (v, rest) := ParseNumber(s);
      Got(Number(v), rest)
    else if At(s, 0) == '[' then ParseArray(s[1..])
    else if At(s, 0) == '{' then ParseObject(s[1..])
    else Failed
  }

  /** `parse_array`, after the bracket. */
  function ParseArray(s: string): (r: Parsed<Json>)
    ensures r.Got? ==> |r.rest| < |s|
    decreases |s|, 1
  {
    var s := Skip(s);
    if At(s, 0) == ']' then Got(Array([]), s[1..])
    else
      match ParseValue(Skip(s))
      case Failed => Failed
      case Got(item, rest) => ParseItems([item], Skip(rest))
  }

  /** The loop of `parse_array` over the items after the first. */
  function ParseItems(items: seq<Json>, s: string): (r: Parsed<Json>)
    ensures r.Got? ==> |r.rest| < |s|
    decreases |s|, 1
  {
    if At(s, 0) == ',' then
      match ParseValue(Skip(s[1..]))
      case Failed => Failed
      case Got(item, rest) => ParseItems(items + [item], Skip(rest))
    else if At(s, 0) == ']' then Got(Array(items), s[1..])
    else Failed
  }

  /** One member of an object. */
  function ParseMember(s: string): (r: Parsed<Member>)
    ensures r.Got? ==> |r.rest| < |s|
    decreases |s|, 1
  {
    match ParseString(s)
    case Failed => Failed
    case Got(name, rest) =>
      var rest := Skip(rest);
      if At(rest, 0) != ':' then Failed
      else
        match ParseValue(Skip(rest[1..]))
        case Failed => Failed
        case Got(value, rest) => Got(Member(name, value), Skip(rest))
  }

  /** `parse_object`, after the brace. */
  function ParseObject(s: string): (r: Parsed<Json>)
    ensures r.Got? ==> |r.rest| < |s|
    decreases |s|, 2
  {
    var s := Skip(s);
    if At(s, 0) == '}' then Got(Object([]), s[1..])
    else
      match ParseMember(Skip(s))
      case Failed => Failed
      case Got(member, rest) => ParseMembers([member], rest)
  }

  /** The loop of `parse_object` over the members after the first. */
  function ParseMembers(members: seq<Member>, s: string): (r: Parsed<Json>)
    ensures r.Got? ==> |r.rest| < |s|
    decreases |s|, 2
  {
    if At(s, 0) == ',' then
      match ParseMember(Skip(s[1..]))
      case Failed => Failed
      case Got(member, rest) => ParseMembers(members + [member], rest)
    else if At(s, 0) == '}' then Got(Object(members), s[1..])
    else Failed
  }
}
