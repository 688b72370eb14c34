/** The loops of the cJSON parser. A pointer into the text is the text from there on.
    Source: lib/cJSON.c. */
module JsonReader {
  import opened Chars
  import opened Decimals
  import opened Sequences
  import opened JsonText
  import opened JsonParser

  /** `skip` */
  method SkipSpace(s: string) returns (p: string)
    ensures p == Skip(s)
  {
    p := s;
    while |p| > 0 && NUL < p[0] <= ' '
      invariant Skip(p) == Skip(s)
      decreases |p|
    {
      p := p[1..];
    }
  }

  /** `parse_string`: the loop that decodes up to the closing quote. */
  method ReadString(str: string) returns (r: Parsed<string>)
    ensures r == ParseString(str)
  {
    if At(str, 0) != QUOTE {
      return Failed;
    }
    var ptr, out := str[1..], "";
    ghost var all := Unescape(ptr);
    NothingLeft(all.0);
    while |ptr| > 0 && ptr[0] != QUOTE
      invariant all == (out + Unescape(ptr).0, Unescape(ptr).1)
      decreases |ptr|
    {
      ghost var was := out;
      if ptr[0] != BACKSLASH {
        out, ptr := out + [ptr[0]], ptr[1..];
        Associative(was, [out[|was|]], Unescape(ptr).0);
      } else {
        var (bytes, next) := OneEscape(ptr[1..]);
        Associative(was, bytes, Unescape(next).0);
        out, ptr := out + bytes, next;
      }
    }
    NothingLeft(out);
    return Got(out, if |ptr| > 0 then ptr[1..] else ptr);
  }

  /** A run of digits, read on to a number. */
  method ReadDigits(before: nat, s: string) returns (n: nat, count: nat, rest: string)
    ensures count == DigitCount(s) && rest == s[count..] && n == Value(before, s[..count])
  {
    n, count, rest := before, 0, s;
    while |rest| > 0 && IsDigit(rest[0])
      invariant count + DigitCount(rest) == DigitCount(s) && rest == s[count..]
      invariant Value(n, rest[..DigitCount(rest)]) == Value(before, s[..DigitCount(s)])
      decreases |rest|
    {
      var digits := rest[..DigitCount(rest)];
      assert digits[1..] == rest[1..][..DigitCount(rest[1..])];
      n, count, rest := n * 10 + (rest[0] as int - '0' as int), count + 1, rest[1..];
    }
    assert rest[..0] == "";
  }

  /** `parse_number`: the number before a dot. */
  method ReadWhole(num: string) returns (n: nat, rest: string)
    ensures (n, rest) == Whole(num)
  {
    n, rest := 0, num;
    if At(rest, 0) == '0' {
      rest := rest[1..];
    }
    if '1' <= At(rest, 0) <= '9' {
      var count: int;
      n, count, rest := ReadDigits(n, rest);
    }
  }

  /** `parse_number`: the digits after a dot, which move the scale down. */
  method ReadFraction(before: nat, num: string) returns (n: nat, scale: int, rest: string)
    ensures (n, -scale, rest) == Fraction(before, num)
  {
    n, scale, rest := before, 0, num;
    if At(rest, 0) == '.' && IsDigit(At(rest, 1)) {
      var count: int;
      n, count, rest := ReadDigits(n, rest[1..]);
      scale := -count;
    }
  }

  /** `parse_number`: the exponent and its sign. */
  method ReadExponent(num: string) returns (subscale: nat, signsubscale: int, rest: string)
    ensures (subscale * signsubscale, rest) == Exponent(num)
  {
    subscale, signsubscale, rest := 0, 1, num;
    if At(rest, 0) == 'e' || At(rest, 0) == 'E' {
      rest := rest[1..];
      if At(rest, 0) == '+' {
        rest := rest[1..];
      } else if At(rest, 0) == '-' {
        signsubscale, rest := -1, rest[1..];
      }
      assert rest == Drop(num, if At(num, 1) == '+' || At(num, 1) == '-' then 2 else 1);
      var count: int;
      subscale, count, rest := ReadDigits(0, rest);
    }
  }

  /** `parse_number` */
  method ReadNumber(num: string) returns (v: real, rest: string)
    ensures (v, rest) == ParseNumber(num)
  {
    hide Whole, Fraction, Exponent;
    var sign := 1.0;
    rest := num;
    if At(rest, 0) == '-' {
      sign, rest := -1.0, rest[1..];
    }
    var n, scale, subscale, signsubscale;
    n, rest := ReadWhole(rest);
    n, scale, rest := ReadFraction(n, rest);
    subscale, signsubscale, rest := ReadExponent(rest);
    v := sign * n as real * Pow10(scale + subscale * signsubscale);
  }

  /** `parse_value` */
  method ReadValue(value: string) returns (r: Parsed<Json>)
    ensures r == ParseValue(value)
    decreases |value|, 0
  {
    if Starts(value, "null") {
      return Got(Null, value[4..]);
    }
    if Starts(value, "false") {
      return Got(False, value[5..]);
    }
    if Starts(value, "true") {
      return Got(True, value[4..]);
    }
    if At(value, 0) == QUOTE {
      var s := ReadString(value);
      match s {
        case Got(t, rest) => return Got(Str(t), rest);
        case Failed => return Failed;
      }
    }
    if At(value, 0) == '-' || IsDigit(At(value, 0)) {
      var v, rest := ReadNumber(value);
      return Got(Number(v), rest);
    }
    if At(value, 0) == '[' {
      r := ReadArray(value[1..]);
    } else if At(value, 0) == '{' {
      r := ReadObject(value[1..]);
    } else {
      r := Failed;
    }
  }

  /** `parse_array` */
  method ReadArray(s: string) returns (r: Parsed<Json>)
    ensures r == ParseArray(s)
    decreases |s|, 1
  {
    var value := SkipSpace(s);
    if At(value, 0) == ']' {
      return Got(Array([]), value[1..]);
    }
    var start := SkipSpace(value);
    var child := ReadValue(start);
    if child.Failed? {
      return Failed;
    }
    var items := [child.value];
    value := SkipSpace(child.rest);
    while At(value, 0) == ','
      invariant |value| < |s|
      invariant ParseItems(items, value) == ParseArray(s)
      decreases |value|
    {
      start := SkipSpace(value[1..]);
      child := ReadValue(start);
      if child.Failed? {
        return Failed;
      }
      items := items + [child.value];
      value := SkipSpace(child.rest);
    }
    return if At(value, 0) == ']' then Got(Array(items), value[1..]) else Failed;
  }

  /** The name, the colon and the value of a member. */
  method ReadMember(s: string) returns (r: Parsed<Member>)
    ensures r == ParseMember(s)
    decreases |s|, 1
  {
    var name := ReadString(s);
    if name.Failed? {
      return Failed;
    }
    var value := SkipSpace(name.rest);
    if At(value, 0) != ':' {
      return Failed;
    }
    var start := SkipSpace(value[1..]);
    var child := ReadValue(start);
    if child.Failed? {
      return Failed;
    }
    value := SkipSpace(child.rest);
    return Got(Member(name.value, child.value), value);
  }

  /** `parse_object` */
  method ReadObject(s: string) returns (r: Parsed<Json>)
    ensures r == ParseObject(s)
    decreases |s|, 2
  {
    var value := SkipSpace(s);
    if At(value, 0) == '}' {
      return Got(Object([]), value[1..]);
    }
    var start := SkipSpace(value);
    var child := ReadMember(start);
    if child.Failed? {
      return Failed;
    }
    var members := [child.value];
    value := child.rest;
    while At(value, 0) == ','
      invariant |value| < |s|
      invariant ParseMembers(members, value) == ParseObject(s)
      decreases |value|
    {
      start := SkipSpace(value[1..]);
      child := ReadMember(start);
      if child.Failed? {
        return Failed;
      }
      members := members + [child.value];
      value := child.rest;
    }
    return if At(value, 0) == '}' then Got(Object(members), value[1..]) else Failed;
  }
}
