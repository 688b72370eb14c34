/** Parsing what was printed gives the tree back. Source: lib/cJSON.c. */
module JsonRoundTrip {
  import opened Chars
  import opened Decimals
  import opened Sequences
  import opened JsonText
  import opened JsonParser

  // ----- strings -----

  lemma HexValueOfDigit(d: nat)
    requires d < 16
    ensures HexValue(HexDigit(d)) == d && HexDigit(d) != NUL && HexDigit(d) != QUOTE
  {
  }

  lemma ControlCode(c: char)
    requires NUL < c <= '\U{001F}'
    ensures var x := Nibbles(0, 0, c as int / 16, c as int % 16); 0 < x && x < 0x20 && Byte(x) == c
  {
    if c as int < 16 {
      LowCode(c as int);
    } else {
      HighCode(c as int - 16);
    }
    hide Nibbles, Byte;
  }

  lemma LowCode(d: nat)
    requires 0 < d < 16
    ensures var x := Nibbles(0, 0, 0, d); 0 < x && x < 0x20 && Byte(x) == d as char
  {
    if d < 8 {
    } else {
    }
  }

  lemma HighCode(d: nat)
    requires d < 16
    ensures var x := Nibbles(0, 0, 1, d); 0 < x && x < 0x20 && Byte(x) == (16 + d) as char
  {
    if d < 8 {
    } else {
    }
  }

  function FourDigits(a: nat, b: nat, c: nat, d: nat): string
    requires a < 16 && b < 16 && c < 16 && d < 16
  {
    [HexDigit(a), HexDigit(b), HexDigit(c), HexDigit(d)]
  }

  lemma Hex4OfDigits(a: nat, b: nat, c: nat, d: nat, rest: string)
    requires a < 16 && b < 16 && c < 16 && d < 16
    ensures Hex4(FourDigits(a, b, c, d) + rest) == Nibbles(a, b, c, d)
    ensures Drop(FourDigits(a, b, c, d) + rest, 4) == rest
  {
    hide Nibbles;
    HexValueOfDigit(a);
    HexValueOfDigit(b);
    HexValueOfDigit(c);
    HexValueOfDigit(d);
    var s := FourDigits(a, b, c, d) + rest;
    assert s[0] == HexDigit(a) && s[1] == HexDigit(b) && s[2] == HexDigit(c) && s[3] == HexDigit(d);
  }

  /** A control character is written as four digits that read back as its code. */
  lemma ControlUndone(c: char, rest: string)
    requires NUL < c <= '\U{001F}'
    ensures UnicodeEscape(FourDigits(0, 0, c as int / 16, c as int % 16) + rest) == ([c], rest)
  {
    Hex4OfDigits(0, 0, c as int / 16, c as int % 16, rest);
    ControlCode(c);
    hide Hex4, Drop, FourDigits, Nibbles, Byte;
  }

  lemma EscapeUndone(c: char, rest: string)
    requires c != NUL
    ensures Unescape(Escape(c) + rest) == ([c] + Unescape(rest).0, Unescape(rest).1)
  {
    var s := Escape(c) + rest;
    if s[0] != BACKSLASH {
      assert s[1..] == rest;
    } else {
      OneEscapeUndone(c, rest);
      assert Unescape(s) == (OneEscape(s[1..]).0 + Unescape(OneEscape(s[1..]).1).0, Unescape(OneEscape(s[1..]).1).1);
    }
  }

  lemma OneEscapeUndone(c: char, rest: string)
    requires c != NUL && Escape(c)[0] == BACKSLASH
    ensures OneEscape((Escape(c) + rest)[1..]) == ([c], rest)
  {
    hide UnicodeEscape;
    var t := (Escape(c) + rest)[1..];
    assert t == Escape(c)[1..] + rest;
    if |Escape(c)| == 2 {
      assert t[1..] == rest;
    } else {
      assert t[1..] == FourDigits(0, 0, c as int / 16, c as int % 16) + rest;
      ControlUndone(c, rest);
    }
  }

  /** `parse_string` undoes `print_string_ptr`. */
  lemma {:induction false} UnescapeUndoesEscape(s: string, rest: string)
    requires NulFree(s)
    ensures Unescape(EscapeAll(s) + ("\"" + rest)) == (s, rest)
    decreases |s|
  {
    if s != "" {
      Associative(Escape(s[0]), EscapeAll(s[1..]), "\"" + rest);
      UnescapeUndoesEscape(s[1..], rest);
      EscapeUndone(s[0], EscapeAll(s[1..]) + ("\"" + rest));
      assert [s[0]] + s[1..] == s;
    } else {
      assert EscapeAll(s) + ("\"" + rest) == "\"" + rest;
    }
  }

  lemma StringRoundTrip(s: string, rest: string)
    requires NulFree(s)
    ensures ParseString(Quoted(s) + rest) == Got(s, rest)
  {
    assert Quoted(s) + rest == "\"" + (EscapeAll(s) + ("\"" + rest)) by {
      Associative("\"" + EscapeAll(s), "\"", rest);
      Associative("\"", EscapeAll(s), "\"" + rest);
    }
    UnescapeUndoesEscape(s, rest);
  }

  // ----- numbers -----

  /** A text that would go on with the number before it. */
  predicate Extends(s: string) {
    IsDigit(At(s, 0)) || At(s, 0) == 'e' || At(s, 0) == 'E' || (At(s, 0) == '.' && IsDigit(At(s, 1)))
  }

  lemma DigitCountIs(s: string, n: nat)
    requires n <= |s| && (forall k :: 0 <= k < n ==> IsDigit(s[k])) && (n < |s| ==> !IsDigit(s[n]))
    ensures DigitCount(s) == n
  {
  }

  lemma WholeIsDecimal(n: nat, rest: string)
    requires !IsDigit(At(rest, 0))
    ensures Whole(Decimal(n) + rest) == (n, rest)
  {
    var s := Decimal(n) + rest;
    ValueOfDecimal(n);
    if n == 0 {
      assert s[1..] == rest;
    } else {
      DigitCountIs(s, |Decimal(n)|);
      assert s[..|Decimal(n)|] == Decimal(n) && s[|Decimal(n)|..] == rest;
    }
  }

  lemma NothingMore(n: nat, rest: string)
    requires !Extends(rest)
    ensures Fraction(n, rest) == (n, 0, rest) && Exponent(rest) == (0, rest)
  {
    if At(rest, 0) == '.' {
      assert At(rest[1..], 0) == At(rest, 1);
    }
  }

  lemma PlainNumber(text: string, m: nat, rest: string)
    requires Whole(text) == (m, rest) && At(text, 0) != '-' && !Extends(rest)
    ensures ParseNumber(text) == (m as real, rest)
  {
    NothingMore(m, rest);
    hide Whole, Fraction, Exponent;
    assert Pow10(0 - 0) == 1.0;
  }

  lemma NegativeNumber(text: string, m: nat, rest: string)
    requires Whole(text) == (m, rest) && !Extends(rest)
    ensures ParseNumber("-" + text) == (-(m as real), rest)
  {
    NothingMore(m, rest);
    assert ("-" + text)[1..] == text;
    hide Whole, Fraction, Exponent;
    assert Pow10(0 - 0) == 1.0;
  }

  lemma NumberRoundTrip(n: int, rest: string)
    requires !Extends(rest)
    ensures ParseNumber(IntText(n) + rest) == (n as real, rest)
  {
    hide Decimal, Whole, ParseNumber;
    if n < 0 {
      WholeIsDecimal(-n, rest);
      NegativeNumber(Decimal(-n) + rest, -n, rest);
      Associative("-", Decimal(-n), rest);
    } else {
      WholeIsDecimal(n, rest);
      PlainNumber(Decimal(n) + rest, n, rest);
    }
  }

  // ----- first characters and blanks -----

  lemma SkipBlanks(blanks: string, s: string)
    requires forall k :: 0 <= k < |blanks| ==> NUL < blanks[k] <= ' '
    ensures Skip(blanks + s) == Skip(s)
    decreases |blanks|
  {
    if blanks != "" {
      SkipBlanks(blanks[1..], s);
      assert (blanks + s)[1..] == blanks[1..] + s;
    } else {
      assert blanks + s == s;
    }
  }

  lemma {:induction false} TabsAreTabs(n: nat)
    ensures forall k :: 0 <= k < n ==> Tabs(n)[k] == '\t'
  {
    if n > 0 {
      TabsAreTabs(n - 1);
    }
  }

  /** How the text of a value can start: this is what `parse_value` looks at. */
  predicate ValueStart(c: char) {
    c in "nft\"-[{" || IsDigit(c)
  }

  lemma PrintStarts(t: Json, depth: nat, fmt: bool, rest: string)
    requires Printable(t)
    ensures
      var s := Print(t, depth, fmt) + rest;
      && ValueStart(At(s, 0)) && Skip(s) == s
      && (t.Str? <==> s[0] == QUOTE) && (t.Array? <==> s[0] == '[') && (t.Object? <==> s[0] == '{')
      && (t.Number? <==> (s[0] == '-' || IsDigit(s[0])))
  {
    if t.Number? {
      assert IntText(t.value.Floor) != "";
    }
  }

  lemma NotStarts(s: string, word: string)
    requires word != "" && At(s, 0) != word[0]
    ensures !Starts(s, word)
  {
  }

  /** A text that starts with none of the three words is parsed by its first character. */
  lemma NoWord(s: string)
    requires At(s, 0) != 'n' && At(s, 0) != 'f' && At(s, 0) != 't'
    ensures !Starts(s, "null") && !Starts(s, "false") && !Starts(s, "true")
  {
    NotStarts(s, "null");
    NotStarts(s, "false");
    NotStarts(s, "true");
  }

  // ----- values -----

  lemma WordRoundTrip(t: Json, depth: nat, fmt: bool, rest: string)
    requires t.Null? || t.False? || t.True?
    ensures ParseValue(Print(t, depth, fmt) + rest) == Got(t, rest)
  {
    var s := Print(t, depth, fmt) + rest;
    assert s[|Print(t, depth, fmt)|..] == rest && s[..|Print(t, depth, fmt)|] == Print(t, depth, fmt);
    if t.True? {
      NotStarts(s, "null");
      NotStarts(s, "false");
    } else if t.False? {
      NotStarts(s, "null");
    }
  }

  /** Parsing a printed tree gives the tree and the text after it. */
  lemma {:induction false} ValueRoundTrip(t: Json, depth: nat, fmt: bool, rest: string)
    requires Printable(t) && (t.Number? ==> !Extends(rest))
    ensures ParseValue(Print(t, depth, fmt) + rest) == Got(t, rest)
    decreases t, 0
  {
    PrintStarts(t, depth, fmt, rest);
    var s := Print(t, depth, fmt) + rest;
    match t
    case Number(v) =>
      NoWord(s);
      NumberRoundTrip(v.Floor, rest);
    case Str(text) =>
      NoWord(s);
      StringRoundTrip(text, rest);
    case Array(items) =>
      NoWord(s);
      ArrayText(items, depth, fmt, rest);
      assert s[1..] == PrintItems(items, depth + 1, fmt) + ("]" + rest);
      ArrayRoundTrip(items, depth + 1, fmt, rest);
    case Object(members) =>
      ObjectRoundTrip(members, depth, fmt, rest);
    case _ =>
      WordRoundTrip(t, depth, fmt, rest);
  }

  lemma ArrayText(items: seq<Json>, depth: nat, fmt: bool, rest: string)
    ensures Print(Array(items), depth, fmt) + rest == "[" + (PrintItems(items, depth + 1, fmt) + ("]" + rest))
  {
    var text := PrintItems(items, depth + 1, fmt);
    assert Print(Array(items), depth, fmt) == "[" + text + "]";
    hide PrintItems, Print;
    Associative("[" + text, "]", rest);
    Associative("[", text, "]" + rest);
  }

  lemma ItemText(items: seq<Json>, depth: nat, fmt: bool, rest: string)
    requires items != []
    ensures PrintItems(items, depth, fmt) + rest ==
      Print(items[0], depth, fmt) + (MoreItems(items[1..], depth, fmt) + rest)
    ensures MoreItems(items, depth, fmt) + rest ==
      "," + (If(fmt, " ") + (Print(items[0], depth, fmt) + (MoreItems(items[1..], depth, fmt) + rest)))
  {
    var first, more, blank := Print(items[0], depth, fmt), MoreItems(items[1..], depth, fmt), If(fmt, " ");
    assert PrintItems(items, depth, fmt) == first + more && MoreItems(items, depth, fmt) == "," + blank + first + more;
    hide PrintItems, MoreItems, Print, If;
    Associative(first, more, rest);
    Associative("," + blank + first, more, rest);
    Associative("," + blank, first, more + rest);
    Associative(",", blank, first + (more + rest));
  }

  lemma {:induction false} ArrayRoundTrip(items: seq<Json>, depth: nat, fmt: bool, rest: string)
    requires forall i :: 0 <= i < |items| ==> Printable(items[i])
    ensures ParseArray(PrintItems(items, depth, fmt) + ("]" + rest)) == Got(Array(items), rest)
    decreases items, 1
  {
    if items == [] {
      assert PrintItems(items, depth, fmt) + ("]" + rest) == "]" + rest;
    } else {
      var tail := MoreItems(items[1..], depth, fmt) + ("]" + rest);
      ItemText(items, depth, fmt, "]" + rest);
      PrintStarts(items[0], depth, fmt, tail);
      assert At(tail, 0) == ',' || At(tail, 0) == ']';
      ValueRoundTrip(items[0], depth, fmt, tail);
      ItemsRoundTrip([items[0]], items[1..], depth, fmt, rest);
      MoveFirst([], items);
      NothingLeft(items);
      NothingLeft([items[0]]);
    }
  }

  /** The text before an item that is not the first, and the character after it. */
  lemma NextItem(items: seq<Json>, depth: nat, fmt: bool, rest: string)
    requires items != [] && Printable(items[0])
    ensures
      var tail := MoreItems(items[1..], depth, fmt) + ("]" + rest);
      var value := Print(items[0], depth, fmt) + tail;
      && MoreItems(items, depth, fmt) + ("]" + rest) == "," + (If(fmt, " ") + value)
      && Skip(If(fmt, " ") + value) == value && Skip(tail) == tail && !Extends(tail)
  {
    var tail := MoreItems(items[1..], depth, fmt) + ("]" + rest);
    assert At(tail, 0) == ',' || At(tail, 0) == ']';
    ItemText(items, depth, fmt, "]" + rest);
    SkipBlanks(If(fmt, " "), Print(items[0], depth, fmt) + tail);
    PrintStarts(items[0], depth, fmt, tail);
  }

  lemma ItemStep(done: seq<Json>, text: string, item: Json, tail: string)
    requires ParseValue(Skip(text)) == Got(item, tail) && |tail| < |text|
    ensures ParseItems(done, "," + text) == ParseItems(done + [item], Skip(tail))
  {
    assert ("," + text)[1..] == text;
  }

  lemma {:induction false} ItemsRoundTrip(done: seq<Json>, items: seq<Json>, depth: nat, fmt: bool, rest: string)
    requires forall i :: 0 <= i < |items| ==> Printable(items[i])
    ensures ParseItems(done, MoreItems(items, depth, fmt) + ("]" + rest)) == Got(Array(done + items), rest)
    decreases items, 1
  {
    if items == [] {
      NothingLeft("]" + rest);
      NothingLeft(done);
    } else {
      var tail := MoreItems(items[1..], depth, fmt) + ("]" + rest);
      NextItem(items, depth, fmt, rest);
      hide ParseItems, ParseValue, Print, MoreItems, Skip, If;
      ValueRoundTrip(items[0], depth, fmt, tail);
      ItemStep(done, If(fmt, " ") + (Print(items[0], depth, fmt) + tail), items[0], tail);
      ItemsRoundTrip(done + [items[0]], items[1..], depth, fmt, rest);
      MoveFirst(done, items);
    }
  }

  // ----- objects -----

  /** The end of an object: the line end and the tabs before the brace. */
  function Closing(depth: nat, fmt: bool): string {
    If(fmt, "\n" + Tabs(depth))
  }

  lemma ClosingIsBlank(depth: nat, fmt: bool, s: string)
    ensures Skip(Closing(depth, fmt) + s) == Skip(s)
    ensures Skip(If(fmt, Tabs(depth)) + s) == Skip(s) && Skip(If(fmt, "\n") + s) == Skip(s)
    ensures Skip(If(fmt, "\t") + s) == Skip(s)
  {
    TabsAreTabs(depth);
    SkipBlanks(Closing(depth, fmt), s);
    SkipBlanks(If(fmt, Tabs(depth)), s);
    SkipBlanks(If(fmt, "\n"), s);
    SkipBlanks(If(fmt, "\t"), s);
  }

  lemma BraceOpens(s: string)
    requires At(s, 0) == '{'
    ensures ParseValue(s) == ParseObject(s[1..])
  {
    hide ParseObject, ParseString, ParseNumber, ParseArray;
    NoWord(s);
  }

  lemma BraceCloses(inner: string, rest: string)
    requires Skip(inner) == "}" + rest
    ensures ParseObject(inner) == Got(Object([]), rest)
  {
    assert Skip(inner)[1..] == rest;
  }

  lemma EmptyObjectText(depth: nat, fmt: bool, rest: string)
    ensures Print(Object([]), depth, fmt) + rest ==
      "{" + (Closing(if depth > 0 then depth - 1 else 0, fmt) + ("}" + rest))
  {
    hide Tabs;
    var closing := Closing(if depth > 0 then depth - 1 else 0, fmt);
    Associative("{" + closing, "}", rest);
    Associative("{", closing, "}" + rest);
  }

  lemma EmptyObjectRoundTrip(depth: nat, fmt: bool, rest: string)
    ensures ParseValue(Print(Object([]), depth, fmt) + rest) == Got(Object([]), rest)
  {
    hide Print, Closing, ParseValue, ParseObject;
    var d := if depth > 0 then depth - 1 else 0;
    var inner := Closing(d, fmt) + ("}" + rest);
    EmptyObjectText(depth, fmt, rest);
    BraceOpens("{" + inner);
    assert ("{" + inner)[1..] == inner;
    ClosingIsBlank(d, fmt, "}" + rest);
    BraceCloses(inner, rest);
  }

  /** The members of an object and its end, from the first member on. */
  function Tail(members: seq<Member>, depth: nat, fmt: bool, rest: string): string {
    MoreMembers(members, depth + 1, fmt) + (Closing(depth, fmt) + ("}" + rest))
  }

  lemma ObjectText(members: seq<Member>, depth: nat, fmt: bool, rest: string)
    requires members != []
    ensures Print(Object(members), depth, fmt) + rest ==
      "{" + (If(fmt, "\n") + (PrintMember(members[0], depth + 1, fmt) + Tail(members[1..], depth, fmt, rest)))
  {
    var first, more := PrintMember(members[0], depth + 1, fmt), MoreMembers(members[1..], depth + 1, fmt);
    var line, close := If(fmt, "\n"), Closing(depth, fmt);
    assert Print(Object(members), depth, fmt) == "{" + line + (first + more) + close + "}";
    hide PrintMember, MoreMembers, If, Print, Closing;
    Associative("{" + line + (first + more) + close, "}", rest);
    Associative("{" + line + (first + more), close, "}" + rest);
    Associative("{" + line, first + more, close + ("}" + rest));
    Associative("{", line, first + more + (close + ("}" + rest)));
    Associative(first, more, close + ("}" + rest));
  }

  lemma MembersText(members: seq<Member>, depth: nat, fmt: bool, rest: string)
    requires members != []
    ensures Tail(members, depth, fmt, rest) ==
      "," + (If(fmt, "\n") + (PrintMember(members[0], depth + 1, fmt) + Tail(members[1..], depth, fmt, rest)))
  {
    var first, more := PrintMember(members[0], depth + 1, fmt), MoreMembers(members[1..], depth + 1, fmt);
    var line, close := If(fmt, "\n"), Closing(depth, fmt) + ("}" + rest);
    assert MoreMembers(members, depth + 1, fmt) == "," + line + first + more;
    assert Tail(members, depth, fmt, rest) == "," + line + first + more + close;
    assert Tail(members[1..], depth, fmt, rest) == more + close;
    hide PrintMember, MoreMembers, If, Print, Closing;
    Associative("," + line + first, more, close);
    Associative("," + line, first, more + close);
    Associative(",", line, first + (more + close));
  }

  lemma MemberText(m: Member, depth: nat, fmt: bool, rest: string)
    ensures PrintMember(m, depth, fmt) + rest ==
      If(fmt, Tabs(depth)) + (Quoted(m.name) + (":" + (If(fmt, "\t") + (Print(m.value, depth, fmt) + rest))))
  {
    var tabs, name, tab, value := If(fmt, Tabs(depth)), Quoted(m.name), If(fmt, "\t"), Print(m.value, depth, fmt);
    assert PrintMember(m, depth, fmt) == tabs + name + ":" + tab + value;
    hide PrintMember, If, Print, Quoted, Tabs;
    Associative(tabs + name + ":" + tab, value, rest);
    Associative(tabs + name + ":", tab, value + rest);
    Associative(tabs + name, ":", tab + (value + rest));
    Associative(tabs, name, ":" + (tab + (value + rest)));
  }

  lemma TailStarts(members: seq<Member>, depth: nat, fmt: bool, rest: string)
    ensures var s := Tail(members, depth, fmt, rest);
      && !Extends(s)
      && (members != [] ==> Skip(s) == s && At(s, 0) == ',')
      && (members == [] ==> Skip(s) == "}" + rest)
  {
    ClosingIsBlank(depth, fmt, "}" + rest);
    var s := Tail(members, depth, fmt, rest);
    if members == [] {
      assert s == Closing(depth, fmt) + ("}" + rest);
      assert At(s, 0) == '}' || At(s, 0) == '\n';
    } else {
      assert At(s, 0) == ',';
    }
  }

  lemma {:induction false} MemberRoundTrip(m: Member, depth: nat, fmt: bool, rest: string)
    requires NulFree(m.name) && Printable(m.value) && !Extends(rest)
    ensures ParseMember(Skip(PrintMember(m, depth, fmt) + rest)) == Got(m, Skip(rest))
    decreases m, 1
  {
    MemberText(m, depth, fmt, rest);
    var value := Print(m.value, depth, fmt) + rest;
    var colon := ":" + (If(fmt, "\t") + value);
    var s := Quoted(m.name) + colon;
    ClosingIsBlank(depth, fmt, s);
    assert Skip(s) == s;
    StringRoundTrip(m.name, colon);
    assert Skip(colon) == colon && colon[1..] == If(fmt, "\t") + value;
    ClosingIsBlank(depth, fmt, value);
    PrintStarts(m.value, depth, fmt, rest);
    ValueRoundTrip(m.value, depth, fmt, rest);
  }

  lemma FirstOfMember(m: Member, depth: nat, fmt: bool, rest: string)
    ensures var s := Skip(PrintMember(m, depth, fmt) + rest);
      At(s, 0) == QUOTE && Skip(s) == s
  {
    MemberText(m, depth, fmt, rest);
    ClosingIsBlank(depth, fmt, Quoted(m.name) + (":" + (If(fmt, "\t") + (Print(m.value, depth, fmt) + rest))));
  }

  lemma ObjectStep(text: string, member: Member, tail: string)
    requires At(Skip(text), 0) == QUOTE && Skip(Skip(text)) == Skip(text)
    requires ParseMember(Skip(text)) == Got(member, tail)
    ensures ParseValue("{" + text) == ParseMembers([member], tail)
  {
    NoWord("{" + text);
    assert ("{" + text)[1..] == text;
  }

  lemma MemberStep(done: seq<Member>, text: string, member: Member, tail: string)
    requires ParseMember(Skip(text)) == Got(member, tail)
    ensures ParseMembers(done, "," + text) == ParseMembers(done + [member], tail)
  {
    assert ("," + text)[1..] == text;
  }

  lemma {:induction false} ObjectRoundTrip(members: seq<Member>, depth: nat, fmt: bool, rest: string)
    requires forall i :: 0 <= i < |members| ==> NulFree(members[i].name) && Printable(members[i].value)
    ensures ParseValue(Print(Object(members), depth, fmt) + rest) == Got(Object(members), rest)
    decreases members, 2
  {
    if members == [] {
      EmptyObjectRoundTrip(depth, fmt, rest);
    } else {
      hide ParseValue, ParseMember, ParseMembers, Print, PrintMember, Tail, Skip, If, Extends;
      var tail := Tail(members[1..], depth, fmt, rest);
      var first := PrintMember(members[0], depth + 1, fmt) + tail;
      ObjectText(members, depth, fmt, rest);
      ClosingIsBlank(depth, fmt, first);
      FirstOfMember(members[0], depth + 1, fmt, tail);
      TailStarts(members[1..], depth, fmt, rest);
      MemberRoundTrip(members[0], depth + 1, fmt, tail);
      ObjectStep(If(fmt, "\n") + first, members[0], Skip(tail));
      MembersRoundTrip([members[0]], members[1..], depth, fmt, rest);
      MoveFirst([], members);
      NothingLeft(members);
      NothingLeft([members[0]]);
    }
  }

  lemma {:induction false} MembersRoundTrip(
      done: seq<Member>, members: seq<Member>, depth: nat, fmt: bool, rest: string)
    requires forall i :: 0 <= i < |members| ==> NulFree(members[i].name) && Printable(members[i].value)
    ensures ParseMembers(done, Skip(Tail(members, depth, fmt, rest))) == Got(Object(done + members), rest)
    decreases members, 1
  {
    TailStarts(members, depth, fmt, rest);
    if members == [] {
      NothingLeft(done);
    } else {
      hide ParseMember, ParseMembers, Print, PrintMember, Tail, Skip, If, Extends;
      var tail := Tail(members[1..], depth, fmt, rest);
      var first := PrintMember(members[0], depth + 1, fmt) + tail;
      MembersText(members, depth, fmt, rest);
      ClosingIsBlank(depth, fmt, first);
      TailStarts(members[1..], depth, fmt, rest);
      MemberRoundTrip(members[0], depth + 1, fmt, tail);
      MemberStep(done, If(fmt, "\n") + first, members[0], Skip(tail));
      MembersRoundTrip(done + [members[0]], members[1..], depth, fmt, rest);
      MoveFirst(done, members);
    }
  }
}
