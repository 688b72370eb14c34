/** JSON trees and the text that cJSON prints for them. Source: lib/cJSON.c, sections 2 to 7 of RFC 8259. */
module JsonText {
  import opened Decimals

  datatype Json =
    | Null
    | False
    | True
    | Number(value: real)
    | Str(text: string)
    | Array(items: seq<Json>)
    | Object(members: seq<Member>)

  datatype Member = Member(name: string, value: Json)

  const QUOTE: char := '\"'
  const BACKSLASH: char := '\\'
  const BACKSPACE: char := '\U{0008}'
  const FORMFEED: char := '\U{000C}'
  const NUL: char := '\0'

  predicate NulFree(s: string) {
    forall k :: 0 <= k < |s| ==> s[k] != NUL
  }

  /** The trees considered: strings are C strings, numbers are integers of C's `int`. */
  predicate Printable(t: Json) {
    match t
    case Number(v) => v == v.Floor as real && -0x8000_0000 <= v.Floor <= 0x7fff_ffff
    case Str(s) => NulFree(s)
    case Array(items) => forall i :: 0 <= i < |items| ==> Printable(items[i])
    case Object(members) =>
      forall i :: 0 <= i < |members| ==> NulFree(members[i].name) && Printable(members[i].value)
    case _ => true
  }

  // ----- strings -----

  function HexDigit(d: nat): char
    requires d < 16
  {
    "0123456789abcdef"[d]
  }

  /** What `print_string_ptr` writes for one character. */
  function Escape(c: char): string {
    if c > '\U{001F}' && c != QUOTE && c != BACKSLASH then [c]
    else if c == BACKSLASH then "\\\\"
    else if c == QUOTE then "\\\""
    else if c == BACKSPACE then "\\b"
    else if c == FORMFEED then "\\f"
    else if c == '\n' then "\\n"
    else if c == '\r' then "\\r"
    else if c == '\t' then "\\t"
    else "\\u00" + [HexDigit(c as int / 16), HexDigit(c as int % 16)]
  }

  /** An escape is one ordinary character, or a backslash with a character and perhaps ordinary ones. */
  lemma EscapeShape(c: char)
    ensures |Escape(c)| == 1 ==> Escape(c)[0] != BACKSLASH && Escape(c)[0] != QUOTE
    ensures |Escape(c)| == 1 || (|Escape(c)| >= 2 && Escape(c)[0] == BACKSLASH)
    ensures forall k :: 2 <= k < |Escape(c)| ==> Escape(c)[k] != BACKSLASH && Escape(c)[k] != QUOTE
  {
  }

  function EscapeAll(s: string): string {
    if s == "" then "" else Escape(s[0]) + EscapeAll(s[1..])
  }

  function Quoted(s: string): string {
    "\"" + EscapeAll(s) + "\""
  }

  // ----- values -----

  /** `%d` */
  function IntText(n: int): string {
    if n < 0 then "-" + Decimal(-n) else Decimal(n)
  }

  function Tabs(n: nat): (s: string)
    ensures |s| == n
  {
    if n == 0 then "" else "\t" + Tabs(n - 1)
  }

  function If(b: bool, s: string): string {
    if b then s else ""
  }

  /** The text `print_value` makes of a tree: formatted text has a blank after each comma of an array,
      and a line for each member of an object. */
  function Print(t: Json, depth: nat, fmt: bool): string
    decreases t, 0
  {
    match t
    case Null => "null"
    case False => "false"
    case True => "true"
    case Number(v) => IntText(v.Floor)
    case Str(s) => Quoted(s)
    case Array(items) => "[" + PrintItems(items, depth + 1, fmt) + "]"
    case Object(members) =>
      if members == [] then "{" + If(fmt, "\n" + Tabs(if depth > 0 then depth - 1 else 0)) + "}"
      else "{" + If(fmt, "\n") + PrintMembers(members, depth + 1, fmt) + If(fmt, "\n" + Tabs(depth)) + "}"
  }

  function PrintItems(items: seq<Json>, depth: nat, fmt: bool): string
    decreases items, 1
  {
    if items == [] then "" else Print(items[0], depth, fmt) + MoreItems(items[1..], depth, fmt)
  }

  function MoreItems(items: seq<Json>, depth: nat, fmt: bool): string
    decreases items, 1
  {
    if items == [] then ""
    else "," + If(fmt, " ") + Print(items[0], depth, fmt) + MoreItems(items[1..], depth, fmt)
  }

  function PrintMember(m: Member, depth: nat, fmt: bool): string
    decreases m, 1
  {
    If(fmt, Tabs(depth)) + Quoted(m.name) + ":" + If(fmt, "\t") + Print(m.value, depth, fmt)
  }

  function PrintMembers(members: seq<Member>, depth: nat, fmt: bool): string
    decreases members, 1
  {
    if members == [] then "" else PrintMember(members[0], depth, fmt) + MoreMembers(members[1..], depth, fmt)
  }

  function MoreMembers(members: seq<Member>, depth: nat, fmt: bool): string
    decreases members, 1
  {
    if members == [] then ""
    else "," + If(fmt, "\n") + PrintMember(members[0], depth, fmt) + MoreMembers(members[1..], depth, fmt)
  }

  // ----- printed text is a C string -----

  lemma NulFreeAppends(a: string, b: string)
    ensures NulFree(a + b) <==> NulFree(a) && NulFree(b)
  {
    var s := a + b;
    forall k | 0 <= k < |a|
      ensures s[k] == a[k]
    {
    }
    forall k | 0 <= k < |b|
      ensures s[|a| + k] == b[k]
    {
    }
  }

  lemma {:induction false} EscapeIsNulFree(s: string)
    requires NulFree(s)
    ensures NulFree(EscapeAll(s))
    decreases |s|
  {
    if s != "" {
      EscapeIsNulFree(s[1..]);
      NulFreeAppends(Escape(s[0]), EscapeAll(s[1..]));
    }
  }

  lemma QuotedIsNulFree(s: string)
    requires NulFree(s)
    ensures NulFree(Quoted(s))
  {
    EscapeIsNulFree(s);
    NulFreeAppends("\"", EscapeAll(s));
    NulFreeAppends("\"" + EscapeAll(s), "\"");
  }

  lemma {:induction false} TabsAreNulFree(n: nat)
    ensures NulFree(Tabs(n))
  {
    if n > 0 {
      TabsAreNulFree(n - 1);
      NulFreeAppends("\t", Tabs(n - 1));
    }
  }

  lemma LayoutIsNulFree(depth: nat, fmt: bool)
    ensures NulFree(If(fmt, Tabs(depth))) && NulFree(If(fmt, "\n" + Tabs(depth)))
  {
    TabsAreNulFree(depth);
    NulFreeAppends("\n", Tabs(depth));
  }

  /** The text of a printable tree has no terminator in it. */
  lemma {:induction false} PrintIsNulFree(t: Json, depth: nat, fmt: bool)
    requires Printable(t)
    ensures NulFree(Print(t, depth, fmt))
    decreases t, 0
  {
    match t
    case Number(v) =>
      assert forall k :: 0 <= k < |IntText(v.Floor)| ==> IntText(v.Floor)[k] == '-' || '0' <= IntText(v.Floor)[k] <= '9';
    case Str(s) =>
      QuotedIsNulFree(s);
    case Array(items) =>
      if items != [] {
        PrintIsNulFree(items[0], depth + 1, fmt);
        MoreItemsAreNulFree(items[1..], depth + 1, fmt);
      }
      ArrayIsNulFree(items, depth, fmt);
    case Object(members) =>
      if members != [] {
        MemberIsNulFree(members[0], depth + 1, fmt);
        MoreMembersAreNulFree(members[1..], depth + 1, fmt);
      }
      ObjectIsNulFree(members, depth, fmt);
    case _ =>
  }

  lemma ArrayIsNulFree(items: seq<Json>, depth: nat, fmt: bool)
    requires items != [] ==>
      NulFree(Print(items[0], depth + 1, fmt)) && NulFree(MoreItems(items[1..], depth + 1, fmt))
    ensures NulFree(Print(Array(items), depth, fmt))
  {
    var text := PrintItems(items, depth + 1, fmt);
    if items != [] {
      NulFreeAppends(Print(items[0], depth + 1, fmt), MoreItems(items[1..], depth + 1, fmt));
    }
    NulFreeAppends("[", text);
    NulFreeAppends("[" + text, "]");
  }

  lemma ObjectIsNulFree(members: seq<Member>, depth: nat, fmt: bool)
    requires members != [] ==>
      NulFree(PrintMember(members[0], depth + 1, fmt)) && NulFree(MoreMembers(members[1..], depth + 1, fmt))
    ensures NulFree(Print(Object(members), depth, fmt))
  {
    if members == [] {
      var close := If(fmt, "\n" + Tabs(if depth > 0 then depth - 1 else 0));
      LayoutIsNulFree(if depth > 0 then depth - 1 else 0, fmt);
      NulFreeAppends("{", close);
      NulFreeAppends("{" + close, "}");
    } else {
      var text, line, close := PrintMembers(members, depth + 1, fmt), If(fmt, "\n"), If(fmt, "\n" + Tabs(depth));
      LayoutIsNulFree(depth, fmt);
      NulFreeAppends(PrintMember(members[0], depth + 1, fmt), MoreMembers(members[1..], depth + 1, fmt));
      NulFreeAppends("{", line);
      NulFreeAppends("{" + line, text);
      NulFreeAppends("{" + line + text, close);
      NulFreeAppends("{" + line + text + close, "}");
    }
  }

  lemma {:induction false} MoreItemsAreNulFree(items: seq<Json>, depth: nat, fmt: bool)
    requires forall i :: 0 <= i < |items| ==> Printable(items[i])
    ensures NulFree(MoreItems(items, depth, fmt))
    decreases items, 1
  {
    if items != [] {
      PrintIsNulFree(items[0], depth, fmt);
      MoreItemsAreNulFree(items[1..], depth, fmt);
    }
  }

  lemma {:induction false} MemberIsNulFree(m: Member, depth: nat, fmt: bool)
    requires NulFree(m.name) && Printable(m.value)
    ensures NulFree(PrintMember(m, depth, fmt))
    decreases m, 1
  {
    LayoutIsNulFree(depth, fmt);
    QuotedIsNulFree(m.name);
    PrintIsNulFree(m.value, depth, fmt);
  }

  lemma {:induction false} MoreMembersAreNulFree(members: seq<Member>, depth: nat, fmt: bool)
    requires forall i :: 0 <= i < |members| ==> NulFree(members[i].name) && Printable(members[i].value)
    ensures NulFree(MoreMembers(members, depth, fmt))
    decreases members, 1
  {
    if members != [] {
      MemberIsNulFree(members[0], depth, fmt);
      MoreMembersAreNulFree(members[1..], depth, fmt);
    }
  }
}
