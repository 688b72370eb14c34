/** The two passes of the cJSON printers: a length is computed, a buffer of that length is allocated and
    filled. That every store is inside the buffer is checked, so the computed lengths are enough.
    Source: lib/cJSON.c. */
module JsonPrinter {
  import opened Counts
  import opened Decimals
  import opened Sequences
  import opened JsonText

  /** The C string at the start of a buffer: `strlen` of it is the length of the text. */
  ghost predicate IsCString(buf: array<char>, s: string)
    reads buf
  {
    |s| < buf.Length && buf[..|s|] == s && buf[|s|] == NUL && NulFree(s)
  }

  /** `strcpy(ptr, s)` at the end of what is written, or a run of `*ptr++ = c`. */
  method Append(buf: array<char>, ptr: nat, s: string) returns (end: nat)
    requires ptr + |s| <= buf.Length
    modifies buf
    ensures end == ptr + |s| && buf[..end] == old(buf[..ptr]) + s
  {
    end := ptr;
    for i := 0 to |s|
      invariant end == ptr + i && buf[..end] == old(buf[..ptr]) + s[..i]
    {
      buf[end] := s[i];
      end := end + 1;
      assert s[..i + 1] == s[..i] + [s[i]];
    }
    assert s[..|s|] == s;
  }

  // ----- strings -----

  /** What the first pass of `print_string_ptr` counts for one character. */
  function EscapeLength(c: char): nat {
    if c == QUOTE || c == BACKSLASH || c == BACKSPACE || c == FORMFEED || c == '\n' || c == '\r' || c == '\t' then 2
    else if c < ' ' then 6
    else 1
  }

  lemma {:induction false} EscapeAllAppends(s: string, c: char)
    ensures EscapeAll(s + [c]) == EscapeAll(s) + Escape(c)
    decreases |s|
  {
    if s == "" {
      assert s + [c] == [c];
      NothingLeft(Escape(c));
    } else {
      assert (s + [c])[1..] == s[1..] + [c];
      EscapeAllAppends(s[1..], c);
      Associative(Escape(s[0]), EscapeAll(s[1..]), Escape(c));
    }
  }

  lemma {:induction false} PrefixFits(s: string, i: nat)
    requires i <= |s|
    ensures |EscapeAll(s[..i])| <= |EscapeAll(s)|
    ensures i < |s| ==> EscapeAll(s[..i + 1]) == EscapeAll(s[..i]) + Escape(s[i])
    decreases |s| - i
  {
    if i < |s| {
      assert s[..i + 1] == s[..i] + [s[i]];
      EscapeAllAppends(s[..i], s[i]);
      PrefixFits(s, i + 1);
    } else {
      assert s[..i] == s;
    }
  }

  /** `print_string_ptr`: the allocation is filled to its last character. */
  method PrintStringPtr(str: string) returns (out: array<char>)
    requires NulFree(str)
    ensures fresh(out) && IsCString(out, Quoted(str)) && out.Length == |Quoted(str)| + 1
  {
    var len := 0;
    for i := 0 to |str|
      invariant len == |EscapeAll(str[..i])|
    {
      PrefixFits(str, i);
      assert |Escape(str[i])| == EscapeLength(str[i]);
      len := len + EscapeLength(str[i]);
    }
    assert str[..|str|] == str;
    out := new char[len + 3];
    var ptr2: nat := Append(out, 0, "\"");
    for i := 0 to |str|
      invariant ptr2 == 1 + |EscapeAll(str[..i])| <= 1 + len && out[..ptr2] == "\"" + EscapeAll(str[..i])
    {
      PrefixFits(str, i);
      PrefixFits(str, i + 1);
      Associative("\"", EscapeAll(str[..i]), Escape(str[i]));
      ptr2 := Append(out, ptr2, Escape(str[i]));
    }
    ptr2 := Append(out, ptr2, "\"");
    out[ptr2] := NUL;
    QuotedIsNulFree(str);
  }

  // ----- values -----

  /** The text of `print_value` as a C string in a buffer of its own, or of `print_array` and
      `print_object` below. */
  method PrintValue(t: Json, depth: nat, fmt: bool) returns (text: string)
    requires Printable(t)
    ensures text == Print(t, depth, fmt) && NulFree(text)
    decreases t, 1
  {
    PrintIsNulFree(t, depth, fmt);
    match t {
      case Null => return "null";
      case False => return "false";
      case True => return "true";
      case Number(v) => text := PrintNumber(v.Floor);
      case Str(s) =>
        var out := PrintStringPtr(s);
        return out[..out.Length - 1];
      case Array(items) => text := PrintArray(items, depth, fmt);
      case Object(members) => text := PrintObject(members, depth, fmt);
    }
  }

  lemma {:induction false} DecimalLength(n: nat, digits: nat, bound: nat)
    requires n < bound && digits > 0 && bound == Power10(digits)
    ensures |Decimal(n)| <= digits
    decreases digits
  {
    if digits > 1 && n >= 10 {
      DecimalLength(n / 10, digits - 1, Power10(digits - 1));
    }
  }

  function Power10(k: nat): nat {
    if k == 0 then 1 else 10 * Power10(k - 1)
  }

  /** `print_number` for an `int`: 21 characters are more than enough. */
  method PrintNumber(n: int) returns (text: string)
    requires -0x8000_0000 <= n <= 0x7fff_ffff
    ensures text == IntText(n) && NulFree(text)
  {
    assert Power10(10) == 10_000_000_000;
    DecimalLength(if n < 0 then -n else n, 10, Power10(10));
    var out := new char[21];
    var ptr: nat := Append(out, 0, IntText(n));
    out[ptr] := NUL;
    return out[..ptr];
  }

  /** The sum of the lengths of some strings and of `per` more for each. */
  function Total(entries: seq<string>, per: nat): nat {
    if entries == [] then 0 else Total(entries[..|entries| - 1], per) + |entries[|entries| - 1]| + per
  }

  lemma TotalStep(entries: seq<string>, per: nat, i: nat)
    requires i < |entries|
    ensures Total(entries[..i + 1], per) == Total(entries[..i], per) + |entries[i]| + per
  {
    assert entries[..i + 1][..i] == entries[..i];
  }

  lemma TotalOfNone(per: nat)
    ensures Total([], per) == 0
  {
  }

  lemma TotalAppend(entries: seq<string>, per: nat, entry: string)
    ensures Total(entries + [entry], per) == Total(entries, per) + |entry| + per
  {
    assert (entries + [entry])[..|entries|] == entries;
  }

  lemma {:induction false} TotalGrows(entries: seq<string>, per: nat, i: nat)
    requires i <= |entries|
    ensures Total(entries[..i], per) <= Total(entries, per)
    decreases |entries| - i
  {
    if i < |entries| {
      TotalStep(entries, per, i);
      TotalGrows(entries, per, i + 1);
    } else {
      assert entries[..i] == entries;
    }
  }

  // ----- arrays -----

  /** What is still to be written of an array when the items from `items` on are left. */
  function ItemsLeft(items: seq<Json>, depth: nat, fmt: bool): string {
    PrintItems(items, depth, fmt) + "]"
  }

  lemma ItemsLeftStep(items: seq<Json>, depth: nat, fmt: bool)
    requires items != []
    ensures ItemsLeft(items, depth, fmt) ==
      Print(items[0], depth, fmt) + (if |items| == 1 then "" else "," + If(fmt, " ")) + ItemsLeft(items[1..], depth, fmt)
  {
    var first, sep := Print(items[0], depth, fmt), "," + If(fmt, " ");
    if |items| == 1 {
      assert PrintItems(items, depth, fmt) == first + "";
      assert ItemsLeft(items[1..], depth, fmt) == "]";
    } else {
      var more := items[1..];
      var second, rest := Print(more[0], depth, fmt), MoreItems(more[1..], depth, fmt);
      assert PrintItems(items, depth, fmt) == first + (sep + second + rest);
      assert ItemsLeft(more, depth, fmt) == second + rest + "]";
      hide PrintItems, ItemsLeft, Print, MoreItems;
      Associative(sep, second, rest);
      Associative(first, sep, second + rest);
      Associative(first + sep, second + rest, "]");
    }
  }

  /** `print_array` */
  method PrintArray(items: seq<Json>, depth: nat, fmt: bool) returns (text: string)
    requires Printable(Array(items))
    ensures text == Print(Array(items), depth, fmt) && NulFree(text)
    decreases items, 2
  {
    PrintIsNulFree(Array(items), depth, fmt);
    if |items| == 0 {
      var out := new char[3];
      var ptr: nat := Append(out, 0, "[]");
      out[ptr] := NUL;
      return out[..ptr];
    }
    var entries: seq<string> := [];
    var len := 5;
    ghost var per := if fmt then 3 else 2;
    for i := 0 to |items|
      invariant |entries| == i && len == 5 + Total(entries, per)
      invariant forall j :: 0 <= j < i ==> entries[j] == Print(items[j], depth + 1, fmt)
    {
      var ret := PrintValue(items[i], depth + 1, fmt);
      TotalAppend(entries, per, ret);
      entries := entries + [ret];
      len := len + |ret| + 2 + if fmt then 1 else 0;
    }
    text := FillArray(items, entries, len, depth, fmt);
  }

  method FillArray(items: seq<Json>, entries: seq<string>, len: nat, depth: nat, fmt: bool) returns (text: string)
    requires items != [] && |entries| == |items| && len == 5 + Total(entries, if fmt then 3 else 2)
    requires forall j :: 0 <= j < |items| ==> entries[j] == Print(items[j], depth + 1, fmt)
    ensures text == Print(Array(items), depth, fmt)
  {
    hide Print, Total, ItemsLeft;
    var out := new char[len];
    ghost var per, whole := if fmt then 3 else 2, "[" + ItemsLeft(items, depth + 1, fmt);
    var ptr: nat := Append(out, 0, "[");
    for i := 0 to |items|
      invariant ptr <= 1 + Total(entries[..i], per)
      invariant ptr <= out.Length && out[..ptr] + ItemsLeft(items[i..], depth + 1, fmt) == whole
    {
      TotalStep(entries, per, i);
      TotalGrows(entries, per, i + 1);
      ghost var was, left := out[..ptr], ItemsLeft(items[i + 1..], depth + 1, fmt);
      ItemsLeftStep(items[i..], depth + 1, fmt);
      var sep := if i == |items| - 1 then "" else if fmt then ", " else ",";
      ptr := Append(out, ptr, entries[i]);
      ptr := Append(out, ptr, sep);
      assert items[i..][1..] == items[i + 1..];
      assert sep == if |items[i..]| == 1 then "" else "," + If(fmt, " ");
      Associative(was, entries[i] + sep, left);
      Associative(was, entries[i], sep);
    }
    TotalGrows(entries, per, |items|);
    ptr := Append(out, ptr, "]");
    out[ptr] := NUL;
    ArrayIsWhole(items, depth, fmt);
    return out[..ptr];
  }

  lemma ArrayIsWhole(items: seq<Json>, depth: nat, fmt: bool)
    ensures "[" + ItemsLeft(items, depth + 1, fmt) == Print(Array(items), depth, fmt)
    ensures ItemsLeft([], depth + 1, fmt) == "]"
  {
    Associative("[", PrintItems(items, depth + 1, fmt), "]");
  }

  // ----- objects -----

  /** What is still to be written of an object when the members from `members` on are left. */
  function MembersLeft(members: seq<Member>, depth: nat, fmt: bool): string {
    if members == [] then If(fmt, Tabs(depth)) + "}"
    else PrintMembers(members, depth + 1, fmt) + If(fmt, "\n" + Tabs(depth)) + "}"
  }

  /** The comma and the line end after a member. */
  function MemberEnd(last: bool, fmt: bool): string {
    If(!last, ",") + If(fmt, "\n")
  }

  lemma MembersLeftStep(members: seq<Member>, depth: nat, fmt: bool)
    requires members != []
    ensures MembersLeft(members, depth, fmt) ==
      PrintMember(members[0], depth + 1, fmt) + MemberEnd(|members| == 1, fmt) + MembersLeft(members[1..], depth, fmt)
  {
    var first, line, tabs := PrintMember(members[0], depth + 1, fmt), If(fmt, "\n"), If(fmt, Tabs(depth));
    assert If(fmt, "\n" + Tabs(depth)) == line + tabs;
    if |members| == 1 {
      assert PrintMembers(members, depth + 1, fmt) == first + "";
      NothingLeft(first);
      assert MembersLeft(members[1..], depth, fmt) == tabs + "}";
      assert MemberEnd(true, fmt) == "" + line;
      hide MembersLeft, PrintMembers, PrintMember, If;
      NothingLeft(line);
      Associative(first, line, tabs);
      Associative(first + line, tabs, "}");
    } else {
      var more := members[1..];
      var second, rest := PrintMember(more[0], depth + 1, fmt), MoreMembers(more[1..], depth + 1, fmt);
      assert PrintMembers(members, depth + 1, fmt) == first + ("," + line + second + rest);
      assert MembersLeft(members, depth, fmt) == first + ("," + line + second + rest) + (line + tabs) + "}";
      assert MembersLeft(more, depth, fmt) == second + rest + (line + tabs) + "}";
      assert MemberEnd(false, fmt) == "," + line;
      hide MembersLeft, PrintMembers, PrintMember, MoreMembers, If, MemberEnd;
      Associative("," + line, second, rest);
      Associative(first, "," + line, second + rest);
      Associative(first + ("," + line), second + rest, line + tabs);
      Associative(first + ("," + line), second + rest + (line + tabs), "}");
    }
  }

  /** The names and values of some members as texts, and the two together. */
  ghost predicate Rendered(
      members: seq<Member>, names: seq<string>, entries: seq<string>, pieces: seq<string>, depth: nat, fmt: bool)
  {
    && |names| == |entries| == |pieces| == |members|
    && forall j :: 0 <= j < |members| ==>
      && names[j] == Quoted(members[j].name) && entries[j] == Print(members[j].value, depth, fmt)
      && pieces[j] == names[j] + entries[j]
  }

  lemma RenderedAppend(
      members: seq<Member>, names: seq<string>, entries: seq<string>, pieces: seq<string>, depth: nat, fmt: bool,
      i: nat, name: string, entry: string)
    requires i < |members| && Rendered(members[..i], names, entries, pieces, depth, fmt)
    requires name == Quoted(members[i].name) && entry == Print(members[i].value, depth, fmt)
    ensures Rendered(members[..i + 1], names + [name], entries + [entry], pieces + [name + entry], depth, fmt)
  {
    hide Quoted, Print;
  }

  /** The name and the value of a member, each as a text. */
  method RenderMember(m: Member, depth: nat, fmt: bool) returns (name: string, entry: string)
    requires NulFree(m.name) && Printable(m.value)
    ensures name == Quoted(m.name) && entry == Print(m.value, depth, fmt)
    decreases m, 1
  {
    var str := PrintStringPtr(m.name);
    name := str[..str.Length - 1];
    entry := PrintValue(m.value, depth, fmt);
  }

  /** `print_object` */
  method PrintObject(members: seq<Member>, depth: nat, fmt: bool) returns (text: string)
    requires Printable(Object(members))
    ensures text == Print(Object(members), depth, fmt) && NulFree(text)
    decreases members, 2
  {
    PrintIsNulFree(Object(members), depth, fmt);
    if |members| == 0 {
      text := PrintEmptyObject(depth, fmt);
      return;
    }
    hide Total, Print, Quoted;
    var names: seq<string>, entries: seq<string> := [], [];
    var len := 7 + if fmt then depth + 1 else 0;
    ghost var per, pieces: seq<string> := if fmt then depth + 5 else 2, [];
    TotalOfNone(per);
    for i := 0 to |members|
      invariant len == 7 + Total(pieces, per) + if fmt then depth + 1 else 0
      invariant Rendered(members[..i], names, entries, pieces, depth + 1, fmt)
    {
      var name, ret := RenderMember(members[i], depth + 1, fmt);
      TotalAppend(pieces, per, name + ret);
      RenderedAppend(members, names, entries, pieces, depth + 1, fmt, i, name, ret);
      names, entries, pieces := names + [name], entries + [ret], pieces + [name + ret];
      len := len + |ret| + |name| + 2 + if fmt then 2 + (depth + 1) else 0;
    }
    assert members[..|members|] == members;
    text := FillObject(members, names, entries, pieces, len, depth, fmt);
  }

  method PrintEmptyObject(depth: nat, fmt: bool) returns (text: string)
    ensures text == Print(Object([]), depth, fmt)
  {
    var out := new char[if fmt then depth + 4 else 3];
    var ptr: nat := Append(out, 0, "{");
    if fmt {
      ptr := Append(out, ptr, "\n");
      ptr := Append(out, ptr, Tabs(if depth > 0 then depth - 1 else 0));
    }
    ptr := Append(out, ptr, "}");
    out[ptr] := NUL;
    return out[..ptr];
  }

  method FillObject(
      members: seq<Member>, names: seq<string>, entries: seq<string>, ghost pieces: seq<string>, len: nat,
      depth: nat, fmt: bool)
    returns (text: string)
    requires members != [] && Rendered(members, names, entries, pieces, depth + 1, fmt)
    requires len == 7 + Total(pieces, if fmt then depth + 5 else 2) + if fmt then depth + 1 else 0
    ensures text == Print(Object(members), depth, fmt)
  {
    hide Print, Total, MembersLeft, Quoted, PrintMember, MemberEnd;
    var out := new char[len];
    ghost var per := if fmt then depth + 5 else 2;
    ghost var whole := "{" + If(fmt, "\n") + MembersLeft(members, depth, fmt);
    var ptr: nat := Append(out, 0, "{");
    ptr := Append(out, ptr, If(fmt, "\n"));
    for i := 0 to |members|
      invariant ptr <= 1 + One(fmt) + Total(pieces[..i], per)
      invariant ptr <= out.Length && out[..ptr] + MembersLeft(members[i..], depth, fmt) == whole
    {
      TotalStep(pieces, per, i);
      TotalGrows(pieces, per, i + 1);
      ghost var was, left := out[..ptr], MembersLeft(members[i + 1..], depth, fmt);
      MembersLeftStep(members[i..], depth, fmt);
      assert members[i..][1..] == members[i + 1..];
      ptr := WriteMember(out, ptr, members[i], names[i], entries[i], depth + 1, fmt);
      EndLength(i == |members| - 1, fmt);
      ptr := Append(out, ptr, MemberEnd(i == |members| - 1, fmt));
      ghost var m, end := PrintMember(members[i], depth + 1, fmt), MemberEnd(i == |members| - 1, fmt);
      Associative(was, m + end, left);
      Associative(was, m, end);
    }
    TotalGrows(pieces, per, |members|);
    assert members[|members|..] == [];
    ObjectIsWhole(members, depth, fmt);
    ghost var was := out[..ptr];
    ptr := Append(out, ptr, If(fmt, Tabs(depth)));
    ptr := Append(out, ptr, "}");
    Associative(was, If(fmt, Tabs(depth)), "}");
    out[ptr] := NUL;
    return out[..ptr];
  }

  lemma EndLength(last: bool, fmt: bool)
    ensures |MemberEnd(last, fmt)| <= 1 + One(fmt)
  {
  }

  /** Tabs, name, colon, tab and value. */
  method WriteMember(
      out: array<char>, ptr: nat, m: Member, name: string, entry: string, depth: nat, fmt: bool) returns (end: nat)
    requires name == Quoted(m.name) && entry == Print(m.value, depth, fmt)
    requires ptr + |name| + |entry| + 1 + (if fmt then depth + 1 else 0) <= out.Length
    modifies out
    ensures end == ptr + |name| + |entry| + 1 + (if fmt then depth + 1 else 0)
    ensures out[..end] == old(out[..ptr]) + PrintMember(m, depth, fmt)
  {
    end := Append(out, ptr, If(fmt, Tabs(depth)));
    end := Append(out, end, name);
    end := Append(out, end, ":");
    end := Append(out, end, If(fmt, "\t"));
    end := Append(out, end, entry);
    ghost var was, tabs, tab := old(out[..ptr]), If(fmt, Tabs(depth)), If(fmt, "\t");
    assert PrintMember(m, depth, fmt) == tabs + name + ":" + tab + entry;
    hide PrintMember, Print, If, Quoted;
    Associative(was, tabs + name + ":" + tab, entry);
    Associative(was, tabs + name + ":", tab);
    Associative(was, tabs + name, ":");
    Associative(was, tabs, name);
  }

  lemma ObjectIsWhole(members: seq<Member>, depth: nat, fmt: bool)
    requires members != []
    ensures "{" + If(fmt, "\n") + MembersLeft(members, depth, fmt) == Print(Object(members), depth, fmt)
    ensures MembersLeft([], depth, fmt) == If(fmt, Tabs(depth)) + "}"
  {
    var open, text, close := "{" + If(fmt, "\n"), PrintMembers(members, depth + 1, fmt), If(fmt, "\n" + Tabs(depth));
    Associative(open, text + close, "}");
    Associative(open, text, close);
  }
}
