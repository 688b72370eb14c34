/** What is printed is a text of the JSON grammar: how every character, number and value is spelled, and where formatted
    text has blanks, line ends and tabs. Source: lib/cJSON.c, sections 2 to 7 of RFC 8259. */
module JsonLayout {
  import opened Decimals
  import opened Sequences
  import opened JsonText
  import opened JsonParser
  import opened JsonRoundTrip
  import opened JsonUnicode
  import opened JsonGrammar

  // ----- strings -----

  /** How a character is printed: the short escapes where there are any, hexadecimal digits for other control
      characters, and everything else as it is. */
  function PieceOf(c: char): Piece {
    if c == '\"' || c == '\\' then Short(c)
    else if c as int == 8 then Short('b')
    else if c as int == 9 then Short('t')
    else if c as int == 10 then Short('n')
    else if c as int == 12 then Short('f')
    else if c as int == 13 then Short('r')
    else if c as int < 32 then Coded(Spelling(c as int as bv32, [], []))
    else Raw(c)
  }

  function PiecesOf(s: string): seq<Piece> {
    if s == "" then [] else [PieceOf(s[0])] + PiecesOf(s[1..])
  }

  lemma HighNibbles(n: nat)
    requires n < 32
    ensures Nibble((n as bv32) >> 12) == 0 && Nibble((n as bv32) >> 8) == 0
    ensures Nibble((n as bv32) >> 4) == if n < 16 then 0 else 1
  {
    if n < 16 {
    } else {
    }
  }

  lemma LowBits(x: bv32)
    requires x < 32
    ensures Nibble(x) == if x < 16 then x else x - 16
  {
  }

  lemma DigitCode(n: nat)
    requires n < 16
    ensures (n as bv32) as int == n
  {
    if n < 8 {
    } else {
    }
  }

  lemma CodeSize(n: nat)
    requires n < 32
    ensures (n < 16 <==> n as bv32 < 16) && n as bv32 < 32
  {
    if n < 8 {
    } else if n < 16 {
    } else if n < 24 {
    } else {
    }
  }

  lemma LessSixteen(n: nat)
    requires n < 16
    ensures ((16 + n) as bv32) - 16 == n as bv32
  {
    if n < 8 {
    } else {
    }
  }

  lemma LowNibble(n: nat)
    requires n < 32
    ensures Nibble(n as bv32) as int == n % 16
  {
    hide Nibble;
    CodeSize(n);
    LowBits(n as bv32);
    if n < 16 {
      DigitCode(n);
    } else {
      LessSixteen(n - 16);
      DigitCode(n - 16);
    }
  }

  lemma DigitsAre(a: bv32, b: bv32, c: bv32, d: bv32, h: nat, l: nat)
    requires a == 0 && b == 0 && c < 16 && d < 16 && c as int == h && d as int == l
    ensures h < 16 && l < 16 && DigitsOf(a, b, c, d) == ['0', '0', HexDigit(h), HexDigit(l)]
  {
  }

  lemma SpelledBy(u: bv32, digits: string)
    requires u < 0x10000 && HexOf(u) == digits && |digits| == 4
    ensures UEscape(Spelling(u, [], [])) == "\\u" + digits
  {
    hide HexOf;
    assert Recase(digits, []) == digits;
  }

  /** A control character as hexadecimal digits */
  lemma ControlSpelled(c: char)
    requires NUL < c && c as int < 32
    ensures UEscape(Spelling(c as int as bv32, [], [])) == "\\u00" + [HexDigit(c as int / 16), HexDigit(c as int % 16)]
  {
    var n := c as int;
    var u := n as bv32;
    HighNibbles(n);
    LowNibble(n);
    ControlIsSmall(n);
    hide Nibble, HexDigit, UEscape, DigitsOf;
    DigitsAre(Nibble(u >> 12), Nibble(u >> 8), Nibble(u >> 4), Nibble(u), n / 16, n % 16);
    SpelledBy(u, ['0', '0', HexDigit(n / 16), HexDigit(n % 16)]);
  }

  lemma ControlIsSmall(n: nat)
    requires n < 32
    ensures 0 <= n as bv32 && n as bv32 < 0x20
    ensures n > 0 ==> n as bv32 != 0
  {
    if n < 8 {
    } else if n < 16 {
    } else if n < 24 {
    } else {
    }
  }

  lemma PieceIsEscape(c: char)
    requires c != NUL
    ensures PieceText(PieceOf(c)) == Escape(c)
  {
    if c as int < 32 && PieceOf(c).Coded? {
      ControlSpelled(c);
      hide UEscape;
    }
  }

  lemma {:induction false} PiecesSpell(s: string, rest: string)
    requires NulFree(s)
    ensures ArePieces(PiecesOf(s)) && SpellPieces(PiecesOf(s), rest) == EscapeAll(s) + rest
    decreases |s|
  {
    if s == "" {
      NothingLeft(rest);
    } else {
      PieceIsEscape(s[0]);
      PiecesSpell(s[1..], rest);
      IsPieceOf(s[0]);
      Associative(Escape(s[0]), EscapeAll(s[1..]), rest);
      hide PieceOf, Escape, IsPiece;
    }
  }

  lemma SmallIsScalar(cp: bv32)
    requires 0 < cp && cp < 0x20
    ensures IsScalar(cp) && Utf8(cp) == [Byte(cp)]
  {
  }

  lemma ControlPiece(c: char)
    requires NUL < c && c as int < 32
    ensures var cp := c as int as bv32; IsScalar(cp) && Utf8(cp) == [c]
  {
    ControlIsSmall(c as int);
    ControlByte(c as int);
    hide Byte, Utf8, IsScalar;
    SmallIsScalar(c as int as bv32);
  }

  lemma IsPieceOf(c: char)
    requires c != NUL
    ensures IsPiece(PieceOf(c)) && PieceMeans(PieceOf(c)) == [c]
  {
    hide Utf8, IsScalar;
    if PieceOf(c).Coded? {
      ControlPiece(c);
    }
  }

  lemma ControlByte(n: nat)
    requires n < 32
    ensures Byte(n as bv32) == n as char
  {
    if n < 16 {
      if n < 8 {
      } else {
      }
    } else {
      HighByte(n - 16);
    }
  }

  lemma HighByte(n: nat)
    requires n < 16
    ensures Byte((16 + n) as bv32) == (16 + n) as char
  {
    HighCode(n);
    ControlIsSmall(16 + n);
    LowEight((16 + n) as bv32);
    hide Low8;
  }

  lemma LowEight(x: bv32)
    requires x < 0x20
    ensures Low8(x) == x
  {
  }

  lemma HighCode(n: nat)
    requires n < 16
    ensures ((16 + n) as bv32) as int == 16 + n
  {
    if n < 8 {
    } else {
    }
  }

  lemma {:induction false} PiecesOfMean(s: string)
    requires NulFree(s)
    ensures ArePieces(PiecesOf(s)) && PiecesMean(PiecesOf(s)) == s
    decreases |s|
  {
    if s != "" {
      IsPieceOf(s[0]);
      PiecesOfMean(s[1..]);
      hide PieceOf, IsPiece, PieceMeans;
    }
  }

  // ----- values -----

  function Blank(fmt: bool, s: string): string {
    if fmt then s else ""
  }

  /** How a tree is written at a depth: formatted text has a blank before each item of an array but the first, a line
      for each member of an object with as many tabs as the object is deep, and a tab after the colon; an empty object
      ends its line one tab short. */
  function Layout(t: Json, depth: nat, fmt: bool): Doc
    decreases t, 0
  {
    match t
    case Number(v) => Numeral(Num(v.Floor < 0, if v.Floor < 0 then -v.Floor else v.Floor, "", NoExp))
    case Str(s) => Chars(PiecesOf(s))
    case Array(items) => List("", SlotsOf(items, depth + 1, fmt, ""))
    case Object(members) =>
      Dict(Blank(fmt, "\n" + Tabs(if depth == 0 then 0 else depth - 1)), EntriesOf(members, depth + 1, fmt))
    case _ => Name(t)
  }

  function SlotsOf(items: seq<Json>, depth: nat, fmt: bool, before: string): (slots: seq<Slot>)
    ensures |slots| == |items|
    decreases items, 1
  {
    if items == [] then []
    else [Slot(before, Layout(items[0], depth, fmt), "")] + SlotsOf(items[1..], depth, fmt, Blank(fmt, " "))
  }

  function EntriesOf(members: seq<Member>, depth: nat, fmt: bool): (entries: seq<Entry>)
    requires depth > 0
    ensures |entries| == |members|
    decreases members, 1
  {
    if members == [] then []
    else
      var end := if |members| == 1 then Blank(fmt, "\n" + Tabs(depth - 1)) else "";
      [Entry(Blank(fmt, "\n" + Tabs(depth)), PiecesOf(members[0].name), ("", Blank(fmt, "\t")),
             Layout(members[0].value, depth, fmt), end)] + EntriesOf(members[1..], depth, fmt)
  }

  // ----- the printed text is the text of the layout -----

  lemma QuotedText(s: string, rest: string)
    requires NulFree(s)
    ensures ArePieces(PiecesOf(s))
    ensures Quoted(s) + rest == "\"" + SpellPieces(PiecesOf(s), "\"" + rest)
  {
    PiecesSpell(s, "\"" + rest);
    hide EscapeAll, PiecesOf, SpellPieces;
    Associative("\"" + EscapeAll(s), "\"", rest);
    Associative("\"", EscapeAll(s), "\"" + rest);
  }

  lemma NumberSpells(v: int, rest: string)
    ensures
      var n := Num(v < 0, if v < 0 then -v else v, "", NoExp);
      IsNum(n) && SpellNum(n, rest) == IntText(v) + rest
  {
    var n: nat := if v < 0 then -v else v;
    hide Decimal;
    NothingLeft(rest);
    NothingLeft(Decimal(n) + rest);
    Associative("-", Decimal(n), rest);
  }

  lemma {:induction false} LayoutSpells(t: Json, depth: nat, fmt: bool, rest: string)
    requires Printable(t)
    ensures IsDoc(Layout(t, depth, fmt)) && Spell(Layout(t, depth, fmt), rest) == Print(t, depth, fmt) + rest
    decreases t, 0
  {
    hide IsNum, SpellNum, IntText, ArePieces, PiecesOf, SpellPieces, Quoted, NulFree;
    hide SlotsOf, EntriesOf, IsSlot, IsEntry, PrintItems, PrintMembers, SpellSlots, SpellEntries, Tabs, Blank, If;
    match t
    case Number(v) =>
      NumberSpells(v.Floor, rest);
    case Str(s) =>
      QuotedText(s, rest);
    case Array(items) =>
      ArrayText(items, depth, fmt, rest);
      ArraySpells(items, depth, fmt, rest);
    case Object(members) =>
      ObjectSpells(members, depth, fmt, rest);
    case _ =>
  }

  lemma {:induction false} ArraySpells(items: seq<Json>, depth: nat, fmt: bool, rest: string)
    requires forall i :: 0 <= i < |items| ==> Printable(items[i])
    ensures IsDoc(Layout(Array(items), depth, fmt))
    ensures Spell(Layout(Array(items), depth, fmt), rest) == "[" + (PrintItems(items, depth + 1, fmt) + ("]" + rest))
    decreases items, 1
  {
    if items == [] {
      NothingLeft("]" + rest);
    } else {
      ItemText(items, depth + 1, fmt, "]" + rest);
      SlotsSpell(items[1..], depth + 1, fmt, rest);
      var more := MoreItems(items[1..], depth + 1, fmt) + ("]" + rest);
      LayoutSpells(items[0], depth + 1, fmt, more);
      NothingLeft(more);
      NothingLeft(Print(items[0], depth + 1, fmt) + more);
      hide Print, Printable, MoreItems, PrintItems;
      FirstSlot(items, depth + 1, fmt, "");
    }
  }

  lemma FirstSlot(items: seq<Json>, depth: nat, fmt: bool, before: string)
    requires items != []
    ensures
      var slots := SlotsOf(items, depth, fmt, before);
      slots[0] == Slot(before, Layout(items[0], depth, fmt), "") &&
      slots[1..] == SlotsOf(items[1..], depth, fmt, Blank(fmt, " "))
  {
    hide Layout;
  }

  lemma {:induction false} SlotsSpell(items: seq<Json>, depth: nat, fmt: bool, rest: string)
    requires forall i :: 0 <= i < |items| ==> Printable(items[i])
    ensures
      var slots := SlotsOf(items, depth, fmt, Blank(fmt, " "));
      && (forall i :: 0 <= i < |slots| ==> IsSlot(slots[i]))
      && SpellSlots(slots, "]" + rest) == MoreItems(items, depth, fmt) + ("]" + rest)
    decreases items, 1
  {
    if items == [] {
      NothingLeft("]" + rest);
    } else {
      var more := MoreItems(items[1..], depth, fmt) + ("]" + rest);
      ItemText(items, depth, fmt, "]" + rest);
      FirstSlot(items, depth, fmt, Blank(fmt, " "));
      SlotsSpell(items[1..], depth, fmt, rest);
      LayoutSpells(items[0], depth, fmt, more);
      NothingLeft(more);
      hide Print, Printable, MoreItems, SlotsOf, Layout, IsDoc;
    }
  }

  // ----- objects -----

  lemma FirstEntry(members: seq<Member>, depth: nat, fmt: bool)
    requires members != [] && depth > 0
    ensures
      var entries := EntriesOf(members, depth, fmt);
      && entries[0] == Entry(Blank(fmt, "\n" + Tabs(depth)), PiecesOf(members[0].name), ("", Blank(fmt, "\t")),
                             Layout(members[0].value, depth, fmt),
                             if |members| == 1 then Blank(fmt, "\n" + Tabs(depth - 1)) else "")
      && entries[1..] == EntriesOf(members[1..], depth, fmt)
  {
    hide Layout, PiecesOf, Tabs;
  }

  lemma BlanksAreGaps(depth: nat, fmt: bool)
    ensures IsGap(Blank(fmt, "\n" + Tabs(depth))) && IsGap(Blank(fmt, "\t"))
  {
    TabsAreTabs(depth);
    hide Tabs;
    var line := "\n" + Tabs(depth);
    assert forall k :: 0 < k < |line| ==> line[k] == Tabs(depth)[k - 1];
  }

  lemma LineText(depth: nat, fmt: bool, rest: string)
    ensures Blank(fmt, "\n" + Tabs(depth)) + rest == If(fmt, "\n") + (If(fmt, Tabs(depth)) + rest)
  {
    hide Tabs;
    NothingLeft(rest);
    Associative("\n", Tabs(depth), rest);
  }

  /** A member, its end, and what follows */
  lemma {:induction false} EntrySpells(m: Member, depth: nat, fmt: bool, end: string, rest: string)
    requires NulFree(m.name) && Printable(m.value) && IsGap(end)
    ensures
      var e := Entry(Blank(fmt, "\n" + Tabs(depth)), PiecesOf(m.name), ("", Blank(fmt, "\t")),
                     Layout(m.value, depth, fmt), end);
      IsEntry(e) && SpellEntry(e, rest) == If(fmt, "\n") + (PrintMember(m, depth, fmt) + (end + rest))
    decreases m, 0
  {
    var value := Print(m.value, depth, fmt) + (end + rest);
    MemberText(m, depth, fmt, end + rest);
    LayoutSpells(m.value, depth, fmt, end + rest);
    QuotedText(m.name, ":" + (If(fmt, "\t") + value));
    BlanksAreGaps(depth, fmt);
    LineText(depth, fmt, Quoted(m.name) + (":" + (If(fmt, "\t") + value)));
    NothingLeft(":" + (If(fmt, "\t") + value));
    hide Print, Printable, PrintMember, Layout, IsDoc, PiecesOf, Quoted, SpellPieces, Tabs;
  }

  lemma NextEntry(entries: seq<Entry>, rest: string)
    ensures entries == [] ==> SpellEntries(entries, rest) == rest
    ensures entries != [] ==>
      SpellEntries(entries, rest) == "," + SpellEntry(entries[0], SpellEntries(entries[1..], rest))
  {
    hide SpellEntry;
  }

  lemma TailOfNone(depth: nat, fmt: bool, rest: string)
    ensures Tail([], depth, fmt, rest) == Blank(fmt, "\n" + Tabs(depth)) + ("}" + rest)
  {
    hide Tabs;
    assert MoreMembers([], depth + 1, fmt) == "";
  }

  /** The first member, when the others are spelled */
  lemma EntriesFrom(members: seq<Member>, depth: nat, fmt: bool, rest: string)
    requires members != [] && NulFree(members[0].name) && Printable(members[0].value)
    requires
      var end := if |members| == 1 then Blank(fmt, "\n" + Tabs(depth)) else "";
      var m := members[0];
      var e := Entry(Blank(fmt, "\n" + Tabs(depth + 1)), PiecesOf(m.name), ("", Blank(fmt, "\t")),
                     Layout(m.value, depth + 1, fmt), end);
      var more := SpellEntries(EntriesOf(members[1..], depth + 1, fmt), "}" + rest);
      && end + more == Tail(members[1..], depth, fmt, rest)
      && SpellEntry(e, more) == If(fmt, "\n") + (PrintMember(m, depth + 1, fmt) + (end + more))
    ensures
      var entries := EntriesOf(members, depth + 1, fmt);
      && SpellEntries(entries, "}" + rest) == Tail(members, depth, fmt, rest)
      && SpellEntry(entries[0], SpellEntries(entries[1..], "}" + rest)) ==
         If(fmt, "\n") + (PrintMember(members[0], depth + 1, fmt) + Tail(members[1..], depth, fmt, rest))
  {
    hide Print, PrintMember, Printable, Layout, PiecesOf, SpellEntry, SpellEntries, EntriesOf, Tabs, Tail;
    FirstEntry(members, depth + 1, fmt);
    MembersText(members, depth, fmt, rest);
    NextEntry(EntriesOf(members, depth + 1, fmt), "}" + rest);
  }

  lemma {:induction false} EntriesSpell(members: seq<Member>, depth: nat, fmt: bool, rest: string)
    requires forall i :: 0 <= i < |members| ==> NulFree(members[i].name) && Printable(members[i].value)
    requires members != []
    ensures
      var entries := EntriesOf(members, depth + 1, fmt);
      && (forall i :: 0 <= i < |entries| ==> IsEntry(entries[i]))
      && SpellEntries(entries, "}" + rest) == Tail(members, depth, fmt, rest)
      && SpellEntry(entries[0], SpellEntries(entries[1..], "}" + rest)) ==
         If(fmt, "\n") + (PrintMember(members[0], depth + 1, fmt) + Tail(members[1..], depth, fmt, rest))
    decreases members, 1
  {
    hide Print, PrintMember, Printable, NulFree, Tabs, Tail;
    hide Layout, PiecesOf, SpellEntry, SpellEntries, EntriesOf, IsEntry;
    var end := if |members| == 1 then Blank(fmt, "\n" + Tabs(depth)) else "";
    var more := SpellEntries(EntriesOf(members[1..], depth + 1, fmt), "}" + rest);
    BlanksAreGaps(depth, fmt);
    FirstEntry(members, depth + 1, fmt);
    if |members| > 1 {
      EntriesSpell(members[1..], depth, fmt, rest);
      NothingLeft(more);
    } else {
      assert members[1..] == [];
      NextEntry(EntriesOf([], depth + 1, fmt), "}" + rest);
      TailOfNone(depth, fmt, rest);
    }
    EntrySpells(members[0], depth + 1, fmt, end, more);
    EntriesFrom(members, depth, fmt, rest);
  }

  lemma ObjectLaidOut(members: seq<Member>, depth: nat, fmt: bool)
    ensures Layout(Object(members), depth, fmt) ==
      Dict(Blank(fmt, "\n" + Tabs(if depth == 0 then 0 else depth - 1)), EntriesOf(members, depth + 1, fmt))
  {
    hide EntriesOf, Tabs, Blank;
  }

  lemma DictIsDoc(gap: string, entries: seq<Entry>, rest: string)
    requires IsGap(gap) && forall i :: 0 <= i < |entries| ==> IsEntry(entries[i])
    ensures IsDoc(Dict(gap, entries))
    ensures Spell(Dict(gap, entries), rest) ==
      "{" + if entries == [] then gap + ("}" + rest)
            else SpellEntry(entries[0], SpellEntries(entries[1..], "}" + rest))
  {
    hide IsEntry, IsGap, SpellEntry, SpellEntries;
  }

  lemma {:induction false} ObjectSpells(members: seq<Member>, depth: nat, fmt: bool, rest: string)
    requires forall i :: 0 <= i < |members| ==> NulFree(members[i].name) && Printable(members[i].value)
    ensures IsDoc(Layout(Object(members), depth, fmt))
    ensures Spell(Layout(Object(members), depth, fmt), rest) == Print(Object(members), depth, fmt) + rest
    decreases members, 2
  {
    hide *;
    var gap := Blank(fmt, "\n" + Tabs(if depth == 0 then 0 else depth - 1));
    var entries := EntriesOf(members, depth + 1, fmt);
    ObjectLaidOut(members, depth, fmt);
    BlanksAreGaps(if depth == 0 then 0 else depth - 1, fmt);
    if members == [] {
      EmptyObjectText(depth, fmt, rest);
      EmptyEnds(depth, fmt);
    } else {
      ObjectText(members, depth, fmt, rest);
      EntriesSpell(members, depth, fmt, rest);
    }
    DictIsDoc(gap, entries, rest);
  }

  lemma EmptyEnds(depth: nat, fmt: bool)
    ensures Closing(depth, fmt) == Blank(fmt, "\n" + Tabs(depth))
    ensures depth > 0 ==> Closing(depth - 1, fmt) == Blank(fmt, "\n" + Tabs(depth - 1))
  {
    hide Tabs;
  }

  // ----- the layout of a tree means the tree -----

  lemma NumberMeant(v: real)
    requires Printable(Number(v))
    ensures
      var n := Num(v.Floor < 0, if v.Floor < 0 then -v.Floor else v.Floor, "", NoExp);
      IsNum(n) && NumMeans(n) == v
  {
    assert Ten(0) == 1.0;
  }

  lemma {:induction false} LayoutMeans(t: Json, depth: nat, fmt: bool)
    requires Printable(t)
    ensures IsDoc(Layout(t, depth, fmt)) && Means(Layout(t, depth, fmt)) == t
    decreases t, 0
  {
    hide IsNum, NumMeans, ArePieces, PiecesOf, PiecesMean, NulFree;
    hide SlotsOf, EntriesOf, IsSlot, IsEntry, SlotsMean, EntriesMean;
    hide Spell, Print, Tabs, Blank;
    match t
    case Number(v) =>
      NumberMeant(v);
    case Str(s) =>
      PiecesOfMean(s);
    case Array(items) =>
      SlotsOfMean(items, depth + 1, fmt, "");
    case Object(members) =>
      BlanksAreGaps(if depth == 0 then 0 else depth - 1, fmt);
      EntriesOfMean(members, depth + 1, fmt);
    case _ =>
  }

  lemma {:induction false} SlotsOfMean(items: seq<Json>, depth: nat, fmt: bool, before: string)
    requires (forall i :: 0 <= i < |items| ==> Printable(items[i])) && IsGap(before)
    ensures
      var slots := SlotsOf(items, depth, fmt, before);
      (forall i :: 0 <= i < |slots| ==> IsSlot(slots[i])) && SlotsMean(slots) == items
    decreases items, 1
  {
    if items != [] {
      FirstSlot(items, depth, fmt, before);
      LayoutMeans(items[0], depth, fmt);
      SlotsOfMean(items[1..], depth, fmt, Blank(fmt, " "));
      hide Printable, Layout, IsDoc, Means, SlotsOf;
    }
  }

  lemma {:induction false} EntriesOfMean(members: seq<Member>, depth: nat, fmt: bool)
    requires forall i :: 0 <= i < |members| ==> NulFree(members[i].name) && Printable(members[i].value)
    requires depth > 0
    ensures
      var entries := EntriesOf(members, depth, fmt);
      (forall i :: 0 <= i < |entries| ==> IsEntry(entries[i])) && EntriesMean(entries) == members
    decreases members, 1
  {
    if members != [] {
      FirstEntry(members, depth, fmt);
      BlanksAreGaps(depth, fmt);
      BlanksAreGaps(depth - 1, fmt);
      PiecesOfMean(members[0].name);
      LayoutMeans(members[0].value, depth, fmt);
      EntriesOfMean(members[1..], depth, fmt);
      hide Printable, Layout, IsDoc, Means, EntriesOf, PiecesOf, PiecesMean, Tabs, NulFree;
    }
  }

  /** What is printed is a text of the grammar, laid out in this way, that means the tree. */
  lemma PrintedIsJson(t: Json, depth: nat, fmt: bool)
    requires Printable(t)
    ensures IsDoc(Layout(t, depth, fmt)) && Means(Layout(t, depth, fmt)) == t
    ensures Print(t, depth, fmt) == Spell(Layout(t, depth, fmt), "")
  {
    hide Print, Printable, Layout, IsDoc, Means, Spell;
    LayoutMeans(t, depth, fmt);
    LayoutSpells(t, depth, fmt, "");
    NothingLeft(Print(t, depth, fmt));
  }
}
