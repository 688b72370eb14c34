/** What `cJSON_Minify` is for: a JSON text with comments and blanks between its parts is left without them, and parses
    as what it means. Source: lib/cJSON.c, sections 2 to 7 of RFC 8259. */
module JsonComments {
  import opened Sequences
  import opened Decimals
  import opened JsonText
  import opened JsonParser
  import opened JsonRoundTrip
  import opened JsonUnicode
  import opened JsonGrammar
  import opened JsonMinify

  // ----- what may stand between the parts -----

  datatype Filler = Blanks(text: string) | LineComment(text: string) | BlockComment(text: string)

  predicate IsFiller(f: Filler) {
    match f
    case Blanks(text) => forall k :: 0 <= k < |text| ==> text[k] in " \t\r\n"
    case LineComment(text) => '\n' !in text
    case BlockComment(text) => !HasEnd("*" + text)
  }

  function FillerText(f: Filler): string {
    match f
    case Blanks(text) => text
    case LineComment(text) => "//" + text + "\n"
    case BlockComment(text) => "/*" + text + "*/"
  }

  function FillText(fs: seq<Filler>): string {
    if fs == [] then "" else FillerText(fs[0]) + FillText(fs[1..])
  }

  ghost predicate Fills(gap: string) {
    exists fs :: (forall i :: 0 <= i < |fs| ==> IsFiller(fs[i])) && FillText(fs) == gap
  }

  lemma FillerVanishes(f: Filler, rest: string)
    requires IsFiller(f)
    ensures Minify(FillerText(f) + rest, Plain) == Minify(rest, Plain)
  {
    match f
    case Blanks(text) =>
      BlanksVanish(text, rest);
      NothingLeft(Minify(rest, Plain));
    case LineComment(text) =>
      CommentsVanish(text, rest);
      hide Minify;
      Associative("//" + text, "\n", rest);
    case BlockComment(text) =>
      CommentsVanish(text, rest);
      hide Minify;
      Associative("/*" + text, "*/", rest);
  }

  lemma {:induction false} FillTextVanishes(fs: seq<Filler>, rest: string)
    requires forall i :: 0 <= i < |fs| ==> IsFiller(fs[i])
    ensures Minify(FillText(fs) + rest, Plain) == Minify(rest, Plain)
    decreases |fs|
  {
    if fs == [] {
      NothingLeft(rest);
    } else {
      hide Minify, IsFiller, FillerText;
      FillerVanishes(fs[0], FillText(fs[1..]) + rest);
      FillTextVanishes(fs[1..], rest);
      Associative(FillerText(fs[0]), FillText(fs[1..]), rest);
    }
  }

  lemma FillsVanish(gap: string, rest: string)
    requires Fills(gap)
    ensures Minify(gap + rest, Plain) == Minify(rest, Plain)
  {
    var fs :| (forall i :: 0 <= i < |fs| ==> IsFiller(fs[i])) && FillText(fs) == gap;
    FillTextVanishes(fs, rest);
  }

  // ----- texts with comments -----

  /** A value written with comments and blanks between its parts */
  ghost predicate Commented(d: Doc)
    decreases d
  {
    match d
    case Name(v) => v == Null || v == False || v == True
    case Numeral(n) => IsNum(n)
    case Chars(ps) => ArePieces(ps)
    case List(gap, slots) => Fills(gap) && forall i :: 0 <= i < |slots| ==> CommentedSlot(slots[i])
    case Dict(gap, entries) => Fills(gap) && forall i :: 0 <= i < |entries| ==> CommentedEntry(entries[i])
  }

  ghost predicate CommentedSlot(slot: Slot)
    decreases slot
  {
    Fills(slot.before) && Commented(slot.doc) && Fills(slot.after)
  }

  ghost predicate CommentedEntry(e: Entry)
    decreases e
  {
    && Fills(e.before) && ArePieces(e.name) && Fills(e.colon.0) && Fills(e.colon.1)
    && Commented(e.doc) && Fills(e.after)
  }

  /** The value with nothing between its parts */
  function Bare(d: Doc): Doc
    decreases d, 0
  {
    match d
    case List(_, slots) => List("", BareSlots(slots))
    case Dict(_, entries) => Dict("", BareEntries(entries))
    case _ => d
  }

  function BareSlots(slots: seq<Slot>): (bare: seq<Slot>)
    ensures |bare| == |slots|
    decreases slots, 1
  {
    if slots == [] then [] else [Slot("", Bare(slots[0].doc), "")] + BareSlots(slots[1..])
  }

  function BareEntries(entries: seq<Entry>): (bare: seq<Entry>)
    ensures |bare| == |entries|
    decreases entries, 1
  {
    if entries == [] then []
    else [Entry("", entries[0].name, ("", ""), Bare(entries[0].doc), "")] + BareEntries(entries[1..])
  }

  // ----- minifying takes them out -----

  lemma DigitIsPlain(d: nat, cap: bool)
    requires d < 16
    ensures
      var c := HexDigit(d);
      var e := if cap && 'a' <= c <= 'f' then c - 'a' + 'A' else c;
      e != BACKSLASH && e != QUOTE
  {
  }

  lemma RecaseIsPlain(a: nat, b: nat, c: nat, d: nat, caps: seq<bool>)
    requires a < 16 && b < 16 && c < 16 && d < 16
    ensures
      var s := Recase(FourDigits(a, b, c, d), caps);
      forall k :: 0 <= k < 4 ==> s[k] != BACKSLASH && s[k] != QUOTE
  {
    hide HexDigit;
    var digits := [a, b, c, d];
    forall k | 0 <= k < 4
      ensures var s := Recase(FourDigits(a, b, c, d), caps); s[k] != BACKSLASH && s[k] != QUOTE
    {
      DigitIsPlain(digits[k], k < |caps| && caps[k]);
    }
  }

  lemma HexIsPlain(u: bv32, caps: seq<bool>)
    ensures forall k :: 0 <= k < 4 ==> Hex(u, caps)[k] != BACKSLASH && Hex(u, caps)[k] != QUOTE
  {
    hide Nibble, Recase, FourDigits;
    RecaseIsPlain(Nibble(u >> 12) as int, Nibble(u >> 8) as int, Nibble(u >> 4) as int, Nibble(u) as int, caps);
  }

  lemma UnitStays(u: bv32, caps: seq<bool>, rest: string)
    ensures Minify("\\u" + Hex(u, caps) + rest, Literal) == "\\u" + Hex(u, caps) + Minify(rest, Literal)
  {
    HexIsPlain(u, caps);
    hide Minify, Hex;
    DigitsStay(Hex(u, caps), rest);
    BackslashStays('u', Hex(u, caps) + rest);
    assert "\\u" == [BACKSLASH, 'u'];
    Associative("\\u", Hex(u, caps), rest);
    Associative("\\u", Hex(u, caps), Minify(rest, Literal));
  }

  lemma SpellingStays(p: Spelling, rest: string)
    ensures Minify(UEscape(p) + rest, Literal) == UEscape(p) + Minify(rest, Literal)
  {
    hide Minify, Hex, High, Low;
    if p.cp < 0x10000 {
      UnitStays(p.cp, p.first, rest);
    } else {
      var first, second := "\\u" + Hex(High(p.cp), p.first), "\\u" + Hex(Low(p.cp), p.second);
      UnitStays(Low(p.cp), p.second, rest);
      UnitStays(High(p.cp), p.first, second + rest);
      assert UEscape(p) == first + second;
      Associative(first, second, rest);
      Associative(first, second, Minify(rest, Literal));
    }
  }

  lemma PieceStays(p: Piece, rest: string)
    requires IsPiece(p)
    ensures Minify(PieceText(p) + rest, Literal) == PieceText(p) + Minify(rest, Literal)
  {
    match p
    case Raw(c) =>
      DigitsStay([c], rest);
    case Short(letter) =>
      BackslashStays(letter, rest);
      assert "\\" + [letter] == [BACKSLASH, letter];
    case Coded(spelling) =>
      SpellingStays(spelling, rest);
  }

  lemma {:induction false} PiecesStay(ps: seq<Piece>, rest: string)
    requires ArePieces(ps)
    ensures Minify(SpellPieces(ps, "\"" + rest), Literal) == SpellPieces(ps, "\"" + Minify(rest, Plain))
    decreases |ps|
  {
    if ps == [] {
      assert ("\"" + rest)[1..] == rest;
    } else {
      PieceStays(ps[0], SpellPieces(ps[1..], "\"" + rest));
      PiecesStay(ps[1..], rest);
      hide Minify, PieceText;
    }
  }

  lemma StringStays(ps: seq<Piece>, rest: string)
    requires ArePieces(ps)
    ensures Minify("\"" + SpellPieces(ps, "\"" + rest), Plain) == "\"" + SpellPieces(ps, "\"" + Minify(rest, Plain))
  {
    var inner := SpellPieces(ps, "\"" + rest);
    assert ("\"" + inner)[1..] == inner;
    assert Minify("\"" + inner, Plain) == "\"" + Minify(inner, Literal);
    hide Minify, SpellPieces;
    PiecesStay(ps, rest);
  }

  /** A mark that is neither a blank nor a slash nor a quote */
  lemma MarkStays(mark: string, rest: string)
    requires |mark| == 1 && mark[0] in "[]{},:"
    ensures Minify(mark + rest, Plain) == mark + Minify(rest, Plain)
  {
    assert (mark + rest)[1..] == rest && [mark[0]] == mark;
  }

  lemma ExpSpells(e: Exp, rest: string)
    ensures SpellExp(e, rest) == SpellExp(e, "") + rest
  {
    if e.NoExp? {
      NothingLeft(rest);
    } else {
      NothingLeft(e.digits);
      Associative(e.sign, e.digits, rest);
      Associative([e.letter], e.sign + e.digits, rest);
    }
  }

  lemma NumSpells(n: Num, rest: string)
    ensures SpellNum(n, rest) == SpellNum(n, "") + rest
  {
    hide SpellExp, Decimal;
    var frac, exp := if n.frac == "" then "" else "." + n.frac, SpellExp(n.exp, "");
    ExpSpells(n.exp, rest);
    Associative(frac, exp, rest);
    Associative(Decimal(n.whole), frac + exp, rest);
    Associative(if n.negative then "-" else "", Decimal(n.whole) + (frac + exp), rest);
  }

  lemma NumIsPlain(n: Num)
    requires IsNum(n)
    ensures forall k :: 0 <= k < |SpellNum(n, "")| ==> IsPlain(SpellNum(n, "")[k])
  {
    var whole := Decimal(n.whole);
    assert forall k :: 0 <= k < |whole| ==> IsPlain(whole[k]);
    assert forall k :: 0 <= k < |n.frac| ==> IsPlain(n.frac[k]);
    assert n.exp.Exp? ==> forall k :: 0 <= k < |n.exp.digits| ==> IsPlain(n.exp.digits[k]);
    assert n.exp.Exp? ==> forall k :: 0 <= k < |n.exp.sign| ==> IsPlain(n.exp.sign[k]);
    hide Decimal;
  }

  lemma NumStays(n: Num, rest: string)
    requires IsNum(n)
    ensures Minify(SpellNum(n, rest), Plain) == SpellNum(n, Minify(rest, Plain))
  {
    hide Minify, SpellNum, IsPlain;
    NumSpells(n, rest);
    NumSpells(n, Minify(rest, Plain));
    NumIsPlain(n);
    PlainStays(SpellNum(n, ""), rest);
  }

  lemma NameStays(v: Json, rest: string)
    requires v == Null || v == False || v == True
    ensures Minify(Spell(Name(v), rest), Plain) == Spell(Name(v), Minify(rest, Plain))
  {
    var word := if v == Null then "null" else if v == False then "false" else "true";
    assert forall k :: 0 <= k < |word| ==> IsPlain(word[k]);
    hide Minify, IsPlain;
    PlainStays(word, rest);
  }

  /** Minifying a text takes out what fills the gaps between its parts, and nothing else. */
  lemma {:induction false} ValueMinified(d: Doc, rest: string)
    requires Commented(d)
    ensures Minify(Spell(d, rest), Plain) == Spell(Bare(d), Minify(rest, Plain))
    decreases d, 1
  {
    match d
    case Name(v) =>
      NameStays(v, rest);
    case Numeral(n) =>
      NumStays(n, rest);
      hide SpellNum, Minify, IsNum;
    case Chars(ps) =>
      StringStays(ps, rest);
      hide SpellPieces, Minify, ArePieces;
    case List(gap, slots) =>
      ListMinified(gap, slots, rest);
    case Dict(gap, entries) =>
      DictMinified(gap, entries, rest);
  }

  lemma NothingBefore(slot: Slot, rest: string)
    requires slot.before == "" && slot.after == ""
    ensures SpellSlot(slot, rest) == Spell(slot.doc, rest)
  {
    hide Spell;
    NothingLeft(rest);
    NothingLeft(Spell(slot.doc, rest));
  }

  lemma {:induction false} SlotMinified(slot: Slot, rest: string)
    requires CommentedSlot(slot)
    ensures Minify(SpellSlot(slot, rest), Plain) == SpellSlot(Slot("", Bare(slot.doc), ""), Minify(rest, Plain))
    decreases slot, 0
  {
    hide Minify, Spell, Bare, Fills, Commented;
    FillsVanish(slot.before, Spell(slot.doc, slot.after + rest));
    ValueMinified(slot.doc, slot.after + rest);
    FillsVanish(slot.after, rest);
    hide SpellSlot;
    NothingBefore(Slot("", Bare(slot.doc), ""), Minify(rest, Plain));
    SlotText(slot, rest);
  }

  lemma SlotText(slot: Slot, rest: string)
    ensures SpellSlot(slot, rest) == slot.before + Spell(slot.doc, slot.after + rest)
  {
    hide Spell;
  }

  lemma FirstBareSlot(slots: seq<Slot>)
    requires slots != []
    ensures BareSlots(slots)[0] == Slot("", Bare(slots[0].doc), "") && BareSlots(slots)[1..] == BareSlots(slots[1..])
  {
    hide Bare;
  }

  lemma NextSlot(slots: seq<Slot>, rest: string)
    ensures slots == [] ==> SpellSlots(slots, rest) == rest
    ensures slots != [] ==> SpellSlots(slots, rest) == "," + SpellSlot(slots[0], SpellSlots(slots[1..], rest))
  {
    hide SpellSlot;
  }

  lemma {:induction false} SlotsMinified(slots: seq<Slot>, rest: string)
    requires forall i :: 0 <= i < |slots| ==> CommentedSlot(slots[i])
    ensures Minify(SpellSlots(slots, "]" + rest), Plain) == SpellSlots(BareSlots(slots), "]" + Minify(rest, Plain))
    decreases slots, 1
  {
    NextSlot(slots, "]" + rest);
    NextSlot(BareSlots(slots), "]" + Minify(rest, Plain));
    hide Minify, SpellSlot, SpellSlots, CommentedSlot, BareSlots, Bare;
    if slots == [] {
      MarkStays("]", rest);
    } else {
      var more := SpellSlots(slots[1..], "]" + rest);
      FirstBareSlot(slots);
      MarkStays(",", SpellSlot(slots[0], more));
      SlotMinified(slots[0], more);
      SlotsMinified(slots[1..], rest);
    }
  }

  lemma {:induction false} ListMinified(gap: string, slots: seq<Slot>, rest: string)
    requires Fills(gap) && forall i :: 0 <= i < |slots| ==> CommentedSlot(slots[i])
    ensures Minify(Spell(List(gap, slots), rest), Plain) == Spell(Bare(List(gap, slots)), Minify(rest, Plain))
    decreases slots, 2
  {
    var inside := Inside(List(gap, slots), rest);
    assert Spell(List(gap, slots), rest) == "[" + inside;
    assert Spell(Bare(List(gap, slots)), Minify(rest, Plain)) ==
      "[" + Inside(List("", BareSlots(slots)), Minify(rest, Plain));
    hide Minify, Fills, Spell, SpellSlot, SpellSlots, CommentedSlot, BareSlots, Bare;
    MarkStays("[", inside);
    if slots == [] {
      FillsVanish(gap, "]" + rest);
      MarkStays("]", rest);
      NothingLeft("]" + Minify(rest, Plain));
    } else {
      FirstBareSlot(slots);
      SlotMinified(slots[0], SpellSlots(slots[1..], "]" + rest));
      SlotsMinified(slots[1..], rest);
    }
  }

  // ----- members -----

  lemma {:induction false} EntryMinified(e: Entry, rest: string)
    requires CommentedEntry(e)
    ensures Minify(SpellEntry(e, rest), Plain) ==
      SpellEntry(Entry("", e.name, ("", ""), Bare(e.doc), ""), Minify(rest, Plain))
    decreases e, 0
  {
    hide Minify, Spell, SpellPieces, Bare, Fills, Commented, ArePieces;
    var value := Spell(e.doc, e.after + rest);
    var colon := ":" + (e.colon.1 + value);
    FillsVanish(e.before, "\"" + SpellPieces(e.name, "\"" + (e.colon.0 + colon)));
    StringStays(e.name, e.colon.0 + colon);
    FillsVanish(e.colon.0, colon);
    MarkStays(":", e.colon.1 + value);
    FillsVanish(e.colon.1, value);
    ValueMinified(e.doc, e.after + rest);
    FillsVanish(e.after, rest);
    BareEntryText(e.name, Bare(e.doc), Minify(rest, Plain));
  }

  lemma BareEntryText(name: seq<Piece>, d: Doc, rest: string)
    ensures SpellEntry(Entry("", name, ("", ""), d, ""), rest) ==
      "\"" + SpellPieces(name, "\"" + (":" + Spell(d, rest)))
  {
    hide Spell, SpellPieces;
    NothingLeft(rest);
    NothingLeft(Spell(d, rest));
    NothingLeft(":" + Spell(d, rest));
    NothingLeft("\"" + SpellPieces(name, "\"" + (":" + Spell(d, rest))));
  }

  lemma FirstBareEntry(entries: seq<Entry>)
    requires entries != []
    ensures BareEntries(entries)[0] == Entry("", entries[0].name, ("", ""), Bare(entries[0].doc), "")
    ensures BareEntries(entries)[1..] == BareEntries(entries[1..])
  {
    hide Bare;
  }

  lemma NextEntry(entries: seq<Entry>, rest: string)
    ensures entries == [] ==> SpellEntries(entries, rest) == rest
    ensures entries != [] ==>
      SpellEntries(entries, rest) == "," + SpellEntry(entries[0], SpellEntries(entries[1..], rest))
  {
    hide SpellEntry;
  }

  lemma {:induction false} EntriesMinified(entries: seq<Entry>, rest: string)
    requires forall i :: 0 <= i < |entries| ==> CommentedEntry(entries[i])
    ensures Minify(SpellEntries(entries, "}" + rest), Plain) ==
      SpellEntries(BareEntries(entries), "}" + Minify(rest, Plain))
    decreases entries, 1
  {
    NextEntry(entries, "}" + rest);
    NextEntry(BareEntries(entries), "}" + Minify(rest, Plain));
    hide Minify, SpellEntry, SpellEntries, CommentedEntry, BareEntries, Bare;
    if entries == [] {
      MarkStays("}", rest);
    } else {
      var more := SpellEntries(entries[1..], "}" + rest);
      FirstBareEntry(entries);
      MarkStays(",", SpellEntry(entries[0], more));
      EntryMinified(entries[0], more);
      EntriesMinified(entries[1..], rest);
    }
  }

  lemma {:induction false} DictMinified(gap: string, entries: seq<Entry>, rest: string)
    requires Fills(gap) && forall i :: 0 <= i < |entries| ==> CommentedEntry(entries[i])
    ensures Minify(Spell(Dict(gap, entries), rest), Plain) == Spell(Bare(Dict(gap, entries)), Minify(rest, Plain))
    decreases entries, 2
  {
    var inside := Inside(Dict(gap, entries), rest);
    assert Spell(Dict(gap, entries), rest) == "{" + inside;
    assert Spell(Bare(Dict(gap, entries)), Minify(rest, Plain)) ==
      "{" + Inside(Dict("", BareEntries(entries)), Minify(rest, Plain));
    hide Minify, Fills, Spell, SpellEntry, SpellEntries, CommentedEntry, BareEntries, Bare;
    MarkStays("{", inside);
    if entries == [] {
      FillsVanish(gap, "}" + rest);
      MarkStays("}", rest);
      NothingLeft("}" + Minify(rest, Plain));
    } else {
      FirstBareEntry(entries);
      EntryMinified(entries[0], SpellEntries(entries[1..], "}" + rest));
      EntriesMinified(entries[1..], rest);
    }
  }

  // ----- and it parses -----

  lemma {:induction false} BareIsDoc(d: Doc)
    requires Commented(d)
    ensures IsDoc(Bare(d))
    decreases d, 1
  {
    match d
    case List(_, slots) => BareSlotsAre(slots);
    case Dict(_, entries) => BareEntriesAre(entries);
    case _ =>
  }

  lemma {:induction false} BareSlotsAre(slots: seq<Slot>)
    requires forall i :: 0 <= i < |slots| ==> CommentedSlot(slots[i])
    ensures forall i :: 0 <= i < |slots| ==> IsSlot(BareSlots(slots)[i])
    decreases slots, 0
  {
    if slots != [] {
      assert CommentedSlot(slots[0]);
      FirstBareSlot(slots);
      BareIsDoc(slots[0].doc);
      BareSlotsAre(slots[1..]);
      hide Commented, IsDoc, Bare, BareSlots, Fills;
      assert IsSlot(BareSlots(slots)[0]);
    }
  }

  lemma {:induction false} BareEntriesAre(entries: seq<Entry>)
    requires forall i :: 0 <= i < |entries| ==> CommentedEntry(entries[i])
    ensures forall i :: 0 <= i < |entries| ==> IsEntry(BareEntries(entries)[i])
    decreases entries, 0
  {
    if entries != [] {
      assert CommentedEntry(entries[0]);
      FirstBareEntry(entries);
      BareIsDoc(entries[0].doc);
      BareEntriesAre(entries[1..]);
      hide Commented, IsDoc, Bare, BareEntries, Fills, ArePieces;
      assert IsEntry(BareEntries(entries)[0]);
    }
  }

  /** A JSON text with comments and blanks between its parts, minified, is a JSON text without them and parses as what
      it means. */
  lemma MinifiedParses(d: Doc)
    requires Commented(d)
    ensures Minify(Spell(d, ""), Plain) == Spell(Bare(d), "") && IsDoc(Bare(d))
    ensures ParseValue(Minify(Spell(d, ""), Plain)) == Got(Means(Bare(d)), "")
  {
    assert Minify("", Plain) == "";
    hide Minify, Spell, Bare, Means, IsDoc, Commented, ParseValue;
    ValueMinified(d, "");
    BareIsDoc(d);
    ValueReads(Bare(d), "");
  }
}
