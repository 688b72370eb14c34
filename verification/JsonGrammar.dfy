/** Every way to write a JSON value, by the grammar of sections 2 to 7 of RFC 8259, and that each is parsed as what it
    means. Source: lib/cJSON.c. */
module JsonGrammar {
  import opened Chars
  import opened Decimals
  import opened JsonText
  import opened JsonParser
  import opened JsonRoundTrip
  import opened JsonUnicode

  // ----- strings -----

  /** A piece of a string: a character as it is, an escape of two characters, or a code point in hexadecimal digits. */
  datatype Piece = Raw(c: char) | Short(letter: char) | Coded(spelling: Spelling)

  predicate IsPiece(p: Piece) {
    match p
    case Raw(c) => c != '\"' && c != '\\'
    case Short(letter) => letter in "\"\\/bfnrt"
    case Coded(spelling) => IsScalar(spelling.cp)
  }

  function PieceText(p: Piece): string {
    match p
    case Raw(c) => [c]
    case Short(letter) => "\\" + [letter]
    case Coded(spelling) => UEscape(spelling)
  }

  /** The bytes that a piece stands for */
  function PieceMeans(p: Piece): string {
    match p
    case Raw(c) => [c]
    case Coded(spelling) => Utf8(spelling.cp)
    case Short(letter) =>
      if letter == 'b' then "\U{8}" else if letter == 'f' then "\U{C}" else if letter == 'n' then "\U{A}"
      else if letter == 'r' then "\U{D}" else if letter == 't' then "\U{9}" else [letter]
  }

  predicate ArePieces(ps: seq<Piece>) {
    forall i :: 0 <= i < |ps| ==> IsPiece(ps[i])
  }

  /** The pieces, then `rest` */
  function SpellPieces(ps: seq<Piece>, rest: string): string {
    if ps == [] then rest else PieceText(ps[0]) + SpellPieces(ps[1..], rest)
  }

  function PiecesMean(ps: seq<Piece>): string {
    if ps == [] then "" else PieceMeans(ps[0]) + PiecesMean(ps[1..])
  }

  lemma ShortReads(letter: char, rest: string)
    requires IsPiece(Short(letter))
    ensures OneEscape([letter] + rest) == (PieceMeans(Short(letter)), rest)
  {
    assert ([letter] + rest)[1..] == rest;
    hide UnicodeEscape;
  }

  lemma PieceReads(p: Piece, rest: string)
    requires IsPiece(p)
    ensures Unescape(PieceText(p) + rest) == (PieceMeans(p) + Unescape(rest).0, Unescape(rest).1)
  {
    var s := PieceText(p) + rest;
    match p
    case Raw(c) =>
      assert s[0] == c && s[1..] == rest;
    case Short(letter) =>
      assert s[0] == BACKSLASH && s[1..] == [letter] + rest;
      hide OneEscape, PieceMeans;
      ShortReads(letter, rest);
    case Coded(spelling) =>
      EscapeRead(spelling, rest);
      hide UEscape, Utf8, OneEscape;
  }

  lemma {:induction false} PiecesRead(ps: seq<Piece>, rest: string)
    requires ArePieces(ps)
    ensures Unescape(SpellPieces(ps, "\"" + rest)) == (PiecesMean(ps), rest)
    decreases |ps|
  {
    if ps != [] {
      PieceReads(ps[0], SpellPieces(ps[1..], "\"" + rest));
      PiecesRead(ps[1..], rest);
      hide Unescape, PieceText, PieceMeans;
    }
  }

  // ----- what the grammar does not allow -----

  /** A string that does not end is taken up to the end of the text. */
  lemma {:induction false} OpenStringReads(ps: seq<Piece>)
    requires ArePieces(ps)
    ensures Unescape(SpellPieces(ps, "")) == (PiecesMean(ps), "")
    decreases |ps|
  {
    if ps != [] {
      PieceReads(ps[0], SpellPieces(ps[1..], ""));
      OpenStringReads(ps[1..]);
      hide Unescape, PieceText, PieceMeans;
    }
  }

  /** A backslash before any other character stands for nothing. */
  lemma OtherEscapes(c: char, rest: string)
    requires c !in "bfnrtu" && c != NUL
    ensures Unescape(['\\', c] + rest) == ([c] + Unescape(rest).0, Unescape(rest).1)
  {
    var s := ['\\', c] + rest;
    assert s[1..] == [c] + rest && s[1..][1..] == rest;
    assert OneEscape(s[1..]) == ([c], rest);
  }

  /** Hexadecimal digits of 0 and of half a surrogate pair are dropped, and so are four characters that are not all
      hexadecimal digits. */
  lemma DroppedEscapes(u: bv32, caps: seq<bool>, bad: string, rest: string)
    requires u == 0 || (0xDC00 <= u && u <= 0xDFFF) || (0xD800 <= u && u <= 0xDBFF && (rest == "" || rest[0] != '\\'))
    requires |bad| == 4 && exists i :: 0 <= i < 4 && bad[i] !in "0123456789abcdefABCDEF"
    ensures OneEscape("u" + (Hex(u, caps) + rest)) == ("", rest)
    ensures OneEscape("u" + (bad + rest)) == ("", rest)
  {
    assert ("u" + (Hex(u, caps) + rest))[1..] == Hex(u, caps) + rest && ("u" + (bad + rest))[1..] == bad + rest;
    Hex4Reads(u, caps, rest);
    BadDigits(bad, rest);
    hide Hex4, Hex, Drop;
  }

  lemma BadDigits(bad: string, rest: string)
    requires |bad| == 4 && exists i :: 0 <= i < 4 && bad[i] !in "0123456789abcdefABCDEF"
    ensures Hex4(bad + rest) == 0 && Drop(bad + rest, 4) == rest
  {
    var i :| 0 <= i < 4 && bad[i] !in "0123456789abcdefABCDEF";
    NoHexValue(bad[i]);
    hide HexValue, Nibbles;
    assert At(bad + rest, i) == bad[i];
  }

  lemma NoHexValue(c: char)
    requires c !in "0123456789abcdefABCDEF"
    ensures HexValue(c) < 0
  {
  }

  // ----- numbers -----

  datatype Exp = NoExp | Exp(letter: char, sign: string, digits: string)

  /** A number: its sign, the digits before the dot, those after it, and an exponent. */
  datatype Num = Num(negative: bool, whole: nat, frac: string, exp: Exp)

  predicate AllDigits(s: string) {
    forall k :: 0 <= k < |s| ==> '0' <= s[k] <= '9'
  }

  predicate IsNum(n: Num) {
    && AllDigits(n.frac)
    && (n.exp.Exp? ==>
          && (n.exp.letter == 'e' || n.exp.letter == 'E') && n.exp.sign in ["", "+", "-"]
          && n.exp.digits != "" && AllDigits(n.exp.digits))
  }

  function SpellExp(e: Exp, rest: string): string {
    if e.NoExp? then rest else [e.letter] + (e.sign + (e.digits + rest))
  }

  function SpellNum(n: Num, rest: string): string {
    (if n.negative then "-" else "") +
    (Decimal(n.whole) + ((if n.frac == "" then "" else "." + n.frac) + SpellExp(n.exp, rest)))
  }

  function Ten(k: nat): (t: real)
    ensures t >= 1.0
  {
    if k == 0 then 1.0 else 10.0 * Ten(k - 1)
  }

  /** What the exponent multiplies by, as a power of ten, and what it and the places after the dot divide by. */
  function Up(n: Num): nat
    requires IsNum(n)
  {
    if n.exp.Exp? && n.exp.sign != "-" then Value(0, n.exp.digits) else 0
  }

  function Down(n: Num): nat
    requires IsNum(n)
  {
    |n.frac| + if n.exp.Exp? && n.exp.sign == "-" then Value(0, n.exp.digits) else 0
  }

  /** The digits before and after the dot as one number */
  function Significant(n: Num): nat
    requires IsNum(n)
  {
    Value(n.whole, n.frac)
  }

  function NumMeans(n: Num): real
    requires IsNum(n)
  {
    Signed(n.negative, Significant(n), Ten(Up(n)) / Ten(Down(n)))
  }

  function Signed(negative: bool, digits: nat, scale: real): real {
    (if negative then -1.0 else 1.0) * digits as real * scale
  }

  /** A text that cannot go on with a number */
  predicate Ends(s: string) {
    s == "" || s[0] !in "0123456789.eE"
  }

  lemma TenOver(a: nat, b: nat)
    requires a > 0 && b > 0
    ensures Ten(a) / Ten(b) == Ten(a - 1) / Ten(b - 1)
  {
    CancelTen(Ten(a - 1), Ten(b - 1));
  }

  lemma CancelTen(x: real, y: real)
    requires y >= 1.0
    ensures (10.0 * x) / (10.0 * y) == x / y
  {
    var q := x / y;
    assert q * y == x;
    assert q * (10.0 * y) == 10.0 * (q * y);
  }

  lemma {:induction false} Pow10Is(a: nat, b: nat)
    ensures Pow10(a - b) == Ten(a) / Ten(b)
    decreases a + b
  {
    if a > 0 && b > 0 {
      TenOver(a, b);
      Pow10Is(a - 1, b - 1);
    } else if a > 0 {
      Pow10Is(a - 1, 0);
    } else if b > 0 {
      Pow10Is(0, b - 1);
      OverTen(Ten(b - 1));
    }
  }

  lemma OverTen(t: real)
    requires t >= 1.0
    ensures 1.0 / t / 10.0 == 1.0 / (10.0 * t)
  {
    assert 1.0 / t / 10.0 * (10.0 * t) == 1.0;
  }

  lemma DigitsEnd(digits: string, rest: string)
    requires AllDigits(digits) && (rest == "" || rest[0] !in "0123456789")
    ensures DigitCount(digits + rest) == |digits|
    ensures (digits + rest)[..|digits|] == digits && (digits + rest)[|digits|..] == rest
  {
    hide DigitCount;
    var s := digits + rest;
    assert rest != "" ==> !IsDigit(rest[0]);
    assert forall k :: 0 <= k < |digits| ==> s[k] == digits[k];
    DigitCountIs(s, |digits|);
  }

  lemma ExpDigits(letter: char, sign: string, digits: string, rest: string)
    requires (letter == 'e' || letter == 'E') && sign in ["", "+", "-"] && digits != "" && AllDigits(digits)
    requires rest == "" || rest[0] !in "0123456789"
    ensures
      var s := [letter] + (sign + (digits + rest));
      && At(s, 0) == letter && (At(s, 1) == '-' <==> sign == "-") && (At(s, 1) == '+' <==> sign == "+")
      && Drop(s, if sign == "" then 1 else 2) == digits + rest
  {
    var s := [letter] + (sign + (digits + rest));
    assert s[1..] == sign + (digits + rest);
    if sign == "" {
      assert s[1..] == digits + rest && s[1] == digits[0];
    } else {
      assert s[2..] == digits + rest && s[1] == sign[0];
    }
  }

  lemma ExponentFrom(s: string, minus: bool, plus: bool, t: string, d: nat)
    requires (At(s, 0) == 'e' || At(s, 0) == 'E') && (minus <==> At(s, 1) == '-') && (plus <==> At(s, 1) == '+')
    requires Drop(s, if minus || plus then 2 else 1) == t && DigitCount(t) == d
    ensures Exponent(s).0 == (if minus then -(Value(0, t[..d]) as int) else Value(0, t[..d]))
    ensures Exponent(s).1 == t[d..]
  {
    hide Value, DigitCount, Drop, At;
  }

  lemma NoExpReads(rest: string)
    requires Ends(rest)
    ensures Exponent(rest) == (0, rest)
  {
  }

  lemma ExpReads(n: Num, rest: string)
    requires IsNum(n) && Ends(rest)
    ensures Exponent(SpellExp(n.exp, rest)).0 == Up(n) - Down(n) + |n.frac|
    ensures Exponent(SpellExp(n.exp, rest)).1 == rest
  {
    NoExpReads(rest);
    if n.exp.Exp? {
      var digits, s := n.exp.digits, SpellExp(n.exp, rest);
      assert s == [n.exp.letter] + (n.exp.sign + (digits + rest));
      hide At, Drop, DigitCount, Value, Exponent, SpellExp;
      ExpDigits(n.exp.letter, n.exp.sign, digits, rest);
      DigitsEnd(digits, rest);
      ExponentFrom(s, n.exp.sign == "-", n.exp.sign == "+", digits + rest, |digits|);
    }
  }

  lemma FractionReads(n: Num, rest: string)
    requires IsNum(n) && Ends(rest)
    ensures
      var tail := SpellExp(n.exp, rest);
      Fraction(n.whole, (if n.frac == "" then "" else "." + n.frac) + tail) == (Significant(n), |n.frac|, tail)
  {
    var tail := SpellExp(n.exp, rest);
    var s := (if n.frac == "" then "" else "." + n.frac) + tail;
    if n.frac == "" {
      assert s == tail;
    } else {
      assert s[1..] == n.frac + tail;
      DigitsEnd(n.frac, tail);
    }
  }

  /** The text of a number without its sign */
  function Unsigned(n: Num, rest: string): string {
    Decimal(n.whole) + ((if n.frac == "" then "" else "." + n.frac) + SpellExp(n.exp, rest))
  }

  lemma UnsignedReads(n: Num, rest: string)
    requires IsNum(n) && Ends(rest)
    ensures
      var tail := SpellExp(n.exp, rest);
      && Whole(Unsigned(n, rest)) == (n.whole, (if n.frac == "" then "" else "." + n.frac) + tail)
      && Fraction(n.whole, (if n.frac == "" then "" else "." + n.frac) + tail) ==
         (Significant(n), |n.frac|, tail)
  {
    var after := (if n.frac == "" then "" else "." + n.frac) + SpellExp(n.exp, rest);
    assert !IsDigit(At(after, 0));
    WholeIsDecimal(n.whole, after);
    FractionReads(n, rest);
  }

  lemma SignReads(n: Num, rest: string)
    ensures
      var s := SpellNum(n, rest);
      && (At(s, 0) == '-' <==> n.negative) && (if n.negative then s[1..] else s) == Unsigned(n, rest)
  {
    hide SpellExp, Decimal;
    var u := Unsigned(n, rest);
    assert '0' <= u[0] <= '9';
    assert ("-" + u)[1..] == u && "" + u == u;
  }

  /** `parse_number` from what its parts read */
  lemma NumberFrom(s: string, negative: bool, whole: (nat, string), frac: (nat, nat, string), exp: (int, string))
    requires negative <==> At(s, 0) == '-'
    requires Whole(if negative then s[1..] else s) == whole
    requires Fraction(whole.0, whole.1) == frac && Exponent(frac.2) == exp
    ensures ParseNumber(s).0 == Signed(negative, frac.0, Pow10(exp.0 - frac.1))
    ensures ParseNumber(s).1 == exp.1
  {
    hide Whole, Fraction, Exponent, Pow10, At;
  }

  /** A number is read as what it means, and so is what follows it. */
  lemma NumReads(n: Num, rest: string)
    requires IsNum(n) && Ends(rest)
    ensures ParseNumber(SpellNum(n, rest)).0 == NumMeans(n) && ParseNumber(SpellNum(n, rest)).1 == rest
  {
    hide *;
    SignReads(n, rest);
    UnsignedReads(n, rest);
    ExpReads(n, rest);
    Pow10Is(Up(n), Down(n));
    var tail := SpellExp(n.exp, rest);
    NumberFrom(SpellNum(n, rest), n.negative, (n.whole, (if n.frac == "" then "" else "." + n.frac) + tail),
               (Significant(n), |n.frac|, tail), (Up(n) - Down(n) + |n.frac|, rest));
    MeansIs(n);
  }

  lemma MeansIs(n: Num)
    requires IsNum(n)
    ensures NumMeans(n) == Signed(n.negative, Significant(n), Ten(Up(n)) / Ten(Down(n)))
  {
    hide Significant, Ten, Up, Down, Signed;
  }

  // ----- values -----

  /** A value as it is written: the three names, numbers, strings, and arrays and objects with the blanks around their
      parts. `gap` stands between the brackets of an empty one. */
  datatype Doc =
    | Name(value: Json)
    | Numeral(num: Num)
    | Chars(pieces: seq<Piece>)
    | List(gap: string, slots: seq<Slot>)
    | Dict(gap: string, entries: seq<Entry>)

  datatype Slot = Slot(before: string, doc: Doc, after: string)

  datatype Entry = Entry(before: string, name: seq<Piece>, colon: (string, string), doc: Doc, after: string)

  /** White space; the parser skips every character up to the blank. */
  predicate IsGap(s: string) {
    forall k :: 0 <= k < |s| ==> 1 <= s[k] as int <= 32
  }

  predicate IsDoc(d: Doc)
    decreases d
  {
    match d
    case Name(v) => v == Null || v == False || v == True
    case Numeral(n) => IsNum(n)
    case Chars(ps) => ArePieces(ps)
    case List(gap, slots) => IsGap(gap) && forall i :: 0 <= i < |slots| ==> IsSlot(slots[i])
    case Dict(gap, entries) => IsGap(gap) && forall i :: 0 <= i < |entries| ==> IsEntry(entries[i])
  }

  predicate IsSlot(slot: Slot)
    decreases slot
  {
    IsGap(slot.before) && IsDoc(slot.doc) && IsGap(slot.after)
  }

  predicate IsEntry(e: Entry)
    decreases e
  {
    && IsGap(e.before) && ArePieces(e.name) && IsGap(e.colon.0) && IsGap(e.colon.1) && IsDoc(e.doc) && IsGap(e.after)
  }

  /** The value, then `rest` */
  function Spell(d: Doc, rest: string): string
    decreases d, 0
  {
    match d
    case Name(v) => (if v == Null then "null" else if v == False then "false" else "true") + rest
    case Numeral(n) => SpellNum(n, rest)
    case Chars(ps) => "\"" + SpellPieces(ps, "\"" + rest)
    case List(gap, slots) =>
      "[" + if slots == [] then gap + ("]" + rest) else SpellSlot(slots[0], SpellSlots(slots[1..], "]" + rest))
    case Dict(gap, entries) =>
      "{" + if entries == [] then gap + ("}" + rest) else SpellEntry(entries[0], SpellEntries(entries[1..], "}" + rest))
  }

  function SpellSlot(slot: Slot, rest: string): string
    decreases slot, 1
  {
    slot.before + Spell(slot.doc, slot.after + rest)
  }

  function SpellSlots(slots: seq<Slot>, rest: string): string
    decreases slots, 2
  {
    if slots == [] then rest else "," + SpellSlot(slots[0], SpellSlots(slots[1..], rest))
  }

  function SpellEntry(e: Entry, rest: string): string
    decreases e, 1
  {
    e.before + ("\"" + SpellPieces(e.name, "\"" + (e.colon.0 + (":" + (e.colon.1 + Spell(e.doc, e.after + rest))))))
  }

  function SpellEntries(entries: seq<Entry>, rest: string): string
    decreases entries, 2
  {
    if entries == [] then rest else "," + SpellEntry(entries[0], SpellEntries(entries[1..], rest))
  }

  /** The tree that the value means */
  function Means(d: Doc): Json
    requires IsDoc(d)
    decreases d, 0
  {
    match d
    case Name(v) => v
    case Numeral(n) => Number(NumMeans(n))
    case Chars(ps) => Str(PiecesMean(ps))
    case List(_, slots) => Array(SlotsMean(slots))
    case Dict(_, entries) => Object(EntriesMean(entries))
  }

  function SlotMeans(slot: Slot): Json
    requires IsSlot(slot)
    decreases slot, 1
  {
    Means(slot.doc)
  }

  function SlotsMean(slots: seq<Slot>): seq<Json>
    requires forall i :: 0 <= i < |slots| ==> IsSlot(slots[i])
    decreases slots, 2
  {
    if slots == [] then [] else [SlotMeans(slots[0])] + SlotsMean(slots[1..])
  }

  function EntryMeans(e: Entry): Member
    requires IsEntry(e)
    decreases e, 1
  {
    Member(PiecesMean(e.name), Means(e.doc))
  }

  function EntriesMean(entries: seq<Entry>): seq<Member>
    requires forall i :: 0 <= i < |entries| ==> IsEntry(entries[i])
    decreases entries, 2
  {
    if entries == [] then [] else [EntryMeans(entries[0])] + EntriesMean(entries[1..])
  }

  lemma GapSkips(gap: string, s: string)
    requires IsGap(gap)
    ensures Skip(gap + s) == Skip(s)
  {
    assert forall k :: 0 <= k < |gap| ==> NUL < gap[k] <= ' ';
    SkipBlanks(gap, s);
  }

  /** How a value starts: this is what `parse_value` looks at. */
  lemma DocStarts(d: Doc, rest: string)
    requires IsDoc(d)
    ensures
      var s := Spell(d, rest);
      && s != "" && Skip(s) == s && ValueStart(s[0])
      && (d.Chars? <==> s[0] == QUOTE) && (d.List? <==> s[0] == '[') && (d.Dict? <==> s[0] == '{')
      && (d.Numeral? <==> s[0] == '-' || IsDigit(s[0]))
  {
    if d.Numeral? {
      hide SpellExp;
      assert '0' <= Decimal(d.num.whole)[0] <= '9';
    }
  }

  /** A text after which a value is complete, with no blanks before it: the end, or a character that no number goes on
      with. */
  predicate IsTail(s: string) {
    s == "" || (s[0] as int > 32 && s[0] !in "0123456789.eE")
  }

  /** What follows a value inside brackets ends a number. */
  lemma GapEnds(gap: string, rest: string)
    requires IsGap(gap) && IsTail(rest)
    ensures Ends(gap + rest)
  {
    if gap == "" {
      assert gap + rest == rest;
    } else {
      assert (gap + rest)[0] == gap[0] && gap[0] as int <= 32;
    }
  }

  lemma WordReads(v: Json, rest: string)
    requires v == Null || v == False || v == True
    ensures ParseValue(Spell(Name(v), rest)) == Got(v, rest)
  {
    WordRoundTrip(v, 0, false, rest);
  }

  lemma NumeralReads(n: Num, rest: string)
    requires IsNum(n) && Ends(rest)
    ensures ParseValue(Spell(Numeral(n), rest)) == Got(Number(NumMeans(n)), rest)
  {
    DocStarts(Numeral(n), rest);
    NoWord(Spell(Numeral(n), rest));
    NumReads(n, rest);
    hide NumMeans, SpellNum, ParseNumber;
  }

  lemma StringReads(ps: seq<Piece>, rest: string)
    requires ArePieces(ps)
    ensures ParseString("\"" + SpellPieces(ps, "\"" + rest)) == Got(PiecesMean(ps), rest)
  {
    var s := "\"" + SpellPieces(ps, "\"" + rest);
    assert s[1..] == SpellPieces(ps, "\"" + rest);
    hide SpellPieces, Unescape;
    PiecesRead(ps, rest);
  }

  lemma CharsRead(ps: seq<Piece>, rest: string)
    requires ArePieces(ps)
    ensures ParseValue(Spell(Chars(ps), rest)) == Got(Str(PiecesMean(ps)), rest)
  {
    hide SpellPieces, ParseString;
    NoWord(Spell(Chars(ps), rest));
    StringReads(ps, rest);
  }

  /** Any way to write a value is parsed as what the value means, and what follows it is left. */
  lemma {:induction false} ValueReads(d: Doc, rest: string)
    requires IsDoc(d) && (d.Numeral? ==> Ends(rest))
    ensures ParseValue(Spell(d, rest)) == Got(Means(d), rest)
    decreases d, 0
  {
    match d
    case Name(v) =>
      WordReads(v, rest);
    case Numeral(n) =>
      NumeralReads(n, rest);
    case Chars(ps) =>
      CharsRead(ps, rest);
    case List(gap, slots) =>
      ListOpens(d, rest);
      ListReads(gap, slots, rest);
    case Dict(gap, entries) =>
      DictOpens(d, rest);
      DictReads(gap, entries, rest);
  }

  /** What comes after the bracket */
  function Inside(d: Doc, rest: string): string
    requires d.List? || d.Dict?
  {
    match d
    case List(gap, slots) =>
      if slots == [] then gap + ("]" + rest) else SpellSlot(slots[0], SpellSlots(slots[1..], "]" + rest))
    case Dict(gap, entries) =>
      if entries == [] then gap + ("}" + rest) else SpellEntry(entries[0], SpellEntries(entries[1..], "}" + rest))
  }

  lemma ListOpens(d: Doc, rest: string)
    requires IsDoc(d) && d.List?
    ensures ParseValue(Spell(d, rest)) == ParseArray(Inside(d, rest))
  {
    var s := Spell(d, rest);
    assert s == "[" + Inside(d, rest);
    assert s[1..] == Inside(d, rest);
    hide ParseArray, Inside, Spell;
    NoWord(s);
  }

  lemma DictOpens(d: Doc, rest: string)
    requires IsDoc(d) && d.Dict?
    ensures ParseValue(Spell(d, rest)) == ParseObject(Inside(d, rest))
  {
    var s := Spell(d, rest);
    assert s == "{" + Inside(d, rest);
    assert s[1..] == Inside(d, rest);
    hide ParseObject, Inside, Spell;
    BraceOpens(s);
  }

  // ----- arrays -----

  /** A slot before more slots or the bracket */
  lemma SlotStarts(slot: Slot, rest: string)
    requires IsSlot(slot) && IsTail(rest)
    ensures
      var s := Spell(slot.doc, slot.after + rest);
      && Skip(SpellSlot(slot, rest)) == s && Skip(s) == s && At(s, 0) != ']'
      && Skip(slot.after + rest) == rest && Ends(slot.after + rest)
  {
    var s := Spell(slot.doc, slot.after + rest);
    assert SpellSlot(slot, rest) == slot.before + s;
    assert Skip(rest) == rest;
    hide Skip, Spell, IsDoc;
    GapSkips(slot.before, s);
    GapSkips(slot.after, rest);
    GapEnds(slot.after, rest);
    DocStarts(slot.doc, slot.after + rest);
  }

  lemma SlotsStart(slots: seq<Slot>, tail: string)
    requires IsTail(tail)
    ensures IsTail(SpellSlots(slots, tail))
  {
  }

  lemma {:induction false} SlotReads(slot: Slot, rest: string)
    requires IsSlot(slot) && IsTail(rest)
    ensures ParseValue(Skip(SpellSlot(slot, rest))) == Got(SlotMeans(slot), slot.after + rest)
    decreases slot, 0
  {
    hide ParseValue, Skip, Spell, SpellSlot, IsDoc, Means;
    SlotStarts(slot, rest);
    ValueReads(slot.doc, slot.after + rest);
  }

  lemma ParseArrayFirst(s: string, item: Json, rest: string)
    requires At(Skip(s), 0) != ']' && Skip(Skip(s)) == Skip(s) && ParseValue(Skip(s)) == Got(item, rest)
    ensures ParseArray(s) == ParseItems([item], Skip(rest))
  {
    hide ParseValue, ParseItems;
  }

  /** The slots of an array are read up to what follows them. */
  lemma {:induction false} SlotsRead(done: seq<Json>, slots: seq<Slot>, tail: string)
    requires (forall i :: 0 <= i < |slots| ==> IsSlot(slots[i])) && IsTail(tail)
    ensures ParseItems(done, SpellSlots(slots, tail)) == ParseItems(done + SlotsMean(slots), tail)
    decreases slots, 1
  {
    if slots == [] {
      assert done + [] == done;
    } else {
      var more := SpellSlots(slots[1..], tail);
      assert IsSlot(slots[0]);
      var item := SlotMeans(slots[0]);
      SlotsStart(slots[1..], tail);
      assert SpellSlots(slots, tail) == "," + SpellSlot(slots[0], more);
      assert done + [item] + SlotsMean(slots[1..]) == done + SlotsMean(slots);
      hide ParseValue, ParseItems, Skip, Spell, SpellSlot, SpellSlots, IsSlot, IsTail, SlotMeans, SlotsMean;
      SlotStarts(slots[0], more);
      SlotReads(slots[0], more);
      ItemStep(done, SpellSlot(slots[0], more), item, slots[0].after + more);
      SlotsRead(done + [item], slots[1..], tail);
    }
  }

  /** An array that is not empty is read up to what follows its slots. */
  lemma {:induction false} FilledReads(slots: seq<Slot>, tail: string)
    requires slots != [] && (forall i :: 0 <= i < |slots| ==> IsSlot(slots[i])) && IsTail(tail)
    ensures ParseArray(SpellSlot(slots[0], SpellSlots(slots[1..], tail))) == ParseItems(SlotsMean(slots), tail)
    decreases slots, 2
  {
    var more := SpellSlots(slots[1..], tail);
    assert IsSlot(slots[0]);
    assert SlotsMean(slots) == [SlotMeans(slots[0])] + SlotsMean(slots[1..]);
    SlotsStart(slots[1..], tail);
    hide ParseValue, ParseItems, ParseArray, Skip, SpellSlot, SpellSlots, IsSlot, IsTail, SlotMeans, SlotsMean;
    SlotStarts(slots[0], more);
    SlotReads(slots[0], more);
    ParseArrayFirst(SpellSlot(slots[0], more), SlotMeans(slots[0]), slots[0].after + more);
    SlotsRead([SlotMeans(slots[0])], slots[1..], tail);
  }

  lemma {:induction false} ListReads(gap: string, slots: seq<Slot>, rest: string)
    requires IsGap(gap) && forall i :: 0 <= i < |slots| ==> IsSlot(slots[i])
    ensures ParseArray(Inside(List(gap, slots), rest)) == Got(Array(SlotsMean(slots)), rest)
    decreases slots, 3
  {
    assert ("]" + rest)[1..] == rest;
    if slots == [] {
      hide ParseValue, ParseItems;
      GapSkips(gap, "]" + rest);
    } else {
      FilledReads(slots, "]" + rest);
      hide ParseValue, ParseArray, SpellSlot, SpellSlots, IsSlot, SlotsMean;
    }
  }

  // ----- objects -----

  /** A member before more members or the brace */
  lemma EntryStarts(e: Entry, rest: string)
    requires IsEntry(e) && IsTail(rest)
    ensures
      var s := Skip(SpellEntry(e, rest));
      && At(s, 0) == QUOTE && Skip(s) == s
      && s == "\"" + SpellPieces(e.name, "\"" + (e.colon.0 + (":" + (e.colon.1 + Spell(e.doc, e.after + rest)))))
      && Skip(e.after + rest) == rest && Ends(e.after + rest)
  {
    var s := "\"" + SpellPieces(e.name, "\"" + (e.colon.0 + (":" + (e.colon.1 + Spell(e.doc, e.after + rest)))));
    assert Skip(s) == s && Skip(rest) == rest;
    hide Skip, Spell, SpellPieces, IsDoc;
    GapSkips(e.before, s);
    GapSkips(e.after, rest);
    GapEnds(e.after, rest);
  }

  lemma ColonSkips(e: Entry, rest: string)
    requires IsEntry(e)
    ensures
      var value := Spell(e.doc, e.after + rest);
      var s := Skip(e.colon.0 + (":" + (e.colon.1 + value)));
      At(s, 0) == ':' && Skip(s[1..]) == value
  {
    var value := Spell(e.doc, e.after + rest);
    var s := ":" + (e.colon.1 + value);
    assert Skip(s) == s && s[1..] == e.colon.1 + value;
    hide Skip, Spell, IsDoc;
    GapSkips(e.colon.0, s);
    GapSkips(e.colon.1, value);
    DocStarts(e.doc, e.after + rest);
  }

  lemma {:induction false} EntryReads(e: Entry, rest: string)
    requires IsEntry(e) && IsTail(rest)
    ensures ParseMember(Skip(SpellEntry(e, rest))) == Got(EntryMeans(e), rest)
    decreases e, 0
  {
    var value := Spell(e.doc, e.after + rest);
    hide ParseString, ParseValue, Skip, Spell, SpellPieces, SpellEntry, PiecesMean, IsDoc, Means;
    EntryStarts(e, rest);
    StringReads(e.name, e.colon.0 + (":" + (e.colon.1 + value)));
    ColonSkips(e, rest);
    ValueReads(e.doc, e.after + rest);
  }

  lemma EntriesStart(entries: seq<Entry>, tail: string)
    requires IsTail(tail)
    ensures IsTail(SpellEntries(entries, tail))
  {
  }

  lemma ParseObjectFirst(s: string, member: Member, rest: string)
    requires At(Skip(s), 0) == QUOTE && Skip(Skip(s)) == Skip(s) && ParseMember(Skip(s)) == Got(member, rest)
    ensures ParseObject(s) == ParseMembers([member], rest)
  {
    hide ParseMember, ParseMembers;
  }

  /** The members of an object are read up to what follows them. */
  lemma {:induction false} EntriesRead(done: seq<Member>, entries: seq<Entry>, tail: string)
    requires (forall i :: 0 <= i < |entries| ==> IsEntry(entries[i])) && IsTail(tail)
    ensures ParseMembers(done, SpellEntries(entries, tail)) == ParseMembers(done + EntriesMean(entries), tail)
    decreases entries, 1
  {
    if entries == [] {
      assert done + [] == done;
    } else {
      var more := SpellEntries(entries[1..], tail);
      EntriesStart(entries[1..], tail);
      assert IsEntry(entries[0]);
      var member := EntryMeans(entries[0]);
      assert SpellEntries(entries, tail) == "," + SpellEntry(entries[0], more);
      assert done + [member] + EntriesMean(entries[1..]) == done + EntriesMean(entries);
      hide ParseMember, ParseMembers, Skip, SpellEntry, SpellEntries, IsEntry, IsTail, EntryMeans, EntriesMean;
      EntryReads(entries[0], more);
      MemberStep(done, SpellEntry(entries[0], more), member, more);
      EntriesRead(done + [member], entries[1..], tail);
    }
  }

  lemma {:induction false} FilledDictReads(entries: seq<Entry>, tail: string)
    requires entries != [] && (forall i :: 0 <= i < |entries| ==> IsEntry(entries[i])) && IsTail(tail)
    ensures ParseObject(SpellEntry(entries[0], SpellEntries(entries[1..], tail))) ==
      ParseMembers(EntriesMean(entries), tail)
    decreases entries, 2
  {
    var more := SpellEntries(entries[1..], tail);
    EntriesStart(entries[1..], tail);
    assert IsEntry(entries[0]);
    assert EntriesMean(entries) == [EntryMeans(entries[0])] + EntriesMean(entries[1..]);
    hide ParseMember, ParseMembers, ParseObject, Skip, SpellEntry, SpellEntries, IsEntry, IsTail;
    hide EntryMeans, EntriesMean;
    EntryStarts(entries[0], more);
    EntryReads(entries[0], more);
    ParseObjectFirst(SpellEntry(entries[0], more), EntryMeans(entries[0]), more);
    EntriesRead([EntryMeans(entries[0])], entries[1..], tail);
  }

  lemma {:induction false} DictReads(gap: string, entries: seq<Entry>, rest: string)
    requires IsGap(gap) && forall i :: 0 <= i < |entries| ==> IsEntry(entries[i])
    ensures ParseObject(Inside(Dict(gap, entries), rest)) == Got(Object(EntriesMean(entries)), rest)
    decreases entries, 3
  {
    assert ("}" + rest)[1..] == rest;
    if entries == [] {
      hide ParseMember, ParseMembers;
      GapSkips(gap, "}" + rest);
    } else {
      FilledDictReads(entries, "}" + rest);
      hide ParseMember, ParseObject, SpellEntry, SpellEntries, IsEntry, EntriesMean;
    }
  }

  // ----- what is refused -----

  /** A text that starts like no value. */
  lemma NoValueRefused(s: string)
    requires s == "" || s[0] !in "nft\"-[{0123456789"
    ensures ParseValue(s) == Failed
  {
    hide ParseString, ParseNumber, ParseArray, ParseObject;
    NoWord(s);
  }

  /** After an item of an array there must be a comma or the bracket. */
  lemma ArrayRefused(slots: seq<Slot>, tail: string)
    requires slots != [] && (forall i :: 0 <= i < |slots| ==> IsSlot(slots[i])) && IsTail(tail)
    requires tail == "" || tail[0] !in ",]"
    ensures ParseValue("[" + SpellSlot(slots[0], SpellSlots(slots[1..], tail))) == Failed
  {
    var inside := SpellSlot(slots[0], SpellSlots(slots[1..], tail));
    FilledReads(slots, tail);
    assert ("[" + inside)[1..] == inside;
    hide ParseArray, ParseObject, ParseNumber, ParseString, SpellSlot, SpellSlots, IsSlot, SlotsMean;
    NoWord("[" + inside);
  }

  /** After a comma in an array there must be a value. */
  lemma ArrayCommaRefused(slots: seq<Slot>, tail: string)
    requires slots != [] && forall i :: 0 <= i < |slots| ==> IsSlot(slots[i])
    requires ParseValue(Skip(tail)) == Failed
    ensures ParseValue("[" + SpellSlot(slots[0], SpellSlots(slots[1..], "," + tail))) == Failed
  {
    var inside := SpellSlot(slots[0], SpellSlots(slots[1..], "," + tail));
    FilledReads(slots, "," + tail);
    assert ("," + tail)[1..] == tail && ("[" + inside)[1..] == inside;
    assert ParseItems(SlotsMean(slots), "," + tail) == Failed;
    hide ParseArray, ParseItems, ParseObject, ParseNumber, ParseString, SpellSlot, SpellSlots, IsSlot, SlotsMean;
    NoWord("[" + inside);
  }

  /** After a member of an object there must be a comma or the brace. */
  lemma ObjectRefused(entries: seq<Entry>, tail: string)
    requires entries != [] && (forall i :: 0 <= i < |entries| ==> IsEntry(entries[i])) && IsTail(tail)
    requires tail == "" || tail[0] !in ",}"
    ensures ParseValue("{" + SpellEntry(entries[0], SpellEntries(entries[1..], tail))) == Failed
  {
    var inside := SpellEntry(entries[0], SpellEntries(entries[1..], tail));
    FilledDictReads(entries, tail);
    assert ("{" + inside)[1..] == inside;
    hide ParseArray, ParseObject, ParseMember, ParseNumber, ParseString, SpellEntry, SpellEntries, IsEntry, EntriesMean;
    BraceOpens("{" + inside);
  }

  /** After a comma in an object there must be a name. */
  lemma ObjectCommaRefused(entries: seq<Entry>, tail: string)
    requires entries != [] && forall i :: 0 <= i < |entries| ==> IsEntry(entries[i])
    requires Skip(tail) == "" || Skip(tail)[0] != '\"'
    ensures ParseValue("{" + SpellEntry(entries[0], SpellEntries(entries[1..], "," + tail))) == Failed
  {
    var inside := SpellEntry(entries[0], SpellEntries(entries[1..], "," + tail));
    FilledDictReads(entries, "," + tail);
    assert ("," + tail)[1..] == tail && ("{" + inside)[1..] == inside;
    assert ParseMember(Skip(tail)) == Failed;
    assert ParseMembers(EntriesMean(entries), "," + tail) == Failed;
    hide ParseArray, ParseObject, ParseMember, ParseMembers, ParseNumber, ParseString;
    hide SpellEntry, SpellEntries, IsEntry, EntriesMean;
    BraceOpens("{" + inside);
  }

  /** After a name there must be a colon. */
  lemma ColonRefused(name: seq<Piece>, gap: string, tail: string)
    requires ArePieces(name) && IsGap(gap) && (tail == "" || (tail[0] != ':' && tail[0] as int > 32))
    ensures ParseValue("{\"" + SpellPieces(name, "\"" + (gap + tail))) == Failed
  {
    var inside := "\"" + SpellPieces(name, "\"" + (gap + tail));
    StringReads(name, gap + tail);
    GapSkips(gap, tail);
    assert Skip(tail) == tail && Skip(inside) == inside;
    assert ParseMember(inside) == Failed;
    assert "{\"" + SpellPieces(name, "\"" + (gap + tail)) == "{" + inside && ("{" + inside)[1..] == inside;
    hide ParseArray, ParseMember, ParseMembers, ParseNumber, ParseString, ParseValue, SpellPieces;
    BraceOpens("{" + inside);
    assert ParseObject(inside) == Failed;
  }
}
