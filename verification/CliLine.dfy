/** Splitting a command line into words, with quotes and pipes.
    Source: `cli_parse_line` in lib/cli.c. A line is the characters before its terminator. */
module CliLine {
  import opened Chars
  import opened Options
  import opened Sequences

  predicate IsQuote(c: char) {
    c == '\"' || c == '\''
  }

  predicate AllSpace(s: string) {
    forall i :: 0 <= i < |s| ==> IsSpace(s[i])
  }

  // ----- the scanner -----

  /** Whether the word being read, if any, is over before the rest of the line. */
  predicate EndsWord(rest: string, open: bool, quote: Option<char>) {
    || rest == []
    || quote == Some(rest[0])
    || (open && quote.None? && (IsSpace(rest[0]) || rest[0] == '|'))
  }

  /** The words of the rest of a line, given the word being read and the quote it is inside.
      A turn either moves on in the line or closes the word that is open. */
  function Split(rest: string, word: Option<string>, quote: Option<char>, room: nat): (words: seq<string>)
    requires quote.Some? ==> word.Some?
    ensures |words| <= room
    decreases |rest|, if word.Some? then 1 else 0
  {
    if room == 0 then []
    else if EndsWord(rest, word.Some?, quote) then
      var done := if word.Some? then [word.value] else [];
      if rest == [] then done
      else done + Split(if quote.Some? then rest[1..] else rest, None, None, room - |done|)
    else if IsQuote(rest[0]) then
      Split(rest[1..], Some(""), Some(rest[0]), room)
    else if word.Some? then
      Split(rest[1..], Some(word.value + [rest[0]]), quote, room)
    else if rest[0] == '|' then
      ["|"] + Split(rest[1..], None, None, room - 1)
    else
      Split(rest[1..], if IsSpace(rest[0]) then None else Some([rest[0]]), None, room)
  }

  function SkipSpace(line: string): (rest: string)
    ensures |rest| <= |line| && line[|line| - |rest|..] == rest
    ensures rest != [] ==> !IsSpace(rest[0])
  {
    if line != [] && IsSpace(line[0]) then SkipSpace(line[1..]) else line
  }

  /** The whole of `cli_parse_line`: a word is open from the first character that is no space. */
  function ParseLine(line: string, maxWords: int): (words: seq<string>)
    ensures |words| < maxWords || words == []
  {
    var rest := SkipSpace(line);
    Split(rest, if rest == [] then None else Some(""), None, if maxWords < 1 then 0 else maxWords - 1)
  }

  // ----- the loop, turn by turn -----

  /** The words so far and the words still to come. */
  function Total(words: seq<string>, rest: string, word: Option<string>, quote: Option<char>, limit: nat): seq<string>
    requires |words| <= limit && (quote.Some? ==> word.Some?)
  {
    words + Split(rest, word, quote, limit - |words|)
  }

  lemma CloseTurn(words: seq<string>, rest: string, word: Option<string>, quote: Option<char>, limit: nat)
    requires |words| < limit && (quote.Some? ==> word.Some?)
    requires EndsWord(rest, word.Some?, quote)
    ensures var next := if word.Some? then words + [word.value] else words;
      Total(words, rest, word, quote, limit) ==
        if rest == [] then next else Total(next, if quote.Some? then rest[1..] else rest, None, None, limit)
  {
    if word.Some? && rest != [] {
      Associative(words, [word.value],
        Split(if quote.Some? then rest[1..] else rest, None, None, limit - |words| - 1));
    }
  }

  lemma ReadTurn(words: seq<string>, rest: string, word: Option<string>, quote: Option<char>, limit: nat)
    requires |words| < limit && (quote.Some? ==> word.Some?)
    requires !EndsWord(rest, word.Some?, quote)
    ensures Total(words, rest, word, quote, limit) ==
      if IsQuote(rest[0]) then Total(words, rest[1..], Some(""), Some(rest[0]), limit)
      else if word.Some? then Total(words, rest[1..], Some(word.value + [rest[0]]), quote, limit)
      else if rest[0] == '|' then Total(words + ["|"], rest[1..], None, None, limit)
      else Total(words, rest[1..], if IsSpace(rest[0]) then None else Some([rest[0]]), None, limit)
  {
    if !IsQuote(rest[0]) && word.None? && rest[0] == '|' {
      Associative(words, ["|"], Split(rest[1..], None, None, limit - |words| - 1));
    }
  }

  /** The word from `wordStart` up to a position. */
  function Started(line: string, wordStart: Option<nat>, p: nat): (word: Option<string>)
    requires p <= |line| && (wordStart.Some? ==> wordStart.value <= p)
    ensures word.Some? <==> wordStart.Some?
  {
    if wordStart.Some? then Some(line[wordStart.value..p]) else None
  }

  lemma Advance(line: string, wordStart: Option<nat>, p: nat)
    requires p < |line| && (wordStart.Some? ==> wordStart.value <= p)
    ensures line[p..][0] == line[p] && line[p..][1..] == line[p + 1..]
    ensures wordStart.Some? ==> line[wordStart.value..p + 1] == line[wordStart.value..p] + [line[p]]
    ensures line[p..p + 1] == [line[p]] && line[p + 1..p + 1] == ""
  {
  }

  /** The first loop of `cli_parse_line` */
  method FirstWord(line: string) returns (p: nat, wordStart: Option<nat>)
    ensures p <= |line| && line[p..] == SkipSpace(line)
    ensures wordStart == if p == |line| then None else Some(p)
  {
    p, wordStart := 0, None;
    while p < |line|
      invariant 0 <= p <= |line| && SkipSpace(line) == SkipSpace(line[p..])
    {
      if !IsSpace(line[p]) {
        wordStart := Some(p);
        break;
      }
      p := p + 1;
    }
  }

  /** `cli_parse_line`; `p` and `wordStart` are positions in the line. */
  method CliParseLine(line: string, maxWords: int) returns (words: seq<string>)
    ensures words == ParseLine(line, maxWords)
  {
    hide Split, SkipSpace;
    words := [];
    var p, wordStart := FirstWord(line);
    var inquote: Option<char> := None;
    ghost var limit := if maxWords < 1 then 0 else maxWords - 1;
    NothingLeft(ParseLine(line, maxWords));
    assert p < |line| ==> line[p..p] == "";
    assert Started(line, wordStart, p) == if p == |line| then None else Some("");
    while |words| < maxWords - 1
      invariant 0 <= p <= |line| && |words| <= limit
      invariant wordStart.Some? ==> wordStart.value <= p
      invariant inquote.Some? ==> wordStart.Some?
      invariant ParseLine(line, maxWords) == Total(words, line[p..], Started(line, wordStart, p), inquote, limit)
      decreases |line| - p, if wordStart.Some? then 1 else 0
    {
      if p < |line| {
        Advance(line, wordStart, p);
      }
      if p == |line| || inquote == Some(line[p])
         || (wordStart.Some? && inquote.None? && (IsSpace(line[p]) || line[p] == '|')) {
        CloseTurn(words, line[p..], Started(line, wordStart, p), inquote, limit);
        if wordStart.Some? {
          words := words + [line[wordStart.value..p]];
        }
        if p == |line| {
          return;
        }
        if inquote.Some? {
          p := p + 1;
        }
        inquote := None;
        wordStart := None;
      } else {
        ReadTurn(words, line[p..], Started(line, wordStart, p), inquote, limit);
        if IsQuote(line[p]) {
          inquote := Some(line[p]);
          p := p + 1;
          wordStart := Some(p);
        } else {
          if wordStart.None? {
            if line[p] == '|' {
              words := words + ["|"];
            } else if !IsSpace(line[p]) {
              wordStart := Some(p);
            }
          }
          p := p + 1;
        }
      }
    }
    NoRoom(line[p..], Started(line, wordStart, p), inquote);
    NothingLeft(words);
  }

  lemma NoRoom(rest: string, word: Option<string>, quote: Option<char>)
    requires quote.Some? ==> word.Some?
    ensures Split(rest, word, quote, 0) == []
  {
  }

  // ----- words hold no quotes -----

  /** No quote of either kind */
  predicate Plain(s: string) {
    '\"' !in s && '\'' !in s
  }

  lemma {:induction false} WordsArePlain(rest: string, word: Option<string>, quote: Option<char>, room: nat)
    requires (quote.Some? ==> word.Some?) && (word.Some? ==> Plain(word.value))
    ensures forall w :: w in Split(rest, word, quote, room) ==> Plain(w)
    decreases |rest|, if word.Some? then 1 else 0
  {
    if room == 0 {
    } else if EndsWord(rest, word.Some?, quote) {
      if rest != [] {
        WordsArePlain(if quote.Some? then rest[1..] else rest, None, None, room - if word.Some? then 1 else 0);
      }
    } else if IsQuote(rest[0]) {
      WordsArePlain(rest[1..], Some(""), Some(rest[0]), room);
    } else if word.Some? {
      WordsArePlain(rest[1..], Some(word.value + [rest[0]]), quote, room);
    } else if rest[0] == '|' {
      WordsArePlain(rest[1..], None, None, room - 1);
    } else {
      WordsArePlain(rest[1..], if IsSpace(rest[0]) then None else Some([rest[0]]), None, room);
    }
  }

  /** No word of any line holds a quote, not even of the kind that its own quotes are not. */
  lemma ParsedWordsArePlain(line: string, maxWords: int)
    ensures forall w :: w in ParseLine(line, maxWords) ==> Plain(w)
  {
    hide Split, SkipSpace;
    var rest := SkipSpace(line);
    WordsArePlain(rest, if rest == [] then None else Some(""), None, if maxWords < 1 then 0 else maxWords - 1);
  }

  // ----- writing lines -----

  /** A word as it is written: without quotes, or in quotes of either kind; or a bar. */
  datatype Item = Bare(text: string) | Quoted(text: string, quote: char) | Bar

  /** An item with the blanks before it. */
  datatype Spaced = Spaced(gap: string, item: Item)

  predicate Blank(s: string) {
    forall i :: 0 <= i < |s| ==> s[i] in WHITE
  }

  /** Neither blanks nor bars */
  predicate Solid(s: string) {
    forall i :: 0 <= i < |s| ==> s[i] !in WHITE && s[i] != '|'
  }

  /** What may stand outside quotes: no blanks, bars or quotes. In quotes only quotes may not. */
  predicate CanBe(item: Item) {
    match item
    case Bare(text) => text != "" && Plain(text) && Solid(text)
    case Quoted(text, quote) => Plain(text) && (quote == '\"' || quote == '\'')
    case Bar => true
  }

  function Text(item: Item): string {
    if item.Bar? then "|" else item.text
  }

  function Texts(items: seq<Spaced>): seq<string> {
    if items == [] then [] else [Text(items[0].item)] + Texts(items[1..])
  }

  function Show(item: Item): string {
    match item
    case Bare(text) => text
    case Quoted(text, quote) => [quote] + text + [quote]
    case Bar => "|"
  }

  function Line(items: seq<Spaced>, tail: string): string {
    if items == [] then tail else items[0].gap + (Show(items[0].item) + Line(items[1..], tail))
  }

  predicate Writable(items: seq<Spaced>) {
    && (forall i :: 0 <= i < |items| ==> Blank(items[i].gap) && CanBe(items[i].item))
    && (forall i :: 0 < i < |items| ==> items[i].gap != [])
  }

  // ----- splitting undoes writing -----

  lemma SkipBlank(c: char, rest: string, room: nat)
    requires c in WHITE
    ensures Split([c] + rest, None, None, room) == Split(rest, None, None, room)
    ensures SkipSpace([c] + rest) == SkipSpace(rest)
  {
    WhiteIsSpace(c);
    assert ([c] + rest)[1..] == rest;
  }

  lemma {:induction false} SkipGap(gap: string, rest: string, room: nat)
    requires Blank(gap)
    ensures Split(gap + rest, None, None, room) == Split(rest, None, None, room)
    ensures SkipSpace(gap + rest) == SkipSpace(rest)
  {
    hide Split, SkipSpace;
    if gap == [] {
      NothingLeft(rest);
    } else {
      assert gap + rest == [gap[0]] + (gap[1..] + rest);
      SkipBlank(gap[0], gap[1..] + rest, room);
      SkipGap(gap[1..], rest, room);
    }
  }

  /** The characters of a word, outside quotes or inside, are read into it. */
  lemma {:induction false} ReadText(text: string, rest: string, read: string, quote: Option<char>, room: nat)
    requires room > 0 && Plain(text)
    requires if quote.Some? then IsQuote(quote.value) else Solid(text)
    ensures Split(text + rest, Some(read), quote, room) == Split(rest, Some(read + text), quote, room)
  {
    if text == [] {
      NothingLeft(rest);
      NothingLeft(read);
    } else {
      assert (text + rest)[1..] == text[1..] + rest;
      WhiteIsSpace(text[0]);
      ReadText(text[1..], rest, read + [text[0]], quote, room);
      MoveFirst(read, text);
    }
  }

  /** A bare word is the same whether or not it was opened before its first character. */
  lemma OpenAnyway(s: string, room: nat)
    requires s != [] && s[0] !in WHITE && s[0] != '|'
    ensures Split(s, Some(""), None, room) == Split(s, None, None, room)
  {
    WhiteIsSpace(s[0]);
    NothingLeft([s[0]]);
  }

  predicate StopsWord(rest: string) {
    rest == [] || rest[0] in WHITE || rest[0] == '|'
  }

  lemma ReadBare(text: string, rest: string, room: nat)
    requires room > 0 && CanBe(Bare(text)) && StopsWord(rest)
    ensures Split(text + rest, Some(""), None, room) == [text] + Split(rest, None, None, room - 1)
  {
    ReadText(text, rest, "", None, room);
    NothingLeft(text);
    if rest != [] {
      WhiteIsSpace(rest[0]);
    }
  }

  lemma ReadQuoted(text: string, quote: char, rest: string, word: Option<string>, room: nat)
    requires room > 0 && CanBe(Quoted(text, quote))
    ensures Split([quote] + text + [quote] + rest, word, None, room) == [text] + Split(rest, None, None, room - 1)
  {
    var s := [quote] + text + [quote] + rest;
    var closing := [quote] + rest;
    assert s[0] == quote && s[1..] == text + closing;
    ReadText(text, closing, "", Some(quote), room);
    NothingLeft(text);
    assert closing[1..] == rest;
  }

  /** Reading one written item, with the first word of a line open already. */
  lemma ReadItem(item: Item, rest: string, first: bool, room: nat)
    requires room > 0 && CanBe(item) && StopsWord(rest) && !(first && item.Bar?)
    ensures Split(Show(item) + rest, if first then Some("") else None, None, room) ==
      [Text(item)] + Split(rest, None, None, room - 1)
  {
    match item
    case Bar =>
      assert ("|" + rest)[0] == '|' && ("|" + rest)[1..] == rest;
    case Quoted(text, quote) =>
      ReadQuoted(text, quote, rest, if first then Some("") else None, room);
    case Bare(text) =>
      OpenAnyway(text + rest, room);
      ReadBare(text, rest, room);
  }

  lemma BlankRest(tail: string, room: nat)
    requires Blank(tail)
    ensures Split(tail, None, None, room) == [] && SkipSpace(tail) == []
  {
    SkipGap(tail, "", room);
    NothingLeft(tail);
  }

  lemma BlankLine(tail: string, maxWords: int)
    requires Blank(tail)
    ensures ParseLine(tail, maxWords) == []
  {
    BlankRest(tail, 0);
  }

  lemma FirstItem(items: seq<Spaced>)
    requires Writable(items) && items != []
    ensures Blank(items[0].gap) && CanBe(items[0].item)
    ensures Writable(items[1..]) && (items[1..] == [] || items[1..][0].gap != [])
  {
  }

  lemma LineStops(items: seq<Spaced>, tail: string)
    requires Writable(items) && Blank(tail) && (items == [] || items[0].gap != [])
    ensures StopsWord(Line(items, tail))
  {
  }

  /** The first `n` words, or all of them */
  function Upto(words: seq<string>, n: nat): seq<string> {
    if |words| <= n then words else words[..n]
  }

  lemma UptoNext(word: string, words: seq<string>, n: nat)
    requires n > 0
    ensures Upto([word] + words, n) == [word] + Upto(words, n - 1)
  {
  }

  lemma UptoNone(words: seq<string>, n: nat)
    ensures Upto(words, 0) == [] && Upto([], n) == []
  {
  }

  lemma LineNext(items: seq<Spaced>, tail: string)
    ensures items == [] ==> Line(items, tail) == tail && Texts(items) == []
    ensures items != [] ==>
      && Line(items, tail) == items[0].gap + (Show(items[0].item) + Line(items[1..], tail))
      && Texts(items) == [Text(items[0].item)] + Texts(items[1..])
  {
  }

  lemma ReadNext(items: seq<Spaced>, tail: string, room: nat)
    requires Writable(items) && Blank(tail) && items != [] && room > 0
    ensures Split(Line(items, tail), None, None, room) ==
      [Text(items[0].item)] + Split(Line(items[1..], tail), None, None, room - 1)
  {
    LineNext(items, tail);
    hide Split, SkipSpace, Show, CanBe, Writable, Blank, StopsWord, Line, Texts;
    FirstItem(items);
    var rest := Line(items[1..], tail);
    SkipGap(items[0].gap, Show(items[0].item) + rest, room);
    LineStops(items[1..], tail);
    ReadItem(items[0].item, rest, false, room);
  }

  lemma {:induction false} RestOfLine(items: seq<Spaced>, tail: string, room: nat)
    requires Writable(items) && Blank(tail)
    ensures Split(Line(items, tail), None, None, room) == Upto(Texts(items), room)
  {
    LineNext(items, tail);
    NoRoom(Line(items, tail), None, None);
    UptoNone(Texts(items), room);
    hide *;
    if items == [] {
      BlankRest(tail, room);
    } else if room > 0 {
      FirstItem(items);
      ReadNext(items, tail, room);
      RestOfLine(items[1..], tail, room - 1);
      UptoNext(Text(items[0].item), Texts(items[1..]), room);
    }
  }

  lemma LineStarts(items: seq<Spaced>, tail: string)
    requires items != [] && Blank(items[0].gap) && CanBe(items[0].item)
    ensures var s := Show(items[0].item) + Line(items[1..], tail);
      SkipSpace(Line(items, tail)) == s && s != []
  {
    hide SkipSpace, Show, CanBe;
    SkipGap(items[0].gap, Show(items[0].item) + Line(items[1..], tail), 0);
    ShowStarts(items[0].item, Line(items[1..], tail));
  }

  lemma ShowStarts(item: Item, rest: string)
    requires CanBe(item)
    ensures Show(item) != [] && SkipSpace(Show(item) + rest) == Show(item) + rest
  {
    WhiteIsSpace(Show(item)[0]);
  }

  predicate BarFirst(items: seq<Spaced>) {
    items != [] && items[0].item.Bar?
  }

  lemma BarRest(items: seq<Spaced>, tail: string, room: nat)
    requires Writable(items) && Blank(tail) && BarFirst(items)
    ensures Split(Show(Bar) + Line(items[1..], tail), None, None, room) == Upto(Texts(items), room)
  {
    hide Split, SkipSpace, Show, CanBe, Writable, Blank, StopsWord;
    var rest := Line(items[1..], tail);
    FirstItem(items);
    LineStops(items[1..], tail);
    NoRoom(Show(Bar) + rest, None, None);
    if room > 0 {
      ReadItem(items[0].item, rest, false, room);
      RestOfLine(items[1..], tail, room - 1);
      UptoNext("|", Texts(items[1..]), room);
    }
  }

  lemma FromFirstItem(items: seq<Spaced>, tail: string, room: nat)
    requires Writable(items) && Blank(tail) && items != []
    ensures var s := Show(items[0].item) + Line(items[1..], tail);
      Split(s, Some(""), None, room) == Upto(if BarFirst(items) then [""] + Texts(items) else Texts(items), room)
  {
    hide Split, SkipSpace, Show, CanBe, Writable, Blank, StopsWord;
    var item, rest := items[0].item, Line(items[1..], tail);
    FirstItem(items);
    LineStops(items[1..], tail);
    NoRoom(Show(item) + rest, Some(""), None);
    if room == 0 {
    } else if item.Bar? {
      LeadingBar(rest, room);
      BarRest(items, tail, room - 1);
      UptoNext("", Texts(items), room);
    } else {
      ReadItem(item, rest, true, room);
      RestOfLine(items[1..], tail, room - 1);
      UptoNext(Text(item), Texts(items[1..]), room);
    }
  }

  lemma LeadingBar(rest: string, room: nat)
    requires room > 0
    ensures Split(Show(Bar) + rest, Some(""), None, room) == [""] + Split(Show(Bar) + rest, None, None, room - 1)
  {
    assert (Show(Bar) + rest)[0] == '|';
  }

  /** Splitting a written line gives its items back, whichever quotes they are written in, as far as there is room; a
      bar in first place puts an empty word before them. */
  lemma SplittingInvertsWriting(items: seq<Spaced>, tail: string, maxWords: int)
    requires Writable(items) && Blank(tail)
    ensures ParseLine(Line(items, tail), maxWords) ==
      Upto(if BarFirst(items) then [""] + Texts(items) else Texts(items), if maxWords < 1 then 0 else maxWords - 1)
  {
    hide Split, SkipSpace, Show, CanBe, Writable, Blank, StopsWord;
    if items == [] {
      BlankLine(tail, maxWords);
    } else {
      hide Line, Texts, Upto;
      FirstItem(items);
      FromFirstItem(items, tail, if maxWords < 1 then 0 else maxWords - 1);
      LineStarts(items, tail);
    }
  }

  // ----- quotes inside quotes -----

  /** A text written in quotes of either kind is read back exactly when it holds no quote of either kind. */
  lemma QuotingWorksIff(text: string, quote: char, maxWords: int)
    requires quote == '\"' || quote == '\''
    requires maxWords > 1
    ensures ParseLine([quote] + text + [quote], maxWords) == [text] <==> '\"' !in text && '\'' !in text
  {
    var line := [quote] + text + [quote];
    hide ParseLine;
    ParsedWordsArePlain(line, maxWords);
    if Plain(text) {
      var items := [Spaced("", Quoted(text, quote))];
      SplittingInvertsWriting(items, "", maxWords);
      assert items[1..] == [];
      NothingLeft(line);
      assert Line(items, "") == line && Texts(items) == [text];
    }
    assert text in [text];
  }

  lemma Reopen(quote: char, rest: string, word: string, inside: Option<char>, room: nat)
    requires IsQuote(quote) && inside != Some(quote) && room > 0
    ensures Split([quote] + rest, Some(word), inside, room) == Split(rest, Some(""), Some(quote), room)
  {
    assert ([quote] + rest)[1..] == rest;
  }

  /** A quote of the other kind starts the word anew and so does the closing one: what is written is lost, such as all
      of `it's` in double quotes. */
  lemma OtherQuoteStartsAnew(a: string, b: string, quote: char, other: char, maxWords: int)
    requires Plain(a) && Plain(b) && maxWords > 1
    requires (quote == '\"' && other == '\'') || (quote == '\'' && other == '\"')
    ensures ParseLine([quote] + (a + ([other] + (b + [quote]))), maxWords) == [""]
  {
    var room := maxWords - 1;
    var tail := [other] + (b + [quote]);
    var line := [quote] + (a + tail);
    QuotedStarts(quote, a + tail, maxWords);
    hide Split, ParseLine, Plain;
    Reopen(quote, a + tail, "", None, room);
    ReadText(a, tail, "", Some(quote), room);
    Reopen(other, b + [quote], "" + a, Some(quote), room);
    ReadText(b, [quote], "", Some(other), room);
    Reopen(quote, [], "" + b, Some(other), room);
    NothingLeft([quote]);
  }

  lemma QuotedStarts(quote: char, rest: string, maxWords: int)
    requires IsQuote(quote) && maxWords > 1
    ensures ParseLine([quote] + rest, maxWords) == Split([quote] + rest, Some(""), None, maxWords - 1)
    ensures Split([], Some(""), Some(quote), maxWords - 1) == [""]
  {
    hide Split;
    assert ([quote] + rest)[0] == quote && SkipSpace([quote] + rest) == [quote] + rest;
    SplitEnds(quote, maxWords - 1);
  }

  lemma SplitEnds(quote: char, room: nat)
    requires room > 0
    ensures Split([], Some(""), Some(quote), room) == [""]
  {
  }
}
