/** `cJSON_Minify`: in place, and on printed text. Source: lib/cJSON.c. */
module JsonMinify {
  import opened Sequences
  import opened JsonText
  import opened JsonParser
  import opened JsonRoundTrip

  /** Which of its loops the minifier is in. */
  datatype Mode = Plain | Literal | Line | Block

  predicate IsBlank(c: char) {
    c == ' ' || c == '\t' || c == '\r' || c == '\n'
  }

  /** What is left of a text from a loop on. */
  function Minify(s: string, mode: Mode): string
    decreases |s|
  {
    if s == "" then ""
    else
      match mode
      case Plain =>
        if IsBlank(s[0]) then Minify(s[1..], Plain)
        else if s[0] == '/' && At(s, 1) == '/' then Minify(s[1..], Line)
        else if s[0] == '/' && At(s, 1) == '*' then Minify(s[1..], Block)
        else [s[0]] + Minify(s[1..], if s[0] == QUOTE then Literal else Plain)
      case Line => Minify(s[1..], if s[0] == '\n' then Plain else Line)
      case Block => if s[0] == '*' && At(s, 1) == '/' then Minify(s[2..], Plain) else Minify(s[1..], Block)
      case Literal =>
        if s[0] == BACKSLASH && |s| >= 2 then s[..2] + Minify(s[2..], Literal)
        else [s[0]] + Minify(s[1..], if s[0] == QUOTE then Plain else Literal)
  }

  /** Every string literal and every block comment ends before the text does. */
  predicate Closed(s: string, mode: Mode)
    decreases |s|
  {
    if s == "" then mode == Plain || mode == Line
    else
      match mode
      case Plain =>
        if IsBlank(s[0]) then Closed(s[1..], Plain)
        else if s[0] == '/' && At(s, 1) == '/' then Closed(s[1..], Line)
        else if s[0] == '/' && At(s, 1) == '*' then Closed(s[1..], Block)
        else Closed(s[1..], if s[0] == QUOTE then Literal else Plain)
      case Line => Closed(s[1..], if s[0] == '\n' then Plain else Line)
      case Block => if s[0] == '*' && At(s, 1) == '/' then Closed(s[2..], Plain) else Closed(s[1..], Block)
      case Literal =>
        if s[0] == BACKSLASH then |s| >= 2 && Closed(s[2..], Literal)
        else Closed(s[1..], if s[0] == QUOTE then Plain else Literal)
  }

  /** The buffer holds what is left of `s` from `json` on, with its terminator. */
  ghost predicate Holds(buf: array<char>, s: string, json: nat)
    reads buf
  {
    |s| < buf.Length && json <= |s| && buf[|s|] == NUL && forall k :: json <= k < |s| ==> buf[k] == s[k]
  }

  /** `cJSON_Minify`: reads at `json`, writes at `into`, in one buffer. It steps over the terminator of the
      text, and reads on whatever is there, exactly when a literal or a block comment does not end. */
  method MinifyInPlace(buf: array<char>, ghost s: string) returns (overrun: bool)
    requires Holds(buf, s, 0) && NulFree(s)
    modifies buf
    ensures overrun <==> !Closed(s, Plain)
    ensures |Minify(s, Plain)| <= |s|
    ensures !overrun ==> buf[..|Minify(s, Plain)|] == Minify(s, Plain) && buf[|Minify(s, Plain)|] == NUL
  {
    hide Minify, Closed;
    MinifyShrinks(s, Plain);
    assert s[0..] == s;
    var json: nat, into: nat := 0, 0;
    while buf[json] != NUL
      invariant into <= json && Holds(buf, s, json) && Closed(s[json..], Plain) == Closed(s, Plain)
      invariant buf[..into] + Minify(s[json..], Plain) == Minify(s, Plain)
      decreases |s| - json
    {
      if IsBlank(buf[json]) {
        SkipBlank(s, json);
        json := json + 1;
      } else if buf[json] == '/' && buf[json + 1] == '/' {
        json := SkipLine(buf, s, json);
      } else if buf[json] == '/' && buf[json + 1] == '*' {
        overrun, json := SkipBlock(buf, s, json);
        if overrun {
          return;
        }
      } else if buf[json] == QUOTE {
        overrun, json, into := CopyLiteral(buf, s, json, into);
        if overrun {
          return;
        }
      } else {
        CopyPlain(buf[..into], s, json);
        CopyChar(buf, s, json, into);
        json, into := json + 1, into + 1;
      }
    }
    AtEnd(s, json);
    NothingLeft(buf[..into]);
    buf[into] := NUL;
    overrun := false;
  }

  lemma SkipBlank(s: string, json: nat)
    requires json < |s| && IsBlank(s[json])
    ensures Minify(s[json..], Plain) == Minify(s[json + 1..], Plain)
    ensures Closed(s[json..], Plain) == Closed(s[json + 1..], Plain)
  {
    Rest(s, json);
  }

  /** A character that starts neither a literal nor a comment */
  lemma CopyPlain(written: string, s: string, json: nat)
    requires json < |s| && !IsBlank(s[json]) && s[json] != QUOTE
    requires s[json] == '/' ==> json + 1 == |s| || (s[json + 1] != '/' && s[json + 1] != '*')
    ensures written + Minify(s[json..], Plain) == written + [s[json]] + Minify(s[json + 1..], Plain)
    ensures Closed(s[json..], Plain) == Closed(s[json + 1..], Plain)
  {
    Rest(s, json);
    Associative(written, [s[json]], Minify(s[json + 1..], Plain));
  }

  lemma AtEnd(s: string, json: nat)
    requires json == |s|
    ensures Minify(s[json..], Plain) == "" && Closed(s[json..], Plain)
  {
  }

  /** Two texts on which it steps over the terminator. */
  lemma UnclosedTexts()
    ensures !Closed("\"", Plain) && !Closed("/*", Plain)
  {
    assert "\""[1..] == "" && "/*"[1..] == "*" && "*"[1..] == "";
  }

  lemma {:induction false} MinifyShrinks(s: string, mode: Mode)
    ensures |Minify(s, mode)| <= |s|
    decreases |s|
  {
    if s != "" {
      forall n: nat, m: Mode | 0 < n <= |s|
        ensures |Minify(s[n..], m)| <= |s| - n
      {
        MinifyShrinks(s[n..], m);
      }
    }
  }

  /** `*into++ = *json++` */
  method CopyChar(buf: array<char>, ghost s: string, json: nat, into: nat)
    requires Holds(buf, s, json) && into <= json < |s|
    modifies buf
    ensures Holds(buf, s, json + 1)
    ensures buf[..into + 1] == old(buf[..into]) + [s[json]]
  {
    buf[into] := buf[json];
  }

  lemma Rest(s: string, json: nat)
    requires json < |s|
    ensures s[json..][0] == s[json] && s[json..][1..] == s[json + 1..]
    ensures json + 1 < |s| ==> s[json..][..2] == [s[json], s[json + 1]] && s[json..][2..] == s[json + 2..]
  {
  }

  method SkipLine(buf: array<char>, ghost s: string, from: nat) returns (json: nat)
    requires Holds(buf, s, from) && NulFree(s) && from + 1 < |s| && s[from] == '/' && s[from + 1] == '/'
    ensures from < json && Holds(buf, s, json) && Closed(s[json..], Plain) == Closed(s[from..], Plain)
    ensures Minify(s[json..], Plain) == Minify(s[from..], Plain)
  {
    json := from + 1;
    Rest(s, from);
    while buf[json] != NUL && buf[json] != '\n'
      invariant from < json <= |s| && Closed(s[json..], Line) == Closed(s[from..], Plain)
      invariant Minify(s[json..], Line) == Minify(s[from..], Plain)
      decreases |s| - json
    {
      Rest(s, json);
      json := json + 1;
    }
  }

  method SkipBlock(buf: array<char>, ghost s: string, from: nat) returns (overrun: bool, json: nat)
    requires Holds(buf, s, from) && NulFree(s) && from + 1 < |s| && s[from] == '/' && s[from + 1] == '*'
    ensures overrun ==> !Closed(s[from..], Plain)
    ensures !overrun ==> from < json && Holds(buf, s, json) && Closed(s[json..], Plain) == Closed(s[from..], Plain)
    ensures !overrun ==> Minify(s[json..], Plain) == Minify(s[from..], Plain)
  {
    json := from + 1;
    Rest(s, from);
    while buf[json] != NUL && !(buf[json] == '*' && buf[json + 1] == '/')
      invariant from < json <= |s| && Closed(s[json..], Block) == Closed(s[from..], Plain)
      invariant Minify(s[json..], Block) == Minify(s[from..], Plain)
      decreases |s| - json
    {
      Rest(s, json);
      json := json + 1;
    }
    if buf[json] == NUL {
      assert s[json..] == "";
      return true, json;
    }
    Rest(s, json);
    overrun, json := false, json + 2;
  }

  /** The characters of a literal from `json` on that the loop copies in one turn. */
  function Turn(s: string): (n: nat)
    requires s != ""
    ensures 1 <= n <= |s|
  {
    if s[0] == BACKSLASH && |s| >= 2 then 2 else 1
  }

  lemma LiteralTurn(s: string)
    requires s != "" && s[0] != QUOTE
    ensures Closed(s, Literal) <==> (s[0] == BACKSLASH ==> |s| >= 2) && Closed(s[Turn(s)..], Literal)
    ensures Minify(s, Literal) == s[..Turn(s)] + Minify(s[Turn(s)..], Literal)
  {
    assert s[..1] == [s[0]];
  }

  /** A quote opens a literal, and the next one closes it. */
  lemma LiteralEnds(s: string)
    requires s != "" && s[0] == QUOTE
    ensures Minify(s, Plain) == [s[0]] + Minify(s[1..], Literal) && Closed(s, Plain) == Closed(s[1..], Literal)
    ensures Minify(s, Literal) == [s[0]] + Minify(s[1..], Plain) && Closed(s, Literal) == Closed(s[1..], Plain)
  {
  }

  lemma LiteralNeverEmpty()
    ensures !Closed("", Literal)
  {
  }

  /** One turn of the loop inside a literal. */
  method CopyTurn(buf: array<char>, ghost s: string, json: nat, into: nat) returns (overrun: bool, n: nat)
    requires Holds(buf, s, json) && NulFree(s) && into <= json < |s| && s[json] != QUOTE
    modifies buf
    ensures overrun <==> s[json] == BACKSLASH && json + 1 == |s|
    ensures overrun ==> !Closed(s[json..], Literal)
    ensures !overrun ==> n > 0 && json + n <= |s| && Holds(buf, s, json + n)
    ensures !overrun ==> Closed(s[json + n..], Literal) == Closed(s[json..], Literal)
    ensures !overrun ==>
      buf[..into + n] + Minify(s[json + n..], Literal) == old(buf[..into]) + Minify(s[json..], Literal)
  {
    hide Minify, Closed;
    Rest(s, json);
    LiteralTurn(s[json..]);
    n := 0;
    if buf[json] == BACKSLASH {
      CopyChar(buf, s, json, into);
      n := 1;
      if buf[json + n] == NUL {
        return true, n;
      }
    }
    CopyChar(buf, s, json + n, into + n);
    overrun, n := false, n + 1;
    ghost var turn := s[json..];
    assert turn[n..] == s[json + n..] && buf[..into + n] == old(buf[..into]) + turn[..n];
    Associative(old(buf[..into]), turn[..n], Minify(turn[n..], Literal));
  }

  method CopyLiteral(buf: array<char>, ghost s: string, from: nat, into0: nat)
    returns (overrun: bool, json: nat, into: nat)
    requires Holds(buf, s, from) && NulFree(s) && into0 <= from < |s| && s[from] == QUOTE
    modifies buf
    ensures overrun ==> !Closed(s[from..], Plain)
    ensures !overrun ==> from < json && into <= json && Holds(buf, s, json)
    ensures !overrun ==> Closed(s[json..], Plain) == Closed(s[from..], Plain)
    ensures !overrun ==> buf[..into] + Minify(s[json..], Plain) == old(buf[..into0]) + Minify(s[from..], Plain)
  {
    hide Minify, Closed;
    ghost var all := old(buf[..into0]) + Minify(s[from..], Plain);
    OpenLiteral(buf[..into0], s, from);
    CopyChar(buf, s, from, into0);
    json, into := from + 1, into0 + 1;
    while buf[json] != NUL && buf[json] != QUOTE
      invariant from < json && into <= json && Holds(buf, s, json)
      invariant Closed(s[json..], Literal) == Closed(s[from..], Plain)
      invariant buf[..into] + Minify(s[json..], Literal) == all
      decreases |s| - json
    {
      var n;
      overrun, n := CopyTurn(buf, s, json, into);
      if overrun {
        return;
      }
      json, into := json + n, into + n;
    }
    LiteralNeverEmpty();
    if buf[json] == NUL {
      assert s[json..] == "";
      return true, json, into;
    }
    CloseLiteral(buf[..into], s, json);
    CopyChar(buf, s, json, into);
    overrun, json, into := false, json + 1, into + 1;
  }

  lemma OpenLiteral(written: string, s: string, json: nat)
    requires json < |s| && s[json] == QUOTE
    ensures written + Minify(s[json..], Plain) == written + [s[json]] + Minify(s[json + 1..], Literal)
    ensures Closed(s[json + 1..], Literal) == Closed(s[json..], Plain)
  {
    Rest(s, json);
    LiteralEnds(s[json..]);
    hide Minify, Closed;
    Associative(written, [s[json]], Minify(s[json + 1..], Literal));
  }

  lemma CloseLiteral(written: string, s: string, json: nat)
    requires json < |s| && s[json] == QUOTE
    ensures written + Minify(s[json..], Literal) == written + [s[json]] + Minify(s[json + 1..], Plain)
    ensures Closed(s[json + 1..], Plain) == Closed(s[json..], Literal)
  {
    Rest(s, json);
    LiteralEnds(s[json..]);
    hide Minify, Closed;
    Associative(written, [s[json]], Minify(s[json + 1..], Plain));
  }

  // ----- printed text -----

  /** In front of `rest`, minifying turns `a` into `b`, and leaves no literal or comment open. */
  predicate Becomes(a: string, b: string, rest: string) {
    && Minify(a + rest, Plain) == b + Minify(rest, Plain)
    && (Closed(rest, Plain) ==> Closed(a + rest, Plain))
  }

  lemma Chain(a: string, a': string, b: string, b': string, rest: string)
    requires Becomes(a, a', b + rest) && Becomes(b, b', rest)
    ensures Becomes(a + b, a' + b', rest)
  {
    Associative(a, b, rest);
    Associative(a', b', Minify(rest, Plain));
  }

  /** A comment up to the end of its line vanishes with it. */
  lemma {:induction false} LineVanishes(comment: string, rest: string)
    requires '\n' !in comment
    ensures Minify(comment + ("\n" + rest), Line) == Minify(rest, Plain)
    decreases |comment|
  {
    var s := comment + ("\n" + rest);
    if comment == "" {
      assert s == "\n" + rest && s[1..] == rest;
    } else {
      assert s[1..] == comment[1..] + ("\n" + rest);
      LineVanishes(comment[1..], rest);
    }
  }

  /** The text holds the end of a block comment. */
  predicate HasEnd(s: string) {
    exists k :: 0 <= k < |s| && s[k] == '*' && At(s, k + 1) == '/'
  }

  /** A block comment vanishes up to its first end; its text starts with the star of its opening. */
  lemma {:induction false} BlockVanishes(comment: string, rest: string)
    requires !HasEnd(comment)
    ensures Minify(comment + ("*/" + rest), Block) == Minify(rest, Plain)
    decreases |comment|
  {
    var s := comment + ("*/" + rest);
    if comment == "" {
      assert s == "*/" + rest && s[2..] == rest;
    } else {
      assert s[1..] == comment[1..] + ("*/" + rest);
      assert s[1] == if |comment| > 1 then comment[1] else '*';
      BlockVanishes(comment[1..], rest);
    }
  }

  /** Comments vanish from between tokens: one of a line with its end, one of a block with the first end
      that is not its opening. */
  lemma CommentsVanish(comment: string, rest: string)
    ensures '\n' !in comment ==> Minify("//" + comment + ("\n" + rest), Plain) == Minify(rest, Plain)
    ensures !HasEnd("*" + comment) ==> Minify("/*" + comment + ("*/" + rest), Plain) == Minify(rest, Plain)
  {
    var line, block := "//" + comment + ("\n" + rest), "/*" + comment + ("*/" + rest);
    assert line[1..] == "/" + comment + ("\n" + rest) && block[1..] == "*" + comment + ("*/" + rest);
    if '\n' !in comment {
      LineVanishes("/" + comment, rest);
    }
    if !HasEnd("*" + comment) {
      BlockVanishes("*" + comment, rest);
    }
  }

  lemma {:induction false} BlanksVanish(a: string, rest: string)
    requires forall k :: 0 <= k < |a| ==> IsBlank(a[k])
    ensures Becomes(a, "", rest)
    decreases |a|
  {
    NothingLeft(Minify(rest, Plain));
    if a == "" {
      NothingLeft(rest);
    } else {
      BlanksVanish(a[1..], rest);
      assert (a + rest)[1..] == a[1..] + rest;
    }
  }

  predicate IsPlain(c: char) {
    !IsBlank(c) && c != '/' && c != QUOTE
  }

  lemma {:induction false} PlainStays(a: string, rest: string)
    requires forall k :: 0 <= k < |a| ==> IsPlain(a[k])
    ensures Becomes(a, a, rest)
    decreases |a|
  {
    if a == "" {
      NothingLeft(rest);
      NothingLeft(Minify(rest, Plain));
    } else {
      PlainStays(a[1..], rest);
      assert (a + rest)[1..] == a[1..] + rest;
      Associative([a[0]], a[1..], Minify(rest, Plain));
      assert [a[0]] + a[1..] == a;
    }
  }

  /** Inside a literal a backslash and the character after it are copied. */
  lemma BackslashStays(c: char, rest: string)
    ensures Minify([BACKSLASH, c] + rest, Literal) == [BACKSLASH, c] + Minify(rest, Literal)
    ensures Closed(rest, Literal) ==> Closed([BACKSLASH, c] + rest, Literal)
  {
    var s := [BACKSLASH, c] + rest;
    assert s[..2] == [BACKSLASH, c] && s[2..] == rest;
  }

  /** Inside a literal an escaped character is copied. */
  lemma EscapeStays(c: char, rest: string)
    ensures Minify(Escape(c) + rest, Literal) == Escape(c) + Minify(rest, Literal)
    ensures Closed(rest, Literal) ==> Closed(Escape(c) + rest, Literal)
  {
    hide Minify, Closed;
    EscapeShape(c);
    hide Escape;
    if |Escape(c)| == 1 {
      DigitsStay(Escape(c), rest);
    } else {
      var head, digits := Escape(c)[..2], Escape(c)[2..];
      assert Escape(c) == head + digits && head == [BACKSLASH, head[1]];
      DigitsStay(digits, rest);
      Associative(head, digits, rest);
      BackslashStays(head[1], digits + rest);
      Associative(head, digits, Minify(rest, Literal));
    }
  }

  lemma {:induction false} DigitsStay(a: string, rest: string)
    requires forall k :: 0 <= k < |a| ==> a[k] != BACKSLASH && a[k] != QUOTE
    ensures Minify(a + rest, Literal) == a + Minify(rest, Literal)
    ensures Closed(rest, Literal) ==> Closed(a + rest, Literal)
    decreases |a|
  {
    if a == "" {
      NothingLeft(rest);
      NothingLeft(Minify(rest, Literal));
    } else {
      DigitsStay(a[1..], rest);
      assert (a + rest)[1..] == a[1..] + rest;
      Associative([a[0]], a[1..], Minify(rest, Literal));
      assert [a[0]] + a[1..] == a;
    }
  }

  lemma {:induction false} LiteralStays(s: string, rest: string)
    ensures Minify(EscapeAll(s) + ("\"" + rest), Literal) == EscapeAll(s) + ("\"" + Minify(rest, Plain))
    ensures Closed(rest, Plain) ==> Closed(EscapeAll(s) + ("\"" + rest), Literal)
    decreases |s|
  {
    if s == "" {
      NothingLeft("\"" + rest);
      NothingLeft("\"" + Minify(rest, Plain));
      assert ("\"" + rest)[1..] == rest;
    } else {
      LiteralStays(s[1..], rest);
      Associative(Escape(s[0]), EscapeAll(s[1..]), "\"" + rest);
      EscapeStays(s[0], EscapeAll(s[1..]) + ("\"" + rest));
      Associative(Escape(s[0]), EscapeAll(s[1..]), "\"" + Minify(rest, Plain));
    }
  }

  lemma QuotedStays(s: string, rest: string)
    ensures Becomes(Quoted(s), Quoted(s), rest)
  {
    LiteralStays(s, rest);
    Associative("\"" + EscapeAll(s), "\"", rest);
    Associative("\"", EscapeAll(s), "\"" + rest);
    var inner := EscapeAll(s) + ("\"" + rest);
    assert ("\"" + inner)[1..] == inner;
    assert Minify("\"" + inner, Plain) == "\"" + Minify(inner, Literal);
    assert Closed(inner, Literal) ==> Closed("\"" + inner, Plain);
    hide Minify, Closed, EscapeAll;
    Associative("\"", EscapeAll(s), "\"" + Minify(rest, Plain));
    Associative("\"" + EscapeAll(s), "\"", Minify(rest, Plain));
  }

  lemma LayoutVanishes(depth: nat, rest: string)
    ensures Becomes(" ", "", rest) && Becomes("\t", "", rest) && Becomes("\n", "", rest)
    ensures Becomes(Tabs(depth), "", rest) && Becomes("\n" + Tabs(depth), "", rest)
  {
    TabsAreTabs(depth);
    BlanksVanish(" ", rest);
    BlanksVanish("\t", rest);
    BlanksVanish("\n", rest);
    BlanksVanish(Tabs(depth), rest);
    BlanksVanish("\n" + Tabs(depth), rest);
  }

  /** The text of one item or member after another: a comma, layout, the text, and what follows. */
  lemma CommaChain(blank: string, a: string, a': string, b: string, b': string, rest: string)
    requires Becomes(blank, "", a + b + rest) && Becomes(a, a', b + rest) && Becomes(b, b', rest)
    ensures Becomes("," + blank + a + b, "," + a' + b', rest)
  {
    PlainStays(",", blank + (a + b + rest));
    hide Minify, Closed;
    Chain(a, a', b, b', rest);
    assert a + b + rest == (a + b) + rest;
    Chain(blank, "", a + b, a' + b', rest);
    NothingLeft(a' + b');
    Associative(blank, a + b, rest);
    Chain(",", ",", blank + (a + b), a' + b', rest);
    Associative(",", blank, a + b);
    Associative("," + blank, a, b);
    Associative(",", a', b');
  }

  lemma NumberStays(n: int, rest: string)
    ensures Becomes(IntText(n), IntText(n), rest)
  {
    PlainStays(IntText(n), rest);
  }

  lemma Bracketed(open: string, a: string, a': string, close: string, rest: string)
    requires (open == "[" && close == "]") || (open == "{" && close == "}")
    requires Becomes(a, a', close + rest)
    ensures Becomes(open + a + close, open + a' + close, rest)
  {
    PlainStays(open, a + (close + rest));
    PlainStays(close, rest);
    hide Becomes;
    Chain(open, open, a, a', close + rest);
    Chain(open + a, open + a', close, close, rest);
  }

  /** Minifying the formatted text of a tree gives its unformatted text. */
  lemma {:induction false} ValueMinifies(t: Json, depth: nat, rest: string)
    ensures Becomes(Print(t, depth, true), Print(t, depth, false), rest)
    decreases t, 0
  {
    match t
    case Str(s) => QuotedStays(s, rest);
    case Number(v) => NumberStays(v.Floor, rest);
    case Array(items) =>
      ItemsMinify(items, depth + 1, "]" + rest);
      hide Becomes;
      Bracketed("[", PrintItems(items, depth + 1, true), PrintItems(items, depth + 1, false), "]", rest);
    case Object(members) => ObjectMinifies(members, depth, rest);
    case _ => PlainStays(Print(t, depth, true), rest);
  }

  lemma {:induction false} ItemsMinify(items: seq<Json>, depth: nat, rest: string)
    ensures Becomes(PrintItems(items, depth, true), PrintItems(items, depth, false), rest)
    decreases items, 1
  {
    hide Becomes;
    if items == [] {
      PlainStays("", rest);
    } else {
      MoreItemsMinify(items[1..], depth, rest);
      ValueMinifies(items[0], depth, MoreItems(items[1..], depth, true) + rest);
      Chain(Print(items[0], depth, true), Print(items[0], depth, false),
            MoreItems(items[1..], depth, true), MoreItems(items[1..], depth, false), rest);
    }
  }

  lemma {:induction false} MoreItemsMinify(items: seq<Json>, depth: nat, rest: string)
    ensures Becomes(MoreItems(items, depth, true), MoreItems(items, depth, false), rest)
    decreases items, 1
  {
    hide Becomes;
    if items == [] {
      PlainStays("", rest);
    } else {
      var a, a' := Print(items[0], depth, true), Print(items[0], depth, false);
      var b, b' := MoreItems(items[1..], depth, true), MoreItems(items[1..], depth, false);
      MoreItemsMinify(items[1..], depth, rest);
      ValueMinifies(items[0], depth, b + rest);
      LayoutVanishes(0, a + b + rest);
      CommaChain(" ", a, a', b, b', rest);
      NothingLeft(",");
    }
  }

  lemma {:induction false} MemberMinifies(m: Member, depth: nat, rest: string)
    ensures Becomes(PrintMember(m, depth, true), PrintMember(m, depth, false), rest)
    decreases m, 1
  {
    var tabs, name, value, value' := Tabs(depth), Quoted(m.name), Print(m.value, depth, true), Print(m.value, depth, false);
    hide Becomes;
    ValueMinifies(m.value, depth, rest);
    LayoutVanishes(depth, value + rest);
    Chain("\t", "", value, value', rest);
    PlainStays(":", "\t" + value + rest);
    Chain(":", ":", "\t" + value, "" + value', rest);
    QuotedStays(m.name, ":" + ("\t" + value) + rest);
    Chain(name, name, ":" + ("\t" + value), ":" + ("" + value'), rest);
    LayoutVanishes(depth, name + (":" + ("\t" + value)) + rest);
    Chain(tabs, "", name + (":" + ("\t" + value)), name + (":" + ("" + value')), rest);
    MemberLayout(tabs, name, "\t", value);
    MemberLayout("", name, "", value');
  }

  lemma MemberLayout(tabs: string, name: string, tab: string, value: string)
    ensures tabs + (name + (":" + (tab + value))) == tabs + name + ":" + tab + value
  {
    Associative(tabs, name, ":" + (tab + value));
    Associative(tabs + name, ":", tab + value);
    Associative(tabs + name + ":", tab, value);
  }

  lemma {:induction false} MoreMembersMinify(members: seq<Member>, depth: nat, rest: string)
    ensures Becomes(MoreMembers(members, depth, true), MoreMembers(members, depth, false), rest)
    decreases members, 1
  {
    hide Becomes;
    if members == [] {
      PlainStays("", rest);
    } else {
      var a, a' := PrintMember(members[0], depth, true), PrintMember(members[0], depth, false);
      var b, b' := MoreMembers(members[1..], depth, true), MoreMembers(members[1..], depth, false);
      MoreMembersMinify(members[1..], depth, rest);
      MemberMinifies(members[0], depth, b + rest);
      LayoutVanishes(0, a + b + rest);
      CommaChain("\n", a, a', b, b', rest);
      NothingLeft(",");
    }
  }

  lemma {:induction false} MembersMinify(members: seq<Member>, depth: nat, rest: string)
    requires members != []
    ensures Becomes(PrintMembers(members, depth, true), PrintMembers(members, depth, false), rest)
    decreases members, 2
  {
    hide Becomes;
    MoreMembersMinify(members[1..], depth, rest);
    MemberMinifies(members[0], depth, MoreMembers(members[1..], depth, true) + rest);
    Chain(PrintMember(members[0], depth, true), PrintMember(members[0], depth, false),
          MoreMembers(members[1..], depth, true), MoreMembers(members[1..], depth, false), rest);
  }

  lemma {:induction false} ObjectMinifies(members: seq<Member>, depth: nat, rest: string)
    ensures Becomes(Print(Object(members), depth, true), Print(Object(members), depth, false), rest)
    decreases members, 3
  {
    hide Becomes;
    if members == [] {
      var layout := "\n" + Tabs(if depth > 0 then depth - 1 else 0);
      LayoutVanishes(if depth > 0 then depth - 1 else 0, "}" + rest);
      Bracketed("{", layout, "", "}", rest);
    } else {
      var a, a' := PrintMembers(members, depth + 1, true), PrintMembers(members, depth + 1, false);
      var close := "\n" + Tabs(depth);
      LayoutVanishes(depth, "}" + rest);
      MembersMinify(members, depth + 1, close + ("}" + rest));
      Chain(a, a', close, "", "}" + rest);
      LayoutVanishes(depth, a + close + ("}" + rest));
      Chain("\n", "", a + close, a' + "", "}" + rest);
      Bracketed("{", "\n" + (a + close), "" + (a' + ""), "}", rest);
      Associative("{", "\n", a + close);
      Associative("{" + "\n", a, close);
      Associative("{", "", a' + "");
      Associative("{" + "", a', "");
    }
  }

  /** Minifying what `cJSON_Print` makes gives what `cJSON_PrintUnformatted` makes, and the minifier
      never reads past the end of it. */
  lemma MinifiedIsUnformatted(t: Json)
    ensures Minify(Print(t, 0, true), Plain) == Print(t, 0, false) && Closed(Print(t, 0, true), Plain)
  {
    ValueMinifies(t, 0, "");
    NothingLeft(Print(t, 0, true));
    NothingLeft(Print(t, 0, false));
  }

  /** A buffer with what `cJSON_Print` makes of a tree holds what `cJSON_PrintUnformatted` makes of it after
      `cJSON_Minify`. */
  method MinifyPrinted(buf: array<char>, ghost t: Json)
    requires Printable(t) && Holds(buf, Print(t, 0, true), 0)
    modifies buf
    ensures Holds(buf, Print(t, 0, false), 0)
  {
    PrintIsNulFree(t, 0, true);
    MinifiedIsUnformatted(t);
    var overrun := MinifyInPlace(buf, Print(t, 0, true));
    ghost var text := Print(t, 0, false);
    assert forall k :: 0 <= k < |text| ==> buf[k] == buf[..|text|][k];
  }
}
