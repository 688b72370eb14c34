/** Abbreviated commands: the lengths precomputed for a tree of commands, and the tests that use them.
    Source: `cli_build_shortest` and `cli_find_command` in lib/cli.c. */
module CliMatch {

  const MODE_ANY := -1
  const MODE_CONFIG := 1

  /** `struct cli_command`; siblings are the sequence that `next` leads along. */
  class Command {
    const name: string
    const mode: int
    const privilege: int
    const children: seq<Command>
    var uniqueLen: nat

    constructor (name: string, mode: int, privilege: int, children: seq<Command>)
      ensures this.name == name && this.mode == mode && this.privilege == privilege && this.children == children
    {
      this.name, this.mode, this.privilege, this.children := name, mode, privilege, children;
      uniqueLen := 0;
    }
  }

  /** The mode and privilege of a session. */
  datatype Session = Session(mode: int, privilege: int)

  predicate Visible(c: Command, s: Session) {
    (c.mode == MODE_ANY || c.mode == s.mode) && c.privilege <= s.privilege
  }

  // ----- shared prefixes -----

  /** How many leading characters two names share. */
  function Common(a: string, b: string): (n: nat)
    ensures n <= |a| && n <= |b| && a[..n] == b[..n]
    ensures forall k :: 0 <= k < n ==> a[k] == b[k]
    ensures n < |a| && n < |b| ==> a[n] != b[n]
  {
    if a != [] && b != [] && a[0] == b[0] then
      assert forall k {:trigger a[1..][k]} | 0 <= k < |a| - 1 :: a[1..][k] == a[k + 1];
      1 + Common(a[1..], b[1..])
    else 0
  }

  lemma CommonIs(a: string, b: string, n: nat)
    requires n <= |a| && n <= |b| && a[..n] == b[..n]
    ensures n <= Common(a, b)
  {
    forall k | 0 <= k < n
      ensures a[k] == b[k]
    {
      assert a[..n][k] == b[..n][k];
    }
  }

  lemma CommonAt(a: string, b: string, k: nat)
    requires k <= |a| && k <= |b| && (k < |a| && k < |b| ==> a[k] != b[k])
    ensures Common(a, b) <= k
  {
  }

  /** The inner loop of `cli_build_shortest` */
  method CommonLen(a: string, b: string) returns (len: nat)
    ensures len == 1 + Common(a, b)
  {
    len := 1;
    var i := 0;
    while i < |a| && i < |b| && a[i] == b[i]
      invariant i <= |a| && i <= |b| && len == 1 + i && a[..i] == b[..i]
    {
      i, len := i + 1, len + 1;
    }
    CommonIs(a, b, i);
    CommonAt(a, b, i);
  }

  function Lower(c: char): char {
    if 'A' <= c <= 'Z' then c - 'A' + 'a' else c
  }

  const UPPER := "ABCDEFGHIJKLMNOPQRSTUVWXYZ"

  /** Letters lose their case, and nothing else changes. */
  lemma LowerIs(c: char, i: nat)
    requires i < 26
    ensures Lower(UPPER[i]) == "abcdefghijklmnopqrstuvwxyz"[i]
    ensures c !in UPPER ==> Lower(c) == c
  {
    if 'A' <= c <= 'Z' {
      assert UPPER[c as int - 'A' as int] == c;
    }
  }

  function Fold(s: string): string {
    seq(|s|, i requires 0 <= i < |s| => Lower(s[i]))
  }

  /** A name as two comparisons see it: letter for letter, or ignoring case. */
  function Key(name: string, fold: bool): (key: string)
    ensures |key| == |name|
  {
    if fold then Fold(name) else name
  }

  /** Another visible sibling shares all but one of that many characters. */
  ghost predicate SomeShares(c: Command, siblings: seq<Command>, n: nat, s: Session, fold: bool, len: nat)
    requires n <= |siblings|
  {
    exists i | 0 <= i < n && siblings[i] != c && Visible(siblings[i], s) ::
      1 + Common(Key(c.name, fold), Key(siblings[i].name, fold)) == len
  }

  /** One more than the longest prefix that a command shares with the other visible siblings among the first n. */
  function UniqueLen(c: Command, siblings: seq<Command>, n: nat, s: Session, fold: bool): (len: nat)
    requires n <= |siblings|
    ensures len >= 1
    ensures forall i :: 0 <= i < n && siblings[i] != c && Visible(siblings[i], s) ==>
      Common(Key(c.name, fold), Key(siblings[i].name, fold)) < len
    ensures len > 1 ==> SomeShares(c, siblings, n, s, fold, len)
  {
    if n == 0 then 1
    else
      var before := UniqueLen(c, siblings, n - 1, s, fold);
      var p := siblings[n - 1];
      var len := 1 + Common(Key(c.name, fold), Key(p.name, fold));
      if p != c && Visible(p, s) && len > before then len else before
  }

  /** What `unique_len` of a command should be. */
  function Shortest(c: Command, siblings: seq<Command>, s: Session): nat {
    if Visible(c, s) then UniqueLen(c, siblings, |siblings|, s, false) else |c.name|
  }

  // ----- the whole tree of commands -----

  /** The commands of a tree that is at most h levels deep. */
  ghost function Subtree(c: Command, h: nat): set<Command>
    decreases h, 1
  {
    {c} + if h == 0 then {} else Family(c.children, h - 1)
  }

  ghost function Family(siblings: seq<Command>, h: nat): set<Command>
    decreases h, 2, |siblings|
  {
    if siblings == [] then {} else Subtree(siblings[0], h) + Family(siblings[1..], h)
  }

  lemma {:induction false} InFamily(siblings: seq<Command>, h: nat, i: nat)
    requires i < |siblings|
    ensures Subtree(siblings[i], h) <= Family(siblings, h)
    decreases |siblings|
  {
    if i > 0 {
      InFamily(siblings[1..], h, i - 1);
    }
  }

  lemma {:induction false} SubtreeExists(c: Command, h: nat)
    ensures allocated(Subtree(c, h))
    decreases h, 1
  {
    if h > 0 {
      FamilyExists(c.children, h - 1);
    }
  }

  lemma {:induction false} FamilyExists(siblings: seq<Command>, h: nat)
    ensures allocated(Family(siblings, h))
    decreases h, 2, |siblings|
  {
    if siblings != [] {
      SubtreeExists(siblings[0], h);
      FamilyExists(siblings[1..], h);
    }
  }

  /** The commands form a forest: no command is in two places, and it is h levels deep at most. */
  ghost predicate Forest(siblings: seq<Command>, h: nat)
    decreases h
  {
    && (forall i, j :: 0 <= i < j < |siblings| ==> Subtree(siblings[i], h) !! Subtree(siblings[j], h))
    && (forall i :: 0 <= i < |siblings| ==>
          if h == 0 then siblings[i].children == []
          else siblings[i] !in Family(siblings[i].children, h - 1) && Forest(siblings[i].children, h - 1))
  }

  /** A command has its length, and so has everything below it if it is visible. */
  ghost predicate Done(c: Command, siblings: seq<Command>, h: nat, s: Session)
    reads Subtree(c, h)
    decreases h, 1
  {
    && c in Subtree(c, h)
    && c.uniqueLen == Shortest(c, siblings, s)
    && (Visible(c, s) && h > 0 ==> Built(c.children, h - 1, s))
  }

  ghost predicate Built(siblings: seq<Command>, h: nat, s: Session)
    reads Family(siblings, h)
    decreases h, 2
  {
    forall i :: 0 <= i < |siblings| ==>
      (InFamily(siblings, h, i); Done(siblings[i], siblings, h, s))
  }

  /** One turn of the outer loop, up to the recursion. */
  method SetUniqueLen(commands: seq<Command>, c: Command, s: Session)
    modifies c`uniqueLen
    ensures c.uniqueLen == Shortest(c, commands, s)
  {
    hide SomeShares, Common;
    c.uniqueLen := |c.name|;
    if !Visible(c, s) {
      return;
    }
    c.uniqueLen := 1;
    for k := 0 to |commands|
      invariant c.uniqueLen == UniqueLen(c, commands, k, s, false)
    {
      var p := commands[k];
      if c == p || !Visible(p, s) {
        continue;
      }
      var len := CommonLen(c.name, p.name);
      if len > c.uniqueLen {
        c.uniqueLen := len;
      }
    }
  }

  /** One turn of the outer loop. */
  method BuildOne(commands: seq<Command>, i: nat, s: Session, ghost h: nat)
    requires Forest(commands, h) && i < |commands|
    modifies Subtree(commands[i], h)`uniqueLen
    ensures Done(commands[i], commands, h, s)
    decreases h, 0
  {
    var c := commands[i];
    SetUniqueLen(commands, c, s);
    if Visible(c, s) && c.children != [] {
      CliBuildShortest(c.children, s, h - 1);
    }
  }

  /** `cli_build_shortest`: every command reached through visible ones gets its length. */
  method CliBuildShortest(commands: seq<Command>, s: Session, ghost h: nat)
    requires Forest(commands, h)
    modifies Family(commands, h)`uniqueLen
    ensures Built(commands, h, s)
    decreases h, 1
  {
    hide Done, Subtree, Family;
    for i := 0 to |commands|
      invariant forall j :: 0 <= j < i ==> Done(commands[j], commands, h, s)
    {
      InFamily(commands, h, i);
      forall j | 0 <= j < i
        ensures allocated(Subtree(commands[j], h)) && Subtree(commands[j], h) !! Subtree(commands[i], h)
      {
        SubtreeExists(commands[j], h);
      }
      BuildOne(commands, i, s, h);
    }
  }

  // ----- the two tests of cli_find_command -----

  function Take(s: string, n: nat): string {
    if n < |s| then s[..n] else s
  }

  /** `strncasecmp(a, b, n) == 0` */
  predicate SameUpTo(a: string, b: string, n: nat) {
    Fold(Take(a, n)) == Fold(Take(b, n))
  }

  predicate Passes(name: string, len: nat, word: string) {
    SameUpTo(name, word, len) && SameUpTo(name, word, |word|)
  }

  /** A word abbreviates a command: it is the full name, or a prefix of it and of no other visible sibling. */
  ghost predicate Means(word: string, c: Command, siblings: seq<Command>, s: Session) {
    || Fold(word) == Fold(c.name)
    || (&& Fold(word) <= Fold(c.name)
        && forall p :: p in siblings && p != c && Visible(p, s) ==> !(Fold(word) <= Fold(p.name)))
  }

  lemma PassesIff(name: string, len: nat, word: string)
    ensures Passes(name, len, word) <==>
      Fold(word) == Fold(name) || (Fold(word) <= Fold(name) && len <= |word|)
  {
    assert SameUpTo(name, word, |word|) <==> Fold(word) <= Fold(name) by {
      assert |word| <= |name| ==> Fold(name[..|word|]) == Fold(name)[..|word|];
    }
    if Fold(word) <= Fold(name) {
      assert Fold(name)[..|word|] == Fold(word);
      assert forall n :: 0 <= n <= |word| ==> Fold(name)[..n] == Fold(word)[..n];
      if len <= |word| {
        assert Fold(name[..len]) == Fold(name)[..len];
        assert Fold(word[..len]) == Fold(word)[..len];
      } else {
        assert |Fold(Take(word, len))| == |word|;
        assert |Fold(Take(name, len))| == if len < |name| then len else |name|;
      }
    }
  }

  /** A prefix of both names is no longer than what they share. */
  lemma PrefixOfBoth(word: string, a: string, b: string)
    requires Fold(word) <= Fold(a)
    ensures Fold(word) <= Fold(b) <==> |word| <= Common(Fold(a), Fold(b))
  {
    var n := Common(Fold(a), Fold(b));
    assert Fold(a)[..|word|] == Fold(word);
    if Fold(word) <= Fold(b) {
      CommonIs(Fold(a), Fold(b), |word|);
    }
    if |word| <= n {
      assert Fold(b)[..n][..|word|] == Fold(b)[..|word|];
      assert Fold(a)[..n][..|word|] == Fold(a)[..|word|];
    }
  }

  /** Being a prefix of no other sibling is being long enough. */
  lemma MeansIff(word: string, c: Command, siblings: seq<Command>, s: Session)
    requires word != ""
    ensures Means(word, c, siblings, s) <==>
      Fold(word) == Fold(c.name) ||
      (Fold(word) <= Fold(c.name) && UniqueLen(c, siblings, |siblings|, s, true) <= |word|)
  {
    if Fold(word) <= Fold(c.name) {
      var len := UniqueLen(c, siblings, |siblings|, s, true);
      forall i | 0 <= i < |siblings| && siblings[i] != c && Visible(siblings[i], s)
        ensures Fold(word) <= Fold(siblings[i].name) <==> |word| <= Common(Fold(c.name), Fold(siblings[i].name))
      {
        PrefixOfBoth(word, c.name, siblings[i].name);
      }
    }
  }

  lemma TestsAreRight(c: Command, siblings: seq<Command>, s: Session, len: nat, folded: nat, word: string)
    requires len <= folded == UniqueLen(c, siblings, |siblings|, s, true) && word != ""
    requires |c.name| <= len || len == folded
    ensures Passes(c.name, len, word) <==> Means(word, c, siblings, s)
  {
    hide UniqueLen, Passes, Means;
    PassesIff(c.name, len, word);
    MeansIff(word, c, siblings, s);
    assert Fold(word) <= Fold(c.name) && |c.name| <= |word| ==> Fold(word) == Fold(c.name);
  }

  lemma TestsAreWrong(c: Command, siblings: seq<Command>, s: Session, len: nat)
    requires 0 < len < |c.name| && len < UniqueLen(c, siblings, |siblings|, s, true)
    ensures Passes(c.name, len, c.name[..len]) && !Means(c.name[..len], c, siblings, s)
  {
    hide UniqueLen, Passes, Means;
    var word := c.name[..len];
    assert Fold(word) == Fold(c.name)[..len];
    PassesIff(c.name, len, word);
    MeansIff(word, c, siblings, s);
  }

  /** The tests accept exactly the unambiguous abbreviations if and only if what the command shares with others
      letter for letter, up to the whole name, is what it shares ignoring case. */
  lemma TestsAreRightIff(c: Command, siblings: seq<Command>, s: Session)
    ensures var len := UniqueLen(c, siblings, |siblings|, s, false);
      (forall word :: word != "" ==> (Passes(c.name, len, word) <==> Means(word, c, siblings, s))) <==>
      (|c.name| <= len || len == UniqueLen(c, siblings, |siblings|, s, true))
  {
    hide UniqueLen, Passes, Means;
    var len := UniqueLen(c, siblings, |siblings|, s, false);
    var folded := UniqueLen(c, siblings, |siblings|, s, true);
    FoldedIsLonger(c, siblings, |siblings|, s);
    if |c.name| <= len || len == folded {
      forall word | word != ""
        ensures Passes(c.name, len, word) <==> Means(word, c, siblings, s)
      {
        TestsAreRight(c, siblings, s, len, folded, word);
      }
    } else {
      TestsAreWrong(c, siblings, s, len);
      assert c.name[..len] != "";
    }
  }

  lemma {:induction false} FoldedIsLonger(c: Command, siblings: seq<Command>, n: nat, s: Session)
    requires n <= |siblings|
    ensures UniqueLen(c, siblings, n, s, false) <= UniqueLen(c, siblings, n, s, true)
  {
    if n > 0 {
      FoldedIsLonger(c, siblings, n - 1, s);
      var a, b := c.name, siblings[n - 1].name;
      var k := Common(a, b);
      assert Fold(a)[..k] == Fold(b)[..k];
      CommonIs(Fold(a), Fold(b), k);
    }
  }

  /** What the visible siblings of a command share with it letter for letter is what they share ignoring case. */
  ghost predicate AgreeInCase(c: Command, siblings: seq<Command>, s: Session) {
    forall p :: p in siblings && p != c && Visible(p, s) ==>
      Common(c.name, p.name) == Common(Fold(c.name), Fold(p.name))
  }

  lemma {:induction false} AgreedLength(c: Command, siblings: seq<Command>, n: nat, s: Session)
    requires n <= |siblings| && AgreeInCase(c, siblings, s)
    ensures UniqueLen(c, siblings, n, s, false) == UniqueLen(c, siblings, n, s, true)
  {
    if n > 0 {
      AgreedLength(c, siblings, n - 1, s);
      assert siblings[n - 1] in siblings;
    }
  }

  /** On a tree of commands that has its lengths, a visible command is accepted for exactly the words that mean it. */
  lemma BuiltTestsAreRight(siblings: seq<Command>, h: nat, s: Session, c: Command, word: string)
    requires Built(siblings, h, s) && c in siblings && Visible(c, s) && AgreeInCase(c, siblings, s)
    requires word != ""
    ensures Passes(c.name, c.uniqueLen, word) <==> Means(word, c, siblings, s)
  {
    var i :| 0 <= i < |siblings| && siblings[i] == c;
    InFamily(siblings, h, i);
    assert Done(siblings[i], siblings, h, s);
    AgreedLength(c, siblings, |siblings|, s);
    TestsAreRightIff(c, siblings, s);
  }

  /** No word means two commands, if their names differ by more than case. */
  lemma NoWordMeansTwo(siblings: seq<Command>, s: Session, c: Command, p: Command, word: string)
    requires c in siblings && p in siblings && Visible(c, s) && Visible(p, s)
    requires c != p ==> Fold(c.name) != Fold(p.name)
    requires Means(word, c, siblings, s) && Means(word, p, siblings, s)
    ensures c == p
  {
  }

  /** Without agreement in case one word can be accepted for two commands. */
  lemma CaseCanConfuse(c: Command, p: Command, s: Session)
    requires c.name == "Show" && p.name == "shut" && Visible(c, s) && Visible(p, s)
    ensures Passes(c.name, Shortest(c, [c, p], s), "s") && Passes(p.name, Shortest(p, [c, p], s), "s")
  {
    assert Shortest(c, [c, p], s) == 1 && Shortest(p, [c, p], s) == 1 by {
      assert UniqueLen(c, [c, p], 1, s, false) == 1 && UniqueLen(p, [c, p], 1, s, false) == 1;
    }
    assert Fold("s") == "s" && Fold("S") == "s";
  }

  // ----- choosing among the siblings -----

  predicate Accepts(c: Command, word: string, s: Session)
    reads c
  {
    c.privilege <= s.privilege && Passes(c.name, c.uniqueLen, word)
  }

  /** A command that can run in the session's mode, or after dropping out of a config submode. */
  predicate Candidate(c: Command, word: string, s: Session)
    reads c
  {
    && Accepts(c, word, s)
    && (c.mode == MODE_ANY || c.mode == s.mode || (s.mode > MODE_CONFIG && c.mode == MODE_CONFIG))
  }

  /** No other command is a candidate, save one that is not visible beside one in the session's own mode. */
  ghost predicate OnlyChoice(c: Command, commands: seq<Command>, word: string, s: Session)
    reads c, commands
  {
    && Candidate(c, word, s)
    && forall p :: p in commands && Candidate(p, word, s) ==> p == c || (c.mode == s.mode && !Visible(p, s))
  }

  /** The word is the full name of a configuration command that the session may run by dropping out of its
      submode. */
  ghost predicate NamesHidden(siblings: seq<Command>, word: string, s: Session) {
    s.mode > MODE_CONFIG &&
    exists p :: p in siblings && p.mode == MODE_CONFIG && p.privilege <= s.privilege && Fold(word) == Fold(p.name)
  }

  /** A word that means a visible command leaves no other choice exactly when the command is one of the session's
      own mode, or the word does not name a hidden configuration command in full. */
  lemma MeantIsOnlyChoice(siblings: seq<Command>, h: nat, s: Session, c: Command, word: string)
    requires Built(siblings, h, s) && c in siblings && Visible(c, s) && word != "" && Means(word, c, siblings, s)
    requires forall p :: p in siblings && Visible(p, s) ==> AgreeInCase(p, siblings, s)
    requires forall p, q :: p in siblings && q in siblings && p != q ==> Fold(p.name) != Fold(q.name)
    ensures OnlyChoice(c, siblings, word, s) <==> c.mode == s.mode || !NamesHidden(siblings, word, s)
  {
    BuiltTestsAreRight(siblings, h, s, c, word);
    forall p | p in siblings && Candidate(p, word, s)
      ensures Visible(p, s) ==> p == c
      ensures !Visible(p, s) ==> p.mode == MODE_CONFIG && NamesHidden(siblings, word, s)
    {
      if Visible(p, s) {
        BuiltTestsAreRight(siblings, h, s, p, word);
        NoWordMeansTwo(siblings, s, c, p, word);
      } else {
        HiddenNeedsFullName(siblings, h, s, p, word);
      }
    }
    if NamesHidden(siblings, word, s) {
      var p :| p in siblings && p.mode == MODE_CONFIG && p.privilege <= s.privilege && Fold(word) == Fold(p.name);
      FullNamePasses(siblings, h, s, p, word);
      assert Candidate(p, word, s) && !Visible(p, s);
    }
  }

  lemma FullNamePasses(siblings: seq<Command>, h: nat, s: Session, p: Command, word: string)
    requires Built(siblings, h, s) && p in siblings && Fold(word) == Fold(p.name)
    ensures Passes(p.name, p.uniqueLen, word)
  {
    var i :| 0 <= i < |siblings| && siblings[i] == p;
    InFamily(siblings, h, i);
    assert Done(siblings[i], siblings, h, s);
    PassesIff(p.name, p.uniqueLen, word);
  }

  lemma HiddenNeedsFullName(siblings: seq<Command>, h: nat, s: Session, p: Command, word: string)
    requires Built(siblings, h, s) && p in siblings && !Visible(p, s) && Passes(p.name, p.uniqueLen, word)
    ensures Fold(word) == Fold(p.name)
  {
    var i :| 0 <= i < |siblings| && siblings[i] == p;
    InFamily(siblings, h, i);
    assert Done(siblings[i], siblings, h, s);
    PassesIff(p.name, p.uniqueLen, word);
    assert |Fold(word)| == |word| && |Fold(p.name)| == |p.name|;
  }

  /** How a word is dealt with: by a command, by none, by help, or not before a look at the character in front
      of an empty word. */
  datatype Choice = Chosen(command: Command) | NoCommand | Help | Stray

  /** The search ends at a candidate of the session's own mode, or at the second one for any mode. */
  ghost predicate Settles(commands: seq<Command>, k: nat, word: string, s: Session)
    requires k < |commands|
    reads commands
  {
    && Candidate(commands[k], word, s)
    && (|| commands[k].mode == s.mode
        || (commands[k].mode == -1 &&
            exists j :: 0 <= j < k && Candidate(commands[j], word, s) && commands[j].mode == -1))
  }

  /** The last candidate of the configuration mode */
  ghost predicate LastOfConfig(commands: seq<Command>, k: nat, word: string, s: Session)
    requires k < |commands|
    reads commands
  {
    && Candidate(commands[k], word, s) && commands[k].mode == 1
    && forall j :: k < j < |commands| && Candidate(commands[j], word, s) ==> commands[j].mode != 1
  }

  /** What the search comes to: the first command that settles it; if there is none, the last candidate of the
      configuration mode; if there is none, any candidate. */
  ghost predicate IsChoice(commands: seq<Command>, k: nat, word: string, s: Session)
    requires k < |commands|
    reads commands
  {
    if exists j :: 0 <= j < |commands| && Settles(commands, j, word, s) then
      Settles(commands, k, word, s) && forall j :: 0 <= j < k ==> !Settles(commands, j, word, s)
    else if exists j :: 0 <= j < |commands| && LastOfConfig(commands, j, word, s) then
      LastOfConfig(commands, k, word, s)
    else Candidate(commands[k], word, s)
  }

  /** The loop of `cli_find_command` and the second choices after it, down to the command that is chosen. */
  method CliFindCommand(commands: seq<Command>, s: Session, word: string) returns (r: Choice)
    ensures r.Stray? <==> word == ""
    ensures r.Help? <==> word != "" && word[|word| - 1] == '?'
    ensures r.NoCommand? <==> !r.Stray? && !r.Help? && forall c :: c in commands ==> !Candidate(c, word, s)
    ensures r.Chosen? ==> exists k :: 0 <= k < |commands| && r.command == commands[k] && IsChoice(commands, k, word, s)
  {
    hide Settles, SameUpTo, IsChoice, Passed;
    if word == "" {
      return Stray;
    }
    if word[|word| - 1] == '?' {
      return Help;
    }
    var againConfig: Command?, againAny: Command? := null, null;
    ghost var config, any: int := -1, -1;
    NothingPassed(commands, word, s);
    for i := 0 to |commands|
      invariant -1 <= config < i && -1 <= any < i
      invariant againConfig == (if config < 0 then null else commands[config])
      invariant againAny == (if any < 0 then null else commands[any])
      invariant Passed(commands, i, config, any, word, s)
    {
      var c := commands[i];
      assert Candidate(c, word, s) ==> Accepts(c, word, s);
      if s.privilege < c.privilege {
        PassOver(commands, i, config, any, word, s);
        continue;
      }
      if !SameUpTo(c.name, word, c.uniqueLen) {
        PassOver(commands, i, config, any, word, s);
        continue;
      }
      if !SameUpTo(c.name, word, |word|) {
        PassOver(commands, i, config, any, word, s);
        continue;
      }
      if c.mode == s.mode || (c.mode == MODE_ANY && againAny != null) {
        SettledAt(commands, i, config, any, word, s);
        return Chosen(c);
      } else if s.mode > MODE_CONFIG && c.mode == MODE_CONFIG {
        PassConfig(commands, i, config, any, word, s);
        againConfig, config := c, i;
      } else if c.mode == MODE_ANY {
        PassAny(commands, i, config, any, word, s);
        againAny, any := c, i;
      } else {
        PassOver(commands, i, config, any, word, s);
      }
    }
    NoneSettled(commands, config, any, word, s);
    return if againConfig != null then Chosen(againConfig)
           else if againAny != null then Chosen(againAny)
           else NoCommand;
  }

  // ----- the search, command by command -----

  /** After the first n commands: none settled the search; the candidates among them are of the configuration mode, the
      last one at `config`, and at most one, at `any`, for any mode. */
  ghost predicate Passed(commands: seq<Command>, n: nat, config: int, any: int, word: string, s: Session)
    requires n <= |commands| && -1 <= config < n && -1 <= any < n
    reads commands
  {
    && (forall k :: 0 <= k < n ==> !Settles(commands, k, word, s))
    && (config >= 0 ==> Candidate(commands[config], word, s) && commands[config].mode == 1)
    && (any >= 0 ==> Candidate(commands[any], word, s) && commands[any].mode == -1)
    && (forall k :: 0 <= k < n && Candidate(commands[k], word, s) ==>
          (commands[k].mode == -1 && k == any) || (commands[k].mode == 1 && k <= config))
  }

  lemma NothingPassed(commands: seq<Command>, word: string, s: Session)
    ensures Passed(commands, 0, -1, -1, word, s)
  {
  }

  lemma PassOver(commands: seq<Command>, i: nat, config: int, any: int, word: string, s: Session)
    requires i < |commands| && -1 <= config < i && -1 <= any < i && Passed(commands, i, config, any, word, s)
    requires !Candidate(commands[i], word, s)
    ensures Passed(commands, i + 1, config, any, word, s)
  {
    hide Candidate;
  }

  lemma PassConfig(commands: seq<Command>, i: nat, config: int, any: int, word: string, s: Session)
    requires i < |commands| && -1 <= config < i && -1 <= any < i && Passed(commands, i, config, any, word, s)
    requires Candidate(commands[i], word, s) && commands[i].mode == 1 && commands[i].mode != s.mode
    ensures Passed(commands, i + 1, i, any, word, s)
  {
    hide Candidate;
  }

  lemma PassAny(commands: seq<Command>, i: nat, config: int, any: int, word: string, s: Session)
    requires i < |commands| && -1 <= config < i && any == -1 && Passed(commands, i, config, any, word, s)
    requires Candidate(commands[i], word, s) && commands[i].mode == -1 && commands[i].mode != s.mode
    ensures Passed(commands, i + 1, config, i, word, s)
  {
    hide Candidate;
  }

  lemma SettledAt(commands: seq<Command>, i: nat, config: int, any: int, word: string, s: Session)
    requires i < |commands| && -1 <= config < i && -1 <= any < i && Passed(commands, i, config, any, word, s)
    requires Candidate(commands[i], word, s)
    requires commands[i].mode == s.mode || (commands[i].mode == -1 && any >= 0)
    ensures IsChoice(commands, i, word, s)
  {
    hide Candidate;
    assert Settles(commands, i, word, s);
  }

  lemma NoneSettled(commands: seq<Command>, config: int, any: int, word: string, s: Session)
    requires -1 <= config < |commands| && -1 <= any < |commands|
    requires Passed(commands, |commands|, config, any, word, s)
    ensures config >= 0 ==> IsChoice(commands, config, word, s)
    ensures config < 0 <= any ==> IsChoice(commands, any, word, s)
    ensures config < 0 && any < 0 ==> forall c :: c in commands ==> !Candidate(c, word, s)
    ensures config >= 0 || any >= 0 ==> exists c :: c in commands && Candidate(c, word, s)
  {
    hide Candidate;
    if config >= 0 {
      assert LastOfConfig(commands, config, word, s);
      assert commands[config] in commands;
    } else if any >= 0 {
      assert commands[any] in commands;
    }
  }

  /** An only choice is what the search comes to. */
  lemma OnlyChoiceIsChoice(commands: seq<Command>, k: nat, c: Command, word: string, s: Session)
    requires k < |commands| && IsChoice(commands, k, word, s) && c in commands && OnlyChoice(c, commands, word, s)
    ensures commands[k] == c
  {
    var i :| 0 <= i < |commands| && commands[i] == c;
    assert c.mode == s.mode ==> Settles(commands, i, word, s);
    assert commands[k] in commands;
    hide Accepts;
  }

  lemma HiddenIsNamed(c: Command, p: Command, s: Session)
    requires c.name == "showall" && c.mode == MODE_ANY && c.privilege <= s.privilege
    requires p.name == "show" && p.mode == MODE_CONFIG < s.mode && p.privilege <= s.privilege
    requires Built([c, p], 0, s)
    ensures Means("show", c, [c, p], s) && !OnlyChoice(c, [c, p], "show", s)
    ensures Candidate(p, "show", s) && forall k :: 0 <= k < 2 && IsChoice([c, p], k, "show", s) ==> k == 1
  {
    var siblings := [c, p];
    assert p == siblings[1] && c == siblings[0] && !Visible(p, s) && Visible(c, s);
    assert Fold("show") <= Fold("showall") by {
      assert Fold("showall")[..4] == Fold("show");
    }
    hide Fold, Built, Passes;
    assert Means("show", c, siblings, s);
    FullNamePasses(siblings, 0, s, p, "show");
    assert Candidate(p, "show", s);
    assert forall q :: q in siblings ==> q == c || q == p;
    assert LastOfConfig(siblings, 1, "show", s);
  }

  lemma TwoCommands(c: Command, p: Command)
    requires c != p && c.children == [] && p.children == []
    ensures Family([c, p], 0) == {c, p} && Forest([c, p], 0)
  {
    assert [c, p][1..] == [p] && [p][1..] == [];
    assert Family([p], 0) == Subtree(p, 0) + Family([], 0);
    assert Family([c, p], 0) == Subtree(c, 0) + Family([p], 0);
  }

  method BuildTwo(c: Command, p: Command, s: Session)
    requires c != p && c.children == [] && p.children == []
    modifies c`uniqueLen, p`uniqueLen
    ensures Built([c, p], 0, s)
  {
    TwoCommands(c, p);
    hide Forest, Family, Built;
    CliBuildShortest([c, p], s, 0);
  }

  /** In a submode of the configuration the word `show` means the command `showall` for any mode, and runs the
      hidden command `show` of the configuration mode. */
  method HiddenTakesOver(s: Session) returns (c: Command, p: Command, r: Choice)
    requires s.mode > 1 && s.privilege >= 0
    ensures c.name == "showall" && c.mode == -1 && Visible(c, s)
    ensures p.name == "show" && p.mode == 1
    ensures Built([c, p], 0, s) && Means("show", c, [c, p], s) && !OnlyChoice(c, [c, p], "show", s)
    ensures r == Chosen(p)
  {
    hide Built, Candidate, Means, OnlyChoice, IsChoice, Fold;
    c := new Command("showall", MODE_ANY, 0, []);
    p := new Command("show", MODE_CONFIG, 0, []);
    BuildTwo(c, p, s);
    FamilyExists([c, p], 0);
    HiddenIsNamed(c, p, s);
    assert p in [c, p];
    r := CliFindCommand([c, p], s, "show");
    HiddenIsNamed(c, p, s);
  }
}
