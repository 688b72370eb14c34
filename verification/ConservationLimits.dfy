/** Where the provisioning steps miss what their callers may expect: the exact conditions, and runs from the
    empty database that fail them. Source: src/g1_fmt.c. */
module ConservationLimits {
  import opened Counts
  import opened Options
  import opened TokenRanges
  import opened Provision
  import opened Conservation

  // ----- add_g1_token returns a token that may be gone -----

  /** When the insertion succeeded, `add_g1_token` returns the token; it is in the format exactly when its
      arguments can be counted. */
  lemma ReturnedTokenIsThere(db: Db, p: nat, key: nat, t: Token, kind: nat)
    requires p != 0 && t.topic != 0 && t.len != 0 && HasFmt(db, p, key)
    requires Insert(db.pdts[p].fmts[key].tokens, db.pdts[p].fmts[key].size, t, 0).Some?
    ensures HasFmt(AddToken(db, p, key, t, kind), p, key)
    ensures var was, now := db.pdts[p].fmts[key].tokens, AddToken(db, p, key, t, kind).pdts[p].fmts[key].tokens;
      && Count(now, t.topic) == Count(was, t.topic) + One(AttrArgs(t.topic, kind, t.len))
      && (!HasTopic(was, t.topic) ==> (HasTopic(now, t.topic) <==> AttrArgs(t.topic, kind, t.len)))
  {
    var fmt := db.pdts[p].fmts[key];
    var tokens := Insert(fmt.tokens, fmt.size, t, 0).value;
    InsertCounts(fmt.tokens, fmt.size, t, 0, t.topic);
    DeleteUndoesInsert(fmt.tokens, fmt.size, t, 0);
    CountIsTopic(fmt.tokens, t.topic);
    CountIsTopic(tokens, t.topic);
    var db1 := SetTokens(db, p, key, tokens);
    assert db1.pdts[p].fmts[key].tokens == tokens;
  }

  lemma {:induction false} CountIsTopic(tokens: seq<Token>, topic: nat)
    ensures Count(tokens, topic) > 0 <==> HasTopic(tokens, topic)
    decreases |tokens|
  {
    if tokens != [] {
      CountIsTopic(tokens[1..], topic);
      assert HasTopic(tokens, topic) <==> tokens[0].topic == topic || HasTopic(tokens[1..], topic) by {
        assert forall i :: 0 < i < |tokens| ==> tokens[i] == tokens[1..][i - 1];
      }
    }
  }

  const TOKEN := Token(5, 0, 2)

  /** One product with one format of eight bytes. */
  const ONE_FORMAT: seq<Step> := [StepAddPdt(1), StepAddFmt(1, 1, 8)]

  lemma OneFormat()
    ensures LegalRun(EMPTY, ONE_FORMAT)
    ensures Run(EMPTY, ONE_FORMAT) == Db(map[1 := Pdt(map[], map[1 := Fmt(8, [])])], map[])
  {
    var db := AddPdt(EMPTY, 1);
    assert ONE_FORMAT[1..] == [StepAddFmt(1, 1, 8)];
    assert Run(db, [StepAddFmt(1, 1, 8)]) == AddFmt(db, 1, 1, 8);
  }

  /** A token of a kind that is none is returned, and is gone. */
  lemma ReturnedTokenIsGone()
    ensures var db := Run(EMPTY, ONE_FORMAT);
      && LegalRun(EMPTY, ONE_FORMAT) && HasFmt(db, 1, 1)
      && Insert(db.pdts[1].fmts[1].tokens, 8, TOKEN, 0) == Some([TOKEN])
      && AddToken(db, 1, 1, TOKEN, EDGE_ATTR_BUTT) == db
  {
    OneFormat();
    var db := Run(EMPTY, ONE_FORMAT);
    RefusedTokenIsUndone(db, 1, 1, TOKEN, [TOKEN]);
  }

  // ----- add_g1_token may put a topic in twice -----

  /** No format has two tokens with one topic. */
  ghost predicate TopicsDistinct(db: Db) {
    forall p, k :: HasFmt(db, p, k) ==> Distinct(db.pdts[p].fmts[k].tokens)
  }

  /** A token that can be counted is added where it overtakes the one that has its topic. */
  predicate Duplicates(db: Db, step: Step) {
    match step
    case StepAddToken(p, key, t, kind) =>
      && p != 0 && HasFmt(db, p, key) && AttrArgs(t.topic, kind, t.len)
      && Overtakes(db.pdts[p].fmts[key].tokens, db.pdts[p].fmts[key].size, t)
    case _ => false
  }

  lemma AddTokenKeepsTopics(db: Db, p: nat, key: nat, t: Token, kind: nat)
    requires RangesHold(db) && t.offset + t.len < WORD && TopicsDistinct(db)
    ensures TopicsDistinct(AddToken(db, p, key, t, kind)) <==> !Duplicates(db, StepAddToken(p, key, t, kind))
  {
    if p != 0 && t.topic != 0 && t.len != 0 && HasFmt(db, p, key) {
      var fmt := db.pdts[p].fmts[key];
      InsertKeepsDistinct(fmt.tokens, fmt.size, t);
      var inserted := Insert(fmt.tokens, fmt.size, t, 0);
      hide Insert, Overtakes, Distinct;
      if inserted.Some? {
        var db' := AddToken(db, p, key, t, kind);
        if AttrArgs(t.topic, kind, t.len) {
          assert HasFmt(db', p, key) && db'.pdts[p].fmts[key].tokens == inserted.value;
        } else {
          RefusedTokenIsUndone(db, p, key, t, inserted.value);
        }
      }
    }
  }

  lemma DelFmtKeepsTopics(db: Db, p: nat, key: nat)
    requires TopicsDistinct(db)
    ensures TopicsDistinct(DelFmt(db, p, key))
  {
    hide Distinct;
    if HasFmt(db, p, key) {
      ReleaseKeeps(db, p, db.pdts[p].fmts[key].tokens);
    }
  }

  lemma {:induction false} DelFmtsKeepTopics(db: Db, p: nat, order: seq<nat>)
    requires TopicsDistinct(db)
    ensures TopicsDistinct(DelFmts(db, p, order))
    decreases |order|
  {
    if order != [] {
      DelFmtKeepsTopics(db, p, order[0]);
      hide TopicsDistinct, DelFmt;
      DelFmtsKeepTopics(DelFmt(db, p, order[0]), p, order[1..]);
    }
  }

  lemma DelTokenKeepsTopics(db: Db, p: nat, key: nat, topic: nat)
    requires TopicsDistinct(db)
    ensures TopicsDistinct(DelToken(db, p, key, topic))
  {
    if HasFmt(db, p, key) {
      DeleteKeepsDistinct(db.pdts[p].fmts[key].tokens, topic);
    }
    hide Distinct, Delete;
  }

  /** A step keeps topics distinct exactly when it is no such addition. */
  lemma StepKeepsTopics(db: Db, step: Step)
    requires RangesHold(db) && FitsWords(step) && TopicsDistinct(db)
    ensures TopicsDistinct(Apply(db, step)) <==> !Duplicates(db, step)
  {
    match step
    case StepDelPdt(p, order) => DelFmtsKeepTopics(db, p, order);
    case StepDelFmt(p, key) => DelFmtKeepsTopics(db, p, key);
    case StepAddToken(p, key, t, kind) => AddTokenKeepsTopics(db, p, key, t, kind);
    case StepDelToken(p, key, topic) => DelTokenKeepsTopics(db, p, key, topic);
    case _ =>
  }

  /** Topics are distinct in every state of a run. */
  ghost predicate AlwaysDistinct(db: Db, steps: seq<Step>)
    decreases |steps|
  {
    TopicsDistinct(db) && (steps != [] ==> AlwaysDistinct(Apply(db, steps[0]), steps[1..]))
  }

  /** No step of a run puts a topic in twice. */
  predicate NoneDuplicates(db: Db, steps: seq<Step>)
    decreases |steps|
  {
    steps != [] ==> !Duplicates(db, steps[0]) && NoneDuplicates(Apply(db, steps[0]), steps[1..])
  }

  /** Over every run whose sizes and range ends are machine words, topics stay distinct exactly when no step
      adds a token that overtakes the one with its topic. */
  lemma {:induction false} TopicsDistinctIff(db: Db, steps: seq<Step>)
    requires RangesHold(db) && TopicsDistinct(db) && forall i :: 0 <= i < |steps| ==> FitsWords(steps[i])
    ensures AlwaysDistinct(db, steps) <==> NoneDuplicates(db, steps)
    decreases |steps|
  {
    if steps != [] {
      StepKeepsRanges(db, steps[0]);
      StepKeepsTopics(db, steps[0]);
      hide RangesHold, FitsWords, TopicsDistinct, Duplicates, Apply;
      var db' := Apply(db, steps[0]);
      if TopicsDistinct(db') {
        TopicsDistinctIff(db', steps[1..]);
      } else {
        assert !AlwaysDistinct(db', steps[1..]);
      }
    }
  }

  lemma {:induction false} LastIsDistinct(db: Db, steps: seq<Step>)
    requires AlwaysDistinct(db, steps)
    ensures TopicsDistinct(Run(db, steps))
    decreases |steps|
  {
    if steps != [] {
      LastIsDistinct(Apply(db, steps[0]), steps[1..]);
    }
  }

  /** The format of sixteen bytes in the runs below holds these tokens. */
  predicate Holding(db: Db, tokens: seq<Token>) {
    HasFmt(db, 1, 1) && db.pdts[1].fmts[1] == Fmt(16, tokens)
  }

  lemma TokenAdded(db: Db, tokens: seq<Token>, t: Token)
    requires Holding(db, tokens) && AttrArgs(t.topic, 0, t.len) && Insert(tokens, 16, t, 0).Some?
    ensures Holding(AddToken(db, 1, 1, t, 0), Insert(tokens, 16, t, 0).value)
  {
    hide Insert;
  }

  function AddedAtOne(t: Token): Step {
    StepAddToken(1, 1, t, 0)
  }

  /** One product with one format of sixteen bytes, and three tokens: the last one overtakes the second. */
  const TOKENS: seq<Step> := [AddedAtOne(Token(2, 4, 2)), AddedAtOne(Token(1, 8, 2)), AddedAtOne(Token(1, 0, 2))]
  const TWICE: seq<Step> := [StepAddPdt(1), StepAddFmt(1, 1, 16)] + TOKENS

  /** A run after which a format has one topic twice, although every step was legal. */
  lemma TopicCanBeThereTwice()
    ensures LegalRun(EMPTY, TWICE) && Holding(Run(EMPTY, TWICE), [Token(1, 0, 2), Token(2, 4, 2), Token(1, 8, 2)])
    ensures !AlwaysDistinct(EMPTY, TWICE) && !NoneDuplicates(EMPTY, TWICE)
  {
    TwiceRuns();
    var tokens := [Token(1, 0, 2), Token(2, 4, 2), Token(1, 8, 2)];
    assert !Distinct(tokens) by {
      assert tokens[0].topic == tokens[2].topic;
    }
    hide Run, Distinct, NoneDuplicates, AlwaysDistinct;
    if AlwaysDistinct(EMPTY, TWICE) {
      LastIsDistinct(EMPTY, TWICE);
    }
    TopicsDistinctIff(EMPTY, TWICE);
  }

  lemma TwiceRuns()
    ensures LegalRun(EMPTY, TWICE) && Holding(Run(EMPTY, TWICE), [Token(1, 0, 2), Token(2, 4, 2), Token(1, 8, 2)])
  {
    var db := AddFmt(AddPdt(EMPTY, 1), 1, 1, 16);
    assert Holding(db, []);
    ThreeTokens(db);
    assert TWICE[1..] == [StepAddFmt(1, 1, 16)] + TOKENS && TWICE[1..][1..] == TOKENS;
    hide AddToken, Holding;
    assert Run(EMPTY, TWICE) == Run(AddPdt(EMPTY, 1), TWICE[1..]);
    assert Run(AddPdt(EMPTY, 1), TWICE[1..]) == Run(db, TOKENS);
  }

  lemma ThreeTokens(db: Db)
    requires Holding(db, [])
    ensures LegalRun(db, TOKENS) && Holding(Run(db, TOKENS), [Token(1, 0, 2), Token(2, 4, 2), Token(1, 8, 2)])
  {
    var a, b, c := Token(2, 4, 2), Token(1, 8, 2), Token(1, 0, 2);
    assert [a][1..] == [] && [a] + [b] == [a, b] && [c] + [a, b] == [c, a, b];
    assert Insert([a], 16, b, 0) == Some([a, b]) && Insert([a, b], 16, c, 0) == Some([c, a, b]);
    TokenAdded(db, [], a);
    var db1 := AddToken(db, 1, 1, a, 0);
    TokenAdded(db1, [a], b);
    var db2 := AddToken(db1, 1, 1, b, 0);
    TokenAdded(db2, [a, b], c);
    hide AddToken, Holding, Insert;
    assert TOKENS[1..] == [AddedAtOne(b), AddedAtOne(c)] && TOKENS[1..][1..] == [AddedAtOne(c)];
    assert Run(db, TOKENS) == Run(db1, TOKENS[1..]) == Run(db2, [AddedAtOne(c)]);
  }

  // ----- add_g1_fmt on a key that is there, del_g1_token through another format -----

  lemma {:induction false} RunAppends(db: Db, steps: seq<Step>, last: Step)
    ensures Run(db, steps + [last]) == Apply(Run(db, steps), last)
    ensures LegalRun(db, steps + [last]) <==> LegalRun(db, steps) && Legal(Run(db, steps), last)
    decreases |steps|
  {
    var all := steps + [last];
    if steps == [] {
      assert all == [last] && all[1..] == [];
    } else {
      assert all[0] == steps[0] && all[1..] == steps[1..] + [last];
      RunAppends(Apply(db, steps[0]), steps[1..], last);
    }
  }

  const ADD_TOKEN := StepAddToken(1, 1, TOKEN, 0)

  lemma OneToken()
    ensures LegalRun(EMPTY, ONE_FORMAT + [ADD_TOKEN])
    ensures Run(EMPTY, ONE_FORMAT + [ADD_TOKEN]) ==
      Db(map[1 := Pdt(map[5 := 1], map[1 := Fmt(8, [TOKEN])])], map[5 := Attr(0, 2, 1)])
  {
    OneFormat();
    RunAppends(EMPTY, ONE_FORMAT, ADD_TOKEN);
    var db := Run(EMPTY, ONE_FORMAT);
    assert Insert([], 8, TOKEN, 0) == Some([TOKEN]);
    var db1 := SetTokens(db, 1, 1, [TOKEN]);
    assert db1.pdts[1].fmts == map[1 := Fmt(8, [TOKEN])];
    assert db1.pdts == map[1 := Pdt(map[], map[1 := Fmt(8, [TOKEN])])];
    assert AddToken(db, 1, 1, TOKEN, 0) == AddPdtAttr(db1, 1, 5, 0, 2);
    var db2 := AddPdtAttr(db1, 1, 5, 0, 2);
    assert db2.pdts[1].attrs == map[5 := 1] && db2.attrs == map[5 := Attr(0, 2, 1)];
    assert db2.pdts == map[1 := Pdt(map[5 := 1], map[1 := Fmt(8, [TOKEN])])];
  }

  /** A format key added again after a token: the run up to there is legal, and the counts are lost. */
  lemma FormatAddedTwice()
    ensures var steps := ONE_FORMAT + [ADD_TOKEN];
      && LegalRun(EMPTY, steps) && Conserved(Run(EMPTY, steps))
      && !Conserved(Run(EMPTY, steps + [StepAddFmt(1, 1, 8)]))
  {
    var steps := ONE_FORMAT + [ADD_TOKEN];
    OneToken();
    ReferenceConservation(steps);
    RunAppends(EMPTY, steps, StepAddFmt(1, 1, 8));
    AddFmtConserves(Run(EMPTY, steps), 1, 1, 8);
  }

  /** A topic deleted through a format that does not hold it: the counts are lost. */
  lemma TokenDeletedElsewhere()
    ensures var steps := ONE_FORMAT + [ADD_TOKEN] + [StepAddFmt(1, 2, 8)];
      && LegalRun(EMPTY, steps) && Conserved(Run(EMPTY, steps))
      && !Conserved(Run(EMPTY, steps + [StepDelToken(1, 2, 5)]))
  {
    var steps := ONE_FORMAT + [ADD_TOKEN] + [StepAddFmt(1, 2, 8)];
    OneToken();
    RunAppends(EMPTY, ONE_FORMAT + [ADD_TOKEN], StepAddFmt(1, 2, 8));
    ReferenceConservation(steps);
    RunAppends(EMPTY, steps, StepDelToken(1, 2, 5));
    DelTokenConserves(Run(EMPTY, steps), 1, 2, 5);
  }
}
