/** The type and the length of an attribute over the steps of the provisioning database: the token that brings a topic
    in decides them, and nothing changes them while the topic stays.
    Source: src/attr.c, src/pdt.c, src/g1_fmt.c. */
module AttrHistory {
  import opened TokenRanges
  import opened Provision
  import opened Conservation

  // ----- deletions -----

  /** Only topics that were there are left, with their types and lengths. */
  predicate OnlyLess(before: map<nat, Attr>, after: map<nat, Attr>) {
    forall t :: t in after ==> t in before && after[t].kind == before[t].kind && after[t].len == before[t].len
  }

  lemma {:induction false} ReleaseOnlyLess(db: Db, p: nat, tokens: seq<Token>)
    requires p in db.pdts
    ensures OnlyLess(db.attrs, Release(db, p, tokens).attrs)
    decreases |tokens|
  {
    if tokens != [] {
      var db1 := DelPdtAttr(db, p, tokens[0].topic);
      assert OnlyLess(db.attrs, db1.attrs);
      ReleaseOnlyLess(db1, p, tokens[1..]);
    }
  }

  lemma DelFmtOnlyLess(db: Db, p: nat, key: nat)
    ensures OnlyLess(db.attrs, DelFmt(db, p, key).attrs)
  {
    hide Release;
    if HasFmt(db, p, key) {
      ReleaseOnlyLess(db, p, db.pdts[p].fmts[key].tokens);
      ReleaseKeeps(db, p, db.pdts[p].fmts[key].tokens);
    }
  }

  lemma {:induction false} DelFmtsOnlyLess(db: Db, p: nat, order: seq<nat>)
    ensures OnlyLess(db.attrs, DelFmts(db, p, order).attrs)
    decreases |order|
  {
    if order != [] {
      DelFmtOnlyLess(db, p, order[0]);
      hide DelFmt;
      DelFmtsOnlyLess(DelFmt(db, p, order[0]), p, order[1..]);
    }
  }

  // ----- steps -----

  /** The step adds a token that can be counted and finds its place. */
  predicate Adds(db: Db, step: Step) {
    match step
    case StepAddToken(p, key, t, kind) =>
      && p != 0 && t.topic != 0 && t.len != 0 && (kind == 0 || kind == 1) && HasFmt(db, p, key)
      && Insert(db.pdts[p].fmts[key].tokens, db.pdts[p].fmts[key].size, t, 0).Some?
    case _ => false
  }

  /** No step changes the type or the length of a topic that stays. */
  lemma StepKeepsKinds(db: Db, step: Step, topic: nat)
    requires topic in db.attrs && topic in Apply(db, step).attrs
    ensures var was, now := db.attrs[topic], Apply(db, step).attrs[topic]; now.kind == was.kind && now.len == was.len
  {
    match step
    case StepDelPdt(p, order) => DelFmtsOnlyLess(db, p, order);
    case StepDelFmt(p, key) => DelFmtOnlyLess(db, p, key);
    case _ =>
  }

  /** A topic that was not there is there after a step exactly when the step adds a token with it; it has the type and
      the length of that token, and one reference. */
  lemma StepBringsInIff(db: Db, step: Step, topic: nat)
    requires topic !in db.attrs
    ensures topic in Apply(db, step).attrs <==> Adds(db, step) && step.t.topic == topic
    ensures topic in Apply(db, step).attrs ==> Apply(db, step).attrs[topic] == Attr(step.kind, step.t.len, 1)
  {
    match step
    case StepDelPdt(p, order) => DelFmtsOnlyLess(db, p, order);
    case StepDelFmt(p, key) => DelFmtOnlyLess(db, p, key);
    case _ =>
  }

  // ----- runs -----

  /** A topic is there in every state of a run. */
  predicate Throughout(db: Db, steps: seq<Step>, topic: nat)
    decreases |steps|
  {
    topic in db.attrs && (steps != [] ==> Throughout(Apply(db, steps[0]), steps[1..], topic))
  }

  /** While a topic stays it keeps its type and its length. */
  lemma {:induction false} RunKeepsKinds(db: Db, steps: seq<Step>, topic: nat)
    requires Throughout(db, steps, topic)
    ensures topic in Run(db, steps).attrs
    ensures var was, now := db.attrs[topic], Run(db, steps).attrs[topic]; now.kind == was.kind && now.len == was.len
    decreases |steps|
  {
    if steps != [] {
      var db1 := Apply(db, steps[0]);
      assert topic in db1.attrs;
      StepKeepsKinds(db, steps[0], topic);
      hide Apply;
      RunKeepsKinds(db1, steps[1..], topic);
    }
  }

  /** Step `i` of a run brings the topic in with a type and a length, and after it the topic stays. */
  predicate BroughtInBy(db: Db, steps: seq<Step>, i: nat, topic: nat, kind: nat, len: nat)
    requires i < |steps|
  {
    var before := Run(db, steps[..i]);
    && topic !in before.attrs && Adds(before, steps[i])
    && steps[i].t.topic == topic && steps[i].kind == kind && steps[i].t.len == len
    && Throughout(Apply(before, steps[i]), steps[i + 1..], topic)
  }

  /** Where the attribute that a run leaves comes from: it was there all along, or one step of the run brought it in;
      its type and its length are those it started with. */
  lemma {:induction false} AttributeHasOrigin(db: Db, steps: seq<Step>, topic: nat)
    requires topic in Run(db, steps).attrs
    ensures
      var now := Run(db, steps).attrs[topic];
      || (Throughout(db, steps, topic) && now.kind == db.attrs[topic].kind && now.len == db.attrs[topic].len)
      || exists i :: 0 <= i < |steps| && BroughtInBy(db, steps, i, topic, now.kind, now.len)
    decreases |steps|
  {
    if steps != [] {
      var db1 := Apply(db, steps[0]);
      var now := Run(db, steps).attrs[topic];
      AttributeHasOrigin(db1, steps[1..], topic);
      if Throughout(db1, steps[1..], topic) {
        RunKeepsKinds(db1, steps[1..], topic);
        if topic in db.attrs {
          StepKeepsKinds(db, steps[0], topic);
        } else {
          StepBringsInIff(db, steps[0], topic);
          assert Run(db, steps[..0]) == db;
          assert BroughtInBy(db, steps, 0, topic, now.kind, now.len);
        }
      } else {
        var i :| 0 <= i < |steps| - 1 && BroughtInBy(db1, steps[1..], i, topic, now.kind, now.len);
        LaterStep(db, steps, i, topic, now.kind, now.len);
      }
    }
  }

  lemma LaterStep(db: Db, steps: seq<Step>, i: nat, topic: nat, kind: nat, len: nat)
    requires i < |steps| - 1 && BroughtInBy(Apply(db, steps[0]), steps[1..], i, topic, kind, len)
    ensures BroughtInBy(db, steps, i + 1, topic, kind, len)
  {
    hide Apply, Adds, Throughout;
    var first := steps[..i + 1];
    assert first[0] == steps[0] && first[1..] == steps[1..][..i];
    assert Run(db, first) == Run(Apply(db, steps[0]), steps[1..][..i]);
    assert steps[1..][i] == steps[i + 1] && steps[1..][i + 1..] == steps[i + 2..];
  }

  /** Every attribute of a database that a run has built was brought in by one of its steps. */
  lemma BuiltAttributeHasOrigin(steps: seq<Step>, topic: nat)
    requires topic in Run(EMPTY, steps).attrs
    ensures
      var now := Run(EMPTY, steps).attrs[topic];
      exists i :: 0 <= i < |steps| && BroughtInBy(EMPTY, steps, i, topic, now.kind, now.len)
  {
    AttributeHasOrigin(EMPTY, steps, topic);
  }
}
