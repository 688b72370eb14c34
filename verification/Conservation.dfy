/** Reference conservation: what every provisioning step keeps about the counts.
    Source: src/attr.c, src/pdt.c, src/g1_fmt.c. */
module Conservation {
  import opened Counts
  import opened Options
  import opened MapSum
  import opened TokenRanges
  import opened Provision

  // ----- counting -----

  function Ref(attrs: map<nat, nat>, topic: nat): nat {
    if topic in attrs then attrs[topic] else 0
  }

  function GlobalRef(db: Db, topic: nat): nat {
    if topic in db.attrs then db.attrs[topic].ref else 0
  }

  function Count(tokens: seq<Token>, topic: nat): nat {
    if tokens == [] then 0 else One(tokens[0].topic == topic) + Count(tokens[1..], topic)
  }

  /** The counts of a topic, product by product. */
  ghost function RefMap(pdts: map<nat, Pdt>, topic: nat): map<nat, nat> {
    map p | p in pdts :: Ref(pdts[p].attrs, topic)
  }

  /** The tokens with a topic, format by format. */
  ghost function CountMap(fmts: map<nat, Fmt>, topic: nat): map<nat, nat> {
    map k | k in fmts :: Count(fmts[k].tokens, topic)
  }

  /** Each topic's global count is the sum of its counts in the products. */
  ghost predicate Balanced(db: Db) {
    forall topic: nat :: GlobalRef(db, topic) == Sum(RefMap(db.pdts, topic))
  }

  /** Entries exist exactly when counts are positive. */
  ghost predicate Positive(db: Db) {
    && (forall p, topic :: p in db.pdts && topic in db.pdts[p].attrs ==> db.pdts[p].attrs[topic] > 0)
    && (forall topic :: topic in db.attrs ==> db.attrs[topic].ref > 0)
  }

  /** A product's count of a topic is the number of its tokens with that topic. */
  ghost predicate CountedIn(pdt: Pdt) {
    forall topic: nat :: Ref(pdt.attrs, topic) == Sum(CountMap(pdt.fmts, topic))
  }

  ghost predicate Counted(db: Db) {
    forall p :: p in db.pdts ==> CountedIn(db.pdts[p])
  }

  ghost predicate NonZeroTopics(db: Db) {
    forall p, k :: p in db.pdts && k in db.pdts[p].fmts ==> Count(db.pdts[p].fmts[k].tokens, 0) == 0
  }

  ghost predicate Conserved(db: Db) {
    Balanced(db) && Positive(db) && Counted(db) && NonZeroTopics(db)
  }

  // ----- one count up or down -----

  /** Changing one product changes the sum of a topic by the change of that product's count. */
  lemma SumOfProducts(pdts: map<nat, Pdt>, p: nat, pdt: Pdt, topic: nat)
    requires p in pdts
    ensures Sum(RefMap(pdts[p := pdt], topic)) + Ref(pdts[p].attrs, topic) ==
      Sum(RefMap(pdts, topic)) + Ref(pdt.attrs, topic)
  {
    assert RefMap(pdts[p := pdt], topic) == RefMap(pdts, topic)[p := Ref(pdt.attrs, topic)];
    SumUpdate(RefMap(pdts, topic), p, Ref(pdt.attrs, topic));
    SumSplits(RefMap(pdts, topic), p);
  }

  lemma SumOfFormats(fmts: map<nat, Fmt>, k: nat, fmt: Fmt, topic: nat)
    requires k in fmts
    ensures Sum(CountMap(fmts[k := fmt], topic)) + Count(fmts[k].tokens, topic) ==
      Sum(CountMap(fmts, topic)) + Count(fmt.tokens, topic)
  {
    assert CountMap(fmts[k := fmt], topic) == CountMap(fmts, topic)[k := Count(fmt.tokens, topic)];
    SumUpdate(CountMap(fmts, topic), k, Count(fmt.tokens, topic));
    SumSplits(CountMap(fmts, topic), k);
  }

  /** Counting one product up counts the global attribute up. */
  lemma IncKeeps(db: Db, p: nat, topic: nat, kind: nat, len: nat)
    requires p in db.pdts && Balanced(db) && Positive(db) && AttrArgs(topic, kind, len)
    ensures var db' := AddPdtAttr(db, p, topic, kind, len);
      && Balanced(db') && Positive(db') && db'.pdts.Keys == db.pdts.Keys && db'.pdts[p].fmts == db.pdts[p].fmts
      && (forall q :: q in db.pdts && q != p ==> db'.pdts[q] == db.pdts[q])
      && (forall t: nat :: Ref(db'.pdts[p].attrs, t) == Ref(db.pdts[p].attrs, t) + One(t == topic))
  {
    var db' := AddPdtAttr(db, p, topic, kind, len);
    forall t: nat
      ensures GlobalRef(db', t) == Sum(RefMap(db'.pdts, t))
    {
      SumOfProducts(db.pdts, p, db'.pdts[p], t);
      assert GlobalRef(db, t) == Sum(RefMap(db.pdts, t));
    }
  }

  /** Counting one product down counts the global attribute down. */
  lemma DecKeeps(db: Db, p: nat, topic: nat)
    requires p in db.pdts && Balanced(db) && Positive(db) && topic != 0 && topic in db.pdts[p].attrs
    ensures var db' := DelPdtAttr(db, p, topic);
      && Balanced(db') && Positive(db') && db'.pdts.Keys == db.pdts.Keys && db'.pdts[p].fmts == db.pdts[p].fmts
      && (forall q :: q in db.pdts && q != p ==> db'.pdts[q] == db.pdts[q])
      && (forall t: nat :: Ref(db'.pdts[p].attrs, t) + One(t == topic) == Ref(db.pdts[p].attrs, t))
  {
    hide Sum, Count;
    var db' := DelPdtAttr(db, p, topic);
    assert GlobalRef(db, topic) == Sum(RefMap(db.pdts, topic));
    SumSplits(RefMap(db.pdts, topic), p);
    assert topic in db.attrs;
    forall t: nat
      ensures GlobalRef(db', t) == Sum(RefMap(db'.pdts, t))
    {
      SumOfProducts(db.pdts, p, db'.pdts[p], t);
      assert GlobalRef(db, t) == Sum(RefMap(db.pdts, t));
    }
  }

  // ----- tokens -----

  lemma {:induction false} InsertCounts(tokens: seq<Token>, size: nat, t: Token, from: nat, topic: nat)
    requires Insert(tokens, size, t, from).Some?
    ensures Count(Insert(tokens, size, t, from).value, topic) == Count(tokens, topic) + One(t.topic == topic)
    decreases |tokens|
  {
    if tokens != [] {
      var cur := tokens[0];
      if t.offset >= from && Add(t.offset, t.len) <= cur.offset {
        assert ([t] + tokens)[1..] == tokens;
      } else {
        InsertCounts(tokens[1..], size, t, Add(cur.offset, cur.len), topic);
      }
    }
  }

  lemma {:induction false} DeleteCounts(tokens: seq<Token>, gone: nat, topic: nat)
    ensures Count(Delete(tokens, gone), topic) + One(topic == gone && Count(tokens, gone) > 0) == Count(tokens, topic)
    decreases |tokens|
  {
    if tokens != [] && tokens[0].topic != gone {
      DeleteCounts(tokens[1..], gone, topic);
    }
  }

  /** Taking out the topic just put in gives the old list back. */
  lemma {:induction false} DeleteUndoesInsert(tokens: seq<Token>, size: nat, t: Token, from: nat)
    requires Insert(tokens, size, t, from).Some?
    ensures Delete(Insert(tokens, size, t, from).value, t.topic) == tokens
    decreases |tokens|
  {
    if tokens != [] && !(t.offset >= from && Add(t.offset, t.len) <= tokens[0].offset) {
      DeleteUndoesInsert(tokens[1..], size, t, Add(tokens[0].offset, tokens[0].len));
    }
  }

  // ----- every step -----

  /** Changing the tokens of one format touches no count. */
  lemma SetTokensKeeps(db: Db, p: nat, key: nat, tokens: seq<Token>)
    requires HasFmt(db, p, key) && Balanced(db) && Positive(db)
    ensures var db' := SetTokens(db, p, key, tokens); Balanced(db') && Positive(db')
  {
    var db' := SetTokens(db, p, key, tokens);
    forall t: nat
      ensures GlobalRef(db', t) == Sum(RefMap(db'.pdts, t))
    {
      SumOfProducts(db.pdts, p, db'.pdts[p], t);
      assert GlobalRef(db, t) == Sum(RefMap(db.pdts, t));
    }
  }

  lemma AddTokenConserves(db: Db, p: nat, key: nat, t: Token, kind: nat)
    requires Conserved(db)
    ensures Conserved(AddToken(db, p, key, t, kind))
  {
    hide Conserved;
    if p != 0 && t.topic != 0 && t.len != 0 && HasFmt(db, p, key) {
      var fmt := db.pdts[p].fmts[key];
      var inserted := Insert(fmt.tokens, fmt.size, t, 0);
      if inserted.Some? {
        if AttrArgs(t.topic, kind, t.len) {
          AddedTokenIsCounted(db, p, key, t, kind, inserted.value);
        } else {
          RefusedTokenIsUndone(db, p, key, t, inserted.value);
        }
      }
    }
  }

  lemma RefusedTokenIsUndone(db: Db, p: nat, key: nat, t: Token, tokens: seq<Token>)
    requires HasFmt(db, p, key)
    requires Insert(db.pdts[p].fmts[key].tokens, db.pdts[p].fmts[key].size, t, 0) == Some(tokens)
    ensures SetTokens(SetTokens(db, p, key, tokens), p, key, Delete(tokens, t.topic)) == db
  {
    var pdt, fmt := db.pdts[p], db.pdts[p].fmts[key];
    DeleteUndoesInsert(fmt.tokens, fmt.size, t, 0);
    var pdts1 := SetTokens(db, p, key, tokens).pdts;
    assert pdts1[p].fmts[key := fmt] == pdt.fmts;
    assert pdts1[p := pdt] == db.pdts;
  }

  lemma AddedTokenIsCounted(db: Db, p: nat, key: nat, t: Token, kind: nat, tokens: seq<Token>)
    requires Conserved(db) && HasFmt(db, p, key) && AttrArgs(t.topic, kind, t.len)
    requires Insert(db.pdts[p].fmts[key].tokens, db.pdts[p].fmts[key].size, t, 0) == Some(tokens)
    ensures Conserved(AddPdtAttr(SetTokens(db, p, key, tokens), p, t.topic, kind, t.len))
  {
    var fmt := db.pdts[p].fmts[key];
    var db1 := SetTokens(db, p, key, tokens);
    var db2 := AddPdtAttr(db1, p, t.topic, kind, t.len);
    SetTokensKeeps(db, p, key, tokens);
    IncKeeps(db1, p, t.topic, kind, t.len);
    InsertCounts(fmt.tokens, fmt.size, t, 0, 0);
    hide Balanced, Positive;
    forall topic: nat
      ensures Ref(db2.pdts[p].attrs, topic) == Sum(CountMap(db2.pdts[p].fmts, topic))
    {
      InsertCounts(fmt.tokens, fmt.size, t, 0, topic);
      SumOfFormats(db.pdts[p].fmts, key, db1.pdts[p].fmts[key], topic);
      assert CountedIn(db.pdts[p]);
    }
  }

  /** Nothing happens, or the token to delete is there. */
  predicate TokenThere(db: Db, p: nat, key: nat, topic: nat) {
    p == 0 || topic == 0 || !HasFmt(db, p, key) || topic !in db.pdts[p].attrs
    || Count(db.pdts[p].fmts[key].tokens, topic) > 0
  }

  /** Deleting a token keeps the counts exactly when the token is in the format, or no format of the
      product has it. */
  lemma DelTokenConserves(db: Db, p: nat, key: nat, topic: nat)
    requires Conserved(db)
    ensures Conserved(DelToken(db, p, key, topic)) <==> TokenThere(db, p, key, topic)
  {
    if p != 0 && topic != 0 && HasFmt(db, p, key) {
      if topic in db.pdts[p].attrs {
        DeletedTokenIsUncounted(db, p, key, topic);
      } else {
        var pdt, fmt := db.pdts[p], db.pdts[p].fmts[key];
        assert CountedIn(pdt);
        SumSplits(CountMap(pdt.fmts, topic), key);
        DeleteAbsent(fmt.tokens, topic);
        assert pdt.fmts[key := fmt] == pdt.fmts;
        assert db.pdts[p := pdt] == db.pdts;
      }
    }
  }

  lemma {:induction false} DeleteAbsent(tokens: seq<Token>, topic: nat)
    requires Count(tokens, topic) == 0
    ensures Delete(tokens, topic) == tokens
    decreases |tokens|
  {
    if tokens != [] {
      DeleteAbsent(tokens[1..], topic);
    }
  }

  lemma DeletedTokenIsUncounted(db: Db, p: nat, key: nat, topic: nat)
    requires Conserved(db) && p != 0 && topic != 0 && HasFmt(db, p, key) && topic in db.pdts[p].attrs
    ensures Conserved(DelToken(db, p, key, topic)) <==> Count(db.pdts[p].fmts[key].tokens, topic) > 0
  {
    var tokens := db.pdts[p].fmts[key].tokens;
    var db1 := DelPdtAttr(db, p, topic);
    var db2 := DelToken(db, p, key, topic);
    DecKeeps(db, p, topic);
    SetTokensKeeps(db1, p, key, Delete(tokens, topic));
    DeleteCounts(tokens, topic, 0);
    hide Balanced, Positive, Sum, Delete;
    assert CountedIn(db.pdts[p]);
    forall t: nat
      ensures Ref(db2.pdts[p].attrs, t) + One(t == topic) ==
        Sum(CountMap(db2.pdts[p].fmts, t)) + One(t == topic && Count(tokens, topic) > 0)
    {
      DeleteCounts(tokens, topic, t);
      SumOfFormats(db.pdts[p].fmts, key, db2.pdts[p].fmts[key], t);
    }
    if Count(tokens, topic) == 0 {
      assert Ref(db2.pdts[p].attrs, topic) != Sum(CountMap(db2.pdts[p].fmts, topic));
      assert !CountedIn(db2.pdts[p]);
    }
  }

  /** A format that replaces another takes that one's tokens out of the product, and nothing else changes. */
  lemma AddFmtKeeps(db: Db, p: nat, key: nat, size: nat)
    requires Conserved(db) && p in db.pdts
    ensures var db', fmts := AddFmt(db, p, key, size), db.pdts[p].fmts;
      && Balanced(db') && Positive(db') && NonZeroTopics(db')
      && db'.pdts.Keys == db.pdts.Keys && (forall q :: q in db.pdts && q != p ==> db'.pdts[q] == db.pdts[q])
      && (forall t: nat :: Sum(CountMap(db'.pdts[p].fmts, t)) + (if key in fmts then Count(fmts[key].tokens, t) else 0)
                           == Ref(db'.pdts[p].attrs, t))
  {
    hide Sum;
    var db', fmts := AddFmt(db, p, key, size), db.pdts[p].fmts;
    assert CountedIn(db.pdts[p]);
    forall t: nat
      ensures GlobalRef(db', t) == Sum(RefMap(db'.pdts, t))
      ensures Sum(CountMap(db'.pdts[p].fmts, t)) + (if key in fmts then Count(fmts[key].tokens, t) else 0) ==
        Ref(db'.pdts[p].attrs, t)
    {
      SumOfProducts(db.pdts, p, db'.pdts[p], t);
      assert GlobalRef(db, t) == Sum(RefMap(db.pdts, t));
      NewFormatSum(fmts, key, Fmt(size, []), t);
    }
  }

  /** Adding a format keeps the counts exactly when the key is new or its old format had no tokens. */
  lemma AddFmtConserves(db: Db, p: nat, key: nat, size: nat)
    requires Conserved(db)
    ensures Conserved(AddFmt(db, p, key, size)) <==> !HasFmt(db, p, key) || db.pdts[p].fmts[key].tokens == []
  {
    if p in db.pdts {
      AddFmtKeeps(db, p, key, size);
      hide Balanced, Positive, NonZeroTopics, Sum, AddFmt;
      var pdt, db' := db.pdts[p], AddFmt(db, p, key, size);
      if HasFmt(db, p, key) && pdt.fmts[key].tokens != [] {
        var t := pdt.fmts[key].tokens[0].topic;
        assert Ref(db'.pdts[p].attrs, t) != Sum(CountMap(db'.pdts[p].fmts, t));
        assert !CountedIn(db'.pdts[p]);
      } else {
        assert CountedIn(db'.pdts[p]);
      }
    }
  }

  lemma NewFormatSum(fmts: map<nat, Fmt>, key: nat, fmt: Fmt, t: nat)
    requires fmt.tokens == []
    ensures Sum(CountMap(fmts[key := fmt], t)) + (if key in fmts then Count(fmts[key].tokens, t) else 0) ==
      Sum(CountMap(fmts, t))
  {
    if key in fmts {
      SumOfFormats(fmts, key, fmt, t);
    } else {
      assert CountMap(fmts[key := fmt], t) == CountMap(fmts, t)[key := 0];
      SumUpdate(CountMap(fmts, t), key, 0);
      SumAbsent(CountMap(fmts, t), key);
    }
  }

  lemma AddPdtConserves(db: Db, p: nat)
    requires Conserved(db)
    ensures Conserved(AddPdt(db, p))
  {
    if p !in db.pdts {
      var db' := AddPdt(db, p);
      forall t: nat
        ensures GlobalRef(db', t) == Sum(RefMap(db'.pdts, t))
      {
        NewProductSum(db.pdts, p, t);
        assert GlobalRef(db, t) == Sum(RefMap(db.pdts, t));
      }
      EmptyIsCounted();
      hide Sum, CountMap, RefMap, CountedIn;
      assert forall q :: q in db.pdts ==> CountedIn(db.pdts[q]) && db'.pdts[q] == db.pdts[q];
    }
  }

  lemma EmptyIsCounted()
    ensures CountedIn(Pdt(map[], map[]))
  {
    forall t: nat
      ensures Sum(CountMap(map[], t)) == 0
    {
      assert CountMap(map[], t) == map[];
    }
  }

  lemma NewProductSum(pdts: map<nat, Pdt>, p: nat, t: nat)
    requires p !in pdts
    ensures Sum(RefMap(pdts[p := Pdt(map[], map[])], t)) == Sum(RefMap(pdts, t))
  {
    assert RefMap(pdts[p := Pdt(map[], map[])], t) == RefMap(pdts, t)[p := 0];
    SumUpdate(RefMap(pdts, t), p, 0);
    SumAbsent(RefMap(pdts, t), p);
  }

  // ----- deleting formats and products -----

  /** The counts that a release takes away, and what it leaves. */
  ghost predicate Released(db: Db, db': Db, p: nat, tokens: seq<Token>)
    requires p in db.pdts && p in db'.pdts
  {
    && Balanced(db') && Positive(db')
    && forall t: nat :: Ref(db'.pdts[p].attrs, t) + Count(tokens, t) == Ref(db.pdts[p].attrs, t)
  }

  lemma {:induction false} ReleaseCounts(db: Db, p: nat, tokens: seq<Token>)
    requires p in db.pdts && Balanced(db) && Positive(db)
    requires Count(tokens, 0) == 0 && forall t: nat :: Count(tokens, t) <= Ref(db.pdts[p].attrs, t)
    ensures p in Release(db, p, tokens).pdts && Released(db, Release(db, p, tokens), p, tokens)
    decreases |tokens|
  {
    if tokens != [] {
      var topic := tokens[0].topic;
      assert Count(tokens, topic) > 0;
      assert topic in db.pdts[p].attrs;
      DecKeeps(db, p, topic);
      var db1 := DelPdtAttr(db, p, topic);
      hide Balanced, Positive, DelPdtAttr;
      forall t: nat
        ensures Count(tokens[1..], t) <= Ref(db1.pdts[p].attrs, t)
      {
        assert Count(tokens, t) == One(topic == t) + Count(tokens[1..], t);
      }
      ReleaseCounts(db1, p, tokens[1..]);
      forall t: nat
        ensures Ref(Release(db1, p, tokens[1..]).pdts[p].attrs, t) + Count(tokens, t) == Ref(db.pdts[p].attrs, t)
      {
        assert Count(tokens, t) == One(topic == t) + Count(tokens[1..], t);
      }
    }
  }

  lemma DroppedFormatSum(fmts: map<nat, Fmt>, key: nat, t: nat)
    requires key in fmts
    ensures Sum(CountMap(fmts - {key}, t)) + Count(fmts[key].tokens, t) == Sum(CountMap(fmts, t))
  {
    assert CountMap(fmts - {key}, t) == CountMap(fmts, t) - {key};
    SumSplits(CountMap(fmts, t), key);
  }

  lemma DropFmtKeeps(db: Db, p: nat, key: nat)
    requires p in db.pdts && Balanced(db) && Positive(db)
    ensures Balanced(DropFmt(db, p, key)) && Positive(DropFmt(db, p, key))
  {
    var db' := DropFmt(db, p, key);
    forall t: nat
      ensures GlobalRef(db', t) == Sum(RefMap(db'.pdts, t))
    {
      SumOfProducts(db.pdts, p, db'.pdts[p], t);
      assert GlobalRef(db, t) == Sum(RefMap(db.pdts, t));
    }
  }

  /** Deleting a format keeps the counts, and lowers those of its product by its tokens. */
  lemma DelFmtConserves(db: Db, p: nat, key: nat)
    requires Conserved(db)
    ensures Conserved(DelFmt(db, p, key))
    ensures HasFmt(db, p, key) ==>
      var db' := DelFmt(db, p, key);
      && db'.pdts.Keys == db.pdts.Keys && db'.pdts[p].fmts == db.pdts[p].fmts - {key}
      && (forall q :: q in db.pdts && q != p ==> db'.pdts[q] == db.pdts[q])
      && (forall t: nat :: Ref(db'.pdts[p].attrs, t) + Count(db.pdts[p].fmts[key].tokens, t) == Ref(db.pdts[p].attrs, t))
  {
    if HasFmt(db, p, key) {
      var tokens := db.pdts[p].fmts[key].tokens;
      var db1 := Release(db, p, tokens);
      assert CountedIn(db.pdts[p]);
      forall t: nat
        ensures Count(tokens, t) <= Ref(db.pdts[p].attrs, t)
      {
        DroppedFormatSum(db.pdts[p].fmts, key, t);
      }
      ReleaseKeeps(db, p, tokens);
      ReleaseCounts(db, p, tokens);
      DropFmtKeeps(db1, p, key);
      hide Balanced, Positive, Release;
      forall t: nat
        ensures Ref(db1.pdts[p].attrs, t) == Sum(CountMap(db1.pdts[p].fmts - {key}, t))
      {
        DroppedFormatSum(db.pdts[p].fmts, key, t);
      }
    }
  }

  ghost function Keys(order: seq<nat>): set<nat> {
    set k | k in order
  }

  lemma {:induction false} DelFmtsConserve(db: Db, p: nat, order: seq<nat>)
    requires Conserved(db) && p in db.pdts && Keys(order) <= db.pdts[p].fmts.Keys
    requires forall i, j :: 0 <= i < j < |order| ==> order[i] != order[j]
    ensures var db' := DelFmts(db, p, order);
      && Conserved(db') && db'.pdts.Keys == db.pdts.Keys && db'.pdts[p].fmts == db.pdts[p].fmts - Keys(order)
      && (forall q :: q in db.pdts && q != p ==> db'.pdts[q] == db.pdts[q])
    decreases |order|
  {
    hide Conserved;
    if order == [] {
      assert db.pdts[p].fmts - {} == db.pdts[p].fmts;
    } else {
      assert order[0] in Keys(order);
      DelFmtConserves(db, p, order[0]);
      var db1 := DelFmt(db, p, order[0]);
      hide DelFmt;
      assert Keys(order) == Keys(order[1..]) + {order[0]};
      DelFmtsConserve(db1, p, order[1..]);
      assert db.pdts[p].fmts - {order[0]} - Keys(order[1..]) == db.pdts[p].fmts - Keys(order);
    }
  }

  /** Deleting a product first empties its attribute map. */
  lemma DelFmtsEmpty(db: Db, p: nat, order: seq<nat>)
    requires Conserved(db) && p in db.pdts && Visits(order, db.pdts[p].fmts.Keys)
    ensures var db' := DelFmts(db, p, order);
      && Conserved(db') && db'.pdts == db.pdts[p := Pdt(map[], map[])]
  {
    var db' := DelFmts(db, p, order);
    assert Keys(order) == db.pdts[p].fmts.Keys;
    DelFmtsConserve(db, p, order);
    assert db'.pdts[p].fmts == map[];
    forall t: nat
      ensures t !in db'.pdts[p].attrs
    {
      assert CountMap(map[], t) == map[];
      assert CountedIn(db'.pdts[p]);
    }
    assert db'.pdts[p].attrs == map[];
  }

  /** Deleting a product keeps the counts, and lowers the global counts by exactly its tokens. */
  lemma DelPdtConserves(db: Db, p: nat, order: seq<nat>)
    requires Conserved(db) && (p in db.pdts ==> Visits(order, db.pdts[p].fmts.Keys))
    ensures Conserved(DelPdt(db, p, order))
    ensures p in db.pdts ==>
      && DelPdt(db, p, order).pdts == db.pdts - {p}
      && forall t: nat ::
           GlobalRef(DelPdt(db, p, order), t) + Sum(CountMap(db.pdts[p].fmts, t)) == GlobalRef(db, t)
  {
    if p in db.pdts {
      var db1, db2 := DelFmts(db, p, order), DelPdt(db, p, order);
      DelFmtsEmpty(db, p, order);
      assert CountedIn(db.pdts[p]);
      hide DelFmts, CountedIn;
      assert db2.pdts == db.pdts - {p};
      forall t: nat
        ensures GlobalRef(db2, t) == Sum(RefMap(db2.pdts, t))
        ensures GlobalRef(db2, t) + Ref(db.pdts[p].attrs, t) == GlobalRef(db, t)
      {
        assert RefMap(db2.pdts, t) == RefMap(db1.pdts, t) - {p};
        SumSplits(RefMap(db1.pdts, t), p);
        assert GlobalRef(db1, t) == Sum(RefMap(db1.pdts, t));
        SumOfProducts(db.pdts, p, Pdt(map[], map[]), t);
        assert GlobalRef(db, t) == Sum(RefMap(db.pdts, t));
      }
    }
  }

  // ----- whole runs -----

  datatype Step =
    | StepAddPdt(p: nat)
    | StepDelPdt(p: nat, order: seq<nat>)
    | StepAddFmt(p: nat, key: nat, size: nat)
    | StepDelFmt(p: nat, key: nat)
    | StepAddToken(p: nat, key: nat, t: Token, kind: nat)
    | StepDelToken(p: nat, key: nat, topic: nat)

  function Apply(db: Db, step: Step): Db {
    match step
    case StepAddPdt(p) => AddPdt(db, p)
    case StepDelPdt(p, order) => DelPdt(db, p, order)
    case StepAddFmt(p, key, size) => AddFmt(db, p, key, size)
    case StepDelFmt(p, key) => DelFmt(db, p, key)
    case StepAddToken(p, key, t, kind) => AddToken(db, p, key, t, kind)
    case StepDelToken(p, key, topic) => DelToken(db, p, key, topic)
  }

  /** What the callers of a step owe: a new key for a format, a token that is there to be deleted. The
      order of a product deletion is one in which the table visits the formats. */
  ghost predicate Legal(db: Db, step: Step) {
    match step
    case StepAddFmt(p, key, _) => !HasFmt(db, p, key)
    case StepDelToken(p, key, topic) => TokenThere(db, p, key, topic)
    case StepDelPdt(p, order) => p in db.pdts ==> Visits(order, db.pdts[p].fmts.Keys)
    case _ => true
  }

  function Run(db: Db, steps: seq<Step>): Db
    decreases |steps|
  {
    if steps == [] then db else Run(Apply(db, steps[0]), steps[1..])
  }

  ghost predicate LegalRun(db: Db, steps: seq<Step>)
    decreases |steps|
  {
    steps == [] || (Legal(db, steps[0]) && LegalRun(Apply(db, steps[0]), steps[1..]))
  }

  lemma StepConserves(db: Db, step: Step)
    requires Conserved(db) && Legal(db, step)
    ensures Conserved(Apply(db, step))
  {
    hide Conserved;
    match step
    case StepAddPdt(p) => AddPdtConserves(db, p);
    case StepDelPdt(p, order) => DelPdtConserves(db, p, order);
    case StepAddFmt(p, key, size) => AddFmtConserves(db, p, key, size);
    case StepDelFmt(p, key) => DelFmtConserves(db, p, key);
    case StepAddToken(p, key, t, kind) => AddTokenConserves(db, p, key, t, kind);
    case StepDelToken(p, key, topic) => DelTokenConserves(db, p, key, topic);
  }

  lemma {:induction false} RunConserves(db: Db, steps: seq<Step>)
    requires Conserved(db) && LegalRun(db, steps)
    ensures Conserved(Run(db, steps))
    decreases |steps|
  {
    if steps != [] {
      StepConserves(db, steps[0]);
      RunConserves(Apply(db, steps[0]), steps[1..]);
    }
  }

  const EMPTY := Db(map[], map[])

  /** Reference conservation over every run from the empty database. */
  lemma ReferenceConservation(steps: seq<Step>)
    requires LegalRun(EMPTY, steps)
    ensures Conserved(Run(EMPTY, steps))
  {
    forall t: nat
      ensures Sum(RefMap(map[], t)) == 0
    {
      assert RefMap(map[], t) == map[];
    }
    RunConserves(EMPTY, steps);
  }

  // ----- token ranges over runs -----

  /** Every format's tokens are in order, disjoint and within the packet. */
  ghost predicate RangesHold(db: Db) {
    forall p, k :: HasFmt(db, p, k) ==>
      db.pdts[p].fmts[k].size < WORD && Ordered(db.pdts[p].fmts[k].tokens, 0, db.pdts[p].fmts[k].size)
  }

  /** Sizes are machine words, and the end of a new range does not wrap around. */
  predicate FitsWords(step: Step) {
    match step
    case StepAddFmt(_, _, size) => size < WORD
    case StepAddToken(_, _, t, _) => t.offset + t.len < WORD
    case _ => true
  }

  lemma DelFmtKeepsRanges(db: Db, p: nat, key: nat)
    requires RangesHold(db)
    ensures RangesHold(DelFmt(db, p, key))
  {
    if HasFmt(db, p, key) {
      ReleaseKeeps(db, p, db.pdts[p].fmts[key].tokens);
    }
  }

  lemma {:induction false} DelFmtsKeepRanges(db: Db, p: nat, order: seq<nat>)
    requires RangesHold(db)
    ensures RangesHold(DelFmts(db, p, order))
    decreases |order|
  {
    if order != [] {
      DelFmtKeepsRanges(db, p, order[0]);
      hide RangesHold, DelFmt;
      DelFmtsKeepRanges(DelFmt(db, p, order[0]), p, order[1..]);
    }
  }

  lemma AddTokenKeepsRanges(db: Db, p: nat, key: nat, t: Token, kind: nat)
    requires RangesHold(db) && t.offset + t.len < WORD
    ensures RangesHold(AddToken(db, p, key, t, kind))
  {
    if p != 0 && t.topic != 0 && t.len != 0 && HasFmt(db, p, key) {
      var fmt := db.pdts[p].fmts[key];
      var inserted := Insert(fmt.tokens, fmt.size, t, 0);
      if inserted.Some? {
        InsertKeepsOrder(fmt.tokens, fmt.size, t, 0);
        RefusedTokenIsUndone(db, p, key, t, inserted.value);
      }
    }
  }

  lemma DelTokenKeepsRanges(db: Db, p: nat, key: nat, topic: nat)
    requires RangesHold(db)
    ensures RangesHold(DelToken(db, p, key, topic))
  {
    if HasFmt(db, p, key) {
      var fmt := db.pdts[p].fmts[key];
      DeleteKeepsOrder(fmt.tokens, topic, 0, fmt.size);
    }
  }

  lemma StepKeepsRanges(db: Db, step: Step)
    requires RangesHold(db) && FitsWords(step)
    ensures RangesHold(Apply(db, step))
  {
    match step
    case StepDelPdt(p, order) => DelFmtsKeepRanges(db, p, order);
    case StepDelFmt(p, key) => DelFmtKeepsRanges(db, p, key);
    case StepAddToken(p, key, t, kind) => AddTokenKeepsRanges(db, p, key, t, kind);
    case StepDelToken(p, key, topic) => DelTokenKeepsRanges(db, p, key, topic);
    case _ =>
  }

  /** In every run whose sizes and range ends are machine words, every token list stays in order,
      disjoint and within its packet. */
  lemma {:induction false} RunKeepsRanges(db: Db, steps: seq<Step>)
    requires RangesHold(db) && forall i :: 0 <= i < |steps| ==> FitsWords(steps[i])
    ensures RangesHold(Run(db, steps))
    decreases |steps|
  {
    if steps != [] {
      StepKeepsRanges(db, steps[0]);
      hide RangesHold, FitsWords;
      RunKeepsRanges(Apply(db, steps[0]), steps[1..]);
    }
  }
}
