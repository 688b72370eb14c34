/** The provisioning database: products, their packet formats with tokens, and reference counts on
    attribute topics, per product and over all products.
    Source: src/attr.c, src/pdt.c, src/g1_fmt.c. */
module Provision {
  import opened TokenRanges

  datatype Fmt = Fmt(size: nat, tokens: seq<Token>)
  datatype Attr = Attr(kind: nat, len: nat, ref: nat)
  datatype Pdt = Pdt(attrs: map<nat, nat>, fmts: map<nat, Fmt>)
  datatype Db = Db(pdts: map<nat, Pdt>, attrs: map<nat, Attr>)

  const EDGE_ATTR_BUTT: nat := 2

  // ----- global attributes: src/attr.c -----

  /** `add_attr` refuses these arguments, and `add_pdt_attr` before it. */
  predicate AttrArgs(topic: nat, kind: nat, len: nat) {
    topic != 0 && kind < EDGE_ATTR_BUTT && len != 0
  }

  function AddAttr(attrs: map<nat, Attr>, topic: nat, kind: nat, len: nat): map<nat, Attr> {
    if !AttrArgs(topic, kind, len) then attrs
    else if topic in attrs then attrs[topic := attrs[topic].(ref := attrs[topic].ref + 1)]
    else attrs[topic := Attr(kind, len, 1)]
  }

  function DelAttrRef(attrs: map<nat, Attr>, topic: nat, ref: nat): map<nat, Attr> {
    if topic !in attrs then attrs
    else
      var left := if attrs[topic].ref >= ref then attrs[topic].ref - ref else 0;
      if left == 0 then attrs - {topic} else attrs[topic := attrs[topic].(ref := left)]
  }

  // ----- product attributes: src/pdt.c -----

  function AddPdtAttr(db: Db, p: nat, topic: nat, kind: nat, len: nat): Db
    requires p in db.pdts
  {
    if !AttrArgs(topic, kind, len) then db
    else
      var pdt := db.pdts[p];
      var ref := if topic in pdt.attrs then pdt.attrs[topic] else 0;
      db.(pdts := db.pdts[p := pdt.(attrs := pdt.attrs[topic := ref + 1])],
          attrs := AddAttr(db.attrs, topic, kind, len))
  }

  function DelPdtAttr(db: Db, p: nat, topic: nat): Db
    requires p in db.pdts
  {
    var pdt := db.pdts[p];
    if topic == 0 || topic !in pdt.attrs then db
    else
      var attrs :=
        if pdt.attrs[topic] <= 1 then pdt.attrs - {topic} else pdt.attrs[topic := pdt.attrs[topic] - 1];
      db.(pdts := db.pdts[p := pdt.(attrs := attrs)], attrs := DelAttrRef(db.attrs, topic, 1))
  }

  // ----- formats and tokens: src/g1_fmt.c -----

  predicate HasFmt(db: Db, p: nat, key: nat) {
    p in db.pdts && key in db.pdts[p].fmts
  }

  function SetTokens(db: Db, p: nat, key: nat, tokens: seq<Token>): Db
    requires HasFmt(db, p, key)
  {
    var pdt := db.pdts[p];
    db.(pdts := db.pdts[p := pdt.(fmts := pdt.fmts[key := pdt.fmts[key].(tokens := tokens)])])
  }

  /** `add_g1_token`: the token is put in, then counted; if counting refuses the arguments the token is
      taken out again. */
  function AddToken(db: Db, p: nat, key: nat, t: Token, kind: nat): Db {
    if p == 0 || t.topic == 0 || t.len == 0 || !HasFmt(db, p, key) then db
    else
      var fmt := db.pdts[p].fmts[key];
      match Insert(fmt.tokens, fmt.size, t, 0)
      case None => db
      case Some(tokens) =>
        var db1 := SetTokens(db, p, key, tokens);
        if AttrArgs(t.topic, kind, t.len) then AddPdtAttr(db1, p, t.topic, kind, t.len)
        else SetTokens(db1, p, key, Delete(tokens, t.topic))
  }

  /** `del_g1_token` */
  function DelToken(db: Db, p: nat, key: nat, topic: nat): Db {
    if p == 0 || topic == 0 || !HasFmt(db, p, key) then db
    else
      var db1 := DelPdtAttr(db, p, topic);
      SetTokens(db1, p, key, Delete(db1.pdts[p].fmts[key].tokens, topic))
  }

  /** `add_g1_fmt` */
  function AddFmt(db: Db, p: nat, key: nat, size: nat): Db {
    if p !in db.pdts then db
    else
      var pdt := db.pdts[p];
      db.(pdts := db.pdts[p := pdt.(fmts := pdt.fmts[key := Fmt(size, [])])])
  }

  /** The loop of `del_g1_fmt_internal`: one count down for each token. */
  function Release(db: Db, p: nat, tokens: seq<Token>): Db
    requires p in db.pdts
    decreases tokens
  {
    if tokens == [] then db else Release(DelPdtAttr(db, p, tokens[0].topic), p, tokens[1..])
  }

  function DropFmt(db: Db, p: nat, key: nat): Db
    requires p in db.pdts
  {
    db.(pdts := db.pdts[p := db.pdts[p].(fmts := db.pdts[p].fmts - {key})])
  }

  /** `del_g1_fmt` */
  function DelFmt(db: Db, p: nat, key: nat): Db {
    if !HasFmt(db, p, key) then db
    else
      ReleaseKeeps(db, p, db.pdts[p].fmts[key].tokens);
      DropFmt(Release(db, p, db.pdts[p].fmts[key].tokens), p, key)
  }

  lemma ReleaseKeeps(db: Db, p: nat, tokens: seq<Token>)
    requires p in db.pdts
    ensures Release(db, p, tokens).pdts.Keys == db.pdts.Keys
    ensures forall q :: q in db.pdts ==> Release(db, p, tokens).pdts[q].fmts == db.pdts[q].fmts
    ensures forall q :: q in db.pdts && q != p ==> Release(db, p, tokens).pdts[q] == db.pdts[q]
    decreases tokens
  {
    if tokens != [] {
      ReleaseKeeps(DelPdtAttr(db, p, tokens[0].topic), p, tokens[1..]);
    }
  }

  // ----- products: src/pdt.c -----

  /** `add_pdt` */
  function AddPdt(db: Db, p: nat): Db {
    if p in db.pdts then db else db.(pdts := db.pdts[p := Pdt(map[], map[])])
  }

  /** The callback of `del_pdt` on the formats, in the order in which the table visits them. */
  function DelFmts(db: Db, p: nat, order: seq<nat>): Db
    decreases order
  {
    if order == [] then db else DelFmts(DelFmt(db, p, order[0]), p, order[1..])
  }

  /** `del_pdt`, for a product without devices */
  function DelPdt(db: Db, p: nat, order: seq<nat>): Db {
    if p !in db.pdts then db
    else
      var db1 := DelFmts(db, p, order);
      db1.(pdts := db1.pdts - {p})
  }

  /** An order in which the table may visit the formats: each key once. */
  ghost predicate Visits(order: seq<nat>, keys: set<nat>) {
    && (forall i, j :: 0 <= i < j < |order| ==> order[i] != order[j])
    && (forall k :: k in keys <==> k in order)
  }
}
