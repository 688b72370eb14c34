/** The provisioning operations in their own form: hash tables of products and attributes changed in place.
    Each is tied to the function of Provision that says what it does.
    Source: src/attr.c, src/pdt.c, src/g1_fmt.c. */
module Provisioning {
  import opened HashMap
  import opened IntKeys
  import opened Options
  import opened Provision
  import opened TokenRanges

  /** A table whose keys are 32-bit numbers. */
  ghost predicate IsTable<V(0)>(table: HashMap<UInt32, V>)
    reads table, table.Repr
    ensures IsTable(table) ==> table in table.Repr
  {
    table.Valid() && table.keys == UIntKeys() && forall k :: k in table.model ==> 0 <= k
  }

  ghost function Contents<V(0)>(table: HashMap<UInt32, V>): map<nat, V>
    reads table, table.Repr
    requires IsTable(table)
  {
    table.model
  }

  method Load<V(0)>(table: HashMap<UInt32, V>, key: UInt32) returns (r: Option<V>)
    requires IsTable(table)
    ensures r == if key in Contents(table) then Some(Contents(table)[key]) else None
  {
    r := table.Get(key);
  }

  /** An entry is put in, or what its pointer leads to is changed. */
  method Store<V(0)>(table: HashMap<UInt32, V>, key: UInt32, value: V)
    requires IsTable(table)
    modifies table.Repr
    ensures IsTable(table) && fresh(table.Repr - old(table.Repr))
    ensures Contents(table) == old(Contents(table))[key := value]
  {
    hide HashMap.Valid;
    table.Put(key, value);
  }

  /** An entry that is there is removed, so `hash_map_remove` does not fault. */
  method Drop<V(0)>(table: HashMap<UInt32, V>, key: UInt32)
    requires IsTable(table) && key in Contents(table)
    modifies table.Repr
    ensures IsTable(table) && table.Repr == old(table.Repr)
    ensures Contents(table) == old(Contents(table)) - {key}
  {
    hide HashMap.Valid;
    var r := table.Remove(key);
    assert r == Done(true);
  }

  class Database {
    const pdts: HashMap<UInt32, Pdt>      // g_pdt_map
    const attrs: HashMap<UInt32, Attr>    // g_attr_map

    ghost predicate Valid()
      reads this, pdts, pdts.Repr, attrs, attrs.Repr
    {
      IsTable(pdts) && IsTable(attrs) && pdts.Repr !! attrs.Repr
    }

    ghost function View(): Db
      reads this, pdts, pdts.Repr, attrs, attrs.Repr
      requires Valid()
    {
      Db(Contents(pdts), Contents(attrs))
    }

    /** `attr_init` and `pdt_init` */
    constructor ()
      ensures Valid() && fresh(pdts.Repr) && fresh(attrs.Repr) && View() == Db(map[], map[])
    {
      IntsAreConsistent();
      pdts := new HashMap(16, UIntKeys());
      attrs := new HashMap(64, UIntKeys());
    }

    /** `add_attr` */
    method AddGlobalAttr(topic: UInt32, kind: nat, len: nat) returns (ok: bool)
      requires Valid()
      modifies attrs.Repr
      ensures Valid() && fresh(attrs.Repr - old(attrs.Repr))
      ensures View() == old(View()).(attrs := AddAttr(old(View()).attrs, topic, kind, len))
      ensures ok == AttrArgs(topic, kind, len)
    {
      hide IsTable, Contents;
      if topic == 0 || EDGE_ATTR_BUTT <= kind || len == 0 {
        return false;
      }
      var found := Load(attrs, topic);
      var attr := if found.Some? then found.value else Attr(kind, len, 0);
      Store(attrs, topic, attr.(ref := attr.ref + 1));
      return true;
    }

    /** `del_attr_ref` */
    method DelGlobalAttrRef(topic: UInt32, ref: nat)
      requires Valid()
      modifies attrs.Repr
      ensures Valid() && fresh(attrs.Repr - old(attrs.Repr))
      ensures View() == old(View()).(attrs := DelAttrRef(old(View()).attrs, topic, ref))
    {
      hide IsTable, Contents;
      var attr := Load(attrs, topic);
      if attr.None? {
        return;
      }
      var left := if attr.value.ref >= ref then attr.value.ref - ref else 0;
      if left == 0 {
        Drop(attrs, topic);
      } else {
        Store(attrs, topic, attr.value.(ref := left));
      }
    }

    /** `add_pdt_attr` */
    method CountUp(p: UInt32, topic: UInt32, kind: nat, len: nat) returns (ok: bool)
      requires Valid() && p in View().pdts
      modifies pdts.Repr, attrs.Repr
      ensures Valid() && fresh(pdts.Repr - old(pdts.Repr)) && fresh(attrs.Repr - old(attrs.Repr))
      ensures View() == AddPdtAttr(old(View()), p, topic, kind, len) && ok == AttrArgs(topic, kind, len)
    {
      hide IsTable, Contents;
      if topic == 0 || EDGE_ATTR_BUTT <= kind || len == 0 {
        return false;
      }
      var found := Load(pdts, p);
      var pdt := found.value;
      var ref := if topic in pdt.attrs then pdt.attrs[topic] else 0;
      Store(pdts, p, pdt.(attrs := pdt.attrs[topic := ref + 1]));
      ok := AddGlobalAttr(topic, kind, len);
    }

    /** `del_pdt_attr` */
    method CountDown(p: UInt32, topic: UInt32)
      requires Valid() && p in View().pdts
      modifies pdts.Repr, attrs.Repr
      ensures Valid() && fresh(pdts.Repr - old(pdts.Repr)) && fresh(attrs.Repr - old(attrs.Repr))
      ensures View() == DelPdtAttr(old(View()), p, topic)
    {
      hide IsTable, Contents;
      var found := Load(pdts, p);
      var pdt := found.value;
      if topic == 0 || topic !in pdt.attrs {
        return;
      }
      var left := if pdt.attrs[topic] <= 1 then 0 else pdt.attrs[topic] - 1;
      Store(pdts, p, pdt.(attrs := if left == 0 then pdt.attrs - {topic as nat} else pdt.attrs[topic := left]));
      DelGlobalAttrRef(topic, 1);
    }

    method StoreTokens(p: UInt32, key: nat, tokens: seq<Token>)
      requires Valid() && HasFmt(View(), p, key)
      modifies pdts.Repr
      ensures Valid() && fresh(pdts.Repr - old(pdts.Repr))
      ensures View() == SetTokens(old(View()), p, key, tokens)
    {
      hide IsTable, Contents;
      var found := Load(pdts, p);
      var pdt := found.value;
      Store(pdts, p, pdt.(fmts := pdt.fmts[key := pdt.fmts[key].(tokens := tokens)]));
    }

    /** `get_g1_fmt` */
    method GetG1Fmt(p: UInt32, key: nat) returns (fmt: Option<Fmt>)
      requires Valid()
      ensures fmt == if HasFmt(View(), p, key) then Some(View().pdts[p].fmts[key]) else None
    {
      hide IsTable, Contents;
      var pdt := Load(pdts, p);
      return if pdt.Some? && key in pdt.value.fmts then Some(pdt.value.fmts[key]) else None;
    }

    /** `add_g1_token`. A token that found a place is returned even when counting refused it and it is
        gone again. */
    method AddG1Token(p: UInt32, key: nat, t: Token, kind: nat) returns (ok: bool)
      requires Valid()
      modifies pdts.Repr, attrs.Repr
      ensures Valid() && fresh(pdts.Repr - old(pdts.Repr)) && fresh(attrs.Repr - old(attrs.Repr))
      ensures View() == AddToken(old(View()), p, key, t, kind)
      ensures ok <==>
        && p != 0 && t.topic != 0 && t.len != 0 && HasFmt(old(View()), p, key)
        && Insert(old(View()).pdts[p].fmts[key].tokens, old(View()).pdts[p].fmts[key].size, t, 0).Some?
    {
      hide IsTable, Contents, Insert, Delete;
      if p == 0 || t.topic == 0 || t.len == 0 {
        return false;
      }
      var fmt := GetG1Fmt(p, key);
      if fmt.None? {
        return false;
      }
      var inserted := Insert(fmt.value.tokens, fmt.value.size, t, 0);
      if inserted.None? {
        return false;
      }
      StoreTokens(p, key, inserted.value);
      var counted := CountUp(p, t.topic, kind, t.len);
      if !counted {
        StoreTokens(p, key, Delete(inserted.value, t.topic));
      }
      return true;
    }

    /** `del_g1_token` */
    method DelG1Token(p: UInt32, key: nat, topic: UInt32)
      requires Valid()
      modifies pdts.Repr, attrs.Repr
      ensures Valid() && fresh(pdts.Repr - old(pdts.Repr)) && fresh(attrs.Repr - old(attrs.Repr))
      ensures View() == DelToken(old(View()), p, key, topic)
    {
      hide IsTable, Contents, Delete;
      if p == 0 || topic == 0 {
        return;
      }
      var fmt := GetG1Fmt(p, key);
      if fmt.None? {
        return;
      }
      CountDown(p, topic);
      StoreTokens(p, key, Delete(fmt.value.tokens, topic));
    }

    /** `add_g1_fmt` */
    method AddG1Fmt(p: UInt32, key: nat, size: nat) returns (ok: bool)
      requires Valid()
      modifies pdts.Repr
      ensures Valid() && fresh(pdts.Repr - old(pdts.Repr))
      ensures View() == AddFmt(old(View()), p, key, size) && ok == (p in old(View()).pdts)
    {
      hide IsTable, Contents;
      var pdt := Load(pdts, p);
      if pdt.None? {
        return false;
      }
      Store(pdts, p, pdt.value.(fmts := pdt.value.fmts[key := Fmt(size, [])]));
      return true;
    }

    /** `del_g1_fmt_internal` on a format that is there: walks its tokens, then removes it. */
    method DelG1FmtInternal(p: UInt32, key: nat)
      requires Valid() && HasFmt(View(), p, key)
      modifies pdts.Repr, attrs.Repr
      ensures Valid() && fresh(pdts.Repr - old(pdts.Repr)) && fresh(attrs.Repr - old(attrs.Repr))
      ensures View() == DelFmt(old(View()), p, key)
    {
      hide IsTable, Contents, DelPdtAttr;
      var fmt := GetG1Fmt(p, key);
      var tokens := fmt.value.tokens;
      ReleaseKeeps(View(), p, tokens);
      var i := 0;
      while i < |tokens|
        invariant 0 <= i <= |tokens| && Valid() && p in View().pdts
        invariant fresh(pdts.Repr - old(pdts.Repr)) && fresh(attrs.Repr - old(attrs.Repr))
        invariant Release(View(), p, tokens[i..]) == Release(old(View()), p, tokens)
      {
        assert tokens[i..][0] == tokens[i] && tokens[i..][1..] == tokens[i + 1..];
        ReleaseKeeps(View(), p, [tokens[i]]);
        CountDown(p, tokens[i].topic);
        i := i + 1;
      }
      var pdt := Load(pdts, p);
      Store(pdts, p, pdt.value.(fmts := pdt.value.fmts - {key}));
    }

    /** `del_g1_fmt` */
    method DelG1Fmt(p: UInt32, key: nat)
      requires Valid()
      modifies pdts.Repr, attrs.Repr
      ensures Valid() && fresh(pdts.Repr - old(pdts.Repr)) && fresh(attrs.Repr - old(attrs.Repr))
      ensures View() == DelFmt(old(View()), p, key)
    {
      hide IsTable, Contents, Release, DropFmt;
      var fmt := GetG1Fmt(p, key);
      if fmt.None? {
        return;
      }
      DelG1FmtInternal(p, key);
    }

    /** `add_pdt` */
    method AddProduct(p: UInt32) returns (ok: bool)
      requires Valid()
      modifies pdts.Repr
      ensures Valid() && fresh(pdts.Repr - old(pdts.Repr))
      ensures View() == AddPdt(old(View()), p) && ok == (p !in old(View()).pdts)
    {
      hide IsTable, Contents;
      var pdt := Load(pdts, p);
      if pdt.Some? {
        return false;
      }
      Store(pdts, p, Pdt(map[], map[]));
      return true;
    }

    /** `del_pdt`: the table visits the formats in some order, and the callback deletes each. */
    method DelProduct(p: UInt32) returns (ghost order: seq<nat>)
      requires Valid()
      modifies pdts.Repr, attrs.Repr
      ensures Valid() && fresh(pdts.Repr - old(pdts.Repr)) && fresh(attrs.Repr - old(attrs.Repr))
      ensures View() == DelPdt(old(View()), p, order)
      ensures p in old(View()).pdts ==> Visits(order, old(View()).pdts[p].fmts.Keys)
    {
      hide IsTable, Contents, Release, DropFmt;
      order := [];
      var pdt := Load(pdts, p);
      if pdt.None? {
        return;
      }
      var left := pdt.value.fmts.Keys;
      while left != {}
        invariant Valid() && fresh(pdts.Repr - old(pdts.Repr)) && fresh(attrs.Repr - old(attrs.Repr))
        invariant p in View().pdts && View().pdts[p].fmts.Keys == left <= old(View()).pdts[p].fmts.Keys
        invariant forall i, j :: 0 <= i < j < |order| ==> order[i] != order[j]
        invariant forall k :: k in old(View()).pdts[p].fmts.Keys <==> k in order || k in left
        invariant forall k :: k in order ==> k !in left
        invariant View() == DelFmts(old(View()), p, order)
        decreases left
      {
        var key :| key in left;
        DelFmtsAppend(old(View()), p, order, key);
        FmtGone(View(), p, key);
        DelG1FmtInternal(p, key);
        order := order + [key];
        left := left - {key};
      }
      Drop(pdts, p);
    }
  }

  lemma FmtGone(db: Db, p: nat, key: nat)
    requires HasFmt(db, p, key)
    ensures p in DelFmt(db, p, key).pdts && DelFmt(db, p, key).pdts[p].fmts.Keys == db.pdts[p].fmts.Keys - {key}
  {
    ReleaseKeeps(db, p, db.pdts[p].fmts[key].tokens);
  }

  lemma {:induction false} DelFmtsAppend(db: Db, p: nat, order: seq<nat>, key: nat)
    ensures DelFmts(db, p, order + [key]) == DelFmt(DelFmts(db, p, order), p, key)
    decreases |order|
  {
    if order == [] {
      assert order + [key] == [key];
    } else {
      assert (order + [key])[1..] == order[1..] + [key];
      DelFmtsAppend(DelFmt(db, p, order[0]), p, order[1..], key);
    }
  }
}
