/** cJSON items on the heap: the children of an item are a chain linked both ways.
    Source: lib/cJSON.c. */
module JsonChain {
  import opened Sequences

  /** The fields of an item other than its links: type, numbers and strings. */
  datatype Data = Data(kind: nat, number: real, valuestring: string, name: string)

  /** The item at a position, null outside. */
  ghost function At(items: seq<Item>, i: int): Item? {
    if 0 <= i < |items| then items[i] else null
  }

  lemma WithoutAt(items: seq<Item>, at: nat, i: int)
    requires at < |items| && -1 <= i < |items|
    ensures At(Without(items, at), i) == At(items, if i < at then i else i + 1)
  {
  }

  class Item {
    var data: Data
    var child: Item?
    var next: Item?
    var prev: Item?

    ghost var kids: seq<Item>      // the children, in order

    /** `cJSON_New_Item`, with its fields set. */
    constructor (data: Data)
      ensures Chained() && kids == [] && next == null && prev == null && this.data == data
    {
      this.data, child, next, prev := data, null, null, null;
      kids := [];
    }

    /** The chain of children: linked in order by `next`, backwards by `prev`, with null at both ends. */
    ghost predicate Chained()
      reads `child, `kids, kids`next, kids`prev
    {
      && this !in kids
      && (forall i, j :: 0 <= i < j < |kids| ==> kids[i] != kids[j])
      && child == At(kids, 0)
      && (forall i {:trigger kids[i].next} :: 0 <= i < |kids| ==> kids[i].next == At(kids, i + 1))
      && (forall i {:trigger kids[i].prev} :: 0 <= i < |kids| ==> kids[i].prev == At(kids, i - 1))
    }

    // ----- operations on the chain -----

    /** The child that `while (c && which>0) c=c->next,which--` stops at. */
    method Nth(which: int) returns (c: Item?, ghost at: nat)
      requires Chained()
      ensures at == (if which > 0 then which else 0)
      ensures c == At(kids, at)
    {
      c := child;
      var w := which;
      at := 0;
      while c != null && w > 0
        invariant 0 <= at <= |kids|
        invariant c == At(kids, at)
        invariant at + (if w > 0 then w else 0) == if which > 0 then which else 0
        decreases |kids| - at
      {
        c, w, at := c.next, w - 1, at + 1;
      }
      at := if which > 0 then which else 0;
    }

    /** `cJSON_AddItemToArray`; a null item is ignored before this. The item becomes the last one. It keeps
        its own `next`, and in an empty array its own `prev` too, so the result is a chain exactly when those
        are null. */
    method AddItem(item: Item)
      requires Chained() && item != this && item !in kids
      modifies `child, `kids, kids`next, item`prev
      ensures kids == old(kids) + [item] && item.next == old(item.next)
      ensures Chained() <==> old(item.next) == null && (old(kids) == [] ==> old(item.prev) == null)
    {
      var c := child;
      if c == null {
        child := item;
      } else {
        ghost var at := 0;
        while c.next != null
          invariant 0 <= at < |kids| && c == kids[at]
          decreases |kids| - at
        {
          c, at := c.next, at + 1;
        }
        c.next := item;
        item.prev := c;
      }
      kids := kids + [item];
      assert kids[|kids| - 1] == item;
    }

    /** The links around a child go past it. */
    method Bypass(c: Item, ghost at: nat)
      requires Chained() && at < |kids| && c == kids[at]
      modifies `child, kids`next, kids`prev
      ensures child == if at == 0 then At(kids, 1) else old(child)
      ensures c.next == null && c.prev == null
      ensures forall i {:trigger kids[i].next} :: 0 <= i < |kids| && i != at ==>
        kids[i].next == At(kids, if i + 1 == at then i + 2 else i + 1)
      ensures forall i {:trigger kids[i].prev} :: 0 <= i < |kids| && i != at ==>
        kids[i].prev == At(kids, if i - 1 == at then i - 2 else i - 1)
    {
      if c.prev != null {
        c.prev.next := c.next;
      }
      if c.next != null {
        c.next.prev := c.prev;
      }
      if c == child {
        child := c.next;
      }
      c.prev, c.next := null, null;
    }

    /** `cJSON_DetachItemFromArray` */
    method Detach(which: int) returns (c: Item?)
      requires Chained()
      modifies `child, `kids, kids`next, kids`prev
      ensures Chained()
      ensures var at := if which > 0 then which else 0;
        if at < |old(kids)| then
          && c == old(kids)[at] && c.next == null && c.prev == null
          && kids == Without(old(kids), at)
        else c == null && kids == old(kids)
    {
      ghost var at;
      c, at := Nth(which);
      if c == null {
        return;
      }
      Bypass(c, at);
      ghost var was := kids;
      kids := Without(was, at);
      NextSkips(was, at);
      PrevSkips(was, at);
      WithoutAt(was, at, 0);
    }

    lemma NextSkips(was: seq<Item>, at: nat)
      requires at < |was| && kids == Without(was, at)
      requires forall i {:trigger was[i].next} :: 0 <= i < |was| && i != at ==>
        was[i].next == At(was, if i + 1 == at then i + 2 else i + 1)
      ensures forall i {:trigger kids[i].next} :: 0 <= i < |kids| ==> kids[i].next == At(kids, i + 1)
    {
      forall i | 0 <= i < |kids|
        ensures kids[i].next == At(kids, i + 1)
      {
        WithoutAt(was, at, i);
        WithoutAt(was, at, i + 1);
      }
    }

    lemma PrevSkips(was: seq<Item>, at: nat)
      requires at < |was| && kids == Without(was, at)
      requires forall i {:trigger was[i].prev} :: 0 <= i < |was| && i != at ==>
        was[i].prev == At(was, if i - 1 == at then i - 2 else i - 1)
      ensures forall i {:trigger kids[i].prev} :: 0 <= i < |kids| ==> kids[i].prev == At(kids, i - 1)
    {
      forall i | 0 <= i < |kids|
        ensures kids[i].prev == At(kids, i - 1)
      {
        WithoutAt(was, at, i);
        WithoutAt(was, at, i - 1);
      }
    }

    /** The links around a child lead to a new item instead. */
    method Redirect(c: Item, newitem: Item, ghost at: nat)
      requires Chained() && at < |kids| && c == kids[at] && newitem != this && newitem !in kids
      modifies `child, kids`next, kids`prev, newitem`next, newitem`prev
      ensures child == if at == 0 then newitem else old(child)
      ensures newitem.next == At(kids, at + 1) && newitem.prev == At(kids, at - 1)
      ensures forall i {:trigger kids[i].next} :: 0 <= i < |kids| && i != at ==>
        kids[i].next == if i + 1 == at then newitem else At(kids, i + 1)
      ensures forall i {:trigger kids[i].prev} :: 0 <= i < |kids| && i != at ==>
        kids[i].prev == if i - 1 == at then newitem else At(kids, i - 1)
    {
      newitem.next := c.next;
      newitem.prev := c.prev;
      if newitem.next != null {
        newitem.next.prev := newitem;
      }
      if c == child {
        child := newitem;
      } else {
        newitem.prev.next := newitem;
      }
      c.next, c.prev := null, null;
    }

    /** `cJSON_ReplaceItemInArray`, up to the release of the old item. */
    method Replace(which: int, newitem: Item)
      requires Chained() && newitem != this && newitem !in kids
      modifies `child, `kids, kids`next, kids`prev, newitem`next, newitem`prev
      ensures Chained()
      ensures var at := if which > 0 then which else 0;
        kids == if at < |old(kids)| then old(kids)[at := newitem] else old(kids)
    {
      var c, at := Nth(which);
      if c == null {
        return;
      }
      Redirect(c, newitem, at);
      kids := kids[at := newitem];
    }
  }
}
