/** Recursive duplication of item trees: an equal tree on fresh items.
    Source: `cJSON_Duplicate` in lib/cJSON.c. */
module JsonDuplicate {
  import opened JsonChain

  /** The tree that items hold, without their addresses. */
  datatype Tree = Tree(data: Data, kids: seq<Tree>)

  /** The items of a tree: which item holds each node. */
  datatype Shape = Shape(item: Item, data: Data, kids: seq<Shape>)

  ghost function Roots(shapes: seq<Shape>): (items: seq<Item>)
    ensures |items| == |shapes| && forall i :: 0 <= i < |shapes| ==> items[i] == shapes[i].item
  {
    seq(|shapes|, i requires 0 <= i < |shapes| => shapes[i].item)
  }

  ghost function Value(s: Shape): Tree {
    Tree(s.data, Values(s.kids))
  }

  ghost function Values(shapes: seq<Shape>): (trees: seq<Tree>)
    ensures |trees| == |shapes| && forall i :: 0 <= i < |shapes| ==> trees[i] == Value(shapes[i])
  {
    seq(|shapes|, i requires 0 <= i < |shapes| => Value(shapes[i]))
  }

  ghost function Items(s: Shape): set<Item> {
    {s.item} + Below(s.kids)
  }

  ghost function Below(shapes: seq<Shape>): set<Item> {
    if shapes == [] then {} else Items(shapes[0]) + Below(shapes[1..])
  }

  lemma {:induction false} InBelow(shapes: seq<Shape>, i: nat)
    requires i < |shapes|
    ensures Items(shapes[i]) <= Below(shapes)
  {
    if i > 0 {
      InBelow(shapes[1..], i - 1);
    }
  }

  lemma {:induction false} BelowAppend(shapes: seq<Shape>, s: Shape)
    ensures Below(shapes + [s]) == Below(shapes) + Items(s)
  {
    if shapes == [] {
      assert [] + [s] == [s];
    } else {
      assert (shapes + [s])[1..] == shapes[1..] + [s];
      BelowAppend(shapes[1..], s);
    }
  }

  lemma {:induction false} ItemsExist(s: Shape)
    ensures allocated(Items(s))
  {
    BelowExist(s.kids);
  }

  lemma {:induction false} BelowExist(shapes: seq<Shape>)
    ensures allocated(Below(shapes))
  {
    if shapes != [] {
      ItemsExist(shapes[0]);
      BelowExist(shapes[1..]);
    }
  }

  /** The items hold the tree: every node's children are chained under it. */
  ghost predicate Built(s: Shape)
    reads Items(s)`data, Items(s)`child, Items(s)`kids, Below(s.kids)`next, Below(s.kids)`prev
  {
    && s.item.data == s.data && s.item.kids == Roots(s.kids)
    && (assert forall i :: 0 <= i < |s.kids| ==> s.kids[i].item in Below(s.kids) by { RootsAreBelow(s.kids); }
        s.item.Chained())
    && forall i :: 0 <= i < |s.kids| ==> (InBelow(s.kids, i); Built(s.kids[i]))
  }

  lemma BuiltKid(s: Shape, i: nat)
    requires Built(s) && i < |s.kids|
    ensures s.item.kids == Roots(s.kids) && Built(s.kids[i]) && s.kids[i].item.next == At(s.item.kids, i + 1)
  {
    InBelow(s.kids, i);
    assert s.item.kids[i] == s.kids[i].item;
  }

  lemma BuiltChild(s: Shape)
    requires Built(s)
    ensures s.item.child == At(Roots(s.kids), 0)
  {
  }

  lemma RootsAreBelow(shapes: seq<Shape>)
    ensures forall i :: 0 <= i < |shapes| ==> shapes[i].item in Below(shapes)
  {
    forall i | 0 <= i < |shapes|
      ensures shapes[i].item in Below(shapes)
    {
      InBelow(shapes, i);
    }
  }

  /** No item is in two places. */
  ghost predicate Apart(s: Shape) {
    s.item !in Below(s.kids) && Separate(s.kids)
  }

  ghost predicate Separate(shapes: seq<Shape>) {
    && (forall i, j :: 0 <= i < j < |shapes| ==> Items(shapes[i]) !! Items(shapes[j]))
    && forall i :: 0 <= i < |shapes| ==> Apart(shapes[i])
  }

  const IS_REFERENCE := 256

  /** A duplicate is no reference: `type & ~cJSON_IsReference`. */
  function Plain(kind: nat): nat {
    if kind / IS_REFERENCE % 2 == 1 then kind - IS_REFERENCE else kind
  }

  /** Of a reference to an item of some type the type is left, and a type that is no reference stays. */
  lemma ReferenceIsCleared(type_: nat)
    requires type_ < 256
    ensures Plain(256 + type_) == type_ && Plain(type_) == type_
  {
  }

  ghost function Copy(t: Tree): Tree {
    Tree(t.data.(kind := Plain(t.data.kind)), Copies(t.kids))
  }

  ghost function Copies(ts: seq<Tree>): (copies: seq<Tree>)
    ensures |copies| == |ts| && forall i :: 0 <= i < |ts| ==> copies[i] == Copy(ts[i])
  {
    seq(|ts|, i requires 0 <= i < |ts| => Copy(ts[i]))
  }

  /** The links that make a new child the last one. */
  method Attach(newitem: Item, nptr: Item?, newchild: Item)
    requires newitem.Chained() && nptr == At(newitem.kids, |newitem.kids| - 1)
    requires newchild != newitem && newchild !in newitem.kids && newchild.next == null && newchild.prev == null
    modifies newitem`child, newitem`kids, newitem.kids`next, newchild`prev
    ensures newitem.Chained() && newitem.kids == old(newitem.kids) + [newchild]
  {
    if nptr != null {
      nptr.next := newchild;
      newchild.prev := nptr;
    } else {
      newitem.child := newchild;
    }
    newitem.kids := newitem.kids + [newchild];
  }

  /** The shapes built so far under a new item: fresh, apart, and copies of the first children. */
  ghost predicate Copied(newitem: Item, done: seq<Shape>, kids: seq<Shape>)
    reads newitem, newitem.kids, Below(done)
  {
    && |done| <= |kids|
    && newitem.Chained() && newitem.kids == Roots(done) && newitem !in Below(done) && Separate(done)
    && forall i :: 0 <= i < |done| ==>
      (InBelow(done, i); Built(done[i])) && Value(done[i]) == Copy(Value(kids[i]))
  }

  /** The first items of separate shapes are in none of them further down. */
  lemma RootsNotDeeper(shapes: seq<Shape>, i: nat)
    requires Separate(shapes) && i < |shapes|
    ensures forall j :: 0 <= j < |shapes| ==> shapes[j].item !in Below(shapes[i].kids)
  {
    assert Apart(shapes[i]);
    forall j | 0 <= j < |shapes|
      ensures shapes[j].item !in Below(shapes[i].kids)
    {
      assert shapes[j].item in Items(shapes[j]);
      assert j < i ==> Items(shapes[j]) !! Items(shapes[i]);
      assert i < j ==> Items(shapes[i]) !! Items(shapes[j]);
    }
  }

  lemma SeparateAppend(done: seq<Shape>, shape: Shape)
    requires Separate(done) && Apart(shape) && Items(shape) !! Below(done)
    ensures Separate(done + [shape])
  {
    forall i | 0 <= i < |done|
      ensures Items(done[i]) !! Items(shape)
    {
      InBelow(done, i);
    }
  }

  lemma Footprints(shapes: seq<Shape>)
    requires Separate(shapes)
    ensures forall i :: 0 <= i < |shapes| ==>
      && Items(shapes[i]) <= Below(shapes) && Below(shapes[i].kids) <= Items(shapes[i])
      && forall j :: 0 <= j < |shapes| ==> shapes[j].item !in Below(shapes[i].kids)
  {
    forall i | 0 <= i < |shapes|
      ensures Items(shapes[i]) <= Below(shapes)
      ensures forall j :: 0 <= j < |shapes| ==> shapes[j].item !in Below(shapes[i].kids)
    {
      InBelow(shapes, i);
      RootsNotDeeper(shapes, i);
    }
  }

  /** One more copied child. */
  method Extend(newitem: Item, nptr: Item?, newchild: Item, ghost done: seq<Shape>, ghost shape: Shape,
                ghost kids: seq<Shape>)
    requires Copied(newitem, done, kids) && |done| < |kids| && nptr == At(newitem.kids, |done| - 1)
    requires Built(shape) && Apart(shape) && Value(shape) == Copy(Value(kids[|done|]))
    requires Items(shape) !! Below(done) && newitem !in Items(shape)
    requires shape.item == newchild && newchild.next == null && newchild.prev == null
    modifies newitem`child, newitem`kids, newitem.kids`next, newchild`prev
    ensures Copied(newitem, done + [shape], kids)
  {
    hide Built, Separate, Value, Copy, Below, Items, Item.Chained;
    RootsAreBelow(done);
    BelowExist(done);
    ItemsExist(shape);
    Footprints(done);
    BelowAppend(done, shape);
    SeparateAppend(done, shape);
    ItemIn(shape);
    Attach(newitem, nptr, newchild);
    assert Roots(done + [shape]) == Roots(done) + [newchild];
  }

  /** `cJSON_Duplicate` */
  method Duplicate(item: Item, recurse: bool, ghost s: Shape) returns (newitem: Item, ghost t: Shape)
    requires Built(s) && s.item == item
    ensures t.item == newitem && newitem.next == null && newitem.prev == null
    ensures fresh(Items(t)) && Built(t) && Apart(t)
    ensures Value(t) == if recurse then Copy(Value(s)) else Tree(Copy(Value(s)).data, [])
    decreases s, 2
  {
    ItemsExist(s);
    newitem := new Item(item.data.(kind := Plain(item.data.kind)));
    t := Shape(newitem, newitem.data, []);
    if recurse {
      ghost var done := DuplicateKids(item, newitem, s);
      t := t.(kids := done);
    }
  }

  /** The loop over the children */
  method DuplicateKids(item: Item, newitem: Item, ghost s: Shape) returns (ghost done: seq<Shape>)
    requires Built(s) && s.item == item && newitem !in Items(s)
    requires newitem.Chained() && newitem.kids == []
    modifies newitem`child, newitem`kids
    ensures Copied(newitem, done, s.kids) && |done| == |s.kids| && fresh(Below(done))
    decreases s, 1
  {
    hide Copied, Built, Below, Items, Value, Copy, Item.Chained;
    var cptr, nptr: Item? := item.child, null;
    done := [];
    ItemsExist(s);
    BuiltChild(s);
    NoneCopied(newitem, s.kids);
    while cptr != null
      invariant Built(s) && Copied(newitem, done, s.kids) && fresh(Below(done))
      invariant cptr == At(Roots(s.kids), |done|) && nptr == At(Roots(done), |done| - 1)
      decreases |s.kids| - |done|
    {
      BuiltKid(s, |done|);
      RootsAreBelow(done);
      Kept(newitem, done, s.kids);
      nptr, done := DuplicateKid(cptr, newitem, nptr, done, s);
      cptr := cptr.next;
    }
    Kept(newitem, done, s.kids);
  }

  /** One turn of the loop */
  method DuplicateKid(cptr: Item, newitem: Item, nptr: Item?, ghost done: seq<Shape>, ghost s: Shape)
    returns (newchild: Item, ghost more: seq<Shape>)
    requires Built(s) && newitem !in Items(s) && Below(done) !! Items(s)
    requires Copied(newitem, done, s.kids) && |done| < |s.kids|
    requires cptr == s.kids[|done|].item && nptr == At(Roots(done), |done| - 1)
    modifies newitem`child, newitem`kids, newitem.kids`next
    ensures Built(s) && Copied(newitem, more, s.kids) && |more| == |done| + 1
    ensures newchild == more[|done|].item && forall x :: x in Below(more) ==> x in Below(done) || fresh(x)
    ensures cptr.next == At(Roots(s.kids), |more|)
    decreases s, 0
  {
    hide Copied, Built, Below, Items, Value, Copy, Item.Chained;
    Kept(newitem, done, s.kids);
    BuiltKid(s, |done|);
    BelowExist(done);
    ItemsExist(s);
    RootsAreBelow(done);
    ghost var shape;
    newchild, shape := Duplicate(cptr, true, s.kids[|done|]);
    ItemIn(shape);
    ItemIn(s);
    Extend(newitem, nptr, newchild, done, shape, s.kids);
    BuiltKid(s, |done|);
    BelowAppend(done, shape);
    more := done + [shape];
  }

  lemma ItemIn(s: Shape)
    ensures s.item in Items(s) && Below(s.kids) <= Items(s)
  {
  }

  lemma NoneCopied(newitem: Item, kids: seq<Shape>)
    requires newitem.Chained() && newitem.kids == []
    ensures Copied(newitem, [], kids) && Below([]) == {}
  {
  }

  lemma Kept(newitem: Item, done: seq<Shape>, kids: seq<Shape>)
    requires Copied(newitem, done, kids)
    ensures |done| <= |kids| && newitem.kids == Roots(done)
  {
  }
}
