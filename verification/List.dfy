/** Circular doubly linked lists with a head node, relinked in place.
    Source: inc/list.h. */
module List {
  import opened Sequences

  /** A list node and the structure around it: `container_of` is `entry`. */
  class Node<T> {
    var next: Node?<T>
    var prev: Node?<T>
    var entry: T

    /** `INIT_LIST_NODE` */
    constructor (entry: T)
      ensures next == null && prev == null && this.entry == entry
    {
      this.entry, next, prev := entry, null, null;
    }

    /** `INIT_LIST_HEAD` for a list that lives as long as the program; the head's entry is never used. */
    constructor Head(entry: T)
      ensures Ring([this])
    {
      this.entry := entry;
      new;
      next, prev := this, this;
    }
  }

  ghost function Succ(i: nat, n: nat): nat {
    if i + 1 == n then 0 else i + 1
  }

  ghost function Pred(i: nat, n: nat): int {
    if i == 0 then n - 1 else i - 1
  }

  /** The nodes of a ring in order, head first: distinct, `next` leads round forwards and `prev` backwards. */
  ghost predicate Ring<T>(r: seq<Node<T>>)
    reads r`next, r`prev
  {
    && |r| > 0
    && (forall i, j :: 0 <= i < j < |r| ==> r[i] != r[j])
    && (forall i {:trigger r[i].next} :: 0 <= i < |r| ==> r[i].next == r[Succ(i, |r|)])
    && (forall i {:trigger r[i].prev} :: 0 <= i < |r| ==> r[i].prev == r[Pred(i, |r|)])
  }

  ghost function Inserted<T>(r: seq<Node<T>>, at: nat, s: seq<Node<T>>): (q: seq<Node<T>>)
    requires at <= |r|
  {
    r[..at] + s + r[at..]
  }

  lemma InsertedAt<T>(r: seq<Node<T>>, at: nat, s: seq<Node<T>>, k: nat)
    requires at <= |r| && k < |r| + |s|
    ensures |Inserted(r, at, s)| == |r| + |s|
    ensures Inserted(r, at, s)[k] == if k < at then r[k] else if k < at + |s| then s[k - at] else r[k - |s|]
  {
  }

  lemma WithoutAt<T>(r: seq<Node<T>>, at: nat, k: nat)
    requires at < |r| && k < |r| - 1
    ensures |Without(r, at)| == |r| - 1
    ensures Without(r, at)[k] == r[if k < at then k else k + 1]
  {
  }

  /** A chain of nodes between two neighbours of a ring makes a longer ring. */
  lemma InsertedRing<T>(r: seq<Node<T>>, at: nat, s: seq<Node<T>>)
    requires 0 < at <= |r| && |s| > 0
    requires forall i, j :: 0 <= i < j < |r| ==> r[i] != r[j]
    requires forall i, j :: 0 <= i < j < |s| ==> s[i] != s[j]
    requires forall i, j :: 0 <= i < |r| && 0 <= j < |s| ==> r[i] != s[j]
    requires forall i {:trigger r[i].next} :: 0 <= i < |r| ==>
      r[i].next == if i == at - 1 then s[0] else r[Succ(i, |r|)]
    requires forall i {:trigger r[i].prev} :: 0 <= i < |r| ==>
      r[i].prev == if i == Succ(at - 1, |r|) then s[|s| - 1] else r[Pred(i, |r|)]
    requires forall i {:trigger s[i].next} :: 0 <= i < |s| ==>
      s[i].next == if i == |s| - 1 then r[Succ(at - 1, |r|)] else s[i + 1]
    requires forall i {:trigger s[i].prev} :: 0 <= i < |s| ==>
      s[i].prev == if i == 0 then r[at - 1] else s[i - 1]
    ensures Ring(Inserted(r, at, s))
  {
    var q := Inserted(r, at, s);
    forall i, j | 0 <= i < j < |q|
      ensures q[i] != q[j]
    {
      InsertedAt(r, at, s, i);
      InsertedAt(r, at, s, j);
    }
    forall i | 0 <= i < |q|
      ensures q[i].next == q[Succ(i, |q|)]
      ensures q[i].prev == q[Pred(i, |q|)]
    {
      InsertedAt(r, at, s, i);
      InsertedAt(r, at, s, Succ(i, |q|));
      InsertedAt(r, at, s, Pred(i, |q|));
    }
  }

  /** The neighbours of a node that leads nowhere close up to a shorter ring. */
  lemma WithoutRing<T>(r: seq<Node<T>>, at: nat)
    requires 0 < at < |r|
    requires forall i, j :: 0 <= i < j < |r| ==> r[i] != r[j]
    requires forall i {:trigger r[i].next} :: 0 <= i < |r| && i != at ==>
      r[i].next == r[if i == at - 1 then Succ(at, |r|) else Succ(i, |r|)]
    requires forall i {:trigger r[i].prev} :: 0 <= i < |r| && i != at ==>
      r[i].prev == r[if i == Succ(at, |r|) then at - 1 else Pred(i, |r|)]
    ensures Ring(Without(r, at)) && r[at] !in Without(r, at)
  {
    var q := Without(r, at);
    forall i, j | 0 <= i < j < |q|
      ensures q[i] != q[j]
    {
      WithoutAt(r, at, i);
      WithoutAt(r, at, j);
    }
    forall i | 0 <= i < |q|
      ensures q[i].next == q[Succ(i, |q|)]
      ensures q[i].prev == q[Pred(i, |q|)]
    {
      WithoutAt(r, at, i);
      WithoutAt(r, at, Succ(i, |q|));
      WithoutAt(r, at, Pred(i, |q|));
    }
  }

  /** `__list_add` */
  method Link<T>(node: Node<T>, prev: Node<T>, next: Node<T>, ghost r: seq<Node<T>>, ghost at: nat)
    requires Ring(r) && node !in r
    requires 0 < at <= |r| && prev == r[at - 1] && next == r[Succ(at - 1, |r|)]
    modifies node`next, node`prev, prev`next, next`prev
    ensures Ring(Inserted(r, at, [node]))
  {
    next.prev := node;
    node.next := next;
    node.prev := prev;
    prev.next := node;
    InsertedRing(r, at, [node]);
  }

  /** `list_add` */
  method Add<T>(node: Node<T>, head: Node<T>, ghost s: seq<Node<T>>)
    requires Ring([head] + s) && node != head && node !in s
    modifies node`next, node`prev, head`next, ([head] + s)`prev
    ensures Ring([head] + ([node] + s))
  {
    ghost var r := [head] + s;
    assert head == r[0] && head.next == r[Succ(0, |r|)];
    Link(node, head, head.next, r, 1);
    assert Inserted(r, 1, [node]) == [head] + ([node] + s);
  }

  /** `list_add_tail` */
  method AddTail<T>(node: Node<T>, head: Node<T>, ghost s: seq<Node<T>>)
    requires Ring([head] + s) && node != head && node !in s
    modifies node`next, node`prev, head`prev, ([head] + s)`next
    ensures Ring([head] + (s + [node]))
  {
    ghost var r := [head] + s;
    assert head == r[0] && head.prev == r[|r| - 1];
    Link(node, head.prev, head, r, |r|);
    assert Inserted(r, |r|, [node]) == [head] + (s + [node]);
  }

  /** `__list_del_entry`: the entry leaves the ring with its own links untouched. */
  method Unlink<T>(node: Node<T>, ghost r: seq<Node<T>>, ghost at: nat)
    requires Ring(r) && 0 < at < |r| && node == r[at]
    modifies r`next, r`prev
    ensures Ring(Without(r, at)) && node !in Without(r, at)
  {
    var prev, next := node.prev, node.next;
    next.prev := prev;
    prev.next := next;
    WithoutRing(r, at);
  }

  /** `list_del` */
  method Del<T>(node: Node<T>, head: Node<T>, ghost s: seq<Node<T>>, ghost at: nat)
    requires Ring([head] + s) && at < |s| && node == s[at]
    modifies ([head] + s)`next, ([head] + s)`prev
    ensures Ring([head] + Without(s, at))
    ensures node.next == null && node.prev == null
  {
    ghost var r := [head] + s;
    Unlink(node, r, at + 1);
    assert Without(r, at + 1) == [head] + Without(s, at);
    node.next, node.prev := null, null;
  }

  /** `list_move_tail` */
  method MoveTail<T>(node: Node<T>, head: Node<T>, ghost s: seq<Node<T>>, ghost at: nat)
    requires Ring([head] + s) && at < |s| && node == s[at]
    modifies ([head] + s)`next, ([head] + s)`prev
    ensures Ring([head] + (Without(s, at) + [node]))
  {
    ghost var r := [head] + s;
    Unlink(node, r, at + 1);
    assert Without(r, at + 1) == [head] + Without(s, at);
    assert node in r && head in r && forall n :: n in Without(s, at) ==> n in r;
    AddTail(node, head, Without(s, at));
  }

  /** `__list_splice` of a list that is not empty */
  method Join<T>(list: Node<T>, prev: Node<T>, next: Node<T>,
                 ghost t: seq<Node<T>>, ghost r: seq<Node<T>>, ghost at: nat)
    requires Ring([list] + t) && |t| > 0
    requires Ring(r) && list !in r && forall n :: n in t ==> n !in r
    requires 0 < at <= |r| && prev == r[at - 1] && next == r[Succ(at - 1, |r|)]
    modifies t`next, t`prev, prev`next, next`prev
    ensures Ring(Inserted(r, at, t))
  {
    hide Inserted;
    ghost var l := [list] + t;
    assert forall i :: 0 <= i < |t| ==> l[i + 1] == t[i];
    assert l[0] == list;
    var first, last := list.next, list.prev;
    assert first == t[0] && last == t[|t| - 1];
    first.prev := prev;
    prev.next := first;
    last.next := next;
    next.prev := last;
    assert forall i, j :: 0 <= i < |r| && 0 <= j < |t| ==> r[i] != t[j] by {
      assert forall j :: 0 <= j < |t| ==> t[j] in t;
    }
    InsertedRing(r, at, t);
  }

  /** `list_empty` */
  method Empty<T>(head: Node<T>, ghost s: seq<Node<T>>) returns (empty: bool)
    requires Ring([head] + s)
    ensures empty <==> s == []
  {
    assert head == ([head] + s)[0] && ([head] + s)[0].next == ([head] + s)[Succ(0, |s| + 1)];
    empty := head.next == head;
  }

  /** `INIT_LIST_HEAD` */
  method InitHead<T>(list: Node<T>)
    modifies list`next, list`prev
    ensures Ring([list])
  {
    list.next, list.prev := list, list;
  }

  lemma HeadLinks<T>(head: Node<T>, s: seq<Node<T>>)
    requires Ring([head] + s)
    ensures var r := [head] + s;
      head.next == r[Succ(0, |r|)] && head.prev == r[|r| - 1] && head !in s
  {
    var r := [head] + s;
    assert head == r[0];
    assert forall i :: 0 <= i < |s| ==> s[i] == r[i + 1];
  }

  /** `list_splice_init` */
  method SpliceInit<T>(list: Node<T>, head: Node<T>, ghost t: seq<Node<T>>, ghost s: seq<Node<T>>)
    requires Ring([list] + t) && Ring([head] + s)
    requires list != head && list !in s && head !in t && forall n :: n in t ==> n !in s
    modifies list`next, list`prev, t`next, t`prev, ([head] + s)`next, ([head] + s)`prev
    ensures Ring([list]) && Ring([head] + (t + s))
  {
    hide Ring;
    ghost var r := [head] + s;
    HeadLinks(list, t);
    HeadLinks(head, s);
    assert head in r && head.next in r && head.prev in r;
    var empty := Empty(list, t);
    if empty {
      assert [list] + t == [list] && t + s == s;
    } else {
      Join(list, head, head.next, t, r, 1);
      assert Inserted(r, 1, t) == [head] + (t + s);
      ghost var q := [head] + (t + s);
      assert list !in q;
      InitHead(list);
    }
  }

  /** `list_splice_tail_init` */
  method SpliceTailInit<T>(list: Node<T>, head: Node<T>, ghost t: seq<Node<T>>, ghost s: seq<Node<T>>)
    requires Ring([list] + t) && Ring([head] + s)
    requires list != head && list !in s && head !in t && forall n :: n in t ==> n !in s
    modifies list`next, list`prev, t`next, t`prev, ([head] + s)`next, ([head] + s)`prev
    ensures Ring([list]) && Ring([head] + (s + t))
  {
    hide Ring;
    ghost var r := [head] + s;
    HeadLinks(list, t);
    HeadLinks(head, s);
    assert head in r && head.next in r && head.prev in r;
    var empty := Empty(list, t);
    if empty {
      assert [list] + t == [list] && s + t == s;
    } else {
      Join(list, head.prev, head, t, r, |r|);
      assert Inserted(r, |r|, t) == [head] + (s + t);
      ghost var q := [head] + (s + t);
      assert list !in q;
      InitHead(list);
    }
  }
}
