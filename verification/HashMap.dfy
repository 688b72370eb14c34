/** The chained hash table and the sentinel lists that carry its buckets.
    Source: lib/hash_map.c, lib/linked_list.c. */
module HashMap {
  import opened Options

  /** One entry: the number of its key's class (see `Keys`), and its value. */
  type Entry<V> = (int, V)

  /** Comparator and hash function. Two keys are equal exactly when they are in the same class, and the
      hash of a key depends on its class only and is in range. */
  datatype Keys<!K(!new)> = Keys(
    cmp: (K, K) -> int, hash: (K, nat) -> nat, ghost id: K -> int, ghost slot: (int, nat) -> nat)
  {
    ghost predicate Consistent()
    {
      && (forall a: K, b: K {:trigger cmp(a, b)} :: cmp(a, b) == 0 <==> id(a) == id(b))
      && (forall a: K, n: nat {:trigger hash(a, n)} :: n > 0 ==> hash(a, n) == slot(id(a), n) < n)
    }
  }

  /** How a removal ends: with the key removed or not there, or at a look through a null pointer. */
  datatype Removal = Done(removed: bool) | Fault

  class Node<K(!new), V> {
    var key: K
    var value: V
    var next: Node?<K, V>

    constructor (key: K, value: V, next: Node?<K, V>)
      ensures this.key == key && this.value == value && this.next == next
    {
      this.key, this.value, this.next := key, value, next;
    }
  }

  ghost function At<K(!new), V>(nodes: seq<Node<K, V>>, i: int): Node?<K, V> {
    if 0 <= i < |nodes| then nodes[i] else null
  }

  /** A list that starts at a sentinel. */
  class LinkedList<K(0,!new), V(0)> {
    var head: Node<K, V>
    var size: nat
    ghost var nodes: seq<Node<K, V>>
    ghost const id: K -> int
    ghost var Repr: set<object>

    ghost predicate Valid()
      reads this, Repr
    {
      && this in Repr && head in Repr && (forall i :: 0 <= i < |nodes| ==> nodes[i] in Repr)
      && size == |nodes|
      && head !in nodes && (forall i, j :: 0 <= i < j < |nodes| ==> nodes[i] != nodes[j])
      && head.next == At(nodes, 0)
      && (forall i {:trigger nodes[i].next} :: 0 <= i < |nodes| ==> nodes[i].next == At(nodes, i + 1))
    }

    /** The entries in order. */
    ghost function Entries(): seq<Entry<V>>
      reads this, Repr
      requires Valid()
    {
      seq(|nodes|, i requires 0 <= i < |nodes| && Valid() reads this, Repr => (id(nodes[i].key), nodes[i].value))
    }

    /** `linked_list_init` */
    constructor (ghost id: K -> int)
      ensures Valid() && fresh(Repr) && Entries() == [] && this.id == id && nodes == []
    {
      var k: K := *;
      var v: V := *;
      head := new Node(k, v, null);
      size := 0;
      nodes := [];
      this.id := id;
      Repr := {this, head};
    }

    /** `linked_list_prepend` */
    method Prepend(key: K, value: V)
      requires Valid()
      modifies this, head
      ensures Valid() && fresh(Repr - old(Repr)) && old(Repr) <= Repr
      ensures Entries() == [(id(key), value)] + old(Entries())
    {
      var node := new Node(key, value, head.next);
      head.next := node;
      size := size + 1;
      nodes := [node] + nodes;
      Repr := Repr + {node};
    }

    /** `linked_list_append` */
    method Append(key: K, value: V)
      requires Valid()
      modifies `size, `nodes, `Repr, head`next, nodes`next
      ensures Valid() && fresh(Repr - old(Repr)) && old(Repr) <= Repr
      ensures Entries() == old(Entries()) + [(id(key), value)]
    {
      var node := head;
      ghost var at := 0;
      while node.next != null
        invariant 0 <= at <= |nodes| && node == if at == 0 then head else nodes[at - 1]
        decreases |nodes| - at
      {
        node, at := node.next, at + 1;
      }
      var newNode := new Node(key, value, null);
      node.next := newNode;
      size := size + 1;
      nodes := nodes + [newNode];
      Repr := Repr + {newNode};
    }

    lemma EntriesAt(i: nat)
      requires Valid() && i < |nodes|
      ensures Entries()[i] == (id(nodes[i].key), nodes[i].value)
    {
    }

    /** The walk of `hash_map_get`, `hash_map_put` and `hash_map_contains_key` to the first node with
        an equal key. */
    method Find(keys: Keys<K>, key: K) returns (node: Node?<K, V>)
      requires Valid() && keys.Consistent() && keys.id == id
      ensures node == At(nodes, Index(Entries(), id(key)))
    {
      node := head.next;
      ghost var at := 0;
      while node != null
        invariant 0 <= at <= |nodes| && node == At(nodes, at)
        invariant forall j :: 0 <= j < at ==> Entries()[j].0 != id(key)
        decreases |nodes| - at
      {
        EntriesAt(at);
        if keys.cmp(node.key, key) == 0 {
          IndexIs(Entries(), id(key), at);
          return;
        }
        node, at := node.next, at + 1;
      }
      IndexIs(Entries(), id(key), at);
    }

    /** `pair->value = value` */
    method SetValue(node: Node<K, V>, ghost at: nat, value: V)
      requires Valid() && at < |nodes| && node == nodes[at]
      modifies node`value
      ensures Valid() && Repr == old(Repr)
      ensures Entries() == old(Entries())[at := (old(Entries())[at].0, value)]
    {
      node.value := value;
    }

    /** The loop of `hash_map_put`: the first entry of the key's class gets the value, or a new one does. */
    method PutEntry(keys: Keys<K>, key: K, value: V) returns (isNew: bool)
      requires Valid() && keys.Consistent() && keys.id == id
      modifies Repr
      ensures Valid() && fresh(Repr - old(Repr)) && old(Repr) <= Repr
      ensures isNew <==> !HasClass(old(Entries()), id(key))
      ensures Entries() == Stored(old(Entries()), id(key), value)
    {
      var node := Find(keys, key);
      if node != null {
        SetValue(node, Index(Entries(), id(key)), value);
        return false;
      }
      Prepend(key, value);
      return true;
    }

    /** The walk of `hash_map_remove`, which starts at the sentinel and looks at the key of the first node
        before anything else. An empty list has no first node, and the look is a fault. */
    method FindPrevious(keys: Keys<K>, key: K) returns (fault: bool, previous: Node<K, V>, current: Node?<K, V>)
      requires Valid() && keys.Consistent() && keys.id == id
      ensures fault <==> nodes == []
      ensures var at := Index(Entries(), id(key));
        current == At(nodes, at) && (current != null ==> previous == if at == 0 then head else nodes[at - 1])
    {
      previous, current := head, head.next;
      ghost var at := 0;
      while true
        invariant 0 <= at <= |nodes| && (at > 0 ==> at < |nodes|)
        invariant current == At(nodes, at) && previous == if at == 0 then head else nodes[at - 1]
        invariant forall j :: 0 <= j < at ==> Entries()[j].0 != id(key)
        decreases |nodes| - at
      {
        if current == null {
          return true, previous, null;
        }
        EntriesAt(at);
        if keys.cmp(current.key, key) == 0 {
          IndexIs(Entries(), id(key), at);
          return false, previous, current;
        }
        if current.next == null {
          IndexIs(Entries(), id(key), |nodes|);
          return false, previous, null;
        }
        previous, current, at := current, current.next, at + 1;
      }
    }

    /** The rest of `hash_map_remove`: relink and count when a node was found. */
    method Remove(keys: Keys<K>, key: K) returns (r: Removal)
      requires Valid() && keys.Consistent() && keys.id == id
      modifies Repr
      ensures Valid() && Repr == old(Repr)
      ensures r == if old(nodes) == [] then Fault else Done(HasClass(old(Entries()), id(key)))
      ensures r.Fault? ==> unchanged(Repr)
      ensures Entries() == Removed(old(Entries()), id(key))
      ensures nodes == Without(old(nodes), Index(old(Entries()), id(key)))
    {
      var fault, previous, current := FindPrevious(keys, key);
      if fault {
        return Fault;
      }
      if current == null {
        return Done(false);
      }
      Unlink(previous, current, Index(Entries(), id(key)));
      return Done(true);
    }

    /** Relinks past a node and counts down. */
    method Unlink(previous: Node<K, V>, current: Node<K, V>, ghost at: nat)
      requires Valid() && at < |nodes| && current == nodes[at]
      requires previous == if at == 0 then head else nodes[at - 1]
      modifies `size, `nodes, previous`next
      ensures Valid() && Repr == old(Repr) && nodes == Without(old(nodes), at)
      ensures Entries() == Without(old(Entries()), at)
    {
      hide Without;
      ghost var was, entries := nodes, Entries();
      previous.next := current.next;
      size := size - 1;
      nodes := Without(was, at);
      WithoutAt(was, at);
      IndexedWithout(was, at);
      IndexedWithout(entries, at);
      NextSkips(was, at);
      FirstSkips(was, at);
    }

    lemma FirstSkips(was: seq<Node<K, V>>, at: nat)
      requires at < |was| && nodes == Without(was, at)
      requires head.next == if at == 0 then At(was, 1) else was[0]
      ensures head.next == At(nodes, 0)
    {
    }

    lemma NextSkips(was: seq<Node<K, V>>, at: nat)
      requires at < |was| && nodes == Without(was, at)
      requires forall i {:trigger was[i].next} :: 0 <= i < |was| && i != at ==>
        was[i].next == At(was, if i + 1 == at then i + 2 else i + 1)
      ensures forall i {:trigger nodes[i].next} :: 0 <= i < |nodes| ==> nodes[i].next == At(nodes, i + 1)
    {
      WithoutAt(was, at);
      forall i | 0 <= i < |nodes|
        ensures nodes[i].next == At(nodes, i + 1)
      {
        assert nodes[i] == was[if i < at then i else i + 1];
      }
    }
  }

  // ----- entries -----

  ghost function Without<T>(s: seq<T>, at: nat): seq<T> {
    if at < |s| then s[..at] + s[at + 1..] else s
  }

  /** The entries without the first of a class. */
  ghost function Removed<V>(entries: seq<Entry<V>>, c: int): seq<Entry<V>> {
    Without(entries, Index(entries, c))
  }

  lemma RemovedNone<V>(c: int)
    ensures Removed<V>([], c) == [] && !HasClass<V>([], c)
  {
  }

  /** The entries with a value stored under a class: in place of the old one, or in front. */
  ghost function Stored<V>(entries: seq<Entry<V>>, c: int, v: V): seq<Entry<V>> {
    if HasClass(entries, c) then entries[Index(entries, c) := (c, v)] else [(c, v)] + entries
  }

  lemma IndexedWithout<T>(s: seq<T>, at: nat)
    requires at < |s|
    ensures |Without(s, at)| == |s| - 1
    ensures forall i :: 0 <= i < |s| - 1 ==> Without(s, at)[i] == s[if i < at then i else i + 1]
  {
  }

  lemma WithoutAt<K(!new), V>(nodes: seq<Node<K, V>>, at: nat)
    requires at < |nodes|
    ensures forall i {:trigger At(Without(nodes, at), i)} :: -1 <= i < |nodes| ==>
      At(Without(nodes, at), i) == At(nodes, if i < at then i else i + 1)
    ensures forall k :: k in Without(nodes, at) ==> k in nodes
  {
  }

  /** The first entry of a class, or the length when there is none. */
  ghost function Index<V>(entries: seq<Entry<V>>, c: int): (i: nat)
    ensures i <= |entries|
    ensures i < |entries| ==> entries[i].0 == c
    ensures forall j :: 0 <= j < i ==> entries[j].0 != c
  {
    if entries == [] || entries[0].0 == c then 0 else 1 + Index(entries[1..], c)
  }

  lemma IndexIs<V>(entries: seq<Entry<V>>, c: int, i: nat)
    requires i <= |entries| && (i < |entries| ==> entries[i].0 == c)
    requires forall j :: 0 <= j < i ==> entries[j].0 != c
    ensures Index(entries, c) == i
  {
  }

  // ----- the table as a map -----

  ghost predicate Holds<V>(model: map<int, V>, e: Entry<V>) {
    e.0 in model && model[e.0] == e.1
  }

  ghost predicate Distinct<V>(entries: seq<Entry<V>>) {
    forall i, j :: 0 <= i < j < |entries| ==> entries[i].0 != entries[j].0
  }

  ghost predicate HasClass<V>(entries: seq<Entry<V>>, c: int) {
    Index(entries, c) < |entries|
  }

  /** A bucket holds exactly the entries of the map whose classes go there, each once. */
  ghost predicate BucketHolds<V>(
      b: nat, n: nat, entries: seq<Entry<V>>, slot: (int, nat) -> nat, model: map<int, V>)
  {
    && Distinct(entries)
    && (forall i :: 0 <= i < |entries| ==> Holds(model, entries[i]) && slot(entries[i].0, n) == b)
    && (forall c :: c in model && slot(c, n) == b ==> HasClass(entries, c))
  }

  ghost predicate Represents<V>(buckets: seq<seq<Entry<V>>>, slot: (int, nat) -> nat, model: map<int, V>) {
    && (forall b :: 0 <= b < |buckets| ==> BucketHolds(b, |buckets|, buckets[b], slot, model))
    && (forall c :: c in model ==> slot(c, |buckets|) < |buckets|)
  }

  /** Looking in the one bucket of a class is looking in the map. */
  lemma LookupAgrees<V>(buckets: seq<seq<Entry<V>>>, slot: (int, nat) -> nat, model: map<int, V>, c: int)
    requires Represents(buckets, slot, model) && slot(c, |buckets|) < |buckets|
    ensures var bucket := buckets[slot(c, |buckets|)];
      && (HasClass(bucket, c) <==> c in model)
      && (c in model ==> bucket[Index(bucket, c)].1 == model[c])
  {
    assert BucketHolds(slot(c, |buckets|), |buckets|, buckets[slot(c, |buckets|)], slot, model);
  }

  /** A change of one class and of its bucket leaves the other buckets right. */
  lemma Rebucketed<V>(
      buckets: seq<seq<Entry<V>>>, slot: (int, nat) -> nat, model: map<int, V>, c: int,
      bucket: seq<Entry<V>>, model': map<int, V>)
    requires Represents(buckets, slot, model) && slot(c, |buckets|) < |buckets|
    requires model' - {c} == model - {c}
    requires BucketHolds(slot(c, |buckets|), |buckets|, bucket, slot, model')
    ensures Represents(buckets[slot(c, |buckets|) := bucket], slot, model')
  {
    var b := slot(c, |buckets|);
    assert forall k :: k != c ==> (k in model' <==> k in model' - {c}) && (k in model <==> k in model - {c});
    forall a | 0 <= a < |buckets| && a != b
      ensures BucketHolds(a, |buckets|, buckets[a], slot, model')
    {
      assert BucketHolds(a, |buckets|, buckets[a], slot, model);
      forall i | 0 <= i < |buckets[a]|
        ensures Holds(model', buckets[a][i])
      {
        var k := buckets[a][i].0;
        assert Holds(model, buckets[a][i]) && k != c;
        assert (model - {c})[k] == (model' - {c})[k];
      }
    }
  }

  /** A new entry goes to the front of its bucket. */
  lemma PutNew<V>(b: nat, n: nat, entries: seq<Entry<V>>, slot: (int, nat) -> nat, model: map<int, V>, c: int, v: V)
    requires BucketHolds(b, n, entries, slot, model) && slot(c, n) == b && !HasClass(entries, c)
    ensures BucketHolds(b, n, [(c, v)] + entries, slot, model[c := v])
  {
    var new_, model' := [(c, v)] + entries, model[c := v];
    forall i | 0 <= i < |new_|
      ensures Holds(model', new_[i]) && slot(new_[i].0, n) == b && (i > 0 ==> new_[i].0 != c)
    {
      if i > 0 {
        assert new_[i] == entries[i - 1] && Holds(model, entries[i - 1]);
      }
    }
    forall k | k in model' && slot(k, n) == b
      ensures HasClass(new_, k)
    {
      IndexIs(new_, k, if k == c then 0 else Index(entries, k) + 1);
    }
  }

  /** A new value stays at the place of the old one. */
  lemma PutOld<V>(b: nat, n: nat, entries: seq<Entry<V>>, slot: (int, nat) -> nat, model: map<int, V>, c: int, v: V)
    requires BucketHolds(b, n, entries, slot, model) && HasClass(entries, c)
    ensures BucketHolds(b, n, entries[Index(entries, c) := (c, v)], slot, model[c := v])
  {
    var new_, model' := entries[Index(entries, c) := (c, v)], model[c := v];
    forall i | 0 <= i < |new_|
      ensures Holds(model', new_[i]) && slot(new_[i].0, n) == b
    {
      assert Holds(model, entries[i]);
    }
    forall k | k in model' && slot(k, n) == b
      ensures HasClass(new_, k)
    {
      IndexIs(new_, k, Index(entries, k));
    }
  }

  lemma PutAgrees<V>(b: nat, n: nat, entries: seq<Entry<V>>, slot: (int, nat) -> nat, model: map<int, V>, c: int, v: V)
    requires BucketHolds(b, n, entries, slot, model) && slot(c, n) == b
    ensures BucketHolds(b, n, Stored(entries, c, v), slot, model[c := v])
  {
    if HasClass(entries, c) {
      PutOld(b, n, entries, slot, model, c, v);
    } else {
      PutNew(b, n, entries, slot, model, c, v);
    }
  }

  /** The entries that stay when one is taken out. */
  lemma WithoutKeeps<V>(entries: seq<Entry<V>>, c: int)
    ensures var new_, at := Removed(entries, c), Index(entries, c);
      && |new_| == |entries| - (if HasClass(entries, c) then 1 else 0)
      && forall i :: 0 <= i < |new_| ==> new_[i] == entries[if i < at then i else i + 1]
  {
  }

  /** Another class keeps its first entry. */
  lemma OtherClassStays<V>(entries: seq<Entry<V>>, c: int, k: int)
    requires k != c && HasClass(entries, k)
    ensures HasClass(Removed(entries, c), k)
  {
    WithoutKeeps(entries, c);
    var was, at := Index(entries, k), Index(entries, c);
    hide Removed;
    var now := if was < at then was else was - 1;
    assert Removed(entries, c)[now].0 == k;
  }

  /** Removing the entry of a class from its bucket. */
  lemma RemoveAgrees<V>(b: nat, n: nat, entries: seq<Entry<V>>, slot: (int, nat) -> nat, model: map<int, V>, c: int)
    requires BucketHolds(b, n, entries, slot, model) && slot(c, n) == b
    ensures BucketHolds(b, n, Removed(entries, c), slot, model - {c})
  {
    var new_, model', at := Removed(entries, c), model - {c}, Index(entries, c);
    WithoutKeeps(entries, c);
    hide Removed;
    forall i | 0 <= i < |new_|
      ensures Holds(model', new_[i]) && slot(new_[i].0, n) == b
    {
      assert Holds(model, entries[if i < at then i else i + 1]);
    }
    forall k | k in model' && slot(k, n) == b
      ensures HasClass(new_, k)
    {
      OtherClassStays(entries, c, k);
    }
  }

  lemma SizeWithout<V>(model: map<int, V>, c: int)
    ensures |model - {c}| == |model| - if c in model then 1 else 0
  {
    assert (model - {c}).Keys == model.Keys - {c};
    assert |model.Keys| == |model| && |(model - {c}).Keys| == |model - {c}|;
  }

  lemma SizeWith<V>(model: map<int, V>, c: int, v: V)
    ensures |model[c := v]| == |model| + if c in model then 0 else 1
  {
    assert model[c := v].Keys == model.Keys + {c};
    assert |model.Keys| == |model| && |model[c := v].Keys| == |model[c := v]|;
  }

  /** A bucket is empty exactly when no key of the map goes there. */
  lemma EmptyBucketIff<V>(buckets: seq<seq<Entry<V>>>, slot: (int, nat) -> nat, model: map<int, V>, b: nat)
    requires Represents(buckets, slot, model) && b < |buckets|
    ensures buckets[b] == [] <==> forall c :: c in model ==> slot(c, |buckets|) != b
  {
    assert BucketHolds(b, |buckets|, buckets[b], slot, model);
    if buckets[b] != [] {
      var c := buckets[b][0].0;
      assert Holds(model, buckets[b][0]) && c in model && slot(c, |buckets|) == b;
    }
  }

  /** Storing in the bucket of a class is updating the map. */
  lemma PutRepresents<V>(buckets: seq<seq<Entry<V>>>, slot: (int, nat) -> nat, model: map<int, V>, c: int, v: V)
    requires Represents(buckets, slot, model) && slot(c, |buckets|) < |buckets|
    ensures var b := slot(c, |buckets|);
      && Represents(buckets[b := Stored(buckets[b], c, v)], slot, model[c := v])
      && |model[c := v]| == |model| + if HasClass(buckets[b], c) then 0 else 1
  {
    var b := slot(c, |buckets|);
    LookupAgrees(buckets, slot, model, c);
    assert BucketHolds(b, |buckets|, buckets[b], slot, model);
    PutAgrees(b, |buckets|, buckets[b], slot, model, c, v);
    SizeWith(model, c, v);
    hide Represents, BucketHolds, Stored;
    assert model[c := v] - {c} == model - {c};
    Rebucketed(buckets, slot, model, c, Stored(buckets[b], c, v), model[c := v]);
  }

  /** Removing from the bucket of a class is removing from the map. */
  lemma RemoveRepresents<V>(buckets: seq<seq<Entry<V>>>, slot: (int, nat) -> nat, model: map<int, V>, c: int)
    requires Represents(buckets, slot, model) && slot(c, |buckets|) < |buckets|
    ensures var b := slot(c, |buckets|);
      && Represents(buckets[b := Removed(buckets[b], c)], slot, model - {c})
      && (HasClass(buckets[b], c) <==> c in model)
      && |model - {c}| == |model| - if c in model then 1 else 0
  {
    var b := slot(c, |buckets|);
    LookupAgrees(buckets, slot, model, c);
    assert BucketHolds(b, |buckets|, buckets[b], slot, model);
    RemoveAgrees(b, |buckets|, buckets[b], slot, model, c);
    SizeWithout(model, c);
    hide Represents, BucketHolds, Removed, HasClass;
    Rebucketed(buckets, slot, model, c, Removed(buckets[b], c), model - {c});
  }

  /** The parts have nothing in common and are within a whole. */
  ghost predicate Apart(parts: seq<set<object>>, whole: set<object>) {
    && (forall b :: 0 <= b < |parts| ==> parts[b] <= whole)
    && (forall a, b :: 0 <= a < b < |parts| ==> parts[a] !! parts[b])
  }

  lemma PartGrows(parts: seq<set<object>>, whole: set<object>, b: nat, part: set<object>, more: set<object>)
    requires Apart(parts, whole) && b < |parts| && part <= parts[b] + more && more !! whole
    ensures Apart(parts[b := part], whole + more)
  {
  }

  // ----- the table -----

  /** A list made of some objects holds a bucket; without a list there is none of either. */
  ghost predicate ListHolds<K(0,!new), V(0)>(
      list: LinkedList?<K, V>, part: set<object>, bucket: seq<Entry<V>>, id: K -> int)
    reads list, part
  {
    if list == null then bucket == [] && part == {}
    else list.Repr == part && list.Valid() && list.id == id && list.Entries() == bucket
  }

  class HashMap<K(0,!new), V(0)> {
    const table: array<LinkedList?<K, V>>
    const keys: Keys<K>
    var size: nat
    ghost var buckets: seq<seq<Entry<V>>>
    ghost var model: map<int, V>
    ghost var parts: seq<set<object>>    // the objects of each list
    ghost var Repr: set<object>

    /** Slot `b` is made of part `b` and holds bucket `b`. */
    ghost predicate SlotValid(b: nat)
      requires b < table.Length && b < |buckets| && b < |parts|
      reads `buckets, `parts, table, table[b], parts[b]
    {
      ListHolds(table[b], parts[b], buckets[b], keys.id)
    }

    ghost predicate Valid()
      reads this, Repr
      ensures Valid() ==> this in Repr
    {
      && Shaped(table.Length) && Represents(buckets, keys.slot, model) && size == |model|
    }

    /** The heap side of validity, for all slots but one. */
    ghost predicate Shaped(but: nat)
      reads this, Repr
      ensures Shaped(but) ==> this in Repr
    {
      && this in Repr && table in Repr && 0 < table.Length == |buckets| == |parts| && keys.Consistent()
      && Apart(parts, Repr - {this, table})
      && (forall b :: 0 <= b < table.Length ==>
            parts[b] <= Repr - {this, table} && (table[b] != null ==> table[b] in parts[b]))
      && (forall b :: 0 <= b < table.Length && b != but ==> SlotValid(b))
    }

    lemma ListHere(b: nat)
      requires Shaped(table.Length) && b < table.Length && table[b] != null
      ensures var list := table[b];
        && list.Valid() && list.id == keys.id && list.Entries() == buckets[b] && list.Repr == parts[b] <= Repr
        && this !in list.Repr && table !in list.Repr
      ensures forall a :: 0 <= a < table.Length && a != b ==> parts[a] !! parts[b]
    {
      assert SlotValid(b);
    }

    /** The list of a slot has changed, and with it its bucket and the map. */
    ghost method Commit(b: nat, list: LinkedList<K, V>, model': map<int, V>)
      requires b < table.Length && Shaped(b) && table[b] == list
      requires list.Valid() && list.id == keys.id && b < |parts| && list.Repr == parts[b]
      requires Represents(buckets[b := list.Entries()], keys.slot, model') && size == |model'|
      modifies `buckets, `model
      ensures Valid() && model == model' && buckets == old(buckets)[b := list.Entries()]
    {
      buckets, model := buckets[b := list.Entries()], model';
      hide Represents;
      assert SlotValid(b);
      forall a | 0 <= a < table.Length && a != b
        ensures SlotValid(a)
      {
        assert old(SlotValid(a));
      }
    }

    /** `hash_map_init` */
    constructor (capacity: nat, keys: Keys<K>)
      requires capacity > 0 && keys.Consistent()
      ensures Valid() && fresh(Repr) && model == map[] && this.keys == keys
    {
      table := new LinkedList?<K, V>[capacity](_ => null);
      this.keys := keys;
      size := 0;
      buckets := seq(capacity, _ => []);
      parts := seq(capacity, _ => {});
      model := map[];
      new;
      Repr := {this, table};
    }

    /** `hash_map_get` */
    method Get(key: K) returns (r: Option<V>)
      requires Valid()
      ensures r == if keys.id(key) in model then Some(model[keys.id(key)]) else None
    {
      var b := keys.hash(key, table.Length);
      LookupAgrees(buckets, keys.slot, model, keys.id(key));
      assert SlotValid(b);
      var list := table[b];
      if list == null {
        return None;
      }
      var node := list.Find(keys, key);
      return if node == null then None else Some(node.value);
    }

    /** `hash_map_contains_key` */
    method ContainsKey(key: K) returns (r: bool)
      requires Valid()
      ensures r <==> keys.id(key) in model
    {
      var b := keys.hash(key, table.Length);
      LookupAgrees(buckets, keys.slot, model, keys.id(key));
      assert SlotValid(b);
      var list := table[b];
      if list == null {
        return false;
      }
      var node := list.Find(keys, key);
      return node != null;
    }

    /** The list of a slot, made on first use. */
    method ListAt(b: nat) returns (list: LinkedList<K, V>)
      requires Valid() && b < table.Length
      modifies table, `Repr, `parts
      ensures Valid() && fresh(Repr - old(Repr)) && table[b] == list && model == old(model)
    {
      assert SlotValid(b);
      if table[b] != null {
        return table[b];
      }
      hide Represents, Apart, Keys.Consistent;
      list := new LinkedList(keys.id);
      table[b] := list;
      PartGrows(parts, Repr - {this, table}, b, list.Repr, list.Repr);
      Repr, parts := Repr + list.Repr, parts[b := list.Repr];
      assert Repr - {this, table} == old(Repr) - {this, table} + list.Repr;
      assert SlotValid(b);
      forall a | 0 <= a < table.Length && a != b
        ensures SlotValid(a)
      {
        assert old(SlotValid(a));
      }
    }

    /** The heap side of `hash_map_put` on a bucket that has a list. */
    method StoreInList(b: nat, list: LinkedList<K, V>, key: K, value: V)
      requires Shaped(table.Length) && b < table.Length && table[b] == list
      modifies list.Repr, `size, `Repr, `parts
      ensures Shaped(b) && fresh(Repr - old(Repr)) && buckets == old(buckets) && model == old(model)
      ensures list.Valid() && list.id == keys.id && list.Repr == parts[b]
      ensures list.Entries() == Stored(buckets[b], keys.id(key), value)
      ensures size == old(size) + if HasClass(buckets[b], keys.id(key)) then 0 else 1
    {
      ListHere(b);
      hide ListHolds, LinkedList.Valid, LinkedList.Entries, Keys.Consistent, Stored, HasClass, Apart;
      var isNew := list.PutEntry(keys, key, value);
      if isNew {
        size := size + 1;
      }
      forall a | 0 <= a < table.Length && a != b
        ensures SlotValid(a)
      {
        assert old(SlotValid(a));
      }
      GrowPart(b, list);
    }

    /** The list of a slot has got new objects. */
    ghost method GrowPart(b: nat, list: LinkedList<K, V>)
      requires Shaped(b) && b < table.Length && table[b] == list && list in list.Repr
      requires b < |parts| && parts[b] <= list.Repr && list.Repr - parts[b] !! Repr
      modifies `Repr, `parts
      ensures Shaped(b) && Repr == old(Repr) + list.Repr && parts == old(parts)[b := list.Repr]
    {
      hide ListHolds, Apart, Keys.Consistent;
      PartGrows(parts, Repr - {this, table}, b, list.Repr, list.Repr - parts[b]);
      Repr, parts := Repr + list.Repr, parts[b := list.Repr];
      assert Repr - {this, table} == old(Repr) - {this, table} + (list.Repr - old(parts)[b]);
      forall a | 0 <= a < table.Length && a != b
        ensures SlotValid(a)
      {
        assert old(SlotValid(a));
      }
    }

    /** `hash_map_put` when the bucket of the key has a list. */
    method PutInList(key: K, value: V)
      requires Valid() && keys.slot(keys.id(key), table.Length) < table.Length
      requires table[keys.slot(keys.id(key), table.Length)] != null
      modifies Repr
      ensures Valid() && fresh(Repr - old(Repr)) && model == old(model)[keys.id(key) := value]
      ensures table[..] == old(table[..])
    {
      var b := keys.hash(key, table.Length);
      ghost var c := keys.id(key);
      PutRepresents(buckets, keys.slot, model, c, value);
      ListHere(b);
      hide BucketHolds, Represents, Stored, HasClass, Shaped, LinkedList.Valid;
      var list := table[b];
      StoreInList(b, list, key, value);
      Commit(b, list, model[c := value]);
    }

    /** `hash_map_put` */
    method Put(key: K, value: V)
      requires Valid()
      modifies Repr
      ensures Valid() && fresh(Repr - old(Repr)) && model == old(model)[keys.id(key) := value]
      ensures keys.slot(keys.id(key), table.Length) < table.Length
      ensures table[keys.slot(keys.id(key), table.Length)] != null
    {
      var b := keys.hash(key, table.Length);
      var list := ListAt(b);
      PutInList(key, value);
    }

    /** The heap side of `hash_map_remove` on a bucket that has a list. */
    method RemoveFromList(b: nat, list: LinkedList<K, V>, key: K) returns (r: Removal)
      requires Shaped(table.Length) && b < table.Length && table[b] == list
      requires HasClass(buckets[b], keys.id(key)) ==> size > 0
      modifies list.Repr, `size
      ensures Shaped(b) && Repr == old(Repr) && buckets == old(buckets) && model == old(model)
      ensures list.Valid() && list.id == keys.id && b < |parts| && list.Repr == parts[b]
      ensures list.Entries() == Removed(buckets[b], keys.id(key))
      ensures list.nodes == Without(old(list.nodes), Index(buckets[b], keys.id(key)))
      ensures r == if buckets[b] == [] then Fault else Done(HasClass(buckets[b], keys.id(key)))
      ensures size == old(size) - if HasClass(buckets[b], keys.id(key)) then 1 else 0
      ensures list.Repr == old(list.Repr) && (r.Fault? ==> unchanged(list.Repr) && unchanged(`size))
    {
      ListHere(b);
      RemovedNone<V>(keys.id(key));
      hide ListHolds, LinkedList.Valid, LinkedList.Entries, Keys.Consistent, Removed, Without, HasClass, Apart;
      r := list.Remove(keys, key);
      if r == Done(true) {
        size := size - 1;
      }
    }

    /** What a removal leaves when the slot of the key has a list. */
    method RemoveAt(b: nat, list: LinkedList<K, V>, key: K) returns (r: Removal)
      requires Valid() && b < table.Length && table[b] == list && b == keys.slot(keys.id(key), table.Length)
      modifies Repr
      ensures Valid() && Repr == old(Repr) && model == old(model) - {keys.id(key)}
      ensures r == if old(buckets)[b] == [] then Fault else Done(keys.id(key) in old(model))
      ensures r.Fault? ==> unchanged(Repr)
      ensures buckets == old(buckets)[b := Removed(old(buckets)[b], keys.id(key))] && unchanged(table)
      ensures list.nodes == Without(old(list.nodes), Index(old(buckets)[b], keys.id(key)))
    {
      ghost var c := keys.id(key);
      ghost var was, left, model' := buckets, Removed(buckets[b], c), model - {c};
      RemoveRepresents(was, keys.slot, model, c);
      RemovedNone<V>(c);
      ListHere(b);
      assert Represents(was[b := left], keys.slot, model') && (was[b] == [] ==> was[b := left] == was && model' == model);
      ghost var there := HasClass(was[b], c);
      assert |model'| == size - (if there then 1 else 0) && (there <==> c in model);
      hide BucketHolds, Represents, Removed, Without, HasClass, Shaped, SlotValid, Index;
      hide ListHolds, Apart, Keys.Consistent, LinkedList.Valid, LinkedList.Entries;
      r := RemoveFromList(b, list, key);
      assert r == if was[b] == [] then Fault else Done(there);
      if r.Fault? {
        return;
      }
      hide HashMap.Valid;
      assert buckets[b := list.Entries()] == was[b := left];
      Commit(b, list, model');
    }

    /** `hash_map_remove`. It faults exactly when the slot of the key has a list and no key of the map goes
        there, so never for a key that is there; a fault comes before any change. */
    method Remove(key: K) returns (r: Removal)
      requires Valid()
      modifies Repr
      ensures Valid() && Repr == old(Repr) && model == old(model) - {keys.id(key)}
      ensures keys.slot(keys.id(key), table.Length) < table.Length == |old(buckets)|
      ensures table[..] == old(table[..])
      ensures var b := keys.slot(keys.id(key), table.Length);
        && r == (if table[b] != null && old(buckets)[b] == [] then Fault else Done(keys.id(key) in old(model)))
        && buckets == old(buckets)[b := Removed(old(buckets)[b], keys.id(key))]
        && (table[b] != null ==> table[b].nodes == Without(old(table[b].nodes), Index(old(buckets)[b], keys.id(key))))
      ensures r.Fault? <==>
        && table[keys.slot(keys.id(key), table.Length)] != null
        && forall c :: c in old(model) ==> keys.slot(c, table.Length) != keys.slot(keys.id(key), table.Length)
      ensures r.Fault? ==> unchanged(Repr)
      ensures keys.id(key) in old(model) ==> r == Done(true)
    {
      var b := keys.hash(key, table.Length);
      ghost var c := keys.id(key);
      LookupAgrees(buckets, keys.slot, model, c);
      assert SlotValid(b);
      RemovedNone<V>(c);
      EmptyBucketIff(buckets, keys.slot, model, b);
      hide BucketHolds, Represents, Removed, Without, SlotValid, Shaped;
      var list := table[b];
      if list == null {
        assert model - {c} == model && buckets[b := buckets[b]] == buckets;
        return Done(false);
      }
      r := RemoveAt(b, list, key);
    }

    /** One call of the callback of `hash_map_work` on the first entry of a bucket: it removes the
        entry. The next node has been read before. */
    method RemoveFirst(b: nat, list: LinkedList<K, V>, head: Node<K, V>) returns (ghost e: Entry<V>)
      requires Valid() && b < table.Length && table[b] == list && head == At(list.nodes, 0)
      modifies Repr
      ensures Valid() && Repr == old(Repr) && table[..] == old(table[..])
      ensures old(buckets[b]) == [e] + buckets[b] && buckets == old(buckets)[b := buckets[b]]
      ensures old(head.next) == At(list.nodes, 0)
    {
      assert SlotValid(b);
      assert BucketHolds(b, |buckets|, buckets[b], keys.slot, model);
      list.EntriesAt(0);
      e := buckets[b][0];
      IndexIs(buckets[b], e.0, 0);
      hide BucketHolds, Represents, SlotValid, Shaped;
      var r := Remove(head.key);
      assert r == Done(true);
    }

    /** `hash_map_work` with a callback that removes the entry it is called on. */
    method WorkRemoving() returns (ghost visited: seq<Entry<V>>)
      requires Valid()
      modifies Repr
      ensures Valid() && model == map[] && size == 0
      ensures visited == Flatten(old(buckets))
    {
      hide Represents, BucketHolds, Apart, Keys.Consistent;
      visited := [];
      for l := 0 to table.Length
        invariant Valid() && Repr == old(Repr) && |buckets| == |old(buckets)|
        invariant forall a :: 0 <= a < l ==> buckets[a] == []
        invariant forall a :: l <= a < table.Length ==> buckets[a] == old(buckets)[a]
        invariant visited == Flatten(old(buckets)[..l])
      {
        assert SlotValid(l);
        FlattenStep(old(buckets), l);
        var list := table[l];
        if list != null {
          var head := list.head.next;
          while head != null
            invariant Valid() && Repr == old(Repr) && |buckets| == |old(buckets)| && table[l] == list
            invariant head == At(list.nodes, 0)
            invariant forall a :: 0 <= a < l ==> buckets[a] == []
            invariant forall a :: l < a < table.Length ==> buckets[a] == old(buckets)[a]
            invariant visited + buckets[l] == Flatten(old(buckets)[..l + 1])
            decreases |buckets[l]|
          {
            var next := head.next;
            ghost var e := RemoveFirst(l, list, head);
            visited := visited + [e];
            head := next;
          }
          assert SlotValid(l);
        }
      }
      assert old(buckets)[..table.Length] == old(buckets);
      EmptyModel(buckets, keys.slot, model);
    }
  }

  /** In every table, whatever its hash function: a key that is put and removed cannot be removed again. */
  method RemoveTwice<K(0,!new), V(0)>(capacity: nat, keys: Keys<K>, key: K, value: V)
    returns (first: Removal, second: Removal)
    requires capacity > 0 && keys.Consistent()
    ensures first == Done(true) && second == Fault
  {
    var table := new HashMap(capacity, keys);
    table.Put(key, value);
    first := table.Remove(key);
    second := table.Remove(key);
  }

  // ----- visiting -----

  ghost function Flatten<T>(buckets: seq<seq<T>>): seq<T> {
    if buckets == [] then [] else Flatten(buckets[..|buckets| - 1]) + buckets[|buckets| - 1]
  }

  lemma FlattenStep<T>(buckets: seq<seq<T>>, l: nat)
    requires l < |buckets|
    ensures Flatten(buckets[..l + 1]) == Flatten(buckets[..l]) + buckets[l]
  {
    assert buckets[..l + 1][..l] == buckets[..l];
  }

  lemma EmptyModel<V>(buckets: seq<seq<Entry<V>>>, slot: (int, nat) -> nat, model: map<int, V>)
    requires Represents(buckets, slot, model) && forall b :: 0 <= b < |buckets| ==> buckets[b] == []
    ensures model == map[]
  {
    forall c
      ensures c !in model
    {
      if c in model {
        LookupAgrees(buckets, slot, model, c);
        assert false;
      }
    }
  }

  /** The visited entries are those of the map, each class once. */
  lemma {:induction false} FlattenEnumerates<V>(
      buckets: seq<seq<Entry<V>>>, slot: (int, nat) -> nat, model: map<int, V>, n: nat)
    requires Represents(buckets, slot, model) && n <= |buckets|
    ensures Distinct(Flatten(buckets[..n]))
    ensures forall i :: 0 <= i < |Flatten(buckets[..n])| ==>
      Holds(model, Flatten(buckets[..n])[i]) && slot(Flatten(buckets[..n])[i].0, |buckets|) < n
    ensures forall c :: c in model && slot(c, |buckets|) < n ==> HasClass(Flatten(buckets[..n]), c)
    decreases n
  {
    if n > 0 {
      var before, last := Flatten(buckets[..n - 1]), buckets[n - 1];
      FlattenEnumerates(buckets, slot, model, n - 1);
      FlattenStep(buckets, n - 1);
      assert BucketHolds(n - 1, |buckets|, last, slot, model);
      forall c | c in model && slot(c, |buckets|) < n
        ensures HasClass(before + last, c)
      {
        if slot(c, |buckets|) < n - 1 {
          IndexIs(before + last, c, Index(before, c));
        } else {
          assert HasClass(last, c);
          IndexIs(before + last, c, |before| + Index(last, c));
        }
      }
    }
  }
}
