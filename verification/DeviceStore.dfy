/** The devices on the heap: a map from identifiers and the age list that runs through the same devices.
    Source: src/dev.c over inc/list.h. */
module DeviceStore {
  import opened Ageing
  import L = List
  import opened Sequences

  type Node = L.Node<Device>

  /** The devices of a list of nodes. */
  ghost function Entries(s: seq<Node>): (devices: seq<Device>)
    reads s
    ensures |devices| == |s|
    ensures forall i :: 0 <= i < |s| ==> devices[i] == s[i].entry
  {
    seq(|s|, i requires 0 <= i < |s| reads s => s[i].entry)
  }

  /** The list holds exactly the devices of the map, each found under its own identifier. */
  ghost predicate Mapped(order: seq<Node>, devices: seq<Device>, devMap: map<string, Node>) {
    && |order| == |devices| && Distinct(devices)
    && forall oid ::
      && (oid in devMap <==> Index(devices, oid) < |devices|)
      && (oid in devMap ==> devMap[oid] == order[Index(devices, oid)])
  }

  lemma LooksUp(order: seq<Node>, devices: seq<Device>, devMap: map<string, Node>, oid: string)
    requires Mapped(order, devices, devMap)
    ensures |order| == |devices|
    ensures oid in devMap <==> Index(devices, oid) < |devices|
    ensures oid in devMap ==> devMap[oid] == order[Index(devices, oid)]
  {
  }

  lemma Entered(order: seq<Node>, devices: seq<Device>, devMap: map<string, Node>, at: nat)
    requires Mapped(order, devices, devMap) && at < |order|
    ensures |order| == |devices| && Index(devices, devices[at].oid) == at
    ensures devices[at].oid in devMap && devMap[devices[at].oid] == order[at]
  {
    IndexIs(devices, devices[at].oid, at);
  }

  lemma AppendMapped(order: seq<Node>, devices: seq<Device>, devMap: map<string, Node>, node: Node, d: Device)
    requires Mapped(order, devices, devMap) && d.oid !in devMap
    ensures Mapped(order + [node], devices + [d], devMap[d.oid := node])
  {
    forall oid
      ensures Index(devices + [d], oid) ==
        if oid in devMap then Index(devices, oid) else if oid == d.oid then |devices| else |devices| + 1
    {
      IndexIs(devices + [d], oid,
        if oid in devMap then Index(devices, oid) else if oid == d.oid then |devices| else |devices| + 1);
    }
  }

  lemma RemoveMapped(order: seq<Node>, devices: seq<Device>, devMap: map<string, Node>, at: nat)
    requires Mapped(order, devices, devMap) && at < |devices|
    ensures Mapped(Without(order, at), Without(devices, at), devMap - {devices[at].oid})
  {
    hide Distinct, Index;
    WithoutIndex(devices, at, devices[at].oid);
    forall oid
      ensures oid in devMap - {devices[at].oid} <==> Index(Without(devices, at), oid) < |devices| - 1
      ensures oid in devMap - {devices[at].oid} ==>
        devMap[oid] == Without(order, at)[Index(Without(devices, at), oid)]
    {
      WithoutIndex(devices, at, oid);
    }
  }

  lemma MoveMapped(order: seq<Node>, devices: seq<Device>, devMap: map<string, Node>, at: nat, ts: int)
    requires Mapped(order, devices, devMap) && at < |order|
    ensures |order| == |devices|
    ensures Mapped(Without(order, at) + [order[at]], Without(devices, at) + [Device(devices[at].oid, ts)], devMap)
  {
    hide Mapped;
    Entered(order, devices, devMap, at);
    var oid := devices[at].oid;
    RemoveMapped(order, devices, devMap, at);
    AppendMapped(Without(order, at), Without(devices, at), devMap - {oid}, order[at], Device(oid, ts));
    assert (devMap - {oid})[oid := order[at]] == devMap;
  }

  lemma UpdateMapped(order: seq<Node>, devices: seq<Device>, devMap: map<string, Node>, at: nat, ts: int)
    requires Mapped(order, devices, devMap) && at < |devices|
    ensures Mapped(order, devices[at := Device(devices[at].oid, ts)], devMap)
  {
    var updated := devices[at := Device(devices[at].oid, ts)];
    forall oid
      ensures Index(updated, oid) == Index(devices, oid)
    {
      IndexIs(updated, oid, Index(devices, oid));
    }
  }

  /** `g_dev_map`, `g_dev_age_head`, and the static `last_sec` of the sweep. */
  class Registry {
    var devMap: map<string, Node>
    const ageHead: Node
    var lastSec: int
    ghost var order: seq<Node>

    ghost predicate Valid()
      reads this, ageHead, order
    {
      L.Ring([ageHead] + order) && Mapped(order, Entries(order), devMap)
    }

    ghost function Contents(): Store
      reads this, order
    {
      Store(Entries(order), lastSec)
    }

    constructor (headEntry: Device)
      ensures Valid() && Contents() == Store([], 0)
    {
      var head := new L.Node<Device>.Head(headEntry);
      ageHead, devMap, lastSec, order := head, map[], 0, [];
      new;
      assert [ageHead] + order == [ageHead];
    }

    /** `__add_dev` */
    method AddDev(oid: string, now: int) returns (dev: L.Node?<Device>)
      requires Valid()
      modifies `devMap, `order, ageHead`prev, ([ageHead] + order)`next
      ensures Valid()
      ensures Contents() == Step(old(Contents()), Timed(now, Added(oid)))
      ensures dev == null <==> oid in old(devMap)
    {
      hide L.Ring, Mapped;
      LooksUp(order, Entries(order), devMap, oid);
      if oid in devMap {
        return null;
      }
      var node := new L.Node<Device>(Device(oid, now));
      dev := node;
      AppendMapped(order, Entries(order), devMap, node, Device(oid, now));
      L.AddTail(node, ageHead, order);
      devMap := devMap[oid := node];
      order := order + [node];
      assert Entries(order) == old(Entries(order)) + [Device(oid, now)];
    }

    /** `fresh_dev`, for a device that `get_dev` found */
    method FreshDev(dev: Node, now: int, ghost at: nat)
      requires Valid() && at < |order| && dev == order[at]
      modifies `order, dev`entry, ([ageHead] + order)`next, ([ageHead] + order)`prev
      ensures Valid()
      ensures Contents() == Step(old(Contents()), Timed(now, Refreshed(old(dev.entry.oid))))
    {
      hide L.Ring, Mapped;
      ghost var was := Entries(order);
      Entered(order, was, devMap, at);
      MoveMapped(order, was, devMap, at, now);
      Alone(at);
      dev.entry := Device(dev.entry.oid, now);
      L.MoveTail(dev, ageHead, order, at);
      order := Without(order, at) + [dev];
      assert Entries(order) == Without(was, at) + [Device(was[at].oid, now)];
    }

    /** The time `upt_dev_attr` leaves in a device; the attributes are no part of the age list. */
    method UpdateDevAttr(dev: Node, now: int, ghost at: nat)
      requires Valid() && at < |order| && dev == order[at]
      modifies dev`entry
      ensures Valid()
      ensures Contents() == Step(old(Contents()), Timed(now, Updated(old(dev.entry.oid))))
    {
      hide Mapped;
      ghost var was := Entries(order);
      Entered(order, was, devMap, at);
      UpdateMapped(order, was, devMap, at, now);
      Alone(at);
      dev.entry := Device(dev.entry.oid, now);
      assert Entries(order) == was[at := Device(was[at].oid, now)];
    }

    /** A node is in the list once. */
    lemma Alone(at: nat)
      requires L.Ring([ageHead] + order) && at < |order|
      ensures forall i :: 0 <= i < |order| && i != at ==> order[i] != order[at]
    {
      var r := [ageHead] + order;
      assert forall i :: 0 <= i < |order| ==> order[i] == r[i + 1];
    }

    /** `__del_dev` */
    method DelDev(dev: Node, ghost at: nat)
      requires Valid() && at < |order| && dev == order[at]
      modifies `order, `devMap, ([ageHead] + order)`next, ([ageHead] + order)`prev
      ensures Valid()
      ensures order == Without(old(order), at) && Entries(order) == Without(old(Entries(order)), at)
      ensures Contents() == Step(old(Contents()), Timed(0, Deleted(old(dev.entry.oid))))
    {
      hide L.Ring, Mapped;
      ghost var was := Entries(order);
      Entered(order, was, devMap, at);
      RemoveMapped(order, was, devMap, at);
      L.Del(dev, ageHead, order, at);
      devMap := devMap - {dev.entry.oid};
      order := Without(order, at);
      assert Entries(order) == Without(was, at);
    }

    static lemma SweepFirst(devices: seq<Device>, now: int, interval: nat)
      requires devices != [] && Expired(devices[0], now, interval)
      ensures Sweep(Without(devices, 0), now, interval) == Sweep(devices, now, interval)
    {
      assert Without(devices, 0) == devices[1..];
    }

    /** The loop of `do_device_ageing` */
    method SweepAgeList(now: int, interval: nat)
      requires Valid()
      modifies `order, `devMap, ([ageHead] + order)`next, ([ageHead] + order)`prev
      ensures Valid()
      ensures Entries(order) == Sweep(old(Entries(order)), now, interval)
    {
      hide L.Ring, Mapped, Index, Delete, Sweep;
      ghost var swept, k := Sweep(Entries(order), now, interval), 0;
      ghost var ring := [ageHead] + order;
      Neighbours();
      var pos, next := ageHead.next, ageHead.next.next;
      while pos != ageHead
        invariant Valid()
        invariant pos == First(0) && next == First(1)
        invariant Sweep(Entries(order), now, interval) == swept
        invariant k <= |old(order)| && order == old(order)[k..]
        decreases |order|
      {
        var dev := pos;
        if now - dev.entry.ts <= interval {
          break;
        }
        assert forall i :: 0 <= i < 1 + |order| ==> ([ageHead] + order)[i] == ring[if i == 0 then 0 else i + k];
        SweepFirst(Entries(order), now, interval);
        DelDev(dev, 0);
        k := k + 1;
        Neighbours();
        pos, next := next, next.next;
      }
      Neighbours();
      SweepStops(Entries(order), now, interval);
    }

    static lemma SweepStops(devices: seq<Device>, now: int, interval: nat)
      requires devices == [] || !Expired(devices[0], now, interval)
      ensures Sweep(devices, now, interval) == devices
    {
    }

    /** `do_device_ageing` */
    method DoDeviceAgeing(now: int, interval: nat)
      requires Valid()
      modifies `order, `devMap, `lastSec, ([ageHead] + order)`next, ([ageHead] + order)`prev
      ensures Valid()
      ensures Contents() == Step(old(Contents()), Timed(now, Ticked(interval)))
    {
      hide L.Ring, Mapped, Sweep;
      if lastSec == 0 {
        lastSec := now;
      } else if now - lastSec > 60 {
        SweepAgeList(now, interval);
        lastSec := now;
      }
    }

    /** The node at a place in the list, and the head past its end. */
    ghost function First(i: nat): Node
      reads this
    {
      if i < |order| then order[i] else ageHead
    }

    lemma Neighbours()
      requires Valid()
      ensures ageHead.next == First(0) && First(0).next == if order == [] then First(0) else First(1)
      ensures First(0) == ageHead <==> order == []
    {
      var r := [ageHead] + order;
      assert ageHead == r[0];
      assert order != [] ==> order[0] == r[1] && r[1].next == r[L.Succ(1, |r|)];
    }
  }
}
