/** The order of the device age list, as values: when the early-stopping sweep is exact.
    Source: src/dev.c, src/g1.c. */
module Ageing {
  import opened Options
  import opened Sequences

  /** `struct dev`: its identifier and the time it was last heard of. */
  datatype Device = Device(oid: string, ts: int)

  // ----- operations on the list, oldest end first -----

  function Index(devices: seq<Device>, oid: string): (at: nat)
    ensures at <= |devices|
    ensures at < |devices| ==> devices[at].oid == oid
    ensures forall i :: 0 <= i < at ==> devices[i].oid != oid
  {
    if devices == [] || devices[0].oid == oid then 0 else 1 + Index(devices[1..], oid)
  }

  /** `__add_dev` */
  function Add(devices: seq<Device>, oid: string, now: int): seq<Device> {
    if Index(devices, oid) < |devices| then devices else devices + [Device(oid, now)]
  }

  /** `fresh_dev`, on the device that a message names */
  function Refresh(devices: seq<Device>, oid: string, now: int): seq<Device> {
    var at := Index(devices, oid);
    if at < |devices| then Without(devices, at) + [Device(oid, now)] else devices
  }

  /** `upt_dev_attr`: the timestamp alone, the device stays where it is. */
  function Touch(devices: seq<Device>, oid: string, now: int): seq<Device> {
    var at := Index(devices, oid);
    if at < |devices| then devices[at := Device(oid, now)] else devices
  }

  /** `del_dev` */
  function Delete(devices: seq<Device>, oid: string): seq<Device> {
    var at := Index(devices, oid);
    if at < |devices| then Without(devices, at) else devices
  }

  predicate Expired(d: Device, now: int, interval: nat) {
    now - d.ts > interval
  }

  /** The loop of `do_device_ageing`: from the front, up to the first device that is young enough. */
  function Sweep(devices: seq<Device>, now: int, interval: nat): seq<Device> {
    if devices != [] && Expired(devices[0], now, interval) then Sweep(devices[1..], now, interval) else devices
  }

  /** The devices that are young enough. */
  function Young(devices: seq<Device>, now: int, interval: nat): (young: seq<Device>)
    ensures forall d :: d in young <==> d in devices && !Expired(d, now, interval)
  {
    if devices == [] then []
    else (if Expired(devices[0], now, interval) then [] else [devices[0]]) + Young(devices[1..], now, interval)
  }

  // ----- the sweep is exact on sorted lists, and on no others -----

  ghost predicate Sorted(devices: seq<Device>) {
    forall i, j :: 0 <= i < j < |devices| ==> devices[i].ts <= devices[j].ts
  }

  ghost predicate Until(devices: seq<Device>, clock: int) {
    forall i :: 0 <= i < |devices| ==> devices[i].ts <= clock
  }

  ghost predicate Distinct(devices: seq<Device>) {
    forall i, j :: 0 <= i < j < |devices| ==> devices[i].oid != devices[j].oid
  }

  lemma {:induction false} AllYoung(devices: seq<Device>, now: int, interval: nat)
    requires forall i :: 0 <= i < |devices| ==> !Expired(devices[i], now, interval)
    ensures Young(devices, now, interval) == devices
  {
    if devices != [] {
      AllYoung(devices[1..], now, interval);
    }
  }

  lemma {:induction false} SweepIsExact(devices: seq<Device>, now: int, interval: nat)
    requires Sorted(devices)
    ensures Sweep(devices, now, interval) == Young(devices, now, interval)
  {
    if devices == [] {
    } else if Expired(devices[0], now, interval) {
      SweepIsExact(devices[1..], now, interval);
    } else {
      AllYoung(devices, now, interval);
    }
  }

  lemma {:induction false} SweepStops(devices: seq<Device>, now: int, interval: nat, j: nat)
    requires j < |devices| && !Expired(devices[j], now, interval)
    ensures forall d :: d in devices[j..] ==> d in Sweep(devices, now, interval)
  {
    if Expired(devices[0], now, interval) {
      SweepStops(devices[1..], now, interval, j - 1);
      assert devices[1..][j - 1..] == devices[j..];
    }
  }

  /** Up to the clock, the order is exactly what the sweep needs. */
  lemma SweepIsExactIffSorted(devices: seq<Device>, now: int)
    requires Until(devices, now)
    ensures Sorted(devices) <==> forall interval: nat :: Sweep(devices, now, interval) == Young(devices, now, interval)
  {
    if Sorted(devices) {
      forall interval: nat
        ensures Sweep(devices, now, interval) == Young(devices, now, interval)
      {
        SweepIsExact(devices, now, interval);
      }
    } else {
      var i, j :| 0 <= i < j < |devices| && devices[i].ts > devices[j].ts;
      var interval := now - devices[i].ts;
      SweepStops(devices, now, interval, i);
      assert devices[j] == devices[i..][j - i];
      assert devices[j] in Sweep(devices, now, interval);
      assert devices[j] !in Young(devices, now, interval);
    }
  }

  lemma {:induction false} IndexIs(devices: seq<Device>, oid: string, at: nat)
    requires at <= |devices| && forall i :: 0 <= i < at ==> devices[i].oid != oid
    requires at < |devices| ==> devices[at].oid == oid
    ensures Index(devices, oid) == at
  {
  }

  lemma WithoutIndex(devices: seq<Device>, at: nat, oid: string)
    requires Distinct(devices) && at < |devices|
    ensures Distinct(Without(devices, at))
    ensures Index(Without(devices, at), oid) ==
      if oid == devices[at].oid || Index(devices, oid) == |devices| then |devices| - 1
      else if Index(devices, oid) < at then Index(devices, oid) else Index(devices, oid) - 1
    ensures oid != devices[at].oid ==> Index(devices, oid) != at
  {
    var rest := Without(devices, at);
    assert forall i :: 0 <= i < |rest| ==> rest[i] == devices[if i < at then i else i + 1];
    IndexIs(rest, oid,
      if oid == devices[at].oid || Index(devices, oid) == |devices| then |rest|
      else if Index(devices, oid) < at then Index(devices, oid) else Index(devices, oid) - 1);
  }

  // ----- which operations keep the order -----

  /** An attribute update keeps the order exactly when every device further back was heard of just now. */
  lemma TouchKeepsOrder(devices: seq<Device>, oid: string, now: int)
    requires Sorted(devices) && Until(devices, now)
    ensures var at := Index(devices, oid);
      Sorted(Touch(devices, oid, now)) <==> forall j :: at < j < |devices| ==> devices[j].ts == now
  {
    var at := Index(devices, oid);
    var touched := Touch(devices, oid, now);
    if Sorted(touched) {
      forall j | at < j < |devices|
        ensures devices[j].ts == now
      {
        assert touched[at].ts <= touched[j].ts;
      }
    }
  }

  /** Updating the attributes of a device that was not refreshed can break it. */
  lemma TouchCanBreakOrder()
    ensures var devices := [Device("a", 0), Device("b", 5)];
      && Sorted(devices) && !Sorted(Touch(devices, "a", 10))
      && Sweep(Touch(devices, "a", 10), 70, 60) != Young(Touch(devices, "a", 10), 70, 60)
  {
    var devices := [Device("a", 0), Device("b", 5)];
    var touched := Touch(devices, "a", 10);
    assert touched == [Device("a", 10), Device("b", 5)];
    assert touched[0].ts > touched[1].ts;
    assert Device("b", 5) !in Young(touched, 70, 60);
    assert Sweep(touched, 70, 60)[1] == Device("b", 5);
  }

  // ----- whole runs -----

  /** The age list, and `last_sec` of the sweep. */
  datatype Store = Store(devices: seq<Device>, lastSec: int)

  datatype Event =
    | Added(oid: string)
    | Refreshed(oid: string)       // a message arrived
    | Updated(oid: string)         // one attribute in that message
    | Deleted(oid: string)
    | Ticked(interval: nat)

  datatype Timed = Timed(now: int, event: Event)

  /** `do_device_ageing` */
  function Tick(s: Store, now: int, interval: nat): Store {
    if s.lastSec == 0 then s.(lastSec := now)
    else if now - s.lastSec > 60 then Store(Sweep(s.devices, now, interval), now)
    else s
  }

  function Step(s: Store, e: Timed): Store {
    match e.event
    case Added(oid) => s.(devices := Add(s.devices, oid, e.now))
    case Refreshed(oid) => s.(devices := Refresh(s.devices, oid, e.now))
    case Updated(oid) => s.(devices := Touch(s.devices, oid, e.now))
    case Deleted(oid) => s.(devices := Delete(s.devices, oid))
    case Ticked(interval) => Tick(s, e.now, interval)
  }

  function Run(s: Store, run: seq<Timed>): Store
    decreases |run|
  {
    if run == [] then s else Run(Step(s, run[0]), run[1..])
  }

  /** The device whose message is being read after an event. */
  function Reading(e: Event): Option<string> {
    match e
    case Refreshed(oid) => Some(oid)
    case Updated(oid) => Some(oid)
    case _ => None
  }

  /** The clock never goes back, and attributes are updated while their device's message is being read. */
  ghost predicate Legal(run: seq<Timed>, clock: int, reading: Option<string>) {
    run != [] ==>
      && clock <= run[0].now
      && (run[0].event.Updated? ==> reading == Some(run[0].event.oid))
      && Legal(run[1..], run[0].now, Reading(run[0].event))
  }

  function Clock(run: seq<Timed>, clock: int): int {
    if run == [] then clock else run[|run| - 1].now
  }

  /** What every legal run keeps: the order, and the device being read is the last one. */
  ghost predicate Kept(devices: seq<Device>, clock: int, reading: Option<string>) {
    && Sorted(devices) && Until(devices, clock) && Distinct(devices)
    && (reading.Some? && Index(devices, reading.value) < |devices| ==>
          Index(devices, reading.value) == |devices| - 1)
  }

  lemma {:induction false} SweepIsSuffix(devices: seq<Device>, now: int, interval: nat) returns (k: nat)
    ensures k <= |devices| && Sweep(devices, now, interval) == devices[k..]
  {
    if devices != [] && Expired(devices[0], now, interval) {
      var rest := SweepIsSuffix(devices[1..], now, interval);
      k := 1 + rest;
    } else {
      k := 0;
    }
  }

  lemma RemovalKeeps(devices: seq<Device>, at: nat, clock: int)
    requires at < |devices| && Kept(devices, clock, None)
    ensures Kept(Without(devices, at), clock, None)
    ensures forall i :: 0 <= i < |devices| - 1 ==> Without(devices, at)[i].oid != devices[at].oid
  {
    var rest := Without(devices, at);
    assert forall i :: 0 <= i < |rest| ==> rest[i] == devices[if i < at then i else i + 1];
  }

  lemma AppendKeeps(devices: seq<Device>, oid: string, now: int)
    requires Kept(devices, now, None) && forall i :: 0 <= i < |devices| ==> devices[i].oid != oid
    ensures Kept(devices + [Device(oid, now)], now, Some(oid))
  {
  }

  lemma StepKeeps(s: Store, e: Timed, clock: int, reading: Option<string>)
    requires Kept(s.devices, clock, reading) && clock <= e.now
    requires e.event.Updated? ==> reading == Some(e.event.oid)
    ensures Kept(Step(s, e).devices, e.now, Reading(e.event))
  {
    var devices := s.devices;
    assert Kept(devices, e.now, None);
    match e.event
    case Added(oid) =>
      if Index(devices, oid) == |devices| {
        AppendKeeps(devices, oid, e.now);
      }
    case Refreshed(oid) =>
      var at := Index(devices, oid);
      if at < |devices| {
        RemovalKeeps(devices, at, e.now);
        AppendKeeps(Without(devices, at), oid, e.now);
      }
    case Updated(oid) =>
      TouchLast(devices, oid, e.now);
    case Deleted(oid) =>
      var at := Index(devices, oid);
      if at < |devices| {
        RemovalKeeps(devices, at, e.now);
      }
    case Ticked(interval) =>
      var k := SweepIsSuffix(devices, e.now, interval);
  }

  lemma TouchLast(devices: seq<Device>, oid: string, now: int)
    requires Kept(devices, now, Some(oid))
    ensures Kept(Touch(devices, oid, now), now, Some(oid))
  {
  }

  lemma {:induction false} RunKeeps(s: Store, run: seq<Timed>, clock: int, reading: Option<string>)
    requires Kept(s.devices, clock, reading) && Legal(run, clock, reading)
    ensures exists last :: Kept(Run(s, run).devices, Clock(run, clock), last)
    decreases |run|
  {
    if run == [] {
      assert Kept(Run(s, run).devices, Clock(run, clock), reading);
    } else {
      StepKeeps(s, run[0], clock, reading);
      RunKeeps(Step(s, run[0]), run[1..], run[0].now, Reading(run[0].event));
      assert Clock(run, clock) == Clock(run[1..], run[0].now);
      assert Run(s, run) == Run(Step(s, run[0]), run[1..]);
    }
  }

  /** After every run from the empty list, a sweep removes the devices unheard of for longer than the
      interval, and no others. */
  lemma SweepAfterRunIsExact(run: seq<Timed>, lastSec: int, clock: int, now: int, interval: nat)
    requires Legal(run, clock, None) && Clock(run, clock) <= now
    ensures
      var before := Run(Store([], lastSec), run);
      var after := Step(before, Timed(now, Ticked(interval)));
      && Sorted(before.devices) && Distinct(before.devices)
      && after.devices ==
           if before.lastSec != 0 && now - before.lastSec > 60 then Young(before.devices, now, interval)
           else before.devices
  {
    RunKeeps(Store([], lastSec), run, clock, None);
    SweepIsExact(Run(Store([], lastSec), run).devices, now, interval);
  }

  // ----- the list is a record of when each device was last heard of -----

  /** A reference without order: when each device was last heard of, and when the last sweep was. */
  datatype Record = Record(heard: map<string, int>, lastSec: int)

  function Heard(devices: seq<Device>): (heard: map<string, int>) {
    map oid | oid in (set d | d in devices :: d.oid) :: HeardAt(devices, oid)
  }

  function HeardAt(devices: seq<Device>, oid: string): int {
    var at := Index(devices, oid);
    if at < |devices| then devices[at].ts else 0
  }

  function Note(r: Record, e: Timed): Record {
    match e.event
    case Added(oid) => if oid in r.heard then r else r.(heard := r.heard[oid := e.now])
    case Refreshed(oid) => if oid in r.heard then r.(heard := r.heard[oid := e.now]) else r
    case Updated(oid) => if oid in r.heard then r.(heard := r.heard[oid := e.now]) else r
    case Deleted(oid) => r.(heard := r.heard - {oid})
    case Ticked(interval) =>
      if r.lastSec == 0 then r.(lastSec := e.now)
      else if e.now - r.lastSec <= 60 then r
      else Record(map oid | oid in r.heard && e.now - r.heard[oid] <= interval :: r.heard[oid], e.now)
  }

  function Notes(r: Record, run: seq<Timed>): Record
    decreases |run|
  {
    if run == [] then r else Notes(Note(r, run[0]), run[1..])
  }

  lemma HeardIs(devices: seq<Device>, oid: string)
    ensures oid in Heard(devices) <==> Index(devices, oid) < |devices|
    ensures oid in Heard(devices) ==> Heard(devices)[oid] == devices[Index(devices, oid)].ts
  {
    var at := Index(devices, oid);
    assert at < |devices| ==> devices[at] in devices;
  }

  lemma HeardAppend(devices: seq<Device>, d: Device)
    requires Index(devices, d.oid) == |devices|
    ensures Heard(devices + [d]) == Heard(devices)[d.oid := d.ts]
  {
    hide Heard;
    forall oid
      ensures oid in Heard(devices + [d]) <==> oid in Heard(devices) || oid == d.oid
      ensures oid in Heard(devices + [d]) ==> Heard(devices + [d])[oid] == Heard(devices)[d.oid := d.ts][oid]
    {
      var at := Index(devices, oid);
      HeardIs(devices, oid);
      HeardIs(devices + [d], oid);
      IndexIs(devices + [d], oid, if at == |devices| && oid != d.oid then at + 1 else at);
    }
  }

  lemma HeardWithout(devices: seq<Device>, at: nat)
    requires Distinct(devices) && at < |devices|
    ensures Heard(Without(devices, at)) == Heard(devices) - {devices[at].oid}
  {
    hide Heard, Distinct;
    var rest := Without(devices, at);
    forall oid
      ensures oid in Heard(rest) <==> oid in Heard(devices) && oid != devices[at].oid
      ensures oid in Heard(rest) ==> Heard(rest)[oid] == Heard(devices)[oid]
    {
      HeardIs(devices, oid);
      HeardIs(rest, oid);
      WithoutIndex(devices, at, oid);
    }
  }

  lemma HeardTouch(devices: seq<Device>, at: nat, ts: int)
    requires at < |devices| && Index(devices, devices[at].oid) == at
    ensures Heard(devices[at := Device(devices[at].oid, ts)]) == Heard(devices)[devices[at].oid := ts]
  {
    hide Heard;
    var touched := devices[at := Device(devices[at].oid, ts)];
    forall oid
      ensures oid in Heard(touched) <==> oid in Heard(devices)
      ensures oid in Heard(touched) ==> Heard(touched)[oid] == if oid == devices[at].oid then ts else Heard(devices)[oid]
      ensures devices[at].oid in Heard(devices)
    {
      HeardIs(devices, oid);
      HeardIs(devices, devices[at].oid);
      HeardIs(touched, oid);
      IndexIs(touched, oid, Index(devices, oid));
    }
  }

  function Find(devices: seq<Device>, oid: string): Option<Device> {
    var at := Index(devices, oid);
    if at < |devices| then Some(devices[at]) else None
  }

  lemma FindFirst(d: Device, rest: seq<Device>, oid: string)
    ensures Find([d] + rest, oid) == if d.oid == oid then Some(d) else Find(rest, oid)
  {
    assert ([d] + rest)[1..] == rest;
  }

  lemma FoundFirst(devices: seq<Device>, oid: string)
    requires Distinct(devices) && devices != [] && devices[0].oid == oid
    ensures Find(devices[1..], oid) == None
  {
    IndexIs(devices[1..], oid, |devices[1..]|);
  }

  lemma YoungFirst(d: Device, more: seq<Device>, now: int, interval: nat)
    ensures Young([d] + more, now, interval) ==
      if Expired(d, now, interval) then Young(more, now, interval) else [d] + Young(more, now, interval)
  {
    assert ([d] + more)[1..] == more;
    NothingLeft(Young(more, now, interval));
  }

  lemma {:induction false} YoungFind(devices: seq<Device>, now: int, interval: nat, oid: string)
    requires Distinct(devices)
    ensures Find(Young(devices, now, interval), oid) ==
      match Find(devices, oid)
      case Some(d) => if Expired(d, now, interval) then None else Some(d)
      case None => None
  {
    if devices != [] {
      var d, more := devices[0], devices[1..];
      assert [d] + more == devices && Distinct(more);
      hide Find, Index, Young, Distinct;
      YoungFind(more, now, interval, oid);
      if d.oid == oid {
        FoundFirst(devices, oid);
      }
      YoungFirst(d, more, now, interval);
      FindFirst(d, more, oid);
      FindFirst(d, Young(more, now, interval), oid);
    }
  }

  lemma HeardYoung(devices: seq<Device>, now: int, interval: nat)
    requires Distinct(devices)
    ensures Heard(Young(devices, now, interval)) ==
      map oid | oid in Heard(devices) && now - Heard(devices)[oid] <= interval :: Heard(devices)[oid]
  {
    hide Heard, Distinct;
    var young := Young(devices, now, interval);
    forall oid
      ensures oid in Heard(young) <==> oid in Heard(devices) && now - Heard(devices)[oid] <= interval
      ensures oid in Heard(young) ==> Heard(young)[oid] == Heard(devices)[oid]
    {
      HeardIs(devices, oid);
      HeardIs(young, oid);
      YoungFind(devices, now, interval, oid);
    }
  }

  function Recorded(s: Store): Record {
    Record(Heard(s.devices), s.lastSec)
  }

  lemma StepNotes(s: Store, e: Timed, clock: int, reading: Option<string>)
    requires Kept(s.devices, clock, reading)
    ensures Recorded(Step(s, e)) == Note(Recorded(s), e)
  {
    hide Heard;
    var devices := s.devices;
    match e.event
    case Added(oid) =>
      HeardIs(devices, oid);
      if Index(devices, oid) == |devices| {
        HeardAppend(devices, Device(oid, e.now));
      }
    case Refreshed(oid) =>
      var at := Index(devices, oid);
      HeardIs(devices, oid);
      if at < |devices| {
        WithoutIndex(devices, at, oid);
        HeardWithout(devices, at);
        HeardAppend(Without(devices, at), Device(oid, e.now));
        assert (Heard(devices) - {oid})[oid := e.now] == Heard(devices)[oid := e.now];
      }
    case Updated(oid) =>
      HeardIs(devices, oid);
      if Index(devices, oid) < |devices| {
        HeardTouch(devices, Index(devices, oid), e.now);
      }
    case Deleted(oid) =>
      HeardIs(devices, oid);
      if Index(devices, oid) < |devices| {
        HeardWithout(devices, Index(devices, oid));
      } else {
        assert Heard(devices) - {oid} == Heard(devices);
      }
    case Ticked(interval) =>
      SweepIsExact(devices, e.now, interval);
      HeardYoung(devices, e.now, interval);
  }

  /** Over every run the list, with its early-stopping sweeps, is the record that keeps no order and sweeps
      by looking at every device. */
  lemma {:induction false} RunIsRecord(s: Store, run: seq<Timed>, clock: int, reading: Option<string>)
    requires Kept(s.devices, clock, reading) && Legal(run, clock, reading)
    ensures Recorded(Run(s, run)) == Notes(Recorded(s), run)
    decreases |run|
  {
    if run != [] {
      StepKeeps(s, run[0], clock, reading);
      StepNotes(s, run[0], clock, reading);
      RunIsRecord(Step(s, run[0]), run[1..], run[0].now, Reading(run[0].event));
    }
  }
}
