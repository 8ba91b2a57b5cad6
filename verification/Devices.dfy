/** The device model of kernel/device.c: two registries and one bind rule that
    runs from both sides. Bus matching and driver probing are oracles that give
    the same answer every time and register nothing themselves. */
module Devices {
  import opened Counting

  class Bus {
    const name: string

    constructor (name: string)
      ensures this.name == name
    {
      this.name := name;
    }
  }

  class Driver {
    const bus: Bus?
    const name: string

    constructor (bus: Bus?, name: string)
      ensures this.bus == bus && this.name == name
    {
      this.bus, this.name := bus, name;
    }
  }

  class Device {
    const bus: Bus?
    const name: string
    var drv: Driver?

    constructor (bus: Bus?, name: string)
      ensures this.bus == bus && this.name == name && drv == null
    {
      this.bus, this.name, drv := bus, name, null;
    }
  }

  /** The two questions the model asks of buses and drivers. */
  datatype Hooks = Hooks(matches: (Device, Driver) -> bool, probe: (Device, Driver) -> bool)

  predicate Claims(h: Hooks, dev: Device, drv: Driver) {
    dev.bus != null && dev.bus == drv.bus && h.matches(dev, drv) && h.probe(dev, drv)
  }

  /** The first driver of the list that claims `dev`, or null. */
  function First(h: Hooks, dev: Device, drvs: seq<Driver>): Driver? {
    if drvs == [] then null
    else if Claims(h, dev, drvs[0]) then drvs[0]
    else First(h, dev, drvs[1..])
  }

  lemma {:induction false} FirstIsFirst(h: Hooks, dev: Device, drvs: seq<Driver>, i: nat)
    requires i < |drvs| && Claims(h, dev, drvs[i]) && forall j :: 0 <= j < i ==> !Claims(h, dev, drvs[j])
    ensures First(h, dev, drvs) == drvs[i]
  {
    if i > 0 {
      assert !Claims(h, dev, drvs[0]);
      FirstIsFirst(h, dev, drvs[1..], i - 1);
    }
  }

  lemma {:induction false} FirstClaims(h: Hooks, dev: Device, drvs: seq<Driver>)
    ensures var r := First(h, dev, drvs);
            if r == null then forall x :: x in drvs ==> !Claims(h, dev, x) else r in drvs && Claims(h, dev, r)
  {
    if drvs != [] && !Claims(h, dev, drvs[0]) {
      FirstClaims(h, dev, drvs[1..]);
      assert drvs == [drvs[0]] + drvs[1..];
    }
  }

  /** A later driver only gets what no earlier one claims. */
  lemma {:induction false} FirstOfConcat(h: Hooks, dev: Device, a: seq<Driver>, b: seq<Driver>)
    ensures First(h, dev, a + b) == if First(h, dev, a) != null then First(h, dev, a) else First(h, dev, b)
  {
    if a == [] {
      assert a + b == b;
    } else {
      assert (a + b)[1..] == a[1..] + b;
      FirstOfConcat(h, dev, a[1..], b);
    }
  }

  lemma FirstOfOne(h: Hooks, dev: Device, x: Driver)
    ensures First(h, dev, [x]) == if Claims(h, dev, x) then x else null
  {
    assert [x][1..] == [];
  }

  lemma FirstOfAppend(h: Hooks, dev: Device, a: seq<Driver>, x: Driver)
    ensures First(h, dev, a + [x]) ==
      if First(h, dev, a) != null then First(h, dev, a) else if Claims(h, dev, x) then x else null
  {
    FirstOfConcat(h, dev, a, [x]);
    FirstOfOne(h, dev, x);
  }

  function Cut<T>(s: seq<T>, i: nat): seq<T>
    requires i < |s|
  {
    s[..i] + s[i + 1..]
  }

  /** The list without its first `x`. */
  function Dropped<T(==)>(s: seq<T>, x: T): seq<T> {
    if s == [] then [] else if s[0] == x then s[1..] else [s[0]] + Dropped(s[1..], x)
  }

  lemma {:induction false} CutIsDropped<T>(s: seq<T>, i: nat)
    requires i < |s| && s[i] !in s[..i]
    ensures Cut(s, i) == Dropped(s, s[i])
  {
    if i > 0 {
      assert s[0] in s[..i];
      assert s[1..][..i - 1] == s[..i][1..];
      CutIsDropped(s[1..], i - 1);
      assert Cut(s, i) == [s[0]] + Cut(s[1..], i - 1);
    }
  }

  lemma CutDistinct<T>(s: seq<T>, i: nat)
    requires Distinct(s) && i < |s|
    ensures Distinct(Cut(s, i)) && s[i] !in Cut(s, i)
    ensures forall x :: x in Cut(s, i) <==> x in s && x != s[i]
  {
    var t := Cut(s, i);
    assert forall k :: 0 <= k < |t| ==> t[k] == s[if k < i then k else k + 1];
    forall x | x in s && x != s[i]
      ensures x in t
    {
      var k :| 0 <= k < |s| && s[k] == x;
      assert t[if k < i then k else k - 1] == x;
    }
  }

  /** Taking a driver away changes the answer only for the devices it had. */
  lemma FirstOfCut(h: Hooks, dev: Device, drvs: seq<Driver>, i: nat)
    requires Distinct(drvs) && i < |drvs| && First(h, dev, drvs) != drvs[i]
    ensures First(h, dev, Cut(drvs, i)) == First(h, dev, drvs)
  {
    var a, x, b := drvs[..i], drvs[i], drvs[i + 1..];
    assert drvs == a + ([x] + b);
    FirstOfConcat(h, dev, a, [x] + b);
    FirstOfConcat(h, dev, [x], b);
    FirstOfConcat(h, dev, a, b);
    FirstOfOne(h, dev, x);
    FirstClaims(h, dev, a);
  }

  /** How many devices of the list a new driver picks up, given what they had. */
  ghost function PickedUp(h: Hooks, devs: seq<Device>, had: seq<Driver?>, drv: Driver): nat
    requires |had| == |devs|
  {
    if devs == [] then 0
    else
      var n := |devs| - 1;
      PickedUp(h, devs[..n], had[..n], drv) + if had[n] == null && Claims(h, devs[n], drv) then 1 else 0
  }

  datatype Event =
    | AddDevice(dev: Device)
    | RemoveDevice(dev: Device)
    | AddDriver(drv: Driver)
    | RemoveDriver(drv: Driver)

  /** The devices an event may write. */
  ghost function Touched(events: seq<Event>): set<Device> {
    set e | e in events && (e.AddDevice? || e.RemoveDevice?) :: e.dev
  }

  /** What one event makes of the two lists. */
  ghost function DeviceStep(r: seq<Device>, e: Event): seq<Device> {
    match e
    case AddDevice(d) => if d.bus == null || d.name == "" || d in r then r else r + [d]
    case RemoveDevice(d) => if d in r then Dropped(r, d) else r
    case _ => r
  }

  ghost function DriverStep(r: seq<Driver>, e: Event): seq<Driver> {
    match e
    case AddDriver(d) => if d.bus == null || d.name == "" || d in r then r else r + [d]
    case RemoveDriver(d) => if d in r then Dropped(r, d) else r
    case _ => r
  }

  ghost function DevicesAfter(events: seq<Event>): seq<Device> {
    if events == [] then [] else DeviceStep(DevicesAfter(events[..|events| - 1]), events[|events| - 1])
  }

  ghost function DriversAfter(events: seq<Event>): seq<Driver> {
    if events == [] then [] else DriverStep(DriversAfter(events[..|events| - 1]), events[|events| - 1])
  }

  ghost function DriverEvents(events: seq<Event>): seq<Event> {
    if events == [] then []
    else
      var e := events[|events| - 1];
      DriverEvents(events[..|events| - 1]) + if e.AddDriver? || e.RemoveDriver? then [e] else []
  }

  /** What one event makes of the binding `b` of a device. */
  ghost function BoundStep(h: Hooks, devs: seq<Device>, drvs: seq<Driver>, b: Driver?, e: Event, d: Device): Driver? {
    match e
    case AddDevice(x) => if x == d && d in DeviceStep(devs, e) && d !in devs then First(h, d, drvs) else b
    case RemoveDevice(x) => if x == d then null else b
    case AddDriver(x) =>
      if d in devs && b == null && x in DriverStep(drvs, e) && x !in drvs && Claims(h, d, x) then x else b
    case RemoveDriver(x) => if d in devs && b == x && x in drvs then null else b
  }

  /** The driver of a registered device after any history. */
  ghost function Bound(h: Hooks, events: seq<Event>, d: Device): Driver? {
    if events == [] then null
    else
      var pre := events[..|events| - 1];
      BoundStep(h, DevicesAfter(pre), DriversAfter(pre), Bound(h, pre, d), events[|events| - 1], d)
  }

  lemma OneEvent(events: seq<Event>, i: nat)
    requires i < |events|
    ensures DevicesAfter(events[..i + 1]) == DeviceStep(DevicesAfter(events[..i]), events[i])
    ensures DriversAfter(events[..i + 1]) == DriverStep(DriversAfter(events[..i]), events[i])
  {
    hide DeviceStep, DriverStep;
    assert events[..i + 1][..i] == events[..i] && events[..i + 1][i] == events[i];
  }

  lemma BoundOnce(h: Hooks, events: seq<Event>, i: nat, d: Device)
    requires i < |events|
    ensures Bound(h, events[..i + 1], d)
         == BoundStep(h, DevicesAfter(events[..i]), DriversAfter(events[..i]), Bound(h, events[..i], d), events[i], d)
  {
    hide BoundStep;
    assert events[..i + 1][..i] == events[..i] && events[..i + 1][i] == events[i];
  }

  lemma NoEvents(events: seq<Event>)
    ensures DevicesAfter(events[..0]) == [] && DriversAfter(events[..0]) == []
  {
  }

  /** The event takes the driver of some device that another driver claims too. */
  ghost predicate Strands(h: Hooks, devs: seq<Device>, drvs: seq<Driver>, e: Event) {
    e.RemoveDriver? && exists d :: d in devs && First(h, d, drvs) == e.drv && First(h, d, DriverStep(drvs, e)) != null
  }

  ghost predicate NeverStrands(h: Hooks, events: seq<Event>) {
    forall i :: 0 <= i < |events| ==> !Strands(h, DevicesAfter(events[..i]), DriversAfter(events[..i]), events[i])
  }

  /** Where device events fall among the driver events does not change which driver
      is first. */
  lemma Confluent(h: Hooks, es: seq<Event>, fs: seq<Event>, dev: Device)
    requires DriverEvents(es) == DriverEvents(fs)
    ensures First(h, dev, DriversAfter(es)) == First(h, dev, DriversAfter(fs))
  {
    OnlyDriverEvents(es);
    OnlyDriverEvents(fs);
  }

  lemma {:induction false} OnlyDriverEvents(es: seq<Event>)
    ensures DriversAfter(es) == DriversAfter(DriverEvents(es))
  {
    if es != [] {
      var pre, e := es[..|es| - 1], es[|es| - 1];
      OnlyDriverEvents(pre);
      if e.AddDriver? || e.RemoveDriver? {
        assert DriverEvents(es)[..|DriverEvents(es)| - 1] == DriverEvents(pre);
      } else {
        assert DriverEvents(es) == DriverEvents(pre);
      }
    }
  }

  class Registry {
    const hooks: Hooks
    var devs: seq<Device>
    var drvs: seq<Driver>
    var ndevices: nat

    constructor (hooks: Hooks)
      ensures this.hooks == hooks && devs == [] && drvs == [] && Valid() && BoundFirst()
    {
      this.hooks, devs, drvs, ndevices := hooks, [], [], 0;
    }

    ghost predicate Valid()
      reads this
    {
      Distinct(devs) && Distinct(drvs) && ndevices == |devs|
    }

    /** Every device has the first driver, in registration order, that claims it. */
    ghost predicate BoundFirst()
      reads this, devs
    {
      forall d :: d in devs ==> d.drv == First(hooks, d, drvs)
    }

    /** Every binding is to a registered driver that claims the device. */
    ghost predicate Sound()
      reads this, devs
    {
      forall d :: d in devs && d.drv != null ==> d.drv in drvs && Claims(hooks, d, d.drv)
    }

    method TryBind(dev: Device, drv: Driver) returns (won: bool)
      modifies dev
      ensures won <==> old(dev.drv) == null && Claims(hooks, dev, drv)
      ensures dev.drv == if won then drv else old(dev.drv)
    {
      if dev.drv != null || dev.bus != drv.bus || dev.bus == null || !hooks.matches(dev, drv) {
        return false;
      }
      dev.drv := drv;
      if !hooks.probe(dev, drv) {
        dev.drv := null;
        return false;
      }
      return true;
    }

    method Unbind(dev: Device)
      modifies dev
      ensures dev.drv == null
    {
      dev.drv := null;
    }

    method DeviceRegister(dev: Device?) returns (rc: int)
      requires Valid()
      modifies this`devs, this`ndevices, dev
      ensures Valid()
      ensures rc == -1 <==> dev == null || dev.bus == null || dev.name == "" || dev in old(devs)
      ensures rc == -1 ==> devs == old(devs) && (dev != null ==> dev.drv == old(dev.drv))
      ensures rc != -1 ==> devs == old(devs) + [dev] && dev.drv == First(hooks, dev, drvs)
      ensures rc != -1 ==> rc == if dev.drv != null then 1 else 0
    {
      if dev == null || dev.bus == null || dev.name == "" || dev in devs {
        return -1;
      }
      dev.drv := null;
      devs := devs + [dev];
      ndevices := ndevices + 1;
      var i := 0;
      while i < |drvs|
        invariant 0 <= i <= |drvs| && dev.drv == null && First(hooks, dev, drvs[..i]) == null
        modifies dev
      {
        FirstOfConcat(hooks, dev, drvs[..i], drvs[i..]);
        assert drvs == drvs[..i] + drvs[i..];
        var won := TryBind(dev, drvs[i]);
        if won {
          return 1;
        }
        FirstOfAppend(hooks, dev, drvs[..i], drvs[i]);
        assert drvs[..i + 1] == drvs[..i] + [drvs[i]];
        i := i + 1;
      }
      assert drvs[..i] == drvs;
      return 0;
    }

    ghost function Bindings(): (r: seq<Driver?>)
      reads this, devs
      ensures |r| == |devs| && forall i :: 0 <= i < |devs| ==> r[i] == devs[i].drv
    {
      seq(|devs|, i requires 0 <= i < |devs| reads this, devs => devs[i].drv)
    }

    /** Offer every unbound device to a driver. */
    method Offer(drv: Driver) returns (n: nat)
      requires Distinct(devs)
      modifies devs
      ensures n == PickedUp(hooks, devs, old(Bindings()), drv)
      ensures forall d :: d in devs ==>
        d.drv == if old(d.drv) == null && Claims(hooks, d, drv) then drv else old(d.drv)
    {
      hide Claims;
      ghost var had := Bindings();
      n := 0;
      var i := 0;
      while i < |devs|
        invariant 0 <= i <= |devs| && n == PickedUp(hooks, devs[..i], had[..i], drv)
        invariant forall k :: 0 <= k < i ==>
          devs[k].drv == if had[k] == null && Claims(hooks, devs[k], drv) then drv else had[k]
        invariant forall k :: i <= k < |devs| ==> devs[k].drv == had[k]
      {
        var won := TryBind(devs[i], drv);
        assert devs[..i + 1][..i] == devs[..i] && had[..i + 1][..i] == had[..i];
        if won {
          n := n + 1;
        }
        i := i + 1;
      }
      assert devs[..i] == devs && had[..i] == had;
    }

    method DriverRegister(drv: Driver?) returns (rc: int)
      requires Valid()
      modifies this`drvs, devs
      ensures Valid()
      ensures rc == -1 <==> drv == null || drv.bus == null || drv.name == "" || drv in old(drvs)
      ensures rc == -1 ==> drvs == old(drvs) && forall d :: d in devs ==> d.drv == old(d.drv)
      ensures rc != -1 ==> drvs == old(drvs) + [drv] && rc == PickedUp(hooks, devs, old(Bindings()), drv)
      ensures rc != -1 ==> forall d :: d in devs ==>
        d.drv == if old(d.drv) == null && Claims(hooks, d, drv) then drv else old(d.drv)
      ensures old(BoundFirst()) ==> BoundFirst()
    {
      hide Claims;
      if drv == null || drv.bus == null || drv.name == "" || drv in drvs {
        return -1;
      }
      drvs := drvs + [drv];
      assert Bindings() == old(Bindings());
      rc := Offer(drv);
      if old(BoundFirst()) {
        forall d | d in devs
          ensures d.drv == First(hooks, d, drvs)
        {
          FirstOfAppend(hooks, d, old(drvs), drv);
        }
      }
    }

    method DeviceUnregister(dev: Device?)
      requires Valid()
      modifies this`devs, this`ndevices, dev
      ensures Valid()
      ensures dev == null || dev !in old(devs) ==> devs == old(devs) && (dev != null ==> dev.drv == old(dev.drv))
      ensures dev != null && dev in old(devs) ==>
        dev.drv == null && devs == Dropped<Device>(old(devs), dev)
    {
      if dev == null || dev !in devs {
        return;
      }
      Unbind(dev);
      var i := 0;
      while devs[i] != dev
        invariant 0 <= i < |devs| && dev !in devs[..i] && dev in devs
        decreases |devs| - i
      {
        i := i + 1;
      }
      CutDistinct(devs, i);
      CutIsDropped(devs, i);
      devs := Cut(devs, i);
      ndevices := ndevices - 1;
    }

    method DriverUnregister(drv: Driver?)
      requires Valid()
      modifies this`drvs, devs
      ensures Valid()
      ensures drv == null || drv !in old(drvs) ==> drvs == old(drvs) && forall d :: d in devs ==> d.drv == old(d.drv)
      ensures drv != null && drv in old(drvs) ==>
        drvs == Dropped<Driver>(old(drvs), drv)
      ensures drv != null && drv in old(drvs) ==> forall d :: d in devs ==>
        d.drv == if old(d.drv) == drv then null else old(d.drv)
      // the devices it had are not offered to the others
      ensures old(BoundFirst()) ==>
        (BoundFirst() <==>
          forall d :: d in devs && drv in old(drvs) && old(d.drv) == drv ==> First(hooks, d, drvs) == null)
    {
      if drv == null || drv !in drvs {
        return;
      }
      var i := 0;
      while i < |devs|
        invariant 0 <= i <= |devs|
        invariant forall k :: 0 <= k < i ==> devs[k].drv == if old(devs[k].drv) == drv then null else old(devs[k].drv)
        invariant forall k :: i <= k < |devs| ==> devs[k].drv == old(devs[k].drv)
        modifies devs
      {
        if devs[i].drv == drv {
          Unbind(devs[i]);
        }
        i := i + 1;
      }
      i := 0;
      while drvs[i] != drv
        invariant 0 <= i < |drvs| && drv !in drvs[..i] && drv in drvs
        decreases |drvs| - i
        modifies {}
      {
        i := i + 1;
      }
      CutDistinct(drvs, i);
      CutIsDropped(drvs, i);
      drvs := Cut(drvs, i);
      if old(BoundFirst()) {
        forall d | d in devs && old(d.drv) != drv
          ensures d.drv == First(hooks, d, drvs)
        {
          FirstOfCut(hooks, d, old(drvs), i);
        }
      }
    }

    /** Any run of registrations and unregistrations from an empty registry. */
    method Replay(events: seq<Event>)
      requires devs == [] && drvs == [] && Valid()
      modifies this, Touched(events)
      ensures Valid() && devs == DevicesAfter(events) && drvs == DriversAfter(events)
      ensures Sound()
      ensures forall d :: d in devs ==> d.drv == Bound(hooks, events, d)
      ensures NeverStrands(hooks, events) ==> BoundFirst()
      // a driver has only devices of its bus that match and that it accepts; and when
      // nothing is ever stranded, a device goes without one only if there is none
      ensures forall d :: d in devs && d.drv != null ==>
        d.drv in drvs && d.bus == d.drv.bus && hooks.matches(d, d.drv) && hooks.probe(d, d.drv)
      ensures NeverStrands(hooks, events) ==> forall d, x :: d in devs && d.drv == null && x in drvs ==>
        !(d.bus == x.bus && d.bus != null && hooks.matches(d, x) && hooks.probe(d, x))
    {
      Replayed(events);
      Meanings();
    }

    /** What the invariants say about buses, matches and probes. */
    lemma Meanings()
      ensures Sound() ==> forall d :: d in devs && d.drv != null ==>
        d.drv in drvs && d.bus == d.drv.bus && hooks.matches(d, d.drv) && hooks.probe(d, d.drv)
      ensures BoundFirst() ==> forall d, x :: d in devs && d.drv == null && x in drvs ==>
        !(d.bus == x.bus && d.bus != null && hooks.matches(d, x) && hooks.probe(d, x))
    {
      hide First;
      if BoundFirst() {
        forall d, x | d in devs && d.drv == null && x in drvs
          ensures !Claims(hooks, d, x)
        {
          FirstClaims(hooks, d, drvs);
        }
      }
    }

    method Replayed(events: seq<Event>)
      requires devs == [] && drvs == [] && Valid()
      modifies this, Touched(events)
      ensures Valid() && devs == DevicesAfter(events) && drvs == DriversAfter(events)
      ensures Sound()
      ensures forall d :: d in devs ==> d.drv == Bound(hooks, events, d)
      ensures NeverStrands(hooks, events) ==> BoundFirst()
    {
      hide Strands, First, Claims, DevicesAfter, DriversAfter, Bound, BoundStep, DeviceStep, DriverStep;
      var i := 0;
      NoEvents(events);
      while i < |events|
        invariant 0 <= i <= |events| && Valid()
        invariant devs == DevicesAfter(events[..i]) && drvs == DriversAfter(events[..i])
        invariant forall d :: d in devs ==> d in Touched(events)
        invariant Sound()
        invariant forall d :: d in devs ==> d.drv == Bound(hooks, events[..i], d)
        invariant NeverStrands(hooks, events) ==> BoundFirst()
      {
        assert events[i] in events;
        ghost var devs0 := devs;
        label before:
        Handle(events[i]);
        OneEvent(events, i);
        forall d | d in devs
          ensures d.drv == Bound(hooks, events[..i + 1], d)
        {
          BoundOnce(hooks, events, i, d);
          if d in devs0 {
            assert old@before(d.drv) == Bound(hooks, events[..i], d);
          }
        }
        i := i + 1;
      }
      assert events[..i] == events;
    }

    method Handle(e: Event)
      requires Valid() && Sound()
      modifies this, devs, if e.AddDevice? || e.RemoveDevice? then {e.dev} else {}
      ensures Valid() && Sound()
      ensures old(BoundFirst()) ==> (BoundFirst() <==> !Strands(hooks, old(devs), old(drvs), e))
      ensures forall d :: d in devs ==> d in old(devs) || (e.AddDevice? && d == e.dev)
      ensures devs == DeviceStep(old(devs), e) && drvs == DriverStep(old(drvs), e)
      ensures forall d :: d in devs ==>
        if d in old(devs) then d.drv == BoundStep(hooks, old(devs), old(drvs), old(d.drv), e, d)
        else forall b :: d.drv == BoundStep(hooks, old(devs), old(drvs), b, e, d)
    {
      match e
      case AddDevice(d) =>
        var rc := DeviceRegister(d);
        FirstClaims(hooks, d, drvs);
      case RemoveDevice(d) =>
        DeviceUnregister(d);
        DroppedIn(old(devs), d);
      case AddDriver(d) =>
        var rc := DriverRegister(d);
      case RemoveDriver(d) =>
        DriverUnregister(d);
        DroppedIn(old(drvs), d);
    }
  }

  lemma {:induction false} DroppedIn<T>(s: seq<T>, x: T)
    requires Distinct(s)
    ensures forall y :: y in Dropped(s, x) <==> y in s && y != x
  {
    if s != [] {
      assert s == [s[0]] + s[1..];
      DroppedIn(s[1..], x);
    }
  }

  /** Confluence: two histories with the same driver events, in which no driver is
      taken from a device that another one claims, leave the devices they share with
      the same drivers. `mid` is what the devices had after the first. */
  method ReplayBoth(r: Registry, q: Registry, es: seq<Event>, fs: seq<Event>) returns (ghost mid: seq<Driver?>)
    requires r != q && r.hooks == q.hooks && r.devs == [] && r.drvs == []
    requires r.Valid() && q.devs == [] && q.drvs == [] && q.Valid()
    requires DriverEvents(es) == DriverEvents(fs) && NeverStrands(r.hooks, es) && NeverStrands(r.hooks, fs)
    modifies r, q, Touched(es), Touched(fs)
    ensures r.devs == DevicesAfter(es) && q.devs == DevicesAfter(fs) && |mid| == |r.devs|
    ensures forall i :: 0 <= i < |mid| ==> mid[i] == First(r.hooks, r.devs[i], DriversAfter(es))
    ensures forall i :: 0 <= i < |mid| && r.devs[i] in q.devs ==> r.devs[i].drv == mid[i]
  {
    r.Replay(es);
    mid := r.Bindings();
    q.Replay(fs);
    forall i | 0 <= i < |mid| && r.devs[i] in q.devs
      ensures r.devs[i].drv == mid[i]
    {
      Confluent(r.hooks, es, fs, r.devs[i]);
    }
  }

  /** Without that proviso it fails: the same driver calls leave a device that both
      drivers claim with nothing if it comes before the first driver goes, and with
      the second driver if it comes after. */
  method Stranded(hooks: Hooks, dev: Device, a: Driver, b: Driver, late: bool) returns (r: Registry)
    requires a != b && a.name != "" && b.name != "" && dev.name != ""
    requires Claims(hooks, dev, a) && Claims(hooks, dev, b)
    modifies dev
    ensures fresh(r) && r.Valid() && r.drvs == [b] && r.devs == [dev]
    ensures dev.drv == if late then b else null
    ensures r.BoundFirst() <==> late
  {
    r := new Registry(hooks);
    var rc := r.DriverRegister(a);
    rc := r.DriverRegister(b);
    assert r.drvs == [a, b];
    FirstIsFirst(hooks, dev, [a, b], 0);
    FirstIsFirst(hooks, dev, [b], 0);
    if !late {
      rc := r.DeviceRegister(dev);
      assert dev in r.devs;
    }
    r.DriverUnregister(a);
    if late {
      rc := r.DeviceRegister(dev);
    }
    assert dev in r.devs;
  }
}
