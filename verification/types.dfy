/** The access-state records of the gateway: devices, time-bounded schedule
    entries, the guest path and the global override, the `World` that holds
    them and the persisted `Config`. Rust's derived `Ord` on a struct is
    lexicographic over its fields in declaration order; `Option` orders
    `None` before any `Some`. */
module Types {
  import opened Wrappers
  import Strings
  import opened OrderedSets

  /** A `DateTime<Utc>`, as whole nanoseconds since the epoch. */
  type Time = int

  /** A device is identified by its whole value: two records with the same
      MAC but different names are different devices. */
  datatype Device = Device(name: string, mac: string)

  /** A schedule entry reverts when `timeBound` passes; `None` means it is
      permanent. */
  datatype ScheduleEntry<T> = ScheduleEntry(item: T, timeBound: Option<Time>)

  datatype DeviceOverride = Open | Closed

  datatype GuestPath = Open | Closed

  type DeviceEntry = ScheduleEntry<Device>

  /** Derived `Ord` of `Device`: by name, then by MAC. */
  predicate DeviceLt(a: Device, b: Device)
  {
    Strings.Less(a.name, b.name) || (a.name == b.name && Strings.Less(a.mac, b.mac))
  }

  /** Derived `Ord` of `Option<DateTime>`: `None` first, then by time. */
  predicate TimeBoundLt(a: Option<Time>, b: Option<Time>)
  {
    match (a, b)
    case (None, Some(_)) => true
    case (Some(x), Some(y)) => x < y
    case _ => false
  }

  /** Derived `Ord` of `ScheduleEntry<Device>`: by item, then by time bound. */
  predicate EntryLt(a: DeviceEntry, b: DeviceEntry)
  {
    DeviceLt(a.item, b.item) || (a.item == b.item && TimeBoundLt(a.timeBound, b.timeBound))
  }

  lemma DeviceLtIsStrictTotal()
    ensures StrictTotalOrder(DeviceLt)
  {
    forall x: Device ensures !DeviceLt(x, x) {
      Strings.LessIrreflexive(x.name);
      Strings.LessIrreflexive(x.mac);
    }
    forall x: Device, y: Device, z: Device | DeviceLt(x, y) && DeviceLt(y, z)
      ensures DeviceLt(x, z)
    {
      if x.name == y.name && y.name == z.name {
        Strings.LessIrreflexive(x.name);
        Strings.LessTransitive(x.mac, y.mac, z.mac);
      } else if x.name != y.name && y.name != z.name {
        Strings.LessTransitive(x.name, y.name, z.name);
      }
    }
    forall x: Device, y: Device | x != y ensures DeviceLt(x, y) || DeviceLt(y, x) {
      if x.name != y.name {
        Strings.LessTotal(x.name, y.name);
      } else {
        Strings.LessTotal(x.mac, y.mac);
      }
    }
  }

  lemma EntryLtIsStrictTotal()
    ensures StrictTotalOrder(EntryLt)
  {
    DeviceLtIsStrictTotal();
    forall x: DeviceEntry, y: DeviceEntry | x != y ensures EntryLt(x, y) || EntryLt(y, x) {
      if x.item == y.item {
        assert x.timeBound != y.timeBound;
      }
    }
  }

  /** A `BTreeSet<Device>`: strictly increasing in device order. */
  type DeviceSet = s: seq<Device> | Sorted(DeviceLt, s) witness []

  /** A `BTreeSet<ScheduleEntry<Device>>`: strictly increasing in entry order. */
  type EntrySet = s: seq<DeviceEntry> | Sorted(EntryLt, s) witness []

  /** The guest entry is always present; the override entry is optional. */
  datatype Schedule = Schedule(
    guestEntry: ScheduleEntry<GuestPath>,
    overrideEntry: Option<ScheduleEntry<DeviceOverride>>,
    openDeviceEntries: EntrySet)

  datatype World = World(
    schedule: Schedule,
    closedDevices: DeviceSet,
    unknownDevices: DeviceSet)

  datatype Config = Config(
    exitInterfaces: set<string>,
    stateFile: string,
    dhcpLeaseFile: string,
    knownDevices: DeviceSet)

  /** The devices that have an open schedule entry. */
  function OpenItems(w: World): set<Device>
  {
    set e | e in w.schedule.openDeviceEntries :: e.item
  }

  /** The devices the world tracks: closed ones and those with an open entry. */
  function Tracked(w: World): set<Device>
  {
    Elems(w.closedDevices) + OpenItems(w)
  }

  /** Every tracked device is either closed or has exactly one open entry. */
  ghost predicate Partitioned(w: World)
  {
    && Elems(w.closedDevices) !! OpenItems(w)
    && forall e1, e2 ::
         e1 in w.schedule.openDeviceEntries && e2 in w.schedule.openDeviceEntries && e1.item == e2.item
         ==> e1 == e2
  }

  /** No two distinct tracked devices share a MAC string. */
  ghost predicate MacsDistinct(w: World)
  {
    forall a, b :: a in Tracked(w) && b in Tracked(w) && a.mac == b.mac ==> a == b
  }

  /** `BTreeSet<Device>::insert`. */
  function InsertDevice(s: DeviceSet, d: Device): (r: DeviceSet)
    ensures Elems(r) == Elems(s) + {d}
    ensures d !in s ==> |r| == |s| + 1
  {
    DeviceLtIsStrictTotal();
    Insert(DeviceLt, s, d)
  }

  /** Inserts the devices of `xs` one after another. */
  function InsertDevices(s: DeviceSet, xs: seq<Device>): (r: DeviceSet)
    ensures Elems(r) == Elems(s) + Elems(xs)
  {
    DeviceLtIsStrictTotal();
    InsertAll(DeviceLt, s, xs)
  }

  /** `BTreeSet<Device>::remove`. */
  function RemoveDevice(s: DeviceSet, d: Device): (r: DeviceSet)
    ensures Elems(r) == Elems(s) - {d}
  {
    FilterDevices(s, x => x != d)
  }

  /** Keeps the devices satisfying `p`, in order. */
  function FilterDevices(s: DeviceSet, p: Device -> bool): (r: DeviceSet)
    ensures forall x :: x in r <==> x in s && p(x)
  {
    FilterSorted(DeviceLt, s, p);
    Filter(s, p)
  }

  /** `BTreeSet<ScheduleEntry<Device>>::insert`. */
  function InsertEntry(s: EntrySet, e: DeviceEntry): (r: EntrySet)
    ensures Elems(r) == Elems(s) + {e}
  {
    EntryLtIsStrictTotal();
    Insert(EntryLt, s, e)
  }

  /** `BTreeSet<ScheduleEntry<Device>>::remove`. */
  function RemoveEntry(s: EntrySet, e: DeviceEntry): (r: EntrySet)
    ensures Elems(r) == Elems(s) - {e}
  {
    FilterEntries(s, x => x != e)
  }

  /** Keeps the entries satisfying `p`, in order. */
  function FilterEntries(s: EntrySet, p: DeviceEntry -> bool): (r: EntrySet)
    ensures forall x :: x in r <==> x in s && p(x)
  {
    FilterSorted(EntryLt, s, p);
    Filter(s, p)
  }

  /** Two device sets with the same members are the same value. */
  lemma SameDeviceSet(a: DeviceSet, b: DeviceSet)
    requires Elems(a) == Elems(b)
    ensures a == b
  {
    DeviceLtIsStrictTotal();
    SortedUnique(DeviceLt, a, b);
  }

  /** Two entry sets with the same members are the same value. */
  lemma SameEntrySet(a: EntrySet, b: EntrySet)
    requires Elems(a) == Elems(b)
    ensures a == b
  {
    EntryLtIsStrictTotal();
    SortedUnique(EntryLt, a, b);
  }

  /** Set membership is by whole value: inserting two devices that share a
      MAC but differ in name keeps both. */
  lemma SameMacDifferentNamesBothKept(s: DeviceSet, a: Device, b: Device)
    requires a.mac == b.mac && a.name != b.name
    requires a !in s && b !in s
    ensures var r := InsertDevice(InsertDevice(s, a), b);
      a in r && b in r && |r| == |s| + 2
  {
    var s1 := InsertDevice(s, a);
    assert a in Elems(s1);
    assert b !in Elems(s1);
    var r := InsertDevice(s1, b);
    assert a in Elems(r) && b in Elems(r);
  }

  /** The same device with and without a time bound gives two distinct
      entries, and the unbounded one comes first in iteration order. */
  lemma BoundedAndUnboundedEntriesBothKept(d: Device, t: Time)
    ensures var unbounded := ScheduleEntry(d, None);
      var bounded := ScheduleEntry(d, Some(t));
      InsertEntry(InsertEntry([], bounded), unbounded) == [unbounded, bounded]
  {
    var unbounded := ScheduleEntry(d, None);
    var bounded := ScheduleEntry(d, Some(t));
    DeviceLtIsStrictTotal();
    EntryLtIsStrictTotal();
    assert EntryLt(unbounded, bounded);
    var r := InsertEntry(InsertEntry([], bounded), unbounded);
    assert Elems(r) == Elems([unbounded, bounded]);
    SameEntrySet(r, [unbounded, bounded]);
  }
}
