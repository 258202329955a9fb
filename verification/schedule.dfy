/** The membership transfers of `World`: opening a closed device and
    closing an open one. Both look the device up by exact (case-sensitive)
    MAC string equality and move only the first match in set order. */
module ScheduleOps {
  import opened Wrappers
  import opened OrderedSets
  import opened Types

  const MacNotFound: ErrorKind := RequestError("mac not found")

  /** `d` is the first device of `s`, in set order, whose MAC is `mac`. */
  ghost predicate FirstWithMac(s: DeviceSet, mac: string, d: Device)
  {
    && d in s && d.mac == mac
    && forall x :: x in s && x.mac == mac && x != d ==> DeviceLt(d, x)
  }

  /** `e` is the first entry of `s`, in set order, whose device has MAC `mac`. */
  ghost predicate FirstEntryWithMac(s: EntrySet, mac: string, e: DeviceEntry)
  {
    && e in s && e.item.mac == mac
    && forall x :: x in s && x.item.mac == mac && x != e ==> EntryLt(e, x)
  }

  /** The guest entry, the override entry and the unknown devices agree. */
  ghost predicate SameOverlays(w: World, w': World)
  {
    && w'.schedule.guestEntry == w.schedule.guestEntry
    && w'.schedule.overrideEntry == w.schedule.overrideEntry
    && w'.unknownDevices == w.unknownDevices
  }

  /** `World::default`: guest path closed for good, no override, and no
      device of any kind. */
  function DefaultWorld(): (w: World)
    ensures w.schedule.guestEntry == ScheduleEntry(GuestPath.Closed, None)
    ensures w.schedule.overrideEntry == None
    ensures Tracked(w) == {} && w.unknownDevices == []
    ensures Partitioned(w) && MacsDistinct(w)
  {
    World(Schedule(ScheduleEntry(GuestPath.Closed, None), None, []), [], [])
  }

  /** `World::open_device`. */
  function OpenDevice(w: World, mac: string, timeBound: Option<Time>): (r: Result<World>)
    ensures r.Err? <==> forall d :: d in w.closedDevices ==> d.mac != mac
    ensures r.Err? ==> r.error == MacNotFound
    ensures r.Ok? ==> exists dev :: FirstWithMac(w.closedDevices, mac, dev) && MovedToOpen(w, r.value, dev, timeBound)
  {
    var hasMac := (d: Device) => d.mac == mac;
    match FindFirst(w.closedDevices, hasMac)
    case None => Err(MacNotFound)
    case Some(dev) =>
      FindFirstIsLeast(DeviceLt, w.closedDevices, hasMac);
      var entry := ScheduleEntry(dev, timeBound);
      var w' := w.(closedDevices := RemoveDevice(w.closedDevices, dev),
                   schedule := w.schedule.(openDeviceEntries := InsertEntry(w.schedule.openDeviceEntries, entry)));
      assert MovedToOpen(w, w', dev, timeBound);
      Ok(w')
  }

  /** `w'` is `w` with `dev` moved from the closed devices to a new open
      entry bounded by `timeBound`. */
  ghost predicate MovedToOpen(w: World, w': World, dev: Device, timeBound: Option<Time>)
  {
    && Elems(w'.closedDevices) == Elems(w.closedDevices) - {dev}
    && Elems(w'.schedule.openDeviceEntries) == Elems(w.schedule.openDeviceEntries) + {ScheduleEntry(dev, timeBound)}
    && SameOverlays(w, w')
  }

  /** `World::close_device`. */
  function CloseDevice(w: World, mac: string): (r: Result<World>)
    ensures r.Err? <==> forall e :: e in w.schedule.openDeviceEntries ==> e.item.mac != mac
    ensures r.Err? ==> r.error == MacNotFound
    ensures r.Ok? ==> exists e :: FirstEntryWithMac(w.schedule.openDeviceEntries, mac, e) && MovedToClosed(w, r.value, e)
  {
    var hasMac := (e: DeviceEntry) => e.item.mac == mac;
    match FindFirst(w.schedule.openDeviceEntries, hasMac)
    case None => Err(MacNotFound)
    case Some(entry) =>
      FindFirstIsLeast(EntryLt, w.schedule.openDeviceEntries, hasMac);
      var w' := w.(closedDevices := InsertDevice(w.closedDevices, entry.item),
                   schedule := w.schedule.(openDeviceEntries := RemoveEntry(w.schedule.openDeviceEntries, entry)));
      assert MovedToClosed(w, w', entry);
      Ok(w')
  }

  /** `w'` is `w` with the open entry `e` removed and its device, without
      the time bound, added to the closed devices. */
  ghost predicate MovedToClosed(w: World, w': World, e: DeviceEntry)
  {
    && Elems(w'.closedDevices) == Elems(w.closedDevices) + {e.item}
    && Elems(w'.schedule.openDeviceEntries) == Elems(w.schedule.openDeviceEntries) - {e}
    && SameOverlays(w, w')
  }

  /** Opening only moves a device between the two collections: the set of
      tracked devices stays the same. */
  lemma OpenDeviceKeepsTracked(w: World, mac: string, timeBound: Option<Time>)
    requires OpenDevice(w, mac, timeBound).Ok?
    ensures Tracked(OpenDevice(w, mac, timeBound).value) == Tracked(w)
  {
    var w' := OpenDevice(w, mac, timeBound).value;
    var dev :| FirstWithMac(w.closedDevices, mac, dev) && MovedToOpen(w, w', dev, timeBound);
    assert OpenItems(w') == OpenItems(w) + {dev} by {
      assert forall e :: e in w'.schedule.openDeviceEntries <==> e in w.schedule.openDeviceEntries || e == ScheduleEntry(dev, timeBound) by {
        assert forall e :: e in w'.schedule.openDeviceEntries <==> e in Elems(w'.schedule.openDeviceEntries);
      }
    }
    assert dev in Elems(w.closedDevices);
  }

  /** Closing only moves a device between the two collections. */
  lemma CloseDeviceKeepsTracked(w: World, mac: string)
    requires CloseDevice(w, mac).Ok?
    ensures Tracked(CloseDevice(w, mac).value) == Tracked(w)
  {
    var w' := CloseDevice(w, mac).value;
    var e :| FirstEntryWithMac(w.schedule.openDeviceEntries, mac, e) && MovedToClosed(w, w', e);
    assert forall x :: x in w'.schedule.openDeviceEntries <==> x in w.schedule.openDeviceEntries && x != e by {
      assert forall x :: x in w'.schedule.openDeviceEntries <==> x in Elems(w'.schedule.openDeviceEntries);
    }
    assert e.item in OpenItems(w);
  }

  /** Opening keeps every tracked device in exactly one place. */
  lemma OpenDevicePreservesPartition(w: World, mac: string, timeBound: Option<Time>)
    requires Partitioned(w)
    requires OpenDevice(w, mac, timeBound).Ok?
    ensures Partitioned(OpenDevice(w, mac, timeBound).value)
  {
    var w' := OpenDevice(w, mac, timeBound).value;
    var dev :| FirstWithMac(w.closedDevices, mac, dev) && MovedToOpen(w, w', dev, timeBound);
    var entry := ScheduleEntry(dev, timeBound);
    assert forall e :: e in w'.schedule.openDeviceEntries <==> e in w.schedule.openDeviceEntries || e == entry by {
      assert forall e :: e in w'.schedule.openDeviceEntries <==> e in Elems(w'.schedule.openDeviceEntries);
    }
    assert dev in Elems(w.closedDevices);
    assert dev !in OpenItems(w);
  }

  /** Closing keeps every tracked device in exactly one place. */
  lemma CloseDevicePreservesPartition(w: World, mac: string)
    requires Partitioned(w)
    requires CloseDevice(w, mac).Ok?
    ensures Partitioned(CloseDevice(w, mac).value)
  {
    var w' := CloseDevice(w, mac).value;
    var e :| FirstEntryWithMac(w.schedule.openDeviceEntries, mac, e) && MovedToClosed(w, w', e);
    assert forall x :: x in w'.schedule.openDeviceEntries <==> x in w.schedule.openDeviceEntries && x != e by {
      assert forall x :: x in w'.schedule.openDeviceEntries <==> x in Elems(w'.schedule.openDeviceEntries);
    }
    assert e.item !in OpenItems(w') by {
      forall x | x in w'.schedule.openDeviceEntries ensures x.item != e.item {
        assert x in w.schedule.openDeviceEntries && x != e;
      }
    }
    assert e.item in OpenItems(w);
  }

  /** With distinct MACs, closing right after a successful open gives back
      the original world. */
  lemma OpenThenCloseRestores(w: World, mac: string, timeBound: Option<Time>)
    requires Partitioned(w) && MacsDistinct(w)
    requires OpenDevice(w, mac, timeBound).Ok?
    ensures CloseDevice(OpenDevice(w, mac, timeBound).value, mac) == Ok(w)
  {
    var w1 := OpenDevice(w, mac, timeBound).value;
    var dev :| FirstWithMac(w.closedDevices, mac, dev) && MovedToOpen(w, w1, dev, timeBound);
    assert ScheduleEntry(dev, timeBound) in Elems(w1.schedule.openDeviceEntries);
    var r := CloseDevice(w1, mac);
    assert r.Ok?;
    var e :| FirstEntryWithMac(w1.schedule.openDeviceEntries, mac, e) && MovedToClosed(w1, r.value, e);
    ClosingOpenedRestores(w, w1, r.value, mac, dev, timeBound, e);
  }

  /** A world the Rust types allow in which two devices share the MAC
      "X": device "b" is closed and device "a" is open. */
  function SharedMacWorld(): World
  {
    World(Schedule(ScheduleEntry(GuestPath.Closed, None), None, [ScheduleEntry(Device("a", "X"), None)]),
          [Device("b", "X")], [])
  }

  /** That world is well formed (no device both open and closed), yet two
      of its devices share a MAC. */
  lemma SharedMacWorldIsPartitioned()
    ensures Partitioned(SharedMacWorld()) && !MacsDistinct(SharedMacWorld())
  {
    var w := SharedMacWorld();
    assert Device("a", "X") in Tracked(w) && Device("b", "X") in Tracked(w);
  }

  /** Without distinct MACs the round trip fails: opening "X" moves the
      closed device "b", but closing "X" then picks the first open entry with
      that MAC, device "a", which was open all along. */
  lemma SharedMacBreaksRoundTrip()
    ensures OpenDevice(SharedMacWorld(), "X", None).Ok?
    ensures CloseDevice(OpenDevice(SharedMacWorld(), "X", None).value, "X").Ok?
    ensures CloseDevice(OpenDevice(SharedMacWorld(), "X", None).value, "X").value != SharedMacWorld()
  {
    var w := SharedMacWorld();
    var a, b := Device("a", "X"), Device("b", "X");
    var ea, eb := ScheduleEntry(a, None), ScheduleEntry(b, None);
    assert Strings.Less("a", "b") && !Strings.Less("b", "a");
    var w1 := OpenDevice(w, "X", None).value;
    var dev :| FirstWithMac(w.closedDevices, "X", dev) && MovedToOpen(w, w1, dev, None);
    assert dev == b;
    assert ea in Elems(w1.schedule.openDeviceEntries) && eb in Elems(w1.schedule.openDeviceEntries);
    assert !EntryLt(eb, ea);
    var w2 := CloseDevice(w1, "X");
    assert w2.Ok?;
    var e :| FirstEntryWithMac(w1.schedule.openDeviceEntries, "X", e) && MovedToClosed(w1, w2.value, e);
    assert e == ea;
    assert a in Elems(w2.value.closedDevices) && a !in Elems(w.closedDevices);
  }

  /** The set-level core of `OpenThenCloseRestores`. */
  lemma ClosingOpenedRestores(w: World, w1: World, w2: World, mac: string, dev: Device,
                              timeBound: Option<Time>, e: DeviceEntry)
    requires Partitioned(w) && MacsDistinct(w)
    requires FirstWithMac(w.closedDevices, mac, dev) && MovedToOpen(w, w1, dev, timeBound)
    requires FirstEntryWithMac(w1.schedule.openDeviceEntries, mac, e) && MovedToClosed(w1, w2, e)
    ensures w2 == w
  {
    var entry := ScheduleEntry(dev, timeBound);
    assert e == entry by {
      ClosedMacNotOpen(w, dev);
      assert e in Elems(w1.schedule.openDeviceEntries);
    }
    assert entry !in Elems(w.schedule.openDeviceEntries) by {
      assert dev !in OpenItems(w);
    }
    assert Elems(w2.schedule.openDeviceEntries) == Elems(w.schedule.openDeviceEntries);
    assert Elems(w2.closedDevices) == Elems(w.closedDevices);
    SameEntrySet(w2.schedule.openDeviceEntries, w.schedule.openDeviceEntries);
    SameDeviceSet(w2.closedDevices, w.closedDevices);
  }

  /** With distinct MACs, re-opening a device just closed, with the bound it
      had, gives back the original world. */
  lemma CloseThenOpenRestores(w: World, mac: string)
    requires Partitioned(w) && MacsDistinct(w)
    requires CloseDevice(w, mac).Ok?
    ensures exists e :: e in w.schedule.openDeviceEntries && e.item.mac == mac
                        && OpenDevice(CloseDevice(w, mac).value, mac, e.timeBound) == Ok(w)
  {
    var w1 := CloseDevice(w, mac).value;
    var e :| FirstEntryWithMac(w.schedule.openDeviceEntries, mac, e) && MovedToClosed(w, w1, e);
    assert e.item in Elems(w1.closedDevices);
    var r := OpenDevice(w1, mac, e.timeBound);
    assert r.Ok?;
    var d :| FirstWithMac(w1.closedDevices, mac, d) && MovedToOpen(w1, r.value, d, e.timeBound);
    OpeningClosedRestores(w, w1, r.value, mac, e, d);
  }

  /** The set-level core of `CloseThenOpenRestores`. */
  lemma OpeningClosedRestores(w: World, w1: World, w2: World, mac: string, e: DeviceEntry, d: Device)
    requires Partitioned(w) && MacsDistinct(w)
    requires FirstEntryWithMac(w.schedule.openDeviceEntries, mac, e) && MovedToClosed(w, w1, e)
    requires FirstWithMac(w1.closedDevices, mac, d) && MovedToOpen(w1, w2, d, e.timeBound)
    ensures w2 == w
  {
    var dev := e.item;
    assert d == dev by {
      OpenMacNotClosed(w, e);
      assert d in Elems(w1.closedDevices);
    }
    assert dev !in Elems(w.closedDevices) by {
      assert dev in OpenItems(w);
    }
    assert Elems(w2.schedule.openDeviceEntries) == Elems(w.schedule.openDeviceEntries);
    assert Elems(w2.closedDevices) == Elems(w.closedDevices);
    SameEntrySet(w2.schedule.openDeviceEntries, w.schedule.openDeviceEntries);
    SameDeviceSet(w2.closedDevices, w.closedDevices);
  }

  /** With distinct MACs, no open entry shares the MAC of a closed device. */
  lemma ClosedMacNotOpen(w: World, dev: Device)
    requires Partitioned(w) && MacsDistinct(w) && dev in w.closedDevices
    ensures forall x :: x in w.schedule.openDeviceEntries ==> x.item.mac != dev.mac
  {
    forall x | x in w.schedule.openDeviceEntries ensures x.item.mac != dev.mac {
      assert x.item in OpenItems(w) && dev in Elems(w.closedDevices);
      assert x.item != dev;
      assert x.item in Tracked(w) && dev in Tracked(w);
    }
  }

  /** With distinct MACs, no closed device shares the MAC of an open entry. */
  lemma OpenMacNotClosed(w: World, e: DeviceEntry)
    requires Partitioned(w) && MacsDistinct(w) && e in w.schedule.openDeviceEntries
    ensures forall x :: x in w.closedDevices ==> x.mac != e.item.mac
  {
    forall x | x in w.closedDevices ensures x.mac != e.item.mac {
      assert x in Elems(w.closedDevices) && e.item in OpenItems(w);
      assert x != e.item;
      assert x in Tracked(w) && e.item in Tracked(w);
    }
  }
}
