/** `reconcile_config`: brings the world in line with the configured known
    devices and recomputes which DHCP-observed devices are unknown. The
    configuration is authoritative: devices it no longer lists are dropped,
    devices it newly lists start closed. */
module Reconciliation {
  import opened OrderedSets
  import opened Types
  import Strings
  import ScheduleOps

  datatype ReconcileResult = ReconcileResult(updatedWorld: bool)

  /** The upper-cased MACs of the devices a world tracks. */
  function KnownMacs(w: World): set<string>
  {
    set d | d in Tracked(w) :: Strings.ToUpper(d.mac)
  }

  /** A DHCP-observed device is unknown when no tracked device has the same
      MAC up to letter case. */
  ghost predicate IsUnknownIn(w: World, d: Device)
  {
    forall k :: k in Tracked(w) ==> Strings.ToUpper(k.mac) != Strings.ToUpper(d.mac)
  }

  function ReconcileConfig(config: Config, dhcpDevs: DeviceSet, w: World): (r: (ReconcileResult, World))
    ensures r.0.updatedWorld <==> Elems(config.knownDevices) != Tracked(w)
    ensures Elems(r.1.closedDevices)
         == (Elems(w.closedDevices) * Elems(config.knownDevices)) + (Elems(config.knownDevices) - Tracked(w))
    ensures forall e :: e in r.1.schedule.openDeviceEntries
                    <==> e in w.schedule.openDeviceEntries && e.item in config.knownDevices
    ensures r.1.schedule.guestEntry == w.schedule.guestEntry
    ensures r.1.schedule.overrideEntry == w.schedule.overrideEntry
    ensures forall d :: d in r.1.unknownDevices <==> d in dhcpDevs && IsUnknownIn(r.1, d)
  {
    var configSet := Elems(config.knownDevices);
    var worldSet := Tracked(w);
    var closed := FilterDevices(w.closedDevices, d => d in configSet);
    var open := FilterEntries(w.schedule.openDeviceEntries, (e: DeviceEntry) => e.item in configSet);
    var newDevices := Filter(config.knownDevices, d => d !in worldSet);
    var w1 := w.(closedDevices := InsertDevices(closed, newDevices),
                 schedule := w.schedule.(openDeviceEntries := open));
    var knownSet := KnownMacs(w1);
    var unknown := FilterDevices(dhcpDevs, (d: Device) => Strings.ToUpper(d.mac) !in knownSet);
    assert forall d: Device :: Strings.ToUpper(d.mac) !in knownSet <==> IsUnknownIn(w1, d);
    (ReconcileResult(configSet != worldSet), w1.(unknownDevices := unknown))
  }

  /** After reconciliation the world tracks exactly the configured devices. */
  lemma ReconcileTracksConfig(config: Config, dhcpDevs: DeviceSet, w: World)
    ensures Tracked(ReconcileConfig(config, dhcpDevs, w).1) == Elems(config.knownDevices)
  {
    var w' := ReconcileConfig(config, dhcpDevs, w).1;
    var c := Elems(config.knownDevices);
    assert OpenItems(w') == OpenItems(w) * c by {
      forall d | d in OpenItems(w) * c ensures d in OpenItems(w') {
        var e :| e in w.schedule.openDeviceEntries && e.item == d;
        assert e in w'.schedule.openDeviceEntries;
      }
    }
    TrackedAfterFilter(Elems(w.closedDevices), OpenItems(w), c);
  }

  /** Keeping the configured part of the closed and the open devices, and
      adding the configured devices not tracked before, gives exactly the
      configured devices. */
  lemma TrackedAfterFilter<T>(closed: set<T>, open: set<T>, c: set<T>)
    ensures ((closed * c) + (c - (closed + open))) + (open * c) == c
  {
  }

  /** Reconciliation keeps every tracked device in exactly one place. */
  lemma ReconcilePreservesPartition(config: Config, dhcpDevs: DeviceSet, w: World)
    requires Partitioned(w)
    ensures Partitioned(ReconcileConfig(config, dhcpDevs, w).1)
  {
    var w' := ReconcileConfig(config, dhcpDevs, w).1;
    forall d | d in Elems(w'.closedDevices) ensures d !in OpenItems(w') {
      forall e | e in w'.schedule.openDeviceEntries ensures e.item != d {
        assert e in w.schedule.openDeviceEntries;
        assert e.item in OpenItems(w);
      }
    }
  }

  /** A second reconciliation with the same inputs reports no update and
      changes nothing. */
  lemma ReconcileIdempotent(config: Config, dhcpDevs: DeviceSet, w: World)
    ensures var w1 := ReconcileConfig(config, dhcpDevs, w).1;
      ReconcileConfig(config, dhcpDevs, w1) == (ReconcileResult(false), w1)
  {
    var w1 := ReconcileConfig(config, dhcpDevs, w).1;
    var w2 := ReconcileConfig(config, dhcpDevs, w1).1;
    ReconcileTracksConfig(config, dhcpDevs, w);
    SecondPassKeepsClosed(config, dhcpDevs, w1);
    SecondPassKeepsOpen(config, dhcpDevs, w1);
    SecondPassKeepsUnknown(config, dhcpDevs, w, w1);
  }

  lemma SecondPassKeepsClosed(config: Config, dhcpDevs: DeviceSet, w1: World)
    requires Tracked(w1) == Elems(config.knownDevices)
    ensures ReconcileConfig(config, dhcpDevs, w1).1.closedDevices == w1.closedDevices
  {
    var w2 := ReconcileConfig(config, dhcpDevs, w1).1;
    assert Elems(w1.closedDevices) <= Tracked(w1);
    assert Elems(w2.closedDevices) == Elems(w1.closedDevices);
    SameDeviceSet(w2.closedDevices, w1.closedDevices);
  }

  lemma SecondPassKeepsOpen(config: Config, dhcpDevs: DeviceSet, w1: World)
    requires Tracked(w1) == Elems(config.knownDevices)
    ensures ReconcileConfig(config, dhcpDevs, w1).1.schedule.openDeviceEntries == w1.schedule.openDeviceEntries
  {
    var w2 := ReconcileConfig(config, dhcpDevs, w1).1;
    assert forall e :: e in w1.schedule.openDeviceEntries ==> e.item in OpenItems(w1);
    assert Elems(w2.schedule.openDeviceEntries) == Elems(w1.schedule.openDeviceEntries);
    SameEntrySet(w2.schedule.openDeviceEntries, w1.schedule.openDeviceEntries);
  }

  lemma SecondPassKeepsUnknown(config: Config, dhcpDevs: DeviceSet, w: World, w1: World)
    requires w1 == ReconcileConfig(config, dhcpDevs, w).1
    ensures ReconcileConfig(config, dhcpDevs, w1).1.unknownDevices == w1.unknownDevices
  {
    var w2 := ReconcileConfig(config, dhcpDevs, w1).1;
    ReconcileTracksConfig(config, dhcpDevs, w);
    ReconcileTracksConfig(config, dhcpDevs, w1);
    assert Elems(w2.unknownDevices) == Elems(w1.unknownDevices);
    SameDeviceSet(w2.unknownDevices, w1.unknownDevices);
  }

  /** With no configuration drift and nothing observed, reconciliation
      reports no update and leaves a world without unknown devices as it is. */
  lemma ReconcileWithoutDrift(config: Config, w: World)
    requires Elems(config.knownDevices) == Tracked(w)
    requires w.unknownDevices == []
    ensures ReconcileConfig(config, [], w) == (ReconcileResult(false), w)
  {
    var w' := ReconcileConfig(config, [], w).1;
    assert Elems(w'.closedDevices) == Elems(w.closedDevices);
    SameDeviceSet(w'.closedDevices, w.closedDevices);
    assert forall e :: e in w.schedule.openDeviceEntries ==> e.item in OpenItems(w);
    assert Elems(w'.schedule.openDeviceEntries) == Elems(w.schedule.openDeviceEntries);
    SameEntrySet(w'.schedule.openDeviceEntries, w.schedule.openDeviceEntries);
    assert Elems(w'.unknownDevices) == {};
    SameDeviceSet(w'.unknownDevices, []);
  }

  /** Starting from the default world, reconciliation closes every
      configured device, opens none, and reports an update exactly when
      something is configured. */
  lemma ReconcileFromDefault(config: Config, dhcpDevs: DeviceSet)
    ensures var (res, w) := ReconcileConfig(config, dhcpDevs, ScheduleOps.DefaultWorld());
      && w.closedDevices == config.knownDevices
      && w.schedule.openDeviceEntries == []
      && (res.updatedWorld <==> |config.knownDevices| > 0)
  {
    var w0 := ScheduleOps.DefaultWorld();
    var w := ReconcileConfig(config, dhcpDevs, w0).1;
    assert Elems(w.closedDevices) == Elems(config.knownDevices);
    SameDeviceSet(w.closedDevices, config.knownDevices);
    assert Elems(w.schedule.openDeviceEntries) == {};
    SameEntrySet(w.schedule.openDeviceEntries, []);
    if |config.knownDevices| > 0 {
      assert config.knownDevices[0] in Elems(config.knownDevices);
    }
  }
}
