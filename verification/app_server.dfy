/** The pure parts of the coordinator (`AppServer`): parameter checks, the
    mapping of request strings onto schedule values, the write-through of
    every successful change (persist the world, then apply its script) and
    the scheduler's wait. Persistence and script
    execution appear as `Effect` values in the order the coordinator
    performs them; whether they succeed is not modelled. */
module Coordinator {
  import opened Wrappers
  import opened OrderedSets
  import opened Types
  import ScheduleOps
  import Reconciliation
  import PolicyCompiler
  import DhcpLeases
  import Strings

  /** The coordinator's in-memory state. */
  datatype AppServer = AppServer(world: World, config: Config)

  /** A write the coordinator performs, in order. */
  datatype Effect =
    | WriteWorld(world: World)
    | WriteConfig(config: Config)
    | RunScript(script: string)

  datatype Outcome = Outcome(result: Result<()>, server: AppServer, effects: seq<Effect>)

  const OldChainName: string := "old_blocked_devices"
  const NewChainName: string := "blocked_devices"

  /** `require_param`: a missing parameter is a request error carrying
      `msg`; a present one is passed through. */
  function RequireParam(param: Option<string>, msg: string): (r: Result<string>)
    ensures r.Ok? <==> param.Some?
    ensures r.Ok? ==> r.value == param.value
    ensures r.Err? ==> r.error == RequestError(msg)
  {
    match param
    case Some(s) => Ok(s)
    case None => Err(RequestError(msg))
  }

  /** `refresh_world`: persist the world, then run the script rendered
      from it. */
  function RefreshWorld(s: AppServer): (r: seq<Effect>)
    ensures |r| == 2
    ensures r[0] == WriteWorld(s.world)
    ensures r[1].RunScript?
    ensures r[1].script == PolicyCompiler.Text(PolicyCompiler.ScriptLines(s.world, Some(OldChainName), NewChainName))
  {
    [WriteWorld(s.world), RunScript(PolicyCompiler.WriteScript(s.world, Some(OldChainName), NewChainName, ""))]
  }

  /** The script a refresh runs reads back as one line per command of the
      world's chain, as long as no tracked MAC holds a newline. */
  lemma RefreshScriptSplitsIntoLines(s: AppServer)
    requires PolicyCompiler.MacsNewlineFree(s.world)
    ensures PolicyCompiler.SplitLines(RefreshWorld(s)[1].script)
         == PolicyCompiler.ScriptLines(s.world, Some(OldChainName), NewChainName)
  {
    PolicyCompiler.WriteScriptSplitsIntoLines(s.world, Some(OldChainName), NewChainName, "");
  }

  /** A request that failed: nothing changes and nothing is written. */
  ghost predicate Rejected(s: AppServer, o: Outcome, e: ErrorKind)
  {
    o == Outcome(Err(e), s, [])
  }

  /** A request that changed the world to `w'` and wrote it through. */
  ghost predicate Applied(s: AppServer, o: Outcome, w': World)
  {
    && o.result == Ok(())
    && o.server == s.(world := w')
    && o.effects == [WriteWorld(w'), RunScript(PolicyCompiler.WriteScript(w', Some(OldChainName), NewChainName, ""))]
  }

  /** `AppServer::open_device`. */
  function OpenDevice(s: AppServer, macParam: Option<string>, timeBound: Option<Time>): (o: Outcome)
    ensures macParam.None? ==> Rejected(s, o, RequestError("Missing mac parameter"))
    ensures macParam.Some? ==>
      var r := ScheduleOps.OpenDevice(s.world, macParam.value, timeBound);
      && (r.Err? ==> Rejected(s, o, r.error))
      && (r.Ok? ==> Applied(s, o, r.value))
  {
    match RequireParam(macParam, "Missing mac parameter")
    case Err(e) => Outcome(Err(e), s, [])
    case Ok(mac) =>
      match ScheduleOps.OpenDevice(s.world, mac, timeBound)
      case Err(e) => Outcome(Err(e), s, [])
      case Ok(w') =>
        var s' := s.(world := w');
        Outcome(Ok(()), s', RefreshWorld(s'))
  }

  /** `AppServer::close_device`. */
  function CloseDevice(s: AppServer, macParam: Option<string>): (o: Outcome)
    ensures macParam.None? ==> Rejected(s, o, RequestError("Missing mac parameter"))
    ensures macParam.Some? ==>
      var r := ScheduleOps.CloseDevice(s.world, macParam.value);
      && (r.Err? ==> Rejected(s, o, r.error))
      && (r.Ok? ==> Applied(s, o, r.value))
  {
    match RequireParam(macParam, "Missing mac parameter")
    case Err(e) => Outcome(Err(e), s, [])
    case Ok(mac) =>
      match ScheduleOps.CloseDevice(s.world, mac)
      case Err(e) => Outcome(Err(e), s, [])
      case Ok(w') =>
        var s' := s.(world := w');
        Outcome(Ok(()), s', RefreshWorld(s'))
  }

  /** `AppServer::set_guest_path`: "true" in any letter case opens the guest
      path; any other string closes it. */
  function SetGuestPath(s: AppServer, allowParam: Option<string>, timeBound: Option<Time>): (o: Outcome)
    ensures allowParam.None? ==> Rejected(s, o, RequestError("Missing allow parameter"))
    ensures allowParam.Some? ==>
      var path := if Strings.AnyCaseOf(allowParam.value, "true") then GuestPath.Open else GuestPath.Closed;
      Applied(s, o, s.world.(schedule := s.world.schedule.(guestEntry := ScheduleEntry(path, timeBound))))
  {
    match RequireParam(allowParam, "Missing allow parameter")
    case Err(e) => Outcome(Err(e), s, [])
    case Ok(allow) =>
      Strings.LowerEqualsIffAnyCase(allow, "true");
      var path := if Strings.ToLower(allow) == "true" then GuestPath.Open else GuestPath.Closed;
      var s' := s.(world := s.world.(schedule := s.world.schedule.(guestEntry := ScheduleEntry(path, timeBound))));
      Outcome(Ok(()), s', RefreshWorld(s'))
  }

  /** `AppServer::set_device_override`: "null" in any letter case clears the
      override, "true" in any case forces every device open, and any other
      string forces every device closed. */
  function SetDeviceOverride(s: AppServer, overrideParam: Option<string>, timeBound: Option<Time>): (o: Outcome)
    ensures overrideParam.None? ==> Rejected(s, o, RequestError("Missing override paramter"))
    ensures overrideParam.Some? ==>
      var p := overrideParam.value;
      var entry :=
        if Strings.AnyCaseOf(p, "null") then None
        else if Strings.AnyCaseOf(p, "true") then Some(ScheduleEntry(DeviceOverride.Open, timeBound))
        else Some(ScheduleEntry(DeviceOverride.Closed, timeBound));
      Applied(s, o, s.world.(schedule := s.world.schedule.(overrideEntry := entry)))
  {
    match RequireParam(overrideParam, "Missing override paramter")
    case Err(e) => Outcome(Err(e), s, [])
    case Ok(p) =>
      Strings.LowerEqualsIffAnyCase(p, "null");
      Strings.LowerEqualsIffAnyCase(p, "true");
      var overrideArg :=
        if Strings.ToLower(p) == "null" then None
        else if Strings.ToLower(p) == "true" then Some(DeviceOverride.Open)
        else Some(DeviceOverride.Closed);
      var entry := match overrideArg
        case None => None
        case Some(item) => Some(ScheduleEntry(item, timeBound));
      var s' := s.(world := s.world.(schedule := s.world.schedule.(overrideEntry := entry)));
      Outcome(Ok(()), s', RefreshWorld(s'))
  }

  /** Reconciles against the observed devices and writes the world through
      only when reconciliation reports a change. */
  function ReconcileAndRefresh(s: AppServer, leaseDevices: DeviceSet): (o: Outcome)
  {
    var (res, w') := Reconciliation.ReconcileConfig(s.config, leaseDevices, s.world);
    var s' := s.(world := w');
    Outcome(Ok(()), s', if res.updatedWorld then RefreshWorld(s') else [])
  }

  /** What `read_dhcp_devices` hands back to the coordinator, given what
      reading the lease file produced: `Err` when the file could not be
      opened or a line could not be read, the line's panic when a line has
      too few fields, and otherwise the devices read. */
  function LeaseDevices(leases: Result<DhcpLeases.ReadResult>): (r: Result<DeviceSet>)
    ensures r.Ok? <==> leases.Ok? && leases.value.Devices?
    ensures r.Ok? ==> r.value == leases.value.devs
    ensures leases.Err? ==> r == Err(leases.error)
    ensures leases.Ok? && leases.value.Panicked? ==>
      r == Err(LeasePanic(leases.value.line, leases.value.index))
  {
    match leases
    case Err(e) => Err(e)
    case Ok(Panicked(line, index)) => Err(LeasePanic(line, index))
    case Ok(Devices(devs)) => Ok(devs)
  }

  /** `AppServer::add_device`: both parameters are required (the MAC is
      checked first); the device joins the configuration and the
      configuration is written before the lease file is read. A failed read
      ends the request there, with the configuration already changed and
      written but the world untouched; otherwise the world is reconciled
      against the devices read. */
  function AddDevice(s: AppServer, macParam: Option<string>, nameParam: Option<string>,
                     leases: Result<DhcpLeases.ReadResult>): (o: Outcome)
    ensures macParam.None? ==> Rejected(s, o, RequestError("Missing mac parameter"))
    ensures macParam.Some? && nameParam.None? ==> Rejected(s, o, RequestError("Missing name parameter"))
    ensures macParam.Some? && nameParam.Some? ==>
      var dev := Device(nameParam.value, macParam.value);
      var config' := o.server.config;
      && config' == s.config.(knownDevices := config'.knownDevices)
      && Elems(config'.knownDevices) == Elems(s.config.knownDevices) + {dev}
      && |o.effects| >= 1 && o.effects[0] == WriteConfig(config')
      && (LeaseDevices(leases).Err? ==>
            o.result == Err(LeaseDevices(leases).error) && o.server.world == s.world
            && o.effects == [WriteConfig(config')])
      && (LeaseDevices(leases).Ok? ==>
            var (res, w') := Reconciliation.ReconcileConfig(config', LeaseDevices(leases).value, s.world);
            && o.result == Ok(())
            && o.server.world == w'
            && o.effects == [WriteConfig(config')] + (if res.updatedWorld then RefreshWorld(o.server) else []))
  {
    match RequireParam(macParam, "Missing mac parameter")
    case Err(e) => Outcome(Err(e), s, [])
    case Ok(mac) =>
      match RequireParam(nameParam, "Missing name parameter")
      case Err(e) => Outcome(Err(e), s, [])
      case Ok(name) =>
        var config' := s.config.(knownDevices := InsertDevice(s.config.knownDevices, Device(name, mac)));
        match LeaseDevices(leases)
        case Err(e) => Outcome(Err(e), s.(config := config'), [WriteConfig(config')])
        case Ok(devs) =>
          var o := ReconcileAndRefresh(s.(config := config'), devs);
          o.(effects := [WriteConfig(config')] + o.effects)
  }

  /** `AppServer::refresh_devices`: reads the lease file first; a failed
      read ends the request with nothing changed, and otherwise the world is
      reconciled against the devices read. */
  function RefreshDevices(s: AppServer, leases: Result<DhcpLeases.ReadResult>): (o: Outcome)
    ensures LeaseDevices(leases).Err? ==> Rejected(s, o, LeaseDevices(leases).error)
    ensures LeaseDevices(leases).Ok? ==>
      var (res, w') := Reconciliation.ReconcileConfig(s.config, LeaseDevices(leases).value, s.world);
      && o.result == Ok(()) && o.server.config == s.config
      && o.server.world == w'
      && o.effects == (if res.updatedWorld then RefreshWorld(o.server) else [])
  {
    match LeaseDevices(leases)
    case Err(e) => Outcome(Err(e), s, [])
    case Ok(devs) => ReconcileAndRefresh(s, devs)
  }

  /** Adding a device the world does not track yet leaves it closed and
      writes the world through. */
  lemma AddDeviceStartsClosed(s: AppServer, mac: string, name: string, leaseDevices: DeviceSet)
    requires Device(name, mac) !in Tracked(s.world)
    ensures var o := AddDevice(s, Some(mac), Some(name), Ok(DhcpLeases.Devices(leaseDevices)));
      && Device(name, mac) in o.server.world.closedDevices
      && o.effects == [WriteConfig(o.server.config)] + RefreshWorld(o.server)
  {
    var dev := Device(name, mac);
    var o := AddDevice(s, Some(mac), Some(name), Ok(DhcpLeases.Devices(leaseDevices)));
    var config' := o.server.config;
    assert dev in Elems(config'.knownDevices);
    var (res, w') := Reconciliation.ReconcileConfig(config', leaseDevices, s.world);
    assert res.updatedWorld;
    assert dev in Elems(w'.closedDevices);
  }

  /** Refreshing twice against the same leases: the second refresh finds
      nothing to change and writes nothing. */
  lemma RefreshDevicesSettles(s: AppServer, leaseDevices: DeviceSet)
    ensures var o1 := RefreshDevices(s, Ok(DhcpLeases.Devices(leaseDevices)));
      var o2 := RefreshDevices(o1.server, Ok(DhcpLeases.Devices(leaseDevices)));
      o2.server == o1.server && o2.effects == []
  {
    Reconciliation.ReconcileIdempotent(s.config, leaseDevices, s.world);
  }

  /** A lease file that cannot be opened or read during `add_device` leaves
      the configuration ahead of the world; the next successful refresh
      catches the world up, reaching the same state as an add whose read had
      succeeded. (A short line's panic is different: the server serves no
      further request after it.) */
  lemma FailedAddThenRefreshCatchesUp(s: AppServer, mac: string, name: string,
                                      failed: Result<DhcpLeases.ReadResult>, leaseDevices: DeviceSet)
    requires failed.Err?
    ensures var o1 := AddDevice(s, Some(mac), Some(name), failed);
      var o2 := RefreshDevices(o1.server, Ok(DhcpLeases.Devices(leaseDevices)));
      && o1.result.Err? && o1.server.world == s.world
      && o2.server == AddDevice(s, Some(mac), Some(name), Ok(DhcpLeases.Devices(leaseDevices))).server
  {
    var config' := s.config.(knownDevices := InsertDevice(s.config.knownDevices, Device(name, mac)));
    var o1 := AddDevice(s, Some(mac), Some(name), failed);
    assert o1 == Outcome(Err(LeaseDevices(failed).error), s.(config := config'), [WriteConfig(config')]);
    var ok := AddDevice(s, Some(mac), Some(name), Ok(DhcpLeases.Devices(leaseDevices)));
    assert ok.server == ReconcileAndRefresh(s.(config := config'), leaseDevices).server;
  }

  /** With distinct MACs, a successful open request followed by a close
      request for the same MAC restores the server's state, and both
      requests write the world through. */
  lemma OpenThenCloseRequestRestores(s: AppServer, mac: string, timeBound: Option<Time>)
    requires Partitioned(s.world) && MacsDistinct(s.world)
    requires ScheduleOps.OpenDevice(s.world, mac, timeBound).Ok?
    ensures var o1 := OpenDevice(s, Some(mac), timeBound);
      var o2 := CloseDevice(o1.server, Some(mac));
      && o2.result.Ok? && o2.server == s
      && |o1.effects| == 2 && |o2.effects| == 2
  {
    ScheduleOps.OpenThenCloseRestores(s.world, mac, timeBound);
  }

  /** Thirty days in nanoseconds: how long the scheduler sleeps when no
      entry is time-bounded. */
  const IdleWait: nat := 30 * 24 * 60 * 60 * 1_000_000_000

  /** The wait computed in `run_expiration`: the time left until the
      soonest bound, where a bound already past gives no wait at all (a
      negative duration does not convert to a standard duration). */
  function WaitDuration(soonest: Option<Time>, now: Time): (d: nat)
    ensures soonest.None? ==> d == IdleWait
    ensures soonest.Some? ==> (d == 0 <==> soonest.value <= now)
    ensures soonest.Some? && soonest.value > now ==> now + d == soonest.value
  {
    match soonest
    case None => IdleWait
    case Some(t) => if t - now < 0 then 0 else t - now
  }
}
