# device-blocker access-state model

A Dafny model of the access-state logic of device-blocker, a home-gateway
MAC blocker. The gateway keeps a `World`, which has three parts:
- a guest path that is open or closed;
- an optional override that forces every device open or closed;
- three sets of devices: open devices (each with an optional expiry), closed devices, and unknown devices seen in the DHCP leases.

It renders the `World` into an iptables script that creates a chain of MAC rules,
appends the rules to it, issues the command that inserts a jump to that chain into FORWARD, and then deletes the jump to the previous one.

The model covers:
- the data model (`types.dfy`, module `Types`);
- the two membership transfers `open_device` and `close_device`, and the default world (`schedule.dfy`, module `ScheduleOps`);
- reconciliation of the world against the configured and DHCP-observed devices (`config.dfy`, module `Reconciliation`);
- the policy compiler `write_script` (`script.dfy`, module `PolicyCompiler`);
- the pure parts of the request coordinator (`app_server.dfy`, module `Coordinator`):
  - parameter checks and string-to-enum mapping;
  - the write-through of each successful change;
  - the scheduler's wait;
- the per-line parse of the DHCP lease file (`leases.dfy`, module `DhcpLeases`).

Supporting modules:
- `wrappers.dfy` (`Option`, `Result`, `ErrorKind`);
- `strings.dfy` (string order, ASCII case mapping, Unicode whitespace);
- `ordered_sets.dfy`, which models Rust's `BTreeSet<T>` as a strictly sorted sequence under a comparator, so that iteration order ("the first match", "rules in set order") is part of the model.

Ordering follows the derived `Ord` of the Rust types:
- a `Device` compares by name, then by MAC;
- a schedule entry compares by device, then by time bound, with no bound before any bound.

Timestamps are integers (nanoseconds).

The coordinator's writes are modelled as an ordered list of `Effect` values:
- persisting the world;
- persisting the configuration;
- running a script.

## Model

| member | source | states |
|---|---|---|
| Strings.LessIrreflexive | src/types.rs:16-31 | no string sorts before itself (part of the derived string order used for device sets) |
| Strings.LessTransitive | src/types.rs:16-31 | the lexicographic string order is transitive |
| Strings.LessTotal | src/types.rs:16-31 | any two different strings are ordered one way or the other |
| Strings.ToUpper | src/config.rs:51 | upper-casing keeps the length and maps each character to its upper-case form |
| Strings.ToLower | src/app_server.rs:106 | lower-casing keeps the length and maps each character to its lower-case form |
| Strings.LowerEqualsIffAnyCase | src/app_server.rs:106 | comparing the lower-cased parameter with a lower-case word holds exactly when the parameter spells that word in some mix of letter cases |
| OrderedSets.Insert | src/schedule.rs:35 | set insertion keeps the sequence sorted, adds exactly the new element, and is a no-op for an element already present |
| OrderedSets.InsertAll | src/config.rs:43-46 | inserting several elements keeps the sequence sorted and adds exactly those elements |
| OrderedSets.Filter | src/config.rs:30-41 | filtering keeps exactly the elements that satisfy the predicate and never lengthens the sequence (that the result keeps set order is `FilterSorted`) |
| OrderedSets.FilterSorted | src/config.rs:30-41 | a filtered set is still sorted |
| OrderedSets.FindFirst | src/schedule.rs:26-28 | `find` returns nothing exactly when no element matches, and otherwise returns a matching element of the set |
| OrderedSets.FindFirstIsLeast | src/schedule.rs:26-28 | the element `find` returns is the least match in set order |
| OrderedSets.SortedUnique | src/types.rs:93-98 | two sorted sequences with the same elements are equal, so set equality is sequence equality |
| Types.DeviceLtIsStrictTotal | src/types.rs:16-31 | device order (name, then MAC) is a strict total order |
| Types.EntryLtIsStrictTotal | src/types.rs:33-47 | entry order (device, then time bound with no bound first) is a strict total order |
| Types.InsertDevice | src/schedule.rs:50 | inserting a device adds exactly that device and grows the set when it was absent |
| Types.RemoveDevice | src/schedule.rs:30 | removing a device drops exactly that device |
| Types.InsertEntry | src/schedule.rs:35 | inserting an entry adds exactly that entry |
| Types.RemoveEntry | src/schedule.rs:48 | removing an entry drops exactly that entry |
| Types.SameMacDifferentNamesBothKept | src/types.rs:16-31 | two devices with the same MAC and different names are both kept in a device set |
| Types.BoundedAndUnboundedEntriesBothKept | src/types.rs:33-47 | the same device with and without a time bound forms two entries, and the unbounded one comes first |
| ScheduleOps.DefaultWorld | src/schedule.rs:7-22 | the default world has a closed guest path with no bound, no override and no devices, and satisfies the world invariants |
| ScheduleOps.OpenDevice | src/schedule.rs:25-40 | fails with "mac not found" exactly when no closed device has the MAC; otherwise moves the first such device, in set order, to a new open entry with the given bound and changes nothing else |
| ScheduleOps.CloseDevice | src/schedule.rs:42-55 | fails with "mac not found" exactly when no open entry has the MAC; otherwise moves the first such entry's device, without its bound, to the closed devices and changes nothing else |
| ScheduleOps.OpenDeviceKeepsTracked | src/schedule.rs:29-35 | opening leaves the set of tracked devices (closed plus open) unchanged |
| ScheduleOps.CloseDeviceKeepsTracked | src/schedule.rs:47-50 | closing leaves the set of tracked devices unchanged |
| ScheduleOps.OpenDevicePreservesPartition | src/schedule.rs:29-35 | opening keeps closed and open devices disjoint, with one entry per open device |
| ScheduleOps.CloseDevicePreservesPartition | src/schedule.rs:47-50 | closing keeps closed and open devices disjoint, with one entry per open device |
| ScheduleOps.OpenThenCloseRestores | src/schedule.rs:25-55 | with distinct MACs, closing right after a successful open gives back the original world (the Rust types allow shared MACs, and then the round trip can fail: see `SharedMacBreaksRoundTrip`) |
| ScheduleOps.CloseThenOpenRestores | src/schedule.rs:25-55 | with distinct MACs, re-opening a just-closed device with its old bound gives back the original world (distinct MACs are an assumption; the Rust types do not enforce them) |
| ScheduleOps.SharedMacWorldIsPartitioned | src/types.rs:16-31 | a world with closed device ("b", "X") and open device ("a", "X") keeps open and closed devices apart, yet two of its devices share a MAC |
| ScheduleOps.SharedMacBreaksRoundTrip | src/schedule.rs:25-55 | in that world, opening "X" succeeds and closing "X" then succeeds too, but the result is not the original world: the close picks device "a", the first open entry with that MAC |
| Reconciliation.ReconcileConfig | src/config.rs:10-60 | the update flag is set exactly when the configured set differs from the tracked set before the call; closed devices become the still-configured closed ones plus the newly configured ones; open entries survive exactly when their device is still configured; guest and override are untouched; a DHCP device is unknown exactly when no tracked device has its MAC up to case |
| Reconciliation.ReconcileTracksConfig | src/config.rs:30-46 | afterwards the world tracks exactly the configured devices |
| Reconciliation.ReconcilePreservesPartition | src/config.rs:30-46 | reconciliation keeps closed and open devices disjoint, with one entry per open device |
| Reconciliation.ReconcileIdempotent | src/config.rs:30-59 | a second reconciliation with the same inputs reports no update and changes nothing |
| Reconciliation.ReconcileWithoutDrift | src/config.rs:19-59 | with no configuration drift and no observed devices, a world without unknown devices is left unchanged and nothing is reported |
| Reconciliation.ReconcileFromDefault | src/config.rs:30-59 | from the default world, every configured device ends up closed, none open, and an update is reported exactly when something is configured |
| PolicyCompiler.Action.Script | src/script.rs:27-34 | the printed target is "ACCEPT" exactly for Accept and "DROP" exactly for Drop |
| PolicyCompiler.ActionWithOverride | src/script.rs:13-25 | without an override the device's own action stands; with one, the action is Accept exactly when the override is Open |
| PolicyCompiler.OpenRules | src/script.rs:41-46 | one rule per open entry, in set order, with the override-adjusted Accept action |
| PolicyCompiler.ClosedRules | src/script.rs:48-53 | one rule per closed device, in set order, with the override-adjusted Drop action |
| PolicyCompiler.SwapCommands | src/script.rs:59-62 | the command inserting the jump to the new chain comes first, and the command deleting the jump to the old chain follows only when an old chain is given |
| PolicyCompiler.Commands | src/script.rs:36-64 | the script creates the chain first, then the open rules, then the closed rules, then the guest drop if the guest path is closed, then the insert of the new jump, and last the optional delete of the old jump; its length is 4 + open + closed, minus one for an open guest path and one for no old chain |
| PolicyCompiler.ScriptLines | src/script.rs:36-64 | one printed line per command, in command order; each line is the command's text as `Line` formats it, after the format strings at script.rs lines 37, 45, 52, 56, 59 and 61 |
| PolicyCompiler.WriteScript | src/script.rs:36-64 | the previous contents of the output are kept as a prefix, and what follows is the script's lines, each ended by a newline |
| PolicyCompiler.TextSplitsIntoLines | src/script.rs:36-64 | lines that hold no newline, each ended by a newline and concatenated, split back into exactly those lines |
| PolicyCompiler.LineNewlineFree | src/script.rs:37-61 | a printed line holds a newline exactly when its chain name or MAC does; the fixed words never do |
| PolicyCompiler.CommandsNewlineFree | src/script.rs:36-64 | with newline-free chain names and tracked MACs, no emitted command has a newline in a field |
| PolicyCompiler.WriteScriptSplitsIntoLines | src/script.rs:36-64 | with newline-free chain names and tracked MACs, the text appended to the output splits back into exactly the script's lines, one per command |
| PolicyCompiler.ChainEnforcesPolicy | src/script.rs:13-62 | for every source MAC, the first matching rule of the new chain gives the intended verdict: the override decides for any device with a rule, then open entries allow, then closed devices deny, then the guest rule denies the rest while the guest path is closed |
| PolicyCompiler.SwapDecidesNothing | src/script.rs:59-62 | the hook and unhook commands decide no verdict in the new chain |
| PolicyCompiler.DropAllIffGuestClosed | src/script.rs:55-57 | the catch-all drop is emitted exactly when the guest path is closed |
| PolicyCompiler.ScriptIgnoresUnknownDevices | src/script.rs:41-53 | the script does not depend on the unknown devices |
| Coordinator.RefreshWorld | src/app_server.rs:171-184 | a refresh has exactly two effects: first the world is written, then the script for that world is run, built with old chain "old_blocked_devices" and new chain "blocked_devices" into an empty string |
| Coordinator.RefreshScriptSplitsIntoLines | src/app_server.rs:171-184 | when no tracked MAC holds a newline, the script a refresh runs reads back as exactly one line per command of the world's chain |
| Coordinator.RequireParam | src/app_server.rs:72-76 | a present parameter is passed through; a missing one is a request error carrying the given message |
| Coordinator.OpenDevice | src/app_server.rs:86-93 | a missing MAC, or a failed world operation, is rejected with the world untouched and nothing written; a success writes the new world and then runs its script |
| Coordinator.CloseDevice | src/app_server.rs:95-99 | the same for closing |
| Coordinator.SetGuestPath | src/app_server.rs:101-116 | a missing parameter is rejected; otherwise the guest path opens exactly when the parameter is "true" in any letter case, takes the given bound, and the world is written through |
| Coordinator.SetDeviceOverride | src/app_server.rs:118-137 | a missing parameter is rejected with the source's message; "null" in any case clears the override, "true" in any case forces Open, any other string forces Closed, each with the given bound |
| Coordinator.AddDevice | src/app_server.rs:139-157 | a missing MAC, then a missing name, is rejected with nothing changed; otherwise the device joins the configuration and the configuration is written first; a failed lease read (an I/O error or a short line's panic) then ends the request with that error, the configuration changed and written, and the world untouched; a successful read reconciles the world, which is written through only when reconciliation reports an update |
| Coordinator.RefreshDevices | src/app_server.rs:159-169 | a failed lease read ends the request with its error, nothing changed and nothing written; otherwise the world is reconciled against the devices read and written through only when reconciliation reports an update |
| Coordinator.LeaseDevices | src/app_server.rs:202-221 | what `read_dhcp_devices` returns: the devices only when every line was read and parsed; an open or read failure is passed on as its error, and a short line becomes that line's panic |
| Coordinator.FailedAddThenRefreshCatchesUp | src/app_server.rs:139-169 | after an add whose lease file could not be opened or read (an I/O error, the world untouched), the next successful refresh reaches the same server state as an add whose read had succeeded; a short line's panic is excluded, since after it the source serves no further request |
| Coordinator.AddDeviceStartsClosed | src/app_server.rs:139-157 | adding a device the world does not track leaves it closed and writes the world through |
| Coordinator.RefreshDevicesSettles | src/app_server.rs:159-169 | a second refresh against the same leases changes nothing and writes nothing |
| Coordinator.OpenThenCloseRequestRestores | src/app_server.rs:86-99 | with distinct MACs, a successful open request followed by a close request for the same MAC restores the server's state, each request writing the world through |
| Coordinator.WaitDuration | src/app_server.rs:52-54 | thirty days when nothing is bounded; otherwise zero exactly when the soonest bound is not in the future, and the exact time left when it is |
| DhcpLeases.FirstWhitespace | src/app_server.rs:208 | finds the first whitespace character, and reports none exactly when there is none |
| DhcpLeases.SplitN | src/app_server.rs:208-211 | splitting into at most n fields gives between 1 and n fields; all but the last are free of whitespace, and so is the last when fewer than n fields come out |
| DhcpLeases.Separators | src/app_server.rs:208-211 | the characters the split cuts at: one fewer than the fields, each of them whitespace |
| DhcpLeases.SplitNJoins | src/app_server.rs:208-211 | the fields, joined back with those separators between neighbours, give the line: the fields are the pieces of the line |
| DhcpLeases.SplitNFieldCount | src/app_server.rs:208-211 | the number of fields is one more than the number of whitespace characters, capped at n |
| DhcpLeases.ParseLeaseLine | src/app_server.rs:208-217 | a line yields a device exactly when it has at least three whitespace characters, with field 1 as MAC and field 3 as name; otherwise it panics indexing field 1 (no whitespace) or field 3 |
| DhcpLeases.ParseFormattedLine | src/app_server.rs:208-217 | a line of four single-space-separated fields, the first three free of whitespace, parses to the device named by the fourth field with the MAC of the second |
| DhcpLeases.SplitFormattedLine | src/app_server.rs:208-211 | such a line splits back into its four fields |
| DhcpLeases.DoubleSpaceGivesEmptyMac | src/app_server.rs:208-212 | two whitespace characters after the first field make the MAC field empty |
| DhcpLeases.ReadDhcpDevices | src/app_server.rs:202-221 | reading succeeds exactly when every line parses, adding exactly the parsed devices to the given set; otherwise it stops at the first short line with that line's panic |

## Left out

- File, process and network I/O: the writes of the world file and the config file, running the script through `sh -c`, opening and reading the lease file, and the HTTP and GraphQL layers. The coordinator lists its writes as `Effect` values and assumes they succeed. Reading the lease file is taken as its list of lines, and the coordinator is given the outcome of that read as an unconstrained `Result<DhcpLeases.ReadResult>`: `Ok` of what `DhcpLeases.ReadDhcpDevices` computes, or an `IoError` when the file could not be opened or a line could not be read. Nothing ties the input to an actual run of `ReadDhcpDevices`, so inputs it never produces (another error kind, any panic position) are accepted too.
- Concurrency: the `Mutex`/`Condvar` loop of `run_expiration` and `kick_scheduler`. Only the wait arithmetic is modelled, with the clock reading passed in as a parameter.
- `expire_bounded` and `get_soonest_event_time` are not part of this model. Their definitions are not among the repository files modelled here. `Coordinator.WaitDuration` takes the soonest time as an input.
- `read_or_create_world` is not modelled, because it needs JSON deserialisation.
- Exit-interface rules and chain rename or flush steps: `write_script` emits none. The coordinator's call site passes a fifth argument (`exit_interfaces`) that `write_script` does not take. The model uses the four-argument `write_script` with old chain `old_blocked_devices` and new chain `blocked_devices`.
- Strings.ToUpper: Rust's `to_uppercase` applies full Unicode case mapping. The model maps only ASCII letters. Non-ASCII MACs (for example ones containing `ß`) may compare differently.
- Strings.ToLower: ASCII-only as well. It is used only to compare with "true" and "null". No non-ASCII character lower-cases to a letter of those words, so those comparisons come out as in the source.
- Coordinator.AddDevice: a short lease line makes the Rust thread panic and unwind rather than return an error. The model ends the request with a `LeasePanic` error, keeping the state as far as the request got (for `add_device`, the configuration already changed and written). In the source the panic happens while the request holds the lock around the server (src/server.rs:35-36), so the lock is poisoned. Every later request then panics on `lock().unwrap()`, and the scheduler thread panics on its `wait_timeout(..).unwrap()` (src/app_server.rs:55). After a restart the same line panics again while reading the leases at startup. So after a `LeasePanic` the source serves no further request. The model does not show this: its state stays usable.
- Coordinator.RefreshDevices: the same holds for a `LeasePanic` during a refresh; the model leaves the state unchanged and usable.
- PolicyCompiler.SwapCommands: the insert command is printed as `iptables -I FORWARD 0 -j <chain>`. iptables numbers rules from 1, so rule number 0 is most likely rejected. Under `sh -c` the following delete command runs anyway. The model describes the commands printed, not whether iptables accepts them; no iptables semantics beyond the rules of the new chain (`PolicyCompiler.ChainEnforcesPolicy`) are modelled.
- PolicyCompiler.WriteScriptSplitsIntoLines: promises one line per command only for newline-free MACs and chain names. `add_device` (src/app_server.rs:139-146) accepts any MAC string, and `write_script` prints it verbatim. A MAC that holds a newline therefore turns one rule into several script lines, which `sh -c` runs as separate commands. The model does not describe what those extra lines do.
- PolicyCompiler.ChainEnforcesPolicy: a MAC match in iptables is modelled as exact string equality. iptables itself parses MAC addresses and ignores letter case.
- PolicyCompiler.ChainEnforcesPolicy: the verdict is for the commands of one script evaluated on an empty chain. `write_script` never flushes, deletes or renames the new chain, and every refresh uses the same two chain names. So from the second refresh on, `iptables -N blocked_devices` finds the chain already there, the new rules are appended after the previous refresh's rules, and those older rules match first. The model does not describe the kernel's chain across refreshes.
- `chrono` date arithmetic overflow and sub-nanosecond precision: times are unbounded integers in nanoseconds.
- The "mac not found" error leaves the world unchanged in the source because nothing is mutated before the check. In the model, the world operations return a new world only on success. The coordinator states that a rejected request leaves its state unchanged.
