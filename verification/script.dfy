/** `write_script`: renders a `World` into iptables command lines that
    create a chain, append its MAC rules, insert a jump to it into FORWARD,
    and only then delete the jump to the previous chain. Each line is kept as a `Command` value together with
    the exact text it is printed as. */
module PolicyCompiler {
  import opened Wrappers
  import opened Types

  datatype Action = Accept | Drop
  {
    /** The iptables target this action is printed as. */
    function Script(): (r: string)
      ensures r == "ACCEPT" <==> this == Accept
      ensures r == "DROP" <==> this == Drop
    {
      match this
      case Accept => "ACCEPT"
      case Drop => "DROP"
    }
  }

  /** `action_with_override`: an override, when present, decides alone;
      otherwise the device's own action stands. */
  function ActionWithOverride(overrideEntry: Option<ScheduleEntry<DeviceOverride>>, deviceAction: Action): (r: Action)
    ensures overrideEntry.None? ==> r == deviceAction
    ensures overrideEntry.Some? ==> (r == Accept <==> overrideEntry.value.item == DeviceOverride.Open)
  {
    match overrideEntry
    case None => deviceAction
    case Some(entry) =>
      match entry.item
      case Open => Accept
      case Closed => Drop
  }

  datatype Command =
    | NewChain(chain: string)
    | MacRule(chain: string, mac: string, action: Action)
    | DropAll(chain: string)
    | HookForward(chain: string)
    | UnhookForward(chain: string)

  /** The text of a command, as `write_script` formats it (without the
      terminating newline). */
  function Line(c: Command): string
  {
    match c
    case NewChain(ch) => "iptables -N " + ch
    case MacRule(ch, mac, a) => "iptables -A " + ch + " -m mac --mac-source " + mac + " -j " + a.Script()
    case DropAll(ch) => "iptables -A " + ch + " -j DROP"
    case HookForward(ch) => "iptables -I FORWARD 0 -j " + ch
    case UnhookForward(ch) => "iptables -D FORWARD -j " + ch
  }

  /** One rule per open entry, in set order. */
  function OpenRules(chain: string, w: World): (r: seq<Command>)
    ensures |r| == |w.schedule.openDeviceEntries|
    ensures forall i :: 0 <= i < |r| ==>
      r[i] == MacRule(chain, w.schedule.openDeviceEntries[i].item.mac, ActionWithOverride(w.schedule.overrideEntry, Accept))
  {
    var entries := w.schedule.openDeviceEntries;
    var action := ActionWithOverride(w.schedule.overrideEntry, Accept);
    seq(|entries|, i requires 0 <= i < |entries| => MacRule(chain, entries[i].item.mac, action))
  }

  /** One rule per closed device, in set order. */
  function ClosedRules(chain: string, w: World): (r: seq<Command>)
    ensures |r| == |w.closedDevices|
    ensures forall i :: 0 <= i < |r| ==>
      r[i] == MacRule(chain, w.closedDevices[i].mac, ActionWithOverride(w.schedule.overrideEntry, Drop))
  {
    var devs := w.closedDevices;
    var action := ActionWithOverride(w.schedule.overrideEntry, Drop);
    seq(|devs|, i requires 0 <= i < |devs| => MacRule(chain, devs[i].mac, action))
  }

  /** The catch-all guest rule, present only while the guest path is closed. */
  function GuestRule(chain: string, w: World): seq<Command>
  {
    if w.schedule.guestEntry.item == GuestPath.Closed then [DropAll(chain)] else []
  }

  /** The trailing commands of the script: insert the jump to the new chain
      into FORWARD, then delete the jump to the old one. */
  function SwapCommands(oldChain: Option<string>, newChain: string): (r: seq<Command>)
    ensures |r| == if oldChain.Some? then 2 else 1
    ensures r[0] == HookForward(newChain)
    ensures oldChain.Some? ==> r[1] == UnhookForward(oldChain.value)
  {
    [HookForward(newChain)] + match oldChain case Some(prev) => [UnhookForward(prev)] case None => []
  }

  /** The commands `write_script` emits, in order: create the new chain,
      the open-device rules, the closed-device rules, the optional guest
      catch-all, insert the jump to the new chain, and delete the jump to the
      old one if there is one. */
  function Commands(w: World, oldChain: Option<string>, newChain: string): (r: seq<Command>)
    ensures |r| + (if w.schedule.guestEntry.item == GuestPath.Open then 1 else 0) + (if oldChain.None? then 1 else 0)
            == 4 + |w.schedule.openDeviceEntries| + |w.closedDevices|
    ensures r[0] == NewChain(newChain)
    ensures forall i :: 0 <= i < |w.schedule.openDeviceEntries| ==>
      r[1 + i] == MacRule(newChain, w.schedule.openDeviceEntries[i].item.mac, ActionWithOverride(w.schedule.overrideEntry, Accept))
    ensures forall i :: 0 <= i < |w.closedDevices| ==>
      r[1 + |w.schedule.openDeviceEntries| + i] == MacRule(newChain, w.closedDevices[i].mac, ActionWithOverride(w.schedule.overrideEntry, Drop))
    ensures w.schedule.guestEntry.item == GuestPath.Closed ==>
      r[1 + |w.schedule.openDeviceEntries| + |w.closedDevices|] == DropAll(newChain)
    ensures r[|r| - (if oldChain.Some? then 2 else 1)] == HookForward(newChain)
    ensures oldChain.Some? ==> r[|r| - 1] == UnhookForward(oldChain.value)
  {
    var opens := OpenRules(newChain, w);
    var closeds := ClosedRules(newChain, w);
    var guest := GuestRule(newChain, w);
    var swap := SwapCommands(oldChain, newChain);
    Layout(NewChain(newChain), opens, closeds, guest, swap);
    [NewChain(newChain)] + (opens + (closeds + (guest + swap)))
  }

  /** Where the parts of `[h] + (a + (b + (c + d)))` sit in it, and, the
      other way round, which part each position comes from. */
  lemma Layout<T>(h: T, a: seq<T>, b: seq<T>, c: seq<T>, d: seq<T>)
    ensures var r := [h] + (a + (b + (c + d)));
      && |r| == 1 + |a| + |b| + |c| + |d|
      && r[0] == h
      && (forall i :: 0 <= i < |a| ==> r[1 + i] == a[i])
      && (forall i :: 0 <= i < |b| ==> r[1 + |a| + i] == b[i])
      && (forall i :: 0 <= i < |c| ==> r[1 + |a| + |b| + i] == c[i])
      && (forall i :: 0 <= i < |d| ==> r[1 + |a| + |b| + |c| + i] == d[i])
      && (forall j :: 0 <= j < |r| ==>
            || j == 0
            || (1 <= j < 1 + |a| && r[j] == a[j - 1])
            || (1 + |a| <= j < 1 + |a| + |b| && r[j] == b[j - 1 - |a|])
            || (1 + |a| + |b| <= j < 1 + |a| + |b| + |c| && r[j] == c[j - 1 - |a| - |b|])
            || (1 + |a| + |b| + |c| <= j && r[j] == d[j - 1 - |a| - |b| - |c|]))
  {
    var cd := c + d;
    var bcd := b + cd;
    var abcd := a + bcd;
    var r := [h] + abcd;
    assert forall j :: 1 <= j < |r| ==> r[j] == abcd[j - 1];
    assert forall j :: |a| <= j < |abcd| ==> abcd[j] == bcd[j - |a|];
    assert forall j :: |b| <= j < |bcd| ==> bcd[j] == cd[j - |b|];
    assert forall j :: |c| <= j < |cd| ==> cd[j] == d[j - |c|];
  }

  /** The emitted lines, without their newlines. */
  function ScriptLines(w: World, oldChain: Option<string>, newChain: string): (r: seq<string>)
    ensures |r| == |Commands(w, oldChain, newChain)|
    ensures forall i :: 0 <= i < |r| ==> r[i] == Line(Commands(w, oldChain, newChain)[i])
  {
    var cmds := Commands(w, oldChain, newChain);
    seq(|cmds|, i requires 0 <= i < |cmds| => Line(cmds[i]))
  }

  /** Every line followed by a newline, concatenated. */
  function Text(lines: seq<string>): string
  {
    if |lines| == 0 then "" else lines[0] + "\n" + Text(lines[1..])
  }

  /** `write_script`: appends the script to `dest`. */
  function WriteScript(w: World, oldChain: Option<string>, newChain: string, dest: string): (out: string)
    ensures |out| >= |dest| && out[..|dest|] == dest
    ensures out[|dest|..] == Text(ScriptLines(w, oldChain, newChain))
  {
    dest + Text(ScriptLines(w, oldChain, newChain))
  }

  /** Splits newline-terminated text back into its lines. */
  function SplitLines(t: string): seq<string>
    decreases |t|
  {
    if |t| == 0 then []
    else if '\n' !in t then [t]
    else
      var i := FirstNewline(t);
      [t[..i]] + SplitLines(t[i + 1..])
  }

  function FirstNewline(t: string): (i: nat)
    requires '\n' in t
    ensures i < |t| && t[i] == '\n' && '\n' !in t[..i]
  {
    if t[0] == '\n' then 0
    else
      assert '\n' in t[1..] by {
        var k :| 0 <= k < |t| && t[k] == '\n';
        assert t[1..][k - 1] == '\n';
      }
      var j := FirstNewline(t[1..]);
      assert t[..j + 1] == [t[0]] + t[1..][..j];
      j + 1
  }

  /** When no line contains a newline, the text splits back into exactly the
      lines it was made of. */
  lemma {:induction false} TextSplitsIntoLines(lines: seq<string>)
    requires forall i :: 0 <= i < |lines| ==> '\n' !in lines[i]
    ensures SplitLines(Text(lines)) == lines
  {
    if |lines| > 0 {
      var t := Text(lines);
      var head := lines[0];
      assert t == head + "\n" + Text(lines[1..]);
      assert t[|head|] == '\n';
      var i := FirstNewline(t);
      assert i == |head| by {
        assert forall j :: 0 <= j < |head| ==> t[j] == head[j];
        assert forall j :: 0 <= j < i ==> t[j] == t[..i][j];
      }
      assert t[..i] == head;
      assert t[i + 1..] == Text(lines[1..]);
      TextSplitsIntoLines(lines[1..]);
    }
  }

  /** The text fields of a command (its chain name and, for a MAC rule,
      the MAC) hold no newline. */
  predicate NewlineFree(c: Command)
  {
    '\n' !in c.chain && (c.MacRule? ==> '\n' !in c.mac)
  }

  /** The fixed words of a line never hold a newline, so a line holds one
      exactly when a field of its command does. */
  lemma LineNewlineFree(c: Command)
    ensures '\n' !in Line(c) <==> NewlineFree(c)
  {
    match c
    case NewChain(ch) => assert '\n' !in "iptables -N ";
    case MacRule(ch, mac, a) =>
      assert '\n' !in "iptables -A " && '\n' !in " -m mac --mac-source " && '\n' !in " -j ";
      assert '\n' !in a.Script();
    case DropAll(ch) => assert '\n' !in "iptables -A " && '\n' !in " -j DROP";
    case HookForward(ch) => assert '\n' !in "iptables -I FORWARD 0 -j ";
    case UnhookForward(ch) => assert '\n' !in "iptables -D FORWARD -j ";
  }

  /** No MAC the script would write a rule for holds a newline. */
  ghost predicate MacsNewlineFree(w: World)
  {
    && (forall i :: 0 <= i < |w.schedule.openDeviceEntries| ==> '\n' !in w.schedule.openDeviceEntries[i].item.mac)
    && (forall i :: 0 <= i < |w.closedDevices| ==> '\n' !in w.closedDevices[i].mac)
  }

  /** Every command of `cmds` is newline-free. */
  ghost predicate AllNewlineFree(cmds: seq<Command>)
  {
    forall i :: 0 <= i < |cmds| ==> NewlineFree(cmds[i])
  }

  lemma AllNewlineFreeConcat(a: seq<Command>, b: seq<Command>)
    requires AllNewlineFree(a) && AllNewlineFree(b)
    ensures AllNewlineFree(a + b)
  {
    assert forall i :: |a| <= i < |a + b| ==> (a + b)[i] == b[i - |a|];
  }

  /** With newline-free chain names and MACs, every emitted command is
      newline-free. */
  lemma CommandsNewlineFree(w: World, oldChain: Option<string>, newChain: string)
    requires '\n' !in newChain
    requires oldChain.Some? ==> '\n' !in oldChain.value
    requires MacsNewlineFree(w)
    ensures forall j :: 0 <= j < |Commands(w, oldChain, newChain)| ==> NewlineFree(Commands(w, oldChain, newChain)[j])
  {
    var opens := OpenRules(newChain, w);
    var closeds := ClosedRules(newChain, w);
    var guest := GuestRule(newChain, w);
    var swap := SwapCommands(oldChain, newChain);
    CommandsShape(w, oldChain, newChain);
    assert AllNewlineFree(opens);
    assert AllNewlineFree(closeds);
    assert AllNewlineFree(guest);
    assert AllNewlineFree(swap);
    AllNewlineFreeConcat(guest, swap);
    AllNewlineFreeConcat(closeds, guest + swap);
    AllNewlineFreeConcat(opens, closeds + (guest + swap));
    AllNewlineFreeConcat([NewChain(newChain)], opens + (closeds + (guest + swap)));
  }

  /** The text `write_script` appends splits back into exactly the lines it
      emitted, one per command, as long as no chain name or MAC holds a
      newline. */
  lemma WriteScriptSplitsIntoLines(w: World, oldChain: Option<string>, newChain: string, dest: string)
    requires '\n' !in newChain
    requires oldChain.Some? ==> '\n' !in oldChain.value
    requires MacsNewlineFree(w)
    ensures SplitLines(WriteScript(w, oldChain, newChain, dest)[|dest|..]) == ScriptLines(w, oldChain, newChain)
  {
    var cmds := Commands(w, oldChain, newChain);
    var lines := ScriptLines(w, oldChain, newChain);
    CommandsNewlineFree(w, oldChain, newChain);
    forall i | 0 <= i < |lines|
      ensures '\n' !in lines[i]
    {
      LineNewlineFree(cmds[i]);
    }
    TextSplitsIntoLines(lines);
  }

  /** How a packet from source MAC `mac` fares in the chain `chain` built by
      `cmds`: the first rule appended to that chain that matches decides, and
      `None` means the packet leaves the chain undecided. A MAC match is
      modelled as string equality. */
  function EvalChain(cmds: seq<Command>, chain: string, mac: string): Option<Action>
  {
    if |cmds| == 0 then None
    else match cmds[0]
      case MacRule(ch, m, a) => if ch == chain && m == mac then Some(a) else EvalChain(cmds[1..], chain, mac)
      case DropAll(ch) => if ch == chain then Some(Drop) else EvalChain(cmds[1..], chain, mac)
      case _ => EvalChain(cmds[1..], chain, mac)
  }

  /** The access decision the policy intends for traffic from `mac`: an
      override decides for every device that has a rule; otherwise an open
      entry allows and a closed device is denied; anything else is denied
      while the guest path is closed and left alone while it is open. */
  ghost function Verdict(w: World, mac: string): Option<Action>
  {
    var isOpen := exists e :: e in w.schedule.openDeviceEntries && e.item.mac == mac;
    var isClosed := exists d :: d in w.closedDevices && d.mac == mac;
    var ov := w.schedule.overrideEntry;
    if (isOpen || isClosed) && ov.Some? && ov.value.item == DeviceOverride.Closed then Some(Drop)
    else if (isOpen || isClosed) && ov.Some? && ov.value.item == DeviceOverride.Open then Some(Accept)
    else if isOpen then Some(Accept)
    else if isClosed then Some(Drop)
    else if w.schedule.guestEntry.item == GuestPath.Closed then Some(Drop)
    else None
  }

  /** Evaluating a concatenation: the first part decides if it can. */
  lemma {:induction false} EvalConcat(a: seq<Command>, b: seq<Command>, chain: string, mac: string)
    ensures EvalChain(a + b, chain, mac)
         == if EvalChain(a, chain, mac).Some? then EvalChain(a, chain, mac) else EvalChain(b, chain, mac)
  {
    if |a| > 0 {
      assert (a + b)[1..] == a[1..] + b;
      EvalConcat(a[1..], b, chain, mac);
    } else {
      assert a + b == b;
    }
  }

  /** A block of MAC rules of one chain that share one action. */
  ghost predicate UniformRules(s: seq<Command>, chain: string, action: Action)
  {
    forall i :: 0 <= i < |s| ==> s[i].MacRule? && s[i].chain == chain && s[i].action == action
  }

  lemma {:induction false} EvalUniform(s: seq<Command>, chain: string, action: Action, mac: string)
    requires UniformRules(s, chain, action)
    ensures EvalChain(s, chain, mac)
         == if exists i :: 0 <= i < |s| && s[i].mac == mac then Some(action) else None
  {
    if |s| > 0 {
      EvalUniform(s[1..], chain, action, mac);
      if s[0].mac != mac {
        assert (exists i :: 0 <= i < |s| && s[i].mac == mac)
           <==> (exists i :: 0 <= i < |s[1..]| && s[1..][i].mac == mac) by {
          if exists i :: 0 <= i < |s| && s[i].mac == mac {
            var i :| 0 <= i < |s| && s[i].mac == mac;
            assert s[1..][i - 1].mac == mac;
          }
        }
      }
    }
  }

  lemma EvalOpenRules(w: World, chain: string, mac: string)
    ensures EvalChain(OpenRules(chain, w), chain, mac)
         == if exists e :: e in w.schedule.openDeviceEntries && e.item.mac == mac
            then Some(ActionWithOverride(w.schedule.overrideEntry, Accept)) else None
  {
    var rules := OpenRules(chain, w);
    var entries := w.schedule.openDeviceEntries;
    EvalUniform(rules, chain, ActionWithOverride(w.schedule.overrideEntry, Accept), mac);
    if exists e :: e in entries && e.item.mac == mac {
      var e :| e in entries && e.item.mac == mac;
      var i :| 0 <= i < |entries| && entries[i] == e;
      assert rules[i].mac == mac;
    }
  }

  lemma EvalClosedRules(w: World, chain: string, mac: string)
    ensures EvalChain(ClosedRules(chain, w), chain, mac)
         == if exists d :: d in w.closedDevices && d.mac == mac
            then Some(ActionWithOverride(w.schedule.overrideEntry, Drop)) else None
  {
    var rules := ClosedRules(chain, w);
    var devs := w.closedDevices;
    EvalUniform(rules, chain, ActionWithOverride(w.schedule.overrideEntry, Drop), mac);
    if exists d :: d in devs && d.mac == mac {
      var d :| d in devs && d.mac == mac;
      var i :| 0 <= i < |devs| && devs[i] == d;
      assert rules[i].mac == mac;
    }
  }

  lemma CommandsShape(w: World, oldChain: Option<string>, newChain: string)
    ensures Commands(w, oldChain, newChain)
         == [NewChain(newChain)] + (OpenRules(newChain, w) + (ClosedRules(newChain, w)
            + (GuestRule(newChain, w) + SwapCommands(oldChain, newChain))))
  {
  }

  /** The verdict the guest catch-all and the trailing swap give. */
  function GuestVerdict(w: World): Option<Action>
  {
    if w.schedule.guestEntry.item == GuestPath.Closed then Some(Drop) else None
  }

  /** The intended verdict read block by block: an open entry's rule first,
      then a closed device's rule, then the guest catch-all. */
  lemma VerdictByBlocks(w: World, mac: string)
    ensures Verdict(w, mac)
         == if exists e :: e in w.schedule.openDeviceEntries && e.item.mac == mac
            then Some(ActionWithOverride(w.schedule.overrideEntry, Accept))
            else if exists d :: d in w.closedDevices && d.mac == mac
            then Some(ActionWithOverride(w.schedule.overrideEntry, Drop))
            else GuestVerdict(w)
  {
  }

  /** What the commands after the open-device rules decide. */
  lemma EvalAfterOpenRules(w: World, oldChain: Option<string>, newChain: string, mac: string)
    ensures EvalChain(ClosedRules(newChain, w) + (GuestRule(newChain, w) + SwapCommands(oldChain, newChain)), newChain, mac)
         == if exists d :: d in w.closedDevices && d.mac == mac
            then Some(ActionWithOverride(w.schedule.overrideEntry, Drop))
            else GuestVerdict(w)
  {
    var closeds := ClosedRules(newChain, w);
    var guest := GuestRule(newChain, w);
    var tail := SwapCommands(oldChain, newChain);
    EvalConcat(closeds, guest + tail, newChain, mac);
    EvalConcat(guest, tail, newChain, mac);
    SwapDecidesNothing(oldChain, newChain, mac);
    assert EvalChain(guest + tail, newChain, mac) == GuestVerdict(w);
    EvalClosedRules(w, newChain, mac);
  }

  /** The emitted chain enforces the intended precedence: override over the
      per-device schedule, open entries ahead of closed devices, and the
      guest catch-all only for traffic no MAC rule matched. */
  lemma ChainEnforcesPolicy(w: World, oldChain: Option<string>, newChain: string, mac: string)
    ensures EvalChain(Commands(w, oldChain, newChain), newChain, mac) == Verdict(w, mac)
  {
    var opens := OpenRules(newChain, w);
    var rest := ClosedRules(newChain, w) + (GuestRule(newChain, w) + SwapCommands(oldChain, newChain));
    CommandsShape(w, oldChain, newChain);
    EvalConcat([NewChain(newChain)], opens + rest, newChain, mac);
    EvalConcat(opens, rest, newChain, mac);
    EvalOpenRules(w, newChain, mac);
    EvalAfterOpenRules(w, oldChain, newChain, mac);
    VerdictByBlocks(w, mac);
  }

  /** The insert and delete commands for the FORWARD jumps decide no verdict. */
  lemma SwapDecidesNothing(oldChain: Option<string>, newChain: string, mac: string)
    ensures EvalChain(SwapCommands(oldChain, newChain), newChain, mac) == None
  {
    var tail := SwapCommands(oldChain, newChain);
    assert tail[0].HookForward?;
    assert EvalChain(tail[1..], newChain, mac) == None by {
      if |tail[1..]| > 0 {
        assert tail[1..][0].UnhookForward? && tail[1..][1..] == [];
      }
    }
  }

  /** The guest catch-all rule is emitted exactly when the guest path is
      closed. */
  lemma DropAllIffGuestClosed(w: World, oldChain: Option<string>, newChain: string)
    ensures DropAll(newChain) in Commands(w, oldChain, newChain)
        <==> w.schedule.guestEntry.item == GuestPath.Closed
  {
    var opens := OpenRules(newChain, w);
    var closeds := ClosedRules(newChain, w);
    var guest := GuestRule(newChain, w);
    var swap := SwapCommands(oldChain, newChain);
    var r := Commands(w, oldChain, newChain);
    CommandsShape(w, oldChain, newChain);
    Layout(NewChain(newChain), opens, closeds, guest, swap);
    forall j | 0 <= j < |r|
      ensures r[j].DropAll? ==> w.schedule.guestEntry.item == GuestPath.Closed
    {
    }
  }

  /** Unknown devices get no rule: the script does not depend on them. */
  lemma ScriptIgnoresUnknownDevices(w: World, unknown: DeviceSet, oldChain: Option<string>, newChain: string)
    ensures ScriptLines(w.(unknownDevices := unknown), oldChain, newChain) == ScriptLines(w, oldChain, newChain)
  {
    var w' := w.(unknownDevices := unknown);
    assert OpenRules(newChain, w') == OpenRules(newChain, w);
    assert ClosedRules(newChain, w') == ClosedRules(newChain, w);
    assert Commands(w', oldChain, newChain) == Commands(w, oldChain, newChain);
  }
}
