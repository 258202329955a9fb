/** The per-line parsing of `read_dhcp_devices`: a lease line is split with
    `splitn(4, char::is_whitespace)`, the MAC is field 1 and the name is
    field 3 (the unsplit remainder). A line with fewer than four fields is
    indexed out of bounds, which panics instead of skipping the line. */
module DhcpLeases {
  import opened Wrappers
  import opened OrderedSets
  import opened Types
  import opened Strings

  /** Index of the first whitespace character of `s`, if any. */
  function FirstWhitespace(s: string): (r: Option<nat>)
    ensures r.None? <==> NoWhitespace(s)
    ensures r.Some? ==> r.value < |s| && IsWhitespace(s[r.value]) && NoWhitespace(s[..r.value])
  {
    if |s| == 0 then None
    else if IsWhitespace(s[0]) then Some(0)
    else match FirstWhitespace(s[1..])
      case None => None
      case Some(i) =>
        assert s[..i + 1] == [s[0]] + s[1..][..i];
        Some(i + 1)
  }

  /** Rust's `str::splitn(n, char::is_whitespace)` for `n >= 1`: every single
      whitespace character separates two fields (so a run of whitespace
      yields empty fields), and the last of the `n` fields is the rest of the
      string, unsplit. */
  function SplitN(s: string, n: nat): (parts: seq<string>)
    requires n >= 1
    ensures 1 <= |parts| <= n
    ensures forall i :: 0 <= i < |parts| - 1 ==> NoWhitespace(parts[i])
    ensures |parts| < n ==> NoWhitespace(parts[|parts| - 1])
    decreases n
  {
    if n == 1 then [s]
    else match FirstWhitespace(s)
      case None => [s]
      case Some(i) => [s[..i]] + SplitN(s[i + 1..], n - 1)
  }

  /** Number of whitespace characters in `s`. */
  function WhitespaceCount(s: string): nat
  {
    if |s| == 0 then 0 else (if IsWhitespace(s[0]) then 1 else 0) + WhitespaceCount(s[1..])
  }

  lemma {:induction false} WhitespaceCountAppend(a: string, b: string)
    ensures WhitespaceCount(a + b) == WhitespaceCount(a) + WhitespaceCount(b)
  {
    if |a| > 0 {
      assert (a + b)[1..] == a[1..] + b;
      WhitespaceCountAppend(a[1..], b);
    } else {
      assert a + b == b;
    }
  }

  lemma {:induction false} NoWhitespaceCountsZero(s: string)
    requires NoWhitespace(s)
    ensures WhitespaceCount(s) == 0
  {
    if |s| > 0 {
      NoWhitespaceCountsZero(s[1..]);
    }
  }

  /** Splitting at the first whitespace character uses up exactly one of
      the whitespace characters. */
  lemma CountAfterFirstWhitespace(s: string, i: nat)
    requires FirstWhitespace(s) == Some(i)
    ensures WhitespaceCount(s) == 1 + WhitespaceCount(s[i + 1..])
  {
    var head, sep, tail := s[..i], [s[i]], s[i + 1..];
    assert s == head + (sep + tail);
    WhitespaceCountAppend(head, sep + tail);
    WhitespaceCountAppend(sep, tail);
    NoWhitespaceCountsZero(head);
    assert sep[1..] == [];
  }

  /** The number of fields is one more than the number of whitespace
      characters, capped at `n`. */
  lemma {:induction false} SplitNFieldCount(s: string, n: nat)
    requires n >= 1
    ensures |SplitN(s, n)| == if WhitespaceCount(s) + 1 < n then WhitespaceCount(s) + 1 else n
    decreases n
  {
    if n > 1 {
      match FirstWhitespace(s)
      case None => NoWhitespaceSingleField(s, n);
      case Some(i) =>
        SplitNFieldCount(s[i + 1..], n - 1);
        FieldCountStep(s, n, i);
    }
  }

  lemma NoWhitespaceSingleField(s: string, n: nat)
    requires n > 1 && FirstWhitespace(s).None?
    ensures |SplitN(s, n)| == if WhitespaceCount(s) + 1 < n then WhitespaceCount(s) + 1 else n
  {
    NoWhitespaceCountsZero(s);
    assert SplitN(s, n) == [s];
  }

  /** One step of `SplitNFieldCount`: the count for the rest of the line
      after the first whitespace gives the count for the whole line. */
  lemma FieldCountStep(s: string, n: nat, i: nat)
    requires n > 1 && FirstWhitespace(s) == Some(i)
    requires |SplitN(s[i + 1..], n - 1)|
          == if WhitespaceCount(s[i + 1..]) + 1 < n - 1 then WhitespaceCount(s[i + 1..]) + 1 else n - 1
    ensures |SplitN(s, n)| == if WhitespaceCount(s) + 1 < n then WhitespaceCount(s) + 1 else n
  {
    CountAfterFirstWhitespace(s, i);
    SplitNStep(s, n, i);
  }

  /** The fields joined back together with one separator character between
      each pair of neighbours. */
  function Interleave(parts: seq<string>, seps: seq<char>): string
    requires |parts| == |seps| + 1
    decreases |seps|
  {
    if |seps| == 0 then parts[0] else parts[0] + [seps[0]] + Interleave(parts[1..], seps[1..])
  }

  /** The whitespace characters `SplitN` cuts at, one between each pair of
      neighbouring fields. */
  function Separators(s: string, n: nat): (seps: seq<char>)
    requires n >= 1
    ensures |seps| == |SplitN(s, n)| - 1
    ensures forall k :: 0 <= k < |seps| ==> IsWhitespace(seps[k])
    decreases n
  {
    if n == 1 then []
    else match FirstWhitespace(s)
      case None => []
      case Some(i) =>
        var rest := Separators(s[i + 1..], n - 1);
        assert forall k :: 1 <= k < |rest| + 1 ==> ([s[i]] + rest)[k] == rest[k - 1];
        [s[i]] + rest
  }

  /** `SplitN` loses nothing but the separators: the fields, joined back by
      the whitespace characters cut at, give the line again. */
  lemma {:induction false} SplitNJoins(s: string, n: nat)
    requires n >= 1
    ensures Interleave(SplitN(s, n), Separators(s, n)) == s
    decreases n
  {
    if n > 1 && FirstWhitespace(s).Some? {
      var i := FirstWhitespace(s).value;
      var rest := s[i + 1..];
      SplitNJoins(rest, n - 1);
      assert SplitN(s, n) == [s[..i]] + SplitN(rest, n - 1);
      assert Separators(s, n) == [s[i]] + Separators(rest, n - 1);
      JoinAtWhitespace(s, i, SplitN(rest, n - 1), Separators(rest, n - 1));
    }
  }

  /** Putting the field before the whitespace at `i` and that whitespace in
      front of a joining of the rest gives the whole string. */
  lemma JoinAtWhitespace(s: string, i: nat, tail: seq<string>, seps: seq<char>)
    requires i < |s|
    requires |tail| == |seps| + 1 && Interleave(tail, seps) == s[i + 1..]
    ensures Interleave([s[..i]] + tail, [s[i]] + seps) == s
  {
    var parts, seps' := [s[..i]] + tail, [s[i]] + seps;
    assert parts[1..] == tail && seps'[1..] == seps;
    assert s == s[..i] + [s[i]] + s[i + 1..];
  }

  /** One step of `SplitN`: the first field is cut at the first whitespace. */
  lemma SplitNStep(s: string, n: nat, i: nat)
    requires n > 1 && FirstWhitespace(s) == Some(i)
    ensures |SplitN(s, n)| == 1 + |SplitN(s[i + 1..], n - 1)|
  {
  }

  /** What parsing one lease line yields: a device, or the panic of indexing
      field `index` of a line that has too few fields. */
  datatype LineParse = Lease(device: Device) | IndexPanic(index: nat)

  /** The loop body of `read_dhcp_devices` for one line. */
  function ParseLeaseLine(line: string): (r: LineParse)
    ensures r.Lease? <==> WhitespaceCount(line) >= 3
    ensures r.IndexPanic? ==> r.index == if WhitespaceCount(line) == 0 then 1 else 3
    ensures r.Lease? ==> |SplitN(line, 4)| == 4 && r.device == Device(SplitN(line, 4)[3], SplitN(line, 4)[1])
  {
    var parts := SplitN(line, 4);
    SplitNFieldCount(line, 4);
    if |parts| <= 1 then IndexPanic(1)
    else if |parts| <= 3 then IndexPanic(3)
    else Lease(Device(parts[3], parts[1]))
  }

  /** A line written as four fields separated by single spaces, the first
      three free of whitespace, parses back into those fields: the MAC is the
      second field and the name is the whole fourth one. */
  lemma ParseFormattedLine(expiry: string, mac: string, ip: string, name: string)
    requires NoWhitespace(expiry) && NoWhitespace(mac) && NoWhitespace(ip)
    ensures ParseLeaseLine(expiry + " " + mac + " " + ip + " " + name) == Lease(Device(name, mac))
  {
    SplitFormattedLine(expiry, mac, ip, name);
  }

  /** The split behind `ParseFormattedLine`: the four fields come back. */
  lemma SplitFormattedLine(expiry: string, mac: string, ip: string, name: string)
    requires NoWhitespace(expiry) && NoWhitespace(mac) && NoWhitespace(ip)
    ensures SplitN(expiry + " " + mac + " " + ip + " " + name, 4) == [expiry, mac, ip, name]
  {
    var l1 := mac + " " + (ip + " " + name);
    assert expiry + " " + mac + " " + ip + " " + name == expiry + " " + l1;
    SplitThreeFields(mac, ip, name);
    SplitAfterField(expiry, l1, 4);
  }

  lemma SplitThreeFields(mac: string, ip: string, name: string)
    requires NoWhitespace(mac) && NoWhitespace(ip)
    ensures SplitN(mac + " " + (ip + " " + name), 3) == [mac, ip, name]
  {
    SplitTwoFields(ip, name);
    SplitAfterField(mac, ip + " " + name, 3);
  }

  lemma SplitTwoFields(ip: string, name: string)
    requires NoWhitespace(ip)
    ensures SplitN(ip + " " + name, 2) == [ip, name]
  {
    SplitAfterField(ip, name, 2);
    assert SplitN(name, 1) == [name];
  }

  /** Splitting `field + " " + rest` stops at the space after `field`. */
  lemma SplitAtSpace(field: string, rest: string)
    requires NoWhitespace(field)
    ensures var s := field + " " + rest;
      FirstWhitespace(s) == Some(|field|) && s[..|field|] == field && s[|field| + 1..] == rest
  {
    var s := field + " " + rest;
    assert s[|field|] == ' ';
    assert s[..|field|] == field;
    assert IsWhitespace(s[|field|]);
    var i := FirstWhitespace(s).value;
    assert forall j :: 0 <= j < i ==> s[j] == s[..i][j];
    assert forall j :: 0 <= j < |field| ==> s[j] == field[j];
  }

  /** A whitespace-free field followed by a space is split off whole. */
  lemma SplitAfterField(field: string, rest: string, n: nat)
    requires NoWhitespace(field) && n >= 2
    ensures SplitN(field + " " + rest, n) == [field] + SplitN(rest, n - 1)
  {
    SplitAtSpace(field, rest);
  }

  /** Two whitespace characters in a row after the first field make the MAC
      field empty. */
  lemma DoubleSpaceGivesEmptyMac(expiry: string, rest: string, c1: char, c2: char)
    requires NoWhitespace(expiry) && IsWhitespace(c1) && IsWhitespace(c2)
    ensures |SplitN(expiry + [c1, c2] + rest, 4)| >= 2 && SplitN(expiry + [c1, c2] + rest, 4)[1] == ""
  {
    var s := expiry + [c1, c2] + rest;
    assert s[|expiry|] == c1 && s[|expiry| + 1] == c2;
    assert s[..|expiry|] == expiry;
    var i := FirstWhitespace(s).value;
    assert forall j :: 0 <= j < i ==> s[j] == s[..i][j];
    assert i == |expiry|;
    var t := s[i + 1..];
    assert t[0] == c2;
    assert FirstWhitespace(t) == Some(0);
    assert SplitN(s, 4) == [s[..i]] + SplitN(t, 3);
    assert SplitN(t, 3) == [t[..0]] + SplitN(t[1..], 2);
  }

  /** The outcome of reading a whole lease file. */
  datatype ReadResult = Devices(devs: DeviceSet) | Panicked(line: nat, index: nat)

  /** The loop of `read_dhcp_devices` over the lines of the lease file,
      inserting each parsed device into `devs`; the first line with too few
      fields panics. */
  method ReadDhcpDevices(lines: seq<string>, devs: DeviceSet) returns (r: ReadResult)
    ensures r.Devices? <==> forall i :: 0 <= i < |lines| ==> ParseLeaseLine(lines[i]).Lease?
    ensures r.Devices? ==> forall d :: d in r.devs <==> d in devs || Parsed(lines, |lines|, d)
    ensures r.Panicked? ==>
      && r.line < |lines|
      && ParseLeaseLine(lines[r.line]) == IndexPanic(r.index)
      && forall i :: 0 <= i < r.line ==> ParseLeaseLine(lines[i]).Lease?
  {
    var acc := devs;
    var k := 0;
    assert forall d :: !Parsed(lines, 0, d);
    while k < |lines|
      invariant 0 <= k <= |lines|
      invariant forall i :: 0 <= i < k ==> ParseLeaseLine(lines[i]).Lease?
      invariant forall d :: d in acc <==> d in devs || Parsed(lines, k, d)
    {
      var parsed := ParseLeaseLine(lines[k]);
      if parsed.IndexPanic? {
        return Panicked(k, parsed.index);
      }
      forall i | 0 <= i < k + 1 ensures ParseLeaseLine(lines[i]).Lease? {
        if i == k {
          assert lines[i] == lines[k];
        }
      }
      ReadStep(lines, k, devs, acc, parsed.device);
      acc := InsertDevice(acc, parsed.device);
      k := k + 1;
    }
    return Devices(acc);
  }

  /** One pass of the loop keeps "the accumulator holds the initial devices
      and those of the lines read so far". */
  lemma ReadStep(lines: seq<string>, k: nat, devs: DeviceSet, acc: DeviceSet, dev: Device)
    requires k < |lines| && ParseLeaseLine(lines[k]) == Lease(dev)
    requires forall d :: d in acc <==> d in devs || Parsed(lines, k, d)
    ensures forall d :: d in InsertDevice(acc, dev) <==> d in devs || Parsed(lines, k + 1, d)
  {
    var acc' := InsertDevice(acc, dev);
    ParsedStep(lines, k, dev);
    assert forall d :: d in acc' <==> d in Elems(acc');
  }

  lemma ParsedStep(lines: seq<string>, k: nat, dev: Device)
    requires k < |lines| && ParseLeaseLine(lines[k]) == Lease(dev)
    ensures forall d :: Parsed(lines, k + 1, d) <==> Parsed(lines, k, d) || d == dev
  {
    forall d ensures Parsed(lines, k + 1, d) <==> Parsed(lines, k, d) || d == dev {
      if Parsed(lines, k + 1, d) {
        var i :| 0 <= i < k + 1 && i < |lines| && ParseLeaseLine(lines[i]) == Lease(d);
        if i == k {
          assert d == dev;
        } else {
          assert Parsed(lines, k, d);
        }
      }
      if d == dev {
        assert ParseLeaseLine(lines[k]) == Lease(d);
      }
    }
  }

  /** `d` is the device of one of the first `k` lines. */
  ghost predicate Parsed(lines: seq<string>, k: nat, d: Device)
  {
    exists i :: 0 <= i < k && i < |lines| && ParseLeaseLine(lines[i]) == Lease(d)
  }
}
