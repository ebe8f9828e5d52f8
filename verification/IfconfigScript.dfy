/** tests/parse_ifconfig.py as it is written: Device objects whose attributes the line
    methods assign one by one, and the loop of IfConfig.__init__ over the output lines. */
module IfconfigScript {
  import opened Wrappers
  import opened IfconfigPatterns
  import opened IfconfigParser
  import Prefixes

  lemma PutNone(u: Attrs)
    ensures u + map[] == u
  {
  }

  lemma PutOne(u: Attrs, a: Attr, v: Val)
    ensures u[a := v] == u + map[a := v]
  {
  }

  lemma PutTwo(u: Attrs, a: Attr, v: Val, b: Attr, w: Val)
    ensures u[a := v][b := w] == u + map[a := v, b := w]
  {
  }

  class Device {
    const name: string
    var attrs: Attrs

    constructor (name: string)
      ensures this.name == name && attrs == UNSET
    {
      this.name := name;
      attrs := UNSET;
    }

    /** self.a = v; `u` keeps track of what has been assigned since the attributes were `was`. */
    method Put(a: Attr, v: Val, ghost was: Attrs, ghost u: Attrs) returns (ghost u': Attrs)
      requires attrs == was + u
      modifies this
      ensures u' == u[a := v] && attrs == was + u'
    {
      attrs := attrs[a := v];
      u' := u[a := v];
    }

    /** _parse_rest_of_first_line; false is its ValueError. */
    method ParseRestOfFirstLine(text: string) returns (ok: bool)
      modifies this
      ensures ok == NewHeaderUpdate(text).Some?
      ensures attrs == if ok then old(attrs) + NewHeaderUpdate(text).value else old(attrs)
    {
      hide MatchFlags, MatchOutfill;
      var m := MatchFlags(text);
      if m.None? {
        return false;
      }
      ghost var was, u := attrs, map[];
      u := Put(FLAGS_INT, Num(m.value.0), was, u);
      u := Put(FLAGS_STR, Str(m.value.1), was, u);
      u := Put(MTU, Num(m.value.2), was, u);
      var m2 := MatchOutfill(m.value.3);
      if m2.Some? {
        PutTwo(u, OUTFILL, Num(m2.value.0), KEEPALIVE, Num(m2.value.1));
        u := Put(OUTFILL, Num(m2.value.0), was, u);
        u := Put(KEEPALIVE, Num(m2.value.1), was, u);
      } else {
        PutNone(u);
      }
      assert u == NewHeaderUpdate(text).value;
      return true;
    }

    /** _parse_rest_of_first_line_old; false is its ValueError. */
    method ParseRestOfFirstLineOld(text: string) returns (ok: bool)
      modifies this
      ensures ok == OldHeaderUpdate(text).Some?
      ensures attrs == if ok then old(attrs) + OldHeaderUpdate(text).value else old(attrs)
    {
      hide MatchEncap;
      var m := MatchEncap(text);
      if m.None? {
        return false;
      }
      ghost var was, u := attrs, map[];
      u := Put(HW_TITLE, Str(m.value.0), was, u);
      if m.value.1.Some? {
        PutOne(u, HW_ADDR, Str(m.value.1.value));
        u := Put(HW_ADDR, Str(m.value.1.value), was, u);
      } else {
        PutNone(u);
      }
      assert u == OldHeaderUpdate(text).value;
      return true;
    }

    /** The branch for IPv4 addresses. */
    method ParseInet(text: string) returns (matched: bool)
      modifies this
      ensures matched == InetUpdate(text).Some?
      ensures attrs == if matched then old(attrs) + InetUpdate(text).value else old(attrs)
    {
      hide MatchInet, MatchBroadcast, MatchDestination;
      var m := MatchInet(text);
      if m.None? {
        return false;
      }
      ghost var was, u := attrs, map[];
      u := Put(INET, Str(m.value.0), was, u);
      u := Put(NETMASK, Str(m.value.1), was, u);
      var line := m.value.2;
      var b := MatchBroadcast(line);
      if b.Some? {
        PutOne(u, BROADCAST, Str(b.value.0));
        u := Put(BROADCAST, Str(b.value.0), was, u);
        line := b.value.1;
      } else {
        PutNone(u);
      }
      var d := MatchDestination(line);
      if d.Some? {
        PutOne(u, DESTINATION, Str(d.value));
        u := Put(DESTINATION, Str(d.value), was, u);
      } else {
        PutNone(u);
      }
      assert u == InetUpdate(text).value;
      return true;
    }

    /** The chain of optional parts behind 'device'. */
    method ParseDeviceParts(text: string)
      modifies this
      ensures attrs == old(attrs) + DeviceParts(text)
    {
      hide MatchInterrupt, MatchBase, MatchMemory, MatchDma;
      ghost var was, u := attrs, map[];
      var line := text;
      var i := MatchInterrupt(line);
      if i.Some? {
        u := Put(INTERRUPT, Num(i.value.0), was, u);
        line := i.value.1;
      }
      var b := MatchBase(line);
      if b.Some? {
        PutOne(u, BASE_ADDR, Num(b.value.0));
        u := Put(BASE_ADDR, Num(b.value.0), was, u);
        line := b.value.1;
      } else {
        PutNone(u);
      }
      var m := MatchMemory(line);
      if m.Some? {
        PutTwo(u, MEM_START, Num(m.value.0), MEM_END, Num(m.value.1));
        u := Put(MEM_START, Num(m.value.0), was, u);
        u := Put(MEM_END, Num(m.value.1), was, u);
        line := m.value.2;
      } else {
        PutNone(u);
      }
      var d := MatchDma(line);
      if d.Some? {
        PutOne(u, DMA, Num(d.value));
        u := Put(DMA, Num(d.value), was, u);
      } else {
        PutNone(u);
      }
      assert u == DeviceParts(text);
    }

    /** _parse_line; false is its ValueError. */
    method ParseLine(line: string) returns (ok: bool)
      modifies this
      ensures ok == NewUpdate(line).Some?
      ensures attrs == if ok then old(attrs) + NewUpdate(line).value else old(attrs)
    {
      hide InetUpdate, MatchInet6, MatchHwWith, MatchHwWithout, MatchPackets, MatchRxErrors,
           MatchTxErrors, MatchDevice, DeviceParts;
      var matched := ParseInet(line);
      if matched {
        return true;
      }
      ghost var was, u := attrs, map[];
      var inet6 := MatchInet6(line);
      if inet6.Some? {
        u := Put(INET6, Str(inet6.value.0), was, u);
        u := Put(PREFIX_LEN, Num(inet6.value.1), was, u);
        u := Put(SCOPE_ID, Str(inet6.value.2), was, u);
        return true;
      }
      var with := MatchHwWith(line);
      if with.Some? {
        u := Put(HW_NAME, Str(with.value.0), was, u);
        u := Put(HW_ADDR, Str(with.value.1), was, u);
        u := Put(TX_QUEUE_LEN, Num(with.value.2), was, u);
        u := Put(HW_TITLE, Str(with.value.3), was, u);
        return true;
      }
      var without := MatchHwWithout(line);
      if without.Some? {
        u := Put(HW_NAME, Str(without.value.0), was, u);
        u := Put(HW_ADDR, Nothing, was, u);
        u := Put(TX_QUEUE_LEN, Num(without.value.1), was, u);
        u := Put(HW_TITLE, Str(without.value.2), was, u);
        return true;
      }
      var rx := MatchPackets("RX", line);
      if rx.Some? {
        u := Put(RX_PACKETS, Num(rx.value.0), was, u);
        u := Put(RX_BYTES, Num(rx.value.1), was, u);
        return true;
      }
      var rxe := MatchRxErrors(line);
      if rxe.Some? {
        u := Put(RX_ERRORS, Num(rxe.value.0), was, u);
        u := Put(RX_DROPPED, Num(rxe.value.1), was, u);
        u := Put(RX_OVERRUNS, Num(rxe.value.2), was, u);
        u := Put(RX_FRAME, Num(rxe.value.3), was, u);
        return true;
      }
      var tx := MatchPackets("TX", line);
      if tx.Some? {
        u := Put(TX_PACKETS, Num(tx.value.0), was, u);
        u := Put(TX_BYTES, Num(tx.value.1), was, u);
        return true;
      }
      var txe := MatchTxErrors(line);
      if txe.Some? {
        u := Put(TX_ERRORS, Num(txe.value.0), was, u);
        u := Put(TX_DROPPED, Num(txe.value.1), was, u);
        u := Put(TX_OVERRUNS, Num(txe.value.2), was, u);
        u := Put(TX_CARRIER, Num(txe.value.3), was, u);
        u := Put(TX_COLLISIONS, Num(txe.value.4), was, u);
        return true;
      }
      var device := MatchDevice(line);
      if device.Some? {
        ParseDeviceParts(device.value);
        return true;
      }
      return false;
    }

    /** The old format's branch for IPv4 addresses. */
    method ParseInetOld(text: string) returns (matched: bool)
      modifies this
      ensures matched == InetOldUpdate(text).Some?
      ensures attrs == if matched then old(attrs) + InetOldUpdate(text).value else old(attrs)
    {
      hide MatchLabelled;
      var m := MatchLabelled("inet addr:", text);
      if m.None? {
        return false;
      }
      ghost var was, u := attrs, map[];
      u := Put(INET, Str(m.value.0), was, u);
      var line := m.value.1;
      var p := MatchLabelled("P-t-P:", line);
      if p.Some? {
        PutOne(u, DESTINATION, Str(p.value.0));
        u := Put(DESTINATION, Str(p.value.0), was, u);
        line := p.value.1;
      } else {
        PutNone(u);
      }
      var b := MatchLabelled("Bcast:", line);
      if b.Some? {
        PutOne(u, BROADCAST, Str(b.value.0));
        u := Put(BROADCAST, Str(b.value.0), was, u);
        line := b.value.1;
      } else {
        PutNone(u);
      }
      var k := MatchLabelled("Mask:", line);
      if k.Some? {
        PutOne(u, NETMASK, Str(k.value.0));
        u := Put(NETMASK, Str(k.value.0), was, u);
      } else {
        PutNone(u);
      }
      assert u == InetOldUpdate(text).value;
      return true;
    }

    /** The old format's branch for flags and MTU. */
    method ParseFlagsOld(line: string) returns (matched: bool)
      modifies this
      ensures matched == FlagsOldUpdate(line).Some?
      ensures attrs == if matched then old(attrs) + FlagsOldUpdate(line).value else old(attrs)
    {
      hide MatchFlagsOld, MatchOutfillOld;
      var m := MatchFlagsOld(line);
      if m.None? {
        return false;
      }
      ghost var was, u := attrs, map[];
      u := Put(FLAGS_STR, Str(m.value.0), was, u);
      u := Put(MTU, Num(m.value.1), was, u);
      u := Put(METRIC, Num(m.value.2), was, u);
      var m2 := MatchOutfillOld(m.value.3);
      if m2.Some? {
        PutTwo(u, OUTFILL, Num(m2.value.0), KEEPALIVE, Num(m2.value.1));
        u := Put(OUTFILL, Num(m2.value.0), was, u);
        u := Put(KEEPALIVE, Num(m2.value.1), was, u);
      } else {
        PutNone(u);
      }
      assert u == FlagsOldUpdate(line).value;
      return true;
    }

    /** The old format's branch for collisions and the queue length. */
    method ParseCollisions(text: string) returns (matched: bool)
      modifies this
      ensures matched == CollisionsUpdate(text).Some?
      ensures attrs == if matched then old(attrs) + CollisionsUpdate(text).value else old(attrs)
    {
      hide MatchCollisions, MatchCompressed, MatchQueueOld;
      var m := MatchCollisions(text);
      if m.None? {
        return false;
      }
      ghost var was, u := attrs, map[];
      u := Put(TX_COLLISIONS, Num(m.value.0), was, u);
      var line := m.value.1;
      var c := MatchCompressed(line);
      if c.Some? {
        PutOne(u, TX_COMPRESSED, Num(c.value.0));
        u := Put(TX_COMPRESSED, Num(c.value.0), was, u);
        line := c.value.1;
      } else {
        PutNone(u);
      }
      var q := MatchQueueOld(line);
      if q.Some? {
        PutOne(u, TX_QUEUE_LEN, Num(q.value));
        u := Put(TX_QUEUE_LEN, Num(q.value), was, u);
      } else {
        PutNone(u);
      }
      assert u == CollisionsUpdate(text).value;
      return true;
    }

    /** The end of _parse_line_old, reached by every line no pattern before has taken. */
    method ParseHardwareOld(text: string)
      modifies this
      ensures attrs == old(attrs) + HardwareOldUpdate(text)
    {
      hide MatchInterruptOld, MatchBaseOld, MatchMemoryOld, MatchDmaOld;
      ghost var was, u := attrs, map[];
      var line := text;
      var i := MatchInterruptOld(line);
      if i.Some? {
        u := Put(INTERRUPT, Num(i.value.0), was, u);
        line := i.value.1;
      }
      var b := MatchBaseOld(line);
      if b.Some? {
        PutOne(u, BASE_ADDR, Num(b.value.0));
        u := Put(BASE_ADDR, Num(b.value.0), was, u);
        line := b.value.1;
      } else {
        PutNone(u);
      }
      var m := MatchMemoryOld(line);
      if m.Some? {
        PutTwo(u, MEM_START, Num(m.value.0), MEM_END, Num(m.value.1));
        u := Put(MEM_START, Num(m.value.0), was, u);
        u := Put(MEM_END, Num(m.value.1), was, u);
        line := m.value.2;
      } else {
        PutNone(u);
      }
      var d := MatchDmaOld(line);
      if d.Some? {
        PutOne(u, DMA, Num(d.value));
        u := Put(DMA, Num(d.value), was, u);
      } else {
        PutNone(u);
      }
      assert u == HardwareOldUpdate(text);
    }

    /** _parse_line_old */
    method ParseLineOld(line: string)
      modifies this
      ensures attrs == old(attrs) + OldUpdate(line)
    {
      hide InetOldUpdate, MatchInet6Old, FlagsOldUpdate, MatchCounters, MatchCompressedLine,
           CollisionsUpdate, MatchBytesOld, HardwareOldUpdate;
      var matched := ParseInetOld(line);
      if matched {
        return;
      }
      ghost var was, u := attrs, map[];
      var inet6 := MatchInet6Old(line);
      if inet6.Some? {
        u := Put(INET6, Str(inet6.value.0), was, u);
        u := Put(PREFIX_LEN, Num(inet6.value.1), was, u);
        u := Put(SCOPE_ID, Str(inet6.value.2), was, u);
        return;
      }
      matched := ParseFlagsOld(line);
      if matched {
        return;
      }
      var rx := MatchCounters("RX", "frame:", line);
      if rx.Some? {
        u := Put(RX_PACKETS, Num(rx.value.0), was, u);
        u := Put(RX_ERRORS, Num(rx.value.1), was, u);
        u := Put(RX_DROPPED, Num(rx.value.2), was, u);
        u := Put(RX_OVERRUNS, Num(rx.value.3), was, u);
        u := Put(RX_FRAME, Num(rx.value.4), was, u);
        return;
      }
      var compressed := MatchCompressedLine(line);
      if compressed.Some? {
        u := Put(RX_COMPRESSED, Num(compressed.value), was, u);
        return;
      }
      var tx := MatchCounters("TX", "carrier:", line);
      if tx.Some? {
        u := Put(TX_PACKETS, Num(tx.value.0), was, u);
        u := Put(TX_ERRORS, Num(tx.value.1), was, u);
        u := Put(TX_DROPPED, Num(tx.value.2), was, u);
        u := Put(TX_OVERRUNS, Num(tx.value.3), was, u);
        u := Put(TX_CARRIER, Num(tx.value.4), was, u);
        return;
      }
      matched := ParseCollisions(line);
      if matched {
        return;
      }
      var bytes := MatchBytesOld(line);
      if bytes.Some? {
        u := Put(RX_BYTES, Num(bytes.value.0), was, u);
        u := Put(TX_BYTES, Num(bytes.value.1), was, u);
        return;
      }
      ParseHardwareOld(line);
    }

    /** get_netmask_bits; None is an OSError from inet_aton. */
    method GetNetmaskBits() returns (r: Option<nat>)
      requires NETMASK in attrs && !attrs[NETMASK].Num?
      ensures r == Prefixes.NetmaskBits(
        if attrs[NETMASK].Str? then Some(attrs[NETMASK].s) else None)
    {
      if attrs[NETMASK].Nothing? || attrs[NETMASK].s == "" {
        return Some(0);
      }
      var packed := Prefixes.Aton(attrs[NETMASK].s);
      if packed.None? {
        return None;
      }
      var result := Prefixes.CountBits(packed.value);
      return Some(result);
    }
  }

  lemma ParseStep(lines: seq<string>, i: nat)
    requires i < |lines|
    ensures ParseLines(lines[..i + 1]) == Step(ParseLines(lines[..i]), lines[i])
  {
    hide Step;
    assert lines[..i + 1][..i] == lines[..i];
  }

  lemma FailureStays(lines: seq<string>, i: nat)
    requires i <= |lines| && ParseLines(lines[..i]).Failed?
    ensures ParseLines(lines).Failed?
    decreases |lines| - i
  {
    if i < |lines| {
      ParseStep(lines, i);
      FailureStays(lines, i + 1);
    } else {
      assert lines[..i] == lines;
    }
  }

  /** What one round of the loop comes to, header lines of either format first. */
  function HeaderStep(p: Parser, name: string, update: Option<Attrs>, inOldFormat: bool): Parser
    requires p.Parser?
  {
    if update.None? then Failed
    else Parser(p.devices + [Dev(name, UNSET + update.value)], Some(inOldFormat))
  }

  lemma StepNewHeader(p: Parser, line: string)
    requires p.Parser? && line != "" && MatchNewHeader(line).Some?
    ensures var m := MatchNewHeader(line).value;
            Step(p, line) == HeaderStep(p, m.0, NewHeaderUpdate(m.1), false)
  {
    hide MatchNewHeader, NewHeaderUpdate;
  }

  lemma StepOldHeader(p: Parser, line: string)
    requires p.Parser? && line != "" && MatchNewHeader(line).None? && MatchOldHeader(line).Some?
    ensures var m := MatchOldHeader(line).value;
            Step(p, line) == HeaderStep(p, m.0, OldHeaderUpdate(m.1), true)
  {
    hide MatchNewHeader, MatchOldHeader, OldHeaderUpdate;
  }

  function BodyStep(p: Parser, update: Option<Attrs>): Parser
    requires p.Parser? && p.devices != []
  {
    if update.None? then Failed
    else
      var n := |p.devices| - 1;
      p.(devices := p.devices[n := p.devices[n].(attrs := p.devices[n].attrs + update.value)])
  }

  lemma StepBody(p: Parser, line: string)
    requires p.Parser? && line != "" && MatchNewHeader(line).None? && MatchOldHeader(line).None?
    requires p.devices != [] ==> p.oldFormat.Some?
    ensures Step(p, line)
         == if p.devices == [] then p else BodyStep(p, BodyUpdate(p.oldFormat.value, line))
  {
    hide MatchNewHeader, MatchOldHeader, BodyUpdate, NewHeaderUpdate, OldHeaderUpdate;
  }

  /** The loop of IfConfig.__init__: the devices found so far and the format flag. */
  class IfConfig {
    var devices: seq<Device>
    var oldFormat: Option<bool>

    ghost predicate Valid()
      reads this
    {
      forall i, j :: 0 <= i < j < |devices| ==> devices[i] != devices[j]
    }

    ghost function Devs(): (devs: seq<Dev>)
      reads this, devices
      ensures |devs| == |devices|
    {
      seq(|devices|, i requires 0 <= i < |devices| reads this, devices =>
                       Dev(devices[i].name, devices[i].attrs))
    }

    /** The state of the loop as a value. */
    ghost function View(): Parser
      reads this, devices
    {
      Parser(Devs(), oldFormat)
    }

    constructor ()
      ensures View() == START && devices == []
    {
      devices := [];
      oldFormat := None;
    }

    /** A new current device. */
    method Append(curdev: Device, inOldFormat: bool)
      requires Valid() && curdev !in devices
      modifies this
      ensures Valid() && devices == old(devices) + [curdev] && oldFormat == Some(inOldFormat)
      ensures Devs() == old(Devs()) + [Dev(curdev.name, curdev.attrs)]
    {
      oldFormat := Some(inOldFormat);
      devices := devices + [curdev];
    }

    /** A header line. */
    method Begin(name: string, rest: string, inOldFormat: bool) returns (ok: bool)
      requires Valid()
      modifies this
      ensures Valid() && devices != [] && fresh(devices[|devices| - 1])
      ensures |devices| == |old(devices)| + 1
      ensures forall k :: 0 <= k < |old(devices)| ==> devices[k] == old(devices)[k]
      ensures var update := if inOldFormat then OldHeaderUpdate(rest) else NewHeaderUpdate(rest);
              && ok == HeaderStep(old(View()), name, update, inOldFormat).Parser?
              && (ok ==> View() == HeaderStep(old(View()), name, update, inOldFormat))
    {
      hide OldHeaderUpdate, NewHeaderUpdate, Devs;
      var curdev := new Device(name);
      Append(curdev, inOldFormat);
      if inOldFormat {
        ok := curdev.ParseRestOfFirstLineOld(rest);
      } else {
        ok := curdev.ParseRestOfFirstLine(rest);
      }
      LastDev(curdev);
    }

    /** Only the last device has changed since the method began. */
    twostate lemma LastDev(new curdev: Device)
      requires |devices| == |old(devices)| + 1 && devices == old(devices) + [curdev]
      requires forall k :: 0 <= k < |old(devices)| ==> unchanged(old(devices)[k])
      ensures Devs() == old(Devs()) + [Dev(curdev.name, curdev.attrs)]
    {
    }

    /** A line in the block of the current device. */
    method Continue(line: string) returns (ok: bool)
      requires Valid() && devices != [] && oldFormat.Some?
      modifies devices[|devices| - 1]
      ensures Valid() && devices == old(devices) && oldFormat == old(oldFormat)
      ensures var update := BodyUpdate(oldFormat.value, line);
              && ok == BodyStep(old(View()), update).Parser?
              && (ok ==> View() == BodyStep(old(View()), update))
    {
      hide OldUpdate, NewUpdate;
      var curdev := devices[|devices| - 1];
      if oldFormat.value {
        curdev.ParseLineOld(line);
        ok := true;
      } else {
        ok := curdev.ParseLine(line);
      }
    }

    /** The body of the loop; false is a ValueError. */
    method TakeLine(line: string) returns (ok: bool)
      requires Valid() && (devices != [] ==> oldFormat.Some?)
      modifies this, devices
      ensures Valid()
      ensures forall k :: 0 <= k < |devices| ==>
        if k < |old(devices)| then devices[k] == old(devices)[k] else fresh(devices[k])
      ensures ok == Step(old(View()), line).Parser?
      ensures ok ==> View() == Step(old(View()), line)
    {
      hide Step, MatchNewHeader, MatchOldHeader, OldHeaderUpdate, NewHeaderUpdate, BodyUpdate, Devs,
           HeaderStep, BodyStep;
      if line == "" {
        EmptyStep(View());
        return true;
      }
      var m := MatchNewHeader(line);
      var mo := MatchOldHeader(line);
      if m.Some? {
        StepNewHeader(View(), line);
        ok := Begin(m.value.0, m.value.1, false);
        return;
      }
      if mo.Some? {
        StepOldHeader(View(), line);
        ok := Begin(mo.value.0, mo.value.1, true);
        return;
      }
      StepBody(View(), line);
      if devices == [] {
        return true;
      }
      ok := Continue(line);
    }

    /** IfConfig.__init__, once the output is there; false is a ValueError. */
    method Init(stdout: string) returns (ok: bool)
      requires devices == [] && oldFormat.None?
      modifies this
      ensures ok == Parse(stdout).Parser?
      ensures ok ==> View() == Parse(stdout)
    {
      hide ParseLines, SplitLines, Devs, Step;
      var lines := SplitLines(stdout);
      Beginning(lines);
      for i := 0 to |lines|
        invariant Valid() && View() == ParseLines(lines[..i])
        invariant forall k :: 0 <= k < |devices| ==> fresh(devices[k])
      {
        ParseStep(lines, i);
        FlagSetBeforeRead(lines[..i]);
        ok := TakeLine(lines[i]);
        if !ok {
          FailureStays(lines, i + 1);
          return;
        }
      }
      assert lines[..|lines|] == lines;
      return true;
    }

    predicate NoneNamed(devname: string, n: nat)
      reads this
      requires n <= |devices|
    {
      forall k :: 0 <= k < n ==> devices[k].name != devname
    }

    /** get_device_by_name: the first device of that name; None is its ValueError. */
    method GetDeviceByName(devname: string) returns (r: Option<Device>)
      ensures r.None? ==> forall k :: 0 <= k < |devices| ==> devices[k].name != devname
      ensures r.Some? ==> r.value.name == devname
      ensures r.Some? ==> exists k ::
        0 <= k < |devices| && devices[k] == r.value && NoneNamed(devname, k)
    {
      for k := 0 to |devices|
        invariant NoneNamed(devname, k)
      {
        if devices[k].name == devname {
          return Some(devices[k]);
        }
      }
      return None;
    }
  }

  lemma EmptyStep(p: Parser)
    ensures Step(p, "") == p
  {
  }

  lemma Beginning(lines: seq<string>)
    ensures ParseLines(lines[..0]) == START
  {
  }
}
