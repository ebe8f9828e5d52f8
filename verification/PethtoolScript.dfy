/** The extension's get/set functions and the script's set commands as they run: buffers are
    filled in place, the device changes under ioctl, the dictionary changes in a loop. */
module PethtoolScript {
  import opened Words
  import opened Wrappers
  import opened Numerals
  import opened StructCodec
  import opened Pethtool
  import opened PethtoolRuns

  /** The device after a set command that carries the struct `image`. */
  function AfterSet(dev: Device, kind: Kind, image: seq<byte>): Device {
    var d := dev.Get(kind);
    dev.Put(kind, d.(stored := if d.accepting then image else d.stored, sets := d.sets + 1))
  }

  lemma CommandWordIsNotRead(dev: Device, kind: Kind, cmd: u32, order: ByteOrder)
    requires ValidDevice(dev)
    ensures InBounds(Table(kind), Size(kind))
    ensures forall i :: 0 <= i < |Table(kind)| ==> Table(kind)[i].offset + 4 <= Size(kind)
    ensures Unpacked(Table(kind), Sent(dev.Get(kind).stored, cmd, order), order)
         == Current(dev, kind, order)
  {
    TableFits(kind);
    CommandWordIsOutside(Table(kind), dev.Get(kind).stored, cmd, order);
  }

  class Ethtool {
    const order: ByteOrder
    var dev: Device

    constructor (order: ByteOrder, dev: Device)
      ensures this.order == order && this.dev == dev
    {
      this.order := order;
      this.dev := dev;
    }

    /** The abstract kernel: a get command fills the struct behind its command word, a set
        command stores the struct it is given. */
    method Ioctl(kind: Kind, buf: array<byte>) returns (err: bool)
      requires ValidDevice(dev) && buf.Length == Size(kind)
      requires Load(buf[..4], order) in {GetCommand(kind), SetCommand(kind)}
      modifies `dev, buf
      ensures old(Load(buf[..4], order)) == GetCommand(kind) ==>
        && dev == old(dev) && err == !dev.Get(kind).supported
        && buf[..4] == old(buf[..4])
        && (!err ==> buf[4..] == dev.Get(kind).stored[4..])
      ensures old(Load(buf[..4], order)) == SetCommand(kind) ==>
        && err == !old(dev).Get(kind).accepting
        && dev == AfterSet(old(dev), kind, old(buf[..]))
    {
      hide Load;
      var d := dev.Get(kind);
      if Load(buf[..4], order) == GetCommand(kind) {
        if !d.supported {
          return true;
        }
        forall p | 4 <= p < buf.Length {
          buf[p] := d.stored[p];
        }
        return false;
      }
      dev := dev.Put(kind, d.(stored := if d.accepting then buf[..] else d.stored,
                              sets := d.sets + 1));
      return !d.accepting;
    }

    /** send_command: the command word goes into the struct before the device sees it. */
    method SendCommand(cmd: u32, kind: Kind, value: array<byte>) returns (err: bool)
      requires ValidDevice(dev) && value.Length == Size(kind)
      requires cmd in {GetCommand(kind), SetCommand(kind)}
      modifies `dev, value
      ensures cmd == GetCommand(kind) ==>
        && dev == old(dev) && err == !dev.Get(kind).supported
        && (!err ==> value[..] == Sent(dev.Get(kind).stored, cmd, order))
      ensures cmd == SetCommand(kind) ==>
        && err == !old(dev).Get(kind).accepting
        && dev == AfterSet(old(dev), kind, Sent(old(value[..]), cmd, order))
    {
      hide Store, Load;
      StoreWord(value, 0, cmd, order);
      LoadStore(cmd, order);
      assert value[..4] == Store(cmd, order);
      err := Ioctl(kind, value);
      assert value[..] == value[..4] + value[4..];
    }

    /** get_coalesce and get_ringparam: None when they raise IOError. */
    method GetParams(kind: Kind) returns (r: Option<Dict>)
      requires ValidDevice(dev)
      modifies `dev
      ensures dev == old(dev)
      ensures r == if dev.Get(kind).supported then Some(Current(dev, kind, order)) else None
    {
      TableFits(kind);
      var buf := new byte[Size(kind)];
      var err := SendCommand(GetCommand(kind), kind, buf);
      if err {
        return None;
      }
      CommandWordIsNotRead(dev, kind, GetCommand(kind), order);
      r := StructDescCreateDict(Table(kind), buf, order);
    }

    /** set_coalesce and set_ringparam of the extension: the struct starts as whatever is on
        the stack, yet what the device receives depends on the dictionary alone.  A value
        that is no machine long fails the call after the device has accepted the command. */
    method SetParams(kind: Kind, dict: Dict) returns (err: Option<PyError>)
      requires ValidDevice(dev)
      modifies `dev
      ensures !(Names(Table(kind)) <= dict.Keys) ==> err == Some(IOError) && dev == old(dev)
      ensures Names(Table(kind)) <= dict.Keys ==>
        && dev == AfterSet(old(dev), kind, Image(kind, dict, order))
        && (err == Some(IOError) <==> !old(dev).Get(kind).accepting)
        && (err == Some(OverflowError)
            <==> old(dev).Get(kind).accepting && !AllLong(Table(kind), dict))
        && (err == None <==> old(dev).Get(kind).accepting && AllLong(Table(kind), dict))
    {
      TableFits(kind);
      var buf := new byte[Size(kind)];
      ghost var junk := buf[..];
      var missing, pending := StructDescFromDict(Table(kind), buf, dict, order);
      AllNamed(Table(kind), dict);
      if missing.Some? {
        return Some(IOError);
      }
      assert Table(kind)[..|Table(kind)|] == Table(kind);
      ZeroesDoNotMatter(kind, junk, dict, order);
      var failed := SendCommand(SetCommand(kind), kind, buf);
      if failed {
        return Some(IOError);
      }
      return if pending then Some(OverflowError) else None;
    }

    /** set_coalesce of the script */
    method SetCoalesce(args: seq<string>) returns (outcome: Outcome)
      requires ValidDevice(dev)
      modifies `dev
      ensures (dev, outcome) == Run(old(dev), Coalesce, args, order)
    {
      hide CoalesceEntry, PyInt, Effects, Play, Image, Current, Unpacked;
      var got := GetParams(Coalesce);
      if got.None? {
        return NotSupported;
      }
      var coal := got.value;
      var changed := false;
      var lowered := seq(|args|, i requires 0 <= i < |args| => Lower(args[i]));
      if |args| % 2 == 1 {
        return Failed(IndexError);
      }
      CurrentKeys(dev, Coalesce, order);
      ghost var start := coal;
      PlayNothing(Coalesce, lowered, start);
      for i := 0 to |args| / 2
        invariant dev == old(dev)
        invariant Play(Effects(Coalesce, lowered, i), start) == Loop(coal, changed)
      {
        PlayNext(Coalesce, lowered, i, |args| / 2, start);
        var arg, text := lowered[2 * i], lowered[2 * i + 1];
        var realArg := GetCoalesceDictEntry(arg);
        if realArg.Raises? {
          return Failed(realArg.error);
        }
        if realArg.NotFound? {
          continue;
        }
        var value := PyInt(text);
        if text == "on" {
          value := Some(1);
        } else if text == "off" {
          value := Some(0);
        } else if value.None? {
          continue;
        }
        if realArg.field !in coal {
          return Failed(KeyError);
        }
        if coal[realArg.field] != value.value {
          coal := coal[realArg.field := value.value];
          changed := true;
        }
      }
      if !changed {
        return NothingToDo;
      }
      PlayKeys(Effects(Coalesce, lowered, |args| / 2), start);
      var err := SetParams(Coalesce, coal);
      return if err.None? then Done else Failed(err.value);
    }

    /** set_ringparam of the script */
    method SetRingparam(args: seq<string>) returns (outcome: Outcome)
      requires ValidDevice(dev)
      modifies `dev
      ensures (dev, outcome) == Run(old(dev), Ring, args, order)
    {
      hide PyInt, Effects, Play, Image, Current, Unpacked;
      var got := GetParams(Ring);
      if got.None? {
        return NotSupported;
      }
      var ring := got.value;
      var changed := false;
      var lowered := seq(|args|, i requires 0 <= i < |args| => Lower(args[i]));
      if |args| % 2 == 1 {
        return Failed(IndexError);
      }
      CurrentKeys(dev, Ring, order);
      ghost var start := ring;
      PlayNothing(Ring, lowered, start);
      for i := 0 to |args| / 2
        invariant dev == old(dev)
        invariant Play(Effects(Ring, lowered, i), start) == Loop(ring, changed)
      {
        PlayNext(Ring, lowered, i, |args| / 2, start);
        var arg, text := lowered[2 * i], lowered[2 * i + 1];
        var entry := RingEntry(arg);
        if !entry.Found? {
          continue;
        }
        var value := PyInt(text);
        if value.None? {
          continue;
        }
        if entry.field !in ring {
          return Failed(KeyError);
        }
        if ring[entry.field] != value.value {
          ring := ring[entry.field := value.value];
          changed := true;
        }
      }
      if !changed {
        return NothingToDo;
      }
      PlayKeys(Effects(Ring, lowered, |args| / 2), start);
      var err := SetParams(Ring, ring);
      return if err.None? then Done else Failed(err.value);
    }
  }

  lemma AllNamed(table: seq<Desc>, dict: Dict)
    requires WellFormed(table)
    ensures FirstBad(table, dict) == |table| <==> Names(table) <= dict.Keys
  {
    var k := FirstBad(table, dict);
    if k < |table| {
      assert table[k].name in Names(table);
    } else {
      forall f | f in Names(table) ensures f in dict {
        var i :| 0 <= i < |table| && table[i].name == f;
        assert !Bad(table[i], dict);
      }
    }
  }

  lemma PlayNothing(kind: Kind, args: seq<string>, dict: Dict)
    ensures Play(Effects(kind, args, 0), dict) == Loop(dict, false)
  {
  }

  /** One turn of the loop, and what an exception in it means for the whole loop. */
  lemma PlayNext(kind: Kind, args: seq<string>, i: nat, m: nat, dict: Dict)
    requires i < m && 2 * m <= |args|
    ensures Play(Effects(kind, args, i + 1), dict)
         == Turn(Play(Effects(kind, args, i), dict), EffectOf(kind, args[2 * i], args[2 * i + 1]))
    ensures Play(Effects(kind, args, i + 1), dict).Left? ==>
      Play(Effects(kind, args, m), dict) == Play(Effects(kind, args, i + 1), dict)
  {
    hide EffectOf, Turn, Play;
    PlayLast(Effects(kind, args, i), EffectOf(kind, args[2 * i], args[2 * i + 1]), dict);
    if i + 1 < m {
      PlayNext(kind, args, i, m - 1, dict);
      var e := EffectOf(kind, args[2 * m - 2], args[2 * m - 1]);
      PlayLast(Effects(kind, args, m - 1), e, dict);
      TurnLeft(Play(Effects(kind, args, m - 1), dict), e);
    }
  }

  lemma PlayLast(es: seq<Effect>, e: Effect, dict: Dict)
    ensures Play(es + [e], dict) == Turn(Play(es, dict), e)
  {
    assert (es + [e])[..|es|] == es;
  }

  lemma TurnLeft(loop: Loop, e: Effect)
    ensures loop.Left? ==> Turn(loop, e) == loop
  {
  }
}
