/** One run of pethtool's set commands against a device, on values, and what any run and
    its repetition do to the device. */
module PethtoolRuns {
  import opened Words
  import opened Wrappers
  import opened Numerals
  import opened StructCodec
  import opened EthtoolTables
  import opened Pethtool

  // ------------------------------------------------------------------ the argument loop

  function LowerChar(c: char): char {
    if 'A' <= c <= 'Z' then (c as int + 32) as char else c
  }

  /** str.lower() on ASCII text. */
  function Lower(s: string): string {
    seq(|s|, i requires 0 <= i < |s| => LowerChar(s[i]))
  }

  /** What one (name, value) pair asks for. */
  datatype Effect = Skip | Assign(field: string, value: int) | Raise(error: PyError)

  function ValueOf(kind: Kind, text: string): Option<int> {
    if kind == Coalesce && text == "on" then Some(1)
    else if kind == Coalesce && text == "off" then Some(0)
    else PyInt(text)
  }

  function EffectOf(kind: Kind, name: string, text: string): Effect {
    match EntryOf(kind, name)
    case NotFound => Skip
    case Raises(error) => Raise(error)
    case Found(field) =>
      match ValueOf(kind, text)
      case None => Skip
      case Some(value) => Assign(field, value)
  }

  /** The effects of the first `n` pairs of the (already lowered) arguments. */
  function Effects(kind: Kind, args: seq<string>, n: nat): (es: seq<Effect>)
    requires 2 * n <= |args|
    ensures |es| == n
  {
    if n == 0 then []
    else Effects(kind, args, n - 1) + [EffectOf(kind, args[2 * n - 2], args[2 * n - 1])]
  }

  /** The loop's variables; None once an exception has left the loop. */
  datatype Loop = Loop(dict: Dict, changed: bool) | Left(error: PyError)

  function Turn(loop: Loop, e: Effect): Loop {
    if loop.Left? then loop
    else
      match e
      case Skip => loop
      case Raise(error) => Left(error)
      case Assign(field, value) =>
        if field !in loop.dict then Left(KeyError)
        else if loop.dict[field] != value then Loop(loop.dict[field := value], true)
        else loop
  }

  function Play(es: seq<Effect>, dict: Dict): Loop {
    if es == [] then Loop(dict, false)
    else Turn(Play(es[..|es| - 1], dict), es[|es| - 1])
  }

  // ------------------------------------------------------------------------- the device

  /** An abstract driver per kind of parameters: does it answer the get command, does it
      accept the set command, the struct it stores, and how many set commands were issued. */
  datatype Driver = Driver(supported: bool, accepting: bool, stored: seq<byte>, sets: nat)

  datatype Device = Device(coalesce: Driver, ring: Driver) {

    function Get(kind: Kind): Driver {
      if kind == Coalesce then coalesce else ring
    }

    function Put(kind: Kind, d: Driver): Device {
      if kind == Coalesce then this.(coalesce := d) else this.(ring := d)
    }
  }

  predicate ValidDevice(dev: Device) {
    |dev.coalesce.stored| == COALESCE_SIZE && |dev.ring.stored| == RINGPARAM_SIZE
  }

  /** The dictionary get_coalesce or get_ringparam builds from the stored struct. */
  ghost function Current(dev: Device, kind: Kind, order: ByteOrder): Dict
    requires ValidDevice(dev)
  {
    TableFits(kind);
    Unpacked(Table(kind), dev.Get(kind).stored, order)
  }

  function Zeros(n: nat): (s: seq<byte>)
    ensures |s| == n
  {
    seq(n, _ => 0)
  }

  /** The struct that reaches the driver when `dict` is set. */
  ghost function Image(kind: Kind, dict: Dict, order: ByteOrder): (r: seq<byte>)
    requires Names(Table(kind)) <= dict.Keys
    ensures |r| == Size(kind)
  {
    TableFits(kind);
    NameListed(Table(kind), dict);
    Sent(Packed(Table(kind), Zeros(Size(kind)), dict, order), SetCommand(kind), order)
  }

  datatype Outcome = NotSupported | NothingToDo | Done | Failed(error: PyError)

  /** One run of set_coalesce or set_ringparam of the script. */
  ghost function Run(dev: Device, kind: Kind, args: seq<string>, order: ByteOrder)
    : (Device, Outcome)
    requires ValidDevice(dev)
  {
    var lowered := seq(|args|, i requires 0 <= i < |args| => Lower(args[i]));
    if !dev.Get(kind).supported then (dev, NotSupported)
    else if |args| % 2 == 1 then (dev, Failed(IndexError))
    else
      CurrentKeys(dev, kind, order);
      PlayKeys(Effects(kind, lowered, |args| / 2), Current(dev, kind, order));
      Commit(dev, kind, Play(Effects(kind, lowered, |args| / 2), Current(dev, kind, order)), order)
  }

  /** What follows the loop: write back if something changed.  The OverflowError for a value
      that is no machine long is still pending when the command has been carried out, and
      the call then ends with it. */
  ghost function Commit(dev: Device, kind: Kind, loop: Loop, order: ByteOrder): (Device, Outcome)
    requires ValidDevice(dev)
    requires loop.Loop? ==> loop.dict.Keys == Names(Table(kind))
  {
    var d := dev.Get(kind);
    match loop
    case Left(error) => (dev, Failed(error))
    case Loop(dict, changed) =>
      if !changed then (dev, NothingToDo)
      else if !d.accepting then (dev.Put(kind, d.(sets := d.sets + 1)), Failed(IOError))
      else (dev.Put(kind, d.(stored := Image(kind, dict, order), sets := d.sets + 1)),
            if AllLong(Table(kind), dict) then Done else Failed(OverflowError))
  }

  lemma CurrentKeys(dev: Device, kind: Kind, order: ByteOrder)
    requires ValidDevice(dev)
    ensures Current(dev, kind, order).Keys == Names(Table(kind))
  {
    TableFits(kind);
    UnpackedKeys(Table(kind), dev.Get(kind).stored, order);
  }

  lemma PlayKeys(es: seq<Effect>, dict: Dict)
    ensures Play(es, dict).Loop? ==> Play(es, dict).dict.Keys == dict.Keys
  {
  }

  // --------------------------------------------------------------- what the loop computes

  /** The last value that the effects give a field. */
  function LastValue(es: seq<Effect>, field: string): Option<int> {
    if es == [] then None
    else
      var e := es[|es| - 1];
      if e.Assign? && e.field == field then Some(e.value)
      else LastValue(es[..|es| - 1], field)
  }

  /** The value of a field when the effects `es` have taken place. */
  function ValueAfter(es: seq<Effect>, dict: Dict, field: string): int
    requires field in dict
  {
    if LastValue(es, field).Some? then LastValue(es, field).value else dict[field]
  }

  /** The k-th effect assigns a value other than the one current at its turn. */
  ghost predicate Differs(es: seq<Effect>, dict: Dict, k: int) {
    && 0 <= k < |es| && es[k].Assign? && es[k].field in dict
    && es[k].value != ValueAfter(es[..k], dict, es[k].field)
  }

  ghost predicate SomeDiffers(es: seq<Effect>, dict: Dict) {
    exists k :: Differs(es, dict, k)
  }

  ghost predicate AllInDict(es: seq<Effect>, dict: Dict) {
    forall k :: 0 <= k < |es| ==> !es[k].Raise? && (es[k].Assign? ==> es[k].field in dict)
  }

  /** The loop ends normally exactly when no pair raises, with every field at the last value
      given to it, and `changed` exactly when some pair differed at its turn. */
  lemma {:induction false} PlayComputes(es: seq<Effect>, dict: Dict)
    ensures Play(es, dict).Loop? <==> AllInDict(es, dict)
    ensures Play(es, dict).Loop? ==>
      && Play(es, dict).dict == (map f | f in dict :: ValueAfter(es, dict, f))
      && (Play(es, dict).changed <==> SomeDiffers(es, dict))
  {
    if es == [] { return; }
    var n := |es| - 1;
    var before, e := es[..n], es[n];
    PlayComputes(before, dict);
    assert AllInDict(es, dict) <==>
           AllInDict(before, dict) && !e.Raise? && (e.Assign? ==> e.field in dict) by {
      forall k | 0 <= k < n ensures before[k] == es[k] {}
    }
    if Play(es, dict).Loop? {
      assert Differs(es, dict, n) <==> e.Assign? && e.value != ValueAfter(before, dict, e.field);
      DiffersGrows(es, before, dict);
    }
  }

  lemma DiffersGrows(es: seq<Effect>, before: seq<Effect>, dict: Dict)
    requires es != [] && before == es[..|es| - 1]
    ensures SomeDiffers(es, dict) <==> SomeDiffers(before, dict) || Differs(es, dict, |es| - 1)
  {
    forall k | 0 <= k < |before| ensures Differs(es, dict, k) <==> Differs(before, dict, k) {
      assert es[..k] == before[..k];
    }
    if SomeDiffers(before, dict) {
      var k :| Differs(before, dict, k);
      assert Differs(es, dict, k);
    }
    if SomeDiffers(es, dict) {
      var k :| Differs(es, dict, k);
      assert k < |before| ==> Differs(before, dict, k);
    }
  }

  function WithoutSkips(es: seq<Effect>): seq<Effect> {
    if es == [] then []
    else WithoutSkips(es[..|es| - 1]) + if es[|es| - 1].Skip? then [] else [es[|es| - 1]]
  }

  /** Unknown names and unparseable values have no effect: leaving such pairs out changes
      neither what the loop computes nor whether it writes. */
  lemma {:induction false} SkipsHaveNoEffect(es: seq<Effect>, dict: Dict)
    ensures Play(WithoutSkips(es), dict) == Play(es, dict)
  {
    if es != [] {
      var n := |es| - 1;
      SkipsHaveNoEffect(es[..n], dict);
      var shorter := WithoutSkips(es[..n]);
      if es[n].Skip? {
        assert WithoutSkips(es) == shorter;
      } else {
        assert (shorter + [es[n]])[..|shorter|] == shorter;
      }
    }
  }

  // ---------------------------------------------------------------------- what a run does

  lemma ZeroesDoNotMatter(kind: Kind, junk: seq<byte>, dict: Dict, order: ByteOrder)
    requires |junk| == Size(kind) && Names(Table(kind)) <= dict.Keys
    ensures InBounds(Table(kind), Size(kind))
    ensures forall i :: 0 <= i < |Table(kind)| ==>
      Table(kind)[i].offset + 4 <= |junk| && Table(kind)[i].name in dict
    ensures Sent(Packed(Table(kind), junk, dict, order), SetCommand(kind), order)
         == Image(kind, dict, order)
  {
    hide Store, Load, ToWord, Packed, Covered;
    TableFits(kind);
    NameListed(Table(kind), dict);
    var table, zeros := Table(kind), Zeros(Size(kind));
    forall p | 4 <= p < Size(kind)
      ensures Packed(table, junk, dict, order)[p] == Packed(table, zeros, dict, order)[p]
    {
      CoveredIsPacked(table, junk, zeros, dict, order, p);
    }
  }

  /** A byte of some row's word depends on the dictionary alone. */
  lemma CoveredIsPacked(table: seq<Desc>, junk: seq<byte>, zeros: seq<byte>, dict: Dict,
                        order: ByteOrder, p: nat)
    requires WellFormed(table) && InBounds(table, |junk|) && |zeros| == |junk|
    requires forall i :: 0 <= i < |table| ==> table[i].name in dict
    requires p < |junk| && Covered(table, p)
    ensures Packed(table, junk, dict, order)[p] == Packed(table, zeros, dict, order)[p]
  {
    hide Store, Load, ToWord, Packed;
    var i :| 0 <= i < |table| && Within(table[i], p);
    var a, b, o := Packed(table, junk, dict, order), Packed(table, zeros, dict, order), table[i].offset;
    PackedWord(table, junk, dict, order, i);
    PackedWord(table, zeros, dict, order, i);
    assert a[o..o + 4][p - o] == b[o..o + 4][p - o];
  }

  /** The dictionary a later get returns for what an earlier set stored: the words the values
      are stored as, which are the values modulo 2^32 if all of them are machine longs. */
  lemma StoredImage(dev: Device, kind: Kind, dict: Dict, order: ByteOrder)
    requires ValidDevice(dev) && dict.Keys == Names(Table(kind))
    requires dev.Get(kind).stored == Image(kind, dict, order)
    ensures Current(dev, kind, order) == Truncated(Table(kind), dict)
    ensures AllLong(Table(kind), dict) ==> Current(dev, kind, order) == Modulo(Table(kind), dict)
  {
    TableFits(kind);
    SentRoundTrip(Table(kind), Zeros(Size(kind)), dict, order, SetCommand(kind));
    TruncatedIsModuloIff(Table(kind), dict);
  }

  /** Words read from a struct are words. */
  lemma CurrentIsTruncated(dev: Device, kind: Kind, order: ByteOrder)
    requires ValidDevice(dev)
    ensures var dict := Current(dev, kind, order);
            && dict.Keys == Names(Table(kind))
            && forall f :: f in dict ==> 0 <= dict[f] < WORD && ToWord(dict[f]) == dict[f]
  {
    hide Load;
    TableFits(kind);
    CurrentKeys(dev, kind, order);
    var table := Table(kind);
    forall f | f in Names(table) ensures 0 <= Current(dev, kind, order)[f] < WORD {
      var i :| 0 <= i < |table| && table[i].name == f;
      UnpackedEntry(table, dev.Get(kind).stored, order, i);
    }
  }

  /** The effects of a whole argument list of even length. */
  function AllEffects(kind: Kind, args: seq<string>): seq<Effect> {
    Effects(kind, seq(|args|, i requires 0 <= i < |args| => Lower(args[i])), |args| / 2)
  }

  lemma EffectsAreFields(kind: Kind, args: seq<string>, n: nat, k: nat)
    requires 2 * n <= |args| && k < n
    ensures var e := Effects(kind, args, n)[k];
            && e == EffectOf(kind, args[2 * k], args[2 * k + 1])
            && (e.Assign? ==> e.field in Names(Table(kind)))
  {
    hide CoalesceEntry, RingEntry, ValueOf;
    if k == n - 1 {
      RecognisedAreFields(kind, args[2 * k]);
    } else {
      EffectsAreFields(kind, args, n - 1, k);
    }
  }

  /** Some pair's name is a newline, which only the search for coalesce options minds. */
  predicate NewlineOption(kind: Kind, args: seq<string>) {
    kind == Coalesce && exists k :: 0 <= k < |args| / 2 && args[2 * k] == "\n"
  }

  lemma LowerNewline(s: string)
    ensures Lower(s) == "\n" <==> s == "\n"
  {
    if |s| == 1 { assert Lower(s)[0] == LowerChar(s[0]); }
  }

  lemma EffectRaisesIff(kind: Kind, name: string, text: string)
    ensures var e := EffectOf(kind, Lower(name), text);
            && (e.Raise? <==> kind == Coalesce && name == "\n")
            && (e.Raise? ==> e.error == IndexError)
  {
    hide EntryOf, Lower, ValueOf;
    RecognisedAreFields(kind, Lower(name));
    LowerNewline(name);
  }

  lemma PairEffect(kind: Kind, args: seq<string>, k: nat)
    requires k < |args| / 2
    ensures var e := AllEffects(kind, args)[k];
            && e == EffectOf(kind, Lower(args[2 * k]), Lower(args[2 * k + 1]))
            && (e.Assign? ==> e.field in Names(Table(kind)))
            && (e.Raise? <==> kind == Coalesce && args[2 * k] == "\n")
            && (e.Raise? ==> e.error == IndexError)
  {
    hide EffectOf, Lower;
    EffectsAreFields(kind, seq(|args|, i requires 0 <= i < |args| => Lower(args[i])), |args| / 2, k);
    EffectRaisesIff(kind, args[2 * k], Lower(args[2 * k + 1]));
  }

  /** The loop is left by an exception exactly when some coalesce option is a newline, and the
      exception then is an IndexError. */
  lemma LeavesLoopIff(kind: Kind, args: seq<string>, dict: Dict)
    requires dict.Keys == Names(Table(kind))
    ensures Play(AllEffects(kind, args), dict).Left? <==> NewlineOption(kind, args)
    ensures NewlineOption(kind, args) ==> Play(AllEffects(kind, args), dict) == Left(IndexError)
    ensures !NewlineOption(kind, args) ==> AllInDict(AllEffects(kind, args), dict)
  {
    hide Play, AllEffects;
    var es := AllEffects(kind, args);
    EffectCount(kind, args);
    PlayComputes(es, dict);
    forall k | 0 <= k < |args| / 2
      ensures es[k].Assign? ==> es[k].field in dict
      ensures es[k].Raise? <==> kind == Coalesce && args[2 * k] == "\n"
      ensures es[k].Raise? ==> es[k].error == IndexError
    {
      PairEffect(kind, args, k);
    }
    if NewlineOption(kind, args) { LeftByRaise(es, dict); }
  }

  lemma EffectCount(kind: Kind, args: seq<string>)
    ensures |AllEffects(kind, args)| == |args| / 2
  {
  }

  lemma {:induction false} LeftByRaise(es: seq<Effect>, dict: Dict)
    requires forall k :: 0 <= k < |es| && es[k].Assign? ==> es[k].field in dict
    requires forall k :: 0 <= k < |es| && es[k].Raise? ==> es[k].error == IndexError
    ensures var loop := Play(es, dict);
            if loop.Left? then loop.error == IndexError else loop.dict.Keys == dict.Keys
  {
    if es != [] { LeftByRaise(es[..|es| - 1], dict); }
  }

  /** The run gets as far as a set command. */
  ghost predicate Writes(dev: Device, kind: Kind, args: seq<string>, order: ByteOrder)
    requires ValidDevice(dev)
  {
    && dev.Get(kind).supported && |args| % 2 == 0 && !NewlineOption(kind, args)
    && SomeDiffers(AllEffects(kind, args), Current(dev, kind, order))
  }

  /** For every run: the set command is issued, once, exactly if the device supports the get
      command, the arguments pair up, no coalesce option is a newline, and some recognised
      pair differs from the value current at its turn; otherwise the device is left alone. */
  lemma WritesIff(dev: Device, kind: Kind, args: seq<string>, order: ByteOrder)
    requires ValidDevice(dev)
    ensures var dev' := Run(dev, kind, args, order).0;
            && dev'.Get(kind).sets
               == dev.Get(kind).sets + (if Writes(dev, kind, args, order) then 1 else 0)
            && (dev' == dev <==> !Writes(dev, kind, args, order))
  {
    hide Play, AllEffects, SomeDiffers, AllInDict, Image, NewlineOption;
    var es, dict := AllEffects(kind, args), Current(dev, kind, order);
    CurrentKeys(dev, kind, order);
    LeavesLoopIff(kind, args, dict);
    PlayComputes(es, dict);
    RunIs(dev, kind, args, order);
    hide Current, Run;
  }

  /** A run in terms of its effects. */
  lemma RunIs(dev: Device, kind: Kind, args: seq<string>, order: ByteOrder)
    requires ValidDevice(dev)
    ensures var loop := Play(AllEffects(kind, args), Current(dev, kind, order));
            && (loop.Loop? ==> loop.dict.Keys == Names(Table(kind)))
            && Run(dev, kind, args, order)
               == if !dev.Get(kind).supported then (dev, NotSupported)
                  else if |args| % 2 == 1 then (dev, Failed(IndexError))
                  else Commit(dev, kind, loop, order)
  {
    hide Play, Commit, Effects, Current;
    CurrentKeys(dev, kind, order);
    PlayKeys(AllEffects(kind, args), Current(dev, kind, order));
  }

  /** The last value given to every field is a machine long. */
  ghost predicate LongValues(es: seq<Effect>) {
    forall f :: LastValue(es, f).Some? ==> IsLong(LastValue(es, f).value)
  }

  lemma LongValuesAreWritten(es: seq<Effect>, dict: Dict)
    requires AllInDict(es, dict) && !SomeDiffers(es, dict)
    requires forall f :: f in dict ==> 0 <= dict[f] < WORD
    ensures LongValues(es)
  {
    forall f | LastValue(es, f).Some? ensures IsLong(LastValue(es, f).value) {
      AssignedIsInDict(es, dict, f);
      UnchangedAt(es, dict, |es|, f);
      assert es[..|es|] == es;
    }
  }

  lemma {:induction false} AssignedIsInDict(es: seq<Effect>, dict: Dict, f: string)
    requires AllInDict(es, dict) && LastValue(es, f).Some?
    ensures f in dict
  {
    var n := |es| - 1;
    if !(es[n].Assign? && es[n].field == f) {
      assert AllInDict(es[..n], dict);
      AssignedIsInDict(es[..n], dict, f);
    }
  }

  /** The dictionary the loop ends with holds machine longs exactly if the values given do. */
  lemma LongDictIff(kind: Kind, es: seq<Effect>, dict: Dict)
    requires AllInDict(es, dict) && dict.Keys == Names(Table(kind))
    requires forall f :: f in dict ==> 0 <= dict[f] < WORD
    ensures Play(es, dict).Loop? && (AllLong(Table(kind), Play(es, dict).dict) <==> LongValues(es))
  {
    hide Play, AllInDict;
    PlayComputes(es, dict);
    var after := Play(es, dict).dict;
    if LongValues(es) {
      forall i | 0 <= i < |Table(kind)| && Table(kind)[i].name in after
        ensures IsLong(after[Table(kind)[i].name])
      {
        assert after[Table(kind)[i].name] == ValueAfter(es, dict, Table(kind)[i].name);
      }
    }
    if AllLong(Table(kind), after) {
      forall f | LastValue(es, f).Some? ensures IsLong(LastValue(es, f).value) {
        AssignedIsInDict(es, dict, f);
        var i :| 0 <= i < |Table(kind)| && Table(kind)[i].name == f;
        assert after[f] == ValueAfter(es, dict, f);
      }
    }
  }

  /** How every run ends, each way exactly when.  A value that is no machine long makes the
      call fail after the device has accepted the command. */
  lemma OutcomeIff(dev: Device, kind: Kind, args: seq<string>, order: ByteOrder)
    requires ValidDevice(dev)
    ensures var outcome := Run(dev, kind, args, order).1;
            var d, paired := dev.Get(kind), |args| % 2 == 0 && !NewlineOption(kind, args);
            var writes, longs := Writes(dev, kind, args, order), LongValues(AllEffects(kind, args));
            && (outcome == NotSupported <==> !d.supported)
            && (outcome == Failed(IndexError) <==> d.supported && !paired)
            && (outcome == NothingToDo <==> d.supported && paired && !writes)
            && (outcome == Failed(IOError) <==> writes && !d.accepting)
            && (outcome == Failed(OverflowError) <==> d.supported && paired && d.accepting && !longs)
            && (outcome == Done <==> writes && d.accepting && longs)
  {
    hide Play, AllEffects, SomeDiffers, AllInDict, Image, NewlineOption, LongValues, AllLong;
    var es, dict := AllEffects(kind, args), Current(dev, kind, order);
    CurrentIsTruncated(dev, kind, order);
    LeavesLoopIff(kind, args, dict);
    PlayComputes(es, dict);
    RunIs(dev, kind, args, order);
    hide Current, Run;
    if !NewlineOption(kind, args) {
      LongDictIff(kind, es, dict);
      if !SomeDiffers(es, dict) { LongValuesAreWritten(es, dict); }
    }
  }

  /** What the dictionary of a device is once the named fields have been given their last
      values. */
  ghost function Stored(dict: Dict, es: seq<Effect>): Dict {
    map f | f in dict :: ToWord(ValueAfter(es, dict, f))
  }

  /** The same modulo 2^32. */
  ghost function Overwritten(dict: Dict, es: seq<Effect>): Dict {
    map f | f in dict :: ValueAfter(es, dict, f) % WORD
  }

  /** Get, the script's loop, set, get again, for any values: every field named by a
      recognised and parseable pair holds the word its last such value is stored as, every
      other field what it held before, and the parameters of the other kind are untouched. */
  lemma RunStores(dev: Device, kind: Kind, args: seq<string>, order: ByteOrder)
    requires ValidDevice(dev) && dev.Get(kind).supported && dev.Get(kind).accepting
    requires |args| % 2 == 0 && !NewlineOption(kind, args)
    ensures var dev' := Run(dev, kind, args, order).0;
            && ValidDevice(dev')
            && Current(dev', kind, order) == Stored(Current(dev, kind, order), AllEffects(kind, args))
            && (forall other :: other != kind ==> dev'.Get(other) == dev.Get(other))
            && dev'.Get(kind).supported && dev'.Get(kind).accepting
  {
    hide Play, AllEffects, Current, Run, Image, SomeDiffers, AllInDict, NewlineOption;
    var es, dict := AllEffects(kind, args), Current(dev, kind, order);
    CurrentIsTruncated(dev, kind, order);
    LeavesLoopIff(kind, args, dict);
    PlayComputes(es, dict);
    RunIs(dev, kind, args, order);
    var loop := Play(es, dict);
    if loop.changed {
      StoredImage(Run(dev, kind, args, order).0, kind, loop.dict, order);
    } else {
      PlayUnchanged(es, dict);
    }
    hide AllLong, ToWord, ValueAfter;
  }

  lemma StoredIsOverwrittenIff(es: seq<Effect>, dict: Dict)
    requires AllInDict(es, dict) && forall f :: f in dict ==> 0 <= dict[f] < WORD
    ensures Stored(dict, es) == Overwritten(dict, es)
       <==> forall f | f in dict && LastValue(es, f).Some? ::
              IsLong(LastValue(es, f).value) || LastValue(es, f).value % WORD == WORD - 1
    ensures LongValues(es) ==> Stored(dict, es) == Overwritten(dict, es)
  {
    hide ToWord, IsLong, LastValue;
    forall f | f in dict
      ensures Stored(dict, es)[f] == Overwritten(dict, es)[f]
         <==> IsLong(ValueAfter(es, dict, f)) || ValueAfter(es, dict, f) % WORD == WORD - 1
      ensures LastValue(es, f).None? ==> Stored(dict, es)[f] == Overwritten(dict, es)[f]
    {
      ToWordIff(ValueAfter(es, dict, f));
      if LastValue(es, f).None? { WordsAreLong(dict[f]); }
    }
  }

  lemma WordsAreLong(v: int)
    requires 0 <= v < WORD
    ensures IsLong(v)
  {
  }

  /** End to end, for values that are machine longs: the run ends with nothing to do or done,
      and every field named by a recognised and parseable pair holds the last such value
      modulo 2^32.  Without that condition the latter holds exactly if each last value is a
      machine long or -1 modulo 2^32. */
  lemma RunUpdates(dev: Device, kind: Kind, args: seq<string>, order: ByteOrder)
    requires ValidDevice(dev) && dev.Get(kind).supported && dev.Get(kind).accepting
    requires |args| % 2 == 0 && !NewlineOption(kind, args)
    ensures var (dev', outcome) := Run(dev, kind, args, order);
            var es, dict := AllEffects(kind, args), Current(dev, kind, order);
            && ValidDevice(dev')
            && (LongValues(es) ==>
                  && outcome == (if Writes(dev, kind, args, order) then Done else NothingToDo)
                  && Current(dev', kind, order) == Overwritten(dict, es))
            && (Current(dev', kind, order) == Overwritten(dict, es)
                <==> forall f | f in dict && LastValue(es, f).Some? ::
                       IsLong(LastValue(es, f).value) || LastValue(es, f).value % WORD == WORD - 1)
            && (forall other :: other != kind ==> dev'.Get(other) == dev.Get(other))
            && dev'.Get(kind).supported && dev'.Get(kind).accepting
  {
    var es, dict := AllEffects(kind, args), Current(dev, kind, order);
    RunStores(dev, kind, args, order);
    OutcomeIff(dev, kind, args, order);
    CurrentIsTruncated(dev, kind, order);
    LeavesLoopIff(kind, args, dict);
    StoredIsOverwrittenIff(es, dict);
    hide *;
  }

  /** 'rx-usecs' stands for the first field of the struct. */
  lemma RxUsecsEntry()
    ensures CoalesceEntry("rx-usecs") == Found("rx_coalesce_usecs")
    ensures Lower("rx-usecs") == "rx-usecs"
  {
    hide Search, Head;
    RxUsecsRow();
    SearchHits(ETHTOOL_COALESCE_MSGS, "rx-usecs", 5);
    assert Lower("rx-usecs") == "rx-usecs";
  }

  lemma RxUsecsRow()
    ensures ETHTOOL_COALESCE_MSGS[5] == Pair("rx-usecs", "rx_coalesce_usecs")
    ensures Head(ETHTOOL_COALESCE_MSGS[5]) == "rx-usecs"
    ensures forall i :: 0 <= i < 5 ==> Head(ETHTOOL_COALESCE_MSGS[i]) != "rx-usecs"
  {
  }

  lemma OneAssignment(n: nat)
    ensures AllEffects(Coalesce, ["rx-usecs", N(n)]) == [Assign("rx_coalesce_usecs", n)]
    ensures !NewlineOption(Coalesce, ["rx-usecs", N(n)])
  {
    hide CoalesceEntry, PyInt, Numeral, Lower;
    var args := ["rx-usecs", N(n)];
    RxUsecsEntry();
    DigitsLower(n);
    PyIntOfNumeral(n);
    PairEffect(Coalesce, args, 0);
    EffectCount(Coalesce, args);
    assert N(n)[0] != 'o';
  }

  lemma DigitsLower(n: nat)
    ensures Lower(N(n)) == N(n)
  {
    hide Numeral;
  }

  /** Setting a field to 2^64: the device ends up with 2^32 - 1, and the script with an
      OverflowError. */
  lemma BeyondLongFails(dev: Device, order: ByteOrder)
    requires ValidDevice(dev) && dev.coalesce.supported && dev.coalesce.accepting
    ensures var args := ["rx-usecs", N(0x1_0000_0000_0000_0000)];
            var (dev', outcome) := Run(dev, Coalesce, args, order);
            && outcome == Failed(OverflowError) && ValidDevice(dev')
            && "rx_coalesce_usecs" in Current(dev', Coalesce, order)
            && Current(dev', Coalesce, order)["rx_coalesce_usecs"] == WORD - 1
  {
    hide AllEffects, Run, Current, NewlineOption, N, ToWord, SomeDiffers;
    var n, f := 0x1_0000_0000_0000_0000, "rx_coalesce_usecs";
    var args, es := ["rx-usecs", N(n)], [Assign(f, n)];
    OneAssignment(n);
    assert LastValue(es, f) == Some(n);
    OutcomeIff(dev, Coalesce, args, order);
    RunStores(dev, Coalesce, args, order);
    CurrentEntry(dev, Coalesce, order, 0);
    BeyondLong();
    assert ValueAfter(es, Current(dev, Coalesce, order), f) == n;
  }

  /** The struct a run leaves behind. */
  lemma StoredAfter(dev: Device, kind: Kind, args: seq<string>, order: ByteOrder)
    requires ValidDevice(dev)
    ensures var dev', loop := Run(dev, kind, args, order).0,
                              Play(AllEffects(kind, args), Current(dev, kind, order));
            && ValidDevice(dev')
            && (Writes(dev, kind, args, order) ==>
                  loop.Loop? && loop.dict.Keys == Names(Table(kind)))
            && dev'.Get(kind).stored
               == (if Writes(dev, kind, args, order) && dev.Get(kind).accepting
                   then Image(kind, loop.dict, order) else dev.Get(kind).stored)
            && dev'.Get(kind).supported == dev.Get(kind).supported
            && dev'.Get(kind).accepting == dev.Get(kind).accepting
            && (forall other :: other != kind ==> dev'.Get(other) == dev.Get(other))
  {
    hide Play, AllEffects, SomeDiffers, AllInDict, Image, NewlineOption, AllLong, Current, Run;
    var es, dict := AllEffects(kind, args), Current(dev, kind, order);
    CurrentKeys(dev, kind, order);
    LeavesLoopIff(kind, args, dict);
    PlayComputes(es, dict);
    RunIs(dev, kind, args, order);
  }

  lemma CurrentEntry(dev: Device, kind: Kind, order: ByteOrder, i: nat)
    requires ValidDevice(dev) && i < |Table(kind)|
    ensures Table(kind)[i].size == 4 && Table(kind)[i].offset + 4 <= Size(kind)
    ensures var d := Table(kind)[i];
            && d.name in Current(dev, kind, order)
            && Current(dev, kind, order)[d.name] == Read(dev.Get(kind).stored, d.offset, order)
  {
    TableFits(kind);
    UnpackedEntry(Table(kind), dev.Get(kind).stored, order, i);
  }

  /** The bytes of a field that no pair names survive every run. */
  lemma UnnamedBytesStay(dev: Device, kind: Kind, args: seq<string>, order: ByteOrder, i: nat)
    requires ValidDevice(dev) && i < |Table(kind)|
    requires LastValue(AllEffects(kind, args), Table(kind)[i].name).None?
    ensures ValidDevice(Run(dev, kind, args, order).0)
    ensures Table(kind)[i].size == 4 && Table(kind)[i].offset + 4 <= Size(kind)
    ensures var o := Table(kind)[i].offset;
            Run(dev, kind, args, order).0.Get(kind).stored[o..o + 4]
            == dev.Get(kind).stored[o..o + 4]
  {
    hide Read, Run, AllEffects, Current, SomeDiffers, NewlineOption, Image, Play;
    var dev', d := Run(dev, kind, args, order).0, Table(kind)[i];
    StoredAfter(dev, kind, args, order);
    CurrentEntry(dev, kind, order, i);
    if Writes(dev, kind, args, order) && dev.Get(kind).accepting {
      RunStores(dev, kind, args, order);
      CurrentEntry(dev', kind, order, i);
      CurrentIsTruncated(dev, kind, order);
      SameReadSameBytes(dev.Get(kind).stored, dev'.Get(kind).stored, d.offset, order);
    }
  }

  lemma SameReadSameBytes(a: seq<byte>, b: seq<byte>, o: nat, order: ByteOrder)
    requires o + 4 <= |a| && o + 4 <= |b| && Read(a, o, order) == Read(b, o, order)
    ensures a[o..o + 4] == b[o..o + 4]
  {
    hide Store, Load;
    StoreLoad(a[o..o + 4], order);
    StoreLoad(b[o..o + 4], order);
  }

  lemma PlayUnchanged(es: seq<Effect>, dict: Dict)
    requires Play(es, dict).Loop? && !Play(es, dict).changed
    ensures Play(es, dict).dict == dict
  {
  }

  // ------------------------------------------------------------------------- repetition

  lemma {:induction false} PackedSameWords(fields: seq<Desc>, bytes: seq<byte>, a: Dict, b: Dict,
                                           order: ByteOrder)
    requires forall i :: 0 <= i < |fields| ==>
      && fields[i].offset + 4 <= |bytes| && fields[i].name in a && fields[i].name in b
      && ToWord(a[fields[i].name]) == ToWord(b[fields[i].name])
    ensures Packed(fields, bytes, a, order) == Packed(fields, bytes, b, order)
  {
    hide Store, ToWord;
    if fields != [] { PackedSameWords(fields[..|fields| - 1], bytes, a, b, order); }
  }

  lemma ImageSameWords(kind: Kind, a: Dict, b: Dict, order: ByteOrder)
    requires Names(Table(kind)) <= a.Keys && Names(Table(kind)) <= b.Keys
    requires forall f :: f in Names(Table(kind)) ==> ToWord(a[f]) == ToWord(b[f])
    ensures Image(kind, a, order) == Image(kind, b, order)
  {
    hide ToWord;
    var table := Table(kind);
    TableFits(kind);
    NameListed(table, a);
    NameListed(table, b);
    forall i | 0 <= i < |table|
      ensures ToWord(a[table[i].name]) == ToWord(b[table[i].name])
    {
      assert table[i].name in Names(table);
    }
    PackedSameWords(table, Zeros(Size(kind)), a, b, order);
  }

  /** Played again on its own result, the loop ends with the same words. */
  lemma ReplayedWords(es: seq<Effect>, dict: Dict)
    requires Play(es, dict).Loop?
    requires forall f :: f in dict ==> 0 <= dict[f] < WORD
    ensures var again := Play(es, Stored(dict, es));
            && again.Loop? && again.dict.Keys == dict.Keys == Play(es, dict).dict.Keys
            && forall f :: f in dict ==> ToWord(again.dict[f]) == ToWord(Play(es, dict).dict[f])
  {
    hide Play;
    PlayComputes(es, dict);
    PlayComputes(es, Stored(dict, es));
  }

  /** A second identical run never changes the state of the device, whatever the first did:
      it may issue the set command again, but then with the very same struct. */
  lemma RepetitionKeepsState(dev: Device, kind: Kind, args: seq<string>, order: ByteOrder)
    requires ValidDevice(dev)
    ensures var dev1 := Run(dev, kind, args, order).0;
            && ValidDevice(dev1)
            && var dev2 := Run(dev1, kind, args, order).0;
               forall k :: dev2.Get(k).stored == dev1.Get(k).stored
  {
    hide ToWord, Play, AllEffects, Image, Current, Run, SomeDiffers, NewlineOption;
    var es, dict := AllEffects(kind, args), Current(dev, kind, order);
    var dev1 := Run(dev, kind, args, order).0;
    StoredAfter(dev, kind, args, order);
    StoredAfter(dev1, kind, args, order);
    WritesIff(dev, kind, args, order);
    if Writes(dev, kind, args, order) && dev.Get(kind).accepting && Writes(dev1, kind, args, order) {
      RunStores(dev, kind, args, order);
      CurrentIsTruncated(dev, kind, order);
      ReplayedWords(es, dict);
      ImageSameWords(kind, Play(es, dict).dict, Play(es, Stored(dict, es)).dict, order);
    }
  }

  /** No field is given two different values, and every value is an unsigned word. */
  ghost predicate Settled(es: seq<Effect>) {
    && (forall k :: 0 <= k < |es| && es[k].Assign? ==> 0 <= es[k].value < WORD)
    && (forall j, k | 0 <= j < k < |es| && es[j].Assign? && es[k].Assign? ::
          es[j].field == es[k].field ==> es[j].value == es[k].value)
  }

  lemma {:induction false} LastValueIs(es: seq<Effect>, field: string)
    ensures match LastValue(es, field)
            case Some(v) => exists k :: 0 <= k < |es| && es[k] == Assign(field, v)
            case None => forall k :: 0 <= k < |es| ==> !(es[k].Assign? && es[k].field == field)
  {
    if es != [] {
      var n := |es| - 1;
      LastValueIs(es[..n], field);
      if LastValue(es[..n], field).Some? {
        var k :| 0 <= k < n && es[..n][k] == Assign(field, LastValue(es[..n], field).value);
        assert es[k] == es[..n][k];
      } else {
        forall k | 0 <= k < n ensures !(es[k].Assign? && es[k].field == field) {
          assert es[..n][k] == es[k];
        }
      }
    }
  }

  lemma SettledValue(es: seq<Effect>, k: nat)
    requires Settled(es) && k < |es| && es[k].Assign?
    ensures LastValue(es, es[k].field) == Some(es[k].value)
  {
    LastValueIs(es, es[k].field);
  }

  lemma UnchangedAt(es: seq<Effect>, dict: Dict, k: nat, field: string)
    requires AllInDict(es, dict) && !SomeDiffers(es, dict) && k <= |es| && field in dict
    ensures ValueAfter(es[..k], dict, field) == dict[field]
  {
    assert AllInDict(es[..k], dict);
    forall j ensures !Differs(es[..k], dict, j) {
      assert !Differs(es, dict, j);
      assert 0 <= j < k ==> es[..k][..j] == es[..j];
    }
    PlayComputes(es[..k], dict);
    PlayUnchanged(es[..k], dict);
  }

  /** On a dictionary that already holds the last values, a pair differs at its turn
      exactly when the pairs are not settled. */
  lemma DiffersIffUnsettled(es: seq<Effect>, dict: Dict)
    requires AllInDict(es, dict)
    requires forall f :: f in dict && LastValue(es, f).Some? ==>
      dict[f] == ToWord(LastValue(es, f).value)
    ensures SomeDiffers(es, dict) <==> !Settled(es)
  {
    if Settled(es) {
      forall k ensures !Differs(es, dict, k) {
        if 0 <= k < |es| && es[k].Assign? {
          SettledValue(es, k);
          LastValueIs(es[..k], es[k].field);
        }
      }
    }
    if !SomeDiffers(es, dict) {
      forall k | 0 <= k < |es| && es[k].Assign?
        ensures es[k].value == dict[es[k].field] && 0 <= es[k].value < WORD
      {
        var f := es[k].field;
        UnchangedAt(es, dict, k, f);
        assert !Differs(es, dict, k);
        LastValueIs(es, f);
        assert LastValue(es, f).Some?;
      }
    }
  }

  /** A second identical run of a supported and accepted command issues no set command if
      and only if no field is given two different values and every value lies between 0
      and 2^32 - 1. */
  lemma RepetitionWritesIff(dev: Device, kind: Kind, args: seq<string>, order: ByteOrder)
    requires ValidDevice(dev) && dev.Get(kind).supported && dev.Get(kind).accepting
    requires |args| % 2 == 0 && !NewlineOption(kind, args)
    ensures var dev1 := Run(dev, kind, args, order).0;
            && ValidDevice(dev1)
            && (Run(dev1, kind, args, order).0.Get(kind).sets == dev1.Get(kind).sets
                <==> Settled(AllEffects(kind, args)))
  {
    hide Play, AllEffects, Current, Run, SomeDiffers, NewlineOption, AllInDict, ToWord, Settled;
    var es, dict := AllEffects(kind, args), Current(dev, kind, order);
    var dev1 := Run(dev, kind, args, order).0;
    RunStores(dev, kind, args, order);
    var dict1 := Current(dev1, kind, order);
    CurrentKeys(dev1, kind, order);
    LeavesLoopIff(kind, args, dict1);
    forall f | f in dict1 && LastValue(es, f).Some?
      ensures dict1[f] == ToWord(LastValue(es, f).value)
    {
      assert ValueAfter(es, dict, f) == LastValue(es, f).value;
    }
    DiffersIffUnsettled(es, dict1);
    WritesIff(dev1, kind, args, order);
  }
}
