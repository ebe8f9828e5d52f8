/** What the options of pethtool's set commands do to the struct in the device, told from how
    they are spelled and where their word lies, without the tables of the program that lead
    from the one to the other. */
module PethtoolOptions {
  import opened Words
  import opened Wrappers
  import opened Numerals
  import opened StructCodec
  import opened EthtoolTables
  import opened Pethtool
  import opened PethtoolRuns

  /** An option and the byte of the struct at which its word starts. */
  datatype Place = Place(option: string, offset: nat)

  const COALESCE_OPTIONS: seq<Place> := [
    Place("rx-usecs", 4),
    Place("rx-frames", 8),
    Place("rx-usecs-irq", 12),
    Place("rx-frames-irq", 16),
    Place("tx-usecs", 20),
    Place("tx-frames", 24),
    Place("tx-usecs-irq", 28),
    Place("tx-frames-irq", 32),
    Place("stats-block-usecs", 36),
    Place("adaptive-rx", 40),
    Place("adaptive-tx", 44),
    Place("pkt-rate-low", 48),
    Place("rx-usecs-low", 52),
    Place("rx-frame-low", 56),
    Place("tx-usecs-low", 60),
    Place("tx-frame-low", 64),
    Place("pkt-rate-high", 68),
    Place("rx-usecs-high", 72),
    Place("rx-frame-high", 76),
    Place("tx-usecs-high", 80),
    Place("tx-frame-high", 84),
    Place("sample-interval", 88)
  ]

  const RING_OPTIONS: seq<Place> := [
    Place("rx", 20),
    Place("rx-mini", 24),
    Place("rx-jumbo", 28),
    Place("tx", 32)
  ]

  function Options(kind: Kind): seq<Place> {
    if kind == Coalesce then COALESCE_OPTIONS else RING_OPTIONS
  }

  /** `c` is the letter `small`, or the capital of it. */
  predicate SpelledChar(c: char, small: char) {
    || (c == small && !('A' <= c <= 'Z'))
    || ('a' <= small <= 'z' && 'A' <= c <= 'Z' && c as int - 'A' as int == small as int - 'a' as int)
  }

  /** `s` is `word` in any capitalisation. */
  predicate SpelledAs(s: string, word: string) {
    |s| == |word| && forall i :: 0 <= i < |s| ==> SpelledChar(s[i], word[i])
  }

  /** The integer a value on the command line stands for. */
  predicate Says(kind: Kind, text: string, v: int) {
    || (kind == Coalesce && SpelledAs(text, "on") && v == 1)
    || (kind == Coalesce && SpelledAs(text, "off") && v == 0)
    || (v >= 0 && text == N(v))
    || (v < 0 && text == "-" + N(-v))
  }

  /** The word at byte `o` is `n`, written out byte by byte. */
  predicate HoldsWord(bytes: seq<byte>, o: nat, n: nat, order: ByteOrder) {
    && o + 4 <= |bytes|
    && match order
       case Little =>
         && bytes[o] == n % 256 && bytes[o + 1] == n / 256 % 256
         && bytes[o + 2] == n / 65536 % 256 && bytes[o + 3] == n / 16777216
       case Big =>
         && bytes[o + 3] == n % 256 && bytes[o + 2] == n / 256 % 256
         && bytes[o + 1] == n / 65536 % 256 && bytes[o] == n / 16777216
  }

  lemma SpelledIff(s: string, word: string)
    ensures SpelledAs(s, word) <==> Lower(s) == word
  {
    if |s| == |word| {
      forall i | 0 <= i < |s| ensures SpelledChar(s[i], word[i]) <==> Lower(s)[i] == word[i] {
        LowerIff(s[i], word[i]);
      }
    }
  }

  lemma LowerIff(c: char, small: char)
    ensures SpelledChar(c, small) <==> LowerChar(c) == small
  {
  }

  // -------------------------------------------------------------- which option is which

  /** The row of a coalesce option, told from a few of its letters. */
  function OptionRow(name: string): int {
    if |name| < 8 then -1
    else
      var tx := if name[0] == 't' then 4 else 0;
      var txPart := if name[0] == 't' then 2 else 0;
      var frames := if name[3] == 'f' then 1 else 0;
      match name[0]
      case 's' => if |name| == 17 then 8 else 21
      case 'a' => if name[|name| - 2] == 'r' then 9 else 10
      case 'p' => if |name| == 12 then 11 else 16
      case _ =>
        match name[|name| - 1]
        case 's' => tx + frames
        case 'q' => tx + frames + 2
        case 'w' => 12 + txPart + frames
        case _ => 17 + txPart + frames
  }

  /** The entry of the message table that has a coalesce option. */
  function MessageOf(i: nat): nat {
    if i < 4 then i + 5 else if i < 8 then i + 6
    else if i == 8 then 0 else if i == 21 then 1
    else if i == 11 then 2 else if i == 16 then 3 else i + 3
  }

  lemma EarlierRows(i: nat)
    requires i < 8
    ensures OptionRow(COALESCE_OPTIONS[i].option) == i
  {
  }

  lemma MiddleRows(i: nat)
    requires 8 <= i < 16
    ensures OptionRow(COALESCE_OPTIONS[i].option) == i
  {
  }

  lemma LaterRows(i: nat)
    requires 16 <= i < |COALESCE_OPTIONS|
    ensures OptionRow(COALESCE_OPTIONS[i].option) == i
  {
  }

  lemma RowIsOption(i: nat)
    requires i < |COALESCE_OPTIONS|
    ensures OptionRow(COALESCE_OPTIONS[i].option) == i
  {
    if i < 8 { EarlierRows(i); } else if i < 16 { MiddleRows(i); } else { LaterRows(i); }
  }

  /** The entry of option `i` leads to row `i`. */
  predicate Leads(i: nat)
    requires i < |COALESCE_OPTIONS|
  {
    MessageOf(i) < |ETHTOOL_COALESCE_MSGS|
    && ETHTOOL_COALESCE_MSGS[MessageOf(i)] == Pair(COALESCE_OPTIONS[i].option, COALESCE_DESC[i].name)
  }

  lemma ReceiveLeads(i: nat)
    requires i < 4
    ensures Leads(i)
  {
  }

  lemma SendLeads(i: nat)
    requires 4 <= i < 8
    ensures Leads(i)
  {
  }

  lemma GeneralLeads(i: nat)
    requires i in {8, 11, 16, 21}
    ensures Leads(i)
  {
  }

  lemma LowLeads(i: nat)
    requires 12 <= i < 16
    ensures Leads(i)
  {
  }

  lemma HighLeads(i: nat)
    requires 17 <= i < 21
    ensures Leads(i)
  {
  }

  lemma EveryOptionLeads(i: nat)
    requires i < |COALESCE_OPTIONS| && i != 9 && i != 10
    ensures Leads(i)
  {
    if i < 4 { ReceiveLeads(i); }
    else if i < 8 { SendLeads(i); }
    else if i in {8, 11, 16, 21} { GeneralLeads(i); }
    else if i < 16 { LowLeads(i); }
    else { HighLeads(i); }
  }

  lemma AdaptiveOptions()
    ensures COALESCE_OPTIONS[9].option == "adaptive-rx" && COALESCE_OPTIONS[10].option == "adaptive-tx"
    ensures COALESCE_DESC[9].name == "use_adaptive_rx_coalesce"
    ensures COALESCE_DESC[10].name == "use_adaptive_tx_coalesce"
  {
  }

  /** The option of an entry of the message table. */
  function OptionOf(m: nat): nat
    requires m < |ETHTOOL_COALESCE_MSGS| && m !in {4, 9, 14, 19}
  {
    if m < 4 then [8, 21, 11, 16][m]
    else if m < 10 then m - 5 else if m < 15 then m - 6 else m - 3
  }

  lemma MessagesAreOptions(m: nat)
    requires m < |ETHTOOL_COALESCE_MSGS| && m !in {4, 9, 14, 19}
    ensures var i: int := OptionOf(m);
            0 <= i < |COALESCE_OPTIONS| && i != 9 && i != 10 && MessageOf(i) == m
  {
  }

  lemma BareMessages()
    ensures forall m :: m in {4, 9, 14, 19} ==> ETHTOOL_COALESCE_MSGS[m] == Text("\n")
  {
  }

  /** What the search finds is the row of an option of that very name. */
  lemma FoundIsOption(name: string)
    requires CoalesceEntry(name).Found?
    ensures var i := OptionRow(name);
            && 0 <= i < |COALESCE_OPTIONS| && COALESCE_OPTIONS[i].option == name
            && CoalesceEntry(name) == Found(COALESCE_DESC[i].name)
  {
    hide Search, OptionRow, OptionOf, MessageOf;
    AdaptiveOptions();
    if name == "adaptive-rx" {
      RowIsOption(9);
    } else if name == "adaptive-tx" {
      RowIsOption(10);
    } else {
      var msgs := ETHTOOL_COALESCE_MSGS;
      SearchFinds(msgs, name);
      var m :| 0 <= m < |msgs| && Head(msgs[m]) == name && Second(msgs[m]) == CoalesceEntry(name);
      BareMessages();
      if m !in {4, 9, 14, 19} {
        MessagesAreOptions(m);
        EveryOptionLeads(OptionOf(m));
        RowIsOption(OptionOf(m));
      }
    }
  }

  lemma OptionIsFound(i: nat)
    requires i < |COALESCE_OPTIONS|
    ensures CoalesceEntry(COALESCE_OPTIONS[i].option) == Found(COALESCE_DESC[i].name)
  {
    hide Search, OptionRow, MessageOf;
    var name := COALESCE_OPTIONS[i].option;
    AdaptiveOptions();
    RowIsOption(i);
    if i != 9 && i != 10 {
      EveryOptionLeads(i);
      SearchFinds(ETHTOOL_COALESCE_MSGS, name);
      LongName(i);
      RecognisedAreFields(Coalesce, name);
    }
    FoundIsOption(name);
  }

  lemma LongName(i: nat)
    requires i < |COALESCE_OPTIONS|
    ensures COALESCE_OPTIONS[i].option != "\n"
  {
    RowIsOption(i);
  }

  /** The row of the struct whose word starts at byte `o`. */
  function RowAt(o: nat): int { o / 4 - 1 }

  lemma CoalescePlaces()
    ensures forall i :: 0 <= i < |COALESCE_OPTIONS| ==> COALESCE_OPTIONS[i].offset == 4 * i + 4
  {
  }

  lemma RingPlaces()
    ensures forall i :: 0 <= i < |RING_OPTIONS| ==> RING_OPTIONS[i].offset == 4 * i + 20
  {
  }

  /** The rows of the options: all of the one table, the last four of the other. */
  lemma Places(kind: Kind)
    ensures forall i :: 0 <= i < |Options(kind)| ==>
      var r := RowAt(Options(kind)[i].offset);
      && 0 <= r < |Table(kind)| && Options(kind)[i].offset == 4 * r + 4
      && r == i + if kind == Coalesce then 0 else 4
  {
    forall i | 0 <= i < |Options(kind)|
      ensures RowAt(Options(kind)[i].offset) == i + if kind == Coalesce then 0 else 4
      ensures Options(kind)[i].offset == 4 * (i + if kind == Coalesce then 0 else 4) + 4
    {
      if kind == Coalesce { CoalescePlaces(); } else { RingPlaces(); }
    }
    assert |COALESCE_OPTIONS| == |COALESCE_DESC| && |RING_OPTIONS| + 4 == |RINGPARAM_DESC|;
  }

  lemma Offsets(kind: Kind)
    ensures forall r :: 0 <= r < |Table(kind)| ==> Table(kind)[r].offset == 4 * r + 4
  {
    CoalesceRows();
  }

  /** Option `i` is recognised and stands for the row at its place. */
  lemma OptionEntry(kind: Kind, i: nat)
    requires i < |Options(kind)|
    ensures var r := RowAt(Options(kind)[i].offset);
            && 0 <= r < |Table(kind)|
            && EntryOf(kind, Options(kind)[i].option) == Found(Table(kind)[r].name)
  {
    Places(kind);
    if kind == Coalesce { OptionIsFound(i); }
  }

  /** A name that is recognised is an option, and stands for the row at its place. */
  lemma RecognisedIsOption(kind: Kind, name: string) returns (i: nat)
    requires EntryOf(kind, name).Found?
    ensures i < |Options(kind)| && Options(kind)[i].option == name
    ensures var r := RowAt(Options(kind)[i].offset);
            0 <= r < |Table(kind)| && EntryOf(kind, name) == Found(Table(kind)[r].name)
  {
    hide CoalesceEntry;
    Places(kind);
    if kind == Coalesce {
      FoundIsOption(name);
      i := OptionRow(name);
    } else {
      i := match name case "rx" => 0 case "rx-mini" => 1 case "rx-jumbo" => 2 case _ => 3;
    }
  }

  /** The recognised names are exactly the options. */
  lemma RecognisedIff(kind: Kind, name: string)
    ensures EntryOf(kind, name).Found?
       <==> exists i :: 0 <= i < |Options(kind)| && Options(kind)[i].option == name
  {
    hide EntryOf;
    if EntryOf(kind, name).Found? {
      var i := RecognisedIsOption(kind, name);
    }
    forall i | 0 <= i < |Options(kind)| && Options(kind)[i].option == name
      ensures EntryOf(kind, name).Found?
    {
      OptionEntry(kind, i);
    }
  }

  // ---------------------------------------------------------------------------- values

  lemma SwitchWords(text: string)
    ensures SpelledAs(text, "on") ==> Lower(text) == "on"
    ensures SpelledAs(text, "off") ==> Lower(text) == "off"
  {
    SpelledIff(text, "on");
    SpelledIff(text, "off");
  }

  lemma NumeralLower(n: nat)
    ensures Lower(N(n)) == N(n) && Lower("-" + N(n)) == "-" + N(n)
    ensures N(n) != "on" && N(n) != "off" && "-" + N(n) != "on" && "-" + N(n) != "off"
  {
    hide Numeral;
    DigitsLower(n);
    assert LowerChar('-') == '-';
    assert N(n)[0] != 'o' && ("-" + N(n))[0] != 'o';
  }

  /** A text that says `v` is read as `v`. */
  lemma SaysIsRead(kind: Kind, text: string, v: int)
    requires Says(kind, text, v)
    ensures ValueOf(kind, Lower(text)) == Some(v)
  {
    hide PyInt, Numeral, Lower, SpelledAs;
    SwitchWords(text);
    var n: nat := if v < 0 then -v else v;
    NumeralLower(n);
    PyIntOfNumeral(n);
  }

  /** int() makes nothing of the two words. */
  lemma SwitchesAreNoNumbers()
    ensures PyInt("on") == None && PyInt("off") == None
  {
    StripEnds("on");
    StripEnds("off");
  }

  // ------------------------------------------------------------------------------ runs

  lemma {:induction false} LastValueAt(es: seq<Effect>, field: string, k: nat, v: int)
    requires k < |es| && es[k] == Assign(field, v)
    requires forall j :: k < j < |es| ==> !(es[j].Assign? && es[j].field == field)
    ensures LastValue(es, field) == Some(v)
  {
    if k < |es| - 1 { LastValueAt(es[..|es| - 1], field, k, v); }
  }

  /** A pair that assigns the field of option `i` is spelled as that option. */
  lemma AssignsIsSpelled(kind: Kind, args: seq<string>, j: nat) returns (i: nat)
    requires j < |args| / 2
    requires AllEffects(kind, args)[j].Assign?
    ensures i < |Options(kind)| && SpelledAs(args[2 * j], Options(kind)[i].option)
    ensures var r := RowAt(Options(kind)[i].offset);
            0 <= r < |Table(kind)| && AllEffects(kind, args)[j].field == Table(kind)[r].name
  {
    hide EntryOf, ValueOf, AllEffects, Lower, SpelledAs;
    PairEffect(kind, args, j);
    i := RecognisedIsOption(kind, Lower(args[2 * j]));
    SpelledIff(args[2 * j], Options(kind)[i].option);
  }

  /** The word of a row after a run that gives its field a value last. */
  lemma RowAfter(dev: Device, kind: Kind, args: seq<string>, order: ByteOrder, r: nat, v: int)
    requires ValidDevice(dev) && dev.Get(kind).supported && dev.Get(kind).accepting
    requires |args| % 2 == 0 && !NewlineOption(kind, args)
    requires r < |Table(kind)| && IsLong(v)
    requires LastValue(AllEffects(kind, args), Table(kind)[r].name) == Some(v)
    ensures HoldsWord(Run(dev, kind, args, order).0.Get(kind).stored, 4 * r + 4, v % WORD, order)
  {
    hide Run, AllEffects, Current, NewlineOption, Load, LastValue, HoldsWord;
    var dev', name := Run(dev, kind, args, order).0, Table(kind)[r].name;
    RunStores(dev, kind, args, order);
    CurrentEntry(dev', kind, order, r);
    CurrentEntry(dev, kind, order, r);
    Offsets(kind);
    ToWordIff(v);
    WordIsHeld(dev'.Get(kind).stored, 4 * r + 4, v % WORD, order);
  }

  lemma WordIsHeld(bytes: seq<byte>, o: nat, n: u32, order: ByteOrder)
    requires o + 4 <= |bytes| && Read(bytes, o, order) == n
    ensures HoldsWord(bytes, o, n, order)
  {
    hide Load;
    var word := bytes[o..o + 4];
    StoreLoad(word, order);
    assert forall i :: 0 <= i < 4 ==> bytes[o + i] == word[i];
  }

  /** No pair from the `k`-th on is spelled as option `i`. */
  predicate NotNamedFrom(kind: Kind, args: seq<string>, k: nat, i: nat)
    requires i < |Options(kind)|
  {
    forall j :: k <= j < |args| / 2 ==> !SpelledAs(args[2 * j], Options(kind)[i].option)
  }

  lemma OnePlace(kind: Kind, i: nat, j: nat)
    requires i < |Options(kind)| && j < |Options(kind)|
    requires RowAt(Options(kind)[i].offset) == RowAt(Options(kind)[j].offset)
    ensures i == j
  {
    Places(kind);
  }

  lemma OneRow(kind: Kind, r: nat, q: nat)
    requires r < |Table(kind)| && q < |Table(kind)| && Table(kind)[r].name == Table(kind)[q].name
    ensures r == q
  {
    TableFits(kind);
  }

  /** A pair that is not spelled as an option does not assign the row at its place. */
  lemma NotNamedNotAssigned(kind: Kind, args: seq<string>, j: nat, i: nat)
    requires j < |args| / 2 && i < |Options(kind)|
    requires !SpelledAs(args[2 * j], Options(kind)[i].option)
    ensures var r, e := RowAt(Options(kind)[i].offset), AllEffects(kind, args)[j];
            0 <= r < |Table(kind)| && !(e.Assign? && e.field == Table(kind)[r].name)
  {
    hide AllEffects, SpelledAs, EntryOf;
    OptionEntry(kind, i);
    EffectCount(kind, args);
    var r, e := RowAt(Options(kind)[i].offset), AllEffects(kind, args)[j];
    if e.Assign? && e.field == Table(kind)[r].name {
      var named := AssignsIsSpelled(kind, args, j);
      OneRow(kind, r, RowAt(Options(kind)[named].offset));
      OnePlace(kind, i, named);
    }
  }

  /** What the last pair spelled as an option says is the last value of the row there. */
  lemma LastlySaid(kind: Kind, args: seq<string>, k: nat, i: nat, v: int)
    requires k < |args| / 2 && i < |Options(kind)|
    requires SpelledAs(args[2 * k], Options(kind)[i].option) && NotNamedFrom(kind, args, k + 1, i)
    requires Says(kind, args[2 * k + 1], v)
    ensures var r := RowAt(Options(kind)[i].offset);
            0 <= r < |Table(kind)| && LastValue(AllEffects(kind, args), Table(kind)[r].name) == Some(v)
  {
    hide AllEffects, EntryOf, Lower, SpelledAs, Says, LastValue, ValueOf;
    var es, r := AllEffects(kind, args), RowAt(Options(kind)[i].offset);
    OptionEntry(kind, i);
    EffectCount(kind, args);
    PairEffect(kind, args, k);
    SpelledIff(args[2 * k], Options(kind)[i].option);
    SaysIsRead(kind, args[2 * k + 1], v);
    hide Options, Table;
    forall j | k < j < |es| ensures !(es[j].Assign? && es[j].field == Table(kind)[r].name) {
      NotNamedNotAssigned(kind, args, j, i);
    }
    LastValueAt(es, Table(kind)[r].name, k, v);
  }

  /** For every run: the last pair spelled as an option, in whatever capitals, decides the
      word at the option's place, and the word is what its value says, modulo 2^32. */
  lemma LastPairDecides(dev: Device, kind: Kind, args: seq<string>, order: ByteOrder, k: nat, i: nat,
                        v: int)
    requires ValidDevice(dev) && dev.Get(kind).supported && dev.Get(kind).accepting
    requires |args| % 2 == 0 && !NewlineOption(kind, args)
    requires k < |args| / 2 && i < |Options(kind)|
    requires SpelledAs(args[2 * k], Options(kind)[i].option) && NotNamedFrom(kind, args, k + 1, i)
    requires Says(kind, args[2 * k + 1], v) && -0x8000_0000_0000_0000 <= v <= 0x7fff_ffff_ffff_ffff
    ensures HoldsWord(Run(dev, kind, args, order).0.Get(kind).stored, Options(kind)[i].offset,
                      v % WORD, order)
  {
    hide AllEffects, Run, SpelledAs, Says, NewlineOption, LastValue, HoldsWord, NotNamedFrom;
    LastlySaid(kind, args, k, i, v);
    Places(kind);
    hide Options;
    RowAfter(dev, kind, args, order, RowAt(Options(kind)[i].offset), v);
  }

  /** No pair is spelled as an option whose word holds byte `p`. */
  predicate ByteNotNamed(kind: Kind, args: seq<string>, p: nat) {
    forall i :: 0 <= i < |Options(kind)| && Options(kind)[i].offset <= p < Options(kind)[i].offset + 4 ==>
      NotNamedFrom(kind, args, 0, i)
  }

  lemma RowNotAssigned(kind: Kind, args: seq<string>, p: nat)
    requires 4 <= p < Size(kind) && ByteNotNamed(kind, args, p)
    ensures 0 <= RowAt(p) < |Table(kind)|
    ensures LastValue(AllEffects(kind, args), Table(kind)[RowAt(p)].name) == None
  {
    hide AllEffects, SpelledAs, LastValue;
    var es, r := AllEffects(kind, args), RowAt(p);
    Places(kind);
    EffectCount(kind, args);
    LastValueIs(es, Table(kind)[r].name);
    forall j | 0 <= j < |es| ensures !(es[j].Assign? && es[j].field == Table(kind)[r].name) {
      if es[j].Assign? && es[j].field == Table(kind)[r].name {
        var i := AssignsIsSpelled(kind, args, j);
        OneRow(kind, r, RowAt(Options(kind)[i].offset));
      }
    }
  }

  /** For every run, however it ends: a byte behind the command word stays unless some pair is
      spelled as the option whose word holds it. */
  lemma OtherBytesStay(dev: Device, kind: Kind, args: seq<string>, order: ByteOrder, p: nat)
    requires ValidDevice(dev) && 4 <= p < Size(kind) && ByteNotNamed(kind, args, p)
    ensures ValidDevice(Run(dev, kind, args, order).0)
    ensures Run(dev, kind, args, order).0.Get(kind).stored[p] == dev.Get(kind).stored[p]
  {
    hide AllEffects, Run, LastValue, ByteNotNamed;
    RowNotAssigned(kind, args, p);
    UnnamedBytesStay(dev, kind, args, order, RowAt(p));
    Offsets(kind);
    hide Table, Size;
    SameWordSameByte(dev.Get(kind).stored, Run(dev, kind, args, order).0.Get(kind).stored,
                     4 * RowAt(p) + 4, p);
  }

  lemma SameWordSameByte(a: seq<byte>, b: seq<byte>, o: nat, p: nat)
    requires o <= p < o + 4 <= |a| && o + 4 <= |b| && a[o..o + 4] == b[o..o + 4]
    ensures a[p] == b[p]
  {
    assert a[o..o + 4][p - o] == b[o..o + 4][p - o];
  }

  /** One option and a value for it: that word holds the value, every other byte behind the
      command word and the other struct stay. */
  lemma OneOption(dev: Device, kind: Kind, i: nat, name: string, text: string, v: int, order: ByteOrder)
    requires ValidDevice(dev) && dev.Get(kind).supported && dev.Get(kind).accepting
    requires i < |Options(kind)| && SpelledAs(name, Options(kind)[i].option)
    requires Says(kind, text, v) && -0x8000_0000_0000_0000 <= v <= 0x7fff_ffff_ffff_ffff
    ensures var o, dev' := Options(kind)[i].offset, Run(dev, kind, [name, text], order).0;
            && ValidDevice(dev')
            && HoldsWord(dev'.Get(kind).stored, o, v % WORD, order)
            && (forall p :: 4 <= p < Size(kind) && !(o <= p < o + 4) ==>
                  dev'.Get(kind).stored[p] == dev.Get(kind).stored[p])
            && (forall other :: other != kind ==> dev'.Get(other) == dev.Get(other))
  {
    hide Run, Current, SpelledAs, Says, HoldsWord, NewlineOption, AllEffects;
    var args := [name, text];
    NoNewline(kind, name, text, i);
    LastPairDecides(dev, kind, args, order, 0, i, v);
    RunStores(dev, kind, args, order);
    var o := Options(kind)[i].offset;
    forall p | 4 <= p < Size(kind) && !(o <= p < o + 4)
      ensures Run(dev, kind, args, order).0.Get(kind).stored[p] == dev.Get(kind).stored[p]
    {
      OnlyNamed(kind, name, text, i, p);
      OtherBytesStay(dev, kind, args, order, p);
    }
  }

  lemma NoNewline(kind: Kind, name: string, text: string, i: nat)
    requires i < |Options(kind)| && SpelledAs(name, Options(kind)[i].option)
    ensures !NewlineOption(kind, [name, text])
  {
    if name == "\n" {
      OptionEntry(kind, i);
      RecognisedAreFields(kind, Options(kind)[i].option);
      SpelledIff(name, Options(kind)[i].option);
      LowerNewline(name);
    }
  }

  lemma OnlyNamed(kind: Kind, name: string, text: string, i: nat, p: nat)
    requires i < |Options(kind)| && SpelledAs(name, Options(kind)[i].option)
    requires !(Options(kind)[i].offset <= p < Options(kind)[i].offset + 4)
    ensures ByteNotNamed(kind, [name, text], p)
  {
    hide SpelledAs;
    var args := [name, text];
    forall j | 0 <= j < |Options(kind)| && Options(kind)[j].offset <= p < Options(kind)[j].offset + 4
      ensures NotNamedFrom(kind, args, 0, j)
    {
      if SpelledAs(name, Options(kind)[j].option) {
        SpelledIff(name, Options(kind)[i].option);
        SpelledIff(name, Options(kind)[j].option);
        OptionEntry(kind, i);
        OptionEntry(kind, j);
        OneRow(kind, RowAt(Options(kind)[i].offset), RowAt(Options(kind)[j].offset));
        OnePlace(kind, i, j);
      }
    }
  }

  /** The two words mean nothing for ring parameters, whatever options they are given to. */
  lemma SwitchesLeaveTheRing(dev: Device, args: seq<string>, order: ByteOrder)
    requires ValidDevice(dev) && |args| % 2 == 0
    requires forall k :: 0 <= k < |args| / 2 ==>
      SpelledAs(args[2 * k + 1], "on") || SpelledAs(args[2 * k + 1], "off")
    ensures Run(dev, Ring, args, order).0 == dev
  {
    hide AllEffects, Run, Current, SpelledAs, PyInt, EntryOf, Lower;
    var es := AllEffects(Ring, args);
    WritesIff(dev, Ring, args, order);
    EffectCount(Ring, args);
    forall k | 0 <= k < |es| ensures !es[k].Assign? {
      PairEffect(Ring, args, k);
      SwitchWords(args[2 * k + 1]);
      SwitchesAreNoNumbers();
    }
  }

  /** The command word of the struct that a set command leaves in the device. */
  lemma StoredCommand(dev: Device, kind: Kind, args: seq<string>, order: ByteOrder)
    requires ValidDevice(dev) && Writes(dev, kind, args, order) && dev.Get(kind).accepting
    ensures HoldsWord(Run(dev, kind, args, order).0.Get(kind).stored, 0,
                      match kind case Coalesce => 0x0f case Ring => 0x11, order)
  {
    hide Run, Current, AllEffects, Play, Store, Load, HoldsWord, Packed;
    StoredAfter(dev, kind, args, order);
    var stored := Run(dev, kind, args, order).0.Get(kind).stored;
    assert stored[0..4] == Store(SetCommand(kind), order);
    LoadStore(SetCommand(kind), order);
    WordIsHeld(stored, 0, SetCommand(kind), order);
  }

  // ------------------------------------------------------------------ what is passed over

  /** White space, an optional sign, grouped digits, white space. */
  ghost predicate IsInt(s: string) {
    exists i, j :: 0 <= i < j <= |s| && Blank(s[..i]) && Signed(s[i..j]) && Blank(s[j..])
  }

  lemma AcceptedIsInt(s: string)
    ensures PyInt(s).Some? <==> IsInt(s)
  {
    hide PyInt, Signed, Blank;
    if PyInt(s).Some? {
      var before, t, after := PyIntAccepts(s);
      var i, j := |before|, |before| + |t|;
      SignedEnds(t);
      assert s[..i] == before && s[i..j] == t && s[j..] == after;
    }
    if i, j :| 0 <= i < j <= |s| && Blank(s[..i]) && Signed(s[i..j]) && Blank(s[j..]) {
      PyIntReads(s[..i], s[i..j], s[j..]);
      assert s[..i] + (s[i..j] + s[j..]) == s;
    }
  }

  predicate NoLetter(s: string) {
    forall k :: 0 <= k < |s| ==> !('a' <= s[k] <= 'z') && !('A' <= s[k] <= 'Z')
  }

  lemma BlankHasNoLetter(s: string)
    requires Blank(s)
    ensures NoLetter(s)
  {
  }

  lemma GroupedHasNoLetter(s: string)
    requires Grouped(s)
    ensures NoLetter(s)
  {
    forall k | 0 <= k < |s| ensures !('a' <= s[k] <= 'z') && !('A' <= s[k] <= 'Z') {
      assert IsDigit(s[k]) || s[k] == '_';
    }
  }

  lemma SignedHasNoLetter(t: string)
    requires Signed(t)
    ensures NoLetter(t)
  {
    if t[0] in "+-" {
      assert t[0] == '+' || t[0] == '-';
      GroupedHasNoLetter(t[1..]);
      assert t == [t[0]] + t[1..];
    } else {
      GroupedHasNoLetter(t);
    }
  }

  /** No letter occurs in an integer, so lower() changes nothing. */
  lemma IntHasNoLetter(s: string)
    requires IsInt(s)
    ensures NoLetter(s)
  {
    hide Blank, Signed;
    var i, j :| 0 <= i < j <= |s| && Blank(s[..i]) && Signed(s[i..j]) && Blank(s[j..]);
    BlankHasNoLetter(s[..i]);
    SignedHasNoLetter(s[i..j]);
    BlankHasNoLetter(s[j..]);
    assert s == s[..i] + s[i..j] + s[j..];
  }

  lemma LowerIsInt(s: string)
    requires IsInt(Lower(s))
    ensures IsInt(s)
  {
    hide IsInt;
    IntHasNoLetter(Lower(s));
    forall k | 0 <= k < |s| ensures s[k] == Lower(s)[k] {
      assert Lower(s)[k] == LowerChar(s[k]);
    }
    assert s == Lower(s);
  }

  /** A pair the loop passes over: its name is no option, or its value neither an integer nor
      one of the two words where they count. */
  ghost predicate PassedOver(kind: Kind, name: string, text: string) {
    || (forall i :: 0 <= i < |Options(kind)| ==> !SpelledAs(name, Options(kind)[i].option))
    || (!IsInt(text) && (kind == Coalesce ==> !SpelledAs(text, "on") && !SpelledAs(text, "off")))
  }

  lemma PassedOverSkips(kind: Kind, args: seq<string>, k: nat)
    requires k < |args| / 2 && PassedOver(kind, args[2 * k], args[2 * k + 1])
    ensures k < |AllEffects(kind, args)| && !AllEffects(kind, args)[k].Assign?
  {
    hide AllEffects, SpelledAs, PyInt, EntryOf, Lower, IsInt;
    var text := args[2 * k + 1];
    EffectCount(kind, args);
    PairEffect(kind, args, k);
    if AllEffects(kind, args)[k].Assign? {
      var i := AssignsIsSpelled(kind, args, k);
      SpelledIff(text, "on");
      SpelledIff(text, "off");
      AcceptedIsInt(Lower(text));
      if IsInt(Lower(text)) { LowerIsInt(text); }
    }
  }

  /** For every run: if all pairs are passed over, the device is left alone. */
  lemma PassedOverChangesNothing(dev: Device, kind: Kind, args: seq<string>, order: ByteOrder)
    requires ValidDevice(dev)
    requires forall k :: 0 <= k < |args| / 2 ==> PassedOver(kind, args[2 * k], args[2 * k + 1])
    ensures Run(dev, kind, args, order).0 == dev
  {
    hide AllEffects, Run, Current, PassedOver, NewlineOption;
    WritesIff(dev, kind, args, order);
    EffectCount(kind, args);
    forall k | 0 <= k < |AllEffects(kind, args)| ensures !AllEffects(kind, args)[k].Assign? {
      PassedOverSkips(kind, args, k);
    }
  }

  // ------------------------------------------------------------- the dictionaries of a get

  /** The entry of that name holds the word at that byte. */
  ghost predicate Shows(dev: Device, kind: Kind, order: ByteOrder, name: string, o: nat)
    requires ValidDevice(dev)
  {
    && name in Current(dev, kind, order) && Current(dev, kind, order)[name] >= 0
    && HoldsWord(dev.Get(kind).stored, o, Current(dev, kind, order)[name], order)
  }

  lemma RowShows(dev: Device, kind: Kind, order: ByteOrder, r: nat, name: string, o: nat)
    requires ValidDevice(dev) && r < |Table(kind)| && Table(kind)[r].name == name && o == 4 * r + 4
    ensures Shows(dev, kind, order, name, o)
  {
    hide Current, HoldsWord, Load;
    CurrentEntry(dev, kind, order, r);
    Offsets(kind);
    WordIsHeld(dev.Get(kind).stored, o, Current(dev, kind, order)[name], order);
  }

  /** The fields in the order of the struct's words behind the command word. */
  const RING_FIELDS: seq<string> := [
    "rx_max_pending", "rx_mini_max_pending", "rx_jumbo_max_pending", "tx_max_pending",
    "rx_pending", "rx_mini_pending", "rx_jumbo_pending", "tx_pending"
  ]

  const COALESCE_FIELDS: seq<string> := [
    "rx_coalesce_usecs", "rx_max_coalesced_frames",
    "rx_coalesce_usecs_irq", "rx_max_coalesced_frames_irq",
    "tx_coalesce_usecs", "tx_max_coalesced_frames",
    "tx_coalesce_usecs_irq", "tx_max_coalesced_frames_irq",
    "stats_block_coalesce_usecs", "use_adaptive_rx_coalesce", "use_adaptive_tx_coalesce",
    "pkt_rate_low", "rx_coalesce_usecs_low", "rx_max_coalesced_frames_low",
    "tx_coalesce_usecs_low", "tx_max_coalesced_frames_low",
    "pkt_rate_high", "rx_coalesce_usecs_high", "rx_max_coalesced_frames_high",
    "tx_coalesce_usecs_high", "tx_max_coalesced_frames_high",
    "rate_sample_interval"
  ]

  lemma EarlierFields(i: nat)
    requires i < 8
    ensures COALESCE_DESC[i].name == COALESCE_FIELDS[i]
  {
  }

  lemma MiddleFields(i: nat)
    requires 8 <= i < 16
    ensures COALESCE_DESC[i].name == COALESCE_FIELDS[i]
  {
  }

  lemma LaterFields(i: nat)
    requires 16 <= i < |COALESCE_FIELDS|
    ensures i < |COALESCE_DESC| && COALESCE_DESC[i].name == COALESCE_FIELDS[i]
  {
  }

  lemma RingFields(i: nat)
    requires i < |RING_FIELDS|
    ensures i < |RINGPARAM_DESC| && RINGPARAM_DESC[i].name == RING_FIELDS[i]
  {
  }

  /** What get_coalesce and get_ringparam return, field by field. */
  lemma FieldsShow(dev: Device, order: ByteOrder)
    requires ValidDevice(dev)
    ensures forall i: nat :: i < |RING_FIELDS| ==> Shows(dev, Ring, order, RING_FIELDS[i], 4 * i + 4)
    ensures forall i: nat :: i < |COALESCE_FIELDS| ==>
      Shows(dev, Coalesce, order, COALESCE_FIELDS[i], 4 * i + 4)
  {
    hide Shows;
    forall i: nat | i < |RING_FIELDS| ensures Shows(dev, Ring, order, RING_FIELDS[i], 4 * i + 4) {
      RingFields(i);
      RowShows(dev, Ring, order, i, RING_FIELDS[i], 4 * i + 4);
    }
    forall i: nat | i < |COALESCE_FIELDS|
      ensures Shows(dev, Coalesce, order, COALESCE_FIELDS[i], 4 * i + 4)
    {
      if i < 8 { EarlierFields(i); } else if i < 16 { MiddleFields(i); } else { LaterFields(i); }
      RowShows(dev, Coalesce, order, i, COALESCE_FIELDS[i], 4 * i + 4);
    }
  }
}
