/** The round trip on the parser's own device objects for the old format, and for texts in
    which every device is printed in either format. */
module IfconfigOldDevices {
  import opened IfconfigDevices
  import opened IfconfigFormats
  import opened IfconfigMixed
  import opened IfconfigOldFlags
  import opened IfconfigOldPrinter
  import opened IfconfigParser
  import opened IfconfigPatterns
  import opened IfconfigPrinter
  import opened IfconfigRoundTrip
  import opened IfconfigText
  import opened Scanner
  import opened Wrappers

  /** The attributes that the lines of a kind carry. */
  function OldKeys(kind: OldKind): set<Attr> {
    match kind
    case InetOld => {INET, NETMASK, BROADCAST, DESTINATION}
    case Inet6Old => {INET6, PREFIX_LEN, SCOPE_ID}
    case FlagsOld => {FLAGS_STR, MTU, METRIC, OUTFILL, KEEPALIVE}
    case RxOld => {RX_PACKETS, RX_ERRORS, RX_DROPPED, RX_OVERRUNS, RX_FRAME}
    case RxCompressedOld => {RX_COMPRESSED}
    case TxOld => {TX_PACKETS, TX_ERRORS, TX_DROPPED, TX_OVERRUNS, TX_CARRIER}
    case CollisionsOld => {TX_COLLISIONS, TX_COMPRESSED, TX_QUEUE_LEN}
    case BytesOld => {RX_BYTES, TX_BYTES}
    case HardwareOld => {INTERRUPT, BASE_ADDR, MEM_START, MEM_END, DMA}
  }

  /** The attributes no line below the first carries. */
  const HEADER_KEYS: set<Attr> := {FLAGS_INT, HW_NAME, HW_ADDR, HW_TITLE}

  lemma KeyIsCarried(kind: OldKind, a: Attr)
    requires a in OldKeys(kind)
    ensures CarriedBy(a) == Some(kind)
  {
  }

  lemma CarriedIsKey(a: Attr)
    ensures if CarriedBy(a).Some? then a in OldKeys(CarriedBy(a).value) else a in HEADER_KEYS
  {
    match a
    case OfHeader(x) =>
      match x { case AFlagsInt => case AFlagsStr => case AMtu => case AOutfill => case AKeepalive => }
    case OfIpv4(x) => match x { case AInet => case ANetmask => case ABroadcast => case ADestination => }
    case OfIpv6(x) => match x { case AInet6 => case APrefixLen => case AScopeId => }
    case OfHardware(x) => match x { case AHwName => case AHwAddr => case ATxQueueLen => case AHwTitle => }
    case OfReceived(x) => match x { case ARxPackets => case ARxBytes => }
    case OfReceiveErrors(x) => match x { case ARxErrors => case ARxDropped => case ARxOverruns => case ARxFrame => }
    case OfSent(x) => match x { case ATxPackets => case ATxBytes => }
    case OfSendErrors(x) =>
      match x { case ATxErrors => case ATxDropped => case ATxOverruns => case ATxCarrier => case ATxCollisions => }
    case OfResources(x) =>
      match x { case AInterrupt => case ABaseAddr => case AMemStart => case AMemEnd => case ADma => }
    case OfOldOnly(x) => match x { case AMetric => case ARxCompressed => case ATxCompressed => }
  }

  lemma HeaderKeyIsNotCarried(a: Attr)
    requires a in HEADER_KEYS
    ensures CarriedBy(a).None?
  {
  }

  lemma OldKeysIff(kind: OldKind, a: Attr)
    ensures a in OldKeys(kind) <==> CarriedBy(a) == Some(kind)
    ensures a in HEADER_KEYS <==> CarriedBy(a).None?
  {
    hide OldKeys, CarriedBy;
    if a in OldKeys(kind) { KeyIsCarried(kind, a); }
    if a in HEADER_KEYS { HeaderKeyIsNotCarried(a); }
    CarriedIsKey(a);
  }

  // ------------------------------------------------------------------- well-formed devices

  ghost predicate Blank(m: FullAttrs, kind: OldKind) {
    forall a: Attr :: a in OldKeys(kind) ==> m[a] == Nothing
  }

  ghost predicate AllNumbers(m: FullAttrs, kind: OldKind) {
    forall a: Attr :: a in OldKeys(kind) ==> m[a].Num?
  }

  ghost predicate OptionalIp4(v: Val) { v == Nothing || (v.Str? && IsIp4(v.s)) }

  ghost predicate OldInet(m: FullAttrs) {
    && m[INET].Str? && IsIp4(m[INET].s)
    && OptionalIp4(m[NETMASK]) && OptionalIp4(m[BROADCAST]) && OptionalIp4(m[DESTINATION])
  }

  ghost predicate OldInet6(m: FullAttrs) {
    && m[INET6].Str? && Token(m[INET6].s) && m[PREFIX_LEN].Num?
    && m[SCOPE_ID].Str? && Token(m[SCOPE_ID].s)
  }

  predicate OldFlags(m: FullAttrs) {
    && m[FLAGS_STR].Str? && Clean(m[FLAGS_STR].s)
    && Leaves(Space, m[FLAGS_STR].s) && !AddressLike(m[FLAGS_STR].s)
    && m[MTU].Num? && m[METRIC].Num?
    && OptionalNum(m[OUTFILL]) && OptionalNum(m[KEEPALIVE])
    && (m[OUTFILL].Num? <==> m[KEEPALIVE].Num?)
  }

  predicate OldCollisions(m: FullAttrs) {
    m[TX_COLLISIONS].Num? && OptionalNum(m[TX_COMPRESSED]) && OptionalNum(m[TX_QUEUE_LEN])
  }

  predicate OldResources(m: FullAttrs) {
    && m[INTERRUPT].Num? && OptionalNum(m[BASE_ADDR]) && OptionalNum(m[DMA])
    && OptionalNum(m[MEM_START]) && OptionalNum(m[MEM_END])
    && (m[MEM_START].Num? <==> m[MEM_END].Num?)
  }

  ghost predicate OldTitle(m: FullAttrs) {
    && m[FLAGS_INT] == Nothing && m[HW_NAME] == Nothing
    && m[HW_TITLE].Str? && IsTitle(m[HW_TITLE].s)
    && (m[HW_ADDR] == Nothing || (m[HW_ADDR].Str? && All(NonSpace, m[HW_ADDR].s)))
  }

  /** The attributes of a device as the old format can show them. */
  ghost predicate OldKindFormed(m: FullAttrs, kind: OldKind) {
    || Blank(m, kind)
    || (match kind
        case InetOld => OldInet(m)
        case Inet6Old => OldInet6(m)
        case FlagsOld => OldFlags(m)
        case CollisionsOld => OldCollisions(m)
        case HardwareOld => OldResources(m)
        case _ => AllNumbers(m, kind))
  }

  ghost predicate WellFormedOldAttrs(m: FullAttrs) {
    OldTitle(m) && forall kind: OldKind :: OldKindFormed(m, kind)
  }

  ghost predicate WellFormedOld(d: Dev) {
    IsWord(d.name) && (forall a: Attr :: a in d.attrs) && WellFormedOldAttrs(d.attrs)
  }

  /** A rounding of byte counts that prints no line break, parenthesis or capital U. */
  ghost predicate PlainHuman(human: nat -> string) {
    forall n: nat :: Clean(human(n)) && NoU(human(n)) && Without(')', human(n))
  }

  // ------------------------------------------------------------------ printing a device

  function Pair(a: Val, b: Val): Option<(nat, nat)> {
    if a.Num? then Some((NumOf(a), NumOf(b))) else None
  }

  /** The line that shows the attributes of a kind. */
  function OldLineFor(m: FullAttrs, kind: OldKind, human: nat -> string): seq<OldLine> {
    match kind
    case InetOld =>
      if m[INET] == Nothing then []
      else [InetAddr(StrOf(m[INET]), MaybeStr(m[DESTINATION]), MaybeStr(m[BROADCAST]),
                     MaybeStr(m[NETMASK]))]
    case Inet6Old =>
      if m[INET6] == Nothing then []
      else [Inet6Addr(StrOf(m[INET6]), NumOf(m[PREFIX_LEN]), StrOf(m[SCOPE_ID]))]
    case FlagsOld =>
      if m[FLAGS_STR] == Nothing then []
      else [FlagsAndMtu(StrOf(m[FLAGS_STR]), NumOf(m[MTU]), NumOf(m[METRIC]),
                        Pair(m[OUTFILL], m[KEEPALIVE]))]
    case RxOld =>
      if m[RX_PACKETS] == Nothing then []
      else [RxCounters(NumOf(m[RX_PACKETS]), NumOf(m[RX_ERRORS]), NumOf(m[RX_DROPPED]),
                       NumOf(m[RX_OVERRUNS]), NumOf(m[RX_FRAME]))]
    case RxCompressedOld =>
      if m[RX_COMPRESSED] == Nothing then [] else [RxCompressedCounter(NumOf(m[RX_COMPRESSED]))]
    case TxOld =>
      if m[TX_PACKETS] == Nothing then []
      else [TxCounters(NumOf(m[TX_PACKETS]), NumOf(m[TX_ERRORS]), NumOf(m[TX_DROPPED]),
                       NumOf(m[TX_OVERRUNS]), NumOf(m[TX_CARRIER]))]
    case CollisionsOld =>
      if m[TX_COLLISIONS] == Nothing then []
      else [CollisionCounters(NumOf(m[TX_COLLISIONS]), MaybeNum(m[TX_COMPRESSED]),
                              MaybeNum(m[TX_QUEUE_LEN]))]
    case BytesOld =>
      if m[RX_BYTES] == Nothing then []
      else [ByteCounters(NumOf(m[RX_BYTES]), human(NumOf(m[RX_BYTES])), NumOf(m[TX_BYTES]),
                         human(NumOf(m[TX_BYTES])))]
    case HardwareOld =>
      if m[INTERRUPT] == Nothing then []
      else [HardwareResources(MaybeNum(m[INTERRUPT]), MaybeNum(m[BASE_ADDR]),
                              Pair(m[MEM_START], m[MEM_END]), MaybeNum(m[DMA]))]
  }

  const OLD_KINDS := [
    InetOld, Inet6Old, FlagsOld, RxOld, RxCompressedOld, TxOld, CollisionsOld, BytesOld,
    HardwareOld
  ]

  function OldLinesFor(m: FullAttrs, kinds: seq<OldKind>, human: nat -> string): seq<OldLine> {
    if kinds == [] then []
    else OldLinesFor(m, kinds[..|kinds| - 1], human) + OldLineFor(m, kinds[|kinds| - 1], human)
  }

  function OldHeaderFor(name: string, m: FullAttrs): OldHeader {
    OldHeader(name, 1, StrOf(m[HW_TITLE]), MaybeStr(m[HW_ADDR]))
  }

  ghost function OldUnitFor(d: Dev, human: nat -> string): OldUnit
    requires forall a: Attr :: a in d.attrs
  {
    OldUnit(OldHeaderFor(d.name, d.attrs), OldLinesFor(d.attrs, OLD_KINDS, human))
  }

  // ---------------------------------------------------------------- and reading it back

  /** The line is read as exactly the attributes of its kind. */
  ghost predicate OldShows(l: OldLine, m: FullAttrs, kind: OldKind) {
    && ValidOld(l) && CleanOldLine(l) && KindOfOld(l) == kind
    && forall a: Attr :: a in OldKeys(kind) ==>
         (if a in ReadFrom(l) then ReadFrom(l)[a] else Nothing) == m[a]
  }

  ghost predicate OldShown(m: FullAttrs, kind: OldKind, human: nat -> string) {
    var ls := OldLineFor(m, kind, human);
    if ls == [] then Blank(m, kind) else |ls| == 1 && OldShows(ls[0], m, kind)
  }

  lemma InetAttrs(inet: string, peer: Option<string>, broadcast: Option<string>,
                  mask: Option<string>)
    ensures var m := Statement(InetAddr(inet, peer, broadcast, mask));
            && INET in m && m[INET] == Str(inet)
            && (if peer.Some? then DESTINATION in m && m[DESTINATION] == Str(peer.value)
                else DESTINATION !in m)
            && (if broadcast.Some? then BROADCAST in m && m[BROADCAST] == Str(broadcast.value)
                else BROADCAST !in m)
            && (if mask.Some? then NETMASK in m && m[NETMASK] == Str(mask.value) else NETMASK !in m)
  {
  }

  lemma InetShown(m: FullAttrs, human: nat -> string)
    requires OldKindFormed(m, InetOld)
    ensures OldShown(m, InetOld, human)
  {
    hide IsIp4, Statement;
    var ls := OldLineFor(m, InetOld, human);
    if ls != [] {
      var l := ls[0];
      InetAttrs(l.inet, l.peer, l.broadcast, l.mask);
    }
  }

  lemma Inet6Shown(m: FullAttrs, human: nat -> string)
    requires OldKindFormed(m, Inet6Old)
    ensures OldShown(m, Inet6Old, human)
  {
    hide All;
  }

  lemma FlagsShown(m: FullAttrs, human: nat -> string)
    requires OldKindFormed(m, FlagsOld)
    ensures OldShown(m, FlagsOld, human)
  {
    hide AddressLike, Clean, Leaves;
  }

  lemma RxShown(m: FullAttrs, human: nat -> string)
    requires OldKindFormed(m, RxOld)
    ensures OldShown(m, RxOld, human)
  {
  }

  lemma CompressedShown(m: FullAttrs, human: nat -> string)
    requires OldKindFormed(m, RxCompressedOld)
    ensures OldShown(m, RxCompressedOld, human)
  {
  }

  lemma TxShown(m: FullAttrs, human: nat -> string)
    requires OldKindFormed(m, TxOld)
    ensures OldShown(m, TxOld, human)
  {
  }

  lemma CollisionsShown(m: FullAttrs, human: nat -> string)
    requires OldKindFormed(m, CollisionsOld)
    ensures OldShown(m, CollisionsOld, human)
  {
  }

  lemma BytesShown(m: FullAttrs, human: nat -> string)
    requires OldKindFormed(m, BytesOld) && PlainHuman(human)
    ensures OldShown(m, BytesOld, human)
  {
    hide Readable, Clean, NoU, Without;
    var ls := OldLineFor(m, BytesOld, human);
    if ls != [] { PlainBytesAreReadable(ls[0]); }
  }

  lemma HardwareShownOld(m: FullAttrs, human: nat -> string)
    requires OldKindFormed(m, HardwareOld)
    ensures OldShown(m, HardwareOld, human)
  {
    hide ResourceAttrs;
    var ls := OldLineFor(m, HardwareOld, human);
    if ls != [] {
      var l := ls[0];
      ResourceAttrsAre(l.interrupt, l.base, l.memory, l.dma);
    }
  }

  lemma EveryKindShown(m: FullAttrs, kind: OldKind, human: nat -> string)
    requires WellFormedOldAttrs(m) && PlainHuman(human)
    ensures OldShown(m, kind, human)
  {
    assert OldKindFormed(m, kind);
    hide OldShown, OldKindFormed, OldTitle, PlainHuman;
    match kind
    case InetOld => InetShown(m, human);
    case Inet6Old => Inet6Shown(m, human);
    case FlagsOld => FlagsShown(m, human);
    case CollisionsOld => CollisionsShown(m, human);
    case BytesOld => BytesShown(m, human);
    case HardwareOld => HardwareShownOld(m, human);
    case RxOld => RxShown(m, human);
    case RxCompressedOld => CompressedShown(m, human);
    case TxOld => TxShown(m, human);
  }

  /** What has been read once the lines of some kinds have been: those as they were, the first
      line's attributes, and nothing else. */
  ghost predicate OldReadBack(attrs: Attrs, m: FullAttrs, kinds: seq<OldKind>) {
    && (forall a: Attr :: a in attrs)
    && (forall a: Attr :: attrs[a] ==
          if CarriedBy(a).None? || CarriedBy(a).value in kinds then m[a] else Nothing)
  }

  lemma OldHeaderShown(name: string, m: FullAttrs)
    requires OldTitle(m)
    ensures var meaning := OldHeaderMeaning(OldHeaderFor(name, m));
            && meaning.Keys <= HEADER_KEYS
            && forall a: Attr :: a in HEADER_KEYS ==>
                 (if a in meaning then meaning[a] else Nothing) == m[a]
  {
    hide IsTitle, All;
  }

  lemma OldHeaderReadBack(base: Attrs, meaning: Attrs, m: FullAttrs)
    requires forall a: Attr :: a in base && base[a] == Nothing
    requires meaning.Keys <= HEADER_KEYS
    requires forall a: Attr :: a in HEADER_KEYS ==>
      (if a in meaning then meaning[a] else Nothing) == m[a]
    ensures OldReadBack(base + meaning, m, [])
  {
    hide CarriedBy;
    forall a: Attr
      ensures (base + meaning)[a] == if CarriedBy(a).None? then m[a] else Nothing
    {
      OldKeysIff(InetOld, a);
    }
  }

  lemma OneMoreOldLine(attrs: Attrs, m: FullAttrs, kinds: seq<OldKind>, kind: OldKind,
                       human: nat -> string)
    requires OldReadBack(attrs, m, kinds) && OldShown(m, kind, human) && kind !in kinds
    ensures var ls := OldLineFor(m, kind, human);
            OldReadBack(attrs + if ls == [] then map[] else ReadFrom(ls[0]), m, kinds + [kind])
  {
    hide OldLineFor, ReadFrom, OldKeys, CarriedBy, ValidOld, CleanOldLine, KindOfOld;
    var ls := OldLineFor(m, kind, human);
    var after := attrs + if ls == [] then map[] else ReadFrom(ls[0]);
    if ls != [] { ReadFromOwn(ls[0]); }
    forall a: Attr
      ensures a in after
      ensures after[a] ==
        if CarriedBy(a).None? || CarriedBy(a).value in kinds + [kind] then m[a] else Nothing
    {
      OldKeysIff(kind, a);
    }
  }

  lemma MergedOldAppend(attrs: Attrs, lines: seq<OldLine>, ls: seq<OldLine>)
    requires |ls| <= 1
    ensures MergedOld(attrs, lines + ls)
         == MergedOld(attrs, lines) + if ls == [] then map[] else ReadFrom(ls[0])
  {
    hide ReadFrom;
    if ls == [] {
      assert lines + ls == lines;
      assert MergedOld(attrs, lines) + map[] == MergedOld(attrs, lines);
    } else {
      assert (lines + ls)[..|lines|] == lines;
    }
  }

  lemma OldShownLines(m: FullAttrs, kind: OldKind, human: nat -> string)
    requires OldShown(m, kind, human)
    ensures |OldLineFor(m, kind, human)| <= 1
    ensures forall l :: l in OldLineFor(m, kind, human) ==> ValidOld(l) && CleanOldLine(l)
  {
    hide OldLineFor, ReadFrom, OldKeys, Blank, ValidOld, CleanOldLine;
  }

  lemma NothingMergedOld(attrs: Attrs)
    ensures MergedOld(attrs, []) == attrs
  {
  }

  lemma {:induction false} OldLinesReadBack(attrs: Attrs, m: FullAttrs, kinds: seq<OldKind>,
                                            human: nat -> string)
    requires OldReadBack(attrs, m, [])
    requires forall i :: 0 <= i < |kinds| ==> OldShown(m, kinds[i], human)
    requires forall i, j :: 0 <= i < j < |kinds| ==> kinds[i] != kinds[j]
    ensures OldReadBack(MergedOld(attrs, OldLinesFor(m, kinds, human)), m, kinds)
    ensures forall l :: l in OldLinesFor(m, kinds, human) ==> ValidOld(l) && CleanOldLine(l)
  {
    hide OldLineFor, OldReadBack, ReadFrom, OldShown, MergedOld, ValidOld, CleanOldLine;
    if kinds == [] {
      NothingMergedOld(attrs);
    } else {
      var n := |kinds| - 1;
      var before, ls := OldLinesFor(m, kinds[..n], human), OldLineFor(m, kinds[n], human);
      OldLinesReadBack(attrs, m, kinds[..n], human);
      OldShownLines(m, kinds[n], human);
      MergedOldAppend(attrs, before, ls);
      OneMoreOldLine(MergedOld(attrs, before), m, kinds[..n], kinds[n], human);
      assert kinds == kinds[..n] + [kinds[n]];
    }
  }

  lemma KindsDiffer()
    ensures forall i, j :: 0 <= i < j < |OLD_KINDS| ==> OLD_KINDS[i] != OLD_KINDS[j]
  {
  }

  lemma KindIsListed(kind: OldKind)
    ensures kind in OLD_KINDS
  {
    assert OLD_KINDS[OldRank(kind)] == kind;
  }

  lemma AllOldRead(attrs: Attrs, m: FullAttrs)
    requires OldReadBack(attrs, m, OLD_KINDS)
    ensures attrs == m
  {
    hide CarriedBy;
    forall a: Attr ensures attrs[a] == m[a] {
      if CarriedBy(a).Some? { KindIsListed(CarriedBy(a).value); }
    }
  }

  lemma OldLinesDescribe(name: string, m: FullAttrs, human: nat -> string)
    requires WellFormedOldAttrs(m) && PlainHuman(human)
    ensures var h, ls := OldHeaderFor(name, m), OldLinesFor(m, OLD_KINDS, human);
            && MergedOld(UNSET + OldHeaderMeaning(h), ls) == m
            && forall l :: l in ls ==> ValidOld(l) && CleanOldLine(l)
  {
    assert OldTitle(m);
    hide *;
    var start := UNSET + OldHeaderMeaning(OldHeaderFor(name, m));
    UnsetIsTotal();
    OldHeaderShown(name, m);
    OldHeaderReadBack(UNSET, OldHeaderMeaning(OldHeaderFor(name, m)), m);
    forall i | 0 <= i < |OLD_KINDS| ensures OldShown(m, OLD_KINDS[i], human) {
      EveryKindShown(m, OLD_KINDS[i], human);
    }
    KindsDiffer();
    OldLinesReadBack(start, m, OLD_KINDS, human);
    AllOldRead(MergedOld(start, OldLinesFor(m, OLD_KINDS, human)), m);
  }

  lemma OldHeaderForms(name: string, m: FullAttrs)
    requires IsWord(name) && OldTitle(m)
    ensures ValidOldHeader(OldHeaderFor(name, m)) && OldHeaderFor(name, m).name == name
  {
    hide IsTitle, All;
  }

  lemma MakesOldUnit(h: OldHeader, ls: seq<OldLine>, d: Dev)
    requires ValidOldHeader(h) && h.name == d.name
    requires MergedOld(UNSET + OldHeaderMeaning(h), ls) == d.attrs
    requires forall l :: l in ls ==> ValidOld(l) && CleanOldLine(l)
    ensures Printable(InOldFormat(OldUnit(h, ls))) && DescribedOld(OldUnit(h, ls)) == d
  {
    hide MergedOld, ValidOld, CleanOldLine, ValidOldHeader, OldHeaderMeaning;
  }

  /** What is printed for a well-formed device states exactly its attributes. */
  lemma OldUnitDescribes(d: Dev, human: nat -> string)
    requires WellFormedOld(d) && PlainHuman(human)
    ensures var u := OldUnitFor(d, human);
            Printable(InOldFormat(u)) && DescribedOld(u) == d
  {
    var h, ls := OldHeaderFor(d.name, d.attrs), OldLinesFor(d.attrs, OLD_KINDS, human);
    assert OldUnitFor(d, human) == OldUnit(h, ls);
    hide IsWord, OldTitle, OldLinesFor, OldHeaderFor, PlainHuman, OldKindFormed, OldUnitFor;
    OldLinesDescribe(d.name, d.attrs, human);
    OldHeaderForms(d.name, d.attrs);
    hide *;
    MakesOldUnit(h, ls, d);
  }

  // ----------------------------------------------------------------------- whole texts

  /** The device can be shown in the chosen format. */
  ghost predicate WellFormedIn(d: Dev, oldFormat: bool) {
    if oldFormat then WellFormedOld(d) else WellFormed(d)
  }

  ghost function SectionFor(d: Dev, oldFormat: bool, human: nat -> string): Section
    requires WellFormedIn(d, oldFormat)
  {
    if oldFormat then InOldFormat(OldUnitFor(d, human)) else InNewFormat(UnitFor(d, human))
  }

  lemma SectionDescribes(d: Dev, oldFormat: bool, human: nat -> string)
    requires WellFormedIn(d, oldFormat) && PlainHuman(human)
    ensures var s := SectionFor(d, oldFormat, human);
            Printable(s) && DeviceFor(s) == d && s.InOldFormat? == oldFormat
  {
    hide WellFormedOld, WellFormed, Described, DescribedOld, OldUnitFor, UnitFor, PrintableUnit;
    if oldFormat { OldUnitDescribes(d, human); } else { UnitDescribes(d, human); }
  }

  ghost function SectionsFor(ds: seq<Dev>, formats: seq<bool>, human: nat -> string): seq<Section>
    requires |formats| == |ds|
    requires forall i :: 0 <= i < |ds| ==> WellFormedIn(ds[i], formats[i])
  {
    seq(|ds|, i requires 0 <= i < |ds| => SectionFor(ds[i], formats[i], human))
  }

  /** For every list of devices, each well-formed for the format chosen for it, parsing the
      printed text gives back the same devices in the same order with every attribute. */
  lemma MixedDevicesRoundTrip(ds: seq<Dev>, formats: seq<bool>, human: nat -> string)
    requires |formats| == |ds| && PlainHuman(human)
    requires forall i :: 0 <= i < |ds| ==> WellFormedIn(ds[i], formats[i])
    ensures Parse(PrintSections(SectionsFor(ds, formats, human)))
         == Parser(ds, if ds == [] then None else Some(formats[|ds| - 1]))
  {
    hide WellFormedIn, SectionFor, Printable, DeviceFor, Parse, PrintSections;
    var ss := SectionsFor(ds, formats, human);
    forall i | 0 <= i < |ss|
      ensures Printable(ss[i]) && DeviceFor(ss[i]) == ds[i] && ss[i].InOldFormat? == formats[i]
    {
      SectionDescribes(ds[i], formats[i], human);
    }
    MixedRoundTrip(ss);
    assert DevicesFor(ss) == ds;
  }
}
