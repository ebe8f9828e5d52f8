/** The round trip on the parser's own device objects: a well-formed device is printed from
    its attributes, and parsing gives back exactly those attributes. */
module IfconfigDevices {
  import opened Wrappers
  import opened Scanner
  import opened IfconfigPatterns
  import opened IfconfigMixed
  import opened IfconfigParser
  import opened IfconfigPrinter
  import opened IfconfigRoundTrip
  import opened IfconfigText

  /** The line of the output that carries an attribute. */
  datatype Group =
    | HeaderGroup | Ipv4Group | Ipv6Group | HardwareGroup | ReceivedGroup | ReceiveErrorsGroup
    | SentGroup | SendErrorsGroup | ResourcesGroup | OldFormatOnly

  function GroupOf(a: Attr): Group {
    match a
    case OfHeader(_) => HeaderGroup
    case OfIpv4(_) => Ipv4Group
    case OfIpv6(_) => Ipv6Group
    case OfHardware(_) => HardwareGroup
    case OfReceived(_) => ReceivedGroup
    case OfReceiveErrors(_) => ReceiveErrorsGroup
    case OfSent(_) => SentGroup
    case OfSendErrors(_) => SendErrorsGroup
    case OfResources(_) => ResourcesGroup
    case OfOldOnly(_) => OldFormatOnly
  }

  function Keys(g: Group): set<Attr> {
    match g
    case HeaderGroup => {FLAGS_INT, FLAGS_STR, MTU, OUTFILL, KEEPALIVE}
    case Ipv4Group => {INET, NETMASK, BROADCAST, DESTINATION}
    case Ipv6Group => {INET6, PREFIX_LEN, SCOPE_ID}
    case HardwareGroup => {HW_NAME, HW_ADDR, TX_QUEUE_LEN, HW_TITLE}
    case ReceivedGroup => {RX_PACKETS, RX_BYTES}
    case ReceiveErrorsGroup => {RX_ERRORS, RX_DROPPED, RX_OVERRUNS, RX_FRAME}
    case SentGroup => {TX_PACKETS, TX_BYTES}
    case SendErrorsGroup => {TX_ERRORS, TX_DROPPED, TX_OVERRUNS, TX_CARRIER, TX_COLLISIONS}
    case ResourcesGroup => {INTERRUPT, BASE_ADDR, MEM_START, MEM_END, DMA}
    case OldFormatOnly => {METRIC, RX_COMPRESSED, TX_COMPRESSED}
  }

  lemma GroupHasKey(a: Attr)
    ensures a in Keys(GroupOf(a))
  {
    match a
    case OfHeader(x) =>
      match x { case AFlagsInt => case AFlagsStr => case AMtu => case AOutfill => case AKeepalive => }
    case OfIpv4(x) => match x { case AInet => case ANetmask => case ABroadcast => case ADestination => }
    case OfIpv6(x) => match x { case AInet6 => case APrefixLen => case AScopeId => }
    case OfHardware(x) => match x { case AHwName => case AHwAddr => case ATxQueueLen => case AHwTitle => }
    case OfReceived(x) => match x { case ARxPackets => case ARxBytes => }
    case OfReceiveErrors(x) => match x { case ARxErrors => case ARxDropped => case ARxOverruns => case ARxFrame => }
    case OfSent(x) => match x { case ATxPackets => case ATxBytes => }
    case OfSendErrors(x) =>
      match x { case ATxErrors => case ATxDropped => case ATxOverruns => case ATxCarrier => case ATxCollisions => }
    case OfResources(x) =>
      match x { case AInterrupt => case ABaseAddr => case AMemStart => case AMemEnd => case ADma => }
    case OfOldOnly(x) => match x { case AMetric => case ARxCompressed => case ATxCompressed => }
  }

  lemma KeyIsInGroup(g: Group, a: Attr)
    requires a in Keys(g)
    ensures GroupOf(a) == g
  {
  }

  lemma KeysOfGroup(g: Group, a: Attr)
    ensures a in Keys(g) <==> GroupOf(a) == g
  {
    hide GroupOf, Keys;
    if a in Keys(g) { KeyIsInGroup(g, a); }
    GroupHasKey(a);
  }

  function GroupOfLine(l: Line): Group {
    match l
    case Ipv4(_, _, _, _) => Ipv4Group
    case Ipv6(_, _, _) => Ipv6Group
    case Hardware(_, _, _, _) => HardwareGroup
    case Received(_, _, _) => ReceivedGroup
    case ReceiveErrors(_, _, _, _) => ReceiveErrorsGroup
    case Sent(_, _, _) => SentGroup
    case SendErrors(_, _, _, _, _) => SendErrorsGroup
    case Resources(_, _, _, _) => ResourcesGroup
  }

  lemma AddressMeaning(l: Line)
    requires l.Ipv4? || l.Ipv6? || l.Hardware?
    ensures forall a :: a in Meaning(l) ==> GroupOf(a) == GroupOfLine(l)
  {
  }

  /** A line assigns attributes of its own group only. */
  lemma MeaningInGroup(l: Line)
    ensures forall a :: a in Meaning(l) ==> GroupOf(a) == GroupOfLine(l)
  {
    if l.Resources? {
      ResourcesOnly(l.interrupt, l.base, l.memory, l.dma);
      hide ResourceAttrs;
    } else if l.Ipv4? || l.Ipv6? || l.Hardware? {
      AddressMeaning(l);
      hide Meaning;
    }
  }

  // -------------------------------------------------------------------------- reordering

  lemma SamePrinted(lines: seq<Line>, lines': seq<Line>)
    requires multiset(lines) == multiset(lines')
    ensures forall text :: text in PrintLines(lines) <==> text in PrintLines(lines')
  {
    hide PrintLine;
    forall l ensures l in lines <==> l in lines' {
      assert l in lines <==> l in multiset(lines);
      assert l in lines' <==> l in multiset(lines');
    }
    PrintedFrom(lines, lines');
    PrintedFrom(lines', lines);
  }

  lemma PrintedFrom(lines: seq<Line>, lines': seq<Line>)
    requires forall l :: l in lines ==> l in lines'
    ensures forall text :: text in PrintLines(lines) ==> text in PrintLines(lines')
  {
    hide PrintLine;
    forall text | text in PrintLines(lines) ensures text in PrintLines(lines') {
      var i :| 0 <= i < |lines| && PrintLines(lines)[i] == text;
      assert lines[i] in lines';
      var j :| 0 <= j < |lines'| && lines'[j] == lines[i];
      assert PrintLines(lines')[j] == text;
    }
  }

  lemma NewWrites(l: Line, a: Attr)
    requires Valid(l) && Writes(false, PrintLine(l), a)
    ensures GroupOf(a) == GroupOfLine(l)
  {
    DispatchesToItsKind(l);
    MeaningInGroup(l);
    hide NewUpdate, OldUpdate, Meaning, GroupOf, GroupOfLine, PrintLine, Valid;
  }

  /** Lines of pairwise distinct kinds may be printed in any order: the device is the same. */
  lemma ReorderingIsHarmless(h: Header, lines: seq<Line>, lines': seq<Line>)
    requires ValidUnit(Unit(h, lines)) && ValidUnit(Unit(h, lines'))
    requires forall i, j :: 0 <= i < j < |lines| ==> GroupOfLine(lines[i]) != GroupOfLine(lines[j])
    requires multiset(lines) == multiset(lines')
    ensures Described(Unit(h, lines)) == Described(Unit(h, lines'))
    ensures ParseBlock(Block(PrintHeader(h), PrintLines(lines)))
         == ParseBlock(Block(PrintHeader(h), PrintLines(lines')))
  {
    hide NewUpdate, PrintLine, Meaning, Valid, PrintHeader, Open, Merged, Writes, GroupOf, GroupOfLine;
    var attrs := UNSET + HeaderMeaning(h);
    forall i, j, a: Attr | 0 <= i < j < |lines|
      ensures !(Writes(false, PrintLines(lines)[i], a) && Writes(false, PrintLines(lines)[j], a))
    {
      if Writes(false, PrintLine(lines[i]), a) && Writes(false, PrintLine(lines[j]), a) {
        NewWrites(lines[i], a);
        NewWrites(lines[j], a);
      }
    }
    SamePrinted(lines, lines');
    OrderIsImmaterial(false, attrs, PrintLines(lines), PrintLines(lines'));
    LinesStep(attrs, lines);
    LinesStep(attrs, lines');
    HeaderStep(h);
  }

  // ------------------------------------------------------------------- well-formed devices

  function NumOf(v: Val): nat { match v case Num(n) => n case _ => 0 }

  function StrOf(v: Val): string { match v case Str(s) => s case _ => "" }

  function MaybeNum(v: Val): Option<nat> {
    match v case Num(n) => Some(n) case _ => None
  }

  function MaybeStr(v: Val): Option<string> {
    match v case Str(s) => Some(s) case _ => None
  }

  type FullAttrs = m: map<Attr, Val> | forall a: Attr :: a in m ghost witness (UnsetIsTotal(); UNSET)

  ghost predicate Unset(m: FullAttrs, g: Group) {
    forall a: Attr :: a in Keys(g) ==> m[a] == Nothing
  }

  /** Every number attribute of the group holds a number. */
  ghost predicate Numbers(m: FullAttrs, g: Group) {
    forall a: Attr :: a in Keys(g) ==> m[a].Num?
  }

  predicate OptionalNum(v: Val) { v == Nothing || v.Num? }

  /** The attributes of a device as the new format can show them: each line's attributes
      are there together or not at all, up to the optional ones among them. */
  ghost predicate WellFormedAttrs(m: FullAttrs) {
    && WellFormedHeader(m)
    && (Unset(m, Ipv4Group) || WellFormedIpv4(m))
    && (Unset(m, Ipv6Group) || WellFormedIpv6(m))
    && (Unset(m, HardwareGroup) || WellFormedHardware(m))
    && (Unset(m, ReceivedGroup) || Numbers(m, ReceivedGroup))
    && (Unset(m, ReceiveErrorsGroup) || Numbers(m, ReceiveErrorsGroup))
    && (Unset(m, SentGroup) || Numbers(m, SentGroup))
    && (Unset(m, SendErrorsGroup) || Numbers(m, SendErrorsGroup))
    && WellFormedResources(m)
    && Unset(m, OldFormatOnly)
  }

  predicate WellFormedHeader(m: FullAttrs) {
    && m[FLAGS_INT].Num? && m[FLAGS_STR].Str? && Clean(m[FLAGS_STR].s) && m[MTU].Num?
    && OptionalNum(m[OUTFILL]) && (m[OUTFILL].Num? <==> m[KEEPALIVE].Num?)
    && OptionalNum(m[KEEPALIVE])
  }

  ghost predicate WellFormedIpv4(m: FullAttrs) {
    && m[INET].Str? && IsIp4(m[INET].s) && m[NETMASK].Str? && IsIp4(m[NETMASK].s)
    && (m[BROADCAST] == Nothing || (m[BROADCAST].Str? && IsIp4(m[BROADCAST].s)))
    && (m[DESTINATION] == Nothing || (m[DESTINATION].Str? && Token(m[DESTINATION].s)))
  }

  ghost predicate WellFormedIpv6(m: FullAttrs) {
    && m[INET6].Str? && Token(m[INET6].s) && m[PREFIX_LEN].Num?
    && m[SCOPE_ID].Str? && Token(m[SCOPE_ID].s)
  }

  ghost predicate WellFormedHardware(m: FullAttrs) {
    && m[HW_NAME].Str? && Token(m[HW_NAME].s) && m[TX_QUEUE_LEN].Num?
    && (m[HW_ADDR] == Nothing || (m[HW_ADDR].Str? && Token(m[HW_ADDR].s)))
    && m[HW_TITLE].Str? && Clean(m[HW_TITLE].s)
  }

  predicate WellFormedResources(m: FullAttrs) {
    && OptionalNum(m[INTERRUPT]) && OptionalNum(m[BASE_ADDR]) && OptionalNum(m[DMA])
    && OptionalNum(m[MEM_START]) && OptionalNum(m[MEM_END])
    && (m[MEM_START].Num? <==> m[MEM_END].Num?)
  }

  // ------------------------------------------------------------------ printing a device

  /** The line that shows a group of attributes; `human` rounds byte counts for display. */
  function LineFor(m: FullAttrs, g: Group, human: nat -> string): seq<Line> {
    match g
    case Ipv4Group =>
      if m[INET] == Nothing then []
      else [Ipv4(StrOf(m[INET]), StrOf(m[NETMASK]), MaybeStr(m[BROADCAST]), MaybeStr(m[DESTINATION]))]
    case Ipv6Group =>
      if m[INET6] == Nothing then []
      else [Ipv6(StrOf(m[INET6]), NumOf(m[PREFIX_LEN]), StrOf(m[SCOPE_ID]))]
    case HardwareGroup =>
      if m[HW_NAME] == Nothing then []
      else [Hardware(StrOf(m[HW_NAME]), MaybeStr(m[HW_ADDR]), NumOf(m[TX_QUEUE_LEN]), StrOf(m[HW_TITLE]))]
    case ReceivedGroup =>
      if m[RX_PACKETS] == Nothing then []
      else [Received(NumOf(m[RX_PACKETS]), NumOf(m[RX_BYTES]), human(NumOf(m[RX_BYTES])))]
    case ReceiveErrorsGroup =>
      if m[RX_ERRORS] == Nothing then []
      else [ReceiveErrors(NumOf(m[RX_ERRORS]), NumOf(m[RX_DROPPED]), NumOf(m[RX_OVERRUNS]),
                          NumOf(m[RX_FRAME]))]
    case SentGroup =>
      if m[TX_PACKETS] == Nothing then []
      else [Sent(NumOf(m[TX_PACKETS]), NumOf(m[TX_BYTES]), human(NumOf(m[TX_BYTES])))]
    case SendErrorsGroup =>
      if m[TX_ERRORS] == Nothing then []
      else [SendErrors(NumOf(m[TX_ERRORS]), NumOf(m[TX_DROPPED]), NumOf(m[TX_OVERRUNS]),
                       NumOf(m[TX_CARRIER]), NumOf(m[TX_COLLISIONS]))]
    case ResourcesGroup =>
      if m[INTERRUPT] == m[BASE_ADDR] == m[MEM_START] == m[DMA] == Nothing then []
      else [Resources(MaybeNum(m[INTERRUPT]), MaybeNum(m[BASE_ADDR]),
                      if m[MEM_START].Num? then Some((NumOf(m[MEM_START]), NumOf(m[MEM_END]))) else None,
                      MaybeNum(m[DMA]))]
    case _ => []
  }

  const BODY_GROUPS := [
    Ipv4Group, Ipv6Group, HardwareGroup, ReceivedGroup, ReceiveErrorsGroup, SentGroup,
    SendErrorsGroup, ResourcesGroup
  ]

  function LinesFor(m: FullAttrs, groups: seq<Group>, human: nat -> string): seq<Line> {
    if groups == [] then []
    else LinesFor(m, groups[..|groups| - 1], human) + LineFor(m, groups[|groups| - 1], human)
  }

  function HeaderFor(name: string, m: FullAttrs): Header {
    Header(name, NumOf(m[FLAGS_INT]), StrOf(m[FLAGS_STR]), NumOf(m[MTU]),
           if m[OUTFILL].Num? then Some((NumOf(m[OUTFILL]), NumOf(m[KEEPALIVE]))) else None)
  }

  ghost predicate WellFormed(d: Dev) {
    && d.name != "" && All(Word, d.name)
    && (forall a: Attr :: a in d.attrs)
    && WellFormedAttrs(d.attrs)
  }

  ghost function UnitFor(d: Dev, human: nat -> string): Unit
    requires WellFormed(d)
  {
    Unit(HeaderFor(d.name, d.attrs), LinesFor(d.attrs, BODY_GROUPS, human))
  }

  // ---------------------------------------------------------------- and reading it back

  /** The line states exactly the attributes of its group. */
  ghost predicate Shows(l: Line, m: FullAttrs, g: Group) {
    && Valid(l) && CleanLine(l) && GroupOfLine(l) == g
    && forall a: Attr :: a in Keys(g) ==>
         (if a in Meaning(l) then Meaning(l)[a] else Nothing) == m[a]
  }

  ghost predicate Shown(m: FullAttrs, g: Group, human: nat -> string) {
    var ls := LineFor(m, g, human);
    if ls == [] then Unset(m, g) else |ls| == 1 && Shows(ls[0], m, g)
  }

  lemma Ipv4Shown(m: FullAttrs, human: nat -> string)
    requires Unset(m, Ipv4Group) || WellFormedIpv4(m)
    ensures Shown(m, Ipv4Group, human)
  {
    hide All, IsIp4;
  }

  lemma Ipv6Shown(m: FullAttrs, human: nat -> string)
    requires Unset(m, Ipv6Group) || WellFormedIpv6(m)
    ensures Shown(m, Ipv6Group, human)
  {
    hide All;
  }

  lemma HardwareShown(m: FullAttrs, human: nat -> string)
    requires Unset(m, HardwareGroup) || WellFormedHardware(m)
    ensures Shown(m, HardwareGroup, human)
  {
    hide Clean, All;
  }

  lemma PacketsShown(m: FullAttrs, g: Group, human: nat -> string)
    requires g == ReceivedGroup || g == SentGroup
    requires (Unset(m, g) || Numbers(m, g)) && forall n: nat :: Clean(human(n))
    ensures Shown(m, g, human)
  {
    hide Clean;
  }

  lemma ErrorsShown(m: FullAttrs, g: Group, human: nat -> string)
    requires g == ReceiveErrorsGroup || g == SendErrorsGroup
    requires Unset(m, g) || Numbers(m, g)
    ensures Shown(m, g, human)
  {
  }

  lemma ResourceAttrsAre(interrupt: Option<nat>, base: Option<nat>, memory: Option<(nat, nat)>,
                         dma: Option<nat>)
    ensures var m := ResourceAttrs(interrupt, base, memory, dma);
            && (if interrupt.Some? then INTERRUPT in m && m[INTERRUPT] == Num(interrupt.value)
                else INTERRUPT !in m)
            && (if base.Some? then BASE_ADDR in m && m[BASE_ADDR] == Num(base.value)
                else BASE_ADDR !in m)
            && (if memory.Some? then MEM_START in m && m[MEM_START] == Num(memory.value.0)
                else MEM_START !in m)
            && (if memory.Some? then MEM_END in m && m[MEM_END] == Num(memory.value.1)
                else MEM_END !in m)
            && (if dma.Some? then DMA in m && m[DMA] == Num(dma.value) else DMA !in m)
  {
  }

  lemma ResourcesShown(m: FullAttrs, human: nat -> string)
    requires WellFormedResources(m)
    ensures Shown(m, ResourcesGroup, human)
  {
    hide ResourceAttrs;
    var ls := LineFor(m, ResourcesGroup, human);
    if ls != [] {
      var l := ls[0];
      ResourceAttrsAre(l.interrupt, l.base, l.memory, l.dma);
    }
  }

  lemma BodyShown(m: FullAttrs, i: nat, human: nat -> string)
    requires WellFormedAttrs(m) && i < |BODY_GROUPS| && forall n: nat :: Clean(human(n))
    ensures Shown(m, BODY_GROUPS[i], human)
  {
    hide Shown, WellFormedIpv4, WellFormedIpv6, WellFormedHardware, WellFormedResources, Unset, Numbers;
    Ipv4Shown(m, human);
    Ipv6Shown(m, human);
    HardwareShown(m, human);
    PacketsShown(m, ReceivedGroup, human);
    ErrorsShown(m, ReceiveErrorsGroup, human);
    PacketsShown(m, SentGroup, human);
    ErrorsShown(m, SendErrorsGroup, human);
    ResourcesShown(m, human);
  }

  /** What has been read once the lines of some groups have been: those groups as they were,
      the header's attributes, and nothing else. */
  ghost predicate ReadBack(attrs: Attrs, m: FullAttrs, groups: seq<Group>) {
    && (forall a: Attr :: a in attrs)
    && (forall a: Attr :: attrs[a] ==
          if GroupOf(a) == HeaderGroup || GroupOf(a) in groups then m[a] else Nothing)
  }

  lemma HeaderShown(name: string, m: FullAttrs)
    requires WellFormedHeader(m)
    ensures var meaning := HeaderMeaning(HeaderFor(name, m));
            && meaning.Keys <= Keys(HeaderGroup)
            && forall a: Attr :: a in Keys(HeaderGroup) ==>
                 (if a in meaning then meaning[a] else Nothing) == m[a]
  {
  }

  lemma HeaderReadBack(name: string, m: FullAttrs)
    requires WellFormedHeader(m)
    ensures ReadBack(UNSET + HeaderMeaning(HeaderFor(name, m)), m, [])
  {
    UnsetIsTotal();
    HeaderShown(name, m);
    HeaderMerged(UNSET, HeaderMeaning(HeaderFor(name, m)), m);
  }

  lemma HeaderMerged(base: Attrs, meaning: Attrs, m: FullAttrs)
    requires forall a: Attr :: a in base && base[a] == Nothing
    requires meaning.Keys <= Keys(HeaderGroup)
    requires forall a: Attr :: a in Keys(HeaderGroup) ==>
      (if a in meaning then meaning[a] else Nothing) == m[a]
    ensures ReadBack(base + meaning, m, [])
  {
    hide GroupOf, Keys;
    forall a: Attr
      ensures (base + meaning)[a] == if GroupOf(a) == HeaderGroup then m[a] else Nothing
    {
      KeysOfGroup(HeaderGroup, a);
    }
  }

  lemma OneMoreLine(attrs: Attrs, m: FullAttrs, groups: seq<Group>, g: Group, human: nat -> string)
    requires ReadBack(attrs, m, groups) && Shown(m, g, human)
    requires g != HeaderGroup && g !in groups
    ensures var ls := LineFor(m, g, human);
            ReadBack(attrs + if ls == [] then map[] else Meaning(ls[0]), m, groups + [g])
  {
    hide LineFor, Meaning, Keys, GroupOf, Valid, CleanLine, GroupOfLine;
    var ls := LineFor(m, g, human);
    var after := attrs + if ls == [] then map[] else Meaning(ls[0]);
    if ls != [] { MeaningInGroup(ls[0]); }
    forall a: Attr
      ensures a in after
      ensures after[a] ==
        if GroupOf(a) == HeaderGroup || GroupOf(a) in groups + [g] then m[a] else Nothing
    {
      KeysOfGroup(g, a);
    }
  }

  lemma MergedAppend(attrs: Attrs, lines: seq<Line>, ls: seq<Line>)
    requires |ls| <= 1
    ensures Merged(attrs, lines + ls)
         == Merged(attrs, lines) + if ls == [] then map[] else Meaning(ls[0])
  {
    hide Meaning;
    if ls == [] {
      assert lines + ls == lines;
      assert Merged(attrs, lines) + map[] == Merged(attrs, lines);
    } else {
      assert (lines + ls)[..|lines|] == lines;
    }
  }

  lemma ShownLength(m: FullAttrs, g: Group, human: nat -> string)
    requires Shown(m, g, human)
    ensures |LineFor(m, g, human)| <= 1
    ensures forall l :: l in LineFor(m, g, human) ==> Valid(l) && CleanLine(l)
  {
    hide LineFor, Meaning, Keys, Unset;
  }

  lemma {:induction false} LinesReadBack(attrs: Attrs, m: FullAttrs, groups: seq<Group>,
                                         human: nat -> string)
    requires ReadBack(attrs, m, [])
    requires forall i :: 0 <= i < |groups| ==> Shown(m, groups[i], human) && groups[i] != HeaderGroup
    requires forall i, j :: 0 <= i < j < |groups| ==> groups[i] != groups[j]
    ensures ReadBack(Merged(attrs, LinesFor(m, groups, human)), m, groups)
  {
    hide LineFor, ReadBack, Meaning, Shown, Merged;
    if groups == [] {
      NothingMerged(attrs);
    } else {
      var n := |groups| - 1;
      var before, ls := LinesFor(m, groups[..n], human), LineFor(m, groups[n], human);
      LinesReadBack(attrs, m, groups[..n], human);
      ShownLength(m, groups[n], human);
      MergedAppend(attrs, before, ls);
      OneMoreLine(Merged(attrs, before), m, groups[..n], groups[n], human);
      assert groups == groups[..n] + [groups[n]];
    }
  }

  lemma NothingMerged(attrs: Attrs)
    ensures Merged(attrs, []) == attrs
  {
  }

  lemma {:induction false} LinesAreValid(m: FullAttrs, groups: seq<Group>, human: nat -> string)
    requires forall i :: 0 <= i < |groups| ==> Shown(m, groups[i], human)
    ensures forall l :: l in LinesFor(m, groups, human) ==> Valid(l) && CleanLine(l)
  {
    hide LineFor, Shown, Valid, CleanLine;
    if groups != [] {
      var n := |groups| - 1;
      LinesAreValid(m, groups[..n], human);
      ShownLength(m, groups[n], human);
    }
  }

  lemma LinesDescribe(name: string, m: FullAttrs, human: nat -> string)
    requires WellFormedAttrs(m) && forall n: nat :: Clean(human(n))
    ensures var h, ls := HeaderFor(name, m), LinesFor(m, BODY_GROUPS, human);
            && Merged(UNSET + HeaderMeaning(h), ls) == m
            && forall l :: l in ls ==> Valid(l) && CleanLine(l)
  {
    assert WellFormedHeader(m) && Unset(m, OldFormatOnly);
    hide *;
    var start := UNSET + HeaderMeaning(HeaderFor(name, m));
    HeaderReadBack(name, m);
    forall i | 0 <= i < |BODY_GROUPS| ensures Shown(m, BODY_GROUPS[i], human) {
      BodyShown(m, i, human);
    }
    GroupsDiffer();
    LinesAreValid(m, BODY_GROUPS, human);
    LinesReadBack(start, m, BODY_GROUPS, human);
    AllRead(Merged(start, LinesFor(m, BODY_GROUPS, human)), m);
  }

  lemma GroupsDiffer()
    ensures forall i :: 0 <= i < |BODY_GROUPS| ==> BODY_GROUPS[i] != HeaderGroup
    ensures forall i, j :: 0 <= i < j < |BODY_GROUPS| ==> BODY_GROUPS[i] != BODY_GROUPS[j]
  {
  }

  lemma UnitDescribes(d: Dev, human: nat -> string)
    requires WellFormed(d) && forall n: nat :: Clean(human(n))
    ensures PrintableUnit(UnitFor(d, human)) && Described(UnitFor(d, human)) == d
  {
    var h, ls := HeaderFor(d.name, d.attrs), LinesFor(d.attrs, BODY_GROUPS, human);
    LinesDescribe(d.name, d.attrs, human);
    HeaderFlags(d.name, d.attrs);
    assert UnitFor(d, human) == Unit(h, ls);
    hide *;
    MakesUnit(h, ls, d);
  }

  lemma MakesUnit(h: Header, ls: seq<Line>, d: Dev)
    requires h.name == d.name && d.name != "" && All(Word, d.name) && Clean(h.flagsstr)
    requires Merged(UNSET + HeaderMeaning(h), ls) == d.attrs
    requires forall l :: l in ls ==> Valid(l) && CleanLine(l)
    ensures PrintableUnit(Unit(h, ls)) && Described(Unit(h, ls)) == d
  {
    hide Merged, Valid, CleanLine, Clean, HeaderMeaning, All;
  }

  lemma HeaderFlags(name: string, m: FullAttrs)
    requires WellFormedAttrs(m)
    ensures HeaderFor(name, m).name == name && Clean(HeaderFor(name, m).flagsstr)
  {
  }

  lemma AllRead(attrs: Attrs, m: FullAttrs)
    requires ReadBack(attrs, m, BODY_GROUPS) && Unset(m, OldFormatOnly)
    ensures attrs == m
  {
    hide GroupOf, Keys;
    forall a: Attr ensures attrs[a] == m[a] {
      KeysOfGroup(OldFormatOnly, a);
      AnyGroup(GroupOf(a));
    }
  }

  lemma AnyGroup(g: Group)
    ensures g in BODY_GROUPS || g == HeaderGroup || g == OldFormatOnly
  {
    assert BODY_GROUPS[0] == Ipv4Group && BODY_GROUPS[1] == Ipv6Group
        && BODY_GROUPS[2] == HardwareGroup && BODY_GROUPS[3] == ReceivedGroup
        && BODY_GROUPS[4] == ReceiveErrorsGroup && BODY_GROUPS[5] == SentGroup
        && BODY_GROUPS[6] == SendErrorsGroup && BODY_GROUPS[7] == ResourcesGroup;
  }

  /** For every list of well-formed devices, parsing what ifconfig prints for them gives
      back the same devices in the same order with every attribute. */
  lemma DevicesRoundTrip(ds: seq<Dev>, human: nat -> string)
    requires forall i :: 0 <= i < |ds| ==> WellFormed(ds[i])
    requires forall n: nat :: Clean(human(n))
    ensures var us := seq(|ds|, i requires 0 <= i < |ds| => UnitFor(ds[i], human));
            Parse(PrintSections(InNew(us))) == Parser(ds, if ds == [] then None else Some(false))
  {
    hide WellFormed, UnitFor, Described, Parse, PrintSections, PrintableUnit;
    var us := seq(|ds|, i requires 0 <= i < |ds| => UnitFor(ds[i], human));
    forall i | 0 <= i < |us| ensures PrintableUnit(us[i]) && Described(us[i]) == ds[i] {
      UnitDescribes(ds[i], human);
    }
    RoundTrip(us);
    assert DescribedAll(us) == ds;
  }
}
