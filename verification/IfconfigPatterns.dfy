/** The line patterns of tests/parse_ifconfig.py, in both ifconfig formats, and the device
    attributes that a matching line assigns. */
module IfconfigPatterns {
  import opened Wrappers
  import opened Numerals
  import opened Scanner

  // The attributes Device.__init__ sets to None, by the line of the new format that carries
  // them; the last few occur in the old format only.
  datatype HeaderAttr = AFlagsInt | AFlagsStr | AMtu | AOutfill | AKeepalive
  datatype Ipv4Attr = AInet | ANetmask | ABroadcast | ADestination
  datatype Ipv6Attr = AInet6 | APrefixLen | AScopeId
  datatype HardwareAttr = AHwName | AHwAddr | ATxQueueLen | AHwTitle
  datatype ReceivedAttr = ARxPackets | ARxBytes
  datatype ReceiveErrorsAttr = ARxErrors | ARxDropped | ARxOverruns | ARxFrame
  datatype SentAttr = ATxPackets | ATxBytes
  datatype SendErrorsAttr = ATxErrors | ATxDropped | ATxOverruns | ATxCarrier | ATxCollisions
  datatype ResourceAttr = AInterrupt | ABaseAddr | AMemStart | AMemEnd | ADma
  datatype OldOnlyAttr = AMetric | ARxCompressed | ATxCompressed

  datatype Attr =
    | OfHeader(header: HeaderAttr)
    | OfIpv4(ipv4: Ipv4Attr)
    | OfIpv6(ipv6: Ipv6Attr)
    | OfHardware(hardware: HardwareAttr)
    | OfReceived(received: ReceivedAttr)
    | OfReceiveErrors(receiveErrors: ReceiveErrorsAttr)
    | OfSent(sent: SentAttr)
    | OfSendErrors(sendErrors: SendErrorsAttr)
    | OfResources(resources: ResourceAttr)
    | OfOldOnly(oldOnly: OldOnlyAttr)

  const FLAGS_INT := OfHeader(AFlagsInt)
  const FLAGS_STR := OfHeader(AFlagsStr)
  const MTU := OfHeader(AMtu)
  const OUTFILL := OfHeader(AOutfill)
  const KEEPALIVE := OfHeader(AKeepalive)
  const INET := OfIpv4(AInet)
  const NETMASK := OfIpv4(ANetmask)
  const BROADCAST := OfIpv4(ABroadcast)
  const DESTINATION := OfIpv4(ADestination)
  const INET6 := OfIpv6(AInet6)
  const PREFIX_LEN := OfIpv6(APrefixLen)
  const SCOPE_ID := OfIpv6(AScopeId)
  const HW_NAME := OfHardware(AHwName)
  const HW_ADDR := OfHardware(AHwAddr)
  const TX_QUEUE_LEN := OfHardware(ATxQueueLen)
  const HW_TITLE := OfHardware(AHwTitle)
  const RX_PACKETS := OfReceived(ARxPackets)
  const RX_BYTES := OfReceived(ARxBytes)
  const RX_ERRORS := OfReceiveErrors(ARxErrors)
  const RX_DROPPED := OfReceiveErrors(ARxDropped)
  const RX_OVERRUNS := OfReceiveErrors(ARxOverruns)
  const RX_FRAME := OfReceiveErrors(ARxFrame)
  const TX_PACKETS := OfSent(ATxPackets)
  const TX_BYTES := OfSent(ATxBytes)
  const TX_ERRORS := OfSendErrors(ATxErrors)
  const TX_DROPPED := OfSendErrors(ATxDropped)
  const TX_OVERRUNS := OfSendErrors(ATxOverruns)
  const TX_CARRIER := OfSendErrors(ATxCarrier)
  const TX_COLLISIONS := OfSendErrors(ATxCollisions)
  const INTERRUPT := OfResources(AInterrupt)
  const BASE_ADDR := OfResources(ABaseAddr)
  const MEM_START := OfResources(AMemStart)
  const MEM_END := OfResources(AMemEnd)
  const DMA := OfResources(ADma)
  const METRIC := OfOldOnly(AMetric)
  const RX_COMPRESSED := OfOldOnly(ARxCompressed)
  const TX_COMPRESSED := OfOldOnly(ATxCompressed)

  datatype Val = Nothing | Num(n: nat) | Str(s: string)

  type Attrs = map<Attr, Val>

  const ALL_ATTRS: set<Attr> :=
    (set x: HeaderAttr | true :: OfHeader(x))
    + (set x: Ipv4Attr | true :: OfIpv4(x))
    + (set x: Ipv6Attr | true :: OfIpv6(x))
    + (set x: HardwareAttr | true :: OfHardware(x))
    + (set x: ReceivedAttr | true :: OfReceived(x))
    + (set x: ReceiveErrorsAttr | true :: OfReceiveErrors(x))
    + (set x: SentAttr | true :: OfSent(x))
    + (set x: SendErrorsAttr | true :: OfSendErrors(x))
    + (set x: ResourceAttr | true :: OfResources(x))
    + (set x: OldOnlyAttr | true :: OfOldOnly(x))

  const UNSET: Attrs := map a | a in ALL_ATTRS :: Nothing

  lemma UnsetIsTotal()
    ensures forall a: Attr :: a in UNSET && UNSET[a] == Nothing
  {
    forall a: Attr ensures a in ALL_ATTRS {
      match a
      case OfHeader(_) => assert a in (set x: HeaderAttr | true :: OfHeader(x));
      case OfIpv4(_) => assert a in (set x: Ipv4Attr | true :: OfIpv4(x));
      case OfIpv6(_) => assert a in (set x: Ipv6Attr | true :: OfIpv6(x));
      case OfHardware(_) => assert a in (set x: HardwareAttr | true :: OfHardware(x));
      case OfReceived(_) => assert a in (set x: ReceivedAttr | true :: OfReceived(x));
      case OfReceiveErrors(_) => assert a in (set x: ReceiveErrorsAttr | true :: OfReceiveErrors(x));
      case OfSent(_) => assert a in (set x: SentAttr | true :: OfSent(x));
      case OfSendErrors(_) => assert a in (set x: SendErrorsAttr | true :: OfSendErrors(x));
      case OfResources(_) => assert a in (set x: ResourceAttr | true :: OfResources(x));
      case OfOldOnly(_) => assert a in (set x: OldOnlyAttr | true :: OfOldOnly(x));
    }
  }

  /** Assign `a` if there is a value for it. */
  function Maybe(a: Attr, v: Option<Val>): Attrs {
    if v.Some? then map[a := v.value] else map[]
  }

  // ------------------------------------------------------------------------ header lines

  /** (\w+): (.+) */
  function MatchNewHeader(line: string): Option<(string, string)> {
    var (name, s1) :- Run(Word, line);
    var rest :- Lit(": ", s1);
    if rest == "" then None else Some((name, rest))
  }

  function NonEmpty(s: string): Option<string> {
    if s == "" then None else Some(s)
  }

  /** (\w+)\s+(.+): the white space gives its last character back if nothing follows. */
  function MatchOldHeader(line: string): Option<(string, string)> {
    var (name, s1) :- Run(Word, line);
    var (_, rest) :- Backtrack(s1, Span(Space, s1), 1, NonEmpty);
    Some((name, rest))
  }

  /** >  mtu ([0-9]+)(.*) */
  function MatchMtu(s: string): Option<(nat, string)> {
    var s1 :- Lit(">  mtu ", s);
    Dec(s1)
  }

  /** flags=([0-9]+)<(.*)>  mtu ([0-9]+)(.*) */
  function MatchFlags(text: string): Option<(nat, string, nat, string)> {
    var s1 :- Lit("flags=", text);
    var (flagsint, s2) :- Dec(s1);
    var s3 :- Lit("<", s2);
    var (flagsstr, mtu) :- Greedy(s3, MatchMtu);
    Some((flagsint, flagsstr, mtu.0, mtu.1))
  }

  /** \s+outfill\s+([0-9]+)\s+keepalive\s+([0-9]+) */
  function MatchOutfill(s: string): Option<(nat, nat)> {
    var s1 :- Ws(s);
    var s2 :- Lit("outfill", s1);
    var s3 :- Ws(s2);
    var (outfill, s4) :- Dec(s3);
    var s5 :- Ws(s4);
    var s6 :- Lit("keepalive", s5);
    var s7 :- Ws(s6);
    var (keepalive, _) :- Dec(s7);
    Some((outfill, keepalive))
  }

  /** _parse_rest_of_first_line: None is its ValueError. */
  function NewHeaderUpdate(text: string): Option<Attrs> {
    var (flagsint, flagsstr, mtu, rest) :- MatchFlags(text);
    var m := MatchOutfill(rest);
    Some(map[FLAGS_INT := Num(flagsint), FLAGS_STR := Str(flagsstr), MTU := Num(mtu)]
         + if m.Some? then map[OUTFILL := Num(m.value.0), KEEPALIVE := Num(m.value.1)] else map[])
  }

  /** (\w+ ?\w*)\s*: the group, stripped, and what follows. */
  function MatchTitle(s: string): Option<(string, string)> {
    var (first, s2) :- Run(Word, s);
    var s3 := if " " <= s2 then s2[1..] else s2;
    var second := s3[..Span(Word, s3)];
    var s4 := s3[Span(Word, s3)..];
    Some((Strip(first + (s2[..|s2| - |s3|] + second)), s4[Span(Space, s4)..]))
  }

  /** Link encap:(\w+ ?\w*)\s*(HWaddr )?(\S*): the stripped first group, and the third if
      the second took part. */
  function MatchEncap(text: string): Option<(string, Option<string>)> {
    var s1 :- Lit("Link encap:", text);
    var (title, s2) :- MatchTitle(s1);
    match Lit("HWaddr ", s2)
    case None => Some((title, None))
    case Some(s3) => Some((title, Some(s3[..Span(NonSpace, s3)])))
  }

  /** _parse_rest_of_first_line_old: None is its ValueError. */
  function OldHeaderUpdate(text: string): Option<Attrs> {
    var (hwtitle, hwaddr) :- MatchEncap(text);
    Some(map[HW_TITLE := Str(hwtitle)] + if hwaddr.Some? then map[HW_ADDR := Str(hwaddr.value)] else map[])
  }

  // --------------------------------------------------------------- lines, new format

  /** \s+inet IP\s+netmask IP(.*) */
  function MatchInet(line: string): Option<(string, string, string)> {
    var s1 :- Ws(line);
    var s2 :- Lit("inet ", s1);
    var (inet, s3) :- Ip4(s2);
    var s4 :- Ws(s3);
    var s5 :- Lit("netmask ", s4);
    var (netmask, rest) :- Ip4(s5);
    Some((inet, netmask, rest))
  }

  /** \s+broadcast IP(.*) */
  function MatchBroadcast(s: string): Option<(string, string)> {
    var s1 :- Ws(s);
    var s2 :- Lit("broadcast ", s1);
    Ip4(s2)
  }

  /** \s+destination (\S+) */
  function MatchDestination(s: string): Option<string> {
    var s1 :- Ws(s);
    var s2 :- Lit("destination ", s1);
    var (destination, _) :- Run(NonSpace, s2);
    Some(destination)
  }

  function InetUpdate(line: string): Option<Attrs> {
    var (inet, netmask, s1) :- MatchInet(line);
    var b := MatchBroadcast(s1);
    var s2 := if b.Some? then b.value.1 else s1;
    var d := MatchDestination(s2);
    Some(map[INET := Str(inet), NETMASK := Str(netmask)]
         + (if b.Some? then map[BROADCAST := Str(b.value.0)] else map[])
         + (if d.Some? then map[DESTINATION := Str(d.value)] else map[]))
  }

  /** \s+inet6 (\S+)\s+prefixlen\s+([0-9]+)\s+scopeid (\S+) */
  function MatchInet6(line: string): Option<(string, nat, string)> {
    var s1 :- Ws(line);
    var s2 :- Lit("inet6 ", s1);
    var (inet6, s3) :- Run(NonSpace, s2);
    var s4 :- Ws(s3);
    var s5 :- Lit("prefixlen", s4);
    var s6 :- Ws(s5);
    var (prefixlen, s7) :- Dec(s6);
    var s8 :- Ws(s7);
    var s9 :- Lit("scopeid ", s8);
    var (scopeid, _) :- Run(NonSpace, s9);
    Some((inet6, prefixlen, scopeid))
  }

  function CloseParen(s: string): Option<string> { Lit(")", s) }

  /** \((.*)\): up to the last closing parenthesis. */
  function Parens(s: string): Option<string> {
    var s1 :- Lit("(", s);
    var (inner, _) :- Greedy(s1, CloseParen);
    Some(inner)
  }

  /** txqueuelen\s+([0-9]+)\s+\((.*)\) */
  function MatchQueue(s: string): Option<(nat, string)> {
    var s1 :- Lit("txqueuelen", s);
    var s2 :- Ws(s1);
    var (txqueuelen, s3) :- Dec(s2);
    var s4 :- Ws(s3);
    var hwtitle :- Parens(s4);
    Some((txqueuelen, hwtitle))
  }

  /** \s+(\S+)\s+(\S+)\s+txqueuelen\s+([0-9]+)\s+\((.*)\) */
  function MatchHwWith(line: string): Option<(string, string, nat, string)> {
    var s1 :- Ws(line);
    var (hwname, s2) :- Run(NonSpace, s1);
    var s3 :- Ws(s2);
    var (hwaddr, s4) :- Run(NonSpace, s3);
    var s5 :- Ws(s4);
    var (txqueuelen, hwtitle) :- MatchQueue(s5);
    Some((hwname, hwaddr, txqueuelen, hwtitle))
  }

  /** \s+(\S+)\s+txqueuelen\s+([0-9]+)\s+\((.*)\) */
  function MatchHwWithout(line: string): Option<(string, nat, string)> {
    var s1 :- Ws(line);
    var (hwname, s2) :- Run(NonSpace, s1);
    var s3 :- Ws(s2);
    var (txqueuelen, hwtitle) :- MatchQueue(s3);
    Some((hwname, txqueuelen, hwtitle))
  }

  /** \s+<prefix>([0-9]+) */
  function Counter(prefix: string, s: string): Option<(nat, string)> {
    var s1 :- Ws(s);
    var s2 :- Lit(prefix, s1);
    Dec(s2)
  }

  /** \s+<direction> packets ([0-9]+)\s+bytes ([0-9]+)\s+\(.*\) */
  function MatchPackets(direction: string, line: string): Option<(nat, nat)> {
    var (packets, s1) :- Counter(direction + " packets ", line);
    var (bytes, s2) :- Counter("bytes ", s1);
    var s3 :- Ws(s2);
    var _ :- Parens(s3);
    Some((packets, bytes))
  }

  /** \s+RX errors ([0-9]+)\s+dropped ([0-9]+)\s+overruns ([0-9]+)\s+frame ([0-9]+) */
  function MatchRxErrors(line: string): Option<(nat, nat, nat, nat)> {
    var (errors, s1) :- Counter("RX errors ", line);
    var (dropped, s2) :- Counter("dropped ", s1);
    var (overruns, s3) :- Counter("overruns ", s2);
    var (frame, _) :- Counter("frame ", s3);
    Some((errors, dropped, overruns, frame))
  }

  /** \s+TX errors ([0-9]+)\s+dropped ([0-9]+)\s+overruns ([0-9]+)\s+carrier ([0-9]+)\s+
      collisions ([0-9]+) */
  function MatchTxErrors(line: string): Option<(nat, nat, nat, nat, nat)> {
    var (errors, s1) :- Counter("TX errors ", line);
    var (dropped, s2) :- Counter("dropped ", s1);
    var (overruns, s3) :- Counter("overruns ", s2);
    var (carrier, s4) :- Counter("carrier ", s3);
    var (collisions, _) :- Counter("collisions ", s4);
    Some((errors, dropped, overruns, carrier, collisions))
  }

  /** \s+device\s+(.*) */
  function MatchDevice(line: string): Option<string> {
    var s1 :- Ws(line);
    var s2 :- Lit("device", s1);
    Ws(s2)
  }

  /** interrupt ([0-9]+)\s+(.*) */
  function MatchInterrupt(s: string): Option<(nat, string)> {
    var s1 :- Lit("interrupt ", s);
    var (interrupt, s2) :- Dec(s1);
    var rest :- Ws(s2);
    Some((interrupt, rest))
  }

  /** base 0x([0-9a-f]+)\s+(.*) */
  function MatchBase(s: string): Option<(nat, string)> {
    var s1 :- Lit("base 0x", s);
    var (base, s2) :- Hex(s1);
    var rest :- Ws(s2);
    Some((base, rest))
  }

  /** memory 0x([0-9a-f]+)-([0-9a-f]+)\s+(.*) */
  function MatchMemory(s: string): Option<(nat, nat, string)> {
    var s1 :- Lit("memory 0x", s);
    var (start, s2) :- Hex(s1);
    var s3 :- Lit("-", s2);
    var (end, s4) :- Hex(s3);
    var rest :- Ws(s4);
    Some((start, end, rest))
  }

  /** dma 0x([0-9a-f]+) */
  function MatchDma(s: string): Option<nat> {
    var s1 :- Lit("dma 0x", s);
    var (dma, _) :- Hex(s1);
    Some(dma)
  }

  /** The attributes the optional parts of a device line assign. */
  function ResourceAttrs(interrupt: Option<nat>, base: Option<nat>, memory: Option<(nat, nat)>,
                         dma: Option<nat>): Attrs
  {
    (if interrupt.Some? then map[INTERRUPT := Num(interrupt.value)] else map[])
    + (if base.Some? then map[BASE_ADDR := Num(base.value)] else map[])
    + (if memory.Some? then map[MEM_START := Num(memory.value.0), MEM_END := Num(memory.value.1)]
       else map[])
    + (if dma.Some? then map[DMA := Num(dma.value)] else map[])
  }

  lemma ResourcesOnly(interrupt: Option<nat>, base: Option<nat>, memory: Option<(nat, nat)>,
                      dma: Option<nat>)
    ensures forall a :: a in ResourceAttrs(interrupt, base, memory, dma) ==> a.OfResources?
  {
  }

  /** The optional parts of a device line, each looked for where the one before it ended. */
  function DeviceParts(s: string): Attrs {
    var i := MatchInterrupt(s);
    var s1 := if i.Some? then i.value.1 else s;
    var b := MatchBase(s1);
    var s2 := if b.Some? then b.value.1 else s1;
    var m := MatchMemory(s2);
    var s3 := if m.Some? then m.value.2 else s2;
    var d := MatchDma(s3);
    ResourceAttrs(if i.Some? then Some(i.value.0) else None,
                  if b.Some? then Some(b.value.0) else None,
                  if m.Some? then Some((m.value.0, m.value.1)) else None,
                  d)
  }

  datatype LineKind =
    | InetLine | Inet6Line | HwWithLine | HwWithoutLine | RxPacketsLine | RxErrorsLine
    | TxPacketsLine | TxErrorsLine | DeviceLine

  /** The place of a pattern in the chain. */
  function Rank(kind: LineKind): nat {
    match kind
    case InetLine => 0
    case Inet6Line => 1
    case HwWithLine => 2
    case HwWithoutLine => 3
    case RxPacketsLine => 4
    case RxErrorsLine => 5
    case TxPacketsLine => 6
    case TxErrorsLine => 7
    case DeviceLine => 8
  }

  /** One pattern of the chain in _parse_line, and what it assigns when it matches. */
  function Pattern(kind: LineKind, line: string): Option<Attrs> {
    match kind
    case InetLine => InetUpdate(line)
    case Inet6Line =>
      var (inet6, prefixlen, scopeid) :- MatchInet6(line);
      Some(map[INET6 := Str(inet6), PREFIX_LEN := Num(prefixlen), SCOPE_ID := Str(scopeid)])
    case HwWithLine =>
      var (hwname, hwaddr, txqueuelen, hwtitle) :- MatchHwWith(line);
      Some(map[HW_NAME := Str(hwname), HW_ADDR := Str(hwaddr),
               TX_QUEUE_LEN := Num(txqueuelen), HW_TITLE := Str(hwtitle)])
    case HwWithoutLine =>
      var (hwname, txqueuelen, hwtitle) :- MatchHwWithout(line);
      Some(map[HW_NAME := Str(hwname), HW_ADDR := Nothing,
               TX_QUEUE_LEN := Num(txqueuelen), HW_TITLE := Str(hwtitle)])
    case RxPacketsLine =>
      var (packets, bytes) :- MatchPackets("RX", line);
      Some(map[RX_PACKETS := Num(packets), RX_BYTES := Num(bytes)])
    case RxErrorsLine =>
      var (errors, dropped, overruns, frame) :- MatchRxErrors(line);
      Some(map[RX_ERRORS := Num(errors), RX_DROPPED := Num(dropped),
               RX_OVERRUNS := Num(overruns), RX_FRAME := Num(frame)])
    case TxPacketsLine =>
      var (packets, bytes) :- MatchPackets("TX", line);
      Some(map[TX_PACKETS := Num(packets), TX_BYTES := Num(bytes)])
    case TxErrorsLine =>
      var (errors, dropped, overruns, carrier, collisions) :- MatchTxErrors(line);
      Some(map[TX_ERRORS := Num(errors), TX_DROPPED := Num(dropped),
               TX_OVERRUNS := Num(overruns), TX_CARRIER := Num(carrier),
               TX_COLLISIONS := Num(collisions)])
    case DeviceLine =>
      var rest :- MatchDevice(line);
      Some(DeviceParts(rest))
  }

  /** The first pattern of the chain that matches; None is the final ValueError. */
  function Dispatch(line: string): Option<LineKind> {
    if Pattern(InetLine, line).Some? then Some(InetLine)
    else if Pattern(Inet6Line, line).Some? then Some(Inet6Line)
    else if Pattern(HwWithLine, line).Some? then Some(HwWithLine)
    else if Pattern(HwWithoutLine, line).Some? then Some(HwWithoutLine)
    else if Pattern(RxPacketsLine, line).Some? then Some(RxPacketsLine)
    else if Pattern(RxErrorsLine, line).Some? then Some(RxErrorsLine)
    else if Pattern(TxPacketsLine, line).Some? then Some(TxPacketsLine)
    else if Pattern(TxErrorsLine, line).Some? then Some(TxErrorsLine)
    else if Pattern(DeviceLine, line).Some? then Some(DeviceLine)
    else None
  }

  /** What _parse_line assigns; None is its ValueError. */
  function NewUpdate(line: string): Option<Attrs> {
    if Dispatch(line).Some? then Pattern(Dispatch(line).value, line) else None
  }

  // --------------------------------------------------------------- lines, old format

  /** \s+<prefix>IP(.*) */
  function MatchLabelled(prefix: string, s: string): Option<(string, string)> {
    var s1 :- Ws(s);
    var s2 :- Lit(prefix, s1);
    Ip4(s2)
  }

  function InetOldUpdate(line: string): Option<Attrs> {
    var (inet, s1) :- MatchLabelled("inet addr:", line);
    var p := MatchLabelled("P-t-P:", s1);
    var s2 := if p.Some? then p.value.1 else s1;
    var b := MatchLabelled("Bcast:", s2);
    var s3 := if b.Some? then b.value.1 else s2;
    var m := MatchLabelled("Mask:", s3);
    Some(map[INET := Str(inet)]
         + (if p.Some? then map[DESTINATION := Str(p.value.0)] else map[])
         + (if b.Some? then map[BROADCAST := Str(b.value.0)] else map[])
         + (if m.Some? then map[NETMASK := Str(m.value.0)] else map[]))
  }

  /** /([0-9]+)\s+Scope:(\S+) */
  function MatchScope(s: string): Option<(nat, string)> {
    var s1 :- Lit("/", s);
    var (prefixlen, s2) :- Dec(s1);
    var s3 :- Ws(s2);
    var s4 :- Lit("Scope:", s3);
    var (scopeid, _) :- Run(NonSpace, s4);
    Some((prefixlen, scopeid))
  }

  /** \s+inet6 addr: (\S+)/([0-9]+)\s+Scope:(\S+) */
  function MatchInet6Old(line: string): Option<(string, nat, string)> {
    var s1 :- Ws(line);
    var s2 :- Lit("inet6 addr: ", s1);
    var (inet6, scope) :- Backtrack(s2, Span(NonSpace, s2), 1, MatchScope);
    Some((inet6, scope.0, scope.1))
  }

  /** '  MTU:'([0-9]+)\s+Metric:([0-9]+)(.*) */
  function MatchMtuOld(s: string): Option<(nat, nat, string)> {
    var s1 :- Lit("  MTU:", s);
    var (mtu, s2) :- Dec(s1);
    var (metric, rest) :- Counter("Metric:", s2);
    Some((mtu, metric, rest))
  }

  function MatchFlagsTail(s: string): Option<(string, (nat, nat, string))> {
    Greedy(s, MatchMtuOld)
  }

  /** \s+(.*)  MTU:([0-9]+)\s+Metric:([0-9]+)(.*): both repetitions may give back. */
  function MatchFlagsOld(line: string): Option<(string, nat, nat, string)> {
    var (_, tail) :- Backtrack(line, Span(Space, line), 1, MatchFlagsTail);
    Some((tail.0, tail.1.0, tail.1.1, tail.1.2))
  }

  /** \s+Outfill:([0-9]+)\s+Keepalive:([0-9]+) */
  function MatchOutfillOld(s: string): Option<(nat, nat)> {
    var (outfill, s1) :- Counter("Outfill:", s);
    var (keepalive, _) :- Counter("Keepalive:", s1);
    Some((outfill, keepalive))
  }

  function FlagsOldUpdate(line: string): Option<Attrs> {
    var (flagsstr, mtu, metric, rest) :- MatchFlagsOld(line);
    var m := MatchOutfillOld(rest);
    Some(map[FLAGS_STR := Str(flagsstr), MTU := Num(mtu), METRIC := Num(metric)]
         + if m.Some? then map[OUTFILL := Num(m.value.0), KEEPALIVE := Num(m.value.1)] else map[])
  }

  /** \s+<direction> packets:([0-9]+)\s+errors:([0-9]+)\s+dropped:([0-9]+)\s+
      overruns:([0-9]+)\s+<last>([0-9]+) */
  function MatchCounters(direction: string, last: string, line: string)
    : Option<(nat, nat, nat, nat, nat)>
  {
    var (packets, s1) :- Counter(direction + " packets:", line);
    var (errors, s2) :- Counter("errors:", s1);
    var (dropped, s3) :- Counter("dropped:", s2);
    var (overruns, s4) :- Counter("overruns:", s3);
    var (value, _) :- Counter(last, s4);
    Some((packets, errors, dropped, overruns, value))
  }

  /** \s+compressed:([0-9]+) */
  function MatchCompressedLine(line: string): Option<nat> {
    var (compressed, _) :- Counter("compressed:", line);
    Some(compressed)
  }

  /** \s+collisions:([0-9]+)\s+(.*) */
  function MatchCollisions(line: string): Option<(nat, string)> {
    var (collisions, s1) :- Counter("collisions:", line);
    var rest :- Ws(s1);
    Some((collisions, rest))
  }

  /** compressed:([0-9]+)\s+(.*) */
  function MatchCompressed(s: string): Option<(nat, string)> {
    var s1 :- Lit("compressed:", s);
    var (compressed, s2) :- Dec(s1);
    var rest :- Ws(s2);
    Some((compressed, rest))
  }

  /** txqueuelen:([0-9]+) */
  function MatchQueueOld(s: string): Option<nat> {
    var s1 :- Lit("txqueuelen:", s);
    var (txqueuelen, _) :- Dec(s1);
    Some(txqueuelen)
  }

  function CollisionsUpdate(line: string): Option<Attrs> {
    var (collisions, s1) :- MatchCollisions(line);
    var c := MatchCompressed(s1);
    var s2 := if c.Some? then c.value.1 else s1;
    var q := MatchQueueOld(s2);
    Some(map[TX_COLLISIONS := Num(collisions)]
         + (if c.Some? then map[TX_COMPRESSED := Num(c.value.0)] else map[])
         + (if q.Some? then map[TX_QUEUE_LEN := Num(q.value)] else map[]))
  }

  /** \)\s+TX bytes:([0-9]+)\s+\(.*\) */
  function MatchTxBytes(s: string): Option<nat> {
    var s1 :- Lit(")", s);
    var (txbytes, s2) :- Counter("TX bytes:", s1);
    var s3 :- Ws(s2);
    var _ :- Parens(s3);
    Some(txbytes)
  }

  /** \s+RX bytes:([0-9]+)\s+\(.*\)\s+TX bytes:([0-9]+)\s+\(.*\) */
  function MatchBytesOld(line: string): Option<(nat, nat)> {
    var (rxbytes, s1) :- Counter("RX bytes:", line);
    var s2 :- Ws(s1);
    var s3 :- Lit("(", s2);
    var (_, txbytes) :- Greedy(s3, MatchTxBytes);
    Some((rxbytes, txbytes))
  }

  /** \s*(.*) */
  function SkipSpace(s: string): string { s[Span(Space, s)..] }

  /** \s+Interrupt:([0-9]+)\s*(.*) */
  function MatchInterruptOld(line: string): Option<(nat, string)> {
    var (interrupt, rest) :- Counter("Interrupt:", line);
    Some((interrupt, SkipSpace(rest)))
  }

  /** Base address:0x([0-9a-f]+)\s*(.*) */
  function MatchBaseOld(s: string): Option<(nat, string)> {
    var s1 :- Lit("Base address:0x", s);
    var (base, rest) :- Hex(s1);
    Some((base, SkipSpace(rest)))
  }

  /** Memory:([0-9a-f]+)-([0-9a-f]+)\s*(.*) */
  function MatchMemoryOld(s: string): Option<(nat, nat, string)> {
    var s1 :- Lit("Memory:", s);
    var (start, s2) :- Hex(s1);
    var s3 :- Lit("-", s2);
    var (end, rest) :- Hex(s3);
    Some((start, end, SkipSpace(rest)))
  }

  /** DMA chan:([0-9a-f]+) */
  function MatchDmaOld(s: string): Option<nat> {
    var s1 :- Lit("DMA chan:", s);
    var (dma, _) :- Hex(s1);
    Some(dma)
  }

  /** The end of _parse_line_old, which lets every line pass.  Only the first of the four
      patterns allows for white space at the start of the line. */
  function HardwareOldUpdate(line: string): Attrs {
    var i := MatchInterruptOld(line);
    var s1 := if i.Some? then i.value.1 else line;
    var b := MatchBaseOld(s1);
    var s2 := if b.Some? then b.value.1 else s1;
    var m := MatchMemoryOld(s2);
    var s3 := if m.Some? then m.value.2 else s2;
    var d := MatchDmaOld(s3);
    ResourceAttrs(if i.Some? then Some(i.value.0) else None,
                  if b.Some? then Some(b.value.0) else None,
                  if m.Some? then Some((m.value.0, m.value.1)) else None,
                  d)
  }

  datatype OldKind =
    | InetOld | Inet6Old | FlagsOld | RxOld | RxCompressedOld | TxOld | CollisionsOld | BytesOld
    | HardwareOld

  /** One pattern of the chain in _parse_line_old; the last takes every line. */
  function PatternOld(kind: OldKind, line: string): Option<Attrs> {
    match kind
    case InetOld => InetOldUpdate(line)
    case Inet6Old =>
      var (inet6, prefixlen, scopeid) :- MatchInet6Old(line);
      Some(map[INET6 := Str(inet6), PREFIX_LEN := Num(prefixlen), SCOPE_ID := Str(scopeid)])
    case FlagsOld => FlagsOldUpdate(line)
    case RxOld =>
      var (packets, errors, dropped, overruns, frame) :- MatchCounters("RX", "frame:", line);
      Some(map[RX_PACKETS := Num(packets), RX_ERRORS := Num(errors), RX_DROPPED := Num(dropped),
               RX_OVERRUNS := Num(overruns), RX_FRAME := Num(frame)])
    case RxCompressedOld =>
      var compressed :- MatchCompressedLine(line);
      Some(map[RX_COMPRESSED := Num(compressed)])
    case TxOld =>
      var (packets, errors, dropped, overruns, carrier) :- MatchCounters("TX", "carrier:", line);
      Some(map[TX_PACKETS := Num(packets), TX_ERRORS := Num(errors), TX_DROPPED := Num(dropped),
               TX_OVERRUNS := Num(overruns), TX_CARRIER := Num(carrier)])
    case CollisionsOld => CollisionsUpdate(line)
    case BytesOld =>
      var (rxbytes, txbytes) :- MatchBytesOld(line);
      Some(map[RX_BYTES := Num(rxbytes), TX_BYTES := Num(txbytes)])
    case HardwareOld => Some(HardwareOldUpdate(line))
  }

  function DispatchOld(line: string): (kind: OldKind)
    ensures PatternOld(kind, line).Some?
  {
    if PatternOld(InetOld, line).Some? then InetOld
    else if PatternOld(Inet6Old, line).Some? then Inet6Old
    else if PatternOld(FlagsOld, line).Some? then FlagsOld
    else if PatternOld(RxOld, line).Some? then RxOld
    else if PatternOld(RxCompressedOld, line).Some? then RxCompressedOld
    else if PatternOld(TxOld, line).Some? then TxOld
    else if PatternOld(CollisionsOld, line).Some? then CollisionsOld
    else if PatternOld(BytesOld, line).Some? then BytesOld
    else HardwareOld
  }

  /** What _parse_line_old assigns. */
  function OldUpdate(line: string): Attrs {
    PatternOld(DispatchOld(line), line).value
  }
}
