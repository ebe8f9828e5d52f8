/** What ifconfig prints in its new format, line by line, and the proof that each printed
    line is understood as what it says and by no earlier pattern of the parser's chain. */
module IfconfigPrinter {
  import opened Wrappers
  import opened Numerals
  import opened Scanner
  import opened IfconfigPatterns

  const INDENT := "        "
  const GAP := "  "

  /** A non-empty string without white space. */
  predicate Token(s: string) { s != "" && All(NonSpace, s) }

  /** The lines ifconfig prints below the first line of a device; `human` is the rounded
      byte count in parentheses, which the parser skips. */
  datatype Line =
    | Ipv4(inet: string, netmask: string, broadcast: Option<string>, destination: Option<string>)
    | Ipv6(inet6: string, prefixlen: nat, scopeid: string)
    | Hardware(name: string, addr: Option<string>, queue: nat, title: string)
    | Received(packets: nat, bytes: nat, human: string)
    | ReceiveErrors(errors: nat, dropped: nat, overruns: nat, frame: nat)
    | Sent(packets: nat, bytes: nat, human: string)
    | SendErrors(errors: nat, dropped: nat, overruns: nat, carrier: nat, collisions: nat)
    | Resources(interrupt: Option<nat>, base: Option<nat>, memory: Option<(nat, nat)>,
                dma: Option<nat>)

  /** The values of the fields have the shape their place in the line demands. */
  ghost predicate Valid(l: Line) {
    match l
    case Ipv4(inet, netmask, broadcast, destination) =>
      && IsIp4(inet) && IsIp4(netmask)
      && (broadcast.Some? ==> IsIp4(broadcast.value))
      && (destination.Some? ==> Token(destination.value))
    case Ipv6(inet6, _, scopeid) => Token(inet6) && Token(scopeid)
    case Hardware(name, addr, _, _) => Token(name) && (addr.Some? ==> Token(addr.value))
    case _ => true
  }

  /** Each line is its indentation and this text. */
  function Text(l: Line): string {
    match l
    case Ipv4(inet, netmask, broadcast, destination) =>
      "inet " + (inet + (GAP + ("netmask " + (netmask + PeerText(broadcast, destination)))))
    case Ipv6(inet6, prefixlen, scopeid) =>
      "inet6 " + (inet6 + (GAP + ("prefixlen" + (" " + (N(prefixlen) + (GAP + ("scopeid " + scopeid)))))))
    case Hardware(name, addr, queue, title) =>
      if addr.Some? then name + (" " + (addr.value + (GAP + QueueText(queue, title))))
      else name + (GAP + QueueText(queue, title))
    case Received(packets, bytes, human) => PacketsText("RX", packets, bytes, human)
    case ReceiveErrors(errors, dropped, overruns, frame) =>
      "RX errors " + (N(errors) + (GAP + ("dropped " + (N(dropped) + (GAP
      + ("overruns " + (N(overruns) + (GAP + ("frame " + N(frame))))))))))
    case Sent(packets, bytes, human) => PacketsText("TX", packets, bytes, human)
    case SendErrors(errors, dropped, overruns, carrier, collisions) =>
      "TX errors " + (N(errors) + (GAP + ("dropped " + (N(dropped) + (" "
      + ("overruns " + (N(overruns) + (GAP + ("carrier " + (N(carrier) + (GAP
      + ("collisions " + N(collisions)))))))))))))
    case Resources(interrupt, base, memory, dma) =>
      "device" + (" " + InterruptText(interrupt, BaseText(base, MemoryText(memory, DmaText(dma)))))
  }

  function PeerText(broadcast: Option<string>, destination: Option<string>): string {
    var d := if destination.Some? then GAP + ("destination " + destination.value) else "";
    if broadcast.Some? then GAP + ("broadcast " + (broadcast.value + d)) else d
  }

  function QueueText(queue: nat, title: string): string {
    "txqueuelen" + (" " + (N(queue) + (GAP + ("(" + (title + ")")))))
  }

  function PacketsText(direction: string, packets: nat, bytes: nat, human: string): string {
    (direction + " packets ") + (N(packets) + (GAP + ("bytes " + (N(bytes) + (" " + ("(" + (human + ")")))))))
  }

  function InterruptText(interrupt: Option<nat>, rest: string): string {
    if interrupt.Some? then "interrupt " + (N(interrupt.value) + (GAP + rest)) else rest
  }

  function BaseText(base: Option<nat>, rest: string): string {
    if base.Some? then "base 0x" + (X(base.value) + (GAP + rest)) else rest
  }

  function MemoryText(memory: Option<(nat, nat)>, rest: string): string {
    if memory.Some?
      then "memory 0x" + (X(memory.value.0) + ("-" + (X(memory.value.1) + (GAP + rest))))
    else rest
  }

  function DmaText(dma: Option<nat>): string {
    if dma.Some? then "dma 0x" + X(dma.value) else ""
  }

  function PrintLine(l: Line): string { INDENT + Text(l) }

  function KindOf(l: Line): LineKind {
    match l
    case Ipv4(_, _, _, _) => InetLine
    case Ipv6(_, _, _) => Inet6Line
    case Hardware(_, addr, _, _) => if addr.Some? then HwWithLine else HwWithoutLine
    case Received(_, _, _) => RxPacketsLine
    case ReceiveErrors(_, _, _, _) => RxErrorsLine
    case Sent(_, _, _) => TxPacketsLine
    case SendErrors(_, _, _, _, _) => TxErrorsLine
    case Resources(_, _, _, _) => DeviceLine
  }

  function OfText(s: Option<string>): Option<Val> {
    if s.Some? then Some(Str(s.value)) else None
  }

  /** The attributes a line states. */
  function Meaning(l: Line): Attrs {
    match l
    case Ipv4(inet, netmask, broadcast, destination) =>
      map[INET := Str(inet), NETMASK := Str(netmask)]
      + Maybe(BROADCAST, OfText(broadcast)) + Maybe(DESTINATION, OfText(destination))
    case Ipv6(inet6, prefixlen, scopeid) =>
      map[INET6 := Str(inet6), PREFIX_LEN := Num(prefixlen), SCOPE_ID := Str(scopeid)]
    case Hardware(name, addr, queue, title) =>
      map[HW_NAME := Str(name), HW_ADDR := if addr.Some? then Str(addr.value) else Nothing,
          TX_QUEUE_LEN := Num(queue), HW_TITLE := Str(title)]
    case Received(packets, bytes, _) => map[RX_PACKETS := Num(packets), RX_BYTES := Num(bytes)]
    case ReceiveErrors(errors, dropped, overruns, frame) =>
      map[RX_ERRORS := Num(errors), RX_DROPPED := Num(dropped), RX_OVERRUNS := Num(overruns),
          RX_FRAME := Num(frame)]
    case Sent(packets, bytes, _) => map[TX_PACKETS := Num(packets), TX_BYTES := Num(bytes)]
    case SendErrors(errors, dropped, overruns, carrier, collisions) =>
      map[TX_ERRORS := Num(errors), TX_DROPPED := Num(dropped), TX_OVERRUNS := Num(overruns),
          TX_CARRIER := Num(carrier), TX_COLLISIONS := Num(collisions)]
    case Resources(interrupt, base, memory, dma) =>
      ResourceAttrs(interrupt, base, memory, dma)
  }

  // ------------------------------------------------------------------ each line is understood

  lemma Indented(text: string)
    requires Leaves(Space, text)
    ensures Ws(INDENT + text) == Some(text)
  {
    WsStep(INDENT, text);
  }

  lemma GapStep(rest: string)
    requires Leaves(Space, rest)
    ensures Ws(GAP + rest) == Some(rest)
    ensures Ws(" " + rest) == Some(rest)
  {
    WsStep(GAP, rest);
    WsStep(" ", rest);
  }

  lemma NStep(n: nat, rest: string)
    requires Leaves(Digit, rest)
    ensures Dec(N(n) + rest) == Some((n, rest))
    ensures var s := N(n) + rest; Leaves(Space, s) && In(Digit, s[0])
  {
    DecStep(n, rest);
  }

  lemma XStep(n: nat, rest: string)
    requires Leaves(HexDigit, rest)
    ensures Hex(X(n) + rest) == Some((n, rest))
  {
    HexStep(n, rest);
  }

  lemma ParensStep(inner: string)
    ensures Parens("(" + (inner + ")")) == Some(inner)
  {
    var s := inner + ")";
    LitStep("(", s);
    assert s[|inner|..] == ")";
    assert s[|s|..] == "";
    BacktrackFindsLast(s, |s|, 0, |inner|, CloseParen);
    assert s[..|inner|] == inner;
  }

  lemma QueueStep(queue: nat, title: string)
    ensures MatchQueue(QueueText(queue, title)) == Some((queue, title))
  {
    var s4 := "(" + (title + ")");
    LitStep("txqueuelen", " " + (N(queue) + (GAP + s4)));
    NStep(queue, GAP + s4);
    GapStep(N(queue) + (GAP + s4));
    GapStep(s4);
    ParensStep(title);
  }

  lemma CounterStep(gap: string, prefix: string, n: nat, rest: string)
    requires gap != "" && All(Space, gap) && prefix != "" && Leaves(Space, prefix)
    requires Leaves(Digit, rest)
    ensures Counter(prefix, gap + (prefix + (N(n) + rest))) == Some((n, rest))
  {
    WsStep(gap, prefix + (N(n) + rest));
    LitStep(prefix, N(n) + rest);
    NStep(n, rest);
  }

  lemma PacketsStep(direction: string, packets: nat, bytes: nat, human: string)
    requires direction in ["RX", "TX"]
    ensures MatchPackets(direction, INDENT + PacketsText(direction, packets, bytes, human))
         == Some((packets, bytes))
  {
    hide Counter;
    var s3 := "(" + (human + ")");
    CounterStep(INDENT, direction + " packets ", packets, GAP + ("bytes " + (N(bytes) + (" " + s3))));
    CounterStep(GAP, "bytes ", bytes, " " + s3);
    GapStep(s3);
    ParensStep(human);
  }

  lemma ReceiveErrorsStep(l: Line)
    requires l.ReceiveErrors?
    ensures MatchRxErrors(PrintLine(l)) == Some((l.errors, l.dropped, l.overruns, l.frame))
  {
    hide Counter;
    assert N(l.frame) + "" == N(l.frame);
    var s3 := GAP + ("frame " + N(l.frame));
    var s2 := GAP + ("overruns " + (N(l.overruns) + s3));
    var s1 := GAP + ("dropped " + (N(l.dropped) + s2));
    CounterStep(INDENT, "RX errors ", l.errors, s1);
    CounterStep(GAP, "dropped ", l.dropped, s2);
    CounterStep(GAP, "overruns ", l.overruns, s3);
    CounterStep(GAP, "frame ", l.frame, "");
  }

  lemma SendErrorsStep(l: Line)
    requires l.SendErrors?
    ensures MatchTxErrors(PrintLine(l))
         == Some((l.errors, l.dropped, l.overruns, l.carrier, l.collisions))
  {
    hide Counter;
    assert N(l.collisions) + "" == N(l.collisions);
    var s4 := GAP + ("collisions " + N(l.collisions));
    var s3 := GAP + ("carrier " + (N(l.carrier) + s4));
    var s2 := " " + ("overruns " + (N(l.overruns) + s3));
    var s1 := GAP + ("dropped " + (N(l.dropped) + s2));
    CounterStep(INDENT, "TX errors ", l.errors, s1);
    CounterStep(GAP, "dropped ", l.dropped, s2);
    CounterStep(" ", "overruns ", l.overruns, s3);
    CounterStep(GAP, "carrier ", l.carrier, s4);
    CounterStep(GAP, "collisions ", l.collisions, "");
  }

  lemma DestinationStep(destination: Option<string>)
    requires destination.Some? ==> Token(destination.value)
    ensures MatchDestination(PeerText(None, destination)) == destination
    ensures MatchBroadcast(PeerText(None, destination)) == None
  {
    if destination.Some? {
      var d := destination.value;
      GapStep("destination " + d);
      LitStep("destination ", d);
      assert d + "" == d;
      RunStep(NonSpace, d, "");
      LitMiss("broadcast ", "destination " + d, 0);
    }
  }

  lemma PeerStep(broadcast: Option<string>, destination: Option<string>)
    requires broadcast.Some? ==> IsIp4(broadcast.value)
    requires destination.Some? ==> Token(destination.value)
    ensures var s := PeerText(broadcast, destination);
            var b := MatchBroadcast(s);
            && Leaves(Digit, s)
            && (if broadcast.Some? then b == Some((broadcast.value, PeerText(None, destination)))
                else b == None)
            && MatchDestination(if b.Some? then b.value.1 else s) == destination
  {
    DestinationStep(destination);
    if broadcast.Some? {
      var d := PeerText(None, destination);
      GapStep("broadcast " + (broadcast.value + d));
      LitStep("broadcast ", broadcast.value + d);
      Ip4Step(broadcast.value, d);
    }
  }

  lemma Ipv4Step(l: Line)
    requires l.Ipv4? && Valid(l)
    ensures InetUpdate(PrintLine(l)) == Some(Meaning(l))
  {
    var peer := PeerText(l.broadcast, l.destination);
    PeerStep(l.broadcast, l.destination);
    Indented(Text(l));
    LitStep("inet ", l.inet + (GAP + ("netmask " + (l.netmask + peer))));
    Ip4Step(l.inet, GAP + ("netmask " + (l.netmask + peer)));
    GapStep("netmask " + (l.netmask + peer));
    LitStep("netmask ", l.netmask + peer);
    Ip4Step(l.netmask, peer);
  }

  lemma Ipv6Step(l: Line)
    requires l.Ipv6? && Valid(l)
    ensures MatchInet6(PrintLine(l)) == Some((l.inet6, l.prefixlen, l.scopeid))
  {
    var s9 := l.scopeid;
    var s6 := N(l.prefixlen) + (GAP + ("scopeid " + s9));
    var s4 := "prefixlen" + (" " + s6);
    Indented(Text(l));
    LitStep("inet6 ", l.inet6 + (GAP + s4));
    RunStep(NonSpace, l.inet6, GAP + s4);
    GapStep(s4);
    LitStep("prefixlen", " " + s6);
    NStep(l.prefixlen, GAP + ("scopeid " + s9));
    GapStep(s6);
    GapStep("scopeid " + s9);
    LitStep("scopeid ", s9);
    assert s9 + "" == s9;
    RunStep(NonSpace, s9, "");
  }

  lemma HardwareStep(l: Line)
    requires l.Hardware? && Valid(l)
    ensures l.addr.Some? ==>
      MatchHwWith(PrintLine(l)) == Some((l.name, l.addr.value, l.queue, l.title))
    ensures l.addr.None? ==> MatchHwWithout(PrintLine(l)) == Some((l.name, l.queue, l.title))
  {
    var s5 := QueueText(l.queue, l.title);
    Indented(Text(l));
    QueueStep(l.queue, l.title);
    GapStep(s5);
    if l.addr.Some? {
      var s3 := l.addr.value + (GAP + s5);
      RunStep(NonSpace, l.name, " " + s3);
      GapStep(s3);
      RunStep(NonSpace, l.addr.value, GAP + s5);
    } else {
      RunStep(NonSpace, l.name, GAP + s5);
    }
  }

  predicate StartsIn(s: string, chars: string) { s != "" ==> s[0] in chars }

  lemma DmaStep(dma: Option<nat>)
    ensures var s := DmaText(dma);
            && StartsIn(s, "d") && MatchDma(s) == dma
            && MatchMemory(s) == None && MatchBase(s) == None && MatchInterrupt(s) == None
  {
    if dma.Some? {
      LitStep("dma 0x", X(dma.value));
      assert X(dma.value) + "" == X(dma.value);
      XStep(dma.value, "");
    }
    LitMiss("memory 0x", DmaText(dma), 0);
    LitMiss("base 0x", DmaText(dma), 0);
    LitMiss("interrupt ", DmaText(dma), 0);
  }

  lemma MemoryStep(memory: Option<(nat, nat)>, rest: string)
    requires StartsIn(rest, "d") && MatchMemory(rest) == None
    ensures var s := MemoryText(memory, rest);
            var m := MatchMemory(s);
            && StartsIn(s, "dm")
            && (if memory.Some? then m == Some((memory.value.0, memory.value.1, rest)) else m == None && s == rest)
  {
    if memory.Some? {
      var s3 := X(memory.value.1) + (GAP + rest);
      LitStep("memory 0x", X(memory.value.0) + ("-" + s3));
      XStep(memory.value.0, "-" + s3);
      LitStep("-", s3);
      XStep(memory.value.1, GAP + rest);
      GapStep(rest);
    }
  }

  lemma BaseStep(base: Option<nat>, rest: string)
    requires StartsIn(rest, "dm")
    ensures var s := BaseText(base, rest);
            var b := MatchBase(s);
            && StartsIn(s, "bdm")
            && (if base.Some? then b == Some((base.value, rest)) else b == None && s == rest)
  {
    if base.Some? {
      LitStep("base 0x", X(base.value) + (GAP + rest));
      XStep(base.value, GAP + rest);
      GapStep(rest);
    } else {
      LitMiss("base 0x", rest, 0);
    }
  }

  lemma InterruptStep(interrupt: Option<nat>, rest: string)
    requires StartsIn(rest, "bdm")
    ensures var s := InterruptText(interrupt, rest);
            var i := MatchInterrupt(s);
            && StartsIn(s, "bdim")
            && (if interrupt.Some? then i == Some((interrupt.value, rest)) else i == None && s == rest)
  {
    if interrupt.Some? {
      LitStep("interrupt ", N(interrupt.value) + (GAP + rest));
      NStep(interrupt.value, GAP + rest);
      GapStep(rest);
    } else {
      LitMiss("interrupt ", rest, 0);
    }
  }

  function PartsText(l: Line): string
    requires l.Resources?
  {
    InterruptText(l.interrupt, BaseText(l.base, MemoryText(l.memory, DmaText(l.dma))))
  }

  /** All sixteen combinations of the optional parts of a device line. */
  lemma PartsStep(l: Line)
    requires l.Resources?
    ensures DeviceParts(PartsText(l)) == ResourceAttrs(l.interrupt, l.base, l.memory, l.dma)
    ensures StartsIn(PartsText(l), "bdim")
  {
    hide MatchInterrupt, MatchBase, MatchMemory, MatchDma, ResourceAttrs,
         InterruptText, BaseText, MemoryText, DmaText, StartsIn;
    var s3 := DmaText(l.dma);
    var s2 := MemoryText(l.memory, s3);
    var s1 := BaseText(l.base, s2);
    DmaStep(l.dma);
    MemoryStep(l.memory, s3);
    BaseStep(l.base, s2);
    InterruptStep(l.interrupt, s1);
  }

  lemma ResourcesStep(l: Line)
    requires l.Resources?
    ensures MatchDevice(PrintLine(l)) == Some(PartsText(l))
    ensures DeviceParts(PartsText(l)) == Meaning(l)
  {
    PartsStep(l);
    Indented(Text(l));
    LitStep("device", " " + PartsText(l));
    GapStep(PartsText(l));
    hide DeviceParts, ResourceAttrs, InterruptText;
  }

  lemma OwnPattern(l: Line)
    requires Valid(l)
    ensures Pattern(KindOf(l), PrintLine(l)) == Some(Meaning(l))
  {
    hide Valid, PacketsText, MatchInet, MatchInet6, MatchHwWith, MatchHwWithout, MatchPackets,
         MatchRxErrors, MatchTxErrors, MatchDevice, DeviceParts, InetUpdate;
    match l
    case Ipv4(_, _, _, _) => Ipv4Step(l);
    case Ipv6(_, _, _) => Ipv6Step(l);
    case Hardware(_, _, _, _) => HardwareStep(l);
    case Received(packets, bytes, human) => PacketsStep("RX", packets, bytes, human);
    case ReceiveErrors(_, _, _, _) => ReceiveErrorsStep(l);
    case Sent(packets, bytes, human) => PacketsStep("TX", packets, bytes, human);
    case SendErrors(_, _, _, _, _) => SendErrorsStep(l);
    case Resources(_, _, _, _) => ResourcesStep(l);
  }

  // ------------------------------------------------------------ and by no earlier pattern

  /** A pattern that starts with a literal fails on another text. */
  lemma KeywordMiss(text: string)
    requires Leaves(Space, text)
    ensures Lit("inet ", text).None? ==> InetUpdate(INDENT + text).None?
    ensures Lit("inet6 ", text).None? ==> MatchInet6(INDENT + text).None?
    ensures forall prefix: string :: Lit(prefix, text).None? ==> Counter(prefix, INDENT + text).None?
  {
    Indented(text);
  }

  /** The hardware patterns fail where the third word does not start with a 't', the one
      without an address already where the second does not. */
  lemma HardwareMiss(first: string, gap: string, second: string, gap': string, rest: string)
    requires Token(first) && Token(second) && gap in [" ", GAP] && gap' in [" ", GAP]
    requires Leaves(Space, rest) && (rest != "" ==> rest[0] != 't')
    ensures var line := INDENT + (first + (gap + (second + (gap' + rest))));
            && MatchHwWith(line).None?
            && (second[0] != 't' ==> MatchHwWithout(line).None?)
  {
    var s3 := second + (gap' + rest);
    Indented(first + (gap + s3));
    RunStep(NonSpace, first, gap + s3);
    GapStep(s3);
    RunStep(NonSpace, second, gap' + rest);
    GapStep(rest);
    LitMiss("txqueuelen", rest, 0);
    if second[0] != 't' { LitMiss("txqueuelen", s3, 0); }
  }

  /** A name followed by a blank starts with a keyword and a blank only if it is that word. */
  lemma NameIsKeyword(keyword: string, name: string, rest: string)
    requires keyword in ["inet", "inet6"] && Token(name)
    ensures var r := Lit(keyword + " ", name + (" " + rest));
            r.Some? ==> name == keyword && r.value == rest
  {
    var s := name + (" " + rest);
    if Lit(keyword + " ", s).Some? {
      var n := |keyword|;
      assert s[n] == (keyword + " ")[n] == ' ';
      assert forall i :: 0 <= i < n ==> s[i] == (keyword + " ")[i] == keyword[i] != ' ';
      assert s[|name|] == ' ';
      assert forall i :: 0 <= i < |name| ==> s[i] == name[i] && In(NonSpace, name[i]);
      assert |name| == n;
      assert name == s[..n] == keyword;
      assert s == (keyword + " ") + rest;
    }
  }

  /** White space after characters that are none can only be where a word ends. */
  lemma WordBoundary(word: string, rest: string, s: string)
    requires All(NonSpace, word) && rest != "" && In(Space, rest[0])
    requires Eats(word + rest, s) && s != "" && In(Space, s[0])
    ensures s == rest
  {
    var text := word + rest;
    var k := |text| - |s|;
    assert text[|word|] == rest[0];
    assert k <= |word| by {
      assert forall i :: 0 <= i < k ==> text[..k][i] == text[i] && In(NonSpace, text[i]);
    }
    assert s[0] == text[k];
    assert forall i :: 0 <= i < |word| ==> text[i] == word[i] && In(NonSpace, word[i]);
    assert text[|word|..] == rest;
  }

  /** No address followed by 'netmask' starts where a word and 'txqueuelen' stand. */
  lemma AddressThenQueue(word: string, queue: string)
    requires Token(word) && queue != "" && queue[0] == 't'
    ensures var s := word + (GAP + queue);
            Ip4(s).Some? && Ws(Ip4(s).value.1).Some? ==>
              Lit("netmask ", Ws(Ip4(s).value.1).value).None?
  {
    hide Ip4, Eats, All;
    var s := word + (GAP + queue);
    Ip4Eats(s);
    if Ip4(s).Some? && Ws(Ip4(s).value.1).Some? {
      WordBoundary(word, GAP + queue, Ip4(s).value.1);
      GapStep(queue);
      LitMiss("netmask ", queue, 0);
    }
  }

  /** What it takes for the inet pattern to match. */
  lemma InetNeedsNetmask(text: string)
    requires Leaves(Space, text)
    requires var s := Lit("inet ", text);
             s.Some? && Ip4(s.value).Some? && Ws(Ip4(s.value).value.1).Some? ==>
               Lit("netmask ", Ws(Ip4(s.value).value.1).value).None?
    ensures InetUpdate(INDENT + text).None?
  {
    Indented(text);
    hide Ip4, Ws, Lit;
  }

  lemma HardwareIsNotInet(l: Line)
    requires l.Hardware? && Valid(l)
    ensures InetUpdate(PrintLine(l)).None?
  {
    var queue := QueueText(l.queue, l.title);
    assert queue[0] == 't';
    if l.addr.Some? {
      NameIsKeyword("inet", l.name, l.addr.value + (GAP + queue));
      AddressThenQueue(l.addr.value, queue);
    } else {
      assert GAP + queue == " " + (" " + queue);
      NameIsKeyword("inet", l.name, " " + queue);
      NoAddress(" " + queue);
    }
    hide QueueText, Ip4, Ws, Lit, InetUpdate, All;
    InetNeedsNetmask(Text(l));
  }

  lemma NoAddress(s: string)
    requires Leaves(Digit, s)
    ensures Ip4(s).None?
  {
    RunMiss(Digit, s);
  }

  /** What it takes for the inet6 pattern to match. */
  lemma Inet6NeedsPrefix(text: string)
    requires Leaves(Space, text)
    requires var s := Lit("inet6 ", text);
             s.Some? && Run(NonSpace, s.value).Some? && Ws(Run(NonSpace, s.value).value.1).Some? ==>
               Lit("prefixlen", Ws(Run(NonSpace, s.value).value.1).value).None?
    ensures MatchInet6(INDENT + text).None?
  {
    Indented(text);
    hide Run, Ws, Lit;
  }

  lemma WordThenQueue(word: string, queue: string)
    requires Token(word) && queue != "" && queue[0] == 't'
    ensures var s := Run(NonSpace, word + (GAP + queue));
            s.Some? && Ws(s.value.1).Some? && Lit("prefixlen", Ws(s.value.1).value).None?
  {
    RunStep(NonSpace, word, GAP + queue);
    GapStep(queue);
    LitMiss("prefixlen", queue, 0);
  }

  lemma HardwareIsNotInet6(l: Line)
    requires l.Hardware? && Valid(l)
    ensures MatchInet6(PrintLine(l)).None?
  {
    var queue := QueueText(l.queue, l.title);
    assert queue[0] == 't';
    hide QueueText, MatchInet6;
    if l.addr.Some? {
      NamedInet6(l.name, l.addr.value, queue);
    } else {
      assert GAP + queue == " " + (" " + queue);
      BareInet6(l.name, queue);
    }
  }

  lemma NamedInet6(name: string, word: string, queue: string)
    requires Token(name) && Token(word) && queue != "" && queue[0] == 't'
    ensures MatchInet6(INDENT + (name + (" " + (word + (GAP + queue))))).None?
  {
    NameIsKeyword("inet6", name, word + (GAP + queue));
    WordThenQueue(word, queue);
    assert "inet6" + " " == "inet6 ";
    assert Leaves(Space, name + (" " + (word + (GAP + queue))));
    hide Run, Ws, Lit, MatchInet6, All, Leaves;
    Inet6NeedsPrefix(name + (" " + (word + (GAP + queue))));
  }

  lemma BareInet6(name: string, queue: string)
    requires Token(name)
    ensures MatchInet6(INDENT + (name + (" " + (" " + queue)))).None?
  {
    NameIsKeyword("inet6", name, " " + queue);
    RunMiss(NonSpace, " " + queue);
    assert "inet6" + " " == "inet6 ";
    assert Leaves(Space, name + (" " + (" " + queue)));
    hide Run, Ws, Lit, MatchInet6, All, Leaves;
    Inet6NeedsPrefix(name + (" " + (" " + queue)));
  }

  /** The lines that begin with a keyword of their own. */
  predicate Keyworded(l: Line) { !l.Ipv4? && !l.Ipv6? && !l.Hardware? }

  lemma CounterText(l: Line)
    requires Keyworded(l) && !l.Resources?
    ensures var s := Text(l);
            && |s| > 3 && s[0] == (if l.Received? || l.ReceiveErrors? then 'R' else 'T')
            && s[3] == (if l.Received? || l.Sent? then 'p' else 'e')
  {
  }

  lemma ResourcesText(l: Line)
    requires l.Resources?
    ensures Text(l) != "" && Text(l)[0] == 'd'
  {
    hide InterruptText;
  }

  /** Their texts differ from the keywords of the patterns before them. */
  lemma KeywordTexts(l: Line)
    requires Keyworded(l)
    ensures Leaves(Space, Text(l))
    ensures Lit("inet ", Text(l)).None? && Lit("inet6 ", Text(l)).None?
    ensures l.Received? || Lit("RX packets ", Text(l)).None?
    ensures l.ReceiveErrors? || Lit("RX errors ", Text(l)).None?
    ensures l.Sent? || Lit("TX packets ", Text(l)).None?
    ensures l.SendErrors? || Lit("TX errors ", Text(l)).None?
  {
    hide Text;
    if l.Resources? { ResourcesText(l); } else { CounterText(l); }
  }

  /** The hardware patterns fail on a line whose third word starts with a digit. */
  lemma ThirdWordMiss(first: string, second: string, head: string, rest: string)
    requires Token(first) && Token(second) && head == first + (" " + (second + " "))
    requires rest != "" && In(Digit, rest[0]) && second[0] != 't'
    ensures MatchHwWith(INDENT + (head + rest)).None?
    ensures MatchHwWithout(INDENT + (head + rest)).None?
  {
    assert head + rest == first + (" " + (second + (" " + rest)));
    HardwareMiss(first, " ", second, " ", rest);
  }

  lemma PacketsAreNotHardware(direction: string, packets: nat, bytes: nat, human: string)
    requires direction in ["RX", "TX"]
    ensures var line := INDENT + PacketsText(direction, packets, bytes, human);
            MatchHwWith(line).None? && MatchHwWithout(line).None?
  {
    hide MatchHwWith, MatchHwWithout;
    ThirdWordMiss(direction, "packets", direction + " packets ",
                  N(packets) + (GAP + ("bytes " + (N(bytes) + (" " + ("(" + (human + ")")))))));
  }

  lemma ErrorsAreNotHardware(direction: string, errors: nat, rest: string)
    requires direction in ["RX", "TX"]
    ensures var line := INDENT + ((direction + " errors ") + (N(errors) + rest));
            MatchHwWith(line).None? && MatchHwWithout(line).None?
  {
    hide MatchHwWith, MatchHwWithout;
    ThirdWordMiss(direction, "errors", direction + " errors ", N(errors) + rest);
  }

  lemma CountersAreNotHardware(l: Line)
    requires l.Received? || l.Sent? || l.ReceiveErrors? || l.SendErrors?
    ensures MatchHwWith(PrintLine(l)).None? && MatchHwWithout(PrintLine(l)).None?
  {
    hide MatchHwWith, MatchHwWithout, N;
    match l
    case Received(packets, bytes, human) => PacketsAreNotHardware("RX", packets, bytes, human);
    case Sent(packets, bytes, human) => PacketsAreNotHardware("TX", packets, bytes, human);
    case ReceiveErrors(errors, dropped, overruns, frame) =>
      assert "RX" + " errors " == "RX errors ";
      ErrorsAreNotHardware("RX", errors, GAP + ("dropped " + (N(dropped) + (GAP
        + ("overruns " + (N(overruns) + (GAP + ("frame " + N(frame)))))))));
    case SendErrors(errors, dropped, overruns, carrier, collisions) =>
      assert "TX" + " errors " == "TX errors ";
      ErrorsAreNotHardware("TX", errors, GAP + ("dropped " + (N(dropped) + (" "
        + ("overruns " + (N(overruns) + (GAP + ("carrier " + (N(carrier) + (GAP
        + ("collisions " + N(collisions))))))))))));
  }

  /** ... and on a device line with nothing in it. */
  lemma BareDeviceMiss()
    ensures MatchHwWith(INDENT + ("device" + (" " + ""))).None?
    ensures MatchHwWithout(INDENT + ("device" + (" " + ""))).None?
  {
    Indented("device" + (" " + ""));
    RunStep(NonSpace, "device", " " + "");
    GapStep("");
  }

  lemma ResourcesAreNotHardware(l: Line)
    requires l.Resources?
    ensures MatchHwWith(PrintLine(l)).None? && MatchHwWithout(PrintLine(l)).None?
  {
    hide MatchHwWith, MatchHwWithout, Numeral;
    var parts := PartsText(l);
    if l.interrupt.Some? {
      DevicePartMiss("interrupt", "interrupt ", "", parts[10..]);
    } else if l.base.Some? {
      DevicePartMiss("base", "base 0x", "0x", parts[7..]);
    } else if l.memory.Some? {
      DevicePartMiss("memory", "memory 0x", "0x", parts[9..]);
    } else if l.dma.Some? {
      DevicePartMiss("dma", "dma 0x", "0x", parts[6..]);
    } else {
      BareDeviceMiss();
    }
  }

  lemma DevicePartMiss(word: string, head: string, zero: string, rest: string)
    requires Token(word) && word[0] != 't' && head == word + (" " + zero)
    requires zero in ["", "0x"] && rest != "" && (zero == "" ==> In(Digit, rest[0]))
    ensures MatchHwWith(INDENT + ("device" + (" " + (head + rest)))).None?
    ensures MatchHwWithout(INDENT + ("device" + (" " + (head + rest)))).None?
  {
    assert "device" + (" " + (head + rest)) == ("device" + (" " + (word + " "))) + (zero + rest);
    ThirdWordMiss("device", word, "device" + (" " + (word + " ")), zero + rest);
  }

  /** The text with which a pattern from the middle of the chain starts. */
  function Keyword(kind: LineKind): string {
    match kind
    case RxPacketsLine => "RX packets "
    case RxErrorsLine => "RX errors "
    case TxPacketsLine => "TX packets "
    case TxErrorsLine => "TX errors "
    case _ => ""
  }

  lemma PatternNeedsKeyword(kind: LineKind, line: string)
    requires 4 <= Rank(kind) < 8 && Counter(Keyword(kind), line).None?
    ensures Pattern(kind, line).None?
  {
    assert "RX" + " packets " == "RX packets " && "TX" + " packets " == "TX packets ";
    hide Counter;
  }

  lemma KeywordedIsNoAddress(l: Line, kind: LineKind)
    requires Keyworded(l) && Rank(kind) < 2
    ensures Pattern(kind, PrintLine(l)).None?
  {
    KeywordTexts(l);
    hide InetUpdate, MatchInet6, Text, Lit, Counter;
    KeywordMiss(Text(l));
  }

  lemma KeywordedIsNotHardware(l: Line, kind: LineKind)
    requires Keyworded(l) && 2 <= Rank(kind) < 4
    ensures Pattern(kind, PrintLine(l)).None?
  {
    hide MatchHwWith, MatchHwWithout, PrintLine;
    if l.Resources? { ResourcesAreNotHardware(l); } else { CountersAreNotHardware(l); }
  }

  lemma KeywordedIsNoOther(l: Line, kind: LineKind)
    requires Keyworded(l) && 4 <= Rank(kind) < Rank(KindOf(l))
    ensures Pattern(kind, PrintLine(l)).None?
  {
    hide Pattern, Text, Counter, Lit, InetUpdate, MatchInet6;
    KeywordTexts(l);
    KeywordMiss(Text(l));
    PatternNeedsKeyword(kind, PrintLine(l));
  }

  lemma FirstPatterns(line: string)
    ensures Pattern(InetLine, line).None? <==> InetUpdate(line).None?
    ensures Pattern(Inet6Line, line).None? <==> MatchInet6(line).None?
    ensures Pattern(HwWithLine, line).None? <==> MatchHwWith(line).None?
  {
    hide InetUpdate, MatchInet6, MatchHwWith;
  }

  lemma HardwareIsNoOther(l: Line, kind: LineKind)
    requires l.Hardware? && Valid(l) && Rank(kind) < Rank(KindOf(l))
    ensures Pattern(kind, PrintLine(l)).None?
  {
    hide Pattern, InetUpdate, MatchInet6, MatchHwWith, PrintLine, Valid;
    FirstPatterns(PrintLine(l));
    HardwareIsNotInet(l);
    HardwareIsNotInet6(l);
    if l.addr.None? { QueueIsNotHwWith(l); }
  }

  lemma Ipv6IsNotInet(l: Line)
    requires l.Ipv6?
    ensures Pattern(InetLine, PrintLine(l)).None?
  {
    LitMiss("inet ", Text(l), 4);
    assert Leaves(Space, Text(l));
    hide InetUpdate, Lit, Text;
    KeywordMiss(Text(l));
  }

  /** No pattern that precedes a line's own in the chain matches the line. */
  lemma NoEarlierPattern(l: Line, kind: LineKind)
    requires Valid(l) && Rank(kind) < Rank(KindOf(l))
    ensures Pattern(kind, PrintLine(l)).None?
  {
    hide Pattern, PrintLine, Valid;
    match l
    case Ipv4(_, _, _, _) =>
    case Ipv6(_, _, _) => Ipv6IsNotInet(l);
    case Hardware(_, _, _, _) => HardwareIsNoOther(l, kind);
    case _ =>
      if Rank(kind) < 2 {
        KeywordedIsNoAddress(l, kind);
      } else if Rank(kind) < 4 {
        KeywordedIsNotHardware(l, kind);
      } else {
        KeywordedIsNoOther(l, kind);
      }
  }

  lemma QueueIsNotHwWith(l: Line)
    requires l.Hardware? && Valid(l) && l.addr.None?
    ensures MatchHwWith(PrintLine(l)).None?
  {
    var rest := N(l.queue) + (GAP + ("(" + (l.title + ")")));
    HardwareMiss(l.name, GAP, "txqueuelen", " ", rest);
  }

  lemma FirstMatch(line: string, kind: LineKind)
    requires Pattern(kind, line).Some?
    requires forall k :: Rank(k) < Rank(kind) ==> Pattern(k, line).None?
    ensures Dispatch(line) == Some(kind)
  {
    hide Pattern;
  }

  /** Dispatch is unambiguous: a printed line reaches the branch of its own kind, and that
      branch reads from it exactly what the line states. */
  lemma DispatchesToItsKind(l: Line)
    requires Valid(l)
    ensures Dispatch(PrintLine(l)) == Some(KindOf(l))
    ensures NewUpdate(PrintLine(l)) == Some(Meaning(l))
  {
    hide Pattern, PrintLine, Meaning, KindOf, Dispatch;
    forall kind | Rank(kind) < Rank(KindOf(l)) ensures Pattern(kind, PrintLine(l)).None? {
      NoEarlierPattern(l, kind);
    }
    OwnPattern(l);
    FirstMatch(PrintLine(l), KindOf(l));
  }
}
