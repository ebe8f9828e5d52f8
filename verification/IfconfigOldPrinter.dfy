/** What ifconfig prints in its old format, line by line, and what the parser makes of it:
    which lines reach the branch of their own kind and are read as they state (OldReadsIff). */
module IfconfigOldPrinter {
  import opened Wrappers
  import opened Numerals
  import opened Scanner
  import opened IfconfigOldFlags
  import opened IfconfigPatterns
  import opened IfconfigPrinter

  /** The lines ifconfig prints below the first line of a device; the two human texts are
      the rounded byte counts in parentheses, which the parser skips. */
  datatype OldLine =
    | InetAddr(inet: string, peer: Option<string>, broadcast: Option<string>, mask: Option<string>)
    | Inet6Addr(inet6: string, prefixlen: nat, scopeid: string)
    | FlagsAndMtu(flagsstr: string, mtu: nat, metric: nat, outfill: Option<(nat, nat)>)
    | RxCounters(packets: nat, errors: nat, dropped: nat, overruns: nat, frame: nat)
    | RxCompressedCounter(compressed: nat)
    | TxCounters(packets: nat, errors: nat, dropped: nat, overruns: nat, carrier: nat)
    | CollisionCounters(collisions: nat, txcompressed: Option<nat>, queue: Option<nat>)
    | ByteCounters(rxbytes: nat, rxhuman: string, txbytes: nat, txhuman: string)
    | HardwareResources(interrupt: Option<nat>, base: Option<nat>, memory: Option<(nat, nat)>,
                        dma: Option<nat>)

  /** The addresses and the words in a line have the shape their place demands. */
  ghost predicate Formed(l: OldLine) {
    match l
    case InetAddr(inet, peer, broadcast, mask) =>
      && IsIp4(inet) && (peer.Some? ==> IsIp4(peer.value))
      && (broadcast.Some? ==> IsIp4(broadcast.value)) && (mask.Some? ==> IsIp4(mask.value))
    case Inet6Addr(inet6, _, scopeid) => Token(inet6) && Token(scopeid)
    case _ => true
  }

  function LabelledText(prefix: string, ip: Option<string>, rest: string): string {
    if ip.Some? then GAP + (prefix + (ip.value + rest)) else rest
  }

  function MaskText(mask: Option<string>): string { LabelledText("Mask:", mask, "") }

  function BcastText(broadcast: Option<string>, mask: Option<string>): string {
    LabelledText("Bcast:", broadcast, MaskText(mask))
  }

  function PeersText(peer: Option<string>, broadcast: Option<string>, mask: Option<string>): string {
    LabelledText("P-t-P:", peer, BcastText(broadcast, mask))
  }

  function OutfillOldText(outfill: Option<(nat, nat)>): string {
    if outfill.None? then ""
    else GAP + ("Outfill:" + (N(outfill.value.0) + (GAP + ("Keepalive:" + N(outfill.value.1)))))
  }

  function MtuOldText(mtu: nat, metric: nat, outfill: Option<(nat, nat)>): string {
    "  MTU:" + (N(mtu) + (GAP + ("Metric:" + (N(metric) + OutfillOldText(outfill)))))
  }

  function CountersText(direction: string, last: string, packets: nat, errors: nat, dropped: nat,
                        overruns: nat, value: nat): string
  {
    (direction + " packets:") + (N(packets) + (" " + ("errors:" + (N(errors) + (" "
    + ("dropped:" + (N(dropped) + (" " + ("overruns:" + (N(overruns) + (" "
    + (last + N(value)))))))))))))
  }

  function QueueOldText(queue: Option<nat>): string {
    if queue.Some? then "txqueuelen:" + (N(queue.value) + " ") else ""
  }

  function CompressedText(compressed: Option<nat>, rest: string): string {
    if compressed.Some? then "compressed:" + (N(compressed.value) + (" " + rest)) else rest
  }

  function TxBytesText(txbytes: nat, txhuman: string): string {
    ")" + (GAP + ("TX bytes:" + (N(txbytes) + (" " + ("(" + (txhuman + ")"))))))
  }

  function DmaOldText(dma: Option<nat>): string {
    if dma.Some? then "DMA chan:" + (X(dma.value) + " ") else ""
  }

  function MemoryOldText(memory: Option<(nat, nat)>, rest: string): string {
    if memory.Some?
      then "Memory:" + (X(memory.value.0) + ("-" + (X(memory.value.1) + (" " + rest))))
    else rest
  }

  function BaseOldText(base: Option<nat>, rest: string): string {
    if base.Some? then "Base address:0x" + (X(base.value) + (" " + rest)) else rest
  }

  function InterruptOldText(interrupt: Option<nat>, rest: string): string {
    if interrupt.Some? then "Interrupt:" + (N(interrupt.value) + (" " + rest)) else rest
  }

  function PartsOldText(base: Option<nat>, memory: Option<(nat, nat)>, dma: Option<nat>): string {
    BaseOldText(base, MemoryOldText(memory, DmaOldText(dma)))
  }

  function OldText(l: OldLine): string {
    match l
    case InetAddr(inet, peer, broadcast, mask) =>
      "inet addr:" + (inet + PeersText(peer, broadcast, mask))
    case Inet6Addr(inet6, prefixlen, scopeid) =>
      "inet6 addr: " + (inet6 + ("/" + (N(prefixlen) + (" " + ("Scope:" + scopeid)))))
    case FlagsAndMtu(flagsstr, mtu, metric, outfill) => flagsstr + MtuOldText(mtu, metric, outfill)
    case RxCounters(packets, errors, dropped, overruns, frame) =>
      CountersText("RX", "frame:", packets, errors, dropped, overruns, frame)
    case RxCompressedCounter(compressed) => "compressed:" + N(compressed)
    case TxCounters(packets, errors, dropped, overruns, carrier) =>
      CountersText("TX", "carrier:", packets, errors, dropped, overruns, carrier)
    case CollisionCounters(collisions, txcompressed, queue) =>
      "collisions:" + (N(collisions) + (" " + CompressedText(txcompressed, QueueOldText(queue))))
    case ByteCounters(rxbytes, rxhuman, txbytes, txhuman) =>
      "RX bytes:" + (N(rxbytes) + (" " + ("(" + (rxhuman + TxBytesText(txbytes, txhuman)))))
    case HardwareResources(interrupt, base, memory, dma) =>
      InterruptOldText(interrupt, PartsOldText(base, memory, dma))
  }

  function PrintOldLine(l: OldLine): string { OLD_INDENT + OldText(l) }

  function KindOfOld(l: OldLine): OldKind {
    match l
    case InetAddr(_, _, _, _) => InetOld
    case Inet6Addr(_, _, _) => Inet6Old
    case FlagsAndMtu(_, _, _, _) => FlagsOld
    case RxCounters(_, _, _, _, _) => RxOld
    case RxCompressedCounter(_) => RxCompressedOld
    case TxCounters(_, _, _, _, _) => TxOld
    case CollisionCounters(_, _, _) => CollisionsOld
    case ByteCounters(_, _, _, _) => BytesOld
    case HardwareResources(_, _, _, _) => HardwareOld
  }

  function OfNum(n: Option<nat>): Option<Val> {
    if n.Some? then Some(Num(n.value)) else None
  }

  /** The attributes a line states. */
  function Statement(l: OldLine): Attrs {
    match l
    case InetAddr(inet, peer, broadcast, mask) =>
      map[INET := Str(inet)] + Maybe(DESTINATION, OfText(peer))
      + Maybe(BROADCAST, OfText(broadcast)) + Maybe(NETMASK, OfText(mask))
    case Inet6Addr(inet6, prefixlen, scopeid) =>
      map[INET6 := Str(inet6), PREFIX_LEN := Num(prefixlen), SCOPE_ID := Str(scopeid)]
    case FlagsAndMtu(flagsstr, mtu, metric, outfill) =>
      map[FLAGS_STR := Str(flagsstr), MTU := Num(mtu), METRIC := Num(metric)]
      + if outfill.Some? then map[OUTFILL := Num(outfill.value.0), KEEPALIVE := Num(outfill.value.1)]
        else map[]
    case RxCounters(packets, errors, dropped, overruns, frame) =>
      map[RX_PACKETS := Num(packets), RX_ERRORS := Num(errors), RX_DROPPED := Num(dropped),
          RX_OVERRUNS := Num(overruns), RX_FRAME := Num(frame)]
    case RxCompressedCounter(compressed) => map[RX_COMPRESSED := Num(compressed)]
    case TxCounters(packets, errors, dropped, overruns, carrier) =>
      map[TX_PACKETS := Num(packets), TX_ERRORS := Num(errors), TX_DROPPED := Num(dropped),
          TX_OVERRUNS := Num(overruns), TX_CARRIER := Num(carrier)]
    case CollisionCounters(collisions, txcompressed, queue) =>
      map[TX_COLLISIONS := Num(collisions)] + Maybe(TX_COMPRESSED, OfNum(txcompressed))
      + Maybe(TX_QUEUE_LEN, OfNum(queue))
    case ByteCounters(rxbytes, _, txbytes, _) =>
      map[RX_BYTES := Num(rxbytes), TX_BYTES := Num(txbytes)]
    case HardwareResources(interrupt, base, memory, dma) =>
      ResourceAttrs(interrupt, base, memory, dma)
  }

  /** What the last part of a bytes line is read as: the counter, unless the text in the last
      parentheses itself holds the end of one and the start of another. */
  function LastTx(txbytes: nat, txhuman: string): nat {
    match Greedy(txhuman + ")", MatchTxBytes)
    case None => txbytes
    case Some((_, n)) => n
  }

  /** The guards of the parser that decide whether a line is read as it states: flags are read
      without leading white space and unless they look like an address; byte counters unless
      an MTU, or another pair of counters, stands in their parentheses; and resources only
      behind an interrupt. */
  predicate Readable(l: OldLine) {
    match l
    case FlagsAndMtu(flagsstr, _, _, _) => Leaves(Space, flagsstr) && !AddressLike(flagsstr)
    case ByteCounters(_, _, txbytes, txhuman) =>
      FlagsOldUpdate(PrintOldLine(l)).None? && LastTx(txbytes, txhuman) == txbytes
    case HardwareResources(interrupt, base, memory, dma) =>
      interrupt.Some? || (base.None? && memory.None? && dma.None?)
    case _ => true
  }

  ghost predicate ValidOld(l: OldLine) {
    Formed(l) && (l.HardwareResources? || Readable(l))
  }

  // ---------------------------------------------------------------- each line is understood

  lemma OldIndented(text: string)
    requires Leaves(Space, text)
    ensures Ws(OLD_INDENT + text) == Some(text)
  {
    WsStep(OLD_INDENT, text);
  }

  lemma LabelledStep(prefix: string, ip: string, rest: string)
    requires IsIp4(ip) && Leaves(Digit, rest) && prefix != "" && Leaves(Space, prefix)
    ensures MatchLabelled(prefix, GAP + (prefix + (ip + rest))) == Some((ip, rest))
    ensures MatchLabelled(prefix, OLD_INDENT + (prefix + (ip + rest))) == Some((ip, rest))
  {
    GapStep(prefix + (ip + rest));
    OldIndented(prefix + (ip + rest));
    LitStep(prefix, ip + rest);
    Ip4Step(ip, rest);
  }

  lemma LabelledMiss(prefix: string, other: string, rest: string)
    requires prefix != "" && other != "" && Leaves(Space, other) && prefix[0] != other[0]
    ensures MatchLabelled(prefix, GAP + (other + rest)).None?
  {
    GapStep(other + rest);
    LitMiss(prefix, other + rest, 0);
  }

  lemma MaskStep(mask: Option<string>)
    requires mask.Some? ==> IsIp4(mask.value)
    ensures var s := MaskText(mask);
            && Leaves(Digit, s)
            && MatchLabelled("Bcast:", s).None? && MatchLabelled("P-t-P:", s).None?
            && MatchLabelled("Mask:", s) == if mask.Some? then Some((mask.value, "")) else None
  {
    if mask.Some? {
      LabelledStep("Mask:", mask.value, "");
      LabelledMiss("Bcast:", "Mask:", mask.value + "");
      LabelledMiss("P-t-P:", "Mask:", mask.value + "");
    }
  }

  lemma BcastStep(broadcast: Option<string>, mask: Option<string>)
    requires broadcast.Some? ==> IsIp4(broadcast.value)
    requires mask.Some? ==> IsIp4(mask.value)
    ensures var s := BcastText(broadcast, mask);
            && Leaves(Digit, s) && MatchLabelled("P-t-P:", s).None?
            && MatchLabelled("Bcast:", s)
               == if broadcast.Some? then Some((broadcast.value, MaskText(mask))) else None
  {
    MaskStep(mask);
    hide MaskText;
    if broadcast.Some? {
      LabelledStep("Bcast:", broadcast.value, MaskText(mask));
      LabelledMiss("P-t-P:", "Bcast:", broadcast.value + MaskText(mask));
    }
  }

  lemma PeersStep(peer: Option<string>, broadcast: Option<string>, mask: Option<string>)
    requires peer.Some? ==> IsIp4(peer.value)
    requires broadcast.Some? ==> IsIp4(broadcast.value)
    requires mask.Some? ==> IsIp4(mask.value)
    ensures var s := PeersText(peer, broadcast, mask);
            && Leaves(Digit, s)
            && MatchLabelled("P-t-P:", s)
               == if peer.Some? then Some((peer.value, BcastText(broadcast, mask))) else None
  {
    BcastStep(broadcast, mask);
    hide BcastText;
    if peer.Some? { LabelledStep("P-t-P:", peer.value, BcastText(broadcast, mask)); }
  }

  lemma InetAddrStep(l: OldLine)
    requires l.InetAddr? && Formed(l)
    ensures InetOldUpdate(PrintOldLine(l)) == Some(Statement(l))
  {
    PeersStep(l.peer, l.broadcast, l.mask);
    BcastStep(l.broadcast, l.mask);
    MaskStep(l.mask);
    LabelledStep("inet addr:", l.inet, PeersText(l.peer, l.broadcast, l.mask));
    LeftAlone(l.peer, l.broadcast, l.mask);
    hide MatchLabelled, PeersText, BcastText, MaskText, IsIp4;
  }

  /** A part that is missing leaves the text as it is. */
  lemma LeftAlone(peer: Option<string>, broadcast: Option<string>, mask: Option<string>)
    ensures peer.None? ==> PeersText(peer, broadcast, mask) == BcastText(broadcast, mask)
    ensures broadcast.None? ==> BcastText(broadcast, mask) == MaskText(mask)
  {
  }

  lemma ScopeStep(prefixlen: nat, scopeid: string)
    requires Token(scopeid)
    ensures MatchScope("/" + (N(prefixlen) + (" " + ("Scope:" + scopeid)))) == Some((prefixlen, scopeid))
  {
    var s3 := " " + ("Scope:" + scopeid);
    LitStep("/", N(prefixlen) + s3);
    NStep(prefixlen, s3);
    GapStep("Scope:" + scopeid);
    LitStep("Scope:", scopeid);
    assert scopeid + "" == scopeid;
    RunStep(NonSpace, scopeid, "");
  }

  lemma ScopeMiss(s: string)
    requires s == "" || s[0] != '/'
    ensures MatchScope(s).None?
  {
    LitMiss("/", s, 0);
  }

  lemma NumeralHasNoSlash(n: nat)
    ensures Without('/', N(n)) && All(NonSpace, N(n))
  {
    hide Numeral;
  }

  lemma AllBoth(cls: Class, s: string, t: string)
    requires All(cls, s) && All(cls, t)
    ensures All(cls, s + t)
  {
  }

  /** The address reaches to the last slash from which a prefix length and a scope follow. */
  lemma Inet6AddrStep(l: OldLine)
    requires l.Inet6Addr? && Formed(l)
    ensures MatchInet6Old(PrintOldLine(l)) == Some((l.inet6, l.prefixlen, l.scopeid))
  {
    var digits, rest := N(l.prefixlen), " " + ("Scope:" + l.scopeid);
    var tail := "/" + (digits + rest);
    OldIndented(OldText(l));
    LitStep("inet6 addr: ", l.inet6 + tail);
    NumeralHasNoSlash(l.prefixlen);
    ScopeStep(l.prefixlen, l.scopeid);
    SlashIsLast(l.inet6, digits, rest);
    hide MatchScope, N, All;
  }

  lemma SlashIsLast(word: string, digits: string, rest: string)
    requires Token(word) && Without('/', digits) && All(NonSpace, digits)
    requires rest != "" && rest[0] == ' ' && MatchScope("/" + (digits + rest)).Some?
    ensures var s := word + ("/" + (digits + rest));
            Backtrack(s, Span(NonSpace, s), 1, MatchScope)
              == Some((word, MatchScope("/" + (digits + rest)).value))
  {
    hide MatchScope;
    var tail := "/" + (digits + rest);
    var s := word + tail;
    AllBoth(NonSpace, "/", digits);
    AllBoth(NonSpace, word, "/" + digits);
    assert s == (word + ("/" + digits)) + rest;
    SpanStep(NonSpace, word + ("/" + digits), rest);
    var n := |word| + 1 + |digits|;
    forall q | |word| < q <= n ensures MatchScope(s[q..]).None? {
      assert s[q..][0] == if q < n then digits[q - |word| - 1] else ' ';
      ScopeMiss(s[q..]);
    }
    assert s[|word|..] == tail && s[..|word|] == word;
    BacktrackFindsLast(s, n, 1, |word|, MatchScope);
  }

  lemma OutfillOldStep(outfill: Option<(nat, nat)>)
    ensures MatchOutfillOld(OutfillOldText(outfill)) == outfill
    ensures Leaves(Digit, OutfillOldText(outfill))
  {
    hide Counter;
    if outfill.Some? {
      assert N(outfill.value.1) + "" == N(outfill.value.1);
      CounterStep(GAP, "Outfill:", outfill.value.0, GAP + ("Keepalive:" + N(outfill.value.1)));
      CounterStep(GAP, "Keepalive:", outfill.value.1, "");
    } else {
      NoCounter("Outfill:");
    }
  }

  lemma NoCounter(prefix: string)
    ensures Counter(prefix, "").None?
  {
  }

  lemma MtuOldStep(mtu: nat, metric: nat, outfill: Option<(nat, nat)>)
    ensures MatchMtuOld(MtuOldText(mtu, metric, outfill)) == Some((mtu, metric, OutfillOldText(outfill)))
  {
    hide Counter, OutfillOldText, Dec, N;
    OutfillOldStep(outfill);
    var s2 := GAP + ("Metric:" + (N(metric) + OutfillOldText(outfill)));
    LitStep("  MTU:", N(mtu) + s2);
    NStep(mtu, s2);
    CounterStep(GAP, "Metric:", metric, OutfillOldText(outfill));
  }

  // Texts in which no MTU can be found, for want of a capital U.

  predicate NoU(s: string) { Without('U', s) }

  lemma NoUConcat()
    ensures forall x: string, y: string {:trigger NoU(x + y)} :: NoU(x) && NoU(y) ==> NoU(x + y)
  {
  }

  lemma NoUNumber(n: nat)
    ensures NoU(N(n)) && NoU(X(n))
  {
    hide Numeral;
  }

  lemma MtuMissOld(s: string)
    requires |s| <= 4 || s[4] != 'U'
    ensures MatchMtuOld(s).None?
  {
    LitMiss("  MTU:", s, 4);
  }

  /** No MTU can be found behind the first `p` characters. */
  lemma TailMiss(s: string, p: nat)
    requires p <= |s| && forall i :: p + 4 <= i < |s| ==> s[i] != 'U'
    ensures MatchFlagsTail(s[p..]).None?
  {
    hide MatchMtuOld;
    var t := s[p..];
    forall q | 0 <= q <= |t| ensures MatchMtuOld(t[q..]).None? {
      assert q + 4 < |t| ==> t[q..][4] == s[p + q + 4];
      MtuMissOld(t[q..]);
    }
    BacktrackFails(t, |t|, 0, MatchMtuOld);
  }

  lemma NoMtu(line: string)
    requires NoU(line)
    ensures FlagsOldUpdate(line).None?
  {
    hide MatchFlagsTail;
    forall q | 0 <= q <= |line| ensures MatchFlagsTail(line[q..]).None? { TailMiss(line, q); }
    BacktrackFails(line, Span(Space, line), 1, MatchFlagsTail);
  }

  lemma OutfillOldPlain(outfill: Option<(nat, nat)>)
    ensures NoU(OutfillOldText(outfill))
  {
    NoUMtuWords();
    if outfill.Some? { NoUNumber(outfill.value.0); NoUNumber(outfill.value.1); }
    hide N, NoU;
    NoUConcat();
  }

  lemma MtuOldPlain(mtu: nat, metric: nat, outfill: Option<(nat, nat)>)
    ensures var s := MtuOldText(mtu, metric, outfill);
            |s| > 6 && s[..6] == "  MTU:" && NoU(s[6..])
  {
    var rest := N(mtu) + (GAP + ("Metric:" + (N(metric) + OutfillOldText(outfill))));
    assert MtuOldText(mtu, metric, outfill)[6..] == rest;
    NoUMtuWords();
    NoUNumber(mtu);
    NoUNumber(metric);
    OutfillOldPlain(outfill);
    hide N, NoU, OutfillOldText;
    NoUConcat();
  }

  lemma NoUMtuWords()
    ensures NoU(GAP) && NoU("") && NoU("Metric:") && NoU("Outfill:") && NoU("Keepalive:")
  {
  }

  /** The flags reach to the last MTU, also when there are none and the white space before
      them has to give two blanks back. */
  lemma FlagsEnd(indent: string, flagsstr: string, tail: string)
    requires indent != "" && All(Space, indent) && Leaves(Space, flagsstr)
    requires MatchMtuOld(tail).Some? && |tail| > 6 && tail[..6] == "  MTU:" && NoU(tail[6..])
    ensures MatchFlagsOld(indent + (flagsstr + tail))
         == var m := MatchMtuOld(tail).value; Some((flagsstr, m.0, m.1, m.2))
  {
    hide MatchMtuOld;
    var text := flagsstr + tail;
    var line, p := indent + text, |indent|;
    FlagsTail(flagsstr, tail);
    assert line[p..] == text && line[..p] == indent;
    if flagsstr != "" {
      SpanStep(Space, indent, text);
    } else {
      TailIndent(indent, tail);
      assert text == tail;
      forall q | p < q <= p + 2 ensures MatchFlagsTail(line[q..]).None? {
        assert line[q..] == tail[q - p..];
        TailBehind(tail, q - p);
      }
      hide MatchFlagsTail;
      BacktrackFindsLast(line, p + 2, 1, p, MatchFlagsTail);
    }
    hide MatchFlagsTail;
  }

  lemma TailStart(tail: string)
    requires |tail| > 6 && tail[..6] == "  MTU:"
    ensures tail == "  " + tail[2..] && tail[2..] != "" && tail[2..][0] == 'M'
  {
    assert tail[2] == tail[..6][2];
    assert tail[0] == tail[..6][0] && tail[1] == tail[..6][1];
  }

  lemma TailIndent(indent: string, tail: string)
    requires indent != "" && All(Space, indent) && |tail| > 6 && tail[..6] == "  MTU:"
    ensures Span(Space, indent + tail) == |indent| + 2
  {
    TailStart(tail);
    assert indent + ("  " + tail[2..]) == (indent + "  ") + tail[2..];
    SpanStep(Space, indent + "  ", tail[2..]);
    hide Span;
  }

  lemma TailBehind(tail: string, q: nat)
    requires |tail| > 6 && tail[..6] == "  MTU:" && NoU(tail[6..]) && 0 < q <= |tail|
    ensures MatchFlagsTail(tail[q..]).None?
  {
    forall i | q + 4 <= i < |tail| ensures tail[i] != 'U' {
      if i < 6 {
        assert tail[i] == tail[..6][i];
      } else {
        assert tail[i] == tail[6..][i - 6];
      }
    }
    TailMiss(tail, q);
  }

  lemma FlagsTail(flagsstr: string, tail: string)
    requires MatchMtuOld(tail).Some? && |tail| > 6 && tail[..6] == "  MTU:" && NoU(tail[6..])
    ensures MatchFlagsTail(flagsstr + tail) == Some((flagsstr, MatchMtuOld(tail).value))
  {
    hide MatchMtuOld;
    var s := flagsstr + tail;
    forall q | |flagsstr| < q <= |s| ensures MatchMtuOld(s[q..]).None? {
      var r := q - |flagsstr|;
      assert s[q..] == tail[r..];
      if r + 4 < |tail| {
        if r + 4 < 6 {
          assert tail[r + 4] == tail[..6][r + 4];
        } else {
          assert tail[r + 4] == tail[6..][r - 2];
        }
      }
      MtuMissOld(s[q..]);
    }
    assert s[|flagsstr|..] == tail && s[..|flagsstr|] == flagsstr;
    BacktrackFindsLast(s, |s|, 0, |flagsstr|, MatchMtuOld);
  }

  /** Every flags line is read by its pattern, without the white space at the start. */
  lemma FlagsStep(l: OldLine)
    requires l.FlagsAndMtu?
    ensures FlagsOldUpdate(PrintOldLine(l))
         == Some(Statement(l.(flagsstr := StripLeft(l.flagsstr))))
  {
    hide MatchMtuOld, MatchFlagsOld, MatchOutfillOld, MtuOldText, OutfillOldText, StripLeft;
    var tail := MtuOldText(l.mtu, l.metric, l.outfill);
    MtuOldStep(l.mtu, l.metric, l.outfill);
    MtuOldPlain(l.mtu, l.metric, l.outfill);
    var n := Span(Space, l.flagsstr);
    var lead, core := l.flagsstr[..n], l.flagsstr[n..];
    CoreStripped(l.flagsstr);
    assert OLD_INDENT + (l.flagsstr + tail) == (OLD_INDENT + lead) + (core + tail) by {
      assert l.flagsstr == lead + core;
    }
    FlagsEnd(OLD_INDENT + lead, core, tail);
    OutfillOldStep(l.outfill);
  }

  lemma CountersStep(direction: string, last: string, packets: nat, errors: nat, dropped: nat,
                     overruns: nat, value: nat)
    requires direction in ["RX", "TX"] && last in ["frame:", "carrier:"]
    ensures MatchCounters(direction, last,
              OLD_INDENT + CountersText(direction, last, packets, errors, dropped, overruns, value))
         == Some((packets, errors, dropped, overruns, value))
  {
    hide Counter;
    assert N(value) + "" == N(value);
    var s4 := " " + (last + N(value));
    var s3 := " " + ("overruns:" + (N(overruns) + s4));
    var s2 := " " + ("dropped:" + (N(dropped) + s3));
    var s1 := " " + ("errors:" + (N(errors) + s2));
    CounterStep(OLD_INDENT, direction + " packets:", packets, s1);
    CounterStep(" ", "errors:", errors, s2);
    CounterStep(" ", "dropped:", dropped, s3);
    CounterStep(" ", "overruns:", overruns, s4);
    CounterStep(" ", last, value, "");
  }

  lemma CompressedStep(compressed: nat)
    ensures MatchCompressedLine(OLD_INDENT + ("compressed:" + N(compressed))) == Some(compressed)
  {
    hide Counter;
    assert N(compressed) + "" == N(compressed);
    CounterStep(OLD_INDENT, "compressed:", compressed, "");
  }

  lemma QueueOldStep(queue: Option<nat>)
    ensures var s := QueueOldText(queue);
            Leaves(Space, s) && MatchQueueOld(s) == queue && MatchCompressed(s).None?
  {
    if queue.Some? {
      LitStep("txqueuelen:", N(queue.value) + " ");
      NStep(queue.value, " ");
    }
    LitMiss("compressed:", QueueOldText(queue), 0);
  }

  lemma CompressedPartStep(compressed: Option<nat>, rest: string)
    requires Leaves(Space, rest) && MatchCompressed(rest).None?
    ensures var s := CompressedText(compressed, rest);
            && Leaves(Space, s)
            && MatchCompressed(s) == if compressed.Some? then Some((compressed.value, rest)) else None
  {
    if compressed.Some? {
      LitStep("compressed:", N(compressed.value) + (" " + rest));
      NStep(compressed.value, " " + rest);
      GapStep(rest);
    }
  }

  lemma CollisionsStep(l: OldLine)
    requires l.CollisionCounters?
    ensures CollisionsUpdate(PrintOldLine(l)) == Some(Statement(l))
  {
    hide Counter, MatchCompressed, MatchQueueOld, QueueOldText;
    QueueOldStep(l.queue);
    CompressedPartStep(l.txcompressed, QueueOldText(l.queue));
    var s1 := CompressedText(l.txcompressed, QueueOldText(l.queue));
    CounterStep(OLD_INDENT, "collisions:", l.collisions, " " + s1);
    GapStep(s1);
    hide Ws;
  }

  lemma TxBytesStep(txbytes: nat, txhuman: string)
    ensures MatchTxBytes(TxBytesText(txbytes, txhuman)) == Some(txbytes)
  {
    hide Counter;
    var s3 := "(" + (txhuman + ")");
    LitStep(")", GAP + ("TX bytes:" + (N(txbytes) + (" " + s3))));
    CounterStep(GAP, "TX bytes:", txbytes, " " + s3);
    GapStep(s3);
    ParensStep(txhuman);
  }

  lemma TxBytesMiss(s: string)
    requires s == "" || s[0] != ')' || s == ")"
    ensures MatchTxBytes(s).None?
  {
    if s == ")" {
      assert s[1..] == "";
      NoCounter("TX bytes:");
    } else {
      LitMiss(")", s, 0);
    }
  }

  lemma NoParen(txbytes: nat, txhuman: string)
    requires Without(')', txhuman)
    ensures Without(')', GAP + ("TX bytes:" + (N(txbytes) + (" " + ("(" + txhuman)))))
  {
    assert Without(')', N(txbytes)) by { hide Numeral; }
    assert Without(')', GAP) && Without(')', "TX bytes:") && Without(')', " ") && Without(')', "(");
    hide Without, N;
    WithoutBoth(')', "(", txhuman);
    WithoutBoth(')', " ", "(" + txhuman);
    WithoutBoth(')', N(txbytes), " " + ("(" + txhuman));
    WithoutBoth(')', "TX bytes:", N(txbytes) + (" " + ("(" + txhuman)));
    WithoutBoth(')', GAP, "TX bytes:" + (N(txbytes) + (" " + ("(" + txhuman))));
  }

  /** The last place from which a repetition's continuation matches, if it lies in `t`. */
  lemma GreedyBehind<T>(s: string, t: string, k: string -> Option<T>)
    requires Greedy(t, k).Some?
    ensures Greedy(s + t, k) == Some((s + Greedy(t, k).value.0, Greedy(t, k).value.1))
  {
    GreedyFrom(s, t, |t|, k);
  }

  lemma {:induction false} GreedyFrom<T>(s: string, t: string, n: nat, k: string -> Option<T>)
    requires n <= |t| && Backtrack(t, n, 0, k).Some?
    ensures Backtrack(s + t, |s| + n, 0, k)
         == Some((s + Backtrack(t, n, 0, k).value.0, Backtrack(t, n, 0, k).value.1))
  {
    assert (s + t)[|s| + n..] == t[n..];
    assert (s + t)[..|s| + n] == s + t[..n];
    if k(t[n..]).None? { GreedyFrom(s, t, n - 1, k); }
  }

  /** If the continuation matches nowhere in `t`, it is at the start of `t`'s predecessor. */
  lemma {:induction false} GreedyNot<T>(t: string, n: nat, k: string -> Option<T>, q: nat)
    requires n <= |t| && Backtrack(t, n, 0, k).None? && q <= n
    ensures k(t[q..]).None?
  {
    if q < n { GreedyNot(t, n - 1, k, q); }
  }

  /** The text between the first closing parenthesis and the text in the second pair. */
  function TxHead(txbytes: nat): string {
    GAP + ("TX bytes:" + (N(txbytes) + (" " + "(")))
  }

  lemma TxHeadPlain(txbytes: nat)
    ensures Without(')', TxHead(txbytes))
  {
    NoParen(txbytes, "");
    assert "(" + "" == "(";
  }

  lemma TxBytesTextIs(txbytes: nat, txhuman: string)
    ensures TxBytesText(txbytes, txhuman) == (")" + TxHead(txbytes)) + (txhuman + ")")
  {
  }

  /** Which place the first parenthesis reaches to, and what the second counter is read as. */
  lemma BytesTail(rxhuman: string, txbytes: nat, txhuman: string)
    ensures var g := Greedy(rxhuman + TxBytesText(txbytes, txhuman), MatchTxBytes);
            g.Some? && g.value.1 == LastTx(txbytes, txhuman)
  {
    hide MatchTxBytes, TxBytesText, TxHead;
    var head, t := ")" + TxHead(txbytes), txhuman + ")";
    TxBytesTextIs(txbytes, txhuman);
    if Greedy(t, MatchTxBytes).Some? {
      GreedyBehind(rxhuman + head, t, MatchTxBytes);
      assert (rxhuman + head) + t == rxhuman + (head + t);
    } else {
      TxBytesStep(txbytes, txhuman);
      NoOtherPlace(rxhuman, head, t, txbytes);
      assert (rxhuman + (head + t))[|rxhuman|..] == head + t;
      BacktrackFindsLast(rxhuman + (head + t), |rxhuman + (head + t)|, 0, |rxhuman|, MatchTxBytes);
    }
  }

  lemma NoOtherPlace(rxhuman: string, head: string, t: string, txbytes: nat)
    requires head == ")" + TxHead(txbytes) && Greedy(t, MatchTxBytes).None?
    ensures forall q :: |rxhuman| < q <= |rxhuman + (head + t)| ==>
      MatchTxBytes((rxhuman + (head + t))[q..]).None?
  {
    hide MatchTxBytes;
    var s := rxhuman + (head + t);
    TxHeadPlain(txbytes);
    forall q | |rxhuman| < q <= |s| ensures MatchTxBytes(s[q..]).None? {
      var r := q - |rxhuman|;
      if r < |head| {
        assert s[q..][0] == TxHead(txbytes)[r - 1];
        TxBytesMiss(s[q..]);
      } else {
        assert s[q..] == t[r - |head|..];
        GreedyNot(t, |t|, MatchTxBytes, r - |head|);
      }
    }
  }

  /** Every bytes line matches its pattern, with both texts whatever they are. */
  lemma BytesStep(l: OldLine)
    requires l.ByteCounters?
    ensures MatchBytesOld(PrintOldLine(l)) == Some((l.rxbytes, LastTx(l.txbytes, l.txhuman)))
  {
    hide Counter, MatchTxBytes, TxBytesText, Greedy, LastTx;
    var s3 := l.rxhuman + TxBytesText(l.txbytes, l.txhuman);
    CounterStep(OLD_INDENT, "RX bytes:", l.rxbytes, " " + ("(" + s3));
    GapStep("(" + s3);
    LitStep("(", s3);
    BytesTail(l.rxhuman, l.txbytes, l.txhuman);
    hide Ws, Lit;
  }

  lemma SkipStep(rest: string)
    requires Leaves(Space, rest)
    ensures SkipSpace(" " + rest) == rest
  {
    SpanStep(Space, " ", rest);
  }

  lemma DmaOldStep(dma: Option<nat>)
    ensures var s := DmaOldText(dma);
            && StartsIn(s, "D") && MatchDmaOld(s) == dma
            && MatchMemoryOld(s).None? && MatchBaseOld(s).None?
  {
    if dma.Some? {
      LitStep("DMA chan:", X(dma.value) + " ");
      XStep(dma.value, " ");
    }
    LitMiss("Memory:", DmaOldText(dma), 0);
    LitMiss("Base address:0x", DmaOldText(dma), 0);
  }

  lemma MemoryOldStep(memory: Option<(nat, nat)>, rest: string)
    requires StartsIn(rest, "D") && MatchMemoryOld(rest).None?
    ensures var s := MemoryOldText(memory, rest);
            && StartsIn(s, "DM")
            && MatchMemoryOld(s)
               == if memory.Some? then Some((memory.value.0, memory.value.1, rest)) else None
  {
    if memory.Some? {
      var s3 := X(memory.value.1) + (" " + rest);
      LitStep("Memory:", X(memory.value.0) + ("-" + s3));
      XStep(memory.value.0, "-" + s3);
      LitStep("-", s3);
      XStep(memory.value.1, " " + rest);
      SkipStep(rest);
    }
  }

  lemma BaseOldStep(base: Option<nat>, rest: string)
    requires StartsIn(rest, "DM")
    ensures var s := BaseOldText(base, rest);
            && StartsIn(s, "BDM")
            && MatchBaseOld(s) == if base.Some? then Some((base.value, rest)) else None
  {
    if base.Some? {
      LitStep("Base address:0x", X(base.value) + (" " + rest));
      XStep(base.value, " " + rest);
      SkipStep(rest);
    } else {
      LitMiss("Base address:0x", rest, 0);
    }
  }

  lemma InterruptOldStep(interrupt: nat, rest: string)
    requires StartsIn(rest, "BDM")
    ensures MatchInterruptOld(OLD_INDENT + InterruptOldText(Some(interrupt), rest)) == Some((interrupt, rest))
  {
    hide Counter;
    CounterStep(OLD_INDENT, "Interrupt:", interrupt, " " + rest);
    SkipStep(rest);
  }

  lemma AfterInterrupt(l: OldLine)
    requires l.HardwareResources? && l.interrupt.Some?
    ensures HardwareOldUpdate(PrintOldLine(l)) == Statement(l)
  {
    hide MatchInterruptOld, MatchBaseOld, MatchMemoryOld, MatchDmaOld, ResourceAttrs,
         InterruptOldText, StartsIn;
    var s3 := DmaOldText(l.dma);
    var s2 := MemoryOldText(l.memory, s3);
    DmaOldStep(l.dma);
    MemoryOldStep(l.memory, s3);
    BaseOldStep(l.base, s2);
    InterruptOldStep(l.interrupt.value, BaseOldText(l.base, s2));
    hide DmaOldText;
  }

  /** On an indented line without an interrupt the parser reads nothing: the patterns for the
      other resources do not allow for white space in front of them. */
  lemma IndentedReadsNothing(line: string)
    requires line != "" && In(Space, line[0]) && MatchInterruptOld(line).None?
    ensures HardwareOldUpdate(line) == map[]
  {
    hide MatchInterruptOld;
    LitMiss("Base address:0x", line, 0);
    LitMiss("Memory:", line, 0);
    LitMiss("DMA chan:", line, 0);
  }

  lemma NoInterrupt(l: OldLine)
    requires l.HardwareResources? && l.interrupt.None?
    ensures MatchInterruptOld(PrintOldLine(l)).None?
  {
    var s := OldText(l);
    DmaOldStep(l.dma);
    MemoryOldStep(l.memory, DmaOldText(l.dma));
    BaseOldStep(l.base, MemoryOldText(l.memory, DmaOldText(l.dma)));
    hide DmaOldText, MemoryOldText, BaseOldText;
    OldIndented(s);
    LitMiss("Interrupt:", s, 0);
  }

  /** The attributes the parser reads from a line. */
  function ReadFrom(l: OldLine): Attrs {
    if l.HardwareResources? && l.interrupt.None? then map[] else Statement(l)
  }

  /** A hardware line is read as it states exactly if it has an interrupt, or states nothing
      at all. */
  lemma HardwareReadsIff(l: OldLine)
    requires l.HardwareResources?
    ensures HardwareOldUpdate(PrintOldLine(l)) == ReadFrom(l)
    ensures HardwareOldUpdate(PrintOldLine(l)) == Statement(l)
       <==> l.interrupt.Some? || (l.base.None? && l.memory.None? && l.dma.None?)
  {
    if l.interrupt.Some? {
      AfterInterrupt(l);
    } else {
      NoInterrupt(l);
      IndentedReadsNothing(PrintOldLine(l));
      StatesNothingIff(l);
    }
    hide HardwareOldUpdate, Statement;
  }

  lemma StatesNothingIff(l: OldLine)
    requires l.HardwareResources? && l.interrupt.None?
    ensures Statement(l) == map[] <==> l.base.None? && l.memory.None? && l.dma.None?
  {
    var m := Statement(l);
    if l.base.Some? { assert BASE_ADDR in m; }
    if l.memory.Some? { assert MEM_END in m; }
    if l.dma.Some? { assert DMA in m; }
  }

  // ------------------------------------------------------------ and by no earlier pattern

  /** The place of a pattern in the chain. */
  function OldRank(kind: OldKind): nat {
    match kind
    case InetOld => 0
    case Inet6Old => 1
    case FlagsOld => 2
    case RxOld => 3
    case RxCompressedOld => 4
    case TxOld => 5
    case CollisionsOld => 6
    case BytesOld => 7
    case HardwareOld => 8
  }

  /** A pattern that starts with a literal fails on another text. */
  lemma OldKeywordMiss(text: string)
    requires Leaves(Space, text)
    ensures Lit("inet addr:", text).None? ==> InetOldUpdate(OLD_INDENT + text).None?
    ensures Lit("inet6 addr: ", text).None? ==> MatchInet6Old(OLD_INDENT + text).None?
    ensures forall prefix: string ::
      Lit(prefix, text).None? ==> Counter(prefix, OLD_INDENT + text).None?
  {
    OldIndented(text);
  }

  lemma NoUCounterWords()
    ensures NoU("") && NoU(" ") && NoU(OLD_INDENT) && NoU("errors:") && NoU("dropped:")
    ensures NoU("overruns:") && NoU("frame:") && NoU("carrier:")
    ensures NoU("RX") && NoU("TX") && NoU(" packets:")
  {
  }

  lemma NoUOtherWords()
    ensures NoU("") && NoU(" ") && NoU(OLD_INDENT) && NoU(GAP) && NoU("compressed:")
    ensures NoU("collisions:") && NoU("txqueuelen:") && NoU("RX bytes:") && NoU("TX bytes:")
    ensures NoU("(") && NoU(")")
  {
  }

  lemma NoUHardwareWords()
    ensures NoU("") && NoU(" ") && NoU(OLD_INDENT) && NoU("-") && NoU("Interrupt:")
    ensures NoU("Base address:0x") && NoU("Memory:") && NoU("DMA chan:")
  {
  }

  lemma NoUPart(gap: string, word: string, n: nat, rest: string)
    requires NoU(gap) && NoU(word) && NoU(rest)
    ensures NoU(gap + (word + (N(n) + rest)))
  {
    NoUNumber(n);
    hide N, NoU;
    NoUConcat();
  }

  lemma NoUCounters(direction: string, last: string, packets: nat, errors: nat, dropped: nat,
                    overruns: nat, value: nat)
    requires direction in ["RX", "TX"] && last in ["frame:", "carrier:"]
    ensures NoU(OLD_INDENT + CountersText(direction, last, packets, errors, dropped, overruns, value))
  {
    NoUCounterWords();
    assert NoU(direction + " packets:");
    hide N, NoU;
    assert N(value) + "" == N(value);
    var s4 := " " + (last + N(value));
    var s3 := " " + ("overruns:" + (N(overruns) + s4));
    var s2 := " " + ("dropped:" + (N(dropped) + s3));
    var s1 := " " + ("errors:" + (N(errors) + s2));
    NoUPart(" ", last, value, "");
    NoUPart(" ", "overruns:", overruns, s4);
    NoUPart(" ", "dropped:", dropped, s3);
    NoUPart(" ", "errors:", errors, s2);
    NoUPart(OLD_INDENT, direction + " packets:", packets, s1);
  }

  lemma NoUCollisions(l: OldLine)
    requires l.CollisionCounters? || l.RxCompressedCounter?
    ensures NoU(PrintOldLine(l))
  {
    NoUOtherWords();
    if l.CollisionCounters? {
      NoUNumber(l.collisions);
      if l.txcompressed.Some? { NoUNumber(l.txcompressed.value); }
      if l.queue.Some? { NoUNumber(l.queue.value); }
      hide N, NoU;
      NoUConcat();
      assert NoU(QueueOldText(l.queue));
    } else {
      NoUNumber(l.compressed);
      hide N, NoU;
      NoUConcat();
    }
  }

  /** Byte texts without a capital U and without a closing parenthesis are read. */
  lemma PlainBytesAreReadable(l: OldLine)
    requires l.ByteCounters? && NoU(l.rxhuman) && NoU(l.txhuman) && Without(')', l.txhuman)
    ensures Readable(l)
  {
    NoUOtherWords();
    NoUNumber(l.rxbytes);
    NoUNumber(l.txbytes);
    hide N, NoU, FlagsOldUpdate, LastTx;
    NoUConcat();
    assert NoU(TxBytesText(l.txbytes, l.txhuman));
    NoMtu(PrintOldLine(l));
    PlainTx(l.txbytes, l.txhuman);
  }

  lemma PlainTx(txbytes: nat, txhuman: string)
    requires Without(')', txhuman)
    ensures LastTx(txbytes, txhuman) == txbytes
  {
    hide MatchTxBytes;
    var t := txhuman + ")";
    forall q | 0 <= q <= |t| ensures MatchTxBytes(t[q..]).None? {
      if q == |txhuman| { assert t[q..] == ")"; }
      TxBytesMiss(t[q..]);
    }
    BacktrackFails(t, |t|, 0, MatchTxBytes);
  }

  /** A text in parentheses that does hold another counter hides the real one. */
  lemma TxTextTaken(n: nat, txbytes: nat)
    ensures LastTx(txbytes, ")" + TxHead(n)) == n
  {
    hide MatchTxBytes, TxHead;
    TxBytesTextIs(n, "");
    assert (")" + TxHead(n)) + ("" + ")") == (")" + TxHead(n)) + ")";
    TxBytesStep(n, "");
    PlainTx(n, "");
    BytesTail("", n, "");
    assert "" + TxBytesText(n, "") == TxBytesText(n, "");
  }

  lemma NoUDma(dma: Option<nat>)
    ensures NoU(DmaOldText(dma))
  {
    NoUHardwareWords();
    if dma.Some? { NoUNumber(dma.value); }
    hide X, NoU;
    NoUConcat();
  }

  lemma NoUMemory(memory: Option<(nat, nat)>, rest: string)
    requires NoU(rest)
    ensures NoU(MemoryOldText(memory, rest))
  {
    NoUHardwareWords();
    if memory.Some? { NoUNumber(memory.value.0); NoUNumber(memory.value.1); }
    hide X, NoU;
    NoUConcat();
  }

  lemma NoUParts(base: Option<nat>, memory: Option<(nat, nat)>, dma: Option<nat>)
    ensures NoU(PartsOldText(base, memory, dma))
  {
    NoUDma(dma);
    NoUMemory(memory, DmaOldText(dma));
    NoUHardwareWords();
    if base.Some? { NoUNumber(base.value); }
    hide X, NoU, MemoryOldText, DmaOldText;
    NoUConcat();
  }

  lemma NoUHardware(l: OldLine)
    requires l.HardwareResources?
    ensures NoU(PrintOldLine(l))
  {
    NoUHardwareWords();
    NoUParts(l.base, l.memory, l.dma);
    if l.interrupt.Some? { NoUNumber(l.interrupt.value); }
    hide N, NoU, PartsOldText;
    NoUConcat();
    assert NoU(InterruptOldText(l.interrupt, PartsOldText(l.base, l.memory, l.dma)));
    hide InterruptOldText;
  }

  /** The lines that come after the one with the MTU in the chain. */
  predicate Later(l: OldLine) { !l.InetAddr? && !l.Inet6Addr? && !l.FlagsAndMtu? }

  lemma LaterHasNoMtu(l: OldLine)
    requires Later(l) && (l.ByteCounters? ==> Readable(l))
    ensures FlagsOldUpdate(PrintOldLine(l)).None?
  {
    hide PrintOldLine, FlagsOldUpdate, NoU, LastTx;
    if !l.ByteCounters? {
      LaterHasNoU(l);
      NoMtu(PrintOldLine(l));
    }
  }

  lemma LaterHasNoU(l: OldLine)
    requires Later(l) && !l.ByteCounters?
    ensures NoU(PrintOldLine(l))
  {
    hide PrintOldLine, NoU;
    match l
    case RxCounters(packets, errors, dropped, overruns, frame) =>
      NoUCounters("RX", "frame:", packets, errors, dropped, overruns, frame);
      RxTextIs(l);
    case TxCounters(packets, errors, dropped, overruns, carrier) =>
      NoUCounters("TX", "carrier:", packets, errors, dropped, overruns, carrier);
      RxTextIs(l);
    case RxCompressedCounter(_) => NoUCollisions(l);
    case CollisionCounters(_, _, _) => NoUCollisions(l);
    case HardwareResources(_, _, _, _) => NoUHardware(l);
  }

  lemma RxTextIs(l: OldLine)
    ensures match l
      case RxCounters(packets, errors, dropped, overruns, frame) =>
        PrintOldLine(l)
        == OLD_INDENT + CountersText("RX", "frame:", packets, errors, dropped, overruns, frame)
      case TxCounters(packets, errors, dropped, overruns, carrier) =>
        PrintOldLine(l)
        == OLD_INDENT + CountersText("TX", "carrier:", packets, errors, dropped, overruns, carrier)
      case _ => true
  {
  }

  lemma HardwareStart(l: OldLine)
    requires l.HardwareResources?
    ensures StartsIn(OldText(l), "IBMD")
  {
  }

  lemma CounterTexts(l: OldLine)
    requires l.RxCounters? || l.TxCounters? || l.ByteCounters?
    ensures var s := OldText(l);
            && |s| > 3 && s[0] == (if l.TxCounters? then 'T' else 'R')
            && s[3] == (if l.ByteCounters? then 'b' else 'p')
  {
  }

  lemma PacketTexts(l: OldLine)
    requires l.RxCompressedCounter? || l.CollisionCounters?
    ensures var s := OldText(l);
            |s| > 2 && s[0] == 'c' && s[2] == (if l.RxCompressedCounter? then 'm' else 'l')
  {
  }

  /** The texts of the later lines differ from the keywords of the patterns before them. */
  lemma OldKeywordTexts(l: OldLine)
    requires Later(l)
    ensures Leaves(Space, OldText(l))
    ensures Lit("inet addr:", OldText(l)).None? && Lit("inet6 addr: ", OldText(l)).None?
    ensures l.RxCounters? || Lit("RX packets:", OldText(l)).None?
    ensures l.RxCompressedCounter? || Lit("compressed:", OldText(l)).None?
    ensures l.TxCounters? || Lit("TX packets:", OldText(l)).None?
    ensures l.CollisionCounters? || Lit("collisions:", OldText(l)).None?
    ensures l.ByteCounters? || Lit("RX bytes:", OldText(l)).None?
  {
    hide OldText;
    if l.HardwareResources? {
      HardwareStart(l);
    } else if l.RxCompressedCounter? || l.CollisionCounters? {
      PacketTexts(l);
    } else {
      CounterTexts(l);
    }
  }

  lemma FlagsAreNoAddress(l: OldLine)
    requires l.FlagsAndMtu?
    ensures InetOldUpdate(PrintOldLine(l)).Some? <==> InetOldUpdate(OLD_INDENT + l.flagsstr).Some?
    ensures MatchInet6Old(PrintOldLine(l)).Some? <==> MatchInet6Old(OLD_INDENT + l.flagsstr).Some?
  {
    hide InetOldUpdate, MatchInet6Old;
    var tail := MtuOldText(l.mtu, l.metric, l.outfill);
    assert MtuTail(tail);
    hide MtuOldText;
    AddressLikeIff(l.flagsstr, tail);
  }

  lemma Inet6IsNotInet(l: OldLine)
    requires l.Inet6Addr?
    ensures InetOldUpdate(PrintOldLine(l)).None?
  {
    LitMiss("inet addr:", OldText(l), 4);
    hide Lit;
    OldKeywordMiss(OldText(l));
  }

  lemma LaterIsNoAddress(l: OldLine, kind: OldKind)
    requires Later(l) && (l.ByteCounters? ==> Readable(l)) && OldRank(kind) < 3
    ensures PatternOld(kind, PrintOldLine(l)).None?
  {
    OldKeywordTexts(l);
    hide InetOldUpdate, MatchInet6Old, FlagsOldUpdate, OldText, Lit, Counter;
    LaterHasNoMtu(l);
    OldKeywordMiss(OldText(l));
  }

  /** The text with which a pattern from the middle of the chain starts. */
  function OldKeyword(kind: OldKind): string {
    match kind
    case RxOld => "RX packets:"
    case RxCompressedOld => "compressed:"
    case TxOld => "TX packets:"
    case CollisionsOld => "collisions:"
    case BytesOld => "RX bytes:"
    case _ => ""
  }

  lemma PatternNeedsOldKeyword(kind: OldKind, line: string)
    requires 3 <= OldRank(kind) < 8 && Counter(OldKeyword(kind), line).None?
    ensures PatternOld(kind, line).None?
  {
    assert "RX" + " packets:" == "RX packets:" && "TX" + " packets:" == "TX packets:";
    hide Counter;
  }

  lemma LaterIsNoOther(l: OldLine, kind: OldKind)
    requires Later(l) && 3 <= OldRank(kind) < OldRank(KindOfOld(l))
    ensures PatternOld(kind, PrintOldLine(l)).None?
  {
    hide PatternOld, OldText, Counter, Lit, InetOldUpdate, MatchInet6Old;
    OldKeywordTexts(l);
    OldKeywordMiss(OldText(l));
    PatternNeedsOldKeyword(kind, PrintOldLine(l));
  }

  /** No pattern that precedes a line's own in the chain matches the line. */
  lemma NoEarlierOld(l: OldLine, kind: OldKind)
    requires ValidOld(l) && OldRank(kind) < OldRank(KindOfOld(l))
    ensures PatternOld(kind, PrintOldLine(l)).None?
  {
    hide InetOldUpdate, MatchInet6Old, FlagsOldUpdate, Formed, OldText, LastTx;
    match l
    case InetAddr(_, _, _, _) =>
    case Inet6Addr(_, _, _) => Inet6IsNotInet(l);
    case FlagsAndMtu(_, _, _, _) => FlagsAreNoAddress(l);
    case _ =>
      hide PatternOld, PrintOldLine;
      if OldRank(kind) < 3 { LaterIsNoAddress(l, kind); } else { LaterIsNoOther(l, kind); }
  }

  lemma OwnOld(l: OldLine)
    requires Formed(l) && (l.ByteCounters? || l.FlagsAndMtu? ==> Readable(l))
    ensures PatternOld(KindOfOld(l), PrintOldLine(l)) == Some(ReadFrom(l))
  {
    hide Formed, CountersText, InetOldUpdate, MatchInet6Old, FlagsOldUpdate, MatchCounters,
         MatchCompressedLine, CollisionsUpdate, MatchBytesOld, HardwareOldUpdate, AddressLike, LastTx;
    match l
    case InetAddr(_, _, _, _) => InetAddrStep(l);
    case Inet6Addr(_, _, _) => Inet6AddrStep(l);
    case FlagsAndMtu(_, _, _, _) => FlagsStep(l);
    case RxCounters(packets, errors, dropped, overruns, frame) =>
      CountersStep("RX", "frame:", packets, errors, dropped, overruns, frame);
    case RxCompressedCounter(compressed) => CompressedStep(compressed);
    case TxCounters(packets, errors, dropped, overruns, carrier) =>
      CountersStep("TX", "carrier:", packets, errors, dropped, overruns, carrier);
    case CollisionCounters(_, _, _) => CollisionsStep(l);
    case ByteCounters(_, _, _, _) => BytesStep(l);
    case HardwareResources(_, _, _, _) => HardwareReadsIff(l);
  }

  lemma FirstMatchOld(line: string, kind: OldKind)
    requires PatternOld(kind, line).Some?
    requires forall k :: OldRank(k) < OldRank(kind) ==> PatternOld(k, line).None?
    ensures DispatchOld(line) == kind
  {
    hide PatternOld;
  }

  /** A line whose guards hold reaches the branch of its own kind, and a line of resources
      always does. */
  lemma DispatchesToItsOldKind(l: OldLine)
    requires ValidOld(l)
    ensures DispatchOld(PrintOldLine(l)) == KindOfOld(l)
    ensures OldUpdate(PrintOldLine(l)) == ReadFrom(l)
  {
    hide PatternOld, PrintOldLine, ReadFrom, KindOfOld, DispatchOld, Formed, AddressLike, LastTx;
    forall kind | OldRank(kind) < OldRank(KindOfOld(l))
      ensures PatternOld(kind, PrintOldLine(l)).None?
    {
      NoEarlierOld(l, kind);
    }
    OwnOld(l);
    FirstMatchOld(PrintOldLine(l), KindOfOld(l));
  }

  // ---------------------------------------------------------------- the exact condition

  /** Flags that look like an address are read as one. */
  lemma AddressIsTaken(l: OldLine)
    requires l.FlagsAndMtu? && AddressLike(l.flagsstr)
    ensures OldUpdate(PrintOldLine(l)) != Statement(l)
  {
    hide InetOldUpdate, MatchInet6Old, FlagsOldUpdate, PrintOldLine;
    FlagsAreNoAddress(l);
    InetAssigns(PrintOldLine(l));
    var update := OldUpdate(PrintOldLine(l));
    assert INET in update || INET6 in update;
    assert INET !in Statement(l) && INET6 !in Statement(l);
  }

  lemma InetAssigns(line: string)
    ensures InetOldUpdate(line).Some? ==> INET in InetOldUpdate(line).value
  {
    hide MatchLabelled;
  }

  lemma LeadingSpaceIsLost(l: OldLine)
    requires l.FlagsAndMtu? && !AddressLike(l.flagsstr) && !Leaves(Space, l.flagsstr)
    ensures OldUpdate(PrintOldLine(l)) != Statement(l)
  {
    hide InetOldUpdate, MatchInet6Old, FlagsOldUpdate, PrintOldLine;
    FlagsAreNoAddress(l);
    FlagsStep(l);
    CoreStripped(l.flagsstr);
    var read := Statement(l.(flagsstr := StripLeft(l.flagsstr)));
    assert read[FLAGS_STR] != Statement(l)[FLAGS_STR];
  }

  lemma MtuIsTaken(l: OldLine)
    requires l.ByteCounters? && FlagsOldUpdate(PrintOldLine(l)).Some?
    ensures OldUpdate(PrintOldLine(l)) != Statement(l)
  {
    hide InetOldUpdate, MatchInet6Old, PrintOldLine, MatchFlagsOld, MatchOutfillOld;
    FlagsAssign(PrintOldLine(l));
    InetAssigns(PrintOldLine(l));
    var update := OldUpdate(PrintOldLine(l));
    assert INET in update || INET6 in update || FLAGS_STR in update;
    assert INET !in Statement(l) && INET6 !in Statement(l) && FLAGS_STR !in Statement(l);
  }

  lemma FlagsAssign(line: string)
    ensures FlagsOldUpdate(line).Some? ==> FLAGS_STR in FlagsOldUpdate(line).value
  {
    hide MatchFlagsOld, MatchOutfillOld;
  }

  lemma BytesPatternIs(line: string, rxbytes: nat, txbytes: nat)
    requires MatchBytesOld(line) == Some((rxbytes, txbytes))
    ensures PatternOld(BytesOld, line)
         == Some(map[RX_BYTES := Num(rxbytes), TX_BYTES := Num(txbytes)])
  {
    hide MatchBytesOld;
  }

  lemma BytesPattern(l: OldLine)
    requires l.ByteCounters?
    ensures PatternOld(BytesOld, PrintOldLine(l))
         == Some(map[RX_BYTES := Num(l.rxbytes), TX_BYTES := Num(LastTx(l.txbytes, l.txhuman))])
  {
    hide *;
    BytesStep(l);
    BytesPatternIs(PrintOldLine(l), l.rxbytes, LastTx(l.txbytes, l.txhuman));
  }

  lemma BytesUpdate(l: OldLine)
    requires l.ByteCounters? && FlagsOldUpdate(PrintOldLine(l)).None?
    ensures OldUpdate(PrintOldLine(l))
         == map[RX_BYTES := Num(l.rxbytes), TX_BYTES := Num(LastTx(l.txbytes, l.txhuman))]
  {
    hide FlagsOldUpdate, LastTx, PrintOldLine, PatternOld, DispatchOld;
    BytesPattern(l);
    forall kind | OldRank(kind) < OldRank(BytesOld) ensures PatternOld(kind, PrintOldLine(l)).None? {
      BytesIsNoOther(l, kind);
    }
    FirstMatchOld(PrintOldLine(l), BytesOld);
  }

  lemma OtherTxIsTaken(l: OldLine)
    requires l.ByteCounters? && FlagsOldUpdate(PrintOldLine(l)).None?
    requires LastTx(l.txbytes, l.txhuman) != l.txbytes
    ensures OldUpdate(PrintOldLine(l)) != Statement(l)
  {
    hide FlagsOldUpdate, LastTx, PrintOldLine, OldUpdate;
    BytesUpdate(l);
    assert OldUpdate(PrintOldLine(l))[TX_BYTES] != Statement(l)[TX_BYTES];
  }

  lemma BytesIsNoOther(l: OldLine, kind: OldKind)
    requires l.ByteCounters? && FlagsOldUpdate(PrintOldLine(l)).None?
    requires OldRank(kind) < OldRank(BytesOld)
    ensures PatternOld(kind, PrintOldLine(l)).None?
  {
    hide PatternOld, FlagsOldUpdate, PrintOldLine;
    if kind == FlagsOld {
      FlagsPattern(PrintOldLine(l));
    } else if OldRank(kind) < 3 {
      BytesIsNoAddress(l, kind);
    } else {
      LaterIsNoOther(l, kind);
    }
  }

  lemma FlagsPattern(line: string)
    ensures PatternOld(FlagsOld, line) == FlagsOldUpdate(line)
  {
  }

  lemma BytesIsNoAddress(l: OldLine, kind: OldKind)
    requires l.ByteCounters? && OldRank(kind) < 2
    ensures PatternOld(kind, PrintOldLine(l)).None?
  {
    OldKeywordTexts(l);
    hide InetOldUpdate, MatchInet6Old, OldText, Lit, Counter;
    OldKeywordMiss(OldText(l));
  }

  /** The old format, exactly: a line is read as it states if and only if its guards hold. */
  lemma OldReadsIff(l: OldLine)
    requires Formed(l)
    ensures OldUpdate(PrintOldLine(l)) == Statement(l) <==> Readable(l)
  {
    hide OldUpdate, PrintOldLine, Statement, Formed, AddressLike, LastTx, FlagsOldUpdate;
    if Readable(l) || l.HardwareResources? {
      DispatchesToItsOldKind(l);
      if l.HardwareResources? { HardwareReadsIff(l); }
    } else if l.FlagsAndMtu? {
      if AddressLike(l.flagsstr) { AddressIsTaken(l); } else { LeadingSpaceIsLost(l); }
    } else {
      if FlagsOldUpdate(PrintOldLine(l)).Some? { MtuIsTaken(l); } else { OtherTxIsTaken(l); }
    }
  }

  /** Flag strings that are taken for an address. */
  lemma AddressLikeFlags(ip: string)
    requires IsIp4(ip)
    ensures AddressLike("inet addr:" + ip)
  {
    LabelledStep("inet addr:", ip, "");
    assert ip + "" == ip;
    hide MatchLabelled, MatchInet6Old, IsIp4;
  }
}
