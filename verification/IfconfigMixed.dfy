/** The round trip on whole texts in which every device is printed in either format. */
module IfconfigMixed {
  import opened Wrappers
  import opened Numerals
  import opened Scanner
  import opened IfconfigParser
  import opened IfconfigPrinter
  import opened IfconfigRoundTrip
  import opened IfconfigText
  import opened IfconfigOldPrinter
  import opened IfconfigFormats
  import opened IfconfigOldFlags

  // -------------------------------------------------- no line break in an old-format line

  predicate CleanOldLine(l: OldLine) {
    match l
    case FlagsAndMtu(flagsstr, _, _, _) => Clean(flagsstr)
    case ByteCounters(_, rxhuman, _, txhuman) => Clean(rxhuman) && Clean(txhuman)
    case _ => true
  }

  lemma CleanAddressWords()
    ensures Clean("") && Clean(OLD_INDENT) && Clean(GAP) && Clean(" ") && Clean("/")
    ensures Clean("inet addr:") && Clean("P-t-P:") && Clean("Bcast:") && Clean("Mask:")
    ensures Clean("inet6 addr: ") && Clean("Scope:")
    ensures Clean("  MTU:") && Clean("Metric:") && Clean("Outfill:") && Clean("Keepalive:")
  {
  }

  lemma CleanOldCounterWords()
    ensures Clean("") && Clean(OLD_INDENT) && Clean(GAP) && Clean(" ") && Clean("(") && Clean(")")
    ensures Clean("RX") && Clean("TX") && Clean(" packets:") && Clean("errors:")
    ensures Clean("dropped:") && Clean("overruns:") && Clean("frame:") && Clean("carrier:")
    ensures Clean("compressed:") && Clean("collisions:") && Clean("txqueuelen:")
    ensures Clean("RX bytes:") && Clean("TX bytes:")
  {
  }

  lemma CleanOldHardwareWords()
    ensures Clean("") && Clean(OLD_INDENT) && Clean(" ") && Clean("-") && Clean("Interrupt:")
    ensures Clean("Base address:0x") && Clean("Memory:") && Clean("DMA chan:")
  {
  }

  lemma LabelledIsClean(prefix: string, ip: Option<string>, rest: string)
    requires Clean(prefix) && Clean(rest) && (ip.Some? ==> IsIp4(ip.value))
    ensures Clean(LabelledText(prefix, ip, rest))
  {
    if ip.Some? { CleanIp4(ip.value); }
    CleanAddressWords();
    hide Clean, IsIp4;
    CleanConcat();
  }

  lemma AddressesAreClean(l: OldLine)
    requires ValidOld(l) && (l.InetAddr? || l.Inet6Addr?)
    ensures Clean(PrintOldLine(l))
  {
    CleanAddressWords();
    if l.InetAddr? {
      LabelledIsClean("Mask:", l.mask, "");
      LabelledIsClean("Bcast:", l.broadcast, MaskText(l.mask));
      LabelledIsClean("P-t-P:", l.peer, BcastText(l.broadcast, l.mask));
      CleanIp4(l.inet);
      hide Clean, IsIp4, All, LabelledText;
      CleanConcat();
    } else {
      CleanToken(l.inet6);
      CleanToken(l.scopeid);
      CleanNumber(l.prefixlen);
      hide Clean, N, All;
      CleanConcat();
    }
  }

  lemma FlagsAreClean(l: OldLine)
    requires CleanOldLine(l) && l.FlagsAndMtu?
    ensures Clean(PrintOldLine(l))
  {
    CleanAddressWords();
    CleanNumber(l.mtu);
    CleanNumber(l.metric);
    if l.outfill.Some? { CleanNumber(l.outfill.value.0); CleanNumber(l.outfill.value.1); }
    hide Clean, N;
    CleanConcat();
    assert Clean(OutfillOldText(l.outfill));
    hide OutfillOldText;
  }

  lemma PartIsClean(gap: string, word: string, n: nat, rest: string)
    requires Clean(gap) && Clean(word) && Clean(rest)
    ensures Clean(gap + (word + (N(n) + rest)))
  {
    CleanNumber(n);
    hide Clean, N;
    CleanConcat();
  }

  lemma CountersAreClean(direction: string, last: string, packets: nat, errors: nat, dropped: nat,
                         overruns: nat, value: nat)
    requires direction in ["RX", "TX"] && last in ["frame:", "carrier:"]
    ensures Clean(OLD_INDENT + CountersText(direction, last, packets, errors, dropped, overruns, value))
  {
    CleanOldCounterWords();
    assert Clean(direction + " packets:") && Clean(last);
    hide N, Clean;
    assert N(value) + "" == N(value);
    var s4 := " " + (last + N(value));
    var s3 := " " + ("overruns:" + (N(overruns) + s4));
    var s2 := " " + ("dropped:" + (N(dropped) + s3));
    var s1 := " " + ("errors:" + (N(errors) + s2));
    PartIsClean(" ", last, value, "");
    PartIsClean(" ", "overruns:", overruns, s4);
    PartIsClean(" ", "dropped:", dropped, s3);
    PartIsClean(" ", "errors:", errors, s2);
    PartIsClean(OLD_INDENT, direction + " packets:", packets, s1);
  }

  lemma OtherCountersAreClean(l: OldLine)
    requires CleanOldLine(l) && (l.RxCompressedCounter? || l.CollisionCounters? || l.ByteCounters?)
    ensures Clean(PrintOldLine(l))
  {
    CleanOldCounterWords();
    match l
    case RxCompressedCounter(compressed) =>
      CleanNumber(compressed);
      hide Clean, N;
      CleanConcat();
    case CollisionCounters(collisions, txcompressed, queue) =>
      CleanNumber(collisions);
      if txcompressed.Some? { CleanNumber(txcompressed.value); }
      if queue.Some? { CleanNumber(queue.value); }
      hide Clean, N;
      CleanConcat();
      assert Clean(QueueOldText(queue));
      assert Clean(CompressedText(txcompressed, QueueOldText(queue)));
      hide CompressedText;
    case ByteCounters(rxbytes, rxhuman, txbytes, txhuman) =>
      CleanNumber(rxbytes);
      CleanNumber(txbytes);
      hide Clean, N;
      CleanConcat();
      assert Clean(TxBytesText(txbytes, txhuman));
      hide TxBytesText;
  }

  lemma OldDmaIsClean(dma: Option<nat>)
    ensures Clean(DmaOldText(dma))
  {
    CleanOldHardwareWords();
    if dma.Some? { CleanNumber(dma.value); }
    hide X, Clean;
    CleanConcat();
  }

  lemma OldMemoryIsClean(memory: Option<(nat, nat)>, rest: string)
    requires Clean(rest)
    ensures Clean(MemoryOldText(memory, rest))
  {
    CleanOldHardwareWords();
    if memory.Some? { CleanNumber(memory.value.0); CleanNumber(memory.value.1); }
    hide X, Clean;
    CleanConcat();
  }

  lemma OldPartsAreClean(base: Option<nat>, memory: Option<(nat, nat)>, dma: Option<nat>)
    ensures Clean(PartsOldText(base, memory, dma))
  {
    OldDmaIsClean(dma);
    OldMemoryIsClean(memory, DmaOldText(dma));
    CleanOldHardwareWords();
    if base.Some? { CleanNumber(base.value); }
    hide X, Clean, MemoryOldText, DmaOldText;
    CleanConcat();
  }

  lemma OldResourcesAreClean(l: OldLine)
    requires l.HardwareResources?
    ensures Clean(PrintOldLine(l))
  {
    CleanOldHardwareWords();
    OldPartsAreClean(l.base, l.memory, l.dma);
    if l.interrupt.Some? { CleanNumber(l.interrupt.value); }
    hide N, Clean, PartsOldText;
    CleanConcat();
    assert Clean(InterruptOldText(l.interrupt, PartsOldText(l.base, l.memory, l.dma)));
    hide InterruptOldText;
  }

  lemma OldLineIsClean(l: OldLine)
    requires ValidOld(l) && CleanOldLine(l)
    ensures Clean(PrintOldLine(l))
  {
    hide ValidOld, Clean, CountersText;
    match l
    case RxCounters(packets, errors, dropped, overruns, frame) =>
      CountersAreClean("RX", "frame:", packets, errors, dropped, overruns, frame);
    case TxCounters(packets, errors, dropped, overruns, carrier) =>
      CountersAreClean("TX", "carrier:", packets, errors, dropped, overruns, carrier);
    case HardwareResources(_, _, _, _) => OldResourcesAreClean(l);
    case InetAddr(_, _, _, _) => AddressesAreClean(l);
    case Inet6Addr(_, _, _) => AddressesAreClean(l);
    case FlagsAndMtu(_, _, _, _) => FlagsAreClean(l);
    case _ => OtherCountersAreClean(l);
  }

  lemma CleanWord(w: string)
    requires All(Word, w) || All(Space, w)
    requires forall i :: 0 <= i < |w| && In(Space, w[i]) ==> w[i] == ' '
    ensures Clean(w)
  {
  }

  lemma TitleIsClean(title: string)
    requires IsTitle(title)
    ensures Clean(title)
  {
    if IsWord(title) {
      CleanWord(title);
    } else {
      var first, second :| TwoWords(title, first, second);
      CleanWord(first);
      CleanWord(second);
    }
  }

  lemma OldHeaderIsClean(h: OldHeader)
    requires ValidOldHeader(h)
    ensures Clean(PrintOldHeader(h))
  {
    CleanWord(h.name);
    CleanWord(Pad(h.pad));
    TitleIsClean(h.title);
    if h.hwaddr.Some? { CleanToken(h.hwaddr.value); }
    assert Clean("Link encap:") && Clean("HWaddr ") && Clean(GAP) && Clean(" ") && Clean("");
    hide Clean, All, Pad, IsTitle;
    CleanConcat();
    assert Clean(HwAddrText(h.hwaddr));
    hide HwAddrText;
  }

  // ------------------------------------------------------------------- blocks in any format

  /** A device printed in the new format, or in the old. */
  datatype Section = InNewFormat(unit: Unit) | InOldFormat(oldUnit: OldUnit)

  ghost predicate Printable(s: Section) {
    match s
    case InNewFormat(u) => PrintableUnit(u)
    case InOldFormat(u) =>
      && ValidOldHeader(u.header)
      && forall i :: 0 <= i < |u.lines| ==> ValidOld(u.lines[i]) && CleanOldLine(u.lines[i])
  }

  function BlockFor(s: Section): Block {
    match s
    case InNewFormat(u) => BlockOf(u)
    case InOldFormat(u) => OldBlock(u)
  }

  function DeviceFor(s: Section): Dev {
    match s
    case InNewFormat(u) => Described(u)
    case InOldFormat(u) => DescribedOld(u)
  }

  function BlocksFor(ss: seq<Section>): seq<Block> {
    seq(|ss|, i requires 0 <= i < |ss| => BlockFor(ss[i]))
  }

  function DevicesFor(ss: seq<Section>): seq<Dev> {
    seq(|ss|, i requires 0 <= i < |ss| => DeviceFor(ss[i]))
  }

  function BlockLines(b: Block): seq<string> { [b.header] + b.body }

  function SectionLines(ss: seq<Section>): seq<string> {
    if ss == [] then []
    else SectionLines(ss[..|ss| - 1]) + BlockLines(BlockFor(ss[|ss| - 1]))
  }

  function PrintSections(ss: seq<Section>): string { Join(SectionLines(ss)) }

  /** A header line of the given format, and lines that are none. */
  predicate Proper(b: Block, oldFormat: bool) {
    && b.header != "" && Open(b.header).Opens? && Open(b.header).oldFormat == oldFormat
    && forall i :: 0 <= i < |b.body| ==> !IsHeader(b.body[i])
  }

  ghost predicate AllClean(lines: seq<string>) {
    forall i :: 0 <= i < |lines| ==> Clean(lines[i])
  }

  /** All that is needed of one section, whatever its format. */
  ghost predicate Good(s: Section) {
    && Proper(BlockFor(s), s.InOldFormat?)
    && AllClean(BlockLines(BlockFor(s)))
    && ParseBlock(BlockFor(s)) == Some(DeviceFor(s))
  }

  lemma NewIsGood(u: Unit)
    requires PrintableUnit(u)
    ensures Good(InNewFormat(u))
  {
    hide Open, PrintHeader, PrintLine, Clean, ParseBlock, Described, CleanLine, ValidHeader;
    HeaderStep(u.header);
    UnitHeaders(u);
    UnitStep(u);
    UnitIsClean(u);
    assert BlockLines(BlockOf(u)) == PrintUnit(u);
  }

  lemma OldIsGood(u: OldUnit)
    requires Printable(InOldFormat(u))
    ensures Good(InOldFormat(u))
  {
    hide Open, PrintOldHeader, PrintOldLine, ParseBlock, DescribedOld, CleanOldLine, ValidOld;
    OldHeaderStep(u.header);
    OldUnitStep(u);
    OldHeaderIsClean(u.header);
    assert Clean("");
    hide Clean;
    forall i | 0 <= i < |u.lines|
      ensures Clean(PrintOldLine(u.lines[i])) && !IsHeader(PrintOldLine(u.lines[i]))
    {
      OldLineIsClean(u.lines[i]);
      OldLineIsNoHeader(u.lines[i]);
    }
  }

  lemma EverySectionIsGood(s: Section)
    requires Printable(s)
    ensures Good(s)
  {
    match s
    case InNewFormat(u) => NewIsGood(u);
    case InOldFormat(u) => OldIsGood(u);
  }

  /** One section more. */
  lemma OneMoreSection(lines: seq<string>, s: Section)
    requires Good(s)
    ensures Blocks(lines + BlockLines(BlockFor(s))) == Blocks(lines) + [BlockFor(s)]
    ensures AllClean(lines) ==> AllClean(lines + BlockLines(BlockFor(s)))
  {
    hide Open, BlockFor, ParseBlock, DeviceFor, Clean, Blocks;
    BodyBlocks(lines, BlockFor(s).header, BlockFor(s).body);
  }

  lemma OneMoreBlock(ss: seq<Section>)
    requires ss != []
    ensures var n := |ss| - 1; BlocksFor(ss) == BlocksFor(ss[..n]) + [BlockFor(ss[n])]
  {
    hide BlockFor;
  }

  lemma {:induction false} SectionBlocks(ss: seq<Section>)
    requires forall i :: 0 <= i < |ss| ==> Good(ss[i])
    ensures Blocks(SectionLines(ss)) == BlocksFor(ss)
    ensures AllClean(SectionLines(ss))
  {
    hide Good, BlockFor, BlockLines;
    if ss != [] {
      var n := |ss| - 1;
      SectionBlocks(ss[..n]);
      hide AllClean, Blocks, BlocksFor;
      OneMoreSection(SectionLines(ss[..n]), ss[n]);
      OneMoreBlock(ss);
    }
  }

  lemma SectionsParse(ss: seq<Section>)
    requires forall i :: 0 <= i < |ss| ==> Good(ss[i])
    ensures var blocks := BlocksFor(ss);
            && |blocks| == |ss| == |DevicesFor(ss)|
            && AllParse(blocks)
            && (forall i :: 0 <= i < |ss| ==> ParseBlock(blocks[i]) == Some(DevicesFor(ss)[i]))
            && (ss != [] ==> blocks[|ss| - 1] == BlockFor(ss[|ss| - 1]))
  {
    hide ParseBlock, BlockFor, DeviceFor, Proper, AllClean;
    forall i | 0 <= i < |ss| ensures ParseBlock(BlocksFor(ss)[i]) == Some(DeviceFor(ss[i])) {
      assert Good(ss[i]);
    }
  }

  lemma LastFormat(s: Section)
    requires Good(s)
    ensures Open(BlockFor(s).header).Opens? && Open(BlockFor(s).header).oldFormat == s.InOldFormat?
  {
    hide Open, BlockFor, ParseBlock, DeviceFor;
  }

  lemma NoSections()
    ensures ParseLines(SectionLines([])) == Parser([], None) && DevicesFor([]) == []
  {
  }

  lemma SectionLinesParse(ss: seq<Section>)
    requires forall i :: 0 <= i < |ss| ==> Good(ss[i])
    ensures ParseLines(SectionLines(ss))
         == Parser(DevicesFor(ss), if ss == [] then None else Some(ss[|ss| - 1].InOldFormat?))
  {
    hide *;
    SectionBlocks(ss);
    SectionsParse(ss);
    ParseIsBlockwise(SectionLines(ss));
    if ss == [] { NoSections(); } else { LastFormat(ss[|ss| - 1]); }
    assert ParseLines(SectionLines(ss)).devices == DevicesFor(ss);
  }

  /** Parsing what was printed, in whatever mixture of the two formats, gives back the
      described devices in order; the format flag is that of the last of them. */
  lemma MixedRoundTrip(ss: seq<Section>)
    requires forall i :: 0 <= i < |ss| ==> Printable(ss[i])
    ensures Parse(PrintSections(ss))
         == Parser(DevicesFor(ss), if ss == [] then None else Some(ss[|ss| - 1].InOldFormat?))
  {
    hide Printable, Good, ParseLines, SectionLines, DevicesFor, SplitLines, Join, Clean, Blocks;
    forall i | 0 <= i < |ss| ensures Good(ss[i]) { EverySectionIsGood(ss[i]); }
    SectionBlocks(ss);
    SplitJoin(SectionLines(ss));
    SectionLinesParse(ss);
  }

  function InNew(us: seq<Unit>): seq<Section> {
    seq(|us|, i requires 0 <= i < |us| => InNewFormat(us[i]))
  }

  function DescribedAll(us: seq<Unit>): seq<Dev> {
    seq(|us|, i requires 0 <= i < |us| => Described(us[i]))
  }

  /** The case of a text all in the new format. */
  lemma RoundTrip(us: seq<Unit>)
    requires forall i :: 0 <= i < |us| ==> PrintableUnit(us[i])
    ensures Parse(PrintSections(InNew(us)))
         == Parser(DescribedAll(us), if us == [] then None else Some(false))
  {
    hide PrintableUnit, Described, Parse, PrintSections;
    MixedRoundTrip(InNew(us));
    assert DevicesFor(InNew(us)) == DescribedAll(us);
  }
}
