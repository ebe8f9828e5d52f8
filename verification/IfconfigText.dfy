/** The round trip on whole texts: devices are printed as ifconfig prints them, the text is
    split into lines, and parsing yields the very same devices. */
module IfconfigText {
  import opened Wrappers
  import opened Numerals
  import opened Scanner
  import opened IfconfigParser
  import opened IfconfigPrinter
  import opened IfconfigRoundTrip

  // ------------------------------------------------------------------------- lines and text

  predicate Clean(s: string) {
    forall i :: 0 <= i < |s| ==> !IsBreak(s[i])
  }

  function Join(lines: seq<string>): string {
    if lines == [] then "" else lines[0] + "\n" + Join(lines[1..])
  }

  lemma LineLengthIs(s: string, n: nat)
    requires n < |s| && IsBreak(s[n]) && forall i :: 0 <= i < n ==> !IsBreak(s[i])
    ensures LineLength(s) == n
  {
    hide LineLength;
  }

  lemma SplitFirst(line: string, rest: string)
    requires Clean(line)
    ensures SplitLines(line + "\n" + rest) == [line] + SplitLines(rest)
  {
    hide LineLength;
    var s := line + "\n" + rest;
    assert s[|line|] == '\n';
    forall i | 0 <= i < |line| ensures !IsBreak(s[i]) { assert s[i] == line[i]; }
    LineLengthIs(s, |line|);
    assert s[..|line|] == line;
    assert s[|line| + 1..] == rest;
  }

  lemma {:induction false} SplitJoin(lines: seq<string>)
    requires forall i :: 0 <= i < |lines| ==> Clean(lines[i])
    ensures SplitLines(Join(lines)) == lines
  {
    if lines != [] {
      hide SplitLines;
      SplitJoin(lines[1..]);
      SplitFirst(lines[0], Join(lines[1..]));
      assert lines == [lines[0]] + lines[1..];
    }
  }

  /** The parts of a line that may hold any text must not hold a line break. */
  predicate CleanLine(l: Line) {
    match l
    case Ipv4(inet, netmask, broadcast, destination) => true
    case Hardware(_, _, _, title) => Clean(title)
    case Received(_, _, human) => Clean(human)
    case Sent(_, _, human) => Clean(human)
    case _ => true
  }

  lemma CleanConcat()
    ensures forall x: string, y: string {:trigger Clean(x + y)} ::
      Clean(x) && Clean(y) ==> Clean(x + y)
  {
  }

  lemma CleanWords()
    ensures Clean("") && Clean(INDENT) && Clean(GAP) && Clean(" ") && Clean("-")
    ensures Clean("inet ") && Clean("netmask ") && Clean("broadcast ") && Clean("destination ")
    ensures Clean("inet6 ") && Clean("prefixlen") && Clean("scopeid ")
    ensures Clean("txqueuelen") && Clean("(") && Clean(")")
  {
  }

  lemma CleanHeaderWords()
    ensures Clean("") && Clean(GAP) && Clean(" ")
    ensures Clean(": ") && Clean("flags=") && Clean("<") && Clean(">  mtu ")
    ensures Clean("outfill") && Clean("keepalive")
  {
  }

  lemma CleanCounterWords()
    ensures Clean(INDENT) && Clean(GAP) && Clean(" ") && Clean("(") && Clean(")")
    ensures Clean("RX") && Clean("TX") && Clean(" packets ") && Clean("bytes ")
    ensures Clean("RX errors ") && Clean("TX errors ") && Clean("dropped ") && Clean("overruns ")
    ensures Clean("frame ") && Clean("carrier ") && Clean("collisions ")
  {
  }

  lemma CleanDeviceWords()
    ensures Clean("") && Clean(INDENT) && Clean(GAP) && Clean(" ") && Clean("-")
    ensures Clean("device") && Clean("interrupt ") && Clean("base 0x") && Clean("memory 0x")
    ensures Clean("dma 0x")
  {
  }

  lemma CleanToken(x: string)
    requires All(NonSpace, x)
    ensures Clean(x)
  {
  }

  lemma CleanNumber(n: nat)
    ensures Clean(N(n)) && Clean(X(n))
  {
    hide Numeral;
  }

  lemma CleanIp4(x: string)
    requires IsIp4(x)
    ensures Clean(x)
  {
    var a, b, c, d :| IsDotted(x, a, b, c, d);
  }

  lemma PeerIsClean(broadcast: Option<string>, destination: Option<string>)
    requires broadcast.Some? ==> IsIp4(broadcast.value)
    requires destination.Some? ==> Token(destination.value)
    ensures Clean(PeerText(broadcast, destination))
  {
    if broadcast.Some? { CleanIp4(broadcast.value); }
    if destination.Some? { CleanToken(destination.value); }
    CleanWords();
    hide Clean, IsIp4, All;
    CleanConcat();
  }

  lemma Ipv4IsClean(l: Line)
    requires Valid(l) && l.Ipv4?
    ensures Clean(PrintLine(l))
  {
    CleanIp4(l.inet);
    CleanIp4(l.netmask);
    PeerIsClean(l.broadcast, l.destination);
    CleanWords();
    hide Clean, IsIp4, All, PeerText;
    CleanConcat();
  }

  lemma Ipv6IsClean(l: Line)
    requires Valid(l) && l.Ipv6?
    ensures Clean(PrintLine(l))
  {
    CleanToken(l.inet6);
    CleanNumber(l.prefixlen);
    CleanToken(l.scopeid);
    CleanWords();
    hide N, Clean, All;
    CleanConcat();
  }

  lemma HardwareIsClean(l: Line)
    requires Valid(l) && CleanLine(l) && l.Hardware?
    ensures Clean(PrintLine(l))
  {
    CleanToken(l.name);
    if l.addr.Some? { CleanToken(l.addr.value); }
    CleanNumber(l.queue);
    CleanWords();
    hide N, Clean, All;
    CleanConcat();
    assert Clean(QueueText(l.queue, l.title));
  }

  lemma PacketsAreClean(l: Line)
    requires CleanLine(l) && (l.Received? || l.Sent?)
    ensures Clean(PrintLine(l))
  {
    hide N, X, Clean;
    CleanConcat();
    CleanCounterWords();
    CleanNumber(l.packets);
    CleanNumber(l.bytes);
  }

  lemma ErrorsAreClean(l: Line)
    requires l.ReceiveErrors? || l.SendErrors?
    ensures Clean(PrintLine(l))
  {
    hide N, X, Clean;
    CleanConcat();
    CleanCounterWords();
    CleanNumber(l.errors);
    CleanNumber(l.dropped);
    CleanNumber(l.overruns);
    if l.ReceiveErrors? {
      CleanNumber(l.frame);
    } else {
      CleanNumber(l.carrier);
      CleanNumber(l.collisions);
    }
  }

  lemma ResourcesAreClean(l: Line)
    requires l.Resources?
    ensures Clean(PrintLine(l))
  {
    hide N, X, Clean;
    CleanConcat();
    CleanDeviceWords();
    if l.interrupt.Some? { CleanNumber(l.interrupt.value); }
    if l.base.Some? { CleanNumber(l.base.value); }
    if l.memory.Some? { CleanNumber(l.memory.value.0); CleanNumber(l.memory.value.1); }
    if l.dma.Some? { CleanNumber(l.dma.value); }
    assert Clean(DmaText(l.dma));
    assert Clean(MemoryText(l.memory, DmaText(l.dma)));
    assert Clean(BaseText(l.base, MemoryText(l.memory, DmaText(l.dma))));
    hide BaseText, MemoryText, DmaText;
  }

  lemma PrintedIsClean(l: Line)
    requires Valid(l) && CleanLine(l)
    ensures Clean(PrintLine(l))
  {
    hide Valid, PrintLine, Clean;
    if l.Ipv4? {
      Ipv4IsClean(l);
    } else if l.Ipv6? {
      Ipv6IsClean(l);
    } else if l.Hardware? {
      HardwareIsClean(l);
    } else if l.Resources? {
      ResourcesAreClean(l);
    } else if l.Received? || l.Sent? {
      PacketsAreClean(l);
    } else {
      ErrorsAreClean(l);
    }
  }

  lemma HeaderIsClean(h: Header)
    requires ValidHeader(h) && Clean(h.flagsstr)
    ensures Clean(PrintHeader(h))
  {
    CleanToken(h.name) by {
      assert forall i :: 0 <= i < |h.name| ==> In(Word, h.name[i]);
    }
    hide N, Clean, All;
    CleanConcat();
    CleanHeaderWords();
    CleanNumber(h.flagsint);
    CleanNumber(h.mtu);
    if h.outfill.Some? {
      CleanNumber(h.outfill.value.0);
      CleanNumber(h.outfill.value.1);
    }
    assert Clean(OutfillText(h.outfill));
  }

  // --------------------------------------------------------------------- a device's lines

  ghost predicate PrintableUnit(u: Unit) {
    && ValidUnit(u) && Clean(u.header.flagsstr)
    && forall i :: 0 <= i < |u.lines| ==> CleanLine(u.lines[i])
  }

  lemma UnitIsClean(u: Unit)
    requires PrintableUnit(u)
    ensures forall i :: 0 <= i < |PrintUnit(u)| ==> Clean(PrintUnit(u)[i])
  {
    hide PrintLine, PrintHeader, CleanLine, ValidHeader, Valid;
    HeaderIsClean(u.header);
    assert Clean("");
    hide Clean;
    forall i | 0 <= i < |u.lines| ensures Clean(PrintLine(u.lines[i])) {
      PrintedIsClean(u.lines[i]);
    }
  }

  /** The line breaks of splitlines() within ASCII, a return with a newline counting once. */
  const BREAKS: seq<string> := [
    "\n", "\r", "\r\n", "\U{b}", "\U{c}", "\U{1c}", "\U{1d}", "\U{1e}"
  ]

  lemma BreaksAre(b: nat)
    requires b < |BREAKS|
    ensures BREAKS[b] != "" && IsBreak(BREAKS[b][0]) && |BREAKS[b]| <= 2
    ensures |BREAKS[b]| == 2 ==> BREAKS[b] == "\r\n"
  {
  }

  /** Each of them ends a line. */
  lemma {:induction false} SplitAtBreak(line: string, b: nat, rest: string)
    requires forall i :: 0 <= i < |line| ==> [line[i]] !in BREAKS
    requires b < |BREAKS| && !(BREAKS[b] == "\r" && "\n" <= rest)
    ensures SplitLines(line + (BREAKS[b] + rest)) == [line] + SplitLines(rest)
  {
    hide LineLength;
    var s, n := line + (BREAKS[b] + rest), |line|;
    BreaksAre(b);
    forall i | 0 <= i < n ensures !IsBreak(s[i]) {
      assert s[i] == line[i];
      BreakListed(line[i]);
    }
    assert s[n] == BREAKS[b][0];
    LineLengthIs(s, n);
    assert s[..n] == line;
    assert s[n + |BREAKS[b]|..] == rest;
    if |BREAKS[b]| == 2 {
      assert s[n + 1] == '\n';
    } else {
      assert n + 1 < |s| ==> s[n + 1] == rest[0];
    }
  }

  lemma BreakListed(c: char)
    ensures IsBreak(c) <==> [c] in BREAKS
  {
    assert BREAKS[0] == "\n" && BREAKS[1] == "\r" && BREAKS[3] == "\U{b}" && BREAKS[4] == "\U{c}";
    assert BREAKS[5] == "\U{1c}" && BREAKS[6] == "\U{1d}" && BREAKS[7] == "\U{1e}";
    assert [c][0] == c;
  }

  lemma {:induction false} WholeLine(line: string)
    requires Clean(line)
    ensures LineLength(line) == |line|
  {
    hide IsBreak;
  }

  /** A last line without a break counts too. */
  lemma {:induction false} LastLineCounts(line: string)
    requires forall i :: 0 <= i < |line| ==> [line[i]] !in BREAKS
    ensures SplitLines(line) == if line == "" then [] else [line]
  {
    hide LineLength, BREAKS, IsBreak;
    forall i | 0 <= i < |line| ensures !IsBreak(line[i]) {
      BreakListed(line[i]);
    }
    WholeLine(line);
  }
}
