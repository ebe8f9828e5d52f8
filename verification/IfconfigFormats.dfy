/** The old format's blocks, and the round trip for texts whose devices are printed in either
    format. */
module IfconfigFormats {
  import opened Wrappers
  import opened Numerals
  import opened Scanner
  import opened IfconfigPatterns
  import opened IfconfigParser
  import opened IfconfigPrinter
  import opened IfconfigOldPrinter

  // ------------------------------------------------------- the first line, in the old format

  datatype OldHeader = OldHeader(name: string, pad: nat, title: string, hwaddr: Option<string>)

  predicate IsWord(w: string) { w != "" && All(Word, w) }

  predicate TwoWords(title: string, first: string, second: string) {
    IsWord(first) && IsWord(second) && title == first + (" " + second)
  }

  /** One word, or two with a blank between them. */
  ghost predicate IsTitle(title: string) {
    IsWord(title) || exists first, second :: TwoWords(title, first, second)
  }

  predicate FormedHeader(h: OldHeader) {
    IsWord(h.name) && h.pad > 0 && (h.hwaddr.Some? ==> All(NonSpace, h.hwaddr.value))
  }

  ghost predicate ValidOldHeader(h: OldHeader) { FormedHeader(h) && IsTitle(h.title) }

  function HwAddrText(hwaddr: Option<string>): string {
    if hwaddr.Some? then "HWaddr " + (hwaddr.value + GAP) else ""
  }

  function EncapText(title: string, hwaddr: Option<string>): string {
    "Link encap:" + (title + (GAP + HwAddrText(hwaddr)))
  }

  function PrintOldHeader(h: OldHeader): string {
    h.name + (Pad(h.pad) + EncapText(h.title, h.hwaddr))
  }

  function OldHeaderMeaning(h: OldHeader): Attrs {
    map[HW_TITLE := Str(h.title)] + if h.hwaddr.Some? then map[HW_ADDR := Str(h.hwaddr.value)] else map[]
  }

  lemma HwAddrStep(hwaddr: Option<string>)
    requires hwaddr.Some? ==> All(NonSpace, hwaddr.value)
    ensures var s := HwAddrText(hwaddr);
            && Leaves(Space, s)
            && (match Lit("HWaddr ", s)
                case None => hwaddr.None?
                case Some(rest) => hwaddr == Some(rest[..Span(NonSpace, rest)]))
  {
    if hwaddr.Some? {
      LitStep("HWaddr ", hwaddr.value + GAP);
      SpanStep(NonSpace, hwaddr.value, GAP);
    }
  }

  lemma WordEnds(w: string)
    requires IsWord(w)
    ensures !IsSpace(w[0]) && !IsSpace(w[|w| - 1])
  {
    assert In(Word, w[0]) && In(Word, w[|w| - 1]);
  }

  lemma TitleIs(s: string, first: string, s3: string, n: nat, m: nat)
    requires Run(Word, s) == Some((first, " " + s3)) && Span(Word, s3) == n
    requires Span(Space, s3[n..]) == m
    ensures MatchTitle(s) == Some((Strip(first + (" " + s3[..n])), s3[n..][m..]))
  {
    hide Run, Span, Strip;
    var s2 := " " + s3;
    assert s2[1..] == s3 && s2[..1] == " ";
  }

  lemma OneWordStep(first: string, rest: string)
    requires IsWord(first) && Leaves(Space, rest)
    ensures MatchTitle(first + (GAP + rest)) == Some((first, rest))
  {
    var s3 := " " + rest;
    assert GAP + rest == " " + s3;
    RunStep(Word, first, GAP + rest);
    SpanStep(Word, "", s3);
    assert "" + s3 == s3 && s3[0..] == s3 && s3[1..] == rest;
    SpanStep(Space, " ", rest);
    WordEnds(first);
    StripEnds(first);
    hide *;
    TitleIs(first + (GAP + rest), first, s3, 0, 1);
    assert " " + s3[..0] == " ";
  }

  lemma TwoWordsStep(title: string, first: string, second: string, rest: string)
    requires TwoWords(title, first, second) && Leaves(Space, rest)
    ensures MatchTitle(title + (GAP + rest)) == Some((title, rest))
  {
    var s3 := second + (GAP + rest);
    assert title + (GAP + rest) == first + (" " + s3);
    RunStep(Word, first, " " + s3);
    SpanStep(Word, second, GAP + rest);
    SpanStep(Space, GAP, rest);
    assert s3[..|second|] == second && s3[|second|..] == GAP + rest && (GAP + rest)[2..] == rest;
    WordEnds(first);
    WordEnds(second);
    TitleParts(title, first, second);
    StripEnds(title);
    hide *;
    TitleIs(title + (GAP + rest), first, s3, |second|, 2);
  }

  lemma TitleParts(title: string, first: string, second: string)
    requires TwoWords(title, first, second)
    ensures title == first + (" " + second)
    ensures title != "" && title[0] == first[0] && title[|title| - 1] == second[|second| - 1]
  {
  }

  /** The pattern's optional blank takes one of the two blanks behind a title of one word;
      stripping the captured text removes it again. */
  lemma TitleStep(title: string, rest: string)
    requires IsTitle(title) && Leaves(Space, rest)
    ensures MatchTitle(title + (GAP + rest)) == Some((title, rest))
  {
    hide MatchTitle;
    if IsWord(title) {
      OneWordStep(title, rest);
    } else {
      var first, second :| TwoWords(title, first, second);
      TwoWordsStep(title, first, second, rest);
    }
  }

  lemma EncapStep(title: string, hwaddr: Option<string>)
    requires IsTitle(title) && (hwaddr.Some? ==> All(NonSpace, hwaddr.value))
    ensures MatchEncap(EncapText(title, hwaddr)) == Some((title, hwaddr))
  {
    var rest := HwAddrText(hwaddr);
    HwAddrStep(hwaddr);
    TitleStep(title, rest);
    LitStep("Link encap:", title + (GAP + rest));
    hide MatchTitle, Lit, Span, HwAddrText, All;
  }

  /** What the pattern takes behind the first word. */
  function MoreTitle(s2: string): string {
    var s3 := if " " <= s2 then s2[1..] else s2;
    s2[..|s2| - |s3|] + s3[..Span(Word, s3)]
  }

  lemma MatchTitleIs(s: string)
    ensures MatchTitle(s).Some? <==> Run(Word, s).Some?
    ensures MatchTitle(s).Some? ==>
      var (first, s2) := Run(Word, s).value; MatchTitle(s).value.0 == Strip(first + MoreTitle(s2))
  {
    hide Run, Span, Strip;
  }

  lemma MoreTitleIs(s2: string) returns (second: string)
    requires Leaves(Word, s2)
    ensures All(Word, second)
    ensures MoreTitle(s2) == "" || MoreTitle(s2) == " " + second
  {
    if " " <= s2 {
      assert s2[..1] == " ";
      return s2[1..][..Span(Word, s2[1..])];
    }
    return "";
  }

  lemma RunParts(s: string)
    requires Run(Word, s).Some?
    ensures IsWord(Run(Word, s).value.0) && Leaves(Word, Run(Word, s).value.1)
  {
  }

  /** Whatever stands in the line, the pattern reads a title of one or two words from it. */
  lemma ReadTitleIsTitle(s: string)
    ensures MatchTitle(s).Some? ==> IsTitle(MatchTitle(s).value.0)
  {
    hide *;
    MatchTitleIs(s);
    if MatchTitle(s).Some? {
      RunParts(s);
      var (first, s2) := Run(Word, s).value;
      var second := MoreTitleIs(s2);
      ReadTitle(first, MoreTitle(s2), second);
    }
  }

  lemma ReadTitle(first: string, more: string, second: string)
    requires IsWord(first) && All(Word, second) && (more == "" || more == " " + second)
    ensures IsTitle(Strip(first + more))
  {
    WordEnds(first);
    StripEnds(first);
    hide Strip, All;
    if more == "" {
      assert first + more == first;
    } else if second == "" {
      assert more == " ";
    } else {
      assert TwoWords(first + (" " + second), first, second);
      TwoWordsStripped(first, second);
    }
  }

  lemma TwoWordsStripped(first: string, second: string)
    requires TwoWords(first + (" " + second), first, second)
    ensures Strip(first + (" " + second)) == first + (" " + second)
  {
    WordEnds(first);
    WordEnds(second);
    TitleParts(first + (" " + second), first, second);
    StripEnds(first + (" " + second));
  }

  /** A title and the address behind it are read back if and only if the title is one word,
      or two with a blank between them. */
  lemma EncapReadsIff(title: string, hwaddr: Option<string>)
    requires hwaddr.Some? ==> All(NonSpace, hwaddr.value)
    ensures MatchEncap(EncapText(title, hwaddr)) == Some((title, hwaddr)) <==> IsTitle(title)
  {
    hide IsTitle, MatchTitle, EncapText;
    if IsTitle(title) {
      EncapStep(title, hwaddr);
    } else {
      var s := EncapText(title, hwaddr);
      if Lit("Link encap:", s).Some? { ReadTitleIsTitle(Lit("Link encap:", s).value); }
    }
  }

  /** A title is cut where its first word ends without a blank. */
  lemma CutTitle(first: string, rest: string)
    requires IsWord(first) && rest != "" && !In(Word, rest[0]) && !In(Space, rest[0])
    ensures MatchTitle(first + rest) == Some((first, rest))
  {
    RunStep(Word, first, rest);
    WordEnds(first);
    StripEnds(first);
    CutParts(first, rest);
    hide Run, Strip;
  }

  lemma CutParts(first: string, rest: string)
    requires rest != "" && !In(Word, rest[0]) && !In(Space, rest[0])
    ensures !(" " <= rest) && Span(Word, rest) == 0 && Span(Space, rest) == 0
    ensures rest[0..] == rest && first + (rest[..0] + rest[..0]) == first
  {
  }

  /** So is the one ifconfig prints for PPP links, at its first hyphen. */
  lemma PointToPointIsCut()
    ensures MatchEncap(EncapText("Point-to-Point Protocol", None)) == Some(("Point", None))
  {
    var rest := "-to-Point Protocol" + (GAP + "");
    var s1 := "Point-to-Point Protocol" + (GAP + "");
    assert s1 == "Point" + rest;
    assert IsWord("Point") && rest[0] == '-';
    CutTitle("Point", rest);
    LitMiss("HWaddr ", rest, 0);
    hide MatchTitle, Lit, IsWord, Run, Span, All;
    LitStep("Link encap:", s1);
  }

  lemma OldHeaderMatches(name: string, pad: nat, text: string)
    requires IsWord(name) && pad > 0 && text != "" && !In(Space, text[0])
    ensures var line := name + (Pad(pad) + text);
            && MatchNewHeader(line).None?
            && MatchOldHeader(line) == Some((name, text))
  {
    var s1 := Pad(pad) + text;
    RunStep(Word, name, s1);
    LitMiss(": ", s1, 0);
    SpanStep(Space, Pad(pad), text);
    assert s1[pad..] == text;
    hide Run, Span, Lit, Pad, All;
  }

  lemma OldHeaderStep(h: OldHeader)
    requires ValidOldHeader(h)
    ensures Open(PrintOldHeader(h)) == Opens(Dev(h.name, UNSET + OldHeaderMeaning(h)), true)
    ensures PrintOldHeader(h) != ""
  {
    var text := EncapText(h.title, h.hwaddr);
    EncapStep(h.title, h.hwaddr);
    OldHeaderMatches(h.name, h.pad, text);
    hide MatchEncap, EncapText, MatchNewHeader, MatchOldHeader, Pad, All, IsTitle;
  }

  // ---------------------------------------------------------------------- a device's block

  datatype OldUnit = OldUnit(header: OldHeader, lines: seq<OldLine>)

  function MergedOld(attrs: Attrs, lines: seq<OldLine>): Attrs {
    if lines == [] then attrs
    else MergedOld(attrs, lines[..|lines| - 1]) + ReadFrom(lines[|lines| - 1])
  }

  /** The device the parser sees in a unit: later lines override earlier ones, and all but
      what HardwareReadsIff excepts is as the lines state it. */
  function DescribedOld(u: OldUnit): Dev {
    Dev(u.header.name, MergedOld(UNSET + OldHeaderMeaning(u.header), u.lines))
  }

  function PrintOldLines(lines: seq<OldLine>): seq<string> {
    seq(|lines|, i requires 0 <= i < |lines| => PrintOldLine(lines[i]))
  }

  function OldBlock(u: OldUnit): Block {
    Block(PrintOldHeader(u.header), PrintOldLines(u.lines) + [""])
  }

  lemma OldBodySnoc(attrs: Attrs, body: seq<string>, line: string)
    requires line != "" && BodyAttrs(true, attrs, body).Some?
    ensures BodyAttrs(true, attrs, body + [line])
         == Some(BodyAttrs(true, attrs, body).value + OldUpdate(line))
  {
    hide NewUpdate, OldUpdate;
    assert (body + [line])[..|body|] == body;
  }

  lemma LastOldLineApart(attrs: Attrs, lines: seq<OldLine>)
    requires lines != []
    ensures var n := |lines| - 1;
            && PrintOldLines(lines) == PrintOldLines(lines[..n]) + [PrintOldLine(lines[n])]
            && MergedOld(attrs, lines) == MergedOld(attrs, lines[..n]) + ReadFrom(lines[n])
  {
    hide PrintOldLine, ReadFrom;
  }

  lemma NoOldLines(attrs: Attrs)
    ensures BodyAttrs(true, attrs, PrintOldLines([])) == Some(MergedOld(attrs, []))
  {
  }

  lemma {:induction false} OldLinesStep(attrs: Attrs, lines: seq<OldLine>)
    requires forall i :: 0 <= i < |lines| ==> ValidOld(lines[i])
    ensures BodyAttrs(true, attrs, PrintOldLines(lines)) == Some(MergedOld(attrs, lines))
  {
    hide *;
    if lines == [] {
      NoOldLines(attrs);
    } else {
      var n := |lines| - 1;
      OldLinesStep(attrs, lines[..n]);
      DispatchesToItsOldKind(lines[n]);
      OldLineIsNoHeader(lines[n]);
      LastOldLineApart(attrs, lines);
      OldBodySnoc(attrs, PrintOldLines(lines[..n]), PrintOldLine(lines[n]));
    }
  }

  lemma OldLineIsNoHeader(l: OldLine)
    ensures !IsHeader(PrintOldLine(l)) && PrintOldLine(l) != ""
  {
    assert PrintOldLine(l)[0] == ' ';
    IndentedIsNoHeader(PrintOldLine(l));
  }

  /** A block printed in the old format on its own parses to the device it describes. */
  lemma OldUnitStep(u: OldUnit)
    requires ValidOldHeader(u.header) && forall i :: 0 <= i < |u.lines| ==> ValidOld(u.lines[i])
    ensures ParseBlock(OldBlock(u)) == Some(DescribedOld(u))
  {
    hide Open, PrintOldHeader, BodyUpdate;
    OldHeaderStep(u.header);
    OldLinesStep(UNSET + OldHeaderMeaning(u.header), u.lines);
    var body := PrintOldLines(u.lines) + [""];
    assert body[..|u.lines|] == PrintOldLines(u.lines);
  }

  // -------------------------------------------------------------------------- reordering

  /** The line of the old format that carries an attribute, if any does. */
  function CarriedBy(a: Attr): Option<OldKind> {
    match a
    case OfHeader(x) => if x.AFlagsInt? then None else Some(FlagsOld)
    case OfIpv4(_) => Some(InetOld)
    case OfIpv6(_) => Some(Inet6Old)
    case OfHardware(x) => if x.ATxQueueLen? then Some(CollisionsOld) else None
    case OfReceived(x) => if x.ARxPackets? then Some(RxOld) else Some(BytesOld)
    case OfReceiveErrors(_) => Some(RxOld)
    case OfSent(x) => if x.ATxPackets? then Some(TxOld) else Some(BytesOld)
    case OfSendErrors(x) => if x.ATxCollisions? then Some(CollisionsOld) else Some(TxOld)
    case OfResources(_) => Some(HardwareOld)
    case OfOldOnly(x) =>
      if x.AMetric? then Some(FlagsOld)
      else if x.ARxCompressed? then Some(RxCompressedOld)
      else Some(CollisionsOld)
  }

  lemma OptionalOwn(l: OldLine)
    requires l.InetAddr? || l.FlagsAndMtu? || l.CollisionCounters?
    ensures forall a :: a in ReadFrom(l) ==> CarriedBy(a) == Some(KindOfOld(l))
  {
  }

  lemma ReadFromOwn(l: OldLine)
    ensures forall a :: a in ReadFrom(l) ==> CarriedBy(a) == Some(KindOfOld(l))
  {
    if l.HardwareResources? {
      ResourcesOnly(l.interrupt, l.base, l.memory, l.dma);
      hide ResourceAttrs;
    } else if l.InetAddr? || l.FlagsAndMtu? || l.CollisionCounters? {
      OptionalOwn(l);
      hide ReadFrom;
    }
  }

  lemma OldWrites(l: OldLine, a: Attr)
    requires ValidOld(l) && Writes(true, PrintOldLine(l), a)
    ensures CarriedBy(a) == Some(KindOfOld(l))
  {
    DispatchesToItsOldKind(l);
    ReadFromOwn(l);
    hide OldUpdate, NewUpdate, ReadFrom, CarriedBy, KindOfOld, PrintOldLine, ValidOld;
  }

  lemma PrintedFromOld(lines: seq<OldLine>, lines': seq<OldLine>)
    requires multiset(lines) == multiset(lines')
    ensures forall text :: text in PrintOldLines(lines) ==> text in PrintOldLines(lines')
  {
    hide PrintOldLine;
    forall text | text in PrintOldLines(lines) ensures text in PrintOldLines(lines') {
      var i :| 0 <= i < |lines| && PrintOldLines(lines)[i] == text;
      assert lines[i] in multiset(lines');
      var j :| 0 <= j < |lines'| && lines'[j] == lines[i];
      assert PrintOldLines(lines')[j] == text;
    }
  }

  /** Lines of pairwise distinct kinds may stand in any order in the old format too. */
  lemma OldReorderingIsHarmless(attrs: Attrs, lines: seq<OldLine>, lines': seq<OldLine>)
    requires forall i :: 0 <= i < |lines| ==> ValidOld(lines[i])
    requires forall i, j :: 0 <= i < j < |lines| ==> KindOfOld(lines[i]) != KindOfOld(lines[j])
    requires multiset(lines) == multiset(lines')
    ensures BodyAttrs(true, attrs, PrintOldLines(lines)) == BodyAttrs(true, attrs, PrintOldLines(lines'))
  {
    hide BodyAttrs, Writes, CarriedBy, KindOfOld, PrintOldLine, ValidOld;
    forall i, j, a: Attr | 0 <= i < j < |lines|
      ensures !(Writes(true, PrintOldLines(lines)[i], a) && Writes(true, PrintOldLines(lines)[j], a))
    {
      if Writes(true, PrintOldLine(lines[i]), a) && Writes(true, PrintOldLine(lines[j]), a) {
        OldWrites(lines[i], a);
        OldWrites(lines[j], a);
      }
    }
    PrintedFromOld(lines, lines');
    PrintedFromOld(lines', lines);
    OrderIsImmaterial(true, attrs, PrintOldLines(lines), PrintOldLines(lines'));
  }
}
