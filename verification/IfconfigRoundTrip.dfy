/** Printing devices in ifconfig's new format and parsing the text gives the devices back. */
module IfconfigRoundTrip {
  import opened Wrappers
  import opened Numerals
  import opened Scanner
  import opened IfconfigPatterns
  import opened IfconfigParser
  import opened IfconfigPrinter

  // ------------------------------------------------------------------------ the first line

  datatype Header = Header(name: string, flagsint: nat, flagsstr: string, mtu: nat,
                           outfill: Option<(nat, nat)>)

  function OutfillText(outfill: Option<(nat, nat)>): string {
    if outfill.None? then ""
    else GAP + ("outfill" + (" " + (N(outfill.value.0)
         + (GAP + ("keepalive" + (" " + N(outfill.value.1)))))))
  }

  function FlagsText(h: Header): string {
    "flags=" + (N(h.flagsint) + ("<" + (h.flagsstr + MtuText(h.mtu, h.outfill))))
  }

  function PrintHeader(h: Header): string { h.name + (": " + FlagsText(h)) }

  function HeaderMeaning(h: Header): Attrs {
    map[FLAGS_INT := Num(h.flagsint), FLAGS_STR := Str(h.flagsstr), MTU := Num(h.mtu)]
    + if h.outfill.Some? then map[OUTFILL := Num(h.outfill.value.0), KEEPALIVE := Num(h.outfill.value.1)]
      else map[]
  }

  predicate ValidHeader(h: Header) { h.name != "" && All(Word, h.name) }

  lemma OutfillStep(outfill: Option<(nat, nat)>)
    ensures MatchOutfill(OutfillText(outfill)) == outfill
    ensures Leaves(Digit, OutfillText(outfill))
  {
    if outfill.Some? {
      var k := N(outfill.value.1);
      var s4 := GAP + ("keepalive" + (" " + k));
      var s2 := " " + (N(outfill.value.0) + s4);
      GapStep("outfill" + s2);
      LitStep("outfill", s2);
      NStep(outfill.value.0, s4);
      GapStep(N(outfill.value.0) + s4);
      GapStep("keepalive" + (" " + k));
      LitStep("keepalive", " " + k);
      assert k + "" == k;
      NStep(outfill.value.1, "");
      GapStep(k);
    }
  }

  lemma NumberPlain(n: nat)
    ensures Without('>', N(n))
  {
    hide Numeral;
  }

  lemma OutfillPlain(mtu: nat, outfill: Option<(nat, nat)>)
    ensures Without('>', N(mtu) + OutfillText(outfill))
  {
    hide N, Without;
    NumberPlain(mtu);
    if outfill.Some? {
      KeywordsPlain();
      NumberPlain(outfill.value.0);
      NumberPlain(outfill.value.1);
      WithoutBoth('>', " ", N(outfill.value.1));
      WithoutBoth('>', "keepalive", " " + N(outfill.value.1));
      var s := "keepalive" + (" " + N(outfill.value.1));
      WithoutBoth('>', GAP, s);
      WithoutBoth('>', N(outfill.value.0), GAP + s);
      WithoutBoth('>', " ", N(outfill.value.0) + (GAP + s));
      WithoutBoth('>', "outfill", " " + (N(outfill.value.0) + (GAP + s)));
      WithoutBoth('>', GAP, "outfill" + (" " + (N(outfill.value.0) + (GAP + s))));
    } else {
      KeywordsPlain();
    }
    WithoutBoth('>', N(mtu), OutfillText(outfill));
  }

  lemma KeywordsPlain()
    ensures Without('>', " ") && Without('>', GAP)
    ensures Without('>', "outfill") && Without('>', "keepalive") && Without('>', "")
  {
  }

  lemma MtuMiss(s: string, q: nat)
    requires 0 < q <= |s| && Without('>', s[1..])
    ensures MatchMtu(s[q..]).None?
  {
    assert q < |s| ==> s[q..][0] == s[1..][q - 1];
    LitMiss(">  mtu ", s[q..], 0);
  }

  function MtuText(mtu: nat, outfill: Option<(nat, nat)>): string {
    ">  mtu " + (N(mtu) + OutfillText(outfill))
  }

  lemma MtuStep(mtu: nat, outfill: Option<(nat, nat)>)
    ensures MatchMtu(MtuText(mtu, outfill)) == Some((mtu, OutfillText(outfill)))
  {
    OutfillStep(outfill);
    LitStep(">  mtu ", N(mtu) + OutfillText(outfill));
    NStep(mtu, OutfillText(outfill));
  }

  lemma MtuPlain(mtu: nat, outfill: Option<(nat, nat)>)
    ensures MtuText(mtu, outfill) != "" && Without('>', MtuText(mtu, outfill)[1..])
  {
    OutfillPlain(mtu, outfill);
    hide OutfillText, N;
    assert MtuText(mtu, outfill)[1..] == "  mtu " + (N(mtu) + OutfillText(outfill));
  }

  /** The flags reach to the last '>  mtu ' however many there are inside them. */
  lemma MtuIsLast(flagsstr: string, mtu: nat, outfill: Option<(nat, nat)>)
    ensures Greedy(flagsstr + MtuText(mtu, outfill), MatchMtu)
         == Some((flagsstr, (mtu, OutfillText(outfill))))
  {
    hide MtuText, Without, MatchMtu, OutfillText, Greedy;
    MtuStep(mtu, outfill);
    MtuPlain(mtu, outfill);
    LastGreater(flagsstr, MtuText(mtu, outfill));
  }

  lemma LastGreater(flagsstr: string, tail: string)
    requires MatchMtu(tail).Some? && tail != "" && Without('>', tail[1..])
    ensures Greedy(flagsstr + tail, MatchMtu) == Some((flagsstr, MatchMtu(tail).value))
  {
    hide Lit, Dec;
    var s := flagsstr + tail;
    forall q | |flagsstr| < q <= |s| ensures MatchMtu(s[q..]).None? {
      MtuMiss(tail, q - |flagsstr|);
      assert s[q..] == tail[q - |flagsstr|..];
    }
    assert s[|flagsstr|..] == tail;
    assert s[..|flagsstr|] == flagsstr;
    BacktrackFindsLast(s, |s|, 0, |flagsstr|, MatchMtu);
  }

  lemma HeaderStep(h: Header)
    requires ValidHeader(h)
    ensures Open(PrintHeader(h)) == Opens(Dev(h.name, UNSET + HeaderMeaning(h)), false)
    ensures PrintHeader(h) != ""
  {
    var s3 := h.flagsstr + MtuText(h.mtu, h.outfill);
    RunStep(Word, h.name, ": " + FlagsText(h));
    LitStep(": ", FlagsText(h));
    assert MatchNewHeader(PrintHeader(h)) == Some((h.name, FlagsText(h)));
    LitStep("flags=", N(h.flagsint) + ("<" + s3));
    NStep(h.flagsint, "<" + s3);
    LitStep("<", s3);
    MtuIsLast(h.flagsstr, h.mtu, h.outfill);
    assert MatchFlags(FlagsText(h)) == Some((h.flagsint, h.flagsstr, h.mtu, OutfillText(h.outfill)));
    OutfillStep(h.outfill);
    hide MatchFlags, MatchOutfill, MatchNewHeader;
  }

  // ---------------------------------------------------------------------- a device's block

  /** A device as ifconfig describes it: the first line, and lines in any order. */
  datatype Unit = Unit(header: Header, lines: seq<Line>)

  ghost predicate ValidUnit(u: Unit) {
    ValidHeader(u.header) && forall i :: 0 <= i < |u.lines| ==> Valid(u.lines[i])
  }

  function Merged(attrs: Attrs, lines: seq<Line>): Attrs {
    if lines == [] then attrs
    else Merged(attrs, lines[..|lines| - 1]) + Meaning(lines[|lines| - 1])
  }

  /** The device that a unit describes: the attributes its lines state, later ones
      overriding earlier ones, all others None. */
  function Described(u: Unit): Dev {
    Dev(u.header.name, Merged(UNSET + HeaderMeaning(u.header), u.lines))
  }

  function PrintLines(lines: seq<Line>): seq<string> {
    seq(|lines|, i requires 0 <= i < |lines| => PrintLine(lines[i]))
  }

  /** The lines of a unit; ifconfig ends each device with an empty one. */
  function PrintUnit(u: Unit): seq<string> {
    [PrintHeader(u.header)] + PrintLines(u.lines) + [""]
  }

  lemma BodySnoc(attrs: Attrs, body: seq<string>, line: string)
    requires line != "" && BodyAttrs(false, attrs, body).Some? && NewUpdate(line).Some?
    ensures BodyAttrs(false, attrs, body + [line])
         == Some(BodyAttrs(false, attrs, body).value + NewUpdate(line).value)
  {
    hide NewUpdate, OldUpdate;
    assert (body + [line])[..|body|] == body;
  }

  lemma PrintedIsNoHeader(l: Line)
    ensures !IsHeader(PrintLine(l)) && PrintLine(l) != ""
  {
    assert PrintLine(l)[0] == ' ';
    IndentedIsNoHeader(PrintLine(l));
  }

  lemma LastLineApart(attrs: Attrs, lines: seq<Line>)
    requires lines != []
    ensures var n := |lines| - 1;
            && PrintLines(lines) == PrintLines(lines[..n]) + [PrintLine(lines[n])]
            && Merged(attrs, lines) == Merged(attrs, lines[..n]) + Meaning(lines[n])
  {
    hide PrintLine, Meaning;
  }

  lemma NoLines(attrs: Attrs)
    ensures BodyAttrs(false, attrs, PrintLines([])) == Some(Merged(attrs, []))
  {
  }

  lemma {:induction false} LinesStep(attrs: Attrs, lines: seq<Line>)
    requires forall i :: 0 <= i < |lines| ==> Valid(lines[i])
    ensures BodyAttrs(false, attrs, PrintLines(lines)) == Some(Merged(attrs, lines))
  {
    hide *;
    if lines == [] {
      NoLines(attrs);
    } else {
      var n := |lines| - 1;
      LinesStep(attrs, lines[..n]);
      DispatchesToItsKind(lines[n]);
      PrintedIsNoHeader(lines[n]);
      LastLineApart(attrs, lines);
      BodySnoc(attrs, PrintLines(lines[..n]), PrintLine(lines[n]));
    }
  }

  /** A printed block on its own parses to the device it describes. */
  lemma UnitStep(u: Unit)
    requires ValidUnit(u)
    ensures ParseBlock(Block(PrintHeader(u.header), PrintLines(u.lines) + [""])) == Some(Described(u))
  {
    hide Open, PrintHeader, BodyUpdate;
    HeaderStep(u.header);
    LinesStep(UNSET + HeaderMeaning(u.header), u.lines);
    var body := PrintLines(u.lines) + [""];
    assert body[..|u.lines|] == PrintLines(u.lines);
  }

  // -------------------------------------------------------------------- blocks one by one

  function BlockOf(u: Unit): Block { Block(PrintHeader(u.header), PrintLines(u.lines) + [""]) }

  lemma BlocksSnoc(lines: seq<string>, line: string)
    ensures Blocks(lines + [line]) ==
      var blocks := Blocks(lines);
      if IsHeader(line) then blocks + [Block(line, [])]
      else if blocks == [] then []
      else blocks[|blocks| - 1 := blocks[|blocks| - 1].(body := blocks[|blocks| - 1].body + [line])]
  {
    hide Open, IsHeader;
    assert (lines + [line])[..|lines|] == lines;
  }

  lemma {:induction false} BodyBlocks(lines: seq<string>, header: string, body: seq<string>)
    requires IsHeader(header) && forall i :: 0 <= i < |body| ==> !IsHeader(body[i])
    ensures Blocks(lines + ([header] + body)) == Blocks(lines) + [Block(header, body)]
  {
    hide Open, IsHeader, Blocks;
    if body == [] {
      assert [header] + body == [header];
      BlocksSnoc(lines, header);
    } else {
      var n := |body| - 1;
      BodyBlocks(lines, header, body[..n]);
      BlocksSnoc(lines + ([header] + body[..n]), body[n]);
      assert lines + ([header] + body) == lines + ([header] + body[..n]) + [body[n]];
      assert body == body[..n] + [body[n]];
    }
  }

  lemma UnitHeaders(u: Unit)
    requires ValidUnit(u)
    ensures IsHeader(PrintHeader(u.header))
    ensures forall i :: 0 <= i <= |u.lines| ==> !IsHeader((PrintLines(u.lines) + [""])[i])
  {
    hide PrintHeader, PrintLine, Open;
    HeaderStep(u.header);
    forall i | 0 <= i < |u.lines| ensures !IsHeader(PrintLine(u.lines[i])) {
      PrintedIsNoHeader(u.lines[i]);
    }
  }
}
