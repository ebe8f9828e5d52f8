/** Which texts make IfConfig fail: told from the shapes of the lines alone. */
module IfconfigRefusals {
  import opened IfconfigFormats
  import opened IfconfigGrammar
  import opened IfconfigParser
  import opened IfconfigPatterns
  import opened IfconfigRoundTrip
  import opened IfconfigText
  import opened IfconfigPrinter
  import opened Scanner
  import opened Wrappers

  ghost predicate HeaderStart(line: string) { NewStart(line) || OldStart(line) }

  /** It starts like a first line and is none. */
  ghost predicate BadStart(line: string) {
    HeaderStart(line) && !NewHeaderShape(line) && !OldHeaderShape(line)
  }

  /** It is neither a first line nor any other line of the new format. */
  ghost predicate Puzzling(line: string) {
    line != "" && !HeaderStart(line) && !NewShape(line)
  }

  /** The last first line before line `i` is in the new format. */
  ghost predicate InNewBlock(lines: seq<string>, i: int) {
    exists j :: 0 <= j < i <= |lines| && LastStart(lines, j, i) && NewHeaderShape(lines[j])
  }

  ghost predicate LastStart(lines: seq<string>, j: int, i: int)
    requires 0 <= j < i <= |lines|
  {
    forall m :: j < m < i ==> !HeaderStart(lines[m])
  }

  /** Line `i` cannot be parsed. */
  ghost predicate Refused(lines: seq<string>, i: int) {
    && 0 <= i < |lines|
    && (BadStart(lines[i]) || (InNewBlock(lines, i) && Puzzling(lines[i])))
  }

  lemma ShapesStart(line: string)
    ensures NewHeaderShape(line) || OldHeaderShape(line) ==> HeaderStart(line)
    ensures !(NewHeaderShape(line) && OldHeaderShape(line))
    ensures HeaderStart(line) ==> line != ""
  {
    hide Open, NewHeaderShape, OldHeaderShape, NewStart, OldStart;
    OpensIff(line);
    if HeaderStart(line) { StartIsText(line); }
  }

  lemma StartIsText(line: string)
    requires HeaderStart(line)
    ensures line != ""
  {
  }

  lemma BlockAtStart(lines: seq<string>, n: nat)
    requires n < |lines| && HeaderStart(lines[n])
    ensures InNewBlock(lines, n + 1) <==> NewHeaderShape(lines[n])
  {
    hide HeaderStart, NewHeaderShape;
    assert LastStart(lines, n, n + 1);
    if InNewBlock(lines, n + 1) {
      var j :| 0 <= j < n + 1 && LastStart(lines, j, n + 1) && NewHeaderShape(lines[j]);
      assert !(j < n < n + 1);
    }
  }

  lemma LastStartStep(lines: seq<string>, j: int, n: nat)
    requires 0 <= j < n < |lines| && !HeaderStart(lines[n])
    ensures LastStart(lines, j, n + 1) <==> LastStart(lines, j, n)
  {
    hide HeaderStart;
  }

  lemma BlockInside(lines: seq<string>, n: nat)
    requires n < |lines| && !HeaderStart(lines[n])
    ensures InNewBlock(lines, n + 1) <==> InNewBlock(lines, n)
  {
    hide HeaderStart, NewHeaderShape, LastStart;
    ShapesStart(lines[n]);
    forall j | 0 <= j < n ensures LastStart(lines, j, n + 1) <==> LastStart(lines, j, n) {
      LastStartStep(lines, j, n);
    }
  }

  lemma BlockStep(lines: seq<string>, n: nat)
    requires n < |lines|
    ensures InNewBlock(lines, n + 1)
       <==> if HeaderStart(lines[n]) then NewHeaderShape(lines[n]) else InNewBlock(lines, n)
  {
    hide HeaderStart, NewHeaderShape, InNewBlock;
    if HeaderStart(lines[n]) { BlockAtStart(lines, n); } else { BlockInside(lines, n); }
  }

  lemma BlockPrefix(lines: seq<string>, n: nat, i: int)
    requires n <= |lines| && i <= n
    ensures InNewBlock(lines[..n], i) <==> InNewBlock(lines, i)
  {
    hide HeaderStart, NewHeaderShape;
    forall j | 0 <= j < i
      ensures LastStart(lines[..n], j, i) <==> LastStart(lines, j, i)
      ensures lines[..n][j] == lines[j]
    {
      forall m | j < m < i ensures lines[..n][m] == lines[m] {}
    }
  }

  ghost predicate SomeRefused(lines: seq<string>) { exists i :: Refused(lines, i) }

  lemma RefusedPrefix(lines: seq<string>)
    requires lines != []
    ensures var n := |lines| - 1;
            SomeRefused(lines) <==> SomeRefused(lines[..n]) || Refused(lines, n)
  {
    hide BadStart, Puzzling, InNewBlock;
    var n := |lines| - 1;
    forall i | 0 <= i < n ensures Refused(lines[..n], i) <==> Refused(lines, i) {
      BlockPrefix(lines, n, i);
    }
    if i :| Refused(lines, i) { assert i < n ==> Refused(lines[..n], i); }
    if i :| Refused(lines[..n], i) { assert Refused(lines, i); }
  }

  /** There is a current device, and it is in the new format. */
  predicate ReadsNew(p: Parser) {
    p.Parser? && p.devices != [] && p.oldFormat == Some(false)
  }

  /** One line more, in terms of shapes. */
  lemma StepIs(p: Parser, line: string)
    requires p.Parser? && (p.devices != [] ==> p.oldFormat.Some?)
    ensures var q := Step(p, line);
            && (q.Failed? <==> BadStart(line) || (ReadsNew(p) && Puzzling(line)))
            && (q.Parser? ==>
                  (ReadsNew(q) <==> if HeaderStart(line) then NewHeaderShape(line) else ReadsNew(p)))
  {
    hide Open, NewUpdate, OldUpdate, NewHeaderShape, OldHeaderShape, NewStart, OldStart, NewShape;
    OpensIff(line);
    ShapesStart(line);
    NewReadsIff(line);
  }

  lemma ParseSnoc(lines: seq<string>)
    requires lines != []
    ensures var n := |lines| - 1;
            ParseLines(lines) == Step(ParseLines(lines[..n]), lines[n])
    ensures ParseLines(lines[..|lines| - 1]).Failed? ==> ParseLines(lines).Failed?
  {
    hide Open, BodyUpdate;
  }

  lemma NothingRefused()
    ensures ParseLines([]).Parser? && !ReadsNew(ParseLines([]))
    ensures !SomeRefused([]) && !InNewBlock([], 0)
  {
  }

  lemma RefusedLast(lines: seq<string>, n: nat)
    requires n < |lines|
    ensures Refused(lines, n) <==> BadStart(lines[n]) || (InNewBlock(lines, n) && Puzzling(lines[n]))
  {
  }

  /** For every list of lines: the parse fails exactly if some line only starts like a first
      line, or some line behind a first line in the new format, and before the next first
      line, is matched by no expression. */
  lemma {:induction false} LinesFailIff(lines: seq<string>)
    ensures ParseLines(lines).Failed? <==> SomeRefused(lines)
    ensures ParseLines(lines).Parser? ==> (ReadsNew(ParseLines(lines)) <==> InNewBlock(lines, |lines|))
  {
    hide *;
    if lines == [] {
      NothingRefused();
    } else {
      var n := |lines| - 1;
      LinesFailIff(lines[..n]);
      ParseSnoc(lines);
      RefusedPrefix(lines);
      RefusedLast(lines, n);
      BlockPrefix(lines, n, n);
      BlockStep(lines, n);
      FlagSetBeforeRead(lines[..n]);
      if ParseLines(lines[..n]).Parser? { StepIs(ParseLines(lines[..n]), lines[n]); }
    }
  }

  /** The same for a text. */
  lemma TextFailsIff(stdout: string)
    ensures Parse(stdout).Failed? <==> SomeRefused(SplitLines(stdout))
  {
    hide ParseLines, SplitLines, SomeRefused;
    LinesFailIff(SplitLines(stdout));
  }

  // -------------------------------------------------------------------- what is refused

  /** The text of a line behind the white space it starts with. */
  function Behind(line: string): string { line[Span(Space, line)..] }

  const KEYWORDS: seq<string> := [
    "inet ", "inet6 ", "RX packets ", "RX errors ", "TX packets ", "TX errors ", "device"
  ]

  /** "txqueuelen" behind one word. */
  ghost predicate QueueBehindWord(s: string) {
    exists n, p :: 0 < n < p <= |s| && All(NonSpace, s[..n]) && All(Space, s[n..p]) && "txqueuelen" <= s[p..]
  }

  /** A word and white space, and then the same. */
  ghost predicate QueueBehindTwo(s: string) {
    exists n, p :: 0 < n < p <= |s| && All(NonSpace, s[..n]) && All(Space, s[n..p]) && QueueBehindWord(s[p..])
  }

  lemma QueueFound(s: string)
    requires HwAddress(s)
    ensures QueueBehindWord(s)
  {
    hide QueuePart;
    var n :| 0 < n <= |s| && All(NonSpace, s[..n]) && QueuePart(s[n..]);
    var m := GapBeforeQueue(s[n..]);
    hide All;
    assert s[n..n + m] == s[n..][..m] && s[n + m..] == s[n..][m..];
  }

  lemma GapBeforeQueue(t: string) returns (m: nat)
    requires QueuePart(t)
    ensures 0 < m <= |t| && All(Space, t[..m]) && "txqueuelen" <= t[m..]
  {
    hide QueueGap;
    m :| 0 < m <= |t| && All(Space, t[..m]) && "txqueuelen" <= t[m..] && QueueGap(t[m..][10..]);
  }

  lemma QueueFoundLater(s: string)
    requires HwName(s)
    ensures QueueBehindTwo(s)
  {
    hide HwAddress, QueueBehindWord;
    var n :| 0 < n <= |s| && All(NonSpace, s[..n]) && HwGap(s[n..]);
    var t := s[n..];
    var m :| 0 < m <= |t| && All(Space, t[..m]) && HwAddress(t[m..]);
    assert s[n..n + m] == t[..m] && s[n + m..] == t[m..];
    QueueFound(t[m..]);
  }

  lemma WordBehind(text: string, line: string, k: string -> bool)
    requires text != "" && !In(Space, text[0]) && SpacedWord(text, line, k)
    ensures Span(Space, line) > 0 && text <= Behind(line)
  {
    SpacedWordIff(text, line, k);
    RunIs(Space, line);
  }

  lemma RunBehind(line: string, k: string -> bool)
    requires Avoids(Space, k) && SomeRun(Space, line, k)
    ensures Span(Space, line) > 0 && k(Behind(line))
  {
    SomeRunIff(Space, line, k);
    RunIs(Space, line);
  }

  /** An understood line is indented and starts with one of the keywords, or holds
      "txqueuelen" behind one or two words. */
  lemma UnderstoodStarts(line: string)
    requires NewUpdate(line).Some?
    ensures Span(Space, line) > 0
    ensures || (exists i :: 0 <= i < |KEYWORDS| && KEYWORDS[i] <= Behind(line))
            || QueueBehindWord(Behind(line)) || QueueBehindTwo(Behind(line))
  {
    hide NewUpdate, SpacedWord, SomeRun, QueueBehindWord, QueueBehindTwo, Span, Behind;
    NewReadsIff(line);
    HwAddressAvoids();
    if InetShape(line) { WordBehind(KEYWORDS[0], line, InetAddress); }
    else if Inet6Shape(line) { WordBehind(KEYWORDS[1], line, Inet6Address); }
    else if RxPacketsShape(line) { WordBehind(KEYWORDS[2], line, PacketDigits); }
    else if RxErrorsShape(line) { WordBehind(KEYWORDS[3], line, RxErrorsDigits); }
    else if TxPacketsShape(line) { WordBehind(KEYWORDS[4], line, PacketDigits); }
    else if TxErrorsShape(line) { WordBehind(KEYWORDS[5], line, TxErrorsDigits); }
    else if DeviceShape(line) { WordBehind(KEYWORDS[6], line, DeviceGap); }
    else if HwWithoutShape(line) {
      RunBehind(line, HwAddress);
      QueueFound(Behind(line));
    } else {
      RunBehind(line, HwName);
      QueueFoundLater(Behind(line));
    }
  }

  /** A name and a colon with anything but flags behind them are refused. */
  lemma FlagsMissing(name: string, rest: string)
    requires IsWord(name) && rest != "" && !("flags=" <= rest)
    ensures BadStart(name + (": " + rest))
  {
    hide SomeRun;
    var line := name + (": " + rest);
    RunStep(Word, name, ": " + rest);
    SomeRunIff(Word, line, ColonPart);
    SomeRunIff(Word, line, FlagsPart);
    OneStart(line);
    assert (": " + rest)[2..] == rest;
    hide Run, NewStart, OldStart, In, All;
    ShapesStart(line);
    NewIsNotOld(line);
  }

  lemma NewIsNotOld(line: string)
    requires NewStart(line)
    ensures !OldHeaderShape(line)
  {
    hide Open, NewHeaderShape, OldHeaderShape, NewStart, OldStart;
    OneStart(line);
    OldShapeStarts(line);
  }

  lemma OldShapeStarts(line: string)
    ensures OldHeaderShape(line) ==> OldStart(line)
  {
    hide Run, SomeRun, Backtrack, OldHeaderUpdate;
    OldStartIff(line);
  }

  /** So are a name and white space with anything but an encapsulation behind them. */
  lemma EncapMissing(name: string, gap: string, rest: string)
    requires IsWord(name) && gap != "" && All(Space, gap)
    requires rest != "" && Leaves(Space, rest) && !("Link encap:" <= rest)
    ensures BadStart(name + (gap + rest))
  {
    hide SomeRun, SpacedWord;
    var line := name + (gap + rest);
    RunStep(Word, name, gap + rest);
    GapAvoids();
    SomeRunIff(Word, line, GapThenText);
    SomeRunIff(Word, line, EncapPart);
    GapThenRest(gap, rest);
    hide Run, In, All, GapThenText, EncapPart;
    OneStart(line);
    ShapesStart(line);
    NewShapeStarts(line);
  }

  lemma NewShapeStarts(line: string)
    ensures NewHeaderShape(line) ==> NewStart(line)
  {
    hide Run, SomeRun, NewHeaderUpdate, FlagsShape;
    NewStartIff(line);
  }

  lemma GapThenRest(gap: string, rest: string)
    requires gap != "" && All(Space, gap)
    requires rest != "" && Leaves(Space, rest) && !("Link encap:" <= rest)
    ensures GapThenText(gap + rest) && !EncapPart(gap + rest)
  {
    var s := gap + rest;
    assert s[..|gap|] == gap && s[|gap|..] == rest;
    GapFound(s, |gap|);
    WsStep(gap, rest);
    SpacedWordIff("Link encap:", s, TitleStart);
  }

  lemma UnitLines(u: Unit)
    ensures |PrintUnit(u)| == |u.lines| + 2 && PrintUnit(u)[0] == PrintHeader(u.header)
    ensures |PrintLines(u.lines)| == |u.lines|
    ensures forall m :: 0 < m < |PrintUnit(u)| ==>
      PrintUnit(u)[m] == (PrintLines(u.lines) + [""])[m - 1]
  {
    hide PrintHeader, PrintLine;
  }

  lemma UnitStarts(u: Unit)
    requires ValidUnit(u)
    ensures NewHeaderShape(PrintUnit(u)[0])
    ensures forall m :: 0 < m < |PrintUnit(u)| ==> !HeaderStart(PrintUnit(u)[m])
  {
    hide HeaderStart, NewHeaderShape, PrintHeader, PrintLines, Open, OldHeaderShape, NewStart, OldStart;
    hide PrintUnit, IsHeader;
    UnitLines(u);
    UnitHeaders(u);
    HeaderStep(u.header);
    OpensIff(PrintHeader(u.header));
    forall m | 0 < m < |PrintUnit(u)| ensures !HeaderStart(PrintUnit(u)[m]) {
      NoHeaderNoStart(PrintUnit(u)[m]);
    }
  }

  lemma RefusedBehind(lines: seq<string>, line: string)
    requires lines != [] && NewHeaderShape(lines[0]) && Puzzling(line)
    requires forall m :: 0 < m < |lines| ==> !HeaderStart(lines[m])
    ensures SomeRefused(lines + [line])
  {
    hide HeaderStart, NewHeaderShape, Puzzling;
    var more, n := lines + [line], |lines|;
    forall m | 0 <= m < n ensures more[m] == lines[m] {}
    assert LastStart(more, 0, n) && more[n] == line;
    assert InNewBlock(more, n);
    hide InNewBlock;
    assert Refused(more, n);
  }

  /** A line that is neither a first line nor understood makes the text of a printed device
      fail. */
  lemma UnitThenPuzzle(u: Unit, line: string)
    requires PrintableUnit(u) && Clean(line) && Puzzling(line)
    ensures Parse(Join(PrintUnit(u) + [line])).Failed?
  {
    hide HeaderStart, NewHeaderShape, Puzzling, PrintUnit, Clean, SomeRefused, Parse;
    var lines := PrintUnit(u);
    UnitStarts(u);
    UnitIsClean(u);
    UnitLines(u);
    RefusedBehind(lines, line);
    SplitsAgain(lines, line);
    TextFailsIff(Join(lines + [line]));
  }

  lemma SplitsAgain(lines: seq<string>, line: string)
    requires Clean(line) && forall i :: 0 <= i < |lines| ==> Clean(lines[i])
    ensures SplitLines(Join(lines + [line])) == lines + [line]
  {
    hide Clean, SplitLines, Join;
    forall i | 0 <= i < |lines + [line]| ensures Clean((lines + [line])[i]) {
      if i < |lines| { assert (lines + [line])[i] == lines[i]; }
    }
    SplitJoin(lines + [line]);
  }

  lemma NoHeaderNoStart(line: string)
    requires !IsHeader(line)
    ensures !HeaderStart(line)
  {
    hide Open, NewHeaderShape, OldHeaderShape, NewStart, OldStart;
    OpensIff(line);
    ShapesStart(line);
  }

  /** Where the longest run of word characters of a first line ends. */
  lemma NameEnds(name: string, rest: string)
    requires name != "" && rest != ""
    ensures var line, n := name + (": " + rest), Span(Word, name);
            && Span(Word, line) == n && n < |line|
            && line[n..] == if n == |name| then ": " + rest else name[n..] + (": " + rest)
  {
    var n := Span(Word, name);
    if n == |name| {
      assert name[..n] == name;
      SpanStep(Word, name, ": " + rest);
    } else {
      assert name + (": " + rest) == name[..n] + (name[n..] + (": " + rest));
      SpanStep(Word, name[..n], name[n..] + (": " + rest));
    }
  }

  lemma OddCharacter(name: string, rest: string)
    requires All(NonSpace, name) && Without(':', name) && Span(Word, name) < |name|
    ensures var s := name[Span(Word, name)..] + (": " + rest);
            && !ColonPart(s) && !GapThenText(s)
    ensures !All(Word, name)
  {
    var s := name[Span(Word, name)..] + (": " + rest);
    assert s[0] == name[Span(Word, name)];
    assert name[Span(Word, name)..][0] == s[0];
    SomeRunAvoids(NonSpace, Space, NotEmpty);
  }

  /** A name with a character other than letters, digits and underscores, as the names of
      bridges and VLANs have, does not open a device; behind one in the new format its line
      makes the parse fail. */
  lemma OddNameIsNoHeader(name: string, rest: string)
    requires name != "" && All(NonSpace, name) && Without(':', name) && rest != ""
    ensures HeaderStart(name + (": " + rest)) <==> All(Word, name)
    ensures !NewShape(name + (": " + rest))
  {
    hide SomeRun, SpacedWord, Span, NewShape, GapThenText;
    var line := name + (": " + rest);
    NotIndented(line);
    GapAvoids();
    SomeRunIff(Word, line, ColonPart);
    SomeRunIff(Word, line, GapThenText);
    RunIs(Word, line);
    NameEnds(name, rest);
    if Span(Word, name) < |name| {
      OddCharacter(name, rest);
    } else {
      assert name[..|name|] == name;
    }
  }

  lemma NotIndented(line: string)
    requires line != "" && !In(Space, line[0])
    ensures !NewShape(line)
  {
    if NewShape(line) {
      NewReadsIff(line);
      UnderstoodStarts(line);
    }
  }
}
