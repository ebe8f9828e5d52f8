/** IfConfig.__init__ of tests/parse_ifconfig.py on values: the line loop, and the block
    structure it gives to what ifconfig prints. */
module IfconfigParser {
  import opened Wrappers
  import opened Scanner
  import opened IfconfigPatterns

  // ----------------------------------------------------------------------- splitlines()

  predicate IsBreak(c: char) {
    '\n' <= c <= '\r' || '\U{1c}' <= c <= '\U{1e}'
  }

  function LineLength(s: string): (n: nat)
    ensures n <= |s| && (n < |s| ==> IsBreak(s[n]))
    ensures forall i :: 0 <= i < n ==> !IsBreak(s[i])
  {
    if s == "" || IsBreak(s[0]) then 0 else 1 + LineLength(s[1..])
  }

  function SplitLines(s: string): seq<string> {
    if s == "" then []
    else
      var n := LineLength(s);
      if n == |s| then [s]
      else
        var skip := if s[n] == '\r' && n + 1 < |s| && s[n + 1] == '\n' then 2 else 1;
        [s[..n]] + SplitLines(s[n + skip..])
  }

  // ------------------------------------------------------------------------ the line loop

  datatype Dev = Dev(name: string, attrs: Attrs)

  /** The parser between two lines: the devices so far, of which the last is the current
      one, and the format flag once it is set.  Failed is an escaped ValueError. */
  datatype Parser = Parser(devices: seq<Dev>, oldFormat: Option<bool>) | Failed

  const START := Parser([], None)

  /** The device a header line opens and the format it announces, if `line` is one. */
  datatype Opening = NotHeader | BadHeader | Opens(dev: Dev, oldFormat: bool)

  function Open(line: string): Opening {
    match MatchNewHeader(line)
    case Some((name, rest)) => Announce(name, NewHeaderUpdate(rest), false)
    case None =>
      match MatchOldHeader(line)
      case Some((name, rest)) => Announce(name, OldHeaderUpdate(rest), true)
      case None => NotHeader
  }

  function Announce(name: string, update: Option<Attrs>, oldFormat: bool): Opening {
    if update.None? then BadHeader else Opens(Dev(name, UNSET + update.value), oldFormat)
  }

  /** What a line inside a device's block assigns; None is a ValueError. */
  function BodyUpdate(oldFormat: bool, line: string): Option<Attrs> {
    if oldFormat then Some(OldUpdate(line)) else NewUpdate(line)
  }

  function Step(p: Parser, line: string): Parser {
    if p.Failed? || line == "" then p
    else
      match Open(line)
      case BadHeader => Failed
      case Opens(dev, oldFormat) => Parser(p.devices + [dev], Some(oldFormat))
      case NotHeader =>
        if p.devices == [] || p.oldFormat.None? then p
        else
          match BodyUpdate(p.oldFormat.value, line)
          case None => Failed
          case Some(update) =>
            var n := |p.devices| - 1;
            p.(devices := p.devices[n := p.devices[n].(attrs := p.devices[n].attrs + update)])
  }

  function ParseLines(lines: seq<string>): Parser {
    if lines == [] then START
    else Step(ParseLines(lines[..|lines| - 1]), lines[|lines| - 1])
  }

  function Parse(stdout: string): Parser { ParseLines(SplitLines(stdout)) }

  // ---------------------------------------------------------------------- block structure

  predicate IsHeader(line: string) {
    line != "" && !Open(line).NotHeader?
  }

  /** A line that starts with white space never opens a device. */
  lemma IndentedIsNoHeader(line: string)
    requires line != "" && In(Space, line[0])
    ensures !IsHeader(line)
  {
    RunMiss(Word, line);
  }

  /** The format flag is set whenever there is a current device to read it for. */
  lemma {:induction false} FlagSetBeforeRead(lines: seq<string>)
    ensures var p := ParseLines(lines);
            p.Parser? && p.devices != [] ==> p.oldFormat.Some?
  {
    hide Open, BodyUpdate;
    if lines != [] { FlagSetBeforeRead(lines[..|lines| - 1]); }
  }

  /** A header line with the lines up to the next one. */
  datatype Block = Block(header: string, body: seq<string>)

  /** The blocks of a text; lines before the first header belong to none. */
  function Blocks(lines: seq<string>): seq<Block> {
    if lines == [] then []
    else
      var n := |lines| - 1;
      var blocks, line := Blocks(lines[..n]), lines[n];
      if IsHeader(line) then blocks + [Block(line, [])]
      else if blocks == [] then []
      else
        var m := |blocks| - 1;
        blocks[m := blocks[m].(body := blocks[m].body + [line])]
  }

  /** The attributes after the lines of a body, or None if one of them is not understood. */
  function BodyAttrs(oldFormat: bool, attrs: Attrs, body: seq<string>): Option<Attrs> {
    if body == [] then Some(attrs)
    else
      var n := |body| - 1;
      var before :- BodyAttrs(oldFormat, attrs, body[..n]);
      if body[n] == "" then Some(before)
      else
        var update :- BodyUpdate(oldFormat, body[n]);
        Some(before + update)
  }

  /** A device from its own block alone. */
  function ParseBlock(b: Block): Option<Dev> {
    match Open(b.header)
    case Opens(dev, oldFormat) =>
      var attrs :- BodyAttrs(oldFormat, dev.attrs, b.body);
      Some(dev.(attrs := attrs))
    case _ => None
  }

  ghost predicate AllParse(blocks: seq<Block>) {
    forall i :: 0 <= i < |blocks| ==> ParseBlock(blocks[i]).Some?
  }

  /** The parse is blockwise: it fails exactly when some block does on its own, and
      otherwise yields one device per header, each made from its own block alone. */
  lemma {:induction false} ParseIsBlockwise(lines: seq<string>)
    ensures var p, blocks := ParseLines(lines), Blocks(lines);
            && (p.Failed? <==> !AllParse(blocks))
            && (p.Parser? ==>
                  && |p.devices| == |blocks|
                  && (forall i :: 0 <= i < |blocks| ==>
                        ParseBlock(blocks[i]) == Some(p.devices[i]))
                  && (blocks != [] ==>
                        p.oldFormat == Some(Open(blocks[|blocks| - 1].header).oldFormat)))
  {
    hide Open, BodyUpdate, ParseBlock;
    if lines == [] { return; }
    var n := |lines| - 1;
    var line := lines[n];
    ParseIsBlockwise(lines[..n]);
    var p, blocks := ParseLines(lines[..n]), Blocks(lines[..n]);
    if IsHeader(line) {
      AppendedBlock(blocks, line);
    } else if blocks != [] {
      var b := blocks[|blocks| - 1];
      if Open(b.header).Opens? {
        ExtendBlock(b, line);
      } else {
        ExtendBadBlock(b, line);
      }
      ExtendedBlock(blocks, b.(body := b.body + [line]));
    }
  }

  lemma FreshBlock(line: string)
    ensures Open(line).Opens? ==> ParseBlock(Block(line, [])) == Some(Open(line).dev)
    ensures ParseBlock(Block(line, [])).Some? <==> Open(line).Opens?
  {
    hide Open, BodyUpdate;
  }

  lemma AppendedBlock(blocks: seq<Block>, line: string)
    requires IsHeader(line)
    ensures AllParse(blocks + [Block(line, [])]) <==> AllParse(blocks) && Open(line).Opens?
    ensures Open(line).Opens? ==> ParseBlock(Block(line, [])) == Some(Open(line).dev)
  {
    hide Open, ParseBlock;
    FreshBlock(line);
    var more := blocks + [Block(line, [])];
    assert more[|blocks|] == Block(line, []);
    if AllParse(more) {
      forall i | 0 <= i < |blocks| ensures ParseBlock(blocks[i]).Some? {
        assert more[i] == blocks[i];
      }
    }
  }

  /** A device after one more line of its body. */
  function Extend(dev: Option<Dev>, oldFormat: bool, line: string): Option<Dev> {
    if dev.None? || line == "" then dev
    else
      match BodyUpdate(oldFormat, line)
      case None => None
      case Some(update) => Some(dev.value.(attrs := dev.value.attrs + update))
  }

  lemma ExtendBlock(b: Block, line: string)
    requires Open(b.header).Opens?
    ensures ParseBlock(b.(body := b.body + [line]))
         == Extend(ParseBlock(b), Open(b.header).oldFormat, line)
  {
    hide Open, BodyUpdate;
    assert (b.body + [line])[..|b.body|] == b.body;
  }

  lemma ExtendBadBlock(b: Block, line: string)
    requires !Open(b.header).Opens?
    ensures ParseBlock(b).None? && ParseBlock(b.(body := b.body + [line])).None?
  {
  }

  lemma ExtendedBlock(blocks: seq<Block>, b': Block)
    requires blocks != []
    requires ParseBlock(blocks[|blocks| - 1]).None? ==> ParseBlock(b').None?
    ensures AllParse(blocks[|blocks| - 1 := b']) <==> AllParse(blocks) && ParseBlock(b').Some?
  {
    hide ParseBlock;
    var changed := blocks[|blocks| - 1 := b'];
    assert changed[|blocks| - 1] == b';
    forall i | 0 <= i < |blocks| - 1 ensures changed[i] == blocks[i] {}
    if AllParse(changed) {
      forall i | 0 <= i < |blocks| ensures ParseBlock(blocks[i]).Some? {
        if i < |blocks| - 1 { assert ParseBlock(changed[i]).Some?; }
      }
    }
  }

  function HeaderCount(lines: seq<string>): nat {
    if lines == [] then 0
    else HeaderCount(lines[..|lines| - 1]) + if IsHeader(lines[|lines| - 1]) then 1 else 0
  }

  /** One device per header line. */
  lemma {:induction false} DeviceCount(lines: seq<string>)
    ensures |Blocks(lines)| == HeaderCount(lines)
    ensures ParseLines(lines).Parser? ==> |ParseLines(lines).devices| == HeaderCount(lines)
  {
    hide Open, IsHeader;
    ParseIsBlockwise(lines);
    if lines != [] {
      DeviceCount(lines[..|lines| - 1]);
      if Blocks(lines[..|lines| - 1]) == [] { NoHeaders(lines[..|lines| - 1]); }
    }
  }

  lemma {:induction false} NoHeaders(lines: seq<string>)
    requires Blocks(lines) == []
    ensures HeaderCount(lines) == 0
  {
    if lines != [] {
      NoHeaders(lines[..|lines| - 1]);
    }
  }

  /** Lines before the first header have no effect. */
  lemma {:induction false} PreambleIgnored(preamble: seq<string>, lines: seq<string>)
    requires forall i :: 0 <= i < |preamble| ==> !IsHeader(preamble[i])
    ensures ParseLines(preamble + lines) == ParseLines(lines)
    decreases |preamble| + |lines|
  {
    hide Open, BodyUpdate;
    if lines != [] {
      var n := |lines| - 1;
      PreambleIgnored(preamble, lines[..n]);
      assert (preamble + lines)[..|preamble| + n] == preamble + lines[..n];
    } else if preamble != [] {
      var n := |preamble| - 1;
      PreambleIgnored(preamble[..n], []);
      assert preamble[..n] + [] == preamble[..n];
      assert preamble + [] == preamble;
    } else {
      assert preamble + lines == [];
    }
  }

  // ------------------------------------------------------------------------ inside a block

  /** What the line assigns to the attribute, if anything. */
  function Written(oldFormat: bool, line: string, a: Attr): Option<Val> {
    if line == "" then None
    else
      match BodyUpdate(oldFormat, line)
      case None => None
      case Some(update) => if a in update then Some(update[a]) else None
  }

  predicate Writes(oldFormat: bool, line: string, a: Attr) {
    Written(oldFormat, line, a).Some?
  }

  /** Line `j` is the last of the body to assign the attribute. */
  ghost predicate LastWriter(oldFormat: bool, body: seq<string>, a: Attr, j: nat) {
    && j < |body| && Writes(oldFormat, body[j], a)
    && forall k :: j < k < |body| ==> !Writes(oldFormat, body[k], a)
  }

  /** A body is understood exactly when every non-empty line is. */
  lemma {:induction false} BodySucceedsIff(oldFormat: bool, attrs: Attrs, body: seq<string>)
    ensures BodyAttrs(oldFormat, attrs, body).Some?
       <==> forall i :: 0 <= i < |body| && body[i] != "" ==> BodyUpdate(oldFormat, body[i]).Some?
  {
    hide BodyUpdate;
    if body != [] {
      var n := |body| - 1;
      BodySucceedsIff(oldFormat, attrs, body[..n]);
      assert forall i :: 0 <= i < n ==> body[..n][i] == body[i];
    }
  }

  /** The value of an attribute once a body has been parsed. */
  function ValueIn(attrs: Option<Attrs>, a: Attr): Option<Val> {
    match attrs
    case None => None
    case Some(m) => if a in m then Some(m[a]) else None
  }

  lemma LastLine(oldFormat: bool, attrs: Attrs, body: seq<string>, a: Attr)
    requires body != [] && BodyAttrs(oldFormat, attrs, body).Some?
    ensures BodyAttrs(oldFormat, attrs, body[..|body| - 1]).Some?
    ensures ValueIn(BodyAttrs(oldFormat, attrs, body), a)
         == var written := Written(oldFormat, body[|body| - 1], a);
            if written.Some? then written
            else ValueIn(BodyAttrs(oldFormat, attrs, body[..|body| - 1]), a)
  {
    hide BodyUpdate;
  }

  lemma WriterGrows(oldFormat: bool, body: seq<string>, a: Attr, i: Option<nat>)
    requires body != []
    requires var before := body[..|body| - 1];
             if i.Some? then LastWriter(oldFormat, before, a, i.value)
             else forall k :: 0 <= k < |before| ==> !Writes(oldFormat, before[k], a)
    ensures var n := |body| - 1;
            if Writes(oldFormat, body[n], a) then LastWriter(oldFormat, body, a, n)
            else if i.Some? then
              LastWriter(oldFormat, body, a, i.value) && body[..n][i.value] == body[i.value]
            else forall k :: 0 <= k < |body| ==> !Writes(oldFormat, body[k], a)
    ensures Writes(oldFormat, body[|body| - 1], a)
       <==> Written(oldFormat, body[|body| - 1], a).Some?
  {
    hide Written;
    var before := body[..|body| - 1];
    forall k | 0 <= k < |before| ensures before[k] == body[k] {}
  }

  /** An attribute holds what the last line assigning it gave it, or, if there is none,
      what it held before. */
  lemma {:induction false} LastLineWins(oldFormat: bool, attrs: Attrs, body: seq<string>, a: Attr)
    returns (j: Option<nat>)
    requires BodyAttrs(oldFormat, attrs, body).Some?
    ensures j.Some? ==>
      && LastWriter(oldFormat, body, a, j.value)
      && ValueIn(BodyAttrs(oldFormat, attrs, body), a) == Written(oldFormat, body[j.value], a)
    ensures j.None? ==>
      && (forall k :: 0 <= k < |body| ==> !Writes(oldFormat, body[k], a))
      && ValueIn(BodyAttrs(oldFormat, attrs, body), a) == ValueIn(Some(attrs), a)
  {
    hide BodyUpdate, Written;
    if body == [] { return None; }
    LastLine(oldFormat, attrs, body, a);
    hide *;
    var n := |body| - 1;
    var i := LastLineWins(oldFormat, attrs, body[..n], a);
    WriterGrows(oldFormat, body, a, i);
    return if Writes(oldFormat, body[n], a) then Some(n) else i;
  }

  /** No attribute is assigned by two different lines of the body. */
  ghost predicate Separate(oldFormat: bool, body: seq<string>) {
    forall i, j, a: Attr | 0 <= i < j < |body| ::
      !(Writes(oldFormat, body[i], a) && Writes(oldFormat, body[j], a))
  }

  /** In a body whose lines assign different attributes the order of lines is immaterial. */
  lemma OrderIsImmaterial(oldFormat: bool, attrs: Attrs, body: seq<string>, body': seq<string>)
    requires Separate(oldFormat, body) && forall line :: line in body <==> line in body'
    ensures BodyAttrs(oldFormat, attrs, body) == BodyAttrs(oldFormat, attrs, body')
  {
    hide BodyUpdate, BodyAttrs, Written, ValueIn;
    BodySucceedsIff(oldFormat, attrs, body);
    BodySucceedsIff(oldFormat, attrs, body');
    SameLines(oldFormat, body, body');
    if BodyAttrs(oldFormat, attrs, body).Some? {
      forall a: Attr
        ensures ValueIn(BodyAttrs(oldFormat, attrs, body), a)
             == ValueIn(BodyAttrs(oldFormat, attrs, body'), a)
      {
        var j := LastLineWins(oldFormat, attrs, body, a);
        var j' := LastLineWins(oldFormat, attrs, body', a);
        SameWriter(oldFormat, body, body', a, j, j');
      }
      SameValues(BodyAttrs(oldFormat, attrs, body), BodyAttrs(oldFormat, attrs, body'));
    }
  }

  lemma SameValues(m: Option<Attrs>, m': Option<Attrs>)
    requires m.Some? && m'.Some? && forall a: Attr :: ValueIn(m, a) == ValueIn(m', a)
    ensures m == m'
  {
    forall a: Attr
      ensures a in m.value <==> a in m'.value
      ensures a in m.value ==> m.value[a] == m'.value[a]
    {
      assert ValueIn(m, a) == ValueIn(m', a);
    }
    assert m.value == m'.value;
  }

  lemma SameLines(oldFormat: bool, body: seq<string>, body': seq<string>)
    requires forall line :: line in body <==> line in body'
    ensures (forall i :: 0 <= i < |body| && body[i] != "" ==> BodyUpdate(oldFormat, body[i]).Some?)
       <==> (forall i :: 0 <= i < |body'| && body'[i] != "" ==>
               BodyUpdate(oldFormat, body'[i]).Some?)
  {
    hide BodyUpdate;
    assert forall i :: 0 <= i < |body| ==> body[i] in body';
    assert forall i :: 0 <= i < |body'| ==> body'[i] in body;
  }

  lemma SameWriter(oldFormat: bool, body: seq<string>, body': seq<string>, a: Attr,
                   j: Option<nat>, j': Option<nat>)
    requires Separate(oldFormat, body) && forall line :: line in body <==> line in body'
    requires if j.Some? then LastWriter(oldFormat, body, a, j.value)
             else forall k :: 0 <= k < |body| ==> !Writes(oldFormat, body[k], a)
    requires if j'.Some? then LastWriter(oldFormat, body', a, j'.value)
             else forall k :: 0 <= k < |body'| ==> !Writes(oldFormat, body'[k], a)
    ensures j.Some? <==> j'.Some?
    ensures j.Some? ==> body[j.value] == body'[j'.value]
  {
    hide BodyUpdate, Writes;
    if j'.Some? {
      assert body'[j'.value] in body;
      var k :| 0 <= k < |body| && body[k] == body'[j'.value];
      assert Writes(oldFormat, body[k], a);
    }
    if j.Some? {
      assert body[j.value] in body';
      var k :| 0 <= k < |body'| && body'[k] == body[j.value];
      assert Writes(oldFormat, body'[k], a);
    }
  }
}
