/** get_devices of python-ethtool/ethtool.c: the names in /proc/net/dev, read through a
    buffer of 256 bytes. */
module ProcNetDev {
  import opened Numerals
  import opened Wrappers

  const SIZE := 256

  // ------------------------------------------------------------------ fgets and the stream

  /** How many characters fgets takes: through the first newline, but at most `limit`. */
  function Taken(limit: nat, s: string): (n: nat)
    ensures n <= |s| && n <= limit && (s != "" && limit > 0 ==> n > 0)
  {
    if limit == 0 || s == "" then 0
    else if s[0] == '\n' then 1
    else 1 + Taken(limit - 1, s[1..])
  }

  /** One character more. */
  lemma TakenStep(limit: nat, s: string, n: nat)
    requires n < |s| && 0 < limit
    ensures Taken(limit, s[n..]) == if s[n] == '\n' then 1 else 1 + Taken(limit - 1, s[n + 1..])
  {
    assert s[n..][1..] == s[n + 1..];
  }

  lemma TakenNone(limit: nat, s: string)
    requires limit == 0 || s == ""
    ensures Taken(limit, s) == 0
  {
  }

  /** fgets stops before its limit at a newline or at the end only. */
  lemma {:induction false} TakenShort(limit: nat, s: string)
    requires var n := Taken(limit, s); n < limit && (n == 0 || s[n - 1] != '\n')
    ensures Taken(limit, s) == |s|
  {
    if s != "" && s[0] != '\n' { TakenShort(limit - 1, s[1..]); }
  }

  /** The pieces in which a text is read with a given limit. */
  function Chunks(limit: nat, s: string): seq<string>
    requires limit > 0
  {
    if s == "" then []
    else [s[..Taken(limit, s)]] + Chunks(limit, s[Taken(limit, s)..])
  }

  /** The lines of a text, each with its newline if it has one. */
  function Lines(s: string): seq<string> {
    if s == "" then []
    else [s[..Taken(|s|, s)]] + Lines(s[Taken(|s|, s)..])
  }

  /** A stdio stream for reading: fgets, feof. */
  class Stream {
    const data: string
    var pos: nat
    var eof: bool

    ghost predicate Valid()
      reads this
    {
      pos <= |data| && (eof ==> pos == |data|)
    }

    ghost function Rest(): string
      reads this
      requires Valid()
    {
      data[pos..]
    }

    constructor (data: string)
      ensures Valid() && this.data == data && Rest() == data && !eof
    {
      this.data := data;
      pos := 0;
      eof := false;
      new;
      assert data[0..] == data;
    }

    /** The copying loop of fgets: through the first newline, with room for the terminator. */
    method CopyLine(buffer: array<char>) returns (n: nat)
      requires Valid() && buffer.Length > 1
      modifies this`pos, buffer
      ensures Valid() && n == Taken(buffer.Length - 1, old(Rest())) && pos == old(pos) + n
      ensures buffer[..n] == data[old(pos)..pos]
      ensures n == 0 ==> buffer[..] == old(buffer[..])
    {
      hide Taken;
      n := 0;
      ghost var start, limit := pos, buffer.Length - 1;
      assert data[start + 0..] == data[start..];
      while n < buffer.Length - 1 && pos < |data| && (n == 0 || buffer[n - 1] != '\n')
        invariant n <= limit && pos == start + n <= |data|
        invariant buffer[..n] == data[start..pos]
        invariant n == 0 ==> buffer[..] == old(buffer[..])
        invariant Taken(limit, data[start..])
               == n + if n > 0 && buffer[n - 1] == '\n' then 0 else Taken(limit - n, data[pos..])
      {
        TakenStep(limit - n, data, pos);
        buffer[n] := data[pos];
        pos, n := pos + 1, n + 1;
      }
      if n == limit || pos == |data| { TakenNone(limit - n, data[pos..]); }
    }

    /** fgets(buffer, sizeof buffer, this): false is its NULL, which leaves the buffer alone. */
    method Fgets(buffer: array<char>) returns (some: bool)
      requires Valid() && buffer.Length > 1
      modifies this, buffer
      ensures Valid() && old(pos) <= pos
      ensures some == (old(Rest()) != "")
      ensures !some ==> buffer[..] == old(buffer[..]) && Rest() == "" && eof
      ensures some ==>
        var n := Taken(buffer.Length - 1, old(Rest()));
        && n < buffer.Length && buffer[..n] == old(Rest())[..n] && buffer[n] == '\0'
        && Rest() == old(Rest())[n..]
    {
      ghost var rest := Rest();
      var n := CopyLine(buffer);
      if n < buffer.Length - 1 && (n == 0 || buffer[n - 1] != '\n') {
        TakenShort(buffer.Length - 1, rest);
        eof := true;
      }
      if n == 0 { return false; }
      buffer[n] := '\0';
      return true;
    }
  }

  // ------------------------------------------------------------------------------ one name

  /** The part of a C string up to the first colon. */
  function NameEnd(s: string): (n: nat)
    ensures n <= |s| && (n < |s| ==> s[n] == ':' || s[n] == '\0')
    ensures forall i :: 0 <= i < n ==> s[i] != ':' && s[i] != '\0'
  {
    if s == "" || s[0] == ':' || s[0] == '\0' then 0 else 1 + NameEnd(s[1..])
  }

  function Blanks(s: string): (n: nat)
    ensures n <= |s| && (n < |s| ==> s[n] != ' ')
    ensures forall i :: 0 <= i < n ==> s[i] == ' '
  {
    if s == "" || s[0] != ' ' then 0 else 1 + Blanks(s[1..])
  }

  /** The text before the first colon without its leading spaces. */
  function Name(chunk: string): string {
    var head := chunk[..NameEnd(chunk)];
    head[Blanks(head)..]
  }

  function Names(chunks: seq<string>): seq<string> {
    seq(|chunks|, i requires 0 <= i < |chunks| => Name(chunks[i]))
  }

  lemma {:induction false} NameEndIs(s: string, n: nat)
    requires n <= |s| && (n < |s| ==> s[n] == ':' || s[n] == '\0')
    requires forall i :: 0 <= i < n ==> s[i] != ':' && s[i] != '\0'
    ensures NameEnd(s) == n
  {
    if n > 0 { NameEndIs(s[1..], n - 1); }
  }

  lemma {:induction false} BlanksIs(s: string, n: nat)
    requires n <= |s| && (n < |s| ==> s[n] != ' ')
    requires forall i :: 0 <= i < n ==> s[i] == ' '
    ensures Blanks(s) == n
  {
    if n > 0 { BlanksIs(s[1..], n - 1); }
  }

  /** PyStr_FromString: the C string that starts at `start`. */
  method CString(buffer: array<char>, start: nat, ghost end: nat) returns (s: string)
    requires start <= end < buffer.Length && buffer[end] == '\0'
    requires forall i :: start <= i < end ==> buffer[i] != '\0'
    ensures s == buffer[start..end]
  {
    s := "";
    var i := start;
    while buffer[i] != '\0'
      invariant start <= i <= end && s == buffer[start..i]
      decreases end - i
    {
      s := s + [buffer[i]];
      i := i + 1;
    }
  }

  /** The two scans, in place: find the colon and put a terminator there, skip the spaces.
      Both stay inside the buffer whatever it holds, for fgets has terminated it. */
  method TakeName(buffer: array<char>, ghost chunk: string) returns (name: string)
    requires |chunk| < buffer.Length && buffer[..|chunk|] == chunk && buffer[|chunk|] == '\0'
    modifies buffer
    ensures name == Name(chunk)
  {
    var end := 0;
    assert forall i :: 0 <= i < |chunk| ==> buffer[i] == buffer[..|chunk|][i];
    while buffer[end] != '\0' && buffer[end] != ':'
      invariant end <= |chunk|
      invariant forall i :: 0 <= i < end ==> buffer[i] != '\0' && buffer[i] != ':'
      decreases |chunk| - end
    {
      end := end + 1;
    }
    NameEndIs(chunk, end);
    buffer[end] := '\0';
    ghost var head := chunk[..end];
    assert forall i :: 0 <= i < end ==> buffer[i] == head[i];
    var start := 0;
    while buffer[start] == ' '
      invariant start <= end
      invariant forall i :: 0 <= i < start ==> head[i] == ' '
      decreases end - start
    {
      start := start + 1;
    }
    BlanksIs(head, start);
    name := CString(buffer, start, end);
    assert name == head[start..];
  }

  // ---------------------------------------------------------------------------- the whole

  datatype IoError = OSError

  /** What the C code returns for a file with this content. */
  function ChunkReader(data: string): Result<seq<string>, IoError> {
    var chunks := Chunks(SIZE - 1, data);
    if |chunks| < 2 then Err(OSError) else Ok(Names(chunks[2..]))
  }

  /** What it is meant to return: a name per line after the two of the heading. */
  function LineReader(data: string): Result<seq<string>, IoError> {
    var lines := Lines(data);
    if |lines| < 2 then Err(OSError) else Ok(Names(lines[2..]))
  }

  lemma ChunkStep(rest: string)
    requires rest != ""
    ensures var n := Taken(SIZE - 1, rest);
            && Chunks(SIZE - 1, rest) == [rest[..n]] + Chunks(SIZE - 1, rest[n..])
            && Names(Chunks(SIZE - 1, rest)) == [Name(rest[..n])] + Names(Chunks(SIZE - 1, rest[n..]))
  {
  }

  lemma NothingLeft()
    ensures Names(Chunks(SIZE - 1, "")) == []
  {
  }

  /** The heading: two fillings of the buffer, whatever they hold; false if there are fewer. */
  method SkipHeading(fd: Stream, buffer: array<char>) returns (ok: bool)
    requires fd.Valid() && buffer.Length == SIZE
    modifies fd, buffer
    ensures fd.Valid()
    ensures ok <==> |Chunks(SIZE - 1, old(fd.Rest()))| >= 2
    ensures ok ==> Chunks(SIZE - 1, fd.Rest()) == Chunks(SIZE - 1, old(fd.Rest()))[2..]
  {
    hide Taken, Name, Names;
    ghost var first := fd.Rest();
    ok := fd.Fgets(buffer);
    ghost var second := fd.Rest();
    ok := fd.Fgets(buffer);
    if first != "" { ChunkStep(first); }
    if second != "" { ChunkStep(second); }
  }

  /** One round of the loop: the next filling's name, or nothing at the end of the file. */
  method NextName(fd: Stream, buffer: array<char>) returns (name: Option<string>)
    requires fd.Valid() && buffer.Length == SIZE
    modifies fd, buffer
    ensures fd.Valid() && old(fd.pos) <= fd.pos
    ensures name.None? <==> old(fd.Rest()) == ""
    ensures name.None? ==> fd.Rest() == ""
    ensures name.Some? ==> fd.pos > old(fd.pos)
    ensures name.Some? ==>
      Names(Chunks(SIZE - 1, old(fd.Rest()))) == [name.value] + Names(Chunks(SIZE - 1, fd.Rest()))
  {
    hide Chunks, Names, Name, Taken;
    ghost var rest := fd.Rest();
    var ret := fd.Fgets(buffer);
    if !ret {
      return None;
    }
    var text := TakeName(buffer, rest[..Taken(SIZE - 1, rest)]);
    ChunkStep(rest);
    return Some(text);
  }

  lemma OneMoreName(list: seq<string>, name: string, rest: seq<string>)
    ensures list + ([name] + rest) == (list + [name]) + rest
  {
  }

  /** The loop: a name per filling until the end of the file. */
  method ReadNames(fd: Stream, buffer: array<char>) returns (list: seq<string>)
    requires fd.Valid() && buffer.Length == SIZE
    modifies fd, buffer
    ensures list == Names(Chunks(SIZE - 1, old(fd.Rest())))
  {
    hide Names, Chunks;
    ghost var wanted := Names(Chunks(SIZE - 1, fd.Rest()));
    NothingLeft();
    list := [];
    while !fd.eof
      invariant fd.Valid() && buffer.Length == SIZE
      invariant list + Names(Chunks(SIZE - 1, fd.Rest())) == wanted
      decreases |fd.data| - fd.pos
    {
      var name := NextName(fd, buffer);
      if name.None? {
        break;
      }
      OneMoreName(list, name.value, Names(Chunks(SIZE - 1, fd.Rest())));
      list := list + [name.value];
    }
    assert fd.Rest() == "" && list + [] == list;
  }

  /** get_devices, given the content of the file, or None if it cannot be opened. */
  method GetDevices(file: Option<string>) returns (r: Result<seq<string>, IoError>)
    ensures r == if file.None? then Err(OSError) else ChunkReader(file.value)
  {
    hide Names, Chunks;
    var buffer := new char[SIZE];
    if file.None? {
      return Err(OSError);
    }
    var fd := new Stream(file.value);
    var ret := SkipHeading(fd, buffer);
    if !ret {
      return Err(OSError);
    }
    var list := ReadNames(fd, buffer);
    return Ok(list);
  }

  // ------------------------------------------------------- the buffer against whole lines

  lemma {:induction false} TakenIs(limit: nat, s: string, whole: nat)
    requires whole >= |s|
    ensures var n := Taken(whole, s); Taken(limit, s) == if limit <= n then limit else n
  {
    if limit > 0 && s != "" && s[0] != '\n' { TakenIs(limit - 1, s[1..], whole - 1); }
  }

  /** What is left of the first line behind `k` of its characters. */
  lemma {:induction false} TakenBehind(s: string, k: nat)
    requires k < Taken(|s|, s)
    ensures Taken(|s| - k, s[k..]) == Taken(|s|, s) - k
  {
    if k > 0 {
      TakenBehind(s[1..], k - 1);
      assert s[1..][k - 1..] == s[k..];
    }
  }

  /** The number of times the buffer is filled for a line. */
  function Fillings(limit: nat, length: nat): (n: nat)
    requires limit > 0
    ensures length > 0 ==> n >= 1 && (n == 1 <==> length <= limit)
  {
    if length == 0 then 0 else if length <= limit then 1 else 1 + Fillings(limit, length - limit)
  }

  function AllFillings(limit: nat, lines: seq<string>): nat
    requires limit > 0
  {
    if lines == [] then 0 else Fillings(limit, |lines[0]|) + AllFillings(limit, lines[1..])
  }

  lemma {:induction false} LineTakesFillings(limit: nat, s: string)
    requires limit > 0 && s != ""
    ensures var n := Taken(|s|, s);
            |Chunks(limit, s)| == Fillings(limit, n) + |Chunks(limit, s[n..])|
    decreases |s|
  {
    hide Taken;
    var n, m := Taken(|s|, s), Taken(limit, s);
    TakenIs(limit, s, |s|);
    if limit < n {
      var rest := s[limit..];
      TakenBehind(s, limit);
      LineTakesFillings(limit, rest);
      assert rest[n - limit..] == s[n..];
    }
  }

  /** Every line takes as many buffer fillings as its length needs, so a line longer than
      the buffer yields phantom devices. */
  lemma {:induction false} ChunksAreFillings(limit: nat, s: string)
    requires limit > 0
    ensures |Chunks(limit, s)| == AllFillings(limit, Lines(s))
    decreases |s|
  {
    hide Taken;
    if s != "" {
      var n := Taken(|s|, s);
      LineTakesFillings(limit, s);
      ChunksAreFillings(limit, s[n..]);
      assert Lines(s)[1..] == Lines(s[n..]);
    }
  }

  predicate Fits(limit: nat, lines: seq<string>) {
    forall i :: 0 <= i < |lines| ==> |lines[i]| <= limit
  }

  lemma {:induction false} LinesAreNotEmpty(s: string)
    ensures forall i :: 0 <= i < |Lines(s)| ==> Lines(s)[i] != ""
    decreases |s|
  {
    if s != "" { LinesAreNotEmpty(s[Taken(|s|, s)..]); }
  }

  lemma {:induction false} FillingsIff(limit: nat, lines: seq<string>)
    requires limit > 0 && forall i :: 0 <= i < |lines| ==> lines[i] != ""
    ensures AllFillings(limit, lines) >= |lines|
    ensures AllFillings(limit, lines) == |lines| <==> Fits(limit, lines)
  {
    if lines != [] {
      FillingsIff(limit, lines[1..]);
      FitsTail(limit, lines);
      hide Fits;
    }
  }

  lemma FitsTail(limit: nat, lines: seq<string>)
    requires lines != []
    ensures Fits(limit, lines) <==> |lines[0]| <= limit && Fits(limit, lines[1..])
  {
    if Fits(limit, lines[1..]) && |lines[0]| <= limit {
      forall i | 0 <= i < |lines| ensures |lines[i]| <= limit {
        if i > 0 { assert lines[i] == lines[1..][i - 1]; }
      }
    }
  }

  lemma {:induction false} FittingLinesAreChunks(limit: nat, s: string)
    requires limit > 0 && Fits(limit, Lines(s))
    ensures Chunks(limit, s) == Lines(s)
    decreases |s|
  {
    hide Taken, Fits;
    if s != "" {
      var n := Taken(|s|, s);
      TakenIs(limit, s, |s|);
      FitsTail(limit, Lines(s));
      assert Lines(s)[1..] == Lines(s[n..]);
      FittingLinesAreChunks(limit, s[n..]);
    }
  }

  /** The buffered reader does what a reader of whole lines would exactly if every line,
      newline included, has at most 255 characters. */
  lemma ReadsLinesIff(data: string)
    ensures ChunkReader(data) == LineReader(data) <==> Fits(SIZE - 1, Lines(data))
  {
    var lines, chunks := Lines(data), Chunks(SIZE - 1, data);
    LinesAreNotEmpty(data);
    ChunksAreFillings(SIZE - 1, data);
    FillingsIff(SIZE - 1, lines);
    hide Chunks, Lines, AllFillings, Name;
    if Fits(SIZE - 1, lines) {
      FittingLinesAreChunks(SIZE - 1, data);
    } else {
      hide Fits;
      assert lines != [] by { if lines == [] { NoLinesFit(); } }
      assert |chunks| > |lines| >= 1;
      if |lines| >= 2 { assert |Names(chunks[2..])| != |Names(lines[2..])|; }
    }
  }

  lemma NoLinesFit()
    ensures Fits(SIZE - 1, [])
  {
  }

  // --------------------------------------------------------- reading what the kernel prints

  /** A row of the file: the name right-aligned, a colon, the counters. */
  datatype Row = Row(pad: nat, name: string, counters: string)

  predicate ValidRow(row: Row) {
    && (forall i :: 0 <= i < |row.name| ==> row.name[i] !in ": \n\0")
    && OneLine(row.counters) && |RowText(row)| <= SIZE - 1
  }

  predicate OneLine(s: string) { forall i :: 0 <= i < |s| ==> s[i] != '\n' }

  function RowBody(row: Row): string { Pad(row.pad) + (row.name + (":" + row.counters)) }

  function RowText(row: Row): string { RowBody(row) + "\n" }

  function RowsText(rows: seq<Row>): string {
    if rows == [] then "" else RowText(rows[0]) + RowsText(rows[1..])
  }

  function RowLines(rows: seq<Row>): seq<string> {
    seq(|rows|, i requires 0 <= i < |rows| => RowText(rows[i]))
  }

  lemma {:induction false} TakenLine(line: string, rest: string, limit: nat)
    requires OneLine(line) && limit >= |line| + 1
    ensures Taken(limit, line + "\n" + rest) == |line| + 1
  {
    var s := line + "\n" + rest;
    if line != "" {
      assert s[1..] == line[1..] + "\n" + rest;
      TakenLine(line[1..], rest, limit - 1);
    }
  }

  lemma LineFirst(line: string, rest: string)
    requires OneLine(line)
    ensures Lines(line + "\n" + rest) == [line + "\n"] + Lines(rest)
  {
    var s := line + "\n" + rest;
    TakenLine(line, rest, |s|);
    assert s[..|line| + 1] == line + "\n" && s[|line| + 1..] == rest;
  }

  lemma {:induction false} RowsAreLines(rows: seq<Row>)
    requires forall i :: 0 <= i < |rows| ==> ValidRow(rows[i])
    ensures Lines(RowsText(rows)) == RowLines(rows)
  {
    hide Lines, ValidRow, RowBody;
    if rows == [] {
      NoText();
    } else {
      RowsAreLines(rows[1..]);
      RowIsOneLine(rows[0]);
      LineFirst(RowBody(rows[0]), RowsText(rows[1..]));
      assert RowLines(rows) == [RowText(rows[0])] + RowLines(rows[1..]);
    }
  }

  lemma NoText()
    ensures Lines("") == []
  {
  }

  lemma RowIsOneLine(row: Row)
    requires ValidRow(row)
    ensures OneLine(RowBody(row))
  {
    var text := row.name + (":" + row.counters);
    forall i | 0 <= i < |text| ensures text[i] != '\n' {}
  }

  lemma RowName(row: Row)
    requires ValidRow(row)
    ensures Name(RowText(row)) == row.name
  {
    var s, head := RowText(row), Pad(row.pad) + row.name;
    assert s == head + (":" + row.counters + "\n");
    forall i | 0 <= i < |head| ensures s[i] == head[i] != ':' && head[i] != '\0' {}
    NameEndIs(s, |head|);
    assert s[..|head|] == head;
    BlanksIs(head, row.pad);
    assert head[row.pad..] == row.name;
  }

  function RowNames(rows: seq<Row>): seq<string> {
    seq(|rows|, i requires 0 <= i < |rows| => rows[i].name)
  }

  lemma NamesOfRows(rows: seq<Row>)
    requires forall i :: 0 <= i < |rows| ==> ValidRow(rows[i])
    ensures Names(RowLines(rows)) == RowNames(rows)
    ensures Fits(SIZE - 1, RowLines(rows))
  {
    hide Name, RowText;
    forall i | 0 <= i < |rows|
      ensures |RowText(rows[i])| <= SIZE - 1 && Name(RowText(rows[i])) == rows[i].name
    {
      RowName(rows[i]);
    }
  }

  /** A file as the kernel prints it, with two heading lines. */
  function ProcText(first: string, second: string, rows: seq<Row>): string {
    first + "\n" + (second + "\n" + RowsText(rows))
  }

  lemma ProcLines(first: string, second: string, rows: seq<Row>)
    requires OneLine(first) && OneLine(second)
    requires forall i :: 0 <= i < |rows| ==> ValidRow(rows[i])
    ensures Lines(ProcText(first, second, rows))
         == [first + "\n"] + ([second + "\n"] + RowLines(rows))
  {
    hide Lines, RowsText, RowLines, ValidRow;
    LineFirst(first, second + "\n" + RowsText(rows));
    LineFirst(second, RowsText(rows));
    RowsAreLines(rows);
  }

  /** The names in a file come back in order, whatever its two heading lines say. */
  lemma RowsReadBack(first: string, second: string, rows: seq<Row>)
    requires OneLine(first) && |first| <= SIZE - 2 && OneLine(second) && |second| <= SIZE - 2
    requires forall i :: 0 <= i < |rows| ==> ValidRow(rows[i])
    ensures ChunkReader(ProcText(first, second, rows)) == Ok(RowNames(rows))
  {
    hide Lines, OneLine, ValidRow, ProcText, RowLines, ChunkReader, Names, RowNames;
    ProcLines(first, second, rows);
    NamesOfRows(rows);
    var data := ProcText(first, second, rows);
    ReadsLinesIff(data);
    assert Lines(data)[2..] == RowLines(rows);
  }

  /** What is taken for the name: it stands behind the leading blanks and before the first
      colon; a line without one is a name as a whole, newline and all. */
  lemma NameIsBetween(chunk: string) returns (start: nat, end: nat)
    ensures start <= end <= |chunk| && Name(chunk) == chunk[start..end]
    ensures forall i :: 0 <= i < start ==> chunk[i] == ' '
    ensures start < end ==> chunk[start] != ' '
    ensures forall i :: 0 <= i < end ==> chunk[i] != ':' && chunk[i] != '\0'
    ensures end < |chunk| ==> chunk[end] == ':' || chunk[end] == '\0'
  {
    end := NameEnd(chunk);
    start := Blanks(chunk[..end]);
  }
}
