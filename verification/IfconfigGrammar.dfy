/** The lines of the new ifconfig format and both kinds of first lines as languages: what the
    regular expressions of parse_ifconfig.py match when every repetition may end anywhere.
    The parser's reading, with its longest runs, succeeds on exactly these. */
module IfconfigGrammar {
  import opened IfconfigPatterns
  import opened IfconfigParser
  import opened Numerals
  import opened Scanner
  import opened Wrappers

  // ----------------------------------------------------------------------- the pieces

  /** A non-empty run of the class, ending anywhere, and `k` behind it. */
  ghost predicate SomeRun(cls: Class, s: string, k: string -> bool) {
    exists n :: 0 < n <= |s| && All(cls, s[..n]) && k(s[n..])
  }

  /** \s+ and the text, and `k` behind it. */
  ghost predicate SpacedWord(text: string, s: string, k: string -> bool) {
    exists n :: 0 < n <= |s| && All(Space, s[..n]) && text <= s[n..] && k(s[n..][|text|..])
  }

  /** An address, ending anywhere, and `k` behind it. */
  ghost predicate SomeIp4(s: string, k: string -> bool) {
    exists n :: 0 < n <= |s| && IsIp4(s[..n]) && k(s[n..])
  }

  predicate Anything(s: string) { true }

  predicate NotEmpty(s: string) { s != "" }

  /** What follows cannot start with a character of the class. */
  ghost predicate Avoids(cls: Class, k: string -> bool) {
    forall s: string :: s != "" && In(cls, s[0]) ==> !k(s)
  }

  lemma RunIs(cls: Class, s: string)
    ensures var n := Span(cls, s);
            && (n > 0 ==> Run(cls, s) == Some((s[..n], s[n..])))
            && (n == 0 ==> Run(cls, s) == None)
  {
  }

  /** No run reaches beyond the longest one, and a shorter one stops before its class. */
  lemma RunEnds(cls: Class, s: string, n: nat)
    requires 0 < n <= |s| && All(cls, s[..n])
    ensures n <= Span(cls, s)
    ensures n < Span(cls, s) ==> In(cls, s[n..][0])
  {
    var m := Span(cls, s);
    forall i | 0 <= i < n ensures In(cls, s[i]) {
      assert s[..n][i] == s[i];
    }
    assert m < |s| ==> s[m..][0] == s[m];
    if n < m {
      assert s[n..][0] == s[..m][n];
    }
  }

  lemma SomeRunIff(cls: Class, s: string, k: string -> bool)
    requires Avoids(cls, k)
    ensures SomeRun(cls, s, k) <==> Run(cls, s).Some? && k(Run(cls, s).value.1)
  {
    RunIs(cls, s);
    forall n | 0 < n <= |s| && All(cls, s[..n]) && k(s[n..]) ensures n == Span(cls, s) {
      RunEnds(cls, s, n);
    }
  }

  lemma LastRunIff(cls: Class, s: string)
    ensures SomeRun(cls, s, Anything) <==> Run(cls, s).Some?
  {
    RunIs(cls, s);
    forall n | 0 < n <= |s| && All(cls, s[..n]) ensures Span(cls, s) > 0 {
      RunEnds(cls, s, n);
    }
    if Run(cls, s).Some? { assert Anything(s[Span(cls, s)..]); }
  }

  lemma SpacedWordIff(text: string, s: string, k: string -> bool)
    requires text != "" && !In(Space, text[0])
    ensures SpacedWord(text, s, k)
       <==> Ws(s).Some? && Lit(text, Ws(s).value).Some? && k(Lit(text, Ws(s).value).value)
  {
    RunIs(Space, s);
    forall n | 0 < n <= |s| && All(Space, s[..n]) && text <= s[n..] ensures n == Span(Space, s) {
      RunEnds(Space, s, n);
      assert s[n..][0] == text[0];
    }
  }

  /** A word behind white space starts with white space. */
  lemma SpacedWordAvoids(cls: Class, text: string, k: string -> bool)
    requires cls != Space
    ensures forall s: string :: s != "" && In(cls, s[0]) ==> !SpacedWord(text, s, k)
  {
    forall s: string | s != "" && SpacedWord(text, s, k) ensures !In(cls, s[0]) {
      var n :| 0 < n <= |s| && All(Space, s[..n]) && text <= s[n..] && k(s[n..][|text|..]);
      assert s[..n][0] == s[0];
    }
  }

  lemma SomeRunAvoids(cls: Class, other: Class, k: string -> bool)
    requires forall c :: !(In(cls, c) && In(other, c))
    ensures forall s: string :: s != "" && In(cls, s[0]) ==> !SomeRun(other, s, k)
  {
    forall s: string | s != "" && SomeRun(other, s, k) ensures !In(cls, s[0]) {
      var n :| 0 < n <= |s| && All(other, s[..n]) && k(s[n..]);
      assert s[..n][0] == s[0];
    }
  }

  // ------------------------------------------------------------------------- addresses

  lemma RunParts(cls: Class, s: string)
    ensures Run(cls, s).Some? ==>
      var (x, rest) := Run(cls, s).value;
      s == x + rest && x != "" && All(cls, x) && Leaves(cls, rest)
  {
  }

  lemma DottedTail(a: string, b: string, c: string, d: string, rest: string)
    ensures a + ("." + (b + ("." + (c + ("." + (d + rest)))))) == Dotted(a, b, c, d) + rest
  {
  }

  lemma LitParts(text: string, s: string)
    ensures Lit(text, s).Some? ==> s == text + Lit(text, s).value
  {
  }

  lemma Ip4Parts(s: string)
    ensures Ip4(s).Some? ==>
      var (x, rest) := Ip4(s).value;
      s == x + rest && IsIp4(x) && x != "" && Leaves(Digit, rest)
  {
    hide Run, Lit;
    if Ip4(s).Some? {
      var (a, s1) := Run(Digit, s).value;
      var s2 := Lit(".", s1).value;
      var (b, s3) := Run(Digit, s2).value;
      var s4 := Lit(".", s3).value;
      var (c, s5) := Run(Digit, s4).value;
      var s6 := Lit(".", s5).value;
      var (d, s7) := Run(Digit, s6).value;
      RunParts(Digit, s);
      LitParts(".", s1);
      RunParts(Digit, s2);
      LitParts(".", s3);
      RunParts(Digit, s4);
      LitParts(".", s5);
      RunParts(Digit, s6);
      DottedTail(a, b, c, d, s7);
      assert IsDotted(Dotted(a, b, c, d), a, b, c, d);
      hide All, Leaves, IsDotted;
      assert |Dotted(a, b, c, d)| >= |a|;
    }
  }

  lemma SomeIp4Iff(s: string, k: string -> bool)
    requires Avoids(Digit, k)
    ensures SomeIp4(s, k) <==> Ip4(s).Some? && k(Ip4(s).value.1)
  {
    hide Ip4, IsIp4;
    Ip4Parts(s);
    forall n | 0 < n <= |s| && IsIp4(s[..n]) && k(s[n..]) ensures Ip4(s) == Some((s[..n], s[n..])) {
      Ip4Step(s[..n], s[n..]);
      assert s[..n] + s[n..] == s;
    }
    if Ip4(s).Some? {
      var n := |Ip4(s).value.0|;
      assert s[..n] == Ip4(s).value.0 && s[n..] == Ip4(s).value.1;
    }
  }

  /** An address with more digits is an address. */
  lemma MoreDigits(x: string, more: string)
    requires IsIp4(x) && All(Digit, more)
    ensures IsIp4(x + more)
  {
    var a, b, c, d :| IsDotted(x, a, b, c, d);
    assert x + more == Dotted(a, b, c, d + more);
    assert IsDotted(x + more, a, b, c, d + more);
  }

  lemma LastIp4Iff(s: string)
    ensures SomeIp4(s, Anything) <==> Ip4(s).Some?
  {
    hide Ip4, IsIp4;
    Ip4Parts(s);
    forall n | 0 < n <= |s| && IsIp4(s[..n]) ensures Ip4(s).Some? {
      var m := Span(Digit, s[n..]);
      MoreDigits(s[..n], s[n..][..m]);
      Ip4Step(s[..n] + s[n..][..m], s[n..][m..]);
      assert (s[..n] + s[n..][..m]) + s[n..][m..] == s;
    }
    if Ip4(s).Some? {
      var n := |Ip4(s).value.0|;
      assert s[..n] == Ip4(s).value.0 && Anything(s[n..]);
    }
  }

  lemma AddressesAvoid(k: string -> bool)
    ensures forall s: string :: s != "" && In(Space, s[0]) ==> !SomeIp4(s, k)
  {
    forall s: string | s != "" && SomeIp4(s, k) ensures !In(Space, s[0]) {
      var n :| 0 < n <= |s| && IsIp4(s[..n]) && k(s[n..]);
      Ip4Step(s[..n], "");
      assert s[..n][0] == s[0];
    }
  }

  // --------------------------------------------------------------------- the new format

  // \s+inet IP\s+netmask IP(.*)
  ghost predicate NetmaskAddress(s: string) { SomeIp4(s, Anything) }
  ghost predicate NetmaskPart(s: string) { SpacedWord("netmask ", s, NetmaskAddress) }
  ghost predicate InetAddress(s: string) { SomeIp4(s, NetmaskPart) }
  ghost predicate InetShape(line: string) { SpacedWord("inet ", line, InetAddress) }

  lemma InetIff(line: string)
    ensures MatchInet(line).Some? <==> InetShape(line)
  {
    hide Ws, Lit, Ip4, SomeIp4, SpacedWord;
    SpacedWordIff("inet ", line, InetAddress);
    if Ws(line).Some? && Lit("inet ", Ws(line).value).Some? {
      var s := Lit("inet ", Ws(line).value).value;
      SpacedWordAvoids(Digit, "netmask ", NetmaskAddress);
      SomeIp4Iff(s, NetmaskPart);
      if Ip4(s).Some? {
        var t := Ip4(s).value.1;
        SpacedWordIff("netmask ", t, NetmaskAddress);
        if Ws(t).Some? && Lit("netmask ", Ws(t).value).Some? {
          LastIp4Iff(Lit("netmask ", Ws(t).value).value);
        }
      }
    }
  }

  // \s+inet6 (\S+)\s+prefixlen\s+([0-9]+)\s+scopeid (\S+)
  ghost predicate ScopeText(s: string) { SomeRun(NonSpace, s, Anything) }
  ghost predicate ScopePart(s: string) { SpacedWord("scopeid ", s, ScopeText) }
  ghost predicate PrefixDigits(s: string) { SomeRun(Digit, s, ScopePart) }
  ghost predicate PrefixGap(s: string) { SomeRun(Space, s, PrefixDigits) }
  ghost predicate PrefixPart(s: string) { SpacedWord("prefixlen", s, PrefixGap) }
  ghost predicate Inet6Address(s: string) { SomeRun(NonSpace, s, PrefixPart) }
  ghost predicate Inet6Shape(line: string) { SpacedWord("inet6 ", line, Inet6Address) }

  // \s+(\S+)\s+(\S+)\s+txqueuelen\s+([0-9]+)\s+\((.*)\), the second group being optional
  ghost predicate ClosingText(s: string) { exists n :: 0 <= n <= |s| && ")" <= s[n..] }
  ghost predicate TitlePart(s: string) { SpacedWord("(", s, ClosingText) }
  ghost predicate QueueDigits(s: string) { SomeRun(Digit, s, TitlePart) }
  ghost predicate QueueGap(s: string) { SomeRun(Space, s, QueueDigits) }
  ghost predicate QueuePart(s: string) { SpacedWord("txqueuelen", s, QueueGap) }
  ghost predicate HwAddress(s: string) { SomeRun(NonSpace, s, QueuePart) }
  ghost predicate HwGap(s: string) { SomeRun(Space, s, HwAddress) }
  ghost predicate HwName(s: string) { SomeRun(NonSpace, s, HwGap) }
  ghost predicate HwWithShape(line: string) { SomeRun(Space, line, HwName) }
  ghost predicate HwWithoutShape(line: string) { SomeRun(Space, line, HwAddress) }

  // \s+RX packets ([0-9]+)\s+bytes ([0-9]+)\s+\((.*)\)
  ghost predicate ByteDigits(s: string) { SomeRun(Digit, s, TitlePart) }
  ghost predicate BytesPart(s: string) { SpacedWord("bytes ", s, ByteDigits) }
  ghost predicate PacketDigits(s: string) { SomeRun(Digit, s, BytesPart) }
  ghost predicate RxPacketsShape(line: string) { SpacedWord("RX packets ", line, PacketDigits) }
  ghost predicate TxPacketsShape(line: string) { SpacedWord("TX packets ", line, PacketDigits) }

  // \s+RX errors ([0-9]+)\s+dropped ([0-9]+)\s+overruns ([0-9]+)\s+frame ([0-9]+)
  ghost predicate LastDigits(s: string) { SomeRun(Digit, s, Anything) }
  ghost predicate FramePart(s: string) { SpacedWord("frame ", s, LastDigits) }
  ghost predicate RxOverrunsDigits(s: string) { SomeRun(Digit, s, FramePart) }
  ghost predicate RxOverrunsPart(s: string) { SpacedWord("overruns ", s, RxOverrunsDigits) }
  ghost predicate RxDroppedDigits(s: string) { SomeRun(Digit, s, RxOverrunsPart) }
  ghost predicate RxDroppedPart(s: string) { SpacedWord("dropped ", s, RxDroppedDigits) }
  ghost predicate RxErrorsDigits(s: string) { SomeRun(Digit, s, RxDroppedPart) }
  ghost predicate RxErrorsShape(line: string) { SpacedWord("RX errors ", line, RxErrorsDigits) }

  // \s+TX errors ... carrier ([0-9]+)\s+collisions ([0-9]+)
  ghost predicate CollisionsPart(s: string) { SpacedWord("collisions ", s, LastDigits) }
  ghost predicate CarrierDigits(s: string) { SomeRun(Digit, s, CollisionsPart) }
  ghost predicate CarrierPart(s: string) { SpacedWord("carrier ", s, CarrierDigits) }
  ghost predicate TxOverrunsDigits(s: string) { SomeRun(Digit, s, CarrierPart) }
  ghost predicate TxOverrunsPart(s: string) { SpacedWord("overruns ", s, TxOverrunsDigits) }
  ghost predicate TxDroppedDigits(s: string) { SomeRun(Digit, s, TxOverrunsPart) }
  ghost predicate TxDroppedPart(s: string) { SpacedWord("dropped ", s, TxDroppedDigits) }
  ghost predicate TxErrorsDigits(s: string) { SomeRun(Digit, s, TxDroppedPart) }
  ghost predicate TxErrorsShape(line: string) { SpacedWord("TX errors ", line, TxErrorsDigits) }

  // \s+device\s+(.*)
  ghost predicate DeviceGap(s: string) { SomeRun(Space, s, Anything) }
  ghost predicate DeviceShape(line: string) { SpacedWord("device", line, DeviceGap) }

  /** A line that some pattern of the new format matches. */
  ghost predicate NewShape(line: string) {
    || InetShape(line) || Inet6Shape(line) || HwWithShape(line) || HwWithoutShape(line)
    || RxPacketsShape(line) || RxErrorsShape(line) || TxPacketsShape(line) || TxErrorsShape(line)
    || DeviceShape(line)
  }

  // --------------------------------------------------------------- matching the patterns

  lemma NumberIff(s: string, k: string -> bool)
    requires Avoids(Digit, k)
    ensures SomeRun(Digit, s, k) <==> Dec(s).Some? && k(Dec(s).value.1)
  {
    hide Value;
    SomeRunIff(Digit, s, k);
  }

  lemma LastNumberIff(s: string)
    ensures SomeRun(Digit, s, Anything) <==> Dec(s).Some?
  {
    hide Value;
    LastRunIff(Digit, s);
  }

  lemma GapIff(s: string, k: string -> bool)
    requires Avoids(Space, k)
    ensures SomeRun(Space, s, k) <==> Ws(s).Some? && k(Ws(s).value)
  {
    SomeRunIff(Space, s, k);
  }

  /** A counter with its name and `k` behind it. */
  lemma CounterIff(prefix: string, s: string, digits: string -> bool, k: string -> bool)
    requires prefix != "" && !In(Space, prefix[0]) && Avoids(Digit, k)
    requires forall t: string :: digits(t) <==> SomeRun(Digit, t, k)
    ensures SpacedWord(prefix, s, digits)
       <==> Counter(prefix, s).Some? && k(Counter(prefix, s).value.1)
  {
    hide Ws, Lit, Dec, SpacedWord, SomeRun, Avoids;
    SpacedWordIff(prefix, s, digits);
    if Ws(s).Some? && Lit(prefix, Ws(s).value).Some? {
      NumberIff(Lit(prefix, Ws(s).value).value, k);
    }
  }

  lemma LastCounterIff(prefix: string, s: string)
    requires prefix != "" && !In(Space, prefix[0])
    ensures SpacedWord(prefix, s, LastDigits) <==> Counter(prefix, s).Some?
  {
    hide Ws, Lit, Dec, SpacedWord, SomeRun;
    SpacedWordIff(prefix, s, LastDigits);
    if Ws(s).Some? && Lit(prefix, Ws(s).value).Some? {
      LastNumberIff(Lit(prefix, Ws(s).value).value);
    }
  }

  lemma RxErrorsIff(line: string)
    ensures MatchRxErrors(line).Some? <==> RxErrorsShape(line)
  {
    hide Counter, SpacedWord, SomeRun;
    SpacedWordAvoids(Digit, "dropped ", RxDroppedDigits);
    SpacedWordAvoids(Digit, "overruns ", RxOverrunsDigits);
    SpacedWordAvoids(Digit, "frame ", LastDigits);
    CounterIff("RX errors ", line, RxErrorsDigits, RxDroppedPart);
    if Counter("RX errors ", line).Some? {
      var s1 := Counter("RX errors ", line).value.1;
      CounterIff("dropped ", s1, RxDroppedDigits, RxOverrunsPart);
      if Counter("dropped ", s1).Some? {
        var s2 := Counter("dropped ", s1).value.1;
        CounterIff("overruns ", s2, RxOverrunsDigits, FramePart);
        if Counter("overruns ", s2).Some? {
          LastCounterIff("frame ", Counter("overruns ", s2).value.1);
        }
      }
    }
  }

  lemma TxErrorsIff(line: string)
    ensures MatchTxErrors(line).Some? <==> TxErrorsShape(line)
  {
    hide Counter, SpacedWord, SomeRun;
    SpacedWordAvoids(Digit, "dropped ", TxDroppedDigits);
    SpacedWordAvoids(Digit, "overruns ", TxOverrunsDigits);
    SpacedWordAvoids(Digit, "carrier ", CarrierDigits);
    SpacedWordAvoids(Digit, "collisions ", LastDigits);
    CounterIff("TX errors ", line, TxErrorsDigits, TxDroppedPart);
    if Counter("TX errors ", line).Some? {
      var s1 := Counter("TX errors ", line).value.1;
      CounterIff("dropped ", s1, TxDroppedDigits, TxOverrunsPart);
      if Counter("dropped ", s1).Some? {
        var s2 := Counter("dropped ", s1).value.1;
        CounterIff("overruns ", s2, TxOverrunsDigits, CarrierPart);
        if Counter("overruns ", s2).Some? {
          var s3 := Counter("overruns ", s2).value.1;
          CounterIff("carrier ", s3, CarrierDigits, CollisionsPart);
          if Counter("carrier ", s3).Some? {
            LastCounterIff("collisions ", Counter("carrier ", s3).value.1);
          }
        }
      }
    }
  }

  /** (.*) and what `k` matches behind it. */
  lemma GreedyIff<T>(s: string, k: string -> Option<T>)
    ensures Greedy(s, k).Some? <==> exists n :: 0 <= n <= |s| && k(s[n..]).Some?
  {
    if forall q :: 0 <= q <= |s| ==> k(s[q..]).None? {
      BacktrackFails(s, |s|, 0, k);
    } else {
      var p := LastPlace(s, |s|, k);
      BacktrackFindsLast(s, |s|, 0, p, k);
    }
  }

  lemma {:induction false} LastPlace<T>(s: string, n: nat, k: string -> Option<T>) returns (p: nat)
    requires n <= |s| && exists q :: 0 <= q <= n && k(s[q..]).Some?
    ensures p <= n && k(s[p..]).Some?
    ensures forall q :: p < q <= n ==> k(s[q..]).None?
  {
    if k(s[n..]).Some? { return n; }
    p := LastPlace(s, n - 1, k);
  }

  lemma ClosingIff(s: string)
    ensures ClosingText(s) <==> Greedy(s, CloseParen).Some?
  {
    GreedyIff(s, CloseParen);
    forall n | 0 <= n <= |s| ensures ")" <= s[n..] <==> CloseParen(s[n..]).Some? {}
  }

  lemma TitleIff(s: string)
    ensures TitlePart(s) <==> Ws(s).Some? && Parens(Ws(s).value).Some?
  {
    hide Ws, Lit, SpacedWord, Greedy, ClosingText;
    SpacedWordIff("(", s, ClosingText);
    if Ws(s).Some? && Lit("(", Ws(s).value).Some? {
      ClosingIff(Lit("(", Ws(s).value).value);
    }
  }

  lemma PacketsIff(direction: string, line: string)
    requires direction in ["RX", "TX"]
    ensures MatchPackets(direction, line).Some?
       <==> SpacedWord(direction + " packets ", line, PacketDigits)
  {
    hide Counter, SpacedWord, SomeRun, Parens, Ws, TitlePart;
    SpacedWordAvoids(Digit, "bytes ", ByteDigits);
    TitleAvoids(Digit);
    var prefix := direction + " packets ";
    assert prefix[0] == direction[0];
    CounterIff(prefix, line, PacketDigits, BytesPart);
    if Counter(prefix, line).Some? {
      var s1 := Counter(prefix, line).value.1;
      CounterIff("bytes ", s1, ByteDigits, TitlePart);
      if Counter("bytes ", s1).Some? {
        TitleIff(Counter("bytes ", s1).value.1);
      }
    }
  }

  lemma TitleAvoids(cls: Class)
    requires cls != Space
    ensures forall s: string :: s != "" && In(cls, s[0]) ==> !TitlePart(s)
  {
    SpacedWordAvoids(cls, "(", ClosingText);
  }

  lemma QueueIff(s: string)
    ensures QueuePart(s) <==> Ws(s).Some? && MatchQueue(Ws(s).value).Some?
  {
    hide Ws, Lit, SpacedWord, SomeRun, Dec, Parens, TitlePart;
    SpacedWordIff("txqueuelen", s, QueueGap);
    TitleAvoids(Digit);
    QueueDigitsAvoid();
    if Ws(s).Some? && Lit("txqueuelen", Ws(s).value).Some? {
      var s1 := Lit("txqueuelen", Ws(s).value).value;
      GapIff(s1, QueueDigits);
      if Ws(s1).Some? {
        NumberIff(Ws(s1).value, TitlePart);
        if Dec(Ws(s1).value).Some? { TitleIff(Dec(Ws(s1).value).value.1); }
      }
    }
  }

  lemma QueueDigitsAvoid()
    ensures forall s: string :: s != "" && In(Space, s[0]) ==> !QueueDigits(s)
  {
    SomeRunAvoids(Space, Digit, TitlePart);
  }

  lemma HwAddressAvoids()
    ensures forall s: string :: s != "" && In(Space, s[0]) ==> !HwAddress(s)
    ensures forall s: string :: s != "" && In(Space, s[0]) ==> !HwName(s)
  {
    SomeRunAvoids(Space, NonSpace, QueuePart);
    SomeRunAvoids(Space, NonSpace, HwGap);
  }

  lemma HwGapsAvoid()
    ensures forall s: string :: s != "" && In(NonSpace, s[0]) ==> !QueuePart(s)
    ensures forall s: string :: s != "" && In(NonSpace, s[0]) ==> !HwGap(s)
  {
    SpacedWordAvoids(NonSpace, "txqueuelen", QueueGap);
    SomeRunAvoids(NonSpace, Space, HwAddress);
  }

  lemma HwAddressIff(s: string)
    ensures HwAddress(s)
       <==> Run(NonSpace, s).Some? && QueuePart(Run(NonSpace, s).value.1)
  {
    HwGapsAvoid();
    SomeRunIff(NonSpace, s, QueuePart);
  }

  lemma HwWithoutIff(line: string)
    ensures MatchHwWithout(line).Some? <==> HwWithoutShape(line)
  {
    hide Ws, Run, SomeRun, MatchQueue, QueuePart, HwAddress;
    HwAddressAvoids();
    GapIff(line, HwAddress);
    if Ws(line).Some? {
      HwAddressIff(Ws(line).value);
      if Run(NonSpace, Ws(line).value).Some? { QueueIff(Run(NonSpace, Ws(line).value).value.1); }
    }
  }

  lemma HwWithIff(line: string)
    ensures MatchHwWith(line).Some? <==> HwWithShape(line)
  {
    hide Ws, Run, SomeRun, MatchQueue, QueuePart, HwAddress;
    HwAddressAvoids();
    HwGapsAvoid();
    GapIff(line, HwName);
    if Ws(line).Some? {
      var s1 := Ws(line).value;
      SomeRunIff(NonSpace, s1, HwGap);
      if Run(NonSpace, s1).Some? {
        var s2 := Run(NonSpace, s1).value.1;
        GapIff(s2, HwAddress);
        if Ws(s2).Some? {
          HwAddressIff(Ws(s2).value);
          if Run(NonSpace, Ws(s2).value).Some? { QueueIff(Run(NonSpace, Ws(s2).value).value.1); }
        }
      }
    }
  }

  lemma Inet6Iff(line: string)
    ensures MatchInet6(line).Some? <==> Inet6Shape(line)
  {
    hide Ws, Lit, Run, Dec, SomeRun, SpacedWord, PrefixPart;
    SpacedWordIff("inet6 ", line, Inet6Address);
    if Ws(line).Some? && Lit("inet6 ", Ws(line).value).Some? {
      var s2 := Lit("inet6 ", Ws(line).value).value;
      PrefixAvoids();
      SomeRunIff(NonSpace, s2, PrefixPart);
      if Run(NonSpace, s2).Some? { PrefixIff(Run(NonSpace, s2).value.1); }
    }
  }

  lemma PrefixAvoids()
    ensures forall s: string :: s != "" && In(NonSpace, s[0]) ==> !PrefixPart(s)
  {
    SpacedWordAvoids(NonSpace, "prefixlen", PrefixGap);
  }

  /** \s+prefixlen\s+([0-9]+)\s+scopeid (\S+) */
  function MatchPrefix(s3: string): Option<(nat, string)> {
    var s4 :- Ws(s3);
    var s5 :- Lit("prefixlen", s4);
    var s6 :- Ws(s5);
    var (prefixlen, s7) :- Dec(s6);
    var s8 :- Ws(s7);
    var s9 :- Lit("scopeid ", s8);
    var (scopeid, _) :- Run(NonSpace, s9);
    Some((prefixlen, scopeid))
  }

  lemma PrefixIff(s: string)
    ensures PrefixPart(s) <==> MatchPrefix(s).Some?
  {
    hide Ws, Lit, Run, Dec, SomeRun, SpacedWord, ScopePart;
    SpacedWordIff("prefixlen", s, PrefixGap);
    if Ws(s).Some? && Lit("prefixlen", Ws(s).value).Some? {
      var s5 := Lit("prefixlen", Ws(s).value).value;
      SomeRunAvoids(Space, Digit, ScopePart);
      GapIff(s5, PrefixDigits);
      if Ws(s5).Some? {
        ScopeAvoids();
        NumberIff(Ws(s5).value, ScopePart);
        if Dec(Ws(s5).value).Some? { ScopeIff(Dec(Ws(s5).value).value.1); }
      }
    }
  }

  lemma ScopeAvoids()
    ensures forall s: string :: s != "" && In(Digit, s[0]) ==> !ScopePart(s)
  {
    SpacedWordAvoids(Digit, "scopeid ", ScopeText);
  }

  lemma ScopeIff(s: string)
    ensures ScopePart(s)
       <==> Ws(s).Some? && Lit("scopeid ", Ws(s).value).Some?
            && Run(NonSpace, Lit("scopeid ", Ws(s).value).value).Some?
  {
    hide Ws, Lit, Run, SomeRun, SpacedWord;
    SpacedWordIff("scopeid ", s, ScopeText);
    if Ws(s).Some? && Lit("scopeid ", Ws(s).value).Some? {
      LastRunIff(NonSpace, Lit("scopeid ", Ws(s).value).value);
    }
  }

  lemma DeviceIff(line: string)
    ensures MatchDevice(line).Some? <==> DeviceShape(line)
  {
    hide Ws, Lit, SomeRun, SpacedWord;
    SpacedWordIff("device", line, DeviceGap);
    if Ws(line).Some? && Lit("device", Ws(line).value).Some? {
      var s := Lit("device", Ws(line).value).value;
      LastRunIff(Space, s);
      WsIsRun(s);
    }
  }

  lemma WsIsRun(s: string)
    ensures Ws(s).Some? <==> Run(Space, s).Some?
  {
  }

  /** A line is understood exactly if one of the nine expressions matches it. */
  lemma NewReadsIff(line: string)
    ensures NewUpdate(line).Some? <==> NewShape(line)
  {
    hide MatchInet, MatchInet6, MatchHwWith, MatchHwWithout, MatchPackets, MatchRxErrors, MatchTxErrors;
    hide MatchDevice, DeviceParts, MatchBroadcast, MatchDestination, SpacedWord, SomeRun, InetShape;
    hide Inet6Shape, HwWithShape, HwWithoutShape, RxErrorsShape, TxErrorsShape, DeviceShape;
    InetIff(line);
    Inet6Iff(line);
    HwWithIff(line);
    HwWithoutIff(line);
    PacketsIff("RX", line);
    PacketsIff("TX", line);
    RxErrorsIff(line);
    TxErrorsIff(line);
    DeviceIff(line);
    assert "RX" + " packets " == "RX packets " && "TX" + " packets " == "TX packets ";
  }

  // ------------------------------------------------------------------------ first lines

  // flags=([0-9]+)<(.*)>  mtu ([0-9]+)(.*)
  ghost predicate MtuPart(s: string) { ">  mtu " <= s && SomeRun(Digit, s[7..], Anything) }
  ghost predicate FlagsBody(s: string) { exists n :: 0 <= n <= |s| && MtuPart(s[n..]) }
  ghost predicate FlagsOpening(s: string) { "<" <= s && FlagsBody(s[1..]) }
  ghost predicate FlagsShape(s: string) { "flags=" <= s && SomeRun(Digit, s[6..], FlagsOpening) }

  // Link encap:(\w+ ?\w*)\s*(HWaddr )?(\S*)
  predicate TitleStart(s: string) { s != "" && In(Word, s[0]) }

  // (\w+): (.+)
  predicate ColonPart(s: string) { ": " <= s && |s| > 2 }
  ghost predicate NewStart(line: string) { SomeRun(Word, line, ColonPart) }

  // (\w+)\s+(.+)
  ghost predicate GapThenText(s: string) { SomeRun(Space, s, NotEmpty) }
  ghost predicate OldStart(line: string) { SomeRun(Word, line, GapThenText) }

  /** A first line in the new format, and one in the old. */
  ghost predicate FlagsPart(s: string) { ": " <= s && FlagsShape(s[2..]) }
  ghost predicate NewHeaderShape(line: string) { SomeRun(Word, line, FlagsPart) }
  ghost predicate EncapPart(s: string) { SpacedWord("Link encap:", s, TitleStart) }
  ghost predicate OldHeaderShape(line: string) { SomeRun(Word, line, EncapPart) }

  lemma MtuIff(s: string)
    ensures MtuPart(s) <==> MatchMtu(s).Some?
  {
    if ">  mtu " <= s { LastNumberIff(s[7..]); }
    hide Dec;
  }

  lemma FlagsBodyIff(s: string)
    ensures FlagsBody(s) <==> Greedy(s, MatchMtu).Some?
  {
    hide MatchMtu, MtuPart;
    GreedyIff(s, MatchMtu);
    forall n | 0 <= n <= |s| ensures MtuPart(s[n..]) <==> MatchMtu(s[n..]).Some? {
      MtuIff(s[n..]);
    }
  }

  lemma FlagsIff(text: string)
    ensures FlagsShape(text) <==> NewHeaderUpdate(text).Some?
  {
    hide Dec, SomeRun, Greedy, FlagsBody, MatchOutfill;
    if "flags=" <= text {
      NumberIff(text[6..], FlagsOpening);
      if Dec(text[6..]).Some? && "<" <= Dec(text[6..]).value.1 {
        FlagsBodyIff(Dec(text[6..]).value.1[1..]);
      }
    }
  }

  lemma TitleStartIff(s: string)
    ensures TitleStart(s) <==> MatchTitle(s).Some?
  {
    hide Strip;
  }

  /** ": " and something decide the format; what follows decides whether it is understood. */
  lemma NewStartIff(line: string)
    ensures NewStart(line) <==> MatchNewHeader(line).Some?
    ensures NewHeaderShape(line)
       <==> MatchNewHeader(line).Some? && NewHeaderUpdate(MatchNewHeader(line).value.1).Some?
  {
    hide Run, SomeRun, FlagsShape, NewHeaderUpdate;
    SomeRunIff(Word, line, ColonPart);
    SomeRunIff(Word, line, FlagsPart);
    if Run(Word, line).Some? && ": " <= Run(Word, line).value.1 {
      FlagsIff(Run(Word, line).value.1[2..]);
      EmptyIsNoFlags();
    }
  }

  lemma EmptyIsNoFlags()
    ensures !FlagsShape("")
  {
  }

  lemma GapFound(s: string, m: nat)
    requires 0 < m < |s| && All(Space, s[..m])
    ensures GapThenText(s)
  {
    assert NotEmpty(s[m..]);
  }

  lemma LongGap(s: string)
    requires 0 < Span(Space, s) < |s|
    ensures GapThenText(s)
    ensures Backtrack(s, Span(Space, s), 1, NonEmpty).Some?
    ensures Backtrack(s, Span(Space, s), 1, NonEmpty).value.1 == s[Span(Space, s)..]
  {
    var n := Span(Space, s);
    GapFound(s, n);
    BacktrackFindsLast(s, n, 1, n, NonEmpty);
    hide Backtrack, GapThenText, Span;
  }

  lemma OnlyGap(s: string)
    requires 1 < Span(Space, s) == |s|
    ensures GapThenText(s)
    ensures Backtrack(s, |s|, 1, NonEmpty).Some?
    ensures Backtrack(s, |s|, 1, NonEmpty).value.1 == s[|s| - 1..]
  {
    var n := |s|;
    assert s[..n] == s;
    assert s[..n - 1] == s[..n][..n - 1];
    GapFound(s, n - 1);
    BacktrackFindsLast(s, n, 1, n - 1, NonEmpty);
    hide Backtrack, GapThenText, Span;
  }

  lemma NoGap(s: string)
    requires Span(Space, s) == 0 || Span(Space, s) == |s| == 1
    ensures !GapThenText(s)
    ensures Backtrack(s, Span(Space, s), 1, NonEmpty).None?
  {
    forall m | 0 < m <= |s| && All(Space, s[..m]) ensures !NotEmpty(s[m..]) {
      RunEnds(Space, s, m);
    }
  }

  /** The white space of an old first line: all of it, or all but its last character. */
  lemma GapIs(s: string)
    ensures var n, found := Span(Space, s), Backtrack(s, Span(Space, s), 1, NonEmpty);
            && (found.Some? <==> GapThenText(s))
            && (found.Some? ==> n > 0)
            && (found.Some? ==> found.value.1 == if n < |s| then s[n..] else s[n - 1..])
  {
    hide Span, Backtrack, GapThenText;
    if 0 < Span(Space, s) < |s| { LongGap(s); }
    else if Span(Space, s) > 1 { OnlyGap(s); }
    else { NoGap(s); }
  }

  lemma EncapIff(s: string)
    ensures var found := Backtrack(s, Span(Space, s), 1, NonEmpty);
            SpacedWord("Link encap:", s, TitleStart)
            <==> found.Some? && OldHeaderUpdate(found.value.1).Some?
  {
    hide Backtrack, GapThenText, SpacedWord, OldHeaderUpdate, TitleStart;
    SpacedWordIff("Link encap:", s, TitleStart);
    GapIs(s);
    RunIs(Space, s);
    var n := Span(Space, s);
    if 0 < n {
      TitleStartOf(s[n..]);
      if n == |s| { AllSpace(s); } else { LongGap(s); }
    }
  }

  lemma TitleStartOf(s: string)
    ensures OldHeaderUpdate(s).Some? <==> Lit("Link encap:", s).Some? && TitleStart(Lit("Link encap:", s).value)
  {
    hide MatchTitle, TitleStart;
    if Lit("Link encap:", s).Some? { TitleStartIff(Lit("Link encap:", s).value); }
  }

  lemma AllSpace(s: string)
    requires 0 < Span(Space, s) == |s|
    ensures Lit("Link encap:", s[|s|..]).None? && OldHeaderUpdate(s[|s| - 1..]).None?
  {
    assert s[..|s|] == s;
  }

  lemma GapAvoids()
    ensures forall s: string :: s != "" && In(Word, s[0]) ==> !GapThenText(s)
    ensures forall s: string :: s != "" && In(Word, s[0]) ==> !EncapPart(s)
  {
    SomeRunAvoids(Word, Space, NotEmpty);
    SpacedWordAvoids(Word, "Link encap:", TitleStart);
  }

  lemma OldStartIff(line: string)
    ensures OldStart(line) <==> MatchOldHeader(line).Some?
    ensures OldHeaderShape(line)
       <==> MatchOldHeader(line).Some? && OldHeaderUpdate(MatchOldHeader(line).value.1).Some?
  {
    hide Run, SomeRun, SpacedWord, Backtrack, Span, GapThenText, OldHeaderUpdate;
    GapAvoids();
    SomeRunIff(Word, line, GapThenText);
    SomeRunIff(Word, line, EncapPart);
    if Run(Word, line).Some? {
      GapIs(Run(Word, line).value.1);
      EncapIff(Run(Word, line).value.1);
    }
  }

  /** A first line with a colon behind its name is none with white space there. */
  lemma OneStart(line: string)
    ensures !(NewStart(line) && OldStart(line))
  {
    hide Run, SomeRun;
    GapAvoids();
    SomeRunIff(Word, line, ColonPart);
    SomeRunIff(Word, line, GapThenText);
    SomeRunAvoids(NonSpace, Space, NotEmpty);
  }

  /** A line opens a device exactly if it is a first line of one of the two kinds, and is
      refused exactly if it only starts like one. */
  lemma OpensIff(line: string)
    ensures Open(line).NotHeader? <==> !NewStart(line) && !OldStart(line)
    ensures Open(line).Opens? && !Open(line).oldFormat <==> NewHeaderShape(line)
    ensures Open(line).Opens? && Open(line).oldFormat <==> OldHeaderShape(line)
  {
    hide MatchNewHeader, MatchOldHeader, NewHeaderUpdate, OldHeaderUpdate, SomeRun;
    NewStartIff(line);
    OldStartIff(line);
    OneStart(line);
  }
}
