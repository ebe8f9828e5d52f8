/** What a matched line assigns stands in the line: for every match there are gaps of white
    space and numerals between which the literal words of the expression and the values that
    were read make up the line.  This is for any white space, where the printers have theirs. */
module IfconfigCaptures {
  import opened IfconfigGrammar
  import opened IfconfigPatterns
  import opened Numerals
  import opened Scanner
  import opened Wrappers

  predicate Gap(w: string) { w != "" && All(Space, w) }

  predicate Gaps(ws: seq<string>, n: nat) {
    |ws| == n && forall i :: 0 <= i < n ==> Gap(ws[i])
  }

  /** `d` is a decimal numeral of `n`, and one in base 16. */
  predicate Says(d: string, n: nat) { d != "" && AllDigits(10, d) && Value(10, d) == n }
  predicate SaysHex(d: string, n: nat) { d != "" && AllDigits(16, d) && Value(16, d) == n }

  // ------------------------------------------------------------------------ the pieces

  lemma WsParts(s: string) returns (w: string)
    requires Ws(s).Some?
    ensures Gap(w) && s == w + Ws(s).value
  {
    RunParts(Space, s);
    w := Run(Space, s).value.0;
  }

  /** White space and a word. */
  lemma WordParts(text: string, s: string) returns (w: string)
    requires Ws(s).Some? && Lit(text, Ws(s).value).Some?
    ensures Gap(w) && s == w + (text + Lit(text, Ws(s).value).value)
  {
    hide Ws, Lit;
    w := WsParts(s);
    LitParts(text, Ws(s).value);
  }

  lemma DecParts(s: string) returns (d: string)
    requires Dec(s).Some?
    ensures Says(d, Dec(s).value.0) && s == d + Dec(s).value.1
  {
    RunParts(Digit, s);
    d := Run(Digit, s).value.0;
  }

  lemma HexParts(s: string) returns (d: string)
    requires Hex(s).Some?
    ensures SaysHex(d, Hex(s).value.0) && s == d + Hex(s).value.1
  {
    RunParts(HexDigit, s);
    d := Run(HexDigit, s).value.0;
  }

  lemma CounterParts(prefix: string, s: string) returns (w: string, d: string)
    requires Counter(prefix, s).Some?
    ensures Gap(w) && Says(d, Counter(prefix, s).value.0)
    ensures s == w + (prefix + (d + Counter(prefix, s).value.1))
  {
    hide Ws, Lit, Dec, Says;
    w := WordParts(prefix, s);
    d := DecParts(Lit(prefix, Ws(s).value).value);
  }

  // --------------------------------------------------------------------- the new format

  lemma InetParts(line: string) returns (w: seq<string>)
    requires MatchInet(line).Some?
    ensures var (inet, netmask, rest) := MatchInet(line).value;
            && Gaps(w, 2) && IsIp4(inet) && IsIp4(netmask)
            && line == w[0] + ("inet " + (inet + (w[1] + ("netmask " + (netmask + rest)))))
  {
    hide Ws, Lit, Ip4, IsIp4;
    var w0 := WordParts("inet ", line);
    var s2 := Lit("inet ", Ws(line).value).value;
    Ip4Parts(s2);
    var s3 := Ip4(s2).value.1;
    var w1 := WordParts("netmask ", s3);
    Ip4Parts(Lit("netmask ", Ws(s3).value).value);
    w := [w0, w1];
  }

  lemma BroadcastParts(s: string) returns (w: string)
    requires MatchBroadcast(s).Some?
    ensures var (broadcast, rest) := MatchBroadcast(s).value;
            Gap(w) && IsIp4(broadcast) && s == w + ("broadcast " + (broadcast + rest))
  {
    hide Ws, Lit, Ip4, IsIp4;
    w := WordParts("broadcast ", s);
    Ip4Parts(Lit("broadcast ", Ws(s).value).value);
  }

  lemma DestinationParts(s: string) returns (w: string, rest: string)
    requires MatchDestination(s).Some?
    ensures var destination := MatchDestination(s).value;
            && Gap(w) && destination != "" && All(NonSpace, destination) && Leaves(NonSpace, rest)
            && s == w + ("destination " + (destination + rest))
  {
    hide Ws, Lit, Run;
    w := WordParts("destination ", s);
    var t := Lit("destination ", Ws(s).value).value;
    RunParts(NonSpace, t);
    rest := Run(NonSpace, t).value.1;
  }

  lemma Inet6Parts(line: string) returns (w: seq<string>, d: string, rest: string)
    requires MatchInet6(line).Some?
    ensures var (inet6, prefixlen, scopeid) := MatchInet6(line).value;
            && Gaps(w, 4) && Says(d, prefixlen)
            && inet6 != "" && All(NonSpace, inet6)
            && scopeid != "" && All(NonSpace, scopeid) && Leaves(NonSpace, rest)
            && line == w[0] + ("inet6 " + (inet6 + (w[1] + ("prefixlen" + (w[2] + (d + (w[3]
                       + ("scopeid " + (scopeid + rest)))))))))
  {
    hide Ws, Lit, Run, Dec, Says;
    var w0 := WordParts("inet6 ", line);
    var s2 := Lit("inet6 ", Ws(line).value).value;
    RunParts(NonSpace, s2);
    var s3 := Run(NonSpace, s2).value.1;
    var w1 := WordParts("prefixlen", s3);
    var s5 := Lit("prefixlen", Ws(s3).value).value;
    var w2 := WsParts(s5);
    d := DecParts(Ws(s5).value);
    var s7 := Dec(Ws(s5).value).value.1;
    var w3 := WordParts("scopeid ", s7);
    var s9 := Lit("scopeid ", Ws(s7).value).value;
    RunParts(NonSpace, s9);
    rest := Run(NonSpace, s9).value.1;
    w := [w0, w1, w2, w3];
  }

  /** A text in parentheses reaches to the last closing one. */
  lemma ParensParts(s: string) returns (rest: string)
    requires Parens(s).Some?
    ensures s == "(" + (Parens(s).value + (")" + rest)) && Without(')', rest)
  {
    var s1 := s[1..];
    var p := LastPlace(s1, |s1|, CloseParen) by {
      GreedyIff(s1, CloseParen);
    }
    BacktrackFindsLast(s1, |s1|, 0, p, CloseParen);
    rest := s1[p + 1..];
    forall i | 0 <= i < |rest| ensures rest[i] != ')' {
      assert s1[p + 1 + i..][0] == rest[i];
    }
  }

  lemma QueueParts(s: string) returns (w: seq<string>, d: string, rest: string)
    requires MatchQueue(s).Some?
    ensures var (queue, title) := MatchQueue(s).value;
            && Gaps(w, 2) && Says(d, queue) && Without(')', rest)
            && s == "txqueuelen" + (w[0] + (d + (w[1] + ("(" + (title + (")" + rest))))))
  {
    hide Ws, Lit, Dec, Parens, Says;
    LitParts("txqueuelen", s);
    var s1 := Lit("txqueuelen", s).value;
    var w0 := WsParts(s1);
    d := DecParts(Ws(s1).value);
    var s3 := Dec(Ws(s1).value).value.1;
    var w1 := WsParts(s3);
    rest := ParensParts(Ws(s3).value);
    w := [w0, w1];
  }

  lemma HwWithParts(line: string) returns (w: seq<string>, queue: string)
    requires MatchHwWith(line).Some?
    ensures var (hwname, hwaddr, txqueuelen, hwtitle) := MatchHwWith(line).value;
            && Gaps(w, 3) && MatchQueue(queue).Some?
            && MatchQueue(queue).value.0 == txqueuelen && MatchQueue(queue).value.1 == hwtitle
            && hwname != "" && All(NonSpace, hwname) && hwaddr != "" && All(NonSpace, hwaddr)
            && line == w[0] + (hwname + (w[1] + (hwaddr + (w[2] + queue))))
  {
    hide Ws, Run, MatchQueue;
    var w0 := WsParts(line);
    RunParts(NonSpace, Ws(line).value);
    var s2 := Run(NonSpace, Ws(line).value).value.1;
    var w1 := WsParts(s2);
    RunParts(NonSpace, Ws(s2).value);
    var s4 := Run(NonSpace, Ws(s2).value).value.1;
    var w2 := WsParts(s4);
    queue := Ws(s4).value;
    w := [w0, w1, w2];
  }

  lemma HwWithoutParts(line: string) returns (w: seq<string>, queue: string)
    requires MatchHwWithout(line).Some?
    ensures var (hwname, txqueuelen, hwtitle) := MatchHwWithout(line).value;
            && Gaps(w, 2) && MatchQueue(queue).Some?
            && MatchQueue(queue).value.0 == txqueuelen && MatchQueue(queue).value.1 == hwtitle
            && hwname != "" && All(NonSpace, hwname)
            && line == w[0] + (hwname + (w[1] + queue))
  {
    hide Ws, Run, MatchQueue;
    var w0 := WsParts(line);
    RunParts(NonSpace, Ws(line).value);
    var s2 := Run(NonSpace, Ws(line).value).value.1;
    var w1 := WsParts(s2);
    queue := Ws(s2).value;
    w := [w0, w1];
  }

  lemma PacketsParts(direction: string, line: string)
    returns (w: seq<string>, d: seq<string>, human: string, rest: string)
    requires MatchPackets(direction, line).Some?
    ensures var (packets, bytes) := MatchPackets(direction, line).value;
            && Gaps(w, 3) && |d| == 2 && Says(d[0], packets) && Says(d[1], bytes)
            && line == w[0] + (direction + " packets " + (d[0] + (w[1] + ("bytes " + (d[1] + (w[2]
                       + ("(" + (human + (")" + rest)))))))))
  {
    hide Counter, Ws, Parens, Says;
    var prefix := direction + " packets ";
    var w0, d0 := CounterParts(prefix, line);
    var s1 := Counter(prefix, line).value.1;
    var w1, d1 := CounterParts("bytes ", s1);
    var s2 := Counter("bytes ", s1).value.1;
    var w2 := WsParts(s2);
    rest := ParensParts(Ws(s2).value);
    human := Parens(Ws(s2).value).value;
    w, d := [w0, w1, w2], [d0, d1];
  }

  lemma RxErrorsParts(line: string) returns (w: seq<string>, d: seq<string>, rest: string)
    requires MatchRxErrors(line).Some?
    ensures var (errors, dropped, overruns, frame) := MatchRxErrors(line).value;
            && Gaps(w, 4) && |d| == 4 && Says(d[0], errors) && Says(d[1], dropped)
            && Says(d[2], overruns) && Says(d[3], frame)
            && line == w[0] + ("RX errors " + (d[0] + (w[1] + ("dropped " + (d[1] + (w[2]
                       + ("overruns " + (d[2] + (w[3] + ("frame " + (d[3] + rest)))))))))))
  {
    hide Counter, Says;
    var w0, d0 := CounterParts("RX errors ", line);
    var s1 := Counter("RX errors ", line).value.1;
    var w1, d1 := CounterParts("dropped ", s1);
    var s2 := Counter("dropped ", s1).value.1;
    var w2, d2 := CounterParts("overruns ", s2);
    var s3 := Counter("overruns ", s2).value.1;
    var w3, d3 := CounterParts("frame ", s3);
    w, d, rest := [w0, w1, w2, w3], [d0, d1, d2, d3], Counter("frame ", s3).value.1;
  }

  lemma TxErrorsParts(line: string) returns (w: seq<string>, d: seq<string>, rest: string)
    requires MatchTxErrors(line).Some?
    ensures var (errors, dropped, overruns, carrier, collisions) := MatchTxErrors(line).value;
            && Gaps(w, 5) && |d| == 5 && Says(d[0], errors) && Says(d[1], dropped)
            && Says(d[2], overruns) && Says(d[3], carrier) && Says(d[4], collisions)
            && line == w[0] + ("TX errors " + (d[0] + (w[1] + ("dropped " + (d[1] + (w[2]
                       + ("overruns " + (d[2] + (w[3] + ("carrier " + (d[3] + (w[4]
                       + ("collisions " + (d[4] + rest))))))))))))))
  {
    hide Counter, Says;
    var w0, d0 := CounterParts("TX errors ", line);
    var s1 := Counter("TX errors ", line).value.1;
    var w1, d1 := CounterParts("dropped ", s1);
    var s2 := Counter("dropped ", s1).value.1;
    var w2, d2 := CounterParts("overruns ", s2);
    var s3 := Counter("overruns ", s2).value.1;
    var w3, d3 := CounterParts("carrier ", s3);
    var s4 := Counter("carrier ", s3).value.1;
    var w4, d4 := CounterParts("collisions ", s4);
    w, d, rest := [w0, w1, w2, w3, w4], [d0, d1, d2, d3, d4], Counter("collisions ", s4).value.1;
  }

  /** The optional parts of a device line: each is read exactly if it is there. */
  ghost predicate InterruptPart(s: string) { "interrupt " <= s && SomeRun(Digit, s[10..], DeviceGap) }
  ghost predicate BasePart(s: string) { "base 0x" <= s && SomeRun(HexDigit, s[7..], DeviceGap) }
  ghost predicate MemoryEnd(s: string) { "-" <= s && SomeRun(HexDigit, s[1..], DeviceGap) }
  ghost predicate MemoryPart(s: string) { "memory 0x" <= s && SomeRun(HexDigit, s[9..], MemoryEnd) }
  ghost predicate DmaPart(s: string) { "dma 0x" <= s && SomeRun(HexDigit, s[6..], Anything) }

  lemma GapAvoids(cls: Class)
    requires cls in {Digit, HexDigit}
    ensures Avoids(cls, DeviceGap) && Avoids(cls, MemoryEnd)
  {
    SomeRunAvoids(cls, Space, Anything);
  }

  lemma HexNumberIff(s: string, k: string -> bool)
    requires Avoids(HexDigit, k)
    ensures SomeRun(HexDigit, s, k) <==> Hex(s).Some? && k(Hex(s).value.1)
  {
    hide Value;
    SomeRunIff(HexDigit, s, k);
  }

  lemma LastHexNumberIff(s: string)
    ensures SomeRun(HexDigit, s, Anything) <==> Hex(s).Some?
  {
    hide Value;
    LastRunIff(HexDigit, s);
  }

  lemma GapThereIff(s: string)
    ensures DeviceGap(s) <==> Ws(s).Some?
  {
    LastRunIff(Space, s);
    WsIsRun(s);
  }

  lemma PartsIff(s: string)
    ensures InterruptPart(s) <==> MatchInterrupt(s).Some?
    ensures BasePart(s) <==> MatchBase(s).Some?
    ensures DmaPart(s) <==> MatchDma(s).Some?
  {
    hide SomeRun, Dec, Hex, Ws, DeviceGap, Avoids;
    GapAvoids(Digit);
    GapAvoids(HexDigit);
    if "interrupt " <= s {
      NumberIff(s[10..], DeviceGap);
      if Dec(s[10..]).Some? { GapThereIff(Dec(s[10..]).value.1); }
    }
    if "base 0x" <= s {
      HexNumberIff(s[7..], DeviceGap);
      if Hex(s[7..]).Some? { GapThereIff(Hex(s[7..]).value.1); }
    }
    if "dma 0x" <= s { LastHexNumberIff(s[6..]); }
  }

  lemma MemoryPartIff(s: string)
    ensures MemoryPart(s) <==> MatchMemory(s).Some?
  {
    hide SomeRun, Hex, Ws, DeviceGap, Avoids;
    GapAvoids(HexDigit);
    if "memory 0x" <= s {
      HexNumberIff(s[9..], MemoryEnd);
      if Hex(s[9..]).Some? && "-" <= Hex(s[9..]).value.1 {
        var t := Hex(s[9..]).value.1[1..];
        HexNumberIff(t, DeviceGap);
        if Hex(t).Some? { GapThereIff(Hex(t).value.1); }
      }
    }
  }

  lemma InterruptParts(s: string) returns (d: string, w: string)
    requires MatchInterrupt(s).Some?
    ensures var (interrupt, rest) := MatchInterrupt(s).value;
            Says(d, interrupt) && Gap(w) && s == "interrupt " + (d + (w + rest))
  {
    hide Lit, Dec, Ws, Says;
    LitParts("interrupt ", s);
    var s1 := Lit("interrupt ", s).value;
    d := DecParts(s1);
    w := WsParts(Dec(s1).value.1);
  }

  lemma BaseParts(s: string) returns (d: string, w: string)
    requires MatchBase(s).Some?
    ensures var (base, rest) := MatchBase(s).value;
            SaysHex(d, base) && Gap(w) && s == "base 0x" + (d + (w + rest))
  {
    hide Lit, Hex, Ws, SaysHex;
    LitParts("base 0x", s);
    var s1 := Lit("base 0x", s).value;
    d := HexParts(s1);
    w := WsParts(Hex(s1).value.1);
  }

  lemma MemoryParts(s: string) returns (d: string, e: string, w: string)
    requires MatchMemory(s).Some?
    ensures var (start, end, rest) := MatchMemory(s).value;
            && SaysHex(d, start) && SaysHex(e, end) && Gap(w)
            && s == "memory 0x" + (d + ("-" + (e + (w + rest))))
  {
    hide Lit, Hex, Ws, SaysHex;
    LitParts("memory 0x", s);
    var s1 := Lit("memory 0x", s).value;
    d := HexParts(s1);
    LitParts("-", Hex(s1).value.1);
    var s3 := Lit("-", Hex(s1).value.1).value;
    e := HexParts(s3);
    w := WsParts(Hex(s3).value.1);
  }

  lemma DmaParts(s: string) returns (d: string, rest: string)
    requires MatchDma(s).Some?
    ensures SaysHex(d, MatchDma(s).value) && s == "dma 0x" + (d + rest)
  {
    hide Lit, Hex, SaysHex;
    LitParts("dma 0x", s);
    d := HexParts(Lit("dma 0x", s).value);
    rest := Hex(Lit("dma 0x", s).value).value.1;
  }

  // -------------------------------------------------------------------- optional parts

  ghost predicate DestinationText(s: string) { SomeRun(NonSpace, s, Anything) }
  ghost predicate SomeAddress(s: string) { SomeIp4(s, Anything) }

  /** The optional addresses of an inet line are read exactly if they are there. */
  lemma PeersIff(s: string)
    ensures MatchBroadcast(s).Some? <==> SpacedWord("broadcast ", s, SomeAddress)
    ensures MatchDestination(s).Some? <==> SpacedWord("destination ", s, DestinationText)
  {
    hide Ws, Lit, Ip4, Run, SpacedWord, SomeRun, SomeIp4;
    SpacedWordIff("broadcast ", s, SomeAddress);
    SpacedWordIff("destination ", s, DestinationText);
    if Ws(s).Some? && Lit("broadcast ", Ws(s).value).Some? {
      LastIp4Iff(Lit("broadcast ", Ws(s).value).value);
    }
    if Ws(s).Some? && Lit("destination ", Ws(s).value).Some? {
      LastRunIff(NonSpace, Lit("destination ", Ws(s).value).value);
    }
  }

  /** So are those of the old format. */
  lemma LabelledIff(prefix: string, s: string)
    requires prefix != "" && !In(Space, prefix[0])
    ensures MatchLabelled(prefix, s).Some? <==> SpacedWord(prefix, s, SomeAddress)
  {
    hide Ws, Lit, Ip4, SpacedWord, SomeIp4;
    SpacedWordIff(prefix, s, SomeAddress);
    if Ws(s).Some? && Lit(prefix, Ws(s).value).Some? {
      LastIp4Iff(Lit(prefix, Ws(s).value).value);
    }
  }

  lemma LabelledParts(prefix: string, s: string) returns (w: string)
    requires MatchLabelled(prefix, s).Some?
    ensures var (address, rest) := MatchLabelled(prefix, s).value;
            Gap(w) && IsIp4(address) && s == w + (prefix + (address + rest))
  {
    hide Ws, Lit, Ip4, IsIp4;
    w := WordParts(prefix, s);
    Ip4Parts(Lit(prefix, Ws(s).value).value);
  }

  // ------------------------------------------------------------------------ first lines

  lemma OutfillParts(s: string) returns (w: seq<string>, d: seq<string>, rest: string)
    requires MatchOutfill(s).Some?
    ensures var (outfill, keepalive) := MatchOutfill(s).value;
            && Gaps(w, 4) && |d| == 2 && Says(d[0], outfill) && Says(d[1], keepalive)
            && s == w[0] + ("outfill" + (w[1] + (d[0] + (w[2] + ("keepalive" + (w[3] + (d[1] + rest)))))))
  {
    hide Ws, Lit, Dec, Says;
    var w0 := WordParts("outfill", s);
    var s2 := Lit("outfill", Ws(s).value).value;
    var w1 := WsParts(s2);
    var d0 := DecParts(Ws(s2).value);
    var s4 := Dec(Ws(s2).value).value.1;
    var w2 := WordParts("keepalive", s4);
    var s6 := Lit("keepalive", Ws(s4).value).value;
    var w3 := WsParts(s6);
    var d1 := DecParts(Ws(s6).value);
    w, d, rest := [w0, w1, w2, w3], [d0, d1], Dec(Ws(s6).value).value.1;
  }

  ghost predicate KeepaliveGap(s: string) { SomeRun(Space, s, LastDigits) }
  ghost predicate KeepalivePart(s: string) { SpacedWord("keepalive", s, KeepaliveGap) }
  ghost predicate OutfillDigits(s: string) { SomeRun(Digit, s, KeepalivePart) }
  ghost predicate OutfillGap(s: string) { SomeRun(Space, s, OutfillDigits) }

  lemma DigitRunsAvoid()
    ensures Avoids(Space, LastDigits) && Avoids(Space, OutfillDigits)
    ensures Avoids(Digit, KeepalivePart)
  {
    SomeRunAvoids(Space, Digit, Anything);
    SomeRunAvoids(Space, Digit, KeepalivePart);
    SpacedWordAvoids(Digit, "keepalive", KeepaliveGap);
  }

  lemma KeepaliveIff(s: string)
    ensures KeepalivePart(s)
       <==> Ws(s).Some? && Lit("keepalive", Ws(s).value).Some?
            && Ws(Lit("keepalive", Ws(s).value).value).Some?
            && Dec(Ws(Lit("keepalive", Ws(s).value).value).value).Some?
  {
    hide Ws, Lit, Dec, SomeRun, SpacedWord, Avoids;
    DigitRunsAvoid();
    SpacedWordIff("keepalive", s, KeepaliveGap);
    if Ws(s).Some? && Lit("keepalive", Ws(s).value).Some? {
      var t := Lit("keepalive", Ws(s).value).value;
      GapIff(t, LastDigits);
      if Ws(t).Some? { LastNumberIff(Ws(t).value); }
    }
  }

  lemma OutfillIff(s: string)
    ensures MatchOutfill(s).Some? <==> SpacedWord("outfill", s, OutfillGap)
  {
    hide Ws, Lit, Dec, SomeRun, SpacedWord, Avoids, KeepalivePart;
    DigitRunsAvoid();
    SpacedWordIff("outfill", s, OutfillGap);
    if Ws(s).Some? && Lit("outfill", Ws(s).value).Some? {
      var t := Lit("outfill", Ws(s).value).value;
      GapIff(t, OutfillDigits);
      if Ws(t).Some? {
        NumberIff(Ws(t).value, KeepalivePart);
        if Dec(Ws(t).value).Some? { KeepaliveIff(Dec(Ws(t).value).value.1); }
      }
    }
  }
}
