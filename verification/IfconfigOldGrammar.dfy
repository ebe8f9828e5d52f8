/** The lines of the old ifconfig format as languages, like those of the new one, and what is
    passed over in silence because no expression matches it. */
module IfconfigOldGrammar {
  import opened IfconfigGrammar
  import opened IfconfigPatterns
  import opened Numerals
  import opened Scanner
  import opened Wrappers

  // \s+inet addr:IP(.*)
  ghost predicate SomeAddress(s: string) { SomeIp4(s, Anything) }
  ghost predicate InetOldShape(line: string) { SpacedWord("inet addr:", line, SomeAddress) }

  // \s+inet6 addr: (\S+)/([0-9]+)\s+Scope:(\S+)
  ghost predicate ScopeWord(s: string) { SomeRun(NonSpace, s, Anything) }
  ghost predicate OldScopePart(s: string) { SpacedWord("Scope:", s, ScopeWord) }
  ghost predicate SlashPart(s: string) { "/" <= s && SomeRun(Digit, s[1..], OldScopePart) }
  ghost predicate Inet6OldAddress(s: string) { SomeRun(NonSpace, s, SlashPart) }
  ghost predicate Inet6OldShape(line: string) { SpacedWord("inet6 addr: ", line, Inet6OldAddress) }

  // \s+(.*)  MTU:([0-9]+)\s+Metric:([0-9]+)(.*)
  ghost predicate MetricPart(s: string) { SpacedWord("Metric:", s, LastDigits) }
  ghost predicate MtuOldPart(s: string) { "  MTU:" <= s && SomeRun(Digit, s[6..], MetricPart) }
  ghost predicate FlagsOldBody(s: string) { exists n :: 0 <= n <= |s| && MtuOldPart(s[n..]) }
  ghost predicate FlagsOldShape(line: string) { SomeRun(Space, line, FlagsOldBody) }

  // \s+RX packets:([0-9]+)\s+errors:([0-9]+)\s+dropped:([0-9]+)\s+overruns:([0-9]+)\s+frame:([0-9]+)
  ghost predicate FrameOldPart(s: string) { SpacedWord("frame:", s, LastDigits) }
  ghost predicate RxOverruns(s: string) { SomeRun(Digit, s, FrameOldPart) }
  ghost predicate RxOverrunsOldPart(s: string) { SpacedWord("overruns:", s, RxOverruns) }
  ghost predicate RxDropped(s: string) { SomeRun(Digit, s, RxOverrunsOldPart) }
  ghost predicate RxDroppedOldPart(s: string) { SpacedWord("dropped:", s, RxDropped) }
  ghost predicate RxErrors(s: string) { SomeRun(Digit, s, RxDroppedOldPart) }
  ghost predicate RxErrorsOldPart(s: string) { SpacedWord("errors:", s, RxErrors) }
  ghost predicate RxPackets(s: string) { SomeRun(Digit, s, RxErrorsOldPart) }
  ghost predicate RxOldShape(line: string) { SpacedWord("RX packets:", line, RxPackets) }

  // the same with TX and carrier
  ghost predicate CarrierOldPart(s: string) { SpacedWord("carrier:", s, LastDigits) }
  ghost predicate TxOverruns(s: string) { SomeRun(Digit, s, CarrierOldPart) }
  ghost predicate TxOverrunsOldPart(s: string) { SpacedWord("overruns:", s, TxOverruns) }
  ghost predicate TxDropped(s: string) { SomeRun(Digit, s, TxOverrunsOldPart) }
  ghost predicate TxDroppedOldPart(s: string) { SpacedWord("dropped:", s, TxDropped) }
  ghost predicate TxErrors(s: string) { SomeRun(Digit, s, TxDroppedOldPart) }
  ghost predicate TxErrorsOldPart(s: string) { SpacedWord("errors:", s, TxErrors) }
  ghost predicate TxPackets(s: string) { SomeRun(Digit, s, TxErrorsOldPart) }
  ghost predicate TxOldShape(line: string) { SpacedWord("TX packets:", line, TxPackets) }

  // \s+compressed:([0-9]+)
  ghost predicate CompressedShape(line: string) { SpacedWord("compressed:", line, LastDigits) }

  // \s+collisions:([0-9]+)\s+(.*)
  ghost predicate RestPart(s: string) { SomeRun(Space, s, Anything) }
  ghost predicate CollisionDigits(s: string) { SomeRun(Digit, s, RestPart) }
  ghost predicate CollisionsShape(line: string) { SpacedWord("collisions:", line, CollisionDigits) }

  // \s+RX bytes:([0-9]+)\s+\(.*\)\s+TX bytes:([0-9]+)\s+\(.*\)
  ghost predicate TxBytesDigits(s: string) { SomeRun(Digit, s, TitlePart) }
  ghost predicate TxBytesPart(s: string) { ")" <= s && SpacedWord("TX bytes:", s[1..], TxBytesDigits) }
  ghost predicate RxText(s: string) { exists n :: 0 <= n <= |s| && TxBytesPart(s[n..]) }
  ghost predicate RxTextPart(s: string) { SpacedWord("(", s, RxText) }
  ghost predicate RxBytesDigits(s: string) { SomeRun(Digit, s, RxTextPart) }
  ghost predicate BytesShape(line: string) { SpacedWord("RX bytes:", line, RxBytesDigits) }

  // \s+Interrupt:([0-9]+)
  ghost predicate InterruptShape(line: string) { SpacedWord("Interrupt:", line, LastDigits) }

  // Base address:0x([0-9a-f]+)
  ghost predicate BaseShape(s: string) { "Base address:0x" <= s && SomeRun(HexDigit, s[15..], Anything) }

  // Memory:([0-9a-f]+)-([0-9a-f]+)
  ghost predicate DashPart(s: string) { "-" <= s && SomeRun(HexDigit, s[1..], Anything) }
  ghost predicate MemoryShape(s: string) { "Memory:" <= s && SomeRun(HexDigit, s[7..], DashPart) }

  // DMA chan:([0-9a-f]+)
  ghost predicate DmaShape(s: string) { "DMA chan:" <= s && SomeRun(HexDigit, s[9..], Anything) }

  /** Matched by one of the eight expressions before those for the resources. */
  ghost predicate ChainShape(line: string) {
    || InetOldShape(line) || Inet6OldShape(line) || FlagsOldShape(line) || RxOldShape(line)
    || CompressedShape(line) || TxOldShape(line) || CollisionsShape(line) || BytesShape(line)
  }

  /** Matched by one of the four expressions for the resources. */
  ghost predicate ResourceShape(line: string) {
    InterruptShape(line) || BaseShape(line) || MemoryShape(line) || DmaShape(line)
  }

  // --------------------------------------------------------------- matching the patterns

  lemma InetOldIff(line: string)
    ensures InetOldUpdate(line).Some? <==> InetOldShape(line)
  {
    hide Ws, Lit, Ip4, SomeIp4, SpacedWord, Maybe;
    SpacedWordIff("inet addr:", line, SomeAddress);
    if Ws(line).Some? && Lit("inet addr:", Ws(line).value).Some? {
      LastIp4Iff(Lit("inet addr:", Ws(line).value).value);
    }
  }

  /** A repetition that gives back finds a way exactly if there is one. */
  lemma {:induction false} BacktrackIff<T>(s: string, n: nat, min: nat, k: string -> Option<T>)
    requires n <= |s|
    ensures Backtrack(s, n, min, k).Some? <==> exists p :: min <= p <= n && k(s[p..]).Some?
  {
    if n >= min && k(s[n..]).None? && n > 0 { BacktrackIff(s, n - 1, min, k); }
  }

  /** So a run in front of any continuation is matched exactly if some part of it can be. */
  lemma RunBacktrackIff<T>(cls: Class, s: string, k: string -> Option<T>, shape: string -> bool)
    requires forall t: string :: shape(t) <==> k(t).Some?
    ensures SomeRun(cls, s, shape) <==> Backtrack(s, Span(cls, s), 1, k).Some?
  {
    var m := Span(cls, s);
    BacktrackIff(s, m, 1, k);
    if SomeRun(cls, s, shape) {
      var n :| 0 < n <= |s| && All(cls, s[..n]) && shape(s[n..]);
      RunEnds(cls, s, n);
      assert k(s[n..]).Some?;
    }
    if p :| 1 <= p <= m && k(s[p..]).Some? {
      assert s[..p] == s[..m][..p];
      assert All(cls, s[..p]) && shape(s[p..]);
    }
  }

  lemma SlashIff(s: string)
    ensures SlashPart(s) <==> MatchScope(s).Some?
  {
    hide Ws, Dec, Run, SomeRun, SpacedWord, OldScopePart;
    if "/" <= s {
      OldScopeAvoids();
      NumberIff(s[1..], OldScopePart);
      if Dec(s[1..]).Some? { OldScopeIff(Dec(s[1..]).value.1); }
    }
  }

  lemma OldScopeAvoids()
    ensures forall s: string :: s != "" && In(Digit, s[0]) ==> !OldScopePart(s)
  {
    SpacedWordAvoids(Digit, "Scope:", ScopeWord);
  }

  lemma OldScopeIff(s: string)
    ensures OldScopePart(s)
       <==> Ws(s).Some? && Lit("Scope:", Ws(s).value).Some?
            && Run(NonSpace, Lit("Scope:", Ws(s).value).value).Some?
  {
    hide Ws, Lit, Run, SomeRun, SpacedWord;
    SpacedWordIff("Scope:", s, ScopeWord);
    if Ws(s).Some? && Lit("Scope:", Ws(s).value).Some? {
      LastRunIff(NonSpace, Lit("Scope:", Ws(s).value).value);
    }
  }

  lemma Inet6OldIff(line: string)
    ensures MatchInet6Old(line).Some? <==> Inet6OldShape(line)
  {
    hide Ws, Lit, Span, Backtrack, SomeRun, SpacedWord, MatchScope, SlashPart;
    SpacedWordIff("inet6 addr: ", line, Inet6OldAddress);
    if Ws(line).Some? && Lit("inet6 addr: ", Ws(line).value).Some? {
      forall t: string ensures SlashPart(t) <==> MatchScope(t).Some? { SlashIff(t); }
      RunBacktrackIff(NonSpace, Lit("inet6 addr: ", Ws(line).value).value, MatchScope, SlashPart);
    }
  }

  lemma MtuOldIff(s: string)
    ensures MtuOldPart(s) <==> MatchMtuOld(s).Some?
  {
    hide Dec, SomeRun, SpacedWord, Counter;
    if "  MTU:" <= s {
      MetricAvoids();
      NumberIff(s[6..], MetricPart);
      if Dec(s[6..]).Some? { LastCounterIff("Metric:", Dec(s[6..]).value.1); }
    }
  }

  lemma MetricAvoids()
    ensures forall s: string :: s != "" && In(Digit, s[0]) ==> !MetricPart(s)
  {
    SpacedWordAvoids(Digit, "Metric:", LastDigits);
  }

  lemma FlagsTailIff(s: string)
    ensures FlagsOldBody(s) <==> MatchFlagsTail(s).Some?
  {
    hide Greedy, MtuOldPart, MatchMtuOld;
    GreedyIff(s, MatchMtuOld);
    forall n | 0 <= n <= |s| ensures MtuOldPart(s[n..]) <==> MatchMtuOld(s[n..]).Some? {
      MtuOldIff(s[n..]);
    }
  }

  lemma FlagsOldIff(line: string)
    ensures FlagsOldUpdate(line).Some? <==> FlagsOldShape(line)
  {
    hide Backtrack, Span, SomeRun, FlagsOldBody, MatchFlagsTail, MatchOutfillOld;
    forall t: string ensures FlagsOldBody(t) <==> MatchFlagsTail(t).Some? { FlagsTailIff(t); }
    RunBacktrackIff(Space, line, MatchFlagsTail, FlagsOldBody);
  }

  lemma RxOldAvoids()
    ensures Avoids(Digit, RxErrorsOldPart) && Avoids(Digit, RxDroppedOldPart)
    ensures Avoids(Digit, RxOverrunsOldPart) && Avoids(Digit, FrameOldPart)
  {
    hide SpacedWord;
    SpacedWordAvoids(Digit, "errors:", RxErrors);
    SpacedWordAvoids(Digit, "dropped:", RxDropped);
    SpacedWordAvoids(Digit, "overruns:", RxOverruns);
    SpacedWordAvoids(Digit, "frame:", LastDigits);
  }

  lemma RxOldIff(line: string)
    ensures MatchCounters("RX", "frame:", line).Some? <==> RxOldShape(line)
  {
    hide Counter, SpacedWord, SomeRun, Avoids;
    RxOldAvoids();
    assert "RX" + " packets:" == "RX packets:";
    CounterIff("RX packets:", line, RxPackets, RxErrorsOldPart);
    if Counter("RX packets:", line).Some? {
      var s1 := Counter("RX packets:", line).value.1;
      CounterIff("errors:", s1, RxErrors, RxDroppedOldPart);
      if Counter("errors:", s1).Some? {
        var s2 := Counter("errors:", s1).value.1;
        CounterIff("dropped:", s2, RxDropped, RxOverrunsOldPart);
        if Counter("dropped:", s2).Some? {
          var s3 := Counter("dropped:", s2).value.1;
          CounterIff("overruns:", s3, RxOverruns, FrameOldPart);
          if Counter("overruns:", s3).Some? {
            LastCounterIff("frame:", Counter("overruns:", s3).value.1);
          }
        }
      }
    }
  }

  lemma TxOldAvoids()
    ensures Avoids(Digit, TxErrorsOldPart) && Avoids(Digit, TxDroppedOldPart)
    ensures Avoids(Digit, TxOverrunsOldPart) && Avoids(Digit, CarrierOldPart)
  {
    hide SpacedWord;
    SpacedWordAvoids(Digit, "errors:", TxErrors);
    SpacedWordAvoids(Digit, "dropped:", TxDropped);
    SpacedWordAvoids(Digit, "overruns:", TxOverruns);
    SpacedWordAvoids(Digit, "carrier:", LastDigits);
  }

  lemma TxOldIff(line: string)
    ensures MatchCounters("TX", "carrier:", line).Some? <==> TxOldShape(line)
  {
    hide Counter, SpacedWord, SomeRun, Avoids;
    TxOldAvoids();
    assert "TX" + " packets:" == "TX packets:";
    CounterIff("TX packets:", line, TxPackets, TxErrorsOldPart);
    if Counter("TX packets:", line).Some? {
      var s1 := Counter("TX packets:", line).value.1;
      CounterIff("errors:", s1, TxErrors, TxDroppedOldPart);
      if Counter("errors:", s1).Some? {
        var s2 := Counter("errors:", s1).value.1;
        CounterIff("dropped:", s2, TxDropped, TxOverrunsOldPart);
        if Counter("dropped:", s2).Some? {
          var s3 := Counter("dropped:", s2).value.1;
          CounterIff("overruns:", s3, TxOverruns, CarrierOldPart);
          if Counter("overruns:", s3).Some? {
            LastCounterIff("carrier:", Counter("overruns:", s3).value.1);
          }
        }
      }
    }
  }

  lemma CompressedIff(line: string)
    ensures MatchCompressedLine(line).Some? <==> CompressedShape(line)
  {
    hide Counter, SpacedWord;
    LastCounterIff("compressed:", line);
  }

  lemma CollisionsIff(line: string)
    ensures CollisionsUpdate(line).Some? <==> CollisionsShape(line)
  {
    hide Counter, SpacedWord, SomeRun, Ws, MatchCompressed, MatchQueueOld;
    SomeRunAvoids(Digit, Space, Anything);
    CounterIff("collisions:", line, CollisionDigits, RestPart);
    if Counter("collisions:", line).Some? {
      var s := Counter("collisions:", line).value.1;
      LastRunIff(Space, s);
      WsIsRun(s);
    }
  }

  lemma TxBytesIff(s: string)
    ensures TxBytesPart(s) <==> MatchTxBytes(s).Some?
  {
    hide Counter, SpacedWord, SomeRun, Ws, Parens, TitlePart;
    if ")" <= s {
      TitleAvoids(Digit);
      CounterIff("TX bytes:", s[1..], TxBytesDigits, TitlePart);
      if Counter("TX bytes:", s[1..]).Some? { TitleIff(Counter("TX bytes:", s[1..]).value.1); }
    }
  }

  lemma RxTextIff(s: string)
    ensures RxText(s) <==> Greedy(s, MatchTxBytes).Some?
  {
    hide Greedy, TxBytesPart, MatchTxBytes;
    GreedyIff(s, MatchTxBytes);
    forall n | 0 <= n <= |s| ensures TxBytesPart(s[n..]) <==> MatchTxBytes(s[n..]).Some? {
      TxBytesIff(s[n..]);
    }
  }

  lemma RxTextAvoids()
    ensures Avoids(Digit, RxTextPart)
  {
    hide SpacedWord;
    SpacedWordAvoids(Digit, "(", RxText);
  }

  lemma BytesIff(line: string)
    ensures MatchBytesOld(line).Some? <==> BytesShape(line)
  {
    hide Counter, SpacedWord, SomeRun, Ws, Lit, Greedy, RxText, Avoids;
    RxTextAvoids();
    CounterIff("RX bytes:", line, RxBytesDigits, RxTextPart);
    if Counter("RX bytes:", line).Some? {
      var s1 := Counter("RX bytes:", line).value.1;
      SpacedWordIff("(", s1, RxText);
      if Ws(s1).Some? && Lit("(", Ws(s1).value).Some? {
        RxTextIff(Lit("(", Ws(s1).value).value);
      }
    }
  }

  lemma ChainIff(line: string)
    ensures DispatchOld(line) != HardwareOld <==> ChainShape(line)
  {
    hide InetOldUpdate, MatchInet6Old, FlagsOldUpdate, MatchCounters, MatchCompressedLine;
    hide CollisionsUpdate, MatchBytesOld, HardwareOldUpdate, SpacedWord, SomeRun;
    hide InetOldShape, Inet6OldShape, FlagsOldShape, RxOldShape, CompressedShape, TxOldShape;
    hide CollisionsShape, BytesShape;
    InetOldIff(line);
    Inet6OldIff(line);
    FlagsOldIff(line);
    RxOldIff(line);
    CompressedIff(line);
    TxOldIff(line);
    CollisionsIff(line);
    BytesIff(line);
  }

  // -------------------------------------------------------------------------- resources

  lemma LastHexIff(s: string)
    ensures SomeRun(HexDigit, s, Anything) <==> Hex(s).Some?
  {
    hide Value;
    LastRunIff(HexDigit, s);
  }

  lemma DashAvoids()
    ensures Avoids(HexDigit, DashPart)
  {
  }

  lemma ResourcesIff(line: string)
    ensures InterruptShape(line) <==> MatchInterruptOld(line).Some?
    ensures BaseShape(line) <==> MatchBaseOld(line).Some?
    ensures DmaShape(line) <==> MatchDmaOld(line).Some?
  {
    hide Counter, SpacedWord, SomeRun, Hex;
    LastCounterIff("Interrupt:", line);
    if "Base address:0x" <= line { LastHexIff(line[15..]); }
    if "DMA chan:" <= line { LastHexIff(line[9..]); }
  }

  lemma HexIff(s: string, k: string -> bool)
    requires Avoids(HexDigit, k)
    ensures SomeRun(HexDigit, s, k) <==> Hex(s).Some? && k(Hex(s).value.1)
  {
    hide Value;
    SomeRunIff(HexDigit, s, k);
  }

  lemma MemoryIff(line: string)
    ensures MemoryShape(line) <==> MatchMemoryOld(line).Some?
  {
    hide SomeRun, Hex, Avoids;
    if "Memory:" <= line {
      DashAvoids();
      HexIff(line[7..], DashPart);
      if Hex(line[7..]).Some? && "-" <= Hex(line[7..]).value.1 {
        LastHexIff(Hex(line[7..]).value.1[1..]);
      }
    }
  }

  /** The end of the chain assigns nothing exactly to a line that is none of resources. */
  lemma HardwareIff(line: string)
    ensures HardwareOldUpdate(line) != map[] <==> ResourceShape(line)
  {
    hide MatchInterruptOld, MatchBaseOld, MatchMemoryOld, MatchDmaOld, InterruptShape, BaseShape;
    hide MemoryShape, DmaShape;
    ResourcesIff(line);
    MemoryIff(line);
    var i := MatchInterruptOld(line);
    var s1 := if i.Some? then i.value.1 else line;
    var b := MatchBaseOld(s1);
    var s2 := if b.Some? then b.value.1 else s1;
    var m := MatchMemoryOld(s2);
    var d := MatchDmaOld(if m.Some? then m.value.2 else s2);
    NothingStated(if i.Some? then Some(i.value.0) else None, if b.Some? then Some(b.value.0) else None,
                  if m.Some? then Some((m.value.0, m.value.1)) else None, d);
  }

  lemma NothingStated(interrupt: Option<nat>, base: Option<nat>, memory: Option<(nat, nat)>,
                      dma: Option<nat>)
    ensures ResourceAttrs(interrupt, base, memory, dma) == map[]
       <==> interrupt.None? && base.None? && memory.None? && dma.None?
  {
    var attrs := ResourceAttrs(interrupt, base, memory, dma);
    assert interrupt.Some? ==> INTERRUPT in attrs;
    assert base.Some? ==> BASE_ADDR in attrs;
    assert memory.Some? ==> MEM_START in attrs;
    assert dma.Some? ==> DMA in attrs;
  }

  lemma ChainAssigns(line: string)
    requires DispatchOld(line) != HardwareOld
    ensures OldUpdate(line) != map[]
  {
    hide MatchLabelled, MatchInet6Old, MatchFlagsOld, MatchCounters, MatchCompressedLine;
    hide MatchCollisions, MatchBytesOld, HardwareOldUpdate, MatchOutfillOld, MatchCompressed;
    var attrs := OldUpdate(line);
    assert INET in attrs || INET6 in attrs || MTU in attrs || RX_PACKETS in attrs
        || RX_COMPRESSED in attrs || TX_PACKETS in attrs || TX_COLLISIONS in attrs || RX_BYTES in attrs;
  }

  /** For every line: the old format passes it over without assigning anything exactly if none
      of the twelve expressions matches it. */
  lemma PassedOverIff(line: string)
    ensures OldUpdate(line) == map[] <==> !ChainShape(line) && !ResourceShape(line)
  {
    hide ChainShape, ResourceShape, HardwareOldUpdate;
    ChainIff(line);
    HardwareIff(line);
    if DispatchOld(line) != HardwareOld { ChainAssigns(line); }
    hide InetOldUpdate, FlagsOldUpdate, CollisionsUpdate;
  }

  // --------------------------------------------------------------------- optional parts

  ghost predicate KeepaliveOldPart(s: string) { SpacedWord("Keepalive:", s, LastDigits) }
  ghost predicate OutfillOldDigits(s: string) { SomeRun(Digit, s, KeepaliveOldPart) }
  ghost predicate CompressedPart(s: string) { "compressed:" <= s && SomeRun(Digit, s[11..], RestPart) }
  ghost predicate QueueOldPart(s: string) { "txqueuelen:" <= s && SomeRun(Digit, s[11..], Anything) }

  /** The optional parts of flags and collisions lines are read exactly if they are there. */
  lemma OptionalPartsIff(s: string)
    ensures MatchOutfillOld(s).Some? <==> SpacedWord("Outfill:", s, OutfillOldDigits)
    ensures MatchCompressed(s).Some? <==> CompressedPart(s)
    ensures MatchQueueOld(s).Some? <==> QueueOldPart(s)
  {
    hide Counter, Dec, Ws, SpacedWord, SomeRun, Avoids;
    TailsAvoid();
    CounterIff("Outfill:", s, OutfillOldDigits, KeepaliveOldPart);
    if Counter("Outfill:", s).Some? { LastCounterIff("Keepalive:", Counter("Outfill:", s).value.1); }
    if "compressed:" <= s {
      NumberIff(s[11..], RestPart);
      if Dec(s[11..]).Some? {
        var t := Dec(s[11..]).value.1;
        LastRunIff(Space, t);
        WsIsRun(t);
      }
    }
    if "txqueuelen:" <= s { LastNumberIff(s[11..]); }
  }

  lemma TailsAvoid()
    ensures Avoids(Digit, KeepaliveOldPart) && Avoids(Digit, RestPart)
  {
    SpacedWordAvoids(Digit, "Keepalive:", LastDigits);
    SomeRunAvoids(Digit, Space, Anything);
  }
}
