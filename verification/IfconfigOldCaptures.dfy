/** What a matched line of the old format assigns stands in the line, and so does what is read
    from a first line of the new one, whose flags text is the longest there is. */
module IfconfigOldCaptures {
  import opened IfconfigCaptures
  import opened IfconfigGrammar
  import opened IfconfigPatterns
  import opened Numerals
  import opened Scanner
  import opened Wrappers

  /** A repetition ends at the last place from which the rest is matched. */
  lemma {:induction false} BacktrackParts<T>(s: string, n: nat, min: nat, k: string -> Option<T>)
    requires n <= |s| && Backtrack(s, n, min, k).Some?
    ensures var (x, v) := Backtrack(s, n, min, k).value;
            && min <= |x| <= n && x == s[..|x|] && k(s[|x|..]) == Some(v)
            && forall q :: |x| < q <= n ==> k(s[q..]).None?
  {
    if k(s[n..]).None? { BacktrackParts(s, n - 1, min, k); }
  }

  lemma GreedyParts<T>(s: string, k: string -> Option<T>) returns (rest: string)
    requires Greedy(s, k).Some?
    ensures var (x, v) := Greedy(s, k).value;
            && s == x + rest && k(rest) == Some(v)
            && forall q :: |x| < q <= |s| ==> k(s[q..]).None?
  {
    BacktrackParts(s, |s|, 0, k);
    rest := s[|Greedy(s, k).value.0|..];
  }

  // ------------------------------------------------------------------------ first lines

  lemma MtuParts(s: string) returns (d: string)
    requires MatchMtu(s).Some?
    ensures var (mtu, rest) := MatchMtu(s).value; Says(d, mtu) && s == ">  mtu " + (d + rest)
  {
    hide Lit, Dec, Says;
    LitParts(">  mtu ", s);
    d := DecParts(Lit(">  mtu ", s).value);
  }

  /** The flags reach to the last place behind which the rest of the expression fits. */
  lemma FlagsParts(text: string) returns (d: string, e: string)
    requires MatchFlags(text).Some?
    ensures var (flagsint, flagsstr, mtu, rest) := MatchFlags(text).value;
            && Says(d, flagsint) && Says(e, mtu)
            && text == "flags=" + (d + ("<" + (flagsstr + (">  mtu " + (e + rest)))))
            && var s := flagsstr + (">  mtu " + (e + rest));
               forall q :: |flagsstr| < q <= |s| ==> MatchMtu(s[q..]).None?
  {
    hide Lit, Dec, Says, Greedy, MatchMtu;
    LitParts("flags=", text);
    var s1 := Lit("flags=", text).value;
    d := DecParts(s1);
    LitParts("<", Dec(s1).value.1);
    var s3 := Lit("<", Dec(s1).value.1).value;
    var tail := GreedyParts(s3, MatchMtu);
    e := MtuParts(tail);
  }

  // --------------------------------------------------------------------- the old format

  lemma ScopeParts(s: string) returns (w: string, d: string, rest: string)
    requires MatchScope(s).Some?
    ensures var (prefixlen, scopeid) := MatchScope(s).value;
            && Says(d, prefixlen) && Gap(w) && scopeid != "" && All(NonSpace, scopeid)
            && Leaves(NonSpace, rest)
            && s == "/" + (d + (w + ("Scope:" + (scopeid + rest))))
  {
    hide Lit, Dec, Ws, Run, Says;
    LitParts("/", s);
    var s1 := Lit("/", s).value;
    d := DecParts(s1);
    var s2 := Dec(s1).value.1;
    w := WordParts("Scope:", s2);
    var t := Lit("Scope:", Ws(s2).value).value;
    RunParts(NonSpace, t);
    rest := Run(NonSpace, t).value.1;
  }

  lemma Inet6OldParts(line: string) returns (w: seq<string>, d: string, rest: string)
    requires MatchInet6Old(line).Some?
    ensures var (inet6, prefixlen, scopeid) := MatchInet6Old(line).value;
            && Gaps(w, 2) && Says(d, prefixlen) && inet6 != ""
            && scopeid != "" && All(NonSpace, scopeid) && Leaves(NonSpace, rest)
            && line == w[0] + ("inet6 addr: " + (inet6 + ("/" + (d + (w[1] + ("Scope:"
                       + (scopeid + rest)))))))
  {
    hide Lit, Ws, Says, Span, Backtrack, MatchScope;
    var w0 := WordParts("inet6 addr: ", line);
    var s2 := Lit("inet6 addr: ", Ws(line).value).value;
    BacktrackParts(s2, Span(NonSpace, s2), 1, MatchScope);
    var n := |Backtrack(s2, Span(NonSpace, s2), 1, MatchScope).value.0|;
    var w1;
    w1, d, rest := ScopeParts(s2[n..]);
    assert s2 == s2[..n] + s2[n..];
    w := [w0, w1];
  }

  lemma MtuOldParts(s: string) returns (w: string, d: string, e: string)
    requires MatchMtuOld(s).Some?
    ensures var (mtu, metric, rest) := MatchMtuOld(s).value;
            && Says(d, mtu) && Gap(w) && Says(e, metric)
            && s == "  MTU:" + (d + (w + ("Metric:" + (e + rest))))
  {
    hide Lit, Dec, Counter, Says;
    LitParts("  MTU:", s);
    d := DecParts(Lit("  MTU:", s).value);
    w, e := CounterParts("Metric:", Dec(Lit("  MTU:", s).value).value.1);
  }

  lemma FlagsOldParts(line: string) returns (w: seq<string>, d: string, e: string)
    requires MatchFlagsOld(line).Some?
    ensures var (flagsstr, mtu, metric, rest) := MatchFlagsOld(line).value;
            && Gaps(w, 2) && Says(d, mtu) && Says(e, metric)
            && line == w[0] + (flagsstr + ("  MTU:" + (d + (w[1] + ("Metric:" + (e + rest))))))
  {
    hide Greedy, Says, MatchMtuOld, Backtrack, All, Span;
    BacktrackParts(line, Span(Space, line), 1, MatchFlagsTail);
    var n := |Backtrack(line, Span(Space, line), 1, MatchFlagsTail).value.0|;
    SpanIsSpace(line, n);
    var tail := GreedyParts(line[n..], MatchMtuOld);
    var w1;
    w1, d, e := MtuOldParts(tail);
    assert line == line[..n] + line[n..];
    w := [line[..n], w1];
  }

  lemma SpanIsSpace(s: string, n: nat)
    requires 0 < n <= Span(Space, s)
    ensures n <= |s| && Gap(s[..n])
  {
    assert s[..n] == s[..Span(Space, s)][..n];
  }

  lemma OutfillOldParts(s: string) returns (w: seq<string>, d: seq<string>, rest: string)
    requires MatchOutfillOld(s).Some?
    ensures var (outfill, keepalive) := MatchOutfillOld(s).value;
            && Gaps(w, 2) && |d| == 2 && Says(d[0], outfill) && Says(d[1], keepalive)
            && s == w[0] + ("Outfill:" + (d[0] + (w[1] + ("Keepalive:" + (d[1] + rest)))))
  {
    hide Counter, Says;
    var w0, d0 := CounterParts("Outfill:", s);
    var s1 := Counter("Outfill:", s).value.1;
    var w1, d1 := CounterParts("Keepalive:", s1);
    w, d, rest := [w0, w1], [d0, d1], Counter("Keepalive:", s1).value.1;
  }

  lemma CountersParts(direction: string, last: string, line: string)
    returns (w: seq<string>, d: seq<string>, rest: string)
    requires MatchCounters(direction, last, line).Some?
    ensures var (packets, errors, dropped, overruns, value) := MatchCounters(direction, last, line).value;
            && Gaps(w, 5) && |d| == 5 && Says(d[0], packets) && Says(d[1], errors)
            && Says(d[2], dropped) && Says(d[3], overruns) && Says(d[4], value)
            && line == w[0] + (direction + " packets:" + (d[0] + (w[1] + ("errors:" + (d[1] + (w[2]
                       + ("dropped:" + (d[2] + (w[3] + ("overruns:" + (d[3] + (w[4]
                       + (last + (d[4] + rest))))))))))))))
  {
    hide Counter, Says;
    var prefix := direction + " packets:";
    var w0, d0 := CounterParts(prefix, line);
    var s1 := Counter(prefix, line).value.1;
    var w1, d1 := CounterParts("errors:", s1);
    var s2 := Counter("errors:", s1).value.1;
    var w2, d2 := CounterParts("dropped:", s2);
    var s3 := Counter("dropped:", s2).value.1;
    var w3, d3 := CounterParts("overruns:", s3);
    var s4 := Counter("overruns:", s3).value.1;
    var w4, d4 := CounterParts(last, s4);
    w, d, rest := [w0, w1, w2, w3, w4], [d0, d1, d2, d3, d4], Counter(last, s4).value.1;
  }

  lemma CollisionsParts(line: string) returns (w: seq<string>, d: string)
    requires MatchCollisions(line).Some?
    ensures var (collisions, rest) := MatchCollisions(line).value;
            && Gaps(w, 2) && Says(d, collisions) && line == w[0] + ("collisions:" + (d + (w[1] + rest)))
  {
    hide Counter, Ws, Says;
    var w0, d0 := CounterParts("collisions:", line);
    var w1 := WsParts(Counter("collisions:", line).value.1);
    w, d := [w0, w1], d0;
  }

  lemma CompressedParts(s: string) returns (d: string, w: string)
    requires MatchCompressed(s).Some?
    ensures var (compressed, rest) := MatchCompressed(s).value;
            Says(d, compressed) && Gap(w) && s == "compressed:" + (d + (w + rest))
  {
    hide Lit, Dec, Ws, Says;
    LitParts("compressed:", s);
    d := DecParts(Lit("compressed:", s).value);
    w := WsParts(Dec(Lit("compressed:", s).value).value.1);
  }

  lemma QueueOldParts(s: string) returns (d: string, rest: string)
    requires MatchQueueOld(s).Some?
    ensures Says(d, MatchQueueOld(s).value) && s == "txqueuelen:" + (d + rest)
  {
    hide Lit, Dec, Says;
    LitParts("txqueuelen:", s);
    d := DecParts(Lit("txqueuelen:", s).value);
    rest := Dec(Lit("txqueuelen:", s).value).value.1;
  }

  lemma TxBytesParts(s: string) returns (w: seq<string>, d: string, human: string, rest: string)
    requires MatchTxBytes(s).Some?
    ensures Gaps(w, 2) && Says(d, MatchTxBytes(s).value)
    ensures s == ")" + (w[0] + ("TX bytes:" + (d + (w[1] + ("(" + (human + (")" + rest)))))))
  {
    hide Lit, Counter, Ws, Parens, Says;
    LitParts(")", s);
    var s1 := Lit(")", s).value;
    var w0, d0 := CounterParts("TX bytes:", s1);
    var s2 := Counter("TX bytes:", s1).value.1;
    var w1 := WsParts(s2);
    rest := ParensParts(Ws(s2).value);
    w, d, human := [w0, w1], d0, Parens(Ws(s2).value).value;
  }

  lemma BytesParts(line: string)
    returns (w: seq<string>, d: seq<string>, rxhuman: string, txhuman: string, rest: string)
    requires MatchBytesOld(line).Some?
    ensures var (rxbytes, txbytes) := MatchBytesOld(line).value;
            && Gaps(w, 4) && |d| == 2 && Says(d[0], rxbytes) && Says(d[1], txbytes)
            && line == w[0] + ("RX bytes:" + (d[0] + (w[1] + ("(" + (rxhuman + (")" + (w[2]
                       + ("TX bytes:" + (d[1] + (w[3] + ("(" + (txhuman + (")" + rest)))))))))))))
  {
    hide Lit, Counter, Ws, Greedy, Says, MatchTxBytes;
    var w0, d0 := CounterParts("RX bytes:", line);
    var s1 := Counter("RX bytes:", line).value.1;
    var w1 := WordParts("(", s1);
    var s3 := Lit("(", Ws(s1).value).value;
    var tail := GreedyParts(s3, MatchTxBytes);
    var v, e;
    v, e, txhuman, rest := TxBytesParts(tail);
    w, d, rxhuman := [w0, w1, v[0], v[1]], [d0, e], Greedy(s3, MatchTxBytes).value.0;
  }

  // -------------------------------------------------------------------------- resources

  lemma SkipParts(s: string) returns (w: string)
    ensures All(Space, w) && s == w + SkipSpace(s) && Leaves(Space, SkipSpace(s))
  {
    w := s[..Span(Space, s)];
  }

  lemma InterruptOldParts(line: string) returns (w: string, d: string, v: string)
    requires MatchInterruptOld(line).Some?
    ensures var (interrupt, rest) := MatchInterruptOld(line).value;
            && Gap(w) && Says(d, interrupt) && All(Space, v) && Leaves(Space, rest)
            && line == w + ("Interrupt:" + (d + (v + rest)))
  {
    hide Counter, Says, SkipSpace;
    w, d := CounterParts("Interrupt:", line);
    v := SkipParts(Counter("Interrupt:", line).value.1);
  }

  lemma BaseOldParts(s: string) returns (d: string, v: string)
    requires MatchBaseOld(s).Some?
    ensures var (base, rest) := MatchBaseOld(s).value;
            && SaysHex(d, base) && All(Space, v) && Leaves(Space, rest)
            && s == "Base address:0x" + (d + (v + rest))
  {
    hide Lit, Hex, SaysHex, SkipSpace;
    LitParts("Base address:0x", s);
    d := HexParts(Lit("Base address:0x", s).value);
    v := SkipParts(Hex(Lit("Base address:0x", s).value).value.1);
  }

  lemma MemoryOldParts(s: string) returns (d: string, e: string, v: string)
    requires MatchMemoryOld(s).Some?
    ensures var (start, end, rest) := MatchMemoryOld(s).value;
            && SaysHex(d, start) && SaysHex(e, end) && All(Space, v) && Leaves(Space, rest)
            && s == "Memory:" + (d + ("-" + (e + (v + rest))))
  {
    hide Lit, Hex, SaysHex, SkipSpace;
    LitParts("Memory:", s);
    var s1 := Lit("Memory:", s).value;
    d := HexParts(s1);
    LitParts("-", Hex(s1).value.1);
    var s3 := Lit("-", Hex(s1).value.1).value;
    e := HexParts(s3);
    v := SkipParts(Hex(s3).value.1);
  }

  lemma DmaOldParts(s: string) returns (d: string, rest: string)
    requires MatchDmaOld(s).Some?
    ensures SaysHex(d, MatchDmaOld(s).value) && s == "DMA chan:" + (d + rest)
  {
    hide Lit, Hex, SaysHex;
    LitParts("DMA chan:", s);
    d := HexParts(Lit("DMA chan:", s).value);
    rest := Hex(Lit("DMA chan:", s).value).value.1;
  }
}
