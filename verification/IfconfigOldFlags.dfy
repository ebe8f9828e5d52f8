/** The flags line of the old format against the two address patterns that come before it:
    which flag strings are taken for an address. */
module IfconfigOldFlags {
  import opened IfconfigPatterns
  import opened Numerals
  import opened Scanner
  import opened Wrappers

  const OLD_INDENT := "          "

  /** The flag string on its own would be read as an address line. */
  predicate AddressLike(flagsstr: string) {
    InetOldUpdate(OLD_INDENT + flagsstr).Some? || MatchInet6Old(OLD_INDENT + flagsstr).Some?
  }

  /** What follows the flags: two blanks, then a word that starts with an M. */
  predicate MtuTail(tail: string) {
    |tail| > 2 && tail[0] == tail[1] == ' ' && tail[2] == 'M'
  }

  lemma SpaceTail(s: string, tail: string)
    requires MtuTail(tail)
    ensures Run(Digit, s + tail)
         == match Run(Digit, s) case None => None case Some((x, rest)) => Some((x, rest + tail))
    ensures Run(NonSpace, s + tail)
         == match Run(NonSpace, s) case None => None case Some((x, rest)) => Some((x, rest + tail))
  {
    RunAppend(Digit, s, tail);
    RunAppend(NonSpace, s, tail);
  }

  lemma DotTail(s: string, tail: string)
    requires MtuTail(tail)
    ensures Lit(".", s + tail) == match Lit(".", s) case None => None case Some(r) => Some(r + tail)
  {
    LitAppend(".", s, tail, 0);
  }

  /** `n` times a dot and a number. */
  predicate Numbers(s: string, n: nat) {
    n == 0 || (Lit(".", s).Some? && Run(Digit, Lit(".", s).value).Some?
               && Numbers(Run(Digit, Lit(".", s).value).value.1, n - 1))
  }

  lemma Ip4IsNumbers(s: string)
    ensures Ip4(s).Some? <==> Run(Digit, s).Some? && Numbers(Run(Digit, s).value.1, 3)
  {
    hide Run, Lit;
    if Run(Digit, s).Some? {
      var s1 := Run(Digit, s).value.1;
      if Lit(".", s1).Some? && Run(Digit, Lit(".", s1).value).Some? {
        var s3 := Run(Digit, Lit(".", s1).value).value.1;
        assert Numbers(s1, 3) <==> Numbers(s3, 2);
        if Lit(".", s3).Some? && Run(Digit, Lit(".", s3).value).Some? {
          var s5 := Run(Digit, Lit(".", s3).value).value.1;
          assert Numbers(s3, 2) <==> Numbers(s5, 1);
        }
      }
    }
  }

  lemma {:induction false} NumbersTail(s: string, tail: string, n: nat)
    requires MtuTail(tail)
    ensures Numbers(s + tail, n) <==> Numbers(s, n)
    decreases n
  {
    hide Run, Lit, MtuTail;
    if n > 0 {
      DotTail(s, tail);
      if Lit(".", s).Some? {
        var s1 := Lit(".", s).value;
        SpaceTail(s1, tail);
        if Run(Digit, s1).Some? { NumbersTail(Run(Digit, s1).value.1, tail, n - 1); }
      }
    }
  }

  lemma Ip4Tail(s: string, tail: string)
    requires MtuTail(tail)
    ensures Ip4(s + tail).Some? <==> Ip4(s).Some?
  {
    hide Run, Lit, MtuTail, Ip4;
    SpaceTail(s, tail);
    Ip4IsNumbers(s);
    Ip4IsNumbers(s + tail);
    if Run(Digit, s).Some? { NumbersTail(Run(Digit, s).value.1, tail, 3); }
  }

  lemma ScopeWordTail(s: string, tail: string)
    requires MtuTail(tail)
    ensures Lit("Scope:", s + tail)
         == match Lit("Scope:", s) case None => None case Some(r) => Some(r + tail)
  {
    LitAppend("Scope:", s, tail, 0);
  }

  /** White space and the word that follows it. */
  predicate ScopeBehind(s: string) {
    Ws(s).Some? && Lit("Scope:", Ws(s).value).Some?
    && Run(NonSpace, Lit("Scope:", Ws(s).value).value).Some?
  }

  /** The white space at the end of the flags runs on into the tail, where no scope follows. */
  lemma ScopeBehindTail(s: string, tail: string)
    requires MtuTail(tail)
    ensures ScopeBehind(s + tail) <==> ScopeBehind(s)
  {
    if Span(Space, s) == |s| {
      assert s[..|s|] == s;
      assert tail[..2] == "  " && tail == "  " + tail[2..];
      assert s + tail == (s + "  ") + tail[2..];
      WsStep(s + "  ", tail[2..]);
      LitMiss("Scope:", tail[2..], 0);
      assert Ws(s).Some? ==> Ws(s).value == "";
    } else {
      RunAppend(Space, s, tail);
      if Ws(s).Some? {
        var s1 := Ws(s).value;
        ScopeWordTail(s1, tail);
        if Lit("Scope:", s1).Some? { SpaceTail(Lit("Scope:", s1).value, tail); }
      }
    }
    hide Run, Lit, Span;
  }

  lemma ScopeIs(s: string)
    ensures MatchScope(s).Some?
       <==> && Lit("/", s).Some? && Run(Digit, Lit("/", s).value).Some?
            && ScopeBehind(Run(Digit, Lit("/", s).value).value.1)
  {
    hide Run, Lit, Ws;
  }

  lemma ScopeTail(s: string, tail: string)
    requires MtuTail(tail)
    ensures MatchScope(s + tail).Some? <==> MatchScope(s).Some?
  {
    hide Run, MatchScope, ScopeBehind;
    ScopeIs(s);
    ScopeIs(s + tail);
    LitAppend("/", s, tail, 0);
    if Lit("/", s).Some? {
      var s1 := Lit("/", s).value;
      SpaceTail(s1, tail);
      if Run(Digit, s1).Some? { ScopeBehindTail(Run(Digit, s1).value.1, tail); }
    }
  }

  lemma SlashTail(s: string, tail: string)
    requires MtuTail(tail)
    ensures Backtrack(s + tail, Span(NonSpace, s + tail), 1, MatchScope).Some?
       <==> Backtrack(s, Span(NonSpace, s), 1, MatchScope).Some?
  {
    hide MatchScope;
    var n := Span(NonSpace, s);
    SpanAppend(NonSpace, s, tail);
    forall q | 0 <= q <= n
      ensures MatchScope((s + tail)[q..]).Some? <==> MatchScope(s[q..]).Some?
    {
      assert (s + tail)[q..] == s[q..] + tail;
      ScopeTail(s[q..], tail);
    }
    BacktrackAlike(s + tail, s, n, 1, MatchScope);
  }

  /** The two keywords do not reach over the end of the flags, but for the last blank of the
      second, which no address can then follow. */
  lemma InetWordTail(s: string, tail: string)
    requires MtuTail(tail)
    ensures Lit("inet addr:", s + tail)
         == match Lit("inet addr:", s) case None => None case Some(r) => Some(r + tail)
  {
    LitAppend("inet addr:", s, tail, if |s| == 4 then 1 else 0);
  }

  lemma Inet6WordTail(s: string, tail: string)
    requires MtuTail(tail)
    ensures s != "inet6 addr:" ==>
      Lit("inet6 addr: ", s + tail)
      == match Lit("inet6 addr: ", s) case None => None case Some(r) => Some(r + tail)
    ensures s == "inet6 addr:" ==>
      Lit("inet6 addr: ", s).None? && Lit("inet6 addr: ", s + tail) == Some(tail[1..])
  {
    if s == "inet6 addr:" {
      assert "inet6 addr: " == s + " ";
      assert s + tail == "inet6 addr: " + tail[1..];
      LitMiss("inet6 addr: ", s, 11);
    } else if |s| == 11 {
      var i :| 0 <= i < 11 && s[i] != "inet6 addr:"[i];
      LitMiss("inet6 addr: ", s + tail, i);
      LitMiss("inet6 addr: ", s, i);
    } else {
      LitAppend("inet6 addr: ", s, tail, if |s| == 5 then 1 else 0);
    }
  }

  /** An address line is one with or without what follows the flags. */
  lemma AddressTail(s: string, tail: string)
    requires MtuTail(tail) && s != "" && !In(Space, s[0])
    ensures InetAfter(s + tail) <==> InetAfter(s)
    ensures Inet6After(s + tail) <==> Inet6After(s)
  {
    hide Ip4, MatchScope, Span, MtuTail;
    InetWordTail(s, tail);
    if Lit("inet addr:", s).Some? { Ip4Tail(Lit("inet addr:", s).value, tail); }
    Inet6WordTail(s, tail);
    if s == "inet6 addr:" {
      NoSlash(tail);
    } else if Lit("inet6 addr: ", s).Some? {
      SlashTail(Lit("inet6 addr: ", s).value, tail);
    }
  }

  lemma NoSlash(tail: string)
    requires MtuTail(tail)
    ensures Backtrack(tail[1..], Span(NonSpace, tail[1..]), 1, MatchScope).None?
  {
  }

  /** What the two address patterns look for behind the white space at the start. */
  predicate InetAfter(s: string) {
    Lit("inet addr:", s).Some? && Ip4(Lit("inet addr:", s).value).Some?
  }

  predicate Inet6After(s: string) {
    && Lit("inet6 addr: ", s).Some?
    && var t := Lit("inet6 addr: ", s).value;
       Backtrack(t, Span(NonSpace, t), 1, MatchScope).Some?
  }

  lemma AddressAfter(line: string)
    requires Ws(line).Some?
    ensures InetOldUpdate(line).Some? <==> InetAfter(Ws(line).value)
    ensures MatchInet6Old(line).Some? <==> Inet6After(Ws(line).value)
  {
    hide Ws, Lit, Ip4, MatchScope, Span;
  }

  /** The flags behind their leading white space. */
  function Core(flagsstr: string): string { flagsstr[Span(Space, flagsstr)..] }

  lemma CoreStripped(flagsstr: string)
    ensures StripLeft(flagsstr) == Core(flagsstr)
  {
    if flagsstr != "" && IsSpace(flagsstr[0]) {
      CoreStripped(flagsstr[1..]);
      assert flagsstr[1..][Span(Space, flagsstr[1..])..] == Core(flagsstr);
    }
  }

  lemma Leading(flagsstr: string, rest: string)
    requires Core(flagsstr) != "" || Leaves(Space, rest)
    ensures Ws(OLD_INDENT + (flagsstr + rest)) == Some(Core(flagsstr) + rest)
  {
    var n := Span(Space, flagsstr);
    var lead, core := flagsstr[..n], flagsstr[n..];
    assert flagsstr == lead + core;
    assert OLD_INDENT + (flagsstr + rest) == (OLD_INDENT + lead) + (core + rest);
    assert Leaves(Space, core + rest) by { assert core + rest == if core == "" then rest else core + rest; }
    WsStep(OLD_INDENT + lead, core + rest);
  }

  /** A line of flags is taken for an address exactly if the flag string alone is one. */
  lemma AddressLikeIff(flagsstr: string, tail: string)
    requires MtuTail(tail)
    ensures var line := OLD_INDENT + (flagsstr + tail);
            && (InetOldUpdate(line).Some? <==> InetOldUpdate(OLD_INDENT + flagsstr).Some?)
            && (MatchInet6Old(line).Some? <==> MatchInet6Old(OLD_INDENT + flagsstr).Some?)
  {
    hide InetAfter, Inet6After, InetOldUpdate, MatchInet6Old, Ws;
    var line, core := OLD_INDENT + (flagsstr + tail), Core(flagsstr);
    Leading(flagsstr, "");
    assert flagsstr + "" == flagsstr && core + "" == core;
    AddressAfter(OLD_INDENT + flagsstr);
    if core == "" {
      var rest := tail[2..];
      assert flagsstr + tail == (flagsstr + "  ") + rest by { assert tail == "  " + rest; }
      BlankLeading(flagsstr, rest);
      AddressAfter(line);
      NoAddressIn(rest);
      NoAddressIn("");
    } else {
      Leading(flagsstr, tail);
      AddressAfter(line);
      AddressTail(core, tail);
    }
  }

  lemma BlankLeading(flagsstr: string, rest: string)
    requires Core(flagsstr) == "" && Leaves(Space, rest)
    ensures Ws(OLD_INDENT + ((flagsstr + "  ") + rest)) == Some(rest)
  {
    assert flagsstr[..|flagsstr|] == flagsstr;
    assert OLD_INDENT + ((flagsstr + "  ") + rest) == (OLD_INDENT + (flagsstr + "  ")) + rest;
    WsStep(OLD_INDENT + (flagsstr + "  "), rest);
  }

  lemma NoAddressIn(s: string)
    requires s == "" || s[0] != 'i'
    ensures !InetAfter(s) && !Inet6After(s)
  {
    LitMiss("inet addr:", s, 0);
    LitMiss("inet6 addr: ", s, 0);
  }
}
