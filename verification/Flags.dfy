/** flags2str of scripts/pifconfig: the names of the interface flags that are set. */
module Flags {
  import opened Numerals

  datatype Flag = Flag(name: string, value: nat)

  // The IFF_ constants that python-ethtool/ethtool.c exports, in the order flags2str tests them.
  const FLAGS: seq<Flag> := [
    Flag("UP", 0x1),
    Flag("BROADCAST", 0x2),
    Flag("DEBUG", 0x4),
    Flag("LOOPBACK", 0x8),
    Flag("POINTOPOINT", 0x10),
    Flag("NOTRAILERS", 0x20),
    Flag("RUNNING", 0x40),
    Flag("NOARP", 0x80),
    Flag("PROMISC", 0x100),
    Flag("ALLMULTI", 0x200),
    Flag("MASTER", 0x400),
    Flag("SLAVE", 0x800),
    Flag("MULTICAST", 0x1000),
    Flag("PORTSEL", 0x2000),
    Flag("AUTOMEDIA", 0x4000),
    Flag("DYNAMIC", 0x8000)
  ]

  /** flags & value, for a power of two: Python's integers are two's complement numbers of
      any width, so the test is the same for negative ones. */
  predicate Test(flags: int, value: nat)
    requires value > 0
  {
    flags / value % 2 == 1
  }

  /** The names of those among the first `n` flags that are set. */
  function Named(flags: int, n: nat): seq<string>
    requires n <= |FLAGS|
  {
    if n == 0 then []
    else if Test(flags, FLAGS[n - 1].value) then Named(flags, n - 1) + [FLAGS[n - 1].name]
    else Named(flags, n - 1)
  }

  function Spaced(names: seq<string>): string {
    if names == [] then "" else names[0] + (" " + Spaced(names[1..]))
  }

  function Printed(flags: int): string { Strip(Text(flags, |FLAGS|)) }

  lemma {:induction false} SpacedSnoc(names: seq<string>, name: string)
    ensures Spaced(names + [name]) == Spaced(names) + (name + " ")
  {
    if names == [] {
      assert [name][1..] == [];
    } else {
      SpacedSnoc(names[1..], name);
      assert (names + [name])[1..] == names[1..] + [name];
    }
  }

  /** The text once the first `n` flags have been tested. */
  function Text(flags: int, n: nat): string
    requires n <= |FLAGS|
  {
    Spaced(Named(flags, n))
  }

  /** if flags & value: string += text */
  function Append(flags: int, value: nat, s: string, text: string): string
    requires value > 0
  {
    if Test(flags, value) then s + text else s
  }

  lemma TestStep(flags: int, n: nat, value: nat, text: string)
    requires n < |FLAGS| && FLAGS[n].value == value > 0 && FLAGS[n].name + " " == text
    ensures Text(flags, n + 1) == Append(flags, value, Text(flags, n), text)
  {
    hide Spaced;
    SpacedSnoc(Named(flags, n), FLAGS[n].name);
  }

  /** flags2str: an append per flag that is set, here in four parts. */
  method Flags2Str(flags: int) returns (r: string)
    ensures r == Printed(flags)
  {
    NoneTested(flags);
    var s := UpToLoopback(flags, "");
    s := UpToNoArp(flags, s);
    s := UpToSlave(flags, s);
    s := UpToDynamic(flags, s);
    return Strip(s);
  }

  method UpToLoopback(flags: int, before: string) returns (s: string)
    requires before == Text(flags, 0)
    ensures s == Text(flags, 4)
  {
    hide Text, Append;
    s := before;
    s := Append(flags, 0x1, s, "UP ");
    assert s == Text(flags, 1) by { TestStep(flags, 0, 0x1, "UP "); }
    s := Append(flags, 0x2, s, "BROADCAST ");
    assert s == Text(flags, 2) by { TestStep(flags, 1, 0x2, "BROADCAST "); }
    s := Append(flags, 0x4, s, "DEBUG ");
    assert s == Text(flags, 3) by { TestStep(flags, 2, 0x4, "DEBUG "); }
    s := Append(flags, 0x8, s, "LOOPBACK ");
    assert s == Text(flags, 4) by { TestStep(flags, 3, 0x8, "LOOPBACK "); }
  }

  method UpToNoArp(flags: int, before: string) returns (s: string)
    requires before == Text(flags, 4)
    ensures s == Text(flags, 8)
  {
    hide Text, Append;
    s := before;
    s := Append(flags, 0x10, s, "POINTOPOINT ");
    assert s == Text(flags, 5) by { TestStep(flags, 4, 0x10, "POINTOPOINT "); }
    s := Append(flags, 0x20, s, "NOTRAILERS ");
    assert s == Text(flags, 6) by { TestStep(flags, 5, 0x20, "NOTRAILERS "); }
    s := Append(flags, 0x40, s, "RUNNING ");
    assert s == Text(flags, 7) by { TestStep(flags, 6, 0x40, "RUNNING "); }
    s := Append(flags, 0x80, s, "NOARP ");
    assert s == Text(flags, 8) by { TestStep(flags, 7, 0x80, "NOARP "); }
  }

  method UpToSlave(flags: int, before: string) returns (s: string)
    requires before == Text(flags, 8)
    ensures s == Text(flags, 12)
  {
    hide Text, Append;
    s := before;
    s := Append(flags, 0x100, s, "PROMISC ");
    assert s == Text(flags, 9) by { TestStep(flags, 8, 0x100, "PROMISC "); }
    s := Append(flags, 0x200, s, "ALLMULTI ");
    assert s == Text(flags, 10) by { TestStep(flags, 9, 0x200, "ALLMULTI "); }
    s := Append(flags, 0x400, s, "MASTER ");
    assert s == Text(flags, 11) by { TestStep(flags, 10, 0x400, "MASTER "); }
    s := Append(flags, 0x800, s, "SLAVE ");
    assert s == Text(flags, 12) by { TestStep(flags, 11, 0x800, "SLAVE "); }
  }

  method UpToDynamic(flags: int, before: string) returns (s: string)
    requires before == Text(flags, 12)
    ensures s == Text(flags, 16)
  {
    hide Text, Append;
    s := before;
    s := Append(flags, 0x1000, s, "MULTICAST ");
    assert s == Text(flags, 13) by { TestStep(flags, 12, 0x1000, "MULTICAST "); }
    s := Append(flags, 0x2000, s, "PORTSEL ");
    assert s == Text(flags, 14) by { TestStep(flags, 13, 0x2000, "PORTSEL "); }
    s := Append(flags, 0x4000, s, "AUTOMEDIA ");
    assert s == Text(flags, 15) by { TestStep(flags, 14, 0x4000, "AUTOMEDIA "); }
    s := Append(flags, 0x8000, s, "DYNAMIC ");
    assert s == Text(flags, 16) by { TestStep(flags, 15, 0x8000, "DYNAMIC "); }
  }

  lemma NoneTested(flags: int)
    ensures Text(flags, 0) == ""
  {
  }

  // ------------------------------------------------------------------ reading it back

  predicate Plain(name: string) {
    name != "" && forall i :: 0 <= i < |name| ==> 'A' <= name[i] <= 'Z'
  }

  function WordLength(s: string): (n: nat)
    ensures n <= |s|
  {
    if s == "" || s[0] == ' ' then 0 else 1 + WordLength(s[1..])
  }

  /** s.split(' ') */
  function Split(s: string): seq<string> {
    var n := WordLength(s);
    if n == |s| then [s] else [s[..n]] + Split(s[n + 1..])
  }

  function Joined(names: seq<string>): string
    requires names != []
  {
    if |names| == 1 then names[0] else names[0] + (" " + Joined(names[1..]))
  }

  /** No leading, trailing or doubled spaces. */
  predicate Tidy(s: string) {
    s != "" ==>
      && s[0] != ' ' && s[|s| - 1] != ' '
      && forall i :: 0 <= i < |s| - 1 ==> s[i] != ' ' || s[i + 1] != ' '
  }

  lemma {:induction false} WordStep(name: string, rest: string)
    requires Plain(name) && (rest != "" ==> rest[0] == ' ')
    ensures WordLength(name + rest) == |name|
  {
    assert (name + rest)[1..] == name[1..] + rest;
    if |name| > 1 { WordStep(name[1..], rest); }
  }

  lemma JoinedIs(names: seq<string>)
    requires names != []
    ensures |names| == 1 ==> Joined(names) == names[0] && Spaced(names) == names[0] + " "
    ensures |names| > 1 ==>
      && Joined(names) == names[0] + (" " + Joined(names[1..]))
      && Spaced(names) == names[0] + (" " + Spaced(names[1..]))
  {
    if |names| == 1 { assert names[1..] == []; }
  }

  lemma SplitWord(name: string, rest: string)
    requires Plain(name)
    ensures Split(name) == [name]
    ensures Split(name + (" " + rest)) == [name] + Split(rest)
  {
    WordStep(name, "");
    assert name + "" == name;
    WordStep(name, " " + rest);
    var s := name + (" " + rest);
    assert s[..|name|] == name && s[|name| + 1..] == rest;
    hide WordLength, Plain;
  }

  lemma {:induction false} SplitJoined(names: seq<string>)
    requires names != [] && forall i :: 0 <= i < |names| ==> Plain(names[i])
    ensures Split(Joined(names)) == names
    ensures Tidy(Joined(names)) && Joined(names) != "" && Joined(names)[0] != ' '
    ensures Spaced(names) == Joined(names) + " "
  {
    hide Plain, Split, Joined, Spaced, Tidy;
    var name := names[0];
    JoinedIs(names);
    PlainEnds(name);
    if |names| == 1 {
      SplitWord(name, "");
    } else {
      var rest := Joined(names[1..]);
      SplitJoined(names[1..]);
      SplitWord(name, rest);
      TidyStep(name, rest);
      assert [name] + names[1..] == names;
      assert name + (" " + (rest + " ")) == (name + (" " + rest)) + " ";
    }
  }

  lemma PlainEnds(name: string)
    requires Plain(name)
    ensures Tidy(name) && name != "" && name[0] != ' ' && name[|name| - 1] != ' '
  {
  }

  lemma TidyStep(name: string, rest: string)
    requires name != "" && rest != "" && Tidy(name) && Tidy(rest)
    ensures Tidy(name + (" " + rest))
  {
    var s := name + (" " + rest);
    forall i | 0 <= i < |s| - 1 ensures s[i] != ' ' || s[i + 1] != ' ' {
      if i > |name| {
        assert s[i] == rest[i - |name| - 1] && s[i + 1] == rest[i - |name|];
      }
    }
  }

  lemma NamesArePlain(k: nat)
    requires k < |FLAGS|
    ensures Plain(FLAGS[k].name)
  {
  }

  lemma {:induction false} NamedArePlain(flags: int, n: nat)
    requires n <= |FLAGS|
    ensures forall i :: 0 <= i < |Named(flags, n)| ==> Plain(Named(flags, n)[i])
  {
    hide Plain, Test;
    if n > 0 {
      NamedArePlain(flags, n - 1);
      NamesArePlain(n - 1);
    }
  }

  lemma EndsPlain(names: seq<string>)
    requires names != [] && forall i :: 0 <= i < |names| ==> Plain(names[i])
    ensures var s := Joined(names);
            s != "" && !IsSpace(s[0]) && !IsSpace(s[|s| - 1])
  {
    if |names| > 1 { EndsPlain(names[1..]); }
  }

  /** Splitting the text at spaces gives the names of the flags that are set, in order. */
  lemma PrintedSplits(flags: int)
    ensures var names := Named(flags, |FLAGS|);
            Split(Printed(flags)) == if names == [] then [""] else names
    ensures Tidy(Printed(flags))
  {
    hide Named, Plain, Tidy;
    var names := Named(flags, |FLAGS|);
    NamedArePlain(flags, |FLAGS|);
    if names == [] {
      EmptyText();
    } else {
      SplitJoined(names);
      EndsPlain(names);
      hide *;
      StripEnds(Joined(names));
      PrintedIs(flags);
    }
  }

  lemma PrintedIs(flags: int)
    ensures Printed(flags) == Strip(Spaced(Named(flags, |FLAGS|)))
  {
  }

  lemma EmptyText()
    ensures Strip(Spaced([])) == "" && Split("") == [""] && Tidy("")
  {
  }

  // ------------------------------------------------------------------------- and summing

  lemma AtLeast(k: int, d: int)
    requires k >= 1 && d > 0
    ensures k * d >= d
  {
    assert (k - 1) * d >= 0;
  }

  lemma QuotientIs(n: int, d: int, q: int, r: int)
    requires 0 <= r < d && n == q * d + r
    ensures n / d == q && n % d == r
  {
    var q', r' := n / d, n % d;
    assert n == q' * d + r';
    var k := q - q';
    assert k * d == q * d - q' * d;
    if k > 0 {
      AtLeast(k, d);
    } else if k < 0 {
      AtLeast(-k, d);
    }
  }

  lemma ModStep(n: int, m: nat)
    requires m > 0
    ensures n % (2 * m) == n % m + if Test(n, m) then m else 0
  {
    var q, r := n / m, n % m;
    var p, t := q / 2, q % 2;
    assert n == (2 * p + t) * m + r;
    assert (2 * p + t) * m == p * (2 * m) + t * m;
    QuotientIs(n, 2 * m, p, t * m + r);
  }

  function ValueOf(name: string): nat { Lookup(name, |FLAGS|) }

  /** The value of a name among the first `n` flags; zero for any other text. */
  function Lookup(name: string, n: nat): nat
    requires n <= |FLAGS|
  {
    if n == 0 then 0 else if FLAGS[n - 1].name == name then FLAGS[n - 1].value else Lookup(name, n - 1)
  }

  function Sum(names: seq<string>): nat {
    if names == [] then 0 else Sum(names[..|names| - 1]) + ValueOf(names[|names| - 1])
  }

  lemma NamesDiffer(i: nat, j: nat)
    requires i < j < |FLAGS|
    ensures FLAGS[i].name != FLAGS[j].name
  {
  }

  lemma {:induction false} LookupFinds(k: nat, n: nat)
    requires k < n <= |FLAGS|
    ensures Lookup(FLAGS[k].name, n) == FLAGS[k].value
  {
    if k < n - 1 {
      NamesDiffer(k, n - 1);
      LookupFinds(k, n - 1);
    }
  }

  /** The value of the flag after the first `n`. */
  function Limit(n: nat): (m: nat)
    requires n <= |FLAGS|
  {
    if n == |FLAGS| then 0x1_0000 else FLAGS[n].value
  }

  lemma ValuesDouble(n: nat)
    requires n < |FLAGS|
    ensures Limit(n) == FLAGS[n].value > 0 && Limit(n + 1) == 2 * Limit(n)
  {
  }

  lemma {:induction false} NamedSum(flags: int, n: nat)
    requires n <= |FLAGS|
    ensures Limit(n) > 0 && Sum(Named(flags, n)) == flags % Limit(n)
  {
    if n > 0 {
      NamedSum(flags, n - 1);
      ValuesDouble(n - 1);
      LookupFinds(n - 1, |FLAGS|);
      ModStep(flags, FLAGS[n - 1].value);
      hide Limit, Test, Lookup;
      var names := Named(flags, n - 1);
      assert (names + [FLAGS[n - 1].name])[..|names|] == names;
    }
  }

  /** Splitting the printed text and adding up the named bits gives the flags back modulo
      2^16, also for the negative numbers a signed short can hold. */
  lemma FlagsReadBack(flags: int)
    ensures Sum(Split(Printed(flags))) == flags % 0x1_0000
  {
    hide Printed, Named, Split, Lookup;
    PrintedSplits(flags);
    NamedSum(flags, |FLAGS|);
    if Named(flags, |FLAGS|) == [] { EmptyName(); }
  }

  lemma EmptyName()
    ensures Sum([""]) == 0 && Sum([]) == 0
  {
    assert [""][..0] == [];
    NoSuchName(|FLAGS|);
  }

  lemma {:induction false} NoSuchName(n: nat)
    requires n <= |FLAGS|
    ensures Lookup("", n) == 0
  {
    if n > 0 {
      NamesArePlain(n - 1);
      NoSuchName(n - 1);
    }
  }

  lemma {:induction false} SameNamed(f: int, g: int, n: nat)
    requires n <= |FLAGS| && f % 0x1_0000 == g % 0x1_0000
    ensures Named(f, n) == Named(g, n)
  {
    if n > 0 {
      SameNamed(f, g, n - 1);
      SameTest(f, g, n - 1);
      hide Test;
    }
  }

  /** Adding a multiple of twice the value does not change the test. */
  lemma TestPeriod(f: int, value: nat, times: int)
    requires value > 0
    ensures Test(f + times * (2 * value), value) <==> Test(f, value)
  {
    var q, r := f / value, f % value;
    assert f + times * (2 * value) == (q + 2 * times) * value + r;
    QuotientIs(f + times * (2 * value), value, q + 2 * times, r);
    assert (q + 2 * times) % 2 == q % 2;
  }

  lemma ValueDivides(k: nat)
    requires k < |FLAGS|
    ensures FLAGS[k].value > 0 && 0x8000 / FLAGS[k].value * (2 * FLAGS[k].value) == 0x1_0000
  {
  }

  lemma Regroup(laps: int, per: int, step: int)
    ensures laps * per * step == laps * (per * step)
  {
  }

  lemma SameTest(f: int, g: int, k: nat)
    requires k < |FLAGS| && f % 0x1_0000 == g % 0x1_0000
    ensures FLAGS[k].value > 0 && (Test(f, FLAGS[k].value) <==> Test(g, FLAGS[k].value))
  {
    ValueDivides(k);
    var value := FLAGS[k].value;
    SameTestOf(f, g, value, 0x8000 / value);
  }

  lemma SameTestOf(f: int, g: int, value: nat, per: int)
    requires value > 0 && per * (2 * value) == 0x1_0000 && f % 0x1_0000 == g % 0x1_0000
    ensures Test(f, value) <==> Test(g, value)
  {
    hide Test;
    var laps := g / 0x1_0000 - f / 0x1_0000;
    TestPeriod(f, value, laps * per);
    Regroup(laps, per, 2 * value);
    assert g == f + laps * 0x1_0000;
  }

  /** Two flag words print alike exactly if they agree modulo 2^16. */
  lemma PrintedAlikeIff(f: int, g: int)
    ensures Printed(f) == Printed(g) <==> f % 0x1_0000 == g % 0x1_0000
  {
    hide Named, Sum, Split;
    FlagsReadBack(f);
    FlagsReadBack(g);
    if f % 0x1_0000 == g % 0x1_0000 { SameNamed(f, g, |FLAGS|); }
  }

  // --------------------------------------------------------------------- name by name

  lemma {:induction false} NamedIff(flags: int, k: nat, n: nat)
    requires k < n <= |FLAGS|
    ensures FLAGS[k].value > 0
    ensures FLAGS[k].name in Named(flags, n) <==> Test(flags, FLAGS[k].value)
  {
    hide Test;
    ValuesDouble(k);
    if k < n - 1 {
      NamesDiffer(k, n - 1);
      NamedIff(flags, k, n - 1);
    } else {
      NotNamedBefore(flags, k, k);
    }
  }

  lemma {:induction false} NotNamedBefore(flags: int, k: nat, n: nat)
    requires n <= k < |FLAGS|
    ensures FLAGS[k].name !in Named(flags, n)
  {
    hide Test;
    if n > 0 {
      NamesDiffer(n - 1, k);
      NotNamedBefore(flags, k, n - 1);
    }
  }

  /** The name is among the words printed exactly if the bit of that value is set. */
  predicate Tells(flags: int, name: string, value: nat)
    requires value > 0
  {
    name in Split(Printed(flags)) <==> flags / value % 2 == 1
  }

  lemma FlagTells(flags: int, k: nat)
    requires k < |FLAGS|
    ensures FLAGS[k].value > 0 && Tells(flags, FLAGS[k].name, FLAGS[k].value)
  {
    hide Named, Printed, Split;
    PrintedSplits(flags);
    NamedIff(flags, k, |FLAGS|);
    NamesArePlain(k);
  }

  lemma TellsAs(flags: int, k: nat, name: string, value: nat)
    requires k < |FLAGS| && FLAGS[k].name == name && FLAGS[k].value == value
    ensures value > 0 && Tells(flags, name, value)
  {
    hide Tells;
    FlagTells(flags, k);
  }

  lemma LoopbackTells(flags: int)
    ensures Tells(flags, "UP", 0x1) && Tells(flags, "BROADCAST", 0x2)
    ensures Tells(flags, "DEBUG", 0x4) && Tells(flags, "LOOPBACK", 0x8)
  {
    hide Tells;
    TellsAs(flags, 0, "UP", 0x1);
    TellsAs(flags, 1, "BROADCAST", 0x2);
    TellsAs(flags, 2, "DEBUG", 0x4);
    TellsAs(flags, 3, "LOOPBACK", 0x8);
  }

  lemma NoArpTells(flags: int)
    ensures Tells(flags, "POINTOPOINT", 0x10) && Tells(flags, "NOTRAILERS", 0x20)
    ensures Tells(flags, "RUNNING", 0x40) && Tells(flags, "NOARP", 0x80)
  {
    hide Tells;
    TellsAs(flags, 4, "POINTOPOINT", 0x10);
    TellsAs(flags, 5, "NOTRAILERS", 0x20);
    TellsAs(flags, 6, "RUNNING", 0x40);
    TellsAs(flags, 7, "NOARP", 0x80);
  }

  lemma SlaveTells(flags: int)
    ensures Tells(flags, "PROMISC", 0x100) && Tells(flags, "ALLMULTI", 0x200)
    ensures Tells(flags, "MASTER", 0x400) && Tells(flags, "SLAVE", 0x800)
  {
    hide Tells;
    TellsAs(flags, 8, "PROMISC", 0x100);
    TellsAs(flags, 9, "ALLMULTI", 0x200);
    TellsAs(flags, 10, "MASTER", 0x400);
    TellsAs(flags, 11, "SLAVE", 0x800);
  }

  lemma DynamicTells(flags: int)
    ensures Tells(flags, "MULTICAST", 0x1000) && Tells(flags, "PORTSEL", 0x2000)
    ensures Tells(flags, "AUTOMEDIA", 0x4000) && Tells(flags, "DYNAMIC", 0x8000)
  {
    hide Tells;
    TellsAs(flags, 12, "MULTICAST", 0x1000);
    TellsAs(flags, 13, "PORTSEL", 0x2000);
    TellsAs(flags, 14, "AUTOMEDIA", 0x4000);
    TellsAs(flags, 15, "DYNAMIC", 0x8000);
  }

  /** For every integer, each of the sixteen names is printed exactly if its bit is set. */
  lemma NamesAreBits(flags: int)
    ensures Tells(flags, "UP", 0x1) && Tells(flags, "BROADCAST", 0x2)
    ensures Tells(flags, "DEBUG", 0x4) && Tells(flags, "LOOPBACK", 0x8)
    ensures Tells(flags, "POINTOPOINT", 0x10) && Tells(flags, "NOTRAILERS", 0x20)
    ensures Tells(flags, "RUNNING", 0x40) && Tells(flags, "NOARP", 0x80)
    ensures Tells(flags, "PROMISC", 0x100) && Tells(flags, "ALLMULTI", 0x200)
    ensures Tells(flags, "MASTER", 0x400) && Tells(flags, "SLAVE", 0x800)
    ensures Tells(flags, "MULTICAST", 0x1000) && Tells(flags, "PORTSEL", 0x2000)
    ensures Tells(flags, "AUTOMEDIA", 0x4000) && Tells(flags, "DYNAMIC", 0x8000)
  {
    hide Tells;
    LoopbackTells(flags);
    NoArpTells(flags);
    SlaveTells(flags);
    DynamicTells(flags);
  }
}
