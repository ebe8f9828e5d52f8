/** The pieces of the regular expressions that parse_ifconfig.py is made of, on ASCII text.

    A piece takes the text still to be matched and yields what it captured with the text
    behind it.  A run of a character class takes as many characters as it can; where what
    follows the run cannot start with a character of the class this is all that Python's
    backtracking matcher does (MaximalMunch), and where it can, Backtrack models the matcher
    giving characters back.
 */
module Scanner {
  import opened Numerals
  import opened Wrappers

  datatype Class = Space | NonSpace | Digit | HexDigit | Word

  predicate In(cls: Class, c: char) {
    match cls
    case Space => IsSpace(c)
    case NonSpace => !IsSpace(c)
    case Digit => IsDigitOf(10, c)
    case HexDigit => IsDigitOf(16, c)
    case Word => IsDigit(c) || 'a' <= c <= 'z' || 'A' <= c <= 'Z' || c == '_'
  }

  predicate All(cls: Class, s: string) {
    forall i :: 0 <= i < |s| ==> In(cls, s[i])
  }

  /** `s` does not start with a character of the class. */
  predicate Leaves(cls: Class, s: string) {
    s != "" ==> !In(cls, s[0])
  }

  /** The length of the longest prefix of characters of the class. */
  function Span(cls: Class, s: string): (n: nat)
    ensures n <= |s| && All(cls, s[..n]) && Leaves(cls, s[n..])
  {
    if s == "" || !In(cls, s[0]) then 0 else 1 + Span(cls, s[1..])
  }

  /** A non-empty run. */
  function Run(cls: Class, s: string): Option<(string, string)> {
    var n := Span(cls, s);
    if n == 0 then None else Some((s[..n], s[n..]))
  }

  function Lit(text: string, s: string): Option<string> {
    if text <= s then Some(s[|text|..]) else None
  }

  /** \s+ */
  function Ws(s: string): Option<string> {
    var (_, rest) :- Run(Space, s);
    Some(rest)
  }

  /** ([0-9]+), as the integer it denotes */
  function Dec(s: string): Option<(nat, string)> {
    var (digits, rest) :- Run(Digit, s);
    Some((Value(10, digits), rest))
  }

  /** ([0-9a-f]+), as the integer it denotes in base 16 */
  function Hex(s: string): Option<(nat, string)> {
    var (digits, rest) :- Run(HexDigit, s);
    Some((Value(16, digits), rest))
  }

  /** Four decimal numbers with dots between them. */
  function Ip4(s: string): Option<(string, string)> {
    var (a, s1) :- Run(Digit, s);
    var s2 :- Lit(".", s1);
    var (b, s3) :- Run(Digit, s2);
    var s4 :- Lit(".", s3);
    var (c, s5) :- Run(Digit, s4);
    var s6 :- Lit(".", s5);
    var (d, s7) :- Run(Digit, s6);
    Some((Dotted(a, b, c, d), s7))
  }

  function Dotted(a: string, b: string, c: string, d: string): string {
    a + ("." + (b + ("." + (c + ("." + d)))))
  }

  /** The matcher at a repetition of up to `n` but at least `min` characters: it tries the
      longest first and gives one back whenever the rest of the pattern, `k`, fails. */
  function Backtrack<T>(s: string, n: nat, min: nat, k: string -> Option<T>)
    : Option<(string, T)>
    requires n <= |s|
  {
    if n < min then None
    else if k(s[n..]).Some? then Some((s[..n], k(s[n..]).value))
    else if n == 0 then None
    else Backtrack(s, n - 1, min, k)
  }

  /** (.*) followed by `k` */
  function Greedy<T>(s: string, k: string -> Option<T>): Option<(string, T)> {
    Backtrack(s, |s|, 0, k)
  }

  /** If what follows a run cannot start with a character of its class, the matcher's
      backtracking finds exactly what the longest run leaves, or nothing. */
  lemma {:induction false} MaximalMunch<T>(cls: Class, s: string, n: nat, k: string -> Option<T>)
    requires forall t: string :: t != "" && In(cls, t[0]) ==> k(t).None?
    requires n <= Span(cls, s)
    ensures Backtrack(s, n, 1, k)
         == if n == 0 || n < Span(cls, s) || k(s[n..]).None? then None
            else Some((s[..n], k(s[n..]).value))
  {
    if n > 0 {
      if n < Span(cls, s) { assert s[n..][0] == s[..Span(cls, s)][n]; }
      if k(s[n..]).None? { MaximalMunch(cls, s, n - 1, k); }
    }
  }

  /** A repetition stops at the last place from which the rest of the pattern matches. */
  lemma {:induction false} BacktrackFindsLast<T>(s: string, n: nat, min: nat, p: nat,
                                                 k: string -> Option<T>)
    requires min <= p <= n <= |s| && k(s[p..]).Some?
    requires forall q :: p < q <= n ==> k(s[q..]).None?
    ensures Backtrack(s, n, min, k) == Some((s[..p], k(s[p..]).value))
  {
    if p < n { BacktrackFindsLast(s, n - 1, min, p, k); }
  }

  /** ... and fails when there is no such place. */
  lemma {:induction false} BacktrackFails<T>(s: string, n: nat, min: nat, k: string -> Option<T>)
    requires n <= |s|
    requires forall q :: 0 <= q <= n ==> k(s[q..]).None?
    ensures Backtrack(s, n, min, k) == None
  {
    if n > 0 { BacktrackFails(s, n - 1, min, k); }
  }

  predicate Without(c: char, s: string) { forall i :: 0 <= i < |s| ==> s[i] != c }

  lemma WithoutBoth(c: char, s: string, t: string)
    requires Without(c, s) && Without(c, t)
    ensures Without(c, s + t)
  {
  }

  // ------------------------------------------------------------------ pieces on known text

  lemma {:induction false} SpanStep(cls: Class, x: string, rest: string)
    requires All(cls, x) && Leaves(cls, rest)
    ensures Span(cls, x + rest) == |x|
  {
    if x == "" {
      assert x + rest == rest;
    } else {
      assert (x + rest)[1..] == x[1..] + rest;
      SpanStep(cls, x[1..], rest);
    }
  }

  lemma RunStep(cls: Class, x: string, rest: string)
    requires x != "" && All(cls, x) && Leaves(cls, rest)
    ensures Run(cls, x + rest) == Some((x, rest))
  {
    SpanStep(cls, x, rest);
  }

  lemma RunMiss(cls: Class, s: string)
    requires Leaves(cls, s)
    ensures Run(cls, s) == None
  {
  }

  lemma LitStep(text: string, rest: string)
    ensures Lit(text, text + rest) == Some(rest)
  {
  }

  /** A literal fails where the text differs from it. */
  lemma LitMiss(text: string, s: string, i: nat)
    requires i < |text| && (i < |s| ==> s[i] != text[i])
    ensures Lit(text, s) == None
  {
  }

  lemma WsStep(spaces: string, rest: string)
    requires spaces != "" && All(Space, spaces) && Leaves(Space, rest)
    ensures Ws(spaces + rest) == Some(rest)
  {
    RunStep(Space, spaces, rest);
  }

  lemma DecStep(n: nat, rest: string)
    requires Leaves(Digit, rest)
    ensures Dec(Numeral(10, n) + rest) == Some((n, rest))
  {
    RunStep(Digit, Numeral(10, n), rest);
    ValueOfNumeral(10, n);
  }

  lemma HexStep(n: nat, rest: string)
    requires Leaves(HexDigit, rest)
    ensures Hex(Numeral(16, n) + rest) == Some((n, rest))
  {
    RunStep(HexDigit, Numeral(16, n), rest);
    ValueOfNumeral(16, n);
  }

  // ----------------------------------------------------------- pieces on a text with a tail

  lemma {:induction false} SpanAppend(cls: Class, s: string, tail: string)
    requires Span(cls, s) < |s| || Leaves(cls, tail)
    ensures Span(cls, s + tail) == Span(cls, s)
  {
    if s == "" {
      assert s + tail == tail;
    } else if In(cls, s[0]) {
      assert (s + tail)[1..] == s[1..] + tail;
      SpanAppend(cls, s[1..], tail);
    }
  }

  lemma RunAppend(cls: Class, s: string, tail: string)
    requires Span(cls, s) < |s| || Leaves(cls, tail)
    ensures Run(cls, s + tail)
         == match Run(cls, s)
            case None => None
            case Some((x, rest)) => Some((x, rest + tail))
  {
    var n := Span(cls, s);
    SpanAppend(cls, s, tail);
    assert (s + tail)[..n] == s[..n];
    assert (s + tail)[n..] == s[n..] + tail;
  }

  /** A literal does not reach over the end of `s` into a tail that differs from it there. */
  lemma LitAppend(text: string, s: string, tail: string, i: nat)
    requires |s| < |text| ==> i < |tail| && |s| + i < |text| && tail[i] != text[|s| + i]
    ensures Lit(text, s + tail)
         == match Lit(text, s) case None => None case Some(rest) => Some(rest + tail)
  {
    if |s| < |text| {
      LitMiss(text, s + tail, |s| + i);
    } else {
      assert (s + tail)[..|text|] == s[..|text|];
      assert (s + tail)[|text|..] == s[|text|..] + tail;
    }
  }

  /** Two continuations that succeed at the same places of two texts make the repetition
      succeed on both or on neither. */
  lemma {:induction false} BacktrackAlike<T>(s: string, t: string, n: nat, min: nat,
                                             k: string -> Option<T>)
    requires n <= |s| && n <= |t|
    requires forall q :: 0 <= q <= n ==> (k(s[q..]).Some? <==> k(t[q..]).Some?)
    ensures Backtrack(s, n, min, k).Some? <==> Backtrack(t, n, min, k).Some?
  {
    if n > 0 { BacktrackAlike(s, t, n - 1, min, k); }
  }

  /** The text of an address pattern: four runs of digits with dots between them. */
  ghost predicate IsIp4(x: string) {
    exists a, b, c, d :: IsDotted(x, a, b, c, d)
  }

  predicate IsDotted(x: string, a: string, b: string, c: string, d: string) {
    && x == Dotted(a, b, c, d)
    && a != "" && b != "" && c != "" && d != ""
    && All(Digit, a) && All(Digit, b) && All(Digit, c) && All(Digit, d)
  }

  lemma Ip4Step(x: string, rest: string)
    requires IsIp4(x) && Leaves(Digit, rest)
    ensures Ip4(x + rest) == Some((x, rest))
    ensures x != "" && In(Digit, x[0])
  {
    var a, b, c, d :| IsDotted(x, a, b, c, d);
    var s6 := d + rest;
    var s4 := c + ("." + s6);
    var s2 := b + ("." + s4);
    assert x + rest == a + ("." + s2);
    RunStep(Digit, a, "." + s2);
    LitStep(".", s2);
    RunStep(Digit, b, "." + s4);
    LitStep(".", s4);
    RunStep(Digit, c, "." + s6);
    LitStep(".", s6);
    RunStep(Digit, d, rest);
  }

  /** `rest` is what is left of `s` behind characters none of which is white space. */
  predicate Eats(s: string, rest: string) {
    |rest| <= |s| && rest == s[|s| - |rest|..] && All(NonSpace, s[..|s| - |rest|])
  }

  lemma EatsTrans(s: string, t: string, u: string)
    requires Eats(s, t) && Eats(t, u)
    ensures Eats(s, u)
  {
    var i, j := |s| - |t|, |t| - |u|;
    assert s[..i + j] == s[..i] + t[..j];
    assert s[i + j..] == t[j..];
  }

  lemma RunEats(s: string)
    ensures Run(Digit, s).Some? ==> Eats(s, Run(Digit, s).value.1)
  {
  }

  /** An address consumes no white space. */
  lemma Ip4Eats(s: string)
    ensures Ip4(s).Some? ==> Eats(s, Ip4(s).value.1)
  {
    hide Run, Eats, In;
    if Ip4(s).Some? {
      var s1 := Run(Digit, s).value.1;
      var s3 := Run(Digit, s1[1..]).value.1;
      var s5 := Run(Digit, s3[1..]).value.1;
      var s7 := Run(Digit, s5[1..]).value.1;
      RunEats(s);
      NumberEats(s, s1);
      NumberEats(s, s3);
      NumberEats(s, s5);
    }
  }

  /** A dot and a number. */
  lemma NumberEats(s: string, t: string)
    requires Eats(s, t) && "." <= t
    ensures Run(Digit, t[1..]).Some? ==> Eats(s, Run(Digit, t[1..]).value.1)
  {
    hide Run;
    if Run(Digit, t[1..]).Some? {
      RunEats(t[1..]);
      EatsTrans(t, t[1..], Run(Digit, t[1..]).value.1);
      EatsTrans(s, t, Run(Digit, t[1..]).value.1);
    }
  }

  // ----------------------------------------------------------------------- the classes

  /** The members of each class, listed. */
  lemma ClassMembers(c: char)
    ensures In(Digit, c) <==> c in "0123456789"
    ensures In(HexDigit, c) <==> c in "0123456789abcdef"
    ensures In(Space, c) <==> c in " \t\n\r\U{b}\U{c}\U{1c}\U{1d}\U{1e}\U{1f}"
    ensures In(NonSpace, c) <==> !In(Space, c)
  {
  }

  lemma WordMembers(c: char)
    ensures In(Word, c)
       <==> c in "0123456789" || c in "abcdefghijklmnopqrstuvwxyz" || c in "ABCDEFGHIJKLMNOPQRSTUVWXYZ"
            || c == '_'
  {
  }
}
