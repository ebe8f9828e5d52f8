/** Reading and printing numbers the way Python's int() and "%d"/"%x" do, on ASCII text. */
module Numerals {
  import opened Wrappers

  predicate IsDigit(c: char) { '0' <= c <= '9' }

  /** What str.strip(), int() and the class \s take for white space. */
  predicate IsSpace(c: char) {
    c == ' ' || '\t' <= c <= '\r' || '\U{1c}' <= c <= '\U{1f}'
  }

  /** A lower-case digit of the given base, 10 or 16. */
  predicate IsDigitOf(base: nat, c: char) {
    IsDigit(c) || (base == 16 && 'a' <= c <= 'f')
  }

  function DigitValue(c: char): (v: nat)
    requires IsDigitOf(16, c)
    ensures v < 16 && (IsDigit(c) ==> v < 10)
  {
    if IsDigit(c) then c as int - '0' as int else c as int - 'a' as int + 10
  }

  function DigitChar(v: nat): (c: char)
    requires v < 16
    ensures IsDigitOf(16, c) && DigitValue(c) == v && (v < 10 ==> IsDigit(c))
  {
    if v < 10 then ('0' as int + v) as char else ('a' as int + v - 10) as char
  }

  predicate AllDigits(base: nat, s: string) {
    forall i :: 0 <= i < |s| ==> IsDigitOf(base, s[i])
  }

  /** int(s) or int(s, 16) of a string of digits. */
  function Value(base: nat, s: string): nat
    requires base in {10, 16} && AllDigits(base, s)
  {
    if s == "" then 0 else base * Value(base, s[..|s| - 1]) + DigitValue(s[|s| - 1])
  }

  /** "%d" or "%x" of a natural number. */
  function Numeral(base: nat, n: nat): (s: string)
    requires base in {10, 16}
    ensures s != "" && AllDigits(base, s)
  {
    if n < base then [DigitChar(n)] else Numeral(base, n / base) + [DigitChar(n % base)]
  }

  /** "%d" */
  function N(n: nat): string { Numeral(10, n) }

  /** "%x" */
  function X(n: nat): string { Numeral(16, n) }

  /** `n` blanks. */
  function Pad(n: nat): (s: string)
    ensures |s| == n && forall i :: 0 <= i < n ==> s[i] == ' '
  {
    seq(n, i => ' ')
  }

  lemma {:induction false} ValueOfNumeral(base: nat, n: nat)
    requires base in {10, 16}
    ensures Value(base, Numeral(base, n)) == n
  {
    if n < base {
      assert Value(base, [DigitChar(n)][..0]) == 0;
    } else {
      var s := Numeral(base, n);
      assert s[..|s| - 1] == Numeral(base, n / base);
      ValueOfNumeral(base, n / base);
    }
  }

  // -------------------------------------------------------------------- int(string)

  function StripLeft(s: string): string {
    if s != "" && IsSpace(s[0]) then StripLeft(s[1..]) else s
  }

  function StripRight(s: string): string {
    if s != "" && IsSpace(s[|s| - 1]) then StripRight(s[..|s| - 1]) else s
  }

  function Strip(s: string): string { StripRight(StripLeft(s)) }

  lemma StripEnds(s: string)
    requires s != "" && !IsSpace(s[0]) && !IsSpace(s[|s| - 1])
    ensures Strip(s) == s && Strip(s + " ") == s
  {
    var t := s + " ";
    assert StripLeft(t) == t;
    assert t[..|t| - 1] == s;
    assert StripRight(s) == s;
  }

  /** Digits, with single underscores between them. */
  function Unsigned(s: string): Option<nat> {
    if s == "" || !IsDigit(s[|s| - 1]) then None
    else
      var n := |s| - 1;
      var d := DigitValue(s[n]);
      if n == 0 then Some(d)
      else
        var rest := Unsigned(if s[n - 1] == '_' then s[..n - 1] else s[..n]);
        if rest.None? then None else Some(10 * rest.value + d)
  }

  /** int(s): None where Python raises ValueError. */
  function PyInt(s: string): Option<int> {
    var t := Strip(s);
    if t == "" then None
    else
      var body := Unsigned(if t[0] in "+-" then t[1..] else t);
      if body.None? then None
      else
        var v: int := body.value;
        Some(if t[0] == '-' then -v else v)
  }

  lemma {:induction false} UnsignedValue(s: string)
    requires s != "" && AllDigits(10, s)
    ensures Unsigned(s) == Some(Value(10, s))
  {
    var n := |s| - 1;
    if n > 0 {
      UnsignedValue(s[..n]);
    } else {
      assert s[..0] == "";
    }
  }

  /** Digits need no stripping and may follow a minus sign. */
  lemma PyIntOfDigits(s: string, n: nat)
    requires s != "" && AllDigits(10, s) && Unsigned(s) == Some(n)
    ensures var m: int := n; PyInt(s) == Some(m) && PyInt("-" + s) == Some(-m)
  {
    var t := "-" + s;
    assert t[1..] == s && t[|s|] == s[|s| - 1];
    assert s[0] !in "+-";
    StripEnds(s);
    StripEnds(t);
    hide Strip, Unsigned, AllDigits;
  }

  /** int() reads back what "%d" prints. */
  lemma PyIntOfNumeral(n: nat)
    ensures PyInt(Numeral(10, n)) == Some(n)
    ensures var m: int := n; PyInt("-" + Numeral(10, n)) == Some(-m)
  {
    var s := Numeral(10, n);
    UnsignedValue(s);
    ValueOfNumeral(10, n);
    hide Unsigned, PyInt, Value, Numeral;
    PyIntOfDigits(s, n);
  }

  // ------------------------------------------------------------- what the digits mean

  /** The digits in order. */
  lemma DigitsInOrder(i: nat)
    requires i < 16
    ensures DigitChar(i) == "0123456789abcdef"[i] && DigitValue("0123456789abcdef"[i]) == i
  {
  }

  function Power(base: nat, n: nat): nat {
    if n == 0 then 1 else base * Power(base, n - 1)
  }

  /** The first digit weighs the base to the number of digits behind it. */
  lemma {:induction false} FirstDigit(base: nat, s: string)
    requires base in {10, 16} && s != "" && AllDigits(base, s)
    ensures Value(base, s) == DigitValue(s[0]) * Power(base, |s| - 1) + Value(base, s[1..])
  {
    var n := |s| - 1;
    if n == 0 {
      assert s[..0] == "" && s[1..] == "";
    } else {
      var t := s[1..];
      FirstDigit(base, s[..n]);
      assert t[..n - 1] == s[..n][1..] && t[n - 1] == s[n];
      Distribute(base, DigitValue(s[0]), Power(base, n - 1), Value(base, s[..n][1..]), DigitValue(s[n]));
    }
  }

  lemma Distribute(base: nat, d: nat, p: nat, rest: nat, last: nat)
    ensures base * (d * p + rest) + last == d * (base * p) + (base * rest + last)
  {
  }

  // ----------------------------------------------------------------- what int() accepts

  predicate Blank(s: string) { forall i :: 0 <= i < |s| ==> IsSpace(s[i]) }

  /** Digits with single underscores between them. */
  predicate Grouped(t: string) {
    && t != "" && IsDigit(t[0]) && IsDigit(t[|t| - 1])
    && (forall i :: 0 <= i < |t| ==> IsDigit(t[i]) || t[i] == '_')
    && (forall i :: 0 < i < |t| && t[i] == '_' ==> t[i - 1] != '_')
  }

  /** The same with at most one sign in front. */
  predicate Signed(t: string) {
    t != "" && Grouped(if t[0] in "+-" then t[1..] else t)
  }

  /** The digits alone. */
  function Bare(t: string): string {
    if t == "" then ""
    else Bare(t[..|t| - 1]) + if t[|t| - 1] == '_' then "" else [t[|t| - 1]]
  }

  /** The text without its last digit and an underscore before it. */
  function Shorter(t: string): string
    requires |t| > 1
  {
    if t[|t| - 2] == '_' then t[..|t| - 2] else t[..|t| - 1]
  }

  lemma {:induction false} GroupedShorter(t: string)
    requires |t| > 1 && IsDigit(t[|t| - 1])
    ensures Grouped(t) <==> Grouped(Shorter(t))
  {
    var u := Shorter(t);
    forall i | 0 <= i < |u| ensures u[i] == t[i] {}
    if Grouped(u) {
      forall i | 0 <= i < |t| ensures IsDigit(t[i]) || t[i] == '_' {
        if i < |u| { assert IsDigit(u[i]) || u[i] == '_'; }
      }
      forall i | 0 < i < |t| && t[i] == '_' ensures t[i - 1] != '_' {
        if i < |u| { assert u[i - 1] != '_'; } else { assert t[i - 1] == u[|u| - 1]; }
      }
    }
  }

  lemma {:induction false} BareSnoc(t: string, c: char)
    ensures Bare(t + [c]) == Bare(t) + if c == '_' then "" else [c]
  {
    assert (t + [c])[..|t|] == t;
  }

  lemma {:induction false} BareStep(t: string)
    requires |t| > 1 && IsDigit(t[|t| - 1])
    ensures Bare(t) == Bare(Shorter(t)) + [t[|t| - 1]]
  {
    hide Bare;
    var n := |t| - 1;
    LastOf(t, n + 1);
    LastOf(t, n);
    BareSnoc(t[..n], t[n]);
    BareSnoc(t[..n - 1], t[n - 1]);
  }

  lemma LastOf(t: string, n: nat)
    requires 0 < n <= |t|
    ensures t[..n] == t[..n - 1] + [t[n - 1]] && t[..|t|] == t
  {
  }

  lemma {:induction false} ValueStep(s: string, c: char)
    requires AllDigits(10, s) && IsDigit(c)
    ensures AllDigits(10, s + [c]) && Value(10, s + [c]) == 10 * Value(10, s) + DigitValue(c)
  {
    assert (s + [c])[..|s|] == s;
  }

  lemma {:induction false} UnsignedStep(t: string)
    requires |t| > 1 && IsDigit(t[|t| - 1])
    ensures Unsigned(t) == match Unsigned(Shorter(t))
                           case None => None
                           case Some(v) => Some(10 * v + DigitValue(t[|t| - 1]))
  {
  }

  lemma {:induction false} OneDigit(t: string)
    requires |t| <= 1 || !IsDigit(t[|t| - 1])
    ensures Unsigned(t).Some? <==> Grouped(t)
    ensures Grouped(t) ==> AllDigits(10, Bare(t)) && Unsigned(t) == Some(Value(10, Bare(t)))
  {
    if |t| == 1 && IsDigit(t[0]) {
      BareSnoc("", t[0]);
      assert "" + [t[0]] == t && t[..0] == "";
    }
  }

  lemma {:induction false} UnsignedIff(t: string)
    ensures Unsigned(t).Some? <==> Grouped(t)
    ensures Grouped(t) ==> AllDigits(10, Bare(t)) && Unsigned(t) == Some(Value(10, Bare(t)))
  {
    hide Bare, Value, Grouped, AllDigits, Unsigned;
    if |t| <= 1 || !IsDigit(t[|t| - 1]) {
      OneDigit(t);
    } else {
      GroupedShorter(t);
      UnsignedIff(Shorter(t));
      BareStep(t);
      UnsignedStep(t);
      if Grouped(Shorter(t)) { ValueStep(Bare(Shorter(t)), t[|t| - 1]); }
      hide Shorter;
    }
  }

  lemma {:induction false} StripLeftIs(before: string, t: string)
    requires Blank(before) && (t != "" ==> !IsSpace(t[0]))
    ensures StripLeft(before + t) == t
  {
    if before == "" {
      assert before + t == t;
    } else {
      assert (before + t)[1..] == before[1..] + t;
      StripLeftIs(before[1..], t);
    }
  }

  lemma {:induction false} StripRightIs(t: string, after: string)
    requires Blank(after) && (t != "" ==> !IsSpace(t[|t| - 1]))
    ensures StripRight(t + after) == t
  {
    if after == "" {
      assert t + after == t;
    } else {
      var n := |after| - 1;
      assert (t + after)[..|t| + n] == t + after[..n];
      StripRightIs(t, after[..n]);
    }
  }

  /** strip() takes the white space off both ends. */
  lemma StripIs(before: string, t: string, after: string)
    requires Blank(before) && Blank(after)
    requires t != "" ==> !IsSpace(t[0]) && !IsSpace(t[|t| - 1])
    ensures t != "" ==> Strip(before + (t + after)) == t
    ensures Strip(before) == ""
  {
    assert before + "" == before;
    StripLeftIs(before, "");
    if t != "" {
      StripLeftIs(before, t + after);
      StripRightIs(t, after);
    }
  }

  lemma {:induction false} StripLeftFinds(s: string) returns (before: string)
    ensures Blank(before) && s == before + StripLeft(s)
    ensures StripLeft(s) != "" ==> !IsSpace(StripLeft(s)[0])
  {
    before := "";
    if s != "" && IsSpace(s[0]) {
      var rest := StripLeftFinds(s[1..]);
      before := [s[0]] + rest;
    }
  }

  lemma {:induction false} StripRightFinds(s: string) returns (after: string)
    ensures Blank(after) && s == StripRight(s) + after
  {
    after := "";
    if s != "" && IsSpace(s[|s| - 1]) {
      var rest := StripRightFinds(s[..|s| - 1]);
      after := rest + [s[|s| - 1]];
    }
  }

  lemma {:induction false} SignedEnds(t: string)
    requires Signed(t)
    ensures t != "" && !IsSpace(t[0]) && !IsSpace(t[|t| - 1])
  {
    var body := if t[0] in "+-" then t[1..] else t;
    assert t[|t| - 1] == body[|body| - 1];
  }

  /** int() on white space, an optional sign, grouped digits, white space. */
  lemma PyIntReads(before: string, t: string, after: string)
    requires Blank(before) && Blank(after) && Signed(t)
    ensures var body := if t[0] in "+-" then t[1..] else t;
            && AllDigits(10, Bare(body))
            && var v: int := Value(10, Bare(body));
               PyInt(before + (t + after)) == Some(if t[0] == '-' then -v else v)
  {
    hide Strip, Unsigned, Value;
    SignedEnds(t);
    StripIs(before, t, after);
    UnsignedIff(if t[0] in "+-" then t[1..] else t);
  }

  /** Nothing else is accepted. */
  lemma PyIntAccepts(s: string) returns (before: string, t: string, after: string)
    requires PyInt(s).Some?
    ensures s == before + (t + after) && Blank(before) && Blank(after) && Signed(t)
  {
    hide Unsigned;
    before := StripLeftFinds(s);
    after := StripRightFinds(StripLeft(s));
    t := Strip(s);
    UnsignedIff(if t[0] in "+-" then t[1..] else t);
  }
}
