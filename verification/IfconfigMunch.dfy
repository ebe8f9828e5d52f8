/** Patterns written out with a matcher that backtracks at every repetition, and the proof
    that the patterns of the parser, which only ever take the longest run, find the same. */
module IfconfigMunch {
  import opened IfconfigPatterns
  import opened Numerals
  import opened Scanner
  import opened Wrappers

  /** A repetition of at least one character of the class with `k` behind it, giving
      characters back whenever `k` fails. */
  function RunThen<T>(cls: Class, s: string, k: string -> Option<T>): Option<(string, T)> {
    Backtrack(s, Span(cls, s), 1, k)
  }

  /** Giving characters back never helps if `k` cannot start with one of them. */
  lemma RunMunch<T>(cls: Class, s: string, k: string -> Option<T>)
    requires forall t: string :: t != "" && In(cls, t[0]) ==> k(t).None?
    ensures RunThen(cls, s, k)
         == match Run(cls, s)
            case None => None
            case Some((x, rest)) => match k(rest) case None => None case Some(v) => Some((x, v))
  {
    MaximalMunch(cls, s, Span(cls, s), k);
  }

  // ---------------------------------------------------------------------- header lines

  function AfterName(s: string): Option<string> {
    var rest :- Lit(": ", s);
    NonEmpty(rest)
  }

  /** (\w+): (.+) */
  lemma NewHeaderMunch(line: string)
    ensures MatchNewHeader(line) == RunThen(Word, line, AfterName)
  {
    forall t: string | t != "" && In(Word, t[0]) ensures AfterName(t).None? {
      LitMiss(": ", t, 0);
    }
    RunMunch(Word, line, AfterName);
    hide Run, RunThen;
  }

  function AfterOldName(s: string): Option<string> {
    var (_, rest) :- Backtrack(s, Span(Space, s), 1, NonEmpty);
    Some(rest)
  }

  /** (\w+)\s+(.+) */
  lemma OldHeaderMunch(line: string)
    ensures MatchOldHeader(line) == RunThen(Word, line, AfterOldName)
  {
    RunMunch(Word, line, AfterOldName);
    hide Run, RunThen, Backtrack, Span;
  }

  // ------------------------------------------------------------------------ counter lines

  /** ([0-9]+) with `k` behind it */
  function NumberThen<T>(s: string, k: string -> Option<T>): Option<(nat, T)> {
    match RunThen(Digit, s, k)
    case None => None
    case Some((digits, v)) =>
      if AllDigits(10, digits) then Some((Value(10, digits), v)) else None
  }

  function WordThen<T>(prefix: string, s: string, k: string -> Option<T>): Option<(nat, T)> {
    var rest :- Lit(prefix, s);
    NumberThen(rest, k)
  }

  /** \s+<prefix>([0-9]+) with `k` behind it */
  function CounterThen<T>(prefix: string, k: string -> Option<T>, s: string): Option<(nat, T)> {
    match RunThen(Space, s, t => WordThen(prefix, t, k))
    case None => None
    case Some((_, v)) => Some(v)
  }

  /** One counter and what follows it: the longest runs are the only ones that matter. */
  lemma CounterMunch<T>(prefix: string, k: string -> Option<T>, s: string)
    requires prefix != "" && !In(Space, prefix[0])
    requires forall t: string :: t != "" && In(Digit, t[0]) ==> k(t).None?
    ensures CounterThen(prefix, k, s)
         == match Counter(prefix, s)
            case None => None
            case Some((n, rest)) => match k(rest) case None => None case Some(v) => Some((n, v))
  {
    var w := t => WordThen(prefix, t, k);
    forall t: string | t != "" && In(Space, t[0]) ensures w(t).None? { LitMiss(prefix, t, 0); }
    RunMunch(Space, s, w);
    if Ws(s).Some? && Lit(prefix, Ws(s).value).Some? {
      NumberMunch(Lit(prefix, Ws(s).value).value, k);
    }
    hide Run, RunThen, NumberThen, Lit;
  }

  lemma NumberMunch<T>(s: string, k: string -> Option<T>)
    requires forall t: string :: t != "" && In(Digit, t[0]) ==> k(t).None?
    ensures NumberThen(s, k)
         == match Dec(s)
            case None => None
            case Some((n, rest)) => match k(rest) case None => None case Some(v) => Some((n, v))
  {
    RunMunch(Digit, s, k);
    assert Run(Digit, s).Some? ==> AllDigits(10, Run(Digit, s).value.0);
    hide RunThen;
  }

  /** A number at the very end of a pattern is the longest run at once. */
  function Anything(s: string): Option<string> { Some(s) }

  lemma LastCounterMunch(prefix: string, s: string)
    requires prefix != "" && !In(Space, prefix[0])
    ensures CounterThen(prefix, Anything, s) == Counter(prefix, s)
  {
    var w := t => WordThen(prefix, t, Anything);
    forall t: string | t != "" && In(Space, t[0]) ensures w(t).None? { LitMiss(prefix, t, 0); }
    RunMunch(Space, s, w);
    if Ws(s).Some? && Lit(prefix, Ws(s).value).Some? {
      LastNumber(Lit(prefix, Ws(s).value).value);
    }
    hide Run, RunThen, NumberThen, Lit;
  }

  lemma LastNumber(s: string)
    ensures NumberThen(s, Anything) == Dec(s)
  {
    assert Run(Digit, s).Some? ==> AllDigits(10, Run(Digit, s).value.0);
  }

  /** A counter never starts with a digit. */
  lemma CounterStartsBlank<T>(prefix: string, k: string -> Option<T>)
    ensures forall t: string :: t != "" && In(Digit, t[0]) ==> CounterThen(prefix, k, t).None?
  {
  }

  function FromFrame(s: string): Option<(nat, string)> { CounterThen("frame ", Anything, s) }

  function FromOverruns(s: string): Option<(nat, (nat, string))> {
    CounterThen("overruns ", FromFrame, s)
  }

  function FromDropped(s: string): Option<(nat, (nat, (nat, string)))> {
    CounterThen("dropped ", FromOverruns, s)
  }

  /** \s+RX errors ([0-9]+)\s+dropped ([0-9]+)\s+overruns ([0-9]+)\s+frame ([0-9]+), with every
      repetition allowed to give characters back. */
  function FullRxErrors(line: string): Option<(nat, nat, nat, nat)> {
    var (errors, r1) :- CounterThen("RX errors ", FromDropped, line);
    Some((errors, r1.0, r1.1.0, r1.1.1.0))
  }

  /** The parser's reading of an RX errors line is what the full matcher finds. */
  lemma RxErrorsMunch(line: string)
    ensures MatchRxErrors(line) == FullRxErrors(line)
  {
    hide Counter, CounterThen;
    CounterStartsBlank("frame ", Anything);
    CounterStartsBlank("overruns ", FromFrame);
    CounterStartsBlank("dropped ", FromOverruns);
    CounterMunch("RX errors ", FromDropped, line);
    if Counter("RX errors ", line).Some? {
      var s1 := Counter("RX errors ", line).value.1;
      CounterMunch("dropped ", FromOverruns, s1);
      if Counter("dropped ", s1).Some? {
        var s2 := Counter("dropped ", s1).value.1;
        CounterMunch("overruns ", FromFrame, s2);
        if Counter("overruns ", s2).Some? {
          LastCounterMunch("frame ", Counter("overruns ", s2).value.1);
        }
      }
    }
  }
}
