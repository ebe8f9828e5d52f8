/** Which runs with a failed connect leak the socket they opened. */
module NetlinkLeaks {
  import opened NetlinkSafety
  import opened NetlinkSession
  import opened Words

  predicate Deallocates(s: State, step: Step) { step.Dealloc? && step.id in s.objs }

  predicate Tags(s: State, step: Step) {
    (step.QueryLink? || step.QueryAddress?) && step.id in s.objs && s.objs[step.id].active == 0
  }

  /** How a step moves the counter of an existing connection. */
  function Move(s: State, step: Step): int {
    if Tags(s, step) then 1 else if Deallocates(s, step) then -1 else 0
  }

  /** Objects newly tagged minus objects deallocated in the steps from `i` up to `j`. */
  function Balance(s: State, run: seq<Step>, i: nat, j: nat): int
    requires i <= j <= |run|
  {
    if i == j then 0 else Balance(s, run, i, j - 1) + Move(At(s, run, j - 1), run[j - 1])
  }

  /** The socket that is open after `i` steps has not been closed by step `n`. */
  predicate StillOpen(s: State, run: seq<Step>, i: nat, n: nat)
    requires i <= n <= |run|
  {
    At(s, run, i).net.connected && At(s, run, n).net.log == At(s, run, i).net.log
  }

  lemma ConnectedStep(s: State, step: Step)
    requires s.net.connected
    ensures var n := Apply(s, step).net;
            && n.users == (s.net.users + Move(s, step)) % WORD
            && (n.connected <==> !(Deallocates(s, step) && n.users == 0))
            && n.log == if n.connected then s.net.log else s.net.log + [Closed]
  {
    if (step.QueryLink? || step.QueryAddress?) && step.id in s.objs { QueryOpens(s, step); }
  }

  lemma LogGrows(s: State, step: Step)
    ensures |Apply(s, step).net.log| >= |s.net.log|
  {
  }

  /** Without a connection the counter is zero, in every run whatsoever. */
  lemma {:induction false} IdleCounterIsZero(kernel: Kernel, run: seq<Step>, i: nat)
    requires i <= |run|
    ensures var n := At(Initial(kernel), run, i).net; !n.connected ==> n.users == 0
  {
    if i > 0 {
      IdleCounterIsZero(kernel, run, i - 1);
      IdleStep(At(Initial(kernel), run, i - 1), run[i - 1]);
    }
  }

  lemma IdleStep(s: State, step: Step)
    requires !s.net.connected ==> s.net.users == 0
    ensures var n := Apply(s, step).net; !n.connected ==> n.users == 0
  {
  }

  lemma FailureStarts(s: State, step: Step)
    requires ConnectFails(s, step) && s.net.users == 0
    ensures Apply(s, step).net.connected && Apply(s, step).net.users == 0
  {
    QueryOpens(s, step);
  }

  /** A query of an untagged object before any deallocation repairs the session. */
  lemma TaggingRepairs(s: State, step: Step)
    requires s.net.connected && s.net.users == 0 && Tags(s, step)
    ensures !Safe(s) && Safe(Apply(s, step))
  {
    QueryOpens(s, step);
    assert step.id in ActiveIds(Apply(s, step).objs);
    SubsetSize({step.id}, ActiveIds(Apply(s, step).objs));
  }

  /** The counter of one connection: what it started with, and the balance since. */
  lemma {:induction false} OpenPeriod(s: State, run: seq<Step>, i: nat, n: nat)
    requires i <= n <= |run| && At(s, run, i).net.connected
    ensures StillOpen(s, run, i, n) ==>
      && At(s, run, n).net.connected
      && At(s, run, n).net.users == (At(s, run, i).net.users + Balance(s, run, i, n)) % WORD
    ensures |At(s, run, n).net.log| >= |At(s, run, i).net.log|
    decreases n
  {
    hide Apply, Move;
    if i < n {
      var before, step := At(s, run, n - 1), run[n - 1];
      OpenPeriod(s, run, i, n - 1);
      LogGrows(before, step);
      OpenBefore(s, run, i, n);
      if StillOpen(s, run, i, n) { ConnectedStep(before, step); }
    }
  }

  lemma {:induction false} OpenBefore(s: State, run: seq<Step>, i: nat, n: nat)
    requires i < n <= |run| && At(s, run, i).net.connected
    ensures StillOpen(s, run, i, n) ==> StillOpen(s, run, i, n - 1)
    ensures |At(s, run, n - 1).net.log| >= |At(s, run, i).net.log|
    decreases n
  {
    hide Apply;
    LogGrows(At(s, run, n - 1), run[n - 1]);
    if i < n - 1 {
      OpenBefore(s, run, i, n - 1);
      LogGrows(At(s, run, n - 2), run[n - 2]);
      LogIsPrefix(s, run, i, n - 1);
    }
    if i < n { LogIsPrefix(s, run, i, n - 1); }
    StepPrefix(At(s, run, n - 1), run[n - 1]);
  }

  lemma StepPrefix(s: State, step: Step)
    ensures s.net.log <= Apply(s, step).net.log
  {
  }

  lemma {:induction false} LogIsPrefix(s: State, run: seq<Step>, i: nat, n: nat)
    requires i <= n <= |run|
    ensures At(s, run, i).net.log <= At(s, run, n).net.log
    decreases n
  {
    hide Apply;
    if i < n {
      LogIsPrefix(s, run, i, n - 1);
      StepPrefix(At(s, run, n - 1), run[n - 1]);
    }
  }

  /** A deallocation brings the balance to a multiple of 2^32. */
  ghost predicate ReleasedBetween(s: State, run: seq<Step>, i: nat, n: nat)
    requires i <= n <= |run|
  {
    exists j :: i <= j < n && Deallocates(At(s, run, j), run[j]) && Balance(s, run, i, j + 1) % WORD == 0
  }

  /** The socket of a failed connect stays open exactly as long as no deallocation brings the
      balance of newly tagged and deallocated objects since then to a multiple of 2^32. */
  lemma {:induction false} FailedConnectLeaksIff(kernel: Kernel, run: seq<Step>, i: nat, n: nat)
    requires i < n <= |run| && ConnectFails(At(Initial(kernel), run, i), run[i])
    ensures StillOpen(Initial(kernel), run, i + 1, n)
       <==> !ReleasedBetween(Initial(kernel), run, i + 1, n)
    decreases n
  {
    hide Apply, Move, Balance;
    var s0 := Initial(kernel);
    IdleCounterIsZero(kernel, run, i);
    FailureStarts(At(s0, run, i), run[i]);
    AtNext(s0, run, i);
    if i + 1 < n {
      FailedConnectLeaksIff(kernel, run, i, n - 1);
      AtNext(s0, run, n - 1);
      OpenBefore(s0, run, i + 1, n);
      OneMoreStep(s0, run, i + 1, n);
      if StillOpen(s0, run, i + 1, n - 1) { OpenOneMore(s0, run, i + 1, n); }
    }
  }

  lemma OneMoreStep(s: State, run: seq<Step>, i: nat, n: nat)
    requires i < n <= |run|
    ensures ReleasedBetween(s, run, i, n)
       <==> (|| ReleasedBetween(s, run, i, n - 1)
             || (Deallocates(At(s, run, n - 1), run[n - 1]) && Balance(s, run, i, n) % WORD == 0))
  {
    hide At, Balance, Deallocates;
  }

  lemma OpenOneMore(s: State, run: seq<Step>, i: nat, n: nat)
    requires i < n <= |run| && At(s, run, i).net.users == 0 && StillOpen(s, run, i, n - 1)
    ensures StillOpen(s, run, i, n)
       <==> !(Deallocates(At(s, run, n - 1), run[n - 1]) && Balance(s, run, i, n) % WORD == 0)
  {
    hide Apply, Move;
    var before, step := At(s, run, n - 1), run[n - 1];
    OpenPeriod(s, run, i, n - 1);
    ConnectedStep(before, step);
    AtNext(s, run, n - 1);
    ModAdds(Balance(s, run, i, n - 1), Move(before, step));
  }

  lemma ModAdds(a: int, b: int)
    ensures (a % WORD + b) % WORD == (a + b) % WORD
  {
  }

  // ---------------------------------------------------- runs of fewer than 2^32 steps

  lemma MoveCounts(s: State, step: Step)
    requires s.net.connected
    ensures |ActiveIds(Apply(s, step).objs)| >= |ActiveIds(s.objs)| + Move(s, step)
  {
    match step
    case Create(id, device, garbage) => UpdateActive(s.objs, id, Apply(s, step).objs[id]);
    case Dealloc(id) => RemoveActive(s.objs, id);
    case KernelChange(_) =>
    case _ =>
      if step.id in s.objs {
        QueryOpens(s, step);
        UpdateActive(s.objs, step.id, Apply(s, step).objs[step.id]);
      }
  }

  /** While the connection lasts, whoever is counted and alive is tagged. */
  lemma {:induction false} BalanceIsBounded(s: State, run: seq<Step>, i: nat, n: nat)
    requires i <= n <= |run| && StillOpen(s, run, i, n)
    ensures Balance(s, run, i, n) <= |ActiveIds(At(s, run, n).objs)|
    decreases n
  {
    hide Apply, Move;
    if i < n {
      OpenBefore(s, run, i, n);
      BalanceIsBounded(s, run, i, n - 1);
      OpenPeriod(s, run, i, n - 1);
      MoveCounts(At(s, run, n - 1), run[n - 1]);
    }
  }

  lemma {:induction false} BalanceIsSlow(s: State, run: seq<Step>, i: nat, n: nat)
    requires i <= n <= |run|
    ensures i - n <= Balance(s, run, i, n) <= n - i
    decreases n
  {
    hide At;
    if i < n { BalanceIsSlow(s, run, i, n - 1); }
  }

  /** A balance that was positive and is so no longer went from 1 to 0, by a deallocation. */
  lemma {:induction false} FallsToZero(s: State, run: seq<Step>, i: nat, m: nat, n: nat)
    requires i <= m <= n <= |run|
    requires Balance(s, run, i, m) > 0 && Balance(s, run, i, n) <= 0
    ensures ReleasedBetween(s, run, i, n)
    decreases n
  {
    hide At;
    if Balance(s, run, i, n - 1) > 0 {
      assert Balance(s, run, i, n - 1 + 1) == 0;
      assert Deallocates(At(s, run, n - 1), run[n - 1]);
    } else {
      FallsToZero(s, run, i, m, n - 1);
      OneMoreStep(s, run, i, n);
    }
  }

  /** At no moment between `i` and `n` had more objects been newly tagged than deallocated. */
  ghost predicate NeverPositive(s: State, run: seq<Step>, i: nat, n: nat)
    requires i <= n <= |run|
  {
    forall m :: i <= m <= n ==> Balance(s, run, i, m) <= 0
  }

  lemma ReleaseNeedsUsers(s: State, run: seq<Step>, i: nat, n: nat)
    requires i <= n <= |run| && n - i < WORD && ReleasedBetween(s, run, i, n)
    ensures !NeverPositive(s, run, i, n)
  {
    hide At, Deallocates, Balance;
    var j :| i <= j < n && Deallocates(At(s, run, j), run[j])
          && Balance(s, run, i, j + 1) % WORD == 0;
    BalanceIsSlow(s, run, i, j);
    LastMove(s, run, i, j);
    if Balance(s, run, i, j) <= 0 { NotMultiple(Balance(s, run, i, j + 1)); }
  }

  lemma NotMultiple(x: int)
    requires -WORD < x < 0
    ensures x % WORD != 0
  {
  }

  /** In runs of at most 2^32 steps after the failure, and once every object is gone, the
      socket has leaked exactly if at no moment since the failure more objects had been newly
      tagged than deallocated. */
  lemma LeakedForGoodIff(kernel: Kernel, run: seq<Step>, i: nat, n: nat)
    requires i < n <= |run| && ConnectFails(At(Initial(kernel), run, i), run[i])
    requires n - i <= WORD && At(Initial(kernel), run, n).objs == map[]
    ensures StillOpen(Initial(kernel), run, i + 1, n)
       <==> NeverPositive(Initial(kernel), run, i + 1, n)
  {
    hide Apply, Move, Balance, StillOpen, ReleasedBetween, At;
    var s0, p := Initial(kernel), i + 1;
    FailedConnectLeaksIff(kernel, run, i, n);
    if StillOpen(s0, run, p, n) {
      BalanceIsBounded(s0, run, p, n);
      assert ActiveIds(map[]) == {};
      forall m | p <= m <= n ensures Balance(s0, run, p, m) <= 0 {
        if Balance(s0, run, p, m) > 0 { FallsToZero(s0, run, p, m, n); }
      }
    } else {
      ReleaseNeedsUsers(s0, run, p, n);
    }
  }

  lemma LastMove(s: State, run: seq<Step>, i: nat, j: nat)
    requires i <= j < |run| && Deallocates(At(s, run, j), run[j])
    ensures Balance(s, run, i, j + 1) == Balance(s, run, i, j) - 1
  {
    hide At;
  }
}
