/** What every run of the shared session keeps, and exactly when. */
module NetlinkSafety {
  import opened Words
  import opened Wrappers
  import opened NetlinkSession

  // ----------------------------------------------------------------------- the invariants

  /** The connection exists exactly when the counter is positive. */
  predicate Agrees(n: Net) {
    n.connected <==> n.users > 0
  }

  /** Sockets are opened and closed strictly in turn, starting with an opening, and one is
      open exactly when an opening is still unanswered. */
  ghost predicate Alternates(n: Net) {
    && (forall i :: 0 <= i < |n.log| ==> n.log[i] == if i % 2 == 0 then Opened else Closed)
    && (n.connected <==> |n.log| % 2 == 1)
  }

  /** What a run without a failed connect keeps: not `users == active` but an upper bound. */
  ghost predicate Safe(s: State) {
    && Agrees(s.net)
    && s.net.users <= |ActiveIds(s.objs)|
  }

  ghost predicate Exact(s: State) {
    s.net.users == |ActiveIds(s.objs)|
  }

  // --------------------------------------------------------------------------- one step

  lemma UpdateActive(objs: map<nat, Obj>, id: nat, o: Obj)
    ensures |ActiveIds(objs[id := o])|
         == |ActiveIds(objs)| - (if id in ActiveIds(objs) then 1 else 0)
                              + (if o.active != 0 then 1 else 0)
  {
    UpdateActiveIds(objs, id, o);
    hide ActiveIds;
    var before := ActiveIds(objs) - {id};
  }

  lemma UpdateActiveIds(objs: map<nat, Obj>, id: nat, o: Obj)
    ensures ActiveIds(objs[id := o])
         == ActiveIds(objs) - {id} + if o.active != 0 then {id} else {}
  {
  }

  lemma RemoveActive(objs: map<nat, Obj>, id: nat)
    ensures |ActiveIds(objs - {id})|
         == |ActiveIds(objs)| - (if id in ActiveIds(objs) then 1 else 0)
  {
    assert ActiveIds(objs - {id}) == ActiveIds(objs) - {id};
  }

  lemma ActiveAreLive(objs: map<nat, Obj>)
    ensures ActiveIds(objs) <= objs.Keys
    ensures |ActiveIds(objs)| <= |objs|
  {
    SubsetSize(ActiveIds(objs), objs.Keys);
  }

  lemma SubsetSize(a: set<nat>, b: set<nat>)
    requires a <= b
    ensures |a| <= |b|
  {
    assert b == a + (b - a);
  }

  /** To the session a query of either kind is one call of open_netlink. */
  lemma QueryOpens(s: State, step: Step)
    requires (step.QueryLink? || step.QueryAddress?) && step.id in s.objs
    ensures var (n, active, _) := Open(s.net, s.objs[step.id].active, step.env);
            && Apply(s, step).net == n
            && step.id in Apply(s, step).objs
            && Apply(s, step).objs == s.objs[step.id := Apply(s, step).objs[step.id]]
            && Apply(s, step).objs[step.id].active == active
  {
  }

  /** An untagged live object leaves room for one more user. */
  lemma RoomForUser(s: State, id: nat)
    requires Safe(s) && |s.objs| < WORD && id in s.objs && s.objs[id].active == 0
    ensures s.net.users + 1 < WORD
  {
    SubsetSize(ActiveIds(s.objs) + {id}, s.objs.Keys);
  }

  lemma QueryUpdates(s: State, step: Step)
    requires Safe(s) && |s.objs| < WORD && !ConnectFails(s, step)
    requires (step.QueryLink? || step.QueryAddress?) && step.id in s.objs
    ensures Safe(Apply(s, step))
    ensures Exact(s) ==> Exact(Apply(s, step))
    ensures s.net.users <= Apply(s, step).net.users <= s.net.users + 1
  {
    QueryOpens(s, step);
    UpdateActive(s.objs, step.id, Apply(s, step).objs[step.id]);
    if s.objs[step.id].active == 0 { RoomForUser(s, step.id); }
    if s.net.users == 0 && Exact(s) { assert ActiveIds(s.objs) == {}; }
  }

  lemma StepIsSafe(s: State, step: Step)
    requires Safe(s) && |s.objs| < WORD && !ConnectFails(s, step)
    ensures Safe(Apply(s, step))
  {
    ActiveAreLive(s.objs);
    match step
    case Create(id, device, garbage) =>
      UpdateActive(s.objs, id, Obj(device, -1, None, garbage));
    case QueryLink(id, _) =>
      if id in s.objs { QueryUpdates(s, step); }
    case QueryAddress(id, _, _) =>
      if id in s.objs { QueryUpdates(s, step); }
    case Dealloc(id) =>
      RemoveActive(s.objs, id);
    case KernelChange(_) =>
  }

  lemma FailedConnectDisagrees(s: State, step: Step)
    requires Agrees(s.net) && ConnectFails(s, step)
    ensures !Agrees(Apply(s, step).net)
  {
    QueryOpens(s, step);
  }

  lemma StepCounts(s: State, step: Step)
    requires Safe(s) && |s.objs| < WORD && !ConnectFails(s, step)
    ensures var users, users' := s.net.users, Apply(s, step).net.users;
            && -1 <= users' - users <= 1
            && (step.Dealloc? ==> users' <= users)
            && (users' < users ==> step.Dealloc?)
  {
    if (step.QueryLink? || step.QueryAddress?) && step.id in s.objs { QueryUpdates(s, step); }
  }

  lemma DeallocCloses(s: State, step: Step)
    requires Safe(s) && Exact(s) && |s.objs| < WORD && step.Dealloc? && !Undisciplined(s, step)
    ensures s.net.connected && !Apply(s, step).net.connected
       <==> ActiveIds(s.objs) == {step.id}
  {
    var a := ActiveIds(s.objs);
    ActiveAreLive(s.objs);
    if a == {step.id} {
      assert step.id in a && |a| == 1;
    } else if s.net.connected && step.id in s.objs {
      assert a == {step.id} + (a - {step.id});
    }
  }

  lemma AtNext(s: State, run: seq<Step>, i: nat)
    requires i < |run|
    ensures At(s, run, i + 1) == Apply(At(s, run, i), run[i])
  {
  }

  lemma StepAlternates(s: State, step: Step)
    requires Alternates(s.net)
    ensures Alternates(Apply(s, step).net)
  {
  }

  // --------------------------------------------------------------------------- all runs

  /** Socket openings and closings alternate in every run whatsoever, failed connects and
      counter overflow included: no double close, no socket overwritten by another. */
  lemma {:induction false} SocketsAlternate(kernel: Kernel, run: seq<Step>, i: nat)
    requires i <= |run|
    ensures Alternates(At(Initial(kernel), run, i).net)
  {
    if i > 0 {
      SocketsAlternate(kernel, run, i - 1);
      StepAlternates(At(Initial(kernel), run, i - 1), run[i - 1]);
    }
  }

  function Occurrences(log: seq<SocketEvent>, e: SocketEvent): nat {
    if log == [] then 0
    else Occurrences(log[..|log| - 1], e) + if log[|log| - 1] == e then 1 else 0
  }

  lemma {:induction false} AlternationBalance(log: seq<SocketEvent>)
    requires forall i :: 0 <= i < |log| ==> log[i] == if i % 2 == 0 then Opened else Closed
    ensures Occurrences(log, Opened) - Occurrences(log, Closed) == |log| % 2
  {
    if log != [] { AlternationBalance(log[..|log| - 1]); }
  }

  /** Openings minus closings is 0 or 1 throughout every run: it is 1 exactly while the
      connection exists. */
  lemma {:induction false} OpeningsMinusClosings(kernel: Kernel, run: seq<Step>, i: nat)
    requires i <= |run|
    ensures var n := At(Initial(kernel), run, i).net;
            Occurrences(n.log, Opened) - Occurrences(n.log, Closed)
            == if n.connected then 1 else 0
  {
    SocketsAlternate(kernel, run, i);
    AlternationBalance(At(Initial(kernel), run, i).net.log);
  }

  lemma {:induction false} RunIsSafe(kernel: Kernel, run: seq<Step>, i: nat)
    requires i <= |run|
    requires forall j :: 0 <= j < i ==> |At(Initial(kernel), run, j).objs| < WORD
    requires forall j :: 0 <= j < i ==> !ConnectFails(At(Initial(kernel), run, j), run[j])
    ensures Safe(At(Initial(kernel), run, i))
  {
    hide Apply;
    if i > 0 {
      RunIsSafe(kernel, run, i - 1);
      StepIsSafe(At(Initial(kernel), run, i - 1), run[i - 1]);
    } else {
      assert ActiveIds(Initial(kernel).objs) == {};
    }
  }

  /** Connection and counter agree in every visited state if and only if no connect fails. */
  lemma ConnectionAgreesIff(kernel: Kernel, run: seq<Step>)
    requires Bounded(Initial(kernel), run)
    ensures (forall i :: 0 <= i <= |run| ==> Agrees(At(Initial(kernel), run, i).net))
       <==> NoConnectFails(Initial(kernel), run)
  {
    var s0 := Initial(kernel);
    if NoConnectFails(s0, run) {
      forall i | 0 <= i <= |run| ensures Agrees(At(s0, run, i).net) { RunIsSafe(kernel, run, i); }
    } else {
      var i :| 0 <= i < |run| && ConnectFails(At(s0, run, i), run[i]);
      AtNext(s0, run, i);
      if Agrees(At(s0, run, i).net) { FailedConnectDisagrees(At(s0, run, i), run[i]); }
    }
  }

  /** Neither the increment nor the decrement of the counter ever wraps. */
  lemma CounterNeverWraps(kernel: Kernel, run: seq<Step>, i: nat)
    requires Bounded(Initial(kernel), run) && NoConnectFails(Initial(kernel), run)
    requires i < |run|
    ensures var users := At(Initial(kernel), run, i).net.users;
            var users' := At(Initial(kernel), run, i + 1).net.users;
            && -1 <= users' - users <= 1
            && (run[i].Dealloc? ==> users' <= users)
            && (users' < users ==> run[i].Dealloc?)
  {
    RunIsSafe(kernel, run, i);
    StepCounts(At(Initial(kernel), run, i), run[i]);
    AtNext(Initial(kernel), run, i);
  }

  /** Leak freedom: once the last object is gone, whatever the run and whatever the
      initial tags, the counter is 0, the connection is closed and every socket that was
      opened has been closed. */
  lemma NoLeak(kernel: Kernel, run: seq<Step>, i: nat)
    requires Bounded(Initial(kernel), run) && NoConnectFails(Initial(kernel), run)
    requires i <= |run| && At(Initial(kernel), run, i).objs == map[]
    ensures var n := At(Initial(kernel), run, i).net;
            && !n.connected && n.users == 0
            && Occurrences(n.log, Opened) == Occurrences(n.log, Closed)
  {
    RunIsSafe(kernel, run, i);
    OpeningsMinusClosings(kernel, run, i);
    assert ActiveIds(map[]) == {};
  }

  // ------------------------------------------------------------------- exact accounting

  lemma StepExactness(s: State, step: Step)
    requires Safe(s) && Exact(s) && |s.objs| < WORD && !ConnectFails(s, step)
    ensures Exact(Apply(s, step)) <==> !Undisciplined(s, step)
  {
    ActiveAreLive(s.objs);
    if s.net.users == 0 { assert ActiveIds(s.objs) == {}; }
    match step
    case Create(id, device, garbage) =>
      UpdateActive(s.objs, id, Obj(device, -1, None, garbage));
    case QueryLink(id, _) =>
      if id in s.objs { QueryUpdates(s, step); }
    case QueryAddress(id, _, _) =>
      if id in s.objs { QueryUpdates(s, step); }
    case Dealloc(id) =>
      RemoveActive(s.objs, id);
    case KernelChange(_) =>
  }

  /** A step from here keeps the counter exact. */
  predicate Orderly(s: State, step: Step) {
    |s.objs| < WORD && !ConnectFails(s, step) && !Undisciplined(s, step)
  }

  lemma OrderlyStep(s: State, step: Step)
    requires Safe(s) && Exact(s) && Orderly(s, step)
    ensures Safe(Apply(s, step)) && Exact(Apply(s, step))
  {
    StepIsSafe(s, step);
    StepExactness(s, step);
  }

  lemma {:induction false} OrderlyRun(kernel: Kernel, run: seq<Step>, i: nat)
    requires i <= |run|
    requires forall j :: 0 <= j < i ==> Orderly(At(Initial(kernel), run, j), run[j])
    ensures Safe(At(Initial(kernel), run, i)) && Exact(At(Initial(kernel), run, i))
  {
    hide Apply;
    if i == 0 {
      assert ActiveIds(Initial(kernel).objs) == {};
    } else {
      OrderlyRun(kernel, run, i - 1);
      OrderlyStep(At(Initial(kernel), run, i - 1), run[i - 1]);
    }
  }

  lemma DisciplineKeepsExact(kernel: Kernel, run: seq<Step>, i: nat)
    requires Bounded(Initial(kernel), run) && NoConnectFails(Initial(kernel), run)
    requires Disciplined(Initial(kernel), run) && i <= |run|
    ensures Safe(At(Initial(kernel), run, i)) && Exact(At(Initial(kernel), run, i))
  {
    forall j | 0 <= j < i ensures Orderly(At(Initial(kernel), run, j), run[j]) {
    }
    OrderlyRun(kernel, run, i);
  }

  /** The counter equals the number of tagged objects in every visited state if and only
      if no object is born tagged and no untagged object dies while the connection is up. */
  lemma ExactIffDisciplined(kernel: Kernel, run: seq<Step>)
    requires Bounded(Initial(kernel), run) && NoConnectFails(Initial(kernel), run)
    ensures (forall i :: 0 <= i <= |run| ==> Exact(At(Initial(kernel), run, i)))
       <==> Disciplined(Initial(kernel), run)
  {
    var s0 := Initial(kernel);
    if Disciplined(s0, run) {
      forall i | 0 <= i <= |run| ensures Exact(At(s0, run, i)) {
        DisciplineKeepsExact(kernel, run, i);
      }
    } else {
      var i :| 0 <= i < |run| && Undisciplined(At(s0, run, i), run[i]);
      RunIsSafe(kernel, run, i);
      AtNext(s0, run, i);
      if Exact(At(s0, run, i)) { StepExactness(At(s0, run, i), run[i]); }
    }
  }

  /** Under the discipline a deallocation closes the connection exactly when it takes the
      last tagged object away. */
  lemma ClosesWithLastUser(kernel: Kernel, run: seq<Step>, i: nat)
    requires Bounded(Initial(kernel), run) && NoConnectFails(Initial(kernel), run)
    requires Disciplined(Initial(kernel), run)
    requires i < |run| && run[i].Dealloc?
    ensures var s := At(Initial(kernel), run, i);
            s.net.connected && !At(Initial(kernel), run, i + 1).net.connected
            <==> ActiveIds(s.objs) == {run[i].id}
  {
    RunIsSafe(kernel, run, i);
    DisciplineKeepsExact(kernel, run, i);
    DeallocCloses(At(Initial(kernel), run, i), run[i]);
    AtNext(Initial(kernel), run, i);
  }

  // -------------------------------------------------------------------- counterexamples

  const NO_TABLES := Kernel([], [])

  /** A failed connect leaves a connection nobody counts: deallocating its only object
      wraps the counter to 2^32 - 1 and the socket is never released. */
  lemma FailedConnectLeaks()
    ensures var run := [Create(0, "eth0", 0),
                        QueryLink(0, FAIR.(connectOk := false)),
                        Dealloc(0)];
            var s := Final(Initial(NO_TABLES), run);
            s.objs == map[] && s.net == Net(true, WORD - 1, [Opened])
  {
    var run := [Create(0, "eth0", 0), QueryLink(0, FAIR.(connectOk := false)), Dealloc(0)];
    var s0 := Initial(NO_TABLES);
    var s1 := Apply(s0, run[0]);
    var s2 := Apply(s1, run[1]);
    assert s2.net == Net(true, 0, [Opened]);
    assert At(s0, run, 1) == s1;
    assert At(s0, run, 2) == s2;
    assert At(s0, run, 3) == Apply(s2, run[2]);
    assert s2.objs - {0} == map[];
  }

  /** Deallocating an object that never queried takes the connection away from another
      object that is still tagged as its user. */
  lemma EarlyClose()
    ensures var run := [Create(0, "eth0", 0), Create(1, "eth1", 0),
                        QueryLink(0, FAIR), Dealloc(1)];
            var s := Final(Initial(NO_TABLES), run);
            ActiveIds(s.objs) == {0} && s.net == Net(false, 0, [Opened, Closed])
  {
    var run := [Create(0, "eth0", 0), Create(1, "eth1", 0), QueryLink(0, FAIR), Dealloc(1)];
    var s0 := Initial(NO_TABLES);
    var s1 := Apply(s0, run[0]);
    var s2 := Apply(s1, run[1]);
    var s3 := Apply(s2, run[2]);
    assert s3.net == Net(true, 1, [Opened]);
    assert At(s0, run, 1) == s1;
    assert At(s0, run, 2) == s2;
    assert At(s0, run, 3) == s3;
    assert At(s0, run, 4) == Apply(s3, run[3]);
  }

  /** An object born with a set tag is never counted, yet its deallocation is: here it
      closes the connection under object 1. */
  lemma GarbageTagCloses()
    ensures var run := [Create(0, "eth0", 7), Create(1, "eth1", 0),
                        QueryLink(1, FAIR), QueryLink(0, FAIR), Dealloc(0)];
            var s := Final(Initial(NO_TABLES), run);
            ActiveIds(s.objs) == {1} && s.net == Net(false, 0, [Opened, Closed])
  {
    var run := [Create(0, "eth0", 7), Create(1, "eth1", 0),
                QueryLink(1, FAIR), QueryLink(0, FAIR), Dealloc(0)];
    var s0 := Initial(NO_TABLES);
    var s1 := Apply(s0, run[0]);
    var s2 := Apply(s1, run[1]);
    var s3 := Apply(s2, run[2]);
    var s4 := Apply(s3, run[3]);
    assert s3.net == s4.net == Net(true, 1, [Opened]);
    assert At(s0, run, 1) == s1;
    assert At(s0, run, 2) == s2;
    assert At(s0, run, 3) == s3;
    assert At(s0, run, 4) == s4;
    assert At(s0, run, 5) == Apply(s4, run[4]);
  }

  /** `n` objects, each created and queried once. */
  function Crowd(n: nat): seq<Step> {
    if n == 0 then [] else Crowd(n - 1) + [Create(n - 1, "", 0), QueryLink(n - 1, FAIR)]
  }

  lemma {:induction false} AtPrefix(s: State, run: seq<Step>, more: seq<Step>, i: nat)
    requires i <= |run|
    ensures At(s, run + more, i) == At(s, run, i)
  {
    if i > 0 { AtPrefix(s, run, more, i - 1); }
  }

  lemma NewcomerCounts(s: State, id: nat)
    requires id !in s.objs && s.kernel == NO_TABLES
    ensures var s' := Apply(Apply(s, Create(id, "", 0)), QueryLink(id, FAIR));
            && s'.net.connected && s'.net.users == Inc(s.net.users)
            && s'.kernel == NO_TABLES && s'.objs.Keys == s.objs.Keys + {id}
  {
    QueryOpens(Apply(s, Create(id, "", 0)), QueryLink(id, FAIR));
  }

  lemma CrowdGrows(n: nat)
    requires n > 0
    ensures Final(Initial(NO_TABLES), Crowd(n))
         == Apply(Apply(Final(Initial(NO_TABLES), Crowd(n - 1)), Create(n - 1, "", 0)),
                  QueryLink(n - 1, FAIR))
  {
    hide Apply;
    var s0, run := Initial(NO_TABLES), Crowd(n);
    AtPrefix(s0, Crowd(n - 1), [Create(n - 1, "", 0), QueryLink(n - 1, FAIR)], |Crowd(n - 1)|);
    AtNext(s0, run, |run| - 2);
    AtNext(s0, run, |run| - 1);
  }

  lemma {:induction false} CrowdCounts(n: nat)
    ensures var s := Final(Initial(NO_TABLES), Crowd(n));
            && s.net.users == n % WORD && (s.net.connected <==> n > 0)
            && s.kernel == NO_TABLES
            && (forall id :: id in s.objs.Keys <==> 0 <= id < n)
  {
    hide Apply;
    if n > 0 {
      hide Final, Crowd;
      CrowdCounts(n - 1);
      CrowdGrows(n);
      NewcomerCounts(Final(Initial(NO_TABLES), Crowd(n - 1)), n - 1);
    }
  }

  /** The bound on live objects is tight: with 2^32 of them the counter is back at 0 under
      a connection that 2^32 objects use. */
  lemma CounterOverflow()
    ensures var s := Final(Initial(NO_TABLES), Crowd(WORD));
            s.net.connected && s.net.users == 0 && !Agrees(s.net)
  {
    CrowdCounts(WORD);
  }
}
