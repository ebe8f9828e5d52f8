/** What the queries answer over whole runs: cached fields never move, and an address query
    returns exactly the matching kernel entries. */
module NetlinkCache {
  import opened Wrappers
  import opened NetlinkSession

  // --------------------------------------------------------------------- cached fields

  /** `later` holds everything `earlier` had already cached. */
  predicate Keeps(earlier: Obj, later: Obj) {
    && later.device == earlier.device
    && (earlier.index >= 0 ==> later.index == earlier.index)
    && (earlier.hwaddress.Some? ==> later.hwaddress == earlier.hwaddress)
  }

  lemma StepKeeps(s: State, step: Step, id: nat)
    requires id in s.objs && step != Dealloc(id)
    ensures id in Apply(s, step).objs && Keeps(s.objs[id], Apply(s, step).objs[id])
  {
  }

  /** A resolved index and a fetched hardware address never change again while the object
      lives, however the kernel tables change and whatever later queries answer. */
  lemma {:induction false} CacheIsStable(s: State, run: seq<Step>, id: nat, i: nat, j: nat)
    requires i <= j <= |run| && id in At(s, run, i).objs
    requires forall k :: i <= k < j ==> run[k] != Dealloc(id)
    ensures id in At(s, run, j).objs
    ensures Keeps(At(s, run, i).objs[id], At(s, run, j).objs[id])
    decreases j
  {
    if i < j {
      CacheIsStable(s, run, id, i, j - 1);
      StepKeeps(At(s, run, j - 1), run[j - 1], id);
    }
  }

  /** Kernels number their links from 1. */
  ghost predicate Numbered(kernel: Kernel) {
    forall i :: 0 <= i < |kernel.links| ==> kernel.links[i].ifindex > 0
  }

  ghost predicate Resolved(s: State) {
    && Numbered(s.kernel)
    && forall id :: id in s.objs ==> s.objs[id].index == -1 || s.objs[id].index > 0
  }

  lemma FoundIsListed(links: seq<Link>, name: string)
    ensures var l := FindLink(links, name);
            l.Some? ==> l.value in links && l.value.name == name
    ensures FindLink(links, name).None? <==> forall i :: 0 <= i < |links| ==> links[i].name != name
  {
    if links != [] {
      FoundIsListed(links[1..], name);
      if FindLink(links, name).None? {
        forall i | 0 <= i < |links| ensures links[i].name != name {
          if i > 0 { assert links[i] == links[1..][i - 1]; }
        }
      }
    }
  }

  lemma StepResolves(s: State, step: Step)
    requires Resolved(s) && (step.KernelChange? ==> Numbered(step.kernel))
    ensures Resolved(Apply(s, step))
  {
    if (step.QueryLink? || step.QueryAddress?) && step.id in s.objs {
      FoundIsListed(s.kernel.links, s.objs[step.id].device);
    }
  }

  /** With kernels that number their links from 1, every cached index is either still -1
      or the positive index of a link: no failed lookup is ever mistaken for a resolution. */
  lemma {:induction false} IndexIsUnresolvedOrPositive(kernel: Kernel, run: seq<Step>, i: nat)
    requires Numbered(kernel) && i <= |run|
    requires forall k :: 0 <= k < i && run[k].KernelChange? ==> Numbered(run[k].kernel)
    ensures Resolved(At(Initial(kernel), run, i))
  {
    if i > 0 {
      IndexIsUnresolvedOrPositive(kernel, run, i - 1);
      StepResolves(At(Initial(kernel), run, i - 1), run[i - 1]);
    }
  }

  /** After an address query that found no device, the next query looks the name up again
      unless the table listed a link of that name with index 0. */
  lemma RetriesIff(n: Net, o: Obj, kernel: Kernel, query: Query, env: Env)
    requires AddressQuery(n, o, kernel, query, env).2 == Err(NoDevice)
    ensures AddressQuery(n, o, kernel, query, env).1.index < 0
       <==> !exists l: Link :: FindLink(kernel.links, o.device) == Some(l) && l.ifindex == 0
  {
    var found := FindLink(kernel.links, o.device);
    if found.Some? { assert found == Some(found.value); }
  }

  /** A name the kernel does not know yet can be resolved later. */
  lemma LaterLinkResolves(s: State, id: nat, link: Link, query: Query)
    requires id in s.objs && s.objs[id].index < 0
    requires FindLink(s.kernel.links, s.objs[id].device) == None
    requires link.name == s.objs[id].device && link.ifindex > 0
    ensures AddressQuery(s.net, s.objs[id], s.kernel, query, FAIR).2 == Err(NoDevice)
    ensures var run := [QueryAddress(id, query, FAIR),
                        KernelChange(s.kernel.(links := s.kernel.links + [link]))];
            var s2 := Final(s, run);
            && id in s2.objs
            && AddressQuery(s2.net, s2.objs[id], s2.kernel, query, FAIR).2
               == Ok(Select(s.kernel.addrs, link.ifindex, query))
  {
    var run := [QueryAddress(id, query, FAIR),
                KernelChange(s.kernel.(links := s.kernel.links + [link]))];
    var s1 := Apply(s, run[0]);
    assert s1.objs[id].index == s.objs[id].index;
    assert At(s, run, 1) == s1;
    assert At(s, run, 2) == Apply(s1, run[1]);
    FindAppended(s.kernel.links, link);
  }

  lemma FindAppended(links: seq<Link>, link: Link)
    requires FindLink(links, link.name) == None
    ensures FindLink(links + [link], link.name) == Some(link)
  {
    if links != [] {
      assert (links + [link])[1..] == links[1..] + [link];
      FindAppended(links[1..], link);
    }
  }

  /** A link listed with index 0 is reported as no device once, and answered ever after. */
  lemma ZeroIndexSticks()
    ensures var kernel := Kernel([Link("dummy", 0, "")], []);
            var s := Final(Initial(kernel), [Create(0, "dummy", 0)]);
            var first := AddressQuery(s.net, s.objs[0], kernel, Inet, FAIR);
            var second := AddressQuery(first.0, first.1, kernel, Inet, FAIR);
            first.2 == Err(NoDevice) && second.2 == Ok([])
  {
    var run := [Create(0, "dummy", 0)];
    var s0 := Initial(Kernel([Link("dummy", 0, "")], []));
    assert At(s0, run, 1) == Apply(At(s0, run, 0), run[0]);
  }

  // --------------------------------------------------------------------------- answers

  /** `positions` lists, in increasing order, exactly the places of the matching entries. */
  ghost predicate Witnesses(positions: seq<nat>, addrs: seq<Address>, index: int, query: Query)
  {
    && (forall j, k :: 0 <= j < k < |positions| ==> positions[j] < positions[k])
    && (forall k :: 0 <= k < |positions| ==> positions[k] < |addrs|)
    && (forall p :: 0 <= p < |addrs| ==> (p in positions <==> Matches(addrs[p], index, query)))
  }

  /** The answer is the subsequence of the table at exactly the matching positions. */
  lemma {:induction false} SelectIsExact(addrs: seq<Address>, index: int, query: Query)
    returns (positions: seq<nat>)
    ensures Witnesses(positions, addrs, index, query)
    ensures var list := Select(addrs, index, query);
            |list| == |positions| && forall k :: 0 <= k < |list| ==> list[k] == addrs[positions[k]]
  {
    if addrs == [] { return []; }
    hide Select, Matches;
    var n := |addrs| - 1;
    var rest := SelectIsExact(addrs[..n], index, query);
    SelectSnoc(addrs, index, query);
    positions := rest + if Matches(addrs[n], index, query) then [n] else [];
    forall p | 0 <= p < |addrs| ensures p in positions <==> Matches(addrs[p], index, query) {
      if p < n { assert addrs[..n][p] == addrs[p]; }
    }
  }

  lemma SelectSnoc(addrs: seq<Address>, index: int, query: Query)
    requires addrs != []
    ensures var n := |addrs| - 1;
            Select(addrs, index, query)
            == Select(addrs[..n], index, query)
               + if Matches(addrs[n], index, query) then [addrs[n]] else []
  {
  }

  /** An address query that succeeds after an earlier one on the same object succeeded
      returns the current entries of the index the earlier one used. */
  lemma AnswersFollowFirstIndex(s: State, run: seq<Step>, id: nat, i: nat, j: nat,
                                f1: Query, e1: Env, f2: Query, e2: Env)
    requires i < j <= |run| && id in At(s, run, i).objs && run[i] == QueryAddress(id, f1, e1)
    requires forall k :: i <= k < j ==> run[k] != Dealloc(id)
    requires var si := At(s, run, i);
             AddressQuery(si.net, si.objs[id], si.kernel, f1, e1).2.Ok?
    ensures id in At(s, run, j).objs
    ensures var si := At(s, run, i);
            var sj := At(s, run, j);
            var first := AddressQuery(si.net, si.objs[id], si.kernel, f1, e1).1.index;
            var later := AddressQuery(sj.net, sj.objs[id], sj.kernel, f2, e2).2;
            && first >= 0
            && (later.Ok? ==> later.value == Select(sj.kernel.addrs, first, f2))
  {
    var si := At(s, run, i);
    assert At(s, run, i + 1) == Apply(si, run[i]);
    CacheIsStable(s, run, id, i + 1, j);
  }

  /** The entries of one interface in either of the two families. */
  function OfInterface(addrs: seq<Address>, index: int): multiset<Address> {
    if addrs == [] then multiset{}
    else
      var last := addrs[|addrs| - 1];
      OfInterface(addrs[..|addrs| - 1], index)
      + if last.ifindex == index && last.family in {Inet, Inet6} then multiset{last}
        else multiset{}
  }

  lemma SelectLast(addrs: seq<Address>, index: int, query: Query)
    requires addrs != []
    ensures var last := addrs[|addrs| - 1];
            multiset(Select(addrs, index, query))
            == multiset(Select(addrs[..|addrs| - 1], index, query))
               + if Matches(last, index, query) then multiset{last} else multiset{}
  {
  }

  /** The IPv4 and the IPv6 answer together hold every entry of the interface in those
      families exactly as often as the table does. */
  lemma {:induction false} FamiliesPartition(addrs: seq<Address>, index: int)
    ensures multiset(Select(addrs, index, Inet)) + multiset(Select(addrs, index, Inet6))
         == OfInterface(addrs, index)
  {
    if addrs != [] {
      FamiliesPartition(addrs[..|addrs| - 1], index);
      SelectLast(addrs, index, Inet);
      SelectLast(addrs, index, Inet6);
    }
  }

  // ------------------------------------------------------------------- the ipv4 getters

  /** What ipv4_address, ipv4_netmask and ipv4_broadcast return for an address list. */
  function AddressOf(list: seq<Address>): Option<string> {
    if LastAddress(list).Some? then Some(LastAddress(list).value.local) else None
  }

  function MaskOf(list: seq<Address>): int {
    if LastAddress(list).Some? then LastAddress(list).value.prefixlen else 0
  }

  function BroadcastOf(list: seq<Address>): string {
    if LastAddress(list).Some? && LastAddress(list).value.broadcast.Some?
      then LastAddress(list).value.broadcast.value
    else "0.0.0.0"
  }

  /** `p` is the place of the last IPv4 entry of the interface. */
  ghost predicate IsLastEntry(addrs: seq<Address>, index: int, p: nat) {
    && p < |addrs| && Matches(addrs[p], index, Inet)
    && forall q :: p < q < |addrs| ==> !Matches(addrs[q], index, Inet)
  }

  lemma {:induction false} LastOfAnswer(addrs: seq<Address>, index: int)
    ensures var list := Select(addrs, index, Inet);
            if list == [] then forall a :: a in addrs ==> !Matches(a, index, Inet)
            else exists p: nat :: IsLastEntry(addrs, index, p) && list[|list| - 1] == addrs[p]
  {
    var positions := SelectIsExact(addrs, index, Inet);
    if positions == [] {
      forall a | a in addrs ensures !Matches(a, index, Inet) {
        var p :| 0 <= p < |addrs| && addrs[p] == a;
        assert p !in positions;
      }
    } else {
      var p := positions[|positions| - 1];
      assert p in positions;
      assert IsLastEntry(addrs, index, p);
    }
  }

  lemma {:induction false} KernelStays(s: State, run: seq<Step>, i: nat, j: nat)
    requires i <= j <= |run| && forall m :: i <= m < j ==> !run[m].KernelChange?
    ensures At(s, run, j).kernel == At(s, run, i).kernel
    decreases j
  {
    if i < j { KernelStays(s, run, i, j - 1); }
  }

  function Answer(s: State, id: nat, query: Query, env: Env): Result<seq<Address>, Error>
    requires id in s.objs
  {
    AddressQuery(s.net, s.objs[id], s.kernel, query, env).2
  }

  /** What the three getters return when the table and the index of the interface are given. */
  ghost predicate Coherent(answers: (Option<string>, int, string), addrs: seq<Address>, index: int)
  {
    if forall a :: a in addrs ==> !Matches(a, index, Inet) then answers == (None, 0, "0.0.0.0")
    else exists p: nat :: IsLastEntry(addrs, index, p) && answers == Entry(addrs[p])
  }

  lemma CoherentAnswer(addrs: seq<Address>, index: int)
    ensures var list := Select(addrs, index, Inet);
            Coherent((AddressOf(list), MaskOf(list), BroadcastOf(list)), addrs, index)
  {
    hide Select, Matches;
    var list := Select(addrs, index, Inet);
    LastOfAnswer(addrs, index);
    if list != [] {
      var p: nat :| IsLastEntry(addrs, index, p) && list[|list| - 1] == addrs[p];
      LastEntryMatches(addrs, index, p);
      assert (AddressOf(list), MaskOf(list), BroadcastOf(list)) == Entry(addrs[p]);
    } else {
      assert (AddressOf(list), MaskOf(list), BroadcastOf(list)) == (None, 0, "0.0.0.0");
    }
  }

  lemma LastEntryMatches(addrs: seq<Address>, index: int, p: nat)
    requires IsLastEntry(addrs, index, p)
    ensures p < |addrs| && addrs[p] in addrs && Matches(addrs[p], index, Inet)
  {
  }

  /** An IPv4 query that succeeds after another one has, with no change of the tables in
      between, gives the same list, the entries of the index then cached. */
  lemma SameAnswer(s: State, run: seq<Step>, id: nat, i: nat, j: nat, e1: Env, e2: Env)
    requires i < j <= |run| && id in At(s, run, i).objs && run[i] == QueryAddress(id, Inet, e1)
    requires forall m :: i <= m < j ==> run[m] != Dealloc(id) && !run[m].KernelChange?
    requires Answer(At(s, run, i), id, Inet, e1).Ok?
    ensures id in At(s, run, i + 1).objs && id in At(s, run, j).objs
    ensures var si := At(s, run, i);
            var index := At(s, run, i + 1).objs[id].index;
            && Answer(si, id, Inet, e1).value == Select(si.kernel.addrs, index, Inet)
            && var later := Answer(At(s, run, j), id, Inet, e2);
               later.Ok? ==> later.value == Select(si.kernel.addrs, index, Inet)
  {
    AnswersFollowFirstIndex(s, run, id, i, j, Inet, e1, Inet, e2);
    KernelStays(s, run, i, j);
    assert At(s, run, i + 1) == Apply(At(s, run, i), run[i]);
    hide Apply, Select;
  }

  /** Three getter calls on one object anywhere in a run, other steps between them but no
      change of the kernel's tables, speak of one and the same entry: the last IPv4 entry of
      the interface, or of none if it has none.  The lists they work on are equal, so it does
      not matter which getter is called first. */
  lemma GettersCohere(s: State, run: seq<Step>, id: nat, i: nat, j: nat, k: nat,
                      e1: Env, e2: Env, e3: Env)
    requires i < j < k <= |run| && id in At(s, run, i).objs
    requires run[i] == QueryAddress(id, Inet, e1)
    requires forall m :: i <= m < k ==> run[m] != Dealloc(id) && !run[m].KernelChange?
    requires Answer(At(s, run, i), id, Inet, e1).Ok?
    ensures id in At(s, run, i + 1).objs && id in At(s, run, j).objs && id in At(s, run, k).objs
    ensures var r1 := Answer(At(s, run, i), id, Inet, e1);
            var r2 := Answer(At(s, run, j), id, Inet, e2);
            var r3 := Answer(At(s, run, k), id, Inet, e3);
            r2.Ok? && r3.Ok? ==>
              && r1.value == r2.value == r3.value
              && Coherent((AddressOf(r1.value), MaskOf(r2.value), BroadcastOf(r3.value)),
                          At(s, run, i).kernel.addrs, At(s, run, i + 1).objs[id].index)
  {
    hide Answer, Select, Coherent, Apply;
    SameAnswer(s, run, id, i, j, e1, e2);
    SameAnswer(s, run, id, i, k, e1, e3);
    CoherentAnswer(At(s, run, i).kernel.addrs, At(s, run, i + 1).objs[id].index);
  }

  /** The three values one table entry stands for. */
  function Entry(a: Address): (Option<string>, int, string) {
    (Some(a.local), a.prefixlen, if a.broadcast.Some? then a.broadcast.value else "0.0.0.0")
  }
}
