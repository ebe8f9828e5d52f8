/** How the two queries end and what they leave in an object, told from the positions of the
    links in the kernel's table. */
module NetlinkQueries {
  import opened NetlinkSession
  import opened Wrappers

  /** Link `p` is the first of that name. */
  ghost predicate FirstNamed(links: seq<Link>, name: string, p: int) {
    && 0 <= p < |links| && links[p].name == name
    && forall q :: 0 <= q < p ==> links[q].name != name
  }

  /** Link `p` is the first with that index. */
  ghost predicate FirstAt(links: seq<Link>, index: int, p: int) {
    && 0 <= p < |links| && links[p].ifindex == index
    && forall q :: 0 <= q < p ==> links[q].ifindex != index
  }

  lemma {:induction false} FindLinkIs(links: seq<Link>, name: string)
    ensures match FindLink(links, name)
            case None => forall p :: 0 <= p < |links| ==> links[p].name != name
            case Some(link) => exists p :: FirstNamed(links, name, p) && links[p] == link
  {
    if links == [] { return; }
    if links[0].name == name {
      assert FirstNamed(links, name, 0);
    } else {
      FindLinkIs(links[1..], name);
      if FindLink(links, name).Some? {
        var p :| FirstNamed(links[1..], name, p) && links[1..][p] == FindLink(links, name).value;
        forall q | 0 <= q < p + 1 ensures links[q].name != name {
          if q > 0 { assert links[q] == links[1..][q - 1]; }
        }
        assert FirstNamed(links, name, p + 1);
      } else {
        forall p | 0 <= p < |links| ensures links[p].name != name {
          if p > 0 { assert links[p] == links[1..][p - 1]; }
        }
      }
    }
  }

  lemma {:induction false} FirstIndexedIs(links: seq<Link>, index: int)
    ensures match FirstIndexed(links, index)
            case None => forall p :: 0 <= p < |links| ==> links[p].ifindex != index
            case Some(link) => exists p :: FirstAt(links, index, p) && links[p] == link
  {
    if links == [] { return; }
    if links[0].ifindex == index {
      assert FirstAt(links, index, 0);
    } else {
      FirstIndexedIs(links[1..], index);
      if FirstIndexed(links, index).Some? {
        var p :| FirstAt(links[1..], index, p) && links[1..][p] == FirstIndexed(links, index).value;
        forall q | 0 <= q < p + 1 ensures links[q].ifindex != index {
          if q > 0 { assert links[q] == links[1..][q - 1]; }
        }
        assert FirstAt(links, index, p + 1);
      } else {
        forall p | 0 <= p < |links| ensures links[p].ifindex != index {
          if p > 0 { assert links[p] == links[1..][p - 1]; }
        }
      }
    }
  }

  lemma OneFirstNamed(links: seq<Link>, name: string, p: int, q: int)
    requires FirstNamed(links, name, p) && FirstNamed(links, name, q)
    ensures p == q
  {
  }

  lemma OneFirstAt(links: seq<Link>, index: int, p: int, q: int)
    requires FirstAt(links, index, p) && FirstAt(links, index, q)
    ensures p == q
  {
  }

  /** There is a connection, or a socket can be allocated and connected. */
  predicate Reaches(n: Net, env: Env) { n.connected || (env.socketOk && env.connectOk) }

  /** The first link of the object's name exists and has a proper index. */
  ghost predicate Listed(o: Obj, kernel: Kernel) {
    exists p :: FirstNamed(kernel.links, o.device, p) && kernel.links[p].ifindex > 0
  }

  /** The index is cached, or the name can be looked up and found. */
  ghost predicate Resolves(o: Obj, kernel: Kernel, env: Env) {
    o.index >= 0 || (env.nameCacheOk && Listed(o, kernel))
  }

  lemma ListedIff(o: Obj, kernel: Kernel)
    ensures var found := FindLink(kernel.links, o.device);
            Listed(o, kernel) <==> found.Some? && found.value.ifindex > 0
  {
    FindLinkIs(kernel.links, o.device);
    var found := FindLink(kernel.links, o.device);
    if found.Some? {
      var p :| FirstNamed(kernel.links, o.device, p) && kernel.links[p] == found.value;
      forall q | FirstNamed(kernel.links, o.device, q) ensures q == p {
        OneFirstNamed(kernel.links, o.device, p, q);
      }
    }
  }

  /** How a link query ends, each way exactly when. */
  lemma LinkQueryIff(n: Net, o: Obj, kernel: Kernel, env: Env)
    ensures var err := LinkQuery(n, o, kernel, env).2;
            && (err == None <==> Reaches(n, env) && Resolves(o, kernel, env) && env.tableOk)
            && (err == Some(NoNetlink) <==> !Reaches(n, env))
            && (err == Some(NoDevice)
                <==> Reaches(n, env) && o.index < 0 && env.nameCacheOk && !Listed(o, kernel))
            && (err == Some(CacheFailed)
                <==> Reaches(n, env) && if o.index < 0 && !env.nameCacheOk then true
                                        else Resolves(o, kernel, env) && !env.tableOk)
  {
    ListedIff(o, kernel);
    hide Listed, FindLink, FirstIndexed;
  }

  /** An address query ends as a link query would; one that succeeds leaves the hardware
      address alone and answers for the index that is then cached. */
  lemma QueriesAlike(n: Net, o: Obj, kernel: Kernel, query: Query, env: Env)
    ensures var (n1, o1, err) := LinkQuery(n, o, kernel, env);
            var (n2, o2, r) := AddressQuery(n, o, kernel, query, env);
            && n2 == n1 && o2 == o1.(hwaddress := o.hwaddress)
            && (err.Some? <==> r.Err?) && (err.Some? ==> r.error == err.value)
            && (r.Ok? ==> r.value == Select(kernel.addrs, o1.index, query))
  {
  }

  /** A link query that succeeds: the index is the cached one or that of the first link of
      the object's name; an address cached before stays; otherwise the address of the first
      link with that index is cached, and none exactly if there is no such link. */
  lemma LinkQueryStores(n: Net, o: Obj, kernel: Kernel, env: Env)
    requires LinkQuery(n, o, kernel, env).2 == None
    ensures var after, links := LinkQuery(n, o, kernel, env).1, kernel.links;
            && after.device == o.device && after.active == 1 && after.index >= 0
            && (if o.index >= 0 then after.index == o.index
                else exists p :: FirstNamed(links, o.device, p) && links[p].ifindex == after.index)
            && match o.hwaddress
               case Some(address) => after.hwaddress == Some(address)
               case None =>
                 && (forall p :: FirstAt(links, after.index, p) ==>
                       after.hwaddress == Some(links[p].hwaddr))
                 && (after.hwaddress == None
                     <==> forall p :: 0 <= p < |links| ==> links[p].ifindex != after.index)
  {
    var after, links := LinkQuery(n, o, kernel, env).1, kernel.links;
    FindLinkIs(links, o.device);
    FirstIndexedIs(links, after.index);
    if o.hwaddress == None && FirstIndexed(links, after.index).Some? {
      var p :| FirstAt(links, after.index, p) && links[p] == FirstIndexed(links, after.index).value;
      forall q | FirstAt(links, after.index, q) ensures q == p {
        OneFirstAt(links, after.index, p, q);
      }
    }
    hide FindLink, FirstIndexed;
  }

  /** A link query that fails leaves the hardware address alone, and the index too, unless it
      got as far as finding the first link of the name, whose index is then cached, even one
      that is not positive.  The object is tagged if the connection was reached. */
  lemma FailedLinkQuery(n: Net, o: Obj, kernel: Kernel, env: Env)
    requires LinkQuery(n, o, kernel, env).2.Some?
    ensures var (n1, after, _) := LinkQuery(n, o, kernel, env);
            && after.device == o.device && after.hwaddress == o.hwaddress
            && after.active == (if Reaches(n, env) then 1 else o.active)
            && (Reaches(n, env) ==> n1.connected)
            && if Reaches(n, env) && o.index < 0 && env.nameCacheOk && Known(o, kernel)
                 then Found(o, kernel, after.index)
               else after.index == o.index
  {
    FindLinkIs(kernel.links, o.device);
    hide FindLink, FirstIndexed;
  }

  ghost predicate Known(o: Obj, kernel: Kernel) {
    exists p :: FirstNamed(kernel.links, o.device, p)
  }

  /** The first link of the object's name has that index. */
  ghost predicate Found(o: Obj, kernel: Kernel, index: int) {
    exists p :: FirstNamed(kernel.links, o.device, p) && kernel.links[p].ifindex == index
  }

  /** The `i`-th step of the run is a link query of the object that finds it without an
      address, and the first link with the index it ends with had that address. */
  ghost predicate Origin(s: State, run: seq<Step>, id: nat, address: string, index: int, i: nat) {
    && i < |run| && run[i].QueryLink? && run[i].id == id
    && var links := At(s, run, i).kernel.links;
       exists p :: FirstAt(links, index, p) && links[p].hwaddr == address
  }

  /** Every cached hardware address, in every visited state of every run, was put there by an
      earlier link query of the object, and is that of the link which was then the first with
      the index the object still has. */
  lemma {:induction false} AddressHasOrigin(kernel: Kernel, run: seq<Step>, id: nat, n: nat)
    requires n <= |run|
    requires var s := At(Initial(kernel), run, n); id in s.objs && s.objs[id].hwaddress.Some?
    ensures var o := At(Initial(kernel), run, n).objs[id];
            && o.index >= 0
            && exists i: nat :: i < n && Origin(Initial(kernel), run, id, o.hwaddress.value, o.index, i)
  {
    if n == 0 { return; }
    var s, step := At(Initial(kernel), run, n - 1), run[n - 1];
    var o := Apply(s, step).objs[id];
    if id in s.objs && s.objs[id].hwaddress.Some? {
      AddressHasOrigin(kernel, run, id, n - 1);
      AddressStays(s, step, id);
      var i: nat :| i < n - 1 && Origin(Initial(kernel), run, id, o.hwaddress.value, o.index, i);
      assert Origin(Initial(kernel), run, id, o.hwaddress.value, o.index, i);
    } else {
      AddressArrives(s, step, id);
      assert Origin(Initial(kernel), run, id, o.hwaddress.value, o.index, n - 1);
    }
  }

  lemma AddressStays(s: State, step: Step, id: nat)
    requires id in s.objs && s.objs[id].hwaddress.Some? && s.objs[id].index >= 0
    requires id in Apply(s, step).objs
    ensures Apply(s, step).objs[id].hwaddress == s.objs[id].hwaddress
    ensures Apply(s, step).objs[id].index == s.objs[id].index
  {
  }

  /** Nothing but a link query that succeeds gives an object an address. */
  lemma AddressArrives(s: State, step: Step, id: nat)
    requires id in s.objs ==> s.objs[id].hwaddress == None
    requires id in Apply(s, step).objs && Apply(s, step).objs[id].hwaddress.Some?
    ensures step.QueryLink? && step.id == id
    ensures var o, links := Apply(s, step).objs[id], s.kernel.links;
            && o.index >= 0
            && exists p :: FirstAt(links, o.index, p) && links[p].hwaddr == o.hwaddress.value
  {
    var o := s.objs[id];
    if LinkQuery(s.net, o, s.kernel, step.env).2.Some? {
      FailedLinkQuery(s.net, o, s.kernel, step.env);
    } else {
      LinkQueryStores(s.net, o, s.kernel, step.env);
      FirstIndexedIs(s.kernel.links, Apply(s, step).objs[id].index);
    }
  }
}
