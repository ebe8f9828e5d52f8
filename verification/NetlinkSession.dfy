/** The shared NETLINK session of the ethtool extension as a state machine on values.

    One process-wide connection and one unsigned user counter (netlink.c) are shared by
    every live etherinfo object; each object carries its own `nlc_active` tag and caches
    its interface index and hardware address (etherinfo.c).  Every entry point runs under
    the interpreter lock, so one entry point is one atomic step.
 */
module NetlinkSession {
  import opened Words
  import opened Wrappers

  function Inc(x: u32): u32 { (x + 1) % WORD }

  function Dec(x: u32): u32 { (x - 1) % WORD }

  // ------------------------------------------------------------------ the kernel's side

  datatype Family = Inet | Inet6 | OtherFamily(number: int)

  /** nlQuery: an object can be asked for one of two families. */
  type Query = f: Family | f == Inet || f == Inet6 witness Inet

  datatype Link = Link(name: string, ifindex: int, hwaddr: string)

  datatype Address = Address(ifindex: int, family: Family, local: string,
                             prefixlen: int, broadcast: Option<string>)

  datatype Kernel = Kernel(links: seq<Link>, addrs: seq<Address>)

  /** The answers the C library gives during one query: socket allocation, connecting it,
      the link dump for the name lookup, and the dump (with its filter object) for the
      query itself. */
  datatype Env = Env(socketOk: bool, connectOk: bool, nameCacheOk: bool, tableOk: bool)

  const FAIR := Env(true, true, true, true)

  /** rtnl_link_get_by_name: the first link of that name. */
  function FindLink(links: seq<Link>, name: string): Option<Link> {
    if links == [] then None
    else if links[0].name == name then Some(links[0])
    else FindLink(links[1..], name)
  }

  /** The first link with that index; callback_nl_link ignores every later one. */
  function FirstIndexed(links: seq<Link>, index: int): Option<Link> {
    if links == [] then None
    else if links[0].ifindex == index then Some(links[0])
    else FirstIndexed(links[1..], index)
  }

  predicate Matches(a: Address, index: int, query: Query) {
    a.ifindex == index && a.family == query
  }

  /** nl_cache_foreach_filter over the address table: callback_nl_address appends. */
  function Select(addrs: seq<Address>, index: int, query: Query): seq<Address> {
    if addrs == [] then []
    else
      var last := addrs[|addrs| - 1];
      Select(addrs[..|addrs| - 1], index, query)
      + if Matches(last, index, query) then [last] else []
  }

  // ------------------------------------------------------------------- the process' side

  datatype SocketEvent = Opened | Closed

  /** `nlconnection`, `nlconnection_users`, and the history of socket allocations and
      releases. */
  datatype Net = Net(connected: bool, users: u32, log: seq<SocketEvent>)

  /** One live etherinfo object. */
  datatype Obj = Obj(device: string, index: int, hwaddress: Option<string>, active: u16)

  datatype State = State(net: Net, objs: map<nat, Obj>, kernel: Kernel)

  datatype Error = NoNetlink | CacheFailed | NoDevice

  function Initial(kernel: Kernel): State {
    State(Net(false, 0, []), map[], kernel)
  }

  /** open_netlink: the new globals, the object's new tag, and whether it succeeded. */
  function Open(n: Net, active: u16, env: Env): (Net, u16, bool) {
    if n.connected then
      (n.(users := if active == 0 then Inc(n.users) else n.users), 1, true)
    else if !env.socketOk then
      (n, active, false)
    else if !env.connectOk then
      (n.(connected := true, log := n.log + [Opened]), active, false)
    else
      (Net(true, Inc(n.users), n.log + [Opened]), 1, true)
  }

  /** close_netlink: note that the object's tag plays no part in the decrement. */
  function Close(n: Net): Net {
    if !n.connected then n
    else if Dec(n.users) > 0 then n.(users := Dec(n.users))
    else Net(false, Dec(n.users), n.log + [Closed])
  }

  /** _set_device_index: the cached index afterwards, and the error if there is one. */
  function ResolveIndex(o: Obj, kernel: Kernel, env: Env): (int, Option<Error>) {
    if o.index >= 0 then (o.index, None)
    else if !env.nameCacheOk then (o.index, Some(CacheFailed))
    else
      match FindLink(kernel.links, o.device)
      case None => (o.index, Some(NoDevice))
      case Some(link) => (link.ifindex, if link.ifindex <= 0 then Some(NoDevice) else None)
  }

  /** The part both queries share: open the session, then resolve the index. */
  function Prepare(n: Net, o: Obj, kernel: Kernel, env: Env): (Net, Obj, Option<Error>) {
    var (n1, active, ok) := Open(n, o.active, env);
    var o1 := o.(active := active);
    if !ok then (n1, o1, Some(NoNetlink))
    else
      var (index, err) := ResolveIndex(o1, kernel, env);
      (n1, o1.(index := index), err)
  }

  /** get_etherinfo_link */
  function LinkQuery(n: Net, o: Obj, kernel: Kernel, env: Env): (Net, Obj, Option<Error>) {
    var (n1, o1, err) := Prepare(n, o, kernel, env);
    if err.Some? then (n1, o1, err)
    else if !env.tableOk then (n1, o1, Some(CacheFailed))
    else
      var found := FirstIndexed(kernel.links, o1.index);
      if o1.hwaddress.None? && found.Some?
        then (n1, o1.(hwaddress := Some(found.value.hwaddr)), None)
      else (n1, o1, None)
  }

  /** get_etherinfo_address */
  function AddressQuery(n: Net, o: Obj, kernel: Kernel, query: Query, env: Env)
    : (Net, Obj, Result<seq<Address>, Error>)
  {
    var (n1, o1, err) := Prepare(n, o, kernel, env);
    if err.Some? then (n1, o1, Err(err.value))
    else if !env.tableOk then (n1, o1, Err(CacheFailed))
    else (n1, o1, Ok(Select(kernel.addrs, o1.index, query)))
  }

  /** get_last_ipv4_address */
  function LastAddress(list: seq<Address>): Option<Address> {
    if list == [] then None else Some(list[|list| - 1])
  }

  // ------------------------------------------------------------------------------- runs

  datatype Step =
    | Create(id: nat, device: string, garbage: u16)  // nlc_active is never initialised
    | QueryLink(id: nat, env: Env)
    | QueryAddress(id: nat, query: Query, env: Env)
    | Dealloc(id: nat)
    | KernelChange(kernel: Kernel)

  /** One step.  A step on an object that is not live (or the creation of an object that
      already is) cannot happen and leaves the state as it was. */
  function Apply(s: State, step: Step): State {
    match step
    case Create(id, device, garbage) =>
      if id in s.objs then s else s.(objs := s.objs[id := Obj(device, -1, None, garbage)])
    case QueryLink(id, env) =>
      if id !in s.objs then s else
      var (n, o, _) := LinkQuery(s.net, s.objs[id], s.kernel, env);
      s.(net := n, objs := s.objs[id := o])
    case QueryAddress(id, query, env) =>
      if id !in s.objs then s else
      var (n, o, _) := AddressQuery(s.net, s.objs[id], s.kernel, query, env);
      s.(net := n, objs := s.objs[id := o])
    case Dealloc(id) =>
      if id !in s.objs then s else s.(net := Close(s.net), objs := s.objs - {id})
    case KernelChange(kernel) => s.(kernel := kernel)
  }

  /** The state after the first `i` steps of a run. */
  function At(s: State, run: seq<Step>, i: nat): State
    requires i <= |run|
  {
    if i == 0 then s else Apply(At(s, run, i - 1), run[i - 1])
  }

  function Final(s: State, run: seq<Step>): State { At(s, run, |run|) }

  /** The objects whose `nlc_active` is set. */
  function ActiveIds(objs: map<nat, Obj>): set<nat> {
    set id | id in objs && objs[id].active != 0
  }

  /** Fewer live objects than the counter can count. */
  ghost predicate Bounded(s: State, run: seq<Step>) {
    forall i :: 0 <= i <= |run| ==> |At(s, run, i).objs| < WORD
  }

  /** The step reaches nl_connect and nl_connect fails. */
  predicate ConnectFails(s: State, step: Step) {
    && (step.QueryLink? || step.QueryAddress?)
    && step.id in s.objs
    && !s.net.connected && step.env.socketOk && !step.env.connectOk
  }

  ghost predicate NoConnectFails(s: State, run: seq<Step>) {
    forall i :: 0 <= i < |run| ==> !ConnectFails(At(s, run, i), run[i])
  }

  /** The step breaks the discipline the counter silently relies on: an object born with a
      set tag, or an untagged object deallocated while the connection is up. */
  predicate Undisciplined(s: State, step: Step) {
    || (step.Create? && step.id !in s.objs && step.garbage != 0)
    || (step.Dealloc? && step.id in s.objs && s.net.connected && s.objs[step.id].active == 0)
  }

  ghost predicate Disciplined(s: State, run: seq<Step>) {
    forall i :: 0 <= i < |run| ==> !Undisciplined(At(s, run, i), run[i])
  }
}
