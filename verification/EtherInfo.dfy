/** The etherinfo objects and the module globals they share, updated in place.  Each entry
    point is proved to be one step of the machine in NetlinkSession. */
module EtherInfo {
  import opened Wrappers
  import opened NetlinkSession
  import opened Words
  import opened NetlinkCache

  class PyEtherInfo {
    ghost const id: nat
    const device: string
    var index: int
    var hwaddress: Option<string>
    var nlcActive: u16

    /** The creation step of get_interfaces_info: `garbage` is whatever the allocator left
        in nlc_active, which nothing initialises. */
    constructor (ghost id: nat, device: string, garbage: u16)
      ensures this.id == id && View() == Obj(device, -1, None, garbage)
    {
      this.id := id;
      this.device := device;
      hwaddress := None;
      index := -1;
      nlcActive := garbage;
    }

    ghost function View(): Obj
      reads this
    {
      Obj(device, index, hwaddress, nlcActive)
    }
  }

  /** The file-level state of netlink.c, together with the kernel it talks to.  `live` is
      the set of objects the interpreter keeps alive, under the names the proofs use. */
  class Session {
    var nlconnection: bool
    var nlconnectionUsers: u32
    var kernel: Kernel
    ghost var log: seq<SocketEvent>
    ghost var live: map<nat, PyEtherInfo>

    constructor (kernel: Kernel)
      ensures Valid() && View() == Initial(kernel)
    {
      nlconnection := false;
      nlconnectionUsers := 0;
      this.kernel := kernel;
      log := [];
      live := map[];
    }

    ghost predicate Valid()
      reads this
    {
      forall id :: id in live ==> live[id].id == id
    }

    ghost predicate Owns(self: PyEtherInfo)
      reads this
    {
      Valid() && self.id in live && live[self.id] == self
    }

    ghost function NetView(): Net
      reads this
    {
      Net(nlconnection, nlconnectionUsers, log)
    }

    ghost function View(): State
      reads this, live.Values
    {
      State(NetView(), map id | id in live :: live[id].View(), kernel)
    }

    /** open_netlink */
    method OpenNetlink(self: PyEtherInfo, env: Env) returns (ok: bool)
      modifies `nlconnection, `nlconnectionUsers, `log, self`nlcActive
      ensures (NetView(), self.nlcActive, ok) == Open(old(NetView()), old(self.nlcActive), env)
      ensures ok ==> nlconnection
    {
      if nlconnection {
        if self.nlcActive == 0 {
          nlconnectionUsers := (nlconnectionUsers + 1) % WORD;
        }
        self.nlcActive := 1;
        return true;
      }
      nlconnection := env.socketOk;
      if nlconnection {
        log := log + [Opened];
        if !env.connectOk {
          return false;
        }
        nlconnectionUsers := (nlconnectionUsers + 1) % WORD;
        self.nlcActive := 1;
        return true;
      } else {
        return false;
      }
    }

    /** get_nlc: its assertion is a precondition here, discharged at every call. */
    method GetNlc()
      requires nlconnection
    {
    }

    /** close_netlink */
    method CloseNetlink(self: PyEtherInfo)
      modifies `nlconnection, `nlconnectionUsers, `log, self`nlcActive
      ensures NetView() == Close(old(NetView()))
      ensures self.nlcActive == if old(nlconnection) then 0 else old(self.nlcActive)
    {
      if !nlconnection {
        return;
      }
      self.nlcActive := 0;
      nlconnectionUsers := (nlconnectionUsers - 1) % WORD;
      if nlconnectionUsers > 0 {
        return;
      }
      log := log + [Closed];
      nlconnection := false;
    }

    /** _set_device_index */
    method SetDeviceIndex(self: PyEtherInfo, env: Env) returns (err: Option<Error>)
      requires nlconnection
      modifies self`index
      ensures (self.index, err) == ResolveIndex(old(self.View()), kernel, env)
    {
      if self.index < 0 {
        GetNlc();
        if !env.nameCacheOk {
          return Some(CacheFailed);
        }
        var link := FindLink(kernel.links, self.device);
        if link.None? {
          return Some(NoDevice);
        }
        self.index := link.value.ifindex;
        if self.index <= 0 {
          return Some(NoDevice);
        }
      }
      return None;
    }

    /** callback_nl_link */
    method CallbackNlLink(link: Link, self: PyEtherInfo)
      modifies self`hwaddress
      ensures self.hwaddress
           == if old(self.hwaddress).Some? then old(self.hwaddress) else Some(link.hwaddr)
    {
      if self.hwaddress.Some? {
        return;
      }
      self.hwaddress := Some(link.hwaddr);
    }

    /** nl_cache_foreach_filter over the links with callback_nl_link */
    method ForeachLink(self: PyEtherInfo)
      modifies self`hwaddress
      ensures self.hwaddress
           == if old(self.hwaddress).Some? then old(self.hwaddress)
              else Fetched(kernel.links, self.index)
    {
      for i := 0 to |kernel.links|
        invariant self.hwaddress
               == if old(self.hwaddress).Some? then old(self.hwaddress)
                  else Fetched(kernel.links[..i], self.index)
      {
        FirstIndexedGrows(kernel.links[..i], kernel.links[i], self.index);
        assert kernel.links[..i] + [kernel.links[i]] == kernel.links[..i + 1];
        if kernel.links[i].ifindex == self.index {
          CallbackNlLink(kernel.links[i], self);
        }
      }
      assert kernel.links[..|kernel.links|] == kernel.links;
    }

    /** nl_cache_foreach_filter over the addresses with callback_nl_address */
    method ForeachAddress(index: int, query: Query) returns (addrlist: seq<Address>)
      ensures addrlist == Select(kernel.addrs, index, query)
    {
      addrlist := [];
      for i := 0 to |kernel.addrs|
        invariant addrlist == Select(kernel.addrs[..i], index, query)
      {
        var rtaddr := kernel.addrs[i];
        assert kernel.addrs[..i + 1][..i] == kernel.addrs[..i];
        if rtaddr.ifindex == index && rtaddr.family == query {
          if rtaddr.family == Inet || rtaddr.family == Inet6 {
            addrlist := addrlist + [rtaddr];
          }
        }
      }
      assert kernel.addrs[..|kernel.addrs|] == kernel.addrs;
    }

    /** get_etherinfo_link */
    method GetEtherinfoLink(self: PyEtherInfo, env: Env) returns (err: Option<Error>)
      requires Owns(self)
      modifies `nlconnection, `nlconnectionUsers, `log, self
      ensures Valid()
      ensures View() == Apply(old(View()), QueryLink(self.id, env))
      ensures err == LinkQuery(old(NetView()), old(self.View()), kernel, env).2
    {
      var ok := OpenNetlink(self, env);
      if !ok {
        Rest(self);
        return Some(NoNetlink);
      }
      err := SetDeviceIndex(self, env);
      if err.Some? {
        Rest(self);
        return;
      }
      GetNlc();
      if !env.tableOk {
        Rest(self);
        return Some(CacheFailed);
      }
      ForeachLink(self);
      Rest(self);
      return None;
    }

    /** get_etherinfo_address */
    method GetEtherinfoAddress(self: PyEtherInfo, query: Query, env: Env)
      returns (r: Result<seq<Address>, Error>)
      requires Owns(self)
      modifies `nlconnection, `nlconnectionUsers, `log, self
      ensures Valid()
      ensures View() == Apply(old(View()), QueryAddress(self.id, query, env))
      ensures r == AddressQuery(old(NetView()), old(self.View()), kernel, query, env).2
    {
      var ok := OpenNetlink(self, env);
      if !ok {
        Rest(self);
        return Err(NoNetlink);
      }
      var err := SetDeviceIndex(self, env);
      if err.Some? {
        Rest(self);
        return Err(err.value);
      }
      GetNlc();
      if !env.tableOk {
        Rest(self);
        return Err(CacheFailed);
      }
      var addrlist := ForeachAddress(self.index, query);
      Rest(self);
      return Ok(addrlist);
    }

    /** get_ipv4_addr, get_ipv4_mask and get_ipv4_bcast: each asks afresh. */
    method GetIpv4Addr(self: PyEtherInfo, env: Env) returns (r: Result<Option<string>, Error>)
      requires Owns(self)
      modifies `nlconnection, `nlconnectionUsers, `log, self
      ensures Valid() && View() == Apply(old(View()), QueryAddress(self.id, Inet, env))
      ensures var answer := AddressQuery(old(NetView()), old(self.View()), kernel, Inet, env).2;
              r == if answer.Ok? then Ok(AddressOf(answer.value)) else Err(answer.error)
    {
      var addrlist := GetEtherinfoAddress(self, Inet, env);
      if addrlist.Err? { return Err(addrlist.error); }
      var last := LastAddress(addrlist.value);
      return if last.Some? then Ok(Some(last.value.local)) else Ok(None);
    }

    method GetIpv4Mask(self: PyEtherInfo, env: Env) returns (r: Result<int, Error>)
      requires Owns(self)
      modifies `nlconnection, `nlconnectionUsers, `log, self
      ensures Valid() && View() == Apply(old(View()), QueryAddress(self.id, Inet, env))
      ensures var answer := AddressQuery(old(NetView()), old(self.View()), kernel, Inet, env).2;
              r == if answer.Ok? then Ok(MaskOf(answer.value)) else Err(answer.error)
    {
      var addrlist := GetEtherinfoAddress(self, Inet, env);
      if addrlist.Err? { return Err(addrlist.error); }
      var last := LastAddress(addrlist.value);
      return if last.Some? then Ok(last.value.prefixlen) else Ok(0);
    }

    method GetIpv4Bcast(self: PyEtherInfo, env: Env) returns (r: Result<string, Error>)
      requires Owns(self)
      modifies `nlconnection, `nlconnectionUsers, `log, self
      ensures Valid() && View() == Apply(old(View()), QueryAddress(self.id, Inet, env))
      ensures var answer := AddressQuery(old(NetView()), old(self.View()), kernel, Inet, env).2;
              r == if answer.Ok? then Ok(BroadcastOf(answer.value)) else Err(answer.error)
    {
      var addrlist := GetEtherinfoAddress(self, Inet, env);
      if addrlist.Err? { return Err(addrlist.error); }
      var last := LastAddress(addrlist.value);
      if last.Some? {
        if last.value.broadcast.Some? {
          return Ok(last.value.broadcast.value);
        }
      }
      return Ok("0.0.0.0");
    }

    /** The creation step of get_interfaces_info, for one requested name. */
    method NewEtherInfo(ghost id: nat, device: string, garbage: u16) returns (self: PyEtherInfo)
      requires Valid() && id !in live
      modifies `live
      ensures Valid() && fresh(self) && self.id == id
      ensures live == old(live)[id := self]
      ensures View() == Apply(old(View()), Create(id, device, garbage))
    {
      self := new PyEtherInfo(id, device, garbage);
      live := live[id := self];
      assert View().objs == old(View()).objs[id := self.View()];
    }

    /** _ethtool_etherinfo_dealloc */
    method EtherinfoDealloc(self: PyEtherInfo)
      requires Owns(self)
      modifies this, self
      ensures Valid()
      ensures View() == Apply(old(View()), Dealloc(self.id))
    {
      CloseNetlink(self);
      self.hwaddress := None;
      live := live - {self.id};
      assert View().objs == old(View()).objs - {self.id};
    }

    /** Only `self` has changed among the objects alive since the entry point began. */
    twostate lemma Rest(self: PyEtherInfo)
      requires Owns(self) && old(Owns(self))
      requires unchanged(`live)
      requires forall id :: id in live && id != self.id ==> unchanged(live[id])
      ensures View().objs == old(View()).objs[self.id := self.View()]
    {
    }
  }

  function Fetched(links: seq<Link>, index: int): Option<string> {
    var found := FirstIndexed(links, index);
    if found.Some? then Some(found.value.hwaddr) else None
  }

  lemma FirstIndexedGrows(links: seq<Link>, link: Link, index: int)
    ensures FirstIndexed(links + [link], index)
         == if FirstIndexed(links, index).Some? then FirstIndexed(links, index)
            else if link.ifindex == index then Some(link) else None
  {
    if links != [] {
      assert (links + [link])[1..] == links[1..] + [link];
      FirstIndexedGrows(links[1..], link, index);
    }
  }
}
