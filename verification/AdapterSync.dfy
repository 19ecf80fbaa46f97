/** The client's adapter: brought up to date incrementally by config responses, and taken down by the service API. */
module AdapterSync {
  import opened Wrappers
  import opened Networks

  /** The interface addresses and route targets that are set on the virtual adapter. */
  datatype Adapter = Adapter(addresses: set<string>, routes: set<string>)

  const BARE := Adapter({}, {})

  predicate IsDefault(target: string) {
    target == "0.0.0.0/0" || target == "::/0"
  }

  function Elements(s: seq<string>): set<string> {
    set x | x in s
  }

  function Targets(routes: seq<Route>): set<string> {
    set r | r in routes :: r.target
  }

  predicate HasTarget(routes: seq<Route>, target: string)
    ensures HasTarget(routes, target) == (target in Targets(routes))
  {
    exists r :: r in routes && r.target == target
  }

  lemma NoTargets()
    ensures Targets([]) == {}
  {
  }

  lemma TargetsUpTo(routes: seq<Route>, i: nat)
    requires i < |routes|
    ensures Targets(routes[..i + 1]) == Targets(routes[..i]) + {routes[i].target}
  {
  }

  function Allowed(net: Network, targets: set<string>): set<string> {
    set t | t in targets && (net.allowDefault || !IsDefault(t))
  }

  /** What a full rewrite would put on the adapter. */
  function Desired(net: Network): Adapter {
    Adapter(Elements(net.addresses), Allowed(net, Targets(net.routes)))
  }

  // ----- Specification --------------------------------------------------------------------------

  function Flushed(a: Adapter, net: Network): Adapter {
    Adapter(a.addresses - Elements(net.addresses), a.routes - Targets(net.routes))
  }

  /** The incremental update: obsolete entries out, entries that are new, or not yet trusted to be there, in. */
  function Updated(a: Adapter, prev: Network, net: Network): Adapter {
    var oldIps, ips := Elements(prev.addresses), Elements(net.addresses);
    var oldTargets, targets := Targets(prev.routes), Targets(net.routes);
    var all := prev.status != Status.Ok;
    Adapter(a.addresses - (oldIps - ips) + (if all then ips else ips - oldIps),
            a.routes - (oldTargets - targets) + Allowed(net, if all then targets else targets - oldTargets))
  }

  function Reconciled(a: Adapter, prev: Network, net: Network, authorized: bool): Adapter {
    if authorized && net.allowManaged then Updated(a, prev, net)
    else if prev.status == Status.Ok && !authorized then Flushed(a, prev)
    else a
  }

  datatype Client = Client(networks: Nets, adapter: Adapter)

  function Responded(env: Env, s: Client, nwid: string, c: Config): Client {
    var id := env.clean(nwid);
    if id !in s.networks then s
    else
      var net := Configured(env, s.networks[id], c);
      Client(s.networks[net.nwid := net], Reconciled(s.adapter, s.networks[id], net, c.authorized))
  }

  const NO_SETTINGS := Settings(None, None, None, None, None)

  function ApiJoined(env: Env, s: Client, nwid: string, u: Settings): Client {
    var id := env.clean(nwid);
    if u.connected == Some(false) && id in s.networks then
      Client(Called(env, s.networks, Disconnect(nwid)), Flushed(s.adapter, s.networks[id]))
    else
      var joined := Called(env, s.networks, Join(nwid));
      s.(networks := if IsNetworkId(id) && u != NO_SETTINGS then Called(env, joined, Update(nwid, u)) else joined)
  }

  function ApiLeft(env: Env, s: Client, nwid: string): Client {
    var id := env.clean(nwid);
    if id in s.networks then Client(s.networks - {id}, Flushed(s.adapter, s.networks[id])) else s
  }

  // ----- Code -----------------------------------------------------------------------------------

  class AdapterClient {
    const manager: NetworkManager
    var addresses: set<string>
    var routes: set<string>

    function State(): Client
      reads this, manager
    {
      Client(manager.networks, Adapter(addresses, routes))
    }

    constructor (manager: NetworkManager)
      ensures this.manager == manager && addresses == {} && routes == {}
    {
      this.manager, addresses, routes := manager, {}, {};
    }

    method Flush(ips: seq<string>, rs: seq<Route>)
      modifies `addresses, `routes
      ensures addresses == old(addresses) - Elements(ips)
      ensures routes == old(routes) - Targets(rs)
    {
      for i := 0 to |ips|
        invariant addresses == old(addresses) - Elements(ips[..i]) && routes == old(routes)
      {
        addresses := addresses - {ips[i]};
      }
      assert ips[..|ips|] == ips;
      for i := 0 to |rs|
        invariant routes == old(routes) - Targets(rs[..i]) && addresses == old(addresses) - Elements(ips)
      {
        routes := routes - {rs[i].target};
      }
      assert rs[..|rs|] == rs;
    }

    method UpdateAddresses(prevIps: seq<string>, ips: seq<string>, wasAuthorized: bool)
      modifies `addresses
      ensures addresses == old(addresses) - (Elements(prevIps) - Elements(ips))
                           + (if wasAuthorized then Elements(ips) - Elements(prevIps) else Elements(ips))
    {
      for i := 0 to |prevIps|
        invariant addresses == old(addresses) - (Elements(prevIps[..i]) - Elements(ips))
      {
        if prevIps[i] !in ips {
          addresses := addresses - {prevIps[i]};
        }
      }
      assert prevIps[..|prevIps|] == prevIps;
      ghost var kept := addresses;
      for i := 0 to |ips|
        invariant addresses ==
          kept + (if wasAuthorized then Elements(ips[..i]) - Elements(prevIps) else Elements(ips[..i]))
      {
        if ips[i] !in prevIps || !wasAuthorized {
          addresses := addresses + {ips[i]};
        }
      }
      assert ips[..|ips|] == ips;
    }

    method UpdateRoutes(prevRoutes: seq<Route>, net: Network, wasAuthorized: bool)
      modifies `routes
      ensures var targets, oldTargets := Targets(net.routes), Targets(prevRoutes);
        routes == old(routes) - (oldTargets - targets)
                  + Allowed(net, if wasAuthorized then targets - oldTargets else targets)
    {
      hide Targets;
      NoTargets();
      for i := 0 to |prevRoutes|
        invariant routes == old(routes) - (Targets(prevRoutes[..i]) - Targets(net.routes))
      {
        TargetsUpTo(prevRoutes, i);
        if !HasTarget(net.routes, prevRoutes[i].target) {
          routes := routes - {prevRoutes[i].target};
        }
      }
      assert prevRoutes[..|prevRoutes|] == prevRoutes;
      ghost var kept := routes;
      for i := 0 to |net.routes|
        invariant var targets, oldTargets := Targets(net.routes[..i]), Targets(prevRoutes);
          routes == kept + Allowed(net, if wasAuthorized then targets - oldTargets else targets)
      {
        var target := net.routes[i].target;
        TargetsUpTo(net.routes, i);
        if !HasTarget(prevRoutes, target) || !wasAuthorized {
          if IsDefault(target) && !net.allowDefault {
            continue;
          }
          routes := routes + {target};
        }
      }
      assert net.routes[..|net.routes|] == net.routes;
    }

    method OnNetworkConfigResponse(nwid: string, config: Config, io: Io)
      modifies this, manager
      ensures State() == Responded(manager.env, old(State()), nwid, config)
      ensures manager.env.clean(nwid) in old(manager.networks) ==>
        var before := old(manager.networks)[manager.env.clean(nwid)];
        && before.nwid in manager.networks
        && manager.networks[before.nwid].addresses == config.ips
        && manager.networks[before.nwid].routes == (if config.routes.Some? then config.routes.value else before.routes)
        && manager.networks[before.nwid].token == config.token
        && (manager.networks[before.nwid].status == Status.Ok <==> config.authorized)
    {
      var found := manager.Get(nwid);
      if found == None {
        return;
      }
      var prev := found.value;
      var wasAuthorized := prev.status == Status.Ok;
      var net := Configured(manager.env, prev, config);
      manager.UpdateNetwork(net, io);
      if config.authorized && net.allowManaged {
        UpdateAddresses(prev.addresses, net.addresses, wasAuthorized);
        UpdateRoutes(prev.routes, net, wasAuthorized);
      } else if wasAuthorized && !config.authorized {
        Flush(prev.addresses, prev.routes);
      }
    }

    method JoinNetwork(nwid: string, settings: Settings, io: Io) returns (r: Result<Network>)
      modifies this, manager
      ensures State() == ApiJoined(manager.env, old(State()), nwid, settings)
      ensures r.Ok? == (IsNetworkId(manager.env.clean(nwid))
                        || (settings.connected == Some(false) && manager.env.clean(nwid) in old(manager.networks)))
      ensures r.Ok? ==>
        manager.env.clean(nwid) in manager.networks && r.value == manager.networks[manager.env.clean(nwid)]
    {
      if settings.connected == Some(false) {
        var disconnected := manager.Disconnect(nwid, io);
        if disconnected.Some? {
          Flush(disconnected.value.addresses, disconnected.value.routes);
          return Result.Ok(disconnected.value);
        }
      }
      r := manager.Join(nwid, io);
      if r.Ok? && settings != NO_SETTINGS {
        var updated := manager.UpdateSettings(nwid, settings, io);
        r := Result.Ok(updated.value);
      }
    }

    method LeaveNetwork(nwid: string, io: Io) returns (deleted: bool)
      modifies this, manager
      ensures State() == ApiLeft(manager.env, old(State()), nwid)
      ensures deleted == (manager.env.clean(nwid) in old(manager.networks))
    {
      var existing := manager.Get(nwid);
      if existing.Some? {
        if existing.value.connected || existing.value.status != Disconnected {
          var _ := manager.Disconnect(nwid, io);
        }
        Flush(existing.value.addresses, existing.value.routes);
      }
      var left := manager.Leave(nwid, io);
      deleted := left.Some?;
    }

    /** At start, the adapter is set up from the records as they were saved. */
    method PreconfigureAtBoot(net: Network)
      modifies `addresses, `routes
      ensures Adapter(addresses, routes) == Booted(Adapter(old(addresses), old(routes)), net)
    {
      hide Targets;
      NoTargets();
      if net.connected && net.allowManaged {
        for i := 0 to |net.addresses|
          invariant addresses == old(addresses) + Elements(net.addresses[..i]) && routes == old(routes)
        {
          addresses := addresses + {net.addresses[i]};
        }
        assert net.addresses[..|net.addresses|] == net.addresses;
        for i := 0 to |net.routes|
          invariant routes == old(routes) + Allowed(net, Targets(net.routes[..i]))
          invariant addresses == old(addresses) + Elements(net.addresses)
        {
          var target := net.routes[i].target;
          TargetsUpTo(net.routes, i);
          if IsDefault(target) && !net.allowDefault {
            continue;
          }
          routes := routes + {target};
        }
        assert net.routes[..|net.routes|] == net.routes;
      }
    }
  }

  function Booted(a: Adapter, net: Network): Adapter {
    if net.connected && net.allowManaged
    then Adapter(a.addresses + Desired(net).addresses, a.routes + Desired(net).routes) else a
  }
}
