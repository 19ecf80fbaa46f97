/** Whole runs over the networks of a node: connection intents, restarts, and config writers that are not atomic. */
module NetworkRuns {
  import opened Wrappers
  import opened Networks

  // ----- What a restart finds -------------------------------------------------------------------

  predicate IsReadable(disk: Disk, f: File) {
    f.Json? && f in disk && disk[f].Some?
  }

  ghost predicate HasRecord(disk: Disk, id: string) {
    exists f :: IsReadable(disk, f) && disk[f].value.nwid == id
  }

  ghost predicate HasConf(env: Env, disk: Disk, id: string) {
    IsNetworkId(id) && exists f :: f in disk && f.Conf? && env.clean(f.stem) == id
  }

  lemma {:induction false} LoadJsonsHas(env: Env, disk: Disk, paths: seq<File>, id: string)
    ensures var nets := LoadJsons(env, disk, paths, map[]);
      && (id in nets <==> exists f :: f in paths && IsReadable(disk, f) && disk[f].value.nwid == id)
      && (id in nets ==>
            exists f :: f in paths && IsReadable(disk, f) && disk[f].value.nwid == id
                        && nets[id] == Restored(env, disk[f].value))
  {
    hide Restored;
    if paths != [] {
      var n := |paths| - 1;
      LoadJsonsHas(env, disk, paths[..n], id);
      assert paths == paths[..n] + [paths[n]];
    }
  }

  lemma {:induction false} LoadConfsHas(env: Env, paths: seq<File>, nets: Nets, id: string)
    ensures var nets' := LoadConfs(env, paths, nets);
      && (id in nets' <==>
            id in nets || (IsNetworkId(id) && exists f :: f in paths && f.Conf? && env.clean(f.stem) == id))
      && (id in nets' ==> nets'[id] == if id in nets then nets[id] else Fresh(env, id))
  {
    hide Fresh, IsNetworkId;
    if paths != [] {
      var n := |paths| - 1;
      LoadConfsHas(env, paths[..n], nets, id);
      assert paths == paths[..n] + [paths[n]];
    }
  }

  /**
   * For any files in any order: a network comes back if it has a readable record or a .conf file, and as the record
   * says whenever there is one. So a .conf file never revives or reconnects a network that has a record.
   */
  lemma LoadedExactly(env: Env, disk: Disk, paths: seq<File>, id: string)
    requires Lists(paths, disk)
    ensures var nets := Loaded(env, disk, paths);
      && (id in nets <==> HasRecord(disk, id) || HasConf(env, disk, id))
      && (HasRecord(disk, id) ==>
            exists f :: IsReadable(disk, f) && disk[f].value.nwid == id && nets[id] == Restored(env, disk[f].value))
      && (id in nets && !HasRecord(disk, id) ==> nets[id] == Fresh(env, id))
  {
    hide Fresh, IsNetworkId, Restored;
    LoadJsonsHas(env, disk, paths, id);
    LoadConfsHas(env, paths, LoadJsons(env, disk, paths, map[]), id);
    assert forall f :: f in paths <==> f in disk by {
      assert forall f :: f in paths <==> f in set g | g in paths;
    }
  }

  /** Records are in files of their own name, and names of .conf files are in the form that ids are cleaned to. */
  ghost predicate IsWellNamed(env: Env, disk: Disk) {
    && (forall f :: IsReadable(disk, f) ==> disk[f].value.nwid == f.stem)
    && (forall f :: f in disk && f.Conf? && IsNetworkId(env.clean(f.stem)) ==> env.clean(f.stem) == f.stem)
  }

  function ReloadAt(env: Env, disk: Disk, id: string): Option<Network> {
    if IsReadable(disk, Json(id)) then Some(Restored(env, disk[Json(id)].value))
    else if Conf(id) in disk && IsNetworkId(id) then Some(Fresh(env, id))
    else None
  }

  lemma ReloadedAt(env: Env, disk: Disk, paths: seq<File>, id: string)
    requires env.Laws() && Lists(paths, disk) && IsWellNamed(env, disk)
    ensures var nets := Loaded(env, disk, paths);
      ReloadAt(env, disk, id) == if id in nets then Some(nets[id]) else None
  {
    hide Fresh, IsNetworkId, Restored;
    LoadedExactly(env, disk, paths, id);
    assert HasRecord(disk, id) <==> IsReadable(disk, Json(id)) by {
      assert IsReadable(disk, Json(id)) ==> disk[Json(id)].value.nwid == id;
    }
    assert HasConf(env, disk, id) <==> Conf(id) in disk && IsNetworkId(id) by {
      if HasConf(env, disk, id) {
        var f :| f in disk && f.Conf? && env.clean(f.stem) == id;
        assert f == Conf(id);
      }
    }
  }

  // ----- What each change leaves alone ----------------------------------------------------------

  /** After a config response: what it brings, what it lacks as before, and everything that is not configuration. */
  lemma ResponseIsStored(env: Env, net: Network, c: Config)
    ensures var r := Configured(env, net, c);
      && r.addresses == c.ips && r.token == c.token
      && r.routes == (match c.routes case Some(routes) => routes case None => net.routes)
      && r.mtu == (match c.mtu case Some(m) => m % 4294967296 case None => net.mtu)
      && (r.status == Status.Ok <==> c.authorized) && (r.status == AccessDenied <==> !c.authorized)
      && r.name == (if c.name.Some? && env.trim(c.name.value) != "" then env.trim(c.name.value) else net.name)
      && r == net.(addresses := r.addresses, token := r.token, routes := r.routes, mtu := r.mtu, status := r.status,
                   name := r.name)
  {
  }

  /** A config packet brings a name, a status, and addresses unless it has none; all else stays. */
  lemma PacketIsStored(env: Env, net: Network, c: Config)
    ensures var r := ConfiguredByPacket(env, net, c);
      && r.addresses == (if c.ips != [] then c.ips else net.addresses)
      && (r.status == Status.Ok <==> c.authorized) && (r.status == AccessDenied <==> !c.authorized)
      && r.name == Configured(env, net, c).name
      && r == net.(addresses := r.addresses, status := r.status, name := r.name)
  {
  }

  /** Everything but the status, the intent and the flags. */
  predicate SameConfig(a: Network, b: Network) {
    a == b.(status := a.status, connected := a.connected, allowManaged := a.allowManaged, allowGlobal := a.allowGlobal,
            allowDefault := a.allowDefault, allowDns := a.allowDns)
  }

  predicate SameFlags(a: Network, b: Network) {
    && a.allowManaged == b.allowManaged && a.allowGlobal == b.allowGlobal
    && a.allowDefault == b.allowDefault && a.allowDns == b.allowDns
  }

  /** Calls keep the configuration of a known network, and only settings touch its flags, each its own. */
  lemma CallsKeepConfig(env: Env, nets: Nets, call: Call)
    requires env.clean(call.nwid) in nets && Touched(env, nets, call).Some?
    ensures var before, r := nets[env.clean(call.nwid)], Touched(env, nets, call).value;
      && SameConfig(r, before)
      && (!call.Update? ==> SameFlags(r, before))
      && (call.Join? || call.Connect? ==> r.connected) && (call.Disconnect? ==> !r.connected)
      && (call.Update? ==>
            var u := call.settings;
            && r.allowManaged == (match u.managed case Some(v) => v case None => before.allowManaged)
            && r.allowGlobal == (match u.global case Some(v) => v case None => before.allowGlobal)
            && r.allowDefault == (match u.default case Some(v) => v case None => before.allowDefault)
            && r.allowDns == (match u.dns case Some(v) => v case None => before.allowDns)
            && r.connected == (match u.connected case Some(v) => v case None => before.connected)
            && (u.connected == None ==> r.status == before.status))
  {
    hide IsNetworkId, Fresh;
  }

  /** A first join invents nothing: no addresses, no routes, no token; its MAC is this node's for this network. */
  lemma FirstJoinIsBlank(env: Env, nets: Nets, nwid: string)
    requires env.clean(nwid) !in nets && IsNetworkId(env.clean(nwid))
    ensures var id := env.clean(nwid);
      && Touched(env, nets, Join(nwid)).Some?
      && var r := Touched(env, nets, Join(nwid)).value;
      && r.nwid == id && r.mac == env.mac(id, env.node) && r.mtu == 2800 && r.connected && r.broadcast
      && r.status == RequestingConfiguration && r.addresses == [] && r.routes == [] && r.token == None
      && r.allowManaged && !r.allowGlobal && !r.allowDefault && !r.allowDns
      && r.name == "ZT-" + id && r.port == "zt-" + id[..6]
  {
    hide IsNetworkId;
    assert |env.clean(nwid)| == 16 by { SixteenLong(env.clean(nwid)); }
  }

  lemma SixteenLong(id: string)
    requires IsNetworkId(id)
    ensures |id| == 16
  {
  }

  /** A record comes back from its file as it was, but for its status, and for a MAC that it lacked. */
  lemma RestoredIsSaved(env: Env, net: Network)
    ensures var r := Restored(env, net);
      && r == net.(status := r.status, mac := r.mac)
      && r.mac == (if net.mac != "" then net.mac else env.mac(net.nwid, env.node))
      && r.status == (if net.connected then RequestingConfiguration else Disconnected)
  {
  }

  // ----- Atomic operations ----------------------------------------------------------------------

  datatype Store = Store(networks: Nets, disk: Disk)

  /** A call, a config response or packet for a network, or a restart that lists the directory in some order. */
  datatype Op = Api(call: Call) | Receive(nwid: string, config: Config, byPacket: bool) | Restart(paths: seq<File>)

  /** Config never changes what a network is, nor whether it is meant to be connected. */
  function ConfiguredBy(env: Env, net: Network, c: Config, byPacket: bool): (r: Network)
    ensures r.nwid == net.nwid && r.mac == net.mac && r.connected == net.connected
    ensures r.status == StatusFor(c.authorized)
  {
    if byPacket then ConfiguredByPacket(env, net, c) else Configured(env, net, c)
  }

  function Saved(s: Store, id: string, net: Network): Store {
    Store(s.networks[id := net], Persisted(s.disk, net, WORKS))
  }

  function Apply(env: Env, s: Store, op: Op): Store {
    match op
    case Api(call) =>
      var id := env.clean(call.nwid);
      if call.Leave? then
        if id in s.networks then Store(s.networks - {id}, Erased(s.disk, s.networks[id].nwid, WORKS)) else s
      else
        (match Touched(env, s.networks, call) case Some(net) => Saved(s, id, net) case None => s)
    case Receive(nwid, c, byPacket) =>
      var id := env.clean(nwid);
      if id in s.networks then
        var net := ConfiguredBy(env, s.networks[id], c, byPacket);
        Saved(s, net.nwid, net)
      else s
    case Restart(paths) => if Lists(paths, s.disk) then s.(networks := Loaded(env, s.disk, paths)) else s
  }

  function Run(env: Env, s: Store, ops: seq<Op>): Store
    decreases |ops|
  {
    if ops == [] then s else Run(env, Apply(env, s, ops[0]), ops[1..])
  }

  predicate IsKeyed(nets: Nets) {
    forall id :: id in nets ==> nets[id].nwid == id && nets[id].mac != ""
  }

  /** What a restart would load is what is in memory, with its status worked out anew. */
  ghost predicate InSync(env: Env, s: Store) {
    && IsKeyed(s.networks) && IsWellNamed(env, s.disk)
    && forall id :: ReloadAt(env, s.disk, id) == if id in s.networks then Some(Restored(env, s.networks[id])) else None
  }

  lemma SavedReloadsAt(env: Env, disk: Disk, net: Network, id: string)
    ensures ReloadAt(env, Persisted(disk, net, WORKS), id) ==
      if id == net.nwid then Some(Restored(env, net)) else ReloadAt(env, disk, id)
  {
    hide Restored, Fresh, IsNetworkId;
  }

  lemma SavedIsWellNamed(env: Env, disk: Disk, net: Network)
    requires IsWellNamed(env, disk) && (IsNetworkId(env.clean(net.nwid)) ==> env.clean(net.nwid) == net.nwid)
    ensures IsWellNamed(env, Persisted(disk, net, WORKS))
  {
    hide IsNetworkId;
    var disk' := Persisted(disk, net, WORKS);
    assert forall f :: f in disk' && f != Json(net.nwid) && f != Conf(net.nwid) ==> f in disk && disk'[f] == disk[f];
  }

  lemma SavedStaysInSync(env: Env, s: Store, id: string, net: Network)
    requires env.Laws() && InSync(env, s) && net.nwid == id && net.mac != ""
    requires IsNetworkId(env.clean(id)) ==> env.clean(id) == id
    ensures InSync(env, Saved(s, id, net))
  {
    hide Restored, Fresh, IsNetworkId, IsWellNamed, Persisted, ReloadAt;
    SavedIsWellNamed(env, s.disk, net);
    forall id'
      ensures ReloadAt(env, Persisted(s.disk, net, WORKS), id') ==
        if id' == net.nwid then Some(Restored(env, net)) else ReloadAt(env, s.disk, id')
    {
      SavedReloadsAt(env, s.disk, net, id');
    }
  }

  lemma ErasedStaysInSync(env: Env, s: Store, id: string)
    requires InSync(env, s)
    ensures InSync(env, Store(s.networks - {id}, Erased(s.disk, id, WORKS)))
  {
    hide Restored, Fresh, IsNetworkId;
  }

  lemma LoadedIsInSync(env: Env, disk: Disk, paths: seq<File>)
    requires env.Laws() && IsWellNamed(env, disk) && Lists(paths, disk)
    ensures InSync(env, Store(Loaded(env, disk, paths), disk))
  {
    hide IsNetworkId, Loaded;
    var nets := Loaded(env, disk, paths);
    forall id
      ensures ReloadAt(env, disk, id) == if id in nets then Some(nets[id]) else None
    {
      ReloadedAt(env, disk, paths, id);
    }
  }

  lemma TouchedIsKeyed(env: Env, nets: Nets, call: Call)
    requires env.Laws() && IsKeyed(nets) && Touched(env, nets, call).Some?
    ensures var net := Touched(env, nets, call).value;
      net.nwid == env.clean(call.nwid) && net.mac != ""
  {
  }

  lemma ApplyStaysInSync(env: Env, s: Store, op: Op)
    requires env.Laws() && InSync(env, s)
    ensures InSync(env, Apply(env, s, op))
  {
    hide Restored, Fresh, IsNetworkId, Touched, Loaded, Persisted, Erased, InSync;
    match op {
      case Api(call) =>
        var id := env.clean(call.nwid);
        assert IsKeyed(s.networks) by { Keyed(env, s); }
        if call.Leave? {
          if id in s.networks {
            ErasedStaysInSync(env, s, id);
          }
        } else if Touched(env, s.networks, call).Some? {
          TouchedIsKeyed(env, s.networks, call);
          SavedStaysInSync(env, s, id, Touched(env, s.networks, call).value);
        }
      case Receive(nwid, c, byPacket) =>
        var id := env.clean(nwid);
        Keyed(env, s);
        if id in s.networks {
          SavedStaysInSync(env, s, id, ConfiguredBy(env, s.networks[id], c, byPacket));
        }
      case Restart(paths) =>
        Keyed(env, s);
        if Lists(paths, s.disk) {
          LoadedIsInSync(env, s.disk, paths);
        }
    }
  }

  lemma Keyed(env: Env, s: Store)
    requires InSync(env, s)
    ensures IsKeyed(s.networks) && IsWellNamed(env, s.disk)
  {
  }

  lemma {:induction false} RunsStayInSync(env: Env, s: Store, ops: seq<Op>)
    requires env.Laws() && InSync(env, s)
    ensures InSync(env, Run(env, s, ops))
    decreases |ops|
  {
    hide InSync, Apply;
    if ops != [] {
      ApplyStaysInSync(env, s, ops[0]);
      RunsStayInSync(env, Apply(env, s, ops[0]), ops[1..]);
    }
  }

  function RestartStatus(net: Network): Status {
    if net.connected then RequestingConfiguration else Disconnected
  }

  /** From any well-named directory, after any operations, a restart brings back the same networks and intents. */
  lemma RestartRestores(env: Env, disk: Disk, paths: seq<File>, ops: seq<Op>, paths': seq<File>)
    requires env.Laws() && IsWellNamed(env, disk) && Lists(paths, disk)
    requires Lists(paths', Run(env, Store(Loaded(env, disk, paths), disk), ops).disk)
    ensures var s := Run(env, Store(Loaded(env, disk, paths), disk), ops);
      var nets := Loaded(env, s.disk, paths');
      && nets.Keys == s.networks.Keys
      && forall id :: id in nets ==>
           nets[id] == s.networks[id].(status := RestartStatus(s.networks[id]))
  {
    hide Loaded, Run, IsNetworkId, Fresh;
    LoadedIsInSync(env, disk, paths);
    RunsStayInSync(env, Store(Loaded(env, disk, paths), disk), ops);
    var s := Run(env, Store(Loaded(env, disk, paths), disk), ops);
    LoadedIsInSync(env, s.disk, paths');
    var nets := Loaded(env, s.disk, paths');
    forall id
      ensures id in nets <==> id in s.networks
      ensures id in nets ==>
        nets[id] == s.networks[id].(status := RestartStatus(s.networks[id]))
    {
      ReloadedAt(env, s.disk, paths', id);
    }
  }

  lemma TouchedToken(env: Env, nets: Nets, call: Call)
    requires Touched(env, nets, call).Some?
    ensures var id := env.clean(call.nwid);
      Touched(env, nets, call).value.token == if id in nets then nets[id].token else None
  {
    hide IsNetworkId;
  }

  /** A stored token survives calls, config packets and restarts; only a response replaces it; a new join has none. */
  lemma TokensChangeOnlyByResponse(env: Env, s: Store, op: Op, id: string)
    requires env.Laws() && InSync(env, s) && id in Apply(env, s, op).networks
    ensures Apply(env, s, op).networks[id].token ==
      if id !in s.networks then None
      else if op.Receive? && !op.byPacket && env.clean(op.nwid) == id then op.config.token
      else s.networks[id].token
  {
    hide Fresh, IsNetworkId, Touched, Loaded, Persisted, Erased;
    match op {
      case Api(call) =>
        if !call.Leave? && Touched(env, s.networks, call).Some? {
          TouchedToken(env, s.networks, call);
        }
      case Receive(nwid, c, byPacket) =>
      case Restart(paths) =>
        if Lists(paths, s.disk) {
          ReloadedAt(env, s.disk, paths, id);
        }
    }
  }

  ghost predicate HasOtherRecord(disk: Disk, id: string) {
    exists f :: f != Json(id) && IsReadable(disk, f) && disk[f].value.nwid == id
  }

  ghost predicate HasOtherConf(env: Env, disk: Disk, id: string) {
    IsNetworkId(id) && exists f :: f != Conf(id) && f in disk && f.Conf? && env.clean(f.stem) == id
  }

  /** A network whose files were deleted comes back at a restart exactly through a file under another name. */
  lemma ErasedComesBackExactly(env: Env, disk: Disk, id: string, paths: seq<File>)
    requires Lists(paths, Erased(disk, id, WORKS))
    ensures id in Loaded(env, Erased(disk, id, WORKS), paths)
       <==> HasOtherRecord(disk, id) || HasOtherConf(env, disk, id)
  {
    hide Loaded, IsNetworkId, Lists;
    var disk' := Erased(disk, id, WORKS);
    LoadedExactly(env, disk', paths, id);
    assert forall f :: f in disk' <==> f in disk && f != Json(id) && f != Conf(id);
    assert forall f :: f in disk' ==> disk'[f] == disk[f];
    if HasOtherRecord(disk, id) {
      var f :| f != Json(id) && IsReadable(disk, f) && disk[f].value.nwid == id;
      assert IsReadable(disk', f);
    }
    if HasRecord(disk', id) {
      var f :| IsReadable(disk', f) && disk'[f].value.nwid == id;
      assert IsReadable(disk, f);
    }
  }

  /** A .conf file of another spelling: the network comes back after it has been left. */
  lemma MisnamedConfRevives(env: Env, stem: string) returns (s: Store)
    requires env.Laws() && IsNetworkId(env.clean(stem)) && env.clean(stem) != stem
    ensures var disk: Disk := map[Conf(stem) := None];
      s == Run(env, Store(Loaded(env, disk, [Conf(stem)]), disk), [Api(Leave(stem)), Restart([Conf(stem)])])
    ensures env.clean(stem) in s.networks && s.networks[env.clean(stem)].connected
  {
    var id := env.clean(stem);
    var disk: Disk := map[Conf(stem) := None];
    var paths := [Conf(stem)];
    assert Lists(paths, disk) by {
      assert Conf(stem) in paths && forall f :: f in paths ==> f == Conf(stem);
    }
    var nets := Loaded(env, disk, paths);
    LoadedExactly(env, disk, paths, id);
    assert HasConf(env, disk, id) by { assert Conf(stem) in disk; }
    assert nets[id] == Fresh(env, id);
    var ops := [Api(Leave(stem)), Restart(paths)];
    var s1 := Apply(env, Store(nets, disk), ops[0]);
    assert s1.disk == disk;
    assert ops[1..] == [Restart(paths)] && ops[1..][1..] == [];
    s := Apply(env, s1, ops[1]);
    assert Run(env, s1, ops[1..]) == s;
  }

  // ----- Interrupted file operations ------------------------------------------------------------

  /** A save that stops anywhere leaves the old record or the new one; only a network without one can be made up. */
  lemma InterruptedSave(env: Env, disk: Disk, net: Network, io: Io)
    ensures ReloadAt(env, Persisted(disk, net, io), net.nwid) ==
      if io.dir && io.write && io.rename then Some(Restored(env, net))
      else if ReloadAt(env, disk, net.nwid).None? && io.dir && io.conf && IsNetworkId(net.nwid) then
        Some(Fresh(env, net.nwid))
      else ReloadAt(env, disk, net.nwid)
  {
    hide Restored, Fresh, IsNetworkId;
  }

  /** A leave that stops between its two deletions is forgotten: the network comes back as newly joined. */
  lemma InterruptedLeave(env: Env, disk: Disk, id: string, io: Io)
    requires IsReadable(disk, Json(id)) && Conf(id) in disk && IsNetworkId(id) && io.dir
    ensures ReloadAt(env, Erased(disk, id, io), id) ==
      if !io.eraseJson then ReloadAt(env, disk, id)
      else if io.eraseConf then None
      else Some(Fresh(env, id))
  {
    hide Restored, Fresh, IsNetworkId;
  }

  // ----- Writers that are not atomic ------------------------------------------------------------

  /** A config writer holding the record it will store, a save, or a deletion, still to be performed. */
  datatype Task = Write(net: Network) | Persist(net: Network) | Erase(nwid: string)

  datatype Node = Node(networks: Nets, disk: Disk, tasks: multiset<Task>)

  datatype Step =
    | Do(call: Call)
    | Read(nwid: string, config: Config, byPacket: bool)
    | Perform(task: Task, io: Io)
    | Reboot(paths: seq<File>)

  function Files(env: Env, nets: Nets, call: Call): multiset<Task> {
    var id := env.clean(call.nwid);
    if call.Leave? then if id in nets then multiset{Erase(nets[id].nwid)} else multiset{}
    else match Touched(env, nets, call) case Some(net) => multiset{Persist(net)} case None => multiset{}
  }

  function Next(env: Env, s: Node, step: Step): Node {
    match step
    case Do(call) => s.(networks := Called(env, s.networks, call), tasks := s.tasks + Files(env, s.networks, call))
    case Read(nwid, c, byPacket) =>
      var id := env.clean(nwid);
      if id !in s.networks then s
      else s.(tasks := s.tasks + multiset{Write(ConfiguredBy(env, s.networks[id], c, byPacket))})
    case Perform(task, io) =>
      if task !in s.tasks then s
      else
        var rest := s.tasks - multiset{task};
        (match task
         case Write(net) => s.(networks := s.networks[net.nwid := net], tasks := rest + multiset{Persist(net)})
         case Persist(net) => s.(disk := Persisted(s.disk, net, io), tasks := rest)
         case Erase(nwid) => s.(disk := Erased(s.disk, nwid, io), tasks := rest))
    case Reboot(paths) => if Lists(paths, s.disk) then Node(Loaded(env, s.disk, paths), s.disk, multiset{}) else s
  }

  function After(env: Env, s: Node, steps: seq<Step>): Node
    decreases |steps|
  {
    if steps == [] then s else After(env, Next(env, s, steps[0]), steps[1..])
  }

  predicate ConnectedIsLive(nets: Nets) {
    forall id :: id in nets ==> nets[id].connected ==> !nets[id].status.Disconnected?
  }

  predicate Live(s: Node) {
    && ConnectedIsLive(s.networks)
    && forall t :: t in s.tasks && t.Write? ==> t.net.status.Ok? || t.net.status.AccessDenied?
  }

  lemma LoadedIsLive(env: Env, disk: Disk, paths: seq<File>)
    requires Lists(paths, disk)
    ensures ConnectedIsLive(Loaded(env, disk, paths))
    ensures forall id :: var nets := Loaded(env, disk, paths);
      id in nets && !nets[id].connected ==> nets[id].status.Disconnected?
  {
    hide Loaded, IsNetworkId;
    forall id | id in Loaded(env, disk, paths)
      ensures var net := Loaded(env, disk, paths)[id]; net.connected <==> !net.status.Disconnected?
    {
      LoadedExactly(env, disk, paths, id);
    }
  }

  lemma CalledIsLive(env: Env, nets: Nets, call: Call)
    requires ConnectedIsLive(nets)
    ensures ConnectedIsLive(Called(env, nets, call))
  {
    hide IsNetworkId;
    if call.Leave? {
    } else if Touched(env, nets, call).Some? {
      assert Touched(env, nets, call).value.connected ==> !Touched(env, nets, call).value.status.Disconnected?;
    }
  }

  lemma NewTasks(env: Env, s: Node, step: Step, t: Task)
    requires t in Next(env, s, step).tasks && t !in s.tasks && t.Write?
    ensures t.net.status.Ok? || t.net.status.AccessDenied?
  {
    hide Loaded, Persisted, Erased, IsNetworkId, Called, Touched, ConfiguredBy;
  }

  lemma NextKeepsLive(env: Env, s: Node, step: Step)
    requires Live(s)
    ensures Live(Next(env, s, step))
  {
    hide Loaded, Persisted, Erased, IsNetworkId, Called, Touched, ConfiguredBy;
    var s' := Next(env, s, step);
    if step.Do? {
      CalledIsLive(env, s.networks, step.call);
    }
    if step.Reboot? && Lists(step.paths, s.disk) {
      LoadedIsLive(env, s.disk, step.paths);
    }
    assert ConnectedIsLive(s'.networks);
    forall t | t in s'.tasks && t.Write?
      ensures t.net.status.Ok? || t.net.status.AccessDenied?
    {
      if t !in s.tasks {
        NewTasks(env, s, step, t);
      }
    }
  }

  /** However all these steps interleave, a network meant to be connected is never in status Disconnected. */
  lemma {:induction false} ConnectedIsNeverDisconnected(env: Env, s: Node, steps: seq<Step>)
    requires Live(s)
    ensures ConnectedIsLive(After(env, s, steps).networks) && Live(After(env, s, steps))
    decreases |steps|
  {
    hide Live, Next, ConnectedIsLive;
    if steps == [] {
      LiveIsConnected(s);
    } else {
      NextKeepsLive(env, s, steps[0]);
      ConnectedIsNeverDisconnected(env, Next(env, s, steps[0]), steps[1..]);
    }
  }

  lemma LiveIsConnected(s: Node)
    requires Live(s)
    ensures ConnectedIsLive(s.networks)
  {
  }

  predicate IsTidy(nets: Nets) {
    forall id :: id in nets ==> (nets[id].connected <==> !nets[id].status.Disconnected?)
  }

  /** The converse is lost in one way only: a writer stores the record of a network that was disconnected when read. */
  lemma TidyStepExactly(env: Env, s: Node, step: Step)
    requires Live(s) && IsTidy(s.networks)
    ensures IsTidy(Next(env, s, step).networks)
       <==> !(step.Perform? && step.task in s.tasks && step.task.Write? && !step.task.net.connected)
  {
    hide Loaded, Persisted, Erased, IsNetworkId;
    if step.Reboot? && Lists(step.paths, s.disk) {
      LoadedIsLive(env, s.disk, step.paths);
    }
    if step.Perform? && step.task in s.tasks && step.task.Write? {
      assert step.task.net.nwid in Next(env, s, step).networks;
    }
  }

  /** A network just joined, and a writer that has read its record. */
  lemma JoinedAndRead(env: Env, id: string, c: Config) returns (s: Node, net: Network)
    requires IsNetworkId(id) && env.clean(id) == id
    ensures s == After(env, Node(map[], map[], multiset{}), [Do(Join(id)), Read(id, c, false)])
    ensures s.networks == map[id := Fresh(env, id)] && Write(net) in s.tasks
    ensures net.nwid == id && net.connected && net.status == StatusFor(c.authorized)
  {
    hide Fresh, IsNetworkId, Loaded, Configured;
    var steps := [Do(Join(id)), Read(id, c, false)];
    var s1 := Next(env, Node(map[], map[], multiset{}), steps[0]);
    s := Next(env, s1, steps[1]);
    assert steps[1..] == [steps[1]] && steps[1..][1..] == [];
    assert After(env, s1, steps[1..]) == s;
    net := ConfiguredBy(env, s1.networks[id], c, false);
    FreshIsNew(env, id);
  }

  lemma FreshIsNew(env: Env, id: string)
    ensures Fresh(env, id).nwid == id && Fresh(env, id).connected
  {
  }

  /** A writer that read before it connects a network again that was disconnected, or left, in between. */
  lemma StaleWriterUndoes(env: Env, id: string, c: Config, call: Call) returns (s: Node, net: Network)
    requires IsNetworkId(id) && env.clean(id) == id && (call == Disconnect(id) || call == Leave(id))
    ensures var start := Node(map[], map[], multiset{});
      var read := After(env, start, [Do(Join(id)), Read(id, c, false)]);
      s == After(env, Next(env, read, Do(call)), [Perform(Write(net), WORKS)])
    ensures id in s.networks && s.networks[id].connected && s.networks[id].status == StatusFor(c.authorized)
  {
    hide Fresh, IsNetworkId, Loaded, Configured, ConfiguredBy;
    var s2;
    s2, net := JoinedAndRead(env, id, c);
    var s3 := Next(env, s2, Do(call));
    assert Write(net) in s3.tasks;
    s := Next(env, s3, Perform(Write(net), WORKS));
    assert After(env, s3, [Perform(Write(net), WORKS)]) == s;
  }

  // ----- How long a disconnect or a leave lasts -------------------------------------------------

  predicate IsIntended(nets: Nets, id: string) {
    id in nets && nets[id].connected
  }

  /** The record of a network that is listed last. */
  function LastRecord(disk: Disk, paths: seq<File>, id: string): Option<Network> {
    if paths == [] then None
    else
      var f := paths[|paths| - 1];
      if IsReadable(disk, f) && disk[f].value.nwid == id then disk[f] else LastRecord(disk, paths[..|paths| - 1], id)
  }

  lemma {:induction false} LastRecordIsLoaded(env: Env, disk: Disk, paths: seq<File>, id: string)
    ensures var nets := LoadJsons(env, disk, paths, map[]);
      && (id in nets <==> LastRecord(disk, paths, id).Some?)
      && (id in nets ==> nets[id] == Restored(env, LastRecord(disk, paths, id).value))
  {
    hide Restored;
    if paths != [] {
      LastRecordIsLoaded(env, disk, paths[..|paths| - 1], id);
    }
  }

  /** What a restart does for a network: its last record decides, and without one a .conf file connects it. */
  lemma LoadedByLastRecord(env: Env, disk: Disk, paths: seq<File>, id: string)
    requires Lists(paths, disk)
    ensures var nets, last := Loaded(env, disk, paths), LastRecord(disk, paths, id);
      && (id in nets <==> last.Some? || HasConf(env, disk, id))
      && (id in nets ==> nets[id].connected == if last.Some? then last.value.connected else true)
  {
    hide IsNetworkId, LoadJsons, LoadConfs, LastRecord;
    LastRecordIsLoaded(env, disk, paths, id);
    LoadConfsHas(env, paths, LoadJsons(env, disk, paths, map[]), id);
    assert forall f :: f in paths <==> f in disk by {
      assert forall f :: f in paths <==> f in set g | g in paths;
    }
  }

  /** The steps that mean a network to be connected: calls for it, a writer that read it so, and files that say so. */
  ghost predicate Reconnects(env: Env, s: Node, step: Step, id: string) {
    match step
    case Do(call) =>
      env.clean(call.nwid) == id &&
      (match call
       case Join(_) => IsNetworkId(id)
       case Connect(_) => id in s.networks
       case Update(_, u) => id in s.networks && u.connected == Some(true)
       case _ => false)
    case Read(_, _, _) => false
    case Perform(task, _) => task in s.tasks && task.Write? && task.net.nwid == id && task.net.connected
    case Reboot(paths) =>
      Lists(paths, s.disk) &&
      (match LastRecord(s.disk, paths, id) case Some(net) => net.connected case None => HasConf(env, s.disk, id))
  }

  /** A step means a network to be connected that was not exactly in these cases. */
  lemma IntentStepExactly(env: Env, s: Node, step: Step, id: string)
    requires !IsIntended(s.networks, id)
    ensures IsIntended(Next(env, s, step).networks, id) <==> Reconnects(env, s, step, id)
  {
    hide IsNetworkId, Loaded, Persisted, Erased, Lists, HasConf, LastRecord, ConfiguredBy, Files, Fresh;
    match step {
      case Do(call) => FreshIsNew(env, env.clean(call.nwid));
      case Reboot(paths) =>
        if Lists(paths, s.disk) {
          LoadedByLastRecord(env, s.disk, paths, id);
        }
      case _ =>
    }
  }

  /** The steps that bring back a network that is gone. */
  ghost predicate Returns(env: Env, s: Node, step: Step, id: string) {
    match step
    case Do(call) => env.clean(call.nwid) == id && call.Join? && IsNetworkId(id)
    case Read(_, _, _) => false
    case Perform(task, _) => task in s.tasks && task.Write? && task.net.nwid == id
    case Reboot(paths) => Lists(paths, s.disk) && (HasRecord(s.disk, id) || HasConf(env, s.disk, id))
  }

  lemma PresenceStepExactly(env: Env, s: Node, step: Step, id: string)
    requires id !in s.networks
    ensures id in Next(env, s, step).networks <==> Returns(env, s, step, id)
  {
    hide IsNetworkId, Loaded, Persisted, Erased, Lists, HasConf, HasRecord, ConfiguredBy, Files, Fresh;
    if step.Reboot? && Lists(step.paths, s.disk) {
      LoadedExactly(env, s.disk, step.paths, id);
    }
  }

  ghost predicate StaysDisconnected(env: Env, s: Node, steps: seq<Step>, id: string)
    decreases |steps|
  {
    !IsIntended(s.networks, id) && (steps == [] || StaysDisconnected(env, Next(env, s, steps[0]), steps[1..], id))
  }

  ghost predicate NeverReconnects(env: Env, s: Node, steps: seq<Step>, id: string)
    decreases |steps|
  {
    steps == [] || (!Reconnects(env, s, steps[0], id) && NeverReconnects(env, Next(env, s, steps[0]), steps[1..], id))
  }

  /** A disconnect lasts through a run exactly if no step of it is one of those. */
  lemma {:induction false} DisconnectLastsExactly(env: Env, s: Node, steps: seq<Step>, id: string)
    requires !IsIntended(s.networks, id)
    ensures StaysDisconnected(env, s, steps, id) <==> NeverReconnects(env, s, steps, id)
    decreases |steps|
  {
    hide IsIntended, Reconnects, Next;
    if steps != [] {
      IntentStepExactly(env, s, steps[0], id);
      if !Reconnects(env, s, steps[0], id) {
        DisconnectLastsExactly(env, Next(env, s, steps[0]), steps[1..], id);
      }
    }
  }

  ghost predicate StaysGone(env: Env, s: Node, steps: seq<Step>, id: string)
    decreases |steps|
  {
    id !in s.networks && (steps == [] || StaysGone(env, Next(env, s, steps[0]), steps[1..], id))
  }

  ghost predicate NeverReturns(env: Env, s: Node, steps: seq<Step>, id: string)
    decreases |steps|
  {
    steps == [] || (!Returns(env, s, steps[0], id) && NeverReturns(env, Next(env, s, steps[0]), steps[1..], id))
  }

  /** A leave lasts through a run exactly if nobody joins, no writer stores what it read, and no start finds a file. */
  lemma {:induction false} LeaveLastsExactly(env: Env, s: Node, steps: seq<Step>, id: string)
    requires id !in s.networks
    ensures StaysGone(env, s, steps, id) <==> NeverReturns(env, s, steps, id)
    decreases |steps|
  {
    hide Returns, Next;
    if steps != [] {
      PresenceStepExactly(env, s, steps[0], id);
      if !Returns(env, s, steps[0], id) {
        LeaveLastsExactly(env, Next(env, s, steps[0]), steps[1..], id);
      }
    }
  }
}
