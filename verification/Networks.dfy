/** The networks a node has joined: their records in memory, their files, and the operations on both. */
module Networks {
  import opened Wrappers

  datatype Status = Ok | AccessDenied | NotFound | PortError | RequestingConfiguration | Disconnected

  datatype Route = Route(target: string, via: Option<string>)

  datatype Network = Network(
    nwid: string, name: string, status: Status, typeName: string, mac: string, mtu: nat, broadcast: bool,
    addresses: seq<string>, routes: seq<Route>, port: string, token: Option<string>,
    allowManaged: bool, allowGlobal: bool, allowDefault: bool, allowDns: bool, connected: bool)

  type Nets = map<string, Network>

  /** What is set under the keys that are present; other flags keep their values. */
  datatype Settings = Settings(
    managed: Option<bool>, global: Option<bool>, default: Option<bool>, dns: Option<bool>, connected: Option<bool>)

  /** The parts of a config response; `routes` and `mtu` are left alone when missing. */
  datatype Config = Config(
    authorized: bool, name: Option<string>, ips: seq<string>, routes: Option<seq<Route>>, mtu: Option<nat>,
    token: Option<string>)

  /** Trimming, trimming with lower-casing, the hash behind MAC addresses, and this node's address. */
  datatype Env = Env(trim: string -> string, clean: string -> string, mac: (string, string) -> string, node: string)
  {
    ghost predicate Laws() {
      && (forall s :: clean(clean(s)) == clean(s))
      && (forall s :: IsNetworkId(s) ==> IsNetworkId(clean(s)))
      && (forall a, b :: mac(a, b) != "")
    }
  }

  function Or<T>(o: Option<T>, default: T): T {
    match o case Some(v) => v case None => default
  }

  predicate IsNetworkId(id: string) {
    && |id| == 16
    && forall i :: 0 <= i < 16 ==> '0' <= id[i] <= '9' || 'a' <= id[i] <= 'f' || 'A' <= id[i] <= 'F'
  }

  // ----- Records --------------------------------------------------------------------------------

  function Fresh(env: Env, id: string): Network {
    Network(id, "ZT-" + id, RequestingConfiguration, "PRIVATE", env.mac(id, env.node), 2800, true, [], [],
            "zt-" + (if |id| < 6 then id else id[..6]), None, true, false, false, false, true)
  }

  function Rejoined(net: Network): Network {
    net.(connected := true, status := if net.status == Disconnected then RequestingConfiguration else net.status)
  }

  function WithSettings(net: Network, u: Settings): Network {
    net.(allowManaged := Or(u.managed, net.allowManaged),
         allowGlobal := Or(u.global, net.allowGlobal),
         allowDefault := Or(u.default, net.allowDefault),
         allowDns := Or(u.dns, net.allowDns),
         connected := Or(u.connected, net.connected),
         status := if u.connected == Some(false) then Disconnected
                   else if u.connected == Some(true) && net.status == Disconnected then RequestingConfiguration
                   else net.status)
  }

  function StatusFor(authorized: bool): Status {
    if authorized then Status.Ok else AccessDenied
  }

  function NameFor(env: Env, net: Network, name: Option<string>): string {
    if name.Some? && env.trim(name.value) != "" then env.trim(name.value) else net.name
  }

  /** The record after a config response over QUIC. */
  function Configured(env: Env, net: Network, c: Config): Network {
    net.(name := NameFor(env, net, c.name), token := c.token, status := StatusFor(c.authorized), addresses := c.ips,
         routes := Or(c.routes, net.routes), mtu := if c.mtu.Some? then c.mtu.value % 0x1_0000_0000 else net.mtu)
  }

  /** The record after a config packet over UDP. */
  function ConfiguredByPacket(env: Env, net: Network, c: Config): Network {
    net.(name := NameFor(env, net, c.name), status := StatusFor(c.authorized),
         addresses := if c.ips == [] then net.addresses else c.ips)
  }

  /** The record as it comes back from a file. */
  function Restored(env: Env, net: Network): Network {
    net.(status := if net.connected then RequestingConfiguration else Disconnected,
         mac := if net.mac == "" then env.mac(net.nwid, env.node) else net.mac)
  }

  // ----- Calls ----------------------------------------------------------------------------------

  datatype Call =
    | Join(nwid: string)
    | Disconnect(nwid: string)
    | Connect(nwid: string)
    | Update(nwid: string, settings: Settings)
    | Leave(nwid: string)

  /** The record that a call leaves under its cleaned id, when it changes one. */
  function Touched(env: Env, nets: Nets, call: Call): Option<Network> {
    var id := env.clean(call.nwid);
    match call
    case Join(_) => if !IsNetworkId(id) then None else Some(if id in nets then Rejoined(nets[id]) else Fresh(env, id))
    case Disconnect(_) => if id in nets then Some(nets[id].(connected := false, status := Disconnected)) else None
    case Connect(_) =>
      if id in nets then Some(nets[id].(connected := true, status := RequestingConfiguration)) else None
    case Update(_, u) => if id in nets then Some(WithSettings(nets[id], u)) else None
    case Leave(_) => None
  }

  function Called(env: Env, nets: Nets, call: Call): Nets {
    var id := env.clean(call.nwid);
    if call.Leave? then nets - {id}
    else match Touched(env, nets, call) case Some(net) => nets[id := net] case None => nets
  }

  // ----- Files ----------------------------------------------------------------------------------

  /** The files of `networks.d`, by extension and stem. */
  datatype File = Json(stem: string) | Conf(stem: string) | Tmp(stem: string)

  /** The record in a file, if one can be read from it. */
  type Disk = map<File, Option<Network>>

  /** Which file operations succeed; with no directory to work in, none are tried. */
  datatype Io = Io(dir: bool, write: bool, rename: bool, conf: bool, eraseJson: bool, eraseConf: bool)

  const WORKS := Io(true, true, true, true, true, true)

  function Persisted(disk: Disk, net: Network, io: Io): Disk {
    if !io.dir then disk
    else
      var d1 := if io.write then disk[Tmp(net.nwid) := Some(net)] else disk;
      var d2 := if io.write && io.rename then (d1 - {Tmp(net.nwid)})[Json(net.nwid) := Some(net)] else d1;
      if io.conf then d2[Conf(net.nwid) := None] else d2
  }

  function Erased(disk: Disk, nwid: string, io: Io): Disk {
    var d1 := if io.dir && io.eraseJson then disk - {Json(nwid)} else disk;
    if io.dir && io.eraseConf then d1 - {Conf(nwid)} else d1
  }

  function LoadJson(env: Env, disk: Disk, f: File, nets: Nets): Nets {
    if f.Json? && f in disk && disk[f].Some? then nets[disk[f].value.nwid := Restored(env, disk[f].value)] else nets
  }

  function LoadConf(env: Env, f: File, nets: Nets): Nets {
    var id := env.clean(f.stem);
    if f.Conf? && IsNetworkId(id) && id !in nets then nets[id := Fresh(env, id)] else nets
  }

  function LoadJsons(env: Env, disk: Disk, paths: seq<File>, nets: Nets): Nets {
    if paths == [] then nets
    else LoadJson(env, disk, paths[|paths| - 1], LoadJsons(env, disk, paths[..|paths| - 1], nets))
  }

  function LoadConfs(env: Env, paths: seq<File>, nets: Nets): Nets {
    if paths == [] then nets else LoadConf(env, paths[|paths| - 1], LoadConfs(env, paths[..|paths| - 1], nets))
  }

  lemma NothingListed(env: Env, disk: Disk, nets: Nets)
    ensures LoadJsons(env, disk, [], nets) == nets && LoadConfs(env, [], nets) == nets
  {
  }

  lemma OneMoreFile(env: Env, disk: Disk, paths: seq<File>, i: nat, nets: Nets)
    requires i < |paths|
    ensures LoadJsons(env, disk, paths[..i + 1], nets)
         == LoadJson(env, disk, paths[i], LoadJsons(env, disk, paths[..i], nets))
    ensures LoadConfs(env, paths[..i + 1], nets) == LoadConf(env, paths[i], LoadConfs(env, paths[..i], nets))
  {
    hide LoadJson, LoadConf;
    assert paths[..i + 1][..i] == paths[..i];
  }

  /** Records first, over what is in memory; then .conf files, for networks that are not there. */
  function LoadedOver(env: Env, disk: Disk, paths: seq<File>, nets: Nets): Nets {
    LoadConfs(env, paths, LoadJsons(env, disk, paths, nets))
  }

  function Loaded(env: Env, disk: Disk, paths: seq<File>): Nets {
    LoadedOver(env, disk, paths, map[])
  }

  /** A listing of the directory, in whatever order. */
  predicate Lists(paths: seq<File>, disk: Disk) {
    (set f | f in paths) == disk.Keys
  }

  method RestoreRecord(env: Env, saved: Network) returns (net: Network)
    ensures net == Restored(env, saved) && net.nwid == saved.nwid
  {
    net := saved;
    if net.connected {
      net := net.(status := RequestingConfiguration);
    } else {
      net := net.(status := Disconnected);
    }
    if net.mac == "" {
      net := net.(mac := env.mac(net.nwid, env.node));
    }
  }

  method MergeFlags(net: Network, update: Settings) returns (managed: bool, global: bool, default: bool, dns: bool)
    ensures managed == Or(update.managed, net.allowManaged) && global == Or(update.global, net.allowGlobal)
    ensures default == Or(update.default, net.allowDefault) && dns == Or(update.dns, net.allowDns)
  {
    managed, global, default, dns := net.allowManaged, net.allowGlobal, net.allowDefault, net.allowDns;
    if update.managed.Some? {
      managed := update.managed.value;
    }
    if update.global.Some? {
      global := update.global.value;
    }
    if update.default.Some? {
      default := update.default.value;
    }
    if update.dns.Some? {
      dns := update.dns.value;
    }
  }

  method MergeIntent(net: Network, update: Settings) returns (connected: bool, status: Status)
    ensures connected == Or(update.connected, net.connected)
    ensures status == if update.connected == Some(false) then Disconnected
                      else if connected && update.connected.Some? && net.status.Disconnected? then
                        RequestingConfiguration
                      else net.status
  {
    connected, status := net.connected, net.status;
    if update.connected.Some? {
      connected := update.connected.value;
      if !connected {
        status := Disconnected;
      } else if status == Disconnected {
        status := RequestingConfiguration;
      }
    }
  }

  class NetworkManager {
    const env: Env
    var networks: Nets
    var disk: Disk

    /** A manager that has just started on a directory. */
    constructor (env: Env, disk: Disk)
      ensures this.env == env && this.disk == disk && networks == map[]
    {
      this.env, this.disk, networks := env, disk, map[];
    }

    method LoadFromDisk(paths: seq<File>) returns (count: nat)
      requires Lists(paths, disk)
      modifies `networks
      ensures networks == LoadedOver(env, disk, paths, old(networks)) && count == |networks|
    {
      assert forall i :: 0 <= i < |paths| ==> paths[i] in disk by {
        assert forall i :: 0 <= i < |paths| ==> paths[i] in set f | f in paths;
      }
      hide Fresh, IsNetworkId, Restored, Lists, LoadJsons, LoadConfs;
      NothingListed(env, disk, networks);
      for i := 0 to |paths|
        invariant networks == LoadJsons(env, disk, paths[..i], old(networks))
      {
        OneMoreFile(env, disk, paths, i, old(networks));
        if paths[i].Json? {
          if disk[paths[i]].Some? {
            var net := RestoreRecord(env, disk[paths[i]].value);
            networks := networks[net.nwid := net];
          }
        }
      }
      assert paths[..|paths|] == paths;
      ghost var jsons := networks;
      NothingListed(env, disk, jsons);
      for i := 0 to |paths|
        invariant networks == LoadConfs(env, paths[..i], jsons)
      {
        OneMoreFile(env, disk, paths, i, jsons);
        if paths[i].Conf? {
          var clean := env.clean(paths[i].stem);
          if IsNetworkId(clean) {
            if clean !in networks {
              networks := networks[clean := Fresh(env, clean)];
            }
          }
        }
      }
      count := |networks|;
    }

    method PersistNetworkToDisk(net: Network, io: Io)
      modifies `disk
      ensures disk == Persisted(old(disk), net, io)
    {
      if !io.dir {
        return;
      }
      if io.write {
        disk := disk[Tmp(net.nwid) := Some(net)];
        if io.rename {
          disk := (disk - {Tmp(net.nwid)})[Json(net.nwid) := Some(net)];
        }
      }
      if io.conf {
        disk := disk[Conf(net.nwid) := None];
      }
    }

    method DeleteNetworkFromDisk(nwid: string, io: Io)
      modifies `disk
      ensures disk == Erased(old(disk), nwid, io)
    {
      if !io.dir {
        return;
      }
      if io.eraseJson {
        disk := disk - {Json(nwid)};
      }
      if io.eraseConf {
        disk := disk - {Conf(nwid)};
      }
    }

    method Join(nwid: string, io: Io) returns (r: Result<Network>)
      modifies this
      ensures var id := env.clean(nwid);
        r.Ok? <==> |id| == 16 && forall i :: 0 <= i < 16 ==>
          '0' <= id[i] <= '9' || 'a' <= id[i] <= 'f' || 'A' <= id[i] <= 'F'
      ensures r.Ok? ==> Some(r.value) == Touched(env, old(networks), Call.Join(nwid))
      ensures networks == Called(env, old(networks), Call.Join(nwid))
      ensures disk == if r.Ok? then Persisted(old(disk), r.value, io) else old(disk)
    {
      var clean := env.clean(nwid);
      if !IsNetworkId(clean) {
        return Err;
      }
      var net := Fresh(env, clean);
      if clean in networks {
        net := networks[clean].(connected := true);
        if net.status == Disconnected {
          net := net.(status := RequestingConfiguration);
        }
      }
      networks := networks[clean := net];
      PersistNetworkToDisk(net, io);
      r := Result.Ok(net);
    }

    method UpdateNetwork(net: Network, io: Io)
      modifies this
      ensures networks == old(networks)[net.nwid := net]
      ensures disk == Persisted(old(disk), net, io)
    {
      networks := networks[net.nwid := net];
      PersistNetworkToDisk(net, io);
    }

    method Disconnect(nwid: string, io: Io) returns (r: Option<Network>)
      modifies this
      ensures r == Touched(env, old(networks), Call.Disconnect(nwid))
      ensures networks == Called(env, old(networks), Call.Disconnect(nwid))
      ensures disk == if r.Some? then Persisted(old(disk), r.value, io) else old(disk)
    {
      var clean := env.clean(nwid);
      if clean !in networks {
        return None;
      }
      var net := networks[clean];
      net := net.(connected := false);
      net := net.(status := Disconnected);
      networks := networks[clean := net];
      PersistNetworkToDisk(net, io);
      r := Some(net);
    }

    method Connect(nwid: string, io: Io) returns (r: Option<Network>)
      modifies this
      ensures r == Touched(env, old(networks), Call.Connect(nwid))
      ensures networks == Called(env, old(networks), Call.Connect(nwid))
      ensures disk == if r.Some? then Persisted(old(disk), r.value, io) else old(disk)
    {
      var clean := env.clean(nwid);
      if clean !in networks {
        return None;
      }
      var net := networks[clean];
      net := net.(connected := true);
      net := net.(status := RequestingConfiguration);
      networks := networks[clean := net];
      PersistNetworkToDisk(net, io);
      r := Some(net);
    }

    method UpdateSettings(nwid: string, update: Settings, io: Io) returns (r: Option<Network>)
      modifies this
      ensures r == Touched(env, old(networks), Call.Update(nwid, update))
      ensures networks == Called(env, old(networks), Call.Update(nwid, update))
      ensures disk == if r.Some? then Persisted(old(disk), r.value, io) else old(disk)
    {
      var clean := env.clean(nwid);
      if clean !in networks {
        return None;
      }
      var net := networks[clean];
      var managed, global, default, dns := MergeFlags(net, update);
      var connected, status := MergeIntent(net, update);
      net := net.(allowManaged := managed, allowGlobal := global, allowDefault := default, allowDns := dns,
                  connected := connected, status := status);
      networks := networks[clean := net];
      PersistNetworkToDisk(net, io);
      r := Some(net);
    }

    method Leave(nwid: string, io: Io) returns (r: Option<Network>)
      modifies this
      ensures r == if env.clean(nwid) in old(networks) then Some(old(networks)[env.clean(nwid)]) else None
      ensures networks == Called(env, old(networks), Call.Leave(nwid))
      ensures disk == if r.Some? then Erased(old(disk), r.value.nwid, io) else old(disk)
    {
      var clean := env.clean(nwid);
      if clean !in networks {
        assert networks - {clean} == networks;
        return None;
      }
      r := Some(networks[clean]);
      networks := networks - {clean};
      DeleteNetworkFromDisk(r.value.nwid, io);
    }

    method Get(nwid: string) returns (r: Option<Network>)
      ensures r == if env.clean(nwid) in networks then Some(networks[env.clean(nwid)]) else None
    {
      var clean := env.clean(nwid);
      r := if clean in networks then Some(networks[clean]) else None;
    }
  }
}
