/** The embedded controller: networks, members, their addresses, and what whole runs of operations keep. */
module Controller {
  import opened Wrappers
  import opened Addressing
  import opened Reconciliation

  datatype Member = Member(authorized: bool, noAutoAssign: bool, ips: seq<Addr>, revision: nat)

  type Members = map<string, Member>

  datatype Db = Db(networks: map<string, Network>, members: map<string, Members>)

  /** A partial payload: only the keys that are present replace what is stored. */
  datatype NetworkPatch = NetworkPatch(
    private: Option<bool>, v4Zt: Option<Option<bool>>, v6Mode: Option<V6Mode>, pools: Option<Pools>,
    revision: Option<nat>)

  datatype MemberPatch = MemberPatch(
    authorized: Option<bool>, noAutoAssign: Option<bool>, ips: Option<seq<Addr>>, revision: Option<nat>)

  function Or<T>(o: Option<T>, default: T): T {
    match o case Some(v) => v case None => default
  }

  const NEW_NETWORK := Network(false, None, V6Mode(None, None, None), [], 0)
  const NEW_MEMBER := Member(false, false, [], 0)

  function PatchedNetwork(base: Network, p: NetworkPatch): Network {
    Network(Or(p.private, base.private), Or(p.v4Zt, base.v4Zt), Or(p.v6Mode, base.v6Mode), Or(p.pools, base.pools),
            Or(p.revision, base.revision) + 1)
  }

  function PatchedMember(base: Member, p: MemberPatch): Member {
    Member(Or(p.authorized, base.authorized), Or(p.noAutoAssign, base.noAutoAssign), Or(p.ips, base.ips),
           Or(p.revision, base.revision) + 1)
  }

  function MembersOf(db: Db, nwid: string): Members {
    if nwid in db.members then db.members[nwid] else map[]
  }

  /** Every address on any member's list, authorized or not. */
  function Used(ms: Members): set<Addr> {
    set id, a | id in ms && a in ms[id].ips :: a
  }

  predicate IsAutomatic(m: Member) {
    m.authorized && !m.noAutoAssign
  }

  /** Addresses after allocation; a network that does not exist allocates nothing. */
  function Assigned(rid: Rid, db: Db, nwid: string, id: string, ips: seq<Addr>): seq<Addr> {
    if nwid in db.networks then AutoAssign(rid, db.networks[nwid], nwid, id, Used(MembersOf(db, nwid)), ips) else ips
  }

  function Refreshed(rid: Rid, db: Db, nwid: string, id: string, m: Member): Member {
    if IsAutomatic(m) then m.(ips := Assigned(rid, db, nwid, id, m.ips)) else m
  }

  function WithMember(db: Db, nwid: string, id: string, m: Member): Db {
    db.(members := db.members[nwid := MembersOf(db, nwid)[id := m]])
  }

  function SavedMember(rid: Rid, db: Db, nwid: string, id: string, p: MemberPatch): Result<Db> {
    if |id| != 10 then Err
    else
      var base := if id in MembersOf(db, nwid) then MembersOf(db, nwid)[id] else NEW_MEMBER;
      Ok(WithMember(db, nwid, id, Refreshed(rid, db, nwid, id, PatchedMember(base, p))))
  }

  predicate IsHexId(id: string) {
    |id| == 10 && forall i :: 0 <= i < 10 ==> HexValue(id[i]).Some?
  }

  function JoinRequested(rid: Rid, db: Db, nwid: string, id: string): Result<Db> {
    if !IsHexId(id) || nwid !in db.networks then Err
    else if id in MembersOf(db, nwid) then Ok(db)
    else Ok(WithMember(db, nwid, id, Refreshed(rid, db, nwid, id, Member(!db.networks[nwid].private, false, [], 1))))
  }

  /** A network update reconciles each automatic member, and counts a revision where that changed the list. */
  function Reconciled(net: Network, nwid: string, id: string, m: Member): Member {
    if !IsAutomatic(m) then m
    else
      var ips := Inline(net, nwid, id, m.ips);
      m.(ips := ips, revision := if ips != m.ips then m.revision + 1 else m.revision)
  }

  function ReconciledAll(net: Network, nwid: string, ms: Members): Members {
    map id | id in ms :: Reconciled(net, nwid, id, ms[id])
  }

  /** Six underscores in a row ask for a generated id. */
  predicate HasPlaceholder(s: string) {
    |s| >= 6 && (s[..6] == "______" || HasPlaceholder(s[1..]))
  }

  predicate IsNetworkId(nwid: string) {
    |nwid| == 16 && !HasPlaceholder(nwid)
  }

  /** The id in the payload, or the generated one when that is missing or malformed. */
  function NetworkIdFor(payload: Option<string>, generated: string): (nwid: string)
    requires IsNetworkId(generated)
    ensures IsNetworkId(nwid)
  {
    if payload.Some? && IsNetworkId(payload.value) then payload.value else generated
  }

  function SavedNetwork(db: Db, nwid: string, p: NetworkPatch): Db {
    var net := PatchedNetwork(if nwid in db.networks then db.networks[nwid] else NEW_NETWORK, p);
    Db(db.networks[nwid := net],
       if nwid in db.members then db.members[nwid := ReconciledAll(net, nwid, db.members[nwid])] else db.members)
  }

  function DeletedNetwork(db: Db, nwid: string): Db {
    if nwid in db.networks then Db(db.networks - {nwid}, db.members - {nwid}) else db
  }

  function DeletedMember(db: Db, nwid: string, id: string): Db {
    if nwid in db.members then db.(members := db.members[nwid := db.members[nwid] - {id}]) else db
  }

  /** The record that a config request is answered from. */
  function EffectiveMember(rid: Rid, db: Db, nwid: string, id: string): Option<Member> {
    if id in MembersOf(db, nwid) then Some(Refreshed(rid, db, nwid, id, MembersOf(db, nwid)[id])) else None
  }

  class EmbeddedController {
    const rid: Rid
    var networks: map<string, Network>
    var members: map<string, Members>

    function State(): Db
      reads this
    {
      Db(networks, members)
    }

    constructor (rid: Rid)
      ensures State() == Db(map[], map[]) && this.rid == rid
    {
      this.rid := rid;
      networks, members := map[], map[];
    }

    method AutoAssignIpsForMember(nwid: string, id: string, currentIps: seq<Addr>) returns (ips: seq<Addr>)
      ensures ips == Assigned(rid, State(), nwid, id, currentIps)
    {
      if nwid !in networks {
        return currentIps;
      }
      var used := Used(if nwid in members then members[nwid] else map[]);
      ips := AutoAssignIps(rid, networks[nwid], nwid, id, used, currentIps);
    }

    method SaveMember(nwid: string, id: string, p: MemberPatch) returns (ok: bool)
      modifies this
      ensures ok == SavedMember(rid, old(State()), nwid, id, p).Ok?
      ensures State() == if ok then SavedMember(rid, old(State()), nwid, id, p).value else old(State())
    {
      if |id| != 10 {
        return false;
      }
      var all := if nwid in members then members[nwid] else map[];
      var record := PatchedMember(if id in all then all[id] else NEW_MEMBER, p);
      if record.authorized {
        if !record.noAutoAssign {
          var ips := AutoAssignIpsForMember(nwid, id, record.ips);
          record := record.(ips := ips);
        }
      }
      members := members[nwid := all[id := record]];
      ok := true;
    }

    method RegisterJoinRequest(nwid: string, id: string) returns (r: Result<Member>)
      modifies this
      ensures r.Ok? == JoinRequested(rid, old(State()), nwid, id).Ok?
      ensures State() == if r.Ok? then JoinRequested(rid, old(State()), nwid, id).value else old(State())
      ensures r.Ok? ==> id in MembersOf(State(), nwid) && r.value == MembersOf(State(), nwid)[id]
    {
      if !IsHexId(id) {
        return Err;
      }
      if nwid !in networks {
        return Err;
      }
      var all := if nwid in members then members[nwid] else map[];
      if id in all {
        return Ok(all[id]);
      }
      var autoAuth := !networks[nwid].private;
      var ips: seq<Addr> := [];
      if autoAuth {
        ips := AutoAssignIpsForMember(nwid, id, ips);
      }
      var record := Member(autoAuth, false, ips, 1);
      members := members[nwid := all[id := record]];
      r := Ok(record);
    }

    /** `generated` is an id of this controller's that no network has yet. */
    method SaveNetwork(id: Option<string>, generated: string, p: NetworkPatch) returns (nwid: string, net: Network)
      requires IsNetworkId(generated) && generated !in networks
      modifies this
      ensures nwid == NetworkIdFor(id, generated)
      ensures State() == SavedNetwork(old(State()), nwid, p) && nwid in networks && net == networks[nwid]
      ensures net.private ==
        if p.private.Some? then p.private.value else nwid in old(networks) && old(networks)[nwid].private
      ensures net.pools ==
        if p.pools.Some? then p.pools.value else if nwid in old(networks) then old(networks)[nwid].pools else []
    {
      hide Inline, IsNetworkId;
      nwid := if id.Some? && IsNetworkId(id.value) then id.value else generated;
      net := PatchedNetwork(if nwid in networks then networks[nwid] else NEW_NETWORK, p);
      networks := networks[nwid := net];
      if nwid in members {
        var all := members[nwid];
        var rest := all.Keys;
        var done: Members := map[];
        while rest != {}
          invariant rest <= all.Keys && members == old(members) && networks == old(networks)[nwid := net]
          invariant done == map id | id in all && id !in rest :: Reconciled(net, nwid, id, all[id])
        {
          var id :| id in rest;
          var member := all[id];
          if member.authorized && !member.noAutoAssign {
            var prevIps := member.ips;
            var ips := ReconcileInline(net, nwid, id, prevIps);
            member := member.(ips := ips);
            if member.ips != prevIps {
              member := member.(revision := member.revision + 1);
            }
          }
          done := done[id := member];
          rest := rest - {id};
        }
        assert done == ReconciledAll(net, nwid, all);
        members := members[nwid := done];
      }
    }

    method DeleteNetwork(nwid: string) returns (existed: bool)
      modifies this
      ensures existed == (nwid in old(networks))
      ensures State() == DeletedNetwork(old(State()), nwid)
    {
      existed := nwid in networks;
      if existed {
        networks := networks - {nwid};
        members := members - {nwid};
      }
    }

    method DeleteMember(nwid: string, id: string) returns (existed: bool)
      modifies this
      ensures existed == (id in MembersOf(old(State()), nwid))
      ensures State() == DeletedMember(old(State()), nwid, id)
    {
      existed := nwid in members && id in members[nwid];
      if existed {
        members := members[nwid := members[nwid] - {id}];
      } else if nwid in members {
        assert members[nwid] - {id} == members[nwid];
        assert members[nwid := members[nwid]] == members;
      }
    }

    method GetEffectiveMember(nwid: string, id: string) returns (r: Option<Member>)
      ensures r == EffectiveMember(rid, State(), nwid, id)
    {
      if nwid !in members || id !in members[nwid] {
        return None;
      }
      var record := members[nwid][id];
      if record.authorized && !record.noAutoAssign {
        var ips := AutoAssignIpsForMember(nwid, id, record.ips);
        record := record.(ips := ips);
      }
      r := Some(record);
    }
  }
}
