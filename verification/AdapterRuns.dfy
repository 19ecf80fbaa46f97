/** When the incremental updates of the adapter amount to a full rewrite, over whole runs for one network. */
module AdapterRuns {
  import opened Wrappers
  import opened Networks
  import opened AdapterSync

  /**
   * For any adapter: the update leaves what a full rewrite would exactly when the adapter held nothing beyond old and
   * new entries and, if the network was in status Ok before, all the entries to keep.
   */
  lemma UpdateIsRewriteExactly(a: Adapter, prev: Network, net: Network)
    ensures Updated(a, prev, net) == Desired(net)
       <==> var ips, oldIps := Elements(net.addresses), Elements(prev.addresses);
            var targets, oldTargets := Targets(net.routes), Targets(prev.routes);
            && a.addresses <= oldIps + ips
            && a.routes <= (oldTargets - targets) + Allowed(net, targets)
            && (prev.status == Status.Ok ==>
                  ips * oldIps <= a.addresses && Allowed(net, targets * oldTargets) <= a.routes)
  {
    hide Elements, Targets;
    var ips, oldIps := Elements(net.addresses), Elements(prev.addresses);
    var targets, oldTargets := Targets(net.routes), Targets(prev.routes);
    var u := Updated(a, prev, net);
    AddressesExactly(a.addresses, oldIps, ips, prev.status == Status.Ok);
    var allowed := Allowed(net, targets);
    assert Allowed(net, targets - oldTargets) == allowed - oldTargets;
    assert Allowed(net, targets * oldTargets) == allowed * oldTargets;
    RoutesExactly(a.routes, oldTargets, targets, allowed, prev.status == Status.Ok);
  }

  lemma AddressesExactly(a: set<string>, old': set<string>, new': set<string>, was: bool)
    ensures a - (old' - new') + (if was then new' - old' else new') == new'
       <==> a <= old' + new' && (was ==> new' * old' <= a)
  {
    var r := a - (old' - new') + (if was then new' - old' else new');
    if r == new' {
      forall x | x in a
        ensures x in old' + new'
      {
        assert x in r || x in old';
      }
      if was {
        forall x | x in new' * old'
          ensures x in a
        {
          assert x in r;
        }
      }
    }
  }

  lemma RoutesExactly(a: set<string>, old': set<string>, new': set<string>, allowed: set<string>, was: bool)
    requires allowed <= new'
    ensures a - (old' - new') + (if was then allowed - old' else allowed) == allowed
       <==> a <= (old' - new') + allowed && (was ==> allowed * old' <= a)
  {
    var r := a - (old' - new') + (if was then allowed - old' else allowed);
    if r == allowed {
      forall x | x in a
        ensures x in (old' - new') + allowed
      {
        assert x in r || x in old' - new';
      }
      if was {
        forall x | x in allowed * old'
          ensures x in a
        {
          assert x in r;
        }
      }
    }
  }

  // ----- Runs -----------------------------------------------------------------------------------

  datatype Op =
    | Response(nwid: string, config: Config)
    | ApiJoin(nwid: string, settings: Settings)
    | ApiLeave(nwid: string)

  function Apply(env: Env, s: Client, op: Op): Client {
    match op
    case Response(nwid, c) => Responded(env, s, nwid, c)
    case ApiJoin(nwid, u) => ApiJoined(env, s, nwid, u)
    case ApiLeave(nwid) => ApiLeft(env, s, nwid)
  }

  /** The adapter that goes with a record: set up in status Ok, and bare in every other. */
  function Matching(net: Network): Adapter {
    if net.status == Status.Ok then Desired(net) else BARE
  }

  /** At most this network is joined, its configuration is managed, and the adapter matches its record. */
  predicate InStep(s: Client, id: string) {
    if id in s.networks then
      && s.networks.Keys == {id} && s.networks[id].nwid == id && s.networks[id].allowManaged
      && s.adapter == Matching(s.networks[id])
    else s.networks == map[] && s.adapter == BARE
  }

  predicate HasDefaultRoute(net: Network) {
    exists r :: r in net.routes && IsDefault(r.target)
  }

  /** The settings that no update follows: managing off, or default routes switched while the network is up with one. */
  predicate Unfollowed(s: Client, id: string, op: Op) {
    && op.ApiJoin?
    && !(op.settings.connected == Some(false) && id in s.networks)
    && (|| op.settings.managed == Some(false)
        || (&& id in s.networks && s.networks[id].status == Status.Ok
            && op.settings.default == Some(!s.networks[id].allowDefault) && HasDefaultRoute(s.networks[id])))
  }

  lemma ResponseKeepsStep(env: Env, s: Client, id: string, nwid: string, c: Config)
    requires InStep(s, id) && env.clean(nwid) == id
    ensures InStep(Responded(env, s, nwid, c), id)
  {
    hide Elements, Targets, Allowed, Updated, IsNetworkId, Fresh;
    if id in s.networks {
      var prev := s.networks[id];
      var net := Configured(env, prev, c);
      assert s.networks[id := net].Keys == {id};
      if c.authorized {
        MatchingIsRewritten(prev, net);
      } else {
        MatchingIsFlushed(prev);
      }
    }
  }

  lemma MatchingIsRewritten(prev: Network, net: Network)
    requires prev.allowDefault == net.allowDefault
    ensures Updated(Matching(prev), prev, net) == Desired(net)
  {
    hide Elements, Targets, Updated;
    UpdateIsRewriteExactly(Matching(prev), prev, net);
  }

  lemma MatchingIsFlushed(net: Network)
    ensures Flushed(Matching(net), net) == BARE
  {
  }

  lemma DesiredChangesExactly(net: Network, net': Network)
    requires net'.addresses == net.addresses && net'.routes == net.routes
    ensures Desired(net') == Desired(net) <==> net'.allowDefault == net.allowDefault || !HasDefaultRoute(net)
  {
    if net'.allowDefault != net.allowDefault && HasDefaultRoute(net) {
      var r :| r in net.routes && IsDefault(r.target);
      assert r.target in Targets(net.routes);
      assert r.target in Desired(net).routes <==> net.allowDefault;
      assert r.target in Desired(net').routes <==> net'.allowDefault;
    }
  }

  /** The record that an accepted join leaves, with the settings it brings. */
  function JoinedRecord(env: Env, s: Client, id: string, u: Settings): Network {
    WithSettings(if id in s.networks then Rejoined(s.networks[id]) else Fresh(env, id), u)
  }

  lemma JoinedExactly(env: Env, s: Client, id: string, nwid: string, u: Settings)
    requires IsNetworkId(id) && env.clean(nwid) == id && !(u.connected == Some(false) && id in s.networks)
    ensures ApiJoined(env, s, nwid, u) == s.(networks := s.networks[id := JoinedRecord(env, s, id, u)])
  {
    hide IsNetworkId, Fresh;
    var net := if id in s.networks then Rejoined(s.networks[id]) else Fresh(env, id);
    assert WithSettings(net, NO_SETTINGS) == net;
  }

  lemma FreshIsManaged(env: Env, id: string)
    ensures Fresh(env, id).nwid == id && Fresh(env, id).allowManaged && Fresh(env, id).status == RequestingConfiguration
  {
  }

  lemma JoinKeepsStepExactly(env: Env, s: Client, id: string, nwid: string, u: Settings)
    requires InStep(s, id) && IsNetworkId(id) && env.clean(nwid) == id
    ensures InStep(ApiJoined(env, s, nwid, u), id) <==> !Unfollowed(s, id, ApiJoin(nwid, u))
  {
    hide IsNetworkId, Fresh, Elements, Targets, Allowed, Desired, HasDefaultRoute;
    if u.connected == Some(false) && id in s.networks {
      MatchingIsFlushed(s.networks[id]);
      assert Called(env, s.networks, Disconnect(nwid)).Keys == {id};
    } else {
      JoinedExactly(env, s, id, nwid, u);
      FreshIsManaged(env, id);
      var net := JoinedRecord(env, s, id, u);
      assert s.networks[id := net].Keys == {id};
      if id in s.networks {
        DesiredChangesExactly(s.networks[id], net);
      }
    }
  }

  lemma LeaveKeepsStep(env: Env, s: Client, id: string, nwid: string)
    requires InStep(s, id) && env.clean(nwid) == id
    ensures InStep(ApiLeft(env, s, nwid), id)
  {
    hide Elements, Targets, Allowed;
    if id in s.networks {
      MatchingIsFlushed(s.networks[id]);
      assert s.networks - {id} == map[];
    }
  }

  /** One operation: status and adapter part in exactly the cases that no update follows. */
  lemma StepExactly(env: Env, s: Client, id: string, op: Op)
    requires InStep(s, id) && IsNetworkId(id) && env.clean(op.nwid) == id
    ensures InStep(Apply(env, s, op), id) <==> !Unfollowed(s, id, op)
  {
    hide InStep, IsNetworkId, Responded, ApiJoined, ApiLeft;
    match op {
      case Response(nwid, c) => ResponseKeepsStep(env, s, id, nwid, c);
      case ApiJoin(nwid, u) => JoinKeepsStepExactly(env, s, id, nwid, u);
      case ApiLeave(nwid) => LeaveKeepsStep(env, s, id, nwid);
    }
  }

  predicate InStepThroughout(env: Env, s: Client, id: string, ops: seq<Op>)
    decreases |ops|
  {
    InStep(s, id) && (ops == [] || InStepThroughout(env, Apply(env, s, ops[0]), id, ops[1..]))
  }

  predicate AllFollowed(env: Env, s: Client, id: string, ops: seq<Op>)
    decreases |ops|
  {
    ops == [] || (!Unfollowed(s, id, ops[0]) && AllFollowed(env, Apply(env, s, ops[0]), id, ops[1..]))
  }

  /** A whole run stays in step exactly when none of its operations is such a case. */
  lemma {:induction false} RunsStayInStepExactly(env: Env, s: Client, id: string, ops: seq<Op>)
    requires InStep(s, id) && IsNetworkId(id) && forall op :: op in ops ==> env.clean(op.nwid) == id
    ensures InStepThroughout(env, s, id, ops) <==> AllFollowed(env, s, id, ops)
    decreases |ops|
  {
    hide InStep, Apply, Unfollowed, IsNetworkId;
    if ops != [] {
      StepExactly(env, s, id, ops[0]);
      if !Unfollowed(s, id, ops[0]) {
        RunsStayInStepExactly(env, Apply(env, s, ops[0]), id, ops[1..]);
      }
    }
  }

  function Run(env: Env, s: Client, ops: seq<Op>): Client
    decreases |ops|
  {
    if ops == [] then s else Run(env, Apply(env, s, ops[0]), ops[1..])
  }

  predicate KeepsFlags(op: Op) {
    op.ApiJoin? ==> op.settings.managed != Some(false) && op.settings.default == None
  }

  /** With the flags left alone, from the first join on: status Ok means the desired sets, any other a bare adapter. */
  lemma {:induction false} AdapterMatchesStatus(env: Env, s: Client, id: string, ops: seq<Op>)
    requires InStep(s, id) && IsNetworkId(id) && forall op :: op in ops ==> env.clean(op.nwid) == id && KeepsFlags(op)
    ensures var s' := Run(env, s, ops);
      && InStep(s', id)
      && s'.adapter == if id in s'.networks && s'.networks[id].status == Status.Ok then Desired(s'.networks[id])
                       else BARE
    decreases |ops|
  {
    hide Apply, IsNetworkId, Desired;
    if ops != [] {
      StepExactly(env, s, id, ops[0]);
      assert !Unfollowed(s, id, ops[0]);
      AdapterMatchesStatus(env, Apply(env, s, ops[0]), id, ops[1..]);
    }
  }

  /** After a restart the first response is followed if it authorizes; a denial leaves the saved setup in place. */
  lemma BootResponseExactly(env: Env, id: string, nwid: string, saved: Network, c: Config)
    requires env.clean(nwid) == id && saved.nwid == id && saved.connected && saved.allowManaged
    ensures var net := Restored(env, saved);
      var s := Client(map[id := net], Booted(BARE, net));
      InStep(Responded(env, s, nwid, c), id) <==> c.authorized || Desired(net) == BARE
  {
    hide Elements, Targets, Updated, IsNetworkId, Fresh;
    var net := Restored(env, saved);
    var net' := Configured(env, net, c);
    assert map[id := net][id := net'].Keys == {id};
    UpdateIsRewriteExactly(Booted(BARE, net), net, net');
  }

  // ----- The adapter and the responses ----------------------------------------------------------

  /** What the operations so far say of a network: its last response, as long as the network is not gone. */
  datatype History = Gone | Known(up: bool, ips: set<string>, targets: set<string>)

  function Recorded(h: History, op: Op): History {
    match op
    case ApiLeave(_) => Gone
    case ApiJoin(_, u) =>
      (match h
       case Gone => Known(false, {}, {})
       case Known(up, ips, targets) => Known(up && u.connected != Some(false), ips, targets))
    case Response(_, c) =>
      (match h
       case Gone => Gone
       case Known(_, _, targets) =>
         Known(c.authorized, set ip | ip in c.ips,
               match c.routes case Some(routes) => (set r | r in routes :: r.target) case None => targets))
  }

  function Recording(h: History, ops: seq<Op>): History
    decreases |ops|
  {
    if ops == [] then h else Recording(Recorded(h, ops[0]), ops[1..])
  }

  /** The addresses and route targets of the last response, if it authorized and nothing has taken them down since. */
  function AdapterFor(h: History): Adapter {
    if h.Known? && h.up
    then Adapter(h.ips, set t | t in h.targets && t != "0.0.0.0/0" && t != "::/0") else Adapter({}, {})
  }

  /** The record agrees with what the operations say. */
  predicate Agrees(s: Client, id: string, h: History) {
    && InStep(s, id) && (id in s.networks <==> h.Known?)
    && (h.Known? ==>
          var net := s.networks[id];
          && !net.allowDefault && (net.status == Status.Ok <==> h.up)
          && (set ip | ip in net.addresses) == h.ips && (set r | r in net.routes :: r.target) == h.targets)
  }

  lemma ResponseAgrees(env: Env, s: Client, id: string, h: History, nwid: string, c: Config)
    requires Agrees(s, id, h) && env.clean(nwid) == id
    ensures Agrees(Responded(env, s, nwid, c), id, Recorded(h, Response(nwid, c)))
  {
    hide InStep, Reconciled;
    ResponseKeepsStep(env, s, id, nwid, c);
    if id in s.networks {
      InStepIsNamed(s, id);
      assert Responded(env, s, nwid, c).networks[id] == Configured(env, s.networks[id], c);
    }
  }

  lemma InStepIsNamed(s: Client, id: string)
    requires InStep(s, id) && id in s.networks
    ensures s.networks[id].nwid == id
  {
  }

  lemma JoinAgrees(env: Env, s: Client, id: string, h: History, nwid: string, u: Settings)
    requires Agrees(s, id, h) && IsNetworkId(id) && env.clean(nwid) == id && KeepsFlags(ApiJoin(nwid, u))
    ensures Agrees(ApiJoined(env, s, nwid, u), id, Recorded(h, ApiJoin(nwid, u)))
  {
    hide InStep, IsNetworkId, Fresh, Flushed;
    JoinKeepsStepExactly(env, s, id, nwid, u);
    if !(u.connected == Some(false) && id in s.networks) {
      JoinedExactly(env, s, id, nwid, u);
      FreshIsEmpty(env, id);
    }
  }

  lemma FreshIsEmpty(env: Env, id: string)
    ensures var net := Fresh(env, id);
      net.status == RequestingConfiguration && net.addresses == [] && net.routes == [] && !net.allowDefault
  {
  }

  lemma LeaveAgrees(env: Env, s: Client, id: string, h: History, nwid: string)
    requires Agrees(s, id, h) && env.clean(nwid) == id
    ensures Agrees(ApiLeft(env, s, nwid), id, Recorded(h, ApiLeave(nwid)))
  {
    hide InStep, Flushed;
    LeaveKeepsStep(env, s, id, nwid);
  }

  lemma {:induction false} RunsAgree(env: Env, s: Client, id: string, h: History, ops: seq<Op>)
    requires Agrees(s, id, h)
    requires IsNetworkId(id) && forall op :: op in ops ==> env.clean(op.nwid) == id && KeepsFlags(op)
    ensures Agrees(Run(env, s, ops), id, Recording(h, ops))
    decreases |ops|
  {
    hide Agrees, IsNetworkId, Responded, ApiJoined, ApiLeft, Recorded;
    if ops != [] {
      match ops[0] {
        case Response(nwid, c) => ResponseAgrees(env, s, id, h, nwid, c);
        case ApiJoin(nwid, u) => JoinAgrees(env, s, id, h, nwid, u);
        case ApiLeave(nwid) => LeaveAgrees(env, s, id, h, nwid);
      }
      RunsAgree(env, Apply(env, s, ops[0]), id, Recorded(h, ops[0]), ops[1..]);
    }
  }

  /**
   * The adapter in terms of the operations alone: after any of them it holds exactly the addresses and the targets, but
   * default routes, of the last response, if that authorized and no disconnect or leave has come since, else nothing.
   */
  lemma AdapterFollowsResponses(env: Env, id: string, ops: seq<Op>)
    requires IsNetworkId(id) && forall op :: op in ops ==> env.clean(op.nwid) == id && KeepsFlags(op)
    ensures Run(env, Client(map[], BARE), ops).adapter == AdapterFor(Recording(Gone, ops))
  {
    hide Run, Recording, IsNetworkId;
    RunsAgree(env, Client(map[], BARE), id, Gone, ops);
    var s := Run(env, Client(map[], BARE), ops);
    if id in s.networks {
      var net := s.networks[id];
      assert Elements(net.addresses) == set ip | ip in net.addresses;
      assert Targets(net.routes) == set r | r in net.routes :: r.target;
    }
  }
}
