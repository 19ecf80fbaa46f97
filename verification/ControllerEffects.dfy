/** What saving, joining and deleting do to a network and its members, in terms of the payloads alone. */
module ControllerEffects {
  import opened Wrappers
  import opened Addressing
  import opened Reconciliation
  import opened Controller
  import opened ControllerRuns

  // ----- Payloads -------------------------------------------------------------------------------

  /** A present key replaces what is stored, an absent one leaves it, and each save counts one revision. */
  lemma PayloadsMerge(net: Network, p: NetworkPatch, m: Member, q: MemberPatch)
    ensures var n := PatchedNetwork(net, p);
      && (match p.private case Some(v) => n.private == v case None => n.private == net.private)
      && (match p.v4Zt case Some(v) => n.v4Zt == v case None => n.v4Zt == net.v4Zt)
      && (match p.v6Mode case Some(v) => n.v6Mode == v case None => n.v6Mode == net.v6Mode)
      && (match p.pools case Some(v) => n.pools == v case None => n.pools == net.pools)
      && (match p.revision case Some(v) => n.revision == v + 1 case None => n.revision == net.revision + 1)
    ensures var r := PatchedMember(m, q);
      && (match q.authorized case Some(v) => r.authorized == v case None => r.authorized == m.authorized)
      && (match q.noAutoAssign case Some(v) => r.noAutoAssign == v case None => r.noAutoAssign == m.noAutoAssign)
      && (match q.ips case Some(v) => r.ips == v case None => r.ips == m.ips)
      && (match q.revision case Some(v) => r.revision == v + 1 case None => r.revision == m.revision + 1)
  {
  }

  /** A save without keys changes the revision and nothing else; a new network starts public, a new member does not. */
  lemma EmptyPayloads(net: Network, m: Member)
    ensures PatchedNetwork(net, NO_CHANGES) == net.(revision := net.revision + 1)
    ensures PatchedMember(m, MemberPatch(None, None, None, None)) == m.(revision := m.revision + 1)
    ensures !NEW_NETWORK.private && NEW_NETWORK.pools == [] && NEW_NETWORK.v4Zt == None
    ensures NEW_NETWORK.v6Mode == V6Mode(None, None, None) && NEW_NETWORK.revision == 0
    ensures NEW_MEMBER == Member(false, false, [], 0)
  {
  }

  lemma {:induction false} PlaceholderInside(a: string, b: string)
    ensures HasPlaceholder(a + "______" + b)
  {
    var s := a + "______" + b;
    if a == "" {
      assert s[..6] == "______";
    } else {
      assert s[1..] == a[1..] + "______" + b;
      PlaceholderInside(a[1..], b);
    }
  }

  lemma {:induction false} PlaceholderIsThere(s: string) returns (a: string, b: string)
    requires HasPlaceholder(s)
    ensures s == a + "______" + b
  {
    if s[..6] == "______" {
      a, b := "", s[6..];
    } else {
      a, b := PlaceholderIsThere(s[1..]);
      a := [s[0]] + a;
    }
  }

  /** A save is of the network that the payload names, if that is sixteen long without six underscores in a row. */
  lemma PayloadIdIsUsedExactly(id: string, generated: string, a: string, b: string)
    requires IsNetworkId(generated)
    ensures NetworkIdFor(None, generated) == generated
    ensures |id| != 16 || id == a + "______" + b ==> NetworkIdFor(Some(id), generated) == generated
    ensures NetworkIdFor(Some(id), generated) == id || |id| != 16 || exists x, y :: id == x + "______" + y
  {
    hide HasPlaceholder;
    PlaceholderInside(a, b);
    if HasPlaceholder(id) {
      var x, y := PlaceholderIsThere(id);
    }
  }

  // ----- Membership -----------------------------------------------------------------------------

  /** The privacy that a network has after a save: the payload's, else the stored one, and a new network is public. */
  function PrivateAfter(db: Db, nwid: string, p: NetworkPatch): bool {
    match p.private
    case Some(b) => b
    case None => nwid in db.networks && db.networks[nwid].private
  }

  /** Who joins after a save is authorized exactly if the network is then public. */
  lemma JoinAfterSaveExactly(rid: Rid, db: Db, nwid: string, p: NetworkPatch, id: string)
    requires IsHexId(id) && id !in MembersOf(db, nwid)
    ensures var joined := JoinRequested(rid, SavedNetwork(db, nwid, p), nwid, id);
      && joined.Ok? && id in MembersOf(joined.value, nwid)
      && MembersOf(joined.value, nwid)[id].authorized == !PrivateAfter(db, nwid, p)
      && MembersOf(joined.value, nwid)[id].revision == 1 && !MembersOf(joined.value, nwid)[id].noAutoAssign
      && (PrivateAfter(db, nwid, p) ==> MembersOf(joined.value, nwid)[id].ips == [])
  {
    hide ReconciledAll, Assigned, IsHexId;
    SavedHasNoNewcomer(db, nwid, p, id);
  }

  /** A join request changes nothing for a known member, fails for a bad id or network, and touches nobody else. */
  lemma JoinChangesOnlyNewcomers(rid: Rid, db: Db, nwid: string, id: string)
    ensures JoinRequested(rid, db, nwid, id).Ok?
       <==> && nwid in db.networks && |id| == 10
            && forall i :: 0 <= i < 10 ==> '0' <= id[i] <= '9' || 'a' <= id[i] <= 'f' || 'A' <= id[i] <= 'F'
    ensures JoinRequested(rid, db, nwid, id).Ok? ==>
      var db' := JoinRequested(rid, db, nwid, id).value;
      && (id in MembersOf(db, nwid) ==> db' == db)
      && db'.networks == db.networks
      && (forall n, i :: (n != nwid || i != id) && i in MembersOf(db, n) ==>
            i in MembersOf(db', n) && MembersOf(db', n)[i] == MembersOf(db, n)[i])
      && (forall n, i :: (n != nwid || i != id) && i in MembersOf(db', n) ==> i in MembersOf(db, n))
  {
    hide Refreshed;
  }

  /**
   * Only an id of ten characters can be saved. A member that is not automatic, or whose network does not exist, then
   * has the payload's list, or else the stored one.
   */
  lemma ListsWithoutAssignment(rid: Rid, db: Db, nwid: string, id: string, p: MemberPatch)
    ensures SavedMember(rid, db, nwid, id, p).Ok? <==> |id| == 10
    ensures |id| == 10 ==>
      var before := if id in MembersOf(db, nwid) then MembersOf(db, nwid)[id] else Member(false, false, [], 0);
      var after := MembersOf(SavedMember(rid, db, nwid, id, p).value, nwid)[id];
      && after == PatchedMember(before, p).(ips := after.ips)
      && (!after.authorized || after.noAutoAssign || nwid !in db.networks ==>
            after.ips == match p.ips case Some(ips) => ips case None => before.ips)
  {
    hide AutoAssign;
  }

  /** Deleting takes the network with all its members, or the one member, and nothing else. */
  lemma DeletionsRemoveExactly(db: Db, nwid: string, id: string)
    ensures var gone := DeletedNetwork(db, nwid);
      && nwid !in gone.networks && (nwid in db.networks ==> MembersOf(gone, nwid) == map[])
      && (forall n :: n != nwid ==>
            (n in gone.networks <==> n in db.networks) && MembersOf(gone, n) == MembersOf(db, n))
      && (forall n :: n in gone.networks ==> gone.networks[n] == db.networks[n])
      && (nwid !in db.networks ==> gone == db)
    ensures var less := DeletedMember(db, nwid, id);
      && less.networks == db.networks && MembersOf(less, nwid) == MembersOf(db, nwid) - {id}
      && forall n :: n != nwid ==> MembersOf(less, n) == MembersOf(db, n)
  {
  }

  // ----- Modes ----------------------------------------------------------------------------------

  /** The modes after a save: those of the payload's object, else of the stored one; only IPv4 is on by default. */
  datatype Modes = Modes(v4: bool, sixPlane: bool, rfc4193: bool, custom: bool)

  function ModesAfter(db: Db, nwid: string, p: NetworkPatch): Modes {
    var known := nwid in db.networks;
    var v4 := if p.v4Zt.Some? then p.v4Zt.value else if known then db.networks[nwid].v4Zt else None;
    var v6 := if p.v6Mode.Some? then p.v6Mode.value
              else if known then db.networks[nwid].v6Mode else V6Mode(None, None, None);
    Modes(v4 != Some(false), v6.sixPlane == Some(true), v6.rfc4193 == Some(true), v6.zt == Some(true))
  }

  function PoolsAfter(db: Db, nwid: string, p: NetworkPatch): Pools {
    if p.pools.Some? then p.pools.value else if nwid in db.networks then db.networks[nwid].pools else []
  }

  lemma ModesAreSwitches(db: Db, nwid: string, p: NetworkPatch)
    ensures var net, m := SavedNetwork(db, nwid, p).networks[nwid], ModesAfter(db, nwid, p);
      && V4On(net) == m.v4 && SixPlaneOn(net) == m.sixPlane && Rfc4193On(net) == m.rfc4193 && CustomOn(net) == m.custom
      && net.pools == PoolsAfter(db, nwid, p)
  {
  }

  /** A stored address stays, or a derived one belongs, on the list of an automatic member under these modes. */
  predicate Belongs(m: Modes, nwid: string, id: string, ips: seq<Addr>, x: Addr) {
    match x
    case V4(_) => m.v4 && x in ips
    case V6(v6) =>
      if "fc" <= GroupText(FirstGroup(v6)) then m.sixPlane && (x in ips || SixPlane(nwid, id) == Some(x))
      else if "fd" <= GroupText(FirstGroup(v6)) then m.rfc4193 && (x in ips || Rfc4193(nwid, id) == Some(x))
      else m.custom && x in ips
  }

  lemma BelongsIsKept(net: Network, m: Modes, nwid: string, id: string, ips: seq<Addr>, x: Addr)
    requires V4On(net) == m.v4 && SixPlaneOn(net) == m.sixPlane
    requires Rfc4193On(net) == m.rfc4193 && CustomOn(net) == m.custom
    ensures Belongs(m, nwid, id, ips, x) <==> IsKept(net, nwid, id, ips, x)
  {
    hide SixPlane, Rfc4193, TextStartsWith, GroupText, V4On, SixPlaneOn, Rfc4193On, CustomOn;
    if x.V6? {
      PrefixTestsReadText(x.v6);
    }
  }

  /** After a network update each automatic member's list is what belongs there; every other record is untouched. */
  lemma UpdateReconcilesExactly(db: Db, nwid: string, p: NetworkPatch, id: string, x: Addr)
    requires id in MembersOf(db, nwid)
    ensures var m := MembersOf(db, nwid)[id];
      var after := MembersOf(SavedNetwork(db, nwid, p), nwid)[id];
      && (m.authorized && !m.noAutoAssign ==>
            (x in after.ips <==> Belongs(ModesAfter(db, nwid, p), nwid, id, m.ips, x))
            && after == m.(ips := after.ips, revision := after.revision))
      && (!m.authorized || m.noAutoAssign ==> after == m)
  {
    hide Inline, IsKept, Belongs, ModesAfter, V4On, SixPlaneOn, Rfc4193On, CustomOn;
    var m, net := MembersOf(db, nwid)[id], SavedNetwork(db, nwid, p).networks[nwid];
    InlineHas(net, nwid, id, m.ips, x);
    ModesAreSwitches(db, nwid, p);
    BelongsIsKept(net, ModesAfter(db, nwid, p), nwid, id, m.ips, x);
  }

  /**
   * A member that is new and authorized after a save holds exactly what the modes of that save provide: the derived
   * addresses, the least unused IPv4 address of the pools, and the first unused IPv6 candidate.
   */
  lemma AuthorizedAfterSaveHasExactly(rid: Rid, db: Db, nwid: string, p: NetworkPatch, id: string, x: Addr)
    requires |id| == 10 && id !in MembersOf(db, nwid)
    ensures var saved := SavedNetwork(db, nwid, p);
      var after := Apply(rid, saved, Authorize(nwid, id));
      var ms, m, pools := MembersOf(saved, nwid), ModesAfter(db, nwid, p), PoolsAfter(db, nwid, p);
      var used := set i, a | i in ms && a in ms[i].ips :: a;
      && id in MembersOf(after, nwid) && MembersOf(after, nwid)[id].authorized
      && (x in MembersOf(after, nwid)[id].ips <==>
            || (m.v4 && x.V4? && NextFreeIp(used, pools) == Some(x))
            || (m.sixPlane && SixPlane(nwid, id) == Some(x))
            || (m.rfc4193 && Rfc4193(nwid, id) == Some(x))
            || (m.custom && NextFreeIpv6(rid, used, nwid, id, pools) == Some(x)))
  {
    hide AutoAssign, SixPlane, Rfc4193, TextStartsWith, NextFreeIp, NextFreeIpv6, ReconciledAll, ModesAfter, PoolsAfter,
      V4On, SixPlaneOn, Rfc4193On, CustomOn;
    var saved := SavedNetwork(db, nwid, p);
    var net, used := saved.networks[nwid], Used(MembersOf(saved, nwid));
    ModesAreSwitches(db, nwid, p);
    SavedHasNoNewcomer(db, nwid, p, id);
    AutoAssignHas(rid, net, nwid, id, used, [], x);
    DerivedFamilies(nwid, id);
    FcIsNotFd(x);
    AllocatedFamilies(rid, used, nwid, id, net.pools);
  }

  lemma SavedHasNoNewcomer(db: Db, nwid: string, p: NetworkPatch, id: string)
    requires id !in MembersOf(db, nwid)
    ensures id !in MembersOf(SavedNetwork(db, nwid, p), nwid)
  {
    hide Reconciled;
  }

  lemma AllocatedFamilies(rid: Rid, used: set<Addr>, nwid: string, id: string, pools: Pools)
    ensures NextFreeIp(used, pools).Some? ==> NextFreeIp(used, pools).value.V4?
    ensures NextFreeIpv6(rid, used, nwid, id, pools).Some? ==> NextFreeIpv6(rid, used, nwid, id, pools).value.V6?
  {
  }
}
