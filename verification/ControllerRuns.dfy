/** Address disjointness over whole runs of the controller, and what is served beyond what is stored. */
module ControllerRuns {
  import opened Wrappers
  import opened Addressing
  import opened Reconciliation
  import opened Controller

  datatype Op =
    | SaveMember(nwid: string, id: string, member: MemberPatch)
    | Join(nwid: string, id: string)
    | SaveNetwork(nwid: string, network: NetworkPatch)
    | DeleteNetwork(nwid: string)
    | DeleteMember(nwid: string, id: string)

  function Or2(r: Result<Db>, db: Db): Db {
    match r case Ok(db') => db' case Err => db
  }

  /** Failed operations change nothing. */
  function Apply(rid: Rid, db: Db, op: Op): Db {
    match op
    case SaveMember(nwid, id, p) => Or2(SavedMember(rid, db, nwid, id, p), db)
    case Join(nwid, id) => Or2(JoinRequested(rid, db, nwid, id), db)
    case SaveNetwork(nwid, p) => SavedNetwork(db, nwid, p)
    case DeleteNetwork(nwid) => DeletedNetwork(db, nwid)
    case DeleteMember(nwid, id) => DeletedMember(db, nwid, id)
  }

  function Run(rid: Rid, ops: seq<Op>): Db {
    if ops == [] then Db(map[], map[]) else Apply(rid, Run(rid, ops[..|ops| - 1]), ops[|ops| - 1])
  }

  // ----- Invariant ------------------------------------------------------------------------------

  /** Two spellings of one hexadecimal member id. */
  predicate AreTwins(a: string, b: string) {
    a != b && ParseHex(a).Some? && ParseHex(a) == ParseHex(b)
  }

  ghost predicate NoTwins(ids: set<string>) {
    forall a, b :: a in ids && b in ids ==> !AreTwins(a, b)
  }

  predicate IsDerived(nwid: string, id: string, a: Addr) {
    SixPlane(nwid, id) == Some(a) || Rfc4193(nwid, id) == Some(a)
  }

  /** The IPv6 addresses that may be put into pools, network by network. */
  type Region = (string, u128) -> bool

  /** Nothing that may be in a pool of a network is derived there for one member while another could be given it. */
  ghost predicate KeepsApart(ids: set<string>, region: Region) {
    forall nwid, a, b, x ::
      IsNetworkId(nwid) && a in ids && b in ids && a != b && region(nwid, x) ==> !IsDerived(nwid, b, V6(x))
  }

  /** No id in two spellings, and no derived address in a pool: both can be seen before anything is saved. */
  ghost predicate IsSafe(ids: set<string>, region: Region) {
    NoTwins(ids) && KeepsApart(ids, region)
  }

  ghost predicate PoolsWithin(region: Region, nwid: string, pools: seq<Pool>) {
    forall i, x :: 0 <= i < |pools| && InPool(V6(x), pools[i]) ==> region(nwid, x)
  }

  ghost predicate AreDisjoint(ms: Members) {
    forall i, j, a :: i in ms && j in ms && i != j && a in ms[i].ips ==> a !in ms[j].ips
  }

  /** The address is derived for none of these ids but, maybe, the holder's. */
  ghost predicate IsNobodyElses(ids: set<string>, nwid: string, id: string, a: Addr) {
    forall j :: j in ids && j != id ==> !IsDerived(nwid, j, a)
  }

  ghost predicate MembersInv(ids: set<string>, nwid: string, ms: Members) {
    && (forall i :: i in ms ==> i in ids)
    && (forall i, a :: i in ms && a in ms[i].ips ==> IsNobodyElses(ids, nwid, i, a))
    && AreDisjoint(ms)
  }

  ghost predicate Inv(ids: set<string>, region: Region, db: Db) {
    && (forall nwid :: nwid in db.networks ==>
          IsNetworkId(nwid) && PoolsWithin(region, nwid, db.networks[nwid].pools))
    && (forall nwid :: nwid in db.members ==> MembersInv(ids, nwid, db.members[nwid]))
  }

  /** Payloads leave `ipAssignments` alone, ids are from `ids` or well-formed, and pools stay within the region. */
  ghost predicate IsAdmissible(ids: set<string>, region: Region, op: Op) {
    match op
    case SaveMember(_, id, p) => id in ids && p.ips == None
    case Join(_, id) => id in ids
    case SaveNetwork(nwid, p) =>
      IsNetworkId(nwid) && (p.pools.Some? ==> PoolsWithin(region, nwid, p.pools.value))
    case _ => true
  }

  /** Ids of the length that the controller accepts. */
  ghost predicate AreIds(ids: set<string>) {
    forall id :: id in ids ==> |id| == 10
  }

  /** Members that share a derived address are one member, under one spelling or two. */
  lemma DerivedDecides(nwid: string, a: string, b: string, x: Addr)
    requires |a| == 10 && |b| == 10
    requires IsDerived(nwid, a, x) && IsDerived(nwid, b, x)
    ensures ParseHex(a).Some? && ParseHex(a) == ParseHex(b)
  {
    hide SixPlaneOctets, Rfc4193Octets, FromOctets;
    TenDigits(a);
    TenDigits(b);
    DerivedAddressesAreInjective(ParseHex(nwid).value, ParseHex(a).value, ParseHex(nwid).value, ParseHex(b).value);
    DerivedAddressesAreInjective(ParseHex(nwid).value, ParseHex(b).value, ParseHex(nwid).value, ParseHex(a).value);
  }

  lemma TenDigits(id: string)
    requires |id| == 10
    ensures ParseHex(id).Some? ==> ParseHex(id).value < 0x100_0000_0000
  {
    Pow16Values();
    DigitsBound(id);
    DigitsBound(id[1..]);
    assert Pow16(10) == 16 * Pow16(9);
  }

  lemma OwnIsNobodyElses(ids: set<string>, nwid: string, id: string, a: Addr)
    requires NoTwins(ids) && AreIds(ids) && id in ids && IsDerived(nwid, id, a)
    ensures IsNobodyElses(ids, nwid, id, a)
  {
    hide IsDerived;
    forall j | j in ids && j != id && IsDerived(nwid, j, a)
      ensures false
    {
      assert !AreTwins(id, j);
      DerivedDecides(nwid, id, j, a);
    }
  }

  lemma DerivedLook(nwid: string, id: string)
    ensures forall a :: IsDerived(nwid, id, a) ==> LooksFc(a) || LooksFd(a)
  {
    DerivedFamilies(nwid, id);
  }

  lemma V4IsNobodys(ids: set<string>, nwid: string, id: string, a: Addr)
    requires a.V4?
    ensures IsNobodyElses(ids, nwid, id, a)
  {
    hide IsDerived;
    forall j | j in ids && j != id
      ensures !IsDerived(nwid, j, a)
    {
      DerivedLook(nwid, j);
    }
  }

  /** What an allocator gives is unused, and nobody else's. */
  lemma AllocatedIsNobodyElses(rid: Rid, ids: set<string>, region: Region, net: Network, nwid: string, id: string,
                               used: set<Addr>, ips: seq<Addr>, a: Addr)
    requires KeepsApart(ids, region) && IsNetworkId(nwid) && PoolsWithin(region, nwid, net.pools) && id in ids
    requires IsAllocated(rid, net, nwid, id, used, ips, a)
    ensures a !in used && IsNobodyElses(ids, nwid, id, a)
  {
    hide NextFreeIp, NextFreeIpv6, IsDerived, HasV4, HasCustom;
    if a.V4? {
      V4IsNobodys(ids, nwid, id, a);
    } else {
      var p :| p in net.pools && InPool(a, p);
      assert region(nwid, a.v6);
    }
  }

  /** Where an address on a list can come from: the old list, derivation, or an allocator. */
  lemma AssignedComeFrom(rid: Rid, ids: set<string>, region: Region, db: Db, nwid: string, id: string, ips: seq<Addr>,
                         a: Addr)
    requires KeepsApart(ids, region) && Inv(ids, region, db) && id in ids
    requires a in Assigned(rid, db, nwid, id, ips)
    ensures
      || a in ips
      || IsDerived(nwid, id, a)
      || (a !in Used(MembersOf(db, nwid)) && IsNobodyElses(ids, nwid, id, a))
  {
    hide AutoAssign, SixPlane, Rfc4193, TextStartsWith, IsAllocated, KeepsApart, PoolsWithin, IsNobodyElses, MembersInv;
    if nwid in db.networks {
      var net, used := db.networks[nwid], Used(MembersOf(db, nwid));
      AutoAssignHas(rid, net, nwid, id, used, ips, a);
      if IsAllocated(rid, net, nwid, id, used, ips, a) {
        AllocatedIsNobodyElses(rid, ids, region, net, nwid, id, used, ips, a);
      }
    }
  }

  lemma InsertKeeps(ids: set<string>, nwid: string, ms: Members, id: string, m: Member)
    requires NoTwins(ids) && AreIds(ids) && MembersInv(ids, nwid, ms) && id in ids
    requires forall a :: a in m.ips ==>
      || (id in ms && a in ms[id].ips)
      || IsDerived(nwid, id, a)
      || (a !in Used(ms) && IsNobodyElses(ids, nwid, id, a))
    ensures MembersInv(ids, nwid, ms[id := m])
  {
    hide IsDerived, NoTwins, AreIds;
    forall a | a in m.ips
      ensures IsNobodyElses(ids, nwid, id, a)
    {
      if IsDerived(nwid, id, a) {
        OwnIsNobodyElses(ids, nwid, id, a);
      }
    }
    assert forall j, a :: j in ms && a in ms[j].ips ==> a in Used(ms) && IsNobodyElses(ids, nwid, j, a);
    forall j, a | j in ms && j != id && a in m.ips
      ensures a !in ms[j].ips
    {
    }
  }

  lemma ReconcileKeeps(ids: set<string>, net: Network, nwid: string, ms: Members)
    requires NoTwins(ids) && AreIds(ids) && MembersInv(ids, nwid, ms)
    ensures MembersInv(ids, nwid, ReconciledAll(net, nwid, ms))
  {
    hide Reconciled, IsDerived, NoTwins, AreIds;
    var ms' := ReconciledAll(net, nwid, ms);
    forall i, a | i in ms' && a in ms'[i].ips
      ensures (a in ms[i].ips || IsDerived(nwid, i, a)) && IsNobodyElses(ids, nwid, i, a)
    {
      ReconciledComeFrom(net, nwid, i, ms[i], a);
      if IsDerived(nwid, i, a) {
        OwnIsNobodyElses(ids, nwid, i, a);
      }
    }
    forall i, j, a | i in ms' && j in ms' && i != j && a in ms'[i].ips
      ensures a !in ms'[j].ips
    {
    }
  }

  lemma ReconciledComeFrom(net: Network, nwid: string, id: string, m: Member, a: Addr)
    requires a in Reconciled(net, nwid, id, m).ips
    ensures a in m.ips || IsDerived(nwid, id, a)
  {
    hide Inline, SixPlane, Rfc4193, TextStartsWith;
    InlineHas(net, nwid, id, m.ips, a);
  }

  lemma SavedMemberKeeps(rid: Rid, ids: set<string>, region: Region, db: Db, nwid: string, id: string, base: Member)
    requires IsSafe(ids, region) && AreIds(ids) && Inv(ids, region, db) && id in ids
    requires forall a :: a in base.ips ==> id in MembersOf(db, nwid) && a in MembersOf(db, nwid)[id].ips
    ensures Inv(ids, region, WithMember(db, nwid, id, Refreshed(rid, db, nwid, id, base)))
  {
    hide Assigned, PoolsWithin, MembersInv, IsDerived, IsNobodyElses, NoTwins, KeepsApart, AreIds;
    var ms, m := MembersOf(db, nwid), Refreshed(rid, db, nwid, id, base);
    forall a | a in m.ips
      ensures
        || (id in ms && a in ms[id].ips)
        || IsDerived(nwid, id, a)
        || (a !in Used(ms) && IsNobodyElses(ids, nwid, id, a))
    {
      if a !in base.ips {
        AssignedComeFrom(rid, ids, region, db, nwid, id, base.ips, a);
      }
    }
    assert MembersInv(ids, nwid, ms) by { EmptyInv(ids, nwid); }
    InsertKeeps(ids, nwid, ms, id, m);
  }

  lemma EmptyInv(ids: set<string>, nwid: string)
    ensures MembersInv(ids, nwid, map[])
  {
  }

  lemma DeleteKeeps(ids: set<string>, nwid: string, ms: Members, id: string)
    requires MembersInv(ids, nwid, ms)
    ensures MembersInv(ids, nwid, ms - {id})
  {
    hide IsNobodyElses;
  }

  lemma ApplyKeeps(rid: Rid, ids: set<string>, region: Region, db: Db, op: Op)
    requires IsSafe(ids, region) && AreIds(ids) && Inv(ids, region, db) && IsAdmissible(ids, region, op)
    ensures Inv(ids, region, Apply(rid, db, op))
  {
    hide PoolsWithin, MembersInv, ReconciledAll, Refreshed, NoTwins, KeepsApart, AreIds;
    match op
    case SaveMember(nwid, id, p) =>
      if |id| == 10 {
        var base := if id in MembersOf(db, nwid) then MembersOf(db, nwid)[id] else NEW_MEMBER;
        SavedMemberKeeps(rid, ids, region, db, nwid, id, PatchedMember(base, p));
      }
    case Join(nwid, id) =>
      if IsHexId(id) && nwid in db.networks && id !in MembersOf(db, nwid) {
        SavedMemberKeeps(rid, ids, region, db, nwid, id, Member(!db.networks[nwid].private, false, [], 1));
      }
    case SaveNetwork(nwid, p) =>
      assert PoolsWithin(region, nwid, []) by { NoPools(region, nwid); }
      if nwid in db.members {
        ReconcileKeeps(ids, SavedNetwork(db, nwid, p).networks[nwid], nwid, db.members[nwid]);
      }
    case DeleteNetwork(nwid) =>
    case DeleteMember(nwid, id) =>
      if nwid in db.members {
        DeleteKeeps(ids, nwid, db.members[nwid], id);
      }
  }

  lemma NoPools(region: Region, nwid: string)
    ensures PoolsWithin(region, nwid, [])
  {
  }

  lemma {:induction false} RunsKeepInv(rid: Rid, ids: set<string>, region: Region, ops: seq<Op>)
    requires IsSafe(ids, region) && AreIds(ids) && forall i :: 0 <= i < |ops| ==> IsAdmissible(ids, region, ops[i])
    ensures Inv(ids, region, Run(rid, ops))
  {
    hide Apply, IsSafe, AreIds, IsAdmissible;
    if ops != [] {
      RunsKeepInv(rid, ids, region, ops[..|ops| - 1]);
      ApplyKeeps(rid, ids, region, Run(rid, ops[..|ops| - 1]), ops[|ops| - 1]);
    }
  }

  /** On every network and after any admissible run, no address is on two members' lists. */
  ghost predicate RunsAreDisjoint(rid: Rid, ids: set<string>, region: Region) {
    forall ops: seq<Op>, nwid: string ::
      (forall i :: 0 <= i < |ops| ==> IsAdmissible(ids, region, ops[i])) ==> AreDisjoint(MembersOf(Run(rid, ops), nwid))
  }

  lemma InvIsDisjoint(ids: set<string>, region: Region, db: Db, nwid: string)
    requires Inv(ids, region, db)
    ensures AreDisjoint(MembersOf(db, nwid))
  {
    hide PoolsWithin, IsNobodyElses;
  }

  // ----- Collisions -----------------------------------------------------------------------------

  function Authorize(nwid: string, id: string): Op {
    SaveMember(nwid, id, MemberPatch(Some(true), None, None, None))
  }

  /** Both derived families and custom addresses on, from these pools. */
  function AllModes(pools: Pools): NetworkPatch {
    NetworkPatch(Some(true), Some(Some(false)), Some(V6Mode(Some(true), Some(true), Some(true))), Some(pools), None)
  }

  /** A new network and two members authorized one after the other. */
  lemma TwoMembers(rid: Rid, nwid: string, patch: NetworkPatch, a: string, b: string) returns (ops: seq<Op>)
    requires |a| == 10 && |b| == 10 && a != b
    ensures ops == [SaveNetwork(nwid, patch), Authorize(nwid, a), Authorize(nwid, b)]
    ensures var ms, net := MembersOf(Run(rid, ops), nwid), PatchedNetwork(NEW_NETWORK, patch);
      && a in ms && ms[a].ips == AutoAssign(rid, net, nwid, a, {}, [])
      && b in ms && ms[b].ips == AutoAssign(rid, net, nwid, b, set x | x in ms[a].ips, [])
  {
    hide AutoAssign;
    ops := [SaveNetwork(nwid, patch), Authorize(nwid, a), Authorize(nwid, b)];
    var net := PatchedNetwork(NEW_NETWORK, patch);
    var db1 := Db(map[nwid := net], map[]);
    assert ops[..1] == [ops[0]] && [ops[0]][..0] == [];
    assert Run(rid, ops[..1]) == db1;
    var db2 := WithMember(db1, nwid, a, Refreshed(rid, db1, nwid, a, Member(true, false, [], 1)));
    assert ops[..2][..1] == ops[..1];
    assert Run(rid, ops[..2]) == db2;
    var db3 := WithMember(db2, nwid, b, Refreshed(rid, db2, nwid, b, Member(true, false, [], 1)));
    assert Run(rid, ops) == db3;
    assert Used(MembersOf(db1, nwid)) == {};
    assert Used(MembersOf(db2, nwid)) == set x | x in MembersOf(db2, nwid)[a].ips;
  }

  lemma DerivedIsAssigned(rid: Rid, patch: NetworkPatch, nwid: string, id: string, used: set<Addr>, x: Addr)
    requires IsDerived(nwid, id, x) && patch.v6Mode.Some? && patch.v6Mode.value.sixPlane == Some(true)
    requires patch.v6Mode.value.rfc4193 == Some(true)
    ensures x in AutoAssign(rid, PatchedNetwork(NEW_NETWORK, patch), nwid, id, used, [])
  {
    hide AutoAssign, SixPlane, Rfc4193, TextStartsWith;
    DerivedFamilies(nwid, id);
    FcIsNotFd(x);
    AutoAssignHas(rid, PatchedNetwork(NEW_NETWORK, patch), nwid, id, used, [], x);
  }

  /** Two spellings of one id that are authorized on a network with derived addresses are given the same ones. */
  lemma TwinsCollide(rid: Rid, nwid: string, a: string, b: string) returns (ops: seq<Op>)
    requires |a| == 10 && |b| == 10 && AreTwins(a, b) && ParseHex(nwid).Some?
    ensures ops == [SaveNetwork(nwid, AllModes([])), Authorize(nwid, a), Authorize(nwid, b)]
    ensures !AreDisjoint(MembersOf(Run(rid, ops), nwid))
  {
    hide AutoAssign, Run, IsDerived;
    ops := TwoMembers(rid, nwid, AllModes([]), a, b);
    var ms := MembersOf(Run(rid, ops), nwid);
    var x := SixPlaneOfTwins(nwid, a, b);
    DerivedIsAssigned(rid, AllModes([]), nwid, a, {}, x);
    DerivedIsAssigned(rid, AllModes([]), nwid, b, (set y | y in ms[a].ips), x);
  }

  lemma SixPlaneOfTwins(nwid: string, a: string, b: string) returns (x: Addr)
    requires AreTwins(a, b) && ParseHex(nwid).Some?
    ensures IsDerived(nwid, a, x) && IsDerived(nwid, b, x)
  {
    x := SixPlane(nwid, a).value;
  }

  /** A pool from which the first member's first candidate is an address derived for the second. */
  lemma LookalikePoolCollides(rid: Rid, nwid: string, p: Pool, a: string, b: string, x: Addr) returns (ops: seq<Op>)
    requires |a| == 10 && |b| == 10 && a != b
    requires IsCandidate(rid, nwid, a, p, 0, x) && IsDerived(nwid, b, x)
    ensures ops == [SaveNetwork(nwid, AllModes([p])), Authorize(nwid, a), Authorize(nwid, b)]
    ensures !AreDisjoint(MembersOf(Run(rid, ops), nwid))
  {
    hide AutoAssign, Run, IsDerived, NextFreeIpv6, IsCandidate;
    FirstCandidate(rid, nwid, p, a, x);
    var net := PatchedNetwork(NEW_NETWORK, AllModes([p]));
    AutoAssignHas(rid, net, nwid, a, {}, [], x);
    ops := TwoMembers(rid, nwid, AllModes([p]), a, b);
    var ms := MembersOf(Run(rid, ops), nwid);
    DerivedIsAssigned(rid, AllModes([p]), nwid, b, (set y | y in ms[a].ips), x);
  }

  lemma FirstCandidate(rid: Rid, nwid: string, p: Pool, id: string, x: Addr)
    requires IsCandidate(rid, nwid, id, p, 0, x)
    ensures x.V6? && NoWholeSpace([p]) && NextFreeIpv6(rid, {}, nwid, id, [p]) == Some(x)
  {
  }

  // ----- The exact condition --------------------------------------------------------------------

  const SOME_NETWORK := "0123456789abcdef"

  lemma {:induction false} NoPlaceholder(s: string)
    requires '_' !in s
    ensures !HasPlaceholder(s)
  {
    if |s| >= 6 {
      assert s[..6][0] == s[0];
      NoPlaceholder(s[1..]);
    }
  }

  /** A network id in lower-case hexadecimal is well-formed and a number. */
  lemma HexNetworkId(nwid: string)
    requires IsLowerHexId(nwid, 16)
    ensures IsNetworkId(nwid) && ParseHex(nwid).Some?
  {
    hide Digits, HasPlaceholder;
    NoPlaceholder(nwid);
    DigitsAreInjective(nwid, nwid);
    DigitsBound(nwid);
    SixteenDigits();
  }

  lemma SixteenDigits()
    ensures Pow16(16) == 0x1_0000_0000_0000_0000
  {
    Pow16Values();
    assert Pow16(13) == 16 * (16 * (16 * Pow16(10)));
  }

  lemma TwinsBreakRuns(rid: Rid, ids: set<string>, region: Region, a: string, b: string) returns (ops: seq<Op>)
    requires AreIds(ids) && a in ids && b in ids && AreTwins(a, b)
    ensures forall i :: 0 <= i < |ops| ==> IsAdmissible(ids, region, ops[i])
    ensures !AreDisjoint(MembersOf(Run(rid, ops), SOME_NETWORK))
  {
    hide Run, AreDisjoint, PoolsWithin, AreTwins, IsNetworkId, AllModes, ParseHex;
    HexNetworkId(SOME_NETWORK);
    NoPools(region, SOME_NETWORK);
    AllModesHasPools([]);
    ops := TwinsCollide(rid, SOME_NETWORK, a, b);
  }

  lemma LookalikesBreakRuns(rid: Rid, ids: set<string>, region: Region, nwid: string, a: string, b: string, x: u128)
    returns (ops: seq<Op>)
    requires AreIds(ids) && IsNetworkId(nwid) && a in ids && b in ids && a != b
    requires region(nwid, x) && IsDerived(nwid, b, V6(x))
    ensures forall i :: 0 <= i < |ops| ==> IsAdmissible(ids, region, ops[i])
    ensures !AreDisjoint(MembersOf(Run(rid, ops), nwid))
  {
    hide Run, AreDisjoint, PoolsWithin, IsDerived, IsNetworkId, AllModes, IsCandidate;
    var p := Pool(Some(V6(x)), Some(V6(x)));
    OnlyCandidate(rid, region, nwid, a, x);
    FirstCandidate(rid, nwid, p, a, V6(x));
    AllModesHasPools([p]);
    ops := LookalikePoolCollides(rid, nwid, p, a, b, V6(x));
  }

  /**
   * Disjointness over all runs, and exactly which member ids and which pools have it: the ids hold no second spelling
   * of one of them, and the pools hold no address that is derived for one of them while there is another.
   */
  lemma AddressesStayDisjointExactly(rid: Rid, ids: set<string>, region: Region)
    requires AreIds(ids)
    ensures RunsAreDisjoint(rid, ids, region) <==> IsSafe(ids, region)
  {
    hide Run, AreDisjoint, IsAdmissible, AreTwins, IsDerived, IsNetworkId, AreIds;
    if IsSafe(ids, region) {
      forall ops: seq<Op>, nwid: string | forall i :: 0 <= i < |ops| ==> IsAdmissible(ids, region, ops[i])
        ensures AreDisjoint(MembersOf(Run(rid, ops), nwid))
      {
        RunsKeepInv(rid, ids, region, ops);
        InvIsDisjoint(ids, region, Run(rid, ops), nwid);
      }
    } else if !NoTwins(ids) {
      var a, b :| a in ids && b in ids && AreTwins(a, b);
      var ops := TwinsBreakRuns(rid, ids, region, a, b);
    } else {
      var nwid, a, b, x :| IsNetworkId(nwid) && a in ids && b in ids && a != b && region(nwid, x)
                           && IsDerived(nwid, b, V6(x));
      var ops := LookalikesBreakRuns(rid, ids, region, nwid, a, b, x);
    }
  }

  /** Everything but the addresses that are derived on a network for some of these ids. */
  ghost function NotDerived(ids: set<string>): Region {
    (nwid, x: u128) => forall b :: b in ids ==> !IsDerived(nwid, b, V6(x))
  }

  /** As long as each pool holds nothing derived on its network, the ids alone decide, wherever the pools lie. */
  lemma PoolsWithoutDerivedAreSafe(rid: Rid, ids: set<string>)
    requires AreIds(ids)
    ensures RunsAreDisjoint(rid, ids, NotDerived(ids)) <==> NoTwins(ids)
  {
    hide RunsAreDisjoint, NoTwins, IsDerived;
    assert KeepsApart(ids, NotDerived(ids));
    AddressesStayDisjointExactly(rid, ids, NotDerived(ids));
  }

  lemma AllModesHasPools(pools: Pools)
    ensures AllModes(pools).pools == Some(pools)
  {
  }

  lemma OnlyCandidate(rid: Rid, region: Region, nwid: string, id: string, x: u128)
    requires region(nwid, x)
    ensures var p := Pool(Some(V6(x)), Some(V6(x)));
      IsCandidate(rid, nwid, id, p, 0, V6(x)) && PoolsWithin(region, nwid, [p])
  {
  }

  /** Ids in lower case have one spelling each, and pools outside fc00::/8 and fd00::/8 hold nothing derived. */
  lemma UsualSetupsAreSafe(ids: set<string>, region: Region)
    requires forall id :: id in ids ==> IsLowerHexId(id, 10)
    requires forall nwid, x :: region(nwid, x) ==> IsCustom(V6(x))
    ensures IsSafe(ids, region)
  {
    hide ParseHex, IsDerived, IsLowerHexId;
    forall a, b | a in ids && b in ids
      ensures !AreTwins(a, b)
    {
      MemberIdIsNumber(a, b);
    }
    forall nwid, b, x | region(nwid, x)
      ensures !IsDerived(nwid, b, V6(x))
    {
      DerivedLook(nwid, b);
    }
  }

  const NO_CHANGES := NetworkPatch(None, None, None, None, None)

  /**
   * A network update counts a revision exactly for the automatic members whose lists it changes, and touches no other
   * network; repeating it without new settings changes no member at all.
   */
  lemma UpdatesCountRevisionsExactly(db: Db, nwid: string, p: NetworkPatch)
    ensures var once := SavedNetwork(db, nwid, p);
      && (forall id :: id in MembersOf(db, nwid) ==>
            && id in MembersOf(once, nwid)
            && var m, m' := MembersOf(db, nwid)[id], MembersOf(once, nwid)[id];
               && m'.revision == (if m'.ips != m.ips then m.revision + 1 else m.revision)
               && (m'.ips != m.ips ==> IsAutomatic(m)))
      && (forall other :: other != nwid ==> MembersOf(once, other) == MembersOf(db, other))
      && SavedNetwork(once, nwid, NO_CHANGES).members == once.members
  {
    hide Inline;
    var once := SavedNetwork(db, nwid, p);
    var net, net' := once.networks[nwid], PatchedNetwork(once.networks[nwid], NO_CHANGES);
    if nwid in db.members {
      var ms, ms' := db.members[nwid], ReconciledAll(net, nwid, db.members[nwid]);
      forall id | id in ms
        ensures Reconciled(net', nwid, id, ms'[id]) == ms'[id]
      {
        InlineIsIdempotent(net, nwid, id, ms[id].ips);
        InlineIgnoresRevision(net, nwid, id, ms'[id].ips);
      }
      assert ReconciledAll(net', nwid, ms') == ms';
      assert once.members[nwid := ms'] == once.members;
    }
  }

  lemma InlineIgnoresRevision(net: Network, nwid: string, id: string, ips: seq<Addr>)
    ensures Inline(PatchedNetwork(net, NO_CHANGES), nwid, id, ips) == Inline(net, nwid, id, ips)
  {
    hide SyncDerived, Discard;
  }

  // ----- Served addresses -----------------------------------------------------------------------

  /** What a config request of this member is answered with. */
  function Served(rid: Rid, db: Db, nwid: string, id: string): seq<Addr>
    requires id in MembersOf(db, nwid)
  {
    EffectiveMember(rid, db, nwid, id).value.ips
  }

  /** Neither has an IPv4 address stored and there is one to allocate: both are served that one. */
  predicate ClashesV4(net: Network, used: set<Addr>, a: Member, b: Member) {
    V4On(net) && !HasV4(a.ips) && !HasV4(b.ips) && NextFreeIp(used, net.pools).Some?
  }

  /** Neither has a custom IPv6 address stored and their first free candidates coincide. */
  predicate ClashesV6(rid: Rid, net: Network, nwid: string, used: set<Addr>, i: string, a: Member, j: string,
                      b: Member) {
    && CustomOn(net) && !HasCustom(a.ips) && !HasCustom(b.ips)
    && NextFreeIpv6(rid, used, nwid, i, net.pools).Some?
    && NextFreeIpv6(rid, used, nwid, i, net.pools) == NextFreeIpv6(rid, used, nwid, j, net.pools)
  }

  lemma ServedHas(rid: Rid, db: Db, nwid: string, i: string, x: Addr)
    requires nwid in db.networks && i in MembersOf(db, nwid) && IsAutomatic(MembersOf(db, nwid)[i])
    ensures var net, used, ips := db.networks[nwid], Used(MembersOf(db, nwid)), MembersOf(db, nwid)[i].ips;
      x in Served(rid, db, nwid, i) <==> IsKept(net, nwid, i, ips, x) || IsAllocated(rid, net, nwid, i, used, ips, x)
  {
    hide AutoAssign, IsKept, IsAllocated;
    AutoAssignHas(rid, db.networks[nwid], nwid, i, Used(MembersOf(db, nwid)), MembersOf(db, nwid)[i].ips, x);
  }

  /** What an automatic member is served is kept, its own, or allocated; what another is served is what is stored. */
  lemma ServedComeFrom(rid: Rid, ids: set<string>, region: Region, db: Db, nwid: string, i: string, x: Addr)
    requires IsSafe(ids, region) && AreIds(ids) && Inv(ids, region, db) && nwid in db.networks && nwid in db.members
    requires i in db.members[nwid] && x in Served(rid, db, nwid, i)
    ensures IsNobodyElses(ids, nwid, i, x)
    ensures var net, used, m := db.networks[nwid], Used(db.members[nwid]), db.members[nwid][i];
      || x in m.ips
      || (IsAutomatic(m) && IsDerived(nwid, i, x))
      || (IsAutomatic(m) && x !in used && IsAllocated(rid, net, nwid, i, used, m.ips, x))
  {
    hide AutoAssign, SixPlane, Rfc4193, TextStartsWith, IsAllocated, KeepsApart, NoTwins, AreIds, PoolsWithin,
      IsNobodyElses;
    var net, used, m := db.networks[nwid], Used(db.members[nwid]), db.members[nwid][i];
    if IsAutomatic(m) {
      ServedHas(rid, db, nwid, i, x);
      if x in m.ips {
      } else if IsDerived(nwid, i, x) {
        OwnIsNobodyElses(ids, nwid, i, x);
      } else {
        AllocatedIsNobodyElses(rid, ids, region, net, nwid, i, used, m.ips, x);
      }
    }
  }

  /** Both are given addresses by an allocator, and it gives them the same one. */
  predicate Clash(rid: Rid, net: Network, nwid: string, used: set<Addr>, i: string, a: Member, j: string, b: Member) {
    && IsAutomatic(a) && IsAutomatic(b)
    && (ClashesV4(net, used, a, b) || ClashesV6(rid, net, nwid, used, i, a, j, b))
  }

  lemma NoClashNoOverlap(rid: Rid, ids: set<string>, region: Region, db: Db, nwid: string, i: string, j: string,
                         x: Addr)
    requires IsSafe(ids, region) && AreIds(ids) && Inv(ids, region, db) && nwid in db.networks && nwid in db.members
    requires i in db.members[nwid] && j in db.members[nwid] && i != j
    requires x in Served(rid, db, nwid, i) && x in Served(rid, db, nwid, j)
    ensures var ms := db.members[nwid]; Clash(rid, db.networks[nwid], nwid, Used(ms), i, ms[i], j, ms[j])
  {
    hide Served, IsDerived, KeepsApart, NoTwins, AreIds, PoolsWithin, NextFreeIp, NextFreeIpv6, HasV4, HasCustom;
    var ms, used := db.members[nwid], Used(db.members[nwid]);
    assert x in ms[i].ips || x in ms[j].ips ==> x in used;
    ServedComeFrom(rid, ids, region, db, nwid, i, x);
    ServedComeFrom(rid, ids, region, db, nwid, j, x);
  }

  lemma ClashOverlaps(rid: Rid, db: Db, nwid: string, i: string, j: string) returns (x: Addr)
    requires nwid in db.networks && nwid in db.members && i in db.members[nwid] && j in db.members[nwid]
    requires var ms := db.members[nwid]; Clash(rid, db.networks[nwid], nwid, Used(ms), i, ms[i], j, ms[j])
    ensures x in Served(rid, db, nwid, i) && x in Served(rid, db, nwid, j)
  {
    hide Served, IsKept, HasV4, HasCustom;
    var net, used, ms := db.networks[nwid], Used(db.members[nwid]), db.members[nwid];
    if ClashesV4(net, used, ms[i], ms[j]) {
      x := NextFreeIp(used, net.pools).value;
    } else {
      x := NextFreeIpv6(rid, used, nwid, i, net.pools).value;
    }
    ServedHas(rid, db, nwid, i, x);
    ServedHas(rid, db, nwid, j, x);
  }

  /**
   * What is served is not what is stored: the stored lists are disjoint, but two members are served a common address
   * exactly when both lack one that the allocator would give each of them.
   */
  lemma ServedDisjointExactly(rid: Rid, ids: set<string>, region: Region, db: Db, nwid: string, i: string, j: string)
    requires IsSafe(ids, region) && AreIds(ids) && Inv(ids, region, db) && nwid in db.networks && nwid in db.members
    requires i in db.members[nwid] && j in db.members[nwid] && i != j
    ensures (forall x :: x in Served(rid, db, nwid, i) ==> x !in Served(rid, db, nwid, j))
       <==> var ms := db.members[nwid]; !Clash(rid, db.networks[nwid], nwid, Used(ms), i, ms[i], j, ms[j])
  {
    hide Served, Inv, Clash;
    var ms := db.members[nwid];
    if Clash(rid, db.networks[nwid], nwid, Used(ms), i, ms[i], j, ms[j]) {
      var x := ClashOverlaps(rid, db, nwid, i, j);
    } else {
      forall x | x in Served(rid, db, nwid, i) && x in Served(rid, db, nwid, j)
        ensures false
      {
        NoClashNoOverlap(rid, ids, region, db, nwid, i, j, x);
      }
    }
  }

  const LATE_POOLS: Pools := [Pool(Some(V4(10)), Some(V4(20)))]
  const PUBLIC := NetworkPatch(Some(false), None, None, None, None)
  const POOLS_ONLY := NetworkPatch(None, None, None, Some(LATE_POOLS), None)

  /** Such a clash is reached when pools are added to a network after its members have joined. */
  lemma ServedClashIsReachable(rid: Rid, nwid: string, i: string, j: string) returns (db: Db)
    requires IsHexId(i) && IsHexId(j) && i != j
    ensures db == Run(rid, [SaveNetwork(nwid, PUBLIC), Join(nwid, i), Join(nwid, j), SaveNetwork(nwid, POOLS_ONLY)])
    ensures i in MembersOf(db, nwid) && j in MembersOf(db, nwid)
    ensures V4(10) in Served(rid, db, nwid, i) && V4(10) in Served(rid, db, nwid, j)
  {
    hide SixPlane, Rfc4193, AutoAssign, TextStartsWith, Inline, NextFreeIp, NextFreeIpv6;
    var ops := [SaveNetwork(nwid, PUBLIC), Join(nwid, i), Join(nwid, j), SaveNetwork(nwid, POOLS_ONLY)];
    var net := PatchedNetwork(NEW_NETWORK, PUBLIC);
    var net' := PatchedNetwork(net, POOLS_ONLY);
    var db1 := Db(map[nwid := net], map[]);
    assert ops[..1] == [ops[0]] && [ops[0]][..0] == [];
    assert Run(rid, ops[..1]) == db1;
    var db2 := WithMember(db1, nwid, i, Refreshed(rid, db1, nwid, i, Member(true, false, [], 1)));
    assert ops[..2][..1] == ops[..1];
    assert Run(rid, ops[..2]) == db2;
    var db3 := WithMember(db2, nwid, j, Refreshed(rid, db2, nwid, j, Member(true, false, [], 1)));
    assert ops[..3][..2] == ops[..2];
    assert Run(rid, ops[..3]) == db3;
    db := SavedNetwork(db3, nwid, POOLS_ONLY);
    assert Run(rid, ops) == db;
    NothingToAssign(rid, net, nwid, i, Used(MembersOf(db1, nwid)));
    NothingToAssign(rid, net, nwid, j, Used(MembersOf(db2, nwid)));
    NothingToReconcile(net', nwid, i);
    NothingToReconcile(net', nwid, j);
    var ms := MembersOf(db, nwid);
    assert ms[i].ips == [] && ms[j].ips == [] && Used(ms) == {};
    FirstOfLatePools();
    ServedHas(rid, db, nwid, i, V4(10));
    ServedHas(rid, db, nwid, j, V4(10));
  }

  lemma FirstOfLatePools()
    ensures NextFreeIp({}, LATE_POOLS) == Some(V4(10))
  {
  }

  lemma HasElement(ips: seq<Addr>)
    ensures ips == [] || exists x :: x in ips
  {
    if ips != [] {
      assert ips[0] in ips;
    }
  }

  lemma NothingToAssign(rid: Rid, net: Network, nwid: string, id: string, used: set<Addr>)
    requires net.pools == [] && !SixPlaneOn(net) && !Rfc4193On(net)
    ensures AutoAssign(rid, net, nwid, id, used, []) == []
  {
    var ips := AutoAssign(rid, net, nwid, id, used, []);
    forall x
      ensures x !in ips
    {
      AutoAssignHas(rid, net, nwid, id, used, [], x);
    }
    HasElement(ips);
  }

  lemma NothingToReconcile(net: Network, nwid: string, id: string)
    requires !SixPlaneOn(net) && !Rfc4193On(net)
    ensures Inline(net, nwid, id, []) == []
  {
    var ips := Inline(net, nwid, id, []);
    forall x
      ensures x !in ips
    {
      InlineHas(net, nwid, id, [], x);
    }
    HasElement(ips);
  }
}
