/**
 * The two separately written reconcilers of a member's address list: the one that also allocates, and the copy inside
 * the network update that does not.
 */
module Reconciliation {
  import opened Wrappers
  import opened Addressing

  /** Pools as the controller can use them: one that spans all of IPv6 makes the allocator divide by zero. */
  type Pools = ps: seq<Pool> | NoWholeSpace(ps) witness []

  /** The switches of `v6AssignMode`, each possibly absent. */
  datatype V6Mode = V6Mode(zt: Option<bool>, sixPlane: Option<bool>, rfc4193: Option<bool>)

  datatype Network = Network(private: bool, v4Zt: Option<bool>, v6Mode: V6Mode, pools: Pools, revision: nat)

  function Switch(o: Option<bool>, default: bool): bool {
    match o case Some(b) => b case None => default
  }

  predicate V4On(net: Network) {
    Switch(net.v4Zt, true)
  }

  predicate SixPlaneOn(net: Network) {
    Switch(net.v6Mode.sixPlane, false)
  }

  predicate Rfc4193On(net: Network) {
    Switch(net.v6Mode.rfc4193, false)
  }

  predicate CustomOn(net: Network) {
    Switch(net.v6Mode.zt, false)
  }

  predicate IsV4(a: Addr) {
    a.V4?
  }

  /** `retain`, by what it drops. */
  function Discard(ips: seq<Addr>, drop: Addr -> bool): (r: seq<Addr>)
    ensures forall a :: a in r <==> a in ips && !drop(a)
    ensures (forall a :: a in ips ==> !drop(a)) ==> r == ips
  {
    if ips == [] then []
    else (if drop(ips[0]) then [] else [ips[0]]) + Discard(ips[1..], drop)
  }

  function Remove(ips: seq<Addr>, derived: Option<Addr>): (r: seq<Addr>)
    ensures forall a :: a in r <==> a in ips && Some(a) != derived
    ensures (forall a :: a in ips ==> Some(a) != derived) ==> r == ips
  {
    if ips == [] then []
    else (if Some(ips[0]) == derived then [] else [ips[0]]) + Remove(ips[1..], derived)
  }

  function Append(ips: seq<Addr>, a: Option<Addr>): (r: seq<Addr>)
    ensures forall x :: x in r <==> x in ips || a == Some(x)
  {
    match a case Some(x) => ips + [x] case None => ips
  }

  /** Adds the derived address when its mode is on; drops it and its family when it is off. */
  function SyncDerived(ips: seq<Addr>, on: bool, derived: Option<Addr>, family: Addr -> bool): seq<Addr> {
    if on then (if derived.Some? && derived.value !in ips then ips + [derived.value] else ips)
    else Discard(Remove(ips, derived), family)
  }

  function SyncBoth(net: Network, nwid: string, member: string, ips: seq<Addr>): seq<Addr> {
    SyncDerived(SyncDerived(ips, SixPlaneOn(net), SixPlane(nwid, member), LooksFc),
                Rfc4193On(net), Rfc4193(nwid, member), LooksFd)
  }

  predicate HasV4(ips: seq<Addr>) {
    exists i :: 0 <= i < |ips| && ips[i].V4?
  }

  predicate HasCustom(ips: seq<Addr>) {
    exists i :: 0 <= i < |ips| && IsCustom(ips[i])
  }

  /** The result of the copy inside `save_network`. */
  function Inline(net: Network, nwid: string, member: string, ips: seq<Addr>): seq<Addr> {
    var s1 := if V4On(net) then ips else Discard(ips, IsV4);
    var s2 := SyncBoth(net, nwid, member, s1);
    if CustomOn(net) then s2 else Discard(s2, IsCustom)
  }

  /** `auto_assign_ips_for_member`, given the addresses in use on the network. */
  function AutoAssign(rid: Rid, net: Network, nwid: string, member: string, used: set<Addr>, ips: seq<Addr>)
    : seq<Addr>
  {
    var s1 := if !V4On(net) then Discard(ips, IsV4)
              else if HasV4(ips) then ips else Append(ips, NextFreeIp(used, net.pools));
    var s2 := SyncBoth(net, nwid, member, s1);
    if !CustomOn(net) then Discard(s2, IsCustom)
    else if HasCustom(s2) then s2 else Append(s2, NextFreeIpv6(rid, used, nwid, member, net.pools))
  }

  method AutoAssignIps(rid: Rid, net: Network, nwid: string, member: string, used: set<Addr>, currentIps: seq<Addr>)
    returns (ips: seq<Addr>)
    ensures ips == AutoAssign(rid, net, nwid, member, used, currentIps)
  {
    hide NextFreeIp, NextFreeIpv6, SixPlane, Rfc4193, Discard;
    ips := currentIps;
    if V4On(net) {
      if !HasV4(ips) {
        var free := FindFreeIp(used, net.pools);
        if free.Some? {
          ips := ips + [free.value];
        }
      }
    } else {
      ips := Discard(ips, IsV4);
    }
    var sixPlane := SixPlane(nwid, member);
    ips := SyncFamily(ips, SixPlaneOn(net), sixPlane, LooksFc);
    var rfc4193 := Rfc4193(nwid, member);
    ips := SyncFamily(ips, Rfc4193On(net), rfc4193, LooksFd);
    if CustomOn(net) {
      if !HasCustom(ips) {
        var free := FindFreeIpv6(rid, used, nwid, member, net.pools);
        if free.Some? {
          ips := ips + [free.value];
        }
      }
    } else {
      ips := Discard(ips, IsCustom);
    }
  }

  method SyncFamily(currentIps: seq<Addr>, on: bool, derived: Option<Addr>, family: Addr -> bool)
    returns (ips: seq<Addr>)
    ensures ips == SyncDerived(currentIps, on, derived, family)
  {
    ips := currentIps;
    if on {
      if derived.Some? {
        if derived.value !in ips {
          ips := ips + [derived.value];
        }
      }
    } else {
      ips := Remove(ips, derived);
      ips := Discard(ips, family);
    }
  }

  /** The copy inside `save_network`, step by step. */
  method ReconcileInline(net: Network, nwid: string, member: string, currentIps: seq<Addr>) returns (ips: seq<Addr>)
    ensures ips == Inline(net, nwid, member, currentIps)
  {
    hide SixPlane, Rfc4193, Discard;
    ips := currentIps;
    if !V4On(net) {
      ips := Discard(ips, IsV4);
    }
    ips := SyncFamily(ips, SixPlaneOn(net), SixPlane(nwid, member), LooksFc);
    ips := SyncFamily(ips, Rfc4193On(net), Rfc4193(nwid, member), LooksFd);
    if !CustomOn(net) {
      ips := Discard(ips, IsCustom);
    }
  }

  // ----- What the lists hold --------------------------------------------------------------------

  /** The address belongs on the list whether or not anything is allocated. */
  predicate IsKept(net: Network, nwid: string, member: string, ips: seq<Addr>, a: Addr) {
    if a.V4? then V4On(net) && a in ips
    else if LooksFc(a) then SixPlaneOn(net) && (a in ips || SixPlane(nwid, member) == Some(a))
    else if LooksFd(a) then Rfc4193On(net) && (a in ips || Rfc4193(nwid, member) == Some(a))
    else CustomOn(net) && a in ips
  }

  /** The address is the one that the allocators add. */
  predicate IsAllocated(rid: Rid, net: Network, nwid: string, member: string, used: set<Addr>, ips: seq<Addr>,
                        a: Addr) {
    if a.V4? then V4On(net) && !HasV4(ips) && NextFreeIp(used, net.pools) == Some(a)
    else CustomOn(net) && !HasCustom(ips) && NextFreeIpv6(rid, used, nwid, member, net.pools) == Some(a)
  }

  lemma SyncBothHas(net: Network, nwid: string, member: string, ips: seq<Addr>, a: Addr)
    ensures a in SyncBoth(net, nwid, member, ips)
       <==> if LooksFc(a) then SixPlaneOn(net) && (a in ips || SixPlane(nwid, member) == Some(a))
            else if LooksFd(a) then Rfc4193On(net) && (a in ips || Rfc4193(nwid, member) == Some(a))
            else a in ips
  {
    hide SixPlane, Rfc4193, TextStartsWith;
    FcIsNotFd(a);
    DerivedFamilies(nwid, member);
  }

  lemma FcIsNotFd(a: Addr)
    ensures !(LooksFc(a) && LooksFd(a))
  {
  }

  lemma SyncBothKeepsCustom(net: Network, nwid: string, member: string, ips: seq<Addr>)
    ensures HasCustom(SyncBoth(net, nwid, member, ips)) == HasCustom(ips)
  {
    hide SyncBoth, LooksFc, LooksFd;
    var s := SyncBoth(net, nwid, member, ips);
    if i :| 0 <= i < |s| && IsCustom(s[i]) {
      SyncBothHas(net, nwid, member, ips, s[i]);
      assert s[i] in ips;
    }
    if i :| 0 <= i < |ips| && IsCustom(ips[i]) {
      SyncBothHas(net, nwid, member, ips, ips[i]);
      assert ips[i] in s;
    }
  }

  lemma InlineHas(net: Network, nwid: string, member: string, ips: seq<Addr>, a: Addr)
    ensures a in Inline(net, nwid, member, ips) <==> IsKept(net, nwid, member, ips, a)
  {
    hide SixPlane, Rfc4193, TextStartsWith, SyncBoth;
    SyncBothHas(net, nwid, member, if V4On(net) then ips else Discard(ips, IsV4), a);
  }

  lemma AutoAssignHas(rid: Rid, net: Network, nwid: string, member: string, used: set<Addr>, ips: seq<Addr>, a: Addr)
    ensures a in AutoAssign(rid, net, nwid, member, used, ips)
       <==> IsKept(net, nwid, member, ips, a) || IsAllocated(rid, net, nwid, member, used, ips, a)
  {
    hide SixPlane, Rfc4193, TextStartsWith, SyncBoth, NextFreeIp, NextFreeIpv6, HasCustom, HasV4;
    var s1 := if !V4On(net) then Discard(ips, IsV4)
              else if HasV4(ips) then ips else Append(ips, NextFreeIp(used, net.pools));
    SyncBothHas(net, nwid, member, s1, a);
    SyncBothKeepsCustom(net, nwid, member, s1);
    assert HasCustom(s1) == HasCustom(ips) by { V4IsNotCustom(ips, s1); }
  }

  lemma V4IsNotCustom(ips: seq<Addr>, s: seq<Addr>)
    requires forall a: Addr :: a.V6? ==> (a in s <==> a in ips)
    ensures HasCustom(s) == HasCustom(ips)
  {
    if i :| 0 <= i < |s| && IsCustom(s[i]) {
      assert s[i] in ips;
    }
    if i :| 0 <= i < |ips| && IsCustom(ips[i]) {
      assert ips[i] in s;
    }
  }

  // ----- The two copies agree -------------------------------------------------------------------

  lemma SameKinds(net: Network, nwid: string, member: string, ips: seq<Addr>)
    ensures V4On(net) ==> HasV4(Inline(net, nwid, member, ips)) == HasV4(ips)
    ensures CustomOn(net) ==> HasCustom(Inline(net, nwid, member, ips)) == HasCustom(ips)
  {
    hide Inline, LooksFc, LooksFd;
    var s := Inline(net, nwid, member, ips);
    forall a: Addr
      ensures a.V4? && V4On(net) ==> (a in s <==> a in ips)
      ensures IsCustom(a) && CustomOn(net) ==> (a in s <==> a in ips)
    {
      InlineHas(net, nwid, member, ips, a);
    }
    assert HasV4(s) <==> exists a: Addr :: a in s && a.V4?;
    assert HasV4(ips) <==> exists a: Addr :: a in ips && a.V4?;
    assert HasCustom(s) <==> exists a :: a in s && IsCustom(a);
    assert HasCustom(ips) <==> exists a :: a in ips && IsCustom(a);
  }

  /** Allocating after a network update's own reconciliation gives the same set as allocating directly. */
  lemma CopiesAgree(rid: Rid, net: Network, nwid: string, member: string, used: set<Addr>, ips: seq<Addr>, a: Addr)
    ensures a in AutoAssign(rid, net, nwid, member, used, Inline(net, nwid, member, ips))
       <==> a in AutoAssign(rid, net, nwid, member, used, ips)
  {
    hide AutoAssign, Inline, NextFreeIp, NextFreeIpv6, SixPlane, Rfc4193, HasV4, HasCustom, TextStartsWith;
    AutoAssignHas(rid, net, nwid, member, used, ips, a);
    AutoAssignHas(rid, net, nwid, member, used, Inline(net, nwid, member, ips), a);
    InlineHas(net, nwid, member, ips, a);
    SameKinds(net, nwid, member, ips);
  }

  // ----- Idempotence ----------------------------------------------------------------------------

  /** Nothing of a family whose mode is off, and the derived address of a mode that is on. */
  ghost predicate Settled(net: Network, nwid: string, member: string, s: seq<Addr>) {
    && (if SixPlaneOn(net) then SixPlane(nwid, member).Some? ==> SixPlane(nwid, member).value in s
        else forall a :: a in s ==> !LooksFc(a))
    && (if Rfc4193On(net) then Rfc4193(nwid, member).Some? ==> Rfc4193(nwid, member).value in s
        else forall a :: a in s ==> !LooksFd(a))
  }

  lemma SyncBothSettles(net: Network, nwid: string, member: string, ips: seq<Addr>)
    ensures Settled(net, nwid, member, SyncBoth(net, nwid, member, ips))
  {
    hide SyncBoth, SixPlane, Rfc4193, TextStartsWith;
    DerivedFamilies(nwid, member);
    var s := SyncBoth(net, nwid, member, ips);
    if SixPlane(nwid, member).Some? {
      SyncBothHas(net, nwid, member, ips, SixPlane(nwid, member).value);
    }
    if Rfc4193(nwid, member).Some? {
      SyncBothHas(net, nwid, member, ips, Rfc4193(nwid, member).value);
    }
    forall a | a in s
      ensures !SixPlaneOn(net) ==> !LooksFc(a)
      ensures !Rfc4193On(net) ==> !LooksFd(a)
    {
      SyncBothHas(net, nwid, member, ips, a);
      FcIsNotFd(a);
    }
  }

  lemma SettledIsStable(net: Network, nwid: string, member: string, s: seq<Addr>)
    requires Settled(net, nwid, member, s)
    ensures SyncBoth(net, nwid, member, s) == s
  {
    hide SixPlane, Rfc4193, TextStartsWith;
    DerivedFamilies(nwid, member);
  }

  lemma {:induction false} DiscardLast(s: seq<Addr>, a: Addr, drop: Addr -> bool)
    requires drop(a) && forall x :: x in s ==> !drop(x)
    ensures Discard(s + [a], drop) == s
  {
    if s != [] {
      DiscardLast(s[1..], a, drop);
      assert (s + [a])[1..] == s[1..] + [a];
    }
  }

  lemma {:induction false} RemoveLast(s: seq<Addr>, a: Addr, derived: Option<Addr>)
    requires forall x :: x in s ==> Some(x) != derived
    ensures Remove(s + [a], derived) == if Some(a) == derived then s else s + [a]
  {
    if s != [] {
      RemoveLast(s[1..], a, derived);
      assert (s + [a])[0] == s[0] && (s + [a])[1..] == s[1..] + [a];
      assert [s[0]] + s[1..] == s;
    }
  }

  lemma DiscardKeepsSettled(net: Network, nwid: string, member: string, s: seq<Addr>)
    requires Settled(net, nwid, member, s)
    ensures Settled(net, nwid, member, Discard(s, IsCustom))
  {
    hide SixPlane, Rfc4193, TextStartsWith;
    DerivedFamilies(nwid, member);
  }

  /** The copy without allocation is idempotent on every list, as a list. */
  lemma InlineIsIdempotent(net: Network, nwid: string, member: string, ips: seq<Addr>)
    ensures Inline(net, nwid, member, Inline(net, nwid, member, ips)) == Inline(net, nwid, member, ips)
  {
    hide SixPlane, Rfc4193, TextStartsWith, SyncBoth, Settled;
    var s1 := if V4On(net) then ips else Discard(ips, IsV4);
    var s2 := SyncBoth(net, nwid, member, s1);
    SyncBothSettles(net, nwid, member, s1);
    V4SurviveSync(net, nwid, member, s1);
    DiscardKeepsSettled(net, nwid, member, s2);
    SettledIsStable(net, nwid, member, Inline(net, nwid, member, ips));
  }

  /** An address of a family whose mode is off goes again, and only that. */
  lemma SyncBothDropsLast(net: Network, nwid: string, member: string, s: seq<Addr>, a: Addr)
    requires Settled(net, nwid, member, s)
    requires (LooksFc(a) && !SixPlaneOn(net)) || (LooksFd(a) && !Rfc4193On(net))
    ensures SyncBoth(net, nwid, member, s + [a]) == s
  {
    hide SixPlane, Rfc4193, TextStartsWith, Discard, Remove;
    DerivedFamilies(nwid, member);
    FcIsNotFd(a);
    var six, rfc := SixPlane(nwid, member), Rfc4193(nwid, member);
    if LooksFc(a) {
      RemoveLast(s, a, six);
      DiscardLast(s, a, LooksFc);
      assert SyncDerived(s + [a], false, six, LooksFc) == s;
      SettledIsStable(net, nwid, member, s);
    } else {
      assert SyncDerived(s + [a], SixPlaneOn(net), six, LooksFc) == s + [a];
      RemoveLast(s, a, rfc);
      DiscardLast(s, a, LooksFd);
    }
  }

  /** The IPv6 allocator is about to add an address of a derived family whose mode is on. */
  predicate AddsDerivedLookalike(rid: Rid, net: Network, nwid: string, member: string, used: set<Addr>,
                                 ips: seq<Addr>) {
    var free := NextFreeIpv6(rid, used, nwid, member, net.pools);
    && CustomOn(net) && !HasCustom(ips) && free.Some?
    && ((LooksFc(free.value) && SixPlaneOn(net)) || (LooksFd(free.value) && Rfc4193On(net)))
  }

  /** The list after the IPv4 stage. */
  function FirstStage(net: Network, used: set<Addr>, ips: seq<Addr>): seq<Addr> {
    if !V4On(net) then Discard(ips, IsV4)
    else if HasV4(ips) then ips else Append(ips, NextFreeIp(used, net.pools))
  }

  lemma FirstStageIsStable(net: Network, used: set<Addr>, ips: seq<Addr>, s: seq<Addr>)
    requires forall a: Addr :: a.V4? ==> (a in s <==> a in FirstStage(net, used, ips))
    ensures FirstStage(net, used, s) == s
  {
    hide NextFreeIp;
    var f := FirstStage(net, used, ips);
    if i :| 0 <= i < |f| && f[i].V4? {
      assert f[i] in s;
    }
    assert V4On(net) && !HasV4(ips) && NextFreeIp(used, net.pools).Some? ==> f[|ips|].V4?;
  }

  /** The stages of a second pass over a settled list. */
  lemma SecondPass(rid: Rid, net: Network, nwid: string, member: string, used: set<Addr>, ips: seq<Addr>, x: seq<Addr>)
    requires Settled(net, nwid, member, x)
    requires forall a: Addr :: a.V4? ==> (a in x <==> a in FirstStage(net, used, ips))
    ensures AutoAssign(rid, net, nwid, member, used, x)
         == if !CustomOn(net) then Discard(x, IsCustom)
            else if HasCustom(x) then x else Append(x, NextFreeIpv6(rid, used, nwid, member, net.pools))
  {
    hide FirstStage, SyncBoth, Settled, AutoAssign;
    FirstStageIsStable(net, used, ips, x);
    SettledIsStable(net, nwid, member, x);
    Stages(rid, net, nwid, member, used, x);
  }

  lemma AllocatedCustomIsStable(rid: Rid, net: Network, nwid: string, member: string, used: set<Addr>, ips: seq<Addr>)
    requires CustomOn(net) && !HasCustom(ips) && NextFreeIpv6(rid, used, nwid, member, net.pools).Some?
    ensures var s2 := SyncBoth(net, nwid, member, FirstStage(net, used, ips));
      var a := NextFreeIpv6(rid, used, nwid, member, net.pools).value;
      && AutoAssign(rid, net, nwid, member, used, ips) == s2 + [a]
      && AutoAssign(rid, net, nwid, member, used, s2 + [a])
         == if AddsDerivedLookalike(rid, net, nwid, member, used, ips) then s2 + [a] + [a] else s2 + [a]
  {
    hide FirstStage, SyncBoth, NextFreeIp, NextFreeIpv6, AutoAssign, SixPlane, Rfc4193, TextStartsWith;
    var s1 := FirstStage(net, used, ips);
    var s2 := SyncBoth(net, nwid, member, s1);
    var a := NextFreeIpv6(rid, used, nwid, member, net.pools).value;
    var x := s2 + [a];
    NoCustomAfterSync(net, nwid, member, used, ips);
    V4SurviveSync(net, nwid, member, s1);
    Stages(rid, net, nwid, member, used, ips);
    SyncBothSettles(net, nwid, member, s1);
    if (LooksFc(a) && !SixPlaneOn(net)) || (LooksFd(a) && !Rfc4193On(net)) {
      FirstStageIsStable(net, used, ips, x);
      SyncBothDropsLast(net, nwid, member, s2, a);
      Stages(rid, net, nwid, member, used, x);
    } else {
      SecondPass(rid, net, nwid, member, used, ips, x);
      assert HasCustom(x) <==> IsCustom(a) by { assert x[|s2|] == a; }
    }
    FcIsNotFd(a);
  }

  lemma NoCustomAfterSync(net: Network, nwid: string, member: string, used: set<Addr>, ips: seq<Addr>)
    ensures HasCustom(SyncBoth(net, nwid, member, FirstStage(net, used, ips))) == HasCustom(ips)
  {
    hide SyncBoth, NextFreeIp;
    var s1 := FirstStage(net, used, ips);
    V4IsNotCustom(ips, s1);
    SyncBothKeepsCustom(net, nwid, member, s1);
  }

  lemma V4SurviveSync(net: Network, nwid: string, member: string, s: seq<Addr>)
    ensures forall a: Addr :: a.V4? ==> (a in SyncBoth(net, nwid, member, s) <==> a in s)
  {
    hide SyncBoth;
    forall a: Addr | a.V4?
      ensures a in SyncBoth(net, nwid, member, s) <==> a in s
    {
      SyncBothHas(net, nwid, member, s, a);
    }
  }

  /** Allocation is idempotent unless a pool makes it add a lookalike of a derived address, which it then repeats. */
  lemma AutoAssignIsIdempotentExactly(rid: Rid, net: Network, nwid: string, member: string, used: set<Addr>,
                                      ips: seq<Addr>)
    ensures AutoAssign(rid, net, nwid, member, used, AutoAssign(rid, net, nwid, member, used, ips))
         == AutoAssign(rid, net, nwid, member, used, ips)
       <==> !AddsDerivedLookalike(rid, net, nwid, member, used, ips)
  {
    hide FirstStage, SyncBoth, NextFreeIp, NextFreeIpv6, AutoAssign, SixPlane, Rfc4193, TextStartsWith, HasCustom;
    var s1 := FirstStage(net, used, ips);
    var s2 := SyncBoth(net, nwid, member, s1);
    NoCustomAfterSync(net, nwid, member, used, ips);
    V4SurviveSync(net, nwid, member, s1);
    Stages(rid, net, nwid, member, used, ips);
    SyncBothSettles(net, nwid, member, s1);
    if CustomOn(net) && !HasCustom(ips) && NextFreeIpv6(rid, used, nwid, member, net.pools).Some? {
      AllocatedCustomIsStable(rid, net, nwid, member, used, ips);
    } else {
      DerivedFamilies(nwid, member);
      var x := AutoAssign(rid, net, nwid, member, used, ips);
      SecondPass(rid, net, nwid, member, used, ips, x);
    }
  }

  lemma Stages(rid: Rid, net: Network, nwid: string, member: string, used: set<Addr>, ips: seq<Addr>)
    ensures var s2 := SyncBoth(net, nwid, member, FirstStage(net, used, ips));
      AutoAssign(rid, net, nwid, member, used, ips)
      == if !CustomOn(net) then Discard(s2, IsCustom)
         else if HasCustom(s2) then s2 else Append(s2, NextFreeIpv6(rid, used, nwid, member, net.pools))
  {
  }
}
