/** The learning switch: its table is a digest of the event log, and forwarding follows the table. */
module L2Switch {
  import opened Wrappers
  import opened BigEndian

  type Mac = m: Bytes | |m| == 6 witness [0, 0, 0, 0, 0, 0]

  datatype Entry<Endpoint> = Entry(endpoint: Endpoint, lastSeen: nat)

  type Table<Endpoint> = map<Mac, Entry<Endpoint>>

  datatype Event<Endpoint> =
    | Learn(mac: Mac, endpoint: Endpoint, now: nat)
    | Remove(endpoint: Endpoint)
    | Evict(now: nat, maxAge: nat)

  function Elapsed(since: nat, now: nat): nat {
    if now < since then 0 else now - since
  }

  function Apply<Endpoint(==)>(table: Table<Endpoint>, e: Event<Endpoint>): Table<Endpoint> {
    match e
    case Learn(mac, endpoint, now) => table[mac := Entry(endpoint, now)]
    case Remove(endpoint) => map m | m in table && table[m].endpoint != endpoint :: table[m]
    case Evict(now, maxAge) => map m | m in table && Elapsed(table[m].lastSeen, now) < maxAge :: table[m]
  }

  /** The MACs that an event takes out of the table. */
  function Lost<Endpoint(==)>(table: Table<Endpoint>, e: Event<Endpoint>): set<Mac> {
    set m | m in table && m !in Apply(table, e)
  }

  lemma LostAreCounted<Endpoint>(table: Table<Endpoint>, e: Event<Endpoint>)
    requires !e.Learn?
    ensures |table| == |Apply(table, e)| + |Lost(table, e)|
  {
    var kept, lost := Apply(table, e), Lost(table, e);
    assert table.Keys == kept.Keys + lost;
    assert |kept.Keys + lost| == |kept.Keys| + |lost|;
  }

  function Replay<Endpoint(==)>(log: seq<Event<Endpoint>>): Table<Endpoint> {
    if log == [] then map[] else Apply(Replay(log[..|log| - 1]), log[|log| - 1])
  }

  function Lookup<Endpoint>(table: Table<Endpoint>, mac: Mac): Option<Endpoint> {
    if mac in table then Some(table[mac].endpoint) else None
  }

  /** `(dst, src)` of an Ethernet frame of at least 14 bytes. */
  function ParseEthernet(frame: Bytes): Option<(Mac, Mac)> {
    if |frame| < 14 then None else Some((frame[..6], frame[6..12]))
  }

  predicate IsBroadcast(mac: Mac) {
    mac == [255, 255, 255, 255, 255, 255]
  }

  predicate IsMulticast(mac: Mac) {
    !IsBroadcast(mac) && mac[0] % 2 == 1
  }

  /** Group addresses, broadcast among them, are those with the low bit of the first octet set. */
  predicate IsUnicast(mac: Mac)
    ensures IsUnicast(mac) <==> mac[0] % 2 == 0
  {
    !IsBroadcast(mac) && !IsMulticast(mac)
  }

  class Switch<Endpoint(==)> {
    var table: Table<Endpoint>

    constructor ()
      ensures table == Replay<Endpoint>([])
    {
      table := map[];
    }

    method Learn(mac: Mac, endpoint: Endpoint, now: nat)
      modifies this
      ensures table == Apply(old(table), Event.Learn(mac, endpoint, now))
    {
      table := table[mac := Entry(endpoint, now)];
    }

    method Resolve(mac: Mac) returns (r: Option<Endpoint>)
      ensures r == Lookup(table, mac)
    {
      r := if mac in table then Some(table[mac].endpoint) else None;
    }

    /** Drops every MAC bound to `endpoint` and says how many those were. */
    method RemoveEndpoint(endpoint: Endpoint) returns (removed: nat)
      modifies this
      ensures table == Apply(old(table), Remove(endpoint))
      ensures removed == |Lost(old(table), Remove(endpoint))|
    {
      var before := |table|;
      LostAreCounted(table, Remove(endpoint));
      table := map m | m in table && table[m].endpoint != endpoint :: table[m];
      removed := before - |table|;
    }

    /** Drops every MAC not refreshed within `maxAge` and says how many those were. */
    method EvictStale(now: nat, maxAge: nat) returns (evicted: nat)
      modifies this
      ensures table == Apply(old(table), Evict(now, maxAge))
      ensures evicted == |Lost(old(table), Evict(now, maxAge))|
    {
      var before := |table|;
      LostAreCounted(table, Evict(now, maxAge));
      table := map m | m in table && Elapsed(table[m].lastSeen, now) < maxAge :: table[m];
      evicted := before - |table|;
    }

    /** A frame that arrived from `remote` teaches its source address. */
    method OnDatagram(remote: Endpoint, frame: Bytes, now: nat)
      modifies this
      ensures table == if |frame| >= 14 then Apply(old(table), Event.Learn(frame[6..12], remote, now)) else old(table)
    {
      var parsed := ParseEthernet(frame);
      if parsed.Some? {
        Learn(parsed.value.1, remote, now);
      }
    }

    /** An outbound frame goes to its learned owner, or once to every connected peer. */
    method Forward(frame: Bytes, connected: set<Endpoint>) returns (sent: seq<Endpoint>)
      ensures multiset(sent) == multiset(Targets(table, frame, connected))
    {
      var target := None;
      var parsed := ParseEthernet(frame);
      if parsed.Some? && IsUnicast(parsed.value.0) {
        target := Resolve(parsed.value.0);
      }
      if target.Some? {
        return [target.value];
      }
      sent := [];
      var rest := connected;
      while rest != {}
        invariant rest <= connected
        invariant multiset(sent) == multiset(connected - rest)
      {
        var remote :| remote in rest;
        assert connected - (rest - {remote}) == (connected - rest) + {remote};
        sent := sent + [remote];
        rest := rest - {remote};
      }
      assert connected - rest == connected;
    }
  }

  function Targets<Endpoint>(table: Table<Endpoint>, frame: Bytes, connected: set<Endpoint>): set<Endpoint> {
    match ParseEthernet(frame)
    case None => connected
    case Some((dst, _)) =>
      if !IsUnicast(dst) then connected
      else
        match Lookup(table, dst)
        case Some(endpoint) => {endpoint}
        case None => connected
  }

  // ----- The table against the log --------------------------------------------------------------

  /** Entry `i` of the log taught something that nothing later replaced, removed or let expire. */
  ghost predicate Survives<Endpoint>(log: seq<Event<Endpoint>>, i: nat) {
    && i < |log| && log[i].Learn?
    && forall j :: i < j < |log| ==>
         match log[j]
         case Learn(mac, _, _) => mac != log[i].mac
         case Remove(endpoint) => endpoint != log[i].endpoint
         case Evict(now, maxAge) => maxAge > 0 && now < log[i].now + maxAge
  }

  lemma {:induction false} TableHasSurvivors<Endpoint>(log: seq<Event<Endpoint>>, mac: Mac) returns (i: nat)
    requires mac in Replay(log)
    ensures Survives(log, i) && log[i].mac == mac
    ensures Replay(log)[mac] == Entry(log[i].endpoint, log[i].now)
  {
    var n := |log| - 1;
    var init := log[..n];
    if log[n].Learn? && log[n].mac == mac {
      i := n;
    } else {
      i := TableHasSurvivors(init, mac);
      assert forall j :: 0 <= j < n ==> init[j] == log[j];
    }
  }

  lemma {:induction false} SurvivorsAreInTable<Endpoint>(log: seq<Event<Endpoint>>, i: nat)
    requires Survives(log, i)
    ensures log[i].mac in Replay(log) && Replay(log)[log[i].mac] == Entry(log[i].endpoint, log[i].now)
  {
    var n := |log| - 1;
    if i < n {
      var init := log[..n];
      assert forall j :: 0 <= j < n ==> init[j] == log[j];
      SurvivorsAreInTable(init, i);
    }
  }

  /** `resolve(m)` is `ep` exactly when some learn of `m` to `ep` survives in the log. */
  lemma ResolveRefinesLog<Endpoint>(log: seq<Event<Endpoint>>, mac: Mac, endpoint: Endpoint)
    ensures Lookup(Replay(log), mac) == Some(endpoint)
       <==> exists i: nat :: Survives(log, i) && log[i].mac == mac && log[i].endpoint == endpoint
  {
    if mac in Replay(log) {
      var i := TableHasSurvivors(log, mac);
    }
    forall i: nat | Survives(log, i) && log[i].mac == mac && log[i].endpoint == endpoint
      ensures Lookup(Replay(log), mac) == Some(endpoint)
    {
      SurvivorsAreInTable(log, i);
    }
  }

  /** Where a unicast frame goes, in terms of the log alone. */
  lemma ForwardingRefinesLog<Endpoint>(log: seq<Event<Endpoint>>, frame: Bytes, connected: set<Endpoint>)
    requires |frame| >= 14 && frame[0] % 2 == 0
    ensures forall i: nat :: Survives(log, i) && log[i].mac == frame[..6] ==>
              Targets(Replay(log), frame, connected) == {log[i].endpoint}
    ensures (forall i: nat :: Survives(log, i) ==> log[i].mac != frame[..6])
            ==> Targets(Replay(log), frame, connected) == connected
  {
    forall i: nat | Survives(log, i) && log[i].mac == frame[..6]
      ensures Targets(Replay(log), frame, connected) == {log[i].endpoint}
    {
      SurvivorsAreInTable(log, i);
    }
    if frame[..6] in Replay(log) {
      var i := TableHasSurvivors(log, frame[..6]);
    }
  }

  /** What was learned about group addresses makes no difference to any frame, and nor do runts. */
  lemma GroupEntriesDoNotMatter<Endpoint>(a: Table<Endpoint>, b: Table<Endpoint>)
    ensures (forall frame, connected :: Targets(a, frame, connected) == Targets(b, frame, connected))
       <==> (forall mac: Mac :: mac[0] % 2 == 0 ==> Lookup(a, mac) == Lookup(b, mac))
  {
    if forall frame, connected :: Targets(a, frame, connected) == Targets(b, frame, connected) {
      forall mac: Mac | mac[0] % 2 == 0
        ensures Lookup(a, mac) == Lookup(b, mac)
      {
        var frame: Bytes := mac + [0, 0, 0, 0, 0, 0, 0, 0];
        assert frame[..6] == mac;
        assert Targets(a, frame, {}) == Targets(b, frame, {});
        SingletonsDiffer(Lookup(a, mac), Lookup(b, mac));
      }
    }
  }

  ghost function AsSet<T>(o: Option<T>): set<T> {
    match o case Some(x) => {x} case None => {}
  }

  lemma SingletonsDiffer<T>(a: Option<T>, b: Option<T>)
    requires AsSet(a) == AsSet(b)
    ensures a == b
  {
    assert a.Some? ==> a.value in AsSet(a);
    assert b.Some? ==> b.value in AsSet(b);
  }

  /** The event that a datagram amounts to: a frame of at least 14 bytes teaches bytes 6 to 12 for its sender. */
  function Taught<Endpoint>(remote: Endpoint, frame: Bytes, now: nat): seq<Event<Endpoint>> {
    match ParseEthernet(frame)
    case Some((_, src)) => [Event.Learn(src, remote, now)]
    case None => []
  }

  /** Answers find their way: after a frame, one back to its unicast source goes to its sender and nowhere else. */
  lemma AnswersGoToSender<Endpoint>(log: seq<Event<Endpoint>>, remote: Endpoint, frame: Bytes, now: nat, answer: Bytes,
                                    connected: set<Endpoint>)
    requires |frame| >= 14 && frame[6] % 2 == 0 && |answer| >= 14 && answer[..6] == frame[6..12]
    ensures Targets(Replay(log + Taught(remote, frame, now)), answer, connected) == {remote}
  {
    var log' := log + Taught(remote, frame, now);
    assert log'[..|log|] == log;
    assert answer[0] == answer[..6][0] == frame[6..12][0] == frame[6];
  }

  /** Frames to group addresses, and runts, go to everybody whatever was learned; runts teach nothing. */
  lemma GroupFramesFlood<Endpoint>(table: Table<Endpoint>, frame: Bytes, connected: set<Endpoint>, remote: Endpoint,
                                   now: nat)
    requires |frame| < 14 || frame[0] % 2 == 1
    ensures Targets(table, frame, connected) == connected
    ensures |frame| < 14 ==> Taught(remote, frame, now) == []
  {
    assert |frame| >= 14 ==> frame[..6][0] == frame[0];
  }
}
