/** Peers and their paths: every update leaves exactly one preferred path, the first of the best score. */
module Peers {
  import opened Wrappers

  /** The "ip/port" text of a path, as the number it denotes; it contains a colon exactly when it is IPv6. */
  datatype PathAddress = PathAddress(v6: bool, ip: nat, port: nat)

  /** A socket address also has a scope, which the path text drops. */
  datatype SocketAddr = SocketAddr(path: PathAddress, scope: nat)

  datatype Role = Planet | Moon | Leaf

  type i32 = x: int | -0x8000_0000 <= x < 0x8000_0000

  datatype Path = Path(
    address: PathAddress, lastSend: nat, lastReceive: nat, latency: i32, preferred: bool, active: bool)

  datatype Peer = Peer(role: Role, paths: seq<Path>, latency: i32, lastContact: nat, physical: Option<PathAddress>)

  predicate Alive(p: Path, now: nat) {
    p.active && (if now < p.lastReceive then 0 else now - p.lastReceive) < 60
  }

  function Latency(latency: i32): nat {
    if latency >= 0 then latency else 999
  }

  function Score(p: Path, now: nat): (score: int)
    ensures -0x8000_0000 <= score <= 12000
  {
    (if Alive(p, now) then 10000 else 0)
    + (if p.address.v6 && Alive(p, now) then 2000 else 0)
    - Latency(p.latency)
  }

  /** `k` is the first index of the maximal score. */
  ghost predicate IsFirstBest(paths: seq<Path>, now: nat, k: nat) {
    && k < |paths|
    && (forall i :: 0 <= i < |paths| ==> Score(paths[i], now) <= Score(paths[k], now))
    && (forall i :: 0 <= i < k ==> Score(paths[i], now) < Score(paths[k], now))
  }

  function BestIndex(paths: seq<Path>, now: nat): (k: nat)
    requires paths != []
    ensures IsFirstBest(paths, now, k)
  {
    var last := |paths| - 1;
    if last == 0 then 0
    else
      var k := BestIndex(paths[..last], now);
      if Score(paths[last], now) > Score(paths[k], now) then last else k
  }

  predicate DistinctAddresses(paths: seq<Path>) {
    forall i, j :: 0 <= i < j < |paths| ==> paths[i].address != paths[j].address
  }

  /** The index of the path with this address, or the number of paths. */
  function Find(paths: seq<Path>, address: PathAddress): (k: nat)
    ensures k <= |paths|
    ensures k < |paths| ==> paths[k].address == address
    ensures forall i :: 0 <= i < k ==> paths[i].address != address
  {
    if paths == [] || paths[0].address == address then 0 else 1 + Find(paths[1..], address)
  }

  function Upsert(paths: seq<Path>, address: PathAddress, latency: i32, now: nat): (r: seq<Path>)
    ensures r != []
  {
    var k := Find(paths, address);
    if k < |paths| then paths[k := paths[k].(lastReceive := now, latency := latency, active := true)]
    else paths + [Path(address, now, now, latency, paths == [], true)]
  }

  function Mark(paths: seq<Path>, best: nat): seq<Path> {
    seq(|paths|, i requires 0 <= i < |paths| => paths[i].(preferred := i == best))
  }

  function NewPeer(role: Role, latency: i32, now: nat): Peer {
    Peer(role, [], latency, now, None)
  }

  /** The effect of one update on a peer record. */
  function Updated(peer: Peer, address: PathAddress, latency: i32, now: nat): Peer {
    var paths := Upsert(peer.paths, address, latency, now);
    var best := BestIndex(paths, now);
    peer.(paths := Mark(paths, best), latency := paths[best].latency, lastContact := now,
          physical := Some(paths[best].address))
  }

  datatype Update<NodeId> = Update(node: NodeId, role: Role, endpoint: SocketAddr, latency: i32, now: nat)

  function Applied<NodeId>(peers: map<NodeId, Peer>, u: Update<NodeId>): map<NodeId, Peer> {
    var before := if u.node in peers then peers[u.node] else NewPeer(u.role, u.latency, u.now);
    peers[u.node := Updated(before, u.endpoint.path, u.latency, u.now)]
  }

  class PeerManager<NodeId(==)> {
    var peers: map<NodeId, Peer>

    constructor ()
      ensures peers == map[]
    {
      peers := map[];
    }

    method AddOrUpdatePeer(address: NodeId, role: Role, endpoint: SocketAddr, latency: i32, now: nat)
      modifies this
      ensures peers == Applied(old(peers), Update(address, role, endpoint, latency, now))
    {
      hide BestIndex, Score, Find;
      var peer := if address in peers then peers[address] else NewPeer(role, latency, now);
      peer := peer.(latency := latency, lastContact := now);
      var k := Find(peer.paths, endpoint.path);
      if k < |peer.paths| {
        var path := peer.paths[k].(lastReceive := now, latency := latency, active := true);
        peer := peer.(paths := peer.paths[k := path]);
      } else {
        peer := peer.(paths := peer.paths + [Path(endpoint.path, now, now, latency, peer.paths == [], true)]);
      }

      ghost var paths := peer.paths;
      var bestIndex := SelectBest(peer.paths, now);
      var marked := MarkPreferred(peer.paths, bestIndex);
      peer := peer.(paths := marked);
      var best := peer.paths[bestIndex];
      peer := peer.(physical := Some(best.address), latency := best.latency);
      peers := peers[address := peer];
    }
  }

  const I64_MIN := -0x8000_0000_0000_0000

  /** The scoring loop; it starts below every score, so its first comparison succeeds. */
  method SelectBest(paths: seq<Path>, now: nat) returns (best: nat)
    requires paths != []
    ensures best == BestIndex(paths, now)
  {
    hide Score;
    best := 0;
    var bestScore := I64_MIN;
    for i := 0 to |paths|
      invariant i == 0 ==> best == 0 && bestScore == I64_MIN
      invariant i > 0 ==> best < i && best == BestIndex(paths[..i], now) && bestScore == Score(paths[best], now)
    {
      assert paths[..i + 1][..i] == paths[..i];
      var score := Score(paths[i], now);
      if score > bestScore {
        bestScore := score;
        best := i;
      }
    }
    assert paths[..|paths|] == paths;
  }

  method MarkPreferred(paths: seq<Path>, best: nat) returns (marked: seq<Path>)
    ensures marked == Mark(paths, best)
  {
    marked := paths;
    for i := 0 to |paths|
      invariant |marked| == |paths|
      invariant forall j :: 0 <= j < i ==> marked[j] == paths[j].(preferred := j == best)
      invariant forall j :: i <= j < |paths| ==> marked[j] == paths[j]
    {
      marked := marked[i := marked[i].(preferred := i == best)];
    }
  }

  // ----- Over whole runs ------------------------------------------------------------------------

  /** What holds of every peer record, at the time of its last update. */
  ghost predicate Good(peer: Peer) {
    && DistinctAddresses(peer.paths)
    && exists k: nat ::
      && IsFirstBest(peer.paths, peer.lastContact, k)
      && (forall i :: 0 <= i < |peer.paths| ==> peer.paths[i].preferred == (i == k))
      && peer.latency == peer.paths[k].latency
      && peer.physical == Some(peer.paths[k].address)
  }

  function Run<NodeId>(updates: seq<Update<NodeId>>): map<NodeId, Peer> {
    if updates == [] then map[]
    else Applied(Run(updates[..|updates| - 1]), updates[|updates| - 1])
  }

  lemma MarkKeepsScores(paths: seq<Path>, now: nat, best: nat)
    requires IsFirstBest(paths, now, best)
    ensures IsFirstBest(Mark(paths, best), now, best)
  {
    var marked := Mark(paths, best);
    assert forall i :: 0 <= i < |paths| ==> Score(marked[i], now) == Score(paths[i], now);
  }

  lemma UpdatedIsGood(peer: Peer, address: PathAddress, latency: i32, now: nat)
    requires DistinctAddresses(peer.paths)
    ensures Good(Updated(peer, address, latency, now))
  {
    var paths := Upsert(peer.paths, address, latency, now);
    var best := BestIndex(paths, now);
    MarkKeepsScores(paths, now, best);
    assert DistinctAddresses(paths);
    assert IsFirstBest(Updated(peer, address, latency, now).paths, now, best);
  }

  /** After any run: distinct path addresses, and exactly one preferred path, the first of maximal score. */
  lemma {:induction false} EveryPeerIsGood<NodeId>(updates: seq<Update<NodeId>>)
    ensures forall a :: a in Run(updates) ==> Good(Run(updates)[a])
  {
    if updates != [] {
      var u := updates[|updates| - 1];
      var before := Run(updates[..|updates| - 1]);
      EveryPeerIsGood(updates[..|updates| - 1]);
      var peer := if u.node in before then before[u.node] else NewPeer(u.role, u.latency, u.now);
      UpdatedIsGood(peer, u.endpoint.path, u.latency, u.now);
    }
  }

  /** The latency from which a fresh path can lose to a dead one. */
  function Threshold(endpoint: SocketAddr): nat {
    if endpoint.path.v6 then 12000 else 10000
  }

  /** The preferred path is active and was heard of within the last minute. */
  ghost predicate PrefersAlive(peer: Peer) {
    forall k :: 0 <= k < |peer.paths| && peer.paths[k].preferred ==>
      peer.paths[k].active && peer.lastContact < peer.paths[k].lastReceive + 60
  }

  lemma PositiveIsAlive(p: Path, now: nat)
    requires Score(p, now) > 0
    ensures p.active && now < p.lastReceive + 60
  {
  }

  lemma UpsertedPath(paths: seq<Path>, address: PathAddress, latency: i32, now: nat) returns (k: nat)
    ensures var after := Upsert(paths, address, latency, now);
      && k < |after| && after[k].address == address && after[k].latency == latency
      && after[k].lastReceive == now && after[k].active
  {
    k := Find(paths, address);
  }

  lemma FreshPathWins(peer: Peer, endpoint: SocketAddr, latency: i32, now: nat)
    requires DistinctAddresses(peer.paths)
    requires Latency(latency) < Threshold(endpoint)
    ensures PrefersAlive(Updated(peer, endpoint.path, latency, now))
  {
    hide Score, BestIndex, Upsert, Find;
    var paths := Upsert(peer.paths, endpoint.path, latency, now);
    var k := UpsertedPath(peer.paths, endpoint.path, latency, now);
    ScoreIs(paths[k], now);
    PositiveIsAlive(paths[BestIndex(paths, now)], now);
  }

  lemma DeadPathCanWin<NodeId>(node: NodeId, endpoint: SocketAddr, latency: i32)
    returns (updates: seq<Update<NodeId>>, now: nat)
    requires Latency(latency) >= Threshold(endpoint)
    ensures !PrefersAlive(Run(updates + [Update(node, Leaf, endpoint, latency, now)])[node])
  {
    var other := SocketAddr(PathAddress(endpoint.path.v6, endpoint.path.ip + 1, endpoint.path.port), 0);
    var first := Update(node, Leaf, other, 0, 0);
    var second := Update(node, Leaf, endpoint, latency, 60);
    updates, now := [first], 60;
    var one := Updated(NewPeer(Leaf, 0, 0), other.path, 0, 0);
    assert updates[..0] == [];
    assert Run(updates) == map[node := one];
    assert (updates + [second])[..1] == updates;
    assert one.paths == [Path(other.path, 0, 0, 0, true, true)];
    var paths := Upsert(one.paths, endpoint.path, latency, 60);
    assert paths == one.paths + [Path(endpoint.path, 60, 60, latency, false, true)];
    assert Score(paths[0], 60) == 0 && Score(paths[1], 60) <= 0;
    assert BestIndex(paths, 60) == 0;
    assert Mark(paths, 0)[0].preferred && !Alive(Mark(paths, 0)[0], 60);
  }

  /** An update leaves an alive path preferred after every history exactly when its latency is below the threshold. */
  lemma PreferredIsAliveExactly<NodeId(!new)>(node: NodeId, endpoint: SocketAddr, latency: i32)
    ensures Latency(latency) < Threshold(endpoint)
       <==> forall updates: seq<Update<NodeId>>, now: nat ::
              PrefersAlive(Run(updates + [Update(node, Leaf, endpoint, latency, now)])[node])
  {
    if Latency(latency) < Threshold(endpoint) {
      forall updates: seq<Update<NodeId>>, now: nat
        ensures PrefersAlive(Run(updates + [Update(node, Leaf, endpoint, latency, now)])[node])
      {
        var u := Update(node, Leaf, endpoint, latency, now);
        EveryPeerIsGood(updates);
        assert (updates + [u])[..|updates|] == updates;
        var before := Run(updates);
        var peer := if node in before then before[node] else NewPeer(Leaf, latency, now);
        FreshPathWins(peer, endpoint, latency, now);
      }
    } else {
      var updates, now := DeadPathCanWin(node, endpoint, latency);
    }
  }

  /** A path's score in numbers. */
  lemma ScoreIs(p: Path, now: nat)
    ensures Score(p, now) ==
      (if !p.active || now >= p.lastReceive + 60 then 0 else if p.address.v6 then 12000 else 10000)
      - (if p.latency < 0 then 999 else p.latency)
  {
  }

  /** An update changes one peer; of its paths, but for the marks, the one with that address, which is now fresh. */
  lemma UpdateTouchesOnePath<NodeId>(peers: map<NodeId, Peer>, u: Update<NodeId>)
    ensures var peers' := Applied(peers, u);
      && (forall n :: n != u.node ==> (n in peers' <==> n in peers) && (n in peers ==> peers'[n] == peers[n]))
      && u.node in peers'
      && peers'[u.node].role == (if u.node in peers then peers[u.node].role else u.role)
      && peers'[u.node].lastContact == u.now
      && var before := if u.node in peers then peers[u.node].paths else [];
         var after := peers'[u.node].paths;
         var k := Find(before, u.endpoint.path);
         && |after| == (if k < |before| then |before| else |before| + 1) && k < |after|
         && after[k].address == u.endpoint.path && after[k].latency == u.latency && after[k].lastReceive == u.now
         && after[k].active
         && forall i :: 0 <= i < |before| && i != k ==> after[i] == before[i].(preferred := after[i].preferred)
  {
    hide BestIndex, Score;
  }

  /** Between alive paths, IPv6 gives way to IPv4 only for 2000 ms, and keeps its place up to that. */
  lemma FamilyPreference(peer: Peer, k: nat, j: nat)
    requires Good(peer) && k < |peer.paths| && j < |peer.paths| && peer.paths[k].preferred
    requires Alive(peer.paths[k], peer.lastContact) && Alive(peer.paths[j], peer.lastContact)
    ensures !peer.paths[k].address.v6 && peer.paths[j].address.v6
            ==> Latency(peer.paths[j].latency) >= Latency(peer.paths[k].latency) + 2000
    ensures peer.paths[k].address.v6 && !peer.paths[j].address.v6
            ==> Latency(peer.paths[k].latency) <= Latency(peer.paths[j].latency) + 2000
    ensures peer.paths[k].address.v6 == peer.paths[j].address.v6
            ==> Latency(peer.paths[k].latency) <= Latency(peer.paths[j].latency)
  {
    assert Score(peer.paths[j], peer.lastContact) <= Score(peer.paths[k], peer.lastContact);
  }
}
