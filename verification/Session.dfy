/**
 * The QUIC session layer as a state machine. Every step is one lock section (or one channel operation) of one task:
 * an activation, a reader's teardown, or the event loop. Steps of different tasks interleave freely.
 */
module Session {
  import opened Wrappers
  import opened BigEndian
  import opened WorldParser
  import opened Announce

  datatype Message =
    | NodeAnnounce(address: Text)
    | AnnounceProof(proof: Proof)
    | AnnounceAccepted(address: Text)
    | ConfigRequest(nwid: Text)
    | OtherMessage

  datatype Event =
    | Datagram(remote: Remote)
    | Control(remote: Remote, message: Message)
    | Connected(remote: Remote)
    | Disconnected(remote: Remote, id: ConnId)

  /** Where an activation is. */
  datatype Activation =
    | Checking
    | Inserting
    | Closing(replaced: ConnId)
    | ForgettingOld
    | Announcing
    | SpawningReader
    | SpawningControl
    | Activated

  /** Where a connection's reader task is. */
  datatype Reader = NotSpawned | Reading | Removing | ForgettingAnnounced | ForgettingAccepted | Sending | Gone

  datatype Conn = Conn(remote: Remote, activation: Activation, reader: Reader, closed: bool)

  /** Where the event loop is. */
  datatype Handler =
    | Idle
    | Handling(event: Event)
    | Evicting(remote: Remote)
    | ConsumingChallenge(remote: Remote, proof: Proof)
    | Remembering(remote: Remote, address: Text)
    | RecordingAccepted(remote: Remote, address: Text)
    | Serving(remote: Remote, address: Text)

  /** The last four fields record history: what was challenged, received, served and evicted. */
  datatype State = State(
    conns: map<ConnId, Conn>,
    peers: map<Remote, ConnId>,
    announced: map<Remote, Text>,
    accepted: map<Remote, Text>,
    pending: map<Remote, (u64, Text)>,
    queue: seq<Event>,
    handler: Handler,
    issued: set<(Remote, u64, Text)>,
    received: set<(Remote, Proof)>,
    served: set<(Remote, Text)>,
    evicted: seq<Remote>)

  const INITIAL := State(map[], map[], map[], map[], map[], [], Idle, {}, {}, {}, [])

  /** `AsWritten` removes the connection and then reports it; `EventFirst` is the order that eviction would need. */
  datatype Order = AsWritten | EventFirst

  datatype Action =
    | Handshake(id: ConnId, remote: Remote)
    | Activate(id: ConnId)
    | ReportConnected(id: ConnId)
    | Lose(id: ConnId)
    | ReadDatagram(id: ConnId)
    | ReadControl(id: ConnId, message: Message)
    | Teardown(id: ConnId)
    | TakeEvent
    | Handle(nonce: u64)

  /** The entry for a remote is this connection. */
  predicate IsCurrent(s: State, remote: Remote, id: ConnId) {
    remote in s.peers && s.peers[remote] == id
  }

  /** A replacement holds the lock on the table from the insertion until it has closed and forgotten the old one. */
  predicate TableIsFree(s: State) {
    forall id :: id in s.conns ==> !s.conns[id].activation.Closing? && !s.conns[id].activation.ForgettingOld?
  }

  /** The steps that take that lock. */
  predicate NeedsTable(s: State, a: Action) {
    match a
    case Activate(id) => id in s.conns && (s.conns[id].activation.Checking? || s.conns[id].activation.Inserting?)
    case Teardown(id) => id in s.conns && s.conns[id].reader.Removing?
    case Handle(_) => s.handler.Handling? && s.handler.event.Disconnected?
    case _ => false
  }

  predicate Enabled(s: State, a: Action) {
    IsReady(s, a) && (NeedsTable(s, a) ==> TableIsFree(s))
  }

  predicate IsReady(s: State, a: Action) {
    match a
    case Handshake(id, remote) => id !in s.conns
    case Activate(id) => id in s.conns && s.conns[id].activation != Activated
    case ReportConnected(id) => id in s.conns && s.conns[id].activation == Activated
    case Lose(id) => id in s.conns
    case ReadDatagram(id) => id in s.conns && s.conns[id].reader == Reading
    case ReadControl(id, _) => id in s.conns && s.conns[id].activation == Activated
    case Teardown(id) =>
      && id in s.conns && !s.conns[id].reader.NotSpawned? && !s.conns[id].reader.Gone?
      && (s.conns[id].reader == Reading ==> s.conns[id].closed)
    case TakeEvent => s.handler == Idle && s.queue != []
    case Handle(_) => s.handler != Idle
  }

  function NextActivation(s: State, id: ConnId): Activation
    requires id in s.conns
  {
    var remote := s.conns[id].remote;
    match s.conns[id].activation
    case Checking => if IsCurrent(s, remote, id) then Activated else Inserting
    case Inserting => if remote in s.peers then Closing(s.peers[remote]) else Announcing
    case Closing(_) => ForgettingOld
    case ForgettingOld => Announcing
    case Announcing => SpawningReader
    case SpawningReader => SpawningControl
    case SpawningControl => Activated
    case Activated => Activated
  }

  function Close(conns: map<ConnId, Conn>, id: ConnId): map<ConnId, Conn> {
    if id in conns then conns[id := conns[id].(closed := true)] else conns
  }

  function ActivateStep(s: State, id: ConnId): State
    requires id in s.conns
  {
    var c := s.conns[id];
    var reader := if c.activation.SpawningReader? then Reading else c.reader;
    var conns := s.conns[id := c.(activation := NextActivation(s, id), reader := reader)];
    s.(conns := if c.activation.Closing? then Close(conns, c.activation.replaced) else conns,
       peers := if c.activation.Inserting? then s.peers[c.remote := id] else s.peers,
       accepted := if c.activation.ForgettingOld? then s.accepted - {c.remote} else s.accepted)
  }

  function NextReader(order: Order, reader: Reader): Reader {
    match reader
    case NotSpawned => NotSpawned
    case Reading => if order == AsWritten then Removing else Sending
    case Removing => ForgettingAnnounced
    case ForgettingAnnounced => ForgettingAccepted
    case ForgettingAccepted => if order == AsWritten then Sending else Gone
    case Sending => if order == AsWritten then Gone else Removing
    case Gone => Gone
  }

  function TeardownStep(order: Order, s: State, id: ConnId): State
    requires id in s.conns
  {
    var c := s.conns[id];
    s.(conns := s.conns[id := c.(reader := NextReader(order, c.reader))],
       peers := if c.reader.Removing? && IsCurrent(s, c.remote, id) then s.peers - {c.remote} else s.peers,
       announced := if c.reader.ForgettingAnnounced? then s.announced - {c.remote} else s.announced,
       accepted := if c.reader.ForgettingAccepted? then s.accepted - {c.remote} else s.accepted,
       queue := if c.reader.Sending? then s.queue + [Disconnected(c.remote, id)] else s.queue)
  }

  /** The message in hand, with the remote it came from. */
  function InHand(s: State): Option<(Remote, Message)> {
    if s.handler.Handling? && s.handler.event.Control? then Some((s.handler.event.remote, s.handler.event.message))
    else None
  }

  /** Serve a remote under the address it is bound to, if any. */
  function ServeIfBound(s: State, remote: Remote): Handler {
    if remote in s.announced then Serving(remote, s.announced[remote]) else Idle
  }

  function AfterMessage(crypto: Crypto, s: State, remote: Remote, message: Message): Handler {
    match message
    case AnnounceProof(p) => if IsValidProof(crypto, s.pending, remote, p) then ConsumingChallenge(remote, p) else Idle
    case ConfigRequest(_) => ServeIfBound(s, remote)
    case _ => Idle
  }

  function NextHandler(crypto: Crypto, s: State): Handler {
    match s.handler
    case Handling(Datagram(remote)) => ServeIfBound(s, remote)
    case Handling(Disconnected(remote, id)) => if IsCurrent(s, remote, id) then Evicting(remote) else Idle
    case Handling(Control(remote, message)) => AfterMessage(crypto, s, remote, message)
    case ConsumingChallenge(remote, p) => Remembering(remote, p.address)
    case Remembering(remote, a) => if MayRemember(s.announced, remote, a) then RecordingAccepted(remote, a) else Idle
    case RecordingAccepted(remote, a) => Serving(remote, a)
    case _ => Idle
  }

  function NextAccepted(s: State): map<Remote, Text> {
    match InHand(s)
    case Some((remote, AnnounceAccepted(a))) => s.accepted[remote := a]
    case _ => if s.handler.RecordingAccepted? then s.accepted[s.handler.remote := s.handler.address] else s.accepted
  }

  function NextPending(s: State, nonce: u64): map<Remote, (u64, Text)> {
    match InHand(s)
    case Some((remote, NodeAnnounce(a))) => s.pending[remote := (nonce, a)]
    case _ => if s.handler.ConsumingChallenge? then s.pending - {s.handler.remote} else s.pending
  }

  function NextIssued(s: State, nonce: u64): set<(Remote, u64, Text)> {
    match InHand(s)
    case Some((remote, NodeAnnounce(a))) => s.issued + {(remote, nonce, a)}
    case _ => s.issued
  }

  function NextReceived(s: State): set<(Remote, Proof)> {
    match InHand(s)
    case Some((remote, AnnounceProof(p))) => s.received + {(remote, p)}
    case _ => s.received
  }

  /** One step of the event loop; `nonce` is the random number drawn, should it issue a challenge. */
  function HandleStep(crypto: Crypto, s: State, nonce: u64): State {
    s.(handler := NextHandler(crypto, s),
       announced := if s.handler.Remembering? then Remembered(s.announced, s.handler.remote, s.handler.address)
                    else s.announced,
       accepted := NextAccepted(s),
       pending := NextPending(s, nonce),
       issued := NextIssued(s, nonce),
       received := NextReceived(s),
       served := if s.handler.Serving? then s.served + {(s.handler.remote, s.handler.address)} else s.served,
       evicted := if s.handler.Evicting? then s.evicted + [s.handler.remote] else s.evicted)
  }

  function Step(crypto: Crypto, order: Order, s: State, a: Action): State
    requires Enabled(s, a)
  {
    match a
    case Handshake(id, remote) => s.(conns := s.conns[id := Conn(remote, Checking, NotSpawned, false)])
    case Activate(id) => ActivateStep(s, id)
    case ReportConnected(id) => s.(queue := s.queue + [Connected(s.conns[id].remote)])
    case Lose(id) => s.(conns := s.conns[id := s.conns[id].(closed := true)])
    case ReadDatagram(id) => s.(queue := s.queue + [Datagram(s.conns[id].remote)])
    case ReadControl(id, message) => s.(queue := s.queue + [Control(s.conns[id].remote, message)])
    case Teardown(id) => TeardownStep(order, s, id)
    case TakeEvent => s.(handler := Handling(s.queue[0]), queue := s.queue[1..])
    case Handle(nonce) => HandleStep(crypto, s, nonce)
  }

  /** The state a run reaches, if each of its actions is enabled in turn. */
  function Run(crypto: Crypto, order: Order, run: seq<Action>): Option<State> {
    if run == [] then Some(INITIAL)
    else
      var n := |run| - 1;
      match Run(crypto, order, run[..n])
      case Some(s) => if Enabled(s, run[n]) then Some(Step(crypto, order, s, run[n])) else None
      case None => None
  }

  // ----- Connections ----------------------------------------------------------------------------

  predicate Inserted(c: Conn) {
    !c.activation.Checking? && !c.activation.Inserting?
  }

  predicate Removed(c: Conn) {
    c.reader.ForgettingAnnounced? || c.reader.ForgettingAccepted? || c.reader.Sending? || c.reader.Gone?
  }

  /** The connections `d` is about to close. */
  predicate IsClosing(s: State, d: ConnId, replaced: ConnId) {
    d in s.conns && s.conns[d].activation == Closing(replaced)
  }

  ghost predicate PeersAreInserted(s: State) {
    forall r :: r in s.peers ==>
      s.peers[r] in s.conns && s.conns[s.peers[r]].remote == r && Inserted(s.conns[s.peers[r]])
  }

  predicate HasSpawned(c: Conn) {
    c.activation.SpawningControl? || c.activation.Activated?
  }

  ghost predicate ReadersAreInserted(s: State) {
    forall id :: id in s.conns ==>
      && (!s.conns[id].reader.NotSpawned? ==> HasSpawned(s.conns[id]))
      && (!s.conns[id].reader.NotSpawned? && !s.conns[id].reader.Reading? ==> s.conns[id].closed)
  }

  ghost predicate RemovedAreNotPeers(s: State) {
    forall id :: id in s.conns && Removed(s.conns[id]) ==> !IsCurrent(s, s.conns[id].remote, id)
  }

  /** What an activation is about to close was inserted for the same remote, has been replaced, and is its alone. */
  ghost predicate ClosingsAreReplaced(s: State) {
    && (forall d, c :: IsClosing(s, d, c) ==>
          && c in s.conns && Inserted(s.conns[c]) && c != d
          && s.conns[c].remote == s.conns[d].remote
          && !IsCurrent(s, s.conns[c].remote, c))
    && (forall d, e, c :: IsClosing(s, d, c) && IsClosing(s, e, c) ==> d == e)
  }

  predicate ReportsDisconnect(s: State, r: Remote, id: ConnId) {
    Disconnected(r, id) in s.queue || s.handler == Handling(Disconnected(r, id))
  }

  ghost predicate DisconnectsAreRemoved(s: State) {
    forall r, id :: ReportsDisconnect(s, r, id) ==>
      id in s.conns && s.conns[id].remote == r && s.conns[id].reader == Gone
  }

  /** A live connection is current, or closed, or about to be closed by the activation that replaced it. */
  predicate IsAccountedFor(s: State, id: ConnId)
    requires id in s.conns
  {
    s.conns[id].closed || IsCurrent(s, s.conns[id].remote, id) || exists d :: d in s.conns && IsClosing(s, d, id)
  }

  ghost predicate NoOrphans(s: State) {
    forall id :: id in s.conns && Inserted(s.conns[id]) ==> IsAccountedFor(s, id)
  }

  ghost predicate ConnInv(s: State) {
    && PeersAreInserted(s) && ReadersAreInserted(s) && RemovedAreNotPeers(s)
    && ClosingsAreReplaced(s) && DisconnectsAreRemoved(s) && NoOrphans(s)
    && !s.handler.Evicting? && s.evicted == []
  }

  lemma HandshakeKeeps(s: State, id: ConnId, remote: Remote)
    requires ConnInv(s) && id !in s.conns
    ensures ConnInv(s.(conns := s.conns[id := Conn(remote, Checking, NotSpawned, false)]))
  {
    var s' := s.(conns := s.conns[id := Conn(remote, Checking, NotSpawned, false)]);
    assert forall d, c :: IsClosing(s', d, c) ==> IsClosing(s, d, c);
    assert forall r, k :: ReportsDisconnect(s', r, k) ==> ReportsDisconnect(s, r, k);
    forall k | k in s'.conns && Inserted(s'.conns[k])
      ensures IsAccountedFor(s', k)
    {
      assert IsAccountedFor(s, k);
      if d :| d in s.conns && IsClosing(s, d, k) {
        assert IsClosing(s', d, k);
      }
    }
  }

  /** What an activation step leaves alone, and what it does to its own connection and the table. */
  lemma ActivateEffect(s: State, id: ConnId)
    requires id in s.conns
    ensures var s', c := ActivateStep(s, id), s.conns[id];
      && s'.conns.Keys == s.conns.Keys
      && s'.queue == s.queue && s'.handler == s.handler && s'.evicted == s.evicted
      && (forall k :: k in s.conns ==> s'.conns[k].remote == s.conns[k].remote)
      && (forall k :: k in s.conns && s.conns[k].closed ==> s'.conns[k].closed)
      && (forall k :: k in s.conns && k != id ==>
            s'.conns[k].activation == s.conns[k].activation && s'.conns[k].reader == s.conns[k].reader)
      && s'.conns[id].reader == (if c.activation == SpawningReader then Reading else c.reader)
      && (Inserted(c) || c.activation.Inserting? ==> Inserted(s'.conns[id]))
      && (Inserted(s'.conns[id]) ==> Inserted(c) || c.activation == Inserting || IsCurrent(s, c.remote, id))
      && (HasSpawned(c) || c.activation == SpawningReader ==> HasSpawned(s'.conns[id]))
      && (c.activation.Closing? && c.activation.replaced in s.conns ==> s'.conns[c.activation.replaced].closed)
      && s'.peers == (if c.activation == Inserting then s.peers[c.remote := id] else s.peers)
      && (forall k :: IsClosing(s', id, k) <==> c.activation == Inserting && IsCurrent(s, c.remote, k))
  {
  }

  lemma ActivateKeepsReaders(s: State, id: ConnId)
    requires id in s.conns && PeersAreInserted(s) && ReadersAreInserted(s)
    ensures PeersAreInserted(ActivateStep(s, id)) && ReadersAreInserted(ActivateStep(s, id))
  {
    hide ActivateStep;
    ActivateEffect(s, id);
  }

  lemma ActivateKeepsRemoved(s: State, id: ConnId)
    requires id in s.conns && ReadersAreInserted(s) && RemovedAreNotPeers(s) && DisconnectsAreRemoved(s)
    ensures RemovedAreNotPeers(ActivateStep(s, id)) && DisconnectsAreRemoved(ActivateStep(s, id))
  {
    hide ActivateStep;
    ActivateEffect(s, id);
    assert forall r, k :: ReportsDisconnect(ActivateStep(s, id), r, k) ==> ReportsDisconnect(s, r, k);
  }

  lemma ActivateKeepsClosings(s: State, id: ConnId)
    requires id in s.conns && PeersAreInserted(s) && ClosingsAreReplaced(s)
    ensures ClosingsAreReplaced(ActivateStep(s, id))
  {
    hide ActivateStep;
    ActivateEffect(s, id);
    assert forall d, c :: d != id ==> (IsClosing(ActivateStep(s, id), d, c) <==> IsClosing(s, d, c));
  }

  lemma ActivateKeepsOrphans(s: State, id: ConnId)
    requires id in s.conns && PeersAreInserted(s) && NoOrphans(s)
    ensures NoOrphans(ActivateStep(s, id))
  {
    hide ActivateStep;
    ActivateEffect(s, id);
    var s' := ActivateStep(s, id);
    forall k | k in s'.conns && Inserted(s'.conns[k])
      ensures IsAccountedFor(s', k)
    {
      if Inserted(s.conns[k]) {
        assert IsAccountedFor(s, k);
        if d :| d in s.conns && IsClosing(s, d, k) {
          assert d != id ==> IsClosing(s', d, k);
        } else if IsCurrent(s, s.conns[k].remote, k) && !IsCurrent(s', s.conns[k].remote, k) {
          assert IsClosing(s', id, k);
        }
      }
    }
  }

  lemma ActivateKeeps(s: State, id: ConnId)
    requires ConnInv(s) && id in s.conns
    ensures ConnInv(ActivateStep(s, id))
  {
    hide PeersAreInserted, ReadersAreInserted, RemovedAreNotPeers, ClosingsAreReplaced, DisconnectsAreRemoved,
      NoOrphans, ActivateStep;
    ActivateEffect(s, id);
    ActivateKeepsReaders(s, id);
    ActivateKeepsRemoved(s, id);
    ActivateKeepsClosings(s, id);
    ActivateKeepsOrphans(s, id);
  }

  lemma TeardownKeepsReaders(s: State, id: ConnId)
    requires Enabled(s, Teardown(id))
    requires PeersAreInserted(s) && ReadersAreInserted(s) && RemovedAreNotPeers(s)
    ensures var s' := TeardownStep(AsWritten, s, id);
      PeersAreInserted(s') && ReadersAreInserted(s') && RemovedAreNotPeers(s')
  {
  }

  lemma TeardownKeepsDisconnects(s: State, id: ConnId)
    requires Enabled(s, Teardown(id)) && DisconnectsAreRemoved(s)
    ensures DisconnectsAreRemoved(TeardownStep(AsWritten, s, id))
  {
    var s' := TeardownStep(AsWritten, s, id);
    assert forall r, k :: ReportsDisconnect(s', r, k) ==>
      ReportsDisconnect(s, r, k) || (k == id && r == s.conns[id].remote && s.conns[id].reader == Sending);
  }

  lemma TeardownKeepsClosings(s: State, id: ConnId)
    requires Enabled(s, Teardown(id)) && ReadersAreInserted(s) && ClosingsAreReplaced(s) && NoOrphans(s)
    ensures ClosingsAreReplaced(TeardownStep(AsWritten, s, id)) && NoOrphans(TeardownStep(AsWritten, s, id))
  {
    var s' := TeardownStep(AsWritten, s, id);
    assert forall d, c :: IsClosing(s', d, c) <==> IsClosing(s, d, c);
    forall k | k in s'.conns && Inserted(s'.conns[k])
      ensures IsAccountedFor(s', k)
    {
      assert IsAccountedFor(s, k);
    }
  }

  lemma TeardownKeeps(s: State, id: ConnId)
    requires ConnInv(s) && Enabled(s, Teardown(id))
    ensures ConnInv(TeardownStep(AsWritten, s, id))
  {
    hide PeersAreInserted, ReadersAreInserted, RemovedAreNotPeers, ClosingsAreReplaced, DisconnectsAreRemoved,
      NoOrphans;
    TeardownKeepsReaders(s, id);
    TeardownKeepsDisconnects(s, id);
    TeardownKeepsClosings(s, id);
  }

  lemma HandleEffect(crypto: Crypto, s: State, nonce: u64)
    requires !s.handler.Evicting?
    ensures var s' := HandleStep(crypto, s, nonce);
      && s'.conns == s.conns && s'.peers == s.peers && s'.queue == s.queue && s'.evicted == s.evicted
      && !s'.handler.Handling?
      && (s'.handler.Evicting? ==> s.handler.Handling? && s.handler.event.Disconnected?
                                   && IsCurrent(s, s.handler.event.remote, s.handler.event.id))
  {
  }

  /** The event loop finds no reported connection current, so it never starts to evict. */
  lemma HandleKeeps(crypto: Crypto, s: State, nonce: u64)
    requires ConnInv(s)
    ensures ConnInv(HandleStep(crypto, s, nonce))
  {
    hide HandleStep, ConnInv;
    ConnInvFacts(s);
    HandleEffect(crypto, s, nonce);
    var s' := HandleStep(crypto, s, nonce);
    if s.handler.Handling? && s.handler.event.Disconnected? {
      assert ReportsDisconnect(s, s.handler.event.remote, s.handler.event.id);
    }
    ChannelKeeps(s, s');
  }

  /** Channel operations and lost connections change nothing that the invariant speaks of. */
  lemma ChannelKeeps(s: State, s': State)
    requires ConnInv(s)
    requires s'.conns.Keys == s.conns.Keys && s'.peers == s.peers && s'.evicted == s.evicted && !s'.handler.Evicting?
    requires forall k :: k in s.conns ==>
      s'.conns[k] == s.conns[k] || s'.conns[k] == s.conns[k].(closed := true)
    requires forall r, k :: ReportsDisconnect(s', r, k) ==> ReportsDisconnect(s, r, k)
    ensures ConnInv(s')
  {
    assert forall d, c :: IsClosing(s', d, c) <==> IsClosing(s, d, c);
    forall k | k in s'.conns && Inserted(s'.conns[k])
      ensures IsAccountedFor(s', k)
    {
      assert IsAccountedFor(s, k);
    }
  }

  lemma StepKeepsConnInv(crypto: Crypto, s: State, a: Action)
    requires ConnInv(s) && Enabled(s, a)
    ensures ConnInv(Step(crypto, AsWritten, s, a))
  {
    hide ConnInv, ActivateStep, TeardownStep, HandleStep;
    match a
    case Handshake(id, remote) => HandshakeKeeps(s, id, remote);
    case Activate(id) => ActivateKeeps(s, id);
    case Teardown(id) => TeardownKeeps(s, id);
    case Handle(nonce) => HandleKeeps(crypto, s, nonce);
    case TakeEvent =>
      ConnInvFacts(s);
      assert s.queue == [s.queue[0]] + s.queue[1..];
      ChannelKeeps(s, Step(crypto, AsWritten, s, a));
    case _ =>
      ConnInvFacts(s);
      ChannelKeeps(s, Step(crypto, AsWritten, s, a));
  }

  lemma ConnInvFacts(s: State)
    requires ConnInv(s)
    ensures !s.handler.Evicting? && s.evicted == []
    ensures forall r, id :: ReportsDisconnect(s, r, id) ==> !IsCurrent(s, r, id)
    ensures forall d, e, c :: IsClosing(s, d, c) && IsClosing(s, e, c) ==> d == e
    ensures forall id :: id in s.conns && Inserted(s.conns[id]) ==> IsAccountedFor(s, id)
  {
  }

  lemma {:induction false} RunsKeepConnInv(crypto: Crypto, run: seq<Action>)
    requires Run(crypto, AsWritten, run).Some?
    ensures ConnInv(Run(crypto, AsWritten, run).value)
  {
    if run != [] {
      var n := |run| - 1;
      RunsKeepConnInv(crypto, run[..n]);
      StepKeepsConnInv(crypto, Run(crypto, AsWritten, run[..n]).value, run[n]);
    }
  }

  /** A reported disconnect is never of the current connection, so the event loop never evicts a MAC. */
  lemma EvictionIsNeverReached(crypto: Crypto, run: seq<Action>)
    requires Run(crypto, AsWritten, run).Some?
    ensures var s := Run(crypto, AsWritten, run).value;
      && (forall r, id :: ReportsDisconnect(s, r, id) ==> !IsCurrent(s, r, id))
      && !s.handler.Evicting? && s.evicted == []
  {
    RunsKeepConnInv(crypto, run);
    ConnInvFacts(Run(crypto, AsWritten, run).value);
  }

  /** Every live open connection is current, or the one connection some single activation is about to close. */
  lemma NoOrphanedConnection(crypto: Crypto, run: seq<Action>, id: ConnId)
    requires Run(crypto, AsWritten, run).Some?
    requires var s := Run(crypto, AsWritten, run).value;
      id in s.conns && Inserted(s.conns[id]) && !s.conns[id].closed
    ensures var s := Run(crypto, AsWritten, run).value;
      && (IsCurrent(s, s.conns[id].remote, id) || exists d :: IsClosing(s, d, id))
      && (forall d, e :: IsClosing(s, d, id) && IsClosing(s, e, id) ==> d == e)
  {
    RunsKeepConnInv(crypto, run);
    ConnInvFacts(Run(crypto, AsWritten, run).value);
  }

  /** With no activation for it about to close a connection, a remote has at most one open connection with readers. */
  lemma OneOpenConnectionPerRemote(crypto: Crypto, run: seq<Action>, a: ConnId, b: ConnId)
    requires Run(crypto, AsWritten, run).Some?
    requires var s := Run(crypto, AsWritten, run).value;
      && a in s.conns && b in s.conns && s.conns[a].remote == s.conns[b].remote
      && s.conns[a].reader.Reading? && s.conns[b].reader.Reading?
      && !s.conns[a].closed && !s.conns[b].closed
      && (forall d :: d in s.conns && s.conns[d].remote == s.conns[a].remote ==> !s.conns[d].activation.Closing?)
    ensures a == b
  {
    RunsKeepConnInv(crypto, run);
    var s := Run(crypto, AsWritten, run).value;
    assert ReadersAreInserted(s);
    assert IsAccountedFor(s, a) && IsAccountedFor(s, b);
  }

  /** What matters of the state in the run below: connection 1, the table's entry for remote 7, and the event loop. */
  predicate Shows(s: State, c: Conn, current: bool, queue: seq<Event>, handler: Handler) {
    && s.conns == map[1 := c]
    && (if current then IsCurrent(s, 7, 1) else 7 !in s.peers)
    && s.queue == queue && s.handler == handler && s.evicted == []
  }

  lemma Extend(crypto: Crypto, order: Order, run: seq<Action>, s: State, a: Action)
    returns (run': seq<Action>, s': State)
    requires Run(crypto, order, run) == Some(s) && Enabled(s, a)
    ensures s' == Step(crypto, order, s, a) && Run(crypto, order, run') == Some(s')
  {
    run', s' := run + [a], Step(crypto, order, s, a);
    assert run'[..|run|] == run;
  }

  lemma ConnectionIsChecked(crypto: Crypto, order: Order) returns (run: seq<Action>, s: State)
    ensures Run(crypto, order, run) == Some(s) && s.announced == map[] && s.received == {}
    ensures Shows(s, Conn(7, Inserting, NotSpawned, false), false, [], Idle)
  {
    hide Run;
    run, s := [], INITIAL;
    assert Run(crypto, order, run) == Some(s) by { RunOfNothing(crypto, order); }
    run, s := Extend(crypto, order, run, s, Handshake(1, 7));
    assert Shows(s, Conn(7, Checking, NotSpawned, false), false, [], Idle);
    run, s := Extend(crypto, order, run, s, Activate(1));
  }

  lemma ConnectionComesUp(crypto: Crypto, order: Order) returns (run: seq<Action>, s: State)
    ensures Run(crypto, order, run) == Some(s) && s.announced == map[] && s.received == {}
    ensures Shows(s, Conn(7, SpawningControl, Reading, false), true, [], Idle)
  {
    hide Run;
    run, s := ConnectionIsChecked(crypto, order);
    run, s := Extend(crypto, order, run, s, Activate(1));
    assert Shows(s, Conn(7, Announcing, NotSpawned, false), true, [], Idle);
    run, s := Extend(crypto, order, run, s, Activate(1));
    assert Shows(s, Conn(7, SpawningReader, NotSpawned, false), true, [], Idle);
    run, s := Extend(crypto, order, run, s, Activate(1));
  }

  lemma RunOfNothing(crypto: Crypto, order: Order)
    ensures Run(crypto, order, []) == Some(INITIAL)
  {
  }

  lemma LossIsReported(crypto: Crypto) returns (run: seq<Action>, s: State)
    ensures Run(crypto, EventFirst, run) == Some(s)
    ensures Shows(s, Conn(7, SpawningControl, Removing, true), true, [Disconnected(7, 1)], Idle)
  {
    hide Run;
    run, s := ConnectionComesUp(crypto, EventFirst);
    run, s := Extend(crypto, EventFirst, run, s, Lose(1));
    assert Shows(s, Conn(7, SpawningControl, Reading, true), true, [], Idle);
    run, s := Extend(crypto, EventFirst, run, s, Teardown(1));
    assert Shows(s, Conn(7, SpawningControl, Sending, true), true, [], Idle);
    run, s := Extend(crypto, EventFirst, run, s, Teardown(1));
  }

  /** With the event sent first, a lost connection is evicted when the event loop is faster than the reader ... */
  lemma EventFirstReachesEviction(crypto: Crypto) returns (run: seq<Action>)
    ensures Run(crypto, EventFirst, run).Some? && Run(crypto, EventFirst, run).value.evicted == [7]
  {
    hide Run;
    var s;
    run, s := LossIsReported(crypto);
    run, s := Extend(crypto, EventFirst, run, s, TakeEvent);
    assert Shows(s, Conn(7, SpawningControl, Removing, true), true, [], Handling(Disconnected(7, 1)));
    run, s := Extend(crypto, EventFirst, run, s, Handle(0));
    assert Shows(s, Conn(7, SpawningControl, Removing, true), true, [], Evicting(7));
    run, s := Extend(crypto, EventFirst, run, s, Handle(0));
  }

  /** ... and is missed when the reader's removal overtakes it. */
  lemma EventFirstCanMissEviction(crypto: Crypto) returns (run: seq<Action>, s: State)
    ensures Run(crypto, EventFirst, run) == Some(s)
    ensures Shows(s, Conn(7, SpawningControl, ForgettingAnnounced, true), false, [], Handling(Disconnected(7, 1)))
    ensures HandleStep(crypto, s, 0).handler == Idle && HandleStep(crypto, s, 0).evicted == []
  {
    hide Run;
    run, s := LossIsReported(crypto);
    run, s := Extend(crypto, EventFirst, run, s, Teardown(1));
    assert Shows(s, Conn(7, SpawningControl, ForgettingAnnounced, true), false, [Disconnected(7, 1)], Idle);
    run, s := Extend(crypto, EventFirst, run, s, TakeEvent);
  }

  // ----- Evictions in either order --------------------------------------------------------------

  /** The reports that find their connection current when they are handled. */
  function TimelyReports(crypto: Crypto, order: Order, run: seq<Action>): seq<Remote>
    requires Run(crypto, order, run).Some?
  {
    if run == [] then []
    else
      var n := |run| - 1;
      var s := Run(crypto, order, run[..n]).value;
      TimelyReports(crypto, order, run[..n]) + (if IsTimely(s, run[n]) then [s.handler.event.remote] else [])
  }

  predicate IsTimely(s: State, a: Action) {
    && a.Handle? && s.handler.Handling? && s.handler.event.Disconnected?
    && IsCurrent(s, s.handler.event.remote, s.handler.event.id)
  }

  /** What has been evicted, and what is about to be. */
  function Evictions(s: State): seq<Remote> {
    s.evicted + if s.handler.Evicting? then [s.handler.remote] else []
  }

  lemma StepEvicts(crypto: Crypto, order: Order, s: State, a: Action)
    requires Enabled(s, a)
    ensures Evictions(Step(crypto, order, s, a))
         == Evictions(s) + if IsTimely(s, a) then [s.handler.event.remote] else []
  {
  }

  /** In either order and every run, exactly the reports that find their connection current lead to an eviction. */
  lemma {:induction false} EvictedExactly(crypto: Crypto, order: Order, run: seq<Action>)
    requires Run(crypto, order, run).Some?
    ensures Evictions(Run(crypto, order, run).value) == TimelyReports(crypto, order, run)
  {
    hide Step, Enabled, IsTimely, Evictions;
    if run == [] {
      NothingEvicted();
    } else {
      var n := |run| - 1;
      EvictedExactly(crypto, order, run[..n]);
      StepEvicts(crypto, order, Run(crypto, order, run[..n]).value, run[n]);
    }
  }

  lemma NothingEvicted()
    ensures Evictions(INITIAL) == []
  {
  }

  /** The reader has removed its connection, with the event sent before. */
  predicate HasRemoved(c: Conn) {
    c.reader.ForgettingAnnounced? || c.reader.ForgettingAccepted? || c.reader.Gone?
  }

  ghost predicate EventFirstInv(s: State) {
    && PeersAreInserted(s) && ReadersAreInserted(s)
    && (forall id :: id in s.conns && HasRemoved(s.conns[id]) ==> !IsCurrent(s, s.conns[id].remote, id))
    && (forall r, id :: ReportsDisconnect(s, r, id) ==>
          id in s.conns && s.conns[id].remote == r && (s.conns[id].reader.Removing? || HasRemoved(s.conns[id])))
  }

  lemma ActivateKeepsEventFirst(s: State, id: ConnId)
    requires id in s.conns && EventFirstInv(s)
    ensures EventFirstInv(ActivateStep(s, id))
  {
    ActivateKeepsReaders(s, id);
    assert forall k :: k in s.conns && HasRemoved(s.conns[k]) ==> HasSpawned(s.conns[k]);
    hide ActivateStep, PeersAreInserted, ReadersAreInserted;
    ActivateEffect(s, id);
    assert forall r, k :: ReportsDisconnect(ActivateStep(s, id), r, k) ==> ReportsDisconnect(s, r, k);
  }

  lemma TeardownKeepsEventFirst(s: State, id: ConnId)
    requires Enabled(s, Teardown(id)) && EventFirstInv(s)
    ensures EventFirstInv(TeardownStep(EventFirst, s, id))
  {
    var s' := TeardownStep(EventFirst, s, id);
    assert forall r, k :: ReportsDisconnect(s', r, k) ==>
      ReportsDisconnect(s, r, k) || (k == id && r == s.conns[id].remote && s.conns[id].reader == Sending);
  }

  /** Channel operations, lost connections and the event loop change nothing that this invariant speaks of. */
  lemma ChannelKeepsEventFirst(s: State, s': State)
    requires EventFirstInv(s)
    requires s'.conns.Keys == s.conns.Keys && s'.peers == s.peers
    requires forall k :: k in s.conns ==>
      s'.conns[k] == s.conns[k] || s'.conns[k] == s.conns[k].(closed := true)
    requires forall r, k :: ReportsDisconnect(s', r, k) ==> ReportsDisconnect(s, r, k)
    ensures EventFirstInv(s')
  {
  }

  lemma OtherStepsKeepEventFirst(crypto: Crypto, s: State, a: Action)
    requires Enabled(s, a) && EventFirstInv(s) && !a.Activate? && !a.Teardown? && !a.Handshake?
    ensures EventFirstInv(Step(crypto, EventFirst, s, a))
  {
    hide NextHandler, NextAccepted, NextPending, NextIssued, NextReceived, Remembered, TableIsFree, EventFirstInv;
    var s' := Step(crypto, EventFirst, s, a);
    HandlerMovesOn(crypto, s);
    if a.TakeEvent? {
      assert s.queue == [s.queue[0]] + s.queue[1..];
    }
    ChannelKeepsEventFirst(s, s');
  }

  lemma HandshakeKeepsEventFirst(crypto: Crypto, s: State, id: ConnId, remote: Remote)
    requires id !in s.conns && EventFirstInv(s)
    ensures EventFirstInv(Step(crypto, EventFirst, s, Handshake(id, remote)))
  {
    var s' := Step(crypto, EventFirst, s, Handshake(id, remote));
    assert forall r, k :: ReportsDisconnect(s', r, k) ==> ReportsDisconnect(s, r, k);
  }

  lemma HandlerMovesOn(crypto: Crypto, s: State)
    ensures !NextHandler(crypto, s).Handling?
  {
  }

  lemma {:induction false} RunsKeepEventFirst(crypto: Crypto, run: seq<Action>)
    requires Run(crypto, EventFirst, run).Some?
    ensures EventFirstInv(Run(crypto, EventFirst, run).value)
  {
    hide EventFirstInv, ActivateStep, TeardownStep, HandleStep, TableIsFree;
    if run == [] {
      assert EventFirstInv(INITIAL) by { EventFirstInitially(); }
    } else {
      var n := |run| - 1;
      RunsKeepEventFirst(crypto, run[..n]);
      var s := Run(crypto, EventFirst, run[..n]).value;
      match run[n] {
        case Activate(id) => ActivateKeepsEventFirst(s, id);
        case Teardown(id) => TeardownKeepsEventFirst(s, id);
        case Handshake(id, remote) => HandshakeKeepsEventFirst(crypto, s, id, remote);
        case _ => OtherStepsKeepEventFirst(crypto, s, run[n]);
      }
    }
  }

  lemma EventFirstInitially()
    ensures EventFirstInv(INITIAL)
  {
  }

  /**
   * With the event sent first, handling a report starts an eviction exactly if its connection is still current, and it
   * can be so only as long as its own reader has not removed it.
   */
  lemma EventFirstEvictsExactly(crypto: Crypto, run: seq<Action>, r: Remote, id: ConnId, nonce: u64)
    requires Run(crypto, EventFirst, run).Some?
    requires Run(crypto, EventFirst, run).value.handler == Handling(Disconnected(r, id))
    ensures var s := Run(crypto, EventFirst, run).value;
      && (HandleStep(crypto, s, nonce).handler == Evicting(r) <==> IsCurrent(s, r, id))
      && id in s.conns && (s.conns[id].reader.Removing? || HasRemoved(s.conns[id]))
      && (IsCurrent(s, r, id) ==> s.conns[id].reader.Removing?)
  {
    RunsKeepEventFirst(crypto, run);
    assert ReportsDisconnect(Run(crypto, EventFirst, run).value, r, id);
  }

  // ----- Identities -----------------------------------------------------------------------------

  /** The remote was challenged for this address and answered with a proof signed by an identity of that address. */
  ghost predicate IsProven(crypto: Crypto, s: State, remote: Remote, address: Text) {
    exists p :: (remote, p) in s.received && IsProofOf(crypto, s, remote, address, p)
  }

  predicate IsProofOf(crypto: Crypto, s: State, remote: Remote, address: Text, p: Proof) {
    p.address == address && IsSigned(crypto, p) && (remote, p.nonce, address) in s.issued
  }

  ghost predicate PendingAreIssued(s: State) {
    forall r :: r in s.pending ==> (r, s.pending[r].0, s.pending[r].1) in s.issued
  }

  ghost predicate HandlerIsProven(crypto: Crypto, s: State) {
    match s.handler
    case ConsumingChallenge(r, p) => (r, p) in s.received && IsProofOf(crypto, s, r, p.address, p)
    case Remembering(r, a) => IsProven(crypto, s, r, a)
    case RecordingAccepted(r, a) => IsProven(crypto, s, r, a)
    case Serving(r, a) => IsProven(crypto, s, r, a)
    case _ => true
  }

  ghost predicate AnnouncedAreProven(crypto: Crypto, s: State) {
    && (forall r :: r in s.announced ==> IsNodeAddress(s.announced[r]) && IsProven(crypto, s, r, s.announced[r]))
    && (forall r, a :: (r, a) in s.served ==> IsProven(crypto, s, r, a))
  }

  ghost predicate IdentityInv(crypto: Crypto, s: State) {
    PendingAreIssued(s) && HandlerIsProven(crypto, s) && AnnouncedAreProven(crypto, s)
  }

  /** History only grows, and proofs stay proofs. */
  lemma ProvenStays(crypto: Crypto, s: State, s': State)
    requires s.received <= s'.received && s.issued <= s'.issued
    ensures forall r: Remote, a: Text :: IsProven(crypto, s, r, a) ==> IsProven(crypto, s', r, a)
  {
    forall r: Remote, a: Text | IsProven(crypto, s, r, a)
      ensures IsProven(crypto, s', r, a)
    {
      var p :| (r, p) in s.received && IsProofOf(crypto, s, r, a, p);
      assert IsProofOf(crypto, s', r, a, p);
    }
  }

  lemma OtherStepsKeepIdentity(crypto: Crypto, s: State, s': State)
    requires IdentityInv(crypto, s)
    requires s'.received == s.received && s'.issued == s.issued && s'.served == s.served && s'.pending == s.pending
    requires forall r :: r in s'.announced ==> r in s.announced && s'.announced[r] == s.announced[r]
    requires s'.handler == s.handler || s'.handler.Handling?
    ensures IdentityInv(crypto, s')
  {
    hide IsProven;
    ProvenStays(crypto, s, s');
  }

  lemma HandleKeepsPending(crypto: Crypto, s: State, nonce: u64)
    requires PendingAreIssued(s)
    ensures PendingAreIssued(HandleStep(crypto, s, nonce))
  {
    hide NextHandler, Remembered, NextAccepted, NextReceived;
  }

  lemma HandleKeepsProven(crypto: Crypto, s: State, nonce: u64)
    requires HandlerIsProven(crypto, s) && AnnouncedAreProven(crypto, s)
    ensures AnnouncedAreProven(crypto, HandleStep(crypto, s, nonce))
  {
    hide NextHandler, IsProven, IsNodeAddress, NextAccepted, NextPending;
    ProvenStays(crypto, s, HandleStep(crypto, s, nonce));
  }

  lemma ProofProves(crypto: Crypto, s: State, remote: Remote, p: Proof)
    requires (remote, p) in s.received && IsProofOf(crypto, s, remote, p.address, p)
    ensures IsProven(crypto, s, remote, p.address)
  {
  }

  lemma HandleKeepsHandler(crypto: Crypto, s: State, nonce: u64)
    requires IdentityInv(crypto, s)
    ensures HandlerIsProven(crypto, HandleStep(crypto, s, nonce))
  {
    hide IsSigned, IsNodeAddress, NextAccepted, NextPending, Remembered, IsProven;
    var s' := HandleStep(crypto, s, nonce);
    ProvenStays(crypto, s, s');
    if s.handler.ConsumingChallenge? {
      ProofProves(crypto, s', s.handler.remote, s.handler.proof);
    }
  }

  lemma StepKeepsIdentity(crypto: Crypto, order: Order, s: State, a: Action)
    requires IdentityInv(crypto, s) && Enabled(s, a)
    ensures IdentityInv(crypto, Step(crypto, order, s, a))
  {
    hide PendingAreIssued, HandlerIsProven, AnnouncedAreProven, HandleStep;
    if a.Handle? {
      HandleKeepsPending(crypto, s, a.nonce);
      HandleKeepsProven(crypto, s, a.nonce);
      HandleKeepsHandler(crypto, s, a.nonce);
    } else {
      OtherStepsKeepIdentity(crypto, s, Step(crypto, order, s, a));
    }
  }

  /**
   * In every run, with any messages arriving, each remote bound to an address and each address served over QUIC (a
   * join registration, a token, a last-seen touch) was proven: challenged by this node and answered under a signature.
   */
  lemma {:induction false} AnnouncedAddressesAreProven(crypto: Crypto, order: Order, run: seq<Action>)
    requires Run(crypto, order, run).Some?
    ensures IdentityInv(crypto, Run(crypto, order, run).value)
  {
    if run != [] {
      var n := |run| - 1;
      AnnouncedAddressesAreProven(crypto, order, run[..n]);
      StepKeepsIdentity(crypto, order, Run(crypto, order, run[..n]).value, run[n]);
    }
  }

  /** A binding never changes in place: a different address can only follow a removal. */
  lemma BindingsChangeOnlyByRemoval(crypto: Crypto, order: Order, s: State, a: Action, remote: Remote)
    requires Enabled(s, a)
    requires remote in s.announced && remote in Step(crypto, order, s, a).announced
    ensures Step(crypto, order, s, a).announced[remote] == s.announced[remote]
  {
  }

  // ----- How long a binding lasts ---------------------------------------------------------------

  /** The step in which some connection's teardown forgets what its remote has announced. */
  predicate Forgets(s: State, a: Action, r: Remote) {
    a.Teardown? && a.id in s.conns && s.conns[a.id].remote == r && s.conns[a.id].reader == ForgettingAnnounced
  }

  lemma BindingLostExactly(crypto: Crypto, order: Order, s: State, a: Action, r: Remote)
    requires Enabled(s, a) && r in s.announced
    ensures r !in Step(crypto, order, s, a).announced <==> Forgets(s, a, r)
  {
  }

  /** In a reachable state that connection is closed and no longer current: what is lost is the binding of another. */
  lemma ForgetfulIsNotCurrent(crypto: Crypto, run: seq<Action>, a: Action, r: Remote)
    requires Run(crypto, AsWritten, run).Some? && Forgets(Run(crypto, AsWritten, run).value, a, r)
    ensures var s := Run(crypto, AsWritten, run).value; s.conns[a.id].closed && !IsCurrent(s, r, a.id)
  {
    RunsKeepConnInv(crypto, run);
    var s := Run(crypto, AsWritten, run).value;
    assert Removed(s.conns[a.id]);
  }

  /** Each action is enabled where the ones before it lead. */
  predicate CanDo(crypto: Crypto, order: Order, s: State, actions: seq<Action>)
    decreases |actions|
  {
    actions == [] || (Enabled(s, actions[0]) && CanDo(crypto, order, Step(crypto, order, s, actions[0]), actions[1..]))
  }

  predicate BoundThroughout(crypto: Crypto, order: Order, s: State, actions: seq<Action>, r: Remote, address: Text)
    requires CanDo(crypto, order, s, actions)
    decreases |actions|
  {
    && r in s.announced && s.announced[r] == address
    && (actions == [] ||
        BoundThroughout(crypto, order, Step(crypto, order, s, actions[0]), actions[1..], r, address))
  }

  predicate NeverForgotten(crypto: Crypto, order: Order, s: State, actions: seq<Action>, r: Remote)
    requires CanDo(crypto, order, s, actions)
    decreases |actions|
  {
    actions == [] ||
    (!Forgets(s, actions[0], r) && NeverForgotten(crypto, order, Step(crypto, order, s, actions[0]), actions[1..], r))
  }

  /** A binding lasts, unchanged, exactly as long as no connection of its remote takes that step of its teardown. */
  lemma {:induction false} BindingLastsExactly(crypto: Crypto, order: Order, s: State, actions: seq<Action>, r: Remote)
    requires CanDo(crypto, order, s, actions) && r in s.announced
    ensures BoundThroughout(crypto, order, s, actions, r, s.announced[r])
       <==> NeverForgotten(crypto, order, s, actions, r)
    decreases |actions|
  {
    hide Step, Enabled, Forgets;
    if actions != [] {
      var s' := Step(crypto, order, s, actions[0]);
      BindingLostExactly(crypto, order, s, actions[0], r);
      if r in s'.announced {
        BindingsChangeOnlyByRemoval(crypto, order, s, actions[0], r);
        BindingLastsExactly(crypto, order, s', actions[1..], r);
      }
    }
  }

  /** Two connections of remote 7: the replaced one, with its reader as given, and the current one that replaced it. */
  predicate ShowsReplaced(s: State, old': Conn, current: Conn, queue: seq<Event>, handler: Handler) {
    && s.conns == map[1 := old', 2 := current] && !current.closed
    && IsCurrent(s, 7, 2) && s.queue == queue && s.handler == handler
  }

  lemma ReplacementBegins(crypto: Crypto) returns (run: seq<Action>, s: State)
    ensures Run(crypto, AsWritten, run) == Some(s) && s.announced == map[]
    ensures ShowsReplaced(s, Conn(7, SpawningControl, Reading, false), Conn(7, Closing(1), NotSpawned, false), [], Idle)
  {
    hide Run;
    run, s := ConnectionComesUp(crypto, AsWritten);
    run, s := Extend(crypto, AsWritten, run, s, Handshake(2, 7));
    run, s := Extend(crypto, AsWritten, run, s, Activate(2));
    assert s.conns == map[1 := Conn(7, SpawningControl, Reading, false), 2 := Conn(7, Inserting, NotSpawned, false)];
    run, s := Extend(crypto, AsWritten, run, s, Activate(2));
  }

  lemma ConnectionIsReplaced(crypto: Crypto) returns (run: seq<Action>, s: State)
    ensures Run(crypto, AsWritten, run) == Some(s) && s.announced == map[]
    ensures ShowsReplaced(s, Conn(7, SpawningControl, Reading, true), Conn(7, Activated, Reading, false), [], Idle)
  {
    hide Run;
    run, s := ReplacementBegins(crypto);
    var old' := Conn(7, SpawningControl, Reading, true);
    run, s := Extend(crypto, AsWritten, run, s, Activate(2));
    assert ShowsReplaced(s, old', Conn(7, ForgettingOld, NotSpawned, false), [], Idle);
    run, s := Extend(crypto, AsWritten, run, s, Activate(2));
    assert ShowsReplaced(s, old', Conn(7, Announcing, NotSpawned, false), [], Idle);
    run, s := Extend(crypto, AsWritten, run, s, Activate(2));
    assert ShowsReplaced(s, old', Conn(7, SpawningReader, NotSpawned, false), [], Idle);
    run, s := Extend(crypto, AsWritten, run, s, Activate(2));
    assert ShowsReplaced(s, old', Conn(7, SpawningControl, Reading, false), [], Idle);
    run, s := Extend(crypto, AsWritten, run, s, Activate(2));
  }

  lemma ReplacementIsChallenged(crypto: Crypto, nonce: u64, address: Text) returns (run: seq<Action>, s: State)
    ensures Run(crypto, AsWritten, run) == Some(s) && s.announced == map[]
    ensures ShowsReplaced(s, Conn(7, SpawningControl, Reading, true), Conn(7, Activated, Reading, false), [], Idle)
    ensures 7 in s.pending && s.pending[7] == (nonce, address)
  {
    hide Run, TableIsFree;
    var old', current := Conn(7, SpawningControl, Reading, true), Conn(7, Activated, Reading, false);
    run, s := ConnectionIsReplaced(crypto);
    run, s := Extend(crypto, AsWritten, run, s, ReadControl(2, NodeAnnounce(address)));
    assert ShowsReplaced(s, old', current, [Control(7, NodeAnnounce(address))], Idle) && s.announced == map[];
    run, s := Extend(crypto, AsWritten, run, s, TakeEvent);
    assert ShowsReplaced(s, old', current, [], Handling(Control(7, NodeAnnounce(address)))) && s.announced == map[];
    run, s := Extend(crypto, AsWritten, run, s, Handle(nonce));
  }

  lemma ReplacementIsProven(crypto: Crypto, p: Proof) returns (run: seq<Action>, s: State)
    requires IsSigned(crypto, p) && IsNodeAddress(p.address)
    ensures Run(crypto, AsWritten, run) == Some(s) && s.announced == map[7 := p.address]
    ensures ShowsReplaced(s, Conn(7, SpawningControl, Reading, true), Conn(7, Activated, Reading, false), [],
                          RecordingAccepted(7, p.address))
  {
    hide Run, IsSigned, IsNodeAddress, TableIsFree;
    var old', current := Conn(7, SpawningControl, Reading, true), Conn(7, Activated, Reading, false);
    run, s := ReplacementIsChallenged(crypto, p.nonce, p.address);
    run, s := Extend(crypto, AsWritten, run, s, ReadControl(2, AnnounceProof(p)));
    assert ShowsReplaced(s, old', current, [Control(7, AnnounceProof(p))], Idle) && s.announced == map[];
    run, s := Extend(crypto, AsWritten, run, s, TakeEvent);
    assert ShowsReplaced(s, old', current, [], Handling(Control(7, AnnounceProof(p)))) && s.announced == map[];
    run, s := Extend(crypto, AsWritten, run, s, Handle(0));
    assert ShowsReplaced(s, old', current, [], ConsumingChallenge(7, p)) && s.announced == map[];
    run, s := Extend(crypto, AsWritten, run, s, Handle(0));
    assert ShowsReplaced(s, old', current, [], Remembering(7, p.address)) && s.announced == map[];
    run, s := Extend(crypto, AsWritten, run, s, Handle(0));
  }

  /**
   * A binding can be lost without its connection: the replaced connection's teardown compares ids before it removes
   * the connection, but not before it forgets the remote's address, which the current one has just proven.
   */
  lemma ReplacedTeardownUnbinds(crypto: Crypto, p: Proof) returns (run: seq<Action>, before: State, s: State)
    requires IsSigned(crypto, p) && IsNodeAddress(p.address)
    ensures Run(crypto, AsWritten, run) == Some(s)
    ensures Enabled(before, Teardown(1)) && s == Step(crypto, AsWritten, before, Teardown(1))
    ensures before.announced == map[7 := p.address] && s.announced == map[]
    ensures IsCurrent(s, 7, 2) && 2 in s.conns && !s.conns[2].closed && s.conns[2].reader == Reading
  {
    hide Run, IsSigned, IsNodeAddress;
    run, s := ReplacementIsProven(crypto, p);
    run, s := Extend(crypto, AsWritten, run, s, Teardown(1));
    run, s := Extend(crypto, AsWritten, run, s, Teardown(1));
    before := s;
    run, s := Extend(crypto, AsWritten, run, s, Teardown(1));
  }

  /** For honest keys, the own address of the holder and the nonces it has answered; an ideal scheme signs no more. */
  ghost predicate SignsOnlyAnswers(crypto: Crypto, honest: map<Bytes, (Text, set<u64>)>) {
    forall key, m, sig :: key in honest && crypto.verify(key, m, sig) ==>
      exists n :: n in honest[key].1 && m == ChallengeMaterial(n, honest[key].0)
  }

  /** Under ideal signatures a binding to an honest key's identity means that its holder answered our very nonce. */
  lemma HonestHolderAnswered(crypto: Crypto, order: Order, run: seq<Action>, honest: map<Bytes, (Text, set<u64>)>,
                             remote: Remote)
    returns (p: Proof)
    requires Run(crypto, order, run).Some? && SignsOnlyAnswers(crypto, honest)
    requires remote in Run(crypto, order, run).value.announced
    ensures var s := Run(crypto, order, run).value;
      && (remote, p) in s.received && (remote, p.nonce, s.announced[remote]) in s.issued
      && crypto.parse(p.identity).Some? && crypto.parse(p.identity).value.address == s.announced[remote]
      && var key := crypto.parse(p.identity).value.key;
         key in honest ==> honest[key].0 == s.announced[remote] && p.nonce in honest[key].1
  {
    AnnouncedAddressesAreProven(crypto, order, run);
    var s := Run(crypto, order, run).value;
    assert IsProven(crypto, s, remote, s.announced[remote]);
    p :| (remote, p) in s.received && IsProofOf(crypto, s, remote, s.announced[remote], p);
    var key := crypto.parse(p.identity).value.key;
    if key in honest {
      var m := ChallengeMaterial(p.nonce, p.address);
      assert crypto.verify(key, m, crypto.decodeSignature(p.signature).value);
      var n :| n in honest[key].1 && m == ChallengeMaterial(n, honest[key].0);
      ChallengeMaterialIsInjective(p.nonce, p.address, n, honest[key].0);
    }
  }
}
