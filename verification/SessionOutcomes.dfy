/** What the steps of the session layer add up to: whole handlings, activations and teardowns, and whole histories. */
module SessionOutcomes {
  import opened Wrappers
  import opened BigEndian
  import opened WorldParser
  import opened Announce
  import opened Session

  // ----- Events in order ------------------------------------------------------------------------

  /** The event that an action puts into the channel. */
  function Reported(s: State, a: Action): seq<Event>
    requires Enabled(s, a)
  {
    match a
    case ReportConnected(id) => [Connected(s.conns[id].remote)]
    case ReadDatagram(id) => [Datagram(s.conns[id].remote)]
    case ReadControl(id, message) => [Control(s.conns[id].remote, message)]
    case Teardown(id) => if s.conns[id].reader == Sending then [Disconnected(s.conns[id].remote, id)] else []
    case _ => []
  }

  function AllReported(crypto: Crypto, order: Order, run: seq<Action>): seq<Event>
    requires Run(crypto, order, run).Some?
  {
    if run == [] then []
    else
      var n := |run| - 1;
      AllReported(crypto, order, run[..n]) + Reported(Run(crypto, order, run[..n]).value, run[n])
  }

  /** The events that the event loop has started to handle. */
  function AllTaken(crypto: Crypto, order: Order, run: seq<Action>): seq<Event>
    requires Run(crypto, order, run).Some?
  {
    if run == [] then []
    else
      var n := |run| - 1;
      AllTaken(crypto, order, run[..n]) +
      if run[n].TakeEvent? && Run(crypto, order, run).value.handler.Handling?
      then [Run(crypto, order, run).value.handler.event] else []
  }

  lemma StepKeepsOrder(crypto: Crypto, order: Order, s: State, a: Action)
    requires Enabled(s, a)
    ensures var s' := Step(crypto, order, s, a);
      if a.TakeEvent? then s'.handler.Handling? && [s'.handler.event] + s'.queue == s.queue
      else s'.queue == s.queue + Reported(s, a)
  {
    hide NextHandler, NextAccepted, NextPending, NextIssued, NextReceived, Remembered, TableIsFree;
  }

  /** No event is lost, doubled or overtaken: what was reported is what has been taken, and then what is queued. */
  lemma {:induction false} EventsAreHandledInOrder(crypto: Crypto, order: Order, run: seq<Action>)
    requires Run(crypto, order, run).Some?
    ensures AllReported(crypto, order, run) == AllTaken(crypto, order, run) + Run(crypto, order, run).value.queue
  {
    hide Step, Enabled, Reported;
    if run != [] {
      var n := |run| - 1;
      EventsAreHandledInOrder(crypto, order, run[..n]);
      var s := Run(crypto, order, run[..n]).value;
      StepKeepsOrder(crypto, order, s, run[n]);
      assert !run[n].TakeEvent? ==> AllTaken(crypto, order, run) == AllTaken(crypto, order, run[..n]);
      assert run[n].TakeEvent? ==> Reported(s, run[n]) == [] by { TakingReportsNothing(s, run[n]); }
    }
  }

  lemma TakingReportsNothing(s: State, a: Action)
    requires Enabled(s, a)
    ensures a.TakeEvent? ==> Reported(s, a) == []
  {
  }

  // ----- Whole handlings ------------------------------------------------------------------------

  function Remaining(h: Handler): nat {
    match h
    case Idle => 0
    case Evicting(_) => 1
    case Serving(_, _) => 1
    case RecordingAccepted(_, _) => 2
    case Remembering(_, _) => 3
    case ConsumingChallenge(_, _) => 4
    case Handling(_) => 5
  }

  lemma HandlerAdvances(crypto: Crypto, s: State)
    ensures s.handler != Idle ==> Remaining(NextHandler(crypto, s)) < Remaining(s.handler)
  {
  }

  /** The event loop left to itself until it is idle. */
  function Finish(crypto: Crypto, s: State, nonce: u64): State
    decreases Remaining(s.handler)
  {
    if s.handler == Idle then s
    else
      HandlerAdvances(crypto, s);
      Finish(crypto, HandleStep(crypto, s, nonce), nonce)
  }

  /** A proof of the outstanding challenge, signed by an identity of its very address. */
  predicate Proves(crypto: Crypto, s: State, r: Remote, p: Proof) {
    var identity, signature := crypto.parse(p.identity), crypto.decodeSignature(p.signature);
    && r in s.pending && s.pending[r].0 == p.nonce && s.pending[r].1 == p.address
    && identity.Some? && identity.value.address == p.address && signature.Some?
    && crypto.verify(identity.value.key, ChallengeMaterial(p.nonce, p.address), signature.value)
  }

  /** A node address, on a remote that has no other. */
  predicate MayBind(s: State, r: Remote, address: Text) {
    && |address| == 10
    && (forall i :: 0 <= i < 10 ==>
          48 <= address[i] <= 57 || 65 <= address[i] <= 70 || 97 <= address[i] <= 102)
    && (r in s.announced ==> s.announced[r] == address)
  }

  /** Datagrams and config requests are served under the address that their remote is bound to, and not otherwise. */
  function ServedIfBound(s: State, r: Remote): State {
    s.(handler := Idle, served := if r in s.announced then s.served + {(r, s.announced[r])} else s.served)
  }

  /** A valid proof uses up its challenge; where it may bind, the remote is bound, accepted and served. */
  function Proven(crypto: Crypto, s: State, r: Remote, p: Proof): State {
    if !Proves(crypto, s, r, p) then s.(handler := Idle, received := s.received + {(r, p)})
    else if !MayBind(s, r, p.address) then
      s.(handler := Idle, received := s.received + {(r, p)}, pending := s.pending - {r})
    else
      s.(handler := Idle, received := s.received + {(r, p)}, pending := s.pending - {r},
         announced := s.announced[r := p.address], accepted := s.accepted[r := p.address],
         served := s.served + {(r, p.address)})
  }

  /** What handling an event amounts to. */
  function Outcome(crypto: Crypto, s: State, e: Event, nonce: u64): State {
    match e
    case Datagram(r) => ServedIfBound(s, r)
    case Control(r, ConfigRequest(_)) => ServedIfBound(s, r)
    case Control(r, NodeAnnounce(a)) =>
      s.(handler := Idle, pending := s.pending[r := (nonce, a)], issued := s.issued + {(r, nonce, a)})
    case Control(r, AnnounceProof(p)) => Proven(crypto, s, r, p)
    case Control(r, AnnounceAccepted(a)) => s.(handler := Idle, accepted := s.accepted[r := a])
    case Disconnected(r, id) =>
      s.(handler := Idle, evicted := if r in s.peers && s.peers[r] == id then s.evicted + [r] else s.evicted)
    case _ => s.(handler := Idle)
  }

  lemma FinishOne(crypto: Crypto, s: State, nonce: u64)
    requires s.handler != Idle
    ensures Finish(crypto, s, nonce) == Finish(crypto, HandleStep(crypto, s, nonce), nonce)
  {
  }

  lemma FinishIdle(crypto: Crypto, s: State, nonce: u64)
    requires s.handler == Idle
    ensures Finish(crypto, s, nonce) == s
  {
  }

  lemma FinishServing(crypto: Crypto, s: State, r: Remote, a: Text, nonce: u64)
    requires s.handler == Serving(r, a)
    ensures Finish(crypto, s, nonce) == s.(handler := Idle, served := s.served + {(r, a)})
  {
    hide Finish;
    FinishOne(crypto, s, nonce);
    FinishIdle(crypto, HandleStep(crypto, s, nonce), nonce);
  }

  lemma FinishBound(crypto: Crypto, s: State, r: Remote, nonce: u64)
    requires s.handler.Handling?
    requires s.handler.event == Datagram(r) || (s.handler.event.Control? && s.handler.event.remote == r
                                                && s.handler.event.message.ConfigRequest?)
    ensures Finish(crypto, s, nonce) == ServedIfBound(s, r)
  {
    hide Finish;
    FinishOne(crypto, s, nonce);
    var s' := HandleStep(crypto, s, nonce);
    if r in s.announced {
      assert s' == s.(handler := Serving(r, s.announced[r]));
      FinishServing(crypto, s', r, s.announced[r], nonce);
    } else {
      assert s' == s.(handler := Idle);
      FinishIdle(crypto, s', nonce);
    }
  }

  lemma FinishRemembering(crypto: Crypto, s: State, r: Remote, a: Text, nonce: u64)
    requires s.handler == Remembering(r, a)
    ensures Finish(crypto, s, nonce) ==
      if MayBind(s, r, a) then
        s.(handler := Idle, announced := s.announced[r := a], accepted := s.accepted[r := a],
           served := s.served + {(r, a)})
      else s.(handler := Idle)
  {
    hide Finish;
    FinishOne(crypto, s, nonce);
    var s1 := HandleStep(crypto, s, nonce);
    assert MayBind(s, r, a) <==> MayRemember(s.announced, r, a);
    if MayBind(s, r, a) {
      assert s1 == s.(handler := RecordingAccepted(r, a), announced := s.announced[r := a]);
      FinishOne(crypto, s1, nonce);
      var s2 := HandleStep(crypto, s1, nonce);
      assert s2 == s1.(handler := Serving(r, a), accepted := s1.accepted[r := a]);
      FinishServing(crypto, s2, r, a, nonce);
    } else {
      assert s1 == s.(handler := Idle);
      FinishIdle(crypto, s1, nonce);
    }
  }

  lemma FinishProof(crypto: Crypto, s: State, r: Remote, p: Proof, nonce: u64)
    requires s.handler == Handling(Control(r, AnnounceProof(p)))
    ensures Finish(crypto, s, nonce) == Proven(crypto, s, r, p)
  {
    hide Finish, MayBind, IsNodeAddress;
    FinishOne(crypto, s, nonce);
    var s1 := HandleStep(crypto, s, nonce);
    if Proves(crypto, s, r, p) {
      assert s1 == s.(handler := ConsumingChallenge(r, p), received := s.received + {(r, p)});
      FinishOne(crypto, s1, nonce);
      var s2 := HandleStep(crypto, s1, nonce);
      assert s2 == s1.(handler := Remembering(r, p.address), pending := s.pending - {r});
      FinishRemembering(crypto, s2, r, p.address, nonce);
      assert MayBind(s2, r, p.address) == MayBind(s, r, p.address) by { BindingReadsAnnounced(s, s2, r, p.address); }
    } else {
      assert s1 == s.(handler := Idle, received := s.received + {(r, p)});
      FinishIdle(crypto, s1, nonce);
    }
  }

  lemma BindingReadsAnnounced(s: State, s': State, r: Remote, a: Text)
    requires s'.announced == s.announced
    ensures MayBind(s', r, a) == MayBind(s, r, a)
  {
  }

  /** Left to itself, the event loop turns each event into exactly its outcome. */
  lemma HandledExactly(crypto: Crypto, s: State, e: Event, nonce: u64)
    requires s.handler == Handling(e)
    ensures Finish(crypto, s, nonce) == Outcome(crypto, s, e, nonce)
  {
    hide Finish, Proven, IsNodeAddress;
    match e {
      case Datagram(r) => FinishBound(crypto, s, r, nonce);
      case Control(r, ConfigRequest(_)) => FinishBound(crypto, s, r, nonce);
      case Control(r, AnnounceProof(p)) => FinishProof(crypto, s, r, p, nonce);
      case Disconnected(r, id) =>
        FinishOne(crypto, s, nonce);
        var s' := HandleStep(crypto, s, nonce);
        if s'.handler.Evicting? {
          FinishOne(crypto, s', nonce);
          FinishIdle(crypto, HandleStep(crypto, s', nonce), nonce);
        } else {
          FinishIdle(crypto, s', nonce);
        }
      case _ =>
        FinishOne(crypto, s, nonce);
        FinishIdle(crypto, HandleStep(crypto, s, nonce), nonce);
    }
  }

  /** A challenge is good for one proof: once a valid proof has been handled, the same one is worth nothing. */
  lemma ProofsAreUsedOnce(crypto: Crypto, s: State, r: Remote, p: Proof, nonce: u64)
    requires s.handler == Handling(Control(r, AnnounceProof(p))) && Proves(crypto, s, r, p)
    ensures var s' := Finish(crypto, s, nonce);
      && !Proves(crypto, s', r, p)
      && var again := s'.(handler := s.handler); Finish(crypto, again, nonce) == s'
  {
    hide Finish, MayBind;
    FinishProof(crypto, s, r, p, nonce);
    var s' := Finish(crypto, s, nonce);
    FinishProof(crypto, s'.(handler := s.handler), r, p, nonce);
    assert s'.received + {(r, p)} == s'.received;
  }

  // ----- Everything that is served --------------------------------------------------------------

  /** The pair that a step of the event loop decides to serve: a bound remote's, or that of a proof that binds. */
  function Due(s: State, a: Action): set<(Remote, Text)> {
    if !a.Handle? then {}
    else
      match s.handler
      case Handling(Datagram(r)) => if r in s.announced then {(r, s.announced[r])} else {}
      case Handling(Control(r, ConfigRequest(_))) => if r in s.announced then {(r, s.announced[r])} else {}
      case Remembering(r, address) => if MayBind(s, r, address) then {(r, address)} else {}
      case _ => {}
  }

  function AllDue(crypto: Crypto, order: Order, run: seq<Action>): set<(Remote, Text)>
    requires Run(crypto, order, run).Some?
  {
    if run == [] then {}
    else
      var n := |run| - 1;
      AllDue(crypto, order, run[..n]) + Due(Run(crypto, order, run[..n]).value, run[n])
  }

  /** What has been served, and the pair in hand. */
  function ServedSoFar(s: State): set<(Remote, Text)> {
    s.served +
    match s.handler
    case RecordingAccepted(r, a) => {(r, a)}
    case Serving(r, a) => {(r, a)}
    case _ => {}
  }

  lemma StepServes(crypto: Crypto, order: Order, s: State, a: Action)
    requires Enabled(s, a)
    ensures ServedSoFar(Step(crypto, order, s, a)) == ServedSoFar(s) + Due(s, a)
  {
    hide NextAccepted, NextPending, NextIssued, NextReceived, Remembered, TableIsFree, IsValidProof;
    if a.Handle? && s.handler.Remembering? {
      assert MayBind(s, s.handler.remote, s.handler.address)
        <==> MayRemember(s.announced, s.handler.remote, s.handler.address);
    }
  }

  /**
   * In either order and every run, exactly these pairs are served: the remote and its address of each handled datagram
   * and config request of a bound remote, and of each valid proof that binds.
   */
  lemma {:induction false} ServedExactly(crypto: Crypto, order: Order, run: seq<Action>)
    requires Run(crypto, order, run).Some?
    ensures ServedSoFar(Run(crypto, order, run).value) == AllDue(crypto, order, run)
  {
    hide Step, Enabled, Due, ServedSoFar;
    if run == [] {
      NothingServed();
    } else {
      var n := |run| - 1;
      ServedExactly(crypto, order, run[..n]);
      StepServes(crypto, order, Run(crypto, order, run[..n]).value, run[n]);
    }
  }

  lemma NothingServed()
    ensures ServedSoFar(INITIAL) == {}
  {
  }

  // ----- Whole activations and teardowns --------------------------------------------------------

  function Activations(s: State, id: ConnId, n: nat): State
    requires id in s.conns
    decreases n
  {
    if n == 0 then s else Activations(ActivateStep(s, id), id, n - 1)
  }

  lemma Advanced(s: State, id: ConnId, s': State, n: nat)
    requires id in s.conns && s' == ActivateStep(s, id)
    ensures Activations(s, id, n + 1) == Activations(s', id, n)
  {
    hide ActivateStep;
  }

  /** Activation left to itself: the new connection takes the slot, and the one that had it is closed and forgotten. */
  lemma ActivationReplaces(s: State, id: ConnId, r: Remote)
    requires id in s.conns && s.conns[id] == Conn(r, Checking, NotSpawned, false) && !IsCurrent(s, r, id)
    requires r in s.peers ==> s.peers[r] in s.conns
    ensures var up := Conn(r, Activated, Reading, false);
      if r in s.peers then
        var old' := s.peers[r];
        Activations(s, id, 7) == s.(peers := s.peers[r := id], accepted := s.accepted - {r},
                                    conns := s.conns[old' := s.conns[old'].(closed := true)][id := up])
      else Activations(s, id, 5) == s.(peers := s.peers[r := id], conns := s.conns[id := up])
  {
    hide Activations;
    var c := s.conns[id];
    var s1 := s.(conns := s.conns[id := c.(activation := Inserting)]);
    assert ActivateStep(s, id) == s1;
    if r in s.peers {
      var old' := s.peers[r];
      var s2 := s.(peers := s.peers[r := id], conns := s.conns[id := c.(activation := Closing(old'))]);
      assert s1.conns[id := c.(activation := Closing(old'))] == s2.conns;
      assert ActivateStep(s1, id) == s2;
      ReplacementCloses(s, s2, id, old', r);
      Advanced(s, id, s1, 6);
      Advanced(s1, id, s2, 5);
    } else {
      var s2 := s.(peers := s.peers[r := id], conns := s.conns[id := c.(activation := Announcing)]);
      assert s1.conns[id := c.(activation := Announcing)] == s2.conns;
      assert ActivateStep(s1, id) == s2;
      ActivationCompletes(s2, id);
      Advanced(s, id, s1, 4);
      Advanced(s1, id, s2, 3);
    }
  }

  lemma ReplacementCloses(s: State, s2: State, id: ConnId, old': ConnId, r: Remote)
    requires id in s.conns && s.conns[id] == Conn(r, Checking, NotSpawned, false) && old' in s.conns && old' != id
    requires s2 == s.(peers := s.peers[r := id], conns := s.conns[id := s.conns[id].(activation := Closing(old'))])
    ensures Activations(s2, id, 5) == s.(peers := s.peers[r := id], accepted := s.accepted - {r},
      conns := s.conns[old' := s.conns[old'].(closed := true)][id := Conn(r, Activated, Reading, false)])
  {
    hide Activations;
    var c := s.conns[id];
    var conns := s.conns[old' := s.conns[old'].(closed := true)];
    var s3 := s2.(conns := conns[id := c.(activation := ForgettingOld)]);
    assert ActivateStep(s2, id).conns == s3.conns;
    var s4 := s2.(accepted := s.accepted - {r}, conns := conns[id := c.(activation := Announcing)]);
    assert ActivateStep(s3, id).conns == s4.conns;
    ActivationCompletes(s4, id);
    Advanced(s2, id, s3, 4);
    Advanced(s3, id, s4, 3);
  }

  lemma ActivationCompletes(s: State, id: ConnId)
    requires id in s.conns && s.conns[id].activation == Announcing
    ensures Activations(s, id, 3)
         == s.(conns := s.conns[id := s.conns[id].(activation := Activated, reader := Reading)])
  {
    hide Activations;
    var c := s.conns[id];
    hide NextActivation, IsCurrent;
    var s1 := s.(conns := s.conns[id := c.(activation := SpawningReader)]);
    NextIs(s, id);
    assert ActivateStep(s, id) == s1;
    NextIs(s1, id);
    var s2 := s.(conns := s.conns[id := c.(activation := SpawningControl, reader := Reading)]);
    assert ActivateStep(s1, id).conns == s2.conns;
    NextIs(s2, id);
    var s3 := s.(conns := s.conns[id := c.(activation := Activation.Activated, reader := Reading)]);
    assert ActivateStep(s2, id).conns == s3.conns;
    Advanced(s, id, s1, 2);
    Advanced(s1, id, s2, 1);
    Advanced(s2, id, s3, 0);
    NoActivation(s3, id);
  }

  lemma NextIs(s: State, id: ConnId)
    requires id in s.conns
    ensures s.conns[id].activation == Announcing ==> NextActivation(s, id) == SpawningReader
    ensures s.conns[id].activation == SpawningReader ==> NextActivation(s, id) == SpawningControl
    ensures s.conns[id].activation == SpawningControl ==> NextActivation(s, id) == Activated
  {
  }

  lemma NoActivation(s: State, id: ConnId)
    requires id in s.conns
    ensures Activations(s, id, 0) == s
  {
  }

  function Teardowns(order: Order, s: State, id: ConnId, n: nat): State
    requires id in s.conns
    decreases n
  {
    if n == 0 then s else Teardowns(order, TeardownStep(order, s, id), id, n - 1)
  }

  /**
   * Teardown left to itself, in either order: the connection leaves the table if it is the current one, the remote's
   * address and acceptance are forgotten in any case, and the loss is reported once.
   */
  lemma TeardownClears(order: Order, s: State, id: ConnId)
    requires id in s.conns && s.conns[id].reader == Reading
    ensures var r := s.conns[id].remote;
      Teardowns(order, s, id, 5) ==
        s.(conns := s.conns[id := s.conns[id].(reader := Gone)],
           peers := if r in s.peers && s.peers[r] == id then s.peers - {r} else s.peers,
           announced := s.announced - {r}, accepted := s.accepted - {r}, queue := s.queue + [Disconnected(r, id)])
  {
    hide Teardowns;
    var r, c := s.conns[id].remote, s.conns[id];
    var s1 := TeardownStep(order, s, id);
    var s2 := TeardownStep(order, s1, id);
    var s3 := TeardownStep(order, s2, id);
    assert s3.conns == s.conns[id := s3.conns[id]];
    var s4 := TeardownStep(order, s3, id);
    var s5 := TeardownStep(order, s4, id);
    assert s5.conns == s.conns[id := c.(reader := Gone)];
    FiveTeardowns(order, s, id);
  }

  lemma FiveTeardowns(order: Order, s: State, id: ConnId)
    requires id in s.conns
    ensures var s1 := TeardownStep(order, s, id);
      var s2 := TeardownStep(order, s1, id);
      var s3 := TeardownStep(order, s2, id);
      Teardowns(order, s, id, 5) == TeardownStep(order, TeardownStep(order, s3, id), id)
  {
    hide NextReader;
    var s1 := TeardownStep(order, s, id);
    var s2 := TeardownStep(order, s1, id);
    var s3 := TeardownStep(order, s2, id);
    var s4 := TeardownStep(order, s3, id);
    assert Teardowns(order, s4, id, 1) == TeardownStep(order, s4, id);
    assert Teardowns(order, s3, id, 2) == TeardownStep(order, s4, id);
    assert Teardowns(order, s2, id, 3) == TeardownStep(order, s4, id);
    assert Teardowns(order, s1, id, 4) == TeardownStep(order, s4, id);
  }
}
