/** One member's token over whole runs of the client, the controller and the messages between them. */
module TokenRuns {
  import opened Wrappers
  import opened Addressing
  import opened Reconciliation
  import opened Controller
  import opened ControllerRuns
  import opened Tokens

  /** The controller's key and hash, and the network and node that the run is about. */
  datatype Setup = Setup(k: Signing, rid: Rid, nwid: string, id: string)

  datatype Client = Client(connected: bool, token: Option<string>)

  /** `requests` and `responses` are in flight; `issued` collects the claims of every token issued so far. */
  datatype System = System(
    now: nat, db: Db, issued: set<Claims>, client: Option<Client>,
    requests: multiset<Option<string>>, responses: multiset<Reply>)

  /** `Foreign` is a request of any other node, or for any other network. A step that is not enabled does nothing. */
  datatype Step =
    | Tick(seconds: nat)
    | Admin(op: Op)
    | Foreign(nwid: string, id: string, token: Option<string>)
    | JoinNetwork
    | Connect
    | Disconnect
    | Leave
    | Send
    | LoseRequest(token: Option<string>)
    | Handle(token: Option<string>)
    | LoseResponse(reply: Reply)
    | Deliver(reply: Reply)

  function Granted(a: Answered): set<Claims> {
    match a.granted case Some(c) => {c} case None => {}
  }

  function Replies(a: Answered): multiset<Reply> {
    match a.reply case Some(r) => multiset{r} case None => multiset{}
  }

  function OwnAnswer(u: Setup, s: System, token: Option<string>): Answered {
    Answer(u.k, u.rid, s.db, u.nwid, u.id, token, s.now)
  }

  function Next(u: Setup, s: System, step: Step): System {
    match step
    case Tick(n) => s.(now := s.now + n)
    case Admin(op) => s.(db := Apply(u.rid, s.db, op))
    case Foreign(nwid, id, token) =>
      if nwid == u.nwid && id == u.id then s
      else var a := Answer(u.k, u.rid, s.db, nwid, id, token, s.now); s.(db := a.db, issued := s.issued + Granted(a))
    case JoinNetwork => s.(client := Some(Client(true, if s.client.Some? then s.client.value.token else None)))
    case Connect => if s.client.Some? then s.(client := Some(s.client.value.(connected := true))) else s
    case Disconnect => if s.client.Some? then s.(client := Some(s.client.value.(connected := false))) else s
    case Leave => s.(client := None)
    case Send =>
      if s.client.Some? && s.client.value.connected
      then s.(requests := s.requests + multiset{s.client.value.token}) else s
    case LoseRequest(token) => s.(requests := s.requests - multiset{token})
    case Handle(token) =>
      if token !in s.requests then s
      else
        var a := OwnAnswer(u, s, token);
        s.(db := a.db, issued := s.issued + Granted(a), requests := s.requests - multiset{token},
           responses := s.responses + Replies(a))
    case LoseResponse(reply) => s.(responses := s.responses - multiset{reply})
    case Deliver(reply) =>
      if reply !in s.responses then s
      else
        s.(responses := s.responses - multiset{reply},
           client := if s.client.Some? then Some(s.client.value.(token := reply.token)) else None)
  }

  function After(u: Setup, s: System, steps: seq<Step>): System
    decreases |steps|
  {
    if steps == [] then s else After(u, Next(u, s, steps[0]), steps[1..])
  }

  lemma {:induction false} AfterBoth(u: Setup, s: System, a: seq<Step>, b: seq<Step>)
    ensures After(u, s, a + b) == After(u, After(u, s, a), b)
    decreases |a|
  {
    hide Next;
    if a == [] {
      assert a + b == b;
    } else {
      assert (a + b)[0] == a[0] && (a + b)[1..] == a[1..] + b;
      AfterBoth(u, Next(u, s, a[0]), a[1..], b);
    }
  }

  function Start(now: nat, db: Db): System {
    System(now, db, {}, None, multiset{}, multiset{})
  }

  // ----- Which tokens there are -----------------------------------------------------------------

  ghost predicate IsOwnToken(u: Setup, issued: set<Claims>, token: Option<string>) {
    token.Some? ==> exists c :: c in issued && c.n == u.nwid && c.m == u.id && token.value == TokenText(u.k, c)
  }

  /** Every token held or under way was issued to this member, no later than now. */
  ghost predicate Sound(u: Setup, s: System) {
    && (forall c :: c in s.issued ==> c.t <= s.now && c.e == c.t + TTL && c.c == u.k.address)
    && (s.client.Some? ==> IsOwnToken(u, s.issued, s.client.value.token))
    && (forall t :: t in s.requests ==> IsOwnToken(u, s.issued, t))
    && (forall r :: r in s.responses ==> IsOwnToken(u, s.issued, r.token))
  }

  lemma MoreIssued(u: Setup, a: set<Claims>, b: set<Claims>, token: Option<string>)
    requires IsOwnToken(u, a, token) && a <= b
    ensures IsOwnToken(u, b, token)
  {
    hide TokenText;
  }

  lemma NoToken(u: Setup, issued: set<Claims>)
    ensures IsOwnToken(u, issued, None)
  {
  }

  lemma AnswerIsOwn(u: Setup, s: System, token: Option<string>)
    ensures var a := OwnAnswer(u, s, token);
      a.reply.Some? ==> IsOwnToken(u, s.issued + Granted(a), a.reply.value.token)
  {
    hide Answer, TokenText, HasNetwork, IsAuthorized, Accepts;
    AnsweredExactly(u.k, u.rid, s.db, u.nwid, u.id, token, s.now);
  }

  /** A step takes tokens only from where there were some, or from the answer it computes. */
  lemma NextClient(u: Setup, s: System, step: Step)
    ensures var s' := Next(u, s, step);
      s'.client.Some? ==>
        || s'.client.value.token == None
        || (s.client.Some? && s'.client.value.token == s.client.value.token)
        || (step.Deliver? && step.reply in s.responses && s'.client.value.token == step.reply.token)
  {
    hide OwnAnswer, Answer, Apply, Granted, Replies;
  }

  lemma NextRequests(u: Setup, s: System, step: Step, t: Option<string>)
    requires t in Next(u, s, step).requests
    ensures t in s.requests || (s.client.Some? && t == s.client.value.token)
  {
    hide OwnAnswer, Answer, Apply, Granted, Replies;
  }

  lemma NextResponses(u: Setup, s: System, step: Step, r: Reply)
    requires r in Next(u, s, step).responses && r !in s.responses
    ensures step.Handle? && step.token in s.requests && OwnAnswer(u, s, step.token).reply == Some(r)
  {
    hide OwnAnswer, Answer, Apply, Granted;
  }

  lemma NextIssues(u: Setup, s: System, step: Step)
    ensures var s' := Next(u, s, step);
      && s.issued <= s'.issued && s.now <= s'.now
      && (forall c :: c in s'.issued && c !in s.issued ==> c.t == s'.now && c.e == c.t + TTL && c.c == u.k.address)
      && (step.Handle? && step.token in s.requests ==> s'.issued == s.issued + Granted(OwnAnswer(u, s, step.token)))
  {
    hide Answer, Apply, TokenText, HasNetwork, IsAuthorized, Accepts;
    match step {
      case Foreign(nwid, id, token) => AnsweredExactly(u.k, u.rid, s.db, nwid, id, token, s.now);
      case Handle(token) => AnsweredExactly(u.k, u.rid, s.db, u.nwid, u.id, token, s.now);
      case _ =>
    }
  }

  lemma NextKeepsSound(u: Setup, s: System, step: Step)
    requires Sound(u, s)
    ensures Sound(u, Next(u, s, step))
  {
    hide Answer, Apply, OwnAnswer, Next, IsOwnToken;
    var s' := Next(u, s, step);
    NextIssues(u, s, step);
    NextClient(u, s, step);
    forall t | IsOwnToken(u, s.issued, t)
      ensures IsOwnToken(u, s'.issued, t)
    {
      MoreIssued(u, s.issued, s'.issued, t);
    }
    NoToken(u, s'.issued);
    forall t | t in s'.requests
      ensures IsOwnToken(u, s'.issued, t)
    {
      NextRequests(u, s, step, t);
    }
    forall r | r in s'.responses
      ensures IsOwnToken(u, s'.issued, r.token)
    {
      if r !in s.responses {
        NextResponses(u, s, step, r);
        AnswerIsOwn(u, s, step.token);
      }
    }
  }

  lemma {:induction false} RunsKeepSound(u: Setup, s: System, steps: seq<Step>)
    requires Sound(u, s)
    ensures Sound(u, After(u, s, steps))
    decreases |steps|
  {
    hide Sound, Next;
    if steps != [] {
      NextKeepsSound(u, s, steps[0]);
      RunsKeepSound(u, Next(u, s, steps[0]), steps[1..]);
    }
  }

  /** In every run, the token a client holds is accepted exactly until 3600 seconds after the issue of that token. */
  lemma HeldTokenBoundary(u: Setup, now: nat, db: Db, steps: seq<Step>) returns (iat: nat)
    requires u.k.Laws()
    requires var s := After(u, Start(now, db), steps); s.client.Some? && s.client.value.token.Some?
    ensures var s := After(u, Start(now, db), steps);
      && iat <= s.now
      && (forall later: nat :: Accepts(u.k, s.client.value.token.value, u.nwid, u.id, later) <==> later <= iat + TTL)
      && (forall c :: c in s.issued && s.client.value.token.value == TokenText(u.k, c) ==> c.t == iat)
  {
    hide After, Accepts, TokenText;
    RunsKeepSound(u, Start(now, db), steps);
    var s := After(u, Start(now, db), steps);
    var c :| c in s.issued && c.n == u.nwid && c.m == u.id && s.client.value.token.value == TokenText(u.k, c);
    iat := c.t;
    forall later: nat
      ensures Accepts(u.k, s.client.value.token.value, u.nwid, u.id, later) <==> later <= iat + TTL
    {
      TokenAcceptedExactly(u.k, c, u.nwid, u.id, later);
    }
    forall c' | c' in s.issued && TokenText(u.k, c) == TokenText(u.k, c')
      ensures c'.t == iat
    {
      SameTextSameClaims(u.k, c, c');
    }
  }

  /** So the request of an authorized member with that token is answered up to then, and never afterwards. */
  lemma HeldRequestAnsweredExactly(u: Setup, now: nat, db: Db, steps: seq<Step>) returns (iat: nat)
    requires u.k.Laws()
    requires var s := After(u, Start(now, db), steps); s.client.Some? && s.client.value.token.Some?
    requires IsAuthorized(After(u, Start(now, db), steps).db, u.nwid, u.id)
    ensures var s := After(u, Start(now, db), steps);
      && iat <= s.now
      && (OwnAnswer(u, s, s.client.value.token).reply.Some? <==> s.now <= iat + TTL)
      && (IsDead(u, s.client.value.token, s.now) <==> s.now > iat + TTL)
  {
    hide After, Accepts, TokenText, Answer, IsAuthorized, HasNetwork;
    iat := HeldTokenBoundary(u, now, db, steps);
    var s := After(u, Start(now, db), steps);
    AnsweredExactly(u.k, u.rid, s.db, u.nwid, u.id, s.client.value.token, s.now);
    assert IsAuthorized(s.db, u.nwid, u.id) ==> HasNetwork(s.db, u.nwid, u.id) by { AuthorizedHasNetwork(s.db, u); }
    assert s.now <= iat + TTL ==> Accepts(u.k, s.client.value.token.value, u.nwid, u.id, s.now);
  }

  lemma AuthorizedHasNetwork(db: Db, u: Setup)
    ensures IsAuthorized(db, u.nwid, u.id) ==> HasNetwork(db, u.nwid, u.id)
  {
  }

  lemma SameTextSameClaims(k: Signing, c: Claims, c': Claims)
    requires k.Laws() && TokenText(k, c) == TokenText(k, c')
    ensures Read(c) == Read(c')
  {
    hide Split;
    SplitTwo(k.base64(k.toJson(c)), k.base64(k.sign(k.toJson(c))));
    SplitTwo(k.base64(k.toJson(c')), k.base64(k.sign(k.toJson(c'))));
    assert k.toJson(c) == k.toJson(c');
  }

  // ----- Stuck ----------------------------------------------------------------------------------

  ghost predicate IsDead(u: Setup, token: Option<string>, now: nat) {
    token.Some? && forall later: nat :: later >= now ==> !Accepts(u.k, token.value, u.nwid, u.id, later)
  }

  /** The client's token has run out, nothing is coming back, and every request under way carries such a token. */
  ghost predicate Stuck(u: Setup, s: System) {
    && s.client.Some? && IsDead(u, s.client.value.token, s.now)
    && s.responses == multiset{}
    && forall t :: t in s.requests ==> IsDead(u, t, s.now)
  }

  /** What ends it: leaving, or having a request handled while the member is not authorized. */
  predicate Rearms(u: Setup, s: System, step: Step) {
    || step.Leave?
    || (step.Handle? && step.token in s.requests && HasNetwork(s.db, u.nwid, u.id) && !IsAuthorized(s.db, u.nwid, u.id))
  }

  lemma DeadStaysDead(u: Setup, token: Option<string>, now: nat, later: nat)
    requires IsDead(u, token, now) && now <= later
    ensures IsDead(u, token, later)
  {
    hide Accepts;
  }

  lemma AnswerToDead(u: Setup, s: System, token: Option<string>)
    requires IsDead(u, token, s.now)
    ensures OwnAnswer(u, s, token).reply.Some? <==> HasNetwork(s.db, u.nwid, u.id) && !IsAuthorized(s.db, u.nwid, u.id)
  {
    hide Answer, HasNetwork, IsAuthorized, Accepts, TokenText;
    AnsweredExactly(u.k, u.rid, s.db, u.nwid, u.id, token, s.now);
    assert !Accepts(u.k, token.value, u.nwid, u.id, s.now);
    assert IsAuthorized(s.db, u.nwid, u.id) ==> HasNetwork(s.db, u.nwid, u.id) by { AuthorizedHasNetwork(s.db, u); }
  }

  /** The parts of a state that being stuck is about, after a step that handles no request. */
  lemma OtherStepKeepsStuck(u: Setup, s: System, step: Step)
    requires Stuck(u, s) && !step.Leave? && !step.Handle?
    ensures Stuck(u, Next(u, s, step)) && Next(u, s, step).client.value.token == s.client.value.token
  {
    hide OwnAnswer, Answer, Apply, Granted, Replies, IsDead;
    var s' := Next(u, s, step);
    forall t | IsDead(u, t, s.now)
      ensures IsDead(u, t, s'.now)
    {
      DeadStaysDead(u, t, s.now, s'.now);
    }
    forall t | t in s'.requests
      ensures IsDead(u, t, s'.now)
    {
      NextRequests(u, s, step, t);
    }
  }

  lemma StuckStepExactly(u: Setup, s: System, step: Step)
    requires Stuck(u, s)
    ensures Stuck(u, Next(u, s, step)) <==> !Rearms(u, s, step)
    ensures !Rearms(u, s, step) ==>
      Next(u, s, step).client.value.token == s.client.value.token && Next(u, s, step).responses == multiset{}
  {
    hide OwnAnswer, Answer, Apply, Granted, IsDead, HasNetwork, IsAuthorized;
    if step.Handle? && step.token in s.requests {
      AnswerToDead(u, s, step.token);
      if Rearms(u, s, step) {
        assert OwnAnswer(u, s, step.token).reply.value in Next(u, s, step).responses;
      }
    } else if !step.Handle? && !step.Leave? {
      OtherStepKeepsStuck(u, s, step);
    }
  }

  predicate NeverRearmed(u: Setup, s: System, steps: seq<Step>)
    decreases |steps|
  {
    steps == [] || (!Rearms(u, s, steps[0]) && NeverRearmed(u, Next(u, s, steps[0]), steps[1..]))
  }

  ghost predicate StuckThroughout(u: Setup, s: System, steps: seq<Step>, token: Option<string>)
    decreases |steps|
  {
    && Stuck(u, s) && s.client.value.token == token
    && (steps == [] || StuckThroughout(u, Next(u, s, steps[0]), steps[1..], token))
  }

  /** A stuck client stays so, with the same token, exactly as long as it neither leaves nor is seen unauthorized. */
  lemma {:induction false} StuckUntilRearmed(u: Setup, s: System, steps: seq<Step>)
    requires Stuck(u, s)
    ensures StuckThroughout(u, s, steps, s.client.value.token) <==> NeverRearmed(u, s, steps)
    decreases |steps|
  {
    hide Stuck, Rearms, Next;
    if steps != [] {
      StuckStepExactly(u, s, steps[0]);
      if !Rearms(u, s, steps[0]) {
        StuckUntilRearmed(u, Next(u, s, steps[0]), steps[1..]);
      }
    }
  }

  // ----- Recovery -------------------------------------------------------------------------------

  function HeldToken(s: System): Option<string>
    requires s.client.Some?
  {
    s.client.value.token
  }

  /** One exchange: the client sends its token and, when that is answered, stores the token of the answer. */
  lemma Exchange(u: Setup, s: System)
    requires s.client.Some? && s.client.value.connected
    ensures var a := OwnAnswer(u, s, HeldToken(s));
      a.reply.Some? ==>
        var s' := After(u, s, [Send, Handle(HeldToken(s)), Deliver(a.reply.value)]);
        && s'.client == Some(Client(true, a.reply.value.token))
        && s'.now == s.now && s'.db == a.db && s'.requests == s.requests && s'.responses == s.responses
  {
    hide OwnAnswer, After, Next, Granted;
    var token := HeldToken(s);
    var a := OwnAnswer(u, s, token);
    if a.reply.Some? {
      AfterThree(u, s, Send, Handle(token), Deliver(a.reply.value));
      var s1 := s.(requests := s.requests + multiset{token});
      Sent(u, s);
      assert OwnAnswer(u, s1, token) == a by { AnswerDependsOn(u, s, s1, token); }
      Handled(u, s1, s.requests, token);
      Delivered(u, Next(u, s1, Handle(token)), s.responses, a.reply.value);
    }
  }

  lemma Sent(u: Setup, s: System)
    requires s.client.Some? && s.client.value.connected
    ensures Next(u, s, Send) == s.(requests := s.requests + multiset{HeldToken(s)})
  {
  }

  /** Nothing is asked for a network that is not connected, or is not there. */
  lemma DisconnectedSendsNothing(u: Setup, s: System)
    requires s.client == None || !s.client.value.connected
    ensures Next(u, s, Send) == s
  {
  }

  lemma AnswerDependsOn(u: Setup, s: System, s': System, token: Option<string>)
    requires s'.db == s.db && s'.now == s.now
    ensures OwnAnswer(u, s', token) == OwnAnswer(u, s, token)
  {
  }

  lemma Handled(u: Setup, s: System, before: multiset<Option<string>>, token: Option<string>)
    requires s.requests == before + multiset{token}
    ensures var a := OwnAnswer(u, s, token);
      Next(u, s, Handle(token)) == s.(db := a.db, issued := s.issued + Granted(a), requests := before,
                                      responses := s.responses + Replies(a))
  {
    hide OwnAnswer, Granted, Replies;
    assert s.requests - multiset{token} == before;
  }

  lemma Delivered(u: Setup, s: System, before: multiset<Reply>, reply: Reply)
    requires s.responses == before + multiset{reply} && s.client.Some?
    ensures Next(u, s, Deliver(reply))
         == s.(responses := before, client := Some(s.client.value.(token := reply.token)))
  {
    assert s.responses - multiset{reply} == before;
  }

  lemma AfterThree(u: Setup, s: System, a: Step, b: Step, c: Step)
    ensures After(u, s, [a, b, c]) == Next(u, Next(u, Next(u, s, a), b), c)
  {
    hide Next;
    assert [a, b, c] == [a] + [b, c] && [b, c] == [b] + [c];
    Chain(u, s, a, [b, c]);
    Chain(u, Next(u, s, a), b, [c]);
  }

  /** The client holds a token that is accepted exactly until 3600 seconds after the given time. */
  ghost predicate HoldsTokenOf(u: Setup, s: System, iat: nat) {
    && s.client.Some? && HeldToken(s).Some?
    && forall later: nat :: Accepts(u.k, HeldToken(s).value, u.nwid, u.id, later) <==> later <= iat + TTL
  }

  /** An authorized client that holds no token obtains one by an exchange. */
  lemma ExchangeRearms(u: Setup, s: System) returns (steps: seq<Step>)
    requires u.k.Laws() && s.client == Some(Client(true, None)) && IsAuthorized(s.db, u.nwid, u.id)
    ensures forall step :: step in steps ==> !step.Leave?
    ensures var s' := After(u, s, steps);
      HoldsTokenOf(u, s', s.now) && s'.now == s.now && s'.requests == s.requests && s'.responses == s.responses
  {
    hide Answer, Apply, TokenText, Accepts, HasNetwork, After, Next;
    AnsweredExactly(u.k, u.rid, s.db, u.nwid, u.id, None, s.now);
    var a := OwnAnswer(u, s, None);
    steps := [Send, Handle(None), Deliver(a.reply.value)];
    Exchange(u, s);
    forall later: nat
      ensures Accepts(u.k, a.reply.value.token.value, u.nwid, u.id, later) <==> later <= s.now + TTL
    {
      TokenAcceptedExactly(u.k, a.granted.value, u.nwid, u.id, later);
    }
  }

  /** A client that joins, is answered once, and then stays away for longer than the token lasts, is stuck. */
  lemma StuckIsReachable(u: Setup, now: nat, db: Db) returns (steps: seq<Step>)
    requires u.k.Laws() && IsAuthorized(db, u.nwid, u.id)
    ensures Stuck(u, After(u, Start(now, db), steps))
  {
    hide Accepts, IsAuthorized;
    var s1 := Next(u, Start(now, db), JoinNetwork);
    var rest := ExchangeRearms(u, s1);
    var s2 := After(u, s1, rest);
    assert After(u, s2, [Tick(TTL + 1)]) == Next(u, s2, Tick(TTL + 1)) by {
      assert [Tick(TTL + 1)][1..] == [];
    }
    AfterBoth(u, s1, rest, [Tick(TTL + 1)]);
    Chain(u, Start(now, db), JoinNetwork, rest + [Tick(TTL + 1)]);
    steps := [JoinNetwork] + (rest + [Tick(TTL + 1)]);
  }

  /** Leaving and joining again recovers from any state, as long as the member is authorized. */
  lemma RejoiningRecovers(u: Setup, s: System) returns (steps: seq<Step>)
    requires u.k.Laws() && IsAuthorized(s.db, u.nwid, u.id)
    ensures [Leave, JoinNetwork] <= steps
    ensures HoldsTokenOf(u, After(u, s, steps), s.now) && After(u, s, steps).now == s.now
  {
    hide Accepts, IsAuthorized;
    var s2 := Next(u, Next(u, s, Leave), JoinNetwork);
    assert After(u, s, [Leave, JoinNetwork]) == s2 by {
      assert [Leave, JoinNetwork][1..] == [JoinNetwork] && [JoinNetwork][1..] == [];
    }
    var rest := ExchangeRearms(u, s2);
    steps := [Leave, JoinNetwork] + rest;
    AfterBoth(u, s, [Leave, JoinNetwork], rest);
  }

  function SetAuthorized(u: Setup, authorized: bool): Step {
    Admin(SaveMember(u.nwid, u.id, MemberPatch(Some(authorized), None, None, None)))
  }

  lemma AuthorizedAfterSave(u: Setup, db: Db, authorized: bool)
    requires HasNetwork(db, u.nwid, u.id)
    ensures var db' := Apply(u.rid, db, SetAuthorized(u, authorized).op);
      HasNetwork(db', u.nwid, u.id) && IsAuthorized(db', u.nwid, u.id) == authorized
  {
    hide Assigned;
  }

  /** An answer leaves the networks, and the member's authorization, as they were. */
  lemma AnswerKeepsAuthorization(u: Setup, s: System, token: Option<string>)
    requires HasNetwork(s.db, u.nwid, u.id)
    ensures var db' := OwnAnswer(u, s, token).db;
      HasNetwork(db', u.nwid, u.id) && IsAuthorized(db', u.nwid, u.id) == IsAuthorized(s.db, u.nwid, u.id)
  {
    hide Assigned, Accepts, IssueMembershipToken, Grant;
  }

  /** So does withdrawing the authorization for the time of one exchange, and granting it again. */
  lemma ReauthorizingRecovers(u: Setup, s: System) returns (steps: seq<Step>)
    requires u.k.Laws() && s.client.Some? && s.client.value.connected && HasNetwork(s.db, u.nwid, u.id)
    ensures [SetAuthorized(u, false)] <= steps && forall step :: step in steps ==> !step.Leave?
    ensures HoldsTokenOf(u, After(u, s, steps), s.now) && After(u, s, steps).now == s.now
  {
    hide Accepts, IsAuthorized, HasNetwork, Answer, Apply;
    var s1 := Next(u, s, SetAuthorized(u, false));
    AuthorizedAfterSave(u, s.db, false);
    AnsweredExactly(u.k, u.rid, s1.db, u.nwid, u.id, HeldToken(s1), s1.now);
    AnswerKeepsAuthorization(u, s1, HeldToken(s1));
    var a := OwnAnswer(u, s1, HeldToken(s1));
    var exchange := [Send, Handle(HeldToken(s1)), Deliver(a.reply.value)];
    Exchange(u, s1);
    var s2 := After(u, s1, exchange);
    AuthorizedAfterSave(u, s2.db, true);
    var s3 := Next(u, s2, SetAuthorized(u, true));
    var rest := ExchangeRearms(u, s3);
    Chain(u, s2, SetAuthorized(u, true), rest);
    AfterBoth(u, s1, exchange, [SetAuthorized(u, true)] + rest);
    Chain(u, s, SetAuthorized(u, false), exchange + ([SetAuthorized(u, true)] + rest));
    steps := [SetAuthorized(u, false)] + (exchange + ([SetAuthorized(u, true)] + rest));
  }

  lemma Chain(u: Setup, s: System, step: Step, rest: seq<Step>)
    ensures After(u, s, [step] + rest) == After(u, Next(u, s, step), rest)
  {
    assert ([step] + rest)[1..] == rest;
  }

  // ----- Revocation -----------------------------------------------------------------------------

  /** The member is unauthorized in every state of the run. */
  predicate RevokedThroughout(u: Setup, s: System, steps: seq<Step>)
    decreases |steps|
  {
    !IsAuthorized(s.db, u.nwid, u.id) && (steps == [] || RevokedThroughout(u, Next(u, s, steps[0]), steps[1..]))
  }

  predicate IsGrant(u: Setup, c: Claims) {
    c.n == u.nwid && c.m == u.id
  }

  lemma {:induction false} NothingGranted(u: Setup, s: System, steps: seq<Step>)
    requires RevokedThroughout(u, s, steps)
    ensures forall c :: c in After(u, s, steps).issued && IsGrant(u, c) ==> c in s.issued
    decreases |steps|
  {
    hide Next, IsAuthorized;
    if steps != [] {
      NothingGrantedNext(u, s, steps[0]);
      NothingGranted(u, Next(u, s, steps[0]), steps[1..]);
    }
  }

  lemma NothingGrantedNext(u: Setup, s: System, step: Step)
    requires !IsAuthorized(s.db, u.nwid, u.id)
    ensures forall c :: c in Next(u, s, step).issued && IsGrant(u, c) ==> c in s.issued
  {
    hide Answer, Apply, TokenText, HasNetwork, IsAuthorized, Accepts;
    match step {
      case Foreign(nwid, id, token) => AnsweredExactly(u.k, u.rid, s.db, nwid, id, token, s.now);
      case Handle(token) => AnsweredExactly(u.k, u.rid, s.db, u.nwid, u.id, token, s.now);
      case _ =>
    }
  }

  /** Revocation is complete within 3600 seconds: past that, no unforged token is accepted for the member. */
  lemma RevocationPropagates(u: Setup, now: nat, db: Db, before: seq<Step>, steps: seq<Step>, token: string)
    requires u.k.Laws()
    requires RevokedThroughout(u, After(u, Start(now, db), before), steps)
    requires var s := After(u, Start(now, db), before + steps);
      IsUnforged(u.k, s.issued, token) && Accepts(u.k, token, u.nwid, u.id, s.now)
    ensures After(u, Start(now, db), before + steps).now <= After(u, Start(now, db), before).now + TTL
  {
    hide Accepts, After, RevokedThroughout, IsUnforged;
    var s := After(u, Start(now, db), before);
    AfterBoth(u, Start(now, db), before, steps);
    RunsKeepSound(u, Start(now, db), before);
    NothingGranted(u, s, steps);
    var s' := After(u, s, steps);
    var c := AcceptedWasIssued(u.k, s'.issued, token, u.nwid, u.id, s'.now);
    assert IsGrant(u, c);
  }
}
