/** Membership tokens: their text form, issuing and checking them, and answering a network config request. */
module Tokens {
  import opened Wrappers
  import opened BigEndian
  import opened WorldParser
  import opened Addressing
  import opened Reconciliation
  import opened Controller

  const TTL: nat := 3600

  /** The claims of an issued token: network, member, controller, revision, issue time and expiry in seconds. */
  datatype Claims = Claims(n: string, m: string, c: string, r: nat, t: nat, e: nat)

  /** What a reader finds under each key; a key may be missing or hold another kind of value. */
  datatype Payload = Payload(n: Option<string>, m: Option<string>, c: Option<string>, t: Option<nat>, e: Option<nat>)

  function Read(c: Claims): Payload {
    Payload(Some(c.n), Some(c.m), Some(c.c), Some(c.t), Some(c.e))
  }

  /** The controller's address and key, and the text routines it uses. */
  datatype Signing = Signing(
    address: string,
    toJson: Claims -> Bytes,
    fromJson: Bytes -> Option<Payload>,
    base64: Bytes -> string,
    unbase64: string -> Option<Bytes>,
    sign: Bytes -> Octets64,
    verify: (Bytes, Octets64) -> bool)
  {
    ghost predicate Laws() {
      && (forall c :: fromJson(toJson(c)) == Some(Read(c)))
      && (forall b :: unbase64(base64(b)) == Some(b) && '.' !in base64(b))
      && (forall b :: verify(b, sign(b)))
    }
  }

  function Split(s: string): (parts: seq<string>)
    ensures parts != []
  {
    if s == [] then [""]
    else if s[0] == '.' then [""] + Split(s[1..])
    else var rest := Split(s[1..]); [[s[0]] + rest[0]] + rest[1..]
  }

  function TokenText(k: Signing, c: Claims): string {
    k.base64(k.toJson(c)) + "." + k.base64(k.sign(k.toJson(c)))
  }

  /** The claims a member is granted; only an authorized one is granted any. */
  function Grant(k: Signing, db: Db, nwid: string, id: string, now: nat): Option<Claims> {
    if id !in MembersOf(db, nwid) || !MembersOf(db, nwid)[id].authorized || nwid !in db.networks then None
    else Some(Claims(nwid, id, k.address, db.networks[nwid].revision, now, now + TTL))
  }

  function IssueMembershipToken(k: Signing, db: Db, nwid: string, id: string, now: nat): Option<string> {
    match Grant(k, db, nwid, id, now)
    case None => None
    case Some(c) => Some(TokenText(k, c))
  }

  function VerifyMembershipToken(k: Signing, token: string, nwid: string, id: string, now: nat): Option<Payload> {
    var parts := Split(token);
    if |parts| != 2 then None
    else match (k.unbase64(parts[0]), k.unbase64(parts[1]))
      case (Some(body), Some(sig)) => VerifySigned(k, body, sig, nwid, id, now)
      case _ => None
  }

  function VerifySigned(k: Signing, body: Bytes, sig: Bytes, nwid: string, id: string, now: nat): Option<Payload> {
    if |sig| != 64 || !k.verify(body, sig) then None
    else match k.fromJson(body)
      case None => None
      case Some(p) =>
        if p.e == None || p.t == None || now > p.e.value || p.t.value > p.e.value then None
        else if p.n != Some(nwid) || p.m != Some(id) || p.c != Some(k.address) then None
        else Some(p)
  }

  predicate Accepts(k: Signing, token: string, nwid: string, id: string, now: nat) {
    VerifyMembershipToken(k, token, nwid, id, now).Some?
  }

  lemma {:induction false} SplitOne(a: string)
    requires '.' !in a
    ensures Split(a) == [a]
  {
    if a != [] {
      SplitOne(a[1..]);
      assert [a[0]] + a[1..] == a;
    }
  }

  lemma {:induction false} SplitTwo(a: string, b: string)
    requires '.' !in a && '.' !in b
    ensures Split(a + "." + b) == [a, b]
  {
    var s := a + "." + b;
    if a == [] {
      assert s == ['.'] + b && s[1..] == b;
      SplitOne(b);
    } else {
      SplitTwo(a[1..], b);
      assert s[1..] == a[1..] + "." + b;
      assert [a[0]] + a[1..] == a;
    }
  }

  /** A token's own text is accepted exactly for the network and member it names, until it expires. */
  lemma TokenAcceptedExactly(k: Signing, c: Claims, nwid: string, id: string, now: nat)
    requires k.Laws()
    ensures Accepts(k, TokenText(k, c), nwid, id, now)
       <==> nwid == c.n && id == c.m && c.c == k.address && now <= c.e && c.t <= c.e
  {
    hide Split;
    SplitTwo(k.base64(k.toJson(c)), k.base64(k.sign(k.toJson(c))));
  }

  /** Only an authorized member is issued a token, and it is accepted exactly up to 3600 seconds after its issue. */
  lemma IssuedTokenAcceptedExactly(k: Signing, db: Db, nwid: string, id: string, iat: nat, nwid': string, id': string,
                                   now: nat)
    requires k.Laws()
    ensures var token := IssueMembershipToken(k, db, nwid, id, iat);
      && (token.Some? <==> nwid in db.networks && id in MembersOf(db, nwid) && MembersOf(db, nwid)[id].authorized)
      && (token.Some? ==>
            (Accepts(k, token.value, nwid', id', now) <==> nwid' == nwid && id' == id && now <= iat + 3600))
  {
    hide VerifyMembershipToken;
    var grant := Grant(k, db, nwid, id, iat);
    if grant.Some? {
      TokenAcceptedExactly(k, grant.value, nwid', id', now);
    }
  }

  /** What an ideal signature scheme gives: if the signature in the text verifies, the controller signed its body. */
  ghost predicate IsUnforged(k: Signing, issued: set<Claims>, token: string) {
    var parts := Split(token);
    |parts| == 2 ==>
      match (k.unbase64(parts[0]), k.unbase64(parts[1]))
      case (Some(body), Some(sig)) =>
        |sig| == 64 && k.verify(body, sig) ==> exists c :: c in issued && body == k.toJson(c)
      case _ => true
  }

  /** Unless it is forged, whatever text is accepted carries the claims of a token issued to that very member. */
  lemma AcceptedWasIssued(k: Signing, issued: set<Claims>, token: string, nwid: string, id: string, now: nat)
    returns (c: Claims)
    requires k.Laws() && IsUnforged(k, issued, token) && Accepts(k, token, nwid, id, now)
    ensures c in issued && c.n == nwid && c.m == id && c.c == k.address && now <= c.e
  {
    hide Split;
    var parts := Split(token);
    var body, sig: Octets64 := k.unbase64(parts[0]).value, k.unbase64(parts[1]).value;
    assert k.verify(body, sig);
    c :| c in issued && body == k.toJson(c);
  }

  // ----- Config requests ------------------------------------------------------------------------

  /** The parts of a config response that the member's record decides. */
  datatype Reply = Reply(authorized: bool, ips: seq<Addr>, token: Option<string>)

  datatype Answered = Answered(db: Db, reply: Option<Reply>, granted: Option<Claims>)

  function Answer(k: Signing, rid: Rid, db: Db, nwid: string, id: string, token: Option<string>, now: nat): Answered {
    match JoinRequested(rid, db, nwid, id)
    case Err => Answered(db, None, None)
    case Ok(db') =>
      var m := EffectiveMember(rid, db', nwid, id);
      var authorized := m.Some? && m.value.authorized;
      if token.Some? && authorized && !Accepts(k, token.value, nwid, id, now) then Answered(db', None, None)
      else
        Answered(db', Some(Reply(authorized, if m.Some? then m.value.ips else [],
                                 if authorized then IssueMembershipToken(k, db', nwid, id, now) else None)),
                 if authorized then Grant(k, db', nwid, id, now) else None)
  }

  predicate HasNetwork(db: Db, nwid: string, id: string) {
    IsHexId(id) && nwid in db.networks
  }

  /** Authorized, once the join request has registered a newcomer: those to a public network are. */
  predicate IsAuthorized(db: Db, nwid: string, id: string) {
    && HasNetwork(db, nwid, id)
    && if id in MembersOf(db, nwid) then MembersOf(db, nwid)[id].authorized else !db.networks[nwid].private
  }

  /**
   * A request is answered unless there is no such network, or an authorized member presents a token that is not
   * accepted. The answer brings a new token exactly to an authorized member, issued now.
   */
  lemma AnsweredExactly(k: Signing, rid: Rid, db: Db, nwid: string, id: string, token: Option<string>, now: nat)
    ensures var a, authorized := Answer(k, rid, db, nwid, id, token, now), IsAuthorized(db, nwid, id);
      && (a.reply.Some? <==>
            HasNetwork(db, nwid, id) && (authorized && token.Some? ==> Accepts(k, token.value, nwid, id, now)))
      && (a.granted.Some? <==> a.reply.Some? && authorized)
      && (a.granted.Some? ==>
            a.granted.value == Claims(nwid, id, k.address, db.networks[nwid].revision, now, now + 3600))
      && (a.reply.Some? ==>
            && a.reply.value.authorized == authorized
            && a.reply.value.token == (if authorized then Some(TokenText(k, a.granted.value)) else None)
            && id in MembersOf(a.db, nwid) && EffectiveMember(rid, a.db, nwid, id).Some?
            && a.reply.value.ips == EffectiveMember(rid, a.db, nwid, id).value.ips)
      && (JoinRequested(rid, db, nwid, id).Ok? ==> a.db == JoinRequested(rid, db, nwid, id).value)
      && (JoinRequested(rid, db, nwid, id).Err? ==> a.db == db)
  {
    hide VerifyMembershipToken, TokenText, Assigned;
    var r := JoinRequested(rid, db, nwid, id);
    if r.Ok? {
      var m := EffectiveMember(rid, r.value, nwid, id);
      assert m.Some? && m.value.authorized == IsAuthorized(db, nwid, id);
      assert r.value.networks == db.networks;
    }
  }

  /** Config requests at a controller; `announced` is the address the sender has proven. */
  class ConfigServer {
    const controller: EmbeddedController
    const k: Signing

    constructor (controller: EmbeddedController, k: Signing)
      ensures this.controller == controller && this.k == k
    {
      this.controller, this.k := controller, k;
    }

    method OnNetworkConfigRequest(isController: bool, announced: Option<string>, nwid: string, token: Option<string>,
                                  now: nat) returns (response: Option<Reply>)
      modifies controller
      ensures !isController || announced == None ==>
        response == None && controller.State() == old(controller.State())
      ensures isController && announced.Some? ==>
        var a := Answer(k, controller.rid, old(controller.State()), nwid, announced.value, token, now);
        response == a.reply && controller.State() == a.db
    {
      hide VerifyMembershipToken, TokenText, Assigned;
      if !isController {
        return None;
      }
      if announced == None {
        return None;
      }
      var member := announced.value;
      var joined := controller.RegisterJoinRequest(nwid, member);
      if joined.Err? {
        return None;
      }
      var record := controller.GetEffectiveMember(nwid, member);
      var authorized := record.Some? && record.value.authorized;
      var ips := if record.Some? then record.value.ips else [];
      if token.Some? {
        if authorized && VerifyMembershipToken(k, token.value, nwid, member, now) == None {
          return None;
        }
      }
      var issued := if authorized then IssueMembershipToken(k, controller.State(), nwid, member, now) else None;
      response := Some(Reply(authorized, ips, issued));
    }
  }
}
