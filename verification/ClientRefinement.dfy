/** The client of the token runs is the joined network of the record runs, seen through its intent and its token. */
module ClientRefinement {
  import opened Wrappers
  import opened Networks
  import Records = NetworkRuns
  import Tokens
  import TokenRuns

  function ClientOf(nets: Nets, id: string): Option<TokenRuns.Client> {
    if id in nets then Some(TokenRuns.Client(nets[id].connected, nets[id].token)) else None
  }

  /** What a change of the records is in a token run, if it is of this network. */
  function StepOf(op: Records.Op): Option<TokenRuns.Step> {
    match op
    case Api(Join(_)) => Some(TokenRuns.JoinNetwork)
    case Api(Connect(_)) => Some(TokenRuns.Connect)
    case Api(Disconnect(_)) => Some(TokenRuns.Disconnect)
    case Api(Leave(_)) => Some(TokenRuns.Leave)
    case _ => None
  }

  /** Calls do to the record what the corresponding step does to the client of a token run. */
  lemma CallsRefineSteps(env: Env, s: Records.Store, op: Records.Op, id: string, u: TokenRuns.Setup,
                         sys: TokenRuns.System)
    requires op.Api? && env.clean(op.call.nwid) == id && IsNetworkId(id) && StepOf(op).Some?
    requires sys.client == ClientOf(s.networks, id)
    ensures TokenRuns.Next(u, sys, StepOf(op).value).client == ClientOf(Records.Apply(env, s, op).networks, id)
  {
    hide IsNetworkId, Persisted, Erased;
  }

  /** So does a config response for the delivery of its token; a config packet, or other settings, is no step at all. */
  lemma ResponsesRefineDeliveries(env: Env, s: Records.Store, nwid: string, c: Config, byPacket: bool, id: string,
                                  u: TokenRuns.Setup, sys: TokenRuns.System, reply: Tokens.Reply)
    requires env.clean(nwid) == id && (id in s.networks ==> s.networks[id].nwid == id)
    requires sys.client == ClientOf(s.networks, id) && reply in sys.responses && reply.token == c.token
    ensures ClientOf(Records.Apply(env, s, Records.Receive(nwid, c, byPacket)).networks, id)
         == if byPacket then sys.client else TokenRuns.Next(u, sys, TokenRuns.Deliver(reply)).client
  {
    hide Persisted, Erased;
  }

  /** What happens to other networks is no step either. */
  lemma OtherNetworksAreSilent(env: Env, s: Records.Store, op: Records.Op, id: string)
    requires match op
             case Api(call) => env.clean(call.nwid) != id
             case Receive(nwid, _, _) =>
               env.clean(nwid) != id && (env.clean(nwid) in s.networks ==> s.networks[env.clean(nwid)].nwid != id)
             case Restart(_) => false
    ensures ClientOf(Records.Apply(env, s, op).networks, id) == ClientOf(s.networks, id)
  {
    hide Persisted, Erased, IsNetworkId, Touched;
  }
}
