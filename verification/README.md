# ZGALAXY daemon: a verified model

ZGALAXY is a mesh daemon in the style of ZeroTier. Nodes talk over QUIC, prove their addresses to each other, join
networks that an embedded controller administers, and learn where the planet's roots are from a sync server. This
project models its core components in Dafny and proves what they keep over whole runs.

| Part | Modules | What is proved |
|---|---|---|
| QUIC sessions (`src/quic.rs`, event loop of `src/main.rs`) | `Announce`, `Session`, `SessionOutcomes` | every interleaving of activations, reader teardowns and the event loop: no orphaned connection, no eviction, only proven addresses are bound or served, and exactly which are served |
| Controller (`src/controller.rs`) | `Addressing`, `Reconciliation`, `Controller`, `ControllerRuns`, `ControllerEffects` | allocators and derived addresses, the two reconcilers against each other, address disjointness over all runs and exactly when it holds, and what each payload does to memberships and lists |
| Membership tokens (`src/controller.rs`, `src/main.rs`) | `Tokens`, `TokenRuns`, `ClientRefinement` | the life of a token, the state in which a client is refused for good, what ends it, and how fast a revocation acts |
| World codec (`src/world.rs`) | `WorldParser`, `WorldEncoding`, `WorldRoundTrip`, `WorldLayout` | the parser is total and stays in bounds; both round trips with their exact side conditions; what a signature covers and determines |
| Joined networks (`src/network.rs`) | `Networks`, `NetworkRuns` | connection intents over interleaved writers; restarts restore them; what an interrupted save or leave brings back |
| Adapter (`src/main.rs`, `src/controller_api.rs`) | `AdapterSync`, `AdapterRuns` | when the incremental update is the full rewrite, and that the adapter follows the responses |
| Topology sync (`src/sync_provider.rs`) | `SyncProvider`, `SyncRuns` | where every byte on disk comes from, what an etag stands for, what a failed planet leaves |
| Learning switch (`src/l2_switch.rs`) | `L2Switch` | the table and the forwarding refine the event log |
| Peers (`src/peer.rs`) | `Peers` | one preferred path, the first of the best score, and exactly when it is alive |

`BigEndian` and `Wrappers` are shared helpers.

Code that changes state in place is a class whose methods are verified against functions of the old state; the theorems
over runs are about those functions. The QUIC layer is concurrent, so it is a state machine: an action is one lock section
or one channel operation of one task, every task has a program counter, and any enabled action may come next. A theorem
named `…Exactly` is an equivalence or an equality; of `WorldRoundTrip.LegacyRoundTripExactly` one direction excepts some worlds.

## Conventions

- Routines of libraries are parameters: `Std` (parsing and trimming of text), `Crypto` and `Signing` (Ed25519, base64,
  JSON), `Rid` (HMAC-SHA256), `Env` (hashes, trimming). The laws a theorem needs of them are predicates in its `requires`
  (`Laws`); nothing is assumed of a hash or of a signature beyond that. Ideal signatures appear where they are needed, as
  `SignsOnlyAnswers` and `IsUnforged`.
- What the network, the file system and the clock do is a parameter too (`Io`, `Outcome`, `Fetched`, `now`).
- An address of a virtual network is a number and a family. The tests on its text ("starts with fc") are stated on the
  first group of the number, as it is printed without leading zeros.

## Where the code is not what its comments say

- `src/main.rs:830-840` means to evict the MACs of a lost peer. A reader removes its connection before it reports the loss,
  so the guard at `src/main.rs:815-829` never passes (`EvictionIsNeverReached`). With the report sent first it passes exactly
  if the connection is still current when the report is handled (`EventFirstEvictsExactly`): a fast event loop evicts
  (`EventFirstReachesEviction`), a slow one is overtaken by the removal (`EventFirstCanMissEviction`).
- `src/quic.rs:286-287` says that of two connections the first wins. The code lets the newer one replace it
  (`NoOrphanedConnection` is about that). A replaced connection's teardown still forgets the address that the current one
  has proven (`ReplacedTeardownUnbinds`); a binding lasts exactly until a connection of its remote takes that step
  (`BindingLastsExactly`), and that connection is never the current one (`ForgetfulIsNotCurrent`).
- `src/main.rs:581-584` takes an invalid token for a sign of revocation or of a revised network. The revision in a token is
  never checked, and the everyday cause is age: a client that missed an hour is refused from then on
  (`StuckUntilRearmed`), and only because it is still authorized.
- `src/controller.rs:642-644` promises a distinct candidate for each probe. The allocator gives up exactly when all 256
  candidates of every pool are taken (`NextFreeIpv6`). That means a full pool exactly if each of its addresses is a
  candidate (`Ipv6AllocatorIsCompleteExactly`), so for no pool of more than 256 addresses, whatever the hash
  (`Ipv6AllocatorGivesUpEarly`).
- `src/controller.rs:437-444` serves addresses that are not stored. Two members can be served one address
  (`ServedDisjointExactly`, `ServedClashIsReachable`).
- `src/network.rs:338-340` calls leaving permanent. It lasts exactly until a join, a config writer that stores what it read
  before, or a start that finds a file for the network (`LeaveLastsExactly`; `DisconnectLastsExactly` is the same for a
  disconnect). A leave deletes all such files but those under another name (`ErasedComesBackExactly`), unless it is cut
  short between the two (`InterruptedLeave`).
- `src/sync_provider.rs:405` restores the last known good planet. A download that fails before the swap makes the rollback
  replace a good planet by the older `planet.bak` (`FailedPlanetExactly`).
- `src/main.rs:336-360` sets up the adapter at boot. A denial that follows leaves it set up (`BootResponseExactly`).

## Model

| member | source | states |
|---|---|---|
| Announce.ChallengeMaterialIsInjective | src/quic.rs:140-146 | equal challenge material means equal nonce and equal address, so a signature over one challenge fits no other |
| Announce.ChallengeMaterialLayout | src/quic.rs:139-146 | the material is the letters ZG1, the nonce with its high byte first, and the address |
| Announce.IdentityTables.ChallengeAnnounce | src/quic.rs:389-399 | the newest challenge of a remote replaces the one before, and nothing else changes |
| Announce.IdentityTables.RememberAnnounce | src/quic.rs:369-388 | accepts only ten hexadecimal digits, and only the address the remote is already bound to, if any |
| Announce.IdentityTables.VerifyAnnounceProof | src/quic.rs:406-449 | succeeds exactly for a proof of the outstanding challenge, signed by an identity of the announced address, on a remote not bound to another; a valid proof uses up its challenge even when the binding is refused |
| Announce.IdentityTables.RecordAccepted | src/quic.rs:217-220 | the acceptance of one remote is recorded and no other changes |
| Session.RunsKeepConnInv | src/quic.rs:288-364 | in every interleaving the connection invariant holds: table entries are inserted and of their remote, readers are spawned last, a removed connection is not current, a connection about to be closed has been replaced by exactly one activation, reported ones are gone |
| Session.StepKeepsConnInv | src/quic.rs:288-364 | every single lock section and channel operation keeps that invariant |
| Session.EvictionIsNeverReached | src/main.rs:812-841 | a queued or handled disconnect never names the current connection, so no MAC is ever evicted for it |
| Session.EventFirstReachesEviction | src/quic.rs:338-355 | with the event sent before the removal there is a run that reaches the eviction |
| Session.EventFirstCanMissEviction | src/quic.rs:338-355 | and there is one in which the reader's removal overtakes the event loop and the report is dropped |
| Session.EventFirstEvictsExactly | src/main.rs:812-841 | in every run of that order, handling a report starts an eviction exactly if its connection is still current, which needs that its own reader has not removed it |
| Session.EvictedExactly | src/main.rs:812-841 | in either order and every run, the evictions are exactly the reports that found their connection current when they were handled, in that order |
| Session.NoOrphanedConnection | src/quic.rs:288-321 | an open activated connection is the current one of its remote, or exactly one activation is about to close it |
| Session.OneOpenConnectionPerRemote | src/quic.rs:502-540 | while no activation for a remote is mid-replacement, that remote has at most one open connection that is read from, whoever dialled |
| Session.AnnouncedAddressesAreProven | src/main.rs:440-604 | whatever messages arrive, every bound address, and every address served with a registration, token or last-seen touch, was challenged by this node on that remote and answered under a signature of an identity of that address |
| Session.StepKeepsIdentity | src/quic.rs:369-449 | each step keeps that bound and served addresses are proven, in either order of the teardown |
| Session.BindingsChangeOnlyByRemoval | src/quic.rs:369-388 | no step turns a binding into one to another address |
| Session.BindingLostExactly | src/quic.rs:338-355 | a step ends a binding exactly if it is the one in which the teardown of some connection of that remote forgets it |
| Session.ForgetfulIsNotCurrent | src/quic.rs:338-355 | in every reachable state that connection is closed and not the current one, so what is lost is the binding of another |
| Session.BindingLastsExactly | src/quic.rs:338-355 | through any continuation a binding lasts, with its address, exactly if no such step of a connection of its remote occurs |
| Session.HonestHolderAnswered | src/quic.rs:406-449 | a bound address is that of the identity in a received proof of an issued challenge, and under ideal signatures the holder of an honest key has answered this node's very nonce |
| Session.ReplacedTeardownUnbinds | src/quic.rs:338-355 | a run in which the teardown of a replaced connection removes the binding that the open current connection has just proven |
| SessionOutcomes.HandledExactly | src/main.rs:425-841 | left to itself, the event loop turns each event into exactly one outcome: a datagram or config request of a bound remote is served under its address, an announcement is challenged, a valid proof uses up its challenge and binds, accepts and serves where it may, an acceptance is recorded, a lost current connection evicted, and nothing else happens |
| SessionOutcomes.ServedExactly | src/main.rs:425-574 | in either order and every run, the pairs served are exactly those of the handled datagrams and config requests of bound remotes, with the address bound at that moment, and of the valid proofs that bind |
| SessionOutcomes.ProofsAreUsedOnce | src/quic.rs:406-449 | a proof that has been handled as valid is refused when it comes again |
| SessionOutcomes.EventsAreHandledInOrder | src/main.rs:414-425 | the events handled and then those queued are the events reported, in order: none is lost, doubled or overtaken |
| SessionOutcomes.ActivationReplaces | src/quic.rs:288-364 | left to itself an activation puts its connection into the slot, starts its reader, and closes the connection that had the slot and forgets its acceptance |
| SessionOutcomes.TeardownClears | src/quic.rs:338-355 | left to itself, in either order, a teardown takes its connection from the table if it is current, forgets the remote's address and acceptance in any case, and reports the loss once |
| Addressing.MemberIdIsNumber | src/controller.rs:602-604 | a lower-case member id is a 40-bit number, and the number determines it |
| Addressing.DigitsAreRead | src/controller.rs:603-604 | ids are read in base 16 from the left, with digits in either case |
| Addressing.DerivedAddressesAreInjective | src/controller.rs:602-632 | 6PLANE addresses coincide iff members and folded network ids do, RFC 4193 ones iff members and networks do, and the families never meet |
| Addressing.Rfc4193Parts | src/controller.rs:618-632 | an RFC 4193 address decodes to its network and its member |
| Addressing.SixPlaneParts | src/controller.rs:602-615 | a 6PLANE address decodes to its member and the folded network id |
| Addressing.PublishedVectors | src/controller.rs:602-632 | the two octet layouts give the published ZeroTier addresses for a known network and member |
| Addressing.DerivedFamilies | src/controller.rs:694-722 | the text of a 6PLANE address starts with fc and not fd, that of an RFC 4193 address with fd and not fc |
| Addressing.PrefixTestsReadText | src/controller.rs:712-745 | the tests for the two families look at the first two digits of the first group as it is printed |
| Addressing.NextFreeIp | src/controller.rs:761-789 | the least unused address of the first well-formed pool that has one; none exactly when every address of every pool is used |
| Addressing.FindInRange | src/controller.rs:782-786 | the scan of one range finds its least unused address |
| Addressing.FindFreeIp | src/controller.rs:774-788 | the scan of the pools meets the specification of the IPv4 allocator |
| Addressing.AllocatedIpExactly | src/controller.rs:774-788 | between two ends the allocator gives an address iff it is the least unused one, and none iff all are used |
| Addressing.MalformedPoolsAreSkipped | src/controller.rs:775-781 | a pool with an end missing, of another family, or reversed makes no difference |
| Addressing.OpaqueIp | src/controller.rs:646-681 | a candidate exists iff the range is not empty, lies in it, never overflows, and is congruent to the hash modulo the size, which determines it |
| Addressing.CandidateExactly | src/controller.rs:658-681 | a member's candidate is the start of the pool plus the remainder of the hash of member and counter, for each of 256 counters |
| Addressing.CandidatesCoincideExactly | src/controller.rs:676-678 | two probes, of one member or two, give one candidate iff their hashes agree modulo the size of the pool |
| Addressing.NextFreeIpv6 | src/controller.rs:793-835 | the first unused one of a member's 256 candidates in the first pool that has one, all candidates of earlier pools being taken; none exactly when every candidate of every pool is taken |
| Addressing.AllocatedSlotExactly | src/controller.rs:808-834 | on one pool the allocator gives the first unused of the 256 numbers start plus remainder, and none iff they all are used |
| Addressing.TakenCandidateIsStepped | src/controller.rs:817-832 | a member whose first candidate alone is used is given the next one whose hash differs modulo the size |
| Addressing.ProbePool | src/controller.rs:818-832 | the probing loop meets the specification of one pool's probes |
| Addressing.FindFreeIpv6 | src/controller.rs:808-834 | the loop over pools meets the specification of the IPv6 allocator |
| Addressing.ProbeFinds | src/controller.rs:818-832 | probing finds the first unused candidate of a pool, and nothing exactly when all of them are taken |
| Addressing.Ipv6AllocatorIsCompleteExactly | src/controller.rs:793-835 | giving up means a full pool, whatever is in use, exactly for the pools in which every address is a candidate of the member |
| Addressing.Ipv6AllocatorGivesUpEarly | src/controller.rs:817-832 | for every hash and every pool of more than 256 addresses there are at most 256 addresses whose use makes the allocator give up although another address of the pool is free |
| Reconciliation.AutoAssignIps | src/controller.rs:684-756 | the four stages, in place, give the list of the specification |
| Reconciliation.ReconcileInline | src/controller.rs:337-379 | the copy inside the network update, in place, gives the list of its specification |
| Reconciliation.AutoAssignHas | src/controller.rs:684-756 | which addresses the allocating reconciler leaves: those kept for their family's mode, the derived ones, and what an allocator adds |
| Reconciliation.InlineHas | src/controller.rs:333-379 | which addresses the other copy leaves: the same without the allocators |
| Reconciliation.CopiesAgree | src/controller.rs:333-394 | for a fixed set of used addresses, allocating after the inline copy gives the same set as allocating directly |
| Reconciliation.AutoAssignIsIdempotentExactly | src/controller.rs:684-756 | allocating twice gives the list of allocating once, except when a pool makes it add an address that looks derived while that mode is on |
| Reconciliation.InlineIsIdempotent | src/controller.rs:337-379 | reconciling a reconciled list changes nothing, order included |
| Controller.EmbeddedController.AutoAssignIpsForMember | src/controller.rs:684-756 | a network that does not exist assigns nothing; otherwise the used set is that of all its members, authorized or not |
| Controller.EmbeddedController.SaveMember | src/controller.rs:452-509 | within the modelled payloads: merges a partial payload over the record, counts a revision, allocates for automatic members; fails exactly on ids that are not ten long and then changes nothing |
| Controller.EmbeddedController.RegisterJoinRequest | src/controller.rs:513-576 | registers a newcomer to an existing network, authorized iff the network is public; leaves a known member as it is; fails otherwise without a change |
| Controller.EmbeddedController.SaveNetwork | src/controller.rs:254-394 | picks the id of the payload if it is sixteen long and holds no placeholder, and the generated one otherwise; privacy and pools are the payload's, else the stored ones, else public and none; then reconciles every automatic member and no other |
| Controller.EmbeddedController.DeleteNetwork | src/controller.rs:402-417 | removes the network and its members together, or nothing |
| Controller.EmbeddedController.DeleteMember | src/controller.rs:838-849 | removes one member and frees its addresses |
| Controller.EmbeddedController.GetEffectiveMember | src/controller.rs:438-444 | the record with addresses allocated for the answer, while what is stored stays as it is |
| ControllerRuns.ApplyKeeps | src/controller.rs:254-576 | under the exact condition on ids and pools, each operation keeps that no two members share an address and that nobody holds one that is derived for another id |
| ControllerRuns.RunsKeepInv | src/controller.rs:254-576 | so does every run of admissible operations |
| ControllerRuns.AddressesStayDisjointExactly | src/controller.rs:333-394 | over all runs whose payloads leave `ipAssignments` alone, no two members of a network hold one address, exactly if the ids hold no two spellings of one number and no address that pools may hold is derived there for one id while there is another |
| ControllerRuns.PoolsWithoutDerivedAreSafe | src/controller.rs:684-835 | with pools that hold no address derived on their network for any of the ids, inside fc00::/7 or not, addresses stay disjoint exactly if the ids hold no two spellings of one number |
| ControllerRuns.TwinsCollide | src/controller.rs:452-509 | two spellings of one id, authorized through the service API, are stored with one address on any network with a numeric id |
| ControllerRuns.LookalikePoolCollides | src/controller.rs:684-835 | with any pool from which a member's first candidate is derived for another, both are stored with that address |
| ControllerRuns.UsualSetupsAreSafe | src/controller.rs:602-632 | the exact condition holds for ids in lower case and pools outside the addresses whose text starts with fc or fd |
| ControllerRuns.UpdatesCountRevisionsExactly | src/controller.rs:333-394 | a network update raises a member's revision exactly when it changes the list, only for automatic members of that network, and repeating it changes no member |
| ControllerRuns.ServedDisjointExactly | src/controller.rs:438-444 | the addresses two members are served are disjoint iff they are not both automatic with either no IPv4 address stored while there is one to allocate, or no custom one stored while their first unused candidates coincide |
| ControllerRuns.ServedClashIsReachable | src/controller.rs:438-444 | two members that joined before the pools were added are served the same address |
| ControllerEffects.PayloadsMerge | src/controller.rs:272-299 | a present key of a network or member payload replaces what is stored, an absent one leaves it, and each save counts one revision |
| ControllerEffects.EmptyPayloads | src/controller.rs:28-64 | a save without keys changes the revision alone; a new network starts public without pools or modes, a new member unauthorized without addresses |
| ControllerEffects.PayloadIdIsUsedExactly | src/controller.rs:254-268 | a save is of the network that the payload names iff that name is sixteen long and without six underscores in a row, and of a generated one otherwise |
| ControllerEffects.JoinAfterSaveExactly | src/controller.rs:529-541 | who joins after a save is authorized iff the network is then public by the payload, else by what was stored, else by default |
| ControllerEffects.JoinChangesOnlyNewcomers | src/controller.rs:513-527 | a join request fails exactly for an unknown network or an id that is not ten hexadecimal digits, leaves a known member as it is, and touches nobody else |
| ControllerEffects.ListsWithoutAssignment | src/controller.rs:452-493 | only ids ten long can be saved; a member not authorized, or opted out, has the payload's list or else the stored one |
| ControllerEffects.AuthorizedAfterSaveHasExactly | src/controller.rs:684-756 | a new member authorized after a save holds exactly what the modes and pools then in force provide: the least unused IPv4 address, the derived addresses, the first unused IPv6 candidate |
| ControllerEffects.UpdateReconcilesExactly | src/controller.rs:333-394 | after a network update an automatic member's list is what the modes then in force leave of it, by the text of each address, and add of derived ones; other members' records are untouched |
| ControllerEffects.DeletionsRemoveExactly | src/controller.rs:402-417 | deleting takes one network with all its members, or one member, and nothing else |
| Tokens.TokenAcceptedExactly | src/controller.rs:895-926 | the text of a token is accepted exactly for its network, member and controller, up to its expiry; its revision plays no part |
| Tokens.IssuedTokenAcceptedExactly | src/controller.rs:866-926 | a token is issued exactly to an authorized member of an existing network, and accepted exactly for them until 3600 seconds after its issue |
| Tokens.AcceptedWasIssued | src/controller.rs:895-926 | unless its signature is forged, any accepted text carries the claims of a token issued to that member of that network |
| Tokens.AnsweredExactly | src/main.rs:574-621 | a config request is answered iff the network exists and an authorized member's presented token is accepted; the answer holds the member's effective addresses, and a token with the network's revision, from now for 3600 seconds, iff the member is authorized; only registration changes the store |
| Tokens.ConfigServer.OnNetworkConfigRequest | src/main.rs:560-627 | nothing happens on a client or for an unproven remote; otherwise the member of the proven address is registered and answered as specified |
| TokenRuns.RunsKeepSound | src/main.rs:574-657 | in every run each token held or under way was issued to this member, no later than now, for 3600 seconds |
| TokenRuns.HeldTokenBoundary | src/controller.rs:866-926 | the token a client holds after any run is accepted exactly until 3600 seconds after the issue of that token |
| TokenRuns.HeldRequestAnsweredExactly | src/main.rs:574-623 | an authorized client's request with the token it holds is answered iff that time is not past, and past it never will be |
| TokenRuns.StuckStepExactly | src/main.rs:585-597 | one step ends the stuck state exactly if it is a leave, or a request handled while the member is not authorized |
| TokenRuns.StuckUntilRearmed | src/main.rs:585-597 | a client whose token has run out, with nothing on its way back, keeps that token and gets no answer, exactly for the runs without such a step |
| TokenRuns.StuckIsReachable | src/main.rs:1018-1022 | a client that joins, is answered and is away for 3601 seconds is stuck |
| TokenRuns.Exchange | src/main.rs:654-657 | a request that is answered and delivered leaves the client with the token of the answer |
| TokenRuns.DisconnectedSendsNothing | src/main.rs:1011-1014 | nothing is asked for a network that is not connected or not joined |
| ClientRefinement.CallsRefineSteps | src/network.rs:223-351 | joining, connecting, disconnecting and leaving do to the record what the steps of the token runs do to their client |
| ClientRefinement.ResponsesRefineDeliveries | src/main.rs:643-675 | so does a config response for the delivery of its token, while a config packet leaves the client as it is |
| ClientRefinement.OtherNetworksAreSilent | src/network.rs:223-351 | what happens to other networks is no step of this one |
| TokenRuns.RejoiningRecovers | src/network.rs:223-263 | leaving and joining again, then one exchange, gives an authorized client a fresh token from any state |
| TokenRuns.ReauthorizingRecovers | src/main.rs:585-605 | withdrawing the authorization for one exchange and granting it again does so too, without leaving |
| TokenRuns.RevocationPropagates | src/controller.rs:852-857 | while a member stays unauthorized no request is granted a token, so 3600 seconds on, no unforged token is accepted for it |
| WorldParser.Parse | src/world.rs:61-195 | parsing fails exactly below 18 bytes, and every root returned has used up at least five bytes of the input |
| WorldParser.ParseEndpoint | src/world.rs:111-149 | one record is read in bounds and the cursor moves forward by what it takes |
| WorldParser.ParseCanonicalEndpoints | src/world.rs:104-151 | the canonical endpoint loop, with its early ends, finds the specified endpoints and cursor |
| WorldParser.ParseLegacyEndpoints | src/world.rs:153-170 | the legacy endpoint loop, with its early ends, finds the specified endpoints and cursor |
| WorldParser.ParseRoots | src/world.rs:88-177 | the root loop finds the specified roots; the cursor never moves back nor past the end |
| WorldParser.ParseBinary | src/world.rs:61-195 | the whole parser terminates on every input without reading out of range, with the specified result |
| WorldLayout.ParsedFields | src/world.rs:66-95 | type, id and timestamp by position; at least 178 bytes with byte 177 at most 16 decide for the canonical signature, count and first root, else those of the legacy format are read |
| WorldLayout.MalformedEndpoints | src/world.rs:111-146 | an endpoint of no known family, or cut off, ends its root after one byte, as does a legacy text that is cut off; an empty one is passed over |
| WorldLayout.MalformedRoots | src/world.rs:88-92 | a root that is cut off ends the roots, a missing count means no endpoints, and a signature that is cut off is none |
| WorldLayout.DecimalReadsBack | src/world.rs:119-149 | numbers are printed in decimal without leading zeros |
| WorldLayout.GroupsByPosition | src/world.rs:128-134 | IPv6 addresses are printed as pairs of lower-case digits with a colon before each even octet but the first |
| WorldEncoding.Encode | src/world.rs:208-226 | the legacy encoder writes the specified layout, with its counts and lengths truncated to their fields |
| WorldEncoding.EncodeCanonicalRoots | src/world.rs:253-272 | the roots of the canonical layout, hostnames dropped, counts truncated to a byte |
| WorldEncoding.EncodeCanonical | src/world.rs:282-309 | the canonical encoder fails iff signing does; its output is the specified layout, with bytes 81 to 145 a signature over all its other bytes but the key after it, between the pads |
| WorldEncoding.EndpointBytes | src/world.rs:316-335 | an endpoint is encoded as a whole IPv4 or IPv6 record or not at all |
| WorldLayout.EndpointEncodedExactly | src/world.rs:316-335 | a trimmed text of a host, a last slash and a port has a record iff the port is one and the host is an IPv4 address, or an IPv6 address within any brackets; the record is that address and port |
| WorldLayout.HostnamesHaveNoPort | src/world.rs:318 | a text without a slash has no record |
| WorldEncoding.SplitAtLastSlash | src/world.rs:318 | the split is at the last slash, and fails exactly when there is none |
| WorldRoundTrip.CanonicalRoundTrip | src/world.rs:253-335 | for at most 16 roots with at most 255 encodable endpoints each, parsing the canonical encoding returns type, id, timestamp and root addresses in order, the 96-byte signature, and the encodable endpoints in normal spelling |
| WorldRoundTrip.NormalFormIsStable | src/world.rs:253-335 | encoding and parsing the result again, by any signer, changes nothing but the signature |
| WorldLayout.SignatureCoversTheRest | src/world.rs:282-309 | on the encoding itself: the signature is over the type, the id, the timestamp, the keys and every root |
| WorldLayout.SignedBytesDetermineWorld | src/world.rs:274-309 | encodings with equal signed bytes have equal types, ids, timestamps, keys and roots, and differ in the signature alone |
| WorldLayout.CanonicalFields | src/world.rs:286-308 | where each field of the canonical format lies |
| WorldLayout.CanonicalRootFields | src/world.rs:263-269 | a root is its address, a type byte, its key or zeros, a count byte and its records |
| WorldLayout.CanonicalRootAt | src/world.rs:256-257 | each root is encoded with the key given for its index |
| WorldLayout.RecordFields | src/world.rs:312-335 | an IPv4 record is 4, the address and the port with its high byte first, an IPv6 record is 6 and the same |
| WorldRoundTrip.NormalEndpoint | src/world.rs:312-335 | the normal spelling of an endpoint encodes to the same record, and the usual spelling of an IPv4 endpoint is normal |
| WorldRoundTrip.TooManyRootsAreLost | src/world.rs:72-87 | past 16 roots the roots never come back: a count byte of at most 16 loses some, and above that the layout is misread, unless the signing key itself begins like the count and first address of the world |
| WorldRoundTrip.LegacyRoundTrip | src/world.rs:152-226 | if the counts fit and the format test does not misfire, parsing the legacy encoding loses only empty endpoints |
| WorldLayout.LegacyRootFields | src/world.rs:214-222 | a legacy root is its address, a two-byte count, and its length-prefixed endpoints |
| WorldRoundTrip.LegacyRoundTripExactly | src/world.rs:152-226 | the world comes back if the test does not misfire and no endpoint is empty, and only then for every world but those that look canonical |
| WorldRoundTrip.MisreadLooksCanonical | src/world.rs:70-151 | a world read as canonical has at most 16 roots, a 96-byte signature, and only endpoints in the parser's own spelling |
| WorldRoundTrip.FormatTestMisfires | src/world.rs:70-72 | a legacy world that is read as a canonical one |
| Networks.NetworkManager.LoadFromDisk | src/network.rs:120-191 | the two passes, records before .conf files, in any order of listing, give the specified networks |
| Networks.NetworkManager.PersistNetworkToDisk | src/network.rs:194-212 | which files a save leaves for every combination of failing operations |
| Networks.NetworkManager.DeleteNetworkFromDisk | src/network.rs:215-221 | which files a deletion leaves for every combination of failing operations |
| Networks.NetworkManager.Join | src/network.rs:223-263 | rejects ids that are not 16 hexadecimal digits; a known network is connected again with everything else kept, an unknown one is created and saved |
| Networks.NetworkManager.UpdateNetwork | src/network.rs:265-271 | stores and saves the record it is given under that record's id |
| Networks.NetworkManager.Disconnect | src/network.rs:274-285 | clears the intent and sets the status of a known network, keeps its configuration, and saves it |
| Networks.NetworkManager.Connect | src/network.rs:288-299 | sets the intent and asks for configuration anew |
| Networks.NetworkManager.UpdateSettings | src/network.rs:303-336 | changes exactly the flags that are given, and the status only where the intent calls for it |
| Networks.NetworkManager.Leave | src/network.rs:341-351 | forgets the network in memory and deletes its files |
| NetworkRuns.ResponseIsStored | src/main.rs:647-672 | after a config response the record holds its addresses and token, the routes, MTU and name it brings or else the old ones, and a status that says whether it authorized; identity, flags and intent stay |
| NetworkRuns.PacketIsStored | src/transport.rs:191-202 | a config packet changes the name, the status, and the addresses unless it has none, and nothing else |
| NetworkRuns.CallsKeepConfig | src/network.rs:223-336 | calls keep the configuration of a known network, and settings touch exactly the flags they name |
| NetworkRuns.FirstJoinIsBlank | src/network.rs:239-256 | a first join invents no addresses, routes or token, asks for configuration, and takes this node's MAC for the network |
| NetworkRuns.RestoredIsSaved | src/network.rs:139-149 | a record comes back as it was saved, but for its status and a MAC that it lacked |
| NetworkRuns.LoadedExactly | src/network.rs:120-191 | for any files in any order a network comes back iff it has a readable record or a .conf file, as the record says whenever there is one: a .conf never revives or reconnects it |
| NetworkRuns.LoadedByLastRecord | src/network.rs:120-191 | at a start the record of a network that is listed last decides whether it is connected, and without a record a .conf file connects it |
| NetworkRuns.ErasedComesBackExactly | src/network.rs:215-221 | a network whose files were deleted comes back at a start exactly if a record of another file name names it, or a .conf of another stem cleans to it |
| NetworkRuns.RunsStayInSync | src/network.rs:223-351 | atomic operations keep that what a restart would load is what is in memory, with its status worked out anew |
| NetworkRuns.RestartRestores | src/network.rs:120-351 | from any well-named directory, after any atomic operations, a restart brings back the same networks and intents, with the status that follows from the intent |
| NetworkRuns.TokensChangeOnlyByResponse | src/main.rs:654-657 | a stored membership token survives calls, config packets and restarts; only a config response replaces it, and a newly joined network has none |
| NetworkRuns.MisnamedConfRevives | src/network.rs:147-183 | a run in which a .conf file of another spelling brings a network that was left back, connected |
| NetworkRuns.InterruptedSave | src/network.rs:193-212 | whichever file operations of a save fail, a restart finds the old record or the new one; only a network without a record can be made up |
| NetworkRuns.InterruptedLeave | src/network.rs:215-221 | a leave whose second deletion fails is undone at the next start, as a new join |
| NetworkRuns.ConnectedIsNeverDisconnected | src/network.rs:223-351 | for every interleaving of calls, restarts and config writers that read and store later, a network meant to be connected never has status Disconnected |
| NetworkRuns.TidyStepExactly | src/transport.rs:189-204 | the converse is lost in one step exactly if a writer stores the record of a network that was disconnected when it read |
| NetworkRuns.StaleWriterUndoes | src/main.rs:643-675 | a run in which a writer that read before a disconnect or a leave stores the network again, connected |
| NetworkRuns.IntentStepExactly | src/network.rs:120-351 | a step means a disconnected network to be connected exactly if it is a join, a connect or a setting of it, a writer storing a record read as connected, or a start whose files say so |
| NetworkRuns.DisconnectLastsExactly | src/network.rs:273-285 | through every interleaving a disconnect lasts exactly if no such step occurs |
| NetworkRuns.PresenceStepExactly | src/network.rs:120-351 | a step brings a network back that is gone exactly if it is a join, a writer storing what it read, or a start that finds a record or a .conf file |
| NetworkRuns.LeaveLastsExactly | src/network.rs:338-351 | through every interleaving a leave lasts exactly if no such step occurs |
| AdapterSync.AdapterClient.UpdateAddresses | src/main.rs:688-716 | obsolete addresses go; new ones come, or all of them if the network was not up |
| AdapterSync.AdapterClient.UpdateRoutes | src/main.rs:718-740 | the same for route targets, without default routes unless they are allowed |
| AdapterSync.AdapterClient.Flush | src/main.rs:741-755 | removes exactly the addresses and targets of a record |
| AdapterSync.AdapterClient.OnNetworkConfigResponse | src/main.rs:629-757 | the record takes the addresses, routes, token and verdict of the response, and the adapter follows the change from the previous record |
| AdapterSync.AdapterClient.JoinNetwork | src/controller_api.rs:201-250 | a request to disconnect a known network disconnects and flushes; any other joins and then applies the settings |
| AdapterSync.AdapterClient.LeaveNetwork | src/controller_api.rs:252-288 | flushes and forgets the network |
| AdapterSync.AdapterClient.PreconfigureAtBoot | src/main.rs:336-360 | adds what the saved record of a connected, managed network wants |
| AdapterRuns.UpdateIsRewriteExactly | src/main.rs:679-740 | for any adapter, the incremental update leaves what a full rewrite would iff the adapter held nothing foreign and, for a network that was up, all that is to stay |
| AdapterRuns.StepExactly | src/main.rs:643-757 | one operation keeps status and adapter matching, except for settings that turn managing off or switch default routes while the network is up with one |
| AdapterRuns.RunsStayInStepExactly | src/controller_api.rs:219-231 | a whole run keeps them matching exactly if none of its operations is such a case |
| AdapterRuns.AdapterMatchesStatus | src/main.rs:643-757 | with the flags left alone, after any responses, joins, disconnects and leaves, status Ok means exactly the desired addresses and routes, and any other status a bare adapter |
| AdapterRuns.AdapterFollowsResponses | src/main.rs:629-757 | in terms of the operations alone: the adapter holds exactly the addresses and non-default targets of the last response, if that authorized and no disconnect or leave has come since, and nothing otherwise |
| AdapterRuns.BootResponseExactly | src/main.rs:336-360 | after the setup at boot, the first response is followed iff it authorizes or there was nothing to set up |
| SyncProvider.SyncProviderClient.SyncSingleAsset | src/sync_provider.rs:309-402 | nothing unverified is ever written; the files and the outcome for every point at which an item can fail |
| SyncProvider.SyncProviderClient.RollbackPlanet | src/sync_provider.rs:406-417 | copies planet.bak over the planet, and fails without one |
| SyncProvider.SyncProviderClient.ExecuteSync | src/sync_provider.rs:209-306 | the first failing item ends the cycle, a planet with rollback; etag and summary change only as specified, with the number of replaced files |
| SyncProvider.FailedStops | src/sync_provider.rs:262-287 | after a failing item no later one is tried |
| SyncRuns.EveryFileIsTraced | src/sync_provider.rs:262-402 | after any cycles each tracked file holds bytes that matched a fetched manifest and parsed with a root, or initial bytes of a path that backup and rollback copy there |
| SyncRuns.HashesMatchExactly | src/sync_provider.rs:356-362 | two hashes match iff they differ in the case of letters only |
| SyncRuns.ReplacementEffects | src/sync_provider.rs:372-382 | a replaced target holds the download, its old bytes are in the item's backup, nothing stays staged, no other file changes; an item fails only for a reason of the network, the file system or its content |
| SyncRuns.SecondCycleIsIdle | src/sync_provider.rs:323-334 | a cycle with the same manifest, after one that succeeded, replaces nothing and succeeds, whatever the network does |
| SyncRuns.AssetTargets | src/sync_provider.rs:309-402 | an item touches no other target, its own only by succeeding, and success means that the target has the item's hash |
| SyncRuns.SuccessHoldsManifest | src/sync_provider.rs:262-306 | after a successful cycle every target holds the bytes of the last item of the manifest for it |
| SyncRuns.EtagMeansSynced | src/sync_provider.rs:289-292 | a stored etag is that of a cycle in which every item succeeded, after which the files were those of its manifest |
| SyncRuns.LastEtagExactly | src/sync_provider.rs:289-292 | after any cycles the stored etag is that of the last one that succeeded and brought one, else the initial one |
| SyncRuns.FailedPlanetExactly | src/sync_provider.rs:262-275 | after a failed planet with rollback on, the planet is planet.bak if there is one, and otherwise, or if the item's own backup has just made planet.bak of it, the planet from before that item; no moon changes |
| SyncRuns.FailedPlanetWithoutRollback | src/sync_provider.rs:262-275 | with rollback off a failed planet leaves every target as it was before that item |
| L2Switch.Switch.Learn | src/l2_switch.rs:41-46 | binds the MAC to the newest endpoint and time |
| L2Switch.Switch.Resolve | src/l2_switch.rs:49-51 | the endpoint the MAC is bound to, if any |
| L2Switch.Switch.RemoveEndpoint | src/l2_switch.rs:60-65 | drops exactly the MACs of the endpoint and counts them |
| L2Switch.Switch.EvictStale | src/l2_switch.rs:68-73 | drops exactly the MACs not refreshed within the age and counts them |
| L2Switch.Switch.OnDatagram | src/main.rs:425-432 | a whole frame teaches its source address for the sender; a shorter one nothing |
| L2Switch.Switch.Forward | src/main.rs:855-892 | a frame is sent once to each endpoint of the specified target set and to no other |
| L2Switch.ResolveRefinesLog | src/l2_switch.rs:41-73 | a MAC resolves to an endpoint iff some learn of it to that endpoint survives every later learn, removal and eviction in the log |
| L2Switch.ForwardingRefinesLog | src/main.rs:855-892 | a unicast frame goes to the endpoint of the surviving learn of its destination, and to all connected ones iff there is none |
| L2Switch.GroupEntriesDoNotMatter | src/l2_switch.rs:88-96 | two tables forward all frames alike iff they agree on unicast addresses: what was learned of group addresses is never used |
| L2Switch.AnswersGoToSender | src/l2_switch.rs:76-85 | after a frame from a sender, a frame back to its unicast source address goes to that sender alone |
| L2Switch.GroupFramesFlood | src/main.rs:855-892 | frames to group addresses, and frames that are too short, go to all connected peers whatever was learned |
| Peers.PeerManager.AddOrUpdatePeer | src/peer.rs:101-176 | updates one peer's path, or appends it, then selects and marks; no other peer changes |
| Peers.SelectBest | src/peer.rs:145-166 | the scoring loop returns the first index of maximal score |
| Peers.BestIndex | src/peer.rs:145-166 | that index is unique: none scores higher, and none before it as high |
| Peers.EveryPeerIsGood | src/peer.rs:101-176 | after any updates each peer's paths have distinct addresses, exactly the first best one is preferred, and latency and physical address are that path's |
| Peers.UpdateTouchesOnePath | src/peer.rs:113-143 | an update changes one peer, and of its paths only the one with that address, which is then active, fresh and of that latency |
| Peers.ScoreIs | src/peer.rs:150-161 | the score in numbers, with an unknown latency counting as 999 |
| Peers.PreferredIsAliveExactly | src/peer.rs:145-166 | an update leaves a path preferred that is active and was heard of within 60 seconds, after every history, iff its latency is below 10000 ms, or 12000 ms over IPv6 |
| Peers.FamilyPreference | src/peer.rs:145-166 | among alive paths an IPv4 path is preferred to an IPv6 one only when at least 2000 ms faster, an IPv6 path to an IPv4 one only when at most 2000 ms slower, and within a family the fastest |

## Left out

- Session.AnnouncedAddressesAreProven: an identity counts as one of an address when the identity parser says so; for 64-byte keys that parser takes the address as written (`src/identity.rs`), which is not modelled further.
- Session.HonestHolderAnswered: is about keys whose holders sign nothing but answers for their own address.
- Session.OneOpenConnectionPerRemote: stable ids of connections are fresh, as quinn hands them out; dialling and accepting are one action, so the dial lock and the wait for acceptance do not appear. Of the locks only the one on the connection table is held over several steps, by a replacement.
- Addressing.OpaqueIp: the hash is any function of the pool, the network, the member and the counter.
- Addressing.NextFreeIpv6: a pool that spans all of IPv6 is excluded by the type `Pools`, because the remainder at `src/controller.rs:677` divides by zero there.
- ControllerRuns.AddressesStayDisjointExactly: payloads do not set `ipAssignments`, and each operation is one step although the code awaits between reading and storing. The condition on pools is on the addresses they may hold; one larger pool that holds a derived address collides if the hash leads there (`LookalikePoolCollides`).
- Controller.EmbeddedController.SaveMember: a list in a payload holds addresses; text that is no address is not modelled, nor are names, tags, times, payloads that do not deserialize and file errors.
- Controller.EmbeddedController.SaveNetwork: the random id is the parameter `generated`, unused so far; names, routes, MTU, rules, payloads that do not deserialize and file errors are not modelled.
- WorldRoundTrip.TooManyRootsAreLost: says nothing of signing keys whose first two bytes are a number no less than the count of roots and whose next five are the first root's address; a suitable signature could complete that misread.
- WorldRoundTrip.LegacyRoundTripExactly: the converse is not stated for worlds that look canonical (at most 16 roots, a 96-byte signature, endpoints in the parser's spelling), which a misread could happen to return.
- TokenRuns.HeldTokenBoundary: one client and one controller, with a clock that does not run backwards and stays far below 2^64; requests may be lost but not duplicated.
- TokenRuns.RevocationPropagates: an authorization that lapses and returns within the run is not revoked; tokens are then issued again.
- NetworkRuns.ConnectedIsNeverDisconnected: a writer is one read and one later store; files are written whole.
- NetworkRuns.RestartRestores: needs the file names that the daemon itself writes (`MisnamedConfRevives` shows why).
- AdapterRuns.AdapterMatchesStatus: one network, config over QUIC only; prefix lengths, MTU and failing adapter commands are not modelled, and the UDP config packet, which changes the record but not the adapter, does not occur in these runs.
- SyncRuns.EveryFileIsTraced: writes and copies happen whole or not at all, and file names contain no path separators.
- SyncProvider.SyncProviderClient.ExecuteSync: the roots injected into the peer table, the HTTP requests and the error texts are not modelled.
- L2Switch.Switch.OnDatagram: the throttle of last-seen updates is left out; its memory is recreated for every event, so it never throttles.
- SessionOutcomes.ServedExactly: serving is the lookup under the bound address; that a node which is no controller ignores the request is in `OnNetworkConfigRequest`.
- Peers.EveryPeerIsGood: the "ip/port" text of a path is the number it denotes, and identities of peers are an abstract type.
- Cryptography, JSON, base64, UTF-8 decoding and text parsing are parameters with stated laws.
- Sockets, quinn, tokio scheduling, the TUN device and the commands that configure it.
- The packet header codec, the configuration files, the DNS resolver, the CLI, the HTTP routes and their authentication.
- The UDP transport apart from its config writer, NAT traversal, and the user interface.
