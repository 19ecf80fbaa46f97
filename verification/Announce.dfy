/** Proof of possession: the challenge material, the checks on a proof, and the one-address-per-remote rule. */
module Announce {
  import opened Wrappers
  import opened BigEndian
  import opened WorldParser

  /** Socket addresses of remotes, and quinn's stable connection ids. */
  type Remote = nat
  type ConnId = nat

  datatype Identity = Identity(address: Text, key: Bytes)

  /** Identity parsing, hex decoding and Ed25519, as routines of the environment. */
  datatype Crypto = Crypto(
    parse: Text -> Option<Identity>,
    decodeSignature: Text -> Option<Octets64>,
    verify: (Bytes, Bytes, Octets64) -> bool)

  datatype Proof = Proof(nonce: u64, address: Text, signature: Text, identity: Text)

  /** "ZG1", the nonce in eight bytes, and the address. */
  function ChallengeMaterial(nonce: u64, address: Text): Bytes {
    PowValues();
    [90, 71, 49] + ToBytes(nonce, 8) + address
  }

  lemma ChallengeMaterialLayout(nonce: u64, address: Text)
    ensures var m := ChallengeMaterial(nonce, address);
      && |m| == 11 + |address| && m[..3] == [90, 71, 49] && FromBytes(m[3..11]) == nonce && m[11..] == address
  {
    hide ToBytes, FromBytes;
    PowValues();
    DecodeEncode(nonce, 8);
    assert ChallengeMaterial(nonce, address)[3..11] == ToBytes(nonce, 8);
  }

  /** A signature over one challenge says nothing about any other. */
  lemma ChallengeMaterialIsInjective(n1: u64, a1: Text, n2: u64, a2: Text)
    ensures ChallengeMaterial(n1, a1) == ChallengeMaterial(n2, a2) <==> n1 == n2 && a1 == a2
  {
    hide ToBytes, FromBytes;
    PowValues();
    var m1, m2 := ChallengeMaterial(n1, a1), ChallengeMaterial(n2, a2);
    if m1 == m2 {
      assert ToBytes(n1, 8) == m1[3..11] == m2[3..11] == ToBytes(n2, 8);
      DecodeEncode(n1, 8);
      DecodeEncode(n2, 8);
      assert a1 == m1[11..] == m2[11..] == a2;
    }
  }

  /** The proof is for the outstanding challenge and is signed by the identity it names. */
  predicate IsValidProof(crypto: Crypto, pending: map<Remote, (u64, Text)>, remote: Remote, p: Proof) {
    && remote in pending && pending[remote] == (p.nonce, p.address)
    && IsSigned(crypto, p)
  }

  predicate IsSigned(crypto: Crypto, p: Proof) {
    var identity := crypto.parse(p.identity);
    var signature := crypto.decodeSignature(p.signature);
    && identity.Some? && identity.value.address == p.address
    && signature.Some?
    && crypto.verify(identity.value.key, ChallengeMaterial(p.nonce, p.address), signature.value)
  }

  predicate IsHexDigit(c: byte) {
    48 <= c <= 57 || 65 <= c <= 70 || 97 <= c <= 102
  }

  predicate IsNodeAddress(address: Text) {
    |address| == 10 && forall i :: 0 <= i < 10 ==> IsHexDigit(address[i])
  }

  /** A remote keeps the one address it has been bound to. */
  predicate MayRemember(announced: map<Remote, Text>, remote: Remote, address: Text) {
    IsNodeAddress(address) && (remote in announced ==> announced[remote] == address)
  }

  function Remembered(announced: map<Remote, Text>, remote: Remote, address: Text): map<Remote, Text> {
    if MayRemember(announced, remote, address) then announced[remote := address] else announced
  }

  /** The identity tables of the transport, changed by one task at a time. */
  class IdentityTables {
    var announced: map<Remote, Text>
    var pendingChallenges: map<Remote, (u64, Text)>
    var accepted: map<Remote, Text>

    constructor ()
      ensures announced == map[] && pendingChallenges == map[] && accepted == map[]
    {
      announced, pendingChallenges, accepted := map[], map[], map[];
    }

    method ChallengeAnnounce(remote: Remote, address: Text, nonce: u64)
      modifies `pendingChallenges
      ensures pendingChallenges == old(pendingChallenges)[remote := (nonce, address)]
    {
      pendingChallenges := pendingChallenges[remote := (nonce, address)];
    }

    method RememberAnnounce(remote: Remote, address: Text) returns (ok: bool)
      modifies `announced
      ensures ok == MayRemember(old(announced), remote, address)
      ensures announced == Remembered(old(announced), remote, address)
    {
      if |address| != 10 || exists i :: 0 <= i < |address| && !IsHexDigit(address[i]) {
        return false;
      }
      if remote in announced {
        if announced[remote] != address {
          return false;
        }
        assert announced == announced[remote := address];
        return true;
      }
      announced := announced[remote := address];
      ok := true;
    }

    /** A valid proof uses up its challenge; it binds the remote unless that is bound to another address. */
    method VerifyAnnounceProof(crypto: Crypto, remote: Remote, p: Proof) returns (ok: bool)
      modifies `announced, `pendingChallenges
      ensures ok == (IsValidProof(crypto, old(pendingChallenges), remote, p)
                     && MayRemember(old(announced), remote, p.address))
      ensures pendingChallenges == if IsValidProof(crypto, old(pendingChallenges), remote, p)
                                   then old(pendingChallenges) - {remote} else old(pendingChallenges)
      ensures announced == if ok then old(announced)[remote := p.address] else old(announced)
    {
      if remote !in pendingChallenges {
        return false;
      }
      var (expectedNonce, expectedAddress) := pendingChallenges[remote];
      if expectedNonce != p.nonce || expectedAddress != p.address {
        return false;
      }
      var identity := crypto.parse(p.identity);
      if identity == None {
        return false;
      }
      if identity.value.address != p.address {
        return false;
      }
      var signature := crypto.decodeSignature(p.signature);
      if signature == None {
        return false;
      }
      if !crypto.verify(identity.value.key, ChallengeMaterial(p.nonce, p.address), signature.value) {
        return false;
      }
      pendingChallenges := pendingChallenges - {remote};
      ok := RememberAnnounce(remote, p.address);
    }

    method RecordAccepted(remote: Remote, address: Text)
      modifies `accepted
      ensures accepted == old(accepted)[remote := address]
    {
      accepted := accepted[remote := address];
    }
  }
}
