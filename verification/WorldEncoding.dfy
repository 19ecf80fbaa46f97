/** The two encoders of a world: the legacy layout and the signed canonical ZeroTier layout. */
module WorldEncoding {
  import opened Wrappers
  import opened BigEndian
  import opened WorldParser

  /** Type, id and timestamp open both layouts. */
  function Header(w: World): (h: Bytes)
    ensures |h| == 17
  {
    PowValues();
    [w.worldType] + ToBytes(w.id, 8) + ToBytes(w.timestamp, 8)
  }

  // ----- Legacy layout --------------------------------------------------------------------------

  function LegacyEndpointsBytes(endpoints: seq<Text>): Bytes {
    if endpoints == [] then []
    else [|endpoints[0]| % 256] + endpoints[0] + LegacyEndpointsBytes(endpoints[1..])
  }

  function LegacyRootBytes(root: Root): Bytes {
    PowValues();
    root.identity + ToBytes(|root.endpoints| % 0x1_0000, 2) + LegacyEndpointsBytes(root.endpoints)
  }

  function LegacyRootsBytes(roots: seq<Root>): Bytes {
    if roots == [] then [] else LegacyRootBytes(roots[0]) + LegacyRootsBytes(roots[1..])
  }

  function SignatureBytes(signature: Bytes): Bytes {
    PowValues();
    ToBytes(|signature| % 0x1_0000_0000, 4) + signature
  }

  function LegacyBytes(w: World): Bytes {
    PowValues();
    Header(w) + ToBytes(|w.roots| % 0x1_0000, 2) + LegacyRootsBytes(w.roots) + SignatureBytes(w.signature)
  }

  method EncodeLegacyRoot(root: Root, prefix: Bytes) returns (data: Bytes)
    ensures data == prefix + LegacyRootBytes(root)
  {
    PowValues();
    data := root.identity + ToBytes(|root.endpoints| % 0x1_0000, 2);
    ghost var whole := LegacyRootBytes(root);
    assert root.endpoints[0..] == root.endpoints;
    for i := 0 to |root.endpoints|
      invariant whole == data + LegacyEndpointsBytes(root.endpoints[i..])
    {
      var ep := root.endpoints[i];
      assert root.endpoints[i..][1..] == root.endpoints[i + 1..];
      Nest3([|ep| % 256], ep, LegacyEndpointsBytes(root.endpoints[i + 1..]));
      Nest4(data, [|ep| % 256], ep, LegacyEndpointsBytes(root.endpoints[i + 1..]));
      data := data + [|ep| % 256];
      data := data + ep;
    }
    assert data + [] == data;
    data := prefix + data;
  }

  method Encode(w: World) returns (data: Bytes)
    ensures data == LegacyBytes(w)
  {
    PowValues();
    data := [w.worldType];
    data := data + ToBytes(w.id, 8);
    data := data + ToBytes(w.timestamp, 8);
    data := data + ToBytes(|w.roots| % 0x1_0000, 2);
    ghost var whole := data + LegacyRootsBytes(w.roots);
    assert w.roots[0..] == w.roots;
    for i := 0 to |w.roots|
      invariant whole == data + LegacyRootsBytes(w.roots[i..])
    {
      assert w.roots[i..][1..] == w.roots[i + 1..];
      Nest3(data, LegacyRootBytes(w.roots[i]), LegacyRootsBytes(w.roots[i + 1..]));
      data := EncodeLegacyRoot(w.roots[i], data);
    }
    assert data + [] == data;
    ghost var roots := data;
    data := data + ToBytes(|w.signature| % 0x1_0000_0000, 4);
    data := data + w.signature;
    Nest3(roots, ToBytes(|w.signature| % 0x1_0000_0000, 4), w.signature);
  }

  // ----- Canonical layout -----------------------------------------------------------------------

  /** `rsplit_once('/')` */
  function SplitAtLastSlash(t: Text): (r: Option<(Text, Text)>)
    ensures r.Some? ==> t == r.value.0 + [SLASH] + r.value.1 && SLASH !in r.value.1
    ensures r == None ==> SLASH !in t
  {
    if t == [] then None
    else
      var (init, last) := (t[..|t| - 1], t[|t| - 1]);
      assert t == init + [last];
      if last == SLASH then Some((init, []))
      else
        match SplitAtLastSlash(init)
        case None => None
        case Some((host, port)) => Some((host, port + [last]))
  }

  function TrimOpen(t: Text): Text {
    if t != [] && t[0] == OPEN then TrimOpen(t[1..]) else t
  }

  function TrimClose(t: Text): Text {
    if t != [] && t[|t| - 1] == CLOSE then TrimClose(t[..|t| - 1]) else t
  }

  /** A whole InetAddress record. */
  predicate IsRecord(b: Bytes) {
    || (|b| == 7 && b[0] == 4)
    || (|b| == 19 && b[0] == 6)
  }

  /** The record of an "ip/port" text; hostnames have none. */
  function EndpointBytes(std: Std, endpoint: Text): (r: Option<Bytes>)
    ensures r.Some? ==> IsRecord(r.value)
  {
    PowValues();
    match SplitAtLastSlash(std.trim(endpoint))
    case None => None
    case Some((host, portText)) =>
      match std.parsePort(portText)
      case None => None
      case Some(port) =>
        match std.parseV4(host)
        case Some(o) => Some([4] + o + ToBytes(port, 2))
        case None =>
          match std.parseV6(TrimClose(TrimOpen(host)))
          case Some(o) => Some([6] + o + ToBytes(port, 2))
          case None => None
  }

  /** The records of those endpoints that have one, in order. */
  function Records(std: Std, endpoints: seq<Text>): (r: seq<Bytes>)
    ensures |r| <= |endpoints|
    ensures forall b :: b in r ==> IsRecord(b)
  {
    if endpoints == [] then []
    else (match EndpointBytes(std, endpoints[0]) case Some(b) => [b] case None => []) + Records(std, endpoints[1..])
  }

  function Flatten(chunks: seq<Bytes>): Bytes {
    if chunks == [] then [] else chunks[0] + Flatten(chunks[1..])
  }

  function KeySet(key: Option<Octets32>): (r: Octets64)
  {
    (match key case Some(k) => k case None => seq(32, i => 0)) + seq(32, i => 0)
  }

  function KeyFor(keys: seq<Option<Octets32>>, i: nat): Option<Octets32> {
    if i < |keys| then keys[i] else None
  }

  function CanonicalRootBytes(std: Std, root: Root, key: Option<Octets32>): Bytes {
    var records := Records(std, root.endpoints);
    root.identity + [0] + KeySet(key) + [|records| % 256] + Flatten(records)
  }

  function CanonicalRootsBytes(std: Std, roots: seq<Root>, keys: seq<Option<Octets32>>, i: nat): Bytes
    requires i <= |roots|
    decreases |roots| - i
  {
    if i == |roots| then []
    else CanonicalRootBytes(std, roots[i], KeyFor(keys, i)) + CanonicalRootsBytes(std, roots, keys, i + 1)
  }

  /** The signing identity: its public key, and a signing routine that fails when it has no secret key. */
  datatype Signer = Signer(publicKey: Octets32, sign: Bytes -> Option<Octets64>)

  /** Everything that follows the signature. */
  function CanonicalTail(std: Std, w: World, keys: seq<Option<Octets32>>): Bytes {
    [|w.roots| % 256] + CanonicalRootsBytes(std, w.roots, keys, 0) + [0, 0]
  }

  function SignedPayload(std: Std, w: World, signer: Signer, keys: seq<Option<Octets32>>): Bytes {
    seq(8, i => 0x7f) + (Header(w) + KeySet(Some(signer.publicKey)) + CanonicalTail(std, w, keys)) + seq(8, i => 0xf7)
  }

  /** The composite signature: 64 bytes over the payload, then the signer's public key. */
  function Signature(std: Std, w: World, signer: Signer, keys: seq<Option<Octets32>>): (r: Option<Bytes>)
    ensures r.Some? ==> |r.value| == 96
  {
    match signer.sign(SignedPayload(std, w, signer, keys))
    case Some(s) => Some(s + signer.publicKey)
    case None => None
  }

  function CanonicalBytes(std: Std, w: World, signer: Signer, keys: seq<Option<Octets32>>): Result<Bytes> {
    match Signature(std, w, signer, keys)
    case Some(s) => Ok(Header(w) + KeySet(Some(signer.publicKey)) + s + CanonicalTail(std, w, keys))
    case None => Err
  }

  method EncodeCanonicalRoot(std: Std, root: Root, key: Option<Octets32>, prefix: Bytes) returns (data: Bytes)
    ensures data == prefix + CanonicalRootBytes(std, root, key)
  {
    var endpoints := CollectRecords(std, root.endpoints);
    data := root.identity + [0];
    data := data + KeySet(key);
    data := data + [|endpoints| % 256];
    data := AppendAll(data, endpoints);
    data := prefix + data;
  }

  method EncodeCanonicalRoots(std: Std, roots: seq<Root>, keys: seq<Option<Octets32>>) returns (data: Bytes)
    ensures data == [|roots| % 256] + CanonicalRootsBytes(std, roots, keys, 0)
  {
    data := [|roots| % 256];
    ghost var whole := data + CanonicalRootsBytes(std, roots, keys, 0);
    for i := 0 to |roots|
      invariant whole == data + CanonicalRootsBytes(std, roots, keys, i)
    {
      Nest3(data, CanonicalRootBytes(std, roots[i], KeyFor(keys, i)), CanonicalRootsBytes(std, roots, keys, i + 1));
      data := EncodeCanonicalRoot(std, roots[i], KeyFor(keys, i), data);
    }
    assert data + [] == data;
  }

  method CollectRecords(std: Std, endpoints: seq<Text>) returns (records: seq<Bytes>)
    ensures records == Records(std, endpoints)
  {
    records := [];
    ghost var whole := Records(std, endpoints);
    assert endpoints[0..] == endpoints;
    for i := 0 to |endpoints|
      invariant whole == records + Records(std, endpoints[i..])
    {
      assert endpoints[i..][1..] == endpoints[i + 1..];
      var r := EndpointBytes(std, endpoints[i]);
      var found := if r.Some? then [r.value] else [];
      Nest3(records, found, Records(std, endpoints[i + 1..]));
      records := records + found;
    }
    assert records + [] == records;
  }

  method AppendAll(prefix: Bytes, chunks: seq<Bytes>) returns (data: Bytes)
    ensures data == prefix + Flatten(chunks)
  {
    data := prefix;
    for i := 0 to |chunks|
      invariant data + Flatten(chunks[i..]) == prefix + Flatten(chunks)
    {
      assert chunks[i..][1..] == chunks[i + 1..];
      data := data + chunks[i];
    }
  }

  method EncodeCanonical(std: Std, w: World, signer: Signer, keys: seq<Option<Octets32>>)
    returns (r: Result<Bytes>)
    ensures r == CanonicalBytes(std, w, signer, keys)
    ensures r.Ok? ==>
      && |r.value| >= 177 && r.value[145..177] == signer.publicKey
      && signer.sign(seq(8, i => 0x7f) + (r.value[..81] + r.value[177..]) + seq(8, i => 0xf7)) == Some(r.value[81..145])
  {
    PowValues();
    var body: Bytes := [w.worldType];
    body := body + ToBytes(w.id, 8);
    body := body + ToBytes(w.timestamp, 8);
    body := body + KeySet(Some(signer.publicKey));
    var rootBytes := EncodeCanonicalRoots(std, w.roots, keys);
    body := body + rootBytes;
    body := body + [0, 0];
    ghost var front := Header(w) + KeySet(Some(signer.publicKey));
    assert body == front + CanonicalTail(std, w, keys);

    var payload: Bytes := seq(8, i => 0x7f) + body + seq(8, i => 0xf7);
    var signed := signer.sign(payload);
    if signed == None {
      return Err;
    }
    var signature := signed.value + signer.publicKey;
    assert body[..81] == front && body[81..] == CanonicalTail(std, w, keys);
    var data := body[..81] + signature + body[81..];
    assert data[..81] == body[..81] && data[177..] == body[81..] && data[..81] + data[177..] == body;
    assert data[81..177] == signature && data[81..145] == signed.value && data[145..177] == signer.publicKey;
    r := Ok(data);
  }
}
