/** What the parser makes of each encoder's output, and exactly when that is the world that went in. */
module WorldRoundTrip {
  import opened Wrappers
  import opened BigEndian
  import opened WorldParser
  import opened WorldEncoding

  /** `chunk` lies in `data` at `cursor`. */
  predicate At(data: Bytes, cursor: nat, chunk: Bytes) {
    cursor + |chunk| <= |data| && data[cursor..cursor + |chunk|] == chunk
  }

  lemma AtSplit(data: Bytes, cursor: nat, a: Bytes, b: Bytes)
    requires At(data, cursor, a + b)
    ensures At(data, cursor, a)
    ensures At(data, cursor + |a|, b)
    ensures cursor + |a| + |b| <= |data|
  {
    var c := data[cursor..cursor + |a + b|];
    assert c[..|a|] == a && c[|a|..] == b;
    assert c[..|a|] == data[cursor..cursor + |a|];
    assert c[|a|..] == data[cursor + |a|..cursor + |a| + |b|];
  }

  // ----- Canonical layout -----------------------------------------------------------------------

  /** The text the parser gives a record. */
  function Shown(record: Bytes): Text
    requires IsRecord(record)
  {
    PowValues();
    if record[0] == 4 then ShowV4(record[1..5], FromBytes(record[5..7]))
    else ShowV6(record[1..17], FromBytes(record[17..19]))
  }

  function ShownAll(records: seq<Bytes>): seq<Text>
    requires forall b :: b in records ==> IsRecord(b)
  {
    if records == [] then [] else [Shown(records[0])] + ShownAll(records[1..])
  }

  /** A root without the hostnames among its endpoints and with the rest in the parser's spelling. */
  function NormalRoot(std: Std, root: Root): (r: Root)
    ensures r.identity == root.identity
  {
    Root(root.identity, ShownAll(Records(std, root.endpoints)))
  }

  function NormalRoots(std: Std, roots: seq<Root>): seq<Root> {
    seq(|roots|, i requires 0 <= i < |roots| => NormalRoot(std, roots[i]))
  }

  predicate FitsCanonical(std: Std, w: World) {
    && |w.roots| <= 16
    && forall i :: 0 <= i < |w.roots| ==> |Records(std, w.roots[i].endpoints)| <= 255
  }

  lemma ReadRecord(data: Bytes, cursor: nat, record: Bytes)
    requires IsRecord(record) && At(data, cursor, record)
    ensures EndpointAt(data, cursor) == (Some(Shown(record)), cursor + |record|)
  {
    var slice := data[cursor..cursor + |record|];
    assert slice[0] == data[cursor];
    if record[0] == 4 {
      assert |record| == 7;
      assert slice[1..5] == data[cursor + 1..cursor + 5];
      assert slice[5..7] == data[cursor + 5..cursor + 7];
    } else {
      assert |record| == 19;
      assert slice[1..17] == data[cursor + 1..cursor + 17];
      assert slice[17..19] == data[cursor + 17..cursor + 19];
    }
  }

  lemma {:induction false} ReadRecords(data: Bytes, cursor: nat, records: seq<Bytes>)
    requires forall b :: b in records ==> IsRecord(b)
    requires At(data, cursor, Flatten(records))
    ensures CanonicalEndpoints(data, cursor, |records|) == (ShownAll(records), cursor + |Flatten(records)|)
    decreases |records|
  {
    hide ShowV4, ShowV6;
    if records != [] {
      AtSplit(data, cursor, records[0], Flatten(records[1..]));
      ReadRecord(data, cursor, records[0]);
      ReadRecords(data, cursor + |records[0]|, records[1..]);
    }
  }

  lemma ReadCanonicalRoot(std: Std, data: Bytes, cursor: nat, root: Root, key: Option<Octets32>)
    requires |Records(std, root.endpoints)| <= 255
    requires At(data, cursor, CanonicalRootBytes(std, root, key))
    ensures data[cursor..cursor + 5] == root.identity
    ensures RootTail(std, data, true, cursor + 5)
         == (NormalRoot(std, root).endpoints, cursor + |CanonicalRootBytes(std, root, key)|)
  {
    hide Shown, ShownAll, Records, CanonicalEndpoints, Flatten;
    var records := Records(std, root.endpoints);
    var keyBlock := [0] + KeySet(key);
    Nest3(root.identity, [0], KeySet(key));
    Nest4(root.identity, keyBlock, [|records|], Flatten(records));
    AtSplit(data, cursor, root.identity, keyBlock + ([|records|] + Flatten(records)));
    AtSplit(data, cursor + 5, keyBlock, [|records|] + Flatten(records));
    AtSplit(data, cursor + 70, [|records|], Flatten(records));
    assert data[cursor + 70..cursor + 71][0] == |records|;
    ReadRecords(data, cursor + 71, records);
  }

  lemma {:induction false} ReadCanonicalRoots(std: Std, data: Bytes, cursor: nat, roots: seq<Root>,
                                              keys: seq<Option<Octets32>>, i: nat)
    requires i <= |roots|
    requires forall k :: 0 <= k < |roots| ==> |Records(std, roots[k].endpoints)| <= 255
    requires At(data, cursor, CanonicalRootsBytes(std, roots, keys, i))
    ensures Roots(std, data, true, cursor, |roots| - i).0 == NormalRoots(std, roots)[i..]
    decreases |roots| - i
  {
    hide CanonicalRootBytes, RootTail, ShownAll, Records;
    if i < |roots| {
      var chunk := CanonicalRootBytes(std, roots[i], KeyFor(keys, i));
      AtSplit(data, cursor, chunk, CanonicalRootsBytes(std, roots, keys, i + 1));
      ReadCanonicalRoot(std, data, cursor, roots[i], KeyFor(keys, i));
      ReadCanonicalRoots(std, data, cursor + |chunk|, roots, keys, i + 1);
      assert NormalRoots(std, roots)[i..] == [NormalRoot(std, roots[i])] + NormalRoots(std, roots)[i + 1..];
    }
  }

  /** Where things are in a canonical encoding. */
  lemma CanonicalLayout(std: Std, w: World, signer: Signer, keys: seq<Option<Octets32>>)
    requires CanonicalBytes(std, w, signer, keys).Ok?
    ensures var data := CanonicalBytes(std, w, signer, keys).value;
      && |data| >= 180
      && data[..17] == Header(w)
      && data[17..49] == signer.publicKey
      && data[81..177] == Signature(std, w, signer, keys).value
      && data[177] == |w.roots| % 256
      && At(data, 178, CanonicalRootsBytes(std, w.roots, keys, 0))
  {
    var data := CanonicalBytes(std, w, signer, keys).value;
    var h, k, s := Header(w), KeySet(Some(signer.publicKey)), Signature(std, w, signer, keys).value;
    var roots := CanonicalRootsBytes(std, w.roots, keys, 0);
    assert |h + k + s| == 177;
    assert data == h + k + s + ([|w.roots| % 256] + roots + [0, 0]);
    assert data[178..178 + |roots|] == roots;
    assert data[17..49] == k[..32];
  }

  lemma HeaderFields(w: World, data: Bytes)
    requires |data| >= 17 && data[..17] == Header(w)
    ensures data[0] == w.worldType
    ensures FromBytes(data[1..9]) == w.id
    ensures FromBytes(data[9..17]) == w.timestamp
  {
    PowValues();
    var h := Header(w);
    assert data[1..9] == h[1..9] == ToBytes(w.id, 8);
    assert data[9..17] == h[9..17] == ToBytes(w.timestamp, 8);
    DecodeEncode(w.id, 8);
    DecodeEncode(w.timestamp, 8);
  }

  /** Canonical round trip: everything survives except the endpoints' spelling and the hostnames among them. */
  lemma CanonicalRoundTrip(std: Std, w: World, signer: Signer, keys: seq<Option<Octets32>>)
    requires FitsCanonical(std, w) && CanonicalBytes(std, w, signer, keys).Ok?
    ensures Parse(std, CanonicalBytes(std, w, signer, keys).value)
         == Ok(w.(roots := NormalRoots(std, w.roots), signature := Signature(std, w, signer, keys).value))
  {
    hide Roots, CanonicalRootsBytes, NormalRoots, Header, Signature, CanonicalBytes;
    var data := CanonicalBytes(std, w, signer, keys).value;
    CanonicalLayout(std, w, signer, keys);
    HeaderFields(w, data);
    ReadCanonicalRoots(std, data, 178, w.roots, keys, 0);
  }

  lemma KeyInHeader(data: Bytes, key: Octets32)
    requires |data| >= 49 && data[17..49] == key
    ensures data[17..19] == key[..2] && data[19..24] == key[2..7]
  {
    var k := data[17..49];
    assert data[17..19] == k[..2];
    assert data[19..24] == k[2..7];
  }

  /** The key bytes that a misread takes for the count and the first address would be just those of this world. */
  predicate KeyMimics(w: World, key: Octets32)
    requires w.roots != []
  {
    FromBytes(key[..2]) >= |w.roots| && key[2..7] == w.roots[0].identity
  }

  /**
   * The bound of 16 roots is needed. A count byte of at most 16 loses roots; past that the layout is taken for the
   * legacy one, and roots come out wrong for every signing key but one that begins like the world itself.
   */
  lemma TooManyRootsAreLost(std: Std, w: World, signer: Signer, keys: seq<Option<Octets32>>)
    requires |w.roots| > 16 && CanonicalBytes(std, w, signer, keys).Ok?
    ensures |w.roots| % 256 <= 16 || !KeyMimics(w, signer.publicKey) ==>
      Parse(std, CanonicalBytes(std, w, signer, keys).value).value.roots != NormalRoots(std, w.roots)
    ensures |Parse(std, CanonicalBytes(std, w, signer, keys).value).value.roots|
         <= if |w.roots| % 256 <= 16 then |w.roots| % 256 else FromBytes(signer.publicKey[..2])
  {
    hide CanonicalBytes, RootTail, NormalRoot;
    var data := CanonicalBytes(std, w, signer, keys).value;
    CanonicalLayout(std, w, signer, keys);
    if |w.roots| % 256 > 16 {
      KeyInHeader(data, signer.publicKey);
      assert NormalRoots(std, w.roots)[0].identity == w.roots[0].identity;
    }
  }

  // ----- The normal form ------------------------------------------------------------------------

  lemma SplitShown(host: Text, port: u16)
    ensures SplitAtLastSlash(host + [SLASH] + Decimal(port)) == Some((host, Decimal(port)))
  {
    SplitUnique(host, Decimal(port));
  }

  lemma {:induction false} SplitUnique(host: Text, tail: Text)
    requires SLASH !in tail
    ensures SplitAtLastSlash(host + [SLASH] + tail) == Some((host, tail))
  {
    var t := host + [SLASH] + tail;
    if tail == [] {
      assert t[..|t| - 1] == host;
    } else {
      var tail' := tail[..|tail| - 1];
      SplitUnique(host, tail');
      assert t[..|t| - 1] == host + [SLASH] + tail';
      assert tail == tail' + [tail[|tail| - 1]];
    }
  }

  lemma GroupsAreHex(o: Octets16, i: nat)
    requires i <= 16
    ensures OPEN !in Groups(o, i) && CLOSE !in Groups(o, i)
    ensures i < 16 ==> Groups(o, i) != []
    decreases 16 - i
  {
    if i < 16 {
      GroupsAreHex(o, i + 1);
    }
  }

  lemma TrimBrackets(inner: Text)
    requires inner != [] && OPEN !in inner && CLOSE !in inner
    ensures TrimClose(TrimOpen([OPEN] + inner + [CLOSE])) == inner
  {
    var t := [OPEN] + inner + [CLOSE];
    assert t[1..] == inner + [CLOSE];
    assert (inner + [CLOSE])[0] == inner[0];
    assert TrimOpen(t) == TrimOpen(t[1..]) == inner + [CLOSE];
    assert (inner + [CLOSE])[..|inner|] == inner;
  }

  lemma VisibleEnds(o: Octets4, port: u16)
    ensures 48 <= ShowV4(o, port)[0] <= 57
    ensures 48 <= ShowV4(o, port)[|ShowV4(o, port)| - 1] <= 57
  {
    var t := ShowV4(o, port);
    assert t[0] == Decimal(o[0])[0];
    assert t[|t| - 1] == Decimal(port)[|Decimal(port)| - 1];
  }

  lemma V4EncodesBack(std: Std, o: Octets4, port: u16)
    requires std.Laws()
    ensures Pow256(2) == 0x1_0000
    ensures EndpointBytes(std, ShowV4(o, port)) == Some([4] + o + ToBytes(port, 2))
  {
    hide Decimal, Dotted, TrimOpen, TrimClose, SplitAtLastSlash;
    PowValues();
    VisibleEnds(o, port);
    SplitShown(Dotted(o), port);
    assert std.trim(ShowV4(o, port)) == ShowV4(o, port);
  }

  lemma V6EncodesBack(std: Std, o: Octets16, port: u16)
    requires std.Laws()
    ensures Pow256(2) == 0x1_0000
    ensures EndpointBytes(std, ShowV6(o, port)) == Some([6] + o + ToBytes(port, 2))
  {
    hide Decimal, Groups, TrimOpen, TrimClose, SplitAtLastSlash;
    PowValues();
    var host := [OPEN] + Groups(o, 0) + [CLOSE];
    var t := ShowV6(o, port);
    assert t == host + [SLASH] + Decimal(port);
    SplitShown(host, port);
    GroupsAreHex(o, 0);
    TrimBrackets(Groups(o, 0));
    assert t[|t| - 1] == Decimal(port)[|Decimal(port)| - 1];
    assert std.trim(t) == t;
  }

  /** Encoding the text the parser gave a record returns that record. */
  lemma ShownEncodesBack(std: Std, record: Bytes)
    requires std.Laws() && IsRecord(record)
    ensures EndpointBytes(std, Shown(record)) == Some(record)
  {
    hide EndpointBytes, ShowV4, ShowV6, FromBytes, ToBytes;
    PowValues();
    if record[0] == 4 {
      var o, port := record[1..5], record[5..7];
      V4EncodesBack(std, o, FromBytes(port));
      EncodeDecode(port);
      assert record == [4] + o + port;
    } else {
      var o, port := record[1..17], record[17..19];
      V6EncodesBack(std, o, FromBytes(port));
      EncodeDecode(port);
      assert record == [6] + o + port;
    }
  }

  lemma {:induction false} ShownAllEncodesBack(std: Std, records: seq<Bytes>)
    requires std.Laws() && forall b :: b in records ==> IsRecord(b)
    ensures Records(std, ShownAll(records)) == records
  {
    hide Shown, EndpointBytes, IsRecord;
    if records != [] {
      ShownEncodesBack(std, records[0]);
      ShownAllEncodesBack(std, records[1..]);
      assert ShownAll(records)[1..] == ShownAll(records[1..]);
    }
  }

  /** An IPv4 endpoint in the usual spelling is its own normal form, and the normal form of any other is stable. */
  lemma NormalEndpoint(std: Std, endpoint: Text)
    requires std.Laws()
    ensures EndpointBytes(std, endpoint).Some? ==>
      EndpointBytes(std, Shown(EndpointBytes(std, endpoint).value)) == EndpointBytes(std, endpoint)
    ensures forall o: Octets4, p: u16 :: endpoint == ShowV4(o, p) ==>
      EndpointBytes(std, endpoint).Some? && Shown(EndpointBytes(std, endpoint).value) == endpoint
  {
    hide EndpointBytes, ShowV4, ShowV6;
    if EndpointBytes(std, endpoint).Some? {
      ShownEncodesBack(std, EndpointBytes(std, endpoint).value);
    }
    forall o: Octets4, p: u16 | endpoint == ShowV4(o, p)
      ensures EndpointBytes(std, endpoint).Some? && Shown(EndpointBytes(std, endpoint).value) == endpoint
    {
      V4EncodesBack(std, o, p);
      var record := [4] + o + ToBytes(p, 2);
      assert record[1..5] == o && record[5..7] == ToBytes(p, 2);
      DecodeEncode(p, 2);
    }
  }

  /** The normal form is a fixed point: a second trip changes no root, whoever signs it. */
  lemma NormalFormIsStable(std: Std, w: World, signer: Signer, keys: seq<Option<Octets32>>,
                           signer2: Signer, keys2: seq<Option<Octets32>>)
    requires std.Laws() && FitsCanonical(std, w)
    ensures CanonicalBytes(std, w, signer, keys).Ok? ==>
      var once := Parse(std, CanonicalBytes(std, w, signer, keys).value).value;
      CanonicalBytes(std, once, signer2, keys2).Ok? ==>
        Parse(std, CanonicalBytes(std, once, signer2, keys2).value).value
        == once.(signature := Signature(std, once, signer2, keys2).value)
  {
    hide Parse, CanonicalBytes, Signature, Records, ShownAll;
    if CanonicalBytes(std, w, signer, keys).Ok? {
      CanonicalRoundTrip(std, w, signer, keys);
      var once := Parse(std, CanonicalBytes(std, w, signer, keys).value).value;
      forall i | 0 <= i < |once.roots|
        ensures NormalRoot(std, once.roots[i]) == once.roots[i]
        ensures |Records(std, once.roots[i].endpoints)| <= 255
      {
        ShownAllEncodesBack(std, Records(std, w.roots[i].endpoints));
      }
      assert NormalRoots(std, once.roots) == once.roots;
      if CanonicalBytes(std, once, signer2, keys2).Ok? {
        CanonicalRoundTrip(std, once, signer2, keys2);
      }
    }
  }

  // ----- Legacy layout --------------------------------------------------------------------------

  function NonEmpty(endpoints: seq<Text>): seq<Text> {
    if endpoints == [] then []
    else (if |endpoints[0]| > 0 then [endpoints[0]] else []) + NonEmpty(endpoints[1..])
  }

  function DropEmpty(roots: seq<Root>): seq<Root> {
    seq(|roots|, i requires 0 <= i < |roots| => Root(roots[i].identity, NonEmpty(roots[i].endpoints)))
  }

  /** The length fits its byte; a Rust string is UTF-8, which the lossy decoder leaves alone. */
  predicate TextFits(std: Std, ep: Text) {
    |ep| <= 255 && std.lossy(ep) == ep
  }

  predicate AllFit(std: Std, endpoints: seq<Text>) {
    forall i :: 0 <= i < |endpoints| ==> TextFits(std, endpoints[i])
  }

  predicate EndpointsFit(std: Std, endpoints: seq<Text>) {
    && |endpoints| < 0x1_0000
    && AllFit(std, endpoints)
  }

  predicate FitsLegacy(std: Std, w: World) {
    && |w.roots| < 0x1_0000 && |w.signature| < 0x1_0000_0000
    && forall i :: 0 <= i < |w.roots| ==> EndpointsFit(std, w.roots[i].endpoints)
  }

  predicate NoEmptyEndpoint(w: World) {
    forall i :: 0 <= i < |w.roots| ==> [] !in w.roots[i].endpoints
  }

  lemma ReadLegacyEndpoint(std: Std, data: Bytes, cursor: nat, n: nat, ep: Text)
    requires n > 0 && TextFits(std, ep)
    requires At(data, cursor, [|ep|] + ep)
    ensures LegacyEndpoints(std, data, cursor, n)
         == Prepend(if |ep| > 0 then [ep] else [], LegacyEndpoints(std, data, cursor + 1 + |ep|, n - 1))
  {
    AtSplit(data, cursor, [|ep|], ep);
    assert data[cursor..cursor + 1][0] == |ep|;
  }

  lemma {:induction false} ReadLegacyEndpoints(std: Std, data: Bytes, cursor: nat, endpoints: seq<Text>)
    requires AllFit(std, endpoints)
    requires At(data, cursor, LegacyEndpointsBytes(endpoints))
    ensures LegacyEndpoints(std, data, cursor, |endpoints|)
         == (NonEmpty(endpoints), cursor + |LegacyEndpointsBytes(endpoints)|)
    decreases |endpoints|
  {
    hide *;
    if endpoints == [] {
      ReadNoEndpoints(std, data, cursor, endpoints);
    } else {
      FitTail(std, endpoints);
      Unfold(endpoints);
      var ep, rest := endpoints[0], LegacyEndpointsBytes(endpoints[1..]);
      AtSplit(data, cursor, [|ep|] + ep, rest);
      ReadLegacyEndpoint(std, data, cursor, |endpoints|, ep);
      ReadLegacyEndpoints(std, data, cursor + 1 + |ep|, endpoints[1..]);
      PrependFound(NonEmpty(endpoints[1..]), cursor + |LegacyEndpointsBytes(endpoints)|, ep);
    }
  }

  lemma ReadNoEndpoints(std: Std, data: Bytes, cursor: nat, endpoints: seq<Text>)
    requires endpoints == [] && At(data, cursor, LegacyEndpointsBytes(endpoints))
    ensures LegacyEndpointsBytes(endpoints) == [] && NonEmpty(endpoints) == []
    ensures LegacyEndpoints(std, data, cursor, 0) == ([], cursor)
  {
  }

  lemma PrependFound(rest: seq<Text>, end: nat, ep: Text)
    ensures Prepend(if |ep| > 0 then [ep] else [], (rest, end)) == ((if |ep| > 0 then [ep] else []) + rest, end)
  {
  }

  lemma Unfold(endpoints: seq<Text>)
    requires endpoints != [] && |endpoints[0]| <= 255
    ensures LegacyEndpointsBytes(endpoints) == [|endpoints[0]|] + endpoints[0] + LegacyEndpointsBytes(endpoints[1..])
    ensures NonEmpty(endpoints) == (if |endpoints[0]| > 0 then [endpoints[0]] else []) + NonEmpty(endpoints[1..])
  {
  }

  lemma FitTail(std: Std, endpoints: seq<Text>)
    requires endpoints != [] && AllFit(std, endpoints)
    ensures |endpoints[0]| <= 255 && TextFits(std, endpoints[0]) && AllFit(std, endpoints[1..])
  {
  }

  lemma ReadLegacyRoot(std: Std, data: Bytes, cursor: nat, root: Root)
    requires EndpointsFit(std, root.endpoints)
    requires At(data, cursor, LegacyRootBytes(root))
    ensures data[cursor..cursor + 5] == root.identity
    ensures RootTail(std, data, false, cursor + 5)
         == (NonEmpty(root.endpoints), cursor + |LegacyRootBytes(root)|)
  {
    hide LegacyEndpoints, LegacyEndpointsBytes, NonEmpty, FromBytes, ToBytes;
    PowValues();
    var count := ToBytes(|root.endpoints|, 2);
    var rest := LegacyEndpointsBytes(root.endpoints);
    Nest3(root.identity, count, rest);
    AtSplit(data, cursor, root.identity, count + rest);
    AtSplit(data, cursor + 5, count, rest);
    DecodeEncode(|root.endpoints|, 2);
    ReadLegacyEndpoints(std, data, cursor + 7, root.endpoints);
  }

  lemma {:induction false} ReadLegacyRoots(std: Std, data: Bytes, cursor: nat, roots: seq<Root>)
    requires forall i :: 0 <= i < |roots| ==> EndpointsFit(std, roots[i].endpoints)
    requires At(data, cursor, LegacyRootsBytes(roots))
    ensures Roots(std, data, false, cursor, |roots|) == (DropEmpty(roots), cursor + |LegacyRootsBytes(roots)|)
    decreases |roots|
  {
    hide LegacyRootBytes, RootTail, NonEmpty;
    if roots == [] {
      assert DropEmpty(roots) == [];
    } else {
      AtSplit(data, cursor, LegacyRootBytes(roots[0]), LegacyRootsBytes(roots[1..]));
      ReadLegacyRoot(std, data, cursor, roots[0]);
      ReadLegacyRoots(std, data, cursor + |LegacyRootBytes(roots[0])|, roots[1..]);
      assert DropEmpty(roots) == [Root(roots[0].identity, NonEmpty(roots[0].endpoints))] + DropEmpty(roots[1..]);
    }
  }

  lemma ReadSignature(data: Bytes, cursor: nat, signature: Bytes)
    requires |signature| < 0x1_0000_0000
    requires At(data, cursor, SignatureBytes(signature))
    ensures TrailingSignature(data, cursor) == signature
  {
    hide FromBytes, ToBytes;
    PowValues();
    AtSplit(data, cursor, ToBytes(|signature|, 4), signature);
    DecodeEncode(|signature|, 4);
  }

  /** Where things are in a legacy encoding. */
  lemma LegacyLayout(w: World)
    requires |w.roots| < 0x1_0000
    ensures Pow256(2) == 0x1_0000
    ensures var data, roots := LegacyBytes(w), LegacyRootsBytes(w.roots);
      && |data| >= 19
      && data[..17] == Header(w)
      && data[17..19] == ToBytes(|w.roots|, 2)
      && At(data, 19, roots)
      && At(data, 19 + |roots|, SignatureBytes(w.signature))
  {
    hide LegacyRootsBytes, SignatureBytes, ToBytes;
    PowValues();
    var data := LegacyBytes(w);
    var count, roots, sig := ToBytes(|w.roots|, 2), LegacyRootsBytes(w.roots), SignatureBytes(w.signature);
    Nest4(Header(w), count, roots, sig);
    assert data[0..|data|] == data;
    AtSplit(data, 0, Header(w), count + (roots + sig));
    AtSplit(data, 17, count, roots + sig);
    AtSplit(data, 19, roots, sig);
    assert data[..17] == data[0..17];
  }

  /** Legacy round trip: unless the format test misfires, only empty endpoints are lost. */
  lemma LegacyRoundTrip(std: Std, w: World)
    requires FitsLegacy(std, w) && !Sniffed(LegacyBytes(w))
    ensures Parse(std, LegacyBytes(w)) == Ok(w.(roots := DropEmpty(w.roots)))
  {
    hide Roots, LegacyBytes, LegacyRootsBytes, SignatureBytes, DropEmpty, TrailingSignature, Header, FromBytes, ToBytes,
      At;
    LegacyLayout(w);
    HeaderFields(w, LegacyBytes(w));
    DecodeEncode(|w.roots|, 2);
    ReadLegacyRoots(std, LegacyBytes(w), 19, w.roots);
    ReadSignature(LegacyBytes(w), 19 + |LegacyRootsBytes(w.roots)|, w.signature);
  }

  lemma {:induction false} NonEmptyIsIdentity(endpoints: seq<Text>)
    ensures |NonEmpty(endpoints)| <= |endpoints|
    ensures [] !in NonEmpty(endpoints)
    ensures NonEmpty(endpoints) == endpoints <==> [] !in endpoints
  {
    if endpoints != [] {
      NonEmptyIsIdentity(endpoints[1..]);
    }
  }

  /** The text is as the parser spells some record. */
  ghost predicate IsShown(t: Text) {
    exists record :: IsRecord(record) && t == Shown(record)
  }

  /** What a misread can return: at most 16 roots, endpoints as the parser spells them, a 96-byte signature. */
  ghost predicate LooksCanonical(w: World) {
    |w.roots| <= 16 && |w.signature| == 96 && AreShown(w.roots)
  }

  ghost predicate AreShown(roots: seq<Root>) {
    forall root, t :: root in roots && t in root.endpoints ==> IsShown(t)
  }

  lemma {:induction false} EndpointsAreShown(data: Bytes, cursor: nat, n: nat)
    requires cursor <= |data|
    ensures forall t :: t in CanonicalEndpoints(data, cursor, n).0 ==> IsShown(t)
    decreases n
  {
    hide ShowV4, ShowV6, Shown, EndpointAt;
    if n > 0 && cursor < |data| {
      var (endpoint, next) := EndpointAt(data, cursor);
      if endpoint.Some? {
        EndpointIsShown(data, cursor);
        EndpointsAreShown(data, next, n - 1);
      }
    }
  }

  lemma EndpointIsShown(data: Bytes, cursor: nat)
    requires cursor < |data| && EndpointAt(data, cursor).0.Some?
    ensures IsShown(EndpointAt(data, cursor).0.value)
  {
    hide ShowV4, ShowV6, FromBytes, Pow256, Shown;
    var next := EndpointAt(data, cursor).1;
    assert (data[cursor] == 4 && next == cursor + 7) || (data[cursor] == 6 && next == cursor + 19);
    hide EndpointAt;
    var record := data[cursor..next];
    assert record[0] == data[cursor];
    ReadRecord(data, cursor, record);
  }

  lemma {:induction false} RootsAreShown(std: Std, data: Bytes, cursor: nat, n: nat)
    requires cursor <= |data|
    ensures AreShown(Roots(std, data, true, cursor, n).0)
    decreases n
  {
    hide IsShown, CanonicalEndpoints;
    if n > 0 && cursor + 5 <= |data| {
      var (endpoints, next) := RootTail(std, data, true, cursor + 5);
      var c := if cursor + 70 <= |data| then cursor + 70 else cursor + 5;
      if c < |data| {
        EndpointsAreShown(data, c + 1, data[c]);
      }
      RootsAreShown(std, data, next, n - 1);
    }
  }

  lemma MisreadLooksCanonical(std: Std, data: Bytes)
    requires Sniffed(data)
    ensures LooksCanonical(Parse(std, data).value)
  {
    hide IsShown, Roots;
    RootsAreShown(std, data, 178, data[177]);
  }

  /**
   * When the legacy format gives a world back: exactly if the format test does not misfire and no endpoint is empty,
   * for every world but those that look like a canonical one, which alone a misread could happen to return.
   */
  lemma LegacyRoundTripExactly(std: Std, w: World)
    requires FitsLegacy(std, w)
    ensures !Sniffed(LegacyBytes(w)) && NoEmptyEndpoint(w) ==> Parse(std, LegacyBytes(w)) == Ok(w)
    ensures Parse(std, LegacyBytes(w)) == Ok(w) && !LooksCanonical(w) ==>
      !Sniffed(LegacyBytes(w)) && NoEmptyEndpoint(w)
  {
    hide LooksCanonical, Parse, LegacyBytes;
    if Sniffed(LegacyBytes(w)) {
      MisreadLooksCanonical(std, LegacyBytes(w));
    } else {
      LegacyRoundTrip(std, w);
      forall i | 0 <= i < |w.roots| {
        NonEmptyIsIdentity(w.roots[i].endpoints);
      }
      if NoEmptyEndpoint(w) {
        assert DropEmpty(w.roots) == w.roots;
      } else {
        var i :| 0 <= i < |w.roots| && [] in w.roots[i].endpoints;
        assert DropEmpty(w.roots)[i] != w.roots[i];
      }
    }
  }

  /** The test does misfire: a rootless world with a 200-byte signature of zeros is read as a canonical one. */
  lemma FormatTestMisfires(std: Std)
    ensures var w := World(1, 0, 0, [], seq(200, i => 0));
      && FitsLegacy(std, w) && NoEmptyEndpoint(w)
      && Sniffed(LegacyBytes(w)) && Parse(std, LegacyBytes(w)) != Ok(w)
  {
    var w := World(1, 0, 0, [], seq(200, i => 0));
    assert |w.signature| == 200;
    LegacyRoundTripExactly(std, w);
  }
}
