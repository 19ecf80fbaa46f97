/** The two binary formats by position: what is signed, what a signature determines, and where each field lies. */
module WorldLayout {
  import opened Wrappers
  import opened BigEndian
  import opened WorldParser
  import opened WorldEncoding
  import opened WorldRoundTrip

  // ----- What is signed -------------------------------------------------------------------------

  function Padded(body: Bytes): Bytes {
    seq(8, i => 0x7f) + body + seq(8, i => 0xf7)
  }

  lemma CutOut(a: Bytes, s: Bytes, b: Bytes)
    ensures (a + s + b)[..|a|] == a && (a + s + b)[|a| + |s|..] == b && (a + s + b)[|a|..|a| + |s|] == s
  {
  }

  /**
   * Bytes 81 to 145 of an encoding are a signature over all its other bytes but the key that follows it, so over the
   * type, the id, the timestamp, the keys and every root.
   */
  lemma SignatureCoversTheRest(std: Std, w: World, signer: Signer, keys: seq<Option<Octets32>>)
    requires CanonicalBytes(std, w, signer, keys).Ok?
    ensures var d := CanonicalBytes(std, w, signer, keys).value;
      && |d| >= 180
      && signer.sign(Padded(d[..81] + d[177..])) == Some(d[81..145])
      && d[145..177] == signer.publicKey
  {
    hide Header, CanonicalTail;
    var front := Header(w) + KeySet(Some(signer.publicKey));
    var s, tail := Signature(std, w, signer, keys).value, CanonicalTail(std, w, keys);
    var d := CanonicalBytes(std, w, signer, keys).value;
    assert d == front + s + tail;
    CutOut(front, s, tail);
    assert front + tail == Header(w) + KeySet(Some(signer.publicKey)) + tail;
    assert SignedPayload(std, w, signer, keys) == Padded(d[..81] + d[177..]);
    assert d[81..145] == s[..64] && d[145..177] == s[64..];
    CanonicalLayout(std, w, signer, keys);
  }

  lemma PadsDetermine(a: Bytes, b: Bytes)
    requires Padded(a) == Padded(b)
    ensures a == b
  {
    assert |Padded(a)| == |a| + 16 && |Padded(b)| == |b| + 16;
    assert a == Padded(a)[8..8 + |a|];
    assert b == Padded(b)[8..8 + |b|];
  }

  /** Encodings whose signed bytes agree can differ in the signature alone: a signature fits no other world. */
  lemma SignedBytesDetermineWorld(std: Std, w1: World, signer1: Signer, keys1: seq<Option<Octets32>>,
                                  w2: World, signer2: Signer, keys2: seq<Option<Octets32>>)
    requires CanonicalBytes(std, w1, signer1, keys1).Ok? && CanonicalBytes(std, w2, signer2, keys2).Ok?
    ensures var d1, d2 := CanonicalBytes(std, w1, signer1, keys1).value, CanonicalBytes(std, w2, signer2, keys2).value;
      SignedPayload(std, w1, signer1, keys1) == SignedPayload(std, w2, signer2, keys2) ==>
        && d1[..81] == d2[..81] && d1[177..] == d2[177..]
        && w1.worldType == w2.worldType && w1.id == w2.id && w1.timestamp == w2.timestamp
        && signer1.publicKey == signer2.publicKey
        && (FitsCanonical(std, w1) && FitsCanonical(std, w2) ==>
              NormalRoots(std, w1.roots) == NormalRoots(std, w2.roots))
  {
    hide NormalRoots, Parse, CanonicalBytes, SignedPayload, Padded, Header, Signature, CanonicalRootsBytes;
    var d1, d2 := CanonicalBytes(std, w1, signer1, keys1).value, CanonicalBytes(std, w2, signer2, keys2).value;
    if SignedPayload(std, w1, signer1, keys1) == SignedPayload(std, w2, signer2, keys2) {
      PayloadByPosition(std, w1, signer1, keys1);
      PayloadByPosition(std, w2, signer2, keys2);
      PadsDetermine(d1[..81] + d1[177..], d2[..81] + d2[177..]);
      CutOut(d1[..81], [], d1[177..]);
      CutOut(d2[..81], [], d2[177..]);
      assert d1[..81] == (d1[..81] + d1[177..])[..81] == d2[..81];
      assert d1[177..] == (d1[..81] + d1[177..])[81..] == d2[177..];
      SameHeader(std, w1, signer1, keys1, w2, signer2, keys2);
      if FitsCanonical(std, w1) && FitsCanonical(std, w2) {
        CanonicalRoundTrip(std, w1, signer1, keys1);
        CanonicalRoundTrip(std, w2, signer2, keys2);
        CanonicalLayout(std, w1, signer1, keys1);
        SameRoots(std, d1, d2);
      }
    }
  }

  lemma PayloadByPosition(std: Std, w: World, signer: Signer, keys: seq<Option<Octets32>>)
    requires CanonicalBytes(std, w, signer, keys).Ok?
    ensures var d := CanonicalBytes(std, w, signer, keys).value;
      |d| >= 180 && SignedPayload(std, w, signer, keys) == Padded(d[..81] + d[177..])
  {
    hide Header, CanonicalTail;
    var front := Header(w) + KeySet(Some(signer.publicKey));
    var s, tail := Signature(std, w, signer, keys).value, CanonicalTail(std, w, keys);
    CutOut(front, s, tail);
    assert front + tail == Header(w) + KeySet(Some(signer.publicKey)) + tail;
    CanonicalLayout(std, w, signer, keys);
  }

  lemma SameHeader(std: Std, w1: World, signer1: Signer, keys1: seq<Option<Octets32>>,
                   w2: World, signer2: Signer, keys2: seq<Option<Octets32>>)
    requires CanonicalBytes(std, w1, signer1, keys1).Ok? && CanonicalBytes(std, w2, signer2, keys2).Ok?
    requires var d1, d2 := CanonicalBytes(std, w1, signer1, keys1).value, CanonicalBytes(std, w2, signer2, keys2).value;
      |d1| >= 81 && |d2| >= 81 && d1[..81] == d2[..81]
    ensures w1.worldType == w2.worldType && w1.id == w2.id && w1.timestamp == w2.timestamp
    ensures signer1.publicKey == signer2.publicKey
  {
    hide CanonicalBytes, Header, FromBytes, ToBytes;
    var d1, d2 := CanonicalBytes(std, w1, signer1, keys1).value, CanonicalBytes(std, w2, signer2, keys2).value;
    CanonicalLayout(std, w1, signer1, keys1);
    CanonicalLayout(std, w2, signer2, keys2);
    var h := d1[..81];
    assert d1[..17] == h[..17] == d2[..17] && d1[17..49] == h[17..49] == d2[17..49];
    assert d1[1..9] == d1[..17][1..9] == d2[1..9] && d1[9..17] == d1[..17][9..17] == d2[9..17];
    assert d1[0] == h[0] == d2[0];
    HeaderFields(w1, d1);
    HeaderFields(w2, d2);
  }

  /** Canonical roots are read from behind the signature. */
  lemma SameRoots(std: Std, d1: Bytes, d2: Bytes)
    requires |d1| >= 178 && |d2| >= 178 && d1[177..] == d2[177..] && d1[177] <= 16
    ensures Parse(std, d1).value.roots == Parse(std, d2).value.roots
  {
    hide Roots;
    assert |d1| - 177 == |d1[177..]| == |d2[177..]| == |d2| - 177;
    AgreeLater(d1, d2, 177, 177);
    AgreeLater(d1, d2, 177, 178);
    RootsReadForward(std, d1, d2, 178, d1[177]);
  }

  predicate AgreeFrom(d1: Bytes, d2: Bytes, cursor: nat) {
    |d1| == |d2| && cursor <= |d1| && d1[cursor..] == d2[cursor..]
  }

  lemma AgreeLater(d1: Bytes, d2: Bytes, cursor: nat, later: nat)
    requires AgreeFrom(d1, d2, cursor) && cursor <= later <= |d1|
    ensures AgreeFrom(d1, d2, later)
    ensures forall end: nat :: later <= end <= |d1| ==> d1[later..end] == d2[later..end]
    ensures later < |d1| ==> d1[later] == d2[later]
  {
    assert d1[later..] == d1[cursor..][later - cursor..];
    assert d2[later..] == d2[cursor..][later - cursor..];
    forall end: nat | later <= end <= |d1|
      ensures d1[later..end] == d2[later..end]
    {
      assert d1[later..end] == d1[later..][..end - later];
      assert d2[later..end] == d2[later..][..end - later];
    }
    assert later < |d1| ==> d1[later] == d1[later..][0] && d2[later] == d2[later..][0];
  }

  lemma {:induction false} EndpointsReadForward(d1: Bytes, d2: Bytes, cursor: nat, n: nat)
    requires AgreeFrom(d1, d2, cursor)
    ensures CanonicalEndpoints(d1, cursor, n) == CanonicalEndpoints(d2, cursor, n)
    decreases n
  {
    hide ShowV4, ShowV6, FromBytes;
    if n > 0 && cursor < |d1| {
      AgreeLater(d1, d2, cursor, cursor);
      AgreeLater(d1, d2, cursor, cursor + 1);
      if cursor + 19 <= |d1| {
        AgreeLater(d1, d2, cursor, cursor + 17);
      }
      if cursor + 7 <= |d1| {
        AgreeLater(d1, d2, cursor, cursor + 5);
      }
      assert EndpointAt(d1, cursor) == EndpointAt(d2, cursor);
      var next := EndpointAt(d1, cursor).1;
      AgreeLater(d1, d2, cursor, next);
      EndpointsReadForward(d1, d2, next, n - 1);
    }
  }

  lemma TailsReadForward(std: Std, d1: Bytes, d2: Bytes, cursor: nat)
    requires AgreeFrom(d1, d2, cursor)
    ensures RootTail(std, d1, true, cursor) == RootTail(std, d2, true, cursor)
  {
    hide CanonicalEndpoints;
    var c := if cursor + 65 <= |d1| then cursor + 65 else cursor;
    if c < |d1| {
      AgreeLater(d1, d2, cursor, c);
      AgreeLater(d1, d2, cursor, c + 1);
      EndpointsReadForward(d1, d2, c + 1, d1[c]);
    }
  }

  lemma {:induction false} RootsReadForward(std: Std, d1: Bytes, d2: Bytes, cursor: nat, n: nat)
    requires AgreeFrom(d1, d2, cursor)
    ensures Roots(std, d1, true, cursor, n) == Roots(std, d2, true, cursor, n)
    decreases n
  {
    hide RootTail;
    if n > 0 && cursor + 5 <= |d1| {
      AgreeLater(d1, d2, cursor, cursor);
      AgreeLater(d1, d2, cursor, cursor + 5);
      TailsReadForward(std, d1, d2, cursor + 5);
      var next := RootTail(std, d1, true, cursor + 5).1;
      AgreeLater(d1, d2, cursor, next);
      RootsReadForward(std, d1, d2, next, n - 1);
    }
  }

  // ----- Positions ------------------------------------------------------------------------------

  /** The fields of a parsed world by position, and the format test in numbers. */
  lemma ParsedFields(std: Std, data: Bytes)
    requires |data| >= 18
    ensures var w := Parse(std, data).value;
      && w.worldType == data[0] && w.id == FromBytes(data[1..9]) && w.timestamp == FromBytes(data[9..17])
      && (if |data| >= 178 && data[177] <= 16 then
            w.signature == data[81..177] && |w.roots| <= data[177]
            && (data[177] > 0 && |data| >= 183 ==> w.roots != [] && w.roots[0].identity == data[178..183])
          else if |data| >= 19 then
            && |w.roots| <= FromBytes(data[17..19])
            && (FromBytes(data[17..19]) > 0 && |data| >= 24 ==> w.roots != [] && w.roots[0].identity == data[19..24])
          else |w.roots| <= data[17])
  {
    hide RootTail, FromBytes, TrailingSignature;
  }

  /**
   * Where endpoints end early: one of no known family, or cut off, ends its root after one byte; so does a legacy text
   * that is cut off, while an empty one is passed over.
   */
  lemma MalformedEndpoints(std: Std, data: Bytes, cursor: nat, n: nat)
    requires cursor <= |data| && n > 0
    ensures cursor < |data| && !(data[cursor] == 4 && cursor + 7 <= |data|)
            && !(data[cursor] == 6 && cursor + 19 <= |data|)
            ==> CanonicalEndpoints(data, cursor, n) == ([], cursor + 1)
    ensures cursor == |data| ==> CanonicalEndpoints(data, cursor, n) == ([], cursor)
    ensures cursor < |data| && cursor + 1 + data[cursor] > |data|
            ==> LegacyEndpoints(std, data, cursor, n) == ([], cursor + 1)
    ensures cursor < |data| && data[cursor] == 0
            ==> LegacyEndpoints(std, data, cursor, n) == LegacyEndpoints(std, data, cursor + 1, n - 1)
    ensures cursor == |data| ==> LegacyEndpoints(std, data, cursor, n) == ([], cursor)
  {
    hide ShowV4, ShowV6, FromBytes;
    assert forall xs: seq<Text> :: [] + xs == xs;
  }

  /** Where roots end early: a cut-off one ends them, a missing count its endpoints; a cut-off signature is none. */
  lemma MalformedRoots(std: Std, data: Bytes, cursor: nat, n: nat)
    requires cursor <= |data| && n > 0
    ensures cursor + 5 > |data| ==> forall canonical :: Roots(std, data, canonical, cursor, n) == ([], cursor)
    ensures cursor + 2 > |data| ==> RootTail(std, data, false, cursor) == ([], cursor)
    ensures cursor == |data| ==> RootTail(std, data, true, cursor) == ([], cursor)
    ensures cursor < |data| && cursor + 65 > |data|
            ==> RootTail(std, data, true, cursor) == CanonicalEndpoints(data, cursor + 1, data[cursor])
    ensures cursor + 4 > |data| ==> TrailingSignature(data, cursor) == []
    ensures cursor + 4 <= |data| && cursor + 4 + FromBytes(data[cursor..cursor + 4]) > |data|
            ==> TrailingSignature(data, cursor) == []
  {
    hide FromBytes, CanonicalEndpoints, LegacyEndpoints;
  }

  /** A canonical encoding by position; all that is not named here is the roots. */
  lemma CanonicalFields(std: Std, w: World, signer: Signer, keys: seq<Option<Octets32>>)
    requires CanonicalBytes(std, w, signer, keys).Ok?
    ensures var d := CanonicalBytes(std, w, signer, keys).value;
      && |d| >= 180
      && d[0] == w.worldType && FromBytes(d[1..9]) == w.id && FromBytes(d[9..17]) == w.timestamp
      && d[17..49] == signer.publicKey && d[49..81] == seq(32, i => 0)
      && d[177] == |w.roots| % 256 && d[|d| - 2..] == [0, 0]
  {
    hide CanonicalRootsBytes, Header, FromBytes, ToBytes;
    var d := CanonicalBytes(std, w, signer, keys).value;
    CanonicalLayout(std, w, signer, keys);
    HeaderFields(w, d);
    var h, k, s := Header(w), KeySet(Some(signer.publicKey)), Signature(std, w, signer, keys).value;
    var roots := CanonicalRootsBytes(std, w.roots, keys, 0);
    assert d == h + k + s + ([|w.roots| % 256] + roots + [0, 0]);
    assert d[49..81] == k[32..];
  }

  /** A root by position: its address, a type byte, its key or zeros, its count, and one record after the other. */
  lemma CanonicalRootFields(std: Std, root: Root, key: Option<Octets32>)
    ensures var b := CanonicalRootBytes(std, root, key);
      && |b| >= 71
      && b[..5] == root.identity && b[5] == 0
      && b[6..38] == (match key case Some(k) => k case None => seq(32, i => 0)) && b[38..70] == seq(32, i => 0)
      && b[70] == |Records(std, root.endpoints)| % 256 && b[71..] == Flatten(Records(std, root.endpoints))
  {
    hide Records, Flatten;
    var records := Records(std, root.endpoints);
    var b := CanonicalRootBytes(std, root, key);
    var k := KeySet(key);
    assert b == root.identity + [0] + k + [|records| % 256] + Flatten(records);
    assert b[6..70] == k;
    assert b[6..38] == k[..32] && b[38..70] == k[32..];
  }

  /** Each root is encoded with the key given for its index. */
  lemma {:induction false} CanonicalRootAt(std: Std, roots: seq<Root>, keys: seq<Option<Octets32>>, i: nat, k: nat)
    returns (before: Bytes, after: Bytes)
    requires k <= i < |roots|
    ensures CanonicalRootsBytes(std, roots, keys, k)
         == before + CanonicalRootBytes(std, roots[i], if i < |keys| then keys[i] else None) + after
    decreases i - k
  {
    hide CanonicalRootBytes, CanonicalRootsBytes;
    RootsUnfold(std, roots, keys, k);
    var b := CanonicalRootBytes(std, roots[k], KeyFor(keys, k));
    if i == k {
      before, after := [], CanonicalRootsBytes(std, roots, keys, k + 1);
      assert [] + b == b;
    } else {
      var rest;
      rest, after := CanonicalRootAt(std, roots, keys, i, k + 1);
      before := b + rest;
      Nest4(b, rest, CanonicalRootBytes(std, roots[i], if i < |keys| then keys[i] else None), after);
    }
  }

  lemma RootsUnfold(std: Std, roots: seq<Root>, keys: seq<Option<Octets32>>, k: nat)
    requires k < |roots|
    ensures CanonicalRootsBytes(std, roots, keys, k)
         == CanonicalRootBytes(std, roots[k], KeyFor(keys, k)) + CanonicalRootsBytes(std, roots, keys, k + 1)
  {
    hide CanonicalRootBytes;
  }

  /** An IPv4 record: 4, the address, the port with its high byte first; an IPv6 record starts with 6. */
  lemma RecordFields(std: Std, o4: Octets4, o6: Octets16, port: u16)
    requires std.Laws()
    ensures EndpointBytes(std, ShowV4(o4, port)) == Some([4] + o4 + [port / 256, port % 256])
    ensures EndpointBytes(std, ShowV6(o6, port)) == Some([6] + o6 + [port / 256, port % 256])
  {
    hide EndpointBytes, ShowV4, ShowV6;
    V4EncodesBack(std, o4, port);
    V6EncodesBack(std, o6, port);
    TwoBytes(port);
  }

  lemma TwoBytes(v: u16)
    requires Pow256(2) == 0x1_0000
    ensures ToBytes(v, 2) == [v / 256, v % 256]
  {
    assert Pow256(1) == 256;
    assert ToBytes(v / 256, 1) == [v / 256];
  }

  lemma {:induction false} Unbracketed(n: nat, inner: Text, m: nat)
    requires inner != [] && inner[0] != OPEN && inner[|inner| - 1] != CLOSE
    ensures TrimClose(TrimOpen(seq(n, i => OPEN) + inner + seq(m, i => CLOSE))) == inner
    decreases n + m
  {
    var t := seq(n, i => OPEN) + inner + seq(m, i => CLOSE);
    if n > 0 {
      assert t[1..] == seq(n - 1, i => OPEN) + inner + seq(m, i => CLOSE);
      Unbracketed(n - 1, inner, m);
    } else {
      assert t[0] == inner[0] && TrimOpen(t) == t;
      if m > 0 {
        assert t[..|t| - 1] == seq(n, i => OPEN) + inner + seq(m - 1, i => CLOSE);
        Unbracketed(n, inner, m - 1);
        assert t[..|t| - 1][0] == inner[0];
        assert TrimOpen(t[..|t| - 1]) == t[..|t| - 1];
      } else {
        assert t == inner;
      }
    }
  }

  /**
   * An endpoint text, trimmed, is a host, the last slash, and a port. It has a record exactly if the port is one and
   * the host is an IPv4 address, or an IPv6 address within any brackets; the record is that address and port.
   */
  lemma EndpointEncodedExactly(std: Std, t: Text, n: nat, inner: Text, m: nat, portText: Text)
    requires inner != [] && inner[0] != OPEN && inner[|inner| - 1] != CLOSE && SLASH !in portText
    requires std.trim(t) == seq(n, i => OPEN) + inner + seq(m, i => CLOSE) + [SLASH] + portText
    ensures var host := seq(n, i => OPEN) + inner + seq(m, i => CLOSE);
      EndpointBytes(std, t) ==
        if std.parsePort(portText) == None then None
        else
          var port := std.parsePort(portText).value;
          if std.parseV4(host).Some? then Some([4] + std.parseV4(host).value + [port / 256, port % 256])
          else if std.parseV6(inner).Some? then Some([6] + std.parseV6(inner).value + [port / 256, port % 256])
          else None
  {
    hide SplitAtLastSlash, TrimOpen, TrimClose, ToBytes;
    PowValues();
    SplitUnique(seq(n, i => OPEN) + inner + seq(m, i => CLOSE), portText);
    Unbracketed(n, inner, m);
    if std.parsePort(portText).Some? {
      TwoBytes(std.parsePort(portText).value);
    }
  }

  /** A text without a slash has no record. */
  lemma HostnamesHaveNoPort(std: Std, t: Text)
    requires SLASH !in std.trim(t)
    ensures EndpointBytes(std, t) == None
  {
  }

  /** A legacy root by position: its address, a two-byte count, then for each endpoint a length byte and its text. */
  lemma LegacyRootFields(root: Root)
    requires |root.endpoints| < 0x1_0000
    ensures var b := LegacyRootBytes(root);
      && |b| >= 7 && b[..5] == root.identity && FromBytes(b[5..7]) == |root.endpoints|
      && b[7..] == LegacyEndpointsBytes(root.endpoints)
  {
    hide LegacyEndpointsBytes, FromBytes, ToBytes;
    PowValues();
    DecodeEncode(|root.endpoints|, 2);
    var b, count := LegacyRootBytes(root), ToBytes(|root.endpoints|, 2);
    assert b[5..7] == count;
  }

  // ----- Texts ----------------------------------------------------------------------------------

  /** The number that decimal digits stand for. */
  function DecimalValue(t: Text): int {
    if t == [] then 0 else DecimalValue(t[..|t| - 1]) * 10 + (t[|t| - 1] as int) - 48
  }

  /** Numbers are printed in decimal, without leading zeros. */
  lemma {:induction false} DecimalReadsBack(n: nat)
    ensures DecimalValue(Decimal(n)) == n
    ensures Decimal(n)[0] == 48 ==> n == 0
  {
    if n >= 10 {
      DecimalReadsBack(n / 10);
      assert Decimal(n)[..|Decimal(n)| - 1] == Decimal(n / 10);
    } else {
      assert Decimal(n)[..0] == [];
    }
  }

  function HexDigitValue(c: byte): int {
    if c < 58 then (c as int) - 48 else (c as int) - 87
  }

  /** The text of an IPv6 address has a digit pair for each octet, and a colon before each even one but the first. */
  lemma GroupsByPosition(o: Octets16, i: nat)
    requires i < 16
    ensures var digits := if i > 0 && i % 2 == 0 then Groups(o, i)[1..] else Groups(o, i);
      && (i > 0 && i % 2 == 0 ==> Groups(o, i)[0] == COLON)
      && |digits| >= 2 && HexDigitValue(digits[0]) * 16 + HexDigitValue(digits[1]) == o[i]
      && digits[2..] == Groups(o, i + 1)
  {
    hide HexDigit, Groups;
    var pair := [HexDigit(o[i] / 16), HexDigit(o[i] % 16)];
    GroupsUnfold(o, i);
    assert i > 0 && i % 2 == 0 ==> Groups(o, i)[1..] == pair + Groups(o, i + 1);
    HexDigitReadsBack(o[i] / 16);
    HexDigitReadsBack(o[i] % 16);
  }

  lemma GroupsUnfold(o: Octets16, i: nat)
    requires i < 16
    ensures Groups(o, i)
         == (if i > 0 && i % 2 == 0 then [COLON] else []) + [HexDigit(o[i] / 16), HexDigit(o[i] % 16)]
            + Groups(o, i + 1)
  {
    hide HexDigit;
  }

  lemma HexDigitReadsBack(d: nat)
    requires d < 16
    ensures HexDigitValue(HexDigit(d)) == d
  {
  }

  /** So it has 39 characters. */
  lemma {:induction false} GroupsLength(o: Octets16, i: nat)
    requires i <= 16
    ensures |Groups(o, i)| == 2 * (16 - i) + (16 - i) / 2 - (if i == 0 then 1 else 0)
    decreases 16 - i
  {
    hide HexDigit, Groups;
    if i < 16 {
      GroupsUnfold(o, i);
      GroupsLength(o, i + 1);
    } else {
      NoGroups(o);
    }
  }

  lemma NoGroups(o: Octets16)
    ensures Groups(o, 16) == []
  {
  }
}
