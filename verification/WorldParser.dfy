/** Planet and moon definitions: the parser that sniffs between two binary formats, and the two encoders. */
module WorldParser {
  import opened Wrappers
  import opened BigEndian

  /** A Rust string is its UTF-8 bytes. */
  type Text = Bytes

  type u16 = x: int | 0 <= x < 0x1_0000
  type u64 = x: int | 0 <= x < 0x1_0000_0000_0000_0000
  type Octets4 = o: Bytes | |o| == 4 witness [0, 0, 0, 0]
  type Octets5 = o: Bytes | |o| == 5 witness [0, 0, 0, 0, 0]
  type Octets16 = o: Bytes | |o| == 16 witness seq(16, i => 0)
  type Octets32 = o: Bytes | |o| == 32 witness seq(32, i => 0)
  type Octets64 = o: Bytes | |o| == 64 witness seq(64, i => 0)

  datatype Root = Root(identity: Octets5, endpoints: seq<Text>)

  datatype World = World(worldType: byte, id: u64, timestamp: u64, roots: seq<Root>, signature: Bytes)

  // ----- Text -----------------------------------------------------------------------------------

  const DOT: byte := 46
  const SLASH: byte := 47
  const COLON: byte := 58
  const OPEN: byte := 91
  const CLOSE: byte := 93

  function Decimal(n: nat): (t: Text)
    ensures t != []
    ensures forall i :: 0 <= i < |t| ==> 48 <= t[i] <= 57
  {
    if n < 10 then [48 + n] else Decimal(n / 10) + [48 + n % 10]
  }

  function HexDigit(d: nat): byte
    requires d < 16
  {
    if d < 10 then 48 + d else 87 + d
  }

  /** "a.b.c.d" */
  function Dotted(o: Octets4): Text {
    Decimal(o[0]) + [DOT] + Decimal(o[1]) + [DOT] + Decimal(o[2]) + [DOT] + Decimal(o[3])
  }

  /** The fully expanded groups of an IPv6 address, from octet `i` on. */
  function Groups(o: Octets16, i: nat): Text
    requires i <= 16
    decreases 16 - i
  {
    if i == 16 then []
    else (if i > 0 && i % 2 == 0 then [COLON] else []) + [HexDigit(o[i] / 16), HexDigit(o[i] % 16)] + Groups(o, i + 1)
  }

  function ShowV4(o: Octets4, port: u16): Text {
    Dotted(o) + [SLASH] + Decimal(port)
  }

  function ShowV6(o: Octets16, port: u16): Text {
    [OPEN] + Groups(o, 0) + [CLOSE] + [SLASH] + Decimal(port)
  }

  /** The text routines of the Rust standard library that the codec calls. */
  datatype Std = Std(
    lossy: Bytes -> Text,
    trim: Text -> Text,
    parsePort: Text -> Option<u16>,
    parseV4: Text -> Option<Octets4>,
    parseV6: Text -> Option<Octets16>)
  {
    /** What the theorems need of them: parsing undoes formatting, and trimming keeps visible ends. */
    ghost predicate Laws() {
      && (forall p: u16 :: parsePort(Decimal(p)) == Some(p))
      && (forall o: Octets4 :: parseV4(Dotted(o)) == Some(o))
      && (forall o: Octets16 :: parseV6(Groups(o, 0)) == Some(o))
      && (forall t: Text :: t != [] && t[0] == OPEN ==> parseV4(t) == None)
      && (forall t: Text :: t != [] && 33 <= t[0] <= 126 && 33 <= t[|t| - 1] <= 126 ==> trim(t) == t)
    }
  }

  // ----- Parser ---------------------------------------------------------------------------------

  /** The format test: at least 178 bytes, and a root count of at most 16 where the canonical format has it. */
  predicate Sniffed(data: Bytes) {
    |data| >= 178 && data[177] <= 16
  }

  /** One InetAddress record: a family byte, the address, and a port; nothing when it is malformed or cut off. */
  function EndpointAt(data: Bytes, cursor: nat): (r: (Option<Text>, nat))
    requires cursor < |data|
    ensures cursor < r.1 <= |data|
  {
    PowValues();
    if data[cursor] == 4 && cursor + 7 <= |data| then
      (Some(ShowV4(data[cursor + 1..cursor + 5], FromBytes(data[cursor + 5..cursor + 7]))), cursor + 7)
    else if data[cursor] == 6 && cursor + 19 <= |data| then
      (Some(ShowV6(data[cursor + 1..cursor + 17], FromBytes(data[cursor + 17..cursor + 19]))), cursor + 19)
    else (None, cursor + 1)
  }

  function CanonicalEndpoints(data: Bytes, cursor: nat, n: nat): (r: (seq<Text>, nat))
    requires cursor <= |data|
    ensures cursor <= r.1 <= |data|
    decreases n
  {
    if n == 0 || cursor >= |data| then ([], cursor)
    else
      var (endpoint, next) := EndpointAt(data, cursor);
      if endpoint == None then ([], next)
      else
        var (rest, end) := CanonicalEndpoints(data, next, n - 1);
        ([endpoint.value] + rest, end)
  }

  function LegacyEndpoints(std: Std, data: Bytes, cursor: nat, n: nat): (r: (seq<Text>, nat))
    requires cursor <= |data|
    ensures cursor <= r.1 <= |data|
    decreases n
  {
    if n == 0 || cursor + 1 > |data| then ([], cursor)
    else
      var len := data[cursor];
      if cursor + 1 + len > |data| then ([], cursor + 1)
      else
        var (rest, end) := LegacyEndpoints(std, data, cursor + 1 + len, n - 1);
        ((if len > 0 then [std.lossy(data[cursor + 1..cursor + 1 + len])] else []) + rest, end)
  }

  /** What follows a root's five address bytes. */
  function RootTail(std: Std, data: Bytes, canonical: bool, cursor: nat): (r: (seq<Text>, nat))
    requires cursor <= |data|
    ensures cursor <= r.1 <= |data|
  {
    if canonical then
      var c := if cursor + 65 <= |data| then cursor + 65 else cursor;
      if c < |data| then CanonicalEndpoints(data, c + 1, data[c]) else ([], c)
    else if cursor + 2 <= |data| then
      LegacyEndpoints(std, data, cursor + 2, FromBytes(data[cursor..cursor + 2]))
    else ([], cursor)
  }

  function Roots(std: Std, data: Bytes, canonical: bool, cursor: nat, n: nat): (r: (seq<Root>, nat))
    requires cursor <= |data|
    ensures cursor <= r.1 <= |data|
    ensures |r.0| <= n && 5 * |r.0| <= r.1 - cursor
    decreases n
  {
    if n == 0 || cursor + 5 > |data| then ([], cursor)
    else
      var (endpoints, next) := RootTail(std, data, canonical, cursor + 5);
      var (rest, end) := Roots(std, data, canonical, next, n - 1);
      ([Root(data[cursor..cursor + 5], endpoints)] + rest, end)
  }

  /** The signature that the legacy format keeps behind the roots, when it is whole. */
  function TrailingSignature(data: Bytes, cursor: nat): Bytes
    requires cursor <= |data|
  {
    if cursor + 4 <= |data| then
      var len := FromBytes(data[cursor..cursor + 4]);
      if len > 0 && cursor + 4 + len <= |data| then data[cursor + 4..cursor + 4 + len] else []
    else []
  }

  /**
   * The parser as a function of its input. It fails on fewer than 18 bytes and on nothing else, and every root it
   * returns has been paid for with at least five bytes.
   */
  function Parse(std: Std, data: Bytes): (r: Result<World>)
    ensures r.Ok? <==> |data| >= 18
    ensures r.Ok? ==> 5 * |r.value.roots| <= |data| - 18
  {
    if |data| < 18 then Err
    else
      PowValues();
      var id := FromBytes(data[1..9]);
      var timestamp := FromBytes(data[9..17]);
      if Sniffed(data) then
        Ok(World(data[0], id, timestamp, Roots(std, data, true, 178, data[177]).0, data[81..177]))
      else
        var (count, start) := if |data| >= 19 then (FromBytes(data[17..19]), 19) else (data[17], 18);
        var (roots, end) := Roots(std, data, false, start, count);
        Ok(World(data[0], id, timestamp, roots, TrailingSignature(data, end)))
  }

  method FormatIpv6(o: Octets16) returns (s: Text)
    ensures s == [OPEN] + Groups(o, 0) + [CLOSE]
  {
    s := [OPEN];
    for i := 0 to 16
      invariant s + Groups(o, i) == [OPEN] + Groups(o, 0)
    {
      var separator := if i > 0 && i % 2 == 0 then [COLON] else [];
      var digits := [HexDigit(o[i] / 16), HexDigit(o[i] % 16)];
      Nest3(separator, digits, Groups(o, i + 1));
      Nest4(s, separator, digits, Groups(o, i + 1));
      s := s + separator;
      s := s + digits;
    }
    s := s + [CLOSE];
  }

  /** The result of a loop that has `xs` already and goes on to find `r`. */
  function Prepend<T>(xs: seq<T>, r: (seq<T>, nat)): (seq<T>, nat) {
    (xs + r.0, r.1)
  }

  lemma PrependMore<T>(xs: seq<T>, ys: seq<T>, r: (seq<T>, nat))
    ensures Prepend(xs, (ys + r.0, r.1)) == Prepend(xs + ys, r)
  {
    assert xs + (ys + r.0) == (xs + ys) + r.0;
  }

  lemma PrependNothing<T>(xs: seq<T>, r: (seq<T>, nat))
    ensures Prepend([], r) == r
    ensures r.0 == [] ==> Prepend(xs, r) == (xs, r.1)
  {
    assert [] + r.0 == r.0;
    assert xs + [] == xs;
  }

  method ParseEndpoint(data: Bytes, start: nat) returns (endpoint: Option<Text>, cursor: nat)
    requires start < |data|
    ensures (endpoint, cursor) == EndpointAt(data, start)
  {
    PowValues();
    var family := data[start];
    cursor := start + 1;
    var ip: Text;
    if family == 4 && cursor + 6 <= |data| {
      ip := Dotted(data[cursor..cursor + 4]);
      cursor := cursor + 4;
    } else if family == 6 && cursor + 18 <= |data| {
      ip := FormatIpv6(data[cursor..cursor + 16]);
      cursor := cursor + 16;
    } else {
      return None, cursor;
    }
    var port := FromBytes(data[cursor..cursor + 2]);
    cursor := cursor + 2;
    endpoint := Some(ip + [SLASH] + Decimal(port));
  }

  method ParseCanonicalEndpoints(data: Bytes, start: nat, count: nat) returns (endpoints: seq<Text>, cursor: nat)
    requires start <= |data|
    ensures (endpoints, cursor) == CanonicalEndpoints(data, start, count)
  {
    endpoints, cursor := [], start;
    ghost var whole := CanonicalEndpoints(data, start, count);
    PrependNothing([], whole);
    for k := 0 to count
      invariant start <= cursor <= |data|
      invariant whole == Prepend(endpoints, CanonicalEndpoints(data, cursor, count - k))
    {
      PrependNothing(endpoints, CanonicalEndpoints(data, cursor, count - k));
      if cursor >= |data| {
        return;
      }
      var endpoint;
      endpoint, cursor := ParseEndpoint(data, cursor);
      if endpoint == None {
        return;
      }
      PrependMore(endpoints, [endpoint.value], CanonicalEndpoints(data, cursor, count - k - 1));
      endpoints := endpoints + [endpoint.value];
    }
    PrependNothing(endpoints, CanonicalEndpoints(data, cursor, 0));
  }

  method ParseLegacyEndpoints(std: Std, data: Bytes, start: nat, count: nat)
    returns (endpoints: seq<Text>, cursor: nat)
    requires start <= |data|
    ensures (endpoints, cursor) == LegacyEndpoints(std, data, start, count)
  {
    endpoints, cursor := [], start;
    ghost var whole := LegacyEndpoints(std, data, start, count);
    PrependNothing([], whole);
    for k := 0 to count
      invariant start <= cursor <= |data|
      invariant whole == Prepend(endpoints, LegacyEndpoints(std, data, cursor, count - k))
    {
      PrependNothing(endpoints, LegacyEndpoints(std, data, cursor, count - k));
      if cursor + 1 > |data| {
        return;
      }
      var len := data[cursor];
      cursor := cursor + 1;
      if cursor + len > |data| {
        return;
      }
      var found: seq<Text> := [];
      if len > 0 {
        found := [std.lossy(data[cursor..cursor + len])];
      }
      cursor := cursor + len;
      PrependMore(endpoints, found, LegacyEndpoints(std, data, cursor, count - k - 1));
      endpoints := endpoints + found;
    }
    PrependNothing(endpoints, LegacyEndpoints(std, data, cursor, 0));
  }

  /** One root: five address bytes, a key block to skip in the canonical format, and its endpoints. */
  method ParseRoot(std: Std, data: Bytes, canonical: bool, start: nat) returns (root: Root, cursor: nat)
    requires start + 5 <= |data|
    ensures (root.endpoints, cursor) == RootTail(std, data, canonical, start + 5)
    ensures root.identity == data[start..start + 5]
  {
    var address := data[start..start + 5];
    cursor := start + 5;
    if canonical && cursor + 65 <= |data| {
      cursor := cursor + 65;
    }
    var endpoints: seq<Text> := [];
    if canonical {
      if cursor < |data| {
        endpoints, cursor := ParseCanonicalEndpoints(data, cursor + 1, data[cursor]);
      }
    } else if cursor + 2 <= |data| {
      endpoints, cursor := ParseLegacyEndpoints(std, data, cursor + 2, FromBytes(data[cursor..cursor + 2]));
    }
    root := Root(address, endpoints);
  }

  method ParseRoots(std: Std, data: Bytes, canonical: bool, start: nat, count: nat)
    returns (roots: seq<Root>, cursor: nat)
    requires start <= |data|
    ensures (roots, cursor) == Roots(std, data, canonical, start, count)
  {
    roots, cursor := [], start;
    ghost var whole := Roots(std, data, canonical, start, count);
    PrependNothing([], whole);
    for i := 0 to count
      invariant start <= cursor <= |data|
      invariant whole == Prepend(roots, Roots(std, data, canonical, cursor, count - i))
    {
      PrependNothing(roots, Roots(std, data, canonical, cursor, count - i));
      if cursor + 5 > |data| {
        return;
      }
      var root;
      root, cursor := ParseRoot(std, data, canonical, cursor);
      PrependMore(roots, [root], Roots(std, data, canonical, cursor, count - i - 1));
      roots := roots + [root];
    }
    PrependNothing(roots, Roots(std, data, canonical, cursor, 0));
  }

  method ParseSignature(data: Bytes, start: nat) returns (signature: Bytes)
    requires start <= |data|
    ensures signature == TrailingSignature(data, start)
  {
    signature := [];
    if start + 4 <= |data| {
      var len := FromBytes(data[start..start + 4]);
      var cursor := start + 4;
      if len > 0 && cursor + len <= |data| {
        signature := data[cursor..cursor + len];
      }
    }
  }

  /** The parser itself. That it verifies is the statement that no read leaves the buffer. */
  method ParseBinary(std: Std, data: Bytes) returns (r: Result<World>)
    ensures r == Parse(std, data)
  {
    if |data| < 18 {
      return Err;
    }
    hide Roots, FromBytes, TrailingSignature;
    PowValues();
    var worldType := data[0];
    var id := FromBytes(data[1..9]);
    var timestamp := FromBytes(data[9..17]);
    var canonical := |data| >= 178 && data[177] <= 16;
    var rootCount: nat, cursor: nat, signature: Bytes;
    if canonical {
      signature := data[81..177];
      rootCount, cursor := data[177], 178;
    } else {
      rootCount := if |data| >= 19 then FromBytes(data[17..19]) else data[17];
      cursor := if |data| >= 19 then 19 else 18;
      signature := [];
    }

    var roots;
    roots, cursor := ParseRoots(std, data, canonical, cursor, rootCount);

    if !canonical {
      signature := ParseSignature(data, cursor);
    }
    r := Ok(World(worldType, id, timestamp, roots, signature));
  }
}
