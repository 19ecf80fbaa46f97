/** Addresses of a virtual network: the derived IPv6 families and the pool allocators. */
module Addressing {
  import opened Wrappers
  import opened BigEndian

  type u32 = x: int | 0 <= x < 0x1_0000_0000
  type u128 = x: int | 0 <= x < 0x1_0000_0000_0000_0000_0000_0000_0000_0000

  datatype Addr = V4(v4: u32) | V6(v6: u128)

  // ----- Hexadecimal identifiers ----------------------------------------------------------------

  predicate IsLowerHex(c: char) {
    '0' <= c <= '9' || 'a' <= c <= 'f'
  }

  function HexValue(c: char): Option<nat> {
    if '0' <= c <= '9' then Some(c as int - '0' as int)
    else if 'a' <= c <= 'f' then Some(c as int - 'a' as int + 10)
    else if 'A' <= c <= 'F' then Some(c as int - 'A' as int + 10)
    else None
  }

  function Digits(s: string): (r: Option<nat>)
  {
    if s == "" then Some(0)
    else
      match (Digits(s[..|s| - 1]), HexValue(s[|s| - 1]))
      case (Some(n), Some(d)) => Some(16 * n + d)
      case _ => None
  }

  /** `u64::from_str_radix(s, 16)` */
  function ParseHex(s: string): (r: Option<nat>)
    ensures r.Some? ==> r.value < 0x1_0000_0000_0000_0000
  {
    var body := if s != "" && s[0] == '+' then s[1..] else s;
    var n := Digits(body);
    if body == "" || n == None || n.value >= 0x1_0000_0000_0000_0000 then None else n
  }

  predicate IsLowerHexId(s: string, len: nat) {
    |s| == len && forall i :: 0 <= i < len ==> IsLowerHex(s[i])
  }

  lemma HexValueIsInjective(a: char, b: char)
    requires IsLowerHex(a) && IsLowerHex(b)
    ensures HexValue(a).Some? && HexValue(b).Some?
    ensures HexValue(a).value < 16 && HexValue(b).value < 16
    ensures HexValue(a) == HexValue(b) <==> a == b
  {
  }

  /** Hexadecimal text of one length, in lower case, is determined by its value. */
  lemma {:induction false} DigitsAreInjective(a: string, b: string)
    requires IsLowerHexId(a, |a|) && IsLowerHexId(b, |a|)
    ensures Digits(a).Some? && Digits(b).Some?
    ensures Digits(a) == Digits(b) <==> a == b
  {
    hide IsLowerHex, HexValue, Digits;
    if a == "" {
      NoDigits();
    } else {
      var n := |a| - 1;
      assert IsLowerHexId(a[..n], n) && IsLowerHexId(b[..n], n);
      assert IsLowerHex(a[n]) && IsLowerHex(b[n]);
      HexValueIsInjective(a[n], b[n]);
      DigitsAreInjective(a[..n], b[..n]);
      DigitsOf(a);
      DigitsOf(b);
      LastDigit(Digits(a[..n]).value, HexValue(a[n]).value, Digits(b[..n]).value, HexValue(b[n]).value);
      assert a == a[..n] + [a[n]] && b == b[..n] + [b[n]];
    }
  }

  lemma NoDigits()
    ensures Digits("") == Some(0)
  {
  }

  lemma DigitsOf(s: string)
    requires s != "" && Digits(s[..|s| - 1]).Some? && HexValue(s[|s| - 1]).Some?
    ensures Digits(s) == Some(16 * Digits(s[..|s| - 1]).value + HexValue(s[|s| - 1]).value)
  {
    hide HexValue;
  }

  lemma LastDigit(x: nat, d: nat, y: nat, e: nat)
    requires d < 16 && e < 16
    ensures 16 * x + d == 16 * y + e <==> x == y && d == e
  {
  }

  /** Digits are read in either case, and in base 16 from the left. */
  lemma DigitsAreRead(s: string, c: char)
    requires Digits(s).Some?
    ensures '0' <= c <= '9' ==> Digits(s + [c]) == Some(16 * Digits(s).value + (c as int - 48))
    ensures 'a' <= c <= 'f' ==> Digits(s + [c]) == Some(16 * Digits(s).value + (c as int - 87))
    ensures 'A' <= c <= 'F' ==> Digits(s + [c]) == Some(16 * Digits(s).value + (c as int - 55))
  {
    hide Digits;
    assert (s + [c])[..|s|] == s;
    if HexValue(c).Some? {
      DigitsOf(s + [c]);
    }
  }

  /** A ten-digit id in lower case is a 40-bit number, and no other such id has the same value. */
  lemma MemberIdIsNumber(a: string, b: string)
    requires IsLowerHexId(a, 10) && IsLowerHexId(b, 10)
    ensures ParseHex(a).Some? && ParseHex(a).value < 0x100_0000_0000
    ensures ParseHex(a) == ParseHex(b) <==> a == b
  {
    DigitsAreInjective(a, b);
    DigitsBound(a);
    DigitsBound(b);
    Pow16Values();
  }

  lemma {:induction false} DigitsBound(s: string)
    ensures Digits(s).Some? ==> Digits(s).value < Pow16(|s|)
  {
    if s != "" {
      DigitsBound(s[..|s| - 1]);
    }
  }

  function Pow16(n: nat): nat {
    if n == 0 then 1 else 16 * Pow16(n - 1)
  }

  lemma Pow16Values()
    ensures Pow16(10) == 0x100_0000_0000
  {
    assert Pow16(4) == 0x1_0000;
    assert Pow16(8) == 16 * (16 * (16 * (16 * Pow16(4))));
  }

  // ----- Derived IPv6 addresses -----------------------------------------------------------------

  type u64 = x: int | 0 <= x < 0x1_0000_0000_0000_0000

  function XorByte(a: byte, b: byte): byte {
    (a as bv8 ^ b as bv8) as int
  }

  /** The four bytes of a network id's high half, each xor its counterpart in the low half. */
  function Fold(nwid: u64): (o: Bytes)
    ensures |o| == 4
  {
    PowValues();
    var o := ToBytes(nwid, 8);
    [XorByte(o[0], o[4]), XorByte(o[1], o[5]), XorByte(o[2], o[6]), XorByte(o[3], o[7])]
  }

  /** The low five bytes of a member id. */
  function MemberOctets(member: u64): (o: Bytes)
    ensures |o| == 5
  {
    PowValues();
    ToBytes(member, 8)[3..]
  }

  function SixPlaneOctets(nwid: u64, member: u64): (o: Bytes)
    ensures |o| == 16
  {
    PowValues();
    [0xfc] + Fold(nwid) + MemberOctets(member) + [0, 0, 0, 0, 0, 1]
  }

  function Rfc4193Octets(nwid: u64, member: u64): (o: Bytes)
    ensures |o| == 16
  {
    PowValues();
    [0xfd] + ToBytes(nwid, 8) + [0x99, 0x93] + MemberOctets(member)
  }

  function FromOctets(o: Bytes): Addr
    requires |o| == 16
  {
    PowValues();
    V6(FromBytes(o))
  }

  function SixPlane(nwid: string, member: string): Option<Addr> {
    match (ParseHex(nwid), ParseHex(member))
    case (Some(n), Some(m)) => Some(FromOctets(SixPlaneOctets(n, m)))
    case _ => None
  }

  function Rfc4193(nwid: string, member: string): Option<Addr> {
    match (ParseHex(nwid), ParseHex(member))
    case (Some(n), Some(m)) => Some(FromOctets(Rfc4193Octets(n, m)))
    case _ => None
  }

  lemma OctetsAreInjective(a: Bytes, b: Bytes)
    requires |a| == 16 && |b| == 16
    ensures FromOctets(a) == FromOctets(b) <==> a == b
  {
    EncodeDecode(a);
    EncodeDecode(b);
  }

  /** The five bytes hold a 40-bit member id whole. */
  lemma MemberFromOctets(member: u64)
    requires member < 0x100_0000_0000
    ensures FromBytes(MemberOctets(member)) == member
  {
    PowValues();
    var bs := ToBytes(member, 8);
    assert bs == bs[..3] + bs[3..];
    Concatenation(bs[..3], bs[3..]);
    DecodeEncode(member, 8);
  }

  lemma SixPlaneParts(nwid: u64, member: u64)
    requires member < 0x100_0000_0000
    ensures SixPlaneOctets(nwid, member)[0] == 0xfc
    ensures SixPlaneOctets(nwid, member)[1..5] == Fold(nwid)
    ensures FromBytes(SixPlaneOctets(nwid, member)[5..10]) == member
  {
    hide Fold, MemberOctets, ToBytes, FromBytes;
    PowValues();
    var o := SixPlaneOctets(nwid, member);
    assert o[5..10] == MemberOctets(member);
    MemberFromOctets(member);
  }

  /** An RFC 4193 address decodes back to the network and the member it was made for. */
  lemma Rfc4193Parts(nwid: u64, member: u64)
    requires member < 0x100_0000_0000
    ensures Rfc4193Octets(nwid, member)[0] == 0xfd
    ensures FromBytes(Rfc4193Octets(nwid, member)[1..9]) == nwid
    ensures FromBytes(Rfc4193Octets(nwid, member)[11..16]) == member
  {
    hide MemberOctets, ToBytes, FromBytes;
    PowValues();
    var o := Rfc4193Octets(nwid, member);
    assert o[1..9] == ToBytes(nwid, 8) && o[11..16] == MemberOctets(member);
    DecodeEncode(nwid, 8);
    MemberFromOctets(member);
  }

  /** When derived addresses coincide: 6PLANE folds the network id, RFC 4193 keeps it, and the families never meet. */
  lemma DerivedAddressesAreInjective(n1: u64, m1: u64, n2: u64, m2: u64)
    requires m1 < 0x100_0000_0000 && m2 < 0x100_0000_0000
    ensures FromOctets(SixPlaneOctets(n1, m1)) == FromOctets(SixPlaneOctets(n2, m2))
       <==> m1 == m2 && Fold(n1) == Fold(n2)
    ensures FromOctets(Rfc4193Octets(n1, m1)) == FromOctets(Rfc4193Octets(n2, m2)) <==> m1 == m2 && n1 == n2
    ensures FromOctets(SixPlaneOctets(n1, m1)) != FromOctets(Rfc4193Octets(n2, m2))
  {
    var s1, s2, r1, r2 := SixPlaneOctets(n1, m1), SixPlaneOctets(n2, m2), Rfc4193Octets(n1, m1), Rfc4193Octets(n2, m2);
    SixPlaneParts(n1, m1);
    SixPlaneParts(n2, m2);
    Rfc4193Parts(n1, m1);
    Rfc4193Parts(n2, m2);
    OctetsAreInjective(s1, s2);
    OctetsAreInjective(r1, r2);
    OctetsAreInjective(s1, r2);
  }

  /** The published vectors: fc26:c7be:cf5b:789:6437::1 and fdef:313f:b5c9:f681:7a99:935b:789:6437. */
  lemma PublishedVectors()
    ensures SixPlaneOctets(0xef313fb5c9f6817a, 0x5b07896437)
         == [0xfc, 0x26, 0xc7, 0xbe, 0xcf, 0x5b, 0x07, 0x89, 0x64, 0x37, 0, 0, 0, 0, 0, 1]
    ensures Rfc4193Octets(0xef313fb5c9f6817a, 0x5b07896437)
         == [0xfd, 0xef, 0x31, 0x3f, 0xb5, 0xc9, 0xf6, 0x81, 0x7a, 0x99, 0x93, 0x5b, 0x07, 0x89, 0x64, 0x37]
  {
    hide ToBytes, FromBytes, XorByte;
    PowValues();
    VectorNumbers();
    assert MemberOctets(0x5b07896437) == [0x5b, 0x07, 0x89, 0x64, 0x37];
  }

  lemma VectorNumbers()
    ensures Pow256(8) == 0x1_0000_0000_0000_0000
    ensures ToBytes(0xef313fb5c9f6817a, 8) == [0xef, 0x31, 0x3f, 0xb5, 0xc9, 0xf6, 0x81, 0x7a]
    ensures ToBytes(0x5b07896437, 8) == [0, 0, 0, 0x5b, 0x07, 0x89, 0x64, 0x37]
    ensures XorByte(0xef, 0xc9) == 0x26 && XorByte(0x31, 0xf6) == 0xc7
    ensures XorByte(0x3f, 0x81) == 0xbe && XorByte(0xb5, 0x7a) == 0xcf
  {
    hide ToBytes, FromBytes, Pow256;
    PowValues();
    var n, m := [0xef, 0x31, 0x3f, 0xb5, 0xc9, 0xf6, 0x81, 0x7a], [0, 0, 0, 0x5b, 0x07, 0x89, 0x64, 0x37];
    assert Value(n, 2) == 0xef31 && Value(n, 4) == 0xef313fb5 && Value(n, 6) == 0xef313fb5c9f6;
    assert Value(m, 2) == 0 && Value(m, 4) == 0x5b && Value(m, 6) == 0x5b0789;
    Encodes8(n, 0xef313fb5c9f6817a);
    Encodes8(m, 0x5b07896437);
  }

  /** Horner's scheme from the left. */
  function Value(bs: Bytes, n: nat): nat
    requires n <= |bs|
  {
    if n == 0 then 0 else Value(bs, n - 1) * 256 + bs[n - 1]
  }

  lemma {:induction false} ValueIsFromBytes(bs: Bytes, n: nat)
    requires n <= |bs|
    ensures Value(bs, n) == FromBytes(bs[..n])
  {
    if n > 0 {
      ValueIsFromBytes(bs, n - 1);
      assert bs[..n][..n - 1] == bs[..n - 1];
    }
  }

  lemma Encodes8(bs: Bytes, v: nat)
    requires |bs| == 8 && v == Value(bs, 8)
    ensures v < Pow256(8) && ToBytes(v, 8) == bs
  {
    ValueIsFromBytes(bs, 8);
    assert bs[..8] == bs;
    EncodeDecode(bs);
  }

  // ----- Address families by their text ---------------------------------------------------------

  /** The first of the eight groups, printed in hexadecimal without leading zeros. */
  function FirstGroup(v6: u128): nat {
    v6 / 0x1_0000_0000_0000_0000_0000_0000_0000
  }

  /** The text of the address starts with the two hexadecimal digits of `prefix`. */
  predicate TextStartsWith(v6: u128, prefix: nat) {
    var g := FirstGroup(v6);
    g / 256 == prefix || g / 16 == prefix || g == prefix
  }

  predicate LooksFc(a: Addr) {
    a.V6? && TextStartsWith(a.v6, 0xfc)
  }

  predicate LooksFd(a: Addr) {
    a.V6? && TextStartsWith(a.v6, 0xfd)
  }

  predicate IsCustom(a: Addr) {
    a.V6? && !LooksFc(a) && !LooksFd(a)
  }

  lemma FirstGroupOfOctets(o: Bytes)
    requires |o| == 16
    ensures FirstGroup(FromOctets(o).v6) / 256 == o[0]
  {
    hide FromBytes, Pow256;
    PowValues();
    var hi, lo := FromBytes(o[..2]), FromBytes(o[2..]);
    assert o == o[..2] + o[2..];
    Concatenation(o[..2], o[2..]);
    assert FromBytes(o) == hi * 0x1_0000_0000_0000_0000_0000_0000_0000 + lo;
    assert lo < 0x1_0000_0000_0000_0000_0000_0000_0000;
    assert FirstGroup(FromOctets(o).v6) == hi;
    TwoOctets(o[..2]);
  }

  lemma TwoOctets(o: Bytes)
    requires |o| == 2
    ensures FromBytes(o) / 256 == o[0]
  {
    ValueIsFromBytes(o, 2);
    assert o[..2] == o;
    assert Value(o, 2) == Value(o, 1) * 256 + o[1] && Value(o, 1) == o[0];
  }

  lemma PrefixOfGroup(v6: u128, prefix: nat)
    requires FirstGroup(v6) / 256 == prefix && 0xfc <= prefix <= 0xfd
    ensures TextStartsWith(v6, prefix)
    ensures forall other :: 0xfc <= other <= 0xfd && other != prefix ==> !TextStartsWith(v6, other)
  {
  }

  lemma DerivedFamilies(nwid: string, member: string)
    ensures SixPlane(nwid, member).Some? ==>
              LooksFc(SixPlane(nwid, member).value) && !LooksFd(SixPlane(nwid, member).value)
    ensures Rfc4193(nwid, member).Some? ==>
              LooksFd(Rfc4193(nwid, member).value) && !LooksFc(Rfc4193(nwid, member).value)
  {
    hide FirstGroup, TextStartsWith;
    if ParseHex(nwid).Some? && ParseHex(member).Some? {
      var n, m := ParseHex(nwid).value, ParseHex(member).value;
      FirstGroupOfOctets(SixPlaneOctets(n, m));
      FirstGroupOfOctets(Rfc4193Octets(n, m));
      PrefixOfGroup(SixPlane(nwid, member).value.v6, 0xfc);
      PrefixOfGroup(Rfc4193(nwid, member).value.v6, 0xfd);
    }
  }

  function HexChar(d: nat): (c: char)
    requires d < 16
    ensures HexValue(c) == Some(d)
  {
    if d < 10 then '0' + d as char else 'a' + (d - 10) as char
  }

  /** `{:x}` of a group: lower-case hexadecimal without leading zeros. */
  function GroupText(g: nat): (t: string)
    ensures t != ""
  {
    if g < 16 then [HexChar(g)] else GroupText(g / 16) + [HexChar(g % 16)]
  }

  /** The tests are what they are called: they look at the first two digits of the address as it is printed. */
  lemma PrefixTestsReadText(v6: u128)
    ensures LooksFc(V6(v6)) <==> "fc" <= GroupText(FirstGroup(v6))
    ensures LooksFd(V6(v6)) <==> "fd" <= GroupText(FirstGroup(v6))
  {
    GroupPrefix(FirstGroup(v6));
  }

  lemma GroupPrefix(g: nat)
    requires g < 0x1_0000
    ensures "fc" <= GroupText(g) <==> g / 256 == 0xfc || g / 16 == 0xfc || g == 0xfc
    ensures "fd" <= GroupText(g) <==> g / 256 == 0xfd || g / 16 == 0xfd || g == 0xfd
  {
    hide GroupText;
    assert g / 16 / 16 == g / 256;
    if g < 16 {
      GroupTextOf(g);
    } else if g < 256 {
      TwoDigits(g);
    } else if g < 4096 {
      TwoDigits(g / 16);
      OneMoreDigit(g);
    } else {
      TwoDigits(g / 256);
      OneMoreDigit(g / 16);
      OneMoreDigit(g);
    }
  }

  lemma TwoDigits(g: nat)
    requires 16 <= g < 256
    ensures |GroupText(g)| == 2
    ensures "fc" <= GroupText(g) <==> g == 0xfc
    ensures "fd" <= GroupText(g) <==> g == 0xfd
  {
    hide GroupText;
    GroupTextOf(g);
    GroupTextOf(g / 16);
    assert GroupText(g) == [HexChar(g / 16), HexChar(g % 16)];
    StartsWith("fc", GroupText(g));
    StartsWith("fd", GroupText(g));
  }

  lemma StartsWith(two: string, t: string)
    requires |two| == 2 && |t| >= 2
    ensures two <= t <==> t[0] == two[0] && t[1] == two[1]
  {
  }

  lemma OneMoreDigit(g: nat)
    requires g >= 16 && |GroupText(g / 16)| >= 2
    ensures |GroupText(g)| == |GroupText(g / 16)| + 1
    ensures "fc" <= GroupText(g) <==> "fc" <= GroupText(g / 16)
    ensures "fd" <= GroupText(g) <==> "fd" <= GroupText(g / 16)
  {
    hide GroupText;
    GroupTextOf(g);
    var t, u := GroupText(g / 16), GroupText(g);
    assert u[0] == t[0] && u[1] == t[1];
    StartsWith("fc", t);
    StartsWith("fc", u);
    StartsWith("fd", t);
    StartsWith("fd", u);
  }

  lemma GroupTextOf(g: nat)
    ensures GroupText(g)
         == if g < 16 then [HexChar(g)] else GroupText(g / 16) + [HexChar(g % 16)]
  {
  }

  // ----- Pools ----------------------------------------------------------------------------------

  /** The two ends as far as they parse as addresses. */
  datatype Pool = Pool(start: Option<Addr>, end: Option<Addr>)

  predicate IsV4Pool(p: Pool) {
    && p.start.Some? && p.start.value.V4? && p.end.Some? && p.end.value.V4?
    && p.start.value.v4 <= p.end.value.v4
  }

  predicate IsV6Pool(p: Pool) {
    && p.start.Some? && p.start.value.V6? && p.end.Some? && p.end.value.V6?
    && p.start.value.v6 <= p.end.value.v6
  }

  /** Lies in the pool. */
  predicate InPool(a: Addr, p: Pool) {
    match a
    case V4(n) => IsV4Pool(p) && p.start.value.v4 <= n <= p.end.value.v4
    case V6(n) => IsV6Pool(p) && p.start.value.v6 <= n <= p.end.value.v6
  }

  /** The least unused address of a range. */
  function FirstFree(used: set<Addr>, start: u32, end: u32): (r: Option<u32>)
    requires start <= end
    ensures r.Some? ==> start <= r.value <= end && V4(r.value) !in used
    ensures r.Some? ==> forall x: u32 :: start <= x < r.value ==> V4(x) in used
    ensures r == None ==> forall x: u32 :: start <= x <= end ==> V4(x) in used
    decreases end - start
  {
    if V4(start) !in used then Some(start)
    else if start == end then None
    else FirstFree(used, start + 1, end)
  }

  /** No address of the pool is free. */
  ghost predicate V4Exhausted(used: set<Addr>, p: Pool) {
    forall x: u32 :: InPool(V4(x), p) ==> V4(x) in used
  }

  /** `a` is the least free address of pool `i`, and the pools before it are exhausted. */
  ghost predicate IsNextV4(used: set<Addr>, pools: seq<Pool>, a: Addr, i: nat) {
    && i < |pools| && a.V4? && InPool(a, pools[i]) && a !in used
    && (forall x: u32 :: InPool(V4(x), pools[i]) && x < a.v4 ==> V4(x) in used)
    && (forall k :: 0 <= k < i ==> V4Exhausted(used, pools[k]))
  }

  function NextFreeIp(used: set<Addr>, pools: seq<Pool>): (r: Option<Addr>)
    ensures r.Some? ==> exists i: nat :: IsNextV4(used, pools, r.value, i)
    ensures r == None ==> forall k :: 0 <= k < |pools| ==> V4Exhausted(used, pools[k])
  {
    if pools == [] then None
    else
      var p := pools[0];
      var r := if IsV4Pool(p) then FirstFree(used, p.start.value.v4, p.end.value.v4) else None;
      if r.Some? then
        assert IsNextV4(used, pools, V4(r.value), 0);
        Some(V4(r.value))
      else
        assert V4Exhausted(used, p);
        var rest := NextFreeIp(used, pools[1..]);
        NextOfTail(used, pools, rest);
        rest
  }

  lemma NextOfTail(used: set<Addr>, pools: seq<Pool>, r: Option<Addr>)
    requires pools != [] && V4Exhausted(used, pools[0])
    ensures r.Some? ==> forall i: nat ::
      IsNextV4(used, pools[1..], r.value, i) ==> IsNextV4(used, pools, r.value, i + 1)
  {
    if r.Some? {
      forall i: nat | IsNextV4(used, pools[1..], r.value, i)
        ensures IsNextV4(used, pools, r.value, i + 1)
      {
        assert forall k :: 0 < k <= i ==> pools[k] == pools[1..][k - 1];
      }
    }
  }

  /** The allocator on one pool, in numbers: the least unused address between its ends, and none iff all are used. */
  lemma AllocatedIpExactly(used: set<Addr>, start: u32, end: u32)
    requires start <= end
    ensures var r := NextFreeIp(used, [Pool(Some(V4(start)), Some(V4(end)))]);
      && (r == None <==> forall y: u32 :: start <= y <= end ==> V4(y) in used)
      && (forall x: u32 :: r == Some(V4(x)) <==>
            start <= x <= end && V4(x) !in used && forall y: u32 :: start <= y < x ==> V4(y) in used)
  {
  }

  /** A pool with an end missing, with ends of two families, or with its ends reversed is passed over. */
  lemma MalformedPoolsAreSkipped(used: set<Addr>, p: Pool, pools: seq<Pool>)
    requires p.start == None || p.end == None || p.start.value.V6? || p.end.value.V6?
             || p.end.value.v4 < p.start.value.v4
    ensures NextFreeIp(used, [p] + pools) == NextFreeIp(used, pools)
  {
    assert ([p] + pools)[1..] == pools;
  }

  /** The inner loop: candidates from the start of a pool on. */
  method FindInRange(used: set<Addr>, start: u32, end: u32) returns (r: Option<u32>)
    requires start <= end
    ensures r == FirstFree(used, start, end)
  {
    for candidate := start to end
      invariant FirstFree(used, start, end) == FirstFree(used, candidate, end)
    {
      if V4(candidate) !in used {
        return Some(candidate);
      }
    }
    r := if V4(end) !in used then Some(end) else None;
  }

  method FindFreeIp(used: set<Addr>, pools: seq<Pool>) returns (r: Option<Addr>)
    ensures r == NextFreeIp(used, pools)
  {
    assert pools[0..] == pools;
    for i := 0 to |pools|
      invariant NextFreeIp(used, pools) == NextFreeIp(used, pools[i..])
    {
      var pool := pools[i];
      assert pools[i..][0] == pool && pools[i..][1..] == pools[i + 1..];
      if IsV4Pool(pool) {
        var found := FindInRange(used, pool.start.value.v4, pool.end.value.v4);
        if found.Some? {
          return Some(V4(found.value));
        }
      }
    }
    r := None;
  }

  /** The first sixteen bytes of the keyed HMAC over a pool, a network, a member and a counter. */
  type Rid = (u128, u128, string, string, nat) -> u128

  /** All of the IPv6 space: the one range whose size does not fit the arithmetic (a division by zero). */
  predicate IsWholeSpace(start: u128, end: u128) {
    start == 0 && end == 0xffff_ffff_ffff_ffff_ffff_ffff_ffff_ffff
  }

  function CheckedAdd(a: u128, b: u128): Option<u128> {
    if a + b < 0x1_0000_0000_0000_0000_0000_0000_0000_0000 then Some(a + b) else None
  }

  /** The `dad`-th candidate of a member within a range. */
  function OpaqueIp(rid: Rid, start: u128, end: u128, nwid: string, member: string, dad: nat): (r: Option<u128>)
    requires !IsWholeSpace(start, end)
    ensures r.Some? <==> start <= end
    ensures r.Some? ==> start <= r.value <= end
    ensures r.Some? ==> (rid(start, end, nwid, member, dad) - (r.value - start)) % (end - start + 1) == 0
  {
    if end < start then None
    else
      var size := end - start;
      if size == 0 then Some(start)
      else
        var offset := rid(start, end, nwid, member, dad) % (size + 1);
        RemainderIsUnique(rid(start, end, nwid, member, dad), offset, size + 1);
        CheckedAdd(start, offset)
  }

  const PROBES := 256

  /** `a` is candidate number `dad` of pool `p`. */
  predicate IsCandidate(rid: Rid, nwid: string, member: string, p: Pool, dad: nat, a: Addr) {
    && IsV6Pool(p) && !IsWholeSpace(p.start.value.v6, p.end.value.v6) && dad < PROBES && a.V6?
    && OpaqueIp(rid, p.start.value.v6, p.end.value.v6, nwid, member, dad) == Some(a.v6)
  }

  predicate NoWholeSpace(pools: seq<Pool>) {
    forall i :: 0 <= i < |pools| && IsV6Pool(pools[i]) ==> !IsWholeSpace(pools[i].start.value.v6, pools[i].end.value.v6)
  }

  /** Every candidate of the pool from this one on is in use. */
  ghost predicate CandidatesTaken(rid: Rid, used: set<Addr>, nwid: string, member: string, p: Pool, dad: nat) {
    forall k: nat, a :: dad <= k && IsCandidate(rid, nwid, member, p, k, a) ==> a in used
  }

  /** `a` is candidate `k`, unused, and the ones before it from `dad` on are in use. */
  ghost predicate IsFirstUnused(rid: Rid, used: set<Addr>, nwid: string, member: string, p: Pool, dad: nat, k: nat,
                                a: Addr) {
    && dad <= k && IsCandidate(rid, nwid, member, p, k, a) && a !in used
    && forall d: nat, c :: dad <= d < k && IsCandidate(rid, nwid, member, p, d, c) ==> c in used
  }

  function Candidate(rid: Rid, nwid: string, member: string, p: Pool, dad: nat): (a: Addr)
    requires IsV6Pool(p) && !IsWholeSpace(p.start.value.v6, p.end.value.v6) && dad < PROBES
    ensures a.V6? && IsCandidate(rid, nwid, member, p, dad, a)
  {
    V6(OpaqueIp(rid, p.start.value.v6, p.end.value.v6, nwid, member, dad).value)
  }

  lemma CandidateIsUnique(rid: Rid, nwid: string, member: string, p: Pool, dad: nat, a: Addr, b: Addr)
    requires IsCandidate(rid, nwid, member, p, dad, a) && IsCandidate(rid, nwid, member, p, dad, b)
    ensures a == b
  {
  }

  function Probe(rid: Rid, used: set<Addr>, nwid: string, member: string, p: Pool, dad: nat): Option<Addr>
    requires IsV6Pool(p) && !IsWholeSpace(p.start.value.v6, p.end.value.v6) && dad <= PROBES
    decreases PROBES - dad
  {
    if dad == PROBES then None
    else if Candidate(rid, nwid, member, p, dad) !in used then Some(Candidate(rid, nwid, member, p, dad))
    else Probe(rid, used, nwid, member, p, dad + 1)
  }

  lemma {:induction false} ProbeFinds(rid: Rid, used: set<Addr>, nwid: string, member: string, p: Pool, dad: nat)
    requires IsV6Pool(p) && !IsWholeSpace(p.start.value.v6, p.end.value.v6) && dad <= PROBES
    ensures var r := Probe(rid, used, nwid, member, p, dad);
      && (r.Some? ==> exists k: nat :: IsFirstUnused(rid, used, nwid, member, p, dad, k, r.value))
      && (r == None <==> CandidatesTaken(rid, used, nwid, member, p, dad))
    decreases PROBES - dad
  {
    hide OpaqueIp, Candidate, IsV6Pool, IsWholeSpace;
    if dad == PROBES {
      assert CandidatesTaken(rid, used, nwid, member, p, dad);
    } else {
      var a := Candidate(rid, nwid, member, p, dad);
      if a !in used {
        assert IsFirstUnused(rid, used, nwid, member, p, dad, dad, a);
      } else {
        ProbeFinds(rid, used, nwid, member, p, dad + 1);
        ProbeOfRest(rid, used, nwid, member, p, dad, a);
        var r := Probe(rid, used, nwid, member, p, dad + 1);
        if r.Some? {
          var k: nat :| IsFirstUnused(rid, used, nwid, member, p, dad + 1, k, r.value);
          assert IsFirstUnused(rid, used, nwid, member, p, dad, k, r.value);
        }
      }
    }
  }

  lemma ProbeOfRest(rid: Rid, used: set<Addr>, nwid: string, member: string, p: Pool, dad: nat, a: Addr)
    requires IsCandidate(rid, nwid, member, p, dad, a) && a in used
    ensures forall k: nat, c ::
      IsFirstUnused(rid, used, nwid, member, p, dad + 1, k, c) ==> IsFirstUnused(rid, used, nwid, member, p, dad, k, c)
    ensures CandidatesTaken(rid, used, nwid, member, p, dad + 1) <==> CandidatesTaken(rid, used, nwid, member, p, dad)
  {
    hide IsCandidate;
    forall c | IsCandidate(rid, nwid, member, p, dad, c)
      ensures c == a
    {
      CandidateIsUnique(rid, nwid, member, p, dad, c, a);
    }
  }

  /** `a` is the first unused candidate of pool `i`, and every candidate of the pools before it is in use. */
  ghost predicate IsNextV6(rid: Rid, used: set<Addr>, nwid: string, member: string, pools: seq<Pool>, a: Addr, i: nat) {
    && i < |pools| && InPool(a, pools[i])
    && (exists k: nat :: IsFirstUnused(rid, used, nwid, member, pools[i], 0, k, a))
    && (forall j :: 0 <= j < i ==> CandidatesTaken(rid, used, nwid, member, pools[j], 0))
  }

  /** The first unused candidate of the first pool that has one; none exactly when all candidates of all are in use. */
  function NextFreeIpv6(rid: Rid, used: set<Addr>, nwid: string, member: string, pools: seq<Pool>): (r: Option<Addr>)
    requires NoWholeSpace(pools)
    ensures r.Some? ==> r.value.V6? && r.value !in used && exists p :: p in pools && InPool(r.value, p)
    ensures r.Some? ==> exists i: nat :: IsNextV6(rid, used, nwid, member, pools, r.value, i)
    ensures r == None <==> forall i :: 0 <= i < |pools| ==> CandidatesTaken(rid, used, nwid, member, pools[i], 0)
  {
    if pools == [] then None
    else
      var r := if IsV6Pool(pools[0]) then Probe(rid, used, nwid, member, pools[0], 0) else None;
      PoolProbed(rid, used, nwid, member, pools[0], r);
      if r.Some? then
        FirstUnusedIsInPool(rid, used, nwid, member, pools[0], 0, r.value);
        assert IsNextV6(rid, used, nwid, member, pools, r.value, 0);
        r
      else
        assert NoWholeSpace(pools[1..]);
        var rest := NextFreeIpv6(rid, used, nwid, member, pools[1..]);
        NextV6OfTail(rid, used, nwid, member, pools, rest);
        rest
  }

  lemma PoolProbed(rid: Rid, used: set<Addr>, nwid: string, member: string, p: Pool, r: Option<Addr>)
    requires IsV6Pool(p) ==>
      !IsWholeSpace(p.start.value.v6, p.end.value.v6) && r == Probe(rid, used, nwid, member, p, 0)
    requires !IsV6Pool(p) ==> r == None
    ensures r.Some? ==> exists k: nat :: IsFirstUnused(rid, used, nwid, member, p, 0, k, r.value)
    ensures r == None <==> CandidatesTaken(rid, used, nwid, member, p, 0)
  {
    if IsV6Pool(p) {
      ProbeFinds(rid, used, nwid, member, p, 0);
    }
  }

  lemma FirstUnusedIsInPool(rid: Rid, used: set<Addr>, nwid: string, member: string, p: Pool, dad: nat, a: Addr)
    requires exists k: nat :: IsFirstUnused(rid, used, nwid, member, p, dad, k, a)
    ensures a.V6? && a !in used && InPool(a, p)
  {
  }

  lemma NextV6OfTail(rid: Rid, used: set<Addr>, nwid: string, member: string, pools: seq<Pool>, r: Option<Addr>)
    requires pools != [] && CandidatesTaken(rid, used, nwid, member, pools[0], 0)
    ensures r.Some? ==> forall i: nat ::
      IsNextV6(rid, used, nwid, member, pools[1..], r.value, i) ==>
        IsNextV6(rid, used, nwid, member, pools, r.value, i + 1)
    ensures (forall i :: 0 <= i < |pools[1..]| ==> CandidatesTaken(rid, used, nwid, member, pools[1..][i], 0))
       <==> (forall i :: 0 <= i < |pools| ==> CandidatesTaken(rid, used, nwid, member, pools[i], 0))
  {
    hide CandidatesTaken, IsFirstUnused, InPool;
    assert pools == [pools[0]] + pools[1..];
    assert forall k :: 0 < k < |pools| ==> pools[k] == pools[1..][k - 1];
  }

  /** The probing loop over one pool. */
  method ProbePool(rid: Rid, used: set<Addr>, nwid: string, member: string, p: Pool) returns (r: Option<Addr>)
    requires IsV6Pool(p) && !IsWholeSpace(p.start.value.v6, p.end.value.v6)
    ensures r == Probe(rid, used, nwid, member, p, 0)
  {
    for dad := 0 to PROBES
      invariant Probe(rid, used, nwid, member, p, 0) == Probe(rid, used, nwid, member, p, dad)
    {
      var candidate := OpaqueIp(rid, p.start.value.v6, p.end.value.v6, nwid, member, dad);
      if candidate.Some? && V6(candidate.value) !in used {
        return Some(V6(candidate.value));
      }
    }
    r := None;
  }

  method FindFreeIpv6(rid: Rid, used: set<Addr>, nwid: string, member: string, pools: seq<Pool>)
    returns (r: Option<Addr>)
    requires NoWholeSpace(pools)
    ensures r == NextFreeIpv6(rid, used, nwid, member, pools)
  {
    hide Probe;
    assert pools[0..] == pools;
    for i := 0 to |pools|
      invariant NoWholeSpace(pools[i..])
      invariant NextFreeIpv6(rid, used, nwid, member, pools) == NextFreeIpv6(rid, used, nwid, member, pools[i..])
    {
      var pool := pools[i];
      assert pools[i..][0] == pool && pools[i..][1..] == pools[i + 1..];
      if IsV6Pool(pool) {
        var found := ProbePool(rid, used, nwid, member, pool);
        if found.Some? {
          return found;
        }
      }
      assert NoWholeSpace(pools[i + 1..]);
    }
    r := None;
  }

  // ----- Candidates in numbers ------------------------------------------------------------------

  /** Where the hash of a member and a counter falls in a pool. */
  function Remainder(rid: Rid, start: u128, end: u128, nwid: string, member: string, dad: nat): (r: nat)
    requires start <= end
    ensures r <= end - start
  {
    rid(start, end, nwid, member, dad) % (end - start + 1)
  }

  function Slot(rid: Rid, start: u128, end: u128, nwid: string, member: string, dad: nat): Addr
    requires start <= end
  {
    V6(start + Remainder(rid, start, end, nwid, member, dad))
  }

  /** A candidate is the start of the pool plus the remainder of the hash, and there are 256 of them. */
  lemma CandidateExactly(rid: Rid, start: u128, end: u128, nwid: string, member: string, dad: nat, x: u128)
    requires start <= end && !IsWholeSpace(start, end)
    ensures OpaqueIp(rid, start, end, nwid, member, dad) == Some(x)
       <==> start <= x <= end && (rid(start, end, nwid, member, dad) - (x - start)) % (end - start + 1) == 0
    ensures OpaqueIp(rid, start, end, nwid, member, dad)
         == Some(start + rid(start, end, nwid, member, dad) % (end - start + 1))
    ensures IsCandidate(rid, nwid, member, Pool(Some(V6(start)), Some(V6(end))), dad, V6(x))
       <==> dad < 256 && x == start + rid(start, end, nwid, member, dad) % (end - start + 1)
  {
    var h, size := rid(start, end, nwid, member, dad), end - start + 1;
    assert size == 1 ==> h % size == 0;
    if start <= x <= end {
      RemainderIsUnique(h, x - start, size);
    }
  }

  lemma RemainderIsUnique(h: nat, r: nat, size: nat)
    requires r < size
    ensures (h - r) % size == 0 <==> h % size == r
  {
    var q, m := h / size, h % size;
    assert h == q * size + m;
    MultipleAndRest(q, size, m - r);
  }

  lemma MultipleAndRest(q: nat, size: nat, d: int)
    requires 0 < d + size && d < size
    ensures (q * size + d) % size == 0 <==> d == 0
  {
    if d >= 0 {
      ModuloOfSum(q, size, d);
    } else {
      assert q * size + d == (q - 1) * size + (size + d);
      ModuloOfSum(q - 1, size, size + d);
    }
  }

  lemma ModuloOfSum(q: int, size: nat, d: nat)
    requires d < size
    ensures (q * size + d) % size == d
  {
    var x := q * size + d;
    var q', m := x / size, x % size;
    assert x == q' * size + m && 0 <= m < size;
    assert (q - q') * size == m - d;
    SmallMultiple(q - q', size, m - d);
  }

  lemma SmallMultiple(k: int, size: nat, d: int)
    requires k * size == d && 0 < d + size && d < size
    ensures k == 0
  {
    MultipleIsLarge(k, size);
  }

  lemma MultipleIsLarge(k: int, size: nat)
    ensures k >= 1 ==> k * size >= size
    ensures k <= -1 ==> k * size + size <= 0
  {
    if k >= 1 {
      assert k * size == (k - 1) * size + size;
    } else if k <= -1 {
      assert k * size + size == -((-1 - k) * size);
    }
  }

  /** Two probes of a pool, of one member or two, give one candidate iff their hashes agree modulo its size. */
  lemma CandidatesCoincideExactly(rid: Rid, start: u128, end: u128, nwid: string, m1: string, d1: nat, m2: string,
                                  d2: nat)
    requires start <= end && !IsWholeSpace(start, end)
    ensures OpaqueIp(rid, start, end, nwid, m1, d1) == OpaqueIp(rid, start, end, nwid, m2, d2)
       <==> rid(start, end, nwid, m1, d1) % (end - start + 1) == rid(start, end, nwid, m2, d2) % (end - start + 1)
  {
    hide OpaqueIp;
    CandidateExactly(rid, start, end, nwid, m1, d1, 0);
    CandidateExactly(rid, start, end, nwid, m2, d2, 0);
  }

  /** The allocator on one pool, in numbers: the first of 256 slots that is unused, and none iff they all are used. */
  lemma AllocatedSlotExactly(rid: Rid, used: set<Addr>, nwid: string, member: string, start: u128, end: u128)
    requires start <= end && !IsWholeSpace(start, end)
    ensures var r := NextFreeIpv6(rid, used, nwid, member, [Pool(Some(V6(start)), Some(V6(end)))]);
      && (r == None <==> forall k: nat :: k < 256 ==> Slot(rid, start, end, nwid, member, k) in used)
      && (forall k: nat ::
            && k < 256 && Slot(rid, start, end, nwid, member, k) !in used
            && (forall d: nat :: d < k ==> Slot(rid, start, end, nwid, member, d) in used)
            ==> r == Some(Slot(rid, start, end, nwid, member, k)))
  {
    hide OpaqueIp, IsCandidate, Slot, NextFreeIpv6;
    var p := Pool(Some(V6(start)), Some(V6(end)));
    forall k: nat, a
      ensures IsCandidate(rid, nwid, member, p, k, a) <==> k < 256 && a == Slot(rid, start, end, nwid, member, k)
    {
      SlotIsCandidate(rid, nwid, member, start, end, k, a);
    }
    assert forall k: nat :: k < 256 ==> IsCandidate(rid, nwid, member, p, k, Slot(rid, start, end, nwid, member, k));
    var r := NextFreeIpv6(rid, used, nwid, member, [p]);
    if r.Some? {
      var i: nat :| IsNextV6(rid, used, nwid, member, [p], r.value, i);
      var k: nat :| IsFirstUnused(rid, used, nwid, member, [p][i], 0, k, r.value);
      assert [p][i] == p;
      forall k': nat | k' < 256 && Slot(rid, start, end, nwid, member, k') !in used
                       && (forall d: nat :: d < k' ==> Slot(rid, start, end, nwid, member, d) in used)
        ensures k' == k
      {
        assert IsCandidate(rid, nwid, member, p, k', Slot(rid, start, end, nwid, member, k'));
      }
    } else {
      assert CandidatesTaken(rid, used, nwid, member, [p][0], 0);
    }
  }

  lemma SlotIsCandidate(rid: Rid, nwid: string, member: string, start: u128, end: u128, k: nat, a: Addr)
    requires start <= end && !IsWholeSpace(start, end)
    ensures IsCandidate(rid, nwid, member, Pool(Some(V6(start)), Some(V6(end))), k, a)
       <==> k < 256 && a == Slot(rid, start, end, nwid, member, k)
  {
    hide OpaqueIp;
    if a.V6? {
      CandidateExactly(rid, start, end, nwid, member, k, a.v6);
    }
  }

  lemma SlotsByRemainder(rid: Rid, start: u128, end: u128, nwid: string, member: string, d: nat)
    requires start <= end
    ensures Slot(rid, start, end, nwid, member, d) == Slot(rid, start, end, nwid, member, 0)
       <==> Remainder(rid, start, end, nwid, member, d) == Remainder(rid, start, end, nwid, member, 0)
  {
    hide Remainder;
  }

  /** When only the first candidate is used, a member is given the next one whose hash differs modulo the size. */
  lemma TakenCandidateIsStepped(rid: Rid, nwid: string, member: string, start: u128, end: u128, k: nat)
    requires start <= end && !IsWholeSpace(start, end) && 0 < k < 256
    requires forall d: nat :: d < k ==>
      Remainder(rid, start, end, nwid, member, d) == Remainder(rid, start, end, nwid, member, 0)
    requires Remainder(rid, start, end, nwid, member, k) != Remainder(rid, start, end, nwid, member, 0)
    ensures NextFreeIpv6(rid, {Slot(rid, start, end, nwid, member, 0)}, nwid, member,
                         [Pool(Some(V6(start)), Some(V6(end)))])
         == Some(Slot(rid, start, end, nwid, member, k))
  {
    hide NextFreeIpv6, Remainder, IsWholeSpace, Slot;
    var used := {Slot(rid, start, end, nwid, member, 0)};
    forall d: nat
      ensures Slot(rid, start, end, nwid, member, d) in used
         <==> Remainder(rid, start, end, nwid, member, d) == Remainder(rid, start, end, nwid, member, 0)
    {
      SlotsByRemainder(rid, start, end, nwid, member, d);
    }
    AllocatedSlotExactly(rid, used, nwid, member, start, end);
  }

  // ----- Completeness ---------------------------------------------------------------------------

  /** The first `n` candidates of a pool. */
  function Candidates(rid: Rid, nwid: string, member: string, p: Pool, n: nat): (c: set<Addr>)
    requires IsV6Pool(p) && !IsWholeSpace(p.start.value.v6, p.end.value.v6) && n <= PROBES
    ensures |c| <= n
  {
    if n == 0 then {} else Candidates(rid, nwid, member, p, n - 1) + {Candidate(rid, nwid, member, p, n - 1)}
  }

  lemma {:induction false} CandidatesHave(rid: Rid, nwid: string, member: string, p: Pool, n: nat, a: Addr)
    requires IsV6Pool(p) && !IsWholeSpace(p.start.value.v6, p.end.value.v6) && n <= PROBES
    ensures a in Candidates(rid, nwid, member, p, n)
       <==> exists k: nat :: k < n && IsCandidate(rid, nwid, member, p, k, a)
  {
    hide IsCandidate, Candidate, IsV6Pool, IsWholeSpace;
    if n > 0 {
      CandidatesHave(rid, nwid, member, p, n - 1, a);
      var last := Candidate(rid, nwid, member, p, n - 1);
      if IsCandidate(rid, nwid, member, p, n - 1, a) {
        CandidateIsUnique(rid, nwid, member, p, n - 1, a, last);
      }
    }
  }

  lemma CandidatesAreFew(rid: Rid, nwid: string, member: string, p: Pool, k: nat, a: Addr)
    requires IsCandidate(rid, nwid, member, p, k, a)
    ensures k < PROBES
  {
    hide OpaqueIp;
  }

  lemma AllCandidatesTaken(rid: Rid, nwid: string, member: string, p: Pool)
    requires IsV6Pool(p) && !IsWholeSpace(p.start.value.v6, p.end.value.v6)
    ensures NextFreeIpv6(rid, Candidates(rid, nwid, member, p, PROBES), nwid, member, [p]) == None
  {
    hide OpaqueIp, IsCandidate, Candidates, Candidate;
    var used := Candidates(rid, nwid, member, p, PROBES);
    forall k: nat, a | IsCandidate(rid, nwid, member, p, k, a)
      ensures a in used
    {
      CandidatesAreFew(rid, nwid, member, p, k, a);
      CandidatesHave(rid, nwid, member, p, PROBES, a);
    }
    assert CandidatesTaken(rid, used, nwid, member, [p][0], 0);
  }

  /** The IPv4 allocator gives up only on a full pool. For IPv6 that is so exactly if every address is a candidate. */
  lemma Ipv6AllocatorIsCompleteExactly(rid: Rid, nwid: string, member: string, p: Pool)
    requires IsV6Pool(p) && !IsWholeSpace(p.start.value.v6, p.end.value.v6)
    ensures (forall used: set<Addr>, x: u128 ::
               NextFreeIpv6(rid, used, nwid, member, [p]) == None && InPool(V6(x), p) ==> V6(x) in used)
       <==> (forall x: u128 :: InPool(V6(x), p) ==> exists k: nat :: IsCandidate(rid, nwid, member, p, k, V6(x)))
  {
    hide NextFreeIpv6, IsCandidate, Candidates;
    if forall x: u128 :: InPool(V6(x), p) ==> exists k: nat :: IsCandidate(rid, nwid, member, p, k, V6(x)) {
      forall used: set<Addr>, x: u128 | NextFreeIpv6(rid, used, nwid, member, [p]) == None && InPool(V6(x), p)
        ensures V6(x) in used
      {
        assert CandidatesTaken(rid, used, nwid, member, [p][0], 0);
      }
    } else {
      var x: u128 :| InPool(V6(x), p) && !exists k: nat :: IsCandidate(rid, nwid, member, p, k, V6(x));
      AllCandidatesTaken(rid, nwid, member, p);
      CandidatesHave(rid, nwid, member, p, PROBES, V6(x));
    }
  }

  /** The first `n` addresses from `start` on. */
  function Row(start: u128, n: nat): (c: set<Addr>)
    requires start + n <= 0x1_0000_0000_0000_0000_0000_0000_0000_0000
    ensures |c| == n
    ensures forall a :: a in c ==> a.V6? && start <= a.v6 < start + n
  {
    if n == 0 then {} else Row(start, n - 1) + {V6(start + n - 1)}
  }

  lemma {:induction false} SomethingIsLeft<T>(a: set<T>, b: set<T>) returns (x: T)
    requires |a| > |b|
    ensures x in a && x !in b
  {
    if y :| y in b {
      x := SomethingIsLeft(a - {y}, b - {y});
    } else {
      x :| x in a;
    }
  }

  /** So it gives up early on every pool of more than 256 addresses, whatever the hash: 256 of them are enough. */
  lemma Ipv6AllocatorGivesUpEarly(rid: Rid, nwid: string, member: string, start: u128, end: u128)
    returns (used: set<Addr>, free: Addr)
    requires end - start >= PROBES && !IsWholeSpace(start, end)
    ensures var pool := Pool(Some(V6(start)), Some(V6(end)));
      && |used| <= PROBES && free !in used && InPool(free, pool)
      && NextFreeIpv6(rid, used, nwid, member, [pool]) == None
  {
    hide NextFreeIpv6, Candidates, IsCandidate;
    var pool := Pool(Some(V6(start)), Some(V6(end)));
    used := Candidates(rid, nwid, member, pool, PROBES);
    AllCandidatesTaken(rid, nwid, member, pool);
    free := SomethingIsLeft(Row(start, PROBES + 1), used);
  }
}
