/** Fixed-width big-endian integers, as `to_be_bytes`/`from_be_bytes` lay them out. */
module BigEndian {
  type byte = b: int | 0 <= b < 256

  type Bytes = seq<byte>

  function Pow256(n: nat): (p: nat)
    ensures p > 0
  {
    if n == 0 then 1 else 256 * Pow256(n - 1)
  }

  /** The `n`-byte encoding of `v`, most significant byte first. */
  function ToBytes(v: nat, n: nat): (bs: Bytes)
    requires v < Pow256(n)
    ensures |bs| == n
  {
    if n == 0 then [] else ToBytes(v / 256, n - 1) + [v % 256]
  }

  function FromBytes(bs: Bytes): (v: nat)
    ensures v < Pow256(|bs|)
  {
    if bs == [] then 0 else FromBytes(bs[..|bs| - 1]) * 256 + bs[|bs| - 1]
  }

  lemma PowValues()
    ensures Pow256(1) == 256
    ensures Pow256(2) == 0x1_0000
    ensures Pow256(4) == 0x1_0000_0000
    ensures Pow256(5) == 0x100_0000_0000
    ensures Pow256(8) == 0x1_0000_0000_0000_0000
    ensures Pow256(14) == 0x1_0000_0000_0000_0000_0000_0000_0000
    ensures Pow256(16) == 0x1_0000_0000_0000_0000_0000_0000_0000_0000
  {
    assert Pow256(2) == 256 * Pow256(1);
    assert Pow256(4) == 256 * (256 * Pow256(2));
    assert Pow256(6) == 256 * (256 * Pow256(4));
    assert Pow256(8) == 256 * (256 * Pow256(6));
    assert Pow256(10) == 256 * (256 * Pow256(8));
    assert Pow256(12) == 256 * (256 * Pow256(10));
    assert Pow256(14) == 256 * (256 * Pow256(12));
    assert Pow256(16) == 256 * (256 * Pow256(14));
  }

  /** Decoding undoes encoding ... */
  lemma {:induction false} DecodeEncode(v: nat, n: nat)
    requires v < Pow256(n)
    ensures FromBytes(ToBytes(v, n)) == v
  {
    if n > 0 {
      DecodeEncode(v / 256, n - 1);
      var bs := ToBytes(v, n);
      assert bs[..|bs| - 1] == ToBytes(v / 256, n - 1);
    }
  }

  /** ... and encoding undoes decoding, so equal values of equal width are equal bytes. */
  lemma {:induction false} EncodeDecode(bs: Bytes)
    ensures ToBytes(FromBytes(bs), |bs|) == bs
  {
    if bs != [] {
      EncodeDecode(bs[..|bs| - 1]);
      assert bs == bs[..|bs| - 1] + [bs[|bs| - 1]];
    }
  }

  /** The value of a concatenation: the left part is shifted by the width of the right one. */
  lemma {:induction false} Concatenation(a: Bytes, b: Bytes)
    ensures FromBytes(a + b) == FromBytes(a) * Pow256(|b|) + FromBytes(b)
  {
    if b == [] {
      assert a + b == a;
    } else {
      var n, b' := |b| - 1, b[..|b| - 1];
      Concatenation(a, b');
      assert (a + b)[..|a + b| - 1] == a + b';
      Regroup(FromBytes(a), Pow256(n), FromBytes(b'), b[n]);
    }
  }

  lemma Regroup(x: int, p: int, y: int, z: int)
    ensures (x * p + y) * 256 + z == x * (256 * p) + (y * 256 + z)
  {
  }

  // Reassociation, for encoders that append piece by piece.

  lemma Nest3<T>(a: seq<T>, b: seq<T>, c: seq<T>)
    ensures a + b + c == a + (b + c)
  {
  }

  lemma Nest4<T>(a: seq<T>, b: seq<T>, c: seq<T>, d: seq<T>)
    ensures a + b + c + d == a + (b + (c + d))
  {
    Nest3(a + b, c, d);
    Nest3(a, b, c + d);
  }
}
