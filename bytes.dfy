/** Integer assembly from bytes, as Rust's `from_be_bytes` / `from_le_bytes` do it,
    with the matching encoders and two's-complement reinterpretation. */
module ByteCodec {

  type Byte = b: int | 0 <= b < 256

  function Pow2(n: nat): (p: int)
    ensures p >= 1
  {
    if n == 0 then 1 else 2 * Pow2(n - 1)
  }

  /** The powers of two the fixed-width integer types are built on. */
  lemma Pow2Table()
    ensures Pow2(8) == 0x100 && Pow2(7) == 0x80
    ensures Pow2(16) == 0x1_0000 && Pow2(15) == 0x8000
    ensures Pow2(32) == 0x1_0000_0000 && Pow2(31) == 0x8000_0000
    ensures Pow2(64) == 0x1_0000_0000_0000_0000 && Pow2(63) == 0x8000_0000_0000_0000
  {
    assert Pow2(1) == 2 && Pow2(2) == 4 && Pow2(3) == 8 && Pow2(4) == 16;
    assert Pow2(5) == 32 && Pow2(6) == 64 && Pow2(7) == 128 && Pow2(8) == 256;
    Pow2Add(8, 7);
    Pow2Add(8, 8);
    Pow2Add(16, 15);
    Pow2Add(16, 16);
    Pow2Add(32, 31);
    Pow2Add(32, 32);
  }

  /** The number of values an n-byte word can hold. */
  function Pow256(n: nat): (p: int)
    ensures p >= 1
  {
    Pow2(8 * n)
  }

  lemma {:induction false} Pow2Add(a: nat, b: nat)
    ensures Pow2(a + b) == Pow2(a) * Pow2(b)
  {
    if a > 0 {
      Pow2Add(a - 1, b);
    }
  }

  lemma Pow256Step(n: nat)
    requires n >= 1
    ensures Pow256(n) == 256 * Pow256(n - 1)
  {
    Pow2Add(8, 8 * (n - 1));
    assert 8 * n == 8 + 8 * (n - 1);
  }

  /** Unsigned value of bytes whose first byte is the most significant. */
  function FromBeBytes(bs: seq<Byte>): (v: nat)
    ensures v < Pow256(|bs|)
  {
    if bs == [] then 0
    else
      var hi := FromBeBytes(bs[..|bs| - 1]);
      Pow256Step(|bs|);
      assert hi * 256 + bs[|bs| - 1] < Pow256(|bs| - 1) * 256 by {
        assert hi <= Pow256(|bs| - 1) - 1;
        assert hi * 256 <= (Pow256(|bs| - 1) - 1) * 256;
      }
      hi * 256 + bs[|bs| - 1]
  }

  /** Unsigned value of bytes whose first byte is the least significant. */
  function FromLeBytes(bs: seq<Byte>): (v: nat)
    ensures v < Pow256(|bs|)
  {
    if bs == [] then 0
    else
      var hi := FromLeBytes(bs[1..]);
      Pow256Step(|bs|);
      assert bs[0] + 256 * hi < 256 * Pow256(|bs| - 1) by {
        assert hi <= Pow256(|bs| - 1) - 1;
        assert 256 * hi <= 256 * (Pow256(|bs| - 1) - 1);
      }
      bs[0] + 256 * hi
  }

  /** The n-byte big-endian encoding of v (`to_be_bytes`). */
  function ToBeBytes(v: nat, n: nat): (bs: seq<Byte>)
    requires v < Pow256(n)
    ensures |bs| == n
  {
    if n == 0 then [] else Pow256Step(n); ToBeBytes(v / 256, n - 1) + [v % 256]
  }

  /** The n-byte little-endian encoding of v (`to_le_bytes`). */
  function ToLeBytes(v: nat, n: nat): (bs: seq<Byte>)
    requires v < Pow256(n)
    ensures |bs| == n
  {
    if n == 0 then [] else Pow256Step(n); [v % 256] + ToLeBytes(v / 256, n - 1)
  }

  lemma {:induction false} BeRoundTrip(v: nat, n: nat)
    requires v < Pow256(n)
    ensures FromBeBytes(ToBeBytes(v, n)) == v
  {
    if n > 0 {
      Pow256Step(n);
      var bs := ToBeBytes(v, n);
      assert bs[..n - 1] == ToBeBytes(v / 256, n - 1);
      BeRoundTrip(v / 256, n - 1);
    }
  }

  lemma {:induction false} BeRoundTripBytes(bs: seq<Byte>)
    ensures ToBeBytes(FromBeBytes(bs), |bs|) == bs
  {
    if bs != [] {
      var init := bs[..|bs| - 1];
      var v := FromBeBytes(bs);
      assert v / 256 == FromBeBytes(init) && v % 256 == bs[|bs| - 1];
      BeRoundTripBytes(init);
      assert bs == init + [bs[|bs| - 1]];
    }
  }

  lemma {:induction false} LeRoundTrip(v: nat, n: nat)
    requires v < Pow256(n)
    ensures FromLeBytes(ToLeBytes(v, n)) == v
  {
    if n > 0 {
      Pow256Step(n);
      var bs := ToLeBytes(v, n);
      assert bs[1..] == ToLeBytes(v / 256, n - 1);
      LeRoundTrip(v / 256, n - 1);
    }
  }

  lemma {:induction false} LeRoundTripBytes(bs: seq<Byte>)
    ensures ToLeBytes(FromLeBytes(bs), |bs|) == bs
  {
    if bs != [] {
      var v := FromLeBytes(bs);
      assert v / 256 == FromLeBytes(bs[1..]) && v % 256 == bs[0];
      LeRoundTripBytes(bs[1..]);
      assert bs == [bs[0]] + bs[1..];
    }
  }

  function Reverse<T>(s: seq<T>): (r: seq<T>)
    ensures |r| == |s|
  {
    if s == [] then [] else Reverse(s[1..]) + [s[0]]
  }

  /** Little-endian assembly is big-endian assembly of the reversed bytes. */
  lemma {:induction false} LeIsReversedBe(bs: seq<Byte>)
    ensures FromLeBytes(bs) == FromBeBytes(Reverse(bs))
  {
    if bs != [] {
      var r := Reverse(bs);
      assert r[..|r| - 1] == Reverse(bs[1..]);
      assert r[|r| - 1] == bs[0];
      LeIsReversedBe(bs[1..]);
    }
  }

  /** Two's-complement reading of a `bits`-wide unsigned value (`uN as iN`). */
  function ToSigned(u: nat, bits: nat): (s: int)
    requires 1 <= bits && u < Pow2(bits)
    ensures -Pow2(bits - 1) <= s < Pow2(bits - 1)
    ensures s >= 0 <==> u < Pow2(bits - 1)
  {
    assert Pow2(bits) == 2 * Pow2(bits - 1);
    if u < Pow2(bits - 1) then u else u - Pow2(bits)
  }

  /** The `bits`-wide two's-complement pattern of a signed value (`iN as uN`). */
  function FromSigned(s: int, bits: nat): (u: nat)
    requires 1 <= bits && -Pow2(bits - 1) <= s < Pow2(bits - 1)
    ensures u < Pow2(bits)
  {
    assert Pow2(bits) == 2 * Pow2(bits - 1);
    if s < 0 then s + Pow2(bits) else s
  }

  lemma SignedRoundTrip(s: int, bits: nat)
    requires 1 <= bits && -Pow2(bits - 1) <= s < Pow2(bits - 1)
    ensures ToSigned(FromSigned(s, bits), bits) == s
  {
    assert Pow2(bits) == 2 * Pow2(bits - 1);
  }

  lemma UnsignedRoundTrip(u: nat, bits: nat)
    requires 1 <= bits && u < Pow2(bits)
    ensures FromSigned(ToSigned(u, bits), bits) == u
  {
    assert Pow2(bits) == 2 * Pow2(bits - 1);
  }

  /** `iN::from_be_bytes`. */
  function FromBeBytesSigned(bs: seq<Byte>): (s: int)
    requires |bs| >= 1
  {
    ToSigned(FromBeBytes(bs), 8 * |bs|)
  }

  /** `iN::from_le_bytes`. */
  function FromLeBytesSigned(bs: seq<Byte>): (s: int)
    requires |bs| >= 1
  {
    ToSigned(FromLeBytes(bs), 8 * |bs|)
  }

  /** The N-byte big-endian two's-complement encoding of a signed value decodes to it. */
  lemma SignedBeRoundTrip(s: int, n: nat)
    requires n >= 1 && -Pow2(8 * n - 1) <= s < Pow2(8 * n - 1)
    ensures
      var bs := ToBeBytes(FromSigned(s, 8 * n), n);
      FromBeBytesSigned(bs) == s
  {
    var u := FromSigned(s, 8 * n);
    BeRoundTrip(u, n);
    SignedRoundTrip(s, 8 * n);
  }

  /** The N-byte little-endian two's-complement encoding of a signed value decodes to it. */
  lemma SignedLeRoundTrip(s: int, n: nat)
    requires n >= 1 && -Pow2(8 * n - 1) <= s < Pow2(8 * n - 1)
    ensures
      var bs := ToLeBytes(FromSigned(s, 8 * n), n);
      FromLeBytesSigned(bs) == s
  {
    var u := FromSigned(s, 8 * n);
    LeRoundTrip(u, n);
    SignedRoundTrip(s, 8 * n);
  }

  /** Euclidean division has one quotient and remainder. */
  lemma DivUnique(n: int, d: int, q: int, r: int)
    requires 0 <= r < d && n == q * d + r
    ensures n / d == q && n % d == r
  {
    var k := n / d - q;
    assert d * k == r - n % d;
    assert -d < d * k < d;
    MulBounded(d, k);
  }

  lemma MulBounded(d: int, k: int)
    requires d > 0 && -d < d * k < d
    ensures k == 0
  {
    if k != 0 {
      MulAbs(d, k);
    }
  }

  lemma MulAbs(d: int, k: int)
    requires d > 0 && k != 0
    ensures d * k >= d || d * k <= -d
  {
  }
}
