/**
 * Numbers in network byte order (arduino/libraries/Dtls-s/numeric.h) and exclusive or
 * (arduino/libraries/Dtls-s/global.h).
 */
module Numeric {
  import opened Bytes

  /** What the bytes mean as a big-endian number: dtls_uint16_to_int and its siblings. */
  function BigEndian(b: seq<byte>): nat
  {
    if b == [] then 0 else BigEndian(b[..|b| - 1]) * 256 + b[|b| - 1]
  }

  function Power256(k: nat): nat
  {
    if k == 0 then 1 else 256 * Power256(k - 1)
  }

  lemma {:induction false} BigEndianBound(b: seq<byte>)
    ensures BigEndian(b) < Power256(|b|)
  {
    if b != [] { BigEndianBound(b[..|b| - 1]); }
  }

  /** `n` in `k` bytes, higher bits dropped: dtls_int_to_uint16 and its siblings. */
  function Field(n: nat, k: nat): (b: seq<byte>)
    ensures |b| == k
  {
    if k == 0 then [] else Field(n / 256, k - 1) + [n % 256]
  }

  lemma {:induction false} NumberOfField(n: nat, k: nat)
    requires n < Power256(k)
    ensures BigEndian(Field(n, k)) == n
  {
    if k > 0 {
      NumberOfField(n / 256, k - 1);
      assert Field(n, k)[..k - 1] == Field(n / 256, k - 1);
    }
  }

  /** The first byte counts most. */
  lemma NetworkOrder(a: byte, b: byte, c: byte)
    ensures BigEndian([a]) == a && BigEndian([a, b]) == 0x100 * a + b
    ensures BigEndian([a, b, c]) == 0x1_0000 * a + 0x100 * b + c
  {
    assert [a][..0] == [] && [a, b][..1] == [a] && [a, b, c][..2] == [a, b];
  }

  function XorBits(a: nat, b: nat, bits: nat): (r: nat)
  {
    if bits == 0 then 0 else 2 * XorBits(a / 2, b / 2, bits - 1) + (if a % 2 != b % 2 then 1 else 0)
  }

  function Pow2(k: nat): (r: nat)
    ensures r > 0
  {
    if k == 0 then 1 else 2 * Pow2(k - 1)
  }

  lemma {:induction false} XorBitsCancels(a: nat, b: nat, bits: nat)
    requires a < Pow2(bits)
    ensures XorBits(a, b, bits) < Pow2(bits) && XorBits(XorBits(a, b, bits), b, bits) == a
    ensures XorBits(a, 0, bits) == a
  {
    if bits > 0 {
      XorBitsCancels(a / 2, b / 2, bits - 1);
      var x, y := XorBits(a, b, bits), XorBits(a / 2, b / 2, bits - 1);
      assert x / 2 == y && x % 2 == (if a % 2 != b % 2 then 1 else 0);
    }
  }

  function Bit(n: nat, i: nat): (b: nat)
    ensures b < 2
  {
    if i == 0 then n % 2 else Bit(n / 2, i - 1)
  }

  /** Every bit is set if and only if it is set in exactly one of the two. */
  lemma {:induction false} XorBitAt(a: nat, b: nat, bits: nat, i: nat)
    requires i < bits
    ensures Bit(XorBits(a, b, bits), i) == 1 <==> Bit(a, i) != Bit(b, i)
  {
    var x := XorBits(a, b, bits);
    assert x / 2 == XorBits(a / 2, b / 2, bits - 1) && x % 2 == (if a % 2 != b % 2 then 1 else 0);
    if i > 0 { XorBitAt(a / 2, b / 2, bits - 1, i - 1); }
  }

  lemma EightBits()
    ensures Pow2(8) == 256
  {
    assert Pow2(4) == 16;
  }

  function Xor(a: byte, b: byte): byte
  {
    EightBits();
    XorBitsCancels(a, b, 8);
    XorBits(a, b, 8)
  }

  lemma {:induction false} XorBitsZero(b: nat, bits: nat)
    requires b < Pow2(bits)
    ensures XorBits(0, b, bits) == b
  {
    if bits > 0 { XorBitsZero(b / 2, bits - 1); }
  }

  lemma XorZero(b: byte)
    ensures Xor(0, b) == b
  {
    assert Pow2(8) == 256 by { assert Pow2(4) == 16; }
    XorBitsZero(b, 8);
  }

  lemma XorCancels(a: byte, b: byte)
    ensures Xor(Xor(a, b), b) == a && Xor(a, 0) == a
  {
    EightBits();
    XorBitsCancels(a, b, 8);
  }

  function XorAll(a: seq<byte>, b: seq<byte>): (r: seq<byte>)
    requires |a| <= |b|
    ensures |r| == |a|
  {
    seq(|a|, i requires 0 <= i < |a| => Xor(a[i], b[i]))
  }

  lemma XorAllCancels(a: seq<byte>, b: seq<byte>)
    requires |a| <= |b|
    ensures XorAll(XorAll(a, b), b) == a
  {
    forall i | 0 <= i < |a| ensures XorAll(XorAll(a, b), b)[i] == a[i] {
      XorCancels(a[i], b[i]);
    }
  }

  lemma {:induction false} XorBitsSymmetric(a: nat, b: nat, bits: nat)
    ensures XorBits(a, b, bits) == XorBits(b, a, bits)
  {
    if bits > 0 { XorBitsSymmetric(a / 2, b / 2, bits - 1); }
  }

  lemma XorAllSymmetric(a: seq<byte>, b: seq<byte>)
    requires |a| == |b|
    ensures XorAll(a, b) == XorAll(b, a)
  {
    forall i | 0 <= i < |a| ensures XorAll(a, b)[i] == XorAll(b, a)[i] {
      XorBitsSymmetric(a[i], b[i], 8);
    }
  }
}
