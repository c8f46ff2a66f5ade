/**
 * Integer option values (c-master/casan/option.cc): the minimal network-order byte string
 * of an unsigned long, section 3.2 of RFC 7252.
 */
module OptionValue {
  import opened Bytes
  import opened Numeric

  const ULONG := 0x1_0000_0000_0000_0000

  /** The bytes of `v` without leading zeros. */
  function Minimal(v: nat): seq<byte>
  {
    if v == 0 then [] else Minimal(v / 256) + [v % 256]
  }

  predicate Canonical(b: seq<byte>)
  {
    b == [] || b[0] != 0
  }

  lemma {:induction false} MinimalInverts(v: nat)
    ensures BigEndian(Minimal(v)) == v && Canonical(Minimal(v))
    ensures v > 0 ==> Minimal(v) != []
  {
    if v > 0 {
      MinimalInverts(v / 256);
      assert Minimal(v)[..|Minimal(v)| - 1] == Minimal(v / 256);
    }
  }

  lemma {:induction false} BigEndianInverts(b: seq<byte>)
    ensures Minimal(BigEndian(b)) == b <==> Canonical(b)
    ensures Canonical(b) && b != [] ==> BigEndian(b) > 0
  {
    MinimalInverts(BigEndian(b));
    if b != [] && Canonical(b) {
      var front := b[..|b| - 1];
      BigEndianInverts(front);
      if front != [] { assert front[0] == b[0]; }
      assert b == front + [b[|b| - 1]];
    }
  }

  lemma {:induction false} MinimalLength(v: nat, k: nat)
    requires v < Power256(k)
    ensures |Minimal(v)| <= k
  {
    if v > 0 && k > 0 { MinimalLength(v / 256, k - 1); }
  }

  lemma {:induction false} PowerIsMonotone(j: nat, k: nat)
    requires j <= k
    ensures 1 <= Power256(j) <= Power256(k)
  {
    if j < k {
      PowerIsMonotone(j, k - 1);
    } else if j > 0 {
      PowerIsMonotone(j - 1, j - 1);
    }
  }

  /** val >> (8 * k) */
  function ShiftedDown(val: nat, k: nat): nat
  {
    if k == 0 then val else ShiftedDown(val, k - 1) / 256
  }

  lemma {:induction false} ShiftedOut(val: nat, j: nat, k: nat)
    requires j <= k && ShiftedDown(val, j) < Power256(k - j)
    ensures ShiftedDown(val, k) == 0
    decreases k - j
  {
    if j < k { ShiftedOut(val, j + 1, k); }
  }

  lemma MinimalUnfold(v: nat)
    ensures Minimal(v) == if v == 0 then [] else Minimal(v / 256) + [v % 256]
  {
  }

  lemma Powers()
    ensures Power256(8) == ULONG
  {
    assert Power256(4) == 0x1_0000_0000;
    assert Power256(8) == 256 * (256 * (256 * (256 * Power256(4))));
  }

  /** uint_to_byte: scan the 8 bytes of the value from the top, skipping leading zeros. */
  method UintToByte(val: nat) returns (stbin: seq<byte>)
    requires val < ULONG
    ensures stbin == Minimal(val) && |stbin| <= 8
  {
    hide Power256, Minimal;
    Powers();
    ShiftedOut(val, 0, 8);
    MinimalUnfold(0);
    stbin := [];
    var shft := 8;
    while shft > 0
      invariant 0 <= shft <= 8
      invariant stbin == Minimal(ShiftedDown(val, shft)) && |stbin| <= 8 - shft
    {
      shft := shft - 1;
      var b: byte := ShiftedDown(val, shft) % 256;
      MinimalUnfold(ShiftedDown(val, shft));
      MinimalUnfold(ShiftedDown(val, shft + 1));
      if |stbin| != 0 || b != 0 {
        stbin := stbin + [b];
      }
    }
  }

  /** optval: accumulate the bytes in an unsigned long. */
  method Optval(b: seq<byte>) returns (v: nat)
    ensures v == BigEndian(b) % ULONG
    ensures |b| <= 8 ==> v == BigEndian(b)
  {
    v := 0;
    for i := 0 to |b|
      invariant v == BigEndian(b[..i]) % ULONG
    {
      assert b[..i + 1][..i] == b[..i];
      ModStep(BigEndian(b[..i]), b[i]);
      v := (v * 256 + b[i]) % ULONG;
    }
    assert b[..|b|] == b;
    if |b| <= 8 {
      BigEndianBound(b);
      PowerIsMonotone(|b|, 8);
      Powers();
    }
  }

  lemma ModStep(x: nat, c: nat)
    ensures (x % ULONG * 256 + c) % ULONG == (x * 256 + c) % ULONG
  {
    var q := x / ULONG;
    assert x * 256 + c == x % ULONG * 256 + c + (q * 256) * ULONG;
  }

  /** A value packed in an option is read back, and any option value of at most 8 bytes
      is the packing of what it reads as exactly when it has no leading zero byte. */
  lemma UintRoundTrip(v: nat, b: seq<byte>)
    requires v < ULONG
    ensures |Minimal(v)| <= 8 && BigEndian(Minimal(v)) == v
    ensures |b| <= 8 ==> (Minimal(BigEndian(b)) == b <==> Canonical(b))
  {
    Powers();
    MinimalLength(v, 8);
    MinimalInverts(v);
    BigEndianInverts(b);
  }
}
