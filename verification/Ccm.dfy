/**
 * Counter with CBC-MAC (arduino/libraries/Dtls-s/ccm.c) against its definition in RFC 3610.
 * The block cipher under a fixed key is an arbitrary function on blocks.
 */
module Ccm {
  import opened Bytes
  import opened Numeric
  import opened Wrappers

  type Block = s: seq<byte> | |s| == 16 witness seq(16, i => 0)

  type Cipher = Block -> Block

  function Zeros(n: nat): (s: seq<byte>)
    ensures |s| == n
  {
    seq(n, i => 0)
  }

  // ---------------------------------------------------------------- RFC 3610, section 2

  /** Sizes of the tag and of the length field; MASK_L shifts an int, so L is at most 3. */
  predicate Parameters(M: nat, L: nat, nonce: seq<byte>)
  {
    4 <= M <= 16 && M % 2 == 0 && 2 <= L <= 3 && |nonce| == 15 - L
  }

  function Flags(adata: bool, M: nat, L: nat): byte
    requires 4 <= M <= 16 && 2 <= L <= 3
  {
    (if adata then 64 else 0) + (M - 2) / 2 * 8 + (L - 1)
  }

  /** The flags with and without additional data, for tags of 4, 8 and 16 bytes. */
  lemma FlagBytes()
    ensures Flags(true, 8, 3) == 0x5A && Flags(false, 8, 3) == 0x1A && Flags(true, 8, 2) == 0x59
    ensures Flags(true, 4, 2) == 0x49 && Flags(false, 16, 2) == 0x39
  {
  }

  /** B_0 */
  function FirstBlock(M: nat, L: nat, nonce: seq<byte>, la: nat, lm: nat): Block
    requires Parameters(M, L, nonce)
  {
    [Flags(la > 0, M, L)] + nonce + Field(lm, L)
  }

  function AadLength(la: nat): seq<byte>
  {
    if la == 0 then []
    else if la < 0xFF00 then Field(la, 2)
    else if la < 0x1_0000_0000 then Field(0xFFFE, 2) + Field(la, 4)
    else Field(0xFFFF, 2) + Field(la, 8)
  }

  /** Zero-padded to whole blocks. */
  function Padded(s: seq<byte>): (p: seq<byte>)
    ensures |p| % 16 == 0 && |p| >= |s|
  {
    if |s| % 16 == 0 then s else s + Zeros(16 - |s| % 16)
  }

  /** X_i+1 = E(X_i xor B_i) over the blocks of s */
  function CbcMac(E: Cipher, x: Block, s: seq<byte>): Block
    decreases |s|
  {
    if |s| < 16 then x else CbcMac(E, E(XorAll(x, s[..16])), s[16..])
  }

  /** T before truncation to M bytes */
  function Mac(E: Cipher, M: nat, L: nat, nonce: seq<byte>, aad: seq<byte>, m: seq<byte>): Block
    requires Parameters(M, L, nonce)
  {
    var b0 := FirstBlock(M, L, nonce, |aad|, |m|);
    CbcMac(E, E(b0), Padded(AadLength(|aad|) + aad) + Padded(m))
  }

  /** A_i */
  function CounterBlock(L: nat, nonce: seq<byte>, i: nat): Block
    requires 2 <= L <= 3 && |nonce| == 15 - L
  {
    [L - 1] + nonce + Field(i, L)
  }

  /** Byte k of S_1, S_2, ... */
  function KeyByte(E: Cipher, L: nat, nonce: seq<byte>, k: nat): byte
    requires 2 <= L <= 3 && |nonce| == 15 - L
  {
    E(CounterBlock(L, nonce, 1 + k / 16))[k % 16]
  }

  function Stream(E: Cipher, L: nat, nonce: seq<byte>, m: seq<byte>): (c: seq<byte>)
    requires 2 <= L <= 3 && |nonce| == 15 - L
    ensures |c| == |m|
  {
    seq(|m|, k requires 0 <= k < |m| => Xor(m[k], KeyByte(E, L, nonce, k)))
  }

  /** U: the tag under S_0 */
  function SealedTag(E: Cipher, M: nat, L: nat, nonce: seq<byte>, aad: seq<byte>, m: seq<byte>): (u: seq<byte>)
    requires Parameters(M, L, nonce)
    ensures |u| == M
  {
    XorAll(Mac(E, M, L, nonce, aad, m)[..M], E(CounterBlock(L, nonce, 0)))
  }

  function Encrypt(E: Cipher, M: nat, L: nat, nonce: seq<byte>, aad: seq<byte>, m: seq<byte>): (c: seq<byte>)
    requires Parameters(M, L, nonce)
    ensures |c| == |m| + M
  {
    Stream(E, L, nonce, m) + SealedTag(E, M, L, nonce, aad, m)
  }

  /** Section 2.5: recover the message, recompute its tag and compare. */
  function Decrypt(E: Cipher, M: nat, L: nat, nonce: seq<byte>, aad: seq<byte>, c: seq<byte>): Option<seq<byte>>
    requires Parameters(M, L, nonce)
  {
    if |c| < M then None
    else
      var m := Stream(E, L, nonce, c[..|c| - M]);
      if XorAll(c[|c| - M..], E(CounterBlock(L, nonce, 0))) == Mac(E, M, L, nonce, aad, m)[..M] then Some(m) else None
  }

  // ---------------------------------------------------------------- properties of the definition

  lemma StreamInverts(E: Cipher, L: nat, nonce: seq<byte>, m: seq<byte>)
    requires 2 <= L <= 3 && |nonce| == 15 - L
    ensures Stream(E, L, nonce, Stream(E, L, nonce, m)) == m
  {
    forall k | 0 <= k < |m| ensures Stream(E, L, nonce, Stream(E, L, nonce, m))[k] == m[k] {
      XorCancels(m[k], KeyByte(E, L, nonce, k));
    }
  }

  /** A message is recovered from a ciphertext exactly when the ciphertext is its encryption:
      every encrypted message decrypts to itself and nothing else is accepted. */
  lemma DecryptsExactlyEncryptions(E: Cipher, M: nat, L: nat, nonce: seq<byte>, aad: seq<byte>,
                                   m: seq<byte>, c: seq<byte>)
    requires Parameters(M, L, nonce)
    ensures Decrypt(E, M, L, nonce, aad, c) == Some(m) <==> c == Encrypt(E, M, L, nonce, aad, m)
  {
    hide Mac, Stream, CounterBlock, XorAll;
    var s0, t := E(CounterBlock(L, nonce, 0)), Mac(E, M, L, nonce, aad, m)[..M];
    StreamInverts(E, L, nonce, m);
    XorAllCancels(t, s0);
    if |c| >= M {
      var body, u := c[..|c| - M], c[|c| - M..];
      assert c == body + u;
      StreamInverts(E, L, nonce, body);
      XorAllCancels(u, s0);
      if c == Encrypt(E, M, L, nonce, aad, m) {
        assert body == Stream(E, L, nonce, m) && u == SealedTag(E, M, L, nonce, aad, m);
      }
    }
  }

  lemma {:induction false} FieldInjective(i: nat, j: nat, k: nat)
    requires i < Power256(k) && j < Power256(k) && Field(i, k) == Field(j, k)
    ensures i == j
  {
    NumberOfField(i, k);
    NumberOfField(j, k);
  }

  lemma SameParts(a: seq<byte>, b: seq<byte>, c: seq<byte>, a': seq<byte>, b': seq<byte>, c': seq<byte>)
    requires a + b + c == a' + b' + c' && |a| == |a'| && |b| == |b'|
    ensures a == a' && b == b' && c == c'
  {
    var s, t := a + b + c, a' + b' + c';
    assert a == s[..|a|] && b == s[|a|..|a| + |b|] && c == s[|a| + |b|..];
    assert a' == t[..|a|] && b' == t[|a|..|a| + |b|] && c' == t[|a| + |b|..];
  }

  /** No cipher input repeats under one nonce: the counter blocks differ from each other and
      from every first authentication block. */
  lemma CipherInputsDiffer(M: nat, L: nat, nonce: seq<byte>, i: nat, j: nat, la: nat, lm: nat)
    requires Parameters(M, L, nonce) && i != j && i < Power256(L) && j < Power256(L)
    ensures CounterBlock(L, nonce, i) != CounterBlock(L, nonce, j)
    ensures CounterBlock(L, nonce, i) != FirstBlock(M, L, nonce, la, lm)
  {
    if CounterBlock(L, nonce, i) == CounterBlock(L, nonce, j) {
      SameParts([L - 1], nonce, Field(i, L), [L - 1], nonce, Field(j, L));
      FieldInjective(i, j, L);
    }
    assert CounterBlock(L, nonce, i)[0] == L - 1 && FirstBlock(M, L, nonce, la, lm)[0] >= 8;
  }

  /** Everything the tag is computed from, as one byte string. */
  function MacInput(M: nat, L: nat, nonce: seq<byte>, aad: seq<byte>, m: seq<byte>): seq<byte>
    requires Parameters(M, L, nonce)
  {
    FirstBlock(M, L, nonce, |aad|, |m|) + (Padded(AadLength(|aad|) + aad) + Padded(m))
  }

  /** Different inputs are authenticated as different byte strings, although both parts are padded. */
  lemma MacInputIsInjective(M: nat, L: nat, nonce: seq<byte>, aad: seq<byte>, m: seq<byte>,
                            nonce': seq<byte>, aad': seq<byte>, m': seq<byte>)
    requires Parameters(M, L, nonce) && Parameters(M, L, nonce')
    requires |m| < Power256(L) && |m'| < Power256(L)
    requires |aad| < 0x1_0000_0000_0000_0000 && |aad'| < 0x1_0000_0000_0000_0000
    requires MacInput(M, L, nonce, aad, m) == MacInput(M, L, nonce', aad', m')
    ensures nonce == nonce' && aad == aad' && m == m'
  {
    hide Padded, AadLength, Flags, Field;
    var b0: seq<byte> := FirstBlock(M, L, nonce, |aad|, |m|);
    var b0': seq<byte> := FirstBlock(M, L, nonce', |aad'|, |m'|);
    var rest, rest' := Padded(AadLength(|aad|) + aad) + Padded(m), Padded(AadLength(|aad'|) + aad') + Padded(m');
    assert b0 == (b0 + rest)[..16] == (b0' + rest')[..16] == b0';
    assert rest == (b0 + rest)[16..] == (b0' + rest')[16..] == rest';
    var f: seq<byte>, f': seq<byte> := [Flags(|aad| > 0, M, L)], [Flags(|aad'| > 0, M, L)];
    SameParts(f, nonce, Field(|m|, L), f', nonce', Field(|m'|, L));
    FieldInjective(|m|, |m'|, L);
    assert f[0] == f'[0];
    FlagsTellAad(|aad| > 0, |aad'| > 0, M, L);
    AadIsDelimited(aad, m, aad', m');
  }

  /** The tag is the CBC-MAC of this byte string, without anything before it. */
  lemma MacOverInput(E: Cipher, M: nat, L: nat, nonce: seq<byte>, aad: seq<byte>, m: seq<byte>)
    requires Parameters(M, L, nonce)
    ensures Mac(E, M, L, nonce, aad, m) == CbcMac(E, Zeros(16), MacInput(M, L, nonce, aad, m))
  {
    hide Padded, AadLength, Flags, Field, Xor;
    var b0: seq<byte> := FirstBlock(M, L, nonce, |aad|, |m|);
    var rest := Padded(AadLength(|aad|) + aad) + Padded(m);
    assert (b0 + rest)[..16] == b0 && (b0 + rest)[16..] == rest;
    forall k | 0 <= k < 16 ensures Xor(0, b0[k]) == b0[k] { XorZero(b0[k]); }
    assert XorAll(Zeros(16), b0) == b0;
  }

  function Nonce1(): seq<byte> { [0, 0, 0, 3, 2, 1, 0, 0xA0, 0xA1, 0xA2, 0xA3, 0xA4, 0xA5] }

  /** The i-th counter block of packet vector 1, for i below 256. */
  function Counter1(i: byte): Block { [1, 0, 0, 0, 3, 2, 1, 0, 0xA0, 0xA1, 0xA2, 0xA3, 0xA4, 0xA5, 0, i] }

  /** The blocks of packet vector 1 in section 8 of RFC 3610. */
  lemma PacketVector1()
    ensures FirstBlock(8, 2, Nonce1(), 8, 23)
         == [0x59, 0, 0, 0, 3, 2, 1, 0, 0xA0, 0xA1, 0xA2, 0xA3, 0xA4, 0xA5, 0, 0x17]
    ensures forall i: byte :: CounterBlock(2, Nonce1(), i) == Counter1(i)
  {
    TwoByteField(23);
    forall i: byte ensures CounterBlock(2, Nonce1(), i) == Counter1(i) { TwoByteField(i); }
    hide Field;
  }

  /** There the key stream starts with S_1. */
  lemma PacketVector1Stream(E: Cipher, aad: seq<byte>, m: seq<byte>, k: nat)
    requires k < |m| < 4080
    ensures Encrypt(E, 8, 2, Nonce1(), aad, m)[k] == Xor(m[k], E(Counter1(1 + k / 16))[k % 16])
  {
    PacketVector1();
    hide CbcMac, MacInput, Mac, CounterBlock, Xor;
    assert CounterBlock(2, Nonce1(), 1 + k / 16) == Counter1(1 + k / 16);
  }

  /** S_0 encrypts the tag. */
  lemma PacketVector1Tag(E: Cipher, aad: seq<byte>, m: seq<byte>, i: nat)
    requires i < 8 && |m| < 0x1_0000
    ensures Encrypt(E, 8, 2, Nonce1(), aad, m)[|m| + i] ==
            Xor(CbcMac(E, Zeros(16), MacInput(8, 2, Nonce1(), aad, m))[i], E(Counter1(0))[i])
  {
    PacketVector1();
    MacOverInput(E, 8, 2, Nonce1(), aad, m);
    hide CbcMac, MacInput, Mac, CounterBlock, Xor, KeyByte;
    assert CounterBlock(2, Nonce1(), 0) == Counter1(0);
  }

  /** The three encodings of a length in section 2.2 of RFC 3610. */
  lemma LengthEncodings()
    ensures AadLength(8) == [0, 8] && AadLength(0xFF00) == [0xFF, 0xFE, 0, 0, 0xFF, 0]
    ensures AadLength(0x1_0000_0000) == [0xFF, 0xFF, 0, 0, 0, 1, 0, 0, 0, 0]
  {
    TwoByteField(8);
    MediumLength();
    LargeLength();
    hide Field;
  }

  lemma MediumLength()
    ensures AadLength(0xFF00) == [0xFF, 0xFE, 0, 0, 0xFF, 0]
  {
    TwoByteField(0xFFFE);
    FourByteField(0xFF00);
    hide Field;
  }

  lemma LargeLength()
    ensures AadLength(0x1_0000_0000) == [0xFF, 0xFF, 0, 0, 0, 1, 0, 0, 0, 0]
  {
    TwoByteField(0xFFFF);
    EightByteField(0x1_0000_0000);
    LargeFields();
    hide Field;
  }

  lemma LargeFields()
    ensures Field(0x1_0000_0000 / 256 / 256 / 256 / 256, 4) == [0, 0, 0, 1]
    ensures Field(0x1_0000_0000, 4) == [0, 0, 0, 0]
  {
    hide Field;
    FourByteField(1);
    FourByteField(0x1_0000_0000);
  }

  lemma TwoByteField(n: nat)
    ensures Field(n, 2) == [n / 256 % 256, n % 256]
  {
    assert Field(n / 256 / 256, 0) == [];
    assert Field(n / 256, 1) == [n / 256 % 256];
  }

  lemma FourByteField(n: nat)
    ensures Field(n, 4) == [n / 256 / 256 / 256 % 256, n / 256 / 256 % 256, n / 256 % 256, n % 256]
  {
    TwoByteField(n / 256 / 256);
    assert Field(n, 4) == Field(n / 256, 3) + [n % 256];
    assert Field(n / 256, 3) == Field(n / 256 / 256, 2) + [n / 256 % 256];
  }

  lemma EightByteField(n: nat)
    ensures Field(n, 8) == Field(n / 256 / 256 / 256 / 256, 4) + Field(n, 4)
  {
    FourByteField(n);
    var a, b, c := n / 256, n / 256 / 256, n / 256 / 256 / 256;
    assert Field(n, 8) == Field(a, 7) + [n % 256] && Field(a, 7) == Field(b, 6) + [a % 256];
    assert Field(b, 6) == Field(c, 5) + [b % 256] && Field(c, 5) == Field(c / 256, 4) + [c % 256];
  }

  lemma FlagsTellAad(a: bool, b: bool, M: nat, L: nat)
    requires 4 <= M <= 16 && 2 <= L <= 3 && Flags(a, M, L) == Flags(b, M, L)
    ensures a == b
  {
  }

  lemma AadIsDelimited(aad: seq<byte>, m: seq<byte>, aad': seq<byte>, m': seq<byte>)
    requires |m| == |m'| && (|aad| > 0 <==> |aad'| > 0)
    requires |aad| < 0x1_0000_0000_0000_0000 && |aad'| < 0x1_0000_0000_0000_0000
    requires Padded(AadLength(|aad|) + aad) + Padded(m) == Padded(AadLength(|aad'|) + aad') + Padded(m')
    ensures aad == aad' && m == m'
  {
    hide AadLength;
    var a, a' := AadLength(|aad|) + aad, AadLength(|aad'|) + aad';
    var s := Padded(a) + Padded(m);
    assert s == Padded(a') + Padded(m');
    assert a <= s && a' <= s && s[|s| - |Padded(m)|..] == Padded(m) == Padded(m');
    assert m == Padded(m)[..|m|] && m' == Padded(m')[..|m'|];
    if |aad| > 0 {
      LengthIsPrefixFree(|aad|, |aad'|, aad, aad', s);
    }
  }

  lemma LengthIsPrefixFree(la: nat, la': nat, aad: seq<byte>, aad': seq<byte>, s: seq<byte>)
    requires 0 < la == |aad| < 0x1_0000_0000_0000_0000 && 0 < la' == |aad'| < 0x1_0000_0000_0000_0000
    requires AadLength(la) + aad <= s && AadLength(la') + aad' <= s
    ensures aad == aad'
  {
    hide AadLength, BigEndian;
    var l, l' := AadLength(la), AadLength(la');
    LengthPrefix(la);
    LengthPrefix(la');
    assert l[..2] == (l + aad)[..2] == s[..2] == (l' + aad')[..2] == l'[..2];
    LengthValue(la);
    LengthValue(la');
    assert |l| == |l'|;
    assert l == (l + aad)[..|l|] == s[..|l|] == (l' + aad')[..|l|] == l';
    assert aad == s[|l|..|l| + la] && aad' == s[|l|..|l| + la'];
  }

  /** The first two bytes tell the three forms apart, and the last ones give the length. */
  lemma LengthPrefix(la: nat)
    requires 0 < la < 0x1_0000_0000_0000_0000
    ensures |AadLength(la)| >= 2
    ensures BigEndian(AadLength(la)[..2]) == if la < 0xFF00 then la else if la < 0x1_0000_0000 then 0xFFFE else 0xFFFF
    ensures |AadLength(la)| == if la < 0xFF00 then 2 else if la < 0x1_0000_0000 then 6 else 10
  {
    hide Field, BigEndian, Power256;
    Powers();
    var h := if la < 0xFF00 then la else if la < 0x1_0000_0000 then 0xFFFE else 0xFFFF;
    NumberOfField(h, 2);
    assert AadLength(la)[..2] == Field(h, 2);
  }

  lemma LengthValue(la: nat)
    requires 0 < la < 0x1_0000_0000_0000_0000
    ensures var l := AadLength(la); |l| >= 2 && BigEndian(if |l| == 2 then l else l[2..]) == la
  {
    hide Field, BigEndian, Power256;
    Powers();
    var k := if la < 0xFF00 then 2 else if la < 0x1_0000_0000 then 4 else 8;
    NumberOfField(la, k);
    assert k == 2 || AadLength(la)[2..] == Field(la, k);
  }

  lemma Powers()
    ensures Power256(2) == 0x1_0000 && Power256(4) == 0x1_0000_0000 && Power256(8) == 0x1_0000_0000_0000_0000
  {
    assert Power256(1) == 0x100 && Power256(3) == 0x100_0000;
    assert Power256(5) == 0x100_0000_0000 && Power256(7) == 0x100_0000_0000_0000;
  }

  // ---------------------------------------------------------------- loops over blocks

  lemma {:induction false} CbcMacAppend(E: Cipher, x: Block, s: seq<byte>, t: seq<byte>)
    requires |s| % 16 == 0
    ensures CbcMac(E, x, s + t) == CbcMac(E, CbcMac(E, x, s), t)
    decreases |s|
  {
    if s == [] {
      assert s + t == t;
    } else {
      assert (s + t)[..16] == s[..16] && (s + t)[16..] == s[16..] + t;
      CbcMacAppend(E, E(XorAll(x, s[..16])), s[16..], t);
    }
  }

  /** One block of a zero-padded message: the loop takes whole blocks, the rest is padded. */
  lemma NextBlock(E: Cipher, x: Block, s: seq<byte>)
    requires s != []
    ensures var n := if |s| >= 16 then 16 else |s|;
            CbcMac(E, x, Padded(s)) == CbcMac(E, E(XorAll(x, s[..n] + Zeros(16 - n))), Padded(s[n..]))
  {
    var n := if |s| >= 16 then 16 else |s|;
    assert Padded(s)[..16] == s[..n] + Zeros(16 - n);
    assert Padded(s)[16..] == Padded(s[n..]);
  }

  /** rijndael_encrypt: X = E(B) */
  method EncryptBlock(E: Cipher, B: array<byte>, X: array<byte>)
    requires B.Length == X.Length == 16
    modifies X
    ensures X[..] == E(old(B[..]))
  {
    var y := E(B[..]);
    forall i | 0 <= i < 16 { X[i] := y[i]; }
    assert X[..] == y;
  }

  method Memxor(x: array<byte>, at: nat, y: seq<byte>)
    requires at + |y| <= x.Length
    modifies x
    ensures x[..at] == old(x[..at]) && x[at + |y|..] == old(x[at + |y|..])
    ensures x[at..at + |y|] == XorAll(old(x[at..at + |y|]), y)
  {
    hide Xor;
    ghost var x0 := x[..];
    for n := 0 to |y|
      invariant forall k :: 0 <= k < x.Length ==>
                  x[k] == if at <= k < at + n then Xor(x0[k], y[k - at]) else x0[k]
    {
      x[at + n] := Xor(x[at + n], y[n]);
    }
  }

  lemma FieldStep(n: nat, k: nat, rest: seq<byte>)
    requires k > 0
    ensures Field(n, k) + rest == Field(n / 256, k - 1) + ([n % 256] + rest)
    ensures n < Power256(k) ==> n / 256 < Power256(k - 1)
  {
  }

  lemma FieldEnd(n: nat)
    ensures Field(n, 0) == [] && Power256(0) == 1
  {
  }

  method Block0(M: nat, L: nat, la: nat, lm: nat, nonce: Block, result: array<byte>)
    requires L <= 3 && Parameters(M, L, nonce[..15 - L]) && result.Length == 16
    modifies result
    ensures result[..] == FirstBlock(M, L, nonce[..15 - L], la, lm)
  {
    hide Field, Flags;
    result[0] := Flags(la > 0, M, L);
    assert result[..1] == [result[0]];
    Memcpy(result, 1, nonce[..16 - L]);
    ghost var front := [Flags(la > 0, M, L)] + nonce[..15 - L];
    FrontOfBlock(result, [Flags(la > 0, M, L)], nonce, 15 - L);
    var rest := lm;
    for i := 0 to L
      invariant result[..16 - L] == front
      invariant Field(rest, L - i) + result[16 - i..] == Field(lm, L)
    {
      FieldStep(rest, L - i, result[16 - i..]);
      PutByte(result, 15 - i, rest % 256);
      rest := rest / 256;
    }
    FieldEnd(rest);
    Rebuild(result, front, Field(lm, L));
  }

  lemma FrontOfBlock(result: array<byte>, flags: seq<byte>, nonce: Block, n: nat)
    requires result.Length == 16 && |flags| == 1 && n < 15 && result[..2 + n] == flags + nonce[..1 + n]
    ensures result[..1 + n] == flags + nonce[..n]
  {
    assert result[..1 + n] == result[..2 + n][..1 + n];
  }

  method PutByte(buf: array<byte>, at: nat, b: byte)
    requires at < buf.Length
    modifies buf
    ensures buf[..at] == old(buf[..at]) && buf[at..] == [b] + old(buf[at + 1..])
    ensures buf[at + 1..] == old(buf[at + 1..])
  {
    buf[at] := b;
  }

  lemma {:induction false} ZeroField(k: nat)
    ensures Field(0, k) == Zeros(k)
  {
    if k > 0 { ZeroField(k - 1); }
  }

  lemma {:induction false} MaskedField(n: nat, k: nat)
    ensures Power256(k) > 0 && Field(n % Power256(k), k) == Field(n, k)
  {
    if k > 0 {
      MaskedField(n / 256, k - 1);
      var p := Power256(k - 1);
      DropHigh(n, p);
    }
  }

  lemma DropHigh(n: nat, p: nat)
    requires p > 0
    ensures n % (256 * p) / 256 == n / 256 % p && n % (256 * p) % 256 == n % 256
  {
    var q, r := n / (256 * p), n % (256 * p);
    assert n == 256 * (p * q) + r;
    assert n / 256 == p * q + r / 256;
    assert r / 256 < p;
    Remainder(n / 256, p, q, r / 256);
  }

  lemma Remainder(a: nat, p: nat, q: nat, r: nat)
    requires a == p * q + r && r < p
    ensures a % p == r
  {
    var d := a / p - q;
    assert p * d == p * (a / p) - p * q == r - a % p;
    Multiple(p, d);
  }

  lemma Multiple(p: nat, d: int)
    ensures d >= 1 ==> p * d >= p
    ensures d <= -1 ==> p * d + p <= 0
  {
    assert p * d == p + p * (d - 1) == p * (d + 1) - p;
  }

  /** SET_COUNTER: the loop stops as soon as the rest of the counter is zero. */
  method SetCounter(A: array<byte>, L: nat, cnt: nat)
    requires A.Length == 16 && 2 <= L <= 3
    modifies A
    ensures A[..] == old(A[..16 - L]) + Field(cnt, L)
  {
    hide Field, Power256;
    ghost var front := A[..16 - L];
    Memcpy(A, 16 - L, Zeros(L));
    MaskedField(cnt, L);
    var c: nat := cnt % Power256(L);
    var i := 15;
    FieldEnd(c);
    while c > 0 && i > L
      invariant 15 - L <= i <= 15 && A[..16 - L] == front
      invariant Field(c, i - (15 - L)) + A[i + 1..] == Field(cnt, L)
      invariant forall k :: 16 - L <= k <= i ==> A[k] == 0
      invariant c < Power256(i - (15 - L))
    {
      assert i > 15 - L;
      FieldStep(c, i - (15 - L), A[i + 1..]);
      A[i] := c % 256;
      FirstOfTail(A, i);
      c := c / 256;
      i := i - 1;
    }
    ZeroField(i - (15 - L));
    CounterDone(A, L, i);
  }

  lemma FirstOfTail(A: array<byte>, i: nat)
    requires i < A.Length
    ensures A[i..] == [A[i]] + A[i + 1..]
  {
  }

  lemma CounterDone(A: array<byte>, L: nat, i: nat)
    requires A.Length == 16 && 2 <= L <= 3 && 15 - L <= i <= 15
    requires forall k :: 16 - L <= k <= i ==> A[k] == 0
    ensures A[..] == A[..16 - L] + (Zeros(i - (15 - L)) + A[i + 1..])
  {
    var all := A[..16 - L] + (Zeros(i - (15 - L)) + A[i + 1..]);
    assert |all| == 16;
    forall k | 0 <= k < 16 ensures A[k] == all[k] {
      if k >= i + 1 { assert all[k] == A[i + 1..][k - (i + 1)]; }
    }
  }

  /** add_auth_data: the chain over B_0, the length of the additional data and the data. */
  method AddAuthData(E: Cipher, aad: seq<byte>, B: array<byte>, X: array<byte>)
    requires B.Length == X.Length == 16 && B != X && |aad| < 0x1_0000_0000_0000_0000
    modifies B, X
    ensures X[..] == CbcMac(E, E(old(B[..])), Padded(AadLength(|aad|) + aad))
  {
    hide Xor, XorAll, Field, CbcMac, Padded;
    var la := |aad|;
    EncryptBlock(E, B, X);
    Memcpy(B, 0, Zeros(16));
    if la == 0 {
      NoBlocks(E, X[..]);
      assert AadLength(la) + aad == [];
      return;
    }
    ghost var goal := CbcMac(E, X[..], Padded(AadLength(la) + aad));
    var pos := FirstAadBlock(E, aad, B, X);
    while la - pos > 16
      invariant pos <= la && CbcMac(E, X[..], Padded(aad[pos..])) == goal
    {
      WholeBlock(E, X[..], aad, pos);
      ChainBlock(E, B, X, aad[pos..pos + 16]);
      pos := pos + 16;
    }
    if la - pos > 0 {
      LastBlock(E, X[..], aad, pos);
      ChainBlock(E, B, X, aad[pos..] + Zeros(16 - (la - pos)));
      pos := la;
    }
    NoBlocks(E, X[..]);
    assert aad[la..] == [];
  }

  /** The block that holds the encoded length and the first bytes of the data. */
  method FirstAadBlock(E: Cipher, aad: seq<byte>, B: array<byte>, X: array<byte>) returns (pos: nat)
    requires B.Length == X.Length == 16 && B != X && B[..] == Zeros(16)
    requires 0 < |aad| < 0x1_0000_0000_0000_0000
    modifies B, X
    ensures pos <= |aad|
    ensures CbcMac(E, X[..], Padded(aad[pos..])) == CbcMac(E, old(X[..]), Padded(AadLength(|aad|) + aad))
  {
    hide Xor, XorAll, Field, CbcMac, Padded;
    var la := |aad|;
    var j := if la < 0xFF00 then 2 else if la < 0x1_0000_0000 then 6 else 10;
    ghost var data := AadLength(la) + aad;
    WriteLength(B, la);
    pos := if 16 - j <= la then 16 - j else la;
    assert |AadLength(la)| == j;
    WriteOverZeros(B, AadLength(la), aad[..pos]);
    assert data[..j + pos] == AadLength(la) + aad[..pos];
    assert data[j + pos..] == aad[pos..];
    NextBlock(E, X[..], data);
    ChainBlock(E, B, X, B[..]);
  }

  lemma WholeBlock(E: Cipher, x: Block, s: seq<byte>, pos: nat)
    requires pos + 16 <= |s|
    ensures CbcMac(E, x, Padded(s[pos..])) == CbcMac(E, E(XorAll(x, s[pos..pos + 16])), Padded(s[pos + 16..]))
  {
    hide XorAll, CbcMac, Padded;
    NextBlock(E, x, s[pos..]);
    assert s[pos..][..16] + Zeros(0) == s[pos..pos + 16] && s[pos..][16..] == s[pos + 16..];
  }

  lemma LastBlock(E: Cipher, x: Block, s: seq<byte>, pos: nat)
    requires pos < |s| <= pos + 16
    ensures CbcMac(E, x, Padded(s[pos..])) == E(XorAll(x, s[pos..] + Zeros(16 - (|s| - pos))))
  {
    hide XorAll;
    NextBlock(E, x, s[pos..]);
    assert s[pos..][..|s| - pos] == s[pos..];
    NoBlocks(E, E(XorAll(x, s[pos..] + Zeros(16 - (|s| - pos)))));
  }

  lemma NoBlocks(E: Cipher, x: Block)
    ensures Padded([]) == [] && CbcMac(E, x, []) == x
  {
  }

  /** memcpy behind `front` into a block that is zero from there on. */
  method WriteOverZeros(B: array<byte>, front: seq<byte>, src: seq<byte>)
    requires B.Length == 16 && |front| + |src| <= 16 && B[..] == front + Zeros(16 - |front|)
    modifies B
    ensures B[..] == front + src + Zeros(16 - |front| - |src|)
  {
    var n := |front| + |src|;
    ZeroTail(B[..], front, |src|);
    assert B[..|front|] == B[..][..|front|] == front && B[n..] == B[..][n..];
    Memcpy(B, |front|, src);
    Rebuild(B, front + src, Zeros(16 - n));
  }

  method WriteFirst(B: array<byte>, src: seq<byte>)
    requires B.Length == 16 && |src| <= 16 && B[..] == Zeros(16)
    modifies B
    ensures B[..] == src + Zeros(16 - |src|)
  {
    NothingBefore(Zeros(16));
    WriteOverZeros(B, [], src);
    NothingBefore(src);
  }

  lemma NothingBefore(s: seq<byte>)
    ensures [] + s == s
  {
  }

  lemma ZeroTail(b: seq<byte>, front: seq<byte>, k: nat)
    requires |front| + k <= 16 && b == front + Zeros(16 - |front|)
    ensures b[..|front|] == front && b[|front| + k..] == Zeros(16 - |front| - k)
  {
  }

  method WriteLength(B: array<byte>, la: nat)
    requires B.Length == 16 && 0 < la < 0x1_0000_0000_0000_0000 && B[..] == Zeros(16)
    modifies B
    ensures B[..] == AadLength(la) + Zeros(16 - |AadLength(la)|)
  {
    hide Field;
    if la < 0xFF00 {
      WriteFirst(B, Field(la, 2));
    } else if la < 0x1_0000_0000 {
      WriteFirst(B, Field(0xFFFE, 2));
      WriteOverZeros(B, Field(0xFFFE, 2), Field(la, 4));
    } else {
      WriteFirst(B, Field(0xFFFF, 2));
      WriteOverZeros(B, Field(0xFFFF, 2), Field(la, 8));
    }
  }

  /** B = X xor block; X = E(B) */
  method ChainBlock(E: Cipher, B: array<byte>, X: array<byte>, block: seq<byte>)
    requires B.Length == X.Length == 16 && B != X && |block| == 16
    modifies B, X
    ensures X[..] == E(XorAll(old(X[..]), block))
  {
    XorAllSymmetric(block, X[..]);
    Memcpy(B, 0, block);
    assert B[..] == block && B[0..16] == block;
    Memxor(B, 0, X[..]);
    assert B[..] == B[0..16];
    EncryptBlock(E, B, X);
  }

  /** mac: chain `len` bytes of the message; the rest of B already holds X. */
  method MacStep(E: Cipher, msg: array<byte>, at: nat, len: nat, B: array<byte>, X: array<byte>)
    requires B.Length == X.Length == 16 && B != X && msg != B && msg != X
    requires len <= 16 && at + len <= msg.Length && B[len..] == X[len..]
    modifies B, X
    ensures X[..] == E(XorAll(old(X[..]), msg[at..at + len] + Zeros(16 - len)))
  {
    hide Xor;
    ghost var block := msg[at..at + len] + Zeros(16 - len);
    for i := 0 to len
      invariant forall k :: 0 <= k < i ==> B[k] == Xor(X[k], msg[at + k])
      invariant B[len..] == X[len..] && X[..] == old(X[..])
    {
      B[i] := Xor(X[i], msg[at + i]);
    }
    forall k | 0 <= k < 16 ensures B[k] == XorAll(X[..], block)[k] {
      XorCancels(X[k], X[k]);
      if k >= len { assert B[k] == B[len..][k - len] == X[len..][k - len] == X[k]; }
    }
    assert B[..] == XorAll(X[..], block);
    EncryptBlock(E, B, X);
  }

  /** encrypt: xor `len` bytes of the message with S_counter. */
  method XorKeystream(E: Cipher, L: nat, counter: nat, msg: array<byte>, at: nat, len: nat,
                      A: array<byte>, S: array<byte>, ghost nonce: seq<byte>)
    requires A.Length == S.Length == 16 && A != S && msg != A && msg != S
    requires 2 <= L <= 3 && |nonce| == 15 - L && A[..16 - L] == [L - 1] + nonce
    requires len <= 16 && at + len <= msg.Length
    modifies msg, A, S
    ensures A[..16 - L] == [L - 1] + nonce
    ensures msg[..at] == old(msg[..at]) && msg[at + len..] == old(msg[at + len..])
    ensures msg[at..at + len] == XorAll(old(msg[at..at + len]), E(CounterBlock(L, nonce, counter))[..len])
  {
    hide XorAll, Field;
    SetCounter(A, L, counter);
    EncryptBlock(E, A, S);
    Memxor(msg, at, S[..len]);
  }

  lemma StreamBlock(E: Cipher, L: nat, nonce: seq<byte>, m: seq<byte>, pos: nat, n: nat)
    requires 2 <= L <= 3 && |nonce| == 15 - L && pos % 16 == 0 && n <= 16 && pos + n <= |m|
    ensures Stream(E, L, nonce, m)[pos..pos + n]
         == XorAll(m[pos..pos + n], E(CounterBlock(L, nonce, 1 + pos / 16))[..n])
  {
    hide Xor, CounterBlock;
    var s := E(CounterBlock(L, nonce, 1 + pos / 16));
    var left, right := Stream(E, L, nonce, m)[pos..pos + n], XorAll(m[pos..pos + n], s[..n]);
    forall k | 0 <= k < n ensures left[k] == right[k] {
      assert (pos + k) / 16 == pos / 16 && (pos + k) % 16 == k;
    }
  }

  // ---------------------------------------------------------------- the two operations

  lemma MacOfParts(E: Cipher, M: nat, L: nat, nonce: seq<byte>, aad: seq<byte>, m: seq<byte>)
    requires Parameters(M, L, nonce)
    ensures var x := CbcMac(E, E(FirstBlock(M, L, nonce, |aad|, |m|)), Padded(AadLength(|aad|) + aad));
            CbcMac(E, x, Padded(m)) == Mac(E, M, L, nonce, aad, m)
  {
    hide CbcMac, Padded, AadLength, FirstBlock;
    CbcMacAppend(E, E(FirstBlock(M, L, nonce, |aad|, |m|)), Padded(AadLength(|aad|) + aad), Padded(m));
  }

  /** What both loops start from: X after the additional data, A ready for the counters. */
  method Start(E: Cipher, M: nat, L: nat, nonce: Block, lm: nat, aad: seq<byte>, ghost m: seq<byte>,
               A: array<byte>, B: array<byte>, X: array<byte>)
    requires L <= 3 && Parameters(M, L, nonce[..15 - L]) && |m| == lm && |aad| < 0x1_0000_0000_0000_0000
    requires A.Length == B.Length == X.Length == 16 && A != B && B != X && A != X
    modifies A, B, X
    ensures A[..16 - L] == [L - 1] + nonce[..15 - L]
    ensures CbcMac(E, X[..], Padded(m)) == Mac(E, M, L, nonce[..15 - L], aad, m)
  {
    hide CbcMac, Padded, Mac, FirstBlock;
    Block0(M, L, |aad|, lm, nonce, B);
    AddAuthData(E, aad, B, X);
    MacOfParts(E, M, L, nonce[..15 - L], aad, m);
    CounterTemplate(L, nonce, A);
  }

  method CounterTemplate(L: nat, nonce: Block, A: array<byte>)
    requires 2 <= L <= 3 && A.Length == 16
    modifies A
    ensures A[..16 - L] == [L - 1] + nonce[..15 - L]
  {
    A[0] := L - 1;
    Memcpy(A, 1, nonce[..16 - L]);
    assert A[..16 - L] == [A[0]] + nonce[..15 - L];
  }

  lemma ChainStep(E: Cipher, x: Block, m: seq<byte>, pos: nat, n: nat)
    requires 0 < n <= 16 && pos + n <= |m| && (n == 16 || pos + n == |m|)
    ensures CbcMac(E, E(XorAll(x, m[pos..pos + n] + Zeros(16 - n))), Padded(m[pos + n..]))
         == CbcMac(E, x, Padded(m[pos..]))
  {
    hide XorAll, CbcMac, Padded;
    if n == 16 {
      WholeBlock(E, x, m, pos);
      assert m[pos..pos + n] + Zeros(0) == m[pos..pos + 16];
    } else {
      LastBlock(E, x, m, pos);
      assert m[pos..pos + n] == m[pos..] && m[pos + n..] == [];
      NoBlocks(E, E(XorAll(x, m[pos..] + Zeros(16 - n))));
    }
  }

  /** The message buffer after `pos` bytes: the stream cipher up to there, the input behind. */
  predicate Converted(msg: array<byte>, at: nat, pos: nat, m: seq<byte>, c: seq<byte>)
    requires pos <= |m| == |c| && at + |m| <= msg.Length
    reads msg
  {
    msg[at..at + pos] == c[..pos] && msg[at + pos..at + |m|] == m[pos..]
  }

  lemma NextPiece(msg: array<byte>, at: nat, pos: nat, n: nat, m: seq<byte>, c: seq<byte>)
    requires pos + n <= |m| == |c| && at + |m| <= msg.Length && Converted(msg, at, pos, m, c)
    ensures msg[at + pos..at + pos + n] == m[pos..pos + n]
  {
    assert msg[at + pos..at + pos + n] == msg[at + pos..at + |m|][..n];
  }

  /** One more piece converted; everything outside it unchanged. */
  lemma ConvertedMore(was: seq<byte>, now: seq<byte>, at: nat, pos: nat, n: nat, m: seq<byte>, c: seq<byte>)
    requires |was| == |now| && pos + n <= |m| == |c| && at + |m| <= |was|
    requires was[at..at + pos] == c[..pos] && was[at + pos..at + |m|] == m[pos..]
    requires now[..at + pos] == was[..at + pos] && now[at + pos + n..] == was[at + pos + n..]
    requires now[at + pos..at + pos + n] == c[pos..pos + n]
    ensures now[at..at + pos + n] == c[..pos + n] && now[at + pos + n..at + |m|] == m[pos + n..]
    ensures now[..at] == was[..at] && now[at + |m|..] == was[at + |m|..]
  {
    assert now[at..at + pos] == now[..at + pos][at..] == was[at..at + pos];
    assert now[at..at + pos + n] == now[at..at + pos] + now[at + pos..at + pos + n];
    assert c[..pos + n] == c[..pos] + c[pos..pos + n];
    assert now[at + pos + n..at + |m|] == now[at + pos + n..][..|m| - pos - n] == was[at + pos..at + |m|][n..];
    assert now[..at] == now[..at + pos][..at];
    assert now[at + |m|..] == now[at + pos + n..][|m| - pos - n..];
  }

  /** One piece of the message under the key stream. */
  method ConvertOne(E: Cipher, L: nat, counter: nat, msg: array<byte>, at: nat, pos: nat, n: nat, A: array<byte>,
                    S: array<byte>, ghost nonce: seq<byte>, ghost m: seq<byte>)
    requires A.Length == S.Length == 16 && A != S && msg != A && msg != S
    requires 2 <= L <= 3 && |nonce| == 15 - L && A[..16 - L] == [L - 1] + nonce
    requires 0 < n <= 16 && pos + n <= |m| && at + |m| <= msg.Length
    requires pos % 16 == 0 && counter == 1 + pos / 16 && Converted(msg, at, pos, m, Stream(E, L, nonce, m))
    modifies msg, A, S
    ensures A[..16 - L] == [L - 1] + nonce && Converted(msg, at, pos + n, m, Stream(E, L, nonce, m))
    ensures msg[..at] == old(msg[..at]) && msg[at + |m|..] == old(msg[at + |m|..])
    ensures msg[at + pos..at + pos + n] == Stream(E, L, nonce, m)[pos..pos + n]
  {
    hide Stream, CounterBlock, XorAll;
    ghost var was := msg[..];
    NextPiece(msg, at, pos, n, m, Stream(E, L, nonce, m));
    XorKeystream(E, L, counter, msg, at + pos, n, A, S, nonce);
    StreamBlock(E, L, nonce, m, pos, n);
    ConvertedMore(was, msg[..], at, pos, n, m, Stream(E, L, nonce, m));
  }

  method EncryptOne(E: Cipher, L: nat, counter: nat, msg: array<byte>, at: nat, pos: nat, n: nat, A: array<byte>,
                    B: array<byte>, S: array<byte>, X: array<byte>, ghost nonce: seq<byte>, ghost m: seq<byte>)
    requires A.Length == B.Length == S.Length == X.Length == 16 && A != B && A != S && A != X && B != S && B != X
    requires S != X && msg != A && msg != B && msg != S && msg != X
    requires 2 <= L <= 3 && |nonce| == 15 - L && A[..16 - L] == [L - 1] + nonce
    requires 0 < n <= 16 && pos + n <= |m| && at + |m| <= msg.Length
    requires n == 16 || (pos + n == |m| && B[n..] == X[n..])
    requires pos % 16 == 0 && counter == 1 + pos / 16 && Converted(msg, at, pos, m, Stream(E, L, nonce, m))
    modifies msg, A, B, S, X
    ensures A[..16 - L] == [L - 1] + nonce && Converted(msg, at, pos + n, m, Stream(E, L, nonce, m))
    ensures msg[..at] == old(msg[..at]) && msg[at + |m|..] == old(msg[at + |m|..])
    ensures CbcMac(E, X[..], Padded(m[pos + n..])) == CbcMac(E, old(X[..]), Padded(m[pos..]))
  {
    hide CbcMac, Padded, Stream, CounterBlock, XorAll;
    NextPiece(msg, at, pos, n, m, Stream(E, L, nonce, m));
    MacStep(E, msg, at + pos, n, B, X);
    ChainStep(E, old(X[..]), m, pos, n);
    ConvertOne(E, L, counter, msg, at, pos, n, A, S, nonce, m);
  }

  method DecryptOne(E: Cipher, L: nat, counter: nat, msg: array<byte>, at: nat, pos: nat, n: nat, A: array<byte>,
                    B: array<byte>, S: array<byte>, X: array<byte>, ghost nonce: seq<byte>, ghost c: seq<byte>)
    requires A.Length == B.Length == S.Length == X.Length == 16 && A != B && A != S && A != X && B != S && B != X
    requires S != X && msg != A && msg != B && msg != S && msg != X
    requires 2 <= L <= 3 && |nonce| == 15 - L && A[..16 - L] == [L - 1] + nonce
    requires 0 < n <= 16 && pos + n <= |c| && at + |c| <= msg.Length && (n == 16 || pos + n == |c|)
    requires pos % 16 == 0 && counter == 1 + pos / 16 && Converted(msg, at, pos, c, Stream(E, L, nonce, c))
    modifies msg, A, B, S, X
    ensures A[..16 - L] == [L - 1] + nonce && Converted(msg, at, pos + n, c, Stream(E, L, nonce, c))
    ensures msg[..at] == old(msg[..at]) && msg[at + |c|..] == old(msg[at + |c|..])
    ensures var m := Stream(E, L, nonce, c);
            CbcMac(E, X[..], Padded(m[pos + n..])) == CbcMac(E, old(X[..]), Padded(m[pos..]))
  {
    hide CbcMac, Padded, Stream, CounterBlock, XorAll;
    ghost var m := Stream(E, L, nonce, c);
    ConvertOne(E, L, counter, msg, at, pos, n, A, S, nonce, c);
    Memcpy(B, n, X[n..]);
    MacStep(E, msg, at + pos, n, B, X);
    ChainStep(E, old(X[..]), m, pos, n);
  }

  method EncryptBlocks(E: Cipher, L: nat, msg: array<byte>, at: nat, lm: nat, A: array<byte>, B: array<byte>,
                       S: array<byte>, X: array<byte>, ghost nonce: seq<byte>, ghost m: seq<byte>)
    requires A.Length == B.Length == S.Length == X.Length == 16 && A != B && A != S && A != X && B != S && B != X
    requires S != X && msg != A && msg != B && msg != S && msg != X
    requires 2 <= L <= 3 && |nonce| == 15 - L && A[..16 - L] == [L - 1] + nonce
    requires |m| == lm && at + lm <= msg.Length && msg[at..at + lm] == m
    modifies msg, A, B, S, X
    ensures A[..16 - L] == [L - 1] + nonce && msg[at..at + lm] == Stream(E, L, nonce, m)
    ensures msg[..at] == old(msg[..at]) && msg[at + lm..] == old(msg[at + lm..])
    ensures X[..] == CbcMac(E, old(X[..]), Padded(m))
  {
    hide CbcMac, Padded, Stream, CounterBlock, XorAll;
    ghost var goal, out := CbcMac(E, X[..], Padded(m)), Stream(E, L, nonce, m);
    var pos, counter := 0, 1;
    assert m[0..] == m && out[0..] == out;
    while lm - pos >= 16
      invariant pos <= lm && pos % 16 == 0 && counter == 1 + pos / 16
      invariant A[..16 - L] == [L - 1] + nonce && Converted(msg, at, pos, m, out)
      invariant msg[..at] == old(msg[..at]) && msg[at + lm..] == old(msg[at + lm..])
      invariant CbcMac(E, X[..], Padded(m[pos..])) == goal
    {
      EncryptOne(E, L, counter, msg, at, pos, 16, A, B, S, X, nonce, m);
      pos := pos + 16;
      counter := counter + 1;
    }
    if lm - pos > 0 {
      Memcpy(B, lm - pos, X[lm - pos..]);
      EncryptOne(E, L, counter, msg, at, pos, lm - pos, A, B, S, X, nonce, m);
      pos := lm;
    }
    NoBlocks(E, X[..]);
    assert m[lm..] == [] && out[..lm] == out;
  }

  method DecryptBlocks(E: Cipher, L: nat, msg: array<byte>, at: nat, lm: nat, A: array<byte>, B: array<byte>,
                       S: array<byte>, X: array<byte>, ghost nonce: seq<byte>, ghost c: seq<byte>)
    requires A.Length == B.Length == S.Length == X.Length == 16 && A != B && A != S && A != X && B != S && B != X
    requires S != X && msg != A && msg != B && msg != S && msg != X
    requires 2 <= L <= 3 && |nonce| == 15 - L && A[..16 - L] == [L - 1] + nonce
    requires |c| == lm && at + lm <= msg.Length && msg[at..at + lm] == c
    modifies msg, A, B, S, X
    ensures A[..16 - L] == [L - 1] + nonce && msg[at..at + lm] == Stream(E, L, nonce, c)
    ensures msg[..at] == old(msg[..at]) && msg[at + lm..] == old(msg[at + lm..])
    ensures X[..] == CbcMac(E, old(X[..]), Padded(Stream(E, L, nonce, c)))
  {
    hide CbcMac, Padded, Stream, CounterBlock, XorAll;
    ghost var goal, out := CbcMac(E, X[..], Padded(Stream(E, L, nonce, c))), Stream(E, L, nonce, c);
    var pos, counter := 0, 1;
    assert c[0..] == c && out[0..] == out;
    while lm - pos >= 16
      invariant pos <= lm && pos % 16 == 0 && counter == 1 + pos / 16
      invariant A[..16 - L] == [L - 1] + nonce && Converted(msg, at, pos, c, out)
      invariant msg[..at] == old(msg[..at]) && msg[at + lm..] == old(msg[at + lm..])
      invariant CbcMac(E, X[..], Padded(out[pos..])) == goal
    {
      DecryptOne(E, L, counter, msg, at, pos, 16, A, B, S, X, nonce, c);
      pos := pos + 16;
      counter := counter + 1;
    }
    if lm - pos > 0 {
      DecryptOne(E, L, counter, msg, at, pos, lm - pos, A, B, S, X, nonce, c);
      pos := lm;
    }
    NoBlocks(E, X[..]);
    assert out[lm..] == [] && out[..lm] == out;
  }

  /** S_0 */
  method Keystream0(E: Cipher, L: nat, A: array<byte>, S: array<byte>, ghost nonce: seq<byte>)
    requires A.Length == S.Length == 16 && A != S
    requires 2 <= L <= 3 && |nonce| == 15 - L && A[..16 - L] == [L - 1] + nonce
    modifies A, S
    ensures S[..] == E(CounterBlock(L, nonce, 0))
  {
    SetCounter(A, L, 0);
    EncryptBlock(E, A, S);
  }

  method WriteTag(msg: array<byte>, at: nat, M: nat, X: array<byte>, S: array<byte>)
    requires X.Length == S.Length == 16 && M <= 16 && at + M <= msg.Length && msg != X && msg != S
    modifies msg
    ensures msg[..at] == old(msg[..at]) && msg[at + M..] == old(msg[at + M..])
    ensures msg[at..at + M] == XorAll(X[..M], S[..])
  {
    hide Xor;
    for i := 0 to M
      invariant msg[..at] == old(msg[..at]) && msg[at + M..] == old(msg[at + M..])
      invariant forall k :: 0 <= k < i ==> msg[at + k] == Xor(X[k], S[k])
    {
      msg[at + i] := Xor(X[i], S[i]);
    }
  }

  /** dtls_ccm_encrypt_message: encrypts in place and appends the tag. */
  method EncryptMessage(E: Cipher, M: nat, L: nat, nonce: Block, msg: array<byte>, at: nat, lm: nat, aad: seq<byte>)
    returns (len: nat)
    requires L <= 3 && Parameters(M, L, nonce[..15 - L]) && |aad| < 0x1_0000_0000_0000_0000
    requires at + lm + M <= msg.Length
    modifies msg
    ensures len == lm + M
    ensures msg[at..at + len] == Encrypt(E, M, L, nonce[..15 - L], aad, old(msg[at..at + lm]))
    ensures msg[..at] == old(msg[..at]) && msg[at + len..] == old(msg[at + len..])
  {
    hide CbcMac, Padded, Mac, Stream, CounterBlock, XorAll;
    var A, B, S, X := new byte[16], new byte[16], new byte[16], new byte[16];
    ghost var n15, m := nonce[..15 - L], msg[at..at + lm];
    ghost var goal, c := Mac(E, M, L, n15, aad, m), Stream(E, L, n15, m);
    Start(E, M, L, nonce, lm, aad, m, A, B, X);
    EncryptBlocks(E, L, msg, at, lm, A, B, S, X, n15, m);
    Keystream0(E, L, A, S, n15);
    ghost var was := msg[..];
    WriteTag(msg, at + lm, M, X, S);
    len := lm + M;
    Sealed(was, msg[..], at, lm, M);
  }

  lemma Sealed(was: seq<byte>, now: seq<byte>, at: nat, lm: nat, M: nat)
    requires |was| == |now| && at + lm + M <= |was|
    requires now[..at + lm] == was[..at + lm] && now[at + lm + M..] == was[at + lm + M..]
    ensures now[..at] == was[..at] && was[at + lm..][M..] == was[at + lm + M..]
    ensures now[at..at + lm + M] == was[at..at + lm] + now[at + lm..at + lm + M]
  {
    assert now[..at] == now[..at + lm][..at];
    assert now[at..at + lm] == now[..at + lm][at..] == was[..at + lm][at..] == was[at..at + lm];
    assert now[at..at + lm + M] == now[at..at + lm] + now[at + lm..at + lm + M];
  }

  /** dtls_ccm_decrypt_message: decrypts in place, even when the tag then turns out wrong. */
  method DecryptMessage(E: Cipher, M: nat, L: nat, nonce: Block, msg: array<byte>, at: nat, lm0: nat, aad: seq<byte>)
    returns (len: int)
    requires L <= 3 && Parameters(M, L, nonce[..15 - L]) && |aad| < 0x1_0000_0000_0000_0000
    requires at + lm0 <= msg.Length
    modifies msg
    ensures msg[..at] == old(msg[..at]) && msg[at + lm0..] == old(msg[at + lm0..])
    ensures match Decrypt(E, M, L, nonce[..15 - L], aad, old(msg[at..at + lm0]))
            case Some(m) => len == |m| == lm0 - M && msg[at..at + len] == m
            case None => len == -1
  {
    hide CbcMac, Padded, Mac, Stream, CounterBlock, XorAll;
    if lm0 < M {
      return -1;
    }
    var A, B, S, X := new byte[16], new byte[16], new byte[16], new byte[16];
    var lm := lm0 - M;
    ghost var n15, c, u := nonce[..15 - L], msg[at..at + lm], msg[at + lm..at + lm0];
    ghost var m := Stream(E, L, n15, c);
    DecryptSplit(E, M, L, n15, aad, old(msg[at..at + lm0]), c, u);
    assert u == msg[at + lm..][..M];
    Start(E, M, L, nonce, lm, aad, m, A, B, X);
    DecryptBlocks(E, L, msg, at, lm, A, B, S, X, n15, c);
    Keystream0(E, L, A, S, n15);
    ghost var was := msg[..];
    var ok := CheckTag(msg, at + lm, M, X, S, u);
    Sealed(was, msg[..], at, lm, M);
    len := if ok then lm else -1;
    assert msg[at..at + lm] == m;
  }

  lemma DecryptSplit(E: Cipher, M: nat, L: nat, nonce: seq<byte>, aad: seq<byte>,
                     all: seq<byte>, c: seq<byte>, u: seq<byte>)
    requires Parameters(M, L, nonce) && all == c + u && |u| == M
    ensures var m := Stream(E, L, nonce, c);
            var ok := XorAll(u, E(CounterBlock(L, nonce, 0))) == Mac(E, M, L, nonce, aad, m)[..M];
            Decrypt(E, M, L, nonce, aad, all) == if ok then Some(m) else None
  {
    hide Mac, Stream, CounterBlock, XorAll;
    assert all[..|all| - M] == c && all[|all| - M..] == u;
  }

  /** memxor of the received tag with S_0, then equals with X. */
  method CheckTag(msg: array<byte>, at: nat, M: nat, X: array<byte>, S: array<byte>, ghost u: seq<byte>)
    returns (ok: bool)
    requires X.Length == S.Length == 16 && M <= 16 && at + M <= msg.Length && msg != X && msg != S
    requires |u| == M && msg[at..][..M] == u
    modifies msg
    ensures msg[..at] == old(msg[..at]) && msg[at + M..] == old(msg[at + M..])
    ensures ok <==> XorAll(u, S[..]) == X[..M]
  {
    assert msg[at..at + M] == u;
    Memxor(msg, at, S[..M]);
    assert XorAll(u, S[..M]) == XorAll(u, S[..]);
    ok := X[..M] == msg[at..at + M];
  }
}
