/**
 * Keyed hashing and the pseudo-random function (arduino/libraries/Dtls-s/hmac.c,
 * arduino/libraries/Dtls-s/crypto.c) against RFC 2104 and section 5 of RFC 5246. The hash is an
 * arbitrary function with 32-byte digests; its context is the input it has been given.
 */
module Hmac {
  import opened Bytes
  import opened Numeric
  import opened Wrappers

  const BLOCKSIZE := 64
  const DIGEST_SIZE := 32

  type Digest = s: seq<byte> | |s| == 32 witness seq(32, i => 0)

  type Hash = seq<byte> -> Digest

  function Fill(n: nat, b: byte): (s: seq<byte>)
    ensures |s| == n
  {
    seq(n, i => b)
  }

  // ---------------------------------------------------------------- the definitions

  /** The key, hashed if it is longer than a block, padded with zeros. */
  function BlockKey(H: Hash, key: seq<byte>): (k: seq<byte>)
    ensures |k| == BLOCKSIZE
  {
    if |key| > BLOCKSIZE then H(key) + Fill(BLOCKSIZE - DIGEST_SIZE, 0) else key + Fill(BLOCKSIZE - |key|, 0)
  }

  function Ipad(H: Hash, key: seq<byte>): seq<byte> { XorAll(BlockKey(H, key), Fill(BLOCKSIZE, 0x36)) }

  function Opad(H: Hash, key: seq<byte>): seq<byte> { XorAll(BlockKey(H, key), Fill(BLOCKSIZE, 0x5C)) }

  function HmacOf(H: Hash, key: seq<byte>, text: seq<byte>): Digest
  {
    H(Opad(H, key) + H(Ipad(H, key) + text))
  }

  /** A(i) */
  function A(H: Hash, key: seq<byte>, seed: seq<byte>, i: nat): seq<byte>
  {
    if i == 0 then seed else HmacOf(H, key, A(H, key, seed, i - 1))
  }

  function Output(H: Hash, key: seq<byte>, seed: seq<byte>, i: nat): Digest
  {
    HmacOf(H, key, A(H, key, seed, i) + seed)
  }

  /** The first n bytes of HMAC(A(1) + seed) + HMAC(A(2) + seed) + ... */
  function PHash(H: Hash, key: seq<byte>, seed: seq<byte>, n: nat): (p: seq<byte>)
    ensures |p| == n
  {
    seq(n, k requires 0 <= k => Output(H, key, seed, k / 32 + 1)[k % 32])
  }

  /** A shorter output is a prefix of a longer one. */
  lemma ShorterIsPrefix(H: Hash, key: seq<byte>, seed: seq<byte>, n: nat, m: nat)
    requires n <= m
    ensures PHash(H, key, seed, n) == PHash(H, key, seed, m)[..n]
  {
    hide Output;
  }

  lemma NextOutput(H: Hash, key: seq<byte>, seed: seq<byte>, i: nat, n: nat)
    requires n <= 32
    ensures PHash(H, key, seed, 32 * i + n) == PHash(H, key, seed, 32 * i) + Output(H, key, seed, i + 1)[..n]
  {
    hide Output;
    var all, front, last := PHash(H, key, seed, 32 * i + n), PHash(H, key, seed, 32 * i),
                            Output(H, key, seed, i + 1)[..n];
    forall k | 0 <= k < 32 * i + n ensures all[k] == (front + last)[k] {
      if k >= 32 * i { Within(i, k - 32 * i); }
    }
  }

  function Padded(key: seq<byte>, pad: byte): (s: seq<byte>)
    requires |key| <= 64
    ensures |s| == 64
  {
    seq(64, i requires 0 <= i < 64 => Xor(OrZero(key, i), pad))
  }

  function OrZero(key: seq<byte>, i: nat): byte { if i < |key| then key[i] else 0 }

  /** Section 2 of RFC 2104, byte by byte. */
  lemma HmacMeaning(H: Hash, key: seq<byte>, text: seq<byte>)
    ensures |key| <= 64 ==> HmacOf(H, key, text) == H(Padded(key, 0x5C) + H(Padded(key, 0x36) + text))
    ensures |key| > 64 ==> HmacOf(H, key, text) == HmacOf(H, H(key), text)
  {
    hide Xor;
    if |key| <= 64 {
      assert Opad(H, key) == Padded(key, 0x5C) && Ipad(H, key) == Padded(key, 0x36);
    } else {
      assert BlockKey(H, key) == BlockKey(H, H(key));
    }
  }

  /** The first two blocks of P_hash, section 5 of RFC 5246. */
  lemma PHashBlocks(H: Hash, key: seq<byte>, seed: seq<byte>)
    ensures var a1 := HmacOf(H, key, seed);
            var a2 := HmacOf(H, key, a1);
            PHash(H, key, seed, 64) == HmacOf(H, key, a1 + seed) + HmacOf(H, key, a2 + seed)
  {
    assert A(H, key, seed, 0) == seed && A(H, key, seed, 1) == HmacOf(H, key, seed);
    assert A(H, key, seed, 2) == HmacOf(H, key, A(H, key, seed, 1));
    assert PHash(H, key, seed, 32 * 0) == [];
    NextOutput(H, key, seed, 0, 32);
    NextOutput(H, key, seed, 1, 32);
    hide HmacOf, PHash, A;
    var o1, o2 := Output(H, key, seed, 1), Output(H, key, seed, 2);
    assert o1[..32] == o1 && o2[..32] == o2;
  }

  lemma Within(i: nat, d: nat)
    requires d < 32
    ensures (32 * i + d) / 32 == i && (32 * i + d) % 32 == d
  {
  }

  // ---------------------------------------------------------------- the paddings

  lemma {:induction false} XorBitsAssociates(a: nat, b: nat, c: nat, bits: nat)
    ensures XorBits(XorBits(a, b, bits), c, bits) == XorBits(a, XorBits(b, c, bits), bits)
  {
    if bits > 0 {
      XorBitsAssociates(a / 2, b / 2, c / 2, bits - 1);
      HalfXor(a, b, bits);
      HalfXor(b, c, bits);
    }
  }

  lemma HalfXor(a: nat, b: nat, bits: nat)
    requires bits > 0
    ensures XorBits(a, b, bits) / 2 == XorBits(a / 2, b / 2, bits - 1)
    ensures XorBits(a, b, bits) % 2 == if a % 2 != b % 2 then 1 else 0
  {
  }

  lemma PadConstants()
    ensures XorBits(0x36, 0x6A, 8) == 0x5C
  {
    assert XorBits(0x1, 0x3, 3) == 2;
    assert XorBits(0xD, 0x1A, 6) == 0x17 by { assert XorBits(3, 6, 4) == 5 by { assert XorBits(1, 3, 3) == 2; } }
  }

  /** Flipping a byte of the inner padding by 0x6A makes it a byte of the outer one. */
  lemma InnerToOuter(k: byte)
    ensures Xor(Xor(k, 0x36), 0x6A) == Xor(k, 0x5C)
  {
    XorBitsAssociates(k, 0x36, 0x6A, 8);
    PadConstants();
  }

  // ---------------------------------------------------------------- the context

  class Context {
    const H: Hash
    const pad: array<byte>
    var data: seq<byte>         // what the hash context has been given

    constructor (H: Hash)
      ensures this.H == H && fresh(pad) && pad.Length == BLOCKSIZE
    {
      this.H := H;
      pad := new byte[BLOCKSIZE];
      data := [];
    }

    /** Initialised with `key` and given `text` since. */
    ghost predicate Holds(key: seq<byte>, text: seq<byte>)
      reads this, pad
    {
      pad.Length == BLOCKSIZE && pad[..] == Opad(H, key) && data == Ipad(H, key) + text
    }

    /** pad[i] ^= b for all i */
    method FlipPad(b: byte)
      requires pad.Length == BLOCKSIZE
      modifies pad
      ensures forall i :: 0 <= i < BLOCKSIZE ==> pad[i] == Xor(old(pad[i]), b)
    {
      hide Xor;
      for i := 0 to BLOCKSIZE
        invariant forall k :: 0 <= k < BLOCKSIZE ==> pad[k] == if k < i then Xor(old(pad[k]), b) else old(pad[k])
      {
        pad[i] := Xor(pad[i], b);
      }
    }

    method LoadKey(key: seq<byte>)
      requires pad.Length == BLOCKSIZE
      modifies pad
      ensures pad[..] == BlockKey(H, key)
    {
      Memcpy(pad, 0, Fill(BLOCKSIZE, 0));
      assert pad[..] == Fill(BLOCKSIZE, 0);
      var k := if |key| > BLOCKSIZE then H(key) else key;
      assert pad[|k|..] == Fill(BLOCKSIZE - |k|, 0);
      Memcpy(pad, 0, k);
      assert pad[..] == pad[..|k|] + pad[|k|..];
    }

    method Init(key: seq<byte>)
      requires pad.Length == BLOCKSIZE
      modifies this, pad
      ensures Holds(key, [])
    {
      hide Xor, BlockKey;
      LoadKey(key);
      ghost var k := BlockKey(H, key);
      FlipPad(0x36);
      assert pad[..] == Ipad(H, key);
      data := [];
      Update(pad[..]);
      assert data == Ipad(H, key) + [];
      FlipPad(0x6A);
      forall i | 0 <= i < BLOCKSIZE ensures pad[i] == Opad(H, key)[i] {
        InnerToOuter(k[i]);
      }
    }

    method Update(input: seq<byte>)
      modifies `data
      ensures data == old(data) + input
    {
      data := data + input;
    }

    method Finalize(result: array<byte>, ghost key: seq<byte>, ghost text: seq<byte>) returns (len: nat)
      requires Holds(key, text) && result.Length >= DIGEST_SIZE && result != pad
      modifies this, result
      ensures len == DIGEST_SIZE && result[..len] == HmacOf(H, key, text) && result[len..] == old(result[len..])
      ensures pad[..] == old(pad[..])
    {
      var buf := H(data);
      data := [];
      Update(pad[..]);
      Update(buf);
      assert data == pad[..] + buf;
      Memcpy(result, 0, H(data));
      len := DIGEST_SIZE;
    }
  }

  /** Any number of updates amount to one with all the input. */
  method UpdateAll(ctx: Context, inputs: seq<seq<byte>>, ghost key: seq<byte>, ghost text: seq<byte>)
    requires ctx.Holds(key, text)
    modifies ctx`data
    ensures ctx.Holds(key, text + Concat(inputs))
  {
    hide Ipad, Opad;
    assert text + [] == text && inputs[..0] == [];
    for i := 0 to |inputs|
      invariant ctx.Holds(key, text + Concat(inputs[..i]))
    {
      ctx.Update(inputs[i]);
      ConcatMore(inputs, i);
      assert Ipad(ctx.H, key) + (text + Concat(inputs[..i])) + inputs[i]
             == Ipad(ctx.H, key) + (text + Concat(inputs[..i + 1]));
    }
    assert inputs[..|inputs|] == inputs;
  }

  lemma ConcatMore(inputs: seq<seq<byte>>, i: nat)
    requires i < |inputs|
    ensures Concat(inputs[..i + 1]) == Concat(inputs[..i]) + inputs[i]
  {
    var one := [inputs[i]];
    assert inputs[..i + 1] == inputs[..i] + one;
    ConcatAppend(inputs[..i], one);
    assert one[1..] == [] && Concat(one) == inputs[i] + [];
  }

  // ---------------------------------------------------------------- the pseudo-random function

  /** One HMAC over `first` and the three parts of the seed. */
  method Keyed(ctx: Context, key: seq<byte>, first: seq<byte>, seed: seq<seq<byte>>, result: array<byte>)
    requires ctx.pad.Length == BLOCKSIZE && result.Length == DIGEST_SIZE && result != ctx.pad
    modifies ctx, ctx.pad, result
    ensures result[..] == HmacOf(ctx.H, key, first + Concat(seed))
  {
    hide HmacOf, Ipad, Opad, Concat;
    ctx.Init(key);
    UpdateAll(ctx, [first], key, []);
    assert [] + Concat([first]) == first by { One(first); }
    UpdateAll(ctx, seed, key, first);
    var len := ctx.Finalize(result, key, first + Concat(seed));
  }

  lemma One(s: seq<byte>)
    ensures Concat([s]) == s
  {
    assert [s][1..] == [] && Concat([s]) == s + Concat<byte>([]);
  }

  /** dtls_p_hash: exactly the first `buflen` bytes of the stream, for the seed given in parts. */
  method PHashInto(H: Hash, key: seq<byte>, seed: seq<seq<byte>>, buf: array<byte>, at: nat, buflen: nat)
    returns (n: nat)
    requires at + buflen <= buf.Length
    modifies buf
    ensures n == buflen && buf[at..at + buflen] == PHash(H, key, Concat(seed), buflen)
    ensures buf[..at] == old(buf[..at]) && buf[at + buflen..] == old(buf[at + buflen..])
  {
    hide HmacOf, Concat, PHash, A;
    var hmacA := new Context(H);
    var hmacP := new Context(H);
    var digest, tmp := new byte[DIGEST_SIZE], new byte[DIGEST_SIZE];
    ghost var whole := Concat(seed);
    Chain(H, key, whole, 0);
    Keyed(hmacA, key, [], seed, digest);
    assert [] + whole == whole;
    var len := 0;
    ghost var i := 0;
    Nothing(H, key, whole);
    while len + DIGEST_SIZE < buflen
      invariant len == DIGEST_SIZE * i && len <= buflen
      invariant digest[..] == A(H, key, whole, i + 1)
      invariant buf[at..at + len] == PHash(H, key, whole, len)
      invariant buf[..at] == old(buf[..at]) && buf[at + buflen..] == old(buf[at + buflen..])
      decreases buflen - len
    {
      Keyed(hmacP, key, digest[..], seed, tmp);
      NextOutput(H, key, whole, i, DIGEST_SIZE);
      CopyOut(buf, at, len, tmp, DIGEST_SIZE, buflen);
      len := len + DIGEST_SIZE;
      Chain(H, key, whole, i + 1);
      Keyed(hmacA, key, digest[..], [], digest);
      assert digest[..] == A(H, key, whole, i + 2) by { NoParts(A(H, key, whole, i + 1)); }
      i := i + 1;
    }
    Keyed(hmacP, key, digest[..], seed, tmp);
    NextOutput(H, key, whole, i, buflen - len);
    CopyOut(buf, at, len, tmp, buflen - len, buflen);
    n := buflen;
  }

  lemma Chain(H: Hash, key: seq<byte>, seed: seq<byte>, i: nat)
    ensures A(H, key, seed, 0) == seed && A(H, key, seed, i + 1) == HmacOf(H, key, A(H, key, seed, i))
  {
    hide HmacOf;
  }

  lemma Nothing(H: Hash, key: seq<byte>, seed: seq<byte>)
    ensures PHash(H, key, seed, 0) == []
  {
  }

  lemma NoParts(s: seq<byte>)
    ensures s + Concat<byte>([]) == s
  {
  }

  /** memcpy(buf, tmp, n); buf += n */
  method CopyOut(buf: array<byte>, at: nat, len: nat, tmp: array<byte>, n: nat, buflen: nat)
    requires n <= tmp.Length && len + n <= buflen && at + buflen <= buf.Length && buf != tmp
    modifies buf
    ensures buf[..at] == old(buf[..at]) && buf[at + buflen..] == old(buf[at + buflen..])
    ensures buf[at..at + len + n] == old(buf[at..at + len]) + tmp[..n]
  {
    ghost var was := buf[..];
    Memcpy(buf, at + len, tmp[..n]);
    ghost var now := buf[..];
    assert now[..at + len] == was[..at + len] && now[at + len + n..] == was[at + len + n..];
    assert now[..at] == now[..at + len][..at] && was[..at] == was[..at + len][..at];
    assert now[at + buflen..] == now[at + len + n..][buflen - len - n..];
    assert was[at + buflen..] == was[at + len + n..][buflen - len - n..];
    assert now[at..at + len + n] == now[..at + len][at..] + now[at + len..at + len + n];
  }

  /** dtls_prf: without a key nothing is written. */
  method Prf(H: Hash, key: Option<seq<byte>>, seed: seq<seq<byte>>, buf: array<byte>, at: nat, buflen: nat)
    returns (n: nat)
    requires at + buflen <= buf.Length
    modifies buf
    ensures key.None? ==> n == 0 && buf[..] == old(buf[..])
    ensures key.Some? ==> n == buflen && buf[at..at + buflen] == PHash(H, key.value, Concat(seed), buflen)
    ensures buf[..at] == old(buf[..at]) && buf[at + buflen..] == old(buf[at + buflen..])
  {
    if key.None? {
      return 0;
    }
    Memcpy(buf, at, Fill(buflen, 0));
    n := PHashInto(H, key.value, seed, buf, at, buflen);
  }
}
