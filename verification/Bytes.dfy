/** Bytes as the source's `std::uint8_t`, and the 16-bit packing of byte.h. */
module Bytes {

  type byte = x: int | 0 <= x < 256

  function High(n: int): (r: byte) { n / 256 % 256 }

  function Low(n: int): (r: byte) { n % 256 }

  function Int16(h: byte, l: byte): (r: nat) { h * 256 + l }

  function Sum(s: seq<byte>): nat
  {
    if s == [] then 0 else Sum(s[..|s| - 1]) + s[|s| - 1]
  }

  function Concat<T>(ss: seq<seq<T>>): seq<T>
  {
    if ss == [] then [] else ss[0] + Concat(ss[1..])
  }

  lemma {:induction false} ConcatAppend<T>(ss: seq<seq<T>>, tail: seq<seq<T>>)
    ensures Concat(ss + tail) == Concat(ss) + Concat(tail)
  {
    if ss == [] {
      assert ss + tail == tail;
    } else {
      assert (ss + tail)[1..] == ss[1..] + tail;
      ConcatAppend(ss[1..], tail);
    }
  }

  lemma SubSlice<T>(buf: array<T>, a: nat, b: nat, c: nat, d: nat)
    requires a <= b <= buf.Length && c <= d <= b - a
    ensures buf[a..b][c..d] == buf[a + c..a + d]
  {
    var inner, outer := buf[a..b][c..d], buf[a + c..a + d];
    assert forall k :: 0 <= k < d - c ==> inner[k] == buf[a..b][c + k] == buf[a + c + k] == outer[k];
  }

  lemma Rebuild<T>(buf: array<T>, front: seq<T>, rest: seq<T>)
    requires |front| <= buf.Length && buf[..|front|] == front && buf[|front|..] == rest
    ensures buf[..] == front + rest
  {
    assert buf[..] == buf[..|front|] + buf[|front|..];
  }

  lemma TailOfTail<T>(buf: array<T>, a: nat, n: nat)
    requires a + n <= buf.Length
    ensures buf[a..][n..] == buf[a + n..]
  {
  }

  /** memcpy into the middle of a buffer. */
  method Memcpy<T>(dst: array<T>, at: nat, src: seq<T>)
    requires at + |src| <= dst.Length
    modifies dst
    ensures dst[..at] == old(dst[..at])
    ensures dst[at..at + |src|] == src
    ensures dst[..at + |src|] == old(dst[..at]) + src
    ensures dst[at + |src|..] == old(dst[at + |src|..])
  {
    forall k | 0 <= k < |src| { dst[at + k] := src[k]; }
    assert dst[..at + |src|] == dst[..at] + dst[at..at + |src|];
  }
}
