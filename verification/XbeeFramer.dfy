/**
 * The XBee API framer of the master: finding valid packets in a byte stream that
 * arrives in arbitrary pieces (c-master/casan/l2-154.cc, py-master/l2_154.py).
 */
module XbeeFramer {
  import opened Bytes
  import opened Wrappers

  const START: byte := 0x7e
  const TX_SHORT: byte := 0x01
  const MIN_FRAME_SIZE := 5
  const MAX_FRAME_SIZE := 115
  const BUFLEN := 1024

  // ---------------------------------------------------------------- specification

  function FrameLen(b: seq<byte>): nat
    requires |b| >= 3
  {
    Int16(b[1], b[2])
  }

  /** A complete packet: delimiter, length, frame data and a checksum that matches. */
  predicate ValidPacket(p: seq<byte>)
  {
    && |p| >= 4
    && p[0] == START
    && FrameLen(p) <= MAX_FRAME_SIZE
    && |p| == FrameLen(p) + 4
    && (Sum(p[3..|p| - 1]) + p[|p| - 1]) % 256 == 255
  }

  datatype Verdict = Incomplete | Reject | Accept

  /** The framer's decision on a buffer aligned on a delimiter. */
  function Examined(b: seq<byte>): Verdict
  {
    if |b| < MIN_FRAME_SIZE then Incomplete
    else if FrameLen(b) > MAX_FRAME_SIZE then Reject
    else if FrameLen(b) + 4 > |b| then Incomplete
    else if 255 - Sum(b[3..FrameLen(b) + 3]) % 256 != b[FrameLen(b) + 3] then Reject
    else Accept
  }

  /** The accepted buffers are exactly those that start with a valid packet. */
  lemma AcceptedIffValid(b: seq<byte>)
    requires |b| >= MIN_FRAME_SIZE && b[0] == START
    ensures Examined(b) == Accept <==> FrameLen(b) + 4 <= |b| && ValidPacket(b[..FrameLen(b) + 4])
  {
    hide Sum;
    if FrameLen(b) <= MAX_FRAME_SIZE && FrameLen(b) + 4 <= |b| {
      var n := FrameLen(b) + 4;
      assert b[..n][3..n - 1] == b[3..n - 1];
    }
  }

  datatype Scan = NeedMore(rest: seq<byte>) | Found(packet: seq<byte>, rest: seq<byte>)

  /** What one search of the buffer finds; bytes that cannot start a packet are dropped. */
  function NextPacket(b: seq<byte>): (r: Scan)
    decreases |b|
  {
    if b == [] then NeedMore([])
    else if b[0] != START then NextPacket(b[1..])
    else match Examined(b)
      case Incomplete => NeedMore(b)
      case Reject => NextPacket(b[1..])
      case Accept => Found(b[..FrameLen(b) + 4], b[FrameLen(b) + 4..])
  }

  lemma ExaminedBounds(b: seq<byte>)
    requires b != [] && b[0] == START
    ensures Examined(b) == Incomplete ==> |b| < MAX_FRAME_SIZE + 4
    ensures Examined(b) == Accept ==> FrameLen(b) + 4 <= |b| && ValidPacket(b[..FrameLen(b) + 4])
  {
    if |b| >= MIN_FRAME_SIZE { AcceptedIffValid(b); }
  }

  /** A packet is a contiguous piece of the stream, what is left is its suffix, and the
      left-over of an unfinished search is always shorter than one maximal packet. */
  lemma {:induction false} NextPacketSplits(b: seq<byte>)
    ensures |NextPacket(b).rest| <= |b|
    ensures var r := NextPacket(b); b[|b| - |r.rest|..] == r.rest
    ensures var r := NextPacket(b);
            r.Found? ==> (
              && |r.packet| + |r.rest| <= |b|
              && b[|b| - |r.rest| - |r.packet|..|b| - |r.rest|] == r.packet
              && ValidPacket(r.packet))
    ensures NextPacket(b).NeedMore? ==> |NextPacket(b).rest| < MAX_FRAME_SIZE + 4
    decreases |b|
  {
    hide Examined, ValidPacket;
    if b != [] {
      if b[0] == START && Examined(b) != Reject {
        ExaminedBounds(b);
      } else {
        NextPacketSplits(b[1..]);
      }
    }
  }

  /** All packets of a stream, in order, and the bytes left over. */
  datatype Parsed = Parsed(packets: seq<seq<byte>>, rest: seq<byte>)

  function Parse(b: seq<byte>): (r: Parsed)
    decreases |b|
  {
    NextPacketSplits(b);
    match NextPacket(b)
    case NeedMore(rest) => Parsed([], rest)
    case Found(p, rest) =>
      var r := Parse(rest);
      Parsed([p] + r.packets, r.rest)
  }

  lemma ParseStep(b: seq<byte>)
    ensures match NextPacket(b)
            case NeedMore(rest) => Parse(b) == Parsed([], rest) && |rest| < MAX_FRAME_SIZE + 4
            case Found(p, rest) =>
              && ValidPacket(p) && |rest| < |b|
              && Parse(b) == Parsed([p] + Parse(rest).packets, Parse(rest).rest)
  {
    NextPacketSplits(b);
  }

  // ---------------------------------------------------------------- independence of the chunking

  lemma ExaminedExtends(a: seq<byte>, c: seq<byte>)
    requires a != [] && a[0] == START && Examined(a) != Incomplete
    ensures Examined(a + c) == Examined(a) && FrameLen(a + c) == FrameLen(a)
    ensures Examined(a) == Accept ==> FrameLen(a) + 4 <= |a|
  {
    hide Sum;
    if FrameLen(a) + 4 <= |a| {
      assert (a + c)[3..FrameLen(a) + 3] == a[3..FrameLen(a) + 3];
    }
  }

  lemma {:induction false} NextPacketExtends(a: seq<byte>, c: seq<byte>)
    ensures match NextPacket(a)
            case NeedMore(rest) => NextPacket(a + c) == NextPacket(rest + c)
            case Found(p, rest) => NextPacket(a + c) == Found(p, rest + c)
    decreases |a|
  {
    if a == [] {
      assert a + c == c;
    } else {
      hide Examined;
      assert (a + c)[1..] == a[1..] + c;
      if a[0] == START && Examined(a) != Incomplete {
        ExaminedExtends(a, c);
      }
      if a[0] == START && Examined(a) == Accept {
        var n := FrameLen(a) + 4;
        assert (a + c)[..n] == a[..n];
        assert (a + c)[n..] == a[n..] + c;
      }
      NextPacketExtends(a[1..], c);
    }
  }

  /** Feeding `a` then `c` finds exactly what feeding `a + c` at once finds. */
  lemma {:induction false} ParseInChunks(a: seq<byte>, c: seq<byte>)
    ensures var first := Parse(a);
            var second := Parse(first.rest + c);
            Parse(a + c) == Parsed(first.packets + second.packets, second.rest)
    decreases |a|
  {
    NextPacketExtends(a, c);
    ParseStep(a);
    ParseStep(a + c);
    hide NextPacket, Parse, ValidPacket;
    match NextPacket(a)
    case NeedMore(rest) =>
      ParseDependsOnNext(a + c, rest + c);
      assert [] + Parse(rest + c).packets == Parse(rest + c).packets;
    case Found(p, rest) =>
      ParseInChunks(rest, c);
      var later := Parse(Parse(rest).rest + c).packets;
      assert [p] + (Parse(rest).packets + later) == [p] + Parse(rest).packets + later;
  }

  lemma ParseDependsOnNext(a: seq<byte>, b: seq<byte>)
    requires NextPacket(a) == NextPacket(b)
    ensures Parse(a) == Parse(b)
  {
  }

  /** What a run of reads leaves behind: the packets found so far and the unread bytes. */
  function FeedAll(chunks: seq<seq<byte>>, state: Parsed): Parsed
    decreases |chunks|
  {
    if chunks == [] then state
    else
      var r := Parse(state.rest + chunks[0]);
      FeedAll(chunks[1..], Parsed(state.packets + r.packets, r.rest))
  }

  lemma {:induction false} FeedAllFrom(chunks: seq<seq<byte>>, seen: seq<byte>)
    ensures FeedAll(chunks, Parse(seen)) == Parse(seen + Concat(chunks))
    decreases |chunks|
  {
    hide Parse;
    if chunks == [] {
      assert seen + [] == seen;
    } else {
      ParseInChunks(seen, chunks[0]);
      FeedAllFrom(chunks[1..], seen + chunks[0]);
      assert seen + chunks[0] + Concat(chunks[1..]) == seen + Concat(chunks);
    }
  }

  /** The frames found depend only on the concatenated stream, not on how reads cut it. */
  lemma {:induction false} ChunkingIsIrrelevant(one: seq<seq<byte>>, other: seq<seq<byte>>)
    requires Concat(one) == Concat(other)
    ensures FeedAll(one, Parsed([], [])) == FeedAll(other, Parsed([], []))
  {
    assert Parse([]) == Parsed([], []);
    assert [] + Concat(one) == [] + Concat(other);
    FeedAllFrom(one, []);
    FeedAllFrom(other, []);
  }

  // ---------------------------------------------------------------- soundness: disjoint, ordered, valid

  /** Where each packet of Parse(b) starts in the stream, `base` being the offset of b. */
  function Offsets(b: seq<byte>, base: nat): seq<nat>
    decreases |b|
  {
    NextPacketSplits(b);
    match NextPacket(b)
    case NeedMore(_) => []
    case Found(p, rest) =>
      [base + |b| - |rest| - |p|] + Offsets(rest, base + |b| - |rest|)
  }

  /** A valid packet, at this offset and within these bounds. */
  predicate PacketAt(stream: seq<byte>, at: nat, p: seq<byte>, lo: nat, hi: nat)
  {
    lo <= at && at + |p| <= hi <= |stream| && stream[at..at + |p|] == p && ValidPacket(p)
  }

  predicate InOrder(off: seq<nat>, packets: seq<seq<byte>>)
    requires |off| == |packets|
  {
    forall i, j :: 0 <= i < j < |off| ==> off[i] + |packets[i]| <= off[j]
  }

  /** `packets` are valid, disjoint pieces of stream[lo..hi], in order, at the given offsets. */
  ghost predicate Placed(stream: seq<byte>, off: seq<nat>, packets: seq<seq<byte>>, lo: nat, hi: nat)
  {
    && |off| == |packets| && InOrder(off, packets)
    && (forall i :: 0 <= i < |off| ==> PacketAt(stream, off[i], packets[i], lo, hi))
  }

  lemma OffsetsStep(b: seq<byte>, base: nat)
    ensures match NextPacket(b)
            case NeedMore(_) => Offsets(b, base) == []
            case Found(p, rest) =>
              && |p| + |rest| <= |b|
              && Offsets(b, base) == [base + |b| - |rest| - |p|] + Offsets(rest, base + |b| - |rest|)
  {
    NextPacketSplits(b);
  }

  lemma PlacedNone(stream: seq<byte>, lo: nat, hi: nat)
    ensures Placed(stream, [], [], lo, hi)
  {
  }

  lemma PlacedFirst(stream: seq<byte>, at: nat, p: seq<byte>, off: seq<nat>, packets: seq<seq<byte>>,
                    lo: nat, hi: nat)
    requires PacketAt(stream, at, p, lo, hi) && Placed(stream, off, packets, at + |p|, hi)
    ensures Placed(stream, [at] + off, [p] + packets, lo, hi)
  {
    var off', packets' := [at] + off, [p] + packets;
    forall i | 0 <= i < |off| ensures off[i] >= at + |p| && PacketAt(stream, off[i], packets[i], lo, hi) {
      assert PacketAt(stream, off[i], packets[i], at + |p|, hi);
    }
    FirstInOrder(at, p, off, packets);
    hide PacketAt, InOrder;
    forall i | 0 <= i < |off'| ensures PacketAt(stream, off'[i], packets'[i], lo, hi) {
      assert i > 0 ==> off'[i] == off[i - 1] && packets'[i] == packets[i - 1];
    }
  }

  lemma FirstInOrder(at: nat, p: seq<byte>, off: seq<nat>, packets: seq<seq<byte>>)
    requires |off| == |packets| && InOrder(off, packets) && forall i :: 0 <= i < |off| ==> off[i] >= at + |p|
    ensures InOrder([at] + off, [p] + packets)
  {
    var off', packets' := [at] + off, [p] + packets;
    forall i, j | 0 <= i < j < |off'| ensures off'[i] + |packets'[i]| <= off'[j] {
      assert off'[j] == off[j - 1];
      assert i > 0 ==> off'[i] == off[i - 1] && packets'[i] == packets[i - 1];
    }
  }

  lemma NextPacketAt(stream: seq<byte>, base: nat)
    requires base <= |stream|
    ensures var r := NextPacket(stream[base..]);
            && |r.rest| <= |stream| - base
            && r.rest == stream[|stream| - |r.rest|..]
            && (r.NeedMore? ==> |r.rest| < MAX_FRAME_SIZE + 4)
            && (r.Found? ==> |r.packet| + |r.rest| <= |stream| - base)
            && (r.Found? ==> ValidPacket(r.packet))
            && (r.Found? ==> stream[|stream| - |r.rest| - |r.packet|..|stream| - |r.rest|] == r.packet)
  {
    hide NextPacket, ValidPacket;
    var b := stream[base..];
    NextPacketSplits(b);
    var r := NextPacket(b);
    assert b[|b| - |r.rest|..] == stream[|stream| - |r.rest|..];
    if r.Found? {
      assert b[|b| - |r.rest| - |r.packet|..|b| - |r.rest|]
          == stream[|stream| - |r.rest| - |r.packet|..|stream| - |r.rest|];
    }
  }

  /** Soundness of the framer: valid packets, disjoint, in stream order, all before the
      left-over, which is a suffix of the stream shorter than one maximal packet. */
  lemma {:induction false} PacketsAreDisjointPieces(stream: seq<byte>, base: nat)
    requires base <= |stream|
    ensures var r := Parse(stream[base..]);
            && |r.rest| < MAX_FRAME_SIZE + 4
            && |r.rest| <= |stream| - base
            && r.rest == stream[|stream| - |r.rest|..]
            && Placed(stream, Offsets(stream[base..], base), r.packets, base, |stream| - |r.rest|)
    decreases |stream| - base
  {
    hide NextPacket, Parse, Offsets, Placed;
    NextPacketAt(stream, base);
    ParseStep(stream[base..]);
    OffsetsStep(stream[base..], base);
    var r := NextPacket(stream[base..]);
    if r.Found? {
      var next := |stream| - |r.rest|;
      PacketsAreDisjointPieces(stream, next);
      var later := Parse(r.rest);
      PlacedFirst(stream, next - |r.packet|, r.packet, Offsets(r.rest, next), later.packets,
                  base, |stream| - |later.rest|);
    } else {
      PlacedNone(stream, base, |stream| - |r.rest|);
    }
  }

  // ---------------------------------------------------------------- completeness: nothing valid is lost

  lemma {:induction false} JunkIsSkipped(junk: seq<byte>, b: seq<byte>)
    requires START !in junk
    ensures NextPacket(junk + b) == NextPacket(b)
  {
    if junk == [] {
      assert junk + b == b;
    } else {
      assert (junk + b)[0] == junk[0] && (junk + b)[1..] == junk[1..] + b;
      JunkIsSkipped(junk[1..], b);
    }
  }

  function Interleave(gaps: seq<seq<byte>>, packets: seq<seq<byte>>): seq<byte>
    requires |gaps| == |packets|
  {
    if gaps == [] then []
    else gaps[0] + packets[0] + Interleave(gaps[1..], packets[1..])
  }

  lemma ValidPacketIsNext(p: seq<byte>, later: seq<byte>)
    requires ValidPacket(p) && |p| >= MIN_FRAME_SIZE
    ensures NextPacket(p + later) == Found(p, later)
  {
    assert (p + later)[..|p|] == p && (p + later)[|p|..] == later;
    AcceptedIffValid(p + later);
  }

  /** Valid packets separated by noise without a delimiter are all found, in order. */
  lemma {:induction false} ParseInterleaved(gaps: seq<seq<byte>>, packets: seq<seq<byte>>, tail: seq<byte>)
    requires |gaps| == |packets|
    requires forall i :: 0 <= i < |gaps| ==> START !in gaps[i]
    requires forall i :: 0 <= i < |packets| ==> ValidPacket(packets[i]) && |packets[i]| >= MIN_FRAME_SIZE
    ensures Parse(Interleave(gaps, packets) + tail)
         == Parsed(packets + Parse(tail).packets, Parse(tail).rest)
  {
    hide Parse, NextPacket, ValidPacket;
    var all := Interleave(gaps, packets) + tail;
    if gaps == [] {
      assert all == tail;
    } else {
      var later := Interleave(gaps[1..], packets[1..]) + tail;
      var p := packets[0];
      assert all == gaps[0] + (p + later);
      JunkIsSkipped(gaps[0], p + later);
      ValidPacketIsNext(p, later);
      ParseStep(all);
      ParseInterleaved(gaps[1..], packets[1..], tail);
      assert packets == [p] + packets[1..];
    }
  }

  // ---------------------------------------------------------------- the sender's packet

  /** What encode_transmit writes: a TX request for a 16-bit address. */
  function TxFrame(addrHigh: byte, addrLow: byte, data: seq<byte>): seq<byte>
  {
    [TX_SHORT, 0x41, addrHigh, addrLow, 0] + data
  }

  function Packet(frame: seq<byte>): seq<byte>
  {
    [START, High(|frame|), Low(|frame|)] + frame + [255 - Sum(frame) % 256]
  }

  /** A packet to transmit, byte by byte: the checksum counts from the API byte on. */
  lemma PacketBytes(addrHigh: byte, addrLow: byte, a: byte, b: byte)
    ensures Packet(TxFrame(addrHigh, addrLow, [a, b]))
         == [0x7E, 0, 7, 0x01, 0x41, addrHigh, addrLow, 0, a, b,
             255 - (0x42 + addrHigh as int + addrLow as int + a as int + b as int) % 256]
  {
    var f := TxFrame(addrHigh, addrLow, [a, b]);
    SumOne([], 0x01, [0x01]);
    SumOne([0x01], 0x41, [0x01, 0x41]);
    SumOne([0x01, 0x41], addrHigh, [0x01, 0x41, addrHigh]);
    SumOne([0x01, 0x41, addrHigh], addrLow, [0x01, 0x41, addrHigh, addrLow]);
    SumOne([0x01, 0x41, addrHigh, addrLow], 0, [0x01, 0x41, addrHigh, addrLow, 0]);
    SumOne([0x01, 0x41, addrHigh, addrLow, 0], a, [0x01, 0x41, addrHigh, addrLow, 0, a]);
    SumOne([0x01, 0x41, addrHigh, addrLow, 0, a], b, f);
    hide Sum;
    assert Sum(f) == 0x42 + addrHigh as int + addrLow as int + a as int + b as int;
  }

  lemma SumOne(s: seq<byte>, b: byte, t: seq<byte>)
    requires t == s + [b]
    ensures Sum(t) == Sum(s) + b && Sum([]) == 0
  {
    assert t[..|s|] == s;
  }

  /** A start of at least 5 bytes waits for the packet it announces, unless that is longer than any. */
  lemma AnnouncedLength(b: seq<byte>)
    ensures |b| < 5 ==> Examined(b) == Incomplete
    ensures |b| >= 5 && b[1] as nat * 0x100 + b[2] as nat > 115 ==> Examined(b) == Reject
    ensures |b| >= 5 && b[1] as nat * 0x100 + b[2] as nat <= 115 ==>
              (Examined(b) == Incomplete <==> |b| < b[1] as nat * 0x100 + b[2] as nat + 4)
  {
    hide Sum;
  }

  lemma PacketIsValid(frame: seq<byte>)
    requires |frame| <= MAX_FRAME_SIZE
    ensures ValidPacket(Packet(frame))
  {
    hide Sum, Packet, High, Low, Int16;
    PacketParts(frame);
    LengthsAndSums(|frame|, Sum(frame));
    assert (Sum(frame) + (255 - Sum(frame) % 256)) % 256 == 255;
  }

  lemma PacketParts(frame: seq<byte>)
    ensures var p := Packet(frame);
            && |p| == |frame| + 4 && p[0] == START && p[1] == High(|frame|) && p[2] == Low(|frame|)
            && p[3..|p| - 1] == frame && p[|p| - 1] == 255 - Sum(frame) % 256
  {
    hide Sum;
  }

  lemma LengthsAndSums(n: nat, sum: nat)
    ensures n < 0x10000 ==> Int16(High(n), Low(n)) == n
    ensures (sum + (255 - sum % 256)) % 256 == 255
  {
  }

  lemma BytesOf(h: byte, l: byte, sum: nat, c: byte)
    ensures High(Int16(h, l)) == h && Low(Int16(h, l)) == l
    ensures (sum + c) % 256 == 255 ==> c == 255 - sum % 256
  {
  }

  lemma ValidParts(p: seq<byte>)
    requires ValidPacket(p)
    ensures |p| >= 4 && |p| == Int16(p[1], p[2]) + 4 && p[0] == START
    ensures (Sum(p[3..|p| - 1]) + p[|p| - 1]) % 256 == 255
  {
  }

  /** A valid packet is determined by its frame data, so the framer inverts the encoder. */
  lemma ValidPacketIsPacket(p: seq<byte>)
    requires ValidPacket(p)
    ensures p == Packet(p[3..|p| - 1])
  {
    hide Sum, Packet, High, Low, Int16;
    ValidParts(p);
    hide ValidPacket;
    var frame := p[3..|p| - 1];
    PacketParts(frame);
    BytesOf(p[1], p[2], Sum(frame), p[|p| - 1]);
    SameParts(p, Packet(frame));
  }

  lemma SameParts(p: seq<byte>, q: seq<byte>)
    requires |p| == |q| >= 4 && p[0] == q[0] && p[1] == q[1] && p[2] == q[2]
    requires p[3..|p| - 1] == q[3..|q| - 1] && p[|p| - 1] == q[|q| - 1]
    ensures p == q
  {
    assert forall i :: 3 <= i < |p| - 1 ==> p[i] == p[3..|p| - 1][i - 3] && q[i] == q[3..|q| - 1][i - 3];
  }

  /** Whatever is encoded and sent, between noise without delimiters, is received unchanged. */
  lemma EncodedFramesAreReceived(gaps: seq<seq<byte>>, frames: seq<seq<byte>>, tail: seq<byte>)
    requires |gaps| == |frames|
    requires forall i :: 0 <= i < |gaps| ==> START !in gaps[i]
    requires forall i :: 0 <= i < |frames| ==> 1 <= |frames[i]| <= MAX_FRAME_SIZE
    ensures var sent := seq(|frames|, i requires 0 <= i < |frames| => Packet(frames[i]));
            var got := Parse(Interleave(gaps, sent) + tail).packets;
            && |got| >= |frames|
            && forall i :: 0 <= i < |frames| ==> |got[i]| >= 4 && got[i][3..|got[i]| - 1] == frames[i]
  {
    hide Parse, Interleave;
    var sent := seq(|frames|, i requires 0 <= i < |frames| => Packet(frames[i]));
    forall i | 0 <= i < |frames| ensures ValidPacket(sent[i]) && sent[i][3..|sent[i]| - 1] == frames[i] {
      PacketIsValid(frames[i]);
    }
    ParseInterleaved(gaps, sent, tail);
  }

  lemma TxFrameParts(lead: seq<byte>, addrHigh: byte, addrLow: byte, data: seq<byte>)
    ensures |TxFrame(addrHigh, addrLow, data)| == 5 + |data|
    ensures [] + lead + [TX_SHORT, 0x41, addrHigh, addrLow, 0] + data == lead + TxFrame(addrHigh, addrLow, data)
  {
  }

  lemma LeadThenFrame(buf: seq<byte>, lead: seq<byte>, frame: seq<byte>)
    requires |lead| == 3 && |buf| >= 3 + |frame| && buf[..3 + |frame|] == lead + frame
    ensures buf[1] == lead[1] && buf[2] == lead[2] && buf[3..3 + |frame|] == frame
  {
    assert buf[1] == (lead + frame)[1] && buf[2] == (lead + frame)[2];
    assert buf[3..3 + |frame|] == (lead + frame)[3..];
  }

  /** encode_transmit: header, frame data and checksum, byte by byte into `cmd`. */
  method EncodeTransmit(cmd: array<byte>, addrHigh: byte, addrLow: byte, data: seq<byte>)
    returns (cmdlen: nat)
    requires 5 + |data| < 0x10000 && 9 + |data| <= cmd.Length
    modifies cmd
    ensures cmdlen == 9 + |data| && cmd[..cmdlen] == Packet(TxFrame(addrHigh, addrLow, data))
  {
    hide Sum, TxFrame;
    cmdlen := 9 + |data|;
    WriteTx(cmd, addrHigh, addrLow, data);
    ghost var lead, frame := [START, High(5 + |data|), Low(5 + |data|)], TxFrame(addrHigh, addrLow, data);
    TxFrameParts(lead, addrHigh, addrLow, data);
    LeadThenFrame(cmd[..], lead, frame);
    LengthsAndSums(5 + |data|, 0);
    hide High, Low, Int16;
    assert cmd[..][..8 + |data|] == cmd[..8 + |data|];
    assert cmd[..][3..3 + |frame|] == cmd[3..3 + |frame|];
    var c := ComputeChecksum(cmd);
    cmd[8 + |data|] := c;
    assert cmd[..cmdlen] == cmd[..8 + |data|] + [c];
  }

  method WriteTx(cmd: array<byte>, addrHigh: byte, addrLow: byte, data: seq<byte>)
    requires 5 + |data| < 0x10000 && 9 + |data| <= cmd.Length
    modifies cmd
    ensures cmd[..8 + |data|] == [START, High(5 + |data|), Low(5 + |data|)] + TxFrame(addrHigh, addrLow, data)
  {
    ghost var lead := [START, High(5 + |data|), Low(5 + |data|)];
    Memcpy(cmd, 0, [START, High(5 + |data|), Low(5 + |data|)]);
    Memcpy(cmd, 3, [TX_SHORT, 0x41, addrHigh, addrLow, 0]);
    Memcpy(cmd, 8, data);
    TxFrameParts(lead, addrHigh, addrLow, data);
  }

  // ---------------------------------------------------------------- the master's framer, in place

  /** The checksum loop, over the packet at the start of the buffer. */
  method ComputeChecksum(buffer: array<byte>) returns (c: int)
    requires 3 <= buffer.Length && FrameLen(buffer[..]) + 4 <= buffer.Length
    ensures c == 255 - Sum(buffer[3..FrameLen(buffer[..]) + 3]) % 256
  {
    hide Sum, Int16;
    NoSum(buffer[3..3]);
    c := 0;
    var paylen := Int16(buffer[1], buffer[2]) + 4;
    var i := 3;
    while i < paylen - 1
      invariant 3 <= i <= paylen - 1
      invariant c == Sum(buffer[3..i]) % 256
    {
      SumMore(buffer[..], i);
      assert buffer[..][3..i] == buffer[3..i] && buffer[..][3..i + 1] == buffer[3..i + 1];
      c := (c + buffer[i]) % 256;
      i := i + 1;
    }
    c := 255 - c;
  }

  lemma NoSum(b: seq<byte>)
    requires b == []
    ensures Sum(b) == 0
  {
  }

  lemma SumMore(b: seq<byte>, i: nat)
    requires 3 <= i < |b|
    ensures Sum(b[3..i + 1]) % 256 == (Sum(b[3..i]) % 256 + b[i]) % 256
  {
    assert b[3..i + 1][..i - 3] == b[3..i];
  }

  lemma ScanAligned(b: seq<byte>)
    requires b != [] && b[0] == START
    ensures match Examined(b)
            case Incomplete => NextPacket(b) == NeedMore(b)
            case Reject => NextPacket(b) == NextPacket(b[1..])
            case Accept =>
              && FrameLen(b) + 4 <= |b| && ValidPacket(b[..FrameLen(b) + 4])
              && NextPacket(b) == Found(b[..FrameLen(b) + 4], b[FrameLen(b) + 4..])
              && b == NextPacket(b).packet + NextPacket(b).rest
  {
    hide ValidPacket, Examined;
    ExaminedBounds(b);
  }

  lemma NothingPending()
    ensures NextPacket([]) == NeedMore([])
  {
  }

  /** The serial device: each read returns some non-empty prefix of what is pending. */
  class Serial {
    var pending: seq<seq<byte>>

    /** Up to `max` bytes of the next burst; an empty result is end of input or an error. */
    method Read(max: nat) returns (data: seq<byte>)
      requires max > 0
      modifies this
      ensures |data| <= max
      ensures data == [] <==> old(Concat(pending)) == []
      ensures old(Concat(pending)) == data + Concat(pending)
    {
      while pending != [] && pending[0] == []
        invariant Concat(pending) == old(Concat(pending))
        decreases |pending|
      {
        pending := pending[1..];
      }
      if pending == [] {
        data := [];
      } else {
        var n := if |pending[0]| < max then |pending[0]| else max;
        data := pending[0][..n];
        assert pending[0] == data + pending[0][n..];
        ghost var tail := Concat(pending[1..]);
        assert data + (pending[0][n..] + tail) == pending[0] + tail;
        pending := [pending[0][n..]] + pending[1..];
      }
    }
  }

  // ---------------------------------------------------------------- the frames in the packets

  const TX_STATUS := 0x89
  const RX_SHORT := 0x81
  const L2154MTU := 127

  /** Broken: the copy of the data of an RX_SHORT frame would have a negative length. */
  datatype Frame = TxStatus(id: byte, status: byte)
                 | RxShort(addr: nat, rssi: byte, options: byte, data: seq<byte>)
                 | Other(kind: byte)
                 | Broken

  /** The packet has all fields of its kind of frame. */
  predicate Complete(p: seq<byte>)
  {
    |p| >= 4 && (p[3] == TX_STATUS ==> |p| >= 7) && (p[3] == RX_SHORT ==> |p| >= 9)
  }

  function FrameOf(p: seq<byte>): Frame
    requires Complete(p)
  {
    if p[3] == TX_STATUS then TxStatus(p[4], p[5])
    else if p[3] == RX_SHORT then RxShort(Int16(p[4], p[5]), p[6], p[7], p[8..|p| - 1])
    else Other(p[3])
  }

  predicate Reads(f: Frame, p: seq<byte>)
  {
    (Complete(p) ==> f == FrameOf(p)) && (f.Broken? <==> |p| >= 4 && p[3] == RX_SHORT && |p| < 9)
  }

  predicate FramesOf(frames: seq<Frame>, packets: seq<seq<byte>>)
  {
    |frames| == |packets| && forall i :: 0 <= i < |frames| ==> Reads(frames[i], packets[i])
  }

  /** The fields of the frames in the list, by their places in the packets. */
  lemma FrameFields(frames: seq<Frame>, packets: seq<seq<byte>>, i: nat)
    requires FramesOf(frames, packets) && i < |packets| && |packets[i]| >= 4
    ensures i < |frames| == |packets|
    ensures var f, p := frames[i], packets[i];
            if p[3] == 0x81 then
              if |p| < 9 then f == Broken
              else f == RxShort(p[4] as nat * 0x100 + p[5] as nat, p[6], p[7], p[8..|p| - 1])
            else if p[3] == 0x89 then |p| >= 7 ==> f == TxStatus(p[4], p[5])
            else f == Other(p[3])
  {
    assert Reads(frames[i], packets[i]);
  }

  lemma FramesMore(frames: seq<Frame>, packets: seq<seq<byte>>, f: Frame, p: seq<byte>)
    requires FramesOf(frames, packets) && Reads(f, p)
    ensures FramesOf(frames + [f], packets + [p])
  {
    hide Reads;
  }

  lemma ReadsFrame(p: seq<byte>, buffer: array<byte>, f: Frame)
    requires 4 <= |p| <= buffer.Length && buffer.Length >= 9 && p == buffer[..|p|]
    requires f == if buffer[3] == TX_STATUS then TxStatus(buffer[4], buffer[5])
                  else if buffer[3] == RX_SHORT then
                    if |p| < 9 then Broken
                    else RxShort(Int16(buffer[4], buffer[5]), buffer[6], buffer[7], buffer[8..|p| - 1])
                  else Other(buffer[3])
    ensures Reads(f, p)
  {
    if |p| >= 9 { assert p[8..|p| - 1] == buffer[8..|p| - 1]; }
  }

  /** Among valid packets the copy of the data of an RX_SHORT frame stays within its array, and has no
      negative length, exactly for frames of at least 5 bytes. */
  lemma CopyFitsIff(p: seq<byte>)
    requires ValidPacket(p)
    ensures 0 <= FrameLen(p) - 5 <= L2154MTU <==> FrameLen(p) >= 5
  {
  }

  /** What the radio reports as received from a 16-bit address. */
  function RxFrame(addr: nat, rssi: byte, options: byte, data: seq<byte>): seq<byte>
  {
    [RX_SHORT, High(addr), Low(addr), rssi, options] + data
  }

  lemma RxRoundTrip(addr: nat, rssi: byte, options: byte, data: seq<byte>)
    requires addr < 0x10000 && |data| + 5 <= MAX_FRAME_SIZE
    ensures var p := Packet(RxFrame(addr, rssi, options, data));
            ValidPacket(p) && Complete(p) && FrameOf(p) == RxShort(addr, rssi, options, data)
  {
    hide Sum, Packet, ValidPacket;
    var f := RxFrame(addr, rssi, options, data);
    PacketIsValid(f);
    PacketParts(f);
    var p := Packet(f);
    assert forall i :: 0 <= i < |f| ==> p[i + 3] == p[3..|p| - 1][i] == f[i];
    assert p[8..|p| - 1] == f[5..] == data;
    LengthsAndSums(addr, 0);
  }

  class Framer {
    const buffer: array<byte>
    var plen: nat                    // pbuffer_ - buffer_
    var framelist: seq<Frame>
    ghost var packets: seq<seq<byte>>
    ghost var received: seq<byte>    // every byte read so far

    ghost function Content(): seq<byte>
      requires plen <= buffer.Length
      reads this, buffer
    {
      buffer[..plen]
    }

    /** After any run of reads, packets and buffer are exactly the parse of all bytes received, and the
        list holds the frames of the packets. */
    ghost predicate Valid()
      reads this, buffer
    {
      && buffer.Length == BUFLEN
      && plen <= buffer.Length
      && Parse(received) == Parsed(packets, Content()) && FramesOf(framelist, packets)
      && plen < MAX_FRAME_SIZE + 4
    }

    /** At any time the list holds the frames of exactly the packets in what was received, and the
        buffer what may be the start of another one. */
    lemma Heard()
      requires Valid()
      ensures FramesOf(framelist, Parse(received).packets) && buffer[..plen] == Parse(received).rest && plen < 119
    {
    }

    constructor ()
      ensures Valid() && fresh(buffer) && received == [] && framelist == []
    {
      buffer := new byte[BUFLEN];
      plen, framelist, packets, received := 0, [], [], [];
      new;
      assert Content() == [];
    }

    /** Shift `n` bytes found at `from` to the start of the buffer. */
    method MoveDown(from: nat, n: nat)
      requires from + n <= buffer.Length
      modifies buffer
      ensures buffer[..n] == old(buffer[from..from + n])
    {
      var k := 0;
      while k < n
        invariant 0 <= k <= n
        invariant buffer[..k] == old(buffer[from..from + k])
        invariant forall m :: from + k <= m < buffer.Length ==> buffer[m] == old(buffer[m])
      {
        buffer[k] := buffer[from + k];
        k := k + 1;
      }
    }

    method FindStart(start: nat) returns (i: nat)
      requires start <= plen <= buffer.Length
      ensures start + i <= plen
      ensures start + i < plen ==> buffer[start + i] == START
      ensures START !in buffer[start..start + i]
    {
      i := 0;
      while i < plen - start && buffer[start + i] != START
        invariant start + i <= plen
        invariant START !in buffer[start..start + i]
      {
        i := i + 1;
      }
    }

    /** Drop the bytes before the next delimiter and align it on the start of the buffer. */
    method AlignOnDelimiter(start: nat)
      requires start <= plen <= buffer.Length
      modifies `plen, buffer
      ensures plen <= old(plen) - start
      ensures plen > 0 ==> buffer[0] == START
      ensures NextPacket(Content()) == NextPacket(old(buffer[start..plen]))
    {
      var i := FindStart(start);
      hide NextPacket;
      StartsAt(start, i);
      ghost var b := buffer[start + i..plen];
      assert b != [] ==> b[0] == START;
      Drop(start + i);
      assert Content() == b;
      assert plen > 0 ==> buffer[0] == Content()[0];
    }

    lemma StartsAt(start: nat, i: nat)
      requires start + i <= plen <= buffer.Length && START !in buffer[start..start + i]
      ensures NextPacket(buffer[start + i..plen]) == NextPacket(buffer[start..plen])
    {
      hide NextPacket;
      assert buffer[start..plen] == buffer[start..start + i] + buffer[start + i..plen];
      JunkIsSkipped(buffer[start..start + i], buffer[start + i..plen]);
    }

    /** Drop the first `n` bytes. */
    method Drop(n: nat)
      requires n <= plen <= buffer.Length
      modifies `plen, buffer
      ensures plen == old(plen) - n && Content() == old(buffer[n..plen])
    {
      var buflen := plen - n;
      if buflen != 0 && n != 0 {
        MoveDown(n, buflen);
      }
      plen := buflen;
    }

    /** Examine the packet that may start at an aligned delimiter. */
    method Examine() returns (verdict: Verdict)
      requires 0 < plen <= buffer.Length && buffer[0] == START
      ensures verdict == Examined(Content())
    {
      hide Sum;
      if plen < MIN_FRAME_SIZE {
        return Incomplete;
      }
      var framelen := Int16(buffer[1], buffer[2]);
      if framelen > MAX_FRAME_SIZE {
        return Reject;
      }
      var pktlen := framelen + 4;
      if pktlen > plen {
        return Incomplete;
      }
      var cksum := ComputeChecksum(buffer);
      assert Content()[3..pktlen - 1] == buffer[3..pktlen - 1];
      return if cksum != buffer[pktlen - 1] then Reject else Accept;
    }

    /** The resynchronisation loop: align the buffer on the next valid packet, if any. */
    method IsFrameComplete() returns (complete: bool)
      requires plen <= buffer.Length
      modifies `plen, buffer
      ensures plen <= buffer.Length
      ensures match NextPacket(old(Content()))
              case NeedMore(rest) => !complete && Content() == rest
              case Found(p, rest) => complete && Content() == p + rest
    {
      hide NextPacket;
      ghost var goal := NextPacket(Content());
      var start := 0;
      while true
        invariant start <= plen <= buffer.Length
        invariant NextPacket(buffer[start..plen]) == goal
        decreases plen - start
      {
        AlignOnDelimiter(start);
        if plen == 0 {
          NothingPending();
          assert Content() == [];
          return false;
        }
        var verdict := Examine();
        ScanAligned(Content());
        match verdict {
          case Incomplete => return false;
          case Accept => return true;
          case Reject => start := 1;
        }
        assert buffer[1..plen] == Content()[1..];
      }
    }

    /** Move the packet at the start of the buffer to the list of frames. */
    method ExtractFrameToList(ghost p: seq<byte>, ghost rest: seq<byte>)
      requires plen <= buffer.Length && Content() == p + rest && ValidPacket(p)
      requires buffer.Length == BUFLEN && FramesOf(framelist, packets)
      modifies `plen, `framelist, `packets, buffer
      ensures plen <= buffer.Length && Content() == rest
      ensures packets == old(packets) + [p]
      ensures FramesOf(framelist, packets) && old(framelist) <= framelist
    {
      ValidParts(p);
      hide FramesOf, Reads, ValidPacket, Sum;
      var framelen := Int16(buffer[1], buffer[2]);
      var pktlen := framelen + 4;
      assert FrameLen(Content()) == FrameLen(p);
      assert Content()[..pktlen] == p && Content()[pktlen..] == rest;
      assert buffer[..pktlen] == Content()[..pktlen] && buffer[pktlen..plen] == Content()[pktlen..];
      var f;
      if buffer[3] == TX_STATUS {
        f := TxStatus(buffer[4], buffer[5]);
      } else if buffer[3] == RX_SHORT {
        // the source copies framelen - 5 bytes
        f := if framelen < 5 then Broken
             else RxShort(Int16(buffer[4], buffer[5]), buffer[6], buffer[7], buffer[8..8 + (framelen - 5)]);
      } else {
        f := Other(buffer[3]);
      }
      ReadsFrame(buffer[..pktlen], buffer, f);
      FramesMore(framelist, packets, f, buffer[..pktlen]);
      framelist := framelist + [f];
      packets := packets + [buffer[..pktlen]];
      plen := plen - pktlen;
      if plen > 0 {
        MoveDown(pktlen, plen);
      }
    }

    /** Extract every packet the buffer holds. */
    method ExtractAll() returns (found: bool)
      requires plen <= buffer.Length == BUFLEN && FramesOf(framelist, packets)
      modifies `plen, `framelist, `packets, buffer
      ensures plen <= buffer.Length && plen < MAX_FRAME_SIZE + 4
      ensures var r := Parse(old(Content()));
              packets == old(packets) + r.packets && Content() == r.rest && (found <==> r.packets != [])
      ensures FramesOf(framelist, packets) && old(framelist) <= framelist
    {
      hide NextPacket, ValidPacket, Parse, FramesOf;
      ghost var goal := Parse(Content());
      ghost var done: seq<seq<byte>> := [];
      found := false;
      while true
        invariant plen <= buffer.Length
        invariant packets == old(packets) + done && (found <==> done != [])
        invariant FramesOf(framelist, packets) && old(framelist) <= framelist
        invariant goal == Parsed(done + Parse(Content()).packets, Parse(Content()).rest)
        decreases plen
      {
        ParseStep(Content());
        ghost var next := NextPacket(Content());
        var complete := IsFrameComplete();
        if !complete {
          return found;
        }
        ExtractFrameToList(next.packet, next.rest);
        assert done + ([next.packet] + Parse(Content()).packets) == done + [next.packet] + Parse(Content()).packets;
        done, found := done + [next.packet], true;
      }
    }

    method Append(data: seq<byte>)
      requires plen + |data| <= buffer.Length
      modifies buffer, `plen
      ensures plen <= buffer.Length && Content() == old(Content()) + data
    {
      var k := 0;
      while k < |data|
        invariant 0 <= k <= |data| && plen == old(plen)
        invariant buffer[..plen] == old(buffer[..plen])
        invariant buffer[plen..plen + k] == data[..k]
      {
        buffer[plen + k] := data[k];
        k := k + 1;
      }
      assert data[..|data|] == data;
      assert buffer[..plen + |data|] == buffer[..plen] + buffer[plen..plen + |data|];
      plen := plen + |data|;
    }

    /** Read until at least one packet is complete; `n` is the last read's byte count.
        The object invariant says what the list and the buffer then are: the parse of
        everything received, whatever sizes the reads had. */
    method ReadCompleteFrame(dev: Serial) returns (n: int)
      requires Valid()
      modifies this, buffer, dev
      ensures Valid()
      ensures exists got ::
                && received == old(received) + got
                && old(Concat(dev.pending)) == got + Concat(dev.pending)
      ensures old(packets) <= packets && old(framelist) <= framelist
      ensures |framelist| > |old(framelist)| <==> n > 0
      ensures n <= 0 ==> Concat(dev.pending) == []
    {
      hide Parse, Concat;
      var found := false;
      n := 1;
      ghost var got: seq<byte> := [];
      assert received == old(received) + got && old(Concat(dev.pending)) == got + Concat(dev.pending);
      while !found
        invariant Valid() && n > 0
        invariant received == old(received) + got
        invariant old(Concat(dev.pending)) == got + Concat(dev.pending)
        invariant old(packets) <= packets && old(framelist) <= framelist
        invariant found <==> |framelist| > |old(framelist)|
        decreases |Concat(dev.pending)|, if found then 0 else 1
      {
        var data := dev.Read(BUFLEN - plen);
        if data == [] {
          n := 0;
          break;
        }
        n := |data|;
        ParseInChunks(received, data);
        Append(data);
        received, got := received + data, got + data;
        found := ExtractAll();
      }
    }
  }

  // ---------------------------------------------------------------- the Python master's framer

  class PyFramer {
    var buffer: seq<byte>

    static method PyChecksum(buf: seq<byte>) returns (c: int)
      requires 3 <= |buf| && FrameLen(buf) + 4 <= |buf|
      ensures c == 255 - Sum(buf[3..FrameLen(buf) + 3]) % 256
    {
      hide Sum, Int16;
      NoSum(buf[3..3]);
      var paylen := Int16(buf[1], buf[2]) + 4;
      c := 0;
      for i := 3 to paylen - 1
        invariant c == Sum(buf[3..i]) % 256
      {
        SumMore(buf, i);
        c := (c + buf[i]) % 256;
      }
      c := 255 - c;
    }

    static method Index(b: seq<byte>) returns (at: nat)
      requires START in b
      ensures at < |b| && b[at] == START && START !in b[..at]
    {
      at := 0;
      while b[at] != START
        invariant at < |b| && START !in b[..at]
        invariant START in b[at..]
        decreases |b| - at
      {
        at := at + 1;
      }
    }

    /** The checks of get_frame on the packet that may start at a delimiter. */
    static method PyExamine(buf: seq<byte>) returns (verdict: Verdict)
      requires buf != [] && buf[0] == START
      ensures verdict == Examined(buf)
    {
      hide Sum;
      if |buf| < MIN_FRAME_SIZE {
        return Incomplete;
      }
      var framelen := Int16(buf[1], buf[2]);
      if framelen > MAX_FRAME_SIZE {
        return Reject;
      }
      var pktlen := framelen + 4;
      if pktlen > |buf| {
        return Incomplete;
      }
      var cksum := PyChecksum(buf);
      return if cksum != buf[pktlen - 1] then Reject else Accept;
    }

    /** get_frame: the same search on an immutable buffer. It returns the frame data only,
        and keeps bytes that contain no delimiter instead of dropping them. */
    method GetFrame() returns (frame: Option<seq<byte>>)
      modifies this
      ensures match NextPacket(old(buffer))
              case NeedMore(rest) => frame == None && (buffer == rest || (rest == [] && START !in buffer))
              case Found(p, rest) => ValidPacket(p) && frame == Some(p[3..|p| - 1]) && buffer == rest
    {
      hide NextPacket, Sum;
      while START in buffer
        invariant NextPacket(buffer) == NextPacket(old(buffer))
        decreases |buffer|
      {
        var at := Index(buffer);
        JunkIsSkipped(buffer[..at], buffer[at..]);
        assert buffer == buffer[..at] + buffer[at..];
        buffer := buffer[at..];
        ScanAligned(buffer);
        var verdict := PyExamine(buffer);
        if verdict.Incomplete? {
          return None;
        }
        if verdict.Reject? {
          buffer := buffer[1..];
          continue;
        }
        var framelen := Int16(buffer[1], buffer[2]);
        var pktlen := framelen + 4;
        assert buffer[3..3 + framelen] == buffer[..pktlen][3..pktlen - 1];
        frame := Some(buffer[3..3 + framelen]);
        buffer := buffer[pktlen..];
        return;
      }
      NothingPending();
      JunkIsSkipped(buffer, []);
      assert buffer + [] == buffer;
      return None;
    }
  }
}
