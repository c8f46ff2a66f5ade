/**
 * The DTLS record layer (arduino/libraries/Dtls-s/dtls.c): records protected with AES-CCM, and
 * the compression of application records, whose explicit nonce is not sent but rebuilt from the
 * record header.
 */
module DtlsRecord {
  import opened Bytes
  import opened Numeric
  import opened Wrappers
  import opened Ccm

  const VERSION := 0xFEFD
  const RH_LENGTH := 13
  const PKT_SIZE_MAX := 128
  const APPLICATION_DATA := 23
  const ALERT_INTERNAL_ERROR := -592

  datatype Role = Client | Server

  function Other(r: Role): Role { if r.Client? then Server else Client }

  /** AES with a key. */
  type Aes = seq<byte> -> Cipher

  type KeyBlock = s: seq<byte> | |s| == 40 witness seq(40, i => 0)

  /** One set of security parameters. `id` stands for the address it was allocated at. */
  datatype Security = Security(id: nat, encrypts: bool, epoch: nat, rseq: nat, keyBlock: KeyBlock)

  // ---------------------------------------------------------------- the key block

  function WriteKey(kb: KeyBlock, writer: Role): seq<byte>
  {
    if writer.Client? then kb[..16] else kb[16..32]
  }

  function Iv(kb: KeyBlock, writer: Role): (iv: seq<byte>)
    ensures |iv| == 4
  {
    if writer.Client? then kb[32..36] else kb[36..]
  }

  /** Section 6.3 of RFC 5246: client key, server key, client IV, server IV. */
  lemma KeyBlockLayout(kb: KeyBlock)
    ensures WriteKey(kb, Client) + WriteKey(kb, Server) + Iv(kb, Client) + Iv(kb, Server) == kb
    ensures |WriteKey(kb, Client)| == |WriteKey(kb, Server)| == 16
  {
  }

  // ---------------------------------------------------------------- records

  function Header(kind: byte, epoch: nat, seqno: nat, length: nat): (h: seq<byte>)
    ensures |h| == RH_LENGTH
  {
    [kind] + Field(VERSION, 2) + Field(epoch, 2) + Field(seqno, 6) + Field(length, 2)
  }

  /** seq_num + type + version + length, section 6.2.3.3 of RFC 5246; the header's own length
      field is not used. */
  function AdditionalData(header: seq<byte>, length: nat): seq<byte>
    requires |header| >= 11
  {
    header[3..11] + header[..3] + Field(length, 2)
  }

  function Fragment(aes: Aes, writer: Role, kb: KeyBlock, header: seq<byte>,
                    explicit: seq<byte>, data: seq<byte>): (f: seq<byte>)
    requires |header| >= 11 && |explicit| == 8
    ensures |f| == 8 + |data| + 8
  {
    explicit + Encrypt(aes(WriteKey(kb, writer)), 8, 3, Iv(kb, writer) + explicit, AdditionalData(header, |data|), data)
  }

  function Numbers(epoch: nat, seqno: nat): (b: seq<byte>)
    ensures |b| == 8
  {
    Field(epoch, 2) + Field(seqno, 6)
  }

  /** The fragment before compression. */
  function Body(aes: Aes, role: Role, s: Security, kind: byte, data: seq<byte>): seq<byte>
  {
    if !s.encrypts then data
    else Fragment(aes, role, s.keyBlock, Header(kind, s.epoch, s.rseq, 0), Numbers(s.epoch, s.rseq), data)
  }

  /** The record on the wire: application records are sent without the first 8 fragment bytes. */
  function Record(aes: Aes, role: Role, s: Security, kind: byte, data: seq<byte>): seq<byte>
    requires kind == APPLICATION_DATA ==> s.encrypts || |data| >= 8
  {
    var body := Body(aes, role, s, kind, data);
    var sent := if kind == APPLICATION_DATA then body[8..] else body;
    Header(kind, s.epoch, s.rseq, |sent|) + sent
  }

  /** The fragment with the explicit nonce of an application record put back. */
  function Restored(packet: seq<byte>): (body: seq<byte>)
    requires |packet| >= RH_LENGTH
    ensures |body| == |packet| - RH_LENGTH + if packet[0] == APPLICATION_DATA then 8 else 0
  {
    if packet[0] == APPLICATION_DATA then packet[3..11] + packet[13..] else packet[13..]
  }

  function Open(aes: Aes, role: Role, s: Security, packet: seq<byte>): Option<seq<byte>>
    requires |packet| >= RH_LENGTH
  {
    var body := Restored(packet);
    if !s.encrypts then Some(body)
    else if |body| < 16 then None
    else Decrypt(aes(WriteKey(s.keyBlock, Other(role))), 8, 3, Iv(s.keyBlock, Other(role)) + body[..8],
                 AdditionalData(packet, |body| - 16), body[8..])
  }

  // ---------------------------------------------------------------- properties

  /** Under a cipher a record opens to some data exactly when its fragment is what the other
      side makes of these data under this header. */
  lemma OpensExactlySealed(aes: Aes, role: Role, s: Security, packet: seq<byte>, data: seq<byte>)
    requires |packet| >= RH_LENGTH && s.encrypts
    ensures Open(aes, role, s, packet) == Some(data)
       <==> (|Restored(packet)| == |data| + 16
             && Restored(packet) == Fragment(aes, Other(role), s.keyBlock, packet, Restored(packet)[..8], data))
  {
    hide Encrypt, Decrypt, AdditionalData, Iv, WriteKey, Restored;
    var body := Restored(packet);
    if |body| >= 16 {
      var E, nonce := aes(WriteKey(s.keyBlock, Other(role))), Iv(s.keyBlock, Other(role)) + body[..8];
      var aad := AdditionalData(packet, |body| - 16);
      DecryptsExactlyEncryptions(E, 8, 3, nonce, aad, data, body[8..]);
      assert body == body[..8] + body[8..];
      if |body| == |data| + 16 {
        var f := Fragment(aes, Other(role), s.keyBlock, packet, body[..8], data);
        assert f[8..] == Encrypt(E, 8, 3, nonce, aad, data) && f[..8] == body[..8];
      }
    }
  }

  lemma HeaderFields(kind: byte, epoch: nat, seqno: nat, length: nat, rest: seq<byte>)
    ensures var p := Header(kind, epoch, seqno, length) + rest;
            && p[0] == kind && p[3..11] == Numbers(epoch, seqno) && p[13..] == rest
            && forall n :: AdditionalData(p, n) == AdditionalData(Header(kind, epoch, seqno, 0), n)
  {
    var h, h0 := Header(kind, epoch, seqno, length), Header(kind, epoch, seqno, 0);
    var p := h + rest;
    hide Field;
    assert h[..11] == [kind] + Field(VERSION, 2) + Field(epoch, 2) + Field(seqno, 6) == h0[..11];
    assert p[..3] == h[..11][..3] && p[3..11] == h[..11][3..];
    assert h0[..3] == h0[..11][..3] && h0[3..11] == h0[..11][3..];
    assert h[..11][3..] == Numbers(epoch, seqno);
  }

  /** What the tag of a record covers, section 6.2.3.3 of RFC 5246: number, type, version and length. */
  lemma AdditionalDataFields(kind: byte, epoch: nat, seqno: nat, length: nat, rest: seq<byte>, n: nat)
    requires epoch < 0x1_0000 && seqno < 0x1_0000_0000_0000 && n < 0x1_0000
    ensures var a := AdditionalData(Header(kind, epoch, seqno, length) + rest, n);
            && |a| == 13 && BigEndian(a[..2]) == epoch && BigEndian(a[2..8]) == seqno
            && a[8] == kind && BigEndian(a[9..11]) == 0xFEFD && BigEndian(a[11..]) == n
  {
    HeaderFields(kind, epoch, seqno, length, rest);
    Powers();
    assert Power256(6) == 0x1_0000_0000_0000 by { assert Power256(5) == 0x100_0000_0000; }
    NumberOfField(epoch, 2);
    NumberOfField(seqno, 6);
    NumberOfField(VERSION, 2);
    NumberOfField(n, 2);
    hide Field;
    var p := Header(kind, epoch, seqno, length) + rest;
    var a := AdditionalData(p, n);
    assert p[..3] == [kind] + Field(VERSION, 2);
    assert a == Field(epoch, 2) + Field(seqno, 6) + [kind] + Field(VERSION, 2) + Field(n, 2);
    assert a[..2] == Field(epoch, 2) && a[2..8] == Field(seqno, 6);
    assert a[9..11] == Field(VERSION, 2) && a[11..] == Field(n, 2);
  }

  /** It determines the first 11 bytes of any packet, and the length. */
  lemma AdditionalDataIsInjective(p: seq<byte>, q: seq<byte>, n: nat, m: nat)
    requires |p| >= 11 && |q| >= 11 && n < 0x1_0000 && m < 0x1_0000
    ensures AdditionalData(p, n) == AdditionalData(q, m) <==> p[..11] == q[..11] && n == m
  {
    Powers();
    if AdditionalData(p, n) == AdditionalData(q, m) {
      SameParts(p[3..11], p[..3], Field(n, 2), q[3..11], q[..3], Field(m, 2));
      FieldInjective(n, m, 2);
      assert p[..11] == p[..3] + p[3..11] && q[..11] == q[..3] + q[3..11];
    }
    if p[..11] == q[..11] {
      assert p[3..11] == p[..11][3..] && p[..3] == p[..11][..3] && q[3..11] == q[..11][3..] && q[..3] == q[..11][..3];
    }
  }

  /** Two records whose tags are computed from the same bytes are the same in type, version, epoch,
      number and data; so a record relabelled on its way is checked against another input. */
  lemma TagBindsRecord(p: seq<byte>, q: seq<byte>, nonce: seq<byte>, nonce': seq<byte>,
                       data: seq<byte>, data': seq<byte>)
    requires |p| >= 11 && |q| >= 11 && |nonce| == |nonce'| == 12 && |data| < 0x1_0000 && |data'| < 0x1_0000
    requires MacInput(8, 3, nonce, AdditionalData(p, |data|), data)
          == MacInput(8, 3, nonce', AdditionalData(q, |data'|), data')
    ensures p[..11] == q[..11] && nonce == nonce' && data == data'
  {
    Powers();
    AdditionalDataSize(p, |data|);
    AdditionalDataSize(q, |data'|);
    MacInputIsInjective(8, 3, nonce, AdditionalData(p, |data|), data, nonce', AdditionalData(q, |data'|), data');
    hide AdditionalData, MacInput;
    AdditionalDataIsInjective(p, q, |data|, |data'|);
  }

  /** The bytes of one header: a handshake record of epoch 1 with number 2 and 48 bytes to come. */
  lemma HeaderBytes()
    ensures Header(22, 1, 2, 48) == [22, 0xFE, 0xFD, 0, 1, 0, 0, 0, 0, 0, 2, 0, 48]
  {
    TwoByteField(VERSION);
    TwoByteField(1);
    TwoByteField(48);
    TwoByteField(0);
    FourByteField(2);
    assert Field(2, 6) == [0, 0, 0, 0, 0, 2] by { assert Field(2, 6) == Field(0, 5) + [2]; ZeroField(5); }
    hide Field;
  }

  /** What the two roles send: each encrypts under its own key and IV, with the nonce in front unless
      it is application data. */
  lemma RecordLayout(aes: Aes, s: Security, kind: byte, data: seq<byte>)
    requires s.encrypts
    ensures var n := Numbers(s.epoch, s.rseq);
            var aad := AdditionalData(Header(kind, s.epoch, s.rseq, 0), |data|);
            var nonce := if kind == 23 then [] else n;
            && Record(aes, Client, s, kind, data)[13..]
            == nonce + Encrypt(aes(s.keyBlock[..16]), 8, 3, s.keyBlock[32..36] + n, aad, data)
            && Record(aes, Server, s, kind, data)[13..]
            == nonce + Encrypt(aes(s.keyBlock[16..32]), 8, 3, s.keyBlock[36..] + n, aad, data)
  {
    hide Encrypt, Field;
  }

  /** What the receiver gets: the data, except for application data sent without a cipher, whose
      first 8 bytes arrive as the epoch and sequence number of the record. */
  lemma RoundTrip(aes: Aes, role: Role, s: Security, r: Security, kind: byte, data: seq<byte>)
    requires kind == APPLICATION_DATA ==> s.encrypts || |data| >= 8
    requires r.keyBlock == s.keyBlock && r.encrypts == s.encrypts
    ensures Open(aes, Other(role), r, Record(aes, role, s, kind, data))
         == Some(if kind == APPLICATION_DATA && !s.encrypts then Numbers(s.epoch, s.rseq) + data[8..] else data)
  {
    hide Header, Field, Encrypt, Decrypt, AdditionalData, Iv, WriteKey, Numbers;
    var body := Body(aes, role, s, kind, data);
    var sent := if kind == APPLICATION_DATA then body[8..] else body;
    var packet := Record(aes, role, s, kind, data);
    HeaderFields(kind, s.epoch, s.rseq, |sent|, sent);
    if s.encrypts {
      var h0, explicit := Header(kind, s.epoch, s.rseq, 0), Numbers(s.epoch, s.rseq);
      assert body[..8] == explicit;
      assert Restored(packet) == body by {
        if kind == APPLICATION_DATA { assert body == explicit + body[8..]; }
      }
      assert Other(Other(role)) == role;
      assert AdditionalData(packet, |data|) == AdditionalData(h0, |data|);
      assert Fragment(aes, role, s.keyBlock, packet, explicit, data) == body;
      OpensExactlySealed(aes, Other(role), r, packet, data);
    }
  }

  /** The data survive exactly when there is a cipher or they are not application data, or when
      they happen to begin with the numbers of the record. */
  lemma RoundTripIff(aes: Aes, role: Role, s: Security, r: Security, kind: byte, data: seq<byte>)
    requires kind == APPLICATION_DATA ==> s.encrypts || |data| >= 8
    requires r.keyBlock == s.keyBlock && r.encrypts == s.encrypts
    ensures Open(aes, Other(role), r, Record(aes, role, s, kind, data)) == Some(data)
       <==> (kind != APPLICATION_DATA || s.encrypts || data[..8] == Numbers(s.epoch, s.rseq))
  {
    hide Open, Record, Numbers;
    RoundTrip(aes, role, s, r, kind, data);
    if kind == APPLICATION_DATA && !s.encrypts {
      assert data == data[..8] + data[8..];
      assert (Numbers(s.epoch, s.rseq) + data[8..])[..8] == Numbers(s.epoch, s.rseq);
    }
  }

  /** What either of client and server seals the other one opens. */
  lemma BothDirections(aes: Aes, s: Security, r: Security, kind: byte, data: seq<byte>)
    requires r.keyBlock == s.keyBlock && r.encrypts && s.encrypts
    ensures Open(aes, Server, r, Record(aes, Client, s, kind, data)) == Some(data)
    ensures Open(aes, Client, r, Record(aes, Server, s, kind, data)) == Some(data)
  {
    hide Open, Record;
    RoundTripIff(aes, Client, s, r, kind, data);
    RoundTripIff(aes, Server, s, r, kind, data);
  }

  /** The receiver's temporary buffer holds the fragment of an application record, with its nonce put
      back, exactly up to this many bytes of data. */
  lemma ReceiverHasRoomIff(aes: Aes, role: Role, s: Security, data: seq<byte>)
    requires s.encrypts
    ensures |Restored(Record(aes, role, s, 23, data))| <= 128 <==> |data| <= 112
  {
    hide Field, Encrypt;
  }

  /** Records with different numbers never share a cipher input of the key stream. */
  lemma KeystreamNeverRepeats(iv: seq<byte>, e: nat, n: nat, e': nat, n': nat, i: nat, j: nat)
    requires |iv| == 4 && (e, n) != (e', n')
    requires e < 0x1_0000 && e' < 0x1_0000 && n < 0x1_0000_0000_0000 && n' < 0x1_0000_0000_0000
    ensures CounterBlock(3, iv + Numbers(e, n), i) != CounterBlock(3, iv + Numbers(e', n'), j)
  {
    hide Field;
    var a, b := iv + Numbers(e, n), iv + Numbers(e', n');
    if CounterBlock(3, a, i) == CounterBlock(3, b, j) {
      SameParts([2], a, Field(i, 3), [2], b, Field(j, 3));
      assert iv + Field(e, 2) + Field(n, 6) == a && iv + Field(e', 2) + Field(n', 6) == b;
      SameParts(iv, Field(e, 2), Field(n, 6), iv, Field(e', 2), Field(n', 6));
      Powers();
      assert Power256(6) == 0x1_0000_0000_0000 by { assert Power256(5) == 0x100_0000_0000; }
      FieldInjective(e, e', 2);
      FieldInjective(n, n', 6);
      assert false;
    }
  }

  // ---------------------------------------------------------------- the operations

  /** The pieces copied one after the other behind `start`; the size of the buffer is checked
      before each one. */
  method CopyPieces(pieces: seq<seq<byte>>, sendbuf: array<byte>, rlen: nat, start: nat) returns (ok: bool, res: nat)
    requires start <= sendbuf.Length && rlen <= sendbuf.Length
    modifies sendbuf
    ensures sendbuf[..start] == old(sendbuf[..start])
    ensures ok <==> pieces == [] || start + |Concat(pieces)| <= rlen
    ensures ok ==> (res == |Concat(pieces)| && start + res <= sendbuf.Length
                    && sendbuf[start..start + res] == Concat(pieces))
  {
    hide Concat;
    res := 0;
    AllCopied(pieces);
    for i := 0 to |pieces|
      invariant start + res <= sendbuf.Length && (i > 0 ==> start + res <= rlen)
      invariant sendbuf[..start] == old(sendbuf[..start])
      invariant res == |Concat(pieces[..i])| && sendbuf[start..start + res] == Concat(pieces[..i])
    {
      MorePieces(pieces, i);
      if rlen < start + res + |pieces[i]| {
        return false, res;
      }
      Memcpy(sendbuf, start + res, pieces[i]);
      assert sendbuf[start..start + res + |pieces[i]|] == sendbuf[start..start + res] + pieces[i] by {
        var b := sendbuf[..start + res + |pieces[i]|];
        assert b == old(sendbuf[..start]) + Concat(pieces[..i]) + pieces[i];
      }
      res := res + |pieces[i]|;
    }
    ok := true;
  }

  lemma {:induction false} MorePieces(pieces: seq<seq<byte>>, i: nat)
    requires i < |pieces|
    ensures Concat(pieces[..i + 1]) == Concat(pieces[..i]) + pieces[i]
    ensures |Concat(pieces[..i + 1])| <= |Concat(pieces)|
  {
    var one := [pieces[i]];
    assert pieces[..i + 1] == pieces[..i] + one && pieces == pieces[..i + 1] + pieces[i + 1..];
    ConcatAppend(pieces[..i], one);
    ConcatAppend(pieces[..i + 1], pieces[i + 1..]);
    assert one[1..] == [];
    assert Concat(one) == pieces[i] + [];
  }

  lemma AllCopied(pieces: seq<seq<byte>>)
    ensures Concat(pieces[..0]) == [] && pieces[..|pieces|] == pieces && (pieces == [] ==> Concat(pieces) == [])
  {
    assert pieces[..0] == [];
  }

  /** dtls_set_record_header; without security parameters all numbers are zero. */
  method SetRecordHeader(kind: byte, security: Option<Security>, buf: array<byte>) returns (after: Option<Security>)
    requires buf.Length >= RH_LENGTH
    modifies buf
    ensures buf[..RH_LENGTH]
         == (if security.Some? then Header(kind, security.value.epoch, security.value.rseq, 0)
             else Header(kind, 0, 0, 0))
    ensures after == if security.Some? then Some(security.value.(rseq := security.value.rseq + 1)) else None
  {
    ghost var u := Used(security);
    HeaderStart(kind, u.epoch, u.rseq, 0);
    hide Field, Header;
    buf[0] := kind;
    assert buf[..1] == [kind];
    Memcpy(buf, 1, Field(VERSION, 2));
    if security.Some? {
      WriteNumbers(buf, security.value.epoch, security.value.rseq);
      after := Some(security.value.(rseq := security.value.rseq + 1));
    } else {
      WriteNumbers(buf, 0, 0);
      after := None;
    }
    Memcpy(buf, 11, Field(0, 2));
  }

  method WriteNumbers(buf: array<byte>, epoch: nat, seqno: nat)
    requires buf.Length >= RH_LENGTH
    modifies buf
    ensures buf[..11] == old(buf[..3]) + Field(epoch, 2) + Field(seqno, 6)
  {
    hide Field;
    Memcpy(buf, 3, Field(epoch, 2));
    Memcpy(buf, 5, Field(seqno, 6));
  }

  const NO_SECURITY := Security(0, false, 0, 0, Zeros(40))

  function Used(security: Option<Security>): Security
  {
    if security.Some? then security.value else NO_SECURITY
  }

  /** Where the data start in the send buffer. */
  function Start(security: Option<Security>): nat
  {
    if Used(security).encrypts then RH_LENGTH + 8 else RH_LENGTH
  }

  /** What passes that check leaves room for the whole record, with its tag, except for data within
      8 bytes of the limit. */
  lemma CheckLeavesRoomIff(aes: Aes, role: Role, s: Security, kind: byte, data: seq<byte>, rlen: nat)
    requires s.encrypts
    ensures (Start(Some(s)) + |data| <= rlen ==> RH_LENGTH + |Body(aes, role, s, kind, data)| <= rlen)
       <==> !(rlen - 29 < |data| <= rlen - 21)
  {
  }

  /** dtls_prepare_record. The check of the buffer size does not count the tag, so the buffer must
      have room for it. The sequence number is used up even when the check then fails. */
  method PrepareRecord(aes: Aes, role: Role, security: Option<Security>, kind: byte, pieces: seq<seq<byte>>,
                       sendbuf: array<byte>, rlen: nat)
    returns (res: int, sent: nat, after: Option<Security>)
    requires RH_LENGTH <= sendbuf.Length && rlen <= sendbuf.Length
    requires Used(security).encrypts ==> Start(security) + |Concat(pieces)| + 8 <= sendbuf.Length
    requires kind == APPLICATION_DATA ==> Used(security).encrypts || |Concat(pieces)| >= 8
    modifies sendbuf
    ensures res == 0 || res == ALERT_INTERNAL_ERROR
    ensures res == 0 <==> rlen >= RH_LENGTH && (pieces == [] || Start(security) + |Concat(pieces)| <= rlen)
    ensures res == 0 ==> (sent <= sendbuf.Length
                          && sendbuf[..sent] == Record(aes, role, Used(security), kind, Concat(pieces)))
    ensures after == if rlen >= RH_LENGTH && security.Some? then Some(security.value.(rseq := security.value.rseq + 1))
                     else security
  {
    hide Concat, Header, Fragment;
    res, sent, after := ALERT_INTERNAL_ERROR, rlen, security;
    if rlen < RH_LENGTH {
      return;
    }
    after := SetRecordHeader(kind, security, sendbuf);
    var s := Used(security);
    var ok, length;
    ghost var h0 := Header(kind, s.epoch, s.rseq, 0);
    if !s.encrypts {
      ok, length := CopyPieces(pieces, sendbuf, rlen, RH_LENGTH);
    } else {
      HeaderFields(kind, s.epoch, s.rseq, 0, []);
      assert h0 + [] == h0;
      ok, length := Seal(aes, role, s, pieces, sendbuf, rlen, h0);
    }
    if ok {
      sent := Finish(kind, s, sendbuf, length, h0, Body(aes, role, s, kind, Concat(pieces)));
      res := 0;
    }
  }

  /** The branch with a cipher: explicit nonce, data, then encryption in place. */
  method Seal(aes: Aes, role: Role, s: Security, pieces: seq<seq<byte>>, sendbuf: array<byte>,
              rlen: nat, ghost h: seq<byte>)
    returns (ok: bool, length: nat)
    requires rlen <= sendbuf.Length && RH_LENGTH + 8 + |Concat(pieces)| + 8 <= sendbuf.Length
    requires |h| == RH_LENGTH && sendbuf[..RH_LENGTH] == h && h[3..11] == Numbers(s.epoch, s.rseq)
    modifies sendbuf
    ensures ok <==> pieces == [] || RH_LENGTH + 8 + |Concat(pieces)| <= rlen
    ensures sendbuf[..RH_LENGTH] == h
    ensures ok ==> (length == |Concat(pieces)| + 16 && RH_LENGTH + length <= sendbuf.Length
                    && sendbuf[RH_LENGTH..RH_LENGTH + length]
                    == Fragment(aes, role, s.keyBlock, h, Numbers(s.epoch, s.rseq), Concat(pieces)))
  {
    hide Concat, Numbers, Encrypt, Iv, WriteKey, AdditionalData;
    ghost var explicit := Numbers(s.epoch, s.rseq);
    var numbers := sendbuf[3..11];
    assert numbers == sendbuf[..RH_LENGTH][3..11] == explicit;
    Memcpy(sendbuf, RH_LENGTH, numbers);
    assert sendbuf[..RH_LENGTH + 8] == h + explicit;
    ok, length := CopyPieces(pieces, sendbuf, rlen, RH_LENGTH + 8);
    var front := sendbuf[..RH_LENGTH + 8];
    assert front == h + explicit && front[..RH_LENGTH] == h && front[RH_LENGTH..] == explicit;
    assert sendbuf[..RH_LENGTH] == front[..RH_LENGTH];
    if ok {
      var nonce := Iv(s.keyBlock, role) + numbers + Zeros(4);
      assert nonce[..12] == Iv(s.keyBlock, role) + explicit;
      var aad := AdditionalData(sendbuf[..RH_LENGTH], length);
      AdditionalDataSize(h, length);
      length := EncryptMessage(aes(WriteKey(s.keyBlock, role)), 8, 3, nonce, sendbuf, RH_LENGTH + 8, length, aad);
      length := length + 8;
      ghost var now := sendbuf[..];
      assert now[..RH_LENGTH + 8] == front;
      assert now[RH_LENGTH..RH_LENGTH + length]
          == now[..RH_LENGTH + 8][RH_LENGTH..] + now[RH_LENGTH + 8..RH_LENGTH + length];
      assert now[..RH_LENGTH] == now[..RH_LENGTH + 8][..RH_LENGTH];
    }
  }

  lemma AdditionalDataSize(h: seq<byte>, length: nat)
    requires |h| >= 11
    ensures |AdditionalData(h, length)| == 13
  {
  }

  /** The length field, and for application records the removal of the explicit nonce. */
  method Finish(kind: byte, s: Security, sendbuf: array<byte>, length: nat, ghost h: seq<byte>, ghost body: seq<byte>)
    returns (sent: nat)
    requires RH_LENGTH + length <= sendbuf.Length && sendbuf[..RH_LENGTH] == h == Header(kind, s.epoch, s.rseq, 0)
    requires |body| == length && sendbuf[RH_LENGTH..RH_LENGTH + length] == body
    requires kind == APPLICATION_DATA ==> length >= 8
    modifies sendbuf
    ensures sent <= sendbuf.Length
    ensures var rest := if kind == APPLICATION_DATA then body[8..] else body;
            sendbuf[..sent] == Header(kind, s.epoch, s.rseq, |rest|) + rest
  {
    hide Field, Header;
    StartOfTail(sendbuf, RH_LENGTH, length);
    SetLength(kind, s, sendbuf, length, 0);
    sent := RH_LENGTH + length;
    StartOfTail(sendbuf, RH_LENGTH, length);
    if kind == APPLICATION_DATA {
      SetLength(kind, s, sendbuf, length - 8, length);
      StartOfTail(sendbuf, RH_LENGTH, length);
      SubSlice(sendbuf, RH_LENGTH, sent, 8, length);
      sent := RH_LENGTH + length - 8;
      Swap(8, sent, sendbuf, RH_LENGTH);
    }
    assert sendbuf[..sent] == sendbuf[..RH_LENGTH] + sendbuf[RH_LENGTH..sent];
  }

  lemma StartOfTail(buf: array<byte>, at: nat, n: nat)
    requires at + n <= buf.Length
    ensures buf[at..at + n] == buf[at..][..n]
  {
  }

  method SetLength(kind: byte, s: Security, sendbuf: array<byte>, length: nat, ghost was: nat)
    requires RH_LENGTH <= sendbuf.Length && sendbuf[..RH_LENGTH] == Header(kind, s.epoch, s.rseq, was)
    modifies sendbuf
    ensures sendbuf[..RH_LENGTH] == Header(kind, s.epoch, s.rseq, length)
    ensures sendbuf[RH_LENGTH..] == old(sendbuf[RH_LENGTH..])
  {
    HeaderStart(kind, s.epoch, s.rseq, was);
    HeaderStart(kind, s.epoch, s.rseq, length);
    hide Field, Header;
    assert sendbuf[..11] == sendbuf[..RH_LENGTH][..11];
    Memcpy(sendbuf, 11, Field(length, 2));
  }

  lemma HeaderStart(kind: byte, epoch: nat, seqno: nat, length: nat)
    ensures var front := [kind] + Field(VERSION, 2) + Field(epoch, 2) + Field(seqno, 6);
            && Header(kind, epoch, seqno, length)[..11] == front
            && Header(kind, epoch, seqno, length) == front + Field(length, 2)
  {
    hide Field;
  }

  /** swap: the packet moves down by nb bytes. */
  method Swap(nb: nat, len: nat, buf: array<byte>, at: nat)
    requires at <= len && len + nb <= buf.Length
    modifies buf
    ensures buf[..at] == old(buf[..at]) && buf[at..len] == old(buf[at + nb..len + nb])
  {
    ghost var was := buf[..];
    assert was[..at] == buf[..at] && was[at + nb..len + nb] == buf[at + nb..len + nb];
    for i := 0 to len - at
      invariant forall k :: 0 <= k < at ==> buf[k] == was[k]
      invariant forall k {:trigger buf[k]} :: at <= k < at + i ==> buf[k] == was[k + nb]
      invariant forall k :: at + i <= k < buf.Length ==> buf[k] == was[k]
    {
      buf[at + i] := buf[at + i + nb];
    }
    Moved(buf, was, at, len, nb);
  }

  lemma Moved(buf: array<byte>, was: seq<byte>, at: nat, len: nat, nb: nat)
    requires at <= len && len + nb <= buf.Length == |was|
    requires forall k :: 0 <= k < at ==> buf[k] == was[k]
    requires forall k {:trigger buf[k]} :: at <= k < len ==> buf[k] == was[k + nb]
    ensures buf[..at] == was[..at] && buf[at..len] == was[at + nb..len + nb]
  {
    forall k | 0 <= k < len - at ensures buf[at..len][k] == was[at + nb..len + nb][k] {
      assert buf[at + k] == was[at + k + nb];
    }
  }

  /** decrypt_verify of a packet whose epoch selected these security parameters. The 8 bytes put
      back into an application record must fit the buffer and PKT_SIZE_MAX. */
  method DecryptVerify(aes: Aes, role: Role, security: Option<Security>, packet: array<byte>, length: nat)
    returns (clen: int, cleartext: nat)
    requires RH_LENGTH <= length <= packet.Length
    requires packet[0] == APPLICATION_DATA ==> length - RH_LENGTH + 8 <= PKT_SIZE_MAX && length + 8 <= packet.Length
    modifies packet
    ensures security.None? ==> clen == -1
    ensures security.Some? ==>
              match Open(aes, role, security.value, old(packet[..length]))
              case Some(data) => (clen == |data| && cleartext + |data| <= packet.Length
                                  && packet[cleartext..cleartext + |data|] == data)
              case None => clen == -1
  {
    hide Decrypt, Iv, WriteKey, AdditionalData, Restored;
    cleartext, clen := RH_LENGTH, length - RH_LENGTH;
    if security.None? {
      return -1, cleartext;
    }
    ghost var was := packet[..length];
    ghost var body := Restored(was);
    var s := security.value;
    clen := PutBack(packet, length);
    var header := packet[..11];
    assert header == was[..11] by { assert packet[..RH_LENGTH][..11] == was[..RH_LENGTH][..11]; }
    if s.encrypts {
      if clen < 16 {
        return -1, cleartext;
      }
      var explicit := packet[cleartext..cleartext + 8];
      assert explicit == body[..8] && body[8..] == packet[cleartext + 8..cleartext + clen];
      var nonce := Iv(s.keyBlock, Other(role)) + explicit + Zeros(4);
      assert nonce[..12] == Iv(s.keyBlock, Other(role)) + body[..8];
      cleartext, clen := cleartext + 8, clen - 8;
      var aad := AdditionalData(header, clen - 8);
      AdditionalDataSize(header, clen - 8);
      SameAdditionalData(header, was, clen - 8);
      clen := DecryptMessage(aes(WriteKey(s.keyBlock, Other(role))), 8, 3, nonce, packet, cleartext, clen, aad);
    }
  }

  lemma SameAdditionalData(a: seq<byte>, b: seq<byte>, n: nat)
    requires |a| == 11 <= |b| && a == b[..11]
    ensures AdditionalData(a, n) == AdditionalData(b, n)
  {
    assert a[..3] == b[..3] && a[3..11] == b[3..11];
  }

  method PutBack(packet: array<byte>, length: nat) returns (clen: nat)
    requires RH_LENGTH <= length <= packet.Length
    requires packet[0] == APPLICATION_DATA ==> length - RH_LENGTH + 8 <= PKT_SIZE_MAX && length + 8 <= packet.Length
    modifies packet
    ensures RH_LENGTH + clen <= packet.Length && packet[..RH_LENGTH] == old(packet[..RH_LENGTH])
    ensures packet[RH_LENGTH..RH_LENGTH + clen] == Restored(old(packet[..length]))
  {
    clen := length - RH_LENGTH;
    ghost var was := packet[..length];
    assert packet[RH_LENGTH..RH_LENGTH + clen] == was[RH_LENGTH..];
    if packet[0] == APPLICATION_DATA {
      var tmpbuf := new byte[PKT_SIZE_MAX];
      Memcpy(tmpbuf, 0, packet[3..11]);
      Memcpy(tmpbuf, 8, packet[RH_LENGTH..RH_LENGTH + clen]);
      clen := clen + 8;
      assert tmpbuf[..clen] == was[3..11] + was[RH_LENGTH..];
      Memcpy(packet, RH_LENGTH, tmpbuf[..clen]);
    }
  }
}
