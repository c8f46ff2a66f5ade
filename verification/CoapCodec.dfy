/**
 * The CoAP codec of the master (c-master/casan/msg.cc), sections 3 and 3.1 of RFC 7252:
 * delta-encoded options, a two-pass encoder and a loop decoder.
 */
module CoapCodec {
  import opened Bytes
  import opened CoapMessage

  const VERSION := 1
  const MARKER: byte := 0xff
  const MAX_TOKEN := 8          // size of token_

  // ---------------------------------------------------------------- wire format

  /** The header nibble and the extension bytes of an option delta or length. */
  function Nibble(x: nat): (r: nat)
    ensures r <= 14
  {
    if x >= 269 then 14 else if x >= 13 then 13 else x
  }

  function Extension(x: nat): seq<byte>
  {
    if x >= 269 then [High(x - 269), Low(x - 269)] else if x >= 13 then [Low(x - 13)] else []
  }

  function ExtensionSize(nibble: nat): nat
  {
    if nibble == 14 then 2 else if nibble == 13 then 1 else 0
  }

  const MAX_EXTENDED := 65535 + 269

  function OptionHeader(delta: nat, len: nat): byte
  {
    16 * Nibble(delta) + Nibble(len)
  }

  /** Option numbers never go down from `prev` on. */
  predicate SortedFrom(prev: nat, opts: seq<CoapOption>)
    decreases |opts|
  {
    opts == [] || (prev <= opts[0].code && SortedFrom(opts[0].code, opts[1..]))
  }

  /** Every delta and every length is one the format can express. */
  predicate Fits(prev: nat, opts: seq<CoapOption>)
    requires SortedFrom(prev, opts)
    decreases |opts|
  {
    opts == [] ||
    (&& opts[0].code - prev <= MAX_EXTENDED
     && |opts[0].val| <= MAX_EXTENDED
     && Fits(opts[0].code, opts[1..]))
  }

  function EncodeOption(delta: nat, val: seq<byte>): seq<byte>
  {
    [OptionHeader(delta, |val|)] + Extension(delta) + Extension(|val|) + val
  }

  function EncodeOptions(prev: nat, opts: seq<CoapOption>): seq<byte>
    requires SortedFrom(prev, opts)
    decreases |opts|
  {
    if opts == [] then []
    else EncodeOption(opts[0].code - prev, opts[0].val) + EncodeOptions(opts[0].code, opts[1..])
  }

  function EncodePayload(payload: seq<byte>): seq<byte>
  {
    if payload == [] then [] else [MARKER] + payload
  }

  /** FORMAT_BYTE0: the token length is masked with 0x7. */
  function Byte0(kind: Kind, toklen: nat): byte
  {
    64 * VERSION + 16 * kind + toklen % 8
  }

  function Header(m: Message): seq<byte>
  {
    [Byte0(m.kind, |m.token|), m.code, High(m.id), Low(m.id)]
  }

  lemma {:induction false} SortedIsSortedFrom(prev: nat, opts: seq<CoapOption>)
    requires Sorted(opts) && (opts != [] ==> prev <= opts[0].code)
    ensures SortedFrom(prev, opts)
    decreases |opts|
  {
    if opts != [] { SortedIsSortedFrom(opts[0].code, opts[1..]); }
  }

  lemma {:induction false} SortedFromIsSorted(prev: nat, opts: seq<CoapOption>)
    requires SortedFrom(prev, opts)
    ensures Sorted(opts) && forall i :: 0 <= i < |opts| ==> prev <= opts[i].code
    decreases |opts|
  {
    if opts != [] { SortedFromIsSorted(opts[0].code, opts[1..]); }
  }

  /** The list the encoder writes: sorted, hence encodable as deltas. */
  function WireOptions(opts: seq<CoapOption>): (r: seq<CoapOption>)
    ensures SortedFrom(0, r)
  {
    StableSortCorrect(opts);
    SortedIsSortedFrom(0, StableSort(opts));
    StableSort(opts)
  }

  /** The bytes of a message whose id is set and whose options are sorted. */
  function EncodeWire(w: Message): seq<byte>
    requires SortedFrom(0, w.options)
  {
    Header(w) + w.token + (EncodeOptions(0, w.options) + EncodePayload(w.payload))
  }

  /** What is sent for `m`: the options sorted, and `newId` for a message that has no id. */
  function OnTheWire(m: Message, newId: MessageId): (w: Message)
    ensures SortedFrom(0, w.options)
  {
    m.(id := if m.id == 0 then newId else m.id, options := WireOptions(m.options))
  }

  function Encode(m: Message, newId: MessageId): seq<byte>
  {
    EncodeWire(OnTheWire(m, newId))
  }

  // ---------------------------------------------------------------- the format of RFC 7252, by its bytes

  /** Figure 7 of RFC 7252: version 1, type, token length, code and id, then the token. */
  lemma WireHeader(w: Message)
    requires SortedFrom(0, w.options) && |w.token| <= 7
    ensures var b := EncodeWire(w);
            && |b| >= 4 + |w.token| && b[0] == 0x40 + 0x10 * w.kind + |w.token| && b[1] == w.code
            && b[2] as nat * 0x100 + b[3] as nat == w.id && b[4..4 + |w.token|] == w.token
  {
    hide EncodeOptions, EncodePayload;
    var rest := EncodeOptions(0, w.options) + EncodePayload(w.payload);
    assert EncodeWire(w) == Header(w) + (w.token + rest);
  }

  /** Section 3.1 of RFC 7252, on both sides of its limits: deltas. */
  lemma DeltaBytes(v: byte)
    ensures EncodeOption(11, [v]) == [0xB1, v] && EncodeOption(12, [v]) == [0xC1, v]
    ensures EncodeOption(13, [v]) == [0xD1, 0, v] && EncodeOption(268, [v]) == [0xD1, 255, v]
    ensures EncodeOption(269, [v]) == [0xE1, 0, 0, v] && EncodeOption(1269, [v]) == [0xE1, 3, 232, v]
  {
  }

  /** And lengths. */
  lemma LengthBytes(val: seq<byte>)
    ensures |val| <= 12 ==> EncodeOption(0, val) == [|val|] + val
    ensures |val| == 13 ==> EncodeOption(0, val) == [0x0D, 0] + val
    ensures |val| == 268 ==> EncodeOption(0, val) == [0x0D, 255] + val
    ensures |val| == 269 ==> EncodeOption(0, val) == [0x0E, 0, 0] + val
    ensures |val| == 1269 ==> EncodeOption(0, val) == [0x0E, 3, 232] + val
  {
  }

  lemma MoreOptions(prev: nat, o: CoapOption, later: seq<CoapOption>, opts: seq<CoapOption>)
    requires prev <= o.code && SortedFrom(o.code, later) && opts == [o] + later
    ensures SortedFrom(prev, opts)
    ensures EncodeOptions(prev, opts) == EncodeOption(o.code - prev, o.val) + EncodeOptions(o.code, later)
    ensures SortedFrom(prev, []) && EncodeOptions(prev, []) == []
  {
    hide EncodeOption;
    assert opts[1..] == later;
  }

  lemma ThreeOptions(o0: CoapOption, o1: CoapOption, o2: CoapOption, opts: seq<CoapOption>)
    requires o0.code <= o1.code <= o2.code && opts == [o0, o1, o2]
    ensures SortedFrom(0, opts)
    ensures EncodeOptions(0, opts)
         == EncodeOption(o0.code, o0.val)
            + (EncodeOption(o1.code - o0.code, o1.val) + EncodeOption(o2.code - o1.code, o2.val))
  {
    assert SortedFrom(o2.code, []);
    hide EncodeOption, EncodeOptions, SortedFrom;
    MoreOptions(o2.code, o2, [], [o2]);
    MoreOptions(o1.code, o2, [], [o2]);
    MoreOptions(o0.code, o1, [o2], [o1, o2]);
    MoreOptions(0, o0, [o1, o2], opts);
    var e := EncodeOption(o2.code - o1.code, o2.val);
    assert e + [] == e;
  }

  lemma OptionBytes(val: seq<byte>, n: nat)
    ensures |val| <= 12 && n <= 12 ==> EncodeOption(n, val) == [16 * n + |val|] + val
    ensures |val| <= 12 && 13 <= n <= 268 ==> EncodeOption(n, val) == [16 * 13 + |val|, n - 13] + val
  {
  }

  /** A confirmable GET with a token, two components of a path, a size and a payload. */
  lemma WireBytes(w: Message, o0: CoapOption, o1: CoapOption, o2: CoapOption, t: byte, a: byte, b: byte, p: byte)
    requires w.kind == 0 && w.code == 1 && w.id == 0x1234 && w.token == [t] && w.payload == [p]
    requires w.options == [o0, o1, o2] && o0.code == o1.code == 11 && o2.code == 60
    requires o0.val == [a] && o1.val == [] && o2.val == [b]
    ensures SortedFrom(0, w.options)
    ensures EncodeWire(w) == [0x41, 1, 0x12, 0x34, t, 0xB1, a, 0, 0xD1, 36, b, 0xFF, p]
  {
    hide EncodeOptions, EncodeOption, Header, SortedFrom;
    ThreeOptions(o0, o1, o2, w.options);
    OptionBytes(o0.val, 11);
    OptionBytes(o1.val, 0);
    OptionBytes(o2.val, 49);
    HeaderBytes(w);
    assert [0xB1, a] + ([0] + [0xD1, 36, b]) == [0xB1, a, 0, 0xD1, 36, b];
    FourPieces(Header(w), w.token, EncodeOptions(0, w.options), EncodePayload(w.payload),
               [0x41, 1, 0x12, 0x34, t, 0xB1, a, 0, 0xD1, 36, b, 0xFF, p]);
  }

  lemma FourPieces(h: seq<byte>, t: seq<byte>, o: seq<byte>, p: seq<byte>, all: seq<byte>)
    requires |h| == 4 && |t| == 1 && |o| == 6 && |p| == 2 && |all| == 13
    requires forall i {:trigger h[i]} :: 0 <= i < 4 ==> all[i] == h[i]
    requires all[4] == t[0] && all[11] == p[0] && all[12] == p[1]
    requires forall i {:trigger o[i]} :: 0 <= i < 6 ==> all[i + 5] == o[i]
    ensures h + t + (o + p) == all
  {
  }

  lemma HeaderBytes(w: Message)
    requires w.kind == 0 && w.code == 1 && w.id == 0x1234 && |w.token| == 1
    ensures Header(w) == [0x41, 1, 0x12, 0x34]
  {
  }

  // ---------------------------------------------------------------- decoder

  datatype DecodedOptions =
    | Options(list: seq<CoapOption>, rest: seq<byte>)
    | BadOption               // a nibble is 15
    | OptionsOverrun          // the loop would read past the message

  function ExtendedValue(nibble: nat, s: seq<byte>): nat
    requires nibble <= 14 && |s| >= ExtensionSize(nibble)
  {
    if nibble == 14 then Int16(s[0], s[1]) + 269 else if nibble == 13 then s[0] + 13 else nibble
  }

  datatype FirstOption = First(code: nat, val: seq<byte>, rest: seq<byte>) | FirstBad | FirstOverrun

  /** The option at the start of `s`. */
  function DecodeFirst(prev: nat, s: seq<byte>): (r: FirstOption)
    requires s != []
    ensures r.First? ==> |r.rest| < |s|
  {
    var dn, ln := s[0] / 16, s[0] % 16;
    if dn == 15 || ln == 15 then FirstBad
    else
      var d, l := 1 + ExtensionSize(dn), 1 + ExtensionSize(dn) + ExtensionSize(ln);
      if l > |s| then FirstOverrun
      else
        var len := ExtendedValue(ln, s[d..]);
        if l + len > |s| then FirstOverrun
        else First(prev + ExtendedValue(dn, s[1..]), s[l..l + len], s[l + len..])
  }

  function DecodeOptions(prev: nat, s: seq<byte>): (r: DecodedOptions)
    decreases |s|
  {
    if s == [] || s[0] == MARKER then Options([], s)
    else
      match DecodeFirst(prev, s)
      case FirstBad => BadOption
      case FirstOverrun => OptionsOverrun
      case First(code, val, rest) =>
        match DecodeOptions(code, rest)
        case Options(list, tail) => Options([CoapOption(code, val)] + list, tail)
        case bad => bad
  }

  datatype Decoded = Ok(m: Message) | Malformed | Overrun

  /** coap_decode on exactly the bytes of one message. */
  function Decode(b: seq<byte>): (r: Decoded)
  {
    if |b| < 4 then Overrun
    else if b[0] / 64 != VERSION then Malformed
    else
      var toklen := b[0] % 16;
      if toklen > MAX_TOKEN || |b| < 4 + toklen then Overrun
      else
        match DecodeOptions(0, b[4 + toklen..])
        case BadOption => Malformed
        case OptionsOverrun => Overrun
        case Options(list, rest) =>
          Ok(Message(b[0] / 16 % 4, b[1], Int16(b[2], b[3]), b[4..4 + toklen], list,
                     if |rest| <= 1 then [] else rest[1..]))
  }

  /** What is not a message: less than a header, another version, a token of more than 8 bytes. */
  lemma NotAMessage(b: seq<byte>)
    ensures |b| < 4 ==> Decode(b) == Overrun
    ensures |b| >= 4 && b[0] / 0x40 != 1 ==> Decode(b) == Malformed
    ensures |b| >= 4 && b[0] / 0x40 == 1 && (b[0] % 0x10 > 8 || |b| < 4 + b[0] % 0x10) ==> Decode(b) == Overrun
  {
    hide DecodeOptions;
  }

  // ---------------------------------------------------------------- decode after encode

  lemma HeaderIsNeverTheMarker(delta: nat, len: nat)
    ensures OptionHeader(delta, len) != MARKER
    ensures OptionHeader(delta, len) / 16 == Nibble(delta) && OptionHeader(delta, len) % 16 == Nibble(len)
    ensures |Extension(delta)| == ExtensionSize(Nibble(delta))
  {
  }

  lemma ExtensionInverts(x: nat, tail: seq<byte>)
    ensures |Extension(x)| == ExtensionSize(Nibble(x))
    ensures x <= MAX_EXTENDED ==> ExtendedValue(Nibble(x), Extension(x) + tail) == x
  {
    hide High, Low, Int16;
    var s := Extension(x) + tail;
    if x >= 269 {
      assert s[0] == High(x - 269) && s[1] == Low(x - 269);
      if x <= MAX_EXTENDED { SplitBytes(x - 269); }
    } else if x >= 13 {
      assert s[0] == Low(x - 13);
      OneByte(x - 13);
    }
  }

  lemma SplitBytes(n: nat)
    requires n < 0x10000
    ensures Int16(High(n), Low(n)) == n
  {
  }

  lemma OneByte(n: nat)
    requires n < 256
    ensures Low(n) == n
  {
  }

  lemma DecodeFirstEncoded(prev: nat, delta: nat, val: seq<byte>, later: seq<byte>)
    requires delta <= MAX_EXTENDED && |val| <= MAX_EXTENDED
    ensures DecodeFirst(prev, EncodeOption(delta, val) + later) == First(prev + delta, val, later)
  {
    hide Extension, ExtendedValue, Nibble;
    var len := |val|;
    var s := EncodeOption(delta, val) + later;
    HeaderIsNeverTheMarker(delta, len);
    ExtensionInverts(delta, Extension(len) + val + later);
    ExtensionInverts(len, val + later);
    var d := 1 + |Extension(delta)|;
    var l := d + |Extension(len)|;
    assert s[0] == OptionHeader(delta, len);
    assert s[1..] == Extension(delta) + (Extension(len) + val + later);
    assert s[d..] == Extension(len) + (val + later);
    assert s[l..l + len] == val && s[l + len..] == later;
  }

  lemma {:induction false} DecodeEncodedOptions(prev: nat, opts: seq<CoapOption>, tail: seq<byte>)
    requires SortedFrom(prev, opts) && Fits(prev, opts)
    requires tail == [] || tail[0] == MARKER
    ensures DecodeOptions(prev, EncodeOptions(prev, opts) + tail) == Options(opts, tail)
    decreases |opts|
  {
    hide DecodeFirst, EncodeOption, DecodeOptions;
    if opts == [] {
      assert EncodeOptions(prev, opts) + tail == tail;
      DecodeOptionsStop(prev, tail);
    } else {
      var o := opts[0];
      var one, later := EncodeOption(o.code - prev, o.val), EncodeOptions(o.code, opts[1..]) + tail;
      Associative(one, EncodeOptions(o.code, opts[1..]), tail);
      EncodedIsNotMarker(o.code - prev, o.val, later);
      DecodeFirstEncoded(prev, o.code - prev, o.val, later);
      DecodeEncodedOptions(o.code, opts[1..], tail);
      DecodeOneMore(prev, one + later, o, opts[1..], tail);
      assert opts == [o] + opts[1..];
    }
  }

  lemma DecodeOneMore(prev: nat, s: seq<byte>, o: CoapOption, opts: seq<CoapOption>, tail: seq<byte>)
    requires s != [] && s[0] != MARKER && DecodeFirst(prev, s).First?
    requires var f := DecodeFirst(prev, s);
             f.code == o.code && f.val == o.val && DecodeOptions(o.code, f.rest) == Options(opts, tail)
    ensures DecodeOptions(prev, s) == Options([o] + opts, tail)
  {
    hide DecodeFirst;
  }

  lemma EncodedIsNotMarker(delta: nat, val: seq<byte>, later: seq<byte>)
    ensures var s := EncodeOption(delta, val) + later; s != [] && s[0] != MARKER
  {
    HeaderIsNeverTheMarker(delta, |val|);
  }

  // ---------------------------------------------------------------- encode after decode

  lemma NibbleInverts(nibble: nat, s: seq<byte>)
    requires nibble <= 14 && |s| >= ExtensionSize(nibble)
    ensures var x := ExtendedValue(nibble, s);
            Nibble(x) == nibble && Extension(x) == s[..ExtensionSize(nibble)] && x <= MAX_EXTENDED
  {
    if nibble == 14 {
      TwoBytes(s[0], s[1]);
      hide High, Low, Int16;
    } else if nibble == 13 {
      assert Low(s[0]) == s[0];
      hide High, Low, Int16;
    }
  }

  lemma TwoBytes(h: byte, l: byte)
    ensures 0 <= Int16(h, l) <= 65535 && High(Int16(h, l)) == h && Low(Int16(h, l)) == l
  {
  }

  lemma EncodeFirstDecoded(prev: nat, s: seq<byte>)
    requires s != [] && DecodeFirst(prev, s).First?
    ensures var r := DecodeFirst(prev, s);
            && prev <= r.code && r.code - prev <= MAX_EXTENDED && |r.val| <= MAX_EXTENDED
            && s == EncodeOption(r.code - prev, r.val) + r.rest
  {
    hide Extension, ExtendedValue, Nibble;
    var dn, ln := s[0] / 16, s[0] % 16;
    var d, l := 1 + ExtensionSize(dn), 1 + ExtensionSize(dn) + ExtensionSize(ln);
    NibbleInverts(dn, s[1..]);
    NibbleInverts(ln, s[d..]);
    FivePieces(s, d, l, l + ExtendedValue(ln, s[d..]));
    hide DecodeFirst;
  }

  lemma FivePieces(s: seq<byte>, d: nat, l: nat, n: nat)
    requires 1 <= d <= l <= n <= |s|
    ensures s[1..][..d - 1] == s[1..d] && s[d..][..l - d] == s[d..l]
    ensures s == [s[0]] + s[1..d] + s[d..l] + s[l..n] + s[n..]
  {
    assert s == s[..n] + s[n..] && s[..n] == s[..l] + s[l..n];
    assert s[..l] == s[..d] + s[d..l] && s[..d] == [s[0]] + s[1..d];
  }

  lemma OneMoreOption(prev: nat, o: CoapOption, later: seq<CoapOption>)
    requires SortedFrom(o.code, later) && Fits(o.code, later)
    requires prev <= o.code && o.code - prev <= MAX_EXTENDED && |o.val| <= MAX_EXTENDED
    ensures SortedFrom(prev, [o] + later) && Fits(prev, [o] + later)
    ensures EncodeOptions(prev, [o] + later) == EncodeOption(o.code - prev, o.val) + EncodeOptions(o.code, later)
  {
    assert ([o] + later)[1..] == later;
    hide EncodeOption;
  }

  lemma NoneDecoded(prev: nat, s: seq<byte>)
    requires s == [] || s[0] == MARKER
    ensures DecodeOptions(prev, s) == Options([], s) && SortedFrom(prev, []) && Fits(prev, [])
    ensures s == EncodeOptions(prev, []) + s
  {
  }

  lemma FirstOfDecoded(prev: nat, s: seq<byte>)
    requires DecodeOptions(prev, s).Options? && s != [] && s[0] != MARKER
    ensures var r, f := DecodeOptions(prev, s), DecodeFirst(prev, s);
            && f.First? && DecodeOptions(f.code, f.rest).Options?
            && r == Options([CoapOption(f.code, f.val)] + DecodeOptions(f.code, f.rest).list,
                            DecodeOptions(f.code, f.rest).rest)
  {
    hide DecodeFirst;
  }

  lemma Associative(a: seq<byte>, b: seq<byte>, c: seq<byte>)
    ensures a + (b + c) == a + b + c
  {
  }

  lemma {:induction false} EncodeDecodedOptions(prev: nat, s: seq<byte>)
    requires DecodeOptions(prev, s).Options?
    ensures var r := DecodeOptions(prev, s);
            && SortedFrom(prev, r.list) && Fits(prev, r.list)
            && s == EncodeOptions(prev, r.list) + r.rest
            && (r.rest == [] || r.rest[0] == MARKER)
    decreases |s|
  {
    hide DecodeFirst, EncodeOption, DecodeOptions, EncodeOptions, Fits, SortedFrom;
    if s == [] || s[0] == MARKER {
      NoneDecoded(prev, s);
    } else {
      FirstOfDecoded(prev, s);
      var f := DecodeFirst(prev, s);
      var r := DecodeOptions(f.code, f.rest);
      EncodeFirstDecoded(prev, s);
      EncodeDecodedOptions(f.code, f.rest);
      OneMoreOption(prev, CoapOption(f.code, f.val), r.list);
      Associative(EncodeOption(f.code - prev, f.val), EncodeOptions(f.code, r.list), r.rest);
    }
  }

  // ---------------------------------------------------------------- whole messages

  lemma HeaderFields(w: Message, body: seq<byte>)
    ensures var b := Header(w) + w.token + body;
            && |b| == 4 + |w.token| + |body| && b[..4] == Header(w)
            && b[0] == Byte0(w.kind, |w.token|) && b[1] == w.code && b[2] == High(w.id) && b[3] == Low(w.id)
            && b[4..4 + |w.token|] == w.token && b[4 + |w.token|..] == body
  {
  }

  lemma HeaderValues(w: Message)
    ensures var h := Header(w);
            && |h| == 4 && h[0] / 64 == VERSION && h[0] / 16 % 4 == w.kind && h[0] % 16 == |w.token| % 8
            && h[1] == w.code && Int16(h[2], h[3]) == w.id
  {
  }

  lemma DecodeAfterEncodeWire(w: Message)
    requires SortedFrom(0, w.options)
    ensures Decode(EncodeWire(w)) == Ok(w) <==> |w.token| <= 7 && Fits(0, w.options)
  {
    hide Decode, DecodeOptions, EncodeOptions, Fits, EncodePayload;
    var tail := EncodePayload(w.payload);
    var body := EncodeOptions(0, w.options) + tail;
    TokenOfDecoded(w, body);
    if |w.token| <= 7 {
      DecodeOfWire(w, body);
      PayloadOf(w.payload);
      if Fits(0, w.options) { DecodeEncodedOptions(0, w.options, tail); }
      if DecodeOptions(0, body).Options? { EncodeDecodedOptions(0, body); }
    }
  }

  lemma PayloadOf(payload: seq<byte>)
    ensures var tail := EncodePayload(payload);
            && (tail == [] || tail[0] == MARKER) && payload == if |tail| <= 1 then [] else tail[1..]
  {
  }

  /** Decoding header, token and options with what follows them. */
  lemma DecodeOfWire(w: Message, body: seq<byte>)
    requires |w.token| <= 7
    ensures Decode(Header(w) + w.token + body)
         == match DecodeOptions(0, body)
            case BadOption => Malformed
            case OptionsOverrun => Overrun
            case Options(list, rest) => Ok(w.(options := list, payload := if |rest| <= 1 then [] else rest[1..]))
  {
    HeaderFields(w, body);
    HeaderValues(w);
    hide Header, Byte0, DecodeOptions, High, Low, Int16;
  }

  lemma TokenOfDecoded(w: Message, body: seq<byte>)
    ensures var r := Decode(Header(w) + w.token + body); r.Ok? && |r.m.token| == |w.token| ==> |w.token| <= 7
  {
    HeaderFields(w, body);
    HeaderValues(w);
    hide Header, Byte0, DecodeOptions, High, Low, Int16;
  }

  /** Decoding an encoded message gives it back, options stably sorted, exactly when the
      token has at most 7 bytes and the format can express every delta and length. */
  lemma DecodeAfterEncode(m: Message, newId: MessageId)
    ensures Decode(Encode(m, newId)) == Ok(OnTheWire(m, newId))
       <==> |m.token| <= 7 && Fits(0, WireOptions(m.options))
  {
    DecodeAfterEncodeWire(OnTheWire(m, newId));
  }

  /** The marker stands where the options end, but no payload follows it. */
  predicate LoneMarker(b: seq<byte>)
    requires Decode(b).Ok?
  {
    DecodeOptions(0, b[4 + b[0] % 16..]).rest == [MARKER]
  }

  lemma DecodedParts(b: seq<byte>)
    requires Decode(b).Ok?
    ensures var m := Decode(b).m;
            && SortedFrom(0, m.options) && |m.token| == b[0] % 16 && |b| >= 4 + |m.token|
            && b[0] / 64 == VERSION && m.kind == b[0] / 16 % 4
            && m.code == b[1] && m.id == Int16(b[2], b[3]) && m.token == b[4..4 + |m.token|]
            && b[4 + |m.token|..] == EncodeOptions(0, m.options) + EncodePayload(m.payload)
                                     + (if LoneMarker(b) then [MARKER] else [])
  {
    hide DecodeOptions, EncodeOptions, Fits;
    var m := Decode(b).m;
    var s := b[4 + b[0] % 16..];
    EncodeDecodedOptions(0, s);
    var rest := DecodeOptions(0, s).rest;
    assert rest == EncodePayload(m.payload) + (if LoneMarker(b) then [MARKER] else []);
  }

  lemma EncodeAfterDecodeWire(b: seq<byte>)
    requires Decode(b).Ok?
    ensures SortedFrom(0, Decode(b).m.options)
    ensures EncodeWire(Decode(b).m) == b <==> b[0] % 16 <= 7 && !LoneMarker(b)
  {
    hide Decode, EncodeOptions, Header, Byte0, LoneMarker;
    var m := Decode(b).m;
    DecodedParts(b);
    var body := EncodeOptions(0, m.options) + EncodePayload(m.payload);
    HeaderFields(m, body);
    HeaderValues(m);
    var e := EncodeWire(m);
    var extra := if LoneMarker(b) then [MARKER] else [];
    assert b == b[..4] + m.token + (body + extra);
    if b[0] % 16 <= 7 {
      SameHeader(b[..4], Header(m));
      assert b == e + extra;
      assert |b| == |e| + |extra|;
    } else {
      assert e[0] % 16 == |m.token| % 8 != b[0] % 16;
    }
  }

  lemma SameHeader(g: seq<byte>, h: seq<byte>)
    requires |g| == |h| == 4
    requires g[0] / 64 == h[0] / 64 && g[0] / 16 % 4 == h[0] / 16 % 4 && g[0] % 16 == h[0] % 16
    requires g[1] == h[1] && Int16(g[2], g[3]) == Int16(h[2], h[3])
    ensures g == h
  {
  }

  /** Encoding a decoded message gives the received bytes back, exactly when the token has at
      most 7 bytes, the message has an id, and no lone marker ends it. */
  lemma EncodeAfterDecode(b: seq<byte>, newId: MessageId)
    requires Decode(b).Ok? && newId != 0
    ensures Encode(Decode(b).m, newId) == b
       <==> b[0] % 16 <= 7 && Decode(b).m.id != 0 && !LoneMarker(b)
  {
    hide Decode, EncodeWire, LoneMarker;
    var m := Decode(b).m;
    DecodedParts(b);
    EncodeAfterDecodeWire(b);
    SortedFromIsSorted(0, m.options);
    WireOptionsOfSorted(m.options);
    if m.id == 0 && Encode(m, newId) == b {
      WireId(OnTheWire(m, newId));
    }
  }

  lemma WireId(w: Message)
    requires SortedFrom(0, w.options)
    ensures |EncodeWire(w)| >= 4 && Int16(EncodeWire(w)[2], EncodeWire(w)[3]) == w.id
  {
    hide EncodeOptions;
    HeaderFields(w, EncodeOptions(0, w.options) + EncodePayload(w.payload));
  }

  lemma WireOptionsOfSorted(opts: seq<CoapOption>)
    requires Sorted(opts)
    ensures WireOptions(opts) == opts
  {
    StableSortOfSorted(opts);
  }

  /** The failing family of DecodeAfterEncode is not empty: an 8-byte token is announced with
      length 0, and its bytes are then taken for options or, here, for a payload. */
  lemma EightByteTokenIsLost(m: Message)
    requires |m.token| == 8 && m.token[0] == MARKER && m.options == [] && m.payload == []
    ensures Decode(EncodeWire(m)) == Ok(m.(token := [], payload := m.token[1..]))
  {
    hide Header, Byte0, DecodeOptions;
    HeaderFields(m, []);
    HeaderValues(m);
    var b := EncodeWire(m);
    assert b == Header(m) + m.token + [];
    assert b[4..] == m.token && b[4..4] == [];
    OnlyPayload(m.token);
  }

  lemma OnlyPayload(s: seq<byte>)
    requires s != [] && s[0] == MARKER
    ensures DecodeOptions(0, s) == Options([], s)
  {
  }

  // ---------------------------------------------------------------- the master's message class

  /** The counter behind default message ids: 1 .. 0xffff, cyclic, never 0. */
  class IdSource {
    var next: MessageId

    ghost predicate Valid()
      reads this
    {
      next != 0
    }

    constructor ()
      ensures Valid()
    {
      next := 1;
    }

    method Take() returns (id: MessageId)
      requires Valid()
      modifies this
      ensures Valid() && id != 0 && id == old(next) && next == NextId(id)
    {
      id := next;
      var n := next + 1;
      next := if n > 0xffff then 1 else n;
    }
  }

  function NextId(id: MessageId): MessageId
    requires id != 0
  {
    if id == 0xffff then 1 else id + 1
  }

  /** The k-th id taken after `id`. */
  function IdAfter(id: MessageId, k: nat): (r: MessageId)
    requires id != 0
    ensures r != 0
  {
    if k == 0 then id else NextId(IdAfter(id, k - 1))
  }

  lemma {:induction false} IdAfterIsCyclic(id: MessageId, k: nat)
    requires id != 0
    ensures IdAfter(id, k) == (id - 1 + k) % 65535 + 1
  {
    if k > 0 { IdAfterIsCyclic(id, k - 1); }
  }

  /** 65535 consecutive messages get distinct ids. */
  lemma IdsAreDistinct(id: MessageId, j: nat, k: nat)
    requires id != 0 && j < k < j + 65535
    ensures IdAfter(id, j) != IdAfter(id, k)
  {
    IdAfterIsCyclic(id, j);
    IdAfterIsCyclic(id, k);
  }

  lemma {:induction false} EncodeOptionsSplit(prev: nat, opts: seq<CoapOption>, k: nat)
    requires SortedFrom(prev, opts) && k < |opts|
    ensures SortedFrom(prev, opts[..k]) && SortedFrom(prev, opts[..k + 1])
    ensures var p := if k == 0 then prev else opts[k - 1].code;
            p <= opts[k].code
            && EncodeOptions(prev, opts[..k + 1])
            == EncodeOptions(prev, opts[..k]) + EncodeOption(opts[k].code - p, opts[k].val)
    decreases k
  {
    hide EncodeOption;
    var o := opts[0];
    if k == 0 {
      assert opts[..1][1..] == [] && opts[..0] == [];
    } else {
      EncodeOptionsSplit(o.code, opts[1..], k - 1);
      assert opts[..k][1..] == opts[1..][..k - 1] && opts[..k + 1][1..] == opts[1..][..k];
    }
  }

  class CoapMsg {
    var kind: Kind
    var code: byte
    var id: MessageId
    var token: seq<byte>
    var options: seq<CoapOption>
    var payload: seq<byte>
    var bin: array<byte>
    var ntrans: nat

    ghost function Value(): Message
      reads this
    {
      Message(kind, code, id, token, options, payload)
    }

    constructor (m: Message)
      ensures Value() == m
    {
      kind, code, id, token, options, payload := m.kind, m.code, m.id, m.token, m.options, m.payload;
      bin, ntrans := new byte[0], 0;
    }

    /** Part 1 of coap_encode: the size, option by option. */
    static method SizeOf(token: seq<byte>, opts: seq<CoapOption>, payload: seq<byte>) returns (msglen: nat)
      requires SortedFrom(0, opts)
      ensures msglen == 4 + |token| + |EncodeOptions(0, opts)| + |EncodePayload(payload)|
    {
      msglen := 4 + |token|;
      var optNb := 0;
      for k := 0 to |opts|
        invariant SortedFrom(0, opts[..k])
        invariant optNb == if k == 0 then 0 else opts[k - 1].code
        invariant msglen == 4 + |token| + |EncodeOptions(0, opts[..k])|
      {
        EncodeOptionsSplit(0, opts, k);
        var delta, len := opts[k].code - optNb, |opts[k].val|;
        msglen := msglen + 1;
        msglen := msglen + (if delta >= 269 then 2 else if delta >= 13 then 1 else 0);
        optNb := opts[k].code;
        msglen := msglen + (if len >= 269 then 2 else if len >= 13 then 1 else 0);
        msglen := msglen + len;
      }
      assert opts[..|opts|] == opts;
      if |payload| > 0 {
        msglen := msglen + 1 + |payload|;
      }
    }

    /** The extension bytes of a delta or a length, and the nibble that announces them. */
    static method WriteExtension(buf: array<byte>, i: nat, x: nat) returns (nibble: nat, j: nat)
      requires i + |Extension(x)| <= buf.Length
      modifies buf
      ensures nibble == Nibble(x) && j == i + |Extension(x)| && buf[..j] == old(buf[..i]) + Extension(x)
    {
      if x >= 269 {
        Memcpy(buf, i, [High(x - 269), Low(x - 269)]);
        return 14, i + 2;
      } else if x >= 13 {
        Memcpy(buf, i, [Low(x - 13)]);
        return 13, i + 1;
      } else {
        assert buf[..i] == buf[..i] + [];
        return x, i;
      }
    }

    static method WriteOption(buf: array<byte>, i: nat, delta: nat, val: seq<byte>) returns (j: nat)
      requires i + |EncodeOption(delta, val)| <= buf.Length
      modifies buf
      ensures j == i + |EncodeOption(delta, val)| && buf[..j] == old(buf[..i]) + EncodeOption(delta, val)
    {
      hide Extension, Nibble;
      ghost var before := buf[..i];
      var posoptheader := i;
      buf[posoptheader] := 0;
      assert buf[..i + 1] == before + [0];
      var dn, k := WriteExtension(buf, i + 1, delta);
      var ln, l := WriteExtension(buf, k, |val|);
      Memcpy(buf, l, val);
      j := l + |val|;
      assert buf[..j] == before + [0] + Extension(delta) + Extension(|val|) + val;
      buf[posoptheader] := 16 * dn + ln;
      assert buf[..j] == before + EncodeOption(delta, val);
    }

    static method WriteOptions(buf: array<byte>, start: nat, opts: seq<CoapOption>) returns (i: nat)
      requires SortedFrom(0, opts) && start + |EncodeOptions(0, opts)| <= buf.Length
      modifies buf
      ensures i == start + |EncodeOptions(0, opts)| && buf[..i] == old(buf[..start]) + EncodeOptions(0, opts)
    {
      hide EncodeOption, EncodeOptions;
      i := start;
      var optNb := 0;
      ghost var front, written := buf[..start], [];
      EncodeNoOptions();
      assert opts[..0] == [];
      for k := 0 to |opts|
        invariant SortedFrom(0, opts[..k]) && written == EncodeOptions(0, opts[..k])
        invariant optNb == if k == 0 then 0 else opts[k - 1].code
        invariant i == start + |written| <= buf.Length && buf[..i] == front + written
      {
        EncodeOptionsSplit(0, opts, k);
        EncodeOptionsPrefix(0, opts, k + 1);
        i := WriteOption(buf, i, opts[k].code - optNb, opts[k].val);
        written := written + EncodeOption(opts[k].code - optNb, opts[k].val);
        assert buf[..i] == front + written;
        optNb := opts[k].code;
      }
      assert opts[..|opts|] == opts;
    }

    static lemma EncodeNoOptions()
      ensures EncodeOptions(0, []) == []
    {
    }

    static lemma Regroup(a: seq<byte>, b: seq<byte>, c: seq<byte>)
      ensures a + b + c == a + (b + c)
    {
    }

    static method WritePayload(buf: array<byte>, i: nat, payload: seq<byte>)
      requires i + |EncodePayload(payload)| <= buf.Length
      modifies buf
      ensures var n := i + |EncodePayload(payload)|; buf[..n] == old(buf[..i]) + EncodePayload(payload)
    {
      ghost var front := buf[..i];
      assert front + [MARKER] + payload == front + ([MARKER] + payload);
      if |payload| > 0 {
        Memcpy(buf, i, [MARKER]);
        Memcpy(buf, i + 1, payload);
      } else {
        assert buf[..i] == buf[..i] + [];
      }
    }

    /** Part 3 of coap_encode: header, token, options and payload into the new buffer. */
    method Build()
      requires SortedFrom(0, options)
      requires bin.Length == |EncodeWire(Value())|
      modifies bin
      ensures bin[..] == EncodeWire(Value())
    {
      hide EncodeOption, Byte0, EncodeOptions;
      Memcpy(bin, 0, [Byte0(kind, |token|), code, High(id), Low(id)]);
      Memcpy(bin, 4, token);
      ghost var front := Header(Value()) + token;
      assert bin[..4 + |token|] == front;
      var i := WriteOptions(bin, 4 + |token|, options);
      WritePayload(bin, i, payload);
      Regroup(front, EncodeOptions(0, options), EncodePayload(payload));
      assert bin[..] == bin[..bin.Length];
    }

    /** coap_encode: sort the options, take an id if none is set, size, then write. */
    method CoapEncode(ids: IdSource)
      requires ids.Valid()
      modifies this, ids
      ensures ids.Valid() && fresh(bin) && ntrans == 0
      ensures Value() == OnTheWire(old(Value()), old(ids.next))
      ensures bin[..] == Encode(old(Value()), old(ids.next))
      ensures ids.next == if old(id) == 0 then NextId(old(ids.next)) else old(ids.next)
    {
      options := WireOptions(options);
      var msglen := SizeOf(token, options, payload);
      if id == 0 {
        id := ids.Take();
      }
      bin := new byte[msglen];
      Build();
      ntrans := 0;
    }
  }

  // ---------------------------------------------------------------- the decoder loop

  /** coap_decode as the source runs it, an index moving over the receive buffer. The loop
      stops with Overrun where the source would go on reading behind the message. */
  method CoapDecode(buf: array<byte>, msglen: nat) returns (r: Decoded)
    requires msglen <= buf.Length
    ensures r == Decode(buf[..msglen])
  {
    hide DecodeOptions;
    if msglen < 4 {
      return Overrun;
    }
    if buf[0] / 64 != VERSION {
      return Malformed;
    }
    var kind, toklen, code, id := buf[0] / 16 % 4, buf[0] % 16, buf[1], Int16(buf[2], buf[3]);
    if toklen > MAX_TOKEN || msglen < 4 + toklen {
      return Overrun;
    }
    var token := buf[4..4 + toklen];
    var i, status, list := DecodeLoop(buf, 4 + toklen, msglen);
    ghost var b := buf[..msglen];
    assert b[4..4 + toklen] == token && b[4 + toklen..] == buf[4 + toklen..msglen];
    match status {
      case BadOption => r := Malformed;
      case OptionsOverrun => r := Overrun;
      case Options(_, _) =>
        var paylen := msglen - i - 1;
        if paylen > 0 {
          assert buf[i..msglen][1..] == buf[i + 1..msglen];
          r := Ok(Message(kind, code, id, token, list, buf[i + 1..msglen]));
        } else {
          r := Ok(Message(kind, code, id, token, list, []));
        }
    }
  }

  method ReadExtension(buf: array<byte>, i: nat, msglen: nat, nibble: nat) returns (x: nat, j: nat)
    requires nibble <= 14 && i + ExtensionSize(nibble) <= msglen <= buf.Length
    ensures j == i + ExtensionSize(nibble) && x == ExtendedValue(nibble, buf[i..msglen])
  {
    if nibble == 13 {
      var first: int := buf[i];
      return first + 13, i + 1;
    } else if nibble == 14 {
      return Int16(buf[i], buf[i + 1]) + 269, i + 2;
    } else {
      return nibble, i;
    }
  }

  lemma TailOfSlice(buf: array<byte>, start: nat, end: nat, k: nat)
    requires start + k <= end <= buf.Length
    ensures buf[start..end][k..] == buf[start + k..end]
  {
  }

  lemma FirstByParts(prev: nat, s: seq<byte>)
    requires s != []
    ensures var dn, ln := s[0] / 16, s[0] % 16;
            if dn == 15 || ln == 15 then DecodeFirst(prev, s) == FirstBad
            else
              var d, l := 1 + ExtensionSize(dn), 1 + ExtensionSize(dn) + ExtensionSize(ln);
              if l > |s| || l + ExtendedValue(ln, s[d..]) > |s| then DecodeFirst(prev, s) == FirstOverrun
              else
                var len := ExtendedValue(ln, s[d..]);
                DecodeFirst(prev, s) == First(prev + ExtendedValue(dn, s[1..]), s[l..l + len], s[l + len..])
  {
    hide ExtendedValue;
  }

  /** One turn of the loop: the option whose header is at `i`. */
  method DecodeOne(buf: array<byte>, start: nat, msglen: nat, prev: nat) returns (r: FirstOption, i: nat)
    requires start < msglen <= buf.Length
    ensures r == DecodeFirst(prev, buf[start..msglen])
    ensures r.First? ==> start < i <= msglen && buf[i..msglen] == r.rest
  {
    hide ExtendedValue;
    ghost var s := buf[start..msglen];
    FirstByParts(prev, s);
    hide DecodeFirst;
    i := start;
    var dn, ln := buf[i] / 16, buf[i] % 16;
    i := i + 1;
    if dn == 15 || ln == 15 {
      return FirstBad, i;
    }
    if i + ExtensionSize(dn) + ExtensionSize(ln) > msglen {
      return FirstOverrun, i;
    }
    var delta, len;
    TailOfSlice(buf, start, msglen, 1);
    TailOfSlice(buf, start, msglen, 1 + ExtensionSize(dn));
    delta, i := ReadExtension(buf, i, msglen, dn);
    len, i := ReadExtension(buf, i, msglen, ln);
    if i + len > msglen {
      return FirstOverrun, i;
    }
    hide ExtensionSize;
    r, i := TakeValue(buf, start, i, msglen, prev + delta, len);
  }

  /** The value of an option, and what follows it. */
  method TakeValue(buf: array<byte>, start: nat, at: nat, msglen: nat, code: nat, len: nat)
    returns (r: FirstOption, i: nat)
    requires start <= at && at + len <= msglen <= buf.Length
    ensures var s, l := buf[start..msglen], at - start; r == First(code, s[l..l + len], s[l + len..])
    ensures i == at + len && buf[i..msglen] == r.rest
  {
    ghost var l := at - start;
    SubSlice(buf, start, msglen, l, l + len);
    SubSlice(buf, start, msglen, l + len, msglen - start);
    i := at + len;
    r := First(code, buf[at..i], buf[i..msglen]);
  }

  method DecodeLoop(buf: array<byte>, start: nat, msglen: nat)
    returns (i: nat, status: DecodedOptions, list: seq<CoapOption>)
    requires start <= msglen <= buf.Length
    ensures status == DecodeOptions(0, buf[start..msglen])
    ensures status.Options? ==> i <= msglen && list == status.list && buf[i..msglen] == status.rest
  {
    hide DecodeOptions, DecodeFirst;
    i := start;
    list := [];
    var optNb := 0;
    ghost var goal := DecodeOptions(0, buf[start..msglen]);
    assert goal.Options? ==> [] + goal.list == goal.list;
    while i < msglen && buf[i] != MARKER
      invariant i <= msglen
      invariant goal == Prepend(list, DecodeOptions(optNb, buf[i..msglen]))
      decreases msglen - i
    {
      DecodeOptionsStep(list, optNb, buf[i..msglen]);
      var one;
      one, i := DecodeOne(buf, i, msglen, optNb);
      match one {
        case FirstBad => return i, BadOption, list;
        case FirstOverrun => return i, OptionsOverrun, list;
        case First(code, val, _) =>
          optNb := code;
          list := list + [CoapOption(code, val)];
      }
    }
    DecodeOptionsStop(optNb, buf[i..msglen]);
    assert list + [] == list;
    status := Options(list, buf[i..msglen]);
  }

  function Prepend(front: seq<CoapOption>, r: DecodedOptions): DecodedOptions
  {
    if r.Options? then Options(front + r.list, r.rest) else r
  }

  lemma DecodeOptionsStop(prev: nat, s: seq<byte>)
    requires s == [] || s[0] == MARKER
    ensures DecodeOptions(prev, s) == Options([], s)
  {
  }

  lemma DecodeOptionsStep(front: seq<CoapOption>, prev: nat, s: seq<byte>)
    requires s != [] && s[0] != MARKER
    ensures Prepend(front, DecodeOptions(prev, s))
         == match DecodeFirst(prev, s)
            case FirstBad => BadOption
            case FirstOverrun => OptionsOverrun
            case First(code, val, rest) => Prepend(front + [CoapOption(code, val)], DecodeOptions(code, rest))
  {
    hide DecodeFirst;
    var f := DecodeFirst(prev, s);
    if f.First? && DecodeOptions(f.code, f.rest).Options? {
      OptionsAssociative(front, CoapOption(f.code, f.val), DecodeOptions(f.code, f.rest).list);
    }
  }

  lemma OptionsAssociative(front: seq<CoapOption>, o: CoapOption, list: seq<CoapOption>)
    ensures front + ([o] + list) == front + [o] + list
  {
  }

  lemma {:induction false} EncodeOptionsPrefix(prev: nat, opts: seq<CoapOption>, k: nat)
    requires SortedFrom(prev, opts) && k <= |opts|
    ensures SortedFrom(prev, opts[..k])
    ensures |EncodeOptions(prev, opts[..k])| <= |EncodeOptions(prev, opts)|
    decreases |opts| - k
  {
    if k == |opts| {
      assert opts[..k] == opts;
    } else {
      EncodeOptionsSplit(prev, opts, k);
      EncodeOptionsPrefix(prev, opts, k + 1);
    }
  }
}
