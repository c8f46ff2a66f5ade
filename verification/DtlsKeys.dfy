/**
 * Which parameters of a DTLS peer have a cipher (arduino/libraries/Dtls-s/dtls.c,
 * arduino/libraries/Dtls-s/peer.h), over all runs of DtlsPeer: what switches put to use, what
 * application data are sent under, and which received contents were authenticated.
 */
module DtlsKeys {
  import opened Bytes
  import opened Wrappers
  import opened DtlsRecord
  import opened DtlsPeer

  /** Only the initial parameters, those with address 0, have no cipher. */
  predicate Keyed(s: Security)
  {
    s.encrypts <==> s.id != 0
  }

  predicate Over(s: State) { s.Closing? || s.Closed? }

  /** Slot 1 carries the epoch a server waits for. */
  predicate Ahead(p: Peer)
  {
    p.slot0.Some? && p.slot1.Some? && p.slot1.value.epoch == (p.slot0.value.epoch + 1) % 0x1_0000
  }

  predicate Initial(s: Option<Security>) { s.Some? && s.value.id == 0 }

  /** The initial parameters, which have no cipher, are no longer in any slot. */
  predicate InitialGone(p: Peer)
  {
    !Initial(p.slot0) && !Initial(p.slot1)
  }

  /** Parameters whose key block could not be calculated can be in slot 1 only of a peer that
      closes. Whoever is connected has a cipher in use, and so has everybody who waits for a
      message that leads to a switch or to the connection. */
  predicate Slotted(p: Peer)
    requires p.slot0.Some?
  {
    var protects, waits := p.slot0.value.encrypts, p.role.Server? && p.state.WaitFinished?;
    && Keyed(p.slot0.value)
    && (p.slot1.Some? && !Over(p.state) ==> Keyed(p.slot1.value))
    && (p.state.Connected? ==> protects)
    && (p.role.Client? && p.state.WaitFinished? ==> protects)
    && (p.role.Server? && p.state.AwaitServerHello? ==> protects)
    && (waits && Ahead(p) ==> p.slot1.value.encrypts)
    && (waits && p.opener == ServerHello ==> protects && (p.slot1.Some? ==> p.slot1.value.encrypts))
  }

  /** `gone`: the initial parameters are gone for good. */
  predicate Ciphers(p: Peer, gone: bool)
  {
    && p.nextId > 0
    && (forall k :: 0 <= k < |p.promoted| ==> p.promoted[k].encrypts)
    && (p.slot0.Some? ==> Slotted(p))
    && (gone ==> InitialGone(p))
  }

  /** A Finished message may be handled: what a server switches to has a cipher. */
  predicate CipherReady(p: Peer)
  {
    p.role.Server? && p.state.WaitFinished? && p.slot1.Some? ==>
      p.slot1.value.encrypts && (Ahead(p) || p.opener == ServerHello)
  }

  /** The state in which the error of a handler leaves the peer: a missing key block closes it. */
  function Settled(r: (Peer, int)): Peer
  {
    if r.1 == ALERT_INTERNAL_ERROR then r.0.(state := Closing) else r.0
  }

  predicate After(r: (Peer, int), gone: bool)
  {
    Ciphers(Settled(r), gone) && (r.1 >= 0 ==> CipherReady(r.0))
  }

  // ---------------------------------------------------------------- handlers

  /** Neither the handshake parameters nor the retransmissions matter here, and the end of a
      connection never does. */
  lemma CiphersElsewhere(p: Peer, q: Peer, gone: bool)
    requires Ciphers(p, gone) && p.(hs := q.hs, sendqueue := q.sendqueue, alive := q.alive, state := q.state) == q
    requires q.state == p.state || Over(q.state)
             || (q.state.AwaitServerHello? && !Over(p.state) && p.slot0.Some?
                && (p.role.Client? || p.slot0.value.encrypts))
    ensures Ciphers(q, gone) && (q.state == p.state ==> (CipherReady(p) <==> CipherReady(q)))
  {
  }

  lemma Use0Ciphers(p: Peer, gone: bool)
    requires Ciphers(p, gone) && p.slot0.Some?
    ensures Ciphers(Use0(p), gone) && (CipherReady(p) <==> CipherReady(Use0(p)))
  {
  }

  lemma Use1Ciphers(p: Peer, gone: bool)
    requires Ciphers(p, gone) && p.slot1.Some?
    ensures Ciphers(Use1(p), gone)
  {
  }

  lemma SendCiphers(p: Peer, retransmit: bool, sending: Sending, gone: bool)
    requires Ciphers(p, gone) && p.slot0.Some?
    ensures var q := Send(p, retransmit, sending).0;
            && Ciphers(q, gone) && q.slot0.Some?
            && q.slot0.value.encrypts == p.slot0.value.encrypts && q.slot1 == p.slot1
            && q.role == p.role && q.state == p.state && q.opener == p.opener && (CipherReady(p) <==> CipherReady(q))
  {
    Use0Ciphers(p, gone);
    CiphersElsewhere(Use0(p), Send(p, retransmit, sending).0, gone);
    hide Ciphers, CipherReady;
  }

  /** A new key block is ahead of the one in use, and it protects unless its calculation fails. */
  lemma NextKeys(p: Peer, keys: Option<KeyBlock>)
    requires p.slot0.Some?
    ensures var r := KeyBlocks(p, keys);
            && r.0 == p.(slot1 := r.0.slot1, nextId := p.nextId + 1) && Ahead(r.0)
            && r.0.slot1.value.id == p.nextId && (r.0.slot1.value.encrypts <==> keys.Some?)
            && r.1 == if keys.Some? then 0 else ALERT_INTERNAL_ERROR
  {
  }

  /** A switch to parameters with a cipher, away from a handshake state. */
  lemma SwitchCiphers(p: Peer, gone: bool)
    requires p.slot0.Some? && p.slot1.Some? && Keyed(p.slot0.value) && Keyed(p.slot1.value) && p.slot1.value.encrypts
    requires p.nextId > 0 && (gone ==> InitialGone(p)) && forall k :: 0 <= k < |p.promoted| ==> p.promoted[k].encrypts
    requires p.role.Server? && p.state.WaitFinished? ==> (Ahead(p) || p.slot0.value.encrypts)
    requires p.role.Server? && p.state.WaitFinished? && p.opener == ServerHello ==> p.slot0.value.encrypts
    ensures Ciphers(Switch(p), gone) && Switch(p).slot0 == p.slot1 && Switch(p).slot1 == p.slot0
  {
  }

  lemma AnswerServerHelloCiphers(p: Peer, a: Answers, gone: bool)
    requires Ciphers(p, gone) && p.slot0.Some? && p.state.AwaitServerHello?
    ensures After(AnswerServerHello(p, a), gone)
  {
    hide KeyBlocks, Send;
    NextKeys(p, a.keys);
    var k := KeyBlocks(p, a.keys).0;
    if a.keys.Some? {
      SwitchCiphers(k, gone);
      SendCiphers(Switch(k), true, a.reply, gone);
    }
  }

  lemma AcceptFinishedCiphers(p: Peer, a: Answers, gone: bool)
    requires Ciphers(p, gone) && p.slot0.Some? && p.state.WaitFinished? && CipherReady(p)
    ensures After(AcceptFinished(p, a), gone)
  {
    hide Send;
    if p.role.Server? && p.slot1.Some? {
      SwitchCiphers(p, gone);
      var w := Switch(p).(misfinished := p.misfinished || p.opener == ServerHello);
      SendCiphers(w, true, a.reply, gone);
    }
  }

  lemma AnswerClientHelloCiphers(p: Peer, m: Message, gone: bool)
    requires Ciphers(p, gone) && p.slot0.Some? && !p.state.WaitFinished? && (p.role.Client? ==> p.slot0.value.encrypts)
    ensures After(AnswerClientHello(p, m), gone)
  {
    hide KeyBlocks, Send;
    var q := if p.hs.None? then p.(hs := Some(Handshake(m.number, [], []))) else p;
    SendCiphers(q, true, m.answers.reply, gone);
    var s := Send(q, true, m.answers.reply);
    NextKeys(s.0.(state := WaitFinished, opener := ClientHello), m.answers.keys);
  }

  lemma AnswerHelloRequestCiphers(p: Peer, a: Answers, gone: bool)
    requires Ciphers(p, gone) && p.slot0.Some? && p.state.Connected?
    ensures After(AnswerHelloRequest(p, a), gone)
  {
    hide Send;
    var q := if p.hs.None? then p.(hs := Some(Handshake(0, [], []))) else p;
    SendCiphers(q, true, a.reply, gone);
  }

  lemma AdvancedCiphers(r: (Peer, int), gone: bool)
    requires After(r, gone)
    ensures After(Advanced(r), gone)
  {
  }

  lemma HandleCiphers(p: Peer, m: Message, gone: bool)
    requires Ciphers(p, gone) && CipherReady(p) && p.slot0.Some?
    ensures After(Handle(p, m), gone)
  {
    assert p.state.Connected? ==> p.slot0.value.encrypts;
    hide Ciphers, CipherReady, Send, AnswerServerHello, AcceptFinished, AnswerClientHello, AnswerHelloRequest, Advanced;
    var q, a := p.(sendqueue := []), m.answers;
    CiphersElsewhere(p, q, gone);
    CiphersElsewhere(q, q.(state := Closing), gone);
    match m.kind
    case HelloVerifyRequest => SendAnswered(q, true, a.reply, gone);
    case ServerHello =>
      if p.state.AwaitServerHello? && a.check >= 0 {
        AnswerServerHelloCiphers(q, a, gone);
        AdvancedCiphers(AnswerServerHello(q, a), gone);
      }
    case Finished =>
      if p.state.WaitFinished? && a.check >= 0 { AcceptFinishedCiphers(q, a, gone); }
    case ClientHello =>
      if p.state.Connected? && a.check >= 0 {
        AnswerClientHelloCiphers(q, m, gone);
        AdvancedCiphers(AnswerClientHello(q, m), gone);
        if !a.cookie {
          var v := Send(q, false, a.verify);
          SendAnswered(q, false, a.verify, gone);
          SendCiphers(q, false, a.verify, gone);
          AnswerClientHelloCiphers(v.0, m, gone);
          AdvancedCiphers(AnswerClientHello(v.0, m), gone);
        }
      }
    case HelloRequest =>
      if p.state.Connected? {
        AnswerHelloRequestCiphers(q, a, gone);
        AdvancedCiphers(AnswerHelloRequest(q, a), gone);
      }
    case OtherKind =>
  }

  lemma SendAnswered(p: Peer, retransmit: bool, sending: Sending, gone: bool)
    requires Ciphers(p, gone) && CipherReady(p) && p.slot0.Some?
    ensures After(Advanced(Send(p, retransmit, sending)), gone)
  {
    hide Ciphers, CipherReady, Send;
    SendCiphers(p, retransmit, sending, gone);
    var s := Send(p, retransmit, sending);
    CiphersElsewhere(s.0, s.0.(state := Closing), gone);
    AdvancedCiphers(s, gone);
  }

  lemma InTurnCiphers(p: Peer, m: Message, gone: bool)
    requires Ciphers(p, gone) && CipherReady(p) && p.slot0.Some? && p.hs.Some?
    ensures After(InTurn(p, m), gone)
  {
    hide Ciphers, CipherReady, Handle;
    HandleCiphers(p, m, gone);
    var q, r := Handle(p, m).0, InTurn(p, m);
    CiphersElsewhere(Settled(Handle(p, m)), Settled(r), gone);
    if r.1 >= 0 { CiphersElsewhere(q, r.0, gone); }
  }

  lemma {:induction false} DrainCiphers(p: Peer, res: int, gone: bool)
    requires Ciphers(p, gone) && CipherReady(p) && p.slot0.Some? && res >= 0
    ensures After(Drain(p, res), gone)
    decreases if p.hs.Some? then |p.hs.value.queue| else 0
  {
    hide Ciphers, CipherReady, InTurn;
    if p.hs.Some? {
      var h := p.hs.value;
      var k := Queued(h.queue, h.mseqR);
      if k < |h.queue| {
        var q := p.(hs := Some(h.(queue := DtlsPeer.Removed(h.queue, k))));
        CiphersElsewhere(p, q, gone);
        var r := InTurn(q, h.queue[k]);
        InTurnKeepsQueue(q, h.queue[k]);
        InTurnCiphers(q, h.queue[k], gone);
        if r.1 >= 0 { DrainCiphers(r.0, r.1, gone); }
      }
    }
  }

  lemma HandleHandshakeCiphers(p: Peer, m: Message, gone: bool)
    requires Ciphers(p, gone) && CipherReady(p) && p.slot0.Some?
    ensures Ciphers(Settled(HandleHandshake(p, m)), gone)
  {
    hide Ciphers, CipherReady, Handle, InTurn, Drain;
    var r := HandleHandshake(p, m);
    if m.length < HS_LENGTH {
    } else if p.hs.None? {
      HandleCiphers(p, m, gone);
    } else if m.number != p.hs.value.mseqR {
      CiphersElsewhere(p, r.0, gone);
    } else {
      var t := InTurn(p, m);
      InTurnCiphers(p, m, gone);
      if t.1 >= 0 { DrainCiphers(t.0, t.1, gone); }
    }
  }

  // ---------------------------------------------------------------- events

  /** An error code that does not close the connection is not that of a missing key block. */
  lemma AlertCiphers(r: (Peer, int), alert: Sending, gone: bool)
    requires Ciphers(Settled(r), gone) && r.0.slot0.Some?
    ensures Ciphers(AlertFromError(r.0, r.1, alert), gone)
  {
    hide Ciphers, Send;
    if -768 < r.1 < -256 || r.1 == -1 {
      CiphersElsewhere(Settled(r), r.0.(state := Closing), gone);
      SendCiphers(r.0.(state := Closing), false, alert, gone);
    }
  }

  lemma HandshakeCiphers(p: Peer, epoch: nat, m: Message, alert: Sending, gone: bool)
    requires Ciphers(p, gone) && p.slot0.Some? && (epoch == ExpectedEpoch(p) ==> CipherReady(p))
    ensures Ciphers(ReceiveHandshake(p, epoch, m, alert), gone)
  {
    hide Ciphers, CipherReady, HandleHandshake, AlertFromError;
    if epoch == ExpectedEpoch(p) {
      HandleHandshakeCiphers(p, m, gone);
      var r := HandleHandshake(p, m);
      if r.0.slot0.Some? { AlertCiphers(r, alert, gone); } else { NoSlotCiphers(Settled(r), r.0, gone); }
      if r.1 >= 0 { CiphersElsewhere(r.0, r.0.(sendqueue := []), gone); }
    }
  }

  lemma NoSlotCiphers(p: Peer, q: Peer, gone: bool)
    requires Ciphers(p, gone) && p.slot0.None? && q == p.(state := q.state)
    ensures Ciphers(q, gone)
  {
  }

  lemma ReceiveAlertCiphers(p: Peer, data: seq<byte>, reply: Sending, gone: bool)
    requires Ciphers(p, gone) && p.slot0.Some?
    ensures Ciphers(ReceiveAlert(p, data, reply), gone)
  {
    hide Ciphers, Send;
    CiphersElsewhere(p, p.(sendqueue := []), gone);
    if |data| >= 2 {
      var q := p.(sendqueue := [], alive := p.alive && data[0] != LEVEL_FATAL && data[1] != CLOSE_NOTIFY);
      CiphersElsewhere(p, q, gone);
      CiphersElsewhere(p, q.(state := Closed), gone);
      CiphersElsewhere(p, q.(state := Closing), gone);
      SendCiphers(q.(state := Closing), false, reply, gone);
    }
  }

  /** Opening a record frees parameters at most; under the epoch a server waits for it finds the
      ones that it will switch to. */
  lemma DecryptCiphers(p: Peer, epoch: nat, opens: bool, gone: bool)
    requires Ciphers(p, gone) && p.slot0.Some? && Decrypt(p, epoch, opens).Some?
    ensures var q := Decrypt(p, epoch, opens).value; Ciphers(q, gone) && (epoch == ExpectedEpoch(q) ==> CipherReady(q))
  {
  }

  lemma DeliveredCiphers(p: Peer, epoch: nat, content: Content, alert: Sending, gone: bool)
    requires Ciphers(p, gone) && p.slot0.Some? && (epoch == ExpectedEpoch(p) ==> CipherReady(p))
    ensures Ciphers(Delivered(p, epoch, content, alert), gone)
  {
    hide Ciphers, CipherReady, ReceiveAlert, ReceiveHandshake;
    match content
    case Alert(data, reply) => ReceiveAlertCiphers(p, data, reply, gone);
    case HandshakeMessage(m) => HandshakeCiphers(p, epoch, m, alert, gone);
    case ApplicationData => CiphersElsewhere(p, p.(sendqueue := []), gone);
    case Unreadable =>
  }

  lemma RecordCiphers(p: Peer, epoch: nat, opens: bool, content: Content, alert: Sending, gone: bool)
    requires Ciphers(p, gone) && p.slot0.Some?
    ensures Ciphers(ReceiveRecord(p, epoch, opens, content, alert), gone)
  {
    hide Ciphers, CipherReady, Decrypt, Delivered, AlertFromError;
    match Decrypt(p, epoch, opens)
    case None =>
      CiphersElsewhere(p, p.(state := Closing), gone);
      AlertCiphers((p, DECRYPT_ERROR), alert, gone);
      var q := AlertFromError(p, DECRYPT_ERROR, alert);
      CiphersElsewhere(q, q.(state := Closed, alive := false), gone);
    case Some(q) =>
      DecryptCiphers(p, epoch, opens, gone);
      DeliveredCiphers(q, epoch, content, alert, gone);
  }

  lemma RetransmitCiphers(p: Peer, i: nat, gone: bool)
    requires Ciphers(p, gone) && p.slot0.Some? && i < |p.sendqueue|
    ensures Ciphers(Retransmit(p, i), gone)
  {
    hide Ciphers, CipherReady, Use0, Use1;
    var q := p.(sendqueue := Retransmit(p, i).sendqueue);
    CiphersElsewhere(p, q, gone);
    RetransmitsUnder(p, i);
    Use0Ciphers(q, gone);
    if q.slot1.Some? { Use1Ciphers(q, gone); }
  }

  lemma RenegotiateCiphers(p: Peer, sending: Sending, gone: bool)
    requires Ciphers(p, gone) && p.slot0.Some?
    ensures Ciphers(Step(p, Renegotiate(sending)), gone)
  {
    if p.state.Connected? {
      var q := p.(hs := Some(Handshake(0, [], [])));
      hide Send;
      SendCiphers(q, true, sending, gone);
    }
  }

  lemma StepCiphers(p: Peer, e: Event, gone: bool)
    requires Ciphers(p, gone)
    ensures Ciphers(Step(p, e), gone)
  {
    hide Ciphers, Send, ReceiveRecord, Retransmit;
    if p.alive && p.slot0.Some? {
      match e
      case Receive(epoch, opens, content, alert) => RecordCiphers(p, epoch, opens, content, alert, gone);
      case Timeout(i) => if i < |p.sendqueue| { RetransmitCiphers(p, i, gone); }
      case Write(sending) => SendCiphers(p, false, sending, gone);
      case Close(sending) =>
        SendCiphers(p, false, sending, gone);
        var s := Send(p, false, sending).0;
        CiphersElsewhere(s, s.(state := Closing), gone);
      case Renegotiate(sending) => RenegotiateCiphers(p, sending, gone);
    }
  }

  lemma BeginCiphers(start: Start)
    ensures Ciphers(Begin(start), false)
  {
    match start
    case AsClient(sending) =>
    case AsServer(hello, alert) =>
      var p := Peer(Server, Init, Some(NewSecurity(0, 0).(rseq := 1)), None, None, [], true,
                    1, [], OtherKind, false, false, []);
      AnswerClientHelloCiphers(p, hello, false);
      hide AnswerClientHello;
      var r := AnswerClientHello(p, hello);
      AdvancedCiphers(r, false);
      hide AlertFromError;
      AlertCiphers(Advanced(r), alert, false);
  }

  lemma {:induction false} RunCiphers(p: Peer, es: seq<Event>, gone: bool)
    requires Ciphers(p, gone)
    ensures Ciphers(Run(p, es), gone)
  {
    hide Ciphers, Step;
    if es != [] {
      RunCiphers(p, es[..|es| - 1], gone);
      StepCiphers(Run(p, es[..|es| - 1]), es[|es| - 1], gone);
    }
  }

  // ---------------------------------------------------------------- theorems about whole runs

  /** Every switch of every run puts parameters with a key block to use, and who is connected has
      a cipher, whatever checks, key calculations and callbacks answer. */
  lemma SwitchesPromoteKeys(start: Start, es: seq<Event>)
    ensures var q := Run(Begin(start), es);
            && (forall k :: 0 <= k < |q.promoted| ==> q.promoted[k].encrypts)
            && (q.state.Connected? && q.slot0.Some? ==> q.slot0.value.encrypts)
  {
    BeginCiphers(start);
    RunCiphers(Begin(start), es, false);
  }

  /** Application data sent in any run reach a peer of opposite role with the same key block
      unchanged: they are sent only while connected. */
  lemma ApplicationDataArrive(start: Start, es: seq<Event>, sending: Sending, aes: Aes, r: Security, data: seq<byte>)
    requires var p := Run(Begin(start), es);
             p.slot0.Some? && p.state.Connected? && r.encrypts && r.keyBlock == p.slot0.value.keyBlock
    ensures var p := Run(Begin(start), es);
            var s := p.slot0.value;
            && s.encrypts
            && Open(aes, Other(p.role), r, Record(aes, p.role, s, APPLICATION_DATA, data)) == Some(data)
            && (p.alive ==> Run(Begin(start), es + [Write(sending)]).log == p.log + [Prepared(s.id, s.epoch, s.rseq)])
  {
    hide Record, Open, Step;
    SwitchesPromoteKeys(start, es);
    var p := Run(Begin(start), es);
    RoundTrip(aes, p.role, p.slot0.value, r, APPLICATION_DATA, data);
    assert (es + [Write(sending)])[..|es|] == es;
    if p.alive { WriteLogs(p, sending); }
  }

  lemma WriteLogs(p: Peer, sending: Sending)
    requires p.alive && p.slot0.Some? && p.state.Connected?
    ensures Step(p, Write(sending)).log == p.log + [Entry(p.slot0.value)]
  {
  }

  // ---------------------------------------------------------------- what was authenticated

  /** The content of a record was authenticated. */
  predicate Authentic(p: Peer, epoch: nat, opens: bool)
  {
    Lookup(p, epoch).Some? && Lookup(p, epoch).value.encrypts && opens
  }

  /** Until a peer closes, what it delivers without authentication is exactly what arrives under
      epoch 0 while a slot still holds the initial parameters. Once connected that is slot 1, and
      handshake messages of such records are dropped; alerts and data are not. */
  lemma UnauthenticatedIff(start: Start, es: seq<Event>, epoch: nat, opens: bool, m: Message, alert: Sending)
    requires NoWrap(Run(Begin(start), es)) && !Over(Run(Begin(start), es).state)
    ensures var p := Run(Begin(start), es);
            && p.slot0.Some?
            && (Decrypt(p, epoch, opens).Some? && !Authentic(p, epoch, opens) <==> epoch == 0 && Lookup(p, 0).Some?)
            && (p.state.Connected? ==>
                  && (Lookup(p, 0).Some? <==> p.slot1.Some? && p.slot1.value.epoch == 0)
                  && ReceiveHandshake(p, 0, m, alert) == p)
  {
    BeginCiphers(start);
    RunCiphers(Begin(start), es, false);
    BeginEpochs(start);
    RunEpochs(Begin(start), es);
    var p := Run(Begin(start), es);
    hide HandleHandshake, AlertFromError, Run, Begin, Epochs;
    EpochsHaveSlots(p);
  }

  lemma EpochsHaveSlots(p: Peer)
    requires Epochs(p)
    ensures Slots(p)
  {
  }

  /** After the first protected record that opens while connected, everything delivered in the
      rest of the run was authenticated, until the peer closes. */
  lemma AllAuthenticated(start: Start, es: seq<Event>, e: Event, more: seq<Event>, epoch: nat, opens: bool)
    requires var p := Run(Begin(start), es);
             NoWrap(p) && p.alive && p.state.Connected? && e.Receive? && Authentic(p, e.epoch, e.opens)
    ensures var q := Run(Begin(start), es + [e] + more);
            q.slot0.Some? && !Over(q.state) && Decrypt(q, epoch, opens).Some? ==> Authentic(q, epoch, opens)
  {
    hide Run, Begin, Epochs, Ciphers, Step, Decrypt, Authentic, Slots, NoWrap;
    var p := Run(Begin(start), es);
    BeginCiphers(start);
    RunCiphers(Begin(start), es, false);
    BeginEpochs(start);
    RunEpochs(Begin(start), es);
    RunThrough(Begin(start), es, e, more);
    EpochsHaveSlots(p);
    DecryptForgets(p, e);
    RunCiphers(Step(p, e), more, true);
    var q := Run(Step(p, e), more);
    if q.slot0.Some? && !Over(q.state) && Decrypt(q, epoch, opens).Some? { AuthenticNow(q, epoch, opens); }
  }

  lemma RunThrough(p: Peer, es: seq<Event>, e: Event, more: seq<Event>)
    ensures Run(p, es + [e] + more) == Run(Step(Run(p, es), e), more)
  {
    hide Step;
    assert (es + [e])[..|es|] == es;
    RunInParts(p, es + [e], more);
  }

  lemma DecryptForgets(p: Peer, e: Event)
    requires Ciphers(p, false) && Slots(p) && p.alive && p.state.Connected?
    requires e.Receive? && Authentic(p, e.epoch, e.opens)
    ensures Ciphers(Step(p, e), true)
  {
    var q := Decrypt(p, e.epoch, e.opens).value;
    DecryptCiphers(p, e.epoch, e.opens, false);
    assert Ciphers(q, true);
    hide Ciphers, Delivered;
    DeliveredCiphers(q, e.epoch, e.content, e.alert, true);
  }

  lemma AuthenticNow(p: Peer, epoch: nat, opens: bool)
    requires Ciphers(p, true) && p.slot0.Some? && !Over(p.state) && Decrypt(p, epoch, opens).Some?
    ensures Authentic(p, epoch, opens)
  {
  }
}
