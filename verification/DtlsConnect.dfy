/**
 * How a DTLS peer of either role becomes connected, what its events then do, and what they never do
 * (arduino/libraries/Dtls-s/dtls.c): causes and effects of single events at any peer of DtlsPeer.
 */
module DtlsConnect {
  import opened Bytes
  import opened Wrappers
  import opened DtlsRecord
  import opened DtlsPeer
  import opened DtlsRuns
  import DtlsKeys
  import Ccm

  // ---------------------------------------------------------------- becoming connected

  /** Handling `m`, and after it the queued messages whose turn comes, gets to a Finished message
      that verifies and, at a server, can be answered. */
  predicate Completes(role: Role, state: State, queue: seq<Message>, number: nat, m: Message)
    decreases |queue|
  {
    if state.WaitFinished? && m.kind.Finished?
    then m.answers.check >= 0 && (role.Server? ==> m.answers.reply.Result() >= 0)
    else
      var next := if m.kind.HelloRequest? then number else (number + 1) % 0x1_0000;
      var k := Queued(queue, next);
      && Onward(state, m).Some? && k < |queue|
      && Completes(role, Onward(state, m).value, DtlsPeer.Removed(queue, k), next, queue[k])
  }

  predicate Shaking(p: Peer)
  {
    p.state.AwaitServerHello? || p.state.WaitFinished?
  }

  predicate Switchable(p: Peer)
  {
    p.role.Server? && p.state.WaitFinished? ==> p.slot1.Some?
  }

  /** A handshake record under the expected epoch that opens, with the expected message, in a
      handshake that this message completes, alone or with those that wait for it. */
  predicate CompletedBy(p: Peer, e: Event)
  {
    && p.alive && p.slot0.Some? && p.hs.Some? && Shaking(p)
    && e.Receive? && e.content.HandshakeMessage?
    && e.epoch == ExpectedEpoch(p) && Decrypt(p, e.epoch, e.opens).Some?
    && var m := e.content.message;
       && m.length >= HS_LENGTH && m.number == p.hs.value.mseqR
       && Completes(p.role, p.state, p.hs.value.queue, p.hs.value.mseqR, m)
  }

  /** One message of a handshake: it completes it, or leads onward, or fails. */
  predicate Progress(p: Peer, m: Message, r: (Peer, int))
  {
    if p.state.WaitFinished? && m.kind.Finished? && m.answers.check >= 0
       && (p.role.Server? ==> m.answers.reply.Result() >= 0)
    then r.1 >= 0 && r.0.hs.None? && r.0.state.Connected?
    else
      && r.0.role == p.role && !r.0.state.Connected?
      && (if Onward(p.state, m).Some?
          then r.1 >= 0 && r.0.slot0.Some? && r.0.hs.Some? && r.0.state == Onward(p.state, m).value && Switchable(r.0)
          else r.1 < 0)
  }

  lemma ServerHelloProgress(p: Peer, a: Answers)
    requires p.slot0.Some? && p.state.AwaitServerHello?
    ensures var r := AnswerServerHello(p, a);
            && r.0.role == p.role && r.0.hs == p.hs && (r.1 >= 0 <==> a.keys.Some? && a.reply.Result() >= 0)
            && if r.1 >= 0 then r.0.state.WaitFinished? && r.0.slot0.Some? && r.0.slot1.Some? else !r.0.state.Connected?
  {
    hide Send;
    if a.keys.Some? { SendKeeps(Switch(KeyBlocks(p, a.keys).0), true, a.reply); }
  }

  lemma FinishedProgress(p: Peer, a: Answers)
    requires p.slot0.Some? && p.state.WaitFinished? && Switchable(p) && a.check >= 0
    ensures var r := AcceptFinished(p, a);
            && r.0.role == p.role
            && if p.role.Server? ==> a.reply.Result() >= 0 then r.1 >= 0 && r.0.hs.None? && r.0.state.Connected?
               else r.1 < 0 && r.0.state.WaitFinished?
  {
    hide Send;
    var w := Switch(p).(misfinished := p.misfinished || p.opener == ServerHello);
    if w.slot0.Some? { SendKeeps(w, true, a.reply); }
  }

  lemma HandleProgress(p: Peer, m: Message)
    requires p.slot0.Some? && p.hs.Some? && Shaking(p) && Switchable(p)
    ensures Progress(p, m, Handle(p, m))
  {
    hide Send, AnswerServerHello, AcceptFinished, AnswerClientHello, AnswerHelloRequest, Later;
    var q, a := p.(sendqueue := []), m.answers;
    SendKeeps(q, true, a.reply);
    if p.state.AwaitServerHello? { ServerHelloProgress(q, a); }
    if p.state.WaitFinished? && a.check >= 0 { FinishedProgress(q, a); }
  }

  lemma InTurnProgress(p: Peer, m: Message)
    requires p.slot0.Some? && p.hs.Some? && Shaking(p) && Switchable(p)
    ensures Progress(p, m, InTurn(p, m))
  {
    hide Handle, Onward;
    HandleProgress(p, m);
  }

  lemma {:induction false} TurnConnectsIff(p: Peer, m: Message)
    requires p.slot0.Some? && p.hs.Some? && Shaking(p) && Switchable(p)
    ensures Turn(p, m).0.state.Connected? <==> Completes(p.role, p.state, p.hs.value.queue, p.hs.value.mseqR, m)
    ensures Turn(p, m).0.state.Connected? ==> Turn(p, m).1 >= 0 && Turn(p, m).0.hs.None?
    decreases |p.hs.value.queue|
  {
    InTurnProgress(p, m);
    InTurnNumber(p, m);
    TurnGoesOn(p, m);
    TurnResult(p, m);
    CompletesOn(p.role, p.state, p.hs.value.queue, p.hs.value.mseqR, m);
    if Onward(p.state, m).Some? { OnwardShakes(p.state, m); }
    hide InTurn, Onward, Turn, Later, DtlsPeer.Removed, Completes;
    var r := InTurn(p, m);
    if r.1 >= 0 && Popped(r.0).Some? {
      var q := Popped(r.0).value;
      TurnConnectsIff(q.0, q.1);
    }
  }

  lemma CompletesOn(role: Role, state: State, queue: seq<Message>, number: nat, m: Message)
    ensures var next := if m.kind.HelloRequest? then number else (number + 1) % 0x1_0000;
            var k := Queued(queue, next);
            (Completes(role, state, queue, number, m) <==>
               if state.WaitFinished? && m.kind.Finished?
               then m.answers.check >= 0 && (role.Server? ==> m.answers.reply.Result() >= 0)
               else
                 && Onward(state, m).Some? && k < |queue|
                 && Completes(role, Onward(state, m).value, DtlsPeer.Removed(queue, k), next, queue[k]))
  {
    hide Onward, DtlsPeer.Removed;
  }

  lemma OnwardShakes(state: State, m: Message)
    requires (state.AwaitServerHello? || state.WaitFinished?) && Onward(state, m).Some?
    ensures Onward(state, m).value.AwaitServerHello? || Onward(state, m).value.WaitFinished?
  {
  }

  lemma TurnResult(p: Peer, m: Message)
    requires p.slot0.Some? && p.hs.Some?
    ensures var r := InTurn(p, m);
            Turn(p, m) == if r.1 < 0 || Popped(r.0).None? then r else Turn(Popped(r.0).value.0, Popped(r.0).value.1)
  {
    hide InTurn;
  }

  /** A peer in no handshake state does not become connected by any message. */
  lemma {:induction false} OthersStay(p: Peer, m: Message)
    requires p.slot0.Some? && !Shaking(p) && !p.state.Connected?
    ensures !Handle(p, m).0.state.Connected? && !Shaking(Handle(p, m).0)
    ensures Handle(p, m).0.slot0 == p.slot0 && (Handle(p, m).0.hs == p.hs)
  {
  }

  lemma {:induction false} OthersDrain(p: Peer, res: int)
    requires p.slot0.Some? && !Shaking(p) && !p.state.Connected?
    ensures !Drain(p, res).0.state.Connected?
    decreases if p.hs.Some? then |p.hs.value.queue| else 0
  {
    hide Handle;
    if Popped(p).Some? {
      var (q, m) := Popped(p).value;
      OthersStay(q, m);
      InTurnKeepsQueue(q, m);
      var r := InTurn(q, m);
      if r.1 >= 0 { OthersDrain(r.0, r.1); }
    }
  }

  lemma HandshakeConnectsIff(p: Peer, m: Message)
    requires p.slot0.Some? && !p.state.Connected? && Switchable(p)
    ensures HandleHandshake(p, m).0.state.Connected?
       <==> (p.hs.Some? && Shaking(p) && m.length >= HS_LENGTH && m.number == p.hs.value.mseqR
             && Completes(p.role, p.state, p.hs.value.queue, p.hs.value.mseqR, m))
    ensures var r := HandleHandshake(p, m); r.0.state.Connected? ==> r.1 >= 0 && r.0.hs.None?
  {
    hide Handle, InTurn, Drain, Completes;
    if m.length < HS_LENGTH {
    } else if p.hs.None? {
      if m.kind.ClientHello? || m.kind.HelloRequest? { HelloDoesNotConnect(p, m); }
    } else if m.number == p.hs.value.mseqR {
      if Shaking(p) {
        TurnConnectsIff(p, m);
      } else {
        OthersInTurn(p, m);
        var r := InTurn(p, m);
        if r.1 >= 0 { OthersDrain(r.0, r.1); }
      }
    }
  }

  lemma HelloDoesNotConnect(p: Peer, m: Message)
    requires p.slot0.Some? && !p.state.Connected? && (m.kind.ClientHello? || m.kind.HelloRequest?)
    ensures !Handle(p, m).0.state.Connected?
  {
  }

  lemma OthersInTurn(p: Peer, m: Message)
    requires p.slot0.Some? && p.hs.Some? && !Shaking(p) && !p.state.Connected?
    ensures var q := InTurn(p, m).0; q.slot0.Some? && !Shaking(q) && !q.state.Connected?
  {
    hide Handle;
    OthersStay(p, m);
  }

  lemma AlertNeverConnects(p: Peer, err: int, alert: Sending)
    requires p.slot0.Some?
    ensures AlertFromError(p, err, alert).state.Connected? ==> p.state.Connected?
  {
    hide Send;
    SendKeeps(p.(state := Closing), false, alert);
  }

  lemma DeliveredConnectsIff(p: Peer, epoch: nat, content: Content, alert: Sending)
    requires p.slot0.Some? && !p.state.Connected? && (epoch == ExpectedEpoch(p) ==> Switchable(p))
    ensures Delivered(p, epoch, content, alert).state.Connected?
       <==> (content.HandshakeMessage? && epoch == ExpectedEpoch(p)
             && HandleHandshake(p, content.message).0.state.Connected?)
  {
    hide ReceiveAlert, HandleHandshake, AlertFromError, Send;
    match content
    case Alert(data, reply) => AlertDoesNotConnect(p, data, reply);
    case HandshakeMessage(m) =>
      if epoch == ExpectedEpoch(p) {
        var r := HandleHandshake(p, m);
        HandshakeConnectsIff(p, m);
        if r.0.slot0.Some? { AlertNeverConnects(r.0, r.1, alert); }
      }
    case ApplicationData =>
    case Unreadable =>
  }

  lemma AlertDoesNotConnect(p: Peer, data: seq<byte>, reply: Sending)
    requires p.slot0.Some? && !p.state.Connected?
    ensures !ReceiveAlert(p, data, reply).state.Connected?
  {
    hide Send;
    if |data| >= 2 {
      var q := p.(sendqueue := [], alive := p.alive && data[0] != LEVEL_FATAL && data[1] != CLOSE_NOTIFY);
      SendKeeps(q.(state := Closing), false, reply);
    }
  }

  lemma OpenedSwitchable(p: Peer, epoch: nat, opens: bool)
    requires Epochs(p) && NoWrap(p) && Decrypt(p, epoch, opens).Some?
    ensures var q := Decrypt(p, epoch, opens).value;
            && q == p.(slot1 := q.slot1) && ExpectedEpoch(q) == ExpectedEpoch(p)
            && (epoch == ExpectedEpoch(p) ==> Switchable(q))
  {
    DecryptEpochs(p, epoch, opens);
    hide Numbered, Ordered, UpTo, Alone;
  }

  lemma RecordConnectsIff(p: Peer, e: Event)
    requires Epochs(p) && NoWrap(p) && p.alive && p.slot0.Some? && !p.state.Connected? && e.Receive?
    ensures ReceiveRecord(p, e.epoch, e.opens, e.content, e.alert).state.Connected? <==> CompletedBy(p, e)
  {
    hide Epochs, NoWrap, Delivered, AlertFromError, HandleHandshake, Completes, Decrypt, ExpectedEpoch, Later;
    match Decrypt(p, e.epoch, e.opens)
    case None =>
    case Some(q) =>
      OpenedSwitchable(p, e.epoch, e.opens);
      DeliveredConnectsIff(q, e.epoch, e.content, e.alert);
      if e.content.HandshakeMessage? && e.epoch == ExpectedEpoch(p) { HandshakeConnectsIff(q, e.content.message); }
  }

  lemma CallsDoNotConnect(p: Peer, e: Event)
    requires p.slot0.Some? && !p.state.Connected? && !e.Receive?
    ensures !Step(p, e).state.Connected?
  {
    hide Send;
    if !e.Timeout? { SendKeeps(p, false, e.sending); }
  }

  /** In every run of either role a peer becomes connected exactly by such a record. */
  lemma ConnectsIff(start: Start, es: seq<Event>, e: Event)
    requires NoWrap(Run(Begin(start), es)) && !Run(Begin(start), es).state.Connected?
    ensures Step(Run(Begin(start), es), e).state.Connected? <==> CompletedBy(Run(Begin(start), es), e)
  {
    BeginEpochs(start);
    RunEpochs(Begin(start), es);
    var p := Run(Begin(start), es);
    assert p.slot0.Some?;
    hide Run, Begin, Epochs, NoWrap, ReceiveRecord, Decrypt, Completes, Later;
    if e.Receive? && p.alive {
      RecordConnectsIff(p, e);
    } else if !e.Receive? {
      CallsDoNotConnect(p, e);
    }
  }

  lemma FinishedStep(p: Peer, e: Event)
    requires CompletedBy(p, e) && p.state.WaitFinished? && e.content.message.kind.Finished? && Switchable(p)
    requires p.role.Server? ==> Decrypt(p, e.epoch, e.opens).value.slot1.Some?
    ensures var q, d := Step(p, e), Decrypt(p, e.epoch, e.opens).value;
            && q.state.Connected? && q.hs.None? && q.sendqueue == [] && q.alive && q.role == p.role
            && if p.role.Client? then q.slot0 == p.slot0 && q.slot1 == d.slot1 && q.log == p.log
               else q.slot0 == Some(Use(d.slot1.value)) && q.slot1 == p.slot0 && q.log == p.log + [Entry(d.slot1.value)]
  {
    var d := Decrypt(p, e.epoch, e.opens).value;
    var m := e.content.message;
    assert d == p.(slot1 := d.slot1);
    var r := Handle(d, m);
    assert r.0.hs.None? && InTurn(d, m) == r;
    assert HandleHandshake(d, m) == r;
  }

  /** A Finished message that completes the handshake itself: at a client nothing changes but the
      state; a server goes over to the other parameters and answers under them. */
  lemma FinishedConnects(start: Start, es: seq<Event>, e: Event)
    requires NoWrap(Run(Begin(start), es))
    requires CompletedBy(Run(Begin(start), es), e) && Run(Begin(start), es).state.WaitFinished?
    requires e.content.message.kind.Finished?
    ensures var p := Run(Begin(start), es);
            var q, d := Step(p, e), Decrypt(p, e.epoch, e.opens).value;
            && q.state.Connected? && q.hs.None? && q.sendqueue == [] && q.alive
            && if p.role.Client? then q.slot0 == p.slot0 && q.slot1 == d.slot1 && q.log == p.log
               else d.slot1.Some? && q.slot0 == Some(Use(d.slot1.value)) && q.slot1 == p.slot0
                    && q.log == p.log + [Entry(d.slot1.value)]
  {
    BeginEpochs(start);
    RunEpochs(Begin(start), es);
    var p := Run(Begin(start), es);
    hide Run, Begin, Step, Epochs, Completes;
    OpenedSwitchable(p, e.epoch, e.opens);
    ReadySwitchable(p, e.epoch, e.opens);
    FinishedStep(p, e);
  }

  lemma ReadySwitchable(p: Peer, epoch: nat, opens: bool)
    requires Decrypt(p, epoch, opens).Some? && Switchable(Decrypt(p, epoch, opens).value) && p.slot0.Some?
    ensures Switchable(p) && (p.role.Server? && p.state.WaitFinished? ==> Decrypt(p, epoch, opens).value.slot1.Some?)
  {
  }

  /** A client that waits for the Finished message and gets it is connected, and then its data go out. */
  lemma ClientConnects(sending: Sending, es: seq<Event>, e: Event, write: Sending)
    requires NoWrap(Run(Begin(AsClient(sending)), es))
    requires var p := Run(Begin(AsClient(sending)), es);
             && p.alive && p.slot0.Some? && p.state.WaitFinished? && p.hs.Some?
             && e.Receive? && e.epoch == p.slot0.value.epoch && e.opens && e.content.HandshakeMessage?
             && var m := e.content.message;
                m.kind.Finished? && m.length >= HS_LENGTH && m.number == p.hs.value.mseqR && m.answers.check >= 0
    ensures var p := Run(Begin(AsClient(sending)), es);
            var q := Step(p, e);
            && q.state.Connected? && q.alive && q.hs.None? && q.slot0 == p.slot0
            && Step(q, Write(write)).log == p.log + [Entry(p.slot0.value)]
  {
    var p := Run(Begin(AsClient(sending)), es);
    BeginQuiet(AsClient(sending));
    RunQuiet(Begin(AsClient(sending)), es, Client);
    hide Run, Begin, Step;
    assert CompletedBy(p, e);
    FinishedConnects(AsClient(sending), es, e);
    DtlsKeys.WriteLogs(Step(p, e), write);
  }

  // ---------------------------------------------------------------- other effects of events

  /** A peer is destroyed by a fatal alert, by a close notify, and by a record that does not open
      before it is connected, and by nothing else. */
  lemma DestroyedIff(p: Peer, e: Event)
    requires p.alive && p.slot0.Some?
    ensures !Step(p, e).alive
       <==> (e.Receive?
             && match Decrypt(p, e.epoch, e.opens)
                case None => p.state.Init? || p.state.AwaitServerHello? || p.state.WaitFinished?
                case Some(_) => e.content.Alert? && |e.content.data| >= 2
                                && (e.content.data[0] == 2 || e.content.data[1] == 0))
  {
    if e.Receive? {
      RecordDestroys(p, e);
    } else if !e.Timeout? {
      hide Send;
      SendKeeps(p, false, e.sending);
      SendKeeps(p.(hs := Some(Handshake(0, [], []))), true, e.sending);
    }
  }

  lemma RecordDestroys(p: Peer, e: Event)
    requires p.alive && p.slot0.Some? && e.Receive?
    ensures !Step(p, e).alive
       <==> match Decrypt(p, e.epoch, e.opens)
            case None => p.state.Init? || p.state.AwaitServerHello? || p.state.WaitFinished?
            case Some(_) => e.content.Alert? && |e.content.data| >= 2
                            && (e.content.data[0] == 2 || e.content.data[1] == 0)
  {
    DecryptKeeps(p, e.epoch, e.opens);
    hide Send, HandleHandshake, AlertFromError, Decrypt;
    match Decrypt(p, e.epoch, e.opens)
    case None => AlertAlive(p, DECRYPT_ERROR, e.alert);
    case Some(q) =>
      match e.content
      case Alert(data, reply) =>
        if |data| >= 2 {
          var t := q.(sendqueue := [], alive := q.alive && data[0] != LEVEL_FATAL && data[1] != CLOSE_NOTIFY);
          SendKeeps(t.(state := Closing), false, reply);
        }
      case HandshakeMessage(m) =>
        HandshakeAlive(q, m);
        if HandleHandshake(q, m).0.slot0.Some? {
          AlertAlive(HandleHandshake(q, m).0, HandleHandshake(q, m).1, e.alert);
        }
      case ApplicationData =>
      case Unreadable =>
  }

  lemma AlertAlive(p: Peer, err: int, alert: Sending)
    requires p.slot0.Some?
    ensures AlertFromError(p, err, alert).alive == p.alive
  {
  }

  lemma HandleAlive(p: Peer, m: Message)
    requires p.slot0.Some?
    ensures Handle(p, m).0.alive == p.alive
  {
    hide Send, AnswerServerHello, AcceptFinished, AnswerClientHello, AnswerHelloRequest, Later;
    var q, a := p.(sendqueue := []), m.answers;
    SendKeeps(q, true, a.reply);
    SendKeeps(q, false, a.verify);
    AnswersAlive(q, m);
    HelloAnswersAlive(q, m);
    HelloAnswersAlive(Send(q, false, a.verify).0, m);
  }

  lemma AnswersAlive(p: Peer, m: Message)
    requires p.slot0.Some?
    ensures AnswerServerHello(p, m.answers).0.alive == p.alive && AcceptFinished(p, m.answers).0.alive == p.alive
  {
  }

  lemma HelloAnswersAlive(p: Peer, m: Message)
    requires p.slot0.Some?
    ensures AnswerClientHello(p, m).0.alive == p.alive && AnswerHelloRequest(p, m.answers).0.alive == p.alive
  {
  }

  lemma {:induction false} DrainAlive(p: Peer, res: int)
    requires p.slot0.Some?
    ensures Drain(p, res).0.alive == p.alive
    decreases if p.hs.Some? then |p.hs.value.queue| else 0
  {
    hide Handle;
    if Popped(p).Some? {
      var (q, m) := Popped(p).value;
      HandleAlive(q, m);
      InTurnKeepsQueue(q, m);
      var r := InTurn(q, m);
      if r.1 >= 0 { DrainAlive(r.0, r.1); }
    }
  }

  lemma HandshakeAlive(p: Peer, m: Message)
    requires p.slot0.Some?
    ensures HandleHandshake(p, m).0.alive == p.alive
  {
    hide Handle, Drain;
    HandleAlive(p, m);
    if p.hs.Some? && m.length >= HS_LENGTH && m.number == p.hs.value.mseqR {
      var r := InTurn(p, m);
      if r.1 >= 0 { DrainAlive(r.0, r.1); }
    }
  }

  /** Data go out exactly while connected, one record each; otherwise nothing happens. */
  lemma WritesIff(p: Peer, sending: Sending)
    requires p.slot0.Some?
    ensures var q := Step(p, Write(sending));
            && (|q.log| == |p.log| + 1 <==> p.alive && p.state.Connected?)
            && (q == p <==> !(p.alive && p.state.Connected?))
            && q.state == p.state && q.sendqueue == p.sendqueue
  {
    assert |Use0(p).log| == |p.log| + 1;
  }

  /** Only a connected peer renegotiates; a client then awaits a Server Hello. */
  lemma RenegotiatesIff(p: Peer, sending: Sending)
    requires p.slot0.Some?
    ensures var q := Step(p, Renegotiate(sending));
            if p.alive && p.state.Connected? then
              && q.hs == Some(Handshake(0, [], [])) && |q.log| == |p.log| + 1
              && (q.state.AwaitServerHello? <==> p.role.Client? && sending.Result() >= 0)
              && (!q.state.AwaitServerHello? ==> q.state.Connected?)
            else q == p
  {
  }

  /** An early message waits exactly if it is not too long and none with its number waits. */
  lemma WaitsIff(p: Peer, m: Message)
    requires p.slot0.Some? && p.hs.Some? && m.number != p.hs.value.mseqR && m.length >= 12
    ensures var q, h := HandleHandshake(p, m).0, p.hs.value;
            && q.hs.Some? && q == p.(hs := q.hs) && HandleHandshake(p, m).1 == 0
            && (if m.number > h.mseqR && m.length <= 128
                   && (forall i :: 0 <= i < |h.queue| ==> h.queue[i].number != m.number)
                then q.hs == Some(h.(queue := h.queue + [m])) else q == p)
  {
  }

  /** Handshake messages in a record of another epoch than the expected one are ignored. */
  lemma WrongEpochIsIgnored(p: Peer, epoch: nat, opens: bool, m: Message, alert: Sending)
    requires p.alive && p.slot0.Some? && Decrypt(p, epoch, opens).Some? && epoch != ExpectedEpoch(p)
    ensures Step(p, Receive(epoch, opens, HandshakeMessage(m), alert)) == Decrypt(p, epoch, opens).value
  {
    hide HandleHandshake;
  }

  /** Which messages a state does not expect. */
  predicate Unexpected(state: State, kind: Kind)
  {
    match kind
    case HelloVerifyRequest => !state.AwaitServerHello?
    case ServerHello => !state.AwaitServerHello?
    case Finished => !state.WaitFinished?
    case ClientHello => !state.Connected?
    case HelloRequest => false
    case OtherKind => true
  }

  /** An unexpected message in its turn closes the connection, with one alert. */
  lemma UnexpectedCloses(p: Peer, e: Event)
    requires p.alive && p.slot0.Some? && p.hs.Some? && e.Receive? && e.content.HandshakeMessage?
    requires e.epoch == ExpectedEpoch(p) && Decrypt(p, e.epoch, e.opens).Some?
    requires var m := e.content.message;
             m.length >= 12 && m.number == p.hs.value.mseqR && Unexpected(p.state, m.kind)
    ensures var q := Step(p, e);
            && q.state.Closing? && q.alive && q.slot0 == Some(Use(p.slot0.value))
            && q.log == p.log + [Entry(p.slot0.value)]
  {
    var d := Decrypt(p, e.epoch, e.opens).value;
    assert d == p.(slot1 := d.slot1);
    assert Handle(d, e.content.message) == (d.(sendqueue := []), UNEXPECTED_MESSAGE);
  }

  /** A close notify is answered once. */
  lemma CloseNotify(p: Peer, data: seq<byte>, reply: Sending)
    requires p.slot0.Some? && |data| >= 2 && data[1] == 0
    ensures var q := ReceiveAlert(p, data, reply);
            && !q.alive && q.sendqueue == []
            && if p.state.Closing? then q.state.Closed? && q.log == p.log
               else q.state.Closing? && q.log == p.log + [Entry(p.slot0.value)]
  {
  }

  /** The record opens and carries a close notify. */
  predicate Notifies(p: Peer, e: Event)
  {
    && e.Receive? && Decrypt(p, e.epoch, e.opens).Some?
    && e.content.Alert? && |e.content.data| >= 2 && e.content.data[1] == 0
  }

  /** The peer's own side closes with one alert, and the close notify that answers it ends the peer. */
  lemma CloseIsAnswered(p: Peer, sending: Sending, e: Event)
    requires p.alive && p.slot0.Some?
    ensures var q := Step(p, Close(sending));
            && q.state.Closing? && q.alive && q.slot0.Some? && q.slot1 == p.slot1
            && q.log == p.log + [Entry(p.slot0.value)] && q.sendqueue == p.sendqueue && q.hs == p.hs
            && (Notifies(q, e) ==> Step(q, e).state.Closed? && !Step(q, e).alive && Step(q, e).log == q.log)
  {
    hide Lookup;
    var q := Step(p, Close(sending));
    if Notifies(q, e) {
      CloseNotify(Decrypt(q, e.epoch, e.opens).value, e.content.data, e.content.reply);
      hide ReceiveAlert, Send;
    }
  }

  /** Which codes close the connection: those of fatal alerts, those of warnings but for a close
      notify, and -1; all others change nothing. */
  lemma ErrorCodes(p: Peer, err: int, alert: Sending)
    requires p.slot0.Some?
    ensures var q := AlertFromError(p, err, alert);
            -0x2FF <= err <= -0x101 || err == -1 ==> q.state.Closing? && q.log == p.log + [Entry(p.slot0.value)]
    ensures err <= -0x300 || -0x100 <= err < -1 || err >= 0 ==> AlertFromError(p, err, alert) == p
  {
  }

  /** Alerts and application data end the retransmissions, and the latter change nothing else. */
  lemma AnswersEndRetransmissions(p: Peer, e: Event)
    requires p.alive && p.slot0.Some? && e.Receive? && Decrypt(p, e.epoch, e.opens).Some?
    ensures var d, q := Decrypt(p, e.epoch, e.opens).value, Step(p, e);
            && (e.content.Alert? ==> q.sendqueue == [])
            && (e.content.ApplicationData? || (e.content.Alert? && |e.content.data| < 2) ==> q == d.(sendqueue := []))
            && (e.content.Unreadable? ==> q == d)
  {
    hide Lookup, HandleHandshake;
  }

  // ---------------------------------------------------------------- retransmission

  function Timeouts(p: Peer, i: nat, n: nat): Peer
  {
    if n == 0 then p else Step(Timeouts(p, i, n - 1), Timeout(i))
  }

  /** A message that waits for its answer is sent again at most 7 times, each time as one more record
      under the parameters of its epoch, and then given up. */
  lemma {:induction false} SentAgain(p: Peer, i: nat, n: nat)
    requires p.alive && p.slot0.Some? && i < |p.sendqueue| && p.sendqueue[i].count == 0 && n <= 8
    requires Lookup(p, p.sendqueue[i].epoch).Some?
    ensures var q := Timeouts(p, i, n);
            && q.alive && q.slot0.Some? && q.state == p.state && q.hs == p.hs
            && |q.log| == |p.log| + (if n <= 7 then n else 7)
            && AllUnder(q.log, |p.log|, p.sendqueue[i].epoch)
            && (if n <= 7 then q.sendqueue == p.sendqueue[i := Node(p.sendqueue[i].epoch, n)]
                else q.sendqueue == p.sendqueue[..i] + p.sendqueue[i + 1..])
            && Lookup(q, p.sendqueue[i].epoch).Some?
  {
    if n == 0 {
      assert AllUnder(p.log, |p.log|, p.sendqueue[i].epoch);
      assert p.sendqueue[i := Node(p.sendqueue[i].epoch, 0)] == p.sendqueue;
    } else {
      hide Step, Lookup, AllUnder;
      SentAgain(p, i, n - 1);
      var q := Timeouts(p, i, n - 1);
      OneMoreTimeout(q, i);
      OneMoreUnder(q.log, Timeouts(p, i, n).log, |p.log|, p.sendqueue[i].epoch);
      SameOthers(p.sendqueue, i, Node(p.sendqueue[i].epoch, n - 1), Node(p.sendqueue[i].epoch, n));
    }
  }

  predicate AllUnder(log: seq<Prepared>, from: nat, epoch: nat)
  {
    forall k :: from <= k < |log| ==> log[k].epoch == epoch
  }

  lemma OneMoreUnder(log: seq<Prepared>, more: seq<Prepared>, from: nat, epoch: nat)
    requires AllUnder(log, from, epoch)
    requires more == log || (|more| == |log| + 1 && more[..|log|] == log && more[|log|].epoch == epoch)
    ensures AllUnder(more, from, epoch)
  {
    forall k | from <= k < |log| ensures more[k].epoch == epoch {
      assert more[..|log|][k] == log[k];
    }
  }

  lemma SameOthers(s: seq<Node>, i: nat, a: Node, b: Node)
    requires i < |s|
    ensures s[i := a][i := b] == s[i := b] && s[i := a][..i] == s[..i] && s[i := a][i + 1..] == s[i + 1..]
  {
  }

  lemma OneMoreTimeout(p: Peer, i: nat)
    requires p.alive && p.slot0.Some? && i < |p.sendqueue| && Lookup(p, p.sendqueue[i].epoch).Some?
    ensures var q, n := Step(p, Timeout(i)), p.sendqueue[i];
            && q.alive && q.slot0.Some? && q.state == p.state && q.hs == p.hs && Lookup(q, n.epoch).Some?
            && (if n.count >= 7 then q.log == p.log && q.sendqueue == p.sendqueue[..i] + p.sendqueue[i + 1..]
                else |q.log| == |p.log| + 1 && q.log[..|p.log|] == p.log && q.log[|p.log|].epoch == n.epoch
                     && q.sendqueue == p.sendqueue[i := Node(n.epoch, n.count + 1)])
  {
  }

  // ---------------------------------------------------------------- how a peer begins

  /** A client has used one number of the initial parameters, and expects the first message. */
  lemma FreshClient(sending: Sending)
    ensures var p := Connect(sending);
            && p.role.Client? && p.alive && p.slot0 == Some(Security(0, false, 0, 1, Ccm.Zeros(40))) && p.slot1.None?
            && p.hs == Some(Handshake(0, [], [])) && p.log == [Prepared(0, 0, 0)]
            && (if sending.Result() >= 0 then p.state.AwaitServerHello? else p.state.Init?)
            && p.sendqueue == if sending.Written? then [Node(0, 0)] else []
  {
  }

  /** A server has used two, one of them for the Hello Verify Request, and has keyed the next
      parameters. */
  lemma FreshServer(m: Message, alert: Sending)
    requires m.answers.update >= 0 && m.answers.reply.Result() >= 0 && m.answers.keys.Some?
    ensures var p := Accept(m, alert);
            && p.role.Server? && p.alive && p.state.WaitFinished?
            && p.slot0 == Some(Security(0, false, 0, 2, Ccm.Zeros(40)))
            && p.slot1 == Some(Security(1, true, 1, 0, m.answers.keys.value))
            && p.hs == Some(Handshake((m.number + 1) % 0x1_0000, [], [])) && p.log == [Prepared(0, 0, 1)]
  {
  }

  // ---------------------------------------------------------------- a client from beginning to end

  function Handshaking(kb: KeyBlock): seq<Event>
  {
    [Arrives(0, HelloVerifyRequest, 0, kb), Arrives(0, ServerHello, 1, kb), Arrives(1, Finished, 2, kb), Write(SENT)]
  }

  function Client0(): Peer
  {
    Peer(Client, AwaitServerHello, Some(NewSecurity(0, 0).(rseq := 1)), None, Some(Handshake(0, [], [])),
         [Node(0, 0)], true, 1, [Prepared(0, 0, 0)], OtherKind, false, false, [])
  }

  function Client1(): Peer
  {
    Client0().(slot0 := Some(NewSecurity(0, 0).(rseq := 2)), hs := Some(Handshake(1, [], [Dispatch(0, true)])),
               log := [Prepared(0, 0, 0), Prepared(0, 0, 1)])
  }

  function Client2(kb: KeyBlock): Peer
  {
    Peer(Client, WaitFinished, Some(DtlsRuns.Keyed(1, 1, 1, kb)), Some(NewSecurity(0, 0).(rseq := 2)),
         Some(Handshake(2, [], [Dispatch(0, true), Dispatch(1, true)])), [Node(1, 0)], true, 2,
         [Prepared(0, 0, 0), Prepared(0, 0, 1), Prepared(1, 1, 0)], ServerHello, false, false, Once(kb))
  }

  function Client3(kb: KeyBlock): Peer
  {
    Client2(kb).(state := Connected, slot1 := None, hs := None, sendqueue := [])
  }

  function Client4(kb: KeyBlock): Peer
  {
    Client3(kb).(slot0 := Some(DtlsRuns.Keyed(1, 1, 2, kb)),
                 log := [Prepared(0, 0, 0), Prepared(0, 0, 1), Prepared(1, 1, 0), Prepared(1, 1, 1)])
  }

  lemma ClientSteps0(kb: KeyBlock)
    ensures Begin(AsClient(SENT)) == Client0()
    ensures Step(Client0(), Arrives(0, HelloVerifyRequest, 0, kb)) == Client1()
  {
    var nodes: seq<Node> := [];
    assert nodes + [Node(0, 0)] == [Node(0, 0)];
    var none: seq<Dispatch> := [];
    assert none + [Dispatch(0, true)] == [Dispatch(0, true)];
    var m := Message(HelloVerifyRequest, 0, HS_LENGTH, Fine(kb));
    assert [Prepared(0, 0, 0)] + [Prepared(0, 0, 1)] == [Prepared(0, 0, 0), Prepared(0, 0, 1)];
    assert InTurn(Client0(), m) == (Client1(), 1);
    assert Drain(Client1(), 1) == (Client1(), 1);
  }

  lemma ClientSteps1(kb: KeyBlock)
    ensures Step(Client1(), Arrives(0, ServerHello, 1, kb)) == Client2(kb)
  {
    var nodes: seq<Node> := [];
    assert nodes + [Node(1, 0)] == [Node(1, 0)];
    var m := Message(ServerHello, 1, HS_LENGTH, Fine(kb));
    assert [Dispatch(0, true)] + [Dispatch(1, true)] == [Dispatch(0, true), Dispatch(1, true)];
    assert [Prepared(0, 0, 0), Prepared(0, 0, 1)] + [Prepared(1, 1, 0)]
        == [Prepared(0, 0, 0), Prepared(0, 0, 1), Prepared(1, 1, 0)];
    var some: seq<Security> := [];
    assert some + [DtlsRuns.Keyed(1, 1, 0, kb)] == Once(kb);
    assert InTurn(Client1(), m) == (Client2(kb), 1);
    assert Drain(Client2(kb), 1) == (Client2(kb), 1);
  }

  lemma ClientSteps2(kb: KeyBlock)
    ensures Step(Client2(kb), Arrives(1, Finished, 2, kb)) == Client3(kb)
    ensures Step(Client3(kb), Write(SENT)) == Client4(kb)
  {
    var m := Message(Finished, 2, HS_LENGTH, Fine(kb));
    assert InTurn(Client2(kb).(slot1 := None), m) == (Client3(kb), 0);
  }

  /** A client's whole handshake, without losses: four records, the last of them with data. */
  lemma ClientRun(kb: KeyBlock)
    ensures Run(Begin(AsClient(SENT)), Handshaking(kb)) == Client4(kb)
  {
    hide Step, Begin, Client0, Client1, Client2, Client3;
    var p, es := Begin(AsClient(SENT)), Handshaking(kb);
    assert es[..0] == [] && es[..4] == es;
    ClientSteps0(kb);
    ClientSteps1(kb);
    ClientSteps2(kb);
    RunStep(p, es, 0);
    RunStep(p, es, 1);
    RunStep(p, es, 2);
    RunStep(p, es, 3);
  }
}
