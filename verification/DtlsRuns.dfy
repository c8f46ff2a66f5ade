/**
 * Epochs and record numbers over the whole life of a DTLS peer (arduino/libraries/Dtls-s/dtls.c,
 * arduino/libraries/Dtls-s/peer.h), and the one way in which an epoch can go down: a server that
 * follows a HelloRequest finds the Finished message already in the reorder queue when it has
 * handled the Server Hello, and switches back to the parameters it had before.
 */
module DtlsRuns {
  import opened Bytes
  import opened Wrappers
  import opened DtlsRecord
  import opened DtlsPeer
  import Ccm
  import DtlsKeys

  // ---------------------------------------------------------------- when a Finished is misdirected

  /** The state after a message that leaves a server connected or on the way to a Finished message
      of a handshake that it has opened as a client. */
  function Onward(state: State, m: Message): Option<State>
  {
    var a := m.answers;
    match state
    case Connected =>
      if m.kind.HelloRequest? && a.reply.Result() >= 0 then Some(AwaitServerHello)
      else if m.kind.ClientHello? && a.check >= 0 && !a.cookie && a.verify.Result() > 0 then Some(Connected)
      else None
    case AwaitServerHello =>
      if m.kind.HelloRequest? || (m.kind.HelloVerifyRequest? && a.check >= 0 && a.reply.Result() >= 0)
      then Some(AwaitServerHello)
      else if m.kind.ServerHello? && a.check >= 0 && a.keys.Some? && a.reply.Result() >= 0 then Some(WaitFinished)
      else None
    case WaitFinished => if m.kind.HelloRequest? then Some(WaitFinished) else None
    case _ => None
  }

  /** Handling `m`, and after it the queued messages whose turn comes, gets to a Finished message
      that verifies, on the way described by Onward. */
  predicate Overtaken(state: State, queue: seq<Message>, number: nat, m: Message)
    decreases |queue|
  {
    if state.WaitFinished? && m.kind.Finished? then m.answers.check >= 0
    else
      var next := if m.kind.HelloRequest? && !state.Connected? then number else (number + 1) % 0x1_0000;
      var k := Queued(queue, next);
      && Onward(state, m).Some? && k < |queue|
      && Overtaken(Onward(state, m).value, DtlsPeer.Removed(queue, k), next, queue[k])
  }

  /** A handshake record of the current epoch whose message is the expected one, at a server that
      is connected or awaits a Server Hello, and sets off such a sequence. */
  predicate Misleads(p: Peer, e: Event)
  {
    && p.alive && p.slot0.Some?
    && e.Receive? && e.epoch == p.slot0.value.epoch && (p.slot0.value.encrypts ==> e.opens)
    && e.content.HandshakeMessage? && SetsOff(p, e.content.message)
  }

  predicate SetsOff(p: Peer, m: Message)
  {
    && p.hs.Some? && p.role.Server? && (p.state.Connected? || p.state.AwaitServerHello?)
    && m.length >= HS_LENGTH && m.number == p.hs.value.mseqR
    && Overtaken(p.state, p.hs.value.queue, p.hs.value.mseqR, m)
  }

  predicate OnTheWay(p: Peer)
  {
    p.role.Server?
    && (p.state.Connected? || p.state.AwaitServerHello? || (p.state.WaitFinished? && p.opener == ServerHello))
  }

  lemma SendKeeps(p: Peer, retransmit: bool, sending: Sending)
    requires p.slot0.Some?
    ensures var r := Send(p, retransmit, sending);
            && r.0 == p.(slot0 := r.0.slot0, log := r.0.log, sendqueue := r.0.sendqueue) && r.1 == sending.Result()
  {
  }

  lemma ServerHelloLeads(p: Peer, a: Answers)
    requires p.slot0.Some?
    ensures var r := AnswerServerHello(p, a);
            && r.0.role == p.role && r.0.misfinished == p.misfinished
            && (r.1 >= 0 <==> a.keys.Some? && a.reply.Result() >= 0)
            && (r.1 >= 0 ==> r.0.state.WaitFinished? && r.0.opener == ServerHello)
  {
    hide Send;
    if a.keys.Some? { SendKeeps(Switch(KeyBlocks(p, a.keys).0), true, a.reply); }
  }

  lemma ClientHelloLeads(p: Peer, m: Message)
    requires p.slot0.Some?
    ensures var r := AnswerClientHello(p, m);
            && r.0.role == p.role && r.0.misfinished == p.misfinished
            && (r.1 >= 0 ==> r.0.state.WaitFinished? && r.0.opener == ClientHello)
            && (r.0.state == p.state || r.0.state.WaitFinished?)
            && (r.0.hs == p.hs || r.0.hs == Some(Handshake(m.number, [], [])))
  {
    hide Send;
    SendKeeps(if p.hs.None? then p.(hs := Some(Handshake(m.number, [], []))) else p, true, m.answers.reply);
  }

  lemma HelloRequestLeads(p: Peer, a: Answers)
    requires p.slot0.Some?
    ensures var r := AnswerHelloRequest(p, a);
            && r.0.role == p.role && r.0.misfinished == p.misfinished
            && (r.1 >= 0 <==> a.reply.Result() >= 0) && (r.1 >= 0 ==> r.0.state.AwaitServerHello?)
  {
    hide Send;
    SendKeeps(if p.hs.None? then p.(hs := Some(Handshake(0, [], []))) else p, true, a.reply);
  }

  lemma FinishedLeads(p: Peer, a: Answers)
    requires p.slot0.Some?
    ensures var r := AcceptFinished(p, a);
            && r.0.role == p.role && (r.0.misfinished <==> p.misfinished || (p.role.Server? && p.opener == ServerHello))
            && (r.1 >= 0 ==> r.0.hs.None?) && (r.0.hs == p.hs || r.0.hs.None?)
            && (r.0.state == p.state || r.0.state.Connected?)
  {
    hide Send;
    var w := Switch(p).(misfinished := p.misfinished || p.opener == ServerHello);
    if w.slot0.Some? { SendKeeps(w, true, a.reply); }
  }

  /** One message handled: it is the misdirected Finished, or leads onward, or the way ends. */
  predicate Leads(p: Peer, m: Message, r: (Peer, int))
  {
    && r.0.role == p.role
    && (r.0.misfinished <==> OnTheWay(p) && p.state.WaitFinished? && m.kind.Finished? && m.answers.check >= 0)
    && (!r.0.misfinished && r.1 >= 0 && r.0.hs.Some? ==>
          && (OnTheWay(r.0) <==> OnTheWay(p) && Onward(p.state, m).Some?)
          && (OnTheWay(r.0) ==> r.0.state == Onward(p.state, m).value))
    && (OnTheWay(p) && Onward(p.state, m).Some? ==> r.1 >= 0 && r.0.hs.Some?)
  }

  lemma HandleLeads(p: Peer, m: Message)
    requires p.slot0.Some? && p.hs.Some? && !p.misfinished
    ensures Leads(p, m, Handle(p, m))
  {
    hide Send, AnswerServerHello, AcceptFinished, AnswerClientHello, AnswerHelloRequest, Later;
    var q, a := p.(sendqueue := []), m.answers;
    match m.kind
    case HelloVerifyRequest => SendKeeps(q, true, a.reply);
    case ServerHello => ServerHelloLeads(q, a);
    case Finished => FinishedLeads(q, a);
    case ClientHello =>
      ClientHelloLeads(q, m);
      if !a.cookie {
        SendKeeps(q, false, a.verify);
        ClientHelloLeads(Send(q, false, a.verify).0, m);
      }
    case HelloRequest => HelloRequestLeads(q, a);
    case OtherKind =>
  }

  lemma InTurnLeads(p: Peer, m: Message)
    requires p.slot0.Some? && p.hs.Some? && !p.misfinished
    ensures Leads(p, m, InTurn(p, m))
  {
    hide Handle, Onward;
    HandleLeads(p, m);
  }

  /** A message in its turn, and then the drain loop. */
  function Turn(p: Peer, m: Message): (Peer, int)
    requires p.slot0.Some? && p.hs.Some?
  {
    var r := InTurn(p, m);
    if r.1 < 0 then r else Drain(r.0, r.1)
  }

  /** The message whose turn is next, taken from the queue. */
  function Popped(p: Peer): Option<(Peer, Message)>
  {
    if p.hs.None? then None
    else
      var h := p.hs.value;
      var k := Queued(h.queue, h.mseqR);
      if k == |h.queue| then None
      else Some((p.(hs := Some(h.(queue := DtlsPeer.Removed(h.queue, k)))), h.queue[k]))
  }

  lemma TurnGoesOn(p: Peer, m: Message)
    requires p.slot0.Some? && p.hs.Some?
    ensures var r := InTurn(p, m);
            Turn(p, m).0 == if r.1 < 0 || Popped(r.0).None? then r.0
                            else Turn(Popped(r.0).value.0, Popped(r.0).value.1).0
  {
    hide InTurn;
  }

  lemma OvertakenOn(state: State, queue: seq<Message>, number: nat, m: Message)
    ensures var next := if m.kind.HelloRequest? && !state.Connected? then number else (number + 1) % 0x1_0000;
            var k := Queued(queue, next);
            (Overtaken(state, queue, number, m) <==>
               if state.WaitFinished? && m.kind.Finished? then m.answers.check >= 0
               else Onward(state, m).Some? && k < |queue|
                    && Overtaken(Onward(state, m).value, DtlsPeer.Removed(queue, k), next, queue[k]))
  {
    hide Onward;
  }

  lemma {:induction false} TurnMisdirectsIff(p: Peer, m: Message)
    requires p.slot0.Some? && p.hs.Some? && !p.misfinished
    ensures Turn(p, m).0.misfinished <==> OnTheWay(p) && Overtaken(p.state, p.hs.value.queue, p.hs.value.mseqR, m)
    decreases |p.hs.value.queue|
  {
    InTurnLeads(p, m);
    InTurnNumber(p, m);
    TurnGoesOn(p, m);
    OvertakenOn(p.state, p.hs.value.queue, p.hs.value.mseqR, m);
    hide InTurn, Onward, OnTheWay, Turn, Later, DtlsPeer.Removed, Overtaken;
    var r := InTurn(p, m);
    if r.1 >= 0 && !r.0.misfinished && Popped(r.0).Some? {
      var q := Popped(r.0).value;
      SameWay(r.0, q.0);
      TurnMisdirectsIff(q.0, q.1);
    } else if r.1 >= 0 && r.0.misfinished && Popped(r.0).Some? {
      TurnLater(Popped(r.0).value.0, Popped(r.0).value.1);
    }
  }

  lemma TurnLater(p: Peer, m: Message)
    requires p.slot0.Some? && p.hs.Some? && p.misfinished
    ensures Turn(p, m).0.misfinished
  {
    hide InTurn, Drain;
  }

  lemma SameWay(p: Peer, q: Peer)
    requires q == p.(hs := q.hs)
    ensures OnTheWay(p) <==> OnTheWay(q)
  {
  }

  lemma InTurnNumber(p: Peer, m: Message)
    requires p.slot0.Some? && p.hs.Some?
    ensures var r := InTurn(p, m);
            r.0.hs.Some? ==>
              && r.0.hs.value.queue == p.hs.value.queue
              && r.0.hs.value.mseqR == if r.1 < 0 || (m.kind.HelloRequest? && !p.state.Connected?) then p.hs.value.mseqR
                                       else (p.hs.value.mseqR + 1) % 0x1_0000
  {
    hide Handle;
    HandleKeepsQueue(p, m);
  }

  lemma HandshakeMisdirectsIff(p: Peer, m: Message)
    requires p.slot0.Some? && !p.misfinished && (p.role.Server? && p.state.WaitFinished? ==> p.opener == ClientHello)
    ensures HandleHandshake(p, m).0.misfinished <==> SetsOff(p, m)
  {
    hide Handle, InTurn, Drain, Overtaken;
    if p.hs.None? {
      if m.kind.ClientHello? || m.kind.HelloRequest? { HelloNeverMisdirects(p, m); }
    } else {
      TurnMisdirectsIff(p, m);
    }
  }

  lemma HelloNeverMisdirects(p: Peer, m: Message)
    requires p.slot0.Some? && !p.misfinished && (m.kind.ClientHello? || m.kind.HelloRequest?)
    ensures !Handle(p, m).0.misfinished
  {
    hide Send, AnswerClientHello, AnswerHelloRequest, Later;
    var q, a := p.(sendqueue := []), m.answers;
    SendKeeps(q, false, a.verify);
    ClientHelloLeads(q, m);
    ClientHelloLeads(Send(q, false, a.verify).0, m);
    HelloRequestLeads(q, a);
  }

  /** Whatever is delivered outside a handshake message leaves no trace here. */
  lemma AlertKeeps(p: Peer, err: int, alert: Sending)
    requires p.slot0.Some?
    ensures AlertFromError(p, err, alert).misfinished == p.misfinished && AlertFromError(p, err, alert).role == p.role
  {
    hide Send;
    SendKeeps(p.(state := Closing), false, alert);
  }

  lemma ReceiveAlertKeeps(p: Peer, data: seq<byte>, reply: Sending)
    requires p.slot0.Some?
    ensures var q := ReceiveAlert(p, data, reply);
            && q.misfinished == p.misfinished && q.role == p.role && q.hs == p.hs
            && (q.state == p.state || !q.state.AwaitServerHello?)
  {
    hide Send;
    if |data| >= 2 {
      var q := p.(sendqueue := [], alive := p.alive && data[0] != LEVEL_FATAL && data[1] != CLOSE_NOTIFY);
      SendKeeps(q.(state := Closing), false, reply);
    }
  }

  lemma DeliveredMisdirectsIff(p: Peer, epoch: nat, content: Content, alert: Sending)
    requires p.slot0.Some? && !p.misfinished
    requires epoch == ExpectedEpoch(p) && p.role.Server? && p.state.WaitFinished? ==> p.opener == ClientHello
    ensures Delivered(p, epoch, content, alert).misfinished
       <==> (content.HandshakeMessage? && epoch == ExpectedEpoch(p)
             && HandleHandshake(p, content.message).0.misfinished)
  {
    hide ReceiveAlert, HandleHandshake, AlertFromError;
    match content
    case Alert(data, reply) => ReceiveAlertKeeps(p, data, reply);
    case HandshakeMessage(m) =>
      var r := HandleHandshake(p, m);
      if epoch == ExpectedEpoch(p) && r.0.slot0.Some? { AlertKeeps(r.0, r.1, alert); }
    case ApplicationData =>
    case Unreadable =>
  }

  /** In a server that waits for the Finished message of a handshake that a client opened, a
      record under the expected epoch opens with newer parameters. */
  lemma ExpectedMeansOpened(p: Peer, epoch: nat, opens: bool)
    requires Epochs(p) && !p.misfinished && NoWrap(p) && Decrypt(p, epoch, opens).Some?
    requires epoch == ExpectedEpoch(p) && p.role.Server? && p.state.WaitFinished?
    ensures p.opener == ClientHello
  {
    hide Behind, UniquePerContext, UpTo, Alone, SameEpochSameContext, Sent;
    assert Fresh(p);
  }

  lemma DecryptKeeps(p: Peer, epoch: nat, opens: bool)
    requires p.slot0.Some?
    ensures var d := Decrypt(p, epoch, opens); d.Some? ==> d.value == p.(slot1 := d.value.slot1)
    ensures epoch == p.slot0.value.epoch ==> (Decrypt(p, epoch, opens).Some? <==> (p.slot0.value.encrypts ==> opens))
  {
  }

  /** The parameters in slot 1 and the state that a Finished is awaited in play no part. */
  lemma SetsOffAt(p: Peer, q: Peer, m: Message)
    requires p.slot0.Some? && q == p.(slot1 := q.slot1)
    ensures SetsOff(p, m) <==> SetsOff(q, m)
    ensures SetsOff(p, m) ==> ExpectedEpoch(p) == p.slot0.value.epoch
    ensures !(p.role.Server? && p.state.WaitFinished?) ==> ExpectedEpoch(p) == p.slot0.value.epoch
  {
    hide Overtaken;
  }

  lemma SameExpected(p: Peer, q: Peer)
    requires p.slot0.Some? && q == p.(slot1 := q.slot1)
    ensures ExpectedEpoch(p) == ExpectedEpoch(q)
  {
  }

  lemma RecordMisleadsIff(p: Peer, e: Event)
    requires Epochs(p) && !p.misfinished && NoWrap(p) && p.alive && e.Receive?
    ensures ReceiveRecord(p, e.epoch, e.opens, e.content, e.alert).misfinished <==> Misleads(p, e)
  {
    assert p.slot0.Some?;
    DecryptKeeps(p, e.epoch, e.opens);
    hide Epochs, Delivered, AlertFromError, HandleHandshake, SetsOff, Decrypt, Later, NoWrap, ExpectedEpoch;
    match Decrypt(p, e.epoch, e.opens)
    case None => AlertKeeps(p, DECRYPT_ERROR, e.alert);
    case Some(q) =>
      if e.epoch == ExpectedEpoch(p) && p.role.Server? && p.state.WaitFinished? {
        ExpectedMeansOpened(p, e.epoch, e.opens);
      }
      OpenedMisleadsIff(p, q, e);
  }

  lemma OpenedMisleadsIff(p: Peer, q: Peer, e: Event)
    requires p.slot0.Some? && !p.misfinished && p.alive && e.Receive? && q == p.(slot1 := q.slot1)
    requires e.epoch == ExpectedEpoch(p) && p.role.Server? && p.state.WaitFinished? ==> p.opener == ClientHello
    requires e.epoch == p.slot0.value.epoch ==> (p.slot0.value.encrypts ==> e.opens)
    ensures Delivered(q, e.epoch, e.content, e.alert).misfinished <==> Misleads(p, e)
  {
    hide Delivered, HandleHandshake, SetsOff, ExpectedEpoch;
    assert ExpectedEpoch(q) == ExpectedEpoch(p) by { SameExpected(p, q); }
    DeliveredMisdirectsIff(q, e.epoch, e.content, e.alert);
    if e.content.HandshakeMessage? {
      SetsOffAt(p, q, e.content.message);
      if e.epoch == ExpectedEpoch(p) { HandshakeMisdirectsIff(q, e.content.message); }
    }
  }

  lemma StepMisleadsIff(p: Peer, e: Event)
    requires Epochs(p) && !p.misfinished && NoWrap(p)
    ensures Step(p, e).misfinished <==> Misleads(p, e)
  {
    assert p.slot0.Some?;
    hide Epochs, Send, ReceiveRecord, Overtaken;
    if p.alive {
      if e.Receive? {
        RecordMisleadsIff(p, e);
      } else if !e.Timeout? {
        SendKeeps(p, false, e.sending);
        SendKeeps(p.(hs := Some(Handshake(0, [], []))), true, e.sending);
      }
    }
  }

  // ---------------------------------------------------------------- runs without HelloRequest

  predicate NoRequests(queue: seq<Message>)
  {
    forall i :: 0 <= i < |queue| ==> !queue[i].kind.HelloRequest?
  }

  /** A server that has never been sent a HelloRequest awaits no Server Hello. */
  predicate Quiet(p: Peer, role: Role)
  {
    p.role == role
    && (role.Server? ==> !p.state.AwaitServerHello? && (p.hs.Some? ==> NoRequests(p.hs.value.queue)))
  }

  lemma StaysQuiet(p: Peer, q: Peer, role: Role)
    requires Quiet(p, role) && q.role == p.role && (q.state == p.state || !q.state.AwaitServerHello?)
    requires q.hs == p.hs || q.hs.None? || q.hs.value.queue == []
    ensures Quiet(q, role) && Quiet(Advance(q), role)
  {
  }

  lemma HandleQuiet(p: Peer, m: Message, role: Role)
    requires Quiet(p, role) && p.slot0.Some? && (role.Server? ==> !m.kind.HelloRequest?)
    ensures Quiet(Handle(p, m).0, role)
  {
    if role.Client? {
      ClientHandleQuiet(p, m);
    } else {
      hide Send, AnswerServerHello, AcceptFinished, AnswerClientHello, AnswerHelloRequest, Later, NoRequests;
      var q, a := p.(sendqueue := []), m.answers;
      StaysQuiet(p, q, role);
      if m.kind.Finished? {
        FinishedLeads(q, a);
        StaysQuiet(q, AcceptFinished(q, a).0, role);
      } else if m.kind.ClientHello? {
        var v := Send(q, false, a.verify);
        SendKeeps(q, false, a.verify);
        ClientHelloLeads(q, m);
        ClientHelloLeads(v.0, m);
        StaysQuiet(q, AnswerClientHello(q, m).0, role);
        StaysQuiet(q, v.0, role);
        StaysQuiet(v.0, AnswerClientHello(v.0, m).0, role);
        hide Quiet, Advance;
      }
    }
  }

  lemma ClientHandleQuiet(p: Peer, m: Message)
    requires p.role.Client? && p.slot0.Some?
    ensures Quiet(Handle(p, m).0, Client)
  {
    hide Send, AnswerServerHello, AcceptFinished, AnswerClientHello, AnswerHelloRequest, Later;
    var q, a := p.(sendqueue := []), m.answers;
    SendKeeps(q, true, a.reply);
    SendKeeps(q, false, a.verify);
    ServerHelloLeads(q, a);
    FinishedLeads(q, a);
    ClientHelloLeads(q, m);
    ClientHelloLeads(Send(q, false, a.verify).0, m);
    HelloRequestLeads(q, a);
    hide OnTheWay;
  }

  lemma InTurnQuiet(p: Peer, m: Message, role: Role)
    requires Quiet(p, role) && p.slot0.Some? && p.hs.Some? && (role.Server? ==> !m.kind.HelloRequest?)
    ensures Quiet(InTurn(p, m).0, role)
  {
    hide Handle, NoRequests;
    HandleQuiet(p, m, role);
  }

  lemma {:induction false} DrainQuiet(p: Peer, res: int, role: Role)
    requires Quiet(p, role) && p.slot0.Some?
    ensures Quiet(Drain(p, res).0, role)
    decreases if p.hs.Some? then |p.hs.value.queue| else 0
  {
    hide InTurn;
    if Popped(p).Some? {
      var (q, m) := Popped(p).value;
      InTurnQuiet(q, m, role);
      InTurnKeepsQueue(q, m);
      var r := InTurn(q, m);
      if r.1 >= 0 { DrainQuiet(r.0, r.1, role); }
    }
  }

  lemma HandleHandshakeQuiet(p: Peer, m: Message, role: Role)
    requires Quiet(p, role) && p.slot0.Some? && (role.Server? ==> !m.kind.HelloRequest?)
    ensures Quiet(HandleHandshake(p, m).0, role)
  {
    hide Handle, InTurn, Drain;
    HandleQuiet(p, m, role);
    if m.length >= HS_LENGTH && p.hs.Some? && m.number == p.hs.value.mseqR {
      InTurnQuiet(p, m, role);
      var r := InTurn(p, m);
      if r.1 >= 0 { DrainQuiet(r.0, r.1, role); }
    }
  }

  /** The event delivers a HelloRequest. */
  predicate Requests(e: Event)
  {
    e.Receive? && e.content.HandshakeMessage? && e.content.message.kind.HelloRequest?
  }

  lemma AlertQuiet(p: Peer, err: int, alert: Sending, role: Role)
    requires Quiet(p, role) && p.slot0.Some?
    ensures Quiet(AlertFromError(p, err, alert), role)
  {
    hide Send, NoRequests;
    SendKeeps(p.(state := Closing), false, alert);
  }

  lemma RecordQuiet(p: Peer, e: Event, role: Role)
    requires Quiet(p, role) && p.slot0.Some? && e.Receive? && (role.Server? ==> !Requests(e))
    ensures Quiet(ReceiveRecord(p, e.epoch, e.opens, e.content, e.alert), role)
  {
    hide HandleHandshake, AlertFromError, ReceiveAlert, NoRequests;
    AlertQuiet(p, DECRYPT_ERROR, e.alert, role);
    var d := Decrypt(p, e.epoch, e.opens);
    if d.Some? {
      var q := d.value;
      match e.content
      case Alert(data, reply) => ReceiveAlertKeeps(q, data, reply);
      case HandshakeMessage(m) =>
        HandleHandshakeQuiet(q, m, role);
        var r := HandleHandshake(q, m);
        if r.0.slot0.Some? { AlertQuiet(r.0, r.1, e.alert, role); }
      case ApplicationData =>
      case Unreadable =>
    }
  }

  lemma StepQuiet(p: Peer, e: Event, role: Role)
    requires Quiet(p, role) && (role.Server? ==> !Requests(e))
    ensures Quiet(Step(p, e), role)
  {
    hide Send, ReceiveRecord;
    if p.alive && p.slot0.Some? {
      if e.Receive? {
        RecordQuiet(p, e, role);
      } else if !e.Timeout? {
        SendKeeps(p, false, e.sending);
        SendKeeps(p.(hs := Some(Handshake(0, [], []))), true, e.sending);
      }
    }
  }

  lemma BeginQuiet(start: Start)
    ensures Quiet(Begin(start), if start.AsClient? then Client else Server)
  {
    hide Send;
    match start
    case AsClient(sending) =>
      SendKeeps(Peer(Client, Init, Some(NewSecurity(0, 0)), None, Some(Handshake(0, [], [])), [], true,
                     1, [], OtherKind, false, false, []), true, sending);
    case AsServer(hello, alert) =>
      var p := Peer(Server, Init, Some(NewSecurity(0, 0).(rseq := 1)), None, None, [], true,
                    1, [], OtherKind, false, false, []);
      ClientHelloLeads(p, hello);
      hide AnswerClientHello, AlertFromError;
      var r := Advanced(AnswerClientHello(p, hello));
      AlertQuiet(r.0, r.1, alert, Server);
  }

  lemma {:induction false} RunQuiet(p: Peer, es: seq<Event>, role: Role)
    requires Quiet(p, role) && (role.Server? ==> forall k :: 0 <= k < |es| ==> !Requests(es[k]))
    ensures Quiet(Run(p, es), role)
  {
    hide Quiet, Requests, Step;
    if es != [] {
      var n := |es| - 1;
      assert forall k :: 0 <= k < n ==> es[..n][k] == es[k];
      RunQuiet(p, es[..n], role);
      StepQuiet(Run(p, es[..n]), es[n], role);
    }
  }

  lemma {:induction false} NotOvertaken(queue: seq<Message>, number: nat, m: Message)
    requires NoRequests(queue) && !m.kind.HelloRequest?
    ensures !Overtaken(Connected, queue, number, m)
    decreases |queue|
  {
    var next := (number + 1) % 0x1_0000;
    var k := Queued(queue, next);
    if k < |queue| {
      var q := DtlsPeer.Removed(queue, k);
      assert forall i :: 0 <= i < |q| ==> q[i] == queue[if i < k then i else i + 1];
      NotOvertaken(q, next, queue[k]);
    }
  }

  // ---------------------------------------------------------------- theorems about whole runs

  /** Some event of the run sets off the handling of a misdirected Finished. */
  predicate Misled(start: Start, es: seq<Event>)
  {
    exists k :: 0 <= k < |es| && Misleads(Run(Begin(start), es[..k]), es[k])
  }

  lemma {:induction false} MisledIff(start: Start, es: seq<Event>)
    requires NoWrap(Run(Begin(start), es))
    ensures Run(Begin(start), es).misfinished <==> Misled(start, es)
  {
    hide Misleads, Step, Epochs;
    if es == [] {
      NothingMisfinished(start);
    } else {
      var n := |es| - 1;
      var p := Run(Begin(start), es[..n]);
      assert Later(p, Step(p, es[n]));
      MisledIff(start, es[..n]);
      BeginEpochs(start);
      RunEpochs(Begin(start), es[..n]);
      if !p.misfinished { StepMisleadsIff(p, es[n]); }
      MisledOneMore(start, es);
    }
  }

  lemma MisledOneMore(start: Start, es: seq<Event>)
    requires es != []
    ensures var n := |es| - 1;
            Misled(start, es) <==> Misled(start, es[..n]) || Misleads(Run(Begin(start), es[..n]), es[n])
  {
    hide Misleads, Run, Begin;
    var n := |es| - 1;
    var before := es[..n];
    assert forall k :: 0 <= k < n ==> before[..k] == es[..k] && before[k] == es[k];
    if Misled(start, before) {
      var k :| 0 <= k < n && Misleads(Run(Begin(start), before[..k]), before[k]);
      assert Misleads(Run(Begin(start), es[..k]), es[k]);
    }
    if Misleads(Run(Begin(start), es[..n]), es[n]) {
      assert Misled(start, es);
    }
    if Misled(start, es) && !Misleads(Run(Begin(start), es[..n]), es[n]) {
      var k :| 0 <= k < |es| && Misleads(Run(Begin(start), es[..k]), es[k]);
      assert k < n && Misleads(Run(Begin(start), before[..k]), before[k]);
    }
  }

  lemma NothingMisfinished(start: Start)
    ensures !Begin(start).misfinished
  {
    hide Send;
    match start
    case AsClient(sending) =>
      SendKeeps(Peer(Client, Init, Some(NewSecurity(0, 0)), None, Some(Handshake(0, [], [])), [], true,
                     1, [], OtherKind, false, false, []), true, sending);
    case AsServer(hello, alert) =>
      var p := Peer(Server, Init, Some(NewSecurity(0, 0).(rseq := 1)), None, None, [], true,
                    1, [], OtherKind, false, false, []);
      ClientHelloLeads(p, hello);
      hide AnswerClientHello, AlertFromError;
      var r := Advanced(AnswerClientHello(p, hello));
      AlertKeeps(r.0, r.1, alert);
  }

  /** A client is never misled, and neither is a server to which no HelloRequest is delivered. */
  lemma MisledOnlyByRequest(start: Start, es: seq<Event>)
    requires start.AsClient? || forall k :: 0 <= k < |es| ==> !Requests(es[k])
    ensures !Misled(start, es)
  {
    var role := if start.AsClient? then Client else Server;
    forall k | 0 <= k < |es| ensures !Misleads(Run(Begin(start), es[..k]), es[k]) {
      BeginQuiet(start);
      assert forall i :: 0 <= i < k ==> es[..k][i] == es[i];
      RunQuiet(Begin(start), es[..k], role);
      NotMisled(Run(Begin(start), es[..k]), es[k], role);
    }
  }

  lemma NotMisled(p: Peer, e: Event, role: Role)
    requires Quiet(p, role) && (role.Server? ==> !Requests(e))
    ensures !Misleads(p, e)
  {
    if Misleads(p, e) {
      NotOvertaken(p.hs.value.queue, p.hs.value.mseqR, e.content.message);
    }
  }

  /** So a peer that opens its handshakes itself, or is never asked to do so, uses no epoch twice
      and no record number twice in its whole life. */
  lemma WithoutRequests(start: Start, es: seq<Event>, more: seq<Event>, i: nat, j: nat)
    requires start.AsClient? || forall k :: 0 <= k < |es + more| ==> !Requests((es + more)[k])
    requires NoWrap(Run(Begin(start), es + more))
    requires var log := Run(Begin(start), es + more).log;
             i < j < |log| && log[i].seqno < 0x1_0000_0000_0000 && log[j].seqno < 0x1_0000_0000_0000
    ensures var p, q := Run(Begin(start), es), Run(Begin(start), es + more);
            p.slot0.Some? && q.slot0.Some? && p.slot0.value.epoch <= q.slot0.value.epoch
    ensures var log := Run(Begin(start), es + more).log;
            Numbers(log[i].epoch, log[i].seqno) != Numbers(log[j].epoch, log[j].seqno)
  {
    MisledOnlyByRequest(start, es + more);
    MisledIff(start, es + more);
    EpochsDoNotGoDown(start, es, more);
    RecordNumbersNeverRepeat(start, es + more, i, j);
  }

  /** In every reachable state slot 0 is not null and slot 1 is empty or exactly one epoch away;
      the epoch in use has gone down in the run if and only if some event of it misleads. */
  lemma SlotsInEveryRun(start: Start, es: seq<Event>)
    requires NoWrap(Run(Begin(start), es))
    ensures var q := Run(Begin(start), es); Slots(q) && (q.lowered <==> Misled(start, es))
  {
    BeginEpochs(start);
    RunEpochs(Begin(start), es);
    MisledIff(start, es);
  }

  /** Without such an event the k-th switch promotes the parameters of epoch k + 1, with a key
      block and before any record has been prepared under them, and nothing else changes slot 0
      but the number of the next record. */
  lemma SwitchesPromoteFreshKeys(start: Start, es: seq<Event>)
    requires NoWrap(Run(Begin(start), es)) && !Misled(start, es)
    ensures var q := Run(Begin(start), es);
            && Slots(q) && q.slot0.value.epoch == |q.promoted|
            && forall k :: 0 <= k < |q.promoted| ==>
                 q.promoted[k].encrypts && q.promoted[k].epoch == k + 1 && q.promoted[k].rseq == 0
  {
    BeginEpochs(start);
    RunEpochs(Begin(start), es);
    MisledIff(start, es);
    DtlsKeys.SwitchesPromoteKeys(start, es);
  }

  /** Between any two points of a run without such an event the epoch does not go down. */
  lemma EpochsDoNotGoDown(start: Start, es: seq<Event>, more: seq<Event>)
    requires NoWrap(Run(Begin(start), es + more)) && !Misled(start, es + more)
    ensures var p, q := Run(Begin(start), es), Run(Begin(start), es + more);
            p.slot0.Some? && q.slot0.Some? && p.slot0.value.epoch <= q.slot0.value.epoch
  {
    MisledIff(start, es + more);
    BeginEpochs(start);
    RunInParts(Begin(start), es, more);
    RunLater(Run(Begin(start), es), more);
    RunEpochs(Begin(start), es);
    RunEpochs(Run(Begin(start), es), more);
  }

  /** Up to 2^48 records under one set of parameters, the numbers in the record headers never
      repeat under it. Without such an event they never repeat at all. */
  lemma RecordNumbersNeverRepeat(start: Start, es: seq<Event>, i: nat, j: nat)
    requires NoWrap(Run(Begin(start), es))
    requires var log := Run(Begin(start), es).log;
             i < j < |log| && log[i].seqno < 0x1_0000_0000_0000 && log[j].seqno < 0x1_0000_0000_0000
    ensures var q := Run(Begin(start), es);
            (q.log[i].id == q.log[j].id || !Misled(start, es)) ==>
              Numbers(q.log[i].epoch, q.log[i].seqno) != Numbers(q.log[j].epoch, q.log[j].seqno)
  {
    BeginEpochs(start);
    RunEpochs(Begin(start), es);
    MisledIff(start, es);
    var q := Run(Begin(start), es);
    var a, b := q.log[i], q.log[j];
    if Numbers(a.epoch, a.seqno) == Numbers(b.epoch, b.seqno) {
      SameNumbers(a.epoch, a.seqno, b.epoch, b.seqno);
    }
  }

  /** Records under one set of parameters are never encrypted with the same key stream: their
      counter blocks all differ. */
  lemma KeystreamNeverReused(start: Start, es: seq<Event>, i: nat, j: nat, iv: seq<byte>, a: nat, b: nat)
    requires NoWrap(Run(Begin(start), es)) && |iv| == 4
    requires var log := Run(Begin(start), es).log;
             i < j < |log| && log[i].id == log[j].id
             && log[i].seqno < 0x1_0000_0000_0000 && log[j].seqno < 0x1_0000_0000_0000
    ensures var p, q := Run(Begin(start), es).log[i], Run(Begin(start), es).log[j];
            Ccm.CounterBlock(3, iv + Numbers(p.epoch, p.seqno), a)
            != Ccm.CounterBlock(3, iv + Numbers(q.epoch, q.seqno), b)
  {
    BeginEpochs(start);
    RunEpochs(Begin(start), es);
    var p, q := Run(Begin(start), es).log[i], Run(Begin(start), es).log[j];
    assert (p.epoch, p.seqno) != (q.epoch, q.seqno);
    KeystreamNeverRepeats(iv, p.epoch, p.seqno, q.epoch, q.seqno, a, b);
  }

  lemma SameNumbers(e: nat, n: nat, e': nat, n': nat)
    requires e < 0x1_0000 && e' < 0x1_0000 && n < 0x1_0000_0000_0000 && n' < 0x1_0000_0000_0000
    requires Numbers(e, n) == Numbers(e', n')
    ensures e == e' && n == n'
  {
    if (e, n) != (e', n') {
      KeystreamNeverRepeats([0, 0, 0, 0], e, n, e', n', 0, 0);
    }
  }

  // ---------------------------------------------------------------- a run in which the epoch goes down

  const SENT := Written(1)

  function Fine(kb: KeyBlock): Answers { Answers(0, true, SENT, 0, Some(kb), SENT) }

  function Arrives(epoch: nat, kind: Kind, number: nat, kb: KeyBlock): Event
  {
    Receive(epoch, true, HandshakeMessage(Message(kind, number, HS_LENGTH, Fine(kb))), SENT)
  }

  /** A server whose client asks it to open a handshake itself; the Finished message overtakes the
      Server Hello, and then the same once more. */
  function Callback(kb: KeyBlock): seq<Event>
  {
    [Arrives(1, Finished, 1, kb), Arrives(1, HelloRequest, 0, kb), Arrives(1, Finished, 2, kb),
     Arrives(1, ServerHello, 1, kb), Arrives(1, HelloRequest, 0, kb), Arrives(1, ServerHello, 1, kb)]
  }

  function Keyed(id: nat, epoch: nat, rseq: nat, kb: KeyBlock): Security { Security(id, true, epoch, rseq, kb) }

  function Once(kb: KeyBlock): seq<Security> { [Keyed(1, 1, 0, kb)] }

  function Thrice(kb: KeyBlock): seq<Security> { Once(kb) + [Keyed(2, 2, 0, kb)] + [Keyed(1, 1, 2, kb)] }

  /** The peer of that run between its events. */
  function Server0(kb: KeyBlock): Peer
  {
    Peer(Server, WaitFinished, Some(NewSecurity(0, 0).(rseq := 2)), Some(Keyed(1, 1, 0, kb)),
         Some(Handshake(1, [], [])),
         [Node(0, 0)], true, 2, [Prepared(0, 0, 1)], ClientHello, false, false, [])
  }

  function Server1(kb: KeyBlock): Peer
  {
    Peer(Server, Connected, Some(Keyed(1, 1, 1, kb)), Some(NewSecurity(0, 0).(rseq := 2)), None,
         [], true, 2, [Prepared(0, 0, 1), Prepared(1, 1, 0)], ClientHello, false, false, Once(kb))
  }

  function Server2(kb: KeyBlock): Peer
  {
    Peer(Server, AwaitServerHello, Some(Keyed(1, 1, 2, kb)), None, Some(Handshake(1, [], [])),
         [Node(1, 0)], true, 2, [Prepared(0, 0, 1), Prepared(1, 1, 0), Prepared(1, 1, 1)],
         ClientHello, false, false, Once(kb))
  }

  function Early(kb: KeyBlock): Message { Message(Finished, 2, HS_LENGTH, Fine(kb)) }

  function Server3(kb: KeyBlock): Peer
  {
    Server2(kb).(hs := Some(Handshake(1, [Early(kb)], [])))
  }

  function Server4(kb: KeyBlock): Peer
  {
    Peer(Server, Connected, Some(Keyed(1, 1, 3, kb)), Some(Keyed(2, 2, 1, kb)), None, [], true, 3,
         Server2(kb).log + [Prepared(2, 2, 0), Prepared(1, 1, 2)], ServerHello, true, true, Thrice(kb))
  }

  lemma Callback0(kb: KeyBlock)
    ensures Begin(AsServer(Message(ClientHello, 0, HS_LENGTH, Fine(kb)), SENT)) == Server0(kb)
  {
  }

  lemma Callback1(kb: KeyBlock)
    ensures Step(Server0(kb), Arrives(1, Finished, 1, kb)) == Server1(kb)
  {
  }

  lemma Callback2(kb: KeyBlock)
    ensures Step(Server1(kb), Arrives(1, HelloRequest, 0, kb)) == Server2(kb)
  {
  }

  lemma Callback3(kb: KeyBlock)
    ensures Step(Server2(kb), Arrives(1, Finished, 2, kb)) == Server3(kb)
  {
    var none: seq<Message> := [];
    assert none + [Early(kb)] == [Early(kb)];
  }

  /** After the Server Hello: the next parameters are in use, the old ones in slot 1. */
  function Switched(kb: KeyBlock): Peer
  {
    Peer(Server, WaitFinished, Some(Keyed(2, 2, 1, kb)), Some(Keyed(1, 1, 2, kb)),
         Some(Handshake(2, [Early(kb)], [Dispatch(1, true)])), [Node(2, 0)], true, 3,
         Server2(kb).log + [Prepared(2, 2, 0)], ServerHello, false, false, Once(kb) + [Keyed(2, 2, 0, kb)])
  }

  lemma Callback4(kb: KeyBlock)
    ensures Step(Server3(kb), Arrives(1, ServerHello, 1, kb)) == Server4(kb)
  {
    var p, m := Server3(kb), Message(ServerHello, 1, HS_LENGTH, Fine(kb));
    assert Decrypt(p, 1, true) == Some(p);
    assert InTurn(p, m) == (Switched(kb), 1) by {
      var nodes: seq<Node> := [];
      assert nodes + [Node(2, 0)] == [Node(2, 0)];
      var none: seq<Dispatch> := [];
      assert none + [Dispatch(1, true)] == [Dispatch(1, true)];
    }
    Callback4Drain(kb);
    assert HandleHandshake(p, m) == (Server4(kb).(sendqueue := [Node(1, 0)]), 1);
  }

  lemma Callback4Drain(kb: KeyBlock)
    ensures Drain(Switched(kb), 1) == (Server4(kb).(sendqueue := [Node(1, 0)]), 1)
  {
    var p := Switched(kb);
    var h := p.hs.value;
    assert Queued(h.queue, 2) == 0 && Removed(h.queue, 0) == [];
    var q := p.(hs := Some(h.(queue := [])));
    assert Server2(kb).log + [Prepared(2, 2, 0)] + [Prepared(1, 1, 2)] == Server4(kb).log;
    var none: seq<Node> := [];
    assert none + [Node(1, 0)] == [Node(1, 0)];
    assert InTurn(q, Early(kb)) == (Server4(kb).(sendqueue := [Node(1, 0)]), 1);
  }

  function Server5(kb: KeyBlock): Peer
  {
    Peer(Server, AwaitServerHello, Some(Keyed(1, 1, 4, kb)), Some(Keyed(2, 2, 1, kb)), Some(Handshake(1, [], [])),
         [Node(1, 0)], true, 3, Server4(kb).log + [Prepared(1, 1, 3)], ServerHello, true, true, Thrice(kb))
  }

  function Server6(kb: KeyBlock): Peer
  {
    Peer(Server, WaitFinished, Some(Keyed(3, 2, 1, kb)), Some(Keyed(1, 1, 4, kb)),
         Some(Handshake(2, [], [Dispatch(1, true)])), [Node(2, 0)], true, 4,
         Server5(kb).log + [Prepared(3, 2, 0)], ServerHello, true, true, Thrice(kb) + [Keyed(3, 2, 0, kb)])
  }

  lemma Callback5(kb: KeyBlock)
    ensures Step(Server4(kb), Arrives(1, HelloRequest, 0, kb)) == Server5(kb)
  {
    var nodes: seq<Node> := [];
    assert nodes + [Node(1, 0)] == [Node(1, 0)];
  }

  lemma Callback6(kb: KeyBlock)
    ensures Step(Server5(kb), Arrives(1, ServerHello, 1, kb)) == Server6(kb)
  {
    var p, m := Server5(kb), Message(ServerHello, 1, HS_LENGTH, Fine(kb));
    assert Decrypt(p, 1, true) == Some(p);
    var nodes: seq<Node> := [];
    assert nodes + [Node(2, 0)] == [Node(2, 0)];
    var none: seq<Dispatch> := [];
    assert none + [Dispatch(1, true)] == [Dispatch(1, true)];
    assert InTurn(p, m) == (Server6(kb), 1);
    assert Drain(Server6(kb), 1) == (Server6(kb), 1);
  }

  lemma RunStep(p: Peer, es: seq<Event>, k: nat)
    requires k < |es|
    ensures Run(p, es[..k + 1]) == Step(Run(p, es[..k]), es[k])
  {
    assert es[..k + 1][..k] == es[..k];
  }

  /** The epoch can go down: in this run it does, and afterwards one pair of record numbers is used
      under two sets of parameters. */
  lemma EpochsCanGoDown(kb: KeyBlock)
    ensures var q := Run(Begin(AsServer(Message(ClientHello, 0, HS_LENGTH, Fine(kb)), SENT)), Callback(kb));
            && q.lowered && NoWrap(q)
            && Misled(AsServer(Message(ClientHello, 0, HS_LENGTH, Fine(kb)), SENT), Callback(kb))
            && |q.log| == 7 && q.log[3] == Prepared(2, 2, 0) && q.log[6] == Prepared(3, 2, 0)
  {
    hide Misled, Step, Begin, Server0, Server1, Server2, Server3, Server4, Server5;
    var p, es := Begin(AsServer(Message(ClientHello, 0, HS_LENGTH, Fine(kb)), SENT)), Callback(kb);
    RunStep(p, es, 0);
    Callback0(kb);
    Callback1(kb);
    RunStep(p, es, 1);
    Callback2(kb);
    RunStep(p, es, 2);
    Callback3(kb);
    RunStep(p, es, 3);
    Callback4(kb);
    RunStep(p, es, 4);
    Callback5(kb);
    RunStep(p, es, 5);
    Callback6(kb);
    assert es[..6] == es && es[..0] == [];
    FinalLog(kb);
    SlotsInEveryRun(AsServer(Message(ClientHello, 0, HS_LENGTH, Fine(kb)), SENT), es);
  }

  /** An alert without a cipher, under epoch 0, ends a connection that has just been made. */
  lemma ForgedAlertEndsConnection(kb: KeyBlock)
    ensures var start := AsServer(Message(ClientHello, 0, HS_LENGTH, Fine(kb)), SENT);
            var es := [Arrives(1, Finished, 1, kb)];
            var p := Run(Begin(start), es);
            && p.state.Connected? && p.alive && p.slot0.Some? && p.slot0.value.encrypts
            && !DtlsKeys.Authentic(p, 0, false)
            && !Step(p, Receive(0, false, Alert([LEVEL_FATAL, 0], SENT), SENT)).alive
  {
    hide Step, Begin, Server0, Server1;
    var start, es := AsServer(Message(ClientHello, 0, HS_LENGTH, Fine(kb)), SENT), [Arrives(1, Finished, 1, kb)];
    assert es[..0] == [] && es[..1] == es;
    RunStep(Begin(start), es, 0);
    Callback0(kb);
    Callback1(kb);
    ForgedAlert(kb);
  }

  lemma ForgedAlert(kb: KeyBlock)
    ensures var p := Server1(kb);
            && p.state.Connected? && p.alive && p.slot0.Some? && p.slot0.value.encrypts
            && !DtlsKeys.Authentic(p, 0, false)
            && !Step(p, Receive(0, false, Alert([LEVEL_FATAL, 0], SENT), SENT)).alive
  {
    var p := Server1(kb);
    assert Decrypt(p, 0, false) == Some(p);
  }

  lemma FinalLog(kb: KeyBlock)
    ensures var log := Server6(kb).log; |log| == 7 && log[3] == Prepared(2, 2, 0) && log[6] == Prepared(3, 2, 0)
  {
  }
}
