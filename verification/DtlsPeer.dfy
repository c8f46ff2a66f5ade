/**
 * One DTLS peer (arduino/libraries/Dtls-s/dtls.c, arduino/libraries/Dtls-s/peer.h): the two
 * slots of security parameters and their epochs, record sequence numbers, the handshake states
 * of both roles, retransmission and the reordering of handshake messages.
 *
 * What cryptographic checks and the write callback answer is arbitrary: every event carries the
 * answers it meets.
 */
module DtlsPeer {
  import opened Wrappers
  import opened Bytes
  import opened DtlsRecord
  import Ccm

  const MAX_RETRANSMIT := 7
  const MAX_BUF := 128
  const HS_LENGTH := 12
  const UNEXPECTED_MESSAGE := -522
  const DECODE_ERROR := -562
  const DECRYPT_ERROR := -563
  const LEVEL_FATAL := 2
  const CLOSE_NOTIFY := 0

  datatype State = Init | AwaitServerHello | WaitFinished | Connected | Closing | Closed

  datatype Kind = HelloRequest | ClientHello | HelloVerifyRequest | ServerHello | Finished | OtherKind

  /** The outcome of dtls_send_multi: the record did not fit, or what the callback returned. */
  datatype Sending = TooBig | Written(result: int) {
    function Result(): int { if TooBig? then ALERT_INTERNAL_ERROR else result }
  }

  /** What happens while one handshake message is handled. */
  datatype Answers = Answers(check: int, cookie: bool, verify: Sending, update: int,
                             keys: Option<KeyBlock>, reply: Sending)

  datatype Message = Message(kind: Kind, number: nat, length: nat, answers: Answers)

  datatype Dispatch = Dispatch(number: nat, advanced: bool)

  /** Handshake parameters; `trace` records the messages handled in sequence. */
  datatype Handshake = Handshake(mseqR: nat, queue: seq<Message>, trace: seq<Dispatch>)

  datatype Node = Node(epoch: nat, count: nat)

  /** The numbers a record was given, and under which parameters. */
  datatype Prepared = Prepared(id: nat, epoch: nat, seqno: nat)

  /** Besides the fields of the source: the next free address for parameters, the records
      prepared so far, what opened the handshake that waits for its Finished message, whether a
      peer of server role has since accepted one although it had opened the handshake as a
      client, whether the epoch in use has ever gone down, and the parameters that switches have
      put to use. */
  datatype Peer = Peer(role: Role, state: State, slot0: Option<Security>, slot1: Option<Security>,
                       hs: Option<Handshake>, sendqueue: seq<Node>, alive: bool,
                       nextId: nat, log: seq<Prepared>, opener: Kind, misfinished: bool, lowered: bool,
                       promoted: seq<Security>)

  /** Addresses are given out once and what has happened stays. */
  predicate Later(p: Peer, q: Peer)
  {
    p.nextId <= q.nextId && (p.misfinished ==> q.misfinished) && (p.lowered ==> q.lowered)
  }

  // ---------------------------------------------------------------- security parameters

  function NewSecurity(id: nat, epoch: nat): Security
  {
    Security(id, false, epoch, 0, Ccm.Zeros(40))
  }

  /** dtls_security_params_epoch: the slot with this epoch. */
  function Lookup(p: Peer, epoch: nat): Option<Security>
  {
    if p.slot0.Some? && p.slot0.value.epoch == epoch then p.slot0
    else if p.slot1.Some? && p.slot1.value.epoch == epoch then p.slot1
    else None
  }

  /** dtls_security_params_next */
  function ParamsNext(p: Peer): Peer
    requires p.slot0.Some?
  {
    p.(slot1 := Some(NewSecurity(p.nextId, (p.slot0.value.epoch + 1) % 0x1_0000)), nextId := p.nextId + 1)
  }

  /** dtls_security_params_free_other */
  function FreeOther(p: Peer): Peer
  {
    if p.slot0.None? || p.slot1.None? || p.slot0.value.epoch < p.slot1.value.epoch then p else p.(slot1 := None)
  }

  /** dtls_security_params_switch */
  function Switch(p: Peer): Peer
  {
    p.(slot0 := p.slot1, slot1 := p.slot0,
       lowered := p.lowered || (p.slot0.Some? && p.slot1.Some? && p.slot1.value.epoch < p.slot0.value.epoch),
       promoted := if p.slot1.Some? then p.promoted + [p.slot1.value] else p.promoted)
  }

  /** calculate_key_block */
  function KeyBlocks(p: Peer, keys: Option<KeyBlock>): (r: (Peer, int))
    requires p.slot0.Some?
    ensures r.0.hs == p.hs && r.0.slot0 == p.slot0 && Later(p, r.0)
  {
    var q := ParamsNext(p);
    if keys.None? then (q, ALERT_INTERNAL_ERROR)
    else (q.(slot1 := Some(q.slot1.value.(encrypts := true, keyBlock := keys.value, rseq := 0))), 0)
  }

  // ---------------------------------------------------------------- sending

  /** One more record under `s`, which moves on to the next number. */
  function Use(s: Security): Security { s.(rseq := s.rseq + 1) }

  function Entry(s: Security): Prepared { Prepared(s.id, s.epoch, s.rseq) }

  function Use0(p: Peer): Peer
    requires p.slot0.Some?
  {
    p.(slot0 := Some(Use(p.slot0.value)), log := p.log + [Entry(p.slot0.value)])
  }

  function Use1(p: Peer): Peer
    requires p.slot1.Some?
  {
    p.(slot1 := Some(Use(p.slot1.value)), log := p.log + [Entry(p.slot1.value)])
  }

  /** dtls_send_multi under the current parameters. */
  function Send(p: Peer, retransmit: bool, sending: Sending): (r: (Peer, int))
    requires p.slot0.Some?
    ensures r.0.hs == p.hs && r.0.slot0.Some? && Later(p, r.0)
  {
    var node := Node(p.slot0.value.epoch, 0);
    (Use0(p).(sendqueue := if retransmit && sending.Written? then p.sendqueue + [node] else p.sendqueue),
     sending.Result())
  }

  /** dtls_retransmit: under the parameters of the epoch the message was first sent in, if there
      are any left. */
  function Retransmit(p: Peer, i: nat): Peer
    requires i < |p.sendqueue|
  {
    var n := p.sendqueue[i];
    if n.count >= MAX_RETRANSMIT then p.(sendqueue := p.sendqueue[..i] + p.sendqueue[i + 1..])
    else
      var q := p.(sendqueue := p.sendqueue[i := n.(count := n.count + 1)]);
      if Lookup(p, n.epoch).None? then q
      else if p.slot0 == Lookup(p, n.epoch) then Use0(q)
      else Use1(q)
  }

  // ---------------------------------------------------------------- handshake messages

  function Advance(p: Peer): Peer
  {
    if p.hs.None? then p else p.(hs := Some(p.hs.value.(mseqR := (p.hs.value.mseqR + 1) % 0x1_0000)))
  }

  function Advanced(r: (Peer, int)): (Peer, int)
  {
    if r.1 < 0 then r else (Advance(r.0), r.1)
  }

  /** handle_handshake_msg */
  function Handle(p: Peer, m: Message): (r: (Peer, int))
    requires p.slot0.Some?
    ensures Later(p, r.0) && (r.1 >= 0 ==> r.0.slot0.Some?)
  {
    hide Send, AnswerServerHello, AcceptFinished, AnswerClientHello, AnswerHelloRequest;
    var q := p.(sendqueue := []);
    match m.kind
    case HelloVerifyRequest =>
      if p.state != AwaitServerHello then (q, UNEXPECTED_MESSAGE)
      else if m.answers.check < 0 then (q, m.answers.check)
      else Advanced(Send(q, true, m.answers.reply))
    case ServerHello =>
      if p.state != AwaitServerHello then (q, UNEXPECTED_MESSAGE)
      else if m.answers.check < 0 then (q, m.answers.check)
      else Advanced(AnswerServerHello(q, m.answers))
    case Finished =>
      if p.state != WaitFinished then (q, UNEXPECTED_MESSAGE)
      else if m.answers.check < 0 then (q, m.answers.check)
      else AcceptFinished(q, m.answers)
    case ClientHello =>
      if p.state != Connected then (q, UNEXPECTED_MESSAGE)
      else if m.answers.check < 0 then (q, m.answers.check)
      else if m.answers.cookie then Advanced(AnswerClientHello(q, m))
      else
        var v := Send(q, false, m.answers.verify);
        if v.1 == 0 then Advanced(AnswerClientHello(v.0, m)) else Advanced(v)
    case HelloRequest =>
      if p.state != Connected then (q, 0) else Advanced(AnswerHelloRequest(q, m.answers))
    case OtherKind => (q, UNEXPECTED_MESSAGE)
  }

  /** check_server_hello, check_server_hellodone */
  function AnswerServerHello(p: Peer, a: Answers): (r: (Peer, int))
    requires p.slot0.Some?
    ensures r.0.hs == p.hs && r.0.slot0.Some? && Later(p, r.0)
  {
    var k := KeyBlocks(p, a.keys);
    if k.1 < 0 then k
    else
      var s := Send(Switch(k.0), true, a.reply);
      if s.1 < 0 then s else (s.0.(state := WaitFinished, opener := ServerHello), s.1)
  }

  /** A Finished message that verifies. */
  function AcceptFinished(p: Peer, a: Answers): (r: (Peer, int))
    ensures (r.0.hs.None? || (r.0.hs == p.hs && r.1 < 0)) && Later(p, r.0)
    ensures p.slot0.Some? && r.1 >= 0 ==> r.0.slot0.Some?
  {
    if p.role.Client? then (p.(hs := None, state := Connected), a.check)
    else
      var w := Switch(p).(misfinished := p.misfinished || p.opener == ServerHello);
      if w.slot0.None? then (w, ALERT_INTERNAL_ERROR)
      else
        var s := Send(w, true, a.reply);
        if s.1 < 0 then s else (s.0.(hs := None, state := Connected), s.1)
  }

  /** A Client Hello with a valid cookie: the rest of that branch. */
  function AnswerClientHello(p: Peer, m: Message): (r: (Peer, int))
    requires p.slot0.Some?
    ensures p.hs.Some? ==> r.0.hs == p.hs
    ensures r.0.slot0.Some? && Later(p, r.0)
  {
    var q := if p.hs.None? then p.(hs := Some(Handshake(m.number, [], []))) else p;
    if m.answers.update < 0 then (q, m.answers.update)
    else
      var s := Send(q, true, m.answers.reply);
      if s.1 < 0 then s
      else KeyBlocks(s.0.(state := WaitFinished, opener := ClientHello), m.answers.keys)
  }

  function AnswerHelloRequest(p: Peer, a: Answers): (r: (Peer, int))
    requires p.slot0.Some?
    ensures p.hs.Some? ==> r.0.hs == p.hs
    ensures r.0.slot0.Some? && Later(p, r.0)
  {
    var q := if p.hs.None? then p.(hs := Some(Handshake(0, [], []))) else p;
    var s := Send(q, true, a.reply);
    if s.1 < 0 then s else (s.0.(state := AwaitServerHello), s.1)
  }

  // ---------------------------------------------------------------- sequencing

  function Queued(queue: seq<Message>, number: nat): (k: nat)
    ensures k <= |queue| && (k < |queue| ==> queue[k].number == number)
    ensures forall j :: 0 <= j < k ==> queue[j].number != number
  {
    if queue == [] then 0
    else if queue[0].number == number then 0
    else 1 + Queued(queue[1..], number)
  }

  function Removed(queue: seq<Message>, k: nat): (q: seq<Message>)
    requires k < |queue|
    ensures |q| == |queue| - 1
  {
    queue[..k] + queue[k + 1..]
  }

  /** Handle a message whose turn it is, and record that in the trace. */
  function InTurn(p: Peer, m: Message): (r: (Peer, int))
    requires p.slot0.Some? && p.hs.Some?
    ensures Later(p, r.0) && (r.1 >= 0 ==> r.0.slot0.Some?)
  {
    var r := Handle(p, m);
    if r.0.hs.None? then r
    else
      var h := r.0.hs.value;
      (r.0.(hs := Some(h.(trace := h.trace + [Dispatch(m.number, h.mseqR != p.hs.value.mseqR)]))), r.1)
  }

  lemma HandleKeepsQueue(p: Peer, m: Message)
    requires p.slot0.Some? && p.hs.Some?
    ensures var q := Handle(p, m).0;
            && (q.hs.Some? ==> (q.hs.value.queue == p.hs.value.queue && q.hs.value.trace == p.hs.value.trace))
            && (q.hs.Some? ==>
                  var was, now := p.hs.value.mseqR, q.hs.value.mseqR;
                  if Handle(p, m).1 < 0 || (m.kind.HelloRequest? && !p.state.Connected?) then now == was
                  else now == (was + 1) % 0x1_0000)
  {
    hide Send, AnswerServerHello, AcceptFinished, AnswerClientHello, AnswerHelloRequest, Later;
  }

  /** The loop that takes from the reorder queue whatever is next. */
  function Drain(p: Peer, res: int): (r: (Peer, int))
    requires p.slot0.Some?
    ensures Later(p, r.0)
    decreases if p.hs.Some? then |p.hs.value.queue| else 0
  {
    if p.hs.None? then (p, res)
    else
      var h := p.hs.value;
      var k := Queued(h.queue, h.mseqR);
      if k == |h.queue| then (p, res)
      else
        var q := p.(hs := Some(h.(queue := Removed(h.queue, k))));
        var r := InTurn(q, h.queue[k]);
        HandleKeepsQueue(q, h.queue[k]);
        if r.1 < 0 then r else Drain(r.0, r.1)
  }

  /** handle_handshake */
  function HandleHandshake(p: Peer, m: Message): (r: (Peer, int))
    requires p.slot0.Some?
    ensures Later(p, r.0)
  {
    if m.length < HS_LENGTH then (p, DECODE_ERROR)
    else if p.hs.None? then
      if m.kind.ClientHello? || m.kind.HelloRequest? then Handle(p, m) else (p, 0)
    else
      var h := p.hs.value;
      if m.number < h.mseqR then (p, 0)
      else if m.number > h.mseqR then
        if m.length > MAX_BUF || Queued(h.queue, m.number) < |h.queue| then (p, 0)
        else (p.(hs := Some(h.(queue := h.queue + [m]))), 0)
      else
        var r := InTurn(p, m);
        if r.1 < 0 then r else Drain(r.0, r.1)
  }

  // ---------------------------------------------------------------- events

  datatype Content = Alert(data: seq<byte>, reply: Sending) | HandshakeMessage(message: Message)
                   | ApplicationData | Unreadable

  datatype Event = Receive(epoch: nat, opens: bool, content: Content, alert: Sending)
                 | Timeout(index: nat)
                 | Write(sending: Sending)
                 | Close(sending: Sending)
                 | Renegotiate(sending: Sending)

  /** dtls_alert_send_from_err: some error codes close the connection, others go unnoticed. */
  function AlertFromError(p: Peer, err: int, alert: Sending): (q: Peer)
    requires p.slot0.Some?
    ensures Later(p, q)
  {
    if -768 < err < -256 || err == -1 then Send(p.(state := Closing), false, alert).0 else p
  }

  predicate BeforeConnected(s: State)
  {
    s.Init? || s.WaitFinished? || s.AwaitServerHello?
  }

  /** decrypt_verify, without the contents: whether the record opens, and which parameters stay. */
  function Decrypt(p: Peer, epoch: nat, opens: bool): (r: Option<Peer>)
    ensures r.Some? ==> r.value.slot0 == p.slot0 && Later(p, r.value)
  {
    match Lookup(p, epoch)
    case None => None
    case Some(s) => if !s.encrypts then Some(p) else if opens then Some(FreeOther(p)) else None
  }

  /** Handshake records must carry the current epoch, towards a server that waits for Finished
      the next one. */
  function ExpectedEpoch(p: Peer): nat
    requires p.slot0.Some?
  {
    if p.role.Server? && p.state.WaitFinished? then (p.slot0.value.epoch + 1) % 0x1_0000 else p.slot0.value.epoch
  }

  /** Alerts of less than two bytes only end the retransmissions. */
  function ReceiveAlert(p: Peer, data: seq<byte>, reply: Sending): (q: Peer)
    requires p.slot0.Some?
    ensures Later(p, q)
  {
    hide Send;
    if |data| < 2 then p.(sendqueue := [])
    else
      var q := p.(sendqueue := [], alive := p.alive && data[0] != LEVEL_FATAL && data[1] != CLOSE_NOTIFY);
      if data[1] != CLOSE_NOTIFY then q
      else if p.state.Closing? then q.(state := Closed)
      else Send(q.(state := Closing), false, reply).0
  }

  function ReceiveHandshake(p: Peer, epoch: nat, m: Message, alert: Sending): (q: Peer)
    requires p.slot0.Some?
    ensures Later(p, q)
  {
    hide HandleHandshake, AlertFromError;
    if epoch != ExpectedEpoch(p) then p
    else
      var r := HandleHandshake(p, m);
      if r.1 < 0 then if r.0.slot0.None? then r.0 else AlertFromError(r.0, r.1, alert)
      else if r.0.state.Connected? then r.0.(sendqueue := [])
      else r.0
  }

  /** The content of one record that opened. */
  function Delivered(p: Peer, epoch: nat, content: Content, alert: Sending): (q: Peer)
    requires p.slot0.Some?
    ensures Later(p, q)
  {
    hide ReceiveAlert, ReceiveHandshake;
    match content
    case Alert(data, reply) => ReceiveAlert(p, data, reply)
    case HandshakeMessage(m) => ReceiveHandshake(p, epoch, m, alert)
    case ApplicationData => p.(sendqueue := [])
    case Unreadable => p
  }

  /** One record. If it does not open before the connection stands, the peer is destroyed. */
  function ReceiveRecord(p: Peer, epoch: nat, opens: bool, content: Content, alert: Sending): (q: Peer)
    requires p.slot0.Some?
    ensures Later(p, q)
  {
    hide AlertFromError, Delivered;
    match Decrypt(p, epoch, opens)
    case None =>
      if BeforeConnected(p.state) then AlertFromError(p, DECRYPT_ERROR, alert).(state := Closed, alive := false) else p
    case Some(q) => Delivered(q, epoch, content, alert)
  }

  /** One event; a peer that has been destroyed takes part in none. */
  function Step(p: Peer, e: Event): (q: Peer)
    ensures Later(p, q)
  {
    hide ReceiveRecord;
    if !p.alive || p.slot0.None? then p
    else
      match e
      case Receive(epoch, opens, content, alert) => ReceiveRecord(p, epoch, opens, content, alert)
      case Timeout(i) => if i < |p.sendqueue| then Retransmit(p, i) else p
      case Write(sending) => if p.state.Connected? then Send(p, false, sending).0 else p
      case Close(sending) => Send(p, false, sending).0.(state := Closing)
      case Renegotiate(sending) =>
        if !p.state.Connected? then p
        else
          var r := Send(p.(hs := Some(Handshake(0, [], []))), true, sending);
          if p.role.Client? && r.1 >= 0 then r.0.(state := AwaitServerHello) else r.0
  }

  /** dtls_connect: a client that has sent its first Client Hello. */
  function Connect(sending: Sending): Peer
  {
    var p := Peer(Client, Init, Some(NewSecurity(0, 0)), None, Some(Handshake(0, [], [])), [], true,
                  1, [], OtherKind, false, false, []);
    var r := Send(p, true, sending);
    if r.1 < 0 then r.0 else r.0.(state := AwaitServerHello)
  }

  /** A server's peer, made for a Client Hello with a valid cookie. Record number 0 was used by the
      Hello Verify Request. */
  function Accept(m: Message, alert: Sending): Peer
  {
    var p := Peer(Server, Init, Some(NewSecurity(0, 0).(rseq := 1)), None, None, [], true,
                  1, [], OtherKind, false, false, []);
    var r := Advanced(AnswerClientHello(p, m));
    if r.1 < 0 && r.0.slot0.Some? then AlertFromError(r.0, r.1, alert) else r.0
  }

  function Run(p: Peer, es: seq<Event>): Peer
  {
    if es == [] then p else Step(Run(p, es[..|es| - 1]), es[|es| - 1])
  }

  // ---------------------------------------------------------------- security contexts and numbers

  predicate Fresh(p: Peer)
  {
    p.slot0.Some? && p.slot1.Some? && p.slot1.value.epoch == p.slot0.value.epoch + 1
  }

  /** Slot 0 is never null; slot 1, if present, is other parameters exactly one epoch away. */
  predicate Slots(p: Peer)
  {
    && p.slot0.Some? && p.slot0.value.id < p.nextId && p.slot0.value.epoch < p.nextId
    && (p.slot0.value.id == 0 <==> p.slot0.value.epoch == 0)
    && (p.slot1.Some? ==>
          && p.slot1.value.id < p.nextId && p.slot1.value.epoch < p.nextId
          && p.slot1.value.id != p.slot0.value.id
          && (p.slot1.value.id == 0 <==> p.slot1.value.epoch == 0)
          && (p.slot1.value.epoch == p.slot0.value.epoch + 1 || p.slot1.value.epoch + 1 == p.slot0.value.epoch))
  }

  /** The records prepared under one set of parameters carry its epoch and smaller numbers than
      its next one. */
  predicate Behind(s: Security, log: seq<Prepared>)
  {
    forall i :: 0 <= i < |log| && log[i].id == s.id ==> log[i].epoch == s.epoch && log[i].seqno < s.rseq
  }

  predicate Numbered(p: Peer)
  {
    && Slots(p)
    && Behind(p.slot0.value, p.log)
    && (p.slot1.Some? ==> Behind(p.slot1.value, p.log))
    && (forall i :: 0 <= i < |p.log| ==> p.log[i].id < p.nextId && p.log[i].epoch < p.nextId)
    && UniquePerContext(p.log)
  }

  predicate UniquePerContext(log: seq<Prepared>)
  {
    forall i, j :: 0 <= i < j < |log| ==> log[i].id != log[j].id || log[i].seqno != log[j].seqno
  }

  lemma LogOne(s: Security, log: seq<Prepared>)
    requires Behind(s, log) && UniquePerContext(log)
    ensures Behind(Use(s), log + [Entry(s)]) && UniquePerContext(log + [Entry(s)])
  {
  }

  lemma LogOther(s: Security, t: Security, log: seq<Prepared>)
    requires Behind(t, log) && t.id != s.id
    ensures Behind(t, log + [Entry(s)])
  {
  }

  /** A record under the parameters of either slot. */
  lemma Use0Numbered(p: Peer)
    requires Numbered(p)
    ensures Numbered(Use0(p))
  {
    hide Behind, UniquePerContext;
    LogOne(p.slot0.value, p.log);
    if p.slot1.Some? { LogOther(p.slot0.value, p.slot1.value, p.log); }
  }

  lemma Use1Numbered(p: Peer)
    requires Numbered(p) && p.slot1.Some?
    ensures Numbered(Use1(p))
  {
    hide Behind, UniquePerContext;
    LogOther(p.slot1.value, p.slot0.value, p.log);
    LogOne(p.slot1.value, p.log);
  }

  lemma NumberedElsewhere(p: Peer, q: Peer)
    requires Numbered(p) && p.(sendqueue := q.sendqueue) == q
    ensures Numbered(q)
  {
    hide Behind, UniquePerContext;
  }

  lemma SendNumbered(p: Peer, retransmit: bool, sending: Sending)
    requires Numbered(p)
    ensures Numbered(Send(p, retransmit, sending).0)
  {
    Use0Numbered(p);
    hide Numbered, Use0;
    NumberedElsewhere(Use0(p), Send(p, retransmit, sending).0);
  }

  lemma RetransmitNumbered(p: Peer, i: nat)
    requires Numbered(p) && i < |p.sendqueue|
    ensures Numbered(Retransmit(p, i))
  {
    assert p.slot0.Some?;
    var q := p.(sendqueue := Retransmit(p, i).sendqueue);
    NumberedElsewhere(p, q);
    hide Numbered, Use0, Use1;
    Use0Numbered(q);
    if q.slot1.Some? { Use1Numbered(q); }
    RetransmitsUnder(p, i);
  }

  lemma RetransmitsUnder(p: Peer, i: nat)
    requires p.slot0.Some? && i < |p.sendqueue|
    ensures var q := p.(sendqueue := Retransmit(p, i).sendqueue);
            Retransmit(p, i) == q || Retransmit(p, i) == Use0(q) || (p.slot1.Some? && Retransmit(p, i) == Use1(q))
  {
  }

  lemma KeyBlocksNumbered(p: Peer, keys: Option<KeyBlock>)
    requires Numbered(p) && p.nextId < 0x1_0000
    ensures Numbered(KeyBlocks(p, keys).0) && Fresh(KeyBlocks(p, keys).0)
    ensures KeyBlocks(p, keys).0.nextId == p.nextId + 1
  {
  }

  lemma SwitchNumbered(p: Peer)
    requires Numbered(p) && p.slot1.Some?
    ensures Numbered(Switch(p))
  {
    hide Behind, UniquePerContext;
  }

  lemma FreeOtherNumbered(p: Peer)
    requires Numbered(p)
    ensures Numbered(FreeOther(p)) && FreeOther(p).slot0 == p.slot0 && (Fresh(p) <==> Fresh(FreeOther(p)))
  {
    hide Behind, UniquePerContext;
  }

  // ---------------------------------------------------------------- epochs over the whole life of a peer

  predicate SameEpochSameContext(log: seq<Prepared>)
  {
    forall i, j :: 0 <= i < |log| && 0 <= j < |log| && log[i].epoch == log[j].epoch ==> log[i].id == log[j].id
  }

  /** No record was prepared under parameters newer than those in use, and each epoch was used
      with one set of parameters. */
  predicate UpTo(s: Security, log: seq<Prepared>)
  {
    forall i :: 0 <= i < |log| ==> log[i].epoch <= s.epoch && (log[i].epoch == s.epoch ==> log[i].id == s.id)
  }

  predicate Alone(s: Security, log: seq<Prepared>)
  {
    forall i :: 0 <= i < |log| && log[i].epoch == s.epoch ==> log[i].id == s.id
  }

  predicate Sent(nodes: seq<Node>, epoch: nat)
  {
    forall i :: 0 <= i < |nodes| ==> nodes[i].epoch <= epoch
  }

  /** The parameters put to use were the first, second, third and so on, each unused until then;
      the last of them, or the initial ones, are in use, and the next have not been used yet. */
  predicate Climbed(p: Peer)
  {
    && (forall k :: 0 <= k < |p.promoted| ==> p.promoted[k].epoch == k + 1 && p.promoted[k].rseq == 0)
    && p.slot0.Some? && p.slot0.value.epoch == |p.promoted| && (Fresh(p) ==> p.slot1.value.rseq == 0)
  }

  predicate Ordered(p: Peer)
  {
    && p.slot0.Some? && UpTo(p.slot0.value, p.log)
    && Climbed(p)
    && (p.slot1.Some? && !Fresh(p) ==> Alone(p.slot1.value, p.log))
    && SameEpochSameContext(p.log)
    && Sent(p.sendqueue, p.slot0.value.epoch)
  }

  lemma OrderOne(s: Security, t: Security, log: seq<Prepared>)
    requires UpTo(s, log) && SameEpochSameContext(log)
    requires t == s || (t.epoch < s.epoch && Alone(t, log))
    ensures UpTo(s, log + [Entry(t)]) && SameEpochSameContext(log + [Entry(t)])
    ensures forall u: Security :: Alone(u, log) && (u.epoch == t.epoch ==> u.id == t.id) ==> Alone(u, log + [Entry(t)])
  {
  }

  lemma SendOrdered(p: Peer, retransmit: bool, sending: Sending)
    requires Slots(p) && Ordered(p)
    ensures Ordered(Send(p, retransmit, sending).0)
  {
    hide UpTo, Alone, SameEpochSameContext;
    OrderOne(p.slot0.value, p.slot0.value, p.log);
    SameUpTo(p.slot0.value, p.log + [Entry(p.slot0.value)]);
  }

  lemma SameUpTo(s: Security, log: seq<Prepared>)
    ensures UpTo(s, log) <==> UpTo(Use(s), log)
    ensures Alone(s, log) <==> Alone(Use(s), log)
  {
  }

  lemma RetransmitOrdered(p: Peer, i: nat)
    requires Slots(p) && Ordered(p) && i < |p.sendqueue|
    ensures Ordered(Retransmit(p, i))
  {
    hide UpTo, Alone, SameEpochSameContext, Sent;
    var n := p.sendqueue[i];
    SentWithout(p.sendqueue, i, p.slot0.value.epoch);
    var s := Lookup(p, n.epoch);
    if s.Some? {
      assert n.epoch <= p.slot0.value.epoch;
      OrderOne(p.slot0.value, s.value, p.log);
      SameUpTo(p.slot0.value, p.log + [Entry(s.value)]);
      SameUpTo(s.value, p.log + [Entry(s.value)]);
    }
  }

  lemma SentWithout(nodes: seq<Node>, i: nat, epoch: nat)
    requires Sent(nodes, epoch) && i < |nodes|
    ensures nodes[i].epoch <= epoch && Sent(nodes[..i] + nodes[i + 1..], epoch)
    ensures forall c :: Sent(nodes[i := nodes[i].(count := c)], epoch)
  {
  }

  lemma SwitchUpOrdered(p: Peer)
    requires Slots(p) && Ordered(p) && Fresh(p)
    ensures Ordered(Switch(p)) && Switch(p).lowered == p.lowered
    ensures p.slot1.Some? && Switch(p).slot0 == p.slot1
  {
  }

  lemma KeyBlocksOrdered(p: Peer, keys: Option<KeyBlock>)
    requires Slots(p) && Ordered(p) && p.nextId < 0x1_0000
    ensures Ordered(KeyBlocks(p, keys).0)
  {
    hide UpTo, Alone, SameEpochSameContext;
  }

  lemma FreeOtherOrdered(p: Peer)
    requires Ordered(p)
    ensures Ordered(FreeOther(p))
  {
    hide UpTo, Alone, SameEpochSameContext;
  }

  // ---------------------------------------------------------------- every step keeps them

  predicate Opened(p: Peer)
  {
    && (p.state.WaitFinished? ==> p.opener == ClientHello || p.opener == ServerHello)
    && (!p.misfinished && p.role.Server? && p.state.WaitFinished? && Fresh(p) ==> p.opener == ClientHello)
  }

  predicate Epochs(p: Peer)
  {
    && Numbered(p)
    && (!p.misfinished ==> Ordered(p))
    && (p.lowered <==> p.misfinished)
    && Opened(p)
  }

  /** A Finished message may be handled: there are parameters to switch to, newer ones exactly
      if the handshake was opened by a Client Hello. */
  predicate Ready(p: Peer)
  {
    p.role.Server? && p.state.WaitFinished? ==>
      p.slot1.Some? && (!p.misfinished ==> (Fresh(p) <==> p.opener == ClientHello))
  }

  /** Nothing but a misdirected Finished lowers the epoch. */
  predicate NotLower(p: Peer, q: Peer)
  {
    p.slot0.Some? && q.slot0.Some? && (!q.misfinished ==> p.slot0.value.epoch <= q.slot0.value.epoch)
  }

  lemma SendEpochs(p: Peer, retransmit: bool, sending: Sending)
    requires Epochs(p)
    ensures var q := Send(p, retransmit, sending).0;
            && Epochs(q) && NotLower(p, q) && q.slot1 == p.slot1 && (Fresh(p) <==> Fresh(q))
            && q.state == p.state && q.role == p.role && q.opener == p.opener && q.misfinished == p.misfinished
            && q.nextId == p.nextId && q.lowered == p.lowered
  {
    hide Behind, UniquePerContext, Ordered, Numbered;
    SendNumbered(p, retransmit, sending);
    assert Slots(p) by { assert Numbered(p); SlotsOfNumbered(p); }
    if !p.misfinished { SendOrdered(p, retransmit, sending); }
  }

  lemma SlotsOfNumbered(p: Peer)
    requires Numbered(p)
    ensures Slots(p)
  {
  }

  lemma KeyBlocksEpochs(p: Peer, keys: Option<KeyBlock>)
    requires Epochs(p) && p.nextId < 0x1_0000
    ensures var q := KeyBlocks(p, keys).0;
            && Numbered(q) && (!q.misfinished ==> Ordered(q)) && (q.lowered <==> q.misfinished) && Fresh(q)
            && q.slot0 == p.slot0 && q.state == p.state && q.role == p.role && q.opener == p.opener
            && q.misfinished == p.misfinished
  {
    hide Behind, UniquePerContext, Ordered, Numbered;
    SlotsOfNumbered(p);
    KeyBlocksNumbered(p, keys);
    if !p.misfinished { KeyBlocksOrdered(p, keys); }
  }

  lemma AnswerServerHelloEpochs(p: Peer, a: Answers)
    requires Epochs(p) && p.state.AwaitServerHello? && AnswerServerHello(p, a).0.nextId <= 0x1_0000
    ensures var r := AnswerServerHello(p, a); Epochs(r.0) && NotLower(p, r.0) && (r.1 >= 0 ==> Ready(r.0))
  {
    hide Behind, UniquePerContext, UpTo, Alone, SameEpochSameContext, Sent, Send, KeyBlocks;
    SlotsOfNumbered(p);
    assert p.nextId < 0x1_0000 by { KeyBlocksAllocates(p, a.keys); }
    KeyBlocksEpochs(p, a.keys);
    var k := KeyBlocks(p, a.keys);
    if k.1 >= 0 {
      SwitchNumbered(k.0);
      SlotsOfNumbered(k.0);
      if !k.0.misfinished { SwitchUpOrdered(k.0); }
      SendEpochs(Switch(k.0), true, a.reply);
    }
  }

  lemma KeyBlocksAllocates(p: Peer, keys: Option<KeyBlock>)
    requires p.slot0.Some?
    ensures KeyBlocks(p, keys).0.nextId == p.nextId + 1 && KeyBlocks(p, keys).0.slot1.Some?
  {
  }

  /** The handshake parameters and the end of the retransmissions do not matter here, nor does a
      state in which no Finished message is awaited. */
  lemma Elsewhere(p: Peer, q: Peer)
    requires Epochs(p) && p.(hs := q.hs, sendqueue := q.sendqueue, alive := q.alive, state := q.state) == q
    requires q.sendqueue == [] || q.sendqueue == p.sendqueue
    requires q.state == p.state || !q.state.WaitFinished?
    ensures Epochs(q) && NotLower(p, q) && (q.state == p.state ==> (Ready(p) <==> Ready(q)))
  {
    hide Behind, UniquePerContext, UpTo, Alone, SameEpochSameContext;
  }

  lemma AcceptFinishedEpochs(p: Peer, a: Answers)
    requires Epochs(p) && Ready(p) && p.state.WaitFinished?
    ensures var r := AcceptFinished(p, a); Epochs(r.0) && NotLower(p, r.0) && (r.1 >= 0 ==> Ready(r.0))
  {
    hide Behind, UniquePerContext, UpTo, Alone, SameEpochSameContext, Sent, Send;
    if p.role.Client? {
      Elsewhere(p, AcceptFinished(p, a).0);
    } else {
      SwitchNumbered(p);
      var w := Switch(p).(misfinished := p.misfinished || p.opener == ServerHello);
      if !w.misfinished { SwitchUpOrdered(p); }
      assert Epochs(w);
      SendEpochs(w, true, a.reply);
    }
  }

  lemma AnswerClientHelloEpochs(p: Peer, m: Message)
    requires Epochs(p) && !p.state.WaitFinished? && AnswerClientHello(p, m).0.nextId <= 0x1_0000
    ensures var r := AnswerClientHello(p, m); Epochs(r.0) && NotLower(p, r.0) && (r.1 >= 0 ==> Ready(r.0))
  {
    hide Behind, UniquePerContext, UpTo, Alone, SameEpochSameContext, Sent, Send, KeyBlocks;
    var q := if p.hs.None? then p.(hs := Some(Handshake(m.number, [], []))) else p;
    Elsewhere(p, q);
    if m.answers.update >= 0 {
      SendEpochs(q, true, m.answers.reply);
      var s := Send(q, true, m.answers.reply);
      if s.1 >= 0 {
        var t := s.0.(opener := ClientHello);
        assert Epochs(t);
        KeyBlocksAllocates(t.(state := WaitFinished), m.answers.keys);
        KeyBlocksElsewhere(t, m.answers.keys);
        KeyBlocksEpochs(t, m.answers.keys);
      }
    }
  }

  lemma KeyBlocksElsewhere(p: Peer, keys: Option<KeyBlock>)
    requires p.slot0.Some?
    ensures KeyBlocks(p.(state := WaitFinished), keys)
         == (KeyBlocks(p, keys).0.(state := WaitFinished), KeyBlocks(p, keys).1)
  {
  }

  lemma AnswerHelloRequestEpochs(p: Peer, a: Answers)
    requires Epochs(p) && !p.state.WaitFinished?
    ensures var r := AnswerHelloRequest(p, a); Epochs(r.0) && NotLower(p, r.0) && (r.1 >= 0 ==> Ready(r.0))
  {
    hide Behind, UniquePerContext, UpTo, Alone, SameEpochSameContext, Sent, Send;
    var q := if p.hs.None? then p.(hs := Some(Handshake(0, [], []))) else p;
    Elsewhere(p, q);
    SendEpochs(q, true, a.reply);
    var s := Send(q, true, a.reply);
    Elsewhere(s.0, s.0.(state := AwaitServerHello));
  }

  lemma AdvancedEpochs(p: Peer, r: (Peer, int))
    requires Epochs(r.0) && NotLower(p, r.0) && (r.1 >= 0 ==> Ready(r.0))
    ensures Epochs(Advanced(r).0) && NotLower(p, Advanced(r).0) && (Advanced(r).1 >= 0 ==> Ready(Advanced(r).0))
    ensures Advanced(r).1 == r.1
  {
    hide Epochs;
    if r.1 >= 0 { Elsewhere(r.0, Advance(r.0)); }
  }

  lemma HandleEpochs(p: Peer, m: Message)
    requires Epochs(p) && Ready(p) && Handle(p, m).0.nextId <= 0x1_0000
    ensures var r := Handle(p, m); Epochs(r.0) && NotLower(p, r.0) && (r.1 >= 0 ==> Ready(r.0))
  {
    hide Epochs, Ready, Send, AnswerServerHello, AcceptFinished, AnswerClientHello, AnswerHelloRequest;
    var q := p.(sendqueue := []);
    Elsewhere(p, q);
    var a := m.answers;
    match m.kind
    case HelloVerifyRequest =>
      if p.state.AwaitServerHello? && a.check >= 0 {
        SendEpochs(q, true, a.reply);
        NotWaiting(Send(q, true, a.reply).0);
        AdvancedEpochs(p, Send(q, true, a.reply));
      }
    case ServerHello =>
      if p.state.AwaitServerHello? && a.check >= 0 {
        AnswerServerHelloEpochs(q, a);
        AdvancedEpochs(p, AnswerServerHello(q, a));
      }
    case Finished =>
      if p.state.WaitFinished? && a.check >= 0 {
        AcceptFinishedEpochs(q, a);
      }
    case ClientHello =>
      if p.state.Connected? && a.check >= 0 {
        if a.cookie {
          AnswerClientHelloEpochs(q, m);
          AdvancedEpochs(p, AnswerClientHello(q, m));
        } else {
          var v := Send(q, false, a.verify);
          SendEpochs(q, false, a.verify);
          NotWaiting(v.0);
          AdvancedEpochs(p, v);
          if v.1 == 0 {
            AnswerClientHelloEpochs(v.0, m);
            AdvancedEpochs(p, AnswerClientHello(v.0, m));
          }
        }
      }
    case HelloRequest =>
      if p.state.Connected? {
        AnswerHelloRequestEpochs(q, a);
        AdvancedEpochs(p, AnswerHelloRequest(q, a));
      }
    case OtherKind =>
  }

  lemma NotWaiting(p: Peer)
    requires !p.state.WaitFinished?
    ensures Ready(p)
  {
  }

  lemma InTurnEpochs(p: Peer, m: Message)
    requires Epochs(p) && Ready(p) && p.hs.Some? && InTurn(p, m).0.nextId <= 0x1_0000
    ensures var r := InTurn(p, m); Epochs(r.0) && NotLower(p, r.0) && (r.1 >= 0 ==> Ready(r.0))
  {
    hide Epochs, Ready, Handle;
    HandleEpochs(p, m);
    Elsewhere(Handle(p, m).0, InTurn(p, m).0);
  }

  lemma {:induction false} DrainEpochs(p: Peer, res: int)
    requires Epochs(p) && Ready(p) && res >= 0 && Drain(p, res).0.nextId <= 0x1_0000
    ensures var r := Drain(p, res); Epochs(r.0) && NotLower(p, r.0)
    decreases if p.hs.Some? then |p.hs.value.queue| else 0
  {
    hide Epochs, Ready, InTurn;
    Elsewhere(p, p);
    if p.hs.Some? {
      var h := p.hs.value;
      var k := Queued(h.queue, h.mseqR);
      if k < |h.queue| {
        var q := p.(hs := Some(h.(queue := Removed(h.queue, k))));
        Elsewhere(p, q);
        var r := InTurn(q, h.queue[k]);
        InTurnKeepsQueue(q, h.queue[k]);
        InTurnEpochs(q, h.queue[k]);
        if r.1 >= 0 { DrainEpochs(r.0, r.1); }
      }
    }
  }

  lemma InTurnKeepsQueue(p: Peer, m: Message)
    requires p.slot0.Some? && p.hs.Some?
    ensures var q := InTurn(p, m).0; q.hs.Some? ==> q.hs.value.queue == p.hs.value.queue
  {
    hide Handle;
    HandleKeepsQueue(p, m);
  }

  lemma HandleHandshakeEpochs(p: Peer, m: Message)
    requires Epochs(p) && Ready(p) && HandleHandshake(p, m).0.nextId <= 0x1_0000
    ensures var r := HandleHandshake(p, m); Epochs(r.0) && NotLower(p, r.0)
  {
    assert p.slot0.Some?;
    hide Epochs, Ready, Handle, InTurn, Drain;
    var r := HandleHandshake(p, m);
    if m.length < HS_LENGTH {
      Elsewhere(p, p);
    } else if p.hs.None? {
      if m.kind.ClientHello? || m.kind.HelloRequest? { HandleEpochs(p, m); } else { Elsewhere(p, p); }
    } else if m.number != p.hs.value.mseqR {
      Elsewhere(p, r.0);
    } else {
      var t := InTurn(p, m);
      InTurnEpochs(p, m);
      if t.1 >= 0 { DrainEpochs(t.0, t.1); }
    }
  }

  lemma AlertEpochs(p: Peer, err: int, alert: Sending)
    requires Epochs(p)
    ensures Epochs(AlertFromError(p, err, alert)) && NotLower(p, AlertFromError(p, err, alert))
  {
    hide Epochs;
    Elsewhere(p, p);
    Elsewhere(p, p.(state := Closing));
    SendEpochs(p.(state := Closing), false, alert);
  }

  /** A handshake record that opens under the expected epoch finds the parameters it may switch
      to: a server that waits for Finished takes it only under the next epoch. */
  lemma DecryptEpochs(p: Peer, epoch: nat, opens: bool)
    requires Epochs(p) && p.nextId <= 0x1_0000 && Decrypt(p, epoch, opens).Some?
    ensures var q := Decrypt(p, epoch, opens).value;
            && Epochs(q) && q.slot0 == p.slot0 && q.(slot1 := p.slot1) == p
            && (epoch == ExpectedEpoch(p) ==> Ready(q))
  {
    hide Behind, UniquePerContext, UpTo, Alone, SameEpochSameContext, Sent;
    FreeOtherNumbered(p);
    if !p.misfinished { FreeOtherOrdered(p); }
    if p.role.Server? && p.state.WaitFinished? && epoch == ExpectedEpoch(p) {
      assert Fresh(p);
    }
  }

  lemma StepEpochs(p: Peer, e: Event)
    requires Epochs(p) && Step(p, e).nextId <= 0x1_0000
    ensures Epochs(Step(p, e)) && NotLower(p, Step(p, e))
  {
    Elsewhere(p, p);
    if p.alive {
      match e
      case Receive(epoch, opens, content, alert) => RecordEpochs(p, epoch, opens, content, alert);
      case Timeout(i) =>
        if i < |p.sendqueue| { RetransmitEpochs(p, i); }
      case _ => CallEpochs(p, e);
    }
  }

  lemma RecordEpochs(p: Peer, epoch: nat, opens: bool, content: Content, alert: Sending)
    requires Epochs(p) && ReceiveRecord(p, epoch, opens, content, alert).nextId <= 0x1_0000
    ensures var q := ReceiveRecord(p, epoch, opens, content, alert); Epochs(q) && NotLower(p, q)
  {
    assert p.slot0.Some?;
    Elsewhere(p, p);
    hide Epochs, Ready, AlertFromError, Delivered, Decrypt, ExpectedEpoch;
    match Decrypt(p, epoch, opens)
    case None => DestroyedEpochs(p, alert);
    case Some(q) =>
      DecryptEpochs(p, epoch, opens);
      ReceiveEpochs(q, epoch, content, alert);
  }

  lemma DestroyedEpochs(p: Peer, alert: Sending)
    requires Epochs(p)
    ensures var q := AlertFromError(p, DECRYPT_ERROR, alert).(state := Closed, alive := false);
            Epochs(q) && NotLower(p, q)
  {
    hide Epochs, AlertFromError;
    AlertEpochs(p, DECRYPT_ERROR, alert);
    var q := AlertFromError(p, DECRYPT_ERROR, alert);
    Elsewhere(q, q.(state := Closed, alive := false));
  }

  lemma CallEpochs(p: Peer, e: Event)
    requires Epochs(p) && p.alive && (e.Write? || e.Close? || e.Renegotiate?)
    ensures Epochs(Step(p, e)) && NotLower(p, Step(p, e))
  {
    assert p.slot0.Some?;
    Elsewhere(p, p);
    hide Epochs, Send;
    SendEpochs(p, false, e.sending);
    var s := Send(p, false, e.sending).0;
    Elsewhere(s, s.(state := Closing));
    if e.Renegotiate? { RenegotiateEpochs(p, e.sending); }
  }

  lemma RenegotiateEpochs(p: Peer, sending: Sending)
    requires Epochs(p) && p.alive
    ensures Epochs(Step(p, Renegotiate(sending))) && NotLower(p, Step(p, Renegotiate(sending)))
  {
    assert p.slot0.Some?;
    Elsewhere(p, p);
    hide Epochs, Send;
    var q := p.(hs := Some(Handshake(0, [], [])));
    Elsewhere(p, q);
    SendEpochs(q, true, sending);
    var t := Send(q, true, sending).0;
    Elsewhere(t, t.(state := AwaitServerHello));
  }

  lemma RetransmitEpochs(p: Peer, i: nat)
    requires Epochs(p) && i < |p.sendqueue|
    ensures Epochs(Retransmit(p, i)) && NotLower(p, Retransmit(p, i)) && Later(p, Retransmit(p, i))
  {
    hide Behind, UniquePerContext, UpTo, Alone, SameEpochSameContext, Sent, Numbered, Ordered;
    SlotsOfNumbered(p);
    RetransmitNumbered(p, i);
    if !p.misfinished { RetransmitOrdered(p, i); }
  }

  lemma ReceiveEpochs(p: Peer, epoch: nat, content: Content, alert: Sending)
    requires Epochs(p) && (epoch == ExpectedEpoch(p) ==> Ready(p))
    requires Delivered(p, epoch, content, alert).nextId <= 0x1_0000
    ensures var q := Delivered(p, epoch, content, alert); Epochs(q) && NotLower(p, q)
  {
    assert p.slot0.Some?;
    Elsewhere(p, p);
    hide Epochs, Ready, HandleHandshake, AlertFromError, Send;
    match content
    case Alert(data, reply) =>
      Elsewhere(p, p.(sendqueue := []));
      if |data| >= 2 { AlertReceivedEpochs(p, data, reply); }
    case HandshakeMessage(m) =>
      if epoch == ExpectedEpoch(p) {
        var r := HandleHandshake(p, m);
        AlertLater(r.0, r.1, alert);
        HandleHandshakeEpochs(p, m);
        AlertEpochs(r.0, r.1, alert);
        if r.1 >= 0 { Elsewhere(r.0, r.0.(sendqueue := [])); }
      }
    case ApplicationData => Elsewhere(p, p.(sendqueue := []));
    case Unreadable =>
  }

  lemma AlertReceivedEpochs(p: Peer, data: seq<byte>, reply: Sending)
    requires Epochs(p) && |data| >= 2
    ensures var q := ReceiveAlert(p, data, reply); Epochs(q) && NotLower(p, q)
  {
    assert p.slot0.Some?;
    hide Epochs, Send;
    var q := p.(sendqueue := [], alive := p.alive && data[0] != LEVEL_FATAL && data[1] != CLOSE_NOTIFY);
    Elsewhere(p, q);
    Elsewhere(p, q.(state := Closed));
    Elsewhere(p, q.(state := Closing));
    SendEpochs(q.(state := Closing), false, reply);
  }

  lemma AlertLater(p: Peer, err: int, alert: Sending)
    ensures p.slot0.Some? ==> Later(p, AlertFromError(p, err, alert))
  {
  }

  // ---------------------------------------------------------------- theorems about whole runs

  datatype Start = AsClient(sending: Sending) | AsServer(hello: Message, alert: Sending)

  function Begin(start: Start): Peer
  {
    match start
    case AsClient(sending) => Connect(sending)
    case AsServer(hello, alert) => Accept(hello, alert)
  }

  lemma BeginEpochs(start: Start)
    ensures Epochs(Begin(start))
  {
    match start
    case AsClient(sending) =>
      var p := Peer(Client, Init, Some(NewSecurity(0, 0)), None, Some(Handshake(0, [], [])), [], true,
                    1, [], OtherKind, false, false, []);
      SendEpochs(p, true, sending);
      var r := Send(p, true, sending);
      Elsewhere(r.0, r.0.(state := AwaitServerHello));
    case AsServer(hello, alert) =>
      var p := Peer(Server, Init, Some(NewSecurity(0, 0).(rseq := 1)), None, None, [], true,
                    1, [], OtherKind, false, false, []);
      assert Epochs(p);
      AtMostOne(p, hello);
      AnswerClientHelloEpochs(p, hello);
      hide Epochs, AnswerClientHello;
      AdvancedEpochs(p, AnswerClientHello(p, hello));
      var r := Advanced(AnswerClientHello(p, hello));
      AlertEpochs(r.0, r.1, alert);
  }

  lemma AtMostOne(p: Peer, m: Message)
    requires p.slot0.Some?
    ensures AnswerClientHello(p, m).0.nextId <= p.nextId + 1
  {
  }

  /** Fewer than 2^16 sets of parameters: no epoch number has wrapped. */
  predicate NoWrap(p: Peer) { p.nextId <= 0x1_0000 }

  lemma {:induction false} RunEpochs(p: Peer, es: seq<Event>)
    requires Epochs(p) && NoWrap(Run(p, es))
    ensures Epochs(Run(p, es)) && NotLower(p, Run(p, es)) && Later(p, Run(p, es))
  {
    if es != [] {
      var q := Run(p, es[..|es| - 1]);
      assert Later(q, Step(q, es[|es| - 1]));
      RunEpochs(p, es[..|es| - 1]);
      StepEpochs(q, es[|es| - 1]);
    } else {
      Elsewhere(p, p);
    }
  }

  lemma {:induction false} RunInParts(p: Peer, es: seq<Event>, more: seq<Event>)
    ensures Run(p, es + more) == Run(Run(p, es), more)
    decreases |more|
  {
    hide Step;
    if more == [] {
      assert es + more == es;
    } else {
      var all, last := es + more, more[..|more| - 1];
      assert all[..|all| - 1] == es + last;
      RunInParts(p, es, last);
    }
  }

  lemma {:induction false} RunLater(p: Peer, es: seq<Event>)
    ensures Later(p, Run(p, es))
  {
    if es != [] { RunLater(p, es[..|es| - 1]); }
  }
}
