/**
 * The peer of DtlsPeer as the source keeps it: one object whose fields the handlers update
 * (arduino/libraries/Dtls-s/dtls.c, arduino/libraries/Dtls-s/peer.h).
 */
module DtlsEngine {
  import opened Wrappers
  import opened Bytes
  import opened DtlsRecord
  import P = DtlsPeer

  class Engine {
    var role: Role
    var state: P.State
    var slot0: Option<Security>
    var slot1: Option<Security>
    var hs: Option<P.Handshake>
    var sendqueue: seq<P.Node>
    var alive: bool
    var nextId: nat

    ghost var log: seq<P.Prepared>
    ghost var opener: P.Kind
    ghost var misfinished: bool
    ghost var lowered: bool
    ghost var promoted: seq<Security>

    ghost function View(): P.Peer
      reads this
    {
      P.Peer(role, state, slot0, slot1, hs, sendqueue, alive, nextId, log, opener, misfinished, lowered, promoted)
    }

    // -------------------------------------------------------------- security parameters

    method ParamsNext()
      requires slot0.Some?
      modifies `slot1, `nextId
      ensures View() == P.ParamsNext(old(View()))
    {
      slot1 := Some(P.NewSecurity(nextId, (slot0.value.epoch + 1) % 0x1_0000));
      nextId := nextId + 1;
    }

    method FreeOther()
      modifies `slot1
      ensures View() == P.FreeOther(old(View()))
    {
      if slot0.None? || slot1.None? || slot0.value.epoch < slot1.value.epoch {
        return;
      }
      slot1 := None;
    }

    method Switch()
      modifies `slot0, `slot1, `lowered, `promoted
      ensures View() == P.Switch(old(View()))
    {
      promoted := if slot1.Some? then promoted + [slot1.value] else promoted;
      lowered := lowered || (slot0.Some? && slot1.Some? && slot1.value.epoch < slot0.value.epoch);
      var security := slot1;
      slot1 := slot0;
      slot0 := security;
    }

    method CalculateKeyBlock(keys: Option<KeyBlock>) returns (err: int)
      requires slot0.Some?
      modifies `slot1, `nextId
      ensures (View(), err) == P.KeyBlocks(old(View()), keys)
    {
      ParamsNext();
      if keys.None? {
        return ALERT_INTERNAL_ERROR;
      }
      slot1 := Some(slot1.value.(encrypts := true, keyBlock := keys.value, rseq := 0));
      err := 0;
    }

    // -------------------------------------------------------------- sending

    method SendMulti(retransmit: bool, sending: P.Sending) returns (res: int)
      requires slot0.Some?
      modifies `slot0, `log, `sendqueue
      ensures (View(), res) == P.Send(old(View()), retransmit, sending)
    {
      var s := slot0.value;
      log := log + [P.Prepared(s.id, s.epoch, s.rseq)];
      slot0 := Some(s.(rseq := s.rseq + 1));
      if retransmit && sending.Written? {
        sendqueue := sendqueue + [P.Node(s.epoch, 0)];
      }
      res := sending.Result();
    }

    method Retransmit(i: nat)
      requires i < |sendqueue|
      modifies `slot0, `slot1, `log, `sendqueue
      ensures View() == P.Retransmit(old(View()), i)
    {
      var n := sendqueue[i];
      if n.count >= P.MAX_RETRANSMIT {
        sendqueue := sendqueue[..i] + sendqueue[i + 1..];
        return;
      }
      sendqueue := sendqueue[i := n.(count := n.count + 1)];
      if slot0.Some? && slot0.value.epoch == n.epoch {
        log := log + [P.Prepared(slot0.value.id, slot0.value.epoch, slot0.value.rseq)];
        slot0 := Some(slot0.value.(rseq := slot0.value.rseq + 1));
      } else if slot1.Some? && slot1.value.epoch == n.epoch {
        log := log + [P.Prepared(slot1.value.id, slot1.value.epoch, slot1.value.rseq)];
        slot1 := Some(slot1.value.(rseq := slot1.value.rseq + 1));
      }
    }

    // -------------------------------------------------------------- handshake messages

    method CountReceived()
      modifies `hs
      ensures View() == P.Advance(old(View()))
    {
      if hs.Some? {
        hs := Some(hs.value.(mseqR := (hs.value.mseqR + 1) % 0x1_0000));
      }
    }

    method HandleHandshakeMsg(m: P.Message) returns (err: int)
      requires slot0.Some?
      modifies this
      ensures (View(), err) == P.Handle(old(View()), m)
    {
      hide P.Send, P.KeyBlocks, P.Advance, P.AnswerServerHello, P.AcceptFinished,
           P.AnswerClientHello, P.AnswerHelloRequest;
      sendqueue := [];
      var a := m.answers;
      match m.kind {
        case HelloVerifyRequest =>
          if state != P.AwaitServerHello {
            return P.UNEXPECTED_MESSAGE;
          }
          if a.check < 0 {
            return a.check;
          }
          err := SendMulti(true, a.reply);
        case ServerHello =>
          if state != P.AwaitServerHello {
            return P.UNEXPECTED_MESSAGE;
          }
          if a.check < 0 {
            return a.check;
          }
          err := CheckServerHello(a);
        case Finished =>
          if state != P.WaitFinished {
            return P.UNEXPECTED_MESSAGE;
          }
          if a.check < 0 {
            return a.check;
          }
          err := CheckFinished(a);
          return;
        case ClientHello =>
          if state != P.Connected {
            return P.UNEXPECTED_MESSAGE;
          }
          if a.check < 0 {
            return a.check;
          }
          err := 0;
          if !a.cookie {
            err := SendMulti(false, a.verify);
          }
          if err == 0 {
            err := CheckClientHello(m);
          }
        case HelloRequest =>
          if state != P.Connected {
            return 0;
          }
          err := CheckHelloRequest(a);
        case OtherKind =>
          return P.UNEXPECTED_MESSAGE;
      }
      if err >= 0 {
        CountReceived();
      }
    }

    method CheckServerHello(a: P.Answers) returns (err: int)
      requires slot0.Some?
      modifies this
      ensures (View(), err) == P.AnswerServerHello(old(View()), a)
    {
      hide P.Send;
      err := CalculateKeyBlock(a.keys);
      if err < 0 {
        return;
      }
      Switch();
      err := SendMulti(true, a.reply);
      if err < 0 {
        return;
      }
      state, opener := P.WaitFinished, P.ServerHello;
    }

    method CheckFinished(a: P.Answers) returns (err: int)
      requires slot0.Some?
      modifies this
      ensures (View(), err) == P.AcceptFinished(old(View()), a)
    {
      hide P.Send;
      err := a.check;
      if role.Server? {
        misfinished := misfinished || opener == P.ServerHello;
        Switch();
        if slot0.None? {
          return ALERT_INTERNAL_ERROR;
        }
        err := SendMulti(true, a.reply);
        if err < 0 {
          return;
        }
      }
      hs := None;
      state := P.Connected;
    }

    method CheckClientHello(m: P.Message) returns (err: int)
      requires slot0.Some?
      modifies this
      ensures (View(), err) == P.AnswerClientHello(old(View()), m)
    {
      hide P.Send, P.KeyBlocks;
      if hs.None? {
        hs := Some(P.Handshake(m.number, [], []));
      }
      if m.answers.update < 0 {
        return m.answers.update;
      }
      err := SendMulti(true, m.answers.reply);
      if err < 0 {
        return;
      }
      state, opener := P.WaitFinished, P.ClientHello;
      err := CalculateKeyBlock(m.answers.keys);
    }

    method CheckHelloRequest(a: P.Answers) returns (err: int)
      requires slot0.Some?
      modifies this
      ensures (View(), err) == P.AnswerHelloRequest(old(View()), a)
    {
      hide P.Send;
      if hs.None? {
        hs := Some(P.Handshake(0, [], []));
      }
      err := SendMulti(true, a.reply);
      if err < 0 {
        return;
      }
      state := P.AwaitServerHello;
    }

    // -------------------------------------------------------------- the reorder queue

    /** Search the queue for a message number. */
    method Find(number: nat) returns (k: nat)
      requires hs.Some?
      ensures k == P.Queued(hs.value.queue, number)
    {
      var queue := hs.value.queue;
      k := 0;
      QueuedFrom(queue, 0, number);
      while k < |queue| && queue[k].number != number
        invariant k <= |queue| && P.Queued(queue, number) == k + P.Queued(queue[k..], number)
      {
        QueuedFrom(queue, k, number);
        k := k + 1;
      }
      if k < |queue| { QueuedFrom(queue, k, number); }
    }

    static lemma QueuedFrom(queue: seq<P.Message>, k: nat, number: nat)
      requires k <= |queue|
      ensures queue[0..] == queue && (k == |queue| ==> P.Queued(queue[k..], number) == 0)
      ensures k < |queue| ==>
                P.Queued(queue[k..], number) ==
                  if queue[k].number == number then 0 else 1 + P.Queued(queue[k + 1..], number)
    {
      if k < |queue| { assert queue[k..][1..] == queue[k + 1..]; }
    }

    /** Handle a message in its turn. */
    method TakeTurn(m: P.Message) returns (err: int)
      requires slot0.Some? && hs.Some?
      modifies this
      ensures (View(), err) == P.InTurn(old(View()), m)
    {
      hide P.Handle;
      var mseqR := hs.value.mseqR;
      err := HandleHandshakeMsg(m);
      if hs.Some? {
        hs := Some(hs.value.(trace := hs.value.trace + [P.Dispatch(m.number, hs.value.mseqR != mseqR)]));
      }
    }

    /** handle_handshake: early messages wait in the reorder queue; the expected one is handled,
        and after it, as long as there is one, the waiting message whose turn it is. */
    method HandleHandshake(m: P.Message) returns (res: int)
      requires slot0.Some?
      modifies this
      ensures (View(), res) == P.HandleHandshake(old(View()), m)
    {
      hide P.Handle, P.InTurn, P.Drain, P.Queued;
      if m.length < P.HS_LENGTH {
        return P.DECODE_ERROR;
      }
      if hs.None? {
        if m.kind.ClientHello? || m.kind.HelloRequest? {
          res := HandleHandshakeMsg(m);
          return;
        }
        return 0;
      }
      if m.number < hs.value.mseqR {
        return 0;
      } else if m.number > hs.value.mseqR {
        if m.length > P.MAX_BUF {
          return 0;
        }
        var k := Find(m.number);
        if k < |hs.value.queue| {
          return 0;
        }
        hs := Some(hs.value.(queue := hs.value.queue + [m]));
        return 0;
      }
      res := TakeTurn(m);
      if res >= 0 {
        res := DrainQueue(res);
      }
    }

    method DrainQueue(first: int) returns (res: int)
      requires slot0.Some?
      modifies this
      ensures (View(), res) == P.Drain(old(View()), first)
    {
      hide P.InTurn, P.Queued;
      res := first;
      var next := true;
      while next && hs.Some?
        invariant slot0.Some?
        invariant next ==> P.Drain(View(), res) == P.Drain(old(View()), first)
        invariant !next ==> (View(), res) == P.Drain(old(View()), first)
        decreases next, if hs.Some? then |hs.value.queue| else 0
      {
        ghost var before := View();
        next := false;
        var k := Find(hs.value.mseqR);
        if k < |hs.value.queue| {
          var node := hs.value.queue[k];
          hs := Some(hs.value.(queue := P.Removed(hs.value.queue, k)));
          next := true;
          P.InTurnKeepsQueue(View(), node);
          var r := TakeTurn(node);
          if r < 0 {
            return r;
          }
          res := r;
        }
      }
    }

    // -------------------------------------------------------------- events

    method AlertSendFromErr(err: int, alert: P.Sending)
      requires slot0.Some?
      modifies this
      ensures View() == P.AlertFromError(old(View()), err, alert)
    {
      hide P.Send;
      if -768 < err < -256 || err == -1 {
        state := P.Closing;
        var sent := SendMulti(false, alert);
      }
    }

    /** One record from the network: the loop body of dtls_handle_message. */
    method HandleRecord(epoch: nat, opens: bool, content: P.Content, alert: P.Sending)
      requires slot0.Some?
      modifies this
      ensures View() == P.ReceiveRecord(old(View()), epoch, opens, content, alert)
    {
      hide P.AlertFromError, P.Delivered, P.Later;
      var security := if slot0.value.epoch == epoch then slot0
                      else if slot1.Some? && slot1.value.epoch == epoch then slot1 else None;
      if security.None? || (security.value.encrypts && !opens) {
        if P.BeforeConnected(state) {
          AlertSendFromErr(P.DECRYPT_ERROR, alert);
          state, alive := P.Closed, false;
        }
        return;
      }
      if security.value.encrypts {
        FreeOther();
      }
      Deliver(epoch, content, alert);
    }

    /** The content of a record that opened. */
    method Deliver(epoch: nat, content: P.Content, alert: P.Sending)
      requires slot0.Some?
      modifies this
      ensures View() == P.Delivered(old(View()), epoch, content, alert)
    {
      hide P.ReceiveAlert, P.ReceiveHandshake, P.Later;
      match content
      case Alert(data, reply) =>
        HandleAlert(data, reply);
      case HandshakeMessage(m) =>
        HandleHandshakeRecord(epoch, m, alert);
      case ApplicationData =>
        sendqueue := [];
      case Unreadable =>
    }

    method HandleAlert(data: seq<byte>, reply: P.Sending)
      requires slot0.Some?
      modifies this
      ensures View() == P.ReceiveAlert(old(View()), data, reply)
    {
      hide P.Send;
      sendqueue := [];
      if |data| < 2 {
        return;
      }
      if data[0] == P.LEVEL_FATAL || data[1] == P.CLOSE_NOTIFY {
        alive := false;
      }
      if data[1] == P.CLOSE_NOTIFY {
        if state != P.Closing {
          state := P.Closing;
          var sent := SendMulti(false, reply);
        } else {
          state := P.Closed;
        }
      }
    }

    method HandleHandshakeRecord(epoch: nat, m: P.Message, alert: P.Sending)
      requires slot0.Some?
      modifies this
      ensures View() == P.ReceiveHandshake(old(View()), epoch, m, alert)
    {
      hide P.HandleHandshake, P.AlertFromError;
      var expected := slot0.value.epoch;
      if role.Server? && state == P.WaitFinished {
        expected := (expected + 1) % 0x1_0000;
      }
      if expected != epoch {
        return;
      }
      var err := HandleHandshake(m);
      if err < 0 {
        if slot0.Some? {
          AlertSendFromErr(err, alert);
        }
        return;
      }
      if state == P.Connected {
        sendqueue := [];
      }
    }

    /** dtls_renegotiate */
    method Renegotiate(sending: P.Sending)
      requires slot0.Some? && alive
      modifies this
      ensures View() == P.Step(old(View()), P.Renegotiate(sending))
    {
      hide P.Send;
      if state != P.Connected {
        return;
      }
      hs := Some(P.Handshake(0, [], []));
      var err := SendMulti(true, sending);
      if role.Client? && err >= 0 {
        state := P.AwaitServerHello;
      }
    }

    /** What every run keeps, kept by this object. */
    ghost predicate Valid()
      reads this
    {
      P.Epochs(View())
    }

    /** One record of a run: slot 0 stays, and only a misdirected Finished lowers its epoch. */
    method Receive(epoch: nat, opens: bool, content: P.Content, alert: P.Sending)
      requires Valid() && alive
      requires P.Step(View(), P.Receive(epoch, opens, content, alert)).nextId <= 0x1_0000
      modifies this
      ensures View() == P.Step(old(View()), P.Receive(epoch, opens, content, alert))
      ensures Valid() && slot0.Some? && P.NotLower(old(View()), View())
    {
      P.StepEpochs(View(), P.Receive(epoch, opens, content, alert));
      HandleRecord(epoch, opens, content, alert);
    }
  }
}
