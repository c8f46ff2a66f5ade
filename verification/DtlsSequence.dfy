/**
 * The order in which a DTLS peer handles handshake messages (arduino/libraries/Dtls-s/dtls.c,
 * handle_handshake), over all runs of DtlsPeer.
 */
module DtlsSequence {
  import opened Wrappers
  import opened DtlsPeer

  function Next(d: Dispatch): nat
  {
    if d.advanced then (d.number + 1) % 0x1_0000 else d.number
  }

  /** Each message handled in sequence has the number after the last one that was accepted. */
  predicate Consecutive(trace: seq<Dispatch>, mseqR: nat)
  {
    && (forall i {:trigger trace[i]} :: 0 < i < |trace| ==> trace[i].number == Next(trace[i - 1]))
    && (trace != [] ==> mseqR == Next(trace[|trace| - 1]))
  }

  predicate DistinctNumbers(queue: seq<Message>)
  {
    forall i, j :: 0 <= i < j < |queue| ==> queue[i].number != queue[j].number
  }

  predicate NumbersFrom(queue: seq<Message>, low: nat)
  {
    forall i :: 0 <= i < |queue| ==> low <= queue[i].number < 0x1_0000
  }

  /** The reorder queue holds distinct numbers of messages still to come. */
  predicate InOrder(h: Handshake)
  {
    h.mseqR < 0x1_0000 && DistinctNumbers(h.queue) && NumbersFrom(h.queue, h.mseqR + 1) && Consecutive(h.trace, h.mseqR)
  }

  /** The same while the queue is being drained: the next message may be in it. */
  predicate Draining(h: Handshake)
  {
    h.mseqR < 0x1_0000 && DistinctNumbers(h.queue) && NumbersFrom(h.queue, h.mseqR) && Consecutive(h.trace, h.mseqR)
  }

  predicate Sequenced(p: Peer)
  {
    p.hs.Some? ==> InOrder(p.hs.value)
  }

  lemma OneMore(trace: seq<Dispatch>, d: Dispatch)
    requires Consecutive(trace, d.number)
    ensures Consecutive(trace + [d], Next(d))
  {
    var t := trace + [d];
    forall i | 0 < i < |t| ensures t[i].number == Next(t[i - 1]) {
      if i < |trace| { assert t[i] == trace[i]; }
    }
  }

  lemma RemovedMessages(queue: seq<Message>, k: nat, low: nat)
    requires k < |queue| && DistinctNumbers(queue) && NumbersFrom(queue, low) && queue[k].number == low
    ensures DistinctNumbers(DtlsPeer.Removed(queue, k)) && NumbersFrom(DtlsPeer.Removed(queue, k), low + 1)
  {
    var q := DtlsPeer.Removed(queue, k);
    assert forall i :: 0 <= i < |q| ==> q[i] == queue[if i < k then i else i + 1];
  }

  lemma RoomAbove(queue: seq<Message>, low: nat)
    requires NumbersFrom(queue, low) && queue != []
    ensures low < 0x1_0000
  {
    assert low <= queue[0].number;
  }

  /** A message handled in its turn: accepted ones advance, all others leave the next number as
      it was; the queue is left alone. */
  lemma InTurnDrains(p: Peer, m: Message)
    requires p.slot0.Some? && p.hs.Some? && InOrder(p.hs.value) && m.number == p.hs.value.mseqR
    ensures var r := InTurn(p, m);
            r.0.hs.Some? ==>
              && Draining(r.0.hs.value) && (r.1 < 0 ==> InOrder(r.0.hs.value))
              && r.0.hs.value.trace != [] && r.0.hs.value.trace[..|r.0.hs.value.trace| - 1] == p.hs.value.trace
              && r.0.hs.value.trace[|r.0.hs.value.trace| - 1]
              == Dispatch(m.number, r.1 >= 0 && !(m.kind.HelloRequest? && !p.state.Connected?))
  {
    hide Handle, InOrder, Draining;
    HandleKeepsQueue(p, m);
    var q := Handle(p, m).0;
    if q.hs.Some? {
      var advanced := Handle(p, m).1 >= 0 && !(m.kind.HelloRequest? && !p.state.Connected?);
      Counted(p.hs.value, InTurn(p, m).0.hs.value, advanced);
    }
  }

  lemma Counted(h: Handshake, t: Handshake, advanced: bool)
    requires InOrder(h) && t.queue == h.queue && t.mseqR == if advanced then (h.mseqR + 1) % 0x1_0000 else h.mseqR
    requires t.trace == h.trace + [Dispatch(h.mseqR, t.mseqR != h.mseqR)]
    ensures Draining(t) && (!advanced ==> InOrder(t)) && t.trace[..|t.trace| - 1] == h.trace
    ensures t.trace[|t.trace| - 1] == Dispatch(h.mseqR, advanced)
  {
    OneMore(h.trace, Dispatch(h.mseqR, t.mseqR != h.mseqR));
    if h.queue != [] { RoomAbove(h.queue, h.mseqR + 1); }
    hide Consecutive, DistinctNumbers;
  }

  lemma NotQueued(h: Handshake)
    requires Draining(h) && Queued(h.queue, h.mseqR) == |h.queue|
    ensures InOrder(h)
  {
  }

  lemma OneLess(h: Handshake, k: nat)
    requires Draining(h) && k < |h.queue| && h.queue[k].number == h.mseqR
    ensures InOrder(h.(queue := DtlsPeer.Removed(h.queue, k)))
  {
    RemovedMessages(h.queue, k, h.mseqR);
  }

  lemma {:induction false} DrainInOrder(p: Peer, res: int)
    requires p.slot0.Some? && (p.hs.Some? ==> Draining(p.hs.value))
    ensures Sequenced(Drain(p, res).0)
    decreases if p.hs.Some? then |p.hs.value.queue| else 0
  {
    if p.hs.Some? {
      var h := p.hs.value;
      var k := Queued(h.queue, h.mseqR);
      if k == |h.queue| {
        NotQueued(h);
      } else {
        OneLess(h, k);
        var q := p.(hs := Some(h.(queue := DtlsPeer.Removed(h.queue, k))));
        InTurnDrains(q, h.queue[k]);
        InTurnKeepsQueue(q, h.queue[k]);
        hide InTurn, Draining, InOrder;
        var r := InTurn(q, h.queue[k]);
        if r.1 >= 0 { DrainInOrder(r.0, r.1); }
      }
    }
  }

  /** A message that arrives early waits, once; late ones are dropped; the expected one is handled
      together with all waiting ones that follow it. */
  lemma HandleHandshakeInOrder(p: Peer, m: Message)
    requires p.slot0.Some? && Sequenced(p) && m.number < 0x1_0000
    ensures Sequenced(HandleHandshake(p, m).0)
  {
    hide InTurn, Drain;
    if m.length >= HS_LENGTH {
      if p.hs.None? {
        DirectInOrder(p, m);
      } else if m.number == p.hs.value.mseqR {
        InTurnDrains(p, m);
        var r := InTurn(p, m);
        if r.1 >= 0 { DrainInOrder(r.0, r.1); }
      }
    }
  }

  /** Without handshake parameters a hello starts a new sequence. */
  lemma DirectInOrder(p: Peer, m: Message)
    requires p.slot0.Some? && p.hs.None? && m.number < 0x1_0000
    ensures Sequenced(Handle(p, m).0)
  {
    hide Send, AcceptFinished, AnswerServerHello, AnswerClientHello, AnswerHelloRequest, InOrder, Later;
    var q, a := p.(sendqueue := []), m.answers;
    HelloStarts(q, m);
    HelloStarts(Send(q, false, a.verify).0, m);
  }

  lemma HelloStarts(p: Peer, m: Message)
    requires p.slot0.Some? && p.hs.None? && m.number < 0x1_0000
    ensures Sequenced(Advance(AnswerClientHello(p, m).0)) && Sequenced(AnswerClientHello(p, m).0)
    ensures Sequenced(Advance(AnswerHelloRequest(p, m.answers).0)) && Sequenced(AnswerHelloRequest(p, m.answers).0)
  {
    hide Send, KeyBlocks;
  }

  predicate Wellformed(e: Event)
  {
    e.Receive? && e.content.HandshakeMessage? ==> e.content.message.number < 0x1_0000
  }

  lemma StepInOrder(p: Peer, e: Event)
    requires Sequenced(p) && Wellformed(e)
    ensures Sequenced(Step(p, e))
  {
    hide Send, HandleHandshake, InOrder;
    if p.alive && p.slot0.Some? {
      match e
      case Receive(epoch, opens, content, alert) =>
        var d := Decrypt(p, epoch, opens);
        if d.Some? && content.HandshakeMessage? {
          HandleHandshakeInOrder(d.value, content.message);
        }
      case Renegotiate(sending) => assert InOrder(Handshake(0, [], [])) by { NothingYet(); }
      case _ =>
    }
  }

  lemma NothingYet()
    ensures InOrder(Handshake(0, [], []))
  {
  }

  /** In every run, for any arrival order with losses and duplicates, the queue holds distinct
      numbers above the expected one and messages were handled in consecutive order. */
  lemma {:induction false} SequencedInEveryRun(start: Start, es: seq<Event>)
    requires start.AsServer? ==> start.hello.number < 0x1_0000
    requires forall k :: 0 <= k < |es| ==> Wellformed(es[k])
    ensures Sequenced(Run(Begin(start), es))
  {
    if es == [] {
      hide Send, KeyBlocks;
    } else {
      var before := es[..|es| - 1];
      assert forall k :: 0 <= k < |before| ==> before[k] == es[k];
      SequencedInEveryRun(start, before);
      StepInOrder(Run(Begin(start), before), es[|es| - 1]);
    }
  }

  /** Addition of 16-bit numbers. */
  function Plus(a: nat, n: nat): nat
  {
    (a + n) % 0x1_0000
  }

  lemma PlusOne(a: nat, n: nat)
    requires a < 0x1_0000
    ensures Plus(Plus(a, n), 1) == Plus(a, n + 1) && Plus(a, 0) == a
    ensures 0 < n < 0x1_0000 ==> Plus(a, n) != a
  {
  }

  /** While everything handled is accepted, numbers increase by one each time, so that up to 2^16
      messages no number is handled twice. */
  lemma {:induction false} EachOnce(trace: seq<Dispatch>, mseqR: nat, i: nat, j: nat)
    requires Consecutive(trace, mseqR) && i <= j < |trace| && trace[i].number < 0x1_0000
    requires forall k :: i <= k < j ==> trace[k].advanced
    ensures trace[j].number == Plus(trace[i].number, j - i)
    ensures 0 < j - i < 0x1_0000 ==> trace[j].number != trace[i].number
    decreases j
  {
    hide Plus, Next;
    var a := trace[i].number;
    PlusOne(a, j - i);
    if i < j {
      EachOnce(trace, mseqR, i, j - 1);
      NextIsPlusOne(trace[j - 1]);
      assert trace[j].number == Next(trace[j - 1]);
      PlusOne(a, j - 1 - i);
    }
  }

  lemma NextIsPlusOne(d: Dispatch)
    requires d.advanced
    ensures Next(d) == Plus(d.number, 1)
  {
  }
}
