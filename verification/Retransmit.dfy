/**
 * Outgoing messages of the master's engine (c-master/casan/casan.cc, c-master/casan/msg.cc):
 * transmission and retransmission by the sender thread, correlation of replies by the receiver
 * thread. Each turn of either thread is one step. A message is known by its address.
 */
module Retransmit {
  import opened Numeric
  import opened Wrappers

  const MAX_RETRANSMIT := 4

  type Ptr = nat

  datatype Kind = Con | Non | Ack | Rst

  /** `initial` and `lifetime` record what was drawn at the first transmission. */
  datatype Msg = Msg(kind: Kind, id: nat, ntrans: nat, timeout: nat, nextTimeout: nat, expire: Option<nat>,
                     reqrep: Option<Ptr>, waits: bool, initial: nat, lifetime: nat)

  /** What one transmission meets: whether the network takes the frame, the time, the random
      initial timeout, the lifetime of the message, and the next free message id. */
  datatype Reading = Reading(ok: bool, at: nat, initial: nat, lifetime: nat, nextId: nat)

  /** A message with id 0 gets one when it is first encoded. */
  function NewMessage(kind: Kind, id: nat, waits: bool): Msg
  {
    Msg(kind, id, 0, 0, 0, None, None, waits, 0, 0)
  }

  /** Is a listed message to be sent now? */
  predicate Due(m: Msg, now: nat)
  {
    m.ntrans == 0 || (m.ntrans < MAX_RETRANSMIT && now >= m.nextTimeout)
  }

  function Identified(m: Msg, r: Reading): Msg
  {
    if m.id == 0 then m.(id := r.nextId) else m
  }

  /** The timers of a message after a transmission. */
  function Transmitted(m: Msg, r: Reading): Msg
  {
    if !r.ok then m
    else if m.kind.Con? then
      var t := if m.ntrans == 0 then r.initial else 2 * m.timeout;
      m.(timeout := t, nextTimeout := r.at + t, ntrans := m.ntrans + 1,
         expire := if m.ntrans == 0 then Some(r.at + r.lifetime) else m.expire,
         initial := if m.ntrans == 0 then r.initial else m.initial,
         lifetime := if m.ntrans == 0 then r.lifetime else m.lifetime)
    else m.(ntrans := MAX_RETRANSMIT, expire := Some(r.at + r.lifetime), lifetime := r.lifetime)
  }

  function Timed(m: Msg, r: Reading): (t: Msg)
    ensures t.kind == m.kind && t.reqrep == m.reqrep && t.id == Identified(m, r).id
  {
    Transmitted(Identified(m, r), r)
  }

  /** The times of the successful transmissions of one message. */
  predicate Paced(m: Msg, times: seq<nat>)
  {
    && |times| <= m.ntrans <= MAX_RETRANSMIT
    && (m.ntrans < MAX_RETRANSMIT ==> m.ntrans == |times|)
    && m.expire == (if times == [] then None else Some(times[0] + m.lifetime))
    && (!m.kind.Con? ==> |times| <= 1 && (times != [] ==> m.ntrans == MAX_RETRANSMIT))
    && (m.kind.Con? ==>
          && (forall i {:trigger times[i]} :: 0 < i < |times| ==> times[i] >= times[i - 1] + Pow2(i - 1) * m.initial)
          && (times != [] && m.ntrans == |times| ==>
                && m.timeout == Pow2(|times| - 1) * m.initial
                && m.nextTimeout == times[|times| - 1] + m.timeout))
  }

  lemma TimedPaced(m: Msg, times: seq<nat>, now: nat, r: Reading)
    requires Paced(m, times) && Due(m, now) && now <= r.at
    ensures Paced(Timed(m, r), Later(times, r))
  {
    if r.ok { TransmittedPaced(Identified(m, r), times, now, r); }
  }

  function Later(times: seq<nat>, r: Reading): seq<nat>
  {
    if r.ok then times + [r.at] else times
  }

  lemma TransmittedPaced(m: Msg, times: seq<nat>, now: nat, r: Reading)
    requires Paced(m, times) && Due(m, now) && now <= r.at && r.ok
    ensures Paced(Transmitted(m, r), times + [r.at])
  {
    var later := times + [r.at];
    if m.kind.Con? {
      if times != [] {
        assert Pow2(|times|) == 2 * Pow2(|times| - 1);
        Doubled(Pow2(|times| - 1), m.initial);
      } else {
        assert Pow2(0) == 1;
      }
      forall i | 0 < i < |later| ensures later[i] >= later[i - 1] + Pow2(i - 1) * Transmitted(m, r).initial {
        if i < |times| { assert later[i] == times[i]; }
      }
    }
  }

  lemma NewPaced(kind: Kind, id: nat, waits: bool)
    ensures Paced(NewMessage(kind, id, waits), [])
  {
  }

  lemma Doubled(p: nat, t: nat)
    ensures 2 * p * t == 2 * (p * t)
  {
  }

  /** The k-th retransmission comes no earlier than 2^k - 1 initial timeouts after the first
      transmission. */
  lemma {:induction false} BackOff(m: Msg, times: seq<nat>, k: nat)
    requires Paced(m, times) && m.kind.Con? && k < |times|
    ensures times[k] >= times[0] + (Pow2(k) - 1) * m.initial
  {
    if k == 0 {
      assert Pow2(0) == 1;
    } else {
      BackOff(m, times, k - 1);
      assert times[k] >= times[k - 1] + Pow2(k - 1) * m.initial;
      Sums(Pow2(k - 1), m.initial);
    }
  }

  lemma Sums(p: nat, t: nat)
    ensures (p - 1) * t + p * t == (2 * p - 1) * t
  {
  }

  ghost predicate AllPaced(mem: map<Ptr, Msg>, sent: map<Ptr, seq<nat>>)
  {
    sent.Keys == mem.Keys && forall h :: h in mem ==> Paced(mem[h], sent[h])
  }

  lemma PacedUpdate(mem: map<Ptr, Msg>, sent: map<Ptr, seq<nat>>, h: Ptr, m: Msg, times: seq<nat>)
    requires AllPaced(mem, sent) && Paced(m, times)
    ensures AllPaced(mem[h := m], sent[h := times])
  {
    hide Paced;
  }

  /** Requests and replies are linked in pairs. */
  predicate Symmetric(mem: map<Ptr, Msg>)
  {
    forall a :: a in mem && mem[a].reqrep.Some? ==>
      mem[a].reqrep.value in mem && mem[mem[a].reqrep.value].reqrep == Some(a)
  }

  lemma OneToOne(mem: map<Ptr, Msg>, a: Ptr, b: Ptr)
    requires Symmetric(mem) && a in mem && b in mem && mem[a].reqrep.Some? && mem[a].reqrep == mem[b].reqrep
    ensures a == b
  {
    assert mem[mem[a].reqrep.value].reqrep == Some(a);
    assert mem[mem[b].reqrep.value].reqrep == Some(b);
  }

  /** One message after a turn of the sender thread, and its transmission times. */
  function AfterTurn(m: Msg, now: nat, r: Reading): Msg
  {
    if Due(m, now) then Timed(m, r) else m
  }

  function AfterTurnTimes(m: Msg, times: seq<nat>, now: nat, r: Reading): seq<nat>
  {
    if Due(m, now) then Later(times, r) else times
  }

  /** The first n listed messages have had their turn, all others are as they were. */
  ghost predicate Turned(l: seq<Ptr>, was: map<Ptr, Msg>, mem: map<Ptr, Msg>, log: map<Ptr, seq<nat>>,
                         sent: map<Ptr, seq<nat>>, now: nat, readings: seq<Reading>, n: nat)
  {
    && n <= |l| == |readings| && mem.Keys == was.Keys == log.Keys == sent.Keys
    && (forall i :: 0 <= i < |l| ==> l[i] in mem)
    && (forall h :: h in mem && h !in l ==> mem[h] == was[h] && sent[h] == log[h])
    && (forall i :: n <= i < |l| ==> mem[l[i]] == was[l[i]] && sent[l[i]] == log[l[i]])
    && (forall i {:trigger l[i]} {:trigger readings[i]} :: 0 <= i < n ==>
          && mem[l[i]] == AfterTurn(was[l[i]], now, readings[i])
          && sent[l[i]] == AfterTurnTimes(was[l[i]], log[l[i]], now, readings[i]))
  }

  lemma NothingTurned(l: seq<Ptr>, mem: map<Ptr, Msg>, sent: map<Ptr, seq<nat>>, now: nat, readings: seq<Reading>)
    requires |l| == |readings| && mem.Keys == sent.Keys && forall i :: 0 <= i < |l| ==> l[i] in mem
    ensures Turned(l, mem, mem, sent, sent, now, readings, 0)
  {
  }

  lemma OneTurned(l: seq<Ptr>, was: map<Ptr, Msg>, mem: map<Ptr, Msg>, log: map<Ptr, seq<nat>>,
                  sent: map<Ptr, seq<nat>>, now: nat, readings: seq<Reading>, n: nat)
    requires Turned(l, was, mem, log, sent, now, readings, n) && n < |l|
    requires forall i, j :: 0 <= i < j < |l| ==> l[i] != l[j]
    ensures Turned(l, was, mem[l[n] := AfterTurn(mem[l[n]], now, readings[n])], log,
                   sent[l[n] := AfterTurnTimes(mem[l[n]], sent[l[n]], now, readings[n])], now, readings, n + 1)
  {
    hide AfterTurn, AfterTurnTimes;
  }

  /** After the turn every listed message has been looked at once, and no other one has changed. */
  lemma TurnedMeaning(l: seq<Ptr>, was: map<Ptr, Msg>, mem: map<Ptr, Msg>, log: map<Ptr, seq<nat>>,
                      sent: map<Ptr, seq<nat>>, now: nat, readings: seq<Reading>, h: Ptr)
    requires Turned(l, was, mem, log, sent, now, readings, |l|) && h in was
    ensures h in mem && h in sent && h in log
    ensures h !in l ==> mem[h] == was[h] && sent[h] == log[h]
    ensures h in l ==> exists i :: 0 <= i < |l| && l[i] == h && mem[h] == AfterTurn(was[h], now, readings[i])
                                && sent[h] == AfterTurnTimes(was[h], log[h], now, readings[i])
  {
    hide AfterTurn, AfterTurnTimes;
  }

  /** Without a reply the counter of a message counts its transmissions; all kinds but
      confirmable ones are done after the first. */
  predicate Counted(m: Msg, times: seq<nat>)
  {
    m.ntrans == if m.kind.Con? || times == [] then |times| else MAX_RETRANSMIT
  }

  /** Whoever has got a reply while listed is on record, with all its transmissions before that. */
  ghost predicate Stopped(mem: map<Ptr, Msg>, mlist: seq<Ptr>, sent: map<Ptr, seq<nat>>, replied: map<Ptr, nat>)
  {
    && (forall h :: h in replied ==>
          h in mem && h in sent && |sent[h]| == replied[h] && mem[h].ntrans == MAX_RETRANSMIT)
    && (forall h :: h in mem && h !in replied ==> h in sent && Counted(mem[h], sent[h]))
    && (forall h :: h in mem && mem[h].kind.Con? && mem[h].reqrep.Some? && h in mlist ==> h in replied)
  }

  predicate Members(mem: map<Ptr, Msg>, mlist: seq<Ptr>)
  {
    && (forall i :: 0 <= i < |mlist| ==> mlist[i] in mem)
    && (forall i, j :: 0 <= i < j < |mlist| ==> mlist[i] != mlist[j])
  }

  ghost predicate Inv(mem: map<Ptr, Msg>, mlist: seq<Ptr>, sent: map<Ptr, seq<nat>>, replied: map<Ptr, nat>)
  {
    AllPaced(mem, sent) && Symmetric(mem) && Stopped(mem, mlist, sent, replied) && Members(mem, mlist)
  }

  lemma NewPacedToo(mem: map<Ptr, Msg>, sent: map<Ptr, seq<nat>>, h: Ptr, kind: Kind, id: nat, waits: bool)
    requires AllPaced(mem, sent)
    ensures AllPaced(mem[h := NewMessage(kind, id, waits)], sent[h := []])
  {
    NewPaced(kind, id, waits);
    PacedUpdate(mem, sent, h, NewMessage(kind, id, waits), []);
  }

  lemma NewStopped(mem: map<Ptr, Msg>, mlist: seq<Ptr>, sent: map<Ptr, seq<nat>>, replied: map<Ptr, nat>,
                   h: Ptr, m: Msg, mlist': seq<Ptr>)
    requires Stopped(mem, mlist, sent, replied) && h !in mem && m.reqrep.None? && Counted(m, [])
    requires mlist' == mlist || mlist' == [h] + mlist
    ensures Stopped(mem[h := m], mlist', sent[h := []], replied) && h !in replied
  {
  }

  lemma ReceivedInv(mem: map<Ptr, Msg>, mlist: seq<Ptr>, sent: map<Ptr, seq<nat>>, replied: map<Ptr, nat>,
                    h: Ptr, kind: Kind, id: nat, waits: bool, mlist': seq<Ptr>)
    requires Inv(mem, mlist, sent, replied) && h !in mem && (mlist' == mlist || mlist' == [h] + mlist)
    ensures Inv(mem[h := NewMessage(kind, id, waits)], mlist', sent[h := []], replied) && h !in mlist && h !in replied
  {
    hide AllPaced, Symmetric, Stopped;
    NewPacedToo(mem, sent, h, kind, id, waits);
    SameLinks(mem, h, NewMessage(kind, id, waits));
    NewStopped(mem, mlist, sent, replied, h, NewMessage(kind, id, waits), mlist');
  }

  lemma SentInv(mem: map<Ptr, Msg>, mlist: seq<Ptr>, sent: map<Ptr, seq<nat>>, replied: map<Ptr, nat>,
                h: Ptr, now: nat, r: Reading)
    requires Inv(mem, mlist, sent, replied) && h in mem && Due(mem[h], now) && now <= r.at
    ensures h in sent && Inv(mem[h := Timed(mem[h], r)], mlist, sent[h := Later(sent[h], r)], replied)
  {
    TimedPaced(mem[h], sent[h], now, r);
    SentStopped(mem, mlist, sent, replied, h, now, r);
    hide Timed, Paced, Due, Stopped;
    PacedUpdate(mem, sent, h, Timed(mem[h], r), Later(sent[h], r));
    hide AllPaced;
    SameLinks(mem, h, Timed(mem[h], r));
    hide Symmetric;
  }

  /** Nobody who is due has had a reply. */
  lemma SentStopped(mem: map<Ptr, Msg>, mlist: seq<Ptr>, sent: map<Ptr, seq<nat>>, replied: map<Ptr, nat>,
                    h: Ptr, now: nat, r: Reading)
    requires Stopped(mem, mlist, sent, replied) && h in mem && h in sent && Due(mem[h], now)
    ensures Stopped(mem[h := Timed(mem[h], r)], mlist, sent[h := Later(sent[h], r)], replied)
  {
    if h !in replied { TimedCounted(mem[h], sent[h], now, r); }
    hide Timed, Later, Counted;
  }

  lemma TimedCounted(m: Msg, times: seq<nat>, now: nat, r: Reading)
    requires Counted(m, times) && Due(m, now)
    ensures Counted(Timed(m, r), Later(times, r))
  {
  }

  function Answered(m: Msg, h: Ptr): Msg { m.(reqrep := Some(h), ntrans := MAX_RETRANSMIT) }

  lemma LinkPaced(mem: map<Ptr, Msg>, sent: map<Ptr, seq<nat>>, q: Ptr, h: Ptr)
    requires AllPaced(mem, sent) && q in mem && h in mem && q != h
    ensures q in sent && AllPaced(mem[q := Answered(mem[q], h)][h := mem[h].(reqrep := Some(q))], sent)
  {
    StoppedPaced(mem[q], sent[q], Some(h));
    LinkedPaced(mem[h], sent[h], Some(q));
    hide Paced;
  }

  lemma LinkStopped(mem: map<Ptr, Msg>, mlist: seq<Ptr>, sent: map<Ptr, seq<nat>>, replied: map<Ptr, nat>,
                    q: Ptr, h: Ptr)
    requires Stopped(mem, mlist, sent, replied) && q in mem && h in mem && q in sent
    requires q != h && h !in mlist && h !in replied
    ensures Stopped(mem[q := Answered(mem[q], h)][h := mem[h].(reqrep := Some(q))],
                    mlist, sent, replied[q := |sent[q]|])
  {
  }

  lemma LinkedInv(mem: map<Ptr, Msg>, mlist: seq<Ptr>, sent: map<Ptr, seq<nat>>, replied: map<Ptr, nat>, q: Ptr, h: Ptr)
    requires Inv(mem, mlist, sent, replied) && q in mem && h in mem && q != h && h !in mlist && h !in replied
    requires mem[q].reqrep.None? && mem[h].reqrep.None?
    ensures q in sent && Inv(mem[q := Answered(mem[q], h)][h := mem[h].(reqrep := Some(q))],
                             mlist, sent, replied[q := |sent[q]|])
  {
    hide AllPaced, Symmetric, Stopped;
    LinkPaced(mem, sent, q, h);
    LinkSymmetric(mem, q, h);
    LinkStopped(mem, mlist, sent, replied, q, h);
  }

  /** Acknowledgements and resets belong to the first listed message with their id, others to none. */
  predicate Correlates(mem: map<Ptr, Msg>, mlist: seq<Ptr>, kind: Kind, id: nat, orgreq: Option<Ptr>)
  {
    if !(kind.Ack? || kind.Rst?) then orgreq.None?
    else if orgreq.None? then forall i :: 0 <= i < |mlist| && mlist[i] in mem ==> mem[mlist[i]].id != id
    else exists k :: 0 <= k < |mlist| && mlist[k] == orgreq.value && mlist[k] in mem && mem[mlist[k]].id == id
              && forall j :: 0 <= j < k && mlist[j] in mem ==> mem[mlist[j]].id != id
  }

  /** So an acknowledgement of a listed message is always correlated, with exactly one. */
  lemma CorrelatesOne(mem: map<Ptr, Msg>, mlist: seq<Ptr>, kind: Kind, id: nat, a: Option<Ptr>, b: Option<Ptr>)
    requires Correlates(mem, mlist, kind, id, a) && Correlates(mem, mlist, kind, id, b)
    ensures a == b
    ensures a.Some?
       <==> (kind == Ack || kind == Rst) && exists i :: 0 <= i < |mlist| && mlist[i] in mem && mem[mlist[i]].id == id
  {
  }

  class Engine {
    var mem: map<Ptr, Msg>
    var mlist: seq<Ptr>

    ghost var sent: map<Ptr, seq<nat>>          // times of successful transmissions
    ghost var replied: map<Ptr, nat>            // how many there had been when the reply was linked

    ghost predicate Valid()
      reads this
    {
      Inv(mem, mlist, sent, replied)
    }

    constructor ()
      ensures Valid() && mem == map[] && mlist == []
    {
      mem, mlist, sent, replied := map[], [], map[], map[];
    }

    /** add_request: a new message to the front of the list. */
    method AddRequest(h: Ptr, kind: Kind, id: nat, waits: bool)
      requires Valid() && h !in mem
      modifies this
      ensures Valid() && mlist == [h] + old(mlist) && mem == old(mem)[h := NewMessage(kind, id, waits)]
      ensures sent == old(sent)[h := []] && replied == old(replied)
    {
      ReceivedInv(mem, mlist, sent, replied, h, kind, id, waits, [h] + mlist);
      hide Inv;
      mem := mem[h := NewMessage(kind, id, waits)];
      mlist := [h] + mlist;
      sent := sent[h := []];
    }

    /** send */
    method Send(h: Ptr, ghost now: nat, r: Reading)
      requires Valid() && h in mem && Due(mem[h], now) && now <= r.at
      modifies `mem, `sent
      ensures Valid() && mem == old(mem)[h := Timed(old(mem)[h], r)]
      ensures h in old(sent) && sent == old(sent)[h := Later(old(sent)[h], r)]
    {
      hide Inv, Timed, Due, Later;
      Listing();
      SentInv(mem, mlist, sent, replied, h, now, r);
      var m := Timed(mem[h], r);
      ghost var times := Later(sent[h], r);
      mem, sent := mem[h := m], sent[h := times];
    }

    /** One turn of the sender thread: what is due is sent, then expired messages leave the list. */
    method SenderTurn(now: nat, readings: seq<Reading>)
      requires Valid() && |readings| == |mlist| && forall i :: 0 <= i < |mlist| ==> now <= readings[i].at
      modifies this
      ensures Valid() && replied == old(replied)
      ensures Turned(old(mlist), old(mem), mem, old(sent), sent, now, readings, |readings|)
      ensures mlist == Unexpired(old(mlist), mem, now)
    {
      hide AllPaced, Symmetric, Valid, Turned, AfterTurn, AfterTurnTimes;
      Listing();
      ghost var was, log := mem, sent;
      NothingTurned(mlist, mem, sent, now, readings);
      for i := 0 to |mlist|
        invariant Valid() && mlist == old(mlist) && replied == old(replied)
        invariant Turned(mlist, was, mem, log, sent, now, readings, i)
      {
        Listing();
        ghost var mem0, sent0 := mem, sent;
        SendIfDue(mlist[i], now, readings[i]);
        OneTurned(mlist, was, mem0, log, sent0, now, readings, i);
      }
      RemoveExpired(now);
    }

    method SendIfDue(h: Ptr, now: nat, r: Reading)
      requires Valid() && h in mem && now <= r.at
      modifies `mem, `sent
      ensures Valid() && h in old(sent) && mem == old(mem)[h := AfterTurn(old(mem)[h], now, r)]
      ensures sent == old(sent)[h := AfterTurnTimes(old(mem)[h], old(sent)[h], now, r)]
    {
      hide AllPaced, Symmetric, Timed, Due;
      Listing();
      if Due(mem[h], now) {
        hide Valid;
        Send(h, now, r);
      }
    }

    lemma Listing()
      requires Valid()
      ensures sent.Keys == mem.Keys && Inv(mem, mlist, sent, replied)
      ensures forall i :: 0 <= i < |mlist| ==> mlist[i] in mem
      ensures forall i, j :: 0 <= i < j < |mlist| ==> mlist[i] != mlist[j]
    {
    }

    method RemoveExpired(now: nat)
      requires Valid()
      modifies `mlist
      ensures Valid() && mlist == Unexpired(old(mlist), mem, now)
    {
      hide AllPaced, Symmetric;
      var kept := [];
      for i := 0 to |mlist|
        invariant kept == Unexpired(mlist[..i], mem, now)
      {
        assert mlist[..i + 1][..i] == mlist[..i];
        if !Expired(mem[mlist[i]], now) {
          kept := kept + [mlist[i]];
        }
      }
      assert mlist[..|mlist|] == mlist;
      UnexpiredMembers(mlist, mem, now);
      assert forall i :: 0 <= i < |kept| ==> kept[i] in kept;
      mlist := kept;
    }

    /** correlate: the listed request an acknowledgement or a reset belongs to. */
    method Correlate(kind: Kind, id: nat) returns (orgreq: Option<Ptr>)
      requires Valid()
      ensures orgreq.Some? ==> orgreq.value in mlist && orgreq.value in mem && orgreq.value in sent
      ensures Correlates(mem, mlist, kind, id, orgreq)
    {
      Listing();
      hide AllPaced, Symmetric;
      orgreq := None;
      if kind.Ack? || kind.Rst? {
        for i := 0 to |mlist|
          invariant forall j :: 0 <= j < i ==> mem[mlist[j]].id != id
        {
          if mem[mlist[i]].id == id {
            return Some(mlist[i]);
          }
        }
      }
    }

    /** A received message: the first reply to a request is linked with it and ends its
        retransmissions, later ones are ignored. */
    method Receive(h: Ptr, kind: Kind, id: nat) returns (orgreq: Option<Ptr>, linked: bool)
      requires Valid() && h !in mem
      modifies this
      ensures Valid() && mlist == old(mlist) && sent == old(sent)[h := []]
      ensures Correlates(old(mem), mlist, kind, id, orgreq)
      ensures orgreq.Some? ==> orgreq.value in old(mem)
      ensures linked <==> orgreq.Some? && old(mem)[orgreq.value].reqrep.None?
      ensures var m := NewMessage(kind, id, false);
              if linked then
                var q := orgreq.value;
                && mem == old(mem)[q := Answered(old(mem)[q], h)][h := m.(reqrep := Some(q))]
                && replied == old(replied)[q := |old(sent)[q]|]
              else mem == old(mem)[h := m] && replied == old(replied)
    {
      hide Inv;
      orgreq := Correlate(kind, id);
      linked := false;
      AddReceived(h, kind, id);
      if orgreq.Some? && mem[orgreq.value].reqrep.None? {
        linked := true;
        Link(orgreq.value, h);
      }
    }

    method AddReceived(h: Ptr, kind: Kind, id: nat)
      requires Valid() && h !in mem
      modifies `mem, `sent
      ensures Valid() && h !in mlist && h !in replied && h !in old(sent)
      ensures mem == old(mem)[h := NewMessage(kind, id, false)] && sent == old(sent)[h := []]
    {
      Listing();
      hide Inv;
      ReceivedInv(mem, mlist, sent, replied, h, kind, id, false, mlist);
      mem := mem[h := NewMessage(kind, id, false)];
      sent := sent[h := []];
    }

    /** link_reqrep, stop_retransmit */
    method Link(q: Ptr, h: Ptr)
      requires Valid() && q in mem && h in mem && q != h && h !in mlist && h !in replied
      requires mem[q].reqrep.None? && mem[h].reqrep.None?
      modifies `mem, `replied
      ensures Valid()
      ensures mem == old(mem)[q := Answered(old(mem)[q], h)][h := old(mem)[h].(reqrep := Some(q))]
      ensures replied == old(replied)[q := |sent[q]|]
    {
      hide Inv;
      LinkedInv(mem, mlist, sent, replied, q, h);
      mem := mem[q := Answered(mem[q], h)][h := mem[h].(reqrep := Some(q))];
      replied := replied[q := |sent[q]|];
    }

    /** In a turn of the sender thread a listed message is transmitted if and only if it has had no
        reply and its time has come: at once for the first time, later, up to the fourth, when the
        doubled initial timeout has passed since the last one. */
    lemma SentIff(h: Ptr, now: nat, r: Reading)
      requires Valid() && h in mem
      ensures h in sent
      ensures AfterTurnTimes(mem[h], sent[h], now, r)
           == if r.ok && h !in replied && MustSend(mem[h].kind, sent[h], mem[h].initial, now)
              then sent[h] + [r.at] else sent[h]
    {
    }

    /** A message leaves the list if and only if its lifetime, which its first transmission starts,
        is over. */
    lemma LeavesIff(h: Ptr, now: nat)
      requires Valid() && h in mlist
      ensures h in mem && h in sent
      ensures h !in Unexpired(mlist, mem, now) <==> sent[h] != [] && now > sent[h][0] + mem[h].lifetime
    {
      Listing();
      hide AllPaced, Symmetric, Stopped;
      UnexpiredMembers(mlist, mem, now);
    }

    /** At every point of every interleaving: a confirmable request has been transmitted at most
        MAX_RETRANSMIT times, with the spacing of the exponential back-off; after its first reply
        was linked it has not been transmitted again; and links come in pairs. */
    lemma Transmissions(h: Ptr)
      requires Valid() && h in mem && mem[h].kind.Con?
      ensures h in sent && |sent[h]| <= MAX_RETRANSMIT
      ensures forall k :: 0 <= k < |sent[h]| ==> sent[h][k] >= sent[h][0] + (Pow2(k) - 1) * mem[h].initial
      ensures h in mlist && mem[h].reqrep.Some? ==> h in replied
      ensures h in replied ==> |sent[h]| == replied[h]
      ensures mem[h].reqrep.Some? ==> mem[h].reqrep.value in mem && mem[mem[h].reqrep.value].reqrep == Some(h)
    {
      forall k | 0 <= k < |sent[h]| ensures sent[h][k] >= sent[h][0] + (Pow2(k) - 1) * mem[h].initial {
        BackOff(mem[h], sent[h], k);
      }
    }
  }

  /** When a message that has had no reply must be transmitted, in terms of its earlier
      transmissions. */
  predicate MustSend(kind: Kind, times: seq<nat>, initial: nat, now: nat)
  {
    || times == []
    || (kind.Con? && |times| < 4 && now >= times[|times| - 1] + Pow2(|times| - 1) * initial)
  }

  /** What was drawn for the first transmission stays. */
  lemma FirstDraw(m: Msg, times: seq<nat>, now: nat, r: Reading)
    requires Paced(m, times) && Counted(m, times)
    ensures var t := AfterTurn(m, now, r);
            && (t.initial, t.lifetime)
               == (if times == [] && r.ok then (if m.kind.Con? then r.initial else m.initial, r.lifetime)
                   else (m.initial, m.lifetime))
            && t.id == (if m.id == 0 && MustSend(m.kind, times, m.initial, now) then r.nextId else m.id)
            && t.kind == m.kind && t.reqrep == m.reqrep && t.waits == m.waits
  {
  }

  /** Unlinked messages and changes of timers do not touch the links. */
  lemma SameLinks(mem: map<Ptr, Msg>, h: Ptr, m: Msg)
    requires Symmetric(mem) && m.reqrep == (if h in mem then mem[h].reqrep else None)
    ensures Symmetric(mem[h := m])
  {
  }

  lemma LinkSymmetric(mem: map<Ptr, Msg>, q: Ptr, h: Ptr)
    requires Symmetric(mem) && q in mem && h in mem && q != h && mem[q].reqrep.None? && mem[h].reqrep.None?
    ensures Symmetric(mem[q := Answered(mem[q], h)][h := mem[h].(reqrep := Some(q))])
  {
  }

  lemma StoppedPaced(m: Msg, times: seq<nat>, p: Option<Ptr>)
    requires Paced(m, times)
    ensures Paced(m.(reqrep := p, ntrans := MAX_RETRANSMIT), times)
  {
    if times != [] && |times| == MAX_RETRANSMIT {
      assert m.ntrans == |times|;
    }
  }

  lemma LinkedPaced(m: Msg, times: seq<nat>, p: Option<Ptr>)
    requires Paced(m, times)
    ensures Paced(m.(reqrep := p), times)
  {
  }

  predicate Expired(m: Msg, now: nat)
  {
    m.expire.Some? && now > m.expire.value
  }

  function Unexpired(l: seq<Ptr>, mem: map<Ptr, Msg>, now: nat): seq<Ptr>
  {
    if l == [] then []
    else
      var front, h := Unexpired(l[..|l| - 1], mem, now), l[|l| - 1];
      if h in mem && Expired(mem[h], now) then front else front + [h]
  }

  lemma {:induction false} UnexpiredMembers(l: seq<Ptr>, mem: map<Ptr, Msg>, now: nat)
    requires forall i, j :: 0 <= i < j < |l| ==> l[i] != l[j]
    ensures var k := Unexpired(l, mem, now);
            && (forall h :: h in k <==> h in l && !(h in mem && Expired(mem[h], now)))
            && forall i, j :: 0 <= i < j < |k| ==> k[i] != k[j]
  {
    if l != [] {
      var front, h := l[..|l| - 1], l[|l| - 1];
      UnexpiredMembers(front, mem, now);
      assert l == front + [h];
      assert h !in front;
    }
  }
}
