/**
 * The slave side of the association protocol (arduino/libraries/Casan/casan.cpp): the state
 * machine that one call of loop() advances by at most one received message.
 */
module CasanSlave {
  import opened Wrappers
  import opened CasanTime

  type Addr = nat

  const UNKNOWN_HELLO := -1

  datatype Status = ColdStart | WaitingUnknown | WaitingKnown | Running | Renewing

  /** What the network layer delivers in one turn; times to live in milliseconds. */
  datatype Received = Nothing
                    | Hello(src: Addr, hlid: int)
                    | AssocRequest(src: Addr, id: nat, sttl: nat, mtu: int)
                    | OtherControl(src: Addr)
                    | ResourceRequest(src: Addr, id: nat)
                    | TooLarge(src: Addr, id: nat)

  /** Discover messages go to the master or, if there is none, to everyone. */
  datatype Sent = Discover(dest: Option<Addr>, mtu: int) | AssocAnswer(peer: Addr, id: nat)
                | Response(dest: Option<Addr>, id: nat)

  /** The fields of the source, and when and for how long the last Assoc request was accepted and
      when the master last became known without one. */
  datatype Slave = Slave(status: Status, master: Option<Addr>, hlid: int, defmtu: int, curmtu: int, l2mtu: int,
                         twait: Wait, trenew: Renew, acceptedAt: nat, sttl: nat, knownSince: nat)

  // ---------------------------------------------------------------- master and MTU

  function NegociateMtu(s: Slave, mtu: int): Slave
  {
    var cur := if 0 < mtu <= s.defmtu then mtu else s.defmtu;
    s.(curmtu := cur, l2mtu := cur)
  }

  function ResetMaster(s: Slave): Slave
  {
    NegociateMtu(s.(master := None, hlid := UNKNOWN_HELLO), 0)
  }

  /** An mtu of -1 leaves the MTU as it is, an hello-id of -1 that of a known master. */
  function ChangeMaster(s: Slave, src: Addr, hlid: int, mtu: int): Slave
  {
    var t := if s.master == Some(src) then (if hlid != -1 then s.(hlid := hlid) else s)
             else s.(master := Some(src), hlid := hlid);
    if mtu != -1 then NegociateMtu(t, mtu) else t
  }

  // ---------------------------------------------------------------- one turn of the loop

  function Started(defmtu: int): Slave
  {
    ResetMaster(Slave(ColdStart, None, UNKNOWN_HELLO, defmtu, defmtu, defmtu, Wait(0, 0, 0), Renew(0, 0, 0), 0, 0, 0))
  }

  function Known(s: Slave, now: nat): Slave
  {
    s.(twait := WaitInit(now), status := WaitingKnown, knownSince := now)
  }

  function Accepted(s: Slave, now: nat, rx: Received): (Slave, seq<Sent>)
    requires rx.AssocRequest?
  {
    (s.(trenew := RenewInit(now, rx.sttl), status := Running, acceptedAt := now, sttl := rx.sttl),
     [AssocAnswer(rx.src, rx.id)])
  }

  function Forgotten(s: Slave, now: nat): (Slave, seq<Sent>)
  {
    var t := ResetMaster(s);
    (t.(twait := WaitInit(now), status := WaitingUnknown), [Discover(None, t.defmtu)])
  }

  /** The message part of both waiting states. */
  function ReceiveWaiting(s: Slave, now: nat, rx: Received): (Slave, seq<Sent>)
  {
    match rx
    case Hello(src, hlid) =>
      var t := ChangeMaster(s, src, hlid, -1);
      (if s.status.WaitingUnknown? then Known(t, now) else t, [])
    case AssocRequest(src, id, sttl, mtu) => Accepted(ChangeMaster(s, src, -1, mtu), now, rx)
    case _ => (s, [])
  }

  function ReceiveRunning(s: Slave, now: nat, rx: Received): (Slave, seq<Sent>)
  {
    match rx
    case Hello(src, hlid) =>
      if s.master != Some(src) || hlid != s.hlid then
        var t := ChangeMaster(s, src, hlid, 0);
        (if s.hlid != UNKNOWN_HELLO then Known(t, now) else t, [])
      else (s, [])
    case AssocRequest(src, id, sttl, mtu) =>
      if s.master == Some(src) then Accepted(NegociateMtu(s, mtu), now, rx) else (s, [])
    case ResourceRequest(src, id) => (s, [Response(s.master, id)])
    case TooLarge(src, id) => (s, [Response(s.master, id)])
    case _ => (s, [])
  }

  /** Discover messages while the association is renewed, and its end. */
  function CheckRenewal(s: Slave, now: nat): (Slave, seq<Sent>)
  {
    var d := [Discover(s.master, s.defmtu)];
    var (t, out1) := if s.status.Running? && RenewDue(s.trenew, now)
                     then (s.(trenew := RenewNext(s.trenew, now), status := Renewing), d) else (s, []);
    var (u, out2) := if t.status.Renewing? && RenewDue(t.trenew, now)
                     then (t.(trenew := RenewNext(t.trenew, now)), d) else (t, []);
    var (v, out3) := if u.status.Renewing? && RenewExpired(u.trenew, now) then Forgotten(u, now) else (u, []);
    (v, out1 + out2 + out3)
  }

  function CheckWaiting(s: Slave, now: nat): (Slave, seq<Sent>)
  {
    if s.status.WaitingKnown? && WaitExpired(s.twait, now) then Forgotten(s, now)
    else if (s.status.WaitingKnown? || s.status.WaitingUnknown?) && WaitDue(s.twait, now) then
      (s.(twait := WaitNext(s.twait, now)), [Discover(s.master, s.defmtu)])
    else (s, [])
  }

  function Loop(s: Slave, now: nat, rx: Received): (Slave, seq<Sent>)
  {
    match s.status
    case ColdStart => (s.(twait := WaitInit(now), status := WaitingUnknown), [Discover(s.master, s.defmtu)])
    case WaitingUnknown =>
      var (t, out) := ReceiveWaiting(s, now, rx);
      if t.status.WaitingUnknown? then var (u, more) := CheckWaiting(t, now); (u, out + more) else (t, out)
    case WaitingKnown =>
      var (t, out) := ReceiveWaiting(s, now, rx);
      var (u, more) := CheckWaiting(t, now);
      (u, out + more)
    case _ =>
      var (t, out) := ReceiveRunning(s, now, rx);
      var (u, more) := CheckRenewal(t, now);
      (u, out + more)
  }

  // ---------------------------------------------------------------- what every turn keeps

  predicate Associated(s: Slave) { s.status.Running? || s.status.Renewing? }

  predicate Mtu(s: Slave) { 1 <= s.curmtu <= s.defmtu && s.l2mtu == s.curmtu }

  /** After a turn at time `now`. */
  predicate Valid(s: Slave, now: nat)
  {
    && Mtu(s)
    && (s.master.None? <==> s.status.ColdStart? || s.status.WaitingUnknown?)
    && (Associated(s) ==>
          && s.acceptedAt <= now && s.trenew.limit == s.acceptedAt + s.sttl
          && (now < s.trenew.limit || (s.sttl == 0 && now == s.acceptedAt)))
    && (s.status.Running? ==>
          s.trenew == RenewInit(s.acceptedAt, s.sttl) && (now < s.trenew.next || now == s.acceptedAt))
    && (s.status.WaitingKnown? ==> s.knownSince <= now < s.twait.limit == s.knownSince + TIMER_WAIT_MAX)
  }

  lemma StartedValid(defmtu: int, now: nat)
    requires defmtu >= 1
    ensures Valid(Started(defmtu), now)
  {
  }

  /** Between receiving a message and looking at the timers. */
  predicate Pending(s: Slave, now: nat)
  {
    && Mtu(s) && s.master.Some? && (Associated(s) || s.status.WaitingKnown?)
    && (Associated(s) ==> s.acceptedAt <= now && s.trenew.limit == s.acceptedAt + s.sttl)
    && (s.status.Running? ==> s.trenew == RenewInit(s.acceptedAt, s.sttl))
    && (s.status.WaitingKnown? ==> s.knownSince <= now && s.twait.limit == s.knownSince + TIMER_WAIT_MAX)
  }

  lemma ReceiveRunningValid(s: Slave, was: nat, now: nat, rx: Received)
    requires Valid(s, was) && was <= now && Associated(s)
    ensures var t := ReceiveRunning(s, now, rx).0;
            Pending(t, now) && (t.status.WaitingKnown? ==> now < t.twait.limit)
  {
  }

  lemma CheckRenewalValid(s: Slave, now: nat)
    requires Pending(s, now) && (s.status.WaitingKnown? ==> now < s.twait.limit)
    ensures Valid(CheckRenewal(s, now).0, now)
  {
  }

  lemma ReceiveWaitingValid(s: Slave, was: nat, now: nat, rx: Received)
    requires Valid(s, was) && was <= now && (s.status.WaitingUnknown? || s.status.WaitingKnown?)
    ensures var t := ReceiveWaiting(s, now, rx).0;
            if t.status.WaitingUnknown? then Valid(t, now) else Pending(t, now) && !t.status.Renewing?
    ensures var t := ReceiveWaiting(s, now, rx).0;
            && (t.status.Running? ==> t.acceptedAt == now)
            && (s.status.WaitingUnknown? && t.status.WaitingKnown? ==> now < t.twait.limit)
  {
  }

  lemma CheckWaitingValid(s: Slave, now: nat)
    requires if s.status.WaitingUnknown? then Valid(s, now) else Pending(s, now) && !s.status.Renewing?
    requires s.status.Running? ==> s.acceptedAt == now
    ensures Valid(CheckWaiting(s, now).0, now)
  {
  }

  lemma LoopValid(s: Slave, was: nat, now: nat, rx: Received)
    requires Valid(s, was) && was <= now
    ensures Valid(Loop(s, now, rx).0, now)
  {
    if s.status.WaitingUnknown? || s.status.WaitingKnown? {
      ReceiveWaitingValid(s, was, now, rx);
      var t := ReceiveWaiting(s, now, rx).0;
      hide ReceiveWaiting, CheckWaiting;
      CheckWaitingValid(t, now);
    } else if Associated(s) {
      ReceiveRunningValid(s, was, now, rx);
      CheckRenewalValid(ReceiveRunning(s, now, rx).0, now);
      hide ReceiveRunning, CheckRenewal, Pending;
    }
  }

  /** No answer is addressed to a master that is not known. */
  lemma ResponsesHaveADestination(s: Slave, was: nat, now: nat, rx: Received, k: nat)
    requires Valid(s, was) && k < |Loop(s, now, rx).1| && Loop(s, now, rx).1[k].Response?
    ensures Loop(s, now, rx).1[k].dest.Some?
  {
    RunningSends(s, now, rx);
    WaitingSends(s, now, rx);
    hide ReceiveRunning, ReceiveWaiting, CheckRenewal, CheckWaiting;
    ChecksDiscover(s, now);
    ChecksDiscover(ReceiveRunning(s, now, rx).0, now);
    ChecksDiscover(ReceiveWaiting(s, now, rx).0, now);
  }

  /** Both timer checks send nothing but Discover messages with the slave's own MTU. */
  lemma ChecksDiscover(s: Slave, now: nat)
    ensures forall k :: 0 <= k < |CheckRenewal(s, now).1| ==>
              CheckRenewal(s, now).1[k].Discover? && CheckRenewal(s, now).1[k].mtu == s.defmtu
    ensures forall k :: 0 <= k < |CheckWaiting(s, now).1| ==>
              CheckWaiting(s, now).1[k].Discover? && CheckWaiting(s, now).1[k].mtu == s.defmtu
  {
  }

  lemma RunningSends(s: Slave, now: nat, rx: Received)
    ensures var r := ReceiveRunning(s, now, rx);
            && r.0.defmtu == s.defmtu && |r.1| <= 1
            && (r.1 != [] ==>
                  || (rx.AssocRequest? && r.1[0] == AssocAnswer(rx.src, rx.id))
                  || ((rx.ResourceRequest? || rx.TooLarge?) && r.1[0] == Response(s.master, rx.id)))
  {
  }

  lemma WaitingSends(s: Slave, now: nat, rx: Received)
    ensures var r := ReceiveWaiting(s, now, rx);
            && r.0.defmtu == s.defmtu && |r.1| <= 1
            && (r.1 != [] ==> rx.AssocRequest? && r.1[0] == AssocAnswer(rx.src, rx.id))
  {
  }

  // ---------------------------------------------------------------- runs

  datatype Turn = Turn(now: nat, rx: Received)

  function Run(s: Slave, turns: seq<Turn>): Slave
  {
    if turns == [] then s
    else Loop(Run(s, turns[..|turns| - 1]), turns[|turns| - 1].now, turns[|turns| - 1].rx).0
  }

  function Now(start: nat, turns: seq<Turn>): nat
  {
    if turns == [] then start else turns[|turns| - 1].now
  }

  predicate Nondecreasing(start: nat, turns: seq<Turn>)
  {
    turns == [] || (var before := turns[..|turns| - 1];
                    Nondecreasing(start, before) && Now(start, before) <= turns[|turns| - 1].now)
  }

  lemma {:induction false} RunValid(defmtu: int, start: nat, turns: seq<Turn>)
    requires defmtu >= 1 && Nondecreasing(start, turns)
    ensures Valid(Run(Started(defmtu), turns), Now(start, turns))
  {
    if turns == [] {
      StartedValid(defmtu, start);
    } else {
      var before := turns[..|turns| - 1];
      RunValid(defmtu, start, before);
      LoopValid(Run(Started(defmtu), before), Now(start, before), turns[|turns| - 1].now, turns[|turns| - 1].rx);
    }
  }

  /** After every turn of every run: an association is younger than the time to live it was
      accepted with, exactly if that is not zero; an unassociated master has been known for less
      than 30 seconds; there is a master exactly in the three later states; the MTU is within its
      bounds and the network layer has it too. */
  lemma EveryRun(defmtu: int, start: nat, turns: seq<Turn>)
    requires defmtu >= 1 && Nondecreasing(start, turns)
    ensures var s, now := Run(Started(defmtu), turns), Now(start, turns);
            && (Associated(s) ==> s.acceptedAt <= now && (now < s.acceptedAt + s.sttl <==> s.sttl > 0))
            && (s.status.WaitingKnown? ==> now < s.knownSince + 30 * 1000)
            && (s.master.None? <==> s.status.ColdStart? || s.status.WaitingUnknown?)
            && 1 <= s.curmtu <= s.defmtu == defmtu && s.l2mtu == s.curmtu
  {
    RunValid(defmtu, start, turns);
    SameDefault(defmtu, turns);
  }

  lemma {:induction false} SameDefault(defmtu: int, turns: seq<Turn>)
    ensures Run(Started(defmtu), turns).defmtu == defmtu
  {
    if turns != [] {
      SameDefault(defmtu, turns[..|turns| - 1]);
      LoopDefault(Run(Started(defmtu), turns[..|turns| - 1]), turns[|turns| - 1].now, turns[|turns| - 1].rx);
      hide Loop;
    }
  }

  lemma LoopDefault(s: Slave, now: nat, rx: Received)
    ensures Loop(s, now, rx).0.defmtu == s.defmtu
  {
  }

  /** With a time to live of zero the slave can end a turn associated although the time is over. */
  lemma ZeroTimeToLive(defmtu: int, src: Addr)
    requires defmtu >= 1
    ensures var turns := [Turn(0, Nothing), Turn(0, AssocRequest(src, 1, 0, defmtu))];
            var s := Run(Started(defmtu), turns);
            Associated(s) && !(Now(0, turns) < s.acceptedAt + s.sttl)
  {
    var turns := [Turn(0, Nothing), Turn(0, AssocRequest(src, 1, 0, defmtu))];
    assert turns[..1][..0] == [] && turns[..1] == [Turn(0, Nothing)];
    assert Run(Started(defmtu), turns[..1]).status == WaitingUnknown;
  }
}
