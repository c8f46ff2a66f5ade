/**
 * What one turn of the slave of CasanSlave does (arduino/libraries/Casan/casan.cpp): for every
 * change of its status, and for everything it sends, exactly what brings it about.
 */
module SlaveTurns {
  import opened Wrappers
  import opened CasanTime
  import opened CasanSlave

  // ---------------------------------------------------------------- an associated slave

  /** The time of the association is over, so far as the renewal timer is concerned. */
  predicate Lapses(s: Slave, now: nat)
  {
    now >= s.trenew.limit && (s.status.Renewing? || now >= s.trenew.next)
  }

  /** A Hello of its own master with the hello-id it knows means nothing new to an associated slave.
      Any other one makes it wait for a new association, with the sender as its master and the
      default MTU, if the hello-id was known; if it was not, the slave takes over both and stays
      associated. */
  lemma HelloWhileAssociated(s: Slave, now: nat, src: Addr, h: int)
    requires Associated(s) && !Lapses(s, now)
    ensures var t := Loop(s, now, Hello(src, h)).0;
            var same := s.master == Some(src) && s.hlid == h;
            && (s.hlid != -1 ==> (Associated(t) <==> same))
            && (s.hlid == -1 ==> Associated(t))
            && (same ==> t.master == s.master && t.hlid == s.hlid && t.curmtu == s.curmtu)
            && (!same ==> t.master == Some(src) && t.curmtu == t.l2mtu == s.defmtu
                          && (s.master != Some(src) || h != -1 ==> t.hlid == h))
            && (!Associated(t) ==> t.status.WaitingKnown? && t.knownSince == now && t.twait == WaitInit(now))
            && t.acceptedAt == s.acceptedAt && t.sttl == s.sttl && t.trenew.limit == s.trenew.limit
  {
  }

  /** An associated slave in a run, whose time is not over, is one to which that applies. */
  lemma InTimeDoesNotLapse(s: Slave, was: nat, now: nat)
    requires Valid(s, was) && Associated(s) && now < s.acceptedAt + s.sttl
    ensures !Lapses(s, now)
  {
  }

  /** In every run a Hello from a restarted master, or from another one, ends an association that
      began with a Hello, and keeps it if it is the same as before. */
  lemma HelloEndsAssociation(defmtu: int, start: nat, turns: seq<Turn>, now: nat, src: Addr, h: int)
    requires defmtu >= 1 && Nondecreasing(start, turns)
    requires var s := Run(Started(defmtu), turns); Associated(s) && s.hlid != -1 && now < s.acceptedAt + s.sttl
    ensures var s := Run(Started(defmtu), turns);
            var t := Run(Started(defmtu), turns + [Turn(now, Hello(src, h))]);
            if s.master == Some(src) && s.hlid == h then Associated(t)
            else t.status.WaitingKnown? && t.master == Some(src) && t.curmtu == s.defmtu && t.knownSince == now
                 && (s.master != Some(src) || h != -1 ==> t.hlid == h)
  {
    var s := Run(Started(defmtu), turns);
    RunValid(defmtu, start, turns);
    SameDefault(defmtu, turns);
    InTimeDoesNotLapse(s, Now(start, turns), now);
    assert (turns + [Turn(now, Hello(src, h))])[..|turns|] == turns;
    hide Loop;
    HelloWhileAssociated(s, now, src, h);
  }

  // ---------------------------------------------------------------- what it accepts

  predicate Waits(s: Slave) { s.status.WaitingUnknown? || s.status.WaitingKnown? }

  /** It answers Assoc requests: all of them while it waits, those of its own master while it is
      associated, none before its first turn. */
  lemma AcceptsIff(s: Slave, now: nat, rx: Received, peer: Addr, id: nat)
    ensures AssocAnswer(peer, id) in Loop(s, now, rx).1
       <==> (rx.AssocRequest? && rx.src == peer && rx.id == id
             && (Waits(s) || (Associated(s) && s.master == Some(rx.src))))
  {
    RunningSends(s, now, rx);
    WaitingSends(s, now, rx);
    hide CheckRenewal, CheckWaiting;
    ChecksDiscover(ReceiveRunning(s, now, rx).0, now);
    ChecksDiscover(ReceiveWaiting(s, now, rx).0, now);
    if rx.AssocRequest? && (Waits(s) || (Associated(s) && s.master == Some(rx.src))) {
      assert Loop(s, now, rx).1[0] == AssocAnswer(rx.src, rx.id);
    }
  }

  /** It is then associated with the sender for the time and with the MTU of the request. */
  lemma AcceptedFor(s: Slave, now: nat, rx: Received)
    requires rx.AssocRequest? && (Waits(s) || (Associated(s) && s.master == Some(rx.src)))
    ensures var t := Loop(s, now, rx).0;
            && (rx.sttl > 1 ==> t.status.Running? && t.master == Some(rx.src))
            && t.acceptedAt == now && t.sttl == rx.sttl
            && (rx.sttl > 1 ==> t.trenew == Renew(now + rx.sttl / 2, rx.sttl / 2, now + rx.sttl))
            && (rx.sttl > 1 && 1 <= rx.mtu <= s.defmtu ==> t.curmtu == t.l2mtu == rx.mtu)
            && (rx.sttl > 1 && rx.mtu > s.defmtu >= 1 ==> t.curmtu == t.l2mtu == s.defmtu)
            && (rx.sttl > 1 && s.master == Some(rx.src) ==> t.hlid == s.hlid)
            && (rx.sttl > 1 && s.master != Some(rx.src) ==> t.hlid == -1)
  {
  }

  /** Requests for resources are answered to the master, with or without their result, exactly while
      it is associated. */
  lemma RespondsIff(s: Slave, now: nat, rx: Received, dest: Option<Addr>, id: nat)
    ensures Response(dest, id) in Loop(s, now, rx).1
       <==> (Associated(s) && dest == s.master && (rx.ResourceRequest? || rx.TooLarge?) && rx.id == id)
  {
    RunningSends(s, now, rx);
    WaitingSends(s, now, rx);
    hide CheckRenewal, CheckWaiting;
    ChecksDiscover(ReceiveRunning(s, now, rx).0, now);
    ChecksDiscover(ReceiveWaiting(s, now, rx).0, now);
    if Associated(s) && (rx.ResourceRequest? || rx.TooLarge?) {
      assert Loop(s, now, rx).1[0] == Response(s.master, rx.id);
    }
  }

  // ---------------------------------------------------------------- when it asks for an association

  /** The messages after which a slave that waits goes on waiting as before. */
  predicate Idle(rx: Received)
  {
    rx.Nothing? || rx.OtherControl? || rx.ResourceRequest? || rx.TooLarge?
  }

  /** While nothing of importance arrives, a turn sends a Discover message exactly in the first turn,
      when the wait timer is due or, for a known master, over, when half of the association is over
      or one more interval of its renewal, and when it ends. */
  lemma DiscoversIff(s: Slave, now: nat, rx: Received)
    requires Idle(rx)
    ensures (exists k :: 0 <= k < |Loop(s, now, rx).1| && Loop(s, now, rx).1[k].Discover?)
       <==> (|| s.status.ColdStart?
             || (s.status.WaitingUnknown? && now >= s.twait.next)
             || (s.status.WaitingKnown? && (now >= s.twait.next || now >= s.twait.limit))
             || (Associated(s) && now >= s.trenew.next)
             || (s.status.Renewing? && now >= s.trenew.limit))
  {
    RunningSends(s, now, rx);
    WaitingSends(s, now, rx);
    var out := Loop(s, now, rx).1;
    if out != [] { assert out[|out| - 1].Discover? || out[|out| - 1].Response?; }
    if |out| > 1 { assert out[1].Discover?; }
    if |out| > 0 { assert out[0].Discover? || out[0].Response?; }
  }

  /** To whom: to its master if there is one, to everyone when there is none any more; and always
      with its own MTU. */
  lemma DiscoverDestination(s: Slave, now: nat, rx: Received, k: nat)
    requires Idle(rx) && k < |Loop(s, now, rx).1| && Loop(s, now, rx).1[k].Discover?
    ensures var d, t := Loop(s, now, rx).1[k], Loop(s, now, rx).0;
            d.mtu == s.defmtu && (d.dest == s.master || (d.dest == None && t.status.WaitingUnknown?))
            && (t.status == s.status ==> d.dest == s.master)
  {
    RunningSends(s, now, rx);
    WaitingSends(s, now, rx);
  }

  /** Without a message of importance the status changes only with time: the first turn, the end of
      30 s with a known master, half of an association, and its end. */
  lemma IdleTurns(s: Slave, now: nat, rx: Received)
    requires Idle(rx)
    ensures var t := Loop(s, now, rx).0;
            match s.status
            case ColdStart => t.status.WaitingUnknown?
            case WaitingUnknown => t.status.WaitingUnknown?
            case WaitingKnown => if now >= s.twait.limit then t.status.WaitingUnknown? else t.status.WaitingKnown?
            case Running =>
              if now < s.trenew.next then t.status.Running?
              else if now < s.trenew.limit then t.status.Renewing? else t.status.WaitingUnknown?
            case Renewing => if now < s.trenew.limit then t.status.Renewing? else t.status.WaitingUnknown?
    ensures var t := Loop(s, now, rx).0;
            if s.status != t.status && t.status.WaitingUnknown? && !s.status.ColdStart?
            then t.master == None && t.hlid == -1 && t.curmtu == t.l2mtu == s.defmtu && t.twait == WaitInit(now)
            else t.master == s.master && t.hlid == s.hlid && t.curmtu == s.curmtu
  {
  }

  /** A slave that waits takes the sender of a Hello for its master, and gives it 30 s from the first
      time on, unless they are over by now. */
  lemma HelloWhileWaiting(s: Slave, now: nat, src: Addr, h: int)
    requires Waits(s) && (s.status.WaitingKnown? ==> now < s.twait.limit)
    ensures var t := Loop(s, now, Hello(src, h)).0;
            && t.status.WaitingKnown? && t.master == Some(src) && t.curmtu == s.curmtu
            && (s.master != Some(src) || h != -1 ==> t.hlid == h)
            && t.twait.limit == (if s.status.WaitingUnknown? then now + 30000 else s.twait.limit)
  {
  }

  /** Before its first turn, nothing that arrives counts. */
  lemma FirstTurn(s: Slave, now: nat, rx: Received)
    requires s.status.ColdStart?
    ensures Loop(s, now, rx) == (s.(status := WaitingUnknown, twait := WaitInit(now)), [Discover(s.master, s.defmtu)])
  {
  }

  // ---------------------------------------------------------------- nobody answers

  function CountDiscovers(out: seq<Sent>): nat
  {
    if out == [] then 0 else CountDiscovers(out[..|out| - 1]) + (if out[|out| - 1].Discover? then 1 else 0)
  }

  /** How many Discover messages the slave sends in these turns. */
  function Discovers(s: Slave, turns: seq<Turn>): nat
  {
    if turns == [] then 0
    else
      var before, turn := turns[..|turns| - 1], turns[|turns| - 1];
      Discovers(s, before) + CountDiscovers(Loop(Run(s, before), turn.now, turn.rx).1)
  }

  function Times(turns: seq<Turn>): seq<nat>
  {
    seq(|turns|, i requires 0 <= i < |turns| => turns[i].now)
  }

  lemma TimesMore(turns: seq<Turn>)
    requires turns != []
    ensures Times(turns)[..|turns| - 1] == Times(turns[..|turns| - 1])
  {
  }

  lemma CountFew(out: seq<Sent>)
    requires |out| <= 3
    ensures CountDiscovers(out) == (if |out| > 0 && out[0].Discover? then 1 else 0)
                                   + (if |out| > 1 && out[1].Discover? then 1 else 0)
                                   + (if |out| > 2 && out[2].Discover? then 1 else 0)
  {
    if |out| > 1 { assert out[..|out| - 1][..|out| - 2] == out[..|out| - 2]; }
    if |out| > 2 { assert out[..2][..1] == out[..1] && out[..1][..0] == []; }
  }

  /** One turn of a slave that waits and hears nothing is one call of its timer. */
  lemma WaitTurn(s: Slave, now: nat, rx: Received)
    requires Waits(s) && (rx.Nothing? || rx.OtherControl?) && (s.status.WaitingKnown? ==> now < s.twait.limit)
    ensures Loop(s, now, rx).0 == s.(twait := WaitNext(s.twait, now))
    ensures CountDiscovers(Loop(s, now, rx).1) == if WaitDue(s.twait, now) then 1 else 0
  {
    CountFew(Loop(s, now, rx).1);
  }

  predicate Silence(s: Slave, turns: seq<Turn>)
  {
    forall i :: 0 <= i < |turns| ==>
      (turns[i].rx.Nothing? || turns[i].rx.OtherControl?) && (s.status.WaitingKnown? ==> turns[i].now < s.twait.limit)
  }

  lemma {:induction false} SilentWait(s: Slave, turns: seq<Turn>)
    requires Waits(s) && Silence(s, turns)
    ensures WaitRun(s.twait, Times(turns)).0.limit == s.twait.limit
    ensures Run(s, turns) == s.(twait := WaitRun(s.twait, Times(turns)).0)
    ensures Discovers(s, turns) == WaitRun(s.twait, Times(turns)).1
  {
    hide Loop, CountDiscovers;
    if turns != [] {
      var before, turn := turns[..|turns| - 1], turns[|turns| - 1];
      SilentWait(s, before);
      TimesMore(turns);
      WaitTurn(Run(s, before), turn.now, turn.rx);
    }
  }

  /** A slave that nobody answers sends its k-th Discover message, after the one with which it began
      to wait at t0, in the first turn that comes 1 + 2 + ... + k seconds later, no term above 10. */
  lemma Unanswered(s: Slave, t0: nat, turns: seq<Turn>, now: nat)
    requires Waits(s) && s.twait == WaitInit(t0) && Silence(s, turns)
    requires s.status.WaitingKnown? ==> now < s.twait.limit
    ensures CountDiscovers(Loop(Run(s, turns), now, Nothing).1)
         == if now >= t0 + 1000 * Spacing(Discovers(s, turns) + 1) then 1 else 0
  {
    hide Loop, CountDiscovers, WaitRun, WaitDue, Run, Discovers, Spacing, Silence;
    SilentWait(s, turns);
    WaitTurn(Run(s, turns), now, Nothing);
    WaitFires(t0, Times(turns), now);
  }

  /** The calls of the renewal timer: two in a turn of a running slave, of which the second one
      counts only if the first one fires, and one while it renews. */
  function RenewCalls(s: Slave, turns: seq<Turn>): seq<nat>
  {
    if turns == [] then []
    else
      var before, now := turns[..|turns| - 1], turns[|turns| - 1].now;
      RenewCalls(s, before) + (if Run(s, before).status.Running? then [now, now] else [now])
  }

  lemma RunTwo(r: Renew, calls: seq<nat>, a: nat)
    ensures RenewRun(r, calls + [a]) == RenewNext(RenewRun(r, calls), a)
    ensures Fired(r, calls + [a]) == Fired(r, calls) + (if RenewDue(RenewRun(r, calls), a) then 1 else 0)
    ensures calls + [a, a] == (calls + [a]) + [a]
  {
    assert (calls + [a])[..|calls|] == calls;
  }

  /** One turn of an associated slave that hears nothing, before its time is over. */
  lemma RenewTurn(s: Slave, now: nat, rx: Received)
    requires Associated(s) && (rx.Nothing? || rx.OtherControl?) && now < s.trenew.limit
    ensures var once := RenewNext(s.trenew, now);
            var fired := if RenewDue(s.trenew, now) then 1 else 0;
            if s.status.Running? then
              && Loop(s, now, rx).0 == s.(trenew := RenewNext(once, now),
                                          status := if RenewDue(s.trenew, now) then Renewing else Running)
              && CountDiscovers(Loop(s, now, rx).1) == fired + (if RenewDue(once, now) then 1 else 0)
            else
              && Loop(s, now, rx).0 == s.(trenew := once) && CountDiscovers(Loop(s, now, rx).1) == fired
  {
    CountFew(Loop(s, now, rx).1);
  }

  predicate SilentAssociation(s: Slave, turns: seq<Turn>)
  {
    forall i :: 0 <= i < |turns| ==>
      (turns[i].rx.Nothing? || turns[i].rx.OtherControl?) && turns[i].now < s.trenew.limit
  }

  lemma {:induction false} SilentRenewal(s: Slave, turns: seq<Turn>)
    requires Associated(s) && SilentAssociation(s, turns)
    ensures var t := Run(s, turns);
            && Associated(t) && t.trenew == RenewRun(s.trenew, RenewCalls(s, turns)) && t.trenew.limit == s.trenew.limit
            && t == s.(trenew := t.trenew, status := t.status)
    ensures Discovers(s, turns) == Fired(s.trenew, RenewCalls(s, turns))
  {
    hide Loop, CountDiscovers, RenewRun, Fired;
    if turns == [] {
      NoCalls(s.trenew);
    } else {
      var before, turn := turns[..|turns| - 1], turns[|turns| - 1];
      SilentRenewal(s, before);
      var t, calls := Run(s, before), RenewCalls(s, before);
      RenewTurn(t, turn.now, turn.rx);
      RunTwo(s.trenew, calls, turn.now);
      RunTwo(s.trenew, calls + [turn.now], turn.now);
    }
  }

  lemma NoCalls(r: Renew)
    ensures RenewRun(r, []) == r && Fired(r, []) == 0
  {
  }

  /** An associated slave whose master is silent asks for a renewal for the k-th time when half of the
      time to live, a quarter, and so on are over, k terms, none below half a second. */
  lemma UnansweredRenewal(s: Slave, t0: nat, turns: seq<Turn>, now: nat)
    requires s.status.Running? && s.trenew == RenewInit(t0, s.sttl) && SilentAssociation(s, turns)
    requires now < t0 + s.sttl
    ensures var n, out := Discovers(s, turns), Loop(Run(s, turns), now, Nothing).1;
            CountDiscovers(out) > 0 <==> now >= t0 + Intervals(s.sttl, n + 1)
  {
    hide Loop, CountDiscovers, RenewRun, Fired, Run, Discovers, Intervals, SilentAssociation, RenewCalls;
    SilentRenewal(s, turns);
    RenewFires(t0, s.sttl, RenewCalls(s, turns), now);
    RenewTurn(Run(s, turns), now, Nothing);
  }
}
