/**
 * One master and one slave over a link that loses, duplicates, delays and reorders frames: the
 * association protocol of c-master/casan/casan.cc and c-master/casan/slave.cc with the slave of
 * CasanSlave. Message ids are arbitrary. Which events can make the master take a slave to be running
 * that has not accepted its request is stated exactly: an id given to a request while something
 * stray still answers to it, and an Assoc request that reaches a running slave truncated.
 */
module Association {
  import opened Wrappers
  import opened CasanTime
  import opened CasanSlave

  const MASTER: Addr := 1

  datatype Frame = DiscoverFrame(mtu: int) | AckFrame(id: nat)
                 | HelloFrame(hlid: int) | AssocFrame(id: nat, ttl: nat, mtu: int) | RequestFrame(id: nat)

  /** A listed request; it gets its id when it is first sent, and then expires after the lifetime of
      an exchange. `since` counts the requests the slave had accepted by then. */
  datatype Request = Request(id: Option<nat>, assoc: bool, ttl: nat, mtu: int, replied: bool, since: nat,
                             expire: Option<nat>)

  function NewRequest(assoc: bool, ttl: nat, mtu: int): Request
  {
    Request(None, assoc, ttl, mtu, false, 0, None)
  }

  predicate Expired(r: Request, now: nat) { r.expire.Some? && now > r.expire.value }

  /** Engine and slave entry of the master; `linked` is the request whose answer made the slave run. */
  datatype Master = Master(running: bool, addressed: bool, curmtu: int, nextTimeout: nat,
                           mlist: seq<Request>, linked: Option<Request>)

  datatype Config = Config(initTtl: nat, defmtu: int, networkMtu: int, slaveMtu: int, lifetime: nat)

  /** The slave accepted and answered an Assoc request. */
  datatype Acceptance = Acceptance(id: nat, mtu: int, expiry: nat, at: nat)

  datatype World = World(config: Config, slave: Slave, master: Master, down: set<Frame>, up: set<Frame>,
                         now: nat, turn: nat, accepted: seq<Acceptance>)

  // ---------------------------------------------------------------- the master

  /** find_peer: the MTU for a slave that announces `mtu`. */
  function Negotiated(c: Config, mtu: int): int
  {
    var d := if c.defmtu <= 0 || c.defmtu > c.networkMtu then c.networkMtu else c.defmtu;
    if mtu <= 0 || mtu > d then d else mtu
  }

  function ReceiveDiscover(c: Config, m: Master, mtu: int): Master
  {
    var n := if m.addressed then m else m.(addressed := true, curmtu := Negotiated(c, mtu));
    n.(mlist := [NewRequest(true, c.initTtl, n.curmtu)] + n.mlist)
  }

  /** correlate: the first listed request with this id. */
  function Correlated(mlist: seq<Request>, id: nat): (k: nat)
    ensures k <= |mlist| && (k < |mlist| ==> mlist[k].id == Some(id))
    ensures forall j :: 0 <= j < k ==> mlist[j].id != Some(id)
  {
    if mlist == [] then 0
    else if mlist[0].id == Some(id) then 0
    else 1 + Correlated(mlist[1..], id)
  }

  /** Only the first reply is linked; if it answers an Assoc request and its resource list can be
      parsed, the slave runs for its whole time to live from now. */
  function ReceiveAck(c: Config, m: Master, id: nat, parses: bool, now: nat): Master
  {
    var k := Correlated(m.mlist, id);
    if !m.addressed || k == |m.mlist| || m.mlist[k].replied then m
    else
      var r := m.mlist[k].(replied := true);
      var n := m.(mlist := m.mlist[k := r]);
      if r.assoc && parses then n.(running := true, nextTimeout := now + c.initTtl * 1000, linked := Some(r)) else n
  }

  /** The slave's time to live is over. */
  function Reset(m: Master): Master
  {
    m.(running := false, addressed := false, curmtu := 0)
  }

  function Framed(r: Request): Frame
    requires r.id.Some?
  {
    if r.assoc then AssocFrame(r.id.value, r.ttl, r.mtu) else RequestFrame(r.id.value)
  }

  // ---------------------------------------------------------------- the world

  function Delivered(f: Frame, truncated: bool): Received
  {
    match f
    case HelloFrame(hlid) => Hello(MASTER, hlid)
    case AssocFrame(id, ttl, mtu) =>
      if truncated then TooLarge(MASTER, id) else AssocRequest(MASTER, id, ttl * 1000, mtu)
    case RequestFrame(id) => if truncated then TooLarge(MASTER, id) else ResourceRequest(MASTER, id)
    case _ => Nothing
  }

  function Transmitted(out: seq<Sent>): set<Frame>
  {
    set k | 0 <= k < |out| :: (match out[k]
                               case Discover(dest, mtu) => DiscoverFrame(mtu)
                               case AssocAnswer(peer, id) => AckFrame(id)
                               case Response(dest, id) => AckFrame(id))
  }

  /** One turn of the slave; it has accepted the request it sends an Assoc answer to. */
  function SlaveTurn(w: World, rx: Received): World
  {
    var (s, out) := Loop(w.slave, w.now, rx);
    var answers := rx.AssocRequest? && AssocAnswer(rx.src, rx.id) in out;
    w.(slave := s, up := w.up + Transmitted(out), turn := w.now,
       accepted := if answers then w.accepted + [AcceptanceOf(w, rx)] else w.accepted)
  }

  function AcceptanceOf(w: World, rx: Received): Acceptance
    requires rx.AssocRequest?
  {
    var adopted := if Associated(w.slave) then NegociateMtu(w.slave, rx.mtu)
                   else ChangeMaster(w.slave, rx.src, -1, rx.mtu);
    Acceptance(rx.id, adopted.curmtu, RenewInit(w.now, rx.sttl).limit, w.now)
  }

  datatype Event = Tick(duration: nat)
                 | SlaveIdles
                 | SlaveReceives(frame: Frame, truncated: bool)
                 | MasterReceives(frame: Frame, parses: bool)
                 | MasterAdds                                    // a request for a resource
                 | MasterSends(index: nat, id: nat)              // for the first time, or again
                 | MasterSaysHello(hlid: int)
                 | MasterDrops(index: nat)                       // an expired request
                 | MasterChecksTtl
                 | LosesDown(frame: Frame)
                 | LosesUp(frame: Frame)

  function Send(w: World, k: nat, id: nat): World
    requires k < |w.master.mlist|
  {
    var r := w.master.mlist[k];
    if r.id.Some? then w.(down := w.down + {Framed(r)})
    else
      var t := r.(id := Some(id), since := |w.accepted|, expire := Some(w.now + w.config.lifetime));
      w.(master := w.master.(mlist := w.master.mlist[k := t]), down := w.down + {Framed(t)})
  }

  function Step(w: World, e: Event): World
  {
    var m := w.master;
    match e
    case Tick(d) => w.(now := w.now + d)
    case SlaveIdles => SlaveTurn(w, Nothing)
    case SlaveReceives(f, truncated) => if f in w.down then SlaveTurn(w, Delivered(f, truncated)) else w
    case MasterReceives(f, parses) =>
      if f !in w.up then w
      else if f.DiscoverFrame? then w.(master := ReceiveDiscover(w.config, m, f.mtu))
      else if f.AckFrame? then w.(master := ReceiveAck(w.config, m, f.id, parses, w.now))
      else w
    case MasterAdds => w.(master := m.(mlist := [NewRequest(false, 0, 0)] + m.mlist))
    case MasterSends(k, id) => if k < |m.mlist| then Send(w, k, id) else w
    case MasterSaysHello(hlid) => w.(down := w.down + {HelloFrame(hlid)})
    case MasterDrops(k) =>
      if k < |m.mlist| && Expired(m.mlist[k], w.now)
      then w.(master := m.(mlist := m.mlist[..k] + m.mlist[k + 1..])) else w
    case MasterChecksTtl => if m.running && w.now >= m.nextTimeout then w.(master := Reset(m)) else w
    case LosesDown(f) => w.(down := w.down - {f})
    case LosesUp(f) => w.(up := w.up - {f})
  }

  function Begin(c: Config): World
  {
    World(c, Started(c.slaveMtu), Master(false, false, 0, 0, [], None), {}, {}, 0, 0, [])
  }

  function RunFrom(w: World, es: seq<Event>): World
  {
    if es == [] then w else Step(RunFrom(w, es[..|es| - 1]), es[|es| - 1])
  }

  function Run(c: Config, es: seq<Event>): World
  {
    RunFrom(Begin(c), es)
  }

  // ---------------------------------------------------------------- what every step of any run keeps

  predicate Configured(c: Config) { c.networkMtu >= 1 && c.slaveMtu >= 1 }

  /** The MTU both ends come to: the least of the three configured ones. */
  function Mtu(c: Config): int { Negotiated(c, c.slaveMtu) }

  predicate SlaveOk(w: World)
  {
    Configured(w.config) && CasanSlave.Valid(w.slave, w.turn) && w.turn <= w.now && w.slave.defmtu == w.config.slaveMtu
  }

  predicate RequestOk(c: Config, r: Request, accepted: nat, now: nat)
  {
    && r.since <= accepted && (r.assoc ==> r.mtu == Mtu(c) && r.ttl == c.initTtl) && (r.replied ==> r.id.Some?)
    && (r.id.Some? <==> r.expire.Some?) && (r.expire.Some? ==> r.expire.value <= now + c.lifetime)
  }

  predicate Listed(c: Config, mlist: seq<Request>, accepted: nat, now: nat)
  {
    forall k :: 0 <= k < |mlist| ==> RequestOk(c, mlist[k], accepted, now)
  }

  predicate AssocFrames(c: Config, down: set<Frame>)
  {
    forall f :: f in down && f.AssocFrame? ==> f.mtu == Mtu(c) && f.ttl == c.initTtl
  }

  predicate Discovers(up: set<Frame>, mtu: int)
  {
    forall f :: f in up && f.DiscoverFrame? ==> f.mtu == mtu
  }

  predicate Past(accepted: seq<Acceptance>, now: nat)
  {
    forall k :: 0 <= k < |accepted| ==> accepted[k].at <= now
  }

  predicate Sane(w: World)
  {
    && SlaveOk(w)
    && Listed(w.config, w.master.mlist, |w.accepted|, w.now)
    && AssocFrames(w.config, w.down) && Discovers(w.up, w.config.slaveMtu)
    && (w.master.addressed ==> w.master.curmtu == Mtu(w.config)) && Past(w.accepted, w.now)
  }

  lemma ListedLater(c: Config, mlist: seq<Request>, accepted: nat, more: nat, now: nat, later: nat)
    requires Listed(c, mlist, accepted, now) && accepted <= more && now <= later
    ensures Listed(c, mlist, more, later)
  {
    forall k | 0 <= k < |mlist| ensures RequestOk(c, mlist[k], more, later) {
      assert RequestOk(c, mlist[k], accepted, now);
    }
  }

  lemma AddedSane(w: World, r: Request)
    requires Sane(w) && RequestOk(w.config, r, |w.accepted|, w.now)
    ensures Sane(w.(master := w.master.(mlist := [r] + w.master.mlist)))
  {
    hide CasanSlave.Valid, RequestOk;
    var mlist := [r] + w.master.mlist;
    assert forall k :: 1 <= k < |mlist| ==> mlist[k] == w.master.mlist[k - 1];
  }

  lemma DiscoverSane(w: World, mtu: int)
    requires Sane(w) && mtu == w.config.slaveMtu
    ensures Sane(w.(master := ReceiveDiscover(w.config, w.master, mtu)))
  {
    hide CasanSlave.Valid, Listed;
    var m := w.master;
    var n := if m.addressed then m else m.(addressed := true, curmtu := Negotiated(w.config, mtu));
    AddedSane(w.(master := n), NewRequest(true, w.config.initTtl, n.curmtu));
  }

  lemma AckSane(w: World, id: nat, parses: bool)
    requires Sane(w)
    ensures Sane(w.(master := ReceiveAck(w.config, w.master, id, parses, w.now)))
  {
    hide CasanSlave.Valid;
  }

  lemma SendSane(w: World, k: nat, id: nat)
    requires Sane(w) && k < |w.master.mlist|
    ensures Sane(Send(w, k, id))
  {
    hide CasanSlave.Valid;
    assert RequestOk(w.config, w.master.mlist[k], |w.accepted|, w.now);
  }

  lemma DropSane(w: World, k: nat)
    requires Sane(w) && k < |w.master.mlist|
    ensures Sane(w.(master := w.master.(mlist := w.master.mlist[..k] + w.master.mlist[k + 1..])))
  {
    hide CasanSlave.Valid, RequestOk;
    var mlist := w.master.mlist[..k] + w.master.mlist[k + 1..];
    assert forall j :: 0 <= j < |mlist| ==> mlist[j] == w.master.mlist[if j < k then j else j + 1];
  }

  // ---------------------------------------------------------------- turns of the slave

  /** What the slave sends: Discover messages with its own MTU, and answers to what it got. */
  lemma Sends(s: Slave, now: nat, rx: Received, k: nat)
    requires k < |Loop(s, now, rx).1|
    ensures match Loop(s, now, rx).1[k]
            case Discover(dest, mtu) => mtu == s.defmtu
            case AssocAnswer(peer, id) => rx.AssocRequest? && id == rx.id && peer == rx.src
            case Response(dest, id) => (rx.ResourceRequest? || rx.TooLarge?) && id == rx.id
  {
    RunningSends(s, now, rx);
    WaitingSends(s, now, rx);
    hide ReceiveRunning, ReceiveWaiting, CheckRenewal, CheckWaiting;
    ChecksDiscover(ReceiveRunning(s, now, rx).0, now);
    ChecksDiscover(ReceiveWaiting(s, now, rx).0, now);
  }

  lemma Frames(s: Slave, now: nat, rx: Received, f: Frame)
    requires f in Transmitted(Loop(s, now, rx).1)
    ensures match f
            case DiscoverFrame(mtu) => mtu == s.defmtu
            case AckFrame(id) =>
              || (rx.AssocRequest? && id == rx.id && AssocAnswer(rx.src, id) in Loop(s, now, rx).1)
              || ((rx.ResourceRequest? || rx.TooLarge?) && id == rx.id)
            case _ => false
  {
    var out := Loop(s, now, rx).1;
    var k :| 0 <= k < |out| && f == (match out[k]
                                     case Discover(dest, mtu) => DiscoverFrame(mtu)
                                     case AssocAnswer(peer, id) => AckFrame(id)
                                     case Response(dest, id) => AckFrame(id));
    hide Loop;
    Sends(s, now, rx, k);
  }

  /** The slave has really done what an acceptance says, unless its time to live is zero. */
  lemma AcceptanceIsTheSlaves(w: World, rx: Received)
    requires rx.AssocRequest? && AssocAnswer(rx.src, rx.id) in Loop(w.slave, w.now, rx).1 && rx.sttl > 1
    ensures var s := SlaveTurn(w, rx).slave;
            && s.status.Running? && s.acceptedAt == w.now && s.sttl == rx.sttl && s.master == Some(rx.src)
            && SlaveTurn(w, rx).accepted == w.accepted + [Acceptance(rx.id, s.curmtu, s.trenew.limit, w.now)]
  {
    var out := Loop(w.slave, w.now, rx).1;
    var k :| 0 <= k < |out| && out[k] == AssocAnswer(rx.src, rx.id);
  }

  lemma TurnSane(w: World, rx: Received)
    requires Sane(w)
    ensures Sane(SlaveTurn(w, rx))
  {
    var v := SlaveTurn(w, rx);
    LoopValid(w.slave, w.turn, w.now, rx);
    LoopDefault(w.slave, w.now, rx);
    ListedLater(w.config, w.master.mlist, |w.accepted|, |v.accepted|, w.now, w.now);
    forall g | g in v.up && g.DiscoverFrame? ensures g.mtu == w.config.slaveMtu {
      if g !in w.up { Frames(w.slave, w.now, rx, g); }
    }
    hide Listed, CasanSlave.Valid, Loop;
  }

  lemma StepSane(w: World, e: Event)
    requires Sane(w)
    ensures Sane(Step(w, e))
  {
    hide CasanSlave.Valid, Listed, SlaveTurn, ReceiveDiscover, ReceiveAck, Send;
    match e
    case Tick(d) => ListedLater(w.config, w.master.mlist, |w.accepted|, |w.accepted|, w.now, w.now + d);
    case SlaveIdles => TurnSane(w, Nothing);
    case SlaveReceives(f, truncated) => TurnSane(w, Delivered(f, truncated));
    case MasterReceives(f, parses) =>
      if f in w.up && f.DiscoverFrame? { DiscoverSane(w, f.mtu); }
      if f in w.up && f.AckFrame? { AckSane(w, f.id, parses); }
    case MasterAdds => AddedSane(w, NewRequest(false, 0, 0));
    case MasterSends(k, id) =>
      if k < |w.master.mlist| { SendSane(w, k, id); }
    case MasterSaysHello(hlid) =>
    case MasterDrops(k) =>
      if k < |w.master.mlist| { DropSane(w, k); }
    case MasterChecksTtl =>
    case LosesDown(f) =>
    case LosesUp(f) =>
  }

  // ---------------------------------------------------------------- when the master can be deceived

  predicate Covers(a: Acceptance, r: Request)
  {
    r.id == Some(a.id) && a.mtu == r.mtu && a.expiry == a.at + r.ttl * 1000
  }

  /** Since this request was first sent, the slave has accepted it, with the MTU and for the time to
      live it names, and answered. */
  predicate Answered(accepted: seq<Acceptance>, r: Request)
  {
    exists k :: r.since <= k < |accepted| && Covers(accepted[k], r)
  }

  /** The master takes the slave to be running on a request that the slave has not accepted since it
      was first sent, or for longer than the slave does. */
  predicate Deceived(w: World)
  {
    w.master.running && !Founded(w)
  }

  predicate Founded(w: World)
  {
    && w.master.addressed && w.master.linked.Some? && w.master.linked.value.assoc
    && w.master.linked.value.mtu == Mtu(w.config)
    && exists k :: w.master.linked.value.since <= k < |w.accepted|
         && Covers(w.accepted[k], w.master.linked.value)
         && w.accepted[k].expiry <= w.master.nextTimeout
  }

  /** A listed Assoc request under way: neither replied to nor accepted. */
  predicate Waits(w: World, k: nat)
  {
    k < |w.master.mlist|
    && w.master.mlist[k].assoc && w.master.mlist[k].id.Some? && !w.master.mlist[k].replied
    && !Answered(w.accepted, w.master.mlist[k])
  }

  /** Something else than the acceptance of an Assoc request is, or can come to be, acknowledged
      under this id. */
  predicate Stray(w: World, id: nat)
  {
    || AckFrame(id) in w.up || RequestFrame(id) in w.down
    || exists j :: 0 <= j < |w.master.mlist| && !w.master.mlist[j].assoc && w.master.mlist[j].id == Some(id)
  }

  predicate Exposed(w: World)
  {
    exists k :: 0 <= k < |w.master.mlist| && Waits(w, k) && Stray(w, w.master.mlist[k].id.value)
  }

  predicate Awaited(w: World, id: nat)
  {
    exists k :: 0 <= k < |w.master.mlist| && Waits(w, k) && w.master.mlist[k].id == Some(id)
  }

  /** The events that expose the master: an Assoc request gets an id to which something stray
      answers, a request for a resource gets the id of an Assoc request under way, or an Assoc request
      under way reaches a running slave truncated. */
  predicate Misguides(w: World, e: Event)
  {
    match e
    case MasterSends(k, id) =>
      k < |w.master.mlist| && w.master.mlist[k].id.None?
      && if w.master.mlist[k].assoc then Stray(w, id) else Awaited(w, id)
    case SlaveReceives(f, truncated) =>
      truncated && f in w.down && f.AssocFrame? && Associated(w.slave) && Awaited(w, f.id)
    case _ => false
  }

  // ---------------------------------------------------------------- nothing else deceives it

  /** Acceptances are only added, and a reply is no change of the request. */
  lemma AnsweredStays(accepted: seq<Acceptance>, more: seq<Acceptance>, r: Request, t: Request)
    requires accepted <= more && t == r.(replied := t.replied) && Answered(accepted, r)
    ensures Answered(more, t)
  {
    var k :| r.since <= k < |accepted| && Covers(accepted[k], r);
    assert more[k] == accepted[k] && Covers(more[k], t);
  }

  lemma FoundedStays(w: World, v: World)
    requires Founded(w) && v.master.linked == w.master.linked && v.master.nextTimeout == w.master.nextTimeout
    requires v.config == w.config && w.accepted <= v.accepted && v.master.addressed == w.master.addressed
    ensures Founded(v)
  {
    var k :| w.master.linked.value.since <= k < |w.accepted| && Covers(w.accepted[k], w.master.linked.value)
      && w.accepted[k].expiry <= w.master.nextTimeout;
    assert v.accepted[k] == w.accepted[k];
  }

  /** The same request, perhaps with a reply by now. */
  predicate SameRequest(r: Request, t: Request)
  {
    t == r.(replied := t.replied) && (r.replied ==> t.replied)
  }

  /** Nothing becomes exposed while no frame, no request and no id is added. */
  lemma FewerExposed(w: World, v: World)
    requires Exposed(v) && w.accepted <= v.accepted && v.up <= w.up && v.down <= w.down
    requires forall k :: 0 <= k < |v.master.mlist| && v.master.mlist[k].id.Some? ==>
               exists j :: 0 <= j < |w.master.mlist| && SameRequest(w.master.mlist[j], v.master.mlist[k])
    ensures Exposed(w)
  {
    var k :| 0 <= k < |v.master.mlist| && Waits(v, k) && Stray(v, v.master.mlist[k].id.value);
    var r := v.master.mlist[k];
    var j :| 0 <= j < |w.master.mlist| && SameRequest(w.master.mlist[j], r);
    if Answered(w.accepted, w.master.mlist[j]) { AnsweredStays(w.accepted, v.accepted, w.master.mlist[j], r); }
    assert Waits(w, j);
    if AckFrame(r.id.value) !in w.up && RequestFrame(r.id.value) !in w.down {
      var i :| 0 <= i < |v.master.mlist| && !v.master.mlist[i].assoc && v.master.mlist[i].id == r.id;
      var l :| 0 <= l < |w.master.mlist| && SameRequest(w.master.mlist[l], v.master.mlist[i]);
      assert !w.master.mlist[l].assoc && w.master.mlist[l].id == r.id;
    }
  }

  predicate Justified(w: World) { w.master.running ==> Founded(w) }

  /** Linking a reply: without exposure the Assoc request it answers has been accepted. */
  lemma AckJustified(w: World, id: nat, parses: bool)
    requires Sane(w) && !Exposed(w) && Justified(w) && AckFrame(id) in w.up
    ensures Justified(w.(master := ReceiveAck(w.config, w.master, id, parses, w.now)))
  {
    hide CasanSlave.Valid, Covers, Founded;
    var m := w.master;
    var k := Correlated(m.mlist, id);
    var v := w.(master := ReceiveAck(w.config, m, id, parses, w.now));
    if m.addressed && k < |m.mlist| && !m.mlist[k].replied && m.mlist[k].assoc && parses {
      var r := m.mlist[k];
      assert RequestOk(w.config, r, |w.accepted|, w.now);
      AcknowledgedIsAnswered(w, k);
      AnswerFounds(w, r, v);
    } else if m.running {
      FoundedStays(w, v);
    }
  }

  lemma AcknowledgedIsAnswered(w: World, k: nat)
    requires k < |w.master.mlist| && w.master.mlist[k].assoc && !w.master.mlist[k].replied
    requires w.master.mlist[k].id.Some? && AckFrame(w.master.mlist[k].id.value) in w.up
    ensures Answered(w.accepted, w.master.mlist[k]) || Exposed(w)
  {
    if !Answered(w.accepted, w.master.mlist[k]) { assert Waits(w, k) && Stray(w, w.master.mlist[k].id.value); }
  }

  lemma AnswerFounds(w: World, r: Request, v: World)
    requires Past(w.accepted, w.now) && Answered(w.accepted, r) && r.assoc && r.mtu == Mtu(w.config)
    requires v.config == w.config && v.accepted == w.accepted && v.master.addressed
    requires v.master.nextTimeout == w.now + r.ttl * 1000 && v.master.linked == Some(r.(replied := true))
    ensures Founded(v)
  {
    var k :| r.since <= k < |w.accepted| && Covers(w.accepted[k], r);
    assert Covers(w.accepted[k], r.(replied := true));
  }

  lemma AckExposes(w: World, id: nat, parses: bool)
    requires Exposed(w.(master := ReceiveAck(w.config, w.master, id, parses, w.now)))
    ensures Exposed(w)
  {
    hide Answered;
    var v := w.(master := ReceiveAck(w.config, w.master, id, parses, w.now));
    assert forall k :: 0 <= k < |v.master.mlist| ==> SameRequest(w.master.mlist[k], v.master.mlist[k]);
    FewerExposed(w, v);
  }

  lemma AddedExposes(w: World, r: Request, m: Master)
    requires r.id.None? && m.mlist == [r] + w.master.mlist && Exposed(w.(master := m))
    ensures Exposed(w)
  {
    hide Answered;
    assert forall k :: 1 <= k < |m.mlist| ==> SameRequest(w.master.mlist[k - 1], m.mlist[k]);
    FewerExposed(w, w.(master := m));
  }

  lemma DropExposes(w: World, k: nat)
    requires k < |w.master.mlist|
    requires Exposed(w.(master := w.master.(mlist := w.master.mlist[..k] + w.master.mlist[k + 1..])))
    ensures Exposed(w)
  {
    hide Answered;
    var mlist := w.master.mlist[..k] + w.master.mlist[k + 1..];
    assert forall j :: 0 <= j < |mlist| ==> SameRequest(w.master.mlist[if j < k then j else j + 1], mlist[j]);
    FewerExposed(w, w.(master := w.master.(mlist := mlist)));
  }

  lemma SameExposed(w: World, v: World)
    requires Exposed(v) && v.master.mlist == w.master.mlist && v.accepted == w.accepted
    requires forall f :: (f in v.up ==> f in w.up) && (f in v.down && f !in w.down ==> f.HelloFrame?)
    ensures Exposed(w)
  {
    hide Answered;
    var k :| 0 <= k < |v.master.mlist| && Waits(v, k) && Stray(v, v.master.mlist[k].id.value);
    assert Waits(w, k) && Stray(w, w.master.mlist[k].id.value);
  }

  /** The first transmission of an Assoc request exposes it exactly if there is something stray. */
  lemma SendExposes(w: World, k: nat, id: nat)
    requires Sane(w) && !Exposed(w) && k < |w.master.mlist|
    ensures Exposed(Send(w, k, id)) <==> Misguides(w, MasterSends(k, id))
  {
    hide CasanSlave.Valid, Covers, Answered;
    var r, v := w.master.mlist[k], Send(w, k, id);
    if r.id.Some? {
      if Exposed(v) { ResentExposes(w, v, k); }
    } else if r.assoc {
      if Stray(w, id) { AssocExposed(w, k, id); }
      if Exposed(v) { AssocStrays(w, k, id); }
    } else {
      if Awaited(w, id) { RequestExposed(w, k, id); }
      if Exposed(v) { RequestAwaited(w, k, id); }
    }
  }

  /** Sending something again is nothing new. */
  lemma ResentExposes(w: World, v: World, k: nat)
    requires k < |w.master.mlist| && w.master.mlist[k].id.Some? && Exposed(v)
    requires v == w.(down := w.down + {Framed(w.master.mlist[k])})
    ensures Exposed(w)
  {
    hide Answered;
    var i :| 0 <= i < |v.master.mlist| && Waits(v, i) && Stray(v, v.master.mlist[i].id.value);
    assert Waits(w, i) && Stray(w, w.master.mlist[i].id.value);
  }

  lemma AssocExposed(w: World, k: nat, id: nat)
    requires Sane(w) && k < |w.master.mlist| && w.master.mlist[k].id.None? && w.master.mlist[k].assoc && Stray(w, id)
    ensures Exposed(Send(w, k, id))
  {
    hide CasanSlave.Valid;
    assert RequestOk(w.config, w.master.mlist[k], |w.accepted|, w.now);
    var v := Send(w, k, id);
    if AckFrame(id) !in w.up && RequestFrame(id) !in w.down {
      var j :| 0 <= j < |w.master.mlist| && !w.master.mlist[j].assoc && w.master.mlist[j].id == Some(id);
      assert v.master.mlist[j] == w.master.mlist[j];
    }
    assert Waits(v, k) && Stray(v, id);
  }

  lemma AssocStrays(w: World, k: nat, id: nat)
    requires k < |w.master.mlist| && w.master.mlist[k].id.None? && w.master.mlist[k].assoc
    requires Exposed(Send(w, k, id))
    ensures Stray(w, id) || Exposed(w)
  {
    hide Answered;
    var v := Send(w, k, id);
    var i :| 0 <= i < |v.master.mlist| && Waits(v, i) && Stray(v, v.master.mlist[i].id.value);
    StrayStays(w, k, id, v.master.mlist[i].id.value);
    if i != k { assert Waits(w, i); }
  }

  /** An Assoc request with an id is nothing stray. */
  lemma StrayStays(w: World, k: nat, id: nat, i: nat)
    requires k < |w.master.mlist| && w.master.mlist[k].id.None? && w.master.mlist[k].assoc && Stray(Send(w, k, id), i)
    ensures Stray(w, i)
  {
    var v := Send(w, k, id);
    if AckFrame(i) !in w.up && RequestFrame(i) !in w.down {
      var j :| 0 <= j < |v.master.mlist| && !v.master.mlist[j].assoc && v.master.mlist[j].id == Some(i);
      assert w.master.mlist[j] == v.master.mlist[j];
    }
  }

  lemma RequestExposed(w: World, k: nat, id: nat)
    requires k < |w.master.mlist| && w.master.mlist[k].id.None? && !w.master.mlist[k].assoc && Awaited(w, id)
    ensures Exposed(Send(w, k, id))
  {
    hide Answered;
    var v := Send(w, k, id);
    var i :| 0 <= i < |w.master.mlist| && Waits(w, i) && w.master.mlist[i].id == Some(id);
    assert Waits(v, i) && RequestFrame(id) in v.down && Stray(v, id);
  }

  lemma RequestAwaited(w: World, k: nat, id: nat)
    requires k < |w.master.mlist| && w.master.mlist[k].id.None? && !w.master.mlist[k].assoc
    requires Exposed(Send(w, k, id))
    ensures Awaited(w, id) || Exposed(w)
  {
    hide Answered;
    var v := Send(w, k, id);
    var i :| 0 <= i < |v.master.mlist| && Waits(v, i) && Stray(v, v.master.mlist[i].id.value);
    var n := v.master.mlist[i].id.value;
    assert Waits(w, i);
    if n != id && AckFrame(n) !in w.up && RequestFrame(n) !in w.down {
      var j :| 0 <= j < |v.master.mlist| && !v.master.mlist[j].assoc && v.master.mlist[j].id == Some(n);
      assert w.master.mlist[j] == v.master.mlist[j];
      assert Stray(w, n);
    }
  }

  lemma SendJustified(w: World, k: nat, id: nat)
    requires Justified(w) && k < |w.master.mlist|
    ensures Justified(Send(w, k, id))
  {
    hide Founded;
    if w.master.running { FoundedStays(w, Send(w, k, id)); }
  }

  // ---------------------------------------------------------------- turns of the slave

  /** What the slave acknowledges, and what it then has accepted. */
  lemma Acknowledges(w: World, rx: Received, id: nat)
    requires AckFrame(id) in SlaveTurn(w, rx).up && AckFrame(id) !in w.up
    ensures || ((rx.ResourceRequest? || rx.TooLarge?) && rx.id == id)
            || (rx.AssocRequest? && rx.id == id && SlaveTurn(w, rx).accepted == w.accepted + [AcceptanceOf(w, rx)])
  {
    Frames(w.slave, w.now, rx, AckFrame(id));
    hide Loop;
  }

  lemma AcceptedCovers(w: World, f: Frame, r: Request)
    requires Sane(w) && f in w.down && f.AssocFrame? && RequestOk(w.config, r, |w.accepted|, w.now)
    requires r.assoc && r.id == Some(f.id)
    ensures Covers(AcceptanceOf(w, Delivered(f, false)), r)
    ensures Answered(w.accepted + [AcceptanceOf(w, Delivered(f, false))], r)
  {
    assert 1 <= Mtu(w.config) <= w.config.slaveMtu;
    var all := w.accepted + [AcceptanceOf(w, Delivered(f, false))];
    assert Covers(all[|w.accepted|], r);
  }

  /** A slave that runs answers requests for resources, and everything that is too large. */
  lemma Responds(w: World, f: Frame, truncated: bool)
    requires Associated(w.slave) && f in w.down && (f.RequestFrame? || (f.AssocFrame? && truncated))
    ensures AckFrame(f.id) in SlaveTurn(w, Delivered(f, truncated)).up
    ensures SlaveTurn(w, Delivered(f, truncated)).accepted == w.accepted
  {
    var rx := Delivered(f, truncated);
    var out := Loop(w.slave, w.now, rx).1;
    hide CheckRenewal;
    assert out[0] == Response(w.slave.master, f.id);
  }

  lemma RunningOnly(w: World, rx: Received)
    requires !Associated(w.slave) && !rx.AssocRequest?
    ensures forall id :: AckFrame(id) in SlaveTurn(w, rx).up ==> AckFrame(id) in w.up
  {
    hide Loop;
    forall id | AckFrame(id) in SlaveTurn(w, rx).up ensures AckFrame(id) in w.up {
      if AckFrame(id) !in w.up { WaitingIsSilent(w.slave, w.now, rx, id); }
    }
  }

  lemma WaitingIsSilent(s: Slave, now: nat, rx: Received, id: nat)
    requires !Associated(s) && !rx.AssocRequest?
    ensures AckFrame(id) !in Transmitted(Loop(s, now, rx).1)
  {
    WaitingSends(s, now, rx);
    hide ReceiveRunning, ReceiveWaiting, CheckRenewal, CheckWaiting;
    ChecksDiscover(ReceiveWaiting(s, now, rx).0, now);
  }

  lemma TurnExposes(w: World, f: Frame, truncated: bool)
    requires Sane(w) && !Exposed(w) && f in w.down
    ensures Exposed(SlaveTurn(w, Delivered(f, truncated))) <==> Misguides(w, SlaveReceives(f, truncated))
  {
    hide CasanSlave.Valid, Loop;
    var v := SlaveTurn(w, Delivered(f, truncated));
    if Misguides(w, SlaveReceives(f, truncated)) {
      Responds(w, f, truncated);
      var k :| 0 <= k < |w.master.mlist| && Waits(w, k) && w.master.mlist[k].id == Some(f.id);
      assert Waits(v, k) && Stray(v, f.id);
    }
    if Exposed(v) { ExposedTurn(w, f, truncated); }
  }

  lemma ExposedTurn(w: World, f: Frame, truncated: bool)
    requires Sane(w) && !Exposed(w) && f in w.down && Exposed(SlaveTurn(w, Delivered(f, truncated)))
    ensures Misguides(w, SlaveReceives(f, truncated))
  {
    hide CasanSlave.Valid, Loop, Covers;
    var rx := Delivered(f, truncated);
    var v := SlaveTurn(w, rx);
    var k :| 0 <= k < |v.master.mlist| && Waits(v, k) && Stray(v, v.master.mlist[k].id.value);
    var r := w.master.mlist[k];
    if Answered(w.accepted, r) { AnsweredStays(w.accepted, v.accepted, r, r); }
    assert Waits(w, k) && !Stray(w, r.id.value);
    Acknowledges(w, rx, r.id.value);
    assert RequestOk(w.config, r, |w.accepted|, w.now);
    if f.AssocFrame? && !truncated { AcceptedCovers(w, f, r); }
    if !Associated(w.slave) && !rx.AssocRequest? { RunningOnly(w, rx); }
  }

  lemma IdleExposes(w: World)
    requires Exposed(SlaveTurn(w, Nothing))
    ensures Exposed(w)
  {
    hide Loop, Answered;
    var v := SlaveTurn(w, Nothing);
    var k :| 0 <= k < |v.master.mlist| && Waits(v, k) && Stray(v, v.master.mlist[k].id.value);
    var id := v.master.mlist[k].id.value;
    assert Waits(w, k);
    if AckFrame(id) in v.up && AckFrame(id) !in w.up { Acknowledges(w, Nothing, id); }
    assert Stray(w, id);
  }

  lemma TurnJustified(w: World, rx: Received)
    requires Justified(w)
    ensures Justified(SlaveTurn(w, rx))
  {
    hide Founded, Loop;
    if w.master.running { FoundedStays(w, SlaveTurn(w, rx)); }
  }

  // ---------------------------------------------------------------- every step

  /** A step exposes the master exactly if it is one of the events above. */
  lemma StepExposes(w: World, e: Event)
    requires Sane(w) && !Exposed(w)
    ensures Exposed(Step(w, e)) <==> Misguides(w, e)
  {
    hide CasanSlave.Valid, Sane, SlaveTurn, Send, Exposed, Misguides;
    match e
    case SlaveIdles =>
      NotListed(w, e);
      if Exposed(Step(w, e)) { IdleExposes(w); }
    case SlaveReceives(f, truncated) =>
      if f in w.down { TurnExposes(w, f, truncated); } else { NotListed(w, e); }
    case MasterSends(k, id) =>
      if k < |w.master.mlist| { SendExposes(w, k, id); } else { NotListed(w, e); }
    case _ =>
      NotListed(w, e);
      if Exposed(Step(w, e)) { OthersExposeNothing(w, e); }
  }

  lemma NotListed(w: World, e: Event)
    requires (e.MasterSends? ==> e.index >= |w.master.mlist|) && (e.SlaveReceives? ==> e.frame !in w.down)
    ensures !Misguides(w, e)
  {
  }

  lemma OthersExposeNothing(w: World, e: Event)
    requires Exposed(Step(w, e)) && !e.SlaveIdles? && !e.SlaveReceives? && !e.MasterSends?
    ensures Exposed(w)
  {
    hide Exposed, ReceiveAck;
    var m, v := w.master, Step(w, e);
    match e
    case MasterReceives(f, parses) =>
      if f in w.up && f.DiscoverFrame? {
        AddedExposes(w, v.master.mlist[0], v.master);
      } else if f in w.up && f.AckFrame? {
        AckExposes(w, f.id, parses);
      }
    case MasterAdds => AddedExposes(w, NewRequest(false, 0, 0), v.master);
    case MasterDrops(k) =>
      if k < |m.mlist| && Expired(m.mlist[k], w.now) { DropExposes(w, k); }
    case _ => SameExposed(w, v);
  }

  lemma StepJustified(w: World, e: Event)
    requires Sane(w) && !Exposed(w) && Justified(w)
    ensures Justified(Step(w, e))
  {
    hide CasanSlave.Valid, Sane, SlaveTurn, Send, ReceiveAck, ReceiveDiscover, Exposed, Founded;
    match e
    case SlaveIdles => TurnJustified(w, Nothing);
    case SlaveReceives(f, truncated) => TurnJustified(w, Delivered(f, truncated));
    case MasterReceives(f, parses) =>
      if f in w.up && f.DiscoverFrame? {
        DiscoverJustified(w, f.mtu);
      } else if f in w.up && f.AckFrame? {
        AckJustified(w, f.id, parses);
      }
    case MasterSends(k, id) =>
      if k < |w.master.mlist| { SendJustified(w, k, id); }
    case _ => if w.master.running && Step(w, e).master.running { FoundedStays(w, Step(w, e)); }
  }

  lemma DiscoverJustified(w: World, mtu: int)
    requires Justified(w)
    ensures Justified(w.(master := ReceiveDiscover(w.config, w.master, mtu)))
  {
    if w.master.running { FoundedStays(w, w.(master := ReceiveDiscover(w.config, w.master, mtu))); }
  }

  // ---------------------------------------------------------------- runs

  /** None of these events from here on. */
  predicate Careful(w: World, es: seq<Event>)
  {
    forall k :: 0 <= k < |es| ==> !Misguides(RunFrom(w, es[..k]), es[k])
  }

  lemma CarefulFront(w: World, es: seq<Event>)
    requires es != []
    ensures var n := |es| - 1;
            Careful(w, es) <==> Careful(w, es[..n]) && !Misguides(RunFrom(w, es[..n]), es[n])
  {
    hide RunFrom, Misguides;
    var n := |es| - 1;
    assert forall k :: 0 <= k < n ==> es[..n][..k] == es[..k] && es[..n][k] == es[k];
    if Careful(w, es[..n]) && !Misguides(RunFrom(w, es[..n]), es[n]) {
      forall k | 0 <= k < |es| ensures !Misguides(RunFrom(w, es[..k]), es[k]) {
        if k < n { assert !Misguides(RunFrom(w, es[..n][..k]), es[..n][k]); }
      }
    }
    if Careful(w, es) {
      forall k | 0 <= k < n ensures !Misguides(RunFrom(w, es[..n][..k]), es[..n][k]) {
        assert !Misguides(RunFrom(w, es[..k]), es[k]);
      }
    }
  }

  predicate Safe(w: World) { Sane(w) && !Exposed(w) && Justified(w) }

  lemma {:induction false} CarefulIsSafe(w: World, es: seq<Event>)
    requires Safe(w) && Careful(w, es)
    ensures Safe(RunFrom(w, es))
  {
    hide Sane, Exposed, Justified, Misguides, Step;
    if es != [] {
      var n := |es| - 1;
      CarefulFront(w, es);
      CarefulIsSafe(w, es[..n]);
      var v := RunFrom(w, es[..n]);
      StepSane(v, es[n]);
      StepExposes(v, es[n]);
      StepJustified(v, es[n]);
    }
  }

  lemma BeginSafe(c: Config)
    requires Configured(c)
    ensures Safe(Begin(c))
  {
    StartedValid(c.slaveMtu, 0);
  }

  /** Whenever, without such an event, the master takes the slave to be running, the slave has
      accepted and answered the Assoc request whose answer was linked, since that request was first
      sent; the MTU it adopted then is the master's, and the master's expiry is not before the one
      the slave set then. */
  lemma RunningMeansAssociated(c: Config, es: seq<Event>)
    requires Configured(c) && Careful(Begin(c), es) && Run(c, es).master.running
    ensures var w := Run(c, es);
            && w.master.linked.Some? && w.master.linked.value.assoc
            && exists k :: w.master.linked.value.since <= k < |w.accepted|
                 && w.master.linked.value.id == Some(w.accepted[k].id)
                 && w.accepted[k].mtu == w.master.curmtu
                 && w.accepted[k].expiry <= w.master.nextTimeout
  {
    BeginSafe(c);
    CarefulIsSafe(Begin(c), es);
    var w := Run(c, es);
    hide RunFrom, Exposed, CasanSlave.Valid;
    var k :| w.master.linked.value.since <= k < |w.accepted| && Covers(w.accepted[k], w.master.linked.value)
      && w.accepted[k].expiry <= w.master.nextTimeout;
  }
}
