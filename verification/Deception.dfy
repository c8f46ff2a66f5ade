/**
 * The other half of Association: every event that exposes the master has a continuation of losses,
 * delays and repetitions that deceives it, so that the condition of Association is exact; and a run
 * for each of the two kinds.
 */
module Deception {
  import opened Wrappers
  import opened CasanTime
  import opened CasanSlave
  import opened Association

  // ---------------------------------------------------------------- an exposed master can be deceived

  /** A continuation without further events of this kind. */
  predicate Leads(w: World, es: seq<Event>, v: World)
  {
    Careful(w, es) && RunFrom(w, es) == v
  }

  lemma LeadsOn(w: World, es: seq<Event>, v: World, e: Event)
    requires Leads(w, es, v) && !Misguides(v, e)
    ensures Leads(w, es + [e], Step(v, e))
  {
    hide Misguides, Step;
    assert (es + [e])[..|es|] == es;
    CarefulFront(w, es + [e]);
  }

  lemma {:induction false} LeadsThen(w: World, es: seq<Event>, v: World, more: seq<Event>, u: World)
    requires Leads(w, es, v) && Leads(v, more, u)
    ensures Leads(w, es + more, u)
    decreases |more|
  {
    hide Misguides, Step;
    if more == [] {
      assert es + more == es;
    } else {
      var n := |more| - 1;
      CarefulFront(v, more);
      LeadsThen(w, es, v, more[..n], RunFrom(v, more[..n]));
      LeadsOn(w, es + more[..n], RunFrom(v, more[..n]), more[n]);
      assert es + more == es + more[..n] + [more[n]];
    }
  }

  lemma LeadsNowhere(w: World)
    ensures Leads(w, [], w)
  {
  }

  /** The k-th request of w is the i-th of v, as it was, and still waits. */
  predicate StillWaits(w: World, k: nat, v: World, i: nat)
  {
    Waits(w, k) && Waits(v, i) && v.master.mlist[i] == w.master.mlist[k] && v.config == w.config
  }

  /** What is stray can be brought under way. */
  lemma StrayUnderWay(w: World, k: nat) returns (es: seq<Event>, v: World)
    requires Sane(w) && Waits(w, k) && Stray(w, w.master.mlist[k].id.value)
    ensures Leads(w, es, v) && Sane(v) && StillWaits(w, k, v, k)
    ensures var id := w.master.mlist[k].id.value; AckFrame(id) in v.up || RequestFrame(id) in v.down
  {
    hide CasanSlave.Valid, Answered, Listed;
    var id := w.master.mlist[k].id.value;
    LeadsNowhere(w);
    es, v := [], w;
    if AckFrame(id) !in w.up && RequestFrame(id) !in w.down {
      var j :| 0 <= j < |w.master.mlist| && !w.master.mlist[j].assoc && w.master.mlist[j].id == Some(id);
      var e := MasterSends(j, 0);
      LeadsOn(w, [], w, e);
      StepSane(w, e);
      es, v := [] + [e], Step(w, e);
    }
  }

  /** In time the slave forgets its master and says so. */
  lemma SlaveForgets(s: Slave, now: nat)
    requires now >= s.twait.next + s.twait.limit + s.trenew.next + s.trenew.limit
    ensures var (t, out) := Loop(s, now, Nothing);
            t.status.WaitingUnknown? && exists k :: 0 <= k < |out| && out[k].Discover? && out[k].mtu == s.defmtu
  {
    var (t, out) := Loop(s, now, Nothing);
    assert out[|out| - 1].Discover?;
  }

  lemma Announces(w: World)
    requires w.now >= w.slave.twait.next + w.slave.twait.limit + w.slave.trenew.next + w.slave.trenew.limit
    ensures var v := SlaveTurn(w, Nothing);
            && v.slave.status.WaitingUnknown? && DiscoverFrame(w.slave.defmtu) in v.up
            && v == w.(slave := v.slave, up := v.up, turn := w.now) && w.up <= v.up
  {
    SlaveForgets(w.slave, w.now);
    var out := Loop(w.slave, w.now, Nothing).1;
    hide Loop;
    var k :| 0 <= k < |out| && out[k].Discover? && out[k].mtu == w.slave.defmtu;
    assert DiscoverFrame(w.slave.defmtu) in Transmitted(out);
  }

  /** The slave forgets its master, and the master lists a new Assoc request for it. */
  lemma Rediscovered(w: World, k: nat) returns (es: seq<Event>, v: World)
    requires Sane(w) && Waits(w, k)
    ensures Leads(w, es, v) && Sane(v) && StillWaits(w, k, v, k + 1)
    ensures v.slave.status.WaitingUnknown? && v.master.addressed && w.up <= v.up && v.down == w.down
    ensures v.master.mlist[0].assoc && v.master.mlist[0].id.None?
  {
    hide CasanSlave.Valid, Answered, Listed, SlaveTurn, Loop;
    var e1 := Tick(w.slave.twait.next + w.slave.twait.limit + w.slave.trenew.next + w.slave.trenew.limit);
    var e3 := MasterReceives(DiscoverFrame(w.config.slaveMtu), true);
    LeadsNowhere(w);
    LeadsOn(w, [], w, e1);
    var w1 := Step(w, e1);
    StepSane(w, e1);
    LeadsOn(w, [] + [e1], w1, SlaveIdles);
    var w2 := Step(w1, SlaveIdles);
    StepSane(w1, SlaveIdles);
    Announces(w1);
    LeadsOn(w, [] + [e1] + [SlaveIdles], w2, e3);
    v := Step(w2, e3);
    StepSane(w2, e3);
    es := [] + [e1] + [SlaveIdles] + [e3];
    assert v.master.mlist[k + 1] == w.master.mlist[k];
  }

  lemma {:induction false} FramesBelow(frames: set<Frame>) returns (n: nat)
    ensures forall id: nat :: AckFrame(id) in frames || RequestFrame(id) in frames ==> id < n
  {
    if frames == {} {
      n := 0;
    } else {
      var f :| f in frames;
      n := FramesBelow(frames - {f});
      if (f.AckFrame? || f.RequestFrame?) && f.id >= n { n := f.id + 1; }
    }
  }

  lemma {:induction false} IdsBelow(mlist: seq<Request>) returns (n: nat)
    ensures forall k :: 0 <= k < |mlist| && mlist[k].id.Some? ==> mlist[k].id.value < n
  {
    if mlist == [] {
      n := 0;
    } else {
      n := IdsBelow(mlist[1..]);
      assert forall k :: 1 <= k < |mlist| ==> mlist[k] == mlist[1..][k - 1];
      if mlist[0].id.Some? && mlist[0].id.value >= n { n := mlist[0].id.value + 1; }
    }
  }

  lemma FreeId(w: World, other: nat) returns (id: nat)
    ensures id != other && !Stray(w, id)
  {
    var a := FramesBelow(w.up);
    var b := FramesBelow(w.down);
    var c := IdsBelow(w.master.mlist);
    id := a + b + c + other + 1;
  }

  /** A waiting slave accepts any Assoc request. */
  lemma WaitingAccepts(w: World, f: Frame)
    requires w.slave.status.WaitingUnknown? && f in w.down && f.AssocFrame?
    ensures var rx := Delivered(f, false);
            var v := SlaveTurn(w, rx);
            && Associated(v.slave) && v.accepted == w.accepted + [AcceptanceOf(w, rx)] && w.up <= v.up
  {
    var rx := Delivered(f, false);
    var out := Loop(w.slave, w.now, rx).1;
    assert out == [AssocAnswer(MASTER, f.id)];
  }

  lemma NotCovered(accepted: seq<Acceptance>, a: Acceptance, r: Request)
    requires r.id != Some(a.id)
    ensures Answered(accepted + [a], r) ==> Answered(accepted, r)
  {
    if Answered(accepted + [a], r) {
      var k :| r.since <= k < |accepted| + 1 && Covers((accepted + [a])[k], r);
      assert k < |accepted| && Covers(accepted[k], r);
    }
  }

  /** Once it runs again on another request, the slave answers the stray request. */
  lemma RequestAnswered(w: World, k: nat) returns (es: seq<Event>, v: World)
    requires Sane(w) && Waits(w, k) && k > 0 && RequestFrame(w.master.mlist[k].id.value) in w.down
    requires w.slave.status.WaitingUnknown? && w.master.addressed
    requires w.master.mlist[0].assoc && w.master.mlist[0].id.None?
    ensures Leads(w, es, v) && Sane(v) && StillWaits(w, k, v, k)
    ensures v.master.addressed && AckFrame(w.master.mlist[k].id.value) in v.up
  {
    hide CasanSlave.Valid, Answered, Listed, SlaveTurn, Loop, Stray;
    var r := w.master.mlist[k];
    var id := FreeId(w, r.id.value);
    var e1 := MasterSends(0, id);
    LeadsNowhere(w);
    LeadsOn(w, [], w, e1);
    var w1 := Step(w, e1);
    StepSane(w, e1);
    var f := Framed(w1.master.mlist[0]);
    var e2 := SlaveReceives(f, false);
    LeadsOn(w, [] + [e1], w1, e2);
    var w2 := Step(w1, e2);
    StepSane(w1, e2);
    WaitingAccepts(w1, f);
    TurnLeaves(w1, Delivered(f, false));
    NotCovered(w1.accepted, AcceptanceOf(w1, Delivered(f, false)), r);
    var e3 := SlaveReceives(RequestFrame(r.id.value), false);
    LeadsOn(w, [] + [e1] + [e2], w2, e3);
    v := Step(w2, e3);
    StepSane(w2, e3);
    Responds(w2, RequestFrame(r.id.value), false);
    TurnLeaves(w2, Delivered(RequestFrame(r.id.value), false));
    es := [] + [e1] + [e2] + [e3];
  }

  lemma TurnLeaves(w: World, rx: Received)
    ensures SlaveTurn(w, rx).master == w.master && SlaveTurn(w, rx).down == w.down
    ensures SlaveTurn(w, rx).config == w.config && SlaveTurn(w, rx).now == w.now
  {
  }

  /** Requests before it with the same id expire and leave the list. */
  lemma {:induction false} Uncovered(w: World, k: nat) returns (es: seq<Event>, v: World, i: nat)
    requires Sane(w) && Waits(w, k) && AckFrame(w.master.mlist[k].id.value) in w.up && w.master.addressed
    requires forall j :: 0 <= j < |w.master.mlist| && w.master.mlist[j].id.Some? ==> Expired(w.master.mlist[j], w.now)
    ensures Leads(w, es, v) && Sane(v) && i < |v.master.mlist| && StillWaits(w, k, v, i)
    ensures v.master.addressed && v.up == w.up && Correlated(v.master.mlist, v.master.mlist[i].id.value) == i
    decreases k
  {
    hide CasanSlave.Valid, Answered, Listed;
    var id := w.master.mlist[k].id.value;
    var j := Correlated(w.master.mlist, id);
    LeadsNowhere(w);
    if j == k {
      es, v, i := [], w, k;
    } else {
      assert j < k;
      var e := MasterDrops(j);
      LeadsOn(w, [], w, e);
      StepSane(w, e);
      var w1 := Step(w, e);
      assert forall l :: 0 <= l < |w1.master.mlist| ==>
               w1.master.mlist[l] == w.master.mlist[if l < j then l else l + 1];
      var more;
      more, v, i := Uncovered(w1, k - 1);
      LeadsThen(w, [] + [e], w1, more, v);
      es := [] + [e] + more;
    }
  }

  lemma LinkDeceives(w: World, k: nat)
    requires Sane(w) && Waits(w, k) && AckFrame(w.master.mlist[k].id.value) in w.up && w.master.addressed
    requires Correlated(w.master.mlist, w.master.mlist[k].id.value) == k
    ensures Deceived(Step(w, MasterReceives(AckFrame(w.master.mlist[k].id.value), true)))
  {
    hide CasanSlave.Valid, Founded, Answered;
    FoundedIsAnswered(Step(w, MasterReceives(AckFrame(w.master.mlist[k].id.value), true)), w.master.mlist[k]);
  }

  lemma FoundedIsAnswered(w: World, r: Request)
    requires w.master.linked == Some(r.(replied := true))
    ensures Founded(w) ==> Answered(w.accepted, r)
  {
    if Founded(w) { LinkedIsAnswered(w, r); }
  }

  lemma LinkedIsAnswered(w: World, r: Request)
    requires w.master.linked == Some(r.(replied := true)) && Founded(w)
    ensures Answered(w.accepted, r)
  {
    var j :| r.since <= j < |w.accepted| && Covers(w.accepted[j], w.master.linked.value);
    assert Covers(w.accepted[j], r);
  }

  /** From an exposed world some continuation without further events of this kind deceives the
      master. */
  lemma ExposedCanBeDeceived(w: World) returns (es: seq<Event>, v: World)
    requires Sane(w) && Exposed(w)
    ensures Leads(w, es, v) && Deceived(v)
  {
    hide CasanSlave.Valid, Answered, Listed, Stray, Step;
    var k :| 0 <= k < |w.master.mlist| && Waits(w, k) && Stray(w, w.master.mlist[k].id.value);
    var id := w.master.mlist[k].id.value;
    var es1, w1 := StrayUnderWay(w, k);
    var es2, w2 := Rediscovered(w1, k);
    LeadsThen(w, es1, w1, es2, w2);
    es := es1 + es2;
    if AckFrame(id) !in w2.up {
      var es3, w3 := RequestAnswered(w2, k + 1);
      LeadsThen(w, es, w2, es3, w3);
      es, w2 := es + es3, w3;
    }
    var es5, w5 := Linked(w2, k + 1);
    LeadsThen(w, es, w2, es5, w5);
    es, v := es + es5, w5;
  }

  lemma Linked(w: World, k: nat) returns (es: seq<Event>, v: World)
    requires Sane(w) && Waits(w, k) && AckFrame(w.master.mlist[k].id.value) in w.up && w.master.addressed
    ensures Leads(w, es, v) && Deceived(v)
  {
    hide CasanSlave.Valid, Answered, Deceived;
    var e := Tick(w.config.lifetime + w.config.lifetime + 1);
    LeadsNowhere(w);
    LeadsOn(w, [], w, e);
    StepSane(w, e);
    var w1 := Step(w, e);
    forall j | 0 <= j < |w1.master.mlist| && w1.master.mlist[j].id.Some? ensures Expired(w1.master.mlist[j], w1.now) {
      assert RequestOk(w.config, w.master.mlist[j], |w.accepted|, w.now);
    }
    hide Listed;
    var more, w2, i := Uncovered(w1, k);
    LeadsThen(w, [] + [e], w1, more, w2);
    var last := MasterReceives(AckFrame(w2.master.mlist[i].id.value), true);
    LinkDeceives(w2, i);
    LeadsOn(w, [] + [e] + more, w2, last);
    es, v := [] + [e] + more + [last], Step(w2, last);
  }

  /** After a run without such events, an event is one of them if and only if some continuation
      without further ones deceives the master. */
  lemma MisguidesIff(c: Config, es: seq<Event>, e: Event)
    requires Configured(c) && Careful(Begin(c), es)
    ensures Misguides(Association.Run(c, es), e)
       <==> exists more :: Careful(Step(Association.Run(c, es), e), more)
                           && Deceived(RunFrom(Step(Association.Run(c, es), e), more))
  {
    BeginSafe(c);
    CarefulIsSafe(Begin(c), es);
    var w := Association.Run(c, es);
    var v := Step(w, e);
    StepSane(w, e);
    StepExposes(w, e);
    hide Sane, Exposed, Misguides, Step, Justified, Deceived, RunFrom, Careful;
    if Misguides(w, e) {
      var more, u := ExposedCanBeDeceived(v);
      assert Careful(v, more) && Deceived(RunFrom(v, more));
    } else {
      StepJustified(w, e);
      forall more | Careful(v, more) ensures !Deceived(RunFrom(v, more)) {
        CarefulIsSafe(v, more);
        SafeIsNotDeceived(RunFrom(v, more));
      }
    }
  }

  lemma SafeIsNotDeceived(w: World)
    requires Safe(w)
    ensures !Deceived(w)
  {
  }

  // ---------------------------------------------------------------- two such runs

  function Plain(lifetime: nat): Config { Config(10, 0, 100, 100, lifetime) }

  /** The answer to an expired Assoc request arrives late, when a new request has got the same id. */
  function EarlyReuse(lifetime: nat): seq<Event>
  {
    [SlaveIdles, MasterReceives(DiscoverFrame(100), true), MasterSends(0, 1),
     SlaveReceives(AssocFrame(1, 10, 100), false), Tick(lifetime + 20000), MasterDrops(0),
     MasterReceives(DiscoverFrame(100), true), MasterSends(0, 1), MasterReceives(AckFrame(1), true)]
  }

  /** A second Assoc request reaches the running slave truncated. */
  function Truncation(): seq<Event>
  {
    [SlaveIdles, MasterReceives(DiscoverFrame(100), true), MasterSends(0, 1),
     SlaveReceives(AssocFrame(1, 10, 100), false), MasterReceives(DiscoverFrame(100), true), MasterSends(0, 2),
     SlaveReceives(AssocFrame(2, 10, 100), true), MasterReceives(AckFrame(2), true)]
  }

  lemma RunStep(c: Config, es: seq<Event>, k: nat)
    requires k < |es|
    ensures Association.Run(c, es[..k + 1]) == Step(Association.Run(c, es[..k]), es[k])
  {
    assert es[..k + 1][..k] == es[..k];
  }

  function Asked(id: nat, since: nat, expire: nat): Request
  {
    Request(Some(id), true, 10, 100, false, since, Some(expire))
  }

  function Waiting(): Slave { Loop(Started(100), 0, Nothing).0 }

  function Accepting(): Slave { Loop(Waiting(), 0, AssocRequest(MASTER, 1, 10000, 100)).0 }

  const FIRST := Acceptance(1, 100, 10000, 0)

  /** The world after the first n events of both runs. */
  function Start(l: nat, n: nat): World
  {
    var up := {DiscoverFrame(100)};
    if n == 0 then Begin(Plain(l))
    else if n == 1 then World(Plain(l), Waiting(), Master(false, false, 0, 0, [], None), {}, up, 0, 0, [])
    else if n == 2 then
      World(Plain(l), Waiting(), Master(false, true, 100, 0, [NewRequest(true, 10, 100)], None), {}, up, 0, 0, [])
    else
      var w := World(Plain(l), Waiting(), Master(false, true, 100, 0, [Asked(1, 0, l)], None), {AssocFrame(1, 10, 100)},
                     up, 0, 0, []);
      if n == 3 then w else w.(slave := Accepting(), up := up + {AckFrame(1)}, accepted := [FIRST])
  }

  lemma OneTransmitted(out: seq<Sent>)
    requires |out| == 1
    ensures Transmitted(out) == {match out[0]
                                 case Discover(dest, mtu) => DiscoverFrame(mtu)
                                 case AssocAnswer(peer, id) => AckFrame(id)
                                 case Response(dest, id) => AckFrame(id)}
  {
    var f := match out[0]
             case Discover(dest, mtu) => DiscoverFrame(mtu)
             case AssocAnswer(peer, id) => AckFrame(id)
             case Response(dest, id) => AckFrame(id);
    assert f in Transmitted(out);
    assert forall g :: g in Transmitted(out) ==> g == f;
  }

  lemma FirstTurns(l: nat)
    ensures Step(Start(l, 0), SlaveIdles) == Start(l, 1)
    ensures Step(Start(l, 1), MasterReceives(DiscoverFrame(100), true)) == Start(l, 2)
    ensures Step(Start(l, 2), MasterSends(0, 1)) == Start(l, 3)
  {
    var out := Loop(Started(100), 0, Nothing).1;
    assert out == [Discover(None, 100)];
    OneTransmitted(out);
  }

  lemma SlaveAccepts(l: nat)
    ensures Step(Start(l, 3), SlaveReceives(AssocFrame(1, 10, 100), false)) == Start(l, 4)
  {
    var rx := AssocRequest(MASTER, 1, 10000, 100);
    var out := Loop(Waiting(), 0, rx).1;
    assert out == [AssocAnswer(MASTER, 1)];
    OneTransmitted(out);
    assert AssocAnswer(MASTER, 1) in out;
  }

  lemma StartRun(l: nat, es: seq<Event>)
    requires |es| >= 4 && es[..4] == EarlyReuse(l)[..4]
    ensures Association.Run(Plain(l), es[..4]) == Start(l, 4)
  {
    hide Step, Start;
    assert es[..0] == [] && forall k :: 0 <= k < 4 ==> es[k] == es[..4][k] == EarlyReuse(l)[k];
    assert Association.Run(Plain(l), []) == Start(l, 0) by { Nothing0(l); }
    FirstTurns(l);
    SlaveAccepts(l);
    RunStep(Plain(l), es, 0);
    RunStep(Plain(l), es, 1);
    RunStep(Plain(l), es, 2);
    RunStep(Plain(l), es, 3);
  }

  lemma Nothing0(l: nat)
    ensures Begin(Plain(l)) == Start(l, 0)
  {
  }

  /** The world after n further events of the first run. */
  function Late(l: nat, n: nat): World
  {
    var w := Start(l, 4).(now := l + 20000);
    var m := Master(false, true, 100, 0, [], None);
    var r := Asked(1, 1, l + 20000 + l);
    if n == 1 then w
    else if n == 2 then w.(master := m)
    else if n == 3 then w.(master := m.(mlist := [NewRequest(true, 10, 100)]))
    else if n == 4 then w.(master := m.(mlist := [r]))
    else
      var t := r.(replied := true);
      w.(master := Master(true, true, 100, l + 30000, [t], Some(t)))
  }

  lemma LateSteps(l: nat)
    ensures Step(Start(l, 4), Tick(l + 20000)) == Late(l, 1) && Step(Late(l, 1), MasterDrops(0)) == Late(l, 2)
    ensures Step(Late(l, 2), MasterReceives(DiscoverFrame(100), true)) == Late(l, 3)
    ensures Step(Late(l, 3), MasterSends(0, 1)) == Late(l, 4)
    ensures Step(Late(l, 4), MasterReceives(AckFrame(1), true)) == Late(l, 5)
    ensures Misguides(Late(l, 3), MasterSends(0, 1))
  {
    hide Loop;
    assert AckFrame(1) in Late(l, 3).up;
  }

  /** The master then takes the slave to be running on a request that the slave has never accepted,
      and the slave's association was over before that. */
  lemma EarlyReuseMisleads(l: nat)
    ensures !Careful(Begin(Plain(l)), EarlyReuse(l))
    ensures var w := Association.Run(Plain(l), EarlyReuse(l));
            && Deceived(w) && w.master.linked.Some? && w.master.linked.value.since == |w.accepted|
            && forall k :: 0 <= k < |w.accepted| ==> w.accepted[k].expiry < w.now
  {
    hide Step, Start, Late, Misguides;
    var c, es := Plain(l), EarlyReuse(l);
    assert es[..9] == es;
    StartRun(l, es);
    LateSteps(l);
    RunStep(c, es, 4);
    RunStep(c, es, 5);
    RunStep(c, es, 6);
    RunStep(c, es, 7);
    RunStep(c, es, 8);
    assert !Careful(Begin(c), es) by { assert Misguides(RunFrom(Begin(c), es[..7]), es[7]); }
    LateEnd(l);
  }

  lemma LateEnd(l: nat)
    ensures var w := Late(l, 5);
            && Deceived(w) && w.master.linked.Some? && w.master.linked.value.since == 1 && w.accepted == [FIRST]
            && w.now == l + 20000
  {
  }

  /** The world after n further events of the second run. */
  function Second(l: nat, n: nat): World
  {
    var w := Start(l, 4);
    var m, r := Master(false, true, 100, 0, [], None), Asked(2, 1, l);
    if n == 1 then w.(master := m.(mlist := [NewRequest(true, 10, 100), Asked(1, 0, l)]))
    else
      var v := w.(down := w.down + {AssocFrame(2, 10, 100)}, master := m.(mlist := [r, Asked(1, 0, l)]));
      var u := v.(slave := Loop(Accepting(), 0, TooLarge(MASTER, 2)).0, up := v.up + {AckFrame(2)});
      if n == 2 then v
      else if n == 3 then u
      else
        var t := r.(replied := true);
        u.(master := Master(true, true, 100, 10000, [t, Asked(1, 0, l)], Some(t)))
  }

  lemma SecondSteps(l: nat)
    ensures Step(Start(l, 4), MasterReceives(DiscoverFrame(100), true)) == Second(l, 1)
    ensures Step(Second(l, 1), MasterSends(0, 2)) == Second(l, 2)
    ensures Step(Second(l, 3), MasterReceives(AckFrame(2), true)) == Second(l, 4) && Deceived(Second(l, 4))
  {
    hide Loop;
  }

  lemma TooLargeIsAnswered(l: nat)
    ensures Step(Second(l, 2), SlaveReceives(AssocFrame(2, 10, 100), true)) == Second(l, 3)
    ensures Misguides(Second(l, 2), SlaveReceives(AssocFrame(2, 10, 100), true))
  {
    var out := Loop(Accepting(), 0, TooLarge(MASTER, 2)).1;
    assert out == [Response(Some(MASTER), 2)];
    OneTransmitted(out);
    assert Waits(Second(l, 2), 0);
  }

  /** The slave's "too large" passes for an Assoc answer. */
  lemma TruncationMisleads(l: nat)
    ensures !Careful(Begin(Plain(l)), Truncation()) && Deceived(Association.Run(Plain(l), Truncation()))
  {
    hide Step, Start, Second, Misguides, Deceived;
    var c, es := Plain(l), Truncation();
    assert es[..8] == es;
    StartRun(l, es);
    SecondSteps(l);
    TooLargeIsAnswered(l);
    RunStep(c, es, 4);
    RunStep(c, es, 5);
    RunStep(c, es, 6);
    RunStep(c, es, 7);
    assert !Careful(Begin(c), es) by { assert Misguides(RunFrom(Begin(c), es[..6]), es[6]); }
  }
}
