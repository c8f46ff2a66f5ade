/**
 * What single events do at the master of Association (c-master/casan/casan.cc,
 * c-master/casan/slave.cc): when an association begins and ends, what is listed and what is sent.
 */
module MasterSteps {
  import opened Wrappers
  import opened CasanTime
  import opened CasanSlave
  import SlaveTurns
  import opened Association

  // ---------------------------------------------------------------- the end of an association

  /** The check ends an association exactly if its time is over, and is without effect otherwise. */
  lemma TtlEndsIff(w: World)
    ensures var v := Step(w, MasterChecksTtl);
            && (w.master.running && !v.master.running <==> w.master.running && w.now >= w.master.nextTimeout)
            && (if w.master.running && w.now >= w.master.nextTimeout then
                  && v == w.(master := v.master) && v.master.mlist == w.master.mlist
                  && !v.master.running && !v.master.addressed && v.master.curmtu == 0
                else v == w)
  {
  }

  /** After the check a running slave's time is not over, in any run. */
  lemma RunningIsInTime(c: Config, es: seq<Event>)
    ensures var w := Association.Run(c, es + [MasterChecksTtl]); w.master.running ==> w.now < w.master.nextTimeout
  {
    assert (es + [MasterChecksTtl])[..|es|] == es;
    TtlEndsIff(Association.Run(c, es));
    hide Association.Step;
  }

  // ---------------------------------------------------------------- its beginning

  /** An acknowledgement under way that belongs, as the first listed request with its id, to an Assoc
      request without a reply yet, from a slave with an address, with a resource list that parses. */
  predicate Starts(w: World, e: Event)
  {
    && e.MasterReceives? && e.frame in w.up && e.frame.AckFrame? && e.parses && w.master.addressed
    && exists k :: 0 <= k < |w.master.mlist|
         && w.master.mlist[k].id == Some(e.frame.id) && w.master.mlist[k].assoc && !w.master.mlist[k].replied
         && forall j :: 0 <= j < k ==> w.master.mlist[j].id != Some(e.frame.id)
  }

  /** An association starts exactly so, and then lasts for the whole time to live. */
  lemma StartsIff(w: World, e: Event)
    requires !w.master.running
    ensures var v := Step(w, e);
            && (v.master.running <==> Starts(w, e))
            && (v.master.running ==> v.master.nextTimeout == w.now + 1000 * w.config.initTtl)
  {
    hide Loop;
    if e.MasterReceives? && e.frame.AckFrame? {
      var k := Correlated(w.master.mlist, e.frame.id);
      if Starts(w, e) {
        var i :| 0 <= i < |w.master.mlist| && w.master.mlist[i].id == Some(e.frame.id) && w.master.mlist[i].assoc
          && !w.master.mlist[i].replied && forall j :: 0 <= j < i ==> w.master.mlist[j].id != Some(e.frame.id);
        assert i == k;
      }
    }
  }

  /** A running association goes on, or is renewed, whatever comes in, until the check ends it. */
  lemma OnlyTheCheckEnds(w: World, e: Event)
    requires w.master.running
    ensures var v := Step(w, e);
            && (!v.master.running ==> e.MasterChecksTtl?)
            && (v.master.running ==>
                  v.master.nextTimeout
                    == if Starts(w, e) then w.now + 1000 * w.config.initTtl else w.master.nextTimeout)
  {
    hide Loop;
    if e.MasterReceives? && e.frame.AckFrame? {
      var k := Correlated(w.master.mlist, e.frame.id);
      if Starts(w, e) {
        var i :| 0 <= i < |w.master.mlist| && w.master.mlist[i].id == Some(e.frame.id) && w.master.mlist[i].assoc
          && !w.master.mlist[i].replied && forall j :: 0 <= j < i ==> w.master.mlist[j].id != Some(e.frame.id);
        assert i == k;
      }
    }
  }

  // ---------------------------------------------------------------- requests and frames

  /** The MTU both ends come to is the least of those that are configured at all. */
  lemma MtuIsLeast(c: Config)
    requires c.networkMtu >= 1 && c.slaveMtu >= 1
    ensures 1 <= Association.Mtu(c) <= c.slaveMtu && Association.Mtu(c) <= c.networkMtu
    ensures c.defmtu > 0 ==> Association.Mtu(c) <= c.defmtu
    ensures Association.Mtu(c) == c.slaveMtu || Association.Mtu(c) == c.networkMtu || Association.Mtu(c) == c.defmtu
  {
  }

  /** A Discover message lists one more Assoc request, with the time to live of the configuration; a
      slave without an address gets one, and the MTU negotiated with it. */
  lemma DiscoverLists(w: World, mtu: int, parses: bool)
    requires DiscoverFrame(mtu) in w.up
    ensures var v := Step(w, MasterReceives(DiscoverFrame(mtu), parses));
            && v.master.addressed && v == w.(master := v.master)
            && |v.master.mlist| == |w.master.mlist| + 1 && v.master.mlist[1..] == w.master.mlist
            && v.master.mlist[0] == Request(None, true, w.config.initTtl, v.master.curmtu, false, 0, None)
            && (w.master.addressed ==> v.master.curmtu == w.master.curmtu)
            && v.master.running == w.master.running
  {
  }

  /** A first transmission carries the id just given, repeated ones the same frame again. */
  lemma SendsSame(w: World, k: nat, id: nat, other: nat)
    requires k < |w.master.mlist| && w.master.mlist[k].id.None?
    ensures var v := Step(w, MasterSends(k, id));
            && v.master.mlist[k].id == Some(id) && v.master.mlist[k].expire == Some(w.now + w.config.lifetime)
            && v.down == w.down + {var r := v.master.mlist[k];
                                   if r.assoc then AssocFrame(id, r.ttl, r.mtu) else RequestFrame(id)}
            && Step(v, MasterSends(k, other)) == v
  {
    var v := Step(w, MasterSends(k, id));
    assert v.down + {Framed(v.master.mlist[k])} == v.down;
  }

  /** Only requests whose lifetime is over leave the list. */
  lemma DropsIff(w: World, k: nat)
    requires k < |w.master.mlist|
    ensures var v := Step(w, MasterDrops(k));
            && (v != w <==> w.master.mlist[k].expire.Some? && w.now > w.master.mlist[k].expire.value)
            && (v != w ==> v.master.mlist == w.master.mlist[..k] + w.master.mlist[k + 1..])
  {
    assert |w.master.mlist[..k] + w.master.mlist[k + 1..]| == |w.master.mlist| - 1;
  }

  /** What is lost does not arrive. */
  lemma LostIsLost(w: World, f: Frame, flag: bool)
    ensures var v := Step(w, LosesUp(f)); v.up == w.up - {f} && Step(v, MasterReceives(f, flag)) == v
    ensures var v := Step(w, LosesDown(f)); v.down == w.down - {f} && Step(v, SlaveReceives(f, flag)) == v
  {
  }

  /** What arrives at the slave is what was sent to it, times to live in milliseconds, unless it was
      cut off; then only its id is. */
  lemma Arrives(w: World, f: Frame, truncated: bool)
    requires f in w.down
    ensures var v := Step(w, SlaveReceives(f, truncated));
            v.slave == Loop(w.slave, w.now, match f
                                            case HelloFrame(h) => Hello(MASTER, h)
                                            case AssocFrame(id, ttl, mtu) =>
                                              if truncated then TooLarge(MASTER, id)
                                              else AssocRequest(MASTER, id, 1000 * ttl, mtu)
                                            case RequestFrame(id) =>
                                              if truncated then TooLarge(MASTER, id) else ResourceRequest(MASTER, id)
                                            case _ => Nothing).0
  {
    hide Loop;
  }

  /** The Hello of a restarted master ends the association of its slave, who then waits for a new one. */
  lemma HelloRestarts(w: World, h: int, truncated: bool)
    requires Associated(w.slave) && w.slave.master == Some(MASTER) && !SlaveTurns.Lapses(w.slave, w.now)
    requires w.slave.hlid != -1 && h != -1
    ensures var v := Step(Step(w, MasterSaysHello(h)), SlaveReceives(HelloFrame(h), truncated));
            && v.slave.master == Some(MASTER) && v.slave.hlid == h && v.master == w.master
            && (if h == w.slave.hlid then Associated(v.slave)
                else v.slave.status.WaitingKnown? && v.slave.knownSince == w.now && v.slave.curmtu == w.slave.defmtu)
  {
    hide Loop;
    SlaveTurns.HelloWhileAssociated(w.slave, w.now, MASTER, h);
  }
}
