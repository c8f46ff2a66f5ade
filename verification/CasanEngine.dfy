/**
 * The slave of CasanSlave as the one object the source makes of it, with its timers
 * (arduino/libraries/Casan/casan.cpp).
 */
module CasanEngine {
  import opened Wrappers
  import opened CasanTime
  import opened CasanSlave

  class Casan {
    const twait: Twait
    const trenew: Trenew
    var status: Status
    var master: Option<Addr>
    var hlid: int
    var defmtu: int
    var curmtu: int
    var l2mtu: int              // the MTU of the network object
    var curtime: nat
    ghost var acceptedAt: nat
    ghost var sttl: nat
    ghost var knownSince: nat

    ghost function View(): Slave
      reads this, twait, trenew
    {
      Slave(status, master, hlid, defmtu, curmtu, l2mtu, twait.View(), trenew.View(), acceptedAt, sttl, knownSince)
    }

    ghost predicate Ok()
      reads this, twait, trenew
    {
      Valid(View(), curtime)
    }

    constructor (mtu: int, networkMtu: int, ms: nat)
      requires networkMtu >= 1 && ms < ROLLOVER
      ensures Ok() && fresh(twait) && fresh(trenew) && curtime == ms
      ensures status == ColdStart && defmtu == (if 0 < mtu < networkMtu then mtu else networkMtu)
    {
      twait := new Twait();
      trenew := new Trenew();
      l2mtu, curmtu := networkMtu, 0;
      acceptedAt, sttl, knownSince := 0, 0, 0;
      defmtu := if 0 < mtu < networkMtu then mtu else networkMtu;
      master, hlid, status, curtime := None, UNKNOWN_HELLO, ColdStart, 0;
      new;
      curtime := SyncTime(curtime, ms);
      ResetMaster();
    }

    method NegociateMtu(mtu: int)
      modifies `curmtu, `l2mtu
      ensures View() == CasanSlave.NegociateMtu(old(View()), mtu)
    {
      if mtu > 0 && mtu <= defmtu {
        curmtu := mtu;
      } else {
        curmtu := defmtu;
      }
      l2mtu := curmtu;
    }

    method ResetMaster()
      modifies `master, `hlid, `curmtu, `l2mtu
      ensures View() == CasanSlave.ResetMaster(old(View()))
    {
      master := None;
      hlid := UNKNOWN_HELLO;
      NegociateMtu(0);
    }

    method ChangeMaster(newmaster: Addr, hlid: int, mtu: int)
      modifies `master, `hlid, `curmtu, `l2mtu
      ensures View() == CasanSlave.ChangeMaster(old(View()), newmaster, hlid, mtu)
    {
      if master.Some? {
        if newmaster == master.value {
          if hlid != -1 {
            this.hlid := hlid;
          }
        } else {
          master := Some(newmaster);
          this.hlid := hlid;
        }
      } else {
        master := Some(newmaster);
        this.hlid := hlid;
      }
      if mtu != -1 {
        NegociateMtu(mtu);
      }
    }

    method BecomeKnown()
      modifies this, twait
      ensures View() == Known(old(View()), curtime) && curtime == old(curtime)
    {
      twait.Init(curtime);
      status := WaitingKnown;
      knownSince := curtime;
    }

    method AcceptAssoc(rx: Received) returns (out: seq<Sent>)
      requires rx.AssocRequest?
      modifies this, trenew
      ensures (View(), out) == Accepted(old(View()), curtime, rx) && curtime == old(curtime)
    {
      out := [AssocAnswer(rx.src, rx.id)];
      trenew.Init(curtime, rx.sttl);
      status := Running;
      acceptedAt, sttl := curtime, rx.sttl;
    }

    method Forget() returns (out: seq<Sent>)
      modifies this, twait
      ensures (View(), out) == Forgotten(old(View()), curtime) && curtime == old(curtime)
    {
      ResetMaster();
      out := [Discover(master, defmtu)];
      twait.Init(curtime);
      status := WaitingUnknown;
    }

    /** The two waiting states. */
    method LoopWaiting(rx: Received) returns (out: seq<Sent>)
      requires status.WaitingUnknown? || status.WaitingKnown?
      modifies this, twait, trenew
      ensures (View(), out) == CasanSlave.Loop(old(View()), curtime, rx) && curtime == old(curtime)
    {
      hide CasanSlave.NegociateMtu, CasanSlave.ChangeMaster, CasanSlave.ResetMaster;
      out := [];
      match rx {
        case Hello(src, hlid) =>
          ChangeMaster(src, hlid, -1);
          if status == WaitingUnknown {
            BecomeKnown();
            return;
          }
        case AssocRequest(src, id, sttl, mtu) =>
          ChangeMaster(src, -1, mtu);
          out := AcceptAssoc(rx);
          assert out + [] == out;
          return;
        case _ =>
      }
      var more := [];
      var expired := twait.Expired(curtime);
      if status == WaitingKnown && expired {
        more := Forget();
      } else {
        var due := twait.Next(curtime);
        if due {
          more := [Discover(master, defmtu)];
        }
      }
      out := out + more;
    }

    method ReceiveRunning(rx: Received) returns (out: seq<Sent>)
      requires Associated(View())
      modifies this, twait, trenew
      ensures (View(), out) == CasanSlave.ReceiveRunning(old(View()), curtime, rx) && curtime == old(curtime)
    {
      hide CasanSlave.NegociateMtu, CasanSlave.ChangeMaster;
      out := [];
      match rx {
        case Hello(src, newhlid) =>
          if !(master == Some(src)) || newhlid != hlid {
            var oldhlid := hlid;
            ChangeMaster(src, newhlid, 0);
            if oldhlid != UNKNOWN_HELLO {
              BecomeKnown();
            }
          }
        case AssocRequest(src, id, sttl, mtu) =>
          if master == Some(src) {
            NegociateMtu(mtu);
            out := AcceptAssoc(rx);
          }
        case ResourceRequest(src, id) =>
          out := [Response(master, id)];
        case TooLarge(src, id) =>
          out := [Response(master, id)];
        case _ =>
      }
    }

    method CheckRenewal() returns (out: seq<Sent>)
      modifies this, twait, trenew
      ensures (View(), out) == CasanSlave.CheckRenewal(old(View()), curtime) && curtime == old(curtime)
    {
      hide CasanSlave.ResetMaster;
      var out1, out2, out3 := [], [], [];
      if status == Running {
        var due := trenew.Next(curtime);
        if due {
          out1 := [Discover(master, defmtu)];
          status := Renewing;
        }
      }
      if status == Renewing {
        var due := trenew.Next(curtime);
        if due {
          out2 := [Discover(master, defmtu)];
        }
      }
      if status == Renewing {
        var expired := trenew.Expired(curtime);
        if expired {
          out3 := Forget();
        }
      }
      out := out1 + out2 + out3;
    }

    /** One call of loop(), with what the millisecond counter shows and what was received. */
    method Loop(ms: nat, rx: Received) returns (out: seq<Sent>)
      requires Ok() && ms < ROLLOVER
      modifies this, twait, trenew
      ensures curtime == Synced(old(curtime), ms) && Ok()
      ensures (View(), out) == CasanSlave.Loop(old(View()), curtime, rx)
    {
      hide CasanSlave.ReceiveRunning, CasanSlave.CheckRenewal, CasanSlave.CheckWaiting,
           CasanSlave.ReceiveWaiting, Valid;
      ghost var was := curtime;
      curtime := SyncTime(curtime, ms);
      NeverBackwards(was, ms);
      LoopValid(View(), was, curtime, rx);
      if status == ColdStart {
        out := [Discover(master, defmtu)];
        twait.Init(curtime);
        status := WaitingUnknown;
      } else if status == WaitingUnknown || status == WaitingKnown {
        out := LoopWaiting(rx);
      } else {
        out := ReceiveRunning(rx);
        var more := CheckRenewal();
        out := out + more;
      }
    }

    static lemma NeverBackwards(cur: nat, ms: nat)
      requires ms < ROLLOVER
      ensures cur <= Synced(cur, ms)
    {
    }
  }
}
