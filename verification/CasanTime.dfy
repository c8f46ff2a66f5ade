/**
 * The slave's clock and timers (arduino/libraries/Casan/time.cpp): a 64-bit clock kept up to date
 * from a 32-bit millisecond counter, and the two timers that pace Discover messages.
 */
module CasanTime {

  const ROLLOVER := 0x1_0000_0000
  const TIMER_WAIT_START := 1000
  const TIMER_WAIT_INC := 1000
  const TIMER_WAIT_INC_MAX := 10000
  const TIMER_WAIT_MAX := 30000
  const TIMER_RENEW_MIN := 500

  // ---------------------------------------------------------------- the clock

  /** sync_time: if the counter is behind the clock's low word it has rolled over. */
  method SyncTime(cur: nat, ms: nat) returns (now: nat)
    requires ms < ROLLOVER
    ensures now == Synced(cur, ms)
  {
    var n := cur / ROLLOVER;
    if ms < cur % ROLLOVER {
      n := n + 1;
    }
    now := n * ROLLOVER + ms;
  }

  function Synced(cur: nat, ms: nat): nat
  {
    (cur / ROLLOVER + (if ms < cur % ROLLOVER then 1 else 0)) * ROLLOVER + ms
  }

  /** A clock that showed the elapsed time shows it again after the call if and only if less than
      one turn of the counter has passed. */
  lemma SyncIsExact(elapsed: nat, later: nat)
    requires elapsed <= later
    ensures Synced(elapsed, later % ROLLOVER) == later <==> later - elapsed < ROLLOVER
    ensures elapsed <= Synced(elapsed, later % ROLLOVER) <= later
  {
    var e, l := elapsed / ROLLOVER, later / ROLLOVER;
    assert elapsed == e * ROLLOVER + elapsed % ROLLOVER && later == l * ROLLOVER + later % ROLLOVER;
  }

  /** The clock after calls at these times. */
  function Clock(cur: nat, calls: seq<nat>): nat
  {
    if calls == [] then cur else Synced(Clock(cur, calls[..|calls| - 1]), calls[|calls| - 1] % ROLLOVER)
  }

  function LastCall(start: nat, calls: seq<nat>): nat
  {
    if calls == [] then start else calls[|calls| - 1]
  }

  /** Each call comes after the one before it, by less than one turn of the counter. */
  predicate OftenEnough(start: nat, calls: seq<nat>)
  {
    calls == [] || (var before := calls[..|calls| - 1];
                    && OftenEnough(start, before)
                    && 0 <= calls[|calls| - 1] - LastCall(start, before) < ROLLOVER)
  }

  /** Over any run the clock is right as long as it is synchronised once per turn of the counter. */
  lemma {:induction false} ClockIsRight(start: nat, calls: seq<nat>)
    requires OftenEnough(start, calls)
    ensures Clock(start, calls) == LastCall(start, calls)
  {
    if calls != [] {
      var before := calls[..|calls| - 1];
      ClockIsRight(start, before);
      SyncIsExact(LastCall(start, before), calls[|calls| - 1]);
    }
  }

  // ---------------------------------------------------------------- Twait

  datatype Wait = Wait(next: nat, inc: nat, limit: nat)

  function WaitInit(now: nat): Wait { Wait(now + TIMER_WAIT_START, TIMER_WAIT_START, now + TIMER_WAIT_MAX) }

  predicate WaitDue(w: Wait, now: nat) { now >= w.next }

  function WaitNext(w: Wait, now: nat): Wait
  {
    if !WaitDue(w, now) then w
    else
      var inc := if w.inc + TIMER_WAIT_INC > TIMER_WAIT_INC_MAX then TIMER_WAIT_INC_MAX else w.inc + TIMER_WAIT_INC;
      Wait(w.next + inc, inc, w.limit)
  }

  predicate WaitExpired(w: Wait, now: nat) { now >= w.limit }

  class Twait {
    var next_: nat
    var inc_: nat
    var limit_: nat

    ghost function View(): Wait
      reads this
    {
      Wait(next_, inc_, limit_)
    }

    constructor ()
    {
      next_, inc_, limit_ := 0, 0, 0;
    }

    method Init(cur: nat)
      modifies this
      ensures View() == WaitInit(cur)
    {
      limit_ := cur + TIMER_WAIT_MAX;
      inc_ := TIMER_WAIT_START;
      next_ := cur + inc_;
    }

    method Next(cur: nat) returns (itstime: bool)
      modifies this
      ensures itstime == WaitDue(old(View()), cur) && View() == WaitNext(old(View()), cur)
    {
      itstime := false;
      if cur >= next_ {
        itstime := true;
        inc_ := inc_ + TIMER_WAIT_INC;
        if inc_ > TIMER_WAIT_INC_MAX {
          inc_ := TIMER_WAIT_INC_MAX;
        }
        next_ := next_ + inc_;
      }
    }

    method Expired(cur: nat) returns (r: bool)
      ensures r == WaitExpired(View(), cur)
    {
      r := cur >= limit_;
    }
  }

  /** The timer after calls of `next` at these times, and how often it fired. */
  function WaitRun(w: Wait, calls: seq<nat>): (Wait, nat)
  {
    if calls == [] then (w, 0)
    else
      var (v, n) := WaitRun(w, calls[..|calls| - 1]);
      (WaitNext(v, calls[|calls| - 1]), if WaitDue(v, calls[|calls| - 1]) then n + 1 else n)
  }

  function Min(a: nat, b: nat): nat { if a < b then a else b }

  /** 1 + 2 + ... + k, no term above 10. */
  function Spacing(k: nat): nat
  {
    if k == 0 then 0 else Spacing(k - 1) + Min(k, 10)
  }

  lemma {:induction false} WaitProgress(t0: nat, calls: seq<nat>)
    ensures var (w, n) := WaitRun(WaitInit(t0), calls);
            w == Wait(t0 + 1000 * Spacing(n + 1), 1000 * Min(n + 1, 10), t0 + TIMER_WAIT_MAX)
  {
    if calls == [] {
      assert Spacing(1) == Spacing(0) + 1;
    } else {
      WaitProgress(t0, calls[..|calls| - 1]);
    }
  }

  /** The k-th firing comes no earlier than 1 + 2 + ... + k seconds after the start, each term at
      most 10, and comes in the first call from then on. */
  lemma WaitFires(t0: nat, calls: seq<nat>, call: nat)
    ensures var (w, n) := WaitRun(WaitInit(t0), calls);
            WaitDue(w, call) <==> call >= t0 + 1000 * Spacing(n + 1)
  {
    WaitProgress(t0, calls);
  }

  // ---------------------------------------------------------------- Trenew

  datatype Renew = Renew(next: nat, inc: nat, limit: nat)

  function RenewInit(now: nat, sttl: nat): Renew { Renew(now + sttl / 2, sttl / 2, now + sttl) }

  predicate RenewDue(r: Renew, now: nat) { now >= r.next }

  function RenewNext(r: Renew, now: nat): Renew
  {
    if !RenewDue(r, now) then r
    else
      var inc := if r.inc / 2 <= TIMER_RENEW_MIN then TIMER_RENEW_MIN else r.inc / 2;
      Renew(r.next + inc, inc, r.limit)
  }

  predicate RenewExpired(r: Renew, now: nat) { now >= r.limit }

  class Trenew {
    var next_: nat
    var inc_: nat
    var limit_: nat

    ghost function View(): Renew
      reads this
    {
      Renew(next_, inc_, limit_)
    }

    constructor ()
    {
      next_, inc_, limit_ := 0, 0, 0;
    }

    method Init(cur: nat, sttl: nat)
      modifies this
      ensures View() == RenewInit(cur, sttl)
    {
      inc_ := sttl / 2;
      next_ := cur + inc_;
      limit_ := cur + sttl;
    }

    method Next(cur: nat) returns (itstime: bool)
      modifies this
      ensures itstime == RenewDue(old(View()), cur) && View() == RenewNext(old(View()), cur)
    {
      itstime := false;
      if cur >= next_ {
        itstime := true;
        inc_ := inc_ / 2;
        if inc_ <= TIMER_RENEW_MIN {
          inc_ := TIMER_RENEW_MIN;
        }
        next_ := next_ + inc_;
      }
    }

    method Expired(cur: nat) returns (r: bool)
      ensures r == RenewExpired(View(), cur)
    {
      r := cur >= limit_;
    }
  }

  /** The timer after calls of `next` at these times. */
  function RenewRun(r: Renew, calls: seq<nat>): Renew
  {
    if calls == [] then r else RenewNext(RenewRun(r, calls[..|calls| - 1]), calls[|calls| - 1])
  }

  /** Until the interval has shrunk to its floor, one more interval fits before the association
      ends, so that the next Discover message still comes in time. */
  lemma {:induction false} RenewFits(t0: nat, sttl: nat, calls: seq<nat>)
    ensures var r := RenewRun(RenewInit(t0, sttl), calls);
            r.limit == t0 + sttl && (r.next + r.inc <= r.limit || r.inc == TIMER_RENEW_MIN)
  {
    if calls != [] { RenewFits(t0, sttl, calls[..|calls| - 1]); }
  }

  function Fired(r: Renew, calls: seq<nat>): nat
  {
    if calls == [] then 0
    else
      var before := calls[..|calls| - 1];
      Fired(r, before) + (if RenewDue(RenewRun(r, before), calls[|calls| - 1]) then 1 else 0)
  }

  /** Half of the time to live, then half of the interval before, but no less than half a second. */
  function Interval(sttl: nat, k: nat): nat
    requires k > 0
  {
    if k == 1 then sttl / 2
    else
      var half := Interval(sttl, k - 1) / 2;
      if half > 500 then half else 500
  }

  function Intervals(sttl: nat, k: nat): nat
  {
    if k == 0 then 0 else Intervals(sttl, k - 1) + Interval(sttl, k)
  }

  lemma {:induction false} RenewProgress(t0: nat, sttl: nat, calls: seq<nat>)
    ensures var n := Fired(RenewInit(t0, sttl), calls) + 1;
            RenewRun(RenewInit(t0, sttl), calls) == Renew(t0 + Intervals(sttl, n), Interval(sttl, n), t0 + sttl)
  {
    if calls == [] {
      assert Intervals(sttl, 1) == Intervals(sttl, 0) + sttl / 2;
    } else {
      RenewProgress(t0, sttl, calls[..|calls| - 1]);
    }
  }

  /** The k-th firing comes in the first call after k such intervals. */
  lemma RenewFires(t0: nat, sttl: nat, calls: seq<nat>, call: nat)
    ensures var r := RenewInit(t0, sttl);
            && (RenewDue(RenewRun(r, calls), call) <==> call >= t0 + Intervals(sttl, Fired(r, calls) + 1))
            && (RenewExpired(RenewRun(r, calls), call) <==> call >= t0 + sttl)
  {
    RenewProgress(t0, sttl, calls);
  }
}
