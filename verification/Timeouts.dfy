/**
 * Blocking with a timeout: the entry time is kept as a 32-bit tick count and an overflow count,
 * and every check turns the remaining wait into a shorter one from a later entry time.
 */
module Timeouts {
  import opened Words
  import opened KernelList

  /** What xTaskGetTickCount and xNumOfOverflows show at unbounded time n. */
  function TickAt(n: nat): U32 { n % W32 }

  function OverflowsAt(n: nat): U32 { n / W32 % W32 }

  /** The overflow count shows that the tick count has gone all the way round and past the entry time. */
  predicate HasLapped(s: nat, now: nat) {
    OverflowsAt(now) != OverflowsAt(s) && TickAt(now) >= TickAt(s)
  }

  /** The verdict, in terms of unbounded times. */
  predicate Verdict(s: nat, now: nat, ticks: U32)
    requires s <= now
  {
    ticks != MAX_DELAY && (HasLapped(s, now) || (now - s) % W32 >= ticks)
  }

  lemma ElapsedWrapped(s: nat, now: nat)
    requires s <= now
    ensures (TickAt(now) - TickAt(s)) % W32 == (now - s) % W32
  {
    var a, b := now / W32, s / W32;
    assert TickAt(now) - TickAt(s) == (now - s) - (a - b) * W32;
    assert (now - s) % W32 == ((now - s) - (a - b) * W32) % W32;
  }

  /** The one way the counters mislead: at least a lap has passed, but neither test can see it. */
  predicate LapUnseen(s: nat, now: nat, ticks: U32)
    requires s <= now
  {
    now - s >= W32 && !HasLapped(s, now) && (now - s) % W32 < ticks
  }

  /** The verdict is right, for a finite wait, exactly unless a lap goes unseen. */
  lemma VerdictIsRightUnless(s: nat, now: nat, ticks: U32)
    requires s <= now && ticks != MAX_DELAY
    ensures (Verdict(s, now, ticks) <==> now - s >= ticks) <==> !LapUnseen(s, now, ticks)
  {
    if now - s < W32 {
      NoEarlyLap(s, now);
    }
  }

  /** Within one lap the overflow test never fires. */
  lemma NoEarlyLap(s: nat, now: nat)
    requires s <= now < s + W32
    ensures !HasLapped(s, now) && (now - s) % W32 == now - s
  {
    assert now / W32 == s / W32 || now / W32 == s / W32 + 1;
  }

  /** Fewer than two tick wraps between the entry and the check are enough. */
  lemma TwoWrapsSuffice(s: nat, now: nat, ticks: U32)
    requires s <= now && ticks != MAX_DELAY && now / W32 - s / W32 < 2
    ensures Verdict(s, now, ticks) <==> now - s >= ticks
  {
    VerdictIsRightUnless(s, now, ticks);
    if now - s >= W32 {
      assert now / W32 == s / W32 + 1;
      assert OverflowsAt(now) != OverflowsAt(s);
    }
  }

  /** With two wraps it can: a wait of 2^32 - 2 ticks entered at tick 10 and checked 2^33 - 6 ticks later. */
  lemma LapUnseenAfterTwoWraps()
    ensures LapUnseen(10, 2 * W32 + 4, MAX_DELAY - 1) && !Verdict(10, 2 * W32 + 4, MAX_DELAY - 1)
  {
  }

  // ----- the deadline over a whole blocking call -----

  /** A blocking call: the recorded entry time with the ticks still to wait, or timed out. */
  datatype Wait = Waiting(entry: nat, ticks: U32) | TimedOut

  /** One check at unbounded time now. */
  function CheckAt(w: Wait, now: nat): Wait
    requires w.Waiting? ==> w.entry <= now
  {
    if w.TimedOut? || Verdict(w.entry, now, w.ticks) then TimedOut
    else if w.ticks == MAX_DELAY then w
    else Waiting(now, w.ticks - (now - w.entry) % W32)
  }

  /** TimeOut_t. */
  class TimeOut {
    var overflowCount: U32
    var timeOnEntering: U32

    /** The record was written at unbounded time s. */
    ghost predicate EnteredAt(s: nat)
      reads this
    {
      timeOnEntering == TickAt(s) && overflowCount == OverflowsAt(s)
    }

    /** vTaskInternalSetTimeOutState at time now. */
    constructor (ghost now: nat, tickCount: U32, numOfOverflows: U32)
      requires tickCount == TickAt(now) && numOfOverflows == OverflowsAt(now)
      ensures EnteredAt(now)
    {
      timeOnEntering, overflowCount := tickCount, numOfOverflows;
    }

    /** xTaskCheckForTimeOut, with the kernel's tick and overflow counts as they are at time now. */
    method Check(ghost s: nat, ghost now: nat, tickCount: U32, numOfOverflows: U32, ticksToWait: U32)
      returns (timedOut: bool, remaining: U32)
      requires EnteredAt(s) && s <= now && tickCount == TickAt(now) && numOfOverflows == OverflowsAt(now)
      modifies this
      ensures timedOut <==> CheckAt(Waiting(s, ticksToWait), now) == TimedOut
      ensures !timedOut ==> var w := CheckAt(Waiting(s, ticksToWait), now); EnteredAt(w.entry) && remaining == w.ticks
      ensures timedOut ==> EnteredAt(s) && remaining == if HasLapped(s, now) then ticksToWait else 0
      ensures ticksToWait == MAX_DELAY ==> EnteredAt(s)
    {
      var elapsed := (tickCount - timeOnEntering) % W32;
      ElapsedWrapped(s, now);
      remaining := ticksToWait;
      if ticksToWait == MAX_DELAY {
        timedOut := false;
      } else if numOfOverflows != overflowCount && tickCount >= timeOnEntering {
        timedOut := true;
      } else if elapsed < ticksToWait {
        remaining := ticksToWait - elapsed;
        timeOnEntering, overflowCount := tickCount, numOfOverflows;
        timedOut := false;
      } else {
        remaining := 0;
        timedOut := true;
      }
    }
  }

  /** Check times increase, with fewer than two wraps from one to the next. */
  predicate TimesFollow(s: nat, times: seq<nat>)
    decreases |times|
  {
    times == [] || (s <= times[0] && times[0] / W32 - s / W32 < 2 && TimesFollow(times[0], times[1..]))
  }

  predicate Later(s: nat, times: seq<nat>) {
    (forall i :: 0 <= i < |times| ==> s <= times[i]) && forall i, j :: 0 <= i < j < |times| ==> times[i] <= times[j]
  }

  function CheckAll(w: Wait, times: seq<nat>): Wait
    requires w.Waiting? ==> Later(w.entry, times)
    decreases |times|
  {
    if times == [] then w else CheckAll(CheckAt(w, times[0]), times[1..])
  }

  /**
   * Over any sequence of checks the absolute deadline never moves, and a timeout has been
   * reported exactly when the latest check is at or after the original deadline.
   */
  lemma {:induction false} DeadlineNeverMoves(s: nat, ticks: U32, times: seq<nat>)
    requires Later(s, times) && TimesFollow(s, times) && ticks != MAX_DELAY && times != []
    ensures var last := times[|times| - 1];
      CheckAll(Waiting(s, ticks), times) == if last >= s + ticks then TimedOut else Waiting(last, s + ticks - last)
    decreases |times|
  {
    TwoWrapsSuffice(s, times[0], ticks);
    if times[0] >= s + ticks {
      StaysTimedOut(times[1..]);
    } else {
      assert (times[0] - s) % W32 == times[0] - s;
      if |times| > 1 {
        DeadlineNeverMoves(times[0], ticks - (times[0] - s), times[1..]);
      }
    }
  }

  lemma {:induction false} StaysTimedOut(times: seq<nat>)
    ensures CheckAll(TimedOut, times) == TimedOut
    decreases |times|
  {
    if times != [] {
      StaysTimedOut(times[1..]);
    }
  }

  /** A wait of portMAX_DELAY never times out. */
  lemma {:induction false} ForeverNeverEnds(s: nat, times: seq<nat>)
    requires Later(s, times)
    ensures CheckAll(Waiting(s, MAX_DELAY), times) == Waiting(s, MAX_DELAY)
    decreases |times|
  {
    if times != [] {
      ForeverNeverEnds(s, times[1..]);
    }
  }
}
