/**
 * The kernel tick: two delayed-task lists that swap roles whenever the 32-bit tick count
 * wraps, the cached next unblock time, and ticks that pend while the scheduler is suspended.
 * The reference is a timeline with an unbounded clock and one absolute deadline per task.
 */
module Delays {
  import opened Basics
  import opened Words
  import opened KernelList
  import opened ValueLists

  // ----- the reference: unbounded time -----

  /** now counts processed ticks; expired records which task became ready by timeout, and when. */
  datatype Timeline = Timeline(now: nat, deadline: map<nat, nat>, expired: set<(nat, nat)>) {
    ghost function Due(t: nat): bool { t in deadline && deadline[t] == now + 1 }

    ghost function Tick(): Timeline {
      Timeline(now + 1,
               map t | t in deadline && !Due(t) :: deadline[t],
               expired + set t | t in deadline && Due(t) :: (t, now + 1))
    }

    ghost function Block(t: nat, ticks: nat): Timeline { this.(deadline := deadline[t := now + ticks]) }

    ghost function Wake(t: nat): Timeline { this.(deadline := deadline - {t}) }

    /** n ticks. */
    ghost function Ticks(n: nat): Timeline
      decreases n
    {
      if n == 0 then this else Ticks(n - 1).Tick()
    }
  }

  /** What can happen to the timeline between two moments. */
  datatype Event = TickEvent | BlockEvent(task: nat, ticks: nat) | WakeEvent(task: nat)

  ghost function Step(l: Timeline, e: Event): Timeline {
    match e
    case TickEvent => l.Tick()
    case BlockEvent(t, d) => l.Block(t, d)
    case WakeEvent(t) => l.Wake(t)
  }

  ghost function Run(l: Timeline, es: seq<Event>): Timeline
    decreases |es|
  {
    if es == [] then l else Run(Step(l, es[0]), es[1..])
  }

  /** t neither blocks again nor is woken by an event. */
  ghost predicate LeavesAlone(es: seq<Event>, t: nat) {
    forall i :: 0 <= i < |es| ==> es[i] != WakeEvent(t) && !(es[i].BlockEvent? && es[i].task == t)
  }

  /** The times at which t has expired. */
  ghost function ExpiredAt(l: Timeline, t: nat): set<nat> { set x | x in l.expired && x.0 == t :: x.1 }

  /**
   * Whatever else happens, a blocked task stays blocked before its deadline and becomes ready
   * at exactly the tick that reaches it, once.
   */
  lemma {:induction false} WakesExactly(l: Timeline, es: seq<Event>, t: nat)
    requires t in l.deadline && l.deadline[t] > l.now && LeavesAlone(es, t)
    ensures var m, d := Run(l, es), l.deadline[t];
      if m.now < d then t in m.deadline && m.deadline[t] == d && ExpiredAt(m, t) == ExpiredAt(l, t)
      else t !in m.deadline && ExpiredAt(m, t) == ExpiredAt(l, t) + {d}
    decreases |es|
  {
    if es != [] {
      var k := Step(l, es[0]);
      assert LeavesAlone(es[1..], t);
      if t in k.deadline {
        assert ExpiredAt(k, t) == ExpiredAt(l, t);
        WakesExactly(k, es[1..], t);
      } else {
        assert (t, k.now) in k.expired;
        assert ExpiredAt(k, t) == ExpiredAt(l, t) + {l.deadline[t]};
        StaysReady(k, es[1..], t);
      }
    }
  }

  lemma {:induction false} StaysReady(l: Timeline, es: seq<Event>, t: nat)
    requires t !in l.deadline && LeavesAlone(es, t)
    ensures var m := Run(l, es); t !in m.deadline && ExpiredAt(m, t) == ExpiredAt(l, t) && m.now >= l.now
    decreases |es|
  {
    if es != [] {
      assert LeavesAlone(es[1..], t);
      assert ExpiredAt(Step(l, es[0]), t) == ExpiredAt(l, t);
      StaysReady(Step(l, es[0]), es[1..], t);
    }
  }

  // ----- the representation -----

  /** The start of the current round of the 32-bit tick count. */
  function Base(now: nat): nat { now - now % W32 }

  /** The entries of a list stand for deadlines base + value, none below base + least. */
  ghost predicate Holds(s: seq<Entry>, base: nat, least: nat, deadline: map<nat, nat>) {
    && SortedByValue(s) && DistinctOwners(s)
    && forall e :: e in s ==> e.value >= least && e.owner in deadline && deadline[e.owner] == base + e.value
  }

  /** Current list: this round, beyond the tick count. Overflow list: next round, before it wraps back. */
  ghost predicate Represents(now: nat, deadline: map<nat, nat>, delayed: seq<Entry>, overflow: seq<Entry>) {
    && Holds(delayed, Base(now), now % W32 + 1, deadline)
    && Holds(overflow, Base(now) + W32, 0, deadline)
    && (forall e :: e in overflow ==> e.value < now % W32)
    && Owners(delayed) !! Owners(overflow)
    && deadline.Keys == Owners(delayed) + Owners(overflow)
  }

  /** The next unblock time is never later than the first entry. */
  ghost predicate Bounds(next: U32, delayed: seq<Entry>) {
    forall e :: e in delayed ==> next <= e.value
  }

  // ----- the operations on the representation -----

  lemma HoldsInsert(s: seq<Entry>, base: nat, least: nat, deadline: map<nat, nat>, e: Entry)
    requires Holds(s, base, least, deadline) && e.owner !in Owners(s) && e.value >= least
    ensures Holds(InsertByValue(s, e), base, least, deadline[e.owner := base + e.value])
    ensures Owners(InsertByValue(s, e)) == Owners(s) + {e.owner}
  {
    InsertSorted(s, e);
    InsertDistinct(s, e);
    InsertMembers(s, e);
    hide InsertByValue;
    assert forall x :: x in s ==> x.owner in Owners(s);
  }

  lemma HoldsOther(s: seq<Entry>, base: nat, least: nat, deadline: map<nat, nat>, d2: map<nat, nat>)
    requires Holds(s, base, least, deadline)
    requires forall t :: t in Owners(s) ==> t in deadline && t in d2 && d2[t] == deadline[t]
    ensures Holds(s, base, least, d2)
  {
    assert forall x :: x in s ==> x.owner in Owners(s);
  }

  lemma RepresentsIf(now: nat, deadline: map<nat, nat>, delayed: seq<Entry>, overflow: seq<Entry>)
    requires Holds(delayed, Base(now), now % W32 + 1, deadline)
    requires Holds(overflow, Base(now) + W32, 0, deadline)
    requires forall e :: e in overflow ==> e.value < now % W32
    requires Owners(delayed) !! Owners(overflow)
    requires deadline.Keys == Owners(delayed) + Owners(overflow)
    ensures Represents(now, deadline, delayed, overflow)
  {
  }

  /** Where an absolute time less than one wrap ahead falls on the 32-bit clock. */
  lemma WrappedTime(now: nat, ticks: nat)
    requires 0 < ticks < W32
    ensures var tick, wake := now % W32, (now % W32 + ticks) % W32;
      if wake < tick then now + ticks == Base(now) + W32 + wake
      else wake > tick && now + ticks == Base(now) + wake
  {
  }

  lemma BlockThisRound(now: nat, deadline: map<nat, nat>, delayed: seq<Entry>, overflow: seq<Entry>, e: Entry)
    requires Represents(now, deadline, delayed, overflow) && e.owner !in deadline && e.value > now % W32
    ensures Represents(now, deadline[e.owner := Base(now) + e.value], InsertByValue(delayed, e), overflow)
  {
    hide InsertByValue;
    hide Owners;
    var d2 := deadline[e.owner := Base(now) + e.value];
    HoldsInsert(delayed, Base(now), now % W32 + 1, deadline, e);
    HoldsOther(overflow, Base(now) + W32, 0, deadline, d2);
    hide Holds;
    hide Base;
    RepresentsIf(now, d2, InsertByValue(delayed, e), overflow);
  }

  lemma BlockNextRound(now: nat, deadline: map<nat, nat>, delayed: seq<Entry>, overflow: seq<Entry>, e: Entry)
    requires Represents(now, deadline, delayed, overflow) && e.owner !in deadline && e.value < now % W32
    ensures Represents(now, deadline[e.owner := Base(now) + W32 + e.value], delayed, InsertByValue(overflow, e))
  {
    hide InsertByValue;
    hide Owners;
    var d2 := deadline[e.owner := Base(now) + W32 + e.value];
    HoldsInsert(overflow, Base(now) + W32, 0, deadline, e);
    HoldsOther(delayed, Base(now), now % W32 + 1, deadline, d2);
    InsertMembers(overflow, e);
    hide Holds;
    hide Base;
    RepresentsIf(now, d2, delayed, InsertByValue(overflow, e));
  }

  /** A deadline less than one wrap ahead goes into the list its wrapped value points to. */
  lemma BlockKeeps(l: Timeline, delayed: seq<Entry>, overflow: seq<Entry>, t: nat, ticks: nat, wake: U32)
    requires Represents(l.now, l.deadline, delayed, overflow)
    requires t !in l.deadline && 0 < ticks < W32 && wake == (l.now % W32 + ticks) % W32
    ensures var d2, e := l.Block(t, ticks).deadline, Entry(wake, t);
      if wake < l.now % W32 then Represents(l.now, d2, delayed, InsertByValue(overflow, e))
      else Represents(l.now, d2, InsertByValue(delayed, e), overflow)
  {
    hide Represents;
    hide Base;
    hide InsertByValue;
    WrappedTime(l.now, ticks);
    if wake < l.now % W32 {
      BlockNextRound(l.now, l.deadline, delayed, overflow, Entry(wake, t));
    } else {
      BlockThisRound(l.now, l.deadline, delayed, overflow, Entry(wake, t));
    }
  }

  lemma HoldsRemove(s: seq<Entry>, base: nat, least: nat, deadline: map<nat, nat>, t: nat)
    requires Holds(s, base, least, deadline)
    ensures Holds(RemoveOwner(s, t), base, least, deadline - {t})
    ensures Owners(RemoveOwner(s, t)) == Owners(s) - {t}
  {
    RemoveMembers(s, t);
    RemoveKeepsOrder(s, t);
    RemoveOwners(s, t);
  }

  /** A task woken by an event leaves whichever list it is in. */
  lemma WakeKeeps(l: Timeline, delayed: seq<Entry>, overflow: seq<Entry>, t: nat)
    requires Represents(l.now, l.deadline, delayed, overflow)
    ensures Represents(l.now, l.Wake(t).deadline, RemoveOwner(delayed, t), RemoveOwner(overflow, t))
  {
    HoldsRemove(delayed, Base(l.now), l.now % W32 + 1, l.deadline, t);
    HoldsRemove(overflow, Base(l.now) + W32, 0, l.deadline, t);
    RemoveMembers(overflow, t);
  }

  /** The current list as the new tick finds it, after the lists have swapped on a wrap. */
  function AfterSwap(tick: U32, delayed: seq<Entry>, overflow: seq<Entry>): (seq<Entry>, seq<Entry>) {
    if tick == 0 then (overflow, delayed) else (delayed, overflow)
  }

  /** At a wrap the current list is empty: the assertion in taskSWITCH_DELAYED_LISTS cannot fail. */
  lemma EmptyAtWrap(l: Timeline, delayed: seq<Entry>, overflow: seq<Entry>)
    requires Represents(l.now, l.deadline, delayed, overflow) && (l.now + 1) % W32 == 0
    ensures delayed == []
  {
    HeadIn(delayed);
  }

  /** What the new tick finds, before it has looked at the current list. */
  ghost predicate TickFinds(now: nat, deadline: map<nat, nat>, d: seq<Entry>, o: seq<Entry>) {
    && Holds(d, Base(now), now % W32, deadline) && Holds(o, Base(now) + W32, 0, deadline)
    && (forall e :: e in o ==> e.value < now % W32)
    && deadline.Keys == Owners(d) + Owners(o) && Owners(d) !! Owners(o)
  }

  lemma SwapKeeps(l: Timeline, delayed: seq<Entry>, overflow: seq<Entry>)
    requires Represents(l.now, l.deadline, delayed, overflow)
    ensures var (d, o) := AfterSwap((l.now + 1) % W32, delayed, overflow); TickFinds(l.now + 1, l.deadline, d, o)
  {
    if (l.now + 1) % W32 == 0 {
      EmptyAtWrap(l, delayed, overflow);
      assert Base(l.now + 1) == Base(l.now) + W32;
    } else {
      assert Base(l.now + 1) == Base(l.now);
    }
  }

  /** The k due entries at the front of the current list: exactly the owners whose deadline is now. */
  lemma SplitDue(now: nat, deadline: map<nat, nat>, d: seq<Entry>, o: seq<Entry>, k: nat)
    requires TickFinds(now, deadline, d, o)
    requires k <= |d| && (forall i :: 0 <= i < k ==> d[i].value <= now % W32) && (k < |d| ==> d[k].value > now % W32)
    ensures Holds(d[k..], Base(now), now % W32 + 1, deadline)
    ensures forall t :: t in deadline && deadline[t] == now <==> t in Owners(d[..k])
  {
    var tick := now % W32;
    assert Base(now) + tick == now;
    hide Base;
    CutOwners(d, k);
    hide Owners;
    SuffixHolds(d, k, Base(now), tick, deadline);
    assert forall x :: x in d[..k] ==> x in d && x.value == tick;
    hide SortedByValue;
    hide DistinctOwners;
    DueOwners(now, deadline, d[..k], d[k..], o);
  }

  lemma DueOwners(now: nat, deadline: map<nat, nat>, p: seq<Entry>, q: seq<Entry>, o: seq<Entry>)
    requires deadline.Keys == Owners(p) + Owners(q) + Owners(o)
    requires forall x :: x in p ==> x.owner in deadline && deadline[x.owner] == now
    requires forall x :: x in q ==> x.owner in deadline && deadline[x.owner] > now
    requires forall x :: x in o ==> x.owner in deadline && deadline[x.owner] > now
    ensures forall t :: t in deadline && deadline[t] == now <==> t in Owners(p)
  {
  }

  lemma SuffixHolds(d: seq<Entry>, k: nat, base: nat, tick: nat, deadline: map<nat, nat>)
    requires Holds(d, base, tick, deadline) && k <= |d| && (k < |d| ==> d[k].value > tick)
    ensures Holds(d[k..], base, tick + 1, deadline)
  {
    assert forall i :: k <= i < |d| ==> d[i].value > tick;
    assert forall x :: x in d[k..] ==> x in d;
  }

  /** k entries have come due. */
  lemma TickKeeps(l: Timeline, delayed: seq<Entry>, overflow: seq<Entry>, d: seq<Entry>, o: seq<Entry>, k: nat)
    requires Represents(l.now, l.deadline, delayed, overflow)
    requires (d, o) == AfterSwap((l.now + 1) % W32, delayed, overflow) && k <= |d|
    requires forall i :: 0 <= i < k ==> d[i].value <= (l.now + 1) % W32
    requires k < |d| ==> d[k].value > (l.now + 1) % W32
    ensures Represents(l.now + 1, l.Tick().deadline, d[k..], o)
    ensures forall t :: l.Due(t) <==> t in Owners(d[..k])
  {
    hide AfterSwap;
    hide Represents;
    hide TickFinds;
    hide Owners;
    SwapKeeps(l, delayed, overflow);
    DropDue(l.now + 1, l.deadline, l.Tick().deadline, d, o, k);
  }

  lemma DropDue(now: nat, deadline: map<nat, nat>, d2: map<nat, nat>, d: seq<Entry>, o: seq<Entry>, k: nat)
    requires TickFinds(now, deadline, d, o)
    requires k <= |d| && (forall i :: 0 <= i < k ==> d[i].value <= now % W32) && (k < |d| ==> d[k].value > now % W32)
    requires d2 == map t | t in deadline && deadline[t] != now :: deadline[t]
    ensures Represents(now, d2, d[k..], o)
    ensures forall t :: t in deadline && deadline[t] == now <==> t in Owners(d[..k])
  {
    hide Represents;
    hide SortedByValue;
    hide DistinctOwners;
    hide Base;
    SplitDue(now, deadline, d, o, k);
    CutAt(now, deadline, d, o, k);
    hide TickFinds;
    hide Owners;
    hide Holds;
    HoldsOther(d[k..], Base(now), now % W32 + 1, deadline, d2);
    HoldsOther(o, Base(now) + W32, 0, deadline, d2);
    RepresentsIf(now, d2, d[k..], o);
  }

  /** What is left of the lists, and of their owners. */
  lemma CutAt(now: nat, deadline: map<nat, nat>, d: seq<Entry>, o: seq<Entry>, k: nat)
    requires TickFinds(now, deadline, d, o) && k <= |d|
    ensures Holds(o, Base(now) + W32, 0, deadline) && forall e :: e in o ==> e.value < now % W32
    ensures Owners(d[k..]) !! Owners(o) && Owners(d[..k]) !! Owners(d[k..]) && Owners(d[..k]) !! Owners(o)
    ensures deadline.Keys == Owners(d[..k]) + Owners(d[k..]) + Owners(o)
  {
    CutOwners(d, k);
    hide Owners;
  }

  lemma BoundsRemove(next: U32, now: nat, deadline: map<nat, nat>, delayed: seq<Entry>, overflow: seq<Entry>, t: nat)
    requires Represents(now, deadline, delayed, overflow) && Bounds(next, delayed)
    ensures Bounds(next, RemoveOwner(delayed, t))
  {
    RemoveMembers(delayed, t);
  }

  // ----- histories -----

  const START := Timeline(0, map[], {})

  lemma {:induction false} RunAppend(l: Timeline, es: seq<Event>, fs: seq<Event>)
    ensures Run(l, es + fs) == Run(Run(l, es), fs)
    decreases |es|
  {
    if es == [] {
      assert es + fs == fs;
    } else {
      assert (es + fs)[0] == es[0] && (es + fs)[1..] == es[1..] + fs;
      RunAppend(Step(l, es[0]), es[1..], fs);
    }
  }

  lemma RunMore(l: Timeline, es: seq<Event>, e: Event)
    ensures Run(l, es + [e]) == Step(Run(l, es), e)
  {
    RunAppend(l, es, [e]);
    assert [e][1..] == [];
    assert Run(Step(Run(l, es), e), []) == Step(Run(l, es), e);
  }

  /** The tasks moved to a ready list by the tick, with the times: each entry of the reference once. */
  ghost predicate TimeoutsAre(timeouts: seq<(nat, nat)>, l: Timeline) {
    Distinct(timeouts) && (forall x :: x in timeouts <==> x in l.expired) && forall x :: x in timeouts ==> x.1 <= l.now
  }

  ghost function Stamped(d: seq<Entry>, k: nat, now: nat): (r: seq<(nat, nat)>)
    requires k <= |d|
    ensures |r| == k && forall i :: 0 <= i < k ==> r[i] == (d[i].owner, now)
  {
    seq(k, i requires 0 <= i < k => (d[i].owner, now))
  }

  /** The tasks of a log, in order. */
  ghost function Names(log: seq<(nat, nat)>): (r: seq<nat>)
    ensures |r| == |log| && forall i :: 0 <= i < |log| ==> r[i] == log[i].0
  {
    seq(|log|, i requires 0 <= i < |log| => log[i].0)
  }

  lemma NamesJoin(a: seq<(nat, nat)>, b: seq<(nat, nat)>)
    ensures Names(a + b) == Names(a) + Names(b)
  {
  }

  ghost function Members(ts: seq<nat>): set<nat> { set t | t in ts }

  lemma MembersJoin(a: seq<nat>, b: seq<nat>)
    ensures Members(a + b) == Members(a) + Members(b)
  {
    assert forall t :: t in a + b <==> t in a || t in b;
  }

  /** The log of a tick after the log of others. */
  lemma LogGrows(before: seq<(nat, nat)>, now: seq<(nat, nat)>, more: seq<(nat, nat)>)
    requires before <= now
    ensures before <= now + more && (now + more)[|before|..] == now[|before|..] + more
    ensures Names((now + more)[|before|..]) == Names(now[|before|..]) + Names(more)
    ensures Members(Names((now + more)[|before|..])) == Members(Names(now[|before|..])) + Members(Names(more))
  {
    assert (now + more)[|before|..] == now[|before|..] + more;
    NamesJoin(now[|before|..], more);
    MembersJoin(Names(now[|before|..]), Names(more));
  }

  lemma NoNames()
    ensures Names([]) == [] && Members([]) == {}
  {
  }

  lemma TicksCount(l: Timeline, n: nat)
    ensures l.Ticks(0) == l && l.Ticks(n + 1) == l.Ticks(n).Tick()
  {
    hide Timeline.Tick;
  }

  lemma StampedMembers(d: seq<Entry>, k: nat, now: nat)
    requires k <= |d|
    ensures forall t, n :: (t, n) in Stamped(d, k, now) <==> n == now && t in Owners(d[..k])
  {
    PrefixOwners(d, k);
    hide Owners;
    var more, w := Stamped(d, k, now), seq(k, i requires 0 <= i < k => d[i].owner);
    forall t, n
      ensures (t, n) in more <==> n == now && t in w
    {
      if (t, n) in more {
        var i :| 0 <= i < k && more[i] == (t, n);
        assert w[i] == t;
      }
      if n == now && t in w {
        var i :| 0 <= i < k && w[i] == t;
        assert more[i] == (t, n);
      }
    }
  }

  lemma TimeoutsGrow(timeouts: seq<(nat, nat)>, l: Timeline, d: seq<Entry>, k: nat)
    requires TimeoutsAre(timeouts, l) && k <= |d| && DistinctOwners(d)
    requires forall t :: l.Due(t) <==> t in Owners(d[..k])
    ensures TimeoutsAre(timeouts + Stamped(d, k, l.now + 1), l.Tick())
  {
    StampedMembers(d, k, l.now + 1);
    hide Owners;
    var more := Stamped(d, k, l.now + 1);
    forall x: (nat, nat)
      ensures x in timeouts + more <==> x in l.Tick().expired
    {
      assert x == (x.0, x.1);
    }
    assert forall i :: 0 <= i < k ==> more[i] !in timeouts;
    assert forall i, j :: 0 <= i < j < k ==> d[i].owner != d[j].owner && more[i] != more[j];
  }

  lemma TimeoutsStand(timeouts: seq<(nat, nat)>, l: Timeline, t: nat)
    requires TimeoutsAre(timeouts, l)
    ensures TimeoutsAre(timeouts, l.Wake(t)) && forall d: nat :: TimeoutsAre(timeouts, l.Block(t, d))
  {
  }

  /** A tick wraps the tick count exactly when it starts a new round. */
  lemma RoundsCounted(now: nat)
    ensures (now + 1) / W32 == now / W32 + if (now + 1) % W32 == 0 then 1 else 0
    ensures ((now / W32) % W32 + 1) % W32 == (now / W32 + 1) % W32
  {
  }

  // ----- the scheduler -----

  /** The timeline after each of ts has been woken. */
  ghost function WakeAll(l: Timeline, ts: seq<nat>): Timeline
    decreases |ts|
  {
    if ts == [] then l else WakeAll(l.Wake(ts[0]), ts[1..])
  }

  lemma {:induction false} WakeAllKeepsTime(l: Timeline, ts: seq<nat>)
    ensures WakeAll(l, ts).now == l.now
    decreases |ts|
  {
    if ts != [] {
      WakeAllKeepsTime(l.Wake(ts[0]), ts[1..]);
    }
  }

  lemma {:induction false} WakeAllLeaves(l: Timeline, ts: seq<nat>)
    ensures WakeAll(l, ts).deadline == l.deadline - Members(ts)
    decreases |ts|
  {
    if ts != [] {
      WakeAllLeaves(l.Wake(ts[0]), ts[1..]);
      MembersJoin([ts[0]], ts[1..]);
      assert ts == [ts[0]] + ts[1..];
    }
  }

  /** Woken tasks are on neither list. */
  lemma WokenAreOff(l: Timeline, ts: seq<nat>, delayed: seq<Entry>, overflow: seq<Entry>)
    requires var m := WakeAll(l, ts); Represents(m.now, m.deadline, delayed, overflow)
    ensures forall t :: t in ts ==> t !in Owners(delayed) + Owners(overflow)
  {
    WakeAllLeaves(l, ts);
    hide WakeAll;
  }

  lemma ListSorted(l: Timeline, delayed: seq<Entry>, overflow: seq<Entry>)
    requires Represents(l.now, l.deadline, delayed, overflow)
    ensures SortedByValue(delayed)
  {
  }

  lemma {:induction false} TicksAdvance(l: Timeline, n: nat)
    ensures l.Ticks(n).now == l.now + n
  {
    if n > 0 {
      TicksAdvance(l, n - 1);
    }
  }

  lemma PrefixOwners(d: seq<Entry>, k: nat)
    requires k <= |d|
    ensures forall t :: t in Owners(d[..k]) <==> t in seq(k, i requires 0 <= i < k => d[i].owner)
  {
    var w := seq(k, i requires 0 <= i < k => d[i].owner);
    forall t
      ensures t in Owners(d[..k]) <==> t in w
    {
      if t in w {
        var i :| 0 <= i < k && w[i] == t;
        assert d[..k][i] in d[..k];
      }
      if t in Owners(d[..k]) {
        var x :| x in d[..k] && x.owner == t;
        var i :| 0 <= i < k && d[..k][i] == x;
        assert w[i] == t;
      }
    }
  }

  lemma OwnersOfPrefix(d: seq<Entry>, k: nat)
    requires k < |d|
    ensures Owners(d[..k + 1]) == Owners(d[..k]) + {d[k].owner}
  {
    assert d[..k + 1] == d[..k] + [d[k]];
    assert forall x :: x in d[..k + 1] <==> x in d[..k] || x == d[k];
    MembersGiveOwners(d[..k], d[..k + 1], d[k]);
  }

  class TickScheduler {
    var tickCount: U32
    var nextUnblock: U32
    var delayed: seq<Entry>
    var overflow: seq<Entry>
    /** Tasks blocked without a time limit. */
    var blockedForever: set<nat>
    /** Tasks in the order they were moved to a ready list. */
    var ready: seq<nat>
    /** Tasks whose event list item is on an event list. */
    var onEventList: set<nat>
    var suspended: nat
    var pendedTicks: nat
    var pendingReady: seq<nat>
    /** xNumOfOverflows, which `Timeouts` looks at. */
    var overflows: U32

    ghost var line: Timeline
    /** What has happened to the timeline so far. */
    ghost var history: seq<Event>
    /** The tasks that a tick moved to a ready list, and the times. */
    ghost var timeouts: seq<(nat, nat)>

    ghost predicate Consistent()
      reads this
    {
      && tickCount == line.now % W32
      && Represents(line.now, line.deadline, delayed, overflow)
      && Bounds(nextUnblock, delayed)
      && overflows == line.now / W32 % W32
      && line == Run(START, history) && TimeoutsAre(timeouts, line)
    }

    ghost predicate Valid()
      reads this
    {
      && Consistent()
      && (suspended == 0 ==> pendedTicks == 0 && pendingReady == [])
    }

    /** Tick interrupts so far: none is ever lost. */
    ghost function Interrupts(): nat
      reads this
    {
      line.now + pendedTicks
    }

    constructor ()
      ensures Valid() && line == START && history == [] && timeouts == [] && suspended == 0
      ensures delayed == overflow == [] && ready == [] && blockedForever == {} && onEventList == {}
    {
      tickCount, nextUnblock, delayed, overflow := 0, MAX_DELAY, [], [];
      blockedForever, ready, onEventList := {}, [], {};
      suspended, pendedTicks, pendingReady := 0, 0, [];
      overflows := 0;
      line, history, timeouts := START, [], [];
    }

    /** prvResetNextTaskUnblockTime. */
    method ResetNextUnblock()
      requires SortedByValue(delayed)
      modifies this`nextUnblock
      ensures Bounds(nextUnblock, delayed)
    {
      if delayed == [] {
        nextUnblock := MAX_DELAY;
      } else {
        nextUnblock := delayed[0].value;
      }
    }

    /** The unblocking loop of xTaskIncrementTick: everything at the front that is not in the future. */
    method UnblockExpired(ghost d: seq<Entry>) returns (ghost k: nat)
      requires delayed == d && SortedByValue(d) && DistinctOwners(d)
      modifies this`delayed, this`nextUnblock, this`ready, this`onEventList
      ensures k <= |d| && delayed == d[k..]
      ensures forall i :: 0 <= i < k ==> d[i].value <= tickCount
      ensures k < |d| ==> d[k].value > tickCount
      ensures Bounds(nextUnblock, delayed)
      ensures ready == old(ready) + seq(k, i requires 0 <= i < k => d[i].owner)
      ensures onEventList == old(onEventList) - Owners(d[..k])
    {
      k := 0;
      while true
        invariant k <= |d| && delayed == d[k..]
        invariant forall i :: 0 <= i < k ==> d[i].value <= tickCount
        invariant ready == old(ready) + seq(k, i requires 0 <= i < k => d[i].owner)
        invariant onEventList == old(onEventList) - Owners(d[..k])
        decreases |d| - k
      {
        if delayed == [] {
          nextUnblock := MAX_DELAY;
          break;
        }
        var head := delayed[0];
        if tickCount < head.value {
          nextUnblock := head.value;
          break;
        }
        delayed := delayed[1..];
        OwnersOfPrefix(d, k);
        if head.owner in onEventList {
          onEventList := onEventList - {head.owner};
        }
        ready := ready + [head.owner];
        assert seq(k + 1, i requires 0 <= i < k + 1 => d[i].owner)
          == seq(k, i requires 0 <= i < k => d[i].owner) + [head.owner];
        k := k + 1;
      }
    }

    /** Increment the tick count, swapping the lists if it wraps to 0. */
    method Increment()
      requires Consistent()
      modifies this`tickCount, this`delayed, this`overflow, this`nextUnblock, this`overflows
      ensures tickCount == (line.now + 1) % W32 && Bounds(nextUnblock, delayed)
      ensures overflows == (line.now + 1) / W32 % W32
      ensures (delayed, overflow) == AfterSwap(tickCount, old(delayed), old(overflow))
      ensures SortedByValue(delayed) && DistinctOwners(delayed)
    {
      ghost var l := line;
      SwapKeeps(l, delayed, overflow);
      RoundsCounted(l.now);
      tickCount := (tickCount + 1) % W32;
      if tickCount == 0 {
        EmptyAtWrap(l, delayed, overflow);
        assert delayed == [];
        delayed, overflow := overflow, delayed;
        overflows := (overflows + 1) % W32;
        ResetNextUnblock();
      }
    }

    /** xTaskIncrementTick while the scheduler runs. */
    method ProcessTick()
      requires Consistent()
      modifies this`tickCount, this`delayed, this`overflow, this`nextUnblock, this`overflows,
        this`ready, this`onEventList, this`line, this`history, this`timeouts
      ensures Consistent() && line == old(line).Tick() && history == old(history) + [TickEvent]
      ensures old(ready) <= ready && forall t :: t in ready[|old(ready)|..] <==> old(line).Due(t)
      ensures old(timeouts) <= timeouts && ready == old(ready) + Names(timeouts[|old(timeouts)|..])
      ensures onEventList == old(onEventList) - Members(Names(timeouts[|old(timeouts)|..]))
    {
      hide Represents;
      hide Run;
      hide AfterSwap;
      hide SortedByValue;
      hide DistinctOwners;
      hide Owners;
      ghost var l := line;
      Increment();
      ghost var k := 0;
      ghost var d := delayed;
      PrefixOwners(d, 0);
      if tickCount >= nextUnblock {
        k := UnblockExpired(d);
      } else {
        HeadIn(d);
      }
      ghost var woken := seq(k, i requires 0 <= i < k => d[i].owner);
      assert ready == old(ready) + woken;
      hide Bounds;
      TickKeeps(l, old(delayed), old(overflow), d, overflow, k);
      PrefixOwners(d, k);
      TimeoutsGrow(timeouts, l, d, k);
      RunMore(START, history, TickEvent);
      hide TimeoutsAre;
      assert Names(Stamped(d, k, l.now + 1)) == woken;
      LogGrows(timeouts, timeouts, Stamped(d, k, l.now + 1));
      assert timeouts[|timeouts|..] == [];
      timeouts := timeouts + Stamped(d, k, l.now + 1);
      line, history := l.Tick(), history + [TickEvent];
    }

    /** The tick interrupt: processed now, or counted while the scheduler is suspended. */
    method Tick()
      requires Valid()
      modifies this
      ensures Valid() && suspended == old(suspended) && Interrupts() == old(Interrupts()) + 1
      ensures line == if suspended == 0 then old(line).Tick() else old(line)
      ensures history == if suspended == 0 then old(history) + [TickEvent] else old(history)
      ensures old(timeouts) <= timeouts && ready == old(ready) + Names(timeouts[|old(timeouts)|..])
      ensures onEventList == old(onEventList) - Members(Names(timeouts[|old(timeouts)|..]))
      ensures blockedForever == old(blockedForever) && pendingReady == old(pendingReady)
      ensures suspended > 0 ==> timeouts == old(timeouts) && pendedTicks == old(pendedTicks) + 1
    {
      if suspended == 0 {
        ProcessTick();
      } else {
        pendedTicks := pendedTicks + 1;
      }
    }

    /** prvAddCurrentTaskToDelayedList, for the task that is about to block. */
    method Block(t: nat, ticksToWait: U32, canBlockIndefinitely: bool)
      requires Valid() && t !in line.deadline && ticksToWait > 0
      modifies this`delayed, this`overflow, this`nextUnblock, this`blockedForever, this`line, this`history
      ensures Valid()
      ensures if ticksToWait == MAX_DELAY && canBlockIndefinitely
        then line == old(line) && history == old(history)
        else line == old(line).Block(t, ticksToWait) && history == old(history) + [BlockEvent(t, ticksToWait)]
      ensures blockedForever == old(blockedForever) + if ticksToWait == MAX_DELAY && canBlockIndefinitely then {t}
        else {}
    {
      if ticksToWait == MAX_DELAY && canBlockIndefinitely {
        blockedForever := blockedForever + {t};
      } else {
        DelayUntil(t, ticksToWait, Unsigned32(tickCount + ticksToWait));
      }
    }

    /** Inserts the item in wake time order, into the overflow list if the wake time has wrapped. */
    method DelayUntil(t: nat, ghost ticks: U32, timeToWake: U32)
      requires Valid() && t !in line.deadline && ticks > 0 && timeToWake == Unsigned32(tickCount + ticks)
      modifies this`delayed, this`overflow, this`nextUnblock, this`line, this`history
      ensures Valid() && line == old(line).Block(t, ticks) && history == old(history) + [BlockEvent(t, ticks)]
      ensures if timeToWake < tickCount
        then overflow == InsertByValue(old(overflow), Entry(timeToWake, t)) && delayed == old(delayed)
        else delayed == InsertByValue(old(delayed), Entry(timeToWake, t)) && overflow == old(overflow)
    {
      hide InsertByValue;
      hide Represents;
      ghost var l, e := line, Entry(timeToWake, t);
      hide TimeoutsAre;
      hide Run;
      BlockKeeps(l, delayed, overflow, t, ticks, timeToWake);
      TimeoutsStand(timeouts, l, t);
      InsertMembers(delayed, e);
      hide Unsigned32;
      hide Owners;
      if timeToWake < tickCount {
        overflow := InsertByValue(overflow, Entry(timeToWake, t));
      } else {
        delayed := InsertByValue(delayed, Entry(timeToWake, t));
        if timeToWake < nextUnblock {
          nextUnblock := timeToWake;
        }
      }
      RunMore(START, history, BlockEvent(t, ticks));
      line, history := l.Block(t, ticks), history + [BlockEvent(t, ticks)];
    }

    /** vTaskPlaceOnEventList: the running task goes onto an event list and blocks, at most for the given time. */
    method PlaceOnEventList(t: nat, ticksToWait: U32)
      requires Valid() && t !in line.deadline && ticksToWait > 0
      modifies this`delayed, this`overflow, this`nextUnblock, this`blockedForever
      modifies this`line, this`history, this`onEventList
      ensures Valid() && onEventList == old(onEventList) + {t}
      ensures if ticksToWait == MAX_DELAY
        then line == old(line) && history == old(history) && blockedForever == old(blockedForever) + {t}
        else line == old(line).Block(t, ticksToWait) && history == old(history) + [BlockEvent(t, ticksToWait)]
             && blockedForever == old(blockedForever)
    {
      hide Represents;
      hide Bounds;
      hide TimeoutsAre;
      hide Run;
      onEventList := onEventList + {t};
      Block(t, ticksToWait, true);
    }

    /** Moves a task from wherever its state item is to a ready list. */
    method MakeReady(t: nat)
      requires Consistent()
      modifies this`delayed, this`overflow, this`blockedForever, this`ready, this`line, this`history
      ensures Consistent() && line == old(line).Wake(t) && history == old(history) + [WakeEvent(t)]
      ensures ready == old(ready) + [t] && blockedForever == old(blockedForever) - {t}
      ensures delayed == RemoveOwner(old(delayed), t) && overflow == RemoveOwner(old(overflow), t)
    {
      hide Represents;
      hide Bounds;
      hide TimeoutsAre;
      hide Run;
      hide RemoveOwner;
      WakeKeeps(line, delayed, overflow, t);
      BoundsRemove(nextUnblock, line.now, line.deadline, delayed, overflow, t);
      TimeoutsStand(timeouts, line, t);
      RunMore(START, history, WakeEvent(t));
      delayed := RemoveOwner(delayed, t);
      overflow := RemoveOwner(overflow, t);
      blockedForever := blockedForever - {t};
      ready := ready + [t];
      line, history := line.Wake(t), history + [WakeEvent(t)];
    }

    /** xTaskRemoveFromEventList: ready at once, or pending while the scheduler is suspended. */
    method WakeFromEvent(t: nat)
      requires Valid() && t in onEventList
      modifies this
      ensures Valid() && suspended == old(suspended) && pendedTicks == old(pendedTicks)
      ensures onEventList == old(onEventList) - {t}
      ensures if suspended == 0
        then line == old(line).Wake(t) && history == old(history) + [WakeEvent(t)] && ready == old(ready) + [t]
             && blockedForever == old(blockedForever) - {t} && pendingReady == old(pendingReady)
        else line == old(line) && history == old(history) && pendingReady == old(pendingReady) + [t]
             && ready == old(ready) && blockedForever == old(blockedForever)
    {
      onEventList := onEventList - {t};
      if suspended == 0 {
        MakeReady(t);
      } else {
        pendingReady := pendingReady + [t];
      }
    }

    /** vTaskSuspendAll. */
    method SuspendAll()
      requires Valid()
      modifies this`suspended
      ensures Valid() && suspended == old(suspended) + 1
    {
      suspended := suspended + 1;
    }

    /** The first part of xTaskResumeAll: readied tasks leave the pending list. */
    method DrainPending()
      requires Consistent()
      modifies this`pendingReady, this`onEventList, this`delayed, this`overflow, this`blockedForever,
        this`ready, this`nextUnblock, this`line, this`history
      ensures Consistent() && pendingReady == []
      ensures line == WakeAll(old(line), old(pendingReady)) && old(history) <= history
      ensures ready == old(ready) + old(pendingReady)
      ensures onEventList == old(onEventList) - Members(old(pendingReady))
      ensures blockedForever == old(blockedForever) - Members(old(pendingReady))
      ensures forall t :: t in old(pendingReady) ==> t !in Owners(delayed) + Owners(overflow)
    {
      hide Represents;
      hide Bounds;
      hide TimeoutsAre;
      hide Run;
      ghost var l0, ts := line, pendingReady;
      var moved := false;
      ghost var done: seq<nat> := [];
      while pendingReady != []
        invariant Consistent() && WakeAll(line, pendingReady) == WakeAll(l0, ts) && old(history) <= history
        invariant done + pendingReady == ts && ready == old(ready) + done
        invariant onEventList == old(onEventList) - Members(done)
        invariant blockedForever == old(blockedForever) - Members(done)
        decreases |pendingReady|
      {
        assert done + pendingReady == done + [pendingReady[0]] + pendingReady[1..];
        MembersJoin(done, [pendingReady[0]]);
        done := done + [pendingReady[0]];
        var t := pendingReady[0];
        pendingReady := pendingReady[1..];
        onEventList := onEventList - {t};
        MakeReady(t);
        moved := true;
      }
      assert done == ts;
      WokenAreOff(l0, ts, delayed, overflow);
      ListSorted(line, delayed, overflow);
      if moved {
        ResetNextUnblock();
      }
    }

    /** The second part: ticks that arrived meanwhile are processed one by one. */
    method ProcessPended()
      requires Consistent()
      modifies this`pendedTicks, this`tickCount, this`delayed, this`overflow, this`nextUnblock, this`overflows,
        this`ready, this`onEventList, this`line, this`history, this`timeouts
      ensures Consistent() && pendedTicks == 0
      ensures line == old(line).Ticks(old(pendedTicks)) && old(history) <= history
      ensures old(timeouts) <= timeouts && ready == old(ready) + Names(timeouts[|old(timeouts)|..])
      ensures onEventList == old(onEventList) - Members(Names(timeouts[|old(timeouts)|..]))
    {
      hide Represents;
      hide Bounds;
      hide TimeoutsAre;
      hide Run;
      hide Names;
      hide Members;
      hide Timeline.Ticks;
      hide Timeline.Tick;
      TicksCount(line, 0);
      NoNames();
      assert timeouts[|timeouts|..] == [];
      ghost var l, n := line, 0;
      var pended := pendedTicks;
      while pended > 0
        invariant Consistent() && n + pended == pendedTicks == old(pendedTicks)
        invariant line == l.Ticks(n) && old(history) <= history
        invariant old(timeouts) <= timeouts && ready == old(ready) + Names(timeouts[|old(timeouts)|..])
        invariant onEventList == old(onEventList) - Members(Names(timeouts[|old(timeouts)|..]))
        decreases pended
      {
        ghost var log := timeouts;
        TicksCount(l, n);
        ProcessTick();
        LogGrows(old(timeouts), log, timeouts[|log|..]);
        assert timeouts == log + timeouts[|log|..];
        pended := pended - 1;
        n := n + 1;
      }
      pendedTicks := 0;
    }

    /** xTaskResumeAll: pending tasks first, then every tick that was missed. */
    method ResumeAll()
      requires Valid() && suspended > 0
      modifies this
      ensures Valid() && suspended == old(suspended) - 1 && Interrupts() == old(Interrupts())
      ensures old(history) <= history
      ensures suspended > 0 ==> line == old(line) && history == old(history)
      ensures suspended == 0 ==> line == WakeAll(old(line), old(pendingReady)).Ticks(old(pendedTicks))
      ensures old(timeouts) <= timeouts
      ensures ready ==
        old(ready) + (if suspended == 0 then old(pendingReady) else []) + Names(timeouts[|old(timeouts)|..])
      ensures blockedForever == old(blockedForever) - if suspended == 0 then Members(old(pendingReady)) else {}
      ensures suspended > 0 ==> pendingReady == old(pendingReady) && timeouts == old(timeouts)
    {
      hide Represents;
      hide Bounds;
      hide TimeoutsAre;
      hide Run;
      assert timeouts[|timeouts|..] == [] && ready + [] + [] == ready;
      suspended := suspended - 1;
      if suspended == 0 {
        WakeAllKeepsTime(line, pendingReady);
        DrainPending();
        TicksAdvance(line, pendedTicks);
        ProcessPended();
      }
    }
  }

  // ----- whole runs -----

  /**
   * In every state that the scheduler reaches: a task that blocked for d ticks at time T, and was not
   * woken nor blocked again since, is in one of the two lists until time T + d, and from then on in
   * neither; the tick moved it to a ready list at T + d, once, and at no other time since.
   */
  lemma WakesOnTime(s: TickScheduler, before: seq<Event>, t: nat, d: nat, after: seq<Event>)
    requires s.Valid() && s.history == before + [BlockEvent(t, d)] + after
    requires d > 0 && t !in Run(START, before).deadline && LeavesAlone(after, t)
    ensures var l := Run(START, before); s.line.now < l.now + d ==>
      t in Owners(s.delayed) + Owners(s.overflow) && forall n :: (t, n) in s.timeouts <==> (t, n) in l.expired
    ensures var l := Run(START, before); s.line.now >= l.now + d ==>
      && t !in Owners(s.delayed) + Owners(s.overflow) && Distinct(s.timeouts)
      && forall n :: (t, n) in s.timeouts <==> n == l.now + d || (t, n) in l.expired
  {
    var l := Run(START, before);
    RunMore(START, before, BlockEvent(t, d));
    RunAppend(START, before + [BlockEvent(t, d)], after);
    hide Run;
    WakesExactly(l.Block(t, d), after, t);
    assert forall n :: (t, n) in s.line.expired <==> n in ExpiredAt(s.line, t);
    assert forall n :: (t, n) in l.expired <==> n in ExpiredAt(l.Block(t, d), t);
  }
}
