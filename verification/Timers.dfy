/**
 * Software timers: the daemon keeps active timers in two lists that swap when it sees that the
 * tick count has wrapped, and re-arms auto-reload timers through its own command queue.
 * The reference is an unbounded clock and one absolute due time for the timer that is followed.
 */
module Timers {
  import opened Basics
  import opened Words
  import opened KernelList
  import opened ValueLists
  import opened Delays

  // ----- where a timer belongs -----

  datatype Decision = ExpiredAlready | ThisEpoch | NextEpoch

  /** The tests of prvInsertTimerInActiveList, on wrapped times. */
  function Decide(next: U32, now: U32, command: U32, period: U32): Decision {
    if next <= now then
      if Unsigned32(now - command) >= period then ExpiredAlready else NextEpoch
    else
      if now < command && next >= command then ExpiredAlready else ThisEpoch
  }

  /** Where a timer due at unbounded time due belongs when it is unbounded time now. */
  function Rightly(due: nat, now: nat): Decision {
    if due <= now then ExpiredAlready
    else if due < Base(now) + W32 then ThisEpoch
    else NextEpoch
  }

  /** A time and an offset of less than one wrap. */
  lemma Offset(c: nat, d: nat)
    requires d < W32
    ensures (c + d) % W32 == if c % W32 + d < W32 then c % W32 + d else c % W32 + d - W32
    ensures Base(c + d) == if c % W32 + d < W32 then Base(c) else Base(c) + W32
  {
  }

  /**
   * The decision is right for a command given at c for period p and processed at n exactly if
   * less than one wrap lies between, or the time beyond the last whole wrap covers the period.
   */
  lemma DecisionIsRight(c: nat, p: U32, n: nat)
    requires c <= n && p > 0
    ensures Decide((c + p) % W32, n % W32, c % W32, p) == Rightly(c + p, n) <==> n - c < W32 || (n - c) % W32 >= p
  {
    var k := (n - c) / W32;
    var m := c + (n - c) % W32;
    assert n == m + k * W32;
    SameRemainder(m, k);
    DecisionWithinWrap(c, p, m);
  }

  /** A wrapped time of the present epoch. */
  lemma EpochTime(n: nat, v: U32)
    ensures (Base(n) + v) % W32 == v
    ensures v <= n % W32 ==> Base(n) + v <= n < Base(n) + v + W32
  {
  }

  lemma SameRemainder(m: nat, k: nat)
    ensures (m + k * W32) % W32 == m % W32
  {
  }

  lemma DecisionWithinWrap(c: nat, p: U32, n: nat)
    requires c <= n < c + W32 && p > 0
    ensures Decide((c + p) % W32, n % W32, c % W32, p) == Rightly(c + p, n)
  {
    Offset(c, p);
    Offset(c, n - c);
  }

  // ----- the daemon's data -----

  datatype Timer = Timer(period: U32, autoReload: bool, active: bool)

  datatype Command =
    | Start(timer: nat, value: U32)
    | Stop(timer: nat)
    | ChangePeriod(timer: nat, period: U32)
    | Delete(timer: nat)

  /** The commands in a queue that concern timer t. */
  function Concerning(cs: seq<Command>, t: nat): seq<Command> {
    if cs == [] then [] else if cs[0].timer == t then [cs[0]] + Concerning(cs[1..], t) else Concerning(cs[1..], t)
  }

  lemma {:induction false} ConcerningAppend(a: seq<Command>, b: seq<Command>, t: nat)
    ensures Concerning(a + b, t) == Concerning(a, t) + Concerning(b, t)
  {
    if a == [] {
      assert a + b == b;
    } else {
      assert (a + b)[1..] == a[1..] + b;
      ConcerningAppend(a[1..], b, t);
    }
  }

  /** What is left until the end of the epoch, over all entries: it shrinks as timers are reloaded. */
  function Slack(s: seq<Entry>): nat {
    if s == [] then 0 else W32 - s[0].value + Slack(s[1..])
  }

  lemma {:induction false} SlackAppend(a: seq<Entry>, b: seq<Entry>)
    ensures Slack(a + b) == Slack(a) + Slack(b)
  {
    if a == [] {
      assert a + b == b;
    } else {
      assert (a + b)[1..] == a[1..] + b;
      SlackAppend(a[1..], b);
    }
  }

  lemma SlackFirst(s: seq<Entry>)
    ensures s != [] ==> Slack(s) == W32 - s[0].value + Slack(s[1..])
  {
  }

  lemma SlackInsert(s: seq<Entry>, e: Entry)
    ensures Slack(InsertByValue(s, e)) == Slack(s) + W32 - e.value
  {
    var k := Place(Values(s), e.value);
    SlackAppend(s[..k], [e] + s[k..]);
    SlackAppend([e], s[k..]);
    SlackAppend(s[..k], s[k..]);
    assert s == s[..k] + s[k..];
    assert InsertByValue(s, e) == s[..k] + ([e] + s[k..]);
  }

  ghost predicate ListsOk(current: seq<Entry>, overflow: seq<Entry>) {
    && SortedByValue(current) && DistinctOwners(current)
    && SortedByValue(overflow) && DistinctOwners(overflow)
    && Owners(current) !! Owners(overflow)
  }

  /**
   * Exactly one thing will make timer t, of period p, run its callback at absolute time due:
   * an entry in one list, or one queued start command stamped one period earlier.
   */
  ghost predicate Pending(base: nat, current: seq<Entry>, overflow: seq<Entry>, cs: seq<Command>,
                          t: nat, due: int, p: U32)
  {
    if t in Owners(current) then
      Concerning(cs, t) == [] && exists e :: e in current && e.owner == t && due == base + e.value
    else if t in Owners(overflow) then
      Concerning(cs, t) == [] && exists e :: e in overflow && e.owner == t && due == base + W32 + e.value
    else
      due >= p && Concerning(cs, t) == [Start(t, (due - p) % W32)]
  }

  /** The due time that follows the first n. */
  function DueAfter(s: nat, p: nat, n: nat): nat { s + (n + 1) * p }

  /** The first n due times of a timer started at s with period p. */
  function Nominal(s: nat, p: nat, n: nat): (r: seq<nat>)
    ensures |r| == n
  {
    seq(n, i requires 0 <= i < n => DueAfter(s, p, i))
  }

  function Periods(s: nat, p: nat, now: nat): nat
    requires p > 0 && s <= now
  {
    (now - s) / p
  }

  /** If the next callback lies in the future and the last one does not, all whole periods have had theirs. */
  lemma ElapsedPeriods(s: nat, p: nat, n: nat, now: nat)
    requires p > 0 && DueAfter(s, p, n) - p <= now < DueAfter(s, p, n)
    ensures s <= now && n == Periods(s, p, now)
  {
    assert (n + 1) * p == n * p + p;
    DivisionIs(now - s, p, n, now - s - n * p);
  }

  lemma NextNominal(s: nat, p: nat, n: nat)
    ensures Nominal(s, p, n + 1) == Nominal(s, p, n) + [DueAfter(s, p, n)]
    ensures DueAfter(s, p, n) + p == DueAfter(s, p, n + 1)
  {
  }

  // ----- how the pending item of a timer moves -----

  /** Nothing is pending for t. */
  ghost predicate Bare(current: seq<Entry>, overflow: seq<Entry>, cs: seq<Command>, t: nat) {
    t !in Owners(current) && t !in Owners(overflow) && Concerning(cs, t) == []
  }

  lemma PendingInThis(base: nat, current: seq<Entry>, overflow: seq<Entry>, cs: seq<Command>, e: Entry, p: U32)
    requires Bare(current, overflow, cs, e.owner)
    ensures Pending(base, InsertByValue(current, e), overflow, cs, e.owner, base + e.value, p)
  {
    InsertMembers(current, e);
    hide InsertByValue;
  }

  lemma PendingInNext(base: nat, current: seq<Entry>, overflow: seq<Entry>, cs: seq<Command>, e: Entry, p: U32)
    requires Bare(current, overflow, cs, e.owner)
    ensures Pending(base, current, InsertByValue(overflow, e), cs, e.owner, base + W32 + e.value, p)
  {
    InsertMembers(overflow, e);
    hide InsertByValue;
  }

  lemma PendingQueued(base: nat, current: seq<Entry>, overflow: seq<Entry>, cs: seq<Command>, t: nat, c: nat, p: U32)
    requires Bare(current, overflow, cs, t)
    ensures Pending(base, current, overflow, cs + [Start(t, c % W32)], t, c + p, p)
  {
    ConcerningAppend(cs, [Start(t, c % W32)], t);
  }

  /** Entries of other timers come and go. */
  lemma PendingOthers(base: nat, current: seq<Entry>, overflow: seq<Entry>, cs: seq<Command>, t: nat, due: int, p: U32,
                      current2: seq<Entry>, overflow2: seq<Entry>, cs2: seq<Command>)
    requires Pending(base, current, overflow, cs, t, due, p)
    requires forall e: Entry ::
      e.owner == t ==> (e in current2 <==> e in current) && (e in overflow2 <==> e in overflow)
    requires Concerning(cs2, t) == Concerning(cs, t)
    ensures Pending(base, current2, overflow2, cs2, t, due, p)
  {
  }

  /** Taking the entry of t out of the current list leaves nothing pending, and tells when it was due. */
  lemma PendingTaken(base: nat, current: seq<Entry>, overflow: seq<Entry>, cs: seq<Command>, e: Entry, due: int, p: U32)
    requires ListsOk(current, overflow) && e in current && Pending(base, current, overflow, cs, e.owner, due, p)
    ensures due == base + e.value && Bare(RemoveOwner(current, e.owner), overflow, cs, e.owner)
  {
    RemoveOwners(current, e.owner);
    var x :| x in current && x.owner == e.owner && due == base + x.value;
    var i :| 0 <= i < |current| && current[i] == e;
    var j :| 0 <= j < |current| && current[j] == x;
  }

  lemma ListsRemove(current: seq<Entry>, overflow: seq<Entry>, t: nat)
    requires ListsOk(current, overflow)
    ensures ListsOk(RemoveOwner(current, t), overflow) && ListsOk(current, RemoveOwner(overflow, t))
    ensures t !in Owners(RemoveOwner(current, t)) && t !in Owners(RemoveOwner(overflow, t))
    ensures Owners(RemoveOwner(current, t)) == Owners(current) - {t}
      && Owners(RemoveOwner(overflow, t)) == Owners(overflow) - {t}
    ensures t !in Owners(current) ==> RemoveOwner(current, t) == current
    ensures t in Owners(current) ==> t !in Owners(overflow)
    ensures t !in Owners(overflow) ==> RemoveOwner(overflow, t) == overflow
  {
    RemoveKeepsOrder(current, t);
    RemoveKeepsOrder(overflow, t);
    RemoveOwners(current, t);
    RemoveOwners(overflow, t);
  }

  lemma ListsInsert(current: seq<Entry>, overflow: seq<Entry>, e: Entry)
    requires ListsOk(current, overflow) && e.owner !in Owners(current) && e.owner !in Owners(overflow)
    ensures ListsOk(InsertByValue(current, e), overflow) && ListsOk(current, InsertByValue(overflow, e))
  {
    InsertSorted(current, e);
    InsertDistinct(current, e);
    InsertMembers(current, e);
    InsertSorted(overflow, e);
    InsertDistinct(overflow, e);
    InsertMembers(overflow, e);
  }

  /** Where inserting a timer leaves it, given that the decision comes less than one wrap after the command. */
  lemma PendingInserted(n: nat, current: seq<Entry>, overflow: seq<Entry>, cs: seq<Command>, t: nat, c: nat, p: U32)
    requires Bare(current, overflow, cs, t) && c <= n < c + W32 && p > 0
    ensures var d, e := Decide(Unsigned32(c % W32 + p), n % W32, c % W32, p), Entry(Unsigned32(c % W32 + p), t);
      && (d.ThisEpoch? ==> Pending(Base(n), InsertByValue(current, e), overflow, cs, t, c + p, p))
      && (d.NextEpoch? ==> Pending(Base(n), current, InsertByValue(overflow, e), cs, t, c + p, p))
      && (d.ExpiredAlready? <==> c + p <= n)
  {
    var e := Entry(Unsigned32(c % W32 + p), t);
    Offset(c, p);
    DecisionWithinWrap(c, p, n);
    assert Unsigned32(c % W32 + p) == (c + p) % W32;
    DueInEpoch(c, p, n);
    hide Base;
    hide Pending;
    hide InsertByValue;
    PendingInThis(Base(n), current, overflow, cs, e, p);
    PendingInNext(Base(n), current, overflow, cs, e, p);
  }

  lemma DueInEpoch(c: nat, p: U32, n: nat)
    requires c <= n < c + W32
    ensures Rightly(c + p, n).ThisEpoch? ==> c + p == Base(n) + (c + p) % W32
    ensures Rightly(c + p, n).NextEpoch? ==> c + p == Base(n) + W32 + (c + p) % W32
  {
    Offset(c, p);
    Offset(c, n - c);
  }

  /** The followed timer is another one: inserting t does not touch it. */
  lemma PendingOtherInserted(base: nat, current: seq<Entry>, overflow: seq<Entry>, cs: seq<Command>, t: nat, due: int,
                             p: U32, e: Entry)
    requires Pending(base, current, overflow, cs, t, due, p) && e.owner != t
    ensures Pending(base, InsertByValue(current, e), overflow, cs, t, due, p)
    ensures Pending(base, current, InsertByValue(overflow, e), cs, t, due, p)
  {
    InsertMembers(current, e);
    InsertMembers(overflow, e);
    hide InsertByValue;
    hide Pending;
    PendingOthers(base, current, overflow, cs, t, due, p, InsertByValue(current, e), overflow, cs);
    PendingOthers(base, current, overflow, cs, t, due, p, current, InsertByValue(overflow, e), cs);
  }

  /** Both cases together: f is the followed timer, next due at due with period q. */
  lemma FollowedInserted(n: nat, current: seq<Entry>, overflow: seq<Entry>, cs: seq<Command>, t: nat, next: U32,
                         timeNow: U32, command: U32, p: U32, c: nat, f: nat, due: int, q: U32, current2: seq<Entry>,
                         overflow2: seq<Entry>, d: Decision)
    requires p > 0 && next == Unsigned32(command + p) && timeNow == n % W32 && d == Decide(next, timeNow, command, p)
    requires if t == f then Bare(current, overflow, cs, t) && c <= n < c + W32 && command == c % W32 && p == q
      else Pending(Base(n), current, overflow, cs, f, due, q)
    requires current2 == (if d.ThisEpoch? then InsertByValue(current, Entry(next, t)) else current)
    requires overflow2 == (if d.NextEpoch? then InsertByValue(overflow, Entry(next, t)) else overflow)
    ensures Owners(current2) + Owners(overflow2) <= Owners(current) + Owners(overflow) + {t}
    ensures d.ExpiredAlready? ==> current2 == current && overflow2 == overflow
    ensures t == f ==> (d.ExpiredAlready? <==> c + p <= n)
    ensures if t != f then Pending(Base(n), current2, overflow2, cs, f, due, q)
      else !d.ExpiredAlready? ==> Pending(Base(n), current2, overflow2, cs, f, c + p, q)
  {
    hide *;
    var e := Entry(next, t);
    InsertMembers(current, e);
    InsertMembers(overflow, e);
    if t == f {
      PendingInserted(n, current, overflow, cs, t, c, p);
      assert d.ExpiredAlready? <==> c + p <= n;
    } else {
      PendingOtherInserted(Base(n), current, overflow, cs, f, due, q, e);
    }
    match d
    case ExpiredAlready =>
    case ThisEpoch => assert overflow2 == overflow && Owners(current2) == Owners(current) + {t};
    case NextEpoch => assert current2 == current && Owners(overflow2) == Owners(overflow) + {t};
  }

  lemma PendingOtherRemoved(base: nat, current: seq<Entry>, overflow: seq<Entry>, cs: seq<Command>, t: nat, due: int,
                            p: U32, u: nat)
    requires ListsOk(current, overflow) && Pending(base, current, overflow, cs, t, due, p) && u != t
    ensures Pending(base, RemoveOwner(current, u), RemoveOwner(overflow, u), cs, t, due, p)
  {
    RemoveMembers(current, u);
    RemoveMembers(overflow, u);
    hide Pending;
    PendingOthers(base, current, overflow, cs, t, due, p, RemoveOwner(current, u), RemoveOwner(overflow, u), cs);
  }

  /** Commands name timers that exist, and never ask for a period of 0. */
  ghost predicate CommandsKnown(cs: seq<Command>, ks: set<nat>) {
    forall c :: c in cs ==> c.timer in ks && (c.ChangePeriod? ==> c.period > 0)
  }

  ghost predicate ReactionsKnown(reactions: Reactions, ks: set<nat>) {
    forall t, n :: CommandsKnown(reactions(t, n), ks)
  }

  ghost predicate ReactionsAvoid(reactions: Reactions, u: nat) {
    forall t, n :: Concerning(reactions(t, n), u) == []
  }

  ghost predicate PeriodsPositive(timers: map<nat, Timer>) {
    forall t :: t in timers ==> timers[t].period > 0
  }

  lemma Sent(base: nat, current: seq<Entry>, overflow: seq<Entry>, cs: seq<Command>, t: nat, due: int, p: U32,
             c: Command)
    ensures Pending(base, current, overflow, cs, t, due, p) && c.timer != t
      ==> Pending(base, current, overflow, cs + [c], t, due, p)
  {
    ConcerningAppend(cs, [c], t);
  }

  lemma CommandsGrow(cs: seq<Command>, c: Command, ks: set<nat>)
    requires CommandsKnown(cs, ks) && c.timer in ks && c.Start?
    ensures CommandsKnown(cs + [c], ks)
  {
  }

  lemma FirstKnown(cs: seq<Command>, ks: set<nat>)
    requires CommandsKnown(cs, ks) && cs != []
    ensures cs[0].timer in ks && (cs[0].ChangePeriod? ==> cs[0].period > 0) && CommandsKnown(cs[1..], ks)
  {
  }

  /** A queued command for a timer that has exactly one thing pending is that one thing. */
  lemma CommandMeansQueued(base: nat, current: seq<Entry>, overflow: seq<Entry>, cs: seq<Command>, t: nat, due: int,
                           p: U32)
    requires Pending(base, current, overflow, cs, t, due, p) && cs != [] && cs[0].timer == t
    ensures t !in Owners(current) && t !in Owners(overflow) && due >= p && cs[0] == Start(t, (due - p) % W32)
  {
    var mine := Concerning(cs, t);
    assert mine == [cs[0]] + Concerning(cs[1..], t);
    assert mine != [] && mine[0] == cs[0];
  }

  /** Taking the first command's timer off the lists: f is the followed timer. */
  lemma CommandTaken(base: nat, current: seq<Entry>, overflow: seq<Entry>, cs: seq<Command>, f: nat, due: int, q: U32)
    requires ListsOk(current, overflow) && cs != [] && Pending(base, current, overflow, cs, f, due, q)
    ensures var t := cs[0].timer;
      && ListsOk(RemoveOwner(current, t), RemoveOwner(overflow, t))
      && Pending(base, RemoveOwner(current, t), RemoveOwner(overflow, t), cs, f, due, q)
      && Owners(RemoveOwner(current, t)) == Owners(current) - {t}
      && Owners(RemoveOwner(overflow, t)) == Owners(overflow) - {t}
  {
    var t := cs[0].timer;
    ListsRemove(current, overflow, t);
    ListsRemove(RemoveOwner(current, t), overflow, t);
    if t == f {
      CommandMeansQueued(base, current, overflow, cs, t, due, q);
    } else {
      PendingOtherRemoved(base, current, overflow, cs, f, due, q, t);
    }
  }

  lemma RemovedNothing(current: seq<Entry>, overflow: seq<Entry>, t: nat)
    ensures current == [] ==> RemoveOwner(current, t) == []
    ensures overflow == [] ==> RemoveOwner(overflow, t) == []
  {
  }

  lemma HandEmptied(base: nat, current: seq<Entry>, overflow: seq<Entry>, c: Command, cs: seq<Command>, due: int,
                    p: U32)
    requires Pending(base, current, overflow, [c] + cs, c.timer, due, p)
    ensures due >= p && c == Start(c.timer, (due - p) % W32) && Bare(current, overflow, cs, c.timer)
  {
    var all := [c] + cs;
    assert all[0] == c && all[1..] == cs;
    assert Concerning(all, c.timer) == [c] + Concerning(cs, c.timer);
    assert |Concerning(all, c.timer)| > 0;
    assert Concerning(all, c.timer)[0] == c && |Concerning(all, c.timer)| == 1;
  }

  lemma CommandIsStart(base: nat, current: seq<Entry>, overflow: seq<Entry>, cs: seq<Command>, t: nat, due: int, p: U32)
    requires Pending(base, current, overflow, [] + cs, t, due, p) && cs != []
    ensures cs[0].timer == t ==> cs[0].Start? && t !in Owners(current) && t !in Owners(overflow)
  {
    assert [] + cs == cs;
    if cs[0].timer == t {
      CommandMeansQueued(base, current, overflow, cs, t, due, p);
    }
  }

  lemma DropOther(base: nat, current: seq<Entry>, overflow: seq<Entry>, c: Command, cs: seq<Command>, t: nat, due: int,
                  p: U32)
    requires Pending(base, current, overflow, [c] + cs, t, due, p) && c.timer != t
    ensures Pending(base, current, overflow, [] + cs, t, due, p)
  {
    var all := [c] + cs;
    assert all[0] == c && all[1..] == cs && [] + cs == cs;
  }

  lemma PositivePeriod(timers: map<nat, Timer>, t: nat)
    requires PeriodsPositive(timers) && t in timers
    ensures timers[t].period > 0
  {
  }

  /** The reload value grows, unless it wraps. */
  lemma Reloads(v: U32, p: U32)
    requires p > 0
    ensures Unsigned32(v + p) > v <==> v + p < W32
    ensures v + p < W32 ==> Unsigned32(v + p) == v + p
  {
  }

  lemma ReloadFollowed(base: nat, current: seq<Entry>, overflow: seq<Entry>, cs: seq<Command>, e: Entry, f: nat,
                       due: int, p: U32, q: U32)
    requires ListsOk(current, overflow) && e.owner !in Owners(current) && e.owner !in Owners(overflow)
    requires if e.owner == f then Bare(current, overflow, cs, f) else Pending(base, current, overflow, cs, f, due, q)
    ensures ListsOk(InsertByValue(current, e), overflow)
      && Owners(InsertByValue(current, e)) == Owners(current) + {e.owner}
    ensures Pending(base, InsertByValue(current, e), overflow, cs, f, if e.owner == f then base + e.value else due, q)
    ensures Slack(InsertByValue(current, e)) == Slack(current) + W32 - e.value
  {
    hide *;
    SlackInsert(current, e);
    InsertMembers(current, e);
    ListsInsert(current, overflow, e);
    if e.owner == f {
      PendingInThis(base, current, overflow, cs, e, q);
    } else {
      PendingOtherInserted(base, current, overflow, cs, f, due, q, e);
    }
  }

  lemma Quieter(base: nat, current: seq<Entry>, overflow: seq<Entry>, cs: seq<Command>, cs2: seq<Command>, t: nat,
                due: int, p: U32)
    requires Concerning(cs2, t) == Concerning(cs, t)
    ensures Bare(current, overflow, cs, t) == Bare(current, overflow, cs2, t)
    ensures Pending(base, current, overflow, cs, t, due, p) == Pending(base, current, overflow, cs2, t, due, p)
  {
  }

  lemma Swapped(base: nat, overflow: seq<Entry>, cs: seq<Command>, t: nat, due: int, p: U32)
    requires Pending(base, [], overflow, cs, t, due, p)
    ensures Pending(base + W32, overflow, [], cs, t, due, p)
    ensures forall cur: seq<Entry> :: cur == [] && ListsOk(cur, overflow) ==> ListsOk(overflow, cur)
  {
  }

  lemma NextEpochBase(m: nat, n: nat)
    requires m <= n
    ensures n % W32 < m % W32 ==> Base(m) + W32 <= n
    ensures n < m + W32 ==> Base(n) == if n % W32 < m % W32 then Base(m) + W32 else Base(m)
  {
  }

  lemma AnyBase(base: nat, base2: nat, cs: seq<Command>, t: nat, due: int, p: U32)
    requires Pending(base, [], [], cs, t, due, p)
    ensures Pending(base2, [], [], cs, t, due, p)
  {
  }

  /** When nothing in the current list is due and no command is queued, the timer is due in the future. */
  lemma IdleMeansFuture(n: nat, current: seq<Entry>, overflow: seq<Entry>, cs: seq<Command>, t: nat, due: int, p: U32)
    requires ListsOk(current, overflow) && (current != [] ==> current[0].value > n % W32)
    requires Pending(Base(n), current, overflow, cs, t, due, p) && Concerning(cs, t) == []
    ensures due > n
  {
    if t in Owners(current) {
      var e :| e in current && e.owner == t && due == Base(n) + e.value;
      var i :| 0 <= i < |current| && current[i] == e;
      assert current[0].value <= current[i].value;
    }
  }

  lemma ListsSorted(current: seq<Entry>, overflow: seq<Entry>)
    ensures ListsOk(current, overflow) ==> SortedByValue(current)
  {
  }

  /** The least value in a list. */
  ghost predicate Least(s: seq<Entry>, v: U32)
  {
    (exists e :: e in s && e.value == v) && forall e :: e in s ==> v <= e.value
  }

  /** The least value of a sorted list is that of its head. */
  lemma LeastIsHead(current: seq<Entry>, overflow: seq<Entry>, empty: bool, next: U32)
    requires ListsOk(current, overflow) && if empty then Owners(current) == {} else Least(current, next)
    ensures if empty then current == [] else current != [] && next == current[0].value
  {
    HeadOwner(current);
    if !empty {
      var i :| 0 <= i < |current| && current[i].value == next;
    }
  }

  lemma Updated(timers: map<nat, Timer>, t: nat, p: U32)
    requires PeriodsPositive(timers) && t in timers && p > 0
    ensures forall a: bool ::
      var m := timers[t := timers[t].(period := p, active := a)]; PeriodsPositive(m) && m.Keys == timers.Keys
  {
  }

  // ----- what one step does to every timer -----

  /** What the daemon works on; fired are the timers whose callbacks have run, in order. */
  datatype View = View(current: seq<Entry>, overflow: seq<Entry>, commands: seq<Command>, timers: map<nat, Timer>,
                       callbacks: nat, fired: seq<nat>)

  type Reactions = (nat, nat) -> seq<Command>

  /** The callback of timer t runs, and the commands sent are added to the queue. */
  ghost predicate CallsBack(p: View, q: View, t: nat, sent: seq<Command>) {
    q.callbacks == p.callbacks + 1 && q.fired == p.fired + [t] && q.commands == p.commands + sent
  }

  lemma SentBefore(p: View, m: View, q: View, t: nat, first: seq<Command>, sent: seq<Command>)
    requires CallsBack(m, q, t, sent)
    requires m.callbacks == p.callbacks && m.fired == p.fired && m.commands == p.commands + first
    ensures CallsBack(p, q, t, first + sent)
  {
  }

  lemma SentAfter(p: View, m: View, q: View, t: nat, sent: seq<Command>, last: seq<Command>)
    requires CallsBack(p, m, t, sent)
    requires q.callbacks == m.callbacks && q.fired == m.fired && q.commands == m.commands + last
    ensures CallsBack(p, q, t, sent + last)
  {
  }

  ghost predicate Quiet(p: View, q: View) {
    q.callbacks == p.callbacks && q.fired == p.fired && q.commands == p.commands
  }

  /** Timer t has gone where the decision names. */
  ghost predicate Placed(current: seq<Entry>, overflow: seq<Entry>, current2: seq<Entry>, overflow2: seq<Entry>,
                         d: Decision, e: Entry)
  {
    && current2 == (if d.ThisEpoch? then InsertByValue(current, e) else current)
    && overflow2 == (if d.NextEpoch? then InsertByValue(overflow, e) else overflow)
  }

  /** The first timer of the current list has expired: it is called back, and re-armed exactly if it is auto-reload. */
  ghost predicate Expires(p: View, q: View, reactions: Reactions, timeNow: U32) {
    p.current != [] && p.current[0].owner in p.timers &&
    var e, x := p.current[0], p.timers[p.current[0].owner];
    var next := Unsigned32(e.value + x.period);
    var d := Decide(next, timeNow, e.value, x.period);
    if x.autoReload then
      && Placed(p.current[1..], p.overflow, q.current, q.overflow, d, Entry(next, e.owner)) && q.timers == p.timers
      && CallsBack(p, q, e.owner,
                   (if d.ExpiredAlready? then [Start(e.owner, e.value)] else []) + reactions(e.owner, p.callbacks))
    else
      && q.current == p.current[1..] && q.overflow == p.overflow && q.timers == p.timers[e.owner := x.(active := false)]
      && CallsBack(p, q, e.owner, reactions(e.owner, p.callbacks))
  }

  /** An expired one-shot timer is called back once, is inactive, and on neither list. */
  lemma OneShotEnds(p: View, q: View, reactions: Reactions, timeNow: U32)
    requires ListsOk(p.current, p.overflow) && Expires(p, q, reactions, timeNow)
    requires !p.timers[p.current[0].owner].autoReload
    ensures var t := p.current[0].owner;
      && t !in Owners(q.current) && t !in Owners(q.overflow) && t in q.timers && !q.timers[t].active
      && q.fired == p.fired + [t] && q.commands == p.commands + reactions(t, p.callbacks)
  {
    var t := p.current[0].owner;
    HeadIn(p.current);
    ListsRemove(p.current, p.overflow, t);
    assert RemoveOwner(p.current, t) == p.current[1..];
    assert t in Owners(p.current);
  }

  /**
   * The first timer of the list being drained is called back and, if it is auto-reload, goes back into
   * the list or, if the next expiry lies behind the wrap, is restarted by a command.
   */
  ghost predicate Drains(p: View, q: View, reactions: Reactions) {
    p.current != [] && p.current[0].owner in p.timers &&
    var e, x := p.current[0], p.timers[p.current[0].owner];
    var again := x.autoReload && e.value + x.period < W32;
    && q.current == (if again then InsertByValue(p.current[1..], Entry(e.value + x.period, e.owner))
                     else p.current[1..])
    && q.overflow == p.overflow && q.timers == p.timers
    && CallsBack(p, q, e.owner,
                 reactions(e.owner, p.callbacks) + if x.autoReload && !again then [Start(e.owner, e.value)] else [])
  }

  /** A timer taken off the list being drained is called back and then re-armed. */
  lemma DrainsIf(p: View, m: View, a: View, q: View, reactions: Reactions)
    requires p.current != [] && p.current[0].owner in p.timers
    requires m == p.(current := p.current[1..])
    requires a.timers == m.timers && a.current == m.current && a.overflow == m.overflow
    requires var t := p.current[0].owner; CallsBack(m, a, t, reactions(t, m.callbacks))
    requires q.overflow == a.overflow && q.timers == a.timers && q.callbacks == a.callbacks && q.fired == a.fired
    requires var e, x := p.current[0], p.timers[p.current[0].owner];
      if x.autoReload && e.value + x.period < W32
      then q.current == InsertByValue(a.current, Entry(e.value + x.period, e.owner)) && q.commands == a.commands
      else if x.autoReload then q.current == a.current && q.commands == a.commands + [Start(e.owner, e.value)]
      else q.current == a.current && q.commands == a.commands
    ensures Drains(p, q, reactions)
  {
    var t := p.current[0].owner;
    hide InsertByValue;
    assert reactions(t, p.callbacks) + [] == reactions(t, p.callbacks);
    assert a.commands + [] == a.commands;
  }

  /** The timer of the entry e, which has expired, is armed for its next period or marked as inactive. */
  ghost predicate Rearms(p: View, q: View, e: Entry, timeNow: U32) {
    e.owner in p.timers && q.callbacks == p.callbacks && q.fired == p.fired &&
    var x := p.timers[e.owner];
    var next := Unsigned32(e.value + x.period);
    var d := Decide(next, timeNow, e.value, x.period);
    if x.autoReload then
      && Placed(p.current, p.overflow, q.current, q.overflow, d, Entry(next, e.owner)) && q.timers == p.timers
      && q.commands == p.commands + if d.ExpiredAlready? then [Start(e.owner, e.value)] else []
    else q == p.(timers := p.timers[e.owner := x.(active := false)])
  }

  /** An expired timer is taken off the list, re-armed if it is auto-reload, and called back. */
  lemma ExpiresIf(p: View, m: View, a: View, q: View, reactions: Reactions, timeNow: U32)
    requires p.current != [] && p.current[0].owner in p.timers
    requires m == p.(current := p.current[1..]) && Rearms(m, a, p.current[0], timeNow)
    requires q.current == a.current && q.overflow == a.overflow && q.timers == a.timers
    requires var t := p.current[0].owner; CallsBack(a, q, t, reactions(t, a.callbacks))
    ensures Expires(p, q, reactions, timeNow)
  {
    hide InsertByValue;
    hide Decide;
    hide Unsigned32;
    var e, x := p.current[0], p.timers[p.current[0].owner];
    if x.autoReload {
      var d := Decide(Unsigned32(e.value + x.period), timeNow, e.value, x.period);
      var first := if d.ExpiredAlready? then [Start(e.owner, e.value)] else [];
      SentBefore(p, a, q, e.owner, first, reactions(e.owner, p.callbacks));
    }
  }

  /** A start command stamped with the given time arms timer t, or calls it back if it has expired already. */
  ghost predicate Starts(p: View, q: View, reactions: Reactions, t: nat, value: U32, timeNow: U32) {
    t in p.timers && q.timers == p.timers &&
    var x := p.timers[t];
    var next := Unsigned32(value + x.period);
    var d := Decide(next, timeNow, value, x.period);
    && Placed(p.current, p.overflow, q.current, q.overflow, d, Entry(next, t))
    && if d.ExpiredAlready?
       then CallsBack(p, q, t, reactions(t, p.callbacks) + if x.autoReload then [Start(t, next)] else [])
       else Quiet(p, q)
  }

  lemma StartsIf(p: View, m: View, a: View, q: View, reactions: Reactions, t: nat, value: U32, timeNow: U32)
    requires t in p.timers && m.timers == a.timers == q.timers == p.timers && Quiet(p, m)
    requires var x, next := p.timers[t], Unsigned32(value + p.timers[t].period);
      var d := Decide(next, timeNow, value, x.period);
      && Placed(p.current, p.overflow, m.current, m.overflow, d, Entry(next, t))
      && q.current == a.current == m.current && q.overflow == a.overflow == m.overflow
      && if d.ExpiredAlready?
         then && CallsBack(m, a, t, reactions(t, m.callbacks)) && q.callbacks == a.callbacks && q.fired == a.fired
              && if x.autoReload then q.commands == a.commands + [Start(t, next)] else q.commands == a.commands
         else q == m
    ensures Starts(p, q, reactions, t, value, timeNow)
  {
    hide Decide;
    hide Placed;
    hide Unsigned32;
    var x, next := p.timers[t], Unsigned32(value + p.timers[t].period);
    var sent := reactions(t, p.callbacks);
    assert sent + [] == sent && a.commands + [] == a.commands;
    if Decide(next, timeNow, value, x.period).ExpiredAlready? {
      SentAfter(m, a, q, t, sent, if x.autoReload then [Start(t, next)] else []);
    }
  }

  lemma NextStamp(value: U32, stamp: nat, p: U32)
    requires value == stamp % W32
    ensures Unsigned32(value + p) == (stamp + p) % W32
  {
    Offset(stamp, p);
  }

  /** A command is carried out on its timer, which has been taken off the lists. */
  ghost predicate CarriesOut(p: View, q: View, reactions: Reactions, c: Command, timeNow: U32) {
    c.timer in p.timers &&
    var t, x := c.timer, p.timers[c.timer];
    match c
    case Start(_, value) => Starts(p.(timers := p.timers[t := x.(active := true)]), q, reactions, t, value, timeNow)
    case Stop(_) => q == p.(timers := p.timers[t := x.(active := false)])
    case Delete(_) => q == p.(timers := p.timers[t := x.(active := false)])
    case ChangePeriod(_, period) =>
      && q.timers == p.timers[t := x.(active := true, period := period)] && Quiet(p, q)
      && Placed(p.current, p.overflow, q.current, q.overflow, if timeNow + period < W32 then ThisEpoch else NextEpoch,
                Entry(Unsigned32(timeNow + period), t))
  }

  /** A period counted from now on never has expired already. */
  lemma FromNow(timeNow: U32, period: U32)
    requires period > 0
    ensures Decide(Unsigned32(timeNow + period), timeNow, timeNow, period)
         == if timeNow + period < W32 then ThisEpoch else NextEpoch
  {
  }

  /** The lists are switched: all timers of the current list are called back as often as is left. */
  ghost predicate Switches(p: View, q: View) {
    && q.current == p.overflow && q.overflow == [] && q.timers == p.timers
    && p.commands <= q.commands && p.fired <= q.fired && q.callbacks - p.callbacks == |q.fired| - |p.fired|
    && forall u :: u in p.timers ==> multiset(q.fired)[u] == multiset(p.fired)[u] + Left(p.current, p.timers, u)
  }

  /** What is left after taking a command off the queue, and its timer off the lists. */
  function Received(p: View): View
    requires p.commands != []
  {
    var t := p.commands[0].timer;
    p.(commands := p.commands[1..], current := RemoveOwner(p.current, t), overflow := RemoveOwner(p.overflow, t))
  }

  /** How often a timer due at v of this epoch is called back before the epoch ends. */
  function CallsLeft(v: U32, x: Timer): nat
    requires x.period > 0
  {
    if x.autoReload then (W32 - 1 - v) / x.period + 1 else 1
  }

  /** The same for timer u of a list. */
  ghost function Left(s: seq<Entry>, timers: map<nat, Timer>, u: nat): nat {
    if s == [] || u !in timers || timers[u].period == 0 then 0
    else (if s[0].owner == u then CallsLeft(s[0].value, timers[u]) else 0) + Left(s[1..], timers, u)
  }

  lemma {:induction false} LeftAppend(a: seq<Entry>, b: seq<Entry>, timers: map<nat, Timer>, u: nat)
    ensures Left(a + b, timers, u) == Left(a, timers, u) + Left(b, timers, u)
  {
    if a == [] {
      assert a + b == b;
    } else {
      assert (a + b)[1..] == a[1..] + b;
      LeftAppend(a[1..], b, timers, u);
    }
  }

  lemma LeftInsert(s: seq<Entry>, e: Entry, timers: map<nat, Timer>, u: nat)
    requires u in timers && timers[u].period > 0
    ensures Left(InsertByValue(s, e), timers, u)
         == Left(s, timers, u) + if e.owner == u then CallsLeft(e.value, timers[u]) else 0
  {
    var k := Place(Values(s), e.value);
    LeftAppend(s[..k], [e] + s[k..], timers, u);
    LeftAppend([e], s[k..], timers, u);
    LeftAppend(s[..k], s[k..], timers, u);
    assert Left([e], timers, u) == if e.owner == u then CallsLeft(e.value, timers[u]) else 0;
    assert s == s[..k] + s[k..];
    assert InsertByValue(s, e) == s[..k] + ([e] + s[k..]);
  }

  /** One period on, one call fewer is left. */
  lemma OneCallFewer(v: U32, x: Timer)
    requires x.period > 0
    ensures x.autoReload && v + x.period < W32 ==> CallsLeft(v, x) == 1 + CallsLeft(v + x.period, x)
    ensures !(x.autoReload && v + x.period < W32) ==> CallsLeft(v, x) == 1
  {
    if x.autoReload {
      var n := W32 - 1 - v;
      if v + x.period < W32 {
        DivisionIs(n, x.period, (n - x.period) / x.period + 1, (n - x.period) % x.period);
      } else {
        DivisionIs(n, x.period, 0, n);
      }
    }
  }

  /** What has been called since, together with what is left, is what was left then. */
  ghost predicate Counted(fired0: seq<nat>, s0: seq<Entry>, fired: seq<nat>, s: seq<Entry>, timers: map<nat, Timer>) {
    forall u :: u in timers ==> multiset(fired)[u] + Left(s, timers, u) == multiset(fired0)[u] + Left(s0, timers, u)
  }

  lemma CountedMore(p0: View, p: View, q: View, reactions: Reactions)
    requires Drains(p, q, reactions) && PeriodsPositive(p.timers)
    requires Counted(p0.fired, p0.current, p.fired, p.current, p.timers)
    ensures Counted(p0.fired, p0.current, q.fired, q.current, p.timers)
  {
    forall u | u in p.timers
      ensures multiset(q.fired)[u] + Left(q.current, q.timers, u) == multiset(p.fired)[u] + Left(p.current, p.timers, u)
    {
      DrainCounts(p, q, reactions, u);
    }
    assert p.timers == q.timers;
    hide Drains;
  }

  lemma DrainsGrow(p: View, q: View, reactions: Reactions)
    requires Drains(p, q, reactions)
    ensures p.commands <= q.commands && p.fired <= q.fired && q.callbacks - p.callbacks == |q.fired| - |p.fired| == 1
  {
  }

  lemma CountedAll(p0: View, fired: seq<nat>, timers: map<nat, Timer>)
    ensures Counted(p0.fired, p0.current, p0.fired, p0.current, timers)
    ensures Counted(p0.fired, p0.current, fired, [], timers) ==>
      forall u :: u in timers ==> multiset(fired)[u] == multiset(p0.fired)[u] + Left(p0.current, timers, u)
  {
  }

  /** Draining one timer uses up one call. */
  lemma DrainCounts(p: View, q: View, reactions: Reactions, u: nat)
    requires Drains(p, q, reactions) && u in p.timers && PeriodsPositive(p.timers)
    ensures multiset(q.fired)[u] + Left(q.current, q.timers, u) == multiset(p.fired)[u] + Left(p.current, p.timers, u)
  {
    hide CallsLeft;
    hide InsertByValue;
    hide Left;
    var e, x := p.current[0], p.timers[p.current[0].owner];
    OneCallFewer(e.value, x);
    LeftFirst(p.current, p.timers, u);
    assert multiset(q.fired) == multiset(p.fired) + multiset{e.owner};
    if x.autoReload && e.value + x.period < W32 {
      LeftInsert(p.current[1..], Entry(e.value + x.period, e.owner), p.timers, u);
    }
  }

  lemma LeftFirst(s: seq<Entry>, timers: map<nat, Timer>, u: nat)
    requires s != [] && u in timers && timers[u].period > 0
    ensures Left(s, timers, u)
         == (if s[0].owner == u then CallsLeft(s[0].value, timers[u]) else 0) + Left(s[1..], timers, u)
  {
  }

  // ----- the daemon -----

  class TimerDaemon {
    /** Application code: the commands that callback number n, of timer t, sends. */
    const reactions: Reactions

    var lastTime: U32
    var current: seq<Entry>
    var overflow: seq<Entry>
    var commands: seq<Command>
    var timers: map<nat, Timer>
    var callbacks: nat

    /** Unbounded time of the last sample. */
    ghost var now: nat
    /** The timer that is followed, its start time, its next due time, and the due times of its callbacks so far. */
    ghost var tracked: nat
    ghost var started: nat
    ghost var due: nat
    ghost var calls: seq<nat>
    /** The command that has been received but not yet acted on. */
    ghost var inHand: seq<Command>
    /** The timers whose callbacks have run, in order. */
    ghost var fired: seq<nat>

    ghost function Seen(): View
      reads this
    {
      View(current, overflow, commands, timers, callbacks, fired)
    }

    ghost predicate Known()
      reads this
    {
      && Owners(current) + Owners(overflow) <= timers.Keys
      && CommandsKnown(commands, timers.Keys) && ReactionsKnown(reactions, timers.Keys) && PeriodsPositive(timers)
    }

    ghost predicate Shape()
      reads this
    {
      lastTime == now % W32 && ListsOk(current, overflow) && Known()
    }

    /** The application leaves the followed timer alone. */
    ghost predicate LeftAlone()
      reads this
    {
      tracked in timers && timers[tracked].autoReload && timers[tracked].period > 0
      && ReactionsAvoid(reactions, tracked)
    }

    /** Its callbacks so far, and its next one. */
    ghost predicate Follows(base: nat)
      reads this
    {
      && LeftAlone()
      && calls == Nominal(started, timers[tracked].period, |calls|)
      && due == DueAfter(started, timers[tracked].period, |calls|)
      && Pending(base, current, overflow, inHand + commands, tracked, due, timers[tracked].period)
    }

    ghost predicate Queued()
      reads this
    {
      tracked !in Owners(current) && tracked !in Owners(overflow)
    }

    /** The callback before the next was due by time n. */
    ghost predicate NotEarly(n: nat)
      reads this
    {
      tracked in timers && due - timers[tracked].period <= n
    }

    ghost predicate Sound()
      reads this
    {
      Shape() && Follows(Base(now)) && OnTime(now)
    }

    ghost predicate Valid()
      reads this
    {
      Sound() && inHand == []
    }

    /** The callback of timer t, which was due at the given time. */
    method Callback(t: nat, ghost nominal: nat)
      requires LeftAlone() && Known()
      modifies this`commands, this`callbacks, this`fired, this`calls, this`due
      ensures Known() && CallsBack(old(Seen()), Seen(), t, reactions(t, old(callbacks)))
      ensures Concerning(inHand + commands, tracked) == Concerning(old(inHand + commands), tracked)
      ensures if t == tracked then calls == old(calls) + [nominal] && due == old(due) + timers[tracked].period
        else calls == old(calls) && due == old(due)
    {
      ConcerningAppend(inHand + commands, reactions(t, callbacks), tracked);
      assert inHand + (commands + reactions(t, callbacks)) == (inHand + commands) + reactions(t, callbacks);
      commands := commands + reactions(t, callbacks);
      callbacks, fired := callbacks + 1, fired + [t];
      if t == tracked {
        calls, due := calls + [nominal], due + timers[tracked].period;
      }
    }

    /** prvInsertTimerInActiveList: true if the timer has expired already and goes into neither list. */
    method InsertTimer(t: nat, next: U32, timeNow: U32, commandTime: U32) returns (processNow: bool)
      requires t in timers && ListsOk(current, overflow) && t !in Owners(current) && t !in Owners(overflow)
      modifies this`current, this`overflow
      ensures ListsOk(current, overflow)
      ensures var d := Decide(next, timeNow, commandTime, timers[t].period);
        && processNow == d.ExpiredAlready?
        && current == (if d.ThisEpoch? then InsertByValue(old(current), Entry(next, t)) else old(current))
        && overflow == (if d.NextEpoch? then InsertByValue(old(overflow), Entry(next, t)) else old(overflow))
    {
      ListsInsert(current, overflow, Entry(next, t));
      hide ListsOk;
      hide InsertByValue;
      processNow := false;
      if next <= timeNow {
        if Unsigned32(timeNow - commandTime) >= timers[t].period {
          processNow := true;
        } else {
          overflow := InsertByValue(overflow, Entry(next, t));
        }
      } else {
        if timeNow < commandTime && next >= commandTime {
          processNow := true;
        } else {
          current := InsertByValue(current, Entry(next, t));
        }
      }
    }

    /** What is pending for the followed timer, next due at d. */
    ghost predicate PendingAt(base: nat, d: int)
      requires tracked in timers
      reads this
    {
      Pending(base, current, overflow, inHand + commands, tracked, d, timers[tracked].period)
    }

    /** The first entry of the current list is removed. */
    method TakeFirst(ghost base: nat) returns (t: nat)
      requires Known() && ListsOk(current, overflow) && LeftAlone() && PendingAt(base, due) && current != []
      modifies this`current
      ensures t == old(current[0].owner) && current == old(current[1..])
        && Owners(current) + {t} == Owners(old(current))
      ensures Known() && ListsOk(current, overflow) && LeftAlone() && t in timers
      ensures t !in Owners(current) && t !in Owners(overflow)
      ensures if t == tracked then Bare(current, overflow, inHand + commands, t) && due == base + old(current[0].value)
        else PendingAt(base, due)
    {
      hide Pending;
      hide ListsOk;
      hide CommandsKnown;
      hide ReactionsKnown;
      hide ReactionsAvoid;
      hide PeriodsPositive;
      t := current[0].owner;
      HeadIn(current);
      ListsRemove(current, overflow, t);
      assert RemoveOwner(current, t) == current[1..];
      assert t in Owners(current);
      if t == tracked {
        PendingTaken(base, current, overflow, inHand + commands, current[0], due, timers[tracked].period);
      } else {
        PendingOtherRemoved(base, current, overflow, inHand + commands, tracked, due, timers[tracked].period, t);
      }
      current := current[1..];
    }

    /** prvInsertTimerInActiveList for a command given at time c, seen on the unbounded clock. */
    method InsertFollowed(t: nat, next: U32, timeNow: U32, commandTime: U32, ghost c: nat, ghost base: nat)
      returns (processNow: bool)
      requires Known() && ListsOk(current, overflow) && LeftAlone() && t in timers
      requires t !in Owners(current) && t !in Owners(overflow) && base == Base(now) && timeNow == now % W32
      requires if t == tracked
        then Bare(current, overflow, inHand + commands, t) && c <= now < c + W32 && commandTime == c % W32
        else PendingAt(base, due)
      requires next == Unsigned32(commandTime + timers[t].period)
      modifies this`current, this`overflow
      ensures Known() && ListsOk(current, overflow)
      ensures t == tracked ==> (processNow <==> c + timers[t].period <= now)
      ensures var d := Decide(next, timeNow, commandTime, timers[t].period);
        processNow == d.ExpiredAlready? && Placed(old(current), old(overflow), current, overflow, d, Entry(next, t))
      ensures processNow ==> current == old(current) && overflow == old(overflow)
      ensures if t != tracked then PendingAt(base, due)
        else if processNow then Bare(current, overflow, inHand + commands, t) else PendingAt(base, c + timers[t].period)
    {
      hide Pending;
      hide Concerning;
      hide Bare;
      hide ListsOk;
      hide CommandsKnown;
      hide ReactionsKnown;
      hide ReactionsAvoid;
      hide Base;
      PositivePeriod(timers, t);
      hide PeriodsPositive;
      hide Owners;
      hide Decide;
      hide Unsigned32;
      hide InsertByValue;
      ghost var cur, ovf, p, q := current, overflow, timers[t].period, timers[tracked].period;
      ghost var d := Decide(next, timeNow, commandTime, p);
      processNow := InsertTimer(t, next, timeNow, commandTime);
      FollowedInserted(now, cur, ovf, inHand + commands, t, next, timeNow, commandTime, p, c, tracked, due, q, current,
        overflow, d);
    }

    /** xTimerGenericCommand: a start command stamped c goes to the back of the queue. */
    method SendStart(t: nat, value: U32, ghost c: nat, ghost base: nat)
      requires Known() && LeftAlone() && t in timers
      requires if t == tracked then Bare(current, overflow, inHand + commands, t) && value == c % W32
        else PendingAt(base, due)
      modifies this`commands
      ensures Known() && PendingAt(base, if t == tracked then c + timers[tracked].period else due)
      ensures commands == old(commands) + [Start(t, value)]
    {
      hide ReactionsKnown;
      hide ReactionsAvoid;
      hide PeriodsPositive;
      ghost var p := timers[tracked].period;
      Sent(base, current, overflow, inHand + commands, tracked, due, p, Start(t, value));
      assert inHand + (commands + [Start(t, value)]) == (inHand + commands) + [Start(t, value)];
      if t == tracked {
        PendingQueued(base, current, overflow, inHand + commands, t, c, p);
      }
      CommandsGrow(commands, Start(t, value), timers.Keys);
      hide Pending;
      hide Concerning;
      hide CommandsKnown;
      commands := commands + [Start(t, value)];
    }

    /** The tracked timer's callback count and due times move on by one. */
    method Fire(t: nat, ghost base: nat)
      requires LeftAlone() && Known() && calls == Nominal(started, timers[tracked].period, |calls|)
      requires due == DueAfter(started, timers[tracked].period, |calls|)
      requires PendingAt(base, if t == tracked then due + timers[tracked].period else due)
      modifies this`commands, this`callbacks, this`fired, this`calls, this`due
      ensures Known() && Follows(base) && CallsBack(old(Seen()), Seen(), t, reactions(t, old(callbacks)))
      ensures if t == tracked then calls == old(calls) + [old(due)] && due == old(due) + timers[tracked].period
        else calls == old(calls) && due == old(due)
    {
      hide Concerning;
      hide CommandsKnown;
      hide PeriodsPositive;
      NextNominal(started, timers[tracked].period, |calls|);
      ghost var cs := inHand + commands;
      Callback(t, due);
      hide ReactionsKnown;
      hide ReactionsAvoid;
      hide Nominal;
      hide DueAfter;
      PendingOthers(base, current, overflow, cs, tracked, due, timers[tracked].period, current, overflow,
        inHand + commands);
    }

    /** The reload in prvProcessExpiredTimer, or the end of a one-shot timer; c is when the timer was due. */
    method RearmExpired(t: nat, nextExpire: U32, timeNow: U32, ghost c: nat, ghost base: nat)
      requires Known() && ListsOk(current, overflow) && LeftAlone() && t in timers
      requires t !in Owners(current) && t !in Owners(overflow) && base == Base(now) && timeNow == now % W32
      requires c <= now < c + W32 && nextExpire == c % W32
      requires if t == tracked then Bare(current, overflow, inHand + commands, t) && due == c else PendingAt(base, due)
      modifies this`current, this`overflow, this`commands, this`timers
      ensures Known() && ListsOk(current, overflow) && LeftAlone() && timers[tracked] == old(timers[tracked])
      ensures PendingAt(base, if t == tracked then due + timers[tracked].period else due)
      ensures Rearms(old(Seen()), Seen(), Entry(nextExpire, t), timeNow)
    {
      hide Pending;
      hide Concerning;
      hide Bare;
      hide ListsOk;
      hide CommandsKnown;
      hide ReactionsKnown;
      hide ReactionsAvoid;
      hide PeriodsPositive;
      hide Owners;
      hide Base;
      hide InsertByValue;
      hide Decide;
      hide Unsigned32;
      hide Placed;
      if timers[t].autoReload {
        var processNow := InsertFollowed(t, Unsigned32(nextExpire + timers[t].period), timeNow, nextExpire, c, base);
        if processNow {
          SendStart(t, nextExpire, c, base);
        }
      } else {
        PositivePeriod(timers, t);
        Updated(timers, t, timers[t].period);
        timers := timers[t := timers[t].(active := false)];
      }
    }

    /** prvProcessExpiredTimer on the first entry of the current list, which is due. */
    method ProcessExpired(nextExpire: U32, timeNow: U32)
      requires Valid() && NotEarly(now) && current != []
      requires nextExpire == current[0].value && nextExpire <= timeNow && timeNow == lastTime
      modifies this
      ensures Valid() && NotEarly(now) && now == old(now) && tracked == old(tracked) && started == old(started)
      ensures Expires(old(Seen()), Seen(), reactions, timeNow) && lastTime == old(lastTime)
      ensures if old(current[0].owner) == tracked then calls == old(calls) + [old(due)] && old(due) <= now
        else calls == old(calls)
    {
      hide Pending;
      hide Concerning;
      hide Bare;
      hide ListsOk;
      hide CommandsKnown;
      hide ReactionsKnown;
      hide ReactionsAvoid;
      hide PeriodsPositive;
      hide Nominal;
      hide DueAfter;
      hide Owners;
      hide Base;
      hide InsertByValue;
      hide CallsBack;
      hide Rearms;
      hide Expires;
      ghost var base, c := Base(now), Base(now) + nextExpire;
      EpochTime(now, nextExpire);
      ghost var p := Seen();
      var t := TakeFirst(base);
      ghost var m := Seen();
      RearmExpired(t, nextExpire, timeNow, c, base);
      ghost var a := Seen();
      Fire(t, base);
      ExpiresIf(p, m, a, Seen(), reactions, timeNow);
    }

    /** All callbacks so far were due by time n, unless the first start has not been processed yet. */
    ghost predicate OnTime(n: nat)
      reads this
    {
      NotEarly(n) || (calls == [] && Queued())
    }

    /** Re-arming in prvSwitchTimerLists: into the list being drained, or by a command if the value wraps. */
    method Reload(t: nat, next: U32, ghost base: nat)
      requires Known() && ListsOk(current, overflow) && LeftAlone() && t in timers
      requires t !in Owners(current) && t !in Owners(overflow)
      requires if t == tracked then Bare(current, overflow, inHand + commands, t) && (base + next) % W32 == next
        else PendingAt(base, due)
      modifies this`current, this`commands
      ensures Known() && ListsOk(current, overflow) && LeftAlone()
      ensures PendingAt(base, if t == tracked then base + next + timers[t].period else due)
      ensures Owners(current) <= Owners(old(current)) + {t}
      ensures Slack(current) <= Slack(old(current)) + W32 - next - 1
      ensures if next + timers[t].period < W32
        then current == InsertByValue(old(current), Entry(next + timers[t].period, t)) && commands == old(commands)
        else current == old(current) && commands == old(commands) + [Start(t, next)]
    {
      hide Pending;
      hide Concerning;
      hide Bare;
      hide ListsOk;
      hide CommandsKnown;
      hide ReactionsKnown;
      hide ReactionsAvoid;
      hide PeriodsPositive;
      hide Slack;
      hide InsertByValue;
      hide Owners;
      var p := timers[t].period;
      PositivePeriod(timers, t);
      var reload := Unsigned32(next + p);
      Reloads(next, p);
      hide Unsigned32;
      if reload > next {
        ReloadFollowed(base, current, overflow, inHand + commands, Entry(reload, t), tracked, due, p,
          timers[tracked].period);
        current := InsertByValue(current, Entry(reload, t));
      } else {
        SendStart(t, next, base + next, base);
      }
    }

    /** The callback of a timer that has been taken off the lists; nothing is pending for it yet. */
    method CallOverdue(t: nat, ghost base: nat, ghost value: U32)
      requires Known() && LeftAlone() && t in timers
      requires calls == Nominal(started, timers[tracked].period, |calls|)
      requires due == DueAfter(started, timers[tracked].period, |calls|)
      requires if t == tracked then Bare(current, overflow, inHand + commands, t) && due == base + value
        else PendingAt(base, due)
      modifies this`commands, this`callbacks, this`fired, this`calls, this`due
      ensures Known() && calls == Nominal(started, timers[tracked].period, |calls|)
      ensures due == DueAfter(started, timers[tracked].period, |calls|)
      ensures CallsBack(old(Seen()), Seen(), t, reactions(t, old(callbacks)))
      ensures if t == tracked
        then Bare(current, overflow, inHand + commands, t) && due == base + value + timers[t].period
          && calls == old(calls) + [old(due)]
        else PendingAt(base, due) && calls == old(calls) && due == old(due)
    {
      hide Pending;
      hide Concerning;
      hide Bare;
      hide CommandsKnown;
      hide ReactionsKnown;
      hide ReactionsAvoid;
      hide PeriodsPositive;
      hide Nominal;
      hide DueAfter;
      NextNominal(started, timers[tracked].period, |calls|);
      ghost var cs := inHand + commands;
      Callback(t, due);
      Quieter(base, current, overflow, cs, inHand + commands, tracked, old(due), timers[tracked].period);
    }

    /** Only an auto-reload timer is re-armed. */
    method Rearm(t: nat, next: U32, ghost base: nat)
      requires Known() && ListsOk(current, overflow) && LeftAlone() && t in timers
      requires t !in Owners(current) && t !in Owners(overflow)
      requires if t == tracked then Bare(current, overflow, inHand + commands, t) && (base + next) % W32 == next
        else PendingAt(base, due)
      modifies this`current, this`commands
      ensures Known() && ListsOk(current, overflow) && LeftAlone()
      ensures PendingAt(base, if t == tracked then base + next + timers[t].period else due)
      ensures Owners(current) <= Owners(old(current)) + {t}
      ensures Slack(current) <= Slack(old(current)) + W32 - next - 1
      ensures !timers[t].autoReload ==> current == old(current) && commands == old(commands)
      ensures timers[t].autoReload ==> if next + timers[t].period < W32
        then current == InsertByValue(old(current), Entry(next + timers[t].period, t)) && commands == old(commands)
        else current == old(current) && commands == old(commands) + [Start(t, next)]
    {
      hide Pending;
      hide Concerning;
      hide Bare;
      hide ListsOk;
      hide CommandsKnown;
      hide ReactionsKnown;
      hide ReactionsAvoid;
      hide PeriodsPositive;
      hide Slack;
      hide InsertByValue;
      hide Owners;
      if timers[t].autoReload {
        Reload(t, next, base);
      }
    }

    /** One round of the loop of prvSwitchTimerLists: everything left in the list is overdue. */
    method DrainFirst(ghost n: nat)
      requires Known() && ListsOk(current, overflow) && Follows(Base(now)) && NotEarly(n)
      requires Base(now) + W32 <= n && current != []
      modifies this`current, this`commands, this`callbacks, this`fired, this`calls, this`due
      ensures Known() && ListsOk(current, overflow) && Follows(Base(now)) && NotEarly(n)
      ensures Slack(current) < Slack(old(current)) && Owners(current) <= Owners(old(current))
      ensures tracked !in Owners(old(current)) ==> due == old(due)
      ensures calls == old(calls) || (calls == old(calls) + [old(due)] && old(due) <= n)
      ensures Drains(old(Seen()), Seen(), reactions)
    {
      hide Pending;
      hide Concerning;
      hide Bare;
      hide ListsOk;
      hide CommandsKnown;
      hide ReactionsKnown;
      hide ReactionsAvoid;
      hide PeriodsPositive;
      hide Nominal;
      hide DueAfter;
      hide Base;
      hide Slack;
      hide Owners;
      hide InsertByValue;
      hide CallsBack;
      hide Drains;
      ghost var base, first := Base(now), current;
      var next := current[0].value;
      EpochTime(now, next);
      SlackFirst(first);
      ghost var p := Seen();
      var t := TakeFirst(base);
      ghost var m := Seen();
      CallOverdue(t, base, next);
      ghost var a := Seen();
      Rearm(t, next, base);
      DrainsIf(p, m, a, Seen(), reactions);
    }

    /** prvSwitchTimerLists: the loop ends because re-inserted values grow. */
    method SwitchLists(ghost n: nat)
      requires Known() && ListsOk(current, overflow) && Follows(Base(now)) && NotEarly(n) && Base(now) + W32 <= n
      modifies this`current, this`overflow, this`commands, this`callbacks, this`fired, this`calls, this`due
      ensures Known() && ListsOk(current, overflow) && Follows(Base(now) + W32) && NotEarly(n)
      ensures current == old(overflow) && overflow == [] && old(calls) <= calls
      ensures Switches(old(Seen()), Seen())
      ensures tracked !in Owners(old(current)) ==> due == old(due)
    {
      hide Pending;
      hide Concerning;
      hide Bare;
      hide ListsOk;
      hide CommandsKnown;
      hide ReactionsKnown;
      hide ReactionsAvoid;
      hide PeriodsPositive;
      hide Nominal;
      hide DueAfter;
      hide Base;
      hide Slack;
      hide Drains;
      hide Counted;
      hide Left;
      ghost var p0 := Seen();
      CountedAll(p0, fired, timers);
      while current != []
        invariant Known() && ListsOk(current, overflow) && Follows(Base(now)) && NotEarly(n)
        invariant old(calls) <= calls && overflow == old(overflow) && Owners(current) <= Owners(old(current))
        invariant tracked !in Owners(old(current)) ==> due == old(due)
        invariant old(commands) <= commands && old(fired) <= fired
        invariant callbacks - old(callbacks) == |fired| - |old(fired)|
        invariant Counted(old(fired), old(current), fired, current, timers)
        decreases Slack(current)
      {
        ghost var p := Seen();
        DrainFirst(n);
        DrainsGrow(p, Seen(), reactions);
        CountedMore(p0, p, Seen(), reactions);
      }
      CountedAll(p0, fired, timers);
      Swapped(Base(now), overflow, inHand + commands, tracked, due, timers[tracked].period);
      current, overflow := overflow, current;
    }

    /**
     * prvSampleTimeNow at unbounded time n. The time is sampled at least once per wrap, except that
     * the daemon may sleep for any time while both lists are empty.
     */
    method SampleTimeNow(ghost n: nat, tick: U32) returns (switched: bool)
      requires Sound() && tick == n % W32 && now <= n
      requires n < now + W32 || (current == [] && overflow == [])
      requires Queued() ==> NotEarly(n)
      modifies this`lastTime, this`now, this`current, this`overflow, this`commands, this`callbacks, this`fired
      modifies this`calls, this`due
      ensures Sound() && NotEarly(now) && now == n && lastTime == tick && old(calls) <= calls
      ensures switched <==> tick < old(lastTime)
      ensures !switched ==> Seen() == old(Seen()) && calls == old(calls)
      ensures switched ==> Switches(old(Seen()), Seen())
      ensures Owners(current) + Owners(overflow) <= Owners(old(current)) + Owners(old(overflow))
      ensures old(Queued()) ==> due == old(due)
    {
      hide Pending;
      hide Concerning;
      hide Bare;
      hide ListsOk;
      hide CommandsKnown;
      hide ReactionsKnown;
      hide ReactionsAvoid;
      hide PeriodsPositive;
      hide Nominal;
      hide DueAfter;
      hide Switches;
      NextEpochBase(now, n);
      if current == [] && overflow == [] {
        AnyBase(Base(now), Base(n), inHand + commands, tracked, due, timers[tracked].period);
      }
      hide Base;
      switched := tick < lastTime;
      if switched {
        SwitchLists(n);
        if overflow == [] && current == [] {
          AnyBase(Base(now) + W32, Base(n), inHand + commands, tracked, due, timers[tracked].period);
        }
      }
      lastTime := tick;
      now := n;
    }

    /** prvGetNextExpireTime: nothing in the current list is due earlier, and something is due then. */
    method GetNextExpireTime() returns (next: U32, listWasEmpty: bool)
      requires SortedByValue(current)
      ensures if listWasEmpty then Owners(current) == {} && next == 0 else Least(current, next)
    {
      listWasEmpty := current == [];
      next := if listWasEmpty then 0 else current[0].value;
    }

    /**
     * prvGetNextExpireTime and prvProcessTimerOrBlockTask: true if the daemon blocks. Then, if the
     * followed timer has no command in the queue, every period that has passed has had its callback.
     */
    method ProcessOrBlock(ghost n: nat, tick: U32) returns (blocks: bool)
      requires Valid() && tick == n % W32 && now <= n
      requires n < now + W32 || (current == [] && overflow == [])
      requires Queued() ==> NotEarly(n)
      modifies this
      ensures Valid() && NotEarly(now) && now == n && tracked == old(tracked) && started == old(started)
        && old(calls) <= calls
      ensures blocks <==> tick >= old(lastTime) && (old(current) == [] || old(current[0]).value > tick)
      ensures if blocks then Seen() == old(Seen())
        else if tick < old(lastTime) then Switches(old(Seen()), Seen())
        else Expires(old(Seen()), Seen(), reactions, tick)
      ensures blocks && Concerning(commands, tracked) == []
        ==> started <= n && |calls| == Periods(started, timers[tracked].period, n)
    {
      hide Pending;
      hide Concerning;
      hide Bare;
      hide ListsOk;
      hide CommandsKnown;
      hide ReactionsKnown;
      hide ReactionsAvoid;
      hide PeriodsPositive;
      hide Nominal;
      hide DueAfter;
      hide Base;
      hide Owners;
      hide Least;
      hide Switches;
      hide Expires;
      ListsSorted(current, overflow);
      hide SortedByValue;
      var next, listWasEmpty := GetNextExpireTime();
      LeastIsHead(current, overflow, listWasEmpty, next);
      var switched := SampleTimeNow(n, tick);
      blocks := false;
      if !switched {
        if !listWasEmpty && next <= tick {
          ProcessExpired(next, tick);
        } else {
          blocks := true;
          if Concerning(commands, tracked) == [] {
            assert inHand + commands == commands;
            IdleMeansFuture(n, current, overflow, inHand + commands, tracked, due, timers[tracked].period);
            ElapsedPeriods(started, timers[tracked].period, |calls|, n);
          }
        }
      }
    }

    /** A command is received, and its timer is removed from whichever list it is in. */
    method Receive() returns (c: Command)
      requires Valid() && commands != []
      modifies this`current, this`overflow, this`commands, this`inHand
      ensures c == old(commands[0]) && inHand == [c] && Sound() && inHand + commands == old(commands)
      ensures Seen() == Received(old(Seen()))
      ensures c.timer in timers && (c.ChangePeriod? ==> c.period > 0)
      ensures c.timer !in Owners(current) && c.timer !in Owners(overflow)
      ensures Owners(current) + Owners(overflow) <= Owners(old(current)) + Owners(old(overflow))
      ensures old(current) == [] && old(overflow) == [] ==> current == [] && overflow == []
    {
      hide Pending;
      hide Concerning;
      hide Bare;
      hide ListsOk;
      hide CommandsKnown;
      hide ReactionsKnown;
      hide ReactionsAvoid;
      hide PeriodsPositive;
      hide Nominal;
      hide DueAfter;
      hide Owners;
      FirstKnown(commands, timers.Keys);
      c := commands[0];
      assert inHand + commands == commands == [c] + commands[1..];
      CommandTaken(Base(now), current, overflow, commands, tracked, due, timers[tracked].period);
      RemovedNothing(current, overflow, c.timer);
      hide RemoveOwner;
      current := RemoveOwner(current, c.timer);
      overflow := RemoveOwner(overflow, c.timer);
      commands := commands[1..];
      inHand := [c];
    }

    /** A command is in hand: of the followed timer it can only be the start that is pending. */
    method Accept(ghost c: Command)
      requires Sound() && inHand == [c] && c.timer in timers
      requires c.timer !in Owners(current) && c.timer !in Owners(overflow)
      modifies this`inHand
      ensures Shape() && LeftAlone() && inHand == []
      ensures if c.timer == tracked
        then Bare(current, overflow, commands, tracked) && due >= timers[tracked].period
             && c == Start(tracked, (due - timers[tracked].period) % W32)
        else PendingAt(Base(now), due)
    {
      hide Pending;
      hide Concerning;
      hide Bare;
      hide ListsOk;
      hide CommandsKnown;
      hide ReactionsKnown;
      hide ReactionsAvoid;
      hide PeriodsPositive;
      hide Nominal;
      hide DueAfter;
      hide Owners;
      if c.timer == tracked {
        HandEmptied(Base(now), current, overflow, c, commands, due, timers[tracked].period);
      } else {
        DropOther(Base(now), current, overflow, c, commands, tracked, due, timers[tracked].period);
      }
      hide Base;
      inHand := [];
    }

    /** The start case of the switch in prvProcessReceivedCommands, for a command stamped at the given time. */
    method PerformStart(t: nat, value: U32, timeNow: U32, ghost stamp: nat)
      requires Shape() && LeftAlone() && inHand == [] && NotEarly(now) && timeNow == lastTime && t in timers
      requires calls == Nominal(started, timers[tracked].period, |calls|)
      requires due == DueAfter(started, timers[tracked].period, |calls|)
      requires t !in Owners(current) && t !in Owners(overflow)
      requires if t == tracked then Bare(current, overflow, commands, t) && due == stamp + timers[t].period
          && value == stamp % W32 && now < stamp + W32
        else PendingAt(Base(now), due)
      modifies this`current, this`overflow, this`commands, this`callbacks, this`fired, this`calls, this`due
      ensures Valid() && NotEarly(now) && Starts(old(Seen()), Seen(), reactions, t, value, timeNow)
      ensures if t == tracked && old(due) <= now then calls == old(calls) + [old(due)] else calls == old(calls)
    {
      hide Pending;
      hide Concerning;
      hide Bare;
      hide ListsOk;
      hide CommandsKnown;
      hide ReactionsKnown;
      hide ReactionsAvoid;
      hide PeriodsPositive;
      hide Nominal;
      hide DueAfter;
      hide Owners;
      hide Base;
      hide InsertByValue;
      hide Decide;
      hide Unsigned32;
      hide CallsBack;
      hide Placed;
      hide Starts;
      ghost var base, p := Base(now), timers[t].period;
      ghost var v0 := Seen();
      NextNominal(started, timers[tracked].period, |calls|);
      if t == tracked {
        NextStamp(value, stamp, p);
      }
      var next := Unsigned32(value + timers[t].period);
      assert inHand + commands == commands;
      var processNow := InsertFollowed(t, next, timeNow, value, stamp, base);
      ghost var m, a := Seen(), Seen();
      if processNow {
        ghost var cs := inHand + commands;
        Callback(t, due);
        a := Seen();
        Quieter(base, current, overflow, cs, inHand + commands, tracked, due, timers[tracked].period);
        if timers[t].autoReload {
          SendStart(t, next, stamp + p, base);
        }
      }
      StartsIf(v0, m, a, Seen(), reactions, t, value, timeNow);
    }

    /** The switch of prvProcessReceivedCommands. */
    method Perform(c: Command, timeNow: U32)
      requires Sound() && NotEarly(now) && timeNow == lastTime && inHand == [c]
      requires c.timer in timers && (c.ChangePeriod? ==> c.period > 0)
      requires c.timer !in Owners(current) && c.timer !in Owners(overflow)
      requires c.timer == tracked ==> now < due - timers[tracked].period + W32
      modifies this`current, this`overflow, this`commands, this`timers, this`callbacks, this`fired
      modifies this`calls, this`due, this`inHand
      ensures Valid() && NotEarly(now) && CarriesOut(old(Seen()), Seen(), reactions, c, timeNow)
      ensures if c.timer == tracked && old(due) <= now then calls == old(calls) + [old(due)] else calls == old(calls)
    {
      hide Pending;
      hide Concerning;
      hide Bare;
      hide ListsOk;
      hide CommandsKnown;
      hide ReactionsKnown;
      hide ReactionsAvoid;
      hide PeriodsPositive;
      hide Nominal;
      hide DueAfter;
      hide Owners;
      hide Base;
      hide InsertByValue;
      hide Decide;
      hide Unsigned32;
      hide Starts;
      ghost var base := Base(now);
      var t := c.timer;
      Accept(c);
      PositivePeriod(timers, t);
      Updated(timers, t, if c.ChangePeriod? then c.period else timers[t].period);
      assert inHand + commands == commands;
      match c {
        case Start(_, value) =>
          timers := timers[t := timers[t].(active := true)];
          PerformStart(t, value, timeNow, if t == tracked then due - timers[t].period else now);
        case Stop(_) =>
          timers := timers[t := timers[t].(active := false)];
        case Delete(_) =>
          timers := timers[t := timers[t].(active := false)];
        case ChangePeriod(_, period) =>
          timers := timers[t := timers[t].(active := true, period := period)];
          FromNow(timeNow, period);
          var _ := InsertFollowed(t, Unsigned32(timeNow + period), timeNow, timeNow, now, base);
      }
    }

    /**
     * One round of prvProcessReceivedCommands at unbounded time n. A start command of the followed
     * timer is processed less than one wrap after its time stamp.
     */
    method ProcessCommand(ghost n: nat, tick: U32)
      requires Valid() && commands != [] && tick == n % W32 && now <= n
      requires n < now + W32 || (current == [] && overflow == [])
      requires Queued() ==> NotEarly(n)
      requires commands[0].timer == tracked ==> n < due - timers[tracked].period + W32
      modifies this
      ensures Valid() && NotEarly(now) && now == n && tracked == old(tracked) && started == old(started)
        && old(calls) <= calls
      ensures exists m: View ::
        && (if tick < old(lastTime) then Switches(Received(old(Seen())), m) else m == Received(old(Seen())))
        && CarriesOut(m, Seen(), reactions, old(commands[0]), tick)
    {
      hide Pending;
      hide Concerning;
      hide Bare;
      hide ListsOk;
      hide CommandsKnown;
      hide ReactionsKnown;
      hide ReactionsAvoid;
      hide PeriodsPositive;
      hide Nominal;
      hide DueAfter;
      hide Owners;
      hide Base;
      hide Switches;
      hide CarriesOut;
      hide RemoveOwner;
      CommandIsStart(Base(now), current, overflow, commands, tracked, due, timers[tracked].period);
      var c := Receive();
      var _ := SampleTimeNow(n, tick);
      ghost var m := Seen();
      Perform(c, tick);
      assert CarriesOut(m, Seen(), reactions, c, tick);
    }

    /** prvCheckForValidListAndQueue: no timer is active. */
    constructor (timers: map<nat, Timer>, reactions: Reactions)
      requires PeriodsPositive(timers) && ReactionsKnown(reactions, timers.Keys)
      ensures Shape() && inHand == [] && now == 0 && this.timers == timers && this.reactions == reactions
      ensures forall t :: Bare(current, overflow, commands, t)
      ensures callbacks == 0 && fired == []
    {
      this.timers, this.reactions := timers, reactions;
      lastTime, current, overflow, commands, callbacks := 0, [], [], [], 0;
      now, inHand, fired := 0, [], [];
    }

    /** xTimerGenericCommand from a task or interrupt, for a timer other than the followed one. */
    method Send(c: Command)
      requires Valid() && c.timer in timers && c.timer != tracked && (c.ChangePeriod? ==> c.period > 0)
      modifies this`commands
      ensures Valid() && calls == old(calls) && due == old(due) && commands == old(commands) + [c]
    {
      Sent(Base(now), current, overflow, inHand + commands, tracked, due, timers[tracked].period, c);
      assert inHand + (commands + [c]) == (inHand + commands) + [c];
      hide Pending;
      hide ListsOk;
      commands := commands + [c];
    }

    /** xTimerStart at time s of a timer with nothing pending: from here on it is followed. */
    method StartTimer(t: nat, ghost s: nat, tick: U32)
      requires Shape() && inHand == [] && tick == s % W32 && now <= s
      requires t in timers && timers[t].autoReload && timers[t].period > 0 && ReactionsAvoid(reactions, t)
      requires Bare(current, overflow, commands, t)
      modifies this`commands, this`tracked, this`started, this`due, this`calls
      ensures Valid() && tracked == t && started == s && calls == [] && due == s + timers[t].period
      ensures commands == old(commands) + [Start(t, tick)]
    {
      PendingQueued(Base(now), current, overflow, commands, t, s, timers[t].period);
      CommandsGrow(commands, Start(t, tick), timers.Keys);
      commands := commands + [Start(t, tick)];
      tracked, started, calls, due := t, s, [], s + timers[t].period;
      assert inHand + commands == commands;
    }
  }
}
