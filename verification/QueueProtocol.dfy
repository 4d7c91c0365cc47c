/**
 * The queue wake-up protocol, one critical section or interrupt per step. A task that finds
 * the queue empty (or full) suspends the scheduler, locks the queue, checks again, puts itself
 * on the event list and unlocks. While the queue is locked an interrupt leaves the event lists
 * alone and counts its events in an 8-bit lock count, which the unlocking task pays back in wake-ups.
 */
module QueueProtocol {
  import opened Basics
  import opened ValueLists

  const UNLOCKED := -1
  const LOCKED_UNMODIFIED := 0

  /** Conversion to int8_t. */
  function Int8(x: int): int { if x % 256 < 128 then x % 256 else x % 256 - 256 }

  // ----- one side of the queue -----

  /**
   * The tasks blocked on one condition (data to receive, or room to send), the lock count that
   * stands for wake-ups owed to them, and those woken that have not looked at the queue since.
   */
  datatype Side = Side(lock: int, waiters: seq<Entry>, woken: set<nat>) {
    /** xTaskRemoveFromEventList on a list that may be empty: the first waiter is woken. */
    function Wake(): Side {
      if waiters == [] then this
      else Side(lock, waiters[1..], woken + {waiters[0].owner})
    }

    /** n wake-ups. */
    function Wakes(n: nat): Side
      decreases n
    {
      if n == 0 then this else Wakes(n - 1).Wake()
    }

    /** What an interrupt does after it has added or removed an item. */
    function Notify(): Side {
      if lock == UNLOCKED then Wake() else this.(lock := Int8(lock + 1))
    }

    function Lock(): Side { if lock == UNLOCKED then this.(lock := LOCKED_UNMODIFIED) else this }

    /** One half of prvUnlockQueue. */
    function Unlock(): Side { (if lock > 0 then Wakes(lock) else this).(lock := UNLOCKED) }

    /** Task t has looked at the queue. */
    function Recheck(t: nat): Side { this.(woken := woken - {t}) }

    function Block(e: Entry): Side { this.(waiters := InsertByValue(waiters, e)) }

    function Expire(t: nat): Side { this.(waiters := RemoveOwner(waiters, t)) }

    function Owed(): nat { if lock > 0 then lock else 0 }

    /** Every item that a waiter could have is accounted for by a woken task or an owed wake-up. */
    ghost predicate Covers(available: int) {
      waiters != [] ==> available <= |woken| + Owed()
    }

    ghost predicate Proper() {
      SortedByValue(waiters) && DistinctOwners(waiters) && Owners(waiters) !! woken && lock >= UNLOCKED
    }

    ghost function Members(): set<nat> { Owners(waiters) + woken }
  }

  lemma WakeKeeps(s: Side)
    requires s.Proper()
    ensures s.Wake().Proper() && s.Wake().Members() == s.Members()
    ensures forall n: int :: s.Covers(n) ==> s.Wake().Covers(n + 1)
    ensures s.waiters != [] ==> |s.Wake().woken| == |s.woken| + 1
  {
    if s.waiters != [] {
      CutOwners(s.waiters, 1);
      var head := s.waiters[0];
      assert s.waiters[..1] == [head];
      assert Owners([head]) == {head.owner};
    }
  }

  /** The task woken is the most urgent waiter, and of several the one that has waited longest. */
  lemma WakesMostUrgent(s: Side)
    requires s.Proper() && s.waiters != []
    ensures exists e: Entry ::
      && e in s.waiters && s.Wake().woken == s.woken + {e.owner} && s.waiters == [e] + s.Wake().waiters
      && forall x :: x in s.Wake().waiters ==> e.value <= x.value && x.owner != e.owner
  {
    var e := s.waiters[0];
    forall x | x in s.Wake().waiters
      ensures e.value <= x.value && x.owner != e.owner
    {
      var i :| 0 <= i < |s.waiters| - 1 && s.waiters[1..][i] == x;
      assert s.waiters[i + 1] == x;
    }
    assert s.waiters == [e] + s.waiters[1..];
  }

  lemma {:induction false} WakesKeep(s: Side, n: nat)
    requires s.Proper()
    ensures var r := s.Wakes(n);
      r.Proper() && r.Members() == s.Members() && r.lock == s.lock
      && (r.waiters != [] ==> |r.woken| == |s.woken| + n && s.waiters != [])
  {
    if n > 0 {
      WakesKeep(s, n - 1);
      WakeKeeps(s.Wakes(n - 1));
    }
  }

  /** n wake-ups wake the first n waiters, or all if there are fewer, and leave the others as they were. */
  lemma {:induction false} WakesFirst(s: Side, n: nat)
    ensures var k, r := Smaller(n, |s.waiters|), s.Wakes(n);
      r.waiters == s.waiters[k..] && r.woken == s.woken + Owners(s.waiters[..k]) && r.lock == s.lock
  {
    if n == 0 {
      assert s.waiters[..0] == [];
    } else {
      WakesFirst(s, n - 1);
      if n <= |s.waiters| {
        OneMoreOwner(s.waiters, n - 1);
      }
    }
  }

  lemma OneMoreOwner(w: seq<Entry>, k: nat)
    requires k < |w|
    ensures Owners(w[..k + 1]) == Owners(w[..k]) + {w[k].owner} && w[k..][0] == w[k] && w[k..][1..] == w[k + 1..]
  {
    assert w[..k + 1] == w[..k] + [w[k]];
    assert forall x :: x in w[..k + 1] <==> x in w[..k] || x == w[k];
    MembersGiveOwners(w[..k], w[..k + 1], w[k]);
  }

  /** Unlocking wakes as many waiters as are owed, the first ones, and no more. */
  lemma UnlockWakes(s: Side)
    ensures var k, r := Smaller(s.Owed(), |s.waiters|), s.Unlock();
      r.waiters == s.waiters[k..] && r.woken == s.woken + Owners(s.waiters[..k]) && r.lock == UNLOCKED
  {
    WakesFirst(s, s.Owed());
    hide Owners;
  }

  /** Unlocking pays back everything that is owed. */
  lemma UnlockKeeps(s: Side, available: int)
    requires s.Proper() && s.Covers(available)
    ensures s.Unlock().Proper() && s.Unlock().Covers(available) && s.Unlock().Members() == s.Members()
  {
    if s.lock > 0 {
      WakesKeep(s, s.lock);
    }
  }

  lemma NotifyKeeps(s: Side, available: int)
    requires s.Proper() && s.lock < 127
    ensures s.Notify().Proper() && s.Notify().Members() == s.Members()
    ensures s.Covers(available) ==> s.Notify().Covers(available + 1)
    ensures if s.lock == UNLOCKED then s.Notify().lock == UNLOCKED
      else s.lock >= 0 && s.Notify() == s.(lock := s.lock + 1)
  {
    if s.lock == UNLOCKED {
      WakeKeeps(s);
      assert s.Notify() == s.Wake();
      hide Side.Wake;
      hide Side.Notify;
      hide Side.Members;
      hide Side.Proper;
    } else {
      CountUp(s.lock);
      hide Int8;
      assert s.Notify() == s.(lock := s.lock + 1);
      hide Side.Notify;
    }
  }

  lemma CountUp(n: int)
    requires -1 <= n < 127
    ensures Int8(n + 1) == n + 1
  {
  }

  lemma BlockKeeps(s: Side, e: Entry)
    requires s.Proper() && e.owner !in s.Members()
    ensures s.Block(e).Proper() && s.Block(e).Members() == s.Members() + {e.owner}
  {
    InsertSorted(s.waiters, e);
    InsertDistinct(s.waiters, e);
    InsertMembers(s.waiters, e);
  }

  lemma ExpireKeeps(s: Side, t: nat, available: int)
    requires s.Proper() && s.Covers(available)
    ensures s.Expire(t).Proper() && s.Expire(t).Covers(available) && s.Expire(t).Members() <= s.Members()
    ensures Owners(s.Expire(t).waiters) == Owners(s.waiters) - {t} && s.Expire(t).woken == s.woken
  {
    RemoveKeepsOrder(s.waiters, t);
    RemoveOwners(s.waiters, t);
  }

  lemma RecheckKeeps(s: Side, t: nat)
    requires s.Proper()
    ensures s.Recheck(t).Proper() && s.Recheck(t).Members() <= s.Members()
    ensures |s.Recheck(t).woken| >= |s.woken| - 1
    ensures t !in Owners(s.waiters) ==> t !in s.Recheck(t).Members()
  {
    if t in s.woken {
      assert s.woken == (s.woken - {t}) + {t};
    } else {
      assert s.woken - {t} == s.woken;
    }
  }

  // ----- the queue -----

  datatype Role = Sender | Receiver

  /** How far the one task that has the scheduler suspended has got. */
  datatype Phase = Idle | Locked(task: nat, role: Role) | Checked(task: nat, role: Role) | Unlocking | HalfUnlocked

  /** A queue without its items: receivers wait for messages, senders for free slots. */
  datatype Control = Control(length: nat, messages: nat, receivers: Side, senders: Side, phase: Phase) {
    function Free(): int { length - messages }

    function SendOk(overwrite: bool): bool { messages < length || overwrite }

    /** uxMessagesWaiting after an item has been written. */
    function Sent(overwrite: bool): nat { if overwrite && messages > 0 then messages else messages + 1 }
  }

  datatype Step =
    | TrySend(task: nat, overwrite: bool)
    | TryReceive(task: nat)
    | TryPeek(task: nat)
    | IsrSend(overwrite: bool)
    | IsrReceive
    | LockQueue(task: nat, role: Role)
    | GiveUp
    | Check
    | Place(e: Entry)
    | UnlockTx
    | UnlockRx
    | Expire(task: nat)

  /**
   * Tasks run only while no other task has the scheduler suspended, interrupts at any time.
   * A woken task first repeats the call that it is in. Fewer than 128 interrupts per lock window.
   */
  ghost predicate Enabled(q: Control, e: Step) {
    match e
    case TrySend(t, over) =>
      q.phase == Idle && t !in q.receivers.Members() && t !in Owners(q.senders.waiters) && (over ==> q.length == 1)
    case TryReceive(t) => q.phase == Idle && t !in q.senders.Members() && t !in Owners(q.receivers.waiters)
    case TryPeek(t) => q.phase == Idle && t !in q.senders.Members() && t !in Owners(q.receivers.waiters)
    case IsrSend(over) => q.receivers.lock < 127 && (over ==> q.length == 1)
    case IsrReceive => q.senders.lock < 127
    case LockQueue(t, _) => q.phase == Idle && t !in q.receivers.Members() && t !in q.senders.Members()
    case GiveUp => q.phase.Locked?
    case Check => q.phase.Locked?
    case Place(e) => q.phase.Checked? && e.owner == q.phase.task
    case UnlockTx => q.phase == Unlocking
    case UnlockRx => q.phase == HalfUnlocked
    case Expire(_) => q.phase == Idle
  }

  /** What the step does, whether or not it is one of the runs considered. */
  function Next(q: Control, e: Step): Control {
    match e
    case TrySend(t, over) =>
      var s := q.(senders := q.senders.Recheck(t));
      if q.SendOk(over) then s.(messages := q.Sent(over), receivers := q.receivers.Wake()) else s
    case TryReceive(t) =>
      var s := q.(receivers := q.receivers.Recheck(t));
      if q.messages > 0 then s.(messages := q.messages - 1, senders := q.senders.Wake()) else s
    case TryPeek(t) =>
      var r := q.receivers.Recheck(t);
      q.(receivers := if q.messages > 0 then r.Wake() else r)
    case IsrSend(over) =>
      if q.SendOk(over) then q.(messages := q.Sent(over), receivers := q.receivers.Notify()) else q
    case IsrReceive =>
      if q.messages > 0 then q.(messages := q.messages - 1, senders := q.senders.Notify()) else q
    case LockQueue(t, role) =>
      q.(receivers := q.receivers.Lock(), senders := q.senders.Lock(), phase := Locked(t, role))
    case GiveUp => q.(phase := Unlocking)
    case Check =>
      if q.phase.Locked? && (if q.phase.role == Receiver then q.messages == 0 else q.messages == q.length)
      then q.(phase := Checked(q.phase.task, q.phase.role))
      else q.(phase := Unlocking)
    case Place(e) =>
      if q.phase.Checked? && q.phase.role == Receiver
      then q.(receivers := q.receivers.Block(e), phase := Unlocking)
      else q.(senders := q.senders.Block(e), phase := Unlocking)
    case UnlockTx => q.(receivers := q.receivers.Unlock(), phase := HalfUnlocked)
    case UnlockRx => q.(senders := q.senders.Unlock(), phase := Idle)
    case Expire(t) => q.(receivers := q.receivers.Expire(t), senders := q.senders.Expire(t))
  }

  /** The lock counts follow the phase, and a task in mid-call is on no list. */
  ghost predicate PhaseOk(q: Control) {
    && (q.receivers.lock == UNLOCKED <==> q.phase.Idle? || q.phase.HalfUnlocked?)
    && (q.senders.lock == UNLOCKED <==> q.phase.Idle?)
    && (q.phase.Locked? || q.phase.Checked?
      ==> q.phase.task !in q.receivers.Members() && q.phase.task !in q.senders.Members())
    && (q.phase.Checked? && q.phase.role == Receiver ==> q.messages <= q.receivers.Owed())
    && (q.phase.Checked? && q.phase.role == Sender ==> q.Free() <= q.senders.Owed())
  }

  ghost predicate Safe(q: Control) {
    && q.messages <= q.length && q.length > 0
    && q.receivers.Proper() && q.senders.Proper()
    && q.receivers.Members() !! q.senders.Members()
    && q.receivers.Covers(q.messages)
    && q.senders.Covers(q.Free())
    && PhaseOk(q)
  }

  /** A queue as it is created. */
  function Created(length: nat): Control { Control(length, 0, Side(UNLOCKED, [], {}), Side(UNLOCKED, [], {}), Idle) }

  lemma StepKeepsSafe(q: Control, e: Step)
    requires Safe(q) && Enabled(q, e)
    ensures Safe(Next(q, e))
  {
    hide Safe;
    hide Next;
    hide Enabled;
    match e
    case TrySend(t, over) => SendKeeps(q, t, over);
    case TryReceive(t) => ReceiveKeeps(q, t);
    case TryPeek(t) => PeekKeeps(q, t);
    case IsrSend(over) => IsrKeeps(q, e);
    case IsrReceive => IsrKeeps(q, e);
    case LockQueue(t, role) => LockKeeps(q, e);
    case GiveUp => LockKeeps(q, e);
    case Check => LockKeeps(q, e);
    case Place(w) => PlaceKeeps(q, w);
    case UnlockTx => UnlockingKeeps(q, e);
    case UnlockRx => UnlockingKeeps(q, e);
    case Expire(t) => TimeoutKeeps(q, t);
  }

  lemma IsrKeeps(q: Control, e: Step)
    requires Safe(q) && Enabled(q, e) && (e.IsrSend? || e.IsrReceive?)
    ensures Safe(Next(q, e))
  {
    hide Side.Proper;
    hide Side.Notify;
    hide Side.Members;
    hide Int8;
    if e.IsrSend? {
      NotifyKeeps(q.receivers, q.messages);
    } else {
      NotifyKeeps(q.senders, q.Free());
    }
  }

  lemma LockSide(s: Side, available: int)
    requires s.Proper()
    ensures var r := s.Lock(); r.Proper() && r.Members() == s.Members() && r.lock >= LOCKED_UNMODIFIED
    ensures s.Covers(available) ==> s.Lock().Covers(available)
  {
  }

  lemma LockKeeps(q: Control, e: Step)
    requires Safe(q) && Enabled(q, e) && (e.LockQueue? || e.GiveUp? || e.Check?)
    ensures Safe(Next(q, e))
  {
    LockSide(q.receivers, q.messages);
    LockSide(q.senders, q.Free());
    hide Side.Proper;
    hide Side.Members;
    hide Side.Lock;
    hide Owners;
  }

  lemma UnlockingKeeps(q: Control, e: Step)
    requires Safe(q) && Enabled(q, e) && (e.UnlockTx? || e.UnlockRx?)
    ensures Safe(Next(q, e))
  {
    UnlockKeeps(q.receivers, q.messages);
    UnlockKeeps(q.senders, q.Free());
  }

  lemma TimeoutKeeps(q: Control, t: nat)
    requires Safe(q) && Enabled(q, Expire(t))
    ensures Safe(Next(q, Expire(t)))
  {
    ExpireKeeps(q.receivers, t, q.messages);
    ExpireKeeps(q.senders, t, q.Free());
  }

  lemma SendKeeps(q: Control, t: nat, over: bool)
    requires Safe(q) && Enabled(q, TrySend(t, over))
    ensures Safe(Next(q, TrySend(t, over)))
  {
    RecheckKeeps(q.senders, t);
    WakeKeeps(q.receivers);
    hide Side.Proper;
    hide Side.Wake;
    hide Owners;
  }

  lemma ReceiveKeeps(q: Control, t: nat)
    requires Safe(q) && Enabled(q, TryReceive(t))
    ensures Safe(Next(q, TryReceive(t)))
  {
    RecheckKeeps(q.receivers, t);
    WakeKeeps(q.senders);
    hide Side.Proper;
    hide Side.Wake;
    hide Owners;
  }

  /** A task that peeks wakes the next receiver in its place. */
  lemma PeekSide(s: Side, t: nat, available: int)
    requires s.Proper() && s.Covers(available)
    ensures var r := s.Recheck(t).Wake();
      r.Proper() && r.Covers(available) && r.Members() <= s.Members() && r.lock == s.lock
  {
    RecheckKeeps(s, t);
    WakeKeeps(s.Recheck(t));
    hide Side.Proper;
    hide Owners;
  }

  lemma PeekKeeps(q: Control, t: nat)
    requires Safe(q) && Enabled(q, TryPeek(t))
    ensures Safe(Next(q, TryPeek(t)))
  {
    PeekSide(q.receivers, t, q.messages);
    RecheckKeeps(q.receivers, t);
    hide Side.Proper;
    hide Side.Members;
    hide Side.Wake;
    hide Owners;
  }

  lemma PlaceKeeps(q: Control, w: Entry)
    requires Safe(q) && Enabled(q, Place(w))
    ensures Safe(Next(q, Place(w)))
  {
    hide InsertByValue;
    hide Side.Proper;
    hide Side.Members;
    if q.phase.role == Receiver {
      BlockKeeps(q.receivers, w);
      assert q.messages <= q.receivers.Owed();
    } else {
      BlockKeeps(q.senders, w);
      assert q.Free() <= q.senders.Owed();
    }
  }

  // ----- whole runs -----

  /** The states of a run, one more than its steps. */
  ghost predicate IsRun(qs: seq<Control>, es: seq<Step>) {
    && |qs| == |es| + 1
    && forall i :: 0 <= i < |es| ==> Enabled(qs[i], es[i]) && qs[i + 1] == Next(qs[i], es[i])
  }

  /** In every run of a created queue, at every step, all available items are accounted for. */
  lemma {:induction false} RunIsSafe(qs: seq<Control>, es: seq<Step>, n: nat)
    requires IsRun(qs, es) && qs[0].length > 0 && qs[0] == Created(qs[0].length) && n < |qs|
    ensures Safe(qs[n])
  {
    if n > 0 {
      RunIsSafe(qs, es, n - 1);
      hide Safe;
      StepKeepsSafe(qs[n - 1], es[n - 1]);
    }
  }

  /**
   * No wake-up is lost: once no task is inside the lock window and every woken task has looked at
   * the queue again, a receiver still waits only on an empty queue and a sender only on a full one.
   */
  lemma NoLostWakeUp(qs: seq<Control>, es: seq<Step>, n: nat)
    requires IsRun(qs, es) && qs[0].length > 0 && qs[0] == Created(qs[0].length) && n < |qs|
    requires qs[n].phase == Idle
    ensures qs[n].receivers.waiters != [] ==> qs[n].messages <= |qs[n].receivers.woken|
    ensures qs[n].senders.waiters != [] ==> qs[n].Free() <= |qs[n].senders.woken|
    ensures qs[n].receivers.woken == {} && qs[n].receivers.waiters != [] ==> qs[n].messages == 0
    ensures qs[n].senders.woken == {} && qs[n].senders.waiters != [] ==> qs[n].messages == qs[n].length
  {
    RunIsSafe(qs, es, n);
  }

  // ----- the limit of the 8-bit count -----

  /** n interrupts send while the queue is locked. */
  function IsrSends(q: Control, n: nat): Control
    decreases n
  {
    if n == 0 then q else Next(IsrSends(q, n - 1), IsrSend(false))
  }

  /** How many wake-ups n sends in one lock window are worth. */
  function Paid(n: nat): nat { if n <= 127 then n else if n <= 255 then 0 else n - 255 }

  /**
   * The receivers' side after n sends. At 128 the count turns negative; at 255 it reaches the value
   * that means unlocked, and from then on the interrupts wake tasks themselves.
   */
  function Counted(s: Side, n: nat): Side {
    if n <= 127 then s.(lock := n) else if n <= 255 then s.(lock := n - 256) else s.(lock := UNLOCKED).Wakes(n - 255)
  }

  lemma CountedStep(s: Side, n: nat)
    requires s.Proper()
    ensures Counted(s, n).Notify() == Counted(s, n + 1)
  {
    var u := s.(lock := UNLOCKED);
    if n >= 255 {
      assert u.Wakes(0) == u;
      WakesKeep(u, n - 255);
      assert u.Wakes(n - 255 + 1) == u.Wakes(n - 255).Wake();
      hide Side.Wake;
    }
  }

  lemma {:induction false} CountRuns(q: Control, n: nat)
    requires n <= q.length && q.messages == 0 && q.receivers.lock == 0 && q.receivers.Proper()
    ensures IsrSends(q, n) == q.(messages := n, receivers := Counted(q.receivers, n))
  {
    if n > 0 {
      CountRuns(q, n - 1);
      CountedStep(q.receivers, n - 1);
      hide Side.Notify;
      hide Counted;
    }
  }

  lemma {:induction false} WakesLeave(s: Side, n: nat)
    ensures s.Wakes(n).waiters == if n <= |s.waiters| then s.waiters[n..] else []
    ensures s.Wakes(n).woken >= s.woken
  {
    if n > 0 {
      WakesLeave(s, n - 1);
    }
  }

  /** Waking does not look at the lock count. */
  lemma {:induction false} WakesAnyLock(s: Side, lock: int, n: nat)
    ensures s.(lock := lock).Wakes(n) == s.Wakes(n).(lock := lock)
  {
    if n > 0 {
      WakesAnyLock(s, lock, n - 1);
    }
  }

  /** After unlocking, as many have been woken as the count was worth. */
  lemma PaidOut(s: Side, n: nat)
    requires s.Proper() && s.lock == 0
    ensures Counted(s, n).Unlock() == s.Wakes(Paid(n)).(lock := UNLOCKED)
  {
    WakesAnyLock(s, n, Paid(n));
    WakesAnyLock(s, UNLOCKED, Paid(n));
    WakesKeep(s.(lock := UNLOCKED), Paid(n));
    assert s.Wakes(0) == s;
  }

  /** A window of n interrupt sends, from the moment a receiver is about to unlock the queue. */
  function AfterWindow(q: Control, n: nat): Control { Next(Next(IsrSends(q, n), UnlockTx), UnlockRx) }

  /**
   * Exactly when n interrupt sends onto an empty locked queue leave the protocol safe: if the wake-ups
   * they are worth reach all the receivers, or make up with those already woken for the n items. Up
   * to 127 sends they always do.
   */
  lemma WindowIsSafe(q: Control, n: nat)
    requires Safe(q) && q.phase == Unlocking && q.receivers.lock == 0 && q.messages == 0 && n <= q.length
    ensures var r := AfterWindow(q, n);
      r.phase == Idle && r.messages == n && r.receivers == q.receivers.Wakes(Paid(n)).(lock := UNLOCKED)
    ensures Safe(AfterWindow(q, n)) <==> |q.receivers.waiters| <= Paid(n) || n <= |q.receivers.woken| + Paid(n)
  {
    CountRuns(q, n);
    PaidOut(q.receivers, n);
    WakesKeep(q.receivers, Paid(n));
    WakesLeave(q.receivers, Paid(n));
    UnlockKeeps(q.senders, q.Free());
    hide Side.Wakes;
    hide Side.Notify;
    hide IsrSends;
    hide Counted;
    var r, s := q.receivers.Wakes(Paid(n)).(lock := UNLOCKED), q.senders.Unlock();
    assert AfterWindow(q, n) == Control(q.length, n, r, s, Idle);
    hide Next;
    hide Side.Unlock;
    hide Paid;
    SafeIffCovered(q, n, r, s);
  }

  lemma SafeIffCovered(q: Control, n: nat, r: Side, s: Side)
    requires Safe(q) && q.messages == 0 && n <= q.length
    requires r.Proper() && r.Members() == q.receivers.Members() && r.lock == UNLOCKED
    requires s.Proper() && s.Members() == q.senders.Members() && s.lock == UNLOCKED && s.Covers(q.Free())
    ensures Safe(Control(q.length, n, r, s, Idle)) <==> r.waiters == [] || n <= |r.woken|
  {
    hide Side.Proper;
    hide Side.Members;
  }

  /** n interrupts receive while the queue is locked. */
  function IsrReceives(q: Control, n: nat): Control
    decreases n
  {
    if n == 0 then q else Next(IsrReceives(q, n - 1), IsrReceive)
  }

  lemma {:induction false} CountReceives(q: Control, n: nat)
    requires n <= q.length == q.messages && q.senders.lock == 0 && q.senders.Proper()
    ensures IsrReceives(q, n) == q.(messages := q.length - n, senders := Counted(q.senders, n))
  {
    if n > 0 {
      CountReceives(q, n - 1);
      CountedStep(q.senders, n - 1);
      hide Side.Notify;
      hide Counted;
    }
  }

  /** A window of n interrupt receives, from the moment a task is about to unlock the queue. */
  function AfterReceives(q: Control, n: nat): Control { Next(Next(IsrReceives(q, n), UnlockTx), UnlockRx) }

  /** The same for n interrupt receives from a full locked queue, with the senders waiting. */
  lemma ReceiveWindowIsSafe(q: Control, n: nat)
    requires Safe(q) && q.phase == Unlocking && q.senders.lock == 0 && q.messages == q.length && n <= q.length
    ensures var r := AfterReceives(q, n);
      r.phase == Idle && r.Free() == n && r.senders == q.senders.Wakes(Paid(n)).(lock := UNLOCKED)
    ensures Safe(AfterReceives(q, n)) <==> |q.senders.waiters| <= Paid(n) || n <= |q.senders.woken| + Paid(n)
  {
    CountReceives(q, n);
    PaidOut(q.senders, n);
    WakesKeep(q.senders, Paid(n));
    WakesLeave(q.senders, Paid(n));
    UnlockKeeps(q.receivers, q.messages);
    hide Side.Wakes;
    hide Side.Notify;
    hide IsrReceives;
    hide Counted;
    var r, s := q.senders.Wakes(Paid(n)).(lock := UNLOCKED), q.receivers.Unlock();
    assert AfterReceives(q, n) == Control(q.length, q.length - n, s, r, Idle);
    hide Next;
    hide Side.Unlock;
    hide Paid;
    SafeIffFreed(q, n, s, r);
  }

  lemma SafeIffFreed(q: Control, n: nat, r: Side, s: Side)
    requires Safe(q) && q.messages == q.length && n <= q.length
    requires r.Proper() && r.Members() == q.receivers.Members() && r.lock == UNLOCKED && r.Covers(q.messages)
    requires s.Proper() && s.Members() == q.senders.Members() && s.lock == UNLOCKED
    ensures Safe(Control(q.length, q.length - n, r, s, Idle)) <==> s.waiters == [] || n <= |s.woken|
  {
    hide Side.Proper;
    hide Side.Members;
  }

  lemma Placed(q: Control, w: Entry)
    requires q.phase == Checked(w.owner, Receiver) && q.receivers == Side(0, [], {})
    ensures Next(q, Place(w)) == q.(receivers := Side(0, [w], {}), phase := Unlocking)
  {
    assert InsertByValue([], w) == [w];
  }

  /**
   * The 128th interrupt in one lock window makes the count negative and every owed wake-up is
   * forgotten: a receiver stays blocked on a queue that holds 128 items and nobody is on the way.
   */
  lemma CountLosesWakeUps(q: Control, w: Entry)
    requires Safe(q) && q.length >= 128 && q.phase == Checked(w.owner, Receiver)
    requires q.messages == 0 && q.receivers == Side(0, [], {})
    ensures var r := AfterWindow(Next(q, Place(w)), 128);
      r.phase == Idle && r.messages == 128 && r.receivers == Side(UNLOCKED, [w], {}) && !Safe(r)
  {
    var p := Next(q, Place(w));
    StepKeepsSafe(q, Place(w));
    Placed(q, w);
    hide Next;
    hide Safe;
    hide AfterWindow;
    assert p.receivers.Wakes(0) == p.receivers;
    WindowIsSafe(p, 128);
  }
}
