/**
 * RT-Thread semaphores, mutexes and events: whoever releases hands over to a suspended thread
 * directly. Each method is one stretch with interrupts disabled; a suspended thread leaves its
 * list either by a hand-over or by its timeout.
 */
module Handoff {
  import opened Basics
  import opened Words
  import opened KernelList
  import opened ValueLists

  datatype Discipline = Fifo | Prio

  // ----- suspend lists: entries carry the thread's priority, smaller is more urgent -----

  function Suspended(s: seq<Entry>, e: Entry, flag: Discipline): seq<Entry> {
    if flag == Prio then InsertByValue(s, e) else s + [e]
  }

  /** e stands behind the first k of s, all at least as urgent, and in front of a less urgent one, if any. */
  predicate StandsAt(s: seq<Entry>, e: Entry, r: seq<Entry>, k: nat) {
    && k <= |s| && r == s[..k] + [e] + s[k..]
    && (forall i :: 0 <= i < k ==> s[i].value <= e.value) && (k < |s| ==> s[k].value > e.value)
  }

  /** rt_ipc_list_suspend: at the end, or before the first thread that is strictly less urgent. */
  method Suspend(s: seq<Entry>, e: Entry, flag: Discipline) returns (r: seq<Entry>)
    ensures r == Suspended(s, e, flag)
    ensures flag == Fifo ==> r == s + [e]
    ensures flag == Prio ==> exists k :: StandsAt(s, e, r, k)
    ensures flag == Prio && SortedByValue(s) ==> SortedByValue(r)
  {
    if flag == Fifo {
      r := s + [e];
    } else {
      var n := 0;
      while n < |s| && e.value >= s[n].value
        invariant n <= |s| && forall i :: 0 <= i < n ==> s[i].value <= e.value
      {
        n := n + 1;
      }
      r := InsertAt(s, n, e);
      assert StandsAt(s, e, r, n);
      PlaceIs(s, n, e.value);
      if SortedByValue(s) {
        InsertSorted(s, e);
      }
    }
  }

  lemma PlaceIs(s: seq<Entry>, n: nat, v: U32)
    requires n <= |s| && (forall i :: 0 <= i < n ==> s[i].value <= v) && (n < |s| ==> s[n].value > v)
    ensures Place(Values(s), v) == n
  {
  }

  lemma SuspendedMembers(s: seq<Entry>, e: Entry, flag: Discipline)
    ensures Owners(Suspended(s, e, flag)) == Owners(s) + {e.owner}
    ensures DistinctOwners(s) && e.owner !in Owners(s) ==> DistinctOwners(Suspended(s, e, flag))
  {
    if flag == Prio {
      InsertMembers(s, e);
      if DistinctOwners(s) && e.owner !in Owners(s) {
        InsertDistinct(s, e);
      }
    } else {
      assert forall x :: x in s + [e] <==> x in s || x == e;
      MembersGiveOwners(s, s + [e], e);
      assert forall i :: 0 <= i < |s| ==> s[i] in s && s[i].owner in Owners(s);
    }
  }

  lemma SuspendedEntries(s: seq<Entry>, e: Entry, flag: Discipline)
    ensures forall x :: x in Suspended(s, e, flag) <==> x in s || x == e
  {
    if flag == Prio {
      InsertMembers(s, e);
    }
  }

  datatype Answer = Taken | TimedOut | Blocked

  // ----- semaphores -----

  lemma TakeOne(due: int)
    requires due >= 0 && due % W16 > 0
    ensures (due - 1) % W16 == due % W16 - 1 && due >= 1
  {
  }

  lemma GiveOne(due: int)
    requires due >= 0
    ensures (due + 1) % W16 == (due % W16 + 1) % W16
  {
  }

  class Semaphore {
    const flag: Discipline
    var value: int
    var waiters: seq<Entry>

    ghost var initial: nat
    ghost var releases: nat
    /** Successful takes, counting those handed over to a suspended thread. */
    ghost var takes: nat

    ghost function Due(): int
      reads this
    {
      initial + releases - takes
    }

    ghost predicate Valid()
      reads this
    {
      && 0 <= value < W16 && value == Due() % W16 && Due() >= 0
      && (waiters != [] ==> value == 0) && DistinctOwners(waiters)
      && (flag == Prio ==> SortedByValue(waiters))
    }

    /** rt_sem_init. */
    constructor (value: nat, flag: Discipline)
      requires value < W16
      ensures Valid() && waiters == [] && initial == value && releases == takes == 0 && this.flag == flag
    {
      this.value, this.flag, waiters := value, flag, [];
      initial, releases, takes := value, 0, 0;
    }

    /** rt_sem_take, up to the point where the thread is suspended. */
    method Take(t: nat, priority: U32, canBlock: bool) returns (r: Answer)
      requires Valid() && t !in Owners(waiters)
      modifies this`value, this`waiters, this`takes
      ensures Valid()
      ensures r == if old(value) > 0 then Taken else if canBlock then Blocked else TimedOut
      ensures takes == old(takes) + if r == Taken then 1 else 0
      ensures waiters == if r == Blocked then Suspended(old(waiters), Entry(priority, t), flag) else old(waiters)
    {
      if value > 0 {
        TakeOne(Due());
        value := value - 1;
        takes := takes + 1;
        r := Taken;
      } else if !canBlock {
        r := TimedOut;
      } else {
        SuspendedMembers(waiters, Entry(priority, t), flag);
        waiters := Suspend(waiters, Entry(priority, t), flag);
        r := Blocked;
      }
    }

    /** rt_sem_release: the first suspended thread has taken the semaphore when it wakes. */
    method Release() returns (resumed: Option<nat>)
      requires Valid()
      modifies this`value, this`waiters, this`releases, this`takes
      ensures Valid() && releases == old(releases) + 1
      ensures if old(waiters) == [] then resumed == None && takes == old(takes) && waiters == []
        else resumed == Some(old(waiters)[0].owner) && takes == old(takes) + 1 && waiters == old(waiters)[1..]
    {
      resumed := None;
      releases := releases + 1;
      if waiters != [] {
        resumed := Some(waiters[0].owner);
        waiters := waiters[1..];
        takes := takes + 1;
      } else {
        GiveOne(Due() - 1);
        value := (value + 1) % W16;
      }
    }

    /** The timer of a suspended thread takes it off the list. */
    method Expire(t: nat)
      requires Valid()
      modifies this`waiters
      ensures Valid() && waiters == RemoveOwner(old(waiters), t)
    {
      RemoveKeepsOrder(waiters, t);
      RemoveMembers(waiters, t);
      waiters := RemoveOwner(waiters, t);
    }
  }

  /**
   * initial + releases == value + takes holds exactly as long as fewer than 2^16 units are
   * outstanding; at 2^16 the 16-bit value has wrapped to 0.
   */
  lemma CountIsExact(s: Semaphore)
    requires s.Valid()
    ensures s.initial + s.releases == s.value + s.takes <==> s.initial + s.releases - s.takes < W16
    ensures s.waiters != [] && s.initial + s.releases - s.takes < W16 ==> s.initial + s.releases == s.takes
  {
  }

  // ----- mutexes -----

  datatype MutexState = MutexState(value: int, hold: int, owner: Option<nat>, originalPriority: U32,
                                   waiters: seq<Entry>)

  datatype MutexStep =
    | TakeStep(thread: nat, priority: U32, canBlock: bool)
    | ReleaseStep(thread: nat)
    | ExpireStep(thread: nat)

  /** What a critical section of rt_mutex_take or rt_mutex_release, or a timeout, does to the mutex. */
  function MutexNext(flag: Discipline, m: MutexState, step: MutexStep): MutexState {
    match step
    case TakeStep(t, priority, canBlock) =>
      if m.owner == Some(t) then m.(hold := (m.hold + 1) % 256)
      else if m.value > 0 then MutexState(m.value - 1, (m.hold + 1) % 256, Some(t), priority, m.waiters)
      else if canBlock then m.(waiters := Suspended(m.waiters, Entry(priority, t), flag))
      else m
    case ReleaseStep(t) =>
      var hold := (m.hold - 1) % 256;
      if m.owner != Some(t) then m
      else if hold != 0 then m.(hold := hold)
      else if m.waiters != []
        then MutexState(m.value, (hold + 1) % 256, Some(m.waiters[0].owner), m.waiters[0].value, m.waiters[1..])
      else MutexState(m.value + 1, hold, None, 0xff, [])
    case ExpireStep(t) => m.(waiters := RemoveOwner(m.waiters, t))
  }

  /** The value is 1 exactly if nobody owns the mutex, and then nobody is suspended; the owner is not. */
  ghost predicate MutexValid(flag: Discipline, m: MutexState) {
    && (m.value == 1 || m.value == 0) && (m.value == 1 <==> m.owner == None)
    && (m.owner == None ==> m.waiters == [] && m.hold == 0) && 0 <= m.hold < 256
    && DistinctOwners(m.waiters) && (m.owner != None ==> m.owner.value !in Owners(m.waiters))
    && (flag == Prio ==> SortedByValue(m.waiters))
  }

  /** A suspended thread runs no code. */
  ghost predicate MutexEnabled(m: MutexState, step: MutexStep) { step.TakeStep? ==> step.thread !in Owners(m.waiters) }

  lemma MutexKeeps(flag: Discipline, m: MutexState, step: MutexStep)
    requires MutexValid(flag, m) && MutexEnabled(m, step)
    ensures MutexValid(flag, MutexNext(flag, m, step))
  {
    hide Suspended;
    hide DistinctOwners;
    hide SortedByValue;
    hide Owners;
    hide RemoveOwner;
    match step
    case TakeStep(t, priority, canBlock) =>
      SuspendedMembers(m.waiters, Entry(priority, t), flag);
      SuspendedSorted(m.waiters, Entry(priority, t), flag);
    case ReleaseStep(t) =>
      if m.waiters != [] {
        TailApart(m.waiters);
      } else {
        NoOwners();
      }
    case ExpireStep(t) =>
      RemoveKeepsOrder(m.waiters, t);
      RemoveOwners(m.waiters, t);
      NoneRemoved(t);
  }

  lemma SuspendedSorted(s: seq<Entry>, e: Entry, flag: Discipline)
    requires flag == Prio ==> SortedByValue(s)
    ensures flag == Prio ==> SortedByValue(Suspended(s, e, flag))
  {
    if flag == Prio {
      InsertSorted(s, e);
    }
  }

  lemma NoOwners()
    ensures DistinctOwners([]) && SortedByValue([]) && Owners([]) == {}
  {
  }

  lemma NoneRemoved(t: nat)
    ensures RemoveOwner([], t) == []
  {
  }

  const CREATED := MutexState(1, 0, None, 0xff, [])

  /** The mutex after a run. */
  function MutexAfter(flag: Discipline, steps: seq<MutexStep>): MutexState {
    if steps == [] then CREATED
    else MutexNext(flag, MutexAfter(flag, steps[..|steps| - 1]), steps[|steps| - 1])
  }

  ghost predicate MutexRun(flag: Discipline, steps: seq<MutexStep>) {
    forall i :: 0 <= i < |steps| ==> MutexEnabled(MutexAfter(flag, steps[..i]), steps[i])
  }

  /** The reference: a recursive mutex that counts its nested takes without bound. */
  datatype Recursive = Recursive(owner: Option<nat>, depth: nat, waiters: seq<Entry>)

  function RecursiveNext(flag: Discipline, m: Recursive, step: MutexStep): Recursive {
    match step
    case TakeStep(t, priority, canBlock) =>
      if m.owner == None then m.(owner := Some(t), depth := 1)
      else if m.owner == Some(t) then m.(depth := m.depth + 1)
      else if canBlock then m.(waiters := Suspended(m.waiters, Entry(priority, t), flag))
      else m
    case ReleaseStep(t) =>
      if m.owner != Some(t) then m
      else if m.depth > 1 then m.(depth := m.depth - 1)
      else if m.waiters != [] then Recursive(Some(m.waiters[0].owner), 1, m.waiters[1..])
      else Recursive(None, 0, [])
    case ExpireStep(t) => m.(waiters := RemoveOwner(m.waiters, t))
  }

  function RecursiveAfter(flag: Discipline, steps: seq<MutexStep>): Recursive {
    if steps == [] then Recursive(None, 0, [])
    else RecursiveNext(flag, RecursiveAfter(flag, steps[..|steps| - 1]), steps[|steps| - 1])
  }

  ghost predicate Agree(m: MutexState, r: Recursive) {
    m.owner == r.owner && m.waiters == r.waiters && m.hold == r.depth % 256 && (r.owner == None <==> r.depth == 0)
  }

  lemma AgreeStep(flag: Discipline, m: MutexState, r: Recursive, step: MutexStep)
    requires MutexValid(flag, m) && Agree(m, r) && r.depth <= 256
    ensures Agree(MutexNext(flag, m, step), RecursiveNext(flag, r, step)) && RecursiveNext(flag, r, step).depth <= 257
  {
  }

  /** As long as takes were nested no deeper than 256, the mutex behaves as the reference. */
  lemma {:induction false} AgreeWithin(flag: Discipline, steps: seq<MutexStep>)
    requires MutexRun(flag, steps) && forall i :: 0 <= i < |steps| ==> RecursiveAfter(flag, steps[..i]).depth <= 256
    ensures MutexValid(flag, MutexAfter(flag, steps)) && Agree(MutexAfter(flag, steps), RecursiveAfter(flag, steps))
    ensures RecursiveAfter(flag, steps).depth <= 257
  {
    if steps != [] {
      var before := steps[..|steps| - 1];
      assert forall i :: 0 <= i < |before| ==> before[..i] == steps[..i];
      AgreeWithin(flag, before);
      MutexKeeps(flag, MutexAfter(flag, before), steps[|steps| - 1]);
      AgreeStep(flag, MutexAfter(flag, before), RecursiveAfter(flag, before), steps[|steps| - 1]);
    }
  }

  /** The right thread owns the mutex, and still does if any thread t releases next. */
  ghost predicate OwnerRight(flag: Discipline, steps: seq<MutexStep>, t: nat) {
    && MutexAfter(flag, steps).owner == RecursiveAfter(flag, steps).owner
    && MutexAfter(flag, steps + [ReleaseStep(t)]).owner == RecursiveAfter(flag, steps + [ReleaseStep(t)]).owner
  }

  lemma OneMore(flag: Discipline, steps: seq<MutexStep>, step: MutexStep)
    ensures MutexAfter(flag, steps + [step]) == MutexNext(flag, MutexAfter(flag, steps), step)
    ensures RecursiveAfter(flag, steps + [step]) == RecursiveNext(flag, RecursiveAfter(flag, steps), step)
  {
    assert (steps + [step])[..|steps + [step]| - 1] == steps;
  }

  /** At 257 nested takes the 8-bit count stands at 1, and one release gives the mutex away. */
  lemma TooDeep(flag: Discipline, steps: seq<MutexStep>)
    requires MutexValid(flag, MutexAfter(flag, steps)) && Agree(MutexAfter(flag, steps), RecursiveAfter(flag, steps))
    requires RecursiveAfter(flag, steps).depth == 257
    ensures exists t :: !OwnerRight(flag, steps, t)
  {
    var m := MutexAfter(flag, steps);
    hide MutexAfter;
    hide RecursiveAfter;
    hide Owners;
    hide DistinctOwners;
    hide SortedByValue;
    var t := m.owner.value;
    OneMore(flag, steps, ReleaseStep(t));
    HeadOwner(m.waiters);
    assert !OwnerRight(flag, steps, t);
  }

  /**
   * In every run the 8-bit hold count has the mutex owned by the right thread, now and after the
   * next release, if and only if takes were never nested deeper than 256.
   */
  lemma HoldCountIsRight(flag: Discipline, steps: seq<MutexStep>)
    requires MutexRun(flag, steps)
    ensures (forall i, t: nat :: 0 <= i <= |steps| ==> OwnerRight(flag, steps[..i], t))
       <==> (forall i :: 0 <= i <= |steps| ==> RecursiveAfter(flag, steps[..i]).depth <= 256)
  {
    hide MutexAfter;
    hide RecursiveAfter;
    if forall i :: 0 <= i <= |steps| ==> RecursiveAfter(flag, steps[..i]).depth <= 256 {
      forall i, t: nat | 0 <= i <= |steps|
        ensures OwnerRight(flag, steps[..i], t)
      {
        PrefixAgrees(flag, steps, i);
        OneMore(flag, steps[..i], ReleaseStep(t));
        AgreeStep(flag, MutexAfter(flag, steps[..i]), RecursiveAfter(flag, steps[..i]), ReleaseStep(t));
      }
    } else {
      var i := FirstTooDeep(flag, steps, |steps|);
      PrefixAgrees(flag, steps, i);
      TooDeep(flag, steps[..i]);
      var t: nat :| !OwnerRight(flag, steps[..i], t);
    }
  }

  lemma PrefixAgrees(flag: Discipline, steps: seq<MutexStep>, i: nat)
    requires MutexRun(flag, steps) && i <= |steps|
    requires forall j :: 0 <= j < i ==> RecursiveAfter(flag, steps[..j]).depth <= 256
    ensures MutexValid(flag, MutexAfter(flag, steps[..i]))
      && Agree(MutexAfter(flag, steps[..i]), RecursiveAfter(flag, steps[..i]))
    ensures RecursiveAfter(flag, steps[..i]).depth <= 257
  {
    assert forall j :: 0 <= j < i ==> steps[..i][..j] == steps[..j];
    AgreeWithin(flag, steps[..i]);
  }

  /** The first moment at which takes are nested too deep. */
  lemma {:induction false} FirstTooDeep(flag: Discipline, steps: seq<MutexStep>, n: nat) returns (i: nat)
    requires n <= |steps| && exists j :: 0 <= j <= n && RecursiveAfter(flag, steps[..j]).depth > 256
    ensures i <= n && RecursiveAfter(flag, steps[..i]).depth > 256
    ensures forall j :: 0 <= j < i ==> RecursiveAfter(flag, steps[..j]).depth <= 256
  {
    if n > 0 && exists j :: 0 <= j <= n - 1 && RecursiveAfter(flag, steps[..j]).depth > 256 {
      i := FirstTooDeep(flag, steps, n - 1);
    } else {
      i := n;
    }
  }

  function Repeated(step: MutexStep, n: nat): (r: seq<MutexStep>)
    ensures |r| == n && forall i :: 0 <= i < n ==> r[i] == step
  {
    seq(n, _ => step)
  }

  /** n takes and k releases by one thread. */
  function Nested(t: nat, priority: U32, n: nat, k: nat): seq<MutexStep> {
    Repeated(TakeStep(t, priority, true), n) + Repeated(ReleaseStep(t), k)
  }

  lemma {:induction false} NestedTakes(flag: Discipline, t: nat, priority: U32, n: nat)
    requires n > 0
    ensures MutexAfter(flag, Nested(t, priority, n, 0)) == MutexState(0, n % 256, Some(t), priority, [])
  {
    NoSteps(flag, t, priority);
    hide MutexAfter;
    hide Nested;
    NestedFurther(t, priority, n);
    OneMore(flag, Nested(t, priority, n - 1, 0), TakeStep(t, priority, true));
    if n > 1 {
      NestedTakes(flag, t, priority, n - 1);
    }
    CountUp(n);
  }

  lemma NoSteps(flag: Discipline, t: nat, priority: U32)
    ensures MutexAfter(flag, Nested(t, priority, 0, 0)) == CREATED
  {
    assert Nested(t, priority, 0, 0) == [];
  }

  lemma NestedFurther(t: nat, priority: U32, n: nat)
    requires n > 0
    ensures Nested(t, priority, n, 0) == Nested(t, priority, n - 1, 0) + [TakeStep(t, priority, true)]
  {
  }

  lemma CountUp(n: nat)
    requires n > 0
    ensures ((n - 1) % 256 + 1) % 256 == n % 256
  {
  }

  /** How many releases it takes to free the mutex after n nested takes. */
  function Frees(n: nat): (c: nat)
    requires n > 0
    ensures 0 < c <= 256 && c <= n && c % 256 == n % 256
    ensures c == n <==> n <= 256
  {
    (n - 1) % 256 + 1
  }

  /** Until the count has run down to 0 the owner stays; when it does, the mutex is free. */
  lemma {:induction false} NestedReleases(flag: Discipline, t: nat, priority: U32, n: nat, k: nat)
    requires n > 0 && k <= Frees(n)
    ensures MutexAfter(flag, Nested(t, priority, n, k)) ==
      if k == Frees(n) then CREATED else MutexState(0, (Frees(n) - k) % 256, Some(t), priority, [])
    decreases k
  {
    hide MutexAfter;
    hide Nested;
    hide Frees;
    if k == 0 {
      NestedTakes(flag, t, priority, n);
    } else {
      NestedMore(t, priority, n, k);
      OneMore(flag, Nested(t, priority, n, k - 1), ReleaseStep(t));
      NestedReleases(flag, t, priority, n, k - 1);
      CountDown(Frees(n) - k);
    }
  }

  lemma NestedMore(t: nat, priority: U32, n: nat, k: nat)
    requires k > 0
    ensures Nested(t, priority, n, k) == Nested(t, priority, n, k - 1) + [ReleaseStep(t)]
  {
  }

  lemma CountDown(rest: nat)
    requires rest < 256
    ensures ((rest + 1) % 256 - 1) % 256 == rest
  {
  }

  /**
   * After n nested takes, a thread still owns the mutex after each k < n releases if and only
   * if n is at most 256.
   */
  lemma NestedHolds(flag: Discipline, t: nat, priority: U32, n: nat)
    ensures (forall k :: 0 <= k < n ==> MutexAfter(flag, Nested(t, priority, n, k)).owner == Some(t)) <==> n <= 256
  {
    hide MutexAfter;
    hide Nested;
    if n <= 256 {
      forall k | 0 <= k < n
        ensures MutexAfter(flag, Nested(t, priority, n, k)).owner == Some(t)
      {
        NestedReleases(flag, t, priority, n, k);
      }
    } else {
      NestedReleases(flag, t, priority, n, Frees(n));
    }
  }

  /** A witness: of 257 nested takes the first release frees the mutex. */
  lemma FirstReleaseFrees(flag: Discipline, t: nat, priority: U32)
    ensures MutexAfter(flag, Nested(t, priority, 257, 1)) == CREATED
  {
    hide MutexAfter;
    hide Nested;
    NestedReleases(flag, t, priority, 257, 1);
  }

  class Mutex {
    const flag: Discipline
    var value: int
    var hold: int
    var owner: Option<nat>
    var originalPriority: U32
    var waiters: seq<Entry>

    ghost function State(): MutexState
      reads this
    {
      MutexState(value, hold, owner, originalPriority, waiters)
    }

    ghost predicate Valid()
      reads this
    {
      MutexValid(flag, State())
    }

    /** rt_mutex_init. */
    constructor (flag: Discipline)
      ensures Valid() && State() == CREATED && this.flag == flag
    {
      this.flag, value, hold, owner, originalPriority, waiters := flag, 1, 0, None, 0xff, [];
    }

    /**
     * rt_mutex_take, up to the point where the thread is suspended; raise is the priority that the
     * owner is given, if any. ownerPriority is the owner's current priority.
     */
    method Take(t: nat, priority: U32, ownerPriority: U32, canBlock: bool) returns (r: Answer, raise: Option<U32>)
      requires Valid() && t !in Owners(waiters)
      modifies this`value, this`hold, this`owner, this`originalPriority, this`waiters
      ensures Valid() && State() == MutexNext(flag, old(State()), TakeStep(t, priority, canBlock))
      ensures r == if old(owner) == Some(t) || old(owner) == None then Taken else if canBlock then Blocked else TimedOut
      ensures r == Taken <==> owner == Some(t)
      ensures r == Blocked <==> t in Owners(waiters)
      ensures raise == if r == Blocked && priority < ownerPriority then Some(priority) else None
      ensures r == Taken && old(owner) == None ==> originalPriority == priority && hold == 1 && value == 0
      ensures r == Taken && old(owner) != None ==>
        originalPriority == old(originalPriority) && hold == (old(hold) + 1) % 256
      ensures r != Taken ==> owner == old(owner) && originalPriority == old(originalPriority) && hold == old(hold)
    {
      MutexKeeps(flag, State(), TakeStep(t, priority, canBlock));
      SuspendedMembers(waiters, Entry(priority, t), flag);
      raise := None;
      if owner == Some(t) {
        hold := (hold + 1) % 256;
        r := Taken;
      } else if value > 0 {
        value := value - 1;
        owner := Some(t);
        originalPriority := priority;
        hold := (hold + 1) % 256;
        r := Taken;
      } else if !canBlock {
        r := TimedOut;
      } else {
        if priority < ownerPriority {
          raise := Some(priority);
        }
        waiters := Suspend(waiters, Entry(priority, t), flag);
        r := Blocked;
      }
    }

    /**
     * rt_mutex_release: false if the thread is not the owner. The first waiter becomes the owner;
     * restore is the priority that the releasing thread goes back to, if it had been raised.
     */
    method Release(t: nat, currentPriority: U32) returns (ok: bool, restore: Option<U32>)
      requires Valid()
      modifies this`value, this`hold, this`owner, this`originalPriority, this`waiters
      ensures Valid() && State() == MutexNext(flag, old(State()), ReleaseStep(t))
      ensures ok <==> old(owner) == Some(t)
      ensures restore == if ok && owner != Some(t) && old(originalPriority) != currentPriority
        then Some(old(originalPriority)) else None
      ensures ok && owner != Some(t) ==>
        if old(waiters) == [] then owner == None && originalPriority == 0xff && waiters == [] && hold == 0
        else owner == Some(old(waiters)[0].owner) && originalPriority == old(waiters)[0].value
             && waiters == old(waiters)[1..] && hold == 1
      ensures owner == old(owner) ==> waiters == old(waiters) && originalPriority == old(originalPriority)
      ensures owner == old(owner) ==> hold == if ok then (old(hold) - 1) % 256 else old(hold)
    {
      MutexKeeps(flag, State(), ReleaseStep(t));
      HeadOwner(waiters);
      ok := owner == Some(t);
      restore := None;
      if ok {
        hold := (hold - 1) % 256;
        if hold == 0 {
          if originalPriority != currentPriority {
            restore := Some(originalPriority);
          }
          if waiters != [] {
            owner := Some(waiters[0].owner);
            originalPriority := waiters[0].value;
            hold := (hold + 1) % 256;
            waiters := waiters[1..];
          } else {
            value := value + 1;
            owner := None;
            originalPriority := 0xff;
          }
        }
      }
    }

    /** The timer of a suspended thread takes it off the list. */
    method Expire(t: nat)
      requires Valid()
      modifies this`waiters
      ensures Valid() && State() == MutexNext(flag, old(State()), ExpireStep(t))
    {
      MutexKeeps(flag, State(), ExpireStep(t));
      waiters := RemoveOwner(waiters, t);
    }
  }

  // ----- events -----

  /** What a receiver asked for; AND is looked at before OR. */
  datatype Wish = Wish(want: Word, flagAnd: bool, flagOr: bool, clear: bool)

  predicate Satisfied(w: Wish, set_: Word) {
    if w.flagAnd then set_ * w.want == w.want else w.flagOr && set_ * w.want != {}
  }

  /** What satisfies a receiver, bit by bit: all the bits that it wants, or at least one of them. */
  lemma SatisfiedMeans(w: Wish, set_: Word)
    ensures w.flagAnd ==> (Satisfied(w, set_) <==> forall b :: b in w.want ==> b in set_)
    ensures !w.flagAnd ==> (Satisfied(w, set_) <==> w.flagOr && exists b :: b in w.want && b in set_)
  {
    if w.flagAnd {
      assert forall b :: b in set_ * w.want <==> b in set_ && b in w.want;
      if forall b :: b in w.want ==> b in set_ {
        assert set_ * w.want == w.want;
      }
    } else {
      assert forall b :: b in set_ * w.want <==> b in set_ && b in w.want;
      if set_ * w.want != {} {
        var b :| b in set_ * w.want;
      }
    }
  }

  /** What a satisfied receiver gets. */
  function Received(w: Wish, set_: Word): Word { if w.flagAnd then w.want else w.want * set_ }

  lemma ReceivedBits(w: Wish, set_: Word)
    requires Satisfied(w, set_)
    ensures Received(w, set_) <= set_ && Received(w, set_) == set_ * w.want
  {
    if w.flagAnd {
      assert forall b :: b in w.want ==> b in set_ * w.want;
    }
  }

  lemma FewerBits(w: Wish, less: Word, more: Word)
    requires less <= more && Satisfied(w, less)
    ensures Satisfied(w, more)
  {
    if w.flagAnd {
      assert forall b :: b in w.want ==> b in less * w.want;
      assert more * w.want == w.want;
    } else {
      var b :| b in less * w.want;
      assert b in more * w.want;
    }
  }

  datatype Offered = Offered(staying: seq<Entry>, left: Word, received: map<nat, Word>)

  /** Offering bits to the receivers in list order; each that wants them cleared uses its bits up. */
  function Offer(s: seq<Entry>, wish: map<nat, Wish>, bits: Word): Offered
    requires Owners(s) <= wish.Keys
  {
    if s == [] then Offered([], bits, map[])
    else
      OwnersFirst(s);
      var t := s[0].owner;
      var r := Offer(s[1..], wish, Left(wish[t], bits));
      if Satisfied(wish[t], bits) then r.(received := r.received[t := Received(wish[t], bits)])
      else r.(staying := [s[0]] + r.staying)
  }

  /** What one receiver leaves of the bits. */
  function Left(w: Wish, bits: Word): Word { if Satisfied(w, bits) && w.clear then bits - Received(w, bits) else bits }

  lemma OwnersFirst(s: seq<Entry>)
    requires s != []
    ensures Owners(s) == {s[0].owner} + Owners(s[1..])
    ensures DistinctOwners(s) ==> s[0].owner !in Owners(s[1..])
  {
    assert s == [s[0]] + s[1..];
    assert forall x :: x in s <==> x == s[0] || x in s[1..];
    MembersGiveOwners(s[1..], s, s[0]);
  }

  lemma {:induction false} OfferMembers(s: seq<Entry>, wish: map<nat, Wish>, bits: Word)
    requires Owners(s) <= wish.Keys && DistinctOwners(s)
    ensures var r := Offer(s, wish, bits);
      && r.received.Keys <= Owners(s) && (forall e :: e in r.staying <==> e in s && e.owner !in r.received)
  {
    hide Satisfied;
    hide Received;
    hide Left;
    if s != [] {
      OwnersFirst(s);
      OfferMembers(s[1..], wish, Left(wish[s[0].owner], bits));
      assert s == [s[0]] + s[1..];
      assert forall e :: e in s[1..] ==> e.owner in Owners(s[1..]);
      hide Owners;
    }
  }

  /** The first of a list goes in front of any part r of the rest. */
  lemma Prepended(s: seq<Entry>, r: seq<Entry>)
    requires s != [] && DistinctOwners(s) && DistinctOwners(r) && (forall e :: e in r ==> e in s[1..])
    requires SortedByValue(s) ==> SortedByValue(r)
    ensures DistinctOwners([s[0]] + r) && (SortedByValue(s) ==> SortedByValue([s[0]] + r))
    ensures SortedByValue(s) ==> SortedByValue(s[1..])
  {
    forall i | 0 <= i < |r|
      ensures r[i].owner != s[0].owner && (SortedByValue(s) ==> s[0].value <= r[i].value)
    {
      assert r[i] in r && r[i] in s[1..];
    }
  }

  lemma {:induction false} OfferOrder(s: seq<Entry>, wish: map<nat, Wish>, bits: Word)
    requires Owners(s) <= wish.Keys && DistinctOwners(s)
    ensures var r := Offer(s, wish, bits); DistinctOwners(r.staying) && (SortedByValue(s) ==> SortedByValue(r.staying))
  {
    hide Satisfied;
    hide Received;
    hide Left;
    if s != [] {
      OwnersFirst(s);
      var b := Left(wish[s[0].owner], bits);
      OfferOrder(s[1..], wish, b);
      OfferMembers(s[1..], wish, b);
      OfferFirst(s, wish, bits);
      hide Offer;
      hide Owners;
      Prepended(s, Offer(s[1..], wish, b).staying);
    }
  }

  /** Bits only go, and who stays is not satisfied by what is left. */
  lemma {:induction false} OfferLeaves(s: seq<Entry>, wish: map<nat, Wish>, bits: Word)
    requires Owners(s) <= wish.Keys && DistinctOwners(s)
    ensures var r := Offer(s, wish, bits);
      && r.left <= bits && r.received.Keys <= wish.Keys
      && (forall t :: t in r.received ==> r.received[t] <= bits && Satisfied(wish[t], bits))
      && (forall e :: e in r.staying ==> e.owner in wish && !Satisfied(wish[e.owner], r.left))
  {
    if s != [] {
      OwnersFirst(s);
      var w := wish[s[0].owner];
      OfferLeaves(s[1..], wish, Left(w, bits));
      var r := Offer(s[1..], wish, Left(w, bits));
      forall t | t in r.received
        ensures Satisfied(wish[t], bits)
      {
        FewerBits(wish[t], Left(w, bits), bits);
      }
      if Satisfied(w, bits) {
        ReceivedBits(w, bits);
      } else if Satisfied(w, r.left) {
        FewerBits(w, r.left, bits);
      }
      hide Satisfied;
      hide Received;
      hide Left;
      hide Owners;
    }
  }

  /**
   * Each set bit is used up at most once: receivers that clear get disjoint bits, and what is left
   * is what was offered less what they got.
   */
  lemma {:induction false} EachBitOnce(s: seq<Entry>, wish: map<nat, Wish>, bits: Word)
    requires Owners(s) <= wish.Keys && DistinctOwners(s)
    ensures var r := Offer(s, wish, bits);
      && r.received.Keys <= wish.Keys
      && (forall t, u ::
        t in r.received && u in r.received && t != u && wish[t].clear && wish[u].clear
        ==> r.received[t] !! r.received[u])
      && (forall b ::
        b in bits ==> (b in r.left <==> forall t :: t in r.received && wish[t].clear ==> b !in r.received[t]))
  {
    if s != [] {
      OwnersFirst(s);
      var w := wish[s[0].owner];
      EachBitOnce(s[1..], wish, Left(w, bits));
      OfferLeaves(s[1..], wish, Left(w, bits));
      OfferLeaves(s, wish, bits);
      OfferMembers(s[1..], wish, Left(w, bits));
      hide Received;
      hide Satisfied;
      hide Owners;
    }
  }

  // ----- what a send means, bit by bit -----

  /** The bits that reach the k-th receiver: those offered, less those that receivers before it clear. */
  ghost function Reaching(s: seq<Entry>, wish: map<nat, Wish>, bits: Word, k: nat): Word
    requires k <= |s| && forall e :: e in s ==> e.owner in wish
  {
    if k == 0 then bits
    else
      var w := wish[s[0].owner];
      Reaching(s[1..], wish, if Satisfied(w, bits) && w.clear then bits - w.want else bits, k - 1)
  }

  /** The entries of s whose owners are not in c, in order. */
  ghost function Without(s: seq<Entry>, c: set<nat>): seq<Entry> {
    if s == [] then [] else (if s[0].owner in c then [] else [s[0]]) + Without(s[1..], c)
  }

  /**
   * Each receiver of s is resumed exactly if the bits that reach it are those it asks for, and then
   * gets all of them that it wants; the others stay in order.
   */
  ghost predicate InTurn(s: seq<Entry>, wish: map<nat, Wish>, bits: Word, staying: seq<Entry>,
                         received0: map<nat, Word>, received: map<nat, Word>)
  {
    && (forall e :: e in s ==> e.owner in wish)
    && (forall t :: t in received && t !in Owners(s) ==> t in received0 && received[t] == received0[t])
    && (forall t :: t in received0 && t !in Owners(s) ==> t in received)
    && exists resumed: set<nat> :: staying == Without(s, resumed) && forall k :: 0 <= k < |s| ==>
         var t, b := s[k].owner, Reaching(s, wish, bits, k);
         && (t in resumed <==> Satisfied(wish[t], b))
         && (t in resumed ==> t in received && received[t] == b * wish[t].want)
         && (t !in resumed && t in received ==> t in received0 && received[t] == received0[t])
         && (t !in resumed && t in received0 ==> t in received)
  }

  lemma LeftMeans(w: Wish, bits: Word)
    ensures Left(w, bits) == if Satisfied(w, bits) && w.clear then bits - w.want else bits
    ensures Satisfied(w, bits) ==> Received(w, bits) == bits * w.want
  {
    if Satisfied(w, bits) {
      ReceivedBits(w, bits);
    }
  }

  /** The offer, receiver by receiver. */
  lemma {:induction false} OfferMeans(s: seq<Entry>, wish: map<nat, Wish>, bits: Word)
    requires Owners(s) <= wish.Keys && DistinctOwners(s) && forall e :: e in s ==> e.owner in wish
    ensures var r := Offer(s, wish, bits);
      && r.left == Reaching(s, wish, bits, |s|) && r.staying == Without(s, r.received.Keys)
      && forall k :: 0 <= k < |s| ==>
           var t, b := s[k].owner, Reaching(s, wish, bits, k);
           && (t in r.received <==> Satisfied(wish[t], b))
           && (t in r.received ==> r.received[t] == b * wish[t].want)
  {
    hide Offer;
    hide Satisfied;
    hide Left;
    hide Received;
    hide Owners;
    hide DistinctOwners;
    if s == [] {
      NothingOffered(wish, bits);
    } else {
      var t, w := s[0].owner, wish[s[0].owner];
      var rest, b := s[1..], Left(w, bits);
      OwnersFirst(s);
      RestDistinct(s);
      LeftMeans(w, bits);
      OfferMeans(rest, wish, b);
      OfferMembers(rest, wish, b);
      OfferFirst(s, wish, bits);
      WithoutOther(rest, Offer(rest, wish, b).received.Keys, t);
      assert t !in Offer(rest, wish, b).received;
      assert Satisfied(w, bits) ==> Offer(s, wish, bits).received.Keys == Offer(rest, wish, b).received.Keys + {t};
      forall k | 0 < k < |s|
        ensures Reaching(s, wish, bits, k) == Reaching(rest, wish, b, k - 1) && s[k] == rest[k - 1] && s[k].owner != t
      {
        assert rest[k - 1] in rest && s[k].owner in Owners(rest) by {
          MemberOwner(rest, k - 1);
        }
      }
    }
  }

  lemma MemberOwner(s: seq<Entry>, k: nat)
    requires k < |s|
    ensures s[k] in s && s[k].owner in Owners(s)
  {
  }

  lemma RestDistinct(s: seq<Entry>)
    requires s != [] && DistinctOwners(s)
    ensures DistinctOwners(s[1..])
  {
  }

  lemma NothingOffered(wish: map<nat, Wish>, bits: Word)
    requires Owners([]) <= wish.Keys
    ensures Offer([], wish, bits) == Offered([], bits, map[])
  {
  }

  lemma {:induction false} WithoutOther(s: seq<Entry>, c: set<nat>, t: nat)
    requires t !in Owners(s)
    ensures Without(s, c + {t}) == Without(s, c)
  {
    if s != [] {
      OwnersFirst(s);
      WithoutOther(s[1..], c, t);
      assert s[0].owner in Owners(s);
      hide Owners;
    }
  }

  lemma OfferInTurn(s: seq<Entry>, wish: map<nat, Wish>, bits: Word, received0: map<nat, Word>)
    requires Owners(s) <= wish.Keys && DistinctOwners(s)
    ensures forall e :: e in s ==> e.owner in wish
    ensures var r := Offer(s, wish, bits);
      r.left == Reaching(s, wish, bits, |s|) && InTurn(s, wish, bits, r.staying, received0, received0 + r.received)
  {
    assert forall e :: e in s ==> e.owner in Owners(s);
    OfferMeans(s, wish, bits);
    OfferMembers(s, wish, bits);
    hide Offer;
    hide Owners;
    hide Satisfied;
    hide Reaching;
  }

  /** The walk at place at of the list; received holds what resumed threads have got. */
  datatype WalkState = WalkState(waiters: seq<Entry>, received: map<nat, Word>, bits: Word, at: nat)

  /** The walk that started on the list s has k threads behind it. */
  ghost predicate Walked(s: seq<Entry>, wish: map<nat, Wish>, start: WalkState, k: nat, w: WalkState)
    requires k <= |s| && Owners(s) <= wish.Keys
  {
    CutInclusion(s, k);
    var all, rest := Offer(s, wish, start.bits), Offer(s[k..], wish, w.bits);
    && w.at <= |w.waiters| && w.waiters[w.at..] == s[k..] && all.staying == w.waiters[..w.at] + rest.staying
    && all.left == rest.left && start.received + all.received == w.received + rest.received
  }

  /** One round. */
  function Visited(wish: map<nat, Wish>, w: WalkState): WalkState
    requires w.at < |w.waiters| && w.waiters[w.at].owner in wish
  {
    var e := w.waiters[w.at];
    if Satisfied(wish[e.owner], w.bits)
    then WalkState(w.waiters[..w.at] + w.waiters[w.at + 1..], w.received[e.owner := Received(wish[e.owner], w.bits)],
                   Left(wish[e.owner], w.bits), w.at)
    else w.(at := w.at + 1)
  }

  lemma WalkStep(s: seq<Entry>, wish: map<nat, Wish>, start: WalkState, k: nat, w: WalkState)
    requires k <= |s| && Owners(s) <= wish.Keys && DistinctOwners(s) && Walked(s, wish, start, k, w)
      && w.at < |w.waiters|
    ensures k < |s| && w.waiters[w.at] == s[k] && s[k].owner in wish && Walked(s, wish, start, k + 1, Visited(wish, w))
  {
    CutInclusion(s, k);
    CutInclusion(s, k + 1);
    var e, t := s[k], s[k..];
    assert w.waiters[w.at] == w.waiters[w.at..][0] == e;
    assert t[0] == e && t[1..] == s[k + 1..];
    OwnersFirst(t);
    OfferMembers(t[1..], wish, Left(wish[e.owner], w.bits));
    OfferFirst(t, wish, w.bits);
    RemoveMiddle(w.waiters, w.at, t);
    var x, later := Received(wish[e.owner], w.bits), Offer(t[1..], wish, Left(wish[e.owner], w.bits));
    StepReceived(w.received, later.received, e.owner, x);
    hide Received;
    hide Owners;
    hide Offer;
    hide Satisfied;
    hide DistinctOwners;
    Grouping(w.waiters[..w.at], e, later.staying);
    hide Left;
  }

  lemma OfferFirst(t: seq<Entry>, wish: map<nat, Wish>, bits: Word)
    requires t != [] && Owners(t) <= wish.Keys
    ensures t[0].owner in wish && Owners(t[1..]) <= wish.Keys
    ensures var w := wish[t[0].owner];
      var later := Offer(t[1..], wish, Left(w, bits));
      && (Satisfied(w, bits)
        ==> Offer(t, wish, bits) == later.(received := later.received[t[0].owner := Received(w, bits)]))
      && (!Satisfied(w, bits)
        ==> Offer(t, wish, bits) == later.(staying := [t[0]] + later.staying) && Left(w, bits) == bits)
  {
    OwnersFirst(t);
  }

  lemma RemoveMiddle(ws: seq<Entry>, at: nat, t: seq<Entry>)
    requires at < |ws| && t != [] && ws[at..] == t
    ensures var r := ws[..at] + ws[at + 1..]; r[..at] == ws[..at] && r[at..] == t[1..]
    ensures ws[..at + 1] == ws[..at] + [t[0]] && ws[at + 1..] == t[1..]
  {
    assert ws[at] == ws[at..][0];
    assert ws[at + 1..] == ws[at..][1..];
  }

  lemma StepReceived(got: map<nat, Word>, later: map<nat, Word>, t: nat, x: Word)
    ensures t !in later ==> got + later[t := x] == got[t := x] + later
  {
  }

  lemma Grouping(a: seq<Entry>, e: Entry, b: seq<Entry>)
    ensures a + ([e] + b) == a + [e] + b
  {
  }

  lemma WalkStart(s: seq<Entry>, wish: map<nat, Wish>, start: WalkState)
    requires Owners(s) <= wish.Keys && start.waiters == s && start.at == 0
    ensures Walked(s, wish, start, 0, start)
  {
    assert s[0..] == s;
  }

  lemma WalkEnd(s: seq<Entry>, wish: map<nat, Wish>, start: WalkState, k: nat, w: WalkState)
    requires k <= |s| && Owners(s) <= wish.Keys && Walked(s, wish, start, k, w) && w.at >= |w.waiters|
    ensures var r := Offer(s, wish, start.bits);
      w.waiters == r.staying && w.bits == r.left && w.received == start.received + r.received
  {
  }

  lemma LessSatisfiesNobody(s: seq<Entry>, wish: map<nat, Wish>, bits: Word, less: Word)
    requires less <= bits && forall e :: e in s ==> e.owner in wish && !Satisfied(wish[e.owner], bits)
    ensures forall e :: e in s ==> !Satisfied(wish[e.owner], less)
  {
    forall e | e in s
      ensures !Satisfied(wish[e.owner], less)
    {
      if Satisfied(wish[e.owner], less) {
        FewerBits(wish[e.owner], less, bits);
      }
    }
  }

  lemma CutInclusion(s: seq<Entry>, k: nat)
    requires k <= |s|
    ensures Owners(s[k..]) <= Owners(s)
  {
    assert forall x :: x in s[k..] ==> x in s;
  }

  class Event {
    const flag: Discipline
    var bits: Word
    var waiters: seq<Entry>
    /** event_set and event_info of the threads inside a receive call. */
    var wish: map<nat, Wish>
    /** event_set of the threads that have been resumed by a send. */
    var received: map<nat, Word>

    ghost predicate Shape()
      reads this
    {
      DistinctOwners(waiters) && Owners(waiters) <= wish.Keys && (flag == Prio ==> SortedByValue(waiters))
    }

    /** No suspended receiver's condition holds. */
    ghost predicate NoneMissed()
      reads this
    {
      forall e :: e in waiters ==> e.owner in wish && !Satisfied(wish[e.owner], bits)
    }

    ghost predicate Valid()
      reads this
    {
      Shape() && NoneMissed()
    }

    /** rt_event_init. */
    constructor (flag: Discipline)
      ensures Valid() && bits == {} && waiters == [] && this.flag == flag
    {
      this.flag, bits, waiters, wish, received := flag, {}, [], map[], map[];
    }

    /** One round of the walk in rt_event_send. */
    method Visit(at: nat) returns (next: nat)
      requires at < |waiters| && waiters[at].owner in wish
      modifies this`bits, this`waiters, this`received
      ensures WalkState(waiters, received, bits, next) == Visited(wish, old(WalkState(waiters, received, bits, at)))
    {
      var t := waiters[at].owner;
      var w := wish[t];
      next := at;
      var ok, eventSet := false, w.want;
      if w.flagAnd {
        if w.want * bits == w.want {
          ok := true;
        }
        assert w.want * bits == bits * w.want;
      } else if w.flagOr {
        if w.want * bits != {} {
          eventSet := w.want * bits;
          ok := true;
        }
        assert w.want * bits == bits * w.want;
      }
      if ok {
        if w.clear {
          bits := bits - eventSet;
        }
        received := received[t := eventSet];
        waiters := waiters[..at] + waiters[at + 1..];
      } else {
        next := at + 1;
      }
    }

    /** The walk over the whole list. */
    method Walk()
      requires Shape()
      modifies this`bits, this`waiters, this`received
      ensures var r := Offer(old(waiters), wish, old(bits));
        waiters == r.staying && bits == r.left && received == old(received) + r.received
    {
      ghost var s, start, k := waiters, WalkState(waiters, received, bits, 0), 0;
      WalkStart(s, wish, start);
      hide Walked;
      hide Visited;
      hide Offer;
      hide Owners;
      var n: nat := 0;
      while n < |waiters|
        invariant k <= |s| && Walked(s, wish, start, k, WalkState(waiters, received, bits, n))
        decreases |s| - k
      {
        WalkStep(s, wish, start, k, WalkState(waiters, received, bits, n));
        n := Visit(n);
        k := k + 1;
      }
      WalkEnd(s, wish, start, k, WalkState(waiters, received, bits, n));
    }

    /**
     * rt_event_send: the bits are offered to the suspended threads in list order, and afterwards
     * no thread is left suspended that the remaining bits would satisfy.
     */
    method Send(toSet: Word) returns (ok: bool)
      requires Valid()
      modifies this
      ensures Valid() && (ok <==> toSet != {}) && wish == old(wish)
      ensures !ok ==> bits == old(bits) && waiters == old(waiters) && received == old(received)
      ensures ok ==> var r := Offer(old(waiters), wish, old(bits) + toSet);
        waiters == r.staying && bits == r.left && received == old(received) + r.received
      ensures ok ==>
        && bits == Reaching(old(waiters), wish, old(bits) + toSet, |old(waiters)|)
        && InTurn(old(waiters), wish, old(bits) + toSet, waiters, old(received), received)
      ensures forall e :: e in waiters ==> e.owner in wish && !Satisfied(wish[e.owner], bits)
    {
      ok := toSet != {};
      if ok {
        OfferMembers(waiters, wish, bits + toSet);
        OfferOrder(waiters, wish, bits + toSet);
        OfferLeaves(waiters, wish, bits + toSet);
        OfferInTurn(waiters, wish, bits + toSet, received);
        hide Offer;
        hide InTurn;
        hide Reaching;
        hide Satisfied;
        bits := bits + toSet;
        Walk();
      }
    }

    /** rt_event_recv up to the point where the thread is suspended; the wish must ask for something. */
    method Receive(t: nat, priority: U32, w: Wish, canBlock: bool) returns (r: Answer, got: Word)
      requires Valid() && t !in wish && w.want != {} && (w.flagAnd || w.flagOr)
      modifies this
      ensures Valid()
      ensures r == Taken <==>
        if w.flagAnd then forall b :: b in w.want ==> b in old(bits) else exists b :: b in w.want && b in old(bits)
      ensures r != Taken ==> r == if canBlock then Blocked else TimedOut
      ensures r == Taken ==> got == old(bits) * w.want && bits == if w.clear then old(bits) - w.want else old(bits)
      ensures r != Taken ==> bits == old(bits) && got == {}
      ensures received == old(received)
      ensures waiters == if r == Blocked then Suspended(old(waiters), Entry(priority, t), flag) else old(waiters)
      ensures wish == if r == Blocked then old(wish)[t := w] else old(wish)
    {
      got := {};
      SatisfiedMeans(w, bits);
      var status := false;
      if w.flagAnd {
        status := bits * w.want == w.want;
      } else if w.flagOr {
        status := bits * w.want != {};
      }
      if status {
        got := bits * w.want;
        if w.clear {
          LessSatisfiesNobody(waiters, wish, bits, bits - w.want);
          bits := bits - w.want;
        }
        r := Taken;
      } else if !canBlock {
        r := TimedOut;
      } else {
        assert t !in Owners(waiters);
        SuspendedMembers(waiters, Entry(priority, t), flag);
        SuspendedEntries(waiters, Entry(priority, t), flag);
        hide Suspended;
        hide Owners;
        hide Satisfied;
        wish := wish[t := w];
        waiters := Suspend(waiters, Entry(priority, t), flag);
        r := Blocked;
      }
    }

    /** The end of rt_event_recv, when the thread runs again: what it was given, or nothing if it timed out. */
    method FinishReceive(t: nat) returns (got: Option<Word>)
      requires Valid() && t in wish && t !in Owners(waiters)
      modifies this`wish, this`received
      ensures Valid() && wish == old(wish) - {t} && received == old(received) - {t}
      ensures got == if t in old(received) then Some(old(received)[t]) else None
    {
      assert forall e :: e in waiters ==> e.owner in Owners(waiters);
      got := if t in received then Some(received[t]) else None;
      wish := wish - {t};
      received := received - {t};
    }

    /** The timer of a suspended thread takes it off the list. */
    method Expire(t: nat)
      requires Valid()
      modifies this`waiters
      ensures Valid() && waiters == RemoveOwner(old(waiters), t)
    {
      RemoveKeepsOrder(waiters, t);
      RemoveMembers(waiters, t);
      RemoveOwners(waiters, t);
      hide Satisfied;
      waiters := RemoveOwner(waiters, t);
    }
  }
}
