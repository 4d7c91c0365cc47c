/**
 * Priority inheritance: mutex take with a timeout, give, and the three functions that raise and
 * lower the priority of a mutex holder. One step is one critical section or one stretch with the
 * scheduler suspended; mutexes are not used from interrupts.
 */
module Inheritance {
  import opened Basics
  import Words
  import opened ValueLists

  const MAX_PRIORITIES := 8

  /**
   * Where a task is: outside any take call, blocked for some other reason, or in a take of mutex m,
   * where inherited is xInheritanceOccurred.
   */
  datatype Place =
    | Outside
    | Asleep
    | Trying(m: nat, inherited: bool)
    | AtLock(m: nat, inherited: bool)
    | Waiting(m: nat, inherited: bool)
    | Expired(m: nat, inherited: bool)
    | Undoing(m: nat, inherited: bool)
  {
    predicate Ready() { !Waiting? && !Asleep? }

    predicate InCall() { !Outside? && !Asleep? }
  }

  datatype Task = Task(base: nat, pri: nat, held: nat, place: Place)

  /** The holder, and the waiters in event list order. */
  datatype Mutex = Mutex(holder: Option<nat>, waiters: seq<Entry>)

  datatype System = System(tasks: map<nat, Task>, mutexes: map<nat, Mutex>)

  // ----- the three functions, on values -----

  /** xTaskPriorityInherit for a holder h and a running task of priority p. */
  function Inherit(h: Task, p: nat): (Task, bool) {
    if h.pri < p then (h.(pri := p), true) else (h, h.base < p)
  }

  /** xTaskPriorityDisinherit. */
  function Disinherit(h: Task): Task {
    if h.held == 0 then h  // excluded by an assertion in the source, which StepKeeps shows to hold
    else if h.pri != h.base && h.held == 1 then h.(held := 0, pri := h.base)
    else h.(held := h.held - 1)
  }

  function Larger(a: nat, b: nat): nat { if a < b then b else a }

  /** vTaskPriorityDisinheritAfterTimeout, where highest is the highest priority still waiting. */
  function DisinheritAfterTimeout(h: Task, highest: nat): Task {
    if h.pri != Larger(h.base, highest) && h.held == 1 then h.(pri := Larger(h.base, highest)) else h
  }

  /** prvGetDisinheritPriorityAfterTimeout. */
  function HighestWaiting(waiters: seq<Entry>): nat {
    if waiters == [] then 0 else if waiters[0].value <= MAX_PRIORITIES then MAX_PRIORITIES - waiters[0].value else 0
  }

  // ----- the three functions, in place -----

  /** The event list value of a task of priority p. */
  function EventValue(p: nat): Words.U32 { if p <= MAX_PRIORITIES then MAX_PRIORITIES - p else 0 }

  /** The fields of a task control block that inheritance changes. */
  class Tcb {
    var priority: nat
    var basePriority: nat
    var mutexesHeld: nat
    /** The sort value for priority-ordered event lists, unless in use for event bits. */
    var eventValue: Words.U32
    var eventValueInUse: bool
    /** The ready list that the task is on, if it is on one. */
    var readyList: Option<nat>

    ghost var place: Place

    /** A ready task is on the ready list of its priority, and its event list value is in step. */
    ghost predicate Valid()
      reads this
    {
      && priority < MAX_PRIORITIES && basePriority < MAX_PRIORITIES
      && (readyList != None ==> readyList == Some(priority))
      && (!eventValueInUse ==> eventValue == EventValue(priority))
    }

    ghost function View(): Task
      reads this
    {
      Task(basePriority, priority, mutexesHeld, place)
    }

    method SetEventValue()
      requires priority <= MAX_PRIORITIES
      modifies this`eventValue
      ensures eventValue == EventValue(priority)
    {
      eventValue := MAX_PRIORITIES - priority;
    }

    /** xTaskPriorityInherit on the holder; current is the running task's priority. */
    method PriorityInherit(current: nat) returns (occurred: bool)
      requires Valid() && current < MAX_PRIORITIES
      modifies this
      ensures Valid() && (View(), occurred) == Inherit(old(View()), current)
      ensures (readyList == None) == (old(readyList) == None) && eventValueInUse == old(eventValueInUse)
      ensures priority == Larger(old(priority), current)
      ensures occurred == (old(priority) < current || basePriority < current)
      ensures basePriority == old(basePriority) && mutexesHeld == old(mutexesHeld)
    {
      occurred := false;
      if priority < current {
        if !eventValueInUse {
          eventValue := MAX_PRIORITIES - current;
        }
        if readyList == Some(priority) {
          priority := current;
          readyList := Some(priority);
        } else {
          priority := current;
        }
        occurred := true;
      } else {
        if basePriority < current {
          occurred := true;
        }
      }
    }

    /** xTaskPriorityDisinherit: true if a context switch may be needed. */
    method PriorityDisinherit() returns (switch: bool)
      requires Valid() && mutexesHeld > 0 && readyList != None && !eventValueInUse
      modifies this
      ensures Valid() && View() == Disinherit(old(View())) && readyList != None
      ensures switch <==> priority != old(priority)
      ensures priority == (if old(mutexesHeld) == 1 then basePriority else old(priority))
      ensures basePriority == old(basePriority) && mutexesHeld == old(mutexesHeld) - 1 && !eventValueInUse
    {
      switch := false;
      mutexesHeld := mutexesHeld - 1;
      if priority != basePriority {
        if mutexesHeld == 0 {
          priority := basePriority;
          SetEventValue();
          readyList := Some(priority);
          switch := true;
        }
      }
    }

    /** vTaskPriorityDisinheritAfterTimeout. */
    method PriorityDisinheritAfterTimeout(highestWaiting: nat)
      requires Valid() && mutexesHeld > 0 && highestWaiting < MAX_PRIORITIES
      modifies this
      ensures Valid() && View() == DisinheritAfterTimeout(old(View()), highestWaiting)
      ensures (readyList == None) == (old(readyList) == None) && eventValueInUse == old(eventValueInUse)
      ensures priority
           == if old(mutexesHeld) == 1 then Larger(basePriority, highestWaiting) else old(priority)
      ensures basePriority == old(basePriority) && mutexesHeld == old(mutexesHeld)
    {
      var toUse;
      if basePriority < highestWaiting {
        toUse := highestWaiting;
      } else {
        toUse := basePriority;
      }
      if priority != toUse {
        if mutexesHeld == 1 {
          var onEntry := priority;
          priority := toUse;
          if !eventValueInUse {
            SetEventValue();
          }
          if readyList == Some(onEntry) {
            readyList := Some(priority);
          }
        }
      }
    }
  }

  // ----- steps -----

  datatype Step =
    | Take(task: nat, mutex: nat, wait: bool)
    | Retry(task: nat)
    | Block(task: nat, timedOut: bool)
    | CheckEmpty(task: nat)
    | Undo(task: nat)
    | Give(task: nat, mutex: nat)
    | Sleep(task: nat)
    | Rouse(task: nat)
    | Expire(task: nat)

  /** t is a ready task of the highest priority. */
  ghost predicate Runs(s: System, t: nat) {
    && t in s.tasks && s.tasks[t].place.Ready()
    && forall u :: u in s.tasks && s.tasks[u].place.Ready() ==> s.tasks[u].pri <= s.tasks[t].pri
  }

  ghost predicate Enabled(s: System, e: Step) {
    match e
    case Take(t, m, wait) => Runs(s, t) && s.tasks[t].place.Outside? && m in s.mutexes
      && (wait ==> s.tasks[t].held == 0)
    case Retry(t) => Runs(s, t) && s.tasks[t].place.Trying? && s.tasks[t].place.m in s.mutexes
    case Block(t, _) => Runs(s, t) && s.tasks[t].place.AtLock? && s.tasks[t].place.m in s.mutexes
    case CheckEmpty(t) => Runs(s, t) && s.tasks[t].place.Expired? && s.tasks[t].place.m in s.mutexes
    case Undo(t) => Runs(s, t) && s.tasks[t].place.Undoing? && s.tasks[t].place.m in s.mutexes
    case Give(t, m) => Runs(s, t) && s.tasks[t].place.Outside? && m in s.mutexes && s.mutexes[m].holder == Some(t)
    case Sleep(t) => Runs(s, t) && s.tasks[t].place.Outside?
    case Rouse(t) => t in s.tasks && s.tasks[t].place.Asleep?
    case Expire(t) => t in s.tasks && s.tasks[t].place.Waiting? && s.tasks[t].place.m in s.mutexes
  }

  function SetTask(s: System, t: nat, k: Task): System { s.(tasks := s.tasks[t := k]) }

  function SetMutex(s: System, m: nat, x: Mutex): System { s.(mutexes := s.mutexes[m := x]) }

  function MoveTo(s: System, t: nat, p: Place): System
    requires t in s.tasks
  {
    SetTask(s, t, s.tasks[t].(place := p))
  }

  /** The mutex is free: task t becomes its holder. */
  function Acquire(s: System, t: nat, m: nat): System
    requires t in s.tasks && m in s.mutexes
  {
    SetTask(SetMutex(s, m, s.mutexes[m].(holder := Some(t))), t,
            s.tasks[t].(held := s.tasks[t].held + 1, place := Outside))
  }

  /** The caller raises the holder if need be and joins the event list. */
  function JoinWaiters(s: System, t: nat, m: nat): System
    requires t in s.tasks && m in s.mutexes
  {
    var p := s.tasks[t].pri;
    var x := s.mutexes[m];
    var (s1, inherited) :=
      if x.holder.Some? && x.holder.value in s.tasks
      then (SetTask(s, x.holder.value, Inherit(s.tasks[x.holder.value], p).0), Inherit(s.tasks[x.holder.value], p).1)
      else (s, false);
    var s2 := SetMutex(s1, m, x.(waiters := InsertByValue(x.waiters, Entry(EventValue(p), t))));
    SetTask(s2, t, s1.tasks[t].(place := Waiting(m, inherited)))
  }

  /** The holder's priority drops if it may, the mutex is free, and the first waiter is woken. */
  function Release(s: System, t: nat, m: nat): System
    requires t in s.tasks && m in s.mutexes
  {
    var x := s.mutexes[m];
    var s1 := SetTask(s, t, Disinherit(s.tasks[t]));
    if x.waiters == [] then SetMutex(s1, m, Mutex(None, []))
    else WakeWaiter(SetMutex(s1, m, Mutex(None, x.waiters[1..])), x.waiters[0].owner, m)
  }

  function WakeWaiter(s: System, t: nat, m: nat): System {
    if t in s.tasks then MoveTo(s, t, Trying(m, s.tasks[t].place.InCall() && s.tasks[t].place.inherited)) else s
  }

  function Next(s: System, e: Step): System
    requires Enabled(s, e)
  {
    var p := s.tasks[e.task].place;
    match e
    case Take(t, m, wait) =>
      if s.mutexes[m].holder == None then Acquire(s, t, m)
      else if wait then MoveTo(s, t, AtLock(m, false)) else s
    case Retry(t) =>
      if s.mutexes[p.m].holder == None then Acquire(s, t, p.m) else MoveTo(s, t, AtLock(p.m, p.inherited))
    case Block(t, timedOut) =>
      if timedOut then MoveTo(s, t, Expired(p.m, p.inherited))
      else if s.mutexes[p.m].holder == None then MoveTo(s, t, Trying(p.m, p.inherited))
      else JoinWaiters(s, t, p.m)
    case CheckEmpty(t) =>
      if s.mutexes[p.m].holder == None then MoveTo(s, t, Trying(p.m, p.inherited))
      else if p.inherited then MoveTo(s, t, Undoing(p.m, true))
      else MoveTo(s, t, Outside)
    case Undo(t) => MoveTo(Lower(s, p.m), t, Outside)
    case Give(t, m) => Release(s, t, m)
    case Sleep(t) => MoveTo(s, t, Asleep)
    case Rouse(t) => MoveTo(s, t, Outside)
    case Expire(t) =>
      WakeWaiter(SetMutex(s, p.m, s.mutexes[p.m].(waiters := RemoveOwner(s.mutexes[p.m].waiters, t))), t, p.m)
  }

  /** The holder of m, if any, goes down to the highest priority still waiting for m. */
  function Lower(s: System, m: nat): System
    requires m in s.mutexes
  {
    var x := s.mutexes[m];
    if x.holder.Some? && x.holder.value in s.tasks
    then SetTask(s, x.holder.value, DisinheritAfterTimeout(s.tasks[x.holder.value], HighestWaiting(x.waiters)))
    else s
  }

  // ----- the invariant -----

  ghost function HeldBy(s: System, t: nat): set<nat> { set m | m in s.mutexes && s.mutexes[m].holder == Some(t) }

  ghost predicate TaskOk(s: System, t: nat)
    requires t in s.tasks
  {
    var k := s.tasks[t];
    && k.held == |HeldBy(s, t)|
    && k.base <= k.pri < MAX_PRIORITIES && (k.held == 0 ==> k.pri == k.base)
    && (k.place.InCall() ==> k.held == 0 && k.place.m in s.mutexes)
    && (k.place.Waiting? ==> k.place.m in s.mutexes && t in Owners(s.mutexes[k.place.m].waiters))
  }

  /** The event list is sorted by the waiters' present priorities, highest first. */
  ghost predicate WaitersOk(s: System, m: nat)
    requires m in s.mutexes
  {
    var w := s.mutexes[m].waiters;
    && SortedByValue(w) && DistinctOwners(w)
    && forall x :: x in w ==> x.owner in s.tasks && s.tasks[x.owner].place.Waiting? && s.tasks[x.owner].place.m == m
                              && x.value == EventValue(s.tasks[x.owner].pri)
  }

  /** t is at least as urgent as everyone who waits for m. */
  ghost predicate Outranks(s: System, t: nat, m: nat)
    requires m in s.mutexes
  {
    t in s.tasks && forall x ::
      x in s.mutexes[m].waiters && x.owner in s.tasks ==> s.tasks[x.owner].pri <= s.tasks[t].pri
  }

  /** t has been woken and will take m if it is still free when t runs. */
  ghost predicate Claims(s: System, t: nat, m: nat)
    requires m in s.mutexes
  {
    t in s.tasks && s.tasks[t].place.Trying? && s.tasks[t].place.m == m && Outranks(s, t, m)
  }

  ghost predicate HolderOk(s: System, m: nat)
    requires m in s.mutexes
  {
    match s.mutexes[m].holder
    case Some(h) => Outranks(s, h, m)
    case None => s.mutexes[m].waiters != [] ==> exists t :: Claims(s, t, m)
  }

  ghost predicate Inv(s: System) {
    && (forall t :: t in s.tasks ==> TaskOk(s, t))
    && (forall m :: m in s.mutexes ==> WaitersOk(s, m) && HolderOk(s, m))
  }

  lemma InvIf(s: System, r: System, m: nat)
    requires Inv(s) && m in r.mutexes && s.mutexes.Keys == r.mutexes.Keys
    requires forall t :: t in r.tasks ==> TaskOk(r, t)
    requires forall n :: n in s.mutexes && n != m ==> LeftAlone(s, r, n)
    requires WaitersOk(r, m) && HolderOk(r, m)
    ensures Inv(r)
  {
    forall n | n in r.mutexes && n != m
      ensures WaitersOk(r, n) && HolderOk(r, n)
    {
      MutexFrame(s, r, n);
    }
  }

  // ----- frames -----

  predicate BlockedOn(s: System, t: nat, m: nat)
  {
    t in s.tasks && s.tasks[t].place.Waiting? && s.tasks[t].place.m == m
  }

  predicate HeldByTask(s: System, h: nat, m: nat) { m in s.mutexes && s.mutexes[m].holder == Some(h) }

  lemma TaskFrame(s: System, r: System, t: nat)
    requires t in s.tasks && t in r.tasks && r.tasks[t] == s.tasks[t] && TaskOk(s, t)
    requires HeldBy(r, t) == HeldBy(s, t) && s.mutexes.Keys <= r.mutexes.Keys
    requires s.tasks[t].place.Waiting? ==> t in Owners(r.mutexes[s.tasks[t].place.m].waiters)
    ensures TaskOk(r, t)
  {
    hide HeldBy;
    hide Owners;
  }

  /** A mutex is left alone: its waiters do not change, nor do its claimants if it is free, nor does its holder drop. */
  ghost predicate LeftAlone(s: System, r: System, m: nat)
    requires m in s.mutexes
  {
    && m in r.mutexes && r.mutexes[m] == s.mutexes[m] && s.tasks.Keys <= r.tasks.Keys
    && (forall u :: u in s.tasks && s.tasks[u].place.Waiting? && s.tasks[u].place.m == m ==> r.tasks[u] == s.tasks[u])
    && (match s.mutexes[m].holder
        case Some(h) => h in s.tasks ==> r.tasks[h].pri >= s.tasks[h].pri
        case None => forall u ::
          u in s.tasks && s.tasks[u].place.Trying? && s.tasks[u].place.m == m ==> r.tasks[u] == s.tasks[u])
  }

  lemma MutexFrame(s: System, r: System, m: nat)
    requires m in s.mutexes && WaitersOk(s, m) && HolderOk(s, m) && LeftAlone(s, r, m)
    ensures WaitersOk(r, m) && HolderOk(r, m)
  {
    forall t | Outranks(s, t, m) && r.tasks[t].pri >= s.tasks[t].pri
      ensures Outranks(r, t, m)
    {
    }
    if s.mutexes[m].holder == None && s.mutexes[m].waiters != [] {
      var t :| Claims(s, t, m);
      assert Claims(r, t, m);
    }
  }

  /** Only the tasks in c and mutex m have changed, and no task in c is on a list of another mutex or has dropped. */
  lemma OthersLeftAlone(s: System, r: System, c: set<nat>, m: nat)
    requires s.tasks.Keys == r.tasks.Keys && s.mutexes.Keys == r.mutexes.Keys
    requires forall n :: n in s.mutexes && n != m ==> r.mutexes[n] == s.mutexes[n]
    requires forall u :: u in s.tasks && u !in c ==> r.tasks[u] == s.tasks[u]
    requires forall u ::
      u in s.tasks && u in c && (s.tasks[u].place.Waiting? || s.tasks[u].place.Trying?) ==> s.tasks[u].place.m == m
    requires forall u, n :: u in s.tasks && u in c && n != m && HeldByTask(s, u, n) ==> r.tasks[u].pri >= s.tasks[u].pri
    ensures forall n :: n in s.mutexes && n != m ==> LeftAlone(s, r, n)
  {
    forall n | n in s.mutexes && n != m
      ensures LeftAlone(s, r, n)
    {
      if s.mutexes[n].holder.Some? {
        assert HeldByTask(s, s.mutexes[n].holder.value, n);
      }
    }
  }

  /** Who holds what depends on the holders alone. */
  lemma SameHolders(s: System, r: System)
    requires s.mutexes.Keys == r.mutexes.Keys
    requires forall m :: m in s.mutexes ==> r.mutexes[m].holder == s.mutexes[m].holder
    ensures forall t :: HeldBy(r, t) == HeldBy(s, t)
  {
  }

  lemma NotHolding(s: System, t: nat, m: nat)
    requires t in s.tasks && TaskOk(s, t) && m in s.mutexes && s.mutexes[m].holder == Some(t)
    ensures s.tasks[t].held > 0 && !s.tasks[t].place.InCall()
    ensures s.tasks[t].held == 1 ==> HeldBy(s, t) == {m}
  {
    assert m in HeldBy(s, t);
    assert HeldBy(s, t) == (HeldBy(s, t) - {m}) + {m};
  }

  // ----- every step keeps the invariant -----

  /** A task moves between places other than the event lists; a claimant of a free mutex stays. */
  lemma MoveKeeps(s: System, t: nat, p: Place)
    requires Inv(s) && t in s.tasks && !s.tasks[t].place.Waiting? && !p.Waiting?
    requires p.InCall() ==> s.tasks[t].held == 0 && p.m in s.mutexes
    requires s.tasks[t].place.Trying? && s.tasks[t].place.m in s.mutexes
      ==> s.mutexes[s.tasks[t].place.m].holder != None
    ensures Inv(MoveTo(s, t, p))
  {
    var r := MoveTo(s, t, p);
    SameHolders(s, r);
    hide HeldBy;
    forall u | u in r.tasks
      ensures TaskOk(r, u)
    {
      assert TaskOk(s, u);
      if u != t {
        TaskFrame(s, r, u);
      }
    }
    forall m | m in r.mutexes
      ensures WaitersOk(r, m) && HolderOk(r, m)
    {
      MutexFrame(s, r, m);
    }
  }

  /** A running task takes a free mutex: it outranks the claimant, who outranks the waiters. */
  lemma AcquireKeeps(s: System, t: nat, m: nat)
    requires Inv(s) && Runs(s, t) && m in s.mutexes && s.mutexes[m].holder == None
    requires s.tasks[t].place.Outside? || (s.tasks[t].place.Trying? && s.tasks[t].place.m == m)
    ensures Inv(Acquire(s, t, m))
  {
    AcquireTasks(s, t, m);
    AcquireMutex(s, t, m);
    var r := Acquire(s, t, m);
    OthersLeftAlone(s, r, {t}, m);
    hide *;
    InvIf(s, r, m);
  }

  lemma AcquireTasks(s: System, t: nat, m: nat)
    requires Inv(s) && t in s.tasks && m in s.mutexes && s.mutexes[m].holder == None && !s.tasks[t].place.Waiting?
    ensures forall u :: u in Acquire(s, t, m).tasks ==> TaskOk(Acquire(s, t, m), u)
  {
    var r := Acquire(s, t, m);
    assert HeldBy(r, t) == HeldBy(s, t) + {m} && m !in HeldBy(s, t);
    assert forall u :: u != t ==> HeldBy(r, u) == HeldBy(s, u);
    hide HeldBy;
    forall u | u in r.tasks
      ensures TaskOk(r, u)
    {
      assert TaskOk(s, u);
      if u != t {
        TaskFrame(s, r, u);
      }
    }
  }

  lemma AcquireMutex(s: System, t: nat, m: nat)
    requires Runs(s, t) && m in s.mutexes && WaitersOk(s, m) && HolderOk(s, m) && s.mutexes[m].holder == None
    requires !s.tasks[t].place.Waiting?
    ensures WaitersOk(Acquire(s, t, m), m) && HolderOk(Acquire(s, t, m), m)
  {
    TakerOutranks(s, t, m);
  }

  lemma TakerOutranks(s: System, t: nat, m: nat)
    requires Runs(s, t) && m in s.mutexes && s.mutexes[m].holder == None && HolderOk(s, m)
    ensures s.mutexes[m].waiters == [] || Outranks(s, t, m)
  {
    if s.mutexes[m].waiters != [] {
      var c :| Claims(s, c, m);
      assert s.tasks[c].pri <= s.tasks[t].pri;
    }
  }

  /** The priority of a mutex holder changes, and not downwards for any mutex it holds but m. */
  lemma RepriceKeeps(s: System, h: nat, k: Task, m: nat)
    requires Inv(s) && h in s.tasks && m in s.mutexes && s.mutexes[m].holder == Some(h)
    requires k == s.tasks[h].(pri := k.pri) && k.base <= k.pri < MAX_PRIORITIES
    requires k.pri >= s.tasks[h].pri || s.tasks[h].held == 1
    requires forall x :: x in s.mutexes[m].waiters && x.owner in s.tasks ==> s.tasks[x.owner].pri <= k.pri
    ensures Inv(SetTask(s, h, k))
  {
    var r := SetTask(s, h, k);
    SameHolders(s, r);
    NotHolding(s, h, m);
    forall u | u in r.tasks
      ensures TaskOk(r, u)
    {
      assert TaskOk(s, u);
      if u != h {
        TaskFrame(s, r, u);
      }
    }
    forall n | n in r.mutexes
      ensures WaitersOk(r, n) && HolderOk(r, n)
    {
      assert WaitersOk(s, n) && HolderOk(s, n);
      if n == m {
        assert WaitersOk(r, m);
        assert Outranks(r, h, m);
      } else {
        assert n in HeldBy(s, h) <==> s.mutexes[n].holder == Some(h);
        MutexFrame(s, r, n);
      }
    }
  }

  lemma ValueOrder(p: nat, q: nat)
    requires p < MAX_PRIORITIES && q < MAX_PRIORITIES
    ensures EventValue(p) <= EventValue(q) <==> q <= p
    ensures MAX_PRIORITIES - EventValue(p) == p
  {
  }

  /** A task that the holder has been raised to joins the event list. */
  lemma AddWaiterKeeps(s: System, t: nat, m: nat, inherited: bool)
    requires Inv(s) && t in s.tasks && s.tasks[t].place.AtLock? && s.tasks[t].place.m == m && m in s.mutexes
    requires s.mutexes[m].holder.Some? && s.mutexes[m].holder.value in s.tasks
    requires s.tasks[s.mutexes[m].holder.value].pri >= s.tasks[t].pri
    ensures Inv(Joined(s, t, m, inherited))
  {
    var r := Joined(s, t, m, inherited);
    AddWaiterTasks(s, t, m, inherited);
    assert TaskOk(s, t);
    AddWaiterMutex(s, t, m, inherited);
    OthersLeftAlone(s, r, {t}, m);
    hide *;
    InvIf(s, r, m);
  }

  lemma AddWaiterTasks(s: System, t: nat, m: nat, inherited: bool)
    requires Inv(s) && t in s.tasks && s.tasks[t].place.AtLock? && s.tasks[t].place.m == m && m in s.mutexes
    ensures var r := Joined(s, t, m, inherited); forall u :: u in r.tasks ==> TaskOk(r, u)
  {
    var r := Joined(s, t, m, inherited);
    SameHolders(s, r);
    hide HeldBy;
    InsertMembers(s.mutexes[m].waiters, Entry(EventValue(s.tasks[t].pri), t));
    hide InsertByValue;
    hide Owners;
    forall u | u in r.tasks
      ensures TaskOk(r, u)
    {
      assert TaskOk(s, u);
      if u != t {
        TaskFrame(s, r, u);
      }
    }
  }

  lemma AddWaiterMutex(s: System, t: nat, m: nat, inherited: bool)
    requires t in s.tasks && s.tasks[t].place.AtLock? && m in s.mutexes && WaitersOk(s, m) && HolderOk(s, m)
    requires s.mutexes[m].holder.Some? && s.mutexes[m].holder.value in s.tasks
    requires s.tasks[s.mutexes[m].holder.value].pri >= s.tasks[t].pri
    ensures WaitersOk(Joined(s, t, m, inherited), m) && HolderOk(Joined(s, t, m, inherited), m)
  {
    var w, e := s.mutexes[m].waiters, Entry(EventValue(s.tasks[t].pri), t);
    assert t !in Owners(w);
    InsertSorted(w, e);
    InsertMembers(w, e);
    InsertDistinct(w, e);
    hide InsertByValue;
    hide Owners;
    hide EventValue;
  }

  function Joined(s: System, t: nat, m: nat, inherited: bool): System
    requires t in s.tasks && m in s.mutexes
  {
    var e := Entry(EventValue(s.tasks[t].pri), t);
    SetTask(SetMutex(s, m, s.mutexes[m].(waiters := InsertByValue(s.mutexes[m].waiters, e))), t,
            s.tasks[t].(place := Waiting(m, inherited)))
  }

  lemma JoinKeeps(s: System, t: nat, m: nat)
    requires Inv(s) && t in s.tasks && s.tasks[t].place.AtLock? && s.tasks[t].place.m == m && m in s.mutexes
    requires s.mutexes[m].holder != None
    ensures Inv(JoinWaiters(s, t, m))
  {
    var h, p := s.mutexes[m].holder.value, s.tasks[t].pri;
    assert HolderOk(s, m) && TaskOk(s, h) && TaskOk(s, t);
    NotHolding(s, h, m);
    var (k, inherited) := Inherit(s.tasks[h], p);
    var s1 := SetTask(s, h, k);
    assert Outranks(s, h, m);
    RepriceKeeps(s, h, k, m);
    hide Inv;
    AddWaiterKeeps(s1, t, m, inherited);
    assert JoinWaiters(s, t, m) == Joined(s1, t, m, inherited);
  }

  /** After a timeout the holder drops no lower than the remaining waiters of this mutex, its only one. */
  lemma LowerKeeps(s: System, m: nat)
    requires Inv(s) && m in s.mutexes
    ensures Inv(Lower(s, m))
      && forall t ::
        t in s.tasks && s.tasks[t].held == 0 ==> t in Lower(s, m).tasks && Lower(s, m).tasks[t] == s.tasks[t]
  {
    var x := s.mutexes[m];
    assert WaitersOk(s, m) && HolderOk(s, m);
    if x.holder.Some? {
      var h := x.holder.value;
      NotHolding(s, h, m);
      HighestIsHighest(s, m);
      var k := DisinheritAfterTimeout(s.tasks[h], HighestWaiting(x.waiters));
      RepriceKeeps(s, h, k, m);
    }
  }

  lemma HighestIsHighest(s: System, m: nat)
    requires Inv(s) && m in s.mutexes
    ensures HighestWaiting(s.mutexes[m].waiters) < MAX_PRIORITIES
    ensures forall x ::
      x in s.mutexes[m].waiters ==> x.owner in s.tasks && s.tasks[x.owner].pri <= HighestWaiting(s.mutexes[m].waiters)
  {
    var w := s.mutexes[m].waiters;
    assert WaitersOk(s, m);
    HeadIn(w);
    forall x | x in w
      ensures x.owner in s.tasks && s.tasks[x.owner].pri <= HighestWaiting(w)
    {
      var i :| 0 <= i < |w| && w[i] == x;
      assert w[0].value <= w[i].value;
      assert TaskOk(s, x.owner) && TaskOk(s, w[0].owner);
      ValueOrder(s.tasks[w[0].owner].pri, s.tasks[x.owner].pri);
    }
    if w != [] {
      assert TaskOk(s, w[0].owner);
    }
  }

  /** The mutex passes to whoever runs next; the woken task stands for all who still wait. */
  lemma ReleaseKeeps(s: System, t: nat, m: nat)
    requires Inv(s) && t in s.tasks && m in s.mutexes && s.mutexes[m].holder == Some(t)
    ensures Inv(Release(s, t, m))
  {
    ReleaseShape(s, t, m);
    WaitersApart(s, t, m);
    ReleaseTasks(s, t, m);
    ReleaseOthers(s, t, m);
    var r := Release(s, t, m);
    if s.mutexes[m].waiters == [] {
      assert WaitersOk(r, m) && HolderOk(r, m);
    } else {
      SuccessorClaims(s, r, m);
    }
    hide *;
    InvIf(s, r, m);
  }

  /** What a release changes: the giver, the first waiter and the mutex. */
  lemma ReleaseShape(s: System, t: nat, m: nat)
    requires Inv(s) && t in s.tasks && m in s.mutexes && s.mutexes[m].holder == Some(t)
    ensures var r, w := Release(s, t, m), s.mutexes[m].waiters;
      && r.tasks.Keys == s.tasks.Keys && r.mutexes.Keys == s.mutexes.Keys
      && r.mutexes[m] == Mutex(None, if w == [] then [] else w[1..])
      && (forall n :: n in s.mutexes && n != m ==> r.mutexes[n] == s.mutexes[n])
      && r.tasks[t] == Disinherit(s.tasks[t])
      && (w != [] ==> w[0].owner in s.tasks && w[0].owner != t
                      && var k := s.tasks[w[0].owner];
                         r.tasks[w[0].owner] == k.(place := Trying(m, k.place.inherited)))
      && (forall u :: u in s.tasks && u != t && (w == [] || u != w[0].owner) ==> r.tasks[u] == s.tasks[u])
  {
    WaitersApart(s, t, m);
    hide Inv;
    hide Disinherit;
    hide HolderOk;
    var w := s.mutexes[m].waiters;
    if w != [] {
      var u, k := w[0].owner, s.tasks[w[0].owner];
      assert Release(s, t, m)
        == System(s.tasks[t := Disinherit(s.tasks[t])][u := k.(place := Trying(m, k.place.inherited))],
                                        s.mutexes[m := Mutex(None, w[1..])]);
    }
    hide Release;
  }

  /** The waiters of a held mutex, its first waiter and its holder are different tasks. */
  lemma WaitersApart(s: System, t: nat, m: nat)
    requires Inv(s) && t in s.tasks && m in s.mutexes && s.mutexes[m].holder == Some(t)
    ensures var w := s.mutexes[m].waiters;
      && (w != [] ==> w[0].owner in s.tasks && w[0].owner != t && s.tasks[w[0].owner].place.Waiting?)
      && (forall x :: w != [] && x in w[1..] ==> x in w && x.owner != w[0].owner && x.owner != t)
  {
    var w := s.mutexes[m].waiters;
    assert WaitersOk(s, m) && TaskOk(s, t);
    NotHolding(s, t, m);
    HeadIn(w);
    hide HeldBy;
    hide EventValue;
    if w != [] {
      assert forall x :: x in w[1..] ==> x in w && x.owner != w[0].owner;
    }
  }

  lemma ReleaseTasks(s: System, t: nat, m: nat)
    requires Inv(s) && t in s.tasks && m in s.mutexes && s.mutexes[m].holder == Some(t)
    ensures forall u :: u in Release(s, t, m).tasks ==> TaskOk(Release(s, t, m), u)
  {
    ReleaseShape(s, t, m);
    WaitersApart(s, t, m);
    var r, w := Release(s, t, m), s.mutexes[m].waiters;
    hide Release;
    assert TaskOk(s, t) && WaitersOk(s, m);
    HeadIn(w);
    TailOwners(w);
    Freed(s, r, t, m);
    hide Owners;
    assert w != [] ==> s.tasks[w[0].owner].place.Waiting?;
    assert w != [] ==> HeldBy(r, w[0].owner) == HeldBy(s, w[0].owner);
    hide WaitersOk;
    hide HeldBy;
    assert TaskOk(r, t);
    if w != [] {
      var u := w[0].owner;
      assert TaskOk(s, u);
      assert TaskOk(r, u);
    }
    forall u | u in r.tasks && u != t && (w == [] || u != w[0].owner)
      ensures TaskOk(r, u)
    {
      assert TaskOk(s, u);
      hide TaskOk;
      StillListed(s, r, u, m);
    }
  }

  lemma Freed(s: System, r: System, t: nat, m: nat)
    requires t in s.tasks && TaskOk(s, t) && m in s.mutexes && s.mutexes[m].holder == Some(t)
      && s.mutexes.Keys == r.mutexes.Keys
    requires r.mutexes[m].holder == None && forall n :: n in s.mutexes && n != m ==> r.mutexes[n] == s.mutexes[n]
    ensures s.tasks[t].held > 0 && !s.tasks[t].place.InCall() && |HeldBy(r, t)| == s.tasks[t].held - 1
    ensures forall u :: u != t ==> HeldBy(r, u) == HeldBy(s, u)
  {
    NotHolding(s, t, m);
    hide TaskOk;
    var a, b := HeldBy(r, t), HeldBy(s, t);
    forall n
      ensures n in b <==> n in a || n == m
    {
      if n != m && n in s.mutexes {
        assert r.mutexes[n] == s.mutexes[n];
      }
    }
    assert m in b && m !in a;
    assert b == a + {m};
    forall u | u != t
      ensures HeldBy(r, u) == HeldBy(s, u)
    {
      assert forall n :: n in s.mutexes && n != m ==> r.mutexes[n].holder == s.mutexes[n].holder;
    }
  }

  /** A task that the release does not touch is as it was, on the same lists. */
  lemma StillListed(s: System, r: System, u: nat, m: nat)
    requires u in s.tasks && u in r.tasks && r.tasks[u] == s.tasks[u] && TaskOk(s, u) && HeldBy(r, u) == HeldBy(s, u)
    requires m in s.mutexes && s.mutexes.Keys == r.mutexes.Keys
    requires forall n :: n in s.mutexes && n != m ==> r.mutexes[n] == s.mutexes[n]
    requires var w := s.mutexes[m].waiters; if w == [] then r.mutexes[m].waiters == [] else
      u != w[0].owner && Owners(r.mutexes[m].waiters) == Owners(w) - {w[0].owner}
    ensures TaskOk(r, u)
  {
    TaskFrame(s, r, u);
  }

  lemma ReleaseOthers(s: System, t: nat, m: nat)
    requires Inv(s) && t in s.tasks && m in s.mutexes && s.mutexes[m].holder == Some(t)
    ensures forall n :: n in s.mutexes && n != m ==> LeftAlone(s, Release(s, t, m), n)
  {
    hide Release;
    hide Inv;
    hide HeldBy;
    hide LeftAlone;
    hide TaskOk;
    hide WaitersOk;
    hide HolderOk;
    ReleaseShape(s, t, m);
    WaitersApart(s, t, m);
    if s.mutexes[m].waiters != [] {
      FirstWaiter(s, m);
    }
    SoleMutex(s, t, m);
    hide HeldByTask;
    var r, w := Release(s, t, m), s.mutexes[m].waiters;
    if w == [] {
      OthersLeftAlone(s, r, {t}, m);
    } else {
      OthersLeftAlone(s, r, {t, w[0].owner}, m);
    }
  }

  /** A task whose one mutex is m holds no other; a task that waits holds none. */
  lemma SoleMutex(s: System, t: nat, m: nat)
    requires Inv(s) && t in s.tasks && HeldByTask(s, t, m)
    ensures !s.tasks[t].place.InCall()
    ensures forall n :: n != m && HeldByTask(s, t, n) ==> s.tasks[t].held != 1
    ensures forall u, n :: u in s.tasks && s.tasks[u].place.Waiting? ==> !HeldByTask(s, u, n)
  {
    assert TaskOk(s, t);
    NotHolding(s, t, m);
    forall n | n != m && HeldByTask(s, t, n)
      ensures s.tasks[t].held != 1
    {
      assert n in HeldBy(s, t);
    }
    forall u, n | u in s.tasks && s.tasks[u].place.Waiting? && HeldByTask(s, u, n)
      ensures false
    {
      assert TaskOk(s, u);
      NotHolding(s, u, n);
    }
  }

  lemma FirstWaiter(s: System, m: nat)
    requires Inv(s) && m in s.mutexes && s.mutexes[m].waiters != []
    ensures var u := s.mutexes[m].waiters[0].owner; u in s.tasks && s.tasks[u].place.Waiting? && s.tasks[u].place.m == m
  {
    assert WaitersOk(s, m);
    HeadIn(s.mutexes[m].waiters);
  }

  lemma TailOwners(w: seq<Entry>)
    requires DistinctOwners(w)
    ensures w != [] ==> Owners(w[1..]) == Owners(w) - {w[0].owner}
  {
    if w != [] {
      CutOwners(w, 1);
      assert w[..1] == [w[0]];
      assert Owners([w[0]]) == {w[0].owner};
    }
  }

  lemma SuccessorClaims(s: System, r: System, m: nat)
    requires Inv(s) && m in s.mutexes && m in r.mutexes && s.mutexes[m].waiters != []
    requires r.mutexes[m] == Mutex(None, s.mutexes[m].waiters[1..]) && r.tasks.Keys == s.tasks.Keys
    requires var w := s.mutexes[m].waiters;
      && w[0].owner in s.tasks
      && r.tasks[w[0].owner] == s.tasks[w[0].owner].(place := r.tasks[w[0].owner].place)
      && r.tasks[w[0].owner].place.Trying? && r.tasks[w[0].owner].place.m == m
      && forall x :: x in w[1..] ==> x.owner in s.tasks && r.tasks[x.owner] == s.tasks[x.owner]
    ensures WaitersOk(r, m) && HolderOk(r, m)
  {
    var w := s.mutexes[m].waiters;
    TailWaits(s, m);
    assert WaitersOk(r, m);
    hide WaitersOk;
    hide Inv;
    assert Claims(r, w[0].owner, m);
  }

  lemma TailWaits(s: System, m: nat)
    requires Inv(s) && m in s.mutexes && s.mutexes[m].waiters != []
    ensures var w := s.mutexes[m].waiters;
      && SortedByValue(w[1..]) && DistinctOwners(w[1..])
      && forall x :: x in w[1..] ==>
           && x.owner in s.tasks && w[0].owner in s.tasks && s.tasks[x.owner].pri <= s.tasks[w[0].owner].pri
           && s.tasks[x.owner].place.Waiting? && s.tasks[x.owner].place.m == m
           && x.value == EventValue(s.tasks[x.owner].pri)
  {
    var w := s.mutexes[m].waiters;
    assert WaitersOk(s, m);
    HighestIsHighest(s, m);
    HeadIn(w);
    assert TaskOk(s, w[0].owner);
    ValueOrder(s.tasks[w[0].owner].pri, 0);
    hide Inv;
    hide TaskOk;
    assert forall x :: x in w[1..] ==> x in w;
  }

  lemma ExpireKeeps(s: System, t: nat)
    requires Inv(s) && Enabled(s, Expire(t))
    ensures Inv(Next(s, Expire(t)))
  {
    ExpireTasks(s, t);
    ExpireMutex(s, t);
    var r, m := Next(s, Expire(t)), s.tasks[t].place.m;
    OthersLeftAlone(s, r, {t}, m);
    hide *;
    InvIf(s, r, m);
  }

  lemma ExpireTasks(s: System, t: nat)
    requires Inv(s) && Enabled(s, Expire(t))
    ensures var r := Next(s, Expire(t)); forall u :: u in r.tasks ==> TaskOk(r, u)
  {
    var r, m := Next(s, Expire(t)), s.tasks[t].place.m;
    assert WaitersOk(s, m);
    SameHolders(s, r);
    hide HeldBy;
    RemoveOwners(s.mutexes[m].waiters, t);
    hide RemoveOwner;
    hide Owners;
    hide WaitersOk;
    forall u | u in r.tasks
      ensures TaskOk(r, u)
    {
      assert TaskOk(s, u);
      if u != t {
        TaskFrame(s, r, u);
      }
    }
  }

  lemma ExpireMutex(s: System, t: nat)
    requires Enabled(s, Expire(t)) && WaitersOk(s, s.tasks[t].place.m) && HolderOk(s, s.tasks[t].place.m)
    ensures var r := Next(s, Expire(t)); WaitersOk(r, s.tasks[t].place.m) && HolderOk(r, s.tasks[t].place.m)
  {
    var r, m := Next(s, Expire(t)), s.tasks[t].place.m;
    var w := s.mutexes[m].waiters;
    RemoveMembers(w, t);
    RemoveKeepsOrder(w, t);
    assert r.mutexes[m] == s.mutexes[m].(waiters := RemoveOwner(w, t));
    hide RemoveOwner;
    if s.mutexes[m].holder == None && w != [] {
      var c :| Claims(s, c, m);
      assert Claims(r, c, m);
    }
  }

  lemma StepKeeps(s: System, e: Step)
    requires Inv(s) && Enabled(s, e)
    ensures Inv(Next(s, e))
    ensures e.Give? ==> s.tasks[e.task].held > 0
  {
    assert TaskOk(s, e.task);
    match e
    case Take(t, m, wait) =>
      if s.mutexes[m].holder == None {
        AcquireKeeps(s, t, m);
      } else if wait {
        MoveKeeps(s, t, AtLock(m, false));
      }
    case Retry(t) =>
      var p := s.tasks[t].place;
      if s.mutexes[p.m].holder == None {
        AcquireKeeps(s, t, p.m);
      } else {
        MoveKeeps(s, t, AtLock(p.m, p.inherited));
      }
    case Block(t, timedOut) =>
      var p := s.tasks[t].place;
      if timedOut {
        MoveKeeps(s, t, Expired(p.m, p.inherited));
      } else if s.mutexes[p.m].holder == None {
        MoveKeeps(s, t, Trying(p.m, p.inherited));
      } else {
        JoinKeeps(s, t, p.m);
      }
    case CheckEmpty(t) =>
      var p := s.tasks[t].place;
      MoveKeeps(s, t, if s.mutexes[p.m].holder == None then Trying(p.m, p.inherited)
                      else if p.inherited then Undoing(p.m, true) else Outside);
    case Undo(t) =>
      var m := s.tasks[t].place.m;
      LowerKeeps(s, m);
      MoveKeeps(Lower(s, m), t, Outside);
    case Give(t, m) =>
      NotHolding(s, t, m);
      ReleaseKeeps(s, t, m);
    case Sleep(t) => MoveKeeps(s, t, Asleep);
    case Rouse(t) => MoveKeeps(s, t, Outside);
    case Expire(t) => ExpireKeeps(s, t);
  }

  // ----- whole runs -----

  /** No mutex is held and no task has inherited anything. */
  ghost predicate Initial(s: System) {
    && (forall t ::
      t in s.tasks ==> var k := s.tasks[t]; k.pri == k.base < MAX_PRIORITIES && k.held == 0 && !k.place.InCall())
    && (forall m :: m in s.mutexes ==> s.mutexes[m] == Mutex(None, []))
  }

  lemma InitialIsOk(s: System)
    requires Initial(s)
    ensures Inv(s)
  {
    forall t | t in s.tasks
      ensures TaskOk(s, t)
    {
      assert HeldBy(s, t) == {};
    }
  }

  ghost predicate IsRun(ss: seq<System>, es: seq<Step>) {
    && |ss| == |es| + 1 && Initial(ss[0])
    && forall i :: 0 <= i < |es| ==> Enabled(ss[i], es[i]) && ss[i + 1] == Next(ss[i], es[i])
  }

  lemma {:induction false} RunKeeps(ss: seq<System>, es: seq<Step>, n: nat)
    requires IsRun(ss, es) && n < |ss|
    ensures Inv(ss[n])
  {
    if n == 0 {
      InitialIsOk(ss[0]);
    } else {
      RunKeeps(ss, es, n - 1);
      hide Inv;
      hide Enabled;
      StepKeeps(ss[n - 1], es[n - 1]);
    }
  }

  /**
   * At every point of every run: the held count is the number of mutexes held, a task that holds
   * none runs at its base priority, and no task blocked on a mutex outranks the mutex's holder.
   */
  lemma HolderOutranksWaiters(ss: seq<System>, es: seq<Step>, n: nat)
    requires IsRun(ss, es) && n < |ss|
    ensures forall t :: t in ss[n].tasks ==>
      var k := ss[n].tasks[t];
      k.held == |HeldBy(ss[n], t)| && k.base <= k.pri && (k.held == 0 ==> k.pri == k.base)
    ensures forall t, m, h ::
      BlockedOn(ss[n], t, m) && HeldByTask(ss[n], h, m) ==> h in ss[n].tasks && ss[n].tasks[t].pri <= ss[n].tasks[h].pri
  {
    RunKeeps(ss, es, n);
    var s := ss[n];
    forall t, m, h | BlockedOn(s, t, m) && HeldByTask(s, h, m)
      ensures h in s.tasks && s.tasks[t].pri <= s.tasks[h].pri
    {
      assert TaskOk(s, t) && HolderOk(s, m);
      var x :| x in s.mutexes[m].waiters && x.owner == t;
    }
    assert forall t :: t in s.tasks ==> TaskOk(s, t);
  }

  // ----- how priorities move -----

  /** t has the larger of its base priority and the highest priority that is blocked on m. */
  ghost predicate AsUrgentAsNeeded(s: System, t: nat, m: nat) {
    && t in s.tasks && s.tasks[t].base <= s.tasks[t].pri
    && (forall u :: BlockedOn(s, u, m) ==> s.tasks[u].pri <= s.tasks[t].pri)
    && (s.tasks[t].pri == s.tasks[t].base || exists u :: BlockedOn(s, u, m) && s.tasks[u].pri == s.tasks[t].pri)
  }

  /** The task whose priority a step may change: the holder of the mutex that the step is about. */
  function Moved(s: System, e: Step): Option<nat>
    requires e.task in s.tasks
  {
    var p := s.tasks[e.task].place;
    match e
    case Block(_, false) => if p.AtLock? && p.m in s.mutexes then s.mutexes[p.m].holder else None
    case Undo(_) => if p.Undoing? && p.m in s.mutexes then s.mutexes[p.m].holder else None
    case Give(t, _) => Some(t)
    case _ => None
  }

  /** Base priorities stay, and so do the priorities of all but h. */
  ghost predicate OthersKeep(s: System, r: System, h: Option<nat>) {
    r.tasks.Keys == s.tasks.Keys && forall u :: u in s.tasks ==>
      r.tasks[u].base == s.tasks[u].base && (Some(u) != h ==> r.tasks[u].pri == s.tasks[u].pri)
  }

  /**
   * What a step does to priorities: base priorities stay, and of the others only that of the holder
   * changes. It is raised to that of a task that blocks; it drops to the base when the last mutex is
   * given; and, after a timeout, a task that holds no other mutex has what its waiters need.
   */
  lemma PriorityMoves(s: System, e: Step)
    requires Inv(s) && Enabled(s, e)
    ensures OthersKeep(s, Next(s, e), Moved(s, e))
    ensures Moved(s, e).Some? ==> var h, r := Moved(s, e).value, Next(s, e);
      && h in s.tasks && h in r.tasks
      && (e.Block? ==> r.tasks[h].pri == Larger(s.tasks[h].pri, s.tasks[e.task].pri))
      && (e.Give? ==> r.tasks[h].pri == if s.tasks[h].held == 1 then s.tasks[h].base else s.tasks[h].pri)
      && (e.Undo? ==> if s.tasks[h].held == 1 then AsUrgentAsNeeded(r, h, s.tasks[e.task].place.m)
                      else r.tasks[h].pri == s.tasks[h].pri)
  {
    hide Inv;
    hide AsUrgentAsNeeded;
    hide OthersKeep;
    match e
    case Block(t, timedOut) => BlockMoves(s, t, timedOut);
    case Give(t, m) => GiveMoves(s, t, m);
    case Undo(t) => UndoMoves(s, t);
    case _ => QuietMoves(s, e);
  }

  lemma QuietMoves(s: System, e: Step)
    requires Enabled(s, e) && !e.Block? && !e.Give? && !e.Undo?
    ensures Moved(s, e) == None && OthersKeep(s, Next(s, e), None)
  {
    hide InsertByValue;
    hide RemoveOwner;
  }

  lemma BlockMoves(s: System, t: nat, timedOut: bool)
    requires Inv(s) && Enabled(s, Block(t, timedOut))
    ensures var e := Block(t, timedOut);
      && OthersKeep(s, Next(s, e), Moved(s, e))
      && (Moved(s, e).Some? ==> var h, r := Moved(s, e).value, Next(s, e);
           h in s.tasks && h in r.tasks && r.tasks[h].pri == Larger(s.tasks[h].pri, s.tasks[t].pri))
  {
    var m := s.tasks[t].place.m;
    if !timedOut && s.mutexes[m].holder.Some? {
      assert HolderOk(s, m);
      hide Inv;
      BlockChanges(s, t, m, s.mutexes[m].holder.value);
      BlockKeepsBase(s, t, m);
      hide JoinWaiters;
    }
  }

  lemma BlockKeepsBase(s: System, t: nat, m: nat)
    requires t in s.tasks && m in s.mutexes
    ensures var r := JoinWaiters(s, t, m);
      forall u :: u in s.tasks ==> u in r.tasks && r.tasks[u].base == s.tasks[u].base
  {
    hide InsertByValue;
  }

  lemma GiveMoves(s: System, t: nat, m: nat)
    requires Inv(s) && Enabled(s, Give(t, m))
    ensures var r := Next(s, Give(t, m));
      && OthersKeep(s, r, Some(t))
      && t in s.tasks && t in r.tasks
      && r.tasks[t].pri == if s.tasks[t].held == 1 then s.tasks[t].base else s.tasks[t].pri
  {
    hide Inv;
    hide Release;
    hide Runs;
    hide Inherit;
    assert Inv(s) && t in s.tasks && m in s.mutexes && s.mutexes[m].holder == Some(t) by {
      GiveParts(s, t, m);
    }
    ReleaseShape(s, t, m);
    HeldPositive(s, t, m);
  }

  lemma GiveParts(s: System, t: nat, m: nat)
    requires Enabled(s, Give(t, m))
    ensures t in s.tasks && m in s.mutexes && s.mutexes[m].holder == Some(t)
  {
  }

  lemma HeldPositive(s: System, t: nat, m: nat)
    requires Inv(s) && t in s.tasks && m in s.mutexes && s.mutexes[m].holder == Some(t)
    ensures s.tasks[t].held > 0
  {
    assert TaskOk(s, t);
    NotHolding(s, t, m);
  }

  lemma UndoMoves(s: System, t: nat)
    requires Inv(s) && Enabled(s, Undo(t))
    ensures var e := Undo(t);
      && OthersKeep(s, Next(s, e), Moved(s, e))
      && (Moved(s, e).Some? ==> var h, r := Moved(s, e).value, Next(s, e);
           && h in s.tasks && h in r.tasks
           && if s.tasks[h].held == 1 then AsUrgentAsNeeded(r, h, s.tasks[t].place.m)
              else r.tasks[h].pri == s.tasks[h].pri)
  {
    hide Inv;
    var m := s.tasks[t].place.m;
    if s.mutexes[m].holder.Some? {
      UndoneIsNeeded(s, t, m);
    }
  }

  lemma UndoneIsNeeded(s: System, t: nat, m: nat)
    requires Inv(s) && t in s.tasks && s.tasks[t].place.Undoing? && s.tasks[t].place.m == m && m in s.mutexes
    requires s.mutexes[m].holder.Some?
    ensures var r, h := MoveTo(Lower(s, m), t, Outside), s.mutexes[m].holder.value;
      && h in s.tasks && h != t
      && OthersKeep(s, r, Some(h))
      && if s.tasks[h].held == 1 then AsUrgentAsNeeded(r, h, m) else r.tasks[h].pri == s.tasks[h].pri
  {
    hide Inv;
    var h, w := s.mutexes[m].holder.value, s.mutexes[m].waiters;
    HolderHere(s, t, m);
    HighestIsReached(s, m);
    WaitersAreBlocked(s, m);
    hide HighestWaiting;
    var r := MoveTo(Lower(s, m), t, Outside);
    if w != [] {
      assert BlockedOn(r, w[0].owner, m);
    }
  }

  lemma HolderHere(s: System, t: nat, m: nat)
    requires Inv(s) && t in s.tasks && s.tasks[t].place.InCall() && m in s.mutexes && s.mutexes[m].holder.Some?
    ensures var h := s.mutexes[m].holder.value; h in s.tasks && h != t && !s.tasks[h].place.InCall()
  {
    var h := s.mutexes[m].holder.value;
    assert HolderOk(s, m) && TaskOk(s, h) && TaskOk(s, t);
    NotHolding(s, h, m);
  }

  lemma WaitersAreBlocked(s: System, m: nat)
    requires Inv(s) && m in s.mutexes
    ensures forall u :: BlockedOn(s, u, m) ==> s.tasks[u].pri <= HighestWaiting(s.mutexes[m].waiters)
  {
    HighestIsHighest(s, m);
    forall u | BlockedOn(s, u, m)
      ensures s.tasks[u].pri <= HighestWaiting(s.mutexes[m].waiters)
    {
      assert TaskOk(s, u);
      var x :| x in s.mutexes[m].waiters && x.owner == u;
    }
  }

  /** HighestWaiting is the priority of the first waiter. */
  lemma HighestIsReached(s: System, m: nat)
    requires Inv(s) && m in s.mutexes
    ensures var w := s.mutexes[m].waiters;
      if w == [] then HighestWaiting(w) == 0
      else w[0].owner in s.tasks && BlockedOn(s, w[0].owner, m) && HighestWaiting(w) == s.tasks[w[0].owner].pri
  {
    var w := s.mutexes[m].waiters;
    assert WaitersOk(s, m);
    if w != [] {
      assert w[0] in w;
      assert TaskOk(s, w[0].owner);
    }
  }

  // ----- how the mutex moves -----

  /** A mutex that is given is free, and the task that waited for it with the highest priority has been woken. */
  lemma HandsOver(s: System, t: nat, m: nat)
    requires Inv(s) && Enabled(s, Give(t, m))
    ensures var r := Next(s, Give(t, m));
      && m in r.mutexes && r.mutexes[m].holder == None
      && t in r.tasks && t in s.tasks && r.tasks[t].held == s.tasks[t].held - 1
      && (forall n :: n in s.mutexes && n != m ==> n in r.mutexes && r.mutexes[n] == s.mutexes[n])
      && ((exists u :: BlockedOn(s, u, m)) ==> exists u :: WokenFirst(s, r, u, m))
  {
    GiveParts(s, t, m);
    ReleaseShape(s, t, m);
    HeldPositive(s, t, m);
    HighestIsReached(s, m);
    WaitersAreBlocked(s, m);
    OthersStayListed(s, m);
    hide Inv;
    hide Release;
    hide Runs;
    hide HighestWaiting;
    var w := s.mutexes[m].waiters;
    if w != [] {
      assert WokenFirst(s, Next(s, Give(t, m)), w[0].owner, m);
    }
  }

  /** Of the tasks blocked on m the most urgent, u, has been woken to try again, and the others stay blocked. */
  ghost predicate WokenFirst(s: System, r: System, u: nat, m: nat) {
    && BlockedOn(s, u, m) && u in r.tasks && r.tasks[u].place.Trying? && r.tasks[u].place.m == m
    && forall v :: BlockedOn(s, v, m) ==> s.tasks[v].pri <= s.tasks[u].pri && (v != u ==> BlockedOn(r, v, m))
  }

  lemma OthersStayListed(s: System, m: nat)
    requires Inv(s) && m in s.mutexes
    ensures forall u :: BlockedOn(s, u, m) ==> s.mutexes[m].waiters != []
  {
    forall u | BlockedOn(s, u, m)
      ensures s.mutexes[m].waiters != []
    {
      assert TaskOk(s, u);
    }
  }

  /** A take or a retry gets the mutex if and only if it is free; the task is then its holder. */
  lemma TakeSucceeds(s: System, e: Step)
    requires Inv(s) && Enabled(s, e) && (e.Take? || e.Retry?)
    ensures var m, r := if e.Take? then e.mutex else s.tasks[e.task].place.m, Next(s, e);
      && m in s.mutexes && m in r.mutexes && e.task in r.tasks
      && (if s.mutexes[m].holder == None
          then HeldByTask(r, e.task, m) && r.tasks[e.task].place == Outside
               && r.tasks[e.task].held == s.tasks[e.task].held + 1
          else r.mutexes == s.mutexes && r.tasks[e.task].held == s.tasks[e.task].held
               && (r.tasks[e.task].place.Outside? <==> e.Take? && !e.wait))
  {
    hide Inv;
  }

  /** A task that blocks on a held mutex is listed, and remembers if it is more urgent than the holder's base. */
  lemma BlockWaits(s: System, t: nat)
    requires Inv(s) && Enabled(s, Block(t, false)) && s.mutexes[s.tasks[t].place.m].holder.Some?
    ensures var m, r := s.tasks[t].place.m, Next(s, Block(t, false));
      var h := s.mutexes[m].holder.value;
      && BlockedOn(r, t, m) && h in s.tasks
      && (r.tasks[t].place.inherited <==> s.tasks[h].base < s.tasks[t].pri)
  {
    var m := s.tasks[t].place.m;
    HolderHere(s, t, m);
    var h := s.mutexes[m].holder.value;
    assert TaskOk(s, h);
    hide Inv;
    hide InsertByValue;
    hide EventValue;
  }

  // ----- priorities come down again -----

  /** u is in a take of m in which it has raised a holder, and is at least as urgent as p. */
  predicate Charged(s: System, u: nat, m: nat, p: nat) {
    u in s.tasks && s.tasks[u].pri >= p &&
    var q := s.tasks[u].place;
    q.InCall() && q.m == m && q.inherited
  }

  /** A holder above its base priority is so for some task in a take, and who has raised it knows that it did. */
  ghost predicate Earned(s: System, m: nat)
    requires m in s.mutexes
  {
    s.mutexes[m].holder.Some? && s.mutexes[m].holder.value in s.tasks ==>
      var h := s.tasks[s.mutexes[m].holder.value];
      && (h.pri > h.base ==> exists u :: Charged(s, u, m, h.pri))
      && forall u :: BlockedOn(s, u, m) && s.tasks[u].pri > h.base ==> s.tasks[u].place.inherited
  }

  /** No task holds two mutexes. */
  ghost predicate OneEach(s: System) { forall t :: t in s.tasks ==> s.tasks[t].held <= 1 }

  /** Nothing that m depends on has changed, or a task has only moved within its take. */
  ghost predicate Undisturbed(s: System, r: System, m: nat)
    requires m in s.mutexes
  {
    && m in r.mutexes && r.mutexes[m].holder == s.mutexes[m].holder && s.tasks.Keys == r.tasks.Keys
    && (s.mutexes[m].holder.Some? && s.mutexes[m].holder.value in s.tasks ==>
          var h := s.mutexes[m].holder.value; r.tasks[h].pri == s.tasks[h].pri && r.tasks[h].base == s.tasks[h].base)
    && (forall u, p :: Charged(s, u, m, p) ==> Charged(r, u, m, p))
    && forall u :: BlockedOn(r, u, m) ==> BlockedOn(s, u, m) && r.tasks[u] == s.tasks[u]
  }

  lemma EarnedStays(s: System, r: System, m: nat)
    requires m in s.mutexes && Earned(s, m) && Undisturbed(s, r, m)
    ensures Earned(r, m)
  {
  }

  /** The tasks in c, which alone have changed, have nothing to do with n. */
  lemma OthersUndisturbed(s: System, r: System, c: set<nat>, m: nat)
    requires s.tasks.Keys == r.tasks.Keys && s.mutexes.Keys == r.mutexes.Keys
    requires forall n :: n in s.mutexes && n != m ==> r.mutexes[n].holder == s.mutexes[n].holder
    requires forall u :: u in s.tasks && u !in c ==> r.tasks[u] == s.tasks[u]
    requires forall u, n :: u in s.tasks && u in c && n in s.mutexes && n != m ==> s.mutexes[n].holder != Some(u)
    requires forall u :: u in s.tasks && u in c && s.tasks[u].place.InCall() ==> s.tasks[u].place.m == m
    requires forall u :: u in s.tasks && u in c && r.tasks[u].place.Waiting? ==> r.tasks[u].place.m == m
    ensures forall n :: n in s.mutexes && n != m ==> Undisturbed(s, r, n)
  {
  }

  ghost predicate AllEarned(s: System) { forall m :: m in s.mutexes ==> Earned(s, m) }

  lemma AllEarnedIf(s: System, r: System, m: nat)
    requires AllEarned(s) && s.mutexes.Keys == r.mutexes.Keys && m in r.mutexes && Earned(r, m)
    requires forall n :: n in s.mutexes && n != m ==> Undisturbed(s, r, n)
    ensures AllEarned(r)
  {
    forall n | n in r.mutexes && n != m
      ensures Earned(r, n)
    {
      EarnedStays(s, r, n);
    }
  }

  /** A task moves on without forgetting that it has raised a holder. */
  lemma MoveEarns(s: System, t: nat, p: Place)
    requires AllEarned(s) && t in s.tasks && !p.Waiting?
    requires var q := s.tasks[t].place; q.InCall() && q.inherited ==> p.InCall() && p.m == q.m && p.inherited
    ensures AllEarned(MoveTo(s, t, p))
  {
    var r := MoveTo(s, t, p);
    forall m | m in r.mutexes
      ensures Earned(r, m)
    {
      assert Undisturbed(s, r, m);
      EarnedStays(s, r, m);
    }
  }

  /** Whoever takes a mutex is at its base priority, and outranks the waiters. */
  lemma AcquireEarns(s: System, t: nat, m: nat)
    requires Inv(s) && AllEarned(s) && Runs(s, t) && s.tasks[t].held == 0
    requires m in s.mutexes && s.mutexes[m].holder == None
    requires s.tasks[t].place.Outside? || (s.tasks[t].place.Trying? && s.tasks[t].place.m == m)
    ensures AllEarned(Acquire(s, t, m))
  {
    var r := Acquire(s, t, m);
    TakerIsAtBase(s, t, m);
    hide Inv;
    hide Runs;
    hide AllEarned;
    forall u | BlockedOn(r, u, m)
      ensures r.tasks[u].pri <= r.tasks[t].base
    {
      assert BlockedOn(s, u, m);
    }
    assert Earned(r, m);
    hide Earned;
    hide Undisturbed;
    OthersUndisturbed(s, r, {t}, m);
    AllEarnedIf(s, r, m);
  }

  lemma TakerIsAtBase(s: System, t: nat, m: nat)
    requires Inv(s) && Runs(s, t) && m in s.mutexes && s.mutexes[m].holder == None && s.tasks[t].held == 0
    ensures t in s.tasks && s.tasks[t].pri == s.tasks[t].base
    ensures forall u :: BlockedOn(s, u, m) ==> s.tasks[u].pri <= s.tasks[t].pri
    ensures forall n :: n in s.mutexes ==> s.mutexes[n].holder != Some(t)
  {
    assert TaskOk(s, t) && HolderOk(s, m);
    TakerOutranks(s, t, m);
    HoldsNone(s, t);
    forall u | BlockedOn(s, u, m)
      ensures s.tasks[u].pri <= s.tasks[t].pri
    {
      assert TaskOk(s, u);
    }
  }

  /** Blocking raises the holder for the sake of the task that blocks. */
  lemma JoinEarns(s: System, t: nat, m: nat)
    requires Inv(s) && AllEarned(s) && OneEach(s) && t in s.tasks && s.tasks[t].place.AtLock? && s.tasks[t].place.m == m
    requires m in s.mutexes && s.mutexes[m].holder.Some?
    ensures AllEarned(JoinWaiters(s, t, m))
  {
    var r, h := JoinWaiters(s, t, m), s.mutexes[m].holder.value;
    hide *;
    HolderApart(s, t, m, h);
    JoinShape(s, t, m, h);
    JoinedEarns(s, r, t, m, h);
    OthersUndisturbed(s, r, {t, h}, m);
    AllEarnedIf(s, r, m);
  }

  /** A task in a take of m and the holder of m are different tasks, and the holder holds nothing else. */
  lemma HolderApart(s: System, t: nat, m: nat, h: nat)
    requires Inv(s) && AllEarned(s) && OneEach(s) && t in s.tasks && s.tasks[t].place.InCall()
    requires m in s.mutexes && s.mutexes[m].holder == Some(h)
    ensures h in s.tasks && h != t && s.tasks[h].held == 1 && !s.tasks[h].place.InCall() && Earned(s, m)
    ensures s.tasks[h].base <= s.tasks[h].pri
    ensures forall n :: n in s.mutexes && n != m ==> s.mutexes[n].holder != Some(h) && s.mutexes[n].holder != Some(t)
  {
    assert HolderOk(s, m) && TaskOk(s, t) && TaskOk(s, h);
    NotHolding(s, h, m);
    HoldsOnly(s, h, m);
    HoldsNone(s, t);
  }

  /** What blocking changes, exactly. */
  lemma JoinShape(s: System, t: nat, m: nat, h: nat)
    requires t in s.tasks && m in s.mutexes && h in s.tasks && s.mutexes[m].holder == Some(h) && t != h
    ensures var r := JoinWaiters(s, t, m);
      && r.tasks.Keys == s.tasks.Keys && r.mutexes.Keys == s.mutexes.Keys
      && (forall n :: n in s.mutexes ==> r.mutexes[n].holder == s.mutexes[n].holder)
      && (forall u :: u in s.tasks && u != t && u != h ==> r.tasks[u] == s.tasks[u])
      && r.tasks[h] == s.tasks[h].(pri := Larger(s.tasks[h].pri, s.tasks[t].pri))
      && r.tasks[t].base == s.tasks[t].base && r.tasks[t].pri == s.tasks[t].pri
      && r.tasks[t].place.Waiting? && r.tasks[t].place.m == m
      && r.tasks[t].place.inherited == (s.tasks[h].pri < s.tasks[t].pri || s.tasks[h].base < s.tasks[t].pri)
  {
    hide InsertByValue;
  }

  lemma JoinedEarns(s: System, r: System, t: nat, m: nat, h: nat)
    requires t in s.tasks && h in s.tasks && t != h && m in s.mutexes && s.mutexes[m].holder == Some(h) && Earned(s, m)
    requires r.tasks.Keys == s.tasks.Keys && m in r.mutexes && r.mutexes[m].holder == Some(h)
    requires s.tasks[t].place.AtLock? && !s.tasks[h].place.InCall() && s.tasks[h].base <= s.tasks[h].pri
    requires forall u :: u in s.tasks && u != t && u != h ==> r.tasks[u] == s.tasks[u]
    requires r.tasks[h] == s.tasks[h].(pri := Larger(s.tasks[h].pri, s.tasks[t].pri))
    requires r.tasks[t].pri == s.tasks[t].pri
    requires r.tasks[t].place.Waiting? && r.tasks[t].place.m == m
    requires r.tasks[t].place.inherited == (s.tasks[h].pri < s.tasks[t].pri || s.tasks[h].base < s.tasks[t].pri)
    ensures Earned(r, m)
  {
    if r.tasks[h].pri > r.tasks[h].base {
      if s.tasks[t].pri >= s.tasks[h].pri {
        assert Charged(r, t, m, r.tasks[h].pri);
      } else {
        var u :| Charged(s, u, m, s.tasks[h].pri);
        assert Charged(r, u, m, r.tasks[h].pri);
      }
    }
    forall u | BlockedOn(r, u, m) && r.tasks[u].pri > r.tasks[h].base
      ensures r.tasks[u].place.inherited
    {
      assert u != t && u != h ==> BlockedOn(s, u, m);
    }
  }

  lemma HoldsOnly(s: System, h: nat, m: nat)
    requires Inv(s) && OneEach(s) && m in s.mutexes && h in s.tasks && s.mutexes[m].holder == Some(h)
    ensures forall n :: n in s.mutexes && n != m ==> s.mutexes[n].holder != Some(h)
  {
    assert TaskOk(s, h);
    NotHolding(s, h, m);
    assert forall n :: n in s.mutexes && s.mutexes[n].holder == Some(h) ==> n in HeldBy(s, h);
  }

  lemma HoldsNone(s: System, t: nat)
    requires Inv(s) && t in s.tasks && s.tasks[t].held == 0
    ensures forall n :: n in s.mutexes ==> s.mutexes[n].holder != Some(t)
  {
    assert TaskOk(s, t);
    forall n | n in s.mutexes
      ensures s.mutexes[n].holder != Some(t)
    {
      if s.mutexes[n].holder == Some(t) {
        NotHolding(s, t, n);
      }
    }
  }

  lemma ReleaseEarns(s: System, t: nat, m: nat)
    requires Inv(s) && AllEarned(s) && OneEach(s) && t in s.tasks && s.tasks[t].place.Outside?
    requires m in s.mutexes && s.mutexes[m].holder == Some(t)
    ensures AllEarned(Release(s, t, m))
  {
    hide Inv;
    hide AllEarned;
    hide OneEach;
    hide HeldBy;
    hide Release;
    hide Earned;
    hide Undisturbed;
    hide BlockedOn;
    var r := Release(s, t, m);
    ReleaseShape(s, t, m);
    HoldsOnly(s, t, m);
    FirstIsBlocked(s, m);
    var w := s.mutexes[m].waiters;
    if w != [] {
      HoldsNone(s, w[0].owner);
      BlockedIs(s, w[0].owner, m);
    }
    FreeIsEarned(r, m);
    OthersUndisturbed(s, r, if w == [] then {t} else {t, w[0].owner}, m);
    AllEarnedIf(s, r, m);
  }

  lemma FreeIsEarned(s: System, m: nat)
    requires m in s.mutexes && s.mutexes[m].holder == None
    ensures Earned(s, m)
  {
  }

  lemma BlockedIs(s: System, u: nat, m: nat)
    requires BlockedOn(s, u, m)
    ensures u in s.tasks && s.tasks[u].place.Waiting? && s.tasks[u].place.m == m
  {
  }

  lemma FirstIsBlocked(s: System, m: nat)
    requires Inv(s) && m in s.mutexes
    ensures var w := s.mutexes[m].waiters;
      w != [] ==> BlockedOn(s, w[0].owner, m) && s.tasks[w[0].owner].held == 0
  {
    var w := s.mutexes[m].waiters;
    assert WaitersOk(s, m);
    if w != [] {
      assert w[0] in w;
      assert TaskOk(s, w[0].owner);
    }
  }

  lemma ExpireEarns(s: System, t: nat)
    requires AllEarned(s) && t in s.tasks && s.tasks[t].place.Waiting? && s.tasks[t].place.m in s.mutexes
    ensures AllEarned(Next(s, Expire(t)))
  {
    var r := Next(s, Expire(t));
    hide RemoveOwner;
    forall m | m in r.mutexes
      ensures Earned(r, m)
    {
      assert Undisturbed(s, r, m);
      EarnedStays(s, r, m);
    }
  }

  /** After a timeout the holder is above its base only for the sake of a task that still waits. */
  lemma UndoEarns(s: System, t: nat)
    requires Inv(s) && AllEarned(s) && OneEach(s) && Enabled(s, Undo(t))
    ensures AllEarned(Next(s, Undo(t)))
  {
    var m := s.tasks[t].place.m;
    match s.mutexes[m].holder
    case None => MoveEarnsNone(s, t, m);
    case Some(h) =>
      HolderApart(s, t, m, h);
      UndoneIsNeeded(s, t, m);
      LowerEarns(s, t, m, h);
  }

  lemma LowerEarns(s: System, t: nat, m: nat, h: nat)
    requires Inv(s) && AllEarned(s) && OneEach(s)
    requires t in s.tasks && s.tasks[t].place.Undoing? && s.tasks[t].place.m == m
    requires m in s.mutexes && s.mutexes[m].holder == Some(h)
    requires AsUrgentAsNeeded(MoveTo(Lower(s, m), t, Outside), h, m)
    ensures AllEarned(MoveTo(Lower(s, m), t, Outside))
  {
    hide Inv;
    hide AllEarned;
    hide OneEach;
    hide AsUrgentAsNeeded;
    hide Undisturbed;
    hide Earned;
    var r := MoveTo(Lower(s, m), t, Outside);
    HolderApart(s, t, m, h);
    UndoShape(s, t, m, h);
    hide Lower;
    UndoneEarns(s, r, t, m, h);
    OthersUndisturbed(s, r, {t, h}, m);
    AllEarnedIf(s, r, m);
  }

  lemma UndoShape(s: System, t: nat, m: nat, h: nat)
    requires t in s.tasks && m in s.mutexes && h in s.tasks && s.mutexes[m].holder == Some(h) && t != h
    ensures var r := MoveTo(Lower(s, m), t, Outside);
      && r.tasks.Keys == s.tasks.Keys && r.mutexes == s.mutexes
      && (forall u :: u in s.tasks && u != t && u != h ==> r.tasks[u] == s.tasks[u])
      && r.tasks[h].place == s.tasks[h].place && r.tasks[h].base == s.tasks[h].base
      && r.tasks[t] == s.tasks[t].(place := Outside)
  {
  }

  lemma UndoneEarns(s: System, r: System, t: nat, m: nat, h: nat)
    requires t in s.tasks && h in s.tasks && t != h && m in s.mutexes && s.mutexes[m].holder == Some(h) && Earned(s, m)
    requires r.tasks.Keys == s.tasks.Keys && r.mutexes == s.mutexes && AsUrgentAsNeeded(r, h, m)
    requires forall u :: u in s.tasks && u != t && u != h ==> r.tasks[u] == s.tasks[u]
    requires !s.tasks[h].place.InCall() && r.tasks[h].place == s.tasks[h].place && r.tasks[h].base == s.tasks[h].base
    requires r.tasks[t].place.Outside?
    ensures Earned(r, m)
  {
    forall u | BlockedOn(r, u, m)
      ensures BlockedOn(s, u, m) && r.tasks[u] == s.tasks[u]
    {
    }
    if r.tasks[h].pri > r.tasks[h].base {
      var u :| BlockedOn(r, u, m) && r.tasks[u].pri == r.tasks[h].pri;
      assert Charged(r, u, m, r.tasks[h].pri);
    }
  }

  lemma MoveEarnsNone(s: System, t: nat, m: nat)
    requires AllEarned(s) && t in s.tasks && s.tasks[t].place.Undoing? && s.tasks[t].place.m == m && m in s.mutexes
    requires s.mutexes[m].holder == None
    ensures AllEarned(MoveTo(s, t, Outside))
  {
    var r := MoveTo(s, t, Outside);
    forall n | n in s.mutexes && n != m
      ensures Undisturbed(s, r, n)
    {
    }
    AllEarnedIf(s, r, m);
  }

  lemma StepEarns(s: System, e: Step)
    requires Inv(s) && AllEarned(s) && OneEach(s) && Enabled(s, e) && OneEach(Next(s, e))
    ensures AllEarned(Next(s, e))
  {
    var p := s.tasks[e.task].place;
    assert TaskOk(s, e.task);
    hide Inv;
    hide AllEarned;
    match e
    case Take(t, m, wait) =>
      if s.mutexes[m].holder == None {
        assert Next(s, e).tasks[t].held == s.tasks[t].held + 1;
        AcquireEarns(s, t, m);
      } else if wait {
        MoveEarns(s, t, AtLock(m, false));
      }
    case Retry(t) =>
      if s.mutexes[p.m].holder == None {
        AcquireEarns(s, t, p.m);
      } else {
        MoveEarns(s, t, AtLock(p.m, p.inherited));
      }
    case Block(t, timedOut) =>
      if timedOut {
        MoveEarns(s, t, Expired(p.m, p.inherited));
      } else if s.mutexes[p.m].holder == None {
        MoveEarns(s, t, Trying(p.m, p.inherited));
      } else {
        JoinEarns(s, t, p.m);
      }
    case CheckEmpty(t) =>
      MoveEarns(s, t, if s.mutexes[p.m].holder == None then Trying(p.m, p.inherited)
                      else if p.inherited then Undoing(p.m, true) else Outside);
    case Undo(t) => UndoEarns(s, t);
    case Give(t, m) => ReleaseEarns(s, t, m);
    case Sleep(t) => MoveEarns(s, t, Asleep);
    case Rouse(t) => MoveEarns(s, t, Outside);
    case Expire(t) => ExpireEarns(s, t);
  }

  lemma {:induction false} RunEarns(ss: seq<System>, es: seq<Step>, n: nat)
    requires IsRun(ss, es) && n < |ss| && forall i :: 0 <= i <= n ==> OneEach(ss[i])
    ensures AllEarned(ss[n])
  {
    hide Inv;
    hide Enabled;
    hide Next;
    hide AllEarned;
    hide OneEach;
    hide Initial;
    if n == 0 {
      InitialEarns(ss[0]);
    } else {
      RunEarns(ss, es, n - 1);
      RunKeeps(ss, es, n - 1);
      assert OneEach(ss[n - 1]) && OneEach(ss[n]);
      assert Enabled(ss[n - 1], es[n - 1]) && ss[n] == Next(ss[n - 1], es[n - 1]);
      StepEarns(ss[n - 1], es[n - 1]);
    }
  }

  lemma InitialEarns(s: System)
    requires Initial(s)
    ensures AllEarned(s)
  {
  }

  /**
   * Inheritance ends: in every run in which no task ever holds two mutexes, a task above its base
   * priority holds a mutex that a task at least as urgent is still in a take of; once there is no
   * such task, the holder is back at its base priority.
   */
  lemma InheritanceEnds(ss: seq<System>, es: seq<Step>, n: nat, h: nat)
    requires IsRun(ss, es) && n < |ss| && forall i :: 0 <= i <= n ==> OneEach(ss[i])
    requires h in ss[n].tasks && ss[n].tasks[h].pri != ss[n].tasks[h].base
    ensures exists m, u :: HeldByTask(ss[n], h, m) && Charged(ss[n], u, m, ss[n].tasks[h].pri)
  {
    RunEarns(ss, es, n);
    RunKeeps(ss, es, n);
    var s := ss[n];
    assert TaskOk(s, h);
    assert HeldBy(s, h) != {};
    var m :| m in HeldBy(s, h);
    assert HeldByTask(s, h, m) && Earned(s, m);
    var u :| Charged(s, u, m, s.tasks[h].pri);
  }

  /**
   * With a second mutex it does not end: the holder gives the mutex for which it was raised, the only
   * waiter takes it, and the holder is still above its base priority when no task is in a take.
   */
  lemma InheritanceOutlasts(s: System, h: nat, u: nat, m: nat)
    requires Inv(s) && Enabled(s, Give(h, m)) && s.tasks[h].held >= 2 && s.tasks[h].pri > s.tasks[h].base
    requires u in s.tasks && s.tasks[u].pri == s.tasks[h].pri && BlockedOn(s, u, m)
    requires forall v :: v in s.tasks && v != u ==> !s.tasks[v].place.InCall()
    ensures Enabled(Next(s, Give(h, m)), Retry(u))
    ensures var r := Next(Next(s, Give(h, m)), Retry(u));
      && h in r.tasks && r.tasks[h].pri > r.tasks[h].base && HeldByTask(r, u, m)
      && forall v :: v in r.tasks ==> !r.tasks[v].place.InCall()
  {
    GiveParts(s, h, m);
    HighestIsReached(s, m);
    OthersStayListed(s, m);
    assert s.mutexes[m].waiters[0].owner == u;
    ReleaseShape(s, h, m);
    hide Inv;
    hide Release;
    hide HighestWaiting;
    hide BlockedOn;
    LoneRetry(Next(s, Give(h, m)), h, u, m);
  }

  lemma LoneRetry(s: System, h: nat, u: nat, m: nat)
    requires m in s.mutexes && s.mutexes[m].holder == None
    requires Runs(s, u) && s.tasks[u].place.Trying? && s.tasks[u].place.m == m
    requires forall v :: v in s.tasks && v != u ==> !s.tasks[v].place.InCall()
    ensures Enabled(s, Retry(u))
    ensures var r := Next(s, Retry(u));
      && HeldByTask(r, u, m) && (forall v :: v in r.tasks ==> !r.tasks[v].place.InCall())
      && forall v :: v in s.tasks && v != u ==> v in r.tasks && r.tasks[v] == s.tasks[v]
  {
  }

  /** No blocked task outranks the holder of the mutex it waits for; tasks may wait while they hold. */
  ghost predicate Bounded(s: System) {
    forall t, m, h :: BlockedOn(s, t, m) && HeldByTask(s, h, m) ==> h in s.tasks && s.tasks[t].pri <= s.tasks[h].pri
  }

  /** u does not wait for a mutex whose holder, another task, is less urgent than p. */
  predicate NoChain(s: System, u: nat, p: nat)
    requires u in s.tasks
  {
    var q := s.tasks[u].place;
    q.Waiting? && q.m in s.mutexes && s.mutexes[q.m].holder.Some? ==>
      var h := s.mutexes[q.m].holder.value;
      h == u || (h in s.tasks && p <= s.tasks[h].pri)
  }

  /**
   * If tasks may wait while they hold, blocking on a mutex that u holds keeps the bound exactly if u
   * is as urgent already, or does not itself wait for a holder less urgent than the new waiter.
   */
  lemma BlockKeepsBound(s: System, t: nat, n: nat, u: nat)
    requires Bounded(s) && Runs(s, t) && n in s.mutexes && u in s.tasks && s.mutexes[n].holder == Some(u)
    ensures Bounded(JoinWaiters(s, t, n)) <==> s.tasks[t].pri <= s.tasks[u].pri || NoChain(s, u, s.tasks[t].pri)
  {
    var r, p := JoinWaiters(s, t, n), s.tasks[t].pri;
    BlockChanges(s, t, n, u);
    hide JoinWaiters;
    if p > s.tasks[u].pri && !NoChain(s, u, p) {
      var m := s.tasks[u].place.m;
      assert BlockedOn(r, u, m) && HeldByTask(r, s.mutexes[m].holder.value, m);
    } else {
      forall v, m, h | BlockedOn(r, v, m) && HeldByTask(r, h, m)
        ensures h in r.tasks && r.tasks[v].pri <= r.tasks[h].pri
      {
        assert HeldByTask(s, h, m);
        assert v != t ==> BlockedOn(s, v, m);
      }
    }
  }

  /** What blocking changes: t waits for n, and u is raised. */
  lemma BlockChanges(s: System, t: nat, n: nat, u: nat)
    requires t in s.tasks && n in s.mutexes && u in s.tasks && s.mutexes[n].holder == Some(u)
    ensures var r := JoinWaiters(s, t, n);
      && r.tasks.Keys == s.tasks.Keys && r.mutexes.Keys == s.mutexes.Keys
      && (forall m :: m in s.mutexes ==> r.mutexes[m].holder == s.mutexes[m].holder)
      && r.tasks[t].place.Waiting? && r.tasks[t].place.m == n
      && (forall v :: v in s.tasks && v != t ==> r.tasks[v].place == s.tasks[v].place)
      && forall v :: v in s.tasks ==> r.tasks[v].pri == if v == u then Larger(s.tasks[u].pri, s.tasks[t].pri)
        else s.tasks[v].pri
  {
  }

  /**
   * Inheritance does not pass along a chain. If u holds n while it waits for m, a task more urgent
   * than the holder of m that then waits for n leaves that holder below u.
   */
  lemma ChainBreaksBound(s: System, h: nat, u: nat, t: nat, m: nat, n: nat)
    requires h in s.tasks && u in s.tasks && t in s.tasks && h != u && u != t && t != h
    requires m in s.mutexes && n in s.mutexes && m != n && s.mutexes[m].holder == Some(h)
      && s.mutexes[n].holder == Some(u)
    requires s.tasks[u].place.Waiting? && s.tasks[u].place.m == m
    requires s.tasks[t].place == AtLock(n, false) && Runs(s, t)
    requires s.tasks[t].pri > s.tasks[u].pri && s.tasks[t].pri > s.tasks[h].pri
    ensures Enabled(s, Block(t, false))
    ensures var r := Next(s, Block(t, false));
      r.mutexes[m].holder == Some(h) && r.tasks[u].place == s.tasks[u].place
        && r.tasks[h].pri < r.tasks[u].pri == s.tasks[t].pri
  {
  }
}
