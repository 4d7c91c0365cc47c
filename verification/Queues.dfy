/**
 * The kernel queue: a circular buffer of item slots with its lock counts and event lists.
 * Every critical section is shown to be one step of QueueProtocol and, on the items, one
 * operation on a bounded sequence.
 */
module Queues {
  import opened Basics
  import opened ValueLists
  import opened QueueProtocol
  import opened Rings

  datatype Position = Back | Front | Overwrite

  // ----- the circular buffer -----

  /** The n items behind the read slot, oldest first. */
  function Items<T>(a: seq<T>, readFrom: nat, n: nat): (r: seq<T>)
    requires readFrom < |a| && n <= |a|
    ensures |r| == n
  {
    seq(n, i requires 0 <= i < n => a[Slot(readFrom + 1 + i, |a|)])
  }

  lemma PutBack<T>(a: seq<T>, readFrom: nat, n: nat, x: T)
    requires readFrom < |a| && n < |a|
    ensures Items(a[Slot(readFrom + n + 1, |a|) := x], readFrom, n + 1) == Items(a, readFrom, n) + [x]
  {
    hide Slot;
    var r, s := Items(a[Slot(readFrom + n + 1, |a|) := x], readFrom, n + 1), Items(a, readFrom, n);
    forall i | 0 <= i < n
      ensures r[i] == s[i]
    {
      SlotsDiffer(readFrom, 1 + i, n + 1, |a|);
    }
  }

  /** The slot before the read slot. */
  function Before(readFrom: nat, n: nat): (r: nat)
    requires readFrom < n
    ensures r < n
  {
    if readFrom == 0 then n - 1 else readFrom - 1
  }

  lemma PutFront<T>(a: seq<T>, readFrom: nat, n: nat, x: T)
    requires readFrom < |a| && n < |a|
    ensures Items(a[readFrom := x], Before(readFrom, |a|), n + 1) == [x] + Items(a, readFrom, n)
  {
    var p := Before(readFrom, |a|);
    assert Slot(p + 1, |a|) == readFrom;
    var r, s := Items(a[readFrom := x], p, n + 1), Items(a, readFrom, n);
    forall i | 0 <= i < n
      ensures r[1..][i] == s[i]
    {
      SlotsDiffer(p, 1, i + 2, |a|);
      assert Slot(p + 1 + (i + 1), |a|) == Slot(readFrom + 1 + i, |a|);
      assert r[i + 1] == a[readFrom := x][Slot(p + 1 + (i + 1), |a|)];
    }
    assert r == [r[0]] + r[1..];
  }

  lemma TakeFront<T>(a: seq<T>, readFrom: nat, n: nat)
    requires readFrom < |a| && 0 < n <= |a|
    ensures Items(a, readFrom, n) == [a[Slot(readFrom + 1, |a|)]] + Items(a, Slot(readFrom + 1, |a|), n - 1)
  {
    var s := Slot(readFrom + 1, |a|);
    var r, t := Items(a, readFrom, n), Items(a, s, n - 1);
    forall i | 0 <= i < n - 1
      ensures r[1..][i] == t[i]
    {
      assert Slot(s + 1 + i, |a|) == Slot(readFrom + 1 + (i + 1), |a|);
      assert r[i + 1] == a[Slot(readFrom + 1 + (i + 1), |a|)];
      assert t[i] == a[Slot(s + 1 + i, |a|)];
    }
    assert r == [r[0]] + r[1..];
  }

  lemma Single<T>(x: T)
    ensures Items([x], 0, 1) == [x]
  {
    var r := Items([x], 0, 1);
    assert r[0] == [x][Slot(1, 1)];
  }

  // ----- the queue -----

  /** When the list has run out, further wake-ups do nothing. */
  lemma {:induction false} NoneLeft(s: Side, n: nat, m: nat)
    requires s.Wakes(n).waiters == [] && n <= m
    ensures s.Wakes(m) == s.Wakes(n)
    decreases m
  {
    if n < m {
      NoneLeft(s, n, m - 1);
    }
  }

  class Queue<T> {
    const slots: array<T>
    var writeTo: nat
    var readFrom: nat
    var messages: nat
    var rxLock: int
    var txLock: int
    var waitingToReceive: seq<Entry>
    var waitingToSend: seq<Entry>

    ghost var wokenReceivers: set<nat>
    ghost var wokenSenders: set<nat>
    ghost var phase: Phase

    /** The write slot follows the last message. */
    ghost predicate Valid()
      reads this, slots
    {
      readFrom < slots.Length && messages <= slots.Length
      && writeTo == Slot(readFrom + messages + 1, slots.Length)
    }

    ghost function Contents(): (r: seq<T>)
      requires Valid()
      reads this, slots
    {
      Items(slots[..], readFrom, messages)
    }

    ghost function Receivers(): Side
      reads this
    {
      Side(txLock, waitingToReceive, wokenReceivers)
    }

    ghost function Senders(): Side
      reads this
    {
      Side(rxLock, waitingToSend, wokenSenders)
    }

    ghost function Abstract(): Control
      reads this
    {
      Control(slots.Length, messages, Receivers(), Senders(), phase)
    }

    /** xQueueGenericReset of a new queue over the given storage. */
    constructor (storage: array<T>)
      requires storage.Length > 0
      ensures slots == storage && Valid() && Contents() == [] && Abstract() == Created(storage.Length)
    {
      slots := storage;
      messages, writeTo, readFrom := 0, 0, storage.Length - 1;
      rxLock, txLock := UNLOCKED, UNLOCKED;
      waitingToReceive, waitingToSend := [], [];
      wokenReceivers, wokenSenders, phase := {}, {}, Idle;
    }

    /** prvCopyDataToQueue, for items of non-zero size. */
    method CopyTo(x: T, position: Position)
      requires Valid()
      requires if position == Overwrite then slots.Length == 1 else messages < slots.Length
      modifies this`writeTo, this`readFrom, this`messages, slots
      ensures Valid() && messages == old(Abstract()).Sent(position == Overwrite)
      ensures Contents() == match position
        case Back => old(Contents()) + [x]
        case Front => [x] + old(Contents())
        case Overwrite => [x]
    {
      hide Items;
      ghost var was := slots[..];
      var n := messages;
      if position == Back {
        PutBack(slots[..], readFrom, messages, x);
        slots[writeTo] := x;
        writeTo := writeTo + 1;
        if writeTo >= slots.Length {
          writeTo := 0;
        }
        assert slots[..] == was[Slot(readFrom + messages + 1, |was|) := x];
      } else {
        if messages < slots.Length {
          PutFront(slots[..], readFrom, messages, x);
        }
        slots[readFrom] := x;
        assert slots[..] == was[readFrom := x];
        if readFrom == 0 {
          readFrom := slots.Length - 1;
        } else {
          readFrom := readFrom - 1;
        }
        if position == Overwrite {
          if n > 0 {
            n := n - 1;
          }
          assert slots[..] == [x];
          Single(x);
        }
      }
      messages := n + 1;
    }

    /** prvCopyDataFromQueue: moves the read slot on and copies the item there. */
    method CopyFrom() returns (x: T)
      requires Valid() && messages > 0
      modifies this`readFrom
      ensures readFrom == Slot(old(readFrom) + 1, slots.Length) && x == slots[readFrom]
      ensures x == old(Contents())[0]
      ensures Items(slots[..], readFrom, messages - 1) == old(Contents())[1..]
    {
      TakeFront(slots[..], readFrom, messages);
      readFrom := readFrom + 1;
      if readFrom >= slots.Length {
        readFrom := 0;
      }
      x := slots[readFrom];
    }

    /** xTaskRemoveFromEventList on the receivers' list, unless it is empty. */
    method WakeReceiver()
      modifies this`waitingToReceive, this`wokenReceivers
      ensures Receivers() == old(Receivers()).Wake()
      ensures if old(waitingToReceive) == [] then waitingToReceive == [] && wokenReceivers == old(wokenReceivers)
        else waitingToReceive == old(waitingToReceive)[1..]
             && wokenReceivers == old(wokenReceivers) + {old(waitingToReceive)[0].owner}
    {
      if waitingToReceive != [] {
        wokenReceivers := wokenReceivers + {waitingToReceive[0].owner};
        waitingToReceive := waitingToReceive[1..];
      }
    }

    method WakeSender()
      modifies this`waitingToSend, this`wokenSenders
      ensures Senders() == old(Senders()).Wake()
      ensures if old(waitingToSend) == [] then waitingToSend == [] && wokenSenders == old(wokenSenders)
        else waitingToSend == old(waitingToSend)[1..]
             && wokenSenders == old(wokenSenders) + {old(waitingToSend)[0].owner}
    {
      if waitingToSend != [] {
        wokenSenders := wokenSenders + {waitingToSend[0].owner};
        waitingToSend := waitingToSend[1..];
      }
    }

    /** The critical section of xQueueGenericSend. */
    method TrySend(ghost t: nat, x: T, position: Position) returns (ok: bool)
      requires Valid() && (position == Overwrite ==> slots.Length == 1)
      modifies this, slots
      ensures Valid() && Abstract() == Next(old(Abstract()), Step.TrySend(t, position == Overwrite))
      ensures ok <==> old(messages) < slots.Length || position == Overwrite
      ensures Contents() == if !ok then old(Contents()) else match position
        case Back => old(Contents()) + [x]
        case Front => [x] + old(Contents())
        case Overwrite => [x]
    {
      hide Slot;
      hide Items;
      wokenSenders := wokenSenders - {t};
      ok := messages < slots.Length || position == Overwrite;
      if ok {
        CopyTo(x, position);
        WakeReceiver();
      }
    }

    /** xQueueGenericSendFromISR. */
    method SendFromISR(x: T, position: Position) returns (ok: bool)
      requires Valid() && (position == Overwrite ==> slots.Length == 1)
      modifies this, slots
      ensures Valid() && Abstract() == Next(old(Abstract()), IsrSend(position == Overwrite))
      ensures ok <==> old(messages) < slots.Length || position == Overwrite
      ensures Contents() == if !ok then old(Contents()) else match position
        case Back => old(Contents()) + [x]
        case Front => [x] + old(Contents())
        case Overwrite => [x]
    {
      hide Slot;
      hide Items;
      hide Int8;
      ok := messages < slots.Length || position == Overwrite;
      if ok {
        CopyTo(x, position);
        if txLock == UNLOCKED {
          WakeReceiver();
        } else {
          txLock := Int8(txLock + 1);
        }
      }
    }

    /** The critical section of xQueueReceive; with items of size zero, of xQueueSemaphoreTake. */
    method TryReceive(ghost t: nat) returns (r: Option<T>)
      requires Valid()
      modifies this
      ensures Valid() && Abstract() == Next(old(Abstract()), Step.TryReceive(t))
      ensures if old(messages) == 0 then r == None && Contents() == []
        else r == Some(old(Contents())[0]) && Contents() == old(Contents())[1..]
    {
      wokenReceivers := wokenReceivers - {t};
      r := None;
      if messages > 0 {
        var x := CopyFrom();
        messages := messages - 1;
        r := Some(x);
        WakeSender();
      }
    }

    /** xQueueReceiveFromISR. */
    method ReceiveFromISR() returns (r: Option<T>)
      requires Valid()
      modifies this
      ensures Valid() && Abstract() == Next(old(Abstract()), IsrReceive)
      ensures if old(messages) == 0 then r == None && Contents() == []
        else r == Some(old(Contents())[0]) && Contents() == old(Contents())[1..]
    {
      hide Int8;
      r := None;
      if messages > 0 {
        var lock := rxLock;
        var x := CopyFrom();
        messages := messages - 1;
        r := Some(x);
        if lock == UNLOCKED {
          WakeSender();
        } else {
          rxLock := Int8(lock + 1);
        }
      }
    }

    /** The critical section of xQueuePeek: the read slot is put back, and the next receiver is woken. */
    method TryPeek(ghost t: nat) returns (r: Option<T>)
      requires Valid()
      modifies this
      ensures Valid() && Abstract() == Next(old(Abstract()), Step.TryPeek(t)) && Contents() == old(Contents())
      ensures r == if old(messages) == 0 then None else Some(old(Contents())[0])
    {
      wokenReceivers := wokenReceivers - {t};
      r := None;
      if messages > 0 {
        var original := readFrom;
        var x := CopyFrom();
        readFrom := original;
        r := Some(x);
        WakeReceiver();
      }
    }

    /** prvLockQueue. */
    method Lock(ghost t: nat, ghost role: Role)
      modifies this`rxLock, this`txLock, this`phase
      ensures Abstract() == Next(old(Abstract()), LockQueue(t, role))
      ensures rxLock == (if old(rxLock) == UNLOCKED then LOCKED_UNMODIFIED else old(rxLock))
      ensures txLock == (if old(txLock) == UNLOCKED then LOCKED_UNMODIFIED else old(txLock))
    {
      if rxLock == UNLOCKED {
        rxLock := LOCKED_UNMODIFIED;
      }
      if txLock == UNLOCKED {
        txLock := LOCKED_UNMODIFIED;
      }
      phase := Locked(t, role);
    }

    /** The second look at the queue: whether the caller must block. */
    method MustBlock(role: Role) returns (b: bool)
      requires phase.Locked? && phase.role == role
      modifies this`phase
      ensures Abstract() == Next(old(Abstract()), Check) && b == phase.Checked?
      ensures b <==> if role == Receiver then messages == 0 else messages == slots.Length
    {
      if role == Receiver {
        b := messages == 0;
      } else {
        b := messages == slots.Length;
      }
      phase := if b then Checked(phase.task, phase.role) else Unlocking;
    }

    /** vTaskPlaceOnEventList: waiters are kept in priority order. */
    method PlaceOnEventList(e: Entry, role: Role)
      requires phase.Checked? && phase.role == role
      modifies this`waitingToReceive, this`waitingToSend, this`phase
      ensures Abstract() == Next(old(Abstract()), Place(e))
      ensures (if role == Receiver then waitingToReceive else waitingToSend) ==
        InsertByValue(if role == Receiver then old(waitingToReceive) else old(waitingToSend), e)
      ensures if role == Receiver then waitingToSend == old(waitingToSend)
        else waitingToReceive == old(waitingToReceive)
    {
      if role == Receiver {
        waitingToReceive := InsertByValue(waitingToReceive, e);
      } else {
        waitingToSend := InsertByValue(waitingToSend, e);
      }
      phase := Unlocking;
    }

    /** The first critical section of prvUnlockQueue. */
    method PayReceivers()
      modifies this`txLock, this`waitingToReceive, this`wokenReceivers, this`phase
      ensures Abstract() == Next(old(Abstract()), UnlockTx) && txLock == UNLOCKED
      ensures var n, w := Smaller(old(Receivers()).Owed(), |old(waitingToReceive)|), old(waitingToReceive);
        waitingToReceive == w[n..] && wokenReceivers == old(wokenReceivers) + Owners(w[..n])
    {
      UnlockWakes(Receivers());
      var count := txLock;
      ghost var s, n := Receivers(), 0;
      while count > LOCKED_UNMODIFIED
        invariant s.lock > 0 ==> n + count == s.lock && count >= 0
        invariant s.lock <= 0 ==> n == 0 && count == s.lock
        invariant Receivers() == s.Wakes(n) && txLock == s.lock
        decreases count
      {
        if waitingToReceive == [] {
          NoneLeft(s, n, s.lock);
          break;
        }
        WakeReceiver();
        count := count - 1;
        n := n + 1;
      }
      txLock := UNLOCKED;
      phase := HalfUnlocked;
    }

    /** The second critical section. */
    method PaySenders()
      modifies this`rxLock, this`waitingToSend, this`wokenSenders, this`phase
      ensures Abstract() == Next(old(Abstract()), UnlockRx) && rxLock == UNLOCKED
      ensures var n, w := Smaller(old(Senders()).Owed(), |old(waitingToSend)|), old(waitingToSend);
        waitingToSend == w[n..] && wokenSenders == old(wokenSenders) + Owners(w[..n])
    {
      UnlockWakes(Senders());
      var count := rxLock;
      ghost var s, n := Senders(), 0;
      while count > LOCKED_UNMODIFIED
        invariant s.lock > 0 ==> n + count == s.lock && count >= 0
        invariant s.lock <= 0 ==> n == 0 && count == s.lock
        invariant Senders() == s.Wakes(n) && rxLock == s.lock
        decreases count
      {
        if waitingToSend != [] {
          WakeSender();
          count := count - 1;
          n := n + 1;
        } else {
          NoneLeft(s, n, s.lock);
          break;
        }
      }
      rxLock := UNLOCKED;
      phase := Idle;
    }
  }
}
