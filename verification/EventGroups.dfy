/**
 * Event groups. A word of bits is the set of the numbers of its set bits, so that `|`, `&` and
 * `& ~` are union, intersection and difference. A blocked task's event list item holds the bits
 * it waits for together with control bits; once released it holds the bits that released it.
 */
module EventGroups {
  import opened Basics

  const CLEAR_EVENTS_ON_EXIT_BIT: Word := {24}
  const UNBLOCKED_DUE_TO_BIT_SET: Word := {25}
  const WAIT_FOR_ALL_BITS: Word := {26}
  const ITEM_VALUE_IN_USE: Word := {31}
  const CONTROL_BYTES: Word := {24, 25, 26, 27, 28, 29, 30, 31}

  /** Bits 24 to 31 are zero. */
  predicate EventBits(w: Word) { forall b :: b in w ==> b < 24 }

  /** prvTestWaitCondition. */
  predicate TestWaitCondition(current: Word, waitFor: Word, all: bool) {
    if !all then current * waitFor != {} else current * waitFor == waitFor
  }

  /** The wait condition bit by bit: all the bits waited for are set, or one of them is. */
  lemma TestMeans(current: Word, waitFor: Word)
    ensures TestWaitCondition(current, waitFor, true) <==> forall b :: b in waitFor ==> b in current
    ensures TestWaitCondition(current, waitFor, false) <==> exists b :: b in waitFor && b in current
  {
    assert forall b :: b in current * waitFor <==> b in current && b in waitFor;
    if forall b :: b in waitFor ==> b in current {
      assert current * waitFor == waitFor;
    }
    if current * waitFor != {} {
      var b :| b in current * waitFor;
    }
  }

  /** Fewer bits never satisfy a condition that more bits do not. */
  lemma FewerBits(less: Word, more: Word, waitFor: Word, all: bool)
    requires less <= more && TestWaitCondition(less, waitFor, all)
    ensures TestWaitCondition(more, waitFor, all)
  {
    if all {
      assert forall b :: b in waitFor ==> b in less * waitFor;
      assert more * waitFor == waitFor;
    } else {
      var b :| b in less * waitFor;
      assert b in more * waitFor;
    }
  }

  // ----- item values -----

  /** The value stored for a task that waits. */
  function WaitValue(waitFor: Word, clear: bool, all: bool): Word {
    waitFor
    + (if clear then CLEAR_EVENTS_ON_EXIT_BIT else {})
    + (if all then WAIT_FOR_ALL_BITS else {})
    + ITEM_VALUE_IN_USE
  }

  /** The value stored when bits release the task. */
  function ReleaseValue(bits: Word): Word { bits + UNBLOCKED_DUE_TO_BIT_SET + ITEM_VALUE_IN_USE }

  function WaitedFor(v: Word): Word { v - CONTROL_BYTES }

  /** The walk's test on an item value. */
  predicate Matches(v: Word, bits: Word) { TestWaitCondition(bits, WaitedFor(v), v * WAIT_FOR_ALL_BITS != {}) }

  predicate ClearsOnExit(v: Word) { v * CLEAR_EVENTS_ON_EXIT_BIT != {} }

  /** The parts of a wait value can be told apart again. */
  lemma WaitValueParts(waitFor: Word, clear: bool, all: bool, bits: Word)
    requires EventBits(waitFor)
    ensures var v := WaitValue(waitFor, clear, all);
      && WaitedFor(v) == waitFor && (Matches(v, bits) <==> TestWaitCondition(bits, waitFor, all))
      && (ClearsOnExit(v) <==> clear) && v * UNBLOCKED_DUE_TO_BIT_SET == {}
  {
    var v := WaitValue(waitFor, clear, all);
    assert WaitedFor(v) == waitFor;
    assert 26 in v <==> all;
    assert 24 in v <==> clear;
    assert v * WAIT_FOR_ALL_BITS == if all then {26} else {};
    assert v * CLEAR_EVENTS_ON_EXIT_BIT == if clear then {24} else {};
  }

  lemma ReleaseValueParts(bits: Word)
    requires EventBits(bits)
    ensures var v := ReleaseValue(bits); v - CONTROL_BYTES == bits && v * UNBLOCKED_DUE_TO_BIT_SET != {}
  {
    assert 25 in ReleaseValue(bits) * UNBLOCKED_DUE_TO_BIT_SET;
  }

  // ----- what one setting of bits does to the waiters -----

  /** The waiters that bits do not satisfy, in order. */
  function Staying(ts: seq<nat>, item: map<nat, Word>, bits: Word): seq<nat>
    requires forall t :: t in ts ==> t in item
  {
    if ts == [] then []
    else (if Matches(item[ts[0]], bits) then [] else [ts[0]]) + Staying(ts[1..], item, bits)
  }

  /** The bits waited for by satisfied clear-on-exit waiters. */
  function ToClear(ts: seq<nat>, item: map<nat, Word>, bits: Word): Word
    requires forall t :: t in ts ==> t in item
  {
    if ts == [] then {}
    else (if Matches(item[ts[0]], bits) && ClearsOnExit(item[ts[0]]) then WaitedFor(item[ts[0]]) else {})
         + ToClear(ts[1..], item, bits)
  }

  lemma {:induction false} StayingMembers(ts: seq<nat>, item: map<nat, Word>, bits: Word)
    requires forall t :: t in ts ==> t in item
    ensures forall t :: t in Staying(ts, item, bits) <==> t in ts && !Matches(item[t], bits)
  {
    if ts != [] {
      StayingMembers(ts[1..], item, bits);
      assert ts == [ts[0]] + ts[1..];
    }
  }

  lemma {:induction false} StayingDistinct(ts: seq<nat>, item: map<nat, Word>, bits: Word)
    requires (forall t :: t in ts ==> t in item) && Distinct(ts)
    ensures Distinct(Staying(ts, item, bits))
  {
    if ts != [] {
      StayingDistinct(ts[1..], item, bits);
      StayingMembers(ts[1..], item, bits);
      var r := Staying(ts[1..], item, bits);
      forall i | 0 <= i < |r|
        ensures r[i] != ts[0]
      {
        assert r[i] in r;
      }
    }
  }

  /** A bit is cleared exactly if a released clear-on-exit waiter waited for it. */
  lemma {:induction false} ToClearMembers(ts: seq<nat>, item: map<nat, Word>, bits: Word)
    requires forall t :: t in ts ==> t in item
    ensures forall b :: b in ToClear(ts, item, bits) <==>
      exists t :: t in ts && Matches(item[t], bits) && ClearsOnExit(item[t]) && b in WaitedFor(item[t])
  {
    if ts != [] {
      ToClearMembers(ts[1..], item, bits);
      assert ts == [ts[0]] + ts[1..];
      hide Matches;
      hide ClearsOnExit;
      hide WaitedFor;
      forall b
        ensures b in ToClear(ts, item, bits) <==>
          exists t :: t in ts && Matches(item[t], bits) && ClearsOnExit(item[t]) && b in WaitedFor(item[t])
      {
        var rest := ToClear(ts[1..], item, bits);
        if b in rest {
          var t :| t in ts[1..] && Matches(item[t], bits) && ClearsOnExit(item[t]) && b in WaitedFor(item[t]);
          assert t in ts;
        }
      }
    }
  }

  lemma {:induction false} StayingAppend(ts: seq<nat>, t: nat, item: map<nat, Word>, bits: Word)
    requires (forall u :: u in ts ==> u in item) && t in item
    ensures (forall u :: u in ts + [t] ==> u in item)
    ensures Staying(ts + [t], item, bits) == Staying(ts, item, bits) + (if Matches(item[t], bits) then [] else [t])
  {
    hide Matches;
    var last := if Matches(item[t], bits) then [] else [t];
    if ts == [] {
      assert ts + [t] == [t] && Staying([t], item, bits) == last + [];
    } else {
      var first := if Matches(item[ts[0]], bits) then [] else [ts[0]];
      assert (ts + [t])[0] == ts[0] && (ts + [t])[1..] == ts[1..] + [t];
      StayingAppend(ts[1..], t, item, bits);
      assert first + (Staying(ts[1..], item, bits) + last) == first + Staying(ts[1..], item, bits) + last;
    }
  }

  lemma {:induction false} ToClearAppend(ts: seq<nat>, t: nat, item: map<nat, Word>, bits: Word)
    requires (forall u :: u in ts ==> u in item) && t in item
    ensures (forall u :: u in ts + [t] ==> u in item)
    ensures ToClear(ts + [t], item, bits) == ToClear(ts, item, bits)
      + (if Matches(item[t], bits) && ClearsOnExit(item[t]) then WaitedFor(item[t]) else {})
  {
    hide Matches;
    hide ClearsOnExit;
    hide WaitedFor;
    if ts == [] {
      assert ts + [t] == [t];
    } else {
      assert (ts + [t])[0] == ts[0] && (ts + [t])[1..] == ts[1..] + [t];
      ToClearAppend(ts[1..], t, item, bits);
    }
  }

  /** The item value of t after bits have been offered to the tasks in ts. */
  function Told(t: nat, ts: seq<nat>, item: map<nat, Word>, bits: Word): Word
    requires t in item
  {
    if t in ts && Matches(item[t], bits) then ReleaseValue(bits) else item[t]
  }

  lemma ToldAppend(u: nat, ts: seq<nat>, t: nat, item: map<nat, Word>, bits: Word)
    requires u in item && t in item
    ensures Told(u, ts + [t], item, bits) == if u == t && Matches(item[t], bits) then ReleaseValue(bits)
      else Told(u, ts, item, bits)
  {
  }

  /** The walk at item number at of the list, with the bits to be cleared so far. */
  datatype WalkState = WalkState(waiting: seq<nat>, item: map<nat, Word>, at: nat, toClear: Word)

  /** The walk has seen the first k of the tasks ts that it started with. */
  ghost predicate Walked(ts: seq<nat>, item: map<nat, Word>, k: nat, bits: Word, w: WalkState)
    requires k <= |ts|
  {
    && Distinct(ts) && (forall t :: t in ts ==> t in item)
    && w.waiting == Staying(ts[..k], item, bits) + ts[k..] && w.at == |Staying(ts[..k], item, bits)|
    && w.toClear == ToClear(ts[..k], item, bits)
    && w.item.Keys == item.Keys && forall t :: t in item ==> w.item[t] == Told(t, ts[..k], item, bits)
  }

  /** One round: the item is removed if it matches, else left behind. */
  ghost predicate Visited(bits: Word, w: WalkState, r: WalkState)
    requires w.at < |w.waiting| && w.waiting[w.at] in w.item
  {
    var t := w.waiting[w.at];
    if Matches(w.item[t], bits)
    then r == WalkState(w.waiting[..w.at] + w.waiting[w.at + 1..], w.item[t := ReleaseValue(bits)], w.at,
                        w.toClear + if ClearsOnExit(w.item[t]) then WaitedFor(w.item[t]) else {})
    else r == w.(at := w.at + 1)
  }

  lemma VisitAllowed(ts: seq<nat>, item: map<nat, Word>, k: nat, bits: Word, w: WalkState)
    requires k <= |ts| && Walked(ts, item, k, bits, w) && w.at < |w.waiting|
    ensures k < |ts| && w.waiting[w.at] == ts[k] && ts[k] in w.item && w.item[ts[k]] == item[ts[k]]
  {
    assert k < |ts|;
    assert ts[k] in ts && ts[k] !in ts[..k];
  }

  lemma SplitAt(ts: seq<nat>, k: nat)
    requires k < |ts| && Distinct(ts)
    ensures ts[..k + 1] == ts[..k] + [ts[k]] && ts[k..] == [ts[k]] + ts[k + 1..] && ts[k] !in ts[..k]
  {
  }

  lemma SplitRest(past: seq<nat>, t: nat, rest: seq<nat>, w: seq<nat>)
    requires w == past + ([t] + rest)
    ensures w[|past|] == t && w[..|past|] == past && w[|past| + 1..] == rest && w == past + [t] + rest
  {
  }

  lemma WalkStep(ts: seq<nat>, item: map<nat, Word>, k: nat, bits: Word, w: WalkState, r: WalkState)
    requires k <= |ts| && Walked(ts, item, k, bits, w) && w.at < |w.waiting| && w.waiting[w.at] in w.item
      && Visited(bits, w, r)
    ensures k < |ts| && Walked(ts, item, k + 1, bits, r)
  {
    VisitAllowed(ts, item, k, bits, w);
    var t, past := ts[k], Staying(ts[..k], item, bits);
    SplitAt(ts, k);
    SplitRest(past, t, ts[k + 1..], w.waiting);
    StayingAppend(ts[..k], t, item, bits);
    ToClearAppend(ts[..k], t, item, bits);
    ToldAll(ts[..k], t, item, bits);
    hide Staying;
    hide ToClear;
    hide Told;
    hide Matches;
    hide ClearsOnExit;
    hide WaitedFor;
    hide ReleaseValue;
    hide Distinct;
    if Matches(item[t], bits) {
      assert r.waiting == past + ts[k + 1..];
      assert forall u :: u in item ==> r.item[u] == Told(u, ts[..k + 1], item, bits);
    } else {
      assert r.waiting == past + [t] + ts[k + 1..];
    }
  }

  lemma WalkStart(ts: seq<nat>, item: map<nat, Word>, bits: Word)
    requires Distinct(ts) && forall t :: t in ts ==> t in item
    ensures Walked(ts, item, 0, bits, WalkState(ts, item, 0, {}))
  {
    assert ts[..0] == [] && ts[0..] == ts;
  }

  lemma WalkEnd(ts: seq<nat>, item: map<nat, Word>, k: nat, bits: Word, w: WalkState)
    requires k <= |ts| && Walked(ts, item, k, bits, w) && w.at >= |w.waiting|
    ensures w.waiting == Staying(ts, item, bits) && w.toClear == ToClear(ts, item, bits) && w.item.Keys == item.Keys
    ensures forall t :: t in item ==> w.item[t] == Told(t, ts, item, bits)
  {
    assert k == |ts| && ts[..k] == ts;
  }

  /** Clearing bits satisfies nobody. */
  lemma LeaveUnsatisfied(ts: seq<nat>, item: map<nat, Word>, bits: Word, left: Word)
    requires left <= bits && forall t :: t in ts ==> t in item && !Matches(item[t], bits)
    ensures forall t :: t in ts ==> !Matches(item[t], left)
  {
    forall t | t in ts
      ensures !Matches(item[t], left)
    {
      if Matches(item[t], left) {
        FewerBits(left, bits, WaitedFor(item[t]), item[t] * WAIT_FOR_ALL_BITS != {});
      }
    }
  }

  /** A rendezvous that the bits before clearing do not complete is not completed by those left. */
  lemma AllBits(bits: Word, left: Word, waitFor: Word)
    requires left <= bits
    ensures bits * waitFor == waitFor <==> waitFor <= bits
    ensures TestWaitCondition(left, waitFor, true) ==> waitFor <= bits
  {
    assert bits * waitFor == waitFor ==> forall b :: b in waitFor ==> b in bits * waitFor;
    if TestWaitCondition(left, waitFor, true) {
      assert forall b :: b in waitFor ==> b in left * waitFor;
    }
    if waitFor <= bits {
      assert bits * waitFor == waitFor;
    }
  }

  lemma Without(ts: seq<nat>, i: nat)
    requires i < |ts| && Distinct(ts)
    ensures var r := ts[..i] + ts[i + 1..]; Distinct(r) && forall u :: u in r <==> u in ts && u != ts[i]
  {
    assert ts == ts[..i] + [ts[i]] + ts[i + 1..];
  }

  lemma ToldAll(ts: seq<nat>, t: nat, item: map<nat, Word>, bits: Word)
    requires t in item && t !in ts
    ensures forall u :: u in item ==>
      Told(u, ts + [t], item, bits) == if u == t && Matches(item[t], bits) then ReleaseValue(bits)
        else Told(u, ts, item, bits)
    ensures Told(t, ts, item, bits) == item[t]
  {
    forall u | u in item
      ensures Told(u, ts + [t], item, bits) == if u == t && Matches(item[t], bits) then ReleaseValue(bits)
        else Told(u, ts, item, bits)
    {
      ToldAppend(u, ts, t, item, bits);
    }
  }

  /** Those who stay are not satisfied by what is left of the bits either. */
  lemma NoneMissedAfter(ts: seq<nat>, item: map<nat, Word>, bits: Word, left: Word)
    requires (forall t :: t in ts ==> t in item) && left <= bits
    ensures forall t :: t in Staying(ts, item, bits) ==> t in ts && !Matches(item[t], bits) && !Matches(item[t], left)
  {
    StayingMembers(ts, item, bits);
    LeaveUnsatisfied(Staying(ts, item, bits), item, bits, left);
  }

  /** What a task asked for when it began to wait. */
  datatype Wish = Wish(waitFor: Word, clearOnExit: bool, all: bool)

  predicate HasWish(v: Word, w: Wish) { EventBits(w.waitFor) && v == WaitValue(w.waitFor, w.clearOnExit, w.all) }

  predicate Granted(w: Wish, bits: Word) { TestWaitCondition(bits, w.waitFor, w.all) }

  /**
   * In terms of what the waiters asked for: setting bits releases exactly those that the bits
   * satisfy, tells each of them those very bits, and then clears exactly the bits that some
   * released task both waited for and wanted cleared.
   */
  lemma ReleasesExactlyTheGranted(ts: seq<nat>, item: map<nat, Word>, bits: Word, wish: map<nat, Wish>)
    requires EventBits(bits) && forall t :: t in ts ==> t in item && t in wish && HasWish(item[t], wish[t])
    ensures forall t :: t in ts ==> (t in Staying(ts, item, bits) <==> !Granted(wish[t], bits))
    ensures forall t :: t in ts && Granted(wish[t], bits) ==> Told(t, ts, item, bits) - CONTROL_BYTES == bits
    ensures forall b :: b in ToClear(ts, item, bits) <==>
      exists t :: t in ts && Granted(wish[t], bits) && wish[t].clearOnExit && b in wish[t].waitFor
  {
    StayingMembers(ts, item, bits);
    ToClearMembers(ts, item, bits);
    ReleaseValueParts(bits);
    forall t | t in ts
      ensures Matches(item[t], bits) <==> Granted(wish[t], bits)
      ensures ClearsOnExit(item[t]) <==> wish[t].clearOnExit
      ensures WaitedFor(item[t]) == wish[t].waitFor
    {
      WaitValueParts(wish[t].waitFor, wish[t].clearOnExit, wish[t].all, bits);
    }
    hide Matches;
    hide Granted;
    hide ClearsOnExit;
    hide WaitedFor;
    hide WaitValue;
    hide ReleaseValue;
    hide Staying;
    hide ToClear;
    forall b
      ensures b in ToClear(ts, item, bits) <==>
        exists t :: t in ts && Granted(wish[t], bits) && wish[t].clearOnExit && b in wish[t].waitFor
    {
      if b in ToClear(ts, item, bits) {
        var t :| t in ts && Matches(item[t], bits) && ClearsOnExit(item[t]) && b in WaitedFor(item[t]);
        assert Granted(wish[t], bits);
      }
      if t :| t in ts && Granted(wish[t], bits) && wish[t].clearOnExit && b in wish[t].waitFor {
        assert Matches(item[t], bits);
      }
    }
  }

  /** The walk's test is the wait condition. */
  lemma MatchTest(v: Word, bits: Word, found: bool)
    requires found <==> if v * CONTROL_BYTES * WAIT_FOR_ALL_BITS == {} then (v - CONTROL_BYTES) * bits != {}
      else (v - CONTROL_BYTES) * bits == v - CONTROL_BYTES
    ensures found <==> Matches(v, bits)
    ensures v * CONTROL_BYTES * CLEAR_EVENTS_ON_EXIT_BIT != {} <==> ClearsOnExit(v)
  {
    assert v * CONTROL_BYTES * WAIT_FOR_ALL_BITS == v * WAIT_FOR_ALL_BITS;
    assert v * CONTROL_BYTES * CLEAR_EVENTS_ON_EXIT_BIT == v * CLEAR_EVENTS_ON_EXIT_BIT;
    assert (v - CONTROL_BYTES) * bits == bits * WaitedFor(v);
  }

  // ----- the event group -----

  datatype Outcome = Returned(value: Word) | Blocked

  class EventGroup {
    var bits: Word
    /** The tasks on xTasksWaitingForBits, in list order. */
    var waiting: seq<nat>
    /** The event list item value of every task inside a wait call. */
    var item: map<nat, Word>

    ghost predicate Shape()
      reads this
    {
      && EventBits(bits)
      && Distinct(waiting)
      && (forall t :: t in waiting ==> t in item && item[t] * UNBLOCKED_DUE_TO_BIT_SET == {})
    }

    /** No task that the bits satisfy is left blocked. */
    ghost predicate NoneMissed()
      reads this
    {
      forall t :: t in waiting ==> t in item && !Matches(item[t], bits)
    }

    ghost predicate Valid()
      reads this
    {
      Shape() && NoneMissed()
    }

    constructor ()
      ensures Valid() && bits == {} && waiting == [] && item == map[]
    {
      bits, waiting, item := {}, [], map[];
    }

    /** One round of the walk: the item at this place is removed if it matches, else left behind. */
    method Visit(at: nat, toClear: Word) returns (next: nat, clear: Word)
      requires at < |waiting| && waiting[at] in item
      modifies this`waiting, this`item
      ensures Visited(bits, WalkState(old(waiting), old(item), at, toClear), WalkState(waiting, item, next, clear))
    {
      var t := waiting[at];
      next, clear := at, toClear;
      var waitedFor := item[t];
      var control := waitedFor * CONTROL_BYTES;
      waitedFor := waitedFor - CONTROL_BYTES;
      var matchFound := false;
      if control * WAIT_FOR_ALL_BITS == {} {
        if waitedFor * bits != {} {
          matchFound := true;
        }
      } else if waitedFor * bits == waitedFor {
        matchFound := true;
      }
      MatchTest(item[t], bits, matchFound);
      if matchFound {
        if control * CLEAR_EVENTS_ON_EXIT_BIT != {} {
          clear := clear + waitedFor;
        }
        item := item[t := bits + UNBLOCKED_DUE_TO_BIT_SET + ITEM_VALUE_IN_USE];
        waiting := waiting[..at] + waiting[at + 1..];
      } else {
        next := at + 1;
      }
    }

    /** The walk over the whole list. */
    method Walk() returns (toClear: Word)
      requires Shape()
      modifies this`waiting, this`item
      ensures waiting == Staying(old(waiting), old(item), bits) && toClear == ToClear(old(waiting), old(item), bits)
      ensures item.Keys == old(item.Keys) && forall t :: t in item ==> item[t] == Told(t, old(waiting), old(item), bits)
    {
      toClear := {};
      ghost var ts, it, k := waiting, item, 0;
      var at: nat := 0;
      WalkStart(ts, it, bits);
      hide Walked;
      hide Visited;
      hide Staying;
      hide ToClear;
      hide Told;
      while at < |waiting|
        invariant k <= |ts| && Walked(ts, it, k, bits, WalkState(waiting, item, at, toClear))
        decreases |ts| - k
      {
        ghost var before := WalkState(waiting, item, at, toClear);
        VisitAllowed(ts, it, k, bits, before);
        at, toClear := Visit(at, toClear);
        WalkStep(ts, it, k, bits, before, WalkState(waiting, item, at, toClear));
        k := k + 1;
      }
      WalkEnd(ts, it, k, bits, WalkState(waiting, item, at, toClear));
    }

    /**
     * xEventGroupSetBits: exactly the waiters that the old bits and the new ones together satisfy
     * are released, each told these bits as they were before any was cleared.
     */
    method SetBits(toSet: Word) returns (now: Word)
      requires Shape() && EventBits(toSet)
      modifies this
      ensures Valid() && now == bits
      ensures waiting == Staying(old(waiting), old(item), old(bits) + toSet)
      ensures bits == old(bits) + toSet - ToClear(old(waiting), old(item), old(bits) + toSet)
      ensures item.Keys == old(item.Keys)
      ensures forall t :: t in item ==> item[t] == Told(t, old(waiting), old(item), old(bits) + toSet)
    {
      ghost var ts, it, b := waiting, item, bits + toSet;
      bits := bits + toSet;
      StayingMembers(ts, it, b);
      StayingDistinct(ts, it, b);
      var toClear := Walk();
      bits := bits - toClear;
      NoneMissedAfter(ts, it, b, bits);
      hide Staying;
      hide ToClear;
      hide Matches;
      now := bits;
    }

    /** vTaskPlaceOnUnorderedEventList: the item goes to the end of the list. */
    method Place(t: nat, waitFor: Word, clear: bool, all: bool)
      requires Valid() && t !in item && EventBits(waitFor) && !TestWaitCondition(bits, waitFor, all)
      modifies this`waiting, this`item
      ensures Valid() && waiting == old(waiting) + [t] && item == old(item)[t := WaitValue(waitFor, clear, all)]
    {
      WaitValueParts(waitFor, clear, all, bits);
      hide WaitValue;
      hide Matches;
      assert t !in waiting;
      item := item[t := WaitValue(waitFor, clear, all)];
      waiting := waiting + [t];
    }

    /** xEventGroupWaitBits up to the point where the task has blocked, if it does. */
    method WaitBits(t: nat, waitFor: Word, clearOnExit: bool, all: bool, canBlock: bool) returns (r: Outcome)
      requires Valid() && t !in item && EventBits(waitFor) && waitFor != {}
      modifies this
      ensures Valid()
      ensures if TestWaitCondition(old(bits), waitFor, all)
        then r == Returned(old(bits)) && bits == (if clearOnExit then old(bits) - waitFor else old(bits))
             && waiting == old(waiting) && item == old(item)
        else bits == old(bits) && (if canBlock
          then r == Blocked && waiting == old(waiting) + [t]
            && item == old(item)[t := WaitValue(waitFor, clearOnExit, all)]
          else r == Returned(old(bits)) && waiting == old(waiting) && item == old(item))
    {
      hide Matches;
      hide WaitValue;
      hide TestWaitCondition;
      var current := bits;
      if TestWaitCondition(current, waitFor, all) {
        r := Returned(current);
        if clearOnExit {
          LeaveUnsatisfied(waiting, item, bits, bits - waitFor);
          bits := bits - waitFor;
        }
      } else if !canBlock {
        r := Returned(current);
      } else {
        Place(t, waitFor, clearOnExit, all);
        r := Blocked;
      }
    }

    /**
     * The end of xEventGroupWaitBits, when the task runs again. Released by bits, it returns those
     * bits; timed out, it returns the present ones, which it may clear if they satisfy it after all.
     */
    method FinishWait(t: nat, waitFor: Word, clearOnExit: bool, all: bool) returns (value: Word)
      requires Valid() && t in item && t !in waiting && EventBits(waitFor)
      modifies this`bits, this`item
      ensures Valid() && item == old(item) - {t}
      ensures var released := old(item[t]) * UNBLOCKED_DUE_TO_BIT_SET != {};
        && value == (if released then old(item[t]) - CONTROL_BYTES else old(bits))
        && bits == if !released && TestWaitCondition(old(bits), waitFor, all) && clearOnExit then old(bits) - waitFor
          else old(bits)
    {
      hide Matches;
      hide TestWaitCondition;
      value := item[t];
      item := item - {t};
      if value * UNBLOCKED_DUE_TO_BIT_SET == {} {
        value := bits;
        if TestWaitCondition(value, waitFor, all) {
          if clearOnExit {
            LeaveUnsatisfied(waiting, item, bits, bits - waitFor);
            bits := bits - waitFor;
          }
        }
        assert value - CONTROL_BYTES == value;
      }
      value := value - CONTROL_BYTES;
    }

    /** xEventGroupSync up to the point where the task has blocked, if it does. */
    method Sync(t: nat, toSet: Word, waitFor: Word, canBlock: bool) returns (r: Outcome)
      requires Valid() && t !in item && EventBits(toSet) && EventBits(waitFor) && waitFor != {}
      modifies this
      ensures Valid()
      ensures var b, left := old(bits) + toSet, old(bits) + toSet - ToClear(old(waiting), old(item), old(bits) + toSet);
        if waitFor <= b then r == Returned(b) && bits == left - waitFor
          && waiting == Staying(old(waiting), old(item), b)
        else bits == left && (if canBlock
          then r == Blocked && waiting == Staying(old(waiting), old(item), b) + [t] && t in item
               && item[t] == WaitValue(waitFor, true, true)
          else r == Returned(left) && waiting == Staying(old(waiting), old(item), b))
      ensures item.Keys == old(item.Keys) + (if r == Blocked then {t} else {})
      ensures forall u :: u in old(item) ==> item[u] == Told(u, old(waiting), old(item), old(bits) + toSet)
    {
      hide Matches;
      hide WaitValue;
      hide Staying;
      hide ToClear;
      var original := bits;
      var _ := SetBits(toSet);
      AllBits(original + toSet, bits, waitFor);
      hide TestWaitCondition;
      if (original + toSet) * waitFor == waitFor {
        r := Returned(original + toSet);
        LeaveUnsatisfied(waiting, item, bits, bits - waitFor);
        bits := bits - waitFor;
      } else if canBlock {
        Place(t, waitFor, true, true);
        r := Blocked;
      } else {
        r := Returned(bits);
      }
    }

    /** xEventGroupClearBits. */
    method ClearBits(toClear: Word) returns (was: Word)
      requires Valid() && EventBits(toClear)
      modifies this`bits
      ensures Valid() && was == old(bits) && bits == old(bits) - toClear
    {
      hide Matches;
      LeaveUnsatisfied(waiting, item, bits, bits - toClear);
      was := bits;
      bits := bits - toClear;
    }

    /** The block time of a waiting task runs out: the tick takes its item off the list. */
    method Expire(t: nat)
      requires Valid() && t in waiting
      modifies this`waiting
      ensures Valid() && t !in waiting
      ensures exists i: nat ::
        i < |old(waiting)| && old(waiting)[i] == t && waiting == old(waiting)[..i] + old(waiting)[i + 1..]
    {
      var i: nat :| i < |waiting| && waiting[i] == t;
      hide Matches;
      Without(waiting, i);
      waiting := waiting[..i] + waiting[i + 1..];
    }
  }
}
