/**
 * The RT-Thread message queue object. Each method is one step of `PoolProtocol`: a stretch with
 * interrupts disabled, or one copied byte. Send and Receive are whole calls that are not interrupted.
 */
module MessagePool {
  import opened Basics
  import opened PoolProtocol
  import opened Words

  lemma DrainOnce(p: Pool, k: nat, free: seq<int>, queue: seq<int>)
    requires Blocks(p, free, queue) && p.head != NIL && |queue| <= k
    ensures k > 0 && Drain(p, k) == Drain(FreeHead(p), k - 1)
  {
    HeadIsFirst(p, free, queue);
  }

  lemma HeadIsFirst(p: Pool, free: seq<int>, queue: seq<int>)
    requires Blocks(p, free, queue) && p.head != NIL
    ensures queue != [] && p.head == queue[0] && 0 <= p.head < |p.next|
  {
    LinkedHead(p.next, p.head, queue);
  }

  /** What linking an urgent message changes. */
  lemma FrontOf(p: Pool, i: Ideal, free: seq<int>, queue: seq<int>, t: nat)
    requires Matches(p, i, free, queue) && Enabled(p, Step.Link(t)) && p.threads[t].urgent
    ensures 0 <= p.threads[t].b < |p.next|
    ensures var b := p.threads[t].b;
      Next(p, Step.Link(t)) == p.(next := p.next[b := p.head], head := b, tail := if p.tail == NIL then b else p.tail,
                                  entry := p.entry + 1, threads := p.threads - {t})
  {
    BlockOf(p, i, free, queue, t);
  }

  /** What taking the head block off the list changes. */
  lemma HeadLeaves(p: Pool, i: Ideal, free: seq<int>, queue: seq<int>, t: nat, size: nat)
    requires Matches(p, i, free, queue) && Enabled(p, Step.Unlink(t, size))
    ensures 0 <= p.head < |p.next|
    ensures Next(p, Step.Unlink(t, size))
         == p.(head := p.next[p.head], tail := if p.tail == p.head then NIL else p.tail,
               entry := p.entry - 1, threads := p.threads[t := Receiving(p.head, size, [])])
  {
    HeadOf(p, i, free, queue);
  }

  /** The block of a thread in mid-call, and how far it has copied. */
  lemma BlockOf(p: Pool, i: Ideal, free: seq<int>, queue: seq<int>, t: nat)
    requires Matches(p, i, free, queue) && t in p.threads
    ensures 0 <= p.threads[t].b < |p.next| == |p.data| && |p.data[p.threads[t].b]| == p.messageSize
    ensures IsSending(p, t) ==> |p.threads[t].message| <= p.messageSize
  {
    HeldElsewhere(p, free, queue, t);
    if IsSending(p, t) {
      SenderHere(p, i, t);
    }
  }

  lemma FreeOf(p: Pool, i: Ideal, free: seq<int>, queue: seq<int>)
    requires Matches(p, i, free, queue)
    ensures p.free == NIL <==> Busy(i) >= i.capacity
    ensures p.free != NIL ==> 0 <= p.free < |p.next|
  {
    RoomIsFree(p, i, free, queue);
    LinkedHead(p.next, p.free, free);
  }

  lemma HeadOf(p: Pool, i: Ideal, free: seq<int>, queue: seq<int>)
    requires Matches(p, i, free, queue) && p.entry > 0
    ensures 0 <= p.head < |p.next|
  {
    LinkedHead(p.next, p.head, queue);
  }

  lemma TailOf(p: Pool, i: Ideal, free: seq<int>, queue: seq<int>)
    requires Matches(p, i, free, queue)
    ensures p.tail != NIL ==> 0 <= p.tail < |p.next|
  {
    TailNotHeld(p, free, queue);
  }

  lemma Pooled(p: Pool, i: Ideal, free: seq<int>, queue: seq<int>)
    requires Matches(p, i, free, queue)
    ensures Blocks(p, free, queue) && |queue| <= |p.next|
  {
    BlocksConserved(free, queue, Held(p.threads), |p.next|);
  }

  /** entry counts the messages. */
  lemma MessagesWaiting(p: Pool, i: Ideal, free: seq<int>, queue: seq<int>)
    requires Matches(p, i, free, queue)
    ensures p.entry == |i.list|
  {
  }

  /** What a receiver has copied carries its message. */
  lemma LastCarries(p: Pool, i: Ideal, free: seq<int>, queue: seq<int>, t: nat)
    requires Matches(p, i, free, queue) && IsReceiving(p, t)
    ensures t in i.receiving && Carries(p.threads[t].got, i.receiving[t])
  {
    ReceiverHere(p, i, t);
  }

  class MessageQueue {
    const next: array<int>
    const data: array<seq<Byte>>
    const messageSize: nat
    var head: int
    var tail: int
    var free: int
    var entry: int

    /** The local variables of the threads in mid-call, and the buffers received so far. */
    ghost var threads: map<nat, Place>
    ghost var log: seq<(nat, seq<Byte>)>
    /** The reference, and the blocks of the two lists. */
    ghost var ideal: Ideal
    ghost var freeList: seq<int>
    ghost var queue: seq<int>

    ghost function State(): Pool
      reads this, next, data
    {
      Pool(messageSize, next[..], data[..], head, tail, free, entry, threads, log)
    }

    ghost predicate Valid()
      reads this, next, data
    {
      next as object != data as object && Matches(State(), ideal, freeList, queue)
    }

    /** The step e was taken, and the reference took it as well. */
    twostate predicate Took(e: Step)
      reads this, next, data
    {
      Valid() && Enabled(old(State()), e) && State() == Next(old(State()), e) && ideal == IdealNext(old(ideal), e)
    }

    /** rt_mq_init: the free list is built block by block. */
    constructor (maxMessages: nat, messageSize: nat)
      ensures Valid() && ideal == IdealCreated(maxMessages) && Created(State())
      ensures this.messageSize == messageSize && fresh(next) && fresh(data)
    {
      this.messageSize := messageSize;
      next := new int[maxMessages];
      data := new seq<Byte>[maxMessages](_ => seq(messageSize, _ => 0));
      head, tail, free, entry := NIL, NIL, NIL, 0;
      threads, log, ideal := map[], [], IdealCreated(maxMessages);
      freeList, queue := [], [];
      new;
      var temp := 0;
      while temp < maxMessages
        invariant temp <= maxMessages && queue == [] && threads == map[] && log == []
          && ideal == IdealCreated(maxMessages)
        invariant head == tail == NIL && entry == 0
        invariant Distinct(freeList) && (forall b :: b in freeList <==> 0 <= b < temp)
        invariant Linked(next[..], free, freeList)
        invariant forall b :: 0 <= b < data.Length ==> |data[b]| == messageSize
      {
        ghost var links := next[..];
        LinkedPush(links, free, freeList, temp);
        next[temp] := free;
        assert next[..] == links[temp := free];
        free := temp;
        freeList := [temp] + freeList;
        temp := temp + 1;
      }
      assert Held(map[]) == {};
    }

    /** rt_mq_send and rt_mq_urgent: a block leaves the free list, unless there is none. */
    method Take(ghost t: nat, ghost message: Message, ghost urgent: bool) returns (b: int)
      requires Valid() && Enabled(State(), Step.Take(t, message, urgent))
      modifies this`free, this`threads, this`ideal, this`freeList, this`queue
      ensures Took(Step.Take(t, message, urgent))
      ensures b == NIL <==> Busy(old(ideal)) >= ideal.capacity
      ensures if b == NIL then ideal == old(ideal) && threads == old(threads) && log == old(log)
        else t in threads && threads[t] == Sending(b, message, urgent, false, 0)
    {
      hide Matches;
      ghost var p, e := State(), Step.Take(t, message, urgent);
      ghost var f, q := StepKeeps(p, ideal, freeList, queue, e);
      FreeOf(p, ideal, freeList, queue);
      b := free;
      if b != NIL {
        free := next[b];
        threads := threads[t := Sending(b, message, urgent, false, 0)];
      }
      freeList, queue, ideal := f, q, IdealNext(ideal, e);
    }

    /** msg->next = RT_NULL. */
    method ClearLink(ghost t: nat, b: int)
      requires Valid() && Enabled(State(), Step.ClearLink(t)) && threads[t].b == b
      modifies this`threads, this`ideal, this`freeList, this`queue, next
      ensures Took(Step.ClearLink(t))
    {
      hide Matches;
      ghost var p, e := State(), Step.ClearLink(t);
      ghost var f, q := StepKeeps(p, ideal, freeList, queue, e);
      BlockOf(p, ideal, freeList, queue, t);
      next[b] := NIL;
      assert next[..] == p.next[b := NIL];
      threads := threads[t := threads[t].(cleared := true)];
      freeList, queue, ideal := f, q, IdealNext(ideal, e);
    }

    /** One byte of rt_memcpy into the block. */
    method CopyIn(ghost t: nat, b: int, k: nat, v: Byte)
      requires Valid() && Enabled(State(), Step.CopyIn(t)) && threads[t].b == b
      requires threads[t].done == k && threads[t].message[k] == v
      modifies this`threads, this`ideal, this`freeList, this`queue, data
      ensures Took(Step.CopyIn(t))
    {
      hide Matches;
      ghost var p, e := State(), Step.CopyIn(t);
      ghost var f, q := StepKeeps(p, ideal, freeList, queue, e);
      BlockOf(p, ideal, freeList, queue, t);
      data[b] := SetByte(data[b], k, v);
      assert data[..] == p.data[b := SetByte(p.data[b], k, v)];
      threads := threads[t := threads[t].(done := k + 1)];
      freeList, queue, ideal := f, q, IdealNext(ideal, e);
    }

    /** The last stretch of rt_mq_send: the block becomes the tail of the message list. */
    method LinkBack(ghost t: nat, b: int)
      requires Valid() && Enabled(State(), Step.Link(t)) && threads[t].b == b && !threads[t].urgent
      modifies this`head, this`tail, this`entry, this`threads, this`ideal, this`freeList, this`queue, next
      ensures Took(Step.Link(t))
    {
      hide Matches;
      ghost var p, e := State(), Step.Link(t);
      ghost var f, q := StepKeeps(p, ideal, freeList, queue, e);
      TailOf(p, ideal, freeList, queue);
      assert Next(p, e) == p.(next := if p.tail == NIL then p.next else p.next[p.tail := b],
                              tail := b, head := if p.head == NIL then b else p.head,
                              entry := p.entry + 1, threads := p.threads - {t});
      hide Enabled;
      hide Next;
      hide IdealNext;
      if tail != NIL {
        next[tail] := b;
        assert next[..] == p.next[p.tail := b];
      }
      tail := b;
      head := if head == NIL then b else head;
      entry := entry + 1;
      threads := threads - {t};
      freeList, queue, ideal := f, q, IdealNext(ideal, e);
    }

    /** The last stretch of rt_mq_urgent: the block becomes the head. */
    method LinkFront(ghost t: nat, b: int)
      requires Valid() && Enabled(State(), Step.Link(t)) && threads[t].b == b && threads[t].urgent
      modifies this`head, this`tail, this`entry, this`threads, this`ideal, this`freeList, this`queue, next
      ensures Took(Step.Link(t))
    {
      hide Matches;
      hide Enabled;
      hide Next;
      hide IdealNext;
      ghost var p, e := State(), Step.Link(t);
      ghost var f, q := StepKeeps(p, ideal, freeList, queue, e);
      FrontOf(p, ideal, freeList, queue, t);
      next[b] := head;
      assert next[..] == p.next[b := head];
      head := b;
      tail := if tail == NIL then b else tail;
      entry := entry + 1;
      threads := threads - {t};
      freeList, queue, ideal := f, q, IdealNext(ideal, e);
    }

    /** The first stretch of rt_mq_recv, when there is a message: the head block leaves the list. */
    method Unlink(ghost t: nat, ghost size: nat) returns (b: int)
      requires Valid() && Enabled(State(), Step.Unlink(t, size))
      modifies this`head, this`tail, this`entry, this`threads, this`ideal, this`freeList, this`queue
      ensures Took(Step.Unlink(t, size)) && t in threads && threads[t] == Receiving(b, size, [])
    {
      hide Matches;
      hide Enabled;
      hide Next;
      hide IdealNext;
      ghost var p, e := State(), Step.Unlink(t, size);
      ghost var f, q := StepKeeps(p, ideal, freeList, queue, e);
      HeadLeaves(p, ideal, freeList, queue, t, size);
      b := head;
      head := next[b];
      tail := if tail == b then NIL else tail;
      entry := entry - 1;
      threads := threads[t := Receiving(b, size, [])];
      freeList, queue, ideal := f, q, IdealNext(ideal, e);
    }

    /** One byte of rt_memcpy out of the block. */
    method CopyOut(ghost t: nat, b: int, k: nat) returns (v: Byte)
      requires Valid() && Enabled(State(), Step.CopyOut(t)) && threads[t].b == b && |threads[t].got| == k
      modifies this`threads, this`ideal, this`freeList, this`queue
      ensures Took(Step.CopyOut(t)) && threads[t].got == old(threads[t].got) + [v]
    {
      hide Matches;
      ghost var p, e := State(), Step.CopyOut(t);
      ghost var f, q := StepKeeps(p, ideal, freeList, queue, e);
      BlockOf(p, ideal, freeList, queue, t);
      v := data[b][k];
      threads := threads[t := threads[t].(got := threads[t].got + [v])];
      freeList, queue, ideal := f, q, IdealNext(ideal, e);
    }

    /** The last stretch of rt_mq_recv: the block goes back to the free list. */
    method Release(ghost t: nat, b: int)
      requires Valid() && Enabled(State(), Step.Release(t)) && threads[t].b == b
      modifies this`free, this`threads, this`log, this`ideal, this`freeList, this`queue, next
      ensures Took(Step.Release(t))
    {
      hide Matches;
      ghost var p, e := State(), Step.Release(t);
      ghost var f, q := StepKeeps(p, ideal, freeList, queue, e);
      BlockOf(p, ideal, freeList, queue, t);
      next[b] := free;
      assert next[..] == p.next[b := free];
      free := b;
      log := log + [(t, threads[t].got)];
      threads := threads - {t};
      freeList, queue, ideal := f, q, IdealNext(ideal, e);
    }

    /** One round of the reset loop: the head block goes to the front of the free list. */
    method FreeFirst()
      requires Blocks(State(), freeList, queue) && next as object != data as object && head != NIL
      modifies this`head, this`tail, this`free, this`freeList, this`queue, next
      ensures State() == FreeHead(old(State())) && Blocks(State(), freeList, queue) && |queue| == |old(queue)| - 1
    {
      ghost var p := State();
      HeadIsFirst(p, freeList, queue);
      FreeHeadKeeps(p, freeList, queue);
      hide Blocks;
      var msg := head;
      head := next[msg];
      if tail == msg {
        tail := NIL;
      }
      next[msg] := free;
      assert next[..] == p.next[msg := p.free];
      free := msg;
      freeList, queue := [queue[0]] + freeList, queue[1..];
    }

    /** The loop of the reset command: every queued block is freed, blocks in mid-copy stay where they are. */
    method Reset()
      requires Valid()
      modifies this`head, this`tail, this`free, this`entry, this`ideal, this`freeList, this`queue, next
      ensures Took(Step.Reset)
      ensures head == NIL && entry == 0 && ideal == old(ideal).(list := [])
    {
      hide Matches;
      hide Blocks;
      hide FreeHead;
      ghost var p, e := State(), Step.Reset;
      ghost var f, q := StepKeeps(p, ideal, freeList, queue, e);
      ghost var k: nat := next.Length;
      Pooled(p, ideal, freeList, queue);
      while head != NIL
        invariant Blocks(State(), freeList, queue) && |queue| <= k && Drain(State(), k) == Drain(p, |p.next|)
        invariant ideal == old(ideal)
        decreases k
      {
        DrainOnce(State(), k, freeList, queue);
        FreeFirst();
        k := k - 1;
      }
      ghost var s := State();
      assert Drain(s, k) == s;
      hide Drain;
      entry := 0;
      assert State() == s.(entry := 0);
      freeList, queue, ideal := f, q, IdealNext(ideal, e);
    }

    /** rt_mq_send or rt_mq_urgent, not interrupted; refused if the message is too long or every block is taken. */
    method Send(ghost t: nat, buffer: Message, urgent: bool) returns (ok: bool)
      requires Valid() && t !in threads && buffer != []
      modifies this`head, this`tail, this`free, this`entry, this`threads, this`ideal, this`freeList, this`queue
      modifies next, data
      ensures Valid() && threads == old(threads) && log == old(log)
      ensures ok <==> |buffer| <= messageSize && Busy(old(ideal)) < ideal.capacity
      ensures ideal.list == if !ok then old(ideal.list) else if urgent then [buffer] + old(ideal.list)
        else old(ideal.list) + [buffer]
      ensures ideal.capacity == old(ideal.capacity) && (!ok ==> ideal == old(ideal))
    {
      hide Matches;
      hide Busy;
      ok := false;
      if |buffer| > messageSize {
        return;
      }
      ghost var i := ideal;
      var b := Take(t, buffer, urgent);
      if b == NIL {
        return;
      }
      ghost var j := ideal;
      if !urgent {
        ClearLink(t, b);
      }
      var k := 0;
      while k < |buffer|
        invariant k <= |buffer| && Valid() && ideal == j && log == old(log)
        invariant t in threads && threads - {t} == old(threads)
        invariant threads[t] == Sending(b, buffer, urgent, !urgent, k)
      {
        CopyIn(t, b, k, buffer[k]);
        k := k + 1;
      }
      if urgent {
        LinkFront(t, b);
      } else {
        LinkBack(t, b);
      }
      ok := true;
    }

    /** rt_mq_recv without waiting, not interrupted: the first message, as far as the caller's buffer goes. */
    method Receive(ghost t: nat, size: nat) returns (ok: bool, buffer: seq<Byte>)
      requires Valid() && t !in threads && size > 0
      modifies this`head, this`tail, this`free, this`entry, this`threads, this`log, this`ideal
      modifies this`freeList, this`queue, next
      ensures Valid() && threads == old(threads) && ok == (old(ideal.list) != [])
      ensures if ok
        then ideal.list == old(ideal.list)[1..] && Carries(buffer, old(ideal.list)[0])
          && |buffer| == Smaller(size, messageSize) && log == old(log) + [(t, buffer)]
        else ideal == old(ideal) && log == old(log)
    {
      hide Matches;
      MessagesWaiting(State(), ideal, freeList, queue);
      ok, buffer := entry != 0, [];
      if !ok {
        return;
      }
      var b := Unlink(t, size);
      ghost var j := ideal;
      var count := if size > messageSize then messageSize else size;
      while |buffer| < count
        invariant |buffer| <= count && Valid() && ideal == j && log == old(log)
        invariant t in threads && threads - {t} == old(threads)
        invariant threads[t] == Receiving(b, size, buffer)
      {
        var v := CopyOut(t, b, |buffer|);
        buffer := buffer + [v];
      }
      LastCarries(State(), ideal, freeList, queue, t);
      Release(t, b);
    }
  }
}
