/**
 * The RT-Thread message queue as threads run it: fixed blocks move between a free list and the
 * message list. A sender or receiver takes a block with interrupts off, copies byte by byte with
 * interrupts on, and links the block back with interrupts off. One step is one such stretch or one
 * copied byte, of any thread; the reference is a queue of messages without blocks or links.
 */
module PoolProtocol {
  import opened Basics
  import opened Words

  const NIL := -1

  // ----- linked lists of blocks -----

  /** Following next from first visits exactly the blocks s and then ends. */
  ghost predicate Linked(next: seq<int>, first: int, s: seq<int>)
    decreases |s|
  {
    if s == [] then first == NIL
    else first == s[0] && 0 <= first < |next| && Linked(next, next[first], s[1..])
  }

  lemma {:induction false} LinkedFrame(next: seq<int>, first: int, s: seq<int>, b: int, v: int)
    requires Linked(next, first, s) && b !in s && 0 <= b < |next|
    ensures Linked(next[b := v], first, s)
    decreases |s|
  {
    if s != [] {
      LinkedFrame(next, next[first], s[1..], b, v);
    }
  }

  lemma LinkedHead(next: seq<int>, first: int, s: seq<int>)
    requires Linked(next, first, s)
    ensures if s == [] then first == NIL
      else first == s[0] && 0 <= first < |next| && Linked(next, next[first], s[1..])
  {
  }

  /** The tail pointer after the first block has left. */
  lemma LastOfRest(s: seq<int>)
    requires s != [] && Distinct(s)
    ensures Last(s[1..]) == if Last(s) == s[0] then NIL else Last(s)
    ensures s == [s[0]] + s[1..] && Last(s) in s
  {
  }

  lemma LinkedPush(next: seq<int>, first: int, s: seq<int>, b: int)
    requires Linked(next, first, s) && b !in s && 0 <= b < |next|
    ensures Linked(next[b := first], b, [b] + s)
  {
    LinkedFrame(next, first, s, b, first);
    assert ([b] + s)[1..] == s;
  }

  /** Hooking b, whose own link is empty, behind the last block. */
  lemma {:induction false} LinkedAppend(next: seq<int>, first: int, s: seq<int>, b: int)
    requires Linked(next, first, s) && b !in s && 0 <= b < |next| && next[b] == NIL && s != [] && Distinct(s)
    ensures 0 <= Last(s) < |next| && Linked(next[Last(s) := b], first, s + [b])
    decreases |s|
  {
    var t := s[1..];
    if t == [] {
      assert s + [b] == [s[0], b];
      assert ([s[0], b])[1..] == [b];
      assert Linked(next[s[0] := b], b, [b]);
    } else {
      LinkedAppend(next, next[s[0]], t, b);
      assert Last(s) == Last(t) && s[0] != Last(s);
      assert (s + [b])[1..] == t + [b];
    }
  }

  function Last(s: seq<int>): int { if s == [] then NIL else s[|s| - 1] }

  // ----- where the blocks are -----

  /** Every block below n is in exactly one place. */
  ghost predicate Partition(free: seq<int>, queue: seq<int>, held: set<int>, n: nat) {
    && Distinct(free) && Distinct(queue)
    && (forall b :: b in free ==> b !in queue && b !in held)
    && (forall b :: b in queue ==> b !in held)
    && (forall b :: 0 <= b < n <==> b in free || b in queue || b in held)
  }

  ghost function Elements(s: seq<int>): set<int> { set b | b in s }

  lemma {:induction false} DistinctSize(s: seq<int>)
    requires Distinct(s)
    ensures |Elements(s)| == |s|
  {
    if s != [] {
      DistinctSize(s[1..]);
      assert Elements(s) == {s[0]} + Elements(s[1..]);
    }
  }

  ghost function Below(n: nat): (r: set<int>)
    ensures |r| == n && forall b :: b in r <==> 0 <= b < n
  {
    if n == 0 then {} else Below(n - 1) + {n - 1}
  }

  /** No block is lost or doubled: the three parts add up to the pool. */
  lemma BlocksConserved(free: seq<int>, queue: seq<int>, held: set<int>, n: nat)
    requires Partition(free, queue, held, n)
    ensures |free| + |queue| + |held| == n
  {
    DistinctSize(free);
    DistinctSize(queue);
    assert Below(n) == Elements(free) + Elements(queue) + held;
    assert Elements(free) !! Elements(queue) && (Elements(free) + Elements(queue)) !! held;
  }

  lemma TakeFree(free: seq<int>, queue: seq<int>, held: set<int>, n: nat)
    requires Partition(free, queue, held, n) && free != []
    ensures Partition(free[1..], queue, held + {free[0]}, n) && 0 <= free[0] < n && free[0] !in held
      && free[0] !in queue
  {
    assert free == [free[0]] + free[1..];
    assert free[0] in free;
  }

  lemma TakeQueued(free: seq<int>, queue: seq<int>, held: set<int>, n: nat)
    requires Partition(free, queue, held, n) && queue != []
    ensures Partition(free, queue[1..], held + {queue[0]}, n) && 0 <= queue[0] < n && queue[0] !in held
      && queue[0] !in free
  {
    assert queue == [queue[0]] + queue[1..];
    assert queue[0] in queue;
  }

  lemma GiveFree(free: seq<int>, queue: seq<int>, held: set<int>, n: nat, b: int)
    requires Partition(free, queue, held, n) && b in held
    ensures Partition([b] + free, queue, held - {b}, n) && 0 <= b < n && b !in free && b !in queue
  {
    assert forall x :: x in [b] + free <==> x == b || x in free;
  }

  lemma GiveQueued(free: seq<int>, queue: seq<int>, held: set<int>, n: nat, b: int)
    requires Partition(free, queue, held, n) && b in held
    ensures Partition(free, [b] + queue, held - {b}, n) && Partition(free, queue + [b], held - {b}, n)
    ensures 0 <= b < n && b !in free && b !in queue
  {
    assert forall x :: x in [b] + queue <==> x == b || x in queue;
    assert forall x :: x in queue + [b] <==> x == b || x in queue;
  }

  /** A queued block is freed on the spot. */
  lemma FreeQueued(free: seq<int>, queue: seq<int>, held: set<int>, n: nat)
    requires Partition(free, queue, held, n) && queue != []
    ensures Partition([queue[0]] + free, queue[1..], held, n) && 0 <= queue[0] < n && queue[0] !in held
    ensures queue[0] !in free && queue[0] !in queue[1..]
  {
    TakeQueued(free, queue, held, n);
    GiveFree(free, queue[1..], held + {queue[0]}, n, queue[0]);
    assert held + {queue[0]} - {queue[0]} == held;
  }

  // ----- the memory and the threads -----

  /**
   * What a thread in the middle of a call knows: its block, its message or the size it wants, and
   * how far it has copied. rt_mq_send clears the link of its block before it copies.
   */
  datatype Place =
    | Sending(b: int, message: Message, urgent: bool, cleared: bool, done: nat)
    | Receiving(b: int, size: nat, got: seq<Byte>)

  /** The message pool, the fields of the queue object, the threads in mid-call, and the buffers received so far. */
  datatype Pool = Pool(messageSize: nat, next: seq<int>, data: seq<seq<Byte>>, head: int, tail: int, free: int,
                       entry: int, threads: map<nat, Place>, log: seq<(nat, seq<Byte>)>)

  datatype Step =
    | Take(t: nat, message: Message, urgent: bool)
    | ClearLink(t: nat)
    | CopyIn(t: nat)
    | Link(t: nat)
    | Unlink(t: nat, size: nat)
    | CopyOut(t: nat)
    | Release(t: nat)
    | Reset

  function Get(s: seq<int>, b: int): int { if 0 <= b < |s| then s[b] else NIL }

  function Put(s: seq<int>, b: int, v: int): seq<int> { if 0 <= b < |s| then s[b := v] else s }

  function ReadByte(data: seq<seq<Byte>>, b: int, k: nat): Byte {
    if 0 <= b < |data| && k < |data[b]| then data[b][k] else 0
  }

  function SetByte(s: seq<Byte>, k: nat, v: Byte): seq<Byte>
    requires k < |s|
  {
    s[k := v]
  }

  function WriteByte(data: seq<seq<Byte>>, b: int, k: nat, v: Byte): seq<seq<Byte>> {
    if 0 <= b < |data| && k < |data[b]| then data[b := SetByte(data[b], k, v)] else data
  }

  predicate IsSending(p: Pool, t: nat) { t in p.threads && p.threads[t].Sending? }

  predicate IsReceiving(p: Pool, t: nat) { t in p.threads && p.threads[t].Receiving? }

  /** The order of the statements in rt_mq_send, rt_mq_urgent and rt_mq_recv. */
  predicate Enabled(p: Pool, e: Step) {
    match e
    case Take(t, m, _) => t !in p.threads && 0 < |m| <= p.messageSize
    case ClearLink(t) => IsSending(p, t) && !p.threads[t].urgent && !p.threads[t].cleared
    case CopyIn(t) => IsSending(p, t) && (p.threads[t].urgent || p.threads[t].cleared)
      && p.threads[t].done < |p.threads[t].message|
    case Link(t) => IsSending(p, t) && (p.threads[t].urgent || p.threads[t].cleared)
      && p.threads[t].done == |p.threads[t].message|
    case Unlink(t, size) => t !in p.threads && size > 0 && p.entry > 0
    case CopyOut(t) => IsReceiving(p, t) && |p.threads[t].got| < Smaller(p.threads[t].size, p.messageSize)
    case Release(t) => IsReceiving(p, t) && |p.threads[t].got| == Smaller(p.threads[t].size, p.messageSize)
    case Reset => true
  }

  /** The head block goes to the front of the free list: one round of the reset loop. */
  function FreeHead(p: Pool): Pool {
    p.(head := Get(p.next, p.head), tail := if p.tail == p.head then NIL else p.tail,
       next := Put(p.next, p.head, p.free), free := p.head)
  }

  /** The reset loop, at most k rounds of it. */
  function Drain(p: Pool, k: nat): Pool
    decreases k
  {
    if p.head == NIL || k == 0 then p else Drain(FreeHead(p), k - 1)
  }

  function Next(p: Pool, e: Step): Pool
    requires Enabled(p, e)
  {
    match e
    case Take(t, m, urgent) =>
      if p.free == NIL then p
      else p.(free := Get(p.next, p.free), threads := p.threads[t := Sending(p.free, m, urgent, false, 0)])
    case ClearLink(t) =>
      p.(next := Put(p.next, p.threads[t].b, NIL), threads := p.threads[t := p.threads[t].(cleared := true)])
    case CopyIn(t) =>
      var w := p.threads[t];
      p.(data := WriteByte(p.data, w.b, w.done, w.message[w.done]), threads := p.threads[t := w.(done := w.done + 1)])
    case Link(t) =>
      var b := p.threads[t].b;
      if p.threads[t].urgent
      then p.(next := Put(p.next, b, p.head), head := b, tail := if p.tail == NIL then b else p.tail,
              entry := p.entry + 1, threads := p.threads - {t})
      else p.(next := if p.tail == NIL then p.next else Put(p.next, p.tail, b),
              tail := b, head := if p.head == NIL then b else p.head,
              entry := p.entry + 1, threads := p.threads - {t})
    case Unlink(t, size) =>
      p.(head := Get(p.next, p.head), tail := if p.tail == p.head then NIL else p.tail,
         entry := p.entry - 1, threads := p.threads[t := Receiving(p.head, size, [])])
    case CopyOut(t) =>
      var w := p.threads[t];
      p.(threads := p.threads[t := w.(got := w.got + [ReadByte(p.data, w.b, |w.got|)])])
    case Release(t) =>
      var w := p.threads[t];
      p.(next := Put(p.next, w.b, p.free), free := w.b, threads := p.threads - {t}, log := p.log + [(t, w.got)])
    case Reset => Drain(p, |p.next|).(entry := 0)
  }

  // ----- the reference -----

  datatype Outgoing = Outgoing(message: Message, urgent: bool)

  /**
   * Messages in the order in which they will be received, the calls under way, and the history:
   * messages put in, messages taken out, and who received which.
   */
  datatype Ideal = Ideal(capacity: nat, list: seq<Message>, sending: map<nat, Outgoing>, receiving: map<nat, Message>,
                         linked: seq<Message>, taken: seq<Message>, log: seq<(nat, Message)>)

  function Busy(i: Ideal): nat { |i.list| + |i.sending| + |i.receiving| }

  function IdealNext(i: Ideal, e: Step): Ideal {
    match e
    case Take(t, m, urgent) => if Busy(i) < i.capacity then i.(sending := i.sending[t := Outgoing(m, urgent)]) else i
    case Link(t) =>
      if t !in i.sending then i
      else
        var m := i.sending[t].message;
        i.(list := if i.sending[t].urgent then [m] + i.list else i.list + [m],
           sending := i.sending - {t}, linked := i.linked + [m])
    case Unlink(t, _) =>
      if i.list == [] then i
      else i.(receiving := i.receiving[t := i.list[0]], list := i.list[1..], taken := i.taken + [i.list[0]])
    case Release(t) =>
      if t !in i.receiving then i
      else i.(receiving := i.receiving - {t}, log := i.log + [(t, i.receiving[t])])
    case Reset => i.(list := [])
    case _ => i
  }

  // ----- how the two agree -----

  ghost function Held(threads: map<nat, Place>): set<int> { set t | t in threads :: threads[t].b }

  /** No two threads are at work on one block. */
  ghost predicate Private(threads: map<nat, Place>) {
    forall t, u :: t in threads && u in threads && t != u ==> threads[t].b != threads[u].b
  }

  /** a carries m, as far as it goes: what lies behind a short message in its block is of no meaning. */
  ghost predicate Carries(a: seq<Byte>, m: Message) { forall k :: 0 <= k < |a| && k < |m| ==> a[k] == m[k] }

  /** Lists and blocks: the blocks held are exactly those of the threads in mid-call. */
  ghost predicate Blocks(p: Pool, free: seq<int>, queue: seq<int>) {
    && |p.data| == |p.next| && (forall b :: 0 <= b < |p.data| ==> |p.data[b]| == p.messageSize)
    && Partition(free, queue, Held(p.threads), |p.next|) && Private(p.threads)
    && Linked(p.next, p.free, free) && Linked(p.next, p.head, queue) && p.tail == Last(queue)
  }

  /** The calls under way: what they have copied, and that a cleared link is still empty. */
  ghost predicate Calls(p: Pool, i: Ideal) { forall t :: CallOk(p, i, t) }

  ghost predicate CallOk(p: Pool, i: Ideal, t: nat) {
    && (t in p.threads <==> t in i.sending || t in i.receiving) && !(t in i.sending && t in i.receiving)
    && (t in i.sending ==> SenderOk(p, p.threads[t], i.sending[t]))
    && (t in i.receiving ==> ReceiverOk(p, p.threads[t], i.receiving[t]))
  }

  ghost predicate SenderOk(p: Pool, w: Place, out: Outgoing) {
    && w.Sending? && w.message == out.message && w.urgent == out.urgent
    && 0 <= w.b < |p.next| && w.b < |p.data|
    && w.done <= |w.message| <= |p.data[w.b]| && p.data[w.b][..w.done] == w.message[..w.done]
    && (w.cleared ==> p.next[w.b] == NIL)
  }

  ghost predicate ReceiverOk(p: Pool, w: Place, m: Message) {
    && w.Receiving? && 0 <= w.b < |p.data|
    && |w.got| <= |p.data[w.b]| && w.got == p.data[w.b][..|w.got|] && Carries(p.data[w.b], m)
  }

  /** The message list holds the messages, in order. */
  ghost predicate Listed(p: Pool, i: Ideal, queue: seq<int>) {
    && |p.next| == i.capacity && p.entry == |queue| == |i.list|
    && (forall k :: 0 <= k < |queue| ==> 0 <= queue[k] < |p.data| && Carries(p.data[queue[k]], i.list[k]))
  }

  /** Every buffer received carries the message it should. */
  ghost predicate Delivered(log: seq<(nat, seq<Byte>)>, ideal: seq<(nat, Message)>) {
    |log| == |ideal| && forall k :: 0 <= k < |log| ==> log[k].0 == ideal[k].0 && Carries(log[k].1, ideal[k].1)
  }

  ghost predicate Matches(p: Pool, i: Ideal, free: seq<int>, queue: seq<int>) {
    Blocks(p, free, queue) && Calls(p, i) && Listed(p, i, queue) && Delivered(p.log, i.log)
  }

  // ----- facts about the threads -----

  lemma HeldAdd(threads: map<nat, Place>, t: nat, w: Place)
    requires t !in threads && w.b !in Held(threads) && Private(threads)
    ensures Held(threads[t := w]) == Held(threads) + {w.b} && Private(threads[t := w])
  {
    var more := threads[t := w];
    assert forall u :: u in threads ==> threads[u].b in Held(threads) && more[u] == threads[u];
    assert more[t].b in Held(more);
    forall b | b in Held(threads)
      ensures b in Held(more)
    {
      var u :| u in threads && threads[u].b == b;
      assert more[u].b == b;
    }
  }

  lemma HeldRemove(threads: map<nat, Place>, t: nat)
    requires t in threads && Private(threads)
    ensures Held(threads - {t}) == Held(threads) - {threads[t].b} && Private(threads - {t})
      && threads[t].b in Held(threads)
  {
    var less := threads - {t};
    assert forall u :: u in less ==> less[u] == threads[u];
    forall b | b in Held(threads) - {threads[t].b}
      ensures b in Held(less)
    {
      var u :| u in threads && threads[u].b == b;
      assert less[u].b == b;
    }
  }

  lemma HeldKept(threads: map<nat, Place>, t: nat, w: Place)
    requires t in threads && w.b == threads[t].b && Private(threads)
    ensures Held(threads[t := w]) == Held(threads) && Private(threads[t := w]) && w.b in Held(threads)
    ensures forall u :: u in threads && u != t ==> threads[u].b != w.b
  {
    var same := threads[t := w];
    assert forall u :: u in threads ==> same[u].b == threads[u].b;
    forall b | b in Held(threads)
      ensures b in Held(same)
    {
      var u :| u in threads && threads[u].b == b;
      assert same[u].b == b;
    }
  }

  /** As many blocks are held as threads are in mid-call. */
  lemma {:induction false} HeldSize(threads: map<nat, Place>)
    requires Private(threads)
    ensures |Held(threads)| == |threads|
    decreases |threads|
  {
    if threads == map[] {
      assert Held(threads) == {};
    } else {
      var t :| t in threads;
      HeldRemove(threads, t);
      KeysLess(threads, t);
      HeldSize(threads - {t});
      assert Held(threads) == Held(threads - {t}) + {threads[t].b};
    }
  }

  lemma KeysLess<T>(m: map<nat, T>, t: nat)
    requires t in m
    ensures |m - {t}| == |m| - 1
  {
    assert (m - {t}).Keys == m.Keys - {t};
    assert |m| == |m.Keys| && |m - {t}| == |(m - {t}).Keys|;
  }

  /** A thread in mid-call either sends or receives. */
  lemma CallsAre(p: Pool, i: Ideal)
    requires Calls(p, i)
    ensures p.threads.Keys == i.sending.Keys + i.receiving.Keys && i.sending.Keys !! i.receiving.Keys
  {
    forall t: nat
      ensures t in p.threads.Keys <==> t in i.sending.Keys + i.receiving.Keys
      ensures !(t in i.sending.Keys && t in i.receiving.Keys)
    {
      assert CallOk(p, i, t);
    }
  }

  /** There is a free block exactly if the reference has room. */
  lemma RoomIsFree(p: Pool, i: Ideal, free: seq<int>, queue: seq<int>)
    requires Matches(p, i, free, queue)
    ensures p.free == NIL <==> free == []
    ensures Busy(i) < i.capacity <==> free != []
  {
    LinkedHead(p.next, p.free, free);
    BlocksConserved(free, queue, Held(p.threads), |p.next|);
    HeldSize(p.threads);
    hide Partition;
    hide Linked;
    CallsAre(p, i);
    hide Calls;
    assert |p.threads| == |p.threads.Keys| && |i.sending| == |i.sending.Keys| && |i.receiving| == |i.receiving.Keys|;
    assert |i.sending.Keys + i.receiving.Keys| == |i.sending.Keys| + |i.receiving.Keys|;
  }

  // ----- every step keeps the agreement -----

  /** Block b is as it was. */
  ghost predicate SameBlock(p: Pool, q: Pool, b: int) {
    && |q.next| == |p.next| && |q.data| == |p.data|
    && (0 <= b < |p.next| ==> q.next[b] == p.next[b]) && (0 <= b < |p.data| ==> q.data[b] == p.data[b])
  }

  ghost predicate SameBut<T>(m: map<nat, T>, n: map<nat, T>, t: nat) {
    forall u :: u != t ==> (u in m <==> u in n) && (u in m ==> m[u] == n[u])
  }

  lemma Same<T>(m: map<nat, T>, t: nat)
    ensures SameBut(m, m, t) && SameBut(m - {t}, m, t) && forall v: T {:trigger m[t := v]} :: SameBut(m[t := v], m, t)
  {
  }

  /** A step of thread t leaves the calls of the other threads alone. */
  lemma OthersStay(p: Pool, q: Pool, i: Ideal, j: Ideal, t: nat)
    requires Calls(p, i) && SameBut(q.threads, p.threads, t) && SameBut(j.sending, i.sending, t)
      && SameBut(j.receiving, i.receiving, t)
    requires forall u :: u in p.threads && u != t ==> SameBlock(p, q, p.threads[u].b)
    requires t in q.threads <==> t in j.sending || t in j.receiving
    requires t in j.sending ==> t !in j.receiving && SenderOk(q, q.threads[t], j.sending[t])
    requires t in j.receiving ==> ReceiverOk(q, q.threads[t], j.receiving[t])
    ensures Calls(q, j)
  {
    hide SenderOk;
    hide ReceiverOk;
    forall u
      ensures CallOk(q, j, u)
    {
      if u != t {
        assert CallOk(p, i, u);
        OtherStays(p, q, i, j, u);
      }
    }
  }

  lemma OtherStays(p: Pool, q: Pool, i: Ideal, j: Ideal, u: nat)
    requires CallOk(p, i, u) && (u in q.threads <==> u in p.threads)
      && (u in p.threads ==> q.threads[u] == p.threads[u])
    requires (u in j.sending <==> u in i.sending) && (u in i.sending ==> j.sending[u] == i.sending[u])
    requires (u in j.receiving <==> u in i.receiving) && (u in i.receiving ==> j.receiving[u] == i.receiving[u])
    requires u in p.threads ==> SameBlock(p, q, p.threads[u].b)
    ensures CallOk(q, j, u)
  {
    hide SenderOk;
    hide ReceiverOk;
    hide SameBlock;
    if u in i.sending {
      SenderStays(p, q, p.threads[u], i.sending[u]);
    }
    if u in i.receiving {
      ReceiverStays(p, q, p.threads[u], i.receiving[u]);
    }
  }

  lemma SenderStays(p: Pool, q: Pool, w: Place, out: Outgoing)
    requires SenderOk(p, w, out) && SameBlock(p, q, w.b)
    ensures SenderOk(q, w, out)
  {
  }

  lemma ReceiverStays(p: Pool, q: Pool, w: Place, m: Message)
    requires ReceiverOk(p, w, m) && SameBlock(p, q, w.b)
    ensures ReceiverOk(q, w, m)
  {
  }

  /** What is known of the thread that takes the next step. */
  lemma SenderHere(p: Pool, i: Ideal, t: nat)
    requires Calls(p, i) && IsSending(p, t)
    ensures t in i.sending && t !in i.receiving && SenderOk(p, p.threads[t], i.sending[t])
  {
    assert CallOk(p, i, t);
  }

  lemma ReceiverHere(p: Pool, i: Ideal, t: nat)
    requires Calls(p, i) && IsReceiving(p, t)
    ensures t in i.receiving && t !in i.sending && ReceiverOk(p, p.threads[t], i.receiving[t])
  {
    assert CallOk(p, i, t);
  }

  lemma NoneHere(p: Pool, i: Ideal, t: nat)
    requires Calls(p, i) && t !in p.threads
    ensures t !in i.receiving && t !in i.sending
  {
    assert CallOk(p, i, t);
  }

  /** The block of a thread is on neither list, and no other thread has it. */
  lemma HeldElsewhere(p: Pool, free: seq<int>, queue: seq<int>, t: nat)
    requires Blocks(p, free, queue) && t in p.threads
    ensures var b := p.threads[t].b;
      b in Held(p.threads) && 0 <= b < |p.next| == |p.data| && |p.data[b]| == p.messageSize && b !in free && b !in queue
    ensures forall u :: u in p.threads && u != t ==> p.threads[u].b != p.threads[t].b
  {
  }

  /** A block on a list is no thread's. */
  lemma NotHeld(p: Pool, free: seq<int>, queue: seq<int>, b: int)
    requires Blocks(p, free, queue) && (b in free || b in queue)
    ensures 0 <= b < |p.next| == |p.data| && |p.data[b]| == p.messageSize && b !in Held(p.threads)
    ensures forall u :: u in p.threads ==> p.threads[u].b != b
  {
  }

  /** The listed messages stay if their blocks do. */
  lemma ListStays(p: Pool, q: Pool, i: Ideal, j: Ideal, queue: seq<int>)
    requires Listed(p, i, queue) && j.list == i.list && j.capacity == i.capacity
    requires q.entry == p.entry && |q.next| == |p.next| && |q.data| == |p.data|
    requires forall b :: b in queue && 0 <= b < |p.data| ==> q.data[b] == p.data[b]
    ensures Listed(q, j, queue)
  {
  }

  // ----- taking a block -----

  lemma TakeBlocks(p: Pool, q: Pool, free: seq<int>, queue: seq<int>, t: nat, m: Message, urgent: bool)
    requires Blocks(p, free, queue) && free != [] && t !in p.threads
    requires q == p.(free := Get(p.next, p.free), threads := p.threads[t := Sending(p.free, m, urgent, false, 0)])
    ensures Blocks(q, free[1..], queue) && p.free in free
  {
    LinkedHead(p.next, p.free, free);
    TakeFree(free, queue, Held(p.threads), |p.next|);
    HeldAdd(p.threads, t, q.threads[t]);
    hide Partition;
    hide Held;
    hide Private;
    hide Linked;
  }

  lemma TakeKeeps(p: Pool, i: Ideal, free: seq<int>, queue: seq<int>, t: nat, m: Message, urgent: bool)
    returns (free2: seq<int>)
    requires Matches(p, i, free, queue) && Enabled(p, Take(t, m, urgent))
    ensures Matches(Next(p, Take(t, m, urgent)), IdealNext(i, Take(t, m, urgent)), free2, queue)
  {
    RoomIsFree(p, i, free, queue);
    if free == [] {
      free2 := free;
    } else {
      free2 := free[1..];
      hide Busy;
      FreeIsBlock(p, free, queue);
      TookOne(p, i, free, queue, t, m, urgent);
    }
  }

  lemma FreeIsBlock(p: Pool, free: seq<int>, queue: seq<int>)
    requires Blocks(p, free, queue) && free != []
    ensures p.free in free && p.free != NIL
  {
    LinkedHead(p.next, p.free, free);
  }

  lemma TookOne(p: Pool, i: Ideal, free: seq<int>, queue: seq<int>, t: nat, m: Message, urgent: bool)
    requires Matches(p, i, free, queue) && Enabled(p, Take(t, m, urgent)) && free != []
    ensures Matches(p.(free := Get(p.next, p.free), threads := p.threads[t := Sending(p.free, m, urgent, false, 0)]),
                    i.(sending := i.sending[t := Outgoing(m, urgent)]), free[1..], queue)
  {
    var q := p.(free := Get(p.next, p.free), threads := p.threads[t := Sending(p.free, m, urgent, false, 0)]);
    var j := i.(sending := i.sending[t := Outgoing(m, urgent)]);
    TakeBlocks(p, q, free, queue, t, m, urgent);
    NotHeld(p, free, queue, p.free);
    NoneHere(p, i, t);
    hide Blocks;
    hide Calls;
    hide Delivered;
    Same(p.threads, t);
    Same(i.sending, t);
    Same(i.receiving, t);
    hide SameBut;
    OthersStay(p, q, i, j, t);
    ListStays(p, q, i, j, queue);
    hide Listed;
  }

  // ----- copying in -----

  lemma ClearBlocks(p: Pool, q: Pool, free: seq<int>, queue: seq<int>, t: nat)
    requires Blocks(p, free, queue) && IsSending(p, t)
    requires q == p.(next := Put(p.next, p.threads[t].b, NIL),
      threads := p.threads[t := p.threads[t].(cleared := true)])
    ensures Blocks(q, free, queue)
  {
    var b := p.threads[t].b;
    HeldElsewhere(p, free, queue, t);
    HeldKept(p.threads, t, q.threads[t]);
    LinkedFrame(p.next, p.free, free, b, NIL);
    LinkedFrame(p.next, p.head, queue, b, NIL);
    hide Partition;
    hide Held;
    hide Private;
    hide Linked;
  }

  lemma ClearKeeps(p: Pool, i: Ideal, free: seq<int>, queue: seq<int>, t: nat)
    requires Matches(p, i, free, queue) && Enabled(p, ClearLink(t))
    ensures Matches(Next(p, ClearLink(t)), i, free, queue)
  {
    var q := Next(p, ClearLink(t));
    ClearBlocks(p, q, free, queue, t);
    HeldElsewhere(p, free, queue, t);
    SenderHere(p, i, t);
    hide Blocks;
    hide Calls;
    Same(p.threads, t);
    Same(i.sending, t);
    Same(i.receiving, t);
    hide SameBut;
    OthersStay(p, q, i, i, t);
    ListStays(p, q, i, i, queue);
    hide Listed;
  }

  lemma PrefixGrows(s: seq<Byte>, k: nat, m: seq<Byte>)
    requires k < |m| <= |s| && s[..k] == m[..k]
    ensures SetByte(s, k, m[k])[..k + 1] == m[..k + 1]
  {
    assert forall j :: 0 <= j < k ==> s[j] == s[..k][j] == m[j];
  }

  lemma SenderAdvances(p: Pool, q: Pool, w: Place, out: Outgoing)
    requires SenderOk(p, w, out) && w.done < |w.message| && q.next == p.next
    requires q.data == WriteByte(p.data, w.b, w.done, w.message[w.done])
    ensures SenderOk(q, w.(done := w.done + 1), out)
  {
    PrefixGrows(p.data[w.b], w.done, w.message);
  }

  lemma CopyInBlocks(p: Pool, q: Pool, free: seq<int>, queue: seq<int>, t: nat)
    requires Blocks(p, free, queue) && Enabled(p, CopyIn(t)) && q == Next(p, CopyIn(t))
    ensures Blocks(q, free, queue)
  {
    HeldKept(p.threads, t, q.threads[t]);
    hide Partition;
    hide Held;
    hide Private;
    hide Linked;
  }

  lemma CopyInKeeps(p: Pool, i: Ideal, free: seq<int>, queue: seq<int>, t: nat)
    requires Matches(p, i, free, queue) && Enabled(p, CopyIn(t))
    ensures Matches(Next(p, CopyIn(t)), i, free, queue)
  {
    var q, w := Next(p, CopyIn(t)), p.threads[t];
    CopyInBlocks(p, q, free, queue, t);
    HeldElsewhere(p, free, queue, t);
    SenderHere(p, i, t);
    SenderAdvances(p, q, w, i.sending[t]);
    hide Blocks;
    hide Calls;
    hide SenderOk;
    Same(p.threads, t);
    Same(i.sending, t);
    Same(i.receiving, t);
    hide SameBut;
    OthersStay(p, q, i, i, t);
    ListStays(p, q, i, i, queue);
    hide Listed;
  }

  // ----- linking -----

  /** A message is linked only when all of it is in its block. */
  lemma WholeMessage(p: Pool, w: Place, out: Outgoing)
    requires SenderOk(p, w, out) && w.done == |w.message|
    ensures Carries(p.data[w.b], out.message)
  {
    assert forall k :: 0 <= k < |w.message| ==> p.data[w.b][k] == p.data[w.b][..w.done][k] == w.message[k];
  }

  lemma FrontBlocks(p: Pool, q: Pool, free: seq<int>, queue: seq<int>, t: nat)
    requires Blocks(p, free, queue) && Enabled(p, Link(t)) && p.threads[t].urgent && q == Next(p, Link(t))
    ensures Blocks(q, free, [p.threads[t].b] + queue)
  {
    var b := p.threads[t].b;
    HeldElsewhere(p, free, queue, t);
    HeldRemove(p.threads, t);
    GiveQueued(free, queue, Held(p.threads), |p.next|, b);
    LinkedPush(p.next, p.head, queue, b);
    LinkedFrame(p.next, p.free, free, b, p.head);
    assert queue != [] ==> Last(queue) in queue;
    hide Held;
    hide Private;
    hide Linked;
    assert p.tail == NIL <==> queue == [];
    hide Partition;
  }

  lemma ListGrowsFront(p: Pool, q: Pool, i: Ideal, j: Ideal, queue: seq<int>, b: int, m: Message)
    requires Listed(p, i, queue) && j.list == [m] + i.list && j.capacity == i.capacity
    requires q.entry == p.entry + 1 && |q.next| == |p.next| && q.data == p.data && 0 <= b < |p.data|
      && Carries(p.data[b], m)
    ensures Listed(q, j, [b] + queue)
  {
    hide Carries;
  }

  lemma LinkFrontKeeps(p: Pool, i: Ideal, free: seq<int>, queue: seq<int>, t: nat)
    requires Matches(p, i, free, queue) && Enabled(p, Link(t)) && p.threads[t].urgent
    ensures Matches(Next(p, Link(t)), IdealNext(i, Link(t)), free, [p.threads[t].b] + queue)
  {
    var q, j, b := Next(p, Link(t)), IdealNext(i, Link(t)), p.threads[t].b;
    FrontBlocks(p, q, free, queue, t);
    HeldElsewhere(p, free, queue, t);
    SenderHere(p, i, t);
    WholeMessage(p, p.threads[t], i.sending[t]);
    hide Blocks;
    hide Calls;
    hide Listed;
    hide Carries;
    ListGrowsFront(p, q, i, j, queue, b, i.sending[t].message);
    Same(p.threads, t);
    Same(i.sending, t);
    Same(i.receiving, t);
    hide SameBut;
    OthersStay(p, q, i, j, t);
  }

  lemma BackBlocks(p: Pool, q: Pool, free: seq<int>, queue: seq<int>, t: nat)
    requires Blocks(p, free, queue) && Enabled(p, Link(t)) && !p.threads[t].urgent && q == Next(p, Link(t))
    requires Get(p.next, p.threads[t].b) == NIL
    ensures Blocks(q, free, queue + [p.threads[t].b])
  {
    var b := p.threads[t].b;
    HeldElsewhere(p, free, queue, t);
    HeldRemove(p.threads, t);
    GiveQueued(free, queue, Held(p.threads), |p.next|, b);
    LinkedHead(p.next, p.head, queue);
    if queue == [] {
      assert ([b])[1..] == [] && queue + [b] == [b];
      assert Linked(p.next, b, [b]);
    } else {
      NotHeld(p, free, queue, Last(queue));
      LinkedAppend(p.next, p.head, queue, b);
      LinkedFrame(p.next, p.free, free, Last(queue), b);
    }
    hide Partition;
    hide Held;
    hide Private;
    hide Linked;
  }

  lemma ListGrowsBack(p: Pool, q: Pool, i: Ideal, j: Ideal, queue: seq<int>, b: int, m: Message)
    requires Listed(p, i, queue) && j.list == i.list + [m] && j.capacity == i.capacity
    requires q.entry == p.entry + 1 && |q.next| == |p.next| && q.data == p.data && 0 <= b < |p.data|
      && Carries(p.data[b], m)
    ensures Listed(q, j, queue + [b])
  {
    hide Carries;
  }

  lemma TailNotHeld(p: Pool, free: seq<int>, queue: seq<int>)
    requires Blocks(p, free, queue)
    ensures p.tail != NIL ==> 0 <= p.tail < |p.next| && forall u :: u in p.threads ==> p.threads[u].b != p.tail
  {
    if queue != [] {
      NotHeld(p, free, queue, Last(queue));
    }
  }

  lemma LinkBackKeeps(p: Pool, i: Ideal, free: seq<int>, queue: seq<int>, t: nat)
    requires Matches(p, i, free, queue) && Enabled(p, Link(t)) && !p.threads[t].urgent
    ensures Matches(Next(p, Link(t)), IdealNext(i, Link(t)), free, queue + [p.threads[t].b])
  {
    var q, j, b := Next(p, Link(t)), IdealNext(i, Link(t)), p.threads[t].b;
    SenderHere(p, i, t);
    BackBlocks(p, q, free, queue, t);
    TailNotHeld(p, free, queue);
    WholeMessage(p, p.threads[t], i.sending[t]);
    hide Blocks;
    hide Calls;
    hide Listed;
    hide Carries;
    ListGrowsBack(p, q, i, j, queue, b, i.sending[t].message);
    Same(p.threads, t);
    Same(i.sending, t);
    Same(i.receiving, t);
    hide SameBut;
    OthersStay(p, q, i, j, t);
  }

  // ----- receiving -----

  lemma UnlinkBlocks(p: Pool, q: Pool, free: seq<int>, queue: seq<int>, t: nat, size: nat)
    requires Blocks(p, free, queue) && Enabled(p, Unlink(t, size)) && queue != [] && q == Next(p, Unlink(t, size))
    ensures Blocks(q, free, queue[1..]) && p.head == queue[0]
  {
    LinkedHead(p.next, p.head, queue);
    TakeQueued(free, queue, Held(p.threads), |p.next|);
    HeldAdd(p.threads, t, q.threads[t]);
    LastOfRest(queue);
    hide Partition;
    hide Held;
    hide Private;
    hide Linked;
  }

  lemma ListShrinks(p: Pool, q: Pool, i: Ideal, j: Ideal, queue: seq<int>)
    requires Listed(p, i, queue) && queue != [] && j.list == i.list[1..] && j.capacity == i.capacity
    requires q.entry == p.entry - 1 && |q.next| == |p.next| && q.data == p.data
    ensures Listed(q, j, queue[1..]) && 0 <= queue[0] < |p.data| && Carries(p.data[queue[0]], i.list[0])
  {
    hide Carries;
  }

  lemma UnlinkKeeps(p: Pool, i: Ideal, free: seq<int>, queue: seq<int>, t: nat, size: nat)
    requires Matches(p, i, free, queue) && Enabled(p, Unlink(t, size))
    ensures queue != [] && Matches(Next(p, Unlink(t, size)), IdealNext(i, Unlink(t, size)), free, queue[1..])
  {
    var q, j := Next(p, Unlink(t, size)), IdealNext(i, Unlink(t, size));
    UnlinkBlocks(p, q, free, queue, t, size);
    NoneHere(p, i, t);
    ListShrinks(p, q, i, j, queue);
    hide Blocks;
    hide Calls;
    hide Listed;
    hide Carries;
    Same(p.threads, t);
    Same(i.sending, t);
    Same(i.receiving, t);
    hide SameBut;
    OthersStay(p, q, i, j, t);
  }

  lemma CopyOutBlocks(p: Pool, q: Pool, free: seq<int>, queue: seq<int>, t: nat)
    requires Blocks(p, free, queue) && Enabled(p, CopyOut(t)) && q == Next(p, CopyOut(t))
    ensures Blocks(q, free, queue)
  {
    HeldKept(p.threads, t, q.threads[t]);
    hide Partition;
    hide Held;
    hide Private;
    hide Linked;
  }

  lemma CopyOutKeeps(p: Pool, i: Ideal, free: seq<int>, queue: seq<int>, t: nat)
    requires Matches(p, i, free, queue) && Enabled(p, CopyOut(t))
    ensures Matches(Next(p, CopyOut(t)), i, free, queue)
  {
    var q, w := Next(p, CopyOut(t)), p.threads[t];
    CopyOutBlocks(p, q, free, queue, t);
    HeldElsewhere(p, free, queue, t);
    ReceiverHere(p, i, t);
    assert p.data[w.b][..|w.got| + 1] == p.data[w.b][..|w.got|] + [p.data[w.b][|w.got|]];
    hide Blocks;
    hide Calls;
    hide Carries;
    Same(p.threads, t);
    Same(i.sending, t);
    Same(i.receiving, t);
    hide SameBut;
    OthersStay(p, q, i, i, t);
    ListStays(p, q, i, i, queue);
    hide Listed;
  }

  lemma ReleaseBlocks(p: Pool, q: Pool, free: seq<int>, queue: seq<int>, t: nat)
    requires Blocks(p, free, queue) && Enabled(p, Release(t)) && q == Next(p, Release(t))
    ensures Blocks(q, [p.threads[t].b] + free, queue)
  {
    var b := p.threads[t].b;
    HeldElsewhere(p, free, queue, t);
    HeldRemove(p.threads, t);
    GiveFree(free, queue, Held(p.threads), |p.next|, b);
    LinkedPush(p.next, p.free, free, b);
    LinkedFrame(p.next, p.head, queue, b, p.free);
    hide Partition;
    hide Held;
    hide Private;
    hide Linked;
  }

  lemma LogGrows(p: Pool, w: Place, m: Message, t: nat, log: seq<(nat, Message)>)
    requires ReceiverOk(p, w, m) && Delivered(p.log, log)
    ensures Delivered(p.log + [(t, w.got)], log + [(t, m)])
  {
    assert Carries(w.got, m);
    hide Carries;
  }

  lemma ReleaseKeeps(p: Pool, i: Ideal, free: seq<int>, queue: seq<int>, t: nat)
    requires Matches(p, i, free, queue) && Enabled(p, Release(t))
    ensures Matches(Next(p, Release(t)), IdealNext(i, Release(t)), [p.threads[t].b] + free, queue)
  {
    var q, j, w := Next(p, Release(t)), IdealNext(i, Release(t)), p.threads[t];
    ReleaseBlocks(p, q, free, queue, t);
    HeldElsewhere(p, free, queue, t);
    ReceiverHere(p, i, t);
    LogGrows(p, w, i.receiving[t], t, i.log);
    hide Blocks;
    hide Calls;
    hide Delivered;
    hide ReceiverOk;
    Same(p.threads, t);
    Same(i.sending, t);
    Same(i.receiving, t);
    hide SameBut;
    OthersStay(p, q, i, j, t);
    ListStays(p, q, i, j, queue);
    hide Listed;
  }

  /** One round of the reset loop. */
  lemma FreeHeadKeeps(p: Pool, free: seq<int>, queue: seq<int>)
    requires Blocks(p, free, queue) && queue != []
    ensures p.head == queue[0] && Blocks(FreeHead(p), [queue[0]] + free, queue[1..])
    ensures forall t :: t in p.threads ==> SameBlock(p, FreeHead(p), p.threads[t].b)
  {
    var q := FreeHead(p);
    LinkedHead(p.next, p.head, queue);
    FreeQueued(free, queue, Held(p.threads), |p.next|);
    LinkedPush(p.next, p.free, free, queue[0]);
    LinkedFrame(p.next, p.next[p.head], queue[1..], queue[0], p.free);
    LastOfRest(queue);
    NotHeld(p, free, queue, queue[0]);
    hide Partition;
    hide Held;
    hide Private;
    hide Linked;
  }

  lemma {:induction false} DrainKeeps(p: Pool, k: nat, free: seq<int>, queue: seq<int>) returns (free2: seq<int>)
    requires Blocks(p, free, queue) && |queue| <= k
    ensures Blocks(Drain(p, k), free2, []) && Drain(p, k).head == NIL
    ensures var q := Drain(p, k);
      q.threads == p.threads && q.log == p.log && q.messageSize == p.messageSize && |q.next| == |p.next|
    ensures forall t :: t in p.threads ==> SameBlock(p, Drain(p, k), p.threads[t].b)
    decreases k
  {
    LinkedHead(p.next, p.head, queue);
    if queue == [] {
      free2 := free;
    } else {
      FreeHeadKeeps(p, free, queue);
      hide Blocks;
      free2 := DrainKeeps(FreeHead(p), k - 1, [queue[0]] + free, queue[1..]);
    }
  }

  lemma ResetKeeps(p: Pool, i: Ideal, free: seq<int>, queue: seq<int>) returns (free2: seq<int>)
    requires Matches(p, i, free, queue)
    ensures Matches(Next(p, Reset), IdealNext(i, Reset), free2, [])
  {
    BlocksConserved(free, queue, Held(p.threads), |p.next|);
    hide Partition;
    hide Held;
    hide Private;
    hide Linked;
    free2 := DrainKeeps(p, |p.next|, free, queue);
    hide Drain;
    var q, j := Next(p, Reset), IdealNext(i, Reset);
    assert Blocks(q, free2, []);
    hide Blocks;
    forall t
      ensures CallOk(q, j, t)
    {
      assert CallOk(p, i, t);
      OtherStays(p, q, i, j, t);
    }
  }

  /** Every step of every thread keeps memory and reference in agreement. */
  lemma StepKeeps(p: Pool, i: Ideal, free: seq<int>, queue: seq<int>, e: Step)
    returns (free2: seq<int>, queue2: seq<int>)
    requires Matches(p, i, free, queue) && Enabled(p, e)
    ensures Matches(Next(p, e), IdealNext(i, e), free2, queue2)
  {
    hide Matches;
    hide Next;
    hide IdealNext;
    free2, queue2 := free, queue;
    match e
    case Take(t, m, urgent) => free2 := TakeKeeps(p, i, free, queue, t, m, urgent);
    case ClearLink(t) => ClearKeeps(p, i, free, queue, t); Stutters(i, e);
    case CopyIn(t) => CopyInKeeps(p, i, free, queue, t); Stutters(i, e);
    case Link(t) =>
      if p.threads[t].urgent {
        LinkFrontKeeps(p, i, free, queue, t);
        queue2 := [p.threads[t].b] + queue;
      } else {
        LinkBackKeeps(p, i, free, queue, t);
        queue2 := queue + [p.threads[t].b];
      }
    case Unlink(t, size) =>
      UnlinkKeeps(p, i, free, queue, t, size);
      queue2 := queue[1..];
    case CopyOut(t) => CopyOutKeeps(p, i, free, queue, t); Stutters(i, e);
    case Release(t) =>
      ReleaseKeeps(p, i, free, queue, t);
      free2 := [p.threads[t].b] + free;
    case Reset =>
      free2 := ResetKeeps(p, i, free, queue);
      queue2 := [];
  }

  /** Clearing a link and copying are invisible to the reference. */
  lemma Stutters(i: Ideal, e: Step)
    requires e.ClearLink? || e.CopyIn? || e.CopyOut?
    ensures IdealNext(i, e) == i
  {
  }

  // ----- whole runs -----

  /** rt_mq_init has put every block on the free list. */
  ghost predicate Created(p: Pool) {
    && p.head == p.tail == NIL && p.entry == 0 && p.threads == map[] && p.log == []
    && |p.data| == |p.next| && (forall b :: 0 <= b < |p.data| ==> |p.data[b]| == p.messageSize)
    && exists free :: Linked(p.next, p.free, free) && Partition(free, [], {}, |p.next|)
  }

  function IdealCreated(n: nat): Ideal { Ideal(n, [], map[], map[], [], [], []) }

  function IdealAfter(n: nat, es: seq<Step>): Ideal {
    if es == [] then IdealCreated(n) else IdealNext(IdealAfter(n, es[..|es| - 1]), es[|es| - 1])
  }

  ghost predicate IsRun(ps: seq<Pool>, es: seq<Step>) {
    && |ps| == |es| + 1 && Created(ps[0])
    && forall k :: 0 <= k < |es| ==> Enabled(ps[k], es[k]) && ps[k + 1] == Next(ps[k], es[k])
  }

  /**
   * In every interleaving of senders, receivers and resets, at every point: free list, message list
   * and threads in mid-call share out the blocks, no two threads one block; both lists are acyclic,
   * entry and tail are right; and the messages listed, under way and received are those of the
   * reference, where messages come out in the order they were linked, urgent ones in front.
   */
  lemma {:induction false} RunMatches(ps: seq<Pool>, es: seq<Step>, k: nat) returns (free: seq<int>, queue: seq<int>)
    requires IsRun(ps, es) && k < |ps|
    ensures Matches(ps[k], IdealAfter(|ps[0].next|, es[..k]), free, queue)
  {
    if k == 0 {
      free :| Linked(ps[0].next, ps[0].free, free) && Partition(free, [], {}, |ps[0].next|);
      queue := [];
      assert Held(map[]) == {};
    } else {
      free, queue := RunMatches(ps, es, k - 1);
      hide Matches;
      hide Enabled;
      hide Next;
      hide IdealNext;
      assert es[..k][..k - 1] == es[..k - 1];
      free, queue := StepKeeps(ps[k - 1], IdealAfter(|ps[0].next|, es[..k - 1]), free, queue, es[k - 1]);
    }
  }

  /** A plain sender's link, once cleared, is empty until it links its block. */
  lemma LinkStaysEmpty(ps: seq<Pool>, es: seq<Step>, k: nat, t: nat)
    requires IsRun(ps, es) && k < |ps| && IsSending(ps[k], t) && ps[k].threads[t].cleared
    ensures 0 <= ps[k].threads[t].b < |ps[k].next| && ps[k].next[ps[k].threads[t].b] == NIL
  {
    var free, queue := RunMatches(ps, es, k);
    SenderHere(ps[k], IdealAfter(|ps[0].next|, es[..k]), t);
  }

  ghost predicate InOrder(i: Ideal)
  {
    i.taken + i.list == i.linked && forall t :: t in i.sending ==> !i.sending[t].urgent
  }

  lemma OrderStep(i: Ideal, e: Step)
    requires InOrder(i) && e != Reset && !(e.Take? && e.urgent)
    ensures InOrder(IdealNext(i, e))
  {
    hide Busy;
    if e.Unlink? && i.list != [] {
      assert i.list == [i.list[0]] + i.list[1..];
      assert i.taken + [i.list[0]] + i.list[1..] == i.taken + i.list;
    }
    if e.Link? && e.t in i.sending {
      assert i.taken + (i.list + [i.sending[e.t].message]) == i.taken + i.list + [i.sending[e.t].message];
    }
  }

  /** Of the messages that were put in, the ones taken out came first, in the same order. */
  lemma {:induction false} InLinkOrder(n: nat, es: seq<Step>)
    requires forall e :: e in es ==> e != Reset && !(e.Take? && e.urgent)
    ensures InOrder(IdealAfter(n, es))
  {
    if es != [] {
      var before, e := es[..|es| - 1], es[|es| - 1];
      assert e in es && forall x :: x in before ==> x in es;
      InLinkOrder(n, before);
      OrderStep(IdealAfter(n, before), e);
    }
  }

  function Messages(log: seq<(nat, Message)>): (r: seq<Message>)
    ensures |r| == |log| && forall k :: 0 <= k < |r| ==> r[k] == log[k].1
  {
    seq(|log|, k requires 0 <= k < |log| => log[k].1)
  }

  /** With r as the only receiver, it has received what was taken out, but for the message it is at. */
  ghost predicate OneReceiver(i: Ideal, r: nat) {
    && (forall t :: t in i.receiving ==> t == r)
    && Messages(i.log) + (if r in i.receiving then [i.receiving[r]] else []) == i.taken
  }

  lemma ReceiverStep(i: Ideal, e: Step, r: nat)
    requires OneReceiver(i, r) && (e.Unlink? ==> e.t == r && r !in i.receiving)
    ensures OneReceiver(IdealNext(i, e), r)
  {
    hide Busy;
    var j := IdealNext(i, e);
    if e.Release? && e.t in i.receiving {
      assert Messages(j.log) == Messages(i.log) + [i.receiving[r]];
    }
  }

  lemma {:induction false} ReceiverRun(ps: seq<Pool>, es: seq<Step>, k: nat, r: nat)
    requires IsRun(ps, es) && k < |ps| && forall e :: e in es && e.Unlink? ==> e.t == r
    ensures OneReceiver(IdealAfter(|ps[0].next|, es[..k]), r)
  {
    if k > 0 {
      ReceiverRun(ps, es, k - 1, r);
      var free, queue := RunMatches(ps, es, k - 1);
      var i, e := IdealAfter(|ps[0].next|, es[..k - 1]), es[k - 1];
      assert es[..k][..k - 1] == es[..k - 1] && e in es;
      if e.Unlink? {
        NoneHere(ps[k - 1], i, r);
      }
      hide Matches;
      ReceiverStep(i, e, r);
    }
  }

  /**
   * First in, first out, byte for byte: without urgent messages and resets, and with a single
   * receiver, the j-th buffer received carries the j-th message linked, whatever the senders do meanwhile.
   */
  lemma FirstInFirstOut(ps: seq<Pool>, es: seq<Step>, k: nat, r: nat)
    requires IsRun(ps, es) && k < |ps|
      && forall e :: e in es ==> e != Reset && !(e.Take? && e.urgent) && (e.Unlink? ==> e.t == r)
    ensures var i := IdealAfter(|ps[0].next|, es[..k]);
      |ps[k].log| <= |i.linked| && forall j :: 0 <= j < |ps[k].log| ==> Carries(ps[k].log[j].1, i.linked[j])
  {
    var free, queue := RunMatches(ps, es, k);
    ReceiverRun(ps, es, k, r);
    assert forall e :: e in es[..k] ==> e in es;
    InLinkOrder(|ps[0].next|, es[..k]);
    hide Carries;
    hide IdealAfter;
    var i := IdealAfter(|ps[0].next|, es[..k]);
    assert Messages(i.log) <= i.taken <= i.linked;
    assert forall j :: 0 <= j < |i.log| ==> Messages(i.log)[j] == i.linked[j];
  }
}
