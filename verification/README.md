# Kernel and library proofs

A Dafny model of the two real-time kernels and the small libraries of this repository, with proofs
about all inputs, all runs and all interleavings at the granularity of critical sections, and of
single copied bytes where data are copied outside of them.

Run `dafny verify dfyconfig.toml` here.

## What is modelled

- FreeRTOS 10.2.1. `KernelList` is the intrusive ring, and the ready lists with the choice of the
  next task; `ValueLists` is the ring as sorted entries. `Delays` is the tick with its two delayed lists, `Timeouts` the
  wait that survives tick wraps, `Timers` the software timer daemon. `QueueProtocol` and `Queues`
  are the queue: the wake-up protocol as a state machine, and the class whose critical sections
  refine it and a bounded sequence. `Inheritance` is mutex take and give with priority inheritance.
  `EventGroups` is event groups. `StreamBuffers` is stream and message buffers, `MessageFrames` the
  protocol of one writer and one reader on a message buffer, `MessageRing` its refinement to bytes in a ring.
- RT-Thread 4.0.1. `PoolProtocol` is the message queue over a block pool as threads run it, copying
  byte by byte outside the critical sections, and `MessagePool` the object whose methods are its steps;
  `Handoff` is semaphores, mutexes and events with direct hand-over.
- CoreMark. `SortedRuns` and `ListSort` are the in-place merge sort with any comparison routine that
  decides by a total preorder, even if it rewrites the data; `ListBench` is the two routines of the list
  benchmark, and `ListRound` a whole round of it; `Crc` is the CRC.
- math-sll. `FixedPoint` is the 32.32 multiplication and reciprocal, `Binary64` the conversion to
  and from the bits of a double.
- xprintf. `Numerals` is the number printer and parser.
- `Basics`, `Words`, `Powers` and `Rings` hold shared definitions.

## How to read it

Wrapping counters are ranges of the integers with the wrap written out. Kernel time has a ghost
unbounded clock: the reference for the tick is a timeline with one absolute deadline per task, and
for a timer the arithmetic progression of its due times. A critical section, or a stretch with the
scheduler suspended, is one step or one method; interrupts are steps that may come at any time.
Words used as bit sets are finite sets of bit numbers. Where the C code asserts, the assertion is a
precondition or is proved to hold (`Delays.EmptyAtWrap`, `Inheritance.StepKeeps`).

Assumptions that the theorems name in their preconditions:

- Queue wake-ups: fewer than 128 interrupts in one lock window, because the lock counts are signed
  8-bit. `QueueProtocol.WindowIsSafe` and `QueueProtocol.ReceiveWindowIsSafe` say what more of them do.
- Priority inheritance: the running task is always a ready task of the highest priority (giving a
  mutex does not always ask for a switch when a less urgent waiter was woken), nobody waits for a
  mutex while holding another (`Inheritance.BlockKeepsBound` says when such a wait breaks the bound),
  and base priorities do not change. `Inheritance.InheritanceEnds` is about runs in which no task
  holds two mutexes at a time; `Inheritance.InheritanceOutlasts` says what happens if one does.
- Timers: the time is sampled at least once per tick wrap, except that the daemon may sleep for any
  time while both lists are empty; a start command of the followed timer is processed within one wrap
  of its time stamp; and no user command for the followed timer follows its start.
- Deadlines: fewer than two tick wraps between two checks.
- Messages: one writer, one reader, and a reader whose buffer is large enough. The too-small buffer
  is proved for uninterrupted calls only, because there the tail moves forward and back again.
- Buffers of at most 2^31 bytes (`StreamBuffers.CountsAreRight` says when the counts go wrong).
- sllmul: the product of the two signed upper halves is taken to wrap at 32 bits, as the result needs
  (`FixedPoint.Assemble`). The C standard leaves that overflow undefined.

Where code and documentation of the repository differ, the model follows the code:

- rtos/freertos10/Source/include/list.h:379-381 says that every other item is returned before an
  item inserted at the end. The item pxIndex points at is returned after it
  (`KernelList.List.InsertEnd`).
- coremark/core_list_join.c:487 allows for an empty list, but the line before it has then written
  through a null tail; `ListSort.MergeSort` is about non-empty lists.
- coremark/core_list_join.c:130 says the list is back in its original state after core_bench_list. The
  data always are. The order is if and only if, for any two nodes a before b of the original list, the
  index of a is less, or the indices are equal and the round leaves a in front of b: by value, if the
  round sorts by value and the values differ, else as the searches left them (`ListRound.BenchList`).
  Where no node that shares its index names a kernel, the data before the round decide
  (`ListRound.ComesBackInData`). It does fail: with seed 8 and 48 slots, items 7 and 15 both get index 7
  and change places in every round that sorts by value (`ListRound.Seed8NeverComesBack`); and nodes with
  equal index and value change places when the searches leave the list reversed (`ListRound.TwinsSwapped`).

- xprintf/xprintf.c:418-421 is to refuse characters between 9 and A as invalid. The test comes after a
  subtraction that leaves at least 10, so it never does: in hexadecimal `:` to `?` are read as the digits
  10 to 15 (`Numerals.DigitOfMeans`).

Limits of the code that the theorems make exact:

- A zero-padded decimal is read back if and only if no zero was needed or it is a lone digit below 8:
  otherwise it is read as octal, or its sign is refused (`Numerals.ZeroPaddedRoundTrip`).
- An RT-Thread mutex counts its holds in 8 bits: ownership is right in a run if and only if takes are
  never nested deeper than 256 (`Handoff.HoldCountIsRight`, `Handoff.NestedHolds`).
- dbl2sll cuts a double toward zero to a multiple of 2^-32 if and only if its biased exponent is 0 or
  from 990 to 1053; for any other it shifts by 64 or more places, or by a negative number of them
  (`Binary64.DecodedValue`). A double made from -2^63 does not convert back; from any other value it comes
  back cut to 53 significant bits (`Binary64.RoundTrip`).
- The lock count of a queue is 8-bit: `QueueProtocol.WindowIsSafe` and `QueueProtocol.ReceiveWindowIsSafe`
  say when sends or receives in one lock window lose a wake-up.
- Spaces between a prefix and its digits make xatoi read 0 (`Numerals.PrefixedRoundTrip`).

## Model

| member | source | states |
|---|---|---|
| FixedPoint.MulIsFloor | fpmath/math-sll/math-sll.c:243-262 | for all signed 64-bit x and y the partial products of sllmul, with a 32-bit top product that wraps, add up to floor(x*y/2^32) modulo 2^64 |
| FixedPoint.ReciprocalIsAccurate | fpmath/math-sll/math-sll.c:739-769 | for every 64-bit x, the result r of sllinv lies in the band 2^64/x - 3 <= r <= (2^64/x)(1+2^-31), with the sign of x, if and only if abs(x) >= 3 |
| FixedPoint.OtherReciprocals | fpmath/math-sll/math-sll.c:739-769 | the results for 0, 1, 2, -1 and -2, whose reciprocals do not fit, and 0 for -2^63 |
| FixedPoint.ReciprocalOfMagnitude | fpmath/math-sll/math-sll.c:739-769 | the band for every x >= 3, by following the residual 2^64 - x*s through the six Newton steps |
| FixedPoint.ExactStep | fpmath/math-sll/math-sll.c:761-766 | a Newton step with its two floors keeps the iterate bounded, and the new residual below the square of the old one over 2^64 plus x |
| FixedPoint.StepResidual | fpmath/math-sll/math-sll.c:761-766 | no intermediate of the step overflows 64 bits, so the machine step is that exact step |
| FixedPoint.Inverse | fpmath/math-sll/math-sll.c:739-769 | the whole of sllinv as straight-line code refines the function the bounds are about |
| FixedPoint.SeedLoop | fpmath/math-sll/math-sll.c:753-758 | the halving loop leaves 2^(64-bits(x)) - 1 as the starting point |
| FixedPoint.SixSteps | fpmath/math-sll/math-sll.c:760-766 | the six unrolled Newton lines are six steps of the iteration |
| Binary64.ToDouble | fpmath/math-sll/math-sll.c:141-188 | the bit pattern that sll2dbl builds is the reference encoding of the fixed-point value |
| Binary64.FromDouble | fpmath/math-sll/math-sll.c:76-118 | the shifts and masks of dbl2sll compute the decoding |
| Binary64.DecodedValue | fpmath/math-sll/math-sll.c:76-118 | for every bit pattern the result is defined if and only if the biased exponent is 0 or from 990 to 1053; it is then 0, or the value of the double by section 3.4 of IEEE 754-2008, in units of 2^-32, cut toward zero |
| Binary64.RoundTrip | fpmath/math-sll/math-sll.c:76-188 | dbl2sll(sll2dbl(s)) is s cut toward zero to 53 significant bits, for every s except -2^63, where the C shift is undefined |
| Binary64.ShortValuesSurvive | fpmath/math-sll/math-sll.c:76-188 | every s with abs(s) < 2^53 comes back unchanged |
| Binary64.MinimumIsUndefined | fpmath/math-sll/math-sll.c:76-118 | for s = -2^63 the exponent asks for a shift by -1 |
| Binary64.EncodedValue | fpmath/math-sll/math-sll.c:141-188 | sign, exponent and fraction, read by section 3.4 of IEEE 754-2008, stand for s/2^32 with the significand cut to 53 bits |
| Crc.Byte | coremark/core_util.c:142-163 | the eight-round loop feeds the eight data bits, least significant first, through the one-bit step |
| Crc.Half | coremark/core_util.c:166-170 | crcu16 feeds sixteen bits, low byte first |
| Crc.Word | coremark/core_util.c:171-178 | crcu32 feeds thirty-two bits, low half first |
| Crc.BitAt | coremark/core_util.c:142-178 | the bits fed are those of the binary representation, the one of weight 2^i in place i |
| Crc.IsRemainder | coremark/core_util.c:142-163 | the register after any bits is the remainder of the data times x^16, plus the start value, modulo x^16+x^15+x^2+1 |
| Crc.Linear | coremark/core_util.c:142-163 | over any equal-length bit strings the CRC is GF(2)-linear in data and start value together |
| Crc.Injective | coremark/core_util.c:142-163 | for fixed data, different start values give different results |
| Crc.BurstDetected | coremark/core_util.c:142-163 | data that differ only inside a window of 16 consecutive processed bits never share a CRC |
| Crc.WiderBurstMissed | coremark/core_util.c:142-163 | 17 bits are too many: the generator itself goes unnoticed |
| ListSort.MergeStep | coremark/core_list_join.c:456-477 | one pick of the inner loop moves the right node to the output and keeps the merge stable |
| ListSort.MergeTwo | coremark/core_list_join.c:453-478 | two neighbouring runs are merged in place into one stably sorted run |
| ListSort.PassTurn | coremark/core_list_join.c:439-482 | one turn of the pass cuts off two runs, merges them and goes on behind them |
| ListSort.MergePass | coremark/core_list_join.c:433-484 | one pass turns runs of insize nodes into half as many runs of twice the size, and counts the merges |
| ListSort.MergeSort | coremark/core_list_join.c:426-496 | for every non-empty list and every comparison routine that decides by a total preorder of the data once it has settled them: the same nodes, relinked, stably sorted; with two or more nodes the set of nodes handed to cmp is all of them |
| ListSort.Compare | coremark/core_list_join.c:463-463 | one call of cmp settles the two data it is given, records both nodes as compared, and its sign decides as the order does |
| ListBench.CalcFunc | coremark/core_list_join.c:63-95 | a cached value is returned as it is; else the low seven bits of what the named kernel returns are cached and returned, and the record is updated; the backup byte stays |
| ListBench.CompareComplex | coremark/core_list_join.c:101-105 | the difference of the two cached values, after both have been cached, the first one first |
| ListBench.CompareIdx | coremark/core_list_join.c:112-118 | without a result record both data words get their low byte back from the backup byte |
| ListBench.ComplexIsLawful | coremark/core_list_join.c:101-105 | cmp_complex decides by the order of cached values, and caches |
| ListBench.IndexIsLawful | coremark/core_list_join.c:112-118 | cmp_idx decides by the index, with a record and, restoring data, without |
| ListBench.BecomesKeeps | coremark/core_list_join.c:63-95 | what comparing by value makes of a datum keeps index and backup byte, and the value too if the datum names no kernel |
| ListRound.Find | coremark/core_list_join.c:370-380 | the first node with the index or, for a negative index, with the low byte that is looked for, or null if there is none |
| ListRound.ReverseList | coremark/core_list_join.c:395-404 | the same nodes linked in reverse |
| ListRound.MoveToFront | coremark/core_list_join.c:157-162 | the node behind the one that was found is moved behind the head, wherever that is, and the rest keeps its order |
| ListRound.Search | coremark/core_list_join.c:142-166 | after find_num turns the list is the rearrangement AfterSearches of the original, and no datum has changed |
| ListRound.SearchedMeans | coremark/core_list_join.c:142-166 | what one search does to the order: the list is reversed and, unless nothing or the first node is found, the node in front of the one found is moved behind the new head |
| ListRound.OneSearchMore | coremark/core_list_join.c:142-166 | search number m runs on what the searches before it left, for the low byte m modulo 256 and the finder index, which stays if negative and else has counted up m times, to -2^15 at the latest |
| ListRound.FruitlessSearches | coremark/core_list_join.c:142-166 | searches that find nothing leave the list as it was or reversed, by whether their number is even |
| ListRound.Remove | coremark/core_list_join.c:316-327 | the node behind item is unlinked and the two nodes have swapped their data |
| ListRound.UndoRemove | coremark/core_list_join.c:345-355 | the removed node is linked in behind the modified one and the data are swapped back |
| ListRound.RemoveAndUndo | coremark/core_list_join.c:174-186 | removing and undoing leaves the list and the data of every node as they were |
| ListRound.SortByValue | coremark/core_list_join.c:172-173 | with a positive finder index the list is stably sorted by value and all data are cached, else nothing changes |
| ListRound.SortByIndex | coremark/core_list_join.c:188-188 | stably sorted by index, and every node has its original datum again |
| ListRound.BenchList | coremark/core_list_join.c:132-188 | a whole round: the data always come back, and the order if and only if, for any two nodes of the original list in order, the index grows or, if it is the same, the value does or, if that is the same or values are not sorted, the searches left the two in order |
| ListRound.ComesBackInData | coremark/core_list_join.c:63-188 | if nodes that name a kernel share their index with no other, that condition holds of the values after the round if and only if it holds of the data before it |
| ListRound.IndexOrderIsOriginal | coremark/core_list_join.c:112-118 | sorting any rearrangement t of s by index gives s if and only if indices never decrease along s and equal ones stand in t as in s |
| ListRound.RestoredData | coremark/core_list_join.c:63-118 | a datum that comparing by value has changed is the original again after restoring |
| ListRound.TwinsSwapped | coremark/core_list_join.c:142-188 | nodes with the same index and value do not come back if the searches leave the list reversed |
| ListRound.WrongOrder | coremark/core_list_join.c:101-188 | nodes with the same index and known values in the wrong order do not come back in a round that sorts by value |
| ListRound.BuiltIsPristine | coremark/core_list_join.c:213-253 | every datum that core_list_init writes equals its backup byte twice, as BenchList requires |
| ListRound.ItemsOfSeed8 | coremark/core_list_join.c:236-253 | with seed 8 and 48 slots items 7 and 15 get index 7 and the data 0x7676 and 0x3636 |
| ListRound.Seed8NeverComesBack | coremark/core_list_join.c:130-255 | the list that core_list_init builds and sorts for seed 8 and 48 slots comes back from no round that sorts by value |
| SortedRuns.PlacedBefore | coremark/core_list_join.c:463-466 | of two nodes the sort puts one in front if and only if it is less or, among equals, was in front before |
| SortedRuns.StableOrderIsUnique | coremark/core_list_join.c:426-496 | a list has one stable order only, so the sort result is determined |
| SortedRuns.PassStep | coremark/core_list_join.c:439-482 | merging the first two remaining runs keeps the pass invariant, for any total preorder and whatever the comparisons changed in the data |
| KernelList.List.constructor | rtos/freertos10/Source/list.c:37-57 | an empty ring of the end marker alone |
| KernelList.List.InsertEnd | rtos/freertos10/Source/list.c:74-100 | the item is visited after every other item except the one pxIndex points at |
| KernelList.EndIsLast | rtos/freertos10/Source/list.c:74-100 | where inserting in front of pxIndex puts an item in the visiting order |
| KernelList.List.Insert | rtos/freertos10/Source/list.c:103-167 | terminating stable insert, also for value portMAX_DELAY; a sorted list stays sorted |
| KernelList.List.FindSpot | rtos/freertos10/Source/list.c:113-160 | the walk stops at the last item whose value does not exceed the new one |
| KernelList.PlaceKeepsSorted | rtos/freertos10/Source/list.c:103-167 | insertion keeps a sorted list sorted and goes behind equal values |
| KernelList.List.Unlink | rtos/freertos10/Source/list.c:170-196 | the item is gone, the visiting order and list order of the rest are as they were |
| KernelList.RemovedVisit | rtos/freertos10/Source/list.c:170-196 | the visiting order after removal, wherever pxIndex points |
| KernelList.List.NextEntry | rtos/freertos10/Source/include/list.h:277-288 | the front of the visiting order is returned and the order rotates by one |
| KernelList.RotatedVisit | rtos/freertos10/Source/include/list.h:277-288 | stepping the index rotates the visiting order |
| KernelList.ReadyLists.constructor | rtos/freertos10/Source/tasks.c:3546-3575 | all ready lists are empty |
| KernelList.ReadyLists.MakeReady | rtos/freertos10/Source/tasks.c:123-129 | the top priority is recorded and the task is visited last of its list, or before the one that pxIndex points at; the rings stay disjoint and no list above the top is occupied |
| KernelList.ReadyLists.Unready | rtos/freertos10/Source/list.c:170-196 | the task leaves its ready list, the others keep their order |
| KernelList.ReadyLists.Select | rtos/freertos10/Source/tasks.c:133-148 | in every state reached from the constructor with some task ready, a context switch picks a task of maximal ready priority, the next of its list |
| KernelList.ReadyLists.Round | rtos/freertos10/Source/tasks.c:2947-3017 | n context switches over n stable ready peers pick each exactly once, in order |
| ValueLists.InsertSorted | rtos/freertos10/Source/list.c:103-167 | insertion by value keeps entries sorted |
| ValueLists.InsertStands | rtos/freertos10/Source/list.c:103-167 | the new entry stands behind the leading entries that do not exceed it, its equals among them |
| ValueLists.RemoveKeepsOrder | rtos/freertos10/Source/list.c:170-196 | removal keeps entries sorted and owners distinct |
| ValueLists.RemovedFrom | rtos/freertos10/Source/list.c:170-196 | the entry of the owner is gone, and what was before and behind it is joined |
| Delays.WakesExactly | rtos/freertos10/Source/tasks.c:5081-5152 | on the reference timeline a task blocked for d ticks at T becomes ready at exactly T+d, once, whatever else happens |
| Delays.WakesOnTime | rtos/freertos10/Source/tasks.c:2665-2774 | in every state of the scheduler: a task that blocked for d ticks at T and was left alone since is in one of the two lists until T+d; then it is in neither, and a tick has moved it to a ready list at T+d, once, and at no other time since |
| Delays.BlockKeeps | rtos/freertos10/Source/tasks.c:5118-5145 | a wake time below the tick count belongs to the next round and goes to the overflow list, any other to the current one |
| Delays.TickKeeps | rtos/freertos10/Source/tasks.c:2665-2774 | the entries taken off at a tick are exactly the tasks whose deadline it is, across wraps |
| Delays.EmptyAtWrap | rtos/freertos10/Source/tasks.c:198-210 | the current list is empty whenever the tick count wraps |
| Delays.SplitDue | rtos/freertos10/Source/tasks.c:2699-2773 | the due entries form the front of the current list |
| Delays.WakeKeeps | rtos/freertos10/Source/tasks.c:3094-3159 | taking a task off either delayed list keeps both lists right |
| Delays.TickScheduler.constructor | rtos/freertos10/Source/tasks.c:3546-3575 | both lists are empty at time 0 |
| Delays.TickScheduler.Increment | rtos/freertos10/Source/tasks.c:2678-2693 | the tick count advances and, when it wraps to 0, the lists swap and the overflow count goes up |
| Delays.TickScheduler.UnblockExpired | rtos/freertos10/Source/tasks.c:2699-2773 | the loop takes exactly the entries that are not in the future and sets the next unblock time |
| Delays.TickScheduler.ProcessTick | rtos/freertos10/Source/tasks.c:2665-2774 | one processed tick is one tick of the reference; the tasks due, and only those, are added to the ready tasks and taken off their event lists |
| Delays.TickScheduler.Tick | rtos/freertos10/Source/tasks.c:2665-2840 | a tick is processed, or counted while the scheduler is suspended, and then nothing else changes; none is lost |
| Delays.TickScheduler.Block | rtos/freertos10/Source/tasks.c:5081-5152 | a finite wait becomes a deadline, portMAX_DELAY an unlimited one |
| Delays.TickScheduler.PlaceOnEventList | rtos/freertos10/Source/tasks.c:3020-3034 | the running task is on an event list, and blocked up to a deadline or, with portMAX_DELAY, without limit |
| Delays.TickScheduler.DelayUntil | rtos/freertos10/Source/tasks.c:5118-5145 | the item goes into the list its wake time calls for and the next unblock time is lowered if need be |
| Delays.TickScheduler.ResetNextUnblock | rtos/freertos10/Source/tasks.c:3880-3901 | the next unblock time is not later than any entry |
| Delays.TickScheduler.WakeFromEvent | rtos/freertos10/Source/tasks.c:3094-3159 | the task leaves its event list and becomes ready at once, off every delayed list, or is last on the pending list while the scheduler is suspended |
| Delays.TickScheduler.MakeReady | rtos/freertos10/Source/tasks.c:218-223 | a task leaves whichever state list it is in and is the last to have become ready |
| Delays.TickScheduler.DrainPending | rtos/freertos10/Source/tasks.c:2196-2226 | the ready tasks are those before, followed by every pending task in order; none of these is afterwards on a delayed list, on an event list or blocked without limit |
| Delays.TickScheduler.ProcessPended | rtos/freertos10/Source/tasks.c:2228-2256 | every tick that pended is processed, one by one; the ready tasks are those before, followed by those these ticks take off, in order |
| Delays.TickScheduler.ResumeAll | rtos/freertos10/Source/tasks.c:2174-2277 | when the last suspension ends, the ready tasks are those before, then the pending tasks in order, then those due at the missed ticks in order; until then nothing moves |
| Timeouts.TimeOut.Check | rtos/freertos10/Source/tasks.c:3216-3276 | the verdict and the shortened wait, in terms of unbounded times |
| Timeouts.VerdictIsRightUnless | rtos/freertos10/Source/tasks.c:3223-3272 | the verdict is right exactly unless a full lap goes unseen by both tests |
| Timeouts.TwoWrapsSuffice | rtos/freertos10/Source/tasks.c:3223-3272 | with fewer than two tick wraps since entry a timeout is reported if and only if the time has passed |
| Timeouts.LapUnseenAfterTwoWraps | rtos/freertos10/Source/tasks.c:3223-3272 | with two wraps it can be missed |
| Timeouts.DeadlineNeverMoves | rtos/freertos10/Source/tasks.c:3216-3276 | over any sequence of checks the deadline stays where it was, and the timeout is reported exactly when a check reaches it |
| Timeouts.ForeverNeverEnds | rtos/freertos10/Source/tasks.c:3236-3244 | a wait of portMAX_DELAY never times out |
| Rings.SlotIsRemainder | rtos/freertos10/Source/queue.c:2097-2119 | the wrapped pointer is the remainder, so the write slot is (read slot + messages + 1) mod length |
| Queues.PutBack | rtos/freertos10/Source/queue.c:2096-2107 | writing the slot behind the last message appends |
| Queues.PutFront | rtos/freertos10/Source/queue.c:2109-2119 | writing the read slot and stepping it back prepends |
| Queues.TakeFront | rtos/freertos10/Source/queue.c:2149-2164 | stepping the read slot gives the first message |
| Queues.Queue.constructor | rtos/freertos10/Source/queue.c:255-266 | an empty unlocked queue |
| Queues.Queue.CopyTo | rtos/freertos10/Source/queue.c:2070-2146 | send-to-back appends, send-to-front prepends, overwrite on length 1 replaces |
| Queues.Queue.CopyFrom | rtos/freertos10/Source/queue.c:2149-2164 | the head message is read and leaves |
| Queues.Queue.TrySend | rtos/freertos10/Source/queue.c:747-900 | the critical section of a send: one step of the protocol, and append, prepend, replace or refuse on the items |
| Queues.Queue.SendFromISR | rtos/freertos10/Source/queue.c:957-1104 | the same from an interrupt: wakes directly if unlocked, else counts |
| Queues.Queue.TryReceive | rtos/freertos10/Source/queue.c:1273-1353 | the critical section of a receive: takes the head or finds the queue empty |
| Queues.Queue.ReceiveFromISR | rtos/freertos10/Source/queue.c:1781-1868 | the same from an interrupt |
| Queues.Queue.TryPeek | rtos/freertos10/Source/queue.c:1632-1718 | peek returns the head, changes nothing and wakes the next receiver |
| Queues.Queue.Lock | rtos/freertos10/Source/queue.c:240-252 | both lock counts start at 0 |
| Queues.Queue.MustBlock | rtos/freertos10/Source/queue.c:2287-2345 | the second look decides whether the caller blocks |
| Queues.Queue.PlaceOnEventList | rtos/freertos10/Source/tasks.c:3020-3033 | the waiter is inserted by priority on the list for its side, and the other list stays |
| Queues.Queue.PayReceivers | rtos/freertos10/Source/queue.c:2167-2252 | the loop wakes as many receivers as sends were counted, or all, the first ones first, and unlocks |
| Queues.Queue.PaySenders | rtos/freertos10/Source/queue.c:2254-2284 | the loop wakes as many senders as receives were counted, or all, the first ones first, and unlocks |
| QueueProtocol.StepKeepsSafe | rtos/freertos10/Source/queue.c:747-954 | every task step, interrupt, lock, unlock and timeout keeps: items a waiter could have are covered by woken tasks and owed wake-ups, and dually for free slots |
| QueueProtocol.UnlockKeeps | rtos/freertos10/Source/queue.c:2167-2285 | unlocking turns what was owed into woken tasks |
| QueueProtocol.WakesMostUrgent | rtos/freertos10/Source/tasks.c:3094-3159 | the task woken is the most urgent waiter and, of several, the one that has waited longest |
| QueueProtocol.UnlockWakes | rtos/freertos10/Source/queue.c:2167-2285 | unlocking wakes as many waiters as events were counted, the first ones on the list, and no more |
| QueueProtocol.RunIsSafe | rtos/freertos10/Source/queue.c:747-954 | the same at every point of every run of a created queue |
| QueueProtocol.NoLostWakeUp | rtos/freertos10/Source/queue.c:1273-1410 | outside the lock window, when all woken tasks have looked again, receivers wait only on an empty queue and senders only on a full one |
| QueueProtocol.WindowIsSafe | rtos/freertos10/Source/queue.c:1087-1092 | n interrupt sends onto an empty locked queue leave the protocol safe if and only if the wake-ups they are worth reach all waiting receivers or, with those woken before, make up for the n items; they are worth n up to 127, none from 128 to 255 and n - 255 beyond |
| QueueProtocol.ReceiveWindowIsSafe | rtos/freertos10/Source/queue.c:1813-1860 | the same for n interrupt receives from a full locked queue: safe if and only if the wake-ups they are worth reach all waiting senders or, with those woken before, make up for the n free slots |
| QueueProtocol.CountLosesWakeUps | rtos/freertos10/Source/queue.c:1087-1092 | a witness: 128 interrupt sends in one lock window leave a receiver blocked on 128 items |
| Inheritance.HolderOutranksWaiters | rtos/freertos10/Source/tasks.c:3951-4213 | in every run: held count = mutexes held, base <= priority with equality when none are held, and no task blocked on a mutex outranks its holder |
| Inheritance.StepKeeps | rtos/freertos10/Source/queue.c:1414-1622 | every take, block, give, hand-over, timeout and disinheritance keeps that; the held count is positive whenever a mutex is given |
| Inheritance.PriorityMoves | rtos/freertos10/Source/tasks.c:3951-4213 | what each step does to every priority: a holder rises to that of a task that blocks, drops to its base when it gives its last mutex and, after a timeout, if it holds no other mutex, to the larger of its base and the highest priority among those still blocked; nobody else changes |
| Inheritance.InheritanceEnds | rtos/freertos10/Source/tasks.c:4118-4213 | in every run in which nobody holds two mutexes, a task above its base priority holds a mutex that a task of at least that priority, which knows that it was inherited, is in a call to take |
| Inheritance.InheritanceOutlasts | rtos/freertos10/Source/tasks.c:4055-4078 | with a second mutex it does not end: a holder of two that gives the one it was raised for stays above its base after the only waiter has taken it |
| Inheritance.HandsOver | rtos/freertos10/Source/queue.c:2079-2092 | a mutex that is given is free, and of the tasks blocked on it the most urgent has been woken and the others stay blocked |
| Inheritance.TakeSucceeds | rtos/freertos10/Source/queue.c:1459-1475 | a take or retry makes the task the holder if and only if the mutex is free, else no mutex changes and only a take that may not wait returns |
| Inheritance.BlockWaits | rtos/freertos10/Source/queue.c:1544-1572 | a task that blocks is on the event list and remembers that it was inherited from if and only if it is more urgent than the base priority of the holder |
| Inheritance.JoinKeeps | rtos/freertos10/Source/queue.c:1544-1561 | blocking raises the holder first, so the bound holds for the new waiter |
| Inheritance.ReleaseKeeps | rtos/freertos10/Source/queue.c:2079-2092 | after a give the woken waiter is as urgent as all who still wait |
| Inheritance.AcquireKeeps | rtos/freertos10/Source/queue.c:1459-1472 | whoever takes a free mutex outranks its waiters |
| Inheritance.LowerKeeps | rtos/freertos10/Source/queue.c:1590-1607 | after a timeout the holder drops only to the highest remaining waiter |
| Inheritance.HighestIsHighest | rtos/freertos10/Source/queue.c:2045-2065 | the head of the event list has the highest priority of all waiters |
| Inheritance.BlockKeepsBound | rtos/freertos10/Source/tasks.c:3961-4010 | if tasks may wait while they hold, blocking on a mutex keeps every holder as urgent as its waiters if and only if its holder is as urgent as the new waiter already, or does not itself wait for a holder that is less urgent |
| Inheritance.ChainBreaksBound | rtos/freertos10/Source/tasks.c:3961-4010 | a task that waits while it holds breaks the bound: inheritance is not passed along a chain |
| Inheritance.Tcb.PriorityInherit | rtos/freertos10/Source/tasks.c:3951-4032 | raises the holder and its ready list and event list value in step |
| Inheritance.Tcb.PriorityDisinherit | rtos/freertos10/Source/tasks.c:4038-4111 | drops to the base priority only when the last mutex is given, and says whether a switch is due |
| Inheritance.Tcb.PriorityDisinheritAfterTimeout | rtos/freertos10/Source/tasks.c:4118-4213 | with one mutex held the priority is afterwards the larger of base and highest waiter, else it does not change; ready list and event list value follow |
| Timers.DecisionIsRight | rtos/freertos10/Source/timers.c:668-706 | expired, this epoch or next epoch is decided rightly if and only if less than one wrap lies between command and processing, or the rest beyond the last whole wrap covers the period |
| Timers.TimerDaemon.InsertTimer | rtos/freertos10/Source/timers.c:668-706 | the list or neither that the decision names |
| Timers.TimerDaemon.InsertFollowed | rtos/freertos10/Source/timers.c:668-706 | the followed timer is afterwards due at command time + period in the right list, or has expired by now |
| Timers.TimerDaemon.ProcessExpired | rtos/freertos10/Source/timers.c:482-520 | whatever timer is first, it is called back once, after one start command to itself if it is late by a period, and its reactions are sent; it is re-armed if it is an auto-reload timer, else inactive and off both lists |
| Timers.TimerDaemon.RearmExpired | rtos/freertos10/Source/timers.c:496-515 | an auto-reload timer is inserted one period later, or sent a start command if that has passed too; any other is inactive |
| Timers.OneShotEnds | rtos/freertos10/Source/timers.c:482-520 | an expired one-shot timer is called back, its reactions are sent, and it is inactive and in neither list |
| Timers.TimerDaemon.Reload | rtos/freertos10/Source/timers.c:893-906 | a reload that does not wrap is inserted with its larger value into the list being drained, else a start command is sent |
| Timers.TimerDaemon.DrainFirst | rtos/freertos10/Source/timers.c:868-908 | whatever overdue timer is first, it is called back once and its reactions are sent; an auto-reload timer is re-armed, by a start command if the next time wraps, and what is left to drain shrinks |
| Timers.DrainCounts | rtos/freertos10/Source/timers.c:868-908 | for every timer, callbacks made and callbacks left in the list being drained add up to the same number |
| Timers.TimerDaemon.SwitchLists | rtos/freertos10/Source/timers.c:857-913 | each timer is called back exactly as often as it is due up to the wrap, the lists swap and every pending expiry keeps its meaning |
| Timers.TimerDaemon.SampleTimeNow | rtos/freertos10/Source/timers.c:645-665 | the lists are switched exactly when the tick count has wrapped since the last sample, and nothing changes if it has not |
| Timers.TimerDaemon.GetNextExpireTime | rtos/freertos10/Source/timers.c:619-642 | no timer of the current list is due before the time returned and one is due then; 0 if there is none |
| Timers.TimerDaemon.ProcessOrBlock | rtos/freertos10/Source/timers.c:559-616 | switches the lists, calls back the first timer or blocks, as the time asks; when the daemon blocks at time n with no command queued for the followed timer, floor((n - start)/period) of its callbacks have run |
| Timers.TimerDaemon.Receive | rtos/freertos10/Source/timers.c:717-765 | a command is taken off the queue and its timer off the lists |
| Timers.TimerDaemon.PerformStart | rtos/freertos10/Source/timers.c:770-803 | a start command arms any timer in the list its time calls for, or calls it back at once and, for auto-reload, restarts it one period later |
| Timers.TimerDaemon.Perform | rtos/freertos10/Source/timers.c:768-850 | the whole effect of start, stop, change-period and, for static timers, delete commands on any timer; those of other timers leave the followed one alone |
| Timers.TimerDaemon.ProcessCommand | rtos/freertos10/Source/timers.c:709-851 | one received command has that effect, and keeps callbacks at start + k*period, none skipped or doubled |
| Timers.TimerDaemon.StartTimer | rtos/freertos10/Source/timers.c:381-421 | from a start command at s on, the due times are s + k*period |
| Timers.TimerDaemon.Send | rtos/freertos10/Source/timers.c:381-421 | commands for other timers do not disturb the followed one |
| Timers.TimerDaemon.constructor | rtos/freertos10/Source/timers.c:916-960 | no timer is active |
| Timers.ElapsedPeriods | rtos/freertos10/Source/timers.c:559-616 | the number of whole periods between start and now |
| Timers.IdleMeansFuture | rtos/freertos10/Source/timers.c:573-610 | a pending timer whose list head is not due is due in the future |
| EventGroups.ReleasesExactlyTheGranted | rtos/freertos10/Source/event_groups.c:519-611 | setting bits releases exactly the waiters they satisfy, tells each the same bits, and clears exactly the bits of released clear-on-exit waiters |
| EventGroups.EventGroup.SetBits | rtos/freertos10/Source/event_groups.c:519-611 | the walk over a list that shrinks under it; nobody satisfied stays, bits 24 to 31 stay zero |
| EventGroups.EventGroup.Visit | rtos/freertos10/Source/event_groups.c:545-600 | one item is examined and, if it matches, removed |
| EventGroups.EventGroup.Walk | rtos/freertos10/Source/event_groups.c:545-600 | the whole list is covered, in order |
| EventGroups.EventGroup.WaitBits | rtos/freertos10/Source/event_groups.c:311-395 | returns at once if satisfied, clearing if asked to, else blocks or gives up |
| EventGroups.EventGroup.FinishWait | rtos/freertos10/Source/event_groups.c:397-455 | released tasks return the bits that released them, timed-out ones the present bits |
| EventGroups.EventGroup.Sync | rtos/freertos10/Source/event_groups.c:191-255 | sets bits, which releases the satisfied waiters and tells each the same bits, and completes the rendezvous or blocks for all of its own bits |
| EventGroups.EventGroup.ClearBits | rtos/freertos10/Source/event_groups.c:461-485 | clears bits, returns the old ones and satisfies nobody |
| EventGroups.EventGroup.Place | rtos/freertos10/Source/tasks.c:3037-3058 | the waiter goes to the end of the list with its bits and control bits |
| EventGroups.EventGroup.Expire | rtos/freertos10/Source/tasks.c:2728-2750 | a timed-out waiter leaves the list |
| EventGroups.FewerBits | rtos/freertos10/Source/event_groups.c:671-703 | fewer bits never satisfy what more bits do not |
| EventGroups.TestMeans | rtos/freertos10/Source/event_groups.c:671-703 | a wait for all bits is satisfied if and only if each of them is set, any other if and only if one of them is |
| EventGroups.WaitValueParts | rtos/freertos10/Source/event_groups.c:548-553 | wait bits and control bits can be told apart again |
| StreamBuffers.CountsAreRight | rtos/freertos10/Source/stream_buffer.c:470-491 | the byte and space counts are right exactly as long as the sums fit in 32 bits |
| StreamBuffers.BytesAndSpaces | rtos/freertos10/Source/stream_buffer.c:470-491 | bytes + spaces = length - 1 if and only if neither sum overflows 32 bits, as for all buffers of at most 2^31 bytes |
| StreamBuffers.StreamBuffer.BytesInBuffer | rtos/freertos10/Source/stream_buffer.c:1189-1206 | the number of bytes between tail and head |
| StreamBuffers.StreamBuffer.SpacesAvailable | rtos/freertos10/Source/stream_buffer.c:470-491 | what is left of length - 1 |
| StreamBuffers.StreamBuffer.CopyIn | rtos/freertos10/Source/stream_buffer.c:1094-1117 | copying behind the head, wrapped or not, does not change the contents |
| StreamBuffers.StreamBuffer.Publish | rtos/freertos10/Source/stream_buffer.c:1119-1129 | moving the head makes exactly the copied bytes visible |
| StreamBuffers.StreamBuffer.WriteBytes | rtos/freertos10/Source/stream_buffer.c:1088-1131 | the bytes are appended |
| StreamBuffers.StreamBuffer.CopyOut | rtos/freertos10/Source/stream_buffer.c:1144-1167 | the first bytes, wrapped or not |
| StreamBuffers.StreamBuffer.Consume | rtos/freertos10/Source/stream_buffer.c:1169-1178 | moving the tail drops exactly those bytes |
| StreamBuffers.StreamBuffer.ReadBytes | rtos/freertos10/Source/stream_buffer.c:1134-1186 | the smaller of wanted and available bytes are taken |
| StreamBuffers.StreamBuffer.Send | rtos/freertos10/Source/stream_buffer.c:661-710 | a message goes in whole or not at all, a stream as far as it fits |
| StreamBuffers.StreamBuffer.Receive | rtos/freertos10/Source/stream_buffer.c:918-967 | exactly the first message, or nothing and no change if the caller's buffer is too small |
| MessageFrames.OnlyWholeMessages | rtos/freertos10/Source/stream_buffer.c:661-710 | in every interleaving of one writer and one reader only whole messages arrive, in order, byte for byte |
| MessageFrames.StepKeeps | rtos/freertos10/Source/stream_buffer.c:918-967 | length and data published and taken separately keep the channel in order |
| MessageFrames.NextMessageArrives | rtos/freertos10/Source/stream_buffer.c:781-800 | whenever a whole message is in the buffer, three reader steps in a row take exactly that message |
| MessageFrames.MessageIsWritten | rtos/freertos10/Source/stream_buffer.c:661-710 | a message for which there is room is written by two writer steps in a row, and is then the last to be received |
| MessageFrames.LengthRoundTrip | rtos/freertos10/Source/stream_buffer.c:691-691 | the four length bytes give the length back |
| MessageRing.RingStepKeeps | rtos/freertos10/Source/stream_buffer.c:1088-1186 | every byte copied into or out of the ring is invisible, and every move of head or tail is a step of the channel, wrapped or not |
| MessageRing.NeverStuck | rtos/freertos10/Source/stream_buffer.c:918-967 | whoever is in the middle of a copy can copy the next byte or, if all are copied, move head or tail |
| MessageRing.WholeMessagesOnly | rtos/freertos10/Source/stream_buffer.c:661-710 | in every byte-by-byte interleaving of one writer and one reader on the ring only whole messages arrive, in order |
| PoolProtocol.RunMatches | rtos/rt-thread-4.0.1-nano/src/ipc.c:1963-2266 | in every interleaving of sends, urgent sends, receives and resets, at every point: free list, message list and threads in mid-call share out the blocks, no two threads one block; both lists are acyclic, entry and tail are right; and what is listed, under way and received is what the block-free reference queue says |
| PoolProtocol.StepKeeps | rtos/rt-thread-4.0.1-nano/src/ipc.c:1963-2266 | each stretch with interrupts off and each copied byte, of any thread, keeps that |
| PoolProtocol.LinkStaysEmpty | rtos/rt-thread-4.0.1-nano/src/ipc.c:1999-2000 | from clearing its link until it links its block, a plain sender finds the link empty |
| PoolProtocol.FirstInFirstOut | rtos/rt-thread-4.0.1-nano/src/ipc.c:1963-2266 | with one receiver and no urgent messages or resets, the j-th buffer received carries the j-th message linked, whatever the senders do meanwhile |
| PoolProtocol.InLinkOrder | rtos/rt-thread-4.0.1-nano/src/ipc.c:2004-2020 | in the reference, messages taken out and messages listed are together those put in, in order |
| PoolProtocol.RoomIsFree | rtos/rt-thread-4.0.1-nano/src/ipc.c:1982-1995 | there is a free block if and only if fewer messages are listed or under way than there are blocks |
| PoolProtocol.BlocksConserved | rtos/rt-thread-4.0.1-nano/src/ipc.c:1780-1826 | free, queued and privately held blocks add up to the pool |
| PoolProtocol.LinkedAppend | rtos/rt-thread-4.0.1-nano/src/ipc.c:2006-2017 | hooking a block behind the tail extends the acyclic list |
| PoolProtocol.DrainKeeps | rtos/rt-thread-4.0.1-nano/src/ipc.c:2299-2311 | the reset loop ends with an empty message list, every queued block on the free list and blocks in mid-copy untouched |
| MessagePool.MessageQueue.constructor | rtos/rt-thread-4.0.1-nano/src/ipc.c:1780-1826 | every block starts on the free list |
| MessagePool.MessageQueue.Take | rtos/rt-thread-4.0.1-nano/src/ipc.c:1979-1997 | the step of the protocol; there is no block if and only if the messages listed and under way use up the pool |
| MessagePool.MessageQueue.ClearLink | rtos/rt-thread-4.0.1-nano/src/ipc.c:2000-2000 | the step of the protocol, on a block that its thread holds |
| MessagePool.MessageQueue.CopyIn | rtos/rt-thread-4.0.1-nano/src/ipc.c:2002-2002 | one byte of the copy is the step of the protocol |
| MessagePool.MessageQueue.LinkBack | rtos/rt-thread-4.0.1-nano/src/ipc.c:2004-2020 | the step of the protocol: the message is last |
| MessagePool.MessageQueue.LinkFront | rtos/rt-thread-4.0.1-nano/src/ipc.c:2092-2104 | the step of the protocol: an urgent message is first |
| MessagePool.MessageQueue.Unlink | rtos/rt-thread-4.0.1-nano/src/ipc.c:2237-2250 | the step of the protocol: the head block is held by its receiver |
| MessagePool.MessageQueue.Release | rtos/rt-thread-4.0.1-nano/src/ipc.c:2255-2261 | the step of the protocol: the block is free again |
| MessagePool.MessageQueue.Reset | rtos/rt-thread-4.0.1-nano/src/ipc.c:2288-2314 | the loop is the step of the protocol: no message is listed afterwards, and the calls under way go on |
| MessagePool.MessageQueue.Send | rtos/rt-thread-4.0.1-nano/src/ipc.c:1963-2039 | uninterrupted, a message that fits is queued, in front if urgent, unless all blocks are taken |
| MessagePool.MessageQueue.Receive | rtos/rt-thread-4.0.1-nano/src/ipc.c:2138-2266 | uninterrupted, the first message is received, as far as the caller asked for it |
| Handoff.Suspend | rtos/rt-thread-4.0.1-nano/src/ipc.c:79-122 | FIFO appends; PRIO inserts behind every thread up to the first less urgent one |
| Handoff.Semaphore.Take | rtos/rt-thread-4.0.1-nano/src/ipc.c:323-408 | takes, gives up or suspends |
| Handoff.Semaphore.Release | rtos/rt-thread-4.0.1-nano/src/ipc.c:432-470 | hands over to the first suspended thread or counts up; value is 0 while anyone is suspended |
| Handoff.CountIsExact | rtos/rt-thread-4.0.1-nano/src/ipc.c:323-470 | initial + releases = value + takes exactly as long as fewer than 2^16 units are outstanding |
| Handoff.MutexKeeps | rtos/rt-thread-4.0.1-nano/src/ipc.c:653-880 | every take, release and timeout keeps: value is 1 if and only if there is no owner, and then nobody is suspended; the owner is not suspended |
| Handoff.Mutex.Take | rtos/rt-thread-4.0.1-nano/src/ipc.c:653-778 | nests, takes, gives up or suspends, with value, hold count, owner and original priority afterwards; reports the priority that the owner is raised to |
| Handoff.Mutex.Release | rtos/rt-thread-4.0.1-nano/src/ipc.c:789-880 | only the owner releases; at hold count 0 the first waiter becomes the owner with its own priority as the original one, or nobody; reports the priority that is restored |
| Handoff.HoldCountIsRight | rtos/rt-thread-4.0.1-nano/src/ipc.c:653-880 | in every run the mutex is owned as if takes were counted without bound, now and after whatever release comes next, if and only if takes were never nested deeper than 256 |
| Handoff.NestedHolds | rtos/rt-thread-4.0.1-nano/src/ipc.c:827-829 | after n nested takes the thread still owns the mutex after each k < n releases if and only if n is at most 256 |
| Handoff.FirstReleaseFrees | rtos/rt-thread-4.0.1-nano/src/ipc.c:827-829 | a witness: of 257 nested takes the first release frees the mutex |
| Handoff.Event.Visit | rtos/rt-thread-4.0.1-nano/src/ipc.c:1056-1098 | one receiver is examined and, if satisfied, resumed; its bits are used up if it clears |
| Handoff.SatisfiedMeans | rtos/rt-thread-4.0.1-nano/src/ipc.c:1059-1079 | for a suspended receiver: an AND wish is satisfied if and only if every wanted bit is set, an OR wish if and only if some wanted bit is |
| Handoff.Event.Send | rtos/rt-thread-4.0.1-nano/src/ipc.c:1028-1110 | each suspended receiver in list order is resumed if and only if its wish is satisfied by the bits that those in front of it left; who stays is not satisfied by what is left in the end |
| Handoff.Event.Receive | rtos/rt-thread-4.0.1-nano/src/ipc.c:1126-1210 | an AND wish is granted at once if and only if every wanted bit is set, an OR wish if and only if one is; it then gets the wanted bits that are set, else it gives up or is suspended |
| Handoff.Event.FinishReceive | rtos/rt-thread-4.0.1-nano/src/ipc.c:1206-1236 | a resumed receiver gets what the send gave it |
| Handoff.EachBitOnce | rtos/rt-thread-4.0.1-nano/src/ipc.c:1056-1098 | receivers that clear get disjoint bits, and exactly those bits are gone afterwards |
| Handoff.OfferInTurn | rtos/rt-thread-4.0.1-nano/src/ipc.c:1056-1098 | receivers are served in turn, each from the bits that those in front of it left, and told the wanted bits among them |
| Handoff.OfferLeaves | rtos/rt-thread-4.0.1-nano/src/ipc.c:1056-1098 | who stays suspended is not satisfied by what is left |
| Numerals.Print | xprintf/xprintf.c:185-198 | digits, sign and padding come out as the reference text |
| Numerals.PrintedMeans | xprintf/xprintf.c:195-198 | the text is padded to the width, on the side and with the character that the flags name, and not cut |
| Numerals.BodyMeans | xprintf/xprintf.c:185-194 | a minus sign if and only if a signed number is negative, then the characters of the digits, in lower case for %x only |
| Numerals.DigitsStandFor | xprintf/xprintf.c:185-193 | the digits stand for the magnitude of a signed number, or for the word, modulo radix^24 |
| Numerals.Convert | xprintf/xprintf.c:188-193 | the digit loop stops at the end of the number or of the buffer |
| Numerals.DigitsValue | xprintf/xprintf.c:188-193 | the digits that fit stand for the number modulo radix^24 |
| Numerals.DecimalFits | xprintf/xprintf.c:189-194 | a decimal has at most ten digits, so the sign never overruns the buffer |
| Numerals.Atoi | xprintf/xprintf.c:377-430 | cursor, value and success are those of the reference parse |
| Numerals.ScanDigits | xprintf/xprintf.c:414-425 | the digit loop, in unsigned char and 32-bit arithmetic |
| Numerals.ScanMeans | xprintf/xprintf.c:414-425 | the loop stops at the first character that is no digit, which is success if it is not above a space, and has the value of the digits modulo 2^32 |
| Numerals.DigitOfMeans | xprintf/xprintf.c:415-421 | a character is a digit below 16 if and only if it is 0 to 9, A to F, a to f or one of the six behind 9, which stand for 10 to 15 |
| Numerals.ParseMeans | xprintf/xprintf.c:377-430 | a word without sign is read if and only if it is a decimal without leading 0, or digits of the right radix behind 0, 0x or 0b; it is then read to its end as the number it stands for |
| Numerals.SpacesAndMinus | xprintf/xprintf.c:385-392 | spaces in front are skipped; a minus directly in front of a word negates what the word is read as and does not change whether it is read, and in front of a space or another minus it is refused |
| Numerals.DecimalRoundTrip | xprintf/xprintf.c:185-198 | xatoi reads back what %d and %u print, padded with spaces, for all 32-bit values including the minimum |
| Numerals.PrefixedRoundTrip | xprintf/xprintf.c:377-430 | behind 0x, 0 and 0b it reads back the value modulo radix^24: the value itself unless it is binary and 2^24 or more; with spaces behind the prefix it reads 0, which is right for 0 only |
| Numerals.ZeroPaddedRoundTrip | xprintf/xprintf.c:394-408 | xatoi reads back a decimal printed with zero padding if and only if no zero was needed or the number has no sign and is below 8 |
| Numerals.ZeroPaddedDecimalIsOctal | xprintf/xprintf.c:394-408 | a witness: 10 in width 3 comes back as 8 |

## Left out

- ListBench.CalcFunc: what the two benchmark kernels return is a parameter of the model, a function of the operand and the running CRC.
- ListSort.MergeSort: insize is an unbounded integer; the C int would overflow only beyond 2^30 nodes.
- ListRound.BenchList: the checksum that core_bench_list returns, with its counts of found and missed searches, and the loops that only feed it.
- ListRound.Built: core_list_init is modelled by the contents of the list it builds, not by the insertion of the nodes.
- Queues.Queue.CopyTo: items are slots, not uxItemSize bytes; a memcpy of one item is one assignment. Items of size 0 (semaphores) are covered by the message count, mutexes by `Inheritance`.
- Queues.Queue.TrySend: queue sets, tracing and the yield decisions of the port are not modelled.
- QueueProtocol.NoLostWakeUp: no queue reset or delete, and no vTaskDelete, vTaskSuspend or xTaskAbortDelay of a woken task.
- KernelList.ReadyLists.Select: the port-optimised priority bitmap is not modelled, nor the tests that skip a switch while the scheduler is suspended.
- Delays.TickScheduler.MakeReady: ready tasks are kept as the order in which they became ready; which one runs is the subject of `KernelList.ReadyLists`.
- Delays.TickScheduler.Tick: tickless idle, the tick hook and preemption flags.
- Timers.TimerDaemon.ProcessCommand: one received command at a time; the loop over the queue is not modelled, since callbacks may keep refilling it. Pended function calls are left out.
- Timers.TimerDaemon.Perform: freeing a dynamically allocated timer when it is deleted.
- Timers.TimerDaemon.StartTimer: the followed timer may be started in any state of the daemon's lists and queue, but that earlier calls of the daemon keep such a state is proved only while some auto-reload timer is followed.
- Timers.TimerDaemon.Callback: application callbacks are a fixed function from timer and call number to the commands they send; commands from elsewhere arrive between two calls of the daemon.
- Timers.TimerDaemon.SendStart: the command queue never fills up.
- Inheritance.StepKeeps: recursive mutexes, vTaskPrioritySet and vTaskDelete are left out, and so are event lists that a priority change does not re-sort.
- EventGroups.EventGroup.SetBits: deleting a group, and setting or clearing bits from an interrupt, which only defers to these calls.
- StreamBuffers.StreamBuffer.Receive: trigger levels, task notifications and the blocking loops around send and receive.
- MessageRing.WholeMessagesOnly: a copy runs from the first byte to the last, and reading head or tail is one step.
- MessageFrames.OnlyWholeMessages: the length field is four bytes, least significant first, as size_t is on the 32-bit targets.
- PoolProtocol.RunMatches: suspending on an empty queue, its timeout and the wake-up of a suspended receiver; a receiver without a message is a step that is not enabled. A copy runs from the first byte to the last.
- MessagePool.MessageQueue.Send: the wake-up of a receiver that is suspended on the empty queue.
- MessagePool.MessageQueue.Receive: the call that does not wait; suspending on an empty queue and its timeout are left out.
- MessagePool.MessageQueue.constructor: alignment of the message size and the 16-bit width of the block count.
- Handoff.Mutex.Take: the priority of the owner is a parameter, and raising it is only reported; the retry after a signal; reset, detach and delete of RT-Thread objects; threads whose priority changes while they are suspended.
- Handoff.Mutex.Release: the priority that the old owner goes back to is only reported.
- Handoff.Event.Receive: an empty bit set, which the code refuses with an error, and an option without AND or OR, which it asserts against.
- FixedPoint.Inverse: sllsqrt, the polynomial functions and their range reduction need real analysis.
- Numerals.Print: format string parsing, %s, %c, the output device and widths of 2^32 - 1.
- Ports, interrupt masking, context switch assembly, drivers, memory allocation, shell tasks, mailboxes, co-routines and the remaining benchmarks: hardware or plumbing.
