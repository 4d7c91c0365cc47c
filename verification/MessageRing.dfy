/**
 * A message buffer under one writer and one reader that interleave byte by byte: the ring with its
 * head and tail carries out the steps of the channel in `MessageFrames`. Only moving the head or the
 * tail is visible to the other side; copying a byte is not.
 */
module MessageRing {
  import opened Basics
  import opened Words
  import opened Rings
  import opened MessageFrames
  import opened StreamBuffers

  /** The writer copies the four length bytes, publishes them, then copies and publishes the data. */
  datatype Writing = Quiet | Copying(m: Message, inData: bool, done: nat)

  /** The reader samples the number of bytes, then takes the length and, once it knows that, the data. */
  datatype Reading = Waiting | Taking(n: nat, length: Option<nat>, got: seq<Byte>)

  datatype Ring = Ring(bytes: seq<Byte>, head: nat, tail: nat, writing: Writing, reading: Reading,
                       written: seq<Message>, received: seq<Message>)

  datatype RingStep = Begin(m: Message) | PutByte | Publish | Look | GetByte | Consume(bufferLength: nat)

  function Count(r: Ring): nat
    requires Shaped(r)
  {
    Distance(r.tail, r.head, |r.bytes|)
  }

  predicate Shaped(r: Ring) { r.head < |r.bytes| && r.tail < |r.bytes| }

  /** What the writer is copying. */
  function Part(w: Writing): seq<Byte>
    requires w.Copying? && Sendable(w.m)
  {
    if w.inData then w.m else EncodeLength(|w.m|)
  }

  /** How many bytes the reader is copying. */
  function Wanted(k: Reading): nat
    requires k.Taking?
  {
    if k.length == None then LENGTH_BYTES else Smaller(k.n, k.length.value)
  }

  ghost predicate RingEnabled(r: Ring, e: RingStep)
    requires Shaped(r)
  {
    match e
    case Begin(m) => r.writing.Quiet? && Sendable(m) && |r.bytes| - 1 - Count(r) >= LENGTH_BYTES + |m|
    case PutByte => r.writing.Copying? && Sendable(r.writing.m) && r.writing.done < |Part(r.writing)|
    case Publish => r.writing.Copying? && Sendable(r.writing.m) && r.writing.done == |Part(r.writing)|
    case Look => r.reading.Waiting?
    case GetByte => r.reading.Taking? && |r.reading.got| < Wanted(r.reading)
    case Consume(l) =>
      r.reading.Taking? && |r.reading.got| == Wanted(r.reading)
        && (r.reading.length == None ==> DecodeLength(r.reading.got) <= l)
  }

  function Move(at: nat, count: nat, n: nat): nat
    requires at < n && count <= n
  {
    Slot(at + count, n)
  }

  /** What the step does; offsets stay within the ring in every run. */
  ghost function RingNext(r: Ring, e: RingStep): Ring
    requires Shaped(r) && RingEnabled(r, e)
  {
    match e
    case Begin(m) => r.(writing := Copying(m, false, 0))
    case PutByte =>
      var w := r.writing;
      if w.done >= |r.bytes| then r
      else r.(bytes := Written(r.bytes, Move(r.head, w.done, |r.bytes|), [Part(w)[w.done]]),
        writing := w.(done := w.done + 1))
    case Publish =>
      var w := r.writing;
      if w.done > |r.bytes| then r
      else if w.inData then r.(head := Move(r.head, w.done, |r.bytes|), writing := Quiet, written := r.written + [w.m])
      else r.(head := Move(r.head, w.done, |r.bytes|), writing := Copying(w.m, true, 0))
    case Look => if Count(r) > LENGTH_BYTES then r.(reading := Taking(Count(r), None, [])) else r
    case GetByte =>
      var k := r.reading;
      if |k.got| >= |r.bytes| then r
      else r.(reading := k.(got := k.got + [r.bytes[Move(r.tail, |k.got|, |r.bytes|)]]))
    case Consume(_) =>
      var k := r.reading;
      if |k.got| > |r.bytes| then r
      else if k.length == None
      then r.(tail := Move(r.tail, |k.got|, |r.bytes|),
              reading := Taking(if k.n >= LENGTH_BYTES then k.n - LENGTH_BYTES else 0, Some(DecodeLength(k.got)), []))
      else r.(tail := Move(r.tail, |k.got|, |r.bytes|), reading := Waiting, received := r.received + [k.got])
  }

  // ----- the channel that a ring stands for -----

  ghost function Content(r: Ring): (c: seq<Byte>)
    requires Shaped(r)
    ensures |c| == Count(r)
  {
    Window(r.bytes, r.tail, Count(r))
  }

  ghost function AsChannel(r: Ring): Channel
    requires Shaped(r)
  {
    Channel(|r.bytes| - 1, Content(r),
            if r.writing.Copying? && r.writing.inData then LengthWritten(r.writing.m) else Idle,
            match r.reading
            case Waiting => Ready
            case Taking(n, None, _) => Sampled(n)
            case Taking(n, Some(length), _) => LengthTaken(n, length),
            r.written, r.received)
  }

  /** What has been copied is right, behind the head and from the tail on. */
  ghost predicate Copied(r: Ring)
    requires Shaped(r)
  {
    && (r.writing.Copying? ==>
          && Sendable(r.writing.m) && r.writing.done <= |Part(r.writing)|
          && Count(r) + (if r.writing.inData then 0 else LENGTH_BYTES) + |r.writing.m| < |r.bytes|
          && Window(r.bytes, r.head, r.writing.done) == Part(r.writing)[..r.writing.done])
    && (r.reading.Taking? ==>
          && |r.reading.got| <= Wanted(r.reading) <= Count(r)
          && r.reading.got == Content(r)[..|r.reading.got|])
  }

  ghost predicate RingInv(r: Ring) { Shaped(r) && Copied(r) && Inv(AsChannel(r)) }

  // ----- the writer's steps -----

  /** Writing one byte extends what has been written. */
  lemma ByteWritten(a: seq<Byte>, from: nat, part: seq<Byte>, done: nat)
    requires from < |a| && done < |part| < |a| && Window(a, from, done) == part[..done]
    ensures var b := Written(a, Move(from, done, |a|), [part[done]]);
      Window(b, from, done + 1) == part[..done + 1]
  {
    var b := Written(a, Move(from, done, |a|), [part[done]]);
    WindowKept(a, from, done, [part[done]]);
    WindowWritten(a, Move(from, done, |a|), [part[done]]);
    WindowJoin(b, from, done, 1);
    assert part[..done + 1] == part[..done] + [part[done]];
  }

  lemma PutKeeps(r: Ring)
    requires RingInv(r) && RingEnabled(r, PutByte)
    ensures var q := RingNext(r, PutByte);
      RingInv(q) && AsChannel(q) == AsChannel(r) && q.writing == r.writing.(done := r.writing.done + 1)
  {
    hide Inv;
    hide Window;
    hide Written;
    hide Distance;
    hide Slot;
    var q, w, n := RingNext(r, PutByte), r.writing, |r.bytes|;
    assert w.done < |Part(w)| < n;
    ByteWritten(r.bytes, r.head, Part(w), w.done);
    HeadBehind(r.tail, Count(r), w.done, n);
    WindowKept(r.bytes, r.tail, Count(r) + w.done, [Part(w)[w.done]]);
    WindowJoin(q.bytes, r.tail, Count(r), w.done);
    WindowJoin(r.bytes, r.tail, Count(r), w.done);
    assert Window(q.bytes, r.tail, Count(r)) == Window(q.bytes, r.tail, Count(r) + w.done)[..Count(r)];
    assert Window(r.bytes, r.tail, Count(r)) == Window(r.bytes, r.tail, Count(r) + w.done)[..Count(r)];
  }

  lemma HeadBehind(tail: nat, count: nat, done: nat, n: nat)
    requires tail < n && count + done < n
    ensures Slot(Slot(tail + count, n) + done, n) == Slot(tail + (count + done), n)
  {
  }

  /** Moving the head makes what was copied visible. */
  lemma Published(r: Ring, count: nat)
    requires Shaped(r) && Count(r) + count < |r.bytes|
    ensures var h := Move(r.head, count, |r.bytes|);
      Distance(r.tail, h, |r.bytes|) == Count(r) + count
      && Window(r.bytes, r.tail, Count(r) + count) == Content(r) + Window(r.bytes, r.head, count)
  {
    WindowJoin(r.bytes, r.tail, Count(r), count);
    hide Window;
  }

  lemma PublishKeeps(r: Ring)
    requires RingInv(r) && RingEnabled(r, Publish)
    ensures var q, w := RingNext(r, Publish), r.writing;
      var e := if w.inData then WriteData else WriteLength(w.m);
      RingInv(q) && Enabled(AsChannel(r), e) && AsChannel(q) == Next(AsChannel(r), e)
  {
    var q, w := RingNext(r, Publish), r.writing;
    var e := if w.inData then WriteData else WriteLength(w.m);
    Published(r, w.done);
    assert Part(w)[..w.done] == Part(w);
    assert Window(q.bytes, q.head, 0) == [];
    hide Inv;
    hide Window;
    hide Distance;
    hide Slot;
    assert Content(q) == Content(r) + Part(w);
    assert AsChannel(q) == Next(AsChannel(r), e);
    StepKeeps(AsChannel(r), e);
  }

  // ----- the reader's steps -----

  lemma ContentAt(r: Ring, k: nat)
    requires Shaped(r) && k < Count(r)
    ensures Content(r)[k] == r.bytes[Move(r.tail, k, |r.bytes|)]
  {
  }

  lemma GetKeeps(r: Ring)
    requires RingInv(r) && RingEnabled(r, GetByte)
    ensures var q := RingNext(r, GetByte);
      RingInv(q) && AsChannel(q) == AsChannel(r)
      && q.reading.Taking? && |q.reading.got| == |r.reading.got| + 1 && q.reading.length == r.reading.length
  {
    hide Inv;
    hide Window;
    hide Distance;
    hide Slot;
    var q, k := RingNext(r, GetByte), r.reading;
    ContentAt(r, |k.got|);
    assert Content(r)[..|k.got| + 1] == Content(r)[..|k.got|] + [Content(r)[|k.got|]];
  }

  /** Moving the tail drops what was copied. */
  lemma Consumed(r: Ring, count: nat)
    requires Shaped(r) && count <= Count(r)
    ensures var u := Move(r.tail, count, |r.bytes|);
      Distance(u, r.head, |r.bytes|) == Count(r) - count
      && Window(r.bytes, u, Count(r) - count) == Content(r)[count..]
  {
    WindowJoin(r.bytes, r.tail, count, Count(r) - count);
    hide Window;
  }

  lemma ConsumeKeeps(r: Ring, l: nat)
    requires RingInv(r) && RingEnabled(r, Consume(l))
    ensures var q := RingNext(r, Consume(l));
      var e := if r.reading.length == None then TakeLength(l) else TakeData;
      RingInv(q) && Enabled(AsChannel(r), e) && AsChannel(q) == Next(AsChannel(r), e)
  {
    var q, k := RingNext(r, Consume(l)), r.reading;
    var e := if k.length == None then TakeLength(l) else TakeData;
    Consumed(r, |k.got|);
    hide Window;
    hide Distance;
    hide Slot;
    assert Content(q) == Content(r)[|k.got|..];
    assert AsChannel(q) == Next(AsChannel(r), e);
    StepKeeps(AsChannel(r), e);
    if k.length == None {
      LengthTakenFits(AsChannel(q));
    }
    hide Inv;
  }

  /** Behind a length that was taken lies its message. */
  lemma LengthTakenFits(c: Channel)
    requires Inv(c) && c.reader.LengthTaken?
    ensures c.reader.length <= c.reader.n <= |c.content|
  {
  }

  lemma SampledFits(c: Channel)
    requires Inv(c) && c.reader.Sampled?
    ensures LENGTH_BYTES <= c.reader.n <= |c.content|
  {
  }

  // ----- every step -----

  /** Every step of the ring is a step of the channel or invisible to it. */
  lemma RingStepKeeps(r: Ring, e: RingStep)
    requires RingInv(r) && RingEnabled(r, e)
    ensures RingInv(RingNext(r, e))
    ensures AsChannel(RingNext(r, e)) == AsChannel(r)
      || exists f :: Enabled(AsChannel(r), f) && AsChannel(RingNext(r, e)) == Next(AsChannel(r), f)
  {
    match e
    case Begin(m) =>
      hide Inv;
      assert Window(r.bytes, r.head, 0) == [];
    case PutByte => PutKeeps(r);
    case Publish =>
      PublishKeeps(r);
    case Look =>
      StepKeeps(AsChannel(r), Sample);
      assert AsChannel(RingNext(r, e)) == Next(AsChannel(r), Sample);
      if Count(r) > LENGTH_BYTES {
        SampledFits(AsChannel(RingNext(r, e)));
      }
      hide Inv;
    case GetByte => GetKeeps(r);
    case Consume(l) => ConsumeKeeps(r, l);
  }

  /**
   * Whoever is in the middle of a copy can go on: either the next byte can be copied, or all of them
   * are and head or tail can be moved, the tail if the reader's buffer is large enough.
   */
  lemma NeverStuck(r: Ring, l: nat)
    requires RingInv(r)
    ensures r.writing.Copying? ==> (RingEnabled(r, PutByte) <==> !RingEnabled(r, Publish))
    ensures r.reading.Taking? && Rest(AsChannel(r)) != [] && |Rest(AsChannel(r))[0]| <= l ==>
      (RingEnabled(r, GetByte) <==> !RingEnabled(r, Consume(l)))
  {
    hide Frames;
    hide Lone;
    hide Window;
    hide Distance;
    if r.reading.Taking? && r.reading.length == None && |r.reading.got| == LENGTH_BYTES {
      LengthSeen(AsChannel(r), r.reading.got);
    }
  }

  /** The first four bytes that a reader finds are the length of the next message. */
  lemma LengthSeen(c: Channel, got: seq<Byte>)
    requires Inv(c) && c.reader.Sampled? && |c.content| >= LENGTH_BYTES == |got| && got == c.content[..LENGTH_BYTES]
    ensures Rest(c) != [] && DecodeLength(got) == |Rest(c)[0]|
  {
    var m, later := Rest(c)[0], Rest(c)[1..];
    assert m in Rest(c) && [m] + later == Rest(c);
    LengthRoundTrip(|m|);
    LengthInFront(m, later, Lone(c.writer));
    hide Frames;
    hide Lone;
    hide Rest;
    hide EncodeLength;
    hide DecodeLength;
  }

  ghost predicate IsRingRun(rs: seq<Ring>, es: seq<RingStep>) {
    && |rs| == |es| + 1 && rs[0] == Ring(rs[0].bytes, 0, 0, Quiet, Waiting, [], []) && |rs[0].bytes| > 0
    && forall i :: 0 <= i < |es| ==> Shaped(rs[i]) && RingEnabled(rs[i], es[i]) && rs[i + 1] == RingNext(rs[i], es[i])
  }

  lemma {:induction false} RingRunKeeps(rs: seq<Ring>, es: seq<RingStep>, n: nat)
    requires IsRingRun(rs, es) && n < |rs|
    ensures RingInv(rs[n])
  {
    if n == 0 {
      assert Content(rs[0]) == [];
    } else {
      RingRunKeeps(rs, es, n - 1);
      hide RingInv;
      hide RingNext;
      hide RingEnabled;
      RingStepKeeps(rs[n - 1], es[n - 1]);
    }
  }

  /**
   * In every byte-by-byte interleaving of one writer and one reader, wrapped or not: what has been
   * received are the first of the messages written, and between calls the ring holds the frames of the rest.
   */
  lemma WholeMessagesOnly(rs: seq<Ring>, es: seq<RingStep>, n: nat)
    requires IsRingRun(rs, es) && n < |rs|
    ensures Shaped(rs[n]) && rs[n].received <= rs[n].written
    ensures rs[n].writing.Quiet? && rs[n].reading.Waiting? ==>
      (forall m :: m in Rest(AsChannel(rs[n])) ==> Sendable(m)) && Content(rs[n]) == Frames(Rest(AsChannel(rs[n])))
  {
    RingRunKeeps(rs, es, n);
  }
}
