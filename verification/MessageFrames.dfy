/**
 * Message buffers, seen as the bytes between tail and head: a message is its length in four
 * bytes, least significant first, followed by its data. The single writer publishes the length
 * and the data separately, and the single reader takes them separately, in any interleaving.
 */
module MessageFrames {
  import opened Basics
  import opened Words

  const LENGTH_BYTES := 4

  function EncodeLength(n: U32): (r: seq<Byte>)
    ensures |r| == LENGTH_BYTES
  {
    var n1: int, n2: int, n3: int := n / 256, n / 65536, n / 16777216;
    [n % 256, n1 % 256, n2 % 256, n3]
  }

  function DecodeLength(b: seq<Byte>): U32
    requires |b| == LENGTH_BYTES
  {
    var b0: int, b1: int, b2: int, b3: int := b[0], b[1], b[2], b[3];
    b0 + 256 * b1 + 65536 * b2 + 16777216 * b3
  }

  lemma LengthRoundTrip(n: U32)
    ensures DecodeLength(EncodeLength(n)) == n
  {
    assert n / 65536 == n / 256 / 256 && n / 16777216 == n / 256 / 256 / 256;
  }

  predicate Sendable(m: Message) { 0 < |m| < W32 }

  function Frame(m: Message): seq<Byte>
    requires Sendable(m)
  {
    EncodeLength(|m|) + m
  }

  /** The frames of several messages, one after the other. */
  function Frames(ms: seq<Message>): seq<Byte>
    requires forall m :: m in ms ==> Sendable(m)
  {
    if ms == [] then [] else Frame(ms[0]) + Frames(ms[1..])
  }

  lemma {:induction false} FramesAppend(ms: seq<Message>, m: Message)
    requires (forall x :: x in ms ==> Sendable(x)) && Sendable(m)
    ensures (forall x :: x in ms + [m] ==> Sendable(x)) && Frames(ms + [m]) == Frames(ms) + Frame(m)
  {
    if ms == [] {
      assert ms + [m] == [m];
    } else {
      FramesAppend(ms[1..], m);
      assert (ms + [m])[0] == ms[0] && (ms + [m])[1..] == ms[1..] + [m];
    }
  }

  // ----- the two sides -----

  /** The writer has published the length of a message but not yet its data. */
  datatype Writer = Idle | LengthWritten(m: Message)

  /** The reader has seen that n bytes are available, or has taken a length with n bytes left. */
  datatype Reader = Ready | Sampled(n: nat) | LengthTaken(n: nat, length: nat)

  /** content lies between tail and head; written and received are the messages so far. */
  datatype Channel = Channel(capacity: nat, content: seq<Byte>, writer: Writer, reader: Reader,
                             written: seq<Message>, received: seq<Message>)

  datatype Step = WriteLength(m: Message) | WriteData | Sample | TakeLength(bufferLength: nat) | TakeData

  predicate Enabled(c: Channel, e: Step) {
    match e
    case WriteLength(m) => c.writer.Idle? && Sendable(m) && c.capacity - |c.content| >= LENGTH_BYTES + |m|
    case WriteData => c.writer.LengthWritten?
    case Sample => c.reader.Ready?
    case TakeLength(l) => c.reader.Sampled? && |c.content| >= LENGTH_BYTES
      && DecodeLength(c.content[..LENGTH_BYTES]) <= l
    case TakeData => c.reader.LengthTaken?
  }

  function Next(c: Channel, e: Step): Channel
    requires Enabled(c, e)
  {
    match e
    case WriteLength(m) => c.(content := c.content + EncodeLength(|m|), writer := LengthWritten(m))
    case WriteData => c.(content := c.content + c.writer.m, writer := Idle, written := c.written + [c.writer.m])
    case Sample => if |c.content| > LENGTH_BYTES then c.(reader := Sampled(|c.content|)) else c
    case TakeLength(_) =>
      c.(content := c.content[LENGTH_BYTES..],
         reader := LengthTaken(if c.reader.n >= LENGTH_BYTES then c.reader.n - LENGTH_BYTES else 0,
                               DecodeLength(c.content[..LENGTH_BYTES])))
    case TakeData =>
      var count := Smaller(Smaller(c.reader.n, c.reader.length), |c.content|);
      c.(content := c.content[count..], reader := Ready, received := c.received + [c.content[..count]])
  }

  /** The lone length at the end of the content. */
  function Lone(w: Writer): seq<Byte>
  {
    if w.LengthWritten? && Sendable(w.m) then EncodeLength(|w.m|) else []
  }

  /** The messages not yet received. */
  function Rest(c: Channel): seq<Message> {
    if |c.received| <= |c.written| then c.written[|c.received|..] else []
  }

  ghost predicate Inv(c: Channel) {
    && (forall m :: m in c.written ==> Sendable(m)) && (c.writer.LengthWritten? ==> Sendable(c.writer.m))
    && c.received <= c.written
    && (forall m :: m in Rest(c) ==> Sendable(m))
    && (match c.reader
        case Ready => c.content == Frames(Rest(c)) + Lone(c.writer)
        case Sampled(n) =>
          Rest(c) != [] && LENGTH_BYTES + |Rest(c)[0]| <= n <= |c.content|
            && c.content == Frames(Rest(c)) + Lone(c.writer)
        case LengthTaken(n, length) =>
          Rest(c) != [] && length == |Rest(c)[0]| <= n <= |c.content|
          && (forall m :: m in Rest(c)[1..] ==> Sendable(m))
          && c.content == Rest(c)[0] + Frames(Rest(c)[1..]) + Lone(c.writer))
    && |c.content| + (if c.writer.LengthWritten? then |c.writer.m| else 0) <= c.capacity
  }

  function Opened(capacity: nat): Channel { Channel(capacity, [], Idle, Ready, [], []) }

  lemma WriteDataKeeps(c: Channel)
    requires Inv(c) && Enabled(c, WriteData)
    ensures Inv(Next(c, WriteData))
  {
    var r, m, rest, lone := Next(c, WriteData), c.writer.m, Rest(c), Lone(c.writer);
    assert Rest(r) == rest + [m];
    assert lone + m == Frame(m) && Lone(r.writer) == [];
    hide Frame;
    hide Lone;
    hide Rest;
    hide Frames;
    FramesAppend(rest, m);
    if c.reader.LengthTaken? {
      FramesAppend(rest[1..], m);
      assert (rest + [m])[0] == rest[0] && (rest + [m])[1..] == rest[1..] + [m];
      Regroup(rest[0], Frames(rest[1..]), lone, m);
    } else {
      Regroup([], Frames(rest), lone, m);
    }
  }

  lemma Regroup(a: seq<Byte>, b: seq<Byte>, lone: seq<Byte>, m: seq<Byte>)
    ensures a + b + lone + m == a + (b + (lone + m)) + [] && b + lone + m == b + (lone + m) + []
  {
  }

  lemma TakeLengthKeeps(c: Channel, l: nat)
    requires Inv(c) && Enabled(c, TakeLength(l))
    ensures Inv(Next(c, TakeLength(l)))
  {
    var m, later := Rest(c)[0], Rest(c)[1..];
    LengthRoundTrip(|m|);
    LengthInFront(m, later, Lone(c.writer));
    assert Rest(Next(c, TakeLength(l))) == Rest(c);
    hide Rest;
    hide Lone;
    hide Frames;
    hide EncodeLength;
    hide DecodeLength;
  }

  lemma LengthInFront(m: Message, later: seq<Message>, lone: seq<Byte>)
    requires Sendable(m) && forall x :: x in later ==> Sendable(x)
    ensures var content := Frames([m] + later) + lone;
      |EncodeLength(|m|)| == LENGTH_BYTES <= |content| && content[..LENGTH_BYTES] == EncodeLength(|m|)
      && content[LENGTH_BYTES..] == m + Frames(later) + lone
  {
    assert ([m] + later)[0] == m && ([m] + later)[1..] == later;
  }

  lemma TakeDataKeeps(c: Channel)
    requires Inv(c) && Enabled(c, TakeData)
    ensures Inv(Next(c, TakeData))
  {
    var r, m := Next(c, TakeData), Rest(c)[0];
    assert c.content == m + (Frames(Rest(c)[1..]) + Lone(c.writer));
    assert c.content[..|m|] == m;
    assert Rest(r) == Rest(c)[1..];
  }

  /** Every step keeps the channel in order: only whole messages, in the order they were written. */
  lemma StepKeeps(c: Channel, e: Step)
    requires Inv(c) && Enabled(c, e)
    ensures Inv(Next(c, e))
  {
    match e
    case WriteLength(m) =>
      assert Rest(Next(c, e)) == Rest(c);
    case WriteData => WriteDataKeeps(c);
    case Sample =>
      if |c.content| > LENGTH_BYTES {
        assert Rest(c) != [];
      }
    case TakeLength(l) => TakeLengthKeeps(c, l);
    case TakeData => TakeDataKeeps(c);
  }

  /**
   * Messages do arrive: whenever whole messages lie in the buffer, three steps of a reader whose
   * buffer is large enough, with no step of the writer in between, take exactly the next one.
   */
  lemma NextMessageArrives(c: Channel, l: nat)
    requires Inv(c) && c.reader.Ready? && Rest(c) != [] && |Rest(c)[0]| <= l
    ensures Enabled(c, Sample) && Enabled(Next(c, Sample), TakeLength(l))
    ensures var d := Next(Next(c, Sample), TakeLength(l));
      && Enabled(d, TakeData) && Next(d, TakeData).reader == Ready && Next(d, TakeData).written == c.written
      && Next(d, TakeData).received == c.received + [Rest(c)[0]]
  {
    var m, tail := Rest(c)[0], Frames(Rest(c)[1..]) + Lone(c.writer);
    assert m in Rest(c);
    LengthRoundTrip(|m|);
    assert c.content == EncodeLength(|m|) + (m + tail);
    assert c.content[..LENGTH_BYTES] == EncodeLength(|m|) && c.content[LENGTH_BYTES..] == m + tail;
    assert (m + tail)[..|m|] == m;
    hide Frames;
    hide Lone;
    hide EncodeLength;
    hide DecodeLength;
  }

  /** A message for which there is room can be written, and is then the last to be received. */
  lemma MessageIsWritten(c: Channel, m: Message)
    requires Inv(c) && c.writer.Idle? && Sendable(m) && c.capacity - |c.content| >= LENGTH_BYTES + |m|
    ensures Enabled(c, WriteLength(m)) && Enabled(Next(c, WriteLength(m)), WriteData)
    ensures var d := Next(Next(c, WriteLength(m)), WriteData);
      d.writer == Idle && d.written == c.written + [m] && d.content == c.content + Frame(m) && d.received == c.received
  {
    assert c.content + EncodeLength(|m|) + m == c.content + Frame(m);
  }

  ghost predicate IsRun(cs: seq<Channel>, es: seq<Step>) {
    && |cs| == |es| + 1 && cs[0] == Opened(cs[0].capacity)
    && forall i :: 0 <= i < |es| ==> Enabled(cs[i], es[i]) && cs[i + 1] == Next(cs[i], es[i])
  }

  lemma {:induction false} RunKeeps(cs: seq<Channel>, es: seq<Step>, n: nat)
    requires IsRun(cs, es) && n < |cs|
    ensures Inv(cs[n])
  {
    if n > 0 {
      RunKeeps(cs, es, n - 1);
      hide Inv;
      hide Enabled;
      StepKeeps(cs[n - 1], es[n - 1]);
    }
  }

  /**
   * In every interleaving of one writer with one reader whose buffer is large enough, what has been
   * received is a prefix of the messages written, byte for byte, and the rest is still in the buffer.
   */
  lemma OnlyWholeMessages(cs: seq<Channel>, es: seq<Step>, n: nat)
    requires IsRun(cs, es) && n < |cs|
    ensures cs[n].received <= cs[n].written && |cs[n].content| <= cs[n].capacity
    ensures cs[n].writer.Idle? && cs[n].reader.Ready? ==>
      (forall m :: m in Rest(cs[n]) ==> Sendable(m)) && cs[n].content == Frames(Rest(cs[n]))
  {
    RunKeeps(cs, es, n);
  }
}
