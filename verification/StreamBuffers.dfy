/**
 * Stream and message buffers: a byte array with a head and a tail. Writing copies the bytes behind
 * the head and then moves the head; reading copies them from the tail and then moves the tail, so
 * that the other side never sees a byte that is not there.
 */
module StreamBuffers {
  import opened Basics
  import opened Words
  import opened Rings
  import opened MessageFrames

  // ----- counting bytes -----

  /** The bytes from tail to head. */
  function Distance(tail: nat, head: nat, n: nat): (r: nat)
    requires tail < n && head < n
    ensures r < n && Slot(tail + r, n) == head
  {
    if head >= tail then head - tail else head + n - tail
  }

  /** prvBytesInBuffer, in size_t arithmetic. */
  function CountBytes(length: U32, head: U32, tail: U32): U32 {
    var count := Unsigned32(Unsigned32(length + head) - tail);
    if count >= length then count - length else count
  }

  /** xStreamBufferSpacesAvailable, in size_t arithmetic. */
  function CountSpaces(length: U32, head: U32, tail: U32): U32 {
    var space := Unsigned32(Unsigned32(Unsigned32(length + tail) - head) - 1);
    if space >= length then space - length else space
  }

  /** A difference may be taken before or after wrapping. */
  lemma Wraps(a: int, b: int)
    ensures Unsigned32(Unsigned32(a) - b) == Unsigned32(a - b)
  {
    var q := a / W32;
    assert Unsigned32(a) == a - q * W32;
  }

  lemma OneWrap(x: int)
    requires 0 <= x < 2 * W32
    ensures Unsigned32(x) == if x < W32 then x else x - W32
  {
  }

  /** The counts: right if the sums fit in 32 bits, else too small by what the length is short of 2^32. */
  lemma CountsAre(length: U32, head: U32, tail: U32)
    requires head < length && tail < length
    ensures CountBytes(length, head, tail) ==
      Distance(tail, head, length) - if length + head - tail < W32 then 0 else W32 - length
    ensures CountSpaces(length, head, tail) ==
      length - 1 - Distance(tail, head, length) - if length + tail - head - 1 < W32 then 0 else W32 - length
  {
    Wraps(length + head, tail);
    Wraps(length + tail, head + 1);
    Wraps(Unsigned32(length + tail) - head, 1);
    OneWrap(length + head - tail);
    OneWrap(length + tail - head - 1);
    hide Unsigned32;
  }

  /** The counts are right exactly as long as the intermediate sums fit in 32 bits. */
  lemma CountsAreRight(length: U32, head: U32, tail: U32)
    requires head < length && tail < length
    ensures CountBytes(length, head, tail) == Distance(tail, head, length) <==> length + head - tail < W32
    ensures CountSpaces(length, head, tail) == length - 1 - Distance(tail, head, length)
      <==> length + tail - head - 1 < W32
  {
    CountsAre(length, head, tail);
    hide CountBytes;
    hide CountSpaces;
  }

  /** Bytes and spaces add up to one less than the length exactly as long as neither sum overflows. */
  lemma BytesAndSpaces(length: U32, head: U32, tail: U32)
    requires head < length && tail < length
    ensures CountBytes(length, head, tail) + CountSpaces(length, head, tail) == length - 1
      <==> length + head - tail < W32 && length + tail - head - 1 < W32
    ensures length <= W31 ==> CountBytes(length, head, tail) + CountSpaces(length, head, tail) == length - 1
  {
    CountsAre(length, head, tail);
    hide CountBytes;
    hide CountSpaces;
  }

  // ----- the bytes -----

  /** The n bytes from slot from on. */
  function Window(a: seq<Byte>, from: nat, n: nat): (r: seq<Byte>)
    requires from < |a| && n <= |a|
    ensures |r| == n
  {
    seq(n, i requires 0 <= i < n => a[Slot(from + i, |a|)])
  }

  /** a with data written from slot from on. */
  function Written(a: seq<Byte>, from: nat, data: seq<Byte>): (r: seq<Byte>)
    requires from < |a| && |data| <= |a|
    ensures |r| == |a|
  {
    seq(|a|, j requires 0 <= j < |a| =>
      if Distance(from, j, |a|) < |data| then data[Distance(from, j, |a|)] else a[j])
  }

  lemma WindowWritten(a: seq<Byte>, from: nat, data: seq<Byte>)
    requires from < |a| && |data| <= |a|
    ensures Window(Written(a, from, data), from, |data|) == data
  {
    var w := Window(Written(a, from, data), from, |data|);
    forall i | 0 <= i < |data|
      ensures w[i] == data[i]
    {
      assert Distance(from, Slot(from + i, |a|), |a|) == i;
    }
  }

  /** Writing behind the window leaves the window alone. */
  lemma WindowKept(a: seq<Byte>, from: nat, n: nat, data: seq<Byte>)
    requires from < |a| && n + |data| <= |a|
    ensures Window(Written(a, Slot(from + n, |a|), data), from, n) == Window(a, from, n)
  {
    var w := Window(Written(a, Slot(from + n, |a|), data), from, n);
    forall i | 0 <= i < n
      ensures w[i] == Window(a, from, n)[i]
    {
      assert Distance(Slot(from + n, |a|), Slot(from + i, |a|), |a|) >= |data|;
    }
  }

  lemma WindowJoin(a: seq<Byte>, from: nat, m: nat, n: nat)
    requires from < |a| && m + n <= |a|
    ensures Window(a, from, m + n) == Window(a, from, m) + Window(a, Slot(from + m, |a|), n)
  {
    var l, r := Window(a, from, m + n), Window(a, Slot(from + m, |a|), n);
    forall i | 0 <= i < n
      ensures l[m + i] == r[i]
    {
      assert l[m + i] == a[Slot(from + (m + i), |a|)];
      assert Slot(Slot(from + m, |a|) + i, |a|) == Slot(from + (m + i), |a|);
    }
  }

  lemma FirstFrame(ms: seq<Message>)
    requires (forall m :: m in ms ==> Sendable(m)) && ms != []
    ensures Sendable(ms[0]) && (forall m :: m in ms[1..] ==> Sendable(m))
    ensures var f := Frames(ms);
      && f == EncodeLength(|ms[0]|) + (ms[0] + Frames(ms[1..]))
      && f[..LENGTH_BYTES] == EncodeLength(|ms[0]|) && DecodeLength(f[..LENGTH_BYTES]) == |ms[0]|
      && f[LENGTH_BYTES..] == ms[0] + Frames(ms[1..])
  {
    assert ms[0] in ms;
    LengthRoundTrip(|ms[0]|);
    assert Frames(ms) == EncodeLength(|ms[0]|) + (ms[0] + Frames(ms[1..]));
  }

  // ----- the buffer -----

  class StreamBuffer {
    const buffer: array<Byte>
    const isMessageBuffer: bool
    var head: nat
    var tail: nat

    ghost predicate Valid()
      reads this
    {
      head < buffer.Length <= W31 && tail < buffer.Length
    }

    /** The bytes between tail and head. */
    ghost function Contents(): (r: seq<Byte>)
      requires Valid()
      reads this, buffer
      ensures |r| < buffer.Length
    {
      Window(buffer[..], tail, Distance(tail, head, buffer.Length))
    }

    constructor (storage: array<Byte>, isMessageBuffer: bool)
      requires 0 < storage.Length <= W31
      ensures Valid() && buffer == storage && this.isMessageBuffer == isMessageBuffer && Contents() == []
    {
      buffer, this.isMessageBuffer, head, tail := storage, isMessageBuffer, 0, 0;
    }

    method BytesInBuffer() returns (n: nat)
      requires Valid()
      ensures n == |Contents()|
    {
      CountsAreRight(buffer.Length, head, tail);
      n := CountBytes(buffer.Length, head, tail);
    }

    method SpacesAvailable() returns (n: nat)
      requires Valid()
      ensures n == buffer.Length - 1 - |Contents()|
    {
      CountsAreRight(buffer.Length, head, tail);
      n := CountSpaces(buffer.Length, head, tail);
    }

    /** The copying half of prvWriteBytesToBuffer: the contents do not change yet. */
    method CopyIn(data: seq<Byte>)
      requires Valid() && |Contents()| + |data| < buffer.Length
      modifies buffer
      ensures Contents() == old(Contents()) && Window(buffer[..], head, |data|) == data
    {
      ghost var was := buffer[..];
      var first := Smaller(buffer.Length - head, |data|);
      forall i | 0 <= i < first {
        buffer[head + i] := data[i];
      }
      if |data| > first {
        forall i | 0 <= i < |data| - first {
          buffer[i] := data[first + i];
        }
      }
      assert buffer[..] == Written(was, head, data);
      WindowWritten(was, head, data);
      WindowKept(was, tail, Distance(tail, head, buffer.Length), data);
    }

    /** The other half: the head moves past the n bytes that were copied. */
    method Publish(n: nat)
      requires Valid() && |Contents()| + n < buffer.Length
      modifies this`head
      ensures Valid() && tail == old(tail) && Contents() == old(Contents() + Window(buffer[..], head, n))
    {
      WindowJoin(buffer[..], tail, Distance(tail, head, buffer.Length), n);
      head := head + n;
      if head >= buffer.Length {
        head := head - buffer.Length;
      }
    }

    /** prvWriteBytesToBuffer. */
    method WriteBytes(data: seq<Byte>) returns (n: nat)
      requires Valid() && 0 < |data| && |Contents()| + |data| < buffer.Length
      modifies this`head, buffer
      ensures Valid() && n == |data| && Contents() == old(Contents()) + data && tail == old(tail)
    {
      CopyIn(data);
      Publish(|data|);
      n := |data|;
    }

    /** The copying half of prvReadBytesFromBuffer, in one piece or in two. */
    method CopyOut(count: nat) returns (data: seq<Byte>)
      requires Valid() && count <= |Contents()|
      ensures data == Contents()[..count]
    {
      var first := Smaller(buffer.Length - tail, count);
      data := buffer[tail..tail + first];
      if count > first {
        data := data + buffer[..count - first];
      }
      ghost var c := Contents()[..count];
      forall i | 0 <= i < count
        ensures data[i] == c[i]
      {
        assert c[i] == buffer[Slot(tail + i, buffer.Length)];
      }
    }

    /** The other half: the tail moves past the bytes that were copied. */
    method Consume(count: nat)
      requires Valid() && count <= |Contents()|
      modifies this`tail
      ensures Valid() && head == old(head) && Contents() == old(Contents())[count..]
    {
      WindowJoin(buffer[..], tail, count, Distance(tail, head, buffer.Length) - count);
      tail := tail + count;
      if tail >= buffer.Length {
        tail := tail - buffer.Length;
      }
    }

    /** prvReadBytesFromBuffer, given a number of bytes known to be there. */
    method ReadBytes(maxCount: nat, bytesAvailable: nat) returns (data: seq<Byte>)
      requires Valid() && bytesAvailable <= |Contents()|
      modifies this`tail
      ensures Valid() && head == old(head)
      ensures var count := Smaller(bytesAvailable, maxCount);
        data == old(Contents())[..count] && Contents() == old(Contents())[count..]
    {
      var count := Smaller(bytesAvailable, maxCount);
      data := CopyOut(count);
      if count > 0 {
        Consume(count);
      }
    }

    /** prvWriteMessageToBuffer with the space there is: all or nothing for a message, what fits for a stream. */
    method Send(m: Message) returns (n: nat)
      requires Valid() && Sendable(m)
      modifies this`head, buffer
      ensures Valid() && tail == old(tail)
      ensures var space := buffer.Length - 1 - |old(Contents())|;
        if isMessageBuffer
        then if space >= LENGTH_BYTES + |m| then n == |m| && Contents() == old(Contents()) + Frame(m)
             else n == 0 && Contents() == old(Contents())
        else n == Smaller(|m|, space) && Contents() == old(Contents()) + m[..n]
    {
      var space := SpacesAvailable();
      var data, shouldWrite := m, false;
      if space == 0 {
      } else if !isMessageBuffer {
        shouldWrite := true;
        data := m[..Smaller(|m|, space)];
      } else if space >= LENGTH_BYTES + |m| {
        shouldWrite := true;
        var _ := WriteBytes(EncodeLength(|m|));
      }
      n := 0;
      if shouldWrite {
        n := WriteBytes(data);
      }
    }

    /**
     * xStreamBufferReceive without waiting. From a message buffer it takes exactly the first
     * message, or nothing at all if the caller's buffer is too small for it.
     */
    method Receive(bufferLength: nat, ghost ms: seq<Message>) returns (data: seq<Byte>)
      requires Valid() && (forall m :: m in ms ==> Sendable(m)) && (isMessageBuffer ==> Contents() == Frames(ms))
      modifies this`tail
      ensures Valid() && head == old(head)
      ensures if isMessageBuffer
        then if ms == [] || |ms[0]| > bufferLength then data == [] && tail == old(tail) && Contents() == old(Contents())
             else data == ms[0] && (forall m :: m in ms[1..] ==> Sendable(m)) && Contents() == Frames(ms[1..])
        else var n := Smaller(|old(Contents())|, bufferLength);
          data == old(Contents())[..n] && Contents() == old(Contents())[n..]
    {
      var available := BytesInBuffer();
      var lengthBytes := if isMessageBuffer then LENGTH_BYTES else 0;
      if ms != [] {
        FirstFrame(ms);
      }
      data := [];
      if available > lengthBytes {
        var next := bufferLength;
        if lengthBytes != 0 {
          var originalTail := tail;
          var prefix := ReadBytes(lengthBytes, available);
          next := DecodeLength(prefix);
          available := available - lengthBytes;
          if next > bufferLength {
            tail := originalTail;
            next := 0;
          }
        }
        data := ReadBytes(next, available);
      }
    }
  }
}
