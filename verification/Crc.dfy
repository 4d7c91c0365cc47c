/**
 * The 16-bit CRC of the benchmark: the routines that update it, its algebra over GF(2),
 * and schoolbook polynomial division as an independent definition.
 */
module Crc {
  import opened Basics
  import opened Powers

  /** The register as its bits, bit 0 first. */
  type Register = c: seq<bool> | |c| == 16
    witness [false, false, false, false, false, false, false, false,
             false, false, false, false, false, false, false, false]

  // ----- the routines -----

  /** One pass of the inner loop: 0x4002 is bits 1 and 14, the carry becomes bit 15. */
  function StepBit(bit: bool, crc: Register): Register {
    var x16 := bit != crc[0];
    var c := if x16 then crc[1 := !crc[1]][14 := !crc[14]] else crc;
    c[1..] + [x16]
  }

  /** Consume bits in order. */
  function Feed(bits: seq<bool>, crc: Register): Register {
    if bits == [] then crc else Feed(bits[1..], StepBit(bits[0], crc))
  }

  /** The n low bits of a value, least significant first. */
  function Bits(value: nat, n: nat): (r: seq<bool>)
    ensures |r| == n
    decreases n
  {
    if n == 0 then [] else [value % 2 == 1] + Bits(value / 2, n - 1)
  }

  /** Bit i of a value has the weight 2^i. */
  lemma {:induction false} BitAt(value: nat, n: nat, i: nat)
    requires i < n
    ensures Bits(value, n)[i] <==> value / Pow2(i) % 2 == 1
    decreases i
  {
    if i > 0 {
      BitAt(value / 2, n - 1, i - 1);
      HalveFirst(value, Pow2(i - 1));
    }
  }

  lemma HalveFirst(value: nat, p: int)
    requires p >= 1
    ensures value / 2 / p == value / (2 * p)
  {
    var q := value / 2 / p;
    DivisionIs(value, 2 * p, q, value - q * (2 * p));
  }

  /** crcu8. */
  method Byte(data: nat, crc: Register) returns (r: Register)
    requires data < 0x100
    ensures r == Feed(Bits(data, 8), crc)
  {
    r := crc;
    var d := data;
    for i := 0 to 8
      invariant Feed(Bits(d, 8 - i), r) == Feed(Bits(data, 8), crc)
    {
      var x16 := (d % 2 == 1) != r[0];
      ghost var before := r;
      assert Bits(d, 8 - i)[1..] == Bits(d / 2, 8 - i - 1);
      d := d / 2;
      if x16 {
        r := r[1 := !r[1]][14 := !r[14]];
      }
      r := r[1..] + [false];
      if x16 {
        r := r[15 := true];
      } else {
        r := r[15 := false];
      }
      assert r == StepBit(x16 != before[0], before);
    }
  }

  /** crcu16 and crc16: low byte, then high byte. */
  method Half(value: nat, crc: Register) returns (r: Register)
    requires value < 0x1_0000
    ensures r == Feed(Bits(value, 16), crc)
  {
    r := Byte(value % 0x100, crc);
    r := Byte(value / 0x100, r);
    BitsSplit(value, 8, 8, 0x100, value / 0x100, value % 0x100);
    FeedConcat(Bits(value % 0x100, 8), Bits(value / 0x100, 8), crc);
  }

  /** crcu32: low half, then high half. */
  method Word(value: nat, crc: Register) returns (r: Register)
    requires value < 0x1_0000_0000
    ensures r == Feed(Bits(value, 32), crc)
  {
    r := Half(value % 0x1_0000, crc);
    r := Half(value / 0x1_0000, r);
    PowerOf16();
    BitsSplit(value, 16, 16, 0x1_0000, value / 0x1_0000, value % 0x1_0000);
    FeedConcat(Bits(value % 0x1_0000, 16), Bits(value / 0x1_0000, 16), crc);
  }

  lemma {:induction false} PowerOf16()
    ensures Pow2(16) == 0x1_0000
  {
    assert Pow2(8) == 0x100;
  }

  /** The bits of p * q + r, with p = 2^m and r below it, are the bits of r and then those of q. */
  lemma {:induction false} BitsSplit(value: nat, m: nat, n: nat, p: nat, q: nat, r: nat)
    requires p == Pow2(m) && value == p * q + r && r < p
    ensures Bits(value, m + n) == Bits(r, m) + Bits(q, n)
    decreases m
  {
    if m == 0 {
      assert value == q;
    } else {
      var h := Pow2(m - 1);
      assert value == 2 * (h * q) + r;
      BitsSplit(value / 2, m - 1, n, h, q, r / 2);
    }
  }

  lemma {:induction false} FeedConcat(a: seq<bool>, b: seq<bool>, crc: Register)
    ensures Feed(a + b, crc) == Feed(b, Feed(a, crc))
  {
    if a == [] {
      assert a + b == b;
    } else {
      assert (a + b)[1..] == a[1..] + b;
      FeedConcat(a[1..], b, StepBit(a[0], crc));
    }
  }

  // ----- linearity -----

  function Xor(a: seq<bool>, b: seq<bool>): (r: seq<bool>)
    requires |a| == |b|
    ensures |r| == |a|
    ensures forall i :: 0 <= i < |a| ==> r[i] == (a[i] != b[i])
  {
    seq(|a|, i requires 0 <= i < |a| => a[i] != b[i])
  }

  lemma StepLinear(x: bool, y: bool, c: Register, d: Register)
    ensures StepBit(x != y, Xor(c, d)) == Xor(StepBit(x, c), StepBit(y, d))
  {
  }

  /** The register is a linear function of data and initial value together. */
  lemma {:induction false} Linear(a: seq<bool>, b: seq<bool>, c: Register, d: Register)
    requires |a| == |b|
    ensures Feed(Xor(a, b), Xor(c, d)) == Xor(Feed(a, c), Feed(b, d))
  {
    if a != [] {
      StepLinear(a[0], b[0], c, d);
      assert Xor(a, b)[1..] == Xor(a[1..], b[1..]);
      Linear(a[1..], b[1..], StepBit(a[0], c), StepBit(b[0], d));
    }
  }

  lemma StepInjective(x: bool, c: Register, d: Register)
    requires StepBit(x, c) == StepBit(x, d)
    ensures c == d
  {
    var s, t := StepBit(x, c), StepBit(x, d);
    assert s[15] == t[15];
    forall j {:trigger c[j]} | 1 <= j < 16
      ensures c[j] == d[j]
    {
      assert s[j - 1] == t[j - 1];
    }
    assert c == d;
  }

  /** Equal data from different registers leaves different registers. */
  lemma {:induction false} Injective(a: seq<bool>, c: Register, d: Register)
    requires Feed(a, c) == Feed(a, d)
    ensures c == d
  {
    if a != [] {
      Injective(a[1..], StepBit(a[0], c), StepBit(a[0], d));
      StepInjective(a[0], c, d);
    }
  }

  // ----- burst detection -----

  const ZERO: Register := [false, false, false, false, false, false, false, false,
                           false, false, false, false, false, false, false, false]

  ghost predicate AllFalse(s: seq<bool>) { forall i :: 0 <= i < |s| ==> !s[i] }

  lemma {:induction false} ZerosKeepZero(a: seq<bool>)
    requires AllFalse(a)
    ensures Feed(a, ZERO) == ZERO
  {
    if a != [] {
      assert StepBit(a[0], ZERO) == ZERO;
      ZerosKeepZero(a[1..]);
    }
  }

  /** A set bit needs more steps than its number to leave the register without trace. */
  lemma {:induction false} HighBitLasts(a: seq<bool>, c: Register, k: nat)
    requires |a| <= k < 16 && c[k]
    ensures Feed(a, c) != ZERO
  {
    if a == [] {
      assert !ZERO[k];
    } else {
      var d := StepBit(a[0], c);
      if d[15] {
        HighBitLasts(a[1..], d, 15);
      } else {
        assert d[k - 1];
        HighBitLasts(a[1..], d, k - 1);
      }
    }
  }

  /** Any non-zero window of at most 16 bits leaves a cleared register non-zero. */
  lemma {:induction false} WindowLeavesTrace(w: seq<bool>)
    requires |w| <= 16 && !AllFalse(w)
    ensures Feed(w, ZERO) != ZERO
  {
    if w[0] {
      assert StepBit(true, ZERO)[15];
      HighBitLasts(w[1..], StepBit(true, ZERO), 15);
    } else {
      assert StepBit(false, ZERO) == ZERO;
      assert !AllFalse(w[1..]);
      WindowLeavesTrace(w[1..]);
    }
  }

  /** A difference confined to one window, fed to a cleared register. */
  lemma DifferenceLeavesTrace(d: seq<bool>, at: nat, len: nat)
    requires len <= 16 && at + len <= |d|
    requires AllFalse(d[..at]) && !AllFalse(d[at..at + len]) && AllFalse(d[at + len..])
    ensures Feed(d, ZERO) != ZERO
  {
    var head, w, tail := d[..at], d[at..at + len], d[at + len..];
    assert d == head + (w + tail);
    FeedConcat(head, w + tail, ZERO);
    FeedConcat(w, tail, ZERO);
    ZerosKeepZero(head);
    WindowLeavesTrace(w);
    ZerosKeepZero(tail);
    if Feed(tail, Feed(w, ZERO)) == ZERO {
      Injective(tail, Feed(w, ZERO), ZERO);
    }
  }

  lemma DifferenceInWindow(a: seq<bool>, b: seq<bool>, at: nat, len: nat)
    requires |a| == |b| && a != b && at + len <= |a|
    requires forall i :: 0 <= i < |a| && !(at <= i < at + len) ==> a[i] == b[i]
    ensures var d := Xor(a, b); AllFalse(d[..at]) && !AllFalse(d[at..at + len]) && AllFalse(d[at + len..])
  {
    var d := Xor(a, b);
    var k :| 0 <= k < |a| && a[k] != b[k];
    assert d[at..at + len][k - at] == d[k];
  }

  /** Data that differ, and only inside one window of 16 consecutive bits, get different CRCs. */
  lemma BurstDetected(a: seq<bool>, b: seq<bool>, crc: Register, at: nat, len: nat)
    requires |a| == |b| && a != b
    requires len <= 16 && at + len <= |a|
    requires forall i :: 0 <= i < |a| && !(at <= i < at + len) ==> a[i] == b[i]
    ensures Feed(a, crc) != Feed(b, crc)
  {
    hide Feed;
    var d := Xor(a, b);
    DifferenceInWindow(a, b, at, len);
    DifferenceLeavesTrace(d, at, len);
    Linear(a, b, crc, crc);
    assert Xor(crc, crc) == ZERO;
    var s, t := Feed(a, crc), Feed(b, crc);
    assert Xor(s, t) != ZERO;
    var j :| 0 <= j < 16 && Xor(s, t)[j] != ZERO[j];
    assert s[j] != t[j];
  }

  /** A window of 17 bits is too wide: the generator itself goes unnoticed. */
  lemma WiderBurstMissed(crc: Register)
    ensures var g := [true] + GENERATOR; |g| == 17 && Feed(g, crc) == Feed(Zeros(17), crc)
  {
    var g := [true] + GENERATOR;
    GeneratorVanishes(g);
    hide Feed;
    Linear(g, Zeros(17), ZERO, crc);
    XorZeros(g);
    XorZero(crc);
    XorZero(Feed(Zeros(17), crc));
    hide Xor;
    hide Zeros;
  }

  lemma XorZeros(a: seq<bool>)
    ensures Xor(a, Zeros(|a|)) == a
  {
  }

  lemma XorZero(a: Register)
    ensures Xor(ZERO, a) == a
  {
  }

  lemma GeneratorVanishes(g: seq<bool>)
    requires g == [true] + GENERATOR
    ensures Feed(g, ZERO) == ZERO
  {
    IsRemainder(g, ZERO);
    var d := Dividend(g, ZERO);
    assert d == g + Zeros(16);
    assert d[1..] == GENERATOR + Zeros(16);
    assert AddToFront(d[1..], GENERATOR) == Zeros(32);
    RemainderOfZeros(32);
  }

  lemma {:induction false} RemainderOfZeros(n: nat)
    requires n >= 16
    ensures Remainder(Zeros(n)) == ZERO
  {
    if n == 16 {
      assert Zeros(16) == ZERO;
    } else {
      assert Zeros(n)[1..] == Zeros(n - 1);
      RemainderOfZeros(n - 1);
    }
  }

  // ----- the polynomial remainder -----

  /** The coefficients of x^15 .. x^0 of x^16 + x^15 + x^2 + 1. */
  const GENERATOR: Register := [true, false, false, false, false, false, false, false,
                                false, false, false, false, false, true, false, true]

  /** Adds g to the leading coefficients of d. */
  function AddToFront(d: seq<bool>, g: seq<bool>): (r: seq<bool>)
    requires |g| <= |d|
    ensures |r| == |d|
  {
    Xor(d[..|g|], g) + d[|g|..]
  }

  /** Schoolbook division: the remainder of a polynomial, leading coefficient first. */
  function Remainder(d: seq<bool>): seq<bool>
    requires |d| >= 16
    ensures |Remainder(d)| == 16
    decreases |d|
  {
    if |d| == 16 then d
    else if d[0] then Remainder(AddToFront(d[1..], GENERATOR))
    else Remainder(d[1..])
  }

  function Zeros(n: nat): (r: seq<bool>)
    ensures |r| == n && AllFalse(r)
  {
    seq(n, i => false)
  }

  /** The message times x^16, first processed bit leading, plus the register at the front. */
  function Dividend(bits: seq<bool>, crc: Register): seq<bool> {
    AddToFront(bits + Zeros(16), crc)
  }

  /** Cancelling the leading coefficient is one step of the register. */
  lemma DivisionStep(bits: seq<bool>, crc: Register)
    requires bits != [] && bits[0] != crc[0]
    ensures AddToFront(Dividend(bits, crc)[1..], GENERATOR) == Dividend(bits[1..], StepBit(bits[0], crc))
  {
    var s, t := AddToFront(Dividend(bits, crc)[1..], GENERATOR), Dividend(bits[1..], StepBit(bits[0], crc));
    var m := bits + Zeros(16);
    assert m[1..] == bits[1..] + Zeros(16);
    forall i | 0 <= i < |s|
      ensures s[i] == t[i]
    {
      if i < 15 {
        assert Dividend(bits, crc)[i + 1] == (m[i + 1] != crc[i + 1]);
      }
    }
  }

  /** The register, bit 0 leading, is the remainder of the dividend: the reflected CRC. */
  lemma {:induction false} IsRemainder(bits: seq<bool>, crc: Register)
    ensures Feed(bits, crc) == Remainder(Dividend(bits, crc))
  {
    var d := Dividend(bits, crc);
    if bits == [] {
      assert d == crc;
    } else {
      var next := StepBit(bits[0], crc);
      var e := Dividend(bits[1..], next);
      assert d[0] == (bits[0] != crc[0]);
      if d[0] {
        DivisionStep(bits, crc);
      } else {
        assert d[1..] == e;
      }
      IsRemainder(bits[1..], next);
    }
  }
}
