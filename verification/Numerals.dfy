/**
 * The numeric conversions of xprintf and the parser xatoi. Characters are byte values; a string
 * is the bytes before its terminating zero.
 */
module Numerals {
  import opened Basics
  import opened Words

  const SPACE: Byte := 0x20
  const MINUS: Byte := 0x2d
  const ZERO: Byte := 0x30
  const LOWER_X: Byte := 0x78
  const LOWER_B: Byte := 0x62
  const BUFFER := 24

  // ----- digits -----

  /** At most k digits of n, the least significant first; leading zeros only if k cuts the number off. */
  function LowDigits(n: nat, r: nat, k: nat): (ds: seq<nat>)
    requires r >= 2
    ensures |ds| <= k && (k > 0 ==> |ds| > 0)
    ensures forall i :: 0 <= i < |ds| ==> ds[i] < r
    decreases k
  {
    if k == 0 then [] else [n % r] + if n / r == 0 then [] else LowDigits(n / r, r, k - 1)
  }

  function Power(r: nat, k: nat): nat { if k == 0 then 1 else r * Power(r, k - 1) }

  /** The number that digits with the most significant first stand for, continuing from v. */
  function Horner(ds: seq<nat>, r: nat, v: nat): nat
    decreases |ds|
  {
    if ds == [] then v else Horner(ds[1..], r, v * r + ds[0])
  }

  lemma {:induction false} HornerAppend(ds: seq<nat>, d: nat, r: nat, v: nat)
    ensures Horner(ds + [d], r, v) == Horner(ds, r, v) * r + d
    decreases |ds|
  {
    if ds == [] {
      assert ds + [d] == [d];
    } else {
      assert (ds + [d])[0] == ds[0] && (ds + [d])[1..] == ds[1..] + [d];
      HornerAppend(ds[1..], d, r, v * r + ds[0]);
    }
  }

  /** The digits that fit stand for the number modulo r to the number of places. */
  lemma {:induction false} DigitsValue(n: nat, r: nat, k: nat)
    requires r >= 2
    ensures Power(r, k) > 0 && Horner(Reverse(LowDigits(n, r, k)), r, 0) == n % Power(r, k)
    decreases k
  {
    if k > 0 {
      DigitsValue(n / r, r, k - 1);
      var p := Power(r, k - 1);
      SplitRemainder(n, r, p);
      assert Power(r, k) == r * p;
      hide Power;
      var later := if n / r == 0 then [] else LowDigits(n / r, r, k - 1);
      LowDigitsFirst(n, r, k, later);
      hide LowDigits;
      HornerAppend(Reverse(later), n % r, r, 0);
      if n / r == 0 {
        DivisionIs(n / r, p, 0, 0);
      }
      hide Horner;
      hide Reverse;
    }
  }

  lemma LowDigitsFirst(n: nat, r: nat, k: nat, later: seq<nat>)
    requires r >= 2 && k > 0 && later == (if n / r == 0 then [] else LowDigits(n / r, r, k - 1))
    ensures Reverse(LowDigits(n, r, k)) == Reverse(later) + [n % r]
    ensures n / r == 0 ==> Horner(Reverse(later), r, 0) == 0
  {
    assert ([n % r] + later)[1..] == later;
  }

  /** Division in two steps. */
  lemma SplitRemainder(n: nat, r: nat, p: nat)
    requires r > 0 && p > 0
    ensures r * p > 0 && n % (r * p) == (n / r % p) * r + n % r
  {
    var q, a, b := n / r / p, n / r % p, n % r;
    assert n == (q * p + a) * r + b;
    var m := a * r + b;
    assert a * r <= (p - 1) * r;
    assert m < r * p;
    Rearrange(q, p, a, r, b);
    DivisionIs(n, r * p, q, m);
  }

  lemma Rearrange(q: int, p: int, a: int, r: int, b: int)
    ensures (q * p + a) * r + b == q * (r * p) + (a * r + b)
  {
  }

  lemma {:induction false} HornerWrap(ds: seq<nat>, r: nat, v: nat)
    ensures Unsigned32(Horner(ds, r, Unsigned32(v))) == Unsigned32(Horner(ds, r, v))
    decreases |ds|
  {
    if ds != [] {
      var a, b := Unsigned32(v) * r + ds[0], v * r + ds[0];
      WrapStep(v, r, ds[0]);
      HornerWrap(ds[1..], r, a);
      HornerWrap(ds[1..], r, b);
    }
  }

  lemma WrapStep(v: nat, r: nat, d: nat)
    ensures Unsigned32(Unsigned32(v) * r + d) == Unsigned32(v * r + d)
  {
    var q := v / W32;
    assert v == q * W32 + Unsigned32(v);
    Distribute(q, W32, Unsigned32(v), r);
    WrapMultiple(Unsigned32(v) * r + d, q * r);
  }

  lemma Distribute(q: int, w: int, u: int, r: int)
    ensures (q * w + u) * r == (q * r) * w + u * r
  {
  }

  lemma WrapMultiple(x: int, k: int)
    ensures Unsigned32(x + k * W32) == Unsigned32(x)
  {
  }

  // ----- the printer -----

  datatype Conversion = Decimal | UnsignedDecimal | Hexadecimal(lower: bool) | Octal | Binary

  /** How the minimum width is reached: spaces in front, zeros in front, or spaces behind. */
  datatype Padding = Spaces | Zeros | Left

  function Radix(c: Conversion): (r: nat)
    ensures 2 <= r <= 16
  {
    match c
    case Decimal => 10
    case UnsignedDecimal => 10
    case Hexadecimal(_) => 16
    case Octal => 8
    case Binary => 2
  }

  /** The character of a digit. */
  function DigitChar(d: nat, lower: bool): Byte
    requires d < 16
  {
    if d > 9 then d + ZERO + (if lower then 0x27 else 0x07) else d + ZERO
  }

  function Chars(ds: seq<nat>, lower: bool): (r: seq<Byte>)
    requires forall i :: 0 <= i < |ds| ==> ds[i] < 16
    ensures |r| == |ds|
  {
    seq(|ds|, i requires 0 <= i < |ds| => DigitChar(ds[i], lower))
  }

  function Lower(c: Conversion): bool { c.Hexadecimal? && c.lower }

  function Negative(c: Conversion, v: S32): bool { c.Decimal? && v < 0 }

  /** What is converted: the magnitude for a signed conversion, else the word itself. */
  function Magnitude(c: Conversion, v: S32): U32
  {
    if Negative(c, v) then Unsigned32(Signed32(0 - v)) else Unsigned32(v)
  }

  function Digits(c: Conversion, v: S32): (ds: seq<nat>)
    ensures 0 < |ds| <= BUFFER && forall i :: 0 <= i < |ds| ==> ds[i] < Radix(c)
  {
    Reverse(LowDigits(Magnitude(c, v), Radix(c), BUFFER))
  }

  function Body(c: Conversion, v: S32): seq<Byte> {
    (if Negative(c, v) then [MINUS] else []) + Chars(Digits(c, v), Lower(c))
  }

  function Repeat(b: Byte, n: int): (r: seq<Byte>)
    ensures |r| == if n > 0 then n else 0
  {
    if n <= 0 then [] else [b] + Repeat(b, n - 1)
  }

  /** The text that a conversion prints. */
  function Printed(c: Conversion, v: S32, pad: Padding, w: nat): seq<Byte> {
    var body := Body(c, v);
    match pad
    case Left => body + Repeat(SPACE, w - |body|)
    case Spaces => Repeat(SPACE, w - |body|) + body
    case Zeros => Repeat(ZERO, w - |body|) + body
  }

  /** A number below r to the m has at most m digits. */
  lemma {:induction false} DigitsBound(n: nat, r: nat, k: nat, m: nat)
    requires r >= 2 && m > 0 && n < Power(r, m)
    ensures |LowDigits(n, r, k)| <= m
    decreases m
  {
    if k > 0 {
      Shrinks(n, r, Power(r, m - 1));
      if m > 1 {
        DigitsBound(n / r, r, k - 1, m - 1);
      }
    }
  }

  lemma Shrinks(n: nat, r: nat, p: nat)
    requires r > 0 && n < r * p
    ensures n / r < p
  {
    var q := n / r;
    assert q * r <= n;
    assert q >= p ==> q * r >= p * r;
  }

  lemma DecimalFits(n: U32)
    ensures |LowDigits(n, 10, BUFFER)| <= 10
  {
    assert Power(10, 10) == 10000000000;
    DigitsBound(n, 10, BUFFER, 10);
  }

  /** The numeric part of xvprintf: digits into a buffer from the back, then padding, sign and digits out. */
  method Print(c: Conversion, v: S32, pad: Padding, w: nat) returns (out: seq<Byte>)
    ensures out == Printed(c, v, pad, w)
  {
    var r := Radix(c);
    hide LowDigits;
    hide Reverse;
    hide Chars;
    hide Repeat;
    var u: int, negative := v, false;
    if c.Decimal? && u < 0 {
      u := Signed32(0 - u);
      negative := true;
    }
    var vs: nat := Unsigned32(u);
    ghost var n: U32 := vs;
    assert n == Magnitude(c, v) && negative == Negative(c, v);
    hide Magnitude;
    hide Negative;
    hide Signed32;
    hide Unsigned32;
    var s := new Byte[BUFFER];
    var i := Convert(vs, r, Lower(c), s);
    if negative {
      DecimalFits(n);
    }
    out := Emit(s, i, negative, pad, w, LowDigits(n, r, BUFFER), Lower(c));
  }

  /** One digit of ds, and what the others are. */
  lemma DigitAt(ds: seq<nat>, i: nat, n: nat, r: nat, k: nat)
    requires r >= 2 && k > 0 && i <= |ds| && ds[i..] == LowDigits(n, r, k)
    ensures i < |ds| && ds[i] == Remainder(n, r)
    ensures if Quotient(n, r) == 0 || k == 1 then i + 1 == |ds| else ds[i + 1..] == LowDigits(Quotient(n, r), r, k - 1)
  {
    FirstDigit(n, r, k);
    hide LowDigits;
    assert ds[i..][0] == ds[i] && ds[i..][1..] == ds[i + 1..];
  }

  /** Digits into the buffer, the least significant first, until the number or the buffer runs out. */
  method Convert(n: U32, r: nat, lower: bool, s: array<Byte>) returns (i: nat)
    requires 2 <= r <= 16 && s.Length > 0
    modifies s
    ensures i == |LowDigits(n, r, s.Length)| > 0
    ensures forall k :: 0 <= k < i ==> s[k] == DigitChar(LowDigits(n, r, s.Length)[k], lower)
  {
    ghost var ds := LowDigits(n, r, s.Length);
    var vs: nat := n;
    i := 0;
    hide LowDigits;
    hide DigitChar;
    hide Quotient;
    hide Remainder;
    while true
      invariant i < s.Length && i <= |ds| && ds[i..] == LowDigits(vs, r, s.Length - i)
      invariant forall k :: 0 <= k < i ==> s[k] == DigitChar(ds[k], lower)
      decreases s.Length - i
    {
      DigitAt(ds, i, vs, r, s.Length - i);
      var d;
      d, vs := NextDigit(vs, r);
      s[i] := PutDigit(d, lower);
      i := i + 1;
      if vs == 0 || i >= s.Length {
        break;
      }
    }
  }

  function Quotient(n: nat, r: nat): nat
    requires r > 0
  {
    n / r
  }

  function Remainder(n: nat, r: nat): (m: nat)
    requires r > 0
    ensures m < r
  {
    n % r
  }

  method NextDigit(n: nat, r: nat) returns (digit: nat, rest: nat)
    requires r > 0
    ensures digit == Remainder(n, r) && rest == Quotient(n, r)
  {
    digit, rest := n % r, n / r;
  }

  method PutDigit(digit: nat, lower: bool) returns (c: Byte)
    requires digit < 16
    ensures c == DigitChar(digit, lower)
  {
    var d := digit;
    if d > 9 {
      d := d + if lower then 0x27 else 0x07;
    }
    c := d + ZERO;
  }

  lemma FirstDigit(n: nat, r: nat, k: nat)
    requires r >= 2 && k > 0
    ensures var ds := LowDigits(n, r, k);
      && ds[0] == Remainder(n, r)
      && ds[1..] == if Quotient(n, r) == 0 || k == 1 then [] else LowDigits(Quotient(n, r), r, k - 1)
  {
  }

  /** The output half: padding, then the buffer from its end to its start. */
  method Emit(s: array<Byte>, count: nat, negative: bool, pad: Padding, w: nat, ghost ds: seq<nat>, ghost lower: bool)
    returns (out: seq<Byte>)
    requires s.Length == BUFFER && 0 < count == |ds| <= BUFFER && (negative ==> count < BUFFER)
    requires forall k :: 0 <= k < count ==> ds[k] < 16 && s[k] == DigitChar(ds[k], lower)
    modifies s
    ensures var body := (if negative then [MINUS] else []) + Chars(Reverse(ds), lower);
      out == match pad
        case Left => body + Repeat(SPACE, w - |body|)
        case Spaces => Repeat(SPACE, w - |body|) + body
        case Zeros => Repeat(ZERO, w - |body|) + body
  {
    hide *;
    var i := count;
    if negative {
      s[i] := MINUS;
      i := i + 1;
    }
    BufferReversed(s[..i], ds, negative, lower);
    var j := i;
    out := [];
    if pad != Left {
      out, j := Fill(if pad == Zeros then ZERO else SPACE, j, w);
      j := j + 1;
    }
    var text := CopyBack(s, i);
    var behind;
    behind, j := Fill(SPACE, j, w);
    Nothing(SPACE, w - i);
    out := out + text + behind;
  }

  lemma BufferReversed(t: seq<Byte>, ds: seq<nat>, negative: bool, lower: bool)
    requires |t| == (if negative then |ds| + 1 else |ds|) && (negative ==> t[|ds|] == MINUS)
    requires forall k :: 0 <= k < |ds| ==> ds[k] < 16 && t[k] == DigitChar(ds[k], lower)
    ensures Reverse(t) == (if negative then [MINUS] else []) + Chars(Reverse(ds), lower)
  {
    hide Reverse;
    hide DigitChar;
    var r := Reverse(t);
    if negative {
      assert r[0] == MINUS && r[1..] == Chars(Reverse(ds), lower);
      assert r == [r[0]] + r[1..];
    } else {
      assert r == Chars(Reverse(ds), lower);
    }
  }

  lemma Nothing(b: Byte, n: int)
    ensures n <= 0 ==> Repeat(b, n) == []
    ensures forall m: int :: m <= 0 ==> Repeat(b, m) == []
  {
  }

  /** The padding loops: characters from column j up to the width. */
  method Fill(b: Byte, j: nat, w: nat) returns (out: seq<Byte>, next: nat)
    ensures out == Repeat(b, w - j) && next == if j < w then w else j
  {
    out, next := [], j;
    while next < w
      invariant j <= next && (next <= w || next == j) && out == Repeat(b, next - j)
    {
      RepeatMore(b, next - j);
      out := out + [b];
      next := next + 1;
    }
  }

  /** The characters of the buffer from the last to the first. */
  method CopyBack(s: array<Byte>, count: nat) returns (out: seq<Byte>)
    requires 0 < count <= s.Length
    ensures out == Reverse(s[..count])
  {
    var i := count;
    ghost var back := Reverse(s[..count]);
    out := [];
    while i != 0
      invariant i <= count && out == back[..count - i]
    {
      i := i - 1;
      assert back[..count - i] == back[..count - i - 1] + [back[count - i - 1]];
      out := out + [s[i]];
    }
    assert back[..count] == back;
  }

  lemma {:induction false} RepeatMore(b: Byte, n: nat)
    ensures Repeat(b, n + 1) == Repeat(b, n) + [b]
  {
    if n > 0 {
      RepeatMore(b, n - 1);
    }
  }

  // ----- the parser -----

  /** The byte at a place, 0 at the end of the string. */
  function At(s: seq<Byte>, i: nat): Byte { if i < |s| then s[i] else 0 }

  /** The digit that the parser makes of a character, in unsigned char arithmetic; large if it is none. */
  function DigitOf(c: Byte): Byte {
    var upper := if c >= 0x61 then c - 0x20 else c;
    var d: int := (upper - ZERO) % 256;
    if d >= 17 then d - 7 else d
  }

  datatype Parsed = Parsed(ok: bool, value: S32, at: nat)

  function SkipSpaces(s: seq<Byte>, i: nat): nat
    decreases |s| - i
  {
    if i < |s| && s[i] == SPACE then SkipSpaces(s, i + 1) else i
  }

  /** Digits up to a character that is not above the space. */
  function Scan(s: seq<Byte>, i: nat, r: nat, value: U32): (bool, U32, nat)
    decreases |s| - i
  {
    if i >= |s| || s[i] <= SPACE then (true, value, i)
    else if DigitOf(s[i]) >= r then (false, value, i)
    else Scan(s, i + 1, r, Unsigned32(value * r + DigitOf(s[i])))
  }

  function Finish(scan: (bool, U32, nat), negative: bool): Parsed {
    if scan.0 then Parsed(true, Signed32(if negative then 0 - scan.1 else scan.1), scan.2) else Parsed(false, 0, scan.2)
  }

  function Parse(s: seq<Byte>, start: nat): Parsed {
    var i0 := SkipSpaces(s, start);
    var negative := At(s, i0) == MINUS;
    var i := if negative then i0 + 1 else i0;
    var c := At(s, i);
    if c == ZERO then
      var d := At(s, i + 1);
      if d == LOWER_X then Finish(Scan(s, i + 2, 16, 0), negative)
      else if d == LOWER_B then Finish(Scan(s, i + 2, 2, 0), negative)
      else if d <= SPACE then Parsed(true, 0, i + 1)
      else if d < ZERO || d > 0x39 then Parsed(false, 0, i + 1)
      else Finish(Scan(s, i + 1, 8, 0), negative)
    else if c < ZERO || c > 0x39 then Parsed(false, 0, i)
    else Finish(Scan(s, i, 10, 0), negative)
  }

  /** xatoi: the cursor, the result and whether it succeeded. */
  method Atoi(s: seq<Byte>, start: nat) returns (ok: bool, res: S32, at: nat)
    requires start <= |s|
    ensures Parsed(ok, res, at) == Parse(s, start)
  {
    ghost var target := Parse(s, start);
    at, res, ok := start, 0, false;
    while At(s, at) == SPACE
      invariant start <= at <= |s| && SkipSpaces(s, at) == SkipSpaces(s, start)
      decreases |s| - at
    {
      at := at + 1;
    }
    var c := At(s, at);
    var sign := false;
    if c == MINUS {
      sign := true;
      at := at + 1;
      c := At(s, at);
    }
    var r := 10;
    if c == ZERO {
      at := at + 1;
      c := At(s, at);
      if c == LOWER_X {
        r := 16;
        at := at + 1;
      } else if c == LOWER_B {
        r := 2;
        at := at + 1;
      } else {
        if c <= SPACE {
          ok := true;
          return;
        }
        if c < ZERO || c > 0x39 {
          return;
        }
        r := 8;
      }
    } else if c < ZERO || c > 0x39 {
      return;
    }
    var val: U32;
    ok, val, at := ScanDigits(s, at, r);
    if ok {
      res := Signed32(if sign then 0 - val else val);
    }
  }

  /** The digit loop of xatoi. */
  method ScanDigits(s: seq<Byte>, start: nat, r: nat) returns (ok: bool, val: U32, at: nat)
    requires 2 <= r <= 16 && start <= |s|
    ensures (ok, val, at) == Scan(s, start, r, 0)
  {
    at, val := start, 0;
    while At(s, at) > SPACE
      invariant start <= at <= |s| && Scan(s, at, r, val) == Scan(s, start, r, 0)
      decreases |s| - at
    {
      var c: int := At(s, at);
      if c >= 0x61 {
        c := c - 0x20;
      }
      c := (c - ZERO) % 256;
      if c >= 17 {
        c := c - 7;
        if c <= 9 {
          ok := false;
          return;
        }
      }
      if c >= r {
        ok := false;
        return;
      }
      val := Unsigned32(val * r + c);
      at := at + 1;
    }
    ok := true;
  }

  // ----- what the conversions mean -----

  const LOWER_DIGITS := "0123456789abcdef"
  const UPPER_DIGITS := "0123456789ABCDEF"

  lemma DigitCharIs(d: nat, lower: bool)
    requires d < 16
    ensures DigitChar(d, lower) == (if lower then LOWER_DIGITS else UPPER_DIGITS)[d] as int
  {
    var all := [0, 1, 2, 3, 4, 5, 6, 7, 8, 9, 10, 11, 12, 13, 14, 15];
    assert all[d] == d;
  }

  /** The number as printed: a minus sign if it needs one, and the digits, in lower case only for %x. */
  lemma BodyMeans(c: Conversion, v: S32)
    ensures |Body(c, v)| == |Digits(c, v)| + if c == Decimal && v < 0 then 1 else 0
    ensures c == Decimal && v < 0 ==> Body(c, v)[0] == '-' as int
    ensures forall k :: 0 <= k < |Digits(c, v)| ==>
      Body(c, v)[|Body(c, v)| - |Digits(c, v)| + k] ==
        (if c == Hexadecimal(true) then LOWER_DIGITS else UPPER_DIGITS)[Digits(c, v)[k]] as int
  {
    var ds := Digits(c, v);
    hide Digits;
    forall k | 0 <= k < |ds|
      ensures DigitChar(ds[k], Lower(c)) == (if Lower(c) then LOWER_DIGITS else UPPER_DIGITS)[ds[k]] as int
    {
      DigitCharIs(ds[k], Lower(c));
    }
    hide DigitChar;
  }

  /** The digits stand for the magnitude of a signed number, or for the word, as far as 24 of them can. */
  lemma DigitsStandFor(c: Conversion, v: S32)
    ensures Radix(c) == if c.Hexadecimal? then 16 else if c.Octal? then 8 else if c.Binary? then 2 else 10
    ensures Power(Radix(c), BUFFER) > 0
    ensures var n: int := v;
      Horner(Digits(c, v), Radix(c), 0) ==
        (if n >= 0 then n else if c == Decimal then -n else n + W32) % Power(Radix(c), BUFFER)
  {
    DigitsMean(c, v);
    MagnitudeIs(c, v);
    hide Power;
    hide Horner;
    hide Digits;
    hide Magnitude;
  }

  lemma MagnitudeIs(c: Conversion, v: S32)
    ensures var n: int := v;
      Magnitude(c, v) == if n >= 0 then n else if c == Decimal then -n else n + W32
  {
  }

  /** The padding: up to the width, on the side and with the character that the flags name. */
  lemma PrintedMeans(c: Conversion, v: S32, pad: Padding, w: nat)
    ensures var body, out := Body(c, v), Printed(c, v, pad, w);
      && |out| == (if w > |body| then w else |body|)
      && (pad == Left ==> out[..|body|] == body && (forall k :: |body| <= k < |out| ==> out[k] == ' ' as int))
      && (pad != Left ==> out[|out| - |body|..] == body)
      && (pad == Spaces ==> forall k :: 0 <= k < |out| - |body| ==> out[k] == ' ' as int)
      && (pad == Zeros ==> forall k :: 0 <= k < |out| - |body| ==> out[k] == '0' as int)
  {
    hide Body;
    hide Repeat;
    var n := w - |Body(c, v)|;
    RepeatsOnly(SPACE, n);
    RepeatsOnly(ZERO, n);
  }

  lemma {:induction false} RepeatsOnly(b: Byte, n: int)
    ensures forall k :: 0 <= k < |Repeat(b, n)| ==> Repeat(b, n)[k] == b
    decreases n
  {
    if n > 0 {
      RepeatsOnly(b, n - 1);
    }
  }

  /**
   * What the parser takes for a digit. The test for a character between 9 and A never refuses one, so that
   * the six characters behind 9 stand for 10 to 15 where the radix is 16.
   */
  lemma DigitOfMeans(c: Byte)
    ensures DigitOf(c) < 16 <==>
      '0' as int <= c <= '?' as int || 'A' as int <= c <= 'F' as int || 'a' as int <= c <= 'f' as int
    ensures DigitOf(c) < 16 ==>
      DigitOf(c) == c - (if c <= '?' as int then '0' as int else if c <= 'F' as int then 0x37 else 0x57)
  {
  }

  predicate AllDigits(t: seq<Byte>, r: nat) { forall k :: 0 <= k < |t| ==> DigitOf(t[k]) < r }

  function Values(t: seq<Byte>): (ds: seq<nat>)
    ensures |ds| == |t|
  {
    seq(|t|, k requires 0 <= k < |t| => DigitOf(t[k]) as nat)
  }

  /** Where the digit loop stops, what it has read, and whether that is success. */
  lemma {:induction false} ScanMeans(s: seq<Byte>, i: nat, r: nat, v: U32)
    requires 2 <= r <= 16 && i <= |s|
    ensures var (ok, value, at) := Scan(s, i, r, v);
      && i <= at <= |s| && (forall k :: i <= k < at ==> DigitOf(s[k]) < r) && (at < |s| ==> DigitOf(s[at]) >= r)
      && (ok <==> at == |s| || s[at] <= SPACE) && value == Unsigned32(Horner(Values(s[i..at]), r, v))
    decreases |s| - i
  {
    hide *;
    ScanOnce(s, i, r, v);
    if i < |s| && DigitOf(s[i]) < r {
      var v2 := v * r + DigitOf(s[i]);
      ScanMeans(s, i + 1, r, Unsigned32(v2));
      var at := Scan(s, i, r, v).2;
      ValuesFirst(s, i, at);
      HornerFirst(Values(s[i..at]), r, v);
      HornerWrap(Values(s[i + 1..at]), r, v2);
    } else {
      ValuesFirst(s, i, i);
      HornerFirst([], r, v);
    }
  }

  lemma ScanOnce(s: seq<Byte>, i: nat, r: nat, v: U32)
    requires 2 <= r <= 16 && i <= |s|
    ensures Scan(s, i, r, v) ==
      if i < |s| && DigitOf(s[i]) < r then Scan(s, i + 1, r, Unsigned32(v * r + DigitOf(s[i])))
      else (i == |s| || s[i] <= SPACE, v, i)
    ensures Unsigned32(v) == v
  {
    if i < |s| {
      DigitOfMeans(s[i]);
    }
  }

  lemma ValuesFirst(s: seq<Byte>, i: nat, at: nat)
    requires i <= at <= |s|
    ensures Values(s[i..at]) == if i == at then [] else [DigitOf(s[i])] + Values(s[i + 1..at])
  {
    hide DigitOf;
  }

  /** The words that xatoi accepts: a decimal without a leading 0, or digits behind 0, 0x or 0b. */
  predicate Numeral(t: seq<Byte>) {
    t != [] &&
    if t[0] != '0' as int then t[0] > '0' as int && AllDigits(t, 10)
    else if |t| > 1 && t[1] == 'x' as int then AllDigits(t[2..], 16)
    else if |t| > 1 && t[1] == 'b' as int then AllDigits(t[2..], 2)
    else AllDigits(t[1..], 8)
  }

  function NumberOf(t: seq<Byte>): nat
    requires Numeral(t)
  {
    if t[0] != '0' as int then Horner(Values(t), 10, 0)
    else if |t| > 1 && t[1] == 'x' as int then Horner(Values(t[2..]), 16, 0)
    else if |t| > 1 && t[1] == 'b' as int then Horner(Values(t[2..]), 2, 0)
    else Horner(Values(t[1..]), 8, 0)
  }

  /** s[i..j] is all up to the next character that is not above the space, or to the end. */
  predicate IsWord(s: seq<Byte>, i: nat, j: nat) {
    i <= j <= |s| && (forall k :: i <= k < j ==> s[k] > SPACE) && (j < |s| ==> s[j] <= SPACE)
  }

  lemma ScanWord(s: seq<Byte>, i: nat, j: nat, r: nat)
    requires 2 <= r <= 16 && IsWord(s, i, j)
    ensures if AllDigits(s[i..j], r) then Scan(s, i, r, 0) == (true, Unsigned32(Horner(Values(s[i..j]), r, 0)), j)
      else !Scan(s, i, r, 0).0
  {
    ScanMeans(s, i, r, 0);
    hide Scan;
    hide Horner;
    hide Values;
    hide DigitOf;
    if j < |s| {
      DigitOfMeans(s[j]);
    }
    var at := Scan(s, i, r, 0).2;
    if at < j {
      assert s[at] == s[i..j][at - i];
    }
  }

  /** A word that starts with neither space nor minus is read if and only if it is a numeral. */
  lemma ParseMeans(s: seq<Byte>, i: nat, j: nat)
    requires IsWord(s, i, j) && At(s, i) != SPACE && At(s, i) != MINUS
    ensures if Numeral(s[i..j]) then Parse(s, i) == Parsed(true, Signed32(NumberOf(s[i..j])), j)
      else !Parse(s, i).ok && Parse(s, i).value == 0
  {
    if At(s, i) == ZERO {
      BehindZero(s, i, j);
    } else if i < j {
      ScanWord(s, i, j, 10);
      DigitOfMeans(s[i]);
    }
    hide Scan;
    hide Horner;
    hide Values;
    hide DigitOf;
    hide Signed32;
    hide Unsigned32;
  }

  lemma BehindZero(s: seq<Byte>, i: nat, j: nat)
    requires IsWord(s, i, j) && At(s, i) == ZERO
    ensures if Numeral(s[i..j]) then Parse(s, i) == Parsed(true, Signed32(NumberOf(s[i..j])), j)
      else !Parse(s, i).ok && Parse(s, i).value == 0
  {
    hide Numeral;
    hide NumberOf;
    hide Parse;
    if i + 1 < j && (s[i + 1] == LOWER_X || s[i + 1] == LOWER_B) {
      BehindPrefix(s, i, j);
    } else {
      OctalWord(s, i, j);
    }
  }

  lemma BehindPrefix(s: seq<Byte>, i: nat, j: nat)
    requires IsWord(s, i, j) && i + 1 < j && s[i] == ZERO && (s[i + 1] == LOWER_X || s[i + 1] == LOWER_B)
    ensures if Numeral(s[i..j]) then Parse(s, i) == Parsed(true, Signed32(NumberOf(s[i..j])), j)
      else !Parse(s, i).ok && Parse(s, i).value == 0
  {
    var t, r := s[i..j], if s[i + 1] == LOWER_X then 16 else 2;
    AtZero(s, i);
    PrefixedNumeral(t, r);
    assert t[2..] == s[i + 2..j];
    ScanWord(s, i + 2, j, r);
    hide *;
    FinishWord(Scan(s, i + 2, r, 0));
  }

  lemma PrefixedNumeral(t: seq<Byte>, r: nat)
    requires |t| > 1 && t[0] == ZERO && ((t[1] == LOWER_X && r == 16) || (t[1] == LOWER_B && r == 2))
    ensures (Numeral(t) <==> AllDigits(t[2..], r)) && (Numeral(t) ==> NumberOf(t) == Horner(Values(t[2..]), r, 0))
  {
    hide AllDigits;
    hide Horner;
    hide Values;
  }

  lemma FinishWord(scan: (bool, U32, nat))
    ensures Finish(scan, false) == if scan.0 then Parsed(true, Signed32(scan.1), scan.2) else Parsed(false, 0, scan.2)
    ensures forall n: int {:trigger Unsigned32(n)} :: Signed32(Unsigned32(n)) == Signed32(n)
  {
  }

  lemma OctalWord(s: seq<Byte>, i: nat, j: nat)
    requires IsWord(s, i, j) && i < j && s[i] == ZERO
    requires i + 1 < j ==> s[i + 1] != LOWER_X && s[i + 1] != LOWER_B
    ensures if Numeral(s[i..j]) then Parse(s, i) == Parsed(true, Signed32(NumberOf(s[i..j])), j)
      else !Parse(s, i).ok && Parse(s, i).value == 0
  {
    AtZero(s, i);
    var t := s[i..j];
    hide Parse;
    hide Scan;
    hide Horner;
    hide Values;
    hide DigitOf;
    hide Signed32;
    hide Unsigned32;
    assert t[1..] == s[i + 1..j];
    ScanWord(s, i + 1, j, 8);
    if i + 1 < j {
      DigitOfMeans(s[i + 1]);
      assert t[1..][0] == s[i + 1];
    } else {
      assert t[1..] == [] && Values(t[1..]) == [];
      NoDigits();
    }
  }

  lemma NoDigits()
    ensures Horner([], 8, 0) == 0 && Signed32(0) == 0
  {
  }

  lemma AtZero(s: seq<Byte>, i: nat)
    requires At(s, i) == ZERO
    ensures var d := At(s, i + 1);
      Parse(s, i) ==
        if d == LOWER_X then Finish(Scan(s, i + 2, 16, 0), false)
        else if d == LOWER_B then Finish(Scan(s, i + 2, 2, 0), false)
        else if d <= SPACE then Parsed(true, 0, i + 1)
        else if d < ZERO || d > 0x39 then Parsed(false, 0, i + 1)
        else Finish(Scan(s, i + 1, 8, 0), false)
  {
    hide Scan;
    hide Finish;
  }

  /** Spaces in front are skipped, and a minus right in front of a word negates what the word is read as. */
  lemma SpacesAndMinus(s: seq<Byte>, start: nat, i: nat)
    requires start <= i <= |s| && forall k :: start <= k < i ==> s[k] == SPACE
    ensures Parse(s, start) ==
      if At(s, i) != MINUS then Parse(s, i)
      else if At(s, i + 1) == SPACE || At(s, i + 1) == MINUS then Parsed(false, 0, i + 1)
      else var p := Parse(s, i + 1); p.(value := Signed32(0 - p.value))
  {
    SpacesSkipped(s, start, i);
    if At(s, i) == MINUS {
      MinusNegates(s, i);
    }
    hide Parse;
  }

  lemma {:induction false} SpacesSkipped(s: seq<Byte>, start: nat, i: nat)
    requires start <= i <= |s| && forall k :: start <= k < i ==> s[k] == SPACE
    ensures SkipSpaces(s, start) == SkipSpaces(s, i)
    decreases i - start
  {
    if start < i {
      SpacesSkipped(s, start + 1, i);
    }
  }

  lemma MinusNegates(s: seq<Byte>, i: nat)
    requires At(s, i) == MINUS
    ensures Parse(s, i) ==
      if At(s, i + 1) == SPACE || At(s, i + 1) == MINUS then Parsed(false, 0, i + 1)
      else var p := Parse(s, i + 1); p.(value := Signed32(0 - p.value))
  {
    hide Scan;
    hide Finish;
    hide Signed32;
    forall scan: (bool, U32, nat) {:trigger Finish(scan, true)}
      ensures Finish(scan, true) == Finish(scan, false).(value := Signed32(0 - Finish(scan, false).value))
    {
      FinishNegates(scan);
    }
    NegatedWord(0);
  }

  lemma FinishNegates(scan: (bool, U32, nat))
    ensures Finish(scan, true) == Finish(scan, false).(value := Signed32(0 - Finish(scan, false).value))
  {
    NegatedWord(scan.1);
    hide Signed32;
  }

  lemma NegatedWord(x: U32)
    ensures Signed32(0 - Signed32(x)) == Signed32(0 - x) && Signed32(0) == 0
  {
  }

  // ----- round trips -----

  lemma DigitBack(d: nat, lower: bool)
    requires d < 16
    ensures DigitOf(DigitChar(d, lower)) == d && DigitChar(d, lower) > SPACE
    ensures d < 10 ==> ZERO <= DigitChar(d, lower) <= 0x39
  {
  }

  predicate EndsNumber(tail: seq<Byte>) { tail == [] || tail[0] <= SPACE }

  /** Scanning the characters of digits gives the number modulo 2^32. */
  lemma {:induction false} ScanChars(s: seq<Byte>, i: nat, ds: seq<nat>, lower: bool, tail: seq<Byte>, r: nat, v: U32)
    requires 2 <= r <= 16 && (forall k :: 0 <= k < |ds| ==> ds[k] < r) && EndsNumber(tail)
    requires i <= |s| && s[i..] == Chars(ds, lower) + tail
    ensures Scan(s, i, r, v) == (true, Unsigned32(Horner(ds, r, v)), i + |ds|)
    decreases |ds|
  {
    hide Scan;
    hide DigitChar;
    hide Unsigned32;
    hide Horner;
    hide Chars;
    hide EndsNumber;
    HornerFirst(ds, r, v);
    if ds == [] {
      assert Chars(ds, lower) + tail == tail;
      ScanEnd(s, i, r, v, tail);
    } else {
      CharsFirst(s, i, ds, lower, tail);
      ScanStep(s, i, r, v, ds[0], lower);
      var v2 := v * r + ds[0];
      ScanChars(s, i + 1, ds[1..], lower, tail, r, Unsigned32(v2));
      HornerWrap(ds[1..], r, v2);
    }
  }

  lemma HornerFirst(ds: seq<nat>, r: nat, v: nat)
    ensures Horner(ds, r, v) == if ds == [] then v else Horner(ds[1..], r, v * r + ds[0])
  {
  }

  lemma ScanEnd(s: seq<Byte>, i: nat, r: nat, v: U32, tail: seq<Byte>)
    requires i <= |s| && s[i..] == tail && EndsNumber(tail)
    ensures Scan(s, i, r, v) == (true, v, i) && Unsigned32(v) == v
  {
    assert i < |s| ==> s[i] == s[i..][0];
  }

  lemma ScanStep(s: seq<Byte>, i: nat, r: nat, v: U32, d: nat, lower: bool)
    requires 2 <= r <= 16 && d < r && i < |s| && s[i] == DigitChar(d, lower)
    ensures Scan(s, i, r, v) == Scan(s, i + 1, r, Unsigned32(v * r + d))
  {
    DigitBack(d, lower);
  }

  lemma CharsFirst(s: seq<Byte>, i: nat, ds: seq<nat>, lower: bool, tail: seq<Byte>)
    requires ds != [] && (forall k :: 0 <= k < |ds| ==> ds[k] < 16) && i <= |s| && s[i..] == Chars(ds, lower) + tail
    ensures i < |s| && s[i] == DigitChar(ds[0], lower) && s[i + 1..] == Chars(ds[1..], lower) + tail
  {
    assert s[i] == s[i..][0];
    assert s[i + 1..] == s[i..][1..];
  }

  lemma {:induction false} SkipsAll(s: seq<Byte>, i: nat, n: nat, rest: seq<Byte>)
    requires i <= |s| && s[i..] == Repeat(SPACE, n) + rest && (rest == [] || rest[0] != SPACE)
    ensures SkipSpaces(s, i) == i + n && s[i + n..] == rest
    decreases n
  {
    if n == 0 {
      assert s[i..] == rest;
      assert i < |s| ==> s[i] == s[i..][0];
    } else {
      assert s[i] == s[i..][0] == SPACE;
      assert s[i + 1..] == s[i..][1..] == Repeat(SPACE, n - 1) + rest;
      SkipsAll(s, i + 1, n - 1, rest);
    }
  }

  lemma {:induction false} PowerGrows(r: nat, a: nat, b: nat)
    requires r >= 1 && a <= b
    ensures 0 < Power(r, a) <= Power(r, b)
    decreases b
  {
    if a < b {
      PowerGrows(r, a, b - 1);
      Times(r, Power(r, b - 1));
    } else if a > 0 {
      PowerGrows(r, a - 1, b - 1);
      Times(r, Power(r, b - 1));
    }
  }

  lemma Times(r: nat, p: nat)
    requires r >= 1 && p >= 1
    ensures r * p >= p
  {
  }

  /** 24 places hold every 32-bit number, except in binary. */
  lemma BufferHolds(c: Conversion)
    requires !c.Binary?
    ensures Power(Radix(c), BUFFER) >= W32
  {
    assert Power(8, 11) == 8589934592 && Power(10, 10) == 10000000000 && Power(16, 8) == W32;
    var k: nat :| k == BUFFER;
    PowerGrows(8, 11, k);
    PowerGrows(10, 10, k);
    PowerGrows(16, 8, k);
  }

  /** The digits printed stand for the magnitude modulo r to the 24. */
  lemma DigitsMean(c: Conversion, v: S32)
    ensures Power(Radix(c), BUFFER) > 0
    ensures Horner(Digits(c, v), Radix(c), 0) == Magnitude(c, v) % Power(Radix(c), BUFFER)
  {
    var k: nat :| k == BUFFER;
    DigitsValue(Magnitude(c, v), Radix(c), k);
  }

  /** The first digit of a number that fits is not 0, unless the number is 0. */
  lemma {:induction false} LeadingDigit(n: nat, r: nat, k: nat)
    requires r >= 2 && k > 0 && 0 < n < Power(r, k)
    ensures Reverse(LowDigits(n, r, k))[0] != 0
    decreases k
  {
    var ds := LowDigits(n, r, k);
    if n / r == 0 {
      DivisionIs(n, r, 0, n % r);
    } else {
      Shrinks(n, r, Power(r, k - 1));
      LeadingDigit(n / r, r, k - 1);
    }
  }

  /** Signed and unsigned readings of a word. */
  lemma SignedBack(v: S32)
    ensures Signed32(Unsigned32(v)) == v
    ensures v < 0 ==> Unsigned32(Signed32(0 - v)) == 0 - v && Signed32(0 - (0 - v)) == v
  {
  }

  /** Where scanning starts with the first of some digits at i. */
  lemma ScanDigitsOf(s: seq<Byte>, i: nat, c: Conversion, v: S32, tail: seq<Byte>)
    requires EndsNumber(tail) && i <= |s| && s[i..] == Chars(Digits(c, v), Lower(c)) + tail
    ensures Power(Radix(c), BUFFER) > 0
    ensures Scan(s, i, Radix(c), 0) == (true, Magnitude(c, v) % Power(Radix(c), BUFFER), i + |Digits(c, v)|)
    ensures At(s, i) == DigitChar(Digits(c, v)[0], Lower(c))
  {
    hide Digits;
    hide Power;
    var ds := Digits(c, v);
    CharsFirst(s, i, ds, Lower(c), tail);
    ScanChars(s, i, ds, Lower(c), tail, Radix(c), 0);
    DigitsMean(c, v);
    AtMost(Magnitude(c, v), Power(Radix(c), BUFFER));
  }

  lemma AtMost(n: U32, p: nat)
    requires p > 0
    ensures Unsigned32(n % p) == n % p
  {
    assert n % p <= n;
  }

  /** A decimal number, with its sign, parses to the value printed. */
  lemma BodyParses(s: seq<Byte>, start: nat, i: nat, c: Conversion, v: S32, tail: seq<Byte>)
    requires (c.Decimal? || c.UnsignedDecimal?) && EndsNumber(tail)
    requires SkipSpaces(s, start) == i <= |s| && s[i..] == Body(c, v) + tail
    ensures Parse(s, start) == Parsed(true, v, i + |Body(c, v)|)
  {
    var negative, n, ds := Negative(c, v), Magnitude(c, v), Digits(c, v);
    var j := if negative then i + 1 else i;
    hide Power;
    hide LowDigits;
    FirstOf(c, v);
    SignedBack(v);
    assert if negative then n == 0 - v else n == Unsigned32(v);
    SignFirst(s, i, negative, Chars(ds, Lower(c)), tail);
    ScanDigitsOf(s, j, c, v, tail);
    BufferHolds(c);
    DivisionIs(n, Power(Radix(c), BUFFER), 0, n);
    DigitBack(ds[0], Lower(c));
    hide Digits;
    hide Magnitude;
    hide Scan;
    hide Chars;
    hide SkipSpaces;
    hide EndsNumber;
    if n == 0 {
      LoneDigit(s, j, Chars(ds, Lower(c)), tail);
    } else {
      assert At(s, j) != ZERO && ZERO < At(s, j) <= 0x39;
    }
  }

  lemma SignFirst(s: seq<Byte>, i: nat, negative: bool, text: seq<Byte>, tail: seq<Byte>)
    requires i <= |s| && s[i..] == (if negative then [MINUS] else []) + text + tail
    ensures var j := if negative then i + 1 else i; j <= |s| && s[j..] == text + tail
    ensures negative ==> At(s, i) == MINUS
  {
    if negative {
      assert s[i] == s[i..][0] && s[i + 1..] == s[i..][1..];
    } else {
      assert s[i..] == text + tail;
    }
  }

  lemma LoneDigit(s: seq<Byte>, j: nat, text: seq<Byte>, tail: seq<Byte>)
    requires j <= |s| && s[j..] == text + tail && |text| == 1 && EndsNumber(tail)
    ensures At(s, j + 1) <= SPACE
  {
    assert s[j..][1..] == tail;
    assert j + 1 < |s| ==> s[j + 1] == s[j..][1];
  }

  /** The first digit is 0 only for the number 0, which has no other digit. */
  lemma FirstOf(c: Conversion, v: S32)
    requires !c.Binary?
    ensures if Magnitude(c, v) == 0 then Digits(c, v) == [0] else Digits(c, v)[0] != 0
  {
    var k: nat :| k == BUFFER;
    var n := Magnitude(c, v);
    hide Magnitude;
    if n > 0 {
      BufferHolds(c);
      LeadingDigit(n, Radix(c), k);
    } else {
      DivisionIs(n, Radix(c), 0, 0);
      FirstDigit(n, Radix(c), k);
      assert LowDigits(n, Radix(c), k) == [0];
    }
  }

  /**
   * What %d and %u print, with spaces on either side, xatoi reads back: every 32-bit value,
   * the minimum included, whatever follows a blank or the end.
   */
  lemma DecimalRoundTrip(c: Conversion, v: S32, pad: Padding, w: nat, tail: seq<Byte>)
    requires (c.Decimal? || c.UnsignedDecimal?) && pad != Zeros && EndsNumber(tail)
    ensures var p := Parse(Printed(c, v, pad, w) + tail, 0); p.ok && p.value == v
  {
    var body := Body(c, v);
    var k := w - |body|;
    var printed := Printed(c, v, pad, w);
    var s := printed + tail;
    BodyStarts(c, v);
    assert printed == if pad == Left then body + Repeat(SPACE, k) else Repeat(SPACE, k) + body;
    assert k <= 0 ==> Repeat(SPACE, k) == Repeat(SPACE, 0);
    hide Printed;
    hide Body;
    hide Parse;
    if pad == Left {
      var rest := Repeat(SPACE, k) + tail;
      Together(body, Repeat(SPACE, k), tail);
      Untrimmed(s, body + rest);
      SkipsAll(s, 0, 0, body + rest);
      BodyParses(s, 0, 0, c, v, rest);
    } else {
      var m: nat := if k > 0 then k else 0;
      Together(Repeat(SPACE, m), body, tail);
      assert s[0..] == s;
      SkipsAll(s, 0, m, body + tail);
      BodyParses(s, 0, m, c, v, tail);
    }
  }

  lemma Untrimmed(s: seq<Byte>, t: seq<Byte>)
    requires s == t
    ensures s[0..] == Repeat(SPACE, 0) + t
  {
  }

  lemma BodyStarts(c: Conversion, v: S32)
    ensures |Body(c, v)| > 0 && Body(c, v)[0] != SPACE
  {
    DigitBack(Digits(c, v)[0], Lower(c));
    hide Digits;
  }

  // ----- the other radices -----

  function Prefix(c: Conversion): seq<Byte> {
    match c
    case Hexadecimal(_) => [ZERO, LOWER_X]
    case Binary => [ZERO, LOWER_B]
    case Octal => [ZERO]
    case _ => []
  }

  function ZeroDigits(k: int): (r: seq<nat>)
    ensures forall i :: 0 <= i < |r| ==> r[i] == 0
  {
    if k <= 0 then [] else [0] + ZeroDigits(k - 1)
  }

  lemma {:induction false} HornerZeros(k: int, ds: seq<nat>, r: nat)
    ensures Horner(ZeroDigits(k) + ds, r, 0) == Horner(ds, r, 0)
    decreases if k > 0 then k else 0
  {
    if k <= 0 {
      assert ZeroDigits(k) + ds == ds;
    } else {
      HornerZeros(k - 1, ds, r);
      var y := ZeroDigits(k - 1) + ds;
      assert ZeroDigits(k) + ds == [0] + y && ([0] + y)[1..] == y;
    }
  }

  /** Zero padding is digits 0 in front. */
  lemma {:induction false} CharsZeros(k: int, ds: seq<nat>, lower: bool)
    requires forall i :: 0 <= i < |ds| ==> ds[i] < 16
    ensures Chars(ZeroDigits(k) + ds, lower) == Repeat(ZERO, k) + Chars(ds, lower)
    decreases if k > 0 then k else 0
  {
    if k <= 0 {
      assert ZeroDigits(k) + ds == ds;
    } else {
      CharsZeros(k - 1, ds, lower);
      var y := ZeroDigits(k - 1) + ds;
      assert ZeroDigits(k) + ds == [0] + y;
      hide ZeroDigits;
      CharsMore(y, lower);
      hide Chars;
    }
  }

  lemma CharsMore(ds: seq<nat>, lower: bool)
    requires forall i :: 0 <= i < |ds| ==> ds[i] < 16
    ensures Chars([0] + ds, lower) == [ZERO] + Chars(ds, lower)
  {
  }

  lemma ScanPrefixed(s: seq<Byte>, i: nat, c: Conversion, v: S32, k: int, tail: seq<Byte>)
    requires EndsNumber(tail) && i <= |s| && s[i..] == Repeat(ZERO, k) + Chars(Digits(c, v), Lower(c)) + tail
    ensures Power(Radix(c), BUFFER) > 0
    ensures var (ok, value, at) := Scan(s, i, Radix(c), 0); ok && value == Magnitude(c, v) % Power(Radix(c), BUFFER)
    ensures ZERO <= At(s, i) && (c.Octal? ==> At(s, i) <= 0x39)
  {
    var ds := Digits(c, v);
    var z := ZeroDigits(k) + ds;
    DigitsMean(c, v);
    AtMost(Magnitude(c, v), Power(Radix(c), BUFFER));
    hide Digits;
    hide Power;
    HornerZeros(k, ds, Radix(c));
    CharsZeros(k, ds, Lower(c));
    CharsFirst(s, i, z, Lower(c), tail);
    ScanChars(s, i, z, Lower(c), tail, Radix(c), 0);
    DigitBack(z[0], Lower(c));
  }

  /** A space comes between the prefix and the first digit. */
  ghost predicate Apart(c: Conversion, v: S32, pad: Padding, w: nat) { pad == Spaces && w > |Body(c, v)| }

  /**
   * What %x, %o and %b print behind their prefix, xatoi reads back modulo r to the 24: exactly the
   * value printed, except in binary from 2^24 on. Padding with spaces makes it read 0 instead.
   */
  lemma PrefixedRoundTrip(c: Conversion, v: S32, pad: Padding, w: nat, tail: seq<Byte>)
    requires (c.Hexadecimal? || c.Octal? || c.Binary?) && EndsNumber(tail)
    ensures Power(Radix(c), BUFFER) > 0
    ensures var p := Parse(Prefix(c) + Printed(c, v, pad, w) + tail, 0);
      && p.ok && p.value == (if Apart(c, v, pad, w) then 0 else Signed32(Unsigned32(v) % Power(Radix(c), BUFFER)))
      && (p.value == v <==> if Apart(c, v, pad, w) then v == 0 else c.Binary? ==> Unsigned32(v) < 0x1000000)
  {
    hide Power;
    hide LowDigits;
    hide Scan;
    hide Digits;
    hide Chars;
    var text, pre := Chars(Digits(c, v), Lower(c)), Prefix(c);
    var k, printed := w - |text|, Printed(c, v, pad, w);
    var s := pre + printed + tail;
    PrintedUnsigned(c, v, pad, w);
    assert c.Octal? ==> |pre| == 1;
    hide Printed;
    hide Prefix;
    hide Body;
    DropPrefix(pre, printed, tail);
    ExactUnlessBinary(c, v);
    if Apart(c, v, pad, w) {
      SpaceFirst(s, |pre|, k, text, tail);
      SpaceBehindPrefix(s, c);
    } else {
      if pad == Left {
        Together(Repeat(ZERO, 0) + text, Repeat(SPACE, k), tail);
        ScanPrefixed(s, |pre|, c, v, 0, Repeat(SPACE, k) + tail);
      } else {
        ScanPrefixed(s, |pre|, c, v, k, tail);
      }
      hide Repeat;
      ParsePrefixed(s, c);
    }
    hide Signed32;
    hide Unsigned32;
  }

  lemma SpaceFirst(s: seq<Byte>, i: nat, k: int, text: seq<Byte>, tail: seq<Byte>)
    requires k > 0 && i <= |s| && s[i..] == Repeat(SPACE, k) + text + tail
    ensures At(s, i) == SPACE && i < |s|
  {
    assert s[i..][0] == s[i];
  }

  /** Behind 0x and 0b the number ends at once; a 0 in front of a space is a number by itself. */
  lemma SpaceBehindPrefix(s: seq<Byte>, c: Conversion)
    requires (c.Hexadecimal? || c.Octal? || c.Binary?) && Prefix(c) <= s && At(s, |Prefix(c)|) == SPACE
    ensures Parse(s, 0) == Parsed(true, 0, |Prefix(c)|)
  {
    assert s[0] == Prefix(c)[0] == ZERO;
    if !c.Octal? {
      assert s[1] == Prefix(c)[1];
    }
  }

  lemma DropPrefix(a: seq<Byte>, b: seq<Byte>, c: seq<Byte>)
    ensures a <= a + b + c && (a + b + c)[|a|..] == b + c
  {
  }

  lemma Together(a: seq<Byte>, b: seq<Byte>, c: seq<Byte>)
    ensures a + b + c == a + (b + c)
  {
  }

  lemma PrintedUnsigned(c: Conversion, v: S32, pad: Padding, w: nat)
    requires !c.Decimal? && !c.UnsignedDecimal?
    ensures var text := Chars(Digits(c, v), Lower(c));
      && Magnitude(c, v) == Unsigned32(v)
      && (pad == Left ==> Printed(c, v, pad, w) == Repeat(ZERO, 0) + text + Repeat(SPACE, w - |text|))
      && (pad == Zeros ==> Printed(c, v, pad, w) == Repeat(ZERO, w - |text|) + text)
      && (pad == Spaces && w > |text| ==> Printed(c, v, pad, w) == Repeat(SPACE, w - |text|) + text)
      && (pad == Spaces && w <= |text| ==> Printed(c, v, pad, w) == Repeat(ZERO, w - |text|) + text)
      && Body(c, v) == text
  {
    assert Body(c, v) == Chars(Digits(c, v), Lower(c));
    hide Digits;
  }

  /** The prefix chooses the radix. */
  lemma ParsePrefixed(s: seq<Byte>, c: Conversion)
    requires (c.Hexadecimal? || c.Octal? || c.Binary?) && Prefix(c) <= s
    requires c.Octal? ==> ZERO <= At(s, 1) <= 0x39
    ensures Parse(s, 0) == Finish(Scan(s, |Prefix(c)|, Radix(c), 0), false)
  {
    assert s[0] == Prefix(c)[0] == ZERO;
    if !c.Octal? {
      assert s[1] == Prefix(c)[1];
    }
    hide Scan;
  }

  lemma ExactUnlessBinary(c: Conversion, v: S32)
    ensures Power(Radix(c), BUFFER) > 0
    ensures Signed32(Unsigned32(v) % Power(Radix(c), BUFFER)) == v <==> c.Binary? ==> Unsigned32(v) < 0x1000000
  {
    var n := Unsigned32(v);
    SignedBack(v);
    if c.Binary? {
      assert Power(2, 12) == 4096;
      PowerSum(2, 12, 12);
      SmallWord(n % 0x1000000);
      if n < 0x1000000 {
        DivisionIs(n, 0x1000000, 0, n);
      }
    } else {
      BufferHolds(c);
      DivisionIs(n, Power(Radix(c), BUFFER), 0, n);
    }
  }

  lemma SmallWord(x: nat)
    requires x < W31
    ensures Unsigned32(Signed32(x)) == x
  {
  }

  lemma {:induction false} PowerSum(r: nat, a: nat, b: nat)
    ensures Power(r, a + b) == Power(r, a) * Power(r, b)
  {
    if a > 0 {
      PowerSum(r, a - 1, b);
      Regroup(r, Power(r, a - 1), Power(r, b));
    }
  }

  lemma Regroup(a: nat, b: nat, c: nat)
    ensures a * (b * c) == (a * b) * c
  {
  }

  // ----- zero-padded decimals -----

  /** Read in a smaller radix, digits never stand for more; from a smaller start they stand for less. */
  lemma {:induction false} HornerMonotone(ds: seq<nat>, v: nat, u: nat)
    requires v <= u
    ensures Horner(ds, 8, v) <= Horner(ds, 10, u)
    ensures v < u ==> Horner(ds, 8, v) < Horner(ds, 10, u)
    decreases |ds|
  {
    if ds != [] {
      HornerMonotone(ds[1..], v * 8 + ds[0], u * 10 + ds[0]);
    }
  }

  /** Two or more digits without a leading 0 stand for less in octal, and for 10 or more in decimal. */
  lemma OctalIsSmaller(ds: seq<nat>)
    requires |ds| >= 2 && ds[0] != 0
    ensures Horner(ds, 8, 0) < Horner(ds, 10, 0) && Horner(ds, 10, 0) >= 10
  {
    var (a, b, rest) := (ds[0], ds[1], ds[1..][1..]);
    assert Horner(ds, 8, 0) == Horner(ds[1..], 8, a) == Horner(rest, 8, a * 8 + b);
    assert Horner(ds, 10, 0) == Horner(ds[1..], 10, a) == Horner(rest, 10, a * 10 + b);
    HornerMonotone(rest, a * 8 + b, a * 10 + b);
    AtLeastStart(rest, 10, a * 10 + b);
  }

  lemma {:induction false} AtLeastStart(ds: seq<nat>, r: nat, v: nat)
    requires r >= 1
    ensures Horner(ds, r, v) >= v
    decreases |ds|
  {
    if ds != [] {
      Times(r, if v > 0 then v else 1);
      AtLeastStart(ds[1..], r, v * r + ds[0]);
    }
  }

  /** The octal scan of decimal digits gets to the end exactly when none of them is 8 or 9. */
  lemma {:induction false} OctalScan(s: seq<Byte>, i: nat, ds: seq<nat>, tail: seq<Byte>, v: U32)
    requires (forall k :: 0 <= k < |ds| ==> ds[k] < 10) && EndsNumber(tail)
    requires i <= |s| && s[i..] == Chars(ds, false) + tail
    ensures Scan(s, i, 8, v).0 <==> forall k :: 0 <= k < |ds| ==> ds[k] < 8
    decreases |ds|
  {
    hide Chars;
    hide EndsNumber;
    if ds == [] {
      assert Chars(ds, false) + tail == tail;
      ScanEnd(s, i, 8, v, tail);
    } else {
      CharsFirst(s, i, ds, false, tail);
      DigitBack(ds[0], false);
      hide DigitChar;
      hide DigitOf;
      if ds[0] < 8 {
        OctalScan(s, i + 1, ds[1..], tail, Unsigned32(v * 8 + ds[0]));
        assert ds == [ds[0]] + ds[1..];
      }
    }
  }

  /** Zeros in front of a minus sign: the digit loop refuses the sign. */
  lemma {:induction false} SignStopsScan(s: seq<Byte>, i: nat, n: nat, rest: seq<Byte>, v: U32)
    requires i <= |s| && s[i..] == Repeat(ZERO, n) + rest && rest != [] && rest[0] == MINUS
    ensures !Scan(s, i, 8, v).0 && At(s, i) == if n > 0 then ZERO else MINUS
    decreases n
  {
    assert s[i] == s[i..][0];
    if n > 0 {
      assert s[i + 1..] == s[i..][1..] == Repeat(ZERO, n - 1) + rest;
      assert DigitOf(ZERO) == 0;
      SignStopsScan(s, i + 1, n - 1, rest, Unsigned32(v * 8));
    }
  }

  /** A digit of 8 or 9 needs a number of 8 or more, and one digit is the number itself. */
  lemma SmallDecimal(c: Conversion, v: S32)
    requires c.Decimal? || c.UnsignedDecimal?
    ensures var n := Magnitude(c, v);
      && (n < 10 ==> Digits(c, v) == [n])
      && Horner(Digits(c, v), 10, 0) == n
  {
    var n := Magnitude(c, v);
    hide Magnitude;
    DigitsMean(c, v);
    BufferHolds(c);
    DivisionIs(n, Power(10, BUFFER), 0, n);
    if n < 10 {
      DivisionIs(n, 10, 0, n);
      var k: nat :| k == BUFFER;
      FirstDigit(n, 10, k);
      assert LowDigits(n, 10, k) == [n];
      hide LowDigits;
    }
  }

  /** In octal, the digits of an unsigned number read as that number exactly when it is one digit. */
  lemma OctalValue(c: Conversion, v: S32)
    requires (c.Decimal? || c.UnsignedDecimal?) && !Negative(c, v)
    ensures var ds := Digits(c, v);
      && (Magnitude(c, v) < 8 ==> forall k :: 0 <= k < |ds| ==> ds[k] < 8)
      && ((forall k :: 0 <= k < |ds| ==> ds[k] < 8)
        ==> (Signed32(Unsigned32(Horner(ds, 8, 0))) == v <==> Magnitude(c, v) < 8))
  {
    hide Horner;
    hide Digits;
    hide Signed32;
    var ds, n := Digits(c, v), Magnitude(c, v);
    assert n == Unsigned32(v);
    hide Unsigned32;
    hide Magnitude;
    SmallDecimal(c, v);
    FirstOf(c, v);
    if |ds| >= 2 {
      OctalIsSmaller(ds);
      WordReadsBack(Horner(ds, 8, 0), v);
    } else {
      OneDigit(ds, 8);
      OneDigit(ds, 10);
      WordReadsBack(Horner(ds, 8, 0), v);
    }
  }

  lemma OneDigit(ds: seq<nat>, r: nat)
    requires |ds| == 1
    ensures Horner(ds, r, 0) == ds[0] && ds == [ds[0]]
  {
    assert Horner(ds[1..], r, ds[0]) == ds[0];
  }

  /** A word, read as signed, is v exactly if it is the word of v. */
  lemma WordReadsBack(a: nat, v: S32)
    requires a < W32
    ensures Signed32(Unsigned32(a)) == v <==> a == Unsigned32(v)
  {
  }

  /** One or more zeros in front of a decimal: a sign is refused, and digits are read as octal. */
  lemma PaddedParses(s: seq<Byte>, c: Conversion, v: S32, k: nat, tail: seq<Byte>)
    requires (c.Decimal? || c.UnsignedDecimal?) && EndsNumber(tail) && k > 0
    requires s == Repeat(ZERO, k) + (Body(c, v) + tail)
    ensures var p := Parse(s, 0); (p.ok && p.value == v) <==> !Negative(c, v) && Magnitude(c, v) < 8
  {
    hide Scan;
    hide Digits;
    hide Magnitude;
    hide Horner;
    hide Parse;
    hide Chars;
    hide Signed32;
    hide Unsigned32;
    hide EndsNumber;
    var ds, rest := Digits(c, v), Body(c, v) + tail;
    AfterFirst(s, k, rest);
    ParseZero(s);
    if Negative(c, v) {
      SignStopsScan(s, 1, k - 1, rest, 0);
    } else {
      assert Body(c, v) == Chars(ds, false);
      PaddedScan(s, ds, k - 1, tail);
      OctalValue(c, v);
    }
  }

  lemma AfterFirst(s: seq<Byte>, k: nat, rest: seq<Byte>)
    requires k > 0 && s == Repeat(ZERO, k) + rest
    ensures |s| > 0 && s[0] == ZERO && s[1..] == Repeat(ZERO, k - 1) + rest
  {
  }

  /** Behind a first 0, a digit starts an octal number and a sign is refused. */
  lemma ParseZero(s: seq<Byte>)
    requires |s| > 0 && s[0] == ZERO
    ensures ZERO <= At(s, 1) <= 0x39 ==> Parse(s, 0) == Finish(Scan(s, 1, 8, 0), false)
    ensures At(s, 1) == MINUS ==> !Parse(s, 0).ok
  {
    hide Scan;
    assert SkipSpaces(s, 0) == 0;
  }

  lemma PaddedScan(s: seq<Byte>, ds: seq<nat>, k: nat, tail: seq<Byte>)
    requires ds != [] && (forall i :: 0 <= i < |ds| ==> ds[i] < 10) && EndsNumber(tail) && |s| >= 1
    requires s[1..] == Repeat(ZERO, k) + (Chars(ds, false) + tail)
    ensures Scan(s, 1, 8, 0).0 <==> forall i :: 0 <= i < |ds| ==> ds[i] < 8
    ensures Scan(s, 1, 8, 0).0 ==> Scan(s, 1, 8, 0).1 == Unsigned32(Horner(ds, 8, 0))
    ensures ZERO <= At(s, 1) <= 0x39
  {
    hide Scan;
    hide Chars;
    hide Horner;
    hide EndsNumber;
    hide Repeat;
    hide ZeroDigits;
    var z := ZeroDigits(k) + ds;
    CharsZeros(k, ds, false);
    HornerZeros(k, ds, 8);
    Together(Repeat(ZERO, k), Chars(ds, false), tail);
    OctalScan(s, 1, z, tail, 0);
    CharsFirst(s, 1, z, false, tail);
    DigitBack(z[0], false);
    if forall i :: 0 <= i < |ds| ==> ds[i] < 8 {
      ScanChars(s, 1, z, false, tail, 8, 0);
    } else {
      var i :| 0 <= i < |ds| && ds[i] >= 8;
      assert z[|ZeroDigits(k)| + i] == ds[i];
    }
  }

  /**
   * Exactly when xatoi reads back a decimal printed with zero padding: if no zero was needed, or
   * the number has no sign and is below 8, where octal and decimal agree.
   */
  lemma ZeroPaddedRoundTrip(c: Conversion, v: S32, w: nat, tail: seq<Byte>)
    requires (c.Decimal? || c.UnsignedDecimal?) && EndsNumber(tail)
    ensures var p := Parse(Printed(c, v, Zeros, w) + tail, 0);
      (p.ok && p.value == v) <==> w <= |Body(c, v)| || (!Negative(c, v) && Magnitude(c, v) < 8)
  {
    var body := Body(c, v);
    var s, k := Printed(c, v, Zeros, w) + tail, w - |body|;
    BodyStarts(c, v);
    assert k <= 0 ==> Repeat(ZERO, k) == [];
    hide Body;
    hide Parse;
    hide Magnitude;
    hide Repeat;
    Together(Repeat(ZERO, k), body, tail);
    if k <= 0 {
      assert s == body + tail;
      Untrimmed(s, body + tail);
      SkipsAll(s, 0, 0, body + tail);
      assert s[0..] == body + tail;
      BodyParses(s, 0, 0, c, v, tail);
    } else {
      PaddedParses(s, c, v, k, tail);
    }
  }

  /** A witness: "%03d" of 10 prints 010, which is read as 8. */
  lemma ZeroPaddedDecimalIsOctal()
    ensures Printed(Decimal, 10, Zeros, 3) == [0x30, 0x31, 0x30] && Parse([0x30, 0x31, 0x30], 0) == Parsed(true, 8, 3)
  {
    hide Parse;
    hide Digits;
    hide Magnitude;
    DigitsOfTen();
    assert Chars([1, 0], false) == [0x31, 0x30];
    assert Repeat(ZERO, 1) == [ZERO];
    ReadAsEight([0x30, 0x31, 0x30]);
  }

  lemma ReadAsEight(s: seq<Byte>)
    requires s == [0x30, 0x31, 0x30]
    ensures Parse(s, 0) == Parsed(true, 8, 3)
  {
    assert Scan(s, 3, 8, 8) == (true, 8, 3);
    assert Scan(s, 2, 8, 1) == (true, 8, 3);
    assert Scan(s, 1, 8, 0) == (true, 8, 3);
    hide Scan;
  }

  lemma DigitsOfTen()
    ensures Digits(Decimal, 10) == [1, 0]
  {
    var k: nat :| k == BUFFER;
    TenIn(k);
    hide LowDigits;
    assert Reverse([0, 1]) == [1, 0];
  }

  lemma TenIn(k: nat)
    requires k >= 2
    ensures LowDigits(10, 10, k) == [0, 1]
  {
    var d := LowDigits(1, 10, k - 1);
    assert d == [1];
  }
}
