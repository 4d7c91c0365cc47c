/**
 * Conversion between 32.32 fixed point and the binary64 interchange format
 * (section 3.4 of IEEE 754-2008), both as 64-bit patterns.
 */
module Binary64 {
  import opened Words
  import opened Powers

  const P11: int := 0x800
  const P52: int := 0x10_0000_0000_0000
  const P53: int := 0x20_0000_0000_0000
  const P62: int := 0x4000_0000_0000_0000

  // ----- the format -----

  function SignBit(bits: U64): int { bits / W63 }

  function Exponent(bits: U64): int { bits / P52 % P11 }

  function Fraction(bits: U64): int { bits % P52 }

  /**
   * The number a pattern with biased exponent in 990 .. 2046 stands for, in units of 2^-85:
   * (-1)^S * (2^52 + F) * 2^(E - 1075).
   */
  ghost function Value(bits: U64): int
    requires 990 <= Exponent(bits) <= 2046
  {
    var magnitude := (P52 + Fraction(bits)) * Pow2(Exponent(bits) - 990);
    if SignBit(bits) == 1 then -magnitude else magnitude
  }

  // ----- fixed point to binary64 -----

  function Magnitude(s: int): nat { if s < 1 then -s else s }

  /** The normalising loop: shift left until bit 63 is set; returns the word and the shift count. */
  function Normalize(v: U64): (r: (U64, nat))
    decreases if v == 0 then 0 else W64 - v
  {
    if v == 0 || v >= W63 then (v, 0)
    else var (w, n) := Normalize(2 * v); (w, n + 1)
  }

  /** sll2dbl. */
  method ToDouble(s: S64) returns (bits: U64)
    ensures bits == Encode(s)
  {
    if s == 0 {
      return 0;
    }
    var flag := 0;
    var word: U64 := s % W64;
    if s < 1 {
      flag := W63;
      word := Magnitude(s);
    }
    ghost var start := word;
    var exp := 1023 + 30;
    while word != 0 && word < W63
      invariant word != 0
      invariant Normalize(start) == (Normalize(word).0, Normalize(word).1 + (1053 - exp))
      invariant 1053 - exp >= 0
      decreases W64 - word
    {
      word := 2 * word;
      exp := exp - 1;
    }
    assert start == Magnitude(s);
    NormalizeShift(start);
    bits := Finish(word, exp, flag);
  }

  /** What follows the loop: drop the leading bit, keep the next 52, and add the other fields. */
  method Finish(normal: U64, e: int, flag: int) returns (bits: U64)
    requires normal >= W63 && 990 <= e <= 1053 && (flag == 0 || flag == W63)
    ensures bits == Pack(flag == W63, (normal, 1053 - e))
  {
    var word := normal * 2 % W64;
    var exp := e + 1;
    word := word / 0x1000;
    bits := word + flag + exp * P52;
  }

  /** The pattern for s; the three fields occupy disjoint bits, so that "or" is addition. */
  function Encode(s: S64): U64 {
    if s == 0 then 0
    else
      NormalizeShift(Magnitude(s));
      Pack(s < 1, Normalize(Magnitude(s)))
  }

  /** Sign, exponent and the 52 bits below the leading one. */
  function Pack(negative: bool, v: (U64, nat)): U64
    requires v.0 >= W63 && v.1 <= 63
  {
    (v.0 - W63) / 0x800 + (if negative then W63 else 0) + (1054 - v.1) * P52
  }

  /** Normalising multiplies by the power of two that brings the length to 64. */
  lemma {:induction false} NormalizeShift(v: U64)
    ensures v > 0 ==> var (w, n) := Normalize(v);
      w >= W63 && n <= 63 && BitLength(v) + n == 64 && w == v * Pow2(n)
    decreases if v == 0 then 0 else W64 - v
  {
    Pow2Values();
    if v >= W63 {
      BitLengthBrackets(v);
      if BitLength(v) < 64 {
        Pow2Monotone(BitLength(v), 63);
      } else if BitLength(v) > 64 {
        Pow2Monotone(64, BitLength(v) - 1);
      }
    } else if v > 0 {
      NormalizeShift(2 * v);
      assert 2 * v / 2 == v;
      var n := Normalize(2 * v).1;
      assert 2 * v * Pow2(n) == v * Pow2(n + 1);
    }
  }

  // ----- binary64 to fixed point -----

  /** C leaves a shift by a negative amount, or by 64 or more, undefined. */
  datatype Fixed = Defined(value: S64) | Undefined

  /** The significand and fields, assembled from the two 32-bit halves. */
  lemma Halves(hi: int, lo: int, bits: U64)
    requires hi == bits / W32 && lo == bits % W32
    ensures (0x4000_0000 + hi % 0x10_0000 * 0x400 + lo / 0x40_0000) * W32 + lo * 0x400 % W32
         == P62 + Fraction(bits) * 0x400
    ensures hi / 0x10_0000 % P11 == Exponent(bits)
    ensures hi >= W31 <==> SignBit(bits) == 1
  {
    assert bits == hi * W32 + lo;
    LowHalf(lo);
    HighHalf(hi, lo);
    hide Pow2;
  }

  lemma LowHalf(lo: int)
    requires 0 <= lo < W32
    ensures lo * 0x400 % W32 == lo * 0x400 - lo / 0x40_0000 * W32
  {
  }

  lemma HighHalf(hi: int, lo: int)
    requires 0 <= hi < W32 && 0 <= lo < W32
    ensures var bits := hi * W32 + lo;
      Fraction(bits) == hi % 0x10_0000 * W32 + lo && Exponent(bits) == hi / 0x10_0000 % P11
        && (SignBit(bits) == 1 <==> hi >= W31)
  {
  }

  /** dbl2sll, on the two 32-bit halves of the pattern. */
  method FromDouble(bits: U64) returns (r: Fixed)
    ensures r == Decode(bits)
  {
    var hi, lo := bits / W32, bits % W32;
    var top := 0x4000_0000;
    top := top + hi % 0x10_0000 * 0x400;
    top := top + lo / 0x40_0000;
    var bottom := lo * 0x400 % W32;
    var word := top * W32 + bottom;
    var exp := hi / 0x10_0000 % P11;
    Halves(hi, lo, bits);
    if exp == 0 {
      return Defined(0);
    }
    if exp > 1053 || 1053 - exp > 63 {
      return Undefined;
    }
    word := Shifted(word, 1053 - exp);
    if hi >= W31 {
      word := -word;
    }
    r := Defined(word);
  }

  function Shifted(word: nat, n: nat): (r: nat)
    ensures r == word / Pow2(n) && r <= word
  {
    ShiftRightIsDivision(word, n);
    DivisionShrinks(word, Pow2(n));
    ShiftRight(word, n)
  }

  /** The significand with its hidden bit at position 62, shifted into place and signed. */
  function Decode(bits: U64): Fixed {
    if Exponent(bits) == 0 then Defined(0)
    else if Exponent(bits) > 1053 || 1053 - Exponent(bits) > 63 then Undefined
    else
      var v := P62 + Fraction(bits) * 0x400;
      var q := v / Pow2(1053 - Exponent(bits));
      DivisionShrinks(v, Pow2(1053 - Exponent(bits)));
      Defined(if SignBit(bits) == 1 then -q else q)
  }

  lemma DivisionShrinks(v: int, d: int)
    requires 0 <= v && 1 <= d
    ensures 0 <= v / d <= v
  {
  }

  lemma {:induction false} ShiftRightIsDivision(v: nat, n: nat)
    ensures ShiftRight(v, n) == v / Pow2(n)
    decreases n
  {
    if n > 0 {
      ShiftRightIsDivision(v / 2, n - 1);
      HalveThenDivide(v, Pow2(n - 1));
    }
  }

  lemma HalveThenDivide(v: nat, d: int)
    requires 1 <= d
    ensures v / 2 / d == v / (2 * d)
  {
    var q := v / 2 / d;
    QuotientIs(v, 2 * d, q, v - 2 * d * q);
  }

  /** Division is determined by its defining inequality. */
  lemma QuotientIs(v: int, d: int, q: int, r: int)
    requires v == d * q + r && 0 <= r < d
    ensures v / d == q
  {
    var p := v / d;
    if p < q {
      ProductBound(d, p + 1, q);
    } else if p > q {
      ProductBound(d, q + 1, p);
    }
  }

  /** x / d cut toward zero. */
  ghost predicate CutTowardZero(r: int, x: int, d: int) {
    if x >= 0 then r * d <= x < (r + 1) * d else (r - 1) * d < x <= r * d
  }

  /**
   * What dbl2sll makes of any pattern: from exponent 990 to 1053 the number it stands for, cut toward
   * zero to a multiple of 2^-32; 0 for zeros and subnormal numbers; and all other shifts are undefined.
   */
  lemma DecodedValue(bits: U64)
    ensures Decode(bits).Defined? <==> Exponent(bits) == 0 || 990 <= Exponent(bits) <= 1053
    ensures Exponent(bits) == 0 ==> Decode(bits).value == 0
    ensures 990 <= Exponent(bits) <= 1053 ==> CutTowardZero(Decode(bits).value, Value(bits), P53)
  {
    var e := Exponent(bits);
    if 990 <= e <= 1053 {
      hide Pow2;
      var f := P52 + Fraction(bits);
      assert f * 0x400 == P62 + Fraction(bits) * 0x400;
      SignificandCut(f, e - 990, 1053 - e);
      NegativeCut(f * 0x400 / Pow2(1053 - e), f * Pow2(e - 990));
    }
  }

  lemma NegativeCut(q: nat, x: nat)
    requires q * P53 <= x < (q + 1) * P53
    ensures CutTowardZero(q, x, P53) && CutTowardZero(0 - q, 0 - x, P53)
  {
  }

  /** f * 2^a cut to 2^53 is f * 2^10 shifted right by b, where a and b add up to 63. */
  lemma SignificandCut(f: nat, a: nat, b: nat)
    requires a + b == 63
    ensures var q := f * 0x400 / Pow2(b); q * P53 <= f * Pow2(a) < (q + 1) * P53
  {
    var k: nat :| k == 63;
    Pow2Add(a, b);
    assert Pow2(k) == W63 by {
      Pow2Values();
    }
    assert Pow2(a) * Pow2(b) == W63;
    CutScaled(f, Pow2(a), Pow2(b), f * 0x400 / Pow2(b));
  }

  lemma CutScaled(f: nat, p: int, d: int, q: int)
    requires p > 0 && d > 0 && p * d == W63 && q == f * 0x400 / d
    ensures q * P53 <= f * p < (q + 1) * P53
  {
    var v := f * 0x400;
    QuotientBrackets(v, d);
    Scale(q * d, v, p);
    Scale(v + 1, (q + 1) * d, p);
    assert (v + 1) * p == v * p + p;
    Associate(q, d, p);
    Associate(q + 1, d, p);
    Associate(0x400, f, p);
    Bracketed(q, f * p, v * p, p);
  }

  lemma QuotientBrackets(v: nat, d: int)
    requires d > 0
    ensures v / d * d <= v < (v / d + 1) * d
  {
  }

  lemma Associate(q: int, d: int, p: int)
    ensures q * d * p == q * (d * p)
  {
  }

  lemma Bracketed(q: int, x: int, y: int, p: int)
    requires y == 0x400 * x && p > 0 && q * W63 <= y && y + p <= (q + 1) * W63
    ensures q * P53 <= x < (q + 1) * P53
  {
  }

  lemma Scale(x: int, y: int, p: int)
    requires x <= y && p > 0
    ensures x * p <= y * p
  {
  }

  // ----- the round trip -----

  /** The weight of the last of the 53 significant bits that survive. */
  function LastPlace(a: nat): int { Pow2(if BitLength(a) <= 53 then 0 else BitLength(a) - 53) }

  /** s rounded toward zero to 53 significant bits. */
  function Truncate(s: int): (r: int)
    ensures if s < 1 then s <= r <= 0 else 0 <= r <= s
  {
    var a := Magnitude(s);
    var t := RoundDown(a, LastPlace(a));
    if s < 1 then -t else t
  }

  /** The largest multiple of d not above a. */
  function RoundDown(a: nat, d: int): (r: int)
    requires 1 <= d
    ensures 0 <= r <= a
  {
    ProductBound(d, 0, a / d);
    a / d * d
  }

  /** A pattern packed from disjoint fields gives them back. */
  lemma PackedFields(bits: U64, fraction: int, flag: int, exp: int)
    requires 0 <= fraction < P52 && 0 <= exp < P11 && (flag == 0 || flag == W63)
    requires bits == fraction + flag + exp * P52
    ensures Exponent(bits) == exp && Fraction(bits) == fraction
    ensures SignBit(bits) == if flag == 0 then 0 else 1
  {
  }

  /** The three fields of an encoded value, from its normalised magnitude w = a * 2^n. */
  lemma EncodedFields(s: S64) returns (w: int, n: nat)
    requires s != 0
    ensures n <= 63 && BitLength(Magnitude(s)) + n == 64
    ensures W63 <= w < W64 && w == Magnitude(s) * Pow2(n)
    ensures Exponent(Encode(s)) == 1054 - n
    ensures Fraction(Encode(s)) == (w - W63) / 0x800
    ensures SignBit(Encode(s)) == if s < 1 then 1 else 0
  {
    var a: U64 := Magnitude(s);
    NormalizeShift(a);
    w, n := Normalize(a).0, Normalize(a).1;
    PackedFields(Encode(s), (w - W63) / 0x800, if s < 1 then W63 else 0, 1054 - n);
  }

  /** The 53 kept bits, moved back: (w - w % 2^11) / 2^n is a truncated. */
  lemma KeptBits(a: nat, n: nat, w: int)
    requires 0 < a && BitLength(a) + n == 64 && w == a * Pow2(n)
    ensures w - w % 0x800 == RoundDown(a, LastPlace(a)) * Pow2(n)
  {
    var k: nat :| k == 11;
    assert Pow2(11) == 0x800;
    if n >= k {
      Pow2Add(n - k, k);
      NothingDropped(a, Pow2(n - k), Pow2(n), w);
    } else {
      Pow2Add(k - n, n);
      DropLow(a, LastPlace(a), Pow2(n), w);
    }
  }

  lemma NothingDropped(a: nat, p: int, q: int, w: int)
    requires q == p * 0x800 && w == a * q
    ensures w - w % 0x800 == RoundDown(a, 1) * q
  {
    assert w == 0x800 * (a * p);
  }

  /** Dropping low bits commutes with shifting left. */
  lemma DropLow(a: nat, l: int, p: int, w: int)
    requires 1 <= l && 1 <= p && l * p == 0x800 && w == a * p
    ensures w - w % 0x800 == RoundDown(a, l) * p
  {
    var q, r := a / l, a % l;
    assert w == 0x800 * q + r * p by { assert (l * q + r) * p == l * p * q + r * p; }
    assert 0 <= r * p < 0x800 by { ProductBound(p, r, l - 1); ProductBound(p, 0, r); }
    QuotientIs(w, 0x800, q, r * p);
    assert q * l * p == 0x800 * q;
  }

  /** Shifting the significand into place recovers the truncated magnitude t. */
  lemma ShiftedSignificand(w: int, t: int, n: nat)
    requires 0 < n && W63 <= w < W64 && w - w % 0x800 == t * Pow2(n)
    ensures (P62 + (w - W63) / 0x800 * 0x400) / Pow2(n - 1) == t
  {
    var v := P62 + (w - W63) / 0x800 * 0x400;
    assert 2 * v == w - w % 0x800;
    var p := Pow2(n - 1);
    assert t * (2 * p) == 2 * (p * t);
    QuotientIs(v, p, t, 0);
  }

  /** -2^63 fills 64 bits, so its exponent asks for a shift by -1. */
  lemma MinimumIsUndefined()
    ensures Decode(Encode(-W63)) == Undefined
  {
    var w, n := EncodedFields(-W63);
    if n > 0 {
      ProductBound(W63, 2, Pow2(n));
    }
  }

  lemma LengthBelow64(a: U64)
    requires 0 < a < W63
    ensures BitLength(a) < 64
  {
    BitLengthBrackets(a);
    Pow2Values();
    if BitLength(a) >= 64 {
      Pow2Monotone(63, BitLength(a) - 1);
    }
  }

  /** Decoding a pattern whose significand is w stripped of its leading bit. */
  lemma DecodeSignificand(bits: U64, w: int, n: nat, t: int)
    requires 0 < n <= 63 && W63 <= w < W64 && w - w % 0x800 == t * Pow2(n)
    requires Exponent(bits) == 1054 - n && Fraction(bits) == (w - W63) / 0x800
    ensures Decode(bits).Defined?
    ensures Decode(bits).value == if SignBit(bits) == 1 then -t else t
  {
    ShiftedSignificand(w, t, n);
  }

  lemma RoundTripInRange(s: S64)
    requires -W63 < s && s != 0
    ensures Decode(Encode(s)) == Defined(Truncate(s))
  {
    var w, n := EncodedFields(s);
    var a := Magnitude(s);
    LengthBelow64(a);
    KeptBits(a, n, w);
    var t := RoundDown(a, LastPlace(a));
    DecodeSignificand(Encode(s), w, n, t);
    assert Truncate(s) == if s < 1 then -t else t;
  }

  /** binary64 and back truncates to 53 significant bits; only -2^63 does not come back. */
  lemma RoundTrip(s: S64)
    ensures Decode(Encode(s)) == if s == -W63 then Undefined else Defined(Truncate(s))
  {
    if s == -W63 {
      MinimumIsUndefined();
    } else if s != 0 {
      RoundTripInRange(s);
    }
  }

  lemma LengthBelow54(a: nat)
    requires 0 < a < 2 * P52
    ensures BitLength(a) <= 53
  {
    BitLengthBrackets(a);
    Pow2Of53();
    if BitLength(a) >= 54 {
      Pow2Monotone(53, BitLength(a) - 1);
    }
  }

  /** Nothing is lost below 2^53 in magnitude. */
  lemma ShortValuesSurvive(s: S64)
    requires -2 * P52 < s < 2 * P52
    ensures Decode(Encode(s)) == Defined(s)
  {
    RoundTrip(s);
    if s != 0 {
      LengthBelow54(Magnitude(s));
      assert LastPlace(Magnitude(s)) == 1;
    }
  }

  /** The encoded double is, as a number, the fixed-point value with 53 significant bits kept. */
  lemma EncodedValue(s: S64)
    requires s != 0
    ensures 991 <= Exponent(Encode(s)) <= 1054
    ensures Value(Encode(s)) == Truncate(s) * P53
  {
    var w, n := EncodedFields(s);
    var a := Magnitude(s);
    KeptBits(a, n, w);
    SignificandValue(w, n, RoundDown(a, LastPlace(a)));
  }

  lemma SignificandValue(w: int, n: nat, t: int)
    requires n <= 63 && W63 <= w < W64 && w - w % 0x800 == t * Pow2(n)
    ensures (P52 + (w - W63) / 0x800) * Pow2(64 - n) == t * P53
  {
    var k: nat :| k == 63;
    Pow2Add(n, k - n);
    Pow2Values();
    var f, q := P52 + (w - W63) / 0x800, Pow2(k - n);
    CrossMultiply(f, t, Pow2(n), q);
    assert Pow2(k - n + 1) == 2 * q;
    Doubled(f, q, t);
  }

  lemma Doubled(f: int, q: int, t: int)
    requires f * q == t * P52
    ensures f * (2 * q) == t * P53
  {
    assert f * (2 * q) == 2 * (f * q);
  }

  lemma CrossMultiply(f: int, t: int, p: int, q: int)
    requires 0x800 * f == t * p && p * q == W63
    ensures f * q == t * P52
  {
    calc {
      0x800 * (f * q);
      (0x800 * f) * q;
      (t * p) * q;
      t * (p * q);
      0x800 * (t * P52);
    }
  }
}
