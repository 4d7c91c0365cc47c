/**
 * 32.32 signed fixed-point multiplication and Newton reciprocal.
 * A value v stands for the rational v / 2^32.
 */
module FixedPoint {
  import opened Words
  import opened Powers

  const TWO: S64 := 0x2_0000_0000

  // ----- multiplication -----

  /** The high (signed) and low (unsigned) halves the product is built from. */
  function Hi(x: S64): (h: S32)
    ensures x == h * W32 + Lo(x)
  {
    x / W32
  }

  function Lo(x: S64): U32 { x % W32 }

  /** The product as the source assembles it from four 32-bit partial products. */
  function Mul(x: S64, y: S64): S64 {
    Assemble(Hi(x) * Hi(y), (Hi(x) % W64) * Lo(y), Lo(x) * (Hi(y) % W64), Lo(x) * Lo(y))
  }

  /** Only 32 bits of the top product, all of the middle ones and the top of the low one survive. */
  function Assemble(hh: int, hl: int, lh: int, ll: int): S64 {
    Signed64(Signed32(hh) * W32 + (hl + lh) + ll / W32)
  }

  /** Signed64 forgets multiples of 2^64. */
  lemma Signed64Shift(a: int, k: int)
    ensures Signed64(a + k * W64) == Signed64(a)
  {
  }

  lemma PartialProducts(xh: int, xl: int, yh: int, yl: int)
    ensures (xh * W32 + xl) * (yh * W32 + yl)
         == xh * yh * W64 + (xh * yl + xl * yh) * W32 + xl * yl
  {
  }

  /** A factor may be replaced by its residue: the product moves by a multiple of 2^64. */
  lemma ResidueProduct(a: int, b: int) returns (k: int)
    ensures a % W64 * b == a * b + k * W64
  {
    k := -(a / W64) * b;
    assert a % W64 == a - a / W64 * W64;
    assert (a - a / W64 * W64) * b == a * b - a / W64 * b * W64;
  }

  lemma AssembleResidues(xy: int, hh: int, hl: int, lh: int, ll: int, k1: int, k2: int)
    requires xy == hh * W64 + (hl + lh) * W32 + ll
    ensures Assemble(hh, hl + k1 * W64, lh + k2 * W64, ll) == Signed64(xy / W32)
  {
    var k0 := (Signed32(hh) - hh) / W32;
    assert Signed32(hh) == hh + k0 * W32;
    Signed64Shift(xy / W32, k0 + k1 + k2);
  }

  /** The exact product rounded down, modulo 2^64. */
  function FloorProduct(x: S64, y: S64): S64 { Signed64(x * y / W32) }

  /** The assembled product is the exact product rounded down, modulo 2^64. */
  lemma MulIsFloor(x: S64, y: S64)
    ensures Mul(x, y) == FloorProduct(x, y)
  {
    var xh: int, xl: int, yh: int, yl: int := Hi(x), Lo(x), Hi(y), Lo(y);
    var hh, hl, lh, ll := xh * yh, xh * yl, xl * yh, xl * yl;
    var xy := x * y;
    assert xy == hh * W64 + (hl + lh) * W32 + ll by { PartialProducts(xh, xl, yh, yl); }
    var k1 := ResidueProduct(xh, yl);
    var k2 := ResidueProduct(yh, xl);
    AssembleResidues(xy, hh, hl, lh, ll, k1, k2);
  }

  // ----- reciprocal -----

  /** One Newton step for the zero of 1/u - x, in the source's arithmetic. */
  function NewtonStep(x: S64, u: S64): S64 {
    FloorProduct(u, Signed64(TWO - FloorProduct(x, u)))
  }

  /** n Newton steps. */
  function Newton(x: S64, u: S64, n: nat): S64
    decreases x, n
  {
    if n == 0 then u else Newton(x, NewtonStep(x, u), n - 1)
  }

  /** The seed: all ones, shifted right by the length of x. */
  function Seed(x: S64): S64 {
    Signed64(ShiftRight(W64 - 1, BitLength(x % W64)))
  }

  const STEPS: nat := 6

  /** What sllinv computes: six steps on the magnitude, then the sign. */
  function Reciprocal(x: S64): S64 {
    if x >= 0 then Magnitude(x) else Negate(Magnitude(Negate(x)))
  }

  function Magnitude(x: S64): S64 { Newton(x, Seed(x), STEPS) }

  function Negate(x: int): S64 { Signed64(-x) }

  /** The residual 2^64 - x*u: zero exactly when u is the exact reciprocal. */
  function Residual(x: int, u: int): int { W64 - x * u }

  /** The residual of a step, up to the two roundings rho and sigma. */
  lemma ResidualAlgebra(x: int, u: int, t: int, v: int, rho: int, sigma: int)
    requires W32 * t == x * u - rho
    requires W32 * v == u * (2 * W32 - t) - sigma
    ensures W64 * Residual(x, v)
         == Residual(x, u) * Residual(x, u) - x * u * rho + W32 * (x * sigma)
  {
    var p := x * u;
    calc {
      W64 * (x * v);
      W32 * (x * (W32 * v));
      W32 * (x * (u * (2 * W32 - t) - sigma));
      { assert x * (u * (2 * W32 - t) - sigma) == p * (2 * W32 - t) - x * sigma; }
      W32 * (p * (2 * W32 - t) - x * sigma);
      { assert p * (2 * W32 - t) == 2 * W32 * p - p * t; }
      2 * W64 * p - p * (W32 * t) - W32 * (x * sigma);
      2 * W64 * p - p * (p - rho) - W32 * (x * sigma);
    }
    assert (W64 - p) * (W64 - p) == W64 * W64 - 2 * W64 * p + p * p;
    assert p * (p - rho) == p * p - p * rho;
  }

  /** Bounds on a residual that every step keeps: the approximation is at most a hair too large. */
  ghost predicate Bounded(x: int, u: int) {
    0 <= u && -(W32 + 2) <= Residual(x, u)
  }

  /** The residual bounds from its two-rounding form; d is the old residual, e the new one. */
  lemma ResidualBounds(x: int, d: int, e: int, xu: int, rho: int, sigma: int)
    requires 3 <= x && 0 <= xu == W64 - d && -(W32 + 2) <= d
    requires 0 <= rho < W32 && 0 <= sigma < W32
    requires W64 * e == d * d - xu * rho + W32 * (x * sigma)
    ensures -(W32 + 2) <= e
    ensures W64 * e < d * d + W64 * x
  {
    ProductBound(xu, rho, W32);
    ProductBound(xu, 0, rho);
    ProductBound(x, sigma, W32 - 1);
    ProductBound(x, 0, sigma);
    assert 0 <= d * d;
  }

  /** The step on unbounded integers. */
  lemma ExactStep(x: int, u: int, t: int, v: int)
    requires 3 <= x && Bounded(x, u)
    requires t == x * u / W32 && v == u * (2 * W32 - t) / W32
    ensures 0 <= t <= W32 + 1
    ensures Bounded(x, v)
    ensures W64 * Residual(x, v) < Residual(x, u) * Residual(x, u) + W64 * x
    ensures Residual(x, u) >= 0 ==> v >= u
  {
    var xu := x * u;
    ProductBound(x, 0, u);
    var uw := u * (2 * W32 - t);
    var rho, sigma := xu % W32, uw % W32;
    ResidualAlgebra(x, u, t, v, rho, sigma);
    ResidualBounds(x, Residual(x, u), Residual(x, v), xu, rho, sigma);
    ProductBound(u, 0, 2 * W32 - t);
    if Residual(x, u) >= 0 {
      ProductBound(u, W32, 2 * W32 - t);
    }
  }

  lemma InRange(x: S64, y: S64, q: int)
    requires q == x * y / W32 && -W63 <= q < W63
    ensures FloorProduct(x, y) == q
  {
  }

  lemma Quotient(x: int, v: int)
    requires 3 <= x && Bounded(x, v)
    ensures v < W63
  {
    ProductBound(v, 3, x);
    assert x * v == v * x;
  }

  /** A step neither overflows nor leaves the bounds, and nearly squares the residual. */
  lemma StepResidual(x: S64, u: S64) returns (v: S64)
    requires 3 <= x && Bounded(x, u)
    ensures v == NewtonStep(x, u) && Bounded(x, v)
    ensures W64 * Residual(x, v) < Residual(x, u) * Residual(x, u) + W64 * x
    ensures Residual(x, u) >= 0 ==> v >= u
  {
    var t: int := x * u / W32;
    var w: int := u * (2 * W32 - t) / W32;
    ExactStep(x, u, t, w);
    InRange(x, u, t);
    Quotient(x, w);
    InRange(u, 2 * W32 - t, w);
    v := w;
  }

  // ----- the seed -----

  lemma LengthRange(x: S64) returns (n: nat)
    requires 3 <= x
    ensures n == BitLength(x) && 2 <= n <= 63 && Pow2(n - 1) <= x < Pow2(n)
  {
    n := BitLength(x);
    BitLengthBrackets(x);
    if n > 63 {
      Pow2Values();
      Pow2Monotone(63, n - 1);
    }
    assert Pow2(1) == 2;
  }

  lemma SeedValue(x: S64, n: nat)
    requires n == BitLength(x % W64) && 2 <= n <= 63
    ensures Seed(x) == Pow2(64 - n) - 1 && Pow2(64 - n) <= W63
  {
    var k: nat :| k == 64;
    Pow2Values();
    ShiftedOnes(k, n);
    Pow2Monotone(k - n, 63);
  }

  /** The length of x and the power of two one above the seed. */
  lemma SeedShape(x: S64) returns (n: nat, q: int)
    requires 3 <= x
    ensures 2 <= n <= 63 && Pow2(n - 1) <= x < Pow2(n)
    ensures q == Pow2(64 - n) && q <= W63 && Seed(x) == q - 1
    ensures Pow2(n) * q == W64 && Pow2(n - 1) * q == W63
  {
    hide Seed;
    hide Pow2;
    hide BitLength;
    n := LengthRange(x);
    assert x % W64 == x;
    q := Pow2(64 - n);
    SeedValue(x, n);
    Pow2Values();
    Pow2Add(n, 64 - n);
    Pow2Add(n - 1, 64 - n);
  }

  /** The seed is at most the reciprocal and at least half of it, less one. */
  lemma SeedResidual(x: S64)
    requires 3 <= x
    ensures Bounded(x, Seed(x)) && 0 <= Residual(x, Seed(x)) <= W63 + x
  {
    var n, q := SeedShape(x);
    SeedProduct(x, Pow2(n - 1), q);
  }

  lemma SeedProduct(x: int, half: int, q: int)
    requires 1 <= half <= x < 2 * half && half * q == W63 && 1 <= q
    ensures W63 - x <= x * (q - 1) <= W64
  {
    ProductBound(q, half, x);
    ProductBound(q, x, 2 * half);
    assert x * (q - 1) == q * x - x;
  }

  // ----- convergence -----

  /** Largest argument, exclusive, for which the quadratic estimate below contracts. */
  const P61 := 0x2000_0000_0000_0000

  /** If 64 d is below 64 a + b x, one step takes it below 64 a2 + b2 x. */
  lemma Contract(x: int, d: int, e: int, a: int, b: int, a2: int, b2: int)
    requires 3 <= x <= P61 && -(W32 + 2) <= d && 64 * d <= 64 * a + b * x
    requires W64 * e < d * d + W64 * x
    requires W32 + 2 <= a && 0 <= b && a * a <= a2 * W64
    requires 128 * (a * b) + b * b * P61 + 4096 * W64 <= 64 * b2 * W64
    ensures 64 * e <= 64 * a2 + b2 * x
  {
    var c := 128 * (a * b) + b * b * P61 + 4096 * W64;
    ContractSquare(x, d, a, b);
    ScaledBound(x, c, b2);
    Divide(e, a2, b2 * x, d * d, a * a, x * c, x);
  }

  lemma ScaledBound(x: int, c: int, b2: int)
    requires 0 <= x && c <= 64 * b2 * W64
    ensures x * c <= 64 * W64 * (b2 * x)
  {
    ProductBound(x, c, 64 * b2 * W64);
    assert x * (64 * b2 * W64) == 64 * W64 * (b2 * x);
  }

  lemma Divide(e: int, a2: int, bx: int, dd: int, aa: int, xc: int, x: int)
    requires W64 * e < dd + W64 * x && aa <= a2 * W64 && xc <= 64 * W64 * bx
    requires 4096 * dd + 4096 * W64 * x <= 4096 * aa + xc
    ensures 64 * e <= 64 * a2 + bx
  {
  }

  /** The square of the bound on 64 d, with x in place of all but one power of it. */
  lemma ContractSquare(x: int, d: int, a: int, b: int)
    requires 3 <= x <= P61 && -(W32 + 2) <= d && 64 * d <= 64 * a + b * x && W32 + 2 <= a && 0 <= b
    ensures 4096 * (d * d) + 4096 * W64 * x <= 4096 * (a * a) + x * (128 * (a * b) + b * b * P61 + 4096 * W64)
  {
    var m, bx := 64 * a + b * x, b * x;
    ProductBound(b, 0, x);
    SquareBound(64 * d, m);
    assert (64 * d) * (64 * d) == 4096 * (d * d);
    ProductBound(b * b * x, x, P61) by { ProductBound(b * b, 0, x); ProductBound(b, 0, b); }
    Expand(a, b, x);
  }

  lemma Expand(a: int, b: int, x: int)
    ensures (64 * a + b * x) * (64 * a + b * x) == 4096 * (a * a) + 128 * (a * b) * x + b * b * x * x
    ensures x * (128 * (a * b) + b * b * P61 + 4096 * W64) == 128 * (a * b) * x + b * b * x * P61 + 4096 * W64 * x
  {
    var ab, bb := a * b, b * b;
    assert (b * x) * (b * x) == bb * x * x && a * (b * x) == ab * x;
    assert x * (bb * P61) == bb * x * P61;
  }

  lemma SquareBound(d: int, m: int)
    requires -m <= d <= m
    ensures d * d <= m * m
  {
    assert m * m - d * d == (m - d) * (m + d);
    ProductBound(m - d, 0, m + d);
  }

  /** Once the residual is at most 3x it stays so. */
  lemma {:induction false} StaysClose(x: S64, u: S64, n: nat)
    requires 3 <= x && Bounded(x, u) && Residual(x, u) <= 3 * x
    ensures Bounded(x, Newton(x, u, n)) && Residual(x, Newton(x, u, n)) <= 3 * x
    decreases n
  {
    if n > 0 {
      var v := StepResidual(x, u);
      if Residual(x, u) >= 0 {
        ProductBound(x, u, v);
      } else {
        SquareBound(Residual(x, u), W32 + 2);
      }
      StaysClose(x, v, n - 1);
    }
  }

  /** Coefficients of the residual bound with n steps to go: 64 d <= 64 Constant + Slope x. */
  function Constant(n: nat): int {
    match n
    case 6 => W63
    case 5 => W63 / 2
    case 4 => W63 / 8
    case 3 => W63 / 0x80
    case 2 => W63 / 0x8000
    case 1 => 2 * W32
    case _ => 4
  }

  function Slope(n: nat): int {
    match n
    case 6 => 64
    case 5 => 136
    case 4 => 169
    case 3 => 142
    case 2 => 105
    case 1 => 86
    case _ => 80
  }

  lemma CoefficientsContract(n: nat)
    requires 1 <= n <= 6
    ensures W32 + 2 <= Constant(n) && 0 <= Slope(n)
    ensures Constant(n) * Constant(n) <= Constant(n - 1) * W64
    ensures 128 * (Constant(n) * Slope(n)) + Slope(n) * Slope(n) * P61 + 4096 * W64 <= 64 * Slope(n - 1) * W64
  {
  }

  /** With n steps to go and the n-th bound met, the last residual is at most 3x. */
  lemma {:induction false} Converges(x: S64, u: S64, n: nat)
    requires 3 <= x <= P61 && n <= 6 && Bounded(x, u)
    requires 64 * Residual(x, u) <= 64 * Constant(n) + Slope(n) * x
    ensures Bounded(x, Newton(x, u, n)) && Residual(x, Newton(x, u, n)) <= 3 * x
    decreases n
  {
    if n > 0 {
      var v := StepResidual(x, u);
      CoefficientsContract(n);
      Contract(x, Residual(x, u), Residual(x, v), Constant(n), Slope(n), Constant(n - 1), Slope(n - 1));
      Converges(x, v, n - 1);
    }
  }

  /** Above 2^61 the seed is 1 or 3. */
  lemma SeedAboveP61(x: S64)
    requires P61 < x
    ensures Seed(x) == if x < 2 * P61 then 3 else 1
  {
    var n, q := SeedShape(x);
    assert Pow2(61) == P61 && Pow2(62) == 2 * P61 by {
      Pow2Values();
      assert Pow2(62) == 2 * Pow2(61);
    }
    if n <= 61 {
      Pow2Monotone(n, 61);
    }
    assert Pow2(1) == 2 && Pow2(2) == 4;
  }

  /** From the seed 3 the next two values are 4 and 5 while x is below a sixth of 2^64. */
  lemma SmallSteps(x: S64)
    requires P61 < x && 6 * x < W64
    ensures NewtonStep(x, 3) == 4 && 5 <= NewtonStep(x, 4) <= 6
  {
    var t3 := x * 3 / W32;
    InRange(x, 3, t3);
    InRange(3, 2 * W32 - t3, 4);
    var t4 := x * 4 / W32;
    InRange(x, 4, t4);
    InRange(4, 2 * W32 - t4, 4 * (2 * W32 - t4) / W32);
  }

  /** Above 2^61 the reciprocal is below 8 and at most two steps bring the residual below 3x. */
  lemma ConvergesAboveP61(x: S64)
    requires P61 < x
    ensures var r := Newton(x, Seed(x), STEPS); Bounded(x, r) && Residual(x, r) <= 3 * x
  {
    SeedResidual(x);
    SeedAboveP61(x);
    if 6 * x >= W64 {
      StaysClose(x, Seed(x), STEPS);
    } else {
      SmallSteps(x);
      var v := StepResidual(x, 3);
      var w := StepResidual(x, 4);
      assert Residual(x, w) <= 3 * x by { ProductBound(x, 5, w); }
      StaysClose(x, w, STEPS - 2);
      assert Newton(x, 3, STEPS) == Newton(x, 4, STEPS - 1) == Newton(x, w, STEPS - 2);
    }
  }

  /** Between 3 and 2^63 - 1 the magnitude is within 3 units below and a 2^-31 part above 2^64 / x. */
  lemma ReciprocalOfMagnitude(x: S64)
    requires 3 <= x
    ensures var r := Magnitude(x);
      0 <= r < W63 && W64 - 3 * x <= x * r <= W64 + W32 + 2
  {
    if x <= P61 {
      SeedResidual(x);
      Converges(x, Seed(x), STEPS);
    } else {
      ConvergesAboveP61(x);
    }
  }

  /** How far a result may be from the exact reciprocal of x, scaled by x. */
  ghost predicate IsReciprocal(x: int, r: int) {
    if x > 0 then W64 - 3 * x <= x * r <= W64 + W32 + 2 else W64 + 3 * x <= x * r <= W64 + W32 + 2
  }

  lemma {:induction false} NewtonFromZero(x: S64, n: nat)
    ensures Newton(x, 0, n) == 0
    decreases n
  {
    if n > 0 {
      StepFromZero(x);
      hide NewtonStep;
      NewtonFromZero(x, n - 1);
    }
  }

  lemma StepFromZero(x: S64)
    ensures NewtonStep(x, 0) == 0
  {
    assert FloorProduct(x, 0) == 0;
  }

  /** The most negative value has no magnitude; its seed is zero and so is the result. */
  lemma ReciprocalOfMinimum()
    ensures Reciprocal(-W63) == 0
  {
    Pow2Values();
    BitLengthBrackets(W63);
    if BitLength(W63) < 64 {
      Pow2Monotone(BitLength(W63), 63);
    } else if BitLength(W63) > 64 {
      Pow2Monotone(64, BitLength(W63) - 1);
    }
    var k: nat :| k == 64;
    ShiftedOnes(k, k);
    assert Seed(-W63) == 0;
    NewtonFromZero(-W63, STEPS);
  }

  lemma StepValue(x: S64, u: S64, t: S64, uw: int, v: S64)
    requires t == x * u / W32
    requires uw == u * Signed64(TWO - t) && v == Signed64(uw / W32)
    ensures NewtonStep(x, u) == v
  {
    InRange(x, u, t);
  }

  lemma SeedOfTwo()
    ensures Seed(2) == 4611686018427387903
  {
    assert BitLength(2) == 2;
    SeedValue(2, 2);
    Pow2Values();
    Pow2Add(62, 1);
  }

  lemma MagnitudeOfTwo()
    ensures Magnitude(2) == -9223372035423120050
  {
    SeedOfTwo();
    StepValue(2, 4611686018427387903, 2147483647, 29710560947460812609563918335, 6917529028714823678);
    StepValue(2, 6917529028714823678, 3221225472, 37138201184326015759270543360, 8646911285893529597);
    StepValue(2, 8646911285893529597, 4026531840, 39459338758346391741943250944, 9187343241261875196);
    StepValue(2, 9187343241261875196, 4278190080, 39613476800371182331181924352, 9223231300798054395);
    StepValue(2, 9223231300798054395, 4294901760, 39614081254057711428246896640, 9223372036138947919);
    StepValue(2, 9223372036138947919, 4294967295, 39614081263281083460091204943, -9223372035423120050);
  }

  lemma MagnitudeOfZero()
    ensures Magnitude(0) == -64
  {
    assert BitLength(0) == 0 && Seed(0) == -1;
    StepValue(0, -1, 0, -8589934592, -2);
    StepValue(0, -2, 0, -17179869184, -4);
    StepValue(0, -4, 0, -34359738368, -8);
    StepValue(0, -8, 0, -68719476736, -16);
    StepValue(0, -16, 0, -137438953472, -32);
    StepValue(0, -32, 0, -274877906944, -64);
  }

  lemma MagnitudeOfOne()
    ensures Magnitude(1) == -5323029181854905096
  {
    assert BitLength(1) == 1;
    assert ShiftRight(W64 - 1, 1) == 9223372036854775807;
    assert Seed(1) == 9223372036854775807;
    StepValue(1, 9223372036854775807, 2147483647, 59421121894921625225570287615, -4611686016279904258);
    StepValue(1, -4611686016279904258, -1073741824, -44565841393521102832772579328, 8070450537079767035);
    StepValue(1, 8070450537079767035, 1879048193, 54159876743090853773270056965, -5836665111401463817);
    StepValue(1, -5836665111401463817, -1358954495, -58068333831295662644776665079, 4926656531861209065);
    StepValue(1, 4926656531861209065, 1147076611, 36668404887808980673744797765, 8537528311789264128);
    StepValue(1, 8537528311789264128, 1987798212, 56365926262543883592897776640, -5323029181854905096);
  }

  lemma NegatedResult(x: int, m: int, r: int)
    requires x == -m && W64 - 3 * m <= m * r <= W64 + W32 + 2 && 3 <= m
    ensures IsReciprocal(x, -r)
  {
    assert x * -r == m * r;
  }

  lemma NegateSmall(r: int)
    requires -W63 < r <= W63
    ensures Negate(r) == -r
  {
  }

  lemma ReciprocalNegates(x: S64, r: S64)
    requires x < 0 && r == Magnitude(Negate(x))
    ensures Reciprocal(x) == Negate(r)
  {
  }

  lemma ReciprocalOfNegative(x: S64)
    requires -W63 < x <= -3
    ensures IsReciprocal(x, Reciprocal(x))
  {
    NegateSmall(x);
    ReciprocalOfMagnitude(-x);
    var r := Magnitude(-x);
    ReciprocalNegates(x, r);
    NegateSmall(r);
    NegatedResult(x, -x, r);
  }

  lemma NoSmallReciprocal(x: int, r: S64)
    requires -2 <= x <= 2
    requires x == 2 ==> r < W63 - 3
    requires x == -2 ==> -(W63 - 3) < r
    ensures !IsReciprocal(x, r)
  {
  }

  lemma ReciprocalOfSmall(x: S64)
    requires -2 <= x <= 2
    ensures !IsReciprocal(x, Reciprocal(x))
  {
    var r := Reciprocal(x);
    if x == -2 {
      var m := Magnitude(2);
      MagnitudeOfTwo();
      NegateSmall(x);
      ReciprocalNegates(x, m);
      NegateSmall(m);
    } else if x == 2 {
      MagnitudeOfTwo();
    }
    NoSmallReciprocal(x, r);
  }

  /** What comes out for the five arguments whose reciprocal does not fit, and for the most negative one. */
  lemma OtherReciprocals()
    ensures Reciprocal(0) == -64 && Reciprocal(-W63) == 0
    ensures Reciprocal(1) == -5323029181854905096 && Reciprocal(-1) == 5323029181854905096
    ensures Reciprocal(2) == -9223372035423120050 && Reciprocal(-2) == 9223372035423120050
  {
    MagnitudeOfZero();
    MagnitudeOfOne();
    MagnitudeOfTwo();
    ReciprocalOfMinimum();
    hide Magnitude;
    assert Negate(-1) == 1 && Negate(-2) == 2;
  }

  /** The result approximates 2^64 / x for every argument whose reciprocal fits, and for no other. */
  lemma ReciprocalIsAccurate(x: S64)
    ensures IsReciprocal(x, Reciprocal(x)) <==> x <= -3 || 3 <= x
  {
    if 3 <= x {
      ReciprocalOfMagnitude(x);
    } else if x == -W63 {
      ReciprocalOfMinimum();
    } else if x <= -3 {
      ReciprocalOfNegative(x);
    } else {
      ReciprocalOfSmall(x);
    }
  }

  lemma Unroll(x: S64, u: S64, n: nat)
    requires n > 0
    ensures Newton(x, u, n) == Newton(x, NewtonStep(x, u), n - 1)
  {
  }

  method Step(x: S64, u: S64) returns (v: S64)
    ensures v == NewtonStep(x, u)
  {
    MulIsFloor(x, u);
    var t := Signed64(TWO - Mul(x, u));
    MulIsFloor(u, t);
    v := Mul(u, t);
  }

  /** The seeding loop: shift s right once for every significant bit of the magnitude. */
  method SeedLoop(x: S64) returns (seed: S64)
    ensures seed == Seed(x)
  {
    var s: U64 := W64 - 1;
    var u: U64 := x % W64;
    while u != 0
      invariant ShiftRight(s, BitLength(u)) == ShiftRight(W64 - 1, BitLength(x % W64))
      decreases u
    {
      s := s / 2;
      u := u / 2;
    }
    seed := Signed64(s);
  }

  /** The six unrolled steps. */
  method SixSteps(x: S64, seed: S64) returns (u: S64)
    ensures u == Newton(x, seed, STEPS)
  {
    u := Step(x, seed);
    Unroll(x, seed, 6);
    ghost var u1 := u;
    u := Step(x, u);
    Unroll(x, u1, 5);
    ghost var u2 := u;
    u := Step(x, u);
    Unroll(x, u2, 4);
    ghost var u3 := u;
    u := Step(x, u);
    Unroll(x, u3, 3);
    ghost var u4 := u;
    u := Step(x, u);
    Unroll(x, u4, 2);
    ghost var u5 := u;
    u := Step(x, u);
    Unroll(x, u5, 1);
  }

  /** The routine itself: take the magnitude, seed, refine, restore the sign. */
  method Inverse(value: S64) returns (r: S64)
    ensures r == Reciprocal(value)
    ensures IsReciprocal(value, r) <==> value <= -3 || 3 <= value
  {
    var x := value;
    var negative := x < 0;
    if negative {
      x := Negate(x);
    }
    var s := SeedLoop(x);
    r := SixSteps(x, s);
    assert r == Magnitude(x);
    if negative {
      ReciprocalNegates(value, r);
      r := Negate(r);
    }
    ReciprocalIsAccurate(value);
  }
}
