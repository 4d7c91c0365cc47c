/** Powers of two, bit lengths and right shifts of the natural numbers. */
module Powers {
  import opened Words

  /** Two to the n. */
  function Pow2(n: nat): (p: int)
    ensures p >= 1
  {
    if n == 0 then 1 else 2 * Pow2(n - 1)
  }

  /** Number of significant bits of x. */
  function BitLength(x: nat): nat {
    if x == 0 then 0 else 1 + BitLength(x / 2)
  }

  /** v shifted right by n. */
  function ShiftRight(v: nat, n: nat): nat {
    if n == 0 then v else ShiftRight(v / 2, n - 1)
  }

  lemma {:induction false} Pow2Add(m: nat, n: nat)
    ensures Pow2(m + n) == Pow2(m) * Pow2(n)
  {
    if m > 0 {
      Pow2Add(m - 1, n);
      assert 2 * (Pow2(m - 1) * Pow2(n)) == 2 * Pow2(m - 1) * Pow2(n);
    }
  }

  lemma {:induction false} ShiftedOnes(k: nat, n: nat)
    requires n <= k
    ensures ShiftRight(Pow2(k) - 1, n) == Pow2(k - n) - 1
    decreases n
  {
    if n > 0 {
      assert (2 * Pow2(k - 1) - 1) / 2 == Pow2(k - 1) - 1;
      ShiftedOnes(k - 1, n - 1);
    }
  }

  lemma {:induction false} BitLengthBrackets(x: nat)
    requires x > 0
    ensures BitLength(x) >= 1
    ensures Pow2(BitLength(x) - 1) <= x < Pow2(BitLength(x))
  {
    if x > 1 {
      BitLengthBrackets(x / 2);
    }
  }

  lemma {:induction false} Pow2Monotone(m: nat, n: nat)
    requires m <= n
    ensures Pow2(m) <= Pow2(n)
    decreases n
  {
    if m < n {
      Pow2Monotone(m, n - 1);
    }
  }

  lemma {:induction false} Pow2Values()
    ensures Pow2(63) == W63 && Pow2(64) == W64
  {
    assert Pow2(8) == 0x100;
    Pow2Add(8, 8);
    Pow2Add(16, 16);
    Pow2Add(32, 32);
  }

  lemma {:induction false} Pow2Of53()
    ensures Pow2(53) == 0x20_0000_0000_0000
  {
    assert Pow2(8) == 0x100 && Pow2(5) == 0x20;
    Pow2Add(8, 8);
    Pow2Add(16, 16);
    Pow2Add(32, 16);
    Pow2Add(48, 5);
  }

  lemma ProductBound(a: int, b: int, c: int)
    requires 0 <= a && b <= c
    ensures a * b <= a * c
  {
  }
}
