/** `next_power_of_two`: the 32-bit shift-and-or cascade, on numbers below
    2^32, and what it computes. */
module PowerOfTwo {

  const TWO_31 := 0x8000_0000
  const TWO_32 := 0x1_0000_0000

  function Pow2(n: nat): (r: nat)
    ensures r > 0
  {
    if n == 0 then 1 else 2 * Pow2(n - 1)
  }

  /** Bitwise or. */
  function Or(a: nat, b: nat): nat {
    if a == 0 && b == 0 then 0 else 2 * Or(a / 2, b / 2) + (if a % 2 == 1 || b % 2 == 1 then 1 else 0)
  }

  function ShiftRight(x: nat, m: nat): nat {
    if m == 0 then x else ShiftRight(x / 2, m - 1)
  }

  function Smear(x: nat, m: nat): nat {
    Or(x, ShiftRight(x, m))
  }

  function Cascade(x: nat): nat {
    Smear(Smear(Smear(Smear(Smear(x, 1), 2), 4), 8), 16)
  }

  function Decremented(n: nat): nat {
    if n == 0 then TWO_32 - 1 else n - 1
  }

  function Incremented(x: nat): nat {
    if x + 1 < TWO_32 then x + 1 else 0
  }

  /** `next_power_of_two` on a 32-bit word; decrement and increment wrap. */
  function NextPowerOfTwo(n: nat): nat {
    Incremented(Cascade(Decremented(n)))
  }

  // ---- arithmetic of shifts ------------------------------------------------

  lemma {:induction false} Pow2Sum(a: nat, b: nat)
    ensures Pow2(a + b) == Pow2(a) * Pow2(b)
  {
    if a > 0 {
      Pow2Sum(a - 1, b);
    }
  }

  lemma {:induction false} OrBelow(a: nat, b: nat, k: nat)
    requires a < Pow2(k) && b < Pow2(k)
    ensures Or(a, b) < Pow2(k)
    decreases k
  {
    if k > 0 {
      OrBelow(a / 2, b / 2, k - 1);
    }
  }

  /** Or keeps the high part of one operand and at least the low part of the
      other. */
  lemma {:induction false} OrAtLeast(p: nat, c: nat, b: nat, j: nat)
    requires c < Pow2(j) && b < Pow2(j)
    ensures p * Pow2(j) + b <= Or(p * Pow2(j) + c, b)
    decreases j
  {
    var a := p * Pow2(j) + c;
    if j == 0 {
      OrZero(a);
    } else {
      assert p * Pow2(j) == 2 * (p * Pow2(j - 1));
      assert a / 2 == p * Pow2(j - 1) + c / 2 && a % 2 == c % 2;
      OrAtLeast(p, c / 2, b / 2, j - 1);
    }
  }

  lemma {:induction false} OrZero(a: nat)
    ensures Or(a, 0) == a
  {
    if a != 0 {
      OrZero(a / 2);
    }
  }

  /** The top `m` of `k` bits are ones. */
  predicate TopOnes(x: nat, k: nat, m: nat) {
    x < Pow2(k) && x + Pow2(if m < k then k - m else 0) >= Pow2(k)
  }

  lemma Doubled(a: int, b: int)
    ensures a * (2 * b) == 2 * (a * b)
  {
  }

  lemma HalfBounds(x: int, lo: int, hi: int)
    requires 2 * lo <= x < 2 * hi
    ensures lo <= x / 2 < hi
  {
  }

  /** A shift divides: it keeps bounds that are multiples of 2^m. */
  lemma {:induction false} ShiftBounds(x: nat, m: nat, lo: nat, hi: nat)
    requires lo * Pow2(m) <= x < hi * Pow2(m)
    ensures lo <= ShiftRight(x, m) < hi
    decreases m
  {
    if m > 0 {
      Doubled(lo, Pow2(m - 1));
      Doubled(hi, Pow2(m - 1));
      HalfBounds(x, lo * Pow2(m - 1), hi * Pow2(m - 1));
      ShiftBounds(x / 2, m - 1, lo, hi);
    }
  }

  lemma {:induction false} Pow2Grows(a: nat, b: nat)
    requires a <= b
    ensures Pow2(a) <= Pow2(b)
  {
    if a < b {
      Pow2Grows(a, b - 1);
    }
  }

  lemma Distribute(a: int, b: int, c: int)
    ensures (a - b) * c == a * c - b * c
  {
  }

  /** The shifted copy fits below the ones and nearly fills that part. */
  lemma ShiftedCopy(x: nat, m: nat, j: nat, e: nat)
    requires x < Pow2(m + j) <= x + Pow2(j) && e <= j <= m + e
    ensures ShiftRight(x, m) < Pow2(j) <= ShiftRight(x, m) + Pow2(e)
  {
    Pow2Sum(j, m);
    Pow2Sum(e, m);
    Pow2Grows(j, m + e);
    Pow2Grows(e, j);
    Distribute(Pow2(j), Pow2(e), Pow2(m));
    ShiftBounds(x, m, Pow2(j) - Pow2(e), Pow2(j));
  }

  /** One stage of the cascade doubles the run of ones at the top. */
  lemma SmearDoubles(x: nat, k: nat, m: nat)
    requires TopOnes(x, k, m) && m > 0
    ensures TopOnes(Smear(x, m), k, 2 * m)
  {
    var y := ShiftRight(x, m);
    if m >= k {
      Pow2Grows(k, m);
      ShiftBounds(x, m, 0, 1);
      OrZero(x);
    } else {
      var j := k - m;
      Pow2Sum(m, j);
      ShiftedCopy(x, m, j, if 2 * m < k then k - 2 * m else 0);
      var p := Pow2(m) - 1;
      Distribute(Pow2(m), 1, Pow2(j));
      OrAtLeast(p, x - p * Pow2(j), y, j);
      Pow2Grows(j, k);
      OrBelow(x, y, k);
    }
  }

  // ---- what the cascade computes -------------------------------------------

  function BitLength(x: nat): nat {
    if x == 0 then 0 else 1 + BitLength(x / 2)
  }

  lemma {:induction false} BitLengthBounds(x: nat)
    ensures x < Pow2(BitLength(x)) && (x > 0 ==> BitLength(x) > 0 && Pow2(BitLength(x) - 1) <= x)
  {
    if x > 0 {
      BitLengthBounds(x / 2);
    }
  }

  lemma Pow2Table()
    ensures Pow2(16) == 0x1_0000 && Pow2(31) == TWO_31 && Pow2(32) == TWO_32
  {
    assert Pow2(8) == 0x100;
    Pow2Sum(8, 8);
    Pow2Sum(16, 16);
  }

  /** Five stages fill all the bits below the highest one. */
  lemma CascadeFills(x: nat)
    requires x < TWO_32
    ensures Cascade(x) == Pow2(BitLength(x)) - 1
    ensures BitLength(x) <= 32
  {
    var k := BitLength(x);
    BitLengthBounds(x);
    Pow2Table();
    if k > 32 {
      Pow2Grows(32, k - 1);
    }
    SmearDoubles(x, k, 1);
    SmearDoubles(Smear(x, 1), k, 2);
    SmearDoubles(Smear(Smear(x, 1), 2), k, 4);
    SmearDoubles(Smear(Smear(Smear(x, 1), 2), 4), k, 8);
    SmearDoubles(Smear(Smear(Smear(Smear(x, 1), 2), 4), 8), k, 16);
  }

  /** The power of two above `x` is at most 2^31 exactly when `x` is below it. */
  lemma BitLengthFits(x: nat)
    requires x < TWO_32
    ensures x < TWO_31 ==> Pow2(BitLength(x)) <= TWO_31
    ensures x >= TWO_31 ==> Pow2(BitLength(x)) == TWO_32
  {
    BitLengthBounds(x);
    CascadeFills(x);
    Pow2Table();
    var k := BitLength(x);
    if k < 32 {
      Pow2Grows(k, 31);
    }
  }

  lemma NextPowerOfTwoValue(n: nat)
    requires n < TWO_32
    ensures NextPowerOfTwo(n) == Incremented(Pow2(BitLength(Decremented(n))) - 1)
  {
    CascadeFills(Decremented(n));
  }

  /** For 1 <= n <= 2^31 the result is the least power of two not below n.  For
      0 and for everything above 2^31 that a 32-bit word can hold, it wraps
      around to 0. */
  lemma NextPowerOfTwoIsLeast(n: nat) returns (k: nat)
    requires n < TWO_32
    ensures 1 <= n <= TWO_31 ==> NextPowerOfTwo(n) == Pow2(k) >= n && (k > 0 ==> Pow2(k - 1) < n)
    ensures n == 0 || n > TWO_31 ==> NextPowerOfTwo(n) == 0
  {
    var x := Decremented(n);
    k := BitLength(x);
    NextPowerOfTwoValue(n);
    BitLengthBounds(x);
    BitLengthFits(x);
  }

  /** `NextPowerOfTwo(n) == r`, quantified over an equal number so that the
      solver unfolds the cascade only where it is asked to. */
  ghost predicate RoundsTo(n: nat, r: nat) {
    forall m: nat :: m == n ==> NextPowerOfTwo(m) == r
  }

  method RoundUp(n: nat) returns (r: nat)
    requires 1 <= n <= TWO_31
    ensures RoundsTo(n, r) && r >= n
  {
    var k := NextPowerOfTwoIsLeast(n);
    r := NextPowerOfTwo(n);
  }

  lemma RoundsAtMost(n: nat, r: nat)
    requires n < TWO_32 && RoundsTo(n, r)
    ensures if 1 <= n <= TWO_31 then n <= r <= TWO_31 else r == 0
  {
    var k := NextPowerOfTwoIsLeast(n);
    assert r == NextPowerOfTwo(n);
    Pow2Table();
    if 1 <= n <= TWO_31 && k > 31 {
      Pow2Grows(31, k - 1);
    } else {
      Pow2Grows(k, if k > 31 then k else 31);
    }
  }

  /** Rounding the truncated sum makes room for `n` bytes exactly up to 2^31;
      beyond that the 32-bit size has wrapped around. */
  lemma GrowthSufficesExactlyWhen(n: nat, r: nat)
    requires n > 0 && RoundsTo(n % TWO_32, r)
    ensures r >= n <==> n <= TWO_31
  {
    RoundsAtMost(n % TWO_32, r);
  }
}
