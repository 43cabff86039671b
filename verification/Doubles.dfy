/**
 Division of integers as Python's `/` does it: the double nearest to the quotient, ties to the even
 mantissa (IEEE 754 binary64, section 4.3.1). A double is kept as an integer over a power of two, so all
 of this is integer arithmetic.
 */
module Doubles {
  function Pow2(n: nat): (p: nat)
    ensures p > 0
  {
    if n == 0 then 1 else 2 * Pow2(n - 1)
  }

  lemma {:induction false} Pow2Grows(m: nat, n: nat)
    requires m <= n
    ensures Pow2(m) <= Pow2(n)
  {
    if m < n {
      Pow2Grows(m, n - 1);
    }
  }

  function Gap(a: int, b: int): nat {
    if a >= b then a - b else b - a
  }

  // ------------------------------------------------------------------
  // Rounding to the nearest integer
  // ------------------------------------------------------------------

  /** `a / b` rounded to the nearest integer, ties to even. */
  function Nearest(a: nat, b: nat): nat
    requires b > 0
  {
    var q, r := a / b, a % b;
    if 2 * r < b || (2 * r == b && q % 2 == 0) then q else q + 1
  }

  /** How far `a` is from the nearest multiple of `b`. */
  function Off(a: nat, b: nat): nat
    requires b > 0
  {
    if 2 * (a % b) <= b then a % b else b - a % b
  }

  lemma Multiples(q: nat, k: nat, b: nat)
    ensures k < q ==> q * b >= k * b + b
  {
    if k < q {
      ScaleKeepsOrder(k + 1, q, b);
      assert (k + 1) * b == k * b + b;
    }
  }

  lemma ScaleKeepsOrder(a: nat, b: nat, p: nat)
    requires a <= b
    ensures a * p <= b * p
  {
    assert b * p == a * p + (b - a) * p;
  }

  lemma Remainder(a: nat, b: nat, q: nat, r: nat)
    requires a == q * b + r && r < b
    ensures a / b == q && a % b == r
  {
    assert a == (a / b) * b + a % b;
    Multiples(q, a / b, b);
    Multiples(a / b, q, b);
  }

  /** The result is the only integer that close: nearer than half, or half and even. */
  lemma NearestExactly(a: nat, b: nat, k: nat)
    requires b > 0
    ensures Nearest(a, b) == k <==> 2 * Gap(a, k * b) < b || (2 * Gap(a, k * b) == b && k % 2 == 0)
  {
    var q, r := a / b, a % b;
    assert a == q * b + r;
    Multiples(q, k, b);
    Multiples(k, q, b);
    Multiples(k, q + 1, b);
    assert (q + 1) * b == q * b + b;
  }

  lemma NearestGap(a: nat, b: nat)
    requires b > 0
    ensures Gap(a, Nearest(a, b) * b) == Off(a, b) && 2 * Off(a, b) <= b
  {
    var q, r := a / b, a % b;
    assert a == q * b + r;
    assert (q + 1) * b == q * b + b;
  }

  lemma OffIsLeast(a: nat, b: nat, k: nat)
    requires b > 0
    ensures Off(a, b) <= Gap(a, k * b)
  {
    var q, r := a / b, a % b;
    assert a == q * b + r;
    Multiples(q, k, b);
    Multiples(k, q, b);
    Multiples(k, q + 1, b);
    assert (q + 1) * b == q * b + b;
  }

  // ------------------------------------------------------------------
  // Quotients
  // ------------------------------------------------------------------

  /** 2^52: a normal double has a mantissa of 53 bits. */
  const MANTISSA: nat := 0x10_0000_0000_0000

  const TWO_53: nat := 0x20_0000_0000_0000
  const TWO_63: nat := 0x8000_0000_0000_0000

  /** How many binary places the double nearest to `n / d` has, for quotients below 2^52. */
  function Shift(n: nat, d: nat): nat
    requires n > 0 && d > 0
    decreases if n >= MANTISSA * d then 0 else MANTISSA * d - n
  {
    if n >= MANTISSA * d then 0 else 1 + Shift(2 * n, d)
  }

  /** The value `mantissa / 2^shift`. */
  datatype Double = Double(mantissa: nat, shift: nat)

  /** `n / d` */
  function Quotient(n: nat, d: nat): Double
    requires d > 0
  {
    if n == 0 then Double(0, 0) else Double(Nearest(n * Pow2(Shift(n, d)), d), Shift(n, d))
  }

  /** `int(q)` */
  function Floor(q: Double): nat {
    Truncated(q.mantissa, Pow2(q.shift))
  }

  function Truncated(a: nat, b: nat): nat
    requires b > 0
  {
    a / b
  }

  /** `q == int(q)` */
  predicate IsWhole(q: Double) {
    q.mantissa == Floor(q) * Pow2(q.shift)
  }

  /** The places are chosen so that the mantissa fills its 53 bits. */
  lemma {:induction false} ShiftFills(n: nat, d: nat)
    requires n > 0 && d > 0
    ensures n * Pow2(Shift(n, d)) >= MANTISSA * d
    ensures Shift(n, d) > 0 ==> n * Pow2(Shift(n, d)) < 2 * MANTISSA * d
    decreases if n >= MANTISSA * d then 0 else MANTISSA * d - n
  {
    if n < MANTISSA * d {
      ShiftFills(2 * n, d);
      Doubled(n, Pow2(Shift(2 * n, d)));
    }
  }

  lemma Doubled(n: nat, p: nat)
    ensures 2 * n * p == n * (2 * p)
  {
  }

  /** Where a quotient is so close to an integer that no double lies between: the code cannot tell them apart. */
  predicate NearWhole(n: nat, d: nat)
    requires n > 0 && d > 0
  {
    2 * (Off(n, d) * Pow2(Shift(n, d))) <= d
  }

  lemma GapScales(n: nat, k: nat, d: nat, p: nat)
    ensures Gap(n * p, (k * p) * d) == Gap(n, k * d) * p
  {
    assert (k * p) * d == (k * d) * p;
    if n >= k * d {
      assert (n - k * d) * p == n * p - (k * d) * p;
    } else {
      assert (k * d - n) * p == (k * d) * p - n * p;
    }
  }

  /** The scaled nearest integer is the mantissa when the quotient is near whole. */
  lemma NearGivesWhole(n: nat, d: nat)
    requires 0 < n < MANTISSA * d && NearWhole(n, d)
    ensures Quotient(n, d).mantissa == Nearest(n, d) * Pow2(Shift(n, d))
  {
    var p, k := Pow2(Shift(n, d)), Nearest(n, d);
    NearestGap(n, d);
    GapScales(n, k, d, p);
    NearestExactly(n * p, d, k * p);
    assert p == 2 * Pow2(Shift(n, d) - 1);
    EvenTimes(k, Pow2(Shift(n, d) - 1));
  }

  lemma EvenTimes(k: nat, half: nat)
    ensures (k * (2 * half)) % 2 == 0
  {
    assert k * (2 * half) == 2 * (k * half);
  }

  lemma WholeGivesNear(n: nat, d: nat)
    requires 0 < n && d > 0 && IsWhole(Quotient(n, d))
    ensures NearWhole(n, d)
  {
    var p := Pow2(Shift(n, d));
    var m := Quotient(n, d).mantissa;
    var k := Floor(Quotient(n, d));
    assert m == k * p;
    NearestGap(n * p, d);
    GapScales(n, k, d, p);
    OffIsLeast(n, d, k);
    ScaleKeepsOrder(Off(n, d), Gap(n, k * d), p);
  }

  lemma MultipleIsWhole(k: nat, p: nat)
    requires p > 0
    ensures Truncated(k * p, p) == k
  {
    var x, r := (k * p) / p, (k * p) % p;
    assert k * p == x * p + r;
    Multiples(k, x, p);
    Multiples(x, k, p);
  }

  /** A quotient prints as an integer exactly when it is near whole, and then as the nearest one. */
  lemma WholeExactly(n: nat, d: nat)
    requires 0 < n < MANTISSA * d
    ensures IsWhole(Quotient(n, d)) <==> NearWhole(n, d)
    ensures NearWhole(n, d) ==> Floor(Quotient(n, d)) == Nearest(n, d)
  {
    if NearWhole(n, d) {
      NearGivesWhole(n, d);
      MultipleIsWhole(Nearest(n, d), Pow2(Shift(n, d)));
    } else if IsWhole(Quotient(n, d)) {
      WholeGivesNear(n, d);
    }
  }

  /** Below 2^53 nothing is confused: near whole means divisible. */
  lemma SmallIsTold(n: nat, d: nat)
    requires 0 < n < TWO_53 && d > 0
    ensures NearWhole(n, d) <==> n % d == 0
  {
    var p := Pow2(Shift(n, d));
    ShiftFills(n, d);
    assert 2 * p > d by {
      if 2 * p <= d {
        ProductBound(n, p, d);
      }
    }
    if n % d != 0 {
      ScaleKeepsOrder(1, Off(n, d), p);
    }
  }

  lemma ProductBound(n: nat, p: nat, d: nat)
    requires n < TWO_53 && 2 * p <= d && d > 0
    ensures n * p < MANTISSA * d
  {
    ScaleKeepsOrder(2 * p, d, n);
    assert 2 * p * n <= d * n;
    ScaleKeepsOrder(n, TWO_53 - 1, d);
  }
}
