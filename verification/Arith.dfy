/** Integer facts behind the time computations: C's rounding macros, unsigned
    wrap-around, and division. All divisions here have non-negative operands unless
    a member says otherwise. */
module Arith {

  /** Value of an unsigned 32-bit expression. */
  function U32(x: int): (r: nat)
    ensures r < 0x1_0000_0000
  {
    x % 0x1_0000_0000
  }

  lemma U32Fits(x: int)
    requires 0 <= x < 0x1_0000_0000
    ensures U32(x) == x
  {
  }

  function U16(x: int): (r: nat)
    ensures r < 0x1_0000
  {
    x % 0x1_0000
  }

  lemma U16Fits(x: int)
    requires 0 <= x < 0x1_0000
    ensures U16(x) == x
  {
  }

  /** Wrapping in between makes no difference. */
  lemma U16Sum(x: int, y: int)
    ensures U16(U16(x) + y) == U16(x + y)
  {
  }

  lemma U8Next(x: int)
    ensures U8(U8(x) + 1) == U8(x + 1)
  {
  }

  function U8(x: int): (r: nat)
    ensures r < 0x100
  {
    x % 0x100
  }

  lemma U8Fits(x: int)
    requires 0 <= x < 0x100
    ensures U8(x) == x
  {
  }

  /** C's division, which truncates toward zero. */
  function CDiv(x: int, d: int): int
    requires d > 0
  {
    if x >= 0 then x / d else -((-x) / d)
  }

  /** DIV_ROUND_CLOSEST for a positive divisor. */
  function DivRoundClosest(x: int, d: int): int
    requires d > 0
  {
    if x > 0 then CDiv(x + d / 2, d) else CDiv(x - d / 2, d)
  }

  /** DIV_ROUND_UP for a positive divisor. */
  function DivRoundUp(x: int, d: int): int
    requires d > 0
  {
    CDiv(x + d - 1, d)
  }

  lemma DivBounds(x: int, d: int)
    requires d > 0
    ensures d * (x / d) <= x < d * (x / d) + d
  {
  }

  lemma DivLess(n: nat, d: nat)
    requires d > 0 && n >= d
    ensures n / d == (n - d) / d + 1 && n % d == (n - d) % d
  {
    var q, r := (n - d) / d, (n - d) % d;
    assert n == d * (q + 1) + r;
    DivUnique(n, d, q + 1, r);
  }

  lemma DivUnique(n: nat, d: nat, q: nat, r: nat)
    requires d > 0 && n == d * q + r && r < d
    ensures n / d == q && n % d == r
  {
    DivBounds(n, d);
    if n / d < q {
      MulLe(n / d + 1, q, d);
    } else if n / d > q {
      MulLe(q + 1, n / d, d);
    }
  }

  lemma DivSmall(n: nat, d: nat)
    requires 0 <= n <= d && d > 0
    ensures n / d == (if n == d then 1 else 0) && n % d == if n == d then 0 else n
  {
    DivUnique(n, d, if n == d then 1 else 0, if n == d then 0 else n);
  }

  lemma MulLe(a: int, b: int, c: int)
    requires 0 <= c && a <= b
    ensures a * c <= b * c
  {
  }

  lemma MulStep(d: int, a: int, b: int)
    requires d > 0
    ensures a < b ==> d * a + d <= d * b
  {
    if a < b {
      MulLe(a + 1, b, d);
      assert (a + 1) * d == d * a + d;
    }
  }

  lemma QuotientUnique(x: int, d: int, q: int)
    requires d > 0 && d * q <= x < d * q + d
    ensures x / d == q
  {
    DivBounds(x, d);
    MulStep(d, x / d, q);
    MulStep(d, q, x / d);
  }

  lemma ModUnique(a: int, p: int, k: int)
    requires p > 0 && 0 <= a + p * k < p
    ensures a % p == a + p * k
  {
    assert p * (-k) == -(p * k);
    QuotientUnique(a, p, -k);
  }

  /** x / d stays below q exactly when x stays below q * d. */
  lemma DivBelow(x: int, d: int, q: int)
    requires d > 0
    ensures x / d < q <==> x < d * q
  {
    DivBounds(x, d);
    MulStep(d, x / d, q);
    MulStep(d, q - 1, x / d);
    assert d * (q - 1) == d * q - d;
  }

  /** The rounded quotient is within half a divisor of the value. */
  lemma RoundClosestWithinHalf(x: nat, d: int)
    requires d > 0
    ensures 0 <= DivRoundClosest(x, d)
    ensures -d <= 2 * (d * DivRoundClosest(x, d) - x) <= d
  {
    if x > 0 {
      DivBounds(x + d / 2, d);
    } else {
      QuotientUnique(d / 2, d, 0);
    }
  }

  lemma RoundUpBounds(x: nat, d: int)
    requires d > 0
    ensures 0 <= DivRoundUp(x, d)
    ensures x <= d * DivRoundUp(x, d) < x + d
  {
    DivBounds(x + d - 1, d);
  }
}
