/** Powers of naturals and reals, used to state what the truncating tick loop approximates. */
module Powers {

  function Pow(b: nat, e: nat): nat
  {
    if e == 0 then 1 else b * Pow(b, e - 1)
  }

  lemma {:induction false} PowAdd(b: nat, m: nat, n: nat)
    ensures Pow(b, m + n) == Pow(b, m) * Pow(b, n)
  {
    if m == 0 {
    } else {
      PowAdd(b, m - 1, n);
      assert b * (Pow(b, m - 1) * Pow(b, n)) == (b * Pow(b, m - 1)) * Pow(b, n);
    }
  }

  lemma {:induction false} PowPositive(b: nat, e: nat)
    requires b > 0
    ensures Pow(b, e) > 0
  {
    if e == 0 {
    } else {
      PowPositive(b, e - 1);
    }
  }

  lemma {:induction false} PowMonotone(a: nat, b: nat, e: nat)
    requires a <= b
    ensures Pow(a, e) <= Pow(b, e)
  {
    if e == 0 {
    } else {
      PowMonotone(a, b, e - 1);
      MulMonotone(a, b, Pow(a, e - 1), Pow(b, e - 1));
    }
  }

  lemma MulMonotone(a: nat, b: nat, c: nat, d: nat)
    requires a <= b && c <= d
    ensures a * c <= b * d
  {
    assert a * c <= b * c;
    assert b * c <= b * d;
  }

  ghost function RealPow(x: real, e: nat): real
  {
    if e == 0 then 1.0 else x * RealPow(x, e - 1)
  }

  lemma ScaleOrder(a: real, b: real, c: real)
    requires a <= b && 0.0 <= c
    ensures a * c <= b * c
    ensures c * a <= c * b
  {
  }

  lemma Reassociate(a: real, b: real, c: real)
    ensures a * (b * c) == (a * b) * c
  {
  }

  lemma RealMulMonotone(a: real, b: real, c: real, d: real)
    requires 0.0 <= a <= b && 0.0 <= c <= d
    ensures 0.0 <= a * c <= b * d
  {
    ScaleOrder(0.0, a, c);
    ScaleOrder(a, b, c);
    ScaleOrder(c, d, b);
  }

  lemma {:induction false} RealPowUnit(x: real, e: nat)
    requires 0.0 <= x <= 1.0
    ensures 0.0 <= RealPow(x, e) <= 1.0
  {
    if e == 0 {
    } else {
      RealPowUnit(x, e - 1);
      RealMulMonotone(x, 1.0, RealPow(x, e - 1), 1.0);
    }
  }

  lemma {:induction false} RealPowAdd(x: real, m: nat, n: nat)
    ensures RealPow(x, m + n) == RealPow(x, m) * RealPow(x, n)
  {
    if m == 0 {
    } else {
      RealPowAdd(x, m - 1, n);
      Reassociate(x, RealPow(x, m - 1), RealPow(x, n));
    }
  }

  ghost function Repeat(n: nat, d: real): real
  {
    if n == 0 then 0.0 else d + Repeat(n - 1, d)
  }

  lemma {:induction false} RepeatIsProduct(n: nat, d: real)
    ensures Repeat(n, d) == n as real * d
  {
    if n == 0 {
    } else {
      RepeatIsProduct(n - 1, d);
      OneMore((n - 1) as real, d);
    }
  }

  lemma OneMore(n: real, d: real)
    ensures (n + 1.0) * d == n * d + d
  {
  }

  lemma CloseProducts(x: real, y: real, px: real, py: real, d: real, pd: real)
    requires 0.0 <= x <= y <= 1.0 && 0.0 <= px <= py <= 1.0
    requires y - x <= d && py - px <= pd
    ensures x * px <= y * py <= x * px + d + pd
  {
    RealMulMonotone(x, y, px, py);
    var dx, dp := y - x, py - px;
    assert y * py == x * px + dx * py + x * dp;
    RealMulMonotone(dx, d, py, 1.0);
    RealMulMonotone(x, 1.0, dp, pd);
  }

  /** Powers of two nearby numbers of the unit interval drift apart by at most the distance once per factor. */
  lemma {:induction false} RealPowClose(x: real, y: real, d: real, e: nat)
    requires 0.0 <= x <= y <= 1.0
    requires y - x <= d
    ensures RealPow(x, e) <= RealPow(y, e) <= RealPow(x, e) + Repeat(e, d)
  {
    if e == 0 {
    } else {
      RealPowClose(x, y, d, e - 1);
      RealPowUnit(x, e - 1);
      RealPowUnit(y, e - 1);
      CloseProducts(x, y, RealPow(x, e - 1), RealPow(y, e - 1), d, Repeat(e - 1, d));
    }
  }

  ghost predicate IsQuotient(x: real, a: nat, b: nat)
  {
    b > 0 && x * b as real == a as real
  }

  /** A quotient of powers is the power of the quotient. */
  lemma {:induction false} PowQuotient(x: real, a: nat, b: nat, e: nat)
    requires IsQuotient(x, a, b)
    ensures IsQuotient(RealPow(x, e), Pow(a, e), Pow(b, e))
  {
    if e == 0 {
    } else {
      PowQuotient(x, a, b, e - 1);
      QuotientProduct(x, RealPow(x, e - 1), a, b, Pow(a, e - 1), Pow(b, e - 1));
    }
  }

  lemma QuotientProduct(x: real, y: real, a: nat, b: nat, c: nat, d: nat)
    requires IsQuotient(x, a, b) && IsQuotient(y, c, d)
    ensures IsQuotient(x * y, a * c, b * d)
  {
    assert (x * y) * (b as real * d as real) == (x * b as real) * (y * d as real);
  }

  function Square(x: real): real { x * x }

  lemma StrictProduct(x: real, y: real)
    requires 0.0 < x && 0.0 < y
    ensures 0.0 < x * y
  {
  }

  lemma DivideOut(x: real, y: real, p: real)
    requires 0.0 < p && x * p <= y * p
    ensures x <= y
  {
  }

  lemma RealOfProduct(a: int, b: int)
    ensures (a * b) as real == a as real * b as real
  {
  }
}
