/**
  How close the integer loop comes to the price definition it implements: a tick i stands for the
  price 1.0001^i (section 6.1 of the Uniswap v3 Core whitepaper), so its square root is
  1.0001^(i/2). Prices downwards are powers of PRICE_STEP = 1/1.0001.
 */
module TickAccuracy {
  import opened Powers
  import opened Outcomes
  import opened FixedPoint
  import opened TickMath

  ghost const PRICE_STEP: real := 10000.0 / 10001.0

  /** The two magic constants are the price step and its square root, rounded to a Q128 unit. */
  lemma ConstantsAreRoots()
    ensures Q128 * 10000 <= STEP_RATIO * 10001 <= Q128 * 10000 + 10001
    ensures HALF_STEP * HALF_STEP * 10001 <= Q128 * Q128 * 10000 <= (HALF_STEP + 1) * (HALF_STEP + 1) * 10001
  {
  }

  lemma StepRatioClose()
    ensures 0.0 <= PRICE_STEP <= STEP_RATIO as real / Q128 as real <= 1.0
    ensures STEP_RATIO as real / Q128 as real - PRICE_STEP <= 1.0 / Q128 as real
  {
    ConstantsAreRoots();
  }

  lemma StepLoss(start: real, g: real, n: real, q: real, d: real)
    requires 0.0 < q && 0.0 <= start <= q && 0.0 <= d && q * d == n
    ensures start * (g + d) <= start * g + n
  {
    ScaleOrder(start, q, d);
    Spread(start, g, d);
  }

  lemma Undo(n: real, inv: real, q: real)
    requires q * inv == 1.0
    ensures q * (n * inv) == n
  {
    assert q * (n * inv) == n * (q * inv);
  }

  lemma Spread(a: real, b: real, c: real)
    ensures a * (b + c) == a * b + a * c
    ensures (b + c) * a == b * a + c * a
  {
  }

  lemma GeometricBounds(res: real, start: real, n: real, q: real, p: real, cn: real, gn: real, d: real)
    requires 0.0 < p && 0.0 < q && 0.0 <= start <= q && 0.0 <= d && q * d == n
    requires res * p <= (start * cn) * p <= (res + n) * p
    requires gn <= cn <= gn + d
    ensures start * gn - n <= res <= start * gn + n
  {
    DivideOut(res, start * cn, p);
    DivideOut(start * cn, res + n, p);
    ScaleOrder(gn, cn, start);
    ScaleOrder(cn, gn + d, start);
    StepLoss(start, gn, n, q, d);
  }

  /** The integer bracket, divided through: over the reals the n-th power of the step is `cn`. */
  lemma RealBrackets(x: nat, start: nat, loss: nat, p: nat, s: nat, cn: real)
    requires x * p <= start * s <= (x + loss) * p
    requires cn * p as real == s as real
    ensures x as real * p as real <= (start as real * cn) * p as real <= (x as real + loss as real) * p as real
  {
    RealOfProduct(x, p);
    RealOfProduct(start, s);
    RealOfProduct(x + loss, p);
    Reassociate(start as real, cn, p as real);
  }

  /** For every tick the loop is within one unit per step of the true geometric progression. */
  lemma MagnitudeIsGeometric(absTick: nat)
    ensures var n := absTick / 2;
            IsWithin(Magnitude(absTick), n, Start(absTick), RealPow(PRICE_STEP, n))
  {
    MagnitudeBrackets(absTick);
    BracketedIsGeometric(Magnitude(absTick), Start(absTick), absTick / 2);
  }

  lemma BracketedIsGeometric(x: nat, start: nat, n: nat)
    requires start <= Q128 && Brackets(Q128, STEP_RATIO, x, start, n, n)
    ensures IsWithin(x, n, start, RealPow(PRICE_STEP, n))
  {
    var c, r := STEP_RATIO as real / Q128 as real, 1.0 / Q128 as real;
    StepRatioClose();
    assert IsQuotient(c, STEP_RATIO, Q128);
    assert IsQuotient(r, 1, Q128);
    hide Pow, RealPow, Between, IsQuotient, IsWithin;
    PowQuotient(c, STEP_RATIO, Q128, n);
    var d := PowerDrift(PRICE_STEP, c, r, Q128, n);
    BracketBounds(x, start, n, Q128, Pow(Q128, n), Pow(STEP_RATIO, n), RealPow(c, n), RealPow(PRICE_STEP, n), d);
  }

  /** `x` is at most `n` away from `start` times `g`. */
  ghost predicate IsWithin(x: nat, n: nat, start: nat, g: real)
  {
    start as real * g - n as real <= x as real <= start as real * g + n as real
  }

  lemma BracketBounds(x: nat, start: nat, n: nat, q: nat, p: nat, sn: nat, cn: real, gn: real, d: real)
    requires start <= q && 0 < q
    requires Between(x, n, p, start, sn)
    requires IsQuotient(cn, sn, p)
    requires gn <= cn <= gn + d
    requires 0.0 <= d && IsQuotient(d, n, q)
    ensures IsWithin(x, n, start, gn)
  {
    RealBrackets(x, start, n, p, sn, cn);
    GeometricBounds(x as real, start as real, n as real, q as real, p as real, cn, gn, d);
  }

  lemma PowerDrift(g: real, c: real, r: real, q: nat, n: nat) returns (d: real)
    requires 0.0 <= g <= c <= 1.0 && c - g <= r && IsQuotient(r, 1, q)
    ensures 0.0 <= d && IsQuotient(d, n, q)
    ensures RealPow(g, n) <= RealPow(c, n) <= RealPow(g, n) + d
  {
    RealPowClose(g, c, r, n);
    RepeatIsProduct(n, r);
    hide RealPow;
    Undo(n as real, r, q as real);
    RealMulMonotone(0.0, n as real, r, r);
    d := n as real * r;
  }

  lemma AboveStep(res: real, n: real, below: real, above: real, gn: real)
    requires above <= below + 1.0
    requires 0.0 <= gn <= 1.0
    requires below * gn - n <= res
    ensures above * gn <= res + n + 1.0
  {
    var next := below + 1.0;
    ScaleOrder(above, next, gn);
    calc {
      above * gn;
    <=
      next * gn;
    ==
      below * gn + gn;
    <=
      res + n + 1.0;
    }
  }

  lemma RootAbove(res: real, n: real, below: real, above: real, gn: real, target: real)
    requires 0.0 <= above <= below + 1.0
    requires 0.0 <= gn <= 1.0
    requires below * gn - n <= res
    requires target <= Square(above)
    ensures target * Square(gn) <= Square(res + n + 1.0)
  {
    ProductSquare(above, gn);
    ScaleOrder(0.0, gn, gn);
    ScaleOrder(target, Square(above), Square(gn));
    AboveStep(res, n, below, above, gn);
    RealMulMonotone(0.0, above, gn, gn);
    SquareMonotone(above * gn, res + n + 1.0);
  }

  lemma RootBelow(res: real, n: real, below: real, gn: real, target: real)
    requires 0.0 <= gn
    requires n + 1.0 <= res <= below * gn + n
    requires Square(below) <= target
    ensures Square(res - n - 1.0) <= target * Square(gn)
  {
    ProductSquare(below, gn);
    ScaleOrder(0.0, gn, gn);
    ScaleOrder(Square(below), target, Square(gn));
    SquareMonotone(res - n - 1.0, below * gn);
  }

  lemma SplitPower(absTick: nat)
    ensures RealPow(PRICE_STEP, absTick) == HalfStepFactor(absTick) * Square(RealPow(PRICE_STEP, absTick / 2))
  {
    var n := absTick / 2;
    RealPowAdd(PRICE_STEP, n, n);
    RealPowAdd(PRICE_STEP, absTick - 2 * n, 2 * n);
    assert RealPow(PRICE_STEP, 1) == PRICE_STEP * RealPow(PRICE_STEP, 0);
  }

  ghost function HalfStepFactor(absTick: nat): real
  {
    if absTick % 2 != 0 then PRICE_STEP else 1.0
  }

  /** `res` is within `e` of the Q128 square root of the price `absTick` ticks below one. */
  ghost predicate IsPriceRoot(res: nat, e: nat, absTick: nat)
  {
    var price := Square(Q128 as real) * RealPow(PRICE_STEP, absTick);
    && price <= Square((res + e) as real)
    && (e <= res ==> Square((res - e) as real) <= price)
  }

  /**
    Squaring out the half steps: for every tick, even or odd, the square of the loop's value brackets
    the Q128 price within |t|/2 + 1 units on the root.
   */
  lemma MagnitudeIsPriceRoot(absTick: nat)
    ensures IsPriceRoot(Magnitude(absTick), absTick / 2 + 1, absTick)
  {
    MagnitudeIsGeometric(absTick);
    GeometricIsPriceRoot(absTick, Magnitude(absTick));
  }

  lemma GeometricIsPriceRoot(absTick: nat, res: nat)
    requires IsWithin(res, absTick / 2, Start(absTick), RealPow(PRICE_STEP, absTick / 2))
    ensures IsPriceRoot(res, absTick / 2 + 1, absTick)
  {
    RealPowUnit(PRICE_STEP, absTick / 2);
    SplitPower(absTick);
    StartSquares(absTick);
    var below := Start(absTick) as real;
    RootSquares(res, absTick / 2, below, if absTick % 2 != 0 then below + 1.0 else below,
                RealPow(PRICE_STEP, absTick / 2), Square(Q128 as real), HalfStepFactor(absTick),
                RealPow(PRICE_STEP, absTick));
  }

  lemma RootSquares(res: nat, n: nat, below: real, above: real, gn: real, q2: real, half: real, full: real)
    requires 0.0 <= below <= above <= below + 1.0
    requires 0.0 <= gn <= 1.0
    requires below * gn - n as real <= res as real <= below * gn + n as real
    requires Square(below) <= q2 * half <= Square(above)
    requires full == half * Square(gn)
    ensures q2 * full <= Square((res + (n + 1)) as real)
    ensures n + 1 <= res ==> Square((res - (n + 1)) as real) <= q2 * full
  {
    Reassociate(q2, half, Square(gn));
    RootAbove(res as real, n as real, below, above, gn, q2 * half);
    assert (res + (n + 1)) as real == res as real + n as real + 1.0;
    if n + 1 <= res {
      RootBelow(res as real, n as real, below, gn, q2 * half);
      assert (res - (n + 1)) as real == res as real - n as real - 1.0;
    }
  }

  lemma StartSquares(absTick: nat)
    ensures var below := Start(absTick) as real;
            var above := if absTick % 2 != 0 then below + 1.0 else below;
            Square(below) <= Square(Q128 as real) * HalfStepFactor(absTick) <= Square(above)
  {
    ConstantsAreRoots();
  }

  lemma ProductSquare(a: real, b: real)
    ensures Square(a * b) == Square(a) * Square(b)
  {
  }

  lemma SquareMonotone(a: real, b: real)
    requires 0.0 <= a <= b
    ensures Square(a) <= Square(b)
  {
    RealMulMonotone(a, b, a, b);
  }

  /**
    On the supported range the result for a tick at or below zero is within two Q96 units of
    2^96 * 1.0001^(t/2).
   */
  lemma NegativeTickIsPriceRoot(t: int)
    requires t <= 0 && -t <= MAX_TICK
    ensures SqrtRatioAtTick(t).Ok?
    ensures var d := SqrtRatioAtTick(t).value;
            var price := Q192 as real * RealPow(PRICE_STEP, -t);
            && price <= Square((d + 2) as real)
            && (2 <= d ==> Square((d - 2) as real) <= price)
  {
    var d, res, e := SqrtRatioAtTick(t).value, Magnitude(-t), -t / 2 + 1;
    MagnitudeIsPriceRoot(-t);
    ShiftBounds(res);
    ScaledSquares(d, res, e, RealPow(PRICE_STEP, -t));
  }

  lemma ScaledSquares(d: nat, res: nat, e: nat, g: real)
    requires e <= Q32
    requires (d - 1) * Q32 <= res < (d + 1) * Q32
    requires Square(Q128 as real) * g <= Square((res + e) as real)
    requires e <= res ==> Square((res - e) as real) <= Square(Q128 as real) * g
    ensures Q192 as real * g <= Square((d + 2) as real)
    ensures 2 <= d ==> Square((d - 2) as real) <= Q192 as real * g
  {
    var scale := Square(Q32 as real);
    var price := Q192 as real * g;
    assert Square(Q128 as real) == scale * Q192 as real;
    Reassociate(scale, Q192 as real, g);
    ProductSquare((d + 2) as real, Q32 as real);
    assert (res + e) as real <= ((d + 2) * Q32) as real == (d + 2) as real * Q32 as real;
    SquareMonotone((res + e) as real, (d + 2) as real * Q32 as real);
    DivideOut(price, Square((d + 2) as real), scale);
    if 2 <= d {
      ProductSquare((d - 2) as real, Q32 as real);
      assert (d - 2) as real * Q32 as real == ((d - 2) * Q32) as real <= (res - e) as real;
      SquareMonotone((d - 2) as real * Q32 as real, (res - e) as real);
      DivideOut(Square((d - 2) as real), price, scale);
    }
  }
}
