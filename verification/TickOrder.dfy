/**
  The order of the prices: they rise strictly with the tick, take the values the source names at the ends
  of its range, and the conversion panics from one tick on.
 */
module TickOrder {
  import opened Powers
  import opened Outcomes
  import opened FixedPoint
  import opened TickMath
  import opened TickAccuracy
  import opened TickValues

  // --- The magnitude falls with every tick -----------------------------------------------------

  /** Half a step takes off at least one part in 20003, from an even as from an odd tick. */
  lemma HalfSteps(g: real)
    requires 0.0 <= g
    ensures 20003.0 * (Q128 as real * g - HALF_STEP as real * g) >= Q128 as real * g
    ensures 20003.0 * (HALF_STEP as real * g - Q128 as real * (PRICE_STEP * g)) >= HALF_STEP as real * g
  {
    var q, h := Q128 as real, HALF_STEP as real;
    assert 20003.0 * (q - h) >= q && 20003.0 * (h - q * PRICE_STEP) >= h;
    ScaleOrder(q, 20003.0 * (q - h), g);
    ScaleOrder(h, 20003.0 * (h - q * PRICE_STEP), g);
    Spread3(20003.0, q, h, g);
    Spread3(20003.0, h, q * PRICE_STEP, g);
    Reassociate(q, PRICE_STEP, g);
  }

  lemma Spread3(c: real, x: real, y: real, g: real)
    ensures (c * (x - y)) * g == c * (x * g - y * g)
  {
  }

  /** From a value within `n` of `x` to one within `n + 1` of `y`, where `y` is one part in 20003 lower. */
  lemma PartLower(a: nat, b: nat, n: nat, x: real, y: real)
    requires 20003.0 * (x - y) >= x
    requires x - n as real <= a as real <= x + n as real
    requires b as real <= y + (n + 1) as real
    ensures 20003 * (a - b) >= a - 40007 * n - 20003
  {
    assert 20003.0 * (a as real - b as real) >= a as real - 40007.0 * n as real - 20003.0;
    assert (20003 * (a - b)) as real >= (a - 40007 * n - 20003) as real;
  }

  lemma EvenStep(a: nat, b: nat, n: nat, g: real)
    requires 0.0 <= g && IsWithin(a, n, Q128, g) && IsWithin(b, n, HALF_STEP, g)
    ensures 20003 * (a - b) >= a - 40007 * n - 20003
  {
    HalfSteps(g);
    PartLower(a, b, n, Q128 as real * g, HALF_STEP as real * g);
  }

  lemma OddStep(a: nat, b: nat, n: nat, g: real)
    requires 0.0 <= g && IsWithin(a, n, HALF_STEP, g) && IsWithin(b, n + 1, Q128, PRICE_STEP * g)
    ensures 20003 * (a - b) >= a - 40007 * n - 20003
  {
    HalfSteps(g);
    PartLower(a, b, n, HALF_STEP as real * g, Q128 as real * (PRICE_STEP * g));
  }

  lemma StepDown(t: nat)
    ensures 20003 * (Magnitude(t) - Magnitude(t + 1)) >= Magnitude(t) - 40007 * (t / 2) - 20003
  {
    hide Magnitude, IsWithin;
    var n := t / 2;
    var g := RealPow(PRICE_STEP, n);
    RealPowUnit(PRICE_STEP, n);
    MagnitudeIsGeometric(t);
    MagnitudeIsGeometric(t + 1);
    if t % 2 == 0 {
      assert (t + 1) / 2 == n;
      EvenStep(Magnitude(t), Magnitude(t + 1), n, g);
    } else {
      assert (t + 1) / 2 == n + 1 && RealPow(PRICE_STEP, n + 1) == PRICE_STEP * g;
      OddStep(Magnitude(t), Magnitude(t + 1), n, g);
    }
  }

  /** Below 2^20 every tick lowers the magnitude by at least one part in 40000. */
  lemma MagnitudeFalls(t: nat)
    requires t + 1 < 1048576
    ensures 40000 * (Magnitude(t) - Magnitude(t + 1)) >= Magnitude(t)
  {
    hide Magnitude;
    StepDown(t);
    MagnitudeBounds(t);
  }

  lemma {:induction false} MagnitudeOrder(a: nat, b: nat)
    requires a <= b < 1048576
    ensures Magnitude(b) <= Magnitude(a)
    decreases b
  {
    hide Magnitude;
    if a < b {
      MagnitudeOrder(a, b - 1);
      MagnitudeFalls(b - 1);
    }
  }

  // --- The price rises with every tick ---------------------------------------------------------

  lemma ShiftKeepsOrder(x: nat, y: nat)
    requires x + 2 * Q32 <= y
    ensures ToX96(x) < ToX96(y)
  {
    ShiftBounds(x);
    ShiftBounds(y);
  }

  lemma FloorAtLeast(n: nat, y: nat, v: nat)
    requires 0 < y && v * y <= n
    ensures v <= n / y
  {
    ReciprocalFloor(n, y, n / y);
    if n / y < v {
      MulMonotone(n / y + 1, v, y, y);
      assert false;
    }
  }

  /** A magnitude lower by one part in 40000 has a reciprocal higher by far more than the shift drops. */
  lemma InverseRises(x: nat, y: nat)
    requires 0 < y && x <= Q128 && 40000 * (x - y) >= x
    ensures (Q256 - 1) / x + 2 * Q32 <= (Q256 - 1) / y
  {
    var n := Q256 - 1;
    var u := n / x;
    ReciprocalFloor(n, x, u);
    MulMonotone(u + 1, u + 1, x, Q128);
    assert 80000 * Q32 <= u;
    InverseProduct(n, x, y, u, 2 * Q32);
    FloorAtLeast(n, y, u + 2 * Q32);
  }

  lemma InverseProduct(n: nat, x: nat, y: nat, u: nat, extra: nat)
    requires u * x <= n && y <= x && 40000 * (x - y) >= x && 40000 * extra <= u
    ensures (u + extra) * y <= n
  {
    var d: nat := x - y;
    MulMonotone(40000 * extra, u, x, x);
    MulMonotone(u, u, x, 40000 * d);
    assert 40000 * (extra * x) <= 40000 * (u * d) by {
      assert (40000 * extra) * x == 40000 * (extra * x);
      assert u * (40000 * d) == 40000 * (u * d);
    }
    MulMonotone(extra, extra, y, x);
    assert (u + extra) * y == u * y + extra * y;
    assert u * x == u * y + u * d;
  }

  lemma BelowZeroRises(a: nat)
    requires a + 1 < 1048576
    ensures ToX96(Magnitude(a + 1)) < ToX96(Magnitude(a))
  {
    hide Magnitude, ToX96;
    MagnitudeFalls(a);
    MagnitudeBounds(a);
    ShiftKeepsOrder(Magnitude(a + 1), Magnitude(a));
  }

  lemma AboveZeroRises(t: int)
    requires 0 < t && t + 1 < 1048576
    ensures SqrtRatioAtTick(t).Ok? && SqrtRatioAtTick(t + 1).Ok?
    ensures SqrtRatioAtTick(t).value < SqrtRatioAtTick(t + 1).value
  {
    hide Magnitude, ToX96;
    var x, y := Magnitude(t), Magnitude(t + 1);
    MagnitudeBounds(t);
    MagnitudeBounds(t + 1);
    MagnitudeFalls(t);
    InverseRises(x, y);
    var u: nat, v: nat := (Q256 - 1) / x, (Q256 - 1) / y;
    ShiftKeepsOrder(u, v);
  }

  /** From one tick to the next the price rises. */
  lemma PriceRises(t: int)
    requires -1048576 < t && t + 1 < 1048576
    ensures SqrtRatioAtTick(t).Ok? && SqrtRatioAtTick(t + 1).Ok?
    ensures SqrtRatioAtTick(t).value < SqrtRatioAtTick(t + 1).value
  {
    hide Magnitude, ToX96;
    if t < 0 {
      BelowZeroRises(-(t + 1));
    } else if t == 0 {
      FirstTick();
      ShiftKeepsOrder(Q128, (Q256 - 1) / HALF_STEP);
    } else {
      AboveZeroRises(t);
    }
  }

  lemma FirstTick()
    ensures Magnitude(0) == Q128 && Magnitude(1) == HALF_STEP
    ensures Q128 + 2 * Q32 <= (Q256 - 1) / HALF_STEP
  {
    FloorAtLeast(Q256 - 1, HALF_STEP, Q128 + 2 * Q32);
  }

  /** On every tick below 2^20 in size, and so on the named range, the price is strictly monotone. */
  lemma {:induction false} PriceOrder(a: int, b: int)
    requires -1048576 < a < b < 1048576
    ensures SqrtRatioAtTick(a).Ok? && SqrtRatioAtTick(b).Ok?
    ensures SqrtRatioAtTick(a).value < SqrtRatioAtTick(b).value
    decreases b - a
  {
    hide SqrtRatioAtTick;
    PriceRises(b - 1);
    if a < b - 1 {
      PriceOrder(a, b - 1);
    }
  }

  const MIN_SQRT_RATIO: nat := 4295128739
  const MAX_SQRT_RATIO: nat := 1461446703485210103287273052203988822378723970342

  lemma NamedEnds()
    ensures SqrtRatioAtTick(MIN_TICK) == Ok(MIN_SQRT_RATIO) && SqrtRatioAtTick(MAX_TICK) == Ok(MAX_SQRT_RATIO)
  {
    AtMaxTick();
    hide Magnitude;
  }

  /** The prices of the named ticks are exactly within the two ratios the source names, and meet them only at the ends. */
  lemma NamedRange(t: int)
    requires -1048576 < t < 1048576
    ensures SqrtRatioAtTick(t).Ok?
    ensures MIN_SQRT_RATIO <= SqrtRatioAtTick(t).value <= MAX_SQRT_RATIO <==> MIN_TICK <= t <= MAX_TICK
    ensures SqrtRatioAtTick(t).value == MIN_SQRT_RATIO <==> t == MIN_TICK
    ensures SqrtRatioAtTick(t).value == MAX_SQRT_RATIO <==> t == MAX_TICK
  {
    NamedEnds();
    hide SqrtRatioAtTick;
    PriceIsPositive(t);
    if t < MIN_TICK {
      PriceOrder(t, MIN_TICK);
    } else if MIN_TICK < t {
      PriceOrder(MIN_TICK, t);
    }
    if t < MAX_TICK {
      PriceOrder(t, MAX_TICK);
    } else if MAX_TICK < t {
      PriceOrder(MAX_TICK, t);
    }
  }

  // --- The rounding as written -----------------------------------------------------------------

  /** `x` is the Q128 value of a tick before the shift: the magnitude, or 2^256 - 1 over it rounded down. */
  ghost predicate IsUnshifted(t: int, x: nat)
  {
    if t <= 0 then x == Magnitude(Abs(t))
    else x * Magnitude(t) <= Q256 - 1 < (x + 1) * Magnitude(t)
  }

  /**
    On every tick with a price: the price is the shifted value or one more, and it is the shifted value
    exactly if that is a multiple of 2^32, because the remainder is looked at after the shift.
   */
  lemma RoundsAfterShift(t: int, x: nat)
    requires SqrtRatioAtTick(t).Ok? && IsUnshifted(t, x)
    ensures var r := SqrtRatioAtTick(t).value;
            && x / Q32 <= r <= x / Q32 + 1
            && r % Q32 != 1
            && (r == x / Q32 <==> x / Q32 % Q32 == 0)
  {
    hide Magnitude;
    if t > 0 {
      var m := Magnitude(t);
      ReciprocalFloor(Q256 - 1, m, (Q256 - 1) / m);
      SameFloor(m, x, (Q256 - 1) / m, Q256 - 1);
    }
    AddsOne(x);
    hide ToX96;
  }

  lemma AddsOne(x: nat)
    ensures x / Q32 <= ToX96(x) <= x / Q32 + 1
    ensures ToX96(x) % Q32 != 1
    ensures ToX96(x) == x / Q32 <==> x / Q32 % Q32 == 0
  {
  }

  /** The price of tick zero is one, exactly. */
  lemma PriceOfTickZero()
    ensures SqrtRatioAtTick(0) == Ok(0x1_0000_0000_0000_0000_0000_0000)
  {
    FirstTick();
    hide Magnitude;
  }

  // --- Exactly where the conversion panics -----------------------------------------------------

  /** The last tick with a reciprocal. */
  const LAST_TICK: nat := 1774545

  /** From 2^20 on the magnitude is that of the rest of the tick times the last ratio. */
  lemma UpperHalf(r: nat)
    requires r < 1048576
    ensures Magnitude(1048576 + r) == MulShift(Q128, Magnitude(r), RATIO_19)
  {
    hide MulShift, Accumulate;
    TwentyBits();
    LastRatio();
    assert Start(1048576 + r) == Start(r) && (1048576 + r) / 2 == r / 2 + 524288;
    TopBit(Q128, Start(r), STEP_RATIO, r / 2, 19);
  }

  lemma VanishesBelow(x: nat, y: nat)
    ensures MulShift(Q128, x, y) == 0 <==> x * y < Q128
  {
  }

  /** The conversion panics exactly on the ticks above the last one. */
  lemma PanicsExactly(t: int)
    ensures SqrtRatioAtTick(t).Panic? <==> t > LAST_TICK
  {
    hide Magnitude, MulShift;
    TickRange(t);
    if 1048576 <= t < 2097152 {
      var r := t - 1048576;
      UpperHalf(r);
      VanishesBelow(Magnitude(r), RATIO_19);
      LastFactor(r);
    }
  }

  lemma LastFactor(r: nat)
    requires r < 1048576
    ensures Magnitude(r) * RATIO_19 < Q128 <==> r > 725969
  {
    AtLastFactor();
    PastLastFactor();
    hide Magnitude;
    if r <= 725969 {
      MagnitudeOrder(r, 725969);
    } else {
      MagnitudeOrder(725970, r);
    }
  }

  // --- The price of a positive tick ------------------------------------------------------------

  ghost const TICK_BASE: real := 10001.0 / 10000.0

  /** One part in 2^44. */
  ghost const TINY: real := 1.0 / 0x1000_0000_0000 as real

  lemma {:induction false} PowersInvert(t: nat)
    ensures RealPow(PRICE_STEP, t) * RealPow(TICK_BASE, t) == 1.0
    ensures 0.0 < RealPow(TICK_BASE, t)
  {
    if t > 0 {
      PowersInvert(t - 1);
      var a, b := RealPow(PRICE_STEP, t - 1), RealPow(TICK_BASE, t - 1);
      FourFactors(PRICE_STEP, a, TICK_BASE, b);
      assert PRICE_STEP * TICK_BASE == 1.0;
    }
  }

  lemma FourFactors(a: real, b: real, c: real, d: real)
    ensures (a * b) * (c * d) == (a * c) * (b * d)
  {
  }

  const Q224: nat := 0x1_0000_0000_0000_0000_0000_0000_0000_0000_0000_0000_0000_0000_0000_0000

  /** `u` is the square root of the price `w` at scale `p`, to one unit and a relative error of `tiny`. */
  ghost predicate IsNearRoot(u: real, w: real, p: real, tiny: real)
  {
    Square(u - 1.0) * Square(1.0 - tiny) <= p * w <= Square(u + 1.0) * Square(1.0 + tiny)
  }

  /** `u` is within one unit of `s` over `m`. */
  ghost predicate IsInverse(u: real, m: real, s: real)
  {
    (u - 1.0) * m <= s <= (u + 1.0) * m
  }

  /** `m` is within `k` of the square root of the price `full` at scale `q`. */
  ghost predicate IsRootWithin(m: real, k: real, full: real, q: real)
  {
    Square(m - k) <= q * full <= Square(m + k)
  }

  /** `k` is at most a part of `tiny` of `m`. */
  ghost predicate IsTiny(k: real, m: real, tiny: real)
  {
    0.0 <= (1.0 - tiny) * (m + k) <= m <= (1.0 + tiny) * (m - k)
  }

  /** The reciprocal of a root from below is a root from below, up to the relative error. */
  lemma InverseRootBelow(v: real, m: real, k: real, full: real, w: real, p: real, q: real, s: real, small: real)
    requires 0.0 <= v && 0.0 < m && 0.0 < k && 0.0 < w && full * w == 1.0 && 0.0 < p && 0.0 < s
    requires v * m <= s && s * s == p * q && q * full <= Square(m + k)
    requires 0.0 <= small * (m + k) <= m
    ensures Square(v) * Square(small) <= p * w
  {
    SquareMonotone(v * m, s);
    ProductSquare(v, m);
    ScaleOrder(q * full, Square(m + k), w);
    Reassociate(q, full, w);
    assert q <= Square(m + k) * w;
    ScaleOrder(q, Square(m + k) * w, p);
    assert Square(v) * Square(m) <= p * (Square(m + k) * w);
    SquareMonotone(small * (m + k), m);
    ProductSquare(small, m + k);
    SquareSign(v);
    ScaleOrder(Square(small) * Square(m + k), Square(m), Square(v));
    Reassociate(Square(v), Square(small), Square(m + k));
    SwapLast(p, Square(m + k), w);
    SquarePositive(m + k);
    DivideOut(Square(v) * Square(small), p * w, Square(m + k));
  }

  /** And a root from above one from above. */
  lemma InverseRootAbove(v: real, m: real, k: real, full: real, w: real, p: real, q: real, s: real, big: real)
    requires 0.0 <= v && 0.0 < k < m && 0.0 < w && full * w == 1.0 && 0.0 < p && 0.0 < s
    requires s <= v * m && s * s == p * q && Square(m - k) <= q * full
    requires m <= big * (m - k)
    ensures p * w <= Square(v) * Square(big)
  {
    SquareMonotone(s, v * m);
    ProductSquare(v, m);
    ScaleOrder(Square(m - k), q * full, w);
    Reassociate(q, full, w);
    assert Square(m - k) * w <= q;
    ScaleOrder(Square(m - k) * w, q, p);
    assert p * (Square(m - k) * w) <= Square(v) * Square(m);
    SquareMonotone(m, big * (m - k));
    ProductSquare(big, m - k);
    SquareSign(v);
    ScaleOrder(Square(m), Square(big) * Square(m - k), Square(v));
    Reassociate(Square(v), Square(big), Square(m - k));
    SwapLast(p, Square(m - k), w);
    SquarePositive(m - k);
    DivideOut(p * w, Square(v) * Square(big), Square(m - k));
  }

  lemma SquareSign(x: real)
    ensures 0.0 <= Square(x)
  {
    if x < 0.0 {
      StrictProduct(-x, -x);
      assert (-x) * (-x) == x * x;
    } else {
      ScaleOrder(0.0, x, x);
    }
  }

  lemma SquarePositive(x: real)
    requires 0.0 < x
    ensures 0.0 < Square(x)
  {
    StrictProduct(x, x / 2.0);
    TwiceHalf(x, x / 2.0);
  }

  lemma TwiceHalf(x: real, half: real)
    requires half == x / 2.0
    ensures Square(x) == 2.0 * (x * half)
  {
  }

  lemma SwapLast(a: real, b: real, c: real)
    ensures a * (b * c) == (a * c) * b
  {
  }

  /** The shifted reciprocal brackets 2^224 over the magnitude. */
  lemma ShiftedInverse(m: nat, u: nat)
    requires 0 < m && u == ToX96((Q256 - 1) / m)
    ensures (u - 1) * m <= Q224 <= (u + 1) * m
  {
    var inv := (Q256 - 1) / m;
    ReciprocalFloor(Q256 - 1, m, inv);
    ShiftBounds(inv);
    hide ToX96;
    assert Q256 == Q224 * Q32;
    MulMonotone(inv + 1, (u + 1) * Q32, m, m);
    assert ((u + 1) * Q32) * m == ((u + 1) * m) * Q32;
    if u > 0 {
      MulMonotone((u - 1) * Q32, inv, m, m);
      assert ((u - 1) * Q32) * m == ((u - 1) * m) * Q32;
    }
  }

  lemma InverseInReals(m: nat, u: nat)
    requires (u - 1) * m <= Q224 <= (u + 1) * m
    ensures IsInverse(u as real, m as real, Q224 as real)
  {
    RealOfProduct(u - 1, m);
    RealOfProduct(u + 1, m);
    assert (u - 1) as real == u as real - 1.0 && (u + 1) as real == u as real + 1.0;
  }

  lemma RootInReals(m: nat, k: nat, t: nat)
    requires k <= m && IsPriceRoot(m, k, t)
    ensures IsRootWithin(m as real, k as real, RealPow(PRICE_STEP, t), Square(Q128 as real))
  {
    hide RealPow;
    assert (m - k) as real == m as real - k as real && (m + k) as real == m as real + k as real;
    hide Square;
  }

  /** The relative error of a magnitude of 64 bits and more. */
  lemma RelativeError(m: nat, k: nat)
    requires k <= 0x8_0000 && 0x1_0000_0000_0000_0000 <= m
    ensures IsTiny(k as real, m as real, TINY)
  {
    assert TINY * 0x1000_0000_0000 as real == 1.0;
    ScaleOrder(0x1_0000_0000_0000_0000 as real, m as real, TINY);
    ScaleOrder(k as real, 0x8_0000 as real, TINY);
  }

  lemma InverseOfRoot(u: real, m: real, k: real, full: real, w: real, p: real, q: real, s: real, tiny: real)
    requires 1.0 <= u && 0.0 < k < m && 0.0 < w && full * w == 1.0 && 0.0 < p && 0.0 < s && s * s == p * q
    requires IsInverse(u, m, s) && IsRootWithin(m, k, full, q) && IsTiny(k, m, tiny)
    ensures IsNearRoot(u, w, p, tiny)
  {
    hide Square;
    InverseRootBelow(u - 1.0, m, k, full, w, p, q, s, 1.0 - tiny);
    InverseRootAbove(u + 1.0, m, k, full, w, p, q, s, 1.0 + tiny);
  }

  lemma Scales()
    ensures Q224 as real * Q224 as real == Q192 as real * Square(Q128 as real)
  {
  }

  lemma AtLeast64Bits(t: nat)
    requires t <= MAX_TICK
    ensures 0x1_0000_0000_0000_0000 <= Magnitude(t)
  {
    AtMaxTick();
    hide Magnitude;
    MagnitudeOrder(t, MAX_TICK);
  }

  /**
    On the named range the result for a positive tick is the square root of the price 1.0001^t in Q96, to
    one unit and one part in 2^44.
   */
  lemma PositiveTickIsPriceRoot(t: int)
    requires 0 < t <= MAX_TICK
    ensures SqrtRatioAtTick(t).Ok?
    ensures IsNearRoot(SqrtRatioAtTick(t).value as real, RealPow(TICK_BASE, t), Q192 as real, TINY)
  {
    hide Magnitude, ToX96, RealPow, Square, IsPriceRoot, IsInverse, IsRootWithin, IsTiny, IsNearRoot;
    var m, k := Magnitude(t), t / 2 + 1;
    AtLeast64Bits(t);
    PriceIsPositive(t);
    var u := SqrtRatioAtTick(t).value;
    ShiftedInverse(m, u);
    InverseInReals(m, u);
    MagnitudeIsPriceRoot(t);
    RootInReals(m, k, t);
    RelativeError(m, k);
    PowersInvert(t);
    Scales();
    InverseOfRoot(u as real, m as real, k as real, RealPow(PRICE_STEP, t), RealPow(TICK_BASE, t),
                  Q192 as real, Square(Q128 as real), Q224 as real, TINY);
  }
}
