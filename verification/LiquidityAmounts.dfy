/**
  Token amounts of a concentrated-liquidity position at a price, from lib/math/concentrated-liq.go.
  Prices are Q96 square roots; `big.Rat` results are exact, so they are modelled as reals.
 */
module LiquidityAmounts {
  import opened Powers
  import opened Outcomes

  const Q96: nat := 0x1_0000_0000_0000_0000_0000_0000

  /** A `*big.Int` argument, which callers may leave nil. */
  datatype Maybe = Nil | Num(n: int)

  /** big.Int.Quo: division truncated towards zero. */
  function Quo(a: int, b: int): (q: int)
    requires b != 0
  {
    if a >= 0 then (if b > 0 then a / b else -(a / -b))
    else (if b > 0 then -(-a / b) else -a / -b)
  }

  function Lower(a: int, b: int): int { if a > b then b else a }

  function Upper(a: int, b: int): int { if a > b then a else b }

  function Numerator(liq: int, lo: int, hi: int): int { liq * Q96 * (hi - lo) }

  /** Token 0 held between two prices. Both divisions panic on zero. */
  function Amount0(a: int, b: int, liq: int): Outcome<real>
  {
    var lo, hi := Lower(a, b), Upper(a, b);
    if hi == 0 || lo == 0 then Panic
    else Ok(Quo(Numerator(liq, lo, hi), hi) as real / lo as real)
  }

  /** Token 1 held between two prices. */
  function Amount1(a: int, b: int, liq: int): real
  {
    (liq * (Upper(a, b) - Lower(a, b))) as real / Q96 as real
  }

  function GetAmount0ForLiq(a: Maybe, b: Maybe, liq: Maybe): Outcome<real>
  {
    if a.Nil? || b.Nil? || liq.Nil? then Ok(0.0) else Amount0(a.n, b.n, liq.n)
  }

  function GetAmount1ForLiq(a: Maybe, b: Maybe, liq: Maybe): real
  {
    if a.Nil? || b.Nil? || liq.Nil? then 0.0 else Amount1(a.n, b.n, liq.n)
  }

  function GetAmountsForLiq(price: Maybe, a: Maybe, b: Maybe, liq: Maybe): Outcome<(real, real)>
  {
    if price.Nil? || a.Nil? || b.Nil? || liq.Nil? then Ok((0.0, 0.0))
    else
      var lo, hi := Num(Lower(a.n, b.n)), Num(Upper(a.n, b.n));
      if price.n <= lo.n then
        var amount0 :- GetAmount0ForLiq(lo, hi, liq);
        Ok((amount0, 0.0))
      else if price.n < hi.n then
        var amount0 :- GetAmount0ForLiq(price, hi, liq);
        Ok((amount0, GetAmount1ForLiq(lo, price, liq)))
      else
        Ok((0.0, GetAmount1ForLiq(lo, hi, liq)))
  }

  function Amounts(price: int, a: int, b: int, liq: int): Outcome<(real, real)>
  {
    GetAmountsForLiq(Num(price), Num(a), Num(b), Num(liq))
  }

  // --- Shape -----------------------------------------------------------------------------------

  /** The order in which the two bounds are given does not matter, at any price, nil or not. */
  lemma BoundOrder(price: Maybe, a: Maybe, b: Maybe, liq: Maybe)
    ensures GetAmountsForLiq(price, a, b, liq) == GetAmountsForLiq(price, b, a, liq)
  {
  }

  function Clamp(price: int, lo: int, hi: int): int
    requires lo <= hi
  {
    if price < lo then lo else if price > hi then hi else price
  }

  /**
    The three branches are one formula: between positive bounds a position holds the token 0 from the
    clamped price up to the higher bound and the token 1 from the lower bound up to the clamped price.
    So a position out of range holds what it would hold at the nearer bound.
   */
  lemma Holding(price: int, lo: int, hi: int, liq: int)
    requires 0 < lo <= hi
    ensures var p := Clamp(price, lo, hi);
            && Amount0(p, hi, liq).Ok?
            && Amounts(price, lo, hi, liq) == Ok((Amount0(p, hi, liq).value, Amount1(lo, p, liq)))
  {
    NothingBetween(hi, liq);
    NothingBetween(lo, liq);
  }

  lemma NothingBetween(p: int, liq: int)
    requires 0 < p
    ensures Amount0(p, p, liq) == Ok(0.0)
    ensures Amount1(p, p, liq) == 0.0
  {
    assert Numerator(liq, p, p) == 0;
    assert liq * (p - p) == 0;
  }

  /** No amount of a position with liquidity is negative. */
  lemma AmountsNonNegative(price: int, lo: int, hi: int, liq: nat)
    requires 0 < lo <= hi
    ensures Amounts(price, lo, hi, liq).Ok?
    ensures var (amount0, amount1) := Amounts(price, lo, hi, liq).value;
            0.0 <= amount0 && 0.0 <= amount1
  {
    hide Amounts, Amount0, Amount1;
    Holding(price, lo, hi, liq);
    var p := Clamp(price, lo, hi);
    Token0NonNegative(p, hi, liq);
    Token1NonNegative(lo, p, liq);
  }

  lemma Token0NonNegative(p: int, hi: int, liq: nat)
    requires 0 < p <= hi
    ensures Amount0(p, hi, liq).Ok? && 0.0 <= Amount0(p, hi, liq).value
  {
    hide Numerator;
    NumeratorNonNegative(p, hi, liq);
    var num := Quo(Numerator(liq, p, hi), hi);
    assert 0 <= num;
    QuotientNonNegative(num as real, p as real);
  }

  lemma NumeratorNonNegative(p: int, hi: int, liq: nat)
    requires p <= hi
    ensures 0 <= Numerator(liq, p, hi)
  {
    MulMonotone(0, liq * Q96, 0, hi - p);
  }

  lemma Token1NonNegative(lo: int, p: int, liq: nat)
    requires lo <= p
    ensures 0.0 <= Amount1(lo, p, liq)
  {
    MulMonotone(0, liq, 0, p - lo);
    QuotientNonNegative((liq * (p - lo)) as real, Q96 as real);
  }

  lemma QuotientNonNegative(x: real, y: real)
    requires 0.0 <= x && 0.0 < y
    ensures 0.0 <= x / y
  {
  }

  // --- Negative liquidity and undefined amounts ------------------------------------------------

  /** Negating the liquidity negates the amounts, since the division truncates towards zero. */
  lemma NegatedLiquidity(price: int, lo: int, hi: int, liq: int)
    requires 0 < lo <= hi
    ensures Amounts(price, lo, hi, liq).Ok? && Amounts(price, lo, hi, -liq).Ok?
    ensures var amounts, negated := Amounts(price, lo, hi, liq).value, Amounts(price, lo, hi, -liq).value;
            negated == (-amounts.0, -amounts.1)
  {
    hide Amounts, Amount0, Amount1;
    Holding(price, lo, hi, liq);
    Holding(price, lo, hi, -liq);
    var p := Clamp(price, lo, hi);
    NegatedToken0(p, hi, liq);
    NegatedToken1(lo, p, liq);
  }

  lemma NegatedToken0(p: int, hi: int, liq: int)
    requires 0 < p <= hi
    ensures Amount0(p, hi, liq).Ok? && Amount0(p, hi, -liq).Ok?
    ensures Amount0(p, hi, -liq).value == -Amount0(p, hi, liq).value
  {
    assert Numerator(-liq, p, hi) == -Numerator(liq, p, hi) by {
      NegatedProduct(liq, Q96, hi - p);
    }
    hide Numerator;
    var num := Quo(Numerator(liq, p, hi), hi);
    assert Quo(-Numerator(liq, p, hi), hi) == -num;
    hide Quo;
    NegatedFraction(num, p);
  }

  lemma NegatedProduct(a: int, b: int, c: int)
    ensures -a * b * c == -(a * b * c)
  {
    assert -a * b == -(a * b);
  }

  lemma NegatedFraction(x: int, y: int)
    requires 0 < y
    ensures (-x) as real / y as real == -(x as real / y as real)
  {
  }

  lemma NegatedToken1(lo: int, p: int, liq: int)
    requires lo <= p
    ensures Amount1(lo, p, -liq) == -Amount1(lo, p, liq)
  {
    assert -liq * (p - lo) == -(liq * (p - lo));
    NegatedFraction(liq * (p - lo), Q96);
  }

  /** A nil argument makes both amounts zero, and otherwise they are defined unless a division by a zero price is due. */
  lemma DefinedExactly(price: Maybe, a: Maybe, b: Maybe, liq: Maybe)
    ensures price.Nil? || a.Nil? || b.Nil? || liq.Nil? ==> GetAmountsForLiq(price, a, b, liq) == Ok((0.0, 0.0))
    ensures price.Num? && a.Num? && b.Num? && liq.Num? ==>
              var lo, hi := Lower(a.n, b.n), Upper(a.n, b.n);
              GetAmountsForLiq(price, a, b, liq).Panic? <==>
              || (price.n <= lo && (lo == 0 || hi == 0))
              || (lo < price.n < hi && (price.n == 0 || hi == 0))
  {
  }

  // --- Token 0 is the truncated hyperbola ------------------------------------------------------

  /** The exact token 0 of liquidity between two prices: liq * 2^96 * (1/p - 1/hi). */
  ghost function Exact0(liq: nat, p: nat, hi: nat): real
    requires 0 < p && 0 < hi
  {
    Ratio(liq * Q96, p) - Ratio(liq * Q96, hi)
  }

  ghost function Ratio(x: int, y: nat): real
    requires 0 < y
  {
    x as real / y as real
  }

  /** `x` falls short of `exact` by less than one part in `p`. */
  ghost predicate ShortBy(x: real, exact: real, p: nat)
    requires 0 < p
  {
    exact - Ratio(1, p) < x <= exact
  }

  /** For positive prices the integer division loses less than one unit of the numerator. */
  lemma Amount0IsExact(liq: nat, p: nat, hi: nat)
    requires 0 < p <= hi
    ensures Amount0(p, hi, liq).Ok?
    ensures ShortBy(Amount0(p, hi, liq).value, Exact0(liq, p, hi), p)
  {
    hide Amount0, Ratio, ShortBy;
    var num := Amount0Quotient(liq, p, hi);
    SplitFraction(liq * Q96, p, hi, num);
  }

  lemma Amount0Quotient(liq: nat, p: nat, hi: nat) returns (num: nat)
    requires 0 < p <= hi
    ensures Amount0(p, hi, liq) == Ok(Ratio(num, p))
    ensures num * hi <= (liq * Q96) * (hi - p) < num * hi + hi
  {
    var product: nat := NumeratorIsNat(liq, p, hi);
    num := product / hi;
    FloorQuotient(product, hi, num);
    hide Numerator;
    assert Quo(Numerator(liq, p, hi), hi) == num;
  }

  lemma NumeratorIsNat(liq: nat, p: nat, hi: nat) returns (n: nat)
    requires p <= hi
    ensures n == Numerator(liq, p, hi)
  {
    MulMonotone(0, liq * Q96, hi - p, hi - p);
    n := Numerator(liq, p, hi);
  }

  lemma FloorQuotient(n: nat, d: nat, q: nat)
    requires 0 < d && q == n / d
    ensures q * d <= n < q * d + d
  {
  }

  lemma SplitFraction(l: nat, p: nat, hi: nat, num: nat)
    requires 0 < p <= hi
    requires num * hi <= l * (hi - p) < num * hi + hi
    ensures ShortBy(Ratio(num, p), Ratio(l, p) - Ratio(l, hi), p)
  {
    var a, b, c, r := Ratio(l, p), Ratio(l, hi), Ratio(num, p), Ratio(1, p);
    RatioTimes(l, p);
    RatioTimes(l, hi);
    RatioTimes(num, p);
    RatioTimes(1, p);
    RealOfProduct(num, hi);
    RealOfProduct(l, hi - p);
    hide Ratio;
    assert (num * hi + hi) as real == num as real * hi as real + hi as real;
    FractionBounds(l as real, p as real, hi as real, num as real, a, b, c, r);
  }

  lemma RatioTimes(x: int, y: nat)
    requires 0 < y
    ensures Ratio(x, y) * y as real == x as real
  {
  }

  lemma FractionBounds(l: real, p: real, hi: real, num: real, a: real, b: real, c: real, r: real)
    requires 0.0 < p && 0.0 < hi
    requires a * p == l && b * hi == l && c * p == num && r * p == 1.0
    requires num * hi <= l * (hi - p) < num * hi + hi
    ensures a - b - r < c <= a - b
  {
    var gap := a - b - c;
    calc {
      (gap * p) * hi;
    == { FourTerms(a, b, c, p, hi); }
      (a * p) * hi - (b * hi) * p - (c * p) * hi;
    ==
      l * (hi - p) - num * hi;
    }
    assert r * p * hi == hi;
    if gap < 0.0 {
      RealMulMonotone(0.0, -gap, p, p);
      StrictProduct(-gap, p);
      StrictProduct(-gap * p, hi);
      assert false;
    }
    if r <= gap {
      ScaleOrder(r, gap, p);
      ScaleOrder(r * p, gap * p, hi);
      assert false;
    }
  }

  lemma FourTerms(a: real, b: real, c: real, p: real, hi: real)
    ensures ((a - b - c) * p) * hi == (a * p) * hi - (b * hi) * p - (c * p) * hi
  {
  }

  // --- The curve -------------------------------------------------------------------------------

  /**
    Equation 2.2, section 2 of the Uniswap v3 Core whitepaper: the real reserves, each shifted by the
    virtual reserve of its bound, multiply to the square of the liquidity.
   */
  ghost predicate OnCurve(amount0: real, amount1: real, liq: nat, lo: nat, hi: nat)
    requires 0 < hi
  {
    NearSquare(amount0 + Ratio(liq * Q96, hi), amount1 + Ratio(liq * lo, Q96), liq)
  }

  /** The product is at most the square of the liquidity, and short of it by at most liq / 2^96. */
  ghost predicate NearSquare(x: real, y: real, liq: nat)
  {
    Square(liq as real) - Ratio(liq, Q96) <= x * y <= Square(liq as real)
  }

  /** At every price, in and out of range, the computed amounts lie on the curve. */
  lemma AmountsOnCurve(price: int, lo: nat, hi: nat, liq: nat)
    requires 0 < lo < hi
    ensures Amounts(price, lo, hi, liq).Ok?
    ensures var (amount0, amount1) := Amounts(price, lo, hi, liq).value;
            OnCurve(amount0, amount1, liq, lo, hi)
  {
    hide Amounts, Amount0, Amount1, Ratio, NearSquare;
    Holding(price, lo, hi, liq);
    var p: nat := Clamp(price, lo, hi);
    Amount0IsExact(liq, p, hi);
    ShiftedToken1(lo, p, liq);
    ProductOnCurve(Amount0(p, hi, liq).value + Ratio(liq * Q96, hi), p, liq);
  }

  lemma ShiftedToken1(lo: nat, p: nat, liq: nat)
    requires lo <= p
    ensures Amount1(lo, p, liq) + Ratio(liq * lo, Q96) == Ratio(liq * p, Q96)
  {
    RatioSum(liq * (p - lo), liq * lo, Q96);
    assert liq * (p - lo) + liq * lo == liq * p;
  }

  lemma RatioPositive(x: nat, y: nat)
    requires 0 < x && 0 < y
    ensures 0.0 < Ratio(x, y)
  {
  }

  lemma RatioSum(x: int, y: int, z: nat)
    requires 0 < z
    ensures Ratio(x, z) + Ratio(y, z) == Ratio(x + y, z)
  {
  }

  lemma ProductOnCurve(x: real, p: nat, liq: nat)
    requires 0 < p
    requires ShortBy(x, Ratio(liq * Q96, p), p)
    ensures NearSquare(x, Ratio(liq * p, Q96), liq)
  {
    RatioTimes(liq * Q96, p);
    RatioTimes(1, p);
    RatioTimes(liq * p, Q96);
    RatioTimes(liq, Q96);
    RealOfProduct(liq, p);
    RealOfProduct(liq, Q96);
    hide Ratio, Square;
    CurveProduct(x, Ratio(liq * Q96, p), Ratio(1, p), p as real, liq as real, Q96 as real,
                 Ratio(liq * p, Q96), Ratio(liq, Q96));
  }

  lemma CurveProduct(x: real, top: real, r: real, p: real, l: real, q: real, y: real, loss: real)
    requires 0.0 < p && 0.0 < q && 0.0 <= l
    requires top * p == l * q && r * p == 1.0 && y * q == l * p && loss * q == l
    requires top - r < x <= top
    ensures Square(l) - loss <= x * y <= Square(l)
  {
    ScaleOrder(x, top, p);
    ScaleOrder(top - r, x, p);
    assert (top - r) * p == l * q - 1.0;
    ScaleOrder(x * p, l * q, l);
    ScaleOrder(l * q - 1.0, x * p, l);
    calc {
      (x * y) * q;
    ==
      x * (y * q);
    ==
      (x * p) * l;
    }
    assert Square(l) * q == (l * q) * l;
    assert (Square(l) - loss) * q == (l * q - 1.0) * l;
    DivideOut(x * y, Square(l), q);
    DivideOut(Square(l) - loss, x * y, q);
  }

  // --- Splitting a range -----------------------------------------------------------------------

  /** `x` and `y` differ by at most two parts in `lo`. */
  ghost predicate WithinTwoParts(x: real, y: real, lo: nat)
    requires 0 < lo
  {
    -Ratio(2, lo) <= x - y <= Ratio(2, lo)
  }

  /**
    Two adjacent positions of equal liquidity hold what the one position over the joint range holds:
    token 1 exactly, token 0 up to the truncations, and exactly once the price has reached the split.
   */
  lemma SplitRange(price: int, lo: nat, m: nat, hi: nat, liq: nat)
    requires 0 < lo <= m <= hi
    ensures Amounts(price, lo, hi, liq).Ok? && Amounts(price, lo, m, liq).Ok? && Amounts(price, m, hi, liq).Ok?
    ensures var whole, left, right :=
              Amounts(price, lo, hi, liq).value, Amounts(price, lo, m, liq).value, Amounts(price, m, hi, liq).value;
            && left.1 + right.1 == whole.1
            && (m <= price ==> left.0 + right.0 == whole.0)
            && WithinTwoParts(left.0 + right.0, whole.0, lo)
  {
    hide Amounts, Amount0, Amount1;
    Holding(price, lo, hi, liq);
    Holding(price, lo, m, liq);
    Holding(price, m, hi, liq);
    SplitToken1(Clamp(price, lo, m), Clamp(price, m, hi), lo, m, liq);
    if m <= price {
      NothingBetween(m, liq);
      RatioPositive(2, lo);
    } else {
      SplitToken0(Clamp(price, lo, m), lo, m, hi, liq);
    }
  }

  lemma SplitToken1(p: int, r: int, lo: int, m: int, liq: int)
    requires lo <= p <= m <= r && (p == m || r == m)
    ensures Amount1(lo, p, liq) + Amount1(m, r, liq) == Amount1(lo, if p == m then r else p, liq)
  {
    RatioSum(liq * (p - lo), liq * (r - m), Q96);
    assert liq * (p - lo) + liq * (r - m) == liq * (p - lo + r - m);
  }

  lemma SplitToken0(p: nat, lo: nat, m: nat, hi: nat, liq: nat)
    requires 0 < lo <= p <= m <= hi
    ensures Amount0(p, m, liq).Ok? && Amount0(m, hi, liq).Ok? && Amount0(p, hi, liq).Ok?
    ensures WithinTwoParts(Amount0(p, m, liq).value + Amount0(m, hi, liq).value, Amount0(p, hi, liq).value, lo)
  {
    hide Amount0, Ratio;
    Amount0IsExact(liq, p, m);
    Amount0IsExact(liq, m, hi);
    Amount0IsExact(liq, p, hi);
    RatioOrder(lo, p);
    RatioOrder(lo, m);
    RatioSum(1, 1, lo);
  }

  lemma RatioOrder(x: nat, y: nat)
    requires 0 < x <= y
    ensures 0.0 < Ratio(1, y) <= Ratio(1, x)
  {
    RatioPositive(1, x);
    RatioPositive(1, y);
    RatioTimes(1, x);
    RatioTimes(1, y);
    hide Ratio;
    InverseOrder(Ratio(1, x), Ratio(1, y), x as real, y as real);
  }

  lemma InverseOrder(a: real, b: real, x: real, y: real)
    requires 0.0 < x <= y && 0.0 < b && a * x == 1.0 && b * y == 1.0
    ensures b <= a
  {
    ScaleOrder(x, y, b);
    DivideOut(b, a, x);
  }
}
