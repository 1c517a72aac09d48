/**
  Truncating fixed-point square-and-multiply, for any scale `q`: a value x stands for x / q, a product
  is truncated to a multiple of 1 / q, and a power is computed by squaring.
 */
module FixedPoint {
  import opened Powers

  /** A fixed-point product: multiply, then drop the fraction. */
  function MulShift(q: nat, x: nat, y: nat): (z: nat)
    requires 0 < q
    ensures z * q <= x * y < z * q + q
  {
    DivisionBounds(x * y, q);
    x * y / q
  }

  lemma DivisionBounds(n: nat, q: nat)
    requires 0 < q
    ensures n / q * q <= n < n / q * q + q
  {
  }

  /** What is left of the loop when `res`, `ratio` and the remaining bits `m` are given. */
  function Accumulate(q: nat, res: nat, ratio: nat, m: nat): nat
    requires 0 < q
    decreases m
  {
    if m == 0 then res
    else Accumulate(q, if m % 2 != 0 then MulShift(q, res, ratio) else res, MulShift(q, ratio, ratio), m / 2)
  }

  lemma Unroll(q: nat, res: nat, ratio: nat, m: nat)
    requires 0 < q
    ensures m == 0 ==> Accumulate(q, res, ratio, m) == res
    ensures m != 0 && m % 2 != 0 ==>
              Accumulate(q, res, ratio, m) == Accumulate(q, MulShift(q, res, ratio), MulShift(q, ratio, ratio), m / 2)
    ensures m != 0 && m % 2 == 0 ==>
              Accumulate(q, res, ratio, m) == Accumulate(q, res, MulShift(q, ratio, ratio), m / 2)
  {
    hide MulShift;
  }

  // --- Word sizes ------------------------------------------------------------------------------

  /** Every intermediate value of the loop stays within the scale and every product within its square. */
  ghost predicate StaysInWords(q: nat, res: nat, ratio: nat, m: nat)
    requires 0 < q
    decreases m
  {
    && res <= q
    && ratio < q
    && res * ratio < q * q
    && ratio * ratio < q * q
    && (m != 0 ==>
          StaysInWords(q, if m % 2 != 0 then MulShift(q, res, ratio) else res, MulShift(q, ratio, ratio), m / 2))
  }

  lemma ShrinkingProduct(q: nat, x: nat, ratio: nat)
    requires 0 < q && x <= q && ratio < q
    ensures x * ratio < q * q
    ensures MulShift(q, x, ratio) <= x
    ensures MulShift(q, x, ratio) <= ratio
  {
    hide MulShift;
    var z := MulShift(q, x, ratio);
    MulMonotone(x, q, ratio, ratio);
    MulMonotone(ratio + 1, q, q, q);
    assert q * ratio < q * q;
    MulMonotone(x, x, ratio, q);
    Cancel(q, z, x);
    Cancel(q, z, ratio);
  }

  lemma Cancel(q: nat, a: nat, b: nat)
    requires 0 < q && q * a <= q * b
    ensures a <= b
  {
  }

  lemma {:induction false} LoopStaysInWords(q: nat, res: nat, ratio: nat, m: nat)
    requires 0 < q && res <= q && ratio < q
    ensures StaysInWords(q, res, ratio, m)
    decreases m
  {
    hide MulShift;
    ShrinkingProduct(q, res, ratio);
    ShrinkingProduct(q, ratio, ratio);
    if m != 0 {
      LoopStaysInWords(q, if m % 2 != 0 then MulShift(q, res, ratio) else res, MulShift(q, ratio, ratio), m / 2);
    }
  }

  // --- Truncation error ------------------------------------------------------------------------

  /** `x` is below `start` times the n-th power of `s` over `q`, and short of it by at most `loss` units. */
  ghost predicate Brackets(q: nat, s: nat, x: nat, start: nat, n: nat, loss: nat)
  {
    Between(x, loss, Pow(q, n), start, Pow(s, n))
  }

  ghost predicate Between(x: nat, loss: nat, p: nat, y: nat, s: nat)
  {
    x * p <= y * s <= (x + loss) * p
  }

  /** One truncated product: the errors of the two factors add up, plus one unit for the floor. */
  lemma TruncatedProduct(q: nat, x: nat, lx: nat, a: nat, y: nat, b: nat, ratio: nat, lr: nat, d: nat, f: nat, z: nat)
    requires 0 < q && x <= q && f <= d && z * q <= x * ratio < z * q + q
    requires Between(x, lx, a, y, b)
    requires Between(ratio, lr, d, q, f)
    ensures Between(z, lx + lr + 1, a * d, y, b * f)
  {
    LowerProduct(q, x, a, y * b, ratio, d, f, z);
    UpperProduct(q, x, lx, a, y * b, ratio, lr, d, f, z);
    Cancel(q, z * (a * d), (y * b) * f);
    Cancel(q, (y * b) * f, (z + lx + lr + 1) * (a * d));
    Associate(y, b, f);
  }

  lemma Associate(a: nat, b: nat, c: nat)
    ensures a * b * c == a * (b * c)
  {
  }

  lemma LowerProduct(q: nat, x: nat, a: nat, e: nat, y: nat, d: nat, f: nat, z: nat)
    requires x * a <= e
    requires y * d <= q * f
    requires z * q <= x * y
    ensures q * (z * (a * d)) <= q * (e * f)
  {
    Shuffle(q, z, a * d);
    MulMonotone(z * q, x * y, a * d, a * d);
    Interleave(x, y, a, d);
    MulMonotone(x * a, e, y * d, q * f);
    Shuffle(q, e, f);
  }

  lemma Shuffle(q: nat, e: nat, f: nat)
    ensures q * (e * f) == (e * q) * f == e * (q * f)
  {
  }

  lemma Interleave(x: nat, y: nat, a: nat, d: nat)
    ensures (x * y) * (a * d) == (x * a) * (y * d)
  {
    Associate(x, y, a * d);
    Associate(x, a, y * d);
    Shuffle(y, a, d);
  }

  lemma UpperProduct(q: nat, x: nat, lx: nat, a: nat, e: nat, y: nat, ly: nat, d: nat, f: nat, z: nat)
    requires 0 < q && x <= q
    requires e <= (x + lx) * a
    requires q * f <= (y + ly) * d
    requires f <= d
    requires x * y <= z * q + q
    ensures q * (e * f) <= q * ((z + lx + ly + 1) * (a * d))
  {
    calc {
      q * (e * f);
    == { Shuffle(q, e, f); }
      e * (q * f);
    <= { UpperSpread(q, x, lx, a, e, y, ly, d, f); }
      (x * a) * ((y + ly) * d) + (lx * a) * (q * d);
    == { Regroup(x, y, ly, a, d, lx, q); }
      (x * y) * (a * d) + (x * ly) * (a * d) + q * lx * (a * d);
    <= { UpperFloor(q, x, y, ly, z, a * d); }
      (z * q + q) * (a * d) + (q * ly) * (a * d) + q * lx * (a * d);
    == { Collect(q, z, lx, ly, a * d); }
      q * ((z + lx + ly + 1) * (a * d));
    }
  }

  lemma UpperSpread(q: nat, x: nat, lx: nat, a: nat, e: nat, y: nat, ly: nat, d: nat, f: nat)
    requires e <= (x + lx) * a
    requires q * f <= (y + ly) * d
    requires f <= d
    ensures e * (q * f) <= (x * a) * ((y + ly) * d) + (lx * a) * (q * d)
  {
    MulMonotone(e, (x + lx) * a, q * f, q * f);
    Distribute(x, lx, a, q * f);
    MulMonotone(x * a, x * a, q * f, (y + ly) * d);
    MulMonotone(q, q, f, d);
    MulMonotone(lx * a, lx * a, q * f, q * d);
  }

  lemma UpperFloor(q: nat, x: nat, y: nat, ly: nat, z: nat, g: nat)
    requires x <= q && x * y <= z * q + q
    ensures (x * y) * g + (x * ly) * g <= (z * q + q) * g + (q * ly) * g
  {
    MulMonotone(x * y, z * q + q, g, g);
    MulMonotone(x, q, ly, ly);
    MulMonotone(x * ly, q * ly, g, g);
  }

  lemma Distribute(x: nat, lx: nat, a: nat, g: nat)
    ensures ((x + lx) * a) * g == (x * a) * g + (lx * a) * g
  {
    assert (x + lx) * a == x * a + lx * a;
  }

  lemma Regroup(x: nat, y: nat, ly: nat, a: nat, d: nat, lx: nat, q: nat)
    ensures (x * a) * ((y + ly) * d) + (lx * a) * (q * d) == (x * y) * (a * d) + (x * ly) * (a * d) + q * lx * (a * d)
  {
    assert (x * a) * ((y + ly) * d) == (x * (y + ly)) * (a * d);
    assert x * (y + ly) == x * y + x * ly;
    assert (lx * a) * (q * d) == q * lx * (a * d);
  }

  lemma Collect(q: nat, z: nat, lx: nat, ly: nat, g: nat)
    ensures (z * q + q) * g + (q * ly) * g + q * lx * g == q * ((z + lx + ly + 1) * g)
  {
    assert q * ((z + lx + ly + 1) * g) == (q * (z + lx + ly + 1)) * g;
    assert q * (z + lx + ly + 1) == z * q + q + q * ly + q * lx;
  }

  /** Multiplying a bracketed value by a bracketed ratio brackets the product. */
  lemma ProductBrackets(q: nat, s: nat, x: nat, start: nat, n: nat, loss: nat, ratio: nat, p: nat)
    requires 0 < p && s <= q && 0 < q && x <= q
    requires Brackets(q, s, x, start, n, loss)
    requires Brackets(q, s, ratio, q, p, p - 1)
    ensures Brackets(q, s, MulShift(q, x, ratio), start, n + p, loss + p)
  {
    PowMonotone(s, q, p);
    PowAdd(q, n, p);
    PowAdd(s, n, p);
    hide Pow, Between, MulShift;
    TruncatedProduct(q, x, loss, Pow(q, n), start, Pow(s, n), ratio, p - 1, Pow(q, p), Pow(s, p),
                     MulShift(q, x, ratio));
  }

  /** The loop, started anywhere with `low` of the `n` steps done and `ratio` standing for `p` of them. */
  lemma {:induction false} LoopBrackets(q: nat, s: nat, start: nat, low: nat, p: nat, res: nat, ratio: nat, m: nat)
    requires 0 < p && s <= q && res <= q && ratio < q
    requires Brackets(q, s, res, start, low, low)
    requires Brackets(q, s, ratio, q, p, p - 1)
    ensures Brackets(q, s, Accumulate(q, res, ratio, m), start, low + p * m, low + p * m)
    decreases m
  {
    hide MulShift, Brackets;
    if m == 0 {
      assert p * 0 == 0;
    } else {
      ShrinkingProduct(q, res, ratio);
      ShrinkingProduct(q, ratio, ratio);
      ProductBrackets(q, s, ratio, q, p, p - 1, ratio, p);
      HalfStep(low, p, m);
      if m % 2 != 0 {
        ProductBrackets(q, s, res, start, low, low, ratio, p);
        LoopBrackets(q, s, start, low + p, p + p, MulShift(q, res, ratio), MulShift(q, ratio, ratio), m / 2);
      } else {
        LoopBrackets(q, s, start, low, p + p, res, MulShift(q, ratio, ratio), m / 2);
      }
    }
  }

  lemma HalfStep(low: nat, p: nat, m: nat)
    ensures m % 2 != 0 ==> low + p + (p + p) * (m / 2) == low + p * m
    ensures m % 2 == 0 ==> low + (p + p) * (m / 2) == low + p * m
  {
    var h := m / 2;
    assert (p + p) * h == p * (2 * h);
    if m % 2 != 0 {
      assert m == 2 * h + 1;
      assert p * (2 * h + 1) == p * (2 * h) + p;
    }
  }

  /** The whole loop: it never exceeds the exact power, and loses at most one unit per factor. */
  lemma PowerBrackets(q: nat, s: nat, start: nat, n: nat)
    requires s < q && start <= q
    ensures Brackets(q, s, Accumulate(q, start, s, n), start, n, n)
  {
    assert Pow(q, 1) == q && Pow(s, 1) == s;
    assert Brackets(q, s, start, start, 0, 0);
    LoopBrackets(q, s, start, 0, 1, start, s, n);
  }

  // --- Set bits --------------------------------------------------------------------------------

  /** The loop run over `k` set bits. */
  function AllOnes(q: nat, res: nat, ratio: nat, k: nat): nat
    requires 0 < q
    decreases k
  {
    if k == 0 then res else AllOnes(q, MulShift(q, res, ratio), MulShift(q, ratio, ratio), k - 1)
  }

  /** The ratio after `k` squarings. */
  function Squared(q: nat, ratio: nat, k: nat): nat
    requires 0 < q
    decreases k
  {
    if k == 0 then ratio else Squared(q, MulShift(q, ratio, ratio), k - 1)
  }

  lemma FloorMonotone(q: nat, a: nat, b: nat, ratio: nat)
    requires 0 < q && a <= b
    ensures MulShift(q, a, ratio) <= MulShift(q, b, ratio)
  {
    hide MulShift;
    MulMonotone(a, b, ratio, ratio);
    var x, y := MulShift(q, a, ratio), MulShift(q, b, ratio);
    if y + 1 <= x {
      MulMonotone(y + 1, x, q, q);
      assert false;
    }
  }

  /** Turning further bits of the exponent on never raises the result. */
  lemma {:induction false} SetBitsOnlyLower(q: nat, low: nat, res: nat, ratio: nat, m: nat, k: nat)
    requires low <= res <= q && ratio < q
    requires m < Pow(2, k)
    ensures AllOnes(q, low, ratio, k) <= Accumulate(q, res, ratio, m)
    decreases k
  {
    hide MulShift;
    if k == 0 {
    } else {
      ShrinkingProduct(q, low, ratio);
      ShrinkingProduct(q, res, ratio);
      ShrinkingProduct(q, ratio, ratio);
      FloorMonotone(q, low, res, ratio);
      var next := if m % 2 != 0 then MulShift(q, res, ratio) else res;
      SetBitsOnlyLower(q, MulShift(q, low, ratio), next, MulShift(q, ratio, ratio), m / 2, k - 1);
    }
  }

  lemma {:induction false} AccumulateOnlyLowers(q: nat, res: nat, ratio: nat, m: nat)
    requires res <= q && ratio < q
    ensures Accumulate(q, res, ratio, m) <= res
    decreases m
  {
    hide MulShift;
    if m != 0 {
      ShrinkingProduct(q, res, ratio);
      ShrinkingProduct(q, ratio, ratio);
      AccumulateOnlyLowers(q, if m % 2 != 0 then MulShift(q, res, ratio) else res, MulShift(q, ratio, ratio), m / 2);
    }
  }

  lemma ZeroProduct(q: nat, x: nat)
    requires 0 < q
    ensures MulShift(q, x, 0) == 0
  {
  }

  lemma {:induction false} ZeroRatioZeroes(q: nat, res: nat, m: nat)
    requires 0 < q && m > 0
    ensures Accumulate(q, res, 0, m) == 0
    decreases m
  {
    hide MulShift;
    ZeroProduct(q, res);
    ZeroProduct(q, 0);
    if m == 1 {
    } else if m % 2 != 0 {
      ZeroRatioZeroes(q, 0, m / 2);
    } else {
      ZeroRatioZeroes(q, res, m / 2);
    }
  }

  /** Once repeated squaring has reached zero, every exponent with a bit that high gives zero. */
  lemma {:induction false} HighBitZeroes(q: nat, res: nat, ratio: nat, m: nat, k: nat)
    requires 0 < q && Squared(q, ratio, k) == 0
    requires Pow(2, k) <= m
    ensures Accumulate(q, res, ratio, m) == 0
    decreases k
  {
    hide MulShift;
    if k == 0 {
      ZeroRatioZeroes(q, res, m);
    } else {
      HighBitZeroes(q, if m % 2 != 0 then MulShift(q, res, ratio) else res, MulShift(q, ratio, ratio), m / 2, k - 1);
    }
  }

  /** A bit above all others multiplies the result by the ratio squared that often. */
  lemma {:induction false} TopBit(q: nat, res: nat, ratio: nat, m: nat, k: nat)
    requires 0 < q && m < Pow(2, k)
    ensures Accumulate(q, res, ratio, m + Pow(2, k)) == MulShift(q, Accumulate(q, res, ratio, m), Squared(q, ratio, k))
    decreases k
  {
    hide MulShift, Accumulate;
    Unroll(q, res, ratio, m);
    Unroll(q, res, ratio, m + Pow(2, k));
    if k == 0 {
      Unroll(q, MulShift(q, res, ratio), MulShift(q, ratio, ratio), 0);
    } else {
      assert Pow(2, k) == 2 * Pow(2, k - 1);
      assert (m + Pow(2, k)) / 2 == m / 2 + Pow(2, k - 1) && (m + Pow(2, k)) % 2 == m % 2;
      TopBit(q, if m % 2 != 0 then MulShift(q, res, ratio) else res, MulShift(q, ratio, ratio), m / 2, k - 1);
      if m == 0 {
        Unroll(q, res, MulShift(q, ratio, ratio), 0);
      }
    }
  }

  /** One iteration on given numbers. */
  lemma ChainLink(q: nat, res: nat, ratio: nat, k: nat, next: nat, square: nat)
    requires 0 < q
    requires next * q <= res * ratio < next * q + q
    requires square * q <= ratio * ratio < square * q + q
    ensures AllOnes(q, res, ratio, k + 1) == AllOnes(q, next, square, k)
    ensures Squared(q, ratio, k + 2) == Squared(q, square, k + 1)
  {
    hide MulShift;
    SameFloor(q, MulShift(q, res, ratio), next, res * ratio);
    SameFloor(q, MulShift(q, ratio, ratio), square, ratio * ratio);
  }

  lemma SquareLink(q: nat, ratio: nat, k: nat, square: nat)
    requires 0 < q
    requires square * q <= ratio * ratio < square * q + q
    ensures Squared(q, ratio, k + 1) == Squared(q, square, k)
  {
    hide MulShift;
    SameFloor(q, MulShift(q, ratio, ratio), square, ratio * ratio);
  }

  lemma LoopLink(q: nat, res: nat, ratio: nat, m: nat, next: nat, square: nat)
    requires 0 < q && m != 0
    requires m % 2 == 0 ==> next == res
    requires m % 2 != 0 ==> next * q <= res * ratio < next * q + q
    requires square * q <= ratio * ratio < square * q + q
    ensures Accumulate(q, res, ratio, m) == Accumulate(q, next, square, m / 2)
  {
    hide MulShift, Accumulate;
    Unroll(q, res, ratio, m);
    SameFloor(q, MulShift(q, ratio, ratio), square, ratio * ratio);
    if m % 2 != 0 {
      SameFloor(q, MulShift(q, res, ratio), next, res * ratio);
    }
  }

  lemma SameFloor(q: nat, x: nat, y: nat, n: nat)
    requires x * q <= n < x * q + q && y * q <= n < y * q + q
    ensures x == y
  {
    if x < y {
      MulMonotone(x + 1, y, q, q);
      assert false;
    } else if y < x {
      MulMonotone(y + 1, x, q, q);
      assert false;
    }
  }
}
