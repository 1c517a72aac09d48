/**
  The tick to square-root-price conversion of lib/math/concentrated-liq.go: a truncating
  square-and-multiply in Q128 fixed point, then a reciprocal for positive ticks and a shift to Q96.
  Big integers are unbounded in the source, so `nat` models them exactly.
 */
module TickMath {
  import opened Powers
  import opened FixedPoint
  import opened Outcomes

  const Q32: nat := 0x1_0000_0000
  const Q128: nat := 0x1_0000_0000_0000_0000_0000_0000_0000_0000
  const Q192: nat := 0x1_0000_0000_0000_0000_0000_0000_0000_0000_0000_0000_0000_0000
  const Q256: nat := 0x1_0000_0000_0000_0000_0000_0000_0000_0000_0000_0000_0000_0000_0000_0000_0000_0000

  /** The initial ratio, one price step (two ticks) downwards, and the start value for odd ticks. */
  const STEP_RATIO: nat := 0xfff9_7272_373d_4132_59a4_6990_580e_213a
  const HALF_STEP: nat := 0xfffc_b933_bd6f_ad37_aa2d_162d_1a59_4001

  const MAX_TICK: nat := 887272
  const MIN_TICK: int := -887272

  /** A bound below which no magnitude of fewer than 21 bits falls. */
  const FLOOR: nat := 0x10_0000_0000_0000

  function Abs(t: int): nat { if t < 0 then -t else t }

  function Start(absTick: nat): (r: nat)
    ensures HALF_STEP <= r <= Q128
  {
    if absTick % 2 != 0 then HALF_STEP else Q128
  }

  /** The Q128 value for the magnitude of a tick, before the reciprocal. */
  function Magnitude(absTick: nat): nat
  {
    Accumulate(Q128, Start(absTick), STEP_RATIO, absTick / 2)
  }

  function ToX96(x: nat): nat
  {
    var shifted := x / Q32;
    if shifted % Q32 != 0 then shifted + 1 else shifted
  }

  /** A positive tick divides by the magnitude, and big.Int.Quo panics on zero. */
  function SqrtRatioAtTick(t: int): Outcome<nat>
  {
    var res := Magnitude(Abs(t));
    if t <= 0 then Ok(ToX96(res))
    else if res == 0 then Panic
    else Ok(ToX96((Q256 - 1) / res))
  }

  method GetSqrtRatioAtTick(t: int) returns (r: Outcome<nat>)
    ensures r == SqrtRatioAtTick(t)
  {
    hide MulShift, Accumulate;
    var absTick: nat := Abs(t);
    var ratio: nat := STEP_RATIO;
    var res: nat := absTick % 2;
    if res != 0 {
      res := HALF_STEP;
    } else {
      res := Q128;
    }
    absTick := absTick / 2;
    while absTick != 0
      invariant Accumulate(Q128, res, ratio, absTick) == Magnitude(Abs(t))
    {
      Unroll(Q128, res, ratio, absTick);
      if absTick % 2 != 0 {
        res := MulShift(Q128, res, ratio);
      }
      ratio := MulShift(Q128, ratio, ratio);
      absTick := absTick / 2;
    }
    Unroll(Q128, res, ratio, 0);
    if t > 0 {
      if res == 0 {
        return Panic;
      }
      res := (Q256 - 1) / res;
    }
    res := res / Q32;
    if res % Q32 != 0 {
      res := res + 1;
    }
    return Ok(res);
  }

  /** For every tick the loop works in 128-bit values and 256-bit products. */
  lemma MagnitudeStaysInWords(absTick: nat)
    ensures StaysInWords(Q128, Start(absTick), STEP_RATIO, absTick / 2)
  {
    LoopStaysInWords(Q128, Start(absTick), STEP_RATIO, absTick / 2);
  }

  /** For every tick, the loop never exceeds the exact power and loses at most one unit per step. */
  lemma MagnitudeBrackets(absTick: nat)
    ensures Brackets(Q128, STEP_RATIO, Magnitude(absTick), Start(absTick), absTick / 2, absTick / 2)
  {
    PowerBrackets(Q128, STEP_RATIO, Start(absTick), absTick / 2);
  }

  // --- Where the reciprocal is defined ---------------------------------------------------------

  lemma TwentyBits()
    ensures Pow(2, 19) == 524288 && Pow(2, 20) == 1048576
  {
    assert Pow(2, 4) == 16;
    PowAdd(2, 4, 4);
    PowAdd(2, 8, 8);
    PowAdd(2, 16, 3);
    PowAdd(2, 16, 4);
  }

  lemma FirstLinks()
    ensures AllOnes(Q128, HALF_STEP, STEP_RATIO, 19)
         == AllOnes(Q128, 0xe718_89a8_5903_fd03_cb7c_c40b_df37_1a27, 0xe715_9475_a2c2_9b74_43b2_9c7f_a6e8_8961, 9)
    ensures Squared(Q128, STEP_RATIO, 20) == Squared(Q128, 0xe715_9475_a2c2_9b74_43b2_9c7f_a6e8_8961, 10)
  {
    hide MulShift;
    ChainLink(Q128, 0xfffc_b933_bd6f_ad37_aa2d_162d_1a59_4001, 0xfff9_7272_373d_4132_59a4_6990_580e_213a, 18,
              0xfff6_2bbb_6d45_8ec3_c792_1063_91dc_463e, 0xfff2_e50f_5f65_6932_ef12_357c_f3c7_fdcc);
    ChainLink(Q128, 0xfff6_2bbb_6d45_8ec3_c792_1063_91dc_463e, 0xfff2_e50f_5f65_6932_ef12_357c_f3c7_fdcc, 17,
              0xffe9_114b_9cf2_8d39_4c32_03db_d44e_b085, 0xffe5_caca_7e10_e4e6_1c36_24ea_a094_1cd0);
    ChainLink(Q128, 0xffe9_114b_9cf2_8d39_4c32_03db_d44e_b085, 0xffe5_caca_7e10_e4e6_1c36_24ea_a094_1cd0, 16,
              0xffce_de6f_1d8b_e90b_88f3_5042_4e84_e5b7, 0xffcb_9843_d60f_6159_c9db_5883_5c92_6643);
    ChainLink(Q128, 0xffce_de6f_1d8b_e90b_88f3_5042_4e84_e5b7, 0xffcb_9843_d60f_6159_c9db_5883_5c92_6643, 15,
              0xff9a_80c1_ada7_480b_1daa_871d_7c4d_9b35, 0xff97_3b41_fa98_c081_472e_6896_dfb2_54be);
    ChainLink(Q128, 0xff9a_80c1_ada7_480b_1daa_871d_7c4d_9b35, 0xff97_3b41_fa98_c081_472e_6896_dfb2_54be, 14,
              0xff31_e58d_5a53_c84f_c142_023e_c1b1_dfd4, 0xff2e_a164_66c9_6a38_43ec_78b3_26b5_285d);
    ChainLink(Q128, 0xff31_e58d_5a53_c84f_c142_023e_c1b1_dfd4, 0xff2e_a164_66c9_6a38_43ec_78b3_26b5_285d, 13,
              0xfe61_2f81_83b1_ea21_b72f_b71b_0354_2add, 0xfe5d_ee04_6a99_a2a8_11c4_61f1_969c_304b);
    ChainLink(Q128, 0xfe61_2f81_83b1_ea21_b72f_b71b_0354_2add, 0xfe5d_ee04_6a99_a2a8_11c4_61f1_969c_304b, 12,
              0xfcc1_c2f3_8053_6bc6_7ee1_ff56_4d10_80a3, 0xfcbe_86c7_900a_88ae_dcff_c83b_479a_a394);
    ChainLink(Q128, 0xfcc1_c2f3_8053_6bc6_7ee1_ff56_4d10_80a3, 0xfcbe_86c7_900a_88ae_dcff_c83b_479a_a394, 11,
              0xf98a_d8c8_d7ec_c0a3_f8a4_2c97_24cf_fb4c, 0xf987_a725_3ac4_1317_6f2b_074c_f781_5e34);
    ChainLink(Q128, 0xf98a_d8c8_d7ec_c0a3_f8a4_2c97_24cf_fb4c, 0xf987_a725_3ac4_1317_6f2b_074c_f781_5e34, 10,
              0xf33c_4801_89b4_1523_5ad1_1942_7d89_a1ba, 0xf339_2b08_22b7_0005_940c_7a39_8e4b_70b4);
    ChainLink(Q128, 0xf33c_4801_89b4_1523_5ad1_1942_7d89_a1ba, 0xf339_2b08_22b7_0005_940c_7a39_8e4b_70b4, 9,
              0xe718_89a8_5903_fd03_cb7c_c40b_df37_1a27, 0xe715_9475_a2c2_9b74_43b2_9c7f_a6e8_8961);
  }

  lemma SecondLinks()
    ensures AllOnes(Q128, 0xe718_89a8_5903_fd03_cb7c_c40b_df37_1a27, 0xe715_9475_a2c2_9b74_43b2_9c7f_a6e8_8961, 9) > FLOOR
    ensures Squared(Q128, 0xe715_9475_a2c2_9b74_43b2_9c7f_a6e8_8961, 10) == 0
  {
    hide MulShift;
    ChainLink(Q128, 0xe718_89a8_5903_fd03_cb7c_c40b_df37_1a27, 0xe715_9475_a2c2_9b74_43b2_9c7f_a6e8_8961, 8,
              0xd09a_9f3e_93db_5812_d482_0c2f_c67a_3d64, 0xd097_f3bd_fd20_22b8_845a_d8f7_92aa_574d);
    ChainLink(Q128, 0xd09a_9f3e_93db_5812_d482_0c2f_c67a_3d64, 0xd097_f3bd_fd20_22b8_845a_d8f7_92aa_574d, 7,
              0xa9f9_7334_5b9e_647c_4163_af91_d00b_2400, 0xa9f7_4646_2d87_0fdf_8a65_dc1f_90e0_6084);
    ChainLink(Q128, 0xa9f9_7334_5b9e_647c_4163_af91_d00b_2400, 0xa9f7_4646_2d87_0fdf_8a65_dc1f_90e0_6084, 6,
              0x70d9_db64_85f0_4ddd_567e_07c7_b89f_8ca8, 0x70d8_69a1_56d2_a1b8_90bb_3df6_2baf_3122);
    ChainLink(Q128, 0x70d9_db64_85f0_4ddd_567e_07c7_b89f_8ca8, 0x70d8_69a1_56d2_a1b8_90bb_3df6_2baf_3122, 5,
              0x31be_b65d_91af_63ae_717a_760b_e3b3_733f, 0x31be_135f_97d0_8fd9_8123_1505_542f_ce08);
    ChainLink(Q128, 0x31be_b65d_91af_63ae_717a_760b_e3b3_733f, 0x31be_135f_97d0_8fd9_8123_1505_542f_ce08, 4,
              0x09aa_7036_fd23_5542_9c40_30b0_32e1_ced0, 0x09aa_508b_5b7a_84e1_c677_de54_f3e9_9b28);
    ChainLink(Q128, 0x09aa_7036_fd23_5542_9c40_30b0_32e1_ced0, 0x09aa_508b_5b7a_84e1_c677_de54_f3e9_9b28, 3,
              0x005d_6c2a_f97a_aa8d_e0e5_a6bf_23f5_e53a, 0x005d_6af8_dedb_8119_6699_c329_225e_e5f8);
    ChainLink(Q128, 0x005d_6c2a_f97a_aa8d_e0e5_a6bf_23f5_e53a, 0x005d_6af8_dedb_8119_6699_c329_225e_e5f8, 2,
              0x2217_5538_8a66_58e1_20f4_a3c5_03cf, 0x2216_e584_f5fa_1ea9_2604_1bed_fe97);
    ChainLink(Q128, 0x2217_5538_8a66_58e1_20f4_a3c5_03cf, 0x2216_e584_f5fa_1ea9_2604_1bed_fe97, 1,
              0x048a_25e3_6942_a4fc_0c1f_899f, 0x048a_1703_91f7_dc42_444e_8fa2);
    ChainLink(Q128, 0x048a_25e3_6942_a4fc_0c1f_899f, 0x048a_1703_91f7_dc42_444e_8fa2, 0,
              0x0014_9b78_73d8_4d48, 0x0014_9b34_ee7a_c262);
    SameFloor(Q128, MulShift(Q128, 0x0014_9b34_ee7a_c262, 0x0014_9b34_ee7a_c262), 0,
              0x0014_9b34_ee7a_c262 * 0x0014_9b34_ee7a_c262);
  }

  /** Nineteen set bits still leave more than 52 bits; twenty squarings leave none. */
  lemma RatioChain()
    ensures AllOnes(Q128, HALF_STEP, STEP_RATIO, 19) > FLOOR
    ensures Squared(Q128, STEP_RATIO, 20) == 0
  {
    hide MulShift;
    FirstLinks();
    SecondLinks();
  }

  /**
    The conversion succeeds on every tick of fewer than 21 bits, so on the whole range the source
    names, and on no positive tick of 22 bits or more: there the magnitude has vanished and the
    division panics.
   */
  lemma TickRange(t: int)
    ensures Abs(t) <= MAX_TICK ==> Abs(t) < 1048576
    ensures Abs(t) < 1048576 ==> Magnitude(Abs(t)) > 0 && SqrtRatioAtTick(t).Ok?
    ensures t >= 2097152 ==> SqrtRatioAtTick(t).Panic?
    ensures t <= -2097152 ==> SqrtRatioAtTick(t) == Ok(0)
  {
    hide MulShift;
    TwentyBits();
    RatioChain();
    if Abs(t) < 1048576 {
      SetBitsOnlyLower(Q128, HALF_STEP, Start(Abs(t)), STEP_RATIO, Abs(t) / 2, 19);
    }
    if Abs(t) >= 2097152 {
      HighBitZeroes(Q128, Start(Abs(t)), STEP_RATIO, Abs(t) / 2, 20);
    }
  }

  lemma MagnitudeBounds(absTick: nat)
    requires absTick < 1048576
    ensures FLOOR < Magnitude(absTick) <= Start(absTick) <= Q128
  {
    hide MulShift, Accumulate;
    TwentyBits();
    RatioChain();
    SetBitsOnlyLower(Q128, HALF_STEP, Start(absTick), STEP_RATIO, absTick / 2, 19);
    AccumulateOnlyLowers(Q128, Start(absTick), STEP_RATIO, absTick / 2);
  }

  /** On that range the price is positive, so the divisions by it are defined. */
  lemma PriceIsPositive(t: int)
    requires Abs(t) < 1048576
    ensures SqrtRatioAtTick(t).Ok? && 0 < SqrtRatioAtTick(t).value
  {
    hide Magnitude;
    MagnitudeBounds(Abs(t));
    ShiftPositive(Magnitude(Abs(t)));
  }

  lemma ShiftPositive(res: nat)
    requires Q32 <= res <= Q128
    ensures 0 < ToX96(res) && 0 < ToX96((Q256 - 1) / res)
  {
    var inv := (Q256 - 1) / res;
    ReciprocalFloor(Q256 - 1, res, inv);
    if inv < Q32 {
      MulMonotone(inv + 1, Q32, res, Q128);
      assert false;
    }
  }

  // --- Opposite ticks --------------------------------------------------------------------------

  lemma ShiftBounds(x: nat)
    ensures (ToX96(x) - 1) * Q32 <= x < (ToX96(x) + 1) * Q32
    ensures x / Q32 <= ToX96(x) <= x / Q32 + 1
  {
  }

  /** `u` and `d` multiply to one in Q96, up to the roundings of both. */
  predicate Reciprocal(u: nat, d: nat)
  {
    Q192 - u - d - 1 <= u * d <= Q192 + u + d + 1
  }

  /** The results for a tick and its opposite are reciprocal in Q96, up to the roundings. */
  lemma OppositeTicks(t: int)
    requires 0 < t <= MAX_TICK
    ensures SqrtRatioAtTick(t).Ok? && SqrtRatioAtTick(-t).Ok?
    ensures Reciprocal(SqrtRatioAtTick(t).value, SqrtRatioAtTick(-t).value)
  {
    TickRange(t);
    OppositeRoots(Magnitude(t));
    hide Reciprocal;
  }

  lemma OppositeRoots(res: nat)
    requires res > 0
    ensures Reciprocal(ToX96((Q256 - 1) / res), ToX96(res))
  {
    var inv := (Q256 - 1) / res;
    ShiftBounds(res);
    ShiftBounds(inv);
    ReciprocalFloor(Q256 - 1, res, inv);
    hide ToX96, Reciprocal;
    ShiftedReciprocal(res, inv, res / Q32, inv / Q32);
    RoundedProduct(ToX96(inv), ToX96(res), inv / Q32, res / Q32);
  }

  lemma ReciprocalFloor(n: nat, x: nat, y: nat)
    requires x > 0 && y == n / x
    ensures y * x <= n < (y + 1) * x
  {
    assert n == x * (n / x) + n % x;
  }

  lemma ShiftedReciprocal(x: nat, y: nat, x0: nat, y0: nat)
    requires y * x < Q256 <= (y + 1) * x
    requires x0 == x / Q32 && y0 == y / Q32
    ensures y0 * x0 < Q192 < (y0 + 1) * (x0 + 1)
  {
    var a, b := x0 * Q32, y0 * Q32;
    MulMonotone(b, y, a, x);
    assert b * a == (y0 * x0) * (Q32 * Q32);
    var c, d := (x0 + 1) * Q32, (y0 + 1) * Q32;
    MulMonotone(y + 1, d, x + 1, c);
    assert d * c == ((y0 + 1) * (x0 + 1)) * (Q32 * Q32);
    assert (y + 1) * (x + 1) == (y + 1) * x + y + 1;
  }

  lemma RoundedProduct(u: nat, d: nat, u0: nat, d0: nat)
    requires u0 <= u <= u0 + 1 && d0 <= d <= d0 + 1
    requires u0 * d0 < Q192 < (u0 + 1) * (d0 + 1)
    ensures Reciprocal(u, d)
  {
    assert (u0 + 1) * (d0 + 1) == u0 * d0 + u0 + d0 + 1;
    MulMonotone(u, u0 + 1, d, d0 + 1);
    MulMonotone(u0, u, d0, d);
  }
}
