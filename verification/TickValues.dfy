/** Values of the tick loop at given ticks, one iteration after the other. */
module TickValues {
  import opened FixedPoint
  import opened TickMath

  /** The ratio after each squaring. */
  const RATIO_1: nat := 0xfff2_e50f_5f65_6932_ef12_357c_f3c7_fdcc
  const RATIO_2: nat := 0xffe5_caca_7e10_e4e6_1c36_24ea_a094_1cd0
  const RATIO_3: nat := 0xffcb_9843_d60f_6159_c9db_5883_5c92_6643
  const RATIO_4: nat := 0xff97_3b41_fa98_c081_472e_6896_dfb2_54be
  const RATIO_5: nat := 0xff2e_a164_66c9_6a38_43ec_78b3_26b5_285d
  const RATIO_6: nat := 0xfe5d_ee04_6a99_a2a8_11c4_61f1_969c_304b
  const RATIO_7: nat := 0xfcbe_86c7_900a_88ae_dcff_c83b_479a_a394
  const RATIO_8: nat := 0xf987_a725_3ac4_1317_6f2b_074c_f781_5e34
  const RATIO_9: nat := 0xf339_2b08_22b7_0005_940c_7a39_8e4b_70b4
  const RATIO_10: nat := 0xe715_9475_a2c2_9b74_43b2_9c7f_a6e8_8961
  const RATIO_11: nat := 0xd097_f3bd_fd20_22b8_845a_d8f7_92aa_574d
  const RATIO_12: nat := 0xa9f7_4646_2d87_0fdf_8a65_dc1f_90e0_6084
  const RATIO_13: nat := 0x70d8_69a1_56d2_a1b8_90bb_3df6_2baf_3122
  const RATIO_14: nat := 0x31be_135f_97d0_8fd9_8123_1505_542f_ce08
  const RATIO_15: nat := 0x09aa_508b_5b7a_84e1_c677_de54_f3e9_9b28
  const RATIO_16: nat := 0x005d_6af8_dedb_8119_6699_c329_225e_e5f8
  const RATIO_17: nat := 0x2216_e584_f5fa_1ea9_2604_1bed_fe97
  const RATIO_18: nat := 0x048a_1703_91f7_dc42_444e_8fa2
  const RATIO_19: nat := 0x0014_9b34_ee7a_c262

  /** The ratio that the twentieth bit of half the tick multiplies by. */
  lemma LastRatio()
    ensures Squared(Q128, STEP_RATIO, 19) == RATIO_19
  {
    hide MulShift;
    SquareLink(Q128, STEP_RATIO, 18, RATIO_1);
    SquareLink(Q128, RATIO_1, 17, RATIO_2);
    SquareLink(Q128, RATIO_2, 16, RATIO_3);
    SquareLink(Q128, RATIO_3, 15, RATIO_4);
    SquareLink(Q128, RATIO_4, 14, RATIO_5);
    SquareLink(Q128, RATIO_5, 13, RATIO_6);
    SquareLink(Q128, RATIO_6, 12, RATIO_7);
    SquareLink(Q128, RATIO_7, 11, RATIO_8);
    SquareLink(Q128, RATIO_8, 10, RATIO_9);
    SquareLink(Q128, RATIO_9, 9, RATIO_10);
    SquareLink(Q128, RATIO_10, 8, RATIO_11);
    SquareLink(Q128, RATIO_11, 7, RATIO_12);
    SquareLink(Q128, RATIO_12, 6, RATIO_13);
    SquareLink(Q128, RATIO_13, 5, RATIO_14);
    SquareLink(Q128, RATIO_14, 4, RATIO_15);
    SquareLink(Q128, RATIO_15, 3, RATIO_16);
    SquareLink(Q128, RATIO_16, 2, RATIO_17);
    SquareLink(Q128, RATIO_17, 1, RATIO_18);
    SquareLink(Q128, RATIO_18, 0, RATIO_19);
  }

  lemma AtMaxTick()
    ensures Magnitude(887272) == 0x0001_0002_76a2_21a1_7501
  {
    hide MulShift, Accumulate;
    LoopLink(Q128, Q128, STEP_RATIO, 443636, Q128, RATIO_1);
    LoopLink(Q128, Q128, RATIO_1, 221818, Q128, RATIO_2);
    LoopLink(Q128, Q128, RATIO_2, 110909, 0xffe5_caca_7e10_e4e6_1c36_24ea_a094_1cd0, RATIO_3);
    LoopLink(Q128, 0xffe5_caca_7e10_e4e6_1c36_24ea_a094_1cd0, RATIO_3, 55454, 0xffe5_caca_7e10_e4e6_1c36_24ea_a094_1cd0, RATIO_4);
    LoopLink(Q128, 0xffe5_caca_7e10_e4e6_1c36_24ea_a094_1cd0, RATIO_4, 27727, 0xff7d_10c6_3a97_7157_da41_40de_b6f3_1a79, RATIO_5);
    LoopLink(Q128, 0xff7d_10c6_3a97_7157_da41_40de_b6f3_1a79, RATIO_5, 13863, 0xfeac_1d40_52f7_7148_18b4_90c1_138e_a052, RATIO_6);
    LoopLink(Q128, 0xfeac_1d40_52f7_7148_18b4_90c1_138e_a052, RATIO_6, 6931, 0xfd0c_3654_da9e_0337_41d1_a9f9_3707_f6e8, RATIO_7);
    LoopLink(Q128, 0xfd0c_3654_da9e_0337_41d1_a9f9_3707_f6e8, RATIO_7, 3465, 0xf9d4_59c5_817d_bafa_9e37_6ae8_4dcf_eb6e, RATIO_8);
    LoopLink(Q128, 0xf9d4_59c5_817d_bafa_9e37_6ae8_4dcf_eb6e, RATIO_8, 1732, 0xf9d4_59c5_817d_bafa_9e37_6ae8_4dcf_eb6e, RATIO_9);
    LoopLink(Q128, 0xf9d4_59c5_817d_bafa_9e37_6ae8_4dcf_eb6e, RATIO_9, 866, 0xf9d4_59c5_817d_bafa_9e37_6ae8_4dcf_eb6e, RATIO_10);
    LoopLink(Q128, 0xf9d4_59c5_817d_bafa_9e37_6ae8_4dcf_eb6e, RATIO_10, 433, 0xe183_ac4e_25d5_9499_6624_2a64_e9c8_0d9f, RATIO_11);
    LoopLink(Q128, 0xe183_ac4e_25d5_9499_6624_2a64_e9c8_0d9f, RATIO_11, 216, 0xe183_ac4e_25d5_9499_6624_2a64_e9c8_0d9f, RATIO_12);
    LoopLink(Q128, 0xe183_ac4e_25d5_9499_6624_2a64_e9c8_0d9f, RATIO_12, 108, 0xe183_ac4e_25d5_9499_6624_2a64_e9c8_0d9f, RATIO_13);
    LoopLink(Q128, 0xe183_ac4e_25d5_9499_6624_2a64_e9c8_0d9f, RATIO_13, 54, 0xe183_ac4e_25d5_9499_6624_2a64_e9c8_0d9f, RATIO_14);
    LoopLink(Q128, 0xe183_ac4e_25d5_9499_6624_2a64_e9c8_0d9f, RATIO_14, 27, 0x2bd1_a4c5_d2a1_181a_ca1e_f15e_64c2_e247, RATIO_15);
    LoopLink(Q128, 0x2bd1_a4c5_d2a1_181a_ca1e_f15e_64c2_e247, RATIO_15, 13, 0x01a7_85cb_bdc0_5048_3e3b_e581_2760_be48, RATIO_16);
    LoopLink(Q128, 0x01a7_85cb_bdc0_5048_3e3b_e581_2760_be48, RATIO_16, 6, 0x01a7_85cb_bdc0_5048_3e3b_e581_2760_be48, RATIO_17);
    LoopLink(Q128, 0x01a7_85cb_bdc0_5048_3e3b_e581_2760_be48, RATIO_17, 3, 0x0038_65a6_455d_07d2_bc87_c595_6d2e, RATIO_18);
    LoopLink(Q128, 0x0038_65a6_455d_07d2_bc87_c595_6d2e, RATIO_18, 1, 0x0001_0002_76a2_21a1_7501, RATIO_19);
    Unroll(Q128, 0x0001_0002_76a2_21a1_7501, RATIO_19, 0);
  }

  lemma AtLastFactor()
    ensures Magnitude(725969) == 0x0c6c_7865_7643_31bc_9799
  {
    hide MulShift, Accumulate;
    LoopLink(Q128, HALF_STEP, STEP_RATIO, 362984, HALF_STEP, RATIO_1);
    LoopLink(Q128, HALF_STEP, RATIO_1, 181492, HALF_STEP, RATIO_2);
    LoopLink(Q128, HALF_STEP, RATIO_2, 90746, HALF_STEP, RATIO_3);
    LoopLink(Q128, HALF_STEP, RATIO_3, 45373, 0xffc8_5223_48e1_4a16_55ff_72ad_f681_dd11, RATIO_4);
    LoopLink(Q128, 0xffc8_5223_48e1_4a16_55ff_72ad_f681_dd11, RATIO_4, 22686, 0xffc8_5223_48e1_4a16_55ff_72ad_f681_dd11, RATIO_5);
    LoopLink(Q128, 0xffc8_5223_48e1_4a16_55ff_72ad_f681_dd11, RATIO_5, 11343, 0xfef7_2111_348a_d709_6db6_2702_4951_7857, RATIO_6);
    LoopLink(Q128, 0xfef7_2111_348a_d709_6db6_2702_4951_7857, RATIO_6, 5671, 0xfd56_bfa4_3c27_b24d_0934_3087_f8c8_bc94, RATIO_7);
    LoopLink(Q128, 0xfd56_bfa4_3c27_b24d_0934_3087_f8c8_bc94, RATIO_7, 2835, 0xfa1d_f068_cc65_e194_b425_fce4_1489_92f3, RATIO_8);
    LoopLink(Q128, 0xfa1d_f068_cc65_e194_b425_fce4_1489_92f3, RATIO_8, 1417, 0xf3cb_a7ed_9da5_58aa_8636_881e_2fc8_d7a8, RATIO_9);
    LoopLink(Q128, 0xf3cb_a7ed_9da5_58aa_8636_881e_2fc8_d7a8, RATIO_9, 708, 0xf3cb_a7ed_9da5_58aa_8636_881e_2fc8_d7a8, RATIO_10);
    LoopLink(Q128, 0xf3cb_a7ed_9da5_58aa_8636_881e_2fc8_d7a8, RATIO_10, 354, 0xf3cb_a7ed_9da5_58aa_8636_881e_2fc8_d7a8, RATIO_11);
    LoopLink(Q128, 0xf3cb_a7ed_9da5_58aa_8636_881e_2fc8_d7a8, RATIO_11, 177, 0xc6a6_2db0_5c0e_bb1e_c717_b1e1_b45a_1f55, RATIO_12);
    LoopLink(Q128, 0xc6a6_2db0_5c0e_bb1e_c717_b1e1_b45a_1f55, RATIO_12, 88, 0xc6a6_2db0_5c0e_bb1e_c717_b1e1_b45a_1f55, RATIO_13);
    LoopLink(Q128, 0xc6a6_2db0_5c0e_bb1e_c717_b1e1_b45a_1f55, RATIO_13, 44, 0xc6a6_2db0_5c0e_bb1e_c717_b1e1_b45a_1f55, RATIO_14);
    LoopLink(Q128, 0xc6a6_2db0_5c0e_bb1e_c717_b1e1_b45a_1f55, RATIO_14, 22, 0xc6a6_2db0_5c0e_bb1e_c717_b1e1_b45a_1f55, RATIO_15);
    LoopLink(Q128, 0xc6a6_2db0_5c0e_bb1e_c717_b1e1_b45a_1f55, RATIO_15, 11, 0x0780_0075_9bd7_b66f_464d_0107_db24_cf60, RATIO_16);
    LoopLink(Q128, 0x0780_0075_9bd7_b66f_464d_0107_db24_cf60, RATIO_16, 5, 0x0002_bca2_7572_3082_316d_8b09_af45_31bc, RATIO_17);
    LoopLink(Q128, 0x0002_bca2_7572_3082_316d_8b09_af45_31bc, RATIO_17, 2, 0x0002_bca2_7572_3082_316d_8b09_af45_31bc, RATIO_18);
    LoopLink(Q128, 0x0002_bca2_7572_3082_316d_8b09_af45_31bc, RATIO_18, 1, 0x0c6c_7865_7643_31bc_9799, RATIO_19);
    Unroll(Q128, 0x0c6c_7865_7643_31bc_9799, RATIO_19, 0);
  }

  lemma PastLastFactor()
    ensures Magnitude(725970) == 0x0c6c_4fb0_7a7c_27b0_0c36
  {
    hide MulShift, Accumulate;
    LoopLink(Q128, Q128, STEP_RATIO, 362985, 0xfff9_7272_373d_4132_59a4_6990_580e_213a, RATIO_1);
    LoopLink(Q128, 0xfff9_7272_373d_4132_59a4_6990_580e_213a, RATIO_1, 181492, 0xfff9_7272_373d_4132_59a4_6990_580e_213a, RATIO_2);
    LoopLink(Q128, 0xfff9_7272_373d_4132_59a4_6990_580e_213a, RATIO_2, 90746, 0xfff9_7272_373d_4132_59a4_6990_580e_213a, RATIO_3);
    LoopLink(Q128, 0xfff9_7272_373d_4132_59a4_6990_580e_213a, RATIO_3, 45373, 0xffc5_0c0d_75de_7cd5_28c0_7f69_9264_df61, RATIO_4);
    LoopLink(Q128, 0xffc5_0c0d_75de_7cd5_28c0_7f69_9264_df61, RATIO_4, 22686, 0xffc5_0c0d_75de_7cd5_28c0_7f69_9264_df61, RATIO_5);
    LoopLink(Q128, 0xffc5_0c0d_75de_7cd5_28c0_7f69_9264_df61, RATIO_5, 11343, 0xfef3_dda8_cf12_b759_5acd_1ef8_e06f_1538, RATIO_6);
    LoopLink(Q128, 0xfef3_dda8_cf12_b759_5acd_1ef8_e06f_1538, RATIO_6, 5671, 0xfd53_8190_21d4_2e62_f9ef_02f4_88f4_88ed, RATIO_7);
    LoopLink(Q128, 0xfd53_8190_21d4_2e62_f9ef_02f4_88f4_88ed, RATIO_7, 2835, 0xfa1a_bce3_3a8a_8748_c0a4_d20b_51ec_a900, RATIO_8);
    LoopLink(Q128, 0xfa1a_bce3_3a8a_8748_c0a4_d20b_51ec_a900, RATIO_8, 1417, 0xf3c8_891e_7043_c295_e947_9665_eac9_e59c, RATIO_9);
    LoopLink(Q128, 0xf3c8_891e_7043_c295_e947_9665_eac9_e59c, RATIO_9, 708, 0xf3c8_891e_7043_c295_e947_9665_eac9_e59c, RATIO_10);
    LoopLink(Q128, 0xf3c8_891e_7043_c295_e947_9665_eac9_e59c, RATIO_10, 354, 0xf3c8_891e_7043_c295_e947_9665_eac9_e59c, RATIO_11);
    LoopLink(Q128, 0xf3c8_891e_7043_c295_e947_9665_eac9_e59c, RATIO_11, 177, 0xc6a3_a2cd_e26c_2fbf_58d5_3ae9_b9c1_f3d1, RATIO_12);
    LoopLink(Q128, 0xc6a3_a2cd_e26c_2fbf_58d5_3ae9_b9c1_f3d1, RATIO_12, 88, 0xc6a3_a2cd_e26c_2fbf_58d5_3ae9_b9c1_f3d1, RATIO_13);
    LoopLink(Q128, 0xc6a3_a2cd_e26c_2fbf_58d5_3ae9_b9c1_f3d1, RATIO_13, 44, 0xc6a3_a2cd_e26c_2fbf_58d5_3ae9_b9c1_f3d1, RATIO_14);
    LoopLink(Q128, 0xc6a3_a2cd_e26c_2fbf_58d5_3ae9_b9c1_f3d1, RATIO_14, 22, 0xc6a3_a2cd_e26c_2fbf_58d5_3ae9_b9c1_f3d1, RATIO_15);
    LoopLink(Q128, 0xc6a3_a2cd_e26c_2fbf_58d5_3ae9_b9c1_f3d1, RATIO_15, 11, 0x077f_e7e2_9e63_2207_8438_640e_815c_6fd9, RATIO_16);
    LoopLink(Q128, 0x077f_e7e2_9e63_2207_8438_640e_815c_6fd9, RATIO_16, 5, 0x0002_bc99_7dc7_5c6b_ef6a_e153_59ea_bccf, RATIO_17);
    LoopLink(Q128, 0x0002_bc99_7dc7_5c6b_ef6a_e153_59ea_bccf, RATIO_17, 2, 0x0002_bc99_7dc7_5c6b_ef6a_e153_59ea_bccf, RATIO_18);
    LoopLink(Q128, 0x0002_bc99_7dc7_5c6b_ef6a_e153_59ea_bccf, RATIO_18, 1, 0x0c6c_4fb0_7a7c_27b0_0c36, RATIO_19);
    Unroll(Q128, 0x0c6c_4fb0_7a7c_27b0_0c36, RATIO_19, 0);
  }
}
