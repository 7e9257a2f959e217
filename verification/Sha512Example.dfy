/** The published example of SHA-512: the message "abc", its schedule, the registers after every
    eighth round, and its digest (the first example for SHA-512 that accompanies FIPS 180-4). */
module Sha512Example {
  import opened Bytes
  import opened Sha512

  /** A block with the sixteen words of the padded message "abc". */
  ghost predicate Starts(b: seq<Byte>) {
    && |b| == BLOCK && W(b, 0) == Bits(0x6162_6380_0000_0000) && W(b, 15) == Bits(0x0000_0000_0000_0018)
    && forall t :: 0 < t < 15 ==> W(b, t) == Bits(0)
  }

  // ---- the schedule, eight words at a time ----

  lemma Words2(b: seq<Byte>)
    requires Starts(b)
    ensures W(b, 16) == Bits(0x6162_6380_0000_0000) && W(b, 17) == Bits(0x0003_0000_0000_00c0)
    ensures W(b, 18) == Bits(0x0a96_99a2_4c70_0003) && W(b, 19) == Bits(0x0000_0c00_6000_0603)
    ensures W(b, 20) == Bits(0x549e_f626_3985_8996) && W(b, 21) == Bits(0x00c0_0033_0000_3c00)
    ensures W(b, 22) == Bits(0x1497_007a_8a0e_9dbc) && W(b, 23) == Bits(0x62e5_6500_cc07_80f0)
  {
  }

  lemma Words3(b: seq<Byte>)
    requires Starts(b)
    ensures W(b, 24) == Bits(0x7760_dd47_5a53_8797) && W(b, 25) == Bits(0xf155_4b71_1c1c_0003)
    ensures W(b, 26) == Bits(0xca29_93a4_345d_9ff2) && W(b, 27) == Bits(0x5e0e_66b5_c783_dd32)
    ensures W(b, 28) == Bits(0xe25a_625d_0049_4b62) && W(b, 29) == Bits(0x9f44_486f_b1e4_fbd2)
    ensures W(b, 30) == Bits(0xb31b_8c2b_0608_5f2f) && W(b, 31) == Bits(0x0e98_7660_9341_42f6)
  {
    Words2(b);
  }

  lemma Words4(b: seq<Byte>)
    requires Starts(b)
    ensures W(b, 32) == Bits(0xa4af_2cfd_09fb_b924) && W(b, 33) == Bits(0xad28_9e2e_0bd5_3186)
    ensures W(b, 34) == Bits(0x3c74_563a_a2f9_673e) && W(b, 35) == Bits(0x6ccd_cd14_cc14_b53f)
    ensures W(b, 36) == Bits(0xc3f9_25b3_37f2_2bde) && W(b, 37) == Bits(0x5bcc_77a7_5ad9_5b54)
    ensures W(b, 38) == Bits(0x3ec2_257a_dca0_9a52) && W(b, 39) == Bits(0x2824_6960_001f_c5eb)
  {
    Words2(b);
    Words3(b);
  }

  lemma Words5(b: seq<Byte>)
    requires Starts(b)
    ensures W(b, 40) == Bits(0x04e3_3a75_ce2b_e88a) && W(b, 41) == Bits(0x7d53_14b3_c359_e0e7)
    ensures W(b, 42) == Bits(0xaef7_a285_ff25_1266) && W(b, 43) == Bits(0x0b84_7258_1dee_a04f)
    ensures W(b, 44) == Bits(0xb174_e26e_ddc7_b033) && W(b, 45) == Bits(0x5d63_bae5_8ddd_88de)
    ensures W(b, 46) == Bits(0x4c04_4007_b744_ccbb) && W(b, 47) == Bits(0xe6a9_aa4d_74dc_7d43)
  {
    Words3(b);
    Words4(b);
  }

  lemma Words6(b: seq<Byte>)
    requires Starts(b)
    ensures W(b, 48) == Bits(0xebea_f123_7248_019c) && W(b, 49) == Bits(0x361e_80b2_d00f_3193)
    ensures W(b, 50) == Bits(0x2e98_3912_5df3_b175) && W(b, 51) == Bits(0x3319_6292_93ad_5363)
    ensures W(b, 52) == Bits(0x9cbc_5d89_ac1b_89d5) && W(b, 53) == Bits(0x275e_23ff_eeca_50b7)
    ensures W(b, 54) == Bits(0x3b80_d680_bf69_ef58) && W(b, 55) == Bits(0x0d06_9693_3945_a125)
  {
    Words4(b);
    Words5(b);
  }

  lemma Words7(b: seq<Byte>)
    requires Starts(b)
    ensures W(b, 56) == Bits(0x7533_eabc_b786_ff00) && W(b, 57) == Bits(0xb898_26ce_e6fb_f0e5)
    ensures W(b, 58) == Bits(0x249b_4fbc_ad62_3e9f) && W(b, 59) == Bits(0x4aea_9df2_b02d_6f1e)
    ensures W(b, 60) == Bits(0x2cc5_7475_a55e_8d8f) && W(b, 61) == Bits(0xb257_4ae9_38d8_be89)
    ensures W(b, 62) == Bits(0xc1b3_5a57_b16d_6aea) && W(b, 63) == Bits(0xcc49_18b5_9492_06bb)
  {
    Words5(b);
    Words6(b);
  }

  lemma Words8(b: seq<Byte>)
    requires Starts(b)
    ensures W(b, 64) == Bits(0x5099_c3ad_d79f_90ec) && W(b, 65) == Bits(0x5ea8_1d78_e766_0bf1)
    ensures W(b, 66) == Bits(0xebee_6267_405a_c2a9) && W(b, 67) == Bits(0xb01f_2192_6108_a4ab)
    ensures W(b, 68) == Bits(0x7864_33dd_2fe6_5556) && W(b, 69) == Bits(0xc54a_6eaa_24a0_552c)
    ensures W(b, 70) == Bits(0xb3c8_f153_0bdb_aa9e) && W(b, 71) == Bits(0xbb8a_bfe5_6f46_9338)
  {
    Words6(b);
    Words7(b);
  }

  lemma Words9(b: seq<Byte>)
    requires Starts(b)
    ensures W(b, 72) == Bits(0xf63d_4265_cc1c_5a78) && W(b, 73) == Bits(0xbe83_55ea_7312_9afb)
    ensures W(b, 74) == Bits(0x49e2_db8e_bdcf_beb5) && W(b, 75) == Bits(0x8226_9d4a_883a_3d99)
    ensures W(b, 76) == Bits(0xfdf5_3df3_011f_362b) && W(b, 77) == Bits(0x464a_f567_1d71_c12e)
    ensures W(b, 78) == Bits(0xe449_b681_98ec_611c) && W(b, 79) == Bits(0x92ae_eed1_a7bc_f7d2)
  {
    Words7(b);
    Words8(b);
  }

  lemma FirstWords(b: seq<Byte>)
    requires Starts(b)
    ensures W(b, 0) == Bits(0x6162_6380_0000_0000) && W(b, 1) == Bits(0) && W(b, 2) == Bits(0) && W(b, 3) == Bits(0)
    ensures W(b, 4) == Bits(0) && W(b, 5) == Bits(0) && W(b, 6) == Bits(0) && W(b, 7) == Bits(0)
    ensures W(b, 8) == Bits(0) && W(b, 9) == Bits(0) && W(b, 10) == Bits(0) && W(b, 11) == Bits(0)
    ensures W(b, 12) == Bits(0) && W(b, 13) == Bits(0) && W(b, 14) == Bits(0) && W(b, 15) == Bits(0x0000_0000_0000_0018)
  {
    hide W;
  }

  // ---- the registers, eight rounds at a time ----

  ghost function After(b: seq<Byte>, t: nat): Regs
    requires |b| == BLOCK && t <= 80
  {
    Rounds(Load8(InitialHash()), b, t)
  }

  /** One round brings a new first and a new fifth register. */
  lemma Step(b: seq<Byte>, t: nat, r: Regs, a: bv64, e: bv64) returns (s: Regs)
    requires |b| == BLOCK && t < 80 && After(b, t) == r
    requires Round(r, K(t), W(b, t)) == Regs(Bits(a), r.a, r.b, r.c, Bits(e), r.e, r.f, r.g)
    ensures s == Regs(Bits(a), r.a, r.b, r.c, Bits(e), r.e, r.f, r.g) && After(b, t + 1) == s
  {
    s := Regs(Bits(a), r.a, r.b, r.c, Bits(e), r.e, r.f, r.g);
  }

  lemma FirstRegs(b: seq<Byte>)
    requires |b| == BLOCK
    ensures After(b, 0) == Regs(Bits(0x6a09_e667_f3bc_c908), Bits(0xbb67_ae85_84ca_a73b), Bits(0x3c6e_f372_fe94_f82b), Bits(0xa54f_f53a_5f1d_36f1),
                 Bits(0x510e_527f_ade6_82d1), Bits(0x9b05_688c_2b3e_6c1f), Bits(0x1f83_d9ab_fb41_bd6b), Bits(0x5be0_cd19_137e_2179))
  {
  }

  lemma Rounds0(b: seq<Byte>)
    requires Starts(b)
    ensures After(b, 8) == Regs(Bits(0x8093_d195_e005_4fa3), Bits(0xc487_5b0c_7abc_076b), Bits(0xaf57_3b02_403e_89cd), Bits(0xb680_9539_5160_4860),
                 Bits(0x86f6_7263_a0f0_ec0a), Bits(0x5a6c_781f_54dc_c00c), Bits(0x96f6_0209_b6dc_35ba), Bits(0x745a_ca4a_342e_d2e2))
  {
    hide After, W;
    FirstRegs(b);
    FirstWords(b);
    var r := Step(b, 0, After(b, 0), 0xf6af_ceb8_bcfc_ddf5, 0x58cb_0234_7ab5_1f91);
    r := Step(b, 1, r, 0x1320_f8c9_fb87_2cc0, 0xc3d4_ebfd_4865_0ffa);
    r := Step(b, 2, r, 0xebcf_fc07_203d_91f3, 0xdfa9_b239_f269_7812);
    r := Step(b, 3, r, 0x5a83_cb3e_8005_0e82, 0x0b47_b4bb_1928_990e);
    r := Step(b, 4, r, 0xb680_9539_5160_4860, 0x745a_ca4a_342e_d2e2);
    r := Step(b, 5, r, 0xaf57_3b02_403e_89cd, 0x96f6_0209_b6dc_35ba);
    r := Step(b, 6, r, 0xc487_5b0c_7abc_076b, 0x5a6c_781f_54dc_c00c);
    r := Step(b, 7, r, 0x8093_d195_e005_4fa3, 0x86f6_7263_a0f0_ec0a);
  }

  lemma Rounds1(b: seq<Byte>)
    requires Starts(b)
    ensures After(b, 16) == Regs(Bits(0x0ae0_7c86_b118_1c75), Bits(0xfa96_7eed_85a0_8028), Bits(0x4424_9631_255d_2ca0), Bits(0x5e41_2143_8818_6c14),
                 Bits(0xa77b_7c03_5dd4_c161), Bits(0x874b_fe5f_6aae_9f2f), Bits(0x860a_cf9e_ffba_6f61), Bits(0xcdf3_bff2_883f_c9d9))
  {
    hide After, W;
    Rounds0(b);
    FirstWords(b);
    var r := Step(b, 8, After(b, 8), 0xf1ec_a554_4cb8_9225, 0xd040_3c39_8fc4_0002);
    r := Step(b, 9, r, 0x8178_2d4a_5db4_8f03, 0x0009_1f46_0be4_6c52);
    r := Step(b, 10, r, 0x6985_4c4a_a0f2_5b59, 0xd375_471b_de1b_a3f4);
    r := Step(b, 11, r, 0xdb0a_9963_f80c_2eaa, 0x4759_75b9_1a7a_462c);
    r := Step(b, 12, r, 0x5e41_2143_8818_6c14, 0xcdf3_bff2_883f_c9d9);
    r := Step(b, 13, r, 0x4424_9631_255d_2ca0, 0x860a_cf9e_ffba_6f61);
    r := Step(b, 14, r, 0xfa96_7eed_85a0_8028, 0x874b_fe5f_6aae_9f2f);
    r := Step(b, 15, r, 0x0ae0_7c86_b118_1c75, 0xa77b_7c03_5dd4_c161);
  }

  lemma Rounds2(b: seq<Byte>)
    requires Starts(b)
    ensures After(b, 24) == Regs(Bits(0x4f68_77b5_8fe5_5484), Bits(0x3e26_4456_7b70_9a78), Bits(0xda34_d667_3d45_2dcf), Bits(0x8dc5_ae65_569d_3855),
                 Bits(0xc660_05f8_7db5_5233), Bits(0x0ac2_b11d_a8f5_71c6), Bits(0x8e30_ff09_ad48_8753), Bits(0x4bb9_e66d_1145_bfdc))
  {
    hide After, W;
    Rounds1(b);
    Words2(b);
    var r := Step(b, 16, After(b, 16), 0xcaf8_1a42_5d80_0537, 0x2dee_cc6b_39d6_4d78);
    r := Step(b, 17, r, 0x4725_be24_9ad1_9e6b, 0xf47e_8353_f804_7455);
    r := Step(b, 18, r, 0x3c4b_4104_168e_3edb, 0x2969_5fd8_8d81_dbd0);
    r := Step(b, 19, r, 0x9a3f_b4d3_8ab6_cf06, 0xf149_98dd_5f70_767e);
    r := Step(b, 20, r, 0x8dc5_ae65_569d_3855, 0x4bb9_e66d_1145_bfdc);
    r := Step(b, 21, r, 0xda34_d667_3d45_2dcf, 0x8e30_ff09_ad48_8753);
    r := Step(b, 22, r, 0x3e26_4456_7b70_9a78, 0x0ac2_b11d_a8f5_71c6);
    r := Step(b, 23, r, 0x4f68_77b5_8fe5_5484, 0xc660_05f8_7db5_5233);
  }

  lemma Rounds3(b: seq<Byte>)
    requires Starts(b)
    ensures After(b, 32) == Regs(Bits(0xff4d_3f1f_0d46_a736), Bits(0x4c4f_bbb7_5f18_73a6), Bits(0x74bf_40f8_6909_4c63), Bits(0xe623_4909_0f47_d30a),
                 Bits(0x3cd3_88e1_19e8_162e), Bits(0x73e0_25d9_1b9e_fea3), Bits(0xf0ae_c2fe_1437_f085), Bits(0x0fcd_f997_10f2_1584))
  {
    hide After, W;
    Rounds2(b);
    Words3(b);
    var r := Step(b, 24, After(b, 24), 0x9aff_7116_3fa3_a940, 0xd3ec_f137_6918_0e6f);
    r := Step(b, 25, r, 0x0bc5_f791_f8e6_816b, 0x6ddf_1fd7_edcc_e336);
    r := Step(b, 26, r, 0x884c_3bc2_7bc4_f941, 0xe6e4_8c9a_8e94_8365);
    r := Step(b, 27, r, 0xeab4_a9e5_771b_8d09, 0x0906_8a4e_255a_0dac);
    r := Step(b, 28, r, 0xe623_4909_0f47_d30a, 0x0fcd_f997_10f2_1584);
    r := Step(b, 29, r, 0x74bf_40f8_6909_4c63, 0xf0ae_c2fe_1437_f085);
    r := Step(b, 30, r, 0x4c4f_bbb7_5f18_73a6, 0x73e0_25d9_1b9e_fea3);
    r := Step(b, 31, r, 0xff4d_3f1f_0d46_a736, 0x3cd3_88e1_19e8_162e);
  }

  lemma Rounds4(b: seq<Byte>)
    requires Starts(b)
    ensures After(b, 40) == Regs(Bits(0x8e01_e125_b855_d225), Bits(0xb3bb_8542_b337_6de5), Bits(0x002b_b8e4_cd98_9567), Bits(0x88df_85b0_bbe7_7514),
                 Bits(0x0c71_0a47_ba6a_567b), Bits(0xb495_96c2_0feb_a7de), Bits(0x66ad_cfa2_49ac_7bbd), Bits(0x8fbf_d016_2bbf_4675))
  {
    hide After, W;
    Rounds3(b);
    Words4(b);
    var r := Step(b, 32, After(b, 32), 0xa050_9015_ca08_c8d4, 0xe103_4573_654a_106f);
    r := Step(b, 33, r, 0x60d4_e699_5ed9_1fe6, 0xefab_bd8b_f47c_041a);
    r := Step(b, 34, r, 0x2c59_ec77_4363_2621, 0x0fba_e670_fa78_0fd3);
    r := Step(b, 35, r, 0x1a08_1afc_59fd_bc2c, 0xf098_082f_502b_44cd);
    r := Step(b, 36, r, 0x88df_85b0_bbe7_7514, 0x8fbf_d016_2bbf_4675);
    r := Step(b, 37, r, 0x002b_b8e4_cd98_9567, 0x66ad_cfa2_49ac_7bbd);
    r := Step(b, 38, r, 0xb3bb_8542_b337_6de5, 0xb495_96c2_0feb_a7de);
    r := Step(b, 39, r, 0x8e01_e125_b855_d225, 0x0c71_0a47_ba6a_567b);
  }

  lemma Rounds5(b: seq<Byte>)
    requires Starts(b)
    ensures After(b, 48) == Regs(Bits(0x6b69_fc1b_b482_feac), Bits(0xf61e_6726_94de_2d67), Bits(0x021f_badb_abab_5ac6), Bits(0xc47c_9d5c_7ea8_a234),
                 Bits(0x3526_4334_c03a_c8ad), Bits(0xc6bc_3574_0d8d_aa9a), Bits(0xe95c_2a57_572d_64d9), Bits(0x858d_832a_e0e8_911c))
  {
    hide After, W;
    Rounds4(b);
    Words5(b);
    var r := Step(b, 40, After(b, 40), 0xb015_21dd_6a6b_e12c, 0x1690_08b3_a4bb_170b);
    r := Step(b, 41, r, 0xe96f_89dd_48cb_d851, 0xf099_6439_e7b5_0cb1);
    r := Step(b, 42, r, 0xbc05_ba8d_e5d3_c480, 0x639c_b938_e14d_c190);
    r := Step(b, 43, r, 0x35d7_e7f4_1def_cbd5, 0xcc51_0099_7f57_10f2);
    r := Step(b, 44, r, 0xc47c_9d5c_7ea8_a234, 0x858d_832a_e0e8_911c);
    r := Step(b, 45, r, 0x021f_badb_abab_5ac6, 0xe95c_2a57_572d_64d9);
    r := Step(b, 46, r, 0xf61e_6726_94de_2d67, 0xc6bc_3574_0d8d_aa9a);
    r := Step(b, 47, r, 0x6b69_fc1b_b482_feac, 0x3526_4334_c03a_c8ad);
  }

  lemma Rounds6(b: seq<Byte>)
    requires Starts(b)
    ensures After(b, 56) == Regs(Bits(0x63b4_60e4_2748_817e), Bits(0xf650_857b_5bab_da4d), Bits(0xd63f_6803_7ddf_06aa), Bits(0x03df_11b3_2d42_e203),
                 Bits(0xc6b4_dd2a_9931_c509), Bits(0x9ccf_b31a_86df_0f86), Bits(0xa678_1efe_1aa1_ce02), Bits(0x504f_94e4_0591_cffa))
  {
    hide After, W;
    Rounds5(b);
    Words6(b);
    var r := Step(b, 48, After(b, 48), 0x571f_323d_96b3_a047, 0x2715_80ed_6c3e_5650);
    r := Step(b, 49, r, 0xca9b_d862_c505_0918, 0xdfe0_91da_b182_e645);
    r := Step(b, 50, r, 0x813a_43dd_2c50_2043, 0x07a0_d8ef_821c_5e1a);
    r := Step(b, 51, r, 0xd43f_8372_7325_dd77, 0x483f_80a8_2eae_e23e);
    r := Step(b, 52, r, 0x03df_11b3_2d42_e203, 0x504f_94e4_0591_cffa);
    r := Step(b, 53, r, 0xd63f_6803_7ddf_06aa, 0xa678_1efe_1aa1_ce02);
    r := Step(b, 54, r, 0xf650_857b_5bab_da4d, 0x9ccf_b31a_86df_0f86);
    r := Step(b, 55, r, 0x63b4_60e4_2748_817e, 0xc6b4_dd2a_9931_c509);
  }

  lemma Rounds7(b: seq<Byte>)
    requires Starts(b)
    ensures After(b, 64) == Regs(Bits(0xab44_e862_7647_8d85), Bits(0xa81d_edbb_9f19_e643), Bits(0xcfcd_928c_5424_e2b6), Bits(0x3857_dfd2_fc37_d3ba),
                 Bits(0xcd88_1ee5_9ca6_bc53), Bits(0x8405_8865_d60a_05fa), Bits(0x09ae_e5bd_a164_4de5), Bits(0xa6af_4e9c_9f80_7e51))
  {
    hide After, W;
    Rounds6(b);
    Words7(b);
    var r := Step(b, 56, After(b, 56), 0x7a52_9129_43d5_2b05, 0xd2e8_9bbd_91e0_0be0);
    r := Step(b, 57, r, 0x4b81_c3ae_c976_ea4b, 0x7050_5988_1243_51ac);
    r := Step(b, 58, r, 0x581e_cb33_55dc_d9b8, 0x6a3c_9b0f_71c8_bf36);
    r := Step(b, 59, r, 0x2c07_4484_ef1e_ac8c, 0x4797_cde4_ed37_0692);
    r := Step(b, 60, r, 0x3857_dfd2_fc37_d3ba, 0xa6af_4e9c_9f80_7e51);
    r := Step(b, 61, r, 0xcfcd_928c_5424_e2b6, 0x09ae_e5bd_a164_4de5);
    r := Step(b, 62, r, 0xa81d_edbb_9f19_e643, 0x8405_8865_d60a_05fa);
    r := Step(b, 63, r, 0xab44_e862_7647_8d85, 0xcd88_1ee5_9ca6_bc53);
  }

  lemma Rounds8(b: seq<Byte>)
    requires Starts(b)
    ensures After(b, 72) == Regs(Bits(0xf15e_9664_b280_3575), Bits(0x7652_c579_cb60_f19c), Bits(0xfb6a_aae5_d0b6_a447), Bits(0x1818_39d6_09c7_9748),
                 Bits(0x947c_3dfa_fee5_70ef), Bits(0xaff6_2c96_65ff_80fa), Bits(0xe371_1cb6_564d_112d), Bits(0x0ada_78ba_2d44_6140))
  {
    hide After, W;
    Rounds7(b);
    Words8(b);
    var r := Step(b, 64, After(b, 64), 0x5a80_6d7e_9821_a501, 0xaa84_b086_688a_5c45);
    r := Step(b, 65, r, 0xeeb9_c21b_b010_2598, 0x3b5f_ed0d_6a1f_96e1);
    r := Step(b, 66, r, 0x46c4_210a_b2cc_155d, 0x29fa_b5a7_bff5_3366);
    r := Step(b, 67, r, 0x54ba_35cf_56a0_340e, 0x1c66_f46d_9569_0bcf);
    r := Step(b, 68, r, 0x1818_39d6_09c7_9748, 0x0ada_78ba_2d44_6140);
    r := Step(b, 69, r, 0xfb6a_aae5_d0b6_a447, 0xe371_1cb6_564d_112d);
    r := Step(b, 70, r, 0x7652_c579_cb60_f19c, 0xaff6_2c96_65ff_80fa);
    r := Step(b, 71, r, 0xf15e_9664_b280_3575, 0x947c_3dfa_fee5_70ef);
  }

  lemma Rounds9(b: seq<Byte>)
    requires Starts(b)
    ensures After(b, 80) == Regs(Bits(0x73a5_4f39_9fa4_b1b2), Bits(0x10d9_c4c4_2955_99f6), Bits(0xd678_06db_8b14_8677), Bits(0x654e_f9ab_ec38_9ca9),
                 Bits(0xd084_46aa_7969_3ed7), Bits(0x9bb4_d397_78c0_7f9e), Bits(0x25c9_6a77_68fb_2aa3), Bits(0xceb9_fc36_91ce_8326))
  {
    hide After, W;
    Rounds8(b);
    Words9(b);
    var r := Step(b, 72, After(b, 72), 0x3584_06d1_65ae_e9ab, 0x8c7b_5fd9_1a79_4ca0);
    r := Step(b, 73, r, 0x2087_8dcd_29cd_faf5, 0x054d_3536_5399_48d0);
    r := Step(b, 74, r, 0x33d4_8dab_b552_1de2, 0x2ba1_8245_b50d_e4cf);
    r := Step(b, 75, r, 0xc896_0e6b_e864_b916, 0x9950_19a6_ff3b_a3de);
    r := Step(b, 76, r, 0x654e_f9ab_ec38_9ca9, 0xceb9_fc36_91ce_8326);
    r := Step(b, 77, r, 0xd678_06db_8b14_8677, 0x25c9_6a77_68fb_2aa3);
    r := Step(b, 78, r, 0x10d9_c4c4_2955_99f6, 0x9bb4_d397_78c0_7f9e);
    r := Step(b, 79, r, 0x73a5_4f39_9fa4_b1b2, 0xd084_46aa_7969_3ed7);
  }

  // ---- the digest ----

  /** The last registers added to the initial values. */
  function Result(): seq<Word> {
    [Bits(0xddaf_35a1_9361_7aba), Bits(0xcc41_7349_ae20_4131), Bits(0x12e6_fa4e_89a9_7ea2), Bits(0x0a9e_eee6_4b55_d39a),
     Bits(0x2192_992a_274f_c1a8), Bits(0x36ba_3c23_a3fe_ebbd), Bits(0x454d_4423_643c_e80e), Bits(0x2a9a_c94f_a54c_a49f)]
  }

  lemma Compressed(b: seq<Byte>)
    requires Starts(b)
    ensures Compress(InitialHash(), b) == Result()
  {
    hide After, W;
    Rounds9(b);
    Sums(b, After(b, 80));
  }

  lemma Sums(b: seq<Byte>, r: Regs)
    requires |b| == BLOCK && r == After(b, 80)
    requires r == Regs(Bits(0x73a5_4f39_9fa4_b1b2), Bits(0x10d9_c4c4_2955_99f6), Bits(0xd678_06db_8b14_8677), Bits(0x654e_f9ab_ec38_9ca9),
                 Bits(0xd084_46aa_7969_3ed7), Bits(0x9bb4_d397_78c0_7f9e), Bits(0x25c9_6a77_68fb_2aa3), Bits(0xceb9_fc36_91ce_8326))
    ensures Compress(InitialHash(), b) == Result()
  {
    hide Rounds, W;
    var s, c := InitialHash(), Compress(InitialHash(), b);
    assert c[0] == Plus(s[0], r.a) && c[1] == Plus(s[1], r.b) && c[2] == Plus(s[2], r.c) && c[3] == Plus(s[3], r.d);
    assert c[4] == Plus(s[4], r.e) && c[5] == Plus(s[5], r.f) && c[6] == Plus(s[6], r.g) && c[7] == Plus(s[7], r.h);
  }

  // ---- the block of the padded message ----

  lemma {:induction false} OneByte(v: nat, k: nat)
    requires v < 256 && k > 0
    ensures Be(v, k) == Blank(k - 1) + [v]
    decreases k
  {
    if k > 1 {
      NoBits(k - 1);
      assert v / 256 == 0 && v % 256 == v;
    } else {
      assert Be(v / 256, 0) == [] && v % 256 == v;
    }
  }

  lemma {:induction false} NoBits(k: nat)
    ensures Be(0, k) == Blank(k)
  {
    if k > 0 {
      NoBits(k - 1);
      assert Blank(k - 1) + [0] == Blank(k);
    }
  }

  /** The three bytes, the one bit, zeros, and the length of 24 bits. */
  lemma Padded()
    ensures Pad([0x61, 0x62, 0x63]) == [0x61, 0x62, 0x63, 0x80] + Blank(123) + [24]
  {
    var m: seq<Byte> := [0x61, 0x62, 0x63];
    assert ZeroBytes(3) == 108;
    OneByte(24, 16);
    assert m + [0x80] + Blank(108) + (Blank(15) + [24]) == [0x61, 0x62, 0x63, 0x80] + Blank(123) + [24];
  }

  ghost predicate Filled(b: seq<Byte>) {
    && |b| == BLOCK && b[0] == 0x61 && b[1] == 0x62 && b[2] == 0x63 && b[3] == 0x80 && b[127] == 24
    && forall k :: 4 <= k < 127 ==> b[k] == 0
  }

  lemma BlockBytes(b: seq<Byte>)
    requires b == [0x61, 0x62, 0x63, 0x80] + Blank(123) + [24]
    ensures Filled(b)
  {
  }

  lemma ZeroWord(b: seq<Byte>, t: nat)
    requires Filled(b) && 0 < t < 15
    ensures W(b, t) == Bits(0)
  {
    hide Load, W;
    Slice(b, t, [0, 0, 0, 0, 0, 0, 0, 0]);
    Literals();
    Loaded(b, t);
  }

  lemma FirstWord(b: seq<Byte>)
    requires Filled(b)
    ensures W(b, 0) == Bits(0x6162_6380_0000_0000)
  {
    hide Load, W;
    Slice(b, 0, [0x61, 0x62, 0x63, 0x80, 0, 0, 0, 0]);
    Literals();
    Loaded(b, 0);
  }

  lemma LastWord(b: seq<Byte>)
    requires Filled(b)
    ensures W(b, 15) == Bits(24)
  {
    hide Load, W;
    Slice(b, 15, [0, 0, 0, 0, 0, 0, 0, 24]);
    Literals();
    Loaded(b, 15);
  }

  lemma Block(b: seq<Byte>)
    requires b == [0x61, 0x62, 0x63, 0x80] + Blank(123) + [24]
    ensures Starts(b)
  {
    hide W, Blank;
    BlockBytes(b);
    FirstWord(b);
    LastWord(b);
    forall t | 0 < t < 15 ensures W(b, t) == Bits(0) {
      ZeroWord(b, t);
    }
  }

  lemma Slice(b: seq<Byte>, t: nat, s: seq<Byte>)
    requires |b| == BLOCK && t < 16 && |s| == 8
    requires b[8 * t] == s[0] && b[8 * t + 1] == s[1] && b[8 * t + 2] == s[2] && b[8 * t + 3] == s[3]
    requires b[8 * t + 4] == s[4] && b[8 * t + 5] == s[5] && b[8 * t + 6] == s[6] && b[8 * t + 7] == s[7]
    ensures b[8 * t..8 * t + 8] == s
  {
  }

  lemma Literals()
    ensures Load([0x61, 0x62, 0x63, 0x80, 0, 0, 0, 0]) == Bits(0x6162_6380_0000_0000)
    ensures Load([0, 0, 0, 0, 0, 0, 0, 24]) == Bits(24) && Load([0, 0, 0, 0, 0, 0, 0, 0]) == Bits(0)
  {
    assert Eight([0x61, 0x62, 0x63, 0x80, 0, 0, 0, 0]) == 0x6162_6380_0000_0000;
    assert Eight([0, 0, 0, 0, 0, 0, 0, 24]) == 24 && Eight([0, 0, 0, 0, 0, 0, 0, 0]) == 0;
    hide Eight, Load;
    LoadIs([0x61, 0x62, 0x63, 0x80, 0, 0, 0, 0], 0x6162_6380_0000_0000);
    LoadIs([0, 0, 0, 0, 0, 0, 0, 24], 24);
    LoadIs([0, 0, 0, 0, 0, 0, 0, 0], 0);
  }

  lemma LoadIs(s: seq<Byte>, w: bv64)
    requires |s| == 8 && Eight(s) == w as int
    ensures Load(s) == Bits(w)
  {
    hide Eight;
  }

  lemma Loaded(b: seq<Byte>, t: nat)
    requires |b| == BLOCK && t < 16
    ensures W(b, t) == Load(b[8 * t..8 * t + 8])
  {
    hide Load;
  }

  // ---- bytes of the digest ----

  /** The number that bytes spell, the most significant first. */
  function BigEndian(s: seq<Byte>): nat {
    if s == [] then 0 else 256 * BigEndian(s[..|s| - 1]) + s[|s| - 1]
  }

  lemma {:induction false} BigEndianBytes(s: seq<Byte>)
    ensures Be(BigEndian(s), |s|) == s
    decreases |s|
  {
    if s != [] {
      var t, b := s[..|s| - 1], s[|s| - 1];
      BigEndianBytes(t);
      assert (256 * BigEndian(t) + b) / 256 == BigEndian(t) && (256 * BigEndian(t) + b) % 256 == b;
    }
  }

  lemma EightIs(s: seq<Byte>)
    requires |s| == 8
    ensures Eight(s) == BigEndian(s)
  {
    hide BigEndian;
    Quarter(s);
    Spell(s, 5);
    Spell(s, 6);
    Spell(s, 7);
    Spell(s, 8);
    assert s[..8] == s;
  }

  lemma Quarter(s: seq<Byte>)
    requires |s| == 8
    ensures BigEndian(s[..4]) == 0x100_0000 * s[0] as int + 0x1_0000 * s[1] as int + 0x100 * s[2] as int + s[3] as int
  {
    Spell(s, 1);
    Spell(s, 2);
    Spell(s, 3);
    Spell(s, 4);
    assert s[..0] == [];
  }

  lemma {:induction false} BytesValue(v: nat, k: nat, b: nat)
    requires Power(b, k) && v < b
    ensures BigEndian(Be(v, k)) == v
    decreases k
  {
    if k > 0 {
      BytesValue(v / 256, k - 1, b / 256);
      assert Be(v, k)[..k - 1] == Be(v / 256, k - 1);
    }
  }

  /** Padding keeps the message and adds a one bit, the fewest zeros that fill whole blocks, and
      the length of the message in bits as a 128-bit number. */
  lemma PadIs(m: seq<Byte>)
    requires |m| < 0x2000_0000_0000_0000 * SPAN
    ensures var p := Pad(m);
            && |m| + 17 <= |p| < |m| + 17 + 128 && |p| % 128 == 0
            && p[..|m|] == m && p[|m|] == 0x80 && (forall k :: |m| < k < |p| - 16 ==> p[k] == 0)
            && BigEndian(p[|p| - 16..]) == 8 * |m|
  {
    hide BigEndian, Be;
    var p := Pad(m);
    assert p[|p| - 16..] == Be(8 * |m|, 16);
    TwoToThe128();
    BytesValue(8 * |m|, 16, SPAN * SPAN);
  }

  lemma TwoToThe128()
    ensures Power(SPAN * SPAN, 16)
  {
    assert Power(SPAN, 8);
    PowerTimes(SPAN, 8, SPAN, 8);
  }

  lemma {:induction false} PowerTimes(a: nat, j: nat, b: nat, k: nat)
    requires Power(a, j) && Power(b, k)
    ensures Power(a * b, j + k)
    decreases j
  {
    if j == 0 {
      assert a * b == b;
    } else {
      var c := a / 256;
      PowerTimes(c, j - 1, b, k);
      Scaled(c, b);
    }
  }

  lemma Scaled(c: nat, b: nat)
    ensures (256 * c) * b / 256 == c * b && (256 * c) * b % 256 == 0
  {
    var w := c * b;
    assert (256 * c) * b == 256 * w;
  }

  lemma Spell(s: seq<Byte>, n: nat)
    requires 0 < n <= |s|
    ensures BigEndian(s[..n]) == 256 * BigEndian(s[..n - 1]) + s[n - 1]
  {
    assert s[..n][..n - 1] == s[..n - 1];
  }

  /** The bytes of a word are those that it is loaded from. */
  lemma WordBytesBack(s: seq<Byte>, w: bv64)
    requires |s| == 8 && w as int == Eight(s)
    ensures WordBytes(Bits(w)) == s
  {
    hide Eight;
    EightIs(s);
    BigEndianBytes(s);
  }

  lemma OutputOf(s: seq<Word>)
    requires |s| == 8
    ensures Output(s) == WordBytes(s[0]) + WordBytes(s[1]) + WordBytes(s[2]) + WordBytes(s[3])
                         + WordBytes(s[4]) + WordBytes(s[5]) + WordBytes(s[6]) + WordBytes(s[7])
  {
    hide WordBytes;
    var a := s[1..];
    var b := a[1..];
    var c := b[1..];
    var d := c[1..];
    var e := d[1..];
    var f := e[1..];
    var g := f[1..];
    assert Output(g) == WordBytes(s[7]) + Output(g[1..]) && g[1..] == [];
    assert Output(e) == WordBytes(s[5]) + (WordBytes(s[6]) + Output(g));
    assert Output(c) == WordBytes(s[3]) + (WordBytes(s[4]) + Output(e));
    assert Output(a) == WordBytes(s[1]) + (WordBytes(s[2]) + Output(c));
  }

  lemma FirstHalf()
    ensures WordBytes(Result()[0]) == [0xdd, 0xaf, 0x35, 0xa1, 0x93, 0x61, 0x7a, 0xba]
    ensures WordBytes(Result()[1]) == [0xcc, 0x41, 0x73, 0x49, 0xae, 0x20, 0x41, 0x31]
    ensures WordBytes(Result()[2]) == [0x12, 0xe6, 0xfa, 0x4e, 0x89, 0xa9, 0x7e, 0xa2]
    ensures WordBytes(Result()[3]) == [0x0a, 0x9e, 0xee, 0xe6, 0x4b, 0x55, 0xd3, 0x9a]
  {
    hide WordBytes;
    WordBytesBack([0xdd, 0xaf, 0x35, 0xa1, 0x93, 0x61, 0x7a, 0xba], 0xddaf_35a1_9361_7aba);
    WordBytesBack([0xcc, 0x41, 0x73, 0x49, 0xae, 0x20, 0x41, 0x31], 0xcc41_7349_ae20_4131);
    WordBytesBack([0x12, 0xe6, 0xfa, 0x4e, 0x89, 0xa9, 0x7e, 0xa2], 0x12e6_fa4e_89a9_7ea2);
    WordBytesBack([0x0a, 0x9e, 0xee, 0xe6, 0x4b, 0x55, 0xd3, 0x9a], 0x0a9e_eee6_4b55_d39a);
  }

  lemma SecondHalf()
    ensures WordBytes(Result()[4]) == [0x21, 0x92, 0x99, 0x2a, 0x27, 0x4f, 0xc1, 0xa8]
    ensures WordBytes(Result()[5]) == [0x36, 0xba, 0x3c, 0x23, 0xa3, 0xfe, 0xeb, 0xbd]
    ensures WordBytes(Result()[6]) == [0x45, 0x4d, 0x44, 0x23, 0x64, 0x3c, 0xe8, 0x0e]
    ensures WordBytes(Result()[7]) == [0x2a, 0x9a, 0xc9, 0x4f, 0xa5, 0x4c, 0xa4, 0x9f]
  {
    hide WordBytes;
    WordBytesBack([0x21, 0x92, 0x99, 0x2a, 0x27, 0x4f, 0xc1, 0xa8], 0x2192_992a_274f_c1a8);
    WordBytesBack([0x36, 0xba, 0x3c, 0x23, 0xa3, 0xfe, 0xeb, 0xbd], 0x36ba_3c23_a3fe_ebbd);
    WordBytesBack([0x45, 0x4d, 0x44, 0x23, 0x64, 0x3c, 0xe8, 0x0e], 0x454d_4423_643c_e80e);
    WordBytesBack([0x2a, 0x9a, 0xc9, 0x4f, 0xa5, 0x4c, 0xa4, 0x9f], 0x2a9a_c94f_a54c_a49f);
  }

  /** The digest of "abc". */
  lemma DigestOfAbc()
    ensures Hash([0x61, 0x62, 0x63]) ==
            [0xdd, 0xaf, 0x35, 0xa1, 0x93, 0x61, 0x7a, 0xba] + [0xcc, 0x41, 0x73, 0x49, 0xae, 0x20, 0x41, 0x31]
            + [0x12, 0xe6, 0xfa, 0x4e, 0x89, 0xa9, 0x7e, 0xa2] + [0x0a, 0x9e, 0xee, 0xe6, 0x4b, 0x55, 0xd3, 0x9a]
            + [0x21, 0x92, 0x99, 0x2a, 0x27, 0x4f, 0xc1, 0xa8] + [0x36, 0xba, 0x3c, 0x23, 0xa3, 0xfe, 0xeb, 0xbd]
            + [0x45, 0x4d, 0x44, 0x23, 0x64, 0x3c, 0xe8, 0x0e] + [0x2a, 0x9a, 0xc9, 0x4f, 0xa5, 0x4c, 0xa4, 0x9f]
  {
    var b := Pad([0x61, 0x62, 0x63]);
    hide *;
    Padded();
    assert |b| == BLOCK;
    Block(b);
    Compressed(b);
    OneBlock(b);
    OutputOf(Result());
    FirstHalf();
    SecondHalf();
    Unfolded();
  }

  lemma Unfolded()
    ensures Hash([0x61, 0x62, 0x63]) == Output(Absorb(InitialHash(), Pad([0x61, 0x62, 0x63]))) && |Result()| == 8
  {
    hide Output, Absorb, Pad;
  }

  lemma OneBlock(b: seq<Byte>)
    requires |b| == BLOCK
    ensures Absorb(InitialHash(), b) == Compress(InitialHash(), b)
  {
    hide Compress;
    assert b[..BLOCK] == b && b[BLOCK..] == [];
  }
}

