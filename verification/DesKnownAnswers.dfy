/**
  * Known answers of the cipher.  Each is worked out round by round on words, and holds of the model
  * because the cipher on words is the cipher.
  */
module DesKnownAnswers {
  import T = DesTables
  import opened Des
  import opened DesWords
  import opened DesReference

  /** The halves of the key when round i begins. */
  ghost predicate Turning(key: bv64, i: int, c: bv64, d: bv64)
    requires -1 <= i < 16
  {
    if i == -1 then c == FirstHalf(key) && d == SecondHalf(key)
    else c == TurnedWord(FirstHalf(key), Turned(i)) && d == TurnedWord(SecondHalf(key), Turned(i))
  }

  lemma FirstKey(key: bv64, c: bv64, d: bv64)
    requires c == FirstHalf(key) && d == SecondHalf(key)
    ensures Turning(key, -1, c, d)
  {
  }

  /** The next round key, from the halves turned by one or two places. */
  lemma NextKey(key: bv64, i: nat, c: bv64, d: bv64, c': bv64, d': bv64, k: bv64)
    requires i < 16 && Turning(key, i - 1, c, d)
    requires c' == (if T.Shift(i) == 1 then OneTurn(c) else OneTurn(OneTurn(c)))
    requires d' == (if T.Shift(i) == 1 then OneTurn(d) else OneTurn(OneTurn(d)))
    requires k == PickWord(c', d')
    ensures Turning(key, i, c', d') && KeyWord(key, i) == k
  {
    hide OneTurn, PickWord, FirstHalf, SecondHalf, T.Shift;
    MoreTurns(FirstHalf(key), i);
    MoreTurns(SecondHalf(key), i);
  }

  lemma MoreTurns(c: bv64, i: nat)
    requires i < 16
    ensures
      var before := if i == 0 then c else TurnedWord(c, Turned(i - 1));
      TurnedWord(c, Turned(i)) == if T.Shift(i) == 1 then OneTurn(before) else OneTurn(OneTurn(before))
  {
    hide OneTurn, T.Shift;
    var n := if i == 0 then 0 else Turned(i - 1);
    assert Turned(i) == n + T.Shift(i);
    assert TurnedWord(c, n + 1) == OneTurn(TurnedWord(c, n));
    assert TurnedWord(c, n + 2) == OneTurn(TurnedWord(c, n + 1));
  }

  /** After n rounds the block is l and r. */
  ghost predicate After(b: bv64, key: bv64, backward: bool, n: nat, l: bv64, r: bv64)
    requires n <= 16
  {
    l <= 0xFFFF_FFFF && r <= 0xFFFF_FFFF && RoundsWord(InitialWord(b), key, backward, n) == Join(l, r)
  }

  /** The result once all rounds are done; z is the block with its halves exchanged. */
  lemma LastRound(b: bv64, key: bv64, l: bv64, r: bv64, z: bv64, c: bv64)
    requires After(b, key, false, 16, l, r) && z == Join(r, l) && c == FinalWord(z)
    ensures Cipher(Block(b), KeysFor(Block(key), false)) == Block(c)
  {
    SwappedHalves(l, r);
    hide FinalWord, SwapWord, Join, RoundsWord, InitialWord, Cipher, KeysFor, Block;
    CipherWords(b, key, false);
  }

  lemma SwappedHalves(l: bv64, r: bv64)
    requires l <= 0xFFFF_FFFF && r <= 0xFFFF_FFFF
    ensures SwapWord(Join(l, r)) == Join(r, l)
  {
  }

  lemma HalvesOf(l: bv64, r: bv64)
    requires l <= 0xFFFF_FFFF && r <= 0xFFFF_FFFF
    ensures Left(Join(l, r)) == l && Right(Join(l, r)) == r
  {
  }

  lemma MixedIs(l: bv64, r: bv64, k: bv64, x: bv64, s: bv64, y: bv64)
    requires x == XorWord(ExpandWord(r), k) && s == SelectedWord(x) && y == XorWord(l, PermuteWord(s))
    ensures MixedHalf(l, r, k) == y
  {
    hide ExpandWord, SelectedWord, PermuteWord, XorWord;
  }

  lemma FirstRound(b: bv64, key: bv64, backward: bool, l: bv64, r: bv64)
    requires l <= 0xFFFF_FFFF && r <= 0xFFFF_FFFF && InitialWord(b) == Join(l, r)
    ensures After(b, key, backward, 0, l, r)
  {
    hide InitialWord, Join;
  }

  /** The next round: x is the half expanded and mixed with the key, s what is selected, and y the new right half. */
  lemma NextRound(b: bv64, key: bv64, backward: bool, n: nat, l: bv64, r: bv64, k: bv64, x: bv64, s: bv64, y: bv64)
    requires n < 16 && After(b, key, backward, n, l, r) && KeyWord(key, if backward then 15 - n else n) == k
    requires x == XorWord(ExpandWord(r), k) && s == SelectedWord(x) && y == XorWord(l, PermuteWord(s)) && y <= 0xFFFF_FFFF
    ensures After(b, key, backward, n + 1, r, y)
  {
    MixedIs(l, r, k, x, s, y);
    hide KeyWord, ExpandWord, SelectedWord, PermuteWord, XorWord, MixedHalf, InitialWord, Join, Left, Right;
    HalvesOf(l, r);
  }

  // ----- the key of zero bits

  lemma {:induction false} ZeroTurned(n: nat)
    ensures TurnedWord(0, n) == 0
  {
    if n > 0 {
      ZeroTurned(n - 1);
    }
  }

  lemma ZeroKey(i: nat)
    requires i < 16
    ensures KeyWord(0, i) == 0
  {
    hide Turned;
    assert FirstHalf(0) == 0 && SecondHalf(0) == 0 && PickWord(0, 0) == 0;
    ZeroTurned(Turned(i));
  }

  lemma NextRoundOfZero(b: bv64, n: nat, l: bv64, r: bv64, x: bv64, s: bv64, y: bv64)
    requires n < 16 && After(b, 0, false, n, l, r)
    requires x == ExpandWord(r) && s == SelectedWord(x) && y == XorWord(l, PermuteWord(s)) && y <= 0xFFFF_FFFF
    ensures After(b, 0, false, n + 1, r, y)
  {
    hide After, KeyWord, ExpandWord, SelectedWord, PermuteWord;
    ZeroKey(n);
    XorZero(x);
    NextRound(b, 0, false, n, l, r, 0, x, s, y);
  }

  lemma XorZero(x: bv64)
    ensures XorWord(x, 0) == x
  {
  }

  lemma ZeroKey0() returns (n: nat)
    ensures n <= 16 && After(0x0000_0000_0000_0000, 0, false, n, 0xBBEA_0DC2, 0x1C20_87FC) && n == 16
  {
    hide After;
    var b: bv64 := 0x0000_0000_0000_0000;
    FirstRound(b, 0, false, 0x0000_0000, 0x0000_0000);
    NextRoundOfZero(b, 0, 0x0000_0000, 0x0000_0000, 0x0000_0000_0000, 0xEFA7_2C4D, 0xD8D8_DBBC);
    NextRoundOfZero(b, 1, 0x0000_0000, 0xD8D8_DBBC, 0x6F16_F16F_7DF9, 0x5BB9_97F3, 0xE73A_ED4F);
    NextRoundOfZero(b, 2, 0xD8D8_DBBC, 0xE73A_ED4F, 0xF0E9_F575_AA5F, 0x5405_8712, 0x5BFA_6BA6);
    NextRoundOfZero(b, 3, 0xE73A_ED4F, 0x5BFA_6BA6, 0x2F7F_F435_7D0C, 0x2CC3_DE6B, 0x5E45_E257);
    NextRoundOfZero(b, 4, 0x5BFA_6BA6, 0x5E45_E257, 0xAFC2_0BF0_42AE, 0x926F_0A02, 0x8B19_7BE0);
    NextRoundOfZero(b, 5, 0x5E45_E257, 0x8B19_7BE0, 0x4568_F2BF_7F01, 0xADA1_D791, 0xFDE9_894A);
    NextRoundOfZero(b, 6, 0x8B19_7BE0, 0xFDE9_894A, 0x7FBF_53C5_2A55, 0x8527_6D16, 0x19DF_0B5C);
    NextRoundOfZero(b, 7, 0xFDE9_894A, 0x19DF_0B5C, 0x0F3E_FE85_6AF8, 0xF654_B44F, 0x907A_13F0);
    NextRoundOfZero(b, 8, 0x19DF_0B5C, 0x907A_13F0, 0x4A03_F40A_7FA1, 0xA0A3_CC22, 0x8819_0C50);
    NextRoundOfZero(b, 9, 0x907A_13F0, 0x8819_0C50, 0x4500_F285_82A1, 0xA971_BE02, 0x25D1_517C);
    NextRoundOfZero(b, 10, 0x8819_0C50, 0x25D1_517C, 0x10BE_A2AA_2BF8, 0xD2A6_DE7F, 0xF3EF_917E);
    NextRoundOfZero(b, 11, 0x25D1_517C, 0xF3EF_917E, 0x7A7F_5FCA_2BFD, 0x7129_9E76, 0x96E3_9712);
    NextRoundOfZero(b, 12, 0xF3EF_917E, 0x96E3_9712, 0x4AD7_07CA_E8A5, 0xA425_934E, 0x5A5D_A34A);
    NextRoundOfZero(b, 13, 0x96E3_9712, 0x5A5D_A34A, 0x2F42_FBD0_6A54, 0x2C47_CF13, 0x058C_AD0A);
    NextRoundOfZero(b, 14, 0x5A5D_A34A, 0x058C_AD0A, 0x00BC_5955_A854, 0xE241_F763, 0xBBEA_0DC2);
    NextRoundOfZero(b, 15, 0x058C_AD0A, 0xBBEA_0DC2, 0x5F7F_5405_BE05, 0xBC28_EB0D, 0x1C20_87FC);
    n := 16;
  }

  lemma ZeroKey1() returns (n: nat)
    ensures n <= 16 && After(0x9D79_9A5E_3AF3_7545, 0, false, n, 0xF397_9A31, 0xCA07_B193) && n == 16
  {
    hide After;
    var b: bv64 := 0x9D79_9A5E_3AF3_7545;
    FirstRound(b, 0, false, 0xEA7F_C9E3, 0x2572_1F3C);
    NextRoundOfZero(b, 0, 0xEA7F_C9E3, 0x2572_1F3C, 0x10AB_A40F_E9F8, 0xDB09_B68F, 0x03D5_0108);
    NextRoundOfZero(b, 1, 0x2572_1F3C, 0x03D5_0108, 0x007E_AA80_2850, 0xE7AB_416A, 0xEDA4_F868);
    NextRoundOfZero(b, 2, 0x03D5_0108, 0xEDA4_F868, 0x75BD_097F_0351, 0x3926_671C, 0x09B9_73A6);
    NextRoundOfZero(b, 3, 0xEDA4_F868, 0x09B9_73A6, 0x053D_F2BA_7D0C, 0x0031_8C6B, 0x70B6_F464);
    NextRoundOfZero(b, 4, 0x09B9_73A6, 0x70B6_F464, 0x3A15_AD7A_8308, 0x8D7D_9286, 0xAC12_23D3);
    NextRoundOfZero(b, 5, 0x70B6_F464, 0xAC12_23D3, 0xD580_A410_7EA7, 0x3C09_4257, 0xF288_FE16);
    NextRoundOfZero(b, 6, 0xAC12_23D3, 0xF288_FE16, 0x7A54_517F_C0AD, 0x7A24_6BB8, 0xF63E_9554);
    NextRoundOfZero(b, 7, 0xF288_FE16, 0xF63E_9554, 0x7AC1_FD4A_AAA9, 0x7D92_5834, 0xC4C4_3924);
    NextRoundOfZero(b, 8, 0xF63E_9554, 0xC4C4_3924, 0x6096_081F_2909, 0x5FB0_C0BA, 0xB930_5043);
    NextRoundOfZero(b, 9, 0xC4C4_3924, 0xB930_5043, 0xDF29_A02A_0207, 0xE89A_A9F8, 0xDB1C_9EE5);
    NextRoundOfZero(b, 10, 0xB930_5043, 0xDB1C_9EE5, 0xEF68_F94F_D70B, 0x06AC_0863, 0xE922_4D17);
    NextRoundOfZero(b, 11, 0xDB1C_9EE5, 0xE922_4D17, 0xF529_0425_A8AF, 0x674E_474D, 0x9369_649D);
    NextRoundOfZero(b, 12, 0xE922_4D17, 0x9369_649D, 0xCA6B_52B0_94FB, 0xCB82_7735, 0x8BCE_A0BF);
    NextRoundOfZero(b, 13, 0x9369_649D, 0x8BCE_A0BF, 0xC57E_5D50_15FF, 0x5ABE_3ACB, 0xEF13_FD5A);
    NextRoundOfZero(b, 14, 0x8BCE_A0BF, 0xEF13_FD5A, 0x75E8_A7FF_AAF5, 0x3A66_3D49, 0xF397_9A31);
    NextRoundOfZero(b, 15, 0xEF13_FD5A, 0xF397_9A31, 0xFA7C_AFCF_41A3, 0x0118_F4E1, 0xCA07_B193);
    n := 16;
  }

  lemma ZeroKey2() returns (n: nat)
    ensures n <= 16 && After(0x5A40_BD26_358C_C92F, 0, false, n, 0x1F52_7647, 0xA839_1EAB) && n == 16
  {
    hide After;
    var b: bv64 := 0x5A40_BD26_358C_C92F;
    FirstRound(b, 0, false, 0x4315_BCD4, 0x649C_E589);
    NextRoundOfZero(b, 0, 0x4315_BCD4, 0x649C_E589, 0xB094_F970_BC52, 0x2F8C_EC99, 0x1819_E70D);
    NextRoundOfZero(b, 1, 0x649C_E589, 0x1819_E70D, 0x8F00_F3F0_E85A, 0xC574_0860, 0x700D_319D);
    NextRoundOfZero(b, 2, 0x1819_E70D, 0x700D_319D, 0xBA00_5A9A_3CFA, 0xB0DC_B353, 0x3FAA_DCCF);
    NextRoundOfZero(b, 3, 0x700D_319D, 0x3FAA_DCCF, 0x9FFD_556F_965E, 0x29E2_9627, 0x5166_7EB1);
    NextRoundOfZero(b, 4, 0x3FAA_DCCF, 0x5166_7EB1, 0xAA2B_0C3F_D5A2, 0x6E39_187B, 0xC1B0_529B);
    NextRoundOfZero(b, 5, 0x5166_7EB1, 0xC1B0_529B, 0xE03D_A02A_54F7, 0x3DCA_A230, 0x520F_3963);
    NextRoundOfZero(b, 6, 0xC1B0_529B, 0x520F_3963, 0xAA40_5E9F_2B06, 0x67DF_7074, 0x27E5_856B);
    NextRoundOfZero(b, 7, 0x520F_3963, 0x27E5_856B, 0x90FF_0BC0_AB56, 0xEEEF_F2AE, 0xBBE0_AE96);
    NextRoundOfZero(b, 8, 0x27E5_856B, 0xBBE0_AE96, 0x5F7F_0155_D4AD, 0xBCED_F3C8, 0x8E58_B6BC);
    NextRoundOfZero(b, 9, 0xBBE0_AE96, 0x8E58_B6BC, 0x45C2_F15A_D5F9, 0xA549_FFC3, 0x0A57_C44F);
    NextRoundOfZero(b, 10, 0x8E58_B6BC, 0x0A57_C44F, 0x8542_AFE0_825E, 0xF238_6947, 0xDACE_1C5A);
    NextRoundOfZero(b, 11, 0x0A57_C44F, 0xDACE_1C5A, 0x6F56_5C0F_82F5, 0x57C4_B199, 0x6156_3DDC);
    NextRoundOfZero(b, 12, 0xDACE_1C5A, 0x6156_3DDC, 0x302A_AC1F_BEF8, 0xB1F7_C02F, 0x5709_437C);
    NextRoundOfZero(b, 13, 0x6156_3DDC, 0x5709_437C, 0x2AE8_52A0_6BF8, 0xF112_AF7F, 0x7EA4_D376);
    NextRoundOfZero(b, 14, 0x5709_437C, 0x7EA4_D376, 0x3FD5_096A_6BAC, 0x1EC6_05EE, 0x1F52_7647);
    NextRoundOfZero(b, 15, 0x7EA4_D376, 0x1F52_7647, 0x8FEA_A43A_C20E, 0xCFF9_6CF1, 0xA839_1EAB);
    n := 16;
  }

  lemma ZeroKey3() returns (n: nat)
    ensures n <= 16 && After(0x984F_EDF3_C6B3_4F06, 0, false, n, 0x2982_75AC, 0xD5DD_8123) && n == 16
  {
    hide After;
    var b: bv64 := 0x984F_EDF3_C6B3_4F06;
    FirstRound(b, 0, false, 0x5E29_D66E, 0x3D2C_47FA);
    NextRoundOfZero(b, 0, 0x5E29_D66E, 0x3D2C_47FA, 0x1FA9_5820_FFF4, 0x43DB_75CA, 0xB27E_37A7);
    NextRoundOfZero(b, 1, 0x3D2C_47FA, 0xB27E_37A7, 0xDA43_FC1A_FD0F, 0x77A8_1A64, 0x4D1C_808C);
    NextRoundOfZero(b, 2, 0xB27E_37A7, 0x4D1C_808C, 0x25A8_F940_1458, 0xE0AC_8AE5, 0xA3CE_A8C2);
    NextRoundOfZero(b, 3, 0x4D1C_808C, 0xA3CE_A8C2, 0x507E_5D55_1605, 0x67BE_F65D, 0x2268_5B70);
    NextRoundOfZero(b, 4, 0xA3CE_A8C2, 0x2268_5B70, 0x1043_502F_6BA0, 0xD861_7AE7, 0x1371_2465);
    NextRoundOfZero(b, 5, 0x2268_5B70, 0x1371_2465, 0x8A6B_A290_830A, 0x1B06_198F, 0x5A22_2353);
    NextRoundOfZero(b, 6, 0x1371_2465, 0x5A22_2353, 0xAF41_0410_6AA6, 0x9C9E_4F31, 0x059D_193F);
    NextRoundOfZero(b, 7, 0x5A22_2353, 0x059D_193F, 0x80BC_FA8F_29FE, 0x42F2_8088, 0x1763_A256);
    NextRoundOfZero(b, 8, 0x059D_193F, 0x1763_A256, 0x0AEB_07D0_42AC, 0x4135_CA0E, 0x98BB_C91B);
    NextRoundOfZero(b, 9, 0x1763_A256, 0x98BB_C91B, 0xCF15_F7E5_28F7, 0xBBEB_ADB0, 0xC4AA_C599);
    NextRoundOfZero(b, 10, 0x98BB_C91B, 0xC4AA_C599, 0xE095_5560_BCF3, 0x3F52_DC5C, 0xE7E6_8B21);
    NextRoundOfZero(b, 11, 0xC4AA_C599, 0xE7E6_8B21, 0xF0FF_0D45_6903, 0x5EE0_54BF, 0xAEA5_48A6);
    NextRoundOfZero(b, 12, 0xE7E6_8B21, 0xAEA5_48A6, 0x55D5_0AA5_150D, 0xCBC6_1697, 0x850D_5208);
    NextRoundOfZero(b, 13, 0xAEA5_48A6, 0x850D_5208, 0x40A8_5AAA_4051, 0x3B1C_DFDC, 0xD199_3ACD);
    NextRoundOfZero(b, 14, 0x850D_5208, 0xD199_3ACD, 0xEA3C_F29F_565B, 0xA8F1_712E, 0x2982_75AC);
    NextRoundOfZero(b, 15, 0xD199_3ACD, 0x2982_75AC, 0x153C_043A_BD58, 0x70BE_6505, 0xD5DD_8123);
    n := 16;
  }

  lemma ZeroKey4() returns (n: nat)
    ensures n <= 16 && After(0x085C_1327_C9D0_0ACE, 0, false, n, 0x9802_4D06, 0xA0B1_4634) && n == 16
  {
    hide After;
    var b: bv64 := 0x085C_1327_C9D0_0ACE;
    FirstRound(b, 0, false, 0xB226_8A1C, 0xB008_D3CC);
    NextRoundOfZero(b, 0, 0xB226_8A1C, 0xB008_D3CC, 0x5A00_516A_7E59, 0xC0D4_0CE0, 0xA6B7_1F15);
    NextRoundOfZero(b, 1, 0xB008_D3CC, 0xA6B7_1F15, 0xD0D5_AE8F_E8AB, 0x987D_864A, 0x3DB3_C382);
    NextRoundOfZero(b, 2, 0xA6B7_1F15, 0x3DB3_C382, 0x1FBD_A7E0_7C04, 0x45C6_62A8, 0xAED2_CA84);
    NextRoundOfZero(b, 3, 0x3DB3_C382, 0xAED2_CA84, 0x55D6_A565_5409, 0xCB40_3D3A, 0x4738_270A);
    NextRoundOfZero(b, 4, 0xAED2_CA84, 0x4738_270A, 0x20E9_F010_E854, 0x240F_4863, 0x3E84_D4D4);
    NextRoundOfZero(b, 5, 0x4738_270A, 0x3E84_D4D4, 0x1FD4_096A_96A8, 0x4E16_09A9, 0x1B70_9B1B);
    NextRoundOfZero(b, 6, 0x3E84_D4D4, 0x1B70_9B1B, 0x8F6B_A14F_68F6, 0xC603_0ABD, 0xE464_58E5);
    NextRoundOfZero(b, 7, 0x1B70_9B1B, 0xE464_58E5, 0xF083_082F_170B, 0x56F0_7B63, 0x6F47_368D);
    NextRoundOfZero(b, 8, 0xE464_58E5, 0x6F47_368D, 0xB5EA_0E9A_D45A, 0x1A8A_BFE0, 0x951C_7D2E);
    NextRoundOfZero(b, 9, 0x6F47_368D, 0x951C_7D2E, 0x4AA8_F83F_A95D, 0xA4A5_1DD9, 0xD5D7_0D90);
    NextRoundOfZero(b, 10, 0x951C_7D2E, 0xD5D7_0D90, 0x6ABE_AE85_BCA1, 0x9FAD_BBF2, 0x66A6_08F9);
    NextRoundOfZero(b, 11, 0xD5D7_0D90, 0x66A6_08F9, 0xB0D5_0C05_17F2, 0x28C9_E666, 0x54E8_0A78);
    NextRoundOfZero(b, 12, 0x66A6_08F9, 0x54E8_0A78, 0x2A97_5005_43F0, 0xF3F1_E3A0, 0xA303_EF7E);
    NextRoundOfZero(b, 13, 0x54E8_0A78, 0xA303_EF7E, 0x5068_07F5_EBFD, 0x6ED5_5B76, 0xA2D7_BD48);
    NextRoundOfZero(b, 14, 0xA303_EF7E, 0xA2D7_BD48, 0x5056_AFDF_AA51, 0x6448_9D1C, 0x9802_4D06);
    NextRoundOfZero(b, 15, 0xA2D7_BD48, 0x9802_4D06, 0x4F00_0425_A80D, 0x65AE_4717, 0xA0B1_4634);
    n := 16;
  }

  lemma ZeroKey5() returns (n: nat)
    ensures n <= 16 && After(0x2BAC_4C57_ECE3_29DF, 0, false, n, 0x5D59_A6CD, 0x0FB0_3322) && n == 16
  {
    hide After;
    var b: bv64 := 0x2BAC_4C57_ECE3_29DF;
    FirstRound(b, 0, false, 0xBC88_9EE9, 0xB273_D7A9);
    NextRoundOfZero(b, 0, 0xBC88_9EE9, 0xB273_D7A9, 0xDA43_A7EA_FD53, 0x7756_3A05, 0xC8E9_445B);
    NextRoundOfZero(b, 1, 0xB273_D7A9, 0xC8E9_445B, 0xE517_52A0_82F7, 0xACF2_A990, 0xA5BA_F43C);
    NextRoundOfZero(b, 2, 0xC8E9_445B, 0xA5BA_F43C, 0x50BD_F57A_81F9, 0x6235_9273, 0x2FDB_DA5F);
    NextRoundOfZero(b, 3, 0xA5BA_F43C, 0x2FDB_DA5F, 0x95FE_F7EF_42FE, 0x855B_4498, 0x2B7F_B465);
    NextRoundOfZero(b, 4, 0x2FDB_DA5F, 0x2B7F_B465, 0x956B_FFDA_830A, 0x8D7E_528F, 0x0334_822A);
    NextRoundOfZero(b, 5, 0x2B7F_B465, 0x0334_822A, 0x0069_A940_4154, 0xEE9A_8AB3, 0x7C95_3B34);
    NextRoundOfZero(b, 6, 0x0334_822A, 0x7C95_3B34, 0x3F94_AA9F_69A8, 0x10DB_7AD9, 0xBD41_8BE9);
    NextRoundOfZero(b, 7, 0x7C95_3B34, 0xBD41_8BE9, 0xDFAA_03C5_7F53, 0xE388_6E35, 0x2E31_F4DC);
    NextRoundOfZero(b, 8, 0xBD41_8BE9, 0x2E31_F4DC, 0x15C1_A3FA_96F8, 0x75EF_E9FF, 0x2616_741E);
    NextRoundOfZero(b, 9, 0x2E31_F4DC, 0x2616_741E, 0x10C0_AC3A_80FC, 0xD307_6205, 0xEED5_2C7E);
    NextRoundOfZero(b, 10, 0x2616_741E, 0xEED5_2C7E, 0x75D6_AA95_83FD, 0x3B4B_CEA6, 0xF779_3275);
    NextRoundOfZero(b, 11, 0xEED5_2C7E, 0xF779_3275, 0xFAEB_F29A_43AB, 0x0171_BFDA, 0x51E6_4CF3);
    NextRoundOfZero(b, 12, 0xF779_3275, 0x51E6_4CF3, 0xAA3F_0C25_97A6, 0x68E9_4011, 0x7574_B931);
    NextRoundOfZero(b, 13, 0x51E6_4CF3, 0x7574_B931, 0xBAAB_A95F_29A2, 0xB40A_A0DB, 0x5A34_4620);
    NextRoundOfZero(b, 14, 0x7574_B931, 0x5A34_4620, 0x2F41_A820_C100, 0x2CEC_762D, 0x5D59_A6CD);
    NextRoundOfZero(b, 15, 0x5A34_4620, 0x5D59_A6CD, 0xAFAA_F3D0_D65A, 0x9394_C920, 0x0FB0_3322);
    n := 16;
  }

  lemma ZeroKey6() returns (n: nat)
    ensures n <= 16 && After(0xA3F8_DB31_7D96_C3F0, 0, false, n, 0x624A_40AE, 0x8228_238B) && n == 16
  {
    hide After;
    var b: bv64 := 0xA3F8_DB31_7D96_C3F0;
    FirstRound(b, 0, false, 0xD6BE_305D, 0xE79B_1665);
    NextRoundOfZero(b, 0, 0xD6BE_305D, 0xE79B_1665, 0xF0FC_F68A_C30B, 0x5EFE_2C83, 0x82F5_A982);
    NextRoundOfZero(b, 1, 0xE79B_1665, 0x82F5_A982, 0x4057_ABD5_3C05, 0x3481_01AD, 0x6F9B_3956);
    NextRoundOfZero(b, 2, 0x82F5_A982, 0x6F9B_3956, 0x35FC_F69F_2AAC, 0xD5FE_703E, 0xAC32_7C74);
    NextRoundOfZero(b, 3, 0x6F9B_3956, 0xAC32_7C74, 0x5581_A43F_83A9, 0xCCE9_11D4, 0xCD02_9823);
    NextRoundOfZero(b, 4, 0xAC32_7C74, 0xCD02_9823, 0xE5A8_054F_0107, 0xA0DB_0728, 0x20D3_5B3C);
    NextRoundOfZero(b, 5, 0xCD02_9823, 0x20D3_5B3C, 0x1016_A6AF_69F8, 0xD340_EA8F, 0x94A5_5080);
    NextRoundOfZero(b, 6, 0x20D3_5B3C, 0x94A5_5080, 0x4A95_0AAA_1401, 0xA3C6_D431, 0x4316_0434);
    NextRoundOfZero(b, 7, 0x94A5_5080, 0x4316_0434, 0x2068_AC00_81A8, 0x2E67_29E9, 0x4CFC_6E15);
    NextRoundOfZero(b, 8, 0x4316_0434, 0x4CFC_6E15, 0xA597_F835_C0AA, 0x4615_D5BC, 0xAC12_B00D);
    NextRoundOfZero(b, 9, 0x4CFC_6E15, 0xAC12_B00D, 0xD580_A55A_005B, 0x3C00_F9DE, 0x77E2_4CA6);
    NextRoundOfZero(b, 10, 0xAC12_B00D, 0x77E2_4CA6, 0x3AFF_0425_950C, 0x82EE_409B, 0xE6D5_A948);
    NextRoundOfZero(b, 11, 0x77E2_4CA6, 0xE6D5_A948, 0x70D6_ABD5_2A51, 0x0841_0D1C, 0xEDEB_6C8E);
    NextRoundOfZero(b, 12, 0xE6D5_A948, 0xEDEB_6C8E, 0x75BF_56B5_945D, 0x3925_20E9, 0x6ECD_F7CF);
    NextRoundOfZero(b, 13, 0xEDEB_6C8E, 0x6ECD_F7CF, 0xB5D6_5BFA_FE5E, 0x1BCA_EAE7, 0xBC94_216D);
    NextRoundOfZero(b, 14, 0x6ECD_F7CF, 0xBC94_216D, 0xDF94_A810_2B5B, 0xE0DC_41AE, 0x624A_40AE);
    NextRoundOfZero(b, 15, 0xBC94_216D, 0x624A_40AE, 0x3042_5420_155C, 0xB838_7A5C, 0x8228_238B);
    n := 16;
  }

  lemma ZeroKey7() returns (n: nat)
    ensures n <= 16 && After(0x052B_C165_07F8_BAE4, 0, false, n, 0x7981_49F1, 0x1961_1303) && n == 16
  {
    hide After;
    var b: bv64 := 0x052B_C165_07F8_BAE4;
    FirstRound(b, 0, false, 0xAC60_991F, 0xE4EA_6252);
    NextRoundOfZero(b, 0, 0xAC60_991F, 0xE4EA_6252, 0x7097_5430_42A5, 0x0FF8_BA0E, 0xD14B_D8EB);
    NextRoundOfZero(b, 1, 0xE4EA_6252, 0xD14B_D8EB, 0xEA2A_57EF_1757, 0xAE6C_4B8B, 0xBC45_5807);
    NextRoundOfZero(b, 2, 0xD14B_D8EB, 0xBC45_5807, 0xDF82_0AAF_000F, 0xE966_E744, 0xD0B6_2A47);
    NextRoundOfZero(b, 3, 0xBC45_5807, 0xD0B6_2A47, 0xEA15_AC15_420F, 0xAD77_23F4, 0x3ABC_2EB2);
    NextRoundOfZero(b, 4, 0xD0B6_2A47, 0x3ABC_2EB2, 0x1F55_F815_D5A4, 0x47E5_2374, 0x1287_DFF3);
    NextRoundOfZero(b, 5, 0x3ABC_2EB2, 0x1287_DFF3, 0x8A54_0FEF_FFA6, 0x1A13_4D21, 0xEEF0_02B8);
    NextRoundOfZero(b, 6, 0x1287_DFF3, 0xEEF0_02B8, 0x75D7_A000_55F1, 0x3B8A_24CF, 0x5ADD_9418);
    NextRoundOfZero(b, 7, 0xEEF0_02B8, 0x5ADD_9418, 0x2F56_FBCA_80F0, 0x27B7_9200, 0x0B90_51AC);
    NextRoundOfZero(b, 8, 0x5ADD_9418, 0x0B90_51AC, 0x057C_A02A_3D58, 0x0A1A_A305, 0x1FB5_BCF8);
    NextRoundOfZero(b, 9, 0x0B90_51AC, 0x1FB5_BCF8, 0x0FFD_ABDF_97F0, 0xF9C1_9660, 0xAA29_96A6);
    NextRoundOfZero(b, 10, 0x1FB5_BCF8, 0xAA29_96A6, 0x5541_53CA_D50D, 0xC207_9F97, 0xEC57_04D1);
    NextRoundOfZero(b, 11, 0xAA29_96A6, 0xEC57_04D1, 0xF582_AE80_96A3, 0x6C3D_47A1, 0x2E05_28FB);
    NextRoundOfZero(b, 12, 0xEC57_04D1, 0x2E05_28FB, 0x95C0_0A95_17F6, 0x85A6_C66D, 0xE5A3_59ED);
    NextRoundOfZero(b, 13, 0x2E05_28FB, 0xE5A3_59ED, 0xF0BD_06AF_3F5B, 0x5223_EE3E, 0xF563_AC55);
    NextRoundOfZero(b, 14, 0xE5A3_59ED, 0xF563_AC55, 0xFAAB_07D5_82AB, 0x0435_0E0A, 0x7981_49F1);
    NextRoundOfZero(b, 15, 0xF563_AC55, 0x7981_49F1, 0xBF3C_02A5_3FA2, 0x76BD_112B, 0x1961_1303);
    n := 16;
  }

  lemma ZeroKey8() returns (n: nat)
    ensures n <= 16 && After(0xD458_6A9A_FA41_FC9B, 0, false, n, 0xB09F_5BD6, 0x653B_71E9) && n == 16
  {
    hide After;
    var b: bv64 := 0xD458_6A9A_FA41_FC9B;
    FirstRound(b, 0, false, 0x77DB_41A0, 0xD954_DE9C);
    NextRoundOfZero(b, 0, 0x77DB_41A0, 0xD954_DE9C, 0x6F2A_A96F_D4F9, 0x58FA_9833, 0x4090_CCE6);
    NextRoundOfZero(b, 1, 0xD954_DE9C, 0x4090_CCE6, 0x2014_A165_970C, 0x23D3_306B, 0x3507_911C);
    NextRoundOfZero(b, 2, 0x4090_CCE6, 0x3507_911C, 0x1AA8_0FCA_28F8, 0x14D3_9EBF, 0xFFF3_C1DD);
    NextRoundOfZero(b, 3, 0x3507_911C, 0xFFF3_C1DD, 0xFFFF_A7E0_3EFB, 0xD976_6F25, 0x21EA_6DB2);
    NextRoundOfZero(b, 4, 0xFFF3_C1DD, 0x21EA_6DB2, 0x103F_5435_BDA4, 0xDD28_DB84, 0xCE5F_21AA);
    NextRoundOfZero(b, 5, 0x21EA_6DB2, 0xCE5F_21AA, 0x65C2_FE90_3D55, 0x9544_1F06, 0x1149_1D88);
    NextRoundOfZero(b, 6, 0xCE5F_21AA, 0x1149_1D88, 0x0A2A_528F_BC50, 0x4E62_809A, 0x8514_A1BF);
    NextRoundOfZero(b, 7, 0x1149_1D88, 0x8514_A1BF, 0xC0A8_A950_3DFF, 0xFB6A_3FFB, 0x6BB2_F347);
    NextRoundOfZero(b, 8, 0x8514_A1BF, 0x6BB2_F347, 0xB57D_A57A_6A0E, 0x1AC0_95C1, 0xE40D_88B4);
    NextRoundOfZero(b, 9, 0x6BB2_F347, 0xE40D_88B4, 0x7080_5BC5_15A9, 0x06DA_6674, 0x2DC7_F6BF);
    NextRoundOfZero(b, 10, 0xE40D_88B4, 0x2DC7_F6BF, 0x95BE_0FFA_D5FE, 0x8953_EFC8, 0x79F0_E83D);
    NextRoundOfZero(b, 11, 0x2DC7_F6BF, 0x79F0_E83D, 0xBF3F_A175_01FA, 0x7673_8073, 0xEA94_78A9);
    NextRoundOfZero(b, 12, 0x79F0_E83D, 0xEA94_78A9, 0xF554_A83F_1553, 0x61DC_1B55, 0x4FC1_135D);
    NextRoundOfZero(b, 13, 0xEA94_78A9, 0x4FC1_135D, 0xA5FE_028A_6AFA, 0x455D_2543, 0x6E87_8071);
    NextRoundOfZero(b, 14, 0x4FC1_135D, 0x6E87_8071, 0xB5D4_0FC0_03A2, 0x1B13_FCDB, 0xB09F_5BD6);
    NextRoundOfZero(b, 15, 0x6E87_8071, 0xB09F_5BD6, 0x5A14_FEAF_7EAD, 0xCD84_E758, 0x653B_71E9);
    n := 16;
  }

  lemma ZeroKey9() returns (n: nat)
    ensures n <= 16 && After(0xE63B_F16F_C4A4_9463, 0, false, n, 0xAB7A_DAA7, 0x9360_EB96) && n == 16
  {
    hide After;
    var b: bv64 := 0xE63B_F16F_C4A4_9463;
    FirstRound(b, 0, false, 0x9D46_798E, 0x75AF_0A8B);
    NextRoundOfZero(b, 0, 0x9D46_798E, 0x75AF_0A8B, 0xBABD_5E85_5456, 0xBFEF_BDEE, 0x649D_0E71);
    NextRoundOfZero(b, 1, 0x75AF_0A8B, 0x649D_0E71, 0xB094_FA85_C3A2, 0x2F82_B5DB, 0x1EF5_6112);
    NextRoundOfZero(b, 2, 0x649D_0E71, 0x1EF5_6112, 0x0FD7_AAB0_28A4, 0xFE8B_7144, 0x8441_AD83);
    NextRoundOfZero(b, 3, 0x1EF5_6112, 0x8441_AD83, 0xC082_03D5_BC07, 0xF668_0BA8, 0x4654_C745);
    NextRoundOfZero(b, 4, 0x8441_AD83, 0x4654_C745, 0xA0C2_A960_EA0A, 0xD33A_D8CF, 0xF997_65E4);
    NextRoundOfZero(b, 5, 0x4654_C745, 0xF997_65E4, 0x7F3C_AEB0_BF09, 0x861D_7C9A, 0xB8D2_D79C);
    NextRoundOfZero(b, 6, 0xF997_65E4, 0xB8D2_D79C, 0x5F16_A56A_FCF9, 0xBB40_0A53, 0xAB2C_2FE6);
    NextRoundOfZero(b, 7, 0xB8D2_D79C, 0xAB2C_2FE6, 0x5569_5815_FF0D, 0xCDDB_2897, 0x2E19_1E6D);
    NextRoundOfZero(b, 8, 0xAB2C_2FE6, 0x2E19_1E6D, 0x95C0_F28F_C35A, 0x8571_8B10, 0x3C8D_4FF2);
    NextRoundOfZero(b, 9, 0x2E19_1E6D, 0x3C8D_4FF2, 0x1F94_5AA5_FFA4, 0x402C_1824, 0x1E19_8A09);
    NextRoundOfZero(b, 10, 0x3C8D_4FF2, 0x1E19_8A09, 0x8FC0_F3C5_4052, 0xC274_63D9, 0x7238_F777);
    NextRoundOfZero(b, 11, 0x1E19_8A09, 0x7238_F777, 0xBA41_F17A_EBAE, 0xB799_93E2, 0xFBAB_ED5A);
    NextRoundOfZero(b, 12, 0x7238_F777, 0xFBAB_ED5A, 0x7F7D_57F5_AAF5, 0x8CEC_5749, 0x5A85_CE2B);
    NextRoundOfZero(b, 13, 0xFBAB_ED5A, 0x5A85_CE2B, 0xAF54_0BE5_C156, 0x971F_A5BE, 0x3469_99A1);
    NextRoundOfZero(b, 14, 0x5A85_CE2B, 0x3469_99A1, 0x9A83_53CF_3D02, 0x8A67_FE62, 0xAB7A_DAA7);
    NextRoundOfZero(b, 15, 0x3469_99A1, 0xAB7A_DAA7, 0xD56B_F56F_550F, 0x3D75_9194, 0x9360_EB96);
    n := 16;
  }

  // ----- other keys

  lemma TextbookKeys()
    ensures
      var key: bv64 := 0x1334_5779_9BBC_DFF1;
      && KeyWord(key, 0) == 0x1B02_EFFC_7072 && KeyWord(key, 1) == 0x79AE_D9DB_C9E5
      && KeyWord(key, 2) == 0x55FC_8A42_CF99 && KeyWord(key, 3) == 0x72AD_D6DB_351D
      && KeyWord(key, 4) == 0x7CEC_07EB_53A8 && KeyWord(key, 5) == 0x63A5_3E50_7B2F
      && KeyWord(key, 6) == 0xEC84_B7F6_18BC && KeyWord(key, 7) == 0xF78A_3AC1_3BFB
      && KeyWord(key, 8) == 0xE0DB_EBED_E781 && KeyWord(key, 9) == 0xB1F3_47BA_464F
      && KeyWord(key, 10) == 0x215F_D3DE_D386 && KeyWord(key, 11) == 0x7571_F594_67E9
      && KeyWord(key, 12) == 0x97C5_D1FA_BA41 && KeyWord(key, 13) == 0x5F43_B7F2_E73A
      && KeyWord(key, 14) == 0xBF91_8D3D_3F0A && KeyWord(key, 15) == 0xCB3D_8B0E_17F5
  {
    hide KeyWord, Turning;
    var key: bv64 := 0x1334_5779_9BBC_DFF1;
    FirstKey(key, 0xF0CC_AAF, 0x5566_78F);
    NextKey(key, 0, 0xF0CC_AAF, 0x5566_78F, 0xE199_55F, 0xAACC_F1E, 0x1B02_EFFC_7072);
    NextKey(key, 1, 0xE199_55F, 0xAACC_F1E, 0xC332_ABF, 0x5599_E3D, 0x79AE_D9DB_C9E5);
    NextKey(key, 2, 0xC332_ABF, 0x5599_E3D, 0x0CCA_AFF, 0x5667_8F5, 0x55FC_8A42_CF99);
    NextKey(key, 3, 0x0CCA_AFF, 0x5667_8F5, 0x332A_BFC, 0x599E_3D5, 0x72AD_D6DB_351D);
    NextKey(key, 4, 0x332A_BFC, 0x599E_3D5, 0xCCAA_FF0, 0x6678_F55, 0x7CEC_07EB_53A8);
    NextKey(key, 5, 0xCCAA_FF0, 0x6678_F55, 0x32AB_FC3, 0x99E3_D55, 0x63A5_3E50_7B2F);
    NextKey(key, 6, 0x32AB_FC3, 0x99E3_D55, 0xCAAF_F0C, 0x678F_556, 0xEC84_B7F6_18BC);
    NextKey(key, 7, 0xCAAF_F0C, 0x678F_556, 0x2ABF_C33, 0x9E3D_559, 0xF78A_3AC1_3BFB);
    NextKey(key, 8, 0x2ABF_C33, 0x9E3D_559, 0x557F_866, 0x3C7A_AB3, 0xE0DB_EBED_E781);
    NextKey(key, 9, 0x557F_866, 0x3C7A_AB3, 0x55FE_199, 0xF1EA_ACC, 0xB1F3_47BA_464F);
    NextKey(key, 10, 0x55FE_199, 0xF1EA_ACC, 0x57F8_665, 0xC7AA_B33, 0x215F_D3DE_D386);
    NextKey(key, 11, 0x57F8_665, 0xC7AA_B33, 0x5FE1_995, 0x1EAA_CCF, 0x7571_F594_67E9);
    NextKey(key, 12, 0x5FE1_995, 0x1EAA_CCF, 0x7F86_655, 0x7AAB_33C, 0x97C5_D1FA_BA41);
    NextKey(key, 13, 0x7F86_655, 0x7AAB_33C, 0xFE19_955, 0xEAAC_CF1, 0x5F43_B7F2_E73A);
    NextKey(key, 14, 0xFE19_955, 0xEAAC_CF1, 0xF866_557, 0xAAB3_3C7, 0xBF91_8D3D_3F0A);
    NextKey(key, 15, 0xF866_557, 0xAAB3_3C7, 0xF0CC_AAF, 0x5566_78F, 0xCB3D_8B0E_17F5);
  }

  lemma TextbookBlock() returns (n: nat)
    ensures n <= 16 && After(0x0123_4567_89AB_CDEF, 0x1334_5779_9BBC_DFF1, false, n, 0x4342_3234, 0x0A4C_D995) && n == 16
  {
    hide KeyWord, After;
    var b, key: bv64 := 0x0123_4567_89AB_CDEF, 0x1334_5779_9BBC_DFF1;
    TextbookKeys();
    FirstRound(b, key, false, 0xCC00_CCFF, 0xF0AA_F0AA);
    NextRound(b, key, false, 0, 0xCC00_CCFF, 0xF0AA_F0AA, 0x1B02_EFFC_7072, 0x6117_BA86_6527, 0x5C82_B597, 0xEF4A_6544);
    NextRound(b, key, false, 1, 0xF0AA_F0AA, 0xEF4A_6544, 0x79AE_D9DB_C9E5, 0x0C44_8DEB_63EC, 0xF8D0_3AAE, 0xCC01_7709);
    NextRound(b, key, false, 2, 0xEF4A_6544, 0xCC01_7709, 0x55FC_8A42_CF99, 0xB07C_88F8_27CA, 0x2710_E16F, 0xA25C_0BF4);
    NextRound(b, key, false, 3, 0xCC01_7709, 0xA25C_0BF4, 0x72AD_D6DB_351D, 0x22EF_2EDE_4AB4, 0x21ED_9F3A, 0x7722_0045);
    NextRound(b, key, false, 4, 0xA25C_0BF4, 0x7722_0045, 0x7CEC_07EB_53A8, 0xC605_03EB_51A2, 0x50C8_31EB, 0x8A4F_A637);
    NextRound(b, key, false, 5, 0x7722_0045, 0x8A4F_A637, 0x63A5_3E50_7B2F, 0xA6E7_6180_BA80, 0x41F3_4C3D, 0xE967_CD69);
    NextRound(b, key, false, 6, 0x8A4F_A637, 0xE967_CD69, 0xEC84_B7F6_18BC, 0x19AF_B813_B3EF, 0x1075_40AD, 0x064A_BA10);
    NextRound(b, key, false, 7, 0xE967_CD69, 0x064A_BA10, 0xF78A_3AC1_3BFB, 0xF748_6F9E_7B5B, 0x6C18_7CAE, 0xD569_4B90);
    NextRound(b, key, false, 8, 0x064A_BA10, 0xD569_4B90, 0xE0DB_EBED_E781, 0x8A70_B948_9B20, 0x110C_5777, 0x247C_C67A);
    NextRound(b, key, false, 9, 0xD569_4B90, 0x247C_C67A, 0xB1F3_47BA_464F, 0xA170_BEDA_85BB, 0xDA04_5275, 0xB7D5_D7B2);
    NextRound(b, key, false, 10, 0x247C_C67A, 0xB7D5_D7B2, 0x215F_D3DE_D386, 0x7BA1_7834_2E23, 0x7305_D101, 0xC578_3C78);
    NextRound(b, key, false, 11, 0xB7D5_D7B2, 0xC578_3C78, 0x7571_F594_67E9, 0x15DA_058B_E418, 0x7B8B_2635, 0x75BD_1858);
    NextRound(b, key, false, 12, 0xC578_3C78, 0x75BD_1858, 0x97C5_D1FA_BA41, 0xAD78_2B75_B8B1, 0x9AD1_8B4F, 0x18C3_155A);
    NextRound(b, key, false, 13, 0x75BD_1858, 0x18C3_155A, 0x5F43_B7F2_E73A, 0x5055_B178_4DCE, 0x6479_9AF1, 0xC28C_960D);
    NextRound(b, key, false, 14, 0x18C3_155A, 0xC28C_960D, 0xBF91_8D3D_3F0A, 0x5FC5_D477_FF51, 0xB2E8_8D3C, 0x4342_3234);
    NextRound(b, key, false, 15, 0xC28C_960D, 0x4342_3234, 0xCB3D_8B0E_17F5, 0xEB57_8F14_565D, 0xA783_2429, 0x0A4C_D995);
    n := 16;
  }

  lemma PasswordKeys()
    ensures
      var key: bv64 := 0xD6CA_F200_0000_0000;
      && KeyWord(key, 0) == 0x84E0_1204_20C8 && KeyWord(key, 1) == 0x8443_0640_2491
      && KeyWord(key, 2) == 0x2213_016B_0009 && KeyWord(key, 3) == 0x0910_6102_510A
      && KeyWord(key, 4) == 0x8140_D804_1124 && KeyWord(key, 5) == 0x1443_80C0_08E0
      && KeyWord(key, 6) == 0x1219_0140_8A19 && KeyWord(key, 7) == 0x0920_4513_1418
      && KeyWord(key, 8) == 0x0924_1C88_1606 && KeyWord(key, 9) == 0x4404_881C_42A0
      && KeyWord(key, 10) == 0x5288_2010_4841 && KeyWord(key, 11) == 0x88A8_0282_A010
      && KeyWord(key, 12) == 0x2026_0EA1_2700 && KeyWord(key, 13) == 0x6014_0038_0202
      && KeyWord(key, 14) == 0x4088_7054_4006 && KeyWord(key, 15) == 0x80C0_7000_8984
  {
    hide KeyWord, Turning;
    var key: bv64 := 0xD6CA_F200_0000_0000;
    FirstKey(key, 0x0707_040, 0x0701_025);
    NextKey(key, 0, 0x0707_040, 0x0701_025, 0x0E0E_080, 0x0E02_04A, 0x84E0_1204_20C8);
    NextKey(key, 1, 0x0E0E_080, 0x0E02_04A, 0x1C1C_100, 0x1C04_094, 0x8443_0640_2491);
    NextKey(key, 2, 0x1C1C_100, 0x1C04_094, 0x7070_400, 0x7010_250, 0x2213_016B_0009);
    NextKey(key, 3, 0x7070_400, 0x7010_250, 0xC1C1_001, 0xC040_941, 0x0910_6102_510A);
    NextKey(key, 4, 0xC1C1_001, 0xC040_941, 0x0704_007, 0x0102_507, 0x8140_D804_1124);
    NextKey(key, 5, 0x0704_007, 0x0102_507, 0x1C10_01C, 0x0409_41C, 0x1443_80C0_08E0);
    NextKey(key, 6, 0x1C10_01C, 0x0409_41C, 0x7040_070, 0x1025_070, 0x1219_0140_8A19);
    NextKey(key, 7, 0x7040_070, 0x1025_070, 0xC100_1C1, 0x4094_1C0, 0x0920_4513_1418);
    NextKey(key, 8, 0xC100_1C1, 0x4094_1C0, 0x8200_383, 0x8128_380, 0x0924_1C88_1606);
    NextKey(key, 9, 0x8200_383, 0x8128_380, 0x0800_E0E, 0x04A0_E02, 0x4404_881C_42A0);
    NextKey(key, 10, 0x0800_E0E, 0x04A0_E02, 0x2003_838, 0x1283_808, 0x5288_2010_4841);
    NextKey(key, 11, 0x2003_838, 0x1283_808, 0x800E_0E0, 0x4A0E_020, 0x88A8_0282_A010);
    NextKey(key, 12, 0x800E_0E0, 0x4A0E_020, 0x0038_382, 0x2838_081, 0x2026_0EA1_2700);
    NextKey(key, 13, 0x0038_382, 0x2838_081, 0x00E0_E08, 0xA0E0_204, 0x6014_0038_0202);
    NextKey(key, 14, 0x00E0_E08, 0xA0E0_204, 0x0383_820, 0x8380_812, 0x4088_7054_4006);
    NextKey(key, 15, 0x0383_820, 0x8380_812, 0x0707_040, 0x0701_025, 0x80C0_7000_8984);
  }

  lemma PasswordBlock() returns (n: nat)
    ensures n <= 16 && After(0xC200_0000_0000_0000, 0xD6CA_F200_0000_0000, false, n, 0xBEC8_CC05, 0xD8FE_A83E) && n == 16
  {
    hide KeyWord, After;
    var b, key: bv64 := 0xC200_0000_0000_0000, 0xD6CA_F200_0000_0000;
    PasswordKeys();
    FirstRound(b, key, false, 0x0100_0000, 0x0100_0001);
    NextRound(b, key, false, 0, 0x0100_0000, 0x0100_0001, 0x84E0_1204_20C8, 0x04C8_1204_20CA, 0x03D2_E10F, 0x4C47_69A0);
    NextRound(b, key, false, 1, 0x0100_0001, 0x4C47_69A0, 0x8443_0640_2491, 0xA1C1_08F5_1991, 0xD590_56DC, 0x2FB4_C13A);
    NextRound(b, key, false, 2, 0x4C47_69A0, 0x2FB4_C13A, 0x2213_016B_0009, 0x37EE_A80B_29FD, 0xDFAC_C086, 0x0DC9_B8D7);
    NextRound(b, key, false, 3, 0x2FB4_C13A, 0x0DC9_B8D7, 0x0910_6102_510A, 0x8CAE_32DD_47A4, 0xCB51_9314, 0xC81D_211A);
    NextRound(b, key, false, 4, 0x0DC9_B8D7, 0xC81D_211A, 0x8140_D804_1124, 0xE440_2294_39D1, 0xA8A6_CF8C, 0x1425_8BFA);
    NextRound(b, key, false, 5, 0xC81D_211A, 0x1425_8BFA, 0x1443_80C0_08E0, 0x1EC2_8B05_7714, 0x4D3F_EE63, 0x5D63_FDC6);
    NextRound(b, key, false, 6, 0x1425_8BFA, 0x5D63_FDC6, 0x1219_0140_8A19, 0x3DB2_06BF_3415, 0x1963_DE36, 0xA74A_CFD4);
    NextRound(b, key, false, 7, 0x5D63_FDC6, 0xA74A_CFD4, 0x0920_4513_1418, 0x59CA_1076_EAB1, 0xC581_833F, 0xD6C1_10F6);
    NextRound(b, key, false, 8, 0xA74A_CFD4, 0xD6C1_10F6, 0x0924_1C88_1606, 0x63F2_1E02_01AB, 0x596F_29EA, 0x3F11_3B13);
    NextRound(b, key, false, 9, 0xD6C1_10F6, 0x3F11_3B13, 0x4404_881C_42A0, 0xDBEC_2A83_2A06, 0x7FBB_40C4, 0x129D_D381);
    NextRound(b, key, false, 10, 0x3F11_3B13, 0x129D_D381, 0x5288_2010_4841, 0xD8DC_DBFA_3443, 0x78FA_E3EF, 0x326E_94F4);
    NextRound(b, key, false, 11, 0x129D_D381, 0x326E_94F4, 0x88A8_0282_A010, 0x92EB_5FC8_37B8, 0xE189_9F1F, 0xA93F_38E9);
    NextRound(b, key, false, 12, 0x326E_94F4, 0xA93F_38E9, 0x2026_0EA1_2700, 0xF50F_F03E_3053, 0x69CF_13D5, 0x9017_6F95);
    NextRound(b, key, false, 13, 0xA93F_38E9, 0x9017_6F95, 0x6014_0038_0202, 0xAA14_AE8D_FEA9, 0x6DDD_8854, 0x3E26_EB99);
    NextRound(b, key, false, 14, 0x9017_6F95, 0x3E26_EB99, 0x4088_7054_4006, 0xDF49_7D21_3CF4, 0xECD2_715A, 0xBEC8_CC05);
    NextRound(b, key, false, 15, 0x3E26_EB99, 0xBEC8_CC05, 0x80C0_7000_8984, 0x5F16_2165_098F, 0xBBB3_30D4, 0xD8FE_A83E);
    n := 16;
  }

  /** What the steps above come to for the bit arrays: these blocks, under these keys, make these blocks. */
  lemma KnownAnswers()
    ensures Cipher(Block(0x0000_0000_0000_0000), KeysFor(Block(0), false)) == Block(0x8CA6_4DE9_C1B1_23A7)
    ensures Cipher(Block(0x9D79_9A5E_3AF3_7545), KeysFor(Block(0), false)) == Block(0xB7F9_3048_AF86_C0ED)
    ensures Cipher(Block(0x5A40_BD26_358C_C92F), KeysFor(Block(0), false)) == Block(0x93AF_8ED5_BC59_2A41)
    ensures Cipher(Block(0x984F_EDF3_C6B3_4F06), KeysFor(Block(0), false)) == Block(0xDD21_5A92_588B_5876)
    ensures Cipher(Block(0x085C_1327_C9D0_0ACE), KeysFor(Block(0), false)) == Block(0x1826_0F88_9151_0CD0)
    ensures Cipher(Block(0x2BAC_4C57_ECE3_29DF), KeysFor(Block(0), false)) == Block(0xE64D_CAE2_B41D_A21A)
    ensures Cipher(Block(0xA3F8_DB31_7D96_C3F0), KeysFor(Block(0), false)) == Block(0x05E7_0233_0096_A843)
    ensures Cipher(Block(0x052B_C165_07F8_BAE4), KeysFor(Block(0), false)) == Block(0xFF05_00C8_C692_9A22)
    ensures Cipher(Block(0xD458_6A9A_FA41_FC9B), KeysFor(Block(0), false)) == Block(0x7D3A_6239_BED5_4FA3)
    ensures Cipher(Block(0xE63B_F16F_C4A4_9463), KeysFor(Block(0), false)) == Block(0xC6EF_03AC_69B6_3CCF)
    ensures Cipher(Block(0x0123_4567_89AB_CDEF), KeysFor(Block(0x1334_5779_9BBC_DFF1), false)) == Block(0x85E8_1354_0F0A_B405)
    ensures Cipher(Block(0xC200_0000_0000_0000), KeysFor(Block(0xD6CA_F200_0000_0000), false)) == Block(0x0291_9BFD_D195_78FC)
  {
    hide After, Cipher, KeysFor, Block, CipherWord;
    var n: nat;
    n := ZeroKey0();
    LastRound(0x0000_0000_0000_0000, 0, 0xBBEA_0DC2, 0x1C20_87FC, 0x1C20_87FC_BBEA_0DC2, 0x8CA6_4DE9_C1B1_23A7);
    n := ZeroKey1();
    LastRound(0x9D79_9A5E_3AF3_7545, 0, 0xF397_9A31, 0xCA07_B193, 0xCA07_B193_F397_9A31, 0xB7F9_3048_AF86_C0ED);
    n := ZeroKey2();
    LastRound(0x5A40_BD26_358C_C92F, 0, 0x1F52_7647, 0xA839_1EAB, 0xA839_1EAB_1F52_7647, 0x93AF_8ED5_BC59_2A41);
    n := ZeroKey3();
    LastRound(0x984F_EDF3_C6B3_4F06, 0, 0x2982_75AC, 0xD5DD_8123, 0xD5DD_8123_2982_75AC, 0xDD21_5A92_588B_5876);
    n := ZeroKey4();
    LastRound(0x085C_1327_C9D0_0ACE, 0, 0x9802_4D06, 0xA0B1_4634, 0xA0B1_4634_9802_4D06, 0x1826_0F88_9151_0CD0);
    n := ZeroKey5();
    LastRound(0x2BAC_4C57_ECE3_29DF, 0, 0x5D59_A6CD, 0x0FB0_3322, 0x0FB0_3322_5D59_A6CD, 0xE64D_CAE2_B41D_A21A);
    n := ZeroKey6();
    LastRound(0xA3F8_DB31_7D96_C3F0, 0, 0x624A_40AE, 0x8228_238B, 0x8228_238B_624A_40AE, 0x05E7_0233_0096_A843);
    n := ZeroKey7();
    LastRound(0x052B_C165_07F8_BAE4, 0, 0x7981_49F1, 0x1961_1303, 0x1961_1303_7981_49F1, 0xFF05_00C8_C692_9A22);
    n := ZeroKey8();
    LastRound(0xD458_6A9A_FA41_FC9B, 0, 0xB09F_5BD6, 0x653B_71E9, 0x653B_71E9_B09F_5BD6, 0x7D3A_6239_BED5_4FA3);
    n := ZeroKey9();
    LastRound(0xE63B_F16F_C4A4_9463, 0, 0xAB7A_DAA7, 0x9360_EB96, 0x9360_EB96_AB7A_DAA7, 0xC6EF_03AC_69B6_3CCF);
    n := TextbookBlock();
    LastRound(0x0123_4567_89AB_CDEF, 0x1334_5779_9BBC_DFF1, 0x4342_3234, 0x0A4C_D995, 0x0A4C_D995_4342_3234, 0x85E8_1354_0F0A_B405);
    n := PasswordBlock();
    LastRound(0xC200_0000_0000_0000, 0xD6CA_F200_0000_0000, 0xBEC8_CC05, 0xD8FE_A83E, 0xD8FE_A83E_BEC8_CC05, 0x0291_9BFD_D195_78FC);
  }
}
