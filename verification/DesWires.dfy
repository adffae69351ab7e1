/** Bit by bit, what the words of the reference cipher are made of. */
module DesWires {
  import T = DesTables
  import opened Des
  import opened DesWords

  predicate Same(w: bv64, i: nat, x: bv64, j: nat)
    requires i < 64 && j < 64
  {
    BitOf(w, i) == BitOf(x, j)
  }

  lemma ShiftXor(x: bv64, y: bv64, n: bv6)
    ensures ((x ^ y) >> n) & 1 == ((x >> n) & 1) ^ ((y >> n) & 1)
  {
  }

  lemma LowXor(x: bv64, y: bv64, n: bv6)
    ensures Low(x ^ y, n) == Xor(Low(x, n), Low(y, n))
  {
    ShiftXor(x, y, n);
  }

  lemma BitOfXor(x: bv64, y: bv64, i: nat)
    requires i < 64
    ensures BitOf(XorWord(x, y), i) == Xor(BitOf(x, i), BitOf(y, i))
  {
    hide Low;
    LowXor(x, y, i as bv6);
  }

  lemma Cases28(j: nat)
    requires j < 28
    ensures
      j == 0 || j == 1 || j == 2 || j == 3 || j == 4 || j == 5 || j == 6 || j == 7 || j == 8 || j == 9
      || j == 10 || j == 11 || j == 12 || j == 13 || j == 14 || j == 15 || j == 16 || j == 17 || j == 18
      || j == 19 || j == 20 || j == 21 || j == 22 || j == 23 || j == 24 || j == 25 || j == 26 || j == 27
  {
  }

  lemma Cases32(j: nat)
    requires j < 32
    ensures
      j == 0 || j == 1 || j == 2 || j == 3 || j == 4 || j == 5 || j == 6 || j == 7 || j == 8 || j == 9
      || j == 10 || j == 11 || j == 12 || j == 13 || j == 14 || j == 15 || j == 16 || j == 17 || j == 18
      || j == 19 || j == 20 || j == 21 || j == 22 || j == 23 || j == 24 || j == 25 || j == 26 || j == 27
      || j == 28 || j == 29 || j == 30 || j == 31
  {
  }

  lemma ExpandLeftWires(r: bv64)
    requires r <= 0xFFFF_FFFF
    ensures
      var w := ExpandWord(r);
      Same(w, 47, r, 0) && Same(w, 46, r, 31) && Same(w, 45, r, 30) && Same(w, 44, r, 29)
      && Same(w, 43, r, 28) && Same(w, 42, r, 27) && Same(w, 41, r, 28) && Same(w, 40, r, 27)
      && Same(w, 39, r, 26) && Same(w, 38, r, 25) && Same(w, 37, r, 24) && Same(w, 36, r, 23)
      && Same(w, 35, r, 24) && Same(w, 34, r, 23) && Same(w, 33, r, 22) && Same(w, 32, r, 21)
      && Same(w, 31, r, 20) && Same(w, 30, r, 19) && Same(w, 29, r, 20) && Same(w, 28, r, 19)
      && Same(w, 27, r, 18) && Same(w, 26, r, 17) && Same(w, 25, r, 16) && Same(w, 24, r, 15)
  {
  }

  lemma ExpandRightWires(r: bv64)
    requires r <= 0xFFFF_FFFF
    ensures
      var w := ExpandWord(r);
      Same(w, 23, r, 16) && Same(w, 22, r, 15) && Same(w, 21, r, 14) && Same(w, 20, r, 13)
      && Same(w, 19, r, 12) && Same(w, 18, r, 11) && Same(w, 17, r, 12) && Same(w, 16, r, 11)
      && Same(w, 15, r, 10) && Same(w, 14, r, 9) && Same(w, 13, r, 8) && Same(w, 12, r, 7)
      && Same(w, 11, r, 8) && Same(w, 10, r, 7) && Same(w, 9, r, 6) && Same(w, 8, r, 5)
      && Same(w, 7, r, 4) && Same(w, 6, r, 3) && Same(w, 5, r, 4) && Same(w, 4, r, 3)
      && Same(w, 3, r, 2) && Same(w, 2, r, 1) && Same(w, 1, r, 0) && Same(w, 0, r, 31)
  {
  }

  lemma ExpandLeftBit(r: bv64, j: nat)
    requires r <= 0xFFFF_FFFF && j < 24
    ensures BitOf(ExpandWord(r), 47 - j) == BitOf(r, 32 - T.E(j))
  {
    hide BitOf, ExpandWord;
    ExpandLeftWires(r);
    Cases28(j);
  }

  lemma ExpandRightBit(r: bv64, j: nat)
    requires r <= 0xFFFF_FFFF && j < 24
    ensures BitOf(ExpandWord(r), 23 - j) == BitOf(r, 32 - T.E(24 + j))
  {
    hide BitOf, ExpandWord;
    ExpandRightWires(r);
    Cases28(j);
  }

  lemma ExpandBit(r: bv64, j: nat)
    requires r <= 0xFFFF_FFFF && j < 48
    ensures BitOf(ExpandWord(r), 47 - j) == BitOf(r, 32 - T.E(j))
  {
    hide BitOf, ExpandWord, T.E;
    if j < 24 {
      ExpandLeftBit(r, j);
    } else {
      ExpandRightBit(r, j - 24);
    }
  }

  lemma PermuteWires(f: bv64)
    ensures
      var w := PermuteWord(f);
      Same(w, 31, f, 16) && Same(w, 30, f, 25) && Same(w, 29, f, 12) && Same(w, 28, f, 11)
      && Same(w, 27, f, 3) && Same(w, 26, f, 20) && Same(w, 25, f, 4) && Same(w, 24, f, 15)
      && Same(w, 23, f, 31) && Same(w, 22, f, 17) && Same(w, 21, f, 9) && Same(w, 20, f, 6)
      && Same(w, 19, f, 27) && Same(w, 18, f, 14) && Same(w, 17, f, 1) && Same(w, 16, f, 22)
      && Same(w, 15, f, 30) && Same(w, 14, f, 24) && Same(w, 13, f, 8) && Same(w, 12, f, 18)
      && Same(w, 11, f, 0) && Same(w, 10, f, 5) && Same(w, 9, f, 29) && Same(w, 8, f, 23)
      && Same(w, 7, f, 13) && Same(w, 6, f, 19) && Same(w, 5, f, 2) && Same(w, 4, f, 26)
      && Same(w, 3, f, 10) && Same(w, 2, f, 21) && Same(w, 1, f, 28) && Same(w, 0, f, 7)
  {
  }

  lemma PermuteBit(f: bv64, j: nat)
    requires j < 32
    ensures BitOf(PermuteWord(f), 31 - j) == BitOf(f, 32 - T.P(j))
  {
    hide BitOf, PermuteWord;
    PermuteWires(f);
    Cases32(j);
  }

  lemma InitialWires0(b: bv64)
    ensures
      var w := InitialWord(b);
      Same(w, 63, b, 6) && Same(w, 62, b, 14) && Same(w, 61, b, 22) && Same(w, 60, b, 30)
      && Same(w, 59, b, 38) && Same(w, 58, b, 46) && Same(w, 57, b, 54) && Same(w, 56, b, 62)
      && Same(w, 55, b, 4) && Same(w, 54, b, 12) && Same(w, 53, b, 20) && Same(w, 52, b, 28)
      && Same(w, 51, b, 36) && Same(w, 50, b, 44) && Same(w, 49, b, 52) && Same(w, 48, b, 60)
  {
  }

  lemma InitialWires1(b: bv64)
    ensures
      var w := InitialWord(b);
      Same(w, 47, b, 2) && Same(w, 46, b, 10) && Same(w, 45, b, 18) && Same(w, 44, b, 26)
      && Same(w, 43, b, 34) && Same(w, 42, b, 42) && Same(w, 41, b, 50) && Same(w, 40, b, 58)
      && Same(w, 39, b, 0) && Same(w, 38, b, 8) && Same(w, 37, b, 16) && Same(w, 36, b, 24)
      && Same(w, 35, b, 32) && Same(w, 34, b, 40) && Same(w, 33, b, 48) && Same(w, 32, b, 56)
  {
  }

  lemma InitialWires2(b: bv64)
    ensures
      var w := InitialWord(b);
      Same(w, 31, b, 7) && Same(w, 30, b, 15) && Same(w, 29, b, 23) && Same(w, 28, b, 31)
      && Same(w, 27, b, 39) && Same(w, 26, b, 47) && Same(w, 25, b, 55) && Same(w, 24, b, 63)
      && Same(w, 23, b, 5) && Same(w, 22, b, 13) && Same(w, 21, b, 21) && Same(w, 20, b, 29)
      && Same(w, 19, b, 37) && Same(w, 18, b, 45) && Same(w, 17, b, 53) && Same(w, 16, b, 61)
  {
  }

  lemma InitialWires3(b: bv64)
    ensures
      var w := InitialWord(b);
      Same(w, 15, b, 3) && Same(w, 14, b, 11) && Same(w, 13, b, 19) && Same(w, 12, b, 27)
      && Same(w, 11, b, 35) && Same(w, 10, b, 43) && Same(w, 9, b, 51) && Same(w, 8, b, 59)
      && Same(w, 7, b, 1) && Same(w, 6, b, 9) && Same(w, 5, b, 17) && Same(w, 4, b, 25)
      && Same(w, 3, b, 33) && Same(w, 2, b, 41) && Same(w, 1, b, 49) && Same(w, 0, b, 57)
  {
  }

  lemma InitialLeftBit(b: bv64, j: nat)
    requires j < 32
    ensures BitOf(InitialWord(b), 63 - j) == BitOf(b, 64 - T.IP(j))
  {
    hide BitOf, InitialWord;
    InitialWires0(b);
    InitialWires1(b);
    Cases32(j);
  }

  lemma InitialRightBit(b: bv64, j: nat)
    requires j < 32
    ensures BitOf(InitialWord(b), 31 - j) == BitOf(b, 64 - T.IP(32 + j))
  {
    hide BitOf, InitialWord;
    InitialWires2(b);
    InitialWires3(b);
    Cases32(j);
  }

  lemma InitialBit(b: bv64, j: nat)
    requires j < 64
    ensures BitOf(InitialWord(b), 63 - j) == BitOf(b, 64 - T.IP(j))
  {
    hide BitOf, InitialWord, T.IP;
    if j < 32 {
      InitialLeftBit(b, j);
    } else {
      InitialRightBit(b, j - 32);
    }
  }

  lemma FinalThenInitial(x: bv64)
    ensures InitialWord(FinalWord(x)) == x
  {
  }

  lemma SwapThere(x: bv64, n: bv6)
    ensures n < 32 ==> Low(SwapWord(x), n) == Low(x, n + 32) && Low(SwapWord(x), n + 32) == Low(x, n)
  {
  }

  lemma PlaceAbove(n: nat)
    requires n < 32
    ensures (n + 32) as bv6 == (n as bv6) + 32 && n as bv6 < 32
  {
    Cases32(n);
  }

  lemma SwapBit(x: bv64, j: nat)
    requires j < 64
    ensures BitOf(SwapWord(x), 63 - j) == BitOf(x, if j < 32 then 31 - j else 95 - j)
  {
    hide Low, SwapWord;
    var n := if j < 32 then 31 - j else 63 - j;
    SwapThere(x, n as bv6);
    PlaceAbove(n);
  }

  lemma FirstWires(key: bv64)
    ensures
      var w := FirstHalf(key);
      Same(w, 27, key, 7) && Same(w, 26, key, 15) && Same(w, 25, key, 23) && Same(w, 24, key, 31)
      && Same(w, 23, key, 39) && Same(w, 22, key, 47) && Same(w, 21, key, 55) && Same(w, 20, key, 63)
      && Same(w, 19, key, 6) && Same(w, 18, key, 14) && Same(w, 17, key, 22) && Same(w, 16, key, 30)
      && Same(w, 15, key, 38) && Same(w, 14, key, 46) && Same(w, 13, key, 54) && Same(w, 12, key, 62)
      && Same(w, 11, key, 5) && Same(w, 10, key, 13) && Same(w, 9, key, 21) && Same(w, 8, key, 29)
      && Same(w, 7, key, 37) && Same(w, 6, key, 45) && Same(w, 5, key, 53) && Same(w, 4, key, 61)
      && Same(w, 3, key, 4) && Same(w, 2, key, 12) && Same(w, 1, key, 20) && Same(w, 0, key, 28)
  {
  }

  lemma FirstBit(key: bv64, j: nat)
    requires j < 28
    ensures BitOf(FirstHalf(key), 27 - j) == BitOf(key, 64 - T.PC1C(j))
  {
    hide BitOf, FirstHalf;
    FirstWires(key);
    Cases28(j);
  }

  lemma SecondWires(key: bv64)
    ensures
      var w := SecondHalf(key);
      Same(w, 27, key, 1) && Same(w, 26, key, 9) && Same(w, 25, key, 17) && Same(w, 24, key, 25)
      && Same(w, 23, key, 33) && Same(w, 22, key, 41) && Same(w, 21, key, 49) && Same(w, 20, key, 57)
      && Same(w, 19, key, 2) && Same(w, 18, key, 10) && Same(w, 17, key, 18) && Same(w, 16, key, 26)
      && Same(w, 15, key, 34) && Same(w, 14, key, 42) && Same(w, 13, key, 50) && Same(w, 12, key, 58)
      && Same(w, 11, key, 3) && Same(w, 10, key, 11) && Same(w, 9, key, 19) && Same(w, 8, key, 27)
      && Same(w, 7, key, 35) && Same(w, 6, key, 43) && Same(w, 5, key, 51) && Same(w, 4, key, 59)
      && Same(w, 3, key, 36) && Same(w, 2, key, 44) && Same(w, 1, key, 52) && Same(w, 0, key, 60)
  {
  }

  lemma SecondBit(key: bv64, j: nat)
    requires j < 28
    ensures BitOf(SecondHalf(key), 27 - j) == BitOf(key, 64 - T.PC1D(j))
  {
    hide BitOf, SecondHalf;
    SecondWires(key);
    Cases28(j);
  }

  lemma TurnWires(c: bv64)
    requires c <= 0xFFF_FFFF
    ensures
      var w := OneTurn(c);
      Same(w, 27, c, 26) && Same(w, 26, c, 25) && Same(w, 25, c, 24) && Same(w, 24, c, 23)
      && Same(w, 23, c, 22) && Same(w, 22, c, 21) && Same(w, 21, c, 20) && Same(w, 20, c, 19)
      && Same(w, 19, c, 18) && Same(w, 18, c, 17) && Same(w, 17, c, 16) && Same(w, 16, c, 15)
      && Same(w, 15, c, 14) && Same(w, 14, c, 13) && Same(w, 13, c, 12) && Same(w, 12, c, 11)
      && Same(w, 11, c, 10) && Same(w, 10, c, 9) && Same(w, 9, c, 8) && Same(w, 8, c, 7)
      && Same(w, 7, c, 6) && Same(w, 6, c, 5) && Same(w, 5, c, 4) && Same(w, 4, c, 3)
      && Same(w, 3, c, 2) && Same(w, 2, c, 1) && Same(w, 1, c, 0) && Same(w, 0, c, 27)
  {
  }

  lemma TurnBit(c: bv64, j: nat)
    requires j < 28 && c <= 0xFFF_FFFF
    ensures BitOf(OneTurn(c), 27 - j) == BitOf(c, 27 - (j + 1) % 28)
  {
    hide BitOf, OneTurn;
    TurnWires(c);
    Cases28(j);
  }

  lemma PickLeftWires(c: bv64, d: bv64)
    ensures
      var w := PickWord(c, d);
      Same(w, 47, c, 14) && Same(w, 46, c, 11) && Same(w, 45, c, 17) && Same(w, 44, c, 4)
      && Same(w, 43, c, 27) && Same(w, 42, c, 23) && Same(w, 41, c, 25) && Same(w, 40, c, 0)
      && Same(w, 39, c, 13) && Same(w, 38, c, 22) && Same(w, 37, c, 7) && Same(w, 36, c, 18)
      && Same(w, 35, c, 5) && Same(w, 34, c, 9) && Same(w, 33, c, 16) && Same(w, 32, c, 24)
      && Same(w, 31, c, 2) && Same(w, 30, c, 20) && Same(w, 29, c, 12) && Same(w, 28, c, 21)
      && Same(w, 27, c, 1) && Same(w, 26, c, 8) && Same(w, 25, c, 15) && Same(w, 24, c, 26)
  {
  }

  lemma PickRightWires(c: bv64, d: bv64)
    ensures
      var w := PickWord(c, d);
      Same(w, 23, d, 15) && Same(w, 22, d, 4) && Same(w, 21, d, 25) && Same(w, 20, d, 19)
      && Same(w, 19, d, 9) && Same(w, 18, d, 1) && Same(w, 17, d, 26) && Same(w, 16, d, 16)
      && Same(w, 15, d, 5) && Same(w, 14, d, 11) && Same(w, 13, d, 23) && Same(w, 12, d, 8)
      && Same(w, 11, d, 12) && Same(w, 10, d, 7) && Same(w, 9, d, 17) && Same(w, 8, d, 0)
      && Same(w, 7, d, 22) && Same(w, 6, d, 3) && Same(w, 5, d, 10) && Same(w, 4, d, 14)
      && Same(w, 3, d, 6) && Same(w, 2, d, 20) && Same(w, 1, d, 27) && Same(w, 0, d, 24)
  {
  }

  lemma PickLeftBit(c: bv64, d: bv64, j: nat)
    requires j < 24
    ensures BitOf(PickWord(c, d), 47 - j) == BitOf(c, 28 - T.PC2C(j))
  {
    hide BitOf, PickWord;
    PickLeftWires(c, d);
    Cases28(j);
  }

  lemma PickRightBit(c: bv64, d: bv64, j: nat)
    requires j < 24
    ensures BitOf(PickWord(c, d), 23 - j) == BitOf(d, 56 - T.PC2D(j))
  {
    hide BitOf, PickWord;
    PickRightWires(c, d);
    Cases28(j);
  }

  lemma PickBit(c: bv64, d: bv64, j: nat)
    requires j < 48
    ensures BitOf(PickWord(c, d), 47 - j) == if j < 24 then BitOf(c, 28 - T.PC2C(j)) else BitOf(d, 56 - T.PC2D(j - 24))
  {
    hide BitOf, PickWord, T.PC2C, T.PC2D;
    if j < 24 {
      PickLeftBit(c, d, j);
    } else {
      PickRightBit(c, d, j - 24);
    }
  }

  lemma SixWires(p: bv64)
    ensures
      && Same((p >> 42) & 63, 5, p, 47) && Same((p >> 42) & 63, 4, p, 46) && Same((p >> 42) & 63, 3, p, 45)
      && Same((p >> 42) & 63, 2, p, 44) && Same((p >> 42) & 63, 1, p, 43)
      && Same((p >> 42) & 63, 0, p, 42)
      && Same((p >> 36) & 63, 5, p, 41) && Same((p >> 36) & 63, 4, p, 40) && Same((p >> 36) & 63, 3, p, 39)
      && Same((p >> 36) & 63, 2, p, 38) && Same((p >> 36) & 63, 1, p, 37)
      && Same((p >> 36) & 63, 0, p, 36)
      && Same((p >> 30) & 63, 5, p, 35) && Same((p >> 30) & 63, 4, p, 34) && Same((p >> 30) & 63, 3, p, 33)
      && Same((p >> 30) & 63, 2, p, 32) && Same((p >> 30) & 63, 1, p, 31)
      && Same((p >> 30) & 63, 0, p, 30)
      && Same((p >> 24) & 63, 5, p, 29) && Same((p >> 24) & 63, 4, p, 28) && Same((p >> 24) & 63, 3, p, 27)
      && Same((p >> 24) & 63, 2, p, 26) && Same((p >> 24) & 63, 1, p, 25)
      && Same((p >> 24) & 63, 0, p, 24)
      && Same((p >> 18) & 63, 5, p, 23) && Same((p >> 18) & 63, 4, p, 22) && Same((p >> 18) & 63, 3, p, 21)
      && Same((p >> 18) & 63, 2, p, 20) && Same((p >> 18) & 63, 1, p, 19)
      && Same((p >> 18) & 63, 0, p, 18)
      && Same((p >> 12) & 63, 5, p, 17) && Same((p >> 12) & 63, 4, p, 16) && Same((p >> 12) & 63, 3, p, 15)
      && Same((p >> 12) & 63, 2, p, 14) && Same((p >> 12) & 63, 1, p, 13)
      && Same((p >> 12) & 63, 0, p, 12)
      && Same((p >> 6) & 63, 5, p, 11) && Same((p >> 6) & 63, 4, p, 10) && Same((p >> 6) & 63, 3, p, 9)
      && Same((p >> 6) & 63, 2, p, 8) && Same((p >> 6) & 63, 1, p, 7) && Same((p >> 6) & 63, 0, p, 6)
      && Same(p & 63, 5, p, 5) && Same(p & 63, 4, p, 4) && Same(p & 63, 3, p, 3) && Same(p & 63, 2, p, 2)
      && Same(p & 63, 1, p, 1) && Same(p & 63, 0, p, 0)
  {
  }

  lemma EightWires(a: bv64, b: bv64, c: bv64, d: bv64, e: bv64, f: bv64, g: bv64, h: bv64)
    requires a < 16 && b < 16 && c < 16 && d < 16 && e < 16 && f < 16 && g < 16 && h < 16
    ensures
      var w := Eight(a, b, c, d, e, f, g, h);
      Same(w, 31, a, 3) && Same(w, 30, a, 2) && Same(w, 29, a, 1) && Same(w, 28, a, 0)
      && Same(w, 27, b, 3) && Same(w, 26, b, 2) && Same(w, 25, b, 1) && Same(w, 24, b, 0)
      && Same(w, 23, c, 3) && Same(w, 22, c, 2) && Same(w, 21, c, 1) && Same(w, 20, c, 0)
      && Same(w, 19, d, 3) && Same(w, 18, d, 2) && Same(w, 17, d, 1) && Same(w, 16, d, 0)
      && Same(w, 15, e, 3) && Same(w, 14, e, 2) && Same(w, 13, e, 1) && Same(w, 12, e, 0)
      && Same(w, 11, f, 3) && Same(w, 10, f, 2) && Same(w, 9, f, 1) && Same(w, 8, f, 0)
      && Same(w, 7, g, 3) && Same(w, 6, g, 2) && Same(w, 5, g, 1) && Same(w, 4, g, 0)
      && Same(w, 3, h, 3) && Same(w, 2, h, 2) && Same(w, 1, h, 1) && Same(w, 0, h, 0)
  {
  }

  lemma DigitSmall(row: bv64, c: bv64)
    requires c < 16
    ensures DigitOf(row, c) < 16
  {
  }

  lemma BoxSmall(p: bv64, box: nat)
    requires box < 8
    ensures BoxWord(p, box) < 16
  {
    hide SixOf, RowWord, DigitOf;
    var six := SixOf(p, box);
    DigitSmall(RowWord(box, ((six >> 4) & 2) | (six & 1)), (six >> 1) & 15);
  }

  lemma SelectedIsBoxes(p: bv64)
    ensures SelectedWord(p) == Eight(BoxWord(p, 0), BoxWord(p, 1), BoxWord(p, 2), BoxWord(p, 3),
                                     BoxWord(p, 4), BoxWord(p, 5), BoxWord(p, 6), BoxWord(p, 7))
  {
    hide SelectWord, Eight;
  }

  lemma SelectedBit(p: bv64, box: nat, i: nat)
    requires box < 8 && i < 4
    ensures BitOf(SelectedWord(p), 31 - (4 * box + i)) == BitOf(BoxWord(p, box), 3 - i)
  {
    hide BitOf, Eight, BoxWord, SelectedWord;
    SelectedIsBoxes(p);
    forall n: nat | n < 8
      ensures BoxWord(p, n) < 16
    {
      BoxSmall(p, n);
    }
    EightWires(BoxWord(p, 0), BoxWord(p, 1), BoxWord(p, 2), BoxWord(p, 3), BoxWord(p, 4), BoxWord(p, 5), BoxWord(p, 6), BoxWord(p, 7));
    assert i == 0 || i == 1 || i == 2 || i == 3;
    Cases8(box);
  }

  lemma Cases8(j: nat)
    requires j < 8
    ensures j == 0 || j == 1 || j == 2 || j == 3 || j == 4 || j == 5 || j == 6 || j == 7
  {
  }

  // ----- the selection tables

  lemma Box1Rows01(c: bv64)
    requires c < 16
    ensures T.S1Row(0)[Number(c)] == Number(DigitOf(0xE4D1_2FB8_3A6C_5907, c))
    ensures T.S1Row(1)[Number(c)] == Number(DigitOf(0x0F74_E2D1_A6CB_9538, c))
  {
  }

  lemma Box1Rows23(c: bv64)
    requires c < 16
    ensures T.S1Row(2)[Number(c)] == Number(DigitOf(0x41E8_D62B_FC97_3A50, c))
    ensures T.S1Row(3)[Number(c)] == Number(DigitOf(0xFC82_4917_5B3E_A06D, c))
  {
  }

  lemma Box2Rows01(c: bv64)
    requires c < 16
    ensures T.S2Row(0)[Number(c)] == Number(DigitOf(0xF18E_6B34_972D_C05A, c))
    ensures T.S2Row(1)[Number(c)] == Number(DigitOf(0x3D47_F28E_C01A_69B5, c))
  {
  }

  lemma Box2Rows23(c: bv64)
    requires c < 16
    ensures T.S2Row(2)[Number(c)] == Number(DigitOf(0x0E7B_A4D1_58C6_932F, c))
    ensures T.S2Row(3)[Number(c)] == Number(DigitOf(0xD8A1_3F42_B67C_05E9, c))
  {
  }

  lemma Box3Rows01(c: bv64)
    requires c < 16
    ensures T.S3Row(0)[Number(c)] == Number(DigitOf(0xA09E_63F5_1DC7_B428, c))
    ensures T.S3Row(1)[Number(c)] == Number(DigitOf(0xD709_346A_285E_CBF1, c))
  {
  }

  lemma Box3Rows23(c: bv64)
    requires c < 16
    ensures T.S3Row(2)[Number(c)] == Number(DigitOf(0xD649_8F30_B12C_5AE7, c))
    ensures T.S3Row(3)[Number(c)] == Number(DigitOf(0x1AD0_6987_4FE3_B52C, c))
  {
  }

  lemma Box4Rows01(c: bv64)
    requires c < 16
    ensures T.S4Row(0)[Number(c)] == Number(DigitOf(0x7DE3_069A_1285_BC4F, c))
    ensures T.S4Row(1)[Number(c)] == Number(DigitOf(0xD8B5_6F03_472C_1AE9, c))
  {
  }

  lemma Box4Rows23(c: bv64)
    requires c < 16
    ensures T.S4Row(2)[Number(c)] == Number(DigitOf(0xA690_CB7D_F13E_5284, c))
    ensures T.S4Row(3)[Number(c)] == Number(DigitOf(0x3F06_A1D8_945B_C72E, c))
  {
  }

  lemma Box5Rows01(c: bv64)
    requires c < 16
    ensures T.S5Row(0)[Number(c)] == Number(DigitOf(0x2C41_7AB6_853F_D0E9, c))
    ensures T.S5Row(1)[Number(c)] == Number(DigitOf(0xEB2C_47D1_50FA_3986, c))
  {
  }

  lemma Box5Rows23(c: bv64)
    requires c < 16
    ensures T.S5Row(2)[Number(c)] == Number(DigitOf(0x421B_AD78_F9C5_630E, c))
    ensures T.S5Row(3)[Number(c)] == Number(DigitOf(0xB8C7_1E2D_6F09_A453, c))
  {
  }

  lemma Box6Rows01(c: bv64)
    requires c < 16
    ensures T.S6Row(0)[Number(c)] == Number(DigitOf(0xC1AF_9268_0D34_E75B, c))
    ensures T.S6Row(1)[Number(c)] == Number(DigitOf(0xAF42_7C95_61DE_0B38, c))
  {
  }

  lemma Box6Rows23(c: bv64)
    requires c < 16
    ensures T.S6Row(2)[Number(c)] == Number(DigitOf(0x9EF5_28C3_704A_1DB6, c))
    ensures T.S6Row(3)[Number(c)] == Number(DigitOf(0x432C_95FA_BE17_608D, c))
  {
  }

  lemma Box7Rows01(c: bv64)
    requires c < 16
    ensures T.S7Row(0)[Number(c)] == Number(DigitOf(0x4B2E_F08D_3C97_5A61, c))
    ensures T.S7Row(1)[Number(c)] == Number(DigitOf(0xD0B7_491A_E35C_2F86, c))
  {
  }

  lemma Box7Rows23(c: bv64)
    requires c < 16
    ensures T.S7Row(2)[Number(c)] == Number(DigitOf(0x14BD_C37E_AF68_0592, c))
    ensures T.S7Row(3)[Number(c)] == Number(DigitOf(0x6BD8_14A7_950F_E23C, c))
  {
  }

  lemma Box8Rows01(c: bv64)
    requires c < 16
    ensures T.S8Row(0)[Number(c)] == Number(DigitOf(0xD284_6FB1_A93E_50C7, c))
    ensures T.S8Row(1)[Number(c)] == Number(DigitOf(0x1FD8_A374_C56B_0E92, c))
  {
  }

  lemma Box8Rows23(c: bv64)
    requires c < 16
    ensures T.S8Row(2)[Number(c)] == Number(DigitOf(0x7B41_9CE2_06AD_F358, c))
    ensures T.S8Row(3)[Number(c)] == Number(DigitOf(0x21E7_4A8D_FC90_356B, c))
  {
  }

  function RowNumber(r: bv64): (n: nat)
    ensures n < 4
  {
    if r == 0 then 0 else if r == 1 then 1 else if r == 2 then 2 else 3
  }

  lemma RowAgrees(box: nat, r: bv64, c: bv64)
    requires box < 8 && r < 4 && c < 16
    ensures T.SRow(box, RowNumber(r))[Number(c)] == Number(DigitOf(RowWord(box, r), c))
  {
    hide Number, DigitOf, T.S1Row, T.S2Row, T.S3Row, T.S4Row, T.S5Row, T.S6Row, T.S7Row, T.S8Row;
    match box
    case 0 => Box1Rows01(c); Box1Rows23(c);
    case 1 => Box2Rows01(c); Box2Rows23(c);
    case 2 => Box3Rows01(c); Box3Rows23(c);
    case 3 => Box4Rows01(c); Box4Rows23(c);
    case 4 => Box5Rows01(c); Box5Rows23(c);
    case 5 => Box6Rows01(c); Box6Rows23(c);
    case 6 => Box7Rows01(c); Box7Rows23(c);
    case 7 => Box8Rows01(c); Box8Rows23(c);
  }

  /** The six bits in the order in which they index a table. */
  function IndexWord(six: bv64): (v: nat)
    ensures v < 64
  {
    32 * BitOf(six, 5) + 8 * BitOf(six, 4) + 4 * BitOf(six, 3) + 2 * BitOf(six, 2) + BitOf(six, 1) + 16 * BitOf(six, 0)
  }

  lemma IndexSplit(six: bv64)
    requires six < 64
    ensures
      var r, c := ((six >> 4) & 2) | (six & 1), (six >> 1) & 15;
      r < 4 && c < 16 && IndexWord(six) == 16 * RowNumber(r) + Number(c)
  {
  }

  lemma SplitIndex(box: nat, r: nat, c: nat)
    requires box < 8 && r < 4 && c < 16
    ensures T.S(box, 16 * r + c) == T.SRow(box, r)[c]
  {
    hide T.SRow;
    assert (16 * r + c) / 16 == r && (16 * r + c) % 16 == c;
  }

  lemma RowSelected(box: nat, r: bv64, c: bv64)
    requires box < 8 && r < 4 && c < 16
    ensures T.S(box, 16 * RowNumber(r) + Number(c)) == Number(DigitOf(RowWord(box, r), c))
  {
    hide RowNumber, Number, DigitOf, RowWord, T.SRow, T.S;
    RowAgrees(box, r, c);
    SplitIndex(box, RowNumber(r), Number(c));
  }

  lemma SelectAgrees(box: nat, six: bv64)
    requires box < 8 && six < 64
    ensures T.S(box, IndexWord(six)) == Number(SelectWord(box, six)) && SelectWord(box, six) < 16
  {
    DigitSmall(RowWord(box, ((six >> 4) & 2) | (six & 1)), (six >> 1) & 15);
    hide IndexWord, RowNumber, Number, DigitOf, RowWord, T.S;
    IndexSplit(six);
    RowSelected(box, ((six >> 4) & 2) | (six & 1), (six >> 1) & 15);
  }

  lemma NumberBit(w: bv64, i: nat)
    requires w < 16 && i < 4
    ensures Des.Nibble(Number(w), i) == BitOf(w, 3 - i)
  {
    assert w == 0 || w == 1 || w == 2 || w == 3 || w == 4 || w == 5 || w == 6 || w == 7
           || w == 8 || w == 9 || w == 10 || w == 11 || w == 12 || w == 13 || w == 14 || w == 15;
  }
}
